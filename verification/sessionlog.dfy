/** The session log: encoding recorded changes as lines, and rebuilding the conversation. */
module SessionLog {
  import opened Prelude
  import opened Conversation

  datatype CallEvent = CallEvent(id: string, tool: string, input: string)

  /** The log lines that matter to Resume; every other event type is OtherEvent. */
  datatype Line =
    | UserMessage(content: string)
    | AssistantThinking(content: string, signature: string)
    | AssistantMessage(content: string, calls: seq<CallEvent>)
    | ToolCompleted(id: string, ok: bool, content: string, truncated: bool)
    | CompactionApplied(from: int, to: int, summary: string)
    | OtherEvent

  // ------------------------------------------------------------- encoding

  function JoinedText(content: seq<Block>): string {
    if content == [] then ""
    else
      var before, last := JoinedText(content[..|content| - 1]), content[|content| - 1];
      if last.Text? then before + last.text else before
  }

  function ThinkingLines(content: seq<Block>): seq<Line> {
    if content == [] then []
    else
      var before, last := ThinkingLines(content[..|content| - 1]), content[|content| - 1];
      if last.Reasoning? then before + [AssistantThinking(last.thinking.text, last.thinking.signature)] else before
  }

  function CallEvents(content: seq<Block>): seq<CallEvent> {
    if content == [] then []
    else
      var before, last := CallEvents(content[..|content| - 1]), content[|content| - 1];
      if last.Call? then before + [CallEvent(last.call.id, last.call.name, last.call.input)] else before
  }

  function ResultLine(b: ResultBlock): Line {
    ToolCompleted(b.callID, !b.isError, b.content, b.truncated)
  }

  function ResultLines(content: seq<Block>): seq<Line> {
    if content == [] then []
    else
      var before, last := ResultLines(content[..|content| - 1]), content[|content| - 1];
      if last.Answer? then before + [ResultLine(last.result)] else before
  }

  function SpokenLine(content: seq<Block>): seq<Line> {
    if JoinedText(content) == "" && CallEvents(content) == [] then []
    else [AssistantMessage(JoinedText(content), CallEvents(content))]
  }

  predicate AllText(content: seq<Block>) { forall b :: b in content ==> b.Text? }
  predicate AllAnswers(content: seq<Block>) { forall b :: b in content ==> b.Answer? }
  predicate NoAnswers(content: seq<Block>) { forall b :: b in content ==> !b.Answer? }

  /** encode: None is an error, and then nothing is logged. */
  function Encode(r: Record): Option<seq<Line>> {
    var content := r.message.content;
    if r.kind == Merge then
      if r.message.role == User && |content| == 1 && content[0].Text? then Some([UserMessage(content[0].text)])
      else None
    else if r.message.role == User then
      if content == [] then Some([])
      else if AllText(content) then Some([UserMessage(JoinedText(content))])
      else if AllAnswers(content) then Some(ResultLines(content))
      else None
    else if NoAnswers(content) then Some(ThinkingLines(content) + SpokenLine(content))
    else None
  }

  /** encodeUserAppend: one kind of block per message, texts joined, a line per result. */
  method EncodeUserAppend(content: seq<Block>) returns (lines: Option<seq<Line>>)
    ensures lines == Encode(Record(Append, Message(User, content)))
  {
    if |content| == 0 {
      return Some([]);
    }
    for i := 1 to |content|
      invariant content[0].Text? ==> AllText(content[..i])
      invariant content[0].Answer? ==> AllAnswers(content[..i])
    {
      if (content[0].Text? && !content[i].Text?) || (content[0].Answer? && !content[i].Answer?) {
        assert content[0] in content && content[i] in content;
        return None;
      }
    }
    assert content[..|content|] == content && content[0] in content;
    if content[0].Text? {
      var text := "";
      for i := 0 to |content|
        invariant text == JoinedText(content[..i])
      {
        assert content[..i + 1][..i] == content[..i] && content[i] in content;
        text := text + content[i].text;
      }
      return Some([UserMessage(text)]);
    }
    if content[0].Answer? {
      var out := [];
      for i := 0 to |content|
        invariant out == ResultLines(content[..i])
      {
        assert content[..i + 1][..i] == content[..i] && content[i] in content;
        var result := content[i].result;
        out := out + [ToolCompleted(result.callID, !result.isError, result.content, result.truncated)];
      }
      return Some(out);
    }
    return None;
  }

  /** encodeAssistantAppend: a line per thinking block, then one line for all text and calls. */
  method EncodeAssistantAppend(content: seq<Block>) returns (lines: Option<seq<Line>>)
    ensures lines == Encode(Record(Append, Message(Assistant, content)))
  {
    var out, text, calls := [], "", [];
    for i := 0 to |content|
      invariant NoAnswers(content[..i])
      invariant out == ThinkingLines(content[..i])
      invariant text == JoinedText(content[..i])
      invariant calls == CallEvents(content[..i])
    {
      assert content[..i + 1][..i] == content[..i];
      match content[i] {
        case Text(t) => text := text + t;
        case Reasoning(t) => out := out + [AssistantThinking(t.text, t.signature)];
        case Call(c) => calls := calls + [CallEvent(c.id, c.name, c.input)];
        case Answer(_) =>
          assert content[i] in content;
          return None;
      }
    }
    assert content[..|content|] == content;
    if text != "" || |calls| > 0 {
      out := out + [AssistantMessage(text, calls)];
    } else {
      assert out == out + [];
    }
    lines := Some(out);
  }

  // ------------------------------------------------------------ rebuilding

  /** mergeUserText and mergeUserResult: a block joins a last user message, or starts one. */
  function AddUserBlock(conv: seq<Message>, b: Block): seq<Message> {
    var n := |conv|;
    if n > 0 && conv[n - 1].role == User then conv[..n - 1] + [Message(User, conv[n - 1].content + [b])]
    else conv + [Message(User, [b])]
  }

  function CallBlocks(calls: seq<CallEvent>): seq<Block> {
    if calls == [] then []
    else
      var last := calls[|calls| - 1];
      CallBlocks(calls[..|calls| - 1]) + [Call(ToolCall(last.id, last.tool, last.input))]
  }

  /** buildAssistantMessage */
  function Spoken(text: string, calls: seq<CallEvent>): Message {
    Message(Assistant, if text == "" then CallBlocks(calls) else [Text(text)] + CallBlocks(calls))
  }

  function Thought(text: string, signature: string): Message {
    Message(Assistant, [Reasoning(Thinking(text, signature, false, "", true))])
  }

  function IDs(calls: seq<CallEvent>): set<string> {
    set c | c in calls :: c.id
  }

  /** applyCompaction */
  function Compacted(conv: seq<Message>, from: int, to: int, summary: string): Option<seq<Message>> {
    if 0 <= from <= to < |conv| then Some(conv[..from] + [Message(Assistant, [Text(summary)])] + conv[to + 1..])
    else None
  }

  /** The variables of Resume's loop. */
  datatype Reading = Reading(conv: seq<Message>, transcript: seq<Message>, pending: set<string>)

  const NOTHING_READ := Reading([], [], {})

  /** One line read; None is a malformed log. */
  function Read1(s: Reading, line: Line): Option<Reading> {
    match line
    case UserMessage(text) =>
      Some(s.(conv := AddUserBlock(s.conv, Text(text)), transcript := AddUserBlock(s.transcript, Text(text))))
    case AssistantThinking(text, signature) =>
      Some(s.(conv := s.conv + [Thought(text, signature)], transcript := s.transcript + [Thought(text, signature)]))
    case AssistantMessage(text, calls) =>
      if text == "" && calls == [] then None
      else Some(Reading(s.conv + [Spoken(text, calls)], s.transcript + [Spoken(text, calls)], IDs(calls)))
    case ToolCompleted(id, ok, content, truncated) =>
      if id == "" || id !in s.pending then None
      else
        var b := Answer(ResultBlock(id, content, !ok, truncated, ""));
        Some(Reading(AddUserBlock(s.conv, b), AddUserBlock(s.transcript, b), s.pending - {id}))
    case CompactionApplied(from, to, summary) =>
      (match Compacted(s.conv, from, to, summary)
       case None => None
       case Some(conv) => Some(s.(conv := conv)))
    case OtherEvent => Some(s)
  }

  function Read(s: Reading, lines: seq<Line>): Option<Reading> {
    if lines == [] then Some(s)
    else
      match Read(s, lines[..|lines| - 1])
      case None => None
      case Some(mid) => Read1(mid, lines[|lines| - 1])
  }

  lemma {:induction false} ReadStopsAtError(s: Reading, lines: seq<Line>, i: nat)
    requires i <= |lines| && Read(s, lines[..i]).None?
    ensures Read(s, lines).None?
  {
    if i < |lines| {
      assert lines[..|lines| - 1][..i] == lines[..i];
      ReadStopsAtError(s, lines[..|lines| - 1], i);
    } else {
      assert lines[..i] == lines;
    }
  }

  /** Resume, over the complete lines of a log. */
  method Resume(lines: seq<Line>) returns (r: Option<(seq<Message>, seq<Message>)>)
    ensures r.Some? <==> Read(NOTHING_READ, lines).Some?
    ensures r.Some? ==> r.value == (Read(NOTHING_READ, lines).value.conv, Read(NOTHING_READ, lines).value.transcript)
  {
    var conv: seq<Message>, trans: seq<Message>, pending: set<string> := [], [], {};
    for i := 0 to |lines|
      invariant Read(NOTHING_READ, lines[..i]) == Some(Reading(conv, trans, pending))
    {
      assert lines[..i + 1][..i] == lines[..i];
      var bad := false;
      match lines[i] {
        case UserMessage(text) =>
          conv, trans := AddUserBlock(conv, Text(text)), AddUserBlock(trans, Text(text));
        case AssistantThinking(text, signature) =>
          conv, trans := conv + [Thought(text, signature)], trans + [Thought(text, signature)];
        case AssistantMessage(text, calls) =>
          bad := text == "" && |calls| == 0;
          if !bad {
            var m := BuildAssistantMessage(text, calls);
            conv, trans, pending := conv + [m], trans + [m], IDs(calls);
          }
        case ToolCompleted(id, ok, content, truncated) =>
          bad := id == "" || id !in pending;
          if !bad {
            var b := Answer(ResultBlock(id, content, !ok, truncated, ""));
            conv, trans, pending := AddUserBlock(conv, b), AddUserBlock(trans, b), pending - {id};
          }
        case CompactionApplied(from, to, summary) =>
          var replaced := Compacted(conv, from, to, summary);
          bad := replaced.None?;
          if !bad {
            conv := replaced.value;
          }
        case OtherEvent =>
      }
      if bad {
        ReadStopsAtError(NOTHING_READ, lines, i + 1);
        return None;
      }
    }
    assert lines[..|lines|] == lines;
    r := Some((conv, trans));
  }

  method BuildAssistantMessage(text: string, calls: seq<CallEvent>) returns (m: Message)
    ensures m == Spoken(text, calls)
  {
    var blocks: seq<Block> := if text != "" then [Text(text)] else [];
    ghost var head := blocks;
    for i := 0 to |calls|
      invariant blocks == head + CallBlocks(calls[..i])
    {
      assert calls[..i + 1][..i] == calls[..i];
      blocks := blocks + [Call(ToolCall(calls[i].id, calls[i].tool, calls[i].input))];
    }
    assert calls[..|calls|] == calls;
    m := Message(Assistant, blocks);
  }
}
