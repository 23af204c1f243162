/** The log rebuilds the conversation, up to one fixed normal form. */
module LogRebuilds {
  import opened Prelude
  import opened Conversation
  import opened SessionLog

  // -------------------------------------------------------- the normal form

  function NormBlock(b: Block): Block {
    if b.Answer? then Answer(b.result.(errorKind := "")) else b
  }

  function NormBlocks(content: seq<Block>): seq<Block> {
    if content == [] then [] else NormBlocks(content[..|content| - 1]) + [NormBlock(content[|content| - 1])]
  }

  /** Each thinking block as a message of its own, without its redacted data. */
  function Thoughts(content: seq<Block>): seq<Message> {
    if content == [] then []
    else
      var before, last := Thoughts(content[..|content| - 1]), content[|content| - 1];
      if last.Reasoning? then before + [Thought(last.thinking.text, last.thinking.signature)] else before
  }

  /** What survives of one message; of an assistant message its thoughts, and all text in front of
      all calls. */
  function NormMessage(m: Message): seq<Message> {
    if m.role == User then [Message(User, NormBlocks(m.content))]
    else if JoinedText(m.content) == "" && CallEvents(m.content) == [] then Thoughts(m.content)
    else Thoughts(m.content) + [Spoken(JoinedText(m.content), CallEvents(m.content))]
  }

  function Norm(conv: seq<Message>): seq<Message> {
    if conv == [] then [] else Norm(conv[..|conv| - 1]) + NormMessage(conv[|conv| - 1])
  }

  /** Adding a message, neighbouring user messages becoming one. */
  function Join1(conv: seq<Message>, m: Message): seq<Message> {
    if m.role == User && EndsOnUserMsg(conv) then
      conv[..|conv| - 1] + [Message(User, conv[|conv| - 1].content + m.content)]
    else conv + [m]
  }

  predicate EndsOnUserMsg(conv: seq<Message>) {
    conv != [] && conv[|conv| - 1].role == User
  }

  function Joined(conv: seq<Message>): seq<Message> {
    if conv == [] then [] else Join1(Joined(conv[..|conv| - 1]), conv[|conv| - 1])
  }

  function EncodeAll(records: seq<Record>): Option<seq<Line>> {
    if records == [] then Some([])
    else
      match EncodeAll(records[..|records| - 1])
      case None => None
      case Some(lines) =>
        match Encode(records[|records| - 1])
        case None => None
        case Some(more) => Some(lines + more)
  }

  // ---------------------------------------------------- reading in sequence

  lemma ReadSnoc(s: Reading, lines: seq<Line>, line: Line)
    requires Read(s, lines).Some?
    ensures Read(s, lines + [line]) == Read1(Read(s, lines).value, line)
  {
    assert (lines + [line])[..|lines|] == lines;
  }

  lemma {:induction false} ReadConcat(s: Reading, a: seq<Line>, b: seq<Line>)
    requires Read(s, a).Some?
    ensures Read(s, a + b) == Read(Read(s, a).value, b)
  {
    if b == [] {
      assert a + b == a;
    } else {
      assert (a + b)[..|a + b| - 1] == a + b[..|b| - 1];
      ReadConcat(s, a, b[..|b| - 1]);
    }
  }

  lemma {:induction false} NormConcat(a: seq<Message>, b: seq<Message>)
    ensures Norm(a + b) == Norm(a) + Norm(b)
  {
    if b == [] {
      assert a + b == a;
    } else {
      var n := |b| - 1;
      assert (a + b)[..|a + b| - 1] == a + b[..n] && (a + b)[|a + b| - 1] == b[n];
      NormConcat(a, b[..n]);
      Assoc(Norm(a), Norm(b[..n]), NormMessage(b[n]));
    }
  }

  lemma NormSnoc(conv: seq<Message>, m: Message)
    ensures Norm(conv + [m]) == Norm(conv) + NormMessage(m)
  {
    assert (conv + [m])[..|conv|] == conv;
  }

  lemma JoinedSnoc(conv: seq<Message>, m: Message)
    ensures Joined(conv + [m]) == Join1(Joined(conv), m)
  {
    assert (conv + [m])[..|conv|] == conv;
  }

  lemma {:induction false} JoinedConcatAssistant(a: seq<Message>, b: seq<Message>)
    requires forall m :: m in b ==> m.role == Assistant
    ensures Joined(a + b) == Joined(a) + b
  {
    if b == [] {
      assert a + b == a;
    } else {
      assert (a + b)[..|a + b| - 1] == a + b[..|b| - 1];
      JoinedConcatAssistant(a, b[..|b| - 1]);
    }
  }

  lemma {:induction false} ThoughtsAreAssistant(content: seq<Block>)
    ensures forall m :: m in Thoughts(content) ==> m.role == Assistant
  {
    if content != [] {
      ThoughtsAreAssistant(content[..|content| - 1]);
    }
  }

  /** The lines of an assistant message append exactly its normal form. */
  lemma {:induction false} ReadThinkingLines(s: Reading, content: seq<Block>)
    ensures Read(s, ThinkingLines(content))
         == Some(s.(conv := s.conv + Thoughts(content), transcript := s.transcript + Thoughts(content)))
  {
    if content == [] {
      assert s.conv + [] == s.conv && s.transcript + [] == s.transcript;
    } else {
      var n := |content| - 1;
      var lines := ThinkingLines(content[..n]);
      ReadThinkingLines(s, content[..n]);
      if content[n].Reasoning? {
        var t := content[n].thinking;
        ReadSnoc(s, lines, AssistantThinking(t.text, t.signature));
        Assoc(s.conv, Thoughts(content[..n]), [Thought(t.text, t.signature)]);
        Assoc(s.transcript, Thoughts(content[..n]), [Thought(t.text, t.signature)]);
      } else {
        assert lines + [] == lines && Thoughts(content[..n]) + [] == Thoughts(content[..n]);
      }
    }
  }

  lemma ReadAssistant(s: Reading, content: seq<Block>)
    ensures var r := Read(s, ThinkingLines(content) + SpokenLine(content));
      && r.Some?
      && r.value.conv == s.conv + NormMessage(Message(Assistant, content))
      && r.value.transcript == s.transcript + NormMessage(Message(Assistant, content))
      && r.value.pending
         == if CallEvents(content) != [] || JoinedText(content) != "" then IDs(CallEvents(content)) else s.pending
  {
    ReadThinkingLines(s, content);
    ReadConcat(s, ThinkingLines(content), SpokenLine(content));
    if JoinedText(content) != "" || CallEvents(content) != [] {
      var spoken := [Spoken(JoinedText(content), CallEvents(content))];
      Assoc(s.conv, Thoughts(content), spoken);
      Assoc(s.transcript, Thoughts(content), spoken);
      ReadOne(Read(s, ThinkingLines(content)).value, AssistantMessage(JoinedText(content), CallEvents(content)));
    } else {
      assert Thoughts(content) + [] == Thoughts(content);
    }
  }

  lemma {:induction false} CallEventsAreCalls(content: seq<Block>)
    ensures |CallEvents(content)| == |Calls(content)|
    ensures forall i :: 0 <= i < |Calls(content)| ==> CallEvents(content)[i].id == Calls(content)[i].id
  {
    if content != [] {
      CallEventsAreCalls(content[..|content| - 1]);
    }
  }

  /** The pending calls from index k on are still there. */
  ghost predicate StillPending(calls: seq<ToolCall>, k: nat, pending: set<string>) {
    forall i :: k <= i < |calls| ==> calls[i].id in pending
  }

  lemma ReadOneResult(s: Reading, calls: seq<ToolCall>, k: nat, b: ResultBlock)
    requires DistinctIDs(calls) && k < |calls| && StillPending(calls, k, s.pending) && b.callID == calls[k].id
    ensures var r := Read1(s, ResultLine(b));
      && r.Some?
      && r.value.conv == AddUserBlock(s.conv, NormBlock(Answer(b)))
      && r.value.transcript == AddUserBlock(s.transcript, NormBlock(Answer(b)))
      && StillPending(calls, k + 1, r.value.pending)
  {
  }

  /** `content` answers the first calls, in order. */
  ghost predicate AnswersFirst(content: seq<Block>, calls: seq<ToolCall>) {
    && |content| <= |calls|
    && forall i :: 0 <= i < |content| ==> content[i].Answer? && content[i].result.callID == calls[i].id
  }

  function Gathered(conv: seq<Message>, content: seq<Block>): seq<Message> {
    if content == [] then conv else Join1(conv, Message(User, NormBlocks(content)))
  }

  /** `s` has become `r` by reading the results in `content`. */
  ghost predicate Gathers(s: Reading, content: seq<Block>, calls: seq<ToolCall>, r: Option<Reading>) {
    && r.Some?
    && r.value.conv == Gathered(s.conv, content) && r.value.transcript == Gathered(s.transcript, content)
    && StillPending(calls, |content|, r.value.pending)
  }

  lemma GatherOne(conv: seq<Message>, content: seq<Block>, b: Block)
    ensures AddUserBlock(Gathered(conv, content), NormBlock(b)) == Gathered(conv, content + [b])
  {
    assert (content + [b])[..|content|] == content;
    if content == [] {
      assert NormBlocks([] + [b]) == NormBlocks([]) + [NormBlock(b)] == [NormBlock(b)];
    } else {
      GrowLast(conv, NormBlocks(content), NormBlock(b));
    }
  }

  lemma GatherMore(s: Reading, content: seq<Block>, calls: seq<ToolCall>, b: ResultBlock, mid: Reading)
    requires DistinctIDs(calls) && |content| < |calls| && b.callID == calls[|content|].id
    requires Gathers(s, content, calls, Some(mid))
    ensures var line := ResultLine(b);
      Gathers(s, content + [Answer(b)], calls, Read1(mid, line))
  {
    ReadOneResult(mid, calls, |content|, b);
    GatherOne(s.conv, content, Answer(b));
    GatherOne(s.transcript, content, Answer(b));
  }

  /** Result lines add their blocks one by one to the user message they start. */
  lemma {:induction false} ReadResultLines(s: Reading, content: seq<Block>, calls: seq<ToolCall>)
    requires AnswersFirst(content, calls) && DistinctIDs(calls) && StillPending(calls, 0, s.pending)
    ensures Gathers(s, content, calls, Read(s, ResultLines(content)))
  {
    if content != [] {
      var n := |content| - 1;
      var pre, b := content[..n], content[n].result;
      ReadResultLines(s, pre, calls);
      GatherMore(s, pre, calls, b, Read(s, ResultLines(pre)).value);
      ReadSnoc(s, ResultLines(pre), ResultLine(b));
      assert pre + [Answer(b)] == content;
    }
  }

  lemma GrowLast(conv: seq<Message>, content: seq<Block>, b: Block)
    ensures AddUserBlock(Join1(conv, Message(User, content)), b) == Join1(conv, Message(User, content + [b]))
  {
    if EndsOnUserMsg(conv) {
      var last := conv[|conv| - 1].content;
      assert last + content + [b] == last + (content + [b]);
    }
  }

  // ------------------------------------------------------------ the theorem

  /** A conversation as Resume shows it. */
  function Shown(conv: seq<Message>): seq<Message> {
    Joined(Norm(conv))
  }

  /** What Resume has rebuilt when the live conversation is `conv` and `seen` is everything
      that was ever said. */
  ghost predicate Rebuilt(conv: seq<Message>, seen: seq<Message>, r: Option<Reading>) {
    && r.Some?
    && r.value.conv == Shown(conv) && r.value.transcript == Shown(seen)
    && (EndsOnUser(conv) ==> EndsOnUser(seen))
    && (!EndsOnUser(conv) ==> StillPending(Asked(conv, |conv|), 0, r.value.pending))
  }

  lemma ShownAssistant(conv: seq<Message>, m: Message)
    requires m.role == Assistant
    ensures Shown(conv + [m]) == Shown(conv) + NormMessage(m)
  {
    ThoughtsAreAssistant(m.content);
    NormSnoc(conv, m);
    JoinedConcatAssistant(Norm(conv), NormMessage(m));
  }

  lemma ShownUser(conv: seq<Message>, m: Message)
    requires m.role == User
    ensures Shown(conv + [m]) == Join1(Shown(conv), Message(User, NormBlocks(m.content)))
  {
    NormSnoc(conv, m);
    JoinedSnoc(Norm(conv), Message(User, NormBlocks(m.content)));
  }

  lemma ShownMerge(conv: seq<Message>, text: string)
    requires EndsOnUser(conv)
    ensures Shown(Replay1(conv, Record(Merge, Message(User, [Text(text)])))) == AddUserBlock(Shown(conv), Text(text))
  {
    var n := |conv| - 1;
    var base, content := conv[..n], conv[n].content;
    assert conv == base + [conv[n]];
    ShownUser(base, conv[n]);
    ShownUser(base, Message(User, content + [Text(text)]));
    assert (content + [Text(text)])[..|content|] == content;
    GrowLast(Shown(base), NormBlocks(content), Text(text));
  }

  lemma RebuildAssistant(conv: seq<Message>, seen: seq<Message>, m: Message, s: Reading)
    requires Rebuilt(conv, seen, Some(s)) && m.role == Assistant && NoAnswers(m.content)
    ensures Rebuilt(conv + [m], seen + [m], Read(s, ThinkingLines(m.content) + SpokenLine(m.content)))
  {
    ReadAssistant(s, m.content);
    ShownAssistant(conv, m);
    ShownAssistant(seen, m);
    CallEventsAreCalls(m.content);
    var after := Read(s, ThinkingLines(m.content) + SpokenLine(m.content)).value;
    forall i | 0 <= i < |Calls(m.content)| ensures Calls(m.content)[i].id in after.pending {
      assert CallEvents(m.content)[i] in CallEvents(m.content);
    }
  }

  lemma RebuildResults(conv: seq<Message>, seen: seq<Message>, m: Message, s: Reading)
    requires Rebuilt(conv, seen, Some(s)) && m.role == User && !EndsOnUser(conv) && m.content != []
    requires var asked := Asked(conv, |conv|);
      DistinctIDs(asked) && |m.content| == |asked| && AnswersFirst(m.content, asked)
    ensures Rebuilt(conv + [m], seen + [m], Read(s, ResultLines(m.content)))
  {
    ReadResultLines(s, m.content, Asked(conv, |conv|));
    ShownUser(conv, m);
    ShownUser(seen, m);
  }

  lemma RebuildText(conv: seq<Message>, seen: seq<Message>, text: string, s: Reading)
    requires Rebuilt(conv, seen, Some(s))
    ensures var m := Message(User, [Text(text)]);
      Rebuilt(conv + [m], seen + [m], Read1(s, UserMessage(text)))
  {
    var m := Message(User, [Text(text)]);
    assert [Text(text)][..0] == [] && NormBlocks([Text(text)]) == [Text(text)];
    ShownUser(conv, m);
    ShownUser(seen, m);
  }

  lemma RebuildMerge(conv: seq<Message>, seen: seq<Message>, text: string, s: Reading)
    requires Rebuilt(conv, seen, Some(s)) && EndsOnUser(conv)
    ensures var r := Record(Merge, Message(User, [Text(text)]));
      Rebuilt(Replay1(conv, r), Replay1(seen, r), Read1(s, UserMessage(text)))
  {
    ShownMerge(conv, text);
    ShownMerge(seen, text);
  }

  lemma EncodeText(kind: RecordKind, text: string)
    ensures Encode(Record(kind, Message(User, [Text(text)]))) == Some([UserMessage(text)])
  {
    var content := [Text(text)];
    assert content[..0] == [] && content[|content| - 1] == Text(text);
    assert JoinedText(content) == JoinedText([]) + text == text;
  }

  lemma EncodeResults(m: Message)
    requires m.role == User && m.content != [] && forall i :: 0 <= i < |m.content| ==> m.content[i].Answer?
    ensures Encode(Record(Append, m)) == Some(ResultLines(m.content))
  {
    assert m.content[0] in m.content;
  }

  lemma ReadOne(s: Reading, line: Line)
    ensures Read(s, [line]) == Read1(s, line)
  {
    assert [line][..0] == [];
  }

  lemma RebuildTextRecord(conv: seq<Message>, seen: seq<Message>, r: Record, s: Reading)
    requires Rebuilt(conv, seen, Some(s)) && MayRecord(conv, r)
    requires r.message.role == User && |r.message.content| == 1 && r.message.content[0].Text?
    ensures Encode(r).Some? && Rebuilt(Replay1(conv, r), Replay1(seen, r), Read(s, Encode(r).value))
  {
    var text := r.message.content[0].text;
    assert r.message == Message(User, [Text(text)]);
    EncodeText(r.kind, text);
    ReadOne(s, UserMessage(text));
    if r.kind == Merge {
      RebuildMerge(conv, seen, text, s);
    } else {
      RebuildText(conv, seen, text, s);
    }
  }

  lemma RebuildResultRecord(conv: seq<Message>, seen: seq<Message>, r: Record, s: Reading)
    requires Rebuilt(conv, seen, Some(s)) && MayRecord(conv, r)
    requires !EndsOnUser(conv) ==> DistinctIDs(Asked(conv, |conv|))
    requires r.message.role == User && !r.message.content[0].Text?
    ensures Encode(r).Some? && Rebuilt(Replay1(conv, r), Replay1(seen, r), Read(s, Encode(r).value))
  {
    assert AnswersFirst(r.message.content, Asked(conv, |conv|));
    EncodeResults(r.message);
    RebuildResults(conv, seen, r.message, s);
  }

  lemma RebuildAssistantRecord(conv: seq<Message>, seen: seq<Message>, r: Record, s: Reading)
    requires Rebuilt(conv, seen, Some(s)) && MayRecord(conv, r) && r.message.role == Assistant
    ensures Encode(r).Some? && Rebuilt(Replay1(conv, r), Replay1(seen, r), Read(s, Encode(r).value))
  {
    assert r.kind == Append && NoAnswers(r.message.content);
    RebuildAssistant(conv, seen, r.message, s);
  }

  lemma RebuildRecord(conv: seq<Message>, seen: seq<Message>, r: Record, s: Reading)
    requires Rebuilt(conv, seen, Some(s)) && MayRecord(conv, r)
    requires !EndsOnUser(conv) ==> DistinctIDs(Asked(conv, |conv|))
    ensures Encode(r).Some? && Rebuilt(Replay1(conv, r), Replay1(seen, r), Read(s, Encode(r).value))
  {
    if r.message.role == Assistant {
      RebuildAssistantRecord(conv, seen, r, s);
    } else if r.message.content[0].Text? {
      RebuildTextRecord(conv, seen, r, s);
    } else {
      RebuildResultRecord(conv, seen, r, s);
    }
  }

  /** In a history every assistant message has calls that can be told apart. */
  lemma {:induction false} HistoryHasDistinctIDs(records: seq<Record>)
    requires History([], records)
    ensures var conv := Replay([], records);
      !EndsOnUser(conv) ==> DistinctIDs(Asked(conv, |conv|))
  {
    if records != [] {
      var n := |records| - 1;
      assert MayRecord(Replay([], records[..n]), records[n]);
    }
  }

  lemma LogStep(records: seq<Record>)
    requires records != []
    ensures var n := |records| - 1;
      && Replay([], records) == Replay1(Replay([], records[..n]), records[n])
      && (EncodeAll(records[..n]).Some? && Encode(records[n]).Some? ==>
            EncodeAll(records) == Some(EncodeAll(records[..n]).value + Encode(records[n]).value))
  {
  }

  /** For any run of turns: encoding never fails, Resume never fails, and conversation and
      transcript are the live conversation in normal form. */
  lemma {:induction false} LogRebuilds(records: seq<Record>)
    requires History([], records)
    ensures EncodeAll(records).Some?
    ensures Rebuilt(Replay([], records), Replay([], records), Read(NOTHING_READ, EncodeAll(records).value))
  {
    if records != [] {
      var n := |records| - 1;
      var before := records[..n];
      HistoryPrefix([], records);
      LogRebuilds(before);
      HistoryHasDistinctIDs(before);
      ReadMore(Replay([], before), Replay([], before), EncodeAll(before).value, records[n]);
      LogStep(records);
    }
  }

  lemma ReadMore(conv: seq<Message>, seen: seq<Message>, lines: seq<Line>, r: Record)
    requires Rebuilt(conv, seen, Read(NOTHING_READ, lines)) && MayRecord(conv, r)
    requires !EndsOnUser(conv) ==> DistinctIDs(Asked(conv, |conv|))
    ensures Encode(r).Some?
    ensures Rebuilt(Replay1(conv, r), Replay1(seen, r), Read(NOTHING_READ, lines + Encode(r).value))
  {
    RebuildRecord(conv, seen, r, Read(NOTHING_READ, lines).value);
    ReadConcat(NOTHING_READ, lines, Encode(r).value);
  }

  // --------------------------------------- when nothing is joined on the way

  /** An assistant message of which no line is logged: all its blocks are empty text. */
  predicate Silent(m: Message) {
    m.role == Assistant && NormMessage(m) == []
  }

  ghost predicate SilentAt(conv: seq<Message>, i: nat) {
    i < |conv| && Silent(conv[i])
  }

  /** A silent assistant message with a message after it. */
  ghost predicate SilentInside(conv: seq<Message>) {
    exists i :: 0 <= i < |conv| - 1 && SilentAt(conv, i)
  }

  /** No two user messages in a row. */
  predicate Apart(conv: seq<Message>) {
    conv == [] ||
    (Apart(conv[..|conv| - 1]) && !(conv[|conv| - 1].role == User && EndsOnUserMsg(conv[..|conv| - 1])))
  }

  lemma {:induction false} JoinedShorter(x: seq<Message>)
    ensures |Joined(x)| <= |x| && (Joined(x) == x <==> Apart(x))
  {
    if x != [] {
      var pre, m := x[..|x| - 1], x[|x| - 1];
      JoinedShorter(pre);
      assert x == pre + [m];
      if |Joined(pre)| == |pre| && !(m.role == User && EndsOnUserMsg(Joined(pre))) {
        assert Joined(x) == Joined(pre) + [m] && Joined(x)[..|pre|] == Joined(pre) && x[..|pre|] == pre;
      }
    }
  }

  lemma {:induction false} ApartConcat(a: seq<Message>, b: seq<Message>)
    requires forall m :: m in b ==> m.role == Assistant
    ensures Apart(a + b) == Apart(a)
    ensures EndsOnUserMsg(a + b) == (b == [] && EndsOnUserMsg(a))
  {
    if b == [] {
      assert a + b == a;
    } else {
      assert (a + b)[..|a + b| - 1] == a + b[..|b| - 1];
      ApartConcat(a, b[..|b| - 1]);
    }
  }

  lemma SilentStep(conv: seq<Message>)
    requires conv != []
    ensures var n := |conv| - 1;
      SilentInside(conv) <==> SilentInside(conv[..n]) || (n > 0 && SilentAt(conv[..n], n - 1))
  {
    var n := |conv| - 1;
    var pre := conv[..n];
    assert forall i :: 0 <= i < n ==> SilentAt(pre, i) == SilentAt(conv, i);
  }

  lemma ApartSnoc(x: seq<Message>, m: Message)
    ensures Apart(x + [m]) <==> Apart(x) && !(m.role == User && EndsOnUserMsg(x))
    ensures EndsOnUserMsg(x + [m]) <==> m.role == User
  {
    assert (x + [m])[..|x|] == x;
  }

  ghost predicate ApartAgrees(conv: seq<Message>) {
    && (Apart(Norm(conv)) <==> !SilentInside(conv))
    && (EndsOnUserMsg(Norm(conv)) <==> conv != [] && (EndsOnUser(conv) || SilentAt(conv, |conv| - 1)))
  }

  lemma ApartGrows(conv: seq<Message>, m: Message)
    requires ApartAgrees(conv) && (m.role == User <==> !EndsOnUser(conv))
    ensures ApartAgrees(conv + [m])
  {
    assert (conv + [m])[..|conv|] == conv;
    SilentStep(conv + [m]);
    NormSnoc(conv, m);
    if m.role == User {
      ApartSnoc(Norm(conv), Message(User, NormBlocks(m.content)));
    } else {
      ThoughtsAreAssistant(m.content);
      ApartConcat(Norm(conv), NormMessage(m));
    }
  }

  lemma AlternatesPrefix(conv: seq<Message>)
    requires Alternates(conv) && conv != []
    ensures var n := |conv| - 1;
      Alternates(conv[..n]) && (conv[n].role == User <==> !EndsOnUser(conv[..n])) && conv == conv[..n] + [conv[n]]
  {
    var n := |conv| - 1;
    assert n > 0 ==> conv[n - 1].role == if (n - 1) % 2 == 0 then User else Assistant;
  }

  lemma {:induction false} ApartIffNoneSilent(conv: seq<Message>)
    requires Alternates(conv)
    ensures ApartAgrees(conv)
    decreases |conv|
  {
    if conv != [] {
      var pre, m := conv[..|conv| - 1], conv[|conv| - 1];
      AlternatesPrefix(conv);
      ApartIffNoneSilent(pre);
      ApartGrows(pre, m);
    }
  }

  /** Resume gives the live conversation message for message exactly when no silent assistant
      message is followed by another message. */
  lemma RebuildsExactlyWhenNoneSilent(records: seq<Record>)
    requires History([], records)
    ensures var conv := Replay([], records);
      EncodeAll(records).Some? && Read(NOTHING_READ, EncodeAll(records).value).Some?
      && (Read(NOTHING_READ, EncodeAll(records).value).value.conv == Norm(conv) <==> !SilentInside(conv))
  {
    LogRebuilds(records);
    HistoryAlternates(records);
    ApartIffNoneSilent(Replay([], records));
    JoinedShorter(Norm(Replay([], records)));
  }

  lemma {:induction false} HistoryAlternates(records: seq<Record>)
    requires History([], records)
    ensures Alternates(Replay([], records))
  {
    if records != [] {
      HistoryPrefix([], records);
      HistoryAlternates(records[..|records| - 1]);
      RecordKeepsAlternation(Replay([], records[..|records| - 1]), records[|records| - 1]);
    }
  }

  // ------------------------------------------- one conversation after another

  /** `y` after `x`, the user messages where they meet becoming one. */
  function Meet(x: seq<Message>, y: seq<Message>): seq<Message> {
    if EndsOnUserMsg(x) && y != [] && y[0].role == User then
      x[..|x| - 1] + [Message(User, x[|x| - 1].content + y[0].content)] + y[1..]
    else x + y
  }

  lemma MeetOne(x: seq<Message>, o: Message, m: Message)
    ensures Join1(Meet(x, [o]), m) == Meet(x, Join1([o], m))
  {
    if o.role == User {
      var met := if EndsOnUserMsg(x) then Message(User, x[|x| - 1].content + o.content) else o;
      var base := if EndsOnUserMsg(x) then x[..|x| - 1] else x;
      assert Meet(x, [o]) == base + [met];
      if m.role == User {
        assert Join1([o], m) == [Message(User, o.content + m.content)];
        assert Join1(base + [met], m) == base + [Message(User, met.content + m.content)];
        if EndsOnUserMsg(x) {
          Assoc(x[|x| - 1].content, o.content, m.content);
        }
      } else {
        assert Join1([o], m) == [o] + [m];
        assert Meet(x, [o] + [m]) == base + [met] + [m];
      }
    } else {
      assert Join1([o], m) == [o] + [m] && x + ([o] + [m]) == x + [o] + [m];
    }
  }

  lemma MeetBefore(x: seq<Message>, y: seq<Message>, z: seq<Message>)
    requires y != []
    ensures Meet(x, y + z) == Meet(x, y) + z
  {
    if EndsOnUserMsg(x) && y[0].role == User {
      assert (y + z)[1..] == y[1..] + z;
      Assoc(x[..|x| - 1] + [Message(User, x[|x| - 1].content + y[0].content)], y[1..], z);
    } else {
      Assoc(x, y, z);
    }
  }

  lemma JoinAfter(x: seq<Message>, y: seq<Message>, m: Message)
    requires y != []
    ensures Join1(x + y, m) == x + Join1(y, m)
  {
    if m.role == User && EndsOnUserMsg(y) {
      assert (x + y)[..|x + y| - 1] == x + y[..|y| - 1];
      Assoc(x, y[..|y| - 1], [Message(User, y[|y| - 1].content + m.content)]);
    } else {
      Assoc(x, y, [m]);
    }
  }

  lemma MeetJoin1(x: seq<Message>, y: seq<Message>, m: Message)
    ensures Join1(Meet(x, y), m) == Meet(x, Join1(y, m))
  {
    if y == [] {
      assert x + y == x && [] + [m] == [m];
    } else if |y| == 1 {
      MeetOne(x, y[0], m);
      assert y == [y[0]];
    } else {
      var head, last := y[..1], y[1..];
      assert y == head + last;
      MeetBefore(x, head, last);
      JoinAfter(Meet(x, head), last, m);
      JoinAfter(head, last, m);
      MeetBefore(x, head, Join1(last, m));
    }
  }

  lemma {:induction false} JoinedConcat(a: seq<Message>, b: seq<Message>)
    ensures Joined(a + b) == Meet(Joined(a), Joined(b))
  {
    if b == [] {
      assert a + b == a && Joined(a) + [] == Joined(a);
    } else {
      var n := |b| - 1;
      assert (a + b)[..|a + b| - 1] == a + b[..n];
      JoinedConcat(a, b[..n]);
      MeetJoin1(Joined(a), Joined(b[..n]), b[n]);
    }
  }

  lemma ShownConcat(a: seq<Message>, b: seq<Message>)
    ensures Shown(a + b) == Meet(Shown(a), Shown(b))
  {
    NormConcat(a, b);
    JoinedConcat(Norm(a), Norm(b));
  }

  lemma ShownOne(m: Message)
    ensures Norm([m]) == NormMessage(m)
    ensures Shown([m]) == NormMessage(m)
  {
    assert [m][..0] == [] && [] + NormMessage(m) == NormMessage(m);
    if m.role == User {
      ShownUser([], m);
    } else {
      ShownAssistant([], m);
    }
    assert [] + [m] == [m];
  }

  /** What is shown of a conversation that the user opens opens with the user. */
  lemma ShownOpens(conv: seq<Message>)
    requires conv != [] && conv[0].role == User
    ensures Shown(conv) != [] && Shown(conv)[0].role == User
    ensures |Shown(conv)[0].content| >= |conv[0].content|
  {
    assert conv == [conv[0]] + conv[1..];
    ShownConcat([conv[0]], conv[1..]);
    ShownOne(conv[0]);
    NormBlocksLength(conv[0].content);
  }

  lemma {:induction false} NormBlocksLength(content: seq<Block>)
    ensures |NormBlocks(content)| == |content|
  {
    if content != [] {
      NormBlocksLength(content[..|content| - 1]);
    }
  }

  function Said(role: Role, text: string): Message {
    Message(role, [Text(text)])
  }

  /** An assistant message of empty text between two of the user. */
  const SILENCE: seq<Record> := [
    Record(Append, Said(User, "a")), Record(Append, Said(Assistant, "")), Record(Append, Said(User, "b"))]

  /** Resume joins the two, and does not give the conversation back. */
  lemma SilenceIsLost()
    ensures History([], SILENCE) && Replay([], SILENCE) == [Said(User, "a"), Said(Assistant, ""), Said(User, "b")]
    ensures EncodeAll(SILENCE).Some? && Read(NOTHING_READ, EncodeAll(SILENCE).value).Some?
    ensures Read(NOTHING_READ, EncodeAll(SILENCE).value).value.conv != Norm(Replay([], SILENCE))
  {
    SilenceHistory();
    RebuildsExactlyWhenNoneSilent(SILENCE);
    SaysNothing();
    assert SilentAt(Replay([], SILENCE), 1);
  }

  lemma SaysNothing()
    ensures Silent(Said(Assistant, "")) && Calls(Said(Assistant, "").content) == []
  {
    var content := [Text("")];
    assert content[..0] == [] && content[|content| - 1] == Text("");
    assert JoinedText(content) == JoinedText([]) + "" == "" && Calls(content) == Calls([]) + [] == [];
    assert CallEvents(content) == CallEvents([]) + [] == [] && Thoughts(content) == Thoughts([]) + [] == [];
  }

  lemma SilenceHistory()
    ensures History([], SILENCE) && Replay([], SILENCE) == [Said(User, "a"), Said(Assistant, ""), Said(User, "b")]
  {
    var a, b, c := Said(User, "a"), Said(Assistant, ""), Said(User, "b");
    var first, second := [] + [Record(Append, a)], [] + [Record(Append, a)] + [Record(Append, b)];
    SaysNothing();
    Hear([], [], a);
    Hear(first, [] + [a], b);
    Hear(second, [] + [a] + [b], c);
    assert second + [Record(Append, c)] == SILENCE;
  }

  /** User and assistant speak in turn. */
  lemma Hear(records: seq<Record>, conv: seq<Message>, m: Message)
    requires History([], records) && Replay([], records) == conv
    requires |m.content| == 1 && m.content[0].Text? && (m.role == User <==> !EndsOnUser(conv))
    requires m.role == Assistant ==> Calls(m.content) == []
    ensures History([], records + [Record(Append, m)]) && Replay([], records + [Record(Append, m)]) == conv + [m]
  {
    assert MayRecord(conv, Record(Append, m));
    HistorySnoc([], records, Record(Append, m));
  }
}
