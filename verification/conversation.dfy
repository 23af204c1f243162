/** Messages, and the records of how a conversation grew. */
module Conversation {
  datatype Thinking = Thinking(text: string, signature: string, redacted: bool, data: string, dropOnSummary: bool)

  datatype ToolCall = ToolCall(id: string, name: string, input: string)

  datatype ResultBlock = ResultBlock(callID: string, content: string, isError: bool, truncated: bool, errorKind: string)

  datatype Block =
    | Text(text: string)
    | Reasoning(thinking: Thinking)
    | Call(call: ToolCall)
    | Answer(result: ResultBlock)

  datatype Role = User | Assistant

  datatype Message = Message(role: Role, content: seq<Block>)

  datatype RecordKind = Append | Merge

  datatype Record = Record(kind: RecordKind, message: Message)

  /** The Recorder contract: append a message, or add blocks to the last one. */
  function Replay1(conv: seq<Message>, r: Record): seq<Message> {
    if r.kind == Merge && conv != [] then
      var last := conv[|conv| - 1];
      conv[..|conv| - 1] + [last.(content := last.content + r.message.content)]
    else conv + [r.message]
  }

  function Replay(conv: seq<Message>, records: seq<Record>): seq<Message> {
    if records == [] then conv
    else Replay1(Replay(conv, records[..|records| - 1]), records[|records| - 1])
  }

  /** toolCalls */
  function Calls(content: seq<Block>): seq<ToolCall> {
    if content == [] then []
    else
      var before, last := Calls(content[..|content| - 1]), content[|content| - 1];
      if last.Call? then before + [last.call] else before
  }

  // ------------------------------------------------- well-formed histories

  /** Every call has an id of its own. */
  ghost predicate DistinctIDs(calls: seq<ToolCall>) {
    && (forall i :: 0 <= i < |calls| ==> calls[i].id != "")
    && (forall i, j :: 0 <= i < j < |calls| ==> calls[i].id != calls[j].id)
  }

  /** `content` opens with exactly one result per call, in call order, and has no other. */
  ghost predicate AnswersAll(content: seq<Block>, calls: seq<ToolCall>) {
    && |calls| <= |content|
    && (forall j :: 0 <= j < |calls| ==> content[j].Answer? && content[j].result.callID == calls[j].id)
    && (forall j :: |calls| <= j < |content| ==> content[j].Text?)
  }

  /** The calls the message before index i leaves to be answered. */
  function Asked(conv: seq<Message>, i: nat): seq<ToolCall>
    requires i <= |conv|
  {
    if i == 0 then [] else Calls(conv[i - 1].content)
  }

  /** User and assistant take turns, the user first. */
  ghost predicate Alternates(conv: seq<Message>) {
    forall i :: 0 <= i < |conv| ==> conv[i].role == if i % 2 == 0 then User else Assistant
  }

  ghost predicate EndsOnUser(conv: seq<Message>) {
    conv != [] && conv[|conv| - 1].role == User
  }

  /** A user message opens with the results its assistant message asked for. */
  ghost predicate PairedAt(conv: seq<Message>, i: nat)
    requires i < |conv|
  {
    conv[i].role == User ==> AnswersAll(conv[i].content, Asked(conv, i))
  }

  /** Each assistant message with calls is followed at once by their results. */
  ghost predicate Paired(conv: seq<Message>) {
    forall i :: 0 <= i < |conv| ==> PairedAt(conv, i)
  }

  ghost predicate WellFormed(conv: seq<Message>) {
    && Alternates(conv) && Paired(conv)
    && (conv == [] || EndsOnUser(conv) || Asked(conv, |conv|) == [])
  }

  ghost predicate AssistantContent(content: seq<Block>) {
    content != [] && (forall b :: b in content ==> !b.Answer?) && DistinctIDs(Calls(content))
  }

  /** The changes a Turn makes to a conversation. */
  ghost predicate MayRecord(conv: seq<Message>, r: Record) {
    var content := r.message.content;
    match r.kind
    case Merge => EndsOnUser(conv) && r.message.role == User && |content| == 1 && content[0].Text?
    case Append =>
      if r.message.role == Assistant then EndsOnUser(conv) && AssistantContent(content)
      else
        && !EndsOnUser(conv)
        && ((|content| == 1 && content[0].Text?)
            || (Asked(conv, |conv|) != [] && |content| == |Asked(conv, |conv|)|
                && AnswersAll(content, Asked(conv, |conv|))))
  }

  ghost predicate History(start: seq<Message>, records: seq<Record>) {
    records == []
    || (History(start, records[..|records| - 1])
        && MayRecord(Replay(start, records[..|records| - 1]), records[|records| - 1]))
  }

  lemma HistorySnoc(start: seq<Message>, records: seq<Record>, r: Record)
    requires History(start, records)
    ensures Replay(start, records + [r]) == Replay1(Replay(start, records), r)
    ensures History(start, records + [r]) <==> MayRecord(Replay(start, records), r)
  {
    assert (records + [r])[..|records|] == records;
  }

  lemma HistoryPrefix(start: seq<Message>, records: seq<Record>)
    requires History(start, records) && records != []
    ensures var n := |records| - 1;
      History(start, records[..n]) && MayRecord(Replay(start, records[..n]), records[n])
  {
  }

  lemma HistoryExtends(start: seq<Message>, records: seq<Record>, conv: seq<Message>, r: Record)
    requires History(start, records) && Replay(start, records) == conv && MayRecord(conv, r)
    ensures History(start, records + [r]) && Replay(start, records + [r]) == Replay1(conv, r)
  {
    HistorySnoc(start, records, r);
  }

  lemma {:induction false} HistoryConcat(start: seq<Message>, a: seq<Record>, b: seq<Record>)
    requires History(start, a) && History(Replay(start, a), b)
    ensures History(start, a + b) && Replay(start, a + b) == Replay(Replay(start, a), b)
  {
    if b == [] {
      assert a + b == a;
    } else {
      HistoryConcat(start, a, b[..|b| - 1]);
      GoesOn(start, a + b[..|b| - 1], Replay(start, a), b);
      LastOfBoth(a, b);
    }
  }

  lemma LastOfBoth(a: seq<Record>, b: seq<Record>)
    requires b != []
    ensures (a + b[..|b| - 1]) + [b[|b| - 1]] == a + b
  {
  }

  lemma GoesOn(start: seq<Message>, before: seq<Record>, conv: seq<Message>, b: seq<Record>)
    requires b != [] && History(conv, b)
    requires History(start, before) && Replay(start, before) == Replay(conv, b[..|b| - 1])
    ensures History(start, before + [b[|b| - 1]]) && Replay(start, before + [b[|b| - 1]]) == Replay(conv, b)
  {
    HistorySnoc(start, before, b[|b| - 1]);
  }

  /** Whatever a Turn does, roles keep alternating. */
  lemma RecordKeepsAlternation(conv: seq<Message>, r: Record)
    requires Alternates(conv) && MayRecord(conv, r)
    ensures Alternates(Replay1(conv, r))
  {
  }

  lemma PairedSnoc(conv: seq<Message>, m: Message)
    requires Paired(conv)
    ensures Paired(conv + [m]) <==> (m.role == User ==> AnswersAll(m.content, Asked(conv, |conv|)))
  {
    var next := conv + [m];
    forall i | 0 <= i < |conv| ensures PairedAt(next, i) {
      assert PairedAt(conv, i) && Asked(next, i) == Asked(conv, i);
    }
    assert Asked(next, |conv|) == Asked(conv, |conv|);
    assert Paired(next) <==> PairedAt(next, |conv|);
  }

  lemma PairedPrefix(conv: seq<Message>)
    requires conv != [] && Paired(conv)
    ensures Paired(conv[..|conv| - 1])
  {
    var pre := conv[..|conv| - 1];
    forall i | 0 <= i < |pre| ensures PairedAt(pre, i) {
      assert PairedAt(conv, i);
    }
  }

  /** Pairing survives every change except user text that leaves calls unanswered. */
  lemma RecordKeepsPairing(conv: seq<Message>, r: Record)
    requires Alternates(conv) && Paired(conv) && MayRecord(conv, r)
    ensures Paired(Replay1(conv, r)) <==>
              !(r.kind == Append && r.message.role == User && r.message.content[0].Text? && Asked(conv, |conv|) != [])
  {
    if r.kind == Merge {
      var n := |conv| - 1;
      assert PairedAt(conv, n);
      PairedPrefix(conv);
      PairedSnoc(conv[..n], conv[n].(content := conv[n].content + r.message.content));
      assert Asked(conv[..n], n) == Asked(conv, n);
    } else {
      PairedSnoc(conv, r.message);
    }
  }
}
