/** Which range is compacted and by what it is replaced, counted in prompts. */
module CompactionLaws {
  import opened Prelude
  import opened Conversation
  import opened SessionLog
  import opened Assembly
  import opened Strings
  import opened Compaction

  /** A user message with a text in it. */
  predicate HasPrompt(m: Message) {
    m.role == User && exists i :: 0 <= i < |m.content| && m.content[i].Text?
  }

  ghost function Prompts(msgs: seq<Message>): set<nat> {
    set i: nat | i < |msgs| && HasPrompt(msgs[i])
  }

  lemma {:induction false} StartsArePrompts(msgs: seq<Message>)
    ensures |TurnStarts(msgs)| == |Prompts(msgs)|
  {
    if msgs == [] {
      assert Prompts(msgs) == {};
    } else {
      var n := |msgs| - 1;
      StartsArePrompts(msgs[..n]);
      assert StartsTurn(msgs[n]) <==> HasPrompt(msgs[n]);
      LastPrompt(msgs, n);
    }
  }

  lemma LastPrompt(msgs: seq<Message>, n: nat)
    requires n + 1 == |msgs|
    ensures |Prompts(msgs)| == |Prompts(msgs[..n])| + if HasPrompt(msgs[n]) then 1 else 0
  {
    assert n !in Prompts(msgs[..n]);
    if HasPrompt(msgs[n]) {
      assert Prompts(msgs) == Prompts(msgs[..n]) + {n};
    } else {
      assert Prompts(msgs) == Prompts(msgs[..n]);
    }
  }

  /** Later turn starts have more turn starts before them. */
  lemma StartsBefore(msgs: seq<Message>, i: nat, j: nat)
    requires i < j <= |msgs| && StartsTurn(msgs[i])
    ensures |TurnStarts(msgs[..i])| < |TurnStarts(msgs[..j])|
  {
    assert msgs[..j] == msgs[..i] + msgs[i..j] && msgs[i..j] == [msgs[i]] + msgs[i + 1..j];
    TurnStartsConcat(msgs[..i], msgs[i..j]);
    TurnStartsConcat([msgs[i]], msgs[i + 1..j]);
    assert [msgs[i]][..0] == [];
  }

  lemma PlannedStart(msgs: seq<Message>, s: nat)
    requires s < |msgs| && StartsTurn(msgs[s]) && |TurnStarts(msgs[s..])| == 4 && |TurnStarts(msgs[..s])| >= 2
    ensures Plan(msgs) == Some((1, s - 1))
  {
    TurnStartsConcat(msgs[..s], msgs[s..]);
    assert msgs[..s] + msgs[s..] == msgs;
    var k: nat := |TurnStarts(msgs)| - 4;
    TurnStartAt(msgs, k);
    var t := TurnStarts(msgs)[k];
    if t < s {
      StartsBefore(msgs, t, s);
    } else if s < t {
      StartsBefore(msgs, s, t);
    }
  }

  /** The range goes from message 1 to right before a prompt with exactly three more after it, and
      two or more before it; and there is one exactly when there are six prompts. */
  lemma PlanExactly(msgs: seq<Message>, to: nat)
    ensures Plan(msgs) == Some((1, to as int)) <==>
      && to + 1 < |msgs| && HasPrompt(msgs[to + 1])
      && |Prompts(msgs[to + 1..])| == 4 && |Prompts(msgs[..to + 1])| >= 2
    ensures Plan(msgs).None? <==> |Prompts(msgs)| < 6
  {
    PlanIff(msgs);
    StartsArePrompts(msgs);
    if to + 1 < |msgs| {
      StartsArePrompts(msgs[..to + 1]);
      StartsArePrompts(msgs[to + 1..]);
      if HasPrompt(msgs[to + 1]) && |Prompts(msgs[to + 1..])| == 4 && |Prompts(msgs[..to + 1])| >= 2 {
        PlannedStart(msgs, to + 1);
      }
    }
    if Plan(msgs) == Some((1, to as int)) {
      PlanKeepsFourTurns(msgs);
      TurnStartsConcat(msgs[..to + 1], msgs[to + 1..]);
      assert msgs[..to + 1] + msgs[to + 1..] == msgs;
    }
  }

  /** What a compaction leaves: message 0, the summary as an assistant text, and from the fourth
      prompt from the end on all messages as they were. */
  lemma ReplacesTheMiddle(msgs: seq<Message>, text: string)
    requires |Prompts(msgs)| >= 6
    ensures Plan(msgs).Some?
    ensures var (from, to) := Plan(msgs).value;
      && from == 1 <= to && to + 1 < |msgs| && |Prompts(msgs[to + 1..])| == 4 && HasPrompt(msgs[to + 1])
      && Compacted(msgs, from, to, text)
         == Some([msgs[0], Message(Assistant, [Text(text)])] + msgs[to + 1..])
  {
    PlanExactly(msgs, 0);
    var to: nat := Plan(msgs).value.1;
    PlanExactly(msgs, to);
    assert Plan(msgs) == Some((1, to as int));
    assert msgs[..1] + [Message(Assistant, [Text(text)])] == [msgs[0], Message(Assistant, [Text(text)])];
  }

  // --------------------------------------------------------- the summary

  /** The summary is every text delta, one after another, and nothing else. */
  lemma {:induction false} SummaryJoins(a: seq<Event>, b: seq<Event>)
    ensures Streamed(a + b) == Streamed(a) + Streamed(b)
  {
    if b == [] {
      assert a + b == a && Streamed(a) + "" == Streamed(a);
    } else {
      var n := |b| - 1;
      assert (a + b)[..|a + b| - 1] == a + b[..n];
      SummaryJoins(a, b[..n]);
      Assoc(Streamed(a), Streamed(b[..n]), if b[n].TextDelta? then b[n].text else "");
    }
  }

  lemma SummaryReads(before: seq<Event>, text: string, ev: Event)
    requires !ev.TextDelta?
    ensures Streamed(before + [TextDelta(text)]) == Streamed(before) + text
    ensures Streamed(before + [ev]) == Streamed(before) && Streamed([]) == ""
  {
    assert (before + [ev])[..|before|] == before && (before + [TextDelta(text)])[..|before|] == before;
    assert Streamed(before) + "" == Streamed(before);
  }

  /** The last error event is the error, and without any there is none. */
  lemma {:induction false} LastErrorCounts(events: seq<Event>, k: nat)
    requires k <= |events| && (forall i :: k < i < |events| ==> !events[i].Failure?)
    ensures k < |events| && events[k].Failure? ==> StreamedError(events) == events[k].err
    ensures k == 0 && (events != [] ==> !events[0].Failure?) ==> StreamedError(events) == None
  {
    if events != [] && k < |events| - 1 {
      LastErrorCounts(events[..|events| - 1], k);
    }
  }

  /** The last usage a message end carries is the usage, and without any there is none. */
  lemma {:induction false} LastUsageCounts(events: seq<Event>, k: nat)
    requires k <= |events| && (forall i :: k < i < |events| ==> !(events[i].MessageDone? && events[i].usage.Some?))
    ensures k < |events| && events[k].MessageDone? && events[k].usage.Some? ==>
              StreamedUsage(events) == events[k].usage.value
    ensures k == 0 && (events != [] ==> !(events[0].MessageDone? && events[0].usage.Some?)) ==>
              StreamedUsage(events) == Usage(0, 0, 0, 0)
  {
    if events != [] && k < |events| - 1 {
      LastUsageCounts(events[..|events| - 1], k);
    }
  }

  /** What unicode.IsSpace takes for white space. */
  predicate WhiteSpace(c: char) {
    var code := c as int;
    9 <= code <= 13 || 0x2000 <= code <= 0x200A
    || code in {0x20, 0x85, 0xA0, 0x1680, 0x2028, 0x2029, 0x202F, 0x205F, 0x3000}
  }

  /** A summary is refused exactly when it is nothing but white space. */
  lemma BlankIsWhite(text: string)
    ensures Blank(text) <==> forall i :: 0 <= i < |text| ==> WhiteSpace(text[i])
  {
    if Blank(text) {
      forall i | 0 <= i < |text| ensures WhiteSpace(text[i]) {
        assert text[i] in text;
      }
    }
  }
}
