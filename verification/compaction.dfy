/** Compaction: replacing the middle of a conversation by a summary. */
module Compaction {
  import opened Prelude
  import opened Conversation
  import opened SessionLog
  import opened Assembly
  import opened Strings

  const MIN_TURNS := 6
  const KEPT_TURNS := 4

  /** A turn starts at a user message with text. */
  predicate StartsTurn(m: Message) {
    m.role == User && exists i :: 0 <= i < |m.content| && m.content[i].Text?
  }

  function TurnStarts(msgs: seq<Message>): seq<nat> {
    if msgs == [] then []
    else
      var n := |msgs| - 1;
      if StartsTurn(msgs[n]) then TurnStarts(msgs[..n]) + [n] else TurnStarts(msgs[..n])
  }

  /** The inclusive range to replace: message 0 and the last four turns stay. */
  function Plan(msgs: seq<Message>): (r: Option<(int, int)>)
    ensures r.Some? ==> r.value.0 == 1 <= r.value.1 && r.value.1 + 1 < |msgs|
  {
    var starts := TurnStarts(msgs);
    if |starts| < MIN_TURNS then None
    else
      TurnStartAt(msgs, |starts| - KEPT_TURNS);
      var to: int := starts[|starts| - KEPT_TURNS] - 1;
      if 1 > to then None else Some((1, to))
  }

  function Summary(text: string): Message {
    Message(Assistant, [Text(text)])
  }

  /** PlanCompaction */
  method PlanCompaction(msgs: seq<Message>) returns (r: Option<(int, int)>)
    ensures r == Plan(msgs)
  {
    if |msgs| == 0 {
      return None;
    }
    var turnStarts: seq<nat> := [];
    for i := 0 to |msgs|
      invariant turnStarts == TurnStarts(msgs[..i])
    {
      assert msgs[..i + 1][..i] == msgs[..i];
      if msgs[i].role == User {
        var hasText := false;
        for j := 0 to |msgs[i].content|
          invariant hasText <==> exists k :: 0 <= k < j && msgs[i].content[k].Text?
        {
          if msgs[i].content[j].Text? {
            hasText := true;
          }
        }
        if hasText {
          turnStarts := turnStarts + [i];
        }
      }
    }
    assert msgs[..|msgs|] == msgs;
    if |turnStarts| < MIN_TURNS {
      return None;
    }
    var to := turnStarts[|turnStarts| - KEPT_TURNS] as int - 1;
    if 1 > to {
      return None;
    }
    r := Some((1, to));
  }

  // -------------------------------------------------------- the model call

  datatype CompactError = NothingToCompact | CompactionFailed | Cancelled

  datatype Compaction = Compaction(from: int, to: int, summary: string, messages: seq<Message>)

  function Streamed(events: seq<Event>): string {
    if events == [] then ""
    else
      var ev := events[|events| - 1];
      Streamed(events[..|events| - 1]) + if ev.TextDelta? then ev.text else ""
  }

  /** The last error event decides. */
  function StreamedError(events: seq<Event>): Option<string> {
    if events == [] then None
    else
      var ev := events[|events| - 1];
      if ev.Failure? then ev.err else StreamedError(events[..|events| - 1])
  }

  function StreamedUsage(events: seq<Event>): Usage {
    if events == [] then Usage(0, 0, 0, 0)
    else
      var ev := events[|events| - 1];
      if ev.MessageDone? && ev.usage.Some? then ev.usage.value else StreamedUsage(events[..|events| - 1])
  }

  /** Compact: one model call, which may stream anything, fail, or be cancelled.  Usage comes
      back even when the call fails. */
  method Compact(msgs: seq<Message>, events: seq<Event>, fails: bool, cancelled: bool)
    returns (r: Result<Compaction, CompactError>, usage: Usage)
    ensures r.Ok? <==>
      Plan(msgs).Some? && !fails && !cancelled && StreamedError(events).None? && !Blank(Streamed(events))
    ensures r.Ok? ==>
      var (from, to) := Plan(msgs).value;
      && Compacted(msgs, from, to, Streamed(events)).Some?
      && r.value == Compaction(from, to, Streamed(events), Compacted(msgs, from, to, Streamed(events)).value)
    ensures r == Err(NothingToCompact) <==> Plan(msgs).None?
    ensures Plan(msgs).Some? ==> usage == StreamedUsage(events)
  {
    usage := Usage(0, 0, 0, 0);
    var plan := PlanCompaction(msgs);
    if plan.None? {
      return Err(NothingToCompact), usage;
    }
    var (from, to) := plan.value;
    var summary, streamErr: Option<string> := "", None;
    for i := 0 to |events|
      invariant summary == Streamed(events[..i])
      invariant streamErr == StreamedError(events[..i])
      invariant usage == StreamedUsage(events[..i])
    {
      assert events[..i + 1][..i] == events[..i];
      match events[i] {
        case TextDelta(text) => summary := summary + text;
        case Failure(err) => streamErr := err;
        case MessageDone(u) =>
          if u.Some? {
            usage := u.value;
          }
        case _ =>
      }
    }
    assert events[..|events|] == events;
    if fails || cancelled || streamErr.Some? || Blank(summary) {
      return Err(CompactionFailed), usage;
    }
    var replaced := Compacted(msgs, from, to, summary);
    r := Ok(Compaction(from, to, summary, replaced.value));
  }

  /** The conversation an App holds, and the log behind it. */
  class LiveSession {
    var messages: seq<Message>
    var log: seq<Line>

    /** runCompaction: conversation and log change together, or not at all. */
    method RunCompaction(events: seq<Event>, fails: bool, cancelled: bool, cancelledLate: bool)
      returns (r: Result<Compaction, CompactError>)
      modifies this
      ensures r.Err? ==> messages == old(messages) && log == old(log)
      ensures r.Ok? <==>
        Plan(old(messages)).Some? && !fails && !cancelled && !cancelledLate
        && StreamedError(events).None? && !Blank(Streamed(events))
      ensures r.Ok? ==>
        var to := Plan(old(messages)).value.1;
        && messages == [old(messages)[0], Summary(Streamed(events))] + old(messages)[to + 1..]
        && log == old(log) + [CompactionApplied(1, to, Streamed(events))]
    {
      var usage;
      r, usage := Compact(messages, events, fails, cancelled);
      if r.Err? {
        return;
      }
      if cancelledLate {
        return Err(Cancelled);
      }
      assert messages[..1] == [messages[0]];
      messages := r.value.messages;
      log := log + [CompactionApplied(r.value.from, r.value.to, r.value.summary)];
    }
  }

  // ------------------------------------------------------------- the shape

  lemma {:induction false} TurnStartsConcat(a: seq<Message>, b: seq<Message>)
    ensures |TurnStarts(a + b)| == |TurnStarts(a)| + |TurnStarts(b)|
  {
    if b == [] {
      assert a + b == a;
    } else {
      assert (a + b)[..|a + b| - 1] == a + b[..|b| - 1];
      TurnStartsConcat(a, b[..|b| - 1]);
    }
  }

  /** The k-th turn start is a turn start with k of them before it. */
  lemma {:induction false} TurnStartAt(msgs: seq<Message>, k: nat)
    requires k < |TurnStarts(msgs)|
    ensures var s := TurnStarts(msgs)[k];
      k <= s < |msgs| && StartsTurn(msgs[s]) && |TurnStarts(msgs[..s])| == k
  {
    var n := |msgs| - 1;
    if k < |TurnStarts(msgs[..n])| {
      TurnStartAt(msgs[..n], k);
      assert msgs[..n][..TurnStarts(msgs)[k]] == msgs[..TurnStarts(msgs)[k]];
    } else {
      TurnStartsWithin(msgs[..n]);
    }
  }

  lemma {:induction false} TurnStartsWithin(msgs: seq<Message>)
    ensures |TurnStarts(msgs)| <= |msgs|
  {
    if msgs != [] {
      TurnStartsWithin(msgs[..|msgs| - 1]);
    }
  }

  /** A planned range ends right before one of the last four turn starts. */
  lemma PlanKeepsFourTurns(conv: seq<Message>)
    requires Plan(conv).Some?
    ensures var to := Plan(conv).value.1;
      && StartsTurn(conv[to + 1]) && |TurnStarts(conv[to + 1..])| == KEPT_TURNS
  {
    var starts := TurnStarts(conv);
    var s := starts[|starts| - KEPT_TURNS];
    TurnStartAt(conv, |starts| - KEPT_TURNS);
    TurnStartsConcat(conv[..s], conv[s..]);
    assert conv[..s] + conv[s..] == conv;
  }

  /** Message 0, one summary, the last four turns verbatim: roles still alternate, there is
      nothing more to compact until a new turn starts, and calls keep their results exactly
      when the first kept turn opens with none. */
  lemma CompactionKeepsShape(conv: seq<Message>, text: string, later: seq<Message>)
    requires Alternates(conv) && Plan(conv).Some?
    ensures var to := Plan(conv).value.1;
      && Compacted(conv, 1, to, text) == Some([conv[0], Summary(text)] + conv[to + 1..])
      && |TurnStarts(conv[to + 1..])| == KEPT_TURNS && StartsTurn(conv[to + 1])
    ensures var next := Compacted(conv, 1, Plan(conv).value.1, text).value;
      && Alternates(next)
      && (WellFormed(conv) ==> (WellFormed(next) <==> AllText(conv[Plan(conv).value.1 + 1].content)))
      && Plan(next).None?
      && (StartsTurn(conv[0]) ==> (Plan(next + later).Some? <==> TurnStarts(later) != []))
  {
    PlanKeepsFourTurns(conv);
    var to := Plan(conv).value.1;
    var kept := conv[to + 1..];
    var next := [conv[0], Summary(text)] + kept;
    assert conv[..1] + [Summary(text)] == [conv[0], Summary(text)];
    assert Compacted(conv, 1, to, text) == Some(next);
    CompactedAlternates(conv, to, text);
    if WellFormed(conv) {
      CompactedPairing(conv, to, text);
    }
    CompactedTurns(conv[0], text, kept, later);
  }

  lemma CompactedAlternates(conv: seq<Message>, to: nat, text: string)
    requires Alternates(conv) && 1 <= to && to + 1 < |conv| && conv[to + 1].role == User
    ensures Alternates([conv[0], Summary(text)] + conv[to + 1..])
  {
    var next := [conv[0], Summary(text)] + conv[to + 1..];
    forall i | 0 <= i < |next| ensures next[i].role == if i % 2 == 0 then User else Assistant {
      if i >= 2 {
        assert next[i] == conv[i + to - 1];
      }
    }
  }

  lemma CompactedPairing(conv: seq<Message>, to: nat, text: string)
    requires WellFormed(conv) && 1 <= to && to + 1 < |conv| && conv[to + 1].role == User
    ensures var next := [conv[0], Summary(text)] + conv[to + 1..];
      WellFormed(next) <==> AllText(conv[to + 1].content)
  {
    var next := [conv[0], Summary(text)] + conv[to + 1..];
    CompactedAlternates(conv, to, text);
    forall i | 0 <= i < |next| && i != 2 ensures PairedAt(next, i) {
      KeptPairing(conv, to, text, i);
    }
    assert Paired(next) <==> PairedAt(next, 2);
    FirstKeptPairing(conv, to, text);
    assert next[|next| - 1] == conv[|conv| - 1];
  }

  lemma KeptPairing(conv: seq<Message>, to: nat, text: string, i: nat)
    requires WellFormed(conv) && 1 <= to && to + 1 < |conv| && i != 2
    requires i < |[conv[0], Summary(text)] + conv[to + 1..]|
    ensures PairedAt([conv[0], Summary(text)] + conv[to + 1..], i)
  {
    if i == 0 {
      assert PairedAt(conv, 0);
    } else if i >= 3 {
      assert PairedAt(conv, i + to - 1);
    }
  }

  lemma FirstKeptPairing(conv: seq<Message>, to: nat, text: string)
    requires 1 <= to && to + 1 < |conv| && conv[to + 1].role == User
    ensures PairedAt([conv[0], Summary(text)] + conv[to + 1..], 2) <==> AllText(conv[to + 1].content)
  {
    var content := conv[to + 1].content;
    assert [Text(text)][..0] == [] && Calls([Text(text)]) == [];
    assert AllText(content) <==> forall j :: 0 <= j < |content| ==> content[j].Text?;
  }

  lemma CompactedTurns(first: Message, text: string, kept: seq<Message>, later: seq<Message>)
    requires |TurnStarts(kept)| == KEPT_TURNS && kept != []
    ensures var next := [first, Summary(text)] + kept;
      Plan(next).None? && (StartsTurn(first) ==> (Plan(next + later).Some? <==> TurnStarts(later) != []))
  {
    var next := [first, Summary(text)] + kept;
    HeadTurns(first, text);
    TurnStartsConcat([first, Summary(text)], kept);
    TurnStartsConcat(next, later);
    PlanIff(next);
    PlanIff(next + later);
  }

  /** There is something to compact exactly from six turns on. */
  lemma PlanIff(msgs: seq<Message>)
    ensures Plan(msgs).Some? <==> |TurnStarts(msgs)| >= MIN_TURNS
  {
    if |TurnStarts(msgs)| >= MIN_TURNS {
      TurnStartAt(msgs, |TurnStarts(msgs)| - KEPT_TURNS);
    }
  }

  lemma HeadTurns(first: Message, text: string)
    ensures |TurnStarts([first, Summary(text)])| == if StartsTurn(first) then 1 else 0
  {
    var head := [first, Summary(text)];
    assert head[..1] == [first] && [first][..0] == [];
    assert TurnStarts([first]) == TurnStarts([]) + if StartsTurn(first) then [0] else [];
    assert TurnStarts(head) == TurnStarts([first]) + [];
  }
}
