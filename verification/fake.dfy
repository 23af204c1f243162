/** The scripted provider as a printer of event streams, and the assembler as its reader. */
module Fake {
  import opened Prelude
  import opened Conversation
  import opened Assembly

  /** One piece of a script with the fragments its text is streamed in. */
  datatype CutThinking = CutThinking(thinking: Thinking, frags: seq<string>)
  datatype CutCall = CutCall(call: ToolCall, frags: seq<string>)

  /** A script's content, cut into fragments. */
  datatype Cut = Cut(thinking: seq<CutThinking>, text: seq<string>, calls: seq<CutCall>)

  // ------------------------------------------------------- what is printed

  datatype DeltaKind = OfText | OfThinking | OfCall

  function DeltaOf(kind: DeltaKind, frag: string): Event {
    match kind
    case OfText => TextDelta(frag)
    case OfThinking => ThinkingDelta(frag)
    case OfCall => ToolCallDelta(frag)
  }

  function Deltas(kind: DeltaKind, frags: seq<string>): seq<Event> {
    if frags == [] then [] else Deltas(kind, frags[..|frags| - 1]) + [DeltaOf(kind, frags[|frags| - 1])]
  }

  function PrintThinking(t: CutThinking): seq<Event> {
    Deltas(OfThinking, if t.thinking.redacted then [] else t.frags) + [ThinkingDone(Some(t.thinking))]
  }

  function PrintCall(c: CutCall): seq<Event> {
    [ToolCallStart(c.call.id, c.call.name)] + Deltas(OfCall, c.frags) + [ToolCallEnd(Some(c.call))]
  }

  function PrintAllThinking(ts: seq<CutThinking>): seq<Event> {
    if ts == [] then [] else PrintAllThinking(ts[..|ts| - 1]) + PrintThinking(ts[|ts| - 1])
  }

  function PrintAllCalls(cs: seq<CutCall>): seq<Event> {
    if cs == [] then [] else PrintAllCalls(cs[..|cs| - 1]) + PrintCall(cs[|cs| - 1])
  }

  function Body(c: Cut): seq<Event> {
    PrintAllThinking(c.thinking) + Deltas(OfText, c.text) + PrintAllCalls(c.calls)
  }

  // ----------------------------------------------------- what is read back

  function ThinkingBlocks(ts: seq<CutThinking>): seq<Block> {
    if ts == [] then []
    else ThinkingBlocks(ts[..|ts| - 1]) + [Reasoning(ts[|ts| - 1].thinking.(dropOnSummary := true))]
  }

  function CallBlocks(cs: seq<CutCall>): seq<Block> {
    if cs == [] then [] else CallBlocks(cs[..|cs| - 1]) + [Call(cs[|cs| - 1].call)]
  }

  function TextBlock(frags: seq<string>): seq<Block> {
    if frags == [] then [] else [Text(Concat(frags))]
  }

  function Blocks(c: Cut): seq<Block> {
    ThinkingBlocks(c.thinking) + TextBlock(c.text) + CallBlocks(c.calls)
  }

  function RunFrom(s: State, evs: seq<Event>): State {
    if evs == [] then s else Next(RunFrom(s, evs[..|evs| - 1]), evs[|evs| - 1])
  }

  lemma RunFromSnoc(s: State, evs: seq<Event>, e: Event)
    ensures RunFrom(s, evs + [e]) == Next(RunFrom(s, evs), e)
  {
    assert (evs + [e])[..|evs|] == evs;
  }

  lemma {:induction false} RunFromConcat(s: State, a: seq<Event>, b: seq<Event>)
    ensures RunFrom(s, a + b) == RunFrom(RunFrom(s, a), b)
  {
    if b == [] {
      assert a + b == a;
    } else {
      assert (a + b)[..|a + b| - 1] == a + b[..|b| - 1];
      RunFromConcat(s, a, b[..|b| - 1]);
    }
  }

  lemma {:induction false} RunIsRunFrom(evs: seq<Event>)
    ensures Run(evs) == RunFrom(FRESH, evs)
  {
    if evs != [] {
      RunIsRunFrom(evs[..|evs| - 1]);
    }
  }

  /** A running assembly between two blocks. */
  ghost predicate Between(s: State) {
    !s.open && !s.done && s.err.None?
  }

  function Plus(s: State, blocks: seq<Block>): State {
    s.(content := s.content + blocks)
  }

  lemma PlusPlus(s: State, a: seq<Block>, b: seq<Block>)
    ensures Plus(Plus(s, a), b) == Plus(s, a + b) && Plus(s, []) == s
  {
    assert s.content + a + b == s.content + (a + b);
    assert s.content + [] == s.content;
  }

  /** An assembly in the middle of a thinking block that follows the content of `s`. */
  ghost predicate InThinking(s: State, r: State) {
    && r.open && !r.done && r.err.None? && r.usage == s.usage
    && |r.content| == |s.content| + 1 && r.content[..|s.content|] == s.content
    && r.content[|s.content|].Reasoning?
  }

  /** The deltas of a thinking block only build what ThinkingDone replaces. */
  lemma {:induction false} ReadThinkingDeltas(s: State, frags: seq<string>)
    requires Between(s)
    ensures if frags == [] then RunFrom(s, Deltas(OfThinking, frags)) == s
            else InThinking(s, RunFrom(s, Deltas(OfThinking, frags)))
  {
    if frags != [] {
      var n := |frags| - 1;
      ReadThinkingDeltas(s, frags[..n]);
      RunFromSnoc(s, Deltas(OfThinking, frags[..n]), ThinkingDelta(frags[n]));
    }
  }

  lemma CloseThinking(s: State, r: State, t: Thinking)
    requires Between(s) && (r == s || InThinking(s, r))
    ensures Next(r, ThinkingDone(Some(t))) == Plus(s, [Reasoning(t.(dropOnSummary := true))])
  {
  }

  lemma ReadThinking(s: State, t: CutThinking)
    requires Between(s)
    ensures RunFrom(s, PrintThinking(t)) == Plus(s, [Reasoning(t.thinking.(dropOnSummary := true))])
  {
    var deltas := Deltas(OfThinking, if t.thinking.redacted then [] else t.frags);
    RunFromSnoc(s, deltas, ThinkingDone(Some(t.thinking)));
    ReadThinkingDeltas(s, if t.thinking.redacted then [] else t.frags);
    CloseThinking(s, RunFrom(s, deltas), t.thinking);
  }

  lemma {:induction false} ReadAllThinking(s: State, ts: seq<CutThinking>)
    requires Between(s)
    ensures RunFrom(s, PrintAllThinking(ts)) == Plus(s, ThinkingBlocks(ts))
  {
    PlusPlus(s, [], []);
    if ts != [] {
      var n := |ts| - 1;
      ReadAllThinking(s, ts[..n]);
      RunFromConcat(s, PrintAllThinking(ts[..n]), PrintThinking(ts[n]));
      ReadThinking(Plus(s, ThinkingBlocks(ts[..n])), ts[n]);
      PlusPlus(s, ThinkingBlocks(ts[..n]), [Reasoning(ts[n].thinking.(dropOnSummary := true))]);
    }
  }

  /** Text fragments grow one block, wherever the text was cut. */
  lemma {:induction false} ReadText(s: State, frags: seq<string>)
    requires Between(s) && (s.content == [] || !s.content[|s.content| - 1].Text?)
    ensures RunFrom(s, Deltas(OfText, frags)) == Plus(s, TextBlock(frags))
  {
    PlusPlus(s, [], []);
    if frags != [] {
      var n := |frags| - 1;
      ReadText(s, frags[..n]);
      RunFromSnoc(s, Deltas(OfText, frags[..n]), TextDelta(frags[n]));
      GrowText(s, frags[..n], frags[n]);
      ConcatSnoc(frags[..n], frags[n]);
      assert frags[..n] + [frags[n]] == frags;
    }
  }

  lemma GrowText(s: State, frags: seq<string>, frag: string)
    requires Between(s) && (s.content == [] || !s.content[|s.content| - 1].Text?)
    ensures Next(Plus(s, TextBlock(frags)), TextDelta(frag)) == Plus(s, [Text(Concat(frags) + frag)])
  {
    if frags == [] {
      assert Concat(frags) + frag == frag;
      PlusPlus(s, [], []);
    } else {
      var c := s.content + [Text(Concat(frags))];
      assert c[..|c| - 1] == s.content;
    }
  }

  lemma {:induction false} ReadCallDeltas(s: State, frags: seq<string>)
    requires Between(s)
    ensures RunFrom(s, Deltas(OfCall, frags)) == s
  {
    if frags != [] {
      var n := |frags| - 1;
      ReadCallDeltas(s, frags[..n]);
      RunFromSnoc(s, Deltas(OfCall, frags[..n]), ToolCallDelta(frags[n]));
    }
  }

  lemma ReadCall(s: State, c: CutCall)
    requires Between(s)
    ensures RunFrom(s, PrintCall(c)) == Plus(s, [Call(c.call)])
  {
    var start, deltas := [ToolCallStart(c.call.id, c.call.name)], Deltas(OfCall, c.frags);
    assert [] + start == start;
    RunFromSnoc(s, [], start[0]);
    RunFromConcat(s, start, deltas);
    ReadCallDeltas(s, c.frags);
    RunFromSnoc(s, start + deltas, ToolCallEnd(Some(c.call)));
  }

  lemma {:induction false} ReadAllCalls(s: State, cs: seq<CutCall>)
    requires Between(s)
    ensures RunFrom(s, PrintAllCalls(cs)) == Plus(s, CallBlocks(cs))
  {
    PlusPlus(s, [], []);
    if cs != [] {
      var n := |cs| - 1;
      ReadAllCalls(s, cs[..n]);
      RunFromConcat(s, PrintAllCalls(cs[..n]), PrintCall(cs[n]));
      ReadCall(Plus(s, CallBlocks(cs[..n])), cs[n]);
      PlusPlus(s, CallBlocks(cs[..n]), [Call(cs[n].call)]);
    }
  }

  lemma ReadBody(c: Cut)
    ensures Run(Body(c)) == Plus(FRESH, Blocks(c))
  {
    var ts, text, cs := PrintAllThinking(c.thinking), Deltas(OfText, c.text), PrintAllCalls(c.calls);
    var s1 := Plus(FRESH, ThinkingBlocks(c.thinking));
    var s2 := Plus(FRESH, ThinkingBlocks(c.thinking) + TextBlock(c.text));
    RunIsRunFrom(ts + text + cs);
    RunFromConcat(FRESH, ts + text, cs);
    RunFromConcat(FRESH, ts, text);
    ReadAllThinking(FRESH, c.thinking);
    ReadText(s1, c.text);
    PlusPlus(FRESH, ThinkingBlocks(c.thinking), TextBlock(c.text));
    ReadAllCalls(s2, c.calls);
    PlusPlus(FRESH, ThinkingBlocks(c.thinking) + TextBlock(c.text), CallBlocks(c.calls));
  }

  lemma RunSnoc(evs: seq<Event>, e: Event)
    ensures Run(evs + [e]) == Next(Run(evs), e)
    ensures Forwarded(evs + [e]) == Forwarded(evs) + if Forwards(Run(evs), e) then [e] else []
  {
    assert (evs + [e])[..|evs|] == evs;
  }

  /** Reading undoes printing: thinking blocks, then the whole text, then the calls, however
      the fragments were cut. */
  lemma ReadUndoesPrint(c: Cut, usage: Option<Usage>)
    ensures Outcome(Run(Body(c) + [MessageDone(usage)])) == if Blocks(c) == [] then Err(NoContent) else Ok(Blocks(c))
  {
    ReadBody(c);
    RunSnoc(Body(c), MessageDone(usage));
    assert Plus(FRESH, Blocks(c)).content == Blocks(c);
  }

  /** A script that fails midway delivers its error and nothing else; every event before it,
      and the error event, are forwarded. */
  lemma FailureIsDelivered(c: Cut, k: nat, e: string)
    requires k <= |Body(c)|
    ensures var printed := Body(c)[..k] + [Failure(Some(e))];
      Outcome(Run(printed)) == Err(ModelError(e)) && Forwarded(printed) == printed
  {
    var body := Body(c);
    ReadBody(c);
    RunMeans(body);
    CleanPrefix(body, k);
    assert forall i :: 0 <= i < k ==> body[..k][i] == body[i] && !body[i].MessageDone?;
    assert !Ended(body[..k]);
    RunMeans(body[..k]);
    AllForwarded(body[..k]);
    RunSnoc(body[..k], Failure(Some(e)));
    FailureStops(Run(body[..k]), e);
  }

  lemma FailureStops(s: State, e: string)
    requires s.err.None? && !s.done
    ensures Outcome(Next(s, Failure(Some(e)))) == Err(ModelError(e)) && Forwards(s, Failure(Some(e)))
  {
  }

  lemma AllForwarded(pre: seq<Event>)
    requires Clean(pre)
    ensures Forwarded(pre) == pre
  {
    var n := ForwardsTheMaximalPrefix(pre);
    forall i | 0 <= i < |pre| ensures Allowed(pre, i) {
      assert Fine(pre, i);
    }
  }

  lemma CleanPrefix(evs: seq<Event>, k: nat)
    requires Clean(evs) && k <= |evs|
    ensures Clean(evs[..k])
  {
    forall i | 0 <= i < k ensures Fine(evs[..k], i) {
      assert Fine(evs, i);
      PrefixAllowed(evs, k, i);
    }
  }

  // ------------------------------------------------------------ the printer

  datatype Script = Script(
    thinking: seq<Thinking>, text: string, calls: seq<ToolCall>, usage: Usage,
    failAfter: nat, err: Option<string>, blockUntilCancel: bool)

  /** nextRuneFrag: about half of the string, all of a single rune. */
  function NextRuneFrag(s: string): (frag: string)
    ensures |frag| <= |s| && frag + s[|frag|..] == s
    ensures s != "" ==> frag != ""
  {
    if |s| <= 1 then s else s[..(|s| + 1) / 2]
  }

  function Halves(s: string): seq<string>
    decreases |s|
  {
    if s == "" then [] else [NextRuneFrag(s)] + Halves(s[|NextRuneFrag(s)|..])
  }

  function CutAllThinking(ts: seq<Thinking>): seq<CutThinking> {
    if ts == [] then []
    else CutAllThinking(ts[..|ts| - 1]) + [CutThinking(ts[|ts| - 1], Halves(ts[|ts| - 1].text))]
  }

  function CutAllCalls(cs: seq<ToolCall>): seq<CutCall> {
    if cs == [] then [] else CutAllCalls(cs[..|cs| - 1]) + [CutCall(cs[|cs| - 1], Halves(cs[|cs| - 1].input))]
  }

  function CutOf(s: Script): Cut {
    Cut(CutAllThinking(s.thinking), Halves(s.text), CutAllCalls(s.calls))
  }

  /** Nothing is lost in the fragments, and only the empty string has none. */
  lemma {:induction false} HalvesConcat(s: string)
    ensures Concat(Halves(s)) == s && (Halves(s) == [] <==> s == "")
    decreases |s|
  {
    if s != "" {
      var f := NextRuneFrag(s);
      var rest := Halves(s[|f|..]);
      assert Halves(s) == [f] + rest;
      HalvesConcat(s[|f|..]);
      ConcatCons(f, rest);
    }
  }

  /** The emit and shouldStop closures of Stream, over a context that, if it can be cancelled,
      may be so at any moment and stays cancelled. */
  class Emitter {
    const failAfter: nat
    const cancellable: bool
    var events: seq<Event>
    var cancelled: bool

    constructor (failAfter: nat, cancellable: bool)
      ensures this.failAfter == failAfter && this.cancellable == cancellable && events == [] && !cancelled
    {
      this.failAfter, this.cancellable := failAfter, cancellable;
      events, cancelled := [], false;
    }

    predicate Stopped()
      reads this
    {
      cancelled || (failAfter > 0 && |events| >= failAfter)
    }

    method ShouldStop() returns (stop: bool)
      modifies this`cancelled
      ensures stop == Stopped() && (old(cancelled) ==> cancelled) && (cancelled ==> old(cancelled) || cancellable)
    {
      var now: bool := *;
      cancelled := cancelled || (now && cancellable);
      stop := Stopped();
    }

    method Emit(e: Event) returns (ok: bool)
      modifies this
      ensures (old(cancelled) ==> cancelled) && (cancelled ==> old(cancelled) || cancellable)
      ensures ok ==> !old(Stopped()) && events == old(events) + [e] && !cancelled
      ensures !ok ==> events == old(events) && Stopped()
    {
      var stop := ShouldStop();
      if !stop {
        events := events + [e];
      }
      ok := !stop;
    }

    /** What was printed is a prefix of what is due, cut short only by a stop. */
    ghost predicate Printed(due: seq<Event>)
      reads this
    {
      && events <= due
      && (events == due || Stopped())
      && (failAfter > 0 ==> |events| <= failAfter)
      && (cancelled ==> cancellable)
    }

    lemma StoppedIsPrinted(due: seq<Event>, rest: seq<Event>)
      requires Printed(due) && Stopped()
      ensures Printed(due + rest)
    {
    }

    /** Emits one more event unless stopped. */
    method Print(e: Event, ghost due: seq<Event>)
      requires Printed(due)
      modifies this
      ensures Printed(due + [e])
    {
      var _ := Emit(e);
    }

    /** Prints a text as deltas, half of the rest at a time. */
    method PrintDeltas(text: string, kind: DeltaKind, ghost due: seq<Event>)
      requires Printed(due)
      modifies this
      ensures Printed(due + Deltas(kind, Halves(text)))
    {
      var rest := text;
      ghost var sofar := due;
      while rest != ""
        invariant due + Deltas(kind, Halves(text)) == sofar + Deltas(kind, Halves(rest))
        invariant Printed(sofar)
        decreases |rest|
      {
        var frag := NextRuneFrag(rest);
        DeltasStep(sofar, kind, rest);
        var stop := ShouldStop();
        if stop {
          StoppedIsPrinted(sofar, Deltas(kind, Halves(rest)));
          return;
        }
        Print(DeltaOf(kind, frag), sofar);
        rest := rest[|frag|..];
        sofar := sofar + [DeltaOf(kind, frag)];
      }
      assert sofar + Deltas(kind, []) == sofar;
    }

    /** Step 1 of Stream: the thinking blocks. */
    method PrintThinkings(ts: seq<Thinking>)
      requires Printed([])
      modifies this
      ensures Printed(PrintAllThinking(CutAllThinking(ts)))
    {
      for i := 0 to |ts|
        invariant Printed(PrintAllThinking(CutAllThinking(ts[..i])))
      {
        ghost var due := PrintAllThinking(CutAllThinking(ts[..i]));
        ghost var deltas := Deltas(OfThinking, if ts[i].redacted then [] else Halves(ts[i].text));
        if ts[i].redacted {
          assert due + deltas == due;
        } else {
          PrintDeltas(ts[i].text, OfThinking, due);
        }
        Print(ThinkingDone(Some(ts[i])), due + deltas);
        ThinkingStep(ts, i);
      }
      assert ts[..|ts|] == ts;
    }

    /** Step 3 of Stream: the tool calls. */
    method PrintCalls(cs: seq<ToolCall>, ghost before: seq<Event>)
      requires Printed(before)
      modifies this
      ensures Printed(before + PrintAllCalls(CutAllCalls(cs)))
    {
      assert before + PrintAllCalls(CutAllCalls(cs[..0])) == before;
      for i := 0 to |cs|
        invariant Printed(before + PrintAllCalls(CutAllCalls(cs[..i])))
      {
        ghost var due := before + PrintAllCalls(CutAllCalls(cs[..i]));
        var start, end := ToolCallStart(cs[i].id, cs[i].name), ToolCallEnd(Some(cs[i]));
        Print(start, due);
        PrintDeltas(cs[i].input, OfCall, due + [start]);
        Print(end, due + [start] + Deltas(OfCall, Halves(cs[i].input)));
        CallStep(before, cs, i);
      }
      assert cs[..|cs|] == cs;
    }
  }

  lemma DeltasStep(sofar: seq<Event>, kind: DeltaKind, rest: string)
    requires rest != ""
    ensures var frag := NextRuneFrag(rest);
      sofar + Deltas(kind, Halves(rest)) == sofar + [DeltaOf(kind, frag)] + Deltas(kind, Halves(rest[|frag|..]))
  {
    var frag := NextRuneFrag(rest);
    var tail := Halves(rest[|frag|..]);
    assert Halves(rest) == [frag] + tail;
    DeltasGrow(kind, [frag], tail);
    assert [frag][..0] == [];
    assert Deltas(kind, [frag]) == [DeltaOf(kind, frag)];
    Assoc(sofar, [DeltaOf(kind, frag)], Deltas(kind, tail));
  }

  lemma ThinkingStep(ts: seq<Thinking>, i: nat)
    requires i < |ts|
    ensures PrintAllThinking(CutAllThinking(ts[..i + 1]))
         == PrintAllThinking(CutAllThinking(ts[..i]))
            + Deltas(OfThinking, if ts[i].redacted then [] else Halves(ts[i].text)) + [ThinkingDone(Some(ts[i]))]
  {
    assert ts[..i + 1][..i] == ts[..i];
    var cut := CutAllThinking(ts[..i]);
    assert (cut + [CutThinking(ts[i], Halves(ts[i].text))])[..|cut|] == cut;
    Assoc(PrintAllThinking(cut), Deltas(OfThinking, if ts[i].redacted then [] else Halves(ts[i].text)),
                [ThinkingDone(Some(ts[i]))]);
  }

  lemma CallStep(before: seq<Event>, cs: seq<ToolCall>, i: nat)
    requires i < |cs|
    ensures before + PrintAllCalls(CutAllCalls(cs[..i + 1]))
         == before + PrintAllCalls(CutAllCalls(cs[..i])) + [ToolCallStart(cs[i].id, cs[i].name)]
            + Deltas(OfCall, Halves(cs[i].input)) + [ToolCallEnd(Some(cs[i]))]
  {
    assert cs[..i + 1][..i] == cs[..i];
    var cut, last := CutAllCalls(cs[..i]), CutCall(cs[i], Halves(cs[i].input));
    assert (cut + [last])[..|cut|] == cut;
    var a, b, c, d := PrintAllCalls(cut), [ToolCallStart(cs[i].id, cs[i].name)],
      Deltas(OfCall, Halves(cs[i].input)), [ToolCallEnd(Some(cs[i]))];
    assert PrintAllCalls(cut + [last]) == a + (b + c + d);
    Assoc(before, a, b + c + d);
    Assoc(before + a, b + c, d);
    Assoc(before + a, b, c);
  }

  lemma {:induction false} DeltasGrow(kind: DeltaKind, a: seq<string>, b: seq<string>)
    ensures Deltas(kind, a + b) == Deltas(kind, a) + Deltas(kind, b)
  {
    if b == [] {
      assert a + b == a;
    } else {
      assert (a + b)[..|a + b| - 1] == a + b[..|b| - 1];
      DeltasGrow(kind, a, b[..|b| - 1]);
    }
  }

  datatype Returned = Nil | Cancelled | Scripted(err: string) | ScriptError

  /** What a script is to print when nothing cancels it. */
  function Due(s: Script): seq<Event> {
    var body := Body(CutOf(s));
    if s.blockUntilCancel || (s.err.None? && s.failAfter > 0) then []
    else if s.err.None? then body + [MessageDone(Some(s.usage))]
    else if s.failAfter < |body| then body[..s.failAfter] + [Failure(s.err)]
    else body + [Failure(s.err)]
  }

  /** What the emitter leaves is the body up to the stop, and the last event completes it. */
  lemma DuePrinted(s: Script, events: seq<Event>, cancelled: bool)
    requires !s.blockUntilCancel && (s.err.None? <==> s.failAfter == 0)
    requires events <= Body(CutOf(s)) && (s.failAfter > 0 ==> |events| <= s.failAfter)
    requires events == Body(CutOf(s)) || cancelled || (s.failAfter > 0 && |events| >= s.failAfter)
    ensures events <= Due(s)
    ensures !cancelled ==>
              Due(s) == events + [if s.err.Some? then Failure(s.err) else MessageDone(Some(s.usage))]
  {
  }

  /** What Stream returns when nothing cancels it. */
  function Verdict(s: Script): Returned {
    if s.err.Some? then Scripted(s.err.value) else if s.failAfter > 0 then ScriptError else Nil
  }

  /** Fake.Stream: everything due and the scripted verdict, or a prefix of it when the context
      is cancelled. */
  method Stream(s: Script, cancellable: bool) returns (events: seq<Event>, r: Returned)
    ensures events <= Due(s)
    ensures r.Cancelled? || (events == Due(s) && r == Verdict(s))
    ensures r.Cancelled? ==> cancellable || s.blockUntilCancel
    ensures s.blockUntilCancel ==> r.Cancelled?
  {
    if s.blockUntilCancel {
      return [], Cancelled;
    }
    var now: bool := *;
    now := now && cancellable;
    if s.err.Some? && s.failAfter == 0 {
      assert Body(CutOf(s))[..0] == [];
      return if now then [] else [Failure(s.err)], if now then Cancelled else Scripted(s.err.value);
    }
    if s.err.None? && s.failAfter > 0 {
      return [], ScriptError;
    }
    var out := new Emitter(s.failAfter, cancellable);
    out.PrintThinkings(s.thinking);
    out.PrintDeltas(s.text, OfText, PrintAllThinking(CutAllThinking(s.thinking)));
    out.PrintCalls(s.calls, PrintAllThinking(CutAllThinking(s.thinking)) + Deltas(OfText, Halves(s.text)));
    DuePrinted(s, out.events, out.cancelled);
    var gone: bool := *;
    if (gone && cancellable) || out.cancelled {
      return out.events, Cancelled;
    }
    if s.err.Some? {
      events, r := out.events + [Failure(s.err)], Scripted(s.err.value);
    } else {
      events, r := out.events + [MessageDone(Some(s.usage))], Nil;
    }
  }

  /** What the assembler makes of an uncancelled scripted turn. */
  lemma ScriptIsDelivered(s: Script)
    requires !s.blockUntilCancel && s.err.None? && s.failAfter == 0
    requires s.thinking != [] || s.text != "" || s.calls != []
    ensures Outcome(Run(Due(s))).Ok?
    ensures Outcome(Run(Due(s))).value == ThinkingBlocks(CutAllThinking(s.thinking))
              + (if s.text == "" then [] else [Text(s.text)]) + CallBlocks(CutAllCalls(s.calls))
  {
    ReadUndoesPrint(CutOf(s), Some(s.usage));
    HalvesConcat(s.text);
  }
}
