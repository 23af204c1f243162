/** What a stream says, letter by letter, and what the assembler makes of it. */
module StreamLaws {
  import opened Prelude
  import opened Conversation
  import opened Assembly
  import opened Fake

  // ------------------------------------------------- what the content holds

  /** A letter of a text, or a whole block of another kind. */
  datatype Atom = Letter(c: char) | Whole(block: Block)

  function Letters(text: string): seq<Atom> {
    seq(|text|, i requires 0 <= i < |text| => Letter(text[i]))
  }

  function BlockAtoms(b: Block): seq<Atom> {
    if b.Text? then Letters(b.text) else [Whole(b)]
  }

  function ContentAtoms(content: seq<Block>): seq<Atom> {
    if content == [] then [] else ContentAtoms(content[..|content| - 1]) + BlockAtoms(content[|content| - 1])
  }

  /** What an event adds: its text, its thinking block, marked to be left out of summaries, or its call. */
  function EventAtoms(ev: Event): seq<Atom> {
    match ev
    case TextDelta(text) => Letters(text)
    case ThinkingDone(Some(t)) => [Whole(Reasoning(Thinking(t.text, t.signature, t.redacted, t.data, true)))]
    case ToolCallEnd(Some(c)) => [Whole(Call(ToolCall(c.id, c.name, c.input)))]
    case _ => []
  }

  function StreamAtoms(evs: seq<Event>): seq<Atom> {
    if evs == [] then [] else StreamAtoms(evs[..|evs| - 1]) + EventAtoms(evs[|evs| - 1])
  }

  predicate TextsApart(content: seq<Block>) {
    forall i :: 0 < i < |content| ==> !(content[i - 1].Text? && content[i].Text?)
  }

  /** The content is what was said, an unfinished thinking block aside. */
  ghost predicate Says(s: State, atoms: seq<Atom>) {
    var n := |s.content| - 1;
    && TextsApart(s.content)
    && (if s.open then n >= 0 && s.content[n].Reasoning? && ContentAtoms(s.content[..n]) == atoms
        else ContentAtoms(s.content) == atoms)
  }

  lemma OneMoreBlock(content: seq<Block>, b: Block)
    ensures ContentAtoms(content + [b]) == ContentAtoms(content) + BlockAtoms(b)
  {
    assert (content + [b])[..|content|] == content;
  }

  lemma LettersJoin(text: string, more: string)
    ensures Letters(text + more) == Letters(text) + Letters(more)
  {
  }

  lemma MoreLetters(content: seq<Block>, text: string, more: string)
    ensures ContentAtoms(content + [Text(text + more)]) == ContentAtoms(content + [Text(text)]) + Letters(more)
  {
    OneMoreBlock(content, Text(text + more));
    OneMoreBlock(content, Text(text));
    LettersJoin(text, more);
    Assoc(ContentAtoms(content), Letters(text), Letters(more));
  }

  lemma TextGrows(s: State, before: seq<Block>, last: string, text: string, atoms: seq<Atom>)
    requires Says(s, atoms) && !s.open && s.content == before + [Text(last)]
    ensures Says(s.(content := before + [Text(last + text)]), atoms + Letters(text))
  {
    MoreLetters(before, last, text);
    var n := |before|;
    assert forall i :: 0 <= i < n ==> s.content[i] == before[i];
    assert n > 0 ==> s.content[n].Text?;
  }

  lemma TextFollows(s: State, text: string, atoms: seq<Atom>)
    requires Says(s, atoms) && !s.open && (s.content != [] ==> !s.content[|s.content| - 1].Text?)
    ensures Says(s.(content := s.content + [Text(text)]), atoms + Letters(text))
  {
    OneMoreBlock(s.content, Text(text));
  }

  lemma TextSays(s: State, text: string, atoms: seq<Atom>)
    requires Says(s, atoms) && !s.open
    ensures Says(s.(content := AddText(s.content, text)), atoms + Letters(text))
  {
    var n := |s.content|;
    if n > 0 && s.content[n - 1].Text? {
      TextGrows(s, s.content[..n - 1], s.content[n - 1].text, text, atoms);
    } else {
      TextFollows(s, text, atoms);
    }
  }

  lemma ThinkingSays(s: State, t: Thinking, open: bool, atoms: seq<Atom>)
    requires Says(s, atoms)
    ensures Says(s.(content := SetThinking(s, t), open := open), if open then atoms else atoms + [Whole(Reasoning(t))])
  {
    var n := |s.content| - 1;
    ThoughtSays(s, if s.open then s.content[..n] else s.content, t, open, atoms);
  }

  lemma ThoughtSays(s: State, before: seq<Block>, t: Thinking, open: bool, atoms: seq<Atom>)
    requires TextsApart(before) && ContentAtoms(before) == atoms
    ensures Says(s.(content := before + [Reasoning(t)], open := open),
                 if open then atoms else atoms + [Whole(Reasoning(t))])
  {
    OneMoreBlock(before, Reasoning(t));
    assert (before + [Reasoning(t)])[..|before|] == before;
  }

  lemma CallSays(s: State, c: ToolCall, atoms: seq<Atom>)
    requires Says(s, atoms) && !s.open
    ensures Says(s.(content := s.content + [Call(c)]), atoms + [Whole(Call(c))])
  {
    OneMoreBlock(s.content, Call(c));
  }

  lemma ThinkingEventSays(s: State, ev: Event, atoms: seq<Atom>)
    requires Says(s, atoms) && Next(s, ev).err.None? && (ev.ThinkingDelta? || ev.ThinkingDone?)
    ensures Says(Next(s, ev), atoms + EventAtoms(ev))
  {
    if ev.ThinkingDelta? {
      ThinkingSays(s, Thinking(OpenText(s) + ev.text, "", false, "", false), true, atoms);
    } else {
      ThinkingSays(s, ev.thinking.value.(dropOnSummary := true), false, atoms);
    }
  }

  lemma NextSays(s: State, ev: Event, atoms: seq<Atom>)
    requires Says(s, atoms) && Next(s, ev).err.None?
    ensures Says(Next(s, ev), atoms + EventAtoms(ev))
  {
    if ev.ThinkingDelta? || ev.ThinkingDone? {
      ThinkingEventSays(s, ev, atoms);
    } else if ev.TextDelta? {
      TextSays(s, ev.text, atoms);
    } else if ev.ToolCallEnd? {
      CallSays(s, ev.call.value, atoms);
    } else {
      assert EventAtoms(ev) == [];
    }
  }

  lemma {:induction false} RunSays(evs: seq<Event>)
    requires Run(evs).err.None?
    ensures Says(Run(evs), StreamAtoms(evs))
  {
    if evs != [] {
      var before := evs[..|evs| - 1];
      RunSays(before);
      NextSays(Run(before), evs[|evs| - 1], StreamAtoms(before));
    }
  }

  /** A delivered message holds every letter, every thinking block and every call of its stream, in their
      order and nothing else, with the text between two other blocks in one block; its usage is that of
      the event that ended it. */
  lemma DeliveredInFull(evs: seq<Event>)
    requires Outcome(Run(evs)).Ok?
    ensures ContentAtoms(Outcome(Run(evs)).value) == StreamAtoms(evs)
    ensures TextsApart(Outcome(Run(evs)).value)
    ensures evs != [] && evs[|evs| - 1].MessageDone? && Run(evs).usage == evs[|evs| - 1].usage
  {
    RunSays(evs);
    AcceptsExactlyTheProtocol(evs);
    EndsWithUsage(Run(evs[..|evs| - 1]), evs[|evs| - 1]);
  }

  lemma EndsWithUsage(s: State, ev: Event)
    requires ev.MessageDone? && Next(s, ev).err.None?
    ensures !Next(s, ev).open && Next(s, ev).usage == ev.usage
  {
  }

  // -------------------------------------------------------------- the errors

  lemma {:induction false} ErrorStays(evs: seq<Event>, k: nat)
    requires k <= |evs| && Run(evs[..k]).err.Some?
    ensures Run(evs).err == Run(evs[..k]).err
  {
    if k == |evs| {
      assert evs[..k] == evs;
    } else {
      assert evs[..|evs| - 1][..k] == evs[..k];
      ErrorStays(evs[..|evs| - 1], k);
    }
  }

  /** What is wrong with an event, after a message end, or inside a thinking block. */
  function Offence(ev: Event, ended: bool, open: bool): StreamError {
    if ended then AfterMessageDone
    else
      match ev
      case TextDelta(_) => TextWhileThinking
      case ThinkingDone(_) => NilThinking
      case ToolCallEnd(_) => if open then CallWhileThinking else NilCall
      case MessageDone(_) => ThinkingNotClosed
      case Failure(Some(e)) => ModelError(e)
      case _ => StreamFailed
  }

  lemma OffenceStops(s: State, ev: Event)
    requires s.err.None? && (Refusal(s, ev).Some? || ev.Failure?)
    ensures Next(s, ev).err == Some(Offence(ev, s.done, s.open))
  {
  }

  /** The error of a stream is that of its first event that is not allowed, or is an error itself. */
  lemma FirstOffenceIsReported(evs: seq<Event>, k: nat, ended: bool)
    requires k < |evs| && Clean(evs[..k]) && !Fine(evs, k)
    requires ended <==> exists j :: 0 <= j < k && evs[j].MessageDone?
    ensures Outcome(Run(evs)) == Err(Offence(evs[k], ended, OpenAt(evs, k)))
  {
    StateBefore(evs, k, ended);
    OffenceStops(Run(evs[..k]), evs[k]);
    RunsOn(evs, k);
    ErrorStays(evs, k + 1);
  }

  lemma RunsOn(evs: seq<Event>, k: nat)
    requires k < |evs|
    ensures Run(evs[..k + 1]) == Next(Run(evs[..k]), evs[k])
  {
    assert evs[..k + 1][..k] == evs[..k];
  }

  lemma StateBefore(evs: seq<Event>, k: nat, ended: bool)
    requires k < |evs| && Clean(evs[..k]) && !Fine(evs, k)
    requires ended <==> exists j :: 0 <= j < k && evs[j].MessageDone?
    ensures var s := Run(evs[..k]);
      && s.err.None? && s.done == ended && s.open == OpenAt(evs, k)
      && (Refusal(s, evs[k]).Some? || evs[k].Failure?)
  {
    var pre, upTo := evs[..k], evs[..k + 1];
    RunMeans(pre);
    OpenBefore(evs, k);
    assert Ended(pre) == ended by {
      assert forall j :: 0 <= j < k ==> pre[j] == evs[j];
    }
    assert upTo[..k] == pre && upTo[k] == evs[k];
    PrefixAllowed(evs, k + 1, k);
    AllowedMeans(upTo, Run(pre));
  }

  lemma OpenBefore(evs: seq<Event>, k: nat)
    requires k <= |evs|
    ensures OpenAt(evs[..k], k) == OpenAt(evs, k)
  {
    assert forall j :: 0 <= j < k ==> evs[..k][j] == evs[j];
    if OpenAt(evs, k) {
      var j :| 0 <= j < k && evs[j].ThinkingDelta? && forall i :: j < i < k ==> !evs[i].ThinkingDone?;
      assert evs[..k][j].ThinkingDelta?;
    }
  }

  /** A stream without an offence is still no message when its end is missing, or when it says nothing. */
  lemma UnfinishedIsReported(evs: seq<Event>)
    requires Clean(evs)
    ensures !Ended(evs) ==> Outcome(Run(evs)) == Err(NoMessageDone)
    ensures Ended(evs) && !HasBlock(evs) ==> Outcome(Run(evs)) == Err(NoContent)
  {
    RunMeans(evs);
  }

  // ------------------------------------------------------ what a script says

  /** A letter of a delta, or any other event. */
  datatype Sound = InText(c: char) | InThought(c: char) | InInput(c: char) | Mark(ev: Event)

  function TextSounds(text: string): seq<Sound> {
    seq(|text|, i requires 0 <= i < |text| => InText(text[i]))
  }

  function ThoughtSounds(text: string): seq<Sound> {
    seq(|text|, i requires 0 <= i < |text| => InThought(text[i]))
  }

  function InputSounds(text: string): seq<Sound> {
    seq(|text|, i requires 0 <= i < |text| => InInput(text[i]))
  }

  function Sounds(ev: Event): seq<Sound> {
    match ev
    case TextDelta(text) => TextSounds(text)
    case ThinkingDelta(text) => ThoughtSounds(text)
    case ToolCallDelta(text) => InputSounds(text)
    case _ => [Mark(ev)]
  }

  function Heard(evs: seq<Event>): seq<Sound> {
    if evs == [] then [] else Heard(evs[..|evs| - 1]) + Sounds(evs[|evs| - 1])
  }

  function ThinkingTold(ts: seq<Thinking>): seq<Sound> {
    if ts == [] then []
    else
      var before, t := ThinkingTold(ts[..|ts| - 1]), ts[|ts| - 1];
      if t.redacted then before + [Mark(ThinkingDone(Some(t)))]
      else before + ThoughtSounds(t.text) + [Mark(ThinkingDone(Some(t)))]
  }

  function CallsTold(cs: seq<ToolCall>): seq<Sound> {
    if cs == [] then []
    else
      var before, c := CallsTold(cs[..|cs| - 1]), cs[|cs| - 1];
      before + ([Mark(ToolCallStart(c.id, c.name))] + InputSounds(c.input) + [Mark(ToolCallEnd(Some(c)))])
  }

  /** A whole script, letter by letter. */
  function Told(s: Script): seq<Sound> {
    ThinkingTold(s.thinking) + TextSounds(s.text) + CallsTold(s.calls)
  }

  lemma HeardSnoc(evs: seq<Event>, ev: Event)
    ensures Heard(evs + [ev]) == Heard(evs) + Sounds(ev)
  {
    assert (evs + [ev])[..|evs|] == evs;
  }

  lemma {:induction false} HeardConcat(a: seq<Event>, b: seq<Event>)
    ensures Heard(a + b) == Heard(a) + Heard(b)
  {
    if b == [] {
      assert a + b == a && Heard(a) + [] == Heard(a);
    } else {
      var n := |b| - 1;
      assert (a + b)[..|a + b| - 1] == a + b[..n];
      HeardConcat(a, b[..n]);
      Assoc(Heard(a), Heard(b[..n]), Sounds(b[n]));
    }
  }

  function DeltaSounds(kind: DeltaKind, text: string): seq<Sound> {
    match kind
    case OfText => TextSounds(text)
    case OfThinking => ThoughtSounds(text)
    case OfCall => InputSounds(text)
  }

  lemma DeltaSoundsJoin(kind: DeltaKind, a: string, b: string)
    ensures DeltaSounds(kind, a + b) == DeltaSounds(kind, a) + DeltaSounds(kind, b)
    ensures Sounds(DeltaOf(kind, a)) == DeltaSounds(kind, a) && DeltaSounds(kind, "") == []
  {
  }

  lemma {:induction false} DeltasHeard(kind: DeltaKind, frags: seq<string>)
    ensures Heard(Deltas(kind, frags)) == DeltaSounds(kind, Concat(frags))
  {
    if frags == [] {
      DeltaSoundsJoin(kind, "", "");
    } else {
      var n := |frags| - 1;
      DeltasHeard(kind, frags[..n]);
      HeardSnoc(Deltas(kind, frags[..n]), DeltaOf(kind, frags[n]));
      ConcatSnoc(frags[..n], frags[n]);
      assert frags[..n] + [frags[n]] == frags;
      DeltaSoundsJoin(kind, Concat(frags[..n]), frags[n]);
      DeltaSoundsJoin(kind, frags[n], "");
    }
  }

  lemma TextHeard(kind: DeltaKind, text: string)
    ensures Heard(Deltas(kind, Halves(text))) == DeltaSounds(kind, text)
  {
    HalvesConcat(text);
    DeltasHeard(kind, Halves(text));
  }

  lemma OneThinkingHeard(t: Thinking)
    ensures Heard(PrintThinking(CutThinking(t, Halves(t.text))))
         == if t.redacted then [Mark(ThinkingDone(Some(t)))] else ThoughtSounds(t.text) + [Mark(ThinkingDone(Some(t)))]
  {
    if t.redacted {
      HeardSnoc(Deltas(OfThinking, []), ThinkingDone(Some(t)));
    } else {
      TextHeard(OfThinking, t.text);
      HeardSnoc(Deltas(OfThinking, Halves(t.text)), ThinkingDone(Some(t)));
    }
  }

  lemma {:induction false} ThinkingHeard(ts: seq<Thinking>)
    ensures Heard(PrintAllThinking(CutAllThinking(ts))) == ThinkingTold(ts)
  {
    if ts != [] {
      var n := |ts| - 1;
      var cut, last := CutAllThinking(ts[..n]), CutThinking(ts[n], Halves(ts[n].text));
      ThinkingHeard(ts[..n]);
      assert (cut + [last])[..|cut|] == cut;
      HeardConcat(PrintAllThinking(cut), PrintThinking(last));
      OneThinkingHeard(ts[n]);
      Assoc(ThinkingTold(ts[..n]), ThoughtSounds(ts[n].text), [Mark(ThinkingDone(Some(ts[n])))]);
    }
  }

  lemma HeardOne(ev: Event)
    ensures Heard([ev]) == Sounds(ev)
  {
    assert [ev][..0] == [] && Heard([]) + Sounds(ev) == Sounds(ev);
  }

  lemma HeardBetween(first: Event, deltas: seq<Event>, last: Event)
    ensures Heard([first] + deltas + [last]) == Sounds(first) + Heard(deltas) + Sounds(last)
  {
    HeardSnoc([first] + deltas, last);
    HeardConcat([first], deltas);
    HeardOne(first);
  }

  lemma OneCallHeard(c: ToolCall)
    ensures Heard(PrintCall(CutCall(c, Halves(c.input))))
         == [Mark(ToolCallStart(c.id, c.name))] + InputSounds(c.input) + [Mark(ToolCallEnd(Some(c)))]
  {
    TextHeard(OfCall, c.input);
    HeardBetween(ToolCallStart(c.id, c.name), Deltas(OfCall, Halves(c.input)), ToolCallEnd(Some(c)));
  }

  lemma {:induction false} CallsHeard(cs: seq<ToolCall>)
    ensures Heard(PrintAllCalls(CutAllCalls(cs))) == CallsTold(cs)
  {
    if cs != [] {
      var n := |cs| - 1;
      var cut, last := CutAllCalls(cs[..n]), CutCall(cs[n], Halves(cs[n].input));
      CallsHeard(cs[..n]);
      assert (cut + [last])[..|cut|] == cut;
      HeardConcat(PrintAllCalls(cut), PrintCall(last));
      OneCallHeard(cs[n]);
    }
  }

  lemma BodyHeard(s: Script)
    ensures Heard(Body(CutOf(s))) == Told(s)
  {
    var ts, text, cs := PrintAllThinking(CutAllThinking(s.thinking)), Deltas(OfText, Halves(s.text)),
      PrintAllCalls(CutAllCalls(s.calls));
    ThinkingHeard(s.thinking);
    TextHeard(OfText, s.text);
    CallsHeard(s.calls);
    HeardConcat(ts, text);
    HeardConcat(ts + text, cs);
  }

  /** A script that does not fail says each thinking block and marks its end, then its text, then each
      call's start, input and end, and last that the message is done, with its usage. */
  lemma ScriptIsTold(s: Script)
    requires !s.blockUntilCancel && s.err.None? && s.failAfter == 0
    ensures Heard(Due(s)) == Told(s) + [Mark(MessageDone(Some(s.usage)))] && Verdict(s) == Nil
  {
    BodyHeard(s);
    HeardSnoc(Body(CutOf(s)), MessageDone(Some(s.usage)));
  }

  /** A script that fails after n events, n of 0 meaning none, sends the first n events of the same
      script without the failure, or all of them but its last, and then its error. */
  lemma FailingScriptIsCutShort(s: Script, e: string)
    requires !s.blockUntilCancel && s.err == Some(e)
    ensures var whole := Due(s.(err := None, failAfter := 0));
      var n := if s.failAfter < |whole| - 1 then s.failAfter else |whole| - 1;
      && |whole| > 0 && Due(s) == whole[..n] + [Failure(Some(e))] && Verdict(s) == Scripted(e)
  {
    var whole := Due(s.(err := None, failAfter := 0));
    assert CutOf(s.(err := None, failAfter := 0)) == CutOf(s);
    assert whole == Body(CutOf(s)) + [MessageDone(Some(s.usage))];
    assert s.failAfter < |Body(CutOf(s))| ==> whole[..s.failAfter] == Body(CutOf(s))[..s.failAfter];
    assert whole[..|whole| - 1] == Body(CutOf(s));
  }

  /** A script told to fail without an error, and one told to wait, say nothing. */
  lemma SilentScripts(s: Script)
    requires s.blockUntilCancel || (s.err.None? && s.failAfter > 0)
    ensures Due(s) == [] && (s.err.None? && s.failAfter > 0 ==> Verdict(s) == ScriptError)
  {
  }

  /** Each delta is half of the text that is left, the larger half first. */
  lemma DeltasHalve(text: string)
    requires text != ""
    ensures Halves(text) != []
    ensures var first := Halves(text)[0];
      && (|text| > 1 ==> |first| == |text| - |first| || |first| == |text| - |first| + 1)
      && first == text[..|first|] && Halves(text)[1..] == Halves(text[|first|..])
  {
    assert Halves(text)[1..] == Halves(text[|NextRuneFrag(text)|..]);
  }

  // ------------------------------------------------------ what is delivered

  /** A thinking block of a script as it is delivered. */
  predicate IsThought(b: Block, t: Thinking) {
    b == Reasoning(Thinking(t.text, t.signature, t.redacted, t.data, true))
  }

  predicate AreThoughts(blocks: seq<Block>, ts: seq<Thinking>) {
    |blocks| == |ts| && forall i :: 0 <= i < |ts| ==> IsThought(blocks[i], ts[i])
  }

  predicate AreCalls(blocks: seq<Block>, cs: seq<ToolCall>) {
    |blocks| == |cs| && forall i :: 0 <= i < |cs| ==> blocks[i] == Call(cs[i])
  }

  /** The content is the thinking blocks, then the text if there is any, then the calls. */
  predicate IsMessage(content: seq<Block>, s: Script) {
    var n := |s.thinking|;
    var m := if s.text == "" then n else n + 1;
    && m <= |content| && AreThoughts(content[..n], s.thinking) && AreCalls(content[m..], s.calls)
    && (s.text != "" ==> content[n] == Text(s.text))
  }

  lemma PartsAreMessage(s: Script, thoughts: seq<Block>, text: seq<Block>, calls: seq<Block>)
    requires AreThoughts(thoughts, s.thinking) && AreCalls(calls, s.calls)
    requires text == if s.text == "" then [] else [Text(s.text)]
    ensures IsMessage(thoughts + text + calls, s)
  {
    var content := thoughts + text + calls;
    assert content[..|thoughts|] == thoughts && content[|thoughts| + |text|..] == calls;
  }

  /** The message of a script that does not fail, block by block. */
  lemma ScriptIsAssembled(s: Script)
    requires !s.blockUntilCancel && s.err.None? && s.failAfter == 0
    requires s.thinking != [] || s.text != "" || s.calls != []
    ensures Outcome(Run(Due(s))).Ok? && IsMessage(Outcome(Run(Due(s))).value, s)
  {
    ScriptIsDelivered(s);
    ThinkingInOrder(s.thinking);
    CallsInOrder(s.calls);
    PartsAreMessage(s, ThinkingBlocks(CutAllThinking(s.thinking)), if s.text == "" then [] else [Text(s.text)],
                    CallBlocks(CutAllCalls(s.calls)));
  }

  lemma {:induction false} ThinkingInOrder(ts: seq<Thinking>)
    ensures AreThoughts(ThinkingBlocks(CutAllThinking(ts)), ts)
  {
    if ts != [] {
      var n := |ts| - 1;
      ThinkingInOrder(ts[..n]);
      var cut := CutAllThinking(ts[..n]);
      assert (cut + [CutThinking(ts[n], Halves(ts[n].text))])[..|cut|] == cut;
    }
  }

  lemma {:induction false} CallsInOrder(cs: seq<ToolCall>)
    ensures AreCalls(CallBlocks(CutAllCalls(cs)), cs)
  {
    if cs != [] {
      var n := |cs| - 1;
      CallsInOrder(cs[..n]);
      var cut := CutAllCalls(cs[..n]);
      assert (cut + [CutCall(cs[n], Halves(cs[n].input))])[..|cut|] == cut;
    }
  }
}
