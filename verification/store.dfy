/** The session store: one writer behind a queue, with flush and close, as atomic steps. */
module SessionStore {
  import opened Prelude

  const CAPACITY := 256

  /** Where the writer goroutine is. */
  datatype Writer = Looping | FlushDraining(f: nat) | FlushReady(f: nat) | Closing | Ended

  /** What a flush came to: written and synced, or a failure. */
  datatype Outcome = Synced | SyncFailed | WriteFailed(n: nat)

  /** `late`: answered after the writer saw the store closed. */
  datatype Answer = Answer(ok: bool, late: bool)

  /** A batch is the text of its lines.  `disk` is what the last successful sync found in the file.
      `accepted` is every batch the queue has taken in, and `asked` how many of them there were
      when each Flush was called. */
  datatype State = State(
    queue: seq<string>, buffered: string, file: string, disk: string, broken: bool,
    writer: Writer, closedAt: Option<nat>,
    sending: map<nat, string>, accepted: seq<string>,
    asked: map<nat, nat>, gone: set<nat>, answered: map<nat, Answer>)

  const INIT := State([], "", "", "", false, Looping, None, map[], [], map[], {}, map[])

  datatype Step =
    | RecordCheck(p: nat, batch: string) | RecordSend(p: nat) | RecordRefused(p: nat)
    | FlushCall(f: nat) | FlushGiveUp(f: nat)
    | CloseCall
    | TakeBatch | TakeFlush(f: nat) | Tick(outcome: Outcome)
    | FlushDrained | AnswerFlush(outcome: Outcome)
    | SeeClosed | CloseAnswer(f: nat, outcome: Outcome) | CloseEnd(outcome: Outcome)
    | Spill(n: nat) | Break(n: nat)

  function Least(n: nat, m: nat): nat { if n < m then n else m }

  /** The buffered writer keeps its first error: after it nothing more is written. */
  function Broken(s: State, n: nat): State {
    if s.broken then s
    else s.(file := s.file + s.buffered[..Least(n, |s.buffered|)], buffered := "", broken := true)
  }

  /** flush */
  function Flushed(s: State, outcome: Outcome): State {
    if s.broken then s
    else
      match outcome
      case WriteFailed(n) => Broken(s, n)
      case SyncFailed => s.(file := s.file + s.buffered, buffered := "")
      case Synced => s.(file := s.file + s.buffered, disk := s.file + s.buffered, buffered := "")
  }

  predicate FlushOk(s: State, outcome: Outcome) {
    !s.broken && outcome.Synced?
  }

  function Produce(s: State, step: Step): Option<State> {
    match step
    case RecordCheck(p, batch) =>
      if p in s.sending || batch == "" then None
      else if s.closedAt.Some? then Some(s) else Some(s.(sending := s.sending[p := batch]))
    case RecordSend(p) =>
      if p in s.sending && |s.queue| < CAPACITY
      then Some(s.(sending := s.sending - {p}, queue := s.queue + [s.sending[p]],
                   accepted := s.accepted + [s.sending[p]]))
      else None
    case RecordRefused(p) =>
      if p in s.sending && s.closedAt.Some? then Some(s.(sending := s.sending - {p})) else None
    case FlushCall(f) =>
      if f in s.asked then None
      else if s.closedAt.Some? then Some(s) else Some(s.(asked := s.asked[f := |s.accepted|]))
    case FlushGiveUp(f) => if f in s.asked && s.closedAt.Some? then Some(s.(gone := s.gone + {f})) else None
    case CloseCall => if s.closedAt.None? then Some(s.(closedAt := Some(|s.accepted|))) else Some(s)
    case _ => None
  }

  predicate Waiting(s: State, f: nat) {
    f in s.asked && f !in s.gone && f !in s.answered
  }

  function Work(s: State, step: Step): Option<State> {
    match (step, s.writer)
    case (TakeBatch, _) =>
      if s.queue == [] || s.writer.Ended? || s.writer.FlushReady? then None
      else Some(s.(queue := s.queue[1..], buffered := if s.broken then s.buffered else s.buffered + s.queue[0]))
    case (TakeFlush(f), Looping) => if Waiting(s, f) then Some(s.(writer := FlushDraining(f))) else None
    case (Tick(outcome), Looping) => Some(Flushed(s, outcome))
    case (FlushDrained, FlushDraining(f)) => if s.queue == [] then Some(s.(writer := FlushReady(f))) else None
    case (AnswerFlush(outcome), FlushReady(f)) =>
      Some(Flushed(s, outcome).(writer := Looping, answered := s.answered[f := Answer(FlushOk(s, outcome), false)]))
    case (SeeClosed, Looping) => if s.closedAt.Some? then Some(s.(writer := Closing)) else None
    case (CloseAnswer(f, outcome), Closing) =>
      if Waiting(s, f)
      then Some(Flushed(s, outcome).(answered := s.answered[f := Answer(FlushOk(s, outcome), true)])) else None
    case (CloseEnd(outcome), Closing) => if s.queue == [] then Some(Flushed(s, outcome).(writer := Ended)) else None
    case (Spill(n), _) =>
      if s.writer.Ended? || n > |s.buffered| then None
      else Some(s.(file := s.file + s.buffered[..n], buffered := s.buffered[n..]))
    case (Break(n), _) => if s.writer.Ended? then None else Some(Broken(s, n))
    case _ => None
  }

  /** None: the step cannot be taken now. */
  function Next(s: State, step: Step): Option<State> {
    if Produce(s, step).Some? then Produce(s, step) else Work(s, step)
  }

  function Run(steps: seq<Step>): Option<State> {
    if steps == [] then Some(INIT)
    else
      match Run(steps[..|steps| - 1])
      case None => None
      case Some(s) => Next(s, steps[|steps| - 1])
  }

  // ------------------------------------------------------------ texts

  /** The batches one after another. */
  function Text(batches: seq<string>): string {
    if batches == [] then "" else Text(batches[..|batches| - 1]) + batches[|batches| - 1]
  }

  lemma TextSnoc(batches: seq<string>, batch: string)
    ensures Text(batches + [batch]) == Text(batches) + batch
  {
    assert (batches + [batch])[..|batches|] == batches;
  }

  lemma {:induction false} TextPrefix(batches: seq<string>, n: nat)
    requires n <= |batches|
    ensures Text(batches[..n]) <= Text(batches)
  {
    if n == |batches| {
      assert batches[..n] == batches;
    } else {
      assert batches[..|batches| - 1][..n] == batches[..n];
      TextPrefix(batches[..|batches| - 1], n);
    }
  }

  // --------------------------------------------------------- the invariant

  /** How many of the accepted batches have left the queue. */
  function Taken(s: State): int { |s.accepted| - |s.queue| }

  function First(s: State, n: nat): string { Text(s.accepted[..Least(n, |s.accepted|)]) }

  predicate Queued(s: State) {
    |s.queue| <= |s.accepted| && s.queue == s.accepted[|s.accepted| - |s.queue|..]
  }

  /** The file and the buffer hold the batches taken, in order, until a write fails. */
  predicate Ordered(s: State) {
    Queued(s) && s.disk <= s.file
    && (if s.broken then s.buffered == "" && s.file <= First(s, Taken(s))
        else s.file + s.buffered == First(s, Taken(s)))
  }

  /** A Flush that was answered nil before the store closed found its batches on disk. */
  predicate Kept(s: State, f: nat) {
    f in s.asked && s.asked[f] <= |s.accepted|
    && (f in s.answered && s.answered[f].ok && !s.answered[f].late ==> First(s, s.asked[f]) <= s.disk)
  }

  ghost predicate Flushes(s: State) {
    && (forall f :: f in s.asked ==> Kept(s, f))
    && (forall f :: f in s.answered ==> f in s.asked)
    && (s.writer.FlushDraining? || s.writer.FlushReady? ==> s.writer.f in s.asked)
    && (s.writer.FlushReady? ==> s.asked[s.writer.f] <= Taken(s))
  }

  predicate Closed(s: State) {
    && (s.writer.Closing? || s.writer.Ended? ==> s.closedAt.Some?)
    && (s.closedAt.Some? ==> s.closedAt.value <= |s.accepted|)
    && (s.writer.Ended? ==> s.closedAt.value <= Taken(s) && s.buffered == "")
  }

  ghost predicate Inv(s: State) {
    Ordered(s) && Flushes(s) && Closed(s)
  }

  // ----------------------------------------------------- every step keeps it

  /** Steps that leave the batches taken and the file as they are. */
  lemma Unmoved(s: State, s': State)
    requires Inv(s) && s'.queue == s.queue && s'.accepted == s.accepted && s'.file == s.file
    requires s'.buffered == s.buffered && s'.disk == s.disk
    requires s'.broken == s.broken && s'.asked == s.asked && s'.answered == s.answered
    requires (s'.writer.FlushDraining? || s'.writer.FlushReady? ==> s'.writer.f in s.asked)
    requires (s'.writer.FlushReady? ==> s.asked[s'.writer.f] <= Taken(s)) && Closed(s')
    ensures Inv(s')
  {
    forall f | f in s'.asked ensures Kept(s', f) {
      assert Kept(s, f);
    }
  }

  /** The file grows by the next part of what was buffered. */
  lemma FileGrows(s: State, s': State, n: nat, writer: Writer)
    requires Inv(s) && !s.broken && n <= |s.buffered|
    requires s' == s.(file := s.file + s.buffered[..n], disk := s'.disk, buffered := s'.buffered, broken := s'.broken,
                      writer := writer)
    requires s'.disk == s.disk || s'.disk == s'.file
    requires if s'.broken then s'.buffered == "" else s'.buffered == s.buffered[n..]
    requires writer == s.writer || writer.Looping?
          || (writer.Ended? && s.writer.Closing? && s.queue == [] && s'.buffered == "")
    ensures Inv(s')
  {
    assert s.buffered[..n] + s.buffered[n..] == s.buffered;
    assert s.file + s.buffered[..n] + s.buffered[n..] == s.file + s.buffered;
    forall f | f in s'.asked ensures Kept(s', f) {
      assert Kept(s, f);
    }
  }

  lemma FlushKeeps(s: State, outcome: Outcome)
    requires Inv(s)
    ensures Inv(Flushed(s, outcome)) && s.file <= Flushed(s, outcome).file && s.disk <= Flushed(s, outcome).disk
  {
    if !s.broken {
      var n := if outcome.WriteFailed? then Least(outcome.n, |s.buffered|) else |s.buffered|;
      assert s.buffered[..|s.buffered|] == s.buffered;
      FileGrows(s, Flushed(s, outcome), n, s.writer);
    }
  }

  lemma SendKeeps(s: State, p: nat)
    requires Inv(s) && Produce(s, RecordSend(p)).Some?
    ensures Inv(Produce(s, RecordSend(p)).value)
  {
    var s' := Produce(s, RecordSend(p)).value;
    assert forall n: nat :: n <= |s.accepted| ==> s'.accepted[..n] == s.accepted[..n];
    assert Taken(s') == Taken(s);
    forall f | f in s'.asked ensures Kept(s', f) {
      assert Kept(s, f);
    }
  }

  lemma FlushCallKeeps(s: State, f: nat)
    requires Inv(s) && Produce(s, FlushCall(f)).Some?
    ensures Inv(Produce(s, FlushCall(f)).value)
  {
    var s' := Produce(s, FlushCall(f)).value;
    forall g | g in s'.asked ensures Kept(s', g) {
      assert g in s.asked ==> Kept(s, g);
    }
  }

  lemma ProduceKeeps(s: State, step: Step)
    requires Inv(s) && Produce(s, step).Some?
    ensures Inv(Produce(s, step).value)
  {
    if step.RecordSend? {
      SendKeeps(s, step.p);
    } else if step.FlushCall? {
      FlushCallKeeps(s, step.f);
    } else {
      Unmoved(s, Produce(s, step).value);
    }
  }

  lemma TakeKeepsOrder(s: State)
    requires Ordered(s) && s.queue != []
    ensures Ordered(s.(queue := s.queue[1..], buffered := if s.broken then s.buffered else s.buffered + s.queue[0]))
  {
    var n := Taken(s);
    assert s.queue[0] == s.accepted[n] && s.accepted[..n + 1] == s.accepted[..n] + [s.accepted[n]];
    TextSnoc(s.accepted[..n], s.accepted[n]);
    assert s.file + (s.buffered + s.queue[0]) == s.file + s.buffered + s.queue[0];
  }

  lemma TakeKeeps(s: State)
    requires Inv(s) && Work(s, TakeBatch).Some?
    ensures Inv(Work(s, TakeBatch).value)
  {
    var s' := Work(s, TakeBatch).value;
    TakeKeepsOrder(s);
    forall f | f in s'.asked ensures Kept(s', f) {
      assert Kept(s, f);
    }
  }

  /** A flush that works leaves every batch taken in the file. */
  lemma FlushWritesTaken(s: State, n: nat)
    requires Inv(s) && !s.broken && n <= Taken(s)
    ensures First(s, n) <= s.file + s.buffered
  {
    assert s.accepted[..Taken(s)][..n] == s.accepted[..n];
    TextPrefix(s.accepted[..Taken(s)], n);
  }

  lemma AnswerKeeps(s: State, f: nat, outcome: Outcome)
    requires Inv(s) && s.writer == FlushReady(f)
    ensures Inv(Work(s, AnswerFlush(outcome)).value)
  {
    var mid := Flushed(s, outcome);
    FlushKeeps(s, outcome);
    if FlushOk(s, outcome) {
      FlushWritesTaken(s, s.asked[f]);
    }
    Answered(mid, f, Answer(FlushOk(s, outcome), false), Looping);
  }

  lemma Answered(mid: State, f: nat, a: Answer, writer: Writer)
    requires Inv(mid) && f in mid.asked && (a.ok && !a.late ==> First(mid, mid.asked[f]) <= mid.disk)
    requires writer.Looping? || writer == mid.writer
    ensures Inv(mid.(writer := writer, answered := mid.answered[f := a]))
  {
    var s' := mid.(writer := writer, answered := mid.answered[f := a]);
    forall g | g in s'.asked ensures Kept(s', g) {
      assert Kept(mid, g);
    }
  }

  lemma LateAnswerKeeps(s: State, f: nat, outcome: Outcome)
    requires Inv(s) && s.writer.Closing? && Waiting(s, f)
    ensures Inv(Work(s, CloseAnswer(f, outcome)).value)
  {
    FlushKeeps(s, outcome);
    Answered(Flushed(s, outcome), f, Answer(FlushOk(s, outcome), true), Closing);
  }

  lemma EndKeeps(s: State, outcome: Outcome)
    requires Inv(s) && s.writer.Closing? && s.queue == []
    ensures Inv(Work(s, CloseEnd(outcome)).value)
  {
    var mid := Flushed(s, outcome);
    var s' := Work(s, CloseEnd(outcome)).value;
    FlushKeeps(s, outcome);
    forall g | g in s'.asked ensures Kept(s', g) {
      assert Kept(mid, g);
    }
  }

  lemma SpillKeeps(s: State, n: nat)
    requires Inv(s) && !s.writer.Ended? && n <= |s.buffered|
    ensures Inv(Work(s, Spill(n)).value)
  {
    if s.broken {
      Unmoved(s, Work(s, Spill(n)).value);
    } else {
      FileGrows(s, Work(s, Spill(n)).value, n, s.writer);
    }
  }

  lemma BreakKeeps(s: State, n: nat)
    requires Inv(s) && !s.writer.Ended?
    ensures Inv(Broken(s, n))
  {
    if !s.broken {
      FileGrows(s, Broken(s, n), Least(n, |s.buffered|), s.writer);
    }
  }

  lemma WorkKeeps(s: State, step: Step)
    requires Inv(s) && Work(s, step).Some?
    ensures Inv(Work(s, step).value)
  {
    if step.TakeBatch? {
      TakeKeeps(s);
    } else if step.Tick? {
      FlushKeeps(s, step.outcome);
    } else if step.AnswerFlush? {
      AnswerKeeps(s, s.writer.f, step.outcome);
    } else if step.CloseAnswer? {
      LateAnswerKeeps(s, step.f, step.outcome);
    } else if step.CloseEnd? {
      EndKeeps(s, step.outcome);
    } else if step.Spill? {
      SpillKeeps(s, step.n);
    } else if step.Break? {
      BreakKeeps(s, step.n);
    } else {
      assert step.FlushDrained? ==> Kept(s, s.writer.f);
      Unmoved(s, Work(s, step).value);
    }
  }

  lemma {:induction false} RunKeeps(steps: seq<Step>)
    requires Run(steps).Some?
    ensures Inv(Run(steps).value)
  {
    if steps == [] {
    } else {
      var s, step := Run(steps[..|steps| - 1]).value, steps[|steps| - 1];
      RunKeeps(steps[..|steps| - 1]);
      if Produce(s, step).Some? {
        ProduceKeeps(s, step);
      } else {
        WorkKeeps(s, step);
      }
    }
  }

  // ------------------------------------------------------------ the promises

  /** In every interleaving the file is the accepted batches, whole and in queue order, as far
      as it goes. */
  lemma FileInOrder(steps: seq<Step>)
    requires Run(steps).Some?
    ensures var s := Run(steps).value;
      |s.queue| <= |s.accepted| && s.file <= Text(s.accepted)
      && (!s.broken ==> s.file + s.buffered == Text(s.accepted[..|s.accepted| - |s.queue|]))
  {
    RunKeeps(steps);
    var s := Run(steps).value;
    TextPrefix(s.accepted, Taken(s));
    assert s.file <= s.file + s.buffered;
  }

  /** When Flush returns nil and the writer had not seen the store closed, every batch accepted
      before that Flush was called is in the file, and synced. */
  lemma FlushIsDurable(steps: seq<Step>, f: nat)
    requires Run(steps).Some?
    requires var s := Run(steps).value;
      f in s.answered && s.answered[f].ok && !s.answered[f].late
    ensures var s := Run(steps).value;
      f in s.asked && s.asked[f] <= |s.accepted| && Text(s.accepted[..s.asked[f]]) <= s.disk <= s.file
  {
    RunKeeps(steps);
    assert Kept(Run(steps).value, f);
  }

  /** Only an answer given while the store closes is late. */
  ghost predicate LateOnlyWhenClosed(s: State) {
    forall f :: f in s.answered && s.answered[f].late ==> s.closedAt.Some?
  }

  lemma {:induction false} NoneLateBeforeClose(steps: seq<Step>)
    requires Run(steps).Some?
    ensures LateOnlyWhenClosed(Run(steps).value)
  {
    if steps != [] {
      var before := steps[..|steps| - 1];
      NoneLateBeforeClose(before);
      RunKeeps(before);
      StepIsNotLate(Run(before).value, steps[|steps| - 1]);
    }
  }

  lemma StepIsNotLate(s: State, step: Step)
    requires Inv(s) && LateOnlyWhenClosed(s) && Next(s, step).Some?
    ensures LateOnlyWhenClosed(Next(s, step).value)
  {
  }

  /** When Flush returned nil and nobody has called Close, every batch accepted before that Flush
      was called is in the file, and synced. */
  lemma FlushBeforeCloseIsDurable(steps: seq<Step>, f: nat)
    requires Run(steps).Some?
    requires var s := Run(steps).value;
      s.closedAt.None? && f in s.answered && s.answered[f].ok
    ensures var s := Run(steps).value;
      f in s.asked && s.asked[f] <= |s.accepted| && Text(s.accepted[..s.asked[f]]) <= s.disk <= s.file
  {
    NoneLateBeforeClose(steps);
    FlushIsDurable(steps, f);
  }

  /** When the last flush of Close works, what it leaves in the file is synced. */
  lemma CloseSyncs(steps: seq<Step>)
    requires Run(steps + [CloseEnd(Synced)]).Some? && !Run(steps + [CloseEnd(Synced)]).value.broken
    ensures var s := Run(steps + [CloseEnd(Synced)]).value;
      && s.disk == s.file == Text(s.accepted) && s.queue == [] && s.buffered == "" && s.writer.Ended?
  {
    RunSnoc(steps, CloseEnd(Synced));
    RunKeeps(steps);
    var s := Run(steps).value;
    assert s.accepted[..|s.accepted|] == s.accepted;
  }

  /** After Close every batch accepted before it is in the file, given no write error, and all
      that was ever accepted is in the file exactly when the queue was left empty. */
  lemma CloseIsDurable(steps: seq<Step>)
    requires Run(steps).Some? && Run(steps).value.writer.Ended? && !Run(steps).value.broken
    ensures var s := Run(steps).value;
      && s.closedAt.Some? && s.closedAt.value <= |s.accepted| && Text(s.accepted[..s.closedAt.value]) <= s.file
      && (s.file == Text(s.accepted) <==> s.queue == [])
  {
    RunKeeps(steps);
    var s := Run(steps).value;
    var n := Taken(s);
    assert s.file == Text(s.accepted[..n]) by {
      assert s.file + "" == s.file;
    }
    assert s.accepted[..n][..s.closedAt.value] == s.accepted[..s.closedAt.value];
    TextPrefix(s.accepted[..n], s.closedAt.value);
    if s.queue == [] {
      assert s.accepted[..n] == s.accepted;
    } else {
      BatchesHaveText(steps);
      TextGrows(s.accepted, n);
    }
  }

  predicate NoneEmpty(batches: seq<string>) {
    batches == [] || (NoneEmpty(batches[..|batches| - 1]) && batches[|batches| - 1] != "")
  }

  ghost predicate HaveText(s: State) {
    NoneEmpty(s.accepted) && forall p :: p in s.sending ==> s.sending[p] != ""
  }

  lemma {:induction false} BatchesHaveText(steps: seq<Step>)
    requires Run(steps).Some?
    ensures HaveText(Run(steps).value)
  {
    if steps != [] {
      var s, step := Run(steps[..|steps| - 1]).value, steps[|steps| - 1];
      BatchesHaveText(steps[..|steps| - 1]);
      if Produce(s, step).Some? {
        ProduceHasText(s, step);
      } else {
        WorkSendsNothing(s, step);
      }
    }
  }

  lemma ProduceHasText(s: State, step: Step)
    requires HaveText(s) && Produce(s, step).Some?
    ensures HaveText(Produce(s, step).value)
  {
    if step.RecordSend? {
      assert (s.accepted + [s.sending[step.p]])[..|s.accepted|] == s.accepted;
    }
  }

  lemma WorkSendsNothing(s: State, step: Step)
    requires Work(s, step).Some?
    ensures Work(s, step).value.accepted == s.accepted && Work(s, step).value.sending == s.sending
  {
  }

  lemma {:induction false} TextGrows(batches: seq<string>, n: nat)
    requires n < |batches| && NoneEmpty(batches)
    ensures |Text(batches[..n])| < |Text(batches)|
  {
    assert batches[|batches| - 1] != "";
    if n < |batches| - 1 {
      assert batches[..|batches| - 1][..n] == batches[..n];
      TextGrows(batches[..|batches| - 1], n);
    }
  }

  lemma RunSnoc(steps: seq<Step>, step: Step)
    ensures Run(steps + [step]) == match Run(steps) case None => None case Some(s) => Next(s, step)
  {
    assert (steps + [step])[..|steps|] == steps;
  }

  lemma RunOn(steps: seq<Step>, s: State, step: Step, s': State)
    requires Run(steps) == Some(s) && Next(s, step) == Some(s')
    ensures Run(steps + [step]) == Some(s')
  {
    RunSnoc(steps, step);
  }

  /** A Record that passed its first check before Close can still be accepted after the writer
      has gone: its batch stays in the queue for ever. */
  lemma LateBatchIsLost()
    ensures var steps := [RecordCheck(0, "x"), CloseCall, SeeClosed, CloseEnd(Synced), RecordSend(0)];
      && Run(steps).Some?
      && Run(steps).value.accepted == ["x"] && Run(steps).value.writer.Ended? && Run(steps).value.file == ""
  {
    var s := INIT.(sending := map[0 := "x"], closedAt := Some(0), writer := Ended);
    var steps := [RecordCheck(0, "x"), CloseCall, SeeClosed, CloseEnd(Synced)];
    EndsFirst();
    assert s.sending - {0} == map[] && s.queue + ["x"] == ["x"] && s.accepted + ["x"] == ["x"];
    RunOn(steps, s, RecordSend(0), s.(sending := map[], queue := ["x"], accepted := ["x"]));
    assert steps + [RecordSend(0)] == [RecordCheck(0, "x"), CloseCall, SeeClosed, CloseEnd(Synced), RecordSend(0)];
  }

  lemma ClosesFirst(s: State)
    requires s == INIT.(sending := map[0 := "x"], closedAt := Some(0))
    ensures Run([RecordCheck(0, "x"), CloseCall]) == Some(s)
  {
    var s1 := INIT.(sending := map[0 := "x"]);
    RunOn([], INIT, RecordCheck(0, "x"), s1);
    assert [] + [RecordCheck(0, "x")] == [RecordCheck(0, "x")];
    RunOn([RecordCheck(0, "x")], s1, CloseCall, s);
    assert [RecordCheck(0, "x")] + [CloseCall] == [RecordCheck(0, "x"), CloseCall];
  }

  lemma EndsNext(steps: seq<Step>, s: State)
    requires Run(steps) == Some(s) && s.writer.Looping? && s.closedAt.Some? && s.queue == [] && !s.broken
    requires s.disk == s.file && s.buffered == ""
    ensures Run(steps + [SeeClosed, CloseEnd(Synced)]) == Some(s.(writer := Ended))
  {
    RunOn(steps, s, SeeClosed, s.(writer := Closing));
    assert s.file + s.buffered == s.file;
    RunOn(steps + [SeeClosed], s.(writer := Closing), CloseEnd(Synced), s.(writer := Ended));
    assert steps + [SeeClosed] + [CloseEnd(Synced)] == steps + [SeeClosed, CloseEnd(Synced)];
  }

  lemma EndsFirst()
    ensures Run([RecordCheck(0, "x"), CloseCall, SeeClosed, CloseEnd(Synced)])
         == Some(INIT.(sending := map[0 := "x"], closedAt := Some(0), writer := Ended))
  {
    var s := INIT.(sending := map[0 := "x"], closedAt := Some(0));
    var steps := [RecordCheck(0, "x"), CloseCall];
    ClosesFirst(s);
    EndsNext(steps, s);
    assert steps + [SeeClosed, CloseEnd(Synced)] == [RecordCheck(0, "x"), CloseCall, SeeClosed, CloseEnd(Synced)];
  }

  /** A Flush that races Close can return nil before its batch is in the file: the writer's last
      loop answers it without emptying the queue first. */
  lemma LateFlushIsEarly()
    ensures var steps :=
              [RecordCheck(0, "x"), RecordSend(0), FlushCall(0), CloseCall, SeeClosed, CloseAnswer(0, Synced)];
      && Run(steps).Some?
      && Run(steps).value.answered == map[0 := Answer(true, true)]
      && Run(steps).value.asked == map[0 := 1] && Run(steps).value.accepted == ["x"] && Run(steps).value.file == ""
  {
    var s := INIT.(queue := ["x"], accepted := ["x"], asked := map[0 := 1], closedAt := Some(1), writer := Closing);
    var steps := [RecordCheck(0, "x"), RecordSend(0), FlushCall(0), CloseCall, SeeClosed];
    FlushWaits();
    assert s.file + s.buffered == "";
    RunOn(steps, s, CloseAnswer(0, Synced), s.(answered := map[0 := Answer(true, true)]));
    assert steps + [CloseAnswer(0, Synced)]
        == [RecordCheck(0, "x"), RecordSend(0), FlushCall(0), CloseCall, SeeClosed, CloseAnswer(0, Synced)];
  }

  lemma FlushWaits()
    ensures Run([RecordCheck(0, "x"), RecordSend(0), FlushCall(0), CloseCall, SeeClosed])
         == Some(INIT.(queue := ["x"], accepted := ["x"], asked := map[0 := 1], closedAt := Some(1), writer := Closing))
  {
    var s1 := INIT.(sending := map[0 := "x"]);
    var s2 := INIT.(queue := ["x"], accepted := ["x"]);
    var s3 := s2.(asked := map[0 := 1]);
    var s4 := s3.(closedAt := Some(1));
    assert s1.sending - {0} == map[] && s1.queue + ["x"] == ["x"] && s1.accepted + ["x"] == ["x"];
    RunOn([], INIT, RecordCheck(0, "x"), s1);
    assert [] + [RecordCheck(0, "x")] == [RecordCheck(0, "x")];
    RunOn([RecordCheck(0, "x")], s1, RecordSend(0), s2);
    assert [RecordCheck(0, "x")] + [RecordSend(0)] == [RecordCheck(0, "x"), RecordSend(0)];
    RunOn([RecordCheck(0, "x"), RecordSend(0)], s2, FlushCall(0), s3);
    var steps := [RecordCheck(0, "x"), RecordSend(0), FlushCall(0)];
    assert [RecordCheck(0, "x"), RecordSend(0)] + [FlushCall(0)] == steps;
    RunOn(steps, s3, CloseCall, s4);
    RunOn(steps + [CloseCall], s4, SeeClosed, s4.(writer := Closing));
    assert steps + [CloseCall] + [SeeClosed]
        == [RecordCheck(0, "x"), RecordSend(0), FlushCall(0), CloseCall, SeeClosed];
  }
}
