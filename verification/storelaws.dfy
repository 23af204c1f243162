/** What the session store takes in, and until when. */
module StoreLaws {
  import opened Prelude
  import opened SessionStore

  /** The queue never holds more than 256 batches. */
  lemma {:induction false} QueueIsBounded(steps: seq<Step>)
    requires Run(steps).Some?
    ensures |Run(steps).value.queue| <= 256
  {
    if steps != [] {
      var before := steps[..|steps| - 1];
      QueueIsBounded(before);
      QueueStep(Run(before).value, steps[|steps| - 1]);
    }
  }

  lemma QueueStep(s: State, step: Step)
    requires |s.queue| <= 256 && Next(s, step).Some?
    ensures |Next(s, step).value.queue| <= 256
  {
  }

  /** A Record that is under way waits exactly while the queue is full. */
  lemma RecordsExactlyWhenThereIsRoom(s: State, p: nat)
    requires p in s.sending
    ensures Next(s, RecordSend(p)).Some? <==> |s.queue| < 256
  {
  }

  /** File and synced part only grow; only a Record adds to what was accepted. */
  lemma StepGrows(s: State, step: Step)
    requires Inv(s) && Next(s, step).Some?
    ensures var s' := Next(s, step).value;
      s.file <= s'.file && s.disk <= s'.disk && (!step.RecordSend? ==> s'.accepted == s.accepted)
  {
    if Produce(s, step).None? {
      WorkGrows(s, step);
      WorkSendsNothing(s, step);
    }
  }

  lemma FlushGrows(s: State, outcome: Outcome)
    requires s.disk <= s.file
    ensures s.file <= Flushed(s, outcome).file && s.disk <= Flushed(s, outcome).disk
  {
  }

  lemma WorkGrows(s: State, step: Step)
    requires s.disk <= s.file && Work(s, step).Some?
    ensures var s' := Work(s, step).value;
      s.file <= s'.file && s.disk <= s'.disk
  {
    match step
    case Tick(outcome) => FlushGrows(s, outcome);
    case AnswerFlush(outcome) => FlushGrows(s, outcome);
    case CloseAnswer(_, outcome) => FlushGrows(s, outcome);
    case CloseEnd(outcome) => FlushGrows(s, outcome);
    case _ =>
  }

  // ----------------------------------------------------------- one Record

  ghost predicate HasNot(steps: seq<Step>, p: nat) {
    steps == []
    || (HasNot(steps[..|steps| - 1], p)
        && steps[|steps| - 1] != RecordSend(p) && steps[|steps| - 1] != RecordRefused(p))
  }

  lemma RunMore(steps: seq<Step>, more: seq<Step>)
    requires more != []
    ensures Run(steps + more)
         == match Run(steps + more[..|more| - 1]) case None => None case Some(s) => Next(s, more[|more| - 1])
  {
    var n := |more| - 1;
    assert steps + more == steps + more[..n] + [more[n]];
    RunSnoc(steps + more[..n], more[n]);
  }

  lemma {:induction false} StaysSending(steps: seq<Step>, between: seq<Step>, p: nat, batch: string)
    requires Run(steps + between).Some? && HasNot(between, p)
    requires Run(steps).Some? ==> p in Run(steps).value.sending && Run(steps).value.sending[p] == batch
    ensures var s := Run(steps + between).value;
      p in s.sending && s.sending[p] == batch
  {
    if between == [] {
      assert steps + between == steps;
    } else {
      RunMore(steps, between);
      StaysSending(steps, between[..|between| - 1], p, batch);
      SendingStep(Run(steps + between[..|between| - 1]).value, between[|between| - 1], p);
    }
  }

  lemma SendingStep(s: State, step: Step, p: nat)
    requires p in s.sending && Next(s, step).Some? && step != RecordSend(p) && step != RecordRefused(p)
    ensures p in Next(s, step).value.sending && Next(s, step).value.sending[p] == s.sending[p]
  {
  }

  /** What a Record was given before Close is what it adds to the queue, and to what was accepted, whatever
      the others do in between. */
  lemma RecordIsAccepted(steps: seq<Step>, p: nat, batch: string, between: seq<Step>)
    requires HasNot(between, p) && Run(steps + [RecordCheck(p, batch)]).Some?
    requires Run(steps).Some? ==> Run(steps).value.closedAt.None?
    requires Run(steps + [RecordCheck(p, batch)] + between + [RecordSend(p)]).Some?
    ensures Run(steps + [RecordCheck(p, batch)] + between).Some?
    ensures var s := Run(steps + [RecordCheck(p, batch)] + between).value;
      var s' := Run(steps + [RecordCheck(p, batch)] + between + [RecordSend(p)]).value;
      s'.accepted == s.accepted + [batch] && s'.queue == s.queue + [batch] && p !in s'.sending
  {
    var checked := steps + [RecordCheck(p, batch)];
    RunSnoc(steps, RecordCheck(p, batch));
    RunSnoc(checked + between, RecordSend(p));
    StaysSending(checked, between, p, batch);
  }

  // -------------------------------------------------------------- the close

  /** Flush and Close count the batches accepted when they are called. */
  lemma CallsCount(steps: seq<Step>, f: nat)
    requires Run(steps).Some? && Run(steps).value.closedAt.None?
    ensures Run(steps + [CloseCall]).Some?
    ensures Run(steps + [CloseCall]).value.closedAt == Some(|Run(steps).value.accepted|)
    ensures f !in Run(steps).value.asked ==>
              && Run(steps + [FlushCall(f)]).Some?
              && Run(steps + [FlushCall(f)]).value.asked == Run(steps).value.asked[f := |Run(steps).value.accepted|]
  {
    RunSnoc(steps, CloseCall);
    RunSnoc(steps, FlushCall(f));
  }

  /** The calls that were let in before the close. */
  ghost predicate Shut(s: State, s': State) {
    && s'.closedAt == s.closedAt && s'.asked == s.asked && s'.sending.Keys <= s.sending.Keys
    && |s'.accepted| + |s'.sending| <= |s.accepted| + |s.sending|
  }

  lemma RecordShuts(s: State, step: Step)
    requires s.closedAt.Some? && Produce(s, step).Some? && (step.RecordSend? || step.RecordRefused?)
    ensures Shut(s, Produce(s, step).value)
  {
    FewerKeys(s.sending, step.p);
  }

  lemma CallShuts(s: State, step: Step)
    requires s.closedAt.Some? && Produce(s, step).Some? && !step.RecordSend? && !step.RecordRefused?
    ensures Produce(s, step).value.(gone := s.gone) == s
  {
  }

  lemma WorkShuts(s: State, step: Step)
    requires Work(s, step).Some?
    ensures Work(s, step).value.closedAt == s.closedAt && Work(s, step).value.asked == s.asked
  {
  }

  lemma ShutStep(s: State, step: Step)
    requires s.closedAt.Some? && Next(s, step).Some?
    ensures Shut(s, Next(s, step).value)
  {
    if Produce(s, step).None? {
      WorkShuts(s, step);
      WorkSendsNothing(s, step);
    } else if step.RecordSend? || step.RecordRefused? {
      RecordShuts(s, step);
    } else {
      CallShuts(s, step);
    }
  }

  lemma FewerKeys(m: map<nat, string>, p: nat)
    requires p in m
    ensures |m - {p}| == |m| - 1
  {
    assert (m - {p}).Keys == m.Keys - {p} && |m.Keys| == |m| && |(m - {p}).Keys| == |m - {p}|;
  }

  /** After Close no Record and no Flush is let in: at most the Records under way are still accepted. */
  lemma {:induction false} NothingNewAfterClose(steps: seq<Step>, more: seq<Step>)
    requires Run(steps).Some? && Run(steps).value.closedAt.Some? && Run(steps + more).Some?
    ensures Shut(Run(steps).value, Run(steps + more).value)
  {
    if more == [] {
      assert steps + more == steps;
    } else {
      RunMore(steps, more);
      NothingNewAfterClose(steps, more[..|more| - 1]);
      ShutStep(Run(steps + more[..|more| - 1]).value, more[|more| - 1]);
    }
  }
}
