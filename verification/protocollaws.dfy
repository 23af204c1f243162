/** What a caller of the App can rely on, in terms of the goroutines there are. */
module SessionLaws {
  import opened Prelude
  import opened SessionProtocol

  /** No turn and no compaction has anything left to do. */
  predicate Quiet(crew: Crew) {
    crew.live == {} && crew.leaving == {} && crew.running == {} && crew.closing == {}
  }

  /** Every goroutine there is has been told to stop. */
  ghost predicate AllCancelled(s: State) {
    forall t :: t in s.threads ==> s.threads[t].ctx in s.cancelled
  }

  lemma CancelsAll(s: State, cancelled: set<nat>)
    requires Inv(s) && cancelled == s.cancelled + Stopped(s)
    ensures AllCancelled(s.(cancelled := cancelled))
  {
    forall t | t in s.threads ensures s.threads[t].ctx in cancelled {
      assert Stoppable(s.threads[t].ctx, s.ctx, s.cancelled, s.nextID);
    }
  }

  /** CancelTurn, and NewSession before it waits, stop everything that was started. */
  lemma CancelReachesAll(steps: seq<Step>, step: Step)
    requires Run(steps + [step]).Some? && (step == CancelTurn || step == BySwap(SwapCancel))
    ensures AllCancelled(Run(steps + [step]).value)
  {
    RunSnoc(steps, step);
    RunKeeps(steps);
    CancelsAll(Run(steps).value, Run(steps + [step]).value.cancelled);
  }

  /** A new turn or compaction stops the one before it. */
  lemma StartingCancelsTheRest(steps: seq<Step>, step: Step)
    requires Run(steps + [step]).Some? && (step == BySubmit(SubmitBegin) || step == ByCompact(CompactBegin))
    ensures AllCancelled(Run(steps + [step]).value)
  {
    RunSnoc(steps, step);
    RunKeeps(steps);
    CancelsAll(Run(steps).value, Run(steps + [step]).value.cancelled);
  }

  /** Submit is let in exactly when no compaction is running. */
  lemma SubmitsExactlyWhenNoneCompacts(steps: seq<Step>)
    requires Run(steps + [BySubmit(SubmitCheck)]).Some?
    ensures Run(steps).Some?
    ensures var op := Run(steps + [BySubmit(SubmitCheck)]).value.op;
      && (op == SubmitChecked <==> Run(steps).value.crew.running == {})
      && (op == Free <==> Run(steps).value.crew.running != {})
  {
    RunSnoc(steps, BySubmit(SubmitCheck));
    RunKeeps(steps);
  }

  /** A manual compaction is let in exactly when no turn is live and no other compaction running. */
  lemma CompactsExactlyWhenAlone(steps: seq<Step>)
    requires Run(steps + [ByCompact(CompactClaim)]).Some?
    ensures Run(steps).Some?
    ensures var op, crew := Run(steps + [ByCompact(CompactClaim)]).value.op, Run(steps).value.crew;
      && (op == CompactClaimed <==> crew.live == {} && crew.running == {})
      && (op == Free <==> crew.live != {} || crew.running != {})
  {
    RunSnoc(steps, ByCompact(CompactClaim));
    RunKeeps(steps);
  }

  /** NewSession goes on from its wait exactly when nothing is left of the old session. */
  lemma WaitsExactlyUntilQuiet(steps: seq<Step>, store: nat)
    requires Run(steps).Some? && Run(steps).value.op == SwapCancelled(store)
    ensures Run(steps + [BySwap(SwapWait)]).Some? <==> Quiet(Run(steps).value.crew)
  {
    RunSnoc(steps, BySwap(SwapWait));
    RunKeeps(steps);
  }

  // ------------------------------------------------------ stores and conversations

  /** The store an operation has made and not yet installed. */
  function MadeStore(op: Op): Option<nat> {
    match op
    case SwapCreated(store) => Some(store)
    case SwapCancelled(store) => Some(store)
    case SwapWaited(store) => Some(store)
    case _ => None
  }

  /** A store that has been written to belongs to the conversation it was written for. */
  predicate Fits(a: Session, b: Session) {
    a.store.Some? && b.store.Some? ==> (a.conv == b.conv <==> a.store == b.store)
  }

  predicate Past(a: Session, now: Session, made: Option<nat>, nextID: nat) {
    && a.conv < nextID && Fits(a, now)
    && (a.store.Some? ==> a.store.value < nextID && a.store != made)
    && (a.store.Some? && a.conv == now.conv ==> now.store == a.store)
  }

  ghost predicate StoresApart(s: State) {
    && Past(s.session, s.session, MadeStore(s.op), s.nextID)
    && (MadeStore(s.op).Some? ==> MadeStore(s.op).value < s.nextID)
    && (forall i :: 0 <= i < |s.log| ==> Past(s.log[i].session, s.session, MadeStore(s.op), s.nextID))
    && (forall i, j :: 0 <= i < |s.log| && 0 <= j < |s.log| ==> Fits(s.log[i].session, s.log[j].session))
  }

  /** What a step can do to the session and to the store made for the next one. */
  lemma SessionMoves(s: State, step: Step)
    requires Next(s, step).Some?
    ensures var s' := Next(s, step).value;
      && s.nextID <= s'.nextID
      && match step
         case BySubmit(SubmitStore) =>
           s'.session == s.session || (s.session.store.None? && s'.session == s.session.(store := Some(s.nextID)))
         case BySwap(SwapInstall) => MadeStore(s.op).Some? && s'.session == Session(s.nextID, MadeStore(s.op))
         case _ => s'.session == s.session
  {
  }

  lemma MadeMoves(s: State, step: Step)
    requires Next(s, step).Some? && (MadeStore(s.op).Some? ==> MadeStore(s.op).value < s.nextID)
    ensures var s', made := Next(s, step).value, MadeStore(Next(s, step).value.op);
      && (made == MadeStore(s.op) || made == None || (step == BySwap(SwapCreate) && made == Some(s.nextID)))
      && (step == BySwap(SwapInstall) ==> made == None)
      && (made.Some? ==> made.value < s'.nextID)
      && (s'.session != s.session ==> s'.nextID == s.nextID + 1 && made == None)
  {
  }

  lemma {:induction false} RunsApart(steps: seq<Step>)
    requires Run(steps).Some?
    ensures StoresApart(Run(steps).value)
  {
    if steps != [] {
      var before, step := steps[..|steps| - 1], steps[|steps| - 1];
      RunsApart(before);
      RunKeeps(before);
      var s, s' := Run(before).value, Run(steps).value;
      WriteIsCurrent(s, step);
      SessionMoves(s, step);
      MadeMoves(s, step);
      StaysApart(s, step, s');
    }
  }

  lemma StaysApart(s: State, step: Step, s': State)
    requires StoresApart(s) && LogsCurrent(s, step, s') && s.nextID <= s'.nextID
    requires var made := MadeStore(s'.op);
      && (made == MadeStore(s.op) || made == None || made == Some(s.nextID))
      && (made.Some? ==> made.value < s'.nextID)
    requires
      || s'.session == s.session
      || (s'.nextID == s.nextID + 1 && MadeStore(s'.op) == None && !IsWrite(step)
          && ((s.session.store.None? && s'.session == s.session.(store := Some(s.nextID)))
              || (MadeStore(s.op).Some? && s'.session == Session(s.nextID, MadeStore(s.op)))))
    ensures StoresApart(s')
  {
    forall i | 0 <= i < |s'.log| ensures Past(s'.log[i].session, s'.session, MadeStore(s'.op), s'.nextID) {
      assert i < |s.log| ==> Past(s.log[i].session, s.session, MadeStore(s.op), s.nextID);
    }
    forall i, j | 0 <= i < |s'.log| && 0 <= j < |s'.log| ensures Fits(s'.log[i].session, s'.log[j].session) {
      assert i < |s.log| ==> Past(s.log[i].session, s.session, MadeStore(s.op), s.nextID);
      assert j < |s.log| ==> Past(s.log[j].session, s.session, MadeStore(s.op), s.nextID);
    }
  }

  /** In every interleaving one conversation is recorded in one store, and one store records one conversation. */
  lemma OneStorePerConversation(steps: seq<Step>, i: nat, j: nat)
    requires Run(steps).Some? && i < |Run(steps).value.log| && j < |Run(steps).value.log|
    ensures var a, b := Run(steps).value.log[i].session, Run(steps).value.log[j].session;
      a.store.Some? && b.store.Some? ==> (a.conv == b.conv <==> a.store == b.store)
  {
    RunsApart(steps);
    var s := Run(steps).value;
    assert Fits(s.log[i].session, s.log[j].session);
  }

  /** NewSession leaves a conversation nobody has written, in a store nobody has written to. */
  lemma SwapStartsAfresh(steps: seq<Step>)
    requires Run(steps + [BySwap(SwapInstall)]).Some?
    ensures var s := Run(steps + [BySwap(SwapInstall)]).value;
      && s.session.store.Some?
      && (forall i :: 0 <= i < |s.log| ==>
            s.log[i].session.conv != s.session.conv && s.log[i].session.store != s.session.store)
      && Quiet(s.crew)
  {
    var step := BySwap(SwapInstall);
    RunSnoc(steps, step);
    RunKeeps(steps);
    RunsApart(steps);
    QuietAtSwap(Run(steps).value);
    var s, s' := Run(steps).value, Run(steps + [step]).value;
    SessionMoves(s, step);
    forall i | 0 <= i < |s'.log|
      ensures s'.log[i].session.conv != s'.session.conv && s'.log[i].session.store != s'.session.store
    {
      assert Past(s.log[i].session, s.session, MadeStore(s.op), s.nextID);
    }
  }
}
