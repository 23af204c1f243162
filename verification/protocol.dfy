/** Turns, manual compactions and session swaps as interleaved atomic steps. */
module SessionProtocol {
  import opened Prelude

  /** Who holds opMu, and how far that operation has come. */
  datatype Op =
    | Free
    | SubmitLocked | SubmitChecked | SubmitStored(store: nat) | SubmitRead(store: nat, conv: nat)
    | SubmitBegun(store: nat, conv: nat, ctx: nat) | SubmitCounted(store: nat, conv: nat, ctx: nat)
    | SubmitAdded(store: nat, conv: nat, ctx: nat)
    | CompactLocked | CompactClaimed | CompactBegun(ctx: nat) | CompactAdded(ctx: nat)
    | SwapLocked | SwapCreated(store: nat) | SwapCancelled(store: nat) | SwapWaited(store: nat) | SwapInstalled

  /** The conversation the App points to, and its store. */
  datatype Session = Session(conv: nat, store: Option<nat>)

  /** What a turn goroutine or a manual compaction was started with. */
  datatype Thread = Thread(session: Session, ctx: nat)

  /** One change of a conversation, recorded in a store. */
  datatype Write = Write(thread: nat, session: Session)

  /** The goroutines by where they are: a turn is live, then leaving once turnsLive no longer
      counts it; a compaction is running, then closing once compacting is cleared.  A turn has
      captured the store it records in, and a finished one has sent its last message. */
  datatype Crew = Crew(
    live: set<nat>, captured: map<nat, Option<nat>>, finished: set<nat>, leaving: set<nat>,
    running: set<nat>, closing: set<nat>)

  /** The App's fields, every goroutine it ever started, and all they wrote. */
  datatype State = State(
    op: Op, compacting: bool, turnsLive: int, inFlight: int,
    session: Session, ctx: Option<nat>, cancelled: set<nat>, nextID: nat,
    threads: map<nat, Thread>, crew: Crew, log: seq<Write>)

  const NOBODY := Crew({}, map[], {}, {}, {}, {})

  const INIT := State(Free, false, 0, 0, Session(0, None), None, {}, 1, map[], NOBODY, [])

  datatype SubmitStep =
    | SubmitLock | SubmitCheck | SubmitGiveUp | SubmitStore | SubmitConv | SubmitBegin | SubmitCount | SubmitAdd
    | SubmitSpawn

  datatype CompactStep = CompactLock | CompactClaim | CompactBegin | CompactAdd | CompactStart

  datatype SwapStep = SwapLock | SwapCreate | SwapFail | SwapCancel | SwapWait | SwapInstall | SwapUnlock

  datatype TurnStep = TurnCapture | TurnWrite | TurnRecord | TurnCompact | TurnFinish | TurnLeave | TurnDone

  datatype CompactionStep = CompactionWrite | CompactionRelease | CompactionDone

  datatype Step =
    | BySubmit(submit: SubmitStep)
    | ByCompact(compact: CompactStep)
    | BySwap(swap: SwapStep)
    | ByTurn(turn: TurnStep, t: nat)
    | ByCompaction(compaction: CompactionStep, t: nat)
    | CancelTurn

  /** The context CancelTurn stops. */
  function Stopped(s: State): set<nat> {
    if s.ctx.Some? then {s.ctx.value} else {}
  }

  /** BeginTurn: a new context, the one before it cancelled. */
  function BeginTurn(s: State, op: Op): State {
    s.(op := op, ctx := Some(s.nextID), nextID := s.nextID + 1, cancelled := s.cancelled + Stopped(s))
  }

  function Log(s: State, t: nat, store: Option<nat>): State
    requires t in s.threads
  {
    s.(log := s.log + [Write(t, s.threads[t].session.(store := store))])
  }

  /** opMu given back. */
  function Freed(s: State): State {
    s.(op := Free)
  }

  /** A new goroutine, opMu given back. */
  function Spawned(s: State, thread: Thread, crew: Crew): State {
    s.(op := Free, nextID := s.nextID + 1, threads := s.threads[s.nextID := thread], crew := crew)
  }

  /** ensureStore */
  function Stored(s: State): State {
    if s.session.store.Some? then s.(op := SubmitStored(s.session.store.value))
    else s.(op := SubmitStored(s.nextID), session := s.session.(store := Some(s.nextID)), nextID := s.nextID + 1)
  }

  /** Submit, with opMu held until its turn is registered. */
  function NextSubmit(s: State, step: SubmitStep): Option<State> {
    match (step, s.op)
    case (SubmitLock, Free) => Some(s.(op := SubmitLocked))
    case (SubmitCheck, SubmitLocked) => Some(if s.compacting then Freed(s) else s.(op := SubmitChecked))
    case (SubmitGiveUp, SubmitChecked) => Some(Freed(s))
    case (SubmitStore, SubmitChecked) => Some(Stored(s))
    case (SubmitGiveUp, SubmitStored(_)) => Some(Freed(s))
    case (SubmitConv, SubmitStored(store)) => Some(s.(op := SubmitRead(store, s.session.conv)))
    case (SubmitBegin, SubmitRead(store, conv)) => Some(BeginTurn(s, SubmitBegun(store, conv, s.nextID)))
    case (SubmitCount, SubmitBegun(store, conv, ctx)) =>
      Some(s.(op := SubmitCounted(store, conv, ctx), turnsLive := s.turnsLive + 1))
    case (SubmitAdd, SubmitCounted(store, conv, ctx)) =>
      Some(s.(op := SubmitAdded(store, conv, ctx), inFlight := s.inFlight + 1))
    case (SubmitSpawn, SubmitAdded(store, conv, ctx)) =>
      Some(Spawned(s, Thread(Session(conv, Some(store)), ctx), s.crew.(live := s.crew.live + {s.nextID})))
    case _ => None
  }

  /** beginManualCompact, with opMu held until the compaction is registered. */
  function NextCompact(s: State, step: CompactStep): Option<State> {
    match (step, s.op)
    case (CompactLock, Free) => Some(s.(op := CompactLocked))
    case (CompactClaim, CompactLocked) =>
      Some(if s.compacting || s.turnsLive > 0 then Freed(s) else s.(op := CompactClaimed, compacting := true))
    case (CompactBegin, CompactClaimed) => Some(BeginTurn(s, CompactBegun(s.nextID)))
    case (CompactAdd, CompactBegun(ctx)) => Some(s.(op := CompactAdded(ctx), inFlight := s.inFlight + 1))
    case (CompactStart, CompactAdded(ctx)) =>
      Some(Spawned(s, Thread(s.session, ctx), s.crew.(running := s.crew.running + {s.nextID})))
    case _ => None
  }

  /** NewSession, with opMu held throughout. */
  function NextSwap(s: State, step: SwapStep): Option<State> {
    match (step, s.op)
    case (SwapLock, Free) => Some(s.(op := SwapLocked))
    case (SwapFail, SwapLocked) => Some(Freed(s))
    case (SwapCreate, SwapLocked) => Some(s.(op := SwapCreated(s.nextID), nextID := s.nextID + 1))
    case (SwapCancel, SwapCreated(store)) => Some(s.(op := SwapCancelled(store), cancelled := s.cancelled + Stopped(s)))
    case (SwapWait, SwapCancelled(store)) => if s.inFlight == 0 then Some(s.(op := SwapWaited(store))) else None
    case (SwapInstall, SwapWaited(store)) =>
      Some(s.(op := SwapInstalled, session := Session(s.nextID, Some(store)), nextID := s.nextID + 1))
    case (SwapUnlock, SwapInstalled) => Some(Freed(s))
    case _ => None
  }

  /** A turn goroutine: it reads the store, then writes and records until it finishes. */
  function NextTurn(s: State, step: TurnStep, t: nat): Option<State> {
    var crew := s.crew;
    match step
    case TurnCapture =>
      if t in crew.live && t !in crew.captured
      then Some(s.(crew := crew.(captured := crew.captured[t := s.session.store]))) else None
    case TurnWrite => if Writing(s, t) then Some(Log(s, t, s.threads[t].session.store)) else None
    case TurnRecord => if Writing(s, t) then Some(Log(s, t, crew.captured[t])) else None
    case TurnCompact => if Writing(s, t) then Some(Log(s, t, s.session.store)) else None
    case TurnFinish => if Writing(s, t) then Some(s.(crew := crew.(finished := crew.finished + {t}))) else None
    case TurnLeave =>
      if t in crew.live && t in crew.finished
      then Some(s.(crew := crew.(live := crew.live - {t}, leaving := crew.leaving + {t}), turnsLive := s.turnsLive - 1))
      else None
    case TurnDone =>
      if t in crew.leaving
      then Some(s.(crew := crew.(leaving := crew.leaving - {t}), inFlight := s.inFlight - 1)) else None
  }

  predicate Writing(s: State, t: nat) {
    t in s.threads && t in s.crew.live && t in s.crew.captured && t !in s.crew.finished
  }

  /** The rest of ManualCompact. */
  function NextCompaction(s: State, step: CompactionStep, t: nat): Option<State> {
    var crew := s.crew;
    match step
    case CompactionWrite =>
      if t in crew.running && t in s.threads then Some(Log(s, t, s.session.store)) else None
    case CompactionRelease =>
      if t in crew.running
      then Some(s.(crew := crew.(running := crew.running - {t}, closing := crew.closing + {t}), compacting := false))
      else None
    case CompactionDone =>
      if t in crew.closing
      then Some(s.(crew := crew.(closing := crew.closing - {t}), inFlight := s.inFlight - 1)) else None
  }

  /** None: the step cannot be taken now. */
  function Next(s: State, step: Step): Option<State> {
    match step
    case BySubmit(submit) => NextSubmit(s, submit)
    case ByCompact(compact) => NextCompact(s, compact)
    case BySwap(swap) => NextSwap(s, swap)
    case ByTurn(turn, t) => NextTurn(s, turn, t)
    case ByCompaction(compaction, t) => NextCompaction(s, compaction, t)
    case CancelTurn => Some(s.(cancelled := s.cancelled + Stopped(s)))
  }

  // ------------------------------------------------------------ the invariant

  predicate Submitting(op: Op) {
    op.SubmitChecked? || op.SubmitStored? || op.SubmitRead? || op.SubmitBegun? || op.SubmitCounted? || op.SubmitAdded?
  }

  predicate Claimed(op: Op) {
    op.CompactClaimed? || op.CompactBegun? || op.CompactAdded?
  }

  function Counted(op: Op): int { if op.SubmitCounted? || op.SubmitAdded? then 1 else 0 }
  function Added(op: Op): int { if op.SubmitAdded? || op.CompactAdded? then 1 else 0 }

  /** The counters count the goroutines. */
  predicate Counts(op: Op, turnsLive: int, inFlight: int, crew: Crew) {
    && turnsLive == |crew.live| + Counted(op)
    && inFlight == |crew.live| + |crew.leaving| + |crew.running| + |crew.closing| + Added(op)
  }

  /** Turns and compactions keep apart. */
  predicate Exclusive(op: Op, compacting: bool, crew: Crew) {
    && (compacting <==> crew.running != {} || Claimed(op))
    && (compacting ==> crew.live == {} && !Submitting(op))
    && (Claimed(op) ==> crew.running == {})
    && |crew.running| <= 1
  }

  predicate AtHome(t: nat, session: Session, threads: map<nat, Thread>, crew: Crew) {
    t in threads && threads[t].session == session && (t in crew.captured ==> crew.captured[t] == session.store)
  }

  /** Everyone who can write holds the App's own conversation and store. */
  ghost predicate AllAtHome(session: Session, threads: map<nat, Thread>, crew: Crew) {
    && (forall t :: t in crew.live || t in crew.running ==> AtHome(t, session, threads, crew))
    && (crew.live != {} ==> session.store.Some?)
  }

  /** So does the operation that holds opMu, and it finds the App at rest before a swap. */
  predicate OpCurrent(op: Op, session: Session, inFlight: int) {
    match op
    case SubmitStored(store) => session.store == Some(store)
    case SubmitRead(store, conv) => session == Session(conv, Some(store))
    case SubmitBegun(store, conv, _) => session == Session(conv, Some(store))
    case SubmitCounted(store, conv, _) => session == Session(conv, Some(store))
    case SubmitAdded(store, conv, _) => session == Session(conv, Some(store))
    case SwapWaited(_) => inFlight == 0
    case _ => true
  }

  function OpContext(op: Op): set<nat> {
    match op
    case SubmitBegun(_, _, ctx) => {ctx}
    case SubmitCounted(_, _, ctx) => {ctx}
    case SubmitAdded(_, _, ctx) => {ctx}
    case CompactBegun(ctx) => {ctx}
    case CompactAdded(ctx) => {ctx}
    case _ => {}
  }

  /** Only the newest context can be uncancelled. */
  predicate Stoppable(made: nat, ctx: Option<nat>, cancelled: set<nat>, nextID: nat) {
    made < nextID && (ctx == Some(made) || made in cancelled)
  }

  predicate OwnContext(threads: map<nat, Thread>, t: nat, u: nat)
    requires t in threads && u in threads
  {
    t != u ==> threads[t].ctx != threads[u].ctx
  }

  /** Every goroutine has a context of its own, and so has the operation that will start one. */
  ghost predicate Contexts(own: set<nat>, ctx: Option<nat>, cancelled: set<nat>, nextID: nat,
                           threads: map<nat, Thread>) {
    && (forall t :: t in threads ==>
          Stoppable(threads[t].ctx, ctx, cancelled, nextID) && threads[t].ctx !in own)
    && (forall t, u :: t in threads && u in threads ==> OwnContext(threads, t, u))
    && (forall made :: made in own ==> Stoppable(made, ctx, cancelled, nextID))
    && (ctx.Some? ==> ctx.value < nextID)
  }

  /** A goroutine that has left a place is not there any more, and all of them were started. */
  predicate Apart(crew: Crew, started: set<nat>) {
    && crew.live <= started && crew.leaving <= started && crew.running <= started && crew.closing <= started
    && crew.captured.Keys <= started && crew.finished <= started
    && crew.live !! crew.leaving && crew.running !! crew.closing
  }

  ghost predicate Older(threads: map<nat, Thread>, nextID: nat) {
    forall t :: t in threads ==> t < nextID
  }

  predicate Filed(e: Write, threads: map<nat, Thread>) {
    e.thread in threads && threads[e.thread].session == e.session
  }

  /** Every write went where its goroutine was started. */
  ghost predicate AllFiled(log: seq<Write>, threads: map<nat, Thread>) {
    forall i :: 0 <= i < |log| ==> Filed(log[i], threads)
  }

  ghost predicate Inv(s: State) {
    && Apart(s.crew, s.threads.Keys) && Older(s.threads, s.nextID)
    && Counts(s.op, s.turnsLive, s.inFlight, s.crew) && Exclusive(s.op, s.compacting, s.crew)
    && AllAtHome(s.session, s.threads, s.crew) && OpCurrent(s.op, s.session, s.inFlight)
    && Contexts(OpContext(s.op), s.ctx, s.cancelled, s.nextID, s.threads)
    && AllFiled(s.log, s.threads)
  }

  // --------------------------------------------------------- every step keeps it

  lemma ContextsKept(s: State, own: set<nat>, cancelled: set<nat>, nextID: nat)
    requires Inv(s) && own <= OpContext(s.op) && s.cancelled <= cancelled && s.nextID <= nextID
    ensures Contexts(own, s.ctx, cancelled, nextID, s.threads) && Older(s.threads, nextID)
  {
    forall t | t in s.threads ensures Stoppable(s.threads[t].ctx, s.ctx, cancelled, nextID) {
      assert Stoppable(s.threads[t].ctx, s.ctx, s.cancelled, s.nextID);
    }
    forall made | made in own ensures Stoppable(made, s.ctx, cancelled, nextID) {
      assert Stoppable(made, s.ctx, s.cancelled, s.nextID);
    }
  }

  /** opMu's holder moves on, counting what it is about to start. */
  lemma OpMoves(s: State, op: Op, more: int, under: int)
    requires Inv(s) && OpContext(op) <= OpContext(s.op) && OpCurrent(op, s.session, s.inFlight + under)
    requires Counted(op) == Counted(s.op) + more && Added(op) == Added(s.op) + under
    requires Exclusive(op, s.compacting, s.crew)
    ensures Inv(s.(op := op, turnsLive := s.turnsLive + more, inFlight := s.inFlight + under))
  {
    ContextsKept(s, OpContext(op), s.cancelled, s.nextID);
  }

  lemma OpStep(s: State, op: Op)
    requires Inv(s) && OpContext(op) <= OpContext(s.op) && OpCurrent(op, s.session, s.inFlight)
    requires Counted(op) == Counted(s.op) && Added(op) == Added(s.op) && Exclusive(op, s.compacting, s.crew)
    ensures Inv(s.(op := op))
  {
    OpMoves(s, op, 0, 0);
  }

  /** opMu is taken, or given back with nothing registered. */
  lemma LockMoves(s: State, op: Op)
    requires Inv(s) && Idle(s.op) && (op.Free? || op.SubmitLocked? || op.CompactLocked? || op.SwapLocked?)
    ensures Inv(s.(op := op))
  {
    OpStep(s, op);
  }

  /** Nothing has been begun, counted or claimed. */
  predicate Idle(op: Op) {
    OpContext(op) == {} && Counted(op) == 0 && Added(op) == 0 && !Claimed(op)
  }

  lemma SubmitStores(s: State)
    requires Inv(s) && s.op.SubmitChecked?
    ensures Inv(Stored(s))
  {
    if s.session.store.Some? {
      OpStep(s, SubmitStored(s.session.store.value));
    } else {
      assert !s.compacting && s.crew.running == {} && s.crew.live == {};
      ContextsKept(s, {}, s.cancelled, s.nextID + 1);
    }
  }

  lemma BeginKeeps(s: State, op: Op)
    requires Inv(s) && OpContext(op) == {s.nextID} && OpCurrent(op, s.session, s.inFlight)
    requires Counted(op) == Counted(s.op) && Added(op) == Added(s.op) && Exclusive(op, s.compacting, s.crew)
    ensures Inv(BeginTurn(s, op))
  {
    var s' := BeginTurn(s, op);
    forall t | t in s.threads
      ensures Stoppable(s.threads[t].ctx, s'.ctx, s'.cancelled, s'.nextID) && s.threads[t].ctx !in OpContext(op)
    {
      assert Stoppable(s.threads[t].ctx, s.ctx, s.cancelled, s.nextID);
    }
  }

  /** A goroutine starts with the context opMu's holder made for it. */
  lemma SpawnKeepsContexts(s: State, thread: Thread)
    requires Inv(s) && OpContext(s.op) == {thread.ctx}
    ensures var threads := s.threads[s.nextID := thread];
      Contexts({}, s.ctx, s.cancelled, s.nextID + 1, threads) && Older(threads, s.nextID + 1) && s.nextID !in s.threads
  {
    var threads := s.threads[s.nextID := thread];
    assert s.nextID !in s.threads && thread.ctx in OpContext(s.op);
    forall t | t in threads ensures Stoppable(threads[t].ctx, s.ctx, s.cancelled, s.nextID + 1) {
      assert Stoppable(threads[t].ctx, s.ctx, s.cancelled, s.nextID);
    }
    forall t, u | t in threads && u in threads ensures OwnContext(threads, t, u) {
      assert t in s.threads && u in s.threads ==> OwnContext(s.threads, t, u);
    }
  }

  lemma SpawnKeepsFiles(log: seq<Write>, threads: map<nat, Thread>, t: nat, thread: Thread)
    requires AllFiled(log, threads) && t !in threads
    ensures AllFiled(log, threads[t := thread])
  {
    forall i | 0 <= i < |log| ensures Filed(log[i], threads[t := thread]) {
      assert Filed(log[i], threads);
    }
  }

  /** Whoever can write now could write before, or has just been started. */
  ghost predicate OneMore(s: State, crew: Crew) {
    && crew.captured == s.crew.captured
    && (forall t :: t in crew.live ==> t == s.nextID || t in s.crew.live)
    && (forall t :: t in crew.running ==> t == s.nextID || t in s.crew.running)
  }

  lemma SpawnAtHome(s: State, thread: Thread, crew: Crew)
    requires Apart(s.crew, s.threads.Keys) && AllAtHome(s.session, s.threads, s.crew) && s.nextID !in s.threads
    requires OneMore(s, crew) && thread.session == s.session && (crew.live == {} || s.session.store.Some?)
    ensures AllAtHome(s.session, s.threads[s.nextID := thread], crew)
  {
    var threads := s.threads[s.nextID := thread];
    forall t | t in crew.live || t in crew.running ensures AtHome(t, s.session, threads, crew) {
      assert t != s.nextID ==> AtHome(t, s.session, s.threads, s.crew);
    }
  }

  lemma SpawnKeeps(s: State, thread: Thread, crew: Crew)
    requires Inv(s) && OpContext(s.op) == {thread.ctx} && thread.session == s.session
    requires OneMore(s, crew) && Apart(crew, s.threads.Keys + {s.nextID})
    requires crew.live == {} || s.session.store.Some?
    requires Counts(Free, s.turnsLive, s.inFlight, crew) && Exclusive(Free, s.compacting, crew)
    ensures Inv(Spawned(s, thread, crew))
  {
    SpawnKeepsContexts(s, thread);
    SpawnKeepsFiles(s.log, s.threads, s.nextID, thread);
    SpawnAtHome(s, thread, crew);
    assert s.threads[s.nextID := thread].Keys == s.threads.Keys + {s.nextID};
  }

  /** One more live turn, counted already. */
  lemma TurnCounts(s: State, crew: Crew)
    requires Inv(s) && s.op.SubmitAdded? && crew == s.crew.(live := s.crew.live + {s.nextID})
    ensures OneMore(s, crew) && Apart(crew, s.threads.Keys + {s.nextID})
    ensures Counts(Free, s.turnsLive, s.inFlight, crew) && Exclusive(Free, s.compacting, crew)
  {
    assert s.nextID !in s.threads;
    assert |crew.live| == |s.crew.live| + 1;
  }

  lemma SubmitSpawns(s: State)
    requires Inv(s) && s.op.SubmitAdded?
    ensures Inv(NextSubmit(s, SubmitSpawn).value)
  {
    var crew := s.crew.(live := s.crew.live + {s.nextID});
    TurnCounts(s, crew);
    SpawnKeeps(s, Thread(s.session, s.op.ctx), crew);
  }

  /** One more running compaction, counted and claimed already. */
  lemma CompactionCounts(s: State, crew: Crew)
    requires Inv(s) && s.op.CompactAdded? && crew == s.crew.(running := s.crew.running + {s.nextID})
    ensures OneMore(s, crew) && Apart(crew, s.threads.Keys + {s.nextID}) && crew.live == {}
    ensures Counts(Free, s.turnsLive, s.inFlight, crew) && Exclusive(Free, s.compacting, crew)
  {
    assert s.nextID !in s.threads;
    assert s.crew.running == {} && crew.running == {s.nextID};
  }

  lemma CompactStarts(s: State)
    requires Inv(s) && s.op.CompactAdded?
    ensures Inv(NextCompact(s, CompactStart).value)
  {
    var crew := s.crew.(running := s.crew.running + {s.nextID});
    CompactionCounts(s, crew);
    SpawnKeeps(s, Thread(s.session, s.op.ctx), crew);
  }

  lemma SubmitChecks(s: State)
    requires Inv(s) && s.op.SubmitLocked?
    ensures Inv(NextSubmit(s, SubmitCheck).value)
  {
    if s.compacting {
      LockMoves(s, Free);
    } else {
      OpStep(s, SubmitChecked);
    }
  }

  lemma SubmitReads(s: State)
    requires Inv(s) && s.op.SubmitStored?
    ensures Inv(NextSubmit(s, SubmitConv).value)
  {
    OpStep(s, SubmitRead(s.op.store, s.session.conv));
  }

  /** Submit before its turn has a context. */
  lemma SubmitPrepares(s: State, step: SubmitStep)
    requires Inv(s) && NextSubmit(s, step).Some? && OpContext(s.op) == {} && !s.op.SubmitRead?
    ensures Inv(NextSubmit(s, step).value)
  {
    match s.op
    case Free => LockMoves(s, SubmitLocked);
    case SubmitLocked => SubmitChecks(s);
    case SubmitChecked =>
      LockMoves(s, Free);
      SubmitStores(s);
    case SubmitStored(_) =>
      LockMoves(s, Free);
      SubmitReads(s);
  }

  lemma SubmitCounts(s: State)
    requires Inv(s) && s.op.SubmitBegun?
    ensures Inv(NextSubmit(s, SubmitCount).value)
  {
    OpMoves(s, SubmitCounted(s.op.store, s.op.conv, s.op.ctx), 1, 0);
  }

  lemma SubmitAdds(s: State)
    requires Inv(s) && s.op.SubmitCounted?
    ensures Inv(NextSubmit(s, SubmitAdd).value)
  {
    OpMoves(s, SubmitAdded(s.op.store, s.op.conv, s.op.ctx), 0, 1);
  }

  lemma NextSubmitKeeps(s: State, step: SubmitStep)
    requires Inv(s) && NextSubmit(s, step).Some?
    ensures Inv(NextSubmit(s, step).value)
  {
    match s.op
    case SubmitRead(store, conv) => BeginKeeps(s, SubmitBegun(store, conv, s.nextID));
    case SubmitBegun(_, _, _) => SubmitCounts(s);
    case SubmitCounted(_, _, _) => SubmitAdds(s);
    case SubmitAdded(_, _, _) => SubmitSpawns(s);
    case _ => SubmitPrepares(s, step);
  }

  /** No turn counted, no turn live. */
  lemma ClaimKeeps(s: State)
    requires Inv(s) && s.op.CompactLocked? && !s.compacting && s.turnsLive <= 0
    ensures Inv(s.(op := CompactClaimed, compacting := true))
  {
    assert |s.crew.live| == 0;
  }

  lemma CompactClaims(s: State)
    requires Inv(s) && s.op.CompactLocked?
    ensures Inv(NextCompact(s, CompactClaim).value)
  {
    if s.compacting || s.turnsLive > 0 {
      LockMoves(s, Free);
    } else {
      ClaimKeeps(s);
    }
  }

  lemma NextCompactKeeps(s: State, step: CompactStep)
    requires Inv(s) && NextCompact(s, step).Some?
    ensures Inv(NextCompact(s, step).value)
  {
    match s.op
    case Free => LockMoves(s, CompactLocked);
    case CompactLocked => CompactClaims(s);
    case CompactClaimed => BeginKeeps(s, CompactBegun(s.nextID));
    case CompactBegun(ctx) => OpMoves(s, CompactAdded(ctx), 0, 1);
    case CompactAdded(_) => CompactStarts(s);
  }

  /** The swap finds nobody who could still write. */
  lemma QuietAtSwap(s: State)
    requires Inv(s) && s.op.SwapWaited?
    ensures s.crew.live == {} && s.crew.leaving == {} && s.crew.running == {} && s.crew.closing == {}
  {
    assert |s.crew.live| == |s.crew.leaving| == |s.crew.running| == |s.crew.closing| == 0;
  }

  lemma SwapInstalls(s: State)
    requires Inv(s) && s.op.SwapWaited?
    ensures Inv(NextSwap(s, SwapInstall).value)
  {
    QuietAtSwap(s);
    ContextsKept(s, {}, s.cancelled, s.nextID + 1);
  }

  lemma SwapCreates(s: State)
    requires Inv(s) && s.op.SwapLocked?
    ensures Inv(s.(op := SwapCreated(s.nextID), nextID := s.nextID + 1))
  {
    ContextsKept(s, {}, s.cancelled, s.nextID + 1);
  }

  lemma CancelKeeps(s: State)
    requires Inv(s)
    ensures Inv(s.(cancelled := s.cancelled + Stopped(s)))
  {
    ContextsKept(s, OpContext(s.op), s.cancelled + Stopped(s), s.nextID);
  }

  lemma SwapCancels(s: State)
    requires Inv(s) && s.op.SwapCreated?
    ensures Inv(NextSwap(s, SwapCancel).value)
  {
    CancelKeeps(s);
    OpStep(s.(cancelled := s.cancelled + Stopped(s)), SwapCancelled(s.op.store));
  }

  lemma NextSwapKeeps(s: State, step: SwapStep)
    requires Inv(s) && NextSwap(s, step).Some?
    ensures Inv(NextSwap(s, step).value)
  {
    match s.op
    case Free => LockMoves(s, SwapLocked);
    case SwapLocked =>
      if step.SwapFail? {
        LockMoves(s, Free);
      } else {
        SwapCreates(s);
      }
    case SwapCreated(_) => SwapCancels(s);
    case SwapCancelled(store) => OpStep(s, SwapWaited(store));
    case SwapWaited(_) => SwapInstalls(s);
    case SwapInstalled => LockMoves(s, Free);
  }

  lemma AtHomeKept(s: State, crew: Crew)
    requires AllAtHome(s.session, s.threads, s.crew)
    requires crew.live <= s.crew.live && crew.running <= s.crew.running
    requires forall t :: t in crew.captured ==>
               crew.captured[t] == s.session.store
               || (t in s.crew.captured && crew.captured[t] == s.crew.captured[t])
    ensures AllAtHome(s.session, s.threads, crew)
  {
    forall t | t in crew.live || t in crew.running ensures AtHome(t, s.session, s.threads, crew) {
      assert AtHome(t, s.session, s.threads, s.crew);
    }
  }

  /** Goroutines move between their sets; none starts and none is forgotten. */
  lemma CrewMoves(s: State, crew: Crew, compacting: bool, fewer: int, gone: int)
    requires Inv(s) && Apart(crew, s.threads.Keys)
    requires crew.live <= s.crew.live && crew.running <= s.crew.running && crew.captured == s.crew.captured
    requires Counts(s.op, s.turnsLive - fewer, s.inFlight - gone, crew) && Exclusive(s.op, compacting, crew)
    requires gone == 0 || s.inFlight > 0
    ensures Inv(s.(crew := crew, compacting := compacting,
                   turnsLive := s.turnsLive - fewer, inFlight := s.inFlight - gone))
  {
    AtHomeKept(s, crew);
  }

  lemma OnlyOne(ts: set<nat>, t: nat)
    requires |ts| <= 1 && t in ts
    ensures ts == {t}
  {
    assert |ts - {t}| == |ts| - 1;
    assert ts == {t} + (ts - {t});
  }

  lemma Fewer(ts: set<nat>, t: nat)
    requires t in ts
    ensures |ts - {t}| == |ts| - 1 && |ts| > 0
  {
  }

  lemma CaptureKeeps(s: State, t: nat)
    requires Inv(s) && NextTurn(s, TurnCapture, t).Some?
    ensures Inv(NextTurn(s, TurnCapture, t).value)
  {
    AtHomeKept(s, s.crew.(captured := s.crew.captured[t := s.session.store]));
  }

  lemma FinishKeeps(s: State, t: nat)
    requires Inv(s) && Writing(s, t)
    ensures Inv(NextTurn(s, TurnFinish, t).value)
  {
    CrewMoves(s, s.crew.(finished := s.crew.finished + {t}), s.compacting, 0, 0);
  }

  lemma LeaveKeeps(s: State, t: nat)
    requires Inv(s) && t in s.crew.live && t in s.crew.finished
    ensures Inv(NextTurn(s, TurnLeave, t).value)
  {
    Fewer(s.crew.live, t);
    CrewMoves(s, s.crew.(live := s.crew.live - {t}, leaving := s.crew.leaving + {t}), s.compacting, 1, 0);
  }

  lemma DoneKeeps(s: State, t: nat)
    requires Inv(s) && t in s.crew.leaving
    ensures Inv(NextTurn(s, TurnDone, t).value)
  {
    Fewer(s.crew.leaving, t);
    CrewMoves(s, s.crew.(leaving := s.crew.leaving - {t}), s.compacting, 0, 1);
  }

  lemma CompactionReleases(s: State, t: nat)
    requires Inv(s) && t in s.crew.running
    ensures Inv(NextCompaction(s, CompactionRelease, t).value)
  {
    OnlyOne(s.crew.running, t);
    CrewMoves(s, s.crew.(running := {}, closing := s.crew.closing + {t}), false, 0, 0);
    assert s.crew.running - {t} == {};
  }

  lemma CompactionEnds(s: State, t: nat)
    requires Inv(s) && t in s.crew.closing
    ensures Inv(NextCompaction(s, CompactionDone, t).value)
  {
    Fewer(s.crew.closing, t);
    CrewMoves(s, s.crew.(closing := s.crew.closing - {t}), s.compacting, 0, 1);
  }

  lemma LogKeeps(s: State, t: nat)
    requires Inv(s) && (t in s.crew.live || t in s.crew.running)
    ensures t in s.threads && Log(s, t, s.session.store).log == s.log + [Write(t, s.session)]
    ensures Inv(Log(s, t, s.session.store))
  {
    assert AtHome(t, s.session, s.threads, s.crew);
    var log := s.log + [Write(t, s.session)];
    forall i | 0 <= i < |log| ensures Filed(log[i], s.threads) {
      assert i < |s.log| ==> Filed(s.log[i], s.threads);
    }
  }

  /** A turn's writes go to the App's own conversation and store. */
  lemma WriteIsLog(s: State, step: TurnStep, t: nat)
    requires Inv(s) && NextTurn(s, step, t).Some? && (step.TurnWrite? || step.TurnRecord? || step.TurnCompact?)
    ensures t in s.crew.live && t in s.threads && NextTurn(s, step, t).value == Log(s, t, s.session.store)
  {
    assert AtHome(t, s.session, s.threads, s.crew);
  }

  lemma NextTurnKeeps(s: State, step: TurnStep, t: nat)
    requires Inv(s) && NextTurn(s, step, t).Some?
    ensures Inv(NextTurn(s, step, t).value)
  {
    match step
    case TurnCapture => CaptureKeeps(s, t);
    case TurnFinish => FinishKeeps(s, t);
    case TurnLeave => LeaveKeeps(s, t);
    case TurnDone => DoneKeeps(s, t);
    case _ =>
      WriteIsLog(s, step, t);
      LogKeeps(s, t);
  }

  lemma NextCompactionKeeps(s: State, step: CompactionStep, t: nat)
    requires Inv(s) && NextCompaction(s, step, t).Some?
    ensures Inv(NextCompaction(s, step, t).value)
  {
    match step
    case CompactionWrite => LogKeeps(s, t);
    case CompactionRelease => CompactionReleases(s, t);
    case CompactionDone => CompactionEnds(s, t);
  }

  lemma NextKeeps(s: State, step: Step)
    requires Inv(s) && Next(s, step).Some?
    ensures Inv(Next(s, step).value)
  {
    match step
    case BySubmit(submit) => NextSubmitKeeps(s, submit);
    case ByCompact(compact) => NextCompactKeeps(s, compact);
    case BySwap(swap) => NextSwapKeeps(s, swap);
    case ByTurn(turn, t) => NextTurnKeeps(s, turn, t);
    case ByCompaction(compaction, t) => NextCompactionKeeps(s, compaction, t);
    case CancelTurn => CancelKeeps(s);
  }

  // --------------------------------------------------------- whole runs

  /** The state after the steps, taken in order from the start. */
  function Run(steps: seq<Step>): Option<State> {
    if steps == [] then Some(INIT)
    else
      match Run(steps[..|steps| - 1])
      case None => None
      case Some(s) => Next(s, steps[|steps| - 1])
  }

  lemma {:induction false} RunKeeps(steps: seq<Step>)
    requires Run(steps).Some?
    ensures Inv(Run(steps).value)
  {
    if steps == [] {
      assert AllAtHome(INIT.session, INIT.threads, INIT.crew);
    } else {
      RunKeeps(steps[..|steps| - 1]);
      NextKeeps(Run(steps[..|steps| - 1]).value, steps[|steps| - 1]);
    }
  }

  lemma RunSnoc(steps: seq<Step>, step: Step)
    ensures Run(steps + [step]) == match Run(steps) case None => None case Some(s) => Next(s, step)
  {
    assert (steps + [step])[..|steps|] == steps;
  }

  /** A manual compaction and a turn are never both live, in any interleaving, and there is
      never more than one compaction. */
  lemma NeverBothLive(steps: seq<Step>)
    requires Run(steps).Some?
    ensures var s := Run(steps).value;
      && (s.crew.live == {} || s.crew.running == {})
      && (forall t :: t in s.crew.running ==> s.crew.running == {t})
  {
    RunKeeps(steps);
    var s := Run(steps).value;
    forall t | t in s.crew.running ensures s.crew.running == {t} {
      OnlyOne(s.crew.running, t);
    }
  }

  /** Whoever writes, writes the App's conversation of that moment, and its store, once a step. */
  lemma EveryWriteIsCurrent(steps: seq<Step>, step: Step)
    requires Run(steps).Some? && Run(steps + [step]).Some?
    ensures LogsCurrent(Run(steps).value, step, Run(steps + [step]).value)
  {
    RunKeeps(steps);
    RunSnoc(steps, step);
    WriteIsCurrent(Run(steps).value, step);
  }

  predicate IsWrite(step: Step) {
    match step
    case ByTurn(turn, _) => turn.TurnWrite? || turn.TurnRecord? || turn.TurnCompact?
    case ByCompaction(compaction, _) => compaction.CompactionWrite?
    case _ => false
  }

  /** A writing step of t writes once, to the App's session, and any other step writes nothing. */
  predicate LogsCurrent(s: State, step: Step, s': State) {
    s'.log == if IsWrite(step) then s.log + [Write(step.t, s.session)] else s.log
  }

  lemma OthersDoNotWrite(s: State, step: Step)
    requires Next(s, step).Some? && !IsWrite(step)
    ensures Next(s, step).value.log == s.log
  {
  }

  lemma WriteIsCurrent(s: State, step: Step)
    requires Inv(s) && Next(s, step).Some?
    ensures LogsCurrent(s, step, Next(s, step).value)
  {
    if !IsWrite(step) {
      OthersDoNotWrite(s, step);
    } else {
      if step.ByTurn? {
        WriteIsLog(s, step.turn, step.t);
      }
      LogKeeps(s, step.t);
    }
  }

  /** NewSession swaps only when no goroutine of the old session is left. */
  lemma SwapsOnlyWhenQuiet(steps: seq<Step>)
    requires Run(steps + [BySwap(SwapInstall)]).Some?
    ensures Run(steps).Some?
    ensures var s := Run(steps).value;
      s.crew.live == {} && s.crew.leaving == {} && s.crew.running == {} && s.crew.closing == {}
  {
    RunSnoc(steps, BySwap(SwapInstall));
    RunKeeps(steps);
    QuietAtSwap(Run(steps).value);
  }

  /** All that one goroutine writes and records goes to one conversation and one store. */
  lemma OneHomePerThread(steps: seq<Step>, i: nat, j: nat)
    requires Run(steps).Some? && i < |Run(steps).value.log| && j < |Run(steps).value.log|
    ensures var log := Run(steps).value.log;
      log[i].thread == log[j].thread ==> log[i].session == log[j].session
  {
    RunKeeps(steps);
    var s := Run(steps).value;
    assert Filed(s.log[i], s.threads) && Filed(s.log[j], s.threads);
  }

  /** At most one goroutine is not cancelled. */
  lemma OneUncancelled(steps: seq<Step>, t: nat, u: nat)
    requires Run(steps).Some?
    requires var s := Run(steps).value;
      && t in s.threads && s.threads[t].ctx !in s.cancelled
      && u in s.threads && s.threads[u].ctx !in s.cancelled
    ensures t == u
  {
    RunKeeps(steps);
    var s := Run(steps).value;
    assert Stoppable(s.threads[t].ctx, s.ctx, s.cancelled, s.nextID) && OwnContext(s.threads, t, u);
    assert Stoppable(s.threads[u].ctx, s.ctx, s.cancelled, s.nextID);
  }

  ghost predicate InOrder(s: State) {
    && s.session.conv < s.nextID
    && (forall i :: 0 <= i < |s.log| ==> s.log[i].session.conv <= s.session.conv)
    && (forall i, j :: 0 <= i < j < |s.log| ==> s.log[i].session.conv <= s.log[j].session.conv)
  }

  /** After a swap nothing is written to an older conversation. */
  lemma {:induction false} NoStragglers(steps: seq<Step>)
    requires Run(steps).Some?
    ensures InOrder(Run(steps).value)
  {
    if steps != [] {
      var before := steps[..|steps| - 1];
      NoStragglers(before);
      RunKeeps(before);
      WriteIsCurrent(Run(before).value, steps[|steps| - 1]);
      OrderStep(Run(before).value, steps[|steps| - 1]);
    }
  }

  lemma OrderStep(s: State, step: Step)
    requires InOrder(s) && Next(s, step).Some? && LogsCurrent(s, step, Next(s, step).value)
    ensures InOrder(Next(s, step).value)
  {
    NextIsNewer(s, step);
  }

  lemma NextIsNewer(s: State, step: Step)
    requires s.session.conv < s.nextID && Next(s, step).Some?
    ensures var s' := Next(s, step).value;
      s.session.conv <= s'.session.conv < s'.nextID
  {
  }

  // ------------------------------------------------------ one writer at a time

  /** No two turns still write. */
  ghost predicate OneWriter(s: State) {
    forall t, u :: t in s.crew.live - s.crew.finished && u in s.crew.live - s.crew.finished ==> t == u
  }

  ghost predicate SpawnsAlone(s: State, step: Step) {
    step == BySubmit(SubmitSpawn) ==> s.crew.live <= s.crew.finished
  }

  /** Every turn was started after the turn before it had sent its last message. */
  ghost predicate SpawnedAlone(steps: seq<Step>) {
    steps == [] ||
    (SpawnedAlone(steps[..|steps| - 1])
     && (Run(steps[..|steps| - 1]).Some? ==> SpawnsAlone(Run(steps[..|steps| - 1]).value, steps[|steps| - 1])))
  }

  ghost predicate AlwaysOneWriter(steps: seq<Step>) {
    && (Run(steps).Some? ==> OneWriter(Run(steps).value))
    && (steps == [] || AlwaysOneWriter(steps[..|steps| - 1]))
  }

  /** Submit does not look at live turns.  A conversation has one writer at a time exactly when
      its caller submits only after the turn before has sent its last message. */
  lemma {:induction false} OneWriterExactlyWhenSpawnedAlone(steps: seq<Step>)
    requires Run(steps).Some?
    ensures AlwaysOneWriter(steps) <==> SpawnedAlone(steps)
  {
    if steps == [] {
    } else {
      var before := steps[..|steps| - 1];
      OneWriterExactlyWhenSpawnedAlone(before);
      if AlwaysOneWriter(before) {
        RunKeeps(before);
        WriterStep(Run(before).value, steps[|steps| - 1]);
      }
    }
  }

  /** A Submit that nothing comes between, up to the conversation it reads. */
  const PREPARE: seq<Step> := [
    BySubmit(SubmitLock), BySubmit(SubmitCheck), BySubmit(SubmitStore), BySubmit(SubmitConv)]

  /** The rest of it. */
  const START: seq<Step> := [BySubmit(SubmitBegin), BySubmit(SubmitCount), BySubmit(SubmitAdd), BySubmit(SubmitSpawn)]

  function Prepared(s: State): State
    requires s.session.store.Some?
  {
    s.(op := SubmitRead(s.session.store.value, s.session.conv))
  }

  function Submitted(s: State): State {
    var t := s.nextID + 1;
    Spawned(BeginTurn(s, Free), Thread(s.session, s.nextID), s.crew.(live := s.crew.live + {t}))
      .(turnsLive := s.turnsLive + 1, inFlight := s.inFlight + 1)
  }

  lemma RunTwice(steps: seq<Step>, s: State, a: Step, b: Step, s': State)
    requires Run(steps) == Some(s) && Next(s, a).Some? && Next(Next(s, a).value, b) == Some(s')
    ensures Run(steps + [a, b]) == Some(s')
  {
    RunSnoc(steps, a);
    RunSnoc(steps + [a], b);
    assert steps + [a] + [b] == steps + [a, b];
  }

  lemma PrepareRuns(steps: seq<Step>, s: State)
    requires Run(steps) == Some(s) && s.op.Free? && !s.compacting
    ensures Run(steps + PREPARE) == Some(Prepared(Stored(s)))
  {
    var s2 := s.(op := SubmitChecked);
    var half := steps + [PREPARE[0], PREPARE[1]];
    RunTwice(steps, s, PREPARE[0], PREPARE[1], s2);
    RunTwice(half, s2, PREPARE[2], PREPARE[3], Prepared(Stored(s)));
    assert half + [PREPARE[2], PREPARE[3]] == steps + PREPARE;
  }

  lemma StartRuns(steps: seq<Step>, s: State)
    requires s.session.store.Some? && Run(steps) == Some(Prepared(s))
    ensures Run(steps + START) == Some(Submitted(s))
  {
    var op := SubmitCounted(s.session.store.value, s.session.conv, s.nextID);
    var begun := BeginTurn(s, op).(turnsLive := s.turnsLive + 1);
    var half := steps + [START[0], START[1]];
    RunTwice(steps, Prepared(s), START[0], START[1], begun);
    RunTwice(half, begun, START[2], START[3], Submitted(s));
    assert half + [START[2], START[3]] == steps + START;
  }

  /** Two Submits one after the other, and both turns write to one conversation. */
  lemma TwoWriters()
    ensures var steps := PREPARE + START + PREPARE + START + [ByTurn(TurnCapture, 3), ByTurn(TurnCapture, 5)];
      && Run(steps).Some? && Writing(Run(steps).value, 3) && Writing(Run(steps).value, 5)
      && Run(steps).value.threads[3].session == Run(steps).value.threads[5].session
      && !AlwaysOneWriter(steps)
  {
    var s1 := Submitted(Stored(INIT));
    var s2 := Submitted(Stored(s1));
    assert [] + PREPARE == PREPARE;
    PrepareRuns([], INIT);
    StartRuns(PREPARE, Stored(INIT));
    PrepareRuns(PREPARE + START, s1);
    StartRuns(PREPARE + START + PREPARE, Stored(s1));
    CaptureTwice(PREPARE + START + PREPARE + START, s2);
  }

  lemma CaptureTwice(steps: seq<Step>, s: State)
    requires Run(steps) == Some(s) && 3 in s.threads && 5 in s.threads
    requires 3 in s.crew.live && 5 in s.crew.live && s.crew.captured == map[] && s.crew.finished == {}
    ensures var all := steps + [ByTurn(TurnCapture, 3), ByTurn(TurnCapture, 5)];
      && Run(all).Some? && Writing(Run(all).value, 3) && Writing(Run(all).value, 5) && !OneWriter(Run(all).value)
      && Run(all).value.threads == s.threads
  {
    var store := s.session.store;
    var s' := s.(crew := s.crew.(captured := map[3 := store][5 := store]));
    RunTwice(steps, s, ByTurn(TurnCapture, 3), ByTurn(TurnCapture, 5), s');
    assert 3 in s'.crew.live - s'.crew.finished && 5 in s'.crew.live - s'.crew.finished;
  }

  lemma WriterStep(s: State, step: Step)
    requires Inv(s) && OneWriter(s) && Next(s, step).Some?
    ensures OneWriter(Next(s, step).value) <==> SpawnsAlone(s, step)
  {
    if step == BySubmit(SubmitSpawn) {
      assert s.nextID !in s.threads;
      SpawnAddsWriter(s);
    } else {
      OthersAddNoWriter(s, step);
    }
  }

  lemma OthersAddNoWriter(s: State, step: Step)
    requires Next(s, step).Some? && step != BySubmit(SubmitSpawn)
    ensures Next(s, step).value.crew.live - Next(s, step).value.crew.finished <= s.crew.live - s.crew.finished
  {
  }

  lemma SpawnAddsWriter(s: State)
    requires OneWriter(s) && s.op.SubmitAdded? && s.nextID !in s.crew.live && s.nextID !in s.crew.finished
    ensures OneWriter(NextSubmit(s, SubmitSpawn).value) <==> s.crew.live <= s.crew.finished
  {
    var s' := NextSubmit(s, SubmitSpawn).value;
    var writers := s.crew.live - s.crew.finished;
    assert s'.crew.live - s'.crew.finished == writers + {s.nextID};
    if t :| t in writers {
      assert t in s'.crew.live - s'.crew.finished && s.nextID in s'.crew.live - s'.crew.finished && t != s.nextID;
    }
  }

  // --------------------------------------------------- the wait ends

  /** What the goroutines still have to do before inFlight is zero. */
  function Work(s: State): int {
    |s.crew.live - s.crew.captured.Keys| + |s.crew.live - s.crew.finished| + 2 * |s.crew.live| + |s.crew.leaving|
        + 2 * |s.crew.running| + |s.crew.closing|
  }

  ghost predicate GoesOn(s: State, step: Step) {
    Next(s, step).Some? && Work(Next(s, step).value) < Work(s) && Next(s, step).value.op == s.op
  }

  lemma CaptureGoesOn(s: State, t: nat)
    requires t in s.crew.live && t !in s.crew.captured
    ensures GoesOn(s, ByTurn(TurnCapture, t))
  {
    var s' := NextTurn(s, TurnCapture, t).value;
    assert s.crew.live - s'.crew.captured.Keys == s.crew.live - s.crew.captured.Keys - {t};
  }

  lemma FinishGoesOn(s: State, t: nat)
    requires Writing(s, t)
    ensures GoesOn(s, ByTurn(TurnFinish, t))
  {
    var s' := NextTurn(s, TurnFinish, t).value;
    assert s.crew.live - s'.crew.finished == s.crew.live - s.crew.finished - {t};
  }

  lemma LeaveGoesOn(s: State, t: nat)
    requires t in s.crew.live && t in s.crew.captured && t in s.crew.finished && t !in s.crew.leaving
    ensures GoesOn(s, ByTurn(TurnLeave, t))
  {
    var s' := NextTurn(s, TurnLeave, t).value;
    assert s'.crew.live - s'.crew.finished == s.crew.live - s.crew.finished;
    assert s'.crew.live - s'.crew.captured.Keys == s.crew.live - s.crew.captured.Keys;
    assert |s'.crew.live| == |s.crew.live| - 1 && |s'.crew.leaving| == |s.crew.leaving| + 1;
  }

  lemma TurnGoesOn(s: State, t: nat)
    requires t in s.crew.live && t in s.threads && t !in s.crew.leaving
    ensures exists step :: GoesOn(s, step)
  {
    if t !in s.crew.captured {
      CaptureGoesOn(s, t);
    } else if t !in s.crew.finished {
      FinishGoesOn(s, t);
    } else {
      LeaveGoesOn(s, t);
    }
  }

  lemma CompactionGoesOn(s: State, t: nat)
    requires t in s.crew.running && t !in s.crew.closing
    ensures exists step :: GoesOn(s, step)
  {
    assert GoesOn(s, ByCompaction(CompactionRelease, t));
  }

  lemma LeavingGoesOn(s: State, t: nat)
    requires t in s.crew.leaving
    ensures GoesOn(s, ByTurn(TurnDone, t))
  {
    var s' := NextTurn(s, TurnDone, t).value;
    assert |s'.crew.leaving| == |s.crew.leaving| - 1;
  }

  lemma ClosingGoesOn(s: State, t: nat)
    requires t in s.crew.closing
    ensures GoesOn(s, ByCompaction(CompactionDone, t))
  {
    var s' := NextCompaction(s, CompactionDone, t).value;
    assert |s'.crew.closing| == |s.crew.closing| - 1;
  }

  /** While NewSession waits, holding opMu, some goroutine can always go on, and gets nearer
      its end: none of them needs opMu. */
  lemma WaitIsNotStuck(s: State)
    requires Inv(s) && s.op.SwapCancelled? && s.inFlight != 0
    ensures exists step :: GoesOn(s, step)
  {
    if t :| t in s.crew.live {
      TurnGoesOn(s, t);
    } else if t :| t in s.crew.running {
      CompactionGoesOn(s, t);
    } else if t :| t in s.crew.leaving {
      LeavingGoesOn(s, t);
    } else {
      var t :| t in s.crew.closing;
      ClosingGoesOn(s, t);
    }
  }
}
