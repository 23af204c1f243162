/** The usage counter that several processes share: lock, read, add, rename. */
module UsageCounter {
  import opened Prelude

  /** int64 addition. */
  function Wrap(n: int): int {
    (n + 0x8000_0000_0000_0000) % 0x1_0000_0000_0000_0000 - 0x8000_0000_0000_0000
  }

  lemma WrapAgain(n: int, m: int)
    ensures Wrap(Wrap(n) + m) == Wrap(n + m)
  {
    var size := 0x1_0000_0000_0000_0000;
    var x := n + 0x8000_0000_0000_0000;
    assert x == size * (x / size) + x % size;
    SameRemainder(x % size + m, x / size);
  }

  lemma SameRemainder(n: int, k: int)
    ensures (n + 0x1_0000_0000_0000_0000 * k) % 0x1_0000_0000_0000_0000 == n % 0x1_0000_0000_0000_0000
  {
  }

  /** The token counts of one call, its cost if that could be computed, and its time. */
  datatype Delta = Delta(input: int, output: int, cacheRead: int, cacheWrite: int, cost: Option<real>, now: int) {
    function All(): int { input + output + cacheRead + cacheWrite }
    function Unknown(): int { if cost.Some? then 0 else All() }
    function Known(): real { if cost.Some? then cost.value else 0.0 }
  }

  datatype Usage = Usage(
    prompt: int, completion: int, cacheRead: int, cacheWrite: int, total: int, unknown: int, cost: real, updated: int)

  const ZERO := Usage(0, 0, 0, 0, 0, 0, 0.0, 0)

  function Added(u: Usage, d: Delta): Usage {
    var prompt, completion := Wrap(u.prompt + d.input), Wrap(u.completion + d.output);
    var cacheRead, cacheWrite := Wrap(u.cacheRead + d.cacheRead), Wrap(u.cacheWrite + d.cacheWrite);
    Usage(prompt, completion, cacheRead, cacheWrite, Wrap(prompt + completion + cacheRead + cacheWrite),
          if d.cost.Some? then u.unknown else Wrap(u.unknown + d.All()), u.cost + d.Known(), d.now)
  }

  class Totals {
    var promptTokens: int
    var completionTokens: int
    var cacheReadTokens: int
    var cacheWriteTokens: int
    var totalTokens: int
    var costUnknownTokens: int
    var costUSD: real
    var updatedAt: int

    function Value(): Usage
      reads this
    {
      Usage(promptTokens, completionTokens, cacheReadTokens, cacheWriteTokens, totalTokens, costUnknownTokens,
            costUSD, updatedAt)
    }

    /** Usage.Add, int64 step by int64 step. */
    method Add(d: Delta)
      modifies this
      ensures Value() == Added(old(Value()), d)
    {
      promptTokens := Wrap(promptTokens + d.input);
      completionTokens := Wrap(completionTokens + d.output);
      cacheReadTokens := Wrap(cacheReadTokens + d.cacheRead);
      cacheWriteTokens := Wrap(cacheWriteTokens + d.cacheWrite);
      totalTokens := SumOfFour(promptTokens, completionTokens, cacheReadTokens, cacheWriteTokens);
      if d.cost.Some? {
        costUSD := costUSD + d.cost.value;
      } else {
        var tokens := SumOfFour(d.input, d.output, d.cacheRead, d.cacheWrite);
        WrapAgain(d.All(), costUnknownTokens);
        costUnknownTokens := Wrap(costUnknownTokens + tokens);
      }
      updatedAt := d.now;
    }
  }

  /** a + b + c + d in int64: wrapping at every addition is wrapping once. */
  method SumOfFour(a: int, b: int, c: int, d: int) returns (sum: int)
    ensures sum == Wrap(a + b + c + d)
  {
    sum := Wrap(a + b);
    sum := Wrap(sum + c);
    WrapAgain(a + b, c);
    sum := Wrap(sum + d);
    WrapAgain(a + b + c, d);
  }

  // -------------------------------------------------- processes and the file

  /** usage.json */
  datatype File = Missing | Valid(usage: Usage) | Corrupt

  /** Where a call of AddUsage is. */
  datatype Call =
    | Trying(attempt: nat) | Locked | Read(usage: Usage) | Staged(usage: Usage) | Renamed | Failed
    | Returned(ok: bool) | Dropped | Crashed

  const MAX_RETRIES := 20

  /** `counted` is every call whose rename took effect, in order; `base` is what they count
      from. */
  datatype State = State(
    file: File, holder: Option<nat>, calls: map<nat, Call>, deltas: map<nat, Delta>,
    base: Usage, counted: seq<nat>)

  datatype Step =
    | Start(p: nat, d: Delta) | TryLock(p: nat) | LockFails(p: nat)
    | ReadFile(p: nat) | ReadFails(p: nat) | Recover(p: nat) | Stage(p: nat) | StageFails(p: nat)
    | Rename(p: nat) | RenameFails(p: nat) | Release(p: nat, synced: bool) | Crash(p: nat)

  function Init(file: File): State {
    State(file, None, map[], map[], if file.Valid? then file.usage else ZERO, [])
  }

  predicate At(s: State, p: nat, call: Call) {
    p in s.calls && p in s.deltas && s.calls[p] == call
  }

  predicate Going(s: State, p: nat) {
    p in s.calls && p in s.deltas
  }

  function Moved(s: State, p: nat, call: Call): State {
    s.(calls := s.calls[p := call])
  }

  /** The operating system gives a dead process's flock back. */
  function Freed(s: State, p: nat): Option<nat> {
    if s.holder == Some(p) then None else s.holder
  }

  /** None: the step cannot be taken now. */
  function Next(s: State, step: Step): Option<State> {
    match step
    case Start(p, d) => if p in s.calls then None else Some(Moved(s, p, Trying(0)).(deltas := s.deltas[p := d]))
    case TryLock(p) =>
      if !Going(s, p) || !s.calls[p].Trying? then None
      else if s.holder.None? then Some(Moved(s, p, Locked).(holder := Some(p)))
      else if s.calls[p].attempt + 1 < MAX_RETRIES then Some(Moved(s, p, Trying(s.calls[p].attempt + 1)))
      else Some(Moved(s, p, Dropped))
    case LockFails(p) => if Going(s, p) && s.calls[p].Trying? then Some(Moved(s, p, Dropped)) else None
    case ReadFile(p) =>
      if !At(s, p, Locked) || s.file.Corrupt? then None
      else Some(Moved(s, p, Read(if s.file.Valid? then s.file.usage else ZERO)))
    case ReadFails(p) => if At(s, p, Locked) then Some(Moved(s, p, Failed)) else None
    case Recover(p) =>
      if At(s, p, Locked) && s.file.Corrupt? then Some(Moved(s, p, Read(ZERO)).(file := Missing)) else None
    case Stage(p) =>
      if Going(s, p) && s.calls[p].Read? then Some(Moved(s, p, Staged(Added(s.calls[p].usage, s.deltas[p])))) else None
    case StageFails(p) => if Going(s, p) && s.calls[p].Read? then Some(Moved(s, p, Failed)) else None
    case Rename(p) =>
      if Going(s, p) && s.calls[p].Staged?
      then Some(Moved(s, p, Renamed).(file := Valid(s.calls[p].usage), counted := s.counted + [p])) else None
    case RenameFails(p) => if Going(s, p) && s.calls[p].Staged? then Some(Moved(s, p, Failed)) else None
    case Release(p, synced) =>
      if At(s, p, Renamed) then Some(Moved(s, p, Returned(synced)).(holder := Freed(s, p)))
      else if At(s, p, Failed) then Some(Moved(s, p, Returned(false)).(holder := Freed(s, p)))
      else None
    case Crash(p) =>
      if Going(s, p) && !Over(s.calls[p]) then Some(Moved(s, p, Crashed).(holder := Freed(s, p))) else None
  }

  predicate Over(call: Call) {
    call.Returned? || call.Dropped? || call.Crashed?
  }

  predicate Holding(call: Call) {
    call.Locked? || call.Read? || call.Staged? || call.Renamed? || call.Failed?
  }

  function Run(file: File, steps: seq<Step>): Option<State> {
    if steps == [] then Some(Init(file))
    else
      match Run(file, steps[..|steps| - 1])
      case None => None
      case Some(s) => Next(s, steps[|steps| - 1])
  }

  // ----------------------------------------------------------------- sums

  datatype Field = Input | Output | CacheReads | CacheWrites | Unknowns

  function Part(d: Delta, field: Field): int {
    match field
    case Input => d.input
    case Output => d.output
    case CacheReads => d.cacheRead
    case CacheWrites => d.cacheWrite
    case Unknowns => d.Unknown()
  }

  /** The sum of one field over the calls. */
  function Sum(calls: seq<nat>, deltas: map<nat, Delta>, field: Field): int {
    if calls == [] then 0
    else
      var p := calls[|calls| - 1];
      Sum(calls[..|calls| - 1], deltas, field) + if p in deltas then Part(deltas[p], field) else 0
  }

  lemma SumSnoc(calls: seq<nat>, p: nat, deltas: map<nat, Delta>, field: Field)
    requires p in deltas
    ensures Sum(calls + [p], deltas, field) == Sum(calls, deltas, field) + Part(deltas[p], field)
  {
    assert (calls + [p])[..|calls|] == calls;
  }

  lemma {:induction false} SumKept(calls: seq<nat>, deltas: map<nat, Delta>, more: map<nat, Delta>, field: Field)
    requires forall p :: p in calls ==> p in deltas && p in more && more[p] == deltas[p]
    ensures Sum(calls, more, field) == Sum(calls, deltas, field)
  {
    if calls != [] {
      assert calls[|calls| - 1] in calls;
      SumKept(calls[..|calls| - 1], deltas, more, field);
    }
  }

  function Stored(u: Usage, field: Field): int {
    match field
    case Input => u.prompt
    case Output => u.completion
    case CacheReads => u.cacheRead
    case CacheWrites => u.cacheWrite
    case Unknowns => u.unknown
  }

  // ------------------------------------------------------------ the invariant

  /** Every field is an int64. */
  ghost predicate InRange(u: Usage) {
    forall field :: Wrap(Stored(u, field)) == Stored(u, field)
  }

  lemma AddedField(u: Usage, d: Delta, field: Field)
    requires InRange(u)
    ensures Stored(Added(u, d), field) == Wrap(Stored(u, field) + Part(d, field))
  {
    assert Wrap(Stored(u, field)) == Stored(u, field);
  }

  lemma AddedInRange(u: Usage, d: Delta, field: Field)
    requires InRange(u)
    ensures Wrap(Stored(Added(u, d), field)) == Stored(Added(u, d), field)
  {
    AddedField(u, d, field);
    WrapAgain(Stored(u, field) + Part(d, field), 0);
  }

  /** A stored field is its base plus the sum over the counted calls. */
  predicate FieldKept(s: State, u: Usage, field: Field) {
    Stored(u, field) ==
    if s.counted == [] then Stored(s.base, field) else Wrap(Stored(s.base, field) + Sum(s.counted, s.deltas, field))
  }

  /** What a reader of the file would see. */
  function Seen(file: File): Usage {
    if file.Valid? then file.usage else ZERO
  }

  predicate Totalled(u: Usage) {
    u.total == Wrap(u.prompt + u.completion + u.cacheRead + u.cacheWrite)
  }

  ghost predicate Conserved(s: State) {
    && (s.file.Corrupt? ==> s.counted == [] && s.base == ZERO)
    && InRange(Seen(s.file))
    && (forall field :: FieldKept(s, Seen(s.file), field))
    && (s.counted != [] ==> s.file.Valid? && Totalled(s.file.usage))
  }

  predicate InTurn(s: State, p: nat) {
    p in s.calls && p in s.deltas
    && (Holding(s.calls[p]) ==> s.holder == Some(p))
    && (s.calls[p].Read? ==> !s.file.Corrupt? && s.calls[p].usage == Seen(s.file))
    && (s.calls[p].Staged? ==> !s.file.Corrupt? && s.calls[p].usage == Added(Seen(s.file), s.deltas[p]))
    && (p in s.counted ==> s.calls[p].Renamed? || s.calls[p].Returned? || s.calls[p].Crashed?)
    && (s.calls[p].Renamed? || s.calls[p] == Returned(true) ==> p in s.counted)
  }

  ghost predicate OnceEach(s: State) {
    && (forall p :: p in s.counted ==> p in s.calls)
    && (forall i, j :: 0 <= i < j < |s.counted| ==> s.counted[i] != s.counted[j])
  }

  ghost predicate Inv(s: State) {
    Conserved(s) && OnceEach(s) && (forall p :: p in s.calls ==> InTurn(s, p))
    && (s.holder.Some? ==> s.holder.value in s.calls && Holding(s.calls[s.holder.value]))
  }

  /** A step of one call that leaves the file and the counted calls alone. */
  lemma CallMoves(s: State, s': State, p: nat)
    requires Inv(s) && p in s.calls && p in s.deltas && p in s'.calls && s'.calls == s.calls[p := s'.calls[p]]
    requires s'.file == s.file && s'.deltas == s.deltas && s'.base == s.base && s'.counted == s.counted
    requires InTurn(s', p) && (s'.holder == s.holder || s.holder in {None, Some(p)})
    requires s'.holder.Some? ==> s'.holder.value in s'.calls && Holding(s'.calls[s'.holder.value])
    ensures Inv(s')
  {
    forall q | q in s'.calls ensures InTurn(s', q) {
      assert q != p ==> InTurn(s, q);
    }
    forall field ensures FieldKept(s', Seen(s'.file), field) {
      assert FieldKept(s, Seen(s.file), field);
    }
  }

  lemma StartKeeps(s: State, p: nat, d: Delta)
    requires Inv(s) && p !in s.calls
    ensures Inv(Next(s, Start(p, d)).value)
  {
    var s' := Next(s, Start(p, d)).value;
    assert p !in s.counted;
    forall q | q in s'.calls ensures InTurn(s', q) {
      assert q != p ==> InTurn(s, q);
    }
    forall field ensures FieldKept(s', Seen(s'.file), field) {
      assert FieldKept(s, Seen(s.file), field);
      assert forall q :: q in s.counted ==> InTurn(s, q);
      SumKept(s.counted, s.deltas, s'.deltas, field);
    }
  }

  lemma RecoverKeeps(s: State, p: nat)
    requires Inv(s) && Next(s, Recover(p)).Some?
    ensures Inv(Next(s, Recover(p)).value)
  {
    var s' := Next(s, Recover(p)).value;
    assert InTurn(s, p);
    forall q | q in s'.calls ensures InTurn(s', q) {
      assert InTurn(s, q);
    }
    forall field ensures FieldKept(s', Seen(s'.file), field) {
      assert FieldKept(s, Seen(s.file), field);
    }
  }

  lemma RenameKeepsField(s: State, s': State, u: Usage, p: nat, field: Field)
    requires FieldKept(s, u, field) && InRange(u) && p in s.deltas
    requires s'.base == s.base && s'.deltas == s.deltas && s'.counted == s.counted + [p]
    ensures FieldKept(s', Added(u, s.deltas[p]), field)
  {
    var d := s.deltas[p];
    SumSnoc(s.counted, p, s.deltas, field);
    AddedField(u, d, field);
    CountOne(Stored(u, field), Stored(s.base, field), Sum(s.counted, s.deltas, field), Part(d, field), s.counted == []);
  }

  /** One more call counted, in numbers. */
  lemma CountOne(stored: int, base: int, sum: int, part: int, none: bool)
    requires stored == (if none then base else Wrap(base + sum)) && (none ==> sum == 0)
    ensures Wrap(stored + part) == Wrap(base + (sum + part))
  {
    WrapAgain(base + sum, part);
  }

  lemma RenameKeeps(s: State, p: nat)
    requires Inv(s) && Next(s, Rename(p)).Some?
    ensures Inv(Next(s, Rename(p)).value)
  {
    var s' := Next(s, Rename(p)).value;
    assert InTurn(s, p);
    forall q | q in s'.calls ensures InTurn(s', q) {
      assert InTurn(s, q);
    }
    forall field
      ensures FieldKept(s', Seen(s'.file), field) && Wrap(Stored(Seen(s'.file), field)) == Stored(Seen(s'.file), field)
    {
      assert FieldKept(s, Seen(s.file), field);
      RenameKeepsField(s, s', Seen(s.file), p, field);
      AddedInRange(Seen(s.file), s.deltas[p], field);
    }
  }

  lemma NextKeeps(s: State, step: Step)
    requires Inv(s) && Next(s, step).Some?
    ensures Inv(Next(s, step).value)
  {
    if step.Start? {
      StartKeeps(s, step.p, step.d);
    } else if step.Recover? {
      RecoverKeeps(s, step.p);
    } else if step.Rename? {
      RenameKeeps(s, step.p);
    } else {
      assert InTurn(s, step.p);
      CallMoves(s, Next(s, step).value, step.p);
    }
  }

  lemma {:induction false} RunKeeps(file: File, steps: seq<Step>)
    requires Run(file, steps).Some? && InRange(Seen(file))
    ensures Inv(Run(file, steps).value)
  {
    if steps == [] {
      assert forall field :: FieldKept(Init(file), Seen(file), field);
    } else {
      RunKeeps(file, steps[..|steps| - 1]);
      NextKeeps(Run(file, steps[..|steps| - 1]).value, steps[|steps| - 1]);
    }
  }

  // ------------------------------------------------------------ the promises

  /** Under any interleaving and any crashes: each stored total is its start plus the sum over
      exactly the calls whose rename took effect, and the total is the sum of the four. */
  lemma TotalsAreSums(file: File, steps: seq<Step>, field: Field)
    requires Run(file, steps).Some? && !file.Corrupt? && InRange(Seen(file))
    ensures var s := Run(file, steps).value;
      && !s.file.Corrupt? && s.base == Seen(file) && FieldKept(s, Seen(s.file), field)
      && (s.counted != [] ==> s.file.Valid? && Totalled(s.file.usage))
  {
    RunKeeps(file, steps);
    NeverCorrupted(file, steps);
  }

  /** The known costs of the calls. */
  function Costs(calls: seq<nat>, deltas: map<nat, Delta>): real {
    if calls == [] then 0.0
    else
      var p := calls[|calls| - 1];
      Costs(calls[..|calls| - 1], deltas) + if p in deltas then deltas[p].Known() else 0.0
  }

  lemma {:induction false} CostsKept(calls: seq<nat>, deltas: map<nat, Delta>, more: map<nat, Delta>)
    requires forall p :: p in calls ==> p in deltas && p in more && more[p] == deltas[p]
    ensures Costs(calls, more) == Costs(calls, deltas)
  {
    if calls != [] {
      assert calls[|calls| - 1] in calls;
      CostsKept(calls[..|calls| - 1], deltas, more);
    }
  }

  /** The stored cost is its start plus the known costs counted, and the time is that of the last
      call counted. */
  predicate CostKept(s: State) {
    && Seen(s.file).cost == s.base.cost + Costs(s.counted, s.deltas)
    && (s.counted != [] ==>
          var p := s.counted[|s.counted| - 1];
          p in s.deltas && Seen(s.file).updated == s.deltas[p].now)
  }

  lemma StartKeepsCost(s: State, s': State)
    requires OnceEach(s) && (forall p :: p in s.calls ==> p in s.deltas) && CostKept(s)
    requires s'.file == s.file && s'.base == s.base && s'.counted == s.counted
    requires forall p :: p in s.deltas ==> p in s'.deltas && (p in s.calls ==> s'.deltas[p] == s.deltas[p])
    ensures CostKept(s')
  {
    CostsKept(s.counted, s.deltas, s'.deltas);
  }

  lemma RenameKeepsCost(s: State, s': State, p: nat)
    requires CostKept(s) && p in s.deltas && s'.base == s.base && s'.deltas == s.deltas
    requires s'.counted == s.counted + [p] && s'.file == Valid(Added(Seen(s.file), s.deltas[p]))
    ensures CostKept(s')
  {
    assert s'.counted[..|s.counted|] == s.counted;
  }

  lemma OthersKeepCost(s: State, step: Step)
    requires Inv(s) && CostKept(s) && Next(s, step).Some? && !step.Start? && !step.Rename?
    ensures CostKept(Next(s, step).value)
  {
  }

  lemma CostStep(s: State, step: Step)
    requires Inv(s) && CostKept(s) && Next(s, step).Some?
    ensures CostKept(Next(s, step).value)
  {
    if step.Start? {
      assert forall p :: p in s.calls ==> InTurn(s, p);
      StartKeepsCost(s, Next(s, step).value);
    } else if step.Rename? {
      assert InTurn(s, step.p);
      RenameKeepsCost(s, Next(s, step).value, step.p);
    } else {
      OthersKeepCost(s, step);
    }
  }

  lemma {:induction false} CostIsSum(file: File, steps: seq<Step>)
    requires Run(file, steps).Some? && InRange(Seen(file))
    ensures CostKept(Run(file, steps).value)
  {
    if steps != [] {
      var before := steps[..|steps| - 1];
      CostIsSum(file, before);
      RunKeeps(file, before);
      CostStep(Run(file, before).value, steps[|steps| - 1]);
    }
  }

  lemma {:induction false} NeverCorrupted(file: File, steps: seq<Step>)
    requires Run(file, steps).Some? && !file.Corrupt?
    ensures !Run(file, steps).value.file.Corrupt? && Run(file, steps).value.base == Seen(file)
  {
    if steps != [] {
      NeverCorrupted(file, steps[..|steps| - 1]);
    }
  }

  /** A corrupt file counts for nothing: after it was moved aside the totals are the sums. */
  lemma RecoveredTotals(steps: seq<Step>, field: Field)
    requires Run(Corrupt, steps).Some? && Run(Corrupt, steps).value.counted != []
    ensures var s := Run(Corrupt, steps).value;
      s.file.Valid? && Totalled(s.file.usage) && s.base == ZERO && FieldKept(s, s.file.usage, field)
  {
    RunKeeps(Corrupt, steps);
    BaseIsZero(steps);
  }

  lemma {:induction false} BaseIsZero(steps: seq<Step>)
    requires Run(Corrupt, steps).Some?
    ensures Run(Corrupt, steps).value.base == ZERO
  {
    if steps != [] {
      BaseIsZero(steps[..|steps| - 1]);
    }
  }

  /** No two calls are between lock and release at once. */
  lemma OneAtATime(file: File, steps: seq<Step>, p: nat, q: nat)
    requires Run(file, steps).Some? && InRange(Seen(file))
    requires var s := Run(file, steps).value;
      p in s.calls && q in s.calls && Holding(s.calls[p]) && Holding(s.calls[q])
    ensures p == q
  {
    RunKeeps(file, steps);
    var s := Run(file, steps).value;
    assert InTurn(s, p) && InTurn(s, q);
  }

  /** A call that returned nil is counted exactly once; one that lost the lock never. */
  lemma CountedOnce(file: File, steps: seq<Step>, p: nat)
    requires Run(file, steps).Some? && InRange(Seen(file)) && p in Run(file, steps).value.calls
    ensures var s := Run(file, steps).value;
      && (s.calls[p] == Returned(true) ==> p in s.counted)
      && (s.calls[p].Dropped? ==> p !in s.counted)
      && (forall i, j :: 0 <= i < |s.counted| && 0 <= j < |s.counted| && s.counted[i] == s.counted[j] ==> i == j)
  {
    RunKeeps(file, steps);
    assert InTurn(Run(file, steps).value, p);
  }

  lemma RunOn(file: File, steps: seq<Step>, s: State, step: Step, s': State)
    requires Run(file, steps) == Some(s) && Next(s, step) == Some(s')
    ensures Run(file, steps + [step]) == Some(s')
  {
    assert (steps + [step])[..|steps|] == steps;
  }

  ghost predicate CountedWithError(s: State, p: nat) {
    p in s.calls && s.calls[p] == Returned(false) && p in s.counted
  }

  /** An error does not mean a call was not counted: the rename can take effect and the sync of
      the directory after it fail. */
  lemma CountedThoughFailed(d: Delta)
    ensures exists steps :: Run(Missing, steps).Some? && CountedWithError(Run(Missing, steps).value, 0)
  {
    var u := Added(ZERO, d);
    var s0 := Init(Missing);
    var s1 := Moved(s0, 0, Trying(0)).(deltas := s0.deltas[0 := d]);
    var s2 := Moved(s1, 0, Locked).(holder := Some(0));
    var s3 := Moved(s2, 0, Read(ZERO));
    var s4 := Moved(s3, 0, Staged(u));
    RunOn(Missing, [], s0, Start(0, d), s1);
    RunOn(Missing, [] + [Start(0, d)], s1, TryLock(0), s2);
    var steps := [] + [Start(0, d)] + [TryLock(0)];
    RunOn(Missing, steps, s2, ReadFile(0), s3);
    RunOn(Missing, steps + [ReadFile(0)], s3, Stage(0), s4);
    RenamesAtLast(steps + [ReadFile(0)] + [Stage(0)], s4, u);
  }

  lemma RenamesAtLast(steps: seq<Step>, s: State, u: Usage)
    requires Run(Missing, steps) == Some(s) && At(s, 0, Staged(u))
    ensures exists more :: Run(Missing, more).Some? && CountedWithError(Run(Missing, more).value, 0)
  {
    var s5 := Moved(s, 0, Renamed).(file := Valid(u), counted := s.counted + [0]);
    RunOn(Missing, steps, s, Rename(0), s5);
    FailsAtLast(steps + [Rename(0)], s5);
  }

  lemma FailsAtLast(steps: seq<Step>, s: State)
    requires Run(Missing, steps) == Some(s) && At(s, 0, Renamed) && 0 in s.counted
    ensures Run(Missing, steps + [Release(0, false)]).Some?
    ensures CountedWithError(Run(Missing, steps + [Release(0, false)]).value, 0)
  {
    RunOn(Missing, steps, s, Release(0, false), Moved(s, 0, Returned(false)).(holder := Freed(s, 0)));
  }
}
