/** How often a call tries for the lock, and what one call adds. */
module UsageLaws {
  import opened Prelude
  import opened UsageCounter

  /** A sum that overflows no int64 is that sum; any other is off by a multiple of 2^64. */
  lemma WrapsAsInt64(n: int) returns (k: int)
    ensures Wrap(n) == n - 0x1_0000_0000_0000_0000 * k
    ensures -0x8000_0000_0000_0000 <= Wrap(n) < 0x8000_0000_0000_0000
    ensures -0x8000_0000_0000_0000 <= n < 0x8000_0000_0000_0000 ==> k == 0
  {
    k := (n + 0x8000_0000_0000_0000) / 0x1_0000_0000_0000_0000;
  }

  predicate Small(n: int) { 0 <= n < 0x100_0000_0000_0000 }

  predicate SmallDelta(d: Delta) { Small(d.input) && Small(d.output) && Small(d.cacheRead) && Small(d.cacheWrite) }

  predicate SmallUsage(u: Usage) {
    Small(u.prompt) && Small(u.completion) && Small(u.cacheRead) && Small(u.cacheWrite) && Small(u.unknown)
  }

  lemma SmallIsExact(n: int)
    requires 0 <= n < 0x1000_0000_0000_0000
    ensures Wrap(n) == n
  {
  }

  /** What a call adds to counts that stay far from the end of int64. */
  lemma AddsUp(u: Usage, d: Delta)
    requires SmallUsage(u) && SmallDelta(d)
    ensures var all := d.input + d.output + d.cacheRead + d.cacheWrite;
      Added(u, d) == Usage(
        u.prompt + d.input, u.completion + d.output, u.cacheRead + d.cacheRead, u.cacheWrite + d.cacheWrite,
        u.prompt + u.completion + u.cacheRead + u.cacheWrite + all,
        if d.cost == None then u.unknown + all else u.unknown,
        match d.cost case Some(c) => u.cost + c case None => u.cost,
        d.now)
  {
    SmallIsExact(u.prompt + d.input);
    SmallIsExact(u.completion + d.output);
    SmallIsExact(u.cacheRead + d.cacheRead);
    SmallIsExact(u.cacheWrite + d.cacheWrite);
    SmallIsExact(
      u.prompt + d.input + (u.completion + d.output) + (u.cacheRead + d.cacheRead) + (u.cacheWrite + d.cacheWrite));
    SmallIsExact(u.unknown + (d.input + d.output + d.cacheRead + d.cacheWrite));
  }

  // --------------------------------------------------------------- the lock

  /** How often p has tried for the lock. */
  function Tries(steps: seq<Step>, p: nat): nat {
    if steps == [] then 0
    else if steps[|steps| - 1] == TryLock(p) then Tries(steps[..|steps| - 1], p) + 1
    else Tries(steps[..|steps| - 1], p)
  }

  ghost predicate Tried(s: State, p: nat, tries: nat, failed: bool) {
    if p !in s.calls then tries == 0 && !failed
    else
      match s.calls[p]
      case Trying(attempt) => attempt == tries && tries < 20 && !failed
      case Dropped => tries <= 20 && (failed || tries == 20)
      case _ => tries <= 20 && !failed
  }

  lemma TriedStep(s: State, step: Step, p: nat, tries: nat, failed: bool)
    requires Tried(s, p, tries, failed) && Next(s, step).Some?
    ensures Tried(Next(s, step).value, p, if step == TryLock(p) then tries + 1 else tries,
                  failed || step == LockFails(p))
  {
  }

  lemma {:induction false} RunTries(file: File, steps: seq<Step>, p: nat)
    requires Run(file, steps).Some?
    ensures Tried(Run(file, steps).value, p, Tries(steps, p), LockFails(p) in steps)
  {
    if steps != [] {
      var before, step := steps[..|steps| - 1], steps[|steps| - 1];
      assert steps == before + [step];
      RunTries(file, before, p);
      TriedStep(Run(file, before).value, step, p, Tries(before, p), LockFails(p) in before);
    }
  }

  /** A call gives its counts up exactly when the lock itself failed, or was found taken on the
      twentieth try; while nobody holds the lock, the next try gets it. */
  lemma DroppedExactly(file: File, steps: seq<Step>, p: nat)
    requires Run(file, steps).Some? && p in Run(file, steps).value.calls
    ensures var s := Run(file, steps).value;
      && (LockFails(p) in steps ==> s.calls[p] == Dropped)
      && (s.calls[p] == Dropped ==> LockFails(p) in steps || Tries(steps, p) == 20)
      && (s.calls[p].Trying? ==> Tries(steps, p) < 20)
      && (s.calls[p].Trying? && p in s.deltas ==>
            Next(s, TryLock(p)).Some?
            && (Next(s, TryLock(p)).value.calls[p] == Locked <==> s.holder.None?)
            && (Next(s, TryLock(p)).value.calls[p] == Dropped <==> s.holder.Some? && Tries(steps, p) == 19))
  {
    RunTries(file, steps, p);
  }
}
