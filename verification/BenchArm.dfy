/** One arm of the bench: two pools and a gauge. */
module BenchArm {
  import opened WorkerPool

  /** Org B's chain: about to write number `i`, writing it, pausing after it, over, or broken. */
  datatype Chain = Next(i: nat) | Writing(i: nat) | Pausing(i: nat) | Ended | Broken

  datatype Config = Config(repetitions: nat, writesA: nat, concurrencyA: nat, targetB: nat)

  /** A repetition runs the worker pool for org A beside org B's single chain of writes; the gauge of
      `trackPool` counts around every write of either. */
  datatype Arm<T> = Arm(repetition: nat, pool: Pool<T>, active: bool, chain: Chain, poolActive: int, poolPeak: int)

  datatype Step<T> =
    | OrgA(a: Action<T>)
    | OrgASettled             // the pool's promise resolved, org B is told to stop
    | BeginB
    | FinishB
    | ThrowB
    | ResumeB
    | NextRepetition

  predicate Can<T>(c: Config, arm: Arm<T>, step: Step<T>) {
    match step
    case OrgA(a) => Enabled(arm.pool, a)
    case OrgASettled => arm.active && Completed(arm.pool)
    case BeginB => arm.chain.Next?
    case FinishB => arm.chain.Writing?
    case ThrowB => arm.chain.Writing?
    case ResumeB => arm.chain.Pausing?
    case NextRepetition => !arm.active && arm.chain.Ended? && arm.repetition + 1 < c.repetitions
  }

  function Max(a: int, b: int): int { if a >= b then a else b }

  /** `trackPool` on the way in. */
  function Entered<T>(arm: Arm<T>): Arm<T> {
    arm.(poolActive := arm.poolActive + 1, poolPeak := Max(arm.poolPeak, arm.poolActive + 1))
  }

  /** `trackPool`'s `finally`. */
  function Left<T>(arm: Arm<T>): Arm<T> { arm.(poolActive := arm.poolActive - 1) }

  function FreshPool<T>(c: Config): Pool<T> {
    var n := if c.concurrencyA <= c.writesA then c.concurrencyA else c.writesA;
    Pool(c.writesA, 0, seq(n, _ => Ready), [], [])
  }

  function Do<T>(c: Config, arm: Arm<T>, step: Step<T>): Arm<T>
    requires Can(c, arm, step)
  {
    match step
    case OrgA(a) =>
      var after := arm.(pool := After(arm.pool, a));
      if !a.Take? then Left(after) else if arm.pool.next < arm.pool.count then Entered(after) else after
    case OrgASettled => arm.(active := false)
    case BeginB =>
      if !arm.active || arm.chain.i >= c.targetB then arm.(chain := Ended)
      else Entered(arm.(chain := Writing(arm.chain.i)))
    case FinishB => Left(arm.(chain := Pausing(arm.chain.i)))
    case ThrowB => Left(arm.(chain := Broken))
    case ResumeB => arm.(chain := Next(arm.chain.i + 1))
    case NextRepetition =>
      arm.(repetition := arm.repetition + 1, pool := FreshPool(c), active := true, chain := Next(0))
  }

  /** After the seed write: the gauge has been at 1 once. */
  function Begun<T>(c: Config): Arm<T> { Arm(0, FreshPool(c), true, Next(0), 0, 1) }

  datatype Run<T> = NoStep | More(before: Run<T>, step: Step<T>)

  ghost predicate Runs<T(!new)>(c: Config, run: Run<T>, arm: Arm<T>) {
    match run
    case NoStep => arm == Begun(c)
    case More(before, step) => exists m: Arm<T> :: Runs(c, before, m) && Can(c, m, step) && arm == Do(c, m, step)
  }

  predicate Writes(chain: Chain) { chain.Writing? }

  /** The gauge counts the writes in flight. */
  ghost predicate GaugeIsRight<T>(c: Config, arm: Arm<T>) {
    && |arm.pool.runners| <= c.concurrencyA
    && arm.poolActive == InFlight(arm.pool.runners) + (if Writes(arm.chain) then 1 else 0)
    && arm.poolActive <= arm.poolPeak && 1 <= arm.poolPeak <= c.concurrencyA + 1
    && (!arm.active ==> Completed(arm.pool))
  }

  lemma {:induction false} NoneInFlight(runners: seq<Runner>)
    requires forall r | 0 <= r < |runners| :: !IsWorking(runners[r])
    ensures InFlight(runners) == 0
  {
    if runners != [] {
      NoneInFlight(runners[..|runners| - 1]);
    }
  }

  lemma GaugeStep<T>(c: Config, arm: Arm<T>, step: Step<T>)
    requires GaugeIsRight(c, arm) && Can(c, arm, step)
    ensures GaugeIsRight(c, Do(c, arm, step))
  {
    InFlightBound(arm.pool.runners);
    match step {
      case OrgA(a) =>
        InFlightAfter(arm.pool.runners, a.r, After(arm.pool, a).runners[a.r]);
        InFlightBound(After(arm.pool, a).runners);
      case NextRepetition =>
        NoneInFlight(arm.pool.runners);
        var again: Pool<T> := FreshPool(c);
        NoneInFlight(again.runners);
      case _ =>
    }
  }

  /** In every run of an arm the gauge counts exactly the writes in flight, and its peak never exceeds the
      two configured concurrencies together: org A's, and 1 for org B. */
  lemma {:induction false} PeakBound<T(!new)>(c: Config, run: Run<T>, arm: Arm<T>)
    requires Runs(c, run, arm)
    ensures GaugeIsRight(c, arm)
    ensures arm.poolActive <= arm.poolPeak <= c.concurrencyA + 1
  {
    if run.More? {
      var m: Arm<T> :| Runs(c, run.before, m) && Can(c, m, run.step) && arm == Do(c, m, run.step);
      PeakBound(c, run.before, m);
      GaugeStep(c, m, run.step);
    } else {
      var begun: Arm<T> := Begun(c);
      NoneInFlight(begun.pool.runners);
    }
  }
}
