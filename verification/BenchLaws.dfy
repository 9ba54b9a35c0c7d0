/** What a whole run of an arm shows: the gauge's peak, and org B's writes. */
module BenchLaws {
  import opened BenchArm
  import opened WorkerPool

  /** The states of a run, one more than its steps. */
  ghost predicate IsPath<T>(c: Config, states: seq<Arm<T>>, steps: seq<Step<T>>) {
    && |states| == |steps| + 1 && states[0] == Begun(c)
    && forall k | 0 <= k < |steps| :: Can(c, states[k], steps[k]) && states[k + 1] == Do(c, states[k], steps[k])
  }

  function LastOf<T>(states: seq<Arm<T>>): Arm<T>
    requires states != []
  {
    states[|states| - 1]
  }

  lemma ShorterPath<T>(c: Config, states: seq<Arm<T>>, steps: seq<Step<T>>)
    requires IsPath(c, states, steps) && steps != []
    ensures IsPath(c, states[..|steps|], steps[..|steps| - 1])
    ensures var before := LastOf(states[..|steps|]);
            && before == states[|steps| - 1] && Can(c, before, steps[|steps| - 1])
            && LastOf(states) == Do(c, before, steps[|steps| - 1])
  {
    hide Do, Can;
  }

  /** Every run goes through the states of a path. */
  lemma {:induction false} PathOfRun<T(!new)>(c: Config, run: Run<T>, arm: Arm<T>)
    returns (states: seq<Arm<T>>, steps: seq<Step<T>>)
    requires Runs(c, run, arm)
    ensures IsPath(c, states, steps) && LastOf(states) == arm
  {
    hide Do, Can;
    if run.More? {
      var m: Arm<T> :| Runs(c, run.before, m) && Can(c, m, run.step) && arm == Do(c, m, run.step);
      var earlier, some := PathOfRun(c, run.before, m);
      states, steps := earlier + [arm], some + [run.step];
    } else {
      states, steps := [Begun(c)], [];
    }
  }

  /** And every path is a run. */
  lemma {:induction false} RunOfPath<T(!new)>(c: Config, states: seq<Arm<T>>, steps: seq<Step<T>>) returns (run: Run<T>)
    requires IsPath(c, states, steps)
    ensures Runs(c, run, LastOf(states))
    decreases |steps|
  {
    hide Do, Can;
    if steps == [] {
      run := NoStep;
    } else {
      ShorterPath(c, states, steps);
      var before := RunOfPath(c, states[..|steps|], steps[..|steps| - 1]);
      run := More(before, steps[|steps| - 1]);
    }
  }

  // ----- the peak -----

  lemma GaugeMoves<T>(c: Config, arm: Arm<T>, step: Step<T>)
    requires Can(c, arm, step) && arm.poolActive <= arm.poolPeak
    ensures var after := Do(c, arm, step);
            after.poolPeak == if after.poolActive > arm.poolPeak then after.poolActive else arm.poolPeak
  {
  }

  /** The peak is the highest count of the run: no state has a higher one, and one has it, or it is the one
      write that seeded the row before the first state. */
  lemma {:induction false} PeakIsHighest<T>(c: Config, states: seq<Arm<T>>, steps: seq<Step<T>>)
    requires IsPath(c, states, steps)
    ensures forall k | 0 <= k < |states| :: states[k].poolActive <= LastOf(states).poolPeak
    ensures LastOf(states).poolPeak == 1 || exists k | 0 <= k < |states| :: states[k].poolActive == LastOf(states).poolPeak
    decreases |steps|
  {
    hide Do, Can;
    if steps != [] {
      var n := |steps|;
      ShorterPath(c, states, steps);
      PeakIsHighest(c, states[..n], steps[..n - 1]);
      GaugeMoves(c, states[n - 1], steps[n - 1]);
      assert forall k | 0 <= k < n :: states[..n][k] == states[k];
    } else {
      Seeded<T>(c);
    }
  }

  lemma Seeded<T>(c: Config)
    ensures var begun: Arm<T> := Begun(c); begun.poolActive == 0 && begun.poolPeak == 1
  {
  }

  // ----- org B -----

  /** How many repetitions were begun after the first. */
  function Renewals<T>(steps: seq<Step<T>>): nat {
    if steps == [] then 0 else Renewals(steps[..|steps| - 1]) + if steps[|steps| - 1].NextRepetition? then 1 else 0
  }

  /** How many writes of org B were finished since the current repetition began. */
  function Finished<T>(steps: seq<Step<T>>): nat {
    if steps == [] then 0
    else
      var last := steps[|steps| - 1];
      if last.NextRepetition? then 0 else Finished(steps[..|steps| - 1]) + if last.FinishB? then 1 else 0
  }

  /** Org A of the current repetition is done. */
  predicate Settled<T>(steps: seq<Step<T>>) {
    && steps != [] && !steps[|steps| - 1].NextRepetition?
    && (steps[|steps| - 1].OrgASettled? || Settled(steps[..|steps| - 1]))
  }

  /** Where org B is: its next write is as far as it has finished writes, it writes below its target only, and
      it is over only once org A is done or the target is reached. */
  ghost predicate OrgBIs<T>(c: Config, steps: seq<Step<T>>, arm: Arm<T>) {
    && arm.repetition == Renewals(steps) && (arm.repetition > 0 ==> arm.repetition < c.repetitions)
    && (arm.active <==> !Settled(steps))
    && (arm.chain.Next? ==> arm.chain.i == Finished(steps) <= c.targetB)
    && (arm.chain.Writing? ==> arm.chain.i == Finished(steps) < c.targetB)
    && (arm.chain.Pausing? ==> arm.chain.i + 1 == Finished(steps) <= c.targetB)
    && (arm.chain.Ended? ==> Settled(steps) || Finished(steps) == c.targetB)
  }

  lemma OneMoreStep<T>(steps: seq<Step<T>>, step: Step<T>)
    ensures var longer := steps + [step];
            && Renewals(longer) == Renewals(steps) + (if step.NextRepetition? then 1 else 0)
            && Finished(longer) == (if step.NextRepetition? then 0 else Finished(steps) + if step.FinishB? then 1 else 0)
            && (Settled(longer) <==> !step.NextRepetition? && (step.OrgASettled? || Settled(steps)))
  {
    var longer := steps + [step];
    assert longer[..|longer| - 1] == steps && longer[|longer| - 1] == step;
  }

  lemma OrgBStep<T>(c: Config, steps: seq<Step<T>>, step: Step<T>, arm: Arm<T>)
    requires OrgBIs(c, steps, arm) && Can(c, arm, step)
    ensures OrgBIs(c, steps + [step], Do(c, arm, step))
  {
    hide After, FreshPool, Renewals, Finished, Settled, InFlight;
    OneMoreStep(steps, step);
  }

  /** In every run org B's writes of a repetition are numbered from 0 in order, at most as many as its target,
      and it stops only at the target or when org A is done. */
  lemma {:induction false} OrgBCounts<T>(c: Config, states: seq<Arm<T>>, steps: seq<Step<T>>)
    requires IsPath(c, states, steps)
    ensures OrgBIs(c, steps, LastOf(states))
    decreases |steps|
  {
    hide Do, Can, OrgBIs;
    if steps == [] {
      OrgBBegins<T>(c);
    } else {
      var n := |steps|;
      ShorterPath(c, states, steps);
      OrgBCounts(c, states[..n], steps[..n - 1]);
      OrgBStep(c, steps[..n - 1], steps[n - 1], states[n - 1]);
      assert steps == steps[..n - 1] + [steps[n - 1]];
    }
  }

  lemma OrgBBegins<T>(c: Config)
    ensures OrgBIs<T>(c, [], Begun(c))
  {
  }

  /** Once org A is done no write begins until the next repetition, and that one begins with none in flight. */
  lemma SettledDrains<T(!new)>(c: Config, run: Run<T>, arm: Arm<T>, step: Step<T>)
    requires Runs(c, run, arm) && !arm.active && Can(c, arm, step)
    ensures Do(c, arm, step).poolActive <= arm.poolActive
    ensures step.NextRepetition? ==> arm.poolActive == 0
  {
    PeakBound(c, run, arm);
    NoneInFlight(arm.pool.runners);
  }
}
