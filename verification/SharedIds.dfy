/** When the lock cannot keep ids apart. */
module SharedIds {
  import opened DeferredWorkLedger
  import opened DwReservation
  import FileLock
  import opened LedgerRuns
  import opened NextDwId
  import opened ReplaceReservation
  import opened Text

  predicate Apart(c: Outcome, d: Outcome)
    requires IsReservation(c) && IsReservation(d)
  {
    c.first + c.call.count <= d.first || d.first + d.call.count <= c.first
  }

  /** No id is handed out twice. */
  ghost predicate IdsApart(history: seq<Outcome>) {
    forall i, j | 0 <= i < j < |history| && IsReservation(history[i]) && IsReservation(history[j]) ::
      Apart(history[i], history[j])
  }

  /** In no run of `n` processes that judge locks honestly, with tidy writers around them, is an id handed
      out twice. */
  ghost predicate KeepsIdsApart(n: nat) {
    forall s0: State, t: Trace, s: State |
      Initial(s0) && |s0.lock.phase| == n && FenceClosed(s0.ledger) && Reaches(s0, t, s, FileLock.Honest, Tidy) ::
      IdsApart(s.history)
  }

  /** Everybody inside has the same call at its start, and nothing was written. */
  ghost predicate AllReady(s0: State, s: State, call: Call) {
    && s.ledger == s0.ledger && s.history == [] && |s.body| == |s.lock.phase|
    && forall p | 0 <= p < |s.body| && s.lock.phase[p].Inside? :: s.body[p] == Ready(call, 1)
  }

  function Lift(p: nat, a: FileLock.Action, call: Call): Action {
    if a.WriteOwner? then Enter(p, call) else LockStep(p, a)
  }

  lemma LiftedStep(s0: State, s: State, p: nat, a: FileLock.Action, call: Call)
    requires AllReady(s0, s, call) && FileLock.Enabled(s.lock, p, a) && !a.Finish? && Checked(call)
    ensures Enabled(s, Lift(p, a, call))
    ensures var s' := After(s, Lift(p, a, call));
            AllReady(s0, s', call) && s'.lock == FileLock.After(s.lock, p, a)
  {
    hide Checked;
  }

  /** A run of the lock in which nobody leaves `fn` is a run here. */
  lemma {:induction false} Lifted(s0: State, lt: FileLock.Trace, l: FileLock.State, call: Call) returns (t: Trace, s: State)
    requires Initial(s0) && FileLock.Reaches(s0.lock, lt, l, FileLock.HonestInside)
    requires call.Reserve? && Checked(call)
    ensures Reaches(s0, t, s, FileLock.Honest, Tidy) && AllReady(s0, s, call) && s.lock == l
  {
    if lt.Start? {
      t, s := Start, s0;
    } else {
      var m: FileLock.State :| FileLock.Reaches(s0.lock, lt.before, m, FileLock.HonestInside)
                               && FileLock.Enabled(m, lt.p, lt.a) && FileLock.HonestInside(m, lt.p, lt.a)
                               && l == FileLock.After(m, lt.p, lt.a);
      hide FileLock.Reaches, Reaches, Checked, FileLock.Honest, Initial, AllReady, Enabled, After, FileLock.Enabled,
        FileLock.After;
      t, s := Lifted(s0, lt.before, m, call);
      var a := Lift(lt.p, lt.a, call);
      LiftedStep(s0, s, lt.p, lt.a, call);
      OneStep(s0, t, s, a, FileLock.Honest, Tidy);
      t, s := Then(t, a), After(s, a);
    }
  }

  /** Two processes inside `fn` that both read, then both allocate, then both append. */
  lemma SameIdTwice(s0: State, t: Trace, s: State, call: Call, p: nat, q: nat) returns (t': Trace, s': State)
    requires Reaches(s0, t, s, FileLock.Honest, Tidy) && Running(s, p) && Running(s, q) && p != q
    requires s.body[p] == s.body[q] == Ready(call, 1) && call.Reserve? && call.count > 0
    requires Trim(s.ledger) != "" && s.history == []
    ensures Reaches(s0, t', s', FileLock.Honest, Tidy)
    ensures |s'.history| == 2 && IsReservation(s'.history[0]) && IsReservation(s'.history[1])
    ensures s'.history[0].first == s'.history[1].first == FirstFree(s.ledger, [])
  {
    hide Reaches, FirstFree, ReservedText, Trim;
    t', s' := BothDo(s0, t, s, Read(p), Read(q));
    t', s' := BothDo(s0, t', s', Allocate(p, []), Allocate(q, []));
    t', s' := BothDo(s0, t', s', Append(p), Append(q));
  }

  lemma BothDo(s0: State, t: Trace, s: State, a: Action, b: Action) returns (t': Trace, s': State)
    requires Reaches(s0, t, s, FileLock.Honest, Tidy) && Enabled(s, a) && Enabled(After(s, a), b)
    requires LockMove(a).None? && LockMove(b).None? && !a.Write? && !b.Write?
    ensures Reaches(s0, t', s', FileLock.Honest, Tidy) && s' == After(After(s, a), b)
  {
    hide Reaches, Enabled, After;
    OneStep(s0, t, s, a, FileLock.Honest, Tidy);
    OneStep(s0, Then(t, a), After(s, a), b, FileLock.Honest, Tidy);
    t', s' := Then(Then(t, a), b), After(After(s, a), b);
  }

  /** Above any fence-closed ledger that is not blank: with three contenders two sessions are told the same
      id. */
  lemma ThreeContendersShareAnId(n: nat, ledger: string, iso: string) returns (s0: State, t: Trace, s: State)
    requires n >= 3 && Trim(ledger) != "" && IsIsoTimestamp(iso)
    ensures Initial(s0) && |s0.lock.phase| == n && s0.ledger == ledger
    ensures Reaches(s0, t, s, FileLock.Honest, Tidy)
    ensures |s.history| == 2 && IsReservation(s.history[0]) && IsReservation(s.history[1])
    ensures s.history[0].first == s.history[1].first == FirstFree(ledger, [])
  {
    hide Reaches, FileLock.Reaches, FileLock.Initial, FirstFree, Trim;
    var lock0, lt, l := FileLock.ThreeContendersBreak(n);
    s0 := State(lock0, ledger, seq(n, _ => Done), []);
    var call := Reserve(DEFAULT_STORY, 1, iso);
    t, s := Lifted(s0, lt, l, call);
    var p, q :| 0 <= p < q < |l.phase| && l.phase[p].Inside? && l.phase[q].Inside?;
    t, s := SameIdTwice(s0, t, s, call, p, q);
  }

  const SOME_LEDGER: string := "Deferred work"

  lemma SomeLedger()
    ensures FenceClosed(SOME_LEDGER) && Trim(SOME_LEDGER) != ""
  {
    hide Trim, Split, FenceAfter, Marker, ToDwHeading;
    assert SOME_LEDGER[0] == 'D' && SOME_LEDGER[|SOME_LEDGER| - 1] == 'k';
    TrimEmpty(SOME_LEDGER);
    SplitOne(SOME_LEDGER, '\n');
    PlainWord(SOME_LEDGER);
    UnfencedLines(None, [SOME_LEDGER], 0);
  }

  lemma ShapeIsTime()
    ensures IsIsoTimestamp(ISO_SHAPE)
  {
  }

  /** The exact bound: when a lock is only judged stale after its owner is gone, no id is handed out twice
      in any tidy run of `n` processes if and only if `n` is at most 2. */
  lemma IdBound(n: nat)
    ensures KeepsIdsApart(n) <==> n <= 2
  {
    if n <= 2 {
      forall s0: State, t: Trace, s: State |
        Initial(s0) && |s0.lock.phase| == n && FenceClosed(s0.ledger) && Reaches(s0, t, s, FileLock.Honest, Tidy)
        ensures IdsApart(s.history)
      {
        TwoKeepApart(s0, t, s);
      }
    } else {
      SomeLedger();
      ShapeIsTime();
      var s0, t, s := ThreeContendersShareAnId(n, SOME_LEDGER, ISO_SHAPE);
      assert !Apart(s.history[0], s.history[1]);
      assert !IdsApart(s.history);
    }
  }

  lemma TwoKeepApart(s0: State, t: Trace, s: State)
    requires Initial(s0) && |s0.lock.phase| <= 2 && FenceClosed(s0.ledger) && Reaches(s0, t, s, FileLock.Honest, Tidy)
    ensures IdsApart(s.history)
  {
    hide Reaches, FenceClosed, FileLock.ExcludesFrom, FileLock.Initial;
    FileLock.TwoContendersExclude(s0.lock);
    forall i, j | 0 <= i < j < |s.history| && IsReservation(s.history[i]) && IsReservation(s.history[j])
      ensures Apart(s.history[i], s.history[j])
    {
      IdsAreUnique(s0, t, s, FileLock.Honest, i);
    }
  }
}
