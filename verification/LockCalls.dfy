/** What one call of `withFileLock` does. */
module LockCalls {
  import opened FileLock
  import opened Text

  // ----- one process moves -----

  /** Process `p` does the actions, one after the other, while nobody else moves. */
  function Solo(p: nat, actions: seq<Action>): Trace {
    if actions == [] then Start else Then(Solo(p, actions[..|actions| - 1]), p, actions[|actions| - 1])
  }

  predicate AnyStep(s: State, p: nat, a: Action) { true }

  ghost predicate Leads(s: State, p: nat, actions: seq<Action>, s': State) {
    Reaches(s, Solo(p, actions), s', AnyStep)
  }

  function At(s: State, p: nat, ph: Phase): State
    requires p < |s.phase|
  {
    s.(phase := s.phase[p := ph])
  }

  lemma NoAction(s: State, p: nat)
    ensures Leads(s, p, [], s)
  {
  }

  lemma {:induction false} OneAction(s: State, p: nat, actions: seq<Action>, m: State, a: Action)
    requires Leads(s, p, actions, m) && Enabled(m, p, a)
    ensures Leads(s, p, actions + [a], After(m, p, a))
  {
    hide Enabled, After;
    assert (actions + [a])[..|actions|] == actions;
  }

  lemma {:induction false} ThenMore(s: State, p: nat, first: seq<Action>, m: State, second: seq<Action>, s': State)
    requires Leads(s, p, first, m) && Leads(m, p, second, s')
    ensures Leads(s, p, first + second, s')
    decreases second
  {
    if second == [] {
      assert first + second == first;
    } else {
      hide Enabled, After;
      var (front, a) := (second[..|second| - 1], second[|second| - 1]);
      var k: State :| Reaches(m, Solo(p, front), k, AnyStep) && Enabled(k, p, a) && AnyStep(k, p, a) && s' == After(k, p, a);
      ThenMore(s, p, first, m, front, k);
      OneAction(s, p, first + front, k, a);
      assert first + second == (first + front) + [a];
    }
  }

  /** A run and one more stretch of it are a run. */
  lemma {:induction false} Onward(s0: State, t: Trace, s: State, p: nat, actions: seq<Action>, s': State) returns (t': Trace)
    requires Reaches(s0, t, s, AnyStep) && Leads(s, p, actions, s')
    ensures Reaches(s0, t', s', AnyStep)
    decreases actions
  {
    if actions == [] {
      t' := t;
    } else {
      var (front, a) := (actions[..|actions| - 1], actions[|actions| - 1]);
      var k: State :| Reaches(s, Solo(p, front), k, AnyStep) && Enabled(k, p, a) && AnyStep(k, p, a) && s' == After(k, p, a);
      t' := Onward(s0, t, s, p, front, k);
      t' := Then(t', p, a);
    }
  }

  lemma Two(s: State, p: nat, a: Action, b: Action)
    requires Enabled(s, p, a) && Enabled(After(s, p, a), p, b)
    ensures Leads(s, p, [a, b], After(After(s, p, a), p, b))
  {
    hide Enabled, After, Leads;
    One(s, p, a);
    OneAction(s, p, [a], After(s, p, a), b);
    assert [a] + [b] == [a, b];
  }

  lemma One(s: State, p: nat, a: Action)
    requires Enabled(s, p, a)
    ensures Leads(s, p, [a], After(s, p, a))
  {
    hide Enabled, After, Leads;
    NoAction(s, p);
    OneAction(s, p, [], s, a);
    assert [] + [a] == [a];
  }

  // ----- entering and leaving -----

  /** Coming to a free path: the call enters on a lock of its own. */
  lemma EntersWhenFree(s: State, p: nat)
    requires p < |s.phase| && s.phase[p].Trying? && s.path.None?
    ensures Leads(s, p, [Create, WriteOwner],
                  State(Some(s.unused), s.written + {s.unused}, s.unused + 1, s.phase[p := Inside(s.unused)]))
  {
    hide Leads;
    Two(s, p, Create, WriteOwner);
    assert s.phase[p := Writing(s.unused)][p := Inside(s.unused)] == s.phase[p := Inside(s.unused)];
  }

  lemma Begins(s: State, p: nat)
    requires p < |s.phase| && s.phase[p].Idle?
    ensures Leads(s, p, [Begin], At(s, p, Trying))
  {
    hide Leads;
    One(s, p, Begin);
  }

  /** A holder whose lock is still at the path removes it. */
  lemma ReleaseFrees(s: State, p: nat)
    requires p < |s.phase| && s.phase[p].Inside? && s.path == Some(s.phase[p].lock)
    ensures Leads(s, p, [Finish, ReadBack, Unlink], At(s, p, Idle).(path := None))
  {
    hide Leads;
    var lock := s.phase[p].lock;
    Two(s, p, Finish, ReadBack);
    var m := At(s, p, Unlinking(lock));
    assert After(After(s, p, Finish), p, ReadBack).phase == m.phase;
    One(m, p, Unlink);
    assert After(m, p, Unlink).phase == s.phase[p := Idle];
    ThenMore(s, p, [Finish, ReadBack], m, [Unlink], After(m, p, Unlink));
    assert [Finish, ReadBack] + [Unlink] == [Finish, ReadBack, Unlink];
  }

  /** A holder that finds another lock there, or none, leaves what it finds. */
  lemma LostLockIsLeft(s: State, p: nat)
    requires p < |s.phase| && s.phase[p].Inside? && s.path != Some(s.phase[p].lock)
    ensures Leads(s, p, [Finish, ReadBack], At(s, p, Idle))
  {
    hide Leads;
    Two(s, p, Finish, ReadBack);
    assert After(After(s, p, Finish), p, ReadBack).phase == s.phase[p := Idle];
  }

  /** A whole call on a free path leaves the path free, so the next call, of anybody, can do the same. */
  lemma WholeCall(s: State, p: nat)
    requires p < |s.phase| && s.phase[p].Idle? && s.path.None?
    ensures Leads(s, p, [Begin, Create, WriteOwner, Finish, ReadBack, Unlink],
                  State(None, s.written + {s.unused}, s.unused + 1, s.phase))
  {
    hide Leads;
    Begins(s, p);
    var trying := At(s, p, Trying);
    EntersWhenFree(trying, p);
    var inside := State(Some(s.unused), s.written + {s.unused}, s.unused + 1, trying.phase[p := Inside(s.unused)]);
    ThenMore(s, p, [Begin], trying, [Create, WriteOwner], inside);
    ReleaseFrees(inside, p);
    assert At(inside, p, Idle).phase == s.phase;
    ThenMore(s, p, [Begin] + [Create, WriteOwner], inside, [Finish, ReadBack, Unlink], At(inside, p, Idle).(path := None));
    assert [Begin] + [Create, WriteOwner] + [Finish, ReadBack, Unlink] ==
           [Begin, Create, WriteOwner, Finish, ReadBack, Unlink];
  }

  /** Release and the next call, after any run. */
  lemma ReleasedIsReusable(s0: State, t: Trace, s: State, p: nat, q: nat) returns (t': Trace, s': State)
    requires Reaches(s0, t, s, AnyStep) && p < |s.phase| && s.phase[p].Inside? && s.path == Some(s.phase[p].lock)
    requires q < |s.phase| && (q == p || s.phase[q].Idle?)
    ensures Reaches(s0, t', s', AnyStep)
    ensures s'.path.None? && s'.phase == s.phase[p := Idle] && s'.unused == s.unused + 1
  {
    hide Leads, Reaches;
    ReleaseFrees(s, p);
    var free := At(s, p, Idle).(path := None);
    t' := Onward(s0, t, s, p, [Finish, ReadBack, Unlink], free);
    WholeCall(free, q);
    s' := State(None, free.written + {free.unused}, free.unused + 1, free.phase);
    t' := Onward(s0, t', free, q, [Begin, Create, WriteOwner, Finish, ReadBack, Unlink], s');
  }

  // ----- meeting a lock -----

  /** A lock in the way and not judged stale changes nothing: the call tries again or gives up. */
  lemma WaitsOrGivesUp(s: State, p: nat)
    requires p < |s.phase| && s.phase[p].Trying? && s.path.Some?
    ensures Leads(s, p, [Create, Look, Poll], s)
    ensures Leads(s, p, [Create, Look, GiveUp], At(s, p, Idle))
  {
    hide Leads;
    var seen := if s.path.value in s.written then s.path else None;
    MeetsALock(s, p);
    var m := At(s, p, Looked(seen));
    One(m, p, Poll);
    One(m, p, GiveUp);
    assert After(m, p, Poll).phase == s.phase && After(m, p, GiveUp).phase == s.phase[p := Idle];
    ThenMore(s, p, [Create, Look], m, [Poll], s);
    ThenMore(s, p, [Create, Look], m, [GiveUp], At(s, p, Idle));
    assert [Create, Look] + [Poll] == [Create, Look, Poll] && [Create, Look] + [GiveUp] == [Create, Look, GiveUp];
  }

  /** What is read of the lock in the way: its id, if its creator has written it. */
  lemma MeetsALock(s: State, p: nat)
    requires p < |s.phase| && s.phase[p].Trying? && s.path.Some?
    ensures Leads(s, p, [Create, Look], At(s, p, Looked(if s.path.value in s.written then s.path else None)))
    ensures !Enabled(At(s, p, Looked(None)), p, Judge)
  {
    hide Leads;
    Two(s, p, Create, Look);
    assert After(After(s, p, Create), p, Look).phase ==
           s.phase[p := Looked(if s.path.value in s.written then s.path else None)];
  }

  /** A lock that is judged stale is taken over: whoever left it, the call gets inside. */
  lemma TakesOver(s: State, p: nat)
    requires p < |s.phase| && s.phase[p].Trying? && s.path.Some? && s.path.value in s.written
    ensures Leads(s, p, [Create, Look, Judge, Rename, Compare, Discard, Create, WriteOwner],
                  State(Some(s.unused), s.written + {s.unused}, s.unused + 1, s.phase[p := Inside(s.unused)]))
  {
    hide Leads;
    var i := s.path.value;
    MeetsALock(s, p);
    var m := At(s, p, Looked(Some(i)));
    Two(m, p, Judge, Rename);
    var n := At(s, p, Comparing(i, i)).(path := None);
    assert After(After(m, p, Judge), p, Rename).phase == n.phase;
    Two(n, p, Compare, Discard);
    var k := At(s, p, Trying).(path := None);
    assert After(After(n, p, Compare), p, Discard).phase == k.phase;
    EntersWhenFree(k, p);
    var inside := State(Some(s.unused), s.written + {s.unused}, s.unused + 1, s.phase[p := Inside(s.unused)]);
    assert k.phase[p := Inside(s.unused)] == inside.phase;
    ThenMore(s, p, [Create, Look], m, [Judge, Rename], n);
    ThenMore(s, p, [Create, Look] + [Judge, Rename], n, [Compare, Discard], k);
    ThenMore(s, p, [Create, Look] + [Judge, Rename] + [Compare, Discard], k, [Create, WriteOwner], inside);
    assert [Create, Look] + [Judge, Rename] + [Compare, Discard] + [Create, WriteOwner] ==
           [Create, Look, Judge, Rename, Compare, Discard, Create, WriteOwner];
  }

  /** A takeover that moved another lock than the one judged puts it back, and nothing has changed. */
  lemma OtherLockIsPutBack(s: State, p: nat)
    requires p < |s.phase| && s.phase[p].Judged? && s.path.Some? && s.path.value != s.phase[p].stale
    ensures Leads(s, p, [Rename, Compare, LinkBack, Discard], At(s, p, Trying))
  {
    hide Leads;
    var i := s.path.value;
    Two(s, p, Rename, Compare);
    var m := At(s, p, Restoring(i)).(path := None);
    assert After(After(s, p, Rename), p, Compare).phase == m.phase;
    Two(m, p, LinkBack, Discard);
    assert After(After(m, p, LinkBack), p, Discard).phase == At(s, p, Trying).phase;
    ThenMore(s, p, [Rename, Compare], m, [LinkBack, Discard], At(s, p, Trying));
    assert [Rename, Compare] + [LinkBack, Discard] == [Rename, Compare, LinkBack, Discard];
  }

  /** A lock created meanwhile stays; a takeover that finds nothing to rename starts over. */
  lemma NewLockStays(s: State, p: nat)
    requires p < |s.phase|
    ensures s.phase[p].Restoring? && s.path.Some? ==> Leads(s, p, [LinkBack, Discard], At(s, p, Trying))
    ensures s.phase[p].Judged? && s.path.None? ==> Leads(s, p, [Rename], At(s, p, Trying))
  {
    hide Leads;
    if s.phase[p].Restoring? && s.path.Some? {
      Two(s, p, LinkBack, Discard);
      assert After(After(s, p, LinkBack), p, Discard).phase == s.phase[p := Trying];
    }
    if s.phase[p].Judged? && s.path.None? {
      One(s, p, Rename);
    }
  }

  /** A crash leaves everything as it is, and the process does nothing any more. */
  lemma CrashIsFinal(s: State, p: nat, a: Action)
    requires p < |s.phase| && !s.phase[p].Crashed?
    ensures Leads(s, p, [Crash], At(s, p, Crashed)) && !Enabled(At(s, p, Crashed), p, a)
  {
    hide Leads;
    One(s, p, Crash);
  }

  // ----- in every run -----

  /** A lock only leaves the path by its holder's release or by a takeover's rename. */
  lemma WhoRemoves(s: State, p: nat, a: Action)
    requires Enabled(s, p, a) && s.path.Some? && After(s, p, a).path != s.path
    ensures After(s, p, a).path.None?
    ensures (a.Unlink? && s.phase[p].Unlinking?) || (a.Rename? && s.phase[p].Judged?)
  {
  }

  /** `u` is how `t` began. */
  predicate Begun(u: Trace, t: Trace) { u == t || (t.Then? && Begun(u, t.before)) }

  /** Under any rule: a process about to remove a lock has, earlier in the run, read back its own id. */
  lemma {:induction false} RemovesOnlyWhatItReadBack(s0: State, t: Trace, s: State, rule: Rule, p: nat)
    returns (u: Trace, m: State)
    requires Initial(s0) && Reaches(s0, t, s, rule) && p < |s.phase| && s.phase[p].Unlinking?
    ensures Begun(u, t) && Reaches(s0, u, m, rule)
    ensures p < |m.phase| && m.phase[p] == Leaving(s.phase[p].lock) && m.path == Some(s.phase[p].lock)
  {
    if t.Start? {
      assert false;
    } else {
      var k: State :| Reaches(s0, t.before, k, rule) && Enabled(k, t.p, t.a) && rule(k, t.p, t.a) && s == After(k, t.p, t.a);
      if k.phase[p].Unlinking? {
        hide Enabled, After, Initial;
        OnlyReadBackLeads(k, t.p, t.a, p);
        u, m := RemovesOnlyWhatItReadBack(s0, t.before, k, rule, p);
      } else {
        OnlyReadBackLeads(k, t.p, t.a, p);
        u, m := t.before, k;
      }
    }
  }

  lemma OnlyReadBackLeads(s: State, p: nat, a: Action, q: nat)
    requires Enabled(s, p, a) && q < |s.phase| && After(s, p, a).phase[q].Unlinking?
    ensures var lock := After(s, p, a).phase[q].lock;
            s.phase[q] == Unlinking(lock) || (s.phase[q] == Leaving(lock) && s.path == Some(lock))
  {
  }
}
