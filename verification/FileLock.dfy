/** `withFileLock` as a step system. */
module FileLock {
  import opened Text

  /** A lock file is an inode. Its content is empty until its creator writes the owner id, and no two
      creations write the same id, so an id is named by the inode it was written to. */
  type Inode = nat

  /** Where a process is inside `withFileLock`. `lock` is the inode whose id the process owns,
      `seen` the id it read in a lock it met, `stale` the id it judged stale, `aside` the inode it holds at
      its private `.stale.` path. */
  datatype Phase =
    | Idle
    | Trying                                  // about to create the lock
    | Writing(lock: Inode)                    // created it, owner id not yet written
    | Inside(lock: Inode)                     // running `fn`
    | Leaving(lock: Inode)                    // `fn` is over, the lock is not read back yet
    | Unlinking(lock: Inode)                  // read its own id back, about to remove the path
    | Blocked                                 // creation met an existing lock
    | Looked(seen: Option<Inode>)             // read that lock, if it can be read; clock not yet read
    | Judged(stale: Inode)                    // judged that id stale, about to rename
    | Comparing(stale: Inode, aside: Inode)   // renamed, about to read what it moved
    | Restoring(aside: Inode)                 // moved another lock, about to link it back
    | Discarding(aside: Inode)                // about to remove its aside path
    | Crashed

  /** `path` is the inode at the lock path, `written` the inodes whose id is written. */
  datatype State = State(path: Option<Inode>, written: set<Inode>, unused: Inode, phase: seq<Phase>)

  datatype Action =
    | Begin | Create | WriteOwner | Finish | ReadBack | Unlink
    | Look | Poll | GiveUp | Judge | Rename | Compare | LinkBack | Discard
    | Crash

  /** What one process sees and changes: the lock path, and its own phase. */
  datatype View = View(path: Option<Inode>, written: set<Inode>, unused: Inode, phase: Phase)

  predicate Can(v: View, a: Action) {
    match a
    case Begin => v.phase.Idle?
    case Create => v.phase.Trying?
    case WriteOwner => v.phase.Writing?
    case Finish => v.phase.Inside?
    case ReadBack => v.phase.Leaving?
    case Unlink => v.phase.Unlinking?
    case Look => v.phase.Blocked?
    case Poll => v.phase.Looked?
    case GiveUp => v.phase.Looked?
    case Judge => v.phase.Looked? && v.phase.seen.Some?
    case Rename => v.phase.Judged?
    case Compare => v.phase.Comparing?
    case LinkBack => v.phase.Restoring?
    case Discard => v.phase.Discarding?
    case Crash => !v.phase.Crashed?
  }

  function Act(v: View, a: Action): View
    requires Can(v, a)
  {
    var ph := v.phase;
    match a
    case Begin => v.(phase := Trying)
    case Create =>
      if v.path.Some? then v.(phase := Blocked)
      else View(Some(v.unused), v.written, v.unused + 1, Writing(v.unused))
    case WriteOwner => v.(written := v.written + {ph.lock}, phase := Inside(ph.lock))
    case Finish => v.(phase := Leaving(ph.lock))
    case ReadBack => v.(phase := if v.path == Some(ph.lock) then Unlinking(ph.lock) else Idle)
    case Unlink => v.(path := None, phase := Idle)
    case Look => v.(phase := Looked(if v.path.Some? && v.path.value in v.written then v.path else None))
    case Poll => v.(phase := Trying)
    case GiveUp => v.(phase := Idle)
    case Judge => v.(phase := Judged(ph.seen.value))
    case Rename =>
      if v.path.None? then v.(phase := Trying)
      else v.(path := None, phase := Comparing(ph.stale, v.path.value))
    case Compare => v.(phase := if ph.aside == ph.stale then Discarding(ph.aside) else Restoring(ph.aside))
    case LinkBack =>
      v.(path := if v.path.None? then Some(ph.aside) else v.path, phase := Discarding(ph.aside))
    case Discard => v.(phase := Trying)
    case Crash => v.(phase := Crashed)
  }

  function ViewOf(s: State, p: nat): View
    requires p < |s.phase|
  {
    View(s.path, s.written, s.unused, s.phase[p])
  }

  predicate Enabled(s: State, p: nat, a: Action) { p < |s.phase| && Can(ViewOf(s, p), a) }

  function After(s: State, p: nat, a: Action): State
    requires Enabled(s, p, a)
  {
    var v := Act(ViewOf(s, p), a);
    State(v.path, v.written, v.unused, s.phase[p := v.phase])
  }

  /** A run so far: the steps taken, oldest innermost. */
  datatype Trace = Start | Then(before: Trace, p: nat, a: Action)

  type Rule = (State, nat, Action) -> bool

  /** `s` is reached from `s0` by `t`, every step enabled and obeying `rule`. */
  ghost predicate Reaches(s0: State, t: Trace, s: State, rule: Rule) {
    match t
    case Start => s == s0
    case Then(before, p, a) =>
      exists m: State :: Reaches(s0, before, m, rule) && Enabled(m, p, a) && rule(m, p, a) && s == After(m, p, a)
  }

  /** Nobody is inside `withFileLock` yet, some may have crashed before; the lock path is free or holds a
      lock somebody left. */
  ghost predicate Initial(s: State) {
    && (forall p | 0 <= p < |s.phase| :: s.phase[p].Idle? || s.phase[p].Crashed?)
    && (s.path.Some? ==> s.path.value < s.unused)
    && (forall i | i in s.written :: i < s.unused)
  }

  predicate IsOwner(ph: Phase) { ph.Writing? || ph.Inside? || ph.Leaving? || ph.Unlinking? }

  predicate Owns(ph: Phase, i: Inode) { IsOwner(ph) && ph.lock == i }

  /** Some process between creating `i` and having removed it. */
  predicate Live(s: State, i: Inode) {
    exists p | 0 <= p < |s.phase| :: Owns(s.phase[p], i)
  }

  ghost predicate AtMostOneInside(s: State) {
    forall p, q | 0 <= p < q < |s.phase| :: !(s.phase[p].Inside? && s.phase[q].Inside?)
  }

  // ----- assumptions on a run -----

  /** The stale window outlasts every call: a lock is judged stale only once its owner is gone. */
  predicate Honest(s: State, p: nat, a: Action) {
    Enabled(s, p, a) && a.Judge? ==> !Live(s, s.phase[p].seen.value)
  }

  /** The same, and nobody leaves `fn`. */
  predicate HonestInside(s: State, p: nat, a: Action) { Honest(s, p, a) && !a.Finish? }

  /** The weaker assumption that only protects an owner still inside `fn`. */
  predicate HonestInsideOnly(s: State, p: nat, a: Action) {
    Enabled(s, p, a) && a.Judge? ==>
      forall q | 0 <= q < |s.phase| :: !(Owns(s.phase[q], s.phase[p].seen.value) && s.phase[q].Inside?)
  }

  /** No takeover's rename moves a live lock. */
  predicate RenamesOnlyDead(s: State, p: nat, a: Action) {
    a.Rename? && s.path.Some? ==> !Live(s, s.path.value)
  }

  // ----- invariants -----

  /** The phases in which a process relies on the lock path being its own. */
  predicate Critical(ph: Phase) { ph.Writing? || ph.Inside? || ph.Unlinking? }

  ghost predicate WellFormed(s: State) {
    && (s.path.Some? ==> s.path.value < s.unused)
    && (forall i | i in s.written :: i < s.unused)
    && (forall p | 0 <= p < |s.phase| && IsOwner(s.phase[p]) :: s.phase[p].lock < s.unused)
    && (forall p | 0 <= p < |s.phase| && (s.phase[p].Comparing? || s.phase[p].Restoring?) :: s.phase[p].aside < s.unused)
    && (forall p | 0 <= p < |s.phase| && s.phase[p].Looked? && s.phase[p].seen.Some? :: s.phase[p].seen.value < s.unused)
    && (forall p, q | 0 <= p < q < |s.phase| && IsOwner(s.phase[p]) && IsOwner(s.phase[q]) ::
          s.phase[p].lock != s.phase[q].lock)
  }

  /** A step's inodes are the ones its process already had, the one at the path, or a new one. */
  lemma ActKeepsInodes(v: View, a: Action)
    requires Can(v, a)
    ensures var w := Act(v, a);
            && w.unused >= v.unused
            && (w.path.Some? ==> w.path == v.path || (w.path.value == v.unused < w.unused)
                                 || (v.phase.Restoring? && w.path.value == v.phase.aside))
            && (IsOwner(w.phase) ==> (IsOwner(v.phase) && w.phase.lock == v.phase.lock)
                                     || (w.phase.lock == v.unused < w.unused))
            && (w.phase.Comparing? || w.phase.Restoring? ==>
                  v.path == Some(w.phase.aside) || (v.phase.Comparing? && v.phase.aside == w.phase.aside))
            && (w.phase.Looked? && w.phase.seen.Some? ==> w.phase.seen == v.path)
            && (forall i | i in w.written :: i in v.written || (IsOwner(v.phase) && i == v.phase.lock))
  {
  }

  lemma WellFormedStep(s: State, p: nat, a: Action)
    requires WellFormed(s) && Enabled(s, p, a)
    ensures WellFormed(After(s, p, a))
  {
    ActKeepsInodes(ViewOf(s, p), a);
  }

  /** With only dead locks renamed, a critical process's lock stays at the path. */
  ghost predicate Undisturbed(s: State) {
    forall p | 0 <= p < |s.phase| && Critical(s.phase[p]) :: s.path == Some(s.phase[p].lock)
  }

  lemma UndisturbedStep(s: State, p: nat, a: Action)
    requires WellFormed(s) && Undisturbed(s) && Enabled(s, p, a) && RenamesOnlyDead(s, p, a)
    ensures Undisturbed(After(s, p, a))
  {
    var s' := After(s, p, a);
    forall q | 0 <= q < |s'.phase| && Critical(s'.phase[q])
      ensures s'.path == Some(s'.phase[q].lock)
    {
      if q != p {
        assert Owns(s.phase[q], s.phase[q].lock);
      }
    }
  }

  lemma {:induction false} UndisturbedRun(s0: State, t: Trace, s: State)
    requires Initial(s0) && Reaches(s0, t, s, RenamesOnlyDead)
    ensures WellFormed(s) && Undisturbed(s)
  {
    if t.Then? {
      var m: State :| Reaches(s0, t.before, m, RenamesOnlyDead) && Enabled(m, t.p, t.a)
                      && RenamesOnlyDead(m, t.p, t.a) && s == After(m, t.p, t.a);
      UndisturbedRun(s0, t.before, m);
      WellFormedStep(m, t.p, t.a);
      UndisturbedStep(m, t.p, t.a);
    }
  }

  /** Mutual exclusion for any number of processes, whatever they judge stale, as long as no
      takeover's rename moves a live lock. */
  lemma ExclusiveWhenOnlyDeadRenamed(s0: State, t: Trace, s: State)
    requires Initial(s0) && Reaches(s0, t, s, RenamesOnlyDead)
    ensures AtMostOneInside(s)
  {
    UndisturbedRun(s0, t, s);
    forall p, q | 0 <= p < q < |s.phase|
      ensures !(s.phase[p].Inside? && s.phase[q].Inside?)
    {
      assert s.phase[p].Inside? ==> Owns(s.phase[p], s.phase[p].lock);
    }
  }

  /** A process mid-takeover that will put `i` back, or one that crashed and can no longer create. */
  predicate KeepsAside(ph: Phase, i: Inode) {
    || (ph.Comparing? && ph.aside == i && ph.stale != i)
    || (ph.Restoring? && ph.aside == i)
    || ph.Crashed?
  }

  /** Ids judged stale are dead for good; a critical process's lock is at the path, or the path is
      free and everybody else is busy putting that lock back. */
  ghost predicate Guarded(s: State) {
    && (forall q | 0 <= q < |s.phase| && (s.phase[q].Judged? || s.phase[q].Comparing?) ::
          s.phase[q].stale < s.unused && !Live(s, s.phase[q].stale))
    && (forall p | 0 <= p < |s.phase| && Critical(s.phase[p]) ::
          || s.path == Some(s.phase[p].lock)
          || (s.path.None? && forall q | 0 <= q < |s.phase| && q != p :: KeepsAside(s.phase[q], s.phase[p].lock)))
  }

  lemma StaysDead(s: State, p: nat, a: Action, i: Inode)
    requires Enabled(s, p, a) && i < s.unused && !Live(s, i)
    ensures !Live(After(s, p, a), i)
  {
    var s' := After(s, p, a);
    forall q | 0 <= q < |s'.phase|
      ensures !Owns(s'.phase[q], i)
    {
      assert !Owns(s.phase[q], i);
    }
  }

  /** At most two processes have not crashed. */
  ghost predicate TwoContend(s: State) {
    forall p, q, r | 0 <= p < |s.phase| && 0 <= q < |s.phase| && 0 <= r < |s.phase| && p != q && q != r && p != r ::
      s.phase[p].Crashed? || s.phase[q].Crashed? || s.phase[r].Crashed?
  }

  lemma TwoContendStep(s: State, p: nat, a: Action)
    requires TwoContend(s) && Enabled(s, p, a)
    ensures TwoContend(After(s, p, a))
  {
    assert forall q | 0 <= q < |s.phase| && s.phase[q].Crashed? :: After(s, p, a).phase[q].Crashed?;
  }

  lemma {:induction false} GuardedStep(s: State, p: nat, a: Action)
    requires TwoContend(s)
    requires WellFormed(s) && Guarded(s) && Enabled(s, p, a) && Honest(s, p, a)
    ensures Guarded(After(s, p, a))
  {
    var s' := After(s, p, a);
    forall q | 0 <= q < |s'.phase| && (s'.phase[q].Judged? || s'.phase[q].Comparing?)
      ensures s'.phase[q].stale < s'.unused && !Live(s', s'.phase[q].stale)
    {
      StaysDead(s, p, a, s'.phase[q].stale);
    }
    forall q | 0 <= q < |s'.phase| && Critical(s'.phase[q])
      ensures || s'.path == Some(s'.phase[q].lock)
              || (s'.path.None? && forall r | 0 <= r < |s'.phase| && r != q :: KeepsAside(s'.phase[r], s'.phase[q].lock))
    {
      if q != p {
        assert Owns(s.phase[q], s.phase[q].lock);
        assert Critical(s.phase[p]) ==> Owns(s.phase[p], s.phase[p].lock);
      }
    }
  }

  lemma {:induction false} GuardedRun(s0: State, t: Trace, s: State)
    requires Initial(s0) && TwoContend(s0) && Reaches(s0, t, s, Honest)
    ensures TwoContend(s) && WellFormed(s) && Guarded(s)
  {
    if t.Then? {
      var m: State :| Reaches(s0, t.before, m, Honest) && Enabled(m, t.p, t.a)
                      && Honest(m, t.p, t.a) && s == After(m, t.p, t.a);
      hide Initial, TwoContend, WellFormed, Guarded, Honest, Enabled, After, Reaches;
      GuardedRun(s0, t.before, m);
      WellFormedStep(m, t.p, t.a);
      TwoContendStep(m, t.p, t.a);
      GuardedStep(m, t.p, t.a);
    }
  }

  /** Mutual exclusion for two contenders, beside any number of crashed processes and what they left, even
      when a takeover moves a live lock. */
  lemma ExclusiveForTwo(s0: State, t: Trace, s: State)
    requires Initial(s0) && TwoContend(s0) && Reaches(s0, t, s, Honest)
    ensures AtMostOneInside(s)
  {
    GuardedRun(s0, t, s);
    forall p, q | 0 <= p < q < |s.phase|
      ensures !(s.phase[p].Inside? && s.phase[q].Inside?)
    {
      assert s.phase[p].Inside? ==> Owns(s.phase[p], s.phase[p].lock);
    }
  }

  // ----- the takeover window -----

  /** The lock path and the phases of processes 0, 1 and 2; every other process is idle. */
  datatype Scene = Scene(path: Option<Inode>, written: set<Inode>, unused: Inode, a: Phase, b: Phase, c: Phase)

  function Role(x: Scene, k: nat): Phase {
    if k == 0 then x.a else if k == 1 then x.b else if k == 2 then x.c else Idle
  }

  function Cast(x: Scene, n: nat): State {
    State(x.path, x.written, x.unused, seq(n, k requires k >= 0 => Role(x, k)))
  }

  datatype Move = Move(who: nat, action: Action)

  predicate Plays(x: Scene, m: Move, y: Scene) {
    && m.who < 3
    && var v := View(x.path, x.written, x.unused, Role(x, m.who));
    && Can(v, m.action)
    && Act(v, m.action) == View(y.path, y.written, y.unused, Role(y, m.who))
    && forall k | 0 <= k < 3 && k != m.who :: Role(y, k) == Role(x, k)
  }

  /** A rule that only restricts what may be judged stale, and when `fn` may be over. */
  ghost predicate OnJudging(rule: Rule) {
    forall s: State, p: nat, a: Action | !a.Judge? && !a.Finish? :: rule(s, p, a)
  }

  /** A table of scenes joined by legal moves of the first `n` processes continues a run. */
  lemma {:induction false} Script(n: nat, s0: State, t: Trace, scenes: seq<Scene>, moves: seq<Move>, rule: Rule)
    returns (t': Trace)
    requires |scenes| == |moves| + 1 && OnJudging(rule)
    requires Reaches(s0, t, Cast(scenes[0], n), rule)
    requires forall k | 0 <= k < |moves| :: moves[k].who < n && Plays(scenes[k], moves[k], scenes[k + 1])
    requires forall k | 0 <= k < |moves| && (moves[k].action.Judge? || moves[k].action.Finish?) ::
               rule(Cast(scenes[k], n), moves[k].who, moves[k].action)
    ensures Reaches(s0, t', Cast(scenes[|moves|], n), rule)
  {
    if moves == [] {
      t' := t;
    } else {
      var last := |moves| - 1;
      t' := Script(n, s0, t, scenes[..|moves|], moves[..last], rule);
      var (x, m, y) := (scenes[last], moves[last], scenes[|moves|]);
      assert Plays(x, m, y);
      assert After(Cast(x, n), m.who, m.action).phase == Cast(y, n).phase;
      t' := Then(t', m.who, m.action);
    }
  }

  lemma TwoInside(n: nat, x: Scene, p: nat, q: nat)
    requires p < q < n && Role(x, p).Inside? && Role(x, q).Inside?
    ensures !AtMostOneInside(Cast(x, n))
  {
    assert Cast(x, n).phase[p].Inside? && Cast(x, n).phase[q].Inside?;
  }

  /** Lock 0 is what a crashed process left; 0 and 1 have both judged it stale. */
  const BOTH_JUDGED := Scene(Some(0), {0}, 1, Judged(0), Judged(0), Idle)

  lemma BothJudge(n: nat) returns (s0: State, t: Trace)
    requires n >= 3
    ensures Initial(s0) && |s0.phase| == n && Reaches(s0, t, Cast(BOTH_JUDGED, n), HonestInside)
  {
    var scenes := [
      Scene(Some(0), {0}, 1, Idle, Idle, Idle),
      Scene(Some(0), {0}, 1, Trying, Idle, Idle),
      Scene(Some(0), {0}, 1, Blocked, Idle, Idle),
      Scene(Some(0), {0}, 1, Looked(Some(0)), Idle, Idle),
      Scene(Some(0), {0}, 1, Judged(0), Idle, Idle),
      Scene(Some(0), {0}, 1, Judged(0), Trying, Idle),
      Scene(Some(0), {0}, 1, Judged(0), Blocked, Idle),
      Scene(Some(0), {0}, 1, Judged(0), Looked(Some(0)), Idle),
      BOTH_JUDGED
    ];
    var moves := [Move(0, Begin), Move(0, Create), Move(0, Look), Move(0, Judge),
                  Move(1, Begin), Move(1, Create), Move(1, Look), Move(1, Judge)];
    forall k | 0 <= k < |moves| ensures Plays(scenes[k], moves[k], scenes[k + 1]) {
    }
    s0 := Cast(scenes[0], n);
    t := Script(n, s0, Start, scenes, moves, HonestInside);
  }

  /** 0 has taken the stale lock over and is inside `fn`; 1 still means to. */
  const TAKEN_OVER := Scene(Some(1), {0, 1}, 2, Inside(1), Judged(0), Idle)

  lemma TakeOver(n: nat, s0: State, t: Trace) returns (t': Trace)
    requires n >= 3 && Reaches(s0, t, Cast(BOTH_JUDGED, n), HonestInside)
    ensures Reaches(s0, t', Cast(TAKEN_OVER, n), HonestInside)
  {
    hide Reaches;
    var scenes := [
      BOTH_JUDGED,
      Scene(None, {0}, 1, Comparing(0, 0), Judged(0), Idle),
      Scene(None, {0}, 1, Discarding(0), Judged(0), Idle),
      Scene(None, {0}, 1, Trying, Judged(0), Idle),
      Scene(Some(1), {0}, 2, Writing(1), Judged(0), Idle),
      TAKEN_OVER
    ];
    var moves := [Move(0, Rename), Move(0, Compare), Move(0, Discard), Move(0, Create), Move(0, WriteOwner)];
    forall k | 0 <= k < |moves| ensures Plays(scenes[k], moves[k], scenes[k + 1]) {
    }
    t' := Script(n, s0, t, scenes, moves, HonestInside);
  }

  lemma {:induction false} StillHonest(s0: State, t: Trace, s: State)
    requires Reaches(s0, t, s, HonestInside)
    ensures Reaches(s0, t, s, Honest)
  {
    if t.Then? {
      var m: State :| Reaches(s0, t.before, m, HonestInside) && Enabled(m, t.p, t.a)
                      && HonestInside(m, t.p, t.a) && s == After(m, t.p, t.a);
      StillHonest(s0, t.before, m);
    }
  }

  /** Three contenders and one leftover: 0 and 1 both judge lock 0 stale, 0 takes it over and enters,
      1's rename then moves 0's live lock, and 2 creates before 1 has linked it back. */
  lemma ThreeContendersBreak(n: nat) returns (s0: State, t: Trace, s: State)
    requires n >= 3
    ensures Initial(s0) && |s0.phase| == n && Reaches(s0, t, s, HonestInside) && !AtMostOneInside(s)
    ensures Reaches(s0, t, s, Honest)
  {
    hide Cast, Reaches, Initial, AtMostOneInside;
    s0, t := BothJudge(n);
    t := TakeOver(n, s0, t);
    var scenes := [
      TAKEN_OVER,
      Scene(None, {0, 1}, 2, Inside(1), Comparing(0, 1), Idle),
      Scene(None, {0, 1}, 2, Inside(1), Comparing(0, 1), Trying),
      Scene(Some(2), {0, 1}, 3, Inside(1), Comparing(0, 1), Writing(2)),
      Scene(Some(2), {0, 1, 2}, 3, Inside(1), Comparing(0, 1), Inside(2))
    ];
    var moves := [Move(1, Rename), Move(2, Begin), Move(2, Create), Move(2, WriteOwner)];
    forall k | 0 <= k < |moves| ensures Plays(scenes[k], moves[k], scenes[k + 1]) {
    }
    t := Script(n, s0, t, scenes, moves, HonestInside);
    TwoInside(n, scenes[4], 0, 2);
    s := Cast(scenes[4], n);
    StillHonest(s0, t, s);
  }

  /** Every run from `s0` under `rule` keeps at most one process inside `fn`. */
  ghost predicate ExcludesFrom(s0: State, rule: Rule) {
    forall t: Trace, s: State | Reaches(s0, t, s, rule) :: AtMostOneInside(s)
  }

  /** So does every run of `n` processes, whichever of them crashed before. */
  ghost predicate Excludes(n: nat, rule: Rule) {
    forall s0: State | Initial(s0) && |s0.phase| == n :: ExcludesFrom(s0, rule)
  }

  lemma TwoContendersExclude(s0: State)
    requires Initial(s0) && TwoContend(s0)
    ensures ExcludesFrom(s0, Honest)
  {
    forall t: Trace, s: State | Reaches(s0, t, s, Honest)
      ensures AtMostOneInside(s)
    {
      ExclusiveForTwo(s0, t, s);
    }
  }

  /** The exact bound: when a lock is only judged stale after its owner is gone, exclusion holds in
      every run of `n` processes if and only if `n` is at most 2. */
  lemma ExclusionBound(n: nat)
    ensures Excludes(n, Honest) <==> n <= 2
  {
    if n <= 2 {
      forall s0: State | Initial(s0) && |s0.phase| == n
        ensures ExcludesFrom(s0, Honest)
      {
        TwoContendersExclude(s0);
      }
    } else {
      var s0, t, s := ThreeContendersBreak(n);
      assert !ExcludesFrom(s0, Honest);
    }
  }

  /** Process 0 has read its own id back and is about to unlink. */
  const READ_BACK := Scene(Some(0), {0}, 1, Unlinking(0), Idle, Idle)

  lemma ReadItsLockBack(n: nat) returns (s0: State, t: Trace)
    requires n >= 2
    ensures Initial(s0) && |s0.phase| == n && Reaches(s0, t, Cast(READ_BACK, n), HonestInsideOnly)
  {
    var scenes := [
      Scene(None, {}, 0, Idle, Idle, Idle),
      Scene(None, {}, 0, Trying, Idle, Idle),
      Scene(Some(0), {}, 1, Writing(0), Idle, Idle),
      Scene(Some(0), {0}, 1, Inside(0), Idle, Idle),
      Scene(Some(0), {0}, 1, Leaving(0), Idle, Idle),
      READ_BACK
    ];
    var moves := [Move(0, Begin), Move(0, Create), Move(0, WriteOwner), Move(0, Finish), Move(0, ReadBack)];
    forall k | 0 <= k < |moves| ensures Plays(scenes[k], moves[k], scenes[k + 1]) {
    }
    s0 := Cast(scenes[0], n);
    t := Script(n, s0, Start, scenes, moves, HonestInsideOnly);
  }

  /** Meanwhile 1 has judged that lock stale and moved it aside. */
  const MOVED_ASIDE := Scene(None, {0}, 1, Unlinking(0), Discarding(0), Idle)

  lemma MoveAside(n: nat, s0: State, t: Trace) returns (t': Trace)
    requires n >= 2 && Reaches(s0, t, Cast(READ_BACK, n), HonestInsideOnly)
    ensures Reaches(s0, t', Cast(MOVED_ASIDE, n), HonestInsideOnly)
  {
    hide Reaches;
    var scenes := [
      READ_BACK,
      Scene(Some(0), {0}, 1, Unlinking(0), Trying, Idle),
      Scene(Some(0), {0}, 1, Unlinking(0), Blocked, Idle),
      Scene(Some(0), {0}, 1, Unlinking(0), Looked(Some(0)), Idle),
      Scene(Some(0), {0}, 1, Unlinking(0), Judged(0), Idle),
      Scene(None, {0}, 1, Unlinking(0), Comparing(0, 0), Idle),
      MOVED_ASIDE
    ];
    var moves := [Move(1, Begin), Move(1, Create), Move(1, Look), Move(1, Judge), Move(1, Rename), Move(1, Compare)];
    forall k | 0 <= k < |moves| ensures Plays(scenes[k], moves[k], scenes[k + 1]) {
    }
    t' := Script(n, s0, t, scenes, moves, HonestInsideOnly);
  }

  /** 1 is inside `fn` on a lock of its own, which 0's unlink has removed. */
  const UNLINKED := Scene(None, {0, 1}, 2, Idle, Inside(1), Idle)

  lemma UnlinkTheOther(n: nat, s0: State, t: Trace) returns (t': Trace)
    requires n >= 2 && Reaches(s0, t, Cast(MOVED_ASIDE, n), HonestInsideOnly)
    ensures Reaches(s0, t', Cast(UNLINKED, n), HonestInsideOnly)
  {
    hide Reaches;
    var scenes := [
      MOVED_ASIDE,
      Scene(None, {0}, 1, Unlinking(0), Trying, Idle),
      Scene(Some(1), {0}, 2, Unlinking(0), Writing(1), Idle),
      Scene(Some(1), {0, 1}, 2, Unlinking(0), Inside(1), Idle),
      UNLINKED
    ];
    var moves := [Move(1, Discard), Move(1, Create), Move(1, WriteOwner), Move(0, Unlink)];
    forall k | 0 <= k < |moves| ensures Plays(scenes[k], moves[k], scenes[k + 1]) {
    }
    t' := Script(n, s0, t, scenes, moves, HonestInsideOnly);
  }

  /** Protecting only an owner inside `fn` is not enough, even for two processes: a lock taken over
      between its owner's read-back and its unlink makes that unlink remove the new owner's lock. */
  lemma ReleaseWindowBreaks(n: nat) returns (s0: State, t: Trace, s: State)
    requires n >= 2
    ensures Initial(s0) && |s0.phase| == n && Reaches(s0, t, s, HonestInsideOnly) && !AtMostOneInside(s)
  {
    hide Cast, Reaches, Initial, AtMostOneInside;
    s0, t := ReadItsLockBack(n);
    t := MoveAside(n, s0, t);
    t := UnlinkTheOther(n, s0, t);
    var scenes := [
      UNLINKED,
      Scene(None, {0, 1}, 2, Trying, Inside(1), Idle),
      Scene(Some(2), {0, 1}, 3, Writing(2), Inside(1), Idle),
      Scene(Some(2), {0, 1, 2}, 3, Inside(2), Inside(1), Idle)
    ];
    var moves := [Move(0, Begin), Move(0, Create), Move(0, WriteOwner)];
    forall k | 0 <= k < |moves| ensures Plays(scenes[k], moves[k], scenes[k + 1]) {
    }
    t := Script(n, s0, t, scenes, moves, HonestInsideOnly);
    TwoInside(n, scenes[3], 0, 1);
    s := Cast(scenes[3], n);
  }

  lemma {:induction false} SameProcesses(s0: State, t: Trace, s: State, rule: Rule)
    requires Reaches(s0, t, s, rule)
    ensures |s.phase| == |s0.phase|
  {
    if t.Then? {
      var m: State :| Reaches(s0, t.before, m, rule) && Enabled(m, t.p, t.a)
                      && rule(m, t.p, t.a) && s == After(m, t.p, t.a);
      SameProcesses(s0, t.before, m, rule);
    }
  }

  /** The exact bound under the weaker assumption: only a process alone is safe. */
  lemma ReleaseWindowBound(n: nat)
    ensures Excludes(n, HonestInsideOnly) <==> n <= 1
  {
    if n <= 1 {
      forall s0: State, t: Trace, s: State | Initial(s0) && |s0.phase| == n && Reaches(s0, t, s, HonestInsideOnly)
        ensures AtMostOneInside(s)
      {
        SameProcesses(s0, t, s, HonestInsideOnly);
      }
    } else {
      var s0, t, s := ReleaseWindowBreaks(n);
      assert !ExcludesFrom(s0, HonestInsideOnly);
    }
  }

  /** Without renames of live locks there is no bound. */
  lemma OnlyDeadExcludes(s0: State)
    requires Initial(s0)
    ensures ExcludesFrom(s0, RenamesOnlyDead)
  {
    forall t: Trace, s: State | Reaches(s0, t, s, RenamesOnlyDead)
      ensures AtMostOneInside(s)
    {
      ExclusiveWhenOnlyDeadRenamed(s0, t, s);
    }
  }
}
