/** Reserve and replace calls of several processes, step by step. */
module LedgerRuns {
  import opened DeferredWorkLedger
  import opened DwReservation
  import FileLock
  import opened NextDwId
  import opened ReplaceReservation
  import opened SafeEdit
  import opened Text

  /** A call whose arguments passed the checks made before the lock is taken. */
  datatype Call =
    | Reserve(story: string, count: nat, iso: string)
    | Replace(wanted: string, entryText: string)

  predicate Checked(call: Call) {
    match call
    case Reserve(story, count, iso) => IsStory(story) && 1 <= count <= MAX_RESERVE_COUNT && IsIsoTimestamp(iso)
    case Replace(wanted, entryText) => AcceptsEntry(wanted, entryText)
  }

  /** How far a process is in the function it runs under the lock. */
  datatype Body =
    | Ready(call: Call, retries: nat)                              // about to read the ledger
    | Snapshot(call: Call, current: string)                        // reserve: read it, it is not blank
    | Allocated(call: Call, current: string, refs: seq<LedgerSource>, first: nat)  // reserve: knows the first free id
    | Computed(call: Call, before: string, next: string, retries: nat)  // replace: edit computed, temp file written
    | Rechecked(call: Call, next: string)                          // replace: the ledger still was what it read
    | Done

  /** Why a call ended without a write: nothing to reserve in, an edit that was refused, or a ledger that
      changed under the edit once more after the retry. */
  datatype Reason = BlankLedger | EditRefused(error: EditError) | Overtaken

  /** One write to the ledger, or a call that ended without one. */
  datatype Outcome =
    | Appended(call: Call, refs: seq<LedgerSource>, first: nat, text: string)
    | Replaced(call: Call, next: string)
    | Declined(call: Call, why: Reason)
    | Written(content: string)                                     // by someone who takes no lock

  /** Every read, every write and every step of the lock can interleave. */
  datatype State = State(lock: FileLock.State, ledger: string, body: seq<Body>, history: seq<Outcome>)

  datatype Action =
    | LockStep(p: nat, a: FileLock.Action)
    | Enter(p: nat, call: Call)             // the owner id is written, `fn` starts
    | Read(p: nat)
    | Allocate(p: nat, refs: seq<LedgerSource>)
    | Append(p: nat)
    | Compute(p: nat)
    | Recheck(p: nat)
    | Commit(p: nat)
    | Write(content: string)

  predicate Running(s: State, p: nat) {
    p < |s.lock.phase| && p < |s.body| && s.lock.phase[p].Inside?
  }

  predicate Enabled(s: State, a: Action) {
    match a
    case LockStep(p, l) =>
      && p < |s.body| && FileLock.Enabled(s.lock, p, l)
      && !l.WriteOwner? && (l.Finish? ==> s.body[p].Done?)
    case Enter(p, call) => p < |s.body| && FileLock.Enabled(s.lock, p, FileLock.WriteOwner) && Checked(call)
    case Read(p) => Running(s, p) && s.body[p].Ready? && s.body[p].call.Reserve?
    case Allocate(p, _) => Running(s, p) && s.body[p].Snapshot?
    case Append(p) => Running(s, p) && s.body[p].Allocated? && s.body[p].call.Reserve? && s.body[p].call.count > 0
    case Compute(p) => Running(s, p) && s.body[p].Ready? && s.body[p].call.Replace?
    case Recheck(p) => Running(s, p) && s.body[p].Computed?
    case Commit(p) => Running(s, p) && s.body[p].Rechecked?
    case Write(_) => true
  }

  function Edit(call: Call, ledger: string): EditResult
    requires call.Replace?
  {
    ComputeEdit(ledger, ReplaceEdit(call.wanted, call.entryText, ledger), DEFAULT_MAX_SHRINK_RATIO)
  }

  function ReservedText(call: Call, current: string, first: nat): string
    requires call.Reserve? && call.count > 0
  {
    AppendText(current, first, call.count, call.story, call.iso)
  }

  function SetBody(s: State, p: nat, b: Body): State
    requires p < |s.body|
  {
    s.(body := s.body[p := b])
  }

  /** The call of process `p` is over. */
  function Ended(s: State, p: nat, ledger: string, c: Outcome): State
    requires p < |s.body|
  {
    State(s.lock, ledger, s.body[p := Done], s.history + [c])
  }

  function After(s: State, a: Action): State
    requires Enabled(s, a)
  {
    match a
    case LockStep(p, l) => s.(lock := FileLock.After(s.lock, p, l))
    case Enter(p, call) =>
      SetBody(s, p, Ready(call, 1)).(lock := FileLock.After(s.lock, p, FileLock.WriteOwner))
    case Read(p) =>
      var b := s.body[p];
      if Trim(s.ledger) == "" then Ended(s, p, s.ledger, Declined(b.call, BlankLedger))
      else SetBody(s, p, Snapshot(b.call, s.ledger))
    case Allocate(p, refs) =>
      SetBody(s, p, Allocated(s.body[p].call, s.body[p].current, refs, FirstFree(s.ledger, refs)))
    case Append(p) =>
      var b := s.body[p];
      var text := ReservedText(b.call, b.current, b.first);
      Ended(s, p, s.ledger + text, Appended(b.call, b.refs, b.first, text))
    case Compute(p) =>
      var b := s.body[p];
      var edit := Edit(b.call, s.ledger);
      if edit.Edited? then SetBody(s, p, Computed(b.call, s.ledger, edit.content, b.retries))
      else Ended(s, p, s.ledger, Declined(b.call, EditRefused(edit.error)))
    case Recheck(p) =>
      var b := s.body[p];
      if s.ledger == b.before then SetBody(s, p, Rechecked(b.call, b.next))
      else if b.retries > 0 then SetBody(s, p, Ready(b.call, b.retries - 1))
      else Ended(s, p, s.ledger, Declined(b.call, Overtaken))
    case Commit(p) => Ended(s, p, s.body[p].next, Replaced(s.body[p].call, s.body[p].next))
    case Write(content) => s.(ledger := content, history := s.history + [Written(content)])
  }

  datatype Trace = Start | Then(before: Trace, a: Action)

  type World = (State, Action) -> bool

  /** The lock step an action makes, if it makes one. */
  function LockMove(a: Action): Option<(nat, FileLock.Action)> {
    match a
    case LockStep(p, l) => Some((p, l))
    case Enter(p, _) => Some((p, FileLock.WriteOwner))
    case _ => None
  }

  ghost predicate Obeys(s: State, a: Action, rule: FileLock.Rule) {
    LockMove(a).Some? ==> rule(s.lock, LockMove(a).value.0, LockMove(a).value.1)
  }

  ghost predicate Reaches(s0: State, t: Trace, s: State, rule: FileLock.Rule, world: World) {
    match t
    case Start => s == s0
    case Then(before, a) =>
      exists m: State ::
        Reaches(s0, before, m, rule, world) && Enabled(m, a) && Obeys(m, a, rule) && world(m, a) && s == After(m, a)
  }

  ghost predicate Initial(s: State) {
    FileLock.Initial(s.lock) && |s.body| == |s.lock.phase| && s.history == [] 
    && forall p | 0 <= p < |s.body| :: s.body[p].Done?
  }

  // ----- the lock's own run -----

  lemma LockStepOf(s: State, a: Action, rule: FileLock.Rule)
    requires Enabled(s, a) && Obeys(s, a, rule)
    ensures var (move, s') := (LockMove(a), After(s, a));
            && |s'.body| == |s.body|
            && if move.None? then s'.lock == s.lock
               else && FileLock.Enabled(s.lock, move.value.0, move.value.1)
                    && rule(s.lock, move.value.0, move.value.1)
                    && s'.lock == FileLock.After(s.lock, move.value.0, move.value.1)
  {
    hide FileLock.Enabled, FileLock.After, Checked, Edit, FirstFree, ReservedText, Trim;
  }

  lemma {:induction false} LockRun(s0: State, t: Trace, s: State, rule: FileLock.Rule, world: World)
    returns (lt: FileLock.Trace)
    requires Reaches(s0, t, s, rule, world)
    ensures FileLock.Reaches(s0.lock, lt, s.lock, rule)
    ensures |s.body| == |s0.body|
  {
    if t.Start? {
      lt := FileLock.Start;
    } else {
      var m: State :| Reaches(s0, t.before, m, rule, world) && Enabled(m, t.a) && Obeys(m, t.a, rule)
                      && world(m, t.a) && s == After(m, t.a);
      hide Reaches, Enabled, After, Obeys, FileLock.Enabled, FileLock.After;
      lt := LockRun(s0, t.before, m, rule, world);
      LockStepOf(m, t.a, rule);
      var move := LockMove(t.a);
      if move.Some? {
        lt := FileLock.Then(lt, move.value.0, move.value.1);
      }
    }
  }

  /** Whatever makes the lock exclude makes it exclude here. */
  lemma OneRunning(s0: State, t: Trace, s: State, rule: FileLock.Rule, world: World)
    requires Initial(s0) && FileLock.ExcludesFrom(s0.lock, rule) && Reaches(s0, t, s, rule, world)
    ensures FileLock.AtMostOneInside(s.lock) && |s.body| == |s0.body|
  {
    var lt := LockRun(s0, t, s, rule, world);
  }

  // ----- ids -----

  predicate IsReservation(c: Outcome) { c.Appended? && c.call.Reserve? && c.call.count > 0 }

  /** The last id handed out, or `base` before the first one. */
  function LastIssued(base: nat, history: seq<Outcome>): nat {
    if history == [] then base
    else
      var c := history[|history| - 1];
      if IsReservation(c) then c.first + c.call.count - 1 else LastIssued(base, history[..|history| - 1])
  }

  /** Every reservation starts above all ids handed out before it. */
  ghost predicate Ascending(base: nat, history: seq<Outcome>) {
    history == [] ||
    var (before, c) := (history[..|history| - 1], history[|history| - 1]);
    Ascending(base, before) && (IsReservation(c) ==> c.first > LastIssued(base, before))
  }

  lemma {:induction false} AscendingIsDistinct(base: nat, history: seq<Outcome>, i: nat)
    requires Ascending(base, history) && i < |history| && IsReservation(history[i])
    ensures base < history[i].first && history[i].first + history[i].call.count - 1 <= LastIssued(base, history)
    ensures forall j | i < j < |history| && IsReservation(history[j]) ::
              history[i].first + history[i].call.count <= history[j].first
  {
    var last := |history| - 1;
    var before := history[..last];
    if i < last {
      AscendingIsDistinct(base, before, i);
      assert forall j | i < j < last :: before[j] == history[j];
      LastIssuedGrows(base, before);
    } else {
      LastIssuedGrows(base, before);
    }
  }

  lemma {:induction false} LastIssuedGrows(base: nat, history: seq<Outcome>)
    requires Ascending(base, history)
    ensures base <= LastIssued(base, history)
  {
    if history != [] {
      LastIssuedGrows(base, history[..|history| - 1]);
    }
  }

  /** What the people and tools around these calls keep to: no edit of theirs leaves a fence open or
      lowers the highest id, and no entry put in place of a stub leaves a fence open. */
  predicate Tidy(s: State, a: Action) {
    match a
    case Write(content) => FenceClosed(content) && MaxPlainId(content) >= MaxPlainId(s.ledger)
    case Enter(_, call) => call.Replace? ==> FenceAfter(None, EntryLines(call.entryText)).None?
    case _ => true
  }

  /** The ledger text `text` is closed and holds the highest id of `issued`. */
  predicate Holds(text: string, issued: nat) { FenceClosed(text) && issued <= MaxPlainId(text) }

  predicate TidyCall(call: Call) {
    Checked(call) && (call.Replace? ==> FenceAfter(None, EntryLines(call.entryText)).None?)
  }

  predicate BodyHolds(b: Body, issued: nat) {
    match b
    case Ready(call, _) => TidyCall(call)
    case Snapshot(call, _) => TidyCall(call) && call.Reserve?
    case Allocated(call, _, _, first) => TidyCall(call) && call.Reserve? && issued < first
    case Computed(call, _, next, _) => TidyCall(call) && Holds(next, issued)
    case Rechecked(call, next) => TidyCall(call) && Holds(next, issued)
    case Done => true
  }

  ghost predicate IdInvariant(base: nat, s: State) {
    && Ascending(base, s.history)
    && Holds(s.ledger, LastIssued(base, s.history))
    && forall p: nat | Running(s, p) :: BodyHolds(s.body[p], LastIssued(base, s.history))
  }

  lemma AppendHolds(s: State, p: nat, base: nat)
    requires Enabled(s, Append(p)) && IdInvariant(base, s)
    ensures var s' := After(s, Append(p));
            && Ascending(base, s'.history) && Holds(s'.ledger, LastIssued(base, s'.history))
            && LastIssued(base, s'.history) >= LastIssued(base, s.history)
  {
    hide FenceClosed, MaxPlainId, AppendText, IsStory, IsIsoTimestamp;
    var b := s.body[p];
    assert BodyHolds(b, LastIssued(base, s.history));
    ReservationCounts(s.ledger, b.current, b.first, b.call.count, b.call.story, b.call.iso);
    AppendReads(s.ledger, b.current, b.first, b.call.count, b.call.story, b.call.iso);
    var s' := After(s, Append(p));
    assert s'.history[..|s.history|] == s.history;
  }

  lemma ComputedHolds(call: Call, ledger: string, issued: nat)
    requires TidyCall(call) && call.Replace? && Holds(ledger, issued) && Edit(call, ledger).Edited?
    ensures Holds(Edit(call, ledger).content, issued)
  {
    hide FenceClosed, MaxPlainId, ReplaceEdit, AcceptsEntry, FenceAfter, EntryLines;
    EditedIsSound(ledger, ReplaceEdit(call.wanted, call.entryText, ledger));
    EditNeedsStub(call.wanted, call.entryText, ledger);
    ReplaceKeepsMax(ledger, call.wanted, call.entryText);
  }

  lemma EditNeedsStub(wanted: string, entryText: string, ledger: string)
    ensures ReplaceEdit(wanted, entryText, ledger).Some? ==> StubBlock(ledger, wanted).Some?
  {
    hide StubBlock, EntryLines;
  }

  lemma OneOther(s: State, p: nat, q: nat)
    requires FileLock.AtMostOneInside(s.lock) && Running(s, p) && Running(s, q)
    ensures p == q
  {
    assert p < q || q < p || p == q;
  }

  /** Only `Enter` puts a process inside `fn`, and it enters with its call ready. */
  lemma WhoRuns(s: State, a: Action, q: nat)
    requires Enabled(s, a) && Running(After(s, a), q)
    ensures Running(s, q) || (a.Enter? && a.p == q)
  {
    if a.LockStep? {
      assert q != a.p ==> After(s, a).lock.phase[q] == s.lock.phase[q];
    }
  }

  /** A step of the lock, a call that enters, or a write by somebody else. */
  lemma {:induction false} OutsidersHold(s: State, a: Action, base: nat, q: nat)
    requires Enabled(s, a) && IdInvariant(base, s) && Tidy(s, a) && FileLock.AtMostOneInside(s.lock)
    requires Running(After(s, a), q) && (a.LockStep? || a.Enter? || a.Write?)
    ensures BodyHolds(After(s, a).body[q], LastIssued(base, After(s, a).history))
  {
    hide FenceClosed, MaxPlainId, ReplaceEdit, AcceptsEntry, FenceAfter, EntryLines, AppendText, FirstFree,
      IsStory, IsIsoTimestamp, FileLock.After, FileLock.Enabled, FileLock.AtMostOneInside, LastIssued, Ascending;
    WhoRuns(s, a, q);
    if a.Write? {
      OneMoreCommit(base, s.history, Written(a.content));
    }
  }

  /** A step of a reservation. */
  lemma {:induction false} ReserveHolds(s: State, a: Action, base: nat, q: nat)
    requires Enabled(s, a) && IdInvariant(base, s) && Tidy(s, a) && FileLock.AtMostOneInside(s.lock)
    requires Running(After(s, a), q) && (a.Read? || a.Allocate? || a.Append?)
    ensures BodyHolds(After(s, a).body[q], LastIssued(base, After(s, a).history))
  {
    hide FenceClosed, MaxPlainId, ReplaceEdit, AcceptsEntry, FenceAfter, EntryLines, AppendText, FirstFree,
      IsStory, IsIsoTimestamp, FileLock.After, FileLock.Enabled, FileLock.AtMostOneInside, LastIssued, Ascending;
    WhoRuns(s, a, q);
    OneOther(s, a.p, q);
    if a.Allocate? {
      FirstFreeIsAboveTree(s.ledger, a.refs);
    }
  }

  /** A step of a replacement. */
  lemma {:induction false} ReplaceHolds(s: State, a: Action, base: nat, q: nat)
    requires Enabled(s, a) && IdInvariant(base, s) && Tidy(s, a) && FileLock.AtMostOneInside(s.lock)
    requires Running(After(s, a), q) && (a.Compute? || a.Recheck? || a.Commit?)
    ensures BodyHolds(After(s, a).body[q], LastIssued(base, After(s, a).history))
  {
    hide FenceClosed, MaxPlainId, ReplaceEdit, AcceptsEntry, FenceAfter, EntryLines, AppendText, FirstFree,
      IsStory, IsIsoTimestamp, FileLock.After, FileLock.Enabled, FileLock.AtMostOneInside, LastIssued, Ascending;
    WhoRuns(s, a, q);
    OneOther(s, a.p, q);
    if a.Compute? {
      hide ComputeEdit;
      if Edit(s.body[a.p].call, s.ledger).Edited? {
        ComputedHolds(s.body[a.p].call, s.ledger, LastIssued(base, s.history));
      }
    }
  }

  lemma BodiesHold(s: State, a: Action, base: nat, q: nat)
    requires Enabled(s, a) && IdInvariant(base, s) && Tidy(s, a) && FileLock.AtMostOneInside(s.lock)
    requires Running(After(s, a), q)
    ensures BodyHolds(After(s, a).body[q], LastIssued(base, After(s, a).history))
  {
    hide Enabled, After, IdInvariant, Tidy, Running, BodyHolds, LastIssued, FileLock.AtMostOneInside;
    if a.LockStep? || a.Enter? || a.Write? {
      OutsidersHold(s, a, base, q);
    } else if a.Read? || a.Allocate? || a.Append? {
      ReserveHolds(s, a, base, q);
    } else {
      ReplaceHolds(s, a, base, q);
    }
  }

  lemma OneMoreCommit(base: nat, history: seq<Outcome>, c: Outcome)
    requires !IsReservation(c)
    ensures LastIssued(base, history + [c]) == LastIssued(base, history)
    ensures Ascending(base, history + [c]) == Ascending(base, history)
  {
    assert (history + [c])[..|history|] == history;
  }

  lemma HistoryHolds(s: State, a: Action, base: nat)
    requires Enabled(s, a) && IdInvariant(base, s) && Tidy(s, a)
    ensures Ascending(base, After(s, a).history)
    ensures Holds(After(s, a).ledger, LastIssued(base, After(s, a).history))
  {
    hide FenceClosed, MaxPlainId, ReplaceEdit, AcceptsEntry, FenceAfter, EntryLines, AppendText, FirstFree, LastIssued,
      Ascending, FileLock.After, FileLock.Enabled, ComputeEdit, Trim;
    match a {
      case Append(p) => AppendHolds(s, p, base);
      case Commit(p) => OneMoreCommit(base, s.history, Replaced(s.body[p].call, s.body[p].next));
      case Write(content) => OneMoreCommit(base, s.history, Written(content));
      case Read(p) => OneMoreCommit(base, s.history, Declined(s.body[p].call, BlankLedger));
      case Compute(p) =>
        var edit := Edit(s.body[p].call, s.ledger);
        if edit.Refused? {
          OneMoreCommit(base, s.history, Declined(s.body[p].call, EditRefused(edit.error)));
        }
      case Recheck(p) => OneMoreCommit(base, s.history, Declined(s.body[p].call, Overtaken));
      case _ =>
    }
  }

  lemma IdStep(s: State, a: Action, base: nat)
    requires Enabled(s, a) && IdInvariant(base, s) && Tidy(s, a) && FileLock.AtMostOneInside(s.lock)
    ensures IdInvariant(base, After(s, a))
  {
    hide Enabled, After, Holds, BodyHolds, LastIssued, Ascending, FileLock.AtMostOneInside, Tidy;
    HistoryHolds(s, a, base);
    forall q: nat | Running(After(s, a), q)
      ensures BodyHolds(After(s, a).body[q], LastIssued(base, After(s, a).history))
    {
      BodiesHold(s, a, base, q);
    }
  }

  lemma {:induction false} IdRun(s0: State, t: Trace, s: State, rule: FileLock.Rule)
    requires Initial(s0) && FenceClosed(s0.ledger) && FileLock.ExcludesFrom(s0.lock, rule)
    requires Reaches(s0, t, s, rule, Tidy)
    ensures IdInvariant(MaxPlainId(s0.ledger), s)
  {
    hide FenceClosed, MaxPlainId, FileLock.ExcludesFrom;
    if t.Then? {
      var m: State :| Reaches(s0, t.before, m, rule, Tidy) && Enabled(m, t.a) && Obeys(m, t.a, rule)
                      && Tidy(m, t.a) && s == After(m, t.a);
      IdRun(s0, t.before, m, rule);
      OneRunning(s0, t.before, m, rule, Tidy);
      IdStep(m, t.a, MaxPlainId(s0.ledger));
    }
  }

  /** In every run in which the lock excludes, all ids ever handed out are distinct: each reservation
      starts above every id handed out before it and above the ledger it began with, and the ledger's
      own maximum stays at or above all of them. */
  lemma IdsAreUnique(s0: State, t: Trace, s: State, rule: FileLock.Rule, i: nat)
    requires Initial(s0) && FenceClosed(s0.ledger) && FileLock.ExcludesFrom(s0.lock, rule)
    requires Reaches(s0, t, s, rule, Tidy)
    requires i < |s.history| && IsReservation(s.history[i])
    ensures MaxPlainId(s0.ledger) < s.history[i].first
    ensures s.history[i].first + s.history[i].call.count - 1 <= MaxPlainId(s.ledger)
    ensures forall j | i < j < |s.history| && IsReservation(s.history[j]) ::
              s.history[i].first + s.history[i].call.count <= s.history[j].first
  {
    hide FenceClosed, MaxPlainId, FileLock.ExcludesFrom;
    IdRun(s0, t, s, rule);
    AscendingIsDistinct(MaxPlainId(s0.ledger), s.history, i);
  }

  // ----- runs -----

  predicate AnyWorld(s: State, a: Action) { true }

  lemma {:induction false} InAnyWorld(s0: State, t: Trace, s: State, rule: FileLock.Rule, world: World)
    requires Reaches(s0, t, s, rule, world)
    ensures Reaches(s0, t, s, rule, AnyWorld)
  {
    if t.Then? {
      var m: State :| Reaches(s0, t.before, m, rule, world) && Enabled(m, t.a) && Obeys(m, t.a, rule)
                      && world(m, t.a) && s == After(m, t.a);
      InAnyWorld(s0, t.before, m, rule, world);
    }
  }

  lemma {:induction false} OneStep(s0: State, t: Trace, s: State, a: Action, rule: FileLock.Rule, world: World)
    requires Reaches(s0, t, s, rule, world) && Enabled(s, a) && Obeys(s, a, rule) && world(s, a)
    ensures Reaches(s0, Then(t, a), After(s, a), rule, world)
  {
    hide Enabled, After, Obeys;
  }
}
