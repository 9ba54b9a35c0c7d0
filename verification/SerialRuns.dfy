/** Ledger runs as calls made one after the other. */
module SerialRuns {
  import opened DeferredWorkLedger
  import opened DwReservation
  import FileLock
  import opened LedgerRuns
  import opened NextDwId
  import opened ReplaceReservation
  import opened SafeEdit
  import opened Text

  // ----- one call at a time -----

  /** The ledger after an outcome. */
  function Apply(ledger: string, c: Outcome): string {
    match c
    case Appended(_, _, _, text) => ledger + text
    case Replaced(_, next) => next
    case Declined(_, _) => ledger
    case Written(content) => content
  }

  /** Run alone on `ledger`, the call has exactly this outcome. */
  predicate MadeAlone(ledger: string, c: Outcome) {
    match c
    case Appended(call, refs, first, text) =>
      && IsReservation(c) && Checked(call) && Trim(ledger) != ""
      && first == FirstFree(ledger, refs) && text == ReservedText(call, ledger, first)
    case Replaced(call, next) => call.Replace? && Checked(call) && Edit(call, ledger) == Edited(next)
    case Declined(call, BlankLedger) => call.Reserve? && Checked(call) && Trim(ledger) == ""
    case Declined(call, EditRefused(error)) => call.Replace? && Checked(call) && Edit(call, ledger) == Refused(error)
    case Declined(call, Overtaken) => false
    case Written(_) => true
  }

  function Replay(ledger: string, history: seq<Outcome>): string {
    if history == [] then ledger else Apply(Replay(ledger, history[..|history| - 1]), history[|history| - 1])
  }

  predicate IsOvertaken(c: Outcome) { c.Declined? && c.why.Overtaken? }

  /** Every outcome is the one its call has alone on the ledger the earlier ones left, except that of a
      call that gave up because others kept writing; it leaves the ledger alone. */
  ghost predicate Serial(ledger: string, history: seq<Outcome>) {
    history == [] ||
    var (before, c) := (history[..|history| - 1], history[|history| - 1]);
    Serial(ledger, before) && (IsOvertaken(c) || MadeAlone(Replay(ledger, before), c))
  }

  lemma OneMore(ledger: string, history: seq<Outcome>, c: Outcome)
    ensures Replay(ledger, history + [c]) == Apply(Replay(ledger, history), c)
    ensures Serial(ledger, history + [c]) <==>
            Serial(ledger, history) && (IsOvertaken(c) || MadeAlone(Replay(ledger, history), c))
  {
    hide MadeAlone, Apply;
    assert (history + [c])[..|history|] == history;
  }

  // ----- what others may write -----

  /** All that a reservation uses of the version it read, besides the ids: it is not blank, and how it
      ends. */
  predicate SameTail(current: string, content: string) {
    && Trim(content) != ""
    && (EndsWith(content, "\n") <==> EndsWith(current, "\n"))
    && (EndsInReservedSection(content) <==> EndsInReservedSection(current))
  }

  /** A write of `content` that leaves alone what the call relies on: for a reservation from its read to
      its append how the ledger ends, and, once the first id is known, that id; for a replacement from its
      re-check to its rename everything but the stub's block. */
  predicate Spares(b: Body, ledger: string, content: string) {
    match b
    case Snapshot(_, current) => SameTail(current, content)
    case Allocated(_, current, refs, first) => SameTail(current, content) && FirstFree(content, refs) == first
    case Rechecked(call, next) =>
      call.Replace? && SameElsewhere(call.wanted, EntryLines(call.entryText), ledger, content) && Sound(content, next)
    case _ => true
  }

  /** Whoever else writes the ledger spares every running call. */
  predicate Polite(s: State, a: Action) {
    a.Write? ==> forall p | 0 <= p < |s.body| && Running(s, p) :: Spares(s.body[p], s.ledger, a.content)
  }

  predicate BodyCurrent(b: Body, ledger: string) {
    match b
    case Ready(call, _) => Checked(call)
    case Snapshot(call, current) => Checked(call) && call.Reserve? && SameTail(current, ledger)
    case Allocated(call, current, refs, first) =>
      Checked(call) && call.Reserve? && SameTail(current, ledger) && FirstFree(ledger, refs) == first
    case Computed(call, before, next, _) => MadeAlone(before, Replaced(call, next))
    case Rechecked(call, next) => MadeAlone(ledger, Replaced(call, next))
    case Done => true
  }

  /** A replacement gives the same text on two ledgers exactly when they are the same elsewhere, and the
      text is sound on the other one too. */
  lemma SameResultExactly(call: Call, next: string, a: string, b: string)
    requires call.Replace? && Edit(call, a) == Edited(next)
    ensures Edit(call, b) == Edited(next) <==>
            SameElsewhere(call.wanted, EntryLines(call.entryText), a, b) && Sound(b, next)
  {
    hide ReplaceEdit, StubBlock, Sound, SameElsewhere, ComputeEdit;
    EditedIsSound(a, ReplaceEdit(call.wanted, call.entryText, a));
    EditedIsSound(b, ReplaceEdit(call.wanted, call.entryText, b));
    EditNeedsStub(call.wanted, call.entryText, a);
    SameEditExactly(call.wanted, call.entryText, a, b);
  }

  /** Sparing a call is exactly leaving its state current. */
  lemma SparedStaysCurrent(b: Body, ledger: string, content: string)
    requires BodyCurrent(b, ledger)
    ensures BodyCurrent(b, content) <==> Spares(b, ledger, content)
  {
    hide Edit, Checked, FirstFree, SameTail, SameElsewhere, Sound;
    if b.Rechecked? {
      SameResultExactly(b.call, b.next, ledger, content);
    }
  }

  ghost predicate BodiesCurrent(s: State) { forall p: nat | Running(s, p) :: BodyCurrent(s.body[p], s.ledger) }

  ghost predicate SerialInvariant(s0: State, s: State) {
    Serial(s0.ledger, s.history) && s.ledger == Replay(s0.ledger, s.history) && BodiesCurrent(s)
  }

  // ----- every step keeps a run serial -----

  lemma OutsidersCurrent(s: State, a: Action, q: nat)
    requires Enabled(s, a) && BodiesCurrent(s) && Polite(s, a)
    requires Running(After(s, a), q) && (a.LockStep? || a.Enter? || a.Write?)
    ensures BodyCurrent(After(s, a).body[q], After(s, a).ledger)
  {
    hide BodyCurrent, Spares, Checked, FileLock.After, FileLock.Enabled;
    WhoRuns(s, a, q);
    if a.Write? {
      SparedStaysCurrent(s.body[q], s.ledger, a.content);
    } else if a.Enter? {
      ReadyIsCurrent(a.call, 1, s.ledger);
    }
  }

  lemma ReadyIsCurrent(call: Call, retries: nat, ledger: string)
    ensures BodyCurrent(Ready(call, retries), ledger) <==> Checked(call)
    ensures BodyCurrent(Done, ledger)
  {
  }

  lemma ReserveCurrent(s: State, a: Action, q: nat)
    requires Enabled(s, a) && BodiesCurrent(s) && FileLock.AtMostOneInside(s.lock)
    requires Running(After(s, a), q) && (a.Read? || a.Allocate? || a.Append?)
    ensures BodyCurrent(After(s, a).body[q], After(s, a).ledger)
  {
    hide Edit, Checked, FirstFree, ReservedText, EndsInReservedSection, EndsWith, Trim, MadeAlone, FileLock.AtMostOneInside;
    WhoRuns(s, a, q);
    OneOther(s, a.p, q);
    assert BodyCurrent(s.body[q], s.ledger);
  }

  lemma ReplaceCurrent(s: State, a: Action, q: nat)
    requires Enabled(s, a) && BodiesCurrent(s) && FileLock.AtMostOneInside(s.lock)
    requires Running(After(s, a), q) && (a.Compute? || a.Recheck? || a.Commit?)
    ensures BodyCurrent(After(s, a).body[q], After(s, a).ledger)
  {
    hide Edit, Checked, FileLock.AtMostOneInside;
    WhoRuns(s, a, q);
    OneOther(s, a.p, q);
    assert BodyCurrent(s.body[q], s.ledger);
  }

  lemma BodiesStayCurrent(s: State, a: Action)
    requires Enabled(s, a) && BodiesCurrent(s) && Polite(s, a) && FileLock.AtMostOneInside(s.lock)
    ensures BodiesCurrent(After(s, a))
  {
    hide Enabled, After, Polite, BodyCurrent, FileLock.AtMostOneInside;
    forall q: nat | Running(After(s, a), q)
      ensures BodyCurrent(After(s, a).body[q], After(s, a).ledger)
    {
      if a.LockStep? || a.Enter? || a.Write? {
        OutsidersCurrent(s, a, q);
      } else if a.Read? || a.Allocate? || a.Append? {
        ReserveCurrent(s, a, q);
      } else {
        ReplaceCurrent(s, a, q);
      }
    }
  }

  lemma SameStubText(call: Call, current: string, ledger: string, first: nat)
    requires call.Reserve? && call.count > 0
    ensures SameTail(current, ledger) ==> ReservedText(call, current, first) == ReservedText(call, ledger, first)
    ensures Trim(ledger) != "" && ReservedText(call, current, first) == ReservedText(call, ledger, first) ==> SameTail(current, ledger)
  {
    hide AppendText, EndsWith, EndsInReservedSection, Trim;
    AppendTextExactly(current, ledger, first, call.count, call.story, call.iso);
  }

  /** The step adds at most one outcome; it is what its call has alone, unless the call is overtaken. */
  lemma OutcomeAlone(s: State, a: Action)
    requires Enabled(s, a) && BodiesCurrent(s)
    ensures var s' := After(s, a);
            if s'.history == s.history then s'.ledger == s.ledger
            else
              && |s'.history| == |s.history| + 1 && s'.history == s.history + [s'.history[|s.history|]]
              && var c := s'.history[|s.history|];
                 s'.ledger == Apply(s.ledger, c) && (IsOvertaken(c) || MadeAlone(s.ledger, c))
  {
    hide Edit, FirstFree, ReservedText, SameTail, Trim, FileLock.After, FileLock.Enabled, IsStory, IsIsoTimestamp, AcceptsEntry;
    if !a.LockStep? && !a.Enter? && !a.Write? {
      assert BodyCurrent(s.body[a.p], s.ledger);
      if a.Append? {
        var b := s.body[a.p];
        SameStubText(b.call, b.current, s.ledger, b.first);
        NotBlank(b.current, s.ledger);
      }
    }
  }

  lemma NotBlank(current: string, ledger: string)
    requires SameTail(current, ledger)
    ensures Trim(ledger) != ""
  {
  }

  lemma SerialStep(s: State, a: Action, s0: State)
    requires Enabled(s, a) && SerialInvariant(s0, s) && Polite(s, a) && FileLock.AtMostOneInside(s.lock)
    ensures SerialInvariant(s0, After(s, a))
  {
    hide Enabled, After, Polite, Running, BodyCurrent, MadeAlone, Apply, Serial, Replay, FileLock.AtMostOneInside;
    BodiesStayCurrent(s, a);
    OutcomeAlone(s, a);
    var s' := After(s, a);
    if s'.history != s.history {
      OneMore(s0.ledger, s.history, s'.history[|s.history|]);
    }
  }

  /** Linearizability: however the steps interleave, the ledger is what the calls leave when run one after
      the other in the order of their outcomes, each with the outcome it has alone, refusals included. */
  lemma {:induction false} RunsAreSerial(s0: State, t: Trace, s: State, rule: FileLock.Rule)
    requires Initial(s0) && FileLock.ExcludesFrom(s0.lock, rule) && Reaches(s0, t, s, rule, Polite)
    ensures Serial(s0.ledger, s.history) && s.ledger == Replay(s0.ledger, s.history)
    ensures SerialInvariant(s0, s)
  {
    hide FileLock.ExcludesFrom;
    if t.Then? {
      var m: State :| Reaches(s0, t.before, m, rule, Polite) && Enabled(m, t.a) && Obeys(m, t.a, rule)
                      && Polite(m, t.a) && s == After(m, t.a);
      hide Enabled, After, Obeys, Polite, BodyCurrent, Serial, Replay, Initial;
      RunsAreSerial(s0, t.before, m, rule);
      OneRunning(s0, t.before, m, rule, Polite);
      SerialStep(m, t.a, s0);
    }
  }

  lemma {:induction false} EachMadeAlone(ledger: string, history: seq<Outcome>, k: nat)
    requires Serial(ledger, history) && k < |history|
    ensures IsOvertaken(history[k]) || MadeAlone(Replay(ledger, history[..k]), history[k])
    ensures Replay(ledger, history[..k + 1]) == Apply(Replay(ledger, history[..k]), history[k])
  {
    hide MadeAlone, Apply;
    var last := |history| - 1;
    if k < last {
      EachMadeAlone(ledger, history[..last], k);
      assert history[..last][..k] == history[..k] && history[..last][..k + 1] == history[..k + 1];
    } else {
      assert history[..k + 1] == history && history[..k + 1][..k] == history[..k];
    }
  }

  /** Every version of the ledger a call commits is sound next to the version it replaces: not blank,
      and not cut below the tolerated share. */
  lemma VersionsAreSound(s0: State, t: Trace, s: State, rule: FileLock.Rule, k: nat)
    requires Initial(s0) && FileLock.ExcludesFrom(s0.lock, rule) && Reaches(s0, t, s, rule, Polite)
    requires k < |s.history| && (s.history[k].Appended? || s.history[k].Replaced?)
    ensures Sound(Replay(s0.ledger, s.history[..k]), Replay(s0.ledger, s.history[..k + 1]))
  {
    hide FileLock.ExcludesFrom, Replay, Serial, ReplaceEdit, AppendText, FirstFree, ComputeEdit, Sound;
    RunsAreSerial(s0, t, s, rule);
    EachMadeAlone(s0.ledger, s.history, k);
    var (before, c) := (Replay(s0.ledger, s.history[..k]), s.history[k]);
    if c.Appended? {
      LongerIsSound(before, c.text);
    } else {
      EditedIsSound(before, ReplaceEdit(c.call.wanted, c.call.entryText, before));
    }
  }

  lemma LongerIsSound(before: string, tail: string)
    requires Trim(before) != ""
    ensures Sound(before, before + tail)
  {
    hide Trim, ByteLength;
    TrimEmpty(before);
    ByteLengthConcat(before, tail);
    var k :| 0 <= k < |before| && !IsSpace(before[k]);
    assert (before + tail)[k] == before[k];
  }

  // ----- the lock's bounds, applied -----

  /** Two contenders beside any number of crashed processes: every run is serial. */
  lemma TwoContendersAreSerial(s0: State, t: Trace, s: State)
    requires Initial(s0) && FileLock.TwoContend(s0.lock) && Reaches(s0, t, s, FileLock.Honest, Polite)
    ensures Serial(s0.ledger, s.history) && s.ledger == Replay(s0.ledger, s.history)
  {
    FileLock.TwoContendersExclude(s0.lock);
    RunsAreSerial(s0, t, s, FileLock.Honest);
  }

  /** Any number of processes, as long as no takeover moves a live lock: every run is serial. */
  lemma ManyProcessesAreSerial(s0: State, t: Trace, s: State)
    requires Initial(s0) && Reaches(s0, t, s, FileLock.RenamesOnlyDead, Polite)
    ensures Serial(s0.ledger, s.history) && s.ledger == Replay(s0.ledger, s.history)
  {
    FileLock.OnlyDeadExcludes(s0.lock);
    RunsAreSerial(s0, t, s, FileLock.RenamesOnlyDead);
  }

  // ----- and no other write does -----

  /** How a running call goes on to its commit. */
  function ToCommit(b: Body, p: nat, refs: seq<LedgerSource>): seq<Action> {
    match b
    case Snapshot(_, _) => [Allocate(p, refs), Append(p)]
    case Allocated(_, _, _, _) => [Append(p)]
    case Rechecked(_, _) => [Commit(p)]
    case _ => []
  }

  predicate ReliesOnLedger(b: Body) { b.Snapshot? || b.Allocated? || b.Rechecked? }

  /** What the call commits after `content` has been written. */
  function Committed(b: Body, content: string, refs: seq<LedgerSource>): Outcome
    requires ReliesOnLedger(b)
    requires !b.Rechecked? ==> b.call.Reserve? && b.call.count > 0
  {
    match b
    case Snapshot(call, current) =>
      var first := FirstFree(content, refs);
      Appended(call, refs, first, ReservedText(call, current, first))
    case Allocated(call, current, known, first) => Appended(call, known, first, ReservedText(call, current, first))
    case Rechecked(call, next) => Replaced(call, next)
  }

  function Extended(t: Trace, actions: seq<Action>): Trace {
    if actions == [] then t else Then(Extended(t, actions[..|actions| - 1]), actions[|actions| - 1])
  }

  /** The run goes on with a write by somebody else, and then with the call up to its commit. */
  lemma LateWrite(s0: State, t: Trace, s: State, rule: FileLock.Rule, p: nat, content: string, refs: seq<LedgerSource>)
    returns (s': State)
    requires Reaches(s0, t, s, rule, AnyWorld) && Running(s, p) && ReliesOnLedger(s.body[p])
    requires !s.body[p].Rechecked? ==> s.body[p].call.Reserve? && s.body[p].call.count > 0
    ensures Reaches(s0, Extended(Then(t, Write(content)), ToCommit(s.body[p], p, refs)), s', rule, AnyWorld)
    ensures s'.history == s.history + [Written(content)] + [Committed(s.body[p], content, refs)]
    ensures s'.ledger == Apply(content, Committed(s.body[p], content, refs))
  {
    hide ReservedText, FirstFree, Reaches;
    OneStep(s0, t, s, Write(content), rule, AnyWorld);
    var t', w := Then(t, Write(content)), After(s, Write(content));
    var b := s.body[p];
    if b.Snapshot? {
      OneStep(s0, t', w, Allocate(p, refs), rule, AnyWorld);
      var v := After(w, Allocate(p, refs));
      OneStep(s0, Then(t', Allocate(p, refs)), v, Append(p), rule, AnyWorld);
      s' := After(v, Append(p));
      ExtendedBy(t', Allocate(p, refs), Append(p));
    } else {
      var last := if b.Rechecked? then Commit(p) else Append(p);
      OneStep(s0, t', w, last, rule, AnyWorld);
      s' := After(w, last);
      ExtendedBy(t', last, last);
    }
  }

  lemma ExtendedBy(t: Trace, a: Action, b: Action)
    ensures Extended(t, [a]) == Then(t, a) && Extended(t, [a, b]) == Then(Then(t, a), b)
  {
    assert [a][..0] == [] && [a, b][..1] == [a];
  }

  /** The call has its outcome alone on what was written exactly when the write spared it. */
  lemma SparedCommits(b: Body, ledger: string, content: string, refs: seq<LedgerSource>)
    requires BodyCurrent(b, ledger) && ReliesOnLedger(b)
    requires !b.Rechecked? ==> b.call.Reserve? && b.call.count > 0
    ensures MadeAlone(content, Committed(b, content, refs)) <==> Spares(b, ledger, content)
  {
    hide FirstFree, ReservedText, Trim, Edit, SameElsewhere, Sound, SameTail, IsStory, IsIsoTimestamp, AcceptsEntry;
    match b
    case Snapshot(call, current) =>
      SameStubText(call, current, content, FirstFree(content, refs));
      OnlyText(current, content);
    case Allocated(call, current, _, first) =>
      SameStubText(call, current, content, first);
      OnlyText(current, content);
    case Rechecked(call, next) => SameResultExactly(call, next, ledger, content);
  }

  lemma OnlyText(current: string, content: string)
    ensures SameTail(current, content) ==> Trim(content) != ""
  {
  }

  /** The exact rule. A call that relies on the ledger goes on to its commit after somebody else's write:
      the run stays serial if and only if the write spared the call. */
  lemma LateWriteDecides(s0: State, t: Trace, s: State, rule: FileLock.Rule, p: nat, content: string,
                         refs: seq<LedgerSource>) returns (s': State)
    requires Initial(s0) && FileLock.ExcludesFrom(s0.lock, rule) && Reaches(s0, t, s, rule, Polite)
    requires Running(s, p) && ReliesOnLedger(s.body[p])
    ensures Reaches(s0, Extended(Then(t, Write(content)), ToCommit(s.body[p], p, refs)), s', rule, AnyWorld)
    ensures s'.ledger == Replay(s0.ledger, s'.history)
    ensures Serial(s0.ledger, s'.history) <==> Spares(s.body[p], s.ledger, content)
  {
    hide FileLock.ExcludesFrom, Reaches, MadeAlone, Serial, Replay, Spares, Committed;
    RunsAreSerial(s0, t, s, rule);
    InAnyWorld(s0, t, s, rule, Polite);
    var b := s.body[p];
    CurrentCall(b, s.ledger);
    s' := LateWrite(s0, t, s, rule, p, content, refs);
    var written := s.history + [Written(content)];
    OneMore(s0.ledger, s.history, Written(content));
    OneMore(s0.ledger, written, Committed(b, content, refs));
    WritingIsFree(Replay(s0.ledger, s.history), content);
    SparedCommits(b, s.ledger, content, refs);
    CommittedIsNone(b, content, refs);
  }

  lemma CurrentCall(b: Body, ledger: string)
    requires BodyCurrent(b, ledger) && ReliesOnLedger(b)
    ensures !b.Rechecked? ==> b.call.Reserve? && b.call.count > 0
  {
  }

  lemma CommittedIsNone(b: Body, content: string, refs: seq<LedgerSource>)
    requires ReliesOnLedger(b) && (!b.Rechecked? ==> b.call.Reserve? && b.call.count > 0)
    ensures !IsOvertaken(Committed(b, content, refs))
  {
  }

  lemma WritingIsFree(ledger: string, content: string)
    ensures MadeAlone(ledger, Written(content)) && Apply(ledger, Written(content)) == content
  {
  }
}
