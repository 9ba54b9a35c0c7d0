/** Writers who take no lock: what is detected, and what is lost. */
module ForeignWrites {
  import opened DeferredWorkLedger
  import opened DwReservation
  import FileLock
  import opened LedgerRuns
  import opened NextDwId
  import opened ReplaceReservation
  import opened SafeEdit
  import opened SerialRuns
  import opened Text

  // ----- what is detected -----

  /** A write between a replacement's re-check and its rename only touches the stub's block. */
  predicate SparesTheRename(s: State, a: Action) {
    a.Write? ==> forall p | 0 <= p < |s.body| && Running(s, p) && s.body[p].Rechecked? ::
      Spares(s.body[p], s.ledger, a.content)
  }

  /** Every replacement is the edit of the very version it replaces. */
  ghost predicate ReplacesWhatItRead(ledger: string, history: seq<Outcome>) {
    history == [] ||
    var (before, c) := (history[..|history| - 1], history[|history| - 1]);
    ReplacesWhatItRead(ledger, before) && (c.Replaced? ==> MadeAlone(Replay(ledger, before), c))
  }

  lemma OneMoreRead(ledger: string, history: seq<Outcome>, c: Outcome)
    ensures ReplacesWhatItRead(ledger, history + [c]) <==>
            ReplacesWhatItRead(ledger, history) && (c.Replaced? ==> MadeAlone(Replay(ledger, history), c))
  {
    hide MadeAlone;
    assert (history + [c])[..|history|] == history;
  }

  predicate ReplaceIsCurrent(b: Body, ledger: string) {
    match b
    case Ready(call, _) => Checked(call)
    case Computed(call, before, next, _) => MadeAlone(before, Replaced(call, next))
    case Rechecked(call, next) => MadeAlone(ledger, Replaced(call, next))
    case _ => true
  }

  ghost predicate AllCurrent(s: State) { forall p: nat | Running(s, p) :: ReplaceIsCurrent(s.body[p], s.ledger) }

  ghost predicate DetectInvariant(s0: State, s: State) {
    ReplacesWhatItRead(s0.ledger, s.history) && s.ledger == Replay(s0.ledger, s.history) && AllCurrent(s)
  }

  /** A replacement after its re-check is in the state a serial run would have it in. */
  lemma RecheckedIsCurrent(b: Body, ledger: string)
    requires b.Rechecked?
    ensures ReplaceIsCurrent(b, ledger) <==> BodyCurrent(b, ledger)
  {
  }

  lemma OutsidersDetect(s: State, a: Action, q: nat)
    requires Enabled(s, a) && AllCurrent(s) && SparesTheRename(s, a)
    requires Running(After(s, a), q) && (a.LockStep? || a.Enter? || a.Write?)
    ensures ReplaceIsCurrent(After(s, a).body[q], After(s, a).ledger)
  {
    hide Spares, Checked, MadeAlone, FileLock.After, FileLock.Enabled;
    WhoRuns(s, a, q);
    if a.Write? && s.body[q].Rechecked? {
      RecheckedIsCurrent(s.body[q], s.ledger);
      RecheckedIsCurrent(s.body[q], a.content);
      SparedStaysCurrent(s.body[q], s.ledger, a.content);
    }
  }

  lemma CallersDetect(s: State, a: Action, q: nat)
    requires Enabled(s, a) && AllCurrent(s) && FileLock.AtMostOneInside(s.lock)
    requires Running(After(s, a), q) && !a.LockStep? && !a.Enter? && !a.Write?
    ensures ReplaceIsCurrent(After(s, a).body[q], After(s, a).ledger)
  {
    hide Checked, Edit, FirstFree, ReservedText, Trim, FileLock.AtMostOneInside;
    WhoRuns(s, a, q);
    OneOther(s, a.p, q);
    assert ReplaceIsCurrent(s.body[q], s.ledger);
  }

  /** A step adds at most one outcome; a replacement is of the version it replaces. */
  lemma OutcomeDetected(s: State, a: Action)
    requires Enabled(s, a) && AllCurrent(s)
    ensures var s' := After(s, a);
            if s'.history == s.history then s'.ledger == s.ledger
            else
              && |s'.history| == |s.history| + 1 && s'.history == s.history + [s'.history[|s.history|]]
              && var c := s'.history[|s.history|];
                 s'.ledger == Apply(s.ledger, c) && (c.Replaced? ==> MadeAlone(s.ledger, c))
  {
    hide Edit, FirstFree, ReservedText, Trim, Checked, FileLock.After, FileLock.Enabled;
    if a.Commit? {
      assert ReplaceIsCurrent(s.body[a.p], s.ledger);
    }
  }

  lemma DetectStep(s: State, a: Action, s0: State)
    requires Enabled(s, a) && DetectInvariant(s0, s) && SparesTheRename(s, a) && FileLock.AtMostOneInside(s.lock)
    ensures DetectInvariant(s0, After(s, a))
  {
    hide Enabled, After, SparesTheRename, ReplaceIsCurrent, MadeAlone, Apply, ReplacesWhatItRead, Replay,
      FileLock.AtMostOneInside;
    forall q: nat | Running(After(s, a), q)
      ensures ReplaceIsCurrent(After(s, a).body[q], After(s, a).ledger)
    {
      if a.LockStep? || a.Enter? || a.Write? {
        OutsidersDetect(s, a, q);
      } else {
        CallersDetect(s, a, q);
      }
    }
    OutcomeDetected(s, a);
    var s' := After(s, a);
    if s'.history != s.history {
      OneMoreRead(s0.ledger, s.history, s'.history[|s.history|]);
      OneMore(s0.ledger, s.history, s'.history[|s.history|]);
    }
  }

  /** A write slipped in while a replacement is under way is detected: unless it falls between re-check
      and rename and touches more than the stub's block, no replacement ever undoes a change it has not
      seen. */
  lemma {:induction false} ForeignWritesAreDetected(s0: State, t: Trace, s: State, rule: FileLock.Rule)
    requires Initial(s0) && FileLock.ExcludesFrom(s0.lock, rule) && Reaches(s0, t, s, rule, SparesTheRename)
    ensures ReplacesWhatItRead(s0.ledger, s.history) && s.ledger == Replay(s0.ledger, s.history)
    ensures DetectInvariant(s0, s)
  {
    hide FileLock.ExcludesFrom;
    if t.Then? {
      var m: State :| Reaches(s0, t.before, m, rule, SparesTheRename) && Enabled(m, t.a) && Obeys(m, t.a, rule)
                      && SparesTheRename(m, t.a) && s == After(m, t.a);
      hide Enabled, After, Obeys, SparesTheRename, ReplaceIsCurrent, ReplacesWhatItRead, Replay, Initial;
      ForeignWritesAreDetected(s0, t.before, m, rule);
      OneRunning(s0, t.before, m, rule, SparesTheRename);
      DetectStep(m, t.a, s0);
    }
  }

  // ----- what is lost -----

  /** The write that is not detected, between re-check and rename: what was written is gone from the ledger,
      and the replacement is one of the version it replaces if and only if the write touched nothing but
      the stub's block. */
  lemma WriteBeforeRenameDecides(s0: State, t: Trace, s: State, rule: FileLock.Rule, p: nat, content: string)
    returns (s': State)
    requires Initial(s0) && FileLock.ExcludesFrom(s0.lock, rule) && Reaches(s0, t, s, rule, SparesTheRename)
    requires Running(s, p) && s.body[p].Rechecked?
    ensures Reaches(s0, Then(Then(t, Write(content)), Commit(p)), s', rule, AnyWorld)
    ensures s'.ledger == s.body[p].next
    ensures s'.history == s.history + [Written(content)] + [Replaced(s.body[p].call, s.body[p].next)]
    ensures ReplacesWhatItRead(s0.ledger, s'.history) <==> Spares(s.body[p], s.ledger, content)
  {
    hide FileLock.ExcludesFrom, Reaches, MadeAlone, ReplacesWhatItRead, Replay, Spares;
    ForeignWritesAreDetected(s0, t, s, rule);
    InAnyWorld(s0, t, s, rule, SparesTheRename);
    var b := s.body[p];
    ExtendedBy(Then(t, Write(content)), Commit(p), Commit(p));
    s' := LateWrite(s0, t, s, rule, p, content, []);
    RecheckedIsCurrent(b, s.ledger);
    SparedCommits(b, s.ledger, content, []);
    WritingIsFree(Replay(s0.ledger, s.history), content);
    OneMore(s0.ledger, s.history, Written(content));
    OneMoreRead(s0.ledger, s.history, Written(content));
    OneMoreRead(s0.ledger, s.history + [Written(content)], Replaced(b.call, b.next));
  }

  /** Which writes in that window are harmless. Without a stub left none is. With the stub on the line it
      was on, those that keep every line above and below its block, and on whose text the result is still
      sound. With the stub on another line none is, unless the entry's own first line already stands where
      the upper of the two stubs was. */
  lemma HarmlessInTheWindow(call: Call, next: string, ledger: string, content: string)
    requires call.Replace? && Edit(call, ledger) == Edited(next)
    ensures StubBlock(ledger, call.wanted).Some?
    ensures var (x, y) := (StubBlock(ledger, call.wanted).value, StubBlock(content, call.wanted));
            var harmless := Spares(Rechecked(call, next), ledger, content);
            && (y.None? ==> !harmless)
            && (y.Some? && y.value.0 == x.0 ==>
                  (harmless <==>
                   && Lines(ledger)[..x.0] == Lines(content)[..x.0]
                   && Lines(ledger)[x.1..] == Lines(content)[y.value.1..] && Sound(content, next)))
            && (y.Some? && x.0 < y.value.0 && harmless ==> Lines(content)[x.0] == EntryLines(call.entryText)[0])
            && (y.Some? && y.value.0 < x.0 && harmless ==> Lines(ledger)[y.value.0] == EntryLines(call.entryText)[0])
  {
    hide StubBlock, ReplaceEdit, Sound, Split, TrimEnd, PassesOver;
    EditedIsSound(ledger, ReplaceEdit(call.wanted, call.entryText, ledger));
    EditNeedsStub(call.wanted, call.entryText, ledger);
    if SameElsewhere(call.wanted, EntryLines(call.entryText), ledger, content) {
      MovedStubNeedsEntry(call.wanted, EntryLines(call.entryText), ledger, content);
    }
  }

  /** Process 0 of `n` alone: it takes the lock and enters `fn`. */
  lemma EnterAlone(n: nat, call: Call, ledger: string) returns (s0: State, t: Trace, s: State)
    requires n >= 1 && Checked(call)
    ensures Initial(s0) && |s0.lock.phase| == n && s0.ledger == ledger
    ensures Reaches(s0, t, s, FileLock.RenamesOnlyDead, SparesTheRename)
    ensures Running(s, 0) && s.body[0] == Ready(call, 1) && s.ledger == ledger && s.history == []
  {
    hide Checked, Reaches;
    var rule := FileLock.RenamesOnlyDead;
    s0 := State(FileLock.State(None, {}, 0, seq(n, _ => FileLock.Idle)), ledger, seq(n, _ => Done), []);
    StartReaches(s0);
    var (a, b, c) := (LockStep(0, FileLock.Begin), LockStep(0, FileLock.Create), Enter(0, call));
    OneStep(s0, Start, s0, a, rule, SparesTheRename);
    OneStep(s0, Then(Start, a), After(s0, a), b, rule, SparesTheRename);
    t, s := Then(Then(Start, a), b), After(After(s0, a), b);
    OneStep(s0, t, s, c, rule, SparesTheRename);
    t, s := Then(t, c), After(s, c);
  }

  /** Its replacement goes as far as the re-check. */
  lemma ReplacementRun(n: nat, call: Call, ledger: string, next: string) returns (s0: State, t: Trace, s: State)
    requires n >= 1 && call.Replace? && Checked(call) && Edit(call, ledger) == Edited(next)
    ensures Initial(s0) && |s0.lock.phase| == n && s0.ledger == s.ledger == ledger && s.history == []
    ensures Reaches(s0, t, s, FileLock.RenamesOnlyDead, SparesTheRename)
    ensures Running(s, 0) && s.body[0] == Rechecked(call, next)
  {
    hide Edit, Checked, Reaches, Initial;
    s0, t, s := EnterAlone(n, call, ledger);
    OneStep(s0, t, s, Compute(0), FileLock.RenamesOnlyDead, SparesTheRename);
    t, s := Then(t, Compute(0)), After(s, Compute(0));
    OneStep(s0, t, s, Recheck(0), FileLock.RenamesOnlyDead, SparesTheRename);
    t, s := Then(t, Recheck(0)), After(s, Recheck(0));
  }

  lemma StartReaches(s0: State)
    ensures Reaches(s0, Start, s0, FileLock.RenamesOnlyDead, SparesTheRename)
  {
  }

  /** A part stands in the joined text. */
  lemma JoinHolds(a: seq<string>, x: string, b: seq<string>) returns (pre: string, post: string)
    ensures Join(a + [x] + b, '\n') == pre + x + post
  {
    pre := if a == [] then "" else Join(a, '\n') + "\n";
    post := if b == [] then "" else "\n" + Join(b, '\n');
    if b != [] {
      JoinConcat([x], b, '\n');
    }
    assert b == [] ==> [x] + b == [x];
    assert Join([x] + b, '\n') == x + post;
    assert a + [x] + b == a + ([x] + b);
    if a != [] {
      JoinConcat(a, [x] + b, '\n');
    }
  }

  lemma {:induction false} BytesOf(s: string)
    ensures ByteLength(s) >= |s|
  {
    if s != "" {
      BytesOf(s[1..]);
    }
  }

  /** Text that holds more characters than the version before has bytes is a sound next version. */
  lemma LongPartIsSound(before: string, pre: string, x: string, post: string)
    requires x != "" && !IsSpace(x[0]) && |x| >= ByteLength(before)
    ensures Sound(before, pre + x + post)
  {
    hide ByteLength;
    assert (pre + x + post)[|pre|] == x[0];
    BytesOf(x);
    ByteLengthConcat(pre + x, post);
    ByteLengthConcat(pre, x);
  }

  /** A one-line entry of at least that size. */
  lemma LongEntry(n: nat, size: nat) returns (entryText: string)
    ensures AcceptsEntry("dw-" + Decimal(n), entryText) && EntryLines(entryText) == [entryText]
    ensures |entryText| >= size && entryText != "" && entryText[0] == '#'
  {
    hide Split, ToDwHeading, TrimEnd, LinesFrom, HeadingsOf;
    var title := Run('x', size + 1);
    entryText := EntryHeading(n, title);
    EntryHeadingReads(n, title);
    SplitOne(entryText, '\n');
    FirstRawHeading([entryText]);
  }

  /** Put in place of a stub in a ledger of no more bytes than it has characters, it is accepted. */
  lemma LongEntryFits(wanted: string, entryText: string, ledger: string) returns (next: string)
    requires AcceptsEntry(wanted, entryText) && EntryLines(entryText) == [entryText]
    requires entryText != "" && entryText[0] == '#' && |entryText| >= ByteLength(ledger)
    requires StubBlock(ledger, wanted).Some?
    ensures Edit(Replace(wanted, entryText), ledger) == Edited(next)
  {
    hide StubBlock, Split, Join, Sound, ByteLength, ComputeEdit, AcceptsEntry;
    var block, lines := StubBlock(ledger, wanted).value, Lines(ledger);
    next := Join(lines[..block.0] + [entryText] + lines[block.1..], '\n');
    var pre, post := JoinHolds(lines[..block.0], entryText, lines[block.1..]);
    LongPartIsSound(ledger, pre, entryText, post);
    EditedIsSound(ledger, ReplaceEdit(wanted, entryText, ledger));
  }

  /** Below any fence-closed ledger two ledgers with a stub of the same fresh id, told apart by its time, and
      a call that replaces it in both. */
  lemma Replaceable(base: string, iso: string, iso': string)
    returns (call: Call, a: string, b: string, next: string, next': string)
    requires FenceClosed(base) && IsIsoTimestamp(iso) && IsIsoTimestamp(iso')
    ensures call.Replace? && Checked(call) && Edit(call, a) == Edited(next) && Edit(call, b) == Edited(next')
    ensures StubBlock(base, call.wanted).None? && (iso != iso' ==> a != b)
  {
    hide StubBlock, AppendText, FenceClosed, MaxPlainId, ParseReservations, AcceptsEntry, Edit, ByteLength, Decimal;
    var n := MaxPlainId(base) + 1;
    var wanted := "dw-" + Decimal(n);
    a, b := base + AppendText(base, n, 1, DEFAULT_STORY, iso), base + AppendText(base, n, 1, DEFAULT_STORY, iso');
    ReservedIsFound(base, base, n, 1, DEFAULT_STORY, iso, 0);
    ReservedIsFound(base, base, n, 1, DEFAULT_STORY, iso', 0);
    FreshHasNoStub(base, n);
    StubBlockExists(base, wanted);
    TimeTellsApart(base, n, iso, iso');
    var entryText := LongEntry(n, ByteLength(a) + ByteLength(b));
    call := Replace(wanted, entryText);
    next := LongEntryFits(wanted, entryText, a);
    next' := LongEntryFits(wanted, entryText, b);
  }

  lemma TimeTellsApart(base: string, n: nat, iso: string, iso': string)
    requires FenceClosed(base) && IsIsoTimestamp(iso) && IsIsoTimestamp(iso')
    ensures base + AppendText(base, n, 1, DEFAULT_STORY, iso) == base + AppendText(base, n, 1, DEFAULT_STORY, iso')
            ==> iso == iso'
  {
    hide AppendText, FenceClosed, ParseReservations, ParseDwHeadings, Lines, Preamble, StubHeadingAt;
    AppendReads(base, base, n, 1, DEFAULT_STORY, iso);
    AppendReads(base, base, n, 1, DEFAULT_STORY, iso');
    var at := |Lines(base)| + |Preamble(base)|;
    var (r, r') := (StubReservations(n, 1, DEFAULT_STORY, iso, at), StubReservations(n, 1, DEFAULT_STORY, iso', at));
    if ParseReservations(base) + r == ParseReservations(base) + r' {
      SplitAtStart(ParseReservations(base), r, ParseReservations(base), r');
      assert r[0] == r'[0];
    }
  }

  /** The losing run. While a replacement is between re-check and rename, somebody else leaves a ledger
      in which the stub is gone. Run alone on it the replacement would be refused; here it puts its own
      text in place of what was written, and no step reports anything. */
  lemma WriteIsUndone(n: nat, call: Call, ledger: string, next: string, content: string)
    returns (s0: State, t: Trace, s: State)
    requires n >= 1 && call.Replace? && Checked(call) && Edit(call, ledger) == Edited(next)
    requires StubBlock(content, call.wanted).None?
    ensures Initial(s0) && |s0.lock.phase| == n && s0.ledger == ledger
    ensures Reaches(s0, t, s, FileLock.RenamesOnlyDead, AnyWorld)
    ensures s.history == [Written(content), Replaced(call, next)] && s.ledger == next
    ensures !ReplacesWhatItRead(ledger, s.history)
  {
    hide Reaches, Checked, StubBlock, Edit, Spares, ReplacesWhatItRead;
    var m;
    s0, t, m := ReplacementRun(n, call, ledger, next);
    FileLock.OnlyDeadExcludes(s0.lock);
    HarmlessInTheWindow(call, next, ledger, content);
    s := WriteBeforeRenameDecides(s0, t, m, FileLock.RenamesOnlyDead, 0, content);
    t := Then(Then(t, Write(content)), Commit(0));
  }

  /** Such runs exist, above any fence-closed ledger and for any number of processes. */
  lemma SomeWriteIsUndone(n: nat, base: string, iso: string) returns (s0: State, t: Trace, s: State)
    requires n >= 1 && FenceClosed(base) && IsIsoTimestamp(iso)
    ensures Initial(s0) && |s0.lock.phase| == n
    ensures Reaches(s0, t, s, FileLock.RenamesOnlyDead, AnyWorld) && !ReplacesWhatItRead(s0.ledger, s.history)
    ensures |s.history| == 2 && s.history[0] == Written(base)
    ensures s.history[1].Replaced? && s.history[1].next == s.ledger
  {
    hide Initial, Reaches, ReplacesWhatItRead, Checked, Edit, StubBlock, FenceClosed;
    var call, ledger, b, next, next' := Replaceable(base, iso, iso);
    s0, t, s := WriteIsUndone(n, call, ledger, next, base);
  }

  // ----- calls that give up -----

  function Overtakings(history: seq<Outcome>): nat {
    if history == [] then 0
    else Overtakings(history[..|history| - 1]) + if IsOvertaken(history[|history| - 1]) then 1 else 0
  }

  function Writings(history: seq<Outcome>): nat {
    if history == [] then 0 else Writings(history[..|history| - 1]) + if history[|history| - 1].Written? then 1 else 0
  }

  lemma OneMoreCounted(history: seq<Outcome>, c: Outcome)
    ensures Overtakings(history + [c]) == Overtakings(history) + if IsOvertaken(c) then 1 else 0
    ensures Writings(history + [c]) == Writings(history) + if c.Written? then 1 else 0
  {
    hide IsOvertaken;
    assert (history + [c])[..|history|] == history;
  }

  /** The writes a running call has met so far without a mark in its outcome. */
  function Met(b: Body, ledger: string): nat {
    match b
    case Ready(_, retries) => if retries == 0 then 1 else 0
    case Computed(_, before, _, retries) =>
      (if retries == 0 then 1 else 0) + if before != ledger then 1 else 0
    case _ => 0
  }

  ghost predicate Counted(s: State) {
    && 2 * Overtakings(s.history) <= Writings(s.history)
    && forall p: nat | Running(s, p) :: 2 * Overtakings(s.history) + Met(s.body[p], s.ledger) <= Writings(s.history)
  }

  lemma CountedStep(s: State, a: Action)
    requires Enabled(s, a) && Counted(s) && FileLock.AtMostOneInside(s.lock)
    ensures Counted(After(s, a))
  {
    hide Edit, FirstFree, ReservedText, Trim, Checked, FileLock.After, FileLock.Enabled, FileLock.AtMostOneInside,
      Overtakings, Writings;
    var s' := After(s, a);
    if s'.history != s.history {
      OneMoreCounted(s.history, s'.history[|s.history|]);
      assert s'.history == s.history + [s'.history[|s.history|]];
    }
    forall q: nat | Running(s', q)
      ensures 2 * Overtakings(s'.history) + Met(s'.body[q], s'.ledger) <= Writings(s'.history)
    {
      WhoRuns(s, a, q);
      if !a.LockStep? && !a.Enter? && !a.Write? {
        OneOther(s, a.p, q);
      }
    }
  }

  /** A call only gives up when others wrote twice while it ran: in every run there are at least two foreign
      writes for each call that gave up. */
  lemma {:induction false} OvertakenByWrites(s0: State, t: Trace, s: State, rule: FileLock.Rule)
    requires Initial(s0) && FileLock.ExcludesFrom(s0.lock, rule) && Reaches(s0, t, s, rule, AnyWorld)
    ensures 2 * Overtakings(s.history) <= Writings(s.history)
    ensures Counted(s)
  {
    hide FileLock.ExcludesFrom;
    if t.Then? {
      var m: State :| Reaches(s0, t.before, m, rule, AnyWorld) && Enabled(m, t.a) && Obeys(m, t.a, rule)
                      && AnyWorld(m, t.a) && s == After(m, t.a);
      hide Enabled, After, Obeys, Overtakings, Writings, Initial;
      OvertakenByWrites(s0, t.before, m, rule);
      OneRunning(s0, t.before, m, rule, AnyWorld);
      CountedStep(m, t.a);
    }
  }

  /** One retry only: two writes are enough to refuse a replacement that every version would have accepted. */
  lemma TwoWritesRefuse(n: nat, call: Call, a: string, b: string, c: string) returns (s0: State, t: Trace, s: State)
    requires n >= 1 && call.Replace? && Checked(call) && a != b && b != c
    requires Edit(call, a).Edited? && Edit(call, b).Edited? && Edit(call, c).Edited?
    ensures Initial(s0) && |s0.lock.phase| == n && s0.ledger == a
    ensures Reaches(s0, t, s, FileLock.RenamesOnlyDead, AnyWorld)
    ensures s.history == [Written(b), Written(c), Declined(call, Overtaken)] && s.ledger == c
  {
    hide Edit, Checked, Reaches, Initial;
    var rule := FileLock.RenamesOnlyDead;
    var m;
    s0, t, m := EnterAlone(n, call, a);
    InAnyWorld(s0, t, m, rule, SparesTheRename);
    t, m := MissedOnce(s0, t, m, call, b, 1);
    assert m.history == [Written(b)];
    OneStep(s0, t, m, Compute(0), rule, AnyWorld);
    t, m := Then(t, Compute(0)), After(m, Compute(0));
    OneStep(s0, t, m, Write(c), rule, AnyWorld);
    t, m := Then(t, Write(c)), After(m, Write(c));
    OneStep(s0, t, m, Recheck(0), rule, AnyWorld);
    t, s := Then(t, Recheck(0)), After(m, Recheck(0));
    assert [Written(b)] + [Written(c)] + [Declined(call, Overtaken)] == [Written(b), Written(c), Declined(call, Overtaken)];
  }

  /** The edit is computed, the ledger changes, the re-check sees it: back to the start with a retry less. */
  lemma MissedOnce(s0: State, t: Trace, s: State, call: Call, content: string, retries: nat)
    returns (t': Trace, s': State)
    requires Reaches(s0, t, s, FileLock.RenamesOnlyDead, AnyWorld) && call.Replace? && retries > 0
    requires Running(s, 0) && s.body[0] == Ready(call, retries) && content != s.ledger && Edit(call, s.ledger).Edited?
    ensures Reaches(s0, t', s', FileLock.RenamesOnlyDead, AnyWorld)
    ensures Running(s', 0) && s'.body[0] == Ready(call, retries - 1)
    ensures s'.ledger == content && s'.history == s.history + [Written(content)]
  {
    hide Edit, Reaches;
    var rule := FileLock.RenamesOnlyDead;
    OneStep(s0, t, s, Compute(0), rule, AnyWorld);
    t', s' := Then(t, Compute(0)), After(s, Compute(0));
    OneStep(s0, t', s', Write(content), rule, AnyWorld);
    t', s' := Then(t', Write(content)), After(s', Write(content));
    OneStep(s0, t', s', Recheck(0), rule, AnyWorld);
    t', s' := Then(t', Recheck(0)), After(s', Recheck(0));
  }

  /** Such runs exist too. */
  lemma SomeCallGivesUp(n: nat, base: string, iso: string, iso': string) returns (s0: State, t: Trace, s: State)
    requires n >= 1 && FenceClosed(base) && IsIsoTimestamp(iso) && IsIsoTimestamp(iso') && iso != iso'
    ensures Initial(s0) && |s0.lock.phase| == n && Reaches(s0, t, s, FileLock.RenamesOnlyDead, AnyWorld)
    ensures Overtakings(s.history) == 1 && Writings(s.history) == 2
  {
    hide Initial, Reaches, Checked, Edit, StubBlock, FenceClosed;
    var call, a, b, next, next' := Replaceable(base, iso, iso');
    s0, t, s := TwoWritesRefuse(n, call, a, b, a);
    var first := [Written(b)];
    OneMoreCounted([], Written(b));
    OneMoreCounted(first, Written(a));
    OneMoreCounted(first + [Written(a)], Declined(call, Overtaken));
    assert [] + [Written(b)] == first;
    assert s.history == first + [Written(a)] + [Declined(call, Overtaken)];
  }

  // ----- never blank -----

  /** Nobody else blanks the ledger. */
  predicate WritesText(s: State, a: Action) { a.Write? ==> !IsBlankText(a.content) }

  predicate NextHasText(b: Body) {
    match b
    case Computed(_, _, next, _) => !IsBlankText(next)
    case Rechecked(_, next) => !IsBlankText(next)
    case _ => true
  }

  ghost predicate TextInvariant(s: State) {
    !IsBlankText(s.ledger) && forall p | 0 <= p < |s.body| :: NextHasText(s.body[p])
  }

  lemma TextStep(s: State, a: Action)
    requires Enabled(s, a) && TextInvariant(s) && WritesText(s, a)
    ensures TextInvariant(After(s, a))
  {
    hide ReplaceEdit, AcceptsEntry, AppendText, FirstFree, IsStory, IsIsoTimestamp, Trim, ComputeEdit, FileLock.After,
      FileLock.Enabled, FileLock.AtMostOneInside, ByteLength;
    match a {
      case Append(p) =>
        var k :| 0 <= k < |s.ledger| && !IsSpace(s.ledger[k]);
        assert After(s, a).ledger[k] == s.ledger[k];
      case Compute(p) =>
        EditedIsSound(s.ledger, ReplaceEdit(s.body[p].call.wanted, s.body[p].call.entryText, s.ledger));
      case _ =>
    }
  }

  /** No reader ever sees a blank ledger, at any step of any run, even where the lock fails to exclude. */
  lemma {:induction false} NeverBlank(s0: State, t: Trace, s: State, rule: FileLock.Rule)
    requires Initial(s0) && !IsBlankText(s0.ledger)
    requires Reaches(s0, t, s, rule, WritesText)
    ensures TextInvariant(s)
    ensures !IsBlankText(s.ledger)
  {
    if t.Then? {
      var m: State :| Reaches(s0, t.before, m, rule, WritesText) && Enabled(m, t.a) && Obeys(m, t.a, rule)
                      && WritesText(m, t.a) && s == After(m, t.a);
      NeverBlank(s0, t.before, m, rule);
      TextStep(m, t.a);
    }
  }
}
