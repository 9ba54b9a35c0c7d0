/** Where the body of an entry ends, and so how far the block of a written stub reaches. */
module EntryBodies {
  import opened DeferredWorkLedger
  import opened DwReservation
  import opened LedgerForms
  import opened LineReader
  import opened NextDwId
  import opened ReplaceReservation
  import opened Text

  // ----- where a body ends -----

  /** Ledger line `k` ends the body of the heading at `p`: a heading of any kind, or a flat item with a
      status line above it in the body. */
  ghost predicate Stops(all: seq<LedgerLine>, p: nat, k: nat)
    requires p < k < |all|
  {
    IsHeadingText(all[k].text) || (IsFlatItem(all[k].text) && exists i | p < i < k :: "status:" <= all[i].text)
  }

  ghost predicate SeenStatus(rest: seq<LedgerLine>, n: nat)
    requires n <= |rest|
  {
    exists i | 0 <= i < n :: StartsWith(rest[i].text, STATUS_PREFIX)
  }

  lemma {:induction false} BodyEnd(rest: seq<LedgerLine>, sawStatus: bool)
    ensures var n := BodyLength(rest, sawStatus);
            n < |rest| ==> EndsBody(rest[n], sawStatus || SeenStatus(rest, n))
    decreases rest
  {
    hide EndsBody, StartsWith;
    if rest != [] && !EndsBody(rest[0], sawStatus) {
      var saw := sawStatus || StartsWith(rest[0].text, STATUS_PREFIX);
      BodyEnd(rest[1..], saw);
      var n := BodyLength(rest[1..], saw);
      assert SeenStatus(rest, 1 + n) == (StartsWith(rest[0].text, STATUS_PREFIX) || SeenStatus(rest[1..], n)) by {
        if i :| 0 <= i < 1 + n && StartsWith(rest[i].text, STATUS_PREFIX) {
          assert i == 0 || StartsWith(rest[1..][i - 1].text, STATUS_PREFIX);
        }
      }
    }
  }

  /** The first line that ends a body is where it ends. */
  lemma BodyLengthIs(rest: seq<LedgerLine>, n: nat)
    requires n <= |rest| && forall k | 0 <= k < n :: !EndsBody(rest[k], SeenStatus(rest, k))
    requires n < |rest| ==> EndsBody(rest[n], SeenStatus(rest, n))
    ensures BodyLength(rest, false) == n
  {
    hide EndsBody, StartsWith;
    var m := BodyLength(rest, false);
    BodyEnd(rest, false);
    if n < m {
      BodyLengthStep(rest, n, false);
    }
  }

  lemma ClassifiedForms(text: string, number: nat)
    ensures var l := Classified(text, number);
            l.heading.Some? || l.otherHeading <==> IsHeadingText(l.text)
  {
    hide ToDwHeading, IsAnyHeading, IsHeadingText;
    HeadingTextExactly(text, number);
  }

  /** Every ledger line is classified by its own text. */
  lemma LedgerLineForms(content: string, k: nat)
    requires k < |LedgerLines(content)|
    ensures var l := LedgerLines(content)[k];
            l.heading.Some? || l.otherHeading <==> IsHeadingText(l.text)
  {
    hide Classified, StateAfter, Emitted, Split, StripCr, Marker, IsHeadingText;
    var a, x, b := RawOrigin(Lines(content), 0, k);
    ClassifiedForms(StripCr(x), |a| + 1);
  }

  lemma StopsIsEnd(content: string, p: nat, k: nat)
    requires p < k < |LedgerLines(content)|
    ensures var all := LedgerLines(content);
            Stops(all, p, k) <==> EndsBody(all[k], SeenStatus(all[p + 1..], k - p - 1))
  {
    hide IsHeadingText, IsFlatItem, IsSourceSpecBullet, LedgerLines;
    var all := LedgerLines(content);
    LedgerLineForms(content, k);
    FlatItemExactly(all[k].text);
    var below := all[p + 1..];
    forall i | 0 <= i < k - p - 1
      ensures below[i] == all[p + 1 + i]
    {
    }
    forall i | p < i < k
      ensures all[i] == all[p + 1..][i - p - 1]
      ensures StartsWith(all[i].text, STATUS_PREFIX) <==> "status:" <= all[i].text
    {
    }
  }

  /** What the entry of the heading at `p` is. */
  ghost predicate IsEntry(all: seq<LedgerLine>, total: nat, p: nat, e: DwEntry) {
    && p + |e.lines| < |all| && all[p].heading == Some(e.heading)
    && (forall k | 0 <= k < |e.lines| ::
          e.lines[k] == BodyLine(all[p + 1 + k].line, all[p + 1 + k].text) && !Stops(all, p, p + 1 + k))
    && (if p + 1 + |e.lines| < |all|
        then Stops(all, p, p + 1 + |e.lines|) && e.bodyEndLine == all[p + 1 + |e.lines|].line - 1
        else e.bodyEndLine == total)
  }

  lemma EntryIs(content: string, p: nat)
    requires p < |LedgerLines(content)| && LedgerLines(content)[p].heading.Some?
    ensures var (all, total) := (LedgerLines(content), |Lines(content)|); IsEntry(all, total, p, EntryAt(all, p, total))
  {
    hide LedgerLines, Split, EndsBody, Stops, SeenStatus, BodyLength;
    var (all, total) := (LedgerLines(content), |Lines(content)|);
    var e, rest := EntryAt(all, p, total), all[p + 1..];
    BodyEnd(rest, false);
    if p + 1 + |e.lines| < |all| {
      StopsIsEnd(content, p, p + 1 + |e.lines|);
    }
    forall k | 0 <= k < |e.lines|
      ensures e.lines[k] == BodyLine(all[p + 1 + k].line, all[p + 1 + k].text) && !Stops(all, p, p + 1 + k)
    {
      NotEnding(rest, k);
      StopsIsEnd(content, p, p + 1 + k);
    }
  }

  /** An entry's body are the ledger lines below its heading up to the first that stops it, or to the end
      of the ledger when none does. */
  lemma BodyExactly(content: string, j: nat) returns (p: nat)
    requires j < |ParseDwEntries(content)|
    ensures var (all, e) := (LedgerLines(content), ParseDwEntries(content)[j]);
            && IsEntry(all, |Lines(content)|, p, e)
            && e.heading.line == all[p].line && e.bodyStartLine == all[p].line + 1
  {
    hide LedgerLines, Split, IsEntry, BodyLength;
    LedgerNumbered(content);
    p := HeadingAt(LedgerLines(content), |LedgerLines(content)|, j, |Lines(content)|);
    EntryIs(content, p);
  }

  lemma NotEnding(rest: seq<LedgerLine>, k: nat)
    requires k < BodyLength(rest, false)
    ensures !EndsBody(rest[k], SeenStatus(rest, k))
  {
    hide EndsBody, StartsWith;
    BodyLengthStep(rest, k, false);
  }

  // ----- the block of a written stub -----

  /** A line no body goes on behind, once it has a status line. */
  ghost predicate IsEnding(raw: string) { IsHeadingText(StripCr(raw)) || IsFlatItem(StripCr(raw)) }

  /** A line that never ends a body. */
  predicate IsQuiet(l: LedgerLine) { l.heading.None? && !l.otherHeading && !IsSourceSpecBullet(l.text) }

  lemma BlankIsQuiet(raw: string, at: nat)
    requires IsBlankText(raw)
    ensures Marker(StripCr(raw)).None? && IsQuiet(Classified(StripCr(raw), at))
  {
    hide IdToken, NormalizeDwId, Span;
    var text := StripCr(raw);
    assert forall k | 0 <= k < |text| :: text[k] == raw[k];
  }

  lemma StatusIsQuiet(at: nat)
    ensures Marker(StripCr(STUB_STATUS)).None? && StripCr(STUB_STATUS) == STUB_STATUS == Classified(STUB_STATUS, at).text
    ensures IsQuiet(Classified(STUB_STATUS, at)) && StartsWith(STUB_STATUS, STATUS_PREFIX) && !IsBlankText(STUB_STATUS)
  {
    hide IdToken, NormalizeDwId, Span;
    assert STUB_STATUS[0] == 's' && STUB_STATUS[|STUB_STATUS| - 1] == 'd' && STUB_STATUS[..7] == STATUS_PREFIX;
  }

  lemma StatusIsText()
    ensures !IsBlankText(STUB_STATUS)
  {
    assert STUB_STATUS[0] == 's';
  }

  lemma EndingLine(raw: string, at: nat)
    requires IsEnding(raw)
    ensures Marker(StripCr(raw)).None? && EndsBody(Classified(StripCr(raw), at), true)
  {
    var text := StripCr(raw);
    ClassifiedForms(text, at);
    FlatItemExactly(text);
    assert text[0] == '#' || text[0] == '-' || text[0] == '*' by {
      if level: nat, rest: string :| IsHeadingLine(text, level, rest) {
        assert text[0] == '#';
      }
    }
    EndingMark(text, at);
  }

  lemma EndingMark(text: string, at: nat)
    requires text != "" && text[0] != ' ' && text[0] != '`' && text[0] != '~'
    ensures Marker(text).None? && Classified(text, at).text == text
  {
  }

  /** Blank lines are read as they stand. */
  lemma {:induction false} BlanksRead(blanks: seq<string>, at: nat)
    requires forall k | 0 <= k < |blanks| :: IsBlankText(blanks[k])
    ensures FenceAfter(None, blanks).None? && |LinesFrom(None, blanks, at)| == |blanks|
    ensures forall l | l in LinesFrom(None, blanks, at) :: IsQuiet(l)
    decreases blanks
  {
    hide IsQuiet, Classified, Marker, IsBlankText, StripCr, StateAfter, Emitted;
    if blanks == [] {
      NothingRead(at);
      NoFence();
    } else {
      BlankIsQuiet(blanks[0], at + 1);
      PlainLine(blanks[0], Classified(StripCr(blanks[0]), at + 1), at);
      BlanksRead(blanks[1..], at + 1);
      assert blanks == [blanks[0]] + blanks[1..];
      Compose(None, [blanks[0]], blanks[1..], at);
    }
  }

  lemma NoFence()
    ensures FenceAfter(None, []) == None
  {
  }

  /** The status line and blanks below a stub's heading line are its body, up to what follows them. */
  lemma StubBody(blanks: seq<string>, below: seq<string>, at: nat)
    requires forall k | 0 <= k < |blanks| :: IsBlankText(blanks[k])
    requires below != [] ==> IsEnding(below[0])
    ensures var rest := LinesFrom(None, [STUB_STATUS] + blanks + below, at);
            && BodyLength(rest, false) == 1 + |blanks| <= |rest|
            && (below == [] ==> |rest| == 1 + |blanks|)
            && (below != [] ==> |rest| > 1 + |blanks| && rest[1 + |blanks|].line == at + 1 + |blanks| + 1)
  {
    hide IsQuiet, Classified, Marker, IsBlankText, StripCr, StateAfter, Emitted, IsEnding, EndsBody, StartsWith, BodyLength;
    var status := Classified(STUB_STATUS, at + 1);
    StatusIsQuiet(at + 1);
    PlainLine(STUB_STATUS, status, at);
    BlanksRead(blanks, at + 1);
    Compose(None, [STUB_STATUS], blanks, at);
    Compose(None, [STUB_STATUS] + blanks, below, at);
    var quiet, last := [status] + LinesFrom(None, blanks, at + 1), LinesFrom(None, below, at + 1 + |blanks|);
    var rest := LinesFrom(None, [STUB_STATUS] + blanks + below, at);
    assert rest == quiet + last;
    if below == [] {
      NothingRead(at + 1 + |blanks|);
    } else {
      EndingLine(below[0], at + 1 + |blanks| + 1);
      var l := Classified(StripCr(below[0]), at + 1 + |blanks| + 1);
      PlainLine(below[0], l, at + 1 + |blanks|);
      Compose(None, [below[0]], below[1..], at + 1 + |blanks|);
      assert below == [below[0]] + below[1..] && last[0] == l && rest[|quiet|] == l;
      LineNumber(StripCr(below[0]), at + 1 + |blanks| + 1);
    }
    QuietBody(rest, quiet);
  }

  /** Quiet lines that begin with a status line are a body. */
  lemma QuietBody(rest: seq<LedgerLine>, quiet: seq<LedgerLine>)
    requires quiet <= rest && quiet != [] && StartsWith(quiet[0].text, STATUS_PREFIX)
    requires forall l | l in quiet :: IsQuiet(l)
    requires |quiet| < |rest| ==> EndsBody(rest[|quiet|], true)
    ensures BodyLength(rest, false) == |quiet|
  {
    hide StartsWith, IsSourceSpecBullet;
    assert rest[0] == quiet[0];
    assert SeenStatus(rest, |quiet|);
    forall k | 0 <= k < |quiet|
      ensures !EndsBody(rest[k], SeenStatus(rest, k))
    {
      assert rest[k] == quiet[k] && quiet[k] in quiet;
    }
    BodyLengthIs(rest, |quiet|);
  }

  /** A ledger with a stub written into it: the lines above, the stub's two lines, blank lines, and nothing
      more or a line that is a heading of any kind or a flat item. */
  ghost predicate HoldsStub(content: string, n: nat, story: string, iso: string, above: seq<string>, blanks: seq<string>,
                            below: seq<string>) {
    && Lines(content) == above + ([StubHeading(n, story, iso)] + ([STUB_STATUS] + blanks + below))
    && FenceAfter(None, above).None?
    && (forall k | 0 <= k < |blanks| :: IsBlankText(blanks[k]))
    && (below != [] ==> IsEnding(below[0]))
  }

  lemma {:induction false} FirstWithId(before: seq<Reservation>, r: Reservation, after: seq<Reservation>, wanted: string)
    requires (forall s | s in before :: s.heading.normalizedId != wanted) && r.heading.normalizedId == wanted
    ensures FindFirst(before + [r] + after, WithId(wanted)) == |before|
  {
    var stubs := before + [r] + after;
    assert stubs[|before|] == r;
    forall k | 0 <= k < |before|
      ensures !WithId(wanted)(stubs[k])
    {
      assert stubs[k] in before;
    }
  }

  /** How the ledger with the stub reads: the stub's line between what is read above and below it. */
  lemma StubReads(content: string, n: nat, story: string, iso: string, above: seq<string>, blanks: seq<string>,
                  below: seq<string>)
    requires IsStory(story) && IsIsoTimestamp(iso) && HoldsStub(content, n, story, iso, above, blanks, below)
    ensures var upper := LinesFrom(None, above, 0);
            var lower := LinesFrom(None, [STUB_STATUS] + blanks + below, |above| + 1);
            && LedgerLines(content) == upper + [StubLine(n, story, iso, |above|)] + lower
            && ReservationsOf(LedgerLines(content)) ==
               ReservationsOf(upper) + [Reservation(StubLine(n, story, iso, |above|).heading.value, story, iso)]
               + ReservationsOf(lower)
  {
    hide StateAfter, Emitted, Picked, ToReservation, StubHeading, Marker, StripCr, IsEnding, Split, Visible;
    var l, rest := StubLine(n, story, iso, |above|), [STUB_STATUS] + blanks + below;
    StubText(n, story, iso);
    StubIsVisible(n, story, iso, |above|);
    OneRawLine(None, StubHeading(n, story, iso), |above|);
    FirstLineIsUnfenced(StubHeading(n, story, iso));
    Compose(None, [StubHeading(n, story, iso)], rest, |above|);
    Compose(None, above, [StubHeading(n, story, iso)] + rest, 0);
    StubRoundTrip(n, story, iso, |above|);
    var upper, lower := LinesFrom(None, above, 0), LinesFrom(None, rest, |above| + 1);
    PickedCompose(ToReservation, upper + [l], lower);
    PickedCompose(ToReservation, upper, [l]);
    PickedOne(ToReservation, l);
  }

  lemma FirstLineIsUnfenced(text: string)
    requires Marker(StripCr(text)).None?
    ensures FenceNext(None, text) == None
  {
  }

  /** The block of a written stub is its two lines, whatever stands above it and whatever heading or flat
      item follows. */
  lemma WrittenStubBlock(content: string, n: nat, story: string, iso: string, above: seq<string>, blanks: seq<string>,
                         below: seq<string>)
    requires IsStory(story) && IsIsoTimestamp(iso) && HoldsStub(content, n, story, iso, above, blanks, below)
    requires forall r | r in ReservationsIn(above) :: r.heading.normalizedId != "dw-" + Decimal(n)
    ensures StubBlock(content, "dw-" + Decimal(n)) == Some((|above|, |above| + 2))
  {
    hide LedgerLines, LinesFrom, ReservationsOf, StubHeading, IsEnding, Split, BodyLength, FindFirst, Decimal,
      DropBlankTail, EntriesUpTo, IsBlankText;
    var (all, total, wanted) := (LedgerLines(content), |Lines(content)|, "dw-" + Decimal(n));
    var rest := [STUB_STATUS] + blanks + below;
    var upper, lower := LinesFrom(None, above, 0), LinesFrom(None, rest, |above| + 1);
    var l := StubLine(n, story, iso, |above|);
    LedgerNumbered(content);
    StubReads(content, n, story, iso, above, blanks, below);
    FirstWithId(ReservationsOf(upper), Reservation(l.heading.value, story, iso), ReservationsOf(lower), wanted);
    var r := FindFirst(ReservationsOf(all), WithId(wanted));
    assert ReservationsOf(all)[r] == Reservation(l.heading.value, story, iso);
    assert all[|upper|] == l && all[|upper| + 1..] == lower;
    EntryOnLine(all, |upper|, total);
    StubBody(blanks, below, |above| + 1);
    var last := |above| + 2 + |blanks|;
    assert FirstStub(all, total, wanted) == Some((|above| + 1, last));
    StatusIsText();
    BlanksUnderStub(Lines(content), above, StubHeading(n, story, iso), STUB_STATUS, blanks, below);
  }

  lemma {:induction false} DropBlanksTo(lines: seq<string>, low: nat, mid: nat, end: nat)
    requires low < mid <= end <= |lines| && !IsBlankText(lines[mid - 1])
    requires forall k | mid <= k < end :: IsBlankText(lines[k])
    ensures DropBlankTail(lines, low, end) == mid
    decreases end
  {
    TrimEmpty(lines[end - 1]);
    if mid < end {
      DropBlanksTo(lines, low, mid, end - 1);
    }
  }

  /** The blank lines below the stub's two lines are dropped from its block. */
  lemma BlanksDropped(head: seq<string>, blanks: seq<string>, below: seq<string>)
    requires |head| >= 2 && !IsBlankText(head[|head| - 1])
    requires forall k | 0 <= k < |blanks| :: IsBlankText(blanks[k])
    ensures DropBlankTail(head + blanks + below, |head| - 1, |head| + |blanks|) == |head|
  {
    hide IsBlankText, DropBlankTail;
    DropBlanksTo(head + blanks + below, |head| - 1, |head|, |head| + |blanks|);
  }

  lemma BlanksUnderStub(lines: seq<string>, above: seq<string>, heading: string, status: string, blanks: seq<string>,
                        below: seq<string>)
    requires lines == above + ([heading] + ([status] + blanks + below)) && !IsBlankText(status)
    requires forall k | 0 <= k < |blanks| :: IsBlankText(blanks[k])
    ensures DropBlankTail(lines, |above| + 1, |above| + 2 + |blanks|) == |above| + 2
  {
    hide IsBlankText, DropBlankTail;
    var head := above + [heading, status];
    assert lines == head + blanks + below;
    BlanksDropped(head, blanks, below);
  }

  /** Replacing it puts the entry in the place of the two lines and leaves every other line. */
  lemma WrittenStubIsReplaced(content: string, n: nat, story: string, iso: string, above: seq<string>, blanks: seq<string>,
                              below: seq<string>, entryText: string)
    requires IsStory(story) && IsIsoTimestamp(iso) && HoldsStub(content, n, story, iso, above, blanks, below)
    requires forall r | r in ReservationsIn(above) :: r.heading.normalizedId != "dw-" + Decimal(n)
    ensures var edited := ReplaceEdit("dw-" + Decimal(n), entryText, content);
            edited.Some? && Lines(edited.value) == above + (EntryLines(entryText) + (blanks + below))
  {
    hide StubBlock, LinesFrom, ReservationsOf, StubHeading, IsEnding, Split, Join, Decimal, IsBlankText, FenceAfter, TrimEnd;
    WrittenStubBlock(content, n, story, iso, above, blanks, below);
    var (lines, entry) := (Lines(content), EntryLines(entryText));
    assert lines[..|above|] == above && lines[|above| + 2..] == blanks + below;
    var after := above + entry + (blanks + below);
    forall k | 0 <= k < |blanks + below|
      ensures '\n' !in (blanks + below)[k]
    {
      assert (blanks + below)[k] == lines[|above| + 2 + k];
    }
    assert forall k | 0 <= k < |above| :: above[k] == lines[k];
    SplitJoin(after, '\n');
    assert after == above + (entry + (blanks + below));
  }

  // ----- reserved stubs -----

  lemma {:induction false} StubLinesCut(first: nat, count: nat, story: string, iso: string, k: nat)
    requires k < count
    ensures StubLines(first, count, story, iso) ==
            StubLines(first, k, story, iso)
            + ([StubHeading(first + k, story, iso)] + ([STUB_STATUS] + [""] + StubLines(first + k + 1, count - k - 1, story, iso)))
    ensures |StubLines(first, k, story, iso)| == 3 * k
    decreases k
  {
    hide StubHeading;
    var (head, tail) := ([StubHeading(first, story, iso), STUB_STATUS, ""], StubLines(first + 1, count - 1, story, iso));
    if k == 0 {
      assert StubLines(first, 0, story, iso) == [];
      assert StubLines(first, count, story, iso) == head + tail;
    } else {
      StubLinesCut(first + 1, count - 1, story, iso, k - 1);
      assert StubLines(first, k, story, iso) == head + StubLines(first + 1, k - 1, story, iso);
    }
  }

  lemma StubIsEnding(n: nat, story: string, iso: string)
    requires IsStory(story) && IsIsoTimestamp(iso)
    ensures IsEnding(StubHeading(n, story, iso))
  {
    hide ToDwHeading, IsHeadingText, StubHeading;
    StubText(n, story, iso);
    StubIsHeading(n, story, iso, 1);
    HeadingTextExactly(StubHeading(n, story, iso), 1);
  }

  /** The ledger above the stub of the `k`-th reserved id has no stub for it and no open fence. */
  lemma AboveStub(ledger: string, current: string, first: nat, story: string, iso: string, k: nat)
    requires IsStory(story) && IsIsoTimestamp(iso) && first > MaxPlainId(ledger) && FenceClosed(ledger)
    ensures var above := Lines(ledger) + (Preamble(current) + StubLines(first, k, story, iso));
            && FenceAfter(None, above).None?
            && forall r | r in ReservationsIn(above) :: r.heading.normalizedId != "dw-" + Decimal(first + k)
  {
    hide LinesFrom, FenceAfter, HeadingsOf, ReservationsOf, StubLines, Preamble, Split, Unfenced, MaxPlainId, Decimal, StubHeadings;
    var raw, added := Lines(ledger), Preamble(current) + StubLines(first, k, story, iso);
    AddedRead(current, first, k, story, iso, |raw|);
    BelowText(raw, added);
    FreshHasNoStub(ledger, first + k);
    var stubs := StubReservations(first, k, story, iso, |raw| + |Preamble(current)|);
    forall i | 0 <= i < k
      ensures stubs[i].heading.normalizedId != "dw-" + Decimal(first + k)
    {
      OtherId(first + i, first + k);
    }
  }

  lemma OtherId(m: nat, n: nat)
    requires m != n
    ensures "dw-" + Decimal(m) != "dw-" + Decimal(n)
  {
    NumberOfDecimal(m);
    NumberOfDecimal(n);
    assert ("dw-" + Decimal(m))[3..] == Decimal(m) && ("dw-" + Decimal(n))[3..] == Decimal(n);
  }

  /** Right after a reservation the block of each reserved id is the two lines written for it: the heading with
      the id, the story and the time, and the status. */
  lemma ReservedBlock(ledger: string, current: string, first: nat, count: nat, story: string, iso: string, k: nat)
    requires IsStory(story) && IsIsoTimestamp(iso) && k < count
    requires first > MaxPlainId(ledger) && FenceClosed(ledger)
    ensures var at := |Lines(ledger)| + |Preamble(current)| + 3 * k;
            var after := ledger + AppendText(current, first, count, story, iso);
            && StubBlock(after, "dw-" + Decimal(first + k)) == Some((at, at + 2))
            && Lines(after)[at..at + 2] ==
               ["### DW-" + Decimal(first + k) + ": RESERVED " + story + " " + iso, "status: reserved"]
  {
    hide StubBlock, FenceAfter, StubLines, Preamble, Split, MaxPlainId, Decimal, StubHeading, AppendText, ReservationsIn, IsEnding;
    var content := ledger + AppendText(current, first, count, story, iso);
    var above := Lines(ledger) + (Preamble(current) + StubLines(first, k, story, iso));
    var below := StubLines(first + k + 1, count - k - 1, story, iso);
    AppendedLines(ledger, current, first, count, story, iso);
    StubLinesCut(first, count, story, iso, k);
    AboveStub(ledger, current, first, story, iso, k);
    if k + 1 < count {
      SplitOff(first + k + 1, count - k - 1, story, iso, 0);
      StubIsEnding(first + k + 1, story, iso);
    } else {
      NoStubs(first + k + 1, story, iso);
    }
    WrittenStubBlock(content, first + k, story, iso, above, [""], below);
    TwoLines(above, StubHeading(first + k, story, iso), STUB_STATUS, [""] + below);
    StubHeadingIs(first + k, story, iso);
  }

  lemma TwoLines(above: seq<string>, heading: string, status: string, below: seq<string>)
    ensures (above + ([heading] + ([status] + below)))[|above|..|above| + 2] == [heading, status]
  {
  }

  lemma StubHeadingIs(n: nat, story: string, iso: string)
    ensures StubHeading(n, story, iso) == "### DW-" + Decimal(n) + ": RESERVED " + story + " " + iso
  {
    hide Decimal;
    assert "### " + DW == "### DW-" && ": " + RESERVED + " " == ": RESERVED ";
  }

  lemma NoStubs(first: nat, story: string, iso: string)
    ensures StubLines(first, 0, story, iso) == []
  {
  }
}
