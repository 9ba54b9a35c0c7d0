/** DW-number reservation stubs: how they are written, read back, and found in the ledger. */
module DwReservation {
  import opened DeferredWorkLedger
  import opened LineReader
  import opened Text

  const RESERVED: string := "RESERVED"

  /** The exact shape `Date#toISOString` writes; `0` stands for any digit. */
  const ISO_SHAPE: string := "0000-00-00T00:00:00.000Z"

  predicate IsIsoTimestamp(s: string) {
    && |s| == |ISO_SHAPE|
    && forall k | 0 <= k < |s| :: if ISO_SHAPE[k] == '0' then IsDigit(s[k]) else s[k] == ISO_SHAPE[k]
  }

  /** Digit-led, then id characters only. */
  predicate IsValidStoryKey(key: string) { key != "" && IsDigit(key[0]) && All(key, IsIdChar) }

  const DEFAULT_STORY: string := "unspecified"

  /** What `reserveDwIds` lets into a stub: its default, or a validated key. */
  predicate IsStory(key: string) { key == DEFAULT_STORY || IsValidStoryKey(key) }

  function StubHeading(n: nat, story: string, iso: string): string {
    "### " + DW + Decimal(n) + ": " + RESERVED + " " + story + " " + iso
  }

  const STUB_STATUS: string := "status: reserved"

  function FormatReservationStub(n: nat, story: string, iso: string): string {
    StubHeading(n, story, iso) + "\n" + STUB_STATUS + "\n"
  }

  // ----- reading stubs -----

  datatype Reservation = Reservation(heading: DwHeading, story: string, timestampText: string)

  /** What follows `#{1,6} DW-<run>:? RESERVED` in a heading, when that prefix is there. */
  function AfterStubPrefix(text: string): Option<string> {
    var prefix := DwPrefix(text);
    if prefix.None? then None
    else
      var run := Span(prefix.value.1, IsIdChar);
      if run == 0 then None else AfterReserved(prefix.value.1[run..])
  }

  /** What follows `:?`, blanks and the word RESERVED. */
  function AfterReserved(tail: string): Option<string> {
    var afterColon := if tail != "" && tail[0] == ':' then tail[1..] else tail;
    var gap := Span(afterColon, IsBlank);
    var word := afterColon[gap..];
    if gap == 0 || !StartsWith(word, RESERVED) then None
    else
      var after := word[|RESERVED|..];
      if after != "" && IsAlnum(after[0]) then None else Some(after)
  }

  function FirstWord(s: string): string { s[..Span(s, NotSpace)] }

  /** What follows the first word and the white space after it. */
  function AfterFirstWord(s: string): string {
    var rest := s[Span(s, NotSpace)..];
    rest[Span(rest, IsSpace)..]
  }

  function ToReservation(l: LedgerLine): Option<Reservation> {
    if l.heading.None? || AfterStubPrefix(l.text).None? then None
    else
      var words := Trim(AfterStubPrefix(l.text).value);
      Some(Reservation(l.heading.value, FirstWord(words), FirstWord(AfterFirstWord(words))))
  }

  function ReservationsOf(lines: seq<LedgerLine>): seq<Reservation> { Picked(ToReservation, lines) }

  /** The stubs the parser sees in a ledger. */
  function ParseReservations(content: string): seq<Reservation> { ReservationsOf(LedgerLines(content)) }

  // ----- a written stub reads back as what was written -----

  lemma NormalizeTwo(a: string, b: string)
    requires All(a, NotSeparator) && All(b, NotSeparator)
    ensures NormalizeSegments(a + "-" + b) == NormalizeSegment(a) + "-" + NormalizeSegment(b)
  {
    var id := a + "-" + b;
    assert id == a + ("-" + b);
    SpanOf(a, "-" + b, NotSeparator);
    assert id[..|a|] == a && id[|a| + 1..] == b;
    SpanOf(b, "", NotSeparator);
    assert b + "" == b;
  }

  lemma LowerCaseId(digits: string)
    requires All(digits, IsDigit)
    ensures ToLower(DW + digits) == "dw" + "-" + digits
  {
  }

  lemma DecimalNormalized(n: nat)
    ensures NormalizeDwId(DW + Decimal(n)) == "dw-" + Decimal(n)
  {
    hide ToLower, NormalizeSegments, Decimal, Number;
    var digits := Decimal(n);
    LowerCaseId(digits);
    NormalizeTwo("dw", digits);
    NumberOfDecimal(n);
    assert !IsDigit("dw"[0]);
    assert "dw" + "-" == "dw-";
  }

  lemma {:induction false} NothingDoubled(run: string)
    requires All(run, IsAlnum)
    ensures BeforeDoubled(run) == |run|
  {
    if run != "" {
      NothingDoubled(run[1..]);
    }
  }

  /** Cutting a stub line after its prefix: the digits, then the rest. */
  lemma StubPrefix(text: string, tail: string)
    requires text == "### " + DW + tail
    ensures DwPrefix(text) == Some((3, tail))
  {
    assert text[3..] == " " + (DW + tail);
    SpanOf(" ", DW + tail, IsBlank);
    assert text[0] == '#' && text[1] == '#' && text[2] == '#' && text[3] == ' ';
    assert text[4..] == DW + tail;
  }

  function StubTail(n: nat, story: string, iso: string): string {
    ": " + RESERVED + " " + story + " " + iso
  }

  lemma StubCut(n: nat, story: string, iso: string)
    ensures DwPrefix(StubHeading(n, story, iso)) == Some((3, Decimal(n) + StubTail(n, story, iso)))
    ensures Span(Decimal(n) + StubTail(n, story, iso), IsIdChar) == |Decimal(n)|
  {
    var tail := StubTail(n, story, iso);
    assert StubHeading(n, story, iso) == "### " + DW + (Decimal(n) + tail);
    StubPrefix(StubHeading(n, story, iso), Decimal(n) + tail);
    SpanOf(Decimal(n), tail, IsIdChar);
  }

  lemma WholeRun(run: string)
    requires All(run, IsAlnum)
    ensures IdToken(run) == run
  {
    NothingDoubled(run);
    assert run[..|run|] == run;
  }

  lemma RunHeading(text: string, run: string, tail: string, number: nat)
    requires DwPrefix(text) == Some((3, run + tail)) && Span(run + tail, IsIdChar) == |run|
    requires run != "" && All(run, IsAlnum)
    ensures ToDwHeading(text, number) == Some(DwHeading(DW + run, NormalizeDwId(DW + run), number, 3))
  {
    hide DwPrefix, Span, IdToken, NormalizeDwId;
    assert (run + tail)[..|run|] == run;
    WholeRun(run);
  }

  /** A level-3 heading line for id `n`, whatever follows the id. */
  lemma IdHeading(n: nat, tail: string, number: nat)
    requires tail == "" || !IsIdChar(tail[0])
    ensures ToDwHeading("### " + DW + (Decimal(n) + tail), number) ==
            Some(DwHeading(DW + Decimal(n), "dw-" + Decimal(n), number, 3))
  {
    hide DwPrefix, Span, NormalizeDwId, ToDwHeading;
    var text := "### " + DW + (Decimal(n) + tail);
    StubPrefix(text, Decimal(n) + tail);
    SpanOf(Decimal(n), tail, IsIdChar);
    RunHeading(text, Decimal(n), tail, number);
    DecimalNormalized(n);
  }

  lemma StubIsHeading(n: nat, story: string, iso: string, number: nat)
    ensures ToDwHeading(StubHeading(n, story, iso), number) ==
            Some(DwHeading(DW + Decimal(n), "dw-" + Decimal(n), number, 3))
  {
    hide ToDwHeading;
    assert StubHeading(n, story, iso) == "### " + DW + (Decimal(n) + StubTail(n, story, iso));
    IdHeading(n, StubTail(n, story, iso), number);
  }

  lemma ReservedTail(words: string)
    requires words == "" || !IsAlnum(words[0])
    ensures AfterReserved(": " + RESERVED + words) == Some(words)
  {
    var tail := ": " + RESERVED + words;
    assert tail[1..] == " " + (RESERVED + words);
    SpanOf(" ", RESERVED + words, IsBlank);
    assert tail[1..][1..] == RESERVED + words;
    assert (RESERVED + words)[..8] == RESERVED;
    assert (RESERVED + words)[8..] == words;
  }

  lemma StubTailWords(n: nat, story: string, iso: string)
    ensures StubTail(n, story, iso) == ": " + RESERVED + (" " + story + " " + iso)
  {
  }

  lemma StubIsReservation(n: nat, story: string, iso: string)
    ensures AfterStubPrefix(StubHeading(n, story, iso)) == Some(" " + story + " " + iso)
  {
    hide DwPrefix, AfterReserved, StubHeading, StubTail, Span;
    var run, tail := Decimal(n), StubTail(n, story, iso);
    StubCut(n, story, iso);
    assert (run + tail)[|run|..] == tail;
    StubTailWords(n, story, iso);
    ReservedTail(" " + story + " " + iso);
  }

  /** A word, a space, a word: read back word by word. */
  lemma TwoWords(a: string, b: string)
    requires a != "" && b != ""
    requires forall k | 0 <= k < |a| :: !IsSpace(a[k])
    requires forall k | 0 <= k < |b| :: !IsSpace(b[k])
    ensures Trim(" " + a + " " + b) == a + " " + b
    ensures FirstWord(a + " " + b) == a && FirstWord(AfterFirstWord(a + " " + b)) == b
  {
    var s := " " + a + " " + b;
    assert s[|s| - 1] == b[|b| - 1];
    assert TrimEnd(s) == s;
    SpanOf(" ", a + " " + b, IsSpace);
    assert s == " " + (a + " " + b);
    SpanOf(a, " " + b, NotSpace);
    assert a + " " + b == a + (" " + b);
    SpanOf(" ", b, IsSpace);
    assert (a + " " + b)[|a|..] == " " + b;
    SpanOf(b, "", NotSpace);
    assert b + "" == b;
  }

  lemma StubText(n: nat, story: string, iso: string)
    requires IsStory(story) && IsIsoTimestamp(iso)
    ensures var text := StubHeading(n, story, iso);
            StripCr(text) == text && Marker(text).None? && '\n' !in text
  {
    var text := StubHeading(n, story, iso);
    assert text[0] == '#';
    assert text[|text| - 1] == iso[23] == 'Z';
    assert '\n' !in Decimal(n) && '\n' !in story && '\n' !in iso;
  }

  /** The ledger line a stub's heading line is read as. */
  function StubLine(n: nat, story: string, iso: string, at: nat): LedgerLine {
    LedgerLine(at + 1, StubHeading(n, story, iso),
               Some(DwHeading(DW + Decimal(n), "dw-" + Decimal(n), at + 1, 3)), false)
  }

  lemma VisibleHeading(text: string, heading: DwHeading, at: nat)
    requires StripCr(text) == text && Marker(text).None? && ToDwHeading(text, at + 1) == Some(heading)
    ensures Visible(None, text, at) == [LedgerLine(at + 1, text, Some(heading), false)]
  {
  }

  lemma ReadsBack(line: LedgerLine, a: string, b: string)
    requires line.heading.Some? && AfterStubPrefix(line.text) == Some(" " + a + " " + b)
    requires a != "" && b != "" && All(a, NotSpace) && All(b, NotSpace)
    ensures ToReservation(line) == Some(Reservation(line.heading.value, a, b))
  {
    TwoWords(a, b);
  }

  /** The stub line is an unfenced level-3 heading with the id it was written with. */
  lemma StubIsVisible(n: nat, story: string, iso: string, at: nat)
    requires IsStory(story) && IsIsoTimestamp(iso)
    ensures Visible(None, StubHeading(n, story, iso), at) == [StubLine(n, story, iso, at)]
  {
    StubText(n, story, iso);
    StubIsHeading(n, story, iso, at + 1);
    VisibleHeading(StubHeading(n, story, iso), StubLine(n, story, iso, at).heading.value, at);
  }

  lemma StoryWord(story: string)
    requires IsStory(story)
    ensures story != "" && All(story, NotSpace)
  {
    assert All(story, IsIdChar);
  }

  lemma IsoWord(iso: string)
    requires IsIsoTimestamp(iso)
    ensures iso != "" && All(iso, NotSpace)
  {
    forall k | 0 <= k < |iso|
      ensures NotSpace(iso[k])
    {
      assert ISO_SHAPE[k] in "0-T:.Z";
    }
  }

  /** Round trip: a stub reads back as the id, story and timestamp it was written with. */
  lemma StubRoundTrip(n: nat, story: string, iso: string, at: nat)
    requires IsStory(story) && IsIsoTimestamp(iso)
    ensures ToReservation(StubLine(n, story, iso, at)) ==
            Some(Reservation(StubLine(n, story, iso, at).heading.value, story, iso))
  {
    StubIsReservation(n, story, iso);
    StoryWord(story);
    IsoWord(iso);
    ReadsBack(StubLine(n, story, iso, at), story, iso);
  }

  // ----- the block of a stub -----

  /** First position whose item satisfies `ok`, or the length. */
  function FindFirst<T>(items: seq<T>, ok: T -> bool): (k: nat)
    ensures k <= |items| && (k < |items| ==> ok(items[k]))
    ensures forall j | 0 <= j < k :: !ok(items[j])
  {
    if items == [] || ok(items[0]) then 0 else 1 + FindFirst(items[1..], ok)
  }

  /** `end` without the blank lines before it, never below `low`. */
  function DropBlankTail(lines: seq<string>, low: nat, end: nat): (e: nat)
    requires end <= |lines|
    ensures e <= end && (low <= end ==> low <= e)
    ensures forall k | e <= k < end :: IsBlankText(lines[k])
  {
    if end > low && Trim(lines[end - 1]) == "" then
      TrimEmpty(lines[end - 1]);
      DropBlankTail(lines, low, end - 1)
    else end
  }

  function WithId(wanted: string): Reservation -> bool { (s: Reservation) => s.heading.normalizedId == wanted }

  function OnLine(line: nat): DwEntry -> bool { (e: DwEntry) => e.heading.line == line }

  /** A heading's entry is the only one on its line. */
  lemma {:induction false} EntryOnLine(all: seq<LedgerLine>, p: nat, total: nat)
    requires Numbered(all, total) && p < |all| && all[p].heading.Some?
    ensures var entries := EntriesUpTo(all, |all|, total);
            var e := FindFirst(entries, OnLine(all[p].line));
            && e < |entries| && entries[e] == EntryAt(all, p, total)
            && 1 <= all[p].line <= entries[e].bodyEndLine <= total
  {
    hide EndsBody, BodyLength, BodyLines;
    var entries := EntriesUpTo(all, |all|, total);
    EntriesMonotone(all, p + 1, |all|, total);
    var own := |EntriesUpTo(all, p, total)|;
    assert entries[own] == EntryAt(all, p, total);
    var e := FindFirst(entries, OnLine(all[p].line));
    assert OnLine(all[p].line)(entries[own]);
    var q := HeadingAt(all, |all|, e, total);
    assert all[q].line == all[p].line;
    BodyRange(all, p, total, p);
  }

  /** The ledger line of stub `r`, between the lines of the stubs before and after it. */
  lemma StubLineOf(all: seq<LedgerLine>, r: nat)
    returns (before: seq<LedgerLine>, l: LedgerLine, after: seq<LedgerLine>)
    requires r < |ReservationsOf(all)|
    ensures all == before + [l] + after && l.heading.Some?
    ensures ToReservation(l) == Some(ReservationsOf(all)[r]) && ReservationsOf(all)[r].heading == l.heading.value
    ensures ReservationsOf(before) == ReservationsOf(all)[..r]
  {
    hide AfterStubPrefix;
    before, l, after := PickedOrigin(ToReservation, all, r);
  }

  /** Every stub heading opens an entry. */
  lemma StubHasEntry(all: seq<LedgerLine>, r: nat, total: nat)
    requires Numbered(all, total) && r < |ReservationsOf(all)|
    ensures var line := ReservationsOf(all)[r].heading.line;
            var entries := EntriesUpTo(all, |all|, total);
            var e := FindFirst(entries, OnLine(line));
            e < |entries| && 1 <= line <= entries[e].bodyEndLine <= total
  {
    hide ToReservation;
    var before, l, after := StubLineOf(all, r);
    assert all[|before|] == l;
    EntryOnLine(all, |before|, total);
  }

  /** Where the first stub for `wanted` is: its line, and the last line of its entry. */
  function FirstStub(all: seq<LedgerLine>, total: nat, wanted: string): (r: Option<(nat, nat)>)
    requires Numbered(all, total)
    ensures r.Some? ==> 1 <= r.value.0 <= r.value.1 <= total
  {
    var stubs := ReservationsOf(all);
    var r := FindFirst(stubs, WithId(wanted));
    if r == |stubs| then None
    else
      var line := stubs[r].heading.line;
      StubHasEntry(all, r, total);
      var entries := EntriesUpTo(all, |all|, total);
      Some((line, entries[FindFirst(entries, OnLine(line))].bodyEndLine))
  }

  /** Line index range of the first stub for `wanted`, without trailing blank lines. */
  function StubBlock(content: string, wanted: string): (block: Option<(nat, nat)>)
    ensures block.Some? ==> block.value.0 < block.value.1 <= |Lines(content)|
  {
    hide FirstStub, Numbered, LedgerLines, Split;
    LedgerNumbered(content);
    var stub := FirstStub(LedgerLines(content), |Lines(content)|, wanted);
    if stub.None? then None
    else Some((stub.value.0 - 1, DropBlankTail(Lines(content), stub.value.0, stub.value.1)))
  }

  /** A block is found exactly when the ledger holds a stub for the id. */
  lemma StubBlockExists(content: string, wanted: string)
    ensures StubBlock(content, wanted).Some? <==>
            exists r | r in ParseReservations(content) :: r.heading.normalizedId == wanted
  {
    hide Numbered, LedgerLines, Split, ReservationsOf, DropBlankTail, EntriesUpTo;
    LedgerNumbered(content);
    var stubs := ParseReservations(content);
    var r := FindFirst(stubs, WithId(wanted));
    if r < |stubs| {
      assert stubs[r] in stubs;
    } else {
      FirstOneBefore(stubs, wanted);
      assert stubs[..r] == stubs;
    }
  }

  method SkipBlankTail(lines: seq<string>, line: nat, last: nat) returns (end: nat)
    requires last <= |lines|
    ensures end == DropBlankTail(lines, line, last)
  {
    end := last;
    while end > line && Trim(lines[end - 1]) == ""
      invariant end <= |lines|
      invariant DropBlankTail(lines, line, last) == DropBlankTail(lines, line, end)
    {
      end := end - 1;
    }
  }

  method FindStubBlock(content: string, wanted: string) returns (block: Option<(nat, nat)>)
    ensures block == StubBlock(content, wanted)
  {
    hide FirstStub, Numbered, DropBlankTail, LedgerLines, Split;
    var all := CollectLedgerLines(content);
    LedgerNumbered(content);
    var stub := FirstStub(all, |Lines(content)|, wanted);
    if stub.None? {
      return None;
    }
    var end := SkipBlankTail(Lines(content), stub.value.0, stub.value.1);
    return Some((stub.value.0 - 1, end));
  }

  // ----- the stub block is fence-neutral and holds one heading -----

  /** A blank line neither closes nor opens a fence. */
  lemma BlankLine(fence: Option<Fence>, raw: string)
    requires IsBlankText(raw) && fence.Some?
    ensures FenceNext(fence, raw) == fence
  {
    var text := StripCr(raw);
    TrimEmpty(text);
    var marker := Marker(text);
    if marker.Some? {
      assert |seq(marker.value.length, _ => fence.value.mark)| > 0;
    }
  }

  lemma {:induction false} BlankKeepsFence(fence: Option<Fence>, raw: seq<string>)
    requires forall k | 0 <= k < |raw| :: IsBlankText(raw[k])
    ensures fence.Some? ==> FenceAfter(fence, raw) == fence
    decreases raw
  {
    hide NextFence, IsBlankText, StripCr;
    if raw != [] && fence.Some? {
      BlankLine(fence, raw[0]);
      BlankKeepsFence(FenceNext(fence, raw[0]), raw[1..]);
    }
  }

  ghost predicate NoHeadings(lines: seq<LedgerLine>) {
    forall l | l in lines :: l.heading.None?
  }

  lemma BodyHasNoHeading(rest: seq<LedgerLine>)
    ensures NoHeadings(rest[..BodyLength(rest, false)])
  {
    var n := BodyLength(rest, false);
    forall l | l in rest[..n]
      ensures l.heading.None?
    {
      var k :| 0 <= k < n && rest[k] == l;
      BodyLengthStep(rest, k, false);
    }
  }

  lemma NothingToPick(lines: seq<LedgerLine>)
    requires NoHeadings(lines)
    ensures HeadingsOf(lines) == [] && ReservationsOf(lines) == []
  {
    PickedNone(HeadingOf, lines);
    PickedNone(ToReservation, lines);
  }

  /** The raw text of an entry's body, and the raw text below it. */
  lemma BodyText(raw: seq<string>, at: nat) returns (body: seq<string>, tail: seq<string>)
    requires FenceAfter(None, raw).None?
    ensures raw == body + tail && FenceAfter(None, body).None?
    ensures var rest := LinesFrom(None, raw, at);
            var n := BodyLength(rest, false);
            && LinesFrom(None, body, at) == rest[..n]
            && at + |body| == if n < |rest| then rest[n].line - 1 else at + |raw|
  {
    hide StateAfter, Emitted, Marker, StripCr, BodyLength;
    var rest := LinesFrom(None, raw, at);
    var n := BodyLength(rest, false);
    if n < |rest| {
      var x, b;
      body, x, b := RawOrigin(raw, at, n);
      tail := [x] + b;
      assert rest[n] == Classified(StripCr(x), at + |body| + 1);
    } else {
      body, tail := raw, [];
    }
  }

  /** Dropping blank lines from the end of fence-neutral text leaves it fence-neutral. */
  lemma DropBlanks(kept: seq<string>, blanks: seq<string>, at: nat)
    requires FenceAfter(None, kept + blanks).None?
    requires forall j | 0 <= j < |blanks| :: IsBlankText(blanks[j])
    ensures FenceAfter(None, kept).None?
    ensures LinesFrom(None, kept, at) <= LinesFrom(None, kept + blanks, at)
  {
    hide StateAfter, Emitted;
    Compose(None, kept, blanks, at);
    BlankKeepsFence(FenceAfter(None, kept), blanks);
  }

  /** A ledger cut around one stub block. */
  datatype Cut = Cut(before: seq<string>, block: seq<string>, after: seq<string>, stub: Reservation)

  /** No fence is open at either edge of the block, whose only heading is the stub, the first one for
      `wanted`. */
  ghost predicate CleanCut(raw: seq<string>, wanted: string, c: Cut) {
    && raw == c.before + c.block + c.after
    && FenceAfter(None, c.before).None? && FenceAfter(None, c.block).None?
    && HeadingsOf(LinesFrom(None, c.block, |c.before|)) == [c.stub.heading]
    && ReservationsOf(LinesFrom(None, c.block, |c.before|)) == [c.stub]
    && c.stub.heading.normalizedId == wanted
    && (forall r | r in ReservationsOf(LinesFrom(None, c.before, 0)) :: r.heading.normalizedId != wanted)
  }

  lemma PlainLine(x: string, l: LedgerLine, at: nat)
    requires Marker(StripCr(x)).None? && l == Classified(StripCr(x), at + 1)
    ensures LinesFrom(None, [x], at) == [l] && FenceAfter(None, [x]).None?
  {
    hide Classified, StripCr, Marker;
    var one := [x];
    assert one[..0] == [] && one[..1] == one;
    OneMoreLine(FenceNext, Visible, None, one, 0, at);
  }

  /** What an unfenced first line adds to the headings and stubs of the lines below it. */
  lemma FirstLineRead(x: string, rest: seq<string>, at: nat, l: LedgerLine)
    requires Marker(StripCr(x)).None? && l == Classified(StripCr(x), at + 1)
    ensures FenceAfter(None, [x] + rest) == FenceAfter(None, rest)
    ensures HeadingsOf(LinesFrom(None, [x] + rest, at)) ==
            PickedFrom(l.heading) + HeadingsOf(LinesFrom(None, rest, at + 1))
    ensures ReservationsOf(LinesFrom(None, [x] + rest, at)) ==
            PickedFrom(ToReservation(l)) + ReservationsOf(LinesFrom(None, rest, at + 1))
  {
    hide StateAfter, Emitted, Classified, StripCr, Marker, ToReservation, Picked;
    PlainLine(x, l, at);
    Compose(None, [x], rest, at);
    var below := LinesFrom(None, rest, at + 1);
    PickedCompose(HeadingOf, [l], below);
    PickedCompose(ToReservation, [l], below);
    PickedOne(HeadingOf, l);
    PickedOne(ToReservation, l);
  }

  /** A stub line with a body below it is fence-neutral and holds that stub alone. */
  lemma OneStub(x: string, body: seq<string>, at: nat, l: LedgerLine, s: Reservation)
    requires Marker(StripCr(x)).None? && l == Classified(StripCr(x), at + 1) && ToReservation(l) == Some(s)
    requires l.heading == Some(s.heading)
    requires FenceAfter(None, body).None? && NoHeadings(LinesFrom(None, body, at + 1))
    ensures FenceAfter(None, [x] + body).None?
    ensures HeadingsOf(LinesFrom(None, [x] + body, at)) == [s.heading]
    ensures ReservationsOf(LinesFrom(None, [x] + body, at)) == [s]
  {
    hide StateAfter, Emitted, Classified, StripCr, Marker, ToReservation, Picked;
    FirstLineRead(x, body, at, l);
    NothingToPick(LinesFrom(None, body, at + 1));
  }

  /** What is below an unfenced line in a closed text is closed. */
  lemma BelowIsClosed(a: seq<string>, x: string, b: seq<string>)
    requires FenceAfter(None, a + [x] + b).None? && FenceAfter(None, a).None? && Marker(StripCr(x)).None?
    ensures FenceAfter(None, b).None?
  {
    hide StateAfter, Emitted, Classified, StripCr, Marker;
    PlainLine(x, Classified(StripCr(x), 0 + 1), 0);
    assert a + [x] + b == a + ([x] + b);
    Compose(None, a, [x] + b, 0);
    Compose(None, [x], b, 0);
  }

  lemma FirstOneBefore(stubs: seq<Reservation>, wanted: string)
    ensures forall s | s in stubs[..FindFirst(stubs, WithId(wanted))] :: s.heading.normalizedId != wanted
  {
    var r := FindFirst(stubs, WithId(wanted));
    forall s | s in stubs[..r]
      ensures s.heading.normalizedId != wanted
    {
      var j :| 0 <= j < r && stubs[j] == s;
      assert !WithId(wanted)(stubs[j]);
    }
  }

  /** `DropBlankTail` only looks at the lines between its two bounds. */
  lemma BlankTailOf(pre: seq<string>, body: seq<string>, post: seq<string>)
    returns (kept: seq<string>, blanks: seq<string>)
    ensures body == kept + blanks && forall j | 0 <= j < |blanks| :: IsBlankText(blanks[j])
    ensures DropBlankTail(pre + body + post, |pre|, |pre| + |body|) == |pre| + |kept|
  {
    var e := DropBlankTail(pre + body + post, |pre|, |pre| + |body|) - |pre|;
    kept, blanks := body[..e], body[e..];
    forall j | 0 <= j < |blanks|
      ensures IsBlankText(blanks[j])
    {
      assert blanks[j] == (pre + body + post)[|pre| + e + j];
    }
  }

  lemma SameCut<T>(a: seq<T>, x: T, b: seq<T>, a': seq<T>, x': T, b': seq<T>)
    requires a + [x] + b == a' + [x'] + b' && |a| == |a'|
    ensures a == a' && x == x' && b == b'
  {
    var s := a + [x] + b;
    assert a == s[..|a|] && a' == s[..|a|];
    assert x == s[|a|] && x' == s[|a|];
    assert b == s[|a| + 1..] && b' == s[|a| + 1..];
  }

  /** Cutting at the raw line `x` of stub `s`, whose entry's body ends at line `last`. */
  lemma CutAround(a: seq<string>, x: string, b: seq<string>, l: LedgerLine, s: Reservation, last: nat) returns (c: Cut)
    requires FenceAfter(None, a + [x] + b).None? && FenceAfter(None, a).None? && Marker(StripCr(x)).None?
    requires l == Classified(StripCr(x), |a| + 1) && ToReservation(l) == Some(s) && l.heading == Some(s.heading)
    requires var rest := LinesFrom(None, b, |a| + 1);
             var n := BodyLength(rest, false);
             last == if n < |rest| then rest[n].line - 1 else |a| + 1 + |b|
    ensures c.before == a && a + [x] + b == c.before + c.block + c.after && c.stub == s
    ensures FenceAfter(None, c.block).None?
    ensures HeadingsOf(LinesFrom(None, c.block, |a|)) == [s.heading]
    ensures ReservationsOf(LinesFrom(None, c.block, |a|)) == [s]
    ensures |a| + 1 <= last <= |a| + 1 + |b| && |a| + |c.block| == DropBlankTail(a + [x] + b, |a| + 1, last)
  {
    hide StateAfter, Emitted, Classified, StripCr, Marker, ToReservation, BodyLength, DropBlankTail, IsBlankText;
    BelowIsClosed(a, x, b);
    var body, tail := BodyText(b, |a| + 1);
    BodyHasNoHeading(LinesFrom(None, b, |a| + 1));
    var kept, blanks := BlankTailOf(a + [x], body, tail);
    DropBlanks(kept, blanks, |a| + 1);
    OneStub(x, kept, |a|, l, s);
    assert a + [x] + b == a + [x] + body + tail;
    c := Cut(a, [x] + kept, blanks + tail, s);
    assert a + [x] + (kept + blanks + tail) == a + ([x] + kept) + (blanks + tail);
  }

  lemma LineNumber(text: string, number: nat)
    ensures Classified(text, number).line == number
  {
  }

  /** The block `stubBlock` finds cuts a fence-closed ledger cleanly. */
  lemma CutAtStub(content: string, wanted: string) returns (c: Cut)
    requires FenceClosed(content) && StubBlock(content, wanted).Some?
    ensures CleanCut(Lines(content), wanted, c)
    ensures StubBlock(content, wanted) == Some((|c.before|, |c.before| + |c.block|))
  {
    hide StateAfter, Emitted, Classified, StripCr, Marker, ToReservation, BodyLength, DropBlankTail, Picked, FindFirst;
    var raw, all := Lines(content), LedgerLines(content);
    LedgerNumbered(content);
    var stubs := ReservationsOf(all);
    var r := FindFirst(stubs, WithId(wanted));
    var before, l, after := StubLineOf(all, r);
    var a, x, b := RawOrigin(raw, 0, |before|);
    SameCut(before, l, after, LinesFrom(None, a, 0), Classified(StripCr(x), |a| + 1), LinesFrom(None, b, |a| + 1));
    LineNumber(StripCr(x), |a| + 1);
    assert all[|before|] == l && all[|before| + 1..] == after;
    EntryOnLine(all, |before|, |raw|);
    FirstOneBefore(stubs, wanted);
    c := CutAround(a, x, b, l, stubs[r], FirstStub(all, |raw|, wanted).value.1);
  }
}
