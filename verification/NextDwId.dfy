/** Allocating the next DW ID from every ledger version in sight, and reserving IDs in the ledger. */
module NextDwId {
  import opened DeferredWorkLedger
  import opened DwReservation
  import opened LineReader
  import opened ReplaceReservation
  import opened SafeEdit
  import opened Text

  // ----- the highest plain ID -----

  const PLAIN_PREFIX: string := "dw-"

  /** The number of a plain `dw-<n>` id; variant ids have none. */
  function PlainNumber(normalizedId: string): Option<nat> {
    if StartsWith(normalizedId, PLAIN_PREFIX) && |normalizedId| > 3 && All(normalizedId[3..], IsDigit)
    then Some(Number(normalizedId[3..])) else None
  }

  function Max(a: nat, b: nat): nat { if a >= b then a else b }

  function MaxIn(headings: seq<DwHeading>): nat {
    if headings == [] then 0
    else
      var plain := PlainNumber(headings[0].normalizedId);
      Max(if plain.Some? then plain.value else 0, MaxIn(headings[1..]))
  }

  function MaxPlainId(content: string): nat { MaxIn(ParseDwHeadings(content)) }

  /** The number of every plain heading is at most the maximum, and one of them reaches it. */
  lemma {:induction false} MaxInIsMax(headings: seq<DwHeading>)
    ensures forall h | h in headings && PlainNumber(h.normalizedId).Some? ::
              PlainNumber(h.normalizedId).value <= MaxIn(headings)
    ensures MaxIn(headings) > 0 ==> exists h | h in headings :: PlainNumber(h.normalizedId) == Some(MaxIn(headings))
  {
    hide PlainNumber;
    if headings != [] {
      MaxInIsMax(headings[1..]);
      assert headings[0] in headings;
    }
  }

  lemma {:induction false} MaxCompose(a: seq<DwHeading>, b: seq<DwHeading>)
    ensures MaxIn(a + b) == Max(MaxIn(a), MaxIn(b))
  {
    hide PlainNumber;
    if a == [] {
      assert a + b == b;
    } else {
      assert (a + b)[1..] == a[1..] + b;
      MaxCompose(a[1..], b);
    }
  }

  method ComputeMaxPlainId(content: string) returns (max: nat)
    ensures max == MaxPlainId(content)
  {
    hide PlainNumber, ParseDwHeadings;
    max := 0;
    var headings := ParseDwHeadings(content);
    for k := 0 to |headings|
      invariant max == MaxIn(headings[..k])
    {
      var plain := PlainNumber(headings[k].normalizedId);
      MaxCompose(headings[..k], [headings[k]]);
      assert headings[..k + 1] == headings[..k] + [headings[k]];
      assert MaxIn([headings[k]][1..]) == 0;
      if plain.Some? {
        max := Max(max, plain.value);
      }
    }
    assert headings[..|headings|] == headings;
  }

  /** A ledger version: the working tree, or the file at a git ref. */
  datatype LedgerSource = LedgerSource(origin: string, content: string)

  function MaxOver(sources: seq<LedgerSource>): nat {
    if sources == [] then 0 else Max(MaxOver(sources[..|sources| - 1]), MaxPlainId(sources[|sources| - 1].content))
  }

  /** The maximum is an upper bound, and one of the sources reaches it. */
  lemma {:induction false} MaxOverIsMax(sources: seq<LedgerSource>)
    ensures forall k | 0 <= k < |sources| :: MaxPlainId(sources[k].content) <= MaxOver(sources)
    ensures MaxOver(sources) > 0 ==> exists k | 0 <= k < |sources| :: MaxPlainId(sources[k].content) == MaxOver(sources)
  {
    hide MaxPlainId;
    if sources != [] {
      var last := |sources| - 1;
      MaxOverIsMax(sources[..last]);
      assert forall k | 0 <= k < last :: sources[..last][k] == sources[k];
    }
  }

  /** The loop of `allocateNextDwId`; the source is where the maximum is first reached. */
  method Allocate(sources: seq<LedgerSource>) returns (max: nat, source: Option<string>)
    ensures max == MaxOver(sources)
    ensures source.None? <==> max == 0
    ensures source.Some? ==>
              exists k | 0 <= k < |sources| ::
                && sources[k].origin == source.value && MaxPlainId(sources[k].content) == max
                && forall j | 0 <= j < k :: MaxPlainId(sources[j].content) < max
  {
    hide MaxPlainId;
    max, source := 0, None;
    ghost var at := 0;
    for k := 0 to |sources|
      invariant max == MaxOver(sources[..k])
      invariant source.None? <==> max == 0
      invariant forall j | 0 <= j < k :: MaxPlainId(sources[j].content) <= max
      invariant source.Some? ==>
                  && at < k && sources[at].origin == source.value && MaxPlainId(sources[at].content) == max
                  && forall j | 0 <= j < at :: MaxPlainId(sources[j].content) < max
    {
      var sourceMax := ComputeMaxPlainId(sources[k].content);
      assert sources[..k + 1][..k] == sources[..k];
      if sourceMax > max {
        max, source, at := sourceMax, Some(sources[k].origin), k;
      }
    }
    assert sources[..|sources|] == sources;
  }

  // ----- the appended text -----

  const RESERVED_SECTION: string := "## Reserved (not yet written)"

  /** The last line that starts with `## `, if any. */
  function LastH2(lines: seq<string>): Option<string> {
    if lines == [] then None
    else if StartsWith(lines[|lines| - 1], "## ") then Some(lines[|lines| - 1])
    else LastH2(lines[..|lines| - 1])
  }

  predicate EndsInReservedSection(content: string) {
    var last := LastH2(Lines(content));
    last.Some? && Trim(last.value) == RESERVED_SECTION
  }

  /** `count` consecutive stubs, joined by line breaks. */
  function StubsText(first: nat, count: nat, story: string, iso: string): string
    requires count > 0
    decreases count
  {
    if count == 1 then FormatReservationStub(first, story, iso)
    else FormatReservationStub(first, story, iso) + "\n" + StubsText(first + 1, count - 1, story, iso)
  }

  function AppendText(current: string, first: nat, count: nat, story: string, iso: string): string
    requires count > 0
  {
    (if EndsWith(current, "\n") then "\n" else "\n\n")
    + (if EndsInReservedSection(current) then "" else RESERVED_SECTION + "\n\n")
    + StubsText(first, count, story, iso)
  }

  lemma StubsBegin(first: nat, count: nat, story: string, iso: string)
    requires count > 0
    ensures var stubs := StubsText(first, count, story, iso);
            |stubs| > 2 && stubs[0] == stubs[1] == stubs[2] == '#'
  {
    var heading := StubHeading(first, story, iso);
    assert heading[0] == heading[1] == heading[2] == '#';
  }

  /** Of the ledger it is written for, the appended text shows whether it ends in a line break and whether
      it ends in the Reserved section, and nothing else. */
  lemma {:induction false} AppendTextExactly(a: string, b: string, first: nat, count: nat, story: string, iso: string)
    requires count > 0
    ensures AppendText(a, first, count, story, iso) == AppendText(b, first, count, story, iso) <==>
            && (EndsWith(a, "\n") <==> EndsWith(b, "\n"))
            && (EndsInReservedSection(a) <==> EndsInReservedSection(b))
  {
    hide EndsWith, EndsInReservedSection, StubsText;
    StubsBegin(first, count, story, iso);
    var (s, t) := (AppendText(a, first, count, story, iso), AppendText(b, first, count, story, iso));
    assert RESERVED_SECTION[0] == RESERVED_SECTION[1] == '#' && RESERVED_SECTION[2] == ' ';
    assert (s[1] == '#') == EndsWith(a, "\n") && (t[1] == '#') == EndsWith(b, "\n");
    var (i, j) := (if EndsWith(a, "\n") then 3 else 4, if EndsWith(b, "\n") then 3 else 4);
    assert (s[i] == ' ') == !EndsInReservedSection(a) && (t[j] == ' ') == !EndsInReservedSection(b);
  }

  function StubLines(first: nat, count: nat, story: string, iso: string): seq<string>
    decreases count
  {
    if count == 0 then []
    else [StubHeading(first, story, iso), STUB_STATUS, ""] + StubLines(first + 1, count - 1, story, iso)
  }

  /** The lines above the stubs that the appended text starts with. */
  function Preamble(current: string): seq<string> {
    (if EndsWith(current, "\n") then [] else [""]) + (if EndsInReservedSection(current) then [] else [RESERVED_SECTION, ""])
  }

  lemma StubTextLines(n: nat, story: string, iso: string)
    requires IsStory(story) && IsIsoTimestamp(iso)
    ensures Lines(FormatReservationStub(n, story, iso)) == [StubHeading(n, story, iso), STUB_STATUS, ""]
  {
    hide StubHeading, Split;
    var heading := StubHeading(n, story, iso);
    StubText(n, story, iso);
    assert FormatReservationStub(n, story, iso) == heading + ['\n'] + (STUB_STATUS + ['\n'] + "");
    SplitConcat(heading, STUB_STATUS + ['\n'] + "", '\n');
    SplitConcat(STUB_STATUS, "", '\n');
    SplitOne(heading, '\n');
    SplitOne(STUB_STATUS, '\n');
    SplitOne("", '\n');
  }

  lemma {:induction false} StubsTextLines(first: nat, count: nat, story: string, iso: string)
    requires IsStory(story) && IsIsoTimestamp(iso) && count > 0
    ensures Lines(StubsText(first, count, story, iso)) == StubLines(first, count, story, iso)
    decreases count
  {
    hide FormatReservationStub, StubHeading, Split;
    StubTextLines(first, story, iso);
    if count == 1 {
      assert StubLines(first + 1, 0, story, iso) == [];
    } else {
      StubsTextLines(first + 1, count - 1, story, iso);
      SplitConcat(FormatReservationStub(first, story, iso), StubsText(first + 1, count - 1, story, iso), '\n');
    }
  }

  lemma WithSection(stubs: string)
    ensures Lines(RESERVED_SECTION + "\n\n" + stubs) == [RESERVED_SECTION, ""] + Lines(stubs)
  {
    hide Split;
    assert RESERVED_SECTION + "\n\n" + stubs == RESERVED_SECTION + ['\n'] + ("" + ['\n'] + stubs);
    SplitConcat(RESERVED_SECTION, "" + ['\n'] + stubs, '\n');
    SplitConcat("", stubs, '\n');
    SplitOne("", '\n');
    SplitOne(RESERVED_SECTION, '\n');
  }

  lemma BelowLastLine(ledger: string, tail: string)
    ensures Lines(ledger + "\n" + tail) == Lines(ledger) + Lines(tail)
    ensures Lines(ledger + "\n\n" + tail) == Lines(ledger) + ([""] + Lines(tail))
  {
    hide Split;
    SplitConcat(ledger, tail, '\n');
    assert ledger + "\n\n" + tail == ledger + ['\n'] + ("" + ['\n'] + tail);
    SplitConcat(ledger, "" + ['\n'] + tail, '\n');
    SplitConcat("", tail, '\n');
    SplitOne("", '\n');
  }

  /** The appended text adds whole lines below the last line of whatever ledger it lands on, also when
      that is not the `current` text it was written for. */
  lemma AppendedLines(ledger: string, current: string, first: nat, count: nat, story: string, iso: string)
    requires IsStory(story) && IsIsoTimestamp(iso) && count > 0
    ensures Lines(ledger + AppendText(current, first, count, story, iso)) ==
            Lines(ledger) + (Preamble(current) + StubLines(first, count, story, iso))
  {
    hide Split, StubsText, StubLines, EndsInReservedSection, EndsWith;
    var stubs := StubsText(first, count, story, iso);
    StubsTextLines(first, count, story, iso);
    WithSection(stubs);
    var tail := (if EndsInReservedSection(current) then "" else RESERVED_SECTION + "\n\n") + stubs;
    assert EndsInReservedSection(current) ==> tail == stubs;
    var separator := if EndsWith(current, "\n") then "\n" else "\n\n";
    assert ledger + AppendText(current, first, count, story, iso) == ledger + separator + tail;
    BelowLastLine(ledger, tail);
  }

  // ----- what the parser reads after an append -----

  /** The headings of `count` stubs whose first line has index `at`. */
  function StubHeadings(first: nat, count: nat, at: nat): seq<DwHeading>
    decreases count
  {
    if count == 0 then []
    else [DwHeading(DW + Decimal(first), "dw-" + Decimal(first), at + 1, 3)] + StubHeadings(first + 1, count - 1, at + 3)
  }

  function StubReservations(first: nat, count: nat, story: string, iso: string, at: nat): seq<Reservation> {
    seq(count, k requires 0 <= k < count => Reservation(StubHeadingAt(first, at, k), story, iso))
  }

  function StubHeadingAt(first: nat, at: nat, k: nat): DwHeading {
    DwHeading(DW + Decimal(first + k), "dw-" + Decimal(first + k), at + 3 * k + 1, 3)
  }

  /** A line that is neither a fence marker nor a heading. */
  predicate IsPlainText(line: string) {
    StripCr(line) == line && Marker(line).None? && ToDwHeading(line, 1).None?
  }

  lemma PlainWord(line: string)
    requires line != "" && line[0] !in " #`~" && line[|line| - 1] != '\r'
    ensures IsPlainText(line)
  {
  }

  /** A level-2 heading whose title does not start with `D` is not a DW heading. */
  lemma PlainTitle(line: string, title: string)
    requires line == "## " + title && title != "" && title[0] != 'D' && !IsBlank(title[0])
    requires title[|title| - 1] != '\r'
    ensures IsPlainText(line)
  {
    hide Leading, IdToken, NormalizeDwId;
    assert line[0] == '#' && line[|line| - 1] == title[|title| - 1];
    TwoHashes(line, title);
    OneBlank(title);
    assert line[2..] == " " + title && line[2 + 1..] == title;
  }

  lemma OneBlank(title: string)
    requires title != "" && !IsBlank(title[0])
    ensures Span(" " + title, IsBlank) == 1
  {
    SpanOf(" ", title, IsBlank);
  }

  lemma TwoHashes(line: string, title: string)
    requires line == "## " + title
    ensures Leading(line, '#') == 2 && Marker(line).None?
  {
    assert line[0] == '#' && line[1] == '#' && line[2] == ' ';
  }

  lemma PlainTexts()
    ensures IsPlainText("") && IsPlainText(STUB_STATUS) && IsPlainText(RESERVED_SECTION)
  {
    hide ToDwHeading, Marker;
    NoText();
    PlainWord(STUB_STATUS);
    PlainTitle(RESERVED_SECTION, RESERVED_SECTION[3..]);
  }

  lemma NoText()
    ensures IsPlainText("")
  {
  }

  lemma NotAHeading(text: string, m: nat, n: nat)
    requires ToDwHeading(text, m).None?
    ensures ToDwHeading(text, n).None?
  {
    hide DwPrefix;
  }

  /** Plain lines add no heading and no stub. */
  lemma {:induction false} PlainLinesRead(raw: seq<string>, at: nat)
    requires forall k | 0 <= k < |raw| :: IsPlainText(raw[k])
    ensures Unfenced(raw) && HeadingsOf(LinesFrom(None, raw, at)) == [] && ReservationsOf(LinesFrom(None, raw, at)) == []
    decreases raw
  {
    hide Marker, StripCr, ToDwHeading, Picked, Emitted, StateAfter, AfterStubPrefix;
    if raw == [] {
      NothingRead(at);
    } else {
      PlainLinesRead(raw[1..], at + 1);
      NotAHeading(raw[0], 1, at + 1);
      assert raw == [raw[0]] + raw[1..];
      FirstLineRead(raw[0], raw[1..], at, Classified(raw[0], at + 1));
    }
  }

  lemma {:induction false} StubHeadingsAt(first: nat, count: nat, at: nat)
    ensures |StubHeadings(first, count, at)| == count
    ensures forall k | 0 <= k < count :: StubHeadings(first, count, at)[k] == StubHeadingAt(first, at, k)
    decreases count
  {
    hide Decimal;
    if count > 0 {
      StubHeadingsAt(first + 1, count - 1, at + 3);
      var rest := StubHeadings(first + 1, count - 1, at + 3);
      assert StubHeadings(first, count, at) == [StubHeadingAt(first, at, 0)] + rest;
      forall k | 1 <= k < count
        ensures StubHeadings(first, count, at)[k] == StubHeadingAt(first, at, k)
      {
        assert rest[k - 1] == StubHeadingAt(first + 1, at + 3, k - 1);
      }
    }
  }

  /** The stubs' lines hold exactly the stubs' headings, and leave no fence open. */
  lemma {:induction false} StubLinesRead(first: nat, count: nat, story: string, iso: string, at: nat)
    requires IsStory(story) && IsIsoTimestamp(iso)
    ensures var raw := StubLines(first, count, story, iso);
            && Unfenced(raw)
            && HeadingsOf(LinesFrom(None, raw, at)) == StubHeadings(first, count, at)
            && ReservationsOf(LinesFrom(None, raw, at)) == StubReservations(first, count, story, iso, at)
    decreases count
  {
    hide Emitted, StateAfter, Picked, StubHeading, ToReservation, Visible, Marker, StripCr, IsPlainText;
    if count == 0 {
      NothingRead(at);
    } else {
      hide StubLines, StubHeadings, StubReservations;
      var text := StubHeading(first, story, iso);
      var rest := StubLines(first + 1, count - 1, story, iso);
      StubText(first, story, iso);
      StubLinesRead(first + 1, count - 1, story, iso, at + 3);
      OneStubRead(first, story, iso, at);
      UnfencedLines(None, [text, STUB_STATUS, ""], at);
      Compose(None, [text, STUB_STATUS, ""], rest, at);
      PickedCompose(HeadingOf, LinesFrom(None, [text, STUB_STATUS, ""], at), LinesFrom(None, rest, at + 3));
      PickedCompose(ToReservation, LinesFrom(None, [text, STUB_STATUS, ""], at), LinesFrom(None, rest, at + 3));
      SplitOff(first, count, story, iso, at);
    }
  }

  lemma NothingRead(at: nat)
    ensures LinesFrom(None, [], at) == [] && HeadingsOf([]) == [] && ReservationsOf([]) == []
  {
  }

  lemma {:induction false} SplitOff(first: nat, count: nat, story: string, iso: string, at: nat)
    requires count > 0
    ensures StubLines(first, count, story, iso) ==
            [StubHeading(first, story, iso), STUB_STATUS, ""] + StubLines(first + 1, count - 1, story, iso)
    ensures StubHeadings(first, count, at) ==
            [StubHeadingAt(first, at, 0)] + StubHeadings(first + 1, count - 1, at + 3)
    ensures StubReservations(first, count, story, iso, at) ==
            [Reservation(StubHeadingAt(first, at, 0), story, iso)]
            + StubReservations(first + 1, count - 1, story, iso, at + 3)
  {
    hide Decimal, StubHeading;
    assert forall k | 1 <= k < count :: StubHeadingAt(first, at, k) == StubHeadingAt(first + 1, at + 3, k - 1);
  }

  lemma OneStubRead(n: nat, story: string, iso: string, at: nat)
    requires IsStory(story) && IsIsoTimestamp(iso)
    ensures var raw := [StubHeading(n, story, iso), STUB_STATUS, ""];
            && Unfenced(raw)
            && HeadingsOf(LinesFrom(None, raw, at)) == [StubHeadingAt(n, at, 0)]
            && ReservationsOf(LinesFrom(None, raw, at)) == [Reservation(StubHeadingAt(n, at, 0), story, iso)]
  {
    hide Emitted, StateAfter, Picked, StubHeading, ToReservation, Marker, StripCr, ToDwHeading;
    var text, rest := StubHeading(n, story, iso), [STUB_STATUS, ""];
    StubText(n, story, iso);
    StubIsHeading(n, story, iso, at + 1);
    StubRoundTrip(n, story, iso, at);
    var l := StubLine(n, story, iso, at);
    PlainTexts();
    PlainLinesRead(rest, at + 1);
    assert [text, STUB_STATUS, ""] == [text] + rest;
    FirstLineRead(text, rest, at, l);
  }

  lemma PreambleIsPlain(current: string)
    ensures forall k | 0 <= k < |Preamble(current)| :: IsPlainText(Preamble(current)[k])
  {
    hide IsPlainText, EndsInReservedSection, EndsWith;
    PlainTexts();
  }

  /** The added lines on their own. */
  lemma AddedRead(current: string, first: nat, count: nat, story: string, iso: string, at: nat)
    requires IsStory(story) && IsIsoTimestamp(iso)
    ensures var added := Preamble(current) + StubLines(first, count, story, iso);
            && Unfenced(added)
            && HeadingsOf(LinesFrom(None, added, at)) == StubHeadings(first, count, at + |Preamble(current)|)
            && ReservationsOf(LinesFrom(None, added, at)) ==
               StubReservations(first, count, story, iso, at + |Preamble(current)|)
  {
    hide Emitted, StateAfter, Picked, ToReservation, Marker, StripCr, IsPlainText, StubLines, Preamble;
    var preamble, stubs := Preamble(current), StubLines(first, count, story, iso);
    PreambleIsPlain(current);
    PlainLinesRead(preamble, at);
    StubLinesRead(first, count, story, iso, at + |preamble|);
    UnfencedLines(None, preamble, at);
    Compose(None, preamble, stubs, at);
    PickedCompose(HeadingOf, LinesFrom(None, preamble, at), LinesFrom(None, stubs, at + |preamble|));
    PickedCompose(ToReservation, LinesFrom(None, preamble, at), LinesFrom(None, stubs, at + |preamble|));
  }

  /** Unfenced lines below a text: seen when no fence is open, and only then. */
  lemma BelowText(raw: seq<string>, added: seq<string>)
    requires Unfenced(added)
    ensures FenceAfter(None, raw + added) == FenceAfter(None, raw)
    ensures var seen := if FenceAfter(None, raw).None? then LinesFrom(None, added, |raw|) else [];
            && HeadingsIn(raw + added) == HeadingsIn(raw) + HeadingsOf(seen)
            && ReservationsIn(raw + added) == ReservationsIn(raw) + ReservationsOf(seen)
  {
    hide Emitted, StateAfter, Picked, ToReservation, Unfenced;
    var fence := FenceAfter(None, raw);
    UnfencedLines(fence, added, |raw|);
    Compose(None, raw, added, 0);
    PickedCompose(HeadingOf, LinesFrom(None, raw, 0), LinesFrom(fence, added, |raw|));
    PickedCompose(ToReservation, LinesFrom(None, raw, 0), LinesFrom(fence, added, |raw|));
  }

  /** What is appended is what the parser sees, when the ledger does not end inside an open fence:
      the old headings and stubs, then the new ones. Inside an open fence nothing of it is seen. */
  lemma AppendReads(ledger: string, current: string, first: nat, count: nat, story: string, iso: string)
    requires IsStory(story) && IsIsoTimestamp(iso) && count > 0
    ensures var after := ledger + AppendText(current, first, count, story, iso);
            var at := |Lines(ledger)| + |Preamble(current)|;
            && FenceClosed(after) == FenceClosed(ledger)
            && ParseDwHeadings(after) == ParseDwHeadings(ledger)
                 + (if FenceClosed(ledger) then StubHeadings(first, count, at) else [])
            && ParseReservations(after) == ParseReservations(ledger)
                 + (if FenceClosed(ledger) then StubReservations(first, count, story, iso, at) else [])
  {
    hide LinesFrom, FenceAfter, HeadingsOf, ReservationsOf, StubLines, Preamble, AppendText, Split, Unfenced;
    var raw, added := Lines(ledger), Preamble(current) + StubLines(first, count, story, iso);
    AppendedLines(ledger, current, first, count, story, iso);
    AddedRead(current, first, count, story, iso, |raw|);
    BelowText(raw, added);
    NothingSeen();
  }

  lemma NothingSeen()
    ensures HeadingsOf([]) == [] && ReservationsOf([]) == []
  {
  }

  // ----- reservations and the maximum -----

  lemma {:induction false} MaxOfStubs(first: nat, count: nat, at: nat)
    ensures MaxIn(StubHeadings(first, count, at)) == if count == 0 then 0 else first + count - 1
    decreases count
  {
    hide Decimal;
    if count > 0 {
      PlainStub(first);
      MaxOfStubs(first + 1, count - 1, at + 3);
      assert StubHeadings(first, count, at)[1..] == StubHeadings(first + 1, count - 1, at + 3);
    }
  }

  lemma PlainStub(n: nat)
    ensures PlainNumber("dw-" + Decimal(n)) == Some(n)
  {
    NumberOfDecimal(n);
    assert ("dw-" + Decimal(n))[3..] == Decimal(n);
    assert ("dw-" + Decimal(n))[..3] == "dw-";
  }

  /** A reservation raises the ledger's maximum to its last id if and only if the ledger does not end
      inside an open fence; otherwise the ledger's maximum does not move. */
  lemma ReservationCounts(ledger: string, current: string, first: nat, count: nat, story: string, iso: string)
    requires IsStory(story) && IsIsoTimestamp(iso) && count > 0
    ensures MaxPlainId(ledger + AppendText(current, first, count, story, iso)) ==
            if FenceClosed(ledger) then Max(MaxPlainId(ledger), first + count - 1) else MaxPlainId(ledger)
  {
    hide PlainNumber, StubHeadings, AppendText, FenceClosed, ParseDwHeadings, ParseReservations, MaxIn, Preamble, Split;
    AppendReads(ledger, current, first, count, story, iso);
    if FenceClosed(ledger) {
      var at := |Lines(ledger)| + |Preamble(current)|;
      MaxCompose(ParseDwHeadings(ledger), StubHeadings(first, count, at));
      MaxOfStubs(first, count, at);
    } else {
      assert ParseDwHeadings(ledger) + [] == ParseDwHeadings(ledger);
    }
  }

  /** Two reservations in a row, the git refs unchanged between them, hand out different ids if and
      only if the ledger does not end inside an open fence; otherwise they hand out the same ones. */
  lemma ReservationsDiffer(current: string, refMax: nat, count: nat, story: string, iso: string)
    requires IsStory(story) && IsIsoTimestamp(iso) && count > 0
    ensures var first := Max(MaxPlainId(current), refMax) + 1;
            var second := Max(MaxPlainId(current + AppendText(current, first, count, story, iso)), refMax) + 1;
            && (FenceClosed(current) <==> second >= first + count)
            && (!FenceClosed(current) ==> second == first)
  {
    hide AppendText, MaxPlainId, FenceClosed;
    ReservationCounts(current, current, Max(MaxPlainId(current), refMax) + 1, count, story, iso);
  }

  lemma IsOpenLedger()
    ensures !FenceClosed(BACKTICKS)
  {
    hide Split, FenceAfter;
    SplitOne(BACKTICKS, '\n');
    BackticksOpen(0);
  }

  /** A ledger of one fence line: two reservations in a row hand out the same ids. */
  lemma OpenLedgerRepeatsIds(refMax: nat, count: nat, story: string, iso: string)
    requires IsStory(story) && IsIsoTimestamp(iso) && count > 0
    ensures var first := Max(MaxPlainId(BACKTICKS), refMax) + 1;
            Max(MaxPlainId(BACKTICKS + AppendText(BACKTICKS, first, count, story, iso)), refMax) + 1 == first
  {
    hide AppendText, MaxPlainId, FenceClosed;
    IsOpenLedger();
    ReservationsDiffer(BACKTICKS, refMax, count, story, iso);
  }

  // ----- a reserved id can be replaced -----

  /** Stubs are headings, so a number above the maximum has none. */
  lemma FreshHasNoStub(ledger: string, n: nat)
    requires n > MaxPlainId(ledger)
    ensures forall r | r in ParseReservations(ledger) :: r.heading.normalizedId != "dw-" + Decimal(n)
  {
    hide PlainNumber, Decimal, MaxIn, LedgerLines, AfterStubPrefix;
    PlainStub(n);
    MaxInIsMax(ParseDwHeadings(ledger));
    forall r | r in ParseReservations(ledger)
      ensures r.heading in ParseDwHeadings(ledger)
    {
      var all := LedgerLines(ledger);
      var k :| 0 <= k < |ReservationsOf(all)| && ReservationsOf(all)[k] == r;
      var before, l, after := PickedOrigin(ToReservation, all, k);
      PickedCompose(HeadingOf, before + [l], after);
      PickedCompose(HeadingOf, before, [l]);
      PickedOne(HeadingOf, l);
      assert [r.heading][0] in HeadingsOf(all);
    }
  }

  /** Reserving and replacing fit together: each reserved id has a block that replacing finds if and only
      if the ledger did not end inside an open fence. */
  lemma {:induction false} ReservedIsFound(ledger: string, current: string, first: nat, count: nat, story: string, iso: string, k: nat)
    requires IsStory(story) && IsIsoTimestamp(iso) && k < count && first > MaxPlainId(ledger)
    ensures StubBlock(ledger + AppendText(current, first, count, story, iso), "dw-" + Decimal(first + k)).Some?
            <==> FenceClosed(ledger)
  {
    hide StubBlock, AppendText, FenceClosed, ParseReservations, ParseDwHeadings, MaxPlainId, Decimal, Preamble, Lines;
    var after, wanted := ledger + AppendText(current, first, count, story, iso), "dw-" + Decimal(first + k);
    var at := |Lines(ledger)| + |Preamble(current)|;
    AppendReads(ledger, current, first, count, story, iso);
    StubBlockExists(after, wanted);
    FreshHasNoStub(ledger, first + k);
    if FenceClosed(ledger) {
      var r := StubReservations(first, count, story, iso, at)[k];
      assert r in ParseReservations(after) && r.heading.normalizedId == wanted;
    }
  }

  // ----- the section heading -----

  lemma {:induction false} LastH2Above(lines: seq<string>, below: seq<string>)
    requires forall k | 0 <= k < |below| :: !StartsWith(below[k], "## ")
    ensures LastH2(lines + below) == LastH2(lines)
  {
    hide StartsWith;
    if below == [] {
      assert lines + below == lines;
    } else {
      var shorter := below[..|below| - 1];
      LastH2Above(lines, shorter);
      assert (lines + below)[..|lines + below| - 1] == lines + shorter;
    }
  }

  lemma {:induction false} StubsHaveNoH2(first: nat, count: nat, story: string, iso: string)
    ensures forall k | 0 <= k < |StubLines(first, count, story, iso)| ::
              !StartsWith(StubLines(first, count, story, iso)[k], "## ")
    decreases count
  {
    if count > 0 {
      StubsHaveNoH2(first + 1, count - 1, story, iso);
      var heading := StubHeading(first, story, iso);
      assert heading[..3][2] == heading[2] == '#';
      assert STUB_STATUS[..3][0] == 's';
    }
  }

  /** After a reservation the ledger ends in the Reserved section, so consecutive reservations share
      one section heading. */
  lemma EndsInSectionAfter(current: string, first: nat, count: nat, story: string, iso: string)
    requires IsStory(story) && IsIsoTimestamp(iso) && count > 0
    ensures EndsInReservedSection(current + AppendText(current, first, count, story, iso))
  {
    hide Split, StubLines, AppendText, StartsWith, Trim;
    var stubs := StubLines(first, count, story, iso);
    AppendedLines(current, current, first, count, story, iso);
    StubsHaveNoH2(first, count, story, iso);
    LastH2Above(Lines(current) + Preamble(current), stubs);
    assert Lines(current) + (Preamble(current) + stubs) == (Lines(current) + Preamble(current)) + stubs;
    SectionIsLast(Lines(current), current);
  }

  lemma SectionLine()
    ensures StartsWith(RESERVED_SECTION, "## ") && !StartsWith("", "## ") && Trim(RESERVED_SECTION) == RESERVED_SECTION
  {
    assert RESERVED_SECTION[..3] == "## ";
    assert !IsSpace(RESERVED_SECTION[0]) && !IsSpace(RESERVED_SECTION[|RESERVED_SECTION| - 1]);
  }

  lemma LastIsH2(lines: seq<string>, heading: string)
    requires StartsWith(heading, "## ")
    ensures LastH2(lines + [heading]) == Some(heading)
  {
  }

  lemma {:induction false} SectionIsLast(lines: seq<string>, current: string)
    ensures var last := LastH2(lines + Preamble(current));
            if EndsInReservedSection(current) then last == LastH2(lines)
            else last == Some(RESERVED_SECTION) && Trim(RESERVED_SECTION) == RESERVED_SECTION
  {
    hide EndsInReservedSection, EndsWith, StartsWith, Trim, LastH2;
    SectionLine();
    var gap := if EndsWith(current, "\n") then [] else [""];
    LastH2Above(lines, gap);
    if EndsInReservedSection(current) {
      assert lines + Preamble(current) == lines + gap;
    } else {
      var above := lines + gap + [RESERVED_SECTION];
      LastH2Above(above, [""]);
      LastIsH2(lines + gap, RESERVED_SECTION);
      assert lines + Preamble(current) == above + [""];
    }
  }

  // ----- reserveDwIds -----

  datatype ReserveError = InvalidStory | InvalidCount | MissingLedger | EmptyLedger

  /** The ids reserved are `first .. first + count - 1`; `max` was seen on `source`. */
  datatype ReserveResult = Reserved(first: nat, count: nat, max: nat, source: Option<string>) | Rejected(error: ReserveError)

  const MAX_RESERVE_COUNT := 100

  /** The working tree first, then the refs that hold a ledger. */
  function Sources(current: string, refs: seq<LedgerSource>): seq<LedgerSource> {
    [LedgerSource("working tree", current)] + refs
  }

  /** The first id a reservation takes. */
  function FirstFree(current: string, refs: seq<LedgerSource>): nat { MaxOver(Sources(current, refs)) + 1 }

  /** The id of a plain heading of some source. */
  ghost predicate IsTaken(sources: seq<LedgerSource>, n: nat) {
    exists k: nat, h: DwHeading ::
      k < |sources| && h in ParseDwHeadings(sources[k].content) && PlainNumber(h.normalizedId) == Some(n)
  }

  lemma FirstFreeIsAboveTree(current: string, refs: seq<LedgerSource>)
    ensures FirstFree(current, refs) > MaxPlainId(current)
  {
    hide MaxPlainId;
    MaxOverIsMax(Sources(current, refs));
    assert Sources(current, refs)[0].content == current;
  }

  /** Every plain id of the working tree and of the refs is below the first free one, and the one just
      below it is taken, unless it is the first of all. */
  lemma FirstFreeIsAbove(current: string, refs: seq<LedgerSource>)
    ensures forall n: nat :: IsTaken(Sources(current, refs), n) ==> n < FirstFree(current, refs)
    ensures FirstFree(current, refs) == 1 || IsTaken(Sources(current, refs), FirstFree(current, refs) - 1)
  {
    hide PlainNumber, ParseDwHeadings, MaxIn, MaxOver, Sources;
    var sources := Sources(current, refs);
    MaxOverIsMax(sources);
    forall n: nat | IsTaken(sources, n)
      ensures n <= MaxOver(sources)
    {
      var k: nat, h: DwHeading :| k < |sources| && h in ParseDwHeadings(sources[k].content)
                                  && PlainNumber(h.normalizedId) == Some(n);
      MaxInIsMax(ParseDwHeadings(sources[k].content));
      assert MaxPlainId(sources[k].content) <= MaxOver(sources);
    }
    if MaxOver(sources) > 0 {
      var k :| 0 <= k < |sources| && MaxPlainId(sources[k].content) == MaxOver(sources);
      MaxInIsMax(ParseDwHeadings(sources[k].content));
    }
  }

  /** `reserveDwIds` run alone; `null` is a ledger that does not exist. A rejection writes nothing. */
  method ReserveDwIds(ledger: TextFile?, refs: seq<LedgerSource>, story: Option<string>, count: int, iso: string)
    returns (result: ReserveResult)
    requires IsIsoTimestamp(iso)
    modifies ledger
    ensures result.Rejected? <==> (story.Some? && !IsValidStoryKey(story.value))
                                  || !(1 <= count <= MAX_RESERVE_COUNT)
                                  || ledger == null || IsBlankText(old(ledger.content))
    ensures result.Rejected? ==>
              result.error == if story.Some? && !IsValidStoryKey(story.value) then InvalidStory
                              else if !(1 <= count <= MAX_RESERVE_COUNT) then InvalidCount
                              else if ledger == null then MissingLedger else EmptyLedger
    ensures result.Rejected? && ledger != null ==> ledger.content == old(ledger.content)
    ensures result.Reserved? ==>
              && result.count == count && result.first == result.max + 1 == FirstFree(old(ledger.content), refs)
              && ledger.content == old(ledger.content) + AppendText(old(ledger.content), result.first, count,
                   if story.Some? then story.value else DEFAULT_STORY, iso)
    ensures result.Reserved? && FenceClosed(old(ledger.content)) ==>
              MaxPlainId(ledger.content) == result.first + result.count - 1
  {
    hide MaxOver, AppendText, MaxPlainId, FenceClosed, IsValidStoryKey;
    if story.Some? && !IsValidStoryKey(story.value) {
      return Rejected(InvalidStory);
    }
    if !(1 <= count <= MAX_RESERVE_COUNT) {
      return Rejected(InvalidCount);
    }
    if ledger == null {
      return Rejected(MissingLedger);
    }
    var key := if story.Some? then story.value else DEFAULT_STORY;
    var current := ledger.content;
    TrimEmpty(current);
    if Trim(current) == "" {
      return Rejected(EmptyLedger);
    }
    var max, source := Allocate(Sources(current, refs));
    ledger.Append(AppendText(current, max + 1, count, key, iso));
    ReservationCounts(current, current, max + 1, count, key, iso);
    FirstFreeIsAboveTree(current, refs);
    return Reserved(max + 1, count, max, source);
  }

  // ----- replacing a stub and the maximum -----

  lemma {:induction false} MaxOfMoved(headings: seq<DwHeading>, shift: nat)
    ensures MaxIn(Mapped(HeadingsDown(shift), headings)) == MaxIn(headings)
  {
    hide PlainNumber;
    if headings != [] {
      MaxOfMoved(headings[1..], shift);
      assert Mapped(HeadingsDown(shift), headings)[1..] == Mapped(HeadingsDown(shift), headings[1..]);
    }
  }

  lemma MaxOfThree(a: seq<DwHeading>, b: seq<DwHeading>, c: seq<DwHeading>, m: nat, n: nat)
    ensures MaxIn(a + Mapped(HeadingsDown(m), b) + Mapped(HeadingsDown(n), c)) == Max(Max(MaxIn(a), MaxIn(b)), MaxIn(c))
  {
    hide MaxIn;
    MaxOfMoved(b, m);
    MaxOfMoved(c, n);
    MaxCompose(a, Mapped(HeadingsDown(m), b));
    MaxCompose(a + Mapped(HeadingsDown(m), b), Mapped(HeadingsDown(n), c));
  }

  /** A replacement whose entry leaves no fence open never lowers the ledger's maximum and leaves the
      ledger fence-closed, however many headings the entry has. */
  lemma ReplaceKeepsMax(content: string, wanted: string, entryText: string)
    requires FenceClosed(content) && StubBlock(content, wanted).Some? && AcceptsEntry(wanted, entryText)
    requires FenceAfter(None, EntryLines(entryText)).None?
    ensures var edited := ReplaceEdit(wanted, entryText, content);
            edited.Some? && FenceClosed(edited.value) && MaxPlainId(edited.value) >= MaxPlainId(content)
  {
    hide StubBlock, FenceAfter, LinesFrom, Split, Join, Picked, AcceptsEntry, ReplaceEdit, ToReservation, Mapped,
      MaxIn, EntryLines;
    var c := CutAtStub(content, wanted);
    var entry := EntryLines(entryText);
    EditedLines(content, wanted, entryText, c);
    ResplicedReads(Lines(content), wanted, c, entry);
    AcceptedHeading(wanted, entryText);
    MaxOfThree(HeadingsIn(c.before), HeadingsIn(entry), HeadingsIn(c.after), |c.before|, |c.before| + |entry|);
    MaxCompose(HeadingsIn(c.before), [c.stub.heading]);
    MaxCompose(HeadingsIn(c.before) + [c.stub.heading],
               Mapped(HeadingsDown(|c.before| + |c.block|), HeadingsIn(c.after)));
    MaxOfMoved(HeadingsIn(c.after), |c.before| + |c.block|);
    SameFirstId(c.stub.heading, HeadingsIn(entry));
  }

  lemma SameFirstId(h: DwHeading, headings: seq<DwHeading>)
    requires headings != [] && headings[0].normalizedId == h.normalizedId
    ensures MaxIn([h]) <= MaxIn(headings)
  {
    assert [h][1..] == [];
  }
}
