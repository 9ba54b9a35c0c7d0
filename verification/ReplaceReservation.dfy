/** Replacing a reservation stub by the real entry, and what the parser reads afterwards. */
module ReplaceReservation {
  import opened DeferredWorkLedger
  import opened DwReservation
  import opened LineReader
  import opened SafeEdit
  import opened Text

  // ----- what the replacement does to headings and stubs -----

  function MovedHeading(h: DwHeading, shift: nat): DwHeading { h.(line := h.line + shift) }

  function HeadingsDown(shift: nat): DwHeading -> DwHeading { (h: DwHeading) => MovedHeading(h, shift) }

  function LinesDown(shift: nat): LedgerLine -> LedgerLine {
    (l: LedgerLine) =>
      l.(line := l.line + shift, heading := if l.heading.Some? then Some(MovedHeading(l.heading.value, shift)) else None)
  }

  function ReservationsDown(shift: nat): Reservation -> Reservation {
    (r: Reservation) => r.(heading := MovedHeading(r.heading, shift))
  }

  /** The headings of a text on its own, numbered from 1. */
  function HeadingsIn(raw: seq<string>): seq<DwHeading> { HeadingsOf(LinesFrom(None, raw, 0)) }

  function ReservationsIn(raw: seq<string>): seq<Reservation> { ReservationsOf(LinesFrom(None, raw, 0)) }

  lemma VisibleMoves(shift: nat)
    ensures forall f: Option<Fence>, raw: string, at: nat ::
              Visible(f, raw, at + shift) == Mapped(LinesDown(shift), Visible(f, raw, at))
  {
    hide Classified, Fenced, StripCr;
    forall f: Option<Fence>, raw: string, at: nat
      ensures Visible(f, raw, at + shift) == Mapped(LinesDown(shift), Visible(f, raw, at))
    {
      ClassifiedMoves(StripCr(raw), at + 1, shift);
    }
  }

  lemma ClassifiedMoves(text: string, number: nat, shift: nat)
    ensures Classified(text, number + shift) == LinesDown(shift)(Classified(text, number))
  {
    hide DwPrefix, IsAnyHeading, IdToken, NormalizeDwId;
  }

  /** Moving text down moves its headings and stubs down and changes nothing else. */
  lemma MovedDown(raw: seq<string>, shift: nat)
    ensures HeadingsOf(LinesFrom(None, raw, shift)) == Mapped(HeadingsDown(shift), HeadingsIn(raw))
    ensures ReservationsOf(LinesFrom(None, raw, shift)) == Mapped(ReservationsDown(shift), ReservationsIn(raw))
  {
    hide Visible, FenceNext, AfterStubPrefix, Emitted, Picked;
    VisibleMoves(shift);
    EmittedMoved(FenceNext, Visible, None, raw, 0, shift, LinesDown(shift));
    PickedMapped(HeadingOf, LinesFrom(None, raw, 0), LinesDown(shift), HeadingsDown(shift));
    PickedMapped(ToReservation, LinesFrom(None, raw, 0), LinesDown(shift), ReservationsDown(shift));
  }

  /** Headings and stubs of three texts joined where no fence is open. */
  lemma ThreeParts(a: seq<string>, b: seq<string>, c: seq<string>)
    requires FenceAfter(None, a).None? && FenceAfter(None, b).None?
    ensures FenceAfter(None, a + b + c) == FenceAfter(None, c)
    ensures HeadingsIn(a + b + c) ==
            HeadingsIn(a) + Mapped(HeadingsDown(|a|), HeadingsIn(b)) + Mapped(HeadingsDown(|a| + |b|), HeadingsIn(c))
    ensures ReservationsIn(a + b + c) ==
            ReservationsIn(a) + Mapped(ReservationsDown(|a|), ReservationsIn(b))
            + Mapped(ReservationsDown(|a| + |b|), ReservationsIn(c))
  {
    hide Emitted, StateAfter, Picked, ToReservation, Mapped;
    Compose(None, a, b, 0);
    Compose(None, a + b, c, 0);
    var la, lb, lc := LinesFrom(None, a, 0), LinesFrom(None, b, |a|), LinesFrom(None, c, |a| + |b|);
    PickedCompose(HeadingOf, la, lb);
    PickedCompose(HeadingOf, la + lb, lc);
    PickedCompose(ToReservation, la, lb);
    PickedCompose(ToReservation, la + lb, lc);
    MovedDown(b, |a|);
    MovedDown(c, |a| + |b|);
  }

  function NormalizedIds(headings: seq<DwHeading>): seq<string> {
    seq(|headings|, k requires 0 <= k < |headings| => headings[k].normalizedId)
  }

  /** The ledger lines with the stub's block replaced. */
  function Respliced(c: Cut, entry: seq<string>): seq<string> { c.before + entry + c.after }

  /** Replacing a clean block by a fence-neutral entry: what the parser then reads. */
  lemma ResplicedReads(raw: seq<string>, wanted: string, c: Cut, entry: seq<string>)
    requires CleanCut(raw, wanted, c) && FenceAfter(None, entry).None?
    ensures var below := |c.before| + |entry|;
            && HeadingsIn(raw) == HeadingsIn(c.before) + [c.stub.heading]
                                  + Mapped(HeadingsDown(|c.before| + |c.block|), HeadingsIn(c.after))
            && HeadingsIn(Respliced(c, entry)) == HeadingsIn(c.before) + Mapped(HeadingsDown(|c.before|), HeadingsIn(entry))
                                                  + Mapped(HeadingsDown(below), HeadingsIn(c.after))
            && ReservationsIn(raw) == ReservationsIn(c.before) + [c.stub]
                                      + Mapped(ReservationsDown(|c.before| + |c.block|), ReservationsIn(c.after))
            && ReservationsIn(Respliced(c, entry)) ==
               ReservationsIn(c.before) + Mapped(ReservationsDown(|c.before|), ReservationsIn(entry))
               + Mapped(ReservationsDown(below), ReservationsIn(c.after))
            && FenceAfter(None, Respliced(c, entry)) == FenceAfter(None, raw)
  {
    hide Emitted, StateAfter, Picked, ToReservation, Mapped;
    ThreeParts(c.before, c.block, c.after);
    ThreeParts(c.before, entry, c.after);
    MovedDown(c.block, |c.before|);
  }

  // ----- the entry text -----

  /** `entryText` starts with a `###` heading for the wanted id. */
  predicate AcceptsEntry(wanted: string, entryText: string) {
    var headings := ParseDwHeadings(entryText);
    headings != [] && headings[0].line == 1 && headings[0].normalizedId == wanted && headings[0].level == 3
  }

  /** The lines that replace the stub block. */
  function EntryLines(entryText: string): (lines: seq<string>)
    ensures |lines| > 0
  {
    Lines(TrimEnd(entryText))
  }

  /** Cutting white space off the end of a text only cuts white space off its first line. */
  lemma {:induction false} FirstLineOf(t: string, space: string) returns (w: string)
    requires All(space, IsSpace)
    ensures Split(t + space, '\n')[0] == Split(t, '\n')[0] + w && All(w, IsSpace)
    ensures |Split(t, '\n')| > 1 ==> w == ""
  {
    if t == "" {
      assert t + space == space;
      w := Split(space, '\n')[0];
      FirstPart(space);
    } else {
      assert (t + space)[1..] == t[1..] + space;
      if t[0] == '\n' {
        w := "";
      } else {
        w := FirstLineOf(t[1..], space);
      }
    }
  }

  lemma {:induction false} FirstPart(s: string)
    ensures Split(s, '\n')[0] <= s
  {
    if s != "" && s[0] != '\n' {
      FirstPart(s[1..]);
    }
  }

  lemma {:induction false} LeadingBefore(x: string, w: string, c: char)
    requires Leading(x + w, c) < |x|
    ensures Leading(x, c) == Leading(x + w, c)
  {
    assert (x + w)[0] == x[0];
    if x[0] == c {
      assert (x + w)[1..] == x[1..] + w;
      LeadingBefore(x[1..], w, c);
    }
  }

  lemma {:induction false} SpanBefore(x: string, w: string, ok: char -> bool)
    requires Span(x + w, ok) <= |x|
    ensures Span(x, ok) == Span(x + w, ok)
  {
    if x != "" {
      assert (x + w)[0] == x[0];
      if ok(x[0]) {
        assert (x + w)[1..] == x[1..] + w;
        SpanBefore(x[1..], w, ok);
      }
    }
  }

  /** Where the text after `DW-` starts. */
  function RunStart(text: string): nat {
    var level := Leading(text, '#');
    level + Span(text[level..], IsBlank) + 3
  }

  lemma PrefixLength(text: string)
    requires DwPrefix(text).Some?
    ensures RunStart(text) <= |text| && DwPrefix(text).value.1 == text[RunStart(text)..]
  {
    var level := Leading(text, '#');
    Dropped(text, level + Span(text[level..], IsBlank), 3);
  }

  /** White space after a heading line does not change how its prefix reads. */
  lemma PrefixIgnoresSpace(x: string, w: string)
    requires All(w, IsSpace) && DwPrefix(x + w).Some? && DwPrefix(x + w).value.1 != ""
    requires !IsSpace(DwPrefix(x + w).value.1[0])
    ensures DwPrefix(x).Some? && DwPrefix(x).value.0 == DwPrefix(x + w).value.0
    ensures DwPrefix(x + w).value.1 == DwPrefix(x).value.1 + w
  {
    assert RunStart(x + w) < |x| by {
      hide DwPrefix, RunStart;
      PrefixLength(x + w);
      assert (x + w)[RunStart(x + w)] == DwPrefix(x + w).value.1[0];
    }
    PrefixOf(x, w);
  }

  lemma PrefixOf(x: string, w: string)
    requires DwPrefix(x + w).Some? && RunStart(x + w) < |x|
    ensures DwPrefix(x).Some? && DwPrefix(x).value.0 == DwPrefix(x + w).value.0
    ensures DwPrefix(x + w).value.1 == DwPrefix(x).value.1 + w
  {
    hide Leading, Span;
    var text := x + w;
    var level := Leading(text, '#');
    var at := level + Span(text[level..], IsBlank);
    LeadingBefore(x, w, '#');
    DropFirst(x, w, level);
    SpanBefore(x[level..], w, IsBlank);
    DropFirst(x, w, at);
    DropFirst(x[at..], w, 3);
    assert x[at..][..3] == text[at..][..3];
  }

  lemma DropFirst(x: string, w: string, k: nat)
    requires k <= |x|
    ensures (x + w)[k..] == x[k..] + w
  {
  }

  lemma RunIgnoresSpace(rest: string, w: string)
    requires All(w, IsSpace)
    ensures (rest + w)[..Span(rest + w, IsIdChar)] == rest[..Span(rest, IsIdChar)]
  {
    var n := Span(rest + w, IsIdChar);
    assert n > |rest| ==> IsSpace((rest + w)[|rest|]) && IsIdChar((rest + w)[..n][|rest|]);
    SpanBefore(rest, w, IsIdChar);
  }

  lemma HeadingIgnoresSpace(x: string, w: string, number: nat)
    requires All(w, IsSpace) && ToDwHeading(x + w, number).Some?
    ensures ToDwHeading(x, number) == ToDwHeading(x + w, number)
  {
    hide DwPrefix, IdToken, NormalizeDwId;
    var run := DwPrefix(x + w).value.1;
    assert run[..Span(run, IsIdChar)][0] == run[0];
    PrefixIgnoresSpace(x, w);
    RunIgnoresSpace(DwPrefix(x).value.1, w);
  }

  /** A DW heading line starts with `#`, so it opens no fence. */
  lemma HeadingOpensNoFence(text: string, number: nat)
    requires ToDwHeading(text, number).Some?
    ensures Marker(text).None? && text != "" && text[0] == '#'
  {
    hide IdToken, NormalizeDwId;
  }

  /** A heading on line 1 is read from the first raw line. */
  lemma HeadingOnLineOne(raw: seq<string>)
    requires raw != [] && HeadingsIn(raw) != [] && HeadingsIn(raw)[0].line == 1
    ensures ToDwHeading(StripCr(raw[0]), 1) == Some(HeadingsIn(raw)[0])
  {
    hide Picked, Emitted, StateAfter, ToDwHeading, StripCr, Marker;
    var all := LinesFrom(None, raw, 0);
    var before, l, after := PickedOrigin(HeadingOf, all, 0);
    var a, x, b := RawOrigin(raw, 0, |before|);
    SameCut(before, l, after, LinesFrom(None, a, 0), Classified(StripCr(x), |a| + 1), LinesFrom(None, b, |a| + 1));
    HeadingLine(StripCr(x), |a| + 1);
  }

  lemma HeadingLine(text: string, number: nat)
    ensures ToDwHeading(text, number).Some? ==> ToDwHeading(text, number).value.line == number
  {
    hide DwPrefix, IdToken, NormalizeDwId;
  }

  /** A first raw line that reads as a heading is the first heading. */
  lemma FirstRawHeading(raw: seq<string>)
    requires raw != [] && ToDwHeading(StripCr(raw[0]), 1).Some?
    ensures HeadingsIn(raw) != [] && HeadingsIn(raw)[0] == ToDwHeading(StripCr(raw[0]), 1).value
  {
    hide Picked, Emitted, StateAfter, ToDwHeading, StripCr, Marker;
    HeadingOpensNoFence(StripCr(raw[0]), 1);
    var l := Classified(StripCr(raw[0]), 1);
    PlainLine(raw[0], l, 0);
    assert raw == [raw[0]] + raw[1..];
    Compose(None, [raw[0]], raw[1..], 0);
    PickedCompose(HeadingOf, [l], LinesFrom(None, raw[1..], 1));
    PickedOne(HeadingOf, l);
  }

  lemma StripKeepsSpace(x: string, w: string) returns (w': string)
    requires All(w, IsSpace) && w != ""
    ensures StripCr(x + w) == x + w' && All(w', IsSpace)
  {
    w' := StripCr(w);
    assert (x + w)[|x + w| - 1] == w[|w| - 1];
  }

  /** The heading the check looks at is still the first one once `trimEnd` has been applied. */
  lemma FirstHeadingSurvives(entryText: string)
    requires ParseDwHeadings(entryText) != [] && ParseDwHeadings(entryText)[0].line == 1
    ensures HeadingsIn(EntryLines(entryText)) != []
    ensures HeadingsIn(EntryLines(entryText))[0] == ParseDwHeadings(entryText)[0]
  {
    hide Picked, Emitted, StateAfter, ToDwHeading, Split;
    var raw, kept := Lines(entryText), EntryLines(entryText);
    HeadingOnLineOne(raw);
    var t := TrimEnd(entryText);
    var space := entryText[|t|..];
    assert t + space == entryText;
    var w := FirstLineOf(t, space);
    assert raw[0] == kept[0] + w;
    if w == "" {
      assert raw[0] == kept[0];
    } else {
      var w' := StripKeepsSpace(kept[0], w);
      HeadingIgnoresSpace(kept[0], w', 1);
      WholeLine(t);
    }
    FirstRawHeading(kept);
  }

  /** A trimmed one-line text ends in no carriage return. */
  lemma WholeLine(t: string)
    requires |Split(t, '\n')| == 1 && (t == "" || !IsSpace(t[|t| - 1]))
    ensures StripCr(Split(t, '\n')[0]) == Split(t, '\n')[0]
  {
    JoinSplit(t, '\n');
  }

  // ----- replaceReservation -----

  /** The edit callback; `None` is its throw when the ledger has no stub for the id. */
  function ReplaceEdit(wanted: string, entryText: string, content: string): Option<string> {
    var block := StubBlock(content, wanted);
    if block.None? then None
    else
      var lines := Lines(content);
      Some(Join(lines[..block.value.0] + EntryLines(entryText) + lines[block.value.1..], '\n'))
  }

  /** With the stub further down, putting the entry in its place gives the text it gives further up: the
      lines above are the same, and the entry passes over the lines between the two places. */
  predicate PassesOver(up: seq<string>, upBelow: seq<string>, low: seq<string>, lowBelow: seq<string>, entry: seq<string>)
    requires |up| < |low|
  {
    up == low[..|up|] && entry + upBelow == low[|up|..] + entry + lowBelow
  }

  /** What two ledgers must share for the entry to give the same text in both: everything but the stub's
      block, when both have it on one line. */
  predicate SameElsewhere(wanted: string, entry: seq<string>, a: string, b: string) {
    var (x, y) := (StubBlock(a, wanted), StubBlock(b, wanted));
    && x.Some? && y.Some?
    && var (up, low) := (Lines(a)[..x.value.0], Lines(b)[..y.value.0]);
    var (upBelow, lowBelow) := (Lines(a)[x.value.1..], Lines(b)[y.value.1..]);
    if |up| == |low| then up == low && upBelow == lowBelow
    else if |up| < |low| then PassesOver(up, upBelow, low, lowBelow, entry)
    else PassesOver(low, lowBelow, up, upBelow, entry)
  }

  lemma SameLines(a: seq<string>, b: seq<string>)
    requires a != [] && b != []
    requires (forall l | l in a :: '\n' !in l) && (forall l | l in b :: '\n' !in l)
    ensures Join(a, '\n') == Join(b, '\n') <==> a == b
  {
    hide Join, Split;
    SplitJoin(a, '\n');
    SplitJoin(b, '\n');
  }

  lemma Spliced(up: seq<string>, upBelow: seq<string>, low: seq<string>, lowBelow: seq<string>, entry: seq<string>)
    requires |up| < |low|
    ensures up + entry + upBelow == low + entry + lowBelow <==> PassesOver(up, upBelow, low, lowBelow, entry)
  {
    var (s, t) := (up + entry + upBelow, low + entry + lowBelow);
    assert s[..|up|] == up && s[|up|..] == entry + upBelow;
    assert t[..|up|] == low[..|up|] && t[|up|..] == low[|up|..] + entry + lowBelow;
    assert s == s[..|up|] + s[|up|..] && t == t[..|up|] + t[|up|..];
  }

  lemma SplicedHere(up: seq<string>, upBelow: seq<string>, low: seq<string>, lowBelow: seq<string>, entry: seq<string>)
    requires |up| == |low|
    ensures up + entry + upBelow == low + entry + lowBelow <==> up == low && upBelow == lowBelow
  {
    var (s, t) := (up + entry + upBelow, low + entry + lowBelow);
    assert s[..|up|] == up && s[|up| + |entry|..] == upBelow;
    assert t[..|up|] == low && t[|up| + |entry|..] == lowBelow;
  }

  /** Exactly when a replacement gives the same text on two ledgers. */
  lemma SameEditExactly(wanted: string, entryText: string, a: string, b: string)
    requires StubBlock(a, wanted).Some?
    ensures ReplaceEdit(wanted, entryText, a) == ReplaceEdit(wanted, entryText, b) <==>
            SameElsewhere(wanted, EntryLines(entryText), a, b)
  {
    hide StubBlock, Split, Join, TrimEnd, PassesOver;
    if StubBlock(b, wanted).Some? {
      var (x, y) := (StubBlock(a, wanted).value, StubBlock(b, wanted).value);
      var entry := EntryLines(entryText);
      var (up, low) := (Lines(a)[..x.0], Lines(b)[..y.0]);
      var (upBelow, lowBelow) := (Lines(a)[x.1..], Lines(b)[y.1..]);
      SameLines(up + entry + upBelow, low + entry + lowBelow);
      if |up| == |low| {
        SplicedHere(up, upBelow, low, lowBelow, entry);
      } else if |up| < |low| {
        Spliced(up, upBelow, low, lowBelow, entry);
      } else {
        Spliced(low, lowBelow, up, upBelow, entry);
      }
    }
  }

  /** So with the stubs on two lines the texts differ, unless the ledger with the lower stub has the entry's
      own first line where the other has its stub. */
  lemma MovedStubNeedsEntry(wanted: string, entry: seq<string>, a: string, b: string)
    requires SameElsewhere(wanted, entry, a, b) && entry != []
    ensures var (x, y) := (StubBlock(a, wanted).value, StubBlock(b, wanted).value);
            && (x.0 < y.0 ==> Lines(b)[x.0] == entry[0])
            && (y.0 < x.0 ==> Lines(a)[y.0] == entry[0])
  {
    hide StubBlock, Split;
    var (x, y) := (StubBlock(a, wanted).value, StubBlock(b, wanted).value);
    var (low, high) := (Lines(b)[..y.0], Lines(a)[..x.0]);
    if x.0 < y.0 {
      assert (low[x.0..] + entry + Lines(b)[y.1..])[0] == low[x.0];
      assert (entry + Lines(a)[x.1..])[0] == entry[0];
    } else if y.0 < x.0 {
      assert (high[y.0..] + entry + Lines(a)[x.1..])[0] == high[y.0];
      assert (entry + Lines(b)[y.1..])[0] == entry[0];
    }
  }

  datatype ReplaceResult = BadEntry | Attempted(edit: EditResult)

  /** `replaceReservation` run alone: a failure leaves the ledger as it was. */
  method ReplaceReservation(ledger: TextFile, id: string, entryText: string) returns (result: ReplaceResult)
    modifies ledger
    ensures result.BadEntry? <==> !AcceptsEntry(NormalizeDwId(id), entryText)
    ensures result.Attempted? ==>
              result.edit == ComputeEdit(old(ledger.content), ReplaceEdit(NormalizeDwId(id), entryText, old(ledger.content)),
                                         DEFAULT_MAX_SHRINK_RATIO)
    ensures ledger.content == if result.Attempted? && result.edit.Edited? then result.edit.content else old(ledger.content)
  {
    var wanted := NormalizeDwId(id);
    if !AcceptsEntry(wanted, entryText) {
      return BadEntry;
    }
    var edit := ledger.SafeEditFile((content: string) => ReplaceEdit(wanted, entryText, content), None);
    return Attempted(edit);
  }

  /** The edited ledger's lines: those around the block, with the entry's between them. */
  lemma EditedLines(content: string, wanted: string, entryText: string, c: Cut)
    requires CleanCut(Lines(content), wanted, c)
    requires StubBlock(content, wanted) == Some((|c.before|, |c.before| + |c.block|))
    ensures ReplaceEdit(wanted, entryText, content).Some?
    ensures Lines(ReplaceEdit(wanted, entryText, content).value) == Respliced(c, EntryLines(entryText))
  {
    hide StubBlock, FenceAfter, HeadingsOf, ReservationsOf, LinesFrom, Split, Join;
    var lines := Lines(content);
    assert lines[..|c.before|] == c.before && lines[|c.before| + |c.block|..] == c.after;
    SplitJoin(Respliced(c, EntryLines(entryText)), '\n');
  }

  /** Replacing a stub by a real entry with a single heading and no open fence: the sequence of
      normalized ids is the same, only the stub itself leaves the list of reservations, and every
      other heading is the same up to the shift of the lines below the block. */
  lemma ReplaceKeepsIds(content: string, wanted: string, entryText: string) returns (c: Cut)
    requires FenceClosed(content) && StubBlock(content, wanted).Some? && AcceptsEntry(wanted, entryText)
    requires FenceAfter(None, EntryLines(entryText)).None?
    requires |HeadingsIn(EntryLines(entryText))| == 1 && ReservationsIn(EntryLines(entryText)) == []
    ensures CleanCut(Lines(content), wanted, c)
    ensures var edited := ReplaceEdit(wanted, entryText, content);
            && edited.Some? && FenceClosed(edited.value)
            && NormalizedIds(ParseDwHeadings(edited.value)) == NormalizedIds(ParseDwHeadings(content))
            && ParseReservations(content) == ReservationsIn(c.before) + [c.stub]
                 + Mapped(ReservationsDown(|c.before| + |c.block|), ReservationsIn(c.after))
            && ParseReservations(edited.value) == ReservationsIn(c.before)
                 + Mapped(ReservationsDown(|c.before| + |EntryLines(entryText)|), ReservationsIn(c.after))
            && ParseDwHeadings(content) == HeadingsIn(c.before) + [c.stub.heading]
                 + Mapped(HeadingsDown(|c.before| + |c.block|), HeadingsIn(c.after))
            && ParseDwHeadings(edited.value) == HeadingsIn(c.before)
                 + [MovedHeading(ParseDwHeadings(entryText)[0], |c.before|)]
                 + Mapped(HeadingsDown(|c.before| + |EntryLines(entryText)|), HeadingsIn(c.after))
  {
    hide StubBlock, FenceAfter, LinesFrom, Split, Join, Picked, AcceptsEntry, ReplaceEdit, NormalizedIds, ToReservation;
    c := CutAtStub(content, wanted);
    var entry := EntryLines(entryText);
    EditedLines(content, wanted, entryText, c);
    ResplicedReads(Lines(content), wanted, c, entry);
    AcceptedHeading(wanted, entryText);
    var heading := ParseDwHeadings(entryText)[0];
    assert HeadingsIn(entry) == [heading];
    assert Mapped(HeadingsDown(|c.before|), [heading]) == [MovedHeading(heading, |c.before|)];
    SameIds(HeadingsIn(c.before), c.stub.heading, MovedHeading(heading, |c.before|), HeadingsIn(c.after),
            |c.before| + |c.block|, |c.before| + |entry|);
  }

  lemma AcceptedHeading(wanted: string, entryText: string)
    requires AcceptsEntry(wanted, entryText)
    ensures ParseDwHeadings(entryText) != [] && HeadingsIn(EntryLines(entryText)) != []
    ensures HeadingsIn(EntryLines(entryText))[0] == ParseDwHeadings(entryText)[0]
    ensures ParseDwHeadings(entryText)[0].normalizedId == wanted
  {
    hide Picked, Emitted, StateAfter, ToDwHeading, Split, TrimEnd;
    FirstHeadingSurvives(entryText);
  }

  lemma SameIds(before: seq<DwHeading>, x: DwHeading, y: DwHeading, after: seq<DwHeading>, m: nat, n: nat)
    requires x.normalizedId == y.normalizedId
    ensures NormalizedIds(before + [x] + Mapped(HeadingsDown(m), after)) ==
            NormalizedIds(before + [y] + Mapped(HeadingsDown(n), after))
  {
  }

  /** No line of `raw` opens or closes a fence. */
  ghost predicate Unfenced(raw: seq<string>) {
    forall k | 0 <= k < |raw| :: Marker(StripCr(raw[k])).None?
  }

  /** Lines without fence markers keep the fence state; inside a fence none of them is seen. */
  lemma {:induction false} UnfencedLines(fence: Option<Fence>, raw: seq<string>, at: nat)
    requires Unfenced(raw)
    ensures FenceAfter(fence, raw) == fence
    ensures fence.Some? ==> LinesFrom(fence, raw, at) == []
    decreases raw
  {
    hide Marker, StripCr;
    if raw != [] {
      assert FenceNext(fence, raw[0]) == fence;
      UnfencedLines(fence, raw[1..], at + 1);
    }
  }

  /** The entry's fences decide what is read below it: the replaced ledger keeps its ids if and only if
      the text below reads, under the fence the entry leaves open, with the ids it had. So it does when
      none is left open; and when one is, and no line below closes it, exactly if no heading is below. */
  lemma EntryFenceDecides(raw: seq<string>, wanted: string, c: Cut, entry: seq<string>)
    requires CleanCut(raw, wanted, c)
    requires |HeadingsIn(entry)| == 1 && HeadingsIn(entry)[0].normalizedId == wanted
    ensures var fence := FenceAfter(None, entry);
            var kept := NormalizedIds(HeadingsIn(Respliced(c, entry))) == NormalizedIds(HeadingsIn(raw));
            && (kept <==> NormalizedIds(HeadingsOf(LinesFrom(fence, c.after, |c.before| + |entry|))) ==
                          NormalizedIds(HeadingsIn(c.after)))
            && (fence.None? ==> kept)
            && (fence.Some? && (forall x | x in c.after :: !Closes(StripCr(x), fence.value)) ==>
                  (kept <==> HeadingsIn(c.after) == []))
  {
    hide Emitted, StateAfter, Picked, ToReservation, Closes, StripCr, NormalizedIds;
    var fence := FenceAfter(None, entry);
    ThreeParts(c.before, c.block, c.after);
    MovedDown(c.block, |c.before|);
    UnderFence(c, entry);
    var below := HeadingsOf(LinesFrom(fence, c.after, |c.before| + |entry|));
    IdsAround(HeadingsIn(c.before), c.stub.heading, MovedHeading(HeadingsIn(entry)[0], |c.before|),
              Mapped(HeadingsDown(|c.before| + |c.block|), HeadingsIn(c.after)), below);
    IdsMoved(HeadingsIn(c.after), |c.before| + |c.block|);
    if fence.None? {
      MovedDown(c.after, |c.before| + |entry|);
      IdsMoved(HeadingsIn(c.after), |c.before| + |entry|);
    } else if forall x | x in c.after :: !Closes(StripCr(x), fence.value) {
      InsideFence(fence.value, c.after, |c.before| + |entry|);
      NothingToPick([]);
      NoIds(HeadingsIn(c.after));
    }
  }

  lemma NoIds(a: seq<DwHeading>)
    ensures NormalizedIds(a) == NormalizedIds([]) <==> a == []
  {
    assert |NormalizedIds(a)| == |a|;
  }

  lemma IdsMoved(a: seq<DwHeading>, shift: nat)
    ensures NormalizedIds(Mapped(HeadingsDown(shift), a)) == NormalizedIds(a)
  {
  }

  lemma IdsConcat(a: seq<DwHeading>, b: seq<DwHeading>)
    ensures NormalizedIds(a + b) == NormalizedIds(a) + NormalizedIds(b)
  {
  }

  /** Headings with the same ids above: the ids agree if and only if they do below. */
  lemma IdsAround(a: seq<DwHeading>, x: DwHeading, y: DwHeading, b: seq<DwHeading>, c: seq<DwHeading>)
    requires x.normalizedId == y.normalizedId
    ensures NormalizedIds(a + [y] + c) == NormalizedIds(a + [x] + b) <==> NormalizedIds(c) == NormalizedIds(b)
  {
    hide NormalizedIds;
    IdsConcat(a + [y], c);
    IdsConcat(a + [x], b);
    assert NormalizedIds(a + [x]) == NormalizedIds(a + [y]) by {
      SameIds(a, x, y, [], 0, 0);
      assert Mapped(HeadingsDown(0), []) == [];
      assert a + [x] + [] == a + [x] && a + [y] + [] == a + [y];
    }
    var above := NormalizedIds(a + [x]);
    if above + NormalizedIds(c) == above + NormalizedIds(b) {
      SplitAtStart(above, NormalizedIds(c), above, NormalizedIds(b));
    }
  }

  /** What is read of the replaced ledger, whatever fence the entry leaves open. */
  lemma UnderFence(c: Cut, entry: seq<string>)
    requires FenceAfter(None, c.before).None? && |HeadingsIn(entry)| == 1
    ensures HeadingsIn(Respliced(c, entry)) ==
            HeadingsIn(c.before) + [MovedHeading(HeadingsIn(entry)[0], |c.before|)]
            + HeadingsOf(LinesFrom(FenceAfter(None, entry), c.after, |c.before| + |entry|))
  {
    hide Emitted, StateAfter, Picked;
    Compose(None, c.before, entry, 0);
    Compose(None, c.before + entry, c.after, 0);
    var (la, lb) := (LinesFrom(None, c.before, 0), LinesFrom(None, entry, |c.before|));
    PickedCompose(HeadingOf, la, lb);
    PickedCompose(HeadingOf, la + lb, LinesFrom(FenceAfter(None, entry), c.after, |c.before| + |entry|));
    MovedDown(entry, |c.before|);
    var heading := HeadingsIn(entry)[0];
    assert HeadingsIn(entry) == [heading];
    assert Mapped(HeadingsDown(|c.before|), [heading]) == [MovedHeading(heading, |c.before|)];
  }

  // ----- entries -----

  /** A one-line entry for id `n`. */
  function EntryHeading(n: nat, title: string): string { "### " + DW + (Decimal(n) + (": " + title)) }

  predicate IsTitle(title: string) {
    title != "" && !IsSpace(title[|title| - 1]) && '\n' !in title
  }

  lemma EntryHeadingReads(n: nat, title: string)
    requires IsTitle(title)
    ensures var text := EntryHeading(n, title);
            && StripCr(text) == text && TrimEnd(text) == text && '\n' !in text && Marker(text).None?
            && ToDwHeading(text, 1) == Some(DwHeading(DW + Decimal(n), "dw-" + Decimal(n), 1, 3))
  {
    hide ToDwHeading, Marker, TrimEnd, StripCr;
    var text := EntryHeading(n, title);
    IdHeading(n, ": " + title, 1);
    HeadingOpensNoFence(text, 1);
    assert text[|text| - 1] == title[|title| - 1];
    WholeText(text);
    assert '\n' !in Decimal(n);
  }

  const BACKTICKS: string := "```"

  /** An accepted entry that leaves a fence open: a heading, and a line of three backticks. */
  lemma UnclosedEntry(n: nat, title: string)
    requires IsTitle(title)
    ensures var entryText := EntryHeading(n, title) + "\n" + BACKTICKS;
            && AcceptsEntry("dw-" + Decimal(n), entryText)
            && EntryLines(entryText) == [EntryHeading(n, title), BACKTICKS]
            && FenceAfter(None, EntryLines(entryText)) == Some(Fence('`', 3))
            && |HeadingsIn(EntryLines(entryText))| == 1
  {
    hide ToDwHeading, Emitted, StateAfter, Picked, Marker, StripCr, EntryHeading, Split, TrimEnd;
    var text := EntryHeading(n, title);
    var entryText := text + "\n" + BACKTICKS;
    EntryHeadingReads(n, title);
    SplitConcat(text, BACKTICKS, '\n');
    SplitOne(text, '\n');
    SplitOne(BACKTICKS, '\n');
    assert [text] + [BACKTICKS] == [text, BACKTICKS];
    WholeText(entryText);
    BackticksOpen(1);
    FirstLineRead(text, [BACKTICKS], 0, Classified(text, 1));
    FirstRawHeading([text, BACKTICKS]);
  }

  lemma WholeText(t: string)
    requires t == "" || !IsSpace(t[|t| - 1])
    ensures TrimEnd(t) == t && StripCr(t) == t
  {
  }

  lemma BackticksOpen(at: nat)
    ensures FenceAfter(None, [BACKTICKS]) == Some(Fence('`', 3)) && HeadingsOf(LinesFrom(None, [BACKTICKS], at)) == []
  {
    hide Emitted, StateAfter, Picked;
    FenceLineMarker(0, '`', 3, "");
    assert FenceLine(0, '`', 3, "") == BACKTICKS;
    OneRawLine(None, BACKTICKS, at);
    NothingToPick([]);
  }
}
