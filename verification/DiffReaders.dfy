/** The two readers of zero-context unified diffs. */
module DiffReaders {
  import opened LineReader
  import opened Text
  import opened UnifiedDiffs

  /** `@@ -`, the old span, ` +`, then the new start. */
  function HunkStart(row: string, isSpan: char -> bool): Option<nat> {
    if !StartsWith(row, "@@ -") then None
    else
      var rest := row[4..];
      var span := Span(rest, isSpan);
      var tail := rest[span..];
      if span == 0 || !StartsWith(tail, " +") then None
      else
        var digits := Span(tail[2..], IsDigit);
        if digits == 0 then None else Some(Number(tail[2..][..digits]))
  }

  /** The hunk pattern of `addedSuppressions`: any span without white space. */
  function SonarHunk(row: string): Option<nat> { HunkStart(row, NotSpace) }

  /** The hunk pattern of `parseAddedLines`: a span of digits and commas, a digit first. */
  function SafetyHunk(row: string): Option<nat> {
    if |row| > 4 && IsDigit(row[4]) then HunkStart(row, IsSpanChar) else None
  }

  function SonarNext(p: Place, row: string): Place {
    if StartsWith(row, "+++ ") then p.(path := if StartsWith(row, "+++ b/") then row[6..] else "")
    else if SonarHunk(row).Some? then p.(line := SonarHunk(row).value)
    else if !StartsWith(row, "+") || StartsWith(row, "+++") then p
    else p.(line := p.line + 1)
  }

  function SonarEmit(p: Place, row: string, at: nat): seq<Added> {
    if SonarHunk(row).None? && StartsWith(row, "+") && !StartsWith(row, "+++") && p.path != ""
    then [Added(p.path, p.line, row[1..])] else []
  }

  function SafetyNext(p: Place, row: string): Place {
    if StartsWith(row, "+++ b/") then p.(path := row[6..])
    else if SafetyHunk(row).Some? then p.(line := SafetyHunk(row).value)
    else if p.path == "" || StartsWith(row, "--- ") || StartsWith(row, "diff ") then p
    else if StartsWith(row, "+") || (!StartsWith(row, "-") && row != NO_NEWLINE_MARKER) then p.(line := p.line + 1)
    else p
  }

  function SafetyEmit(p: Place, row: string, at: nat): seq<Added> {
    if StartsWith(row, "+") && !StartsWith(row, "+++ b/") && SafetyHunk(row).None? && p.path != ""
    then [Added(p.path, p.line, row[1..])] else []
  }

  predicate SonarGood(text: string) { !StartsWith(text, "++") }

  predicate SafetyGood(text: string) { !StartsWith(text, "++ b/") }

  const SONAR := Reader(SonarNext, SonarEmit, SonarGood, false)

  const SAFETY := Reader(SafetyNext, SafetyEmit, SafetyGood, true)

  /** The loop of `addedSuppressions`, before its word filters. */
  method SonarAddedLines(rows: seq<string>) returns (added: seq<Added>)
    ensures added == ReadFrom(SONAR, Place("", 0), rows, 0)
  {
    hide HunkStart;
    var path, line := "", 0;
    added := [];
    ghost var start := Place("", 0);
    ReadNone(SONAR, start, 0);
    for k := 0 to |rows|
      invariant added == ReadFrom(SONAR, start, rows[..k], 0)
      invariant Place(path, line) == PlaceAfter(SONAR, start, rows[..k])
    {
      OneMoreLine(SonarNext, SonarEmit, start, rows, k, 0);
      var row := rows[k];
      if StartsWith(row, "+++ ") {
        PlusPrefix(row);
        path := if StartsWith(row, "+++ b/") then row[6..] else "";
        continue;
      }
      var hunk := SonarHunk(row);
      if hunk.Some? {
        line := hunk.value;
        continue;
      }
      if !StartsWith(row, "+") || StartsWith(row, "+++") {
        continue;
      }
      if path != "" {
        added := added + [Added(path, line, row[1..])];
      }
      line := line + 1;
    }
    assert rows[..|rows|] == rows;
  }

  lemma PlusPrefix(row: string)
    requires StartsWith(row, "+++ ")
    ensures StartsWith(row, "+++")
  {
    assert row[..3] == row[..4][..3];
  }

  /** The loop of `parseAddedLines`. */
  method SafetyAddedLines(rows: seq<string>) returns (added: seq<Added>)
    ensures added == ReadFrom(SAFETY, Place("", 0), rows, 0)
  {
    hide HunkStart;
    var file, newLine := "", 0;
    added := [];
    ghost var start := Place("", 0);
    ReadNone(SAFETY, start, 0);
    for k := 0 to |rows|
      invariant added == ReadFrom(SAFETY, start, rows[..k], 0)
      invariant Place(file, newLine) == PlaceAfter(SAFETY, start, rows[..k])
    {
      OneMoreLine(SafetyNext, SafetyEmit, start, rows, k, 0);
      var row := rows[k];
      if StartsWith(row, "+++ b/") {
        file := row[6..];
        continue;
      }
      var hunk := SafetyHunk(row);
      if hunk.Some? {
        newLine := hunk.value;
        continue;
      }
      OtherPrefixes(row);
      if file == "" || StartsWith(row, "--- ") || StartsWith(row, "diff ") {
        continue;
      }
      if StartsWith(row, "+") {
        added := added + [Added(file, newLine, row[1..])];
        newLine := newLine + 1;
      } else if !StartsWith(row, "-") && row != NO_NEWLINE_MARKER {
        newLine := newLine + 1;
      }
    }
    assert rows[..|rows|] == rows;
  }

  lemma OtherPrefixes(row: string)
    ensures StartsWith(row, "--- ") || StartsWith(row, "diff ") ==> !StartsWith(row, "+")
  {
    if StartsWith(row, "--- ") {
      assert row[0] == row[..4][0];
    }
    if StartsWith(row, "diff ") {
      assert row[0] == row[..5][0];
    }
  }

  lemma FirstOf(row: string, prefix: string)
    requires prefix != ""
    ensures StartsWith(row, prefix) ==> row != "" && row[0] == prefix[0]
  {
    if StartsWith(row, prefix) {
      assert row[0] == row[..|prefix|][0];
    }
  }

  /** A row that does not start with `@` is no hunk row. */
  lemma NoHunk(row: string)
    requires row == "" || row[0] != '@'
    ensures SonarHunk(row).None? && SafetyHunk(row).None?
  {
    FirstOf(row, "@@ -");
  }

  lemma PlusText(text: string)
    ensures StartsWith("+" + text, "+") && ("+" + text)[1..] == text
    ensures StartsWith("+" + text, "+++") <==> StartsWith(text, "++")
    ensures StartsWith("+" + text, "+++ b/") <==> StartsWith(text, "++ b/")
    ensures StartsWith("+" + text, "+++ ") ==> StartsWith(text, "++")
  {
    hide StartsWith;
    var row := "+" + text;
    PlusFirst(text);
    PrefixStep(row, "+++");
    PrefixStep(row, "+++ b/");
    assert "+++"[1..] == "++" && "+++ b/"[1..] == "++ b/";
    if StartsWith(row, "+++ ") {
      PlusPrefix(row);
    }
  }

  lemma PlusFirst(text: string)
    ensures StartsWith("+" + text, "+") && ("+" + text)[1..] == text
  {
    assert ("+" + text)[..1] == "+";
  }

  lemma FileRowText(path: string)
    ensures StartsWith(FileRow(path), "+++ b/") && StartsWith(FileRow(path), "+++ ") && FileRow(path)[6..] == path
    ensures StartsWith(FileRow(path)[1..], "++ b/") && StartsWith(FileRow(path)[1..], "++")
  {
    var row := FileRow(path);
    assert row[..6] == "+++ b/" && row[..4] == "+++ ";
    assert row[1..][..5] == "++ b/" && row[1..][..2] == "++";
  }

  /** What follows the old span of a hunk row: ` +`, the start, and something that is no digit. */
  lemma HunkTail(h: Hunk) returns (tail: string, after: string)
    requires IsHunk(h)
    ensures HunkRow(h)[4..] == h.oldSpan + tail && StartsWith(HunkRow(h), "@@ -")
    ensures tail == " +" + (Decimal(h.start) + after) && after != "" && !IsDigit(after[0])
  {
    after := h.newSpan + " @@" + h.heading;
    tail := " +" + (Decimal(h.start) + after);
    assert HunkRow(h) == "@@ -" + (h.oldSpan + tail);
    assert HunkRow(h)[..4] == "@@ -";
  }

  lemma StartIsRead(h: Hunk, isSpan: char -> bool)
    requires IsHunk(h) && All(h.oldSpan, isSpan) && !isSpan(' ')
    ensures HunkStart(HunkRow(h), isSpan) == Some(h.start)
  {
    hide HunkRow, Number, Decimal;
    var tail, after := HunkTail(h);
    SpanOf(h.oldSpan, tail, isSpan);
    assert (h.oldSpan + tail)[|h.oldSpan|..] == tail;
    assert tail[..2] == " +" && tail[2..] == Decimal(h.start) + after;
    SpanOf(Decimal(h.start), after, IsDigit);
    assert (Decimal(h.start) + after)[..|Decimal(h.start)|] == Decimal(h.start);
    NumberOfDecimal(h.start);
  }

  lemma HunkIsRead(h: Hunk)
    requires IsHunk(h)
    ensures SonarHunk(HunkRow(h)) == Some(h.start) && SafetyHunk(HunkRow(h)) == Some(h.start)
    ensures HunkRow(h) != "" && HunkRow(h)[0] == '@'
  {
    hide HunkRow, HunkStart;
    assert All(h.oldSpan, NotSpace);
    StartIsRead(h, NotSpace);
    StartIsRead(h, IsSpanChar);
    var tail, after := HunkTail(h);
    FirstOf(HunkRow(h), "@@ -");
    assert HunkRow(h)[4] == HunkRow(h)[4..][0] == h.oldSpan[0];
  }

  lemma MarkerRow()
    ensures NO_NEWLINE_MARKER[0] == '\\' && !StartsWith(NO_NEWLINE_MARKER, "+")
  {
    FirstOf(NO_NEWLINE_MARKER, "+");
  }

  lemma SonarOnPlus(p: Place, text: string, at: nat)
    ensures SonarEmit(p, "+" + text, at) == if SonarGood(text) && p.path != "" then [Added(p.path, p.line, text)] else []
    ensures SonarGood(text) ==> SonarNext(p, "+" + text) == p.(line := p.line + 1)
  {
    hide SonarHunk, StartsWith;
    PlusText(text);
    NoHunk("+" + text);
  }

  lemma SafetyOnPlus(p: Place, text: string, at: nat)
    ensures SafetyEmit(p, "+" + text, at) == if SafetyGood(text) && p.path != "" then [Added(p.path, p.line, text)] else []
    ensures SafetyGood(text) && p.path != "" ==> SafetyNext(p, "+" + text) == p.(line := p.line + 1)
  {
    hide SafetyHunk, StartsWith;
    PlusText(text);
    NoHunk("+" + text);
    OtherPrefixes("+" + text);
  }

  lemma SonarOnOthers(p: Place, row: string, at: nat)
    ensures !IsPlusRow(row) ==> SonarEmit(p, row, at) == []
    ensures !IsPlusRow(row) && (row == "" || row[0] != '@') ==> SonarNext(p, row) == p
  {
    hide SonarHunk, StartsWith;
    FirstOf(row, "+");
    FirstOf(row, "+++ ");
    if row == "" || row[0] != '@' {
      NoHunk(row);
    }
  }

  lemma SafetyOnOthers(p: Place, row: string, at: nat)
    ensures !IsPlusRow(row) ==> SafetyEmit(p, row, at) == []
    ensures (row != "" && row[0] == '-') || row == NO_NEWLINE_MARKER ==> SafetyNext(p, row) == p
  {
    hide SafetyHunk;
    FirstOf(row, "+");
    FirstOf(row, "+++ b/");
    MarkerRow();
    if row == "" || row[0] != '@' {
      NoHunk(row);
    }
    if row != "" && row[0] == '-' {
      assert row[..1] == "-";
    }
  }

  lemma SonarUnderstands()
    ensures Understands(SONAR)
  {
    hide SonarHunk, StartsWith, HunkRow, FileRow, OddRow, SonarNext, SonarEmit, SonarGood, Keeps;
    forall p: Place, row: string, at: nat | !IsPlusRow(row)
      ensures SONAR.emit(p, row, at) == []
    {
      SonarOnOthers(p, row, at);
    }
    forall p: Place, text: string, at: nat
      ensures SONAR.emit(p, "+" + text, at) == if SONAR.good(text) && p.path != "" then [Added(p.path, p.line, text)] else []
    {
      SonarOnPlus(p, text, at);
    }
    forall p: Place, text: string | SONAR.good(text) && p.path != ""
      ensures SONAR.next(p, "+" + text) == Place(p.path, p.line + 1)
    {
      SonarOnPlus(p, text, 0);
    }
    forall path: string
      ensures !SONAR.good(FileRow(path)[1..])
    {
      SonarOnFile(Place("", 0), path);
    }
    forall p: Place, path: string
      ensures SONAR.next(p, FileRow(path)).path == path
    {
      SonarOnFile(p, path);
    }
    forall rest: string | rest != "" && rest[0] != 'b'
      ensures SONAR.good(OddRow(rest)[1..]) == SONAR.blind
    {
      SonarOnOdd(Place("", 0), rest);
    }
    forall p: Place, rest: string | rest != "" && rest[0] != 'b'
      ensures SONAR.next(p, OddRow(rest)).path == if SONAR.blind then p.path else ""
    {
      SonarOnOdd(p, rest);
    }
    forall p: Place, row: string | Keeps(SONAR, row)
      ensures SONAR.next(p, row).path == p.path
    {
      SonarKeeps(p, row);
    }
    forall p: Place, h: Hunk | IsHunk(h)
      ensures SONAR.next(p, HunkRow(h)) == Place(p.path, h.start)
    {
      SonarOnHunk(p, h);
    }
    forall p: Place, text: string
      ensures SONAR.next(p, "-" + text) == p
    {
      SonarOnOthers(p, "-" + text, 0);
    }
    forall p: Place
      ensures SONAR.next(p, NO_NEWLINE_MARKER) == p
    {
      SonarOnOthers(p, NO_NEWLINE_MARKER, 0);
    }
  }

  lemma SonarOnFile(p: Place, path: string)
    ensures !SonarGood(FileRow(path)[1..]) && SonarNext(p, FileRow(path)).path == path
  {
    hide StartsWith, FileRow;
    FileRowText(path);
  }

  lemma OddRowText(rest: string)
    requires rest != "" && rest[0] != 'b'
    ensures var row := OddRow(rest);
            && StartsWith(row, "+++ ") && !StartsWith(row, "+++ b/")
            && StartsWith(row[1..], "++") && !StartsWith(row[1..], "++ b/")
  {
    var row := OddRow(rest);
    assert row[..4] == "+++ " && row[1..][..2] == "++";
    if |row| >= 6 {
      assert row[..6][4] == rest[0] && row[1..][..5][3] == rest[0];
    }
  }

  lemma SonarOnOdd(p: Place, rest: string)
    requires rest != "" && rest[0] != 'b'
    ensures !SonarGood(OddRow(rest)[1..]) && SonarNext(p, OddRow(rest)).path == ""
  {
    hide StartsWith, OddRow;
    OddRowText(rest);
  }

  lemma SafetyOnOdd(p: Place, rest: string)
    requires rest != "" && rest[0] != 'b'
    ensures SafetyGood(OddRow(rest)[1..]) && SafetyNext(p, OddRow(rest)).path == p.path
  {
    hide StartsWith, OddRow;
    OddRowText(rest);
  }

  lemma SonarKeeps(p: Place, row: string)
    requires Keeps(SONAR, row)
    ensures SonarNext(p, row).path == p.path
  {
    hide StartsWith, SonarHunk;
    FirstOf(row, "+++ ");
    if IsPlusRow(row) {
      assert row == "+" + row[1..];
      PlusText(row[1..]);
    }
  }

  lemma SafetyKeeps(p: Place, row: string)
    requires Keeps(SAFETY, row)
    ensures SafetyNext(p, row).path == p.path
  {
    hide StartsWith, SafetyHunk;
    FirstOf(row, "+++ b/");
    if IsPlusRow(row) {
      assert row == "+" + row[1..];
      PlusText(row[1..]);
    }
  }

  lemma SonarOnHunk(p: Place, h: Hunk)
    requires IsHunk(h)
    ensures SonarNext(p, HunkRow(h)) == Place(p.path, h.start)
  {
    hide StartsWith, HunkRow, SonarHunk;
    HunkIsRead(h);
    FirstOf(HunkRow(h), "+++ ");
  }

  lemma SafetyOnFile(p: Place, path: string)
    ensures !SafetyGood(FileRow(path)[1..]) && SafetyNext(p, FileRow(path)).path == path
  {
    hide StartsWith, FileRow;
    FileRowText(path);
  }

  lemma SafetyOnHunk(p: Place, h: Hunk)
    requires IsHunk(h)
    ensures SafetyNext(p, HunkRow(h)) == Place(p.path, h.start)
  {
    hide StartsWith, HunkRow, SafetyHunk;
    HunkIsRead(h);
    FirstOf(HunkRow(h), "+++ b/");
  }

  lemma SafetyUnderstands()
    ensures Understands(SAFETY)
  {
    hide SafetyHunk, StartsWith, HunkRow, FileRow, OddRow, SafetyNext, SafetyEmit, SafetyGood, Keeps;
    forall p: Place, row: string, at: nat | !IsPlusRow(row)
      ensures SAFETY.emit(p, row, at) == []
    {
      SafetyOnOthers(p, row, at);
    }
    forall p: Place, text: string, at: nat
      ensures SAFETY.emit(p, "+" + text, at) == if SAFETY.good(text) && p.path != "" then [Added(p.path, p.line, text)] else []
    {
      SafetyOnPlus(p, text, at);
    }
    forall p: Place, text: string | SAFETY.good(text) && p.path != ""
      ensures SAFETY.next(p, "+" + text) == Place(p.path, p.line + 1)
    {
      SafetyOnPlus(p, text, 0);
    }
    forall path: string
      ensures !SAFETY.good(FileRow(path)[1..])
    {
      SafetyOnFile(Place("", 0), path);
    }
    forall p: Place, path: string
      ensures SAFETY.next(p, FileRow(path)).path == path
    {
      SafetyOnFile(p, path);
    }
    forall rest: string | rest != "" && rest[0] != 'b'
      ensures SAFETY.good(OddRow(rest)[1..]) == SAFETY.blind
    {
      SafetyOnOdd(Place("", 0), rest);
    }
    forall p: Place, rest: string | rest != "" && rest[0] != 'b'
      ensures SAFETY.next(p, OddRow(rest)).path == if SAFETY.blind then p.path else ""
    {
      SafetyOnOdd(p, rest);
    }
    forall p: Place, row: string | Keeps(SAFETY, row)
      ensures SAFETY.next(p, row).path == p.path
    {
      SafetyKeeps(p, row);
    }
    forall p: Place, h: Hunk | IsHunk(h)
      ensures SAFETY.next(p, HunkRow(h)) == Place(p.path, h.start)
    {
      SafetyOnHunk(p, h);
    }
    forall p: Place, text: string
      ensures SAFETY.next(p, "-" + text) == p
    {
      SafetyOnOthers(p, "-" + text, 0);
    }
    forall p: Place
      ensures SAFETY.next(p, NO_NEWLINE_MARKER) == p
    {
      SafetyOnOthers(p, NO_NEWLINE_MARKER, 0);
    }
  }

  ghost predicate NoneAdds(files: seq<FileDiff>, prefix: string) {
    forall f, a | f in files && IsAddedBy(f, a) :: !StartsWith(a, prefix)
  }

  /** Exactly which diffs each reader reads right. Every file that adds a line must be printed by its path
      alone, without a space or quotes. For the one no added line may start with `++`; for the other none
      with `++ b/`, and no deleted or quoted file may come below a named one. */
  lemma ReadersAreExact(files: seq<FileDiff>)
    requires forall f | f in files :: IsDiff(f)
    ensures ReadFrom(SONAR, Place("", 0), DiffRows(files), 0) == DiffAdds(files) <==>
            NoneAdds(files, "++") && PlainlyAdded(files)
    ensures ReadFrom(SAFETY, Place("", 0), DiffRows(files), 0) == DiffAdds(files) <==>
            NoneAdds(files, "++ b/") && PlainlyAdded(files) && !HasStray(files)
  {
    hide Understands, IsDiff, ReadFrom, DiffRows, DiffAdds, IsAddedBy, StartsWith, HasPlainPath, AddsALine, HasStray;
    SonarUnderstands();
    SafetyUnderstands();
    ReaderIsExact(SONAR, files);
    ReaderIsExact(SAFETY, files);
  }

  ghost predicate PlainlyAdded(files: seq<FileDiff>) {
    forall f | f in files && AddsALine(f) :: HasPlainPath(f)
  }

  /** On a diff without added lines that start with `++` the two readers agree exactly when no deleted or
      quoted file comes below a named one. */
  lemma ReadersAgree(files: seq<FileDiff>)
    requires (forall f | f in files :: IsDiff(f)) && NoneAdds(files, "++")
    ensures ReadFrom(SONAR, Place("", 0), DiffRows(files), 0) == ReadFrom(SAFETY, Place("", 0), DiffRows(files), 0)
            <==> !HasStray(files)
  {
    hide Understands, IsDiff, ReadFrom, DiffRows, IsAddedBy, StartsWith, HasStray;
    SonarUnderstands();
    SafetyUnderstands();
    forall a: string | StartsWith(a, "++ b/")
      ensures StartsWith(a, "++")
    {
      ShorterPrefix(a);
    }
    ReadersAgreeExactly(SAFETY, SONAR, files);
  }

  lemma ShorterPrefix(a: string)
    requires StartsWith(a, "++ b/")
    ensures StartsWith(a, "++")
  {
    assert a[..2] == a[..5][..2];
  }
}
