/** Zero-context unified diffs as git renders them, and what any reader of them has to get right: the
    file and the line number of every added line. */
module UnifiedDiffs {
  import opened LineReader
  import opened Text

  /** An added line, with its file and its line number in the new file. */
  datatype Added = Added(path: string, line: nat, text: string)

  /** The loop variables of a reader: the file it is in, and the number of the next new line. */
  datatype Place = Place(path: string, line: nat)

  // ----- diffs -----

  /** Removed lines, then added ones; `oldSpan` and `newSpan` are the line counts as written. */
  datatype Hunk = Hunk(oldSpan: string, start: nat, newSpan: string, heading: string,
                       removed: seq<string>, oldUnended: bool, added: seq<string>, newUnended: bool)

  /** An added or modified file, its path also as escaped for quotes; a deleted one; or a change of mode or
      name, with headers only. */
  datatype FileDiff =
    | TextDiff(header: seq<string>, path: string, escaped: string, hunks: seq<Hunk>)
    | Deleted(header: seq<string>, hunks: seq<Hunk>)
    | HeaderOnly(header: seq<string>)

  const NO_NEWLINE_MARKER: string := "\\ No newline at end of file"

  predicate IsSpanChar(c: char) { IsDigit(c) || c == ',' }

  /** Rows above a file's first hunk: `diff`, `index`, modes, `--- a/...`. */
  predicate IsHeaderRow(row: string) { row == "" || (row[0] != '+' && row[0] != '@') }

  predicate IsHunk(h: Hunk) {
    && h.oldSpan != "" && IsDigit(h.oldSpan[0]) && All(h.oldSpan, IsSpanChar)
    && (h.newSpan == "" || h.newSpan[0] == ',')
  }

  predicate IsDiff(f: FileDiff) {
    && (forall row | row in f.header :: IsHeaderRow(row))
    && (!f.HeaderOnly? ==> forall h | h in f.hunks :: IsHunk(h))
    && (f.TextDiff? ==> f.path != "" && f.path[|f.path| - 1] != '\t')
    && (f.Deleted? ==> forall h | h in f.hunks :: h.added == [])
  }

  /** A character that makes git print a path in double quotes, escaped. */
  predicate IsSpecial(c: char) { c < ' ' || c == '"' || c == '\\' || c >= '\U{007F}' }

  predicate IsQuoted(path: string) { exists c | c in path :: IsSpecial(c) }

  /** What follows `+++ b/`: the path, and a tab behind it if it has a space. Quoted paths and deleted files
      have no such row. */
  function Name(f: FileDiff): Option<string> {
    if f.TextDiff? && !IsQuoted(f.path) then Some(if ' ' in f.path then f.path + "\t" else f.path) else None
  }

  function FileRow(name: string): (row: string)
    ensures |row| == 6 + |name|
  {
    "+++ b/" + name
  }

  /** The file row of a file without a name to read. */
  function OddRow(rest: string): (row: string)
    ensures |row| == 4 + |rest|
  {
    "+++ " + rest
  }

  predicate IsOdd(f: FileDiff) { f.Deleted? || (f.TextDiff? && IsQuoted(f.path)) }

  function OddText(f: FileDiff): (rest: string)
    ensures rest != "" && rest[0] != 'b'
  {
    if f.TextDiff? then "\"b/" + f.escaped + "\"" else "/dev/null"
  }

  function HunkRow(h: Hunk): string {
    "@@ -" + h.oldSpan + " +" + Decimal(h.start) + h.newSpan + " @@" + h.heading
  }

  function Marked(mark: char, lines: seq<string>): (rows: seq<string>)
    ensures |rows| == |lines| && forall k | 0 <= k < |rows| :: rows[k] == [mark] + lines[k]
  {
    seq(|lines|, k requires 0 <= k < |lines| => [mark] + lines[k])
  }

  function Ending(unended: bool): seq<string> { if unended then [NO_NEWLINE_MARKER] else [] }

  function HunkRows(h: Hunk): seq<string> {
    [HunkRow(h)] + (Marked('-', h.removed) + Ending(h.oldUnended) + (Marked('+', h.added) + Ending(h.newUnended)))
  }

  function HunksRows(hunks: seq<Hunk>): seq<string> {
    if hunks == [] then [] else HunkRows(hunks[0]) + HunksRows(hunks[1..])
  }

  function FileRows(f: FileDiff): seq<string> {
    if f.HeaderOnly? then f.header
    else
      f.header + ([if Name(f).Some? then FileRow(Name(f).value) else OddRow(OddText(f))] + HunksRows(f.hunks))
  }

  function DiffRows(files: seq<FileDiff>): seq<string> {
    if files == [] then [] else FileRows(files[0]) + DiffRows(files[1..])
  }

  // ----- what the diffs add -----

  function AddsFrom(path: string, line: nat, added: seq<string>): (r: seq<Added>)
    ensures |r| == |added| && forall k | 0 <= k < |r| :: r[k] == Added(path, line + k, added[k])
  {
    seq(|added|, k requires 0 <= k < |added| => Added(path, line + k, added[k]))
  }

  function HunksAdds(path: string, hunks: seq<Hunk>): seq<Added> {
    if hunks == [] then [] else AddsFrom(path, hunks[0].start, hunks[0].added) + HunksAdds(path, hunks[1..])
  }

  function FileAdds(f: FileDiff): seq<Added> { if f.TextDiff? then HunksAdds(f.path, f.hunks) else [] }

  function DiffAdds(files: seq<FileDiff>): seq<Added> {
    if files == [] then [] else FileAdds(files[0]) + DiffAdds(files[1..])
  }

  // ----- a reader -----

  /** How a reader moves on over a row and what it emits for it, which added texts it recognises, and
      whether it takes the file row of a nameless file for an added line. */
  datatype Reader = Reader(next: (Place, string) -> Place, emit: (Place, string, nat) -> seq<Added>,
                           good: string -> bool, blind: bool)

  predicate IsPlusRow(row: string) { row != "" && row[0] == '+' }

  /** What the rows of a diff mean to a reader: only `+` rows are added lines, a file row names the file,
      a hunk row the line, and nothing else moves it within a file. */
  ghost predicate Understands(r: Reader) {
    && (forall p: Place, row: string, at: nat | !IsPlusRow(row) :: r.emit(p, row, at) == [])
    && (forall p: Place, text: string, at: nat ::
          r.emit(p, "+" + text, at) == if r.good(text) && p.path != "" then [Added(p.path, p.line, text)] else [])
    && (forall path: string {:trigger FileRow(path)} :: !r.good(FileRow(path)[1..]))
    && (forall p: Place, path: string {:trigger r.next(p, FileRow(path))} :: r.next(p, FileRow(path)).path == path)
    && (forall rest: string {:trigger OddRow(rest)} | rest != "" && rest[0] != 'b' ::
          r.good(OddRow(rest)[1..]) == r.blind)
    && (forall p: Place, rest: string {:trigger r.next(p, OddRow(rest))} | rest != "" && rest[0] != 'b' ::
          r.next(p, OddRow(rest)).path == if r.blind then p.path else "")
    && (forall p: Place, h: Hunk | IsHunk(h) :: r.next(p, HunkRow(h)) == Place(p.path, h.start))
    && (forall p: Place, text: string | p.path != "" :: r.next(p, "-" + text) == p)
    && (forall p: Place | p.path != "" :: r.next(p, NO_NEWLINE_MARKER) == p)
    && (forall p: Place, text: string | r.good(text) && p.path != "" :: r.next(p, "+" + text) == Place(p.path, p.line + 1))
    && (forall p: Place, row: string | Keeps(r, row) :: r.next(p, row).path == p.path)
  }

  /** Rows that name no file. */
  predicate Keeps(r: Reader, row: string) { !IsPlusRow(row) || r.good(row[1..]) }

  function ReadFrom(r: Reader, p: Place, rows: seq<string>, at: nat): seq<Added> { Emitted(r.next, r.emit, p, rows, at) }

  function PlaceAfter(r: Reader, p: Place, rows: seq<string>): Place { StateAfter(r.next, p, rows) }

  lemma ReadConcat(r: Reader, p: Place, a: seq<string>, b: seq<string>, at: nat)
    ensures ReadFrom(r, p, a + b, at) == ReadFrom(r, p, a, at) + ReadFrom(r, PlaceAfter(r, p, a), b, at + |a|)
    ensures PlaceAfter(r, p, a + b) == PlaceAfter(r, PlaceAfter(r, p, a), b)
  {
    EmittedCompose(r.next, r.emit, p, a, b, at);
    StateCompose(r.next, p, a, b);
  }

  lemma ReadOne(r: Reader, p: Place, row: string, at: nat)
    ensures ReadFrom(r, p, [row], at) == r.emit(p, row, at) && PlaceAfter(r, p, [row]) == r.next(p, row)
  {
    assert [row][1..] == [];
    assert Emitted(r.next, r.emit, r.next(p, row), [row][1..], at + 1) == [];
    assert StateAfter(r.next, r.next(p, row), [row][1..]) == r.next(p, row);
  }

  lemma ReadNone(r: Reader, p: Place, at: nat)
    ensures ReadFrom(r, p, [], at) == [] && PlaceAfter(r, p, []) == p
  {
  }

  /** Rows without a plus emit nothing. */
  lemma {:induction false} ReadQuiet(r: Reader, p: Place, rows: seq<string>, at: nat)
    requires Understands(r) && forall row | row in rows :: !IsPlusRow(row)
    ensures ReadFrom(r, p, rows, at) == []
    decreases rows
  {
    if rows != [] {
      ReadQuiet(r, r.next(p, rows[0]), rows[1..], at + 1);
    }
  }

  lemma {:induction false} ReadRemoved(r: Reader, p: Place, removed: seq<string>)
    requires Understands(r) && p.path != ""
    ensures PlaceAfter(r, p, Marked('-', removed)) == p
    decreases removed
  {
    if removed != [] {
      ReadRemoved(r, p, removed[1..]);
      assert Marked('-', removed)[1..] == Marked('-', removed[1..]);
      assert Marked('-', removed)[0] == "-" + removed[0];
    }
  }

  lemma ReadEnding(r: Reader, p: Place, unended: bool, at: nat)
    requires Understands(r) && p.path != ""
    ensures ReadFrom(r, p, Ending(unended), at) == [] && PlaceAfter(r, p, Ending(unended)) == p
  {
    hide Understands, ReadFrom, PlaceAfter;
    if unended {
      ReadOne(r, p, NO_NEWLINE_MARKER, at);
      MarkerIsQuiet(r, p, at);
    } else {
      ReadNone(r, p, at);
    }
  }

  lemma MarkerIsQuiet(r: Reader, p: Place, at: nat)
    requires Understands(r) && p.path != ""
    ensures r.emit(p, NO_NEWLINE_MARKER, at) == [] && r.next(p, NO_NEWLINE_MARKER) == p
  {
  }

  lemma {:induction false} ReadAdded(r: Reader, p: Place, added: seq<string>, at: nat)
    requires Understands(r) && p.path != "" && forall a | a in added :: r.good(a)
    ensures ReadFrom(r, p, Marked('+', added), at) == AddsFrom(p.path, p.line, added)
    ensures PlaceAfter(r, p, Marked('+', added)).path == p.path
    decreases added
  {
    hide Understands, ReadFrom, PlaceAfter, Marked, AddsFrom;
    if added == [] {
      NoneAdded(p.path, p.line);
      ReadNone(r, p, at);
    } else {
      var row := "+" + added[0];
      GoodIsRead(r, p, added[0], at);
      ReadOne(r, p, row, at);
      ReadAdded(r, Place(p.path, p.line + 1), added[1..], at + 1);
      FirstMarked('+', added);
      FirstAdded(p.path, p.line, added);
      ReadConcat(r, p, [row], Marked('+', added[1..]), at);
    }
  }

  lemma NoneAdded(path: string, line: nat)
    ensures Marked('+', []) == [] && AddsFrom(path, line, []) == []
  {
  }

  lemma FirstMarked(mark: char, lines: seq<string>)
    requires lines != []
    ensures Marked(mark, lines) == [[mark] + lines[0]] + Marked(mark, lines[1..])
  {
  }

  lemma FirstAdded(path: string, line: nat, added: seq<string>)
    requires added != []
    ensures AddsFrom(path, line, added) == [Added(path, line, added[0])] + AddsFrom(path, line + 1, added[1..])
  {
  }

  lemma GoodIsRead(r: Reader, p: Place, text: string, at: nat)
    requires Understands(r) && r.good(text) && p.path != ""
    ensures r.emit(p, "+" + text, at) == [Added(p.path, p.line, text)]
    ensures r.next(p, "+" + text) == Place(p.path, p.line + 1)
  {
  }

  lemma HunkRowIsQuiet(r: Reader, p: Place, h: Hunk, at: nat)
    requires Understands(r) && IsHunk(h)
    ensures ReadFrom(r, p, [HunkRow(h)], at) == [] && PlaceAfter(r, p, [HunkRow(h)]) == Place(p.path, h.start)
  {
    hide HunkRow, ReadFrom, PlaceAfter;
    ReadOne(r, p, HunkRow(h), at);
    HunkRowStart(h);
  }

  lemma HunkRowStart(h: Hunk)
    ensures !IsPlusRow(HunkRow(h))
  {
  }

  lemma RemovedAreQuiet(r: Reader, p: Place, removed: seq<string>, unended: bool, at: nat)
    requires Understands(r) && p.path != ""
    ensures ReadFrom(r, p, Marked('-', removed) + Ending(unended), at) == []
    ensures PlaceAfter(r, p, Marked('-', removed) + Ending(unended)) == p
  {
    hide Understands, ReadFrom, PlaceAfter, Ending;
    ReadConcat(r, p, Marked('-', removed), Ending(unended), at);
    ReadQuiet(r, p, Marked('-', removed), at);
    ReadRemoved(r, p, removed);
    ReadEnding(r, p, unended, at + |removed|);
  }

  lemma AddedAreRead(r: Reader, p: Place, added: seq<string>, unended: bool, at: nat)
    requires Understands(r) && p.path != "" && forall a | a in added :: r.good(a)
    ensures ReadFrom(r, p, Marked('+', added) + Ending(unended), at) == AddsFrom(p.path, p.line, added)
    ensures PlaceAfter(r, p, Marked('+', added) + Ending(unended)).path == p.path
  {
    hide Understands, ReadFrom, PlaceAfter, Ending;
    ReadConcat(r, p, Marked('+', added), Ending(unended), at);
    ReadAdded(r, p, added, at);
    ReadEnding(r, PlaceAfter(r, p, Marked('+', added)), unended, at + |added|);
  }

  lemma ReadHunk(r: Reader, p: Place, h: Hunk, at: nat)
    requires Understands(r) && IsHunk(h) && p.path != "" && forall a | a in h.added :: r.good(a)
    ensures ReadFrom(r, p, HunkRows(h), at) == AddsFrom(p.path, h.start, h.added)
    ensures PlaceAfter(r, p, HunkRows(h)).path == p.path
  {
    hide Understands, ReadFrom, PlaceAfter, Ending, HunkRow;
    var (removed, added) := (Marked('-', h.removed) + Ending(h.oldUnended), Marked('+', h.added) + Ending(h.newUnended));
    var start := Place(p.path, h.start);
    HunkRowIsQuiet(r, p, h, at);
    RemovedAreQuiet(r, start, h.removed, h.oldUnended, at + 1);
    AddedAreRead(r, start, h.added, h.newUnended, at + 1 + |removed|);
    ReadConcat(r, start, removed, added, at + 1);
    ReadConcat(r, p, [HunkRow(h)], removed + added, at);
  }

  lemma {:induction false} ReadHunks(r: Reader, p: Place, hunks: seq<Hunk>, at: nat)
    requires Understands(r) && p.path != "" && forall h | h in hunks :: IsHunk(h)
    requires forall h, a | h in hunks && a in h.added :: r.good(a)
    ensures ReadFrom(r, p, HunksRows(hunks), at) == HunksAdds(p.path, hunks)
    decreases hunks
  {
    hide Understands, ReadFrom, PlaceAfter, HunkRows;
    if hunks == [] {
      ReadNone(r, p, at);
    } else {
      ReadHunk(r, p, hunks[0], at);
      ReadHunks(r, PlaceAfter(r, p, HunkRows(hunks[0])), hunks[1..], at + |HunkRows(hunks[0])|);
      ReadConcat(r, p, HunkRows(hunks[0]), HunksRows(hunks[1..]), at);
    }
  }

  // ----- the path a reader is in -----

  /** Rows that name no file leave the reader in its file, and emit nothing outside of one. */
  lemma {:induction false} PathKept(r: Reader, p: Place, rows: seq<string>, at: nat)
    requires Understands(r) && forall row | row in rows :: Keeps(r, row)
    ensures PlaceAfter(r, p, rows).path == p.path
    ensures p.path == "" ==> ReadFrom(r, p, rows, at) == []
    decreases rows
  {
    hide Understands, Keeps;
    if rows != [] {
      KeptRow(r, p, rows[0], at);
      PathKept(r, r.next(p, rows[0]), rows[1..], at + 1);
    }
  }

  lemma KeptRow(r: Reader, p: Place, row: string, at: nat)
    requires Understands(r) && Keeps(r, row)
    ensures r.next(p, row).path == p.path
    ensures p.path == "" ==> r.emit(p, row, at) == []
  {
    if IsPlusRow(row) {
      assert row == "+" + row[1..];
    }
  }

  lemma HunkKeeps(r: Reader, h: Hunk)
    requires forall a | a in h.added :: r.good(a)
    ensures forall row | row in HunkRows(h) :: Keeps(r, row)
  {
    hide HunkRow;
    HunkRowStart(h);
    forall row | row in Marked('+', h.added)
      ensures Keeps(r, row)
    {
      var k :| 0 <= k < |h.added| && row == Marked('+', h.added)[k];
      assert row[1..] == h.added[k];
    }
  }

  lemma {:induction false} HunksKeep(r: Reader, hunks: seq<Hunk>)
    requires forall h, a | h in hunks && a in h.added :: r.good(a)
    ensures forall row | row in HunksRows(hunks) :: Keeps(r, row)
  {
    hide HunkRows, Keeps;
    if hunks != [] {
      HunkKeeps(r, hunks[0]);
      HunksKeep(r, hunks[1..]);
    }
  }

  lemma HeaderKeeps(r: Reader, header: seq<string>)
    requires forall row | row in header :: IsHeaderRow(row)
    ensures forall row | row in header :: Keeps(r, row) && !IsPlusRow(row)
  {
  }

  /** The file a reader takes itself to be in after the file row. */
  function ReadName(r: Reader, path: string, f: FileDiff): string {
    if Name(f).Some? then Name(f).value else if IsOdd(f) && !r.blind then "" else path
  }

  /** How many added lines a reader makes up out of the file row. */
  function Extra(r: Reader, path: string, f: FileDiff): nat { if r.blind && IsOdd(f) && path != "" then 1 else 0 }

  function Extras(r: Reader, path: string, files: seq<FileDiff>): nat
    decreases files
  {
    if files == [] then 0 else Extra(r, path, files[0]) + Extras(r, ReadName(r, path, files[0]), files[1..])
  }

  /** What a file adds, as read under that path. */
  function AddsUnder(path: string, f: FileDiff): seq<Added> {
    if path == "" || f.HeaderOnly? then [] else HunksAdds(path, f.hunks)
  }

  function ReadAdds(r: Reader, path: string, files: seq<FileDiff>): seq<Added>
    decreases files
  {
    if files == [] then []
    else
      var name := ReadName(r, path, files[0]);
      AddsUnder(name, files[0]) + ReadAdds(r, name, files[1..])
  }

  predicate IsAddedBy(f: FileDiff, a: string) { f.TextDiff? && exists h | h in f.hunks :: a in h.added }

  ghost predicate AddsGood(r: Reader, f: FileDiff) { forall a | IsAddedBy(f, a) :: r.good(a) }

  lemma NameRow(r: Reader, p: Place, f: FileDiff, at: nat)
    requires Understands(r) && !f.HeaderOnly?
    ensures var row := if Name(f).Some? then FileRow(Name(f).value) else OddRow(OddText(f));
            && r.next(p, row).path == ReadName(r, p.path, f)
            && |r.emit(p, row, at)| == Extra(r, p.path, f)
            && forall e | e in r.emit(p, row, at) :: e.path == p.path
  {
    hide IsQuoted;
    if Name(f).Some? {
      assert FileRow(Name(f).value) == "+" + FileRow(Name(f).value)[1..];
    } else {
      assert OddRow(OddText(f)) == "+" + OddRow(OddText(f))[1..];
    }
  }

  /** One file: what its file row is taken for, then its added lines under the path read. */
  lemma ReadFile(r: Reader, p: Place, f: FileDiff, at: nat) returns (extra: seq<Added>)
    requires Understands(r) && IsDiff(f) && AddsGood(r, f)
    ensures PlaceAfter(r, p, FileRows(f)).path == ReadName(r, p.path, f)
    ensures ReadFrom(r, p, FileRows(f), at) == extra + AddsUnder(ReadName(r, p.path, f), f)
    ensures |extra| == Extra(r, p.path, f) && forall e | e in extra :: e.path == p.path
  {
    hide Understands, ReadFrom, PlaceAfter, HunksRows, HunksAdds, Keeps, Name, OddText, IsQuoted, IsHunk;
    NameIsText(f);
    HeaderKeeps(r, f.header);
    ReadQuiet(r, p, f.header, at);
    PathKept(r, p, f.header, at);
    extra := [];
    if !f.HeaderOnly? {
      var inFile := PlaceAfter(r, p, f.header);
      var row := if Name(f).Some? then FileRow(Name(f).value) else OddRow(OddText(f));
      var name := r.next(inFile, row);
      extra := r.emit(inFile, row, at + |f.header|);
      NameRow(r, inFile, f, at + |f.header|);
      ReadOne(r, inFile, row, at + |f.header|);
      ReadUnder(r, name, f, at + |f.header| + 1);
      ReadConcat(r, inFile, [row], HunksRows(f.hunks), at + |f.header|);
      ReadConcat(r, p, f.header, [row] + HunksRows(f.hunks), at);
    }
  }

  lemma ReadUnder(r: Reader, p: Place, f: FileDiff, at: nat)
    requires Understands(r) && IsDiff(f) && AddsGood(r, f) && !f.HeaderOnly?
    ensures PlaceAfter(r, p, HunksRows(f.hunks)).path == p.path
    ensures ReadFrom(r, p, HunksRows(f.hunks), at) == AddsUnder(p.path, f)
  {
    hide Understands, ReadFrom, PlaceAfter, HunksRows, HunksAdds, Keeps, IsHunk;
    forall h, a | h in f.hunks && a in h.added
      ensures r.good(a)
    {
      assert f.TextDiff? ==> IsAddedBy(f, a);
    }
    HunksKeep(r, f.hunks);
    PathKept(r, p, HunksRows(f.hunks), at);
    if p.path != "" {
      ReadHunks(r, p, f.hunks, at);
    }
  }

  /** A whole diff, when every added line is recognised: as many lines too many as file rows taken for
      added lines, and without those exactly the lines under the paths read. */
  lemma {:induction false} ReadFiles(r: Reader, p: Place, files: seq<FileDiff>, at: nat)
    requires Understands(r) && forall f | f in files :: IsDiff(f) && AddsGood(r, f)
    ensures var read := ReadFrom(r, p, DiffRows(files), at);
            && |read| == Extras(r, p.path, files) + |ReadAdds(r, p.path, files)|
            && (Extras(r, p.path, files) == 0 ==> read == ReadAdds(r, p.path, files))
    decreases files
  {
    hide Understands, ReadFrom, PlaceAfter, FileRows, AddsGood, IsDiff, Extra, ReadName, AddsUnder;
    if files == [] {
      ReadNone(r, p, at);
    } else {
      var extra := ReadFile(r, p, files[0], at);
      var after := PlaceAfter(r, p, FileRows(files[0]));
      ReadFiles(r, after, files[1..], at + |FileRows(files[0])|);
      ReadConcat(r, p, FileRows(files[0]), DiffRows(files[1..]), at);
      if extra == [] {
        assert extra + AddsUnder(ReadName(r, p.path, files[0]), files[0]) == AddsUnder(ReadName(r, p.path, files[0]), files[0]);
      }
    }
  }

  // ----- which diffs are read right -----

  /** A file row that git prints as the path alone. */
  predicate HasPlainPath(f: FileDiff) { f.TextDiff? && ' ' !in f.path && !IsQuoted(f.path) }

  ghost predicate AddsALine(f: FileDiff) { exists a :: IsAddedBy(f, a) }

  /** A deleted file, or one with a quoted path, below a file that is named. */
  ghost predicate HasStray(files: seq<FileDiff>) {
    exists i, j | 0 <= i < j < |files| :: Name(files[i]).Some? && IsOdd(files[j])
  }

  ghost predicate HasOdd(files: seq<FileDiff>) { exists f | f in files :: IsOdd(f) }

  lemma StrayStep(files: seq<FileDiff>)
    requires files != []
    ensures HasStray(files) <==> HasStray(files[1..]) || (Name(files[0]).Some? && HasOdd(files[1..]))
    ensures HasOdd(files) <==> IsOdd(files[0]) || HasOdd(files[1..])
  {
    hide Name, IsOdd;
    var rest := files[1..];
    if HasStray(rest) {
      var i, j :| 0 <= i < j < |rest| && Name(rest[i]).Some? && IsOdd(rest[j]);
      assert files[i + 1] == rest[i] && files[j + 1] == rest[j];
    }
    if Name(files[0]).Some? && HasOdd(rest) {
      var j :| 0 <= j < |rest| && IsOdd(rest[j]);
      assert files[j + 1] == rest[j];
    }
    if HasStray(files) {
      var i, j :| 0 <= i < j < |files| && Name(files[i]).Some? && IsOdd(files[j]);
      assert rest[j - 1] == files[j];
      if i > 0 {
        assert rest[i - 1] == files[i];
      }
    }
  }

  lemma NameIsText(f: FileDiff)
    requires IsDiff(f)
    ensures Name(f).Some? ==> Name(f).value != "" && !IsOdd(f) && !f.HeaderOnly?
  {
  }

  /** File rows are taken for added lines exactly by a blind reader that has been in a file. */
  lemma {:induction false} ExtrasExactly(r: Reader, path: string, files: seq<FileDiff>)
    requires forall f | f in files :: IsDiff(f)
    ensures Extras(r, path, files) > 0 <==> r.blind && (HasStray(files) || (path != "" && HasOdd(files)))
    decreases files
  {
    hide Name, IsOdd, IsDiff, HasStray, HasOdd;
    if files == [] {
      NoStray();
    } else {
      StrayStep(files);
      NameIsText(files[0]);
      ExtrasExactly(r, ReadName(r, path, files[0]), files[1..]);
    }
  }

  lemma NoStray()
    ensures !HasStray([]) && !HasOdd([])
  {
  }

  lemma {:induction false} NoAdds(path: string, hunks: seq<Hunk>)
    requires forall h | h in hunks :: h.added == []
    ensures HunksAdds(path, hunks) == []
  {
    if hunks != [] {
      NoAdds(path, hunks[1..]);
    }
  }

  lemma AddsHere(f: FileDiff, h: Hunk)
    requires f.TextDiff? && h in f.hunks
    ensures h.added != [] ==> AddsALine(f)
  {
    if h.added != [] {
      assert h.added[0] in h.added && IsAddedBy(f, h.added[0]);
    }
  }

  lemma PlainAdds(r: Reader, path: string, f: FileDiff)
    requires IsDiff(f) && (AddsALine(f) ==> HasPlainPath(f))
    ensures AddsUnder(ReadName(r, path, f), f) == FileAdds(f)
  {
    hide IsQuoted, HunksAdds, AddsALine, IsAddedBy;
    if !AddsALine(f) && !f.HeaderOnly? {
      forall h | h in f.hunks
        ensures h.added == []
      {
        if f.TextDiff? {
          AddsHere(f, h);
        }
      }
      NoAdds(ReadName(r, path, f), f.hunks);
      if f.TextDiff? {
        NoAdds(f.path, f.hunks);
      }
    }
  }

  lemma {:induction false} PlainFiles(r: Reader, path: string, files: seq<FileDiff>)
    requires forall f | f in files :: IsDiff(f) && (AddsALine(f) ==> HasPlainPath(f))
    ensures ReadAdds(r, path, files) == DiffAdds(files)
    decreases files
  {
    hide AddsALine, HasPlainPath, ReadName, AddsUnder, FileAdds, IsDiff;
    if files != [] {
      PlainAdds(r, path, files[0]);
      PlainFiles(r, ReadName(r, path, files[0]), files[1..]);
    }
  }

  // ----- and which are not -----

  /** A line that is not recognised is never emitted. */
  lemma {:induction false} OnlyGood(r: Reader, p: Place, rows: seq<string>, at: nat)
    requires Understands(r)
    ensures forall e | e in ReadFrom(r, p, rows, at) :: r.good(e.text)
    decreases rows
  {
    hide Understands;
    if rows != [] {
      OneGood(r, p, rows[0], at);
      OnlyGood(r, r.next(p, rows[0]), rows[1..], at + 1);
    }
  }

  lemma OneGood(r: Reader, p: Place, row: string, at: nat)
    requires Understands(r)
    ensures forall e | e in r.emit(p, row, at) :: r.good(e.text)
  {
    if IsPlusRow(row) {
      assert row == "+" + row[1..];
    }
  }

  ghost predicate IsName(files: seq<FileDiff>, path: string) { exists f | f in files :: Name(f) == Some(path) }

  lemma {:induction false} AddsPath(path: string, hunks: seq<Hunk>)
    ensures forall e | e in HunksAdds(path, hunks) :: e.path == path
  {
    if hunks != [] {
      AddsPath(path, hunks[1..]);
    }
  }

  /** Whatever is emitted is emitted under a name read, or under the path the reader began in. */
  lemma {:induction false} OnlyNames(r: Reader, p: Place, files: seq<FileDiff>, at: nat)
    requires Understands(r) && forall f | f in files :: IsDiff(f) && AddsGood(r, f)
    ensures forall e | e in ReadFrom(r, p, DiffRows(files), at) :: e.path != "" ==> e.path == p.path || IsName(files, e.path)
    decreases files
  {
    hide Understands, ReadFrom, PlaceAfter, FileRows, AddsGood, IsDiff, Extra, Name, IsOdd, HunksAdds;
    if files == [] {
      ReadNone(r, p, at);
    } else {
      var (f, rest) := (files[0], files[1..]);
      var extra := ReadFile(r, p, f, at);
      var after := PlaceAfter(r, p, FileRows(f));
      OnlyNames(r, after, rest, at + |FileRows(f)|);
      ReadConcat(r, p, FileRows(f), DiffRows(rest), at);
      if !f.HeaderOnly? {
        AddsPath(after.path, f.hunks);
      }
      assert forall path | IsName(rest, path) :: IsName(files, path);
      assert forall path | Name(f) == Some(path) :: IsName(files, path);
    }
  }

  lemma {:induction false} InAdds(path: string, hunks: seq<Hunk>, h: Hunk, a: string) returns (e: Added)
    requires h in hunks && a in h.added
    ensures e in HunksAdds(path, hunks) && e.path == path && e.text == a
  {
    var adds := AddsFrom(path, hunks[0].start, hunks[0].added);
    if h == hunks[0] {
      var k :| 0 <= k < |h.added| && h.added[k] == a;
      e := adds[k];
    } else {
      e := InAdds(path, hunks[1..], h, a);
    }
  }

  lemma {:induction false} InDiff(files: seq<FileDiff>, f: FileDiff, a: string) returns (e: Added)
    requires f in files && IsAddedBy(f, a)
    ensures e in DiffAdds(files) && e.path == f.path && e.text == a
  {
    hide HunksAdds;
    if f == files[0] {
      var h :| h in f.hunks && a in h.added;
      e := InAdds(f.path, f.hunks, h, a);
    } else {
      e := InDiff(files[1..], f, a);
    }
  }

  /** No file row reads as a path with a space or with a character that has to be escaped. */
  lemma NameIsPlain(f: FileDiff, g: FileDiff)
    requires IsDiff(f) && f.TextDiff? && Name(g) == Some(f.path)
    ensures HasPlainPath(f)
  {
    hide IsQuoted;
  }

  /** Exactly which diffs a reader reads right: it recognises every added line, every file that adds a line
      is printed by its path alone, and, if it is blind to nameless files, none comes below a named one. */
  lemma ReaderIsExact(r: Reader, files: seq<FileDiff>)
    requires Understands(r) && forall f | f in files :: IsDiff(f)
    ensures ReadFrom(r, Place("", 0), DiffRows(files), 0) == DiffAdds(files) <==>
            && (forall f, a | f in files && IsAddedBy(f, a) :: r.good(a))
            && (forall f | f in files && AddsALine(f) :: HasPlainPath(f))
            && !(r.blind && HasStray(files))
  {
    hide Understands, IsDiff, ReadFrom, DiffRows, DiffAdds, IsAddedBy, HasPlainPath, HasStray, Extras;
    var (start, read) := (Place("", 0), ReadFrom(r, Place("", 0), DiffRows(files), 0));
    if f, a :| f in files && IsAddedBy(f, a) && !r.good(a) {
      var e := InDiff(files, f, a);
      OnlyGood(r, start, DiffRows(files), 0);
      assert read == DiffAdds(files) ==> e in read;
    } else {
      assert forall f | f in files :: AddsGood(r, f);
      ReadFiles(r, start, files, 0);
      ExtrasExactly(r, "", files);
      if f :| f in files && AddsALine(f) && !HasPlainPath(f) {
        UnreadPath(r, files, f);
      } else {
        PlainFiles(r, "", files);
      }
    }
  }

  lemma UnreadPath(r: Reader, files: seq<FileDiff>, f: FileDiff)
    requires Understands(r) && forall g | g in files :: IsDiff(g) && AddsGood(r, g)
    requires f in files && AddsALine(f) && !HasPlainPath(f)
    ensures ReadFrom(r, Place("", 0), DiffRows(files), 0) != DiffAdds(files)
  {
    hide Understands, ReadFrom, DiffRows, DiffAdds, HasPlainPath, AddsGood, Name;
    var a :| IsAddedBy(f, a);
    var e := InDiff(files, f, a);
    OnlyNames(r, Place("", 0), files, 0);
    if e in ReadFrom(r, Place("", 0), DiffRows(files), 0) {
      var g :| g in files && Name(g) == Some(f.path);
      NameIsPlain(f, g);
    }
  }

  // ----- two readers -----

  lemma {:induction false} SameCount(a: string, b: string, hunks: seq<Hunk>)
    ensures |HunksAdds(a, hunks)| == |HunksAdds(b, hunks)|
  {
    if hunks != [] {
      SameCount(a, b, hunks[1..]);
    }
  }

  /** Two readers that recognise every added line: where no nameless file comes below a named one they are
      always in the same file; and a blind one never emits less than one that is not. */
  lemma {:induction false} ReadAlike(r: Reader, q: Reader, path: string, files: seq<FileDiff>)
    requires forall f | f in files :: IsDiff(f)
    requires !HasStray(files) && (path != "" ==> !HasOdd(files))
    ensures ReadAdds(r, path, files) == ReadAdds(q, path, files)
    decreases files
  {
    hide Name, IsOdd, IsDiff, HasStray, HasOdd, AddsUnder;
    if files != [] {
      StrayStep(files);
      NameIsText(files[0]);
      ReadAlike(r, q, ReadName(r, path, files[0]), files[1..]);
    }
  }

  lemma {:induction false} BlindReadsMore(r: Reader, q: Reader, path: string, path': string, files: seq<FileDiff>)
    requires r.blind && !q.blind && (path' == path || path' == "")
    ensures |ReadAdds(r, path, files)| >= |ReadAdds(q, path', files)|
    decreases files
  {
    hide Name, IsOdd, HunksAdds;
    if files != [] {
      var (name, name') := (ReadName(r, path, files[0]), ReadName(q, path', files[0]));
      if !files[0].HeaderOnly? {
        SameCount(name, name', files[0].hunks);
      }
      BlindReadsMore(r, q, name, name', files[1..]);
    }
  }

  /** On a diff whose added lines both recognise, a blind reader and one that is not agree exactly when no
      nameless file comes below a named one. */
  lemma ReadersAgreeExactly(r: Reader, q: Reader, files: seq<FileDiff>)
    requires Understands(r) && Understands(q) && r.blind && !q.blind
    requires forall f | f in files :: IsDiff(f) && AddsGood(r, f) && AddsGood(q, f)
    ensures ReadFrom(r, Place("", 0), DiffRows(files), 0) == ReadFrom(q, Place("", 0), DiffRows(files), 0) <==>
            !HasStray(files)
  {
    hide Understands, ReadFrom, DiffRows, AddsGood, IsDiff, HasStray, HasOdd, Extras, ReadAdds;
    ReadFiles(r, Place("", 0), files, 0);
    ReadFiles(q, Place("", 0), files, 0);
    ExtrasExactly(r, "", files);
    ExtrasExactly(q, "", files);
    BlindReadsMore(r, q, "", "", files);
    if !HasStray(files) {
      ReadAlike(r, q, "", files);
    }
  }
}
