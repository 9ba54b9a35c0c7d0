/** The shared parser of `deferred-work.md`: the fence tracker, DW headings and DW entries. */
module DeferredWorkLedger {
  import opened LineReader
  import opened Text

  // ----- fences -----

  datatype Fence = Fence(mark: char, length: nat)

  /** The run a line opens with after at most three spaces, when it is a fence marker. */
  function Marker(line: string): Option<Fence> {
    var indent := Leading(line, ' ');
    if indent > 3 || indent == |line| || (line[indent] != '`' && line[indent] != '~') then None
    else
      var mark := line[indent];
      var length := Leading(line[indent..], mark);
      if length >= 3 then Some(Fence(mark, length)) else None
  }

  /** A marker of the open fence's kind, no shorter than it, that makes up the trimmed line. */
  predicate Closes(line: string, fence: Fence) {
    var marker := Marker(line);
    && marker.Some?
    && marker.value.mark == fence.mark
    && marker.value.length >= fence.length
    && Trim(line) == seq(marker.value.length, _ => fence.mark)
  }

  /** The fence open after `line`. */
  function NextFence(fence: Option<Fence>, line: string): Option<Fence> {
    if fence.Some? then (if Closes(line, fence.value) then None else fence)
    else Marker(line)
  }

  /** Whether `line` is a fence line or inside a fence. */
  predicate Fenced(fence: Option<Fence>, line: string) {
    fence.Some? || Marker(line).Some?
  }

  /** The stateful per-line classifier the parsers share. */
  class FenceTracker {
    var fence: Option<Fence>

    constructor ()
      ensures fence == None
    {
      fence := None;
    }

    method Classify(line: string) returns (fenced: bool)
      modifies this
      ensures fenced == Fenced(old(fence), line)
      ensures fence == NextFence(old(fence), line)
    {
      if fence.Some? {
        if Closes(line, fence.value) {
          fence := None;
        }
        return true;
      }
      fence := Marker(line);
      return fence.Some?;
    }
  }

  // ----- headings -----

  datatype DwHeading = DwHeading(id: string, normalizedId: string, line: nat, level: nat)

  predicate IsIdChar(c: char) { IsAlnum(c) || IsSeparator(c) }

  predicate IsSeparator(c: char) { c == '.' || c == '-' }

  predicate NotSeparator(c: char) { !IsSeparator(c) }

  function ToLower(s: string): (r: string)
    ensures |r| == |s|
  {
    seq(|s|, k requires 0 <= k < |s| =>
      if 'A' <= s[k] <= 'Z' then (s[k] as int - 'A' as int + 'a' as int) as char else s[k])
  }

  /** Leading zeros go from a purely numeric segment. */
  function NormalizeSegment(segment: string): string {
    if segment != "" && All(segment, IsDigit) then Decimal(Number(segment)) else segment
  }

  function NormalizeSegments(id: string): string {
    var n := Span(id, NotSeparator);
    if n == |id| then NormalizeSegment(id)
    else NormalizeSegment(id[..n]) + [id[n]] + NormalizeSegments(id[n + 1..])
  }

  function NormalizeDwId(id: string): string { NormalizeSegments(ToLower(id)) }

  predicate NotUpper(c: char) { !('A' <= c <= 'Z') }

  lemma LowerIsFixed(s: string)
    ensures All(ToLower(s), NotUpper)
    ensures All(s, NotUpper) ==> ToLower(s) == s
  {
  }

  lemma SegmentIsFixed(segment: string)
    requires All(segment, NotSeparator) && All(segment, NotUpper)
    ensures var r := NormalizeSegment(segment);
            All(r, NotSeparator) && All(r, NotUpper) && NormalizeSegment(r) == r
  {
    if segment != "" && All(segment, IsDigit) {
      NumberOfDecimal(Number(segment));
    }
  }

  lemma {:induction false} SegmentsAreFixed(id: string)
    requires All(id, NotUpper)
    ensures All(NormalizeSegments(id), NotUpper)
    ensures NormalizeSegments(NormalizeSegments(id)) == NormalizeSegments(id)
  {
    hide NormalizeSegment;
    var n := Span(id, NotSeparator);
    SegmentIsFixed(id[..n]);
    var first := NormalizeSegment(id[..n]);
    if n == |id| {
      assert id[..n] == id;
      SpanOf(first, "", NotSeparator);
      assert first + "" == first;
    } else {
      SegmentsAreFixed(id[n + 1..]);
      var rest := NormalizeSegments(id[n + 1..]);
      SpanOf(first, [id[n]] + rest, NotSeparator);
      var r := first + ([id[n]] + rest);
      assert NormalizeSegments(id) == r;
      assert r[..|first|] == first && r[|first|] == id[n] && r[|first| + 1..] == rest;
    }
  }

  /** Normalizing a normalized id changes nothing, so comparing normalized ids is comparing classes. */
  lemma NormalizeIsIdempotent(id: string)
    ensures NormalizeDwId(NormalizeDwId(id)) == NormalizeDwId(id)
  {
    hide ToLower, NormalizeSegments;
    LowerIsFixed(id);
    SegmentsAreFixed(ToLower(id));
    LowerIsFixed(NormalizeDwId(id));
  }

  /** Length of `run` before a doubled separator. */
  function BeforeDoubled(run: string): (n: nat)
    ensures n <= |run|
  {
    if |run| >= 2 && IsSeparator(run[0]) && IsSeparator(run[1]) then 0
    else if run == "" then 0
    else 1 + BeforeDoubled(run[1..])
  }

  /** The id at the start of a run of id characters: no doubled and no trailing separator. */
  function IdToken(run: string): string {
    var cut := run[..BeforeDoubled(run)];
    if cut != "" && IsSeparator(cut[|cut| - 1]) then cut[..|cut| - 1] else cut
  }

  const DW: string := "DW-"

  /** `#{1,6}`, blanks, `DW-`: the level, and what follows. */
  function DwPrefix(text: string): Option<(nat, string)> {
    var level := Leading(text, '#');
    var blanks := Span(text[level..], IsBlank);
    var rest := text[level + blanks..];
    if 1 <= level <= 6 && blanks > 0 && StartsWith(rest, DW) then Some((level, rest[|DW|..])) else None
  }

  /** A DW heading on line `number` (1-based): the prefix, then an id run. */
  function ToDwHeading(text: string, number: nat): Option<DwHeading> {
    var prefix := DwPrefix(text);
    if prefix.None? then None
    else
      var run := prefix.value.1[..Span(prefix.value.1, IsIdChar)];
      if run == "" || !IsAlnum(run[0]) then None
      else
        var id := DW + IdToken(run);
        Some(DwHeading(id, NormalizeDwId(id), number, prefix.value.0))
  }

  predicate IsAnyHeading(text: string) {
    var level := Leading(text, '#');
    1 <= level <= 6 && (level == |text| || IsBlank(text[level]))
  }

  /** A flat `- source_spec:` bullet. */
  predicate IsSourceSpecBullet(text: string) {
    && text != "" && (text[0] == '-' || text[0] == '*')
    && var blanks := Span(text[1..], IsBlank);
    blanks > 0 && StartsWith(text[1 + blanks..], "source_spec:")
  }

  // ----- lines -----

  datatype LedgerLine = LedgerLine(line: nat, text: string, heading: Option<DwHeading>, otherHeading: bool)

  function StripCr(raw: string): string {
    if raw != "" && raw[|raw| - 1] == '\r' then raw[..|raw| - 1] else raw
  }

  function Classified(text: string, number: nat): LedgerLine {
    var heading := ToDwHeading(text, number);
    LedgerLine(number, text, heading, heading.None? && IsAnyHeading(text))
  }

  /** The fence state after one raw line. */
  function FenceNext(fence: Option<Fence>, raw: string): Option<Fence> { NextFence(fence, StripCr(raw)) }

  /** What the parsers see of one raw line. */
  function Visible(fence: Option<Fence>, raw: string, at: nat): seq<LedgerLine> {
    if Fenced(fence, StripCr(raw)) then [] else [Classified(StripCr(raw), at + 1)]
  }

  /** The fence open after `raw` lines. */
  function FenceAfter(fence: Option<Fence>, raw: seq<string>): Option<Fence> {
    StateAfter(FenceNext, fence, raw)
  }

  /** The non-fenced lines of `raw`, whose first line has number `at + 1`. */
  function LinesFrom(fence: Option<Fence>, raw: seq<string>, at: nat): seq<LedgerLine> {
    Emitted(FenceNext, Visible, fence, raw, at)
  }

  function Lines(content: string): (lines: seq<string>)
    ensures |lines| > 0
  {
    Split(content, '\n')
  }

  function LedgerLines(content: string): seq<LedgerLine> { LinesFrom(None, Lines(content), 0) }

  /** The ledger does not end inside an open fence. */
  predicate FenceClosed(content: string) { FenceAfter(None, Lines(content)).None? }

  /** The tracker composes: it only hands one fence state from line to line. */
  lemma Compose(fence: Option<Fence>, a: seq<string>, b: seq<string>, at: nat)
    ensures FenceAfter(fence, a + b) == FenceAfter(FenceAfter(fence, a), b)
    ensures LinesFrom(fence, a + b, at) ==
            LinesFrom(fence, a, at) + LinesFrom(FenceAfter(fence, a), b, at + |a|)
  {
    StateCompose(FenceNext, fence, a, b);
    EmittedCompose(FenceNext, Visible, fence, a, b, at);
  }

  method CollectLedgerLines(content: string) returns (lines: seq<LedgerLine>)
    ensures lines == LedgerLines(content)
  {
    var fenced := new FenceTracker();
    lines := [];
    var raw := Lines(content);
    for index := 0 to |raw|
      invariant lines == LinesFrom(None, raw[..index], 0)
      invariant fenced.fence == FenceAfter(None, raw[..index])
    {
      OneMoreLine(FenceNext, Visible, None, raw, index, 0);
      var text := StripCr(raw[index]);
      var skip := fenced.Classify(text);
      if !skip {
        lines := lines + [Classified(text, index + 1)];
      }
    }
    assert raw[..|raw|] == raw;
  }

  // ----- fenced blocks -----

  function Run(c: char, n: nat): (s: string)
    ensures |s| == n && forall k | 0 <= k < n :: s[k] == c
  {
    seq(n, _ => c)
  }

  /** A line that starts with a run of marks: indentation, the run, and what follows it. */
  function FenceLine(indent: nat, mark: char, length: nat, info: string): string {
    Run(' ', indent) + Run(mark, length) + info
  }

  predicate IsFenceLine(indent: nat, mark: char, length: nat, info: string) {
    indent <= 3 && (mark == '`' || mark == '~') && length >= 3 && (info == "" || info[0] != mark)
  }

  lemma {:induction false} LeadingRun(c: char, n: nat, rest: string)
    requires rest == "" || rest[0] != c
    ensures Leading(Run(c, n) + rest, c) == n
  {
    if n == 0 {
      assert Run(c, 0) + rest == rest;
    } else {
      assert (Run(c, n) + rest)[1..] == Run(c, n - 1) + rest;
      LeadingRun(c, n - 1, rest);
    }
  }

  lemma FenceLineMarker(indent: nat, mark: char, length: nat, info: string)
    requires IsFenceLine(indent, mark, length, info)
    ensures Marker(FenceLine(indent, mark, length, info)) == Some(Fence(mark, length))
  {
    hide Leading;
    var rest := Run(mark, length) + info;
    assert FenceLine(indent, mark, length, info) == Run(' ', indent) + rest;
    LeadingRun(' ', indent, rest);
    LeadingRun(mark, length, info);
    assert (Run(' ', indent) + rest)[indent..] == rest && rest[0] == mark;
  }

  lemma {:induction false} TrimEndBlank(a: string, blank: string)
    requires a != "" && !IsSpace(a[|a| - 1]) && IsBlankText(blank)
    ensures TrimEnd(a + blank) == a
  {
    if blank == "" {
      assert a + "" == a;
    } else {
      assert (a + blank)[..|a + blank| - 1] == a + blank[..|blank| - 1];
      TrimEndBlank(a, blank[..|blank| - 1]);
    }
  }

  lemma TrimmedFence(indent: nat, mark: char, length: nat, info: string)
    requires IsFenceLine(indent, mark, length, info)
    ensures Trim(FenceLine(indent, mark, length, info)) == Run(mark, length) <==> IsBlankText(info)
  {
    hide TrimEnd, Span;
    var line := FenceLine(indent, mark, length, info);
    var rest := Run(mark, length) + info;
    assert line == Run(' ', indent) + rest;
    if IsBlankText(info) {
      var head := Run(' ', indent) + Run(mark, length);
      assert head[|head| - 1] == mark;
      TrimEndBlank(head, info);
      SpanOf(Run(' ', indent), Run(mark, length), IsSpace);
      assert line == head + info && head[indent..] == Run(mark, length);
    } else {
      var i :| 0 <= i < |info| && !IsSpace(info[i]);
      assert rest[length + i] == info[i];
      TrimKeeps(line, rest, indent, length);
    }
  }

  /** Text after the run is still there after trimming. */
  lemma TrimKeeps(line: string, rest: string, indent: nat, length: nat)
    requires line == Run(' ', indent) + rest && length < |rest| && !IsSpace(rest[0])
    requires exists k | length <= k < |rest| :: !IsSpace(rest[k])
    ensures |Trim(line)| > length
  {
    hide Span;
    var k :| length <= k < |rest| && !IsSpace(rest[k]);
    TrimEndReaches(line, indent + k);
    var kept := TrimEnd(line);
    assert kept == Run(' ', indent) + kept[indent..] && kept[indent] == rest[0];
    SpanOf(Run(' ', indent), kept[indent..], IsSpace);
  }

  lemma {:induction false} TrimEndReaches(s: string, k: nat)
    requires k < |s| && !IsSpace(s[k])
    ensures |TrimEnd(s)| > k && TrimEnd(s) <= s
  {
    if IsSpace(s[|s| - 1]) {
      TrimEndReaches(s[..|s| - 1], k);
    }
  }

  /** Which fence lines close a fence: the same mark, a run at least as long, and nothing behind it. */
  lemma ClosesExactly(indent: nat, mark: char, length: nat, info: string, fence: Fence)
    requires IsFenceLine(indent, mark, length, info)
    ensures Closes(FenceLine(indent, mark, length, info), fence) <==>
            mark == fence.mark && length >= fence.length && IsBlankText(info)
  {
    hide Marker, Trim, FenceLine;
    FenceLineMarker(indent, mark, length, info);
    TrimmedFence(indent, mark, length, info);
    if mark == fence.mark {
      assert Run(mark, length) == seq(length, _ => fence.mark);
    }
  }

  lemma {:induction false} InsideFence(fence: Fence, inner: seq<string>, at: nat)
    requires forall x | x in inner :: !Closes(StripCr(x), fence)
    ensures LinesFrom(Some(fence), inner, at) == [] && FenceAfter(Some(fence), inner) == Some(fence)
    decreases inner
  {
    hide Closes, Marker, StripCr;
    if inner != [] {
      assert FenceNext(Some(fence), inner[0]) == Some(fence);
      InsideFence(fence, inner[1..], at + 1);
    }
  }

  lemma OneRawLine(fence: Option<Fence>, raw: string, at: nat)
    ensures LinesFrom(fence, [raw], at) == Visible(fence, raw, at) && FenceAfter(fence, [raw]) == FenceNext(fence, raw)
  {
    hide Visible, FenceNext;
    assert [raw][..0] == [] && [raw][..1] == [raw];
    OneMoreLine(FenceNext, Visible, fence, [raw], 0, at);
  }

  /** A fenced block is invisible and leaves the fence state as it was: from an opening run to the first
      line that closes it, whatever stands between. */
  lemma FencedBlockIsHidden(indent: nat, mark: char, length: nat, info: string, inner: seq<string>, close: string, at: nat)
    requires IsFenceLine(indent, mark, length, info) && StripCr(FenceLine(indent, mark, length, info)) == FenceLine(indent, mark, length, info)
    requires forall x | x in inner :: !Closes(StripCr(x), Fence(mark, length))
    requires Closes(StripCr(close), Fence(mark, length))
    ensures var block := [FenceLine(indent, mark, length, info)] + (inner + [close]);
            LinesFrom(None, block, at) == [] && FenceAfter(None, block) == None
  {
    hide FenceLine, StripCr, Marker, Closes, LinesFrom, FenceAfter;
    var open, fence := FenceLine(indent, mark, length, info), Fence(mark, length);
    FenceLineMarker(indent, mark, length, info);
    OneRawLine(None, open, at);
    InsideFence(fence, inner, at + 1);
    OneRawLine(Some(fence), close, at + 1 + |inner|);
    Compose(Some(fence), inner, [close], at + 1);
    Compose(None, [open], inner + [close], at);
  }

  // ----- headings of a ledger -----

  function HeadingOf(l: LedgerLine): Option<DwHeading> { l.heading }

  function HeadingsOf(lines: seq<LedgerLine>): seq<DwHeading> { Picked(HeadingOf, lines) }

  function ParseDwHeadings(content: string): seq<DwHeading> { HeadingsOf(LedgerLines(content)) }

  // ----- where a ledger line comes from -----

  /** Ledger line `k` is an unfenced raw line met with no fence open; the lines before and after it
      are the ledger lines of the raw text before and after it. */
  lemma RawOrigin(raw: seq<string>, at: nat, k: nat) returns (a: seq<string>, x: string, b: seq<string>)
    requires k < |LinesFrom(None, raw, at)|
    ensures raw == a + [x] + b
    ensures FenceAfter(None, a).None? && Marker(StripCr(x)).None?
    ensures |LinesFrom(None, a, at)| == k
    ensures LinesFrom(None, raw, at) ==
            LinesFrom(None, a, at) + [Classified(StripCr(x), at + |a| + 1)] + LinesFrom(None, b, at + |a| + 1)
  {
    hide Classified, Closes, Marker;
    a, x, b := Origin(FenceNext, Visible, None, raw, at, k);
    assert !Fenced(FenceAfter(None, a), StripCr(x));
  }

  /** Numbers ascend from 1 to `total`, and a heading carries its line's number. */
  ghost predicate Numbered(all: seq<LedgerLine>, total: nat) {
    && (forall i, j | 0 <= i < j < |all| :: all[i].line < all[j].line)
    && (forall k | 0 <= k < |all| :: 1 <= all[k].line <= total)
    && (forall k | 0 <= k < |all| && all[k].heading.Some? :: all[k].heading.value.line == all[k].line)
  }

  lemma NumberedAppend(all: seq<LedgerLine>, seen: seq<LedgerLine>, n: nat)
    requires Numbered(all, n) && |seen| <= 1
    requires forall l | l in seen :: l.line == n + 1 && (l.heading.Some? ==> l.heading.value.line == n + 1)
    ensures Numbered(all + seen, n + 1)
  {
  }

  lemma VisibleNumber(fence: Option<Fence>, raw: string, at: nat)
    ensures var seen := Visible(fence, raw, at);
            && |seen| <= 1
            && forall l | l in seen :: l.line == at + 1 && (l.heading.Some? ==> l.heading.value.line == at + 1)
  {
  }

  lemma {:induction false} NumbersAscend(raw: seq<string>, n: nat)
    requires n <= |raw|
    ensures Numbered(LinesFrom(None, raw[..n], 0), n)
  {
    if n > 0 {
      hide Visible, FenceNext, StateAfter, Emitted, Numbered;
      NumbersAscend(raw, n - 1);
      var fence := FenceAfter(None, raw[..n - 1]);
      VisibleNumber(fence, raw[n - 1], n - 1);
      NumberedAppend(LinesFrom(None, raw[..n - 1], 0), Visible(fence, raw[n - 1], n - 1), n - 1);
      OneMoreLine(FenceNext, Visible, None, raw, n - 1, 0);
    }
  }

  lemma LedgerNumbered(content: string)
    ensures Numbered(LedgerLines(content), |Lines(content)|)
  {
    NumbersAscend(Lines(content), |Lines(content)|);
    assert Lines(content)[..|Lines(content)|] == Lines(content);
  }

  // ----- entries -----

  datatype BodyLine = BodyLine(line: nat, text: string)

  datatype DwEntry = DwEntry(heading: DwHeading, bodyStartLine: nat, bodyEndLine: int, lines: seq<BodyLine>)

  const STATUS_PREFIX: string := "status:"

  predicate EndsBody(current: LedgerLine, sawStatus: bool) {
    current.heading.Some? || current.otherHeading || (sawStatus && IsSourceSpecBullet(current.text))
  }

  /** How many of the lines after a heading belong to its body. */
  function BodyLength(rest: seq<LedgerLine>, sawStatus: bool): (n: nat)
    ensures n <= |rest|
    decreases rest
  {
    if rest == [] || EndsBody(rest[0], sawStatus) then 0
    else 1 + BodyLength(rest[1..], sawStatus || StartsWith(rest[0].text, STATUS_PREFIX))
  }

  function BodyLines(lines: seq<LedgerLine>): (body: seq<BodyLine>)
    ensures |body| == |lines|
    ensures forall k | 0 <= k < |body| :: body[k] == BodyLine(lines[k].line, lines[k].text)
  {
    seq(|lines|, k requires 0 <= k < |lines| => BodyLine(lines[k].line, lines[k].text))
  }

  /** The entry of the heading at position `k`; a body that nothing ends runs to the last line. */
  function EntryAt(all: seq<LedgerLine>, k: nat, total: nat): DwEntry
    requires k < |all| && all[k].heading.Some?
  {
    var rest := all[k + 1..];
    var n := BodyLength(rest, false);
    DwEntry(all[k].heading.value, all[k].heading.value.line + 1,
            if n < |rest| then rest[n].line - 1 else total, BodyLines(rest[..n]))
  }

  function EntriesUpTo(all: seq<LedgerLine>, k: nat, total: nat): seq<DwEntry>
    requires k <= |all|
  {
    if k == 0 then []
    else EntriesUpTo(all, k - 1, total)
         + if all[k - 1].heading.Some? then [EntryAt(all, k - 1, total)] else []
  }

  function ParseDwEntries(content: string): seq<DwEntry> {
    EntriesUpTo(LedgerLines(content), |LedgerLines(content)|, |Lines(content)|)
  }

  lemma {:induction false} BodyLengthStep(rest: seq<LedgerLine>, n: nat, sawStatus: bool)
    requires n < BodyLength(rest, sawStatus)
    ensures !EndsBody(rest[n], sawStatus || exists k | 0 <= k < n :: StartsWith(rest[k].text, STATUS_PREFIX))
    decreases n
  {
    if n > 0 {
      var saw := sawStatus || StartsWith(rest[0].text, STATUS_PREFIX);
      BodyLengthStep(rest[1..], n - 1, saw);
      if k :| 0 <= k < n && StartsWith(rest[k].text, STATUS_PREFIX) {
        assert k == 0 || StartsWith(rest[1..][k - 1].text, STATUS_PREFIX);
      }
    }
  }

  /** The inner loop: the body lines after a heading, and the last line number of the body. */
  method CollectBody(rest: seq<LedgerLine>, totalLines: nat) returns (body: seq<BodyLine>, end: int)
    ensures var n := BodyLength(rest, false);
            body == BodyLines(rest[..n]) && end == if n < |rest| then rest[n].line - 1 else totalLines
  {
    var sawStatus := false;
    body, end := [], totalLines;
    for k := 0 to |rest|
      invariant BodyLength(rest, false) == k + BodyLength(rest[k..], sawStatus)
      invariant body == BodyLines(rest[..k])
      invariant end == totalLines
    {
      if EndsBody(rest[k], sawStatus) {
        end := rest[k].line - 1;
        break;
      }
      sawStatus := sawStatus || StartsWith(rest[k].text, STATUS_PREFIX);
      body := body + [BodyLine(rest[k].line, rest[k].text)];
      assert rest[k..][1..] == rest[k + 1..];
    }
  }

  method CollectEntries(all: seq<LedgerLine>, totalLines: nat) returns (entries: seq<DwEntry>)
    ensures entries == EntriesUpTo(all, |all|, totalLines)
  {
    entries := [];
    for index := 0 to |all|
      invariant entries == EntriesUpTo(all, index, totalLines)
    {
      if all[index].heading.Some? {
        var body, end := CollectBody(all[index + 1..], totalLines);
        var heading := all[index].heading.value;
        entries := entries + [DwEntry(heading, heading.line + 1, end, body)];
      }
    }
  }

  method CollectDwEntries(content: string) returns (entries: seq<DwEntry>)
    ensures entries == ParseDwEntries(content)
  {
    var all := CollectLedgerLines(content);
    entries := CollectEntries(all, |Lines(content)|);
  }

  /** Position in `all` of the `j`-th entry's heading. */
  function HeadingAt(all: seq<LedgerLine>, k: nat, j: nat, total: nat): (p: nat)
    requires k <= |all| && j < |EntriesUpTo(all, k, total)|
    ensures p < k && all[p].heading.Some?
    ensures EntriesUpTo(all, k, total)[j] == EntryAt(all, p, total)
    ensures j == |EntriesUpTo(all, p, total)|
  {
    if j < |EntriesUpTo(all, k - 1, total)| then HeadingAt(all, k - 1, j, total) else k - 1
  }

  lemma {:induction false} EntriesMonotone(all: seq<LedgerLine>, j: nat, k: nat, total: nat)
    requires j <= k <= |all|
    ensures EntriesUpTo(all, j, total) <= EntriesUpTo(all, k, total)
    decreases k
  {
    if j < k {
      EntriesMonotone(all, j, k - 1, total);
    }
  }

  lemma {:induction false} EntryHeadings(all: seq<LedgerLine>, k: nat, total: nat)
    requires k <= |all|
    ensures |EntriesUpTo(all, k, total)| == |HeadingsOf(all[..k])|
    ensures forall j | 0 <= j < |EntriesUpTo(all, k, total)| ::
              EntriesUpTo(all, k, total)[j].heading == HeadingsOf(all[..k])[j]
  {
    if k > 0 {
      EntryHeadings(all, k - 1, total);
      assert all[..k] == all[..k - 1] + [all[k - 1]];
      PickedCompose(HeadingOf, all[..k - 1], [all[k - 1]]);
      PickedOne(HeadingOf, all[k - 1]);
    }
  }

  /** Each non-fenced DW heading opens exactly one entry, in order. */
  lemma OneEntryPerHeading(content: string)
    ensures |ParseDwEntries(content)| == |ParseDwHeadings(content)|
    ensures forall j | 0 <= j < |ParseDwEntries(content)| ::
              ParseDwEntries(content)[j].heading == ParseDwHeadings(content)[j]
  {
    var all := LedgerLines(content);
    EntryHeadings(all, |all|, |Lines(content)|);
    assert all[..|all|] == all;
  }

  /** A body is exactly the listed lines in its line range, and none of them is a heading. */
  lemma BodyRange(all: seq<LedgerLine>, p: nat, total: nat, k: nat)
    requires Numbered(all, total) && p < |all| && all[p].heading.Some? && k < |all|
    ensures var e := EntryAt(all, p, total);
            && all[p].line <= e.bodyEndLine <= total
            && (e.bodyStartLine <= all[k].line <= e.bodyEndLine <==> p < k <= p + |e.lines|)
            && (p < k <= p + |e.lines| ==> all[k].heading.None? && !all[k].otherHeading)
            && (BodyLine(all[k].line, all[k].text) in e.lines <==> p < k <= p + |e.lines|)
  {
    var rest := all[p + 1..];
    var n := BodyLength(rest, false);
    var e := EntryAt(all, p, total);
    if p < k <= p + n {
      BodyLengthStep(rest, k - p - 1, false);
      assert e.lines[k - p - 1] == BodyLine(all[k].line, all[k].text);
    }
    assert forall b | 0 <= b < |e.lines| :: e.lines[b] == BodyLine(all[p + 1 + b].line, all[p + 1 + b].text);
  }

  /** The body of an entry is exactly the non-fenced lines in its line range, and none of them is a
      heading of any kind. */
  lemma BodyIsItsRange(content: string, j: nat, l: LedgerLine)
    requires j < |ParseDwEntries(content)| && l in LedgerLines(content)
    ensures var e := ParseDwEntries(content)[j];
            && e.heading.line < e.bodyStartLine <= e.bodyEndLine + 1 <= |Lines(content)| + 1
            && (e.bodyStartLine <= l.line <= e.bodyEndLine <==> BodyLine(l.line, l.text) in e.lines)
            && (e.bodyStartLine <= l.line <= e.bodyEndLine ==> l.heading.None? && !l.otherHeading)
  {
    var all, total := LedgerLines(content), |Lines(content)|;
    LedgerNumbered(content);
    var p := HeadingAt(all, |all|, j, total);
    var k :| 0 <= k < |all| && all[k] == l;
    BodyRange(all, p, total, k);
  }

  lemma EntriesOrdered(all: seq<LedgerLine>, i: nat, j: nat, total: nat)
    requires Numbered(all, total) && i < j < |EntriesUpTo(all, |all|, total)|
    ensures var es := EntriesUpTo(all, |all|, total);
            es[i].heading.line <= es[i].bodyEndLine < es[j].heading.line
  {
    var p, q := HeadingAt(all, |all|, i, total), HeadingAt(all, |all|, j, total);
    EntriesMonotone(all, if q <= p then q else p, p, total);
    BodyRange(all, p, total, q);
  }

  /** Entries come in line order with disjoint ranges: a body ends before the next heading. */
  lemma EntriesDisjoint(content: string, i: nat, j: nat)
    requires i < j < |ParseDwEntries(content)|
    ensures ParseDwEntries(content)[i].heading.line <= ParseDwEntries(content)[i].bodyEndLine
            < ParseDwEntries(content)[j].heading.line
  {
    LedgerNumbered(content);
    EntriesOrdered(LedgerLines(content), i, j, |Lines(content)|);
  }
}