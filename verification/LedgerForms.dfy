/** The line forms the ledger parser looks for, written out character by character. */
module LedgerForms {
  import opened DeferredWorkLedger
  import opened Text

  predicate IsSeparating(c: char) { c == '.' || c == '-' }

  predicate IsLetterOrDigit(c: char) { '0' <= c <= '9' || 'A' <= c <= 'Z' || 'a' <= c <= 'z' }

  /** Blanks or tabs, at least one. */
  predicate IsGap(s: string) { s != "" && forall k | 0 <= k < |s| :: s[k] == ' ' || s[k] == '\t' }

  lemma GapSpan(gap: string, rest: string)
    requires IsGap(gap) && (rest == "" || (rest[0] != ' ' && rest[0] != '\t'))
    ensures Span(gap + rest, IsBlank) == |gap|
  {
    SpanOf(gap, rest, IsBlank);
  }

  lemma LeadingSplit(text: string, c: char)
    ensures var n := Leading(text, c);
            text == Run(c, n) + text[n..] && (text[n..] == "" || text[n..][0] != c)
  {
  }

  // ----- headings of any kind -----

  /** One to six `#`, and then the end, a blank or a tab. */
  predicate IsHeadingLine(text: string, level: nat, rest: string) {
    text == Run('#', level) + rest && 1 <= level <= 6 && (rest == "" || rest[0] == ' ' || rest[0] == '\t')
  }

  ghost predicate IsHeadingText(text: string) { exists level: nat, rest: string :: IsHeadingLine(text, level, rest) }

  lemma HeadingTextExactly(text: string, number: nat)
    ensures ToDwHeading(text, number).Some? || IsAnyHeading(text) <==> IsHeadingText(text)
  {
    hide Run, IdToken, NormalizeDwId, StartsWith;
    LeadingSplit(text, '#');
    if ToDwHeading(text, number).Some? || IsAnyHeading(text) {
      var level := Leading(text, '#');
      assert Span(text[level..], IsBlank) > 0 ==> IsBlank(text[level..][..Span(text[level..], IsBlank)][0]);
      assert IsHeadingLine(text, level, text[level..]);
    }
    if level: nat, rest: string :| IsHeadingLine(text, level, rest) {
      LeadingRun('#', level, rest);
      assert rest == text[level..];
    }
  }

  // ----- flat items -----

  /** `-` or `*`, a gap, `source_spec:`, and anything. */
  predicate IsFlatLine(text: string, mark: char, gap: string, rest: string) {
    text == [mark] + (gap + ("source_spec:" + rest)) && (mark == '-' || mark == '*') && IsGap(gap)
  }

  ghost predicate IsFlatItem(text: string) {
    exists mark: char, gap: string, rest: string :: IsFlatLine(text, mark, gap, rest)
  }

  lemma FlatLineIsBullet(mark: char, gap: string, rest: string)
    requires (mark == '-' || mark == '*') && IsGap(gap)
    ensures IsSourceSpecBullet([mark] + (gap + ("source_spec:" + rest)))
  {
    hide Span;
    var item := "source_spec:" + rest;
    var text := [mark] + (gap + item);
    GapSpan(gap, item);
    assert text[1..] == gap + item && text[1 + |gap|..] == item;
    assert item[..12] == "source_spec:";
  }

  lemma BulletForm(text: string) returns (gap: string, rest: string)
    requires IsSourceSpecBullet(text)
    ensures text != "" && IsFlatLine(text, text[0], gap, rest)
  {
    hide Span;
    var blanks := Span(text[1..], IsBlank);
    gap, rest := text[1..][..blanks], text[1 + blanks..][12..];
    assert text[1 + blanks..] == "source_spec:" + rest;
    assert text[1..] == gap + text[1 + blanks..];
  }

  lemma FlatItemExactly(text: string)
    ensures IsSourceSpecBullet(text) <==> IsFlatItem(text)
  {
    hide IsSourceSpecBullet;
    if IsSourceSpecBullet(text) {
      var gap, rest := BulletForm(text);
    }
    if mark: char, gap: string, rest: string :| IsFlatLine(text, mark, gap, rest) {
      FlatLineIsBullet(mark, gap, rest);
    }
  }

  // ----- fence markers -----

  /** Three or more backticks or tildes after at most three spaces, read as they are written. */
  lemma MarkerExactly(line: string, fence: Fence)
    ensures Marker(line) == Some(fence) <==>
            exists indent: nat, info: string ::
              line == FenceLine(indent, fence.mark, fence.length, info) && IsFenceLine(indent, fence.mark, fence.length, info)
  {
    hide Leading, FenceLine;
    if Marker(line) == Some(fence) {
      var indent := Leading(line, ' ');
      LeadingSplit(line, ' ');
      LeadingSplit(line[indent..], fence.mark);
      var info := line[indent..][fence.length..];
      assert line == FenceLine(indent, fence.mark, fence.length, info) by {
        assert line == Run(' ', indent) + (Run(fence.mark, fence.length) + info);
        FenceLineIs(indent, fence.mark, fence.length, info);
      }
    }
    if indent: nat, info: string :|
        line == FenceLine(indent, fence.mark, fence.length, info) && IsFenceLine(indent, fence.mark, fence.length, info) {
      FenceLineMarker(indent, fence.mark, fence.length, info);
    }
  }

  lemma FenceLineIs(indent: nat, mark: char, length: nat, info: string)
    ensures FenceLine(indent, mark, length, info) == Run(' ', indent) + (Run(mark, length) + info)
  {
    Reassociate(Run(' ', indent), Run(mark, length), info);
  }

  // ----- DW headings -----

  /** An id run and what stands behind it: a letter or digit, then letters, digits, `.` and `-`, as far as
      they go. */
  predicate IsIdRun(run: string, tail: string) {
    && run != "" && IsLetterOrDigit(run[0])
    && (forall k | 0 <= k < |run| :: IsLetterOrDigit(run[k]) || IsSeparating(run[k]))
    && (tail == "" || !(IsLetterOrDigit(tail[0]) || IsSeparating(tail[0])))
  }

  function HeadingText(level: nat, gap: string, run: string, tail: string): string {
    Run('#', level) + (gap + ("DW-" + (run + tail)))
  }

  lemma HeadingTextPrefix(level: nat, gap: string, rest: string)
    requires 1 <= level <= 6 && IsGap(gap)
    ensures DwPrefix(Run('#', level) + (gap + ("DW-" + rest))) == Some((level, rest))
  {
    hide Leading, Span, Run;
    var named := "DW-" + rest;
    var text := Run('#', level) + (gap + named);
    assert named[0] == 'D' && named[..3] == "DW-" && named[3..] == rest;
    assert (gap + named)[0] == gap[0];
    LeadingRun('#', level, gap + named);
    assert !IsBlank(named[0]);
    GapSpan(gap, named);
    assert text[level..] == gap + named && text[level + |gap|..] == named;
  }

  /** What a DW heading is read as. */
  lemma HeadingIsRead(level: nat, gap: string, run: string, tail: string, number: nat)
    requires 1 <= level <= 6 && IsGap(gap) && IsIdRun(run, tail)
    ensures ToDwHeading(HeadingText(level, gap, run, tail), number) ==
            Some(DwHeading("DW-" + IdToken(run), NormalizeDwId("DW-" + IdToken(run)), number, level))
  {
    hide DwPrefix, Span, IdToken, NormalizeDwId, Run;
    HeadingTextPrefix(level, gap, run + tail);
    SpanOf(run, tail, IsIdChar);
    assert (run + tail)[..|run|] == run;
  }

  lemma NamedBy(named: string)
    requires StartsWith(named, DW)
    ensures |named| >= 3 && named == "DW-" + named[|DW|..]
  {
  }

  lemma PrefixParts(text: string) returns (level: nat, blanks: nat)
    requires DwPrefix(text).Some?
    ensures level == Leading(text, '#') && blanks == Span(text[level..], IsBlank) > 0 && 1 <= level <= 6
    ensures level + blanks <= |text| && StartsWith(text[level + blanks..], DW)
    ensures DwPrefix(text).value == (level, text[level + blanks..][|DW|..])
  {
    hide Span, Leading;
    level := Leading(text, '#');
    blanks := Span(text[level..], IsBlank);
  }

  lemma PrefixForm(text: string) returns (gap: string)
    requires DwPrefix(text).Some?
    ensures var (level, rest) := DwPrefix(text).value;
            1 <= level <= 6 && IsGap(gap) && text == Run('#', level) + (gap + ("DW-" + rest))
  {
    hide Run, Span, Leading, DwPrefix, StartsWith;
    var level, blanks := PrefixParts(text);
    var behind := text[level..];
    LeadingSplit(text, '#');
    gap := behind[..blanks];
    Dropped(text, level, blanks);
    NamedBy(behind[blanks..]);
    assert behind == gap + behind[blanks..];
  }

  /** Nothing else is a DW heading. */
  lemma HeadingForm(text: string, number: nat) returns (level: nat, gap: string, run: string, tail: string)
    requires ToDwHeading(text, number).Some?
    ensures 1 <= level <= 6 && IsGap(gap) && IsIdRun(run, tail)
    ensures text == HeadingText(level, gap, run, tail)
  {
    hide IdToken, NormalizeDwId, Run, DwPrefix, Span;
    gap := PrefixForm(text);
    var rest := DwPrefix(text).value.1;
    level := DwPrefix(text).value.0;
    var n := Span(rest, IsIdChar);
    run, tail := rest[..n], rest[n..];
    assert rest == run + tail;
  }

  // ----- ids -----

  /** An id without doubled or trailing separators. */
  predicate IsTidyId(id: string) {
    && (forall k | 0 < k < |id| :: !IsSeparating(id[k - 1]) || !IsSeparating(id[k]))
    && (id == "" || !IsSeparating(id[|id| - 1]))
  }

  /** Nothing, one last separator, or two separators and anything. */
  predicate EndsId(rest: string) {
    rest == "" || (IsSeparating(rest[0]) && (|rest| == 1 || IsSeparating(rest[1])))
  }

  lemma {:induction false} BeforeDoubledOf(run: string, n: nat)
    requires n <= |run| && (n == |run| || (n + 1 < |run| && IsSeparator(run[n]) && IsSeparator(run[n + 1])))
    requires forall k | 0 <= k < n && k + 1 < |run| :: !IsSeparator(run[k]) || !IsSeparator(run[k + 1])
    ensures BeforeDoubled(run) == n
  {
    if n > 0 {
      BeforeDoubledOf(run[1..], n - 1);
    }
  }

  /** The id in a run is the tidy part it starts with, up to what ends an id. */
  lemma IdTokenOf(id: string, rest: string)
    requires IsTidyId(id) && EndsId(rest)
    ensures IdToken(id + rest) == id
  {
    var run := id + rest;
    if |rest| <= 1 {
      BeforeDoubledOf(run, |run|);
      assert run[..|run|] == run && run[..|id|] == id;
    } else {
      BeforeDoubledOf(run, |id|);
      assert run[..|id|] == id;
    }
  }

  lemma {:induction false} BeforeDoubledIs(run: string)
    ensures var n := BeforeDoubled(run);
            && (forall k | 0 <= k < n && k + 1 < |run| :: !IsSeparator(run[k]) || !IsSeparator(run[k + 1]))
            && (n == |run| || (n + 1 < |run| && IsSeparator(run[n]) && IsSeparator(run[n + 1])))
  {
    if run != "" && !(|run| >= 2 && IsSeparator(run[0]) && IsSeparator(run[1])) {
      BeforeDoubledIs(run[1..]);
    }
  }

  /** Every run is cut that way. */
  lemma IdTokenForm(run: string)
    ensures IdToken(run) <= run && IsTidyId(IdToken(run)) && EndsId(run[|IdToken(run)|..])
  {
    BeforeDoubledIs(run);
    var n := BeforeDoubled(run);
    assert run[..n] <= run;
  }

  // ----- normalized ids -----

  predicate IsDigits(s: string) { s != "" && forall k | 0 <= k < |s| :: '0' <= s[k] <= '9' }

  /** What stands between `a` and `b` begins and ends a segment. */
  predicate IsAround(a: string, b: string) {
    (a == "" || IsSeparating(a[|a| - 1])) && (b == "" || IsSeparating(b[0]))
  }

  lemma {:induction false} ZeroCountsNothing(digits: string)
    requires IsDigits(digits)
    ensures All("0" + digits, IsDigit) && Number("0" + digits) == Number(digits)
  {
    var (d, front) := ("0" + digits, digits[..|digits| - 1]);
    assert d[..|d| - 1] == "0" + front;
    if front == "" {
      assert d[..1] == "0" && "0"[..0] == "";
      assert Number("0") == 0;
    } else {
      ZeroCountsNothing(front);
    }
  }

  lemma {:induction false} SpanStops(s: string, ok: char -> bool, k: nat)
    requires k < |s| && !ok(s[k])
    ensures Span(s, ok) <= k
  {
    if k > 0 {
      SpanStops(s[1..], ok, k - 1);
    }
  }

  lemma FirstSegment(segment: string, b: string)
    requires All(segment, NotSeparator) && (b == "" || IsSeparating(b[0]))
    ensures NormalizeSegments(segment + b) ==
            NormalizeSegment(segment) + if b == "" then "" else [b[0]] + NormalizeSegments(b[1..])
  {
    hide NormalizeSegment;
    SpanOf(segment, b, NotSeparator);
    if b == "" {
      assert segment + b == segment;
    } else {
      var id := segment + b;
      assert id[..|segment|] == segment && id[|segment|] == b[0] && id[|segment| + 1..] == b[1..];
      assert NormalizeSegments(id) == NormalizeSegment(segment) + [b[0]] + NormalizeSegments(b[1..]);
    }
  }

  /** Everything up to a separator is normalized by itself. */
  lemma NormalizedBehind(a: string, x: string)
    requires a != "" && IsSeparating(a[|a| - 1])
    ensures var n := Span(a, NotSeparator);
            && n < |a| && (n + 1 == |a| || IsSeparating(a[n + 1..][|a| - n - 2]))
            && NormalizeSegments(a + x) == NormalizeSegment(a[..n]) + [a[n]] + NormalizeSegments(a[n + 1..] + x)
  {
    hide Span, NormalizeSegments, NormalizeSegment;
    var n := Span(a, NotSeparator);
    SpanStops(a, NotSeparator, |a| - 1);
    var rest := a[n..] + x;
    assert a + x == a[..n] + rest && rest[0] == a[n] && rest[1..] == a[n + 1..] + x;
    FirstSegment(a[..n], rest);
  }

  lemma ZeroSegment(digits: string)
    requires IsDigits(digits)
    ensures NormalizeSegment("0" + digits) == NormalizeSegment(digits)
    ensures All("0" + digits, NotSeparator) && All(digits, NotSeparator)
  {
    hide Number, Decimal;
    ZeroCountsNothing(digits);
  }

  lemma {:induction false} ZeroGoes(a: string, digits: string, b: string)
    requires IsAround(a, b) && IsDigits(digits)
    ensures NormalizeSegments(a + ("0" + digits + b)) == NormalizeSegments(a + (digits + b))
    decreases a
  {
    hide NormalizeSegments, NormalizeSegment, Span;
    if a == "" {
      assert a + ("0" + digits + b) == "0" + digits + b && a + (digits + b) == digits + b;
      ZeroSegment(digits);
      FirstSegment("0" + digits, b);
      FirstSegment(digits, b);
    } else {
      NormalizedBehind(a, "0" + digits + b);
      NormalizedBehind(a, digits + b);
      ZeroGoes(a[Span(a, NotSeparator) + 1..], digits, b);
    }
  }

  /** A zero in front of the digits of a segment makes no difference. */
  lemma LeadingZeroGoes(a: string, digits: string, b: string)
    requires IsAround(a, b) && IsDigits(digits)
    ensures NormalizeDwId(a + ("0" + digits + b)) == NormalizeDwId(a + (digits + b))
  {
    hide NormalizeSegments;
    ZeroGoes(ToLower(a), digits, ToLower(b));
    assert ToLower(a + ("0" + digits + b)) == ToLower(a) + ("0" + digits + ToLower(b));
    assert ToLower(a + (digits + b)) == ToLower(a) + (digits + ToLower(b));
  }

  /** Nor does the case of a letter. */
  lemma CaseGoes(x: string, y: string)
    requires |x| == |y|
    requires forall k | 0 <= k < |x| :: x[k] == y[k] || ('A' <= x[k] <= 'Z' && y[k] as int == x[k] as int + 32)
    ensures NormalizeDwId(x) == NormalizeDwId(y)
  {
    hide NormalizeSegments;
    assert ToLower(x) == ToLower(y);
  }

  /** No capital letter, and no segment of two digits or more that begins with a zero. */
  ghost predicate IsNormal(id: string) {
    && (forall k | 0 <= k < |id| :: !('A' <= id[k] <= 'Z'))
    && (forall i, j | 0 <= i && i + 1 < j <= |id| && id[i] == '0' && IsDigits(id[i..j]) ::
          !IsAround(id[..i], id[j..]))
  }

  lemma OneMoreDigit(n: nat, d: nat)
    requires n > 0 && d < 10
    ensures Decimal(10 * n + d) == Decimal(n) + [DigitChar(d)]
  {
    assert (10 * n + d) / 10 == n && (10 * n + d) % 10 == d;
  }

  lemma {:induction false} DecimalOfNumber(s: string)
    requires IsDigits(s) && (|s| == 1 || s[0] != '0')
    ensures Decimal(Number(s)) == s && (s[0] != '0' ==> Number(s) > 0)
  {
    var (front, last) := (s[..|s| - 1], s[|s| - 1]);
    assert s == front + [last] && DigitChar(DigitValue(last)) == last;
    if front != "" {
      DecimalOfNumber(front);
      OneMoreDigit(Number(front), DigitValue(last));
    }
  }

  lemma RestIsNormal(id: string, n: nat)
    requires IsNormal(id) && n < |id| && IsSeparating(id[n])
    ensures IsNormal(id[n + 1..])
  {
    var rest := id[n + 1..];
    forall i, j | 0 <= i && i + 1 < j <= |rest| && rest[i] == '0' && IsDigits(rest[i..j])
      ensures !IsAround(rest[..i], rest[j..])
    {
      assert id[n + 1 + i..n + 1 + j] == rest[i..j] && id[n + 1 + j..] == rest[j..];
      assert !IsAround(id[..n + 1 + i], id[n + 1 + j..]);
    }
  }

  lemma FirstIsNormal(id: string, n: nat)
    requires IsNormal(id) && n <= |id| && (n == |id| || IsSeparating(id[n]))
    ensures NormalizeSegment(id[..n]) == id[..n]
  {
    hide Decimal, Number;
    var segment := id[..n];
    if segment != "" && All(segment, IsDigit) {
      assert id[0..n] == segment && id[..0] == "";
      assert IsDigits(segment) && IsAround(id[..0], id[n..]);
      DecimalOfNumber(segment);
    }
  }

  lemma {:induction false} NormalStays(id: string)
    requires IsNormal(id)
    ensures NormalizeSegments(id) == id
    decreases id
  {
    hide IsNormal, NormalizeSegment;
    var n := Span(id, NotSeparator);
    FirstIsNormal(id, n);
    if n == |id| {
      assert id[..n] == id;
    } else {
      RestIsNormal(id, n);
      NormalStays(id[n + 1..]);
    }
  }

  /** And nothing else does: an id in normal form stays as it is. */
  lemma NormalIdStays(id: string)
    requires IsNormal(id)
    ensures NormalizeDwId(id) == id
  {
    LowerIsFixed(id);
    NormalStays(id);
  }
}
