/** Which changed files a trigger's path candidate names. */
module TriggerGlobs {
  import opened Covering
  import opened Text

  /** Within a segment, `*` stands for any run of characters, every other character for itself. */
  predicate FitsChar(c: char, run: string) { c == '*' || run == [c] }

  ghost predicate SegmentFits(pattern: string, text: string) { Covers(pattern, text, FitsChar) }

  /** Over segments, `**` stands for any run of segments, every other item for one segment. */
  ghost predicate FitsSegments(item: string, run: seq<string>) {
    item == "**" || (|run| == 1 && SegmentFits(item, run[0]))
  }

  ghost predicate PathFits(pattern: seq<string>, path: seq<string>) { Covers(pattern, path, FitsSegments) }

  // ----- one segment -----

  lemma LiteralFirst(pattern: string, text: string)
    requires pattern != "" && pattern[0] != '*'
    ensures SegmentFits(pattern, text) <==> text != "" && text[0] == pattern[0] && SegmentFits(pattern[1..], text[1..])
  {
    CoversFirst(pattern, text, FitsChar);
    if text != "" && text[0] == pattern[0] && SegmentFits(pattern[1..], text[1..]) {
      assert text[..1] == [pattern[0]];
      assert Takes(pattern, text, FitsChar, 1);
    }
    if SegmentFits(pattern, text) {
      var n :| 0 <= n <= |text| && Takes(pattern, text, FitsChar, n);
      assert text[..n][0] == pattern[0];
    }
  }

  lemma StarFirst(pattern: string, text: string)
    requires pattern != "" && pattern[0] == '*'
    ensures SegmentFits(pattern, text) <==> exists n | 0 <= n <= |text| :: SegmentFits(pattern[1..], text[n..])
  {
    CoversFirst(pattern, text, FitsChar);
    forall n | 0 <= n <= |text|
      ensures Takes(pattern, text, FitsChar, n) <==> SegmentFits(pattern[1..], text[n..])
    {
    }
  }

  /** A star takes one more character or stops here. */
  lemma StarStep(pattern: string, text: string)
    requires pattern != "" && pattern[0] == '*'
    ensures SegmentFits(pattern, text) <==>
            SegmentFits(pattern[1..], text) || (text != "" && SegmentFits(pattern, text[1..]))
  {
    hide SegmentFits;
    StarFirst(pattern, text);
    assert text[0..] == text;
    if text != "" {
      StarFirst(pattern, text[1..]);
      forall n | 1 <= n <= |text|
        ensures text[1..][n - 1..] == text[n..]
      {
      }
      if SegmentFits(pattern, text) && !SegmentFits(pattern[1..], text) {
        var n :| 0 <= n <= |text| && SegmentFits(pattern[1..], text[n..]);
        assert SegmentFits(pattern[1..], text[1..][n - 1..]);
      }
      if SegmentFits(pattern, text[1..]) {
        var m :| 0 <= m <= |text[1..]| && SegmentFits(pattern[1..], text[1..][m..]);
        assert text[1..][m..] == text[m + 1..];
      }
    }
  }

  /** A star in front still fits when the text grows in front. */
  lemma {:induction false} StarAbsorbs(pattern: string, text: string, n: nat)
    requires pattern != "" && pattern[0] == '*' && n <= |text| && SegmentFits(pattern, text[n..])
    ensures SegmentFits(pattern, text)
    decreases n
  {
    hide SegmentFits;
    if n == 0 {
      assert text[0..] == text;
    } else {
      assert text[1..][n - 1..] == text[n..];
      StarAbsorbs(pattern, text[1..], n - 1);
      StarStep(pattern, text);
    }
  }

  /** A star-free prefix is the text's own. */
  lemma {:induction false} LiteralRun(run: string, rest: string, text: string)
    requires '*' !in run
    ensures SegmentFits(run + rest, text) <==> StartsWith(text, run) && SegmentFits(rest, text[|run|..])
    decreases run
  {
    hide SegmentFits;
    if run == "" {
      assert run + rest == rest && text[0..] == text;
    } else {
      var pattern := run + rest;
      assert pattern[1..] == run[1..] + rest && pattern[0] == run[0];
      LiteralFirst(pattern, text);
      if text != "" {
        LiteralRun(run[1..], rest, text[1..]);
        assert StartsWith(text, run) <==> text[0] == run[0] && StartsWith(text[1..], run[1..]) by {
          PrefixStep(text, run);
        }
        if |text| >= |run| {
          assert text[1..][|run| - 1..] == text[|run|..];
        }
      }
    }
  }

  // ----- the two-pointer matcher -----

  /** Where the matcher stands: before the first star, what is left decides; after a star at `starP`,
      the star is trying a run that ends at `starT`, and the literals since have matched. */
  ghost predicate Trying(pattern: string, text: string, p: nat, t: nat, starP: int, starT: nat) {
    && p <= |pattern| && t <= |text|
    && (if starP < 0 then SegmentFits(pattern, text) <==> SegmentFits(pattern[p..], text[t..])
        else
          && starP < p && pattern[starP] == '*' && starT <= t
          && '*' !in pattern[starP + 1..p] && text[starT..t] == pattern[starP + 1..p]
          && (SegmentFits(pattern, text) <==> SegmentFits(pattern[starP..], text[starT..])))
  }

  /** The star's run ends at `starT + n`: the literals since must follow, and then the rest. */
  lemma OneTry(pattern: string, text: string, p: nat, starP: nat, starT: nat, n: nat)
    requires starP < p <= |pattern| && '*' !in pattern[starP + 1..p] && starT + n <= |text|
    ensures var length := p - starP - 1;
            SegmentFits(pattern[starP..][1..], text[starT..][n..]) <==>
            && starT + n + length <= |text| && text[starT + n..starT + n + length] == pattern[starP + 1..p]
            && SegmentFits(pattern[p..], text[starT + n + length..])
  {
    hide SegmentFits;
    var (run, left) := (pattern[starP + 1..p], text[starT..][n..]);
    assert pattern[starP..][1..] == run + pattern[p..];
    LiteralRun(run, pattern[p..], left);
    assert left == text[starT + n..];
    if |run| <= |left| {
      assert left[..|run|] == text[starT + n..starT + n + |run|];
      assert left[|run|..] == text[starT + n + |run|..];
    }
  }

  lemma SeeStar(pattern: string, text: string, p: nat, t: nat, starP: int, starT: nat)
    requires Trying(pattern, text, p, t, starP, starT) && p < |pattern| && pattern[p] == '*'
    ensures Trying(pattern, text, p + 1, t, p, t)
  {
    hide SegmentFits;
    assert pattern[p + 1..p + 1] == "" && text[t..t] == "";
    if starP >= 0 {
      var (whole, left) := (pattern[starP..], text[starT..]);
      StarFirst(whole, left);
      if SegmentFits(whole, left) {
        var n :| 0 <= n <= |left| && SegmentFits(whole[1..], left[n..]);
        OneTry(pattern, text, p, starP, starT, n);
        assert text[t..][n..] == text[t + n..];
        StarAbsorbs(pattern[p..], text[t..], n);
      }
      if SegmentFits(pattern[p..], text[t..]) {
        OneTry(pattern, text, p, starP, starT, 0);
      }
    }
  }

  lemma SeeLiteral(pattern: string, text: string, p: nat, t: nat, starP: int, starT: nat)
    requires Trying(pattern, text, p, t, starP, starT)
    requires p < |pattern| && t < |text| && pattern[p] != '*' && pattern[p] == text[t]
    ensures Trying(pattern, text, p + 1, t + 1, starP, starT)
  {
    hide SegmentFits;
    if starP < 0 {
      LiteralFirst(pattern[p..], text[t..]);
      assert pattern[p..][1..] == pattern[p + 1..] && text[t..][1..] == text[t + 1..];
    } else {
      assert pattern[starP + 1..p + 1] == pattern[starP + 1..p] + [pattern[p]];
      assert text[starT..t + 1] == text[starT..t] + [text[t]];
    }
  }

  lemma Stuck(pattern: string, text: string, p: nat, t: nat)
    requires p <= |pattern| && t < |text|
    requires p < |pattern| ==> pattern[p] != '*' && pattern[p] != text[t]
    ensures !SegmentFits(pattern[p..], text[t..])
  {
    if p == |pattern| {
      assert pattern[p..] == [];
      CoversNothing(text[t..], FitsChar);
    } else {
      LiteralFirst(pattern[p..], text[t..]);
    }
  }

  lemma Retry(pattern: string, text: string, p: nat, t: nat, starP: nat, starT: nat)
    requires Trying(pattern, text, p, t, starP, starT) && t < |text|
    requires p < |pattern| ==> pattern[p] != '*' && pattern[p] != text[t]
    ensures Trying(pattern, text, starP + 1, starT + 1, starP, starT + 1)
  {
    hide SegmentFits;
    var (whole, left) := (pattern[starP..], text[starT..]);
    Stuck(pattern, text, p, t);
    OneTry(pattern, text, p, starP, starT, 0);
    StarStep(whole, left);
    assert left[0..] == left && left[1..] == text[starT + 1..];
    assert pattern[starP + 1..starP + 1] == "" && text[starT + 1..starT + 1] == "";
  }

  lemma {:induction false} OnlyStars(s: string)
    ensures SegmentFits(s, "") <==> forall k | 0 <= k < |s| :: s[k] == '*'
  {
    if s == "" {
      CoversNothing("", FitsChar);
    } else {
      OnlyStars(s[1..]);
      if s[0] == '*' {
        StarStep(s, "");
      } else {
        LiteralFirst(s, "");
      }
      assert forall k | 1 <= k < |s| :: s[k] == s[1..][k - 1];
    }
  }

  lemma TextUsedUp(pattern: string, text: string, p: nat, starP: int, starT: nat)
    requires Trying(pattern, text, p, |text|, starP, starT)
    ensures SegmentFits(pattern, text) <==> forall k | p <= k < |pattern| :: pattern[k] == '*'
  {
    hide SegmentFits;
    OnlyStars(pattern[p..]);
    assert text[|text|..] == "";
    assert forall k | 0 <= k < |pattern[p..]| :: pattern[p..][k] == pattern[p + k];
    if starP >= 0 {
      var (whole, left) := (pattern[starP..], text[starT..]);
      StarFirst(whole, left);
      if SegmentFits(whole, left) {
        var n :| 0 <= n <= |left| && SegmentFits(whole[1..], left[n..]);
        OneTry(pattern, text, p, starP, starT, n);
      }
      if SegmentFits(pattern[p..], "") {
        OneTry(pattern, text, p, starP, starT, 0);
      }
    }
  }

  /** `segmentMatches`: true exactly when each `*` can stand for some run of characters. Each round moves
      to a later star, or lets the star take one more character, or reads one more literal. */
  method SegmentMatches(pattern: string, text: string) returns (r: bool)
    ensures r <==> SegmentFits(pattern, text)
  {
    hide SegmentFits, Trying;
    var p, t, starP, starT := 0, 0, -1, 0;
    AtStart(pattern, text);
    while t < |text|
      invariant Trying(pattern, text, p, t, starP, starT)
      invariant p <= |pattern| && t <= |text| && -1 <= starP < |pattern| && starP < p && starT <= t
      decreases |pattern| - starP, |text| - starT, |text| - t
    {
      if p < |pattern| && pattern[p] == '*' {
        SeeStar(pattern, text, p, t, starP, starT);
        starP, starT := p, t;
        p := p + 1;
      } else if p < |pattern| && pattern[p] == text[t] {
        SeeLiteral(pattern, text, p, t, starP, starT);
        p, t := p + 1, t + 1;
      } else if starP >= 0 {
        Retry(pattern, text, p, t, starP, starT);
        starT := starT + 1;
        t := starT;
        p := starP + 1;
      } else {
        NoStarToRetry(pattern, text, p, t, starT);
        return false;
      }
    }
    TextUsedUp(pattern, text, p, starP, starT);
    while p < |pattern| && pattern[p] == '*'
      invariant p <= |pattern|
      invariant SegmentFits(pattern, text) <==> forall k | p <= k < |pattern| :: pattern[k] == '*'
    {
      p := p + 1;
    }
    return p == |pattern|;
  }

  lemma AtStart(pattern: string, text: string)
    ensures Trying(pattern, text, 0, 0, -1, 0)
  {
    assert pattern[0..] == pattern && text[0..] == text;
  }

  lemma NoStarToRetry(pattern: string, text: string, p: nat, t: nat, starT: nat)
    requires Trying(pattern, text, p, t, -1, starT) && t < |text|
    requires p < |pattern| ==> pattern[p] != '*' && pattern[p] != text[t]
    ensures !SegmentFits(pattern, text)
  {
    hide SegmentFits;
    Stuck(pattern, text, p, t);
  }

  // ----- segments -----

  /** `globSegmentsMatch`: a `**` tries every number of segments, shortest first. */
  method GlobSegmentsMatch(pattern: seq<string>, path: seq<string>) returns (r: bool)
    ensures r <==> PathFits(pattern, path)
    decreases pattern
  {
    hide SegmentFits, Covers;
    if pattern == [] {
      CoversNothing(path, FitsSegments);
      return path == [];
    }
    CoversFirst(pattern, path, FitsSegments);
    if pattern[0] == "**" {
      for skip := 0 to |path| + 1
        invariant forall n | 0 <= n < skip :: !Takes(pattern, path, FitsSegments, n)
      {
        var fits := GlobSegmentsMatch(pattern[1..], path[skip..]);
        if fits {
          assert Takes(pattern, path, FitsSegments, skip);
          return true;
        }
      }
      return false;
    }
    OneSegment(pattern, path);
    if path == [] {
      return false;
    }
    r := SegmentMatches(pattern[0], path[0]);
    if r {
      r := GlobSegmentsMatch(pattern[1..], path[1..]);
    }
  }

  lemma OneSegment(pattern: seq<string>, path: seq<string>)
    requires pattern != [] && pattern[0] != "**"
    ensures PathFits(pattern, path) <==>
            path != [] && SegmentFits(pattern[0], path[0]) && PathFits(pattern[1..], path[1..])
  {
    hide SegmentFits, Covers;
    CoversFirst(pattern, path, FitsSegments);
    if path != [] {
      assert path[..1] == [path[0]];
      assert Takes(pattern, path, FitsSegments, 1) <==>
             SegmentFits(pattern[0], path[0]) && PathFits(pattern[1..], path[1..]);
    }
    forall n | 0 <= n <= |path| && Takes(pattern, path, FitsSegments, n)
      ensures n == 1
    {
    }
  }

  ghost predicate GlobFits(candidate: string, file: string) { PathFits(Split(candidate, '/'), Split(file, '/')) }

  /** The part after the last dot, unless the dot is missing or comes first. */
  function ExtensionOf(segment: string): Option<string> {
    var dot := LastDot(segment);
    if dot.Some? && dot.value > 0 then Some(segment[dot.value + 1..]) else None
  }

  function LastDot(segment: string): (dot: Option<nat>)
    ensures dot.Some? ==> dot.value < |segment| && segment[dot.value] == '.' && '.' !in segment[dot.value + 1..]
    ensures dot.None? ==> '.' !in segment
  {
    if segment == "" then None
    else if segment[|segment| - 1] == '.' then Some(|segment| - 1)
    else LastDot(segment[..|segment| - 1])
  }

  function LastSegment(candidate: string): string {
    var segments := Split(candidate, '/');
    segments[|segments| - 1]
  }

  /** Does the candidate name the file? */
  ghost predicate Names(candidate: string, file: string) {
    if '*' in candidate then GlobFits(candidate, file)
    else if EndsWith(candidate, "/") then StartsWith(file, candidate)
    else if |Split(candidate, '/')| == 1 || ExtensionOf(LastSegment(candidate)).Some? then file == candidate
    else file == candidate || StartsWith(file, candidate + "/")
  }

  method CandidateMatches(candidate: string, file: string) returns (r: bool)
    ensures r <==> Names(candidate, file)
  {
    hide Split, PathFits, StartsWith;
    if '*' in candidate {
      r := GlobSegmentsMatch(Split(candidate, '/'), Split(file, '/'));
      return;
    }
    if EndsWith(candidate, "/") {
      return StartsWith(file, candidate);
    }
    var segments := Split(candidate, '/');
    if |segments| == 1 {
      return file == candidate;
    }
    var last := segments[|segments| - 1];
    if ExtensionOf(last).Some? {
      return file == candidate;
    }
    return file == candidate || StartsWith(file, candidate + "/");
  }

  // ----- a directory candidate and its glob -----

  lemma {:induction false} LiteralSegments(segments: seq<string>, path: seq<string>)
    requires forall k | 0 <= k < |segments| :: '*' !in segments[k]
    ensures PathFits(segments + ["**"], path) <==> segments <= path
  {
    hide PathFits, SegmentFits;
    var pattern := segments + ["**"];
    if segments == [] {
      AnyPath(path);
      assert pattern == ["**"];
    } else {
      assert pattern[0] == segments[0] && pattern[1..] == segments[1..] + ["**"];
      assert segments[0] != "**" by {
        assert "**"[0] == '*';
      }
      OneSegment(pattern, path);
      if path != [] {
        LiteralSegments(segments[1..], path[1..]);
        LiteralSegment(segments[0], path[0]);
        assert segments == [segments[0]] + segments[1..] && path == [path[0]] + path[1..];
      }
    }
  }

  lemma AnyPath(path: seq<string>)
    ensures PathFits(["**"], path)
  {
    CoversFirst(["**"], path, FitsSegments);
    CoversNothing(path[|path|..], FitsSegments);
    assert ["**"][1..] == [];
    assert Takes(["**"], path, FitsSegments, |path|);
  }

  lemma LiteralSegment(segment: string, text: string)
    requires '*' !in segment
    ensures SegmentFits(segment, text) <==> text == segment
  {
    hide SegmentFits;
    LiteralRun(segment, "", text);
    assert segment + "" == segment;
    if |segment| <= |text| {
      CoversRest(text[|segment|..]);
      assert text == text[..|segment|] + text[|segment|..];
    }
  }

  lemma CoversRest(text: string)
    ensures SegmentFits("", text) <==> text == ""
  {
    CoversNothing(text, FitsChar);
  }

  lemma {:induction false} SplitChars(s: string, c: char)
    requires c !in s
    ensures forall k | 0 <= k < |Split(s, '/')| :: c !in Split(s, '/')[k]
  {
    if s != "" {
      SplitChars(s[1..], c);
    }
  }

  lemma SplitPrefix(c: string, f: string)
    ensures Split(c, '/') <= Split(f, '/') <==> f == c || StartsWith(f, c + "/")
  {
    hide Split, Join;
    var (a, b) := (Split(c, '/'), Split(f, '/'));
    if StartsWith(f, c + "/") {
      var rest := f[|c| + 1..];
      assert f == c + ['/'] + rest;
      SplitConcat(c, rest, '/');
    }
    if a <= b {
      JoinSplit(c, '/');
      JoinSplit(f, '/');
      var rest := b[|a|..];
      assert b == a + rest;
      if rest != [] {
        JoinConcat(a, rest, '/');
        assert f[..|c| + 1] == c + "/";
      } else {
        assert b == a;
      }
    }
  }

  /** The double-star form of `c` names `c` and everything below it. */
  lemma GlobBelow(c: string, f: string)
    requires '*' !in c
    ensures Names(c + "/**", f) <==> f == c || StartsWith(f, c + "/")
  {
    hide Split, PathFits, StartsWith;
    assert (c + "/**")[|c| + 1] == '*';
    assert c + "/**" == c + ['/'] + "**";
    SplitConcat(c, "**", '/');
    SplitOne("**", '/');
    SplitChars(c, '*');
    LiteralSegments(Split(c, '/'), Split(f, '/'));
    SplitPrefix(c, f);
  }

  /** What the plain form of a directory candidate looks like. */
  predicate IsDirectoryLike(c: string) {
    !EndsWith(c, "/") && |Split(c, '/')| > 1 && ExtensionOf(LastSegment(c)).None?
  }

  /** Exactly when a star-free candidate names the same files as its double-star form: it has several segments,
      no trailing slash, and no extension on the last one. */
  lemma PlainIsItsGlob(c: string)
    requires '*' !in c
    ensures (forall f :: Names(c, f) <==> Names(c + "/**", f)) <==> IsDirectoryLike(c)
  {
    hide Split, GlobFits, ExtensionOf, LastSegment;
    forall f
      ensures Names(c + "/**", f) <==> f == c || StartsWith(f, c + "/")
    {
      GlobBelow(c, f);
    }
    if !IsDirectoryLike(c) {
      var f := if EndsWith(c, "/") then c + "x" else c + "/";
      if EndsWith(c, "/") {
        assert f[..|c|] == c;
        assert f[|c|] == 'x';
        assert |f| == |c| + 1 && f[..|c| + 1] == f;
        assert (c + "/")[|c|] == '/';
        assert Names(c, f) && !Names(c + "/**", f);
      } else {
        assert f[..|c| + 1] == c + "/";
        assert !Names(c, f) && Names(c + "/**", f);
      }
    }
  }

  /** With a trailing slash the candidate names the same files but not the directory's own path. */
  lemma SlashDropsItself(c: string, f: string)
    requires '*' !in c && IsDirectoryLike(c)
    ensures Names(c + "/", f) <==> Names(c, f) && f != c
  {
    hide Split, GlobFits, ExtensionOf, LastSegment;
    assert '*' !in c + "/";
    assert (c + "/")[|c|..] == "/";
  }

  /** The candidate's last part, behind a slash, has no dot but perhaps its first character. */
  predicate EndsPlainly(c: string, above: string, last: string) {
    c == above + "/" + last && '/' !in last && forall k | 0 < k < |last| :: last[k] != '.'
  }

  lemma DirectoryForm(c: string) returns (above: string, last: string)
    requires IsDirectoryLike(c)
    ensures EndsPlainly(c, above, last)
  {
    hide Split, Join, EndsWith;
    var segments := Split(c, '/');
    var front := segments[..|segments| - 1];
    above, last := Join(front, '/'), LastSegment(c);
    JoinSplit(c, '/');
    JoinConcat(front, [last], '/');
    assert segments == front + [last];
    JoinOne(last);
    var dot := LastDot(last);
    if dot.Some? {
      assert forall k | 0 < k < |last| :: last[k] == last[1..][k - 1];
    }
  }

  lemma JoinOne(s: string)
    ensures Join([s], '/') == s
  {
  }

  lemma DirectoryOf(c: string, above: string, last: string)
    requires EndsPlainly(c, above, last) && !EndsWith(c, "/")
    ensures IsDirectoryLike(c)
  {
    hide Split, EndsWith;
    SplitConcat(above, last, '/');
    SplitOne(last, '/');
    assert c == above + ['/'] + last && LastSegment(c) == last;
    assert LastDot(last).Some? ==> LastDot(last).value == 0;
  }

  /** A star-free candidate names itself, and what is below it when it ends in a slash, or when it has several
      parts and the last one has no dot but perhaps its first character. */
  lemma PlainNamesExactly(c: string, f: string)
    requires '*' !in c
    ensures Names(c, f) <==>
            if EndsWith(c, "/") then c <= f
            else f == c || ((exists above, last :: EndsPlainly(c, above, last)) && c + "/" <= f)
  {
    hide Split, GlobFits, EndsPlainly, EndsWith;
    if !EndsWith(c, "/") {
      if IsDirectoryLike(c) {
        var above, last := DirectoryForm(c);
      }
      if above, last :| EndsPlainly(c, above, last) {
        DirectoryOf(c, above, last);
      }
    }
  }
}
