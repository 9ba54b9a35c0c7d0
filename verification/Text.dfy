/** Strings as the scripts use them: runs of characters, `split`/`join` on one character,
    `trim`, and decimal numerals. */
module Text {

  datatype Option<+T> = None | Some(value: T)

  predicate IsDigit(c: char) { '0' <= c <= '9' }

  predicate IsAlnum(c: char) { IsDigit(c) || 'A' <= c <= 'Z' || 'a' <= c <= 'z' }

  /** The class `[ \t]`. */
  predicate IsBlank(c: char) { c == ' ' || c == '\t' }

  /** JavaScript white space: the class `\s`, and what `trim` removes. */
  predicate IsSpace(c: char) {
    || c == ' ' || '\t' <= c <= '\r' || c == '\U{00A0}' || c == '\U{1680}'
    || '\U{2000}' <= c <= '\U{200A}' || c == '\U{2028}' || c == '\U{2029}'
    || c == '\U{202F}' || c == '\U{205F}' || c == '\U{3000}' || c == '\U{FEFF}'
  }

  predicate NotSpace(c: char) { !IsSpace(c) }

  predicate All(s: string, ok: char -> bool) {
    forall k | 0 <= k < |s| :: ok(s[k])
  }

  predicate StartsWith(s: string, prefix: string) {
    |prefix| <= |s| && s[..|prefix|] == prefix
  }

  lemma PrefixStep(text: string, run: string)
    requires text != "" && run != ""
    ensures StartsWith(text, run) <==> text[0] == run[0] && StartsWith(text[1..], run[1..])
  {
    if |run| <= |text| {
      assert text[..|run|] == [text[0]] + text[1..][..|run| - 1];
      assert run == [run[0]] + run[1..];
    }
  }

  predicate EndsWith(s: string, suffix: string) {
    |suffix| <= |s| && s[|s| - |suffix|..] == suffix
  }

  /** Length of the longest prefix of `s` made of `ok` characters. */
  function Span(s: string, ok: char -> bool): (n: nat)
    ensures n <= |s| && All(s[..n], ok)
    ensures n < |s| ==> !ok(s[n])
  {
    if s == "" || !ok(s[0]) then 0 else
      var n := Span(s[1..], ok);
      assert s[..1 + n] == [s[0]] + s[1..][..n];
      1 + n
  }

  /** How many times `c` is repeated at the start of `s`. */
  function Leading(s: string, c: char): (n: nat)
    ensures n <= |s| && forall k | 0 <= k < n :: s[k] == c
    ensures n < |s| ==> s[n] != c
  {
    if s == "" || s[0] != c then 0 else 1 + Leading(s[1..], c)
  }

  lemma {:induction false} SpanOf(a: string, b: string, ok: char -> bool)
    requires All(a, ok) && (b == "" || !ok(b[0]))
    ensures Span(a + b, ok) == |a|
  {
    if a == "" {
      assert a + b == b;
    } else {
      assert (a + b)[1..] == a[1..] + b;
      SpanOf(a[1..], b, ok);
    }
  }

  // ----- trim -----

  function TrimEnd(s: string): (t: string)
    ensures t <= s && All(s[|t|..], IsSpace)
    ensures t == "" || !IsSpace(t[|t| - 1])
  {
    if s != "" && IsSpace(s[|s| - 1]) then TrimEnd(s[..|s| - 1]) else s
  }

  function Trim(s: string): string {
    var t := TrimEnd(s);
    t[Span(t, IsSpace)..]
  }

  predicate IsBlankText(s: string) { All(s, IsSpace) }

  lemma TrimEmpty(s: string)
    ensures Trim(s) == "" <==> IsBlankText(s)
  {
    var t := TrimEnd(s);
    assert s == t + s[|t|..];
    assert t[..|t|] == t;
    assert t != "" ==> t[|t| - 1] == s[|t| - 1];
  }

  // ----- split and join -----

  function Split(s: string, sep: char): (parts: seq<string>)
    ensures |parts| > 0
    ensures forall k | 0 <= k < |parts| :: sep !in parts[k]
  {
    if s == "" then [""]
    else if s[0] == sep then [""] + Split(s[1..], sep)
    else
      var rest := Split(s[1..], sep);
      [[s[0]] + rest[0]] + rest[1..]
  }

  function Join(parts: seq<string>, sep: char): string
    requires |parts| > 0
  {
    if |parts| == 1 then parts[0] else parts[0] + [sep] + Join(parts[1..], sep)
  }

  lemma {:induction false} SplitConcat(a: string, b: string, sep: char)
    ensures Split(a + [sep] + b, sep) == Split(a, sep) + Split(b, sep)
  {
    var s := a + [sep] + b;
    if a == "" {
      assert s[1..] == b;
    } else {
      assert s[1..] == a[1..] + [sep] + b;
      SplitConcat(a[1..], b, sep);
    }
  }

  lemma {:induction false} SplitOne(s: string, sep: char)
    requires sep !in s
    ensures Split(s, sep) == [s]
  {
    if s != "" {
      SplitOne(s[1..], sep);
      assert [s[0]] + s[1..] == s;
    }
  }

  lemma {:induction false} SplitJoin(parts: seq<string>, sep: char)
    requires |parts| > 0 && forall k | 0 <= k < |parts| :: sep !in parts[k]
    ensures Split(Join(parts, sep), sep) == parts
  {
    SplitOne(parts[0], sep);
    if |parts| > 1 {
      SplitJoin(parts[1..], sep);
      SplitConcat(parts[0], Join(parts[1..], sep), sep);
    }
  }

  lemma {:induction false} JoinSplit(s: string, sep: char)
    ensures Join(Split(s, sep), sep) == s
  {
    if s != "" {
      JoinSplit(s[1..], sep);
      var rest := Split(s[1..], sep);
      if s[0] == sep {
        assert ([""] + rest)[1..] == rest;
      } else {
        var parts := [[s[0]] + rest[0]] + rest[1..];
        assert parts[1..] == rest[1..];
        if |rest| > 1 {
          assert Join(parts, sep) == [s[0]] + (rest[0] + [sep] + Join(rest[1..], sep));
        }
      }
    }
  }

  lemma {:induction false} JoinConcat(a: seq<string>, b: seq<string>, sep: char)
    requires |a| > 0 && |b| > 0
    ensures Join(a + b, sep) == Join(a, sep) + [sep] + Join(b, sep)
  {
    if |a| == 1 {
      assert (a + b)[1..] == b;
    } else {
      assert (a + b)[1..] == a[1..] + b;
      JoinConcat(a[1..], b, sep);
    }
  }

  // ----- decimal numerals -----

  function DigitChar(d: nat): (c: char)
    requires d < 10
    ensures IsDigit(c)
  {
    ('0' as int + d) as char
  }

  function DigitValue(c: char): (d: nat)
    requires IsDigit(c)
    ensures d < 10
  {
    c as int - '0' as int
  }

  function Decimal(n: nat): (s: string)
    ensures s != "" && All(s, IsDigit)
  {
    (if n < 10 then "" else Decimal(n / 10)) + [DigitChar(n % 10)]
  }

  function Number(s: string): nat
    requires All(s, IsDigit)
  {
    if s == "" then 0 else 10 * Number(s[..|s| - 1]) + DigitValue(s[|s| - 1])
  }

  lemma {:induction false} NumberOfDecimal(n: nat)
    ensures Number(Decimal(n)) == n
  {
    var s := Decimal(n);
    if n < 10 {
      assert s[..|s| - 1] == "";
    } else {
      NumberOfDecimal(n / 10);
      assert s[..|s| - 1] == Decimal(n / 10);
    }
  }

  /** Numerals of `k` digits stay below `Power10(k)`. */
  function Power10(k: nat): (r: nat)
    ensures r > 0
  {
    if k == 0 then 1 else 10 * Power10(k - 1)
  }

  lemma {:induction false} NumberBound(s: string)
    requires All(s, IsDigit)
    ensures Number(s) < Power10(|s|)
  {
    if s != "" {
      NumberBound(s[..|s| - 1]);
    }
  }

  /** A numeral at least `Power10(k)` has more than `k` digits. */
  lemma DecimalLength(n: nat, k: nat)
    requires n >= Power10(k)
    ensures |Decimal(n)| > k
  {
    NumberOfDecimal(n);
    NumberBound(Decimal(n));
    Power10Monotone(if |Decimal(n)| <= k then |Decimal(n)| else k, k);
  }

  lemma {:induction false} Power10Monotone(a: nat, b: nat)
    requires a <= b
    ensures Power10(a) <= Power10(b)
    decreases b
  {
    if a < b {
      Power10Monotone(a, b - 1);
    }
  }

  // ----- concatenations -----

  lemma Reassociate<T>(a: seq<T>, b: seq<T>, c: seq<T>)
    ensures (a + b) + c == a + (b + c)
  {
  }

  lemma Dropped(s: string, i: nat, j: nat)
    requires i + j <= |s|
    ensures s[i..][j..] == s[i + j..]
  {
  }

  lemma SplitAtEnd<T>(a: seq<T>, b: seq<T>, c: seq<T>, d: seq<T>)
    requires a + b == c + d && |b| == |d|
    ensures a == c && b == d
  {
    assert a == (a + b)[..|a|] && c == (c + d)[..|c|];
    assert b == (a + b)[|a|..] && d == (c + d)[|c|..];
  }

  lemma SplitAtStart<T>(a: seq<T>, b: seq<T>, c: seq<T>, d: seq<T>)
    requires a + b == c + d && |a| == |c|
    ensures a == c && b == d
  {
    SplitAtEnd(a, b, c, d);
  }

  /** What is before the last separator may hold separators, what is after it may not. */
  lemma LastSeparator(a: string, d: string, b: string, e: string, sep: char)
    requires sep !in d && sep !in e && a + [sep] + d == b + [sep] + e
    ensures a == b && d == e
  {
    var s, t := a + [sep] + d, b + [sep] + e;
    assert s[|a|] == sep && t[|b|] == sep;
    assert forall k | |a| < k < |s| :: s[k] == d[k - |a| - 1];
    assert forall k | |b| < k < |t| :: t[k] == e[k - |b| - 1];
    SplitAtEnd(a + [sep], d, b + [sep], e);
    SplitAtEnd(a, [sep], b, [sep]);
  }
}
