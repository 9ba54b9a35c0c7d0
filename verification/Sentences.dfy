/** Cutting a line into sentences, with the offset of each. */
module Sentences {
  import opened Text

  /** `. ` or `; ` at offset `i`. */
  predicate IsBreak(line: string, i: nat) {
    i + 2 <= |line| && (line[i] == '.' || line[i] == ';') && line[i + 1] == ' '
  }

  function FirstBreak(line: string, from: nat): (i: nat)
    requires from <= |line|
    ensures from <= i <= |line|
    ensures forall k | from <= k < i :: !IsBreak(line, k)
    ensures i < |line| ==> IsBreak(line, i)
    decreases |line| - from
  {
    if from == |line| || IsBreak(line, from) then from else FirstBreak(line, from + 1)
  }

  /** The line split at its breaks. */
  function SplitSentences(line: string): (parts: seq<string>)
    ensures |parts| > 0
  {
    var i := FirstBreak(line, 0);
    if i == |line| then [line] else [line[..i]] + SplitSentences(line[i + 2..])
  }

  /** Where sentence `k` starts: all sentences before it, and two characters after each. */
  function OffsetOf(parts: seq<string>, k: nat): nat
    requires k <= |parts|
  {
    if k == 0 then 0 else OffsetOf(parts, k - 1) + |parts[k - 1]| + 2
  }

  lemma {:induction false} OffsetShift(first: string, rest: seq<string>, k: nat)
    requires 1 <= k <= |rest| + 1
    ensures OffsetOf([first] + rest, k) == |first| + 2 + OffsetOf(rest, k - 1)
  {
    if k > 1 {
      OffsetShift(first, rest, k - 1);
      assert ([first] + rest)[k - 1] == rest[k - 2];
    } else {
      assert OffsetOf([first] + rest, 0) == 0;
    }
  }

  /** Sentence `k` stands in the line at its offset. */
  lemma {:induction false} SentenceInLine(line: string, k: nat) returns (before: string, after: string)
    requires k < |SplitSentences(line)|
    ensures line == before + SplitSentences(line)[k] + after && |before| == OffsetOf(SplitSentences(line), k)
    decreases k
  {
    var i := FirstBreak(line, 0);
    if k == 0 {
      before, after := "", line[i..];
    } else {
      var (first, rest) := (line[..i], SplitSentences(line[i + 2..]));
      before, after := SentenceInLine(line[i + 2..], k - 1);
      OffsetShift(first, rest, k);
      Prepend(line, i + 2, before, rest[k - 1], after);
      before := line[..i + 2] + before;
    }
  }

  lemma Prepend(line: string, n: nat, before: string, s: string, after: string)
    requires n <= |line| && line[n..] == before + s + after
    ensures line == (line[..n] + before) + s + after
  {
    assert line == line[..n] + line[n..];
  }

  /** What stands in a sentence stands in the line, the sentence's offset further on. */
  lemma StandsInLine(before: string, sentence: string, after: string, i: nat, text: string)
    requires i + |text| <= |sentence| && sentence[i..i + |text|] == text
    ensures var line := before + sentence + after;
            |before| + i + |text| <= |line| && line[|before| + i..|before| + i + |text|] == text
  {
    var line := before + sentence + after;
    assert line[|before|..|before| + |sentence|] == sentence;
    assert line[|before| + i..|before| + i + |text|] == line[|before|..|before| + |sentence|][i..i + |text|];
  }
}
