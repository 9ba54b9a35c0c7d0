/** What the trade-off hits of a line are, without the loops that look for them. */
module TradeoffLaws {
  import opened Sentences
  import opened StableSort
  import opened Text
  import opened TradeoffHits

  // ----- which numbers are counts -----

  predicate NumberAt(p: CountPatterns, s: string, i: nat) { p.number(s, i).Some? && p.number(s, i).value.index == i }

  /** What the number pattern promises beyond `Matches`: the search finds the leftmost number, from wherever
      it starts, and no number begins inside another. */
  ghost predicate ReadsLeftmost(p: CountPatterns) {
    && (forall s: string, from: nat, i: nat | from <= i && NumberAt(p, s, i) ::
          p.number(s, from).Some? && p.number(s, from).value.index <= i)
    && (forall s: string, from: nat | p.number(s, from).Some? ::
          p.number(s, p.number(s, from).value.index) == p.number(s, from))
    && (forall s: string, i: nat, j: nat | NumberAt(p, s, i) && NumberAt(p, s, j) && i < j ::
          i + p.number(s, i).value.length <= j)
  }

  /** A number with a severity word at once behind it, from the number to the end of the word. */
  ghost predicate IsCount(p: CountPatterns, s: string, c: CountStart)
    requires Matches(p)
  {
    && NumberAt(p, s, c.index)
    && var m := p.number(s, c.index).value;
    && var word := p.severity(s[c.index + m.length..]);
    && word.Some? && c.end == c.index + m.length + word.value && c.value == m.value
  }

  lemma {:induction false} StartsAreCounts(p: CountPatterns, s: string, from: nat)
    requires Matches(p) && ReadsLeftmost(p) && from <= |s|
    ensures forall c | c in StartsFrom(p, s, from) :: IsCount(p, s, c)
    decreases |s| - from
  {
    var next := NextCount(p, s, from);
    if next.Some? {
      StartsAreCounts(p, s, next.value.1);
      forall c | c in next.value.0
        ensures IsCount(p, s, c)
      {
      }
    }
  }

  /** Counts are found from left to right: a count is found unless it begins inside one that is. */
  lemma {:induction false} CountsAreFound(p: CountPatterns, s: string, from: nat, c: CountStart)
    requires Matches(p) && ReadsLeftmost(p) && from <= c.index && from <= |s| && IsCount(p, s, c)
    ensures c in StartsFrom(p, s, from) || exists d | d in StartsFrom(p, s, from) :: d.index < c.index < d.end
    decreases |s| - from
  {
    var next := NextCount(p, s, from);
    var m := p.number(s, from).value;
    assert NumberAt(p, s, m.index);
    if m.index == c.index {
      assert c in next.value.0;
    } else if c.index < next.value.1 {
      assert next.value.0[0] in StartsFrom(p, s, from);
    } else {
      CountsAreFound(p, s, next.value.1, c);
    }
  }

  // ----- what a count adds up to -----

  function Sum(values: seq<nat>): nat { if values == [] then 0 else values[0] + Sum(values[1..]) }

  /** Continuations one right behind the other, and none behind the last. */
  ghost predicate Chain(p: CountPatterns, s: string, ends: seq<nat>, values: seq<nat>) {
    && |ends| == |values| + 1 && (forall k | 0 <= k < |ends| :: ends[k] <= |s|)
    && (forall k | 0 <= k < |values| ::
          ends[k] <= ends[k + 1] && p.continuation(s[ends[k]..]) == Some((ends[k + 1] - ends[k], values[k])))
    && p.continuation(s[ends[|values|]..]).None?
  }

  lemma ShorterChain(p: CountPatterns, s: string, ends: seq<nat>, values: seq<nat>)
    requires Chain(p, s, ends, values) && values != []
    ensures |ends| == |values| + 1 && ends[0] <= ends[1] <= |s|
    ensures p.continuation(s[ends[0]..]) == Some((ends[1] - ends[0], values[0]))
    ensures Chain(p, s, ends[1..], values[1..])
  {
    var (e, v) := (ends[1..], values[1..]);
    forall k | 0 <= k < |v|
      ensures e[k] <= e[k + 1] && p.continuation(s[e[k]..]) == Some((e[k + 1] - e[k], v[k]))
    {
      assert e[k] == ends[k + 1] && e[k + 1] == ends[k + 2] && v[k] == values[k + 1];
    }
  }

  lemma ChainEnds(p: CountPatterns, s: string, ends: seq<nat>, values: seq<nat>)
    requires Chain(p, s, ends, values)
    ensures |ends| == |values| + 1 && ends[0] <= |s| && (values == [] ==> p.continuation(s[ends[0]..]).None?)
  {
  }

  lemma {:induction false} ContinuedIs(p: CountPatterns, s: string, ends: seq<nat>, values: seq<nat>)
    requires Matches(p) && Chain(p, s, ends, values)
    ensures Continued(p, s, ends[0]) == (ends[|values|], Sum(values))
    decreases |values|
  {
    ChainEnds(p, s, ends, values);
    hide Chain, Matches;
    if values != [] {
      ShorterChain(p, s, ends, values);
      ContinuedIs(p, s, ends[1..], values[1..]);
    }
  }

  lemma {:induction false} ContinuedHas(p: CountPatterns, s: string, end: nat) returns (ends: seq<nat>, values: seq<nat>)
    requires Matches(p) && end <= |s|
    ensures Chain(p, s, ends, values) && ends[0] == end
    decreases |s| - end
  {
    var next := p.continuation(s[end..]);
    if next.None? {
      ends, values := [end], [];
    } else {
      var later, more := ContinuedHas(p, s, end + next.value.0);
      ends, values := [end] + later, [next.value.1] + more;
      LongerChain(p, s, end, next.value.0, next.value.1, later, more);
    }
  }

  lemma LongerChain(p: CountPatterns, s: string, end: nat, width: nat, value: nat, ends: seq<nat>, values: seq<nat>)
    requires end <= |s| && p.continuation(s[end..]) == Some((width, value))
    requires Chain(p, s, ends, values) && ends[0] == end + width
    ensures Chain(p, s, [end] + ends, [value] + values)
  {
    var (e, v) := ([end] + ends, [value] + values);
    forall k | 0 <= k < |v|
      ensures e[k] <= e[k + 1] && p.continuation(s[e[k]..]) == Some((e[k + 1] - e[k], v[k]))
    {
      if k > 0 {
        assert e[k] == ends[k - 1] && e[k + 1] == ends[k] && v[k] == values[k - 1];
      }
    }
    assert e[|v|] == ends[|values|];
  }

  /** The hit a count makes: its text up to the last continuation and its sum, when the sum is not zero and
      an unfixed word stands in the sixty characters behind it. */
  ghost predicate MakesHit(p: CountPatterns, unfixed: string -> bool, s: string, c: CountStart, ends: seq<nat>,
                           values: seq<nat>, h: TradeoffHit) {
    && Chain(p, s, ends, values) && ends[0] == c.end && c.index <= ends[|values|]
    && var end := ends[|values|];
    && c.value + Sum(values) > 0
    && unfixed(s[end..if end + 60 <= |s| then end + 60 else |s|])
    && h == TradeoffHit(s[c.index..end], c.index, Some(c.value + Sum(values)))
  }

  lemma HitMade(p: CountPatterns, unfixed: string -> bool, s: string, c: CountStart, ends: seq<nat>, values: seq<nat>,
                h: TradeoffHit)
    requires Matches(p) && c.index <= c.end <= |s| && Chain(p, s, ends, values) && ends[0] == c.end
    ensures HitOf(p, unfixed, s, c) == Some(h) <==> MakesHit(p, unfixed, s, c, ends, values, h)
  {
    assert |ends| == |values| + 1 && ends[|values|] <= |s|;
    hide Matches, Chain, Continued;
    ContinuedIs(p, s, ends, values);
    ContinuedInside(p, s, c.end);
    assert s[ends[|values|]..] == s[ends[|values|]..|s|];
  }

  lemma {:induction false} HitFor(p: CountPatterns, unfixed: string -> bool, s: string, starts: seq<CountStart>, c: CountStart,
                                  h: TradeoffHit)
    requires Matches(p) && LeftToRight(starts, s, 0) && c in starts && HitOf(p, unfixed, s, c) == Some(h)
    ensures h in HitsOf(p, unfixed, s, starts)
  {
    hide HitOf, Matches;
    if c != starts[|starts| - 1] {
      HitFor(p, unfixed, s, starts[..|starts| - 1], c, h);
    }
  }

  /** The count hits of a sentence are those its counts make. */
  lemma CountHitExactly(p: CountPatterns, unfixed: string -> bool, s: string, h: TradeoffHit)
    requires Matches(p)
    ensures h in CountsOf(p, unfixed, s) <==>
            exists c, ends, values | c in StartsFrom(p, s, 0) :: MakesHit(p, unfixed, s, c, ends, values, h)
  {
    hide Matches, HitOf, HitsOf, StartsFrom, MakesHit;
    var starts := StartsFrom(p, s, 0);
    StartsAreLeftToRight(p, s, 0);
    if h in CountsOf(p, unfixed, s) {
      var c := CountBehind(p, unfixed, s, starts, h);
      var ends, values := ContinuedHas(p, s, c.end);
      HitMade(p, unfixed, s, c, ends, values, h);
    }
    if c, ends, values :| c in starts && MakesHit(p, unfixed, s, c, ends, values, h) {
      MadeByChain(p, unfixed, s, c, ends, values, h);
      HitMade(p, unfixed, s, c, ends, values, h);
      HitFor(p, unfixed, s, starts, c, h);
    }
  }

  lemma MadeByChain(p: CountPatterns, unfixed: string -> bool, s: string, c: CountStart, ends: seq<nat>, values: seq<nat>,
                    h: TradeoffHit)
    requires MakesHit(p, unfixed, s, c, ends, values, h)
    ensures Chain(p, s, ends, values) && ends[0] == c.end
  {
  }

  // ----- the sentences of a line -----

  /** A sentence stands at its offset, holds no break, and ends at a full stop or semicolon with a space behind
      it, the last one at the end of the line. */
  ghost predicate IsSentence(line: string, at: nat, s: string, last: bool) {
    && at + |s| <= |line| && line[at..at + |s|] == s
    && (forall i | 0 <= i && i + 1 < |s| :: !((s[i] == '.' || s[i] == ';') && s[i + 1] == ' '))
    && (if last then at + |s| == |line|
        else at + |s| + 2 <= |line| && (line[at + |s|] == '.' || line[at + |s|] == ';') && line[at + |s| + 1] == ' ')
  }

  lemma {:induction false} SentencesExactly(line: string, k: nat)
    requires k < |SplitSentences(line)|
    ensures var parts := SplitSentences(line);
            IsSentence(line, OffsetOf(parts, k), parts[k], k + 1 == |parts|)
    decreases k
  {
    hide IsSentence, SplitSentences, OffsetOf;
    var parts := SplitSentences(line);
    if k == 0 {
      FirstSentence(line);
    } else {
      var i := RestOf(line, k);
      var below := SplitSentences(line[i..]);
      SentencesExactly(line[i..], k - 1);
      FurtherOn(line, i, OffsetOf(below, k - 1), parts[k], k + 1 == |parts|);
    }
  }

  /** The sentences behind the first are those of the rest of the line. */
  lemma RestOf(line: string, k: nat) returns (i: nat)
    requires 0 < k < |SplitSentences(line)|
    ensures i <= |line| && (var (parts, below) := (SplitSentences(line), SplitSentences(line[i..]));
                            && |parts| == 1 + |below| && parts[k] == below[k - 1]
                            && OffsetOf(parts, k) == i + OffsetOf(below, k - 1))
  {
    hide OffsetOf;
    i := FirstBreak(line, 0) + 2;
    OffsetShift(line[..i - 2], SplitSentences(line[i..]), k);
  }

  lemma FirstSentence(line: string)
    ensures OffsetOf(SplitSentences(line), 0) == 0
    ensures IsSentence(line, 0, SplitSentences(line)[0], |SplitSentences(line)| == 1)
  {
    var i := FirstBreak(line, 0);
    var first := SplitSentences(line)[0];
    assert first == line[..i] == line[0..i];
    forall j | 0 <= j && j + 1 < |first|
      ensures !((first[j] == '.' || first[j] == ';') && first[j + 1] == ' ')
    {
      assert !IsBreak(line, j);
    }
  }

  lemma FurtherOn(line: string, cut: nat, at: nat, s: string, last: bool)
    requires cut <= |line| && IsSentence(line[cut..], at, s, last)
    ensures IsSentence(line, cut + at, s, last)
  {
    assert line[cut..][at..at + |s|] == line[cut + at..cut + at + |s|];
  }

  // ----- the hits of a line -----

  /** `h` is a phrase or count hit of sentence `k`, moved to where the sentence is in the line, and not
      negated in the sentence. */
  ghost predicate Stands(p: CountPatterns, unfixed: string -> bool, phrases: Phrases, negated: (string, nat) -> bool,
                         parts: seq<string>, k: nat, h: TradeoffHit)
    requires Matches(p)
  {
    && k < |parts| && OffsetOf(parts, k) <= h.index
    && var f := h.(index := h.index - OffsetOf(parts, k));
    && (f in phrases(parts[k]) || f in CountsOf(p, unfixed, parts[k]))
    && !negated(parts[k], f.index)
  }

  lemma {:induction false} MovedExactly(found: seq<TradeoffHit>, negated: (string, nat) -> bool, sentence: string,
                                        offset: nat, h: TradeoffHit)
    ensures h in Moved(found, negated, sentence, offset) <==>
            offset <= h.index && h.(index := h.index - offset) in found && !negated(sentence, h.index - offset)
  {
    if found != [] {
      MovedExactly(found[..|found| - 1], negated, sentence, offset, h);
    }
  }

  lemma {:induction false} AllHitsExactly(p: CountPatterns, unfixed: string -> bool, phrases: Phrases,
                                          negated: (string, nat) -> bool, parts: seq<string>, n: nat, h: TradeoffHit)
    requires Matches(p) && n <= |parts|
    ensures h in AllHits(p, unfixed, phrases, negated, parts, n) <==>
            exists k | 0 <= k < n :: Stands(p, unfixed, phrases, negated, parts, k, h)
  {
    hide Matches, Moved, CountsOf, OffsetOf;
    if n > 0 {
      AllHitsExactly(p, unfixed, phrases, negated, parts, n - 1, h);
      var found := phrases(parts[n - 1]) + CountsOf(p, unfixed, parts[n - 1]);
      MovedExactly(found, negated, parts[n - 1], OffsetOf(parts, n - 1), h);
      assert h in Moved(found, negated, parts[n - 1], OffsetOf(parts, n - 1)) <==>
             Stands(p, unfixed, phrases, negated, parts, n - 1, h);
    }
  }

  /** What `findTradeoffHits` keeps of a line. */
  ghost function KeptHits(p: CountPatterns, unfixed: string -> bool, phrases: Phrases, negated: (string, nat) -> bool,
                          line: string): seq<TradeoffHit>
    requires Matches(p)
  {
    WithoutOverlaps(AllHits(p, unfixed, phrases, negated, SplitSentences(line), |SplitSentences(line)|))
  }

  /** Every kept hit stands in some sentence without being negated there, and every hit that does is kept or
      begins inside one that is. */
  lemma KeptExactly(p: CountPatterns, unfixed: string -> bool, phrases: Phrases, negated: (string, nat) -> bool, line: string,
                    h: TradeoffHit)
    requires Matches(p)
    ensures h in KeptHits(p, unfixed, phrases, negated, line) ==>
              exists k | 0 <= k < |SplitSentences(line)| :: Stands(p, unfixed, phrases, negated, SplitSentences(line), k, h)
    ensures (exists k | 0 <= k < |SplitSentences(line)| ::
               Stands(p, unfixed, phrases, negated, SplitSentences(line), k, h)) ==>
              || h in KeptHits(p, unfixed, phrases, negated, line)
              || exists m | m in KeptHits(p, unfixed, phrases, negated, line) :: m.index <= h.index < m.index + |m.text|
  {
    hide Matches, SplitSentences, WithoutOverlaps, AllHits, Stands, Disjoint;
    var parts := SplitSentences(line);
    AllHitsExactly(p, unfixed, phrases, negated, parts, |parts|, h);
    OverlapsResolved(AllHits(p, unfixed, phrases, negated, parts, |parts|));
  }
}
