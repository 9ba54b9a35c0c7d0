/** Trade-off phrases and severity counts in a line, with their offsets. */
module TradeoffHits {
  import opened Sentences
  import opened StableSort
  import opened Text

  /** `findings` is the sum of a severity count, none for a phrase. */
  datatype TradeoffHit = TradeoffHit(text: string, index: nat, findings: Option<nat>)

  predicate IsAt(h: TradeoffHit, s: string) { h.index + |h.text| <= |s| && s[h.index..h.index + |h.text|] == h.text }

  // ----- severity counts -----

  /** A numeral found from some offset on: the number, its word break and the white space after it. */
  datatype NumberMatch = NumberMatch(index: nat, length: nat, value: nat)

  /** The patterns, as the matches they yield: the next number at or after an offset, the length of a
      severity word at the start of a text, a continuation at the start of a text with its number. */
  datatype CountPatterns = CountPatterns(
    number: (string, nat) -> Option<NumberMatch>,
    severity: string -> Option<nat>,
    continuation: string -> Option<(nat, nat)>)

  /** What a pattern engine promises: matches lie in the text, move forward and are not empty. */
  ghost predicate Matches(p: CountPatterns) {
    && (forall s: string, from: nat :: p.number(s, from).Some? ==>
          var m := p.number(s, from).value; from <= m.index && 0 < m.length && m.index + m.length <= |s|)
    && (forall s: string :: p.severity(s).Some? ==> 0 < p.severity(s).value <= |s|)
    && (forall s: string :: p.continuation(s).Some? ==> 0 < p.continuation(s).value.0 <= |s|)
  }

  datatype CountStart = CountStart(index: nat, end: nat, value: nat)

  /** The next number from `from` on, kept if a severity word follows it at once, and where the search
      goes on: behind the count, or behind the number that was none. */
  function NextCount(p: CountPatterns, sentence: string, from: nat): (r: Option<(seq<CountStart>, nat)>)
    requires Matches(p) && from <= |sentence|
    ensures r.Some? ==>
              && from < r.value.1 <= |sentence| && |r.value.0| <= 1
              && (r.value.0 != [] ==> from <= r.value.0[0].index < r.value.0[0].end == r.value.1)
  {
    var number := p.number(sentence, from);
    if number.None? then None
    else
      var afterNumber := number.value.index + number.value.length;
      var severity := p.severity(sentence[afterNumber..]);
      if severity.None? then Some(([], afterNumber))
      else
        var end := afterNumber + severity.value;
        Some(([CountStart(number.value.index, end, number.value.value)], end))
  }

  function StartsFrom(p: CountPatterns, sentence: string, from: nat): seq<CountStart>
    requires Matches(p) && from <= |sentence|
    decreases |sentence| - from
  {
    var next := NextCount(p, sentence, from);
    if next.None? then [] else next.value.0 + StartsFrom(p, sentence, next.value.1)
  }

  /** Starts lie in the sentence from `from` on, left to right, none reaching into the next. */
  ghost predicate LeftToRight(starts: seq<CountStart>, sentence: string, from: nat) {
    && (forall k | 0 <= k < |starts| :: from <= starts[k].index < starts[k].end <= |sentence|)
    && (forall j, k | 0 <= j < k < |starts| :: starts[j].end <= starts[k].index)
  }

  lemma {:induction false} StartsAreLeftToRight(p: CountPatterns, sentence: string, from: nat)
    requires Matches(p) && from <= |sentence|
    ensures LeftToRight(StartsFrom(p, sentence, from), sentence, from)
    decreases |sentence| - from
  {
    hide NextCount, Matches;
    var next := NextCount(p, sentence, from);
    if next.Some? {
      hide LeftToRight;
      StartsAreLeftToRight(p, sentence, next.value.1);
      InFront(next.value.0, StartsFrom(p, sentence, next.value.1), sentence, from, next.value.1);
    }
  }

  lemma InFront(first: seq<CountStart>, rest: seq<CountStart>, sentence: string, from: nat, next: nat)
    requires LeftToRight(rest, sentence, next) && from <= next <= |sentence| && |first| <= 1
    requires first != [] ==> from <= first[0].index < first[0].end == next
    ensures LeftToRight(first + rest, sentence, from)
  {
  }

  method CountStarts(p: CountPatterns, sentence: string) returns (starts: seq<CountStart>)
    requires Matches(p)
    ensures starts == StartsFrom(p, sentence, 0)
  {
    hide StartsFrom;
    starts := [];
    var lastIndex := 0;
    var number := p.number(sentence, lastIndex);
    while number.Some?
      invariant lastIndex <= |sentence| && number == p.number(sentence, lastIndex)
      invariant starts + StartsFrom(p, sentence, lastIndex) == StartsFrom(p, sentence, 0)
      decreases |sentence| - lastIndex
    {
      StartsStep(p, sentence, lastIndex);
      ghost var next := NextCount(p, sentence, lastIndex).value;
      Reassociate(starts, next.0, StartsFrom(p, sentence, next.1));
      var m := number.value;
      var afterNumber := m.index + m.length;
      var severity := p.severity(sentence[afterNumber..]);
      if severity.None? {
        assert starts + next.0 == starts;
        lastIndex := afterNumber;
      } else {
        var end := afterNumber + severity.value;
        starts := starts + [CountStart(m.index, end, m.value)];
        lastIndex := end;
      }
      number := p.number(sentence, lastIndex);
    }
    StartsStep(p, sentence, lastIndex);
  }

  lemma StartsStep(p: CountPatterns, sentence: string, from: nat)
    requires Matches(p) && from <= |sentence|
    ensures var next := NextCount(p, sentence, from);
            StartsFrom(p, sentence, from) ==
            if next.None? then [] else next.value.0 + StartsFrom(p, sentence, next.value.1)
  {
  }

  /** The continuations from `end` on: where they stop and what they add up to. */
  function Continued(p: CountPatterns, sentence: string, end: nat): (nat, nat)
    requires Matches(p) && end <= |sentence|
    decreases |sentence| - end
  {
    var next := p.continuation(sentence[end..]);
    if next.None? then (end, 0)
    else
      var (last, sum) := Continued(p, sentence, end + next.value.0);
      (last, next.value.1 + sum)
  }

  /** `extendCount`: the phrase stops where no continuation follows, and sums its numbers. */
  method ExtendCount(p: CountPatterns, sentence: string, start: CountStart) returns (end: nat, sum: nat)
    requires Matches(p) && start.end <= |sentence|
    ensures end == Continued(p, sentence, start.end).0 && sum == start.value + Continued(p, sentence, start.end).1
    ensures start.end <= end <= |sentence| && p.continuation(sentence[end..]).None?
  {
    end, sum := start.end, start.value;
    while p.continuation(sentence[end..]).Some?
      invariant start.end <= end <= |sentence|
      invariant Continued(p, sentence, end).0 == Continued(p, sentence, start.end).0
      invariant sum + Continued(p, sentence, end).1 == start.value + Continued(p, sentence, start.end).1
      decreases |sentence| - end
    {
      var next := p.continuation(sentence[end..]).value;
      sum := sum + next.1;
      end := end + next.0;
    }
  }

  const COUNT_WINDOW := 60

  function Window(sentence: string, end: nat): string
    requires end <= |sentence|
  {
    if end + COUNT_WINDOW <= |sentence| then sentence[end..end + COUNT_WINDOW] else sentence[end..]
  }

  /** A count hits when it counts something and an unfixed word follows it closely. */
  function HitOf(p: CountPatterns, unfixed: string -> bool, sentence: string, start: CountStart): Option<TradeoffHit>
    requires Matches(p) && start.index <= start.end <= |sentence|
  {
    var (end, more) := Continued(p, sentence, start.end);
    ContinuedInside(p, sentence, start.end);
    if start.value + more > 0 && unfixed(Window(sentence, end))
    then Some(TradeoffHit(sentence[start.index..end], start.index, Some(start.value + more))) else None
  }

  lemma {:induction false} ContinuedInside(p: CountPatterns, sentence: string, end: nat)
    requires Matches(p) && end <= |sentence|
    ensures end <= Continued(p, sentence, end).0 <= |sentence|
    decreases |sentence| - end
  {
    var next := p.continuation(sentence[end..]);
    if next.Some? {
      ContinuedInside(p, sentence, end + next.value.0);
    }
  }

  function HitsOf(p: CountPatterns, unfixed: string -> bool, sentence: string, starts: seq<CountStart>): seq<TradeoffHit>
    requires Matches(p) && LeftToRight(starts, sentence, 0)
  {
    if starts == [] then []
    else
      var hit := HitOf(p, unfixed, sentence, starts[|starts| - 1]);
      HitsOf(p, unfixed, sentence, starts[..|starts| - 1]) + if hit.Some? then [hit.value] else []
  }

  lemma {:induction false} CountsAreAt(p: CountPatterns, unfixed: string -> bool, sentence: string, starts: seq<CountStart>)
    requires Matches(p) && LeftToRight(starts, sentence, 0)
    ensures forall h | h in HitsOf(p, unfixed, sentence, starts) :: IsAt(h, sentence)
  {
    if starts != [] {
      CountsAreAt(p, unfixed, sentence, starts[..|starts| - 1]);
      ContinuedInside(p, sentence, starts[|starts| - 1].end);
    }
  }

  function CountsOf(p: CountPatterns, unfixed: string -> bool, sentence: string): seq<TradeoffHit>
    requires Matches(p)
  {
    StartsAreLeftToRight(p, sentence, 0);
    HitsOf(p, unfixed, sentence, StartsFrom(p, sentence, 0))
  }

  method CountHits(p: CountPatterns, unfixed: string -> bool, sentence: string) returns (hits: seq<TradeoffHit>)
    requires Matches(p)
    ensures hits == CountsOf(p, unfixed, sentence)
  {
    hide HitsOf, StartsFrom, Matches, Continued;
    var starts := CountStarts(p, sentence);
    StartsAreLeftToRight(p, sentence, 0);
    hits := [];
    NoStarts(p, unfixed, sentence, starts);
    for k := 0 to |starts|
      invariant hits == HitsOf(p, unfixed, sentence, starts[..k])
    {
      OneMoreStart(p, unfixed, sentence, starts, k);
      var end, sum := ExtendCount(p, sentence, starts[k]);
      if sum > 0 && unfixed(Window(sentence, end)) {
        hits := hits + [TradeoffHit(sentence[starts[k].index..end], starts[k].index, Some(sum))];
      }
    }
    assert starts[..|starts|] == starts;
  }

  lemma OneMoreStart(p: CountPatterns, unfixed: string -> bool, sentence: string, starts: seq<CountStart>, k: nat)
    requires Matches(p) && LeftToRight(starts, sentence, 0) && k < |starts|
    ensures LeftToRight(starts[..k], sentence, 0) && LeftToRight(starts[..k + 1], sentence, 0)
    ensures var hit := HitOf(p, unfixed, sentence, starts[k]);
            HitsOf(p, unfixed, sentence, starts[..k + 1]) ==
            HitsOf(p, unfixed, sentence, starts[..k]) + if hit.Some? then [hit.value] else []
  {
    hide Matches, HitOf;
    assert starts[..k + 1][..k] == starts[..k];
  }

  lemma NoStarts(p: CountPatterns, unfixed: string -> bool, sentence: string, starts: seq<CountStart>)
    requires Matches(p)
    ensures HitsOf(p, unfixed, sentence, starts[..0]) == []
  {
    hide Matches;
  }

  // ----- overlaps -----

  /** The comparator: by offset, and by falling length where offsets are equal. */
  predicate Earlier(a: TradeoffHit, b: TradeoffHit) {
    a.index < b.index || (a.index == b.index && |a.text| > |b.text|)
  }

  lemma EarlierIsStrictWeak()
    ensures StrictWeak(Earlier)
  {
  }

  function EndOf(h: TradeoffHit): nat { h.index + |h.text| }

  /** The hits kept of a sorted list, the last one kept ending at `end`. */
  function Kept(sorted: seq<TradeoffHit>, end: nat): seq<TradeoffHit> {
    if sorted == [] then []
    else if sorted[0].index < end then Kept(sorted[1..], end)
    else [sorted[0]] + Kept(sorted[1..], EndOf(sorted[0]))
  }

  /** One after the other, from `end` on. */
  ghost predicate Disjoint(kept: seq<TradeoffHit>, end: nat) {
    && (forall k | 0 <= k < |kept| :: end <= kept[k].index)
    && (forall j, k | 0 <= j < k < |kept| :: EndOf(kept[j]) <= kept[k].index)
  }

  lemma {:induction false} KeptAreDisjoint(sorted: seq<TradeoffHit>, end: nat)
    ensures Disjoint(Kept(sorted, end), end)
    ensures forall h | h in Kept(sorted, end) :: h in sorted
  {
    if sorted != [] {
      if sorted[0].index < end {
        KeptAreDisjoint(sorted[1..], end);
      } else {
        KeptAreDisjoint(sorted[1..], EndOf(sorted[0]));
      }
    }
  }

  predicate StartsInside(h: TradeoffHit, k: TradeoffHit) { k.index <= h.index < EndOf(k) }

  /** A hit that is not kept starts inside one that is, or before `end`. */
  lemma {:induction false} DroppedStartInside(sorted: seq<TradeoffHit>, end: nat, h: TradeoffHit)
    requires IsSorted(sorted, Earlier) && h in sorted && h !in Kept(sorted, end)
    ensures h.index < end || exists k | k in Kept(sorted, end) :: StartsInside(h, k)
  {
    var (first, rest) := (sorted[0], sorted[1..]);
    if first.index < end {
      if h != first {
        DroppedStartInside(rest, end, h);
      }
    } else {
      assert h in rest;
      DroppedStartInside(rest, EndOf(first), h);
      assert first in Kept(sorted, end);
      if h.index < EndOf(first) {
        var i :| 1 <= i < |sorted| && sorted[i] == h;
        assert StartsInside(h, first);
      }
    }
  }

  function WithoutOverlaps(hits: seq<TradeoffHit>): seq<TradeoffHit> { Kept(Sort(hits, Earlier), 0) }

  /** What is kept: hits of the line, disjoint and in line order; what is dropped starts inside one of
      them. */
  lemma OverlapsResolved(hits: seq<TradeoffHit>)
    ensures Disjoint(WithoutOverlaps(hits), 0)
    ensures forall h | h in WithoutOverlaps(hits) :: h in hits
    ensures forall h | h in hits && h !in WithoutOverlaps(hits) ::
              exists k | k in WithoutOverlaps(hits) :: StartsInside(h, k)
  {
    hide Sort, Kept, StrictWeak, Disjoint;
    EarlierIsStrictWeak();
    SortSorts(hits, Earlier);
    SortHas(hits, Earlier);
    KeptAreDisjoint(Sort(hits, Earlier), 0);
    forall h | h in hits && h !in WithoutOverlaps(hits)
      ensures exists k | k in WithoutOverlaps(hits) :: StartsInside(h, k)
    {
      DroppedStartInside(Sort(hits, Earlier), 0, h);
    }
  }

  /** Hits of one line over the same stretch are the same hit. */
  ghost predicate OnePerStretch(hits: seq<TradeoffHit>) {
    forall a, b | a in hits && b in hits && a.index == b.index && |a.text| == |b.text| :: a == b
  }

  lemma SameHitsSameKept(a: seq<TradeoffHit>, b: seq<TradeoffHit>)
    requires multiset(a) == multiset(b) && OnePerStretch(a)
    ensures WithoutOverlaps(a) == WithoutOverlaps(b)
  {
    hide Sort, Kept, StrictWeak;
    EarlierIsStrictWeak();
    SortSorts(a, Earlier);
    SortSorts(b, Earlier);
    SortKeepsItems(a, Earlier);
    SortKeepsItems(b, Earlier);
    SortHas(a, Earlier);
    SortedAlike(Sort(a, Earlier), Sort(b, Earlier), Earlier);
  }

  /** The loop of `withoutOverlaps`. */
  method DropOverlaps(hits: seq<TradeoffHit>) returns (kept: seq<TradeoffHit>)
    ensures kept == WithoutOverlaps(hits)
  {
    var sorted := Sort(hits, Earlier);
    kept := [];
    var end := 0;
    for k := 0 to |sorted|
      invariant kept + Kept(sorted[k..], end) == WithoutOverlaps(hits)
    {
      assert sorted[k..][1..] == sorted[k + 1..];
      if sorted[k].index < end {
        continue;
      }
      kept := kept + [sorted[k]];
      end := EndOf(sorted[k]);
    }
  }

  // ----- the whole line -----

  /** The hits that are not negated, moved to their offsets in the line. */
  function Moved(found: seq<TradeoffHit>, negated: (string, nat) -> bool, sentence: string, offset: nat): seq<TradeoffHit> {
    if found == [] then []
    else
      var f := found[|found| - 1];
      Moved(found[..|found| - 1], negated, sentence, offset)
      + if negated(sentence, f.index) then [] else [f.(index := f.index + offset)]
  }

  type Phrases = string -> seq<TradeoffHit>

  function AllHits(p: CountPatterns, unfixed: string -> bool, phrases: Phrases, negated: (string, nat) -> bool,
                   parts: seq<string>, k: nat): seq<TradeoffHit>
    requires Matches(p) && k <= |parts|
  {
    if k == 0 then []
    else
      AllHits(p, unfixed, phrases, negated, parts, k - 1)
      + Moved(phrases(parts[k - 1]) + CountsOf(p, unfixed, parts[k - 1]), negated, parts[k - 1], OffsetOf(parts, k - 1))
  }

  lemma {:induction false} MovedAreAt(found: seq<TradeoffHit>, negated: (string, nat) -> bool, before: string,
                                      sentence: string, after: string)
    requires forall h | h in found :: IsAt(h, sentence)
    ensures forall h | h in Moved(found, negated, sentence, |before|) :: IsAt(h, before + sentence + after)
  {
    if found != [] {
      var f := found[|found| - 1];
      MovedAreAt(found[..|found| - 1], negated, before, sentence, after);
      assert IsAt(f, sentence);
      StandsInLine(before, sentence, after, f.index, f.text);
    }
  }

  /** Despite the cutting into sentences, every hit is the line's own text at its offset. */
  lemma {:induction false} HitsAreAt(p: CountPatterns, unfixed: string -> bool, phrases: Phrases,
                                     negated: (string, nat) -> bool, line: string, k: nat)
    requires Matches(p) && k <= |SplitSentences(line)|
    requires forall s: string, h | h in phrases(s) :: IsAt(h, s)
    ensures forall h | h in AllHits(p, unfixed, phrases, negated, SplitSentences(line), k) :: IsAt(h, line)
  {
    hide SplitSentences, Matches, IsAt, Moved;
    if k > 0 {
      var parts := SplitSentences(line);
      HitsAreAt(p, unfixed, phrases, negated, line, k - 1);
      var before, after := SentenceInLine(line, k - 1);
      StartsAreLeftToRight(p, parts[k - 1], 0);
      CountsAreAt(p, unfixed, parts[k - 1], StartsFrom(p, parts[k - 1], 0));
      MovedAreAt(phrases(parts[k - 1]) + CountsOf(p, unfixed, parts[k - 1]), negated, before, parts[k - 1], after);
    }
  }

  method KeepUnnegated(found: seq<TradeoffHit>, negated: (string, nat) -> bool, sentence: string, offset: nat)
    returns (hits: seq<TradeoffHit>)
    ensures hits == Moved(found, negated, sentence, offset)
  {
    hits := [];
    for j := 0 to |found|
      invariant hits == Moved(found[..j], negated, sentence, offset)
    {
      assert found[..j + 1][..j] == found[..j];
      if !negated(sentence, found[j].index) {
        hits := hits + [found[j].(index := found[j].index + offset)];
      }
    }
    assert found[..|found|] == found;
  }

  /** `findTradeoffHits`: the hits kept are the line's own text at their offsets, disjoint, in line order. */
  method FindTradeoffHits(p: CountPatterns, unfixed: string -> bool, phrases: Phrases,
                          negated: (string, nat) -> bool, line: string) returns (kept: seq<TradeoffHit>)
    requires Matches(p)
    requires forall s: string, h | h in phrases(s) :: IsAt(h, s)
    ensures kept == WithoutOverlaps(AllHits(p, unfixed, phrases, negated, SplitSentences(line), |SplitSentences(line)|))
    ensures forall h | h in kept :: IsAt(h, line)
    ensures Disjoint(kept, 0)
  {
    hide SplitSentences, Disjoint, IsAt, Matches, Moved, CountsOf;
    var hits: seq<TradeoffHit> := [];
    var offset := 0;
    var parts := SplitSentences(line);
    for k := 0 to |parts|
      invariant offset == OffsetOf(parts, k)
      invariant hits == AllHits(p, unfixed, phrases, negated, parts, k)
    {
      var sentence := parts[k];
      var counts := CountHits(p, unfixed, sentence);
      var found := KeepUnnegated(phrases(sentence) + counts, negated, sentence, offset);
      hits := hits + found;
      offset := offset + |sentence| + 2;
    }
    HitsAreAt(p, unfixed, phrases, negated, line, |parts|);
    OverlapsResolved(hits);
    kept := DropOverlaps(hits);
  }

  // ----- the order in which hits are found -----

  /** What the patterns are: a phrase yields its own text and no number, and begins with another word than
      a number does. */
  ghost predicate TellsApart(p: CountPatterns, phrases: Phrases) {
    && (forall s: string, h | h in phrases(s) :: IsAt(h, s) && h.findings.None?)
    && (forall s: string, from: nat, h | h in phrases(s) && p.number(s, from).Some? ::
          p.number(s, from).value.index != h.index)
  }

  /** Every count starts where a number does. */
  lemma {:induction false} StartsAtNumber(p: CountPatterns, sentence: string, from: nat, c: CountStart)
    requires Matches(p) && from <= |sentence| && c in StartsFrom(p, sentence, from)
    ensures exists i: nat :: p.number(sentence, i).Some? && p.number(sentence, i).value.index == c.index
    decreases |sentence| - from
  {
    var next := NextCount(p, sentence, from).value;
    if c !in next.0 {
      StartsAtNumber(p, sentence, next.1, c);
    }
  }

  lemma {:induction false} CountBehind(p: CountPatterns, unfixed: string -> bool, sentence: string,
                                       starts: seq<CountStart>, h: TradeoffHit) returns (c: CountStart)
    requires Matches(p) && LeftToRight(starts, sentence, 0) && h in HitsOf(p, unfixed, sentence, starts)
    ensures c in starts && HitOf(p, unfixed, sentence, c) == Some(h) && h.index == c.index && h.findings.Some?
  {
    hide Matches, Continued;
    var front, last := starts[..|starts| - 1], starts[|starts| - 1];
    if h in HitsOf(p, unfixed, sentence, front) {
      c := CountBehind(p, unfixed, sentence, front, h);
    } else {
      c := last;
    }
  }

  lemma OneStart(starts: seq<CountStart>, sentence: string, a: CountStart, b: CountStart)
    requires LeftToRight(starts, sentence, 0) && a in starts && b in starts && a.index == b.index
    ensures a == b
  {
    var i, j :| 0 <= i < |starts| && 0 <= j < |starts| && starts[i] == a && starts[j] == b;
  }

  /** Two hits of one sentence that start at one offset and are equally long are one hit. */
  lemma OneInSentence(p: CountPatterns, unfixed: string -> bool, phrases: Phrases, sentence: string,
                      a: TradeoffHit, b: TradeoffHit)
    requires Matches(p) && TellsApart(p, phrases)
    requires a in phrases(sentence) + CountsOf(p, unfixed, sentence)
    requires b in phrases(sentence) + CountsOf(p, unfixed, sentence)
    requires a.index == b.index && |a.text| == |b.text|
    ensures a == b
  {
    hide Matches, HitsOf, HitOf, StartsFrom, LeftToRight;
    var starts := StartsFrom(p, sentence, 0);
    StartsAreLeftToRight(p, sentence, 0);
    var (inA, inB) := (a in phrases(sentence), b in phrases(sentence));
    if !inA && !inB {
      var c := CountBehind(p, unfixed, sentence, starts, a);
      var d := CountBehind(p, unfixed, sentence, starts, b);
      OneStart(starts, sentence, c, d);
    } else if !inA || !inB {
      var c := CountBehind(p, unfixed, sentence, starts, if inA then b else a);
      StartsAtNumber(p, sentence, 0, c);
    }
  }

  lemma {:induction false} MovedFrom(found: seq<TradeoffHit>, negated: (string, nat) -> bool, sentence: string,
                                     offset: nat, h: TradeoffHit) returns (f: TradeoffHit)
    requires h in Moved(found, negated, sentence, offset)
    ensures f in found && h == f.(index := f.index + offset)
  {
    var front := found[..|found| - 1];
    if h in Moved(front, negated, sentence, offset) {
      f := MovedFrom(front, negated, sentence, offset, h);
    } else {
      f := found[|found| - 1];
    }
  }

  /** The sentence a hit of the line was found in. */
  lemma {:induction false} FoundIn(p: CountPatterns, unfixed: string -> bool, phrases: Phrases,
                                   negated: (string, nat) -> bool, parts: seq<string>, n: nat, h: TradeoffHit)
    returns (k: nat, f: TradeoffHit)
    requires Matches(p) && n <= |parts| && h in AllHits(p, unfixed, phrases, negated, parts, n)
    ensures k < n && f in phrases(parts[k]) + CountsOf(p, unfixed, parts[k])
    ensures h == f.(index := f.index + OffsetOf(parts, k))
  {
    hide Matches, Moved, CountsOf, OffsetOf;
    if h in AllHits(p, unfixed, phrases, negated, parts, n - 1) {
      k, f := FoundIn(p, unfixed, phrases, negated, parts, n - 1, h);
    } else {
      k := n - 1;
      f := MovedFrom(phrases(parts[k]) + CountsOf(p, unfixed, parts[k]), negated, parts[k], OffsetOf(parts, k), h);
    }
  }

  lemma {:induction false} OffsetsAscend(parts: seq<string>, k: nat, n: nat)
    requires k < n <= |parts|
    ensures OffsetOf(parts, k) + |parts[k]| + 2 <= OffsetOf(parts, n)
  {
    if k + 1 < n {
      OffsetsAscend(parts, k, n - 1);
    }
  }

  lemma FoundAt(p: CountPatterns, unfixed: string -> bool, phrases: Phrases, sentence: string, f: TradeoffHit)
    requires Matches(p) && TellsApart(p, phrases) && f in phrases(sentence) + CountsOf(p, unfixed, sentence)
    ensures IsAt(f, sentence)
  {
    hide Matches, IsAt, HitsOf, StartsFrom;
    StartsAreLeftToRight(p, sentence, 0);
    CountsAreAt(p, unfixed, sentence, StartsFrom(p, sentence, 0));
  }

  /** Hits of a line over the same stretch are the same hit. */
  lemma OneOfALine(p: CountPatterns, unfixed: string -> bool, phrases: Phrases, negated: (string, nat) -> bool,
                   parts: seq<string>)
    requires Matches(p) && TellsApart(p, phrases)
    ensures OnePerStretch(AllHits(p, unfixed, phrases, negated, parts, |parts|))
  {
    hide Matches, TellsApart, AllHits, CountsOf, OffsetOf;
    var hits := AllHits(p, unfixed, phrases, negated, parts, |parts|);
    forall a, b | a in hits && b in hits && a.index == b.index && |a.text| == |b.text|
      ensures a == b
    {
      var k, f := FoundIn(p, unfixed, phrases, negated, parts, |parts|, a);
      var l, g := FoundIn(p, unfixed, phrases, negated, parts, |parts|, b);
      FoundAt(p, unfixed, phrases, parts[k], f);
      FoundAt(p, unfixed, phrases, parts[l], g);
      if k < l {
        OffsetsAscend(parts, k, l);
      } else if l < k {
        OffsetsAscend(parts, l, k);
      } else {
        OneInSentence(p, unfixed, phrases, parts[k], f, g);
      }
    }
  }

  /** What is kept of a line does not depend on the order in which its hits were found. */
  lemma OrderDoesNotMatter(p: CountPatterns, unfixed: string -> bool, phrases: Phrases, negated: (string, nat) -> bool,
                           line: string, shuffled: seq<TradeoffHit>)
    requires Matches(p) && TellsApart(p, phrases)
    requires multiset(shuffled) ==
             multiset(AllHits(p, unfixed, phrases, negated, SplitSentences(line), |SplitSentences(line)|))
    ensures WithoutOverlaps(shuffled) ==
            WithoutOverlaps(AllHits(p, unfixed, phrases, negated, SplitSentences(line), |SplitSentences(line)|))
  {
    hide Matches, TellsApart, AllHits, SplitSentences, OnePerStretch, WithoutOverlaps;
    OneOfALine(p, unfixed, phrases, negated, SplitSentences(line));
    SameHitsSameKept(AllHits(p, unfixed, phrases, negated, SplitSentences(line), |SplitSentences(line)|), shuffled);
  }
}
