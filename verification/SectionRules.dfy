/** The sections of a story file: which heading opens one, which heading closes it, and how the loop
    over the lines refines that reading. */
module SectionRules {
  import opened DeferredWorkLedger
  import opened LineReader
  import opened Sentences
  import opened Text

  datatype Heading = Heading(level: nat, title: string)

  type Parser = string -> Option<Heading>

  type Chooser = Heading -> bool

  // ----- the lines outside fences -----

  function VisiblePlain(fence: Option<Fence>, raw: string, at: nat): seq<BodyLine> {
    if Fenced(fence, StripCr(raw)) then [] else [BodyLine(at + 1, StripCr(raw))]
  }

  function PlainLines(content: string): seq<BodyLine> { Emitted(FenceNext, VisiblePlain, None, Lines(content), 0) }

  method CollectPlainLines(content: string) returns (lines: seq<BodyLine>)
    ensures lines == PlainLines(content)
  {
    hide Emitted, StateAfter, Marker, Closes, Split;
    var fenced := new FenceTracker();
    lines := [];
    var raw := Lines(content);
    NoRawLines(raw);
    for index := 0 to |raw|
      invariant lines == Emitted(FenceNext, VisiblePlain, None, raw[..index], 0)
      invariant fenced.fence == StateAfter(FenceNext, None, raw[..index])
    {
      OneMoreLine(FenceNext, VisiblePlain, None, raw, index, 0);
      var text := StripCr(raw[index]);
      var skip := fenced.Classify(text);
      if !skip {
        lines := lines + [BodyLine(index + 1, text)];
      }
    }
    assert raw[..|raw|] == raw;
  }

  lemma NoRawLines(raw: seq<string>)
    ensures Emitted(FenceNext, VisiblePlain, None, raw[..0], 0) == [] && StateAfter(FenceNext, None, raw[..0]) == None
  {
  }

  /** Line numbers ascend, below `bound`. */
  ghost predicate Rising(lines: seq<BodyLine>, bound: nat) {
    && (forall k | 0 <= k < |lines| :: lines[k].line < bound)
    && (forall i, j | 0 <= i < j < |lines| :: lines[i].line < lines[j].line)
  }

  lemma {:induction false} PlainLinesRise(raw: seq<string>, n: nat)
    requires n <= |raw|
    ensures Rising(Emitted(FenceNext, VisiblePlain, None, raw[..n], 0), n + 1)
  {
    hide Emitted, StateAfter, FenceNext, Fenced, StripCr;
    if n == 0 {
      NoRawLines(raw);
    } else {
      PlainLinesRise(raw, n - 1);
      OneMoreLine(FenceNext, VisiblePlain, None, raw, n - 1, 0);
    }
  }

  // ----- sections -----

  predicate EndsSection(parse: Parser, text: string, level: nat) { parse(text).Some? && parse(text).value.level <= level }

  /** Where a section of that level ends: at the next heading of equal or higher rank. */
  function SectionEnd(parse: Parser, lines: seq<BodyLine>, level: nat, from: nat): (e: nat)
    requires from <= |lines|
    ensures from <= e <= |lines|
    ensures forall k | from <= k < e :: !EndsSection(parse, lines[k].text, level)
    ensures e < |lines| ==> EndsSection(parse, lines[e].text, level)
    decreases |lines| - from
  {
    if from == |lines| || EndsSection(parse, lines[from].text, level) then from
    else SectionEnd(parse, lines, level, from + 1)
  }

  predicate Accepts(parse: Parser, isScanned: Chooser, text: string) {
    var h := parse(text);
    h.Some? && 2 <= h.value.level <= 4 && isScanned(h.value)
  }

  /** Where the section opened on line `o` ends. */
  function EndOf(parse: Parser, lines: seq<BodyLine>, o: nat): (e: nat)
    requires o < |lines|
    ensures o < e <= |lines|
  {
    var h := parse(lines[o].text);
    if h.None? then o + 1 else SectionEnd(parse, lines, h.value.level, o + 1)
  }

  /** Line `k` opens a section: its heading is accepted and no section opened before reaches it. */
  ghost predicate Opens(parse: Parser, isScanned: Chooser, lines: seq<BodyLine>, k: nat)
    requires k < |lines|
  {
    && Accepts(parse, isScanned, lines[k].text)
    && forall o | 0 <= o < k :: Opens(parse, isScanned, lines, o) ==> EndOf(parse, lines, o) <= k
  }

  datatype TitledSection = TitledSection(heading: Heading, lines: seq<BodyLine>)

  /** The section opened on line `o`, as far as line `k`. */
  function SectionUpTo(parse: Parser, lines: seq<BodyLine>, o: nat, k: nat): TitledSection
    requires o < k <= |lines| && parse(lines[o].text).Some?
  {
    var e := EndOf(parse, lines, o);
    TitledSection(parse(lines[o].text).value, lines[o + 1..if e <= k then e else k])
  }

  /** The opening lines before `k`, in order. */
  ghost function Openers(parse: Parser, isScanned: Chooser, lines: seq<BodyLine>, k: nat): (r: seq<nat>)
    requires k <= |lines|
    ensures forall j | 0 <= j < |r| :: r[j] < k && Opens(parse, isScanned, lines, r[j]) && parse(lines[r[j]].text).Some?
    ensures forall i, j | 0 <= i < j < |r| :: r[i] < r[j]
    ensures forall o | 0 <= o < k && Opens(parse, isScanned, lines, o) :: o in r
  {
    if k == 0 then []
    else
      Openers(parse, isScanned, lines, k - 1) + if Opens(parse, isScanned, lines, k - 1) then [k - 1] else []
  }

  ghost function SectionsUpTo(parse: Parser, isScanned: Chooser, lines: seq<BodyLine>, k: nat): (r: seq<TitledSection>)
    requires k <= |lines|
    ensures |r| == |Openers(parse, isScanned, lines, k)|
    ensures forall j | 0 <= j < |r| :: r[j] == SectionUpTo(parse, lines, Openers(parse, isScanned, lines, k)[j], k)
  {
    var openers := Openers(parse, isScanned, lines, k);
    seq(|openers|, j requires 0 <= j < |openers| => SectionUpTo(parse, lines, openers[j], k))
  }

  /** An opener is past the end of every section opened above it. */
  lemma EndsAbove(parse: Parser, isScanned: Chooser, lines: seq<BodyLine>, o: nat, q: nat)
    requires o < q < |lines| && Opens(parse, isScanned, lines, o) && Opens(parse, isScanned, lines, q)
    ensures EndOf(parse, lines, o) <= q
  {
    hide EndOf, Accepts;
  }

  /** Does the last section opened before line `k` reach it? */
  ghost predicate LastReaches(parse: Parser, isScanned: Chooser, lines: seq<BodyLine>, k: nat, to: nat)
    requires k <= |lines|
  {
    var openers := Openers(parse, isScanned, lines, k);
    openers != [] && EndOf(parse, lines, openers[|openers| - 1]) >= to
  }

  /** Only the last section opened can reach line `k`. */
  lemma {:induction false} OpensAfterLast(parse: Parser, isScanned: Chooser, lines: seq<BodyLine>, k: nat)
    requires k < |lines|
    ensures Opens(parse, isScanned, lines, k) <==>
            Accepts(parse, isScanned, lines[k].text) && !LastReaches(parse, isScanned, lines, k, k + 1)
  {
    hide EndOf, Accepts;
    var openers := Openers(parse, isScanned, lines, k);
    forall o | 0 <= o < k && Opens(parse, isScanned, lines, o) && o != openers[|openers| - 1]
      ensures EndOf(parse, lines, o) <= k
    {
      var j :| 0 <= j < |openers| && openers[j] == o;
      EndsAbove(parse, isScanned, lines, o, openers[|openers| - 1]);
    }
  }

  lemma OpenersNext(parse: Parser, isScanned: Chooser, lines: seq<BodyLine>, k: nat)
    requires k < |lines|
    ensures Openers(parse, isScanned, lines, k + 1) ==
            Openers(parse, isScanned, lines, k) + if Opens(parse, isScanned, lines, k) then [k] else []
  {
    hide Opens;
  }

  /** A section opened before line `k` reaches past it only as the last one, and only if `k` opens none. */
  lemma OnlyLastReaches(parse: Parser, isScanned: Chooser, lines: seq<BodyLine>, k: nat, j: nat)
    requires k < |lines| && j < |Openers(parse, isScanned, lines, k)|
    ensures var openers := Openers(parse, isScanned, lines, k);
            EndOf(parse, lines, openers[j]) > k ==> j == |openers| - 1 && !Opens(parse, isScanned, lines, k)
  {
    hide EndOf, Opens, Openers;
    var openers := Openers(parse, isScanned, lines, k);
    if j < |openers| - 1 {
      EndsAbove(parse, isScanned, lines, openers[j], openers[|openers| - 1]);
    }
    if Opens(parse, isScanned, lines, k) {
      EndsAbove(parse, isScanned, lines, openers[j], k);
    }
  }

  lemma SectionGrows(parse: Parser, lines: seq<BodyLine>, o: nat, k: nat)
    requires o < k < |lines| && parse(lines[o].text).Some?
    ensures var before := SectionUpTo(parse, lines, o, k);
            SectionUpTo(parse, lines, o, k + 1) ==
            if EndOf(parse, lines, o) > k then TitledSection(before.heading, before.lines + [lines[k]]) else before
  {
    hide EndOf;
    assert lines[o + 1..k + 1] == lines[o + 1..k] + [lines[k]];
  }

  lemma SectionStarts(parse: Parser, lines: seq<BodyLine>, k: nat)
    requires k < |lines| && parse(lines[k].text).Some?
    ensures SectionUpTo(parse, lines, k, k + 1) == TitledSection(parse(lines[k].text).value, [])
  {
    hide EndOf;
    assert lines[k + 1..k + 1] == [];
  }

  /** The sections after line `k`, from those before it: a new one, one more line of the last, or the same. */
  ghost function WithLine(parse: Parser, isScanned: Chooser, lines: seq<BodyLine>, k: nat): seq<TitledSection>
    requires k < |lines|
  {
    var before := SectionsUpTo(parse, isScanned, lines, k);
    if Opens(parse, isScanned, lines, k) then before + [TitledSection(parse(lines[k].text).value, [])]
    else if LastReaches(parse, isScanned, lines, k, k + 1)
    then before[..|before| - 1] + [TitledSection(before[|before| - 1].heading, before[|before| - 1].lines + [lines[k]])]
    else before
  }

  lemma {:induction false} SectionAfterLine(parse: Parser, isScanned: Chooser, lines: seq<BodyLine>, k: nat, j: nat)
    requires k < |lines| && j < |Openers(parse, isScanned, lines, k)|
    ensures j < |Openers(parse, isScanned, lines, k + 1)|
    ensures var before := SectionsUpTo(parse, isScanned, lines, k)[j];
            SectionsUpTo(parse, isScanned, lines, k + 1)[j] ==
            if j == |Openers(parse, isScanned, lines, k)| - 1 && LastReaches(parse, isScanned, lines, k, k + 1)
            then TitledSection(before.heading, before.lines + [lines[k]]) else before
    ensures LastReaches(parse, isScanned, lines, k, k + 1) ==> !Opens(parse, isScanned, lines, k)
  {
    hide EndOf, SectionUpTo, Opens, Openers;
    var openers := Openers(parse, isScanned, lines, k);
    OpenersNext(parse, isScanned, lines, k);
    OnlyLastReaches(parse, isScanned, lines, k, j);
    OnlyLastReaches(parse, isScanned, lines, k, |openers| - 1);
    SectionGrows(parse, lines, openers[j], k);
  }

  /** The sections `WithLine` gives, one by one. */
  lemma {:induction false} WithLineAt(parse: Parser, isScanned: Chooser, lines: seq<BodyLine>, k: nat)
    requires k < |lines|
    requires LastReaches(parse, isScanned, lines, k, k + 1) ==>
               SectionsUpTo(parse, isScanned, lines, k) != [] && !Opens(parse, isScanned, lines, k)
    ensures var (before, after) := (SectionsUpTo(parse, isScanned, lines, k), WithLine(parse, isScanned, lines, k));
            && |after| == |before| + (if Opens(parse, isScanned, lines, k) then 1 else 0)
            && (Opens(parse, isScanned, lines, k) ==> after[|before|] == TitledSection(parse(lines[k].text).value, []))
            && forall j | 0 <= j < |before| ::
                 after[j] == if j == |before| - 1 && LastReaches(parse, isScanned, lines, k, k + 1)
                             then TitledSection(before[j].heading, before[j].lines + [lines[k]]) else before[j]
  {
    hide EndOf, Opens, Openers, LastReaches, SectionsUpTo, SectionUpTo;
  }

  lemma {:induction false} OneMoreSectionLine(parse: Parser, isScanned: Chooser, lines: seq<BodyLine>, k: nat)
    requires k < |lines|
    ensures SectionsUpTo(parse, isScanned, lines, k + 1) == WithLine(parse, isScanned, lines, k)
  {
    hide EndOf, SectionUpTo, Opens, Openers, LastReaches, SectionsUpTo, WithLine;
    var openers := Openers(parse, isScanned, lines, k);
    OpenersNext(parse, isScanned, lines, k);
    LastNeedsOpeners(parse, isScanned, lines, k);
    if openers != [] {
      SectionAfterLine(parse, isScanned, lines, k, |openers| - 1);
    }
    WithLineAt(parse, isScanned, lines, k);
    forall j | 0 <= j < |openers|
      ensures SectionsUpTo(parse, isScanned, lines, k + 1)[j] == WithLine(parse, isScanned, lines, k)[j]
    {
      SectionAfterLine(parse, isScanned, lines, k, j);
    }
    if Opens(parse, isScanned, lines, k) {
      OpenerHasHeading(parse, isScanned, lines, k);
      SectionStarts(parse, lines, k);
    }
  }

  lemma LastNeedsOpeners(parse: Parser, isScanned: Chooser, lines: seq<BodyLine>, k: nat)
    requires k < |lines|
    ensures LastReaches(parse, isScanned, lines, k, k + 1) ==> Openers(parse, isScanned, lines, k) != []
  {
  }

  /** The loop variables of `extractSections` before line `k`: the sections so far, and the level of the
      one being filled. */
  ghost predicate Reading(parse: Parser, isScanned: Chooser, lines: seq<BodyLine>, k: nat,
                          sections: seq<TitledSection>, current: Option<nat>)
    requires k <= |lines|
  {
    && sections == SectionsUpTo(parse, isScanned, lines, k)
    && (current.Some? <==> LastReaches(parse, isScanned, lines, k, k))
    && (current.Some? ==> sections != [] && current.value == sections[|sections| - 1].heading.level)
  }

  /** A heading that neither opens a section nor lets the last one go on. */
  lemma ReadHeadingOrLine(parse: Parser, isScanned: Chooser, lines: seq<BodyLine>, k: nat,
                          sections: seq<TitledSection>, current: Option<nat>)
    requires k < |lines| && Reading(parse, isScanned, lines, k, sections, current)
    ensures var kept := if current.Some? && EndsSection(parse, lines[k].text, current.value) then None else current;
            if kept.None? && Accepts(parse, isScanned, lines[k].text)
            then var h := parse(lines[k].text).value;
                 Reading(parse, isScanned, lines, k + 1, sections + [TitledSection(h, [])], Some(h.level))
            else if kept.None? then Reading(parse, isScanned, lines, k + 1, sections, kept)
            else var last := sections[|sections| - 1];
                 Reading(parse, isScanned, lines, k + 1,
                         sections[..|sections| - 1] + [TitledSection(last.heading, last.lines + [lines[k]])], kept)
  {
    hide Opens, SectionsUpTo, LastReaches, Accepts;
    AcceptedHasHeading(parse, isScanned, lines[k].text);
    OpensAfterLast(parse, isScanned, lines, k);
    OneMoreSectionLine(parse, isScanned, lines, k);
    StillReaches(parse, isScanned, lines, k);
    ReachesNext(parse, isScanned, lines, k);
  }

  lemma AcceptedHasHeading(parse: Parser, isScanned: Chooser, text: string)
    ensures Accepts(parse, isScanned, text) ==> parse(text).Some?
  {
  }

  /** `extractSections` past the fences: the sections are the declared ones. */
  method ExtractSections(parse: Parser, isScanned: Chooser, lines: seq<BodyLine>) returns (sections: seq<TitledSection>)
    ensures sections == SectionsUpTo(parse, isScanned, lines, |lines|)
  {
    hide SectionsUpTo, LastReaches;
    sections := [];
    var current: Option<nat> := None;
    NothingRead(parse, isScanned, lines);
    for k := 0 to |lines|
      invariant Reading(parse, isScanned, lines, k, sections, current)
    {
      var heading := parse(lines[k].text);
      ReadHeadingOrLine(parse, isScanned, lines, k, sections, current);
      if heading.Some? && current.Some? && heading.value.level <= current.value {
        current := None;
      }
      if heading.Some? && current.None? && Accepts(parse, isScanned, lines[k].text) {
        current := Some(heading.value.level);
        sections := sections + [TitledSection(heading.value, [])];
        continue;
      }
      if current.Some? {
        var last := |sections| - 1;
        sections := sections[..last] + [TitledSection(sections[last].heading, sections[last].lines + [lines[k]])];
      }
    }
  }

  lemma NothingRead(parse: Parser, isScanned: Chooser, lines: seq<BodyLine>)
    ensures SectionsUpTo(parse, isScanned, lines, 0) == [] && !LastReaches(parse, isScanned, lines, 0, 0)
  {
  }

  /** The last section reaches past line `k` if it reaches it and the line's heading does not end it. */
  lemma StillReaches(parse: Parser, isScanned: Chooser, lines: seq<BodyLine>, k: nat)
    requires k < |lines|
    ensures var sections := SectionsUpTo(parse, isScanned, lines, k);
            LastReaches(parse, isScanned, lines, k, k + 1) <==>
            && LastReaches(parse, isScanned, lines, k, k) && sections != []
            && !EndsSection(parse, lines[k].text, sections[|sections| - 1].heading.level)
  {
    hide Opens;
    var openers := Openers(parse, isScanned, lines, k);
    if openers != [] {
      var o := openers[|openers| - 1];
      OpenerHasHeading(parse, isScanned, lines, o);
    }
  }

  lemma OpenerHasHeading(parse: Parser, isScanned: Chooser, lines: seq<BodyLine>, o: nat)
    requires o < |lines| && Opens(parse, isScanned, lines, o)
    ensures parse(lines[o].text).Some?
  {
  }

  /** Which section is the last one after line `k`. */
  lemma ReachesNext(parse: Parser, isScanned: Chooser, lines: seq<BodyLine>, k: nat)
    requires k < |lines|
    ensures LastReaches(parse, isScanned, lines, k + 1, k + 1) <==>
            Opens(parse, isScanned, lines, k) || LastReaches(parse, isScanned, lines, k, k + 1)
  {
    hide Opens, Openers;
    OpenersNext(parse, isScanned, lines, k);
  }

  /** No two sections share a line: whatever section `i` lists stands above whatever a later section
      lists. */
  lemma SectionsDisjoint(parse: Parser, isScanned: Chooser, content: string, i: nat, j: nat)
    requires i < j < |SectionsUpTo(parse, isScanned, PlainLines(content), |PlainLines(content)|)|
    ensures var sections := SectionsUpTo(parse, isScanned, PlainLines(content), |PlainLines(content)|);
            forall a, b | a in sections[i].lines && b in sections[j].lines :: a.line < b.line
  {
    hide Opens, EndOf, Openers, Emitted, Split;
    var raw, lines := Lines(content), PlainLines(content);
    PlainLinesRise(raw, |raw|);
    assert raw[..|raw|] == raw;
    var openers := Openers(parse, isScanned, lines, |lines|);
    EndsAbove(parse, isScanned, lines, openers[i], openers[j]);
    SlicesApart(lines, openers[i] + 1, EndOf(parse, lines, openers[i]), openers[j] + 1, EndOf(parse, lines, openers[j]),
                |raw| + 1);
  }

  lemma SlicesApart(lines: seq<BodyLine>, a: nat, b: nat, c: nat, d: nat, bound: nat)
    requires a <= b < c <= d <= |lines| && Rising(lines, bound)
    ensures forall x, y | x in lines[a..b] && y in lines[c..d] :: x.line < y.line
  {
  }
}
