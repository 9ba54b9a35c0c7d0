/** Sections and blocks of a story file, without the loops that build them. */
module SectionLaws {
  import opened DeferredWorkLedger
  import opened LineReader
  import opened SectionRules
  import opened TextBlocks
  import opened Text

  // ----- sections -----

  /** A heading of level two to four that is scanned. */
  predicate MayOpen(parse: Parser, isScanned: Chooser, text: string) {
    match parse(text)
    case None => false
    case Some(h) => (h.level == 2 || h.level == 3 || h.level == 4) && isScanned(h)
  }

  /** The section of the heading on line `at` goes to the next heading of its level or above, or to the end. */
  ghost predicate IsSection(parse: Parser, isScanned: Chooser, lines: seq<BodyLine>, at: nat, end: nat, s: TitledSection) {
    && at < end <= |lines| && MayOpen(parse, isScanned, lines[at].text)
    && s.heading == parse(lines[at].text).value && s.lines == lines[at + 1..end]
    && (forall k | at < k < end ::
          parse(lines[k].text).Some? ==> parse(lines[k].text).value.level > s.heading.level)
    && (end < |lines| ==> parse(lines[end].text).Some? && parse(lines[end].text).value.level <= s.heading.level)
  }

  ghost predicate InOne(at: seq<nat>, ends: seq<nat>, k: nat)
    requires |at| == |ends|
  {
    exists j | 0 <= j < |at| :: at[j] <= k < ends[j]
  }

  /** The sections, one after the other, and no heading outside them that may open one. */
  ghost predicate AreSections(parse: Parser, isScanned: Chooser, lines: seq<BodyLine>, at: seq<nat>, ends: seq<nat>,
                              sections: seq<TitledSection>) {
    && |at| == |ends| == |sections|
    && (forall j | 0 <= j < |at| :: IsSection(parse, isScanned, lines, at[j], ends[j], sections[j]))
    && (forall i, j | 0 <= i < j < |at| :: ends[i] <= at[j])
    && (forall k | 0 <= k < |lines| && !InOne(at, ends, k) :: !MayOpen(parse, isScanned, lines[k].text))
  }

  lemma MayOpenExactly(parse: Parser, isScanned: Chooser, text: string)
    ensures Accepts(parse, isScanned, text) <==> MayOpen(parse, isScanned, text)
  {
  }

  lemma OneSection(parse: Parser, isScanned: Chooser, lines: seq<BodyLine>, o: nat)
    requires o < |lines| && Opens(parse, isScanned, lines, o)
    ensures parse(lines[o].text).Some?
    ensures IsSection(parse, isScanned, lines, o, EndOf(parse, lines, o), SectionUpTo(parse, lines, o, |lines|))
  {
    MayOpenExactly(parse, isScanned, lines[o].text);
    var (h, e) := (parse(lines[o].text).value, EndOf(parse, lines, o));
    forall k | o < k < e
      ensures parse(lines[k].text).Some? ==> parse(lines[k].text).value.level > h.level
    {
      assert !EndsSection(parse, lines[k].text, h.level);
    }
  }

  /** The sections of a file are those, and no others are. */
  lemma {:induction false} SectionsExactly(parse: Parser, isScanned: Chooser, lines: seq<BodyLine>)
    returns (at: seq<nat>, ends: seq<nat>)
    ensures AreSections(parse, isScanned, lines, at, ends, SectionsUpTo(parse, isScanned, lines, |lines|))
  {
    hide EndOf, Accepts, MayOpen, Opens, Openers, SectionUpTo, IsSection;
    at := Openers(parse, isScanned, lines, |lines|);
    ends := seq(|at|, j requires 0 <= j < |at| => EndOf(parse, lines, at[j]));
    forall j | 0 <= j < |at|
      ensures IsSection(parse, isScanned, lines, at[j], ends[j], SectionsUpTo(parse, isScanned, lines, |lines|)[j])
    {
      OneSection(parse, isScanned, lines, at[j]);
    }
    forall i, j | 0 <= i < j < |at|
      ensures ends[i] <= at[j]
    {
      EndsAbove(parse, isScanned, lines, at[i], at[j]);
    }
    forall k | 0 <= k < |lines| && !InOne(at, ends, k)
      ensures !MayOpen(parse, isScanned, lines[k].text)
    {
      MayOpenExactly(parse, isScanned, lines[k].text);
      NoneOutside(parse, isScanned, lines, at, ends, k);
    }
  }

  lemma {:induction false} NoneOutside(parse: Parser, isScanned: Chooser, lines: seq<BodyLine>, at: seq<nat>, ends: seq<nat>,
                                       k: nat)
    requires k < |lines| && at == Openers(parse, isScanned, lines, |lines|) && |ends| == |at|
    requires forall j | 0 <= j < |at| :: ends[j] == EndOf(parse, lines, at[j])
    requires !InOne(at, ends, k)
    ensures !Accepts(parse, isScanned, lines[k].text)
  {
    hide EndOf, Accepts, Openers;
    forall o | 0 <= o <= k && Opens(parse, isScanned, lines, o)
      ensures EndOf(parse, lines, o) <= k
    {
      assert o in at;
      var j :| 0 <= j < |at| && at[j] == o;
      assert !(at[j] <= k < ends[j]);
    }
    assert EndOf(parse, lines, k) > k;
  }

  // ----- the lines outside fences -----

  function Plain(l: LedgerLine): BodyLine { BodyLine(l.line, l.text) }

  lemma {:induction false} PlainFrom(fence: Option<Fence>, raw: seq<string>, at: nat)
    ensures Emitted(FenceNext, VisiblePlain, fence, raw, at) == Mapped(Plain, LinesFrom(fence, raw, at))
    decreases raw
  {
    hide Fenced, Closes, Marker, StripCr, ToDwHeading;
    if raw != [] {
      PlainFrom(FenceNext(fence, raw[0]), raw[1..], at + 1);
    }
  }

  /** The section reader sees the lines the ledger parser sees, with the same numbers. */
  lemma PlainLinesExactly(content: string)
    ensures PlainLines(content) == Mapped(Plain, LedgerLines(content))
  {
    PlainFrom(None, Lines(content), 0);
  }

  // ----- blocks -----

  predicate AllSpace(s: string) { forall k | 0 <= k < |s| :: IsSpace(s[k]) }

  /** At most one character of white space, a dash, a star or a number with a dot, and white space. */
  predicate IsBulletLine(text: string, indent: string, mark: string, rest: string) {
    && text == indent + (mark + rest) && |indent| <= 1 && AllSpace(indent) && rest != "" && IsSpace(rest[0])
    && (mark == "-" || mark == "*"
        || (|mark| >= 2 && mark[|mark| - 1] == '.' && forall k | 0 <= k < |mark| - 1 :: '0' <= mark[k] <= '9'))
  }

  ghost predicate IsBullet(text: string) { exists indent, mark, rest :: IsBulletLine(text, indent, mark, rest) }

  lemma BulletForm(text: string) returns (indent: string, mark: string, rest: string)
    requires IsTopBullet(text)
    ensures IsBulletLine(text, indent, mark, rest)
  {
    hide Span;
    var n := Span(text, IsSpace);
    var behind := text[n..];
    indent := text[..n];
    mark, rest := MarkForm(behind);
    assert text == indent + behind;
  }

  lemma MarkForm(behind: string) returns (mark: string, rest: string)
    requires behind != ""
    requires if behind[0] == '-' || behind[0] == '*' then |behind| > 1 && IsSpace(behind[1])
             else var digits := Span(behind, IsDigit);
                  digits > 0 && |behind| > digits + 1 && behind[digits] == '.' && IsSpace(behind[digits + 1])
    ensures IsBulletLine(behind, "", mark, rest) && behind == mark + rest
  {
    hide Span;
    var width := if behind[0] == '-' || behind[0] == '*' then 1 else Span(behind, IsDigit) + 1;
    mark, rest := behind[..width], behind[width..];
    assert behind == "" + (mark + rest);
    if width > 1 {
      forall k | 0 <= k < |mark| - 1
        ensures '0' <= mark[k] <= '9'
      {
        assert IsDigit(behind[..width - 1][k]);
      }
    } else {
      assert mark == [behind[0]];
    }
  }

  lemma BulletOf(text: string, indent: string, mark: string, rest: string)
    requires IsBulletLine(text, indent, mark, rest)
    ensures IsTopBullet(text)
  {
    hide Span;
    var behind := mark + rest;
    SpanOf(indent, behind, IsSpace);
    assert text[|indent|..] == behind && behind[0] == mark[0] && behind[|mark|] == rest[0];
    if mark != "-" && mark != "*" {
      var digits := mark[..|mark| - 1];
      assert behind == digits + (['.'] + rest);
      SpanOf(digits, ['.'] + rest, IsDigit);
    }
  }

  lemma {:induction false} NothingButBlank(lines: seq<BodyLine>)
    ensures NonBlank(lines) == [] <==> forall k | 0 <= k < |lines| :: IsBlankText(lines[k].text)
  {
    if lines != [] {
      var (front, last) := (lines[..|lines| - 1], lines[|lines| - 1]);
      NothingButBlank(front);
      TrimEmpty(last.text);
      assert lines == front + [last];
      assert forall k | 0 <= k < |front| :: front[k] == lines[k];
    }
  }

  /** Line `k` begins a block: text that is a bullet, or the first there is, or below a blank line and not set in
      by two. */
  ghost predicate BeginsBlock(lines: seq<BodyLine>, k: nat)
    requires k < |lines|
  {
    var text := lines[k].text;
    && !IsBlankText(text)
    && (IsBullet(text) || (forall i | 0 <= i < k :: IsBlankText(lines[i].text))
        || (k > 0 && IsBlankText(lines[k - 1].text) && !(|text| >= 2 && IsSpace(text[0]) && IsSpace(text[1]))))
  }

  lemma BeginsExactly(lines: seq<BodyLine>, k: nat)
    requires k < |lines|
    ensures Begins(lines, k) <==> BeginsBlock(lines, k)
  {
    hide IsTopBullet, IsBulletLine, Trim, IsBlankText, NonBlank;
    var text := lines[k].text;
    TrimEmpty(text);
    NothingButBlank(lines[..k]);
    assert forall i | 0 <= i < k :: lines[..k][i] == lines[i];
    if k > 0 {
      TrimEmpty(lines[k - 1].text);
    }
    BulletExactly(text);
  }

  lemma BulletExactly(text: string)
    ensures IsTopBullet(text) <==> IsBullet(text)
  {
    hide IsTopBullet, IsBulletLine;
    if IsTopBullet(text) {
      var indent, mark, rest := BulletForm(text);
    }
    if indent, mark, rest :| IsBulletLine(text, indent, mark, rest) {
      BulletOf(text, indent, mark, rest);
    }
  }

  /** The lines of a stretch that are not blank, in order. */
  ghost predicate AreText(lines: seq<BodyLine>, kept: seq<BodyLine>) {
    && (forall l :: l in kept <==> l in lines && !IsBlankText(l.text))
    && forall bound: nat :: Rising(lines, bound) ==> Rising(kept, bound)
  }

  lemma {:induction false} NonBlankHas(lines: seq<BodyLine>)
    ensures forall l :: l in NonBlank(lines) <==> l in lines && !IsBlankText(l.text)
  {
    hide IsBlankText, Trim;
    if lines != [] {
      var (front, last) := (lines[..|lines| - 1], lines[|lines| - 1]);
      NonBlankHas(front);
      TrimEmpty(last.text);
      assert lines == front + [last];
    }
  }

  lemma {:induction false} NonBlankRises(lines: seq<BodyLine>, bound: nat)
    requires Rising(lines, bound)
    ensures Rising(NonBlank(lines), bound)
  {
    hide IsBlankLine;
    if lines != [] {
      var (front, last) := (lines[..|lines| - 1], lines[|lines| - 1]);
      NonBlankRises(front, last.line);
    }
  }

  lemma NonBlankAre(lines: seq<BodyLine>)
    ensures AreText(lines, NonBlank(lines))
  {
    hide NonBlank, IsBlankText, Rising;
    NonBlankHas(lines);
    forall bound: nat | Rising(lines, bound)
      ensures Rising(NonBlank(lines), bound)
    {
      NonBlankRises(lines, bound);
    }
  }

  /** The blocks: each begins on a line that begins one, is a bullet or a paragraph by that line, and takes the
      text up to the next; every line that begins one has its block. */
  lemma {:induction false} BlocksExactly(lines: seq<BodyLine>) returns (at: seq<nat>)
    ensures var blocks := BlocksUpTo(lines, |lines|);
            && |at| == |blocks|
            && (forall j | 0 <= j < |at| :: at[j] < |lines| && (j + 1 < |at| ==> at[j] < at[j + 1]))
            && (forall k | 0 <= k < |lines| :: k in at <==> BeginsBlock(lines, k))
            && (forall j | 0 <= j < |at| ::
                  && (blocks[j].kind.Bullet? <==> IsBullet(lines[at[j]].text))
                  && AreText(lines[at[j]..if j + 1 < |at| then at[j + 1] else |lines|], blocks[j].lines))
  {
    hide Begins, Beginnings, BeginsBlock, IsTopBullet, NonBlank, IsBullet, AreText;
    at := Beginnings(lines, |lines|);
    BeginningsAre(lines, |lines|);
    forall k | 0 <= k < |lines|
      ensures k in at <==> BeginsBlock(lines, k)
    {
      BeginsExactly(lines, k);
    }
    var blocks := BlocksUpTo(lines, |lines|);
    forall j | 0 <= j < |at|
      ensures blocks[j].kind.Bullet? <==> IsBullet(lines[at[j]].text)
      ensures AreText(lines[at[j]..if j + 1 < |at| then at[j + 1] else |lines|], blocks[j].lines)
    {
      BulletExactly(lines[at[j]].text);
      NonBlankAre(lines[at[j]..if j + 1 < |at| then at[j + 1] else |lines|]);
    }
  }
}
