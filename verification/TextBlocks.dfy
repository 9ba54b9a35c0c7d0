/** Grouping a section's lines into blocks, and finding the line a hit stands on. */
module TextBlocks {
  import opened DeferredWorkLedger
  import opened Sentences
  import opened Text

  datatype BlockKind = Bullet | Paragraph

  datatype TextBlock = TextBlock(kind: BlockKind, lines: seq<BodyLine>)

  /** `-`, `*` or `<digits>.` and white space, indented by less than two. */
  predicate IsTopBullet(text: string) {
    var indent := Span(text, IsSpace);
    var rest := text[indent..];
    indent < 2 && rest != "" &&
    if rest[0] == '-' || rest[0] == '*' then |rest| > 1 && IsSpace(rest[1])
    else
      var digits := Span(rest, IsDigit);
      digits > 0 && |rest| > digits + 1 && rest[digits] == '.' && IsSpace(rest[digits + 1])
  }

  predicate IsIndented(text: string) { |text| >= 2 && IsSpace(text[0]) && IsSpace(text[1]) }

  predicate IsBlankLine(l: BodyLine) { Trim(l.text) == "" }

  function NonBlank(lines: seq<BodyLine>): seq<BodyLine> {
    if lines == [] then []
    else NonBlank(lines[..|lines| - 1]) + if IsBlankLine(lines[|lines| - 1]) then [] else [lines[|lines| - 1]]
  }

  /** Line `k` begins a block: a top-level bullet, the first line of all, or an unindented line below a
      blank one. */
  predicate Begins(lines: seq<BodyLine>, k: nat)
    requires k < |lines|
  {
    && !IsBlankLine(lines[k])
    && (IsTopBullet(lines[k].text) || NonBlank(lines[..k]) == []
        || (k > 0 && IsBlankLine(lines[k - 1]) && !IsIndented(lines[k].text)))
  }

  /** The lines before `k` that begin a block, in order. */
  function Beginnings(lines: seq<BodyLine>, k: nat): (r: seq<nat>)
    requires k <= |lines|
    ensures IsRising(r, k)
  {
    hide Begins;
    if k == 0 then [] else Beginnings(lines, k - 1) + if Begins(lines, k - 1) then [k - 1] else []
  }

  predicate IsRising(r: seq<nat>, k: nat) {
    (forall j | 0 <= j < |r| :: r[j] < k) && forall i, j | 0 <= i < j < |r| :: r[i] < r[j]
  }

  lemma {:induction false} BeginningsAre(lines: seq<BodyLine>, k: nat)
    requires k <= |lines|
    ensures forall b :: b in Beginnings(lines, k) <==> 0 <= b < k && Begins(lines, b)
  {
    hide Begins;
    if k > 0 {
      BeginningsAre(lines, k - 1);
    }
  }

  /** The block from line `b` up to line `e`. */
  function BlockAt(lines: seq<BodyLine>, b: nat, e: nat): TextBlock
    requires b <= e <= |lines| && b < |lines|
  {
    TextBlock(if IsTopBullet(lines[b].text) then Bullet else Paragraph, NonBlank(lines[b..e]))
  }

  /** Where block `j` stops: where the next one begins. */
  function Stop(b: seq<nat>, j: nat, k: nat): (e: nat)
    requires j < |b| && IsRising(b, k)
    ensures b[j] < e <= k
  {
    if j + 1 < |b| then b[j + 1] else k
  }

  /** Each block holds the non-blank lines from where it begins up to where the next one does. */
  function BlocksUpTo(lines: seq<BodyLine>, k: nat): (r: seq<TextBlock>)
    requires k <= |lines|
    ensures |r| == |Beginnings(lines, k)|
    ensures forall j | 0 <= j < |r| ::
              r[j] == BlockAt(lines, Beginnings(lines, k)[j], Stop(Beginnings(lines, k), j, k))
  {
    hide Begins, Beginnings, BlockAt, Stop, IsRising;
    var b := Beginnings(lines, k);
    seq(|b|, j requires 0 <= j < |b| => BlockAt(lines, b[j], Stop(b, j, k)))
  }

  lemma OneMoreNonBlank(lines: seq<BodyLine>, b: nat, k: nat)
    requires b <= k < |lines|
    ensures NonBlank(lines[b..k + 1]) == NonBlank(lines[b..k]) + if IsBlankLine(lines[k]) then [] else [lines[k]]
  {
    hide IsBlankLine;
    var part := lines[b..k + 1];
    assert part[..|part| - 1] == lines[b..k] && part[|part| - 1] == lines[k];
  }

  lemma BeginningsNext(lines: seq<BodyLine>, k: nat)
    requires k < |lines|
    ensures Beginnings(lines, k + 1) == Beginnings(lines, k) + if Begins(lines, k) then [k] else []
  {
    hide Begins;
  }

  lemma BlockStarts(lines: seq<BodyLine>, k: nat)
    requires k < |lines| && Begins(lines, k)
    ensures BlockAt(lines, k, k + 1) == NewBlock(lines[k])
  {
    hide IsBlankLine, IsTopBullet, NonBlank;
    BeginsWithText(lines, k);
    OneMoreNonBlank(lines, k, k);
    assert lines[k..k] == [];
  }

  lemma BlockGrows(lines: seq<BodyLine>, b: nat, k: nat)
    requires b <= k < |lines|
    ensures BlockAt(lines, b, k + 1) == WithText(BlockAt(lines, b, k), lines[k])
  {
    hide IsBlankLine, IsTopBullet, NonBlank;
    OneMoreNonBlank(lines, b, k);
  }

  function WithText(block: TextBlock, l: BodyLine): TextBlock {
    if IsBlankLine(l) then block else TextBlock(block.kind, block.lines + [l])
  }

  /** A block already begun: only the last one can take line `k`. */
  lemma BlockAfterLine(lines: seq<BodyLine>, k: nat, j: nat)
    requires k < |lines| && j < |Beginnings(lines, k)|
    ensures j < |Beginnings(lines, k + 1)|
    ensures BlocksUpTo(lines, k + 1)[j] ==
            if j == |Beginnings(lines, k)| - 1 && !Begins(lines, k) then WithText(BlocksUpTo(lines, k)[j], lines[k])
            else BlocksUpTo(lines, k)[j]
  {
    hide Begins, IsBlankLine, IsTopBullet, BlockAt, Beginnings, BlocksUpTo, NonBlank;
    BeginningsNext(lines, k);
    BlockGrows(lines, Beginnings(lines, k)[j], k);
  }

  function NewBlock(l: BodyLine): TextBlock { TextBlock(if IsTopBullet(l.text) then Bullet else Paragraph, [l]) }

  /** What line `k` does to the blocks. */
  function WithLine(lines: seq<BodyLine>, k: nat): seq<TextBlock>
    requires k < |lines|
  {
    var before := BlocksUpTo(lines, k);
    if Begins(lines, k) then before + [NewBlock(lines[k])]
    else if before == [] then before
    else before[..|before| - 1] + [WithText(before[|before| - 1], lines[k])]
  }

  lemma OneMoreBlockLine(lines: seq<BodyLine>, k: nat)
    requires k < |lines|
    ensures BlocksUpTo(lines, k + 1) == WithLine(lines, k)
  {
    hide Begins, WithText, NewBlock, BlockAt, Beginnings, BlocksUpTo, Stop, IsRising;
    BeginningsNext(lines, k);
    var b := Beginnings(lines, k);
    forall j | 0 <= j < |b|
      ensures BlocksUpTo(lines, k + 1)[j] == WithLine(lines, k)[j]
    {
      BlockAfterLine(lines, k, j);
    }
    if Begins(lines, k) {
      LastStop(Beginnings(lines, k + 1), k + 1);
      BlockStarts(lines, k);
    }
  }

  lemma LastStop(b: seq<nat>, k: nat)
    requires b != [] && IsRising(b, k)
    ensures Stop(b, |b| - 1, k) == k
  {
  }

  lemma BeginsWithText(lines: seq<BodyLine>, k: nat)
    requires k < |lines|
    ensures Begins(lines, k) ==> !IsBlankLine(lines[k])
    ensures NonBlank([]) == []
  {
  }

  /** A non-blank line that begins no block has a block above it. */
  lemma {:induction false} SomeBlockAbove(lines: seq<BodyLine>, k: nat)
    requires k <= |lines|
    ensures Beginnings(lines, k) == [] <==> NonBlank(lines[..k]) == []
  {
    hide IsBlankLine, IsTopBullet;
    if k > 0 {
      SomeBlockAbove(lines, k - 1);
      BeginningsNext(lines, k - 1);
      assert lines[..k][..k - 1] == lines[..k - 1];
    }
  }

  /** The three things line `k` can do, and when it begins a block. */
  lemma LineCases(lines: seq<BodyLine>, k: nat)
    requires k < |lines|
    ensures var (l, before, after) := (lines[k], BlocksUpTo(lines, k), BlocksUpTo(lines, k + 1));
            && (Begins(lines, k) <==>
                  && !IsBlankLine(l)
                  && (IsTopBullet(l.text) || before == []
                      || (k > 0 && IsBlankLine(lines[k - 1]) && !IsIndented(l.text))))
            && (IsBlankLine(l) ==> after == before)
            && (Begins(lines, k) ==> after == before + [NewBlock(l)])
            && (!IsBlankLine(l) && !Begins(lines, k) ==>
                  && before != []
                  && after == before[..|before| - 1]
                              + [TextBlock(before[|before| - 1].kind, before[|before| - 1].lines + [l])])
  {
    hide IsBlankLine, IsTopBullet, IsIndented, BlocksUpTo, Beginnings, NonBlank, NewBlock;
    OneMoreBlockLine(lines, k);
    SomeBlockAbove(lines, k);
    BlockCount(lines, k);
    var before := BlocksUpTo(lines, k);
    if before != [] {
      assert before == before[..|before| - 1] + [before[|before| - 1]];
    }
  }

  /** `groupBlocks`: `afterBlank` says whether a blank line has passed since the last other one. */
  method GroupBlocks(lines: seq<BodyLine>) returns (blocks: seq<TextBlock>)
    ensures blocks == BlocksUpTo(lines, |lines|)
  {
    hide IsTopBullet, Trim, IsIndented, BlocksUpTo, Begins;
    blocks := [];
    var afterBlank := false;
    NoBlocks(lines);
    for k := 0 to |lines|
      invariant blocks == BlocksUpTo(lines, k)
      invariant k > 0 ==> afterBlank == IsBlankLine(lines[k - 1])
    {
      LineCases(lines, k);
      var line := lines[k];
      if Trim(line.text) == "" {
        afterBlank := true;
        continue;
      }
      if IsTopBullet(line.text) {
        blocks := blocks + [TextBlock(Bullet, [line])];
      } else if blocks != [] && (IsIndented(line.text) || !afterBlank) {
        var last := |blocks| - 1;
        blocks := blocks[..last] + [TextBlock(blocks[last].kind, blocks[last].lines + [line])];
      } else {
        blocks := blocks + [TextBlock(Paragraph, [line])];
      }
      afterBlank := false;
    }
  }

  lemma NoBlocks(lines: seq<BodyLine>)
    ensures BlocksUpTo(lines, 0) == [] && Beginnings(lines, 0) == []
  {
  }

  function AllLines(blocks: seq<TextBlock>): seq<BodyLine> {
    if blocks == [] then [] else AllLines(blocks[..|blocks| - 1]) + blocks[|blocks| - 1].lines
  }

  /** The blocks partition the non-blank lines, in order. */
  lemma {:induction false} BlocksPartition(lines: seq<BodyLine>, k: nat)
    requires k <= |lines|
    ensures AllLines(BlocksUpTo(lines, k)) == NonBlank(lines[..k])
  {
    hide IsBlankLine, Begins, BlocksUpTo, AllLines, NonBlank, Beginnings;
    if k == 0 {
      NoBlocks(lines);
      NothingAtAll(lines);
    } else {
      BlocksPartition(lines, k - 1);
      OneMoreBlockLine(lines, k - 1);
      OneMoreNonBlank(lines, 0, k - 1);
      assert lines[0..k] == lines[..k] && lines[0..k - 1] == lines[..k - 1];
      SomeBlockAbove(lines, k - 1);
      BlockCount(lines, k - 1);
      BeginsWithText(lines, k - 1);
      FirstBegins(lines, k - 1);
      LineJoins(lines, k - 1);
    }
  }

  lemma NothingAtAll(lines: seq<BodyLine>)
    ensures AllLines([]) == [] == NonBlank(lines[..0])
  {
  }

  /** A line more in a new or in the last block is a line more in all. */
  lemma LineJoins(lines: seq<BodyLine>, k: nat)
    requires k < |lines|
    ensures Begins(lines, k) || BlocksUpTo(lines, k) != [] || IsBlankLine(lines[k]) ==>
              AllLines(WithLine(lines, k)) ==
              AllLines(BlocksUpTo(lines, k))
              + if Begins(lines, k) || (BlocksUpTo(lines, k) != [] && !IsBlankLine(lines[k])) then [lines[k]] else []
  {
    hide IsBlankLine, Begins, BlocksUpTo, AllLines, IsTopBullet;
    var before := BlocksUpTo(lines, k);
    OneMoreBlock(before, NewBlock(lines[k]));
    if before != [] {
      var (front, last) := (before[..|before| - 1], before[|before| - 1]);
      assert before == front + [last];
      OneMoreBlock(front, last);
      OneMoreBlock(front, WithText(last, lines[k]));
    }
  }

  lemma OneMoreBlock(blocks: seq<TextBlock>, x: TextBlock)
    ensures AllLines(blocks + [x]) == AllLines(blocks) + x.lines
  {
    assert (blocks + [x])[..|blocks|] == blocks;
  }

  lemma BlockCount(lines: seq<BodyLine>, k: nat)
    requires k <= |lines|
    ensures |BlocksUpTo(lines, k)| == |Beginnings(lines, k)|
  {
  }

  lemma FirstBegins(lines: seq<BodyLine>, k: nat)
    requires k < |lines|
    ensures NonBlank(lines[..k]) == [] ==> (Begins(lines, k) <==> !IsBlankLine(lines[k]))
  {
  }

  // ----- the line a hit stands on -----

  /** Where line `k` of a block starts when the lines are joined by single characters. */
  function StartOf(lines: seq<BodyLine>, k: nat): nat
    requires k <= |lines|
  {
    if k == 0 then 0 else StartOf(lines, k - 1) + |lines[k - 1].text| + 1
  }

  /** The line that holds offset `at` of the joined text. */
  method LineHolding(lines: seq<BodyLine>, at: nat) returns (k: nat)
    requires at < StartOf(lines, |lines|)
    ensures k < |lines| && StartOf(lines, k) <= at < StartOf(lines, k + 1)
  {
    k := 0;
    var start := 0;
    while at >= start + |lines[k].text| + 1
      invariant k < |lines| && start == StartOf(lines, k) && start <= at
      decreases |lines| - k
    {
      start := start + |lines[k].text| + 1;
      k := k + 1;
    }
  }

  function Texts(lines: seq<BodyLine>): (texts: seq<string>)
    ensures |texts| == |lines| && forall k | 0 <= k < |lines| :: texts[k] == lines[k].text
  {
    seq(|lines|, k requires 0 <= k < |lines| => lines[k].text)
  }

  /** The lines of a block as one text. */
  function Joined(lines: seq<BodyLine>): string { if lines == [] then "" else Join(Texts(lines), ' ') }

  lemma {:induction false} JoinedLength(lines: seq<BodyLine>)
    ensures |Joined(lines)| == if lines == [] then 0 else StartOf(lines, |lines|) - 1
  {
    if lines == [] {
    } else if |lines| == 1 {
      assert StartOf(lines, 0) == 0;
    } else {
      var front := lines[..|lines| - 1];
      JoinedLength(front);
      StartOfFront(lines, |lines| - 1);
      assert Texts(lines) == Texts(front) + [lines[|lines| - 1].text];
      JoinConcat(Texts(front), [lines[|lines| - 1].text], ' ');
    }
  }

  lemma {:induction false} StartOfFront(lines: seq<BodyLine>, k: nat)
    requires k < |lines|
    ensures StartOf(lines[..|lines| - 1], k) == StartOf(lines, k)
  {
    if k > 0 {
      StartOfFront(lines, k - 1);
    }
  }

  lemma {:induction false} StartsAscend(lines: seq<BodyLine>, k: nat, n: nat)
    requires k < n <= |lines|
    ensures StartOf(lines, k) + |lines[k].text| + 1 <= StartOf(lines, n)
  {
    if k + 1 < n {
      StartsAscend(lines, k, n - 1);
    }
  }

  /** Line `k` stands in the joined text where it is said to start, with a space behind it unless it is
      the last one. */
  lemma {:induction false} LineInJoined(lines: seq<BodyLine>, k: nat)
    requires k < |lines|
    ensures var (text, start, end) := (Joined(lines), StartOf(lines, k), StartOf(lines, k) + |lines[k].text|);
            && end <= |text| && text[start..end] == lines[k].text
            && (k + 1 < |lines| ==> end < |text| && text[end] == ' ')
            && (k + 1 == |lines| ==> end == |text|)
  {
    hide Joined;
    var last := |lines| - 1;
    var (front, tail) := (lines[..last], lines[last].text);
    OneMoreJoined(lines);
    JoinedLength(lines);
    if k == last {
      var above := if last == 0 then "" else Joined(front) + " ";
      assert Joined(lines) == above + tail && |above| == StartOf(lines, k);
      assert (above + tail)[|above|..|above| + |tail|] == tail;
    } else {
      LineInJoined(front, k);
      StartOfFront(lines, k);
      StartsAscend(lines, k, last);
      StandsAbove(Joined(front), " " + tail, StartOf(lines, k), |lines[k].text|);
    }
  }

  lemma {:induction false} OneMoreJoined(lines: seq<BodyLine>)
    requires lines != []
    ensures var (front, tail) := (lines[..|lines| - 1], lines[|lines| - 1].text);
            && Joined(lines) == (if front == [] then tail else Joined(front) + (" " + tail))
            && (front != [] ==> |Joined(front)| + 1 == StartOf(lines, |lines| - 1))
  {
    var (front, tail) := (lines[..|lines| - 1], lines[|lines| - 1].text);
    if front != [] {
      assert Texts(lines) == Texts(front) + [tail];
      JoinConcat(Texts(front), [tail], ' ');
      JoinedLength(front);
      StartOfFront(lines, |front|);
    }
  }

  lemma StandsAbove(a: string, b: string, i: nat, n: nat)
    requires i + n <= |a|
    ensures (a + b)[i..i + n] == a[i..i + n]
  {
  }

  // ----- the first disposition -----

  datatype PhraseMatch = PhraseMatch(index: nat, length: nat)

  type Phrases = string -> seq<PhraseMatch>

  /** What a pattern engine promises of phrases that begin with a letter: a match is not empty, lies in
      its sentence, and does not begin with a space. */
  ghost predicate InSentence(phrases: Phrases) {
    forall s: string, m | m in phrases(s) :: 0 < m.length && m.index + m.length <= |s| && s[m.index] != ' '
  }

  /** A phrase of sentence `k` that is neither negated nor followed by a "none". */
  predicate Counts(phrases: Phrases, dropped: (string, PhraseMatch) -> bool, parts: seq<string>, k: nat, m: PhraseMatch)
    requires k < |parts|
  {
    m in phrases(parts[k]) && !dropped(parts[k], m)
  }

  /** Offset `at` of the text is where a counting phrase of one of its first `n` sentences starts. */
  ghost predicate IsDisposition(phrases: Phrases, dropped: (string, PhraseMatch) -> bool, parts: seq<string>, n: nat, at: nat)
    requires n <= |parts|
  {
    exists k, m | 0 <= k < n && Counts(phrases, dropped, parts, k, m) :: at == OffsetOf(parts, k) + m.index
  }

  ghost predicate IsFirst(phrases: Phrases, dropped: (string, PhraseMatch) -> bool, parts: seq<string>, n: nat, first: Option<nat>)
    requires n <= |parts|
  {
    && (first.Some? ==> IsDisposition(phrases, dropped, parts, n, first.value))
    && forall at: nat :: IsDisposition(phrases, dropped, parts, n, at) ==> first.Some? && first.value <= at
  }

  /** The smaller of an offset seen and a new one. */
  function Sooner(first: Option<nat>, at: nat): Option<nat> {
    if first.None? || at < first.value then Some(at) else first
  }

  /** The matches of sentence `k` before match `j`, and all sentences before it. */
  ghost predicate IsFirstWithin(phrases: Phrases, dropped: (string, PhraseMatch) -> bool, parts: seq<string>, k: nat,
                                found: seq<PhraseMatch>, j: nat, first: Option<nat>)
    requires k < |parts| && j <= |found|
  {
    && (first.Some? ==> IsDisposition(phrases, dropped, parts, k, first.value)
                        || exists i | 0 <= i < j :: !dropped(parts[k], found[i]) && first.value == OffsetOf(parts, k) + found[i].index)
    && (forall at: nat :: IsDisposition(phrases, dropped, parts, k, at) ==> first.Some? && first.value <= at)
    && (forall i | 0 <= i < j && !dropped(parts[k], found[i]) ::
          first.Some? && first.value <= OffsetOf(parts, k) + found[i].index)
  }

  lemma SentenceDone(phrases: Phrases, dropped: (string, PhraseMatch) -> bool, parts: seq<string>, k: nat, first: Option<nat>)
    requires k < |parts| && IsFirstWithin(phrases, dropped, parts, k, phrases(parts[k]), |phrases(parts[k])|, first)
    ensures IsFirst(phrases, dropped, parts, k + 1, first)
  {
    var found := phrases(parts[k]);
    if first.Some? && !IsDisposition(phrases, dropped, parts, k, first.value) {
      var i :| 0 <= i < |found| && !dropped(parts[k], found[i]) && first.value == OffsetOf(parts, k) + found[i].index;
      assert Counts(phrases, dropped, parts, k, found[i]);
    }
    var n := k + 1;
    forall at: nat | IsDisposition(phrases, dropped, parts, n, at)
      ensures first.Some? && first.value <= at
    {
      var l, m :| 0 <= l < k + 1 && Counts(phrases, dropped, parts, l, m) && at == OffsetOf(parts, l) + m.index;
      if l == k {
        var i :| 0 <= i < |found| && found[i] == m;
      } else {
        assert IsDisposition(phrases, dropped, parts, k, at);
      }
    }
  }

  /** Where a disposition starts the text goes on with its phrase. */
  lemma DispositionInText(phrases: Phrases, dropped: (string, PhraseMatch) -> bool, text: string, n: nat, at: nat)
    requires InSentence(phrases) && n <= |SplitSentences(text)|
    requires IsDisposition(phrases, dropped, SplitSentences(text), n, at)
    ensures at < |text| && text[at] != ' '
  {
    hide SplitSentences;
    var parts := SplitSentences(text);
    var k, m :| 0 <= k < n && Counts(phrases, dropped, parts, k, m) && at == OffsetOf(parts, k) + m.index;
    var before, after := SentenceInLine(text, k);
    assert text == before + parts[k] + after;
  }

  lemma FirstIsDisposition(phrases: Phrases, dropped: (string, PhraseMatch) -> bool, parts: seq<string>, first: Option<nat>)
    requires IsFirst(phrases, dropped, parts, |parts|, first) && first.Some?
    ensures IsDisposition(phrases, dropped, parts, |parts|, first.value)
  {
    hide IsDisposition;
  }

  /** `firstDispositionIndex`: the least offset at which a counting phrase starts. */
  method FirstDispositionIndex(phrases: Phrases, dropped: (string, PhraseMatch) -> bool, text: string)
    returns (first: Option<nat>)
    ensures IsFirst(phrases, dropped, SplitSentences(text), |SplitSentences(text)|, first)
    ensures InSentence(phrases) && first.Some? ==> first.value < |text| && text[first.value] != ' '
  {
    hide SplitSentences, IsDisposition, IsFirst, InSentence;
    var offset := 0;
    first := None;
    var parts := SplitSentences(text);
    NoDisposition(phrases, dropped, parts);
    for k := 0 to |parts|
      invariant offset == OffsetOf(parts, k) && IsFirst(phrases, dropped, parts, k, first)
    {
      var found := phrases(parts[k]);
      SentenceBegun(phrases, dropped, parts, k, first);
      for j := 0 to |found|
        invariant IsFirstWithin(phrases, dropped, parts, k, found, j, first)
      {
        if dropped(parts[k], found[j]) {
          continue;
        }
        first := Sooner(first, offset + found[j].index);
      }
      SentenceDone(phrases, dropped, parts, k, first);
      offset := offset + |parts[k]| + 2;
    }
    if InSentence(phrases) && first.Some? {
      FirstIsDisposition(phrases, dropped, parts, first);
      DispositionInText(phrases, dropped, text, |parts|, first.value);
    }
  }

  lemma NoDisposition(phrases: Phrases, dropped: (string, PhraseMatch) -> bool, parts: seq<string>)
    ensures IsFirst(phrases, dropped, parts, 0, None)
  {
  }

  lemma SentenceBegun(phrases: Phrases, dropped: (string, PhraseMatch) -> bool, parts: seq<string>, k: nat, first: Option<nat>)
    requires k < |parts| && IsFirst(phrases, dropped, parts, k, first)
    ensures IsFirstWithin(phrases, dropped, parts, k, phrases(parts[k]), 0, first)
  {
    hide IsDisposition;
  }

  /** The line that holds an offset holds it in its own text, not in the space that joins it on. */
  lemma NotTheGap(lines: seq<BodyLine>, k: nat, at: nat)
    requires k < |lines| && StartOf(lines, k) <= at < StartOf(lines, k + 1)
    requires at < |Joined(lines)| && Joined(lines)[at] != ' '
    ensures at < StartOf(lines, k) + |lines[k].text|
    ensures lines[k].text[at - StartOf(lines, k)] == Joined(lines)[at]
  {
    hide Joined;
    LineInJoined(lines, k);
    var (text, start) := (Joined(lines), StartOf(lines, k));
    assert text[start..start + |lines[k].text|] == lines[k].text;
    if at < start + |lines[k].text| {
      assert text[start..start + |lines[k].text|][at - start] == text[at];
    }
  }

  /** `lexicalHitLine`: the number of the block line in whose own text the first counting phrase of the
      joined block starts, and nothing when no phrase counts. */
  method LexicalHitLine(phrases: Phrases, dropped: (string, PhraseMatch) -> bool, block: TextBlock)
    returns (line: Option<nat>)
    requires InSentence(phrases)
    ensures var parts := SplitSentences(Joined(block.lines));
            line.None? <==> IsFirst(phrases, dropped, parts, |parts|, None)
    ensures var parts := SplitSentences(Joined(block.lines));
            line.Some? ==>
              exists k, at: nat | 0 <= k < |block.lines| ::
                && line.value == block.lines[k].line
                && IsFirst(phrases, dropped, parts, |parts|, Some(at))
                && StartOf(block.lines, k) <= at < StartOf(block.lines, k) + |block.lines[k].text|
  {
    hide SplitSentences, Joined, IsDisposition, InSentence;
    var text := Joined(block.lines);
    ghost var parts := SplitSentences(text);
    var first := FirstDispositionIndex(phrases, dropped, text);
    if first.None? {
      return None;
    }
    JoinedLength(block.lines);
    var k := LineHolding(block.lines, first.value);
    NotTheGap(block.lines, k, first.value);
    return Some(block.lines[k].line);
  }
}
