/** The line forms of reservations and of the entries that replace them, written out. */
module ReservationForms {
  import opened DeferredWorkLedger
  import opened DwReservation
  import opened LedgerForms
  import opened NextDwId
  import opened ReplaceReservation
  import opened Text

  // ----- stub headings -----

  predicate IsIdChars(run: string) {
    run != "" && forall k | 0 <= k < |run| :: IsLetterOrDigit(run[k]) || IsSeparating(run[k])
  }

  /** `#` to `######`, a gap, `DW-`, id characters, a colon or none, a gap, and `RESERVED` as a word. */
  predicate IsStubLine(text: string, level: nat, gap: string, run: string, colon: string, space: string, after: string) {
    && text == Run('#', level) + (gap + ("DW-" + (run + (colon + (space + ("RESERVED" + after))))))
    && 1 <= level <= 6 && IsGap(gap) && IsIdChars(run) && (colon == "" || colon == ":") && IsGap(space)
    && (after == "" || !IsLetterOrDigit(after[0]))
  }

  lemma ReservedOf(colon: string, space: string, after: string)
    requires (colon == "" || colon == ":") && IsGap(space) && (after == "" || !IsLetterOrDigit(after[0]))
    ensures AfterReserved(colon + (space + ("RESERVED" + after))) == Some(after)
  {
    hide Span;
    var word := "RESERVED" + after;
    assert word[..8] == "RESERVED" && word[8..] == after && word[0] == 'R';
    GapSpan(space, word);
    assert (space + word)[|space|..] == word && (space + word)[0] == space[0];
    var tail := colon + (space + word);
    if colon == ":" {
      assert tail[0] == ':' && tail[1..] == space + word;
    } else {
      assert tail == space + word;
    }
  }

  lemma ReservedWord(word: string)
    requires StartsWith(word, RESERVED)
    ensures |word| >= |RESERVED| == 8 && word == "RESERVED" + word[|RESERVED|..]
  {
  }

  lemma ReservedForm(tail: string) returns (colon: string, space: string)
    requires AfterReserved(tail).Some?
    ensures var after := AfterReserved(tail).value;
            && (colon == "" || colon == ":") && IsGap(space) && (after == "" || !IsLetterOrDigit(after[0]))
            && tail == colon + (space + ("RESERVED" + after))
  {
    hide Span;
    var rest := if tail != "" && tail[0] == ':' then tail[1..] else tail;
    colon := if tail != "" && tail[0] == ':' then ":" else "";
    var gap := Span(rest, IsBlank);
    space := rest[..gap];
    var word := rest[gap..];
    ReservedWord(word);
    assert rest == space + word;
    assert tail == colon + rest;
  }

  /** What a stub line is: the text behind the word is what the story and the time are read from. */
  lemma StubLineExactly(text: string, after: string)
    ensures AfterStubPrefix(text) == Some(after) <==>
            exists level: nat, gap, run, colon, space :: IsStubLine(text, level, gap, run, colon, space, after)
  {
    hide DwPrefix, AfterReserved, Span, Run;
    if AfterStubPrefix(text) == Some(after) {
      var gap := PrefixForm(text);
      var (level, rest) := DwPrefix(text).value;
      var n := Span(rest, IsIdChar);
      var (run, tail) := (rest[..n], rest[n..]);
      var colon, space := ReservedForm(tail);
      assert rest == run + tail;
      assert forall k | 0 <= k < |run| :: IsIdChar(run[k]);
      assert IsStubLine(text, level, gap, run, colon, space, after);
    }
    if level: nat, gap, run, colon, space :| IsStubLine(text, level, gap, run, colon, space, after) {
      StubLineOf(text, level, gap, run, colon, space, after);
    }
  }

  lemma StubLineOf(text: string, level: nat, gap: string, run: string, colon: string, space: string, after: string)
    requires IsStubLine(text, level, gap, run, colon, space, after)
    ensures AfterStubPrefix(text) == Some(after)
  {
    hide DwPrefix, AfterReserved, Span, Run;
    var tail := colon + (space + ("RESERVED" + after));
    HeadingTextPrefix(level, gap, run + tail);
    assert tail[0] == ':' || tail[0] == space[0];
    SpanOf(run, tail, IsIdChar);
    assert (run + tail)[|run|..] == tail;
    ReservedOf(colon, space, after);
  }

  // ----- its words -----

  predicate IsWord(s: string) { s != "" && forall k | 0 <= k < |s| :: !IsSpace(s[k]) }

  /** White space, a word, and nothing or white space and more: the first word and what follows it. */
  lemma WordsRead(lead: string, word: string, gap: string, more: string, trail: string)
    requires IsBlankText(lead) && IsWord(word) && IsBlankText(gap) && IsBlankText(trail)
    requires if more == "" then gap == "" else gap != "" && !IsSpace(more[0]) && !IsSpace(more[|more| - 1])
    ensures var after := lead + (word + (gap + more)) + trail;
            FirstWord(Trim(after)) == word && AfterFirstWord(Trim(after)) == more
  {
    hide Span, TrimEnd;
    var core := word + (gap + more);
    assert core[|core| - 1] == if more == "" then word[|word| - 1] else more[|more| - 1];
    TrimmedTo(lead, core, trail);
    assert gap + more == "" || (gap + more)[0] == gap[0];
    SpanOf(word, gap + more, NotSpace);
    assert core[..|word|] == word && core[|word|..] == gap + more;
    SpanOf(gap, more, IsSpace);
    assert (gap + more)[|gap|..] == more;
  }

  lemma TrimmedTo(lead: string, core: string, trail: string)
    requires IsBlankText(lead) && IsBlankText(trail)
    requires core != "" && !IsSpace(core[0]) && !IsSpace(core[|core| - 1])
    ensures Trim(lead + core + trail) == core
  {
    hide Span, TrimEnd;
    TrimEndBlank(lead + core, trail);
    SpanOf(lead, core, IsSpace);
    assert (lead + core)[|lead|..] == core;
  }

  /** Behind the word `RESERVED` the first word is the story and the second the time; what is missing is empty. */
  lemma StubWordsExactly(l: LedgerLine, lead: string, story: string, gap: string, time: string, rest: string, trail: string)
    requires l.heading.Some? && AfterStubPrefix(l.text) == Some(lead + (story + (gap + (time + rest))) + trail)
    requires IsBlankText(lead) && IsWord(story) && IsBlankText(gap) && IsBlankText(trail)
    requires if time == "" then gap == "" && rest == "" else gap != "" && IsWord(time)
    requires rest == "" || (IsSpace(rest[0]) && !IsSpace(rest[|rest| - 1]))
    ensures ToReservation(l) == Some(Reservation(l.heading.value, story, time))
  {
    hide AfterStubPrefix, Trim, Span;
    var more := time + rest;
    assert more != "" ==> more[0] == time[0] && more[|more| - 1] == if rest == "" then time[|time| - 1] else rest[|rest| - 1];
    WordsRead(lead, story, gap, more, trail);
    SpanOf(time, rest, NotSpace);
    assert more[..|time|] == time;
  }

  // ----- the entry that replaces a stub -----

  /** The entry's first line is a level-three heading for the id. */
  predicate StartsEntry(wanted: string, entryText: string, gap: string, run: string, tail: string) {
    && StripCr(Lines(entryText)[0]) == HeadingText(3, gap, run, tail) && IsGap(gap) && IsIdRun(run, tail)
    && NormalizeDwId("DW-" + IdToken(run)) == wanted
  }

  /** The entries that are taken: those whose text starts with that heading. */
  lemma AcceptsExactly(wanted: string, entryText: string)
    ensures AcceptsEntry(wanted, entryText) <==> exists gap, run, tail :: StartsEntry(wanted, entryText, gap, run, tail)
  {
    hide ToDwHeading, Split, StripCr, LinesFrom, HeadingsOf, IdToken, NormalizeDwId, HeadingText;
    var raw := Lines(entryText);
    var first := StripCr(raw[0]);
    if AcceptsEntry(wanted, entryText) {
      HeadingOnLineOne(raw);
      var level, gap, run, tail := HeadingForm(first, 1);
      HeadingIsRead(level, gap, run, tail, 1);
      assert StartsEntry(wanted, entryText, gap, run, tail);
    }
    if gap, run, tail :| StartsEntry(wanted, entryText, gap, run, tail) {
      HeadingIsRead(3, gap, run, tail, 1);
      FirstRawHeading(raw);
    }
  }

  // ----- plain ids -----

  lemma PlainNumberExactly(id: string, n: nat)
    ensures PlainNumber(id) == Some(n) <==>
            exists digits :: IsDigits(digits) && id == "dw-" + digits && All(digits, IsDigit) && Number(digits) == n
  {
    hide Number;
    if PlainNumber(id) == Some(n) {
      assert id == "dw-" + id[3..];
      assert IsDigits(id[3..]);
    }
    if digits :| IsDigits(digits) && id == "dw-" + digits && All(digits, IsDigit) && Number(digits) == n {
      assert id[3..] == digits && id[..3] == "dw-";
    }
  }

  // ----- the Reserved section -----

  /** The last line that begins with `## ` is the Reserved heading, but for white space around it. */
  ghost predicate EndsReserved(lines: seq<string>) {
    exists k | 0 <= k < |lines| ::
      && "## " <= lines[k] && Trim(lines[k]) == "## Reserved (not yet written)"
      && forall j | k < j < |lines| :: !("## " <= lines[j])
  }

  lemma {:induction false} LastH2Is(lines: seq<string>)
    ensures match LastH2(lines)
            case None => forall k | 0 <= k < |lines| :: !("## " <= lines[k])
            case Some(h) => exists k | 0 <= k < |lines| ::
                              lines[k] == h && "## " <= h && forall j | k < j < |lines| :: !("## " <= lines[j])
  {
    if lines != [] {
      var (front, last) := (lines[..|lines| - 1], lines[|lines| - 1]);
      LastH2Is(front);
      assert StartsWith(last, "## ") <==> "## " <= last;
      assert forall k | 0 <= k < |front| :: front[k] == lines[k];
    }
  }

  lemma EndsReservedExactly(content: string)
    ensures EndsInReservedSection(content) <==> EndsReserved(Lines(content))
  {
    hide LastH2, Split, Trim;
    LastH2Is(Lines(content));
  }
}
