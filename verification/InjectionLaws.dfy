/** Where the inserted texts stand in a rewritten component. */
module InjectionLaws {
  import opened InjectionPoints
  import opened StableSort
  import opened Text

  /** What the parser promises of its offsets: a use starts at its tag, no two at one, and the instance script's
      content behind the `>` of its own tag. */
  ghost predicate IsParsed(code: string, root: Parsed) {
    && OffsetsOf(code, root)
    && (forall u | u in root.uses :: code[u.start..u.start + 15] == "<InjectionPoint")
    && (forall i, j | 0 <= i < j < |root.uses| :: root.uses[i].start != root.uses[j].start)
    && (root.instance.Some? ==> root.instance.value > 0 && code[root.instance.value - 1] == '>')
  }

  /** What `includes` means: the part stands somewhere in the code. */
  lemma IncludesExactly(code: string, part: string)
    ensures Includes(code, part) <==> exists a: string, b: string :: code == a + part + b
  {
    if i :| 0 <= i <= |code| && StartsWith(code[i..], part) {
      assert code == code[..i] + part + code[i + |part|..];
    }
    if a: string, b: string :| code == a + part + b {
      assert code[|a|..] == part + b && (part + b)[..|part|] == part;
    }
  }

  // ----- where one edit shows -----

  lemma {:induction false} OneTextAt(edits: seq<Edit>, k: nat)
    requires k < |edits| && forall j | 0 <= j < |edits| && j != k :: edits[j].at != edits[k].at
    ensures TextAt(edits, edits[k].at) == edits[k].text
  {
    hide TextAt;
    var (front, last) := (edits[..|edits| - 1], edits[|edits| - 1]);
    assert edits == front + [last];
    TextOneMore(front, last, edits[k].at);
    if k == |front| {
      NothingAt(front, last.at);
      assert last.text + "" == last.text;
    } else {
      OneTextAt(front, k);
      assert "" + edits[k].text == edits[k].text;
    }
  }

  /** A stretch into which nothing is inserted. */
  lemma {:induction false} PlainStretch(code: string, edits: seq<Edit>, from: nat, at: nat)
    requires from <= at <= |code| && forall e | e in edits :: !(from <= e.at < at)
    ensures Weave(code, edits, from) == code[from..at] + Weave(code, edits, at)
    decreases at - from
  {
    hide Weave;
    if from < at {
      WeaveStep(code, edits, from);
      PlainStretch(code, edits, from + 1, at);
      OneFurther(code, from, at);
      Reassociate([code[from]], code[from + 1..at], Weave(code, edits, at));
    }
  }

  /** The text in front of an offset: what is inserted there is still to come. */
  lemma {:induction false} InFrontOf(code: string, edits: seq<Edit>, from: nat, at: nat) returns (left: seq<Piece>)
    requires from <= at <= |code|
    ensures Weave(code, edits, from) == Rendered(left) + Weave(code, edits, at)
    ensures Originals(left) == code[from..at]
    decreases at - from
  {
    hide TextAt, Rendered, Originals;
    NoPieces();
    if from == at {
      left := [];
    } else {
      var rest := InFrontOf(code, edits, from + 1, at);
      var inserted := Inserted(TextAt(edits, from));
      FirstPiece(Kept(code[from]), rest);
      FirstPiece(inserted, [Kept(code[from])] + rest);
      left := [inserted] + ([Kept(code[from])] + rest);
      OneFurther(code, from, at);
      ThreeTexts(TextAt(edits, from), [code[from]], Rendered(rest), Weave(code, edits, at));
    }
  }

  lemma ThreeTexts(a: string, b: string, c: string, d: string)
    ensures a + (b + (c + d)) == (a + (b + c)) + d
  {
  }

  lemma {:induction false} LastPiece(pieces: seq<Piece>, p: Piece)
    ensures Rendered(pieces + [p]) == Rendered(pieces) + if p.Kept? then [p.c] else p.text
    ensures Originals(pieces + [p]) == Originals(pieces) + if p.Kept? then [p.c] else ""
  {
    hide Rendered, Originals;
    NoPieces();
    if pieces == [] {
      assert [] + [p] == [p] + [];
      FirstPiece(p, []);
    } else {
      var (first, rest) := (pieces[0], pieces[1..]);
      assert pieces == [first] + rest && pieces + [p] == [first] + (rest + [p]);
      LastPiece(rest, p);
      FirstPiece(first, rest);
      FirstPiece(first, rest + [p]);
    }
  }

  /** The text behind what is inserted at an offset. */
  lemma Below(code: string, edits: seq<Edit>, at: nat) returns (right: seq<Piece>)
    requires at <= |code|
    ensures Rendered(right) == Behind(code, edits, at) && Originals(right) == code[at..]
  {
    hide TextAt, Rendered, Originals;
    NoPieces();
    if at == |code| {
      right := [];
    } else {
      var rest := Pieces(code, edits, at + 1);
      DeletingRestores(code, edits, at + 1);
      FirstPiece(Kept(code[at]), rest);
      right := [Kept(code[at])] + rest;
      assert code[at..] == [code[at]] + code[at + 1..];
    }
  }

  /** A single text at its offset, between what the code has in front of it and behind it. */
  lemma StandsAlone(code: string, edits: seq<Edit>, k: nat) returns (left: seq<Piece>, right: seq<Piece>)
    requires k < |edits| && edits[k].at <= |code|
    requires forall j | 0 <= j < |edits| && j != k :: edits[j].at != edits[k].at
    ensures Weave(code, edits, 0) == Rendered(left) + (edits[k].text + Rendered(right))
    ensures Originals(left) == code[..edits[k].at] && Originals(right) == code[edits[k].at..]
  {
    hide TextAt, Rendered, Originals, Behind;
    OneTextAt(edits, k);
    left := InFrontOf(code, edits, 0, edits[k].at);
    right := Below(code, edits, edits[k].at);
    assert code[0..edits[k].at] == code[..edits[k].at];
  }

  lemma StandsFirst(code: string, edits: seq<Edit>, k: nat) returns (right: seq<Piece>)
    requires k < |edits| && edits[k].at == 0 && forall j | 0 <= j < |edits| && j != k :: edits[j].at != 0
    ensures Weave(code, edits, 0) == edits[k].text + Rendered(right) && Originals(right) == code
  {
    hide TextAt, Rendered, Originals, Behind;
    OneTextAt(edits, k);
    right := Below(code, edits, 0);
    assert code[0..] == code;
  }

  /** A single text behind a stretch into which nothing is inserted. */
  lemma StandsBehind(code: string, edits: seq<Edit>, k: nat, from: nat) returns (left: seq<Piece>, right: seq<Piece>)
    requires k < |edits| && from < edits[k].at <= |code|
    requires forall j | 0 <= j < |edits| && j != k :: edits[j].at <= from || edits[j].at > edits[k].at
    ensures Weave(code, edits, 0) == Rendered(left) + (code[from..edits[k].at] + (edits[k].text + Rendered(right)))
    ensures Originals(left) == code[..from] && Originals(right) == code[edits[k].at..]
  {
    hide TextAt, Rendered, Originals, Weave, Behind;
    var at := edits[k].at;
    OneTextAt(edits, k);
    left := InFrontOf(code, edits, 0, from);
    right := Below(code, edits, at);
    FromHere(code, edits, from);
    FromHere(code, edits, at);
    forall e | e in edits
      ensures !(from + 1 <= e.at < at)
    {
    }
    PlainStretch(code, edits, from + 1, at);
    OneFurther(code, from, at);
    var inserted := Inserted(TextAt(edits, from));
    LastPiece(left, inserted);
    assert Originals(left) + "" == Originals(left);
    var tail := edits[k].text + Rendered(right);
    Reassociate([code[from]], code[from + 1..at], tail);
    Reassociate(Rendered(left), TextAt(edits, from), code[from..at] + tail);
    left := left + [inserted];
    assert code[0..from] == code[..from];
  }

  lemma FromHere(code: string, edits: seq<Edit>, at: nat)
    requires at <= |code|
    ensures Weave(code, edits, at) == TextAt(edits, at) + Behind(code, edits, at)
    ensures at < |code| ==> Behind(code, edits, at) == [code[at]] + Weave(code, edits, at + 1)
  {
  }

  // ----- the rewritten component -----

  /** Every edit the rewrite makes: one for each use without entries, then the imports. */
  function AllEdits(root: Parsed, identifiers: seq<string>, quoted: string -> string): (edits: seq<Edit>)
    requires |identifiers| == |Todo(root.uses)| > 0 && forall u | u in Todo(root.uses) :: u.name.Some?
  {
    EntriesEdits(Todo(root.uses), identifiers) + [BlockEdit(root, ImportLines(Todo(root.uses), identifiers, quoted))]
  }

  /** Inside a tag name is neither a `<` nor a `>`. */
  lemma TagChars(code: string, a: nat, i: nat)
    requires a < i <= a + 15 <= |code| && code[a..a + 15] == "<InjectionPoint"
    ensures code[i - 1] != '>' && (i < a + 15 ==> code[i] != '<')
  {
    var tag := code[a..a + 15];
    assert code[i - 1] == tag[i - 1 - a];
    assert i < a + 15 ==> code[i] == tag[i - a];
  }

  /** So no two tags overlap. */
  lemma TagsApart(code: string, a: nat, b: nat)
    requires a < b && b + 15 <= |code|
    requires code[a..a + 15] == "<InjectionPoint" == code[b..b + 15]
    ensures a + 15 <= b
  {
    assert code[b] == code[b..b + 15][0] == '<';
    if b < a + 15 {
      TagChars(code, a, b);
    }
  }

  lemma {:induction false} TodoApart(uses: seq<Use>)
    requires forall i, j | 0 <= i < j < |uses| :: uses[i].start != uses[j].start
    ensures forall i, j | 0 <= i < j < |Todo(uses)| :: Todo(uses)[i].start != Todo(uses)[j].start
  {
    if uses != [] {
      var front := uses[..|uses| - 1];
      TodoApart(front);
      TodoAre(front);
      forall i | 0 <= i < |Todo(front)|
        ensures Todo(front)[i].start != uses[|uses| - 1].start
      {
        assert Todo(front)[i] in front;
      }
    }
  }

  lemma OtherTag(code: string, u: Use, v: Use)
    requires u.start + 15 <= |code| && code[u.start..u.start + 15] == "<InjectionPoint"
    requires v.start + 15 <= |code| && code[v.start..v.start + 15] == "<InjectionPoint"
    requires u.start != v.start
    ensures v.start + 15 <= u.start || v.start + 15 > u.start + 15
  {
    if v.start < u.start {
      TagsApart(code, v.start, u.start);
    }
  }

  lemma OutsideTags(code: string, root: Parsed, lines: seq<string>, u: Use)
    requires IsParsed(code, root) && u in root.uses && lines != []
    ensures BlockEdit(root, lines).at <= u.start || BlockEdit(root, lines).at > u.start + 15
  {
    hide Join;
    var at := BlockEdit(root, lines).at;
    if u.start < at <= u.start + 15 {
      TagChars(code, u.start, at);
    }
  }

  /** Where the edits of a parsed component are: behind their tags, no other in between, and the imports nowhere
      inside a tag name or right behind one. */
  lemma EditsApart(code: string, root: Parsed, identifiers: seq<string>, quoted: string -> string, k: nat)
    requires IsParsed(code, root)
    requires |identifiers| == |Todo(root.uses)| && forall u | u in Todo(root.uses) :: u.name.Some?
    requires k < |Todo(root.uses)|
    ensures var (edits, u) := (AllEdits(root, identifiers, quoted), Todo(root.uses)[k]);
            && k < |edits| && u in root.uses && edits[k] == Edit(u.start + 15, " entries={" + identifiers[k] + "}")
            && forall j | 0 <= j < |edits| && j != k :: edits[j].at <= u.start || edits[j].at > u.start + 15
  {
    hide BlockEdit, Todo;
    var (edits, todo) := (AllEdits(root, identifiers, quoted), Todo(root.uses));
    TodoAre(root.uses);
    TodoApart(root.uses);
    assert todo[k] in root.uses;
    var u := todo[k];
    forall j | 0 <= j < |todo| && j != k
      ensures edits[j].at <= u.start || edits[j].at > u.start + 15
    {
      assert todo[j] in root.uses;
      OtherTag(code, u, todo[j]);
    }
    OutsideTags(code, root, ImportLines(todo, identifiers, quoted), u);
  }

  /** In the output the tag of each use without entries is followed at once by its entries; in front of the tag
      and behind it is the code's own text, with what else is inserted. */
  lemma TagIsGivenEntries(code: string, root: Parsed, identifiers: seq<string>, quoted: string -> string, k: nat)
    returns (left: seq<Piece>, right: seq<Piece>)
    requires IsParsed(code, root)
    requires |identifiers| == |Todo(root.uses)| && forall u | u in Todo(root.uses) :: u.name.Some?
    requires k < |Todo(root.uses)|
    ensures var (edits, at) := (AllEdits(root, identifiers, quoted), Todo(root.uses)[k].start);
            && Weave(code, edits, 0) ==
               Rendered(left) + ("<InjectionPoint" + (" entries={" + identifiers[k] + "}" + Rendered(right)))
            && at + 15 <= |code| && Originals(left) == code[..at] && Originals(right) == code[at + 15..]
  {
    hide Weave, Rendered, Originals, AllEdits;
    EditsApart(code, root, identifiers, quoted, k);
    var u := Todo(root.uses)[k];
    left, right := StandsBehind(code, AllEdits(root, identifiers, quoted), k, u.start);
  }

  /** The import lines, one for each use without entries. */
  ghost predicate AreImports(lines: seq<string>, todo: seq<Use>, identifiers: seq<string>, quoted: string -> string)
    requires |todo| == |identifiers| && forall u | u in todo :: u.name.Some?
  {
    && |lines| == |todo|
    && forall k | 0 <= k < |todo| ::
         lines[k] == "import " + identifiers[k] + " from " + quoted("virtual:pv-inject/" + todo[k].name.value)
  }

  /** The imports stand at the start of the instance script's content, or in a script block of their own in front
      of everything when the component has none. */
  lemma ImportsStand(code: string, root: Parsed, identifiers: seq<string>, quoted: string -> string)
    returns (lines: seq<string>, left: seq<Piece>, right: seq<Piece>)
    requires IsParsed(code, root)
    requires |identifiers| == |Todo(root.uses)| > 0 && forall u | u in Todo(root.uses) :: u.name.Some?
    ensures AreImports(lines, Todo(root.uses), identifiers, quoted)
    ensures var output := Weave(code, AllEdits(root, identifiers, quoted), 0);
            match root.instance
            case None =>
              && output == "<script" + root.lang + ">\n" + Join(lines, '\n') + "\n</script>\n" + Rendered(right)
              && Originals(right) == code
            case Some(at) =>
              && output == Rendered(left) + ("\n" + Join(lines, '\n') + "\n" + Rendered(right))
              && at <= |code| && Originals(left) == code[..at] && Originals(right) == code[at..]
  {
    hide Weave, Rendered, Originals, Join;
    var todo, edits := Todo(root.uses), AllEdits(root, identifiers, quoted);
    lines := ImportLines(todo, identifiers, quoted);
    forall j | 0 <= j < |todo|
      ensures edits[j].at != edits[|todo|].at
    {
      EditsApart(code, root, identifiers, quoted, j);
    }
    EditsInCode(code, root, todo, identifiers, lines);
    assert edits[|todo|] in edits;
    if root.instance.None? {
      left := [];
      right := StandsFirst(code, edits, |todo|);
    } else {
      left, right := StandsAlone(code, edits, |todo|);
    }
  }
}
