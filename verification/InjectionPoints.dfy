/** Rewriting the injection points of a component. */
module InjectionPoints {
  import opened StableSort
  import opened Text

  const COMPONENT_NAME: string := "InjectionPoint"
  const IMPORT_NAME: string := "__pvInject_"
  const MODULE_PREFIX: string := "virtual:pv-inject/"

  // ----- edits -----

  datatype Edit = Edit(at: nat, text: string)

  /** The comparator of the edit sort. */
  predicate LaterFirst(a: Edit, b: Edit) { a.at > b.at }

  function InsertText(s: string, e: Edit): string
    requires e.at <= |s|
  {
    s[..e.at] + e.text + s[e.at..]
  }

  /** The texts joined last one first. */
  function Backwards(edits: seq<Edit>): string {
    if edits == [] then "" else Backwards(edits[1..]) + edits[0].text
  }

  /** What is inserted at one offset; of several texts the last listed comes first. */
  function TextAt(edits: seq<Edit>, at: nat): string { Backwards(TiedWith(edits, Edit(at, ""), LaterFirst)) }

  /** `code` from offset `at` on, every text inserted at its own offset of `code`. */
  function Weave(code: string, edits: seq<Edit>, at: nat): string
    requires at <= |code|
    decreases |code| - at, 1
  {
    TextAt(edits, at) + Behind(code, edits, at)
  }

  /** From the character at offset `at` on, without what is inserted before it. */
  function Behind(code: string, edits: seq<Edit>, at: nat): string
    requires at <= |code|
    decreases |code| - at, 0
  {
    if at == |code| then "" else [code[at]] + Weave(code, edits, at + 1)
  }

  ghost predicate InCode(code: string, edits: seq<Edit>) { forall e | e in edits :: e.at <= |code| }

  lemma DescendingIsStrictWeak()
    ensures StrictWeak(LaterFirst)
  {
  }

  lemma {:induction false} BackwardsOneMore(edits: seq<Edit>, e: Edit)
    ensures Backwards(edits + [e]) == e.text + Backwards(edits)
  {
    if edits == [] {
      assert edits + [e] == [e] && [e][1..] == [];
    } else {
      assert (edits + [e])[1..] == edits[1..] + [e];
      BackwardsOneMore(edits[1..], e);
    }
  }

  lemma TextOneMore(edits: seq<Edit>, e: Edit, at: nat)
    ensures TextAt(edits + [e], at) == (if e.at == at then e.text else "") + TextAt(edits, at)
  {
    hide TiedWith, Backwards;
    OneMoreTied(edits, e, LaterFirst, Edit(at, ""));
    if e.at == at {
      BackwardsOneMore(TiedWith(edits, Edit(at, ""), LaterFirst), e);
    } else {
      assert TiedWith(edits, Edit(at, ""), LaterFirst) + [] == TiedWith(edits, Edit(at, ""), LaterFirst);
    }
  }

  /** An edit before the offset does not show after it. */
  lemma {:induction false} WeaveBehind(code: string, edits: seq<Edit>, e: Edit, at: nat)
    requires e.at < at <= |code|
    ensures Weave(code, edits + [e], at) == Weave(code, edits, at)
    decreases |code| - at
  {
    hide TextAt;
    TextOneMore(edits, e, at);
    if at < |code| {
      WeaveBehind(code, edits, e, at + 1);
    }
  }

  lemma {:induction false} SameBehind(code: string, edits: seq<Edit>, e: Edit)
    requires e.at <= |code|
    ensures Behind(code, edits + [e], e.at) == Behind(code, edits, e.at)
  {
    hide Weave;
    if e.at < |code| {
      WeaveBehind(code, edits, e, e.at + 1);
    }
  }

  lemma {:induction false} WeaveHere(code: string, edits: seq<Edit>, e: Edit)
    requires e.at <= |code|
    ensures Weave(code, edits + [e], e.at) == e.text + Weave(code, edits, e.at)
  {
    hide TextAt, Behind;
    TextOneMore(edits, e, e.at);
    SameBehind(code, edits, e);
    Reassociate(e.text, TextAt(edits, e.at), Behind(code, edits, e.at));
  }

  lemma WeaveStep(code: string, edits: seq<Edit>, at: nat)
    requires at < |code| && forall e | e in edits :: e.at != at
    ensures Weave(code, edits, at) == [code[at]] + Weave(code, edits, at + 1)
  {
    hide TextAt;
    NothingAt(edits, at);
    assert "" + Behind(code, edits, at) == Behind(code, edits, at);
  }

  lemma OneFurther(code: string, from: nat, at: nat)
    requires from < at <= |code|
    ensures code[from..at] == [code[from]] + code[from + 1..at]
  {
  }

  /** Before the first edit the text is the code's own. */
  lemma {:induction false} WeaveBefore(code: string, edits: seq<Edit>, from: nat, at: nat)
    requires from <= at <= |code| && forall e | e in edits :: e.at >= at
    ensures Weave(code, edits, from) == code[from..at] + Weave(code, edits, at)
    decreases at - from
  {
    hide Weave;
    if from < at {
      WeaveStep(code, edits, from);
      WeaveBefore(code, edits, from + 1, at);
      OneFurther(code, from, at);
      Reassociate([code[from]], code[from + 1..at], Weave(code, edits, at));
    }
  }

  lemma NothingAt(edits: seq<Edit>, at: nat)
    requires forall e | e in edits :: e.at != at
    ensures TextAt(edits, at) == ""
  {
    NoneTied(edits, Edit(at, ""), LaterFirst);
  }

  /** Applying the edits one after the other, each on the result of the one before. */
  function Applied(code: string, edits: seq<Edit>): (r: Option<string>) {
    if edits == [] then Some(code)
    else
      var before := Applied(code, edits[..|edits| - 1]);
      var e := edits[|edits| - 1];
      if before.Some? && e.at <= |before.value| then Some(InsertText(before.value, e)) else None
  }

  lemma CutAt(a: string, b: string, e: Edit)
    requires |a| == e.at
    ensures InsertText(a + b, e) == (a + e.text) + b
  {
    assert (a + b)[..e.at] == a && (a + b)[e.at..] == b;
  }

  /** Applied from the end of the code backwards, the edits land at their original offsets. */
  lemma {:induction false} BackwardsIsWeave(code: string, edits: seq<Edit>)
    requires InCode(code, edits) && IsSorted(edits, LaterFirst)
    ensures Applied(code, edits) == Some(Weave(code, edits, 0))
  {
    hide Weave;
    if edits == [] {
      NoEdits(code, 0);
    } else {
      var (front, e) := (edits[..|edits| - 1], edits[|edits| - 1]);
      BackwardsIsWeave(code, front);
      assert edits == front + [e];
      assert forall d | d in edits :: d.at >= e.at;
      WeaveBefore(code, front, 0, e.at);
      WeaveBefore(code, edits, 0, e.at);
      WeaveHere(code, front, e);
      CutAt(code[0..e.at], Weave(code, front, e.at), e);
      Reassociate(code[0..e.at], e.text, Weave(code, front, e.at));
    }
  }

  lemma {:induction false} NoEdits(code: string, at: nat)
    requires at <= |code|
    ensures Weave(code, [], at) == code[at..]
    decreases |code| - at
  {
    if at < |code| {
      NoEdits(code, at + 1);
      assert code[at..] == [code[at]] + code[at + 1..];
    }
  }

  lemma {:induction false} SortKeepsWeave(code: string, edits: seq<Edit>, at: nat)
    requires at <= |code|
    ensures Weave(code, Sort(edits, LaterFirst), at) == Weave(code, edits, at)
    decreases |code| - at
  {
    hide Sort, TiedWith, StrictWeak;
    DescendingIsStrictWeak();
    SortKeepsOrder(edits, LaterFirst, Edit(at, ""));
    if at < |code| {
      SortKeepsWeave(code, edits, at + 1);
    }
  }

  /** Sorting the edits by descending offset and applying them in turn inserts every text at its original
      offset, all at once. */
  lemma SortedEditsWeave(code: string, edits: seq<Edit>)
    requires InCode(code, edits)
    ensures Applied(code, Sort(edits, LaterFirst)) == Some(Weave(code, edits, 0))
  {
    hide Sort, Weave, Applied, StrictWeak;
    SortHas(edits, LaterFirst);
    DescendingIsStrictWeak();
    SortSorts(edits, LaterFirst);
    BackwardsIsWeave(code, Sort(edits, LaterFirst));
    SortKeepsWeave(code, edits, 0);
  }

  /** A stretch of the rewritten code: an original character, or the text inserted at one offset. */
  datatype Piece = Kept(c: char) | Inserted(text: string)

  function Pieces(code: string, edits: seq<Edit>, at: nat): seq<Piece>
    requires at <= |code|
    decreases |code| - at
  {
    [Inserted(TextAt(edits, at))] + if at == |code| then [] else [Kept(code[at])] + Pieces(code, edits, at + 1)
  }

  function Rendered(pieces: seq<Piece>): string {
    if pieces == [] then ""
    else (if pieces[0].Kept? then [pieces[0].c] else pieces[0].text) + Rendered(pieces[1..])
  }

  function Originals(pieces: seq<Piece>): string {
    if pieces == [] then "" else (if pieces[0].Kept? then [pieces[0].c] else "") + Originals(pieces[1..])
  }

  lemma FirstPiece(p: Piece, rest: seq<Piece>)
    ensures Rendered([p] + rest) == (if p.Kept? then [p.c] else p.text) + Rendered(rest)
    ensures Originals([p] + rest) == (if p.Kept? then [p.c] else "") + Originals(rest)
  {
    assert ([p] + rest)[1..] == rest;
  }

  /** Deleting the inserted texts gives the code back. */
  lemma {:induction false} DeletingRestores(code: string, edits: seq<Edit>, at: nat)
    requires at <= |code|
    ensures Rendered(Pieces(code, edits, at)) == Weave(code, edits, at)
    ensures Originals(Pieces(code, edits, at)) == code[at..]
    decreases |code| - at
  {
    hide TextAt, Rendered, Originals;
    var inserted := Inserted(TextAt(edits, at));
    NoPieces();
    if at == |code| {
      FirstPiece(inserted, []);
    } else {
      var rest := Pieces(code, edits, at + 1);
      DeletingRestores(code, edits, at + 1);
      FirstPiece(Kept(code[at]), rest);
      FirstPiece(inserted, [Kept(code[at])] + rest);
      assert code[at..] == [code[at]] + code[at + 1..];
    }
  }

  lemma NoPieces()
    ensures Rendered([]) == "" && Originals([]) == ""
  {
  }

  // ----- fresh names -----

  predicate Includes(code: string, part: string) {
    exists i | 0 <= i <= |code| :: StartsWith(code[i..], part)
  }

  function ImportName(suffix: nat): string { IMPORT_NAME + Decimal(suffix) }

  lemma ImportNameInjective(m: nat, n: nat)
    requires ImportName(m) == ImportName(n)
    ensures m == n
  {
    SplitAtStart(IMPORT_NAME, Decimal(m), IMPORT_NAME, Decimal(n));
    NumberOfDecimal(m);
    NumberOfDecimal(n);
  }

  /** A long enough suffix makes the name longer than the code. */
  lemma OutgrowsCode(code: string, suffix: nat)
    requires suffix >= Power10(|code|)
    ensures !Includes(code, ImportName(suffix))
  {
    DecimalLength(suffix, |code|);
  }

  /** `freeImportName`: the first suffix from `index` on whose name is neither in the code nor taken. The
      search ends: names outgrow the code, and the taken names are finitely many. */
  method FreeImportName(code: string, taken: set<string>, index: nat) returns (candidate: string, taken': set<string>)
    ensures candidate !in taken && taken' == taken + {candidate} && !Includes(code, candidate)
    ensures exists suffix | suffix >= index ::
              && candidate == ImportName(suffix)
              && forall k | index <= k < suffix :: Includes(code, ImportName(k)) || ImportName(k) in taken
  {
    hide Includes, ImportName;
    var suffix := index;
    candidate := ImportName(suffix);
    ghost var ahead := taken;
    while Includes(code, candidate) || candidate in taken
      invariant suffix >= index && candidate == ImportName(suffix)
      invariant forall k | index <= k < suffix :: Includes(code, ImportName(k)) || ImportName(k) in taken
      invariant ahead <= taken && forall k: nat | k >= suffix && ImportName(k) in taken :: ImportName(k) in ahead
      decreases if suffix < Power10(|code|) then Power10(|code|) - suffix else 0, |ahead|
    {
      if suffix >= Power10(|code|) {
        OutgrowsCode(code, suffix);
      }
      forall k: nat | k > suffix && ImportName(k) == candidate
        ensures false
      {
        ImportNameInjective(k, suffix);
      }
      ahead := ahead - {candidate};
      suffix := suffix + 1;
      candidate := ImportName(suffix);
    }
    taken' := taken + {candidate};
  }

  // ----- the rewrite -----

  /** A parsed use: where its tag opens, whether it already has an `entries` attribute, and its literal
      name if it has one. */
  datatype Use = Use(start: nat, hasEntries: bool, name: Option<string>)

  /** What the parser found: the uses in document order, where the instance script's content starts, and
      the module script's `lang` attribute as written. */
  datatype Parsed = Parsed(uses: seq<Use>, instance: Option<nat>, lang: string)

  /** The parser's offsets are offsets of the code. */
  ghost predicate OffsetsOf(code: string, root: Parsed) {
    && (forall u | u in root.uses :: u.start + 1 + |COMPONENT_NAME| <= |code|)
    && (root.instance.Some? ==> root.instance.value <= |code|)
  }

  function Todo(uses: seq<Use>): seq<Use> {
    if uses == [] then []
    else Todo(uses[..|uses| - 1]) + if uses[|uses| - 1].hasEntries then [] else [uses[|uses| - 1]]
  }

  lemma {:induction false} TodoAre(uses: seq<Use>)
    ensures forall u :: u in Todo(uses) <==> u in uses && !u.hasEntries
  {
    if uses != [] {
      TodoAre(uses[..|uses| - 1]);
      assert uses == uses[..|uses| - 1] + [uses[|uses| - 1]];
    }
  }

  function EntriesEdit(u: Use, identifier: string): Edit {
    Edit(u.start + 1 + |COMPONENT_NAME|, " entries={" + identifier + "}")
  }

  /** Each use is passed its own identifier. */
  function EntriesEdits(todo: seq<Use>, identifiers: seq<string>): (edits: seq<Edit>)
    requires |todo| == |identifiers|
    ensures |edits| == |todo| && forall k | 0 <= k < |todo| :: edits[k] == EntriesEdit(todo[k], identifiers[k])
  {
    seq(|todo|, k requires 0 <= k < |todo| => EntriesEdit(todo[k], identifiers[k]))
  }

  function ImportLine(identifier: string, specifier: string): string {
    "import " + identifier + " from " + specifier
  }

  /** Each identifier is imported from its own use's point module; `quoted` is the JSON form. */
  function ImportLines(todo: seq<Use>, identifiers: seq<string>, quoted: string -> string): (lines: seq<string>)
    requires |todo| == |identifiers| && forall k | 0 <= k < |todo| :: todo[k].name.Some?
    ensures |lines| == |todo|
    ensures forall k | 0 <= k < |todo| ::
              lines[k] == ImportLine(identifiers[k], quoted(MODULE_PREFIX + todo[k].name.value))
  {
    seq(|todo|, k requires 0 <= k < |todo| => ImportLine(identifiers[k], quoted(MODULE_PREFIX + todo[k].name.value)))
  }

  function BlockEdit(root: Parsed, lines: seq<string>): Edit
    requires lines != []
  {
    var block := Join(lines, '\n');
    if root.instance.None? then Edit(0, "<script" + root.lang + ">\n" + block + "\n</script>\n")
    else Edit(root.instance.value, "\n" + block + "\n")
  }

  datatype Rewrite = Untouched | NotLiteral(u: Use) | Rewritten(output: string, identifiers: seq<string>)

  ghost predicate FreshNames(code: string, identifiers: seq<string>) {
    && (forall k | 0 <= k < |identifiers| :: !Includes(code, identifiers[k]))
    && (forall j, k | 0 <= j < k < |identifiers| :: identifiers[j] != identifiers[k])
  }

  /** The first use without a literal name: the one that is reported. */
  ghost predicate IsFirstNameless(todo: seq<Use>, u: Use) {
    exists k | 0 <= k < |todo| :: todo[k] == u && u.name.None? && forall j | 0 <= j < k :: todo[j].name.Some?
  }

  /** The loop over the uses: one identifier, import line and edit each, unless a use has no literal name. */
  method NameUses(code: string, todo: seq<Use>, quoted: string -> string)
    returns (nameless: Option<Use>, identifiers: seq<string>, imports: seq<string>, edits: seq<Edit>)
    ensures nameless.Some? <==> exists u | u in todo :: u.name.None?
    ensures nameless.Some? ==> IsFirstNameless(todo, nameless.value)
    ensures nameless.None? ==>
              && |identifiers| == |todo| && FreshNames(code, identifiers)
              && (forall k | 0 <= k < |todo| :: todo[k].name.Some?)
              && imports == ImportLines(todo, identifiers, quoted) && edits == EntriesEdits(todo, identifiers)
  {
    hide Includes, ImportLine, EntriesEdit, ImportName;
    var taken: set<string> := {};
    nameless, identifiers, imports, edits := None, [], [], [];
    for index := 0 to |todo|
      invariant |identifiers| == |imports| == |edits| == index && FreshNames(code, identifiers) && nameless.None?
      invariant forall x :: x in taken <==> x in identifiers
      invariant forall k | 0 <= k < index :: todo[k].name.Some?
      invariant forall k | 0 <= k < index ::
                  imports[k] == ImportLine(identifiers[k], quoted(MODULE_PREFIX + todo[k].name.value))
      invariant forall k | 0 <= k < index :: edits[k] == EntriesEdit(todo[k], identifiers[k])
    {
      if todo[index].name.None? {
        nameless := Some(todo[index]);
        return;
      }
      var identifier;
      identifier, taken := FreeImportName(code, taken, index);
      identifiers := identifiers + [identifier];
      imports := imports + [ImportLine(identifier, quoted(MODULE_PREFIX + todo[index].name.value))];
      edits := edits + [EntriesEdit(todo[index], identifier)];
    }
  }

  /** `rewriteInjectionPoints`: the output is the code with every `entries` attribute and the import block
      inserted at their original offsets, under names that are distinct and new to the code. */
  method RewriteInjectionPoints(code: string, root: Parsed, quoted: string -> string) returns (r: Rewrite)
    requires OffsetsOf(code, root)
    ensures r.Untouched? <==> !Includes(code, COMPONENT_NAME) || forall u | u in root.uses :: u.hasEntries
    ensures !r.Untouched? ==> (r.NotLiteral? <==> exists u | u in Todo(root.uses) :: u.name.None?)
    ensures r.NotLiteral? ==> IsFirstNameless(Todo(root.uses), r.u)
    ensures r.Rewritten? ==> forall u | u in Todo(root.uses) :: u.name.Some?
    ensures r.Rewritten? ==>
              && |r.identifiers| == |Todo(root.uses)| > 0 && FreshNames(code, r.identifiers)
              && r.output == Weave(code,
                   EntriesEdits(Todo(root.uses), r.identifiers)
                   + [BlockEdit(root, ImportLines(Todo(root.uses), r.identifiers, quoted))], 0)
  {
    hide Includes, Weave, Applied, Join, TextAt;
    TodoAre(root.uses);
    var todo := Todo(root.uses);
    if !Includes(code, COMPONENT_NAME) || todo == [] {
      NoneTodo(root.uses);
      return Untouched;
    }
    var nameless, identifiers, imports, edits := NameUses(code, todo, quoted);
    if nameless.Some? {
      return NotLiteral(nameless.value);
    }
    edits := edits + [BlockEdit(root, imports)];
    EditsInCode(code, root, todo, identifiers, imports);
    SortedEditsWeave(code, edits);
    var output := ApplyInTurn(code, Sort(edits, LaterFirst));
    return Rewritten(output, identifiers);
  }

  lemma NoneTodo(uses: seq<Use>)
    ensures Todo(uses) == [] <==> forall u | u in uses :: u.hasEntries
  {
    TodoAre(uses);
    assert Todo(uses) != [] ==> Todo(uses)[0] in Todo(uses);
  }

  lemma EditsInCode(code: string, root: Parsed, todo: seq<Use>, identifiers: seq<string>, imports: seq<string>)
    requires OffsetsOf(code, root) && todo == Todo(root.uses) && |todo| == |identifiers| && imports != []
    ensures InCode(code, EntriesEdits(todo, identifiers) + [BlockEdit(root, imports)])
  {
    hide Join;
    TodoAre(root.uses);
    forall k | 0 <= k < |todo|
      ensures EntriesEdits(todo, identifiers)[k].at <= |code|
    {
      assert todo[k] in Todo(root.uses);
    }
  }

  /** The loop that applies the sorted edits. */
  method ApplyInTurn(code: string, edits: seq<Edit>) returns (output: string)
    requires Applied(code, edits).Some?
    ensures Applied(code, edits) == Some(output)
  {
    output := code;
    for k := 0 to |edits|
      invariant Applied(code, edits[..k]) == Some(output)
    {
      StillApplies(code, edits, k);
      output := output[..edits[k].at] + edits[k].text + output[edits[k].at..];
    }
    assert edits[..|edits|] == edits;
  }

  lemma {:induction false} StillApplies(code: string, edits: seq<Edit>, k: nat)
    requires k < |edits| && Applied(code, edits).Some?
    ensures Applied(code, edits[..k + 1]).Some? && Applied(code, edits[..k]).Some?
    ensures edits[k].at <= |Applied(code, edits[..k]).value|
    ensures Applied(code, edits[..k + 1]) == Some(InsertText(Applied(code, edits[..k]).value, edits[k]))
  {
    assert edits[..k + 1][..k] == edits[..k];
    if k + 1 < |edits| {
      var front := edits[..|edits| - 1];
      StillApplies(code, front, k);
      assert front[..k + 1] == edits[..k + 1] && front[..k] == edits[..k];
    } else {
      assert edits[..k + 1] == edits;
    }
  }
}
