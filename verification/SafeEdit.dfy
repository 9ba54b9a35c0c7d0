/** The in-memory half of `safeEditFile`, and a ledger file edited by one process at a time. */
module SafeEdit {
  import opened Text

  /** UTF-8 length. */
  function ByteLength(s: string): nat {
    if s == "" then 0
    else (var c := s[0] as int; if c < 0x80 then 1 else if c < 0x800 then 2 else if c < 0x1_0000 then 3 else 4)
         + ByteLength(s[1..])
  }

  datatype EditError = EditThrew | EmptyResult | OverShrink

  datatype EditResult = Edited(content: string) | Refused(error: EditError)

  const DEFAULT_MAX_SHRINK_RATIO: real := 0.5

  /** The file loses more than that share of its bytes. */
  predicate OverShrinks(before: nat, after: nat, ratio: real) {
    before > 0 && (before - after) as real / before as real > ratio
  }

  /** `next` is what the edit callback returned, `None` when it threw. */
  function ComputeEdit(original: string, next: Option<string>, ratio: real): EditResult {
    if next.None? then Refused(EditThrew)
    else if Trim(next.value) == "" then Refused(EmptyResult)
    else if OverShrinks(ByteLength(original), ByteLength(next.value), ratio) then Refused(OverShrink)
    else Edited(next.value)
  }

  /** What an accepted edit promises a reader: not blank, and not cut below the tolerated share. */
  predicate SoundFor(ratio: real, before: string, after: string) {
    !IsBlankText(after) && KeepsShare(ratio, ByteLength(before), ByteLength(after))
  }

  predicate KeepsShare(ratio: real, before: nat, after: nat) { after as real >= (1.0 - ratio) * before as real }

  predicate Sound(before: string, after: string) { SoundFor(DEFAULT_MAX_SHRINK_RATIO, before, after) }

  /** An edit is accepted exactly when its result is sound, and then it is that result. */
  lemma EditedExactly(original: string, next: Option<string>, ratio: real)
    ensures var r := ComputeEdit(original, next, ratio);
            && (r.Edited? <==> next.Some? && SoundFor(ratio, original, next.value))
            && (r.Edited? ==> r.content == next.value)
  {
    hide OverShrinks, KeepsShare, ByteLength, Trim, IsBlankText;
    if next.Some? {
      TrimEmpty(next.value);
      ShrinkBound(ByteLength(original), ByteLength(next.value), ratio);
    }
  }

  lemma ShrinkBound(before: nat, after: nat, ratio: real)
    ensures OverShrinks(before, after, ratio) <==> !KeepsShare(ratio, before, after)
  {
    if before > 0 {
      var whole, part := before as real, (before - after) as real;
      Share(part, whole, ratio);
      assert part == whole - after as real;
      assert (1.0 - ratio) * whole == whole - ratio * whole;
    }
  }

  lemma EditedIsSound(original: string, next: Option<string>)
    ensures var r := ComputeEdit(original, next, DEFAULT_MAX_SHRINK_RATIO);
            && (r.Edited? <==> next.Some? && Sound(original, next.value))
            && (r.Edited? ==> r.content == next.value)
  {
    EditedExactly(original, next, DEFAULT_MAX_SHRINK_RATIO);
  }

  lemma Scaled(share: real, bound: real, whole: real)
    requires whole > 0.0
    ensures share > bound <==> share * whole > bound * whole
  {
    if share > bound {
      assert (share - bound) * whole > 0.0;
    } else {
      assert (bound - share) * whole >= 0.0;
    }
  }

  lemma Share(part: real, whole: real, bound: real)
    requires whole > 0.0
    ensures part / whole > bound <==> part > bound * whole
  {
    var share := part / whole;
    assert share * whole == part;
    Scaled(share, bound, whole);
  }

  lemma {:induction false} ByteLengthConcat(a: string, b: string)
    ensures ByteLength(a + b) == ByteLength(a) + ByteLength(b)
  {
    if a == "" {
      assert a + b == b;
    } else {
      assert (a + b)[1..] == a[1..] + b;
      ByteLengthConcat(a[1..], b);
    }
  }

  /** A file only this process writes. */
  class TextFile {
    var content: string

    constructor (content: string)
      ensures this.content == content
    {
      this.content := content;
    }

    /** One `O_APPEND` write. */
    method Append(text: string)
      modifies this
      ensures content == old(content) + text
    {
      content := content + text;
    }

    /** The new content is computed first; a refused edit leaves the file as it was. */
    method SafeEditFile(edit: string -> Option<string>, maxShrinkRatio: Option<real>) returns (result: EditResult)
      modifies this
      ensures var ratio := if maxShrinkRatio.Some? then maxShrinkRatio.value else DEFAULT_MAX_SHRINK_RATIO;
              && result == ComputeEdit(old(content), edit(old(content)), ratio)
              && (result.Edited? ==> SoundFor(ratio, old(content), content))
      ensures content == if result.Edited? then result.content else old(content)
    {
      var ratio := if maxShrinkRatio.Some? then maxShrinkRatio.value else DEFAULT_MAX_SHRINK_RATIO;
      result := ComputeEdit(content, edit(content), ratio);
      EditedExactly(content, edit(content), ratio);
      if result.Edited? {
        content := result.content;
      }
    }
  }
}
