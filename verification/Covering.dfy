/** What a wildcard pattern means. */
module Covering {
  type Fits<!P, !T> = (P, seq<T>) -> bool

  function Flatten<T>(runs: seq<seq<T>>): seq<T> {
    if runs == [] then [] else runs[0] + Flatten(runs[1..])
  }

  ghost predicate Runs<P, T>(pattern: seq<P>, text: seq<T>, fits: Fits<P, T>, runs: seq<seq<T>>) {
    |runs| == |pattern| && Flatten(runs) == text && forall i | 0 <= i < |runs| :: fits(pattern[i], runs[i])
  }

  /** The text falls into consecutive runs, one per pattern item, each of which that item may stand for. */
  ghost predicate Covers<P, T(!new)>(pattern: seq<P>, text: seq<T>, fits: Fits<P, T>) {
    exists runs: seq<seq<T>> :: Runs(pattern, text, fits, runs)
  }

  lemma CoversNothing<P, T(!new)>(text: seq<T>, fits: Fits<P, T>)
    ensures Covers([], text, fits) <==> text == []
  {
    if text == [] {
      assert Runs([], text, fits, []);
    }
  }

  /** The first item takes a run from the front of the text, the rest of the pattern covers the rest. */
  ghost predicate Takes<P, T(!new)>(pattern: seq<P>, text: seq<T>, fits: Fits<P, T>, n: nat)
    requires pattern != [] && n <= |text|
  {
    fits(pattern[0], text[..n]) && Covers(pattern[1..], text[n..], fits)
  }

  lemma CoversFirst<P, T(!new)>(pattern: seq<P>, text: seq<T>, fits: Fits<P, T>)
    requires pattern != []
    ensures Covers(pattern, text, fits) <==> exists n | 0 <= n <= |text| :: Takes(pattern, text, fits, n)
  {
    if Covers(pattern, text, fits) {
      var runs: seq<seq<T>> :| Runs(pattern, text, fits, runs);
      var n := |runs[0]|;
      assert text[..n] == runs[0] && text[n..] == Flatten(runs[1..]);
      assert Runs(pattern[1..], text[n..], fits, runs[1..]);
      assert Takes(pattern, text, fits, n);
    }
    if exists n | 0 <= n <= |text| :: Takes(pattern, text, fits, n) {
      var n :| 0 <= n <= |text| && Takes(pattern, text, fits, n);
      var rest: seq<seq<T>> :| Runs(pattern[1..], text[n..], fits, rest);
      var runs := [text[..n]] + rest;
      assert runs[1..] == rest;
      assert text == text[..n] + text[n..];
      assert Runs(pattern, text, fits, runs);
    }
  }
}
