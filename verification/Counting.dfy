/** Counting distinct numbers. */
module Counting {
  function Below(n: nat): (s: set<nat>)
    ensures |s| == n && forall k: nat :: k in s <==> k < n
  {
    if n == 0 then {} else Below(n - 1) + {n - 1}
  }

  function ToSet(s: seq<nat>): set<nat> { set x | x in s }

  ghost predicate Distinct(s: seq<nat>) { forall i, j | 0 <= i < j < |s| :: s[i] != s[j] }

  lemma {:induction false} CountDistinct(s: seq<nat>)
    requires Distinct(s)
    ensures |ToSet(s)| == |s|
  {
    if s != [] {
      var (front, x) := (s[..|s| - 1], s[|s| - 1]);
      CountDistinct(front);
      assert s == front + [x];
      assert ToSet(s) == ToSet(front) + {x};
    }
  }

  lemma Complement(a: set<nat>, b: set<nat>, n: nat)
    requires a <= Below(n) && b == Below(n) - a
    ensures |a| + |b| == n
  {
    assert a + b == Below(n) && a * b == {};
  }

  lemma FullSet(s: set<nat>, n: nat)
    requires s <= Below(n) && |s| == n
    ensures s == Below(n)
  {
    Complement(s, Below(n) - s, n);
  }
}
