/** Readers that walk lines in order, carrying a state and emitting items: every text parser here is
    one, so the lemmas about cutting the input in two are proved once. */
module LineReader {
  import opened Text

  /** The state after the lines. */
  function StateAfter<S, L>(next: (S, L) -> S, s: S, lines: seq<L>): S
    decreases lines
  {
    if lines == [] then s else StateAfter(next, next(s, lines[0]), lines[1..])
  }

  /** What is emitted; the first line has index `at`. */
  function Emitted<S, L, T>(next: (S, L) -> S, emit: (S, L, nat) -> seq<T>, s: S, lines: seq<L>, at: nat): seq<T>
    decreases lines
  {
    if lines == [] then []
    else emit(s, lines[0], at) + Emitted(next, emit, next(s, lines[0]), lines[1..], at + 1)
  }

  lemma {:induction false} StateCompose<S, L>(next: (S, L) -> S, s: S, a: seq<L>, b: seq<L>)
    ensures StateAfter(next, s, a + b) == StateAfter(next, StateAfter(next, s, a), b)
    decreases a
  {
    if a == [] {
      assert a + b == b;
    } else {
      assert (a + b)[1..] == a[1..] + b;
      StateCompose(next, next(s, a[0]), a[1..], b);
    }
  }

  lemma {:induction false} EmittedCompose<S, L, T>(next: (S, L) -> S, emit: (S, L, nat) -> seq<T>, s: S, a: seq<L>,
                                                   b: seq<L>, at: nat)
    ensures Emitted(next, emit, s, a + b, at) ==
            Emitted(next, emit, s, a, at) + Emitted(next, emit, StateAfter(next, s, a), b, at + |a|)
    decreases a
  {
    if a == [] {
      assert a + b == b;
    } else {
      assert (a + b)[1..] == a[1..] + b;
      EmittedCompose(next, emit, next(s, a[0]), a[1..], b, at + 1);
    }
  }

  /** One more line at the end of a prefix. */
  lemma OneMoreLine<S, L, T>(next: (S, L) -> S, emit: (S, L, nat) -> seq<T>, s: S, lines: seq<L>, n: nat, at: nat)
    requires n < |lines|
    ensures var before := StateAfter(next, s, lines[..n]);
            && StateAfter(next, s, lines[..n + 1]) == next(before, lines[n])
            && Emitted(next, emit, s, lines[..n + 1], at) ==
               Emitted(next, emit, s, lines[..n], at) + emit(before, lines[n], at + n)
  {
    var one := [lines[n]];
    assert lines[..n + 1] == lines[..n] + one;
    assert one[1..] == [];
    var before := StateAfter(next, s, lines[..n]);
    StateCompose(next, s, lines[..n], one);
    EmittedCompose(next, emit, s, lines[..n], one, at);
    assert StateAfter(next, next(before, one[0]), one[1..]) == next(before, one[0]);
    assert Emitted(next, emit, next(before, one[0]), one[1..], at + n + 1) == [];
  }

  /** Where item `k` comes from, for a reader that emits at most one item a line: line `x`, with the
      items before and after it emitted by the lines before and after `x`. */
  lemma {:induction false} Origin<S, L, T>(next: (S, L) -> S, emit: (S, L, nat) -> seq<T>, s: S, lines: seq<L>, at: nat,
                                           k: nat) returns (a: seq<L>, x: L, b: seq<L>)
    requires forall s: S, l: L, at: nat :: |emit(s, l, at)| <= 1
    requires k < |Emitted(next, emit, s, lines, at)|
    ensures lines == a + [x] + b
    ensures var before := StateAfter(next, s, a);
            && Emitted(next, emit, s, lines, at) ==
               Emitted(next, emit, s, a, at) + emit(before, x, at + |a|)
               + Emitted(next, emit, next(before, x), b, at + |a| + 1)
            && |Emitted(next, emit, s, a, at)| == k && |emit(before, x, at + |a|)| == 1
    decreases lines
  {
    var first := emit(s, lines[0], at);
    if k < |first| {
      a, x, b := [], lines[0], lines[1..];
    } else {
      a, x, b := Origin(next, emit, next(s, lines[0]), lines[1..], at + 1, k - |first|);
      var a' := [lines[0]] + a;
      assert a'[1..] == a;
      a := a';
    }
  }

  /** The items that are picked, in order. */
  function Picked<A, B>(pick: A -> Option<B>, items: seq<A>): seq<B> {
    if items == [] then []
    else PickedFrom(pick(items[0])) + Picked(pick, items[1..])
  }

  function PickedFrom<B>(b: Option<B>): seq<B> { if b.Some? then [b.value] else [] }

  lemma {:induction false} PickedCompose<A, B>(pick: A -> Option<B>, a: seq<A>, b: seq<A>)
    ensures Picked(pick, a + b) == Picked(pick, a) + Picked(pick, b)
  {
    if a == [] {
      assert a + b == b;
    } else {
      hide PickedFrom;
      assert (a + b)[1..] == a[1..] + b && (a + b)[0] == a[0];
      PickedCompose(pick, a[1..], b);
      Reassociate(PickedFrom(pick(a[0])), Picked(pick, a[1..]), Picked(pick, b));
    }
  }

  lemma PickedOne<A, B>(pick: A -> Option<B>, a: A)
    ensures Picked(pick, [a]) == if pick(a).Some? then [pick(a).value] else []
  {
    assert [a][1..] == [];
  }

  lemma {:induction false} PickedNone<A, B>(pick: A -> Option<B>, items: seq<A>)
    requires forall a | a in items :: pick(a).None?
    ensures Picked(pick, items) == []
  {
    if items != [] {
      PickedNone(pick, items[1..]);
    }
  }

  /** Item `j` of the picked ones comes from an item with `j` picked ones before it. */
  lemma {:induction false} PickedOrigin<A, B>(pick: A -> Option<B>, items: seq<A>, j: nat)
    returns (before: seq<A>, a: A, after: seq<A>)
    requires j < |Picked(pick, items)|
    ensures items == before + [a] + after && pick(a).Some?
    ensures Picked(pick, items) == Picked(pick, before) + [pick(a).value] + Picked(pick, after)
    ensures |Picked(pick, before)| == j
  {
    if pick(items[0]).Some? && j == 0 {
      before, a, after := [], items[0], items[1..];
    } else {
      before, a, after := PickedOrigin(pick, items[1..], if pick(items[0]).Some? then j - 1 else j);
      var longer := [items[0]] + before;
      assert longer[1..] == before;
      before := longer;
    }
  }

  function Mapped<A, B>(f: A -> B, items: seq<A>): (r: seq<B>)
    ensures |r| == |items| && forall k | 0 <= k < |r| :: r[k] == f(items[k])
  {
    seq(|items|, k requires 0 <= k < |items| => f(items[k]))
  }

  /** Moving the items moves what is picked from them. */
  lemma {:induction false} PickedMapped<A, B>(pick: A -> Option<B>, items: seq<A>, f: A -> A, g: B -> B)
    requires forall a | a in items :: pick(f(a)) == if pick(a).Some? then Some(g(pick(a).value)) else None
    ensures Picked(pick, Mapped(f, items)) == Mapped(g, Picked(pick, items))
  {
    if items != [] {
      PickedMapped(pick, items[1..], f, g);
      assert Mapped(f, items)[1..] == Mapped(f, items[1..]);
      assert items[0] in items;
    }
  }

  /** A reader whose items only carry their line's index moves with its input. */
  lemma {:induction false} EmittedMoved<S, L, T>(next: (S, L) -> S, emit: (S, L, nat) -> seq<T>, s: S, lines: seq<L>,
                                                 at: nat, shift: nat, f: T -> T)
    requires forall s: S, l: L, at: nat :: emit(s, l, at + shift) == Mapped(f, emit(s, l, at))
    ensures Emitted(next, emit, s, lines, at + shift) == Mapped(f, Emitted(next, emit, s, lines, at))
    decreases lines
  {
    if lines != [] {
      EmittedMoved(next, emit, next(s, lines[0]), lines[1..], at + 1, shift, f);
      assert emit(s, lines[0], at + shift) == Mapped(f, emit(s, lines[0], at));
    }
  }
}
