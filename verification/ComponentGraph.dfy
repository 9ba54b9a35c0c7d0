/** Files and the files they import. */
module ComponentGraph {
  /** The resolved imports of each file that can be read. */
  type Graph = map<string, seq<string>>

  function Out(g: Graph, file: string): seq<string> { if file in g then g[file] else [] }

  /** Every file named anywhere. */
  function Files(g: Graph): set<string> { g.Keys + set f, x | f in g.Keys && x in g[f] :: x }

  lemma OutAreFiles(g: Graph, file: string)
    ensures forall x | x in Out(g, file) :: x in Files(g)
  {
  }

  /** Each file of the chain imports the next one. */
  ghost predicate IsChain(g: Graph, c: seq<string>) {
    c != [] && forall i | 0 <= i < |c| - 1 :: c[i + 1] in Out(g, c[i])
  }

  ghost predicate Joins(g: Graph, root: string, target: string, c: seq<string>) {
    IsChain(g, c) && c[0] == root && c[|c| - 1] == target
  }

  ghost predicate Reachable(g: Graph, root: string, target: string) {
    exists c: seq<string> :: Joins(g, root, target, c)
  }

  lemma SelfReachable(g: Graph, root: string)
    ensures Reachable(g, root, root)
  {
    assert Joins(g, root, root, [root]);
  }

  lemma StepReachable(g: Graph, root: string, file: string, next: string)
    requires Reachable(g, root, file) && next in Out(g, file)
    ensures Reachable(g, root, next)
  {
    var c: seq<string> :| Joins(g, root, file, c);
    assert Joins(g, root, next, c + [next]);
  }

  /** A set that holds the root and is closed under imports holds every reachable file. */
  lemma ClosedHoldsReachable(g: Graph, root: string, s: set<string>, target: string)
    requires root in s && (forall f, x | f in s && x in Out(g, f) :: x in s) && Reachable(g, root, target)
    ensures target in s
  {
    var c: seq<string> :| Joins(g, root, target, c);
    ChainStaysIn(g, c, s, |c| - 1);
  }

  lemma {:induction false} ChainStaysIn(g: Graph, c: seq<string>, s: set<string>, i: nat)
    requires IsChain(g, c) && c[0] in s && (forall f, x | f in s && x in Out(g, f) :: x in s) && i < |c|
    ensures c[i] in s
  {
    if i > 0 {
      ChainStaysIn(g, c, s, i - 1);
    }
  }

  lemma Fewer(all: set<string>, done: set<string>, file: string)
    requires file in all && file !in done
    ensures |all - (done + {file})| < |all - done|
  {
    assert all - (done + {file}) == (all - done) - {file};
  }

  function ToSet(s: seq<string>): set<string> { set x | x in s }

  lemma SetOfOne(x: string)
    ensures ToSet([x]) == {x} && ToSet([]) == {}
  {
  }

  lemma SetOfRest(s: seq<string>)
    requires s != []
    ensures ToSet(s) == ToSet(s[1..]) + {s[0]} && ToSet(s) == ToSet(s[..|s| - 1]) + {s[|s| - 1]}
  {
    assert s == [s[0]] + s[1..] && s == s[..|s| - 1] + [s[|s| - 1]];
  }

  lemma SetOfBoth(a: seq<string>, b: seq<string>)
    ensures ToSet(a + b) == ToSet(a) + ToSet(b)
  {
  }

  /** A worklist search: what is seen or pending is reachable, and the imports of what is seen are
      seen or pending. */
  ghost predicate Exploring(g: Graph, root: string, seen: set<string>, pending: set<string>) {
    && root in seen + pending
    && (forall f | f in seen + pending :: f in Files(g) + {root} && Reachable(g, root, f))
    && (forall f | f in seen :: ToSet(Out(g, f)) <= seen + pending)
  }

  lemma StartExploring(g: Graph, root: string)
    ensures Exploring(g, root, {}, {root})
  {
    SelfReachable(g, root);
  }

  /** Looking at `file`; what else is pending stays pending. */
  lemma Explore(g: Graph, root: string, seen: set<string>, pending: set<string>, file: string, rest: set<string>)
    requires Exploring(g, root, seen, pending) && pending == rest + {file}
    ensures Exploring(g, root, seen + {file}, rest + ToSet(Out(g, file)))
  {
    hide Reachable, Files;
    OutAreFiles(g, file);
    forall x | x in Out(g, file)
      ensures Reachable(g, root, x)
    {
      StepReachable(g, root, file, x);
    }
  }

  lemma SeenBefore(g: Graph, root: string, seen: set<string>, pending: set<string>, file: string, rest: set<string>)
    requires Exploring(g, root, seen, pending) && pending == rest + {file} && file in seen
    ensures Exploring(g, root, seen, rest)
  {
    assert seen + pending == seen + rest;
  }

  lemma InFiles(g: Graph, root: string, seen: set<string>, pending: set<string>, file: string)
    requires Exploring(g, root, seen, pending) && file in pending
    ensures file in Files(g) + {root}
  {
  }

  /** Nothing pending: exactly the reachable files have been seen. */
  lemma Explored(g: Graph, root: string, seen: set<string>)
    requires Exploring(g, root, seen, {})
    ensures forall f :: f in seen <==> Reachable(g, root, f)
  {
    forall f | Reachable(g, root, f)
      ensures f in seen
    {
      forall h, x | h in seen && x in Out(g, h)
        ensures x in seen
      {
        assert x in ToSet(Out(g, h));
      }
      ClosedHoldsReachable(g, root, seen, f);
    }
  }
}
