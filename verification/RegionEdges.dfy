/** The components a component renders, directly and through others. */
module RegionEdges {
  import opened ComponentGraph
  import opened Text

  /** Breadth-first search: every file met is `dist` imports away, by way of its parent; the files in
      `done` have been looked at, those in `queue` have not, and `level` separates the two. */
  ghost predicate Search(g: Graph, root: string, parent: map<string, Option<string>>, dist: map<string, nat>,
                         queue: seq<string>, done: set<string>, level: nat) {
    Tree(g, root, parent, dist) && Covered(Files(g) + {root}, dist, queue, done, level) && Ordered(dist, queue, level)
  }

  ghost predicate Covered(files: set<string>, dist: map<string, nat>, queue: seq<string>, done: set<string>, level: nat) {
    && (forall f | f in dist :: f in files && (f in done || f in queue))
    && (forall f | f in done :: f in dist && f !in queue && dist[f] <= level)
  }

  ghost predicate Ordered(dist: map<string, nat>, queue: seq<string>, level: nat) {
    && (forall q | q in queue :: q in dist && level <= dist[q] <= level + 1)
    && (forall i, j | 0 <= i < j < |queue| :: queue[i] != queue[j] && dist[queue[i]] <= dist[queue[j]])
  }

  ghost predicate Tree(g: Graph, root: string, parent: map<string, Option<string>>, dist: map<string, nat>) {
    && parent.Keys == dist.Keys && root in dist && dist[root] == 0 && parent[root] == None
    && forall f | f in dist && f != root ::
         parent[f].Some? && parent[f].value in dist && f in Out(g, parent[f].value)
         && dist[f] == dist[parent[f].value] + 1
  }

  /** The imports of `f` have all been met, one step further at most. */
  ghost predicate Near(g: Graph, dist: map<string, nat>, f: string) {
    f in dist && forall x | x in Out(g, f) :: x in dist && dist[x] <= dist[f] + 1
  }

  ghost predicate Expanded(g: Graph, dist: map<string, nat>, done: set<string>) {
    forall f | f in done :: Near(g, dist, f)
  }

  lemma GrowTree(g: Graph, root: string, parent: map<string, Option<string>>, dist: map<string, nat>, file: string, next: string)
    requires Tree(g, root, parent, dist) && file in dist && next in Out(g, file) && next !in dist
    ensures Tree(g, root, parent[next := Some(file)], dist[next := dist[file] + 1])
  {
  }

  lemma OneMore(queue: seq<string>, next: string)
    ensures forall q :: q in queue + [next] <==> q in queue || q == next
  {
    assert (queue + [next])[|queue|] == next;
    assert forall i | 0 <= i < |queue| :: (queue + [next])[i] == queue[i];
  }

  lemma Enqueue(dist: map<string, nat>, queue: seq<string>, level: nat, next: string)
    requires next !in dist && Ordered(dist, queue, level)
    ensures Ordered(dist[next := level + 1], queue + [next], level)
  {
    OneMore(queue, next);
  }

  lemma Cover(files: set<string>, dist: map<string, nat>, queue: seq<string>, done: set<string>, level: nat, next: string)
    requires Covered(files, dist, queue, done, level) && next !in dist && next in files
    ensures Covered(files, dist[next := level + 1], queue + [next], done, level)
  {
    OneMore(queue, next);
  }

  /** Meeting `next` for the first time, from `file`. */
  lemma MeetNext(g: Graph, root: string, parent: map<string, Option<string>>, dist: map<string, nat>,
                 queue: seq<string>, done: set<string>, level: nat, file: string, next: string)
    requires Search(g, root, parent, dist, queue, done, level)
    requires file in dist && dist[file] == level && next in Out(g, file) && next !in parent
    ensures Search(g, root, parent[next := Some(file)], dist[next := level + 1], queue + [next], done, level)
    ensures next !in dist
  {
    hide Files, Out, Covered, Ordered;
    OutAreFiles(g, file);
    GrowTree(g, root, parent, dist, file, next);
    Enqueue(dist, queue, level, next);
    Cover(Files(g) + {root}, dist, queue, done, level, next);
  }

  lemma StillExpanded(g: Graph, dist: map<string, nat>, done: set<string>, next: string, d: nat)
    requires Expanded(g, dist, done) && next !in dist
    ensures Expanded(g, dist[next := d], done)
  {
  }

  lemma NowExpanded(g: Graph, dist: map<string, nat>, done: set<string>, file: string)
    requires Expanded(g, dist, done - {file}) && file in dist
    requires forall x | x in Out(g, file) :: x in dist && dist[x] <= dist[file] + 1
    ensures Expanded(g, dist, done)
  {
    assert forall f | f in done && f != file :: f in done - {file};
  }

  /** Taking the first file of the queue. */
  lemma TakeFirst(g: Graph, root: string, parent: map<string, Option<string>>, dist: map<string, nat>,
                  queue: seq<string>, done: set<string>, level: nat)
    requires Search(g, root, parent, dist, queue, done, level) && queue != []
    ensures Search(g, root, parent, dist, queue[1..], done + {queue[0]}, dist[queue[0]])
  {
    assert forall q :: q in queue <==> q == queue[0] || q in queue[1..];
  }

  lemma AtRoot(g: Graph, root: string)
    ensures Search(g, root, map[root := None], map[root := 0], [root], {}, 0) && Expanded(g, map[root := 0], {})
  {
  }

  /** A file already met is at most one step beyond the level. */
  lemma Within(g: Graph, root: string, parent: map<string, Option<string>>, dist: map<string, nat>,
               queue: seq<string>, done: set<string>, level: nat, next: string)
    requires Search(g, root, parent, dist, queue, done, level) && next in parent
    ensures next in dist && dist[next] <= level + 1
  {
  }

  /** The first file of the queue is new, and nearest among those not looked at. */
  lemma FirstIsNearest(g: Graph, root: string, parent: map<string, Option<string>>, dist: map<string, nat>,
                       queue: seq<string>, done: set<string>, level: nat)
    requires Search(g, root, parent, dist, queue, done, level) && queue != []
    ensures queue[0] in dist && queue[0] in Files(g) + {root} && queue[0] !in done
    ensures Tree(g, root, parent, dist) && forall f | f in dist :: f in done || dist[f] >= dist[queue[0]]
  {
    assert queue[0] in queue;
    forall f | f in dist && f !in done
      ensures dist[f] >= dist[queue[0]]
    {
      var i :| 0 <= i < |queue| && queue[i] == f;
    }
  }

  lemma Finished(g: Graph, root: string, parent: map<string, Option<string>>, dist: map<string, nat>,
                 done: set<string>, level: nat)
    requires Search(g, root, parent, dist, [], done, level)
    ensures dist.Keys == done && root in dist
  {
  }

  lemma {:induction false} ChainBound(g: Graph, root: string, dist: map<string, nat>, done: set<string>, c: seq<string>,
                                      i: nat, level: nat)
    requires IsChain(g, c) && c[0] == root && root in dist && dist[root] == 0 && Expanded(g, dist, done)
    requires forall f | f in dist :: f in done || dist[f] >= level
    requires i < |c| && i <= level
    ensures c[i] in dist && dist[c[i]] <= i
  {
    if i > 0 {
      ChainBound(g, root, dist, done, c, i - 1, level);
    }
  }

  /** When every file not looked at is at least as far as `target`, no chain to it is shorter. */
  lemma NoShorterChain(g: Graph, root: string, dist: map<string, nat>, done: set<string>, target: string)
    requires root in dist && dist[root] == 0 && Expanded(g, dist, done) && target in dist
    requires forall f | f in dist :: f in done || dist[f] >= dist[target]
    ensures forall c: seq<string> | Joins(g, root, target, c) :: |c| >= dist[target] + 1
  {
    forall c: seq<string> | Joins(g, root, target, c)
      ensures |c| >= dist[target] + 1
    {
      if |c| - 1 <= dist[target] {
        ChainBound(g, root, dist, done, c, |c| - 1, dist[target]);
      }
    }
  }

  lemma AllMet(g: Graph, root: string, dist: map<string, nat>, target: string)
    requires root in dist && Expanded(g, dist, dist.Keys) && Reachable(g, root, target)
    ensures target in dist
  {
    ClosedHoldsReachable(g, root, dist.Keys, target);
  }

  class ComponentEdges {
    const imports: Graph
    var cache: map<string, seq<string>>

    ghost predicate Valid()
      reads this
    {
      forall f | f in cache :: cache[f] == Out(imports, f)
    }

    constructor (imports: Graph)
      ensures Valid() && this.imports == imports && cache == map[]
    {
      this.imports := imports;
      cache := map[];
    }

    /** The files `file` imports, remembered after the first time. */
    method Of(file: string) returns (edges: seq<string>)
      requires Valid()
      modifies this`cache
      ensures Valid() && edges == Out(imports, file)
      ensures cache == old(cache)[file := edges]
    {
      if file in cache {
        edges := cache[file];
        assert cache == cache[file := edges];
      } else {
        edges := Out(imports, file);
        cache := cache[file := edges];
      }
    }

    /** `file`'s imports join the search. */
    method Expand(root: string, file: string, parent: map<string, Option<string>>, queue: seq<string>,
                  ghost dist: map<string, nat>, ghost done: set<string>)
      returns (parent': map<string, Option<string>>, queue': seq<string>, ghost dist': map<string, nat>)
      requires Valid() && file in done && file in dist && Search(imports, root, parent, dist, queue, done, dist[file])
      requires Expanded(imports, dist, done - {file})
      modifies this`cache
      ensures Valid() && file in dist' && dist'[file] == dist[file]
      ensures Search(imports, root, parent', dist', queue', done, dist'[file]) && Expanded(imports, dist', done)
    {
      hide Search, Expanded;
      parent', queue', dist' := parent, queue, dist;
      var edges := Of(file);
      for k := 0 to |edges|
        invariant Valid() && file in dist' && dist'[file] == dist[file]
        invariant Search(imports, root, parent', dist', queue', done, dist[file])
        invariant Expanded(imports, dist', done - {file})
        invariant forall i | 0 <= i < k :: edges[i] in dist' && dist'[edges[i]] <= dist[file] + 1
      {
        var next := edges[k];
        if next in parent' {
          Within(imports, root, parent', dist', queue', done, dist[file], next);
          continue;
        }
        MeetNext(imports, root, parent', dist', queue', done, dist[file], file, next);
        StillExpanded(imports, dist', done - {file}, next, dist[file] + 1);
        parent' := parent'[next := Some(file)];
        queue' := queue' + [next];
        dist' := dist'[next := dist[file] + 1];
      }
      NowExpanded(imports, dist', done, file);
    }

    /** From `target` back to the root, parent by parent. */
    method WalkBack(root: string, target: string, parent: map<string, Option<string>>, ghost dist: map<string, nat>)
      returns (chain: seq<string>)
      requires Tree(imports, root, parent, dist) && target in dist
      ensures Joins(imports, root, target, chain) && |chain| == dist[target] + 1
    {
      chain := [];
      var at: Option<string> := Some(target);
      while at.Some?
        invariant chain == [] ==> at == Some(target)
        invariant chain != [] ==> IsChain(imports, chain) && chain[|chain| - 1] == target
        invariant at.Some? ==>
                    && at.value in dist && |chain| + dist[at.value] == dist[target]
                    && (chain != [] ==> chain[0] in Out(imports, at.value))
        invariant at.None? ==> chain != [] && chain[0] == root && |chain| == dist[target] + 1
        decreases if at.Some? then dist[at.value] + 1 else 0
      {
        chain := [at.value] + chain;
        at := parent[at.value];
      }
    }

    /** Breadth-first search, and a walk back over the parents it recorded. */
    method Path(root: string, target: string) returns (chain: Option<seq<string>>)
      requires Valid()
      modifies this`cache
      ensures Valid()
      ensures chain.Some? <==> Reachable(imports, root, target)
      ensures chain.Some? ==> Joins(imports, root, target, chain.value)
      ensures chain.Some? ==> forall c: seq<string> | Joins(imports, root, target, c) :: |chain.value| <= |c|
    {
      hide Search;
      var parent: map<string, Option<string>> := map[root := None];
      var queue := [root];
      ghost var dist: map<string, nat>, done: set<string>, level: nat := map[root := 0], {}, 0;
      AtRoot(imports, root);
      while queue != []
        invariant Valid() && Search(imports, root, parent, dist, queue, done, level)
        invariant Expanded(imports, dist, done) && target !in done
        decreases |Files(imports) + {root} - done|
      {
        var file := queue[0];
        TakeFirst(imports, root, parent, dist, queue, done, level);
        FirstIsNearest(imports, root, parent, dist, queue, done, level);
        Fewer(Files(imports) + {root}, done, file);
        if file == target {
          var c := WalkBack(root, target, parent, dist);
          NoShorterChain(imports, root, dist, done, target);
          return Some(c);
        }
        queue := queue[1..];
        level := dist[file];
        done := done + {file};
        assert done - {file} <= done;
        parent, queue, dist := Expand(root, file, parent, queue, dist, done);
      }
      Finished(imports, root, parent, dist, done, level);
      if Reachable(imports, root, target) {
        AllMet(imports, root, dist, target);
      }
      return None;
    }

    /** The targets among the files reachable from `root`. */
    method Reaches(root: string, targets: set<string>) returns (reached: set<string>)
      requires Valid()
      modifies this`cache
      ensures Valid()
      ensures forall f :: f in reached <==> f in targets && Reachable(imports, root, f)
    {
      hide Exploring, Reachable, Files, Out, ToSet;
      var seen: set<string> := {};
      var queue := [root];
      StartExploring(imports, root);
      SetOfOne(root);
      while queue != []
        invariant Valid() && Exploring(imports, root, seen, ToSet(queue))
        decreases |Files(imports) + {root} - seen|, |queue|
      {
        var file := queue[0];
        ghost var pending := ToSet(queue);
        SetOfRest(queue);
        queue := queue[1..];
        if file in seen {
          SeenBefore(imports, root, seen, pending, file, ToSet(queue));
          continue;
        }
        InFiles(imports, root, seen, pending, file);
        Fewer(Files(imports) + {root}, seen, file);
        Explore(imports, root, seen, pending, file, ToSet(queue));
        seen := seen + {file};
        var edges := Of(file);
        SetOfBoth(queue, edges);
        queue := queue + edges;
      }
      Explored(imports, root, seen);
      reached := set f | f in seen && f in targets;
    }
  }
}
