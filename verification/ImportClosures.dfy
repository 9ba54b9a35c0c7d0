/** The two closures over import-like edges. */
module ImportClosures {
  import opened ComponentGraph
  import opened Text

  ghost predicate NoRepeats(files: seq<string>) { forall i, j | 0 <= i < j < |files| :: files[i] != files[j] }

  /** `collectClosure`: the stack yields every file reachable from the entry, each once, the entry first. */
  method CollectClosure(imports: Graph, entry: string) returns (files: seq<string>)
    ensures forall f :: f in files <==> Reachable(imports, entry, f)
    ensures NoRepeats(files) && files != [] && files[0] == entry
  {
    hide Exploring, Reachable, Files, Out, ToSet;
    files := [];
    var seen: set<string> := {};
    var pending := [entry];
    StartExploring(imports, entry);
    SetOfOne(entry);
    while pending != []
      invariant Exploring(imports, entry, seen, ToSet(pending))
      invariant NoRepeats(files) && forall f :: f in seen <==> f in files
      invariant if files == [] then pending == [entry] else files[0] == entry
      decreases |Files(imports) + {entry} - seen|, |pending|
    {
      var current := pending[|pending| - 1];
      ghost var before := ToSet(pending);
      SetOfRest(pending);
      pending := pending[..|pending| - 1];
      if current in seen {
        SeenBefore(imports, entry, seen, before, current, ToSet(pending));
        continue;
      }
      InFiles(imports, entry, seen, before, current);
      Fewer(Files(imports) + {entry}, seen, current);
      Explore(imports, entry, seen, before, current, ToSet(pending));
      seen := seen + {current};
      files := files + [current];
      SetOfBoth(pending, Out(imports, current));
      pending := pending + Out(imports, current);
    }
    Explored(imports, entry, seen);
  }

  // ----- installed packages -----

  /** A dependency as declared, and the package it resolves to from where it is declared. */
  datatype Dependency = Dependency(name: string, installed: Option<string>)

  type Packages = map<string, seq<Dependency>>

  function Dependencies(packages: Packages, from: string): seq<Dependency> {
    if from in packages then packages[from] else []
  }

  function Installed(deps: seq<Dependency>): seq<string> {
    if deps == [] then []
    else
      (if deps[0].installed.Some? then [deps[0].installed.value] else []) + Installed(deps[1..])
  }

  function PackageGraph(packages: Packages): Graph { map p | p in packages :: Installed(packages[p]) }

  datatype Problem = NotInstalled(name: string, via: string) | NotPermissive(name: string, via: string)

  /** A dependency waiting to be looked at, and the package that declares it. */
  datatype Entry = Entry(dependency: Dependency, via: string)

  predicate IsProven(allowed: string -> bool, d: Dependency) { d.installed.Some? && allowed(d.installed.value) }

  /** Everything `from` declares is installed under a permissive licence. */
  ghost predicate IsClear(packages: Packages, allowed: string -> bool, from: string) {
    forall d | d in Dependencies(packages, from) :: IsProven(allowed, d)
  }

  function Entries(deps: seq<Dependency>, via: string): (queue: seq<Entry>)
    ensures |queue| == |deps| && forall k | 0 <= k < |deps| :: queue[k] == Entry(deps[k], via)
  {
    seq(|deps|, k requires 0 <= k < |deps| => Entry(deps[k], via))
  }

  function Targets(queue: seq<Entry>): seq<string> {
    if queue == [] then []
    else
      (if queue[0].dependency.installed.Some? then [queue[0].dependency.installed.value] else []) + Targets(queue[1..])
  }

  lemma {:induction false} TargetsConcat(a: seq<Entry>, b: seq<Entry>)
    ensures Targets(a + b) == Targets(a) + Targets(b)
  {
    if a == [] {
      assert a + b == b;
    } else {
      assert (a + b)[1..] == a[1..] + b;
      TargetsConcat(a[1..], b);
    }
  }

  lemma {:induction false} TargetsOfEntries(deps: seq<Dependency>, via: string)
    ensures Targets(Entries(deps, via)) == Installed(deps)
  {
    if deps != [] {
      TargetsOfEntries(deps[1..], via);
      assert Entries(deps, via)[1..] == Entries(deps[1..], via);
    }
  }

  /** `p` is about dependency `d` of `from`, and rightly so. */
  predicate Blames(allowed: string -> bool, p: Problem, from: string, d: Dependency) {
    || (d.installed.None? && p == NotInstalled(d.name, from))
    || (d.installed.Some? && !allowed(d.installed.value) && p == NotPermissive(d.name, from))
  }

  /** Some problem is about the package installed at `path`. */
  ghost predicate Reported(packages: Packages, problems: seq<Problem>, from: set<string>, path: string) {
    exists f, d | f in from && d in Dependencies(packages, f) ::
      d.installed == Some(path) && NotPermissive(d.name, f) in problems
  }

  /** A dependency looked at: reported when it is missing, else its package is seen. */
  predicate Settled(problems: seq<Problem>, seen: set<string>, from: string, d: Dependency) {
    if d.installed.None? then NotInstalled(d.name, from) in problems else d.installed.value in seen
  }

  ghost predicate IsFault(packages: Packages, allowed: string -> bool, from: set<string>, p: Problem) {
    exists f, d | f in from && d in Dependencies(packages, f) :: Blames(allowed, p, f, d)
  }

  /** What the queue and the problems say so far: `expanded` packages have had their dependencies queued,
      each is queued or settled, and the problems are the faults of the settled ones. */
  ghost predicate Checking(packages: Packages, allowed: string -> bool, kit: string, seen: set<string>,
                           expanded: set<string>, queue: seq<Entry>, problems: seq<Problem>) {
    && (forall e | e in queue :: e.via in expanded && e.dependency in Dependencies(packages, e.via))
    && (forall f, d | f in expanded && d in Dependencies(packages, f) ::
          Entry(d, f) in queue || Settled(problems, seen, f, d))
    && (forall p | p in problems :: IsFault(packages, allowed, expanded, p))
    && (forall x | x in seen && !allowed(x) :: Reported(packages, problems, expanded, x))
    && expanded == seen + {kit}
  }

  lemma StillReported(packages: Packages, problems: seq<Problem>, more: seq<Problem>, from: set<string>, from': set<string>,
                      path: string)
    requires Reported(packages, problems, from, path) && from <= from'
    ensures Reported(packages, problems + more, from', path)
  {
    var f, d :| f in from && d in Dependencies(packages, f) && d.installed == Some(path)
                && NotPermissive(d.name, f) in problems;
    assert NotPermissive(d.name, f) in problems + more;
  }

  lemma StillFault(packages: Packages, allowed: string -> bool, from: set<string>, from': set<string>, p: Problem)
    requires IsFault(packages, allowed, from, p) && from <= from'
    ensures IsFault(packages, allowed, from', p)
  {
  }

  /** The first entry is looked at and taken off the queue. */
  lemma CheckedOne(packages: Packages, allowed: string -> bool, kit: string, seen: set<string>, expanded: set<string>,
                   queue: seq<Entry>, problems: seq<Problem>, found: seq<Problem>)
    requires queue != [] && Checking(packages, allowed, kit, seen, expanded, queue, problems)
    requires forall p | p in found :: Blames(allowed, p, queue[0].via, queue[0].dependency)
    requires Settled(problems + found, seen, queue[0].via, queue[0].dependency)
    ensures Checking(packages, allowed, kit, seen, expanded, queue[1..], problems + found)
  {
    hide Blames, Reported, Dependencies;
    var e := queue[0];
    assert forall x :: x in queue <==> x == e || x in queue[1..];
    forall x | x in seen && !allowed(x)
      ensures Reported(packages, problems + found, expanded, x)
    {
      StillReported(packages, problems, found, expanded, expanded, x);
    }
  }

  /** The first entry leads to a package not seen before: its dependencies are queued behind the rest. */
  lemma ExpandOne(packages: Packages, allowed: string -> bool, kit: string, seen: set<string>, expanded: set<string>,
                  queue: seq<Entry>, problems: seq<Problem>, found: seq<Problem>, path: string)
    requires queue != [] && Checking(packages, allowed, kit, seen, expanded, queue, problems)
    requires queue[0].dependency.installed == Some(path)
    requires found == if allowed(path) then [] else [NotPermissive(queue[0].dependency.name, queue[0].via)]
    ensures Checking(packages, allowed, kit, seen + {path}, expanded + {path},
                     queue[1..] + Entries(Dependencies(packages, path), path), problems + found)
  {
    hide Dependencies, Reported, IsFault;
    var (e, more) := (queue[0], Entries(Dependencies(packages, path), path));
    var expanded', problems' := expanded + {path}, problems + found;
    assert forall x :: x in queue <==> x == e || x in queue[1..];
    forall d | d in Dependencies(packages, path)
      ensures Entry(d, path) in more
    {
      EntryOf(Dependencies(packages, path), path, d);
    }
    forall p | p in problems'
      ensures IsFault(packages, allowed, expanded', p)
    {
      if p in problems {
        StillFault(packages, allowed, expanded, expanded', p);
      } else {
        BlamesHere(packages, allowed, expanded', e, p);
      }
    }
    forall x | x in seen + {path} && !allowed(x)
      ensures Reported(packages, problems', expanded', x)
    {
      if x in seen {
        StillReported(packages, problems, found, expanded, expanded', x);
      } else {
        ReportedHere(packages, problems', expanded', e, path);
      }
    }
  }

  lemma EntryOf(deps: seq<Dependency>, via: string, d: Dependency)
    requires d in deps
    ensures Entry(d, via) in Entries(deps, via)
  {
    var k :| 0 <= k < |deps| && deps[k] == d;
    assert Entries(deps, via)[k] == Entry(d, via);
  }

  lemma BlamesHere(packages: Packages, allowed: string -> bool, from: set<string>, e: Entry, p: Problem)
    requires e.via in from && e.dependency in Dependencies(packages, e.via) && Blames(allowed, p, e.via, e.dependency)
    ensures IsFault(packages, allowed, from, p)
  {
  }

  lemma ReportedHere(packages: Packages, problems: seq<Problem>, from: set<string>, e: Entry, path: string)
    requires e.via in from && e.dependency in Dependencies(packages, e.via) && e.dependency.installed == Some(path)
    requires NotPermissive(e.dependency.name, e.via) in problems
    ensures Reported(packages, problems, from, path)
  {
  }

  lemma OutIsInstalled(packages: Packages, from: string)
    ensures Out(PackageGraph(packages), from) == Installed(Dependencies(packages, from))
  {
  }

  lemma KitQueued(packages: Packages, allowed: string -> bool, kit: string)
    ensures var queue := Entries(Dependencies(packages, kit), kit);
            && Checking(packages, allowed, kit, {}, {kit}, queue, [])
            && Exploring(PackageGraph(packages), kit, {kit}, ToSet(Targets(queue)))
  {
    hide Exploring, Dependencies, IsFault, Reported;
    var g, deps := PackageGraph(packages), Dependencies(packages, kit);
    StartExploring(g, kit);
    assert {kit} == {} + {kit};
    Explore(g, kit, {}, {kit}, kit, {});
    OutIsInstalled(packages, kit);
    TargetsOfEntries(deps, kit);
    assert {} + ToSet(Targets(Entries(deps, kit))) == ToSet(Targets(Entries(deps, kit)));
    forall d | d in deps
      ensures Entry(d, kit) in Entries(deps, kit)
    {
      EntryOf(deps, kit, d);
    }
  }

  lemma FirstTarget(queue: seq<Entry>)
    requires queue != []
    ensures var first := queue[0].dependency.installed;
            ToSet(Targets(queue)) == ToSet(Targets(queue[1..])) + if first.Some? then {first.value} else {}
  {
  }

  lemma Queued(packages: Packages, queue: seq<Entry>, package: string)
    ensures ToSet(Targets(queue + Entries(Dependencies(packages, package), package))) ==
            ToSet(Targets(queue)) + ToSet(Out(PackageGraph(packages), package))
  {
    var deps := Dependencies(packages, package);
    TargetsConcat(queue, Entries(deps, package));
    TargetsOfEntries(deps, package);
    OutIsInstalled(packages, package);
    SetOfBoth(Targets(queue), Installed(deps));
  }

  /** The problems list exactly the faults: each is one, every missing dependency is listed, and every
      package without a permissive licence is. */
  ghost predicate ListsFaults(packages: Packages, allowed: string -> bool, from: set<string>, problems: seq<Problem>) {
    && (forall p | p in problems :: IsFault(packages, allowed, from, p))
    && (forall f, d | f in from && d in Dependencies(packages, f) && d.installed.None? ::
          NotInstalled(d.name, f) in problems)
    && (forall f, d | f in from && d in Dependencies(packages, f) && d.installed.Some? && !allowed(d.installed.value) ::
          Reported(packages, problems, from, d.installed.value))
  }

  lemma NothingToList(packages: Packages, allowed: string -> bool, from: set<string>, problems: seq<Problem>)
    requires ListsFaults(packages, allowed, from, problems)
    ensures problems == [] <==> forall f | f in from :: IsClear(packages, allowed, f)
  {
    hide Dependencies;
    if problems != [] {
      assert problems[0] in problems;
      var f, d :| f in from && d in Dependencies(packages, f) && Blames(allowed, problems[0], f, d);
      assert !IsProven(allowed, d);
    } else {
      forall f, d | f in from && d in Dependencies(packages, f)
        ensures IsProven(allowed, d)
      {
        assert d.installed.Some? && !allowed(d.installed.value) ==>
            Reported(packages, problems, from, d.installed.value);
      }
    }
  }

  lemma AllChecked(packages: Packages, allowed: string -> bool, kit: string, seen: set<string>, expanded: set<string>,
                   problems: seq<Problem>)
    requires Checking(packages, allowed, kit, seen, expanded, [], problems)
    requires Exploring(PackageGraph(packages), kit, expanded, ToSet(Targets([])))
    ensures forall f :: f in expanded <==> Reachable(PackageGraph(packages), kit, f)
    ensures ListsFaults(packages, allowed, expanded, problems)
  {
    hide Exploring, Reachable, PackageGraph, Reported, IsFault, Dependencies;
    assert ToSet(Targets([])) == {};
    Explored(PackageGraph(packages), kit, expanded);
  }

  /** `findLicenseClosureProblems`: the problems are the faults of the packages reachable from the kit, and
      there is none exactly when all of them declare only installed, permissively licensed dependencies. */
  method FindLicenseClosureProblems(packages: Packages, allowed: string -> bool, kit: string)
    returns (problems: seq<Problem>, ghost reached: set<string>)
    ensures forall f :: f in reached <==> Reachable(PackageGraph(packages), kit, f)
    ensures ListsFaults(packages, allowed, reached, problems)
    ensures problems == [] <==>
            forall from | Reachable(PackageGraph(packages), kit, from) :: IsClear(packages, allowed, from)
  {
    hide Exploring, Reachable, Files, ToSet, Targets, Entries, Dependencies, IsClear, Checking, Installed, PackageGraph,
      ListsFaults;
    ghost var g := PackageGraph(packages);
    problems := [];
    var seen: set<string> := {};
    var queue := Entries(Dependencies(packages, kit), kit);
    ghost var expanded := {kit};
    KitQueued(packages, allowed, kit);
    while queue != []
      invariant Checking(packages, allowed, kit, seen, expanded, queue, problems)
      invariant Exploring(g, kit, expanded, ToSet(Targets(queue)))
      decreases |Files(g) + {kit} - seen|, |queue|
    {
      var entry := queue[0];
      var installed := entry.dependency.installed;
      FirstTarget(queue);
      ghost var pending := ToSet(Targets(queue));
      if installed.None? {
        var missing := NotInstalled(entry.dependency.name, entry.via);
        CheckedOne(packages, allowed, kit, seen, expanded, queue, problems, [missing]);
        queue, problems := queue[1..], problems + [missing];
        continue;
      }
      var path := installed.value;
      if path in seen {
        CheckedOne(packages, allowed, kit, seen, expanded, queue, problems, []);
        AlreadyExpanded(packages, allowed, kit, seen, expanded, queue, problems, path);
        SeenBefore(g, kit, expanded, pending, path, ToSet(Targets(queue[1..])));
        assert problems + [] == problems;
        queue := queue[1..];
        continue;
      }
      InFiles(g, kit, expanded, pending, path);
      Fewer(Files(g) + {kit}, seen, path);
      Explore(g, kit, expanded, pending, path, ToSet(Targets(queue[1..])));
      var found := if allowed(path) then [] else [NotPermissive(entry.dependency.name, entry.via)];
      ExpandOne(packages, allowed, kit, seen, expanded, queue, problems, found, path);
      Queued(packages, queue[1..], path);
      seen, expanded, problems := seen + {path}, expanded + {path}, problems + found;
      queue := queue[1..] + Entries(Dependencies(packages, path), path);
    }
    AllChecked(packages, allowed, kit, seen, expanded, problems);
    NothingToList(packages, allowed, expanded, problems);
    reached := expanded;
  }

  lemma AlreadyExpanded(packages: Packages, allowed: string -> bool, kit: string, seen: set<string>, expanded: set<string>,
                        queue: seq<Entry>, problems: seq<Problem>, path: string)
    requires Checking(packages, allowed, kit, seen, expanded, queue, problems) && path in seen
    ensures path in expanded
  {
  }
}
