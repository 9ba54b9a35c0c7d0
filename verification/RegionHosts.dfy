/** The routes that host a region component, and the import chain from each of them to it. */
module RegionHosts {
  import opened ComponentGraph
  import opened RegionEdges
  import opened StableSort
  import opened Text

  datatype Kind = Page | Layout | Error

  /** A route component `+<kind>.svelte`, in directory `dir` below `src/routes` ("" for the top). */
  datatype Route = Route(dir: string, kind: Kind)

  function KindName(kind: Kind): (s: string)
    ensures '#' !in s
  {
    match kind
    case Page => "page"
    case Layout => "layout"
    case Error => "error"
  }

  function RouteId(dir: string): string { if dir == "" || dir == "." then "/" else "/" + dir }

  function HostKey(route: Route): string { RouteId(route.dir) + "#" + KindName(route.kind) }

  /** The route's path relative to the web root. */
  function Rel(route: Route): string {
    "src/routes" + (if route.dir == "" then "" else "/" + route.dir) + "/+" + KindName(route.kind) + ".svelte"
  }

  /** What a directory walk lists: every file once, by its normal path. */
  ghost predicate IsScan(routes: seq<Route>) {
    && (forall i | 0 <= i < |routes| :: routes[i].dir != ".")
    && (forall i, j | 0 <= i < j < |routes| :: routes[i] != routes[j])
  }

  lemma KeyNamesRoute(a: Route, b: Route)
    requires a.dir != "." && b.dir != "."
    ensures HostKey(a) == HostKey(b) <==> a == b
  {
    if HostKey(a) == HostKey(b) {
      LastSeparator(RouteId(a.dir), KindName(a.kind), RouteId(b.dir), KindName(b.kind), '#');
      assert |KindName(a.kind)| == |KindName(b.kind)|;
      assert RouteId(a.dir)[1..] == a.dir && RouteId(b.dir)[1..] == b.dir;
    }
  }

  // ----- hosts -----

  /** The region file that owns an absolute path: the last one listed with that path. */
  function Owner(abs: string -> string, regionFiles: seq<string>, path: string): (file: Option<string>)
    ensures file.Some? ==> file.value in regionFiles && abs(file.value) == path
    ensures file.None? ==> forall f | f in regionFiles :: abs(f) != path
  {
    if regionFiles == [] then None
    else
      var last := regionFiles[|regionFiles| - 1];
      if abs(last) == path then Some(last) else Owner(abs, regionFiles[..|regionFiles| - 1], path)
  }

  /** The route renders the region and is the kind that runs server code. */
  ghost predicate Hosts(g: Graph, abs: string -> string, regionFiles: seq<string>, route: Route, file: string) {
    !route.kind.Error? && Owner(abs, regionFiles, abs(file)) == Some(file) && Reachable(g, abs(Rel(route)), abs(file))
  }

  /** The keys of the routes that host `file`, in route order. */
  ghost function HostKeys(g: Graph, abs: string -> string, regionFiles: seq<string>, routes: seq<Route>, file: string): seq<string> {
    if routes == [] then []
    else
      var last := routes[|routes| - 1];
      HostKeys(g, abs, regionFiles, routes[..|routes| - 1], file)
      + if Hosts(g, abs, regionFiles, last, file) then [HostKey(last)] else []
  }

  lemma {:induction false} HostKeysAre(g: Graph, abs: string -> string, regionFiles: seq<string>, routes: seq<Route>, file: string)
    ensures forall key :: key in HostKeys(g, abs, regionFiles, routes, file) <==>
                          exists r | r in routes :: HostKey(r) == key && Hosts(g, abs, regionFiles, r, file)
  {
    hide Hosts, HostKey;
    if routes != [] {
      var (front, last) := (routes[..|routes| - 1], routes[|routes| - 1]);
      HostKeysAre(g, abs, regionFiles, front, file);
      assert routes == front + [last];
      assert forall r :: r in routes <==> r in front || r == last;
      assert forall key :: key in HostKeys(g, abs, regionFiles, routes, file) <==>
        key in HostKeys(g, abs, regionFiles, front, file) || (Hosts(g, abs, regionFiles, last, file) && key == HostKey(last));
    }
  }

  lemma OneMoreRoute(g: Graph, abs: string -> string, regionFiles: seq<string>, routes: seq<Route>, n: nat, file: string)
    requires n < |routes|
    ensures HostKeys(g, abs, regionFiles, routes[..n + 1], file) ==
            HostKeys(g, abs, regionFiles, routes[..n], file)
            + if Hosts(g, abs, regionFiles, routes[n], file) then [HostKey(routes[n])] else []
  {
    hide Hosts, HostKey;
    assert routes[..n + 1][..n] == routes[..n];
  }

  method DeriveRegionHosts(edges: ComponentEdges, abs: string -> string, routes: seq<Route>, regionFiles: seq<string>)
    returns (hosts: map<string, seq<string>>)
    requires edges.Valid()
    modifies edges`cache
    ensures edges.Valid() && forall f :: f in hosts <==> f in regionFiles
    ensures forall f | f in hosts ::
              hosts[f] == Sort(HostKeys(edges.imports, abs, regionFiles, routes, f), CodeUnitsLess)
  {
    hide HostKeys, HostKey, Reachable, CodeUnitsLess, Rel;
    ghost var g := edges.imports;
    hosts := map f | f in regionFiles :: [];
    var targets := set f | f in regionFiles :: abs(f);
    NoRoutes(g, abs, regionFiles, routes);
    for n := 0 to |routes|
      invariant edges.Valid() && forall f :: f in hosts <==> f in regionFiles
      invariant forall f | f in hosts :: hosts[f] == HostKeys(g, abs, regionFiles, routes[..n], f)
    {
      forall f
        ensures HostKeys(g, abs, regionFiles, routes[..n + 1], f) ==
                HostKeys(g, abs, regionFiles, routes[..n], f)
                + if Hosts(g, abs, regionFiles, routes[n], f) then [HostKey(routes[n])] else []
      {
        OneMoreRoute(g, abs, regionFiles, routes, n, f);
      }
      if routes[n].kind.Error? {
        continue;
      }
      var key := HostKey(routes[n]);
      var reached := edges.Reaches(abs(Rel(routes[n])), targets);
      hosts := map f | f in hosts ::
        hosts[f] + if abs(f) in reached && Owner(abs, regionFiles, abs(f)) == Some(f) then [key] else [];
    }
    assert routes[..|routes|] == routes;
    hosts := map f | f in hosts :: Sort(hosts[f], CodeUnitsLess);
  }

  lemma NoRoutes(g: Graph, abs: string -> string, regionFiles: seq<string>, routes: seq<Route>)
    ensures forall f :: HostKeys(g, abs, regionFiles, routes[..0], f) == []
  {
  }

  // ----- the chain walk -----

  /** The first route with that key. */
  function FirstWithKey(routes: seq<Route>, key: string): (k: nat)
    ensures k <= |routes| && (k < |routes| ==> HostKey(routes[k]) == key)
    ensures forall i | 0 <= i < k :: HostKey(routes[i]) != key
  {
    hide HostKey;
    if routes == [] || HostKey(routes[0]) == key then 0 else 1 + FirstWithKey(routes[1..], key)
  }

  /** The chain whose edges are checked for one host key of a region; none when no route has the key or
      the route with it does not reach the region. */
  method HostChain(edges: ComponentEdges, abs: string -> string, routes: seq<Route>, key: string, regionFile: string)
    returns (chain: Option<seq<string>>)
    requires edges.Valid()
    modifies edges`cache
    ensures edges.Valid()
    ensures var k := FirstWithKey(routes, key);
            && (chain.Some? <==> k < |routes| && Reachable(edges.imports, abs(Rel(routes[k])), abs(regionFile)))
            && (chain.Some? ==>
                  && Joins(edges.imports, abs(Rel(routes[k])), abs(regionFile), chain.value)
                  && forall c | Joins(edges.imports, abs(Rel(routes[k])), abs(regionFile), c) :: |chain.value| <= |c|)
  {
    hide HostKey, Reachable, Rel;
    for k := 0 to |routes|
      invariant FirstWithKey(routes, key) >= k
    {
      if HostKey(routes[k]) == key {
        chain := edges.Path(abs(Rel(routes[k])), abs(regionFile));
        return;
      }
    }
    return None;
  }

  /** Every host key derived for a region leads the chain walk to a route that reaches it, so the walk
      finds a chain for it and checks the edges. */
  lemma HostKeyHasChain(g: Graph, abs: string -> string, regionFiles: seq<string>, routes: seq<Route>, file: string, key: string)
    requires IsScan(routes) && key in Sort(HostKeys(g, abs, regionFiles, routes, file), CodeUnitsLess)
    ensures var k := FirstWithKey(routes, key);
            k < |routes| && Reachable(g, abs(Rel(routes[k])), abs(file))
  {
    hide HostKey, Reachable, Rel, Owner, Sort, HostKeys;
    SortHas(HostKeys(g, abs, regionFiles, routes, file), CodeUnitsLess);
    HostKeysAre(g, abs, regionFiles, routes, file);
    var r :| r in routes && HostKey(r) == key && Hosts(g, abs, regionFiles, r, file);
    var k := FirstWithKey(routes, key);
    var i :| 0 <= i < |routes| && routes[i] == r;
    KeyNamesRoute(routes[k], r);
  }

  /** A route's key is listed for a region exactly when the route hosts it: error pages never, and of
      several region files with one path only the last. */
  lemma HostsAreExact(g: Graph, abs: string -> string, regionFiles: seq<string>, routes: seq<Route>, file: string, route: Route)
    requires IsScan(routes) && route in routes
    ensures HostKey(route) in Sort(HostKeys(g, abs, regionFiles, routes, file), CodeUnitsLess)
            <==> Hosts(g, abs, regionFiles, route, file)
    ensures IsSorted(Sort(HostKeys(g, abs, regionFiles, routes, file), CodeUnitsLess), CodeUnitsLess)
  {
    hide HostKey, Hosts, CodeUnitsLess, StrictWeak, Sort, HostKeys;
    var keys := HostKeys(g, abs, regionFiles, routes, file);
    SortHas(keys, CodeUnitsLess);
    CodeUnitsStrictWeak();
    SortSorts(keys, CodeUnitsLess);
    HostKeysAre(g, abs, regionFiles, routes, file);
    forall r | r in routes && HostKey(r) == HostKey(route)
      ensures r == route
    {
      KeyNamesRoute(r, route);
    }
  }

  /** Region file `i` has the path, and no later one has. */
  ghost predicate IsLastAt(abs: string -> string, regionFiles: seq<string>, path: string, i: nat) {
    i < |regionFiles| && abs(regionFiles[i]) == path && forall j | i < j < |regionFiles| :: abs(regionFiles[j]) != path
  }

  lemma OneLastAt(abs: string -> string, regionFiles: seq<string>, path: string, i: nat, j: nat)
    requires IsLastAt(abs, regionFiles, path, i) && IsLastAt(abs, regionFiles, path, j)
    ensures i == j
  {
  }

  lemma {:induction false} LastAt(abs: string -> string, regionFiles: seq<string>, path: string) returns (i: nat)
    requires Owner(abs, regionFiles, path).Some?
    ensures IsLastAt(abs, regionFiles, path, i) && regionFiles[i] == Owner(abs, regionFiles, path).value
  {
    var last := |regionFiles| - 1;
    if abs(regionFiles[last]) == path {
      i := last;
    } else {
      i := LastAt(abs, regionFiles[..last], path);
      assert forall j | 0 <= j < last :: regionFiles[..last][j] == regionFiles[j];
    }
  }

  lemma OwnerIsLast(abs: string -> string, regionFiles: seq<string>, path: string, file: string)
    ensures Owner(abs, regionFiles, path) == Some(file) <==>
            exists i: nat :: IsLastAt(abs, regionFiles, path, i) && regionFiles[i] == file
  {
    hide Owner;
    if i: nat :| IsLastAt(abs, regionFiles, path, i) && regionFiles[i] == file {
      assert regionFiles[i] in regionFiles;
      var k := LastAt(abs, regionFiles, path);
      OneLastAt(abs, regionFiles, path, i, k);
    } else if Owner(abs, regionFiles, path) == Some(file) {
      var k := LastAt(abs, regionFiles, path);
    }
  }

  /** Where the component of a route lies. */
  predicate LiesAt(route: Route, rel: string) {
    var dir := if route.dir == "" then "src/routes" else "src/routes/" + route.dir;
    match route.kind
    case Page => rel == dir + "/+page.svelte"
    case Layout => rel == dir + "/+layout.svelte"
    case Error => rel == dir + "/+error.svelte"
  }

  /** A route hosts a region when it is a page or a layout whose component reaches the region's file, and the
      region is the last one listed with that path; its key is its route and the kind. */
  lemma HostsWrittenOut(g: Graph, abs: string -> string, regionFiles: seq<string>, route: Route, file: string, rel: string)
    requires LiesAt(route, rel)
    ensures Hosts(g, abs, regionFiles, route, file) <==>
            && (route.kind.Page? || route.kind.Layout?) && Reachable(g, abs(rel), abs(file))
            && exists i: nat :: IsLastAt(abs, regionFiles, abs(file), i) && regionFiles[i] == file
    ensures route.kind.Page? ==> HostKey(route) == (if route.dir == "" || route.dir == "." then "/" else "/" + route.dir) + "#page"
    ensures route.kind.Layout? ==>
              HostKey(route) == (if route.dir == "" || route.dir == "." then "/" else "/" + route.dir) + "#layout"
  {
    OwnerIsLast(abs, regionFiles, abs(file), file);
    RelIs(route, rel);
    KeyIs(route);
  }

  lemma RelIs(route: Route, rel: string)
    requires LiesAt(route, rel)
    ensures Rel(route) == rel
  {
    var dir := "src/routes" + if route.dir == "" then "" else "/" + route.dir;
    assert dir == if route.dir == "" then "src/routes" else "src/routes/" + route.dir by {
      assert "src/routes/" == "src/routes" + "/";
      Reassociate("src/routes", "/", route.dir);
    }
    Joined(dir, KindName(route.kind));
    FileNames();
  }

  lemma Joined(dir: string, kind: string)
    ensures dir + "/+" + kind + ".svelte" == dir + ("/+" + kind + ".svelte")
  {
  }

  lemma FileNames()
    ensures "/+" + "page" + ".svelte" == "/+page.svelte" && "/+" + "layout" + ".svelte" == "/+layout.svelte"
    ensures "/+" + "error" + ".svelte" == "/+error.svelte"
  {
  }

  lemma KeyIs(route: Route)
    ensures HostKey(route) == RouteId(route.dir)
                              + match route.kind { case Page => "#page" case Layout => "#layout" case Error => "#error" }
  {
    assert "#page" == "#" + "page" && "#layout" == "#" + "layout" && "#error" == "#" + "error";
  }
}
