/**
 * What a finished scan has found, told by the places in the directory tree: a directory is listed once, and a file
 * handled once, for each way that leads to it through directories that can be listed.
 */
module Discovery {
  import opened Pools
  import opened Pipeline
  import PipelineRuns

  /** The entry numbers that lead from a directory to something below it. */
  type Route = seq<nat>

  datatype Target = Dir(dir: Tree) | File(file: Found)

  /** The route ends at the target, and every directory on the way can be listed. */
  ghost predicate LeadsTo(t: Tree, route: Route, target: Target)
    decreases |route|
  {
    if route == [] then target == Dir(t)
    else
      && t.listable && route[0] < |t.entries|
      && match t.entries[route[0]]
         case Sub(dir) => LeadsTo(dir, route[1..], target)
         case Known(file) => |route| == 1 && target == File(file)
         case Other => false
  }

  /** All routes to the target; those of the entries from number `i` on. */
  function Routes(t: Tree, target: Target): seq<Route>
    decreases t, 1
  {
    (if target == Dir(t) then [[]] else []) + if t.listable then EntryRoutes(t.entries, 0, target) else []
  }

  function OneRoutes(e: Entry, target: Target): seq<Route>
    decreases e, 0
  {
    match e
    case Sub(dir) => Routes(dir, target)
    case Known(file) => if target == File(file) then [[]] else []
    case Other => []
  }

  function EntryRoutes(es: seq<Entry>, i: nat, target: Target): seq<Route>
    decreases es, 0
  {
    if es == [] then [] else Prefixed(i, OneRoutes(es[0], target)) + EntryRoutes(es[1..], i + 1, target)
  }

  function Prefixed(i: nat, routes: seq<Route>): (r: seq<Route>)
    ensures |r| == |routes|
  {
    seq(|routes|, k requires 0 <= k < |routes| => [i] + routes[k])
  }

  lemma InPrefixed(i: nat, routes: seq<Route>, route: Route)
    ensures route in Prefixed(i, routes) <==> route != [] && route[0] == i && route[1..] in routes
  {
    if route in Prefixed(i, routes) {
      var k :| 0 <= k < |routes| && Prefixed(i, routes)[k] == route;
      assert route[1..] == routes[k];
    }
    if route != [] && route[0] == i && route[1..] in routes {
      var k :| 0 <= k < |routes| && routes[k] == route[1..];
      assert [i] + routes[k] == route;
      assert Prefixed(i, routes)[k] == route;
    }
  }

  predicate Distinct(routes: seq<Route>) {
    forall a, b | 0 <= a < b < |routes| :: routes[a] != routes[b]
  }

  lemma PrefixedDistinct(i: nat, routes: seq<Route>)
    requires Distinct(routes)
    ensures Distinct(Prefixed(i, routes))
  {
    forall a, b | 0 <= a < b < |routes| ensures Prefixed(i, routes)[a] != Prefixed(i, routes)[b] {
      assert ([i] + routes[a])[1..] == routes[a] && ([i] + routes[b])[1..] == routes[b];
    }
  }

  /** Where an entry's own routes go: below a subdirectory, or nowhere further at a file. */
  ghost predicate EntryLeads(e: Entry, route: Route, target: Target) {
    match e
    case Sub(dir) => LeadsTo(dir, route, target)
    case Known(file) => route == [] && target == File(file)
    case Other => false
  }

  /** Every route is listed, once. */
  lemma {:induction false} RoutesExact(t: Tree, target: Target)
    ensures Distinct(Routes(t, target))
    ensures forall route :: route in Routes(t, target) <==> LeadsTo(t, route, target)
    decreases t, 1
  {
    var own := if target == Dir(t) then [[]] else [];
    var below := if t.listable then EntryRoutes(t.entries, 0, target) else [];
    if t.listable {
      EntryRoutesExact(t.entries, 0, target);
    }
    hide EntryRoutes;
    assert Routes(t, target) == own + below;
    assert forall route | route in own :: route == [] && route !in below;
    JoinedDistinct(own, below);
    forall route ensures route in Routes(t, target) <==> LeadsTo(t, route, target) {
      if route != [] && t.listable && route[0] < |t.entries| {
        assert EntryLeads(t.entries[route[0]], route[1..], target) <==> LeadsTo(t, route, target);
      }
    }
  }

  lemma {:induction false} OneRoutesExact(e: Entry, target: Target)
    ensures Distinct(OneRoutes(e, target))
    ensures forall route :: route in OneRoutes(e, target) <==> EntryLeads(e, route, target)
    decreases e, 0
  {
    if e.Sub? {
      RoutesExact(e.dir, target);
    }
    hide Routes, LeadsTo;
  }

  lemma {:induction false} EntryRoutesExact(es: seq<Entry>, i: nat, target: Target)
    ensures Distinct(EntryRoutes(es, i, target))
    ensures forall route ::
              route in EntryRoutes(es, i, target)
              <==> route != [] && i <= route[0] < i + |es| && EntryLeads(es[route[0] - i], route[1..], target)
    decreases es, 0
  {
    if es != [] {
      OneRoutesExact(es[0], target);
      EntryRoutesExact(es[1..], i + 1, target);
      PrefixedDistinct(i, OneRoutes(es[0], target));
      hide OneRoutes, EntryLeads, Prefixed;
      var here, later := Prefixed(i, OneRoutes(es[0], target)), EntryRoutes(es[1..], i + 1, target);
      forall route ensures route in here <==> route != [] && route[0] == i && route[1..] in OneRoutes(es[0], target) {
        InPrefixed(i, OneRoutes(es[0], target), route);
      }
      assert EntryRoutes(es, i, target) == here + later;
      JoinedDistinct(here, later);
    }
  }

  lemma JoinedDistinct(a: seq<Route>, b: seq<Route>)
    requires Distinct(a) && Distinct(b) && forall route | route in a :: route !in b
    ensures Distinct(a + b)
  {
    assert forall k | 0 <= k < |a| :: a[k] in a;
    assert forall k | 0 <= k < |b| :: b[k] in b;
  }

  /** The counts of the pipeline are the numbers of routes. */
  lemma {:induction false} ListingsAreRoutes(t: Tree, x: Tree)
    ensures PipelineRuns.Listings(t, x) == |Routes(t, Dir(x))|
    decreases t, 1
  {
    if t.listable {
      EntryListingsAreRoutes(t.entries, 0, x);
    }
  }

  lemma {:induction false} OneListingIsRoutes(e: Entry, x: Tree)
    ensures PipelineRuns.OneListing(e, x) == |OneRoutes(e, Dir(x))|
    decreases e, 0
  {
    if e.Sub? {
      ListingsAreRoutes(e.dir, x);
    }
  }

  lemma {:induction false} EntryListingsAreRoutes(es: seq<Entry>, i: nat, x: Tree)
    ensures PipelineRuns.EntryListings(es, x) == |EntryRoutes(es, i, Dir(x))|
    decreases es, 0
  {
    if es != [] {
      OneListingIsRoutes(es[0], x);
      EntryListingsAreRoutes(es[1..], i + 1, x);
    }
  }

  lemma {:induction false} FindingsAreRoutes(t: Tree, f: Found)
    ensures PipelineRuns.Findings(t, f) == |Routes(t, File(f))|
    decreases t, 1
  {
    if t.listable {
      EntryFindingsAreRoutes(t.entries, 0, f);
    }
  }

  lemma {:induction false} OneFindingIsRoutes(e: Entry, f: Found)
    ensures PipelineRuns.OneFinding(e, f) == |OneRoutes(e, File(f))|
    decreases e, 0
  {
    if e.Sub? {
      FindingsAreRoutes(e.dir, f);
    }
  }

  lemma {:induction false} EntryFindingsAreRoutes(es: seq<Entry>, i: nat, f: Found)
    ensures PipelineRuns.EntryFindings(es, f) == |EntryRoutes(es, i, File(f))|
    decreases es, 0
  {
    if es != [] {
      OneFindingIsRoutes(es[0], f);
      EntryFindingsAreRoutes(es[1..], i + 1, f);
    }
  }

  /**
   * A scan that ran to its end uncancelled has listed each directory, and handled each file of a known format, once for
   * each route that leads to it, so exactly the reachable ones, and once each if there is one route.
   */
  lemma ScanFindsAll(root: Tree, walkers: nat, parsers: nat, steps: seq<Step>, t: State, x: Tree, f: Found)
    requires walkers > 0 && parsers > 0 && PipelineRuns.Run(Initial(root, walkers, parsers), steps, t)
    requires t.main.Finished? && !t.inner && !t.outer
    ensures t.listed[x] == |Routes(root, Dir(x))| && t.handled[f] == |Routes(root, File(f))|
    ensures forall target, route :: route in Routes(root, target) <==> LeadsTo(root, route, target)
    ensures forall target :: Distinct(Routes(root, target))
  {
    PipelineRuns.FinishedRun(root, walkers, parsers, steps, t);
    ListingsAreRoutes(root, x);
    FindingsAreRoutes(root, f);
    forall target ensures Distinct(Routes(root, target)) {
      RoutesExact(root, target);
    }
    forall target, route ensures route in Routes(root, target) <==> LeadsTo(root, route, target) {
      RoutesExact(root, target);
    }
  }
}
