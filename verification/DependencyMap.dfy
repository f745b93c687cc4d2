/**
 * The service dependency graph (backend/src/dependency_map.rs): worklist
 * reachability, and the insertion step that refuses edges closing a cycle.
 */
module DependencyMap {

  datatype Kind = SynchronousRpc | AsyncMessage | DataStore

  /** `from` depends on `to`. */
  datatype Edge = Edge(from: string, to: string, kind: Kind)

  /** The two edge lists of a recorded change, as sets: the source lists them in hash order. */
  datatype Change = Change(added: set<Edge>, removed: set<Edge>)

  // ---------------------------------------------------------------------
  // Directed walks
  // ---------------------------------------------------------------------

  predicate Linked(edges: set<Edge>, a: string, b: string) {
    exists e :: e in edges && e.from == a && e.to == b
  }

  /** There is a walk of exactly `n` links from `a` to `b`. */
  ghost predicate WalkOf(edges: set<Edge>, a: string, b: string, n: nat)
    decreases n
  {
    if n == 0 then a == b
    else exists m :: Linked(edges, a, m) && WalkOf(edges, m, b, n - 1)
  }

  /** A directed path, possibly empty, leads from `a` to `b`. */
  ghost predicate Reaches(edges: set<Edge>, a: string, b: string) {
    exists n: nat :: WalkOf(edges, a, b, n)
  }

  /** A directed path of at least one link leads from `a` to `b`. */
  ghost predicate DependsOn(edges: set<Edge>, a: string, b: string) {
    exists n: nat :: n >= 1 && WalkOf(edges, a, b, n)
  }

  ghost predicate Acyclic(edges: set<Edge>) {
    forall a :: !DependsOn(edges, a, a)
  }

  lemma {:induction false} WalkConcat(edges: set<Edge>, a: string, b: string, c: string, m: nat, n: nat)
    requires WalkOf(edges, a, b, m) && WalkOf(edges, b, c, n)
    ensures WalkOf(edges, a, c, m + n)
    decreases m
  {
    if m > 0 {
      var x :| Linked(edges, a, x) && WalkOf(edges, x, b, m - 1);
      WalkConcat(edges, x, b, c, m - 1, n);
    }
  }

  lemma ReachesSelf(edges: set<Edge>, a: string)
    ensures Reaches(edges, a, a)
  {
    assert WalkOf(edges, a, a, 0);
  }

  lemma LinkWalk(edges: set<Edge>, a: string, b: string)
    requires Linked(edges, a, b)
    ensures WalkOf(edges, a, b, 1)
  {
    assert WalkOf(edges, b, b, 0);
  }

  lemma ReachesConcat(edges: set<Edge>, a: string, b: string, c: string)
    requires Reaches(edges, a, b) && Reaches(edges, b, c)
    ensures Reaches(edges, a, c)
  {
    var m: nat :| WalkOf(edges, a, b, m);
    var n: nat :| WalkOf(edges, b, c, n);
    WalkConcat(edges, a, b, c, m, n);
  }

  lemma LinkThenReaches(edges: set<Edge>, a: string, b: string, c: string)
    requires Linked(edges, a, b) && Reaches(edges, b, c)
    ensures DependsOn(edges, a, c)
  {
    var n: nat :| WalkOf(edges, b, c, n);
    assert WalkOf(edges, a, c, n + 1);
  }

  lemma ReachesThenLink(edges: set<Edge>, a: string, b: string, c: string)
    requires Reaches(edges, a, b) && Linked(edges, b, c)
    ensures DependsOn(edges, a, c)
  {
    var n: nat :| WalkOf(edges, a, b, n);
    LinkWalk(edges, b, c);
    WalkConcat(edges, a, b, c, n, 1);
  }

  // ---------------------------------------------------------------------
  // Closed sets bound what a search can still find
  // ---------------------------------------------------------------------

  ghost predicate ClosedDownstream(edges: set<Edge>, s: set<string>) {
    forall a, b :: a in s && Linked(edges, a, b) ==> b in s
  }

  ghost predicate ClosedUpstream(edges: set<Edge>, s: set<string>) {
    forall a, b :: b in s && Linked(edges, a, b) ==> a in s
  }

  lemma {:induction false} WalkStaysDownstream(edges: set<Edge>, s: set<string>, a: string, b: string, n: nat)
    requires ClosedDownstream(edges, s) && a in s && WalkOf(edges, a, b, n)
    ensures b in s
    decreases n
  {
    if n > 0 {
      var m :| Linked(edges, a, m) && WalkOf(edges, m, b, n - 1);
      WalkStaysDownstream(edges, s, m, b, n - 1);
    }
  }

  /** Walking back from `b` along a walk never leaves an upstream-closed set. */
  lemma {:induction false} WalkStaysUpstream(edges: set<Edge>, s: set<string>, a: string, b: string, n: nat)
    requires ClosedUpstream(edges, s) && b in s && WalkOf(edges, a, b, n)
    ensures a in s
    decreases n
  {
    if n > 0 {
      var m :| Linked(edges, a, m) && WalkOf(edges, m, b, n - 1);
      WalkStaysUpstream(edges, s, m, b, n - 1);
    }
  }

  // ---------------------------------------------------------------------
  // The searches
  // ---------------------------------------------------------------------

  /** Services `service` directly depends on, one per edge, in some order. */
  method DownstreamOf(edges: set<Edge>, service: string) returns (found: seq<string>)
    ensures forall x :: x in found <==> Linked(edges, service, x)
    ensures |found| == |set e | e in edges && e.from == service|
  {
    found := [];
    var rest := set e | e in edges && e.from == service;
    ghost var all := rest;
    while rest != {}
      invariant rest <= all
      invariant |found| + |rest| == |all|
      invariant forall e :: e in all - rest ==> e.to in found
      invariant forall i :: 0 <= i < |found| ==> Linked(edges, service, found[i])
      decreases rest
    {
      var e :| e in rest;
      rest := rest - {e};
      found := found + [e.to];
    }
    assert all - rest == all;
  }

  /** Services that directly depend on `service`, one per edge, in some order. */
  method UpstreamOf(edges: set<Edge>, service: string) returns (found: seq<string>)
    ensures forall x :: x in found <==> Linked(edges, x, service)
    ensures |found| == |set e | e in edges && e.to == service|
  {
    found := [];
    var rest := set e | e in edges && e.to == service;
    ghost var all := rest;
    while rest != {}
      invariant rest <= all
      invariant |found| + |rest| == |all|
      invariant forall e :: e in all - rest ==> e.from in found
      invariant forall i :: 0 <= i < |found| ==> Linked(edges, found[i], service)
      decreases rest
    {
      var e :| e in rest;
      rest := rest - {e};
      found := found + [e.from];
    }
    assert all - rest == all;
  }

  ghost function Targets(edges: set<Edge>): set<string> {
    set e | e in edges :: e.to
  }

  ghost function Sources(edges: set<Edge>): set<string> {
    set e | e in edges :: e.from
  }

  /** One expansion of `has_path`: stop at `to`, otherwise push the services not visited before. */
  method Expand(nexts: seq<string>, to: string, visited: set<string>, frontier: seq<string>)
    returns (hit: bool, visited': set<string>, frontier': seq<string>)
    ensures hit <==> to in nexts
    ensures !hit ==> visited' == visited + set x | x in nexts
    ensures !hit ==> forall x :: x in frontier' <==> x in frontier || (x in nexts && x !in visited)
    ensures !hit && visited' == visited ==> frontier' == frontier
  {
    visited', frontier' := visited, frontier;
    for i := 0 to |nexts|
      invariant to !in nexts[..i]
      invariant visited' == visited + set x | x in nexts[..i]
      invariant forall x :: x in frontier' <==> x in frontier || (x in nexts[..i] && x !in visited)
      invariant visited' == visited ==> frontier' == frontier
    {
      assert nexts[..i + 1] == nexts[..i] + [nexts[i]];
      if nexts[i] == to {
        return true, visited', frontier';
      }
      if nexts[i] !in visited' {
        visited' := visited' + {nexts[i]};
        frontier' := frontier' + [nexts[i]];
      }
    }
    assert nexts[..|nexts|] == nexts;
    hit := false;
  }

  /** Depth-first search from `from`; exact on every finite graph, cyclic or not. */
  method HasPath(edges: set<Edge>, from: string, to: string) returns (found: bool)
    ensures found <==> Reaches(edges, from, to)
  {
    hide WalkOf;
    ReachesSelf(edges, from);
    if from == to {
      return true;
    }
    var visited: set<string> := {};
    var frontier := [from];
    while frontier != []
      invariant to !in visited && visited <= Targets(edges)
      invariant forall x :: x in visited ==> Reaches(edges, from, x)
      invariant forall x :: x in frontier ==> x in visited || x == from
      invariant forall a, b :: (a in visited || a == from) && a !in frontier && Linked(edges, a, b) ==> b in visited
      decreases Targets(edges) - visited, |frontier|
    {
      var current := frontier[|frontier| - 1];
      var nexts := DownstreamOf(edges, current);
      forall x | x in nexts
        ensures Reaches(edges, from, x) && x in Targets(edges)
      {
        ReachesThenLink(edges, from, current, x);
      }
      var hit;
      hit, visited, frontier := Expand(nexts, to, visited, frontier[..|frontier| - 1]);
      if hit {
        return true;
      }
    }
    if Reaches(edges, from, to) {
      var n: nat :| WalkOf(edges, from, to, n);
      WalkStaysDownstream(edges, visited + {from}, from, to, n);
    }
    return false;
  }

  /** Every service that would be affected if `service` failed, each listed once. */
  method ImpactedBy(edges: set<Edge>, service: string) returns (impacted: seq<string>)
    ensures forall x :: x in impacted <==> DependsOn(edges, x, service)
    ensures forall i, j :: 0 <= i < j < |impacted| ==> impacted[i] != impacted[j]
  {
    hide WalkOf;
    ReachesSelf(edges, service);
    var visited: set<string> := {};
    var frontier := [service];
    while frontier != []
      invariant visited <= Sources(edges)
      invariant forall x :: x in visited ==> DependsOn(edges, x, service)
      invariant forall x :: x in frontier ==> x in visited || x == service
      invariant forall a, b :: (b in visited || b == service) && b !in frontier && Linked(edges, a, b) ==> a in visited
      decreases Sources(edges) - visited, |frontier|
    {
      var current := frontier[|frontier| - 1];
      var below := frontier[..|frontier| - 1];
      ghost var visited0 := visited;
      frontier := below;
      var ups := UpstreamOf(edges, current);
      for i := 0 to |ups|
        invariant visited <= Sources(edges)
        invariant visited == visited0 + set j | 0 <= j < i :: ups[j]
        invariant forall x :: x in frontier <==> x in below || x in visited - visited0
        invariant visited == visited0 ==> frontier == below
      {
        var up := ups[i];
        assert Linked(edges, up, current);
        assert up in Sources(edges);
        if up !in visited {
          visited := visited + {up};
          frontier := frontier + [up];
        }
      }
      forall x | x in visited
        ensures DependsOn(edges, x, service)
      {
        if x !in visited0 {
          LinkThenReaches(edges, x, current, service);
        }
      }
    }
    forall x | DependsOn(edges, x, service)
      ensures x in visited
    {
      var n: nat :| n >= 1 && WalkOf(edges, x, service, n);
      ImpactIsVisited(edges, visited, x, service, n);
    }
    impacted := Collect(visited);
  }

  lemma ImpactIsVisited(edges: set<Edge>, visited: set<string>, x: string, service: string, n: nat)
    requires forall a, b :: (b in visited || b == service) && Linked(edges, a, b) ==> a in visited
    requires n >= 1 && WalkOf(edges, x, service, n)
    ensures x in visited
  {
    var m :| Linked(edges, x, m) && WalkOf(edges, m, service, n - 1);
    WalkStaysUpstream(edges, visited + {service}, m, service, n - 1);
  }

  method Collect(s: set<string>) returns (listed: seq<string>)
    ensures forall x :: x in listed <==> x in s
    ensures forall i, j :: 0 <= i < j < |listed| ==> listed[i] != listed[j]
  {
    listed := [];
    var rest := s;
    while rest != {}
      invariant rest <= s
      invariant forall x :: x in listed <==> x in s - rest
      invariant forall i, j :: 0 <= i < j < |listed| ==> listed[i] != listed[j]
      decreases rest
    {
      var x :| x in rest;
      assert x !in listed;
      rest := rest - {x};
      listed := listed + [x];
    }
  }

  // ---------------------------------------------------------------------
  // Insertion
  // ---------------------------------------------------------------------

  ghost predicate WouldCreateCycle(edges: set<Edge>, from: string, to: string) {
    from == to || Reaches(edges, to, from)
  }

  /** A walk over a graph with one extra edge either avoids it or splits around its last use. */
  lemma {:induction false} WalkWithExtraEdge(edges: set<Edge>, e: Edge, a: string, b: string, n: nat)
    requires WalkOf(edges + {e}, a, b, n)
    ensures Reaches(edges, a, b) || (Reaches(edges, a, e.from) && Reaches(edges, e.to, b))
    decreases n
  {
    if n == 0 {
      assert WalkOf(edges, a, b, 0);
    } else {
      var m :| Linked(edges + {e}, a, m) && WalkOf(edges + {e}, m, b, n - 1);
      WalkWithExtraEdge(edges, e, m, b, n - 1);
      if Linked(edges, a, m) {
        LinkWalk(edges, a, m);
        if Reaches(edges, m, b) {
          ReachesConcat(edges, a, m, b);
        } else {
          ReachesConcat(edges, a, m, e.from);
        }
      } else {
        assert a == e.from && m == e.to;
        assert WalkOf(edges, a, a, 0);
      }
    }
  }

  lemma {:induction false} WalkGrows(edges: set<Edge>, more: set<Edge>, a: string, b: string, n: nat)
    requires edges <= more && WalkOf(edges, a, b, n)
    ensures WalkOf(more, a, b, n)
    decreases n
  {
    if n > 0 {
      var m :| Linked(edges, a, m) && WalkOf(edges, m, b, n - 1);
      WalkGrows(edges, more, m, b, n - 1);
      assert Linked(more, a, m);
    }
  }

  /** The guard is exact: on an acyclic graph it fires precisely for the edges that close a cycle. */
  lemma GuardIsExact(edges: set<Edge>, e: Edge)
    requires Acyclic(edges)
    ensures WouldCreateCycle(edges, e.from, e.to) <==> !Acyclic(edges + {e})
  {
    var more := edges + {e};
    if WouldCreateCycle(edges, e.from, e.to) {
      assert Linked(more, e.from, e.to);
      if e.from == e.to {
        assert WalkOf(more, e.to, e.from, 0);
      } else {
        var n: nat :| WalkOf(edges, e.to, e.from, n);
        WalkGrows(edges, more, e.to, e.from, n);
      }
      LinkThenReaches(more, e.from, e.to, e.from);
    }
    if a :| DependsOn(more, a, a) {
      CycleUsesExtraEdge(edges, e, a);
    }
  }

  lemma CycleUsesExtraEdge(edges: set<Edge>, e: Edge, a: string)
    requires Acyclic(edges) && DependsOn(edges + {e}, a, a)
    ensures Reaches(edges, e.to, e.from)
  {
    var more := edges + {e};
    var n: nat :| n >= 1 && WalkOf(more, a, a, n);
    var m :| Linked(more, a, m) && WalkOf(more, m, a, n - 1);
    WalkWithExtraEdge(edges, e, m, a, n - 1);
    if Linked(edges, a, m) {
      if Reaches(edges, m, a) {
        LinkThenReaches(edges, a, m, a);
        assert false;
      }
      LinkWalk(edges, a, m);
      ReachesConcat(edges, e.to, a, m);
      ReachesConcat(edges, e.to, m, e.from);
    } else {
      assert a == e.from && m == e.to;
    }
  }

  /** What one request does to the graph and to the change history. */
  datatype MapState = MapState(edges: set<Edge>, changes: seq<Change>)

  function Diff(current: set<Edge>, previous: set<Edge>): Change {
    Change(current - previous, previous - current)
  }

  ghost function Discovered(s: MapState, e: Edge): MapState {
    if WouldCreateCycle(s.edges, e.from, e.to) then s
    else
      var edges := s.edges + {e};
      MapState(edges, if e in s.edges then s.changes else s.changes + [Diff(edges, s.edges)])
  }

  ghost function RunOf(requests: seq<Edge>): MapState {
    if requests == [] then MapState({}, [])
    else Discovered(RunOf(requests[..|requests| - 1]), requests[|requests| - 1])
  }

  /** Applying recorded changes in order, starting from the empty graph. */
  function Replay(changes: seq<Change>): set<Edge> {
    if changes == [] then {}
    else
      var last := changes[|changes| - 1];
      Replay(changes[..|changes| - 1]) - last.removed + last.added
  }

  lemma EmptyIsAcyclic()
    ensures Acyclic({})
  {
    assert forall a, b :: !Linked({}, a, b);
  }

  /** The recorded change is what replaying it needs. */
  lemma ReplayStep(changes: seq<Change>, edges: set<Edge>, e: Edge)
    requires Replay(changes) == edges
    ensures Replay(changes + [Diff(edges + {e}, edges)]) == edges + {e}
  {
    var more := changes + [Diff(edges + {e}, edges)];
    assert more[..|changes|] == changes;
  }

  lemma DiscoverKeeps(s: MapState, e: Edge)
    requires Acyclic(s.edges) && Replay(s.changes) == s.edges
    ensures Acyclic(Discovered(s, e).edges)
    ensures Replay(Discovered(s, e).changes) == Discovered(s, e).edges
  {
    hide Acyclic, Replay, Reaches, Diff;
    GuardIsExact(s.edges, e);
    ReplayStep(s.changes, s.edges, e);
    if e in s.edges {
      assert s.edges + {e} == s.edges;
    }
  }

  /** Over every sequence of requests the graph stays acyclic and its history rebuilds it. */
  lemma {:induction false} EveryRunIsAcyclic(requests: seq<Edge>)
    ensures Acyclic(RunOf(requests).edges)
    ensures Replay(RunOf(requests).changes) == RunOf(requests).edges
    ensures RunOf(requests).edges <= set e | e in requests
  {
    if requests == [] {
      EmptyIsAcyclic();
    } else {
      hide Acyclic, Replay, Reaches, Diff;
      EveryRunIsAcyclic(requests[..|requests| - 1]);
      DiscoverKeeps(RunOf(requests[..|requests| - 1]), requests[|requests| - 1]);
    }
  }

  /** After any run, the next request is refused exactly when its edge would close a cycle. */
  lemma RefusedExactlyWhenCyclic(requests: seq<Edge>, e: Edge)
    ensures var s := RunOf(requests);
      && (e in RunOf(requests + [e]).edges <==> Acyclic(s.edges + {e}))
      && (!Acyclic(s.edges + {e}) ==> RunOf(requests + [e]) == s)
  {
    hide Acyclic, Replay, Reaches, Diff;
    EveryRunIsAcyclic(requests);
    var s := RunOf(requests);
    GuardIsExact(s.edges, e);
    assert (requests + [e])[..|requests|] == requests;
    if e in s.edges {
      assert s.edges + {e} == s.edges;
    }
  }

  /** After any run, no service is in its own blast radius. */
  lemma NoServiceImpactsItself(requests: seq<Edge>, service: string)
    ensures !DependsOn(RunOf(requests).edges, service, service)
  {
    EveryRunIsAcyclic(requests);
  }

  /** The shared state behind the handlers; the graph and the history change in place. */
  class DependencyMapState {
    var edges: set<Edge>
    var changes: seq<Change>
    ghost var requests: seq<Edge>

    ghost predicate Valid()
      reads this
    {
      RunOf(requests) == MapState(edges, changes)
    }

    constructor ()
      ensures Valid() && requests == [] && edges == {} && changes == []
    {
      edges, changes, requests := {}, [], [];
    }

    /** `discover_dependencies`: record one observed call unless it would close a cycle. */
    method Discover(e: Edge) returns (accepted: bool)
      requires Valid()
      modifies this
      ensures Valid() && requests == old(requests) + [e]
      ensures accepted <==> Acyclic(old(edges) + {e})
      ensures edges == if accepted then old(edges) + {e} else old(edges)
      ensures changes == if accepted && e !in old(edges) then old(changes) + [Change({e}, {})] else old(changes)
    {
      EveryRunIsAcyclic(requests);
      GuardIsExact(edges, e);
      ghost var requests0 := requests;
      requests := requests + [e];
      assert requests[..|requests| - 1] == requests0;
      var cyclic := e.from == e.to;
      if !cyclic {
        cyclic := HasPath(edges, e.to, e.from);
      }
      if cyclic {
        return false;
      }
      var previous := edges;
      edges := edges + {e};
      if e !in previous {
        changes := changes + [Diff(edges, previous)];
        assert Diff(edges, previous) == Change({e}, {});
      }
      return true;
    }

    /** `analyze_impact`: the direct neighbours on both sides, and everyone affected. */
    method AnalyzeImpact(service: string)
      returns (downstream: seq<string>, upstream: seq<string>, impacted: seq<string>)
      requires Valid()
      ensures forall x :: x in downstream <==> Linked(edges, service, x)
      ensures |downstream| == |set e | e in edges && e.from == service|
      ensures forall x :: x in upstream <==> Linked(edges, x, service)
      ensures |upstream| == |set e | e in edges && e.to == service|
      ensures forall x :: x in impacted <==> DependsOn(edges, x, service)
      ensures forall i, j :: 0 <= i < j < |impacted| ==> impacted[i] != impacted[j]
      ensures service !in impacted
    {
      hide Linked, RunOf;
      NoServiceImpactsItself(requests, service);
      downstream := DownstreamOf(edges, service);
      upstream := UpstreamOf(edges, service);
      impacted := ImpactedBy(edges, service);
    }
  }
}
