/** `prerequisite_chain`: the cheapest single route to one skill, by Dijkstra from every entry point. */
module PrerequisiteChain {
  import opened Common
  import opened Graphs
  import opened LearningPath

  ghost predicate Route(g: SkillGraph, source: SkillId, target: SkillId, p: seq<SkillId>) {
    Walk(g.edges, p) && p[0] == source && p[|p| - 1] == target
  }

  function Weight(g: SkillGraph, v: SkillId): int {
    if v in g.nodes then g.nodes[v].difficulty else 0
  }

  /** An edge costs the difficulty of the skill it unlocks, so the first node is free. */
  ghost function Cost(g: SkillGraph, p: seq<SkillId>): int {
    if |p| <= 1 then 0 else Cost(g, p[..|p| - 1]) + Weight(g, p[|p| - 1])
  }

  ghost predicate Cheapest(g: SkillGraph, source: SkillId, target: SkillId, p: seq<SkillId>) {
    Route(g, source, target, p) && forall q :: Route(g, source, target, q) ==> Cost(g, p) <= Cost(g, q)
  }

  ghost predicate WeightsAtLeast(g: SkillGraph, floor: int) {
    forall v :: v in g.nodes ==> floor <= g.nodes[v].difficulty
  }

  // ------------------------------------------------------------------ Dijkstra

  /** Tentative costs are costs of real routes; settled ones are a prefix by cost. */
  ghost predicate Labels(g: SkillGraph, source: SkillId, dist: map<SkillId, int>, seen: map<SkillId, int>,
                         paths: map<SkillId, seq<SkillId>>) {
    && source in seen && seen[source] == 0
    && paths.Keys == seen.Keys && dist.Keys <= seen.Keys
    && (forall x :: x in seen ==> Route(g, source, x, paths[x]) && Cost(g, paths[x]) == seen[x] >= 0)
    && (forall x :: x in dist ==> dist[x] == seen[x])
    && (forall x, y :: x in dist && y in seen && y !in dist ==> dist[x] <= seen[y])
  }

  /** All edges out of settled nodes have been relaxed, but for those from `v` to `todo`. */
  ghost predicate Relaxed(g: SkillGraph, dist: map<SkillId, int>, seen: map<SkillId, int>, v: SkillId,
                          todo: set<SkillId>) {
    forall e :: e in g.edges && e.0 in dist && !(e.0 == v && e.1 in todo) ==>
      e.1 in seen && seen[e.1] <= dist[e.0] + Weight(g, e.1)
  }

  /** A route either stays among settled nodes, which are no dearer than it, or has to pass a
      fringe node that is no dearer than it. */
  lemma {:induction false} RoutesMeetTheFringe(g: SkillGraph, source: SkillId, x: SkillId, q: seq<SkillId>,
                                               dist: map<SkillId, int>, seen: map<SkillId, int>,
                                               paths: map<SkillId, seq<SkillId>>)
      returns (y: SkillId)
    requires WeightsAtLeast(g, 0) && Route(g, source, x, q)
    requires Labels(g, source, dist, seen, paths) && Relaxed(g, dist, seen, source, {})
    ensures y in seen && seen[y] <= Cost(g, q)
    ensures y in dist ==> y == x
    decreases |q|
  {
    if |q| == 1 {
      y := source;
    } else {
      var n := |q| - 1;
      assert (q[n - 1], q[n]) in g.edges;
      y := RoutesMeetTheFringe(g, source, q[n - 1], q[..n], dist, seen, paths);
      if y in dist {
        y := x;
      }
    }
  }

  lemma NearestIsSettled(g: SkillGraph, source: SkillId, v: SkillId, dist: map<SkillId, int>, seen: map<SkillId, int>,
                         paths: map<SkillId, seq<SkillId>>)
    requires WeightsAtLeast(g, 0)
    requires Labels(g, source, dist, seen, paths) && Relaxed(g, dist, seen, source, {})
    requires v in seen && v !in dist && forall y :: y in seen && y !in dist ==> seen[v] <= seen[y]
    ensures Cheapest(g, source, v, paths[v])
  {
    forall q | Route(g, source, v, q)
      ensures Cost(g, paths[v]) <= Cost(g, q)
    {
      var y := RoutesMeetTheFringe(g, source, v, q, dist, seen, paths);
    }
  }

  lemma NoFringeNoRoute(g: SkillGraph, source: SkillId, target: SkillId, dist: map<SkillId, int>,
                        seen: map<SkillId, int>, paths: map<SkillId, seq<SkillId>>)
    requires WeightsAtLeast(g, 0)
    requires Labels(g, source, dist, seen, paths) && Relaxed(g, dist, seen, source, {})
    requires target !in dist && seen.Keys - dist.Keys == {}
    ensures forall q :: !Route(g, source, target, q)
  {
    forall y | y in seen
      ensures y in dist
    {
      assert y !in seen.Keys - dist.Keys;
    }
    forall q
      ensures !Route(g, source, target, q)
    {
      if Route(g, source, target, q) {
        var y := RoutesMeetTheFringe(g, source, target, q, dist, seen, paths);
      }
    }
  }

  lemma ExtendRoute(g: SkillGraph, source: SkillId, v: SkillId, p: seq<SkillId>, u: SkillId)
    requires Route(g, source, v, p) && (v, u) in g.edges
    ensures Route(g, source, u, p + [u])
    ensures Cost(g, p + [u]) == Cost(g, p) + Weight(g, u)
  {
    WalkJoin(g.edges, p, [v, u]);
    assert p + [v, u][1..] == p + [u];
    assert (p + [u])[..|p|] == p;
  }

  method Nearest(fringe: set<SkillId>, seen: map<SkillId, int>) returns (v: SkillId)
    requires fringe != {} && fringe <= seen.Keys
    ensures v in fringe && forall y :: y in fringe ==> seen[v] <= seen[y]
  {
    v :| v in fringe;
    var rest := fringe - {v};
    while rest != {}
      invariant v in fringe && rest <= fringe
      invariant forall y :: y in fringe - rest ==> seen[v] <= seen[y]
      decreases |rest|
    {
      var y :| y in rest;
      rest := rest - {y};
      if seen[y] < seen[v] {
        v := y;
      }
    }
  }

  lemma LowerLabel(g: SkillGraph, source: SkillId, dist: map<SkillId, int>, seen: map<SkillId, int>,
                   paths: map<SkillId, seq<SkillId>>, v: SkillId, u: SkillId)
    requires WeightsAtLeast(g, 0) && u in g.nodes
    requires v in dist && (forall x :: x in dist ==> dist[x] <= dist[v])
    requires Labels(g, source, dist, seen, paths) && (v, u) in g.edges
    requires u !in dist && (u in seen ==> dist[v] + Weight(g, u) < seen[u])
    ensures Labels(g, source, dist, seen[u := dist[v] + Weight(g, u)], paths[u := paths[v] + [u]])
  {
    ExtendRoute(g, source, v, paths[v], u);
    var paths' := paths[u := paths[v] + [u]];
    var seen' := seen[u := dist[v] + Weight(g, u)];
    assert paths'.Keys == seen'.Keys;
  }

  /** The nearest fringe node is final, and moves into the settled part. */
  lemma SettleKeeps(g: SkillGraph, source: SkillId, dist: map<SkillId, int>, seen: map<SkillId, int>,
                    paths: map<SkillId, seq<SkillId>>, v: SkillId, dist': map<SkillId, int>)
    requires g.Valid() && WeightsAtLeast(g, 0) && source in g.nodes
    requires Labels(g, source, dist, seen, paths) && Relaxed(g, dist, seen, source, {})
    requires v in seen && v !in dist && forall y :: y in seen.Keys - dist.Keys ==> seen[v] <= seen[y]
    requires dist' == dist[v := seen[v]]
    ensures v in paths && v in g.nodes
    ensures Cheapest(g, source, v, paths[v]) && Cost(g, paths[v]) == seen[v]
    ensures Labels(g, source, dist', seen, paths)
    ensures Relaxed(g, dist', seen, v, g.nodes.Keys)
    ensures forall x :: x in dist' ==> dist'[x] <= seen[v]
  {
    NearestIsSettled(g, source, v, dist, seen, paths);
    RouteStaysInside(g, source, v, paths[v]);
    assert v in paths[v];
    SettleLabels(g, source, dist, seen, paths, v, dist');
  }

  lemma SettleLabels(g: SkillGraph, source: SkillId, dist: map<SkillId, int>, seen: map<SkillId, int>,
                     paths: map<SkillId, seq<SkillId>>, v: SkillId, dist': map<SkillId, int>)
    requires forall e :: e in g.edges ==> e.1 in g.nodes
    requires Labels(g, source, dist, seen, paths) && Relaxed(g, dist, seen, source, {})
    requires v in seen && v !in dist && forall y :: y in seen.Keys - dist.Keys ==> seen[v] <= seen[y]
    requires dist' == dist[v := seen[v]]
    ensures Labels(g, source, dist', seen, paths)
    ensures Relaxed(g, dist', seen, v, g.nodes.Keys)
    ensures forall x :: x in dist' ==> dist'[x] <= seen[v]
  {
    hide Route;
    assert dist'.Keys == dist.Keys + {v};
  }

  lemma SettledLabels(g: SkillGraph, source: SkillId, dist: map<SkillId, int>, seen: map<SkillId, int>,
                      paths: map<SkillId, seq<SkillId>>)
    requires Labels(g, source, dist, seen, paths)
    ensures paths.Keys == seen.Keys && forall x :: x in dist ==> x in seen && seen[x] == dist[x]
  {
    hide Route;
  }

  lemma SourceIsLabelled(g: SkillGraph, source: SkillId)
    ensures Labels(g, source, map[], map[source := 0], map[source := [source]])
    ensures Relaxed(g, map[], map[source := 0], source, {})
  {
  }

  /** Relaxes every edge out of the node just settled. */
  method Relax(g: SkillGraph, ghost source: SkillId, v: SkillId, dist: map<SkillId, int>, seen0: map<SkillId, int>,
               paths0: map<SkillId, seq<SkillId>>)
      returns (seen: map<SkillId, int>, paths: map<SkillId, seq<SkillId>>)
    requires g.Valid() && WeightsAtLeast(g, 0)
    requires v in dist && (forall x :: x in dist ==> dist[x] <= dist[v])
    requires Labels(g, source, dist, seen0, paths0)
    requires Relaxed(g, dist, seen0, v, g.nodes.Keys)
    ensures Labels(g, source, dist, seen, paths) && Relaxed(g, dist, seen, source, {})
    ensures seen0.Keys <= seen.Keys
  {
    hide Labels, Relaxed;
    seen, paths := seen0, paths0;
    var todo := g.nodes.Keys;
    while todo != {}
      invariant todo <= g.nodes.Keys
      invariant Labels(g, source, dist, seen, paths)
      invariant Relaxed(g, dist, seen, v, todo)
      invariant seen0.Keys <= seen.Keys
      decreases |todo|
    {
      var u :| u in todo;
      ghost var before := seen;
      SettledLabels(g, source, dist, seen, paths);
      if (v, u) in g.edges {
        var candidate := dist[v] + g.nodes[u].difficulty;
        if u !in dist && (u !in seen || candidate < seen[u]) {
          LowerLabel(g, source, dist, seen, paths, v, u);
          seen := seen[u := candidate];
          paths := paths[u := paths[v] + [u]];
        }
      }
      RelaxedWithout(g, dist, before, seen, v, u, todo);
      todo := todo - {u};
    }
    RelaxedAll(g, dist, seen, v, source);
  }

  lemma RelaxedWithout(g: SkillGraph, dist: map<SkillId, int>, seen: map<SkillId, int>, seen': map<SkillId, int>,
                       v: SkillId, u: SkillId, todo: set<SkillId>)
    requires Relaxed(g, dist, seen, v, todo) && v in dist
    requires forall x :: x in seen ==> x in seen' && seen'[x] <= seen[x]
    requires (v, u) in g.edges ==> u in seen' && seen'[u] <= dist[v] + Weight(g, u)
    ensures Relaxed(g, dist, seen', v, todo - {u})
  {
  }

  lemma RelaxedAll(g: SkillGraph, dist: map<SkillId, int>, seen: map<SkillId, int>, v: SkillId, v': SkillId)
    requires Relaxed(g, dist, seen, v, {})
    ensures Relaxed(g, dist, seen, v', {})
  {
  }

  /** None when the target cannot be reached; otherwise the cost and a cheapest route. */
  method SingleSourceDijkstra(g: SkillGraph, source: SkillId, target: SkillId) returns (r: Option<(int, seq<SkillId>)>)
    requires g.Valid() && WeightsAtLeast(g, 0)
    requires source in g.nodes
    ensures r.Some? ==> Cheapest(g, source, target, r.value.1) && r.value.0 == Cost(g, r.value.1)
    ensures r.None? ==> forall q :: !Route(g, source, target, q)
  {
    var dist: map<SkillId, int> := map[];
    var seen: map<SkillId, int> := map[source := 0];
    var paths: map<SkillId, seq<SkillId>> := map[source := [source]];
    SourceIsLabelled(g, source);
    hide Labels, Relaxed, Cheapest, WeightsAtLeast, Cost, Route, SkillGraph.Valid;
    while seen.Keys - dist.Keys != {}
      invariant Labels(g, source, dist, seen, paths)
      invariant Relaxed(g, dist, seen, source, {})
      invariant target !in dist
      invariant dist.Keys <= g.nodes.Keys
      decreases |g.nodes.Keys - dist.Keys|
    {
      var v := Nearest(seen.Keys - dist.Keys, seen);
      SettleKeeps(g, source, dist, seen, paths, v, dist[v := seen[v]]);
      if v == target {
        return Some((seen[v], paths[v]));
      }
      ghost var before := dist;
      dist := dist[v := seen[v]];
      assert g.nodes.Keys - dist.Keys == g.nodes.Keys - before.Keys - {v};
      seen, paths := Relax(g, source, v, dist, seen, paths);
    }
    NoFringeNoRoute(g, source, target, dist, seen, paths);
    return None;
  }

  lemma RouteStaysInside(g: SkillGraph, source: SkillId, v: SkillId, p: seq<SkillId>)
    requires g.Valid() && source in g.nodes && Route(g, source, v, p)
    ensures forall x :: x in p ==> x in g.nodes
  {
    forall i | 0 <= i < |p|
      ensures p[i] in g.nodes
    {
      if i > 0 {
        assert (p[i - 1], p[i]) in g.edges;
      }
    }
  }

  // ------------------------------------------------------------------ prerequisite_chain

  /** Known ancestors of the target, or the roots of its ancestry when none is known. */
  ghost function EntryPoints(g: SkillGraph, known: set<SkillId>, target: SkillId): set<SkillId> {
    var held := set a | a in g.nodes && Reaches(g.edges, a, target) && a in known;
    if held != {} then held
    else set a | a in g.nodes && Reaches(g.edges, a, target) && IsRoot(g, a)
  }

  ghost predicate IsRoot(g: SkillGraph, a: SkillId) {
    forall e :: e in g.edges ==> e.1 != a
  }

  ghost predicate RouteFrom(g: SkillGraph, sources: set<SkillId>, target: SkillId, p: seq<SkillId>) {
    p != [] && p[0] in sources && Route(g, p[0], target, p)
  }

  /** A cheapest route over all sources, or the bare target when no source leads to it. */
  ghost predicate BestChain(g: SkillGraph, sources: set<SkillId>, target: SkillId, p: seq<SkillId>) {
    if exists q :: RouteFrom(g, sources, target, q) then
      RouteFrom(g, sources, target, p) && forall q :: RouteFrom(g, sources, target, q) ==> Cost(g, p) <= Cost(g, q)
    else
      p == [target]
  }

  method PrerequisiteChain(g: SkillGraph, target: SkillId, known: set<SkillId>) returns (names: seq<string>)
    requires g.Valid() && WeightsAtLeast(g, 0)
    ensures target !in g.nodes ==> names == []
    ensures target in g.nodes ==>
              exists p :: && BestChain(g, EntryPoints(g, known, target), target, p)
                          && (forall x :: x in p ==> x in g.nodes) && names == NamesOf(g.nodes, p)
  {
    if target !in g.nodes {
      return [];
    }
    var sources := FindEntryPoints(g, target, known);
    var chain := CheapestFrom(g, target, sources);
    names := NamesOf(g.nodes, chain);
  }

  method FindEntryPoints(g: SkillGraph, target: SkillId, known: set<SkillId>) returns (sources: set<SkillId>)
    requires g.Valid()
    ensures sources == EntryPoints(g, known, target)
  {
    var ancestors := Ancestors(g, target);
    sources := set a | a in ancestors && a in known;
    if sources == {} {
      sources := set a | a in ancestors && forall e :: e in g.edges ==> e.1 != a;
    }
  }

  method CheapestFrom(g: SkillGraph, target: SkillId, sources: set<SkillId>) returns (chain: seq<SkillId>)
    requires g.Valid() && WeightsAtLeast(g, 0)
    requires sources <= g.nodes.Keys && target in g.nodes
    ensures BestChain(g, sources, target, chain)
    ensures forall x :: x in chain ==> x in g.nodes
  {
    var best: Option<seq<SkillId>> := None;
    var bestCost := 0;
    var rest := sources;
    while rest != {}
      invariant rest <= sources
      invariant best.None? ==> forall q :: !RouteFrom(g, sources - rest, target, q)
      invariant best.Some? ==> RouteFrom(g, sources - rest, target, best.value)
      invariant best.Some? ==> BestChain(g, sources - rest, target, best.value) && bestCost == Cost(g, best.value)
      decreases |rest|
    {
      var source :| source in rest;
      var found := SingleSourceDijkstra(g, source, target);
      OneMoreSource(g, sources - rest, target, best, source, found);
      assert sources - (rest - {source}) == (sources - rest) + {source};
      rest := rest - {source};
      if found.Some? && (best.None? || found.value.0 < bestCost) {
        bestCost := found.value.0;
        best := Some(found.value.1);
      }
    }
    assert sources - rest == sources;
    if best.Some? {
      chain := best.value;
      RouteStaysInside(g, chain[0], target, chain);
    } else {
      chain := [target];
    }
  }

  /** Comparing the best so far with one more source's cheapest route. */
  lemma OneMoreSource(g: SkillGraph, sources: set<SkillId>, target: SkillId, best: Option<seq<SkillId>>,
                      source: SkillId, found: Option<(int, seq<SkillId>)>)
    requires best.None? ==> forall q :: !RouteFrom(g, sources, target, q)
    requires best.Some? ==> RouteFrom(g, sources, target, best.value) && BestChain(g, sources, target, best.value)
    requires found.Some? ==> Cheapest(g, source, target, found.value.1) && found.value.0 == Cost(g, found.value.1)
    requires found.None? ==> forall q :: !Route(g, source, target, q)
    ensures var more := sources + {source};
            && (found.None? && best.None? ==> forall q :: !RouteFrom(g, more, target, q))
            && (best.Some? ==> RouteFrom(g, more, target, best.value))
            && (found.Some? ==> RouteFrom(g, more, target, found.value.1))
            && (best.Some? && (found.None? || Cost(g, best.value) <= found.value.0) ==>
                BestChain(g, more, target, best.value))
            && (found.Some? && (best.None? || found.value.0 < Cost(g, best.value)) ==>
                BestChain(g, more, target, found.value.1))
  {
    var more := sources + {source};
    forall q
      ensures RouteFrom(g, more, target, q) <==>
                RouteFrom(g, sources, target, q) || (q != [] && q[0] == source && Route(g, source, target, q))
    {
    }
    if best.Some? {
      assert RouteFrom(g, more, target, best.value);
    }
    if found.Some? {
      assert RouteFrom(g, more, target, found.value.1);
    }
  }

  // ------------------------------------------------------------------ laws

  /** Without entry points there is nothing before the target, and otherwise each entry point
      leads to it: the answer "just the target" means "no prerequisites". */
  lemma NoEntryPointsMeansNoAncestors(g: SkillGraph, known: set<SkillId>, target: SkillId)
    requires g.Valid() && target in g.nodes
    ensures EntryPoints(g, known, target) == {} <==> forall a :: !Reaches(g.edges, a, target)
    ensures forall s :: s in EntryPoints(g, known, target) ==> exists q :: RouteFrom(g, {s}, target, q)
  {
    var ancestors := set a | a in g.nodes && Reaches(g.edges, a, target);
    forall a | Reaches(g.edges, a, target)
      ensures a in ancestors
    {
      var w := ReachesFirstEdge(g.edges, a, target);
      assert (a, w) in g.edges;
    }
    if ancestors != {} {
      var root := HasSource(g.edges, ancestors);
      forall e | e in g.edges
        ensures e.1 != root
      {
        if e.1 == root {
          ReachesEdge(g.edges, e.0, root);
          ReachesTransitive(g.edges, e.0, root, target);
        }
      }
      var held := set a | a in g.nodes && Reaches(g.edges, a, target) && a in known;
      assert held == {} ==> root in EntryPoints(g, known, target);
    }
    forall s | s in EntryPoints(g, known, target)
      ensures exists q :: RouteFrom(g, {s}, target, q)
    {
      var q :| WalkBetween(g.edges, s, target, q);
      assert RouteFrom(g, {s}, target, q);
    }
  }

  /** The reported chain is a real route from an entry point whenever the target has prerequisites. */
  lemma ChainIsARoute(g: SkillGraph, known: set<SkillId>, target: SkillId, p: seq<SkillId>)
    requires g.Valid() && target in g.nodes
    requires BestChain(g, EntryPoints(g, known, target), target, p)
    ensures (exists a :: Reaches(g.edges, a, target)) ==>
              RouteFrom(g, EntryPoints(g, known, target), target, p) && |p| >= 2
    ensures (forall a :: !Reaches(g.edges, a, target)) ==> p == [target]
  {
    var sources := EntryPoints(g, known, target);
    NoEntryPointsMeansNoAncestors(g, known, target);
    if sources != {} {
      var s :| s in sources;
      var q :| RouteFrom(g, {s}, target, q);
      assert RouteFrom(g, sources, target, q);
      assert p[0] in sources && Reaches(g.edges, p[0], target);
    }
  }

  lemma {:induction false} CostSplit(g: SkillGraph, p: seq<SkillId>, i: nat)
    requires i < |p|
    ensures Cost(g, p) == Cost(g, p[..i + 1]) + Cost(g, p[i..])
    decreases |p| - i
  {
    var n := |p| - 1;
    if i == n {
      assert p[..i + 1] == p;
    } else {
      CostSplit(g, p[..n], i);
      assert p[..n][..i + 1] == p[..i + 1];
      assert p[..n][i..] == p[i..][..n - i];
    }
  }

  lemma {:induction false} CostFloor(g: SkillGraph, p: seq<SkillId>)
    requires WeightsAtLeast(g, 1) && forall x :: x in p ==> x in g.nodes
    ensures Cost(g, p) >= 0
    ensures |p| >= 2 ==> Cost(g, p) >= 1
  {
    if |p| >= 2 {
      assert p[|p| - 1] in p;
      assert forall x :: x in p[..|p| - 1] ==> x in p;
      CostFloor(g, p[..|p| - 1]);
    }
  }

  /** With every skill costing something, no skill strictly inside the best chain is already known:
      starting from it would have been cheaper. */
  lemma ChainAvoidsKnownSkills(g: SkillGraph, known: set<SkillId>, target: SkillId, p: seq<SkillId>, i: nat)
    requires g.Valid() && target in g.nodes && WeightsAtLeast(g, 1)
    requires BestChain(g, EntryPoints(g, known, target), target, p)
    requires 0 < i < |p| - 1
    ensures p[i] !in known
  {
    var sources := EntryPoints(g, known, target);
    assert RouteFrom(g, sources, target, p);
    if p[i] in known {
      RouteStaysInside(g, p[0], target, p);
      assert p[i] in p;
      WalkReaches(g.edges, p, i, |p| - 1);
      var held := set a | a in g.nodes && Reaches(g.edges, a, target) && a in known;
      assert p[i] in held;
      assert RouteFrom(g, sources, target, p[i..]);
      CostSplit(g, p, i);
      CostFloor(g, p[..i + 1]);
    }
  }
}
