/** Finite directed graphs: walks, reachability, acyclicity. */
module Graphs {
  import opened Common

  ghost predicate Walk<V>(edges: set<(V, V)>, p: seq<V>) {
    && |p| > 0
    && forall i, j :: 0 <= i && j == i + 1 && j < |p| ==> (p[i], p[j]) in edges
  }

  /** A walk of at least one edge from `u` to `v`. */
  ghost predicate WalkBetween<V>(edges: set<(V, V)>, u: V, v: V, p: seq<V>) {
    |p| >= 2 && Walk(edges, p) && p[0] == u && p[|p| - 1] == v
  }

  ghost predicate Reaches<V(!new)>(edges: set<(V, V)>, u: V, v: V) {
    exists p :: WalkBetween(edges, u, v, p)
  }

  ghost predicate Acyclic<V(!new)>(edges: set<(V, V)>) {
    forall v :: !Reaches(edges, v, v)
  }

  /** A closed walk visiting no node twice apart from its two ends. */
  ghost predicate Cycle<V>(edges: set<(V, V)>, p: seq<V>) {
    |p| >= 2 && Walk(edges, p) && p[0] == p[|p| - 1] && Distinct(p[1..])
  }

  lemma WalkJoin<V>(edges: set<(V, V)>, p: seq<V>, q: seq<V>)
    requires Walk(edges, p) && Walk(edges, q) && p[|p| - 1] == q[0]
    ensures Walk(edges, p + q[1..])
  {
    var r := p + q[1..];
    forall i, j | 0 <= i && j == i + 1 && j < |r|
      ensures (r[i], r[j]) in edges
    {
      if j >= |p| {
        assert r[j] == q[j - |p| + 1];
        assert r[i] == q[i - |p| + 1];
      }
    }
  }

  lemma ReachesEdge<V(!new)>(edges: set<(V, V)>, u: V, v: V)
    requires (u, v) in edges
    ensures Reaches(edges, u, v)
  {
    assert WalkBetween(edges, u, v, [u, v]);
  }

  lemma ReachesTransitive<V(!new)>(edges: set<(V, V)>, u: V, v: V, w: V)
    requires Reaches(edges, u, v) && Reaches(edges, v, w)
    ensures Reaches(edges, u, w)
  {
    var p :| WalkBetween(edges, u, v, p);
    var q :| WalkBetween(edges, v, w, q);
    WalkJoin(edges, p, q);
    assert WalkBetween(edges, u, w, p + q[1..]);
  }

  /** Every later node of a walk is reached from every earlier one. */
  lemma WalkReaches<V(!new)>(edges: set<(V, V)>, p: seq<V>, i: nat, j: nat)
    requires Walk(edges, p) && i < j < |p|
    ensures Reaches(edges, p[i], p[j])
  {
    assert WalkBetween(edges, p[i], p[j], p[i..j + 1]);
  }

  lemma ReachesFirstEdge<V(!new)>(edges: set<(V, V)>, u: V, v: V) returns (w: V)
    requires Reaches(edges, u, v)
    ensures (u, w) in edges && (w == v || Reaches(edges, w, v))
  {
    var p :| WalkBetween(edges, u, v, p);
    w := p[1];
    if |p| > 2 {
      WalkReaches(edges, p, 1, |p| - 1);
    }
  }

  lemma CycleRefutesAcyclic<V(!new)>(edges: set<(V, V)>, p: seq<V>)
    requires Cycle(edges, p)
    ensures !Acyclic(edges)
  {
    assert WalkBetween(edges, p[0], p[0], p);
    assert Reaches(edges, p[0], p[0]);
  }

  lemma AcyclicWalkDistinct<V(!new)>(edges: set<(V, V)>, p: seq<V>)
    requires Acyclic(edges) && Walk(edges, p)
    ensures Distinct(p)
  {
    forall i, j | 0 <= i < j < |p|
      ensures p[i] != p[j]
    {
      WalkReaches(edges, p, i, j);
    }
  }

  /** A number that grows along every edge certifies acyclicity. */
  lemma RankedIsAcyclic<V(!new)>(edges: set<(V, V)>, rank: map<V, int>)
    requires forall e :: e in edges ==> e.0 in rank && e.1 in rank && rank[e.0] < rank[e.1]
    ensures Acyclic(edges)
  {
    forall v
      ensures !Reaches(edges, v, v)
    {
      if Reaches(edges, v, v) {
        var p :| WalkBetween(edges, v, v, p);
        RankGrows(edges, rank, p);
      }
    }
  }

  lemma {:induction false} RankGrows<V>(edges: set<(V, V)>, rank: map<V, int>, p: seq<V>)
    requires forall e :: e in edges ==> e.0 in rank && e.1 in rank && rank[e.0] < rank[e.1]
    requires |p| >= 2 && Walk(edges, p)
    ensures p[0] in rank && p[|p| - 1] in rank && rank[p[0]] < rank[p[|p| - 1]]
  {
    var n := |p| - 1;
    assert (p[n - 1], p[n]) in edges;
    if n > 1 {
      RankGrows(edges, rank, p[..n]);
    }
  }

  /** In an acyclic graph every non-empty finite set of nodes has one without a predecessor
      inside the set: otherwise walking backwards would have to repeat a node. */
  lemma HasSource<V(!new)>(edges: set<(V, V)>, nodes: set<V>) returns (v: V)
    requires Acyclic(edges) && nodes != {}
    ensures v in nodes && forall u :: u in nodes ==> (u, v) !in edges
  {
    var start :| start in nodes;
    v := WalkBack(edges, nodes, [start]);
  }

  lemma {:induction false} WalkBack<V(!new)>(edges: set<(V, V)>, nodes: set<V>, p: seq<V>) returns (v: V)
    requires Acyclic(edges) && Walk(edges, p)
    requires forall x :: x in p ==> x in nodes
    ensures v in nodes && forall u :: u in nodes ==> (u, v) !in edges
    decreases |nodes| - |p|
  {
    v := p[0];
    if u :| u in nodes && (u, v) in edges {
      var q := [u] + p;
      AcyclicWalkDistinct(edges, q);
      DistinctBound(q, nodes);
      v := WalkBack(edges, nodes, q);
    }
  }
}
