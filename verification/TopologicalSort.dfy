/** Lexicographic topological sort: repeatedly take the least node with no predecessor left. */
module TopologicalSort {
  import opened Common
  import opened Sorting
  import opened Graphs

  ghost predicate Ready<V>(edges: set<(V, V)>, rest: set<V>, v: V) {
    v in rest && forall u :: u in rest ==> (u, v) !in edges
  }

  ghost predicate LeastReady<V>(edges: set<(V, V)>, rest: set<V>, leq: (V, V) -> bool, v: V) {
    && Ready(edges, rest, v)
    && forall w :: w in rest && Ready(edges, rest, w) ==> leq(v, w)
  }

  /** Every element is the least one that was unblocked when its turn came. */
  ghost predicate GreedyPrefix<V>(edges: set<(V, V)>, nodes: set<V>, leq: (V, V) -> bool, p: seq<V>) {
    forall i :: 0 <= i < |p| ==> LeastReady(edges, nodes - Elements(p[..i]), leq, p[i])
  }

  ghost predicate GreedyOrder<V>(edges: set<(V, V)>, nodes: set<V>, leq: (V, V) -> bool, p: seq<V>) {
    GreedyPrefix(edges, nodes, leq, p) && Elements(p) == nodes
  }

  /** Every node once, and no edge pointing backwards. */
  ghost predicate TopologicalOrder<V>(edges: set<(V, V)>, nodes: set<V>, p: seq<V>) {
    && Distinct(p) && Elements(p) == nodes
    && forall i, j :: 0 <= i < j < |p| ==> (p[j], p[i]) !in edges
  }

  /** `p` equals `q` or is smaller at the first place where they differ. */
  ghost predicate LexicographicLeq<V>(leq: (V, V) -> bool, p: seq<V>, q: seq<V>) {
    p == q || exists k :: 0 <= k < |p| && k < |q| && p[..k] == q[..k] && p[k] != q[k] && leq(p[k], q[k])
  }

  ghost predicate Antisymmetric<V>(leq: (V, V) -> bool, nodes: set<V>) {
    forall a, b :: a in nodes && b in nodes && leq(a, b) && leq(b, a) ==> a == b
  }

  lemma PrefixElements<V>(p: seq<V>, i: nat, x: V)
    requires i <= |p|
    ensures x in Elements(p[..i]) <==> exists j :: 0 <= j < i && p[j] == x
  {
    if j :| 0 <= j < i && p[j] == x {
      assert p[..i][j] == x;
    }
  }

  lemma PrefixGrows<V>(p: seq<V>, i: nat, j: nat)
    requires i <= j <= |p|
    ensures Elements(p[..i]) <= Elements(p[..j])
  {
    assert p[..j] == p[..i] + p[i..j];
  }

  lemma GreedyIsTopological<V>(edges: set<(V, V)>, nodes: set<V>, leq: (V, V) -> bool, p: seq<V>)
    requires GreedyOrder(edges, nodes, leq, p)
    ensures TopologicalOrder(edges, nodes, p)
  {
    forall i, j | 0 <= i < j < |p|
      ensures p[i] != p[j] && (p[j], p[i]) !in edges
    {
      assert LeastReady(edges, nodes - Elements(p[..j]), leq, p[j]);
      assert LeastReady(edges, nodes - Elements(p[..i]), leq, p[i]);
      PrefixElements(p, j, p[i]);
      PrefixGrows(p, i, j);
    }
  }

  /** The first element of any remaining topological order is unblocked. */
  lemma NextIsReady<V>(edges: set<(V, V)>, nodes: set<V>, q: seq<V>, k: nat)
    requires TopologicalOrder(edges, nodes, q) && k < |q|
    requires (q[k], q[k]) !in edges
    ensures Ready(edges, nodes - Elements(q[..k]), q[k])
  {
    var rest := nodes - Elements(q[..k]);
    assert q[k] in Elements(q);
    PrefixElements(q, k, q[k]);
    forall u | u in rest
      ensures (u, q[k]) !in edges
    {
      assert u in Elements(q);
      var j :| 0 <= j < |q| && q[j] == u;
      PrefixElements(q, k, u);
    }
  }

  /** The greedy order is lexicographically below every topological order of the same nodes. */
  lemma GreedyIsLeast<V>(edges: set<(V, V)>, nodes: set<V>, leq: (V, V) -> bool, p: seq<V>, q: seq<V>)
    requires GreedyOrder(edges, nodes, leq, p)
    requires TopologicalOrder(edges, nodes, q)
    requires forall v :: v in nodes ==> (v, v) !in edges
    ensures LexicographicLeq(leq, p, q)
  {
    GreedyIsTopological(edges, nodes, leq, p);
    DistinctCount(p);
    DistinctCount(q);
    if p != q {
      var k := FirstDifference(p, q);
      assert q[k] in Elements(q);
      NextIsReady(edges, nodes, q, k);
      assert LeastReady(edges, nodes - Elements(p[..k]), leq, p[k]);
    }
  }

  lemma {:induction false} FirstDifference<V>(p: seq<V>, q: seq<V>) returns (k: nat)
    requires |p| == |q| && p != q
    ensures k < |p| && p[..k] == q[..k] && p[k] != q[k]
  {
    if p[0] != q[0] {
      k := 0;
    } else {
      assert p == [p[0]] + p[1..] && q == [q[0]] + q[1..];
      var rest := FirstDifference(p[1..], q[1..]);
      k := rest + 1;
      assert p[..k] == [p[0]] + p[1..][..rest] && q[..k] == [q[0]] + q[1..][..rest];
    }
  }

  /** Without ties there is exactly one greedy order. */
  lemma GreedyUnique<V>(edges: set<(V, V)>, nodes: set<V>, leq: (V, V) -> bool, p: seq<V>, q: seq<V>)
    requires GreedyOrder(edges, nodes, leq, p) && GreedyOrder(edges, nodes, leq, q)
    requires Antisymmetric(leq, nodes)
    ensures p == q
  {
    GreedyIsTopological(edges, nodes, leq, p);
    GreedyIsTopological(edges, nodes, leq, q);
    DistinctCount(p);
    DistinctCount(q);
    assert |p| == |q|;
    GreedyAgree(edges, nodes, leq, p, q, |p|);
    assert p[..|p|] == p && q[..|p|] == q;
  }

  lemma {:induction false} GreedyAgree<V>(edges: set<(V, V)>, nodes: set<V>, leq: (V, V) -> bool, p: seq<V>, q: seq<V>,
                                          k: nat)
    requires GreedyPrefix(edges, nodes, leq, p) && GreedyPrefix(edges, nodes, leq, q)
    requires Antisymmetric(leq, nodes)
    requires k <= |p| && k <= |q|
    ensures p[..k] == q[..k]
  {
    if k > 0 {
      GreedyAgree(edges, nodes, leq, p, q, k - 1);
      assert LeastReady(edges, nodes - Elements(p[..k - 1]), leq, p[k - 1]);
      assert LeastReady(edges, nodes - Elements(q[..k - 1]), leq, q[k - 1]);
      assert p[k - 1] == q[k - 1];
      assert p[..k] == p[..k - 1] + [p[k - 1]] && q[..k] == q[..k - 1] + [q[k - 1]];
    }
  }

  /** What is left of a greedy order is the greedy order of what is left. */
  lemma GreedySuffix<V>(edges: set<(V, V)>, nodes: set<V>, leq: (V, V) -> bool, p: seq<V>, k: nat)
    requires GreedyOrder(edges, nodes, leq, p) && k <= |p|
    ensures GreedyOrder(edges, nodes - Elements(p[..k]), leq, p[k..])
  {
    var rest := nodes - Elements(p[..k]);
    GreedyIsTopological(edges, nodes, leq, p);
    SuffixElements(p, k);
    hide LeastReady, Distinct;
    forall i | 0 <= i < |p[k..]|
      ensures LeastReady(edges, rest - Elements(p[k..][..i]), leq, p[k..][i])
    {
      assert p[..k + i] == p[..k] + p[k..][..i];
      assert rest - Elements(p[k..][..i]) == nodes - Elements(p[..k + i]);
      assert LeastReady(edges, nodes - Elements(p[..k + i]), leq, p[k + i]);
    }
  }

  lemma SuffixElements<V>(p: seq<V>, k: nat)
    requires Distinct(p) && k <= |p|
    ensures Elements(p[k..]) == Elements(p) - Elements(p[..k])
  {
    forall x
      ensures x in Elements(p[k..]) <==> x in Elements(p) && x !in Elements(p[..k])
    {
      PrefixElements(p, k, x);
      if x in Elements(p) {
        var j :| 0 <= j < |p| && p[j] == x;
        assert j >= k ==> p[k..][j - k] == x;
      }
    }
  }

  ghost function Predecessors<V>(edges: set<(V, V)>, rest: set<V>, v: V): set<V> {
    set u | u in rest && (u, v) in edges
  }

  method Minimum<V(==, !new)>(s: set<V>, leq: (V, V) -> bool) returns (m: V)
    requires s != {} && TotalPreorder(leq)
    ensures m in s && forall x :: x in s ==> leq(m, x)
  {
    m :| m in s;
    var rest := s - {m};
    while rest != {}
      invariant rest <= s && m in s
      invariant forall x :: x in s && x !in rest ==> leq(m, x)
      decreases |rest|
    {
      var x :| x in rest;
      rest := rest - {x};
      if !leq(m, x) {
        m := x;
      }
    }
  }

  /** Unblocked nodes wait in `ready`; every other one counts the predecessors it still waits for. */
  ghost predicate Counting<V>(edges: set<(V, V)>, rest: set<V>, ready: set<V>, indegree: map<V, int>) {
    && (forall v :: v in rest ==> (v in ready) != (v in indegree.Keys))
    && ready <= rest && indegree.Keys <= rest
    && (forall v :: v in rest ==> (v in ready <==> Predecessors(edges, rest, v) == {}))
    && (forall v :: v in indegree.Keys ==> indegree[v] == |Predecessors(edges, rest, v)|)
  }

  lemma CountingReady<V>(edges: set<(V, V)>, rest: set<V>, v: V)
    requires v in rest
    ensures Predecessors(edges, rest, v) == {} <==> Ready(edges, rest, v)
  {
    if Predecessors(edges, rest, v) == {} {
      forall u | u in rest
        ensures (u, v) !in edges
      {
        assert u !in Predecessors(edges, rest, v);
      }
    }
  }

  lemma PredecessorsWithout<V>(edges: set<(V, V)>, rest: set<V>, v: V, w: V)
    requires v in rest
    ensures Predecessors(edges, rest - {v}, w) == Predecessors(edges, rest, w) - {v}
    ensures |Predecessors(edges, rest - {v}, w)| == |Predecessors(edges, rest, w)| - (if (v, w) in edges then 1 else 0)
  {
    assert (v, w) in edges <==> v in Predecessors(edges, rest, w);
    assert Predecessors(edges, rest - {v}, w) == Predecessors(edges, rest, w) - {v};
  }

  /** Taking one node out: its successors wait for one less, and those at zero become ready. */
  lemma CountDown<V>(edges: set<(V, V)>, rest: set<V>, ready: set<V>, indegree: map<V, int>, v: V,
                     lowered: map<V, int>, freed: set<V>)
    requires Counting(edges, rest, ready, indegree) && v in ready
    requires lowered == map w | w in indegree :: if (v, w) in edges then indegree[w] - 1 else indegree[w]
    requires freed == set w | w in lowered && lowered[w] == 0
    ensures Counting(edges, rest - {v}, ready - {v} + freed, lowered - freed)
  {
    assert v !in indegree.Keys;
    forall w | w in rest - {v}
      ensures w in ready - {v} + freed <==> Predecessors(edges, rest - {v}, w) == {}
      ensures w in indegree.Keys ==> lowered[w] == |Predecessors(edges, rest - {v}, w)|
    {
      PredecessorsWithout(edges, rest, v, w);
    }
  }

  ghost predicate Progress<V>(edges: set<(V, V)>, nodes: set<V>, leq: (V, V) -> bool,
                             rest: set<V>, ready: set<V>, indegree: map<V, int>, done: seq<V>) {
    && Counting(edges, rest, ready, indegree)
    && Elements(done) <= nodes && rest == nodes - Elements(done)
    && GreedyPrefix(edges, nodes, leq, done)
  }

  lemma TakeNext<V>(edges: set<(V, V)>, nodes: set<V>, leq: (V, V) -> bool,
                    rest: set<V>, ready: set<V>, indegree: map<V, int>, done: seq<V>,
                    v: V, lowered: map<V, int>, freed: set<V>)
    requires Progress(edges, nodes, leq, rest, ready, indegree, done)
    requires v in ready && forall x :: x in ready ==> leq(v, x)
    requires lowered == map w | w in indegree :: if (v, w) in edges then indegree[w] - 1 else indegree[w]
    requires freed == set w | w in lowered && lowered[w] == 0
    ensures v in rest
    ensures Progress(edges, nodes, leq, rest - {v}, ready - {v} + freed, lowered - freed, done + [v])
  {
    LeastIsNext(edges, rest, ready, indegree, leq, v);
    CountDown(edges, rest, ready, indegree, v, lowered, freed);
    GreedyAppend(edges, nodes, leq, done, v);
    ElementsSnoc(done, v);
  }

  /** None when a cycle leaves nodes waiting for ever. */
  method LexicographicalSort<V(==, !new)>(nodes: set<V>, edges: set<(V, V)>, leq: (V, V) -> bool)
      returns (order: Option<seq<V>>)
    requires TotalPreorder(leq)
    ensures order.Some? ==> GreedyOrder(edges, nodes, leq, order.value)
    ensures order.None? ==> !Acyclic(edges)
  {
    var ready, indegree := CountPredecessors(nodes, edges);
    ghost var rest := nodes;
    var done: seq<V> := [];
    while ready != {}
      invariant Progress(edges, nodes, leq, rest, ready, indegree, done)
      decreases |rest|
    {
      var v := Minimum(ready, leq);
      var lowered := map w | w in indegree :: if (v, w) in edges then indegree[w] - 1 else indegree[w];
      var freed := set w | w in lowered && lowered[w] == 0;
      TakeNext(edges, nodes, leq, rest, ready, indegree, done, v, lowered, freed);
      ready := ready - {v} + freed;
      indegree := lowered - freed;
      done := done + [v];
      rest := rest - {v};
    }
    if indegree != map[] {
      WaitingIsCyclic(edges, rest, indegree);
      return None;
    }
    assert rest == {};
    return Some(done);
  }

  method CountPredecessors<V(==)>(nodes: set<V>, edges: set<(V, V)>) returns (ready: set<V>, indegree: map<V, int>)
    ensures Counting(edges, nodes, ready, indegree)
  {
    var count := map v | v in nodes :: |set u | u in nodes && (u, v) in edges|;
    assert forall v :: v in nodes ==> count[v] == |Predecessors(edges, nodes, v)|;
    ready := set v | v in count && count[v] == 0;
    indegree := map v | v in count && v !in ready :: count[v];
  }

  lemma LeastIsNext<V>(edges: set<(V, V)>, rest: set<V>, ready: set<V>, indegree: map<V, int>, leq: (V, V) -> bool,
                       v: V)
    requires Counting(edges, rest, ready, indegree)
    requires v in ready && forall x :: x in ready ==> leq(v, x)
    ensures LeastReady(edges, rest, leq, v)
  {
    forall w | w in rest
      ensures Ready(edges, rest, w) <==> w in ready
    {
      CountingReady(edges, rest, w);
    }
  }

  lemma WaitingIsCyclic<V(!new)>(edges: set<(V, V)>, rest: set<V>, indegree: map<V, int>)
    requires Counting(edges, rest, {}, indegree) && indegree != map[]
    ensures !Acyclic(edges)
  {
    if Acyclic(edges) {
      var w :| w in indegree.Keys;
      var v := HasSource(edges, rest);
      CountingReady(edges, rest, v);
      assert false;
    }
  }

  lemma GreedyAppend<V>(edges: set<(V, V)>, nodes: set<V>, leq: (V, V) -> bool, p: seq<V>, v: V)
    requires GreedyPrefix(edges, nodes, leq, p)
    requires LeastReady(edges, nodes - Elements(p), leq, v)
    ensures GreedyPrefix(edges, nodes, leq, p + [v])
  {
    forall i | 0 <= i < |p + [v]|
      ensures LeastReady(edges, nodes - Elements((p + [v])[..i]), leq, (p + [v])[i])
    {
      if i < |p| {
        assert (p + [v])[..i] == p[..i];
        assert LeastReady(edges, nodes - Elements(p[..i]), leq, p[i]);
      } else {
        assert (p + [v])[..i] == p;
      }
    }
  }
}
