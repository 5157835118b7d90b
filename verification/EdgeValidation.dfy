/** `validate_edges`: the seed graph is rejected unless it is a duplicate-free DAG over known skills. */
module EdgeValidation {
  import opened Common
  import opened Sorting
  import opened Graphs
  import opened CycleSearch

  type Slug = string
  type Edge = (Slug, Slug)

  datatype Verdict =
    | Accepted
    | UnknownSkills(slugs: seq<Slug>)
    | SelfLoops(loops: seq<Edge>)
    | DuplicateEdges(repeated: seq<Edge>)
    | CycleDetected(cycle: seq<Slug>)

  ghost function UnknownSlugs(known: set<Slug>, edges: seq<Edge>): set<Slug> {
    (set e | e in edges && e.0 !in known :: e.0) + (set e | e in edges && e.1 !in known :: e.1)
  }

  predicate IsLoop(e: Edge) {
    e.0 == e.1
  }

  ghost function RepeatedEdges(edges: seq<Edge>): set<Edge> {
    set e | e in edges && multiset(edges)[e] > 1
  }

  predicate EdgeLeq(a: Edge, b: Edge) {
    if a.0 == b.0 then TextLeq(a.1, b.1) else TextLeq(a.0, b.0)
  }

  lemma EdgeOrder()
    ensures TotalPreorder(EdgeLeq)
  {
    TextOrder();
    forall a, b, c | EdgeLeq(a, b) && EdgeLeq(b, c)
      ensures EdgeLeq(a, c)
    {
      assert TextLeq(a.0, b.0) && TextLeq(b.0, a.0) ==> a.0 == b.0;
    }
  }

  function Loops(edges: seq<Edge>): (r: seq<Edge>)
    ensures forall e :: e in r <==> e in edges && IsLoop(e)
  {
    if edges == [] then []
    else (if IsLoop(edges[0]) then [edges[0]] else []) + Loops(edges[1..])
  }

  /** Which check speaks first, what its report lists, and that acceptance means "no check has
      anything to say and no learning order is circular". */
  method ValidateEdges(known: set<Slug>, edges: seq<Edge>) returns (verdict: Verdict)
    ensures verdict.UnknownSkills? <==> UnknownSlugs(known, edges) != {}
    ensures verdict.SelfLoops? <==>
              UnknownSlugs(known, edges) == {} && exists e :: e in edges && IsLoop(e)
    ensures verdict.DuplicateEdges? <==>
              UnknownSlugs(known, edges) == {} && (forall e :: e in edges ==> !IsLoop(e)) && RepeatedEdges(edges) != {}
    ensures verdict.Accepted? <==>
              && UnknownSlugs(known, edges) == {} && (forall e :: e in edges ==> !IsLoop(e))
                && RepeatedEdges(edges) == {}
              && Acyclic(Elements(edges))
    ensures verdict.UnknownSkills? ==>
              Sorted(verdict.slugs, TextLeq) && Distinct(verdict.slugs)
                && Elements(verdict.slugs) == UnknownSlugs(known, edges)
    ensures verdict.SelfLoops? ==> verdict.loops == Loops(edges)
    ensures verdict.DuplicateEdges? ==>
              Sorted(verdict.repeated, EdgeLeq) && Distinct(verdict.repeated)
                && Elements(verdict.repeated) == RepeatedEdges(edges)
    ensures verdict.CycleDetected? ==> Cycle(Elements(edges), verdict.cycle) && |verdict.cycle| >= 3
  {
    var unknown := (set e | e in edges && e.0 !in known :: e.0) + (set e | e in edges && e.1 !in known :: e.1);
    if unknown != {} {
      TextOrder();
      var slugs := SortedSet(unknown, TextLeq);
      return UnknownSkills(slugs);
    }
    var loops := Loops(edges);
    if loops != [] {
      assert loops[0] in edges && IsLoop(loops[0]);
      return SelfLoops(loops);
    }
    var repeated := set e | e in edges && multiset(edges)[e] > 1;
    if repeated != {} {
      EdgeOrder();
      var listed := SortedSet(repeated, EdgeLeq);
      return DuplicateEdges(listed);
    }
    var adjacency := BuildAdjacency(edges);
    TextOrder();
    var order := SortedSet(known, TextLeq);
    CoveredByKnown(known, edges, adjacency);
    var cycle := FindCycle(order, adjacency);
    if cycle != [] {
      CycleRefutesAcyclic(Elements(edges), cycle);
      assert (cycle[0], cycle[1]) in Elements(edges) && !IsLoop((cycle[0], cycle[1]));
      return CycleDetected(cycle);
    }
    return Accepted;
  }

  lemma CoveredByKnown(known: set<Slug>, edges: seq<Edge>, adjacency: map<Slug, seq<Slug>>)
    requires UnknownSlugs(known, edges) == {}
    requires EdgesOf(adjacency) == Elements(edges)
    ensures Covers(known, adjacency)
  {
    forall e | e in EdgesOf(adjacency)
      ensures e.0 in known && e.1 in known
    {
      assert e in edges;
      assert e.0 !in known ==> e.0 in UnknownSlugs(known, edges);
      assert e.1 !in known ==> e.1 in UnknownSlugs(known, edges);
    }
  }

  // ------------------------------------------------------------------ what a report lists

  /** An edge is before another by its prerequisite, or by its skill if they share it, as text. */
  lemma ReportsAreInOrder(a: Edge, b: Edge)
    ensures EdgeLeq(a, b) <==> if a.0 == b.0 then NoLater(a.1, b.1) else NoLater(a.0, b.0)
  {
    TextLeqMeans(a.0, b.0);
    TextLeqMeans(a.1, b.1);
  }

  /** Unknown is what stands at either end of some edge and is not among the known. */
  lemma UnknownSlugsAreEnds(known: set<Slug>, edges: seq<Edge>, slug: Slug)
    ensures slug in UnknownSlugs(known, edges)
            <==> slug !in known && exists i :: 0 <= i < |edges| && (edges[i].0 == slug || edges[i].1 == slug)
  {
    if i :| 0 <= i < |edges| && (edges[i].0 == slug || edges[i].1 == slug) {
      assert edges[i] in edges;
    }
  }

  /** Repeated is what the list has at two places. */
  lemma RepeatedEdgesStandTwice(edges: seq<Edge>, e: Edge)
    ensures e in RepeatedEdges(edges) <==> exists i, j :: 0 <= i < j < |edges| && edges[i] == edges[j] == e
  {
    CountAbove(edges, e);
  }

  lemma {:induction false} CountAbove(edges: seq<Edge>, e: Edge)
    ensures multiset(edges)[e] >= 1 <==> exists i :: 0 <= i < |edges| && edges[i] == e
    ensures multiset(edges)[e] > 1 <==> exists i, j :: 0 <= i < j < |edges| && edges[i] == edges[j] == e
  {
    if edges != [] {
      var n := |edges| - 1;
      var before := edges[..n];
      CountAbove(before, e);
      assert edges == before + [edges[n]];
      assert forall i :: 0 <= i < n ==> before[i] == edges[i];
    }
  }

  lemma {:induction false} LoopsSnoc(edges: seq<Edge>, e: Edge)
    ensures Loops(edges + [e]) == Loops(edges) + (if e.0 == e.1 then [e] else [])
  {
    if edges == [] {
      assert [] + [e] == [e] && [e][1..] == [];
    } else {
      LoopsSnoc(edges[1..], e);
      assert (edges + [e])[1..] == edges[1..] + [e];
    }
  }

  /** `places` are those of the loops, from front to back. */
  ghost predicate PlacesOfLoops(edges: seq<Edge>, places: seq<nat>) {
    && (forall k, l :: 0 <= k < l < |places| ==> places[k] < places[l])
    && (forall k :: 0 <= k < |places| ==> places[k] < |edges|)
    && forall i: nat :: i < |edges| ==> (i in places <==> edges[i].0 == edges[i].1)
  }

  /** Every loop is reported as often as it is listed, in the order of the list. */
  lemma {:induction false} LoopsAreReportedInPlace(edges: seq<Edge>) returns (places: seq<nat>)
    ensures PlacesOfLoops(edges, places) && |Loops(edges)| == |places|
    ensures forall k :: 0 <= k < |places| ==> Loops(edges)[k] == edges[places[k]]
  {
    places := [];
    if edges != [] {
      var n := |edges| - 1;
      var before := LoopsAreReportedInPlace(edges[..n]);
      LoopsSnoc(edges[..n], edges[n]);
      assert edges == edges[..n] + [edges[n]];
      hide Loops;
      places := before + (if edges[n].0 == edges[n].1 then [n] else []);
      forall i: nat | i < |edges|
        ensures i in places <==> edges[i].0 == edges[i].1
      {
        assert i < n ==> edges[..n][i] == edges[i];
        assert i == n ==> i !in before;
      }
    }
  }
}
