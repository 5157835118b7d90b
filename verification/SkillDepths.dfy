/** `computeDepths`: the column of each skill in the drawn graph, by memoised depth-first search. */
module SkillDepths {
  import opened Common
  import opened Graphs

  type Id = string

  /** Prerequisite first, as in the edge list. */
  ghost function PrerequisiteEdges(prerequisites: map<Id, seq<Id>>): set<(Id, Id)> {
    set v, u | v in prerequisites && u in prerequisites[v] :: (u, v)
  }

  ghost predicate ChainEndingAt(edges: set<(Id, Id)>, v: Id, p: seq<Id>) {
    Walk(edges, p) && p[|p| - 1] == v
  }

  /** The longest prerequisite chain ending at `v` has exactly `d` edges. */
  ghost predicate LongestChain(edges: set<(Id, Id)>, v: Id, d: int) {
    && (exists p :: ChainEndingAt(edges, v, p) && |p| == d + 1)
    && (forall p :: ChainEndingAt(edges, v, p) ==> |p| <= d + 1)
  }

  ghost predicate DepthsCorrect(edges: set<(Id, Id)>, depths: map<Id, int>) {
    forall v :: v in depths ==> LongestChain(edges, v, depths[v])
  }

  lemma LastEdge(edges: set<(Id, Id)>, p: seq<Id>)
    requires Walk(edges, p)
    ensures |p| > 1 ==> (p[|p| - 2], p[|p| - 1]) in edges
  {
  }

  lemma NoParents(edges: set<(Id, Id)>, v: Id)
    requires forall u :: (u, v) !in edges
    ensures LongestChain(edges, v, 0)
  {
    assert ChainEndingAt(edges, v, [v]);
    forall p | ChainEndingAt(edges, v, p)
      ensures |p| <= 1
    {
      LastEdge(edges, p);
    }
  }

  lemma OneDeeper(edges: set<(Id, Id)>, v: Id, parents: seq<Id>, of: seq<int>, deepest: int)
    requires |of| == |parents| > 0
    requires forall u :: (u, v) in edges <==> u in parents
    requires forall j :: 0 <= j < |parents| ==> LongestChain(edges, parents[j], of[j]) && of[j] <= deepest
    requires exists j :: 0 <= j < |parents| && of[j] == deepest
    ensures LongestChain(edges, v, deepest + 1)
  {
    var k :| 0 <= k < |parents| && of[k] == deepest;
    assert parents[k] in parents;
    ChainGrows(edges, parents[k], v, deepest);
    forall q | ChainEndingAt(edges, v, q)
      ensures |q| <= deepest + 2
    {
      var n := |q| - 1;
      if n > 0 {
        ChainWithoutLast(edges, v, q);
        var j :| 0 <= j < |parents| && parents[j] == q[n - 1];
        hide ChainEndingAt;
        assert LongestChain(edges, parents[j], of[j]);
      }
    }
  }

  lemma ChainGrows(edges: set<(Id, Id)>, u: Id, v: Id, d: int)
    requires LongestChain(edges, u, d) && (u, v) in edges
    ensures exists p :: ChainEndingAt(edges, v, p) && |p| == d + 2
  {
    var p :| ChainEndingAt(edges, u, p) && |p| == d + 1;
    WalkJoin(edges, p, [u, v]);
    assert p + [u, v][1..] == p + [v];
    assert ChainEndingAt(edges, v, p + [v]);
  }

  lemma ChainWithoutLast(edges: set<(Id, Id)>, v: Id, q: seq<Id>)
    requires ChainEndingAt(edges, v, q) && |q| > 1
    ensures (q[|q| - 2], v) in edges
    ensures ChainEndingAt(edges, q[|q| - 2], q[..|q| - 1])
  {
    LastEdge(edges, q);
  }

  ghost predicate DeepestSoFar(of: seq<int>, deepest: int, at: int) {
    && (of != [] ==> 0 <= at < |of| && of[at] == deepest)
    && forall i :: 0 <= i < |of| ==> of[i] <= deepest
  }

  ghost predicate TrueDepths(edges: set<(Id, Id)>, parents: seq<Id>, of: seq<int>) {
    |of| <= |parents| && forall i :: 0 <= i < |of| ==> LongestChain(edges, parents[i], of[i])
  }

  /** The two tables `depthOf` closes over. */
  class DepthSearch {
    const prerequisites: map<Id, seq<Id>>
    var depths: map<Id, int>
    var visiting: set<Id>

    constructor (prerequisites: map<Id, seq<Id>>)
      ensures this.prerequisites == prerequisites && depths == map[] && visiting == {}
    {
      this.prerequisites := prerequisites;
      depths, visiting := map[], {};
    }

    ghost function Edges(): set<(Id, Id)> {
      PrerequisiteEdges(prerequisites)
    }

    /** On an acyclic graph, everything memoised so far is the true depth. */
    ghost predicate Sound()
      reads this
    {
      Acyclic(Edges()) ==> DepthsCorrect(Edges(), depths)
    }

    /** On an acyclic graph, the nodes being visited all lie downstream of `id`. */
    ghost predicate Upstream(id: Id)
      reads this
    {
      Acyclic(Edges()) ==> forall w :: w in visiting ==> Reaches(Edges(), id, w)
    }

    /** Terminates on every graph: each nested call has one more node in `visiting`. */
    method DepthOf(id: Id, ghost universe: set<Id>) returns (depth: int)
      requires id in universe && visiting <= universe
      requires forall e :: e in Edges() ==> e.0 in universe
      requires Sound() && Upstream(id)
      modifies this
      ensures visiting == old(visiting)
      ensures forall x :: x in old(depths) ==> x in depths && depths[x] == old(depths)[x]
      ensures id in depths || id in visiting
      ensures depth == if id in depths then depths[id] else 0
      ensures Sound()
      ensures Acyclic(Edges()) ==> id in depths && LongestChain(Edges(), id, depth)
      decreases |universe - visiting|, 0
    {
      if id in depths {
        return depths[id];
      }
      if id in visiting {
        return 0;
      }
      ghost var entered := visiting;
      visiting := visiting + {id};
      assert universe - visiting == universe - entered - {id};
      var parents := if id in prerequisites then prerequisites[id] else [];
      assert forall u :: (u, id) in Edges() <==> u in parents;
      depth := 0;
      if parents == [] {
        NoParents(Edges(), id);
      } else {
        depth := DeepestParent(id, parents, entered, universe);
        depth := depth + 1;
      }
      visiting := visiting - {id};
      assert visiting == entered;
      depths := depths[id := depth];
    }

    /** `Math.max(...parents.map(depthOf))`. */
    method DeepestParent(id: Id, parents: seq<Id>, ghost entered: set<Id>, ghost universe: set<Id>)
        returns (deepest: int)
      requires parents != []
      requires id !in entered && id in universe && visiting == entered + {id} && visiting <= universe
      requires forall e :: e in Edges() ==> e.0 in universe
      requires forall u :: (u, id) in Edges() <==> u in parents
      requires Sound()
      requires Acyclic(Edges()) ==> forall w :: w in entered ==> Reaches(Edges(), id, w)
      modifies this
      ensures visiting == old(visiting)
      ensures forall x :: x in old(depths) ==> x in depths && depths[x] == old(depths)[x]
      ensures Sound()
      ensures Acyclic(Edges()) ==> LongestChain(Edges(), id, deepest + 1)
      decreases |universe - visiting|, 1
    {
      hide LongestChain, Acyclic, PrerequisiteEdges;
      ghost var of: seq<int> := [];
      ghost var at := 0;
      deepest := 0;
      for j := 0 to |parents|
        invariant visiting == old(visiting)
        invariant forall x :: x in old(depths) ==> x in depths && depths[x] == old(depths)[x]
        invariant Sound()
        invariant |of| == j && DeepestSoFar(of, deepest, at)
        invariant Acyclic(Edges()) ==> TrueDepths(Edges(), parents, of)
      {
        assert parents[j] in parents && (parents[j], id) in Edges();
        ParentIsUpstream(parents[j], id);
        var d := DepthOf(parents[j], universe);
        of := of + [d];
        if j == 0 || d > deepest {
          deepest, at := d, j;
        }
      }
      if Acyclic(Edges()) {
        assert of[at] == deepest;
        OneDeeper(Edges(), id, parents, of, deepest);
      }
    }

    lemma ParentIsUpstream(u: Id, id: Id)
      requires (u, id) in Edges()
      requires Acyclic(Edges()) ==> forall w :: w in visiting && w != id ==> Reaches(Edges(), id, w)
      ensures Upstream(u)
    {
      ReachesEdge(Edges(), u, id);
      if Acyclic(Edges()) {
        forall w | w in visiting
          ensures Reaches(Edges(), u, w)
        {
          if w != id {
            ReachesTransitive(Edges(), u, id, w);
          }
        }
      }
    }
  }

  /** Lists, for every skill, its prerequisites in edge order. */
  method ListPrerequisites(edges: seq<(Id, Id)>) returns (prerequisites: map<Id, seq<Id>>)
    ensures PrerequisiteEdges(prerequisites) == Elements(edges)
  {
    prerequisites := map[];
    for i := 0 to |edges|
      invariant PrerequisiteEdges(prerequisites) == Elements(edges[..i])
    {
      var (prerequisite, skill) := edges[i];
      var list := if skill in prerequisites then prerequisites[skill] else [];
      AppendPrerequisite(prerequisites, prerequisite, skill, list);
      prerequisites := prerequisites[skill := list + [prerequisite]];
      assert edges[..i + 1] == edges[..i] + [edges[i]];
      ElementsSnoc(edges[..i], edges[i]);
    }
    assert edges[..|edges|] == edges;
  }

  lemma AppendPrerequisite(prerequisites: map<Id, seq<Id>>, u: Id, v: Id, list: seq<Id>)
    requires list == if v in prerequisites then prerequisites[v] else []
    ensures PrerequisiteEdges(prerequisites[v := list + [u]]) == PrerequisiteEdges(prerequisites) + {(u, v)}
  {
    var after := prerequisites[v := list + [u]];
    forall e
      ensures e in PrerequisiteEdges(after) <==> e in PrerequisiteEdges(prerequisites) + {(u, v)}
    {
      assert e in PrerequisiteEdges(after) <==> e.1 in after && e.0 in after[e.1];
      assert e in PrerequisiteEdges(prerequisites) <==> e.1 in prerequisites && e.0 in prerequisites[e.1];
    }
  }

  method ComputeDepths(skills: seq<Id>, edges: seq<(Id, Id)>) returns (depths: map<Id, int>)
    ensures forall s :: s in skills ==> s in depths
    ensures Acyclic(Elements(edges)) ==> DepthsCorrect(Elements(edges), depths)
  {
    var prerequisites := ListPrerequisites(edges);
    var search := new DepthSearch(prerequisites);
    ghost var universe := Elements(skills) + (set e | e in edges :: e.0);
    for i := 0 to |skills|
      invariant search.visiting == {} && search.prerequisites == prerequisites
      invariant search.Sound()
      invariant forall j :: 0 <= j < i ==> skills[j] in search.depths
    {
      var _ := search.DepthOf(skills[i], universe);
    }
    depths := search.depths;
  }

  /** Left to right is learning order: every edge leads to a strictly deeper column. */
  lemma EdgesGoDeeper(edges: set<(Id, Id)>, depths: map<Id, int>, u: Id, v: Id)
    requires DepthsCorrect(edges, depths)
    requires (u, v) in edges && u in depths && v in depths
    ensures depths[u] < depths[v]
  {
    var p :| ChainEndingAt(edges, u, p) && |p| == depths[u] + 1;
    WalkJoin(edges, p, [u, v]);
    assert p + [u, v][1..] == p + [v];
    assert ChainEndingAt(edges, v, p + [v]);
  }

  /** No skill is drawn further right than its prerequisites force. */
  lemma SomeParentIsOneShallower(edges: set<(Id, Id)>, depths: map<Id, int>, v: Id)
    requires DepthsCorrect(edges, depths)
    requires v in depths && depths[v] > 0
    requires forall e :: e in edges ==> e.0 in depths
    ensures exists u :: (u, v) in edges && depths[u] == depths[v] - 1
  {
    var p :| ChainEndingAt(edges, v, p) && |p| == depths[v] + 1;
    var n := |p| - 1;
    assert (p[n - 1], p[n]) in edges;
    assert ChainEndingAt(edges, p[n - 1], p[..n]);
    EdgesGoDeeper(edges, depths, p[n - 1], v);
  }

  /** The first column is that of the skills without prerequisites, and no other is before it. */
  lemma FirstColumnNeedsNothing(edges: set<(Id, Id)>, depths: map<Id, int>, v: Id)
    requires DepthsCorrect(edges, depths) && v in depths
    ensures depths[v] >= 0 && (depths[v] == 0 <==> forall u :: (u, v) !in edges)
  {
    assert ChainEndingAt(edges, v, [v]);
    if u :| (u, v) in edges {
      assert ChainEndingAt(edges, v, [u, v]);
    } else {
      NoParents(edges, v);
    }
  }
}
