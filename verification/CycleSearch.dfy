/** Iterative three-colour depth-first search with an explicit stack and the path walked. */
module CycleSearch {
  import opened Common
  import opened Graphs

  datatype Colour = White | Grey | Black

  function Children<V>(adjacency: map<V, seq<V>>, v: V): seq<V> {
    if v in adjacency then adjacency[v] else []
  }

  ghost function EdgesOf<V>(adjacency: map<V, seq<V>>): set<(V, V)> {
    set u, v | u in adjacency && v in adjacency[u] :: (u, v)
  }

  /** Both ends of every edge are among `nodes`. */
  ghost predicate Covers<V>(nodes: set<V>, adjacency: map<V, seq<V>>) {
    forall e :: e in EdgesOf(adjacency) ==> e.0 in nodes && e.1 in nodes
  }

  /** A finished node only leads to nodes finished before it; `rank` is minus the finishing time. */
  ghost predicate FinishedNode<V>(adjacency: map<V, seq<V>>, rank: map<V, int>, u: V)
    requires u in rank
  {
    && -|rank| <= rank[u]
    && forall v :: v in Children(adjacency, u) ==> v in rank && rank[u] < rank[v]
  }

  ghost predicate Finished<V>(adjacency: map<V, seq<V>>, colour: map<V, Colour>, rank: map<V, int>) {
    && rank.Keys == Coloured(colour, Black)
    && forall u :: u in rank.Keys ==> FinishedNode(adjacency, rank, u)
  }

  ghost function Coloured<V>(colour: map<V, Colour>, c: Colour): set<V> {
    set v | v in colour && colour[v] == c
  }

  /** Entry `i` of the stack sits at node `i` of the path, just past the child the path goes on to;
      the children before that are finished. */
  ghost predicate Entry<V>(adjacency: map<V, seq<V>>, finished: set<V>, stack: seq<(V, int)>, path: seq<V>, i: nat)
    requires i < |stack| == |path|
  {
    var (node, index) := stack[i];
    var children := Children(adjacency, node);
    && node == path[i]
    && 0 <= index <= |children|
    && (i + 1 < |path| ==> index > 0 && children[index - 1] == path[i + 1])
    && forall k :: 0 <= k < (if i + 1 < |path| then index - 1 else index) ==> children[k] in finished
  }

  /** What the search keeps true between iterations: the path is the grey nodes, and is the stack. */
  ghost predicate Searching<V>(adjacency: map<V, seq<V>>, colour: map<V, Colour>, rank: map<V, int>,
                               stack: seq<(V, int)>, path: seq<V>) {
    && Finished(adjacency, colour, rank)
    && Distinct(path)
    && Elements(path) == Coloured(colour, Grey)
    && |stack| == |path|
    && forall i: nat :: i < |stack| ==> Entry(adjacency, rank.Keys, stack, path, i)
  }

  /** Children still to look at, plus one for each entry still to pop. */
  ghost function StackWork<V>(adjacency: map<V, seq<V>>, stack: seq<(V, int)>): int {
    if stack == [] then 0
    else
      var top := stack[|stack| - 1];
      StackWork(adjacency, stack[..|stack| - 1]) + |Children(adjacency, top.0)| - top.1 + 1
  }

  lemma {:induction false} StackWorkNonNegative<V>(adjacency: map<V, seq<V>>, stack: seq<(V, int)>)
    requires forall i :: 0 <= i < |stack| ==> 0 <= stack[i].1 <= |Children(adjacency, stack[i].0)|
    ensures StackWork(adjacency, stack) >= |stack|
  {
    if stack != [] {
      StackWorkNonNegative(adjacency, stack[..|stack| - 1]);
    }
  }

  lemma StackWorkBounds<V>(adjacency: map<V, seq<V>>, finished: set<V>, stack: seq<(V, int)>, path: seq<V>)
    requires |stack| == |path|
    requires forall i: nat :: i < |stack| ==> Entry(adjacency, finished, stack, path, i)
    ensures StackWork(adjacency, stack) >= |stack|
    ensures stack != [] ==> StackWork(adjacency, stack[..|stack| - 1]) < StackWork(adjacency, stack)
    ensures stack != [] ==> 0 <= stack[|stack| - 1].1
  {
    forall i | 0 <= i < |stack|
      ensures 0 <= stack[i].1 <= |Children(adjacency, stack[i].0)|
    {
      assert Entry(adjacency, finished, stack, path, i);
    }
    StackWorkNonNegative(adjacency, stack);
  }

  lemma PathIsWalk<V>(adjacency: map<V, seq<V>>, finished: set<V>, stack: seq<(V, int)>, path: seq<V>)
    requires |stack| == |path| > 0
    requires forall i: nat :: i < |stack| ==> Entry(adjacency, finished, stack, path, i)
    ensures Walk(EdgesOf(adjacency), path)
  {
    forall i, j | 0 <= i && j == i + 1 && j < |path|
      ensures (path[i], path[j]) in EdgesOf(adjacency)
    {
      assert Entry(adjacency, finished, stack, path, i);
      assert path[j] in Children(adjacency, path[i]);
    }
  }

  function IndexOf<V(==)>(s: seq<V>, x: V): (k: nat)
    requires x in s
    ensures k < |s| && s[k] == x && x !in s[..k]
  {
    if s[0] == x then 0
    else
      assert s == [s[0]] + s[1..];
      IndexOf(s[1..], x) + 1
  }

  /** Meeting a grey child closes a cycle along the path. */
  lemma GreyChildClosesCycle<V>(adjacency: map<V, seq<V>>, path: seq<V>, k: nat, child: V)
    requires k < |path| && path[k] == child && Distinct(path)
    requires Walk(EdgesOf(adjacency), path)
    requires child in Children(adjacency, path[|path| - 1])
    ensures Cycle(EdgesOf(adjacency), path[k..] + [child])
  {
    var closed := path[k..] + [child];
    forall i, j | 0 <= i && j == i + 1 && j < |closed|
      ensures (closed[i], closed[j]) in EdgesOf(adjacency)
    {
      if j < |closed| - 1 {
        assert closed[i] == path[k + i] && closed[j] == path[k + j];
      }
    }
    assert closed[1..] == path[k + 1..] + [child];
  }

  lemma AdvanceKeeps<V>(adjacency: map<V, seq<V>>, finished: set<V>, stack: seq<(V, int)>, path: seq<V>,
                        stack': seq<(V, int)>)
    requires |stack| == |path| > 0
    requires forall i: nat :: i < |stack| ==> Entry(adjacency, finished, stack, path, i)
    requires var (node, index) := stack[|stack| - 1];
             && 0 <= index < |Children(adjacency, node)| && Children(adjacency, node)[index] in finished
             && stack' == stack[..|stack| - 1] + [(node, index + 1)]
    ensures forall i: nat :: i < |stack'| ==> Entry(adjacency, finished, stack', path, i)
  {
    forall i: nat | i < |stack'|
      ensures Entry(adjacency, finished, stack', path, i)
    {
      assert Entry(adjacency, finished, stack, path, i);
    }
  }

  lemma DescendKeeps<V>(adjacency: map<V, seq<V>>, finished: set<V>, stack: seq<(V, int)>, path: seq<V>, child: V,
                        stack': seq<(V, int)>)
    requires |stack| == |path| > 0
    requires forall i: nat :: i < |stack| ==> Entry(adjacency, finished, stack, path, i)
    requires var (node, index) := stack[|stack| - 1];
             && 0 <= index < |Children(adjacency, node)| && Children(adjacency, node)[index] == child
             && stack' == stack[..|stack| - 1] + [(node, index + 1)] + [(child, 0)]
    ensures forall i: nat :: i < |stack'| ==> Entry(adjacency, finished, stack', path + [child], i)
  {
    forall i: nat | i < |stack'|
      ensures Entry(adjacency, finished, stack', path + [child], i)
    {
      if i < |stack| {
        assert Entry(adjacency, finished, stack, path, i);
        if i == |stack| - 1 {
          assert stack'[i] == (stack[i].0, stack[i].1 + 1) && (path + [child])[i + 1] == child;
        } else {
          assert stack'[i] == stack[i] && (path + [child])[i + 1] == path[i + 1];
        }
      } else {
        assert stack'[i] == (child, 0);
      }
    }
  }

  lemma FinishKeeps<V>(adjacency: map<V, seq<V>>, finished: set<V>, stack: seq<(V, int)>, path: seq<V>)
    requires |stack| == |path| > 0
    requires forall i: nat :: i < |stack| ==> Entry(adjacency, finished, stack, path, i)
    ensures var n := |stack| - 1;
            forall i: nat :: i < n ==> Entry(adjacency, finished + {path[n]}, stack[..n], path[..n], i)
  {
    var n := |stack| - 1;
    forall i: nat | i < n
      ensures Entry(adjacency, finished + {path[n]}, stack[..n], path[..n], i)
    {
      assert Entry(adjacency, finished, stack, path, i);
    }
  }

  lemma FinishRanks<V>(adjacency: map<V, seq<V>>, rank: map<V, int>, node: V)
    requires forall u :: u in rank.Keys ==> FinishedNode(adjacency, rank, u)
    requires node !in rank
    requires forall v :: v in Children(adjacency, node) ==> v in rank
    ensures var rank' := rank[node := -|rank| - 1];
            forall u :: u in rank'.Keys ==> FinishedNode(adjacency, rank', u)
  {
    var rank' := rank[node := -|rank| - 1];
    assert rank'.Keys == rank.Keys + {node};
    assert |rank'.Keys| == |rank.Keys| + 1;
    forall u | u in rank'.Keys
      ensures FinishedNode(adjacency, rank', u)
    {
      if u != node {
        assert FinishedNode(adjacency, rank, u);
      } else {
        forall v | v in Children(adjacency, node)
          ensures v in rank' && rank'[node] < rank'[v]
        {
          assert FinishedNode(adjacency, rank, v);
        }
      }
    }
  }

  /** Moving one node from colour `c` to colour `d`. */
  lemma Recolour<V>(colour: map<V, Colour>, v: V, d: Colour)
    requires v in colour && colour[v] != d
    ensures Coloured(colour[v := d], d) == Coloured(colour, d) + {v}
    ensures Coloured(colour[v := d], colour[v]) == Coloured(colour, colour[v]) - {v}
    ensures v in Coloured(colour, colour[v])
    ensures forall c :: c != d && c != colour[v] ==> Coloured(colour[v := d], c) == Coloured(colour, c)
  {
  }

  lemma DescendSearching<V>(adjacency: map<V, seq<V>>, colour: map<V, Colour>, rank: map<V, int>, stack: seq<(V, int)>,
                            path: seq<V>, child: V, stack': seq<(V, int)>)
    requires Searching(adjacency, colour, rank, stack, path) && stack != []
    requires var (node, index) := stack[|stack| - 1];
             && 0 <= index < |Children(adjacency, node)| && Children(adjacency, node)[index] == child
             && stack' == stack[..|stack| - 1] + [(node, index + 1)] + [(child, 0)]
    requires child in colour && colour[child] == White
    ensures Searching(adjacency, colour[child := Grey], rank, stack', path + [child])
    ensures |Coloured(colour[child := Grey], White)| < |Coloured(colour, White)|
  {
    Recolour(colour, child, Grey);
    assert child !in Elements(path);
    ElementsSnoc(path, child);
    DescendKeeps(adjacency, rank.Keys, stack, path, child, stack');
  }

  /** Once the top entry has passed all its children they are all finished, and it is not. */
  lemma TopIsDone<V>(adjacency: map<V, seq<V>>, colour: map<V, Colour>, rank: map<V, int>, stack: seq<(V, int)>,
                     path: seq<V>)
    requires Searching(adjacency, colour, rank, stack, path) && stack != []
    requires stack[|stack| - 1].1 >= |Children(adjacency, stack[|stack| - 1].0)|
    ensures var node := path[|path| - 1];
            && node == stack[|stack| - 1].0 && node in colour && colour[node] == Grey && node !in rank.Keys
            && forall v :: v in Children(adjacency, node) ==> v in rank
  {
    assert Entry(adjacency, rank.Keys, stack, path, |stack| - 1);
    assert path[|path| - 1] in Elements(path);
  }

  lemma FinishSearching<V>(adjacency: map<V, seq<V>>, colour: map<V, Colour>, rank: map<V, int>, stack: seq<(V, int)>,
                           path: seq<V>, node: V, colour': map<V, Colour>, rank': map<V, int>, path': seq<V>)
    requires Searching(adjacency, colour, rank, stack, path) && stack != []
    requires stack[|stack| - 1].0 == node && stack[|stack| - 1].1 >= |Children(adjacency, node)|
    requires path == path' + [path[|path| - 1]]
    requires colour' == colour[node := Black] && rank' == rank[node := -|rank| - 1]
    ensures path[|path| - 1] == node && node in colour
    ensures Searching(adjacency, colour', rank', stack[..|stack| - 1], path')
    ensures Coloured(colour', White) == Coloured(colour, White)
  {
    hide Entry, FinishedNode;
    TopIsDone(adjacency, colour, rank, stack, path);
    Recolour(colour, node, Black);
    assert rank'.Keys == rank.Keys + {node};
    FinishRanks(adjacency, rank, node);
    ElementsSnoc(path', node);
    assert path' == path[..|path| - 1];
    FinishKeeps(adjacency, rank.Keys, stack, path);
  }

  lemma StartSearching<V>(adjacency: map<V, seq<V>>, colour: map<V, Colour>, rank: map<V, int>, start: V)
    requires Searching(adjacency, colour, rank, [], [])
    requires start in colour && colour[start] == White
    ensures Searching(adjacency, colour[start := Grey], rank, [(start, 0)], [start])
  {
    Recolour(colour, start, Grey);
  }

  /** Where the search stands when it looks at the top of the stack. */
  lemma SearchingTop<V>(adjacency: map<V, seq<V>>, colour: map<V, Colour>, rank: map<V, int>, stack: seq<(V, int)>,
                        path: seq<V>)
    requires Searching(adjacency, colour, rank, stack, path) && stack != []
    requires Covers(colour.Keys, adjacency)
    ensures |path| == |stack| && path[|path| - 1] == stack[|stack| - 1].0
    ensures var (node, index) := stack[|stack| - 1];
            && 0 <= index <= |Children(adjacency, node)|
            && forall v :: v in Children(adjacency, node) ==> v in colour
    ensures StackWork(adjacency, stack[..|stack| - 1]) < StackWork(adjacency, stack)
    ensures StackWork(adjacency, stack) >= |stack|
  {
    StackWorkBounds(adjacency, rank.Keys, stack, path);
    assert Entry(adjacency, rank.Keys, stack, path, |stack| - 1);
    var node := stack[|stack| - 1].0;
    forall v | v in Children(adjacency, node)
      ensures v in colour
    {
      assert (node, v) in EdgesOf(adjacency);
    }
  }

  lemma AdvanceSearching<V>(adjacency: map<V, seq<V>>, colour: map<V, Colour>, rank: map<V, int>, stack: seq<(V, int)>,
                            path: seq<V>, stack': seq<(V, int)>)
    requires Searching(adjacency, colour, rank, stack, path) && stack != []
    requires var (node, index) := stack[|stack| - 1];
             && 0 <= index < |Children(adjacency, node)|
             && Children(adjacency, node)[index] in colour && colour[Children(adjacency, node)[index]] == Black
             && stack' == stack[..|stack| - 1] + [(node, index + 1)]
    ensures Searching(adjacency, colour, rank, stack', path)
    ensures StackWork(adjacency, stack') < StackWork(adjacency, stack)
  {
    assert Children(adjacency, stack[|stack| - 1].0)[stack[|stack| - 1].1] in Coloured(colour, Black);
    AdvanceKeeps(adjacency, rank.Keys, stack, path, stack');
    assert stack'[..|stack'| - 1] == stack[..|stack| - 1];
  }

  /** Explores everything reachable from `start`; stops early with a cycle if it meets one. */
  method Explore<V(==, !new)>(start: V, adjacency: map<V, seq<V>>, colour0: map<V, Colour>, ghost rank0: map<V, int>)
    returns (colour: map<V, Colour>, ghost rank: map<V, int>, cycle: seq<V>)
    requires Covers(colour0.Keys, adjacency)
    requires start in colour0 && colour0[start] == White
    requires Searching(adjacency, colour0, rank0, [], [])
    ensures colour.Keys == colour0.Keys
    ensures cycle == [] ==> Searching(adjacency, colour, rank, [], []) && start in rank
    ensures rank0.Keys <= rank.Keys
    ensures cycle != [] ==> Cycle(EdgesOf(adjacency), cycle)
  {
    hide Searching, Coloured, Children, EdgesOf, StackWork, Cycle;
    cycle := [];
    colour := colour0[start := Grey];
    rank := rank0;
    var stack: seq<(V, int)> := [(start, 0)];
    var path := [start];
    StartSearching(adjacency, colour0, rank0, start);
    while stack != []
      invariant colour.Keys == colour0.Keys
      invariant |path| == |stack|
      invariant Searching(adjacency, colour, rank, stack, path)
      invariant rank0.Keys <= rank.Keys
      invariant start in rank || start in path
      decreases |Coloured(colour, White)|, StackWork(adjacency, stack)
    {
      ghost var stackBefore := stack;
      var top := |stack| - 1;
      var (node, index) := stack[top];
      SearchingTop(adjacency, colour, rank, stack, path);
      stack := stack[..top];
      var children := Children(adjacency, node);
      if index < |children| {
        stack := stack + [(node, index + 1)];
        var child := children[index];
        if colour[child] == Grey {
          cycle := CloseCycle(adjacency, colour, rank, stackBefore, path, child);
          return;
        }
        if colour[child] == White {
          DescendSearching(adjacency, colour, rank, stackBefore, path, child, stack + [(child, 0)]);
          colour := colour[child := Grey];
          path := path + [child];
          stack := stack + [(child, 0)];
        } else {
          AdvanceSearching(adjacency, colour, rank, stackBefore, path, stack);
        }
      } else {
        FinishSearching(adjacency, colour, rank, stackBefore, path,
                        node, colour[node := Black], rank[node := -|rank| - 1], path[..|path| - 1]);
        colour := colour[node := Black];
        rank := rank[node := -|rank| - 1];
        if path != [] && path[|path| - 1] == node {
          path := path[..|path| - 1];
        }
      }
    }
  }

  /** The part of the path from the grey child on, closed by that child. */
  method CloseCycle<V(==, !new)>(adjacency: map<V, seq<V>>, ghost colour: map<V, Colour>, ghost rank: map<V, int>,
                                 ghost stack: seq<(V, int)>, path: seq<V>, child: V)
    returns (cycle: seq<V>)
    requires Searching(adjacency, colour, rank, stack, path) && stack != []
    requires child in colour && colour[child] == Grey
    requires child in Children(adjacency, stack[|stack| - 1].0)
    ensures Cycle(EdgesOf(adjacency), cycle) && cycle != []
  {
    hide Finished;
    PathIsWalk(adjacency, rank.Keys, stack, path);
    assert child in Elements(path);
    assert Entry(adjacency, rank.Keys, stack, path, |stack| - 1);
    var k := IndexOf(path, child);
    GreyChildClosesCycle(adjacency, path, k, child);
    cycle := path[k..] + [child];
  }

  /** Searches from every node in turn. Finds a cycle exactly when there is one. */
  method FindCycle<V(==, !new)>(order: seq<V>, adjacency: map<V, seq<V>>) returns (cycle: seq<V>)
    requires Covers(Elements(order), adjacency)
    ensures cycle == [] <==> Acyclic(EdgesOf(adjacency))
    ensures cycle != [] ==> Cycle(EdgesOf(adjacency), cycle)
  {
    cycle := [];
    var colour := map v | v in order :: White;
    assert colour.Keys == Elements(order);
    ghost var rank: map<V, int> := map[];
    for i := 0 to |order|
      invariant colour.Keys == Elements(order)
      invariant Searching(adjacency, colour, rank, [], [])
      invariant forall j :: 0 <= j < i ==> order[j] in rank
      invariant cycle == []
    {
      var start := order[i];
      if colour[start] != White {
        assert start !in Coloured(colour, Grey);
        assert start in Coloured(colour, Black);
        continue;
      }
      colour, rank, cycle := Explore(start, adjacency, colour, rank);
      if cycle != [] {
        CycleRefutesAcyclic(EdgesOf(adjacency), cycle);
        return;
      }
    }
    forall e | e in EdgesOf(adjacency)
      ensures e.0 in rank && e.1 in rank && rank[e.0] < rank[e.1]
    {
      assert e.0 in Elements(order) && e.1 in Children(adjacency, e.0);
      assert FinishedNode(adjacency, rank, e.0);
    }
    RankedIsAcyclic(EdgesOf(adjacency), rank);
  }

  /** Lists the children of every node, in edge order. */
  method BuildAdjacency<V(==)>(edges: seq<(V, V)>) returns (adjacency: map<V, seq<V>>)
    ensures EdgesOf(adjacency) == Elements(edges)
  {
    adjacency := map[];
    for i := 0 to |edges|
      invariant EdgesOf(adjacency) == Elements(edges[..i])
    {
      var (prerequisite, skill) := edges[i];
      ghost var before := adjacency;
      adjacency := adjacency[prerequisite := Children(adjacency, prerequisite) + [skill]];
      assert edges[..i + 1] == edges[..i] + [edges[i]];
      AppendChild(before, prerequisite, skill);
      assert Elements(edges[..i + 1]) == Elements(edges[..i]) + {edges[i]};
    }
    assert edges[..|edges|] == edges;
  }

  lemma AppendChild<V>(adjacency: map<V, seq<V>>, u: V, v: V)
    ensures EdgesOf(adjacency[u := Children(adjacency, u) + [v]]) == EdgesOf(adjacency) + {(u, v)}
  {
    var after := adjacency[u := Children(adjacency, u) + [v]];
    forall e
      ensures e in EdgesOf(after) <==> e in EdgesOf(adjacency) + {(u, v)}
    {
      assert e in EdgesOf(after) <==> e.0 in after && e.1 in after[e.0];
      assert e in EdgesOf(adjacency) <==> e.0 in adjacency && e.1 in adjacency[e.0];
    }
  }
}
