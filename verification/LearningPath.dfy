/** `build_graph` and `compute_learning_path`: from known skills to a job's required ones. */
module LearningPath {
  import opened Common
  import opened Sorting
  import opened Graphs
  import CycleSearch
  import opened TopologicalSort

  /** A UUID in its canonical text form. */
  type SkillId = string

  datatype GraphSkill = GraphSkill(skillId: SkillId, slug: string, canonicalName: string, difficulty: int,
                                   category: string)

  datatype SkillGraph = SkillGraph(nodes: map<SkillId, GraphSkill>, edges: set<(SkillId, SkillId)>) {
    /** What `build_graph` hands out. */
    ghost predicate Valid() {
      && (forall e :: e in edges ==> e.0 in nodes && e.1 in nodes)
      && Acyclic(edges)
    }
  }

  datatype BuildOutcome =
    | Built(graph: SkillGraph)
    | DanglingEdge(prerequisite: SkillId, skill: SkillId)
    | PrerequisiteCycle(names: seq<string>)

  datatype PathStep = PathStep(
    skillId: SkillId,
    slug: string,
    canonicalName: string,
    difficulty: int,
    order: int,
    directlyRequired: bool,
    unlockedBy: seq<string>)

  datatype Plan = Plan(steps: seq<PathStep>, totalEffort: int, unreachable: seq<string>)

  // ------------------------------------------------------------------ build_graph

  /** Nodes by id; a later skill with the same id replaces the earlier one. */
  ghost function NodeTable(skills: seq<GraphSkill>): map<SkillId, GraphSkill> {
    if skills == [] then map[]
    else
      var last := skills[|skills| - 1];
      NodeTable(skills[..|skills| - 1])[last.skillId := last]
  }

  predicate Dangling(nodes: map<SkillId, GraphSkill>, e: (SkillId, SkillId)) {
    e.0 !in nodes || e.1 !in nodes
  }

  function NamesOf(nodes: map<SkillId, GraphSkill>, ids: seq<SkillId>): (names: seq<string>)
    requires forall id :: id in ids ==> id in nodes
    ensures |names| == |ids|
    ensures forall i :: 0 <= i < |ids| ==> names[i] == nodes[ids[i]].canonicalName
  {
    seq(|ids|, i requires 0 <= i < |ids| => nodes[ids[i]].canonicalName)
  }

  /** A genuine cycle of the edges, each node named once. */
  ghost predicate NamesCycle(nodes: map<SkillId, GraphSkill>, edges: set<(SkillId, SkillId)>, names: seq<string>) {
    exists cycle ::
      && Cycle(edges, cycle)
      && (forall id :: id in cycle ==> id in nodes)
      && names == NamesOf(nodes, cycle[..|cycle| - 1])
  }

  method BuildGraph(skills: seq<GraphSkill>, edges: seq<(SkillId, SkillId)>) returns (r: BuildOutcome)
    ensures r.Built? <==>
              (forall e :: e in edges ==> !Dangling(NodeTable(skills), e)) && Acyclic(Elements(edges))
    ensures r.Built? ==> r.graph == SkillGraph(NodeTable(skills), Elements(edges)) && r.graph.Valid()
    ensures r.DanglingEdge? ==>
              exists k :: && 0 <= k < |edges| && edges[k] == (r.prerequisite, r.skill)
                          && Dangling(NodeTable(skills), edges[k])
                          && forall j :: 0 <= j < k ==> !Dangling(NodeTable(skills), edges[j])
    ensures r.PrerequisiteCycle? ==>
              && (forall e :: e in edges ==> !Dangling(NodeTable(skills), e))
              && NamesCycle(NodeTable(skills), Elements(edges), r.names)
  {
    var nodes: map<SkillId, GraphSkill> := map[];
    for i := 0 to |skills|
      invariant nodes == NodeTable(skills[..i])
    {
      assert skills[..i + 1][..i] == skills[..i];
      nodes := nodes[skills[i].skillId := skills[i]];
    }
    assert skills[..|skills|] == skills;

    var added: set<(SkillId, SkillId)> := {};
    for i := 0 to |edges|
      invariant added == Elements(edges[..i])
      invariant forall j :: 0 <= j < i ==> !Dangling(nodes, edges[j])
    {
      var (prerequisite, skill) := edges[i];
      if prerequisite !in nodes || skill !in nodes {
        assert Dangling(nodes, edges[i]);
        return DanglingEdge(prerequisite, skill);
      }
      assert edges[..i + 1] == edges[..i] + [edges[i]];
      ElementsSnoc(edges[..i], edges[i]);
      added := added + {(prerequisite, skill)};
    }
    assert edges[..|edges|] == edges;

    var adjacency := CycleSearch.BuildAdjacency(edges);
    var order := ListSet(nodes.Keys);
    var cycle := CycleSearch.FindCycle(order, adjacency);
    if cycle != [] {
      CycleRefutesAcyclic(added, cycle);
      CycleStaysInside(nodes, added, cycle);
      return PrerequisiteCycle(NamesOf(nodes, cycle[..|cycle| - 1]));
    }
    return Built(SkillGraph(nodes, added));
  }

  lemma CycleStaysInside(nodes: map<SkillId, GraphSkill>, edges: set<(SkillId, SkillId)>, cycle: seq<SkillId>)
    requires Cycle(edges, cycle)
    requires forall e :: e in edges ==> !Dangling(nodes, e)
    ensures forall id :: id in cycle ==> id in nodes
    ensures NamesCycle(nodes, edges, NamesOf(nodes, cycle[..|cycle| - 1]))
  {
    forall i | 0 <= i < |cycle|
      ensures cycle[i] in nodes
    {
      if i + 1 < |cycle| {
        assert (cycle[i], cycle[i + 1]) in edges;
      } else {
        assert (cycle[i - 1], cycle[i]) in edges;
      }
    }
  }

  ghost function SkillIds(skills: seq<GraphSkill>): seq<SkillId> {
    seq(|skills|, i requires 0 <= i < |skills| => skills[i].skillId)
  }

  lemma {:induction false} NodeTableEntries(skills: seq<GraphSkill>)
    requires Distinct(SkillIds(skills))
    ensures forall id :: id in NodeTable(skills) <==> exists i :: 0 <= i < |skills| && skills[i].skillId == id
    ensures forall i :: 0 <= i < |skills| ==>
              skills[i].skillId in NodeTable(skills) && NodeTable(skills)[skills[i].skillId] == skills[i]
  {
    if skills != [] {
      var n := |skills| - 1;
      forall i, j | 0 <= i < j < n
        ensures SkillIds(skills[..n])[i] != SkillIds(skills[..n])[j]
      {
        assert SkillIds(skills)[i] != SkillIds(skills)[j];
      }
      NodeTableEntries(skills[..n]);
      forall i | 0 <= i < n
        ensures skills[i].skillId != skills[n].skillId
      {
        assert SkillIds(skills)[i] != SkillIds(skills)[n];
      }
    }
  }

  /** The order in which skills and edges arrive leaves no trace in the graph. */
  lemma GraphIgnoresListOrder(skills: seq<GraphSkill>, skills': seq<GraphSkill>, edges: seq<(SkillId, SkillId)>,
                              edges': seq<(SkillId, SkillId)>)
    requires multiset(skills) == multiset(skills') && Distinct(SkillIds(skills)) && Distinct(SkillIds(skills'))
    requires multiset(edges) == multiset(edges')
    ensures NodeTable(skills) == NodeTable(skills')
    ensures Elements(edges) == Elements(edges')
  {
    NodeTableEntries(skills);
    NodeTableEntries(skills');
    assert forall s :: s in skills <==> s in skills' by {
      forall s
        ensures s in skills <==> s in skills'
      {
        assert s in multiset(skills) <==> s in multiset(skills');
      }
    }
    forall id
      ensures id in NodeTable(skills) <==> id in NodeTable(skills')
      ensures id in NodeTable(skills) ==> NodeTable(skills)[id] == NodeTable(skills')[id]
    {
      if id in NodeTable(skills) {
        var i :| 0 <= i < |skills| && skills[i].skillId == id;
        assert skills[i] in skills';
      }
      if id in NodeTable(skills') {
        var i :| 0 <= i < |skills'| && skills'[i].skillId == id;
        assert skills'[i] in skills;
      }
    }
    forall e
      ensures e in edges <==> e in edges'
    {
      assert e in multiset(edges) <==> e in multiset(edges');
    }
  }

  // ------------------------------------------------------------------ what a plan must contain

  ghost function Targets(g: SkillGraph, known: set<SkillId>, required: set<SkillId>): set<SkillId> {
    set s | s in required && s in g.nodes && s !in known
  }

  /** The unknown targets and their unknown ancestors. */
  ghost function Needed(g: SkillGraph, known: set<SkillId>, required: set<SkillId>): set<SkillId> {
    set v | v in g.nodes && v !in known && LeadsToTarget(g, known, required, v)
  }

  ghost predicate LeadsToTarget(g: SkillGraph, known: set<SkillId>, required: set<SkillId>, v: SkillId) {
    exists t :: t in Targets(g, known, required) && (v == t || Reaches(g.edges, v, t))
  }

  /** (difficulty, name), and the node's place in the graph when both agree. */
  predicate KeyLeq(g: SkillGraph, position: map<SkillId, int>, a: SkillId, b: SkillId) {
    var (da, na, pa) := Key(g, position, a);
    var (db, nb, pb) := Key(g, position, b);
    if da != db then da < db
    else if na != nb then TextLeq(na, nb)
    else pa <= pb
  }

  function Key(g: SkillGraph, position: map<SkillId, int>, a: SkillId): (int, string, int) {
    (if a in g.nodes then g.nodes[a].difficulty else 0,
     if a in g.nodes then g.nodes[a].canonicalName else "",
     if a in position then position[a] else 0)
  }

  function PlanOrder(g: SkillGraph, position: map<SkillId, int>): (SkillId, SkillId) -> bool {
    (a, b) => KeyLeq(g, position, a, b)
  }

  /** Every node has its own place, as in the enumeration of a graph's nodes. */
  ghost predicate Places(g: SkillGraph, position: map<SkillId, int>) {
    && g.nodes.Keys <= position.Keys
    && forall a, b :: a in g.nodes && b in g.nodes && position[a] == position[b] ==> a == b
  }

  ghost predicate DistinctNames(g: SkillGraph) {
    forall a, b :: a in g.nodes && b in g.nodes && g.nodes[a].canonicalName == g.nodes[b].canonicalName ==> a == b
  }

  lemma PlanOrderIsTotal(g: SkillGraph, position: map<SkillId, int>)
    ensures TotalPreorder(PlanOrder(g, position))
    ensures Places(g, position) ==> Antisymmetric(PlanOrder(g, position), g.nodes.Keys)
  {
    TextOrder();
    var leq := PlanOrder(g, position);
    forall a, b, c | leq(a, b) && leq(b, c)
      ensures leq(a, c)
    {
      KeyTransitive(g, position, a, b, c);
    }
  }

  lemma KeyTransitive(g: SkillGraph, position: map<SkillId, int>, a: SkillId, b: SkillId, c: SkillId)
    requires KeyLeq(g, position, a, b) && KeyLeq(g, position, b, c)
    ensures KeyLeq(g, position, a, c)
  {
    var (da, na, pa) := Key(g, position, a);
    var (db, nb, pb) := Key(g, position, b);
    var (dc, nc, pc) := Key(g, position, c);
    if da == db == dc {
      TextLeqTotal(na, nb);
      TextLeqTotal(nb, nc);
      if na != nb && nb != nc {
        TextLeqTransitive(na, nb, nc);
      }
    }
  }

  ghost function Effort(g: SkillGraph, ids: seq<SkillId>): int {
    if ids == [] then 0
    else
      var last := ids[|ids| - 1];
      Effort(g, ids[..|ids| - 1]) + (if last in g.nodes then g.nodes[last].difficulty else 0)
  }

  function StepIds(steps: seq<PathStep>): (ids: seq<SkillId>)
    ensures |ids| == |steps|
    ensures forall i :: 0 <= i < |steps| ==> ids[i] == steps[i].skillId
  {
    seq(|steps|, i requires 0 <= i < |steps| => steps[i].skillId)
  }

  /** The names of `ids`, in alphabetical order. */
  ghost predicate SortedNames(g: SkillGraph, ids: set<SkillId>, names: seq<string>) {
    exists listed :: IsListing(g, ids, listed) && names == Sort(NamesOf(g.nodes, listed), TextLeq)
  }

  ghost predicate IsListing(g: SkillGraph, ids: set<SkillId>, listed: seq<SkillId>) {
    Distinct(listed) && Elements(listed) == ids && forall id :: id in listed ==> id in g.nodes
  }

  ghost predicate DescribesStep(g: SkillGraph, targets: set<SkillId>, needed: set<SkillId>, i: int, step: PathStep) {
    && step.skillId in g.nodes
    && var data := g.nodes[step.skillId];
    && step.slug == data.slug && step.canonicalName == data.canonicalName && step.difficulty == data.difficulty
    && step.order == i + 1
    && step.directlyRequired == (step.skillId in targets)
    && SortedNames(g, Predecessors(g.edges, needed, step.skillId), step.unlockedBy)
  }

  ghost predicate IsPlan(g: SkillGraph, known: set<SkillId>, required: set<SkillId>, position: map<SkillId, int>,
                         plan: Plan) {
    var needed := Needed(g, known, required);
    && GreedyOrder(g.edges, needed, PlanOrder(g, position), StepIds(plan.steps))
    && (forall i :: 0 <= i < |plan.steps| ==>
          DescribesStep(g, Targets(g, known, required), needed, i, plan.steps[i]))
    && plan.totalEffort == Effort(g, StepIds(plan.steps))
    && Sorted(plan.unreachable, TextLeq) && Distinct(plan.unreachable)
    && Elements(plan.unreachable) == required - g.nodes.Keys
  }

  // ------------------------------------------------------------------ compute_learning_path

  /** Breadth-first search against the edges. */
  method Ancestors(g: SkillGraph, target: SkillId) returns (ancestors: set<SkillId>)
    requires g.Valid()
    ensures forall u :: u in ancestors <==> Reaches(g.edges, u, target)
    ensures ancestors <= g.nodes.Keys
  {
    ancestors := {};
    var frontier := {target};
    while frontier != {}
      invariant ancestors <= g.nodes.Keys
      invariant frontier <= ancestors + {target}
      invariant forall u :: u in ancestors ==> Reaches(g.edges, u, target)
      invariant forall e :: e in g.edges && e.1 in ancestors + {target} - frontier ==> e.0 in ancestors
      decreases g.nodes.Keys - ancestors, frontier
    {
      var v :| v in frontier;
      ghost var frontierBefore := frontier;
      var found := set u | u in g.nodes && (u, v) in g.edges && u !in ancestors;
      forall u | u in found
        ensures Reaches(g.edges, u, target)
      {
        ReachesEdge(g.edges, u, v);
        if v != target {
          ReachesTransitive(g.edges, u, v, target);
        }
      }
      frontier := frontier - {v} + found;
      if found == {} {
        assert frontier < frontierBefore;
      } else {
        var u :| u in found;
        assert u in g.nodes.Keys - ancestors;
      }
      ancestors := ancestors + found;
    }
    forall u | Reaches(g.edges, u, target)
      ensures u in ancestors
    {
      var p :| WalkBetween(g.edges, u, target, p);
      ClosedBackwards(g.edges, ancestors, target, p);
    }
  }

  lemma {:induction false} ClosedBackwards(edges: set<(SkillId, SkillId)>, s: set<SkillId>, target: SkillId,
                                           p: seq<SkillId>)
    requires forall e :: e in edges && e.1 in s + {target} ==> e.0 in s
    requires Walk(edges, p) && |p| >= 2 && p[|p| - 1] == target
    ensures p[0] in s
  {
    assert (p[0], p[1]) in edges;
    if |p| > 2 {
      ClosedBackwards(edges, s, target, p[1..]);
    }
  }

  method ComputeLearningPath(g: SkillGraph, known: set<SkillId>, required: set<SkillId>, position: map<SkillId, int>)
      returns (plan: Plan)
    requires g.Valid()
    ensures IsPlan(g, known, required, position, plan)
  {
    TextOrder();
    PlanOrderIsTotal(g, position);
    var strangers := set s | s in required && s !in g.nodes;
    assert strangers == required - g.nodes.Keys;
    var unreachable := SortedSet(strangers, TextLeq);
    var targets := set s | s in required && s in g.nodes && s !in known;
    if targets == {} {
      assert Needed(g, known, required) == {};
      return Plan([], 0, unreachable);
    }
    var needed := CollectNeeded(g, known, required, targets);
    var sorted := LexicographicalSort(needed, g.edges, PlanOrder(g, position));
    var ordered := sorted.value;
    var steps, effort := DescribeSteps(g, targets, needed, ordered);
    plan := Plan(steps, effort, unreachable);
  }

  method DescribeStep(g: SkillGraph, targets: set<SkillId>, needed: set<SkillId>, i: int, node: SkillId)
      returns (step: PathStep)
    requires needed <= g.nodes.Keys && node in needed
    ensures DescribesStep(g, targets, needed, i, step) && step.skillId == node
    ensures step.difficulty == g.nodes[node].difficulty
  {
    var data := g.nodes[node];
    var unlockedBy := UnlockedBy(g, needed, node);
    step := PathStep(node, data.slug, data.canonicalName, data.difficulty, i + 1, node in targets, unlockedBy);
  }

  method DescribeSteps(g: SkillGraph, targets: set<SkillId>, needed: set<SkillId>, ordered: seq<SkillId>)
      returns (steps: seq<PathStep>, effort: int)
    requires needed <= g.nodes.Keys && Elements(ordered) == needed
    ensures StepIds(steps) == ordered
    ensures forall j :: 0 <= j < |steps| ==> DescribesStep(g, targets, needed, j, steps[j])
    ensures effort == Effort(g, ordered)
  {
    hide DescribesStep;
    steps := [];
    effort := 0;
    for i := 0 to |ordered|
      invariant |steps| == i
      invariant StepIds(steps) == ordered[..i]
      invariant forall j :: 0 <= j < i ==> DescribesStep(g, targets, needed, j, steps[j])
      invariant effort == Effort(g, ordered[..i])
    {
      var node := ordered[i];
      assert node in Elements(ordered);
      var step := DescribeStep(g, targets, needed, i, node);
      steps := steps + [step];
      assert ordered[..i + 1] == ordered[..i] + [node];
      effort := effort + step.difficulty;
    }
    assert ordered[..|ordered|] == ordered;
  }

  method CollectNeeded(g: SkillGraph, known: set<SkillId>, ghost required: set<SkillId>, targets: set<SkillId>)
      returns (needed: set<SkillId>)
    requires g.Valid()
    requires targets == Targets(g, known, required)
    ensures needed == Needed(g, known, required)
  {
    needed := targets;
    var rest := targets;
    while rest != {}
      invariant rest <= targets
      invariant forall v :: v in needed ==> v in Needed(g, known, required)
      invariant targets <= needed
      invariant forall v, t :: t in targets && t !in rest && Reaches(g.edges, v, t) && v !in known ==> v in needed
      decreases |rest|
    {
      var target :| target in rest;
      var ancestors := Ancestors(g, target);
      needed := needed + (ancestors - known);
      rest := rest - {target};
    }
  }

  method UnlockedBy(g: SkillGraph, needed: set<SkillId>, node: SkillId) returns (names: seq<string>)
    requires needed <= g.nodes.Keys
    ensures SortedNames(g, Predecessors(g.edges, needed, node), names)
  {
    var predecessors := set u | u in needed && (u, node) in g.edges;
    var listed := ListSet(predecessors);
    assert forall id :: id in listed ==> id in Elements(listed);
    names := Sort(NamesOf(g.nodes, listed), TextLeq);
    assert IsListing(g, Predecessors(g.edges, needed, node), listed);
  }
}
