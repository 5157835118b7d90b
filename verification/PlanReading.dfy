/** The plans of `compute_learning_path` as their reader sees them, in terms of the steps alone. */
module PlanReading {
  import opened Common
  import opened Sorting
  import opened Graphs
  import opened TopologicalSort
  import opened LearningPath

  /** The easier step, and of two equally hard ones the one whose name comes first. */
  predicate EasierOrNamedFirst(a: PathStep, b: PathStep) {
    || a.difficulty < b.difficulty
    || (a.difficulty == b.difficulty && NoLater(a.canonicalName, b.canonicalName))
  }

  /** Step `j` had to wait: it needs one of the steps from `i` on. */
  ghost predicate HadToWait(g: SkillGraph, plan: Plan, i: nat, j: nat)
    requires i <= j < |plan.steps|
  {
    exists k :: i <= k < j && (plan.steps[k].skillId, plan.steps[j].skillId) in g.edges
  }

  /** Of two steps the later one is harder, or named later, or it had to wait. */
  lemma StepsComeInOrder(g: SkillGraph, known: set<SkillId>, required: set<SkillId>, position: map<SkillId, int>,
                         plan: Plan, i: nat, j: nat)
    requires g.Valid() && IsPlan(g, known, required, position, plan) && i < j < |plan.steps|
    ensures HadToWait(g, plan, i, j) || EasierOrNamedFirst(plan.steps[i], plan.steps[j])
    ensures var a, b := plan.steps[i], plan.steps[j];
            HadToWait(g, plan, i, j) || a.difficulty != b.difficulty || a.canonicalName != b.canonicalName
            || !(a.skillId in position && b.skillId in position) || position[a.skillId] <= position[b.skillId]
  {
    var ids, needed, leq := StepIds(plan.steps), Needed(g, known, required), PlanOrder(g, position);
    var a, b := plan.steps[i], plan.steps[j];
    hide Needed, KeyLeq, DescribesStep;
    GreedyIsTopological(g.edges, needed, leq, ids);
    if !HadToWait(g, plan, i, j) {
      ReadyFromTheStart(g, plan, needed, ids, i, j);
      assert LeastReady(g.edges, needed - Elements(ids[..i]), leq, ids[i]);
      assert leq(ids[i], ids[j]);
      StepIsItsNode(g, known, required, position, plan, i);
      StepIsItsNode(g, known, required, position, plan, j);
      KeyMeans(g, position, a.skillId, b.skillId);
    }
  }

  /** A step that does not have to wait was there for the taking when step `i` was taken. */
  lemma ReadyFromTheStart(g: SkillGraph, plan: Plan, needed: set<SkillId>, ids: seq<SkillId>, i: nat, j: nat)
    requires g.Valid() && ids == StepIds(plan.steps) && TopologicalOrder(g.edges, needed, ids)
    requires i < j < |ids| && !HadToWait(g, plan, i, j)
    ensures Ready(g.edges, needed - Elements(ids[..i]), ids[j])
  {
    var rest := needed - Elements(ids[..i]);
    PrefixElements(ids, i, ids[j]);
    assert ids[j] in Elements(ids);
    forall u | u in rest
      ensures (u, ids[j]) !in g.edges
    {
      assert u in Elements(ids);
      var k :| 0 <= k < |ids| && ids[k] == u;
      PrefixElements(ids, i, u);
      if k == j && (u, ids[j]) in g.edges {
        ReachesEdge(g.edges, u, u);
      }
    }
  }

  lemma StepIsItsNode(g: SkillGraph, known: set<SkillId>, required: set<SkillId>, position: map<SkillId, int>,
                      plan: Plan, i: nat)
    requires IsPlan(g, known, required, position, plan) && i < |plan.steps|
    ensures var step := plan.steps[i];
            && step.skillId in g.nodes
            && step.slug == g.nodes[step.skillId].slug
            && step.canonicalName == g.nodes[step.skillId].canonicalName
            && step.difficulty == g.nodes[step.skillId].difficulty
  {
    assert DescribesStep(g, Targets(g, known, required), Needed(g, known, required), i, plan.steps[i]);
  }

  lemma KeyMeans(g: SkillGraph, position: map<SkillId, int>, a: SkillId, b: SkillId)
    requires a in g.nodes && b in g.nodes && KeyLeq(g, position, a, b)
    ensures var x, y := g.nodes[a], g.nodes[b];
            && (x.difficulty < y.difficulty
                || (x.difficulty == y.difficulty && NoLater(x.canonicalName, y.canonicalName)))
            && (x.difficulty == y.difficulty && x.canonicalName == y.canonicalName && a in position && b in position ==>
                position[a] <= position[b])
  {
    TextLeqMeans(g.nodes[a].canonicalName, g.nodes[b].canonicalName);
    assert g.nodes[a].canonicalName == g.nodes[b].canonicalName ==>
        g.nodes[b].canonicalName[..|g.nodes[a].canonicalName|] == g.nodes[a].canonicalName;
    hide TextLeq, NoLater;
    if g.nodes[a].canonicalName == g.nodes[b].canonicalName {
      PrefixOfItself(g.nodes[a].canonicalName);
    }
  }

  lemma PrefixOfItself(a: string)
    ensures NoLater(a, a)
  {
    assert a[..|a|] == a;
  }

  // ------------------------------------------------------------------ what a step says

  ghost function Difficulties(steps: seq<PathStep>): int {
    if steps == [] then 0 else steps[0].difficulty + Difficulties(steps[1..])
  }

  /** The steps that are direct prerequisites of step `i`. */
  ghost function Unlocking(g: SkillGraph, plan: Plan, i: nat): set<SkillId>
    requires i < |plan.steps|
  {
    set k | 0 <= k < |plan.steps| && (plan.steps[k].skillId, plan.steps[i].skillId) in g.edges :: plan.steps[k].skillId
  }

  /** `names` are the names of `ids`, each as often as it is a name, in alphabetical order. */
  ghost predicate NamesInOrder(g: SkillGraph, ids: set<SkillId>, names: seq<string>) {
    && Alphabetical(names)
    && exists listed: seq<SkillId> ::
         && Distinct(listed) && Elements(listed) == ids && |listed| == |names|
         && (forall id :: id in listed ==> id in g.nodes)
         && multiset(names) == multiset(NamesOf(g.nodes, listed))
  }

  /** Everything a plan says: numbered steps, which of them were asked for, what unlocks each, the effort,
      and what is not in the graph. */
  lemma PlanReads(g: SkillGraph, known: set<SkillId>, required: set<SkillId>, position: map<SkillId, int>, plan: Plan)
    requires g.Valid() && IsPlan(g, known, required, position, plan)
    ensures forall i :: 0 <= i < |plan.steps| ==>
              && plan.steps[i].order == i + 1
              && plan.steps[i].directlyRequired == (plan.steps[i].skillId in required)
              && NamesInOrder(g, Unlocking(g, plan, i), plan.steps[i].unlockedBy)
    ensures plan.totalEffort == Difficulties(plan.steps)
    ensures Alphabetical(plan.unreachable) && Distinct(plan.unreachable)
    ensures forall id :: id in plan.unreachable <==> id in required && id !in g.nodes
  {
    SortedTextsAreAlphabetical(plan.unreachable);
    assert forall id :: id in plan.unreachable <==> id in Elements(plan.unreachable);
    EffortIsTheSum(g, known, required, position, plan);
    hide IsPlan, Alphabetical, NamesInOrder, Difficulties;
    forall i | 0 <= i < |plan.steps|
      ensures plan.steps[i].order == i + 1
      ensures plan.steps[i].directlyRequired == (plan.steps[i].skillId in required)
      ensures NamesInOrder(g, Unlocking(g, plan, i), plan.steps[i].unlockedBy)
    {
      StepReads(g, known, required, position, plan, i);
    }
  }

  lemma StepReads(g: SkillGraph, known: set<SkillId>, required: set<SkillId>, position: map<SkillId, int>, plan: Plan,
                  i: nat)
    requires g.Valid() && IsPlan(g, known, required, position, plan) && i < |plan.steps|
    ensures plan.steps[i].order == i + 1
    ensures plan.steps[i].directlyRequired == (plan.steps[i].skillId in required)
    ensures NamesInOrder(g, Unlocking(g, plan, i), plan.steps[i].unlockedBy)
  {
    var ids, needed := StepIds(plan.steps), Needed(g, known, required);
    var step := plan.steps[i];
    assert DescribesStep(g, Targets(g, known, required), needed, i, step);
    assert ids[i] in Elements(ids);
    UnlockingAreThePredecessors(g, plan, needed, i);
    hide Unlocking, Needed, Predecessors;
    NamesReadInOrder(g, Predecessors(g.edges, needed, step.skillId), step.unlockedBy);
  }

  lemma UnlockingAreThePredecessors(g: SkillGraph, plan: Plan, needed: set<SkillId>, i: nat)
    requires Elements(StepIds(plan.steps)) == needed && i < |plan.steps|
    ensures Predecessors(g.edges, needed, plan.steps[i].skillId) == Unlocking(g, plan, i)
  {
    var ids := StepIds(plan.steps);
    forall u
      ensures u in Predecessors(g.edges, needed, plan.steps[i].skillId) <==> u in Unlocking(g, plan, i)
    {
      if u in needed && (u, plan.steps[i].skillId) in g.edges {
        assert u in Elements(ids);
        var k :| 0 <= k < |ids| && ids[k] == u;
        assert plan.steps[k].skillId == u;
      }
      if u in Unlocking(g, plan, i) {
        var k :| 0 <= k < |plan.steps| && plan.steps[k].skillId == u;
        assert ids[k] in Elements(ids);
      }
    }
  }

  lemma NamesReadInOrder(g: SkillGraph, ids: set<SkillId>, names: seq<string>)
    requires SortedNames(g, ids, names)
    ensures NamesInOrder(g, ids, names)
  {
    var listed :| IsListing(g, ids, listed) && names == Sort(NamesOf(g.nodes, listed), TextLeq);
    TextOrder();
    SortSorts(NamesOf(g.nodes, listed), TextLeq);
    SortedTextsAreAlphabetical(names);
    hide Alphabetical, Sorted, TextLeq;
    assert |listed| == |names|;
  }

  lemma EffortIsTheSum(g: SkillGraph, known: set<SkillId>, required: set<SkillId>, position: map<SkillId, int>,
                       plan: Plan)
    requires IsPlan(g, known, required, position, plan)
    ensures plan.totalEffort == Difficulties(plan.steps)
  {
    forall i | 0 <= i < |plan.steps|
      ensures plan.steps[i].skillId in g.nodes
      ensures plan.steps[i].difficulty == g.nodes[plan.steps[i].skillId].difficulty
    {
      StepIsItsNode(g, known, required, position, plan, i);
    }
    EffortSums(g, plan.steps);
  }

  lemma {:induction false} EffortSums(g: SkillGraph, steps: seq<PathStep>)
    requires forall i :: 0 <= i < |steps| ==>
               steps[i].skillId in g.nodes && steps[i].difficulty == g.nodes[steps[i].skillId].difficulty
    ensures Effort(g, StepIds(steps)) == Difficulties(steps)
  {
    if steps != [] {
      var n := |steps| - 1;
      EffortSums(g, steps[..n]);
      assert StepIds(steps)[..n] == StepIds(steps[..n]);
      DifficultiesSnoc(steps[..n], steps[n]);
      assert steps == steps[..n] + [steps[n]];
    }
  }

  lemma {:induction false} DifficultiesSnoc(steps: seq<PathStep>, last: PathStep)
    ensures Difficulties(steps + [last]) == Difficulties(steps) + last.difficulty
  {
    if steps == [] {
      assert [last][1..] == [];
      assert steps + [last] == [last];
    } else {
      DifficultiesSnoc(steps[1..], last);
      assert (steps + [last])[1..] == steps[1..] + [last];
    }
  }

  // ------------------------------------------------------------------ what the graph is made of

  lemma {:induction false} GraphHoldsTheListed(skills: seq<GraphSkill>, id: SkillId)
    ensures id in NodeTable(skills) <==> exists i :: 0 <= i < |skills| && skills[i].skillId == id
  {
    if skills != [] {
      var n := |skills| - 1;
      GraphHoldsTheListed(skills[..n], id);
      assert forall i :: 0 <= i < n ==> skills[..n][i] == skills[i];
    }
  }

  /** The last skill listed with an id is the one the graph has for it. */
  lemma {:induction false} LastListedWins(skills: seq<GraphSkill>, id: SkillId) returns (i: nat)
    requires id in NodeTable(skills)
    ensures i < |skills| && skills[i].skillId == id && NodeTable(skills)[id] == skills[i]
    ensures forall j :: i < j < |skills| ==> skills[j].skillId != id
  {
    var n := |skills| - 1;
    if skills[n].skillId == id {
      i := n;
    } else {
      i := LastListedWins(skills[..n], id);
      assert forall j :: 0 <= j < n ==> skills[..n][j] == skills[j];
    }
  }

  /** The names of a cycle: each skill of it once, every one a prerequisite of the next, and the last of
      the first. */
  lemma CycleNamesGoRound(nodes: map<SkillId, GraphSkill>, edges: set<(SkillId, SkillId)>, names: seq<string>)
    requires NamesCycle(nodes, edges, names)
    ensures exists ids: seq<SkillId> ::
              && |ids| == |names| >= 1 && Distinct(ids)
              && (forall i :: 0 <= i < |ids| ==> ids[i] in nodes && names[i] == nodes[ids[i]].canonicalName)
              && (forall i, j :: 0 <= i < |ids| && j == (if i + 1 < |ids| then i + 1 else 0) ==>
                    (ids[i], ids[j]) in edges)
  {
    var cycle :| && Cycle(edges, cycle) && (forall id :: id in cycle ==> id in nodes)
                 && names == NamesOf(nodes, cycle[..|cycle| - 1]);
    var ids := cycle[..|cycle| - 1];
    CycleGoesRound(edges, cycle, ids);
    CycleIsDistinct(edges, cycle, ids);
    forall i | 0 <= i < |ids|
      ensures ids[i] in nodes && names[i] == nodes[ids[i]].canonicalName
    {
      assert cycle[i] in cycle && ids[i] == cycle[i];
    }
    hide Cycle, Distinct;
  }

  lemma CycleGoesRound(edges: set<(SkillId, SkillId)>, cycle: seq<SkillId>, ids: seq<SkillId>)
    requires Cycle(edges, cycle) && ids == cycle[..|cycle| - 1]
    ensures forall i, j :: 0 <= i < |ids| && j == (if i + 1 < |ids| then i + 1 else 0) ==> (ids[i], ids[j]) in edges
  {
    hide Distinct;
    forall i, j | 0 <= i < |ids| && j == (if i + 1 < |ids| then i + 1 else 0)
      ensures (ids[i], ids[j]) in edges
    {
      assert (cycle[i], cycle[i + 1]) in edges;
    }
  }

  lemma CycleIsDistinct(edges: set<(SkillId, SkillId)>, cycle: seq<SkillId>, ids: seq<SkillId>)
    requires Cycle(edges, cycle) && ids == cycle[..|cycle| - 1]
    ensures Distinct(ids)
  {
    hide Walk;
    var n := |ids|;
    var rest := cycle[1..];
    assert forall k :: 0 <= k < n ==> rest[k] == cycle[k + 1];
    forall i, j | 0 <= i < j < n
      ensures ids[i] != ids[j]
    {
      assert ids[j] == rest[j - 1];
      assert ids[i] == if i == 0 then rest[n - 1] else rest[i - 1];
    }
  }
}
