/** What a learner can rely on about the plans of `compute_learning_path`. */
module LearningPathLaws {
  import opened Common
  import opened Sorting
  import opened Graphs
  import opened TopologicalSort
  import opened LearningPath

  /** Each unknown target and each unknown ancestor of one, exactly once, and nothing else. */
  lemma PlanListsExactlyTheNeeded(g: SkillGraph, known: set<SkillId>, required: set<SkillId>,
                                  position: map<SkillId, int>, plan: Plan)
    requires g.Valid() && IsPlan(g, known, required, position, plan)
    ensures Distinct(StepIds(plan.steps))
    ensures forall v :: v in StepIds(plan.steps) <==>
              && v in g.nodes && v !in known
              && exists t :: t in required && t in g.nodes && t !in known && (v == t || Reaches(g.edges, v, t))
  {
    var needed := Needed(g, known, required);
    GreedyIsTopological(g.edges, needed, PlanOrder(g, position), StepIds(plan.steps));
    forall v
      ensures v in StepIds(plan.steps) <==>
              && v in g.nodes && v !in known
              && exists t :: t in required && t in g.nodes && t !in known && (v == t || Reaches(g.edges, v, t))
    {
      assert v in StepIds(plan.steps) <==> v in Elements(StepIds(plan.steps));
      if v in needed {
        var t :| t in Targets(g, known, required) && (v == t || Reaches(g.edges, v, t));
      }
      if t :| t in required && t in g.nodes && t !in known && (v == t || Reaches(g.edges, v, t)) {
        assert t in Targets(g, known, required);
      }
    }
  }

  lemma UnknownPrerequisiteIsNeeded(g: SkillGraph, known: set<SkillId>, required: set<SkillId>, u: SkillId, v: SkillId)
    requires g.Valid() && v in Needed(g, known, required)
    requires (u, v) in g.edges && u !in known
    ensures u in Needed(g, known, required)
  {
    var t :| t in Targets(g, known, required) && (v == t || Reaches(g.edges, v, t));
    ReachesEdge(g.edges, u, v);
    if v != t {
      ReachesTransitive(g.edges, u, v, t);
    }
  }

  /** Every direct prerequisite of a step is already known, or is an earlier step that the step
      names among what unlocks it. */
  lemma PrerequisitesComeFirst(g: SkillGraph, known: set<SkillId>, required: set<SkillId>, position: map<SkillId, int>,
                               plan: Plan, i: nat, u: SkillId)
    requires g.Valid() && IsPlan(g, known, required, position, plan)
    requires i < |plan.steps| && (u, plan.steps[i].skillId) in g.edges
    ensures u in known
            || exists j :: && 0 <= j < i && plan.steps[j].skillId == u
                           && plan.steps[j].canonicalName in plan.steps[i].unlockedBy
  {
    if u !in known {
      var ids := StepIds(plan.steps);
      var v := plan.steps[i].skillId;
      var needed := Needed(g, known, required);
      assert ids[i] == v && v in Elements(ids);
      UnknownPrerequisiteIsNeeded(g, known, required, u, v);
      assert u in Elements(ids);
      var j :| 0 <= j < |ids| && ids[j] == u;
      GreedyIsTopological(g.edges, needed, PlanOrder(g, position), ids);
      assert j != i by {
        if j == i {
          ReachesEdge(g.edges, u, v);
        }
      }
      assert j < i;
      assert DescribesStep(g, Targets(g, known, required), needed, i, plan.steps[i]);
      assert DescribesStep(g, Targets(g, known, required), needed, j, plan.steps[j]);
      NameIsListed(g, Predecessors(g.edges, needed, v), plan.steps[i].unlockedBy, u);
    }
  }

  lemma NameIsListed(g: SkillGraph, ids: set<SkillId>, names: seq<string>, u: SkillId)
    requires SortedNames(g, ids, names) && u in ids && u in g.nodes
    ensures g.nodes[u].canonicalName in names
  {
    var listed :| IsListing(g, ids, listed) && names == Sort(NamesOf(g.nodes, listed), TextLeq);
    assert u in Elements(listed);
    var k :| 0 <= k < |listed| && listed[k] == u;
    assert NamesOf(g.nodes, listed)[k] == g.nodes[u].canonicalName;
    SortMembers(NamesOf(g.nodes, listed), TextLeq);
  }

  /** A chain of unknown skills leading to a step is learnt in its own order before that step. */
  lemma {:induction false} UnknownChainInOrder(g: SkillGraph, known: set<SkillId>, required: set<SkillId>,
                                               position: map<SkillId, int>, plan: Plan, chain: seq<SkillId>, k: nat)
      returns (i: nat)
    requires g.Valid() && IsPlan(g, known, required, position, plan)
    requires Walk(g.edges, chain) && |chain| >= 2 && forall x :: x in chain ==> x !in known
    requires k < |plan.steps| && plan.steps[k].skillId == chain[|chain| - 1]
    ensures i < k && plan.steps[i].skillId == chain[0]
    decreases |chain|
  {
    hide IsPlan;
    var n := |chain| - 1;
    assert (chain[n - 1], chain[n]) in g.edges;
    PrerequisitesComeFirst(g, known, required, position, plan, k, chain[n - 1]);
    assert chain[n - 1] in chain;
    var j :| 0 <= j < k && plan.steps[j].skillId == chain[n - 1];
    if n == 1 {
      i := j;
    } else {
      assert forall x :: x in chain[..n] ==> x in chain;
      i := UnknownChainInOrder(g, known, required, position, plan, chain[..n], j);
    }
  }

  /** Among all orders that respect the prerequisites, the plan is the first by (difficulty, name). */
  lemma PlanIsLeast(g: SkillGraph, known: set<SkillId>, required: set<SkillId>, position: map<SkillId, int>, plan: Plan,
                    other: seq<SkillId>)
    requires g.Valid() && IsPlan(g, known, required, position, plan)
    requires TopologicalOrder(g.edges, Needed(g, known, required), other)
    ensures TopologicalOrder(g.edges, Needed(g, known, required), StepIds(plan.steps))
    ensures LexicographicLeq(PlanOrder(g, position), StepIds(plan.steps), other)
  {
    var needed := Needed(g, known, required);
    forall v | v in needed
      ensures (v, v) !in g.edges
    {
      if (v, v) in g.edges {
        ReachesEdge(g.edges, v, v);
      }
    }
    GreedyIsTopological(g.edges, needed, PlanOrder(g, position), StepIds(plan.steps));
    GreedyIsLeast(g.edges, needed, PlanOrder(g, position), StepIds(plan.steps), other);
  }

  /** With distinct names the place of a node in the graph never decides anything. */
  lemma PlaceIsIrrelevant(g: SkillGraph, nodes: set<SkillId>, position: map<SkillId, int>, position': map<SkillId, int>,
                          p: seq<SkillId>)
    requires DistinctNames(g) && nodes <= g.nodes.Keys
    requires GreedyOrder(g.edges, nodes, PlanOrder(g, position), p)
    ensures GreedyOrder(g.edges, nodes, PlanOrder(g, position'), p)
  {
    TextOrder();
    forall i | 0 <= i < |p|
      ensures LeastReady(g.edges, nodes - Elements(p[..i]), PlanOrder(g, position'), p[i])
    {
      var rest := nodes - Elements(p[..i]);
      assert LeastReady(g.edges, rest, PlanOrder(g, position), p[i]);
      forall w | w in rest && Ready(g.edges, rest, w)
        ensures KeyLeq(g, position', p[i], w)
      {
        assert KeyLeq(g, position, p[i], w);
      }
    }
  }

  lemma SortedNamesUnique(g: SkillGraph, ids: set<SkillId>, names: seq<string>, names': seq<string>)
    requires SortedNames(g, ids, names) && SortedNames(g, ids, names')
    ensures names == names'
  {
    var listed :| IsListing(g, ids, listed) && names == Sort(NamesOf(g.nodes, listed), TextLeq);
    var listed' :| IsListing(g, ids, listed') && names' == Sort(NamesOf(g.nodes, listed'), TextLeq);
    DistinctPermutation(listed, listed');
    NamesOfPermutation(g.nodes, listed, listed');
    TextOrder();
    SortSorts(NamesOf(g.nodes, listed), TextLeq);
    SortSorts(NamesOf(g.nodes, listed'), TextLeq);
    SortedUnique(names, names', TextLeq);
  }

  lemma NamesOfPermutation(nodes: map<SkillId, GraphSkill>, s: seq<SkillId>, t: seq<SkillId>)
    requires multiset(s) == multiset(t)
    requires (forall id :: id in s ==> id in nodes) && (forall id :: id in t ==> id in nodes)
    ensures multiset(NamesOf(nodes, s)) == multiset(NamesOf(nodes, t))
  {
    var name := (id: SkillId) => if id in nodes then nodes[id].canonicalName else "";
    assert NamesOf(nodes, s) == Map(name, s) && NamesOf(nodes, t) == Map(name, t);
    MapPermutation(name, s, t);
  }

  /** The request fixes the plan: with distinct names there is only one. */
  lemma PlanIsUnique(g: SkillGraph, known: set<SkillId>, required: set<SkillId>, position: map<SkillId, int>,
                     position': map<SkillId, int>, plan: Plan, plan': Plan)
    requires DistinctNames(g) && Places(g, position)
    requires IsPlan(g, known, required, position, plan) && IsPlan(g, known, required, position', plan')
    ensures plan == plan'
  {
    var needed := Needed(g, known, required);
    PlaceIsIrrelevant(g, needed, position', position, StepIds(plan'.steps));
    PlanOrderIsTotal(g, position);
    GreedyUnique(g.edges, needed, PlanOrder(g, position), StepIds(plan.steps), StepIds(plan'.steps));
    StepsAgree(g, Targets(g, known, required), needed, plan.steps, plan'.steps);
    TextOrder();
    DistinctPermutation(plan.unreachable, plan'.unreachable);
    SortedUnique(plan.unreachable, plan'.unreachable, TextLeq);
  }

  lemma StepsAgree(g: SkillGraph, targets: set<SkillId>, needed: set<SkillId>, steps: seq<PathStep>,
                   steps': seq<PathStep>)
    requires StepIds(steps) == StepIds(steps')
    requires forall i :: 0 <= i < |steps| ==> DescribesStep(g, targets, needed, i, steps[i])
    requires forall i :: 0 <= i < |steps'| ==> DescribesStep(g, targets, needed, i, steps'[i])
    ensures steps == steps'
  {
    assert |steps| == |steps'|;
    forall i | 0 <= i < |steps|
      ensures steps[i] == steps'[i]
    {
      assert StepIds(steps)[i] == StepIds(steps')[i];
      assert DescribesStep(g, targets, needed, i, steps[i]);
      assert DescribesStep(g, targets, needed, i, steps'[i]);
      SortedNamesUnique(g, Predecessors(g.edges, needed, steps[i].skillId), steps[i].unlockedBy, steps'[i].unlockedBy);
    }
  }

  /** The same skills and edges, listed in any order, give the same plan. */
  lemma PlanIgnoresListOrder(skills: seq<GraphSkill>, skills': seq<GraphSkill>, edges: seq<(SkillId, SkillId)>,
                             edges': seq<(SkillId, SkillId)>, known: set<SkillId>, required: set<SkillId>,
                             position: map<SkillId, int>, position': map<SkillId, int>, plan: Plan, plan': Plan)
    requires multiset(skills) == multiset(skills') && Distinct(SkillIds(skills)) && Distinct(SkillIds(skills'))
    requires multiset(edges) == multiset(edges')
    requires var g := SkillGraph(NodeTable(skills), Elements(edges));
             DistinctNames(g) && Places(g, position) && IsPlan(g, known, required, position, plan)
    requires IsPlan(SkillGraph(NodeTable(skills'), Elements(edges')), known, required, position', plan')
    ensures plan == plan'
  {
    GraphIgnoresListOrder(skills, skills', edges, edges');
    PlanIsUnique(SkillGraph(NodeTable(skills), Elements(edges)), known, required, position, position', plan, plan');
  }

  // ------------------------------------------------------------------ following the plan

  ghost predicate PrerequisiteClosed(g: SkillGraph, known: set<SkillId>) {
    forall e :: e in g.edges && e.1 in known ==> e.0 in known
  }

  lemma {:induction false} UnknownDescendants(g: SkillGraph, known: set<SkillId>, p: seq<SkillId>)
    requires PrerequisiteClosed(g, known) && Walk(g.edges, p) && p[0] !in known
    ensures forall x :: x in p ==> x !in known
  {
    if |p| > 1 {
      assert (p[0], p[1]) in g.edges;
      UnknownDescendants(g, known, p[1..]);
      assert p == [p[0]] + p[1..];
    }
  }

  ghost function EdgesWithin(g: SkillGraph, nodes: set<SkillId>): set<(SkillId, SkillId)> {
    set e | e in g.edges && e.0 in nodes && e.1 in nodes
  }

  /** Every needed skill is a target or leads to one through needed skills alone. */
  ghost predicate ServesATarget(g: SkillGraph, known: set<SkillId>, required: set<SkillId>) {
    var needed := Needed(g, known, required);
    forall u :: u in needed ==> u in Targets(g, known, required) || LeadsWithin(g, known, required, u)
  }

  ghost predicate LeadsWithin(g: SkillGraph, known: set<SkillId>, required: set<SkillId>, u: SkillId) {
    exists t :: t in Targets(g, known, required) && Reaches(EdgesWithin(g, Needed(g, known, required)), u, t)
  }

  lemma WithinIsUnknown(g: SkillGraph, known: set<SkillId>, required: set<SkillId>, chain: seq<SkillId>)
    requires |chain| >= 2 && Walk(EdgesWithin(g, Needed(g, known, required)), chain)
    ensures Walk(g.edges, chain) && forall x :: x in chain ==> x !in known
  {
    var within := EdgesWithin(g, Needed(g, known, required));
    forall i | 0 <= i < |chain|
      ensures chain[i] in Needed(g, known, required)
    {
      var k := if i == 0 then 0 else i - 1;
      assert (chain[k], chain[k + 1]) in within;
    }
  }

  /** A needed skill from which needed skills lead to one of the first `k` steps is among them. */
  lemma FirstStepsAreClosed(g: SkillGraph, known: set<SkillId>, required: set<SkillId>, position: map<SkillId, int>,
                            plan: Plan, k: nat, v: SkillId, t: SkillId)
    requires g.Valid() && IsPlan(g, known, required, position, plan) && k <= |plan.steps|
    requires Reaches(EdgesWithin(g, Needed(g, known, required)), v, t)
    requires t in Elements(StepIds(plan.steps)[..k])
    ensures v in Elements(StepIds(plan.steps)[..k])
  {
    hide IsPlan;
    var ids := StepIds(plan.steps);
    PrefixElements(ids, k, t);
    var b :| 0 <= b < k && ids[b] == t;
    var p :| WalkBetween(EdgesWithin(g, Needed(g, known, required)), v, t, p);
    WithinIsUnknown(g, known, required, p);
    var a := UnknownChainInOrder(g, known, required, position, plan, p, b);
    assert ids[a] == v;
    PrefixElements(ids, k, v);
  }

  /** Whatever is not among the first `k` steps is still needed once those are learnt. */
  lemma RestIsStillNeeded(g: SkillGraph, known: set<SkillId>, required: set<SkillId>, position: map<SkillId, int>,
                          plan: Plan, k: nat)
    requires g.Valid() && IsPlan(g, known, required, position, plan)
    requires ServesATarget(g, known, required) && k <= |plan.steps|
    ensures var learnt := Elements(StepIds(plan.steps)[..k]);
            Needed(g, known + learnt, required) == Needed(g, known, required) - learnt
  {
    hide IsPlan;
    var learnt := Elements(StepIds(plan.steps)[..k]);
    var known' := known + learnt;
    forall v | v in Needed(g, known, required) - learnt
      ensures v in Needed(g, known', required)
    {
      if v in Targets(g, known, required) {
        assert v in Targets(g, known', required);
      } else {
        assert LeadsWithin(g, known, required, v);
        var t :| t in Targets(g, known, required) && Reaches(EdgesWithin(g, Needed(g, known, required)), v, t);
        if t in learnt {
          FirstStepsAreClosed(g, known, required, position, plan, k, v, t);
        }
        assert t in Targets(g, known', required);
        WithinReaches(g, Needed(g, known, required), v, t);
      }
    }
    KnowingMoreNeedsLess(g, known, known', required);
  }

  lemma WithinReaches(g: SkillGraph, nodes: set<SkillId>, u: SkillId, v: SkillId)
    requires Reaches(EdgesWithin(g, nodes), u, v)
    ensures Reaches(g.edges, u, v)
  {
    var p :| WalkBetween(EdgesWithin(g, nodes), u, v, p);
    assert WalkBetween(g.edges, u, v, p);
  }

  /** Learn the first `k` steps, ask again, and the new plan is exactly the rest of the old one, and may
      be followed in the same way; the nodes' places may have changed in between if names tell all
      skills apart. */
  lemma RecomputingYieldsTheSuffix(g: SkillGraph, known: set<SkillId>, required: set<SkillId>,
                                   position: map<SkillId, int>, position': map<SkillId, int>, plan: Plan, k: nat,
                                   plan': Plan)
    requires g.Valid() && Places(g, position) && IsPlan(g, known, required, position, plan)
    requires ServesATarget(g, known, required) && k <= |plan.steps|
    requires position' == position || DistinctNames(g)
    requires IsPlan(g, known + Elements(StepIds(plan.steps)[..k]), required, position', plan')
    ensures StepIds(plan'.steps) == StepIds(plan.steps)[k..]
    ensures ServesATarget(g, known + Elements(StepIds(plan.steps)[..k]), required)
    ensures PrerequisiteClosed(g, known) ==> PrerequisiteClosed(g, known + Elements(StepIds(plan.steps)[..k]))
  {
    var ids := StepIds(plan.steps);
    var learnt := Elements(ids[..k]);
    assert ids[k..] == StepIds(plan'.steps) by {
      RestIsStillNeeded(g, known, required, position, plan, k);
      GreedySuffix(g.edges, Needed(g, known, required), PlanOrder(g, position), ids, k);
      PlanOrderIsTotal(g, position);
      if position' != position {
        PlaceIsIrrelevant(g, Needed(g, known, required) - learnt, position', position, StepIds(plan'.steps));
      }
      GreedyUnique(g.edges, Needed(g, known, required) - learnt, PlanOrder(g, position), ids[k..],
                   StepIds(plan'.steps));
    }
    FollowingThePlanKeepsServing(g, known, required, position, plan, k);
    FollowingThePlanStaysClosed(g, known, required, position, plan, k);
  }

  lemma FollowingThePlanStaysClosed(g: SkillGraph, known: set<SkillId>, required: set<SkillId>,
                                    position: map<SkillId, int>, plan: Plan, k: nat)
    requires g.Valid() && IsPlan(g, known, required, position, plan) && k <= |plan.steps|
    ensures PrerequisiteClosed(g, known) ==> PrerequisiteClosed(g, known + Elements(StepIds(plan.steps)[..k]))
  {
    var ids, needed := StepIds(plan.steps), Needed(g, known, required);
    var learnt := Elements(ids[..k]);
    forall e | PrerequisiteClosed(g, known) && e in g.edges && e.1 in known + learnt && e.0 !in known
      ensures e.0 in learnt
    {
      PrefixElements(ids, k, e.1);
      assert e.1 in Elements(ids);
      UnknownPrerequisiteIsNeeded(g, known, required, e.0, e.1);
      ReachesEdge(EdgesWithin(g, needed), e.0, e.1);
      hide IsPlan;
      FirstStepsAreClosed(g, known, required, position, plan, k, e.0, e.1);
    }
  }

  lemma FollowingThePlanKeepsServing(g: SkillGraph, known: set<SkillId>, required: set<SkillId>,
                                     position: map<SkillId, int>, plan: Plan, k: nat)
    requires g.Valid() && IsPlan(g, known, required, position, plan)
    requires ServesATarget(g, known, required) && k <= |plan.steps|
    ensures ServesATarget(g, known + Elements(StepIds(plan.steps)[..k]), required)
  {
    hide IsPlan;
    var learnt := Elements(StepIds(plan.steps)[..k]);
    var needed, known' := Needed(g, known, required), known + learnt;
    RestIsStillNeeded(g, known, required, position, plan, k);
    forall u | u in Needed(g, known', required)
      ensures u in Targets(g, known', required) || LeadsWithin(g, known', required, u)
    {
      if u !in Targets(g, known, required) {
        assert LeadsWithin(g, known, required, u);
        var t :| t in Targets(g, known, required) && Reaches(EdgesWithin(g, needed), u, t);
        if t in learnt {
          FirstStepsAreClosed(g, known, required, position, plan, k, u, t);
        }
        assert t in Targets(g, known', required);
        var p :| WalkBetween(EdgesWithin(g, needed), u, t, p);
        StaysOutside(g, known, required, position, plan, k, p);
        assert WalkBetween(EdgesWithin(g, needed - learnt), u, t, p);
      }
    }
  }

  /** A walk through needed skills that starts after the first `k` steps never comes back to them. */
  lemma StaysOutside(g: SkillGraph, known: set<SkillId>, required: set<SkillId>, position: map<SkillId, int>,
                     plan: Plan, k: nat, p: seq<SkillId>)
    requires g.Valid() && IsPlan(g, known, required, position, plan) && k <= |plan.steps|
    requires Walk(EdgesWithin(g, Needed(g, known, required)), p) && p[0] !in Elements(StepIds(plan.steps)[..k])
    ensures Walk(EdgesWithin(g, Needed(g, known, required) - Elements(StepIds(plan.steps)[..k])), p)
  {
    hide IsPlan;
    var needed, learnt := Needed(g, known, required), Elements(StepIds(plan.steps)[..k]);
    forall i | 0 <= i < |p|
      ensures p[i] !in learnt
    {
      if i > 0 && p[i] in learnt {
        WalkReaches(EdgesWithin(g, needed), p, 0, i);
        FirstStepsAreClosed(g, known, required, position, plan, k, p[0], p[i]);
      }
    }
  }

  // ------------------------------------------------------------------ knowing more

  lemma KnowingMoreNeedsLess(g: SkillGraph, known: set<SkillId>, known': set<SkillId>, required: set<SkillId>)
    requires known <= known'
    ensures Needed(g, known', required) <= Needed(g, known, required)
  {
    forall v | v in Needed(g, known', required)
      ensures v in Needed(g, known, required)
    {
      var t :| t in Targets(g, known', required) && (v == t || Reaches(g.edges, v, t));
      assert t in Targets(g, known, required);
    }
  }

  lemma {:induction false} EffortWithout(g: SkillGraph, p: seq<SkillId>, k: nat)
    requires k < |p| && p[k] in g.nodes
    ensures Effort(g, p) == Effort(g, p[..k] + p[k + 1..]) + g.nodes[p[k]].difficulty
  {
    var n := |p| - 1;
    if k == n {
      assert p[..k] + p[k + 1..] == p[..n];
    } else {
      assert p[..n][..k] + p[..n][k + 1..] == (p[..k] + p[k + 1..])[..n - 1];
      EffortWithout(g, p[..n], k);
      assert (p[..k] + p[k + 1..])[n - 1] == p[n];
    }
  }

  lemma {:induction false} FewerSkillsLessEffort(g: SkillGraph, p: seq<SkillId>, q: seq<SkillId>)
    requires Distinct(p) && Distinct(q) && Elements(q) <= Elements(p) <= g.nodes.Keys
    requires forall id :: id in g.nodes ==> g.nodes[id].difficulty >= 0
    ensures Effort(g, q) <= Effort(g, p)
    decreases |p|
  {
    if q == [] {
      EffortNonNegative(g, p);
    } else {
      var m := |q| - 1;
      assert q[m] in Elements(q);
      var k :| 0 <= k < |p| && p[k] == q[m];
      assert q[..m] + q[m + 1..] == q[..m];
      hide Effort, Elements, Distinct;
      EffortWithout(g, p, k);
      EffortWithout(g, q, m);
      RemoveAt(p, k);
      RemoveAt(q, m);
      FewerSkillsLessEffort(g, p[..k] + p[k + 1..], q[..m]);
    }
  }

  lemma {:induction false} EffortNonNegative(g: SkillGraph, p: seq<SkillId>)
    requires Elements(p) <= g.nodes.Keys
    requires forall id :: id in g.nodes ==> g.nodes[id].difficulty >= 0
    ensures Effort(g, p) >= 0
  {
    if p != [] {
      var n := |p| - 1;
      assert p[n] in Elements(p);
      assert Elements(p[..n]) <= Elements(p);
      EffortNonNegative(g, p[..n]);
    }
  }

  lemma RemoveAt<T>(p: seq<T>, k: nat)
    requires Distinct(p) && k < |p|
    ensures Distinct(p[..k] + p[k + 1..])
    ensures Elements(p[..k] + p[k + 1..]) == Elements(p) - {p[k]}
  {
    var r := p[..k] + p[k + 1..];
    forall i, j | 0 <= i < j < |r|
      ensures r[i] != r[j]
    {
      assert r[i] == p[if i < k then i else i + 1] && r[j] == p[if j < k then j else j + 1];
    }
    forall x
      ensures x in r <==> x in p && x != p[k]
    {
      if x in p && x != p[k] {
        var i :| 0 <= i < |p| && p[i] == x;
        assert r[if i < k then i else i - 1] == x;
      }
    }
  }

  /** Knowing more never adds a step and never raises the total effort. */
  lemma KnowingMoreNeverCostsMore(g: SkillGraph, known: set<SkillId>, known': set<SkillId>, required: set<SkillId>,
                                  position: map<SkillId, int>, plan: Plan, plan': Plan)
    requires g.Valid() && known <= known'
    requires forall id :: id in g.nodes ==> g.nodes[id].difficulty >= 0
    requires IsPlan(g, known, required, position, plan) && IsPlan(g, known', required, position, plan')
    ensures forall id :: id in StepIds(plan'.steps) ==> id in StepIds(plan.steps)
    ensures |plan'.steps| <= |plan.steps|
    ensures plan'.totalEffort <= plan.totalEffort
  {
    var p, q := StepIds(plan.steps), StepIds(plan'.steps);
    KnowingMoreNeedsLess(g, known, known', required);
    GreedyIsTopological(g.edges, Needed(g, known, required), PlanOrder(g, position), p);
    GreedyIsTopological(g.edges, Needed(g, known', required), PlanOrder(g, position), q);
    FewerSkillsLessEffort(g, p, q);
    DistinctBound(q, Elements(p));
    DistinctCount(p);
    assert forall id :: id in q ==> id in Elements(q);
  }

  // ------------------------------------------------------------------ where the order stops short

  /** Skill "a" leads to "t" only through "b", which is known without its prerequisite. */
  ghost function DetourGraph(): SkillGraph {
    SkillGraph(
      map["a" := GraphSkill("a", "a", "A", 5, ""), "b" := GraphSkill("b", "b", "B", 1, ""),
          "t" := GraphSkill("t", "t", "T", 1, "")],
      {("a", "b"), ("b", "t")})
  }

  /** Knowing a skill without its prerequisites can break both readings of a plan: here the ancestor
      "a" is planned after "t", and drops out of the plan once "t" is learnt. */
  lemma DetourThroughAKnownSkill(position: map<SkillId, int>)
    ensures DetourGraph().Valid() && !PrerequisiteClosed(DetourGraph(), {"b"})
    ensures Reaches(DetourGraph().edges, "a", "t")
    ensures Needed(DetourGraph(), {"b"}, {"t"}) == {"a", "t"}
    ensures GreedyOrder(DetourGraph().edges, {"a", "t"}, PlanOrder(DetourGraph(), position), ["t", "a"])
    ensures Needed(DetourGraph(), {"b", "t"}, {"t"}) == {}
    ensures !ServesATarget(DetourGraph(), {"b"}, {"t"})
  {
    var g := DetourGraph();
    assert "a" != "b" && "b" != "t" && "a" != "t";
    RankedIsAcyclic(g.edges, map["a" := 0, "b" := 1, "t" := 2]);
    ReachesEdge(g.edges, "a", "b");
    ReachesEdge(g.edges, "b", "t");
    ReachesTransitive(g.edges, "a", "b", "t");
    assert ("a", "b") in g.edges;
    assert Targets(g, {"b"}, {"t"}) == {"t"};
    assert "t" in Targets(g, {"b"}, {"t"});
    assert LeadsToTarget(g, {"b"}, {"t"}, "a") && LeadsToTarget(g, {"b"}, {"t"}, "t");
    assert Targets(g, {"b", "t"}, {"t"}) == {};
    var p := ["t", "a"];
    assert p[..0] == [] && p[..1] == ["t"];
    assert LeastReady(g.edges, {"a", "t"} - Elements(p[..0]), PlanOrder(g, position), p[0]);
    assert LeastReady(g.edges, {"a", "t"} - Elements(p[..1]), PlanOrder(g, position), p[1]);
    assert p[0] in Elements(p) && p[1] in Elements(p);
    hide GreedyOrder, Needed;
    DetourServesNoTarget();
  }

  lemma DetourServesNoTarget()
    requires Needed(DetourGraph(), {"b"}, {"t"}) == {"a", "t"}
    ensures !ServesATarget(DetourGraph(), {"b"}, {"t"})
  {
    var within := EdgesWithin(DetourGraph(), {"a", "t"});
    hide Needed;
    assert "a" != "b" && "b" != "t" && "a" != "t";
    assert within == {};
    NothingReaches(within);
    assert !LeadsWithin(DetourGraph(), {"b"}, {"t"}, "a");
  }

  lemma NothingReaches(edges: set<(SkillId, SkillId)>)
    requires edges == {}
    ensures forall u, v :: !Reaches(edges, u, v)
  {
    forall u, v
      ensures !Reaches(edges, u, v)
    {
      if Reaches(edges, u, v) {
        var w := ReachesFirstEdge(edges, u, v);
      }
    }
  }
}
