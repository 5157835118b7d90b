/** When a learning plan keeps every skill after everything it depends on, and when it need not. */
module PlanDetours {
  import opened Common
  import opened Graphs
  import opened TopologicalSort
  import opened LearningPath
  import opened LearningPathLaws

  /** Whenever one needed skill leads to another, it also does so through needed skills alone. */
  ghost predicate NoDetour(g: SkillGraph, known: set<SkillId>, required: set<SkillId>) {
    var needed := Needed(g, known, required);
    forall u, v :: u in needed && v in needed && Reaches(g.edges, u, v) ==> Reaches(EdgesWithin(g, needed), u, v)
  }

  /** What the module's account promises of a plan: no skill comes before anything that leads to it. */
  ghost predicate AncestorsFirst(g: SkillGraph, ids: seq<SkillId>) {
    forall i, j :: 0 <= i < |ids| && 0 <= j < |ids| && Reaches(g.edges, ids[i], ids[j]) ==> i < j
  }

  /** The same skills and dependencies, with other names and difficulties. */
  ghost predicate SameShape(g: SkillGraph, g': SkillGraph) {
    g'.edges == g.edges && g'.nodes.Keys == g.nodes.Keys
  }

  /** Without a detour through known skills the promise holds for every plan. */
  lemma NoDetourKeepsTheOrder(g: SkillGraph, known: set<SkillId>, required: set<SkillId>, position: map<SkillId, int>,
                              plan: Plan)
    requires g.Valid() && IsPlan(g, known, required, position, plan)
    requires NoDetour(g, known, required)
    ensures AncestorsFirst(g, StepIds(plan.steps))
  {
    var ids, needed := StepIds(plan.steps), Needed(g, known, required);
    GreedyIsTopological(g.edges, needed, PlanOrder(g, position), ids);
    forall i, j | 0 <= i < |ids| && 0 <= j < |ids| && Reaches(g.edges, ids[i], ids[j])
      ensures i < j
    {
      assert ids[i] in Elements(ids) && ids[j] in Elements(ids);
      var chain :| WalkBetween(EdgesWithin(g, needed), ids[i], ids[j], chain);
      WithinIsUnknown(g, known, required, chain);
      hide IsPlan;
      var a := UnknownChainInOrder(g, known, required, position, plan, chain, j);
      assert ids[a] == ids[i];
    }
  }

  /** Without detours every needed skill serves a target, so the plan can also be followed step by step. */
  lemma NoDetourServesTargets(g: SkillGraph, known: set<SkillId>, required: set<SkillId>)
    requires NoDetour(g, known, required)
    ensures ServesATarget(g, known, required)
  {
    var needed := Needed(g, known, required);
    forall u | u in needed && u !in Targets(g, known, required)
      ensures LeadsWithin(g, known, required, u)
    {
      assert LeadsToTarget(g, known, required, u);
      var t :| t in Targets(g, known, required) && Reaches(g.edges, u, t);
      assert LeadsToTarget(g, known, required, t);
    }
  }

  /** Knowing the prerequisites of all one knows rules detours out. */
  lemma ClosedKnowledgeHasNoDetour(g: SkillGraph, known: set<SkillId>, required: set<SkillId>)
    requires g.Valid() && PrerequisiteClosed(g, known)
    ensures NoDetour(g, known, required)
  {
    var needed := Needed(g, known, required);
    forall u, v | u in needed && v in needed && Reaches(g.edges, u, v)
      ensures Reaches(EdgesWithin(g, needed), u, v)
    {
      var p :| WalkBetween(g.edges, u, v, p);
      UnknownDescendants(g, known, p);
      WalkIsNeeded(g, known, required, p);
      assert WalkBetween(EdgesWithin(g, needed), u, v, p);
    }
  }

  lemma {:induction false} WalkIsNeeded(g: SkillGraph, known: set<SkillId>, required: set<SkillId>, p: seq<SkillId>)
    requires g.Valid() && Walk(g.edges, p) && forall x :: x in p ==> x !in known
    requires p[|p| - 1] in Needed(g, known, required)
    ensures forall x :: x in p ==> x in Needed(g, known, required)
  {
    if |p| > 1 {
      assert p == [p[0]] + p[1..];
      WalkIsNeeded(g, known, required, p[1..]);
      assert (p[0], p[1]) in g.edges;
      UnknownPrerequisiteIsNeeded(g, known, required, p[0], p[1]);
    }
  }

  // ------------------------------------------------------------------ and it is the exact condition

  ghost function Downstream(g: SkillGraph, nodes: set<SkillId>, u: SkillId): set<SkillId> {
    set x | x in nodes && (x == u || Reaches(EdgesWithin(g, nodes), u, x))
  }

  /** The skills of `hard` made harder than all others. */
  ghost function WithHard(g: SkillGraph, hard: set<SkillId>): SkillGraph {
    g.(nodes := map id | id in g.nodes :: g.nodes[id].(difficulty := if id in hard then 2 else 1))
  }

  /** Where there is a detour, some difficulties make every plan break the promise. */
  lemma ADetourCanBreakTheOrder(g: SkillGraph, known: set<SkillId>, required: set<SkillId>) returns (g': SkillGraph)
    requires g.Valid() && !NoDetour(g, known, required)
    ensures SameShape(g, g') && g'.Valid()
    ensures forall position, plan :: IsPlan(g', known, required, position, plan) ==>
              !AncestorsFirst(g', StepIds(plan.steps))
  {
    var needed := Needed(g, known, required);
    var u, v :| u in needed && v in needed && Reaches(g.edges, u, v) && !Reaches(EdgesWithin(g, needed), u, v);
    var hard := Downstream(g, needed, u);
    g' := WithHard(g, hard);
    assert v !in hard;
    hide IsPlan, Needed, Downstream, Reaches;
    forall position, plan | IsPlan(g', known, required, position, plan)
      ensures !AncestorsFirst(g', StepIds(plan.steps))
    {
      HardPlanBreaksTheOrder(g, known, required, u, v, position, plan);
    }
  }

  lemma HardPlanBreaksTheOrder(g: SkillGraph, known: set<SkillId>, required: set<SkillId>, u: SkillId, v: SkillId,
                               position: map<SkillId, int>, plan: Plan)
    requires g.Valid() && u in Needed(g, known, required) && v in Needed(g, known, required) && Reaches(g.edges, u, v)
    requires var hard := Downstream(g, Needed(g, known, required), u);
             v !in hard && IsPlan(WithHard(g, hard), known, required, position, plan)
    ensures !AncestorsFirst(g, StepIds(plan.steps))
  {
    var needed := Needed(g, known, required);
    var g' := WithHard(g, Downstream(g, needed, u));
    SameNeeded(g, g', known, required);
    var ids := StepIds(plan.steps);
    assert GreedyOrder(g.edges, needed, PlanOrder(g', position), ids);
    assert needed <= g.nodes.Keys;
    hide IsPlan, Needed, Reaches, Downstream, GreedyOrder, AncestorsFirst;
    HardIsHarder(g, needed, Downstream(g, needed, u), position);
    EasyFirstBreaksTheOrder(g, needed, u, v, PlanOrder(g', position), ids);
  }

  /** A needed skill of `hard` never goes before one that is not. */
  ghost predicate EasyFirst(needed: set<SkillId>, hard: set<SkillId>, leq: (SkillId, SkillId) -> bool) {
    forall x, y :: x in needed && y in needed && x in hard && y !in hard ==> !leq(x, y)
  }

  lemma HardIsHarder(g: SkillGraph, needed: set<SkillId>, hard: set<SkillId>, position: map<SkillId, int>)
    requires needed <= g.nodes.Keys
    ensures EasyFirst(needed, hard, PlanOrder(WithHard(g, hard), position))
  {
  }

  lemma EasyFirstBreaksTheOrder(g: SkillGraph, needed: set<SkillId>, u: SkillId, v: SkillId,
                                leq: (SkillId, SkillId) -> bool, ids: seq<SkillId>)
    requires g.Valid() && GreedyOrder(g.edges, needed, leq, ids)
    requires EasyFirst(needed, Downstream(g, needed, u), leq)
    requires u in needed && v in needed && v !in Downstream(g, needed, u) && Reaches(g.edges, u, v)
    ensures !AncestorsFirst(g, ids)
  {
    assert u in Elements(ids) && v in Elements(ids);
    var a :| 0 <= a < |ids| && ids[a] == u;
    var b :| 0 <= b < |ids| && ids[b] == v;
    HardComesLater(g, needed, u, leq, ids, a, b);
  }

  lemma SameNeeded(g: SkillGraph, g': SkillGraph, known: set<SkillId>, required: set<SkillId>)
    requires SameShape(g, g')
    ensures Needed(g', known, required) == Needed(g, known, required)
  {
    assert Targets(g', known, required) == Targets(g, known, required);
    assert forall v :: LeadsToTarget(g', known, required, v) <==> LeadsToTarget(g, known, required, v);
  }

  /** A greedy order that puts easy before hard reaches `u` only after everything not downstream of it. */
  lemma HardComesLater(g: SkillGraph, needed: set<SkillId>, u: SkillId, leq: (SkillId, SkillId) -> bool,
                       ids: seq<SkillId>, a: nat, b: nat)
    requires g.Valid() && GreedyOrder(g.edges, needed, leq, ids)
    requires EasyFirst(needed, Downstream(g, needed, u), leq)
    requires a < |ids| && b < |ids| && ids[a] == u && ids[b] !in Downstream(g, needed, u)
    ensures b < a
  {
    var hard := Downstream(g, needed, u);
    assert u in Elements(ids);
    if a < b {
      var rest := needed - Elements(ids[..a]);
      assert LeastReady(g.edges, rest, leq, ids[a]);
      GreedyIsTopological(g.edges, needed, leq, ids);
      assert ids[b] in Elements(ids);
      PrefixElements(ids, a, ids[b]);
      assert ids[b] in rest - hard;
      var w := HasSource(g.edges, rest - hard);
      forall x | x in rest
        ensures (x, w) !in g.edges
      {
        if (x, w) in g.edges && x in hard {
          StepsDownstream(g, needed, u, x, w);
        }
      }
      assert Ready(g.edges, rest, w);
    }
  }

  lemma StepsDownstream(g: SkillGraph, needed: set<SkillId>, u: SkillId, x: SkillId, w: SkillId)
    requires x in Downstream(g, needed, u) && u in needed && w in needed && (x, w) in g.edges
    ensures w in Downstream(g, needed, u)
  {
    var within := EdgesWithin(g, needed);
    ReachesEdge(within, x, w);
    if x != u {
      ReachesTransitive(within, u, x, w);
    }
  }

  // ------------------------------------------------------------------ following a plan that serves no target

  /** The plan goes on after `k` steps, but asked again then, nothing is planned any more. */
  ghost predicate Vanishes(g: SkillGraph, known: set<SkillId>, required: set<SkillId>, plan: Plan, k: nat) {
    k < |plan.steps| && Needed(g, known + Elements(StepIds(plan.steps)[..k]), required) == {}
  }

  /** The plan goes on after `k` steps, but whatever plan is then made differs from the rest of it. */
  ghost predicate LosesSteps(g: SkillGraph, known: set<SkillId>, required: set<SkillId>, plan: Plan, k: nat) {
    && k < |plan.steps|
    && forall position, plan' :: IsPlan(g, known + Elements(StepIds(plan.steps)[..k]), required, position, plan') ==>
         plan'.steps == [] && StepIds(plan'.steps) != StepIds(plan.steps)[k..]
  }

  lemma VanishingLosesSteps(g: SkillGraph, known: set<SkillId>, required: set<SkillId>, plan: Plan, k: nat)
    requires Vanishes(g, known, required, plan, k)
    ensures LosesSteps(g, known, required, plan, k)
  {
    hide IsPlan, Vanishes;
    VanishingIsEarly(g, known, required, plan, k);
    forall position, plan' | IsPlan(g, known + Elements(StepIds(plan.steps)[..k]), required, position, plan')
      ensures plan'.steps == [] && StepIds(plan'.steps) != StepIds(plan.steps)[k..]
    {
      VanishedPlanIsEmpty(g, known, required, plan, k, position, plan');
    }
  }

  lemma VanishingIsEarly(g: SkillGraph, known: set<SkillId>, required: set<SkillId>, plan: Plan, k: nat)
    requires Vanishes(g, known, required, plan, k)
    ensures k < |plan.steps|
  {
  }

  lemma VanishedPlanIsEmpty(g: SkillGraph, known: set<SkillId>, required: set<SkillId>, plan: Plan, k: nat,
                            position: map<SkillId, int>, plan': Plan)
    requires Vanishes(g, known, required, plan, k)
    requires IsPlan(g, known + Elements(StepIds(plan.steps)[..k]), required, position, plan')
    ensures plan'.steps == [] && StepIds(plan'.steps) != StepIds(plan.steps)[k..]
  {
    var ids := StepIds(plan'.steps);
    GreedyIsTopological(g.edges, {}, PlanOrder(g, position), ids);
    DistinctCount(ids);
  }

  /** Where a needed skill serves no target, some difficulties make every plan list it after all
      targets, and drop it when asked again once those are learnt. */
  lemma AUselessStepCanVanish(g: SkillGraph, known: set<SkillId>, required: set<SkillId>) returns (g': SkillGraph)
    requires g.Valid() && !ServesATarget(g, known, required)
    ensures SameShape(g, g') && g'.Valid()
    ensures forall position, plan :: IsPlan(g', known, required, position, plan) ==>
              exists k: nat :: LosesSteps(g', known, required, plan, k)
  {
    var needed := Needed(g, known, required);
    var u :| u in needed && u !in Targets(g, known, required) && !LeadsWithin(g, known, required, u);
    var hard := Downstream(g, needed, u);
    g' := WithHard(g, hard);
    assert hard !! Targets(g, known, required);
    hide IsPlan, Needed, Targets, Downstream, Vanishes, LosesSteps, LeadsWithin;
    forall position, plan | IsPlan(g', known, required, position, plan)
      ensures exists k: nat :: LosesSteps(g', known, required, plan, k)
    {
      var k := UselessStepVanishes(g, known, required, u, position, plan);
      VanishingLosesSteps(g', known, required, plan, k);
    }
  }

  lemma UselessStepVanishes(g: SkillGraph, known: set<SkillId>, required: set<SkillId>, u: SkillId,
                            position: map<SkillId, int>, plan: Plan) returns (k: nat)
    requires g.Valid() && u in Needed(g, known, required)
    requires var hard := Downstream(g, Needed(g, known, required), u);
             hard !! Targets(g, known, required) && IsPlan(WithHard(g, hard), known, required, position, plan)
    ensures Vanishes(WithHard(g, Downstream(g, Needed(g, known, required), u)), known, required, plan, k)
  {
    var needed := Needed(g, known, required);
    var g' := WithHard(g, Downstream(g, needed, u));
    var ids := StepIds(plan.steps);
    SameNeeded(g, g', known, required);
    assert GreedyOrder(g.edges, needed, PlanOrder(g', position), ids);
    assert needed <= g.nodes.Keys && Targets(g', known, required) == Targets(g, known, required);
    hide IsPlan;
    HardIsHarder(g, needed, Downstream(g, needed, u), position);
    k := TargetsComeFirst(g, known, required, u, PlanOrder(g', position), ids);
    AllTargetsKnown(g', known + Elements(ids[..k]), required);
  }

  lemma AllTargetsKnown(g: SkillGraph, known: set<SkillId>, required: set<SkillId>)
    requires Targets(g, known, required) == {}
    ensures Needed(g, known, required) == {}
  {
    assert forall v :: !LeadsToTarget(g, known, required, v);
  }

  lemma TargetsComeFirst(g: SkillGraph, known: set<SkillId>, required: set<SkillId>, u: SkillId,
                         leq: (SkillId, SkillId) -> bool, ids: seq<SkillId>) returns (k: nat)
    requires g.Valid() && u in Needed(g, known, required) && GreedyOrder(g.edges, Needed(g, known, required), leq, ids)
    requires var needed := Needed(g, known, required);
             var hard := Downstream(g, needed, u);
             && hard !! Targets(g, known, required)
             && EasyFirst(needed, hard, leq)
    ensures k < |ids| && Targets(g, known + Elements(ids[..k]), required) == {}
  {
    var needed := Needed(g, known, required);
    hide Downstream;
    assert u in Elements(ids);
    k :| 0 <= k < |ids| && ids[k] == u;
    forall t | t in Targets(g, known, required)
      ensures t in Elements(ids[..k])
    {
      assert LeadsToTarget(g, known, required, t);
      assert t in Elements(ids);
      var b :| 0 <= b < |ids| && ids[b] == t;
      HardComesLater(g, needed, u, leq, ids, k, b);
      PrefixElements(ids, k, t);
    }
  }
}
