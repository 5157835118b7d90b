/** When the cheapest chain of prerequisites is also the one that takes least to learn. */
module ChainEffort {
  import opened Graphs
  import opened LearningPath
  import opened PlanDetours
  import opened PrerequisiteChain

  /** What is left to learn of a skill. */
  function ToLearn(g: SkillGraph, known: set<SkillId>, v: SkillId): int {
    if v in known then 0 else Weight(g, v)
  }

  /** The learning effort of a chain: unlike the cost of a route it counts the first skill, unless it is known. */
  ghost function Effort(g: SkillGraph, known: set<SkillId>, p: seq<SkillId>): int {
    if p == [] then 0 else Effort(g, known, p[..|p| - 1]) + ToLearn(g, known, p[|p| - 1])
  }

  ghost predicate LeastEffort(g: SkillGraph, known: set<SkillId>, sources: set<SkillId>, target: SkillId,
                              p: seq<SkillId>) {
    forall q :: RouteFrom(g, sources, target, q) ==> Effort(g, known, p) <= Effort(g, known, q)
  }

  /** What the cost counts although it is known already: at most the target. */
  function Surplus(g: SkillGraph, known: set<SkillId>, target: SkillId): int {
    if target in known then Weight(g, target) else 0
  }

  // ------------------------------------------------------------------ effort and cost of one route

  lemma {:induction false} EffortSplit(g: SkillGraph, known: set<SkillId>, p: seq<SkillId>, i: nat)
    requires i <= |p|
    ensures Effort(g, known, p) == Effort(g, known, p[..i]) + Effort(g, known, p[i..])
    decreases |p| - i
  {
    if i == |p| {
      assert p[..i] == p;
    } else {
      var n := |p| - 1;
      EffortSplit(g, known, p[..n], i);
      assert p[..n][..i] == p[..i];
      assert p[..n][i..] == p[i..][..n - i];
    }
  }

  lemma {:induction false} EffortIsNotNegative(g: SkillGraph, known: set<SkillId>, p: seq<SkillId>)
    requires WeightsAtLeast(g, 0)
    ensures Effort(g, known, p) >= 0
  {
    if p != [] {
      EffortIsNotNegative(g, known, p[..|p| - 1]);
    }
  }

  lemma {:induction false} CostIsNotNegative(g: SkillGraph, p: seq<SkillId>)
    requires WeightsAtLeast(g, 0)
    ensures Cost(g, p) >= 0
  {
    if |p| > 1 {
      CostIsNotNegative(g, p[..|p| - 1]);
    }
  }

  /** From a known skill on, the cost counts no less than there is to learn. */
  lemma {:induction false} CostCoversEffort(g: SkillGraph, known: set<SkillId>, p: seq<SkillId>)
    requires WeightsAtLeast(g, 0) && p != [] && p[0] in known
    ensures Effort(g, known, p) <= Cost(g, p)
    ensures |p| >= 2 ==> Effort(g, known, p) + Surplus(g, known, p[|p| - 1]) <= Cost(g, p)
  {
    if |p| == 1 {
      assert p[..0] == [];
    } else {
      CostCoversEffort(g, known, p[..|p| - 1]);
    }
  }

  /** With nothing known between its ends, the cost of a route misses its first skill and nothing else. */
  lemma {:induction false} CostMissesTheFirst(g: SkillGraph, known: set<SkillId>, p: seq<SkillId>)
    requires |p| >= 2 && forall i :: 0 < i < |p| - 1 ==> p[i] !in known
    ensures Effort(g, known, p) + Surplus(g, known, p[|p| - 1]) == ToLearn(g, known, p[0]) + Cost(g, p)
  {
    var n := |p| - 1;
    if n == 1 {
      assert p[..1][..0] == [] && p[..1][0] == p[0];
      assert Effort(g, known, p[..1]) == ToLearn(g, known, p[0]);
    } else {
      CostMissesTheFirst(g, known, p[..n]);
      assert p[..n][n - 1] == p[n - 1];
    }
  }

  // ------------------------------------------------------------------ with a known ancestor

  /** The last known skill before the end of a route. */
  lemma {:induction false} LastKnown(known: set<SkillId>, q: seq<SkillId>, k: nat) returns (i: nat)
    requires q != [] && q[0] in known && k < |q|
    ensures i <= k && q[i] in known && forall j :: i < j <= k ==> q[j] !in known
    decreases k
  {
    i := k;
    if q[k] !in known {
      i := LastKnown(known, q, k - 1);
    }
  }

  lemma EntryFacts(g: SkillGraph, known: set<SkillId>, target: SkillId, q: seq<SkillId>)
    requires g.Valid() && RouteFrom(g, EntryPoints(g, known, target), target, q)
    ensures |q| >= 2 && q[|q| - 1] == target && Walk(g.edges, q)
    ensures forall i :: 0 <= i < |q| - 1 ==> q[i] in g.nodes && Reaches(g.edges, q[i], target)
  {
    assert Reaches(g.edges, q[0], target);
    assert q[0] != target;
    RouteStaysInside(g, q[0], target, q);
    forall i | 0 <= i < |q| - 1
      ensures q[i] in g.nodes && Reaches(g.edges, q[i], target)
    {
      WalkReaches(g.edges, q, i, |q| - 1);
      assert q[i] in q;
    }
  }

  ghost predicate SomeAncestorKnown(g: SkillGraph, known: set<SkillId>, target: SkillId) {
    exists a :: a in g.nodes && Reaches(g.edges, a, target) && a in known
  }

  lemma EntriesOfKnown(g: SkillGraph, known: set<SkillId>, target: SkillId)
    ensures SomeAncestorKnown(g, known, target) ==>
              forall a :: a in EntryPoints(g, known, target) <==>
                a in g.nodes && Reaches(g.edges, a, target) && a in known
    ensures !SomeAncestorKnown(g, known, target) ==>
              forall a :: a in EntryPoints(g, known, target) <==>
                a in g.nodes && Reaches(g.edges, a, target) && IsRoot(g, a)
  {
    var held := set a | a in g.nodes && Reaches(g.edges, a, target) && a in known;
    assert SomeAncestorKnown(g, known, target) <==> held != {} by {
      if SomeAncestorKnown(g, known, target) {
        var a :| a in g.nodes && Reaches(g.edges, a, target) && a in known;
        assert a in held;
      }
    }
  }

  /** If any ancestor is known, no chain from an entry point takes less to learn than the cheapest one. */
  lemma KnownAncestorsAgree(g: SkillGraph, known: set<SkillId>, target: SkillId, p: seq<SkillId>)
    requires g.Valid() && WeightsAtLeast(g, 0) && SomeAncestorKnown(g, known, target)
    requires BestChain(g, EntryPoints(g, known, target), target, p)
    ensures LeastEffort(g, known, EntryPoints(g, known, target), target, p)
  {
    var sources := EntryPoints(g, known, target);
    forall q | RouteFrom(g, sources, target, q)
      ensures Effort(g, known, p) <= Effort(g, known, q)
    {
      EntriesOfKnown(g, known, target);
      EntryFacts(g, known, target, q);
      assert RouteFrom(g, sources, target, p);
      EntryFacts(g, known, target, p);
      CostCoversEffort(g, known, p);
      var n := |q| - 1;
      var i := LastKnown(known, q, n - 1);
      ShortcutFromKnown(g, known, target, q, i);
      assert RouteFrom(g, sources, target, q[i..]);
    }
  }

  /** From its last known skill on, a route costs what it takes, and the rest of it only adds to that. */
  lemma ShortcutFromKnown(g: SkillGraph, known: set<SkillId>, target: SkillId, q: seq<SkillId>, i: nat)
    requires WeightsAtLeast(g, 0) && Walk(g.edges, q) && i < |q| - 1 && q[|q| - 1] == target
    requires q[i] in known && forall j :: i < j < |q| - 1 ==> q[j] !in known
    ensures Route(g, q[i], target, q[i..])
    ensures Cost(g, q[i..]) <= Effort(g, known, q) + Surplus(g, known, target)
  {
    CostMissesTheFirst(g, known, q[i..]);
    EffortSplit(g, known, q, i);
    EffortIsNotNegative(g, known, q[..i]);
  }

  // ------------------------------------------------------------------ with none

  lemma UnknownAncestorsCost(g: SkillGraph, known: set<SkillId>, target: SkillId, q: seq<SkillId>)
    requires g.Valid() && !SomeAncestorKnown(g, known, target)
    requires RouteFrom(g, EntryPoints(g, known, target), target, q)
    ensures Effort(g, known, q) + Surplus(g, known, target) == Weight(g, q[0]) + Cost(g, q)
    ensures q[0] in g.nodes
  {
    EntryFacts(g, known, target, q);
    CostMissesTheFirst(g, known, q);
  }

  ghost predicate WeightsAtMost(g: SkillGraph, ceiling: int) {
    forall v :: v in g.nodes ==> g.nodes[v].difficulty <= ceiling
  }

  /** The chain never takes more than the spread of the difficulties over the least: 4, as the database
      keeps them between 1 and 5. */
  lemma ChainIsNearlyLeast(g: SkillGraph, known: set<SkillId>, target: SkillId, p: seq<SkillId>, q: seq<SkillId>,
                           floor: nat, ceiling: int)
    requires g.Valid() && WeightsAtLeast(g, floor) && WeightsAtMost(g, ceiling)
    requires BestChain(g, EntryPoints(g, known, target), target, p)
    requires RouteFrom(g, EntryPoints(g, known, target), target, q)
    ensures Effort(g, known, p) <= Effort(g, known, q) + ceiling - floor
  {
    if SomeAncestorKnown(g, known, target) {
      KnownAncestorsAgree(g, known, target, p);
      EntryFacts(g, known, target, q);
      assert q[0] in g.nodes;
    } else {
      UnknownAncestorsCost(g, known, target, p);
      UnknownAncestorsCost(g, known, target, q);
    }
  }

  // ------------------------------------------------------------------ the exact condition

  /** Some difficulties on the same graph make a cheapest chain that takes more to learn than another. */
  ghost predicate CanMislead(g: SkillGraph, known: set<SkillId>, target: SkillId) {
    exists g', p :: Misleads(g, g', known, target, p)
  }

  ghost predicate Misleads(g: SkillGraph, g': SkillGraph, known: set<SkillId>, target: SkillId, p: seq<SkillId>) {
    && SameShape(g, g') && WeightsAtLeast(g', 1)
    && BestChain(g', EntryPoints(g', known, target), target, p)
    && !LeastEffort(g', known, EntryPoints(g', known, target), target, p)
  }

  ghost predicate TwoUnknownRoots(g: SkillGraph, known: set<SkillId>, target: SkillId) {
    && !SomeAncestorKnown(g, known, target)
    && exists a, b :: a in EntryPoints(g, known, target) && b in EntryPoints(g, known, target) && a != b
  }

  lemma MisleadsExactlyWithTwoUnknownRoots(g: SkillGraph, known: set<SkillId>, target: SkillId)
    requires g.Valid() && target in g.nodes
    ensures CanMislead(g, known, target) <==> TwoUnknownRoots(g, known, target)
  {
    hide *;
    if CanMislead(g, known, target) {
      MisleadingNeedsTwoRoots(g, known, target);
    }
    if TwoUnknownRoots(g, known, target) {
      TwoRootsMislead(g, known, target);
    }
  }

  lemma SameEntries(g: SkillGraph, g': SkillGraph, known: set<SkillId>, target: SkillId)
    requires SameShape(g, g')
    ensures EntryPoints(g', known, target) == EntryPoints(g, known, target)
    ensures SomeAncestorKnown(g', known, target) <==> SomeAncestorKnown(g, known, target)
    ensures forall sources, q :: RouteFrom(g', sources, target, q) <==> RouteFrom(g, sources, target, q)
    ensures g.Valid() ==> g'.Valid()
  {
    EntriesOfKnown(g, known, target);
    EntriesOfKnown(g', known, target);
    assert forall a :: IsRoot(g', a) <==> IsRoot(g, a);
  }

  lemma MisleadingNeedsTwoRoots(g: SkillGraph, known: set<SkillId>, target: SkillId)
    requires g.Valid() && CanMislead(g, known, target)
    ensures TwoUnknownRoots(g, known, target)
  {
    var g', p :| Misleads(g, g', known, target, p);
    SameEntries(g, g', known, target);
    var sources := EntryPoints(g', known, target);
    if SomeAncestorKnown(g, known, target) {
      KnownAncestorsAgree(g', known, target, p);
      assert false;
    }
    var q :| RouteFrom(g', sources, target, q) && Effort(g', known, p) > Effort(g', known, q);
    assert RouteFrom(g', sources, target, p);
    UnknownAncestorsCost(g', known, target, p);
    UnknownAncestorsCost(g', known, target, q);
    assert p[0] != q[0];
  }

  lemma BestChainExists(g: SkillGraph, sources: set<SkillId>, target: SkillId, q: seq<SkillId>)
      returns (p: seq<SkillId>)
    requires WeightsAtLeast(g, 0) && RouteFrom(g, sources, target, q)
    ensures BestChain(g, sources, target, p)
    decreases Cost(g, q)
  {
    CostIsNotNegative(g, q);
    p := q;
    if r :| RouteFrom(g, sources, target, r) && Cost(g, r) < Cost(g, q) {
      CostIsNotNegative(g, r);
      p := BestChainExists(g, sources, target, r);
    }
  }

  /** Every skill counts 1, but for one. */
  ghost function WithDear(g: SkillGraph, dear: SkillId, difficulty: int): SkillGraph {
    g.(nodes := map v | v in g.nodes :: g.nodes[v].(difficulty := if v == dear then difficulty else 1))
  }

  /** A root comes first or not at all, and the first skill of a route is free. */
  lemma {:induction false} RootsAreFree(g: SkillGraph, dear: SkillId, x: int, y: int, p: seq<SkillId>)
    requires IsRoot(g, dear) && Walk(g.edges, p)
    ensures Cost(WithDear(g, dear, x), p) == Cost(WithDear(g, dear, y), p)
  {
    if |p| > 1 {
      var n := |p| - 1;
      assert (p[n - 1], p[n]) in g.edges;
      RootsAreFree(g, dear, x, y, p[..n]);
    }
  }

  lemma TwoRootsMislead(g: SkillGraph, known: set<SkillId>, target: SkillId)
    requires g.Valid() && TwoUnknownRoots(g, known, target)
    ensures CanMislead(g, known, target)
  {
    var sources := EntryPoints(g, known, target);
    EntriesOfKnown(g, known, target);
    var a :| a in sources;
    var cheap := WithDear(g, a, 1);
    SameEntries(g, cheap, known, target);
    var q0 :| WalkBetween(g.edges, a, target, q0);
    assert RouteFrom(cheap, sources, target, q0);
    var p := BestChainExists(cheap, sources, target, q0);
    assert RouteFrom(cheap, sources, target, p);
    var b :| b in sources && b != p[0];
    var q :| WalkBetween(g.edges, b, target, q);
    assert RouteFrom(g, sources, target, q) && RouteFrom(g, sources, target, p);
    DearRootMisleads(g, known, target, a, p, q);
  }

  lemma DearRootMisleads(g: SkillGraph, known: set<SkillId>, target: SkillId, a: SkillId, p: seq<SkillId>,
                         q: seq<SkillId>)
    requires g.Valid() && !SomeAncestorKnown(g, known, target)
    requires var sources := EntryPoints(g, known, target);
             && BestChain(WithDear(g, a, 1), sources, target, p)
             && RouteFrom(g, sources, target, p) && RouteFrom(g, sources, target, q) && p[0] != q[0]
    ensures CanMislead(g, known, target)
  {
    var sources := EntryPoints(g, known, target);
    EntriesOfKnown(g, known, target);
    var dear := p[0];
    var ones := WithDear(g, a, 1);
    assert ones == WithDear(g, dear, 1);
    CostIsNotNegative(ones, q);
    CostIsNotNegative(ones, p);
    var g' := WithDear(g, dear, Cost(ones, q) + 2);
    SameEntries(g, ones, known, target);
    SameEntries(g, g', known, target);
    forall r | RouteFrom(g, sources, target, r)
      ensures Cost(g', r) == Cost(ones, r)
    {
      RootsAreFree(g, dear, Cost(ones, q) + 2, 1, r);
    }
    UnknownAncestorsCost(g', known, target, p);
    UnknownAncestorsCost(g', known, target, q);
    assert Weight(g', p[0]) == Cost(ones, q) + 2 && Weight(g', q[0]) == 1;
    assert !LeastEffort(g', known, sources, target, p);
    assert Misleads(g, g', known, target, p);
  }

  // ------------------------------------------------------------------ an instance

  /** "t" after the hard "a", or after the easy "b" and "m". */
  ghost function TwoRoots(): SkillGraph {
    SkillGraph(
      map["a" := GraphSkill("a", "a", "A", 5, ""), "b" := GraphSkill("b", "b", "B", 1, ""),
          "m" := GraphSkill("m", "m", "M", 1, ""), "t" := GraphSkill("t", "t", "T", 1, "")],
      {("a", "t"), ("b", "m"), ("m", "t")})
  }

  lemma TwoRootsEntries()
    ensures TwoRoots().Valid() && !SomeAncestorKnown(TwoRoots(), {}, "t")
    ensures EntryPoints(TwoRoots(), {}, "t") == {"a", "b"}
  {
    var g := TwoRoots();
    assert "a" != "b" && "a" != "m" && "a" != "t" && "b" != "m" && "b" != "t" && "m" != "t";
    RankedIsAcyclic(g.edges, map["a" := 0, "b" := 0, "m" := 1, "t" := 2]);
    ReachesEdge(g.edges, "a", "t");
    ReachesEdge(g.edges, "b", "m");
    ReachesEdge(g.edges, "m", "t");
    ReachesTransitive(g.edges, "b", "m", "t");
    EntriesOfKnown(g, {}, "t");
    assert ("b", "m") in g.edges && ("m", "t") in g.edges;
    assert IsRoot(g, "a") && IsRoot(g, "b") && !IsRoot(g, "m") && !IsRoot(g, "t");
  }

  /** The only cheapest chain starts at "a" and takes 6 to learn; the other takes 3. */
  lemma AFreeRootMisleads(p: seq<SkillId>)
    requires BestChain(TwoRoots(), EntryPoints(TwoRoots(), {}, "t"), "t", p)
    ensures p == ["a", "t"] && Effort(TwoRoots(), {}, p) == 6
    ensures RouteFrom(TwoRoots(), EntryPoints(TwoRoots(), {}, "t"), "t", ["b", "m", "t"])
    ensures Effort(TwoRoots(), {}, ["b", "m", "t"]) == 3
  {
    var g := TwoRoots();
    TwoRootsEntries();
    var q, r := ["a", "t"], ["b", "m", "t"];
    assert RouteFrom(g, {"a", "b"}, "t", q) && RouteFrom(g, {"a", "b"}, "t", r);
    assert q[..1] == ["a"] && r[..2] == ["b", "m"] && ["b", "m"][..1] == ["b"];
    assert Cost(g, q) == 1;
    assert Cost(g, r) == 2 by {
      assert Cost(g, ["b", "m"]) == 1;
    }
    UnknownAncestorsCost(g, {}, "t", q);
    UnknownAncestorsCost(g, {}, "t", r);
    ShortChainsStartAtA(p);
  }

  lemma LongChainsCostMore(p: seq<SkillId>)
    requires Walk(TwoRoots().edges, p) && |p| >= 3
    ensures Cost(TwoRoots(), p) >= 2
  {
    var g, n := TwoRoots(), |p| - 1;
    assert "a" != "m" && "a" != "t";
    assert (p[n - 1], p[n]) in g.edges && (p[n - 2], p[n - 1]) in g.edges;
    CostIsNotNegative(g, p[..n - 1]);
    assert p[..n][..n - 1] == p[..n - 1];
  }

  lemma ShortChainsStartAtA(p: seq<SkillId>)
    requires RouteFrom(TwoRoots(), {"a", "b"}, "t", p) && Cost(TwoRoots(), p) <= 1
    ensures p == ["a", "t"]
  {
    assert "a" != "b" && "a" != "m" && "a" != "t" && "b" != "m" && "b" != "t" && "m" != "t";
    if |p| >= 3 {
      LongChainsCostMore(p);
    }
    var n := |p| - 1;
    assert n >= 1 && (p[n - 1], p[n]) in TwoRoots().edges;
  }
}
