/** What a match score is worth: shares of importance, similarity, and the order of the gap lists. */
module ScoreLaws {
  import opened Common
  import opened Sorting
  import opened Scoring

  // ------------------------------------------------------------------ coverage is a share of importance

  ghost function Importances(skills: seq<RequiredSkill>): int {
    if skills == [] then 0 else skills[0].importance + Importances(skills[1..])
  }

  lemma {:induction false} ImportancesSnoc(skills: seq<RequiredSkill>, last: RequiredSkill)
    ensures Importances(skills + [last]) == Importances(skills) + last.importance
  {
    if skills == [] {
      assert [last][1..] == [];
      assert skills + [last] == [last];
    } else {
      ImportancesSnoc(skills[1..], last);
      assert (skills + [last])[1..] == skills[1..] + [last];
    }
  }

  lemma {:induction false} WeightIsImportance(skills: seq<RequiredSkill>)
    ensures Weight(skills) == Importances(skills)
  {
    if skills != [] {
      var n := |skills| - 1;
      WeightIsImportance(skills[..n]);
      ImportancesSnoc(skills[..n], skills[n]);
      assert skills == skills[..n] + [skills[n]];
    }
  }

  lemma Removing(b: seq<RequiredSkill>, k: nat)
    requires k < |b|
    ensures multiset(b) == multiset(b[..k] + b[k + 1..]) + multiset{b[k]}
  {
    assert b == b[..k] + [b[k]] + b[k + 1..];
  }

  lemma SameWithoutOne<T>(a: multiset<T>, b: multiset<T>, x: T)
    requires a + multiset{x} == b + multiset{x}
    ensures a == b
  {
    forall y
      ensures a[y] == b[y]
    {
      assert (a + multiset{x})[y] == (b + multiset{x})[y];
    }
  }

  lemma SameRest(a: seq<RequiredSkill>, b: seq<RequiredSkill>, k: nat)
    requires multiset(a) == multiset(b) && a != [] && k < |b| && b[k] == a[0]
    ensures multiset(a[1..]) == multiset(b[..k] + b[k + 1..])
  {
    Removing(a, 0);
    Removing(b, k);
    assert a[..0] + a[1..] == a[1..];
    SameWithoutOne(multiset(a[1..]), multiset(b[..k] + b[k + 1..]), a[0]);
  }

  /** Permuted lists weigh the same. */
  lemma {:induction false} ImportancesPermute(a: seq<RequiredSkill>, b: seq<RequiredSkill>)
    requires multiset(a) == multiset(b)
    ensures Importances(a) == Importances(b)
    decreases |a|
  {
    if a == [] {
      SamePermutationLength(a, b);
    } else {
      var k := IndexIn(b, a);
      SameRest(a, b, k);
      ImportancesPermute(a[1..], b[..k] + b[k + 1..]);
      ImportancesWithout(b, k);
    }
  }

  lemma {:induction false} ImportancesWithout(b: seq<RequiredSkill>, k: nat)
    requires k < |b|
    ensures Importances(b) == Importances(b[..k] + b[k + 1..]) + b[k].importance
  {
    if k == 0 {
      assert b[..0] + b[1..] == b[1..];
    } else {
      ImportancesWithout(b[1..], k - 1);
      assert (b[..k] + b[k + 1..])[1..] == b[1..][..k - 1] + b[1..][k..];
    }
  }

  /** What the result says about how much of the importance is matched. */
  ghost predicate ShareOf(share: real, matched: seq<RequiredSkill>, required: seq<RequiredSkill>) {
    if Importances(required) == 0 then share == 0.0
    else share * Importances(required) as real == Importances(matched) as real
  }

  lemma CoverageIsAShareOf(held: set<SkillId>, required: seq<RequiredSkill>)
    ensures ShareOf(Coverage(held, required), Select(held, required, true), required)
  {
    var matched := Select(held, required, true);
    WeightIsImportance(required);
    WeightIsImportance(matched);
    hide Weight, Select, Importances;
    if Weight(required) != 0 {
      QuotientTimes(Weight(matched) as real, Weight(required) as real);
    }
  }

  lemma ListsWeigh(held: set<SkillId>, required: seq<RequiredSkill>)
    ensures Importances(Sort(Select(held, required, true), GapOrder)) == Importances(Select(held, required, true))
    ensures Importances(Sort(Select(held, required, true), GapOrder))
              + Importances(Sort(Select(held, required, false), GapOrder)) == Importances(required)
  {
    var matched, missing := Select(held, required, true), Select(held, required, false);
    ImportancesPermute(Sort(matched, GapOrder), matched);
    ImportancesPermute(Sort(missing, GapOrder), missing);
    SelectPartitions(held, required);
    ImportancesPermute(matched + missing, required);
    ImportancesConcat(matched, missing);
    hide Select, Sort, GapOrder, Importances;
  }

  /** Coverage is the importance of what is matched as a share of the importance of all that is required. */
  lemma CoverageIsAShare(held: set<SkillId>, required: seq<RequiredSkill>, similarity: Option<real>,
                         rounding: Rounding)
    ensures ShareOf(Coverage(held, required), ScoreMatch(held, required, similarity, rounding).matched, required)
    ensures Importances(ScoreMatch(held, required, similarity, rounding).matched)
              + Importances(ScoreMatch(held, required, similarity, rounding).missing) == Importances(required)
  {
    CoverageIsAShareOf(held, required);
    ListsWeigh(held, required);
    hide Coverage, Select, Sort, GapOrder, Importances;
  }

  lemma {:induction false} ImportancesConcat(a: seq<RequiredSkill>, b: seq<RequiredSkill>)
    ensures Importances(a + b) == Importances(a) + Importances(b)
  {
    if a == [] {
      assert a + b == b;
    } else {
      ImportancesConcat(a[1..], b);
      assert (a + b)[1..] == a[1..] + b;
    }
  }

  lemma QuotientTimes(a: real, b: real)
    requires b != 0.0
    ensures (a / b) * b == a
  {
  }

  // ------------------------------------------------------------------ the score

  /** A similarity below zero counts as none, one above one as full. */
  function Clamped(x: real): (r: real)
    ensures 0.0 <= r <= 1.0 && (0.0 <= x <= 1.0 ==> r == x) && (x < 0.0 ==> r == 0.0) && (x > 1.0 ==> r == 1.0)
  {
    if x < 0.0 then 0.0 else if 1.0 < x then 1.0 else x
  }

  /** Without a similarity the share alone makes the score, out of 100; with one the share makes 65 and the
      similarity 35. Both parts are reported beside it. */
  lemma ScoreReads(held: set<SkillId>, required: seq<RequiredSkill>, similarity: Option<real>, rounding: Rounding)
      returns (share: real)
    ensures ShareOf(share, ScoreMatch(held, required, similarity, rounding).matched, required)
    ensures var result := ScoreMatch(held, required, similarity, rounding);
            && (similarity.None? ==>
                result.score == rounding.score(100.0 * share) && result.semanticSimilarity == rounding.fraction(0.0))
            && (similarity.Some? ==>
                result.score == rounding.score(65.0 * share + 35.0 * Clamped(similarity.value))
                && result.semanticSimilarity == rounding.fraction(Clamped(similarity.value)))
            && result.skillCoverage == rounding.fraction(share)
  {
    share := Coverage(held, required);
    CoverageIsAShare(held, required, similarity, rounding);
    hide Coverage, Select, Sort, ShareOf;
    if similarity.Some? {
      assert Combined(share, similarity) * 100.0 == 65.0 * share + 35.0 * Clamped(similarity.value);
    }
  }

  const HALF_A := RequiredSkill("a", "A", 3)
  const HALF_B := RequiredSkill("b", "B", 3)

  /** The instance: of two equally important skills one is held. */
  lemma HalfIsFifty(rounding: Rounding)
    requires rounding.score(50.0) == 50.0 && rounding.fraction(0.5) == 0.5
    ensures ScoreMatch({"a"}, [HALF_A, HALF_B], None, rounding).score == 50.0
    ensures ScoreMatch({"a"}, [HALF_A, HALF_B], None, rounding).skillCoverage == 0.5
    ensures ScoreMatch({"a"}, [HALF_A, HALF_B], None, rounding).matched == [HALF_A]
    ensures ScoreMatch({"a"}, [HALF_A, HALF_B], None, rounding).missing == [HALF_B]
  {
    var required := [HALF_A, HALF_B];
    assert required[..1] == [HALF_A] && [HALF_A][..0] == [];
    assert "a" != "b";
    assert Select({"a"}, [HALF_A], true) == [HALF_A] && Select({"a"}, [HALF_A], false) == [];
    assert Select({"a"}, required, true) == [HALF_A] && Select({"a"}, required, false) == [HALF_B];
    assert Weight([]) == 0 && Weight([HALF_A]) == Weight([]) + 3 && Weight(required) == Weight([HALF_A]) + 3;
    assert Coverage({"a"}, required) == 0.5;
  }

  // ------------------------------------------------------------------ the gap lists

  /** The more important first, and of equally important ones the alphabetically first. */
  ghost predicate MostImportantFirst(skills: seq<RequiredSkill>) {
    forall i, j :: 0 <= i < j < |skills| ==>
      || skills[i].importance > skills[j].importance
      || (skills[i].importance == skills[j].importance && NoLater(skills[i].canonicalName, skills[j].canonicalName))
  }

  lemma GapsReadInOrder(skills: seq<RequiredSkill>)
    requires Sorted(skills, GapOrder)
    ensures MostImportantFirst(skills)
  {
    forall i, j | 0 <= i < j < |skills|
      ensures || skills[i].importance > skills[j].importance
              || (skills[i].importance == skills[j].importance
                  && NoLater(skills[i].canonicalName, skills[j].canonicalName))
    {
      assert GapOrder(skills[i], skills[j]);
      TextLeqMeans(skills[i].canonicalName, skills[j].canonicalName);
    }
  }

  /** Every required skill is on one of the two lists, as often as it is required: on the matched one if it
      is held, on the missing one if not. */
  lemma ListsRead(held: set<SkillId>, required: seq<RequiredSkill>, similarity: Option<real>, rounding: Rounding)
    ensures var result := ScoreMatch(held, required, similarity, rounding);
            && MostImportantFirst(result.matched) && MostImportantFirst(result.missing)
            && (forall s :: s in result.matched <==> s in required && s.skillId in held)
            && (forall s :: s in result.missing <==> s in required && s.skillId !in held)
            && multiset(result.matched) + multiset(result.missing) == multiset(required)
  {
    CoverageSplitsTheRequirements(held, required);
    GapsReadInOrder(Sort(Select(held, required, true), GapOrder));
    GapsReadInOrder(Sort(Select(held, required, false), GapOrder));
    hide Sort, Select, GapOrder, MostImportantFirst;
  }

  // ------------------------------------------------------------------ similarity

  /** The sum of the products, coordinate by coordinate. */
  lemma {:induction false} DotIsASum(a: Vector, b: Vector)
    requires |a| == |b| > 0
    ensures Dot(a, b) == Dot(a[..|a| - 1], b[..|b| - 1]) + a[|a| - 1] * b[|b| - 1]
    ensures |a| == 1 ==> Dot(a, b) == a[0] * b[0]
  {
    if |a| > 1 {
      DotIsASum(a[1..], b[1..]);
      assert a[1..][..|a| - 2] == a[..|a| - 1][1..] && b[1..][..|b| - 2] == b[..|b| - 1][1..];
    } else {
      assert a[..0] == [] && b[..0] == [] && a[1..] == [] && b[1..] == [];
      assert Dot([], []) == 0.0;
    }
  }

  /** Cosine similarity times both norms is the sum of the products, unless a vector is zero. */
  lemma CosineTimesNorms(a: Vector, b: Vector, root: real -> real)
    requires IsRoot(root) && |a| == |b|
    ensures var norms := root(Dot(a, a)) * root(Dot(b, b));
            && CosineSimilarity(a, b, root).Some?
            && (Dot(a, a) != 0.0 && Dot(b, b) != 0.0 ==>
                norms > 0.0 && CosineSimilarity(a, b, root).value * norms == Dot(a, b))
            && (Dot(a, a) == 0.0 || Dot(b, b) == 0.0 ==> CosineSimilarity(a, b, root).value == 0.0)
  {
    DotSelfNonNegative(a);
    DotSelfNonNegative(b);
    RootOf(Dot(a, a), root);
    RootOf(Dot(b, b), root);
    RatioTimes(Dot(a, b), root(Dot(a, a)), root(Dot(b, b)));
    hide Dot, IsRoot, Ratio;
  }

  lemma RatioTimes(dot: real, x: real, y: real)
    requires x >= 0.0 && y >= 0.0
    ensures x != 0.0 && y != 0.0 ==> x * y > 0.0 && Ratio(dot, x, y) * (x * y) == dot
    ensures x == 0.0 || y == 0.0 ==> Ratio(dot, x, y) == 0.0
  {
    if x != 0.0 && y != 0.0 {
      PositiveProduct(x, y);
      QuotientTimes(dot, x * y);
    }
  }

  lemma RootOf(x: real, root: real -> real)
    requires IsRoot(root) && x >= 0.0
    ensures root(x) >= 0.0 && (root(x) == 0.0 <==> x == 0.0)
  {
    RatioOfProduct(x, root(x), root(x));
  }
}
