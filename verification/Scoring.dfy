/** Match scoring over real arithmetic: cosine similarity, skill coverage and the combined score. */
module Scoring {
  import opened Common
  import opened Sorting

  type SkillId = string
  type Vector = seq<real>

  // ------------------------------------------------------------------ cosine_similarity

  ghost predicate IsRoot(root: real -> real) {
    forall x: real :: x >= 0.0 ==> root(x) >= 0.0 && root(x) * root(x) == x
  }

  function Dot(a: Vector, b: Vector): real
    requires |a| == |b|
  {
    if a == [] then 0.0 else a[0] * b[0] + Dot(a[1..], b[1..])
  }

  /** None: the vectors differ in dimension. A zero vector is similar to nothing. */
  function CosineSimilarity(a: Vector, b: Vector, root: real -> real): Option<real> {
    if |a| != |b| then None else Some(Ratio(Dot(a, b), root(Dot(a, a)), root(Dot(b, b))))
  }

  function Ratio(dot: real, normA: real, normB: real): real {
    if normA == 0.0 || normB == 0.0 then 0.0 else dot / (normA * normB)
  }

  lemma SquareNonNegative(x: real)
    ensures x * x >= 0.0
  {
  }

  lemma {:induction false} DotSelfNonNegative(a: Vector)
    ensures Dot(a, a) >= 0.0
  {
    if a != [] {
      SquareNonNegative(a[0]);
      DotSelfNonNegative(a[1..]);
    }
  }

  /** The step of Cauchy-Schwarz: one more coordinate. */
  lemma OneMoreCoordinate(x: real, y: real, d: real, p: real, q: real)
    requires p >= 0.0 && q >= 0.0 && d * d <= p * q
    ensures (x * y + d) * (x * y + d) <= (x * x + p) * (y * y + q)
  {
    var u, v := p * (y * y), q * (x * x);
    CrossTerm(x, y, d, p, q);
    assert (x * y + d) * (x * y + d) == (x * y) * (x * y) + 2.0 * ((x * y) * d) + d * d;
    assert (x * x + p) * (y * y + q) == (x * y) * (x * y) + v + u + p * q by {
      assert (x * x) * (y * y) == (x * y) * (x * y);
    }
  }

  /** 2xyd is at most py² + qx², since its square is at most the square of that sum. */
  lemma CrossTerm(x: real, y: real, d: real, p: real, q: real)
    requires p >= 0.0 && q >= 0.0 && d * d <= p * q
    ensures 2.0 * ((x * y) * d) <= p * (y * y) + q * (x * x)
  {
    var u, v, t := p * (y * y), q * (x * x), (x * y) * d;
    SquareNonNegative(x);
    SquareNonNegative(y);
    ProductNonNegative(p, y * y);
    ProductNonNegative(q, x * x);
    var w := (x * y) * (x * y);
    SquareNonNegative(x * y);
    assert t * t == w * (d * d) by {
      FourFactors(x * y, d);
    }
    ScaleLeq(w, d * d, p * q);
    assert u * v == w * (p * q) by {
      Regroup(p, q, x, y);
    }
    SquareNonNegative(u - v);
    assert (u + v) * (u + v) == (u - v) * (u - v) + 4.0 * (u * v);
    assert (2.0 * t) * (2.0 * t) == 4.0 * (t * t);
    LessBySquares(2.0 * t, u + v);
  }

  lemma FourFactors(s: real, d: real)
    ensures (s * d) * (s * d) == (s * s) * (d * d)
  {
    assert (s * d) * (s * d) == s * (d * (s * d));
    assert d * (s * d) == s * (d * d);
  }

  lemma Regroup(p: real, q: real, x: real, y: real)
    ensures (p * (y * y)) * (q * (x * x)) == ((x * y) * (x * y)) * (p * q)
  {
    FourFactors(x, y);
    var a, b := x * x, y * y;
    assert (p * b) * (q * a) == (p * q) * (b * a) by {
      assert (p * b) * (q * a) == p * (b * (q * a));
      assert b * (q * a) == q * (b * a);
    }
  }

  lemma ProductNonNegative(a: real, b: real)
    requires a >= 0.0 && b >= 0.0
    ensures a * b >= 0.0
  {
  }

  lemma ScaleLeq(w: real, a: real, b: real)
    requires w >= 0.0 && a <= b
    ensures w * a <= w * b
  {
    ProductNonNegative(w, b - a);
    assert w * (b - a) == w * b - w * a;
  }

  lemma PositiveProduct(a: real, b: real)
    requires a > 0.0 && b > 0.0
    ensures a * b > 0.0
  {
  }

  lemma SquareStrict(a: real, b: real)
    requires 0.0 <= a < b
    ensures a * a < b * b
  {
    PositiveProduct(b - a, b + a);
    assert (b - a) * (b + a) == b * b - a * a;
  }

  lemma LessBySquares(a: real, b: real)
    requires b >= 0.0 && a * a <= b * b
    ensures -b <= a <= b
  {
    if a > b {
      SquareStrict(b, a);
    } else if a < -b {
      SquareStrict(b, -a);
    }
  }

  lemma ScaleIff(n: real, a: real, b: real)
    requires n > 0.0
    ensures a < b <==> a * n < b * n
  {
    if a < b {
      PositiveProduct(b - a, n);
      assert (b - a) * n == b * n - a * n;
    } else if b < a {
      PositiveProduct(a - b, n);
      assert (a - b) * n == a * n - b * n;
    }
  }

  lemma {:induction false} CauchySchwarz(a: Vector, b: Vector)
    requires |a| == |b|
    ensures Dot(a, b) * Dot(a, b) <= Dot(a, a) * Dot(b, b)
  {
    if a != [] {
      CauchySchwarz(a[1..], b[1..]);
      DotSelfNonNegative(a[1..]);
      DotSelfNonNegative(b[1..]);
      var d, p, q := Dot(a[1..], b[1..]), Dot(a[1..], a[1..]), Dot(b[1..], b[1..]);
      OneMoreTerm(a[0], b[0], d, p, q, Dot(a, b), Dot(a, a), Dot(b, b));
    }
  }

  lemma OneMoreTerm(x: real, y: real, d: real, p: real, q: real, dot: real, normA: real, normB: real)
    requires p >= 0.0 && q >= 0.0 && d * d <= p * q
    requires dot == x * y + d && normA == x * x + p && normB == y * y + q
    ensures dot * dot <= normA * normB
  {
    OneMoreCoordinate(x, y, d, p, q);
  }

  lemma CosineIsBounded(a: Vector, b: Vector, root: real -> real)
    requires IsRoot(root) && |a| == |b|
    ensures CosineSimilarity(a, b, root).Some?
    ensures -1.0 <= CosineSimilarity(a, b, root).value <= 1.0
  {
    hide Ratio;
    DotSelfNonNegative(a);
    DotSelfNonNegative(b);
    CauchySchwarz(a, b);
    RatioBound(Dot(a, b), Dot(a, a), Dot(b, b), root(Dot(a, a)), root(Dot(b, b)));
  }

  lemma RatioBound(dot: real, p: real, q: real, normA: real, normB: real)
    requires normA >= 0.0 && normB >= 0.0 && normA * normA == p && normB * normB == q
    requires dot * dot <= p * q
    ensures -1.0 <= Ratio(dot, normA, normB) <= 1.0
  {
    if normA != 0.0 && normB != 0.0 {
      NormBound(dot, p, q, normA, normB);
      QuotientBound(dot, normA * normB);
    }
  }

  lemma NormBound(dot: real, p: real, q: real, normA: real, normB: real)
    requires normA > 0.0 && normB > 0.0 && normA * normA == p && normB * normB == q
    requires dot * dot <= p * q
    ensures normA * normB > 0.0
    ensures -(normA * normB) <= dot <= normA * normB
  {
    PositiveProduct(normA, normB);
    FourFactors(normA, normB);
    LessBySquares(dot, normA * normB);
  }

  lemma QuotientBound(x: real, n: real)
    requires n > 0.0 && -n <= x <= n
    ensures -1.0 <= x / n <= 1.0
  {
    var r := x / n;
    assert r * n == x;
    ScaleIff(n, 1.0, r);
    ScaleIff(n, r, -1.0);
  }

  lemma QuotientOne(x: real, n: real)
    requires n != 0.0 && x == n
    ensures x / n == 1.0
  {
  }

  lemma RatioOfProduct(p: real, normA: real, normB: real)
    requires normA >= 0.0 && normB >= 0.0 && normA * normB == p
    ensures Ratio(p, normA, normB) == if normA == 0.0 || normB == 0.0 then 0.0 else 1.0
    ensures p == 0.0 <==> normA == 0.0 || normB == 0.0
  {
    if normA != 0.0 && normB != 0.0 {
      PositiveProduct(normA, normB);
      QuotientOne(p, normA * normB);
    }
  }

  lemma CosineWithItself(a: Vector, root: real -> real)
    requires IsRoot(root)
    ensures CosineSimilarity(a, a, root) == Some(if Dot(a, a) == 0.0 then 0.0 else 1.0)
  {
    hide Ratio;
    DotSelfNonNegative(a);
    RatioOfProduct(Dot(a, a), root(Dot(a, a)), root(Dot(a, a)));
  }

  // ------------------------------------------------------------------ compute_skill_coverage

  datatype RequiredSkill = RequiredSkill(skillId: SkillId, canonicalName: string, importance: int)

  predicate GapOrder(a: RequiredSkill, b: RequiredSkill) {
    if a.importance != b.importance then a.importance > b.importance else TextLeq(a.canonicalName, b.canonicalName)
  }

  lemma GapOrderIsTotal()
    ensures TotalPreorder(GapOrder)
  {
    TextOrder();
  }

  /** The required skills that are in `held`, or those that are not, in the order required. */
  function Select(held: set<SkillId>, required: seq<RequiredSkill>, want: bool): (r: seq<RequiredSkill>)
    ensures forall s :: s in r <==> s in required && (s.skillId in held) == want
  {
    if required == [] then []
    else
      var n := |required| - 1;
      Select(held, required[..n], want) + (if (required[n].skillId in held) == want then [required[n]] else [])
  }

  function Weight(skills: seq<RequiredSkill>): int {
    if skills == [] then 0 else Weight(skills[..|skills| - 1]) + skills[|skills| - 1].importance
  }

  function Coverage(held: set<SkillId>, required: seq<RequiredSkill>): real {
    var total := Weight(required);
    if total != 0 then Weight(Select(held, required, true)) as real / total as real else 0.0
  }

  lemma SelectNext(held: set<SkillId>, required: seq<RequiredSkill>, i: nat)
    requires i < |required|
    ensures Weight(required[..i + 1]) == Weight(required[..i]) + required[i].importance
    ensures forall want :: Select(held, required[..i + 1], want)
                           == Select(held, required[..i], want)
                             + (if (required[i].skillId in held) == want then [required[i]] else [])
    ensures Weight(Select(held, required[..i], true) + [required[i]])
            == Weight(Select(held, required[..i], true)) + required[i].importance
  {
    assert required[..i + 1][..i] == required[..i];
    var matched := Select(held, required[..i], true);
    assert (matched + [required[i]])[..|matched|] == matched;
  }

  method ComputeSkillCoverage(held: set<SkillId>, required: seq<RequiredSkill>)
      returns (coverage: real, matched: seq<RequiredSkill>, missing: seq<RequiredSkill>)
    ensures coverage == Coverage(held, required)
    ensures matched == Sort(Select(held, required, true), GapOrder)
    ensures missing == Sort(Select(held, required, false), GapOrder)
  {
    if required == [] {
      return 0.0, [], [];
    }
    matched, missing := [], [];
    var totalWeight, matchedWeight := 0, 0;
    hide Select, Weight;
    for i := 0 to |required|
      invariant matched == Select(held, required[..i], true) && missing == Select(held, required[..i], false)
      invariant totalWeight == Weight(required[..i]) && matchedWeight == Weight(matched)
    {
      var gap := required[i];
      SelectNext(held, required, i);
      if gap.skillId in held {
        matched := matched + [gap];
        matchedWeight := matchedWeight + gap.importance;
      } else {
        missing := missing + [gap];
      }
      totalWeight := totalWeight + gap.importance;
    }
    assert required[..|required|] == required;
    coverage := if totalWeight != 0 then matchedWeight as real / totalWeight as real else 0.0;
    missing := Sort(missing, GapOrder);
    matched := Sort(matched, GapOrder);
  }

  lemma {:induction false} SelectPartitions(held: set<SkillId>, required: seq<RequiredSkill>)
    ensures multiset(Select(held, required, true)) + multiset(Select(held, required, false)) == multiset(required)
  {
    if required != [] {
      var n := |required| - 1;
      SelectPartitions(held, required[..n]);
      assert required == required[..n] + [required[n]];
    }
  }

  /** Matched and missing split the required list, nothing lost or doubled, each sorted by importance
      and then name. */
  lemma CoverageSplitsTheRequirements(held: set<SkillId>, required: seq<RequiredSkill>)
    ensures var matched := Sort(Select(held, required, true), GapOrder);
            var missing := Sort(Select(held, required, false), GapOrder);
            && multiset(matched) + multiset(missing) == multiset(required)
            && Sorted(matched, GapOrder) && Sorted(missing, GapOrder)
            && (forall s :: s in matched <==> s in required && s.skillId in held)
            && (forall s :: s in missing <==> s in required && s.skillId !in held)
  {
    SelectPartitions(held, required);
    GapOrderIsTotal();
    SortSorts(Select(held, required, true), GapOrder);
    SortSorts(Select(held, required, false), GapOrder);
    SortMembers(Select(held, required, true), GapOrder);
    SortMembers(Select(held, required, false), GapOrder);
  }

  /** Importances are 1 to 5 in the database; here only their sign matters. */
  ghost predicate Weighted(required: seq<RequiredSkill>) {
    forall s :: s in required ==> s.importance >= 0
  }

  lemma {:induction false} MatchedWeight(held: set<SkillId>, held': set<SkillId>, required: seq<RequiredSkill>)
    requires Weighted(required) && held <= held'
    ensures 0 <= Weight(Select(held, required, true)) <= Weight(Select(held', required, true)) <= Weight(required)
  {
    if required != [] {
      var n := |required| - 1;
      assert required[n] in required && forall s :: s in required[..n] ==> s in required;
      MatchedWeight(held, held', required[..n]);
      SelectWeight(held, required);
      SelectWeight(held', required);
    }
  }

  lemma SelectWeight(held: set<SkillId>, required: seq<RequiredSkill>)
    requires required != []
    ensures var n := |required| - 1;
            Weight(Select(held, required, true))
            == Weight(Select(held, required[..n], true))
              + (if required[n].skillId in held then required[n].importance else 0)
  {
    var n := |required| - 1;
    var before := Select(held, required[..n], true);
    assert (before + [required[n]])[..|before|] == before;
    assert before + [] == before;
  }

  lemma CoverageGrows(held: set<SkillId>, held': set<SkillId>, required: seq<RequiredSkill>)
    requires Weighted(required) && held <= held'
    ensures 0.0 <= Coverage(held, required) <= Coverage(held', required) <= 1.0
  {
    MatchedWeight(held, held', required);
    var total := Weight(required);
    if total != 0 {
      var t := total as real;
      QuotientMonotone(0.0, Weight(Select(held, required, true)) as real, t);
      QuotientMonotone(Weight(Select(held, required, true)) as real, Weight(Select(held', required, true)) as real, t);
      QuotientMonotone(Weight(Select(held', required, true)) as real, t, t);
    }
  }

  lemma QuotientMonotone(a: real, b: real, t: real)
    requires t > 0.0 && a <= b
    ensures a / t <= b / t
    ensures 0.0 / t == 0.0 && t / t == 1.0
  {
    var x, y := a / t, b / t;
    assert x * t == a && y * t == b;
    ScaleIff(t, y, x);
  }

  // ------------------------------------------------------------------ score_match

  const SKILL_WEIGHT := 0.65
  const SEMANTIC_WEIGHT := 0.35

  /** Python's round to one and to four places: monotone, and exact at the ends of the scales. */
  datatype Rounding = Rounding(score: real -> real, fraction: real -> real) {
    ghost predicate Valid() {
      && (forall x, y :: x <= y ==> score(x) <= score(y)) && score(0.0) == 0.0 && score(100.0) == 100.0
      && (forall x, y :: x <= y ==> fraction(x) <= fraction(y)) && fraction(0.0) == 0.0 && fraction(1.0) == 1.0
    }
  }

  datatype MatchResult = MatchResult(score: real, skillCoverage: real, semanticSimilarity: real,
                                     matched: seq<RequiredSkill>, missing: seq<RequiredSkill>)

  function Clamp(x: real): real {
    if x < 0.0 then 0.0 else if x > 1.0 then 1.0 else x
  }

  function Combined(coverage: real, similarity: Option<real>): real {
    if similarity.None? then coverage else SKILL_WEIGHT * coverage + SEMANTIC_WEIGHT * Clamp(similarity.value)
  }

  function ScoreMatch(held: set<SkillId>, required: seq<RequiredSkill>, similarity: Option<real>,
                      rounding: Rounding): MatchResult {
    var coverage := Coverage(held, required);
    MatchResult(
      rounding.score(Combined(coverage, similarity) * 100.0),
      rounding.fraction(coverage),
      rounding.fraction(if similarity.None? then 0.0 else Clamp(similarity.value)),
      Sort(Select(held, required, true), GapOrder),
      Sort(Select(held, required, false), GapOrder))
  }

  /** Scores stay on their scales, and gaining skills never lowers one. */
  lemma GainingSkillsNeverLowersTheScore(held: set<SkillId>, held': set<SkillId>, required: seq<RequiredSkill>,
                                         similarity: Option<real>, rounding: Rounding)
    requires Weighted(required) && held <= held' && rounding.Valid()
    ensures 0.0 <= ScoreMatch(held, required, similarity, rounding).score
                <= ScoreMatch(held', required, similarity, rounding).score <= 100.0
    ensures 0.0 <= ScoreMatch(held, required, similarity, rounding).skillCoverage
                <= ScoreMatch(held', required, similarity, rounding).skillCoverage <= 1.0
    ensures 0.0 <= ScoreMatch(held, required, similarity, rounding).semanticSimilarity <= 1.0
  {
    CoverageGrows(held, held', required);
    var c, c' := Coverage(held, required), Coverage(held', required);
    assert 0.0 <= Combined(c, similarity) * 100.0 <= Combined(c', similarity) * 100.0 <= 100.0;
    assert rounding.score(0.0) <= rounding.score(Combined(c, similarity) * 100.0)
           <= rounding.score(Combined(c', similarity) * 100.0) <= rounding.score(100.0);
    assert rounding.fraction(0.0) <= rounding.fraction(c) <= rounding.fraction(c') <= rounding.fraction(1.0);
  }

  lemma {:induction false} AllWeightHeld(held: set<SkillId>, required: seq<RequiredSkill>)
    requires forall i :: 0 <= i < |required| ==> required[i].skillId in held
    ensures Weight(Select(held, required, true)) == Weight(required)
  {
    if required != [] {
      AllWeightHeld(held, required[..|required| - 1]);
      SelectWeight(held, required);
      hide Select;
    }
  }

  lemma SelectNone(held: set<SkillId>, required: seq<RequiredSkill>, want: bool)
    requires forall i :: 0 <= i < |required| ==> (required[i].skillId in held) != want
    ensures Select(held, required, want) == []
  {
    FirstIsMember(Select(held, required, want));
  }

  lemma FirstIsMember<T>(s: seq<T>)
    ensures s == [] || s[0] in s
  {
  }

  /** One end of the scale: with every skill held, and full resemblance if there is any, nothing is missing
      and the score is 100, unless the requirements weigh nothing: then there is no coverage, and
      resemblance earns its 35 percent and no more. */
  lemma FullScore(held: set<SkillId>, required: seq<RequiredSkill>, similarity: Option<real>, rounding: Rounding)
    requires rounding.Valid()
    requires forall i :: 0 <= i < |required| ==> required[i].skillId in held
    requires similarity.None? || similarity.value >= 1.0
    ensures ScoreMatch(held, required, similarity, rounding).score
            == if Weight(required) != 0 then 100.0 else if similarity.None? then 0.0 else rounding.score(35.0)
    ensures ScoreMatch(held, required, similarity, rounding).missing == []
  {
    hide Coverage, Select, Weight, GapOrder;
    SelectNone(held, required, false);
    FullCoverage(held, required);
    assert Combined(1.0, similarity) == 1.0;
    assert similarity.Some? ==> Combined(0.0, similarity) * 100.0 == 35.0;
  }

  /** The instance: a job with no recognised skills, and a candidate whose resume matches it fully. */
  lemma ResemblanceDoesNotCarryTheScore(held: set<SkillId>, rounding: Rounding)
    requires rounding.Valid() && rounding.score(35.0) == 35.0
    ensures ScoreMatch(held, [], Some(1.0), rounding).score == 35.0
  {
    FullScore(held, [], Some(1.0), rounding);
    hide ScoreMatch;
    assert Weight([]) == 0;
  }

  lemma FullCoverage(held: set<SkillId>, required: seq<RequiredSkill>)
    requires forall i :: 0 <= i < |required| ==> required[i].skillId in held
    ensures Coverage(held, required) == if Weight(required) != 0 then 1.0 else 0.0
  {
    AllWeightHeld(held, required);
    hide Select, Weight;
    if Weight(required) != 0 {
      QuotientOne(Weight(required) as real, Weight(required) as real);
    }
  }

  /** The other end: with no skill held nothing is matched, and resemblance alone earns its 35 percent. */
  lemma ScoreWithoutSkills(held: set<SkillId>, required: seq<RequiredSkill>, similarity: Option<real>,
                           rounding: Rounding)
    requires rounding.Valid()
    requires forall i :: 0 <= i < |required| ==> required[i].skillId !in held
    ensures ScoreMatch(held, required, similarity, rounding).matched == []
    ensures ScoreMatch(held, required, similarity, rounding).score
            == if similarity.None? then 0.0 else rounding.score(35.0 * Clamp(similarity.value))
  {
    hide Coverage, Select, Weight, GapOrder;
    SelectNone(held, required, true);
    NoCoverage(held, required);
    if similarity.Some? {
      assert Combined(0.0, similarity) * 100.0 == 35.0 * Clamp(similarity.value);
    }
  }

  lemma NoCoverage(held: set<SkillId>, required: seq<RequiredSkill>)
    requires Select(held, required, true) == []
    ensures Coverage(held, required) == 0.0
  {
    if Weight(required) != 0 {
      ZeroQuotient(Weight(required) as real);
    }
  }

  lemma ZeroQuotient(t: real)
    requires t != 0.0
    ensures 0.0 / t == 0.0
  {
  }

  /** More resemblance never lowers the score, and a similarity below zero counts as none. */
  lemma SimilarityCorroborates(held: set<SkillId>, required: seq<RequiredSkill>, a: real, b: real, rounding: Rounding)
    requires Weighted(required) && rounding.Valid() && a <= b
    ensures ScoreMatch(held, required, Some(a), rounding).score <= ScoreMatch(held, required, Some(b), rounding).score
    ensures a <= 0.0 ==>
              ScoreMatch(held, required, Some(a), rounding).score == rounding.score(65.0 * Coverage(held, required))
  {
    var c := Coverage(held, required);
    assert Combined(c, Some(a)) * 100.0 <= Combined(c, Some(b)) * 100.0;
    assert a <= 0.0 ==> Combined(c, Some(a)) * 100.0 == 65.0 * c;
  }
}
