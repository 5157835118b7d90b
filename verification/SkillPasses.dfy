/** When the two passes of the matcher stay out of each other's way. */
module SkillPasses {
  import opened Common
  import opened Sorting
  import opened Text
  import opened SkillMatching
  import opened SkillMatcher
  import opened SkillMatcherLaws

  // ------------------------------------------------------------------ terms that collide

  /** Some character that matches `c` with case ignored is no word character of the exact-case pass. */
  ghost predicate HasNonWord(casing: Case, c: char) {
    exists variant :: Canon(casing, variant) == Canon(casing, c) && !IsWordChar(variant)
  }

  /** `t` can stand `d` characters after the start of `u`: where they overlap they agree but for case, and
      neither one's end is inside a word of the other. */
  ghost predicate Aligns(casing: Case, u: string, t: string, d: int) {
    && -|t| < d < |u|
    && (forall i :: 0 <= i < |u| && 0 <= i - d < |t| ==> Canon(casing, u[i]) == Canon(casing, t[i - d]))
    && (d > 0 ==> HasNonWord(casing, u[d - 1]))
    && (d < 0 ==> !InWord(casing, t[-d - 1]))
    && (d + |t| < |u| ==> HasNonWord(casing, u[d + |t|]))
    && (|u| < d + |t| ==> !InWord(casing, t[|u| - d]))
  }

  /** One of the finitely many alignments fits. */
  ghost predicate Collide(casing: Case, u: string, t: string) {
    exists d :: -|t| < d < |u| && Aligns(casing, u, t, d)
  }

  predicate Overlap(a: Span, b: Span) {
    a.start < b.end && b.start < a.end
  }

  /** The characters of `term` stand at `start`, but for case if it is ignored. */
  ghost predicate Spells(mode: Case, text: string, term: string, start: nat) {
    && start + |term| <= |text|
    && forall i :: 0 <= i < |term| ==> Canon(mode, text[start + i]) == Canon(mode, term[i])
  }

  lemma OccurrenceSpells(mode: Case, text: string, term: string, start: nat)
    requires OccursAt(mode, text, term, start)
    ensures Spells(mode, text, term, start)
  {
    hide Canon, Guarded;
    var part := text[start..start + |term|];
    forall i | 0 <= i < |term|
      ensures Canon(mode, text[start + i]) == Canon(mode, term[i])
    {
      assert Fold(mode, part)[i] == Fold(mode, term)[i];
      assert part[i] == text[start + i];
    }
  }

  lemma SpeltOccurs(mode: Case, text: string, term: string, start: nat)
    requires Spells(mode, text, term, start) && Guarded(mode, text, start, start + |term|)
    ensures OccursAt(mode, text, term, start)
  {
    hide Guarded, Canon;
    assert Fold(mode, text[start..start + |term|]) == Fold(mode, term);
  }

  lemma SpeltExactly(text: string, term: string, start: nat)
    requires Spells(Exact, text, term, start)
    ensures start + |term| <= |text| && forall i :: 0 <= i < |term| ==> text[start + i] == term[i]
  {
    assert forall c :: Canon(Exact, c) == c;
    hide Canon;
  }

  /** Overlapping occurrences in some text are one of the alignments. */
  lemma OverlapAligns(casing: Case, text: string, u: string, p: nat, t: string, q: nat)
    requires OccursAt(casing, text, u, p) && OccursAt(Exact, text, t, q)
    requires p < q + |t| && q < p + |u|
    ensures Aligns(casing, u, t, q - p)
  {
    OccurrenceSpells(casing, text, u, p);
    OccurrenceSpells(Exact, text, t, q);
    SpeltExactly(text, t, q);
    SensitiveLeavesRoom(casing, text, u, p, t, q);
    InsensitiveLeavesRoom(casing, text, u, p, t, q);
    hide Canon, OccursAt, HasNonWord, InWord;
    var d := q - p;
    forall i | 0 <= i < |u| && 0 <= i - d < |t|
      ensures Canon(casing, u[i]) == Canon(casing, t[i - d])
    {
      assert text[p + i] == text[q + (i - d)];
    }
  }

  lemma SensitiveLeavesRoom(casing: Case, text: string, u: string, p: nat, t: string, q: nat)
    requires Spells(casing, text, u, p) && OccursAt(Exact, text, t, q)
    requires p < q + |t| && q < p + |u|
    ensures p < q ==> HasNonWord(casing, u[q - p - 1])
    ensures q + |t| < p + |u| ==> HasNonWord(casing, u[q - p + |t|])
  {
    hide Canon, Fold, IsWordChar;
    if p < q {
      assert text[q - 1] == text[p + (q - p - 1)];
      assert !IsWordChar(text[q - 1]);
    }
    if q + |t| < p + |u| {
      assert text[q + |t|] == text[p + (q - p + |t|)];
      assert !IsWordChar(text[q + |t|]);
    }
  }

  lemma InsensitiveLeavesRoom(casing: Case, text: string, u: string, p: nat, t: string, q: nat)
    requires OccursAt(casing, text, u, p) && Spells(Exact, text, t, q)
    requires p < q + |t| && q < p + |u|
    ensures q < p ==> !InWord(casing, t[p - q - 1])
    ensures p + |u| < q + |t| ==> !InWord(casing, t[p - q + |u|])
  {
    SpeltExactly(text, t, q);
    hide Canon, Fold, InWord, Spells;
    if q < p {
      assert text[p - 1] == text[q + (p - q - 1)];
    }
    if p + |u| < q + |t| {
      assert text[p + |u|] == text[q + (p - q + |u|)];
    }
  }

  // ------------------------------------------------------------------ a text in which they do

  /** Where `u` starts in the shortest text that holds both. */
  function StartOf(d: int): nat {
    if d < 0 then -d else 0
  }

  /** `c` in a form that is no word character, if it has one. */
  ghost function NonWord(casing: Case, c: char): (variant: char)
    ensures Canon(casing, variant) == Canon(casing, c)
    ensures HasNonWord(casing, c) ==> !IsWordChar(variant)
  {
    if HasNonWord(casing, c) then
      var variant :| Canon(casing, variant) == Canon(casing, c) && !IsWordChar(variant);
      variant
    else c
  }

  ghost function Together(casing: Case, u: string, t: string, d: int): (text: string)
    requires -|t| < d < |u|
    ensures |text| == StartOf(d) + (if |u| > d + |t| then |u| else d + |t|)
    ensures forall i :: 0 <= i < |text| && StartOf(d) + d <= i < StartOf(d) + d + |t| ==>
              text[i] == t[i - StartOf(d) - d]
    ensures forall i :: 0 <= i < |text| && !(StartOf(d) + d <= i < StartOf(d) + d + |t|) ==>
              text[i] == NonWord(casing, u[i - StartOf(d)])
  {
    var p, q := StartOf(d), StartOf(d) + d;
    var length := if p + |u| > q + |t| then p + |u| else q + |t|;
    seq(length, i requires 0 <= i < length => if q <= i < q + |t| then t[i - q] else NonWord(casing, u[i - p]))
  }

  lemma SensitiveStands(casing: Case, u: string, t: string, d: int)
    requires -|t| < d < |u|
    ensures Spells(Exact, Together(casing, u, t, d), t, StartOf(d) + d)
  {
    hide Together, Canon;
    var text, q := Together(casing, u, t, d), StartOf(d) + d;
    assert forall i :: 0 <= i < |t| ==> text[q + i] == t[i];
  }

  lemma InsensitiveStands(casing: Case, u: string, t: string, d: int)
    requires Aligns(casing, u, t, d)
    ensures Spells(casing, Together(casing, u, t, d), u, StartOf(d))
  {
    hide Together, Canon, NonWord, HasNonWord, InWord;
    var text, p := Together(casing, u, t, d), StartOf(d);
    forall i | 0 <= i < |u|
      ensures Canon(casing, text[p + i]) == Canon(casing, u[i])
    {
      assert if d <= i < d + |t| then text[p + i] == t[i - d] else text[p + i] == NonWord(casing, u[i]);
    }
  }

  lemma InsensitiveIsGuarded(casing: Case, u: string, t: string, d: int)
    requires Aligns(casing, u, t, d)
    ensures StartOf(d) + |u| <= |Together(casing, u, t, d)|
    ensures Guarded(casing, Together(casing, u, t, d), StartOf(d), StartOf(d) + |u|)
  {
    hide Together, Canon, NonWord, HasNonWord, InWord;
    var text, p, q := Together(casing, u, t, d), StartOf(d), StartOf(d) + d;
    if d < 0 {
      assert text[p - 1] == t[-d - 1];
    }
    if p + |u| < |text| {
      assert text[p + |u|] == t[|u| - d];
    }
  }

  lemma SensitiveIsGuarded(casing: Case, u: string, t: string, d: int)
    requires Aligns(casing, u, t, d)
    ensures StartOf(d) + d + |t| <= |Together(casing, u, t, d)|
    ensures Guarded(Exact, Together(casing, u, t, d), StartOf(d) + d, StartOf(d) + d + |t|)
  {
    hide Together, Canon, NonWord, HasNonWord, IsWordChar;
    var text, p, q := Together(casing, u, t, d), StartOf(d), StartOf(d) + d;
    if d > 0 {
      assert text[q - 1] == NonWord(casing, u[d - 1]);
    }
    if q + |t| < |text| {
      assert text[q + |t|] == NonWord(casing, u[d + |t|]);
    }
  }

  lemma AlignedOccur(casing: Case, u: string, t: string, d: int)
    requires Aligns(casing, u, t, d)
    ensures OccursAt(casing, Together(casing, u, t, d), u, StartOf(d))
    ensures OccursAt(Exact, Together(casing, u, t, d), t, StartOf(d) + d)
  {
    hide *;
    InsensitiveIsGuarded(casing, u, t, d);
    SensitiveIsGuarded(casing, u, t, d);
    AlignmentIsClose(casing, u, t, d);
    InsensitiveStands(casing, u, t, d);
    SensitiveStands(casing, u, t, d);
    SpeltOccurs(casing, Together(casing, u, t, d), u, StartOf(d));
    SpeltOccurs(Exact, Together(casing, u, t, d), t, StartOf(d) + d);
  }

  lemma AlignmentIsClose(casing: Case, u: string, t: string, d: int)
    requires Aligns(casing, u, t, d)
    ensures -|t| < d < |u| && StartOf(d) + d >= 0
  {
  }

  /** The span of a scan over the start of an occurrence; at the start of the text it is no shorter. */
  lemma CoveringSpan(mode: Case, text: string, terms: set<string>, spans: seq<Span>, term: string, start: nat)
      returns (i: nat)
    requires IsScan(mode, text, terms, spans)
    requires term in terms && start < |text| && OccursAt(mode, text, term, start)
    ensures i < |spans| && spans[i].start <= start < spans[i].end
    ensures start == 0 ==> |term| <= spans[i].end
  {
    hide OccursAt, IsHit;
    assert Covered(spans, start);
    i :| 0 <= i < |spans| && spans[i].start <= start < spans[i].end;
    assert IsLongest(mode, text, terms, spans[i]);
  }

  /** The earlier occurrence makes its pass report a span from the start of the text that reaches the
      later one, which the other pass has to cover as well. */
  lemma TogetherOverlaps(casing: Case, us: set<string>, ts: set<string>, u: string, t: string, d: int,
                         text: string, spans: seq<Span>, spans': seq<Span>)
    requires u in us && t in ts && Aligns(casing, u, t, d) && text == Together(casing, u, t, d)
    requires IsScan(casing, text, us, spans) && IsScan(Exact, text, ts, spans')
    ensures Overlapping(spans, spans')
  {
    hide *;
    AlignmentIsClose(casing, u, t, d);
    AlignedOccur(casing, u, t, d);
    OccursInside(casing, text, u, StartOf(d));
    OccursInside(Exact, text, t, StartOf(d) + d);
    var i := CoveringSpan(casing, text, us, spans, u, StartOf(d));
    var j := CoveringSpan(Exact, text, ts, spans', t, StartOf(d) + d);
    SpansMeet(u, t, d, spans, spans', i, j);
  }

  lemma SpansMeet(u: string, t: string, d: int, spans: seq<Span>, spans': seq<Span>, i: nat, j: nat)
    requires -|t| < d < |u| && i < |spans| && j < |spans'|
    requires spans[i].start <= StartOf(d) < spans[i].end && spans'[j].start <= StartOf(d) + d < spans'[j].end
    requires StartOf(d) == 0 ==> |u| <= spans[i].end
    requires StartOf(d) + d == 0 ==> |t| <= spans'[j].end
    ensures Overlapping(spans, spans')
  {
    assert Overlap(spans[i], spans'[j]);
  }

  ghost predicate Overlapping(spans: seq<Span>, spans': seq<Span>) {
    exists i, j :: 0 <= i < |spans| && 0 <= j < |spans'| && Overlap(spans[i], spans'[j])
  }

  // ------------------------------------------------------------------ every text has its scans

  ghost predicate LongestHere(mode: Case, text: string, terms: set<string>, start: nat, end: nat) {
    start < end && IsHit(mode, text, terms, Span(start, end))
      && IsLongest(mode, text, terms, Span(start, end))
  }

  lemma {:induction false} LongestExists(mode: Case, text: string, terms: set<string>, start: nat)
      returns (end: Option<nat>)
    requires "" !in terms
    ensures end.None? ==> forall t :: t in terms ==> !OccursAt(mode, text, t, start)
    ensures end.Some? ==> LongestHere(mode, text, terms, start, end.value)
  {
    hide OccursAt;
    end := None;
    if terms != {} {
      var t :| t in terms;
      end := LongestExists(mode, text, terms - {t}, start);
      if OccursAt(mode, text, t, start) && (end.None? || end.value < start + |t|) {
        OccursInside(mode, text, t, start);
        end := Some(start + |t|);
      }
    }
  }

  lemma OccursInside(mode: Case, text: string, t: string, start: nat)
    requires OccursAt(mode, text, t, start)
    ensures start + |t| <= |text|
  {
  }

  lemma ScanExists(mode: Case, text: string, terms: set<string>) returns (spans: seq<Span>)
    requires "" !in terms
    ensures IsScan(mode, text, terms, spans)
  {
    hide OccursAt, IsHit, IsLongest;
    spans := [];
    var at := 0;
    while at < |text|
      invariant at <= |text|
      invariant forall i :: 0 <= i < |spans| ==> spans[i].end <= at
      invariant IsScanUpTo(mode, text, terms, spans, at)
      decreases |text| - at
    {
      var end := LongestExists(mode, text, terms, at);
      if end.Some? {
        HitIsNotEmpty(mode, text, terms, Span(at, end.value));
        ScanTakes(mode, text, terms, spans, at, Span(at, end.value));
        spans := spans + [Span(at, end.value)];
        at := end.value;
      } else {
        ScanSkips(mode, text, terms, spans, at);
        at := at + 1;
      }
    }
  }

  // ------------------------------------------------------------------ vocabularies

  /** A term of one pass collides with a term of the other. */
  ghost predicate HasCollision(casing: Case, vocabulary: seq<VocabularyEntry>) {
    exists u, t :: IsTermOf(vocabulary, casing, u) && IsTermOf(vocabulary, Exact, t) && Collide(casing, u, t)
  }

  /** In some text the two passes report spans that overlap. */
  ghost predicate PassesOverlap(casing: Case, vocabulary: seq<VocabularyEntry>) {
    exists text, spans, spans' ::
      Scans(vocabulary, casing, text, spans) && Scans(vocabulary, Exact, text, spans') && Overlapping(spans, spans')
  }

  /** What a pass scans for is what its entries list. */
  lemma ScansAreOfTheTerms(vocabulary: seq<VocabularyEntry>, mode: Case, text: string, spans: seq<Span>)
    ensures Scans(vocabulary, mode, text, spans) <==> IsScan(mode, text, TermsOf(vocabulary, mode), spans)
  {
    hide AreTerms, IsScan, TermsOf;
    if Scans(vocabulary, mode, text, spans) {
      var terms :| AreTerms(vocabulary, mode, terms) && IsScan(mode, text, Elements(terms), spans);
      TermsAreTheirs(vocabulary, mode, terms);
    }
    var all := TermsExist(vocabulary, mode);
  }

  lemma TermsOfAre(vocabulary: seq<VocabularyEntry>, mode: Case, term: string)
    ensures term in TermsOf(vocabulary, mode) <==> IsTermOf(vocabulary, mode, term)
    ensures "" !in TermsOf(vocabulary, mode)
  {
    hide Strip;
  }

  lemma OverlapCollides(casing: Case, text: string, us: set<string>, ts: set<string>, spans: seq<Span>,
                        spans': seq<Span>)
      returns (u: string, t: string)
    requires IsScan(casing, text, us, spans) && IsScan(Exact, text, ts, spans') && Overlapping(spans, spans')
    ensures u in us && t in ts && Collide(casing, u, t)
  {
    hide OccursAt, Aligns, IsLongest, Covered;
    var i, j :| 0 <= i < |spans| && 0 <= j < |spans'| && Overlap(spans[i], spans'[j]);
    assert IsHit(casing, text, us, spans[i]) && IsHit(Exact, text, ts, spans'[j]);
    u :| u in us && |u| == spans[i].end - spans[i].start && OccursAt(casing, text, u, spans[i].start);
    t :| t in ts && |t| == spans'[j].end - spans'[j].start && OccursAt(Exact, text, t, spans'[j].start);
    OverlapAligns(casing, text, u, spans[i].start, t, spans'[j].start);
    var d := spans'[j].start - spans[i].start;
    assert -|t| < d < |u| && Aligns(casing, u, t, d);
  }

  /** Longest-wins holds across the passes as well, in every text, if and only if no term of one pass
      collides with a term of the other. */
  lemma PassesOverlapExactlyOnCollisions(casing: Case, vocabulary: seq<VocabularyEntry>)
    ensures PassesOverlap(casing, vocabulary) <==> HasCollision(casing, vocabulary)
  {
    hide TermsOf, IsScan, Collide, Overlapping, Scans, IsTermOf;
    if PassesOverlap(casing, vocabulary) {
      var text, spans, spans' :| Scans(vocabulary, casing, text, spans) && Scans(vocabulary, Exact, text, spans')
        && Overlapping(spans, spans');
      ScansAreOfTheTerms(vocabulary, casing, text, spans);
      ScansAreOfTheTerms(vocabulary, Exact, text, spans');
      var u, t := OverlapCollides(casing, text, TermsOf(vocabulary, casing), TermsOf(vocabulary, Exact), spans, spans');
      TermsOfAre(vocabulary, casing, u);
      TermsOfAre(vocabulary, Exact, t);
    }
    if HasCollision(casing, vocabulary) {
      var u, t :| IsTermOf(vocabulary, casing, u) && IsTermOf(vocabulary, Exact, t) && Collide(casing, u, t);
      CollisionOverlaps(casing, vocabulary, u, t);
    }
  }

  lemma CollisionOverlaps(casing: Case, vocabulary: seq<VocabularyEntry>, u: string, t: string)
    requires IsTermOf(vocabulary, casing, u) && IsTermOf(vocabulary, Exact, t) && Collide(casing, u, t)
    ensures PassesOverlap(casing, vocabulary)
  {
    var us, ts := TermsOf(vocabulary, casing), TermsOf(vocabulary, Exact);
    TermsOfAre(vocabulary, casing, u);
    TermsOfAre(vocabulary, Exact, t);
    hide TermsOf, IsScan, Aligns, Overlapping, Together, Scans, IsTermOf;
    var d :| -|t| < d < |u| && Aligns(casing, u, t, d);
    var text := Together(casing, u, t, d);
    var spans := ScanExists(casing, text, us);
    var spans' := ScanExists(Exact, text, ts);
    ScansAreOfTheTerms(vocabulary, casing, text, spans);
    ScansAreOfTheTerms(vocabulary, Exact, text, spans');
    TogetherOverlaps(casing, us, ts, u, t, d, text, spans, spans');
  }

  // ------------------------------------------------------------------ C and C++

  const CPP := VocabularyEntry("cpp", "C++", ["C++"], false)
  const C := VocabularyEntry("c", "C", ["C"], true)

  lemma CAlignsWithCpp()
    ensures Collide(ASCII_CASE, "C++", "C")
  {
    assert Canon(ASCII_CASE, '+') == '+' && !IsWordChar('+');
    assert HasNonWord(ASCII_CASE, '+');
    hide HasNonWord, Canon;
    assert Aligns(ASCII_CASE, "C++", "C", 0);
  }

  /** The two terms collide, so in some text the exact-case pass looks inside what the other reports. */
  lemma CAndCppCollide()
    ensures HasCollision(ASCII_CASE, [CPP, C]) && PassesOverlap(ASCII_CASE, [CPP, C])
  {
    CAlignsWithCpp();
    TermsOfCAndCpp();
    hide Collide, AreTerms, IsTermOf;
    assert IsTermOf([CPP, C], ASCII_CASE, "C++") && IsTermOf([CPP, C], Exact, "C");
    PassesOverlapExactlyOnCollisions(ASCII_CASE, [CPP, C]);
  }

  lemma TermsOfCAndCpp()
    ensures AreTerms([CPP, C], ASCII_CASE, ["C++"]) && AreTerms([CPP, C], Exact, ["C"])
    ensures IsTermOf([CPP, C], ASCII_CASE, "C++") && IsTermOf([CPP, C], Exact, "C")
    ensures Elements(["C++"]) == {"C++"} && Elements(["C"]) == {"C"}
  {
    assert Strip("C++") == "C++" && Strip("C") == "C";
    hide Strip;
    var v := [CPP, C];
    assert v[0] == CPP && v[1] == C && "C++" in CPP.terms && "C" in C.terms;
    assert IsTermOf(v, ASCII_CASE, "C++") && IsTermOf(v, Exact, "C");
  }

  lemma NoConflict()
    ensures ConflictFree([CPP, C], ASCII_CASE)
  {
    hide Key, Strip;
    forall e, e' | e in [CPP, C] && e' in [CPP, C] && InConflict(e, e', ASCII_CASE)
      ensures e == e'
    {
    }
  }

  /** Inside "C++" the pass that ignores case hits "C++", and the other one "C". */
  lemma TheExactCasePassFindsCInsideCpp()
    ensures IsScan(ASCII_CASE, "C++", {"C++"}, [Span(0, 3)])
    ensures IsScan(Exact, "C++", {"C"}, [Span(0, 1)])
  {
    var text := "C++";
    assert text[0..3] == text && text[0..1] == "C";
    assert OccursAt(ASCII_CASE, text, "C++", 0);
    assert OccursAt(Exact, text, "C", 0);
    assert IsHit(ASCII_CASE, text, {"C++"}, Span(0, 3)) && IsHit(Exact, text, {"C"}, Span(0, 1));
    forall p: nat | p < 3 && OccursAt(ASCII_CASE, text, "C++", p)
      ensures p == 0
    {
    }
    forall p: nat | p < 3 && OccursAt(Exact, text, "C", p)
      ensures p == 0
    {
      OccurrenceSpells(Exact, text, "C", p);
      SpeltExactly(text, "C", p);
      assert text[p + 0] == "C"[0];
    }
    assert [Span(0, 3)][0].start <= 0 < [Span(0, 3)][0].end && [Span(0, 1)][0].start <= 0 < [Span(0, 1)][0].end;
    assert Covered([Span(0, 3)], 0) && Covered([Span(0, 1)], 0);
  }

  /** A pass with one span, which has an entry. */
  lemma OneSpanPass(v: seq<VocabularyEntry>, mode: Case, text: string, span: Span, m: Mention)
    requires Scans(v, mode, text, [span])
    requires SpanIsClaimed(v, mode, text, span) && Resolves(v, mode, text, span, m)
    ensures IsPass(v, mode, text, [m])
  {
    hide Scans, Resolves, SpanIsClaimed;
    assert [span][..0] == [] && [m][..0] == [];
    assert ResolvesTo(v, mode, text, [span], [m]);
  }

  lemma ScansOfCpp()
    ensures Scans([CPP, C], ASCII_CASE, "C++", [Span(0, 3)]) && Scans([CPP, C], Exact, "C++", [Span(0, 1)])
  {
    TheExactCasePassFindsCInsideCpp();
    TermsOfCAndCpp();
    hide IsScan, AreTerms;
  }

  lemma CppAndCAreLookedUp()
    ensures LastClaimant([CPP, C], ASCII_CASE, Key(ASCII_CASE, "C++"), CPP)
    ensures LastClaimant([CPP, C], Exact, Key(Exact, "C"), C)
  {
    var v := [CPP, C];
    assert Strip("C++") == "C++" && Strip("C") == "C";
    hide Strip, Key;
    assert v[0] == CPP && v[1] == C && "C++" in CPP.terms && "C" in C.terms;
    assert Lists("C++", ASCII_CASE, Key(ASCII_CASE, "C++")) && Lists("C", Exact, Key(Exact, "C"));
  }

  lemma PassesOverCpp()
    ensures IsPass([CPP, C], ASCII_CASE, "C++", [Mention(CPP, "C++")])
    ensures IsPass([CPP, C], Exact, "C++", [Mention(C, "C")])
  {
    ScansOfCpp();
    CppAndCAreLookedUp();
    hide Scans, LastClaimant, Key;
    var v := [CPP, C];
    assert v[0] == CPP && v[1] == C && "C++"[0..3] == "C++" && "C++"[0..1] == "C";
    ClaimantClaims(v, ASCII_CASE, Key(ASCII_CASE, "C++"), CPP);
    ClaimantClaims(v, Exact, Key(Exact, "C"), C);
    hide Claimed;
    OneSpanPass(v, ASCII_CASE, "C++", Span(0, 3), Mention(CPP, "C++"));
    OneSpanPass(v, Exact, "C++", Span(0, 1), Mention(C, "C"));
  }

  lemma ClaimantClaims(v: seq<VocabularyEntry>, mode: Case, key: string, e: VocabularyEntry)
    requires LastClaimant(v, mode, key, e)
    ensures Claimed(v, mode, key)
  {
  }

  const CPP_MENTIONS := [Mention(CPP, "C++"), Mention(C, "C")]
  const C_LINE := SkillMatch("c", "C", ["C"], 1)
  const CPP_LINE := SkillMatch("cpp", "C++", ["C++"], 1)

  lemma TallyOfCpp(s: SkillId)
    ensures SkillsOf(CPP_MENTIONS) == {"cpp", "c"}
    ensures CountOf(CPP_MENTIONS, s) == (if s == "cpp" then 1 else 0) + (if s == "c" then 1 else 0)
    ensures TextsOf(CPP_MENTIONS, s) == (if s == "cpp" then {"C++"} else {}) + (if s == "c" then {"C"} else {})
  {
    var m, m' := Mention(CPP, "C++"), Mention(C, "C");
    assert CountOf([], s) == 0 && TextsOf([], s) == {} && SkillsOf([]) == {};
    hide CountOf, TextsOf, SkillsOf;
    AppendMention([], m, s);
    assert [] + [m] == [m];
    AppendMention([m], m', s);
    assert [m] + [m'] == CPP_MENTIONS;
  }

  lemma LinesOnCpp()
    ensures Describes(CPP_MENTIONS, CPP_LINE) && Describes(CPP_MENTIONS, C_LINE)
  {
    TallyOfCpp("cpp");
    TallyOfCpp("c");
    hide CountOf, TextsOf, SkillsOf;
    assert FirstEntry(CPP_MENTIONS, "cpp", CPP) by {
      assert CPP_MENTIONS[0].entry == CPP;
    }
    assert FirstEntry(CPP_MENTIONS, "c", C) by {
      assert CPP_MENTIONS[1].entry == C;
    }
    hide FirstEntry;
  }

  lemma ReportOnCpp()
    ensures IsReport(CPP_MENTIONS, [C_LINE, CPP_LINE])
  {
    TallyOfCpp("c");
    LinesOnCpp();
    assert ReportedSkills([C_LINE, CPP_LINE]) == ["c", "cpp"];
    assert TextLeq("C", "C++");
    hide Describes, CountOf, TextsOf, SkillsOf, TextLeq;
  }

  /** Whoever writes "C++" is reported to know C as well: nothing else can be found in that text. */
  lemma CppIsReportedAsCToo(report: seq<SkillMatch>)
    ensures IsFinding(ASCII_CASE, [CPP, C], "C++", report)
            <==> report == [SkillMatch("c", "C", ["C"], 1), SkillMatch("cpp", "C++", ["C++"], 1)]
  {
    var expected := [C_LINE, CPP_LINE];
    PassesOverCpp();
    ReportOnCpp();
    NoConflict();
    hide IsPass, IsReport, ConflictFree;
    assert [Mention(CPP, "C++")] + [Mention(C, "C")] == CPP_MENTIONS;
    assert IsFinding(ASCII_CASE, [CPP, C], "C++", expected);
    if IsFinding(ASCII_CASE, [CPP, C], "C++", report) {
      FindIgnoresVocabularyOrder(ASCII_CASE, [CPP, C], [CPP, C], "C++", report, expected);
    }
  }
}
