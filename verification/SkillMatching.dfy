/** The rule-based skill matcher: longest guarded term at each position, one pass per case rule. */
module SkillMatching {
  import opened Common
  import opened Sorting

  type SkillId = string

  datatype VocabularyEntry = VocabularyEntry(skillId: SkillId, canonicalName: string, terms: seq<string>,
                                             requiresExactCase: bool)

  datatype SkillMatch = SkillMatch(skillId: SkillId, canonicalName: string, matchedTerms: seq<string>, occurrences: int)

  datatype Span = Span(start: nat, end: nat)

  predicate IsWordChar(c: char) {
    'A' <= c <= 'Z' || 'a' <= c <= 'z' || '0' <= c <= '9' || c == '_'
  }

  function LowerChar(c: char): char {
    if 'A' <= c <= 'Z' then (c as int + 32) as char else c
  }

  function Lower(s: string): (r: string)
    ensures |r| == |s|
  {
    seq(|s|, i requires 0 <= i < |s| => LowerChar(s[i]))
  }

  /** The case rule of a pass. Under IGNORECASE two characters match when `canon` gives them the same
      representative, `word` says which characters the word class then covers, and `lower` is the
      language's own lower-casing of a string; nothing ties the three together. */
  datatype Case = Exact | Ignoring(canon: char -> char, word: char -> bool, lower: string -> string)

  /** What all of it amounts to on ASCII text. */
  const ASCII_CASE := Ignoring(LowerChar, IsWordChar, Lower)

  function Canon(mode: Case, c: char): char {
    match mode
    case Exact => c
    case Ignoring(canon, _, _) => canon(c)
  }

  /** Two strings match when they fold to the same. */
  function Fold(mode: Case, s: string): (r: string)
    ensures |r| == |s|
  {
    seq(|s|, i requires 0 <= i < |s| => Canon(mode, s[i]))
  }

  predicate InWord(mode: Case, c: char) {
    match mode
    case Exact => IsWordChar(c)
    case Ignoring(_, word, _) => word(c)
  }

  /** What a term, or a text that matched one, is looked up by. */
  function Key(mode: Case, s: string): string {
    match mode
    case Exact => s
    case Ignoring(_, _, lower) => lower(s)
  }

  // ------------------------------------------------------------------ one pass

  /** No word character on either side. */
  predicate Guarded(mode: Case, text: string, start: nat, end: nat)
    requires start <= end <= |text|
  {
    && (start == 0 || !InWord(mode, text[start - 1]))
    && (end == |text| || !InWord(mode, text[end]))
  }

  predicate OccursAt(mode: Case, text: string, term: string, start: nat) {
    && start + |term| <= |text|
    && Fold(mode, text[start..start + |term|]) == Fold(mode, term)
    && Guarded(mode, text, start, start + |term|)
  }

  ghost predicate IsHit(mode: Case, text: string, terms: set<string>, span: Span) {
    && span.start < span.end <= |text|
    && exists term :: term in terms && |term| == span.end - span.start && OccursAt(mode, text, term, span.start)
  }

  ghost predicate IsLongest(mode: Case, text: string, terms: set<string>, span: Span) {
    forall term :: term in terms && OccursAt(mode, text, term, span.start) ==> span.start + |term| <= span.end
  }

  ghost predicate Covered(spans: seq<Span>, p: nat) {
    exists i :: 0 <= i < |spans| && spans[i].start <= p < spans[i].end
  }

  ghost predicate Ordered(spans: seq<Span>) {
    forall i, j :: 0 <= i < j < |spans| ==> spans[i].end <= spans[j].start
  }

  /** What a pass reports: disjoint guarded hits in order, each the longest at its start, and none
      of the guarded occurrences starting before `limit` left outside them. */
  ghost predicate IsScanUpTo(mode: Case, text: string, terms: set<string>, spans: seq<Span>, limit: nat) {
    && Ordered(spans)
    && (forall i :: 0 <= i < |spans| ==>
        IsHit(mode, text, terms, spans[i]) && IsLongest(mode, text, terms, spans[i]))
    && (forall p: nat, term :: term in terms && p < limit && OccursAt(mode, text, term, p) ==> Covered(spans, p))
  }

  ghost predicate IsScan(mode: Case, text: string, terms: set<string>, spans: seq<Span>) {
    IsScanUpTo(mode, text, terms, spans, |text|)
  }

  predicate LongerFirst(a: string, b: string) {
    |a| >= |b|
  }

  /** The alternation: every term once, longest first. */
  method PatternFor(terms: seq<string>) returns (alternation: seq<string>)
    ensures Elements(alternation) == Elements(terms)
    ensures Sorted(alternation, LongerFirst)
  {
    var distinct := set t | t in terms;
    alternation := SortedSet(distinct, LongerFirst);
  }

  /** The first branch of the alternation that matches at `start`, if any. */
  method FirstBranch(mode: Case, text: string, alternation: seq<string>, start: nat) returns (end: Option<nat>)
    requires Sorted(alternation, LongerFirst) && start < |text|
    requires forall t :: t in alternation ==> t != ""
    ensures end.Some? ==>
              IsHit(mode, text, Elements(alternation), Span(start, end.value))
              && IsLongest(mode, text, Elements(alternation), Span(start, end.value))
    ensures end.None? ==> forall t :: t in alternation ==> !OccursAt(mode, text, t, start)
  {
    for k := 0 to |alternation|
      invariant forall j :: 0 <= j < k ==> !OccursAt(mode, text, alternation[j], start)
    {
      var term := alternation[k];
      if OccursAt(mode, text, term, start) {
        assert term in Elements(alternation);
        forall other | other in Elements(alternation) && OccursAt(mode, text, other, start)
          ensures |other| <= |term|
        {
          var j :| 0 <= j < |alternation| && alternation[j] == other;
          assert j < k || j == k || LongerFirst(alternation[k], alternation[j]);
        }
        return Some(start + |term|);
      }
    }
    return None;
  }

  /** finditer: leftmost match, then resume where it ended. */
  method FindIter(mode: Case, text: string, alternation: seq<string>) returns (spans: seq<Span>)
    requires Sorted(alternation, LongerFirst)
    requires forall t :: t in alternation ==> t != ""
    ensures IsScan(mode, text, Elements(alternation), spans)
  {
    hide OccursAt, IsHit, IsLongest;
    spans := [];
    var at := 0;
    ghost var terms := Elements(alternation);
    while at < |text|
      invariant at <= |text|
      invariant forall i :: 0 <= i < |spans| ==> spans[i].end <= at
      invariant IsScanUpTo(mode, text, terms, spans, at)
      decreases |text| - at
    {
      var end := FirstBranch(mode, text, alternation, at);
      if end.Some? {
        HitIsNotEmpty(mode, text, terms, Span(at, end.value));
        ScanTakes(mode, text, terms, spans, at, Span(at, end.value));
        spans := spans + [Span(at, end.value)];
        at := end.value;
      } else {
        assert forall t :: t in terms ==> t in alternation;
        ScanSkips(mode, text, terms, spans, at);
        at := at + 1;
      }
    }
  }

  lemma ScanTakes(mode: Case, text: string, terms: set<string>, spans: seq<Span>, at: nat, span: Span)
    requires IsScanUpTo(mode, text, terms, spans, at)
    requires forall i :: 0 <= i < |spans| ==> spans[i].end <= at
    requires span.start == at && IsHit(mode, text, terms, span) && IsLongest(mode, text, terms, span)
    ensures IsScanUpTo(mode, text, terms, spans + [span], span.end)
  {
    hide OccursAt, IsHit, IsLongest;
    assert at < span.end by {
      assert IsHit(mode, text, terms, span);
      HitIsNotEmpty(mode, text, terms, span);
    }
    forall p: nat, term | term in terms && p < span.end && OccursAt(mode, text, term, p)
      ensures Covered(spans + [span], p)
    {
      if p < at {
        assert Covered(spans, p);
        var i :| 0 <= i < |spans| && spans[i].start <= p < spans[i].end;
        assert (spans + [span])[i] == spans[i];
      } else {
        assert (spans + [span])[|spans|] == span;
      }
    }
  }

  lemma HitIsNotEmpty(mode: Case, text: string, terms: set<string>, span: Span)
    requires IsHit(mode, text, terms, span)
    ensures span.start < span.end <= |text|
  {
  }

  lemma ScanSkips(mode: Case, text: string, terms: set<string>, spans: seq<Span>, at: nat)
    requires IsScanUpTo(mode, text, terms, spans, at)
    requires forall t :: t in terms ==> !OccursAt(mode, text, t, at)
    ensures IsScanUpTo(mode, text, terms, spans, at + 1)
  {
    hide OccursAt;
  }

  // ------------------------------------------------------------------ a pass has one answer

  /** Terms that fold to the same strings. */
  ghost predicate SameFolded(mode: Case, terms: set<string>, terms': set<string>) {
    && (forall t :: t in terms ==> exists u :: u in terms' && Fold(mode, u) == Fold(mode, t))
    && (forall u :: u in terms' ==> exists t :: t in terms && Fold(mode, t) == Fold(mode, u))
  }

  lemma HitInBoth(mode: Case, text: string, terms: set<string>, terms': set<string>, span: Span)
      returns (u: string)
    requires SameFolded(mode, terms, terms')
    requires IsHit(mode, text, terms, span)
    ensures u in terms' && |u| == span.end - span.start && OccursAt(mode, text, u, span.start)
  {
    hide OccursAt, Fold;
    var term :| term in terms && |term| == span.end - span.start && OccursAt(mode, text, term, span.start);
    u :| u in terms' && Fold(mode, u) == Fold(mode, term);
    OccursFolded(mode, text, term, u, span.start);
  }

  lemma OccursFolded(mode: Case, text: string, term: string, u: string, start: nat)
    requires Fold(mode, u) == Fold(mode, term)
    ensures |u| == |term|
    ensures OccursAt(mode, text, term, start) <==> OccursAt(mode, text, u, start)
  {
    hide Fold, Guarded;
    assert |Fold(mode, u)| == |Fold(mode, term)|;
  }

  /** If the first `k` spans agree, whatever covers the next start comes no earlier than span `k`. */
  lemma CoveringSpanIsNext(spans: seq<Span>, spans': seq<Span>, k: nat)
    requires Ordered(spans) && Ordered(spans')
    requires forall i :: 0 <= i < |spans'| ==> spans'[i].start < spans'[i].end
    requires k < |spans| && k <= |spans'| && spans[..k] == spans'[..k]
    requires Covered(spans', spans[k].start)
    ensures k < |spans'| && spans'[k].start <= spans[k].start
  {
    forall i | 0 <= i < k
      ensures spans'[i].end <= spans[k].start
    {
      assert spans[..k][i] == spans'[..k][i];
    }
    var i :| 0 <= i < |spans'| && spans'[i].start <= spans[k].start < spans'[i].end;
    assert k <= i;
    if i > k {
      assert spans'[k].end <= spans'[i].start;
    }
  }

  /** Span `k` of one scan is span `k` of the other, once the earlier ones agree. */
  lemma NextSpanAgrees(mode: Case, text: string, terms: set<string>, terms': set<string>, spans: seq<Span>,
                       spans': seq<Span>, k: nat)
    requires SameFolded(mode, terms, terms')
    requires IsScan(mode, text, terms, spans) && IsScan(mode, text, terms', spans')
    requires k < |spans| && k <= |spans'| && spans[..k] == spans'[..k]
    ensures k < |spans'| && spans'[k].start <= spans[k].start
    ensures spans'[k].start == spans[k].start ==> spans[k].end <= spans'[k].end
  {
    hide OccursAt, Covered;
    HitIsNotEmpty(mode, text, terms, spans[k]);
    var u := HitInBoth(mode, text, terms, terms', spans[k]);
    assert Covered(spans', spans[k].start);
    forall i | 0 <= i < |spans'|
      ensures spans'[i].start < spans'[i].end
    {
      HitIsNotEmpty(mode, text, terms', spans'[i]);
    }
    CoveringSpanIsNext(spans, spans', k);
    assert IsLongest(mode, text, terms', spans'[k]);
  }

  lemma {:induction false} ScansAgree(mode: Case, text: string, terms: set<string>, terms': set<string>,
                                      spans: seq<Span>, spans': seq<Span>, k: nat)
    requires SameFolded(mode, terms, terms')
    requires IsScan(mode, text, terms, spans) && IsScan(mode, text, terms', spans')
    requires k <= |spans|
    ensures k <= |spans'| && spans[..k] == spans'[..k]
  {
    hide IsScan, SameFolded;
    if k > 0 {
      ScansAgree(mode, text, terms, terms', spans, spans', k - 1);
      NextSpanAgrees(mode, text, terms, terms', spans, spans', k - 1);
      SameFoldedSymmetric(mode, terms, terms');
      NextSpanAgrees(mode, text, terms', terms, spans', spans, k - 1);
      assert spans[k - 1] == spans'[k - 1];
      assert spans[..k] == spans[..k - 1] + [spans[k - 1]] && spans'[..k] == spans'[..k - 1] + [spans'[k - 1]];
    }
  }

  lemma SameFoldedSymmetric(mode: Case, terms: set<string>, terms': set<string>)
    requires SameFolded(mode, terms, terms')
    ensures SameFolded(mode, terms', terms)
  {
    hide Fold;
  }

  /** The terms alone decide what a pass reports: not their order, nor how often or, when case is
      ignored, in which capitals they are listed. */
  lemma ScanIsUnique(mode: Case, text: string, terms: set<string>, terms': set<string>, spans: seq<Span>,
                     spans': seq<Span>)
    requires SameFolded(mode, terms, terms')
    requires IsScan(mode, text, terms, spans) && IsScan(mode, text, terms', spans')
    ensures spans == spans'
  {
    ScansAgree(mode, text, terms, terms', spans, spans', |spans|);
    SameFoldedSymmetric(mode, terms, terms');
    ScansAgree(mode, text, terms', terms, spans', spans, |spans'|);
    assert spans[..|spans|] == spans && spans'[..|spans'|] == spans';
  }
}
