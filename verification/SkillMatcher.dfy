/** `SkillMatcher.build` and `SkillMatcher.find` on top of the two passes. */
module SkillMatcher {
  import opened Common
  import opened Sorting
  import opened Text
  import opened SkillMatching

  // ------------------------------------------------------------------ the vocabulary

  /** `entry` lists, in the pass it belongs to, a term that is looked up by `key`. */
  ghost predicate Claims(entry: VocabularyEntry, mode: Case, key: string) {
    entry.requiresExactCase == mode.Exact? && exists t :: t in entry.terms && Lists(t, mode, key)
  }

  predicate Lists(t: string, mode: Case, key: string) {
    Strip(t) != "" && Key(mode, Strip(t)) == key
  }

  ghost predicate IsTermOf(vocabulary: seq<VocabularyEntry>, mode: Case, term: string) {
    && term != ""
    && exists e, t :: e in vocabulary && e.requiresExactCase == mode.Exact? && t in e.terms && Strip(t) == term
  }

  /** A later claimant replaces an earlier one. */
  ghost predicate LastClaimant(vocabulary: seq<VocabularyEntry>, mode: Case, key: string, e: VocabularyEntry) {
    exists i :: && 0 <= i < |vocabulary| && vocabulary[i] == e && Claims(e, mode, key)
                && forall j :: i < j < |vocabulary| ==> !Claims(vocabulary[j], mode, key)
  }

  ghost predicate Claimed(vocabulary: seq<VocabularyEntry>, mode: Case, key: string) {
    exists e :: e in vocabulary && Claims(e, mode, key)
  }

  ghost predicate IsLookup(vocabulary: seq<VocabularyEntry>, mode: Case, lookup: map<string, VocabularyEntry>) {
    forall key ::
      && (key in lookup <==> Claimed(vocabulary, mode, key))
      && (key in lookup ==> LastClaimant(vocabulary, mode, key, lookup[key]))
  }

  ghost predicate AreTerms(vocabulary: seq<VocabularyEntry>, mode: Case, terms: seq<string>) {
    forall term :: term in terms <==> IsTermOf(vocabulary, mode, term)
  }

  lemma LookupGrows(vocabulary: seq<VocabularyEntry>, e: VocabularyEntry, mode: Case,
                    lookup: map<string, VocabularyEntry>, lookup': map<string, VocabularyEntry>)
    requires IsLookup(vocabulary, mode, lookup)
    requires forall key :: key in lookup' <==> key in lookup || Claims(e, mode, key)
    requires forall key :: key in lookup' ==> lookup'[key] == if Claims(e, mode, key) then e else lookup[key]
    ensures IsLookup(vocabulary + [e], mode, lookup')
  {
    hide Claims;
    var more := vocabulary + [e];
    forall key
      ensures key in lookup' <==> Claimed(more, mode, key)
      ensures key in lookup' ==> LastClaimant(more, mode, key, lookup'[key])
    {
      assert e in more && forall x :: x in vocabulary ==> x in more;
      if Claims(e, mode, key) {
        assert more[|vocabulary|] == e;
      } else if key in lookup {
        var i :| && 0 <= i < |vocabulary| && vocabulary[i] == lookup[key] && Claims(lookup[key], mode, key)
                 && forall j :: i < j < |vocabulary| ==> !Claims(vocabulary[j], mode, key);
        assert more[i] == lookup[key];
        assert lookup[key] in more;
      }
    }
  }

  lemma TermsGrow(vocabulary: seq<VocabularyEntry>, e: VocabularyEntry, mode: Case, terms: seq<string>,
                  terms': seq<string>)
    requires AreTerms(vocabulary, mode, terms)
    requires forall term :: term in terms' <==> term in terms || IsTermOf([e], mode, term)
    ensures AreTerms(vocabulary + [e], mode, terms')
  {
    var more := vocabulary + [e];
    forall term
      ensures IsTermOf(more, mode, term) <==>
                IsTermOf(vocabulary, mode, term) || IsTermOf([e], mode, term)
    {
      if x, t :| term != "" && x in more && x.requiresExactCase == mode.Exact? && t in x.terms && Strip(t) == term {
        assert x in vocabulary || x in [e];
      }
      if IsTermOf(vocabulary, mode, term) {
        var x, t :| x in vocabulary && x.requiresExactCase == mode.Exact? && t in x.terms && Strip(t) == term;
        assert x in more;
      }
      if x, t :| term != "" && x in [e] && x.requiresExactCase == mode.Exact? && t in x.terms && Strip(t) == term {
        assert x in more;
      }
    }
  }

  /** The inner loop of `build`, for the pass the entry belongs to. */
  method AddTerms(entry: VocabularyEntry, mode: Case, lookup0: map<string, VocabularyEntry>, terms0: seq<string>)
      returns (lookup: map<string, VocabularyEntry>, terms: seq<string>)
    requires entry.requiresExactCase == mode.Exact?
    ensures forall key :: key in lookup <==> key in lookup0 || Claims(entry, mode, key)
    ensures forall key :: key in lookup ==> lookup[key] == if Claims(entry, mode, key) then entry
      else lookup0[key]
    ensures forall term :: term in terms <==> term in terms0 || IsTermOf([entry], mode, term)
  {
    lookup, terms := lookup0, terms0;
    hide Key, Strip, ListedBefore, CleanedBefore;
    NoTermsYet(entry, mode);
    for k := 0 to |entry.terms|
      invariant forall key :: key in lookup <==> key in lookup0 || ListedBefore(entry, k, mode, key)
      invariant forall key :: key in lookup ==> lookup[key] == if ListedBefore(entry, k, mode, key) then entry
        else lookup0[key]
      invariant forall term :: term in terms <==> term in terms0 || CleanedBefore(entry, k, term)
    {
      var cleaned := Strip(entry.terms[k]);
      OneMoreTerm(entry, k, mode);
      if cleaned == "" {
        continue;
      }
      lookup := lookup[Key(mode, cleaned) := entry];
      terms := terms + [cleaned];
    }
    AllTerms(entry, mode);
  }

  ghost predicate ListedBefore(entry: VocabularyEntry, k: int, mode: Case, key: string) {
    exists j :: 0 <= j < k && j < |entry.terms| && Lists(entry.terms[j], mode, key)
  }

  ghost predicate CleanedBefore(entry: VocabularyEntry, k: int, term: string) {
    term != "" && exists j :: 0 <= j < k && j < |entry.terms| && Strip(entry.terms[j]) == term
  }

  lemma NoTermsYet(entry: VocabularyEntry, mode: Case)
    ensures forall key :: !ListedBefore(entry, 0, mode, key)
    ensures forall term :: !CleanedBefore(entry, 0, term)
  {
  }

  lemma OneMoreTerm(entry: VocabularyEntry, k: nat, mode: Case)
    requires k < |entry.terms|
    ensures forall key :: ListedBefore(entry, k + 1, mode, key) <==>
              ListedBefore(entry, k, mode, key) || Lists(entry.terms[k], mode, key)
    ensures forall term :: CleanedBefore(entry, k + 1, term) <==>
              CleanedBefore(entry, k, term) || (term != "" && term == Strip(entry.terms[k]))
  {
    hide Key, Strip, Lists;
    forall key
      ensures ListedBefore(entry, k + 1, mode, key) <==>
                ListedBefore(entry, k, mode, key) || Lists(entry.terms[k], mode, key)
    {
      if j :| 0 <= j < k + 1 && j < |entry.terms| && Lists(entry.terms[j], mode, key) {
        assert j < k || j == k;
      }
    }
    forall term
      ensures CleanedBefore(entry, k + 1, term) <==>
                CleanedBefore(entry, k, term) || (term != "" && term == Strip(entry.terms[k]))
    {
      if j :| 0 <= j < k + 1 && j < |entry.terms| && Strip(entry.terms[j]) == term {
        assert j < k || j == k;
      }
    }
  }

  lemma AllTerms(entry: VocabularyEntry, mode: Case)
    requires entry.requiresExactCase == mode.Exact?
    ensures forall key :: Claims(entry, mode, key) <==> ListedBefore(entry, |entry.terms|, mode, key)
    ensures forall term :: IsTermOf([entry], mode, term) <==> CleanedBefore(entry, |entry.terms|, term)
  {
    hide Lists, Strip;
    forall key
      ensures Claims(entry, mode, key) <==> ListedBefore(entry, |entry.terms|, mode, key)
    {
      if j :| 0 <= j < |entry.terms| && Lists(entry.terms[j], mode, key) {
        assert entry.terms[j] in entry.terms;
      }
    }
    forall term
      ensures IsTermOf([entry], mode, term) <==> CleanedBefore(entry, |entry.terms|, term)
    {
      if j :| 0 <= j < |entry.terms| && Strip(entry.terms[j]) == term {
        assert entry in [entry] && entry.terms[j] in entry.terms;
      }
    }
  }

  // ------------------------------------------------------------------ mentions

  datatype Mention = Mention(entry: VocabularyEntry, matched: string)

  /** The spans a pass reports for a vocabulary. */
  ghost predicate Scans(vocabulary: seq<VocabularyEntry>, mode: Case, text: string, spans: seq<Span>) {
    exists terms :: AreTerms(vocabulary, mode, terms) && IsScan(mode, text, Elements(terms), spans)
  }

  ghost predicate Resolves(vocabulary: seq<VocabularyEntry>, mode: Case, text: string, span: Span, m: Mention) {
    && span.start <= span.end <= |text|
    && m.matched == text[span.start..span.end]
    && LastClaimant(vocabulary, mode, Key(mode, m.matched), m.entry)
  }

  /** Some entry has the text of the span for a key. */
  ghost predicate SpanIsClaimed(vocabulary: seq<VocabularyEntry>, mode: Case, text: string, span: Span) {
    span.start <= span.end <= |text| && Claimed(vocabulary, mode, Key(mode, text[span.start..span.end]))
  }

  /** The spans that have an entry, each under it; the others are passed over. */
  ghost predicate ResolvesTo(vocabulary: seq<VocabularyEntry>, mode: Case, text: string, spans: seq<Span>,
                             mentions: seq<Mention>) {
    if spans == [] then mentions == []
    else
      var n, k := |spans| - 1, |mentions| - 1;
      if SpanIsClaimed(vocabulary, mode, text, spans[n]) then
        && k >= 0 && Resolves(vocabulary, mode, text, spans[n], mentions[k])
        && ResolvesTo(vocabulary, mode, text, spans[..n], mentions[..k])
      else ResolvesTo(vocabulary, mode, text, spans[..n], mentions)
  }

  ghost predicate IsPass(vocabulary: seq<VocabularyEntry>, mode: Case, text: string, mentions: seq<Mention>) {
    exists spans :: Scans(vocabulary, mode, text, spans) && ResolvesTo(vocabulary, mode, text, spans, mentions)
  }

  lemma NextSpanTaken(vocabulary: seq<VocabularyEntry>, mode: Case, text: string, spans: seq<Span>, i: nat,
                      mentions: seq<Mention>, m: Mention)
    requires i < |spans| && ResolvesTo(vocabulary, mode, text, spans[..i], mentions)
    requires SpanIsClaimed(vocabulary, mode, text, spans[i]) && Resolves(vocabulary, mode, text, spans[i], m)
    ensures ResolvesTo(vocabulary, mode, text, spans[..i + 1], mentions + [m])
  {
    hide SpanIsClaimed, Resolves;
    assert spans[..i + 1][..i] == spans[..i];
    assert (mentions + [m])[..|mentions|] == mentions;
  }

  lemma NextSpanSkipped(vocabulary: seq<VocabularyEntry>, mode: Case, text: string, spans: seq<Span>, i: nat,
                        mentions: seq<Mention>)
    requires i < |spans| && ResolvesTo(vocabulary, mode, text, spans[..i], mentions)
    requires !SpanIsClaimed(vocabulary, mode, text, spans[i])
    ensures ResolvesTo(vocabulary, mode, text, spans[..i + 1], mentions)
  {
    hide SpanIsClaimed, Resolves;
    assert spans[..i + 1][..i] == spans[..i];
  }

  ghost function CountOf(mentions: seq<Mention>, s: SkillId): int {
    if mentions == [] then 0
    else CountOf(mentions[..|mentions| - 1], s) + (if mentions[|mentions| - 1].entry.skillId == s then 1 else 0)
  }

  ghost function TextsOf(mentions: seq<Mention>, s: SkillId): set<string> {
    set m | m in mentions && m.entry.skillId == s :: m.matched
  }

  ghost function SkillsOf(mentions: seq<Mention>): set<SkillId> {
    set m | m in mentions :: m.entry.skillId
  }

  ghost predicate FirstEntry(mentions: seq<Mention>, s: SkillId, e: VocabularyEntry) {
    exists i :: && 0 <= i < |mentions| && mentions[i].entry == e && e.skillId == s
                && forall j :: 0 <= j < i ==> mentions[j].entry.skillId != s
  }

  type Tally = (VocabularyEntry, set<string>, int)

  ghost predicate TallyOf(mentions: seq<Mention>, s: SkillId, tally: Tally) {
    && FirstEntry(mentions, s, tally.0)
    && tally.1 == TextsOf(mentions, s)
    && tally.2 == CountOf(mentions, s)
  }

  ghost predicate HitsOf(mentions: seq<Mention>, hits: map<SkillId, Tally>) {
    hits.Keys == SkillsOf(mentions) && forall s :: s in hits ==> TallyOf(mentions, s, hits[s])
  }

  /** The nested function `record`. */
  function Record(hits: map<SkillId, Tally>, m: Mention): map<SkillId, Tally> {
    var s := m.entry.skillId;
    if s !in hits then hits[s := (m.entry, {m.matched}, 1)]
    else hits[s := (hits[s].0, hits[s].1 + {m.matched}, hits[s].2 + 1)]
  }

  lemma AppendMention(mentions: seq<Mention>, m: Mention, s: SkillId)
    ensures SkillsOf(mentions + [m]) == SkillsOf(mentions) + {m.entry.skillId}
    ensures TextsOf(mentions + [m], s) == TextsOf(mentions, s) + (if m.entry.skillId == s then {m.matched} else {})
    ensures CountOf(mentions + [m], s) == CountOf(mentions, s) + (if m.entry.skillId == s then 1 else 0)
  {
    var more := mentions + [m];
    assert more[..|mentions|] == mentions;
    forall x
      ensures x in more <==> x in mentions || x == m
    {
    }
  }

  lemma TallyAfter(mentions: seq<Mention>, hits: map<SkillId, Tally>, m: Mention, s: SkillId)
    requires HitsOf(mentions, hits) && s in Record(hits, m)
    ensures TallyOf(mentions + [m], s, Record(hits, m)[s])
  {
    hide CountOf, TextsOf, SkillsOf;
    AppendMention(mentions, m, s);
    if s in hits {
      assert TallyOf(mentions, s, hits[s]);
      FirstStaysFirst(mentions, m, s, hits[s].0);
    } else {
      NotYetMentioned(mentions, s);
      assert (mentions + [m])[|mentions|].entry == m.entry;
    }
  }

  lemma RecordTallies(mentions: seq<Mention>, hits: map<SkillId, Tally>, m: Mention)
    requires HitsOf(mentions, hits)
    ensures HitsOf(mentions + [m], Record(hits, m))
  {
    hide TallyOf, SkillsOf;
    AppendMention(mentions, m, m.entry.skillId);
    forall s | s in Record(hits, m)
      ensures TallyOf(mentions + [m], s, Record(hits, m)[s])
    {
      TallyAfter(mentions, hits, m, s);
    }
  }

  lemma FirstStaysFirst(mentions: seq<Mention>, m: Mention, s: SkillId, e: VocabularyEntry)
    requires FirstEntry(mentions, s, e)
    ensures FirstEntry(mentions + [m], s, e)
  {
    var i :| && 0 <= i < |mentions| && mentions[i].entry == e && e.skillId == s
             && forall j :: 0 <= j < i ==> mentions[j].entry.skillId != s;
    assert (mentions + [m])[i] == mentions[i];
  }

  lemma {:induction false} NotYetMentioned(mentions: seq<Mention>, s: SkillId)
    requires s !in SkillsOf(mentions)
    ensures CountOf(mentions, s) == 0 && TextsOf(mentions, s) == {}
    ensures forall j :: 0 <= j < |mentions| ==> mentions[j].entry.skillId != s
  {
    if mentions != [] {
      var n := |mentions| - 1;
      assert mentions[n] in mentions;
      assert forall x :: x in mentions[..n] ==> x in mentions;
      NotYetMentioned(mentions[..n], s);
      assert mentions == mentions[..n] + [mentions[n]];
    }
    forall m | m in mentions
      ensures m.entry.skillId != s
    {
      assert m.entry.skillId in SkillsOf(mentions);
    }
  }

  // ------------------------------------------------------------------ the report

  predicate ReportOrder(a: SkillMatch, b: SkillMatch) {
    if a.occurrences != b.occurrences then a.occurrences > b.occurrences else TextLeq(a.canonicalName, b.canonicalName)
  }

  lemma ReportOrderIsTotal()
    ensures TotalPreorder(ReportOrder)
  {
    TextOrder();
  }

  ghost predicate Describes(mentions: seq<Mention>, m: SkillMatch) {
    && (exists e :: FirstEntry(mentions, m.skillId, e) && m.canonicalName == e.canonicalName)
    && m.occurrences == CountOf(mentions, m.skillId)
    && Sorted(m.matchedTerms, TextLeq) && Distinct(m.matchedTerms)
    && Elements(m.matchedTerms) == TextsOf(mentions, m.skillId)
  }

  ghost function ReportedSkills(report: seq<SkillMatch>): seq<SkillId> {
    Map((m: SkillMatch) => m.skillId, report)
  }

  /** One line for each mentioned skill, most mentioned first, then by name. */
  ghost predicate IsReport(mentions: seq<Mention>, report: seq<SkillMatch>) {
    && Sorted(report, ReportOrder)
    && Distinct(ReportedSkills(report))
    && Elements(ReportedSkills(report)) == SkillsOf(mentions)
    && forall m :: m in report ==> Describes(mentions, m)
  }

  ghost predicate IsFinding(casing: Case, vocabulary: seq<VocabularyEntry>, text: string, report: seq<SkillMatch>) {
    exists first, second ::
      && IsPass(vocabulary, casing, text, first)
      && IsPass(vocabulary, Exact, text, second)
      && IsReport(first + second, report)
  }

  lemma LineDescribes(mentions: seq<Mention>, s: SkillId, tally: Tally, line: SkillMatch)
    requires TallyOf(mentions, s, tally)
    requires line.skillId == tally.0.skillId && line.canonicalName == tally.0.canonicalName
             && line.occurrences == tally.2
    requires Sorted(line.matchedTerms, TextLeq) && Distinct(line.matchedTerms) && Elements(line.matchedTerms) == tally.1
    ensures line.skillId == s && Describes(mentions, line)
  {
    hide CountOf, TextsOf, TextLeq;
    assert FirstEntry(mentions, s, tally.0);
  }

  method ReportHits(ghost mentions: seq<Mention>, hits: map<SkillId, Tally>) returns (report: seq<SkillMatch>)
    requires HitsOf(mentions, hits)
    ensures IsReport(mentions, report)
  {
    var skills := ListSet(hits.Keys);
    var listed: seq<SkillMatch> := [];
    TextOrder();
    hide TextLeq, CountOf, TextsOf, SkillsOf, FirstEntry, Describes, TallyOf;
    for i := 0 to |skills|
      invariant |listed| == i
      invariant forall j :: 0 <= j < i ==> listed[j].skillId == skills[j] && Describes(mentions, listed[j])
    {
      var s := skills[i];
      assert s in Elements(skills);
      var (entry, texts, count) := hits[s];
      assert TallyOf(mentions, s, hits[s]);
      var matchedTerms := SortedSet(texts, TextLeq);
      var line := SkillMatch(entry.skillId, entry.canonicalName, matchedTerms, count);
      LineDescribes(mentions, s, hits[s], line);
      listed := listed + [line];
    }
    report := Sort(listed, ReportOrder);
    ReportOrderIsTotal();
    SortSorts(listed, ReportOrder);
    SortMembers(listed, ReportOrder);
    assert ReportedSkills(listed) == skills;
    MapPermutation((m: SkillMatch) => m.skillId, listed, report);
    PermutationDistinct(skills, ReportedSkills(report));
  }

  class SkillMatcher {
    /** The case rule of the runtime for patterns that ignore case. */
    const casing: Case
    ghost const vocabulary: seq<VocabularyEntry>
    var lookup: map<string, VocabularyEntry>
    var exactLookup: map<string, VocabularyEntry>
    var insensitive: seq<string>
    var sensitive: seq<string>

    ghost predicate Valid()
      reads this
    {
      && casing.Ignoring?
      && IsLookup(vocabulary, casing, lookup) && IsLookup(vocabulary, Exact, exactLookup)
      && AreTerms(vocabulary, casing, insensitive) && AreTerms(vocabulary, Exact, sensitive)
      && Sorted(insensitive, LongerFirst) && Sorted(sensitive, LongerFirst)
    }

    constructor Build(casing: Case, vocabulary: seq<VocabularyEntry>)
      requires casing.Ignoring?
      ensures this.casing == casing && this.vocabulary == vocabulary && Valid()
    {
      this.casing := casing;
      this.vocabulary := vocabulary;
      var byLower: map<string, VocabularyEntry>, byExact: map<string, VocabularyEntry> := map[], map[];
      var insensitiveTerms: seq<string>, sensitiveTerms: seq<string> := [], [];
      assert vocabulary[..0] == [];
      NoEntriesYet(casing);
      NoEntriesYet(Exact);
      hide IsLookup, AreTerms, Claims, IsTermOf;
      for i := 0 to |vocabulary|
        invariant IsLookup(vocabulary[..i], casing, byLower) && IsLookup(vocabulary[..i], Exact, byExact)
        invariant AreTerms(vocabulary[..i], casing, insensitiveTerms)
          && AreTerms(vocabulary[..i], Exact, sensitiveTerms)
      {
        var entry := vocabulary[i];
        ghost var lookup0, terms0 := if entry.requiresExactCase then byExact else byLower,
          if entry.requiresExactCase then sensitiveTerms else insensitiveTerms;
        assert vocabulary[..i + 1] == vocabulary[..i] + [entry];
        if entry.requiresExactCase {
          byExact, sensitiveTerms := AddTerms(entry, Exact, byExact, sensitiveTerms);
          LookupGrows(vocabulary[..i], entry, Exact, lookup0, byExact);
          TermsGrow(vocabulary[..i], entry, Exact, terms0, sensitiveTerms);
          OtherPassStands(vocabulary[..i], entry, casing, byLower, insensitiveTerms);
        } else {
          byLower, insensitiveTerms := AddTerms(entry, casing, byLower, insensitiveTerms);
          LookupGrows(vocabulary[..i], entry, casing, lookup0, byLower);
          TermsGrow(vocabulary[..i], entry, casing, terms0, insensitiveTerms);
          OtherPassStands(vocabulary[..i], entry, Exact, byExact, sensitiveTerms);
        }
      }
      assert vocabulary[..|vocabulary|] == vocabulary;
      lookup, exactLookup := byLower, byExact;
      var a := PatternFor(insensitiveTerms);
      var b := PatternFor(sensitiveTerms);
      SameElementsSameTerms(vocabulary, casing, insensitiveTerms, a);
      SameElementsSameTerms(vocabulary, Exact, sensitiveTerms, b);
      insensitive, sensitive := a, b;
    }

    /** One pass: every span whose text has an entry is recorded under it. */
    method RunPass(mode: Case, text: string, table: map<string, VocabularyEntry>, alternation: seq<string>,
                   ghost before: seq<Mention>, hits0: map<SkillId, Tally>)
        returns (hits: map<SkillId, Tally>)
      requires IsLookup(vocabulary, mode, table) && AreTerms(vocabulary, mode, alternation)
      requires Sorted(alternation, LongerFirst)
      requires HitsOf(before, hits0)
      ensures exists mentions :: IsPass(vocabulary, mode, text, mentions) && HitsOf(before + mentions, hits)
    {
      hits := hits0;
      ghost var mentions: seq<Mention> := [];
      assert before + [] == before;
      assert ResolvesTo(vocabulary, mode, text, [], []);
      hide IsLookup, HitsOf, AreTerms, IsScan, IsPass, ResolvesTo;
      TermsAreNotEmpty(vocabulary, mode, alternation);
      var spans := FindIter(mode, text, alternation);
      assert spans[..0] == [];
      for i := 0 to |spans|
        invariant ResolvesTo(vocabulary, mode, text, spans[..i], mentions)
        invariant HitsOf(before + mentions, hits)
      {
        SpanIsInside(mode, text, Elements(alternation), spans, i);
        hits := RecordSpan(mode, text, table, spans, i, before, mentions, hits);
        mentions :| ResolvesTo(vocabulary, mode, text, spans[..i + 1], mentions) && HitsOf(before + mentions, hits);
      }
      assert spans[..|spans|] == spans;
      MentionsAreAPass(vocabulary, mode, text, alternation, spans, mentions);
    }

    /** One turn of the loop: look the matched text up, and record it if it has an entry. */
    method RecordSpan(mode: Case, text: string, table: map<string, VocabularyEntry>, spans: seq<Span>, i: nat,
                      ghost before: seq<Mention>, ghost mentions: seq<Mention>, hits0: map<SkillId, Tally>)
        returns (hits: map<SkillId, Tally>)
      requires IsLookup(vocabulary, mode, table)
      requires i < |spans| && spans[i].start <= spans[i].end <= |text|
      requires ResolvesTo(vocabulary, mode, text, spans[..i], mentions) && HitsOf(before + mentions, hits0)
      ensures exists more :: ResolvesTo(vocabulary, mode, text, spans[..i + 1], more) && HitsOf(before + more, hits)
    {
      hide IsLookup, HitsOf, ResolvesTo, Resolves, SpanIsClaimed, Key, Record;
      var matched := text[spans[i].start..spans[i].end];
      TableAnswers(vocabulary, mode, text, table, spans[i]);
      if Key(mode, matched) in table {
        var found := Mention(table[Key(mode, matched)], matched);
        NextSpanTaken(vocabulary, mode, text, spans, i, mentions, found);
        RecordTallies(before + mentions, hits0, found);
        assert before + mentions + [found] == before + (mentions + [found]);
        hits := Record(hits0, found);
      } else {
        NextSpanSkipped(vocabulary, mode, text, spans, i, mentions);
        hits := hits0;
      }
    }

    method Find(text: string) returns (report: seq<SkillMatch>)
      requires Valid()
      ensures IsFinding(casing, vocabulary, text, report)
    {
      hide IsPass, IsReport, HitsOf, IsLookup, AreTerms;
      var hits: map<SkillId, Tally> := map[];
      ghost var first: seq<Mention>, second: seq<Mention>;
      NothingHitYet();
      hits := RunPass(casing, text, lookup, insensitive, [], hits);
      first :| IsPass(vocabulary, casing, text, first) && HitsOf([] + first, hits);
      assert [] + first == first;
      hits := RunPass(Exact, text, exactLookup, sensitive, first, hits);
      second :| IsPass(vocabulary, Exact, text, second) && HitsOf(first + second, hits);
      report := ReportHits(first + second, hits);
    }
  }

  lemma NoEntriesYet(mode: Case)
    ensures IsLookup([], mode, map[]) && AreTerms([], mode, [])
  {
  }

  /** An entry of one pass changes nothing for the other. */
  lemma OtherPassStands(vocabulary: seq<VocabularyEntry>, entry: VocabularyEntry, mode: Case,
                        lookup: map<string, VocabularyEntry>, terms: seq<string>)
    requires entry.requiresExactCase != mode.Exact?
    requires IsLookup(vocabulary, mode, lookup) && AreTerms(vocabulary, mode, terms)
    ensures IsLookup(vocabulary + [entry], mode, lookup) && AreTerms(vocabulary + [entry], mode, terms)
  {
    NotOfThisPass(entry, mode);
    hide IsLookup, AreTerms, Claims, IsTermOf;
    LookupGrows(vocabulary, entry, mode, lookup, lookup);
    TermsGrow(vocabulary, entry, mode, terms, terms);
  }

  lemma NotOfThisPass(entry: VocabularyEntry, mode: Case)
    requires entry.requiresExactCase != mode.Exact?
    ensures forall key :: !Claims(entry, mode, key)
    ensures forall term :: !IsTermOf([entry], mode, term)
  {
  }

  lemma NothingHitYet()
    ensures HitsOf([], map[])
  {
  }

  lemma SpanIsInside(mode: Case, text: string, terms: set<string>, spans: seq<Span>, i: nat)
    requires IsScan(mode, text, terms, spans) && i < |spans|
    ensures spans[i].start < spans[i].end <= |text|
  {
    HitIsNotEmpty(mode, text, terms, spans[i]);
  }

  /** Looking the text of a span up answers whether it is claimed, and by whom. */
  lemma TableAnswers(vocabulary: seq<VocabularyEntry>, mode: Case, text: string, table: map<string, VocabularyEntry>,
                     span: Span)
    requires IsLookup(vocabulary, mode, table) && span.start <= span.end <= |text|
    ensures var matched := text[span.start..span.end];
            && (Key(mode, matched) in table <==> SpanIsClaimed(vocabulary, mode, text, span))
            && (Key(mode, matched) in table ==>
                Resolves(vocabulary, mode, text, span, Mention(table[Key(mode, matched)], matched)))
  {
    hide Key, Claimed, LastClaimant;
  }

  lemma TermsAreNotEmpty(vocabulary: seq<VocabularyEntry>, mode: Case, terms: seq<string>)
    requires AreTerms(vocabulary, mode, terms)
    ensures forall t :: t in terms ==> t != ""
  {
    forall t | t in terms
      ensures t != ""
    {
      assert IsTermOf(vocabulary, mode, t);
    }
  }

  lemma MentionsAreAPass(vocabulary: seq<VocabularyEntry>, mode: Case, text: string, terms: seq<string>,
                         spans: seq<Span>, mentions: seq<Mention>)
    requires AreTerms(vocabulary, mode, terms) && IsScan(mode, text, Elements(terms), spans)
    requires ResolvesTo(vocabulary, mode, text, spans, mentions)
    ensures IsPass(vocabulary, mode, text, mentions)
  {
    hide AreTerms, IsScan, ResolvesTo;
    assert Scans(vocabulary, mode, text, spans);
  }

  lemma SameElementsSameTerms(vocabulary: seq<VocabularyEntry>, mode: Case, terms: seq<string>,
                              terms': seq<string>)
    requires AreTerms(vocabulary, mode, terms) && Elements(terms') == Elements(terms)
    ensures AreTerms(vocabulary, mode, terms')
  {
    forall t
      ensures t in terms' <==> t in terms
    {
      assert t in terms' <==> t in Elements(terms');
      assert t in terms <==> t in Elements(terms);
    }
  }
}
