/** What a caller of `SkillMatcher.find` can rely on. */
module SkillMatcherLaws {
  import opened Common
  import opened Sorting
  import opened Text
  import opened SkillMatching
  import opened SkillMatcher

  // ------------------------------------------------------------------ counts

  ghost function TotalOccurrences(report: seq<SkillMatch>): int {
    if report == [] then 0
    else TotalOccurrences(report[..|report| - 1]) + report[|report| - 1].occurrences
  }

  ghost function TotalCount(mentions: seq<Mention>, skills: seq<SkillId>): int {
    if skills == [] then 0
    else TotalCount(mentions, skills[..|skills| - 1]) + CountOf(mentions, skills[|skills| - 1])
  }

  lemma {:induction false} OneMoreMention(mentions: seq<Mention>, m: Mention, skills: seq<SkillId>)
    requires Distinct(skills)
    ensures TotalCount(mentions + [m], skills)
            == TotalCount(mentions, skills) + (if m.entry.skillId in skills then 1 else 0)
  {
    if skills != [] {
      var n := |skills| - 1;
      assert skills == skills[..n] + [skills[n]];
      OneMoreMention(mentions, m, skills[..n]);
      AppendMention(mentions, m, skills[n]);
    }
  }

  lemma {:induction false} EveryMentionIsCountedOnce(mentions: seq<Mention>, skills: seq<SkillId>)
    requires Distinct(skills) && forall m :: m in mentions ==> m.entry.skillId in skills
    ensures TotalCount(mentions, skills) == |mentions|
  {
    if mentions == [] {
      NothingToCount(skills);
    } else {
      var n := |mentions| - 1;
      assert mentions == mentions[..n] + [mentions[n]];
      EveryMentionIsCountedOnce(mentions[..n], skills);
      OneMoreMention(mentions[..n], mentions[n], skills);
    }
  }

  lemma {:induction false} NothingToCount(skills: seq<SkillId>)
    ensures TotalCount([], skills) == 0
  {
    if skills != [] {
      NothingToCount(skills[..|skills| - 1]);
    }
  }

  lemma {:induction false} TotalsAgree(mentions: seq<Mention>, report: seq<SkillMatch>)
    requires forall m :: m in report ==> Describes(mentions, m)
    ensures TotalOccurrences(report) == TotalCount(mentions, ReportedSkills(report))
  {
    if report != [] {
      var n := |report| - 1;
      assert report[n] in report && forall m :: m in report[..n] ==> m in report;
      TotalsAgree(mentions, report[..n]);
      assert ReportedSkills(report)[..n] == ReportedSkills(report[..n]);
      assert Describes(mentions, report[n]);
    }
  }

  lemma LinesAddUp(mentions: seq<Mention>, report: seq<SkillMatch>)
    requires IsReport(mentions, report)
    ensures TotalOccurrences(report) == |mentions|
  {
    TotalsAgree(mentions, report);
    forall m | m in mentions
      ensures m.entry.skillId in ReportedSkills(report)
    {
      assert m.entry.skillId in SkillsOf(mentions);
    }
    EveryMentionIsCountedOnce(mentions, ReportedSkills(report));
  }

  /** How many spans have an entry. */
  ghost function Resolving(vocabulary: seq<VocabularyEntry>, mode: Case, text: string, spans: seq<Span>): int {
    if spans == [] then 0
    else
      var n := |spans| - 1;
      Resolving(vocabulary, mode, text, spans[..n]) + (if SpanIsClaimed(vocabulary, mode, text, spans[n]) then 1 else 0)
  }

  lemma {:induction false} OneMentionEach(vocabulary: seq<VocabularyEntry>, mode: Case, text: string, spans: seq<Span>,
                                          mentions: seq<Mention>)
    requires ResolvesTo(vocabulary, mode, text, spans, mentions)
    ensures |mentions| == Resolving(vocabulary, mode, text, spans)
  {
    hide SpanIsClaimed, Resolves;
    if spans != [] {
      var n := |spans| - 1;
      if SpanIsClaimed(vocabulary, mode, text, spans[n]) {
        OneMentionEach(vocabulary, mode, text, spans[..n], mentions[..|mentions| - 1]);
      } else {
        OneMentionEach(vocabulary, mode, text, spans[..n], mentions);
      }
    }
  }

  /** The occurrences of all lines add up to the number of spans, of both passes, that have an entry. */
  lemma OccurrencesAddUp(casing: Case, vocabulary: seq<VocabularyEntry>, text: string, report: seq<SkillMatch>)
      returns (spans: seq<Span>, spans': seq<Span>)
    requires IsFinding(casing, vocabulary, text, report)
    ensures Scans(vocabulary, casing, text, spans) && Scans(vocabulary, Exact, text, spans')
    ensures TotalOccurrences(report)
            == Resolving(vocabulary, casing, text, spans) + Resolving(vocabulary, Exact, text, spans')
  {
    hide IsReport, Scans, ResolvesTo;
    var first, second :| IsPass(vocabulary, casing, text, first) && IsPass(vocabulary, Exact, text, second)
      && IsReport(first + second, report);
    spans :| Scans(vocabulary, casing, text, spans) && ResolvesTo(vocabulary, casing, text, spans, first);
    spans' :| Scans(vocabulary, Exact, text, spans') && ResolvesTo(vocabulary, Exact, text, spans', second);
    OneMentionEach(vocabulary, casing, text, spans, first);
    OneMentionEach(vocabulary, Exact, text, spans', second);
    LinesAddUp(first + second, report);
  }

  // ------------------------------------------------------------------ the terms of a pass

  /** The terms of a pass. */
  ghost function TermsOf(vocabulary: seq<VocabularyEntry>, mode: Case): set<string> {
    set e, t | e in vocabulary && e.requiresExactCase == mode.Exact? && t in e.terms && Strip(t) != "" :: Strip(t)
  }

  lemma TermsAreTheirs(vocabulary: seq<VocabularyEntry>, mode: Case, terms: seq<string>)
    requires AreTerms(vocabulary, mode, terms)
    ensures Elements(terms) == TermsOf(vocabulary, mode)
  {
    hide Strip;
    forall t
      ensures t in Elements(terms) <==> t in TermsOf(vocabulary, mode)
    {
      assert t in terms <==> IsTermOf(vocabulary, mode, t);
    }
  }

  lemma TermsExist(vocabulary: seq<VocabularyEntry>, mode: Case) returns (terms: seq<string>)
    ensures AreTerms(vocabulary, mode, terms) && Elements(terms) == TermsOf(vocabulary, mode)
  {
    hide Strip;
    terms := Listing(TermsOf(vocabulary, mode));
    forall t
      ensures t in terms <==> IsTermOf(vocabulary, mode, t)
    {
      assert t in terms <==> t in TermsOf(vocabulary, mode);
    }
  }

  lemma {:induction false} Listing(values: set<string>) returns (listed: seq<string>)
    ensures Elements(listed) == values
  {
    listed := [];
    if values != {} {
      var x :| x in values;
      listed := Listing(values - {x});
      assert forall y :: y in listed <==> y in values - {x};
      listed := listed + [x];
    }
  }

  // ------------------------------------------------------------------ spans without an entry

  /** Whatever a pass reports, in any text, has an entry. */
  ghost predicate EverySpanHasAnEntry(vocabulary: seq<VocabularyEntry>, mode: Case) {
    forall text, spans :: Scans(vocabulary, mode, text, spans) ==> AllClaimed(vocabulary, mode, text, spans)
  }

  ghost predicate AllClaimed(vocabulary: seq<VocabularyEntry>, mode: Case, text: string, spans: seq<Span>) {
    forall i :: 0 <= i < |spans| ==> SpanIsClaimed(vocabulary, mode, text, spans[i])
  }

  /** Every spelling that matches a term is looked up by what some term is looked up by. */
  ghost predicate SpellingsAreClaimed(vocabulary: seq<VocabularyEntry>, mode: Case) {
    forall term, spelling :: IsTermOf(vocabulary, mode, term) && Fold(mode, spelling) == Fold(mode, term) ==>
      Claimed(vocabulary, mode, Key(mode, spelling))
  }

  /** Whether spans are passed over is a matter of the terms and their spellings alone: texts, guards and
      longer terms neither cause nor prevent it. */
  lemma EverySpanHasAnEntryExactlyWhen(vocabulary: seq<VocabularyEntry>, mode: Case)
    ensures EverySpanHasAnEntry(vocabulary, mode) <==> SpellingsAreClaimed(vocabulary, mode)
  {
    hide *;
    if SpellingsAreClaimed(vocabulary, mode) {
      ClaimedSpellingsSuffice(vocabulary, mode);
    }
    if EverySpanHasAnEntry(vocabulary, mode) {
      ReportedSpellingsAreClaimed(vocabulary, mode);
    }
  }

  lemma ClaimedSpellingsSuffice(vocabulary: seq<VocabularyEntry>, mode: Case)
    requires SpellingsAreClaimed(vocabulary, mode)
    ensures EverySpanHasAnEntry(vocabulary, mode)
  {
    hide IsHit, SpanIsClaimed, AreTerms, SpellingsAreClaimed;
    forall text, spans | Scans(vocabulary, mode, text, spans)
      ensures AllClaimed(vocabulary, mode, text, spans)
    {
      var terms :| AreTerms(vocabulary, mode, terms) && IsScan(mode, text, Elements(terms), spans);
      forall i | 0 <= i < |spans|
        ensures SpanIsClaimed(vocabulary, mode, text, spans[i])
      {
        HitIsASpelling(vocabulary, mode, text, terms, spans[i]);
      }
    }
  }

  lemma ReportedSpellingsAreClaimed(vocabulary: seq<VocabularyEntry>, mode: Case)
    requires EverySpanHasAnEntry(vocabulary, mode)
    ensures SpellingsAreClaimed(vocabulary, mode)
  {
    hide Scans, Claimed, IsTermOf, Fold, Key;
    forall term, spelling | IsTermOf(vocabulary, mode, term) && Fold(mode, spelling) == Fold(mode, term)
      ensures Claimed(vocabulary, mode, Key(mode, spelling))
    {
      var span := Span(0, |spelling|);
      SpellingIsReported(vocabulary, mode, term, spelling);
      assert AllClaimed(vocabulary, mode, spelling, [span]);
      assert SpanIsClaimed(vocabulary, mode, spelling, [span][0]);
      assert spelling[0..|spelling|] == spelling;
    }
  }

  lemma HitIsASpelling(vocabulary: seq<VocabularyEntry>, mode: Case, text: string, terms: seq<string>, span: Span)
    requires SpellingsAreClaimed(vocabulary, mode) && AreTerms(vocabulary, mode, terms)
    requires IsHit(mode, text, Elements(terms), span)
    ensures SpanIsClaimed(vocabulary, mode, text, span)
  {
    hide Fold, Guarded, Claimed, IsTermOf;
    var term :| term in Elements(terms) && |term| == span.end - span.start && OccursAt(mode, text, term, span.start);
    assert span.start + |term| == span.end;
    assert IsTermOf(vocabulary, mode, term);
  }

  /** A spelling on its own is a text of which the whole is reported. */
  lemma SpellingIsReported(vocabulary: seq<VocabularyEntry>, mode: Case, term: string, spelling: string)
    requires IsTermOf(vocabulary, mode, term) && Fold(mode, spelling) == Fold(mode, term)
    ensures Scans(vocabulary, mode, spelling, [Span(0, |spelling|)])
  {
    var terms := TermsExist(vocabulary, mode);
    assert |Fold(mode, spelling)| == |Fold(mode, term)|;
    assert term in terms && term != "" by {
      hide Fold;
    }
    hide IsTermOf, AreTerms;
    WholeTextIsTheScan(mode, spelling, Elements(terms), term);
  }

  lemma WholeTextIsTheScan(mode: Case, text: string, terms: set<string>, term: string)
    requires term in terms && term != "" && |term| == |text| && Fold(mode, text) == Fold(mode, term)
    ensures IsScan(mode, text, terms, [Span(0, |text|)])
  {
    hide Fold;
    var spans := [Span(0, |text|)];
    assert text[0..|term|] == text;
    assert OccursAt(mode, text, term, 0);
    forall p: nat | p < |text|
      ensures Covered(spans, p)
    {
      assert spans[0].start <= p < spans[0].end;
    }
    hide OccursAt;
    assert IsHit(mode, text, terms, spans[0]);
    assert IsLongest(mode, text, terms, spans[0]) by {
      OccurrencesFit(mode, text);
    }
    hide IsHit, IsLongest;
  }

  lemma OccurrencesFit(mode: Case, text: string)
    ensures forall t, start: nat :: OccursAt(mode, text, t, start) ==> start + |t| <= |text|
  {
  }

  /** A term as the vocabulary keeps it. */
  predicate IsClean(term: string) {
    term != "" && Strip(term) == term
  }

  /** What matches a term is looked up as the term is. */
  ghost predicate KeysFollow(mode: Case) {
    forall a, b :: IsClean(a) && Fold(mode, a) == Fold(mode, b) ==> Key(mode, a) == Key(mode, b)
  }

  /** The case rules alone decide whether every vocabulary is safe: nothing is ever passed over if and
      only if the two notions of case agree on everything that can be a term. */
  lemma NothingIsLostExactlyWhenKeysFollow(mode: Case)
    ensures (forall vocabulary :: EverySpanHasAnEntry(vocabulary, mode)) <==> KeysFollow(mode)
  {
    hide EverySpanHasAnEntry, Fold, Key, Strip, SpellingsAreClaimed;
    if KeysFollow(mode) {
      forall vocabulary
        ensures EverySpanHasAnEntry(vocabulary, mode)
      {
        FollowingKeysAreClaimed(vocabulary, mode);
        EverySpanHasAnEntryExactlyWhen(vocabulary, mode);
      }
    }
    if forall vocabulary :: EverySpanHasAnEntry(vocabulary, mode) {
      forall a, b | IsClean(a) && Fold(mode, a) == Fold(mode, b)
        ensures Key(mode, a) == Key(mode, b)
      {
        EverySpanHasAnEntryExactlyWhen([Only(mode, a)], mode);
        OnlyItsKeyIsClaimed(mode, a, b);
      }
    }
  }

  lemma FollowingKeysAreClaimed(vocabulary: seq<VocabularyEntry>, mode: Case)
    requires KeysFollow(mode)
    ensures SpellingsAreClaimed(vocabulary, mode)
  {
    hide IsTermOf, Fold, Key, Claimed;
    forall term, spelling | IsTermOf(vocabulary, mode, term) && Fold(mode, spelling) == Fold(mode, term)
      ensures Claimed(vocabulary, mode, Key(mode, spelling))
    {
      TermIsClaimed(vocabulary, mode, term);
    }
  }

  lemma TermIsClaimed(vocabulary: seq<VocabularyEntry>, mode: Case, term: string)
    requires IsTermOf(vocabulary, mode, term)
    ensures Claimed(vocabulary, mode, Key(mode, term)) && IsClean(term)
  {
    var e, t :| e in vocabulary && e.requiresExactCase == mode.Exact? && t in e.terms && Strip(t) == term;
    StripTwice(t);
    hide Key, Strip;
    assert Lists(t, mode, Key(mode, term));
    assert Claims(e, mode, Key(mode, term));
  }

  /** The vocabulary of one skill with one term. */
  function Only(mode: Case, term: string): VocabularyEntry {
    VocabularyEntry(term, term, [term], mode.Exact?)
  }

  lemma OnlyItsKeyIsClaimed(mode: Case, a: string, b: string)
    requires IsClean(a) && Fold(mode, a) == Fold(mode, b)
    requires SpellingsAreClaimed([Only(mode, a)], mode)
    ensures Key(mode, a) == Key(mode, b)
  {
    hide Fold, Key, Strip;
    var only := Only(mode, a);
    assert only in [only] && a in only.terms;
    assert IsTermOf([only], mode, a);
    assert Claimed([only], mode, Key(mode, b));
  }

  lemma SimpleKeysFollow()
    ensures KeysFollow(Exact) && KeysFollow(ASCII_CASE)
  {
    forall a, b | Fold(Exact, a) == Fold(Exact, b)
      ensures a == b
    {
      assert |Fold(Exact, a)| == |Fold(Exact, b)|;
      assert forall i :: 0 <= i < |a| ==> Fold(Exact, a)[i] == a[i] && Fold(Exact, b)[i] == b[i];
    }
    forall a, b | Fold(ASCII_CASE, a) == Fold(ASCII_CASE, b)
      ensures Lower(a) == Lower(b)
    {
      assert Lower(a) == Fold(ASCII_CASE, a) && Lower(b) == Fold(ASCII_CASE, b);
    }
  }

  const LONG_S: char := '\U{17F}'

  /** Case rules with one more pair: the long s matches an s, and is its own lower-case form. */
  const LONG_S_CASE := Ignoring(c => if c == LONG_S then 's'
                                else LowerChar(c), c => IsWordChar(c) || c == LONG_S, Lower)

  const RUST := VocabularyEntry("rust", "Rust", ["Rust"], false)

  const LONG_RUST: string := ['R', 'u', LONG_S, 't']

  lemma RustIsTheTerm()
    ensures AreTerms([RUST], LONG_S_CASE, ["Rust"]) && IsTermOf([RUST], LONG_S_CASE, "Rust")
    ensures AreTerms([RUST], Exact, [])
  {
    assert Strip("Rust") == "Rust" && RUST in [RUST] && "Rust" in RUST.terms;
    hide Strip;
  }

  /** Spelt with a long s, the whole text is the one span, and no entry has its key. */
  lemma LongRustIsOneSpan()
    ensures Fold(LONG_S_CASE, LONG_RUST) == Fold(LONG_S_CASE, "Rust")
    ensures !SpanIsClaimed([RUST], LONG_S_CASE, LONG_RUST, Span(0, 4))
    ensures IsScan(LONG_S_CASE, LONG_RUST, {"Rust"}, [Span(0, 4)])
  {
    assert Fold(LONG_S_CASE, LONG_RUST) == Fold(LONG_S_CASE, "Rust");
    assert Strip("Rust") == "Rust";
    assert Lower(LONG_RUST)[2] == LONG_S && Lower("Rust")[2] == 's';
    assert LONG_RUST[0..4] == LONG_RUST;
    WholeTextIsTheScan(LONG_S_CASE, LONG_RUST, {"Rust"}, "Rust");
    hide IsScan, Fold, Strip, Lower;
  }

  lemma LongRustIsPassedOver(mentions: seq<Mention>)
    ensures IsPass([RUST], LONG_S_CASE, LONG_RUST, mentions) <==> mentions == []
  {
    var span := Span(0, 4);
    RustIsTheTerm();
    LongRustIsOneSpan();
    assert Elements(["Rust"]) == {"Rust"};
    assert Scans([RUST], LONG_S_CASE, LONG_RUST, [span]);
    forall spans | Scans([RUST], LONG_S_CASE, LONG_RUST, spans)
      ensures spans == [span]
    {
      LongRustHasOneScan(spans);
    }
    hide Scans, SpanIsClaimed;
    assert [span][..0] == [];
    assert ResolvesTo([RUST], LONG_S_CASE, LONG_RUST, [span], mentions) <==> mentions == [];
  }

  lemma LongRustHasOneScan(spans: seq<Span>)
    requires Scans([RUST], LONG_S_CASE, LONG_RUST, spans)
    ensures spans == [Span(0, 4)]
  {
    hide IsScan, Fold, IsTermOf;
    var terms :| AreTerms([RUST], LONG_S_CASE, terms) && IsScan(LONG_S_CASE, LONG_RUST, Elements(terms), spans);
    RustIsTheTerm();
    LongRustIsOneSpan();
    TermsAreTheirs([RUST], LONG_S_CASE, terms);
    TermsAreTheirs([RUST], LONG_S_CASE, ["Rust"]);
    assert Elements(["Rust"]) == {"Rust"};
    ScanIsUnique(LONG_S_CASE, LONG_RUST, {"Rust"}, {"Rust"}, spans, [Span(0, 4)]);
  }

  lemma NothingExactInLongRust(mentions: seq<Mention>)
    ensures IsPass([RUST], Exact, LONG_RUST, mentions) <==> mentions == []
  {
    RustIsTheTerm();
    var none: seq<string> := [];
    assert Elements(none) == {};
    assert Scans([RUST], Exact, LONG_RUST, []);
    forall spans | Scans([RUST], Exact, LONG_RUST, spans)
      ensures spans == []
    {
      NoTermsNoSpans(spans);
    }
    hide Scans;
  }

  lemma NoTermsNoSpans(spans: seq<Span>)
    requires Scans([RUST], Exact, LONG_RUST, spans)
    ensures spans == []
  {
    hide IsTermOf, OccursAt;
    var terms :| AreTerms([RUST], Exact, terms) && IsScan(Exact, LONG_RUST, Elements(terms), spans);
    RustIsTheTerm();
    TermsAreTheirs([RUST], Exact, terms);
    TermsAreTheirs([RUST], Exact, []);
    if spans != [] {
      SpansNeedTerms(Exact, LONG_RUST, Elements(terms), spans);
    }
  }

  lemma SpansNeedTerms(mode: Case, text: string, terms: set<string>, spans: seq<Span>)
    requires IsScan(mode, text, terms, spans) && spans != []
    ensures terms != {}
  {
    hide OccursAt;
    assert IsHit(mode, text, terms, spans[0]);
  }

  lemma NothingToReport(report: seq<SkillMatch>)
    ensures IsReport([], report) <==> report == []
  {
    assert SkillsOf([]) == {};
    assert ReportedSkills([]) == [];
    if IsReport([], report) && report != [] {
      LinesNeedMentions([], report);
    }
  }

  lemma LinesNeedMentions(mentions: seq<Mention>, report: seq<SkillMatch>)
    requires IsReport(mentions, report) && report != []
    ensures SkillsOf(mentions) != {}
  {
    assert ReportedSkills(report)[0] in Elements(ReportedSkills(report));
  }

  /** The instance: in a text that spells "Rust" with a long s nothing is found. */
  lemma ALongSIsLost(report: seq<SkillMatch>)
    ensures IsFinding(LONG_S_CASE, [RUST], LONG_RUST, report) <==> report == []
  {
    LongRustIsPassedOver([]);
    NothingExactInLongRust([]);
    NothingToReport(report);
    hide IsPass, IsReport;
    var none: seq<Mention> := [];
    assert none + none == none;
    if IsFinding(LONG_S_CASE, [RUST], LONG_RUST, report) {
      var first, second :| IsPass([RUST], LONG_S_CASE, LONG_RUST, first) && IsPass([RUST], Exact, LONG_RUST, second)
        && IsReport(first + second, report);
      LongRustIsPassedOver(first);
      NothingExactInLongRust(second);
    }
  }

  // ------------------------------------------------------------------ the order of the vocabulary

  predicate SameSkillOrName(e: VocabularyEntry, e': VocabularyEntry) {
    e.skillId == e'.skillId || e.canonicalName == e'.canonicalName
  }

  ghost predicate ShareKey(e: VocabularyEntry, e': VocabularyEntry, mode: Case) {
    exists key :: Claims(e, mode, key) && Claims(e', mode, key)
  }

  /** No term belongs to two entries, and no skill or name to two entries either. */
  ghost predicate ConflictFree(vocabulary: seq<VocabularyEntry>, casing: Case) {
    forall e, e' :: e in vocabulary && e' in vocabulary && InConflict(e, e', casing) ==> e == e'
  }

  ghost predicate InConflict(e: VocabularyEntry, e': VocabularyEntry, casing: Case) {
    ShareKey(e, e', casing) || ShareKey(e, e', Exact) || SameSkillOrName(e, e')
  }

  ghost predicate Unambiguous(mentions: seq<Mention>) {
    forall a, b :: a in mentions && b in mentions && SameSkillOrName(a.entry, b.entry) ==> a.entry == b.entry
  }

  ghost predicate SameEntries(v: seq<VocabularyEntry>, v': seq<VocabularyEntry>) {
    forall e :: e in v <==> e in v'
  }

  lemma PassesAgree(v: seq<VocabularyEntry>, v': seq<VocabularyEntry>, casing: Case, mode: Case, text: string,
                    mentions: seq<Mention>, mentions': seq<Mention>)
    requires SameEntries(v, v') && ConflictFree(v, casing) && (mode == casing || mode == Exact)
    requires IsPass(v, mode, text, mentions) && IsPass(v', mode, text, mentions')
    ensures mentions == mentions'
    ensures forall m :: m in mentions ==> m.entry in v
  {
    hide ConflictFree, IsScan, ResolvesTo, AreTerms, SameEntries;
    var spans :| Scans(v, mode, text, spans) && ResolvesTo(v, mode, text, spans, mentions);
    var spans' :| Scans(v', mode, text, spans') && ResolvesTo(v', mode, text, spans', mentions');
    var terms :| AreTerms(v, mode, terms) && IsScan(mode, text, Elements(terms), spans);
    var terms' :| AreTerms(v', mode, terms') && IsScan(mode, text, Elements(terms'), spans');
    SameTerms(v, v', mode, terms, terms');
    ScanIsUnique(mode, text, Elements(terms), Elements(terms'), spans, spans');
    SpansResolveAlike(v, v', casing, mode, text, spans, mentions, mentions');
  }

  lemma {:induction false} SpansResolveAlike(v: seq<VocabularyEntry>, v': seq<VocabularyEntry>, casing: Case,
                                             mode: Case, text: string, spans: seq<Span>, mentions: seq<Mention>,
                                             mentions': seq<Mention>)
    requires SameEntries(v, v') && ConflictFree(v, casing) && (mode == casing || mode == Exact)
    requires ResolvesTo(v, mode, text, spans, mentions) && ResolvesTo(v', mode, text, spans, mentions')
    ensures mentions == mentions'
    ensures forall m :: m in mentions ==> m.entry in v
  {
    hide ConflictFree, SpanIsClaimed, SameEntries, Resolves;
    if spans != [] {
      var n, k, k' := |spans| - 1, |mentions| - 1, |mentions'| - 1;
      SpansAreClaimedAlike(v, v', mode, text, spans[n]);
      if SpanIsClaimed(v, mode, text, spans[n]) {
        SpansResolveAlike(v, v', casing, mode, text, spans[..n], mentions[..k], mentions'[..k']);
        SpanResolvesAlike(v, v', casing, mode, text, spans[n], mentions[k], mentions'[k']);
        assert mentions == mentions[..k] + [mentions[k]] && mentions' == mentions'[..k'] + [mentions'[k']];
      } else {
        SpansResolveAlike(v, v', casing, mode, text, spans[..n], mentions, mentions');
      }
    }
  }

  lemma SpansAreClaimedAlike(v: seq<VocabularyEntry>, v': seq<VocabularyEntry>, mode: Case, text: string, span: Span)
    requires SameEntries(v, v')
    ensures SpanIsClaimed(v, mode, text, span) <==> SpanIsClaimed(v', mode, text, span)
  {
    hide Key, Claims;
  }

  lemma SpanResolvesAlike(v: seq<VocabularyEntry>, v': seq<VocabularyEntry>, casing: Case, mode: Case, text: string,
                          span: Span, m: Mention, m': Mention)
    requires SameEntries(v, v') && ConflictFree(v, casing) && (mode == casing || mode == Exact)
    requires Resolves(v, mode, text, span, m) && Resolves(v', mode, text, span, m')
    ensures m == m' && m.entry in v
  {
    hide Key, LastClaimant, ConflictFree, SameEntries;
    SameClaimant(v, v', casing, mode, Key(mode, m.matched), m.entry, m'.entry);
  }

  lemma SameClaimant(v: seq<VocabularyEntry>, v': seq<VocabularyEntry>, casing: Case, mode: Case, key: string,
                     e: VocabularyEntry, e': VocabularyEntry)
    requires SameEntries(v, v') && ConflictFree(v, casing) && (mode == casing || mode == Exact)
    requires LastClaimant(v, mode, key, e) && LastClaimant(v', mode, key, e')
    ensures e == e' && e in v
  {
    hide Claims;
    assert e in v && e' in v';
    assert ShareKey(e, e', mode);
    assert InConflict(e, e', casing);
  }

  lemma SameTerms(v: seq<VocabularyEntry>, v': seq<VocabularyEntry>, mode: Case, terms: seq<string>,
                  terms': seq<string>)
    requires SameEntries(v, v')
    requires AreTerms(v, mode, terms) && AreTerms(v', mode, terms')
    ensures SameFolded(mode, Elements(terms), Elements(terms'))
  {
    hide Fold, Strip;
    forall t
      ensures t in terms <==> t in terms'
    {
      assert IsTermOf(v, mode, t) <==> IsTermOf(v', mode, t);
    }
    assert Elements(terms) == Elements(terms');
  }

  /** A report is a function of the mentions once skills and names determine each other. */
  lemma ReportIsUnique(mentions: seq<Mention>, report: seq<SkillMatch>, report': seq<SkillMatch>)
    requires IsReport(mentions, report) && IsReport(mentions, report')
    requires Unambiguous(mentions)
    ensures report == report'
  {
    forall m, m' | m in report + report' && m' in report + report'
      && (m.skillId == m'.skillId || m.canonicalName == m'.canonicalName)
      ensures m == m'
    {
      assert Describes(mentions, m) && Describes(mentions, m');
      LinesAgree(mentions, m, m');
    }
    LinesOfBoth(mentions, report, report');
    LinesOfBoth(mentions, report', report);
    DistinctLines(report);
    DistinctLines(report');
    assert Elements(report) == Elements(report');
    DistinctPermutation(report, report');
    assert forall m :: m in report ==> m in report + report';
    assert Tieless(report, ReportOrder) by {
      forall a, b | a in report && b in report && ReportOrder(a, b) && ReportOrder(b, a)
        ensures a == b
      {
        TextLeqTotal(a.canonicalName, b.canonicalName);
      }
    }
    SortedUnique(report, report', ReportOrder);
  }

  lemma LinesAgree(mentions: seq<Mention>, m: SkillMatch, m': SkillMatch)
    requires Unambiguous(mentions)
    requires Describes(mentions, m) && Describes(mentions, m')
    requires m.skillId == m'.skillId || m.canonicalName == m'.canonicalName
    ensures m == m'
  {
    var e :| FirstEntry(mentions, m.skillId, e) && m.canonicalName == e.canonicalName;
    var e' :| FirstEntry(mentions, m'.skillId, e') && m'.canonicalName == e'.canonicalName;
    var i :| 0 <= i < |mentions| && mentions[i].entry == e && e.skillId == m.skillId;
    var j :| 0 <= j < |mentions| && mentions[j].entry == e' && e'.skillId == m'.skillId;
    assert mentions[i] in mentions && mentions[j] in mentions;
    TextOrder();
    DistinctPermutation(m.matchedTerms, m'.matchedTerms);
    SortedUnique(m.matchedTerms, m'.matchedTerms, TextLeq);
  }

  lemma LinesOfBoth(mentions: seq<Mention>, report: seq<SkillMatch>, report': seq<SkillMatch>)
    requires IsReport(mentions, report) && IsReport(mentions, report')
    requires forall m, m' :: m in report + report' && m' in report + report' && m.skillId == m'.skillId ==> m == m'
    ensures forall m :: m in report ==> m in report'
  {
    forall m | m in report
      ensures m in report'
    {
      var k :| 0 <= k < |report| && report[k] == m;
      assert ReportedSkills(report)[k] == m.skillId;
      assert m.skillId in Elements(ReportedSkills(report'));
      var j :| 0 <= j < |report'| && ReportedSkills(report')[j] == m.skillId;
      assert report'[j] in report + report' && m in report + report';
    }
  }

  lemma DistinctLines(report: seq<SkillMatch>)
    requires Distinct(ReportedSkills(report))
    ensures Distinct(report)
  {
    forall i, j | 0 <= i < j < |report|
      ensures report[i] != report[j]
    {
      assert ReportedSkills(report)[i] != ReportedSkills(report)[j];
    }
  }

  /** The order in which the vocabulary arrives leaves no trace in what is found. */
  lemma FindIgnoresVocabularyOrder(casing: Case, v: seq<VocabularyEntry>, v': seq<VocabularyEntry>, text: string,
                                   report: seq<SkillMatch>, report': seq<SkillMatch>)
    requires SameEntries(v, v') && ConflictFree(v, casing)
    requires IsFinding(casing, v, text, report) && IsFinding(casing, v', text, report')
    ensures report == report'
  {
    hide IsReport, IsPass;
    var first, second :| IsPass(v, casing, text, first) && IsPass(v, Exact, text, second)
      && IsReport(first + second, report);
    var first', second' :| IsPass(v', casing, text, first') && IsPass(v', Exact, text, second')
      && IsReport(first' + second', report');
    PassesAgree(v, v', casing, casing, text, first, first');
    PassesAgree(v, v', casing, Exact, text, second, second');
    MentionsAreUnambiguous(v, casing, first + second);
    ReportIsUnique(first + second, report, report');
  }

  lemma MentionsAreUnambiguous(v: seq<VocabularyEntry>, casing: Case, mentions: seq<Mention>)
    requires ConflictFree(v, casing) && forall m :: m in mentions ==> m.entry in v
    ensures Unambiguous(mentions)
  {
    hide ShareKey;
  }
}
