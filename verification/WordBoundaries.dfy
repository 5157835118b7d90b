/** What the matcher reports as its reader sees it: whole words, by code point, and the lines of a report. */
module WordBoundaries {
  import opened Common
  import opened Sorting
  import opened Text
  import opened SkillMatching
  import opened SkillMatcher
  import opened SkillMatcherLaws

  // ------------------------------------------------------------------ characters by code point

  /** An ASCII letter or digit, or the underscore. */
  predicate PartOfAWord(c: char) {
    var n := c as int;
    48 <= n <= 57 || 65 <= n <= 90 || n == 95 || 97 <= n <= 122
  }

  /** The same character, or in the pass that ignores case the same ASCII letter in the other case. */
  predicate SameLetter(exact: bool, a: char, b: char) {
    var m, n := a as int, b as int;
    || m == n
    || (!exact && ((65 <= m <= 90 && n == m + 32) || (65 <= n <= 90 && m == n + 32)))
  }

  /** The two case rules of ASCII text. */
  ghost predicate OnAscii(mode: Case) {
    mode == Exact || mode == ASCII_CASE
  }

  /** `term` stands at `start`, with no part of a word on either side. */
  predicate StandsAlone(exact: bool, text: string, term: string, start: nat) {
    && start + |term| <= |text|
    && (forall i :: 0 <= i < |term| ==> SameLetter(exact, text[start + i], term[i]))
    && (start > 0 ==> !PartOfAWord(text[start - 1]))
    && (start + |term| < |text| ==> !PartOfAWord(text[start + |term|]))
  }

  lemma AsciiRules(mode: Case)
    requires OnAscii(mode)
    ensures forall c :: InWord(mode, c) <==> PartOfAWord(c)
    ensures forall a, b :: Canon(mode, a) == Canon(mode, b) <==> SameLetter(mode.Exact?, a, b)
  {
    forall a, b
      ensures Canon(mode, a) == Canon(mode, b) <==> SameLetter(mode.Exact?, a, b)
    {
      LettersOfEitherCase(a, b);
    }
  }

  lemma LettersOfEitherCase(a: char, b: char)
    ensures LowerChar(a) == LowerChar(b) <==> SameLetter(false, a, b)
    ensures a == b <==> SameLetter(true, a, b)
  {
  }

  lemma OccursExactlyAlone(mode: Case, text: string, term: string, start: nat)
    requires OnAscii(mode)
    ensures OccursAt(mode, text, term, start) <==> StandsAlone(mode.Exact?, text, term, start)
  {
    AsciiRules(mode);
    if start + |term| <= |text| {
      var part := text[start..start + |term|];
      hide Canon, InWord, SameLetter, PartOfAWord;
      assert Fold(mode, part) == Fold(mode, term)
          <==> forall i :: 0 <= i < |term| ==> SameLetter(mode.Exact?, text[start + i], term[i]) by {
        FoldsAgree(mode, part, term);
        assert forall i :: 0 <= i < |term| ==> part[i] == text[start + i];
      }
    }
  }

  lemma FoldsAgree(mode: Case, a: string, b: string)
    requires |a| == |b|
    ensures Fold(mode, a) == Fold(mode, b) <==> forall i :: 0 <= i < |b| ==> Canon(mode, a[i]) == Canon(mode, b[i])
  {
    hide Canon;
    forall i | 0 <= i < |b|
      ensures Fold(mode, a)[i] == Canon(mode, a[i]) && Fold(mode, b)[i] == Canon(mode, b[i])
    {
    }
    if forall i :: 0 <= i < |b| ==> Canon(mode, a[i]) == Canon(mode, b[i]) {
      assert Fold(mode, a) == Fold(mode, b);
    }
  }

  /** On ASCII text two spellings are looked up alike if and only if they are the same but for case. */
  lemma KeysOfEitherCase(mode: Case, a: string, b: string)
    requires OnAscii(mode)
    ensures Key(mode, a) == Key(mode, b)
            <==> |a| == |b| && forall i :: 0 <= i < |a| ==> SameLetter(mode.Exact?, a[i], b[i])
  {
    if mode == Exact {
      assert forall i :: 0 <= i < |a| && |a| == |b| ==> (SameLetter(true, a[i], b[i]) <==> a[i] == b[i]);
      hide SameLetter;
    } else {
      LowerIsFold(a);
      LowerIsFold(b);
      AsciiRules(mode);
      if |a| == |b| {
        FoldsAgree(mode, a, b);
      }
      hide SameLetter, Canon, Lower, Fold;
    }
  }

  lemma LowerIsFold(a: string)
    ensures Lower(a) == Fold(ASCII_CASE, a)
  {
  }

  // ------------------------------------------------------------------ spans

  /** Whatever is reported is a term that stands alone: no letter, digit or underscore on either side. */
  lemma ReportedSpansStandAlone(mode: Case, text: string, terms: set<string>, spans: seq<Span>, i: nat)
      returns (term: string)
    requires OnAscii(mode) && IsScan(mode, text, terms, spans) && i < |spans|
    ensures term in terms && |term| == spans[i].end - spans[i].start && spans[i].end <= |text|
    ensures StandsAlone(mode.Exact?, text, term, spans[i].start)
    ensures spans[i].start > 0 ==> !PartOfAWord(text[spans[i].start - 1])
    ensures spans[i].end < |text| ==> !PartOfAWord(text[spans[i].end])
  {
    hide OccursAt, StandsAlone, PartOfAWord;
    assert IsHit(mode, text, terms, spans[i]);
    term :| term in terms && |term| == spans[i].end - spans[i].start && OccursAt(mode, text, term, spans[i].start);
    OccursExactlyAlone(mode, text, term, spans[i].start);
    AloneMeans(mode.Exact?, text, term, spans[i].start);
  }

  lemma AloneMeans(exact: bool, text: string, term: string, start: nat)
    requires StandsAlone(exact, text, term, start)
    ensures start + |term| <= |text|
    ensures start > 0 ==> !PartOfAWord(text[start - 1])
    ensures start + |term| < |text| ==> !PartOfAWord(text[start + |term|])
  {
    hide PartOfAWord;
  }

  /** And wherever a term stands alone a reported span begins there or reaches over that place, no shorter
      than the term if it begins there. */
  lemma StandingAloneIsReported(mode: Case, text: string, terms: set<string>, spans: seq<Span>, term: string,
                                start: nat)
      returns (i: nat)
    requires OnAscii(mode) && IsScan(mode, text, terms, spans)
    requires term in terms && term != "" && StandsAlone(mode.Exact?, text, term, start)
    ensures i < |spans| && spans[i].start <= start < spans[i].end
    ensures spans[i].start == start ==> start + |term| <= spans[i].end
  {
    OccursExactlyAlone(mode, text, term, start);
    AloneMeans(mode.Exact?, text, term, start);
    hide OccursAt, StandsAlone, IsHit;
    assert Covered(spans, start);
    i :| 0 <= i < |spans| && spans[i].start <= start < spans[i].end;
    assert IsLongest(mode, text, terms, spans[i]);
  }

  /** The terms of a pass, in the entries' own words: those listed by the entries it is for, without the
      white space around them, unless nothing is left. */
  lemma TermsAreTheListed(vocabulary: seq<VocabularyEntry>, mode: Case, term: string)
    ensures term in TermsOf(vocabulary, mode)
            <==> && term != ""
                 && exists e, t :: && e in vocabulary && (e.requiresExactCase <==> mode == Exact)
                                   && t in e.terms && Strip(t) == term
  {
    hide Strip;
  }

  /** Both directions for what `find` scans. */
  lemma PassesReportWholeWords(vocabulary: seq<VocabularyEntry>, mode: Case, text: string, spans: seq<Span>)
    requires OnAscii(mode) && Scans(vocabulary, mode, text, spans)
    ensures forall i :: 0 <= i < |spans| ==>
              && spans[i].start < spans[i].end <= |text|
              && (spans[i].start > 0 ==> !PartOfAWord(text[spans[i].start - 1]))
              && (spans[i].end < |text| ==> !PartOfAWord(text[spans[i].end]))
    ensures forall term :: term in TermsOf(vocabulary, mode) ==>
              forall start: nat :: StandsAlone(mode.Exact?, text, term, start) ==>
                exists i :: 0 <= i < |spans| && spans[i].start <= start < spans[i].end
  {
    var terms :| AreTerms(vocabulary, mode, terms) && IsScan(mode, text, Elements(terms), spans);
    TermsAreTheirs(vocabulary, mode, terms);
    hide AreTerms, IsScan, TermsOf, StandsAlone, PartOfAWord;
    forall i | 0 <= i < |spans|
      ensures spans[i].start < spans[i].end <= |text|
      ensures spans[i].start > 0 ==> !PartOfAWord(text[spans[i].start - 1])
      ensures spans[i].end < |text| ==> !PartOfAWord(text[spans[i].end])
    {
      SpanIsInside(mode, text, Elements(terms), spans, i);
      var term := ReportedSpansStandAlone(mode, text, Elements(terms), spans, i);
    }
    forall term, start: nat | term in TermsOf(vocabulary, mode) && StandsAlone(mode.Exact?, text, term, start)
      ensures exists i :: 0 <= i < |spans| && spans[i].start <= start < spans[i].end
    {
      TermsAreTheListed(vocabulary, mode, term);
      var i := StandingAloneIsReported(mode, text, Elements(terms), spans, term, start);
    }
  }

  const GO := VocabularyEntry("go", "Go", ["Go"], true)

  lemma GoIsTheTerm()
    ensures AreTerms([GO], Exact, ["Go"]) && AreTerms([GO], ASCII_CASE, [])
  {
    assert Strip("Go") == "Go" && GO in [GO] && "Go" in GO.terms;
    hide Strip;
  }

  /** The instance: "Google" is not Go. */
  lemma NoGoInGoogle(report: seq<SkillMatch>)
    ensures IsFinding(ASCII_CASE, [GO], "Google", report) <==> report == []
  {
    NoPassOverGoogle(Exact);
    NoPassOverGoogle(ASCII_CASE);
    NothingToReport(report);
    hide IsPass, IsReport;
    var none: seq<Mention> := [];
    assert none + none == none;
    assert IsPass([GO], Exact, "Google", none) && IsPass([GO], ASCII_CASE, "Google", none);
  }

  lemma NoPassOverGoogle(mode: Case)
    requires OnAscii(mode)
    ensures forall mentions :: IsPass([GO], mode, "Google", mentions) <==> mentions == []
  {
    GoIsTheTerm();
    var terms := if mode == Exact then ["Go"] else [];
    assert AreTerms([GO], mode, terms);
    TermsAreTheirs([GO], mode, terms);
    hide AreTerms, TermsOf, OccursAt, StandsAlone;
    forall p: nat, term | term in Elements(terms)
      ensures !OccursAt(mode, "Google", term, p)
    {
      OccursExactlyAlone(mode, "Google", term, p);
      GoNeverAlone(p);
    }
    assert IsScan(mode, "Google", Elements(terms), []);
    assert Scans([GO], mode, "Google", []);
    forall spans: seq<Span> | Scans([GO], mode, "Google", spans)
      ensures spans == []
    {
      var ts :| AreTerms([GO], mode, ts) && IsScan(mode, "Google", Elements(ts), spans);
      TermsAreTheirs([GO], mode, ts);
      if spans != [] {
        SpanOccurs(mode, "Google", Elements(ts), spans);
      }
    }
    hide Scans, IsScan;
  }

  lemma SpanOccurs(mode: Case, text: string, terms: set<string>, spans: seq<Span>)
    requires IsScan(mode, text, terms, spans) && spans != []
    ensures exists term, p: nat :: term in terms && OccursAt(mode, text, term, p)
  {
    hide OccursAt;
    assert IsHit(mode, text, terms, spans[0]);
  }

  lemma GoNeverAlone(p: nat)
    ensures !StandsAlone(true, "Google", "Go", p)
  {
    if p == 0 {
      assert "Google"[2] == 'o';
    } else if p + 2 <= 6 {
      assert "Go"[0] == 'G' && "Google"[p] != 'G';
      assert !SameLetter(true, "Google"[p + 0], "Go"[0]);
    }
  }

  // ------------------------------------------------------------------ reports

  /** A mention belongs to the last entry of its pass that lists a term with the same key. */
  lemma TheLastListedWins(vocabulary: seq<VocabularyEntry>, mode: Case, text: string, span: Span, m: Mention)
      returns (i: nat)
    requires Resolves(vocabulary, mode, text, span, m)
    ensures span.start <= span.end <= |text| && m.matched == text[span.start..span.end]
    ensures i < |vocabulary| && vocabulary[i] == m.entry && (m.entry.requiresExactCase <==> mode == Exact)
    ensures exists t :: t in m.entry.terms && Strip(t) != "" && Key(mode, Strip(t)) == Key(mode, m.matched)
    ensures forall j :: i < j < |vocabulary| && (vocabulary[j].requiresExactCase <==> mode == Exact) ==>
              forall t :: t in vocabulary[j].terms && Strip(t) != "" ==> Key(mode, Strip(t)) != Key(mode, m.matched)
  {
    hide Key, Strip;
    var key := Key(mode, m.matched);
    i :| && 0 <= i < |vocabulary| && vocabulary[i] == m.entry && Claims(m.entry, mode, key)
         && forall j :: i < j < |vocabulary| ==> !Claims(vocabulary[j], mode, key);
    forall j, t | i < j < |vocabulary| && (vocabulary[j].requiresExactCase <==> mode == Exact)
      && t in vocabulary[j].terms && Strip(t) != ""
      ensures Key(mode, Strip(t)) != key
    {
      assert !Claims(vocabulary[j], mode, key);
      assert !Lists(t, mode, key);
    }
  }

  /** The places at which a skill is mentioned. */
  ghost function PlacesOf(mentions: seq<Mention>, s: SkillId): set<int> {
    set i | 0 <= i < |mentions| && mentions[i].entry.skillId == s
  }

  lemma {:induction false} CountsArePlaces(mentions: seq<Mention>, s: SkillId)
    ensures CountOf(mentions, s) == |PlacesOf(mentions, s)|
  {
    if mentions != [] {
      CountsArePlaces(mentions[..|mentions| - 1], s);
      OneMorePlace(mentions, s);
      hide PlacesOf;
    }
  }

  lemma OneMorePlace(mentions: seq<Mention>, s: SkillId)
    requires mentions != []
    ensures var n := |mentions| - 1;
            && n !in PlacesOf(mentions[..n], s)
            && PlacesOf(mentions, s)
               == PlacesOf(mentions[..n], s) + (if mentions[n].entry.skillId == s then {n} else {})
  {
  }

  /** What a line says: the skill is mentioned, as often as it says, in exactly these texts; it bears the
      name of the entry mentioned first. */
  ghost predicate LineReads(mentions: seq<Mention>, line: SkillMatch) {
    && line.occurrences == |PlacesOf(mentions, line.skillId)|
    && Alphabetical(line.matchedTerms) && Distinct(line.matchedTerms)
    && (forall text :: text in line.matchedTerms <==>
          exists i :: i in PlacesOf(mentions, line.skillId) && mentions[i].matched == text)
    && exists i :: && i in PlacesOf(mentions, line.skillId) && mentions[i].entry.canonicalName == line.canonicalName
                   && forall j :: j in PlacesOf(mentions, line.skillId) ==> i <= j
  }

  lemma LinesRead(mentions: seq<Mention>, line: SkillMatch)
    requires Describes(mentions, line)
    ensures LineReads(mentions, line)
  {
    var s := line.skillId;
    CountsArePlaces(mentions, s);
    SortedTextsAreAlphabetical(line.matchedTerms);
    hide Alphabetical, Sorted, CountOf, TextLeq;
    forall text
      ensures text in line.matchedTerms <==> exists i :: i in PlacesOf(mentions, s) && mentions[i].matched == text
    {
      assert text in line.matchedTerms <==> text in TextsOf(mentions, s);
      if i :| i in PlacesOf(mentions, s) && mentions[i].matched == text {
        assert mentions[i] in mentions;
      }
    }
    var e :| FirstEntry(mentions, s, e) && line.canonicalName == e.canonicalName;
    var i :| && 0 <= i < |mentions| && mentions[i].entry == e && e.skillId == s
             && forall j :: 0 <= j < i ==> mentions[j].entry.skillId != s;
    assert i in PlacesOf(mentions, s);
  }

  /** A report has one such line for each mentioned skill, the most mentioned first, and of equally often
      mentioned ones the alphabetically first. */
  lemma ReportReads(mentions: seq<Mention>, report: seq<SkillMatch>)
    requires IsReport(mentions, report)
    ensures forall k :: 0 <= k < |report| ==> LineReads(mentions, report[k])
    ensures forall k, l :: 0 <= k < l < |report| ==>
              && report[k].skillId != report[l].skillId
              && (report[k].occurrences > report[l].occurrences
                  || (report[k].occurrences == report[l].occurrences
                      && NoLater(report[k].canonicalName, report[l].canonicalName)))
    ensures forall m :: m in mentions ==> exists k :: 0 <= k < |report| && report[k].skillId == m.entry.skillId
  {
    hide LineReads, Describes;
    forall k | 0 <= k < |report|
      ensures LineReads(mentions, report[k])
    {
      assert report[k] in report;
      LinesRead(mentions, report[k]);
    }
    forall k, l | 0 <= k < l < |report|
      ensures report[k].skillId != report[l].skillId
      ensures report[k].occurrences > report[l].occurrences
              || (report[k].occurrences == report[l].occurrences
                  && NoLater(report[k].canonicalName, report[l].canonicalName))
    {
      assert ReportedSkills(report)[k] != ReportedSkills(report)[l];
      assert ReportOrder(report[k], report[l]);
      TextLeqMeans(report[k].canonicalName, report[l].canonicalName);
    }
    forall m | m in mentions
      ensures exists k :: 0 <= k < |report| && report[k].skillId == m.entry.skillId
    {
      assert m.entry.skillId in Elements(ReportedSkills(report));
      var k :| 0 <= k < |report| && ReportedSkills(report)[k] == m.entry.skillId;
    }
  }
}
