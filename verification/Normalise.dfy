/** The text tidying that every resume goes through (backend/app/services/extraction.py, lines 27-64). */
module Normalise {
  import opened Text

  const NO_BREAK_SPACE: char := '\U{A0}'
  const SOFT_HYPHEN: char := '\U{AD}'

  predicate IsBlank(c: char) {
    c == ' ' || c == '\t'
  }

  // ----- The replacements, in the order they are made -----

  /** "\r\n" and then any other "\r" become "\n". */
  function UnifyNewlines(s: string): string {
    if s == [] then []
    else if s[0] == '\r' then
      "\n" + UnifyNewlines(if |s| > 1 && s[1] == '\n' then s[2..] else s[1..])
    else [s[0]] + UnifyNewlines(s[1..])
  }

  /** Non-breaking spaces become spaces and soft hyphens go. */
  function PlainCharacters(s: string): string {
    if s == [] then []
    else (if s[0] == NO_BREAK_SPACE then " " else if s[0] == SOFT_HYPHEN then "" else [s[0]]) + PlainCharacters(s[1..])
  }

  function DropBlanks(s: string): (r: string)
    ensures |r| <= |s|
    ensures r == [] || !IsBlank(r[0])
  {
    if s == [] || !IsBlank(s[0]) then s else DropBlanks(s[1..])
  }

  function DropNewlines(s: string): (r: string)
    ensures |r| <= |s|
    ensures r == [] || r[0] != '\n'
  {
    if s == [] || s[0] != '\n' then s else DropNewlines(s[1..])
  }

  /** The pattern [ \t]{2,} becomes one space. */
  function CollapseBlanks(s: string): string
    decreases |s|
  {
    if s == [] then []
    else if |s| > 1 && IsBlank(s[0]) && IsBlank(s[1]) then " " + CollapseBlanks(DropBlanks(s[2..]))
    else [s[0]] + CollapseBlanks(s[1..])
  }

  predicate AtLineEnd(s: string) {
    s == [] || s[0] == '\n'
  }

  /** The pattern [ \t]+(\n|$) becomes its group: blanks that only a line end follows are dropped. */
  function TrimLines(s: string): string {
    if s == [] then []
    else if IsBlank(s[0]) && AtLineEnd(DropBlanks(s)) then TrimLines(s[1..])
    else [s[0]] + TrimLines(s[1..])
  }

  /** The pattern \n{3,} becomes two newlines. */
  function CapNewlines(s: string): string
    decreases |s|
  {
    if s == [] then []
    else if |s| > 2 && s[0] == '\n' && s[1] == '\n' && s[2] == '\n' then "\n\n" + CapNewlines(DropNewlines(s[3..]))
    else [s[0]] + CapNewlines(s[1..])
  }

  function Normalise(text: string): string {
    Strip(CapNewlines(TrimLines(CollapseBlanks(PlainCharacters(UnifyNewlines(text))))))
  }

  // ----- What a tidy text is -----

  predicate IsPlain(s: string) {
    forall i :: 0 <= i < |s| ==> s[i] != '\r' && s[i] != NO_BREAK_SPACE && s[i] != SOFT_HYPHEN
  }

  predicate NoDoubleBlank(s: string) {
    forall i :: 0 <= i < |s| - 1 && IsBlank(s[i]) ==> !IsBlank(s[i + 1])
  }

  predicate NoBlankBeforeNewline(s: string) {
    forall i :: 0 <= i < |s| - 1 && IsBlank(s[i]) ==> s[i + 1] != '\n'
  }

  predicate NoTripleNewline(s: string) {
    forall i :: 0 <= i < |s| - 2 && s[i] == '\n' && s[i + 1] == '\n' ==> s[i + 2] != '\n'
  }

  predicate NoSpaceAtEnds(s: string) {
    s == [] || (!IsSpace(s[0]) && !IsSpace(s[|s| - 1]))
  }

  predicate Tidy(s: string) {
    IsPlain(s) && NoDoubleBlank(s) && NoBlankBeforeNewline(s) && NoTripleNewline(s) && NoSpaceAtEnds(s)
  }

  // ----- Each pass establishes its own condition and keeps the earlier ones -----

  lemma {:induction false} UnifiedHasNoReturn(s: string)
    ensures '\r' !in UnifyNewlines(s)
  {
    if s != [] {
      UnifiedHasNoReturn(s[1..]);
      if |s| > 1 { UnifiedHasNoReturn(s[2..]); }
    }
  }

  lemma {:induction false} PlainCharactersArePlain(s: string)
    requires '\r' !in s
    ensures IsPlain(PlainCharacters(s))
  {
    if s != [] { PlainCharactersArePlain(s[1..]); }
  }

  lemma {:induction false} DropBlanksIsASuffix(s: string)
    ensures DropBlanks(s) == s[|s| - |DropBlanks(s)|..]
  {
    if s != [] && IsBlank(s[0]) { DropBlanksIsASuffix(s[1..]); }
  }

  lemma {:induction false} DropNewlinesIsASuffix(s: string)
    ensures DropNewlines(s) == s[|s| - |DropNewlines(s)|..]
  {
    if s != [] && s[0] == '\n' { DropNewlinesIsASuffix(s[1..]); }
  }

  lemma {:induction false} CollapsedHasNoDoubleBlank(s: string)
    requires IsPlain(s)
    ensures IsPlain(CollapseBlanks(s)) && NoDoubleBlank(CollapseBlanks(s))
    ensures s != [] ==> CollapseBlanks(s) != [] && IsBlank(CollapseBlanks(s)[0]) == IsBlank(s[0])
    decreases |s|
  {
    if s != [] {
      if |s| > 1 && IsBlank(s[0]) && IsBlank(s[1]) {
        DropBlanksIsASuffix(s[2..]);
        CollapsedHasNoDoubleBlank(DropBlanks(s[2..]));
      } else {
        CollapsedHasNoDoubleBlank(s[1..]);
      }
    }
  }

  lemma {:induction false} TrimmedHasNoTrailingBlank(s: string)
    requires IsPlain(s) && NoDoubleBlank(s)
    ensures IsPlain(TrimLines(s)) && NoDoubleBlank(TrimLines(s)) && NoBlankBeforeNewline(TrimLines(s))
    ensures s != [] && !IsBlank(s[0]) ==> TrimLines(s) != [] && TrimLines(s)[0] == s[0]
    ensures AtLineEnd(s) ==> AtLineEnd(TrimLines(s))
  {
    if s != [] {
      TrimmedHasNoTrailingBlank(s[1..]);
    }
  }

  // A line or two more at the front of a text that is fine.

  lemma OneMorePlain(c: char, s: string)
    requires IsPlain(s) && c != '\r' && c != NO_BREAK_SPACE && c != SOFT_HYPHEN
    ensures IsPlain([c] + s)
  {
  }

  lemma OneMoreBlank(c: char, s: string)
    requires NoDoubleBlank(s) && (IsBlank(c) && s != [] ==> !IsBlank(s[0]))
    ensures NoDoubleBlank([c] + s)
  {
    forall i | 0 <= i < |s| && IsBlank(([c] + s)[i])
      ensures !IsBlank(([c] + s)[i + 1])
    {
      assert i > 0 ==> ([c] + s)[i] == s[i - 1];
    }
  }

  lemma OneMoreBeforeNewline(c: char, s: string)
    requires NoBlankBeforeNewline(s) && (IsBlank(c) && s != [] ==> s[0] != '\n')
    ensures NoBlankBeforeNewline([c] + s)
  {
    forall i | 0 <= i < |s| && IsBlank(([c] + s)[i])
      ensures ([c] + s)[i + 1] != '\n'
    {
      assert i > 0 ==> ([c] + s)[i] == s[i - 1];
    }
  }

  lemma OneMoreNewline(c: char, s: string)
    requires NoTripleNewline(s) && (c == '\n' && |s| > 1 && s[0] == '\n' ==> s[1] != '\n')
    ensures NoTripleNewline([c] + s)
  {
    var r := [c] + s;
    forall i | 0 <= i < |r| - 2 && r[i] == '\n' && r[i + 1] == '\n'
      ensures r[i + 2] != '\n'
    {
      assert i > 0 ==> r[i] == s[i - 1] && r[i + 1] == s[i] && r[i + 2] == s[i + 1];
    }
  }

  /** Three newlines start the text, so that some are dropped. */
  predicate StartsTriple(s: string) {
    |s| > 2 && s[0] == '\n' && s[1] == '\n' && s[2] == '\n'
  }

  lemma CapUnfolds(s: string)
    ensures StartsTriple(s) ==> CapNewlines(s) == ['\n'] + (['\n'] + CapNewlines(DropNewlines(s[3..])))
    ensures s != [] && !StartsTriple(s) ==> CapNewlines(s) == [s[0]] + CapNewlines(s[1..])
  {
  }

  /** What a capped text starts with. */
  lemma CappedStart(s: string)
    ensures (s == [] <==> CapNewlines(s) == []) && (s != [] ==> CapNewlines(s)[0] == s[0])
    ensures |s| > 1 && |CapNewlines(s)| > 1 && s[0] == '\n' && CapNewlines(s)[1] == '\n' ==> s[1] == '\n'
  {
    CapUnfolds(s);
    if s != [] && !StartsTriple(s) {
      CapUnfolds(s[1..]);
    }
  }

  ghost predicate TidyLines(s: string) {
    IsPlain(s) && NoDoubleBlank(s) && NoBlankBeforeNewline(s)
  }

  lemma SuffixHasTidyLines(s: string, i: nat)
    requires i <= |s| && TidyLines(s)
    ensures TidyLines(s[i..])
  {
  }

  lemma {:induction false} CappedKeepsTidyLines(s: string)
    requires TidyLines(s)
    ensures TidyLines(CapNewlines(s))
    decreases |s|
  {
    CapUnfolds(s);
    if StartsTriple(s) {
      var rest := DropNewlines(s[3..]);
      DropNewlinesIsASuffix(s[3..]);
      SuffixHasTidyLines(s, |s| - |rest|);
      assert rest == s[|s| - |rest|..];
      hide CapNewlines, DropNewlines, TidyLines;
      CappedKeepsTidyLines(rest);
      PrependTidyLine('\n', CapNewlines(rest));
      PrependTidyLine('\n', ['\n'] + CapNewlines(rest));
    } else if s != [] {
      SuffixHasTidyLines(s, 1);
      CappedStart(s[1..]);
      assert s[0] != '\r' && s[0] != NO_BREAK_SPACE && s[0] != SOFT_HYPHEN;
      assert IsBlank(s[0]) && |s| > 1 ==> !IsBlank(s[1]) && s[1] != '\n';
      hide CapNewlines, TidyLines;
      CappedKeepsTidyLines(s[1..]);
      PrependTidyLine(s[0], CapNewlines(s[1..]));
    }
  }

  lemma PrependTidyLine(c: char, s: string)
    requires TidyLines(s)
    requires c != '\r' && c != NO_BREAK_SPACE && c != SOFT_HYPHEN
    requires IsBlank(c) && s != [] ==> !IsBlank(s[0]) && s[0] != '\n'
    ensures TidyLines([c] + s)
  {
    OneMorePlain(c, s);
    OneMoreBlank(c, s);
    OneMoreBeforeNewline(c, s);
  }

  lemma {:induction false} CappedHasNoTripleNewline(s: string)
    ensures NoTripleNewline(CapNewlines(s))
    decreases |s|
  {
    CapUnfolds(s);
    if StartsTriple(s) {
      var rest := DropNewlines(s[3..]);
      CappedHasNoTripleNewline(rest);
      CappedStart(rest);
      hide CapNewlines, DropNewlines;
      OneMoreNewline('\n', CapNewlines(rest));
      OneMoreNewline('\n', ['\n'] + CapNewlines(rest));
    } else if s != [] {
      CappedHasNoTripleNewline(s[1..]);
      CappedStart(s[1..]);
      hide CapNewlines;
      OneMoreNewline(s[0], CapNewlines(s[1..]));
    }
  }

  lemma {:induction false} StripLeftIsASuffix(s: string)
    ensures |StripLeft(s)| <= |s| && StripLeft(s) == s[|s| - |StripLeft(s)|..]
  {
    if s != [] && IsSpace(s[0]) { StripLeftIsASuffix(s[1..]); }
  }

  lemma SlicesStayTidy(s: string, i: nat, j: nat)
    requires i <= j <= |s|
    requires IsPlain(s) && NoDoubleBlank(s) && NoBlankBeforeNewline(s) && NoTripleNewline(s)
    ensures var r := s[i..j];
            IsPlain(r) && NoDoubleBlank(r) && NoBlankBeforeNewline(r) && NoTripleNewline(r)
  {
  }

  /** Whatever goes in, what comes out is tidy. */
  lemma NormalisedIsTidy(text: string)
    ensures Tidy(Normalise(text))
  {
    var unified := UnifyNewlines(text);
    var plain := PlainCharacters(unified);
    var collapsed := CollapseBlanks(plain);
    var trimmed := TrimLines(collapsed);
    var capped := CapNewlines(trimmed);
    hide UnifyNewlines, PlainCharacters, CollapseBlanks, TrimLines, CapNewlines, StripLeft, StripRight, IsSpace,
      IsPlain, NoDoubleBlank, NoBlankBeforeNewline, NoTripleNewline;
    UnifiedHasNoReturn(text);
    PlainCharactersArePlain(unified);
    CollapsedHasNoDoubleBlank(plain);
    TrimmedHasNoTrailingBlank(collapsed);
    CappedKeepsTidyLines(trimmed);
    CappedHasNoTripleNewline(trimmed);
    StripLeftIsASuffix(capped);
    var r := Strip(capped);
    var k := |capped| - |StripLeft(capped)|;
    assert r == capped[k..k + |r|];
    SlicesStayTidy(capped, k, k + |r|);
  }

  // ----- A tidy text is left alone -----

  lemma {:induction false} PlainTextStaysPlain(s: string)
    requires IsPlain(s)
    ensures UnifyNewlines(s) == s && PlainCharacters(s) == s
  {
    if s != [] { PlainTextStaysPlain(s[1..]); }
  }

  lemma {:induction false} NothingToCollapse(s: string)
    requires NoDoubleBlank(s)
    ensures CollapseBlanks(s) == s
  {
    if s != [] { NothingToCollapse(s[1..]); }
  }

  lemma {:induction false} NothingToTrim(s: string)
    requires NoDoubleBlank(s) && NoBlankBeforeNewline(s)
    requires s == [] || !IsBlank(s[|s| - 1])
    ensures TrimLines(s) == s
  {
    if s != [] {
      if IsBlank(s[0]) {
        assert DropBlanks(s) == s[1..];
      }
      NothingToTrim(s[1..]);
    }
  }

  lemma {:induction false} NothingToCap(s: string)
    requires NoTripleNewline(s)
    ensures CapNewlines(s) == s
  {
    if s != [] { NothingToCap(s[1..]); }
  }

  /** The tidy texts are exactly those the function leaves as they are. */
  lemma FixedExactlyWhenTidy(text: string)
    ensures Normalise(text) == text <==> Tidy(text)
  {
    NormalisedIsTidy(text);
    if Tidy(text) {
      PlainTextStaysPlain(text);
      NothingToCollapse(text);
      NothingToTrim(text);
      NothingToCap(text);
    }
  }

  /** Tidying twice is tidying once. */
  lemma NormaliseIsIdempotent(text: string)
    ensures Normalise(Normalise(text)) == Normalise(text)
  {
    NormalisedIsTidy(text);
    FixedExactlyWhenTidy(Normalise(text));
  }

  // ----- What the tidying keeps -----

  /** The characters that are not white space, in order. */
  function Ink(s: string): string {
    if s == [] then []
    else (if IsSpace(s[0]) then "" else [s[0]]) + Ink(s[1..])
  }

  function WithoutSoftHyphens(s: string): string {
    if s == [] then []
    else (if s[0] == SOFT_HYPHEN then "" else [s[0]]) + WithoutSoftHyphens(s[1..])
  }

  /** How far apart two neighbouring characters are: touching, in one line, a line apart, a paragraph apart. */
  datatype Gap = Margin | Touching | SameLine | NextLine | NextParagraph {
    function AfterNewline(): Gap {
      match this
      case Margin => Margin
      case Touching => NextLine
      case SameLine => NextLine
      case NextLine => NextParagraph
      case NextParagraph => NextParagraph
    }

    function AfterSpace(): Gap {
      if Touching? then SameLine else this
    }
  }

  /** The ink of a text with the gap before each character: what a reader of the page sees. */
  function Layout(s: string, gap: Gap): seq<(Gap, char)> {
    if s == [] then []
    else if s[0] == '\n' then Layout(s[1..], gap.AfterNewline())
    else if IsSpace(s[0]) then Layout(s[1..], gap.AfterSpace())
    else [(gap, s[0])] + Layout(s[1..], Touching)
  }

  lemma {:induction false} BlanksWidenOnce(s: string, gap: Gap)
    ensures Layout(DropBlanks(s), gap.AfterSpace()) == Layout(s, gap.AfterSpace())
  {
    if s != [] && IsBlank(s[0]) {
      BlanksWidenOnce(s[1..], gap);
    }
  }

  lemma {:induction false} NewlinesWidenTwice(s: string, gap: Gap)
    requires gap == gap.AfterNewline()
    ensures Layout(DropNewlines(s), gap) == Layout(s, gap)
  {
    if s != [] && s[0] == '\n' {
      NewlinesWidenTwice(s[1..], gap);
    }
  }

  lemma {:induction false} BlanksBeforeALineEnd(s: string, gap: Gap)
    requires AtLineEnd(DropBlanks(s))
    ensures Layout(s, gap.AfterSpace()) == Layout(s, gap)
  {
    if s != [] && IsBlank(s[0]) {
      BlanksBeforeALineEnd(s[1..], gap);
    }
  }

  lemma {:induction false} CollapseKeepsLayout(s: string, gap: Gap)
    ensures Layout(CollapseBlanks(s), gap) == Layout(s, gap)
    decreases |s|
  {
    if s != [] {
      if |s| > 1 && IsBlank(s[0]) && IsBlank(s[1]) {
        var rest := DropBlanks(s[2..]);
        CollapseKeepsLayout(rest, gap.AfterSpace());
        BlanksWidenOnce(s[2..], gap);
        assert s[1..][1..] == s[2..];
        assert CollapseBlanks(s)[1..] == CollapseBlanks(rest);
      } else {
        assert CollapseBlanks(s)[1..] == CollapseBlanks(s[1..]);
        CollapseKeepsLayout(s[1..], gap.AfterNewline());
        CollapseKeepsLayout(s[1..], gap.AfterSpace());
        CollapseKeepsLayout(s[1..], Touching);
      }
    }
  }

  lemma {:induction false} TrimKeepsLayout(s: string, gap: Gap)
    ensures Layout(TrimLines(s), gap) == Layout(s, gap)
  {
    if s != [] {
      if IsBlank(s[0]) && AtLineEnd(DropBlanks(s)) {
        TrimKeepsLayout(s[1..], gap);
        BlanksBeforeALineEnd(s[1..], gap);
      } else {
        assert TrimLines(s)[1..] == TrimLines(s[1..]);
        TrimKeepsLayout(s[1..], gap.AfterNewline());
        TrimKeepsLayout(s[1..], gap.AfterSpace());
        TrimKeepsLayout(s[1..], Touching);
      }
    }
  }

  lemma TwoNewlines(s: string, gap: Gap)
    requires |s| > 1 && s[0] == '\n' && s[1] == '\n'
    ensures Layout(s, gap) == Layout(s[2..], gap.AfterNewline().AfterNewline())
  {
    assert s[1..][1..] == s[2..];
  }

  lemma {:induction false} CapKeepsLayout(s: string, gap: Gap)
    ensures Layout(CapNewlines(s), gap) == Layout(s, gap)
    decreases |s|
  {
    if s != [] {
      if |s| > 2 && s[0] == '\n' && s[1] == '\n' && s[2] == '\n' {
        var rest := DropNewlines(s[3..]);
        var wide := gap.AfterNewline().AfterNewline();
        CapKeepsLayout(rest, wide);
        NewlinesWidenTwice(s[3..], wide);
        TwoNewlines(CapNewlines(s), gap);
        TwoNewlines(s, gap);
        assert CapNewlines(s)[2..] == CapNewlines(rest);
        assert Layout(s[2..], wide) == Layout(s[2..][1..], wide.AfterNewline()) && s[2..][1..] == s[3..];
      } else {
        assert CapNewlines(s)[1..] == CapNewlines(s[1..]);
        CapKeepsLayout(s[1..], gap.AfterNewline());
        CapKeepsLayout(s[1..], gap.AfterSpace());
        CapKeepsLayout(s[1..], Touching);
      }
    }
  }

  lemma {:induction false} StripLeftKeepsLayout(s: string)
    ensures Layout(StripLeft(s), Margin) == Layout(s, Margin)
  {
    if s != [] && IsSpace(s[0]) { StripLeftKeepsLayout(s[1..]); }
  }

  lemma {:induction false} LastSpaceIsUnseen(s: string, gap: Gap)
    requires s != [] && IsSpace(s[|s| - 1])
    ensures Layout(s[..|s| - 1], gap) == Layout(s, gap)
  {
    if |s| > 1 {
      assert s[..|s| - 1][1..] == s[1..][..|s| - 2];
      LastSpaceIsUnseen(s[1..], gap.AfterNewline());
      LastSpaceIsUnseen(s[1..], gap.AfterSpace());
      LastSpaceIsUnseen(s[1..], Touching);
    }
  }

  lemma {:induction false} StripRightKeepsLayout(s: string, gap: Gap)
    ensures Layout(StripRight(s), gap) == Layout(s, gap)
  {
    if s != [] && IsSpace(s[|s| - 1]) {
      LastSpaceIsUnseen(s, gap);
      StripRightKeepsLayout(s[..|s| - 1], gap);
    }
  }

  lemma {:induction false} PlainKeepsLayout(s: string, gap: Gap)
    ensures Layout(PlainCharacters(s), gap) == Layout(WithoutSoftHyphens(s), gap)
  {
    if s != [] {
      if s[0] == SOFT_HYPHEN {
        PlainKeepsLayout(s[1..], gap);
        assert PlainCharacters(s) == PlainCharacters(s[1..]);
        assert WithoutSoftHyphens(s) == WithoutSoftHyphens(s[1..]);
      } else {
        assert PlainCharacters(s)[1..] == PlainCharacters(s[1..]);
        assert WithoutSoftHyphens(s)[1..] == WithoutSoftHyphens(s[1..]) && WithoutSoftHyphens(s)[0] == s[0];
        PlainKeepsLayout(s[1..], gap.AfterNewline());
        PlainKeepsLayout(s[1..], gap.AfterSpace());
        PlainKeepsLayout(s[1..], Touching);
      }
    }
  }

  /**
   * Structure survives: once line ends are written one way and soft hyphens are out, the tidying keeps every
   * visible character, every word boundary, every line break between words and every paragraph break.
   */
  lemma LayoutIsKept(text: string)
    ensures Layout(Normalise(text), Margin) == Layout(WithoutSoftHyphens(UnifyNewlines(text)), Margin)
  {
    var unified := UnifyNewlines(text);
    var plain := PlainCharacters(unified);
    var collapsed := CollapseBlanks(plain);
    var trimmed := TrimLines(collapsed);
    var capped := CapNewlines(trimmed);
    PlainKeepsLayout(unified, Margin);
    CollapseKeepsLayout(plain, Margin);
    TrimKeepsLayout(collapsed, Margin);
    CapKeepsLayout(trimmed, Margin);
    StripLeftKeepsLayout(capped);
    StripRightKeepsLayout(StripLeft(capped), Margin);
  }

  function Characters(layout: seq<(Gap, char)>): string {
    if layout == [] then [] else [layout[0].1] + Characters(layout[1..])
  }

  lemma {:induction false} LayoutShowsTheInk(s: string, gap: Gap)
    ensures Characters(Layout(s, gap)) == Ink(s)
  {
    if s != [] {
      LayoutShowsTheInk(s[1..], gap.AfterNewline());
      LayoutShowsTheInk(s[1..], gap.AfterSpace());
      LayoutShowsTheInk(s[1..], Touching);
      if !IsSpace(s[0]) {
        assert Layout(s, gap)[1..] == Layout(s[1..], Touching);
      }
    }
  }

  /** What one character adds to the ink that is counted. */
  function InkOf(c: char): string {
    if IsSpace(c) || c == SOFT_HYPHEN then "" else [c]
  }

  lemma InkOfFirst(s: string)
    requires s != []
    ensures Ink(WithoutSoftHyphens(s)) == InkOf(s[0]) + Ink(WithoutSoftHyphens(s[1..]))
  {
    var rest := WithoutSoftHyphens(s[1..]);
    if s[0] == SOFT_HYPHEN {
      assert WithoutSoftHyphens(s) == rest;
    } else {
      assert WithoutSoftHyphens(s) == [s[0]] + rest;
      assert ([s[0]] + rest)[1..] == rest;
    }
  }

  predicate StartsPair(s: string) {
    |s| > 1 && s[0] == '\r' && s[1] == '\n'
  }

  lemma UnifyUnfolds(s: string)
    requires s != []
    ensures StartsPair(s) ==> UnifyNewlines(s) == ['\n'] + UnifyNewlines(s[2..])
    ensures !StartsPair(s) ==> UnifyNewlines(s) == [if s[0] == '\r' then '\n' else s[0]] + UnifyNewlines(s[1..])
  {
  }

  lemma {:induction false} UnifyKeepsInk(s: string)
    ensures Ink(WithoutSoftHyphens(UnifyNewlines(s))) == Ink(WithoutSoftHyphens(s))
  {
    hide UnifyNewlines, WithoutSoftHyphens, Ink;
    if s == [] {
      UnifyOfNothing();
    } else if StartsPair(s) {
      UnifyUnfolds(s);
      UnifyKeepsInk(s[2..]);
      FirstAddsInk('\n', UnifyNewlines(s[2..]));
      FirstAddsInk('\n', s[2..]);
      FirstAddsInk('\r', s[1..]);
      assert s == ['\r'] + s[1..] && s[1..] == ['\n'] + s[2..];
    } else {
      var first := if s[0] == '\r' then '\n' else s[0];
      UnifyUnfolds(s);
      UnifyKeepsInk(s[1..]);
      FirstAddsInk(first, UnifyNewlines(s[1..]));
      FirstAddsInk(s[0], s[1..]);
      assert s == [s[0]] + s[1..];
    }
  }

  lemma UnifyOfNothing()
    ensures UnifyNewlines("") == ""
  {
  }

  lemma FirstAddsInk(c: char, rest: string)
    ensures Ink(WithoutSoftHyphens([c] + rest)) == InkOf(c) + Ink(WithoutSoftHyphens(rest))
  {
    InkOfFirst([c] + rest);
    assert ([c] + rest)[1..] == rest;
  }

  /** Every character that is neither white space nor a soft hyphen is kept, once and in order; nothing is added. */
  lemma InkIsKept(text: string)
    ensures Ink(Normalise(text)) == Ink(WithoutSoftHyphens(text))
  {
    LayoutIsKept(text);
    LayoutShowsTheInk(Normalise(text), Margin);
    LayoutShowsTheInk(WithoutSoftHyphens(UnifyNewlines(text)), Margin);
    UnifyKeepsInk(text);
  }
}
