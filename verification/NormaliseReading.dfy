/** What each replacement of the text tidying writes, wherever in the text it applies. */
module NormaliseReading {
  import opened Normalise

  // ----- Line ends -----

  lemma UnifyFirst(s: string, b: string)
    requires b == [] || b[0] != '\n'
    ensures UnifyNewlines("\r\n" + s) == "\n" + UnifyNewlines(s)
    ensures UnifyNewlines("\r" + b) == "\n" + UnifyNewlines(b)
  {
    assert ("\r\n" + s)[2..] == s && ("\r" + b)[1..] == b;
  }

  /** The text may be cut anywhere but inside a carriage return with its newline. */
  lemma {:induction false} LinesApart(a: string, b: string)
    requires a == [] || a[|a| - 1] != '\r' || b == [] || b[0] != '\n'
    ensures UnifyNewlines(a + b) == UnifyNewlines(a) + UnifyNewlines(b)
    decreases |a|
  {
    if a == [] {
      assert a + b == b;
    } else {
      var k := if a[0] == '\r' && |a| > 1 && a[1] == '\n' then 2 else 1;
      var c := if a[0] == '\r' then '\n' else a[0];
      LinesApart(a[k..], b);
      UnifyTakes(a, k, c);
      assert (a + b)[k..] == a[k..] + b;
      UnifyTakes(a + b, k, c);
      AddFirst(c, UnifyNewlines(a[k..]), UnifyNewlines(b));
      hide UnifyNewlines;
    }
  }

  lemma AddFirst(c: char, x: string, y: string)
    ensures [c] + (x + y) == [c] + x + y
  {
  }

  lemma UnifyTakes(s: string, k: nat, c: char)
    requires s != [] && k == (if s[0] == '\r' && |s| > 1 && s[1] == '\n' then 2 else 1)
    requires c == if s[0] == '\r' then '\n' else s[0]
    ensures UnifyNewlines(s) == [c] + UnifyNewlines(s[k..])
  {
  }

  /** A carriage return with its newline is one line end, and one without is another. */
  lemma LineEndsRead(a: string, b: string)
    ensures UnifyNewlines(a + ("\r\n" + b)) == UnifyNewlines(a) + ("\n" + UnifyNewlines(b))
    ensures (b == [] || b[0] != '\n') ==> UnifyNewlines(a + ("\r" + b)) == UnifyNewlines(a) + ("\n" + UnifyNewlines(b))
  {
    UnifyFirst(b, []);
    LinesApart(a, "\r\n" + b);
    if b == [] || b[0] != '\n' {
      UnifyFirst([], b);
      LinesApart(a, "\r" + b);
    }
    hide UnifyNewlines;
  }

  lemma {:induction false} OtherLineEndsStand(a: string)
    requires '\r' !in a
    ensures UnifyNewlines(a) == a
  {
    if a != [] {
      assert forall c :: c in a[1..] ==> c in a;
      OtherLineEndsStand(a[1..]);
      assert a == [a[0]] + a[1..];
    }
  }

  // ----- Single characters -----

  /** A non-breaking space becomes a space, a soft hyphen goes, and everything else stands. */
  lemma CharactersRead(c: char)
    ensures PlainCharacters([c])
            == if (c as int) == 0xA0 then " " else if (c as int) == 0xAD then "" else [c]
  {
    assert [c][1..] == [];
    assert PlainCharacters([]) == [];
  }

  lemma {:induction false} CharactersApart(a: string, b: string)
    ensures PlainCharacters(a + b) == PlainCharacters(a) + PlainCharacters(b)
  {
    if a == [] {
      assert a + b == b;
    } else {
      hide PlainCharacters;
      CharactersApart(a[1..], b);
      FirstOfBoth(a, b);
      PlainTakes(a);
      PlainTakes(a + b);
      AddInFront(PlainCharacters([a[0]]), PlainCharacters(a[1..]), PlainCharacters(b));
    }
  }

  lemma AddInFront(x: string, y: string, z: string)
    ensures x + (y + z) == x + y + z
  {
  }

  lemma FirstOfBoth(a: string, b: string)
    requires a != []
    ensures (a + b)[0] == a[0] && (a + b)[1..] == a[1..] + b
    ensures |a| > 1 ==> (a + b)[1] == a[1]
  {
  }

  lemma PlainTakes(s: string)
    requires s != []
    ensures PlainCharacters(s) == PlainCharacters([s[0]]) + PlainCharacters(s[1..])
  {
    CharactersRead(s[0]);
  }

  // ----- Runs -----

  predicate Blanks(s: string) {
    forall i :: 0 <= i < |s| ==> s[i] == ' ' || s[i] == '\t'
  }

  lemma {:induction false} BlanksDrop(run: string, b: string)
    requires Blanks(run) && (b == [] || !IsBlank(b[0]))
    ensures DropBlanks(run + b) == b
  {
    if run == [] {
      assert run + b == b;
    } else {
      BlanksDrop(run[1..], b);
      assert (run + b)[1..] == run[1..] + b;
    }
  }

  /** Dropping the blanks in front of `a` leaves what follows `a` alone, if `a` is not all blanks. */
  lemma {:induction false} DropsInFront(a: string, b: string)
    requires a != [] && !IsBlank(a[|a| - 1])
    ensures DropBlanks(a) != [] && DropBlanks(a)[|DropBlanks(a)| - 1] == a[|a| - 1]
    ensures DropBlanks(a + b) == DropBlanks(a) + b
  {
    if IsBlank(a[0]) {
      DropsInFront(a[1..], b);
      assert (a + b)[1..] == a[1..] + b;
    }
  }

  lemma CollapseTakesTwo(s: string)
    requires |s| > 1 && IsBlank(s[0]) && IsBlank(s[1])
    ensures CollapseBlanks(s) == [' '] + CollapseBlanks(DropBlanks(s[2..]))
  {
  }

  lemma CollapseTakesOne(s: string)
    requires s != [] && (|s| == 1 || !IsBlank(s[0]) || !IsBlank(s[1]))
    ensures CollapseBlanks(s) == [s[0]] + CollapseBlanks(s[1..])
  {
  }

  lemma RunInFront(run: string, b: string)
    requires Blanks(run) && |run| >= 2 && (b == [] || !IsBlank(b[0]))
    ensures CollapseBlanks(run + b) == [' '] + CollapseBlanks(b)
  {
    var s := run + b;
    assert s[2..] == run[2..] + b;
    BlanksDrop(run[2..], b);
    CollapseTakesTwo(s);
    hide CollapseBlanks;
  }

  /** Two or more blanks in a row become one space, of whatever kind they are. */
  lemma {:induction false} RunsBecomeOneSpace(a: string, run: string, b: string)
    requires Blanks(run) && |run| >= 2
    requires (a == [] || !IsBlank(a[|a| - 1])) && (b == [] || !IsBlank(b[0]))
    ensures CollapseBlanks(a + (run + b)) == CollapseBlanks(a) + ([' '] + CollapseBlanks(b))
    decreases |a|, 1
  {
    var tail := run + b;
    var s := a + tail;
    if a == [] {
      assert s == tail;
      RunInFront(run, b);
    } else if |a| > 1 && IsBlank(a[0]) && IsBlank(a[1]) {
      var rest := a[2..];
      assert s[2..] == rest + tail && rest[|rest| - 1] == a[|a| - 1];
      DropsInFront(rest, tail);
      RunsBecomeOneSpace(DropBlanks(rest), run, b);
      CollapseTakesTwo(a);
      CollapseTakesTwo(s);
      AddFirst(' ', CollapseBlanks(DropBlanks(rest)), [' '] + CollapseBlanks(b));
      hide CollapseBlanks;
    } else {
      OneFromARun(a, run, b);
    }
  }

  lemma OneFromARun(a: string, run: string, b: string)
    requires Blanks(run) && |run| >= 2
    requires a != [] && !IsBlank(a[|a| - 1]) && (b == [] || !IsBlank(b[0]))
    requires |a| == 1 || !IsBlank(a[0]) || !IsBlank(a[1])
    ensures CollapseBlanks(a + (run + b)) == CollapseBlanks(a) + ([' '] + CollapseBlanks(b))
    decreases |a|, 0
  {
    hide CollapseBlanks, IsBlank, Blanks;
    var tail := run + b;
    FirstOfBoth(a, tail);
    SecondIsBlank(a, run, b);
    RunsBecomeOneSpace(a[1..], run, b);
    CollapseTakesOne(a);
    CollapseTakesOne(a + tail);
    AddFirst(a[0], CollapseBlanks(a[1..]), [' '] + CollapseBlanks(b));
  }

  lemma SecondIsBlank(a: string, run: string, b: string)
    requires a != [] && !IsBlank(a[|a| - 1])
    ensures |a| == 1 ==> !IsBlank((a + (run + b))[0])
    ensures |a| > 1 ==> a[1..] != [] && !IsBlank(a[1..][|a| - 2])
  {
  }

  /** Texts without two blanks in a row stand. */
  lemma {:induction false} SingleBlanksStand(a: string)
    requires NoDoubleBlank(a)
    ensures CollapseBlanks(a) == a
  {
    if a != [] {
      SingleBlanksStand(a[1..]);
      assert a == [a[0]] + a[1..];
    }
  }
}
