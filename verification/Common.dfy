/** Datatypes and small facts shared by every component. */
module Common {

  datatype Option<+T> = None | Some(value: T)

  /** No value occurs twice. */
  ghost predicate Distinct<T>(s: seq<T>) {
    forall i, j :: 0 <= i < j < |s| ==> s[i] != s[j]
  }

  ghost function Elements<T>(s: seq<T>): set<T> {
    set x | x in s
  }

  /** Pigeonhole: distinct values drawn from a finite set cannot outnumber it. */
  lemma {:induction false} DistinctBound<T>(s: seq<T>, universe: set<T>)
    requires Distinct(s)
    requires forall x :: x in s ==> x in universe
    ensures |s| <= |universe|
  {
    if s != [] {
      var last := s[|s| - 1];
      DistinctBound(s[..|s| - 1], universe - {last});
    }
  }

  lemma {:induction false} DistinctCount<T>(s: seq<T>)
    requires Distinct(s)
    ensures |Elements(s)| == |s|
  {
    if s != [] {
      var rest := s[..|s| - 1];
      assert Elements(s) == Elements(rest) + {s[|s| - 1]};
      DistinctCount(rest);
    }
  }

  /** Sequences without repetition over the same values are permutations of one another. */
  lemma {:induction false} DistinctPermutation<T>(s: seq<T>, t: seq<T>)
    requires Distinct(s) && Distinct(t)
    requires Elements(s) == Elements(t)
    ensures multiset(s) == multiset(t)
  {
    forall x
      ensures multiset(s)[x] == multiset(t)[x]
    {
      DistinctMultiplicity(s, x);
      DistinctMultiplicity(t, x);
      assert x in s <==> x in Elements(t);
    }
  }

  lemma {:induction false} DistinctMultiplicity<T>(s: seq<T>, x: T)
    requires Distinct(s)
    ensures multiset(s)[x] == if x in s then 1 else 0
  {
    if s != [] {
      var rest := s[..|s| - 1];
      assert s == rest + [s[|s| - 1]];
      DistinctMultiplicity(rest, x);
    }
  }

  /** A permutation of a sequence without repetition has none either. */
  lemma {:induction false} PermutationDistinct<T>(s: seq<T>, t: seq<T>)
    requires multiset(s) == multiset(t) && Distinct(s)
    ensures Distinct(t) && Elements(t) == Elements(s)
  {
    forall x
      ensures x in t <==> x in s
    {
      assert x in multiset(t) <==> x in multiset(s);
    }
    forall i, j | 0 <= i < j < |t|
      ensures t[i] != t[j]
    {
      if t[i] == t[j] {
        var x := t[i];
        assert t == t[..i] + [x] + t[i + 1..j] + [x] + t[j + 1..];
        assert multiset(t)[x] >= 2;
        DistinctMultiplicity(s, x);
      }
    }
  }

  lemma ElementsSnoc<V>(path: seq<V>, v: V)
    ensures Elements(path + [v]) == Elements(path) + {v}
    ensures Distinct(path) && v !in path ==> Distinct(path + [v])
    ensures Distinct(path + [v]) ==> Distinct(path) && Elements(path) == Elements(path + [v]) - {v}
  {
    if Distinct(path + [v]) {
      forall i | 0 <= i < |path|
        ensures path[i] != v
      {
        assert (path + [v])[i] == path[i] && (path + [v])[|path|] == v;
      }
      forall i, j | 0 <= i < j < |path|
        ensures path[i] != path[j]
      {
        assert (path + [v])[i] == path[i] && (path + [v])[j] == path[j];
      }
    }
  }

  /** A set's elements in some order, once each. */
  method ListSet<T(==)>(s: set<T>) returns (listed: seq<T>)
    ensures Distinct(listed) && Elements(listed) == s
  {
    listed := [];
    var rest := s;
    while rest != {}
      invariant rest !! Elements(listed) && rest + Elements(listed) == s
      invariant Distinct(listed)
      decreases |rest|
    {
      var x :| x in rest;
      assert x !in Elements(listed);
      ElementsSnoc(listed, x);
      listed := listed + [x];
      rest := rest - {x};
    }
  }

  function Map<A, B>(f: A -> B, s: seq<A>): (r: seq<B>)
    ensures |r| == |s|
    ensures forall i :: 0 <= i < |s| ==> r[i] == f(s[i])
  {
    seq(|s|, i requires 0 <= i < |s| => f(s[i]))
  }

  lemma Without<A, B>(f: A -> B, s: seq<A>, k: nat) returns (rest: seq<A>)
    requires k < |s|
    ensures |rest| == |s| - 1
    ensures multiset(rest) == multiset(s) - multiset{s[k]}
    ensures multiset(Map(f, s)) == multiset(Map(f, rest)) + multiset{f(s[k])}
  {
    rest := s[..k] + s[k + 1..];
    assert s == s[..k] + [s[k]] + s[k + 1..];
    var image := Map(f, s);
    assert Map(f, rest) == image[..k] + image[k + 1..];
    assert image == image[..k] + [image[k]] + image[k + 1..];
  }

  /** Permuted arguments give permuted images. */
  lemma {:induction false} MapPermutation<A, B>(f: A -> B, s: seq<A>, t: seq<A>)
    requires multiset(s) == multiset(t)
    ensures multiset(Map(f, s)) == multiset(Map(f, t))
    decreases |s|
  {
    SamePermutationLength(s, t);
    if s != [] {
      var k := IndexIn(t, s);
      var rest := Without(f, s, 0);
      var rest' := Without(f, t, k);
      MapPermutation(f, rest, rest');
    }
  }

  lemma SamePermutationLength<A>(s: seq<A>, t: seq<A>)
    requires multiset(s) == multiset(t)
    ensures |s| == |t|
  {
    assert |multiset(s)| == |multiset(t)|;
  }

  lemma IndexIn<A>(t: seq<A>, s: seq<A>) returns (k: nat)
    requires multiset(s) == multiset(t) && s != []
    ensures k < |t| && t[k] == s[0]
  {
    assert s[0] in multiset(t);
    k :| 0 <= k < |t| && t[k] == s[0];
  }
}
