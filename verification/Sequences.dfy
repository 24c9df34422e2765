/** Facts about sequences that several components share. */
module Sequences {

  ghost predicate Distinct<T>(s: seq<T>) {
    forall i, j :: 0 <= i < j < |s| ==> s[i] != s[j]
  }

  /** The concatenation of `f(x)` for each element in order. */
  function FlatMap<X, Y>(xs: seq<X>, f: X -> seq<Y>): (ys: seq<Y>) {
    if xs == [] then [] else FlatMap(xs[..|xs| - 1], f) + f(xs[|xs| - 1])
  }

  lemma {:induction false} FlatMapMembers<X, Y>(xs: seq<X>, f: X -> seq<Y>)
    ensures forall y :: y in FlatMap(xs, f) <==> exists i :: 0 <= i < |xs| && y in f(xs[i])
  {
    if xs != [] {
      var n := |xs| - 1;
      FlatMapMembers(xs[..n], f);
      assert forall i :: 0 <= i < n ==> xs[..n][i] == xs[i];
      forall y ensures y in FlatMap(xs, f) <==> exists i :: 0 <= i < |xs| && y in f(xs[i]) {
        if i :| 0 <= i < |xs| && y in f(xs[i]) {
          if i < n { assert y in f(xs[..n][i]); }
        }
      }
    }
  }

  lemma FlatMapLast<X, Y>(xs: seq<X>, f: X -> seq<Y>, x: X)
    ensures multiset(FlatMap(xs + [x], f)) == multiset(FlatMap(xs, f)) + multiset(f(x))
  {
    assert (xs + [x])[..|xs|] == xs;
  }

  lemma {:induction false} FlatMapRemove<X, Y>(xs: seq<X>, f: X -> seq<Y>, k: nat)
    requires k < |xs|
    ensures multiset(FlatMap(xs, f)) == multiset(FlatMap(xs[..k] + xs[k + 1..], f)) + multiset(f(xs[k]))
  {
    var n := |xs| - 1;
    if k < n {
      var shorter := xs[..n];
      FlatMapRemove(shorter, f, k);
      assert xs == shorter + [xs[n]];
      assert xs[..k] + xs[k + 1..] == (shorter[..k] + shorter[k + 1..]) + [xs[n]];
      FlatMapLast(shorter, f, xs[n]);
      FlatMapLast(shorter[..k] + shorter[k + 1..], f, xs[n]);
      AddToBoth(multiset(FlatMap(shorter, f)), multiset(FlatMap(shorter[..k] + shorter[k + 1..], f)),
                multiset(f(xs[k])), multiset(f(xs[n])));
    } else {
      assert xs[..k] + xs[k + 1..] == xs[..n];
      assert xs == xs[..n] + [xs[n]];
      FlatMapLast(xs[..n], f, xs[n]);
    }
  }

  lemma AddToBoth<Y>(all: multiset<Y>, others: multiset<Y>, one: multiset<Y>, last: multiset<Y>)
    requires all == others + one
    ensures all + last == (others + last) + one
  {
  }

  lemma MultisetWithout<X>(ys: seq<X>, k: nat)
    requires k < |ys|
    ensures multiset(ys) == multiset(ys[..k] + ys[k + 1..]) + multiset{ys[k]}
  {
    assert ys == ys[..k] + [ys[k]] + ys[k + 1..];
  }

  lemma SameRest<X>(xs: seq<X>, ys: seq<X>, k: nat)
    requires multiset(xs) == multiset(ys) && xs != [] && k < |ys| && ys[k] == xs[|xs| - 1]
    ensures multiset(xs[..|xs| - 1]) == multiset(ys[..k] + ys[k + 1..])
  {
    var n := |xs| - 1;
    MultisetWithout(xs, n);
    MultisetWithout(ys, k);
    assert xs[..n] + xs[n + 1..] == xs[..n];
    var rest, without := multiset(xs[..n]), multiset(ys[..k] + ys[k + 1..]);
    assert rest == rest + multiset{xs[n]} - multiset{xs[n]};
    assert without == without + multiset{xs[n]} - multiset{xs[n]};
  }

  /** Permuting the input permutes the output. */
  lemma {:induction false} FlatMapPermuted<X, Y>(xs: seq<X>, ys: seq<X>, f: X -> seq<Y>)
    requires multiset(xs) == multiset(ys)
    ensures multiset(FlatMap(xs, f)) == multiset(FlatMap(ys, f))
  {
    PermutationLength(xs, ys);
    if xs != [] {
      var n := |xs| - 1;
      assert xs == xs[..n] + [xs[n]];
      assert xs[n] in multiset(ys);
      var k :| 0 <= k < |ys| && ys[k] == xs[n];
      var without := ys[..k] + ys[k + 1..];
      SameRest(xs, ys, k);
      FlatMapPermuted(xs[..n], without, f);
      FlatMapRemove(ys, f, k);
    }
  }

  lemma PermutationLength<T>(xs: seq<T>, ys: seq<T>)
    requires multiset(xs) == multiset(ys)
    ensures |xs| == |ys|
  {
    assert |multiset(xs)| == |multiset(ys)|;
  }

  lemma PermutationMembers<T>(xs: seq<T>, ys: seq<T>)
    requires multiset(xs) == multiset(ys)
    ensures forall x :: x in xs <==> x in ys
  {
    forall x ensures x in xs <==> x in ys {
      assert x in xs <==> x in multiset(xs);
      assert x in ys <==> x in multiset(ys);
    }
  }

  lemma {:induction false} DistinctMultiplicity<T>(s: seq<T>)
    ensures Distinct(s) <==> forall x :: x in multiset(s) ==> multiset(s)[x] == 1
  {
    if s != [] {
      var n := |s| - 1;
      var rest := s[..n];
      assert s == rest + [s[n]];
      DistinctMultiplicity(rest);
      assert s[n] in rest <==> s[n] in multiset(rest);
      if Distinct(s) {
        assert Distinct(rest) && s[n] !in rest;
      } else if Distinct(rest) {
        var i, j :| 0 <= i < j < |s| && s[i] == s[j];
        assert j == n && rest[i] == s[n];
        assert multiset(s)[s[n]] >= 2;
      } else {
        var x :| x in multiset(rest) && multiset(rest)[x] != 1;
        assert multiset(s)[x] >= 2;
      }
    }
  }

  lemma DistinctPermuted<T>(xs: seq<T>, ys: seq<T>)
    requires multiset(xs) == multiset(ys)
    ensures Distinct(xs) <==> Distinct(ys)
  {
    DistinctMultiplicity(xs);
    DistinctMultiplicity(ys);
  }
}
