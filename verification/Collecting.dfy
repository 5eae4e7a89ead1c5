// The shape of every collecting loop: one list of results per entry, in order.
module Collecting {

  function FlatMap<A, B>(xs: seq<A>, f: A -> seq<B>): seq<B> {
    if xs == [] then [] else FlatMap(xs[..|xs| - 1], f) + f(xs[|xs| - 1])
  }

  lemma FlatMapStep<A, B>(xs: seq<A>, f: A -> seq<B>, i: nat)
    requires i < |xs|
    ensures FlatMap(xs[..i + 1], f) == FlatMap(xs[..i], f) + f(xs[i])
  {
    assert xs[..i + 1][..i] == xs[..i];
  }

  lemma FlatMapOne<A, B>(x: A, f: A -> seq<B>)
    ensures FlatMap([x], f) == f(x)
  {
    assert [x][..0] == [];
  }

  lemma {:induction false} InFlatMap<A, B>(xs: seq<A>, f: A -> seq<B>, b: B)
    ensures b in FlatMap(xs, f) <==> exists i :: 0 <= i < |xs| && b in f(xs[i])
  {
    if xs != [] {
      var n := |xs| - 1;
      InFlatMap(xs[..n], f, b);
      if b in FlatMap(xs[..n], f) {
        var i :| 0 <= i < n && b in f(xs[..n][i]);
        assert b in f(xs[i]);
      }
      if i :| 0 <= i < n && b in f(xs[i]) {
        assert b in f(xs[..n][i]);
      }
    }
  }

  // Nothing is collected exactly when no entry yields anything.
  lemma NothingCollected<A, B>(xs: seq<A>, f: A -> seq<B>)
    ensures FlatMap(xs, f) == [] <==> forall i :: 0 <= i < |xs| ==> f(xs[i]) == []
  {
    if FlatMap(xs, f) == [] {
      forall i | 0 <= i < |xs| ensures f(xs[i]) == [] {
        if f(xs[i]) != [] {
          InFlatMap(xs, f, f(xs[i])[0]);
        }
      }
    } else if forall i :: 0 <= i < |xs| ==> f(xs[i]) == [] {
      InFlatMap(xs, f, FlatMap(xs, f)[0]);
      assert false;
    }
  }

  // set(xs): one of each, whatever order they came in.
  function Distinct<T(==)>(xs: seq<T>): seq<T> {
    if xs == [] then []
    else
      var rest := Distinct(xs[..|xs| - 1]);
      if xs[|xs| - 1] in rest then rest else rest + [xs[|xs| - 1]]
  }

  lemma {:induction false} DistinctIs<T(!new)>(xs: seq<T>)
    ensures forall x :: x in Distinct(xs) <==> x in xs
    ensures forall i, j :: 0 <= i < j < |Distinct(xs)| ==> Distinct(xs)[i] != Distinct(xs)[j]
  {
    if xs != [] {
      var rest, last := xs[..|xs| - 1], xs[|xs| - 1];
      assert xs == rest + [last];
      DistinctIs(rest);
    }
  }

  lemma {:induction false} DistinctAlready<T(!new)>(xs: seq<T>)
    requires forall i, j :: 0 <= i < j < |xs| ==> xs[i] != xs[j]
    ensures Distinct(xs) == xs
  {
    if xs != [] {
      DistinctAlready(xs[..|xs| - 1]);
      assert xs == xs[..|xs| - 1] + [xs[|xs| - 1]];
    }
  }

  // One result for each entry.
  lemma {:induction false} OneEach<A, B>(xs: seq<A>, f: A -> seq<B>, ys: seq<B>)
    requires |ys| == |xs| && forall i :: 0 <= i < |xs| ==> f(xs[i]) == [ys[i]]
    ensures FlatMap(xs, f) == ys
  {
    if xs != [] {
      var n := |xs| - 1;
      OneEach(xs[..n], f, ys[..n]);
      assert ys == ys[..n] + [ys[n]];
    }
  }
}
