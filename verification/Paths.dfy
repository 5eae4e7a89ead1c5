// Paths of a step relation: how they join and split, and why a finite relation has paths of
// every length exactly when it goes round.
module Paths {

  ghost predicate IsPath<T(!new)>(step: (T, T) -> bool, p: seq<T>) {
    p != [] && (|p| == 1 || (IsPath(step, p[..|p| - 1]) && step(p[|p| - 2], p[|p| - 1])))
  }

  ghost predicate Joins<T(!new)>(step: (T, T) -> bool, p: seq<T>, a: T, b: T) {
    IsPath(step, p) && p[0] == a && p[|p| - 1] == b
  }

  ghost predicate Leads<T(!new)>(step: (T, T) -> bool, a: T, b: T) {
    exists p :: Joins(step, p, a, b)
  }

  // At least one step leads from the node back to it.
  ghost predicate ComesBack<T(!new)>(step: (T, T) -> bool, node: T) {
    exists next :: step(node, next) && Leads(step, next, node)
  }

  ghost predicate ReachesDepth<T(!new)>(step: (T, T) -> bool, from: T, n: nat) {
    exists p :: IsPath(step, p) && p[0] == from && |p| == n + 1
  }

  lemma {:induction false} PathsJoin<T(!new)>(step: (T, T) -> bool, p: seq<T>, q: seq<T>)
    requires IsPath(step, p) && IsPath(step, q) && p[|p| - 1] == q[0]
    ensures IsPath(step, p + q[1..])
    decreases |q|
  {
    if |q| == 1 {
      assert p + q[1..] == p;
    } else {
      var n := |q| - 1;
      PathsJoin(step, p, q[..n]);
      assert (p + q[1..])[..|p + q[1..]| - 1] == p + q[..n][1..];
    }
  }

  lemma JoinedLeads<T(!new)>(step: (T, T) -> bool, p: seq<T>, q: seq<T>, a: T, b: T, c: T)
    requires Joins(step, p, a, b) && Joins(step, q, b, c)
    ensures Leads(step, a, c)
  {
    PathsJoin(step, p, q);
    assert Joins(step, p + q[1..], a, c);
  }

  lemma LeadsOn<T(!new)>(step: (T, T) -> bool, a: T, b: T, c: T)
    requires Leads(step, a, b) && Leads(step, b, c)
    ensures Leads(step, a, c)
  {
    hide Joins;
    var p :| Joins(step, p, a, b);
    var q :| Joins(step, q, b, c);
    JoinedLeads(step, p, q, a, b, c);
  }

  lemma StepLeads<T(!new)>(step: (T, T) -> bool, a: T, b: T)
    ensures Leads(step, a, a)
    ensures step(a, b) ==> Leads(step, a, b)
  {
    assert Joins(step, [a], a, a);
    if step(a, b) {
      assert [a, b][..1] == [a];
      assert Joins(step, [a, b], a, b);
    }
  }

  // A path is made of the path to any of its nodes and the path from there.
  lemma {:induction false} PathSplits<T(!new)>(step: (T, T) -> bool, p: seq<T>, i: nat)
    requires IsPath(step, p) && i < |p|
    ensures IsPath(step, p[..i + 1]) && IsPath(step, p[i..])
    decreases |p|
  {
    var n := |p| - 1;
    if i == n {
      assert p[..i + 1] == p && p[i..] == [p[n]];
    } else {
      PathSplits(step, p[..n], i);
      assert p[..n][..i + 1] == p[..i + 1];
      assert p[i..][..|p[i..]| - 1] == p[..n][i..];
    }
  }

  lemma BetweenLeads<T(!new)>(step: (T, T) -> bool, p: seq<T>, i: nat, j: nat)
    requires IsPath(step, p) && i <= j < |p|
    ensures Leads(step, p[i], p[j])
  {
    PathSplits(step, p, j);
    PathSplits(step, p[..j + 1], i);
    assert Joins(step, p[..j + 1][i..], p[i], p[j]);
  }

  lemma {:induction false} StepOf<T(!new)>(step: (T, T) -> bool, p: seq<T>, i: nat)
    requires IsPath(step, p) && i + 1 < |p|
    ensures step(p[i], p[i + 1])
    decreases |p|
  {
    if i + 2 < |p| {
      StepOf(step, p[..|p| - 1], i);
    }
  }

  // What holds of the start and is kept by every step holds all along.
  lemma {:induction false} PathStaysWithin<T(!new)>(step: (T, T) -> bool, p: seq<T>, good: T -> bool)
    requires IsPath(step, p) && good(p[0]) && forall a, b :: good(a) && step(a, b) ==> good(b)
    ensures forall x :: x in p ==> good(x)
  {
    if |p| > 1 {
      var n := |p| - 1;
      PathStaysWithin(step, p[..n], good);
      assert p[n - 1] in p[..n];
      assert p == p[..n] + [p[n]];
    }
  }

  lemma LeadsWithin<T(!new)>(step: (T, T) -> bool, a: T, b: T, good: T -> bool)
    requires Leads(step, a, b) && good(a) && forall x, y :: good(x) && step(x, y) ==> good(y)
    ensures good(b)
  {
    var p :| Joins(step, p, a, b);
    PathStaysWithin(step, p, good);
  }

  lemma {:induction false} Pigeonhole<T>(p: seq<T>, s: set<T>) returns (i: nat, j: nat)
    requires |p| > |s| && forall x :: x in p ==> x in s
    ensures i < j < |p| && p[i] == p[j]
    decreases |p|
  {
    var n := |p| - 1;
    if k :| 0 <= k < n && p[k] == p[n] {
      i, j := k, n;
    } else {
      assert p[n] in s;
      forall x | x in p[..n] ensures x in s - {p[n]} {
        var k :| 0 <= k < n && p[..n][k] == x;
        assert p[k] == x;
      }
      i, j := Pigeonhole(p[..n], s - {p[n]});
    }
  }

  lemma {:induction false} LoopsForEver<T(!new)>(step: (T, T) -> bool, from: T, node: T, n: nat) returns (p: seq<T>)
    requires Leads(step, from, node) && ComesBack(step, node)
    ensures IsPath(step, p) && p[0] == from && p[|p| - 1] == node && |p| > n
  {
    if n == 0 {
      p :| Joins(step, p, from, node);
    } else {
      var shorter := LoopsForEver(step, from, node, n - 1);
      var next :| step(node, next) && Leads(step, next, node);
      var back :| Joins(step, back, next, node);
      assert [node, next][..1] == [node];
      PathsJoin(step, [node, next], back);
      var round := [node, next] + back[1..];
      PathsJoin(step, shorter, round);
      p := shorter + round[1..];
    }
  }

  lemma RoundHasNoBound<T(!new)>(step: (T, T) -> bool, from: T, node: T)
    requires Leads(step, from, node) && ComesBack(step, node)
    ensures forall n: nat :: ReachesDepth(step, from, n)
  {
    forall n: nat ensures ReachesDepth(step, from, n) {
      var p := LoopsForEver(step, from, node, n);
      PathSplits(step, p, n);
      assert IsPath(step, p[..n + 1]) && p[..n + 1][0] == from;
    }
  }

  // A path longer than the set it stays in meets a node that comes back.
  lemma LongPathGoesRound<T(!new)>(step: (T, T) -> bool, p: seq<T>, s: set<T>) returns (node: T)
    requires IsPath(step, p) && |p| > |s| && forall x :: x in p ==> x in s
    ensures Leads(step, p[0], node) && ComesBack(step, node) && node in s
  {
    var i, j := Pigeonhole(p, s);
    node := p[i];
    BetweenLeads(step, p, 0, i);
    StepOf(step, p, i);
    BetweenLeads(step, p, i + 1, j);
  }
}
