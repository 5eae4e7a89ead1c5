// _average_ranks of the evidence tooling: ranks with ties averaged.
module Ranks {
  import opened Sorting

  // ------------------------------------------------------------------------------
  // What a rank is
  // ------------------------------------------------------------------------------

  function Smaller(values: seq<real>, v: real): set<int> {
    set j | 0 <= j < |values| && values[j] < v
  }

  function Ties(values: seq<real>, v: real): set<int> {
    set j | 0 <= j < |values| && values[j] == v
  }

  // The average of the positions a value shares with its ties, counted from one.
  function Rank(values: seq<real>, v: real): real {
    |Smaller(values, v)| as real + (|Ties(values, v)| as real + 1.0) / 2.0
  }

  // ------------------------------------------------------------------------------
  // The order of the indices
  // ------------------------------------------------------------------------------

  function Range(n: nat): seq<int> {
    if n == 0 then [] else Range(n - 1) + [n - 1]
  }

  function ValueAt(values: seq<real>, i: int): real {
    if 0 <= i < |values| then values[i] else 0.0
  }

  function ByValue(values: seq<real>): (int, int) -> bool {
    (i, j) => ValueAt(values, i) <= ValueAt(values, j)
  }

  // sorted(range(len(values)), key=values.__getitem__)
  function Order(values: seq<real>): seq<int> {
    Sort(Range(|values|), ByValue(values))
  }

  lemma {:induction false} RangeIs(n: nat)
    ensures |Range(n)| == n && forall i :: 0 <= i < n ==> Range(n)[i] == i
  {
    if n > 0 {
      RangeIs(n - 1);
    }
  }

  // A permutation of the positions, each listed once, in order of value.
  ghost predicate Arranges(order: seq<int>, values: seq<real>) {
    && |order| == |values|
    && (forall p :: 0 <= p < |order| ==> 0 <= order[p] < |values|)
    && (forall p, q :: 0 <= p < q < |order| ==> order[p] != order[q])
    && (forall i :: 0 <= i < |values| ==> i in order)
    && (forall p, q :: 0 <= p < q < |order| ==> ValueAt(values, order[p]) <= ValueAt(values, order[q]))
  }

  lemma OrderArranges(values: seq<real>)
    ensures Arranges(Order(values), values)
  {
    hide Range;
    var leq, order, range := ByValue(values), Order(values), Range(|values|);
    assert TotalOrder(leq);
    SortSorts(range, leq);
    RangeIs(|values|);
    forall p | 0 <= p < |order| ensures 0 <= order[p] < |values| {
      assert order[p] in multiset(order);
      assert order[p] in range;
    }
    forall i | 0 <= i < |values| ensures i in order {
      assert range[i] in multiset(range);
    }
    StillDistinct(order, range);
  }

  // Positions [a, b) of the order hold b - a different indices.
  lemma {:induction false} Window(order: seq<int>, a: nat, b: nat)
    requires a <= b <= |order| && forall p, q :: 0 <= p < q < |order| ==> order[p] != order[q]
    ensures |Held(order, a, b)| == b - a
    decreases b - a
  {
    if a < b {
      Window(order, a, b - 1);
      assert Held(order, a, b) == Held(order, a, b - 1) + {order[b - 1]};
    }
  }

  function Held(order: seq<int>, a: nat, b: nat): set<int>
    requires a <= b <= |order|
  {
    set p | a <= p < b :: order[p]
  }

  // A maximal run of equal values at positions [a, b): everything before is smaller,
  // everything after larger.
  lemma GroupRank(values: seq<real>, order: seq<int>, a: nat, b: nat, v: real)
    requires Arranges(order, values) && a < b <= |order|
    requires forall p :: a <= p < b ==> ValueAt(values, order[p]) == v
    requires a > 0 ==> ValueAt(values, order[a - 1]) < v
    requires b < |order| ==> v < ValueAt(values, order[b])
    ensures Rank(values, v) == (a + b - 1) as real / 2.0 + 1.0
  {
    forall p | 0 <= p < |order|
      ensures p < a ==> ValueAt(values, order[p]) < v
      ensures p >= b ==> v < ValueAt(values, order[p])
    {
    }
    assert Smaller(values, v) == Held(order, 0, a) by {
      forall j | j in Smaller(values, v) ensures j in Held(order, 0, a) {
        assert j in order;
        var p :| 0 <= p < |order| && order[p] == j;
        assert p < a;
      }
    }
    assert Ties(values, v) == Held(order, a, b) by {
      forall j | j in Ties(values, v) ensures j in Held(order, a, b) {
        assert j in order;
        var p :| 0 <= p < |order| && order[p] == j;
        assert a <= p < b;
      }
    }
    Window(order, 0, a);
    Window(order, a, b);
  }

  // Every value gets its rank, and the nested scan ends.
  method AverageRanks(values: seq<real>) returns (ranks: seq<real>)
    ensures |ranks| == |values| && forall i :: 0 <= i < |values| ==> ranks[i] == Rank(values, values[i])
  {
    hide Order, Rank, ByValue;
    var order := Order(values);
    OrderArranges(values);
    var table := new real[|values|](_ => 0.0);
    var index := 0;
    while index < |order|
      invariant 0 <= index <= |order|
      invariant 0 < index < |order| ==> ValueAt(values, order[index - 1]) < ValueAt(values, order[index])
      invariant forall p :: 0 <= p < index ==> table[order[p]] == Rank(values, values[order[p]])
    {
      var stop := index;
      while stop + 1 < |order| && values[order[stop + 1]] == values[order[index]]
        invariant index <= stop < |order|
        invariant forall p :: index <= p <= stop ==> ValueAt(values, order[p]) == values[order[index]]
      {
        stop := stop + 1;
      }
      var shared := (index + stop) as real / 2.0 + 1.0;
      GroupRank(values, order, index, stop + 1, values[order[index]]);
      for position := index to stop + 1
        invariant forall p :: 0 <= p < position ==> table[order[p]] == Rank(values, values[order[p]])
      {
        table[order[position]] := shared;
      }
      index := stop + 1;
    }
    ranks := table[..];
    forall i | 0 <= i < |values| ensures ranks[i] == Rank(values, values[i]) {
      assert i in order;
      var p :| 0 <= p < |order| && order[p] == i;
    }
  }

  // ------------------------------------------------------------------------------
  // What ranks do
  // ------------------------------------------------------------------------------

  // A larger value ranks strictly higher, and equal values share a rank.
  lemma RanksFollowValues(values: seq<real>, i: nat, j: nat)
    requires i < |values| && j < |values|
    ensures values[i] < values[j] <==> Rank(values, values[i]) < Rank(values, values[j])
    ensures values[i] == values[j] <==> Rank(values, values[i]) == Rank(values, values[j])
  {
    hide Rank;
    if values[i] < values[j] {
      HigherRanksHigher(values, i, j);
    } else if values[j] < values[i] {
      HigherRanksHigher(values, j, i);
    }
  }

  lemma HigherRanksHigher(values: seq<real>, i: nat, j: nat)
    requires i < |values| && j < |values| && values[i] < values[j]
    ensures Rank(values, values[i]) < Rank(values, values[j])
  {
    var below, ties := Smaller(values, values[i]), Ties(values, values[i]);
    assert below !! ties && below + ties <= Smaller(values, values[j]);
    assert i in ties && j in Ties(values, values[j]);
    Subset(below + ties, Smaller(values, values[j]));
    Subset({i}, ties);
    Subset({j}, Ties(values, values[j]));
  }

  lemma Subset<T>(a: set<T>, b: set<T>)
    requires a <= b
    ensures |a| <= |b|
  {
    assert b == a + (b - a);
  }

  // The ranks of `points` among `values`, summed.
  function RankSum(values: seq<real>, points: seq<real>): real {
    if points == [] then 0.0
    else RankSum(values, points[..|points| - 1]) + Rank(values, points[|points| - 1])
  }

  function Push(x: real, v: real): real {
    if x < v then 1.0 else if x == v then 0.5 else 0.0
  }

  function Pushes(points: seq<real>, x: real): real {
    if points == [] then 0.0 else Pushes(points[..|points| - 1], x) + Push(x, points[|points| - 1])
  }

  lemma SmallerGrows(values: seq<real>, x: real, v: real)
    ensures |Smaller(values + [x], v)| == |Smaller(values, v)| + if x < v then 1 else 0
  {
    var before, after := Smaller(values, v), Smaller(values + [x], v);
    forall j ensures j in after <==> j in before || (x < v && j == |values|) {
    }
    assert after == if x < v then before + {|values|} else before;
  }

  lemma TiesGrow(values: seq<real>, x: real, v: real)
    ensures |Ties(values + [x], v)| == |Ties(values, v)| + if x == v then 1 else 0
  {
    var before, after := Ties(values, v), Ties(values + [x], v);
    forall j ensures j in after <==> j in before || (x == v && j == |values|) {
    }
    assert after == if x == v then before + {|values|} else before;
  }

  lemma CountsGrow(values: seq<real>, x: real, v: real)
    ensures |Smaller(values + [x], v)| == |Smaller(values, v)| + if x < v then 1 else 0
    ensures |Ties(values + [x], v)| == |Ties(values, v)| + if x == v then 1 else 0
  {
    hide Smaller, Ties;
    SmallerGrows(values, x, v);
    TiesGrow(values, x, v);
  }

  // One more value pushes up every rank above it by one and its ties by a half.
  lemma {:induction false} OneMoreValue(values: seq<real>, x: real, points: seq<real>)
    ensures RankSum(values + [x], points) == RankSum(values, points) + Pushes(points, x)
  {
    if points != [] {
      OneMoreValue(values, x, points[..|points| - 1]);
      CountsGrow(values, x, points[|points| - 1]);
    }
  }

  lemma {:induction false} PushesAndRank(points: seq<real>, x: real)
    ensures Pushes(points, x) + |Smaller(points, x)| as real + |Ties(points, x)| as real / 2.0 == |points| as real
  {
    if points != [] {
      var rest, last := points[..|points| - 1], points[|points| - 1];
      PushesAndRank(rest, x);
      CountsGrow(rest, last, x);
      assert points == rest + [last];
    }
  }

  // However the values tie, their ranks add up to 1 + 2 + ... + n.
  lemma {:induction false} RanksSum(values: seq<real>)
    ensures RankSum(values, values) == (|values| * (|values| + 1)) as real / 2.0
  {
    hide Smaller, Ties;
    if values != [] {
      var rest, x := values[..|values| - 1], values[|values| - 1];
      assert values == rest + [x];
      RanksSum(rest);
      OneMoreValue(rest, x, rest);
      PushesAndRank(rest, x);
      CountsGrow(rest, x, x);
      assert |values| * (|values| + 1) == |rest| * (|rest| + 1) + 2 * |values|;
    }
  }
}
