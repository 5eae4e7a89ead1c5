// ks_drift.py: a bounded reference window and the two-sample Kolmogorov-Smirnov statistic,
// over exact reals.
module KsDrift {
  import opened Options
  import opened Sorting

  // ------------------------------------------------------------------------------
  // The statistic, as detect computes it
  // ------------------------------------------------------------------------------

  // numpy.searchsorted(sorted, x, side="right")
  function SearchRight(sorted: seq<real>, x: real): nat {
    if sorted == [] || sorted[0] > x then 0 else 1 + SearchRight(sorted[1..], x)
  }

  function Abs(x: real): real {
    if x < 0.0 then -x else x
  }

  // The gap between the two empirical distributions at a merged point.
  function GapAt(ref: seq<real>, cur: seq<real>, x: real): real
    requires ref != [] && cur != []
  {
    Abs(SearchRight(ref, x) as real / |ref| as real - SearchRight(cur, x) as real / |cur| as real)
  }

  function MaxGap(ref: seq<real>, cur: seq<real>, points: seq<real>): real
    requires ref != [] && cur != [] && points != []
  {
    var last := GapAt(ref, cur, points[|points| - 1]);
    if |points| == 1 then last
    else
      var rest := MaxGap(ref, cur, points[..|points| - 1]);
      if rest >= last then rest else last
  }

  function Statistic(reference: seq<real>, sample: seq<real>): real
    requires reference != [] && sample != []
  {
    var ref, cur := Sort(reference, RealLeq()), Sort(sample, RealLeq());
    SortLength(reference);
    SortLength(sample);
    MaxGap(ref, cur, ref + cur)
  }

  lemma SortLength(xs: seq<real>)
    ensures |Sort(xs, RealLeq())| == |xs| && SortedBy(Sort(xs, RealLeq()), RealLeq())
    ensures forall x :: x in Sort(xs, RealLeq()) <==> x in xs
  {
    SortSorts(xs, RealLeq());
    SortMembers(xs, RealLeq());
  }

  // ------------------------------------------------------------------------------
  // The window
  // ------------------------------------------------------------------------------

  function LastN(xs: seq<real>, n: nat): seq<real> {
    if |xs| > n then xs[|xs| - n..] else xs
  }

  // The last n of them, in order.
  lemma WindowIsTheEnd(xs: seq<real>, n: nat)
    ensures |LastN(xs, n)| == (if |xs| < n then |xs| else n)
    ensures exists before :: xs == before + LastN(xs, n)
  {
    if |xs| > n {
      assert xs == xs[..|xs| - n] + LastN(xs, n);
    } else {
      assert xs == [] + LastN(xs, n);
    }
  }

  datatype Drift =
    | EmptyReference | EmptySample
    | Detected(statistic: real, driftDetected: bool, nReference: nat, nSample: nat)

  class KSDriftEngine {
    const threshold: real
    const maxSamples: nat
    var reference: seq<real>
    // Everything observed since the last reset.
    ghost var observed: seq<real>

    ghost predicate Valid()
      reads this
    {
      maxSamples > 0 && reference == LastN(observed, maxSamples)
    }

    constructor (threshold: real, maxSamples: nat)
      requires maxSamples > 0
      ensures Valid() && observed == [] && this.threshold == threshold && this.maxSamples == maxSamples
    {
      this.threshold, this.maxSamples, reference, observed := threshold, maxSamples, [], [];
    }

    // Appending to a full deque drops its oldest element.
    method AddReference(value: real)
      requires Valid()
      modifies this
      ensures Valid() && observed == old(observed) + [value]
    {
      if |reference| == maxSamples {
        reference := reference[1..];
      }
      reference := reference + [value];
      observed := observed + [value];
    }

    method AddReferenceSamples(values: seq<real>)
      requires Valid()
      modifies this
      ensures Valid() && observed == old(observed) + values
    {
      for i := 0 to |values|
        invariant Valid() && observed == old(observed) + values[..i]
      {
        AddReference(values[i]);
        assert values[..i + 1] == values[..i] + [values[i]];
      }
      assert values[..|values|] == values;
    }

    method Reset()
      requires Valid()
      modifies this
      ensures Valid() && observed == []
    {
      reference, observed := [], [];
    }

    // Never more than the cap, and full exactly when that many observations were made.
    method SampleCount() returns (count: nat, full: bool)
      requires Valid()
      ensures count == |reference| <= maxSamples
      ensures full <==> |observed| >= maxSamples
    {
      count := |reference|;
      full := count >= maxSamples;
    }

    method Detect(current: seq<real>) returns (result: Drift)
      requires Valid()
      ensures observed == [] ==> result == EmptyReference
      ensures observed != [] && current == [] ==> result == EmptySample
      ensures observed != [] && current != [] ==>
                var window := LastN(observed, maxSamples);
                window != [] && result == Detected(Statistic(window, current), Statistic(window, current) > threshold, |window|, |current|)
    {
      if reference == [] {
        return EmptyReference;
      }
      if current == [] {
        return EmptySample;
      }
      var statistic := Statistic(reference, current);
      result := Detected(statistic, statistic > threshold, |reference|, |current|);
    }
  }

  // KSDriftEngine.__init__ refuses a window of no samples.
  method NewEngine(threshold: real, maxSamples: int) returns (engine: Option<KSDriftEngine>)
    ensures engine.Some? <==> maxSamples > 0
    ensures engine.Some? ==> fresh(engine.value) && engine.value.Valid() && engine.value.observed == []
                             && engine.value.threshold == threshold && engine.value.maxSamples == maxSamples
  {
    if maxSamples <= 0 {
      return None;
    }
    var created := new KSDriftEngine(threshold, maxSamples);
    engine := Some(created);
  }

  // ------------------------------------------------------------------------------
  // The statistic, as it is defined
  // ------------------------------------------------------------------------------

  function AtMost(xs: seq<real>, x: real): nat {
    if xs == [] then 0 else (if xs[0] <= x then 1 else 0) + AtMost(xs[1..], x)
  }

  // The empirical distribution function: the share of the sample at most x.
  function Ecdf(xs: seq<real>, x: real): real
    requires xs != []
  {
    AtMost(xs, x) as real / |xs| as real
  }

  function Gap(xs: seq<real>, ys: seq<real>, x: real): real
    requires xs != [] && ys != []
  {
    Abs(Ecdf(xs, x) - Ecdf(ys, x))
  }

  ghost predicate IsSupremum(xs: seq<real>, ys: seq<real>, d: real)
    requires xs != [] && ys != []
  {
    && (forall x :: Gap(xs, ys, x) <= d)
    && (exists x :: Gap(xs, ys, x) == d)
  }

  lemma {:induction false} InsertCounts(v: real, xs: seq<real>, x: real)
    ensures AtMost(Insert(v, xs, RealLeq()), x) == AtMost(xs, x) + if v <= x then 1 else 0
  {
    if xs == [] || v <= xs[0] {
      assert ([v] + xs)[1..] == xs;
    } else {
      InsertCounts(v, xs[1..], x);
      assert ([xs[0]] + Insert(v, xs[1..], RealLeq()))[1..] == Insert(v, xs[1..], RealLeq());
    }
  }

  lemma {:induction false} SortCounts(xs: seq<real>, x: real)
    ensures AtMost(Sort(xs, RealLeq()), x) == AtMost(xs, x)
  {
    if xs != [] {
      SortCounts(xs[1..], x);
      InsertCounts(xs[0], Sort(xs[1..], RealLeq()), x);
    }
  }

  lemma {:induction false} NoneAtMost(xs: seq<real>, x: real)
    requires forall i :: 0 <= i < |xs| ==> xs[i] > x
    ensures AtMost(xs, x) == 0
  {
    if xs != [] {
      NoneAtMost(xs[1..], x);
    }
  }

  lemma {:induction false} AtMostBound(xs: seq<real>, x: real)
    ensures AtMost(xs, x) <= |xs|
  {
    if xs != [] {
      AtMostBound(xs[1..], x);
    }
  }

  lemma {:induction false} SearchCounts(sorted: seq<real>, x: real)
    requires SortedBy(sorted, RealLeq())
    ensures SearchRight(sorted, x) == AtMost(sorted, x)
  {
    if sorted != [] {
      if sorted[0] <= x {
        SearchCounts(sorted[1..], x);
      } else {
        NoneAtMost(sorted, x);
      }
    }
  }

  lemma {:induction false} SameCounts(xs: seq<real>, x: real, y: real)
    requires y <= x && forall i :: 0 <= i < |xs| ==> xs[i] <= y || xs[i] > x
    ensures AtMost(xs, x) == AtMost(xs, y)
  {
    if xs != [] {
      SameCounts(xs[1..], x, y);
    }
  }

  lemma GapsAgree(xs: seq<real>, ys: seq<real>, x: real)
    requires xs != [] && ys != []
    ensures Sort(xs, RealLeq()) != [] && Sort(ys, RealLeq()) != []
    ensures GapAt(Sort(xs, RealLeq()), Sort(ys, RealLeq()), x) == Gap(xs, ys, x)
  {
    hide Sort;
    SortLength(xs);
    SortLength(ys);
    SearchCounts(Sort(xs, RealLeq()), x);
    SearchCounts(Sort(ys, RealLeq()), x);
    SortCounts(xs, x);
    SortCounts(ys, x);
  }

  lemma {:induction false} MaxGapIs(ref: seq<real>, cur: seq<real>, points: seq<real>) returns (at: real)
    requires ref != [] && cur != [] && points != []
    ensures at in points && GapAt(ref, cur, at) == MaxGap(ref, cur, points)
    ensures forall x :: x in points ==> GapAt(ref, cur, x) <= MaxGap(ref, cur, points)
  {
    hide GapAt;
    at := points[|points| - 1];
    if |points| > 1 {
      var rest := points[..|points| - 1];
      assert points == rest + [at];
      var before := MaxGapIs(ref, cur, rest);
      if MaxGap(ref, cur, rest) >= GapAt(ref, cur, at) {
        at := before;
      }
    }
  }

  // The greatest point at or below x, when there is one.
  lemma {:induction false} PointBelow(points: seq<real>, x: real) returns (below: Option<real>)
    ensures below.None? ==> forall v :: v in points ==> v > x
    ensures below.Some? ==> below.value in points && below.value <= x && forall v :: v in points ==> v <= below.value || v > x
  {
    if points == [] {
      below := None;
    } else {
      var rest, last := points[..|points| - 1], points[|points| - 1];
      assert points == rest + [last];
      below := PointBelow(rest, x);
      if last <= x && (below.None? || below.value < last) {
        below := Some(last);
      }
    }
  }

  lemma SortCovers(xs: seq<real>, points: seq<real>)
    requires forall v :: v in Sort(xs, RealLeq()) ==> v in points
    ensures forall i :: 0 <= i < |xs| ==> xs[i] in points
  {
    SortLength(xs);
    forall i | 0 <= i < |xs| ensures xs[i] in points {
      var v: real := xs[i];
      assert v in xs;
      assert v in Sort(xs, RealLeq());
    }
  }

  // No gap anywhere exceeds the gaps at the sample points.
  lemma GapBelowMax(xs: seq<real>, ys: seq<real>, x: real)
    requires xs != [] && ys != []
    ensures Gap(xs, ys, x) <= Statistic(xs, ys)
  {
    hide Sort, GapAt, MaxGap, AtMost;
    SortLength(xs);
    SortLength(ys);
    var ref, cur := Sort(xs, RealLeq()), Sort(ys, RealLeq());
    var points := ref + cur;
    var best := MaxGapIs(ref, cur, points);
    var below := PointBelow(points, x);
    SortCovers(xs, points);
    SortCovers(ys, points);
    if below.Some? {
      SameCounts(xs, x, below.value);
      SameCounts(ys, x, below.value);
      GapsAgree(xs, ys, below.value);
    } else {
      NoneAtMost(xs, x);
      NoneAtMost(ys, x);
      assert Gap(xs, ys, x) == 0.0;
      GapsAgree(xs, ys, best);
    }
  }

  // The statistic at the merged sample points is the supremum, over all reals, of the gap
  // between the two empirical distribution functions.
  lemma StatisticIsSupremum(xs: seq<real>, ys: seq<real>)
    requires xs != [] && ys != []
    ensures IsSupremum(xs, ys, Statistic(xs, ys))
  {
    hide Sort, GapAt, MaxGap, Gap;
    forall x ensures Gap(xs, ys, x) <= Statistic(xs, ys) {
      GapBelowMax(xs, ys, x);
    }
    SortLength(xs);
    SortLength(ys);
    var ref, cur := Sort(xs, RealLeq()), Sort(ys, RealLeq());
    var at := MaxGapIs(ref, cur, ref + cur);
    GapsAgree(xs, ys, at);
  }

  // It lies in [0, 1], does not care which sample is which, and exceeds the threshold
  // exactly when the distributions differ by more than that somewhere.
  lemma StatisticBehaves(xs: seq<real>, ys: seq<real>, threshold: real)
    requires xs != [] && ys != []
    ensures 0.0 <= Statistic(xs, ys) <= 1.0
    ensures Statistic(xs, ys) == Statistic(ys, xs)
    ensures Statistic(xs, ys) > threshold <==> exists x :: Gap(xs, ys, x) > threshold
  {
    hide Statistic, Gap;
    StatisticIsSupremum(xs, ys);
    StatisticIsSupremum(ys, xs);
    var x :| Gap(xs, ys, x) == Statistic(xs, ys);
    var y :| Gap(ys, xs, y) == Statistic(ys, xs);
    GapBounds(xs, ys, x);
    GapBounds(xs, ys, y);
  }

  lemma GapBounds(xs: seq<real>, ys: seq<real>, x: real)
    requires xs != [] && ys != []
    ensures 0.0 <= Gap(xs, ys, x) <= 1.0 && Gap(xs, ys, x) == Gap(ys, xs, x)
  {
    hide AtMost;
    EcdfBounds(xs, x);
    EcdfBounds(ys, x);
  }

  lemma EcdfBounds(xs: seq<real>, x: real)
    requires xs != []
    ensures 0.0 <= Ecdf(xs, x) <= 1.0
  {
    AtMostBound(xs, x);
    ShareOf(AtMost(xs, x) as real, |xs| as real);
  }

  lemma ShareOf(n: real, d: real)
    requires 0.0 <= n <= d && d > 0.0
    ensures 0.0 <= n / d <= 1.0
  {
    var q := n / d;
    assert q * d == n;
    assert (1.0 - q) * d == d - n;
  }
}
