// confusion, candidate_thresholds and best_threshold of the evidence tooling: how well a
// rule "feature > T" separates cheap contracts from expensive ones.
module Threshold {
  import opened Options
  import opened Collecting
  import opened Sorting

  datatype Row = Row(name: string, value: real, cost: real)

  datatype Confusion = Confusion(threshold: real, tp: nat, fp: nat, tn: nat, fn: nat, fps: seq<string>, fns: seq<string>)
  {
    function Errors(): nat {
      fp + fn
    }
  }

  // ------------------------------------------------------------------------------
  // Scoring one rule
  // ------------------------------------------------------------------------------

  datatype Cell = TruePositive | FalsePositive | TrueNegative | FalseNegative

  function CellOf(threshold: real, reference: real, row: Row): Cell {
    if row.value > threshold then (if row.cost > reference then TruePositive else FalsePositive)
    else (if row.cost > reference then FalseNegative else TrueNegative)
  }

  // The rows that fall in one cell, in order.
  function InCell(threshold: real, reference: real, rows: seq<Row>, cell: Cell): seq<Row> {
    if rows == [] then []
    else
      InCell(threshold, reference, rows[..|rows| - 1], cell)
      + (if CellOf(threshold, reference, rows[|rows| - 1]) == cell then [rows[|rows| - 1]] else [])
  }

  function Names(rows: seq<Row>): seq<string> {
    if rows == [] then [] else Names(rows[..|rows| - 1]) + [rows[|rows| - 1].name]
  }

  function FirstNames(rows: seq<Row>, n: nat): seq<string> {
    Names(if |rows| > n then rows[..n] else rows)
  }

  ghost predicate Scores(c: Confusion, threshold: real, reference: real, rows: seq<Row>, examples: nat) {
    && c.threshold == threshold
    && c.tp == |InCell(threshold, reference, rows, TruePositive)|
    && c.fp == |InCell(threshold, reference, rows, FalsePositive)|
    && c.tn == |InCell(threshold, reference, rows, TrueNegative)|
    && c.fn == |InCell(threshold, reference, rows, FalseNegative)|
    && c.fps == FirstNames(InCell(threshold, reference, rows, FalsePositive), examples)
    && c.fns == FirstNames(InCell(threshold, reference, rows, FalseNegative), examples)
  }

  // The four outcomes of the rule "value above the threshold" on a row.
  predicate Belongs(threshold: real, reference: real, row: Row, cell: Cell) {
    match cell
    case TruePositive => row.value > threshold && row.cost > reference
    case FalsePositive => row.value > threshold && row.cost <= reference
    case TrueNegative => row.value <= threshold && row.cost <= reference
    case FalseNegative => row.value <= threshold && row.cost > reference
  }

  // A cell holds exactly the rows with its outcome, once each and in order.
  lemma {:induction false} CellHoldsExactly(threshold: real, reference: real, rows: seq<Row>, cell: Cell) returns (at: seq<nat>)
    ensures var held := InCell(threshold, reference, rows, cell);
            && |at| == |held|
            && (forall k :: 0 <= k < |at| ==> at[k] < |rows| && held[k] == rows[at[k]] && Belongs(threshold, reference, rows[at[k]], cell))
            && (forall j, k :: 0 <= j < k < |at| ==> at[j] < at[k])
    ensures forall i :: 0 <= i < |rows| && Belongs(threshold, reference, rows[i], cell) ==> i in at
  {
    if rows == [] {
      at := [];
    } else {
      var n := |rows| - 1;
      at := CellHoldsExactly(threshold, reference, rows[..n], cell);
      assert CellOf(threshold, reference, rows[n]) == cell <==> Belongs(threshold, reference, rows[n], cell);
      forall i | 0 <= i < n && Belongs(threshold, reference, rows[i], cell) ensures i in at {
        assert rows[..n][i] == rows[i];
      }
      if Belongs(threshold, reference, rows[n], cell) {
        at := at + [n];
      }
    }
  }

  // The examples are the names of the first rows.
  lemma {:induction false} NamesAreInOrder(rows: seq<Row>)
    ensures |Names(rows)| == |rows| && forall k :: 0 <= k < |rows| ==> Names(rows)[k] == rows[k].name
  {
    if rows != [] {
      NamesAreInOrder(rows[..|rows| - 1]);
    }
  }

  lemma ExamplesAreTheFirst(rows: seq<Row>, n: nat)
    ensures |FirstNames(rows, n)| == (if |rows| < n then |rows| else n)
    ensures forall k :: 0 <= k < |FirstNames(rows, n)| ==> FirstNames(rows, n)[k] == rows[k].name
  {
    NamesAreInOrder(if |rows| > n then rows[..n] else rows);
  }

  lemma CellStep(threshold: real, reference: real, rows: seq<Row>, i: nat, cell: Cell)
    requires i < |rows|
    ensures InCell(threshold, reference, rows[..i + 1], cell)
         == if CellOf(threshold, reference, rows[i]) == cell then InCell(threshold, reference, rows[..i], cell) + [rows[i]]
            else InCell(threshold, reference, rows[..i], cell)
  {
    assert rows[..i + 1][..i] == rows[..i];
  }

  lemma NextName(rows: seq<Row>, row: Row, n: nat)
    ensures FirstNames(rows + [row], n) == if |rows| < n then FirstNames(rows, n) + [row.name] else FirstNames(rows, n)
    ensures |FirstNames(rows, n)| == if |rows| < n then |rows| else n
  {
    assert (rows + [row])[..|rows|] == rows;
    if |rows| >= n {
      assert (rows + [row])[..n] == rows[..n];
    }
    NamesLength(if |rows| > n then rows[..n] else rows);
  }

  lemma {:induction false} NamesLength(rows: seq<Row>)
    ensures |Names(rows)| == |rows|
  {
    if rows != [] {
      NamesLength(rows[..|rows| - 1]);
    }
  }

  // confusion.
  method ScoreRule(threshold: real, reference: real, rows: seq<Row>, examples: nat) returns (c: Confusion)
    ensures Scores(c, threshold, reference, rows, examples)
    ensures c.tp + c.fp + c.tn + c.fn == |rows|
  {
    hide Scores;
    var tp, fp, tn, fn := 0, 0, 0, 0;
    var fps, fns := [], [];
    NothingScored(threshold, reference, examples);
    for i := 0 to |rows|
      invariant Scores(Confusion(threshold, tp, fp, tn, fn, fps, fns), threshold, reference, rows[..i], examples)
      invariant tp + fp + tn + fn == i
    {
      var row := rows[i];
      ScoreOneMore(Confusion(threshold, tp, fp, tn, fn, fps, fns), threshold, reference, rows, examples, i);
      var rejected, expensive := row.value > threshold, row.cost > reference;
      if rejected && expensive {
        tp := tp + 1;
      } else if rejected && !expensive {
        fp := fp + 1;
        if |fps| < examples {
          fps := fps + [row.name];
        }
      } else if !rejected && !expensive {
        tn := tn + 1;
      } else {
        fn := fn + 1;
        if |fns| < examples {
          fns := fns + [row.name];
        }
      }
    }
    assert rows[..|rows|] == rows;
    c := Confusion(threshold, tp, fp, tn, fn, fps, fns);
  }

  function Scored(c: Confusion, row: Row, cell: Cell, examples: nat): Confusion {
    match cell
    case TruePositive => c.(tp := c.tp + 1)
    case FalsePositive => c.(fp := c.fp + 1, fps := if |c.fps| < examples then c.fps + [row.name] else c.fps)
    case TrueNegative => c.(tn := c.tn + 1)
    case FalseNegative => c.(fn := c.fn + 1, fns := if |c.fns| < examples then c.fns + [row.name] else c.fns)
  }

  lemma ScoreOneMore(c: Confusion, threshold: real, reference: real, rows: seq<Row>, examples: nat, i: nat)
    requires i < |rows| && Scores(c, threshold, reference, rows[..i], examples)
    ensures Scores(Scored(c, rows[i], CellOf(threshold, reference, rows[i]), examples), threshold, reference, rows[..i + 1], examples)
  {
    hide InCell, FirstNames;
    CellStep(threshold, reference, rows, i, TruePositive);
    CellStep(threshold, reference, rows, i, FalsePositive);
    CellStep(threshold, reference, rows, i, TrueNegative);
    CellStep(threshold, reference, rows, i, FalseNegative);
    NextName(InCell(threshold, reference, rows[..i], FalsePositive), rows[i], examples);
    NextName(InCell(threshold, reference, rows[..i], FalseNegative), rows[i], examples);
  }

  lemma NothingScored(threshold: real, reference: real, examples: nat)
    ensures Scores(Confusion(threshold, 0, 0, 0, 0, [], []), threshold, reference, [], examples)
  {
  }

  // How many rows the rule "value > threshold" misclassifies.
  function Misclassified(threshold: real, reference: real, rows: seq<Row>): nat {
    |InCell(threshold, reference, rows, FalsePositive)| + |InCell(threshold, reference, rows, FalseNegative)|
  }

  // ------------------------------------------------------------------------------
  // The candidates
  // ------------------------------------------------------------------------------

  function ValuesOf(rows: seq<Row>): seq<real> {
    if rows == [] then [] else ValuesOf(rows[..|rows| - 1]) + [rows[|rows| - 1].value]
  }

  lemma LastValue(rows: seq<Row>, rest: seq<Row>)
    requires rows != [] && rest == rows[..|rows| - 1]
    ensures rows[|rows| - 1].value in ValuesOf(rows)
    ensures forall v :: v in ValuesOf(rest) ==> v in ValuesOf(rows)
  {
    assert ValuesOf(rows) == ValuesOf(rest) + [rows[|rows| - 1].value];
  }

  // sorted(set(values))
  function DistinctSorted(values: seq<real>): seq<real> {
    Sort(Distinct(values), RealLeq())
  }

  function Midpoints(xs: seq<real>): seq<real> {
    if |xs| < 2 then [] else Midpoints(xs[..|xs| - 1]) + [(xs[|xs| - 2] + xs[|xs| - 1]) / 2.0]
  }

  // candidate_thresholds.
  function CandidateThresholds(values: seq<real>): seq<real> {
    Midpoints(DistinctSorted(values))
  }

  lemma {:induction false} MidpointsAre(xs: seq<real>)
    ensures |Midpoints(xs)| == if |xs| < 2 then 0 else |xs| - 1
    ensures forall k :: 0 <= k < |xs| - 1 ==> Midpoints(xs)[k] == (xs[k] + xs[k + 1]) / 2.0
  {
    if |xs| >= 2 {
      MidpointsAre(xs[..|xs| - 1]);
    }
  }

  ghost predicate StrictlySorted(xs: seq<real>) {
    forall i, j :: 0 <= i < j < |xs| ==> xs[i] < xs[j]
  }

  lemma DistinctSortedIs(values: seq<real>)
    ensures StrictlySorted(DistinctSorted(values))
    ensures forall v :: v in DistinctSorted(values) <==> v in values
  {
    var distinct, sorted := Distinct(values), DistinctSorted(values);
    SortSorts(distinct, RealLeq());
    SortMembers(distinct, RealLeq());
    DistinctIs(values);
    StillDistinct(sorted, distinct);
  }

  // Two thresholds with no value between them make the same rule.
  ghost predicate SameSplit(values: seq<real>, s: real, t: real) {
    forall v :: v in values ==> (v > s <==> v > t)
  }

  // Every threshold from the least value up to, but not including, the greatest splits
  // the values as some candidate does.
  lemma SomeCandidateSplitsAlike(values: seq<real>, t: real) returns (k: nat)
    requires (exists v :: v in values && v <= t) && (exists v :: v in values && t < v)
    ensures k < |CandidateThresholds(values)| && SameSplit(values, t, CandidateThresholds(values)[k])
  {
    hide DistinctSorted, Midpoints, StrictlySorted, SameSplit;
    DistinctSortedIs(values);
    var distinct := DistinctSorted(values);
    k := GapAround(values, distinct, t);
    MidpointsAre(distinct);
    MidpointSplitsAlike(values, distinct, t, k);
  }

  lemma GapAround(values: seq<real>, distinct: seq<real>, t: real) returns (k: nat)
    requires StrictlySorted(distinct) && forall v :: v in values ==> v in distinct
    requires (exists v :: v in values && v <= t) && (exists v :: v in values && t < v)
    ensures k + 1 < |distinct| && distinct[k] <= t < distinct[k + 1]
  {
    var low :| low in values && low <= t;
    var high :| high in values && t < high;
    var i :| 0 <= i < |distinct| && distinct[i] == low;
    var j :| 0 <= j < |distinct| && distinct[j] == high;
    k := Gap(distinct, t, i, j);
  }

  lemma MidpointSplitsAlike(values: seq<real>, distinct: seq<real>, t: real, k: nat)
    requires StrictlySorted(distinct) && forall v :: v in values ==> v in distinct
    requires k + 1 < |distinct| && distinct[k] <= t < distinct[k + 1]
    ensures SameSplit(values, t, (distinct[k] + distinct[k + 1]) / 2.0)
  {
    var m := (distinct[k] + distinct[k + 1]) / 2.0;
    assert distinct[k] < m < distinct[k + 1];
    forall v | v in values ensures v > t <==> v > m {
      var at :| 0 <= at < |distinct| && distinct[at] == v;
      assert at <= k ==> v <= distinct[k];
      assert at >= k + 1 ==> v >= distinct[k + 1];
    }
  }

  lemma {:induction false} Gap(xs: seq<real>, t: real, i: nat, j: nat) returns (k: nat)
    requires StrictlySorted(xs) && i < |xs| && j < |xs| && xs[i] <= t < xs[j]
    ensures k + 1 < |xs| && xs[k] <= t < xs[k + 1]
    decreases j
  {
    assert i < j;
    if i + 1 == j {
      k := i;
    } else if xs[j - 1] <= t {
      k := j - 1;
    } else {
      k := Gap(xs, t, i, j - 1);
    }
  }

  lemma {:induction false} SameSplitSameCells(rows: seq<Row>, s: real, t: real, reference: real, cell: Cell)
    requires SameSplit(ValuesOf(rows), s, t)
    ensures InCell(s, reference, rows, cell) == InCell(t, reference, rows, cell)
  {
    if rows != [] {
      var rest := rows[..|rows| - 1];
      LastValue(rows, rest);
      SameSplitSameCells(rest, s, t, reference, cell);
    }
  }

  // ------------------------------------------------------------------------------
  // best_threshold
  // ------------------------------------------------------------------------------

  ghost predicate Best(c: Confusion, reference: real, rows: seq<Row>, examples: nat) {
    var candidates := CandidateThresholds(ValuesOf(rows));
    && c.threshold in candidates && Scores(c, c.threshold, reference, rows, examples)
    && forall t :: t in candidates ==>
         c.Errors() < Misclassified(t, reference, rows)
         || (c.Errors() == Misclassified(t, reference, rows) && c.threshold <= t)
  }

  method BestThreshold(reference: real, rows: seq<Row>) returns (best: Option<Confusion>)
    ensures best.None? <==> CandidateThresholds(ValuesOf(rows)) == []
    ensures best.Some? ==> Best(best.value, reference, rows, 4)
  {
    hide InCell, FirstNames, CandidateThresholds;
    var thresholds := CandidateThresholds(ValuesOf(rows));
    if thresholds == [] {
      return None;
    }
    var least := ScoreRule(thresholds[0], reference, rows, 4);
    for i := 1 to |thresholds|
      invariant least.threshold in thresholds[..i] && Scores(least, least.threshold, reference, rows, 4)
      invariant forall t :: t in thresholds[..i] ==>
                  least.Errors() < Misclassified(t, reference, rows)
                  || (least.Errors() == Misclassified(t, reference, rows) && least.threshold <= t)
    {
      var c := ScoreRule(thresholds[i], reference, rows, 4);
      if c.Errors() < least.Errors() || (c.Errors() == least.Errors() && c.threshold < least.threshold) {
        least := c;
      }
      assert thresholds[..i + 1] == thresholds[..i] + [thresholds[i]];
    }
    assert thresholds[..|thresholds|] == thresholds;
    best := Some(least);
  }

  // There is no candidate exactly when the rows do not show two different values.
  lemma NoCandidateExactlyWhen(values: seq<real>)
    ensures CandidateThresholds(values) == [] <==> forall v, w :: v in values && w in values ==> v == w
  {
    hide DistinctSorted, Midpoints;
    DistinctSortedIs(values);
    var distinct := DistinctSorted(values);
    MidpointsAre(distinct);
    if |distinct| >= 2 {
      assert distinct[0] in values && distinct[1] in values && distinct[0] < distinct[1];
    }
  }

  // No threshold between the least and the greatest value misclassifies fewer rows.
  lemma BestIsOptimal(c: Confusion, reference: real, rows: seq<Row>, examples: nat, t: real)
    requires Best(c, reference, rows, examples)
    requires (exists v :: v in ValuesOf(rows) && v <= t) && (exists v :: v in ValuesOf(rows) && t < v)
    ensures c.Errors() <= Misclassified(t, reference, rows)
  {
    hide CandidateThresholds, InCell;
    var k := SomeCandidateSplitsAlike(ValuesOf(rows), t);
    var candidate := CandidateThresholds(ValuesOf(rows))[k];
    assert candidate in CandidateThresholds(ValuesOf(rows));
    SameSplitSameCells(rows, t, candidate, reference, FalsePositive);
    SameSplitSameCells(rows, t, candidate, reference, FalseNegative);
  }

  // ------------------------------------------------------------------------------
  // Outside that range
  // ------------------------------------------------------------------------------

  function Cheap(reference: real, rows: seq<Row>): nat {
    if rows == [] then 0 else Cheap(reference, rows[..|rows| - 1]) + if rows[|rows| - 1].cost > reference then 0 else 1
  }

  lemma {:induction false} RejectingAll(rows: seq<Row>, t: real, reference: real)
    requires forall v :: v in ValuesOf(rows) ==> v > t
    ensures Misclassified(t, reference, rows) == Cheap(reference, rows)
  {
    if rows != [] {
      var rest := rows[..|rows| - 1];
      LastValue(rows, rest);
      RejectingAll(rest, t, reference);
    }
  }

  lemma {:induction false} RejectingNone(rows: seq<Row>, t: real, reference: real)
    requires forall v :: v in ValuesOf(rows) ==> v <= t
    ensures Misclassified(t, reference, rows) == |rows| - Cheap(reference, rows)
  {
    if rows != [] {
      var rest := rows[..|rows| - 1];
      LastValue(rows, rest);
      RejectingNone(rest, t, reference);
    }
  }

  lemma {:induction false} Extremes(values: seq<real>) returns (low: real, high: real)
    ensures forall v :: v in values ==> low < v <= high
  {
    if values == [] {
      low, high := 0.0, 0.0;
    } else {
      low, high := Extremes(values[..|values| - 1]);
      var last := values[|values| - 1];
      assert values == values[..|values| - 1] + [last];
      if last <= low { low := last - 1.0; }
      if last > high { high := last; }
    }
  }

  // Some candidate errs on no more rows than there are cheap ones, and on no more than there
  // are expensive ones.
  ghost predicate ACandidateDoesAsWell(reference: real, rows: seq<Row>) {
    exists t :: t in CandidateThresholds(ValuesOf(rows))
             && Misclassified(t, reference, rows) <= Cheap(reference, rows)
             && Misclassified(t, reference, rows) <= |rows| - Cheap(reference, rows)
  }

  // The candidates leave out the two rules that reject everything and nothing, which err on
  // every cheap row and on every expensive row respectively. The best candidate is best among
  // all real thresholds exactly when some candidate does as well as both.
  lemma OptimalEverywhereExactlyWhen(c: Confusion, reference: real, rows: seq<Row>, examples: nat)
    requires Best(c, reference, rows, examples)
    ensures (forall t: real :: c.Errors() <= Misclassified(t, reference, rows))
       <==> ACandidateDoesAsWell(reference, rows)
  {
    hide Best, Misclassified, Cheap, ValuesOf, CandidateThresholds;
    BestOfCandidates(c, reference, rows, examples);
    var low, high := Extremes(ValuesOf(rows));
    RejectingAll(rows, low, reference);
    RejectingNone(rows, high, reference);
    if c.Errors() <= Cheap(reference, rows) && c.Errors() <= |rows| - Cheap(reference, rows) {
      forall t: real ensures c.Errors() <= Misclassified(t, reference, rows) {
        if forall v :: v in ValuesOf(rows) ==> v > t {
          RejectingAll(rows, t, reference);
        } else if forall v :: v in ValuesOf(rows) ==> v <= t {
          RejectingNone(rows, t, reference);
        } else {
          BestIsOptimal(c, reference, rows, examples, t);
        }
      }
    }
  }

  lemma BestOfCandidates(c: Confusion, reference: real, rows: seq<Row>, examples: nat)
    requires Best(c, reference, rows, examples)
    ensures c.threshold in CandidateThresholds(ValuesOf(rows)) && Misclassified(c.threshold, reference, rows) == c.Errors()
    ensures forall t :: t in CandidateThresholds(ValuesOf(rows)) ==> c.Errors() <= Misclassified(t, reference, rows)
  {
    hide CandidateThresholds, ValuesOf;
  }

  const TWO_CHEAP_ROWS := [Row("a", 1.0, 5.0), Row("b", 2.0, 5.0)]

  lemma TwoCheapRows()
    ensures ValuesOf(TWO_CHEAP_ROWS) == [1.0, 2.0]
    ensures Misclassified(1.5, 10.0, TWO_CHEAP_ROWS) == 1 && Misclassified(2.0, 10.0, TWO_CHEAP_ROWS) == 0
  {
    var a, b := Row("a", 1.0, 5.0), Row("b", 2.0, 5.0);
    assert [a, b][..1] == [a] && [a][..0] == [];
    assert ValuesOf([a]) == [1.0];
    TwoRows(a, b, 1.5, 10.0, FalsePositive);
    TwoRows(a, b, 1.5, 10.0, FalseNegative);
    TwoRows(a, b, 2.0, 10.0, FalsePositive);
    TwoRows(a, b, 2.0, 10.0, FalseNegative);
  }

  lemma TwoRows(a: Row, b: Row, threshold: real, reference: real, cell: Cell)
    ensures |InCell(threshold, reference, [a, b], cell)|
         == (if CellOf(threshold, reference, a) == cell then 1 else 0) + (if CellOf(threshold, reference, b) == cell then 1 else 0)
  {
    CellStep(threshold, reference, [a, b], 0, cell);
    CellStep(threshold, reference, [a, b], 1, cell);
    assert [a, b][..0] == [] && [a, b][..2] == [a, b];
  }

  // Two cheap rows are enough to see it: the best candidate rejects one of them, and a
  // threshold at the greatest value rejects neither.
  lemma RejectingNothingCanWin(c: Confusion, examples: nat)
    requires Best(c, 10.0, TWO_CHEAP_ROWS, examples)
    ensures c.Errors() == 1 && Misclassified(2.0, 10.0, TWO_CHEAP_ROWS) == 0
  {
    hide CandidateThresholds, InCell, ValuesOf;
    TwoCheapRows();
    CandidateBetween(ValuesOf(TWO_CHEAP_ROWS), c.threshold);
    SameSplitSameCells(TWO_CHEAP_ROWS, c.threshold, 1.5, 10.0, FalsePositive);
    SameSplitSameCells(TWO_CHEAP_ROWS, c.threshold, 1.5, 10.0, FalseNegative);
  }

  lemma CandidateBetween(values: seq<real>, t: real)
    requires values == [1.0, 2.0] && t in CandidateThresholds(values)
    ensures 1.0 < t < 2.0
  {
    hide DistinctSorted, Midpoints;
    DistinctSortedIs(values);
    var distinct, candidates := DistinctSorted(values), CandidateThresholds(values);
    MidpointsAre(distinct);
    var k :| 0 <= k < |candidates| && candidates[k] == t;
    assert distinct[k] in values && distinct[k + 1] in values && distinct[k] < distinct[k + 1];
  }
}
