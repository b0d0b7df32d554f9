/** External validation of a clustering against the true labels: every
    ordered pair of distinct points is counted as a true positive, false
    negative, false positive or true negative, and the Jaccard and Rand
    indices are taken from the four counts. */
module Validation {
  import opened Optional

  /** The four pair counts. */
  datatype Tally = Tally(tp: nat, fn: nat, fp: nat, tn: nat)

  function Total(t: Tally): nat
  {
    t.tp + t.fn + t.fp + t.tn
  }

  /** Every count is even. */
  predicate Even(t: Tally)
  {
    t.tp % 2 == 0 && t.fn % 2 == 0 && t.fp % 2 == 0 && t.tn % 2 == 0
  }

  /** The four categories an ordered pair of distinct points falls in. */
  datatype Category = TruePositive | FalseNegative | FalsePositive | TrueNegative

  /** True and predicted labels for the same points. */
  predicate Labelled(labels: seq<real>, generated: seq<real>)
  {
    |labels| == |generated|
  }

  /** The category of the pair (i, j), by whether the true labels agree and
      whether the predicted labels agree. */
  function Kind(labels: seq<real>, generated: seq<real>, i: nat, j: nat): (c: Category)
    requires Labelled(labels, generated) && i < |labels| && j < |labels|
    ensures c in {TruePositive, FalseNegative} <==> labels[i] == labels[j]
    ensures c in {TruePositive, FalsePositive} <==> generated[i] == generated[j]
  {
    if labels[i] == labels[j] then
      if generated[i] == generated[j] then TruePositive else FalseNegative
    else
      if generated[i] == generated[j] then FalsePositive else TrueNegative
  }

  /** One when (i, j) is a pair of distinct points in category `c`. */
  function Hit(labels: seq<real>, generated: seq<real>, c: Category, i: nat, j: nat): nat
    requires Labelled(labels, generated) && i < |labels| && j < |labels|
  {
    if i != j && Kind(labels, generated, i, j) == c then 1 else 0
  }

  /** The pairs (i, j) in category `c` for j < m. */
  function RowCount(labels: seq<real>, generated: seq<real>, c: Category, i: nat, m: nat): nat
    requires Labelled(labels, generated) && i < |labels| && m <= |labels|
  {
    if m == 0 then 0 else RowCount(labels, generated, c, i, m - 1) + Hit(labels, generated, c, i, m - 1)
  }

  /** The pairs (i, j) in category `c` for i < k and j < m. */
  function GridCount(labels: seq<real>, generated: seq<real>, c: Category, k: nat, m: nat): nat
    requires Labelled(labels, generated) && k <= |labels| && m <= |labels|
  {
    if k == 0 then 0 else GridCount(labels, generated, c, k - 1, m) + RowCount(labels, generated, c, k - 1, m)
  }

  /** The pairs (i, j) in category `c` for i < k, at a fixed j. */
  function ColumnCount(labels: seq<real>, generated: seq<real>, c: Category, j: nat, k: nat): nat
    requires Labelled(labels, generated) && j < |labels| && k <= |labels|
  {
    if k == 0 then 0 else ColumnCount(labels, generated, c, j, k - 1) + Hit(labels, generated, c, k - 1, j)
  }

  /** The four counts over the pairs (i, j) with i < k and j < m. */
  function GridTally(labels: seq<real>, generated: seq<real>, k: nat, m: nat): Tally
    requires Labelled(labels, generated) && k <= |labels| && m <= |labels|
  {
    Tally(GridCount(labels, generated, TruePositive, k, m), GridCount(labels, generated, FalseNegative, k, m),
          GridCount(labels, generated, FalsePositive, k, m), GridCount(labels, generated, TrueNegative, k, m))
  }

  /** Every ordered pair of distinct points, counted once in its category. */
  function PairCounts(labels: seq<real>, generated: seq<real>): Tally
    requires Labelled(labels, generated)
  {
    GridTally(labels, generated, |labels|, |labels|)
  }

  // ---------------------------------------------------------------------------
  // Every ordered pair is counted exactly once
  // ---------------------------------------------------------------------------

  /** The pairs (i, j) with j < m in any category. */
  function RowTotal(labels: seq<real>, generated: seq<real>, i: nat, m: nat): nat
    requires Labelled(labels, generated) && i < |labels| && m <= |labels|
  {
    RowCount(labels, generated, TruePositive, i, m) + RowCount(labels, generated, FalseNegative, i, m) +
    RowCount(labels, generated, FalsePositive, i, m) + RowCount(labels, generated, TrueNegative, i, m)
  }

  lemma {:induction false} RowTotalCount(labels: seq<real>, generated: seq<real>, i: nat, m: nat)
    requires Labelled(labels, generated) && i < |labels| && m <= |labels|
    ensures RowTotal(labels, generated, i, m) == if i < m then m - 1 else m
    decreases m
  {
    if m > 0 {
      RowTotalCount(labels, generated, i, m - 1);
    }
  }

  lemma {:induction false} GridTotalCount(labels: seq<real>, generated: seq<real>, k: nat)
    requires Labelled(labels, generated) && k <= |labels|
    ensures Total(GridTally(labels, generated, k, |labels|)) == k * (|labels| - 1)
    decreases k
  {
    if k > 0 {
      GridTotalCount(labels, generated, k - 1);
      RowTotalCount(labels, generated, k - 1, |labels|);
      assert Total(GridTally(labels, generated, k, |labels|)) ==
        Total(GridTally(labels, generated, k - 1, |labels|)) + RowTotal(labels, generated, k - 1, |labels|);
      MultiplyStep(k, |labels| - 1);
    }
  }

  lemma MultiplyStep(k: nat, w: int)
    requires k > 0
    ensures k * w == (k - 1) * w + w
  {
  }

  /** The four counts add up to n(n - 1), the number of ordered pairs of
      distinct points. */
  lemma PairCountsTotal(labels: seq<real>, generated: seq<real>)
    requires Labelled(labels, generated)
    ensures Total(PairCounts(labels, generated)) == |labels| * (|labels| - 1)
  {
    GridTotalCount(labels, generated, |labels|);
  }

  // ---------------------------------------------------------------------------
  // (i, j) and (j, i) fall in the same category, so every count is even
  // ---------------------------------------------------------------------------

  lemma {:induction false} ColumnIsRow(labels: seq<real>, generated: seq<real>, c: Category, j: nat, k: nat)
    requires Labelled(labels, generated) && j < |labels| && k <= |labels|
    ensures ColumnCount(labels, generated, c, j, k) == RowCount(labels, generated, c, j, k)
    decreases k
  {
    if k > 0 {
      ColumnIsRow(labels, generated, c, j, k - 1);
      assert Kind(labels, generated, k - 1, j) == Kind(labels, generated, j, k - 1);
    }
  }

  /** Widening the grid by one column adds that column. */
  lemma {:induction false} GridWiden(labels: seq<real>, generated: seq<real>, c: Category, k: nat, m: nat)
    requires Labelled(labels, generated) && k <= |labels| && m < |labels|
    ensures GridCount(labels, generated, c, k, m + 1) ==
      GridCount(labels, generated, c, k, m) + ColumnCount(labels, generated, c, m, k)
    decreases k
  {
    if k > 0 {
      GridWiden(labels, generated, c, k - 1, m);
    }
  }

  /** The square grid over the first k points has an even count in every
      category. */
  lemma {:induction false} SquareEven(labels: seq<real>, generated: seq<real>, c: Category, k: nat)
    requires Labelled(labels, generated) && k <= |labels|
    ensures GridCount(labels, generated, c, k, k) % 2 == 0
    decreases k
  {
    if k > 0 {
      var j := k - 1;
      SquareEven(labels, generated, c, j);
      GridWiden(labels, generated, c, j, j);
      ColumnIsRow(labels, generated, c, j, j);
      assert GridCount(labels, generated, c, k, k) ==
        GridCount(labels, generated, c, j, j) + 2 * RowCount(labels, generated, c, j, j);
    }
  }

  /** Each of the four counts is even. */
  lemma PairCountsEven(labels: seq<real>, generated: seq<real>)
    requires Labelled(labels, generated)
    ensures Even(PairCounts(labels, generated))
  {
    SquareEven(labels, generated, TruePositive, |labels|);
    SquareEven(labels, generated, FalseNegative, |labels|);
    SquareEven(labels, generated, FalsePositive, |labels|);
    SquareEven(labels, generated, TrueNegative, |labels|);
  }

  // ---------------------------------------------------------------------------
  // A prediction that groups the points as the labels do
  // ---------------------------------------------------------------------------

  /** Two points share a predicted label exactly when they share a true
      label. */
  predicate SameGrouping(labels: seq<real>, generated: seq<real>)
    requires Labelled(labels, generated)
  {
    forall i, j :: 0 <= i < |labels| && 0 <= j < |labels| ==>
      (labels[i] == labels[j] <==> generated[i] == generated[j])
  }

  /** A pair the prediction gets wrong. */
  predicate Mistake(c: Category)
  {
    c == FalseNegative || c == FalsePositive
  }

  lemma {:induction false} RowAgrees(labels: seq<real>, generated: seq<real>, c: Category, i: nat, m: nat)
    requires Labelled(labels, generated) && SameGrouping(labels, generated) && Mistake(c)
    requires i < |labels| && m <= |labels|
    ensures RowCount(labels, generated, c, i, m) == 0
    decreases m
  {
    if m > 0 {
      RowAgrees(labels, generated, c, i, m - 1);
      assert Kind(labels, generated, i, m - 1) != c;
    }
  }

  lemma {:induction false} GridAgrees(labels: seq<real>, generated: seq<real>, c: Category, k: nat)
    requires Labelled(labels, generated) && SameGrouping(labels, generated) && Mistake(c) && k <= |labels|
    ensures GridCount(labels, generated, c, k, |labels|) == 0
    decreases k
  {
    if k > 0 {
      GridAgrees(labels, generated, c, k - 1);
      RowAgrees(labels, generated, c, k - 1, |labels|);
    }
  }

  // ---------------------------------------------------------------------------
  // The indices
  // ---------------------------------------------------------------------------

  /** TP / (TP + FN + FP); the division by zero is None. */
  function Jaccard(t: Tally): (j: Option<real>)
    ensures j.Some? <==> t.tp + t.fn + t.fp > 0
    ensures j.Some? ==> 0.0 <= j.value <= 1.0
    ensures j.Some? ==> (j.value == 1.0 <==> t.fn + t.fp == 0)
  {
    var d := t.tp + t.fn + t.fp;
    if d == 0 then None else Some(t.tp as real / d as real)
  }

  /** (TP + TN) / (TP + FN + FP + TN); the division by zero is None. */
  function Rand(t: Tally): (r: Option<real>)
    ensures r.Some? <==> Total(t) > 0
    ensures r.Some? ==> 0.0 <= r.value <= 1.0
    ensures r.Some? ==> (r.value == 1.0 <==> t.fn + t.fp == 0)
  {
    if Total(t) == 0 then None else Some((t.tp + t.tn) as real / Total(t) as real)
  }

  /** Rand is defined whenever Jaccard is, and is never below it. */
  lemma RandAtLeastJaccard(t: Tally)
    requires Jaccard(t).Some?
    ensures Rand(t).Some? && Jaccard(t).value <= Rand(t).value
  {
    var a, b := t.tp as real, (t.tp + t.fn + t.fp) as real;
    var c := t.tn as real;
    assert a * (b + c) <= (a + c) * b by {
      assert a <= b;
      assert c * a <= c * b;
    }
    assert a / b <= (a + c) / (b + c);
  }

  /** With a perfect prediction there are no false negatives or false
      positives: Jaccard is one when some pair shares a label, and Rand is
      one when there are at least two points. */
  lemma PerfectGrouping(labels: seq<real>, generated: seq<real>)
    requires Labelled(labels, generated) && SameGrouping(labels, generated)
    ensures PairCounts(labels, generated).fn == 0 && PairCounts(labels, generated).fp == 0
    ensures PairCounts(labels, generated).tp > 0 ==> Jaccard(PairCounts(labels, generated)) == Some(1.0)
    ensures |labels| >= 2 ==> Rand(PairCounts(labels, generated)) == Some(1.0)
  {
    GridAgrees(labels, generated, FalseNegative, |labels|);
    GridAgrees(labels, generated, FalsePositive, |labels|);
    PairCountsTotal(labels, generated);
    if |labels| >= 2 {
      assert |labels| * (|labels| - 1) > 0;
    }
  }

  // ---------------------------------------------------------------------------
  // The counting loop
  // ---------------------------------------------------------------------------

  /** Counts every ordered pair of distinct points into its category. */
  method CountPairs(labels: seq<real>, generated: seq<real>) returns (t: Tally)
    requires Labelled(labels, generated)
    ensures t == PairCounts(labels, generated)
    ensures Total(t) == |labels| * (|labels| - 1) && Even(t)
  {
    var truePositives, falseNegatives, falsePositives, trueNegatives := 0, 0, 0, 0;
    for pointI := 0 to |labels|
      invariant Tally(truePositives, falseNegatives, falsePositives, trueNegatives)
        == GridTally(labels, generated, pointI, |labels|)
    {
      for pointJ := 0 to |labels|
        invariant truePositives == GridCount(labels, generated, TruePositive, pointI, |labels|) +
          RowCount(labels, generated, TruePositive, pointI, pointJ)
        invariant falseNegatives == GridCount(labels, generated, FalseNegative, pointI, |labels|) +
          RowCount(labels, generated, FalseNegative, pointI, pointJ)
        invariant falsePositives == GridCount(labels, generated, FalsePositive, pointI, |labels|) +
          RowCount(labels, generated, FalsePositive, pointI, pointJ)
        invariant trueNegatives == GridCount(labels, generated, TrueNegative, pointI, |labels|) +
          RowCount(labels, generated, TrueNegative, pointI, pointJ)
      {
        if pointI != pointJ {
          if labels[pointI] == labels[pointJ] {
            if generated[pointI] == generated[pointJ] {
              truePositives := truePositives + 1;
            } else {
              falseNegatives := falseNegatives + 1;
            }
          } else {
            if generated[pointI] == generated[pointJ] {
              falsePositives := falsePositives + 1;
            } else {
              trueNegatives := trueNegatives + 1;
            }
          }
        }
      }
    }
    t := Tally(truePositives, falseNegatives, falsePositives, trueNegatives);
    PairCountsTotal(labels, generated);
    PairCountsEven(labels, generated);
  }
}
