/** The two double-precision constants the program seeds its running
    bounds and best-so-far records with, as exact reals. */
module Doubles {
  /** The largest finite double, (2 - 2^-52) * 2^1023. */
  const DOUBLE_MAX: real := 179769313486231570814527423731704356798070567525844996598917476803157260780028538760589558632766878171540458953514382464234321326889464182768467546703537516986049910576551282076245490090389328944075868508455133942304583236903222948165808559332123348274797826204144723168738177180919299881250404026184124858368.0

  /** The smallest positive double, 2^-1074. */
  const DOUBLE_MIN: real := 1.0 / 202402253307310618352495346718917307049556649764142118356901358027430339567995346891960383701437124495187077864316811911389808737385793476867013399940738509921517424276566361364466907742093216341239767678472745068562007483424692698618103355649159556340810056512358769552333414615230502532186327508646006263307707741093494784.0
}

/** Per-column min-max normalisation of the data table, done in place before
    clustering. The column bounds start from the largest finite double and
    the smallest positive double, and a column whose bounds coincide is
    divided by one instead of zero. */
module Normalisation {
  import opened Doubles

  /** Every row has a value in column `a`. */
  predicate HasColumn(rows: seq<seq<real>>, a: nat)
  {
    forall e :: 0 <= e < |rows| ==> a < |rows[e]|
  }

  /** The running minimum of column `a`, started at the largest double and
      replaced by every strictly smaller value. */
  function Low(rows: seq<seq<real>>, a: nat): (lo: real)
    requires HasColumn(rows, a)
    ensures lo <= DOUBLE_MAX
    ensures forall e :: 0 <= e < |rows| ==> lo <= rows[e][a]
    decreases |rows|
  {
    if |rows| == 0 then DOUBLE_MAX
    else
      var lo := Low(rows[..|rows| - 1], a);
      if rows[|rows| - 1][a] < lo then rows[|rows| - 1][a] else lo
  }

  /** The running maximum of column `a`, started at the smallest positive
      double and replaced by every strictly larger value. */
  function High(rows: seq<seq<real>>, a: nat): (hi: real)
    requires HasColumn(rows, a)
    ensures hi >= DOUBLE_MIN
    ensures forall e :: 0 <= e < |rows| ==> rows[e][a] <= hi
    decreases |rows|
  {
    if |rows| == 0 then DOUBLE_MIN
    else
      var hi := High(rows[..|rows| - 1], a);
      if rows[|rows| - 1][a] > hi then rows[|rows| - 1][a] else hi
  }

  /** A value rescaled by its column's bounds; a zero spread divides by
      one. */
  function Scale(x: real, lo: real, hi: real): real
  {
    (x - lo) / (if hi - lo == 0.0 then 1.0 else hi - lo)
  }

  /** A value between the bounds lands in [0, 1]. */
  lemma ScaleInUnit(x: real, lo: real, hi: real)
    requires lo <= x <= hi
    ensures 0.0 <= Scale(x, lo, hi) <= 1.0
  {
    if hi - lo != 0.0 {
      assert x - lo <= hi - lo;
    }
  }

  /** Rescaling keeps the order of the values of a column. */
  lemma ScaleMonotone(x: real, y: real, lo: real, hi: real)
    requires lo <= hi && x <= y
    ensures Scale(x, lo, hi) <= Scale(y, lo, hi)
  {
    var s := if hi - lo == 0.0 then 1.0 else hi - lo;
    assert (y - lo) / s - (x - lo) / s == (y - x) / s;
  }

  /** Every value of column `a`, rescaled by the column's running bounds,
      lands in [0, 1]. */
  lemma NormalisedInUnit(rows: seq<seq<real>>, a: nat, e: nat)
    requires HasColumn(rows, a) && e < |rows|
    ensures 0.0 <= Scale(rows[e][a], Low(rows, a), High(rows, a)) <= 1.0
  {
    ScaleInUnit(rows[e][a], Low(rows, a), High(rows, a));
  }

  /** A column holding one finite value throughout normalises to zeros. */
  lemma {:induction false} ConstantColumnLow(rows: seq<seq<real>>, a: nat, v: real)
    requires HasColumn(rows, a) && |rows| > 0 && v <= DOUBLE_MAX
    requires forall e :: 0 <= e < |rows| ==> rows[e][a] == v
    ensures Low(rows, a) == v
    decreases |rows|
  {
    var n := |rows| - 1;
    if n > 0 {
      ConstantColumnLow(rows[..n], a, v);
    }
  }

  lemma ConstantColumnZero(rows: seq<seq<real>>, a: nat, v: real)
    requires HasColumn(rows, a) && |rows| > 0 && v <= DOUBLE_MAX
    requires forall e :: 0 <= e < |rows| ==> rows[e][a] == v
    ensures forall e :: 0 <= e < |rows| ==> Scale(rows[e][a], Low(rows, a), High(rows, a)) == 0.0
  {
    ConstantColumnLow(rows, a, v);
  }

  // ---------------------------------------------------------------------------
  // The running maximum started at the smallest positive double
  // ---------------------------------------------------------------------------

  /** A column of negative values: its largest value does not normalise to
      one, because the running maximum never leaves its positive start. */
  lemma LargestBelowOne()
    ensures var rows := [[-1.0], [-2.0]];
      HasColumn(rows, 0) && Low(rows, 0) == -2.0 && High(rows, 0) == DOUBLE_MIN &&
      Scale(-1.0, Low(rows, 0), High(rows, 0)) < 1.0
  {
    var rows: seq<seq<real>> := [[-1.0], [-2.0]];
    assert rows[..1] == [[-1.0]];
    assert rows[..1][..0] == rows[..0];
  }

  /** The running maximum as evidently intended: started at the lowest
      finite double. */
  function HighFromLowest(rows: seq<seq<real>>, a: nat): (hi: real)
    requires HasColumn(rows, a)
    ensures hi >= -DOUBLE_MAX
    ensures forall e :: 0 <= e < |rows| ==> rows[e][a] <= hi
    decreases |rows|
  {
    if |rows| == 0 then -DOUBLE_MAX
    else
      var hi := HighFromLowest(rows[..|rows| - 1], a);
      if rows[|rows| - 1][a] > hi then rows[|rows| - 1][a] else hi
  }

  /** Every value of column `a` is a finite double. */
  predicate FiniteColumn(rows: seq<seq<real>>, a: nat)
    requires HasColumn(rows, a)
  {
    forall e :: 0 <= e < |rows| ==> -DOUBLE_MAX <= rows[e][a] <= DOUBLE_MAX
  }

  /** Over finite values, both bounds are values of the column. */
  lemma {:induction false} BoundsAttained(rows: seq<seq<real>>, a: nat)
    requires HasColumn(rows, a) && |rows| > 0 && FiniteColumn(rows, a)
    ensures exists e :: 0 <= e < |rows| && rows[e][a] == Low(rows, a)
    ensures exists e :: 0 <= e < |rows| && rows[e][a] == HighFromLowest(rows, a)
    decreases |rows|
  {
    var n := |rows| - 1;
    assert rows[..n + 1] == rows;
    BoundsStepFrom(rows, a, n);
    if n == 0 {
      assert rows[0][a] == Low(rows, a) && rows[0][a] == HighFromLowest(rows, a);
    } else {
      BoundsAttained(rows[..n], a);
      var i :| 0 <= i < n && rows[..n][i][a] == Low(rows[..n], a);
      var j :| 0 <= j < n && rows[..n][j][a] == HighFromLowest(rows[..n], a);
      var lo := if rows[n][a] < Low(rows[..n], a) then n else i;
      var hi := if rows[n][a] > HighFromLowest(rows[..n], a) then n else j;
      assert rows[lo][a] == Low(rows, a);
      assert rows[hi][a] == HighFromLowest(rows, a);
    }
  }

  /** One more row moves the minimum and the intended maximum by that row's
      value only. */
  lemma BoundsStepFrom(rows: seq<seq<real>>, a: nat, m: nat)
    requires HasColumn(rows, a) && m < |rows|
    ensures HasColumn(rows[..m], a) && HasColumn(rows[..m + 1], a)
    ensures Low(rows[..m + 1], a) == if rows[m][a] < Low(rows[..m], a) then rows[m][a] else Low(rows[..m], a)
    ensures HighFromLowest(rows[..m + 1], a) ==
      if rows[m][a] > HighFromLowest(rows[..m], a) then rows[m][a] else HighFromLowest(rows[..m], a)
  {
    assert rows[..m + 1][..m] == rows[..m];
  }

  /** Distinct bounds send the lower bound to zero and the upper to one. */
  lemma ScaleEnds(lo: real, hi: real)
    requires lo != hi
    ensures Scale(lo, lo, hi) == 0.0 && Scale(hi, lo, hi) == 1.0
  {
    var s := hi - lo;
    assert s != 0.0;
    assert s / s == 1.0;
  }

  /** With the intended start, a column of finite values with any spread
      normalises onto the whole of [0, 1]: its smallest value to zero and its
      largest to one. */
  lemma IntendedSpansUnit(rows: seq<seq<real>>, a: nat)
    requires HasColumn(rows, a) && |rows| > 0 && FiniteColumn(rows, a)
    requires Low(rows, a) != HighFromLowest(rows, a)
    ensures exists e :: 0 <= e < |rows| && Scale(rows[e][a], Low(rows, a), HighFromLowest(rows, a)) == 0.0
    ensures exists e :: 0 <= e < |rows| && Scale(rows[e][a], Low(rows, a), HighFromLowest(rows, a)) == 1.0
  {
    var lo, hi := Low(rows, a), HighFromLowest(rows, a);
    BoundsAttained(rows, a);
    var i :| 0 <= i < |rows| && rows[i][a] == lo;
    var j :| 0 <= j < |rows| && rows[j][a] == hi;
    ScaleEnds(lo, hi);
    assert Scale(rows[i][a], lo, hi) == 0.0;
    assert Scale(rows[j][a], lo, hi) == 1.0;
  }

  // ---------------------------------------------------------------------------
  // The table, normalised in place
  // ---------------------------------------------------------------------------

  /** The table's values, row by row. */
  function Snapshot(data: array2<real>): (rows: seq<seq<real>>)
    reads data
    ensures |rows| == data.Length0
    ensures forall e :: 0 <= e < data.Length0 ==> |rows[e]| == data.Length1
    ensures forall e, a :: 0 <= e < data.Length0 && 0 <= a < data.Length1 ==> rows[e][a] == data[e, a]
  {
    seq(data.Length0, e reads data requires 0 <= e < data.Length0 =>
      seq(data.Length1, a reads data requires 0 <= a < data.Length1 => data[e, a]))
  }

  /** `lo` and `hi` are the running bounds of column `a` over the first `m`
      rows. */
  ghost predicate BoundsOver(rows: seq<seq<real>>, m: nat, a: nat, lo: real, hi: real)
  {
    m <= |rows| && HasColumn(rows[..m], a) && lo == Low(rows[..m], a) && hi == High(rows[..m], a)
  }

  /** One more row moves the running bounds by that row's value only. */
  lemma BoundsStep(rows: seq<seq<real>>, a: nat, m: nat)
    requires HasColumn(rows, a) && m < |rows|
    ensures HasColumn(rows[..m], a) && HasColumn(rows[..m + 1], a)
    ensures Low(rows[..m + 1], a) == if rows[m][a] < Low(rows[..m], a) then rows[m][a] else Low(rows[..m], a)
    ensures High(rows[..m + 1], a) == if rows[m][a] > High(rows[..m], a) then rows[m][a] else High(rows[..m], a)
  {
    assert rows[..m + 1][..m] == rows[..m];
  }

  /** Folds row `entry` into the running bounds of every column. */
  method FoldRow(data: array2<real>, min: array<real>, max: array<real>, entry: nat, ghost rows: seq<seq<real>>)
    requires rows == Snapshot(data) && entry < data.Length0
    requires min.Length == data.Length1 && max.Length == data.Length1 && min != max
    requires forall a :: 0 <= a < data.Length1 ==> BoundsOver(rows, entry, a, min[a], max[a])
    modifies min, max
    ensures forall a :: 0 <= a < data.Length1 ==> BoundsOver(rows, entry + 1, a, min[a], max[a])
  {
    for attribute := 0 to data.Length1
      invariant forall a :: 0 <= a < attribute ==> BoundsOver(rows, entry + 1, a, min[a], max[a])
      invariant forall a :: attribute <= a < data.Length1 ==> BoundsOver(rows, entry, a, min[a], max[a])
    {
      BoundsStep(rows, attribute, entry);
      var attributeValue := data[entry, attribute];
      if attributeValue < min[attribute] {
        min[attribute] := attributeValue;
      }
      if attributeValue > max[attribute] {
        max[attribute] := attributeValue;
      }
    }
  }

  /** The running minimum and maximum of every column, row by row. */
  method ColumnBounds(data: array2<real>) returns (min: array<real>, max: array<real>)
    ensures fresh(min) && fresh(max) && min.Length == data.Length1 && max.Length == data.Length1
    ensures forall a :: 0 <= a < data.Length1 ==>
      HasColumn(Snapshot(data), a) && min[a] == Low(Snapshot(data), a) && max[a] == High(Snapshot(data), a)
  {
    ghost var rows := Snapshot(data);
    min := new real[data.Length1](_ => DOUBLE_MAX);
    max := new real[data.Length1](_ => DOUBLE_MIN);
    for entry := 0 to data.Length0
      invariant forall a :: 0 <= a < data.Length1 ==> BoundsOver(rows, entry, a, min[a], max[a])
    {
      FoldRow(data, min, max, entry, rows);
    }
    assert rows[..data.Length0] == rows;
  }

  /** Rescales row `entry` by the column bounds, leaving the other rows
      alone. */
  method ScaleRow(data: array2<real>, min: array<real>, max: array<real>, entry: nat)
    requires entry < data.Length0 && min.Length == data.Length1 && max.Length == data.Length1
    modifies data
    ensures forall a :: 0 <= a < data.Length1 ==> data[entry, a] == Scale(old(data[entry, a]), min[a], max[a])
    ensures forall e, a :: 0 <= e < data.Length0 && e != entry && 0 <= a < data.Length1 ==> data[e, a] == old(data[e, a])
  {
    for attribute := 0 to data.Length1
      invariant forall a :: 0 <= a < attribute ==> data[entry, a] == Scale(old(data[entry, a]), min[a], max[a])
      invariant forall a :: attribute <= a < data.Length1 ==> data[entry, a] == old(data[entry, a])
      invariant forall e, a :: 0 <= e < data.Length0 && e != entry && 0 <= a < data.Length1 ==> data[e, a] == old(data[e, a])
    {
      var tempMin := min[attribute];
      var tempMax := max[attribute];
      data[entry, attribute] :=
        (data[entry, attribute] - tempMin) / (if tempMax - tempMin == 0.0 then 1.0 else tempMax - tempMin);
    }
  }

  /** Rescales every value by its column's running bounds, in place; every
      value ends in [0, 1]. */
  method Normalise(data: array2<real>)
    modifies data
    ensures forall a :: 0 <= a < data.Length1 ==> HasColumn(old(Snapshot(data)), a)
    ensures forall e, a :: 0 <= e < data.Length0 && 0 <= a < data.Length1 ==>
      data[e, a] == Scale(old(data[e, a]), Low(old(Snapshot(data)), a), High(old(Snapshot(data)), a))
    ensures forall e, a :: 0 <= e < data.Length0 && 0 <= a < data.Length1 ==> 0.0 <= data[e, a] <= 1.0
  {
    ghost var rows := Snapshot(data);
    var min, max := ColumnBounds(data);
    assert forall a :: 0 <= a < data.Length1 ==> min[a] == Low(rows, a) && max[a] == High(rows, a);
    for entry := 0 to data.Length0
      invariant forall a :: 0 <= a < data.Length1 ==> min[a] == Low(rows, a) && max[a] == High(rows, a)
      invariant forall e, a :: 0 <= e < entry && 0 <= a < data.Length1 ==>
        data[e, a] == Scale(rows[e][a], Low(rows, a), High(rows, a))
      invariant forall e, a :: entry <= e < data.Length0 && 0 <= a < data.Length1 ==> data[e, a] == rows[e][a]
    {
      ScaleRow(data, min, max, entry);
    }
    forall e, a | 0 <= e < data.Length0 && 0 <= a < data.Length1
      ensures 0.0 <= data[e, a] <= 1.0
    {
      NormalisedInUnit(rows, a, e);
    }
  }
}
