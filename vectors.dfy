/** Coordinate vectors and the squared-Euclidean arithmetic the clustering code is built on.
    Every `double` of the program is an exact `real` here. */
module Vectors {

  type Vector = seq<real>

  /** Every vector of `vs` has exactly `d` coordinates. */
  predicate Dim(vs: seq<Vector>, d: nat)
  {
    forall i :: 0 <= i < |vs| ==> |vs[i]| == d
  }

  /** A non-empty table whose rows all have the first row's width. */
  predicate Rectangular(rawData: seq<Vector>)
  {
    |rawData| > 0 && Dim(rawData, |rawData[0]|)
  }

  /** The squared difference of one coordinate (`calculateSingleError`). */
  function SingleError(x: real, y: real): (r: real)
    ensures r >= 0.0
  {
    (x - y) * (x - y)
  }

  lemma SingleErrorZeroIff(x: real, y: real)
    ensures SingleError(x, y) == 0.0 <==> x == y
  {
    if x != y {
      var t := x - y;
      calc {
        SingleError(x, y);
        == t * t;
        > 0.0;
      }
    }
  }

  /** Squared Euclidean distance between `u` and `v`, summed over the coordinates of `v`
      from the first to the last; `u` must have at least as many coordinates. */
  function SquaredDistance(u: Vector, v: Vector): (r: real)
    requires |v| <= |u|
    ensures r >= 0.0
    decreases |v|
  {
    if |v| == 0 then 0.0
    else SquaredDistance(u, v[..|v| - 1]) + SingleError(u[|v| - 1], v[|v| - 1])
  }

  /** Only the first |v| coordinates of `u` matter. */
  lemma {:induction false} DistanceUsesPrefix(u: Vector, w: Vector, v: Vector)
    requires |v| <= |u| && |v| <= |w|
    requires u[..|v|] == w[..|v|]
    ensures SquaredDistance(u, v) == SquaredDistance(w, v)
    decreases |v|
  {
    if |v| > 0 {
      var n := |v| - 1;
      assert u[..n] == u[..|v|][..n] && w[..n] == w[..|v|][..n];
      assert u[n] == u[..|v|][n] && w[n] == w[..|v|][n];
      DistanceUsesPrefix(u, w, v[..n]);
    }
  }

  /** The distance is symmetric between vectors of equal length. */
  lemma {:induction false} DistanceSymmetric(u: Vector, v: Vector)
    requires |u| == |v|
    ensures SquaredDistance(u, v) == SquaredDistance(v, u)
    decreases |v|
  {
    if |v| > 0 {
      var n := |v| - 1;
      DistanceUsesPrefix(u, u[..n], v[..n]);
      DistanceUsesPrefix(v, v[..n], u[..n]);
      DistanceSymmetric(u[..n], v[..n]);
    }
  }

  /** The distance is zero exactly when the coordinates agree. */
  lemma {:induction false} DistanceZeroIff(u: Vector, v: Vector)
    requires |u| == |v|
    ensures SquaredDistance(u, v) == 0.0 <==> u == v
    decreases |v|
  {
    if |v| > 0 {
      var n := |v| - 1;
      DistanceUsesPrefix(u, u[..n], v[..n]);
      DistanceZeroIff(u[..n], v[..n]);
      SingleErrorZeroIff(u[n], v[n]);
      if u == v {
        assert u[..n] == v[..n];
      } else if u[..n] == v[..n] {
        assert u[n] != v[n];
      }
      if SquaredDistance(u, v) == 0.0 {
        assert u[..n] == v[..n] && u[n] == v[n];
        assert u == u[..n] + [u[n]] && v == v[..n] + [v[n]];
      }
    }
  }

  /** A vector is at distance zero from itself. */
  lemma DistanceToSelf(u: Vector)
    ensures SquaredDistance(u, u) == 0.0
  {
    DistanceZeroIff(u, u);
  }

  /** Sum of squared distances from centre `c` to each vector of `vs`, in order. */
  function VectorsError(c: Vector, vs: seq<Vector>): (r: real)
    requires Dim(vs, |c|)
    ensures r >= 0.0
    decreases |vs|
  {
    if |vs| == 0 then 0.0
    else VectorsError(c, vs[..|vs| - 1]) + SquaredDistance(c, vs[|vs| - 1])
  }

  lemma VectorsErrorSnoc(c: Vector, vs: seq<Vector>, v: Vector)
    requires Dim(vs, |c|) && |v| == |c|
    ensures Dim(vs + [v], |c|)
    ensures VectorsError(c, vs + [v]) == VectorsError(c, vs) + SquaredDistance(c, v)
  {
    assert (vs + [v])[..|vs|] == vs;
  }

  /** Sum of coordinate `j` over all of `vs`. */
  function ColumnSum(vs: seq<Vector>, d: nat, j: nat): real
    requires Dim(vs, d) && j < d
    decreases |vs|
  {
    if |vs| == 0 then 0.0 else ColumnSum(vs[..|vs| - 1], d, j) + vs[|vs| - 1][j]
  }

  /** The coordinate-wise arithmetic mean of a non-empty set of vectors. */
  function Mean(vs: seq<Vector>, d: nat): (m: Vector)
    requires Dim(vs, d) && |vs| > 0
    ensures |m| == d
    ensures forall j :: 0 <= j < d ==> m[j] * (|vs| as real) == ColumnSum(vs, d, j)
  {
    seq(d, j requires 0 <= j < d => ColumnSum(vs, d, j) / (|vs| as real))
  }

  /** The mean of a single vector is that vector. */
  lemma MeanOfOne(v: Vector)
    ensures Dim([v], |v|) && Mean([v], |v|) == v
  {
    var m := Mean([v], |v|);
    forall j | 0 <= j < |v| ensures m[j] == v[j] {
      assert [v][..0] == [];
      assert ColumnSum([v], |v|, j) == v[j];
    }
  }

  /** Squared error of coordinate `j` of every vector about the value `x`. */
  function ColumnError(x: real, vs: seq<Vector>, d: nat, j: nat): real
    requires Dim(vs, d) && j < d
    decreases |vs|
  {
    if |vs| == 0 then 0.0 else ColumnError(x, vs[..|vs| - 1], d, j) + SingleError(x, vs[|vs| - 1][j])
  }

  /** Squared error summed over the first `k` coordinates, column by column. */
  function ColumnsError(c: Vector, vs: seq<Vector>, k: nat): real
    requires Dim(vs, |c|) && k <= |c|
    decreases k
  {
    if k == 0 then 0.0 else ColumnsError(c, vs, k - 1) + ColumnError(c[k - 1], vs, |c|, k - 1)
  }

  lemma SquareShift(x: real, m: real, y: real)
    ensures SingleError(x, y) == SingleError(m, y) + 2.0 * (x - m) * (m - y) + SingleError(x, m)
  {
  }

  /** The cross terms 2(x - m)(m - y) summed over coordinate `j` of every vector. */
  function CrossSum(x: real, m: real, vs: seq<Vector>, d: nat, j: nat): real
    requires Dim(vs, d) && j < d
    decreases |vs|
  {
    if |vs| == 0 then 0.0 else CrossSum(x, m, vs[..|vs| - 1], d, j) + 2.0 * (x - m) * (m - vs[|vs| - 1][j])
  }

  /** `q` added once per vector. */
  function Repeat(q: real, vs: seq<Vector>): real
    decreases |vs|
  {
    if |vs| == 0 then 0.0 else Repeat(q, vs[..|vs| - 1]) + q
  }

  lemma {:induction false} RepeatNonNegative(q: real, vs: seq<Vector>)
    requires q >= 0.0
    ensures Repeat(q, vs) >= 0.0
    decreases |vs|
  {
    if |vs| > 0 { RepeatNonNegative(q, vs[..|vs| - 1]); }
  }

  /** Moving the reference value from `m` to `x` changes a column's error by the
      cross terms and one (x - m)^2 per vector. */
  lemma {:induction false} ColumnErrorShift(x: real, m: real, vs: seq<Vector>, d: nat, j: nat)
    requires Dim(vs, d) && j < d
    ensures ColumnError(x, vs, d, j)
         == ColumnError(m, vs, d, j) + CrossSum(x, m, vs, d, j) + Repeat(SingleError(x, m), vs)
    decreases |vs|
  {
    if |vs| > 0 {
      ColumnErrorShift(x, m, vs[..|vs| - 1], d, j);
      SquareShift(x, m, vs[|vs| - 1][j]);
    }
  }

  /** The cross terms factor through the column sum. */
  lemma {:induction false} CrossSumFactor(x: real, m: real, vs: seq<Vector>, d: nat, j: nat)
    requires Dim(vs, d) && j < d
    ensures CrossSum(x, m, vs, d, j) == 2.0 * (x - m) * ((|vs| as real) * m - ColumnSum(vs, d, j))
    decreases |vs|
  {
    if |vs| > 0 {
      var n := |vs| - 1;
      var c, y, s := 2.0 * (x - m), vs[n][j], ColumnSum(vs[..n], d, j);
      CrossSumFactor(x, m, vs[..n], d, j);
      Distribute3(c, (n as real) * m - s, m - y);
      assert (n as real) * m - s + (m - y) == ((n + 1) as real) * m - (s + y);
    }
  }

  lemma Distribute3(c: real, a: real, b: real)
    ensures c * a + c * b == c * (a + b)
  {
  }

  /** At the column mean, every other value has at least as much column error. */
  lemma ColumnMeanMinimises(x: real, m: real, vs: seq<Vector>, d: nat, j: nat)
    requires Dim(vs, d) && j < d
    requires m * (|vs| as real) == ColumnSum(vs, d, j)
    ensures ColumnError(m, vs, d, j) <= ColumnError(x, vs, d, j)
  {
    ColumnErrorShift(x, m, vs, d, j);
    CrossSumZero(x, m, vs, d, j);
    RepeatNonNegative(SingleError(x, m), vs);
  }

  /** About the column mean, the cross terms cancel out. */
  lemma CrossSumZero(x: real, m: real, vs: seq<Vector>, d: nat, j: nat)
    requires Dim(vs, d) && j < d
    requires m * (|vs| as real) == ColumnSum(vs, d, j)
    ensures CrossSum(x, m, vs, d, j) == 0.0
  {
    CrossSumFactor(x, m, vs, d, j);
    assert (|vs| as real) * m - ColumnSum(vs, d, j) == 0.0;
  }

  /** Adding one vector adds its distance over the first `k` coordinates. */
  lemma {:induction false} ColumnsErrorSnoc(c: Vector, vs: seq<Vector>, v: Vector, k: nat)
    requires Dim(vs, |c|) && |v| == |c| && k <= |c|
    ensures Dim(vs + [v], |c|)
    ensures ColumnsError(c, vs + [v], k) == ColumnsError(c, vs, k) + SquaredDistance(c, v[..k])
    decreases k
  {
    assert (vs + [v])[..|vs|] == vs;
    if k > 0 {
      ColumnsErrorSnoc(c, vs, v, k - 1);
      assert v[..k][..k - 1] == v[..k - 1];
    }
  }

  /** Summing point by point or column by column gives the same error. */
  lemma {:induction false} ErrorByColumns(c: Vector, vs: seq<Vector>)
    requires Dim(vs, |c|)
    ensures VectorsError(c, vs) == ColumnsError(c, vs, |c|)
    decreases |vs|
  {
    if |vs| == 0 {
      ZeroColumnsError(c, vs, |c|);
    } else {
      var n := |vs| - 1;
      var v := vs[n];
      assert vs == vs[..n] + [v];
      ErrorByColumns(c, vs[..n]);
      ColumnsErrorSnoc(c, vs[..n], v, |c|);
      assert v[..|c|] == v;
    }
  }

  lemma {:induction false} ZeroColumnsError(c: Vector, vs: seq<Vector>, k: nat)
    requires |vs| == 0 && k <= |c|
    ensures ColumnsError(c, vs, k) == 0.0
    decreases k
  {
    if k > 0 { ZeroColumnsError(c, vs, k - 1); }
  }

  lemma {:induction false} ColumnsMeanMinimises(c: Vector, vs: seq<Vector>, k: nat)
    requires Dim(vs, |c|) && |vs| > 0 && k <= |c|
    ensures ColumnsError(Mean(vs, |c|), vs, k) <= ColumnsError(c, vs, k)
    decreases k
  {
    if k > 0 {
      ColumnsMeanMinimises(c, vs, k - 1);
      var m := Mean(vs, |c|);
      ColumnMeanMinimises(c[k - 1], m[k - 1], vs, |c|, k - 1);
    }
  }

  /** The mean is a minimiser of the squared error: no centre of the same width
      has a smaller sum of squared distances to the vectors. */
  lemma MeanMinimisesError(vs: seq<Vector>, c: Vector)
    requires Dim(vs, |c|) && |vs| > 0
    ensures VectorsError(Mean(vs, |c|), vs) <= VectorsError(c, vs)
  {
    var m := Mean(vs, |c|);
    ErrorByColumns(c, vs);
    ErrorByColumns(m, vs);
    ColumnsMeanMinimises(c, vs, |c|);
  }
}
