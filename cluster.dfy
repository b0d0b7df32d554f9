/** One cluster of the current generation: a centroid (absent until one is set
    or computed), the list of member points, and a numeric ID. */
module Clusters {
  import opened Vectors
  import opened Points
  import opened Optional

  // ---------------------------------------------------------------------------
  // Specification of the read-only folds
  // ---------------------------------------------------------------------------

  /** The larger of two values (`Math.max`). */
  function Max(a: real, b: real): (m: real)
    ensures m >= a && m >= b && (m == a || m == b)
  {
    if a >= b then a else b
  }

  /** A quotient whose numerator is at most the divisor in size lies in [-1, 1]. */
  lemma QuotientWithinOne(a: real, m: real)
    requires m > 0.0 && -m <= a <= m
    ensures -1.0 <= a / m <= 1.0
  {
    var q := a / m;
    assert q * m == a;
  }

  lemma QuotientSign(a: real, m: real)
    requires m > 0.0
    ensures a / m >= 0.0 <==> a >= 0.0
  {
    var q := a / m;
    assert q * m == a;
    if q < 0.0 {
      assert (-q) * m > 0.0;
    }
    if q >= 0.0 {
      assert q * m >= 0.0;
    }
  }

  /** One member's silhouette term: the gap between its distance to the other
      centroid and to its own, over the larger of the two. Both zero makes the
      division 0/0, which is not a number: `None`. */
  function SilhouetteTerm(inDist: real, outDist: real): (r: Option<real>)
    requires inDist >= 0.0 && outDist >= 0.0
    ensures r.None? <==> inDist == 0.0 && outDist == 0.0
    ensures r.Some? ==> -1.0 <= r.value <= 1.0
    ensures r.Some? ==> (r.value >= 0.0 <==> inDist <= outDist)
  {
    var m := Max(outDist, inDist);
    if m == 0.0 then None
    else
      QuotientWithinOne(outDist - inDist, m);
      QuotientSign(outDist - inDist, m);
      Some((outDist - inDist) / m)
  }

  /** The running total of the members' terms; once a term is not a number,
      the total is not a number. */
  function SilhouetteSum(c: Vector, o: Vector, xs: seq<Vector>): Option<real>
    requires Dim(xs, |c|) && Dim(xs, |o|)
    decreases |xs|
  {
    if |xs| == 0 then Some(0.0)
    else
      var n := |xs| - 1;
      var t := SilhouetteTerm(SquaredDistance(c, xs[n]), SquaredDistance(o, xs[n]));
      var s := SilhouetteSum(c, o, xs[..n]);
      if s.Some? && t.Some? then Some(s.value + t.value) else None
  }

  /** The silhouette width of a cluster with centre `c` and members `xs`
      against a non-empty cluster with centre `o`: the mean term, and not a
      number for an empty cluster (0/0). */
  function Silhouette(c: Vector, o: Vector, xs: seq<Vector>): Option<real>
    requires Dim(xs, |c|) && Dim(xs, |o|)
  {
    var s := SilhouetteSum(c, o, xs);
    if s.None? || |xs| == 0 then None else Some(s.value / (|xs| as real))
  }

  /** No member lies on both centres, so no term divides zero by zero. */
  predicate NoDoubleZero(c: Vector, o: Vector, xs: seq<Vector>)
    requires Dim(xs, |c|) && Dim(xs, |o|)
  {
    forall i :: 0 <= i < |xs| ==> !(xs[i] == c && xs[i] == o)
  }

  /** The running total is a number exactly when no member lies on both
      centres, and then it is between -|xs| and |xs|. */
  lemma {:induction false} SilhouetteSumFacts(c: Vector, o: Vector, xs: seq<Vector>)
    requires Dim(xs, |c|) && Dim(xs, |o|)
    ensures SilhouetteSum(c, o, xs).Some? <==> NoDoubleZero(c, o, xs)
    ensures SilhouetteSum(c, o, xs).Some? ==>
      -(|xs| as real) <= SilhouetteSum(c, o, xs).value <= |xs| as real
    decreases |xs|
  {
    if |xs| > 0 {
      var n := |xs| - 1;
      SilhouetteSumFacts(c, o, xs[..n]);
      DistanceZeroIff(c, xs[n]);
      DistanceZeroIff(o, xs[n]);
      assert NoDoubleZero(c, o, xs) <==> NoDoubleZero(c, o, xs[..n]) && !(xs[n] == c && xs[n] == o) by {
        if NoDoubleZero(c, o, xs[..n]) && !(xs[n] == c && xs[n] == o) {
          forall i | 0 <= i < |xs| ensures !(xs[i] == c && xs[i] == o) {
            if i < n { assert xs[i] == xs[..n][i]; }
          }
        }
      }
    }
  }

  /** The silhouette width is a number exactly when the cluster has a member
      and none lies on both centres; it then lies in [-1, 1]. */
  lemma SilhouetteFacts(c: Vector, o: Vector, xs: seq<Vector>)
    requires Dim(xs, |c|) && Dim(xs, |o|)
    ensures Silhouette(c, o, xs).Some? <==> |xs| > 0 && NoDoubleZero(c, o, xs)
    ensures Silhouette(c, o, xs).Some? ==> -1.0 <= Silhouette(c, o, xs).value <= 1.0
  {
    SilhouetteSumFacts(c, o, xs);
    var s := SilhouetteSum(c, o, xs);
    if s.Some? && |xs| > 0 {
      QuotientWithinOne(s.value, |xs| as real);
    }
  }

  /** Squared error of the members `xs` against every centre of `cents`,
      centre by centre. */
  function ExternalError(cents: seq<Vector>, xs: seq<Vector>): (r: real)
    requires forall k :: 0 <= k < |cents| ==> Dim(xs, |cents[k]|)
    decreases |cents|
  {
    if |cents| == 0 then 0.0
    else ExternalError(cents[..|cents| - 1], xs) + VectorsError(cents[|cents| - 1], xs)
  }

  /** One more centre adds the members' error against it. */
  lemma ExternalErrorSnoc(cents: seq<Vector>, c: Vector, xs: seq<Vector>)
    requires forall k :: 0 <= k < |cents| ==> Dim(xs, |cents[k]|)
    requires Dim(xs, |c|)
    ensures ExternalError(cents + [c], xs) == ExternalError(cents, xs) + VectorsError(c, xs)
  {
    assert (cents + [c])[..|cents|] == cents;
  }

  /** The error against several centres is at least the error against any
      one of them, and never negative. */
  lemma {:induction false} ExternalErrorDominates(cents: seq<Vector>, xs: seq<Vector>)
    requires forall k :: 0 <= k < |cents| ==> Dim(xs, |cents[k]|)
    ensures ExternalError(cents, xs) >= 0.0
    ensures forall k :: 0 <= k < |cents| ==> VectorsError(cents[k], xs) <= ExternalError(cents, xs)
    decreases |cents|
  {
    if |cents| > 0 {
      var n := |cents| - 1;
      ExternalErrorDominates(cents[..n], xs);
      forall k | 0 <= k < n ensures VectorsError(cents[k], xs) <= ExternalError(cents, xs) {
        assert cents[k] == cents[..n][k];
      }
    }
  }

  lemma ColumnSumSnoc(xs: seq<Vector>, d: nat, p: nat, j: nat)
    requires Dim(xs, d) && p < |xs| && j < d
    ensures ColumnSum(xs[..p + 1], d, j) == ColumnSum(xs[..p], d, j) + xs[p][j]
  {
    assert xs[..p + 1][..p] == xs[..p];
  }

  /** The per-coordinate mean of `xs`, accumulated in an array row by row and
      then divided by the row count. */
  method MeanValues(xs: seq<Vector>, d: nat) returns (m: Vector)
    requires Dim(xs, d) && |xs| > 0
    ensures m == Mean(xs, d)
  {
    var sums := new real[d](_ => 0.0);
    var p := 0;
    while p < |xs|
      invariant 0 <= p <= |xs|
      invariant forall j :: 0 <= j < d ==> sums[j] == ColumnSum(xs[..p], d, j)
    {
      var row := xs[p];
      var i := 0;
      while i < |row|
        invariant 0 <= i <= |row| == d
        invariant forall j :: 0 <= j < i ==> sums[j] == ColumnSum(xs[..p + 1], d, j)
        invariant forall j :: i <= j < d ==> sums[j] == ColumnSum(xs[..p], d, j)
      {
        ColumnSumSnoc(xs, d, p, i);
        sums[i] := sums[i] + row[i];
        i := i + 1;
      }
      p := p + 1;
    }
    assert xs[..p] == xs;
    var i := 0;
    while i < d
      invariant 0 <= i <= d
      invariant forall j :: 0 <= j < i ==> sums[j] == ColumnSum(xs, d, j) / (|xs| as real)
      invariant forall j :: i <= j < d ==> sums[j] == ColumnSum(xs, d, j)
    {
      sums[i] := sums[i] / (|xs| as real);
      i := i + 1;
    }
    m := sums[..];
  }

  // ---------------------------------------------------------------------------
  // The cluster object
  // ---------------------------------------------------------------------------

  class Cluster {
    var centroid: Option<Point>
    /** The members, the seed point included when there is one. */
    var children: seq<Point>
    var id: int

    /** Every member has the centroid's width. */
    predicate Uniform()
      reads this
    {
      centroid.Some? && Dim(Coords(children), |centroid.value.data|)
    }

    /** An empty cluster with no centroid. */
    constructor ()
      ensures centroid == None && children == [] && id == 0
    {
      centroid := None;
      children := [];
      id := 0;
    }

    /** A cluster whose centroid is the given row, and whose only member is
        that same point. */
    constructor Seeded(row: Vector, pointIndex: int, number: int)
      ensures centroid == Some(Point(row, pointIndex))
      ensures children == [Point(row, pointIndex)]
      ensures id == number
      ensures Uniform()
    {
      id := number;
      centroid := Some(Point(row, pointIndex));
      children := [Point(row, pointIndex)];
    }

    method ClearChildren()
      modifies this
      ensures children == []
      ensures centroid == old(centroid) && id == old(id)
    {
      children := [];
    }

    method AddChild(child: Point)
      modifies this
      ensures children == old(children) + [child]
      ensures centroid == old(centroid) && id == old(id)
    {
      children := children + [child];
    }

    /** Moves the centroid to the coordinate-wise mean of the members, with
        index -1; the width is the old centroid's, or the first member's when
        there is no centroid yet. */
    method RecalculateCentroid()
      requires |children| > 0
      requires Dim(Coords(children), if centroid.Some? then |centroid.value.data| else |children[0].data|)
      modifies this
      ensures children == old(children) && id == old(id)
      ensures var d := if old(centroid).Some? then |old(centroid).value.data| else |children[0].data|;
        centroid == Some(Point(Mean(Coords(children), d), -1))
      ensures Uniform()
      ensures old(centroid).Some? ==>
        VectorsError(centroid.value.data, Coords(children)) <= VectorsError(old(centroid).value.data, Coords(children))
    {
      var d := if centroid.Some? then |centroid.value.data| else |children[0].data|;
      var mean := MeanValues(Coords(children), d);
      if centroid.Some? {
        MeanMinimisesError(Coords(children), centroid.value.data);
      }
      centroid := Some(Point(mean, -1));
    }

    /** Squared distance from the centroid to `point`, over the point's
        coordinates. */
    method ErrorFromCentroid(point: Point) returns (distance: real)
      requires centroid.Some? && |point.data| <= |centroid.value.data|
      ensures distance == SquaredDistance(centroid.value.data, point.data)
      ensures distance >= 0.0
      ensures |point.data| == |centroid.value.data| ==>
        (distance == 0.0 <==> point.data == centroid.value.data)
    {
      distance := CalculateDistance(point.data, centroid.value.data);
    }

    /** Squared distance between two rows, over the coordinates of the first;
        the same either way round when the widths agree. */
    method CalculateDistance(point: Vector, point1: Vector) returns (distance: real)
      requires |point| <= |point1|
      ensures distance == SquaredDistance(point1, point)
      ensures |point| == |point1| ==> distance == SquaredDistance(point, point1)
      ensures |point| == |point1| ==> (distance == 0.0 <==> point == point1)
    {
      distance := 0.0;
      var i := 0;
      while i < |point|
        invariant 0 <= i <= |point|
        invariant distance == SquaredDistance(point1, point[..i])
      {
        assert point[..i + 1][..i] == point[..i];
        distance := distance + SingleError(point1[i], point[i]);
        i := i + 1;
      }
      assert point[..i] == point;
      if |point| == |point1| {
        DistanceSymmetric(point1, point);
        DistanceZeroIff(point1, point);
      }
    }

    /** The cluster's squared error: the members' squared distances to the
        centroid, summed. */
    method CalculateSquaredError() returns (error: real)
      requires Uniform()
      ensures error == VectorsError(centroid.value.data, Coords(children))
      ensures error >= 0.0
    {
      ghost var xs := Coords(children);
      error := 0.0;
      var p := 0;
      while p < |children|
        invariant 0 <= p <= |children|
        invariant error == VectorsError(centroid.value.data, xs[..p])
      {
        var e := ErrorFromCentroid(children[p]);
        assert xs[..p + 1][..p] == xs[..p];
        error := error + e;
        p := p + 1;
      }
      assert xs[..p] == xs;
    }

    /** Every other non-empty cluster of the list has a centroid as wide as
        this cluster's members. */
    predicate Comparable(others: seq<Cluster>)
      reads this, others
    {
      forall k :: 0 <= k < |others| && others[k] != this && others[k].children != [] ==>
        others[k].centroid.Some? && Dim(Coords(children), |others[k].centroid.value.data|)
    }

    /** The centres of the first `q` clusters of the list other than this
        one that have members, in list order. */
    ghost function OtherCentres(others: seq<Cluster>, q: nat): (cents: seq<Vector>)
      reads this, others
      requires Comparable(others) && q <= |others|
      ensures forall k :: 0 <= k < |cents| ==> Dim(Coords(children), |cents[k]|)
      decreases q
    {
      if q == 0 then []
      else
        var rest := OtherCentres(others, q - 1);
        if others[q - 1] == this || others[q - 1].children == [] then rest
        else rest + [others[q - 1].centroid.value.data]
    }

    /** Squared error of this cluster's members against the centroid of
        `other`. */
    method ErrorAgainst(other: Cluster) returns (e: real)
      requires other.centroid.Some? && Dim(Coords(children), |other.centroid.value.data|)
      ensures e == VectorsError(other.centroid.value.data, Coords(children))
    {
      ghost var xs := Coords(children);
      e := 0.0;
      var p := 0;
      while p < |children|
        invariant 0 <= p <= |children|
        invariant e == VectorsError(other.centroid.value.data, xs[..p])
      {
        var d := other.ErrorFromCentroid(children[p]);
        assert xs[..p + 1][..p] == xs[..p];
        e := e + d;
        p := p + 1;
      }
      assert xs[..p] == xs;
    }

    /** Squared error of this cluster's members against the centroid of every
        other non-empty cluster in the list. */
    method CalculateSquaredErrorExternal(others: seq<Cluster>) returns (error: real)
      requires Comparable(others)
      ensures error == ExternalError(OtherCentres(others, |others|), Coords(children))
      ensures error >= 0.0
    {
      ghost var xs := Coords(children);
      error := 0.0;
      var q := 0;
      while q < |others|
        invariant 0 <= q <= |others|
        invariant error == ExternalError(OtherCentres(others, q), xs)
      {
        var cluster := others[q];
        if !(cluster == this || cluster.children == []) {
          var e := ErrorAgainst(cluster);
          ExternalErrorSnoc(OtherCentres(others, q), cluster.centroid.value.data, xs);
          error := error + e;
        }
        q := q + 1;
      }
      ExternalErrorDominates(OtherCentres(others, |others|), xs);
    }

    /** Silhouette width against `other`: zero when `other` has no members,
        otherwise the mean of the members' terms, or `None` where Java's
        arithmetic would give "not a number". */
    method CalculateSilhouette(other: Cluster) returns (s: Option<real>)
      requires Uniform()
      requires other.children != [] ==> other.Uniform() && |other.centroid.value.data| == |centroid.value.data|
      ensures other.children == [] ==> s == Some(0.0)
      ensures other.children != [] ==>
        s == Silhouette(centroid.value.data, other.centroid.value.data, Coords(children))
      ensures other.children != [] ==>
        (s.Some? <==> |children| > 0 && NoDoubleZero(centroid.value.data, other.centroid.value.data, Coords(children)))
      ensures s.Some? ==> -1.0 <= s.value <= 1.0
    {
      if other.children == [] {
        return Some(0.0);
      }
      ghost var xs := Coords(children);
      ghost var c := centroid.value.data;
      ghost var o := other.centroid.value.data;
      var silhouette := Some(0.0);
      var p := 0;
      while p < |children|
        invariant 0 <= p <= |children|
        invariant silhouette == SilhouetteSum(c, o, xs[..p])
      {
        var inClusterDist := ErrorFromCentroid(children[p]);
        var outClusterDist := other.ErrorFromCentroid(children[p]);
        var t := SilhouetteTerm(inClusterDist, outClusterDist);
        assert xs[..p + 1][..p] == xs[..p];
        silhouette := if silhouette.Some? && t.Some? then Some(silhouette.value + t.value) else None;
        p := p + 1;
      }
      assert xs[..p] == xs;
      s := if silhouette.None? || |children| == 0 then None
           else Some(silhouette.value / (|children| as real));
      SilhouetteFacts(c, o, xs);
    }
  }
}
