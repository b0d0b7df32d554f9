/** The k-means step on values: a partition is a list of member lists, one per
    centroid. Reassignment and recomputing the means each never increase the
    total squared error. */
module Partition {
  import opened Vectors
  import opened Points
  import opened Assignment

  /** Every member of every cluster has `d` coordinates. */
  predicate Wide(members: seq<seq<Point>>, d: nat)
  {
    forall k :: 0 <= k < |members| ==> Dim(Coords(members[k]), d)
  }

  /** Each member list has a centroid, as wide as its members. */
  predicate Fits(cents: seq<Vector>, members: seq<seq<Point>>)
  {
    |members| <= |cents| && forall k :: 0 <= k < |members| ==> Dim(Coords(members[k]), |cents[k]|)
  }

  lemma WideFits(cents: seq<Vector>, members: seq<seq<Point>>, d: nat)
    requires Dim(cents, d) && Wide(members, d) && |members| <= |cents|
    ensures Fits(cents, members)
  {
  }

  /** The sum of squared errors: every member's squared distance to the
      centroid of its own cluster, cluster by cluster. */
  function TotalError(cents: seq<Vector>, members: seq<seq<Point>>): (r: real)
    requires Fits(cents, members)
    ensures r >= 0.0
    decreases |members|
  {
    if |members| == 0 then 0.0
    else
      var n := |members| - 1;
      TotalError(cents, members[..n]) + VectorsError(cents[n], Coords(members[n]))
  }

  lemma TotalErrorOfEmpties(cents: seq<Vector>, k: nat)
    requires k <= |cents|
    ensures Fits(cents, Empties<Point>(k)) && TotalError(cents, Empties<Point>(k)) == 0.0
    decreases k
  {
    if k > 0 {
      assert Empties<Point>(k)[..k - 1] == Empties<Point>(k - 1);
      TotalErrorOfEmpties(cents, k - 1);
    }
  }

  // ---------------------------------------------------------------------------
  // Reassignment
  // ---------------------------------------------------------------------------

  /** Drains every cluster into one pool, in cluster order, and deals each
      pooled point to its nearest centroid. */
  function Reassign(cents: seq<Vector>, members: seq<seq<Point>>): (r: seq<seq<Point>>)
    requires |members| == |cents| > 0 && ReachesAll(cents, Coords(Flatten(members)))
    ensures |r| == |members|
  {
    var pool := Flatten(members);
    Distribute(Empties(|members|), pool, NearestAll(cents, Coords(pool)))
  }

  /** Reassignment keeps the number of clusters and the multiset of all
      members. */
  lemma ReassignConserves(cents: seq<Vector>, members: seq<seq<Point>>)
    requires |members| == |cents| > 0 && ReachesAll(cents, Coords(Flatten(members)))
    ensures |Reassign(cents, members)| == |members|
    ensures multiset(Flatten(Reassign(cents, members))) == multiset(Flatten(members))
    ensures |Flatten(Reassign(cents, members))| == |Flatten(members)|
  {
    var pool := Flatten(members);
    FlattenEmpties<Point>(|members|);
    DistributeConserves(Empties(|members|), pool, NearestAll(cents, Coords(pool)));
    DistributeCount(Empties(|members|), pool, NearestAll(cents, Coords(pool)));
  }

  /** After reassignment, cluster `c` holds exactly the pooled points whose
      first nearest centroid is `c`, in pool order; so every member sits in
      its first nearest cluster. */
  lemma ReassignNearest(cents: seq<Vector>, members: seq<seq<Point>>)
    requires |members| == |cents| > 0 && ReachesAll(cents, Coords(Flatten(members)))
    ensures var pool := Flatten(members);
      forall c :: 0 <= c < |members| ==>
        Reassign(cents, members)[c] == Select(pool, NearestAll(cents, Coords(pool)), c)
    ensures var r := Reassign(cents, members);
      forall c, i :: 0 <= c < |r| && 0 <= i < |r[c]| ==>
        Reaches(cents, r[c][i].data) && Nearest(cents, r[c][i].data) == c
  {
    var pool := Flatten(members);
    var ts := NearestAll(cents, Coords(pool));
    var r := Reassign(cents, members);
    forall c | 0 <= c < |members|
      ensures r[c] == Select(pool, ts, c)
    {
      DistributeBucket(Empties(|members|), pool, ts, c);
    }
    forall c, i | 0 <= c < |r| && 0 <= i < |r[c]|
      ensures Reaches(cents, r[c][i].data) && Nearest(cents, r[c][i].data) == c
    {
      SelectSource(pool, ts, c, i);
    }
  }

  /** Adding a point to one cluster adds its distance to that cluster's
      centroid to the total. */
  lemma {:induction false} TotalErrorUpdate(cents: seq<Vector>, bs: seq<seq<Point>>, c: nat, x: Point)
    requires Fits(cents, bs) && c < |bs| && |x.data| == |cents[c]|
    ensures Fits(cents, bs[c := bs[c] + [x]])
    ensures TotalError(cents, bs[c := bs[c] + [x]]) == TotalError(cents, bs) + SquaredDistance(cents[c], x.data)
    decreases |bs|
  {
    var bs' := bs[c := bs[c] + [x]];
    CoordsSnoc(bs[c], x);
    var n := |bs| - 1;
    if c == n {
      assert bs'[..n] == bs[..n];
      VectorsErrorSnoc(cents[c], Coords(bs[c]), x.data);
    } else {
      assert bs'[..n] == bs[..n][c := bs[c] + [x]];
      TotalErrorUpdate(cents, bs[..n], c, x);
    }
  }

  /** Dealing points to their nearest centroids adds exactly their nearest
      distances to the total. */
  lemma {:induction false} DistributeError(cents: seq<Vector>, bs: seq<seq<Point>>, items: seq<Point>, targets: seq<nat>, d: nat)
    requires |bs| == |cents| > 0 && Dim(cents, d) && Wide(bs, d) && Dim(Coords(items), d)
    requires |targets| == |items|
    requires forall j :: 0 <= j < |items| ==> targets[j] == Nearest(cents, items[j].data)
    ensures InRange(targets, |bs|)
    ensures Wide(Distribute(bs, items, targets), d) && Fits(cents, Distribute(bs, items, targets))
    ensures TotalError(cents, Distribute(bs, items, targets)) == TotalError(cents, bs) + MinError(cents, Coords(items))
    decreases |items|
  {
    if |items| > 0 {
      var n := |items| - 1;
      assert Coords(items)[..n] == Coords(items[..n]);
      DistributeError(cents, bs, items[..n], targets[..n], d);
      var r0 := Distribute(bs, items[..n], targets[..n]);
      TotalErrorUpdate(cents, r0, targets[n], items[n]);
      var r := r0[targets[n] := r0[targets[n]] + [items[n]]];
      CoordsSnoc(r0[targets[n]], items[n]);
      assert Wide(r, d);
    }
  }

  /** The error of a list of points about any one centroid is at least their
      error about their nearest centroids. */
  lemma {:induction false} NearestBeatsAnyCentroid(cents: seq<Vector>, k: nat, xs: seq<Vector>)
    requires k < |cents| && Dim(xs, |cents[k]|) && ReachesAll(cents, xs)
    ensures VectorsError(cents[k], xs) >= MinError(cents, xs)
    decreases |xs|
  {
    if |xs| > 0 {
      NearestBeatsAnyCentroid(cents, k, xs[..|xs| - 1]);
    }
  }

  lemma {:induction false} MinErrorAppend(cents: seq<Vector>, xs: seq<Vector>, ys: seq<Vector>)
    requires |cents| > 0 && ReachesAll(cents, xs) && ReachesAll(cents, ys)
    ensures ReachesAll(cents, xs + ys)
    ensures MinError(cents, xs + ys) == MinError(cents, xs) + MinError(cents, ys)
    decreases |ys|
  {
    if |ys| > 0 {
      var n := |ys| - 1;
      assert (xs + ys)[..|xs + ys| - 1] == xs + ys[..n];
      MinErrorAppend(cents, xs, ys[..n]);
    } else {
      assert xs + ys == xs;
    }
  }

  /** No partition beats sending every point to its nearest centroid. */
  lemma {:induction false} TotalErrorAtLeastMin(cents: seq<Vector>, members: seq<seq<Point>>, d: nat)
    requires |members| <= |cents| && |cents| > 0 && Dim(cents, d) && Wide(members, d)
    ensures Fits(cents, members) && ReachesAll(cents, Coords(Flatten(members)))
    ensures TotalError(cents, members) >= MinError(cents, Coords(Flatten(members)))
    decreases |members|
  {
    if |members| > 0 {
      var n := |members| - 1;
      TotalErrorAtLeastMin(cents, members[..n], d);
      assert Flatten(members) == Flatten(members[..n]) + members[n];
      CoordsAppend(Flatten(members[..n]), members[n]);
      MinErrorAppend(cents, Coords(Flatten(members[..n])), Coords(members[n]));
      NearestBeatsAnyCentroid(cents, n, Coords(members[n]));
    }
  }

  /** Every member of a partition has width `d` once all pooled points do. */
  lemma {:induction false} FlattenWide(members: seq<seq<Point>>, d: nat)
    requires Wide(members, d)
    ensures Dim(Coords(Flatten(members)), d)
    decreases |members|
  {
    if |members| > 0 {
      var n := |members| - 1;
      FlattenWide(members[..n], d);
      CoordsAppend(Flatten(members[..n]), members[n]);
    }
  }

  /** For fixed centroids, reassignment never increases the total squared
      error: afterwards it is the sum of each point's nearest distance. */
  lemma ReassignNeverIncreases(cents: seq<Vector>, members: seq<seq<Point>>, d: nat)
    requires |members| == |cents| > 0 && Dim(cents, d) && Wide(members, d)
    ensures ReachesAll(cents, Coords(Flatten(members)))
    ensures Wide(Reassign(cents, members), d) && Fits(cents, Reassign(cents, members))
    ensures TotalError(cents, Reassign(cents, members)) == MinError(cents, Coords(Flatten(members)))
    ensures TotalError(cents, Reassign(cents, members)) <= TotalError(cents, members)
  {
    var pool := Flatten(members);
    FlattenWide(members, d);
    TotalErrorAtLeastMin(cents, members, d);
    TotalErrorOfEmpties(cents, |members|);
    DistributeError(cents, Empties(|members|), pool, NearestAll(cents, Coords(pool)), d);
  }

  // ---------------------------------------------------------------------------
  // Recomputing the means
  // ---------------------------------------------------------------------------

  predicate NonEmpty(members: seq<seq<Point>>)
  {
    forall k :: 0 <= k < |members| ==> |members[k]| > 0
  }

  /** Dealing out points of width `d` keeps every cluster `d` wide. */
  lemma {:induction false} DistributeWide(bs: seq<seq<Point>>, items: seq<Point>, targets: seq<nat>, d: nat)
    requires |items| == |targets| && InRange(targets, |bs|)
    requires Wide(bs, d) && Dim(Coords(items), d)
    ensures Wide(Distribute(bs, items, targets), d)
    decreases |items|
  {
    if |items| > 0 {
      var n := |items| - 1;
      assert Coords(items[..n]) == Coords(items)[..n];
      DistributeWide(bs, items[..n], targets[..n], d);
      var r := Distribute(bs, items[..n], targets[..n]);
      CoordsSnoc(r[targets[n]], items[n]);
    }
  }

  /** Non-empty clusters hold at least one point each; when they hold no
      more than that, each holds exactly one. */
  lemma {:induction false} FlattenAtLeast(members: seq<seq<Point>>)
    requires NonEmpty(members)
    ensures |Flatten(members)| >= |members|
    ensures |Flatten(members)| == |members| ==> forall c :: 0 <= c < |members| ==> |members[c]| == 1
    decreases |members|
  {
    if |members| > 0 {
      var n := |members| - 1;
      FlattenAtLeast(members[..n]);
      if |Flatten(members)| == |members| {
        forall c | 0 <= c < |members| ensures |members[c]| == 1 {
          if c < n {
            assert members[..n][c] == members[c];
          }
        }
      }
    }
  }

  /** The mean of every cluster. */
  function Means(members: seq<seq<Point>>, d: nat): (ms: seq<Vector>)
    requires Wide(members, d) && NonEmpty(members)
    ensures |ms| == |members| && Dim(ms, d)
  {
    seq(|members|, k requires 0 <= k < |members| => Mean(Coords(members[k]), d))
  }

  /** Comparing two sets of centroids cluster by cluster compares the totals. */
  lemma {:induction false} TotalErrorMonotone(a: seq<Vector>, b: seq<Vector>, members: seq<seq<Point>>)
    requires Fits(a, members) && Fits(b, members)
    requires forall k :: 0 <= k < |members| ==>
      VectorsError(a[k], Coords(members[k])) <= VectorsError(b[k], Coords(members[k]))
    ensures TotalError(a, members) <= TotalError(b, members)
    decreases |members|
  {
    if |members| > 0 {
      TotalErrorMonotone(a, b, members[..|members| - 1]);
    }
  }

  /** For fixed membership, moving every centroid to its cluster's mean never
      increases the total squared error. */
  lemma MeansNeverIncrease(cents: seq<Vector>, members: seq<seq<Point>>, d: nat)
    requires |members| <= |cents| && Dim(cents, d) && Wide(members, d) && NonEmpty(members)
    ensures Fits(Means(members, d), members) && Fits(cents, members)
    ensures TotalError(Means(members, d), members) <= TotalError(cents, members)
  {
    var ms := Means(members, d);
    forall k | 0 <= k < |members|
      ensures VectorsError(ms[k], Coords(members[k])) <= VectorsError(cents[k], Coords(members[k]))
    {
      MeanMinimisesError(Coords(members[k]), cents[k]);
    }
    TotalErrorMonotone(ms, cents, members);
  }

  /** Clusters of one member each, centred on that member, have no error. */
  lemma {:induction false} OwnPointsNoError(cents: seq<Vector>, members: seq<seq<Point>>)
    requires |members| <= |cents|
    requires forall c :: 0 <= c < |members| ==> |members[c]| == 1 && cents[c] == members[c][0].data
    ensures Fits(cents, members) && TotalError(cents, members) == 0.0
    decreases |members|
  {
    if |members| > 0 {
      var n := |members| - 1;
      var p := members[n][0];
      OwnPointsNoError(cents, members[..n]);
      assert members[n] == [p];
      assert Coords(members[n]) == [p.data];
      DistanceToSelf(p.data);
      assert VectorsError(p.data, [p.data]) == VectorsError(p.data, []) + SquaredDistance(p.data, p.data);
    }
  }
}
