/** The older, self-contained generation of the clustering code. Its clusters
    hold raw rows; a seed row is the cluster's centroid and never one of its
    children, and recomputing a centroid snaps it to the row nearest the mean
    of the children and the old centroid. */
module Legacy {
  import opened Vectors
  import opened Assignment
  import opened Seeding
  import opened Clusters

  // ---------------------------------------------------------------------------
  // The medoid snap on values
  // ---------------------------------------------------------------------------

  /** Squared distance from `m` to each row of `vs`, over the row's
      coordinates. */
  function DistancesFrom(m: Vector, vs: seq<Vector>): (ds: seq<real>)
    requires forall i :: 0 <= i < |vs| ==> |vs[i]| <= |m|
    ensures |ds| == |vs| && forall i :: 0 <= i < |vs| ==> ds[i] == SquaredDistance(m, vs[i])
  {
    seq(|vs|, i requires 0 <= i < |vs| && |vs[i]| <= |m| => SquaredDistance(m, vs[i]))
  }

  /** A centroid and its children. */
  datatype Snapped = Snapped(centroid: Vector, children: seq<Vector>)

  /** `s` without its element at `k`, the rest in order. */
  function RemoveAt<T>(s: seq<T>, k: nat): (r: seq<T>)
    requires k < |s|
    ensures |r| == |s| - 1
    ensures forall i :: 0 <= i < |r| ==> r[i] == if i < k then s[i] else s[i + 1]
  {
    s[..k] + s[k + 1..]
  }

  /** Removing an element and keeping it aside loses nothing. */
  lemma RemoveAtConserves<T>(s: seq<T>, k: nat)
    requires k < |s|
    ensures multiset(RemoveAt(s, k)) + multiset{s[k]} == multiset(s)
  {
    assert s == s[..k] + [s[k]] + s[k + 1..];
  }

  /** The position, among the children followed by the old centroid, of the
      first row nearest their mean. */
  function SnapIndex(centroid: Vector, children: seq<Vector>): (k: nat)
    requires Dim(children, |centroid|)
    ensures k <= |children|
  {
    var all := children + [centroid];
    FirstArgMin(DistancesFrom(Mean(all, |centroid|), all))
  }

  /** The centroid recomputation: the old centroid joins the children, the
      first of them nearest their mean becomes the centroid and leaves the
      children. */
  function Snap(centroid: Vector, children: seq<Vector>): (s: Snapped)
    requires Dim(children, |centroid|)
    ensures |s.children| == |children|
  {
    var all := children + [centroid];
    var k := SnapIndex(centroid, children);
    Snapped(all[k], RemoveAt(all, k))
  }

  /** The snap keeps the number of children, the rows overall and the
      width. */
  lemma SnapConserves(centroid: Vector, children: seq<Vector>)
    requires Dim(children, |centroid|)
    ensures var s := Snap(centroid, children);
      |s.children| == |children| &&
      multiset(s.children) + multiset{s.centroid} == multiset(children) + multiset{centroid} &&
      s.centroid in children + [centroid] && |s.centroid| == |centroid| && Dim(s.children, |centroid|)
  {
    var all := children + [centroid];
    var k := SnapIndex(centroid, children);
    assert Dim(all, |centroid|);
    RemoveAtConserves(all, k);
    RemoveAtDim(all, k, |centroid|);
    assert multiset(all) == multiset(children) + multiset{centroid};
  }

  /** Removing a row keeps the rest of the same width. */
  lemma RemoveAtDim(vs: seq<Vector>, k: nat, d: nat)
    requires Dim(vs, d) && k < |vs|
    ensures Dim(RemoveAt(vs, k), d)
  {
  }

  /** The new centroid is the first row, among the children followed by the
      old centroid, at minimal squared distance from their mean. */
  lemma SnapNearest(centroid: Vector, children: seq<Vector>)
    requires Dim(children, |centroid|)
    ensures var all := children + [centroid];
      var m := Mean(all, |centroid|);
      var k := SnapIndex(centroid, children);
      Snap(centroid, children).centroid == all[k] &&
      (forall i :: 0 <= i < |all| ==> SquaredDistance(m, all[k]) <= SquaredDistance(m, all[i])) &&
      (forall i :: 0 <= i < k ==> SquaredDistance(m, all[k]) < SquaredDistance(m, all[i]))
  {
    var all := children + [centroid];
    var ds := DistancesFrom(Mean(all, |centroid|), all);
    var k := FirstArgMin(ds);
    assert forall i :: 0 <= i < |all| ==> ds[i] == SquaredDistance(Mean(all, |centroid|), all[i]);
  }

  /** A cluster with no children keeps its centroid. */
  lemma SnapAlone(centroid: Vector)
    ensures Dim([], |centroid|) && Snap(centroid, []) == Snapped(centroid, [])
  {
    assert [] + [centroid] == [centroid];
  }

  /** The pooled rows of a list of clusters grow by the last cluster's rows. */
  lemma FlattenLast(ms: seq<seq<Vector>>)
    requires |ms| > 0
    ensures var n := |ms| - 1;
      multiset(Flatten(ms)) == multiset(Flatten(ms[..n])) + multiset(ms[n]) &&
      |Flatten(ms)| == |Flatten(ms[..n])| + |ms[n]|
  {
  }

  /** The rows of a list grow by its last row. */
  lemma LastRow(vs: seq<Vector>)
    requires |vs| > 0
    ensures multiset(vs) == multiset(vs[..|vs| - 1]) + multiset{vs[|vs| - 1]}
  {
    assert vs == vs[..|vs| - 1] + [vs[|vs| - 1]];
  }

  /** Two balanced exchanges of rows add up to a balanced exchange. */
  lemma BalancedSum(a: multiset<Vector>, b: multiset<Vector>, c: multiset<Vector>, d: multiset<Vector>,
                    x: multiset<Vector>, y: multiset<Vector>, z: multiset<Vector>, w: multiset<Vector>)
    requires a + b == c + d && x + y == z + w
    ensures (a + x) + (b + y) == (c + z) + (d + w)
  {
    assert (a + x) + (b + y) == (a + b) + (x + y);
    assert (c + d) + (z + w) == (c + z) + (d + w);
  }

  /** When every cluster keeps its own rows and its number of children, the
      database keeps the rows overall and the number of children. */
  lemma {:induction false} ClustersConserve(oc: seq<Vector>, om: seq<seq<Vector>>, nc: seq<Vector>, nm: seq<seq<Vector>>)
    requires |oc| == |om| == |nc| == |nm|
    requires forall k :: 0 <= k < |om| ==>
      multiset(nm[k]) + multiset{nc[k]} == multiset(om[k]) + multiset{oc[k]} && |nm[k]| == |om[k]|
    ensures multiset(Flatten(nm)) + multiset(nc) == multiset(Flatten(om)) + multiset(oc)
    ensures |Flatten(nm)| == |Flatten(om)|
    decreases |om|
  {
    if |om| > 0 {
      var n := |om| - 1;
      var oc', om', nc', nm' := oc[..n], om[..n], nc[..n], nm[..n];
      forall k | 0 <= k < n
        ensures multiset(nm'[k]) + multiset{nc'[k]} == multiset(om'[k]) + multiset{oc'[k]} && |nm'[k]| == |om'[k]|
      {
        assert nm'[k] == nm[k] && nc'[k] == nc[k] && om'[k] == om[k] && oc'[k] == oc[k];
      }
      ClustersConserve(oc', om', nc', nm');
      FlattenLast(nm);
      FlattenLast(om);
      LastRow(nc);
      LastRow(oc);
      BalancedSum(multiset(Flatten(nm')), multiset(nc'), multiset(Flatten(om')), multiset(oc'),
        multiset(nm[n]), multiset{nc[n]}, multiset(om[n]), multiset{oc[n]});
    }
  }

  // ---------------------------------------------------------------------------
  // Construction, reassignment and error on values
  // ---------------------------------------------------------------------------

  /** The rows with the given row numbers. */
  function Pick(rawData: seq<Vector>, idx: seq<nat>): (vs: seq<Vector>)
    requires forall i :: 0 <= i < |idx| ==> idx[i] < |rawData|
    ensures |vs| == |idx| && forall i :: 0 <= i < |idx| ==> vs[i] == rawData[idx[i]]
  {
    seq(|idx|, i requires 0 <= i < |idx| && idx[i] < |rawData| => rawData[idx[i]])
  }

  /** Rows of one width reach one another. */
  lemma PickReaches(rawData: seq<Vector>, seeds: seq<nat>, idx: seq<nat>)
    requires Rectangular(rawData)
    requires forall i :: 0 <= i < |seeds| ==> seeds[i] < |rawData|
    requires forall i :: 0 <= i < |idx| ==> idx[i] < |rawData|
    ensures ReachesAll(Pick(rawData, seeds), Pick(rawData, idx))
  {
  }

  /** The children once the rows below `n` have been considered: every row
      that is not a seed, in row order, dealt to its first nearest seed. */
  function ChildrenBelow(rawData: seq<Vector>, seeds: seq<nat>, n: nat): (r: seq<seq<Vector>>)
    requires Rectangular(rawData) && |seeds| > 0 && n <= |rawData|
    requires forall i :: 0 <= i < |seeds| ==> seeds[i] < |rawData|
    ensures |r| == |seeds|
  {
    PickReaches(rawData, seeds, Others(n, seeds));
    DealRows(Pick(rawData, seeds), Empties(|seeds|), Pick(rawData, Others(n, seeds)))
  }

  /** Adds each row of `xs`, in order, to the bucket of its first nearest
      centroid. */
  function DealRows(cents: seq<Vector>, buckets: seq<seq<Vector>>, xs: seq<Vector>): (r: seq<seq<Vector>>)
    requires |buckets| == |cents| > 0 && ReachesAll(cents, xs)
    ensures |r| == |buckets|
  {
    Distribute(buckets, xs, NearestAll(cents, xs))
  }

  /** Dealing one more row appends it to its first nearest centroid's
      bucket and leaves the others alone. */
  lemma DealSnoc(cents: seq<Vector>, buckets: seq<seq<Vector>>, xs: seq<Vector>, x: Vector)
    requires |buckets| == |cents| > 0 && ReachesAll(cents, xs) && Reaches(cents, x)
    ensures ReachesAll(cents, xs + [x])
    ensures var r := DealRows(cents, buckets, xs); var c := Nearest(cents, x);
      DealRows(cents, buckets, xs + [x]) == r[c := r[c] + [x]]
  {
    var ts := NearestAll(cents, xs + [x]);
    assert (xs + [x])[..|xs|] == xs;
    assert ts[..|xs|] == NearestAll(cents, xs);
  }

  /** The children once the rows below `n` have been considered row by row:
      a seed row is skipped, any other row joins its first nearest seed. */
  function PlacedBelow(rawData: seq<Vector>, seeds: seq<nat>, n: nat): (r: seq<seq<Vector>>)
    requires Rectangular(rawData) && |seeds| > 0 && n <= |rawData|
    requires forall i :: 0 <= i < |seeds| ==> seeds[i] < |rawData|
    ensures |r| == |seeds|
  {
    if n == 0 then Empties(|seeds|)
    else
      var prev := PlacedBelow(rawData, seeds, n - 1);
      if n - 1 in seeds then prev
      else
        var c := Nearest(Pick(rawData, seeds), rawData[n - 1]);
        prev[c := prev[c] + [rawData[n - 1]]]
  }

  /** A seed row adds no child. */
  lemma ChildrenBelowSkip(rawData: seq<Vector>, seeds: seq<nat>, i: nat)
    requires Rectangular(rawData) && |seeds| > 0 && i < |rawData|
    requires forall j :: 0 <= j < |seeds| ==> seeds[j] < |rawData|
    requires i in seeds
    ensures ChildrenBelow(rawData, seeds, i + 1) == ChildrenBelow(rawData, seeds, i)
  {
    assert Others(i + 1, seeds) == Others(i, seeds);
  }

  /** Any other row joins its first nearest seed. */
  lemma ChildrenBelowPlace(rawData: seq<Vector>, seeds: seq<nat>, i: nat)
    requires Rectangular(rawData) && |seeds| > 0 && i < |rawData|
    requires forall j :: 0 <= j < |seeds| ==> seeds[j] < |rawData|
    requires i !in seeds
    ensures var prev := ChildrenBelow(rawData, seeds, i);
      var c := Nearest(Pick(rawData, seeds), rawData[i]);
      ChildrenBelow(rawData, seeds, i + 1) == prev[c := prev[c] + [rawData[i]]]
  {
    var before := Pick(rawData, Others(i, seeds));
    assert Others(i + 1, seeds) == Others(i, seeds) + [i];
    assert Pick(rawData, Others(i + 1, seeds)) == before + [rawData[i]];
    PickReaches(rawData, seeds, Others(i, seeds));
    DealSnoc(Pick(rawData, seeds), Empties(|seeds|), before, rawData[i]);
  }

  /** Row by row, the construction deals the rows that are not seeds, in row
      order. */
  lemma {:induction false} PlacedBelowDeals(rawData: seq<Vector>, seeds: seq<nat>, n: nat)
    requires Rectangular(rawData) && |seeds| > 0 && n <= |rawData|
    requires forall i :: 0 <= i < |seeds| ==> seeds[i] < |rawData|
    ensures PlacedBelow(rawData, seeds, n) == ChildrenBelow(rawData, seeds, n)
  {
    if n == 0 {
      ChildrenBelowNone(rawData, seeds);
    } else {
      var prev := PlacedBelow(rawData, seeds, n - 1);
      PlacedBelowDeals(rawData, seeds, n - 1);
      assert prev == ChildrenBelow(rawData, seeds, n - 1);
      if n - 1 in seeds {
        ChildrenBelowSkip(rawData, seeds, n - 1);
      } else {
        ChildrenBelowPlace(rawData, seeds, n - 1);
      }
    }
  }

  /** Before any row is considered, no cluster has children. */
  lemma ChildrenBelowNone(rawData: seq<Vector>, seeds: seq<nat>)
    requires Rectangular(rawData) && |seeds| > 0
    requires forall i :: 0 <= i < |seeds| ==> seeds[i] < |rawData|
    ensures ChildrenBelow(rawData, seeds, 0) == Empties(|seeds|)
  {
    assert Pick(rawData, Others(0, seeds)) == [];
  }

  /** The children the construction leaves. */
  function InitialChildren(rawData: seq<Vector>, seeds: seq<nat>): (r: seq<seq<Vector>>)
    requires Rectangular(rawData) && |seeds| > 0
    requires forall i :: 0 <= i < |seeds| ==> seeds[i] < |rawData|
    ensures |r| == |seeds|
  {
    ChildrenBelow(rawData, seeds, |rawData|)
  }

  /** Dealt children sit in their first nearest cluster. */
  lemma DealtNearest(cents: seq<Vector>, pool: seq<Vector>)
    requires |cents| > 0 && ReachesAll(cents, pool)
    ensures var r := Distribute(Empties(|cents|), pool, NearestAll(cents, pool));
      forall c, i :: 0 <= c < |r| && 0 <= i < |r[c]| ==>
        r[c][i] in pool && Reaches(cents, r[c][i]) && Nearest(cents, r[c][i]) == c
  {
    var ts := NearestAll(cents, pool);
    var r := Distribute(Empties(|cents|), pool, ts);
    forall c, i | 0 <= c < |r| && 0 <= i < |r[c]|
      ensures r[c][i] in pool && Reaches(cents, r[c][i]) && Nearest(cents, r[c][i]) == c
    {
      DistributeBucket(Empties(|cents|), pool, ts, c);
      SelectSource(pool, ts, c, i);
    }
  }

  /** The seeds are centroids only: the children are exactly the other rows,
      `n - k` of them, each in its first nearest seed's cluster. */
  lemma InitialChildrenFacts(rawData: seq<Vector>, seeds: seq<nat>)
    requires Rectangular(rawData) && |seeds| > 0 && Distinct(seeds)
    requires forall i :: 0 <= i < |seeds| ==> seeds[i] < |rawData|
    ensures var r := InitialChildren(rawData, seeds);
      var rest := Pick(rawData, Others(|rawData|, seeds));
      multiset(Flatten(r)) == multiset(rest) &&
      |Flatten(r)| == |rawData| - |seeds| &&
      forall c, i :: 0 <= c < |r| && 0 <= i < |r[c]| ==>
        Reaches(Pick(rawData, seeds), r[c][i]) && Nearest(Pick(rawData, seeds), r[c][i]) == c
  {
    var cents := Pick(rawData, seeds);
    var rest := Pick(rawData, Others(|rawData|, seeds));
    PickReaches(rawData, seeds, Others(|rawData|, seeds));
    var ts := NearestAll(cents, rest);
    FlattenEmpties<Vector>(|seeds|);
    DistributeConserves(Empties(|seeds|), rest, ts);
    DistributeCount(Empties(|seeds|), rest, ts);
    OthersCount(|rawData|, seeds);
    DealtNearest(cents, rest);
  }

  /** Drains every cluster's children into one pool, in cluster order, and
      deals each to its first nearest centroid. */
  function Regroup(cents: seq<Vector>, members: seq<seq<Vector>>): (r: seq<seq<Vector>>)
    requires |members| == |cents| > 0 && ReachesAll(cents, Flatten(members))
    ensures |r| == |members|
  {
    Distribute(Empties(|members|), Flatten(members), NearestAll(cents, Flatten(members)))
  }

  /** Regrouping keeps the children overall and puts each in its first
      nearest cluster. */
  lemma RegroupFacts(cents: seq<Vector>, members: seq<seq<Vector>>)
    requires |members| == |cents| > 0 && ReachesAll(cents, Flatten(members))
    ensures var r := Regroup(cents, members);
      multiset(Flatten(r)) == multiset(Flatten(members)) &&
      |Flatten(r)| == |Flatten(members)| &&
      forall c, i :: 0 <= c < |r| && 0 <= i < |r[c]| ==>
        Reaches(cents, r[c][i]) && Nearest(cents, r[c][i]) == c
  {
    var pool := Flatten(members);
    var ts := NearestAll(cents, pool);
    FlattenEmpties<Vector>(|members|);
    DistributeConserves(Empties(|members|), pool, ts);
    DistributeCount(Empties(|members|), pool, ts);
    DealtNearest(cents, pool);
  }

  /** Every cluster's children are as wide as its centroid. */
  predicate Matched(centres: seq<Vector>, members: seq<seq<Vector>>)
  {
    |members| <= |centres| && forall k :: 0 <= k < |members| ==> Dim(members[k], |centres[k]|)
  }

  /** The sum of squared errors over the children only, cluster by cluster;
      a centroid adds nothing for itself. */
  function ChildrenError(centres: seq<Vector>, members: seq<seq<Vector>>): (r: real)
    requires Matched(centres, members)
    ensures r >= 0.0
    decreases |members|
  {
    if |members| == 0 then 0.0
    else
      var n := |members| - 1;
      ChildrenError(centres, members[..n]) + VectorsError(centres[n], members[n])
  }

  /** Clusters without children have no error, and each cluster's error is
      part of the total. */
  lemma {:induction false} ChildrenErrorFacts(centres: seq<Vector>, members: seq<seq<Vector>>)
    requires Matched(centres, members)
    ensures (forall k :: 0 <= k < |members| ==> members[k] == []) ==> ChildrenError(centres, members) == 0.0
    ensures forall k :: 0 <= k < |members| ==> VectorsError(centres[k], members[k]) <= ChildrenError(centres, members)
    decreases |members|
  {
    if |members| > 0 {
      var n := |members| - 1;
      ChildrenErrorFacts(centres, members[..n]);
      forall k | 0 <= k < n
        ensures VectorsError(centres[k], members[k]) <= ChildrenError(centres, members)
      {
        assert members[..n][k] == members[k];
      }
    }
  }

  // ---------------------------------------------------------------------------
  // The cluster object
  // ---------------------------------------------------------------------------

  class LegacyCluster {
    var centroid: Vector
    var children: seq<Vector>

    /** A cluster centred on the given row, with no children. */
    constructor (initialPoint: Vector)
      ensures centroid == initialPoint && children == []
    {
      centroid := initialPoint;
      children := [];
    }

    method AddChild(child: Vector)
      modifies this
      ensures children == old(children) + [child] && centroid == old(centroid)
    {
      children := children + [child];
    }

    method ClearChildren()
      modifies this
      ensures children == [] && centroid == old(centroid)
    {
      children := [];
    }

    /** Squared distance from the centroid to `point`, over the point's
        coordinates. */
    method DistanceFromCentroid(point: Vector) returns (distance: real)
      requires |point| <= |centroid|
      ensures distance == SquaredDistance(centroid, point)
      ensures |point| == |centroid| ==> (distance == 0.0 <==> point == centroid)
    {
      distance := 0.0;
      var i := 0;
      while i < |point|
        invariant 0 <= i <= |point|
        invariant distance == SquaredDistance(centroid, point[..i])
      {
        assert point[..i + 1][..i] == point[..i];
        distance := distance + SingleError(centroid[i], point[i]);
        i := i + 1;
      }
      assert point[..i] == point;
      if |point| == |centroid| {
        DistanceZeroIff(centroid, point);
      }
    }

    /** The snap: the centroid joins the children, the mean of them all is
        computed, and the first of them nearest that mean becomes the centroid
        and leaves the children. */
    method RecalculateCentroid()
      requires Dim(children, |centroid|)
      modifies this
      ensures Snapped(centroid, children) == Snap(old(centroid), old(children))
    {
      var d := |centroid|;
      children := children + [centroid];
      var meanValues := MeanValues(children, d);
      centroid := meanValues;
      var closestIndex := ClosestIndex(children);
      centroid := children[closestIndex];
      children := RemoveAt(children, closestIndex);
    }

    /** The position of the first row of `rows` at minimal squared distance
        from the centroid. */
    method ClosestIndex(rows: seq<Vector>) returns (closestIndex: nat)
      requires |rows| > 0 && Dim(rows, |centroid|)
      ensures closestIndex == FirstArgMin(DistancesFrom(centroid, rows))
    {
      ghost var ds := DistancesFrom(centroid, rows);
      var found := false;
      var closestDist := 0.0;
      closestIndex := 0;
      var i := 0;
      while i < |rows|
        invariant 0 <= i <= |rows|
        invariant found <==> i > 0
        invariant found ==> closestIndex < i && closestIndex == FirstArgMin(ds[..i]) && closestDist == ds[closestIndex]
      {
        var tempDist := DistanceFromCentroid(rows[i]);
        assert ds[..i + 1][..i] == ds[..i];
        if !found || tempDist < closestDist {
          closestDist := tempDist;
          closestIndex := i;
        }
        found := true;
        i := i + 1;
      }
      assert ds[..i] == ds;
    }

    /** The cluster's squared error: every child's squared distance to the
        centroid, coordinate by coordinate. */
    method CalculateSquaredError() returns (error: real)
      requires Dim(children, |centroid|)
      ensures error == VectorsError(centroid, children)
    {
      error := 0.0;
      var p := 0;
      while p < |children|
        invariant 0 <= p <= |children|
        invariant error == VectorsError(centroid, children[..p])
      {
        var point := children[p];
        ghost var before := error;
        var i := 0;
        while i < |point|
          invariant 0 <= i <= |point|
          invariant error == before + SquaredDistance(centroid, point[..i])
        {
          assert point[..i + 1][..i] == point[..i];
          error := error + SingleError(centroid[i], point[i]);
          i := i + 1;
        }
        assert point[..i] == point;
        assert children[..p + 1][..p] == children[..p];
        p := p + 1;
      }
      assert children[..p] == children;
    }
  }
}
