/** The clustered database of the current generation: a list of clusters and
    the error recorded when the database was built. Both seeding strategies
    fill it (`RandomCentroid`, `RandomPartition`); this module holds the
    k-means step they share. */
module Databases {
  import opened Vectors
  import opened Points
  import opened Optional
  import opened Assignment
  import opened Clusters
  import opened Partition

  /** No cluster object appears twice in the list. */
  predicate DistinctObjects(cs: seq<Cluster>)
  {
    forall i, j :: 0 <= i < j < |cs| ==> cs[i] != cs[j]
  }

  /** Every cluster of the list has a centroid. */
  predicate Centred(centroids: seq<Option<Point>>)
  {
    forall k :: 0 <= k < |centroids| ==> centroids[k].Some?
  }

  /** The coordinates of a list of present centroids, in order. */
  function CentresOf(centroids: seq<Option<Point>>): (vs: seq<Vector>)
    requires Centred(centroids)
    ensures |vs| == |centroids| && forall k :: 0 <= k < |vs| ==> vs[k] == centroids[k].value.data
  {
    seq(|centroids|, k requires 0 <= k < |centroids| && centroids[k].Some? => centroids[k].value.data)
  }

  class ClusteredDatabase {
    var clusters: seq<Cluster>
    var initialSSE: real
    /** The members of each cluster, in list order. */
    ghost var members: seq<seq<Point>>
    /** The centroid of each cluster, in list order. */
    ghost var centroids: seq<Option<Point>>

    /** `members` and `centroids` mirror the cluster objects, which are all
        different objects. */
    ghost predicate Valid()
      reads this, clusters
    {
      DistinctObjects(clusters) && |members| == |clusters| && |centroids| == |clusters| &&
      forall k :: 0 <= k < |clusters| ==>
        clusters[k].children == members[k] && clusters[k].centroid == centroids[k]
    }

    /** Every cluster has a centroid, and every centroid and every member has
        `d` coordinates. */
    ghost predicate Shaped(d: nat)
      reads this
    {
      |members| == |centroids| && Centred(centroids) && Dim(CentresOf(centroids), d) && Wide(members, d)
    }

    /** A database with no clusters yet; the seeding strategies fill it. */
    constructor ()
      ensures Valid() && clusters == [] && members == [] && centroids == []
      ensures initialSSE == 0.0
    {
      clusters := [];
      initialSSE := 0.0;
      members := [];
      centroids := [];
    }

    method SetInitialSSE(sse: real)
      modifies this
      ensures initialSSE == sse
      ensures clusters == old(clusters) && members == old(members) && centroids == old(centroids)
    {
      initialSSE := sse;
    }

    /** Appends a cluster object that is not in the list yet. */
    method AddCluster(c: Cluster)
      requires Valid() && c !in clusters
      modifies this
      ensures Valid() && clusters == old(clusters) + [c]
      ensures members == old(members) + [c.children] && centroids == old(centroids) + [c.centroid]
    {
      clusters := clusters + [c];
      members := members + [c.children];
      centroids := centroids + [c.centroid];
    }

    /** Appends `datum` to the members of cluster `c`. */
    method Place(c: nat, datum: Point)
      requires Valid() && c < |clusters|
      modifies this, clusters
      ensures Valid() && clusters == old(clusters) && centroids == old(centroids)
      ensures members == old(members)[c := old(members)[c] + [datum]]
    {
      clusters[c].AddChild(datum);
      members := members[c := members[c] + [datum]];
    }

    /** The first cluster, in list order, whose centroid is at minimal
        squared distance from `point`; "no candidate yet" stands for the
        largest-double start of the scan. */
    method ClosestCluster(point: Point) returns (closest: nat)
      requires Valid() && |clusters| > 0 && Centred(centroids) && Reaches(CentresOf(centroids), point.data)
      ensures closest == Nearest(CentresOf(centroids), point.data)
      ensures closest < |clusters|
    {
      ghost var ds := Distances(CentresOf(centroids), point.data);
      var found := false;
      var closestDist := 0.0;
      closest := 0;
      var i := 0;
      while i < |clusters|
        invariant 0 <= i <= |clusters|
        invariant found <==> i > 0
        invariant found ==> closest < i && closestDist == ds[closest]
        invariant found ==> forall j :: 0 <= j < i ==> ds[closest] <= ds[j]
        invariant found ==> forall j :: 0 <= j < closest ==> ds[closest] < ds[j]
      {
        var tempDistance := clusters[i].ErrorFromCentroid(point);
        if !found || tempDistance < closestDist {
          closestDist := tempDistance;
          closest := i;
        }
        found := true;
        i := i + 1;
      }
      FirstArgMinUnique(ds, closest);
    }

    /** Adds one point to its closest cluster and says which one that was. */
    method AddToClosest(datum: Point) returns (c: nat)
      requires Valid() && |clusters| > 0 && Centred(centroids) && Reaches(CentresOf(centroids), datum.data)
      modifies this, clusters
      ensures Valid() && clusters == old(clusters) && centroids == old(centroids)
      ensures c < |clusters| && c == Nearest(CentresOf(centroids), datum.data)
      ensures members == old(members)[c := old(members)[c] + [datum]]
    {
      c := ClosestCluster(datum);
      Place(c, datum);
    }

    /** Empties every cluster into one pool, in cluster order; centroids
        stay. */
    method Drain() returns (data: seq<Point>)
      requires Valid()
      modifies this, clusters
      ensures Valid() && clusters == old(clusters) && centroids == old(centroids)
      ensures data == Flatten(old(members))
      ensures members == Empties(|clusters|)
    {
      ghost var olds := members;
      data := [];
      var i := 0;
      while i < |clusters|
        invariant 0 <= i <= |clusters|
        invariant Valid() && clusters == old(clusters) && centroids == old(centroids)
        invariant data == Flatten(olds[..i])
        invariant |members| == |olds|
        invariant forall k :: 0 <= k < i ==> members[k] == []
        invariant forall k :: i <= k < |olds| ==> members[k] == olds[k]
      {
        assert olds[..i + 1][..i] == olds[..i];
        data := data + clusters[i].children;
        clusters[i].ClearChildren();
        members := members[i := []];
        i := i + 1;
      }
      assert olds[..i] == olds;
    }

    /** Adds the `j`-th pooled point to its closest cluster, after the
        points before it. */
    method DealNext(data: seq<Point>, j: nat)
      requires Valid() && |clusters| > 0 && Centred(centroids) && j < |data|
      requires ReachesAll(CentresOf(centroids), Coords(data))
      requires members == DealFirst(Empties(|clusters|), data, NearestAll(CentresOf(centroids), Coords(data)), j)
      modifies this, clusters
      ensures Valid() && clusters == old(clusters) && centroids == old(centroids)
      ensures members == DealFirst(Empties(|clusters|), data, NearestAll(CentresOf(centroids), Coords(data)), j + 1)
    {
      assert Reaches(CentresOf(centroids), Coords(data)[j]);
      var c := AddToClosest(data[j]);
    }

    /** Adds every pooled point, in pool order, to its closest cluster; with
        no clusters the pool is empty and nothing happens. */
    method Refill(data: seq<Point>)
      requires Valid() && Centred(centroids) && (|clusters| > 0 || |data| == 0)
      requires ReachesAll(CentresOf(centroids), Coords(data))
      requires members == Empties(|clusters|)
      modifies this, clusters
      ensures Valid() && clusters == old(clusters) && centroids == old(centroids)
      ensures |clusters| > 0 ==>
        members == Distribute(Empties(|clusters|), data, NearestAll(CentresOf(centroids), Coords(data)))
      ensures |clusters| == 0 ==> members == []
    {
      var j := 0;
      while j < |data|
        invariant 0 <= j <= |data|
        invariant Valid() && clusters == old(clusters) && centroids == old(centroids)
        invariant |clusters| > 0 ==>
          members == DealFirst(Empties(|clusters|), data, NearestAll(CentresOf(centroids), Coords(data)), j)
        invariant |clusters| == 0 ==> members == []
      {
        DealNext(data, j);
        j := j + 1;
      }
      if |clusters| > 0 {
        DealAll(Empties(|clusters|), data, NearestAll(CentresOf(centroids), Coords(data)));
      }
    }

    /** Drains every cluster's members into one pool, in cluster order, then
        adds each pooled point to its closest cluster. A database without
        clusters is left as it is. */
    method RebuildClusters(ghost d: nat)
      requires Valid() && Shaped(d)
      modifies this, clusters
      ensures Valid() && Shaped(d) && clusters == old(clusters) && centroids == old(centroids)
      ensures ReachesAll(CentresOf(centroids), Coords(Flatten(old(members))))
      ensures |clusters| > 0 ==> members == Reassign(CentresOf(centroids), old(members))
      ensures |clusters| == 0 ==> members == old(members) == []
      ensures multiset(Flatten(members)) == multiset(Flatten(old(members)))
      ensures TotalError(CentresOf(centroids), members) <= old(TotalError(CentresOf(centroids), members))
    {
      if |clusters| > 0 {
        ReassignNeverIncreases(CentresOf(centroids), members, d);
        ReassignConserves(CentresOf(centroids), members);
      }
      var data := Drain();
      Refill(data);
    }

    /** Every centroid there is has `d` coordinates. */
    ghost predicate CentroidsWide(d: nat)
      reads this
    {
      forall k :: 0 <= k < |centroids| && centroids[k].Some? ==> |centroids[k].value.data| == d
    }

    /** Moves every centroid to the mean of its cluster's members; the members
        stay where they are. */
    method BalanceCentroids(ghost d: nat)
      requires Valid() && Wide(members, d) && NonEmpty(members) && CentroidsWide(d)
      modifies this, clusters
      ensures Valid() && Shaped(d) && clusters == old(clusters) && members == old(members)
      ensures CentresOf(centroids) == Means(members, d)
      ensures forall k :: 0 <= k < |centroids| ==> centroids[k] == Some(Point(Mean(Coords(members[k]), d), -1))
      ensures old(Shaped(d)) ==> TotalError(CentresOf(centroids), members) <= old(TotalError(CentresOf(centroids), members))
    {
      if Shaped(d) {
        MeansNeverIncrease(CentresOf(centroids), members, d);
      }
      ghost var olds := centroids;
      var i := 0;
      while i < |clusters|
        invariant 0 <= i <= |clusters|
        invariant Valid() && clusters == old(clusters) && members == old(members)
        invariant |centroids| == |olds|
        invariant forall k :: 0 <= k < i ==> centroids[k] == Some(Point(Mean(Coords(members[k]), d), -1))
        invariant forall k :: i <= k < |olds| ==> centroids[k] == olds[k]
      {
        clusters[i].RecalculateCentroid();
        centroids := centroids[i := clusters[i].centroid];
        i := i + 1;
      }
    }

    /** The sum of squared errors: every cluster's squared error, added up in
        list order. */
    method CalculateSumSquaredError(ghost d: nat) returns (error: real)
      requires Valid() && Shaped(d)
      ensures Fits(CentresOf(centroids), members)
      ensures error == TotalError(CentresOf(centroids), members)
    {
      ghost var cents := CentresOf(centroids);
      error := 0.0;
      var i := 0;
      while i < |clusters|
        invariant 0 <= i <= |clusters|
        invariant Fits(cents, members[..i])
        invariant error == TotalError(cents, members[..i])
      {
        assert clusters[i].Uniform();
        var e := clusters[i].CalculateSquaredError();
        assert members[..i + 1][..i] == members[..i];
        error := error + e;
        i := i + 1;
      }
      assert members[..i] == members;
    }
  }
}
