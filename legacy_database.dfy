/** The older generation's database: it seeds its clusters when it is built
    and offers the same k-means step as the current generation, over raw rows
    and with the medoid snap in place of the mean. */
module LegacyDatabases {
  import opened Vectors
  import opened Assignment
  import opened Seeding
  import opened Legacy

  /** No cluster object appears twice in the list. */
  predicate DistinctObjects(cs: seq<LegacyCluster>)
  {
    forall i, j :: 0 <= i < j < |cs| ==> cs[i] != cs[j]
  }

  class ClusteredDatabase {
    var clusters: seq<LegacyCluster>
    /** The children of each cluster, in list order. */
    ghost var members: seq<seq<Vector>>
    /** The centroid of each cluster, in list order. */
    ghost var centres: seq<Vector>

    /** `members` and `centres` mirror the cluster objects, which are all
        different objects. */
    ghost predicate Valid()
      reads this, clusters
    {
      DistinctObjects(clusters) && |members| == |clusters| && |centres| == |clusters| &&
      forall k :: 0 <= k < |clusters| ==>
        clusters[k].children == members[k] && clusters[k].centroid == centres[k]
    }

    /** Draws `clusterCount` distinct seed rows, makes each the centroid of a
        cluster with no children, then adds every other row, in row order, to
        the cluster with the first nearest seed. */
    constructor (rawData: seq<Vector>, clusterCount: nat, draws: seq<nat>)
      requires Rectangular(rawData) && clusterCount > 0
      requires forall i :: 0 <= i < |draws| ==> draws[i] < |rawData|
      requires |Seeds(draws, clusterCount)| == clusterCount
      ensures Valid() && |clusters| == clusterCount
      ensures forall i :: 0 <= i < clusterCount ==> Seeds(draws, clusterCount)[i] < |rawData|
      ensures centres == Pick(rawData, Seeds(draws, clusterCount))
      ensures members == InitialChildren(rawData, Seeds(draws, clusterCount))
    {
      clusters := [];
      members := [];
      centres := [];
      new;
      var randomIndices := DrawSeeds(|rawData|, clusterCount, draws);
      SeedClusters(rawData, randomIndices);
      assert forall k :: 0 <= k < |clusters| ==> fresh(clusters[k]);
      AssignRows(rawData, randomIndices);
    }

    /** One new cluster per seed row, in seed order, centred on that row and
        with no children. */
    method SeedClusters(rawData: seq<Vector>, randomIndices: seq<nat>)
      requires Valid() && clusters == []
      requires forall j :: 0 <= j < |randomIndices| ==> randomIndices[j] < |rawData|
      modifies this
      ensures Valid() && |clusters| == |randomIndices|
      ensures forall k :: 0 <= k < |clusters| ==> fresh(clusters[k])
      ensures centres == Pick(rawData, randomIndices) && members == Empties(|randomIndices|)
    {
      for j := 0 to |randomIndices|
        invariant Valid() && |clusters| == j
        invariant forall k :: 0 <= k < |clusters| ==> fresh(clusters[k])
        invariant forall k :: 0 <= k < j ==> members[k] == [] && centres[k] == rawData[randomIndices[k]]
      {
        var point := randomIndices[j];
        var cluster := new LegacyCluster(rawData[point]);
        clusters := clusters + [cluster];
        members := members + [[]];
        centres := centres + [rawData[point]];
      }
    }

    /** The first cluster, in list order, whose centroid is at minimal
        squared distance from `point`. */
    method ClosestCluster(point: Vector) returns (closest: nat)
      requires Valid() && |clusters| > 0 && Reaches(centres, point)
      ensures closest == Nearest(centres, point) && closest < |clusters|
    {
      ghost var ds := Distances(centres, point);
      var found := false;
      var closestDist := 0.0;
      closest := 0;
      var i := 0;
      while i < |clusters|
        invariant 0 <= i <= |clusters|
        invariant found <==> i > 0
        invariant found ==> closest < i && closestDist == ds[closest]
        invariant found ==> forall j :: 0 <= j < i ==> ds[closest] <= ds[j]
        invariant found ==> forall j :: 0 <= j < closest ==> ds[closest] < ds[j]
      {
        var tempDistance := clusters[i].DistanceFromCentroid(point);
        if !found || tempDistance < closestDist {
          closestDist := tempDistance;
          closest := i;
        }
        found := true;
        i := i + 1;
      }
      FirstArgMinUnique(ds, closest);
    }

    /** Appends `datum` to the children of cluster `c`. */
    method Place(c: nat, datum: Vector)
      requires Valid() && c < |clusters|
      modifies this, clusters
      ensures Valid() && clusters == old(clusters) && centres == old(centres)
      ensures members == old(members)[c := old(members)[c] + [datum]]
    {
      clusters[c].AddChild(datum);
      members := members[c := members[c] + [datum]];
    }

    /** One cluster per seed, centred on that seed's row. */
    ghost predicate SeededBy(rawData: seq<Vector>, seeds: seq<nat>)
      reads this, clusters
      requires forall j :: 0 <= j < |seeds| ==> seeds[j] < |rawData|
    {
      Valid() && |clusters| == |seeds| && centres == Pick(rawData, seeds)
    }

    /** Adds row `i` to the cluster of its first nearest seed, unless it is a
        seed. */
    method AssignRow(rawData: seq<Vector>, seeds: seq<nat>, i: nat)
      requires Rectangular(rawData) && |seeds| > 0 && i < |rawData|
      requires forall j :: 0 <= j < |seeds| ==> seeds[j] < |rawData|
      requires SeededBy(rawData, seeds)
      requires members == PlacedBelow(rawData, seeds, i)
      modifies this, clusters
      ensures SeededBy(rawData, seeds) && clusters == old(clusters)
      ensures members == PlacedBelow(rawData, seeds, i + 1)
    {
      if i in seeds {
        return;
      }
      var c := ClosestCluster(rawData[i]);
      Place(c, rawData[i]);
    }

    /** Adds every row that is not a seed, in row order, to the cluster of
        its first nearest seed. */
    method AssignRows(rawData: seq<Vector>, seeds: seq<nat>)
      requires Rectangular(rawData) && |seeds| > 0
      requires forall j :: 0 <= j < |seeds| ==> seeds[j] < |rawData|
      requires SeededBy(rawData, seeds)
      requires members == Empties(|seeds|)
      modifies this, clusters
      ensures SeededBy(rawData, seeds) && clusters == old(clusters)
      ensures members == ChildrenBelow(rawData, seeds, |rawData|)
    {
      for i := 0 to |rawData|
        invariant SeededBy(rawData, seeds) && clusters == old(clusters)
        invariant members == PlacedBelow(rawData, seeds, i)
      {
        AssignRow(rawData, seeds, i);
      }
      PlacedBelowDeals(rawData, seeds, |rawData|);
    }

    /** Empties every cluster's children into one pool, in cluster order;
        centroids stay. */
    method Drain() returns (data: seq<Vector>)
      requires Valid()
      modifies this, clusters
      ensures Valid() && clusters == old(clusters) && centres == old(centres)
      ensures data == Flatten(old(members))
      ensures members == Empties(|clusters|)
    {
      ghost var olds := members;
      data := [];
      var i := 0;
      while i < |clusters|
        invariant 0 <= i <= |clusters|
        invariant Valid() && clusters == old(clusters) && centres == old(centres)
        invariant data == Flatten(olds[..i])
        invariant |members| == |olds|
        invariant forall k :: 0 <= k < i ==> members[k] == []
        invariant forall k :: i <= k < |olds| ==> members[k] == olds[k]
      {
        assert olds[..i + 1][..i] == olds[..i];
        data := data + clusters[i].children;
        clusters[i].ClearChildren();
        members := members[i := []];
        i := i + 1;
      }
      assert olds[..i] == olds;
    }

    /** Adds the `j`-th pooled row to the cluster with the first nearest
        centroid, after the rows before it. */
    method DealNext(data: seq<Vector>, j: nat)
      requires Valid() && |clusters| > 0 && j < |data| && ReachesAll(centres, data)
      requires members == DealFirst(Empties(|clusters|), data, NearestAll(centres, data), j)
      modifies this, clusters
      ensures Valid() && clusters == old(clusters) && centres == old(centres)
      ensures members == DealFirst(Empties(|clusters|), data, NearestAll(centres, data), j + 1)
    {
      var c := ClosestCluster(data[j]);
      Place(c, data[j]);
    }

    /** Adds every pooled row, in pool order, to the cluster with the first
        nearest centroid; with no clusters the pool is empty and nothing
        happens. */
    method Refill(data: seq<Vector>)
      requires Valid() && (|clusters| > 0 || |data| == 0) && ReachesAll(centres, data)
      requires members == Empties(|clusters|)
      modifies this, clusters
      ensures Valid() && clusters == old(clusters) && centres == old(centres)
      ensures |clusters| > 0 ==> members == Distribute(Empties(|clusters|), data, NearestAll(centres, data))
      ensures |clusters| == 0 ==> members == []
    {
      var j := 0;
      while j < |data|
        invariant 0 <= j <= |data|
        invariant Valid() && clusters == old(clusters) && centres == old(centres)
        invariant |clusters| > 0 ==> members == DealFirst(Empties(|clusters|), data, NearestAll(centres, data), j)
        invariant |clusters| == 0 ==> members == []
      {
        DealNext(data, j);
        j := j + 1;
      }
      if |clusters| > 0 {
        DealAll(Empties(|clusters|), data, NearestAll(centres, data));
      }
    }

    /** Drains every cluster's children into one pool, in cluster order, then
        adds each pooled row to the cluster with the first nearest centroid.
        A database without clusters is left as it is. */
    method RebuildClusters()
      requires Valid() && ReachesAll(centres, Flatten(members))
      modifies this, clusters
      ensures Valid() && clusters == old(clusters) && centres == old(centres)
      ensures |clusters| > 0 ==> members == Regroup(centres, old(members))
      ensures |clusters| == 0 ==> members == old(members) == []
      ensures multiset(Flatten(members)) == multiset(Flatten(old(members)))
    {
      if |clusters| > 0 {
        RegroupFacts(centres, members);
      }
      var data := Drain();
      Refill(data);
    }

    /** Snaps every cluster's centroid, in list order. */
    method BalanceCentroids()
      requires Valid() && Matched(centres, members)
      modifies this, clusters
      ensures Valid() && clusters == old(clusters) && |members| == |old(members)|
      ensures forall k :: 0 <= k < |clusters| ==>
        Snapped(centres[k], members[k]) == Snap(old(centres)[k], old(members)[k])
      ensures multiset(Flatten(members)) + multiset(centres) == multiset(Flatten(old(members))) + multiset(old(centres))
      ensures |Flatten(members)| == |Flatten(old(members))|
    {
      ghost var oc, om := centres, members;
      var i := 0;
      while i < |clusters|
        invariant 0 <= i <= |clusters|
        invariant Valid() && clusters == old(clusters) && |members| == |om| && |centres| == |oc|
        invariant forall k :: 0 <= k < i ==> Snapped(centres[k], members[k]) == Snap(oc[k], om[k])
        invariant forall k :: i <= k < |om| ==> centres[k] == oc[k] && members[k] == om[k]
      {
        clusters[i].RecalculateCentroid();
        centres := centres[i := clusters[i].centroid];
        members := members[i := clusters[i].children];
        i := i + 1;
      }
      forall k | 0 <= k < |om|
        ensures multiset(members[k]) + multiset{centres[k]} == multiset(om[k]) + multiset{oc[k]}
        ensures |members[k]| == |om[k]|
      {
        SnapConserves(oc[k], om[k]);
      }
      ClustersConserve(oc, om, centres, members);
    }

    /** The sum of squared errors over every cluster's children. */
    method CalculateSumSquaredError() returns (error: real)
      requires Valid() && Matched(centres, members)
      ensures error == ChildrenError(centres, members)
    {
      error := 0.0;
      var i := 0;
      while i < |clusters|
        invariant 0 <= i <= |clusters|
        invariant error == ChildrenError(centres, members[..i])
      {
        var e := clusters[i].CalculateSquaredError();
        assert members[..i + 1][..i] == members[..i];
        error := error + e;
        i := i + 1;
      }
      assert members[..i] == members;
    }
  }
}
