/** The random-partition seeding strategy: `k` empty clusters, every row sent
    to a randomly drawn cluster, then every centroid moved to its cluster's
    mean. */
module RandomPartition {
  import opened Vectors
  import opened Points
  import opened Optional
  import opened Assignment
  import opened Seeding
  import opened Clusters
  import opened Partition
  import opened Databases

  /** The clusters the strategy builds: row `r`, paired with its number, is
      appended to cluster `draws[r]`, in row order. */
  function Partitioned(rawData: seq<Vector>, clusterCount: nat, draws: seq<nat>): (r: seq<seq<Point>>)
    requires Rectangular(rawData) && |draws| == |rawData| && InRange(draws, clusterCount)
    ensures |r| == clusterCount && Wide(r, |rawData[0]|)
  {
    assert Coords(Table(rawData)) == rawData;
    DistributeWide(Empties(clusterCount), Table(rawData), draws, |rawData[0]|);
    Distribute(Empties(clusterCount), Table(rawData), draws)
  }

  /** Every row lands in exactly one cluster: the clusters hold the rows and
      nothing else, `n` points in all. */
  lemma PartitionConserves(rawData: seq<Vector>, clusterCount: nat, draws: seq<nat>)
    requires Rectangular(rawData) && |draws| == |rawData| && InRange(draws, clusterCount)
    ensures multiset(Flatten(Partitioned(rawData, clusterCount, draws))) == multiset(Table(rawData))
    ensures |Flatten(Partitioned(rawData, clusterCount, draws))| == |rawData|
  {
    FlattenEmpties<Point>(clusterCount);
    DistributeConserves(Empties(clusterCount), Table(rawData), draws);
    DistributeCount(Empties(clusterCount), Table(rawData), draws);
  }

  /** Cluster `c` is the selection of the rows drawn for `c`, in row order. */
  lemma PartitionBucket(rawData: seq<Vector>, clusterCount: nat, draws: seq<nat>, c: nat)
    requires Rectangular(rawData) && |draws| == |rawData| && InRange(draws, clusterCount)
    requires c < clusterCount
    ensures Partitioned(rawData, clusterCount, draws)[c] == Select(Table(rawData), draws, c)
  {
    DistributeBucket(Empties(clusterCount), Table(rawData), draws, c);
  }

  /** A member of cluster `c` is a row drawn for `c`. */
  lemma PartitionSource(rawData: seq<Vector>, clusterCount: nat, draws: seq<nat>, c: nat, p: Point)
    requires Rectangular(rawData) && |draws| == |rawData| && InRange(draws, clusterCount)
    requires c < clusterCount && p in Partitioned(rawData, clusterCount, draws)[c]
    ensures exists r :: 0 <= r < |rawData| && draws[r] == c && p == Point(rawData[r], r)
  {
    var rows := Table(rawData);
    var sel := Select(rows, draws, c);
    PartitionBucket(rawData, clusterCount, draws, c);
    var i :| 0 <= i < |sel| && sel[i] == p;
    SelectSource(rows, draws, c, i);
    var r :| 0 <= r < |rows| && rows[r] == sel[i] && draws[r] == c;
    assert p == Point(rawData[r], r);
  }

  /** Cluster `c` holds exactly the rows whose draw is `c`. */
  lemma PartitionMembers(rawData: seq<Vector>, clusterCount: nat, draws: seq<nat>, c: nat, p: Point)
    requires Rectangular(rawData) && |draws| == |rawData| && InRange(draws, clusterCount)
    requires c < clusterCount
    ensures p in Partitioned(rawData, clusterCount, draws)[c] <==>
      exists r :: 0 <= r < |rawData| && draws[r] == c && p == Point(rawData[r], r)
  {
    if p in Partitioned(rawData, clusterCount, draws)[c] {
      PartitionSource(rawData, clusterCount, draws, c, p);
    }
    if exists r :: 0 <= r < |rawData| && draws[r] == c && p == Point(rawData[r], r) {
      var r :| 0 <= r < |rawData| && draws[r] == c && p == Point(rawData[r], r);
      SelectHas(Table(rawData), draws, r);
      PartitionBucket(rawData, clusterCount, draws, c);
    }
  }

  /** With as many clusters as rows and every row drawing a different
      cluster, each cluster holds just its own row, sits on it, and the error
      is zero. */
  lemma PermutationSingletons(rawData: seq<Vector>, draws: seq<nat>)
    requires Rectangular(rawData) && |draws| == |rawData| && InRange(draws, |rawData|) && Distinct(draws)
    ensures var P := Partitioned(rawData, |rawData|, draws);
      NonEmpty(P) &&
      (forall r :: 0 <= r < |rawData| ==> P[draws[r]] == [Point(rawData[r], r)]) &&
      Fits(Means(P, |rawData[0]|), P) && TotalError(Means(P, |rawData[0]|), P) == 0.0
  {
    var n := |rawData|;
    var d := |rawData[0]|;
    var P := Partitioned(rawData, n, draws);
    DistinctCovers(draws, n);
    forall c: nat | c < n ensures |P[c]| > 0 {
      assert c in draws;
      var r :| 0 <= r < n && draws[r] == c;
      PartitionMembers(rawData, n, draws, c, Point(rawData[r], r));
    }
    PartitionConserves(rawData, n, draws);
    FlattenAtLeast(P);
    forall r | 0 <= r < n ensures P[draws[r]] == [Point(rawData[r], r)] {
      PartitionMembers(rawData, n, draws, draws[r], Point(rawData[r], r));
      assert Point(rawData[r], r) in P[draws[r]];
    }
    var ms := Means(P, d);
    forall c | 0 <= c < n ensures |P[c]| == 1 && ms[c] == P[c][0].data {
      var p := P[c][0];
      assert P[c] == [p];
      assert Coords(P[c]) == [p.data];
      MeanOfOne(p.data);
    }
    OwnPointsNoError(ms, P);
  }

  /** Appends `clusterCount` new, empty clusters with no centroid. */
  method EmptyClusters(db: ClusteredDatabase, clusterCount: nat)
    requires db.Valid() && db.clusters == []
    modifies db
    ensures db.Valid() && |db.clusters| == clusterCount
    ensures forall k :: 0 <= k < |db.clusters| ==> fresh(db.clusters[k])
    ensures db.members == Empties(clusterCount)
    ensures forall k :: 0 <= k < clusterCount ==> db.centroids[k] == None
  {
    for i := 0 to clusterCount
      invariant db.Valid() && |db.clusters| == i
      invariant forall k :: 0 <= k < |db.clusters| ==> fresh(db.clusters[k])
      invariant forall k :: 0 <= k < i ==> db.members[k] == [] && db.centroids[k] == None
    {
      var cluster := new Cluster();
      db.AddCluster(cluster);
    }
  }

  /** Appends row `r` to cluster `draws[r]`. */
  method PlaceRow(db: ClusteredDatabase, rawData: seq<Vector>, clusterCount: nat, draws: seq<nat>, r: nat)
    requires db.Valid() && |db.clusters| == clusterCount
    requires |draws| == |rawData| && InRange(draws, clusterCount) && r < |rawData|
    requires db.members == DealFirst(Empties(clusterCount), Table(rawData), draws, r)
    modifies db, db.clusters
    ensures db.Valid() && db.clusters == old(db.clusters) && db.centroids == old(db.centroids)
    ensures db.members == DealFirst(Empties(clusterCount), Table(rawData), draws, r + 1)
  {
    db.Place(draws[r], Point(rawData[r], r));
  }

  /** Sends every row, in row order, to its drawn cluster. */
  method PartitionRows(db: ClusteredDatabase, rawData: seq<Vector>, clusterCount: nat, draws: seq<nat>)
    requires db.Valid() && |db.clusters| == clusterCount
    requires Rectangular(rawData) && |draws| == |rawData| && InRange(draws, clusterCount)
    requires db.members == Empties(clusterCount)
    modifies db, db.clusters
    ensures db.Valid() && db.clusters == old(db.clusters) && db.centroids == old(db.centroids)
    ensures db.members == Partitioned(rawData, clusterCount, draws)
  {
    for r := 0 to |rawData|
      invariant db.Valid() && db.clusters == old(db.clusters) && db.centroids == old(db.centroids)
      invariant db.members == DealFirst(Empties(clusterCount), Table(rawData), draws, r)
    {
      PlaceRow(db, rawData, clusterCount, draws, r);
    }
    DealAll(Empties(clusterCount), Table(rawData), draws);
  }

  /** Makes the empty clusters, sends every row to its drawn cluster, moves
      every centroid to its cluster's mean and returns the sum of squared
      errors about those means. */
  method Initialize(db: ClusteredDatabase, rawData: seq<Vector>, clusterCount: nat, draws: seq<nat>)
    returns (sse: real)
    requires db.Valid() && db.clusters == []
    requires Rectangular(rawData) && |draws| == |rawData| && InRange(draws, clusterCount)
    requires NonEmpty(Partitioned(rawData, clusterCount, draws))
    modifies db
    ensures db.Valid() && db.Shaped(|rawData[0]|) && |db.clusters| == clusterCount
    ensures var P := Partitioned(rawData, clusterCount, draws);
      db.members == P && CentresOf(db.centroids) == Means(P, |rawData[0]|) &&
      Fits(Means(P, |rawData[0]|), P) && sse == TotalError(Means(P, |rawData[0]|), P)
  {
    ghost var d := |rawData[0]|;
    EmptyClusters(db, clusterCount);
    assert forall k :: 0 <= k < |db.clusters| ==> fresh(db.clusters[k]);
    PartitionRows(db, rawData, clusterCount, draws);
    db.BalanceCentroids(d);
    sse := db.CalculateSumSquaredError(d);
  }

  /** A database seeded by this strategy, with its initial error recorded. */
  method Build(rawData: seq<Vector>, clusterCount: nat, draws: seq<nat>) returns (db: ClusteredDatabase)
    requires Rectangular(rawData) && |draws| == |rawData| && InRange(draws, clusterCount)
    requires NonEmpty(Partitioned(rawData, clusterCount, draws))
    ensures fresh(db) && db.Valid() && db.Shaped(|rawData[0]|) && |db.clusters| == clusterCount
    ensures var P := Partitioned(rawData, clusterCount, draws);
      db.members == P && CentresOf(db.centroids) == Means(P, |rawData[0]|) &&
      Fits(Means(P, |rawData[0]|), P) && db.initialSSE == TotalError(Means(P, |rawData[0]|), P)
  {
    db := new ClusteredDatabase();
    var sse := Initialize(db, rawData, clusterCount, draws);
    db.SetInitialSSE(sse);
  }
}
