/** The random-centroid seeding strategy: `k` distinct rows become the
    centroids of `k` clusters, each cluster starting with its own seed row as
    member, and every other row joins its nearest seed. */
module RandomCentroid {
  import opened Vectors
  import opened Points
  import opened Optional
  import opened Assignment
  import opened Seeding
  import opened Clusters
  import opened Partition
  import opened Databases

  /** The rows with the given row numbers, each paired with its number. */
  function Rows(rawData: seq<Vector>, idx: seq<nat>): (ps: seq<Point>)
    requires forall i :: 0 <= i < |idx| ==> idx[i] < |rawData|
    ensures |ps| == |idx| && forall i :: 0 <= i < |idx| ==> ps[i] == Point(rawData[idx[i]], idx[i])
  {
    seq(|idx|, i requires 0 <= i < |idx| && idx[i] < |rawData| => Point(rawData[idx[i]], idx[i]))
  }

  /** One cluster per point, holding just that point. */
  function Singletons(ps: seq<Point>): (bs: seq<seq<Point>>)
    ensures |bs| == |ps| && forall k :: 0 <= k < |ps| ==> bs[k] == [ps[k]]
  {
    seq(|ps|, k requires 0 <= k < |ps| => [ps[k]])
  }

  /** The centroids of the seeded clusters, as the database records them. */
  function Somes(ps: seq<Point>): (os: seq<Option<Point>>)
    ensures |os| == |ps| && forall k :: 0 <= k < |ps| ==> os[k] == Some(ps[k])
  {
    seq(|ps|, k requires 0 <= k < |ps| => Some(ps[k]))
  }

  /** Adds each point of `pts`, in order, to the bucket of its nearest
      centroid. */
  function Dealt(cents: seq<Vector>, buckets: seq<seq<Point>>, pts: seq<Point>): (r: seq<seq<Point>>)
    requires |buckets| == |cents| > 0 && ReachesAll(cents, Coords(pts))
    ensures |r| == |buckets|
  {
    Distribute(buckets, pts, NearestAll(cents, Coords(pts)))
  }

  /** Dealing one more point appends it to its nearest centroid's bucket and
      leaves the others alone. */
  lemma DealtSnoc(cents: seq<Vector>, buckets: seq<seq<Point>>, pts: seq<Point>, x: Point)
    requires |buckets| == |cents| > 0 && ReachesAll(cents, Coords(pts)) && Reaches(cents, x.data)
    ensures ReachesAll(cents, Coords(pts + [x]))
    ensures var r := Dealt(cents, buckets, pts); var c := Nearest(cents, x.data);
      Dealt(cents, buckets, pts + [x]) == r[c := r[c] + [x]]
  {
    CoordsSnoc(pts, x);
    var ts := NearestAll(cents, Coords(pts + [x]));
    assert (pts + [x])[..|pts|] == pts;
    assert ts[..|pts|] == NearestAll(cents, Coords(pts));
  }

  /** The clusters the strategy builds from seed rows `seeds`: singleton
      clusters of the seeds, then every other row, in row order, dealt to its
      nearest seed. */
  function InitialClusters(rawData: seq<Vector>, seeds: seq<nat>): (r: seq<seq<Point>>)
    requires Rectangular(rawData) && |seeds| > 0
    requires forall i :: 0 <= i < |seeds| ==> seeds[i] < |rawData|
    ensures |r| == |seeds|
  {
    DealtBelow(rawData, seeds, |rawData|)
  }

  /** The clusters once the rows below `n` have been considered, row by row:
      a seed row is skipped, any other row joins its nearest seed. */
  function AssignedBelow(rawData: seq<Vector>, seeds: seq<nat>, n: nat): (r: seq<seq<Point>>)
    requires Rectangular(rawData) && |seeds| > 0 && n <= |rawData|
    requires forall i :: 0 <= i < |seeds| ==> seeds[i] < |rawData|
    ensures |r| == |seeds|
  {
    if n == 0 then Singletons(Rows(rawData, seeds))
    else
      var prev := AssignedBelow(rawData, seeds, n - 1);
      if n - 1 in seeds then prev
      else
        var c := Nearest(Coords(Rows(rawData, seeds)), rawData[n - 1]);
        prev[c := prev[c] + [Point(rawData[n - 1], n - 1)]]
  }

  /** The rows below `n` that are not seeds, dealt in row order to their
      nearest seeds. */
  function DealtBelow(rawData: seq<Vector>, seeds: seq<nat>, n: nat): (r: seq<seq<Point>>)
    requires Rectangular(rawData) && |seeds| > 0 && n <= |rawData|
    requires forall i :: 0 <= i < |seeds| ==> seeds[i] < |rawData|
    ensures |r| == |seeds|
  {
    var seedPts := Rows(rawData, seeds);
    Dealt(Coords(seedPts), Singletons(seedPts), Rows(rawData, Others(n, seeds)))
  }

  /** The rows left over below `i + 1` are those below `i`, then row `i`
      unless it is a seed. */
  lemma RowsOthersNext(rawData: seq<Vector>, seeds: seq<nat>, i: nat)
    requires i < |rawData|
    ensures Rows(rawData, Others(i + 1, seeds)) ==
      Rows(rawData, Others(i, seeds)) + (if i in seeds then [] else [Point(rawData[i], i)])
  {
    var tail: seq<nat> := if i in seeds then [] else [i];
    assert Others(i + 1, seeds) == Others(i, seeds) + tail;
    RowsAppend(rawData, Others(i, seeds), tail);
  }

  /** Picking the rows of two lists of row numbers one after the other. */
  lemma RowsAppend(rawData: seq<Vector>, a: seq<nat>, b: seq<nat>)
    requires forall j :: 0 <= j < |a| ==> a[j] < |rawData|
    requires forall j :: 0 <= j < |b| ==> b[j] < |rawData|
    ensures forall j :: 0 <= j < |a + b| ==> (a + b)[j] < |rawData|
    ensures Rows(rawData, a + b) == Rows(rawData, a) + Rows(rawData, b)
  {
  }

  /** Dealing row `i`, when it is not a seed, appends it to its nearest
      seed's cluster. */
  lemma DealtBelowNext(rawData: seq<Vector>, seeds: seq<nat>, i: nat)
    requires Rectangular(rawData) && |seeds| > 0 && i < |rawData|
    requires forall j :: 0 <= j < |seeds| ==> seeds[j] < |rawData|
    ensures var prev := DealtBelow(rawData, seeds, i);
      var c := Nearest(Coords(Rows(rawData, seeds)), rawData[i]);
      DealtBelow(rawData, seeds, i + 1) == if i in seeds then prev else prev[c := prev[c] + [Point(rawData[i], i)]]
  {
    var seedPts := Rows(rawData, seeds);
    var before := Rows(rawData, Others(i, seeds));
    RowsOthersNext(rawData, seeds, i);
    if i !in seeds {
      var x := Point(rawData[i], i);
      assert Rows(rawData, Others(i + 1, seeds)) == before + [x];
      DealtSnoc(Coords(seedPts), Singletons(seedPts), before, x);
    } else {
      assert Rows(rawData, Others(i + 1, seeds)) == before;
    }
  }

  /** Row by row, the strategy deals the rows that are not seeds, in row
      order. */
  lemma {:induction false} AssignedBelowDeals(rawData: seq<Vector>, seeds: seq<nat>, n: nat)
    requires Rectangular(rawData) && |seeds| > 0 && n <= |rawData|
    requires forall i :: 0 <= i < |seeds| ==> seeds[i] < |rawData|
    ensures AssignedBelow(rawData, seeds, n) == DealtBelow(rawData, seeds, n)
  {
    if n == 0 {
      assert Rows(rawData, Others(0, seeds)) == [];
    } else {
      var prev := AssignedBelow(rawData, seeds, n - 1);
      AssignedBelowDeals(rawData, seeds, n - 1);
      assert prev == DealtBelow(rawData, seeds, n - 1);
      DealtBelowNext(rawData, seeds, n - 1);
    }
  }

  /** The error the strategy reports: each non-seed row's squared distance
      to its nearest seed; the seeds themselves add nothing. */
  lemma InitialError(rawData: seq<Vector>, seeds: seq<nat>)
    requires Rectangular(rawData) && |seeds| > 0
    requires forall i :: 0 <= i < |seeds| ==> seeds[i] < |rawData|
    ensures var cents := Coords(Rows(rawData, seeds));
      var rest := Coords(Rows(rawData, Others(|rawData|, seeds)));
      var r := InitialClusters(rawData, seeds);
      ReachesAll(cents, rest) &&
      Wide(r, |rawData[0]|) && Fits(cents, r) && TotalError(cents, r) == MinError(cents, rest)
  {
    var d := |rawData[0]|;
    var seedPts := Rows(rawData, seeds);
    var cents := Coords(seedPts);
    var rest := Rows(rawData, Others(|rawData|, seeds));
    OwnPointsNoError(cents, Singletons(seedPts));
    assert Wide(Singletons(seedPts), d) by {
      forall k | 0 <= k < |seedPts|
        ensures Dim(Coords(Singletons(seedPts)[k]), d)
      {
        assert Coords([seedPts[k]]) == [seedPts[k].data];
      }
    }
    DistributeError(cents, Singletons(seedPts), rest, NearestAll(cents, Coords(rest)), d);
  }

  /** The clusters hold the seed rows and the other rows, `n` points in
      all. */
  lemma InitialCount(rawData: seq<Vector>, seeds: seq<nat>)
    requires Rectangular(rawData) && |seeds| > 0 && Distinct(seeds)
    requires forall i :: 0 <= i < |seeds| ==> seeds[i] < |rawData|
    ensures var all := Flatten(InitialClusters(rawData, seeds));
      multiset(all) == multiset(Rows(rawData, seeds)) + multiset(Rows(rawData, Others(|rawData|, seeds))) &&
      |all| == |rawData|
  {
    var seedPts := Rows(rawData, seeds);
    var rest := Rows(rawData, Others(|rawData|, seeds));
    var ts := NearestAll(Coords(seedPts), Coords(rest));
    FlattenSingletons(seedPts);
    DistributeConserves(Singletons(seedPts), rest, ts);
    DistributeCount(Singletons(seedPts), rest, ts);
    OthersCount(|rawData|, seeds);
  }

  /** Every row ends up in a cluster; with the count above, in exactly one. */
  lemma InitialMembership(rawData: seq<Vector>, seeds: seq<nat>, i: nat)
    requires Rectangular(rawData) && |seeds| > 0 && Distinct(seeds)
    requires forall i :: 0 <= i < |seeds| ==> seeds[i] < |rawData|
    requires i < |rawData|
    ensures Point(rawData[i], i) in Flatten(InitialClusters(rawData, seeds))
  {
    var all := Flatten(InitialClusters(rawData, seeds));
    InitialCount(rawData, seeds);
    if i in seeds {
      var j :| 0 <= j < |seeds| && seeds[j] == i;
      assert Rows(rawData, seeds)[j] in multiset(all);
    } else {
      var others := Others(|rawData|, seeds);
      OthersMembers(|rawData|, seeds);
      assert i in others;
      var j :| 0 <= j < |others| && others[j] == i;
      assert Rows(rawData, others)[j] in multiset(all);
    }
  }

  lemma {:induction false} FlattenSingletons(ps: seq<Point>)
    ensures Flatten(Singletons(ps)) == ps
    decreases |ps|
  {
    if |ps| > 0 {
      var n := |ps| - 1;
      FlattenSingletons(ps[..n]);
      assert Singletons(ps)[..n] == Singletons(ps[..n]);
      assert ps == ps[..n] + [ps[n]];
    }
  }

  /** The clusters of a database under construction, from seeding onwards. */
  ghost predicate Seeded(db: ClusteredDatabase, rawData: seq<Vector>, seeds: seq<nat>)
    reads db, db.clusters
    requires Rectangular(rawData) && |seeds| > 0
    requires forall i :: 0 <= i < |seeds| ==> seeds[i] < |rawData|
  {
    db.Valid() && db.centroids == Somes(Rows(rawData, seeds)) &&
    Centred(db.centroids) && CentresOf(db.centroids) == Coords(Rows(rawData, seeds))
  }

  /** Adds row `i` to its nearest seed's cluster, unless it is a seed. */
  method AssignRow(db: ClusteredDatabase, rawData: seq<Vector>, seeds: seq<nat>, i: nat)
    requires Rectangular(rawData) && |seeds| > 0 && i < |rawData|
    requires forall j :: 0 <= j < |seeds| ==> seeds[j] < |rawData|
    requires Seeded(db, rawData, seeds)
    requires db.members == AssignedBelow(rawData, seeds, i)
    modifies db, db.clusters
    ensures Seeded(db, rawData, seeds) && db.clusters == old(db.clusters)
    ensures db.members == AssignedBelow(rawData, seeds, i + 1)
  {
    if i in seeds {
      return;
    }
    var c := db.AddToClosest(Point(rawData[i], i));
  }

  /** Makes one cluster per seed row, in seed order, centred on that row and
      holding it as its only member; the cluster's number is its position. */
  method SeedClusters(db: ClusteredDatabase, rawData: seq<Vector>, randomIndices: seq<nat>)
    requires db.Valid() && db.clusters == []
    requires Rectangular(rawData) && |randomIndices| > 0
    requires forall j :: 0 <= j < |randomIndices| ==> randomIndices[j] < |rawData|
    modifies db
    ensures Seeded(db, rawData, randomIndices) && |db.clusters| == |randomIndices|
    ensures forall k :: 0 <= k < |db.clusters| ==> fresh(db.clusters[k])
    ensures db.members == Singletons(Rows(rawData, randomIndices))
  {
    ghost var seedPts := Rows(rawData, randomIndices);
    for j := 0 to |randomIndices|
      invariant db.Valid() && |db.clusters| == j
      invariant forall k :: 0 <= k < |db.clusters| ==> fresh(db.clusters[k])
      invariant |db.members| == j && forall m :: 0 <= m < j ==> db.members[m] == [seedPts[m]]
      invariant |db.centroids| == j && forall m :: 0 <= m < j ==> db.centroids[m] == Some(seedPts[m])
    {
      var point := randomIndices[j];
      var cluster := new Cluster.Seeded(rawData[point], point, j);
      db.AddCluster(cluster);
    }
    assert db.members == Singletons(seedPts);
    assert db.centroids == Somes(seedPts);
    assert CentresOf(db.centroids) == Coords(seedPts);
  }

  /** Adds every row that is not a seed, in row order, to the cluster with
      the nearest seed. */
  method AssignOthers(db: ClusteredDatabase, rawData: seq<Vector>, randomIndices: seq<nat>)
    requires Rectangular(rawData) && |randomIndices| > 0
    requires forall j :: 0 <= j < |randomIndices| ==> randomIndices[j] < |rawData|
    requires Seeded(db, rawData, randomIndices)
    requires db.members == Singletons(Rows(rawData, randomIndices))
    modifies db, db.clusters
    ensures Seeded(db, rawData, randomIndices) && db.clusters == old(db.clusters)
    ensures db.members == InitialClusters(rawData, randomIndices)
  {
    for i := 0 to |rawData|
      invariant Seeded(db, rawData, randomIndices) && db.clusters == old(db.clusters)
      invariant db.members == AssignedBelow(rawData, randomIndices, i)
    {
      AssignRow(db, rawData, randomIndices, i);
    }
    AssignedBelowDeals(rawData, randomIndices, |rawData|);
  }

  /** Makes one seeded cluster per seed row, adds every other row to the
      cluster with the nearest seed and returns the sum of squared errors. */
  method SeedAndAssign(db: ClusteredDatabase, rawData: seq<Vector>, randomIndices: seq<nat>)
    returns (sse: real)
    requires db.Valid() && db.clusters == []
    requires Rectangular(rawData) && |randomIndices| > 0
    requires forall j :: 0 <= j < |randomIndices| ==> randomIndices[j] < |rawData|
    modifies db
    ensures Seeded(db, rawData, randomIndices) && |db.clusters| == |randomIndices|
    ensures db.members == InitialClusters(rawData, randomIndices)
    ensures sse == MinError(Coords(Rows(rawData, randomIndices)), Coords(Rows(rawData, Others(|rawData|, randomIndices))))
  {
    SeedClusters(db, rawData, randomIndices);
    assert forall k :: 0 <= k < |db.clusters| ==> fresh(db.clusters[k]);
    AssignOthers(db, rawData, randomIndices);
    InitialError(rawData, randomIndices);
    sse := db.CalculateSumSquaredError(|rawData[0]|);
  }

  /** Draws the seed rows, then seeds and fills the clusters. */
  method Initialize(db: ClusteredDatabase, rawData: seq<Vector>, clusterCount: nat, draws: seq<nat>)
    returns (sse: real)
    requires db.Valid() && db.clusters == []
    requires Rectangular(rawData) && clusterCount > 0
    requires forall i :: 0 <= i < |draws| ==> draws[i] < |rawData|
    requires |Seeds(draws, clusterCount)| == clusterCount
    modifies db
    ensures forall i :: 0 <= i < clusterCount ==> Seeds(draws, clusterCount)[i] < |rawData|
    ensures var seeds := Seeds(draws, clusterCount);
      Seeded(db, rawData, seeds) && |db.clusters| == clusterCount &&
      db.members == InitialClusters(rawData, seeds) &&
      sse == MinError(Coords(Rows(rawData, seeds)), Coords(Rows(rawData, Others(|rawData|, seeds))))
  {
    var randomIndices := DrawSeeds(|rawData|, clusterCount, draws);
    sse := SeedAndAssign(db, rawData, randomIndices);
  }

  /** A database seeded by this strategy, with its initial error recorded. */
  method Build(rawData: seq<Vector>, clusterCount: nat, draws: seq<nat>) returns (db: ClusteredDatabase)
    requires Rectangular(rawData) && clusterCount > 0
    requires forall i :: 0 <= i < |draws| ==> draws[i] < |rawData|
    requires |Seeds(draws, clusterCount)| == clusterCount
    ensures fresh(db) && db.Valid() && |db.clusters| == clusterCount
    ensures forall i :: 0 <= i < clusterCount ==> Seeds(draws, clusterCount)[i] < |rawData|
    ensures var seeds := Seeds(draws, clusterCount);
      Seeded(db, rawData, seeds) && db.members == InitialClusters(rawData, seeds) &&
      db.initialSSE == MinError(Coords(Rows(rawData, seeds)), Coords(Rows(rawData, Others(|rawData|, seeds))))
  {
    db := new ClusteredDatabase();
    var sse := Initialize(db, rawData, clusterCount, draws);
    db.SetInitialSSE(sse);
  }
}
