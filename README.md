# k-means clustering of a normalised data table, in Dafny

This project models the clustering core of a small Java program. The program min–max normalises a numeric table
column by column. It then partitions the rows into K clusters by k-means, seeded one of two ways:

- **Random centroids**: K distinct rows become the centroids, and each other row joins its nearest centroid.
- **Random partition**: every row joins a randomly drawn cluster, and each centroid moves to its cluster's mean.

The program scores each run by the sum of squared errors (SSE). It also scores it by the Jaccard and Rand
indices of the pair counts against the true labels. Across runs it keeps a best-so-far record. A legacy
`ClusteredDatabase` is included too. Its clusters keep the centroid apart from the children. Its centroid update
snaps to the member nearest the mean, a medoid-like step.

Modules, one concept each:

- `Vectors` — squared distance, the error of vectors about a centre, and the mean (with the proof that the mean
  minimises the error).
- `Points` / `Optional` — the `Point` record and `Option`.
- `Assignment` — first-nearest centroid, and dealing items into buckets.
- `Seeding` — the rejection sampling of K distinct row indices.
- `Partition` — SSE of a partition, reassignment and mean updates.
- `Clusters` — the `Cluster` class and its error and silhouette computations.
- `Databases` — the abstract database: rebuild, balance, SSE.
- `RandomCentroid` and `RandomPartition` — the two seeding strategies.
- `Legacy` and `LegacyDatabases` — the legacy database and its inner cluster.
- `Doubles` / `Normalisation` — column normalisation.
- `Validation` — pair counts, Jaccard and Rand.
- `Bookkeeping` — the best-run record.

The modelling choices:

- Doubles are exact `real`s.
- `java.util.Random` is replaced by a caller-supplied sequence of draws.
- A 0/0 that yields NaN in Java is `None`.
- The `Double.MAX_VALUE` sentinel of the nearest-cluster scans becomes a "found" flag. The scan still keeps the
  first cluster on ties, because it updates only on a strictly smaller distance.
- Classes whose fields the Java code mutates are Dafny classes. Each mirrors the state of its clusters in ghost
  fields (`members`, `centroids`/`centres`) and proves each loop against a specification function over those
  values.

Two degenerate cases of the code:

- `recalculateCentroid` on a cluster with no children divides by a zero child count, or fails on
  `children.get(0)` when there is no centroid yet. The model excludes that case by a precondition (see Left out).
- A silhouette term whose two distances are both zero is 0/0 in Java, which is NaN. The model returns `None`
  there.

## Model

| member | source | states |
|---|---|---|
| Vectors.SingleErrorZeroIff | src/com/pauldavis/data/Cluster.java:92-94 | the single squared error is zero exactly when the two values are equal (and is never negative) |
| Vectors.SquaredDistance | src/com/pauldavis/data/Cluster.java:102-107 | the squared distance, summed over the point's coordinates only, is never negative |
| Vectors.DistanceUsesPrefix | src/com/pauldavis/data/Cluster.java:102-107 | only the centroid's first `|point|` coordinates matter, because the loop runs over the point's length |
| Vectors.DistanceSymmetric | src/com/pauldavis/data/Cluster.java:115-120 | for vectors of equal width the order of the two arguments does not matter |
| Vectors.DistanceZeroIff | src/com/pauldavis/data/Cluster.java:102-107 | two vectors of equal width are at distance zero exactly when they are equal |
| Vectors.VectorsErrorSnoc | src/com/pauldavis/data/Cluster.java:127-132 | one more member adds exactly its squared distance to the error |
| Vectors.Mean | src/com/pauldavis/data/Cluster.java:72-79 | the mean has the requested width and each coordinate times the member count is that column's sum |
| Vectors.MeanOfOne | src/com/pauldavis/data/Cluster.java:72-79 | the mean of a single vector is that vector |
| Vectors.MeanMinimisesError | src/com/pauldavis/data/Cluster.java:70-83 | the members' error about their mean is at most their error about any other centre |
| Points.Table | src/com/pauldavis/data/Point.java:21-24 | row i becomes the point holding row i's values and original index i |
| Assignment.FirstArgMin | src/com/pauldavis/data/database/AbstractClusteredDatabase.java:74-87 | the index kept by a strict-`<` scan holds a minimal value, and every earlier index holds a strictly larger one |
| Assignment.FirstArgMinUnique | src/com/pauldavis/data/database/AbstractClusteredDatabase.java:74-87 | an index that is minimal and strictly below everything before it is the one the scan keeps |
| Assignment.Distances | src/com/pauldavis/data/database/AbstractClusteredDatabase.java:78-80 | entry c is the datum's squared distance from centroid c |
| Assignment.NearestIsFirstClosest | src/com/pauldavis/data/database/AbstractClusteredDatabase.java:71-91 | the chosen cluster is at minimal distance, and every earlier cluster is strictly farther (ties go to the first) |
| Assignment.NearestUnique | src/com/pauldavis/data/database/AbstractClusteredDatabase.java:71-91 | any cluster with those two properties is the chosen one |
| Assignment.MinDistance | src/com/pauldavis/data/database/AbstractClusteredDatabase.java:74-87 | the nearest distance is never negative and is at most the distance to every centroid |
| Assignment.NearestAll | src/com/pauldavis/data/database/AbstractClusteredDatabase.java:71-92 | each datum's target is its first-nearest cluster |
| Assignment.DealFirstIsDistribute | src/com/pauldavis/data/database/AbstractClusteredDatabase.java:71-92 | dealing the first j data one at a time equals distributing that prefix |
| Assignment.DealAll | src/com/pauldavis/data/database/AbstractClusteredDatabase.java:71-92 | dealing every datum one at a time equals distributing them all |
| Assignment.DistributeBucket | src/com/pauldavis/data/database/RandomPartitionClusteredDatabase.java:43-44 | each bucket ends with its old items followed, in order, by exactly the items sent to it |
| Assignment.FlattenEmpties | src/com/pauldavis/data/database/AbstractClusteredDatabase.java:65-68 | cleared clusters pool nothing |
| Assignment.FlattenUpdate | src/com/pauldavis/data/Cluster.java:63-65 | appending a child to one cluster adds exactly that child to the pooled multiset |
| Assignment.DistributeConserves | src/com/pauldavis/data/database/AbstractClusteredDatabase.java:65-92 | dealing adds exactly the dealt items to the clusters: nothing is duplicated or dropped |
| Assignment.DistributeCount | src/com/pauldavis/data/database/AbstractClusteredDatabase.java:65-92 | dealing adds exactly as many children as items dealt |
| Seeding.DistinctDrawsFacts | src/com/pauldavis/data/database/RandomCentroidClusteredDatabase.java:43-48 | the rejection loop keeps the indices already chosen and adds only new draws, all distinct and at most K in all |
| Seeding.SeedsFacts | src/com/pauldavis/data/database/RandomCentroidClusteredDatabase.java:43-48 | the seeds are distinct draws below n, at most K of them |
| Seeding.DistinctDrawsComplete | src/com/pauldavis/data/database/RandomCentroidClusteredDatabase.java:43-48 | once the draws hold enough distinct values, exactly K indices are chosen |
| Seeding.SeedsComplete | src/com/pauldavis/data/database/RandomCentroidClusteredDatabase.java:43-48 | draws with at least K distinct values yield exactly K seeds |
| Seeding.DrawSeeds | src/com/pauldavis/data/database/RandomCentroidClusteredDatabase.java:43-48 | the loop returns the first K distinct draws: K distinct row indices below n |
| Seeding.OthersMembers | src/com/pauldavis/data/database/RandomCentroidClusteredDatabase.java:56-59 | the rows assigned after seeding are exactly the indices below n that are not seeds |
| Seeding.OthersIncreasing | src/com/pauldavis/data/database/RandomCentroidClusteredDatabase.java:56-59 | those rows are visited in increasing row order |
| Seeding.OthersCount | src/com/pauldavis/data/database/RandomCentroidClusteredDatabase.java:56-59 | seeds and remaining rows together number n |
| Clusters.Max | src/com/pauldavis/data/Cluster.java:169 | `Math.max` is at least both arguments and equals one of them |
| Clusters.SilhouetteTerm | src/com/pauldavis/data/Cluster.java:164-169 | a member's term is NaN exactly when both distances are zero; otherwise it lies in [-1, 1] and is non-negative exactly when the member is no farther from its own centroid |
| Clusters.SilhouetteSumFacts | src/com/pauldavis/data/Cluster.java:161-170 | the sum is defined exactly when no member is at distance zero from both centroids, and lies within ± the member count |
| Clusters.SilhouetteFacts | src/com/pauldavis/data/Cluster.java:156-174 | the average is defined exactly when there are members and no double zero, and lies in [-1, 1] |
| Clusters.ExternalErrorDominates | src/com/pauldavis/data/Cluster.java:139-148 | the external error is never negative and is at least the error against any single other centroid |
| Clusters.MeanValues | src/com/pauldavis/data/Cluster.java:72-79 | the summing and dividing loops compute the mean of the members |
| Clusters.Cluster.constructor | src/com/pauldavis/data/Cluster.java:30-32 | a new cluster has no centroid and no children |
| Clusters.Cluster.Seeded | src/com/pauldavis/data/Cluster.java:39-44 | the seed point is both the centroid and the only child, and the cluster carries the given number |
| Clusters.Cluster.ClearChildren | src/com/pauldavis/data/Cluster.java:54-56 | children become empty; centroid and number are kept |
| Clusters.Cluster.AddChild | src/com/pauldavis/data/Cluster.java:63-65 | the child is appended at the end; nothing else changes |
| Clusters.Cluster.RecalculateCentroid | src/com/pauldavis/data/Cluster.java:70-83 | the centroid becomes the members' mean with index -1; its width comes from the old centroid, or from the first child when there was none; children are unchanged; the error about the new centroid is at most the error about the old one |
| Clusters.Cluster.ErrorFromCentroid | src/com/pauldavis/data/Cluster.java:102-107 | the squared distance from the centroid, never negative, zero exactly when the point equals it |
| Clusters.Cluster.CalculateDistance | src/com/pauldavis/data/Cluster.java:115-120 | the squared distance over the first argument's coordinates; for equal widths it is symmetric and zero exactly on equal vectors |
| Clusters.Cluster.CalculateSquaredError | src/com/pauldavis/data/Cluster.java:127-132 | the sum of the children's squared distances from the centroid; never negative |
| Clusters.Cluster.OtherCentres | src/com/pauldavis/data/Cluster.java:141-142 | the centroids of the other non-empty clusters, in order, skipping this cluster itself |
| Clusters.Cluster.ErrorAgainst | src/com/pauldavis/data/Cluster.java:144-145 | the children's error about another cluster's centroid |
| Clusters.Cluster.CalculateSquaredErrorExternal | src/com/pauldavis/data/Cluster.java:139-148 | the children's error summed over the other non-empty clusters' centroids; never negative |
| Clusters.Cluster.CalculateSilhouette | src/com/pauldavis/data/Cluster.java:156-174 | 0 when the other cluster is empty; otherwise the average silhouette term, NaN exactly when there are no children or a child is at distance zero from both centroids, and always within [-1, 1] |
| Partition.TotalError | src/com/pauldavis/data/database/AbstractClusteredDatabase.java:107-112 | the SSE is never negative |
| Partition.TotalErrorOfEmpties | src/com/pauldavis/data/database/AbstractClusteredDatabase.java:107-112 | empty clusters have SSE zero |
| Partition.ReassignConserves | src/com/pauldavis/data/database/AbstractClusteredDatabase.java:60-93 | the rebuilt clusters hold exactly the pooled points, as a multiset and in number |
| Partition.ReassignNearest | src/com/pauldavis/data/database/AbstractClusteredDatabase.java:60-93 | cluster c receives, in pool order, exactly the points whose first-nearest centroid is c |
| Partition.TotalErrorUpdate | src/com/pauldavis/data/database/AbstractClusteredDatabase.java:107-112 | appending a point to cluster c adds its distance from c's centroid to the SSE |
| Partition.DistributeError | src/com/pauldavis/data/database/AbstractClusteredDatabase.java:71-92 | dealing each point to its nearest cluster adds exactly the points' nearest distances to the SSE |
| Partition.NearestBeatsAnyCentroid | src/com/pauldavis/data/database/AbstractClusteredDatabase.java:78-86 | the nearest-centroid error of a set of points is at most their error about any one centroid |
| Partition.TotalErrorAtLeastMin | src/com/pauldavis/data/database/AbstractClusteredDatabase.java:107-112 | any assignment of the points has SSE at least their nearest-centroid error |
| Partition.ReassignNeverIncreases | src/com/pauldavis/data/database/AbstractClusteredDatabase.java:60-93 | after reassignment the SSE is the minimum for the fixed centroids, so it never exceeds the SSE before |
| Partition.Means | src/com/pauldavis/data/database/AbstractClusteredDatabase.java:98-101 | one mean per cluster, each of the data's width |
| Partition.MeansNeverIncrease | src/com/pauldavis/data/database/AbstractClusteredDatabase.java:98-101 | moving every centroid to its cluster's mean never increases the SSE |
| Partition.OwnPointsNoError | src/com/pauldavis/data/database/RandomPartitionClusteredDatabase.java:47-50 | one-point clusters centred on their point have SSE zero |
| Databases.ClusteredDatabase.constructor | src/com/pauldavis/data/database/AbstractClusteredDatabase.java:31-33 | a new database has no clusters |
| Databases.ClusteredDatabase.SetInitialSSE | src/com/pauldavis/data/database/AbstractClusteredDatabase.java:130-132 | records the initial SSE and changes nothing else |
| Databases.ClusteredDatabase.AddCluster | src/com/pauldavis/data/database/RandomPartitionClusteredDatabase.java:39-40 | appends the cluster, its children and its centroid |
| Databases.ClusteredDatabase.Place | src/com/pauldavis/data/Cluster.java:63-65 | appends the datum to cluster c only; centroids unchanged |
| Databases.ClusteredDatabase.ClosestCluster | src/com/pauldavis/data/database/AbstractClusteredDatabase.java:73-87 | returns the first-nearest cluster |
| Databases.ClusteredDatabase.AddToClosest | src/com/pauldavis/data/database/AbstractClusteredDatabase.java:73-91 | appends the datum to its first-nearest cluster |
| Databases.ClusteredDatabase.Drain | src/com/pauldavis/data/database/AbstractClusteredDatabase.java:62-68 | the pool is every cluster's children in cluster order; every cluster is left empty |
| Databases.ClusteredDatabase.DealNext | src/com/pauldavis/data/database/AbstractClusteredDatabase.java:71-91 | one more pooled datum is dealt to its nearest cluster |
| Databases.ClusteredDatabase.Refill | src/com/pauldavis/data/database/AbstractClusteredDatabase.java:71-92 | the clusters become the pool distributed by nearest centroid; with no clusters (and so an empty pool) nothing changes |
| Databases.ClusteredDatabase.RebuildClusters | src/com/pauldavis/data/database/AbstractClusteredDatabase.java:60-93 | centroids unchanged; members become the first-nearest regrouping of the old members, or stay empty when there are no clusters; the multiset of points is conserved; the SSE does not increase |
| Databases.ClusteredDatabase.BalanceCentroids | src/com/pauldavis/data/database/AbstractClusteredDatabase.java:98-101 | every centroid becomes a point at its cluster's mean with index -1; members unchanged; the SSE does not increase |
| Databases.ClusteredDatabase.CalculateSumSquaredError | src/com/pauldavis/data/database/AbstractClusteredDatabase.java:107-112 | the sum of the clusters' squared errors |
| RandomCentroid.InitialError | src/com/pauldavis/data/database/RandomCentroidClusteredDatabase.java:56-82 | the initial SSE is the nearest-seed error of the non-seed rows |
| RandomCentroid.InitialCount | src/com/pauldavis/data/database/RandomCentroidClusteredDatabase.java:51-80 | the clusters hold the seed rows plus the other rows, n points in all |
| RandomCentroid.InitialMembership | src/com/pauldavis/data/database/RandomCentroidClusteredDatabase.java:51-80 | every row is in some cluster |
| RandomCentroid.SeedClusters | src/com/pauldavis/data/database/RandomCentroidClusteredDatabase.java:51-53 | one cluster per seed, with the seed row as centroid and only child |
| RandomCentroid.AssignRow | src/com/pauldavis/data/database/RandomCentroidClusteredDatabase.java:56-80 | one step of the loop: a seed row is skipped, any other row joins its first-nearest cluster |
| RandomCentroid.AssignOthers | src/com/pauldavis/data/database/RandomCentroidClusteredDatabase.java:56-80 | the assignment loop yields the specified initial clusters |
| RandomCentroid.DealtBelowNext | src/com/pauldavis/data/database/RandomCentroidClusteredDatabase.java:56-80 | visiting one more row leaves the dealt clusters alone for a seed row and appends any other row to its first-nearest seed's cluster |
| RandomCentroid.AssignedBelowDeals | src/com/pauldavis/data/database/RandomCentroidClusteredDatabase.java:56-80 | the row-by-row loop state equals the non-seed rows dealt in row order to their nearest seeds |
| RandomCentroid.SeedAndAssign | src/com/pauldavis/data/database/RandomCentroidClusteredDatabase.java:51-82 | after seeding and assignment the clusters are the specified initial clusters and the returned SSE is the nearest-seed error |
| RandomCentroid.Initialize | src/com/pauldavis/data/database/RandomCentroidClusteredDatabase.java:38-83 | K clusters from the first K distinct draws, every other row at its nearest seed, and the returned SSE equals the nearest-seed error |
| RandomCentroid.Build | src/com/pauldavis/data/database/AbstractClusteredDatabase.java:31-35 | the constructor runs the strategy and records its SSE as the initial SSE; the built database has K clusters centred on the seed rows, holding the initial clusters |
| RandomPartition.Partitioned | src/com/pauldavis/data/database/RandomPartitionClusteredDatabase.java:39-44 | K clusters, every point of the data's width |
| RandomPartition.PartitionConserves | src/com/pauldavis/data/database/RandomPartitionClusteredDatabase.java:43-44 | the clusters hold exactly the n rows |
| RandomPartition.PartitionMembers | src/com/pauldavis/data/database/RandomPartitionClusteredDatabase.java:43-44 | cluster c holds exactly the rows whose draw is c |
| RandomPartition.PermutationSingletons | src/com/pauldavis/data/database/RandomPartitionClusteredDatabase.java:38-50 | with K = n and distinct draws, every cluster holds its one row, and the SSE about the means is zero |
| RandomPartition.EmptyClusters | src/com/pauldavis/data/database/RandomPartitionClusteredDatabase.java:39-40 | K new clusters, empty and without centroid |
| RandomPartition.PlaceRow | src/com/pauldavis/data/database/RandomPartitionClusteredDatabase.java:43-44 | one row joins its drawn cluster |
| RandomPartition.PartitionRows | src/com/pauldavis/data/database/RandomPartitionClusteredDatabase.java:43-44 | the loop yields the partition by draws |
| RandomPartition.Initialize | src/com/pauldavis/data/database/RandomPartitionClusteredDatabase.java:35-51 | the partition by draws, centroids at the means, and the returned SSE is the SSE about those means |
| RandomPartition.Build | src/com/pauldavis/data/database/AbstractClusteredDatabase.java:31-35 | the constructor runs the strategy and records its SSE as the initial SSE; the built database holds the partition by draws with centroids at the means |
| Legacy.RemoveAt | src/com/pauldavis/ClusteredDatabase.java:141 | removing index k shifts the later elements down by one |
| Legacy.RemoveAtConserves | src/com/pauldavis/ClusteredDatabase.java:141 | the removed element and the rest make up the original multiset |
| Legacy.SnapConserves | src/com/pauldavis/ClusteredDatabase.java:116-142 | the child count is unchanged, the multiset of children plus centroid is unchanged, and the new centroid is one of them |
| Legacy.SnapNearest | src/com/pauldavis/ClusteredDatabase.java:120-140 | the new centroid is the element of children-plus-centroid nearest their mean, the first one on ties |
| Legacy.SnapAlone | src/com/pauldavis/ClusteredDatabase.java:116-142 | a cluster with no children keeps its centroid |
| Legacy.ClustersConserve | src/com/pauldavis/ClusteredDatabase.java:82-85 | per-cluster conservation gives conservation of all children plus centroids |
| Legacy.Pick | src/com/pauldavis/ClusteredDatabase.java:31-33 | centroid k is the row of seed k |
| Legacy.ChildrenBelowSkip | src/com/pauldavis/ClusteredDatabase.java:36-50 | a seed row adds no child |
| Legacy.ChildrenBelowPlace | src/com/pauldavis/ClusteredDatabase.java:36-50 | any other row is appended to its first-nearest seed's cluster, the other clusters unchanged |
| Legacy.PlacedBelowDeals | src/com/pauldavis/ClusteredDatabase.java:36-50 | the row-by-row loop state equals the non-seed rows dealt in row order |
| Legacy.ChildrenBelowNone | src/com/pauldavis/ClusteredDatabase.java:36-50 | before any row is visited the clusters have no children |
| Legacy.DealtNearest | src/com/pauldavis/ClusteredDatabase.java:65-76 | every dealt vector came from the pool and sits in its first-nearest cluster |
| Legacy.InitialChildrenFacts | src/com/pauldavis/ClusteredDatabase.java:19-51 | the children are exactly the non-seed rows, n - K in all, each in its first-nearest cluster; seeds are centroids only |
| Legacy.RegroupFacts | src/com/pauldavis/ClusteredDatabase.java:56-77 | regrouping keeps the multiset of children, and puts every child in its first-nearest cluster |
| Legacy.ChildrenError | src/com/pauldavis/ClusteredDatabase.java:91-96 | the SSE over children is never negative |
| Legacy.ChildrenErrorFacts | src/com/pauldavis/ClusteredDatabase.java:91-96 | with no children the SSE is zero, and it is at least any one cluster's error |
| Legacy.LegacyCluster.constructor | src/com/pauldavis/ClusteredDatabase.java:108-111 | the initial point is the centroid; there are no children |
| Legacy.LegacyCluster.AddChild | src/com/pauldavis/ClusteredDatabase.java:148-150 | appends the child; centroid unchanged |
| Legacy.LegacyCluster.ClearChildren | src/com/pauldavis/ClusteredDatabase.java:155-157 | empties the children; centroid unchanged |
| Legacy.LegacyCluster.DistanceFromCentroid | src/com/pauldavis/ClusteredDatabase.java:174-180 | the squared distance from the centroid, zero exactly on the centroid for equal widths |
| Legacy.LegacyCluster.RecalculateCentroid | src/com/pauldavis/ClusteredDatabase.java:116-142 | the new centroid and children are the snap of the old ones (see SnapConserves, SnapNearest, SnapAlone) |
| Legacy.LegacyCluster.ClosestIndex | src/com/pauldavis/ClusteredDatabase.java:131-139 | the first index at minimal distance from the centroid |
| Legacy.LegacyCluster.CalculateSquaredError | src/com/pauldavis/ClusteredDatabase.java:186-194 | the children's error about the centroid |
| LegacyDatabases.ClusteredDatabase.constructor | src/com/pauldavis/ClusteredDatabase.java:19-51 | K clusters centred on the first K distinct draws, with the other rows as children at their first-nearest centroid |
| LegacyDatabases.ClusteredDatabase.SeedClusters | src/com/pauldavis/ClusteredDatabase.java:31-33 | one childless cluster per seed, centred on its row |
| LegacyDatabases.ClusteredDatabase.ClosestCluster | src/com/pauldavis/ClusteredDatabase.java:40-48 | returns the first-nearest cluster |
| LegacyDatabases.ClusteredDatabase.Place | src/com/pauldavis/ClusteredDatabase.java:49 | appends the datum to cluster c only; centres unchanged |
| LegacyDatabases.ClusteredDatabase.AssignRow | src/com/pauldavis/ClusteredDatabase.java:36-50 | one loop step: a seed row is skipped, any other row joins its first-nearest cluster |
| LegacyDatabases.ClusteredDatabase.AssignRows | src/com/pauldavis/ClusteredDatabase.java:36-50 | the loop yields the specified initial children |
| LegacyDatabases.ClusteredDatabase.Drain | src/com/pauldavis/ClusteredDatabase.java:57-62 | the pool is every cluster's children in order; clusters left empty |
| LegacyDatabases.ClusteredDatabase.DealNext | src/com/pauldavis/ClusteredDatabase.java:65-76 | one more pooled vector is dealt to its nearest cluster |
| LegacyDatabases.ClusteredDatabase.Refill | src/com/pauldavis/ClusteredDatabase.java:65-76 | the clusters become the pool distributed by first-nearest centre; with no clusters (and so an empty pool) nothing changes |
| LegacyDatabases.ClusteredDatabase.RebuildClusters | src/com/pauldavis/ClusteredDatabase.java:56-77 | centres unchanged; the children become the first-nearest regrouping, or stay empty when there are no clusters, with the same multiset |
| LegacyDatabases.ClusteredDatabase.BalanceCentroids | src/com/pauldavis/ClusteredDatabase.java:82-85 | every cluster is snapped; children plus centres keep their multiset, and the child count is kept |
| LegacyDatabases.ClusteredDatabase.CalculateSumSquaredError | src/com/pauldavis/ClusteredDatabase.java:91-96 | the sum of the clusters' errors over their children |
| Normalisation.Low | src/com/pauldavis/Main.java:70-89 | the running minimum is at most every value of the column and at most the largest double |
| Normalisation.High | src/com/pauldavis/Main.java:70-89 | the running maximum is at least every value of the column and at least the smallest positive double |
| Normalisation.ScaleInUnit | src/com/pauldavis/Main.java:92-101 | a value between the bounds rescales into [0, 1] |
| Normalisation.ScaleMonotone | src/com/pauldavis/Main.java:92-101 | rescaling keeps the order of values |
| Normalisation.NormalisedInUnit | src/com/pauldavis/Main.java:66-101 | every normalised value lies in [0, 1], even with the maximum seeded at `Double.MIN_VALUE` |
| Normalisation.ConstantColumnZero | src/com/pauldavis/Main.java:97-99 | a constant column normalises to zeros |
| Normalisation.LargestBelowOne | src/com/pauldavis/Main.java:72 | for the column [-1, -2] the maximum stays at its positive seed, so the largest value does not normalise to 1 |
| Normalisation.HighFromLowest | src/com/pauldavis/Main.java:72 | the maximum seeded at the lowest double is at least every value of the column |
| Normalisation.BoundsAttained | src/com/pauldavis/Main.java:76-89 | over finite values both corrected bounds are values of the column |
| Normalisation.IntendedSpansUnit | src/com/pauldavis/Main.java:66-101 | with the corrected seed, a column with any spread normalises its smallest value to 0 and its largest to 1 |
| Normalisation.FoldRow | src/com/pauldavis/Main.java:77-88 | one row folded into every column's running bounds |
| Normalisation.ColumnBounds | src/com/pauldavis/Main.java:66-89 | `min[a]` and `max[a]` are the running bounds of column a over all rows |
| Normalisation.ScaleRow | src/com/pauldavis/Main.java:93-100 | one row rescaled by the bounds; other rows untouched |
| Normalisation.Normalise | src/com/pauldavis/Main.java:64-101 | every value is replaced, in place, by its rescaling against its column's running bounds, and lies in [0, 1] |
| Validation.Kind | src/com/pauldavis/Main.java:175-189 | a pair is a true positive or false negative exactly when the true labels agree, and a true or false positive exactly when the predicted labels agree |
| Validation.PairCountsTotal | src/com/pauldavis/Main.java:172-192 | the four counts add up to n(n - 1): each ordered pair of distinct points is counted once |
| Validation.ColumnIsRow | src/com/pauldavis/Main.java:172-192 | (i, j) and (j, i) fall in the same category |
| Validation.PairCountsEven | src/com/pauldavis/Main.java:172-192 | each of the four counts is even |
| Validation.PerfectGrouping | src/com/pauldavis/Main.java:172-195 | when the prediction groups as the labels do, FN = FP = 0, Jaccard is 1 if TP > 0 and Rand is 1 if n ≥ 2 |
| Validation.Jaccard | src/com/pauldavis/Main.java:194 | defined exactly when TP + FN + FP > 0, within [0, 1], and 1 exactly when FN + FP = 0 |
| Validation.Rand | src/com/pauldavis/Main.java:195 | defined exactly when some pair is counted, within [0, 1], and 1 exactly when FN + FP = 0 |
| Validation.RandAtLeastJaccard | src/com/pauldavis/Main.java:194-195 | whenever Jaccard is defined, Rand is defined and at least as large |
| Validation.CountPairs | src/com/pauldavis/Main.java:166-192 | the double loop computes the pair counts; they total n(n - 1) and are all even |
| Bookkeeping.RecordIndices | src/com/pauldavis/Main.java:197-203 | best Jaccard becomes the run's Jaccard exactly when that is larger, and stays otherwise; best Rand takes the run's Rand exactly when the run's Jaccard exceeds the stored Rand; the SSE and run fields are untouched |
| Bookkeeping.ScanFirstMin | src/com/pauldavis/Main.java:132-135 | strict `<` updates from the largest double keep the smallest value with the number of the first run reaching it |
| Bookkeeping.HistoryScans | src/com/pauldavis/Main.java:114-163 | each SSE and iteration record over the runs is such a scan |
| Bookkeeping.BestInitialSSE | src/com/pauldavis/Main.java:114-135 | the best initial SSE is the smallest, recorded with the first run reaching it |
| Bookkeeping.BestEnding | src/com/pauldavis/Main.java:154-163 | the best ending SSE and the fewest iterations are the smallest, each with the first run reaching it |
| Bookkeeping.BestJaccard | src/com/pauldavis/Main.java:197-199 | the best Jaccard is at least every defined Jaccard, and is 0 or one of them |
| Bookkeeping.BestRandSource | src/com/pauldavis/Main.java:201-203 | the best Rand is 0 or the Rand of a run whose Jaccard beat the Rand stored before it |
| Bookkeeping.BestRandNotHighest | src/com/pauldavis/Main.java:201-203 | two runs where the record keeps the lower Rand, because the second run's Jaccard does not beat the stored Rand |

## Left out

- Reading the input file, parsing arguments, printing, and the `Results` map (`Results.java`). The record fields
  in `Bookkeeping` stand for its keys.
- `java.util.Random`. Draws are caller-supplied sequences.
- IEEE behaviour: rounding, infinities and NaN. NaN results are `None`, and NaN comparisons, which are false,
  never update a record.
- The multi-run driver loop with its convergence test (`Main.java:124-212`). Its stopping rule relies on NaN from
  the infinite starting SSE. A run is given as its initial SSE and, when it met the stopping test, its ending SSE,
  iteration counter and pair counts.
- `generateIndexClusterLabelTable` is not part of this model. The predicted labels are an input to
  `Validation.CountPairs`.
- Getters and setters other than `setInitialSSE`.
- The abstract `initialize` is modelled by the two strategy modules, not by dynamic dispatch.
- Several source lines do not compile as written, and the model picks the evident meaning:
  - `new Cluster(rawData[point])` matches no `Cluster` constructor. The model uses the seeded constructor, with
    the row index as the point index and the cluster's position as its number.
  - `calculateSumSquaredErrorInternal` is not defined. It is modelled as `calculateSumSquaredError`.
  - `rebuildClusters` pools `double[]` while children are `Point`s. The model pools the `Point`s.
  - RandomPartitionClusteredDatabase.java:44 (`addChild(rawDatum)`), RandomCentroidClusteredDatabase.java:68
    (`errorFromCentroid(rawData[i])`) and RandomCentroidClusteredDatabase.java:79 (`addChild(rawData[i])`) pass a
    `double[]` where a `Point` is expected. The model turns row `i` into `Point(rawData[i], i)` (`Points.Table`),
    so a point keeps its row index.
- Data of uneven width is not modelled. The data rows must all have one width (`Rectangular`).
- Clusters.Cluster.RecalculateCentroid: requires at least one child. With no children the source divides 0 by
  0, or fails on `children.get(0)` when there is no centroid yet.
- Databases.ClusteredDatabase.BalanceCentroids: requires every cluster non-empty, for the same reason.
- RandomPartition.Initialize: requires every drawn cluster to receive a row, for the same reason.
- RandomPartition.Build: requires the same, because it runs RandomPartition.Initialize.
- RandomCentroid.Initialize: requires the draws to contain K distinct row indices. The source loops forever
  otherwise.
- RandomCentroid.Build: requires the same, because it runs RandomCentroid.Initialize.
- LegacyDatabases.ClusteredDatabase.constructor: requires the same of its draws.
- LegacyDatabases.ClusteredDatabase.BalanceCentroids: states conservation and the per-cluster snap, but no bound
  on the SSE. Snapping to the member nearest the mean does not in general lower the error about the centroid.
- Normalisation.Normalise: does not model non-finite input values.

## Findings

| source | as written | input that shows it | evidently intended | confidence | as-written member | corrected member |
|---|---|---|---|---|---|---|
| src/com/pauldavis/Main.java:72 | the running maximum starts at `Double.MIN_VALUE`, the smallest positive double | a column [-1.0, -2.0]: the maximum stays at 2^-1074, so -1.0 normalises to 1/(2 + 2^-1074) instead of 1 | start at the lowest finite double (`-Double.MAX_VALUE`), so every column spans [0, 1] | high; not executed | Normalisation.LargestBelowOne | Normalisation.IntendedSpansUnit |

`Normalisation.Normalise` keeps the seed as written, because it models the program's behaviour. Its values lie
in [0, 1] either way. `Normalisation.HighFromLowest` is the intended bound, and `IntendedSpansUnit` proves the
full span for it.
