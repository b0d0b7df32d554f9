/** The value-level rules shared by both generations of the clustering code:
    which centroid is nearest, how a pool of points is dealt out to clusters,
    and which rows the seeding step picks from a stream of random draws. */
module Assignment {
  import opened Vectors

  // ---------------------------------------------------------------------------
  // First index of a minimum
  // ---------------------------------------------------------------------------

  /** The index a left-to-right scan ends on when it keeps the best value so
      far and only replaces it on a strictly smaller one. */
  function FirstArgMin(ds: seq<real>): (k: nat)
    requires |ds| > 0
    ensures k < |ds|
    ensures forall i :: 0 <= i < |ds| ==> ds[k] <= ds[i]
    ensures forall i :: 0 <= i < k ==> ds[k] < ds[i]
    decreases |ds|
  {
    if |ds| == 1 then 0
    else
      var k := FirstArgMin(ds[..|ds| - 1]);
      if ds[|ds| - 1] < ds[k] then |ds| - 1 else k
  }

  /** Minimal and strictly below everything before it pins down the index. */
  lemma FirstArgMinUnique(ds: seq<real>, k: nat)
    requires k < |ds|
    requires forall i :: 0 <= i < |ds| ==> ds[k] <= ds[i]
    requires forall i :: 0 <= i < k ==> ds[k] < ds[i]
    ensures FirstArgMin(ds) == k
  {
    var f := FirstArgMin(ds);
    assert ds[f] <= ds[k] && ds[k] <= ds[f];
  }

  // ---------------------------------------------------------------------------
  // Nearest centroid
  // ---------------------------------------------------------------------------

  /** Every centroid is at least as wide as the point measured against it. */
  predicate Reaches(cents: seq<Vector>, x: Vector)
  {
    forall c :: 0 <= c < |cents| ==> |x| <= |cents[c]|
  }

  function Distances(cents: seq<Vector>, x: Vector): (ds: seq<real>)
    requires Reaches(cents, x)
    ensures |ds| == |cents|
    ensures forall c :: 0 <= c < |cents| ==> ds[c] == SquaredDistance(cents[c], x)
  {
    seq(|cents|, c requires 0 <= c < |cents| => SquaredDistance(cents[c], x))
  }

  /** The cluster a point is assigned to: the scan over the centroids'
      distances, in list order. */
  function Nearest(cents: seq<Vector>, x: Vector): (k: nat)
    requires |cents| > 0 && Reaches(cents, x)
    ensures k < |cents|
  {
    FirstArgMin(Distances(cents, x))
  }

  /** The assigned cluster is the first one, in list order, whose centroid is
      at minimal squared distance. */
  lemma NearestIsFirstClosest(cents: seq<Vector>, x: Vector)
    requires |cents| > 0 && Reaches(cents, x)
    ensures var k := Nearest(cents, x);
      (forall c :: 0 <= c < |cents| ==> SquaredDistance(cents[k], x) <= SquaredDistance(cents[c], x)) &&
      (forall c :: 0 <= c < k ==> SquaredDistance(cents[k], x) < SquaredDistance(cents[c], x))
  {
    var ds := Distances(cents, x);
    var k := FirstArgMin(ds);
    assert forall c :: 0 <= c < |cents| ==> ds[c] == SquaredDistance(cents[c], x);
  }

  /** Minimal and strictly below everything before it: that is the nearest. */
  lemma NearestUnique(cents: seq<Vector>, x: Vector, k: nat)
    requires |cents| > 0 && Reaches(cents, x) && k < |cents|
    requires forall c :: 0 <= c < |cents| ==> SquaredDistance(cents[k], x) <= SquaredDistance(cents[c], x)
    requires forall c :: 0 <= c < k ==> SquaredDistance(cents[k], x) < SquaredDistance(cents[c], x)
    ensures Nearest(cents, x) == k
  {
    var ds := Distances(cents, x);
    FirstArgMinUnique(ds, k);
  }

  /** The squared distance from a point to its nearest centroid. */
  function MinDistance(cents: seq<Vector>, x: Vector): (r: real)
    requires |cents| > 0 && Reaches(cents, x)
    ensures r >= 0.0
    ensures forall c :: 0 <= c < |cents| ==> r <= SquaredDistance(cents[c], x)
  {
    NearestIsFirstClosest(cents, x);
    SquaredDistance(cents[Nearest(cents, x)], x)
  }

  predicate ReachesAll(cents: seq<Vector>, xs: seq<Vector>)
  {
    forall j :: 0 <= j < |xs| ==> Reaches(cents, xs[j])
  }

  /** The nearest cluster of every point of a pool, in pool order. */
  function NearestAll(cents: seq<Vector>, xs: seq<Vector>): (ts: seq<nat>)
    requires |cents| > 0 && ReachesAll(cents, xs)
    ensures |ts| == |xs|
    ensures forall j :: 0 <= j < |xs| ==> ts[j] == Nearest(cents, xs[j]) && ts[j] < |cents|
  {
    seq(|xs|, j requires 0 <= j < |xs| => Nearest(cents, xs[j]))
  }

  /** The total squared distance of a pool to its nearest centroids. */
  function MinError(cents: seq<Vector>, xs: seq<Vector>): (r: real)
    requires |cents| > 0 && ReachesAll(cents, xs)
    ensures r >= 0.0
  {
    if |xs| == 0 then 0.0
    else MinError(cents, xs[..|xs| - 1]) + MinDistance(cents, xs[|xs| - 1])
  }

  // ---------------------------------------------------------------------------
  // Dealing a pool out to buckets
  // ---------------------------------------------------------------------------

  predicate InRange(ts: seq<nat>, k: nat)
  {
    forall j :: 0 <= j < |ts| ==> ts[j] < k
  }

  /** Appends `items[j]` to bucket `targets[j]`, for j in increasing order. */
  function Distribute<T>(buckets: seq<seq<T>>, items: seq<T>, targets: seq<nat>): (r: seq<seq<T>>)
    requires |items| == |targets| && InRange(targets, |buckets|)
    ensures |r| == |buckets|
    decreases |items|
  {
    if |items| == 0 then buckets
    else
      var n := |items| - 1;
      var r := Distribute(buckets, items[..n], targets[..n]);
      r[targets[n] := r[targets[n]] + [items[n]]]
  }

  /** The buckets after dealing only the first `j` items. */
  function DealFirst<T>(buckets: seq<seq<T>>, items: seq<T>, targets: seq<nat>, j: nat): (r: seq<seq<T>>)
    requires |items| == |targets| && InRange(targets, |buckets|) && j <= |items|
    ensures |r| == |buckets|
  {
    if j == 0 then buckets
    else
      var r := DealFirst(buckets, items, targets, j - 1);
      r[targets[j - 1] := r[targets[j - 1]] + [items[j - 1]]]
  }

  /** Dealing the first `j` items is dealing the pool's first `j` items. */
  lemma {:induction false} DealFirstIsDistribute<T>(buckets: seq<seq<T>>, items: seq<T>, targets: seq<nat>, j: nat)
    requires |items| == |targets| && InRange(targets, |buckets|) && j <= |items|
    ensures DealFirst(buckets, items, targets, j) == Distribute(buckets, items[..j], targets[..j])
  {
    if j > 0 {
      DealFirstIsDistribute(buckets, items, targets, j - 1);
      assert items[..j][..j - 1] == items[..j - 1] && targets[..j][..j - 1] == targets[..j - 1];
    }
  }

  /** Dealing every item one at a time is dealing the whole pool. */
  lemma DealAll<T>(buckets: seq<seq<T>>, items: seq<T>, targets: seq<nat>)
    requires |items| == |targets| && InRange(targets, |buckets|)
    ensures DealFirst(buckets, items, targets, |items|) == Distribute(buckets, items, targets)
  {
    DealFirstIsDistribute(buckets, items, targets, |items|);
    assert items[..|items|] == items && targets[..|targets|] == targets;
  }

  /** The items sent to bucket `c`, in order. */
  function Select<T>(items: seq<T>, targets: seq<nat>, c: nat): seq<T>
    requires |items| == |targets|
    decreases |items|
  {
    if |items| == 0 then []
    else
      var n := |items| - 1;
      Select(items[..n], targets[..n], c) + (if targets[n] == c then [items[n]] else [])
  }

  /** Every item is among those sent to its own target. */
  lemma {:induction false} SelectHas<T>(items: seq<T>, targets: seq<nat>, j: nat)
    requires |items| == |targets| && j < |items|
    ensures items[j] in Select(items, targets, targets[j])
    decreases |items|
  {
    var n := |items| - 1;
    if j < n {
      SelectHas(items[..n], targets[..n], j);
      assert items[..n][j] == items[j] && targets[..n][j] == targets[j];
    }
  }

  /** An item of a selection was aimed at that bucket. */
  lemma {:induction false} SelectSource<T>(items: seq<T>, targets: seq<nat>, c: nat, i: nat)
    requires |items| == |targets| && i < |Select(items, targets, c)|
    ensures exists j :: 0 <= j < |items| && items[j] == Select(items, targets, c)[i] && targets[j] == c
    decreases |items|
  {
    var n := |items| - 1;
    var s0 := Select(items[..n], targets[..n], c);
    if i < |s0| {
      SelectSource(items[..n], targets[..n], c, i);
      var j :| 0 <= j < n && items[..n][j] == s0[i] && targets[..n][j] == c;
      assert items[j] == Select(items, targets, c)[i] && targets[j] == c;
    } else {
      assert items[n] == Select(items, targets, c)[i] && targets[n] == c;
    }
  }

  /** Each bucket keeps what it had and receives, in order, exactly the items
      aimed at it. */
  lemma {:induction false} DistributeBucket<T>(buckets: seq<seq<T>>, items: seq<T>, targets: seq<nat>, c: nat)
    requires |items| == |targets| && InRange(targets, |buckets|) && c < |buckets|
    ensures Distribute(buckets, items, targets)[c] == buckets[c] + Select(items, targets, c)
    decreases |items|
  {
    if |items| > 0 {
      var n := |items| - 1;
      DistributeBucket(buckets, items[..n], targets[..n], c);
    }
  }

  /** Concatenation of all buckets, in bucket order. */
  function Flatten<T>(buckets: seq<seq<T>>): seq<T>
    decreases |buckets|
  {
    if |buckets| == 0 then [] else Flatten(buckets[..|buckets| - 1]) + buckets[|buckets| - 1]
  }

  function Empties<T>(k: nat): (r: seq<seq<T>>)
    ensures |r| == k && forall c :: 0 <= c < k ==> r[c] == []
  {
    seq(k, c => [])
  }

  lemma {:induction false} FlattenEmpties<T>(k: nat)
    ensures Flatten(Empties<T>(k)) == []
  {
    if k > 0 {
      FlattenEmpties<T>(k - 1);
      assert Empties<T>(k)[..k - 1] == Empties<T>(k - 1);
    }
  }

  /** Growing one bucket by one item grows the concatenation by that item. */
  lemma {:induction false} FlattenUpdate<T>(buckets: seq<seq<T>>, c: nat, x: T)
    requires c < |buckets|
    ensures multiset(Flatten(buckets[c := buckets[c] + [x]])) == multiset(Flatten(buckets)) + multiset{x}
    decreases |buckets|
  {
    var n := |buckets| - 1;
    var b' := buckets[c := buckets[c] + [x]];
    if c == n {
      assert b'[..n] == buckets[..n];
    } else {
      assert b'[..n] == buckets[..n][c := buckets[c] + [x]];
      FlattenUpdate(buckets[..n], c, x);
    }
  }

  /** Dealing out a pool loses nothing and invents nothing. */
  lemma {:induction false} DistributeConserves<T>(buckets: seq<seq<T>>, items: seq<T>, targets: seq<nat>)
    requires |items| == |targets| && InRange(targets, |buckets|)
    ensures multiset(Flatten(Distribute(buckets, items, targets))) == multiset(Flatten(buckets)) + multiset(items)
    decreases |items|
  {
    if |items| > 0 {
      var n := |items| - 1;
      var r0 := Distribute(buckets, items[..n], targets[..n]);
      DistributeConserves(buckets, items[..n], targets[..n]);
      FlattenUpdate(r0, targets[n], items[n]);
      assert items == items[..n] + [items[n]];
    }
  }

  /** Dealing out a pool adds exactly its size to the total membership. */
  lemma DistributeCount<T>(buckets: seq<seq<T>>, items: seq<T>, targets: seq<nat>)
    requires |items| == |targets| && InRange(targets, |buckets|)
    ensures |Flatten(Distribute(buckets, items, targets))| == |Flatten(buckets)| + |items|
  {
    var f := Flatten(Distribute(buckets, items, targets));
    DistributeConserves(buckets, items, targets);
    assert |multiset(f)| == |f|;
    assert |multiset(Flatten(buckets)) + multiset(items)| == |Flatten(buckets)| + |items|;
  }
}
