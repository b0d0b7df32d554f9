/** Choosing the seed rows of the random-centroid strategy: distinct row
    numbers drawn from a caller-supplied stream of draws in [0, n), and the
    rows left over once the seeds are taken out. */
module Seeding {

  // ---------------------------------------------------------------------------
  // Distinct seed draws
  // ---------------------------------------------------------------------------

  predicate Distinct(s: seq<nat>)
  {
    forall i, j :: 0 <= i < j < |s| ==> s[i] != s[j]
  }

  /** Scans the draws, skipping any already chosen, until `k` are chosen or the
      draws run out. */
  function DistinctDraws(draws: seq<nat>, chosen: seq<nat>, k: nat): seq<nat>
    decreases |draws|
  {
    if |chosen| >= k || |draws| == 0 then chosen
    else if draws[0] in chosen then DistinctDraws(draws[1..], chosen, k)
    else DistinctDraws(draws[1..], chosen + [draws[0]], k)
  }

  /** The seed rows drawn for `k` clusters. */
  function Seeds(draws: seq<nat>, k: nat): seq<nat>
  {
    DistinctDraws(draws, [], k)
  }

  /** What the scan keeps: distinct values, no more than asked for, starting
      with what was already chosen, each drawn from the stream. */
  lemma {:induction false} DistinctDrawsFacts(draws: seq<nat>, chosen: seq<nat>, k: nat)
    requires Distinct(chosen) && |chosen| <= k
    ensures var r := DistinctDraws(draws, chosen, k);
      Distinct(r) && |chosen| <= |r| <= k && r[..|chosen|] == chosen &&
      forall i :: |chosen| <= i < |r| ==> r[i] in draws
    decreases |draws|
  {
    if |chosen| >= k || |draws| == 0 {
    } else if draws[0] in chosen {
      DistinctDrawsFacts(draws[1..], chosen, k);
    } else {
      var c' := chosen + [draws[0]];
      DistinctDrawsFacts(draws[1..], c', k);
      var r := DistinctDraws(draws[1..], c', k);
      assert r[..|c'|][..|chosen|] == chosen;
      forall i | |chosen| <= i < |r| ensures r[i] in draws {
        if i == |chosen| {
          assert r[i] == r[..|c'|][i] == draws[0];
        } else {
          assert r[i] in draws[1..];
        }
      }
    }
  }

  /** The seeds are distinct, at most `k` of them, each a draw (so in [0, n)
      when every draw is). */
  lemma SeedsFacts(draws: seq<nat>, k: nat, n: nat)
    requires forall i :: 0 <= i < |draws| ==> draws[i] < n
    ensures var s := Seeds(draws, k);
      Distinct(s) && |s| <= k && forall i :: 0 <= i < |s| ==> s[i] in draws && s[i] < n
  {
    DistinctDrawsFacts(draws, [], k);
  }

  /** Once `k` distinct values have been seen the scan has stopped: enough
      draws always yield exactly `k` seeds when the first `m` draws hold `k`
      different values. */
  lemma {:induction false} DistinctDrawsComplete(draws: seq<nat>, chosen: seq<nat>, k: nat)
    requires Distinct(chosen) && |chosen| <= k
    requires |Values(chosen + draws)| >= k
    ensures |DistinctDraws(draws, chosen, k)| == k
    decreases |draws|
  {
    if |chosen| >= k {
    } else if |draws| == 0 {
      assert chosen + draws == chosen;
      DistinctCard(chosen);
    } else if draws[0] in chosen {
      assert Values(chosen + draws) == Values(chosen + draws[1..]);
      DistinctDrawsComplete(draws[1..], chosen, k);
    } else {
      var c' := chosen + [draws[0]];
      assert Values(chosen + draws) == Values(c' + draws[1..]);
      assert Distinct(c');
      DistinctDrawsComplete(draws[1..], c', k);
    }
  }

  /** The values occurring in a sequence. */
  function Values(s: seq<nat>): set<nat>
  {
    set x | x in s
  }

  /** A sequence of distinct values has as many elements as its set. */
  lemma {:induction false} DistinctCard(s: seq<nat>)
    requires Distinct(s)
    ensures |Values(s)| == |s|
    decreases |s|
  {
    if |s| > 0 {
      var n := |s| - 1;
      var a := Values(s[..n]);
      DistinctCard(s[..n]);
      assert Values(s) == a + {s[n]};
      assert s[n] !in a;
    }
  }

  /** With enough different values in the draw stream, exactly `k` seeds. */
  lemma SeedsComplete(draws: seq<nat>, k: nat)
    requires |Values(draws)| >= k
    ensures |Seeds(draws, k)| == k
  {
    assert [] + draws == draws;
    DistinctDrawsComplete(draws, [], k);
  }

  /** Draws seed rows, in draw order, redrawing whenever the draw is already
      a seed, until `clusterCount` seeds are chosen. */
  method DrawSeeds(n: nat, clusterCount: nat, draws: seq<nat>) returns (randomIndices: seq<nat>)
    requires forall i :: 0 <= i < |draws| ==> draws[i] < n
    requires |Seeds(draws, clusterCount)| == clusterCount
    ensures randomIndices == Seeds(draws, clusterCount)
    ensures |randomIndices| == clusterCount && Distinct(randomIndices)
    ensures forall i :: 0 <= i < |randomIndices| ==> randomIndices[i] < n
  {
    SeedsFacts(draws, clusterCount, n);
    randomIndices := [];
    var pos := 0;
    for i := 0 to clusterCount
      invariant pos <= |draws| && |randomIndices| == i
      invariant DistinctDraws(draws[pos..], randomIndices, clusterCount) == Seeds(draws, clusterCount)
    {
      if pos == |draws| {
        assert false;
      }
      var test := draws[pos];
      pos := pos + 1;
      assert draws[pos - 1..][1..] == draws[pos..];
      while test in randomIndices
        invariant 0 < pos <= |draws| && test == draws[pos - 1]
        invariant DistinctDraws(draws[pos - 1..], randomIndices, clusterCount) == Seeds(draws, clusterCount)
        decreases |draws| - pos
      {
        assert draws[pos - 1..][1..] == draws[pos..];
        if pos == |draws| {
          assert false;
        }
        test := draws[pos];
        pos := pos + 1;
      }
      assert draws[pos - 1..][1..] == draws[pos..];
      randomIndices := randomIndices + [test];
    }
  }

  // ---------------------------------------------------------------------------
  // The rows that are not seeds
  // ---------------------------------------------------------------------------

  /** The row numbers below `n` that are not seeds, in increasing order. */
  function Others(n: nat, seeds: seq<nat>): (r: seq<nat>)
    ensures forall i :: 0 <= i < |r| ==> r[i] < n
  {
    if n == 0 then [] else Others(n - 1, seeds) + (if n - 1 in seeds then [] else [n - 1])
  }

  /** A row below `n` is left over exactly when it is not a seed. */
  lemma {:induction false} OthersMembers(n: nat, seeds: seq<nat>)
    ensures forall x: nat :: x in Others(n, seeds) <==> x < n && x !in seeds
  {
    if n > 0 {
      OthersMembers(n - 1, seeds);
      var tail := if n - 1 in seeds then [] else [n - 1];
      assert Others(n, seeds) == Others(n - 1, seeds) + tail;
      forall x: nat
        ensures x in Others(n, seeds) <==> x < n && x !in seeds
      {
        assert x in Others(n, seeds) <==> x in Others(n - 1, seeds) || x in tail;
      }
    }
  }

  /** The leftover rows come in increasing order, so each appears once. */
  lemma {:induction false} OthersIncreasing(n: nat, seeds: seq<nat>)
    ensures forall i, j :: 0 <= i < j < |Others(n, seeds)| ==> Others(n, seeds)[i] < Others(n, seeds)[j]
  {
    if n > 0 {
      OthersIncreasing(n - 1, seeds);
      OthersMembers(n - 1, seeds);
      var prev := Others(n - 1, seeds);
      if n - 1 !in seeds {
        forall i | 0 <= i < |prev|
          ensures prev[i] < n - 1
        {
          assert prev[i] in prev;
        }
      }
    }
  }

  /** The row numbers below `n`. */
  function Below(n: nat): set<nat>
  {
    if n == 0 then {} else Below(n - 1) + {n - 1}
  }

  /** There are `n` of them, and they are the naturals less than `n`. */
  lemma {:induction false} BelowFacts(n: nat)
    ensures |Below(n)| == n
    ensures forall x: nat :: x in Below(n) <==> x < n
  {
    if n > 0 {
      BelowFacts(n - 1);
    }
  }

  /** `n` distinct values below `n` are all of them. */
  lemma DistinctCovers(s: seq<nat>, n: nat)
    requires Distinct(s) && |s| == n && forall i :: 0 <= i < |s| ==> s[i] < n
    ensures forall c: nat :: c < n ==> c in s
  {
    DistinctCard(s);
    BelowFacts(n);
    forall c: nat | c < n ensures c in s {
      if c !in s {
        assert Values(s) <= Below(n) - {c};
        assert |Below(n) - {c}| == n - 1;
        SubsetCard(Values(s), Below(n) - {c});
      }
    }
  }

  lemma {:induction false} SubsetCard(a: set<nat>, b: set<nat>)
    requires a <= b
    ensures |a| <= |b|
    decreases |b|
  {
    if a != {} {
      var x :| x in a;
      SubsetCard(a - {x}, b - {x});
    }
  }

  /** With `k` distinct seeds among `n` rows, `n - k` rows are left over. */
  lemma OthersCount(n: nat, seeds: seq<nat>)
    requires Distinct(seeds) && forall i :: 0 <= i < |seeds| ==> seeds[i] < n
    ensures |Others(n, seeds)| + |seeds| == n
  {
    var others := Others(n, seeds);
    OthersMembers(n, seeds);
    OthersIncreasing(n, seeds);
    assert Distinct(others);
    DistinctCard(others);
    DistinctCard(seeds);
    BelowFacts(n);
    assert Values(others) + Values(seeds) == Below(n);
    assert Values(others) !! Values(seeds);
  }
}
