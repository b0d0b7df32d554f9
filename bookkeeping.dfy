/** The best-so-far record kept across the runs of one seeding strategy: the
    lowest initial and ending sums of squared errors with the run that first
    reached them, the fewest iterations with its run, and the best Jaccard
    and Rand indices. A run number is the zero-based run `z` plus one, as a
    double. An index that is 0/0 (None here) compares false and never
    updates the record. */
module Bookkeeping {
  import opened Optional
  import opened Doubles
  import opened Assignment
  import opened Validation

  /** The record, one field per key of the results table. */
  datatype Best = Best(
    initialSSERun: real, initialSSE: real,
    endingSSERun: real, endingSSE: real,
    runRun: real, runCount: real,
    jaccard: real, rand: real)

  /** The record before the first run. */
  const Start: Best := Best(-1.0, DOUBLE_MAX, -1.0, DOUBLE_MAX, -1.0, DOUBLE_MAX, 0.0, 0.0)

  /** How a run that met its stopping test ended: its last sum of squared
      errors, the iteration counter and the pair counts of its labelling. */
  datatype Stop = Stop(endingSSE: real, iterations: nat, tally: Tally)

  /** One run: its initial sum of squared errors, and how it stopped if it
      met the stopping test. */
  datatype Run = Run(initialSSE: real, stop: Option<Stop>)

  /** A record value and its run: a strictly smaller value `x` from run `z`
      replaces both. */
  datatype Record = Record(value: real, run: real)

  function Improve(r: Record, x: real, z: nat): Record
  {
    if x < r.value then Record(x, z as real + 1.0) else r
  }

  /** The initial-error update made when run `z` is built. */
  function RecordInitial(b: Best, z: nat, initialSSE: real): Best
  {
    var r := Improve(Record(b.initialSSE, b.initialSSERun), initialSSE, z);
    b.(initialSSE := r.value, initialSSERun := r.run)
  }

  /** The ending-error and iteration-count updates made when run `z` stops. */
  function RecordEnding(b: Best, z: nat, s: Stop): Best
  {
    var e := Improve(Record(b.endingSSE, b.endingSSERun), s.endingSSE, z);
    var c := Improve(Record(b.runCount, b.runRun), s.iterations as real, z);
    b.(endingSSE := e.value, endingSSERun := e.run, runCount := c.value, runRun := c.run)
  }

  /** The index updates made when a run stops. The best Rand is overwritten
      with the run's Rand when the run's Jaccard exceeds the stored Rand. */
  function RecordIndices(b: Best, t: Tally): (b': Best)
    ensures b'.jaccard >= b.jaccard
    ensures Jaccard(t).Some? && Jaccard(t).value > b.jaccard ==> b'.jaccard == Jaccard(t).value
    ensures !(Jaccard(t).Some? && Jaccard(t).value > b.jaccard) ==> b'.jaccard == b.jaccard
    ensures Jaccard(t).Some? && Jaccard(t).value > b.rand ==> b'.rand == Rand(t).value
    ensures !(Jaccard(t).Some? && Jaccard(t).value > b.rand) ==> b'.rand == b.rand
    ensures b'.(jaccard := b.jaccard, rand := b.rand) == b
  {
    var jaccard := Jaccard(t);
    var b1 := if jaccard.Some? && jaccard.value > b.jaccard then b.(jaccard := jaccard.value) else b;
    if jaccard.Some? && jaccard.value > b.rand then b1.(rand := Rand(t).value) else b1
  }

  /** Everything run `z` records. */
  function RecordRun(b: Best, z: nat, run: Run): Best
  {
    var b1 := RecordInitial(b, z, run.initialSSE);
    match run.stop
    case None => b1
    case Some(s) => RecordIndices(RecordEnding(b1, z, s), s.tally)
  }

  /** The record after the given runs, in order. */
  function History(runs: seq<Run>): Best
  {
    if |runs| == 0 then Start
    else RecordRun(History(runs[..|runs| - 1]), |runs| - 1, runs[|runs| - 1])
  }

  // ---------------------------------------------------------------------------
  // Strictly smaller values keep the earliest minimum
  // ---------------------------------------------------------------------------

  /** The record kept over a sequence of values, starting from the largest
      double and run -1. */
  function Scan(xs: seq<real>): Record
  {
    if |xs| == 0 then Record(DOUBLE_MAX, -1.0)
    else Improve(Scan(xs[..|xs| - 1]), xs[|xs| - 1], |xs| - 1)
  }

  /** Over values below the largest double, the record holds the smallest
      value and the number of the first run reaching it. */
  lemma {:induction false} ScanFirstMin(xs: seq<real>)
    requires |xs| > 0 && forall i :: 0 <= i < |xs| ==> xs[i] < DOUBLE_MAX
    ensures Scan(xs) == Record(xs[FirstArgMin(xs)], FirstArgMin(xs) as real + 1.0)
    decreases |xs|
  {
    var n := |xs| - 1;
    if n > 0 {
      var front := xs[..n];
      ScanFirstMin(front);
      assert FirstArgMin(xs) == if xs[n] < xs[FirstArgMin(front)] then n else FirstArgMin(front);
    }
  }

  function InitialSSEs(runs: seq<Run>): (xs: seq<real>)
    ensures |xs| == |runs| && forall i :: 0 <= i < |runs| ==> xs[i] == runs[i].initialSSE
  {
    seq(|runs|, i requires 0 <= i < |runs| => runs[i].initialSSE)
  }

  /** Every run met its stopping test. */
  predicate AllStopped(runs: seq<Run>)
  {
    forall i :: 0 <= i < |runs| ==> runs[i].stop.Some?
  }

  function EndingSSEs(runs: seq<Run>): (xs: seq<real>)
    requires AllStopped(runs)
    ensures |xs| == |runs| && forall i :: 0 <= i < |runs| ==> xs[i] == runs[i].stop.value.endingSSE
  {
    seq(|runs|, i requires 0 <= i < |runs| && AllStopped(runs) => runs[i].stop.value.endingSSE)
  }

  function IterationCounts(runs: seq<Run>): (xs: seq<real>)
    requires AllStopped(runs)
    ensures |xs| == |runs| && forall i :: 0 <= i < |runs| ==> xs[i] == runs[i].stop.value.iterations as real
  {
    seq(|runs|, i requires 0 <= i < |runs| && AllStopped(runs) => runs[i].stop.value.iterations as real)
  }

  /** The initial-error record is the scan of the initial errors; when every
      run stops, the ending-error and iteration records are the scans of
      theirs. */
  lemma {:induction false} HistoryScans(runs: seq<Run>)
    ensures Record(History(runs).initialSSE, History(runs).initialSSERun) == Scan(InitialSSEs(runs))
    ensures AllStopped(runs) ==>
      Record(History(runs).endingSSE, History(runs).endingSSERun) == Scan(EndingSSEs(runs)) &&
      Record(History(runs).runCount, History(runs).runRun) == Scan(IterationCounts(runs))
    decreases |runs|
  {
    var n := |runs|;
    if n > 0 {
      var front := runs[..n - 1];
      HistoryScans(front);
      assert InitialSSEs(runs)[..n - 1] == InitialSSEs(front);
      if AllStopped(runs) {
        assert AllStopped(front);
        assert EndingSSEs(runs)[..n - 1] == EndingSSEs(front);
        assert IterationCounts(runs)[..n - 1] == IterationCounts(front);
      }
    }
  }

  /** The best initial error is the smallest, recorded with the first run
      that reached it; a later run that only equals it does not take the
      record. */
  lemma BestInitialSSE(runs: seq<Run>)
    requires |runs| > 0 && forall i :: 0 <= i < |runs| ==> runs[i].initialSSE < DOUBLE_MAX
    ensures var k := FirstArgMin(InitialSSEs(runs));
      History(runs).initialSSE == runs[k].initialSSE && History(runs).initialSSERun == k as real + 1.0 &&
      (forall i :: 0 <= i < |runs| ==> runs[k].initialSSE <= runs[i].initialSSE) &&
      (forall i :: 0 <= i < k ==> runs[k].initialSSE < runs[i].initialSSE)
  {
    HistoryScans(runs);
    ScanFirstMin(InitialSSEs(runs));
  }

  /** When every run stops, the best ending error is the smallest, with the
      first run that reached it, and the fewest iterations likewise. */
  lemma BestEnding(runs: seq<Run>)
    requires |runs| > 0 && AllStopped(runs)
    requires forall i :: 0 <= i < |runs| ==> runs[i].stop.value.endingSSE < DOUBLE_MAX
    requires forall i :: 0 <= i < |runs| ==> (runs[i].stop.value.iterations as real) < DOUBLE_MAX
    ensures var k := FirstArgMin(EndingSSEs(runs));
      History(runs).endingSSE == runs[k].stop.value.endingSSE && History(runs).endingSSERun == k as real + 1.0 &&
      (forall i :: 0 <= i < |runs| ==> runs[k].stop.value.endingSSE <= runs[i].stop.value.endingSSE) &&
      (forall i :: 0 <= i < k ==> runs[k].stop.value.endingSSE < runs[i].stop.value.endingSSE)
    ensures var k := FirstArgMin(IterationCounts(runs));
      History(runs).runCount == runs[k].stop.value.iterations as real && History(runs).runRun == k as real + 1.0 &&
      (forall i :: 0 <= i < |runs| ==> runs[k].stop.value.iterations <= runs[i].stop.value.iterations) &&
      (forall i :: 0 <= i < k ==> runs[k].stop.value.iterations < runs[i].stop.value.iterations)
  {
    HistoryScans(runs);
    ScanFirstMin(EndingSSEs(runs));
    ScanFirstMin(IterationCounts(runs));
  }

  // ---------------------------------------------------------------------------
  // The indices
  // ---------------------------------------------------------------------------

  /** The Jaccard index of run `i`, when it stopped and the index is
      defined. */
  predicate HasJaccard(runs: seq<Run>, i: nat)
  {
    i < |runs| && runs[i].stop.Some? && Jaccard(runs[i].stop.value.tally).Some?
  }

  /** The best Jaccard is at least every run's defined Jaccard, and is either
      the starting zero or some run's Jaccard. */
  lemma {:induction false} BestJaccard(runs: seq<Run>)
    ensures forall i: nat :: HasJaccard(runs, i) ==> Jaccard(runs[i].stop.value.tally).value <= History(runs).jaccard
    ensures History(runs).jaccard == 0.0 ||
      exists i: nat :: HasJaccard(runs, i) && History(runs).jaccard == Jaccard(runs[i].stop.value.tally).value
    decreases |runs|
  {
    var n := |runs|;
    if n > 0 {
      var front := runs[..n - 1];
      BestJaccard(front);
      forall i: nat | HasJaccard(front, i) ensures HasJaccard(runs, i) && runs[i] == front[i] {
      }
      if History(runs).jaccard != History(front).jaccard {
        assert HasJaccard(runs, n - 1);
      } else if History(front).jaccard != 0.0 {
        var i: nat :| HasJaccard(front, i) && History(front).jaccard == Jaccard(front[i].stop.value.tally).value;
        assert HasJaccard(runs, i);
      }
    }
  }

  /** The best Rand is either the starting zero or the Rand of some run whose
      Jaccard beat the Rand stored before it. */
  lemma {:induction false} BestRandSource(runs: seq<Run>)
    ensures History(runs).rand == 0.0 ||
      exists i: nat :: HasJaccard(runs, i) && History(runs).rand == Rand(runs[i].stop.value.tally).value &&
        Jaccard(runs[i].stop.value.tally).value > History(runs[..i]).rand
    decreases |runs|
  {
    var n := |runs|;
    if n > 0 {
      var front := runs[..n - 1];
      BestRandSource(front);
      if History(runs).rand != History(front).rand {
        assert runs[..n - 1] == front;
        assert HasJaccard(runs, n - 1);
      } else if History(front).rand != 0.0 {
        var i: nat :| HasJaccard(front, i) && History(front).rand == Rand(front[i].stop.value.tally).value &&
          Jaccard(front[i].stop.value.tally).value > History(front[..i]).rand;
        assert runs[..i] == front[..i];
        assert HasJaccard(runs, i);
      }
    }
  }

  /** Two stopped runs of eleven points: the second has the higher Rand, but
      its Jaccard does not exceed the Rand stored from the first, so the
      record keeps the first run's Rand. */
  lemma BestRandNotHighest()
    ensures var t1, t2 := Tally(2, 2, 2, 104), Tally(2, 2, 0, 106);
      var runs := [Run(1.0, Some(Stop(1.0, 1, t1))), Run(1.0, Some(Stop(1.0, 1, t2)))];
      Total(t1) == 11 * 10 && Total(t2) == 11 * 10 && Even(t1) && Even(t2) &&
      Rand(t1).value < Rand(t2).value && History(runs).rand == Rand(t1).value &&
      History(runs).jaccard == Jaccard(t2).value
  {
    var t1, t2 := Tally(2, 2, 2, 104), Tally(2, 2, 0, 106);
    var runs := [Run(1.0, Some(Stop(1.0, 1, t1))), Run(1.0, Some(Stop(1.0, 1, t2)))];
    assert Jaccard(t1) == Some(2.0 / 6.0) && Rand(t1) == Some(106.0 / 110.0);
    assert Jaccard(t2) == Some(2.0 / 4.0) && Rand(t2) == Some(108.0 / 110.0);
    var h1 := History(runs[..1]);
    assert |runs[..1][..0]| == 0 && runs[..1][0] == runs[0];
    assert History(runs[..1][..0]) == Start;
    assert h1 == RecordRun(History(runs[..1][..0]), 0, runs[..1][0]);
    assert h1 == RecordRun(Start, 0, runs[0]);
    assert h1.jaccard == 2.0 / 6.0 && h1.rand == 106.0 / 110.0;
    assert History(runs) == RecordRun(h1, 1, runs[1]);
  }
}
