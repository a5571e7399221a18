/** The latency window of `Stats`: the lowest, highest and summed latency of
    the outcomes recorded since the reporter last reset it, and the integer
    average the reporter prints (pkg/client/stress.go). */
module Window {

  /** The "no sample yet" value of the lowest latency, in milliseconds, set
      when the run starts and at every reset. */
  const InitialLow: int := 100000

  /** The three window fields `LatLow`, `LatHigh` and `LatTotal`. */
  datatype Latencies = Latencies(low: int, high: int, total: int)

  /** The window right after a reset (and at the start of the run). */
  const Reset: Latencies := Latencies(InitialLow, 0, 0)

  /** One recorded latency, as `UpdateRcCount` applies it: a sample below
      `low` replaces `low` and is then NOT compared with `high` (the source
      writes `else if`). */
  function Record(w: Latencies, lat: int): Latencies
  {
    if lat < w.low then w.(low := lat, total := w.total + lat)
    else if lat > w.high then w.(high := lat, total := w.total + lat)
    else w.(total := w.total + lat)
  }

  /** The window after recording `samples` in order, starting from a reset. */
  function Fold(samples: seq<int>): Latencies
  {
    if |samples| == 0 then Reset
    else Record(Fold(samples[..|samples| - 1]), samples[|samples| - 1])
  }

  /** Recording one more latency is one window update of the window so far. */
  lemma FoldSnoc(samples: seq<int>, lat: int)
    ensures Fold(samples + [lat]) == Record(Fold(samples), lat)
  {
    assert (samples + [lat])[..|samples|] == samples;
  }

  function Sum(samples: seq<int>): int
  {
    if |samples| == 0 then 0
    else Sum(samples[..|samples| - 1]) + samples[|samples| - 1]
  }

  /** The largest sample of a non-empty window. */
  function MaxOf(samples: seq<int>): (m: int)
    requires |samples| > 0
    ensures m in samples
    ensures forall i :: 0 <= i < |samples| ==> samples[i] <= m
  {
    if |samples| == 1 then samples[0]
    else
      var rest := MaxOf(samples[..|samples| - 1]);
      assert forall i :: 0 <= i < |samples| - 1 ==> samples[..|samples| - 1][i] == samples[i];
      if samples[|samples| - 1] > rest then samples[|samples| - 1] else rest
  }

  /** The window's total is the sum of its samples. */
  lemma {:induction false} FoldTotal(samples: seq<int>)
    ensures Fold(samples).total == Sum(samples)
  {
    if |samples| > 0 {
      FoldTotal(samples[..|samples| - 1]);
    }
  }

  /** The window's low is the smaller of the sentinel and the least sample:
      it is at most every sample and at most `InitialLow`, and it is one of
      those values. */
  lemma {:induction false} FoldLow(samples: seq<int>)
    ensures Fold(samples).low <= InitialLow
    ensures forall i :: 0 <= i < |samples| ==> Fold(samples).low <= samples[i]
    ensures Fold(samples).low == InitialLow || Fold(samples).low in samples
  {
    if |samples| > 0 {
      var prefix := samples[..|samples| - 1];
      FoldLow(prefix);
      assert forall i :: 0 <= i < |prefix| ==> prefix[i] == samples[i];
    }
  }

  /** The window's high is never negative and is 0 or one of the samples, so
      it never exceeds the largest sample when there is a positive one. */
  lemma {:induction false} FoldHigh(samples: seq<int>)
    ensures 0 <= Fold(samples).high
    ensures Fold(samples).high == 0 || Fold(samples).high in samples
  {
    if |samples| > 0 {
      var prefix := samples[..|samples| - 1];
      FoldHigh(prefix);
      assert forall x :: x in prefix ==> x in samples;
    }
  }

  /** Every strictly falling run of samples below the sentinel lowers `low`
      each time and so never reaches `high`: the window reports a high of 0
      and a low above its high. In particular a window holding a single
      positive sample reports low > high. */
  lemma {:induction false} FallingSamplesMissHigh(samples: seq<int>)
    requires forall i :: 0 <= i < |samples| ==> samples[i] < InitialLow
    requires forall i, j :: 0 <= i < j < |samples| ==> samples[j] < samples[i]
    ensures Fold(samples).high == 0
    ensures |samples| > 0 ==> Fold(samples).low == samples[|samples| - 1]
    ensures |samples| > 0 && samples[|samples| - 1] > 0 ==> Fold(samples).low > Fold(samples).high
  {
    if |samples| > 0 {
      var prefix := samples[..|samples| - 1];
      FallingSamplesMissHigh(prefix);
      if |prefix| > 0 {
        assert prefix[|prefix| - 1] == samples[|samples| - 2];
      }
    }
  }

  /** Go's integer division of the window total by the window count, which
      truncates toward zero; an empty window averages to 0, so nothing is
      ever divided by zero. The count is the number of outcomes recorded in
      the window and is never negative. */
  function Average(total: int, count: nat): (avg: int)
    ensures count == 0 ==> avg == 0
    ensures count > 0 && total >= 0 ==> 0 <= avg && avg * count <= total < (avg + 1) * count
    ensures count > 0 && total < 0 ==> avg <= 0 && (avg - 1) * count < total <= avg * count
  {
    if count == 0 then 0
    else if total >= 0 then total / count
    else -((-total) / count)
  }

  lemma MulMonotone(a: int, b: int, n: nat)
    requires a <= b
    ensures a * n <= b * n
  {
  }

  /** Multiplying by a positive count keeps the order of two numbers. */
  lemma MulCancel(a: int, b: int, n: int)
    requires n > 0
    ensures a * n <= b * n ==> a <= b
    ensures a * n < b * n ==> a < b
  {
    if a > b {
      MulMonotone(1, a - b, n);
      assert (a - b) * n == a * n - b * n;
    } else {
      MulMonotone(a, b, n);
    }
  }

  /** A total between `lo` and `hi` times the count averages to a value
      between `lo` and `hi`, truncation and all. */
  lemma AverageBetween(total: int, count: nat, lo: int, hi: int)
    requires count > 0
    requires lo * count <= total <= hi * count
    ensures lo <= Average(total, count) <= hi
  {
    var avg := Average(total, count);
    if total >= 0 {
      MulCancel(lo, avg + 1, count);
      MulCancel(avg, hi, count);
    } else {
      MulCancel(avg - 1, hi, count);
      MulCancel(lo, avg, count);
    }
  }

  lemma {:induction false} SumBounds(samples: seq<int>, lo: int, hi: int)
    requires forall i :: 0 <= i < |samples| ==> lo <= samples[i] <= hi
    ensures lo * |samples| <= Sum(samples) <= hi * |samples|
  {
    if |samples| > 0 {
      var prefix := samples[..|samples| - 1];
      assert forall i :: 0 <= i < |prefix| ==> prefix[i] == samples[i];
      SumBounds(prefix, lo, hi);
    }
  }

  /** The average the reporter prints for a non-empty window lies between
      the window's reported low and its largest sample. (It may exceed the
      reported high, which can miss the largest sample.) */
  lemma AverageWithinWindow(samples: seq<int>)
    requires |samples| > 0
    ensures Fold(samples).low <= Average(Fold(samples).total, |samples|) <= MaxOf(samples)
  {
    FoldLow(samples);
    FoldTotal(samples);
    SumBounds(samples, Fold(samples).low, MaxOf(samples));
    AverageBetween(Fold(samples).total, |samples|, Fold(samples).low, MaxOf(samples));
  }
}
