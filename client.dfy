/** The run statistics of the load generator (package `client`,
    pkg/client/stress.go): the `Stats` record and its operations, each taken
    as one atomic step (the source holds `Stats.Lock` for each). */
module Client {
  import opened Window

  /** The per-status-code counts after recording `codes` in order. */
  function Tally(codes: seq<int>): map<int, int>
  {
    if |codes| == 0 then map[]
    else
      var m := Tally(codes[..|codes| - 1]);
      var c := codes[|codes| - 1];
      m[c := (if c in m then m[c] else 0) + 1]
  }

  /** The counts of a list of codes hold exactly the codes of the list,
      each with the number of times it occurs. */
  lemma {:induction false} TallyCounts(codes: seq<int>)
    ensures forall c :: c in Tally(codes) <==> c in codes
    ensures forall c :: c in Tally(codes) ==> Tally(codes)[c] == multiset(codes)[c]
  {
    if |codes| > 0 {
      var prefix := codes[..|codes| - 1];
      TallyCounts(prefix);
      assert codes == prefix + [codes[|codes| - 1]];
    }
  }

  /** `RcCounts[rc]++` after creating a missing key with count 0: the key's
      count goes up by one, every other key keeps its count. */
  function Bump(counts: map<int, int>, rc: int): (r: map<int, int>)
    ensures r.Keys == counts.Keys + {rc}
    ensures r[rc] == (if rc in counts then counts[rc] else 0) + 1
    ensures forall c :: c in counts && c != rc ==> r[c] == counts[c]
  {
    counts[rc := (if rc in counts then counts[rc] else 0) + 1]
  }

  lemma TallySnoc(codes: seq<int>, c: int)
    ensures Tally(codes + [c]) == Bump(Tally(codes), c)
  {
    assert (codes + [c])[..|codes|] == codes;
  }

  /** What `GetStatsLine` reports, without its text formatting and without
      its wall-clock and floating-point figures. */
  datatype StatsLine = StatsLine(
    low: int,              // the window's LatLow
    avg: int,              // the window's integer average latency
    high: int,             // the window's LatHigh
    sent: int,             // RequestsSent over the whole run
    sentThisSecond: int,   // outcomes recorded in the window
    rcCounts: map<int, int>,  // per-status-code counts over the whole run
    terminator: string)    // "\r" for a rolling line, "\n" for the final one

  /** `Stats`, one value per run, shared by the workers and the reporter. */
  class Stats {
    var requestsSent: int
    var requestsTaken: int
    var requestsSentLast: int
    const requestsToSend: int
    var latLow: int
    var latHigh: int
    var latTotal: int
    var rcCounts: map<int, int>
    var complete: bool

    /** How often `Stats` itself invoked its `Cancel` function. */
    ghost var cancelCalls: nat
    /** Whether the run's context has been cancelled (by the quota or by an
        interrupt); context cancellation is idempotent. */
    ghost var cancelled: bool
    /** The latencies recorded since the last reset of the window. */
    ghost var window: seq<int>

    /** What every operation keeps: the window count is the number of
        latencies recorded since the last reset and the window fields are
        their fold; no more than a non-negative quota is taken; the quota has
        invoked `Cancel` once if `requestsSent` has reached a positive
        `requestsToSend` and never otherwise. */
    ghost predicate Valid()
      reads this
    {
      && 0 <= requestsSentLast <= requestsSent
      && 0 <= requestsTaken
      && (requestsToSend >= 0 ==> requestsTaken <= requestsToSend)
      && |window| == requestsSent - requestsSentLast
      && Latencies(latLow, latHigh, latTotal) == Fold(window)
      && cancelCalls == (if 1 <= requestsToSend <= requestsSent then 1 else 0)
      && (cancelCalls == 1 ==> cancelled)
    }

    /** The statistics `Stress` creates for a run of `count` requests. */
    constructor (count: int)
      ensures Valid()
      ensures requestsToSend == count
      ensures requestsSent == 0 && requestsTaken == 0 && requestsSentLast == 0
      ensures latLow == InitialLow && latHigh == 0 && latTotal == 0
      ensures rcCounts == map[] && !complete
      ensures cancelCalls == 0 && !cancelled && window == []
    {
      requestsToSend := count;
      requestsSent, requestsTaken, requestsSentLast := 0, 0, 0;
      latLow, latHigh, latTotal := InitialLow, 0, 0;
      rcCounts := map[];
      complete := false;
      cancelCalls, cancelled := 0, false;
      window := [];
    }

    /** Admission control: grants one more request unless the run is
        complete or the quota is used up; finding the quota used up marks
        the run complete. Never takes more than a non-negative quota. */
    method TakeRequest() returns (granted: bool)
      requires Valid()
      modifies this`requestsTaken, this`complete
      ensures Valid()
      ensures granted <==> !old(complete) && old(requestsTaken) != requestsToSend
      ensures requestsTaken == old(requestsTaken) + (if granted then 1 else 0)
      ensures complete <==> old(complete) || old(requestsTaken) == requestsToSend
      ensures requestsToSend >= 0 ==> requestsTaken <= requestsToSend
    {
      if complete {
        return false;
      } else if requestsTaken == requestsToSend {
        complete := true;
        return false;
      }
      requestsTaken := requestsTaken + 1;
      return true;
    }

    /** Records one outcome: the status code `rc` (0 for a transport
        failure) and its latency. Invokes `Cancel` when the run's
        `requestsToSend`-th outcome is recorded, which happens at most once
        per run. */
    method UpdateRcCount(rc: int, latency: int)
      requires Valid()
      modifies this
      ensures requestsTaken == old(requestsTaken) && complete == old(complete)
      ensures requestsSentLast == old(requestsSentLast)
      ensures Valid()
      ensures requestsSent == old(requestsSent) + 1
      ensures rcCounts == Bump(old(rcCounts), rc)
      ensures Latencies(latLow, latHigh, latTotal) == Record(old(Latencies(latLow, latHigh, latTotal)), latency)
      ensures cancelCalls == old(cancelCalls) + (if requestsSent == requestsToSend then 1 else 0)
      ensures cancelCalls <= 1
      ensures cancelled <==> old(cancelled) || requestsSent == requestsToSend
      ensures window == old(window) + [latency]
    {
      var sent := requestsSent + 1;
      var w := Record(Latencies(latLow, latHigh, latTotal), latency);
      FoldSnoc(window, latency);
      requestsSent, rcCounts := sent, Bump(rcCounts, rc);
      latLow, latHigh, latTotal := w.low, w.high, w.total;
      // The outcome joins the history and the window; reaching the quota
      // invokes Cancel.
      window := window + [latency];
      if sent == requestsToSend {
        cancelCalls, cancelled := cancelCalls + 1, true;
      }
    }

    /** Reports the window and the run's totals, then resets the window,
        whether the line is a rolling one (`carriage`) or the final one. The
        average lies between the reported low and the window's largest
        latency. */
    method GetStatsLine(carriage: bool) returns (line: StatsLine)
      requires Valid()
      modifies this`latLow, this`latHigh, this`latTotal, this`requestsSentLast, this`window
      ensures Valid()
      ensures line.low == old(latLow) && line.high == old(latHigh)
      ensures line.sent == requestsSent && line.rcCounts == rcCounts
      ensures line.sentThisSecond == old(requestsSent - requestsSentLast) == |old(window)|
      ensures line.avg == Average(old(latTotal), |old(window)|)
      ensures |old(window)| > 0 ==> line.low <= line.avg <= MaxOf(old(window))
      ensures line.terminator == if carriage then "\r" else "\n"
      ensures latLow == InitialLow && latHigh == 0 && latTotal == 0
      ensures requestsSentLast == requestsSent && window == []
    {
      var sentThisSecond := requestsSent - requestsSentLast;
      var avg := Average(latTotal, sentThisSecond);
      if sentThisSecond > 0 {
        AverageWithinWindow(window);
      }
      line := StatsLine(latLow, avg, latHigh, requestsSent, sentThisSecond, rcCounts, "");

      latLow := InitialLow;
      latHigh := 0;
      latTotal := 0;
      requestsSentLast := requestsSent;
      window := [];

      if carriage {
        line := line.(terminator := "\r");
      } else {
        line := line.(terminator := "\n");
      }
    }

    /** The interrupt handler `Stress` installs: marks the run complete and
        cancels its context. */
    method Interrupt()
      requires Valid()
      modifies this`complete, this`cancelled
      ensures Valid()
      ensures complete && cancelled
    {
      complete := true;
      cancelled := true;
    }
  }
}
