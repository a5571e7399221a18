/** Worked runs of the statistics: a quota met by five successes, a run
    mixing successes with a transport failure, an interrupt part-way through
    a run, and reports taken with nothing recorded. */
module Scenarios {
  import opened Window
  import opened Client
  import opened Worker

  /** Five requests, all answered 200, with latencies 10, 20, 30, 40, 50. */
  function FiveSuccesses(k: nat): Attempt
  {
    Response(200, 10 * (k + 1))
  }

  /** A success, a transport failure, a success. */
  function SuccessFailureSuccess(k: nat): Attempt
  {
    if k == 1 then TransportError(5) else Response(200, 10)
  }

  /** The five latencies miss the high only for the first sample (it lowers
      the sentinel instead); the later, rising ones each become the high. */
  lemma FiveSuccessesLine()
    ensures FinalLine(5, FiveSuccesses) == StatsLine(10, 30, 50, 5, 5, map[200 := 5], "\n")
  {
    FiveSuccessesRecorded();
    FiveSuccessesWindow();
    TallySameCode(200, 5);
    assert seq(5, _ => 200) == [200, 200, 200, 200, 200];
    assert Skipped(FiveSuccesses, 5) == 0;
  }

  lemma FiveSuccessesRecorded()
    ensures RecordedLatencies(FiveSuccesses, 5) == [10, 20, 30, 40, 50]
    ensures RecordedCodes(FiveSuccesses, 5) == [200, 200, 200, 200, 200]
  {
    assert RecordedLatencies(FiveSuccesses, 2) == [10, 20];
    assert RecordedLatencies(FiveSuccesses, 4) == [10, 20, 30, 40];
    assert RecordedCodes(FiveSuccesses, 2) == [200, 200];
    assert RecordedCodes(FiveSuccesses, 4) == [200, 200, 200, 200];
  }

  lemma FiveSuccessesWindow()
    ensures Fold([10, 20, 30, 40, 50]) == Latencies(10, 50, 150)
    ensures Sum([10, 20, 30, 40, 50]) == 150
  {
    FoldSnoc([], 10);
    assert [] + [10] == [10];
    FoldSnoc([10], 20);
    assert [10] + [20] == [10, 20];
    FoldSnoc([10, 20], 30);
    assert [10, 20] + [30] == [10, 20, 30];
    FoldSnoc([10, 20, 30], 40);
    assert [10, 20, 30] + [40] == [10, 20, 30, 40];
    FoldSnoc([10, 20, 30, 40], 50);
    assert [10, 20, 30, 40] + [50] == [10, 20, 30, 40, 50];
    FoldTotal([10, 20, 30, 40, 50]);
  }

  /** A run whose every outcome carries the same code counts all of them
      under that code. */
  lemma {:induction false} TallySameCode(code: int, n: nat)
    requires n > 0
    ensures Tally(seq(n, _ => code)) == map[code := n]
  {
    var codes := seq(n, _ => code);
    assert codes[..n - 1] == seq(n - 1, _ => code);
    if n > 1 {
      TallySameCode(code, n - 1);
    }
  }

  /** The five-success run: the final line reports five sent, all five of
      them in the last window, a low of 10, an average of 30, a high of 50,
      and every response under 200; the quota cancels the run once. */
  method FiveSuccessesRun() returns (last: StatsLine)
    ensures last.sent == 5 && last.sentThisSecond == 5
    ensures last.low == 10 && last.avg == 30 && last.high == 50
    ensures last.rcCounts == map[200 := 5]
  {
    var taken, report;
    ghost var cancels;
    taken, report, cancels := Stress(5, FiveSuccesses);
    assert Skipped(FiveSuccesses, 5) == 0 by {
      FiveSuccessesLine();
    }
    FiveSuccessesLine();
    last := report.line;
  }

  /** A transport failure is counted under status 0 next to the responses. */
  lemma SuccessFailureSuccessCounts()
    ensures FinalLine(3, SuccessFailureSuccess).sent == 3
    ensures FinalLine(3, SuccessFailureSuccess).rcCounts == map[200 := 2, 0 := 1]
  {
    assert RecordedCodes(SuccessFailureSuccess, 1) == [200];
    assert RecordedCodes(SuccessFailureSuccess, 2) == [200, 0];
    assert RecordedCodes(SuccessFailureSuccess, 3) == [200, 0, 200];
    assert Skipped(SuccessFailureSuccess, 3) == 0;
    assert [200, 0, 200][..2] == [200, 0];
    assert [200, 0][..1] == [200];
    assert Tally([200]) == map[200 := 1];
    assert Tally([200, 0]) == map[200 := 1, 0 := 1];
  }

  /** An interrupt after two of ten requests have been recorded, whatever
      their codes and latencies: no request
      is granted afterwards, the run is cancelled although the quota never
      invoked `Cancel`, and the final line reports the two. */
  method InterruptAfterTwo(code1: int, latency1: int, code2: int, latency2: int) returns (grantedAfter: bool, ghost cancelled: bool, ghost quotaCancels: int, last: StatsLine)
    ensures !grantedAfter && cancelled && quotaCancels == 0
    ensures last.sent == 2 && last.sentThisSecond == 2
  {
    var s := new Stats(10);
    var granted := s.TakeRequest();
    s.UpdateRcCount(code1, latency1);
    granted := s.TakeRequest();
    s.UpdateRcCount(code2, latency2);
    assert s.requestsSent == 2 && s.requestsSentLast == 0 && s.cancelCalls == 0;
    s.Interrupt();
    grantedAfter := s.TakeRequest();
    cancelled, quotaCancels := s.cancelled, s.cancelCalls;
    last := s.GetStatsLine(false);
  }

  /** A report taken before anything is recorded divides nothing: it shows
      an empty window with the sentinel low and an average of 0. A second
      report right after it shows an empty window again while the run's
      per-code counts stay as they were. */
  method ReportsWithNothingRecorded() returns (first: StatsLine, second: StatsLine, third: StatsLine)
    ensures first.sentThisSecond == 0 && first.avg == 0
    ensures first.low == InitialLow && first.high == 0 && first.rcCounts == map[]
    ensures second.sentThisSecond == 1 && second.rcCounts == map[404 := 1]
    ensures third.sentThisSecond == 0 && third.avg == 0 && third.low == InitialLow && third.high == 0
    ensures third.sent == second.sent == 1 && third.rcCounts == second.rcCounts
  {
    var s := new Stats(3);
    first := s.GetStatsLine(true);
    var granted := s.TakeRequest();
    s.UpdateRcCount(404, 7);
    second := s.GetStatsLine(true);
    third := s.GetStatsLine(true);
  }
}
