/** The request worker of pkg/client/stress.go replayed sequentially: one
    worker loop with the HTTP exchange replaced by the outcome the
    environment hands back for each granted request, and a run of `Stress`
    with a single worker. */
module Worker {
  import opened Window
  import opened Client

  /** What happens to one granted request. */
  datatype Attempt =
    | BadRequest                         // the request could not be built: logged, nothing recorded
    | TransportError(latency: int)       // no response: recorded under status 0
    | Response(code: int, latency: int)  // a response: recorded under its status code

  /** The status code an attempt records, if any. */
  function CodeOf(a: Attempt): seq<int>
  {
    match a
    case BadRequest => []
    case TransportError(_) => [0]
    case Response(code, _) => [code]
  }

  /** The latency an attempt records, if any. */
  function LatencyOf(a: Attempt): seq<int>
  {
    match a
    case BadRequest => []
    case TransportError(latency) => [latency]
    case Response(_, latency) => [latency]
  }

  /** The status codes the first `n` attempts record, in order. */
  function RecordedCodes(outcome: nat -> Attempt, n: nat): seq<int>
  {
    if n == 0 then [] else RecordedCodes(outcome, n - 1) + CodeOf(outcome(n - 1))
  }

  /** The window after the first `n` attempts, starting from `w`: each
      recorded latency is appended in order. */
  function WindowAfter(w: seq<int>, outcome: nat -> Attempt, n: nat): seq<int>
  {
    if n == 0 then w else WindowAfter(w, outcome, n - 1) + LatencyOf(outcome(n - 1))
  }

  /** The latencies the first `n` attempts record, in order. */
  function RecordedLatencies(outcome: nat -> Attempt, n: nat): seq<int>
  {
    WindowAfter([], outcome, n)
  }

  /** How many of the first `n` attempts could not be built. */
  function Skipped(outcome: nat -> Attempt, n: nat): nat
  {
    if n == 0 then 0
    else Skipped(outcome, n - 1) + if outcome(n - 1).BadRequest? then 1 else 0
  }

  /** Every attempt is either skipped or recorded exactly once, with one
      code and one latency. */
  lemma {:induction false} AttemptsAccounted(outcome: nat -> Attempt, n: nat)
    ensures |RecordedCodes(outcome, n)| == |RecordedLatencies(outcome, n)| == n - Skipped(outcome, n)
    ensures Skipped(outcome, n) <= n
  {
    if n > 0 {
      AttemptsAccounted(outcome, n - 1);
    }
  }

  /** The per-code counts after one attempt. */
  function CountStep(counts: map<int, int>, a: Attempt): map<int, int>
  {
    match a
    case BadRequest => counts
    case TransportError(_) => Bump(counts, 0)
    case Response(code, _) => Bump(counts, code)
  }

  /** The per-code counts after the first `n` attempts, starting from `counts`. */
  function CountsAfter(counts: map<int, int>, outcome: nat -> Attempt, n: nat): map<int, int>
  {
    if n == 0 then counts else CountStep(CountsAfter(counts, outcome, n - 1), outcome(n - 1))
  }

  /** Starting from no counts, the attempts leave the counts of the
      recorded codes. */
  lemma {:induction false} CountsAfterIsTally(outcome: nat -> Attempt, n: nat)
    ensures CountsAfter(map[], outcome, n) == Tally(RecordedCodes(outcome, n))
  {
    if n > 0 {
      CountsAfterIsTally(outcome, n - 1);
      var prefix := RecordedCodes(outcome, n - 1);
      match outcome(n - 1)
      case BadRequest =>
        assert RecordedCodes(outcome, n) == prefix + [] == prefix;
      case TransportError(_) =>
        TallySnoc(prefix, 0);
      case Response(code, _) =>
        TallySnoc(prefix, code);
    }
  }

  /** One pass of the worker loop after a grant: the outcome is recorded,
      unless the request could not be built, and the worker asks
      `TakeRequest` for the next request. */
  method Perform(s: Stats, a: Attempt) returns (more: bool)
    requires s.Valid()
    modifies s
    ensures s.Valid()
    ensures s.requestsSent == old(s.requestsSent) + (if a.BadRequest? then 0 else 1)
    ensures s.rcCounts == CountStep(old(s.rcCounts), a)
    ensures s.window == old(s.window) + LatencyOf(a)
    ensures s.cancelled == (old(s.cancelled) || s.cancelCalls == 1)
    ensures s.requestsSentLast == old(s.requestsSentLast)
    ensures more <==> !old(s.complete) && old(s.requestsTaken) != s.requestsToSend
    ensures s.requestsTaken == old(s.requestsTaken) + (if more then 1 else 0)
    ensures s.complete <==> old(s.complete) || old(s.requestsTaken) == s.requestsToSend
  {
    match a {
      case BadRequest =>
      case TransportError(latency) =>
        s.UpdateRcCount(0, latency);
      case Response(code, latency) =>
        s.UpdateRcCount(code, latency);
    }
    more := s.TakeRequest();
  }

  /** `requestWorker`: take requests until `TakeRequest` refuses, recording
      each granted request's outcome (`outcome(k)` is the fate of the k-th
      granted request). The worker stops with the run complete after taking
      the whole remaining quota, or none of it if the run was already
      complete; every outcome it records goes into the statistics in order. */
  method RequestWorker(s: Stats, outcome: nat -> Attempt) returns (granted: nat)
    requires s.Valid() && s.requestsToSend >= 0
    modifies s
    ensures s.Valid() && s.complete
    ensures granted == if old(s.complete) then 0 else s.requestsToSend - old(s.requestsTaken)
    ensures s.requestsTaken == old(s.requestsTaken) + granted
    ensures s.requestsSent == old(s.requestsSent) + granted - Skipped(outcome, granted)
    ensures s.rcCounts == CountsAfter(old(s.rcCounts), outcome, granted)
    ensures s.window == WindowAfter(old(s.window), outcome, granted)
    ensures s.cancelled == (old(s.cancelled) || s.cancelCalls == 1)
    ensures s.requestsSentLast == old(s.requestsSentLast)
  {
    granted := 0;
    var more := s.TakeRequest();
    while more
      invariant s.Valid()
      invariant s.requestsTaken == old(s.requestsTaken) + granted + (if more then 1 else 0)
      invariant more ==> !s.complete && !old(s.complete)
      invariant !more ==> s.complete
      invariant !more && !old(s.complete) ==> s.requestsTaken == s.requestsToSend
      invariant old(s.complete) ==> granted == 0
      invariant s.requestsSent == old(s.requestsSent) + granted - Skipped(outcome, granted)
      invariant s.rcCounts == CountsAfter(old(s.rcCounts), outcome, granted)
      invariant s.window == WindowAfter(old(s.window), outcome, granted)
      invariant s.cancelled == (old(s.cancelled) || s.cancelCalls == 1)
      invariant s.requestsSentLast == old(s.requestsSentLast)
      decreases s.requestsToSend - s.requestsTaken + (if more then 1 else 0)
    {
      more := Perform(s, outcome(granted));
      granted := granted + 1;
    }
  }

  /** The final line of a single-worker run of `count` requests: the
      window and the per-code counts of every recorded outcome, the number
      recorded, and a newline. */
  function FinalLine(count: nat, outcome: nat -> Attempt): StatsLine
  {
    var latencies := RecordedLatencies(outcome, count);
    var sent := count - Skipped(outcome, count);
    StatsLine(Fold(latencies).low, Average(Sum(latencies), |latencies|), Fold(latencies).high,
              sent, sent, Tally(RecordedCodes(outcome, count)), "\n")
  }

  /** The statistics `Stress` creates for `count` requests, after one
      worker has run to completion on them. */
  method RunWorker(count: nat, outcome: nat -> Attempt) returns (s: Stats)
    ensures fresh(s) && s.Valid() && s.complete
    ensures s.requestsToSend == s.requestsTaken == count
    ensures s.requestsSent == count - Skipped(outcome, count) && s.requestsSentLast == 0
    ensures s.rcCounts == CountsAfter(map[], outcome, count)
    ensures s.window == RecordedLatencies(outcome, count)
    ensures s.cancelled == (s.cancelCalls == 1)
  {
    s := new Stats(count);
    var granted := RequestWorker(s, outcome);
  }

  /** What the reporter has printed when every worker has stopped: the
      final line, printed once the run's context is done, or no final line,
      when no cancellation has come. */
  datatype FinalReport = Printed(line: StatsLine) | NotPrinted

  /** A run of `Stress` for `count` requests with one worker: the
      statistics are created and the worker runs to completion. The whole
      quota is dispatched. The quota cancels the run exactly when `count`
      outcomes are recorded, so never for a zero quota and never after a
      request that could not be built; only then does the reporter print
      the final line, reporting every recorded outcome. Otherwise no final
      line is printed: if the reporter registered with the wait group before
      the workers finished, it keeps printing rolling lines and `Stress`
      waits for it until an interrupt arrives; if not, `Stress` returns
      without it. */
  method Stress(count: nat, outcome: nat -> Attempt) returns (taken: int, last: FinalReport, ghost quotaCancels: nat)
    ensures taken == count
    ensures quotaCancels == if 0 < count && Skipped(outcome, count) == 0 then 1 else 0
    ensures last.Printed? <==> quotaCancels == 1
    ensures last.Printed? ==> last.line == FinalLine(count, outcome)
  {
    var s := RunWorker(count, outcome);
    ghost var latencies := RecordedLatencies(outcome, count);
    assert s.requestsSent == |latencies| <= count by {
      AttemptsAccounted(outcome, count);
    }
    assert s.latTotal == Sum(latencies) by {
      FoldTotal(latencies);
    }
    assert s.rcCounts == Tally(RecordedCodes(outcome, count)) by {
      CountsAfterIsTally(outcome, count);
    }
    quotaCancels := s.cancelCalls;
    taken := s.requestsTaken;
    // With no interrupt, only the quota's `Cancel` ends the reporter's loop.
    if 1 <= s.requestsToSend <= s.requestsSent {
      var line := s.GetStatsLine(false);
      last := Printed(line);
    } else {
      last := NotPrinted;
    }
  }
}
