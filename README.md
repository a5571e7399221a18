# Run statistics of an HTTP load generator, in Dafny

The load generator sends a fixed number of HTTP requests (`-count`)
through a pool of workers and prints a statistics line every second. All
of its bookkeeping lives in `pkg/client/stress.go`, and this project
models that bookkeeping:

- **`Stats`** is the record shared by the workers and the reporter. It holds:
  - the number of requests taken and the number sent;
  - the quota;
  - the latency window since the last report: low, high and total;
  - the per-status-code counts;
  - the `Complete` flag.
- **`TakeRequest`** is admission control against the quota.
- **`UpdateRcCount`** records one outcome. It counts the request under its status code (0 for a transport failure), folds its latency into the window, and invokes `Cancel` when the quota's last outcome arrives.
- **`GetStatsLine`** reports the window and its integer average latency, then resets the window.
- **The interrupt handler** marks the run complete and cancels it.
- **The worker loop**, replayed sequentially by a single worker. The environment supplies each granted request's fate: a request that could not be built, a transport failure with a latency, or a response with a code and a latency.
- **`Stress`** builds the initial statistics and runs the worker to completion. Its final line is printed only if the run's context is cancelled.
- **`getBody`** decides between a literal body and `@file`.
- **`getRequestHeaders`** parses `k1=v1,k2=v2` and stops at the first piece without `=`.

The modules:

- `Strings` models Go's `strings.Split` and `strings.Join` for a one-character separator, with their round trip.
- `Window` holds:
  - the window update, the fold over a list of latencies, and the lemmas about it;
  - Go's truncating division for the average.
- `Client` holds:
  - the `Stats` class;
  - the per-code count update `Bump` and the count of a list of codes, `Tally`.
- `Config` holds `getBody` and `getRequestHeaders`.
- `Worker` holds:
  - the worker loop `RequestWorker`;
  - the run `Stress`, specified by the final line `FinalLine` it must report when the quota cancels the run.
- `Scenarios` holds worked runs: five successes, a success/failure mix, an interrupt part-way through, and reports with nothing recorded.

`Stats` carries three ghost fields, which stand in for effects the Go
code does not keep as data:

- `cancelCalls` counts the calls `Stats` itself makes to `Cancel`.
- `cancelled` says whether the run's context is cancelled, by the quota or by an interrupt. Go's context cancellation is idempotent.
- `window` is the list of latencies recorded since the last report.

`Valid()` ties the window fields to the fold of `window`, and ties
`cancelCalls` to the quota. Every operation keeps `Valid()`.

### Behaviour a reader might not expect

The model follows the code, including these cases:

- **The window's low latency can exceed its high.** One might expect
  low <= high once a sample is recorded. The update at
  `pkg/client/stress.go:122-126` is an `if`/`else if`, so a sample that
  lowers `LatLow` is never compared with `LatHigh`. A window whose only
  sample is 10 reports low 10 and high 0 (`Window.FallingSamplesMissHigh`).
- **The final report also resets the window.** The reset is not limited
  to rolling reports: `GetStatsLine` resets the window whatever
  `carriage` is (`pkg/client/stress.go:64-67`).
- **The quota may never cancel the run.** `Cancel` fires when the number of
  recorded outcomes reaches the quota. It does not fire when:
  - a request could not be built and recorded nothing;
  - the quota is 0;
  - the quota is negative.

  In those cases the workers still stop through `TakeRequest` (except for a
  negative quota, where they never stop). But the reporter prints the
  final line only once the run's context is done
  (`pkg/client/stress.go:85-89`), so no final line is printed. The
  reporter adds itself to the wait group inside its own goroutine
  (`pkg/client/stress.go:80`). If it did so before the workers finished,
  `wg.Wait()` (`pkg/client/stress.go:274`) waits for it, and the run keeps
  printing rolling lines and hangs until it is interrupted. If not,
  `Stress` returns without a final line.
  `Worker.Stress` states exactly when the quota cancels the run, and
  reports the final line only then.

## Model

| member | source | states |
|---|---|---|
| Strings.Split | pkg/client/stress.go:149-150 | the parts contain no separator and joined with it give the input back, so an empty input is one empty part |
| Strings.SplitJoin | pkg/client/stress.go:149-150 | splitting a join of separator-free parts gives the parts back: the split is determined by the text |
| Strings.JoinInjective | pkg/client/stress.go:149-150 | two lists of separator-free parts with the same join are equal |
| Window.FoldTotal | pkg/client/stress.go:128 | the window total is the sum of the latencies recorded since the reset |
| Window.FoldLow | pkg/client/stress.go:122-123 | the window low is at most the sentinel 100000 and at most every recorded latency, and is the sentinel or one of them |
| Window.FoldHigh | pkg/client/stress.go:124-126 | the window high is never negative and is 0 or one of the recorded latencies |
| Window.FoldSnoc | pkg/client/stress.go:122-128 | recording one more latency is one window update of the window so far |
| Window.FallingSamplesMissHigh | pkg/client/stress.go:122-126 | because of the `else if`, strictly falling latencies below the sentinel leave high at 0 and low at the last one, so a positive last latency makes low > high |
| Window.Average | pkg/client/stress.go:48-52 | an empty window averages to 0 with no division; otherwise the result is the total divided by the count, truncated toward zero as Go's integer division does, for both signs of the total |
| Window.AverageBetween | pkg/client/stress.go:51 | a total between lo*count and hi*count averages to a value between lo and hi |
| Window.AverageWithinWindow | pkg/client/stress.go:48-52 | the average of a non-empty window lies between the reported low and the window's largest latency |
| Client.Bump | pkg/client/stress.go:117-120 | the code's count goes up by one, counting from 0 when the code is new; the other codes keep their counts and no other code appears |
| Client.TallyCounts | pkg/client/stress.go:116-120 | the counts of a list of codes hold exactly the codes in the list, each with the number of times it occurs |
| Client.TallySnoc | pkg/client/stress.go:117-120 | counting one more code is a `Bump` of the counts so far |
| Client.Stats.constructor | pkg/client/stress.go:240-248 | a new run: nothing taken or sent, window reset with low 100000, no counts, not complete, not cancelled |
| Client.Stats.TakeRequest | pkg/client/stress.go:97-110 | grants exactly when the run is not complete and the taken count differs from the quota, and then takes one more; the run becomes complete when the quota is found used up; once complete, nothing is taken; a non-negative quota is never exceeded |
| Client.Stats.UpdateRcCount | pkg/client/stress.go:112-133 | one more sent; the code's count is bumped; the window gets the `else if` update; `Cancel` is invoked exactly when the sent count reaches the quota, so at most once per run |
| Client.Stats.GetStatsLine | pkg/client/stress.go:44-77 | reports the window low and high, the window count, the truncated average (0 for an empty window, lying between the low and the largest latency otherwise), and the run's sent count and code counts; resets the window for both kinds of line; ends the line with "\r" or "\n" |
| Client.Stats.Interrupt | pkg/client/stress.go:258-262 | the run is complete and cancelled afterwards, and the statistics stay consistent |
| Config.GetBody | pkg/client/stress.go:135-139 | the parameter is a literal body exactly when it does not start with '@'; otherwise the rest of it is the file path, so writing the choice back gives the parameter |
| Config.GetBodyParam | pkg/client/stress.go:135-139 | choosing a body from the parameter of an unambiguous body gives that body back |
| Config.GetRequestHeaders | pkg/client/stress.go:147-161 | the loop's result is the header parse of the comma-separated pieces |
| Config.InvalidPersists | pkg/client/stress.go:151-154 | once a prefix of the pieces is invalid, the whole argument is invalid with the same piece |
| Config.HeadersInvalid | pkg/client/stress.go:150-154 | the argument is rejected exactly when some piece has no '=', and the piece reported is the first such piece |
| Config.HeadersParsedWellFormed | pkg/client/stress.go:150-154 | an accepted argument has '=' in every piece |
| Config.HeadersKeys | pkg/client/stress.go:155-157 | an accepted argument names exactly the headers before the first '=' of its pieces |
| Config.HeadersLastWins | pkg/client/stress.go:155-157 | each header carries the value between the first and second '=' of the last piece naming it |
| Config.HeadersRoundTrip | pkg/client/stress.go:147-161 | rendering plain name/value pairs as "k1=v1,k2=v2" and parsing gives back their map, later pairs winning |
| Worker.AttemptsAccounted | pkg/client/stress.go:171-203 | every granted request is either skipped or recorded once, with one code and one latency |
| Worker.CountsAfterIsTally | pkg/client/stress.go:194-203 | the code counts after the attempts are the counts of the codes they record |
| Worker.Perform | pkg/client/stress.go:165-208 | one pass of the loop: a request that cannot be built records nothing; a transport failure is recorded under code 0, a response under its code, and either appends its latency to the window; the context is cancelled afterwards exactly when it was before or the quota has invoked `Cancel`; then the next request is asked for, granted exactly when the run is not complete and the quota is not used up |
| Worker.RequestWorker | pkg/client/stress.go:163-209 | the worker stops with the run complete, having taken the whole remaining quota (none if already complete); sent grows by the granted requests less the skipped ones; the counts are bumped and the window extended by the recorded outcomes in order; the context is cancelled afterwards exactly when it was before or the quota has invoked `Cancel` |
| Worker.RunWorker | pkg/client/stress.go:240-274 | the statistics are created and one worker runs the loop of `requestWorker` (`pkg/client/stress.go:163-209`) on them to completion: the quota is all taken, the counts and the window hold every recorded outcome in order, and the context is cancelled exactly when the quota invoked `Cancel` |
| Worker.Stress | pkg/client/stress.go:211-277 | the whole quota is dispatched; the quota cancels the run exactly when the quota is positive and no request was skipped; the final line is printed exactly then, and reports the window and the counts of every recorded outcome; otherwise no final line is printed (the run then hangs until interrupted if the reporter registered with the wait group before the workers finished, and returns without a final line if not) |
| Scenarios.TallySameCode | pkg/client/stress.go:117-120 | n outcomes with one code are counted as n under that code |
| Scenarios.FiveSuccessesLine | pkg/client/stress.go:112-133 | five 200s with latencies 10..50 end in the line: low 10, average 30, high 50, five sent, five in the window, 200 counted five times |
| Scenarios.FiveSuccessesRun | pkg/client/stress.go:211-277 | a run of that quota reports that line |
| Scenarios.SuccessFailureSuccessCounts | pkg/client/stress.go:194-203 | a success, a transport failure and a success are counted as 200 twice and 0 once |
| Scenarios.InterruptAfterTwo | pkg/client/stress.go:258-262 | after an interrupt at two of ten, no request is granted, the run is cancelled without the quota invoking `Cancel`, and the final line reports two sent |
| Scenarios.ReportsWithNothingRecorded | pkg/client/stress.go:48-67 | a report with nothing recorded shows an empty window with average 0; a report right after a reset shows an empty window and unchanged code counts |

## Left out

- Concurrency: the mutex, the goroutines, the wait group and the signal goroutine's unlocked write of `Complete` are not modelled. Each `Stats` operation is one atomic step, and the run has a single worker. Interleavings of several workers are not modelled. The reporter adds itself to the wait group inside its own goroutine (`pkg/client/stress.go:80`), racing with the workers; whether `Stress` then hangs or returns when no cancellation comes is not modelled, and only the absence of a final line is stated.
- HTTP and timing: the request construction, the transport, the `httptrace` hooks and body draining are not modelled. Each granted request's outcome and latency are an input (`outcome`).
- Time and floats: `StartTime`, elapsed time, requests per second, the sent percentage and the per-code percentages in `GetStatsLine` are wall-clock or floating-point figures. The model reports the integers they are computed from.
- Formatting: the text of the statistics line, and the order of the per-code breakdown, which follows Go's unspecified map order.
- The `PrintStats` ticker loop and the `-delay` sleep are left out, because they are timing.
- File and process effects: the `ioutil.ReadFile` of a body file and its panic, the printing of an invalid header, `os.Exit` on a bad header or a missing `-url`, and the transport and client configuration in `Stress`. An invalid header is the `Invalid` result of the parse.
- `cmd/Main/main.go` only defines flags and calls `Stress`; it is not part of this model.
- Integer widths: Go's `int` counters and `int64` latencies and totals are unbounded integers here. Go's `int` is 32 bits wide on 32-bit platforms, where `RequestsSent`, `RequestsTaken` and the per-code counts would wrap after 2^31 - 1 requests; the `int64` total would need more than 2^63 milliseconds.
- Worker.RequestWorker: requires a non-negative quota. With a negative quota `TakeRequest` never finds the quota used up, so the Go worker loop runs until interrupted.
- Worker.Stress: takes the count as a natural number for the same reason, and models a single worker.
- Worker.Stress: the final line's window covers every recorded outcome, because the model has no one-second ticker. In the source each rolling report resets the window (`pkg/client/stress.go:64-67`, `pkg/client/stress.go:91-92`), so the final low, high, average and count of the window cover only the outcomes since the last tick.
- The ghost state of `Stats` keeps no history of recorded codes inside `Stats`. The meaning of the per-code counts is stated by `Bump` per call and by `Worker.CountsAfterIsTally` over a run.
