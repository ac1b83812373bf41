# Verification of the Ops Agent collector's stateful metric transformers

A Dafny model of the parts of this repository that keep state between scrapes, fold unbounded streams, or change a
collection while walking it, with proofs of what they keep over whole runs.

- **Normalize-sums** (`NormalizeSums`, `NormalizeSumsRuns`): cumulative counters without a start time are re-based on the first point seen or
  on the last reset. The heap-based processor is tied to one automaton per series; the automaton's invariants are proved
  for every sequence of points, and what becomes of each point is read off the raw points.
- **DCGM receiver** (`DcgmStats`, `DcgmClient`, `ScraperProtocol`): integration of rates with a carry in int64, the
  client that shares statistics objects with the snapshots it hands out, its polling delays, and the protocol between
  scrapes and the polling goroutine as a state machine over all interleavings.
- **Generated metric buffers** (`AggregatingBuffer`): an online group-by against the plain grouped fold of the records.
- **Agent metrics processor** (`LabelKeys`, `Utilizations`, `UtilizationShares`, `UtilizationStage`, `UtilizationRuns`,
  `AverageDisk`, `AverageDiskStage`, `AverageDiskRuns`, `SplitReadWrite`, `CombineProcess`, `CombineProcessStage`,
  `CombineProcessErrors`, `AgentStages`, `AgentMetrics`, `AgentSupport`, `AgentSupportStages`, `AgentMetricsRuns`): each
  stage, the state kept between batches, and the whole pipeline.
- **Status reporting** (`StatusReporting`): the service control exporter collapses equal statuses, the health agent keeps
  the newest; how the verdict on the collapsed stream relates to that on the full one.
- **NVML watermark** (`NvmlWatermark`) and **hotfix versions** (`HotfixVersion`): no sample counts twice; a bumped version
  parses again and is greater.

`Go` has Go's integer arithmetic (truncated division, int64 wrap-around), decimal numerals and string sorting; `Pdata` has
the metric data the processors touch. Code that changes things in place is methods and classes, each tied by its contract
to functions of the old state; what is promised over runs is proved as lemmas about these functions. A stage that ranges
over a Go map picks keys in an arbitrary order, so what is proved of it holds for every order.

What a single step computes is also stated in raw numbers, without the functions that the code is modelled by:
`OutcomeExactly`, `ReportedShares`, `AverageOfRawReadings`, `BoundIsAttained`, `CumulativeOfIntegers`.

Where the code does not do what one would expect, the exact condition is proved: `EmittedIsRebased` with `WideSpanWraps`,
`UnsetStartsExactly` with `LaterUnsetStartStays` and `NonMonotonicUnsetStartStays`, `SafeIncrementsExactly`,
`VerdictsDifferExactly`, `BumpMatchesAgainExactly`, `BumpIsGreater` with `PlusIsNotGreater`, and `ErrorKeepsPointsExactly`
with `PointsAreLost`.

Four conditions are sufficient only. `KeysAreCanonical` asks for names without '=' and values without ';', and each half
is needed: `EqualsSignCollides` and `SemicolonCollides` are families of collisions, yet not every value with a ';' has one.
`CollapsingKeepsNewestError` asks that an OK and an error are reported in the order of their times;
`OutOfOrderHidesNewestError` and `EqualTimesAccuse` show what happens otherwise. `ConservesExactly` asks for a total whose
whole seconds are an int64 under either sign of the carry; `ConservesModulo64` needs nothing. And `SupportedBatch`
rules every panic of the pipeline out, but a batch outside it need not panic.

Two more things came out of the proofs. When combining process metrics fails, the points of the process metrics converted
before the failure are gone from the batch although the pipeline goes on with it (`BatchLoses`). And a point of the average
disk time may carry labels of an earlier batch, so that the promise about `service_version` needs an invariant of the
processor's memory (`AfterScopesIsClean`).

`dafny verify dfyconfig.toml` checks the whole project.

## Model

| member | source | states |
|---|---|---|
| NormalizeSumsRuns.Run | components/otelopscol/processor/normalizesumsprocessor/processor.go:50-159 | Main result. For any batches, however they are cut and however the series are interleaved in them, the calls on one processor return every resource, scope and metric in order: a metric that is not normalized as it was, and of the others each with exactly the points that the per-series automaton (first seen, stale, reset, emitted) emits for the metric's own points after the points of their series that came before, or dropped if there are none |
| NormalizeSumsRuns.ReportedPerSeries | components/otelopscol/processor/normalizesumsprocessor/processor.go:106-159 | What is reported of any piece of a run is, for every identifier, what the automaton emits on the identifier's points in that piece, started where its points before left it |
| NormalizeSumsRuns.RunRefinesAutomaton | components/otelopscol/processor/normalizesumsprocessor/processor.go:50-159 | Over a whole run the reports on one identifier are what the automaton emits on that identifier's own subsequence from its first point on |
| NormalizeSumsRuns.RunReportsClimbing | components/otelopscol/processor/normalizesumsprocessor/processor.go:50-159 | A counter that gets newer from point to point and never falls, over a whole run, is reported at every point but its first, each time as the raw value less the first raw value |
| NormalizeSumsRuns.ReturnsExactly | components/otelopscol/processor/normalizesumsprocessor/processor.go:59-104 | A monotonic Sum whose first start time is unset goes out with what is reported of its points, or not at all if that is nothing; every other metric goes out as it came |
| NormalizeSumsRuns.SeriesAreSeparate | components/otelopscol/processor/normalizesumsprocessor/processor.go:161-175 | Two points are of one series if and only if resource, metric name and labels are the same |
| NormalizeSumsRuns.ReportedIsEmitted | components/otelopscol/processor/normalizesumsprocessor/processor.go:106-159 | The one shared history map gives each series the history of its own points |
| NormalizeSumsRuns.ReportedSplit | components/otelopscol/processor/normalizesumsprocessor/processor.go:59-80 | The reports on consecutive pieces are the pieces of the report on the whole |
| NormalizeSumsRuns.BatchReturnsResult | components/otelopscol/processor/normalizesumsprocessor/processor.go:50-104 | The batch that a processor with a given past returns has, metric by metric, what is reported of that metric's own points, or not the metric at all |
| NormalizeSumsRuns.ReturnedUnderOwnIdentity | components/otelopscol/processor/normalizesumsprocessor/processor.go:84-104 | A returned normalized metric has its descriptor unchanged, and its points read as its own report under its own identifiers |
| NormalizeSumsRuns.UnsetStartsExactly | components/otelopscol/processor/normalizesumsprocessor/processor.go:59-104 | Over any run of points with positive timestamps no returned Sum has a point with an unset start time if and only if every Sum handed in that has one is monotonic and has it unset at its first point |
| NormalizeSumsRuns.LaterUnsetStartStays | components/otelopscol/processor/normalizesumsprocessor/processor.go:87-90 | A monotonic Sum with start times 5 and 0 is forwarded as it is: a concrete metric |
| NormalizeSumsRuns.NonMonotonicUnsetStartStays | components/otelopscol/processor/normalizesumsprocessor/processor.go:66-76 | So is a Sum with an unset start time that is not monotonic |
| NormalizeSums.Split | components/otelopscol/processor/normalizesumsprocessor/processor.go:59-80 | Cutting the stream of points anywhere changes neither the history reached nor what is emitted |
| NormalizeSums.Independent | components/otelopscol/processor/normalizesumsprocessor/processor.go:106-159 | The tracked pair and the emissions of an identifier depend on its own subsequence alone |
| NormalizeSums.ForwardedPoints | components/otelopscol/processor/normalizesumsprocessor/processor.go:84-104 | A normalized metric that is forwarded has its descriptor unchanged and exactly its emissions as points, in order, each still under its own identifier |
| NormalizeSums.SeriesStaysConsistent | components/otelopscol/processor/normalizesumsprocessor/processor.go:106-159 | For a series of one value type, after any points start is not above last in value or in time, and both are points of the series |
| NormalizeSums.OutcomeExactly | components/otelopscol/processor/normalizesumsprocessor/processor.go:106-159 | Main result. What becomes of every point of a series, in raw values: no newer than the first point or last reset, it is dropped; else strictly below the last point not dropped, it is a reset; else it is emitted as the raw difference from the first point or last reset, wrapped where int64 cannot hold it |
| NormalizeSums.ClimbingEmitsAll | components/otelopscol/processor/normalizesumsprocessor/processor.go:106-159 | A series that gets newer from point to point and never falls emits every point but the first, counted from the first |
| NormalizeSums.TrackedIndices | components/otelopscol/processor/normalizesumsprocessor/processor.go:106-159 | The tracked pair is the first point or last reset, and the last point not dropped |
| NormalizeSums.EmittedIsRebased | components/otelopscol/processor/normalizesumsprocessor/processor.go:121-158 | An emitted point keeps labels and timestamp and starts strictly before it. Its value is at least 0, and with the start value added is the raw value, if and only if the raw value is at most 2^63 - 1 above the start's, because the source subtracts in int64 |
| NormalizeSums.NonNegativeCountersSpan | components/otelopscol/processor/normalizesumsprocessor/processor.go:121-158 | A counter that is never negative always meets that condition |
| NormalizeSums.WideSpanWraps | components/otelopscol/processor/normalizesumsprocessor/processor.go:154 | A counter that starts at -1 and reaches 2^63 - 1 is emitted as -2^63: a concrete series |
| NormalizeSums.TrackFrom | components/otelopscol/processor/normalizesumsprocessor/processor.go:106-159 | From an emission on, the start stays and last does not fall until a reset, and a reset moves the start strictly forward in time |
| NormalizeSums.EmissionsOrdered | components/otelopscol/processor/normalizesumsprocessor/processor.go:106-159 | Of two emissions the start time grew if and only if there was a reset in between; without one the value fell if and only if the distance from the start grew beyond int64 in between. Points may arrive out of time order |
| NormalizeSums.Processor.ProcessSumDataPoint | components/otelopscol/processor/normalizesumsprocessor/processor.go:106-159 | Updates the history objects in place so that the abstract history is that of one more event, and appends what the automaton emits |
| NormalizeSums.Processor.ProcessMetric | components/otelopscol/processor/normalizesumsprocessor/processor.go:84-104 | The history absorbs the metric's points in order; the metric is kept if and only if it is not to be normalized or some point of it was emitted |
| NormalizeSums.Processor.TransformScope | components/otelopscol/processor/normalizesumsprocessor/processor.go:62-77 | Over one scope the kept metrics come out in order, with the history threaded through them |
| NormalizeSums.Processor.TransformMetrics | components/otelopscol/processor/normalizesumsprocessor/processor.go:59-80 | The same over the scopes of a resource; every scope is kept, even an empty one |
| NormalizeSums.Processor.ProcessMetrics | components/otelopscol/processor/normalizesumsprocessor/processor.go:50-57 | The same over a batch, with the one history of start point objects threaded through the resources |
| DcgmStats.MetricStats.Update | components/otelopscol/receiver/dcgmreceiver/util.go:63-87 | The new state is the update function of the old one, and the `lastFieldValue` pointer is kept or replaced by a new object, never written through |
| DcgmStats.MetricStats.Copy | components/otelopscol/receiver/dcgmreceiver/client.go:358-371 | A copy of the statistics reads the same and shares the pointee of `lastFieldValue` |
| DcgmStats.OnlyNewMaximaCount | components/otelopscol/receiver/dcgmreceiver/util.go:63-87 | The state after any samples is the state after their strictly new timestamp maxima alone, and the last of these is what is remembered |
| DcgmStats.TakenIffNewMaximum | components/otelopscol/receiver/dcgmreceiver/util.go:63-72 | A sample is taken if and only if it is numeric and newer than the one remembered |
| DcgmStats.StaleMayBeInserted | components/otelopscol/receiver/dcgmreceiver/util.go:63-72 | Samples no newer than one already seen may be inserted anywhere without effect |
| DcgmStats.OverlappingPolls | components/otelopscol/receiver/dcgmreceiver/util.go:63-72 | A poll that returns the samples of the previous poll again leaves the same state as one that does not |
| DcgmStats.TimestampNeverDecreases | components/otelopscol/receiver/dcgmreceiver/util.go:63-72 | As samples arrive the remembered timestamp never goes back |
| DcgmStats.AcceptedGrows | components/otelopscol/receiver/dcgmreceiver/util.go:63-72 | More samples only extend the sequence of accepted ones |
| DcgmStats.CumulativeIsLastMinusFirst | components/otelopscol/receiver/dcgmreceiver/util.go:63-87 | The cumulative value is the last accepted integer minus the first, in int64; with nothing accepted the state is that of new statistics |
| DcgmStats.CumulativeOfIntegers | components/otelopscol/receiver/dcgmreceiver/util.go:42-75 | Of int64 samples it is the last raw value minus the first, less or plus 2^64 exactly where int64 cannot hold that |
| DcgmStats.CumulativeOfDoubles | components/otelopscol/receiver/dcgmreceiver/util.go:42-75 | Of double samples in int64 range it is less than 2 away from the difference of the raw values, and equal to it for whole numbers |
| DcgmStats.ConservesModulo64 | components/otelopscol/receiver/dcgmreceiver/util.go:73-84 | For every sample sequence the microseconds stay below 10^6 in magnitude, and 10^6 times seconds plus microseconds equals the sum of rate times interval over accepted samples up to int64 wrap-around |
| DcgmStats.ConservesExactly | components/otelopscol/receiver/dcgmreceiver/util.go:73-84 | While every interval, area and running total is in int64 range, with room for the carry, that equality is exact, under Go's truncated division |
| DcgmStats.CarryCannotOverflow | components/otelopscol/receiver/dcgmreceiver/util.go:76-83 | An increment from -(2^63 - 10^6 + 1) to 2^63 - 10^6 cannot overflow the microsecond accumulator, whatever was integrated before |
| DcgmStats.SafeIncrementsExactly | components/otelopscol/receiver/dcgmreceiver/util.go:76-83 | An increment is safe after every history if and only if it is in that range |
| DcgmStats.OneMoreOverflows | components/otelopscol/receiver/dcgmreceiver/util.go:76-83 | What an overflow does: a concrete history of all-positive rates that integrates to negative seconds |
| DcgmStats.SecondsAreWholeTotal | components/otelopscol/receiver/dcgmreceiver/util.go:73-84 | For non-negative rates, while everything is in int64 range, the seconds are the whole seconds of the total area |
| DcgmStats.SecondsNeverDecrease | components/otelopscol/receiver/dcgmreceiver/util.go:73-84 | For non-negative rates, while everything is in int64 range, the seconds never decrease as samples arrive |
| DcgmStats.TruncationDrift | components/otelopscol/receiver/dcgmreceiver/util.go:73-84 | While everything is in int64 range, truncating double increments drifts by less than one rate-microsecond per accepted sample |
| DcgmStats.IntegratedDrift | components/otelopscol/receiver/dcgmreceiver/util.go:73-84 | While everything is in int64 range, what is integrated is within one rate-microsecond per accepted sample of the real area |
| DcgmClient.MetricsAreFolds | components/otelopscol/receiver/dcgmreceiver/client.go:298-355 | Whatever the order and mixture of values, each metric of each device is the fold of `Update` over that device's and field's own valid values, and a device is known if and only if a lookup at one of its GPU values succeeded: a failed one is tried again |
| DcgmClient.DeviceIsFirstAnswer | components/otelopscol/receiver/dcgmreceiver/client.go:318-333 | A device is described by the first lookup that succeeded and never by another |
| DcgmClient.IngestConcat | components/otelopscol/receiver/dcgmreceiver/client.go:298-355 | Splitting the values of a poll, or joining polls, changes nothing |
| DcgmClient.SnapshotsNeverGoBack | components/otelopscol/receiver/dcgmreceiver/client.go:358-371 | A later snapshot of a session has every metric of an earlier one, no older and, for non-negative rates while everything is in int64 range, with no fewer integrated seconds |
| DcgmClient.EmptyPollWraps | components/otelopscol/receiver/dcgmreceiver/client.go:312-354 | A poll with nothing usable spans 0 - (2^63 - 1) microseconds, which wraps around to 1000 ns before the clamp |
| DcgmClient.OldestAndNewest | components/otelopscol/receiver/dcgmreceiver/client.go:312-344 | The two timestamps of a poll bound all timestamps used in it, and each is one of them or where the search starts |
| DcgmClient.DurationOfSpan | components/otelopscol/receiver/dcgmreceiver/client.go:345-354 | A collect lasts from the oldest to the newest microsecond, in nanoseconds, but at least ten seconds |
| DcgmClient.CollectDuration | components/otelopscol/receiver/dcgmreceiver/client.go:345-354 | A successful collect returns at least ten seconds for any pair of timestamps |
| DcgmClient.PollsTwicePerInterval | components/otelopscol/receiver/dcgmreceiver/scraper.go:204-216 | Every delay is at least 100 ms; twice the delay fits in the collection interval if and only if the interval is at least 200 ms; from there on it is half of the shorter of the interval and the time the samples span |
| DcgmClient.Client.EnsureDevice | components/otelopscol/receiver/dcgmreceiver/client.go:318-333 | Looks a device up at the first value that needs it and leaves the metrics alone |
| DcgmClient.Client.UpdateMetric | components/otelopscol/receiver/dcgmreceiver/client.go:334-344 | Updates one metric in place, allocated at its first valid value; all others keep their state although they live in the same heap |
| DcgmClient.Client.ProcessFieldValue | components/otelopscol/receiver/dcgmreceiver/client.go:317-344 | One turn of the loop: ingests the value and tells whether it was used |
| DcgmClient.Client.Collect | components/otelopscol/receiver/dcgmreceiver/client.go:298-355 | The devices become those of the polled values ingested; the delay is that of the oldest and newest used timestamps; a failed poll or no enabled field changes nothing |
| DcgmClient.Client.GetDeviceMetrics | components/otelopscol/receiver/dcgmreceiver/client.go:358-371 | A map of new statistics objects that read as the devices do now and share only the pointees of `lastFieldValue` |
| DcgmClient.Deliver | components/otelopscol/receiver/dcgmreceiver/scraper.go:217-231 | Each delivery gets a snapshot of its own and leaves all earlier ones reading as they did |
| DcgmClient.PollClient | components/otelopscol/receiver/dcgmreceiver/scraper.go:201-233 | Snapshot isolation: after any rounds of collecting and delivering, every map delivered along the way still reads as the devices did when it was delivered; each delay is that of its own round |
| ScraperProtocol.RunsAreSound | components/otelopscol/receiver/dcgmreceiver/scraper.go:183-248 | Every state reachable by any interleaving of scrapers, loop, polls and cancellation has at most one trigger token, a channel closed at most once and only after cancellation, and only deliveries that are empty or the session's devices |
| ScraperProtocol.RunGoesOn | components/otelopscol/receiver/dcgmreceiver/scraper.go:183-248 | A run goes on with exactly what is possible in the state it has reached |
| ScraperProtocol.ClosedOnlyAfterCancel | components/otelopscol/receiver/dcgmreceiver/scraper.go:183-199 | The metrics channel is closed only after cancellation |
| ScraperProtocol.NothingAfterClose | components/otelopscol/receiver/dcgmreceiver/scraper.go:183-233 | It is closed once, and nothing is sent on it afterwards |
| ScraperProtocol.TokenIsPendingTrigger | components/otelopscol/receiver/dcgmreceiver/scraper.go:217-248 | The trigger channel holds one token if and only if some scrape has triggered since the loop last took one: no trigger is lost and several make one |
| ScraperProtocol.ScrapeIsSettledOnce | components/otelopscol/receiver/dcgmreceiver/scraper.go:235-248 | What a scrape received, or that it gave up, stays: no scrape is answered twice |
| ScraperProtocol.OneSessionUntilCancelled | components/otelopscol/receiver/dcgmreceiver/scraper.go:183-233 | As long as nothing is cancelled there is one session at most, and the loop stays in it |
| ScraperProtocol.DeliveredMetricIsFold | components/otelopscol/receiver/dcgmreceiver/scraper.go:201-248 | Each metric of a delivered map is the fold of `Update` over the valid values its session had collected; without a session there is none |
| ScraperProtocol.RunsKeepHistory | components/otelopscol/receiver/dcgmreceiver/scraper.go:201-233 | Earlier deliveries of a session hold a prefix of the polls behind later ones |
| ScraperProtocol.DeliveriesNeverGoBack | components/otelopscol/receiver/dcgmreceiver/scraper.go:201-233 | Of two deliveries from one session the later keeps every metric, no older and, for non-negative rates while everything is in int64 range, with no fewer seconds |
| ScraperProtocol.WaitingScrapeIsServed | components/otelopscol/receiver/dcgmreceiver/scraper.go:183-248 | In every reachable state a waiting scrape is offered a map, or the loop can step and every step, whatever DCGM answers, brings it closer to an offer |
| ScraperProtocol.CanAlwaysStop | components/otelopscol/receiver/dcgmreceiver/scraper.go:183-233 | Once cancelled the loop can stop from wherever it is |
| ScraperProtocol.CanAlwaysCollect | components/otelopscol/receiver/dcgmreceiver/scraper.go:183-233 | Until cancelled the loop can collect again from wherever it is, and then offers what the session has collected |
| ScraperProtocol.TriggeredScrapeIsFresh | components/otelopscol/receiver/dcgmreceiver/scraper.go:201-248 | While a session serves, a new scrape can receive the devices of a collect that it triggered itself |
| ScraperProtocol.ScrapeCanGiveUp | components/otelopscol/receiver/dcgmreceiver/scraper.go:235-248 | A waiting scrape can always give up, and cancelling is always possible |
| AggregatingBuffer.MetricBuffer.RecordDataPoint | components/otelopscol/receiver/dcgmreceiver/internal/metadata/generated_metrics.go:530-570 | Searches linearly, updates or appends in place, and keeps the buffers those of the grouped records: first-occurrence order, and a parallel count slice of group sizes for sum and average and ones otherwise |
| AggregatingBuffer.MetricBuffer.ProjectTells | components/otelopscol/receiver/dcgmreceiver/internal/metadata/generated_metrics.go:535-545 | Two records have one key if and only if their times are the same and, where the attribute is enabled, its values; nothing else is in a key |
| AggregatingBuffer.MetricBuffer.Emit | components/otelopscol/receiver/dcgmreceiver/internal/metadata/generated_metrics.go:579-590 | Hands over one metric whose points are the groups' aggregates, or none if nothing was recorded, and empties both slices; all that was recorded is of the metric's value type |
| AggregatingBuffer.EmittedValue | components/otelopscol/receiver/dcgmreceiver/internal/metadata/generated_metrics.go:530-590 | For every strategy an emitted value is the total of its group of all integers or all reals (wrapped once, for integers), the truncated or exact mean, or the numerically least or greatest of the recorded values |
| AggregatingBuffer.TypedEmittedValue | components/otelopscol/receiver/dcgmreceiver/internal/metadata/generated_metrics.go:530-590 | So for whatever a buffer hands over, since all its records have the metric's one value type |
| AggregatingBuffer.IntsAddUp | components/otelopscol/receiver/dcgmreceiver/internal/metadata/generated_metrics.go:530-570 | Adding one by one with wrap-around gives the wrapped total |
| AggregatingBuffer.RealsAddUp | components/otelopscol/receiver/dcgmreceiver/internal/metadata/generated_metrics.go:992-1032 | Adding reals one by one gives their total |
| AggregatingBuffer.BoundIsAttained | components/otelopscol/receiver/dcgmreceiver/internal/metadata/generated_metrics.go:530-570 | The minimum strategy leaves a recorded value that is at most every recorded one as a number, the maximum strategy one that is at least every one |
| AggregatingBuffer.KeysAreDistinct | components/otelopscol/receiver/dcgmreceiver/internal/metadata/generated_metrics.go:530-590 | Emitted keys are pairwise distinct, exactly unless the metric is plain and one key was recorded twice |
| AggregatingBuffer.MetricsBuilder.EmitAll | components/otelopscol/receiver/dcgmreceiver/internal/metadata/generated_metrics.go:1506-1530 | Every buffer emits its own records and is empty afterwards |
| AggregatingBuffer.MetricsBuilder.EmitForResource | components/otelopscol/receiver/dcgmreceiver/internal/metadata/generated_metrics.go:1506-1547 | Every buffer is empty afterwards even if a resource filter drops the result, so nothing leaks into the next resource |
| AggregatingBuffer.MetricsBuilder.Emit | components/otelopscol/receiver/dcgmreceiver/internal/metadata/generated_metrics.go:1552-1557 | Returns everything accumulated and starts a new batch |
| StatusReporting.Exporter.ReportStatus | components/google-built-opentelemetry-collector/exporter/googleservicecontrolexporter/exporter.go:202-209 | What the host has been told is the stream of all statuses with equal neighbours collapsed |
| StatusReporting.Exporter.PushReportRequest | components/google-built-opentelemetry-collector/exporter/googleservicecontrolexporter/exporter.go:211-255 | A Report call without an error is delivered; one that ran into a deadline, or whose gRPC status is DeadlineExceeded or Unavailable, is to be retried, and any other given up; the status reported is OK, recoverable or permanent accordingly |
| StatusReporting.HealthAgent.ComponentStatusChanged | components/google-built-opentelemetry-collector/extension/healthagent/healthagent.go:115-127 | The two remembered events are the newest OK and the newest recoverable error delivered; other statuses are ignored |
| StatusReporting.HealthAgent.UpdateStatus | components/google-built-opentelemetry-collector/extension/healthagent/healthagent.go:103-107 | If the pointer held the newest of the events of a status so far, it holds the newest of them and the new one afterwards; of several equally new ones the first |
| StatusReporting.HealthAgent.IsHealthy | components/google-built-opentelemetry-collector/extension/healthagent/healthagent.go:55-87 | The verdict is healthy if and only if the agent is ready, no error delivered is newer than every OK, and none is inside the check interval |
| StatusReporting.OrderOfDeliveryIsIrrelevant | components/google-built-opentelemetry-collector/extension/healthagent/healthagent.go:55-127 | Any reordering of the deliveries leads to the same verdict, at equal timestamps too |
| StatusReporting.CollapsedKeepsStreakStart | components/google-built-opentelemetry-collector/exporter/googleservicecontrolexporter/exporter.go:202-209 | The newest event of a status in the collapsed stream starts the streak that the newest one in the full stream ends |
| StatusReporting.CollapsingKeepsNewestError | components/google-built-opentelemetry-collector/exporter/googleservicecontrolexporter/exporter.go:202-255 | If of an OK and an error the one reported later is newer, whether an error is newer than every OK is the same on both streams; order inside a streak does not matter |
| StatusReporting.CollapsingNeverAccuses | components/google-built-opentelemetry-collector/exporter/googleservicecontrolexporter/exporter.go:202-255 | Under that order an agent healthy on the full stream is healthy on the collapsed one |
| StatusReporting.VerdictsDifferExactly | components/google-built-opentelemetry-collector/extension/healthagent/healthagent.go:55-87 | Under that order the two verdicts differ if and only if the last streak of errors is over and the newest error is inside the check interval while the newest one reported is not |
| StatusReporting.IncreasingVerdicts | components/google-built-opentelemetry-collector/exporter/googleservicecontrolexporter/exporter.go:202-255 | With increasing timestamps all of this holds, and where the verdicts differ the newest error reported starts the streak that the newest error ends |
| StatusReporting.NewestErrorIsLastCounted | components/google-built-opentelemetry-collector/extension/healthagent/healthagent.go:55-87 | Under that order an error is newer than every OK if and only if the last OK or error is an error |
| StatusReporting.EqualTimesAccuse | components/google-built-opentelemetry-collector/exporter/googleservicecontrolexporter/exporter.go:202-209 | An OK and an error with equal timestamps can make the agent unhealthy on the collapsed stream alone: a concrete stream |
| StatusReporting.OutOfOrderHidesNewestError | components/google-built-opentelemetry-collector/exporter/googleservicecontrolexporter/exporter.go:202-209 | An OK older than an error before it lets collapsing hide the newest error: a concrete stream |
| NvmlWatermark.Client.GetAverageGpuUtilizationSinceLastQuery | components/otelopscol/receiver/nvmlreceiver/client.go:290-322 | Averages the samples above the device's watermark, moves the watermark to the newest sample, and leaves other devices alone; a failed query or an undecodable sample counts nothing |
| NvmlWatermark.WatermarkNeverDecreases | components/otelopscol/receiver/nvmlreceiver/client.go:290-322 | Over any run of queries the watermark never goes down |
| NvmlWatermark.CountedBetweenWatermarks | components/otelopscol/receiver/nvmlreceiver/client.go:290-322 | A query counts only samples above the watermark it found and not above the one it left |
| NvmlWatermark.NoTimestampCountsTwice | components/otelopscol/receiver/nvmlreceiver/client.go:290-322 | Everything a later query counts is newer than everything an earlier one counted |
| NvmlWatermark.NewSamplesAreCounted | components/otelopscol/receiver/nvmlreceiver/client.go:299-313 | No sample above the watermark is passed over |
| NvmlWatermark.RunCountsNewSamples | components/otelopscol/receiver/nvmlreceiver/client.go:299-322 | Over a run a query that succeeds counts every sample above the watermark it found |
| NvmlWatermark.AverageIsMean | components/otelopscol/receiver/nvmlreceiver/client.go:290-322 | What a query returns, times 100 and the number of samples it counts, is their total, to which each sample contributes its own value once |
| NvmlWatermark.AverageIsFraction | components/otelopscol/receiver/nvmlreceiver/client.go:290-322 | For samples from 0 to 100 the average is from 0 to 1 |
| HotfixVersion.TextMatches | cmd/distrogen/distribution.go:46-48 | What the regex finds in the text of a well-formed version is that version |
| HotfixVersion.MatchIsText | cmd/distrogen/distribution.go:46-48 | Whatever the regex finds anything in is the text of the well-formed version found |
| HotfixVersion.BumpMatchesAgainExactly | cmd/distrogen/distribution.go:711-752 | A bumped version matches the regex again if and only if the identifier has no dot and the number to increment is below 2^63 - 1; the match is then the version meant |
| HotfixVersion.BumpIsGreater | cmd/distrogen/distribution.go:711-752 | Whatever a bump yields that is a version is strictly greater by section 11 of Semantic Versioning 2.0.0 if and only if it does not go on with the version's own identifier while that has a '+' |
| HotfixVersion.PlusIsNotGreater | cmd/distrogen/distribution.go:46-48 | 1.2.3-a+b.0 becomes 1.2.3-a+b.1, whose counter is build metadata: no greater |
| HotfixVersion.RepeatedBumps | cmd/distrogen/distribution.go:711-752 | n bumps of a plain x.y.z with one identifier give x.y.(z+1)-identifier.(n-1) |
| HotfixVersion.BumpHotfixExactly | cmd/distrogen/distribution.go:711-752 | For every version, identifier of the spec and override: an error if the version does not match, else a matching version exactly if the identifier chosen has no dot and the number to increment is in range, and then with the override, else the spec's identifier, else hotfix, and greater exactly if it does not go on with an identifier that has a '+' |
| LabelKeys.LabelsAsKey | components/otelopscol/processor/agentmetricsprocessor/utils_calculate_utilizations.go:226-240 | The key is a function of the label set, whatever the order in which labels are visited |
| LabelKeys.OtherLabelsAsKey | components/otelopscol/processor/agentmetricsprocessor/utils_calculate_utilizations.go:245-270 | The key of the labels not excluded, or an error if and only if fewer than all exclusions were present |
| LabelKeys.RenderOthers | components/otelopscol/processor/agentmetricsprocessor/utils_calculate_utilizations.go:248-258 | The rendered labels are those not excluded, each once, in some order |
| LabelKeys.NothingExcluded | components/otelopscol/processor/agentmetricsprocessor/utils_calculate_utilizations.go:226-270 | With no exclusions the two key builders agree and there is no error |
| LabelKeys.OneExcluded | components/otelopscol/processor/agentmetricsprocessor/utils_calculate_utilizations.go:260-262 | With one exclusion the error says exactly that this label is missing |
| LabelKeys.RenderedAnyOrder | components/otelopscol/processor/agentmetricsprocessor/utils_calculate_utilizations.go:236-239 | Any order of rendering gives the same collection of rendered labels |
| LabelKeys.KeysAreCanonical | components/otelopscol/processor/agentmetricsprocessor/utils_calculate_utilizations.go:225-270 | If names have no '=' and values no ';', two label sets have the same key if and only if they are the same |
| Pdata.TextOfValue | components/otelopscol/processor/agentmetricsprocessor/utils_calculate_utilizations.go:226-240 | A string is its own text, and the text of an integer reads back as that integer |
| LabelKeys.EqualsSignCollides | components/otelopscol/processor/agentmetricsprocessor/utils_calculate_utilizations.go:230 | Every name with '=' collides with the name before the '=', whatever the value |
| LabelKeys.SemicolonCollides | components/otelopscol/processor/agentmetricsprocessor/utils_calculate_utilizations.go:239 | Every value with another label behind a ';' collides with the two labels, if they sort in that order |
| LabelKeys.SemicolonCollision | components/otelopscol/processor/agentmetricsprocessor/utils_calculate_utilizations.go:239 | A concrete such pair |
| Utilizations.GroupingStatus | components/otelopscol/processor/agentmetricsprocessor/utils_calculate_utilizations.go:163-184 | Grouping goes through if and only if every point has a `state` label |
| Utilizations.FirstStatelessDecides | components/otelopscol/processor/agentmetricsprocessor/utils_calculate_utilizations.go:163-184 | The first point without a `state` label decides: a panic if it has no label at all, and else an error |
| Utilizations.GroupByOtherLabels | components/otelopscol/processor/agentmetricsprocessor/utils_calculate_utilizations.go:163-184 | The groups are the points with equal other labels, in order, each with the sum of its values |
| Utilizations.ReportGroup | components/otelopscol/processor/agentmetricsprocessor/utils_calculate_utilizations.go:189-206 | The points of a group come out in order, each with its share of the group's sum |
| Utilizations.CalculateUtilizationFromNumberDataPoints | components/otelopscol/processor/agentmetricsprocessor/utils_calculate_utilizations.go:153-210 | In whatever order the groups are visited, the reported points are a permutation of the shares; a missing `state` label is an error and a point without labels a panic, whichever comes first |
| UtilizationShares.GroupAddsUpTo100 | components/otelopscol/processor/agentmetricsprocessor/utils_calculate_utilizations.go:186-207 | The reported points of a group with a sum other than zero add up to exactly 100, in whatever order they come |
| UtilizationShares.UtilizationIsPercentage | components/otelopscol/processor/agentmetricsprocessor/utils_calculate_utilizations.go:186-207 | With no negative value in a group each utilization is a number from 0 to 100, or none is a number because the whole group is zero |
| UtilizationShares.SumOfPermutation | components/otelopscol/processor/agentmetricsprocessor/utils_calculate_utilizations.go:186-207 | The order in which values are added up does not matter |
| UtilizationStage.StoredIsLastValue | components/otelopscol/processor/agentmetricsprocessor/utils_calculate_utilizations.go:214-223 | Of several points with the same labels the last one's value is stored |
| UtilizationStage.StoredHasPoint | components/otelopscol/processor/agentmetricsprocessor/utils_calculate_utilizations.go:214-223 | A key is stored if and only if some point has it |
| UtilizationStage.CpuTimes.ConvertPrevCPUTimeToDelta | components/otelopscol/processor/agentmetricsprocessor/utils_calculate_utilizations.go:114-137 | Keeps, in order, the points whose labels are stored, each with its increase since |
| UtilizationStage.CpuTimes.SetPrevCPUTimes | components/otelopscol/processor/agentmetricsprocessor/utils_calculate_utilizations.go:141-146 | Replaces what is stored by the values of the given points |
| UtilizationStage.CpuTimes.CalculateUtilizationMetric | components/otelopscol/processor/agentmetricsprocessor/utils_calculate_utilizations.go:75-110 | The utilization metric of one metric: descriptor kept, name renamed, gauge of the shares; what is stored changes only on a success with CPU time |
| UtilizationStage.CpuTimes.AppendToScope | components/otelopscol/processor/agentmetricsprocessor/utils_calculate_utilizations.go:51-69 | The loop that appends to the slice it walks ends, leaves the original metrics as they were, and appends one utilization metric per trigger, in order, up to the first error |
| UtilizationStage.CpuTimes.AppendUtilizationMetrics | components/otelopscol/processor/agentmetricsprocessor/utils_calculate_utilizations.go:47-73 | The same over a batch, with the stored values threaded through the scopes and nothing touched after an error |
| UtilizationStage.UtilizationIsNoTrigger | components/otelopscol/processor/agentmetricsprocessor/utils_calculate_utilizations.go:79-81 | A renamed metric never asks for a utilization metric itself, which is why the loop ends |
| UtilizationStage.UtilizationName | components/otelopscol/processor/agentmetricsprocessor/utils_calculate_utilizations.go:79 | What follows the last dot of the name becomes utilization |
| UtilizationRuns.ReportedPoints | components/otelopscol/processor/agentmetricsprocessor/utils_calculate_utilizations.go:112-210 | Up to order and values, the points of a CPU utilization metric are exactly the points whose labels the previous success stored, with labels and timestamps kept; for other metrics all points |
| UtilizationRuns.ReportedShares | components/otelopscol/processor/agentmetricsprocessor/utils_calculate_utilizations.go:112-210 | Main result. The values in raw terms: of CPU time each reported point times what its group's raw values grew by since they were stored is 100 times what its own raw value grew by; of the other metrics with the values themselves; no number for a group without any |
| UtilizationRuns.SharesSinceLast | components/otelopscol/processor/agentmetricsprocessor/utils_calculate_utilizations.go:75-210 | Of a CPU time metric walked without an error these are the shares of what the raw values grew by since the last CPU time metric before it |
| UtilizationRuns.SharesOverBatches | components/otelopscol/processor/agentmetricsprocessor/utils_calculate_utilizations.go:47-210 | Main result. The same over any batches, whatever failed in them: since the last CPU time metric that succeeded in any of them |
| UtilizationRuns.MemoryIsReadOff | components/otelopscol/processor/agentmetricsprocessor/utils_calculate_utilizations.go:141-146 | What is stored then are the raw values of that metric, of several points with one key the last |
| UtilizationRuns.PointKeysExactly | components/otelopscol/processor/agentmetricsprocessor/utils_calculate_utilizations.go:226-240 | Under the two conditions on names and values, two points have one stored key if and only if their labels read the same |
| UtilizationRuns.GroupsExactly | components/otelopscol/processor/agentmetricsprocessor/utils_calculate_utilizations.go:163-184 | And they are in one group if and only if their labels but `state` read the same |
| UtilizationRuns.ReportedGroupAddsUp | components/otelopscol/processor/agentmetricsprocessor/utils_calculate_utilizations.go:75-210 | In every utilization metric each group whose increases do not sum to zero adds up to 100 |
| UtilizationRuns.ExactCount | components/otelopscol/processor/agentmetricsprocessor/utils_calculate_utilizations.go:47-73 | One metric is appended per trigger walked without an error |
| UtilizationRuns.EachTriggerOnce | components/otelopscol/processor/agentmetricsprocessor/utils_calculate_utilizations.go:47-73 | The n-th trigger has the n-th appended metric as its utilization, computed from what was stored when it was reached |
| UtilizationRuns.RemembersLastSuccess | components/otelopscol/processor/agentmetricsprocessor/utils_calculate_utilizations.go:102-107 | After any walk the stored values are those of the last CPU time metric that did not fail |
| UtilizationRuns.ScopesAreOneRun | components/otelopscol/processor/agentmetricsprocessor/utils_calculate_utilizations.go:47-73 | Walking a batch scope by scope is one walk over all its metrics |
| UtilizationRuns.RemembersOverBatches | components/otelopscol/processor/agentmetricsprocessor/utils_calculate_utilizations.go:75-146 | After any batches, whatever failed in them, the stored values are those of the last CPU time metric that succeeded |
| AverageDisk.CollectPoints | components/otelopscol/processor/agentmetricsprocessor/utils_calculate_average_disk.go:41-65 | The inner loop folds a disk metric's points into `newOp`, starting each new key from what the last scope left |
| AverageDisk.Collect | components/otelopscol/processor/agentmetricsprocessor/utils_calculate_average_disk.go:30-69 | `newOp` and the operation time metric of a scope, or a panic on a disk metric that is no Sum or lacks a label |
| AverageDisk.CollectedPerKey | components/otelopscol/processor/agentmetricsprocessor/utils_calculate_average_disk.go:41-65 | `newOp` has exactly the keys that occur, each with the last points of that key alone |
| AverageDiskStage.ReportKey | components/otelopscol/processor/agentmetricsprocessor/utils_calculate_average_disk.go:76-94 | The increment and the point to report for one key |
| AverageDiskStage.DiskOps.ReportKeys | components/otelopscol/processor/agentmetricsprocessor/utils_calculate_average_disk.go:74-95 | In whatever order the keys are visited each is advanced once and each known key reported once |
| AverageDiskStage.DiskOps.AppendToScope | components/otelopscol/processor/agentmetricsprocessor/utils_calculate_average_disk.go:28-101 | One scope: the operation time metric copied under a new name with the points to report, or nothing if there is nothing to report; a panic exactly when a label, a Sum's points, a time point or the metric to copy is used and is not there |
| AverageDiskStage.DiskOps.AppendAverageDiskMetrics | components/otelopscol/processor/agentmetricsprocessor/utils_calculate_average_disk.go:26-105 | The same over a batch, with `prevOp` threaded through the scopes |
| AverageDiskStage.AfterScopePerKey | components/otelopscol/processor/agentmetricsprocessor/utils_calculate_average_disk.go:74-95 | What is kept of a key after a scope depends on that key's readings alone |
| AverageDiskRuns.KeysAreIndependent | components/otelopscol/processor/agentmetricsprocessor/utils_calculate_average_disk.go:26-105 | Over any run of scopes keys do not affect each other |
| AverageDiskRuns.AccumulatorClosedForm | components/otelopscol/processor/agentmetricsprocessor/utils_calculate_average_disk.go:74-95 | If a key always comes with both metrics its accumulator is the sum, over consecutive observations with new operations, of busy time per operation times the interval over 10^9 |
| AverageDiskRuns.OnePointEachTime | components/otelopscol/processor/agentmetricsprocessor/utils_calculate_average_disk.go:76-94 | Nothing is reported on first sight and one point each time after: that scope's time point with the closed form up to there as value |
| AverageDiskRuns.AverageOfRawReadings | components/otelopscol/processor/agentmetricsprocessor/utils_calculate_average_disk.go:76-94 | Main result. From one report of a key to the next, in raw readings: nothing is added without new operations, and else the added value times the new operations times 10^9 is the new busy time times the new nanoseconds; operations wrap around int64 and timestamps around uint64 |
| AverageDiskRuns.LatestIsLastPoint | components/otelopscol/processor/agentmetricsprocessor/utils_calculate_average_disk.go:30-69 | What a scope says of a key is the last point of the key in the last metric of each of the two names that has it |
| AverageDiskRuns.KeysAgreeExactly | components/otelopscol/processor/agentmetricsprocessor/utils_calculate_average_disk.go:47-50 | Two points have one key if and only if their labels device and direction read the same |
| AverageDiskRuns.KeyPanicsExactly | components/otelopscol/processor/agentmetricsprocessor/utils_calculate_average_disk.go:76-94 | A key seen before makes the stage panic if and only if it has no time point now, or had none and there are new operations |
| AverageDiskRuns.UncountedKeyReportsZero | components/otelopscol/processor/agentmetricsprocessor/utils_calculate_average_disk.go:76-94 | A key that never comes with operations reports 0 each time, however busy it is |
| AverageDiskRuns.SeriesNeverDecreases | components/otelopscol/processor/agentmetricsprocessor/utils_calculate_average_disk.go:76-94 | If a key's busy time never decreases neither does what is reported for it, whatever the timestamps do |
| SplitReadWrite.AppendNumberDataPoints | components/otelopscol/processor/agentmetricsprocessor/utils_split_read_write.go:106-130 | The points of each direction in order with only the label `direction` removed; an error if and only if a point has neither direction |
| SplitReadWrite.SplitReadWriteBytesMetric | components/otelopscol/processor/agentmetricsprocessor/utils_split_read_write.go:88-104 | Read and write metric with the descriptor kept, or an error exactly if the metric cannot be split |
| SplitReadWrite.HalvesAddUp | components/otelopscol/processor/agentmetricsprocessor/utils_split_read_write.go:106-130 | The two halves together have as many points as the metric |
| SplitReadWrite.HalvesRebuildPoints | components/otelopscol/processor/agentmetricsprocessor/utils_split_read_write.go:106-130 | Each point is found without its label in the half of its direction behind those of that direction before it, and with the label put back it is the original point |
| SplitReadWrite.HalfIsNoTrigger | components/otelopscol/processor/agentmetricsprocessor/utils_split_read_write.go:88-91 | The new names are system.disk.read_io and its like, none of them a name to split; the rest of the descriptor is kept |
| SplitReadWrite.SplitScope | components/otelopscol/processor/agentmetricsprocessor/utils_split_read_write.go:55-76 | The loop that overwrites and appends while it walks ends, with read halves in place and write halves appended in order up to the first error |
| SplitReadWrite.OneMorePerTrigger | components/otelopscol/processor/agentmetricsprocessor/utils_split_read_write.go:55-76 | With no error the scope grew by one metric per metric to split |
| SplitReadWrite.NoneLeftToSplit | components/otelopscol/processor/agentmetricsprocessor/utils_split_read_write.go:55-76 | With no error no metric has a name to split any more |
| SplitReadWrite.ErrorLeavesMetric | components/otelopscol/processor/agentmetricsprocessor/utils_split_read_write.go:67-70 | The metric at fault, and every one after it, is as it was |
| SplitReadWrite.SplitReadWriteBytesMetrics | components/otelopscol/processor/agentmetricsprocessor/utils_split_read_write.go:52-80 | The same over a batch; scopes after an error are untouched |
| CombineProcess.StringValue | components/otelopscol/processor/agentmetricsprocessor/utils_combine_process_metrics.go:228-249 | The first 1024 bytes of the attribute's text; an error exactly for a type that has none |
| CombineProcess.LabelOfAttribute | components/otelopscol/processor/agentmetricsprocessor/utils_combine_process_metrics.go:212-226 | The four attributes and the four labels name each other one to one |
| CombineProcess.ProcessIsNamed | components/otelopscol/processor/agentmetricsprocessor/utils_combine_process_metrics.go:212-249 | A process with four short texts is labelled pid, command, command_line and owner with those texts |
| CombineProcess.ProcessResourceExactly | components/otelopscol/processor/agentmetricsprocessor/utils_combine_process_metrics.go:106-120 | A resource is a process if and only if the name of one of its attributes starts with process. |
| CombineProcess.AppendAttributesToLabels | components/otelopscol/processor/agentmetricsprocessor/utils_combine_process_metrics.go:185-210 | In whatever order attributes are visited the labels are overlaid with the process's; an error if and only if one of the four attributes has no text, and then no other label has changed |
| CombineProcessStage.AppendNumberDataSlice | components/otelopscol/processor/agentmetricsprocessor/utils_combine_process_metrics.go:172-181 | Labels the points in place, in order |
| CombineProcessStage.Append | components/otelopscol/processor/agentmetricsprocessor/utils_combine_process_metrics.go:130-170 | The points are moved out of the metric to the end of the converted metric of its name |
| CombineProcessStage.AppendScope | components/otelopscol/processor/agentmetricsprocessor/utils_combine_process_metrics.go:90-99 | The same over one scope, up to the first error |
| CombineProcessStage.CreateProcessMetrics | components/otelopscol/processor/agentmetricsprocessor/utils_combine_process_metrics.go:74-104 | The converted metrics are those of all process metrics of the batch in order; on an error what was walked before has lost its points, the metric at fault may be relabelled, the rest is as it was |
| CombineProcessStage.OtherMetrics | components/otelopscol/processor/agentmetricsprocessor/utils_combine_process_metrics.go:81-87 | The resources without a process attribute, in order |
| CombineProcessStage.Listed | components/otelopscol/processor/agentmetricsprocessor/utils_combine_process_metrics.go:63-66 | One metric per name, in whatever order Go's map yields them |
| CombineProcessStage.CombineProcessMetrics | components/otelopscol/processor/agentmetricsprocessor/utils_combine_process_metrics.go:52-72 | On success only the other resources are left, all unchanged except that the first scope of the first got the combined metrics; with no such scope it panics |
| CombineProcessStage.BlockOfProcess | components/otelopscol/processor/agentmetricsprocessor/utils_combine_process_metrics.go:159-181 | In the combined metric each process metric's points are one block, labelled with its own process, behind the blocks of those before it |
| CombineProcessStage.DescribedAsFirst | components/otelopscol/processor/agentmetricsprocessor/utils_combine_process_metrics.go:137-149 | A combined metric is described as the first process metric of its name: name, description, unit, type, monotonicity and temporality |
| CombineProcessStage.CombinedCount | components/otelopscol/processor/agentmetricsprocessor/utils_combine_process_metrics.go:159-181 | No point is added or lost in combining |
| CombineProcessStage.LabelsOfProcess | components/otelopscol/processor/agentmetricsprocessor/utils_combine_process_metrics.go:185-249 | A combined point keeps value, timestamps and other labels, and has exactly the labels its process has attributes for, each with the first 1024 bytes of the text |
| CombineProcessErrors.BatchLoses | components/otelopscol/processor/agentmetricsprocessor/utils_combine_process_metrics.go:52-104 | A batch loses exactly the points that were moved into converted metrics before the walk ended |
| CombineProcessErrors.FailsExactly | components/otelopscol/processor/agentmetricsprocessor/utils_combine_process_metrics.go:74-104 | The combination fails if and only if, on the walk over the process metrics handed in, a metric with points whose process has no text for one of the four attributes comes before any clash of types |
| CombineProcessErrors.ErrorKeepsPointsExactly | components/otelopscol/processor/agentmetricsprocessor/utils_combine_process_metrics.go:52-104 | A failed combination leaves the batch all its points if and only if the first process metric that has any belongs to a process that cannot be labelled |
| CombineProcessErrors.PointsAreLost | components/otelopscol/processor/agentmetricsprocessor/utils_combine_process_metrics.go:52-104 | A concrete batch of two processes that loses a point |
| AgentStages.ForEachMetric | components/otelopscol/processor/agentmetricsprocessor/utils_clean_cpu_number.go:24-64 | The walk shared by the stages that rewrite one metric at a time: every metric is rewritten once, in place |
| AgentStages.RemoveVersionAttribute | components/otelopscol/processor/agentmetricsprocessor/utils_remove_version_attribute.go:21-44 | No point keeps `service_version`; a metric without number data points makes it panic |
| AgentStages.ToGauge | components/otelopscol/processor/agentmetricsprocessor/utils_convert_non_monotonic_sums.go:24-60 | A metric is a Sum afterwards if and only if it was a monotonic one; points, name, description and unit are kept |
| AgentStages.OneLabelEach | components/otelopscol/processor/agentmetricsprocessor/utils_clean_cpu_number.go:24-72 | The three label stages change one label each, of no point its value or times, and no descriptor: the version is gone, the label cpu has lost its prefix, and the label `blank` is empty on every point of the metrics configured and untouched on the others |
| AgentStages.CpuNumberOf | components/otelopscol/processor/agentmetricsprocessor/utils_clean_cpu_number.go:66-72 | The label cpu loses its prefix "cpu" and nothing else |
| AgentStages.FirstStagesClean | components/otelopscol/processor/agentmetricsprocessor/agentmetricsprocessor.go:59-60 | After the first two stages every Sum is monotonic and no point has a version |
| AgentStages.SplitKeepsClean | components/otelopscol/processor/agentmetricsprocessor/agentmetricsprocessor.go:67-69 | The split keeps that |
| AgentStages.CombinedIsClean | components/otelopscol/processor/agentmetricsprocessor/agentmetricsprocessor.go:63-65 | A successful combination keeps that |
| AgentStages.BatchLeftIsClean | components/otelopscol/processor/agentmetricsprocessor/agentmetricsprocessor.go:63-65 | So does one that failed halfway |
| AgentMetrics.ScopeAppendedIsClean | components/otelopscol/processor/agentmetricsprocessor/agentmetricsprocessor.go:71-73 | Appended utilization metrics are clean if the scope was |
| AgentMetrics.AveragedIsClean | components/otelopscol/processor/agentmetricsprocessor/agentmetricsprocessor.go:79-81 | So are appended average time metrics, although their points may stem from an earlier batch |
| AgentMetrics.AfterScopesIsClean | components/otelopscol/processor/agentmetricsprocessor/agentmetricsprocessor.go:79-81 | No time point kept from one batch to the next has a version: the state invariant this rests on |
| AgentMetrics.Processor.ProcessMetrics | components/otelopscol/processor/agentmetricsprocessor/agentmetricsprocessor.go:58-93 | Main result. The stages run in their order on what the one before left, errors are collected and later stages still run; afterwards no Sum is non-monotonic, no point has a version, every point of a configured metric, appended ones too, carries an empty `blank`. The resources are those of the batch handed in, up to the combination, and those it leaves afterwards. A crash is always one of four stages' panics on what the stages before it left of this batch |
| AgentMetricsRuns.Run | components/otelopscol/processor/agentmetricsprocessor/agentmetricsprocessor.go:58-93 | Main result. Over any calls of one processor each call runs all stages on its batch, with the CPU times and disk data that exactly the calls before it left behind, until one panics; every batch returned meets the postcondition. If all batches are supported ones, none panics and all are returned |
| AgentSupportStages.SupportedNeverPanics | components/otelopscol/processor/agentmetricsprocessor/agentmetricsprocessor.go:58-93 | Main result. No stage panics on a batch of Sums and Gauges with CPU time and disk metrics as labelled monotonic Sums, in each scope both disk metrics of a key or none, of processes no disk operations and one type per name, and a first resource that is no process, with a scope, as long as every disk key remembered has a time point |
| AgentSupportStages.SupportedStaysTimed | components/otelopscol/processor/agentmetricsprocessor/agentmetricsprocessor.go:58-93 | Such a call leaves a time point for every disk key remembered again |
| AgentSupport.HostBatchIsSupported | components/otelopscol/processor/agentmetricsprocessor/agentmetricsprocessor.go:58-93 | A host's CPU time and disk metrics with the same devices and directions are such a batch |
| AgentSupport.SmallBatchIsSupported | components/otelopscol/processor/agentmetricsprocessor/agentmetricsprocessor.go:58-93 | A concrete such batch: one disk read in one direction and the idle time of one CPU |
| AgentSupport.CombinePanicsNever | components/otelopscol/processor/agentmetricsprocessor/utils_combine_process_metrics.go:52-104 | The combination does not panic on what the first two stages leave of such a batch |
| AgentSupport.CombineStepIsGood | components/otelopscol/processor/agentmetricsprocessor/utils_combine_process_metrics.go:52-104 | The combination, failed or not, leaves what the later stages need |
| AgentSupportStages.ScopesNeverPanic | components/otelopscol/processor/agentmetricsprocessor/utils_calculate_utilizations.go:47-73 | The utilization stage does not panic if CPU time is a Sum and every point has some label of its own |
| AgentSupportStages.DiskNeverPanics | components/otelopscol/processor/agentmetricsprocessor/utils_calculate_average_disk.go:26-105 | The average disk stage does not panic if each scope has both disk metrics of a key or none |
| AgentMetricsRuns.UnsupportedCrashes | components/otelopscol/processor/agentmetricsprocessor/agentmetricsprocessor.go:58-93 | If a call panics, some batch handed in so far was not a supported one |
| AgentMetricsRuns.RemembersOverCalls | components/otelopscol/processor/agentmetricsprocessor/agentmetricsprocessor.go:71-73 | The CPU times a call finds are those of the last CPU time metric that succeeded in any call before, whatever failed |
| AgentMetricsRuns.RunReportsShares | components/otelopscol/processor/agentmetricsprocessor/agentmetricsprocessor.go:71-73 | Main result. In any call of any run a CPU time metric walked without an error has, in its scope, a utilization metric with the shares of what the raw values grew by since the last CPU time metric that succeeded in any call |
| AgentMetricsRuns.ReportsTheSeries | components/otelopscol/processor/agentmetricsprocessor/agentmetricsprocessor.go:79-81 | What the calls append for a disk key, read off the scopes they leave, is the key's series over all scopes of all calls |
| AgentMetricsRuns.RunReturnsClosedForm | components/otelopscol/processor/agentmetricsprocessor/agentmetricsprocessor.go:79-87 | Main result. In the batches that the calls return, for a key that always comes with both disk metrics, nothing is appended on first sight and then one point each time: the operation time point with the closed form over all observations so far as value, changed by later stages in the label `blank` only |
| AgentMetricsRuns.RunReturnsRawAverages | components/otelopscol/processor/agentmetricsprocessor/agentmetricsprocessor.go:79-87 | Main result. In the batches returned, from one point of such a key to the next, the added value times the new operations times 10^9 is the new busy time times the new nanoseconds of the raw readings, and nothing is added without new operations |
| AgentMetricsRuns.RunReportsClosedForm | components/otelopscol/processor/agentmetricsprocessor/agentmetricsprocessor.go:79-81 | The same of what the average disk stage leaves in each call |
| AgentMetricsRuns.ReturnedAreReported | components/otelopscol/processor/agentmetricsprocessor/agentmetricsprocessor.go:79-87 | For every key, what the returned batches hold of the metrics appended for it is what that stage appended, but for the label `blank` |
| AgentMetrics.Processor.constructor | components/otelopscol/processor/agentmetricsprocessor/agentmetricsprocessor.go:46-52 | A new processor remembers nothing |

## Left out

- Freshness of a DCGM scrape: the select may deliver the snapshot it has before it takes the trigger, so nothing says that a scrape sees data collected after it began. Nor is an immediate end on cancellation claimed.
- `float64` is `real`: rounding, signed zero and infinities as inputs are not modelled. A division by a zero sum yields `NonFinite`, which no later stage computes with. Conversion of an out-of-range float to int64 follows amd64.
- `pdatautil.MapHash` is an injective key, so two label sets with equal hashes are not considered.
- NormalizeSums.EmittedIsRebased: a series is one value type throughout; across types the accessors read 0, and values of the two types are not compared.
- NormalizeSums.Processor.ProcessMetric: the README of that processor promises that all sums with an unset start time are normalized. The code looks at the first point only, and at monotonic sums only; the model follows the code, and `UnsetStartsExactly` says when the promise is kept. A timestamp of 0, which stands for an unset one, is excluded there.
- LabelKeys.OtherLabelsAsKey: requires at least as many labels as exclusions, because the source panics on a slice of negative capacity otherwise. Its caller models that panic.
- A panic ends the collector, so a call that panics promises nothing about the batch or the state it leaves. Any use of a pdata object that is not there (a missing attribute's value, the points of a Sum asked of a Gauge, the time of an unset data point) counts as a panic; pdata's own documentation says no more than that it may be one.
- AverageDiskStage.DiskOps.AppendToScope: of a data point that was never set, the numeric accessors read 0, while copying it or asking for its timestamp panics; pdata itself is not part of this model.
- The agent metrics stages walk resources, scopes and metrics in three nested loops; the model walks the scopes of all resources in the same order in one loop, on values, and stores them in the batch at the end of a stage. Aliasing between the slices of one batch is not captured.
- Attributes are maps: the order `Range` visits them in is arbitrary, where pdata keeps the order of insertion. A `char` stands for one byte.
- DcgmClient.Client.Collect: the nested maps by device and field are one map keyed by both; values polled, lookups of devices and DCGM's sentinel values are inputs. Warnings and the counters that limit them are not modelled.
- ScraperProtocol.RunsAreSound: goroutines interleave at channel operations and at calls to DCGM; fairness of the scheduler is not modelled, so `WaitingScrapeIsServed` says what is always possible and that every step gets closer, not that steps are taken.
- AggregatingBuffer.MetricsBuilder.EmitForResource: the sixteen generated buffers are a sequence of buffers, and slice capacities are not modelled. Which attributes are enabled is a projection of the recorded point.
- StatusReporting.Exporter.PushReportRequest: logging, debug headers and error counters are not modelled; a Report call's answer and its time are inputs.
- `filterSupportedFields` and `discoverRequestedFields`: configuration filters, without state.
- Zone picker, gRPC, HTTP and OAuth clients, credentials, YAML and templates, file copying and command lines: plumbing around the above.
- Histogram translation in the service control exporter, severity tables, HTTP request parsing, mongodb and varnish recording, generated configuration checks: long but flat.
- The mongodb generated metrics file: made from the same template as the DCGM one.
- The name after a bump is written into a YAML file; `UpdateDistributionSpecFile` is not part of this model.
