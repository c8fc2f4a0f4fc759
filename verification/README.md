# kit4go, verified core

A Dafny model of the stateful packages and the algorithms of kit4go whose behaviour is hardest
to see from the code, with proofs over every input, every interleaving and every reachable
state. `dafny verify dfyconfig.toml` checks all of it.

| file | package | form |
|---|---|---|
| `Adaptive.dfy`, `AdaptiveProgress.dfy`, `AdaptiveCalls.dfy`, `AdaptiveScaling.dfy` | `adaptive` | step system: one program point per goroutine, one lock, check or channel operation per step; then schedules that finish every call, what the answers mean, and why the pool scales |
| `Batcher.dfy`, `BatcherProgress.dfy`, `BatcherCalls.dfy` | `batcher` | step system, buffered and unbuffered channel; then schedules that finish every call, what the answers mean, and why a batch is handed over |
| `Breaker.dfy`, `BreakerRuns.dfy`, `BreakerOpens.dfy` | `breaker` | a class over the ring arrays, proved against a log of calls; then runs of overlapping calls, and which calls are let in |
| `Latency.dfy`, `LatencyShards.dfy`, `LatencyQuantile.dfy`, `LatencyReads.dfy` | `latency` | classes over the ring, proved against a log of samples; then sharding, the quantile rule, and the reads end to end |
| `Limiter.dfy`, `LimiterWhole.dfy`, `LimiterCalls.dfy`, `LeakyRuns.dfy`, `LeakyCalls.dfy`, `LeakyTime.dfy` | `limiter` | both limiters as classes; the loops of both as step systems at load/CAS grain; truncation to whole nanoseconds; what the answers mean |
| `Freqcap.dfy`, `FreqcapRuns.dfy`, `FreqcapExact.dfy` | `freqcap` | a class over the backing arrays that trimming shifts in place; then runs of calls, and exactly when they count right |
| `Idempotency.dfy`, `IdempotencyRuns.dfy`, `IdempotencyServes.dfy` | `idempotency` | a class for the locked sections and eviction; then a step system of Do calls, and what is served from the cache |
| `Auction.dfy` | `auction` | the two resolvers, proved against ranks |
| `ConsistentHash.dfy` | `consistenthash` | a class; ownership as first argmax |
| `Ipv6.dfy`, `Ipv6Canonical.dfy` | `ip` | the printer, a reader written from RFC 4291 alone, and the canonical form of RFC 5952 |
| `Interval.dfy` | `interval` | merging, against sets of points |
| `Decimal.dfy`, `DecimalText.dfy` | `decimal` | text form, reading, rescaling; then which of all texts the text form is |
| `Threads.dfy`, `Sets.dfy`, `Arith.dfy` | | shared lemmas |

## How the parts are modelled

Step systems keep their threads in a map from thread number to program point; a run is a
sequence of states in which each is one step of some thread after the one before, in any
order. Counters such as an RWMutex's readers or a wait group are tied to the number of threads
at the points that hold them. Where a step system and a class model the same operation, the
class methods are proved against the functions or relations that the steps use.

Clocks, schedulers, contexts, map iteration order, the choice among ready channel operations
and the caller's functions are arbitrary: they are parameters or choices of a step. Rates,
ranks and interpolation use exact reals.

## Where the code and its description differ

- `batcher`: an Add that answers true is said to be flushed. An Add that passed the done check
  before Close and sends after the last write lock is not (`Batcher.LateAddIsStranded`); the
  exact condition is `Batcher.FlushedIffSentBeforeLock`, and what a caller can rely on is
  `Batcher.AddBeforeCloseIsFlushed`.
- `breaker`: MaxRequests of 2^31 or more becomes negative in int32, an epoch then has one slot
  and success can never reach the mark (`BreakerRuns.RecoversIff`; a run that ends stuck is
  `BreakerRuns.WideIsStuck`).
- `decimal`: the guard against a doubled sign misses one behind a leading point
  (`Decimal.DoubledSignAccepted`), and a point without any digit is taken for zero although a
  bare sign is refused (`Decimal.BarePointAccepted`); Parse accepts numerals and nothing else
  for all other texts (`Decimal.NumeralsOnly`).
- `freqcap`: Count is said to return the events in the window, and Allow to refuse only when
  the cap would be exceeded. Once an eviction scan has shifted a slice, Count can return more
  and Allow can refuse a key under its cap (`FreqcapRuns.CountCanExceed`). The exact conditions
  are `FreqcapExact.CountExactIff`, `FreqcapExact.RefusedIff` and
  `FreqcapExact.UnderCapRefusedIff`; the cap itself always holds (`FreqcapRuns.CapHolds`).
- `latency`: q <= 0 is said to return the minimum and q >= 1 the maximum; the code interpolates
  within the first and the last used bucket (`LatencyReads.EndsAreNotExtremes`). The exact
  conditions are `LatencyReads.MinimumIff` and `LatencyReads.MaximumIff`.
- `limiter`: a leaky bucket is said to deny what would overflow its burst, while it drains at a
  steady rate. Its level and its last time are swapped one after the other, so two overlapping
  calls can both drain for the same time and both be admitted (`LeakyRuns.TwoAdmitted`). The bound
  holds exactly for calls that do not overlap (`LeakyRuns.BoundIff`). A call that lost a race keeps
  its older reading, and can then move the last time back (`LeakyTime.LastGoesBack`); exactly when
  this cannot happen is `LeakyTime.ForwardIff`.
- `limiter`: GCRA is said to advance by one emission interval per token. It advances by whole
  nanoseconds, so with any other interval a token costs too little and the rate is exceeded
  (`LimiterWhole.Overfed`). The bound holds exactly for whole intervals
  (`LimiterWhole.WholeBoundIff`), and then under any contention.

## Model

| member | source | states |
|---|---|---|
| `Adaptive.RunsKeepInv` | adaptive/adaptive.go:238-477 | In every interleaving of Submit, TrySubmit, autoscale, grow, shrink, worker and Close steps: the lock and wait-group counters equal the threads that hold them, every accepted job is in exactly one of queue, worker hand or run log, in order of acceptance, and every submitter told nil or true has its own accepted job |
| `Adaptive.NeverTwice` | adaptive/adaptive.go:315-352 | At every moment of every run the work function was called with accepted jobs only and with none of them twice; the worker count stays between 0 and MaxWorkers |
| `Adaptive.CloseDelivers` | adaptive/adaptive.go:459-477 | Once any Close has returned, at that moment and ever after, the jobs run are the accepted jobs as a multiset, every job that a submitter was told is accepted has run, and nothing more is accepted |
| `AdaptiveProgress.CloseReturns` | adaptive/adaptive.go:459-477 | From the last state of every run, every pending Close can be brought to its return by steps of the threads that are there, without any new call |
| `AdaptiveProgress.ScalerGoes` | adaptive/adaptive.go:238-275 | After done the autoscaler ends from wherever it is, a grow in progress included |
| `AdaptiveProgress.WorkersGo` | adaptive/adaptive.go:315-337 | After done and without the autoscaler all workers end, the queue drained, and the wait group is at zero |
| `AdaptiveProgress.ReadersGo` | adaptive/adaptive.go:394-429 | After done every Submit and TrySubmit that holds the read lock gives it up |
| `AdaptiveProgress.WriterGoes` | adaptive/adaptive.go:459-477 | A closer that holds the write lock drains the queue, lets the lock go and returns |
| `AdaptiveProgress.SubmitReturns` | adaptive/adaptive.go:394-429 | From the last state of every run, every pending Submit and TrySubmit can be brought to its return without any new call; while the pool is not closed and the queue has room, to an accepted job; the context has to end a Submit only while the queue is full |
| `Adaptive.DrainSeals` | adaptive/adaptive.go:394-401 | A closer that finds the queue empty under the write lock knows that all accepted jobs have run, also when shrinking left no worker |
| `Adaptive.TicketsPermute` | adaptive/adaptive.go:315-352 | Run-log tickets that name every accepted position once are a reordering of the accepted jobs |
| `Adaptive.AcceptedFixed` | adaptive/adaptive.go:394-429 | After a Close has returned no step of any thread adds an accepted job |
| `AdaptiveCalls.AnswersMean` | adaptive/adaptive.go:394-429 | Every answer in every run, by the states since its call: ErrClosed only with closed set, and always when it was set at the call; ErrFull only to TrySubmit with a moment of the call at which the queue was full and done not set; a context error only to Submit; an accepted job was sent during the call |
| `AdaptiveCalls.ClosedRefuses` | adaptive/adaptive.go:394-429 | A call that starts when closed is set or a Close has returned gets no receipt and can end with ErrClosed only |
| `AdaptiveCalls.CallStarts` | adaptive/adaptive.go:394-429 | Every producer in every state of a run has the step at which its call started, with its job |
| `AdaptiveScaling.ShrinkMeans` | adaptive/adaptive.go:238-306 | In every run a stop channel is closed only when the last sample was over the target, done was not set at a later look, and the count was above MinWorkers at one; it is the channel registered last |
| `AdaptiveScaling.GrowMeans` | adaptive/adaptive.go:238-293 | In every run a channel is registered only when the last sample was under the target and a later look found fewer than MaxWorkers and jobs in the queue; the channel is new |
| `AdaptiveScaling.ScalerStays` | adaptive/adaptive.go:238-275 | Until done the autoscaler has not left its loop, in every state of every run |
| `AdaptiveScaling.RunsKeepRegistry` | adaptive/adaptive.go:283-306 | In every state of every run no stop channel is registered or closed twice, workers do not share one, and until done every channel not closed has its worker in the loop or about to start |
| `AdaptiveScaling.WorkerLeaves` | adaptive/adaptive.go:315-352 | A worker that has left its loop for good had its stop channel closed, or found the queue empty after done |
| `AdaptiveScaling.AtLeastRegistered` | adaptive/adaptive.go:238-306 | Until done the worker count is at least the number of channels not closed, less one that is registered and not counted yet |
| `Batcher.RunsKeepInv` | batcher/batcher.go:130-262 | Every step of Add, Flush, Close and the collector, buffered or unbuffered, keeps the order equation, the buffer bounds, the acknowledgement rule and the lock counters |
| `Batcher.SendOrderKept` | batcher/batcher.go:202-262 | At every moment flushed batches concatenated, then the pending buffers, then the channel equal the accepted items in send order; batches hold 1 to maxSize items; the Add calls that sent own the places of the send order one to one, each with its own item |
| `Batcher.FlushCovers` | batcher/batcher.go:152-163 | A Flush that returned through its acknowledgement: all items sent before the call were flushed, in order |
| `Batcher.CloseCovers` | batcher/batcher.go:173-199 | When a Close returns, all items sent before it took the write lock were flushed exactly once, in order |
| `Batcher.FlushedIffSentBeforeLock` | batcher/batcher.go:130-148 | After the last write lock is released an accepted item is flushed if and only if it was sent before that lock was taken |
| `Batcher.AddBeforeCloseIsFlushed` | batcher/batcher.go:130-199 | An Add that answered true before a Close was called has its item flushed, in its place, when that Close has returned |
| `Batcher.LateAddIsStranded` | batcher/batcher.go:133-141 | A run in which Add answers true and its item is not flushed when that run's Close has returned, because the done check precedes the read lock |
| `BatcherCalls.AddMeans` | batcher/batcher.go:130-148 | Every answer of Add in every run: true means that done was not set at the call and that the item was sent since, in its place; false means that done is set |
| `BatcherCalls.AddAfterClose` | batcher/batcher.go:128-148 | An Add called when done is set sends nothing and can answer false only |
| `BatcherCalls.StrandedEarly` | batcher/batcher.go:130-199 | After a Close has released the lock, every item not flushed is that of an Add called before done was set |
| `BatcherCalls.FlushMeans` | batcher/batcher.go:152-163 | Every Flush of every run: acknowledged, all that was sent when it was called is flushed, in order; otherwise done is set |
| `BatcherCalls.ShortBatch` | batcher/batcher.go:186-262 | Every batch handed over in every run has exactly maxSize items, or the ticker fired, or the channel had been found empty, with nothing received since, for a Flush or after done |
| `BatcherCalls.TickFlushes` | batcher/batcher.go:206-244 | Once a tick is served all that the collector had buffered is flushed, behind what was flushed before |
| `BatcherCalls.CollectorDrains` | batcher/batcher.go:230-240 | When the collector has stopped, all that was sent before it found the channel empty, after done, is flushed |
| `BatcherCalls.SelectHasRoom` | batcher/batcher.go:214-219 | The collector at its select never holds a full buffer |
| `BatcherProgress.CloseReturns` | batcher/batcher.go:173-199 | From the last state of every run, every pending Close can be brought to its return by steps of the threads that are there, without any new call |
| `BatcherProgress.FlushReturns` | batcher/batcher.go:152-163 | From the last state of every run, every pending Flush can be brought to its end without any new call; while done is not set it ends with its acknowledgement |
| `BatcherProgress.RunsHear` | batcher/batcher.go:152-163 | In every state of every run the request of a waiting Flush is in the channel, with the collector or acknowledged |
| `BatcherProgress.AddReturns` | batcher/batcher.go:130-148 | From the last state of every run, every pending Add can be brought to its return without any new call, buffered or not: with true while done is not set, with false after |
| `Breaker.Breaker.constructor` | breaker/breaker.go:128-143 | A new breaker is closed, with an empty log and a ring that agrees with it |
| `Breaker.Breaker.Advance` | breaker/breaker.go:475-502 | For any clock reading, backward ones included, the ring and the running sums still equal counts over the log in the window that ends at the new base; the log does not change |
| `Breaker.Breaker.Expire` | breaker/breaker.go:483-493 | A jump of a whole window or more: the cleared ring and sums equal the counts over the unchanged log |
| `Breaker.Breaker.RecordWindow` | breaker/breaker.go:378-398 | The log grows by the call, charged to the newest second, and ring and sums follow |
| `Breaker.Breaker.Charge` | breaker/breaker.go:390-397 | One bucket and the sums take the call |
| `Breaker.Breaker.MaybeTrip` | breaker/breaker.go:402-424 | The state becomes Open exactly as the log in the window says |
| `Breaker.Breaker.BeforeCall` | breaker/breaker.go:269-295 | The admission decision and the state after it, for every state of the breaker |
| `Breaker.Breaker.ToHalfOpenOrReject` | breaker/breaker.go:301-327 | In any state: an Open state past its expiry starts a new epoch with one slot taken, before it the call is rejected; a caller that finds HalfOpen takes a free slot or is rejected, one that finds Closed is rejected |
| `Breaker.Breaker.RecordSuccess` | breaker/breaker.go:331-349 | A probe of the current epoch counts and may close the breaker; one of another epoch changes no half-open counter |
| `Breaker.Breaker.RecordFailure` | breaker/breaker.go:352-372 | A failing probe of the current epoch reopens; a failure in Closed is logged and may trip; others change nothing |
| `Breaker.Breaker.ToOpen` | breaker/breaker.go:437-445 | Open until now plus the open duration |
| `Breaker.Breaker.ToClosed` | breaker/breaker.go:450-468 | Closed with an empty log and a zeroed ring |
| `Breaker.Roll` | breaker/breaker.go:475-502 | Moving the window on by one second takes out of a count exactly the calls of the second that falls out |
| `Breaker.RollAll` | breaker/breaker.go:475-502 | The same for all slots and both counts of the ring |
| `Breaker.ExpireAll` | breaker/breaker.go:483-493 | A jump of a whole window or more leaves every count at zero |
| `Breaker.TallySplit` | breaker/breaker.go:378-398 | The count over the window is the sum over the slots of the ring |
| `BreakerRuns.RunsKeepInv` | breaker/breaker.go:191-372 | Every arrival and every ending of an overlapping call, with any outcome and any clock, keeps the epoch accounting |
| `BreakerRuns.SlotsAddUp` | breaker/breaker.go:301-372 | In every reachable half-open state the slots taken are this epoch's successes plus the in-flight calls of the epoch, at most MaxRequests, successes below it; so there is a free slot or a probe in flight |
| `BreakerRuns.HalfOpenStep` | breaker/breaker.go:301-372 | One step of a half-open breaker: it closes exactly when MaxRequests probes admitted in this epoch have succeeded, reopens exactly on a failure of this epoch, and a call of an earlier epoch changes neither state nor counters |
| `BreakerRuns.LogIsEndings` | breaker/breaker.go:378-398 | In every run the log behind the ring is the ends of calls recorded since the last recovery, each charged to the newest second read by then |
| `BreakerRuns.TripsExactly` | breaker/breaker.go:402-433 | In every run a closed breaker opens exactly on a recorded failure after which the ends of calls since the last recovery, in the window that ends at the newest second read, meet MinRequests and FailRate |
| `BreakerRuns.RecoversIff` | breaker/breaker.go:301-349 | A reachable half-open breaker can close again if and only if MaxRequests fits an int32 |
| `BreakerRuns.WideIsStuck` | breaker/breaker.go:269-349 | MaxRequests 2^31: a run to a half-open breaker whose only probe succeeded, with nothing in flight, that never changes again |
| `BreakerRuns.RecoverySteps` | breaker/breaker.go:331-349 | Steps that close it when MaxRequests fits |
| `BreakerRuns.OneProbeOnly` | breaker/breaker.go:269-295 | With int32(MaxRequests) negative an epoch gives one slot only |
| `BreakerRuns.StaysOpen` | breaker/breaker.go:331-349 | and then no run closes the breaker again |
| `BreakerOpens.OpenUntil` | breaker/breaker.go:269-327 | From the step that opens the breaker, by a trip or a failed probe, until the state changes: for OpenDuration after the reading of that step every call is rejected without a trace; from then on the first call is let in as the probe of a new epoch; ends of calls change nothing |
| `BreakerOpens.OpeningIs` | breaker/breaker.go:428-445 | Only the end of a call opens the breaker, and the expiry is its own reading plus OpenDuration |
| `BreakerOpens.LetInIff` | breaker/breaker.go:269-327 | In every reachable state: a closed breaker lets every call in; a half-open one lets a call in if and only if fewer than MaxRequests were admitted in its epoch and MaxRequests fits an int32; a rejected call leaves no trace |
| `Latency.ValidBoundaries` | latency/buckets.go:63-76 | True exactly for non-empty, positive, strictly ascending bounds |
| `Latency.BucketIndex` | latency/buckets.go:41-49 | The first bound not below the value, clamped to the last bucket |
| `Latency.Histogram.constructor` | latency/histogram.go:75-98 | A new histogram has an empty log and an empty ring |
| `Latency.Histogram.Observe` | latency/histogram.go:102-136 | The sample is logged at the newest second and the ring equals recomputation over the log |
| `Latency.Histogram.Advance` | latency/histogram.go:215-235 | For any reading the ring equals recomputation over the log in the window that ends at the new base |
| `Latency.Histogram.RollOne` | latency/histogram.go:231-234 | One second on, one slot zeroed |
| `Latency.Histogram.ZeroBucket` | latency/histogram.go:240-249 | One slot empty, the others untouched |
| `Latency.Histogram.Clear` | latency/histogram.go:224-230 | All slots empty |
| `Latency.Histogram.Charge` | latency/histogram.go:118-134 | One slot takes one sample: counts, sum, min and max |
| `Latency.Histogram.FoldLocked` | latency/histogram.go:190-210 | Total, sum, min, max and bucket counts of the window, recomputed from the log |
| `Latency.RollKeeps` | latency/histogram.go:215-235 | A zeroed slot and a later base describe the log |
| `Latency.ExpireKeeps` | latency/histogram.go:224-230 | A cleared ring describes the log after a jump of a window or more |
| `Latency.ChargeKeeps` | latency/histogram.go:102-136 | A charged slot describes the longer log |
| `Latency.RingFolds` | latency/histogram.go:190-210 | Merging the slots of the ring gives the summary of the samples in the window |
| `Latency.MergeLaws` | latency/histogram.go:190-210 | Merging summaries is associative and commutative with a unit |
| `Latency.SplitSamples` | latency/histogram.go:190-210 | The summary of samples split in two parts is the merge of the parts |
| `LatencyShards.ShardHistogram.constructor` | latency/shard.go:38-54 | n separate empty histograms over the same bounds and window |
| `LatencyShards.ShardHistogram.Observe` | latency/shard.go:59-62 | One shard, next in the wrapping round, takes the sample and the others do not change |
| `LatencyShards.ShardHistogram.FoldShard` | latency/shard.go:108-110 | One shard rolls on to the reading and its figures are added; the other shards do not change |
| `LatencyShards.ShardHistogram.FoldAll` | latency/shard.go:105-122 | Total, sum, min, max and bucket counts are those of the merge of what every shard shows at the reading |
| `LatencyShards.ShardsAgree` | latency/shard.go:59-122 | With a clock that does not go back, any number of shards under any assignment of samples give the summary of one histogram fed all samples, and both equal recomputation over the samples of the last windowSec seconds |
| `LatencyShards.PartsMerge` | latency/shard.go:105-122 | Summaries of the samples of shard after shard merge into the summary of the first k shards |
| `LatencyQuantile.SummaryDescribes` | latency/histogram.go:190-210 | A summary holds the number, sum, minimum, maximum and per-bucket counts of the sample values themselves |
| `LatencyQuantile.QuantileFromMerged` | latency/histogram.go:254-283 | The value interpolated in the bucket where the cumulative counts reach rank ceil(q*total) |
| `LatencyQuantile.RankBucket` | latency/histogram.go:254-283 | That bucket holds the sample of this rank in sorted order |
| `LatencyQuantile.QuantileInBucket` | latency/histogram.go:254-283 | The value of the rule lies within the bounds of the bucket that holds the exact order statistic |
| `LatencyReads.Quantile` | latency/histogram.go:141-156 | Histogram.Quantile returns a value within the bounds of the bucket that holds the sample of rank ceil(q*n), q clamped to [0, 1], in the order of the n samples of the window; 0 without samples |
| `LatencyReads.ShardQuantile` | latency/shard.go:65-76 | The same for the samples in the windows of all shards |
| `LatencyReads.QuantilesAgree` | latency/shard.go:65-76 | With a clock that does not go back the shards and a single histogram fed all samples return the same quantile for every q, and it is that of the samples of the last windowSec seconds |
| `LatencyReads.Snapshot` | latency/histogram.go:161-185 | Number, minimum, maximum and truncated mean of the samples in the window, and the four percentiles, each in the bucket of the sample of its rank; all zero without samples |
| `LatencyReads.ShardSnapshot` | latency/shard.go:79-99 | The same for the samples in the windows of all shards |
| `LatencyReads.QuantileUnique` | latency/histogram.go:254-283 | A summary has one q-quantile |
| `LatencyReads.QuantileValue` | latency/histogram.go:254-283 | The exact value: with c samples in the bucket of the sample of rank q, the bucket is cut into c equal steps and the value is the middle of the step of that sample |
| `LatencyReads.TargetIs` | latency/histogram.go:254-283 | The rank that the rule asks for is the least one with a share of at least q of the samples at or below it, the first for q <= 0 and the last for q >= 1 |
| `LatencyReads.ShardsDescribe` | latency/shard.go:105-122 | The merged figures of the shards are those of all the samples in their windows |
| `LatencyReads.MinimumIff` | latency/histogram.go:138-156 | For q <= 0 the minimum is returned if and only if it lies (hi-lo)/(2c) above the lower bound lo of the first used bucket (lo, hi] with c samples |
| `LatencyReads.MaximumIff` | latency/histogram.go:138-156 | For q >= 1 the maximum is returned if and only if it lies (hi-lo)(2c-1)/(2c) above the lower bound of the last used bucket |
| `LatencyReads.EndsAreNotExtremes` | latency/histogram.go:138-156 | One sample of 100 in the bucket up to 1000: q <= 0 and q >= 1 both give 500 |
| `LatencyReads.QuantilesMonotone` | latency/histogram.go:141-156 | Quantile at a larger q, clamped ones and the empty window included, is never smaller |
| `LatencyQuantile.QuantileMonotone` | latency/histogram.go:254-283 | The rule behind it: a larger q never gives a smaller value |
| `LatencyQuantile.CountsReach` | latency/histogram.go:254-283 | The cumulative counts reach every rank, so the fallback at the end is not taken |
| `LatencyQuantile.InBucketPermutes` | latency/histogram.go:190-210 | Bucket counts do not depend on the order of the samples |
| `Limiter.AdmissionBound` | limiter/gcra.go:67-90 | Concurrent callers at load/CAS grain, readings in any order: the cost admitted on readings in [a, b] is at most the burst tolerance plus b - a |
| `Limiter.TokenBound` | limiter/gcra.go:67-90 | The same in tokens, without rounding: at most burst plus rate times b - a |
| `Limiter.RunsBounded` | limiter/gcra.go:67-90 | The relation between admitted cost and TAT that gives the bound |
| `Limiter.RunsCounted` | limiter/gcra.go:67-90 | The allowed counter equals the admitted calls, the acquired counter the tokens they took, and allowed plus denied the finished calls |
| `Limiter.GcraLimiter.Acquire` | limiter/gcra.go:67-90 | Without contention: the decision and the new TAT |
| `Limiter.LeakyBucket.Acquire` | limiter/leaky_bucket.go:67-99 | Without contention: the decision, the new level and the new last time |
| `Limiter.SameDecision` | limiter/leaky_bucket.go:67-99 | From matching states the two limiters decide alike and stay matched: TAT - now is the emission interval times the water level, clamped at zero |
| `Limiter.GcraIsLeakyBucket` | limiter/leaky_bucket.go:40-99 | With exact arithmetic, equal rate and burst and a clock that does not go back, GCRA and leaky bucket give the same answer to every request of every sequence |
| `LimiterWhole.WholeBoundIff` | limiter/gcra.go:67-90 | As the code computes it, in whole nanoseconds: burst plus rate times length bounds the tokens of every window of every run if and only if the emission interval is a whole number |
| `LimiterWhole.WholeTokenBound` | limiter/gcra.go:67-90 | With a whole emission interval the bound in tokens is the one of exact arithmetic, under any contention |
| `LimiterWhole.TruncatedBound` | limiter/gcra.go:67-90 | For every emission interval: tokens times the interval are at most the tolerance, the length of the window, and one nanosecond for each request admitted in it |
| `LimiterWhole.Overfed` | limiter/gcra.go:76-78 | For every other interval a run of single tokens that exceeds the bound |
| `LimiterWhole.DecideIff` | limiter/gcra.go:67-90 | Truncation changes no decision and no TAT if and only if the emission interval is whole |
| `LimiterWhole.WholeIsLeakyBucket` | limiter/leaky_bucket.go:40-99 | With a whole emission interval the GCRA of the code and the leaky bucket give the same answers on every forward sequence |
| `LimiterCalls.DeniedIff` | limiter/gcra.go:67-90 | One request at a time, forward clock: a request is denied if and only if admitting it would put more than the tolerance plus its length into some window that ends at its reading |
| `LimiterCalls.AnswersMean` | limiter/gcra.go:67-90 | Every answer of every run of concurrent callers: yes has its admission in the log since the call; no found its tokens too many on one of its own readings, or at least two others were admitted during the call |
| `LimiterCalls.WaitFree` | limiter/gcra.go:67-90 | Every call of every run is over after at most five steps of its own, two loads and two swaps among them, whatever others do |
| `LeakyCalls.WaitFree` | limiter/leaky_bucket.go:67-99 | The same for the leaky bucket, with eight |
| `LeakyCalls.AnswersMean` | limiter/leaky_bucket.go:67-99 | The same for the leaky bucket: no found that the bucket would overflow, or at least two others were admitted during the call |
| `LeakyCalls.RunsCounted` | limiter/leaky_bucket.go:67-99 | The admissions in the log are as many as the calls told yes or about to be |
| `LeakyCalls.SoloPours` | limiter/leaky_bucket.go:67-99 | Calls that do not overlap, any clock: answer, level and last time are those of the plain bucket |
| `LeakyTime.LastMoves` | limiter/leaky_bucket.go:67-99 | lastTime is moved only by an admitted call that had loaded the value it replaces |
| `LeakyTime.LastGoesBack` | limiter/leaky_bucket.go:67-99 | For every burst of two or more: a run of two overlapping calls with a forward clock in which lastTime goes back |
| `LeakyTime.ForwardIff` | limiter/leaky_bucket.go:67-99 | With a forward clock lastTime never goes back, in all runs with at most m calls at once, if and only if m is at most 1 or the burst is 1 |
| `LeakyRuns.BoundIff` | limiter/leaky_bucket.go:67-99 | Level and last time as two swaps, with the second attempt: the bound of burst plus rate times length holds in every window of every run with a forward clock and at most m calls under way at once if and only if m is at most 1 |
| `LeakyRuns.SerialBound` | limiter/leaky_bucket.go:67-99 | Calls that do not overlap, forward clock: the tokens admitted on readings in any closed window are at most burst plus rate times its length |
| `LeakyRuns.TwoAdmitted` | limiter/leaky_bucket.go:67-99 | For every rate and burst: a run in which two overlapping calls drain for the same time, and twice the burst is admitted at one reading |
| `Freqcap.TrimBefore` | freqcap/freqcap.go:210-222 | The returned slice is the suffix from the first event not before the cutoff; the old slice then shows that suffix followed by its old tail |
| `Freqcap.CopyDown` | freqcap/freqcap.go:216-220 | copy within one array |
| `Freqcap.Append` | freqcap/freqcap.go:139-139 | append, in the spare capacity or in a larger array |
| `Freqcap.Counter.constructor` | freqcap/freqcap.go:78-102 | No key is tracked |
| `Freqcap.Counter.EvictIdle` | freqcap/freqcap.go:200-207 | In any scan order: drained keys are gone, the other keys keep their old length over shifted contents |
| `Freqcap.Counter.Allow` | freqcap/freqcap.go:115-142 | Decision and contents of all slices afterwards, over the backing arrays |
| `Freqcap.Counter.Decide` | freqcap/freqcap.go:122-141 | The same from the trimmed slice on |
| `Freqcap.Counter.Admit` | freqcap/freqcap.go:132-141 | A key that is not live is refused when the keys left by eviction reach maxKeys |
| `Freqcap.Counter.Count` | freqcap/freqcap.go:150-166 | The length of the trimmed slice; a drained key is dropped and an absent one is not created |
| `FreqcapRuns.RunsKeepInv` | freqcap/freqcap.go:115-166 | Every call, with a clock that does not go back, keeps for each key: the slice shows at least the granted events still in the window, only granted events, and at most maxEvents |
| `FreqcapRuns.CapHolds` | freqcap/freqcap.go:115-142 | No key is ever granted more than maxEvents events in any closed window |
| `FreqcapRuns.CountBounds` | freqcap/freqcap.go:150-166 | Count lies between the number of granted events in the window and maxEvents |
| `FreqcapRuns.CountCanExceed` | freqcap/freqcap.go:200-222 | Four calls after which Count says 3 with one event in the window, and Allow refuses that key, one of three, as full |
| `FreqcapExact.CountExactIff` | freqcap/freqcap.go:150-166 | Count is the number of granted events in the window if and only if no eviction scan found the key with both an expired and a live event, or all events it found then have expired; otherwise it is more; read off the calls and their answers |
| `FreqcapExact.RefusedIff` | freqcap/freqcap.go:104-142 | An event is refused if and only if Count would say maxEvents or more, or would say 0 while maxKeys keys have a granted event in the window |
| `FreqcapExact.EvictionLeavesLive` | freqcap/freqcap.go:200-207 | The keys that an eviction scan leaves are exactly the keys with a granted event in the window |
| `FreqcapExact.AllowExact` | freqcap/freqcap.go:104-142 | When nothing is left over, an event is refused if and only if the window holds maxEvents granted events, or none while maxKeys keys have a granted event in the window |
| `FreqcapExact.UnderCapRefusedIff` | freqcap/freqcap.go:104-142 | A key under its cap with an event in the window is refused if and only if Count says maxEvents, and only with something left over |
| `FreqcapExact.TrackedKeys` | freqcap/freqcap.go:115-207 | Count drops its key if and only if no granted event of it is left in the window, and touches no other key; an Allow that scans leaves exactly the keys with a granted event in the window, and its own if it is granted; another Allow leaves the tracked keys as they are |
| `FreqcapExact.RunsExact` | freqcap/freqcap.go:115-222 | Over every run: from every cutoff on a slice starts with the oldest granted event and shows the granted events exactly, or more of them, as the calls say |
| `FreqcapExact.MixedIs` | freqcap/freqcap.go:200-222 | A scan moves events in place exactly when the key has events that expired since its last touch and live ones |
| `FreqcapRuns.ShiftedLive` | freqcap/freqcap.go:200-222 | Shifting a slice in place loses no event of the window |
| `Idempotency.Cache.constructor` | idempotency/idempotency.go:76-87 | No entries |
| `Idempotency.Cache.Enter` | idempotency/idempotency.go:113-133 | Under the lock: served from cache, follower of the entry in flight, or leader of a new entry after eviction |
| `Idempotency.Cache.FinishLocked` | idempotency/idempotency.go:167-179 | Result, expiry, removal of an uncached failure, and one close of done |
| `Idempotency.Cache.EvictLocked` | idempotency/idempotency.go:215-243 | Terminates; nothing goes while the map is within its cap; otherwise the map ends within the cap or all in flight, expired entries go first, then oldest first and no more than needed, and no entry in flight goes |
| `Idempotency.Cache.DropExpired` | idempotency/idempotency.go:220-224 | Exactly the completed expired entries go |
| `Idempotency.Cache.DropOldest` | idempotency/idempotency.go:226-242 | Oldest completed entries go one by one until the map fits or none is left |
| `Idempotency.Cache.FindOldest` | idempotency/idempotency.go:227-237 | A completed entry than which none is older, if there is one |
| `IdempotencyRuns.RunsKeepInv` | idempotency/idempotency.go:113-190 | Every interleaving of Do calls, cancellations and clock ticks keeps the tie between entries, leaders, followers and results |
| `IdempotencyRuns.OneLeader` | idempotency/idempotency.go:113-161 | A key has a running leader if and only if its map entry is incomplete, and that entry is the leader's; so fn runs at most once at a time for a key |
| `IdempotencyRuns.ClosedOnce` | idempotency/idempotency.go:167-179 | done is closed exactly once for a completed entry, never before, panics included |
| `IdempotencyRuns.SameResult` | idempotency/idempotency.go:113-190 | Every call that returned without being cancelled has the result that the leader of its own entry returned, for its key |
| `IdempotencyRuns.NoFollowerHangs` | idempotency/idempotency.go:182-190 | A waiting follower can return, or its leader still runs and however fn ends the follower can then return |
| `IdempotencyRuns.NotRerunBeforeExpiry` | idempotency/idempotency.go:113-179 | Executions for one key never overlap; with unbounded entries one after a kept result starts only later than its finish plus TTL, and never when TTL is 0 |
| `IdempotencyRuns.MapBounded` | idempotency/idempotency.go:215-243 | With a cap the map never exceeds the larger of the cap and the most executions ever in flight together |
| `IdempotencyServes.ServedMeans` | idempotency/idempotency.go:113-123 | Every result served from the cache in every run is a value, or an error with caching of errors on, of the call's own key, and at the reading of the call not older than its finish plus the TTL |
| `IdempotencyServes.EnterMeans` | idempotency/idempotency.go:113-136 | In every state of every run a call waits if and only if fn runs for its key; otherwise it leads a new execution if no result of its key is kept and within its TTL, and with unbounded entries it is served while one has not expired |
| `IdempotencyServes.RunsHold` | idempotency/idempotency.go:167-179 | In every state of every run the map holds, beside executions in flight, only results that are kept, with the expiry that their finish gives |
| `Auction.Resolve` | auction/auction.go:38-65 | Refused exactly when no bid meets the floor; else the bid that no other beats wins (first among equals) and pays the best other bid or the floor |
| `Auction.ResolveMultiSlot` | auction/auction.go:71-103 | Slot k goes to the bid that exactly k bids beat, which pays the best bid it beats or the floor; no slots asked, no result |
| `Auction.OrderIsOrdered` | auction/auction.go:50-52 | The stable descending sort lists the valid positions, each beating the next |
| `Auction.RankUnique` | auction/auction.go:71-103 | A rank belongs to one bid, so each slot's result is determined |
| `Auction.OneSlot` | auction/auction.go:38-103 | Resolve equals the one-slot case of ResolveMultiSlot, refusal included |
| `Auction.PricesFall` | auction/auction.go:89-102 | Prices never increase from slot to slot, are at least the floor, and no winner pays more than it bid |
| `Auction.WinnerPays` | auction/auction.go:50-59 | The winner pays the best other bid or the floor, and bidding above that wins |
| `Auction.Truthful` | auction/auction.go:38-65 | Bidding the true value gains at least as much as any other bid, for every position, other bids, floor and ties |
| `ConsistentHash.Map.constructor` | consistenthash/consistenthash.go:61-67 | No nodes |
| `ConsistentHash.Map.Add` | consistenthash/consistenthash.go:70-74 | Nodes with new ids are appended, ids stay distinct |
| `ConsistentHash.Map.ContainsLocked` | consistenthash/consistenthash.go:199-206 | Whether a node has this id |
| `ConsistentHash.Map.Remove` | consistenthash/consistenthash.go:77-89 | The nodes with another id, in order |
| `ConsistentHash.Map.Get` | consistenthash/consistenthash.go:100-123 | The first node with the highest score |
| `ConsistentHash.Map.GetN` | consistenthash/consistenthash.go:128-165 | A best choice of min(n, nodes) nodes, best first, led by what Get returns, ties included |
| `ConsistentHash.Map.Select` | consistenthash/consistenthash.go:151-159 | Rounds of selection sort: a permutation whose front is in falling order and above the rest |
| `ConsistentHash.OwnerIs` | consistenthash/consistenthash.go:100-123 | The owner is a node of the map and no node scores higher |
| `ConsistentHash.RemoveMovesOwned` | consistenthash/consistenthash.go:77-89 | Removing a node changes Get for exactly the keys it owned |
| `ConsistentHash.AddMovesToNew` | consistenthash/consistenthash.go:213-221 | Adding nodes leaves a key or moves it onto a node that is new to the map |
| `ConsistentHash.AppendedMeans` | consistenthash/consistenthash.go:213-221 | What Add adds: nodes of the batch with ids not yet present; afterwards all ids of the batch are present |
| `ConsistentHash.GetNRepeatsGet` | consistenthash/consistenthash.go:128-165 | With distinct scores GetN is Get repeated with each answer removed |
| `Ipv6.AppendHex` | ip/base_and_util.go:60-71 | Appends the hexadecimal digits without leading zeros, for every uint32 |
| `Ipv6.HexReads` | ip/base_and_util.go:60-71 | Those digits read back as the number |
| `Ipv6.FindRun` | ip/base_and_util.go:134-152 | The leftmost longest run of zero groups if it has two groups or more (sections 4.2.2 and 4.2.3 of RFC 5952) |
| `Ipv6.ShortensOnce` | ip/base_and_util.go:134-152 | An address has one such run, so one text |
| `Ipv6.Print` | ip/base_and_util.go:157-170 | Groups with single colons and "::" for the run |
| `Ipv6.ToIPv6String` | ip/base_and_util.go:129-171 | For 16 bytes the text with that run shortened, otherwise the empty string |
| `Ipv6.RoundTrip` | ip/base_and_util.go:129-171 | Read by section 2.2 of RFC 4291 the text gives back the same 16 bytes |
| `Ipv6.TextWithReads` | ip/base_and_util.go:157-170 | Whichever zero run is shortened, the text reads back as the groups |
| `Ipv6Canonical.CanonicalIff` | ip/base_and_util.go:129-171 | A text is printed for an address if and only if it reads as the address and is canonical by section 4 of RFC 5952: lower case, no leading zeros, "::" for the leftmost longest run of two zero groups or more |
| `Interval.Union` | interval/interval.go:79-87 | Exactly the points of both, or none when there is a gap between them |
| `Interval.Intersect` | interval/interval.go:91-98 | Exactly the common points; present exactly when the intervals overlap, and when they share a point |
| `Interval.Merge` | interval/interval.go:108-135 | For whatever order the unstable sort leaves among equal starts: covers exactly the input points, sorted, with a gap between neighbours |
| `Interval.Canonical` | interval/interval.go:108-135 | Separated lists over the same points are equal |
| `Interval.MergeCanonical` | interval/interval.go:108-135 | Two inputs over the same points give identical output |
| `Interval.MergeIdempotent` | interval/interval.go:108-135 | Merging a merged list changes nothing |
| `Interval.MergeShortest` | interval/interval.go:106-135 | No list over the same points has fewer intervals |
| `Decimal.String` | decimal/decimal.go:131-154 | Sign, at least one digit, a point and exactly scale digits, by the padding loop |
| `Decimal.Pad` | decimal/decimal.go:145-148 | Leading zeros up to scale + 1 digits |
| `Decimal.Parse` | decimal/decimal.go:86-126 | Exactly which texts are accepted, the value of each, and the error of the others |
| `Decimal.NumeralsOnly` | decimal/decimal.go:86-126 | Parse accepts numerals, which have a digit, and nothing else exactly for texts that are neither a point followed by a second sign nor a bare point |
| `Decimal.BarePointAccepted` | decimal/decimal.go:100-126 | "." and "-." at scale 2 are accepted as 0.00 |
| `Decimal.DoubledSignAccepted` | decimal/decimal.go:100-105 | "-.-5" at scale 2 is accepted as 0.05 |
| `Decimal.ParseUndoesString` | decimal/decimal.go:86-154 | Parse of String at the same scale gives the value back, for every value and scale |
| `DecimalText.StringIff` | decimal/decimal.go:131-154 | Of all texts, String gives the one numeral of the value with exactly scale places, no plus sign, no minus sign on zero and no superfluous zero in front |
| `Decimal.RescaleDown` | decimal/decimal.go:270-281 | Going down by steps, or up and down again, equals going there at once: truncation toward zero for both signs |
| `Decimal.RescaleUp` | decimal/decimal.go:270-281 | Going up by steps equals going up at once |
| `Decimal.RescaleVia` | decimal/decimal.go:270-281 | A detour through another scale is harmless if and only if that scale is no smaller than one of the ends or the digits it cuts off are zeros |
| `Decimal.RescaleMeans` | decimal/decimal.go:265-281 | A negative scale changes nothing; more places keep the number; fewer cut it off toward zero |
| `Decimal.QuoTruncates` | decimal/decimal.go:229-281 | The quotient is cut off toward zero, whatever the signs |
| `Decimal.TruncatesOnce` | decimal/decimal.go:229-281 | Only one number is the quotient cut off toward zero |
| `Decimal.DivTruncates` | decimal/decimal.go:229-237 | Div truncates toward zero at the same scale and fails exactly on 0 |

## Left out

- Packages that wrap clients, do network or file work, or are probabilistic or simple folds (aerospike, kafka, bloom, hyperloglog, bitset and others): no hard claim, or one about code outside the repository.
- adaptive: MinWorkers is not a lower bound on live workers, because a shrink compares a count that lags behind the channels it has closed; the CPU monitor and the scaling policy are arbitrary choices; the preference of an RWMutex for a waiting writer; panics of the work function, which safeWork turns into a normal end.
- batcher: the ticker is an arbitrary choice; panics of the flush callback, which are recovered.
- breaker: admission with its epoch capture is one step, but that a caller may lose the lock race after seeing an expired Open state, and each record call is one step, so finer interleavings inside them are not modelled; the epoch counter does not wrap at int32; seconds are not negative; hooks and metrics.
- latency: bucket counts of a slot are values, so aliasing between slots is not modelled; the sum does not wrap at uint64; a fold of shards is one step at one clock reading.
- limiter: rounding of float64 and overflow of int64 nanoseconds; Wait, delays and metrics; the equality of the two limiters starts at or after the clock's zero.
- freqcap: Reset, Len, and clocks that go back.
- idempotency: Forget and Clear, which can delete the entry of another leader; the panic hook and counter; an entry is a place in a store, not an address.
- auction: the sort is the library's stable sort given as a function; results are values, not pointers.
- consistenthash: the hash function is arbitrary; scratch buffers; scores are recomputed instead of stored beside the nodes during selection.
- ip: IPv4 text, CIDR and lookup functions.
- interval: element types other than integers; intervals with start not below end, which New refuses.
- decimal: Add, Sub, Mul, MulDecimal, Cmp, Negate and Abs, which are one integer operation each; negative scales, which no constructor makes.
- Breaker.Breaker.Charge: counts are unbounded, so the uint32 read of the total is modelled at the trip decision only.
- Latency.Histogram.ZeroBucket: the counts of a slot are one value, so zeroing them element by element in place is one assignment.
- Limiter.LeakyBucket.Acquire: models a call without contention; the steps of overlapping calls are those of LeakyRuns.
