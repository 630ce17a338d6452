# Verified models of the parapet proxy core

This project models the parts of parapet (a Go reverse-proxy toolkit) whose correctness depends on state, order and
arithmetic, and proves what they are for:

- the **circuit breaker** of a target: an interleaving of loads and compare-and-swaps of one packed word
  (`BreakerProtocol`, `BreakerWord`), its uninterrupted operations with the exponential cooldown (`BreakerCooldown`),
  the bridge between the two (`BreakerSolo`), and its counters told from history (`BreakerHistory`);
- **smooth weighted round-robin** with a health gate (`Swrr`);
- the **least-connection** balancer: its pick (`LeastConn`) and its bulkhead under concurrency (`Bulkhead`);
- **request hedging**: the supervisor loop, its legs, bodies and contexts (`Hedging`);
- the **sliding-window** limiter and its retry advice (`SlidingWindow`, `WindowWorstCase`, `LateTakes`, `RetryAdvice`),
  the **leaky bucket** with its unlocked sleep (`LeakyBucket`), the **concurrent queue** with its unlocked channel send
  (`ConcurrentQueue`);
- the **purge table** against the full log of purges (`Purge`, `PurgeLog`, `PathPrefix`) and what it means for serving
  a stored response (`Freshness`);
- **cache keys and Vary variants** (`CacheKey`, `VaryAtRest`, `VaryNames`, `Texts`) and the **streaming tee** of a cache
  fill (`Tee`).

`Counting`, `Arithmetic` and `Targets` hold shared facts. `dafny verify dfyconfig.toml` checks everything.

## How it is built

Concurrent code is a state machine: `Apply` takes one atomic step (a load, a compare-and-swap, a critical section, a
channel operation) of one thread, a step that is not possible changes nothing, and `Run` folds any finite schedule. The
theorems quantify over all schedules. Code that updates an object is a class whose methods are proved equal to the
specification functions the machine uses. Clocks, randomness, storage failures, panics and client behaviour are inputs.

## Findings

- The back-off loop of the breaker doubles a 64-bit duration. It meets "doubled on each repeat trip, capped" for every
  base and trip count exactly when the cap is at most 2^62+1 ns; above that a third opening can cool down for 4 ns
  (`BackoffExactIff`, `OverflowCollapses`). Cooldowns never shrink from one trip to the next under the same condition
  (`NeverShrinksIff`).
- A late success of a reclaimed probe still counts towards the next half-open state, although the comment at
  pkg/upstream/circuitbreaker.go:286-288 calls its record inert and the one at :97-98 asks for consecutive half-open
  successes. Every heal takes `SuccessThreshold` successes of its own generation if and only if the threshold is 1
  (`HealsByOwnIff`, `StaleSuccessHeals`).
- The sliding window reads the clock before it takes the lock (pkg/ratelimit/slidingwindow.go:114-117), so a reading of
  an earlier window can enter after one of a later window although the clock never steps back. Every run keeps an
  aligned window within `Max` if and only if no reading enters the lock behind another (`CappedIffNoLag`); one
  nanosecond of lag admits `Max`+1 (`FlickerRun`). It is enough that windows, not instants, are in order per key
  (`RunsAreLimited`). In general each step back across a boundary costs at most one more budget, as
  pkg/ratelimit/slidingwindow.go:51-53 promises (`BudgetPerStepBack`, `WorstPerStepBack`), and can cost all but one
  request of it (`OneStepBackCosts`). The retry advice is affected alike: it is right for an item whatever its counts if
  and only if the item does not stand past the window of the reading (`RightIffNotPast`).
- The documentation of the sliding window calls its over-admission bounded and typically under 1% of `Max`. With windows
  in order, the exact worst case over all runs and all intervals of one window's length is
  `Max` + floor(`Max`*(`Size`-2)/`Size`), and `Max` for a window of 1 ns (`WorstIsBound`, `WorstIsReached`). It is
  2*`Max`-1 exactly when `Size` is at least 2*`Max` ns or `Max` is 1 (`TwiceIsTight`).
- The comment at pkg/ratelimit/slidingwindow.go:201-203 says that a wait for decay lands strictly before the boundary. It
  does if and only if the previous count is below (`Max`-curr-1)*`Size`; otherwise it lands on the boundary
  (`DecayEndsBeforeBoundaryIff`, `DecayEndsOnBoundary`), where the request is admitted all the same.
- The leaky bucket keeps its spacing under sweeps at idle age `a` exactly when the spacing is at most `a`+1 ns
  (`SpacedIffPatient`, `HastyRun`). The default cadence adds a second to `PerRequest` in 64 bits, so a default limiter
  keeps its spacing exactly for `PerRequest` below 2^63 - 10^9 ns (`DefaultKeepsSpacing`). The unexported `sweepEvery`
  can break it too, from within the package.
- A body whose inner Close panics gives its slot of the bulkhead back only if another Close of it returns
  (`SlotBackIffCloseReturned`, `LeakRun`): pkg/upstream/leastconn.go:238-259 decrement after the inner Close, without a
  defer.
- The concurrent queue's map holds exactly the keys in use if and only if `Size` is at least 1; otherwise the item of a
  refused request stays for ever (`TidyIffRoomToQueue`, `LitterRun`).
- Vary variants can mix while a place's Vary changes: a lookup between the commit of a refill and the learning of its
  Vary may read the new entry under the old names. Whatever headers and values requests can carry, this never happens if
  and only if no Vary name `n=rest` extends another Vary name `n` that a request can carry with the value `rest=`
  followed by nothing or by a value of `n=rest` (`NeverWrongIffApart`, `WrongVariantRun`). Behind a server that refuses
  `=` in header names the condition is on the names alone (`NeverWrongWhenServed`), and Vary names that are HTTP tokens
  always meet it (`TokensAreApart`).
- Without any race the mix-up needs a third name, and then lasts. When every commit is followed at once by its learning,
  behind such a server, no wrong variant is ever served if and only if no Vary name `n` without `=` has an extension
  `n=rest` among them beside another name without `=` that does not sort between the two (`NeverWrongAtRestIff`,
  `LastingMixUp`).
- The comment on `normalizePrefix` (pkg/cache/purge/purge.go:442-443) speaks of a single trailing slash; the code trims
  all of them. The model follows the code.
- The comment in pkg/cache/tee.go:130-135 says a deferred leader gets exactly what the origin produced. It gets the first
  maxFileSize bytes of it, which is all of it exactly when the body fits (`Tee.Fill`, `WholeIffFits`); a handler that
  writes past its declared length is the case in point (`Overrun`).
- pkg/ratelimit/slidingwindow.go:184-188 promises that a request at now+After is admissible. That holds for every table,
  key and instant if and only if `Max` is at least 1 (`KeepsItsWordIff`); otherwise the advice is wrong at every input,
  for known keys and unknown ones (`AdviceInVain`).

## Model

| member | source | states |
|---|---|---|
| BreakerProtocol.ProbeCapHolds | pkg/upstream/circuitbreaker.go:190-426 | after every schedule the probes field never exceeds the limit; while half-open it equals the number of outstanding probes stamped with the current generation, otherwise it is 0 and none is outstanding |
| BreakerProtocol.StaleProbeIsInert | pkg/upstream/circuitbreaker.go:309-341 | no step of a thread holding a probe of an older generation changes the word or the history |
| BreakerProtocol.EveryGenerationLeftOnce | pkg/upstream/circuitbreaker.go:376-409 | the committed edges number exactly the current generation, the i-th leaves generation i, consecutive edges chain from closed to the current state |
| BreakerProtocol.OnlyFourEdges | pkg/upstream/circuitbreaker.go:260-409 | only closed-open, open-half-open, half-open-open and half-open-closed occur; a target is closed again only by a probe stamped with that generation, tripped only by a routed failure, half-opened only by a picker |
| BreakerProtocol.ProbeSettles | pkg/upstream/circuitbreaker.go:309-341 | from any reachable state a current probe left alone re-opens on failure, closes at the threshold, and otherwise gives back exactly one slot |
| BreakerProtocol.PanickingProbeSettles | pkg/upstream/circuitbreaker.go:192-224 | a probe whose round trip panics gives back exactly its one slot, so the target cannot be wedged half-open |
| BreakerProtocol.PickerSettles | pkg/upstream/circuitbreaker.go:260-304 | an undisturbed picker is admitted when closed or when a half-open slot is free, flips an open word whose cooldown is over, and is refused when half-open and full |
| BreakerProtocol.HistoryOnlyGrows | pkg/upstream/circuitbreaker.go:376-409 | a step appends at most one edge, and the generation moves exactly when it does |
| BreakerProtocol.RunKeeps | pkg/upstream/circuitbreaker.go:190-426 | every schedule keeps the invariant that ties word, threads and history together |
| BreakerWord.UnpackPack | pkg/upstream/circuitbreaker.go:44-50 | unpacking undoes packing if and only if the probe count fits its 22 bits |
| BreakerWord.FitsTheWord | pkg/upstream/circuitbreaker.go:24-46 | the packed word stays within its 56 bits if and only if the generation fits 32 |
| BreakerWord.PackedRefinesProtocol | pkg/upstream/circuitbreaker.go:24-50 | the machine that compares and swaps the packed word, adding and subtracting one probe unit, goes through exactly the states of the unpacked protocol, for every schedule |
| BreakerCooldown.Initialised | pkg/upstream/circuitbreaker.go:158-188 | whatever is configured, the breaker runs on positive thresholds, a base cooldown within the cap and a probe limit that fits the word; usable settings are kept |
| BreakerCooldown.DocumentedDefaults | pkg/upstream/circuitbreaker.go:158-181 | unset settings become the documented ones, set ones are kept |
| BreakerCooldown.ComputeOpenTimeout | pkg/upstream/circuitbreaker.go:430-439 | the loop computes the clipped, 64-bit wrapping doubling |
| BreakerCooldown.BackoffExactIff | pkg/upstream/circuitbreaker.go:430-439 | the loop's result is min(cap, base*2^(e-1)) for all bases and trip counts if and only if the cap is at most 2^62+1 ns |
| BreakerCooldown.OverflowCollapses | pkg/upstream/circuitbreaker.go:430-439 | for any larger cap, a base of 2^62+1 ns cools down for 4 ns on the third opening |
| BreakerCooldown.BackoffMonotone | pkg/upstream/circuitbreaker.go:428-430 | the documented formula never gives a later trip less |
| BreakerCooldown.NeverShrinksIff | pkg/upstream/circuitbreaker.go:430-439 | the loop never cools a later trip down for less, for all bases and trip counts, if and only if the cap is at most 2^62+1 ns |
| BreakerCooldown.DelayPositive | pkg/upstream/circuitbreaker.go:430-439 | with usable settings every cooldown is positive and at most the cap, overflow included |
| BreakerCooldown.Breaker.constructor | pkg/upstream/circuitbreaker.go:158-188 | a new target is closed at generation 0 with cleared counters |
| BreakerCooldown.Breaker.Transition | pkg/upstream/circuitbreaker.go:376-409 | only from the given generation and state; counters cleared, deadline and trip count set |
| BreakerCooldown.Breaker.ReleaseProbe | pkg/upstream/circuitbreaker.go:415-426 | gives back one slot of the current half-open generation, otherwise nothing |
| BreakerCooldown.Breaker.AdmitNow | pkg/upstream/circuitbreaker.go:260-304 | the admit loop ends within two turns with the outcome of the specification |
| BreakerCooldown.Breaker.RecordResult | pkg/upstream/circuitbreaker.go:309-341 | the result of a probe or a routed request moves the breaker as specified |
| BreakerCooldown.NothingAdmittedWhileCooling | pkg/upstream/circuitbreaker.go:260-439 | in every run with a non-decreasing clock, nothing is admitted within min(cap, base*2^(e-1)) of the e-th consecutive opening since the last heal |
| BreakerSolo.OnwardIsRun | pkg/upstream/circuitbreaker.go:190-426 | a solo continuation of a run is a run of the protocol |
| BreakerSolo.AdmitAlone | pkg/upstream/circuitbreaker.go:260-304 | an uninterrupted admit is a schedule of one thread that leaves the same word and the same verdict |
| BreakerSolo.RecordAlone | pkg/upstream/circuitbreaker.go:309-341 | an uninterrupted record is a schedule of one thread that leaves the same word |
| BreakerSolo.UnwindAlone | pkg/upstream/circuitbreaker.go:192-224 | a probe's unwinding is a schedule of one thread that leaves the word after a release |
| BreakerHistory.SatellitesAreHistory | pkg/upstream/circuitbreaker.go:309-341 | after every run the failure count is the number of routed failures since the last routed success, opening or heal, the success count that of probe successes since the last opening or heal, and the dwell start the instant of the last flip |
| BreakerHistory.DeadlineIsHistory | pkg/upstream/circuitbreaker.go:376-409 | an open target's deadline is its last opening plus that opening's cooldown |
| BreakerHistory.ClosedHasNoDeadline | pkg/upstream/circuitbreaker.go:394-403 | a closed target has no deadline |
| BreakerHistory.OpensIff | pkg/upstream/circuitbreaker.go:260-341 | exactly when a call opens the target: the FailureThreshold-th failure in a row while closed, a failed probe of the current generation, or a full half-open state past the probe timeout |
| BreakerHistory.HealsIff | pkg/upstream/circuitbreaker.go:309-321 | exactly when a call heals it: a success of a current probe that is the SuccessThreshold-th since the opening |
| BreakerHistory.AdmitsIff | pkg/upstream/circuitbreaker.go:260-304 | exactly when a request is admitted: closed, cooled down since the last opening, or half-open with a free slot |
| BreakerHistory.OnlyConsecutiveFailuresTrip | pkg/upstream/circuitbreaker.go:65-70 | after a success on a closed target, n failures in a row leave it closed with count n below the threshold, and the threshold-th opens it |
| BreakerHistory.StaleSuccessHeals | pkg/upstream/circuitbreaker.go:286-317 | a run in which every result answers an admission and a target heals one success of its own short |
| BreakerHistory.HealsByOwnIff | pkg/upstream/circuitbreaker.go:97-98 | every heal takes SuccessThreshold successes of its own generation if and only if the threshold is 1 |
| Targets.EffectiveWeight | pkg/upstream/loadbalancer.go:49-54 | the larger of 1 and the configured weight |
| Targets.Reading | pkg/upstream/weighted.go:131-133 | a target without a gate entry is up |
| Swrr.Balancer.constructor | pkg/upstream/weighted.go:47-54 | effective weights, accumulators at 0, nobody seen up |
| Swrr.Balancer.Scan | pkg/upstream/weighted.go:85-102 | recovered targets start again from 0, live ones are credited their weight, and the first live one of largest accumulator is found, with the live total |
| Swrr.Balancer.Pick | pkg/upstream/weighted.go:81-108 | chooses the first largest live target, or over all targets when none is up, and debits it the total; while any is up a target gated down is neither chosen nor touched, whoever takes part is credited its weight, from zero if it just came back |
| Swrr.Balancer.PickAllOpen | pkg/upstream/weighted.go:113-124 | the same pick with the gate ignored |
| Swrr.LeaderIsFirstMax | pkg/upstream/weighted.go:99-101 | what the scan finds is the first live target of largest accumulator, and none if none is live |
| Swrr.PickConserves | pkg/upstream/weighted.go:81-108 | a pick keeps the sum of the live accumulators and leaves gated-down ones untouched |
| Swrr.RecoveryDrops | pkg/upstream/weighted.go:89-93 | recoveries change the total of all accumulators by exactly what the recovered targets held |
| Swrr.Serve | pkg/upstream/weighted.go:81-108 | requests served under a steady gate form a run in the sense of the fairness results, from whatever state recovery leaves |
| Swrr.Books | pkg/upstream/weighted.go:81-108 | an accumulator is its start plus weight per pick held minus the live total per pick won |
| Swrr.RunConserves | pkg/upstream/weighted.go:81-108 | any run keeps the live sum |
| Swrr.FairFromAnyState | pkg/upstream/weighted.go:81-108 | from any state, wins times the live total differ from picks times weight by less than a constant that does not depend on the number of picks |
| Swrr.NeverAPickAhead | pkg/upstream/weighted.go:81-108 | from zero accumulators, n*W < t*w + W after any t picks, and the accumulators sum to 0 |
| Swrr.OneCycleIsExact | pkg/upstream/weighted.go:81-108 | W picks choose every live target exactly weight times and bring every accumulator back to 0 |
| Swrr.CyclesAreExact | pkg/upstream/weighted.go:81-108 | so do k*W picks, k*weight times |
| Swrr.EqualWeightsRotate | pkg/upstream/weighted.go:81-108 | with equal weights pick k is target k modulo n |
| LeastConn.Balancer.constructor | pkg/upstream/leastconn.go:57-66 | effective weights, a cap of 0 for none, no load |
| LeastConn.Balancer.Scan | pkg/upstream/leastconn.go:140-196 | returns the first look, in rotation order, of an eligible target minimising load over weight, and whether any target was up |
| LeastConn.Balancer.Pick | pkg/upstream/leastconn.go:140-230 | for every 32-bit cursor, wrap included: claims exactly that target; sheds as saturated if and only if some target is up and all such are full; ignores the gate when none is up, and then sheds as dark only if all are full |
| LeastConn.LooksDiffer | pkg/upstream/leastconn.go:151-156 | no index is looked at twice in one scan |
| LeastConn.LooksCover | pkg/upstream/leastconn.go:151-156 | every index is looked at |
| LeastConn.LooksRotate | pkg/upstream/leastconn.go:151-156 | the looks start at the cursor's index and go one further each time, wrapping after the last |
| LeastConn.LightestOfAll | pkg/upstream/leastconn.go:140-196 | whatever the cursor, no eligible target has a smaller load over weight than the chosen one, and one is chosen if there is one |
| LeastConn.ShedsOnlyWhenFull | pkg/upstream/leastconn.go:140-196 | nothing is chosen if and only if every target that counts is at its cap |
| LeastConn.LighterThan | pkg/upstream/leastconn.go:168-170 | comparing loads by cross-multiplied weights is a consistent order |
| LeastConn.LighterIsFraction | pkg/upstream/leastconn.go:168-170 | for positive weights, lighter means a smaller fraction load over weight |
| LeastConn.PickMeans | pkg/upstream/leastconn.go:140-196 | in loads, weights and caps: a claim goes to a target that counts, has room and has the least load over weight; a pick sheds if and only if all that count are at their caps, as saturated exactly when one is up |
| LeastConn.FirstInRotation | pkg/upstream/leastconn.go:168-170 | targets looked at earlier with room are strictly heavier |
| LeastConn.GateObeyed | pkg/upstream/leastconn.go:157-163 | a target without a gate entry is up, and while any is up one gated down is not claimed |
| Bulkhead.CapIsHard | pkg/upstream/leastconn.go:70-230 | after every schedule a target's load is the number of its unreleased requests and never exceeds a positive cap |
| Bulkhead.ClaimTakesIff | pkg/upstream/leastconn.go:216-230 | a claim takes the slot exactly when there is no cap or the load it saw is below the cap and still stands, looks again when the load moved, and gives up when it saw the target full |
| Bulkhead.SecondTryTakesIff | pkg/upstream/leastconn.go:216-230 | a request that lost its race and is left alone takes the slot exactly if the target has room |
| Bulkhead.ReleasedExactlyOnce | pkg/upstream/leastconn.go:70-124 | a request takes at most one slot, gives back at most what it took, exactly one when its round trip failed or panicked, and one once its body is released |
| Bulkhead.SlotBackIffCloseReturned | pkg/upstream/leastconn.go:238-259 | after a response the slot is given back if and only if some Close of the body returned; a Close that panics inside leaves it taken |
| Bulkhead.CloseReleases | pkg/upstream/leastconn.go:238-259 | closing a streamed body takes the load down by the one slot it held; closing again changes nothing |
| Bulkhead.LeakRun | pkg/upstream/leastconn.go:238-242 | the run of one request whose only Close panics inside and whose slot stays taken |
| Hedging.Supervisor.constructor | pkg/upstream/hedging.go:137-161 | one leg under way and the timer armed |
| Hedging.Supervisor.OnResult | pkg/upstream/hedging.go:165-202 | a result wins and cancels the others, is closed and hedged at once, is awaited further, or ends the call |
| Hedging.Supervisor.OnTick | pkg/upstream/hedging.go:204-211 | a tick launches a leg while attempts are left and re-arms only then |
| Hedging.Supervisor.OnDone | pkg/upstream/hedging.go:213-219 | the client's cancel cancels every leg and hands the outstanding ones to the reaper |
| Hedging.NeverAsleep | pkg/upstream/hedging.go:128-222 | for every order of events at most MaxHedge+1 legs start and the loop never waits with neither a leg outstanding nor the timer armed |
| Hedging.AlwaysProgress | pkg/upstream/hedging.go:128-291 | until everything is settled some event other than the client leaving can happen |
| Hedging.RunsAreShort | pkg/upstream/hedging.go:128-291 | no run of effective events is longer than 4*max+3 events, so every call ends |
| Hedging.EveryEventWorks | pkg/upstream/hedging.go:128-291 | every possible event lowers the work left |
| Hedging.BodiesConserved | pkg/upstream/hedging.go:128-279 | each leg's body is handed to the caller once or closed once, never both, and by the end exactly one of them |
| Hedging.ContextsReleased | pkg/upstream/hedging.go:128-262 | at the return every other leg is cancelled; the supervisor cancels the winner exactly at the close of its body, at once when it has none, and the winner's context lasts until then or until the client leaves; in the end every context is cancelled |
| Hedging.GivesUpLast | pkg/upstream/hedging.go:128-222 | the call fails only after all attempts answered without a winner, and returns only a leg that won |
| Hedging.LaunchesIff | pkg/upstream/hedging.go:163-221 | a leg is launched exactly at a tick, or at a lost result when hedging on errors is on, while attempts are left; the timer runs on exactly if more remain |
| Hedging.EndsIff | pkg/upstream/hedging.go:163-221 | the call ends exactly with a winning result, with the last result when none won, or with the client |
| SlidingWindow.EffectiveSize | pkg/ratelimit/slidingwindow.go:77-82 | a positive size is kept, any other becomes one second |
| SlidingWindow.Limiter.constructor | pkg/ratelimit/slidingwindow.go:56-82 | an empty limiter on the effective size |
| SlidingWindow.Limiter.Take | pkg/ratelimit/slidingwindow.go:112-146 | rolls or creates the item, admits if the blend leaves room, and keeps a janitor running while there are keys |
| SlidingWindow.Limiter.EvictStale | pkg/ratelimit/slidingwindow.go:260-276 | drops exactly the keys two windows old and stops the janitor exactly when the map is empty |
| SlidingWindow.OrderedIsInOrder | pkg/ratelimit/slidingwindow.go:112-117 | readings that enter the lock in order are, for every key, windows in order |
| SlidingWindow.DecidesLikeTheLog | pkg/ratelimit/slidingwindow.go:87-146 | after every run, for a key whose readings enter the lock in the order of their windows, the two counters decide as the full log of admissions would |
| SlidingWindow.SweepsAreInvisible | pkg/ratelimit/slidingwindow.go:260-276 | with every key's windows in order, sweeps interleaved anywhere change no admission |
| SlidingWindow.SweepDropsIff | pkg/ratelimit/slidingwindow.go:260-276 | a sweep drops exactly the keys without a Take in its window or the one before |
| SlidingWindow.LogsAreJustified | pkg/ratelimit/slidingwindow.go:112-146 | every admission of a key whose windows are in order fitted when it was made |
| SlidingWindow.AlignedWindowCap | pkg/ratelimit/slidingwindow.go:99-146 | an aligned window admits at most Max |
| SlidingWindow.LastAdmitBound | pkg/ratelimit/slidingwindow.go:99-146 | an interval of one window's length ending in an admission holds at most Max + prev*f, f the offset fraction of that admission |
| SlidingWindow.FewerThanTwice | pkg/ratelimit/slidingwindow.go:99-146 | any half-open interval of one window's length admits fewer than 2*Max |
| SlidingWindow.RunsAreLimited | pkg/ratelimit/slidingwindow.go:87-146 | at most Max in an aligned window and fewer than 2*Max in any interval of its length, for every run in which the key's readings enter the lock in the order of their windows |
| LateTakes.CappedIffNoLag | pkg/ratelimit/slidingwindow.go:112-146 | every run whose readings enter the lock at most `lag` ns behind one another keeps aligned windows within Max if and only if the lag is 0, for all Max and Size |
| LateTakes.FlickerRun | pkg/ratelimit/slidingwindow.go:87-117 | the run in which two readings one nanosecond late let an aligned window admit Max+1 |
| LateTakes.BudgetPerStepBack | pkg/ratelimit/slidingwindow.go:51-53 | for every run in whatever order, an aligned window admits at most Max times one plus the key's steps back across a boundary |
| LateTakes.WorstPerStepBack | pkg/ratelimit/slidingwindow.go:51-53 | likewise for any interval of one window's length and its worst case |
| LateTakes.OneStepBackCosts | pkg/ratelimit/slidingwindow.go:84-97 | one step back lets an aligned window admit Max + floor(Max*(Size-1)/Size), 2*Max-1 for Size of at least Max |
| WindowWorstCase.WorstIsBound | pkg/ratelimit/slidingwindow.go:87-146 | every run in which the key's readings enter the lock in the order of their windows admits at most Max + floor(Max*(Size-2)/Size) requests in any interval of one window's length, at most Max for a window of 1 ns |
| WindowWorstCase.WorstIsReached | pkg/ratelimit/slidingwindow.go:87-146 | for every Max and Size some run and interval reach that number |
| WindowWorstCase.TwiceIsTight | pkg/ratelimit/slidingwindow.go:31-45 | it is at most 2*Max-1, and equal to it if and only if Size is at least 2*Max ns or Max is 1 |
| RetryAdvice.AdviceIsEnough | pkg/ratelimit/slidingwindow.go:189-225 | with no other Take on the key, a Take at now+After is admitted, also one or two windows ahead |
| RetryAdvice.AdviceIsTight | pkg/ratelimit/slidingwindow.go:189-225 | every instant more than a nanosecond before it is denied |
| RetryAdvice.RollTwice | pkg/ratelimit/slidingwindow.go:87-97 | rolling in two stages is rolling at once |
| RetryAdvice.RetryAfterIsExact | pkg/ratelimit/slidingwindow.go:158-225 | both, for the advice given on a live table, known key or not, when Max is at least 1 |
| RetryAdvice.NoWaitIffAdmittedNow | pkg/ratelimit/slidingwindow.go:158-192 | no wait is advised exactly when a Take now is admitted |
| RetryAdvice.KeepsItsWordIff | pkg/ratelimit/slidingwindow.go:184-225 | whoever heeds the advice is admitted, for every table, key and instant, if and only if Max is at least 1 |
| RetryAdvice.AdviceInVain | pkg/ratelimit/slidingwindow.go:158-219 | with Max of 0 or less no instant is ever right |
| RetryAdvice.RightIffNotPast | pkg/ratelimit/slidingwindow.go:158-182 | the advice read at an instant is right for an item of a given window, whatever its counts, if and only if that window is not past the instant's |
| RetryAdvice.DecayEndsBeforeBoundaryIff | pkg/ratelimit/slidingwindow.go:196-207 | a wait for decay ends before the boundary if and only if prev < (Max-curr-1)*Size, and on it otherwise |
| RetryAdvice.DecayEndsOnBoundary | pkg/ratelimit/slidingwindow.go:201-203 | an input whose wait for decay ends on the boundary |
| LeakyBucket.Strategy.Enter | pkg/ratelimit/leakybucket.go:35-78 | Take up to its sleep does what the machine's step does, and a janitor runs while there are keys |
| LeakyBucket.Strategy.Wake | pkg/ratelimit/leakybucket.go:80-89 | Take after its sleep leaves the queue of the item it kept |
| LeakyBucket.Strategy.Advice | pkg/ratelimit/leakybucket.go:95-115 | the wait until the next free instant |
| LeakyBucket.Strategy.EvictStale | pkg/ratelimit/leakybucket.go:148-164 | drops exactly the idle keys without sleepers and stops the janitor exactly when the map is empty |
| LeakyBucket.AdmissionsSpaced | pkg/ratelimit/leakybucket.go:35-89 | over every interleaving, the scheduled admissions of a key are at least PerRequest apart and nobody sleeps longer than Size*PerRequest |
| LeakyBucket.QueueIsItsSleepers | pkg/ratelimit/leakybucket.go:64-89 | Count is the number of sleepers, within Size, and every sleeper's item is still the key's |
| LeakyBucket.TakeByTheLog | pkg/ratelimit/leakybucket.go:35-89 | told from the log and the sleepers alone: admitted at once when never scheduled or a spacing after the last turn, dropped when the turn is not yet and Size sleep, otherwise scheduled one spacing after the last turn |
| LeakyBucket.Cadence | pkg/ratelimit/leakybucket.go:122-130 | the default cadence is at least a minute, and at least PerRequest plus a second unless that sum overflows 64 bits |
| LeakyBucket.DefaultCadenceIsPatient | pkg/ratelimit/leakybucket.go:122-130 | default sweeps meet the condition of the spacing result if and only if PerRequest plus a second does not overflow |
| LeakyBucket.DefaultKeepsSpacing | pkg/ratelimit/leakybucket.go:122-164 | a limiter with the default janitor keeps its spacing in every run if and only if PerRequest is below 2^63 - 10^9 ns |
| LeakyBucket.SpacedIffPatient | pkg/ratelimit/leakybucket.go:122-164 | with sweeps of a given idle age every run is spaced if and only if PerRequest is at most that age plus a nanosecond |
| LeakyBucket.HastyRun | pkg/ratelimit/leakybucket.go:148-164 | the run of an impatient janitor that admits two requests too close |
| LeakyBucket.SweepsAreInvisible | pkg/ratelimit/leakybucket.go:148-164 | patient sweeps change no decision of any interleaving |
| LeakyBucket.SweepDropsIff | pkg/ratelimit/leakybucket.go:148-164 | a sweep drops exactly the keys nobody sleeps for whose last turn is older than the idle age |
| LeakyBucket.AfterIsExact | pkg/ratelimit/leakybucket.go:95-115 | a later Take is admitted without sleeping exactly from the advised instant on |
| ConcurrentQueue.Strategy.Join | pkg/ratelimit/concurrentqueue.go:36-57 | Take up to its send does what the machine's step does |
| ConcurrentQueue.Strategy.LeaveQueue | pkg/ratelimit/concurrentqueue.go:62-65 | Take after its send leaves the queue of the item it kept |
| ConcurrentQueue.Strategy.Release | pkg/ratelimit/concurrentqueue.go:68-87 | Put takes a token out of the key's item and drops the item when nobody is left |
| ConcurrentQueue.CapacityHolds | pkg/ratelimit/concurrentqueue.go:36-87 | after every schedule the holders of a key are at most Capacity, the queued at most Size, and the item's three numbers count exactly them |
| ConcurrentQueue.QueuedIffRoom | pkg/ratelimit/concurrentqueue.go:44-57 | a Take is queued exactly when fewer than Size are queued for its key |
| ConcurrentQueue.SendsIffRoom | pkg/ratelimit/concurrentqueue.go:60 | a queued request gets its slot exactly while fewer than Capacity hold one |
| ConcurrentQueue.KeysAreApart | pkg/ratelimit/concurrentqueue.go:44-60 | whoever waits or holds has its key's own item, shared with no other key |
| ConcurrentQueue.PutNeverBlocks | pkg/ratelimit/concurrentqueue.go:68-87 | the receive under the lock always finds a token; it takes one out of that item alone, and the key stays in the map exactly while somebody uses the item |
| ConcurrentQueue.DroppedOnlyWhenUnused | pkg/ratelimit/concurrentqueue.go:83-86 | an item leaves the map only when nobody waits on it or holds it |
| ConcurrentQueue.NeverStuck | pkg/ratelimit/concurrentqueue.go:59-87 | while a request of a key is under way, some request of that key can move |
| ConcurrentQueue.TidyIffRoomToQueue | pkg/ratelimit/concurrentqueue.go:44-87 | the map holds only keys in use after every run if and only if Size is at least 1 |
| ConcurrentQueue.LitterRun | pkg/ratelimit/concurrentqueue.go:44-55 | with Size 0 or less a refused Take leaves its item behind |
| Purge.Table.constructor | pkg/cache/purge/purge.go:92-120 | an empty table, with the default cap unless a positive one is given |
| Purge.Table.Stamp | pkg/cache/purge/purge.go:261-269 | an epoch is the clock but never behind an earlier epoch |
| Purge.Table.FlushAll | pkg/cache/purge/purge.go:132-140 | the global epoch is stamped and every scope cleared |
| Purge.Table.PurgeHost | pkg/cache/purge/purge.go:144-153 | the host is stamped and the cap enforced; an empty host changes nothing |
| Purge.Table.PurgeURL | pkg/cache/purge/purge.go:158-167 | likewise for host and URI |
| Purge.Table.PurgePrefix | pkg/cache/purge/purge.go:172-181 | likewise for a trimmed path prefix |
| Purge.Table.PurgeTag | pkg/cache/purge/purge.go:185-193 | likewise for a tag |
| Purge.Table.ApplyPrefix | pkg/cache/purge/purge.go:245-256 | the record of the prefix is refreshed in place or appended, all others kept in order |
| Purge.Table.EnforceCap | pkg/cache/purge/purge.go:275-297 | exactly the overflowing maps are cleared, and then the global epoch rises to the high-water mark |
| Purge.Table.Epoch | pkg/cache/purge/purge.go:212-241 | the gated scan over the scopes computes the specified epoch |
| Purge.Table.Restore | pkg/cache/purge/purge.go:359-394 | takes over the snapshot; the high-water mark is one of its epochs and none is later; the gate opens if it is positive |
| Purge.PrefixCount | pkg/cache/purge/purge.go:300-306 | counts every prefix record once |
| Purge.Highest | pkg/cache/purge/purge.go:367-376 | the loop finds the largest epoch of a map |
| Purge.HighestPrefix | pkg/cache/purge/purge.go:377-383 | the nested loop finds the largest epoch of the prefix records |
| PathPrefix.PathOf | pkg/cache/purge/purge.go:435-440 | the longest part of the URI before a question mark |
| PathPrefix.MatchIsCover | pkg/cache/purge/purge.go:444-456 | matching the trimmed prefix on a boundary is the same as beginning with the prefix's path segments, for all paths and prefixes |
| PurgeLog.NeverForgets | pkg/cache/purge/purge.go:132-297 | for every run, clock and fold, a response's epoch is at least that of every purge about it and at most the high-water mark, which is the last epoch issued |
| PurgeLog.TakesEffect | pkg/cache/purge/purge.go:132-193 | a purge of everything, or of a non-empty host or tag, moves the epoch of every response it is about to the instant of the call or later |
| PurgeLog.EmptyIsIgnored | pkg/cache/purge/purge.go:144-193 | an empty host or tag changes nothing |
| PurgeLog.FlushForgets | pkg/cache/purge/purge.go:129-140 | a flush empties every scope |
| PurgeLog.ExactWithFolds | pkg/cache/purge/purge.go:132-297 | for every run the epoch is exactly that of the log in which each fold is a flush of everything at the latest epoch: what folding over-invalidates, and no more |
| PurgeLog.ExactUntilFolded | pkg/cache/purge/purge.go:132-297 | while nothing folded the epoch is exactly that of the full log |
| PurgeLog.NeverDecreases | pkg/cache/purge/purge.go:132-297 | nothing that follows lowers a response's epoch |
| PurgeLog.EpochHasSource | pkg/cache/purge/purge.go:212-241 | the epoch is that of a record about the response, never a made-up one |
| PurgeLog.HeldBounds | pkg/cache/purge/purge.go:212-241 | every record about the response bounds its epoch from below |
| PurgeLog.RunSane | pkg/cache/purge/purge.go:132-297 | the high-water mark is always the largest recorded epoch |
| PurgeLog.StaysSmall | pkg/cache/purge/purge.go:275-297 | no scope ever holds more records than the cap |
| PurgeLog.NoFoldWithinCap | pkg/cache/purge/purge.go:271-297 | up to as many purges as the cap, nothing is folded |
| PurgeLog.UrlKeyInjective | pkg/cache/purge/purge.go:428-431 | the hashed text tells host and URI apart when hosts hold no line break |
| PurgeLog.RestoreIsFaithful | pkg/cache/purge/purge.go:344-394 | a fresh table restored from a snapshot gives every response the original's epoch, now and after any identical continuation |
| Freshness.ServedIffInWindow | pkg/cache/stale.go:26-55 | an entry is served if and only if it is fresh or before the bound the disk scan uses, and not invalidated |
| Freshness.ServedHow | pkg/cache/stale.go:26-38 | fresh up to its instant, then stale while revalidating, then stale only on error, each exactly in its window |
| Freshness.PurgedForGood | pkg/cache/stale.go:26-43 | after a purge about a response was issued, an entry created at or before the instant of the call is never served again, fresh or stale, whatever came before or follows |
| Freshness.PurgedByEpoch | pkg/cache/stale.go:26-43 | likewise for an entry created at or before the epoch the purge was given |
| Freshness.LaterEntriesStand | pkg/cache/stale.go:26-43 | an entry created after the last epoch is judged by time alone |
| CacheKey.SchemeIsCanonical | pkg/cache/cache.go:492-503 | the scheme a forwarded text spells in any case, otherwise that of the connection; forwarding the result again keeps it, and a place has two keys whatever clients forward |
| CacheKey.PrimaryInjective | pkg/cache/cache.go:479-485 | the hashed text is equal if and only if host, method, scheme and URI are |
| CacheKey.WriteVariance | pkg/cache/cache.go:528-538 | the loop writes the variance text |
| CacheKey.VarianceInjective | pkg/cache/cache.go:528-540 | equal variance texts come from equal name lists and equal values |
| CacheKey.TokensAreApart | pkg/cache/cache.go:528-540 | names without an equals sign meet the condition of the variant results, whatever requests can carry |
| CacheKey.FoundIff | pkg/cache/cache.go:521-546 | in every reachable state a lookup finds an entry if and only if it is stored under its own key, for the same place, with the Vary now known, and its filler agrees on every header that Vary names |
| CacheKey.NoWrongVariant | pkg/cache/cache.go:313-330 | however the Vary map is learned, relearned or evicted, no request is given another variant's response |
| CacheKey.FillIsFound | pkg/cache/tee.go:74-87 | a committed and learned fill answers every request it may answer, in whatever order its Vary names were listed |
| CacheKey.NeverWrongIffApart | pkg/cache/cache.go:521-563 | over a set of names, and for whatever headers and values requests can carry, no run that learns only what was committed serves a wrong variant if and only if the names are apart |
| CacheKey.NeverWrongWhenServed | pkg/cache/cache.go:521-563 | for a server that refuses an equals sign in header names: if and only if no name without one, followed by one, begins another |
| CacheKey.WrongVariantRun | pkg/cache/tee.go:217-219 | two colliding names give one request the other's response: an entry expired, its place is refilled under another Vary, and a lookup comes before that Vary is learned |
| CacheKey.VaryMap.Set | pkg/cache/cache.go:548-563 | records the sorted names, gives up one arbitrary other primary exactly when a new one meets a full map, and never outgrows the bound |
| VaryAtRest.NeverWrongAtRestIff | pkg/cache/cache.go:521-563 | when every commit is followed at once by its learning, behind a server that refuses an equals sign in header names, no run over a set of names serves a wrong variant if and only if no three of them mix |
| VaryAtRest.LastingMixUp | pkg/cache/tee.go:203-219 | two fills after which a request is given another variant's response for good |
| VaryNames.SortCanonical | pkg/cache/cache.go:549-550 | two listings of the same names sort to the same key order, and sorting again changes nothing |
| Tee.TeeWriter.WriteHeader | pkg/cache/tee.go:58-124 | the first call alone decides: opens an entry, defers the client exactly when the fill is cached, of declared length, decoupled and contended, and otherwise answers at once |
| Tee.TeeWriter.Write | pkg/cache/tee.go:126-172 | the open entry has every byte written; the client has what it took, or nothing while deferred |
| Tee.TeeWriter.Keep | pkg/cache/tee.go:136-143 | the leader's copy is the first maxFileSize bytes of all writes |
| Tee.TeeWriter.Store | pkg/cache/tee.go:144-171 | past the limit or on a failed write the entry is aborted, once |
| Tee.TeeWriter.Abort | pkg/cache/tee.go:175-180 | aborts an open entry and forgets it |
| Tee.TeeWriter.Finish | pkg/cache/tee.go:186-221 | commits exactly an entry that is still open and complete, with its size; a committed body has the declared length, or none was declared and chunked bodies are allowed, or the request is a HEAD; Vary is learned only from a successful commit |
| Tee.TeeWriter.ServeLeader | pkg/cache/tee.go:231-244 | a deferred client gets its status and the leader's copy, no body for HEAD or 204 |
| Tee.TeeWriter.Cleanup | pkg/cache/tee.go:248-253 | aborts what is still open and nothing else |
| Tee.Fill | pkg/cache/cache.go:427-455 | for every chunking, storage failure and panic: an opened writer ends in exactly one commit or abort; it commits if and only if the handler returned, storage took every write, the body fits and is complete; the stored body is the concatenation of all writes and has the declared length; a deferred client gets exactly its first maxFileSize bytes |
| Tee.Overrun | pkg/cache/tee.go:130-143 | a handler that writes past its declared length: the deferred leader gets less than was produced |
| Tee.WholeIffFits | pkg/cache/tee.go:136-143 | the leader's copy is all that was produced if and only if that fits |

## Left out

- BreakerProtocol.ProbeCapHolds: generations are unbounded; a wrap of the 32-bit field after 2^32 transitions is not modelled (`FitsTheWord` says when it fits).
- BreakerCooldown.NothingAdmittedWhileCooling: operations run one at a time; under interleaving only the word, not the cooldown deadline, is covered.
- LeastConn.Balancer.Pick: one thread on an undisturbed snapshot, and load times weight does not overflow 64 bits; races are the subject of `Bulkhead`.
- SlidingWindow.RunsAreLimited: the blend is taken over the reals, where the code rounds in floating point; runs with steps back are the subject of `LateTakes`.
- RetryAdvice.RetryAfterIsExact: likewise over the reals; `KeepsItsWordIff` covers the remaining Max and `RightIffNotPast` items past the window of the reading.
- LeakyBucket.AdmissionsSpaced: sleeps never end early, waits stay below the largest 64-bit duration, and the clock, which Take reads under the lock, does not step back.
- ConcurrentQueue.CapacityHolds: Capacity of at least 1; an unbuffered channel (Capacity 0) is not modelled.
- PurgeLog.ExactWithFolds: digests are taken to be injective and hosts as already normalised, without line breaks.
- CacheKey.NoWrongVariant: digests are taken to be injective; host, method and header values hold no line break, and a request may combine any headers it can carry one by one.
- Tee.Fill: the caching decision is an input; headers, tags and windows of the stored metadata are not modelled, and neither is Flush.
- Hedging.BodiesConserved: closing a body does not panic; the winner's cancel follows its inner Close without a defer, like the slot of the bulkhead.
- Pointers to limiter items are positions in a sequence rather than heap objects; items never move, so aliasing is kept.
- OnStateChange, Observe, OnResult and metrics hooks, except that a panicking OnStateChange is a step of the breaker protocol.
- The fill lock (acquire and release) and the two-attempt loop of fillAndServe; the lock key is not always the store key.
- stale-if-error serving (staleGate), background revalidation and Reap.
- The hedging fast path and the choice of which requests may be hedged.
- Header text parsing of the cache policy, storage backends (disk, LRU, memory), host normalisation.
- Plain round-robin, ejecting and latency-ejecting balancers; fixed-window, plain concurrent and Redis limiters: simpler forms of what is modelled.
- HTTP, TLS and reverse-proxy wiring, and the remaining middleware packages.
