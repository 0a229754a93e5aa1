# Verification of the model-tools core

A Dafny model of the stateful and algorithmic parts of this repository, with proofs of what they keep.
`dafny verify dfyconfig.toml` checks everything.

The project follows the code's own components:

- **GPU router** (`Lanes`, `Selection`, `VramSafety`, `LaneMetrics`, `Gateway`, `Rounding`). Lanes with a
  circuit breaker and a recovery budget, the four-stage selection policy, GPU memory over runs, the learned
  latency store, and the proxy with one failover. Objects the source updates in place are classes; each
  lane also carries its history, and its fields are proved to be a function of it. The proxy is cut at its
  awaits, so its contracts hold for every interleaving of requests.
- **Benchmark records** (`Utf16`, `NumberText`, `CanonicalJson`, `BenchmarkRecord`). The canonical JSON
  printer over JSON-like values and `undefined`, a reader of JSON by the code points of RFC 8259 that undoes
  it, the exact relation it identifies, and what the two stored hashes pin down. SHA-256 is an arbitrary function; where it matters the absence of
  a collision is assumed for the two texts compared.
- **Speculative decoding** (`Speculative`). Expected tokens, speedup, the scan for the best lookahead, and
  break-even, over reals.
- **Prefix-affinity dispatcher** (`SmartRouter`). Routing and draining against an abstract map.
- **Dashboard state codec** (`StateCodec`, `Utf16`). XOR, UTF-8 (section 3 of RFC 3629) and base64
  (section 4 of RFC 4648).
- **Report cache and event hub** (`ReportCache`, `EventHub`). Staleness over runs, and the WebSocket
  sequence numbers under every interleaving at the awaits.
- **Rate limiter, planner, error metrics, fuzzy match** (`RateLimiter`, `Decimal`, `Planner`,
  `ErrorMetrics`, `FuzzyMatch`).

## What the proofs found

- A transport error whose text is empty, as timeouts may have, is stored as a success
  (`ollama-router/app/metrics.py:65`): error counters equal failures exactly when no such error occurred
  (`Gateway.AccountsBalance`, `Gateway.SilentTimeout`).
- Memory safety is guaranteed if a poll precedes each load on a GPU, the lane comes from the learned or the
  fitting branch, the router's size of the model is right to 0.005 GiB and the margin is at least 0.01 GiB
  (`VramSafety.NeverOvercommits`). Without the poll the policy can overcommit
  (`VramSafety.StalePollOvercommits`); a GPU no other program touches is safe exactly when its loads add up to
  at most what was free (`VramSafety.OvercommitsExactly`).
- A request's lane is chosen before its body is read, so its first attempt may go to a lane that has closed
  since (`Gateway.Proxy.Admit`, `Gateway.Proxy.Send`).
- The prefix router's drain promises "zero dropped requests"; the requests are lost when no other backend
  is active, and go to a backend of any model otherwise (`SmartRouter.DrainConserves`). The default pool loses
  all four on its second drain (`SmartRouter.SecondDrainDropsAll`).
- `last_seq` is the global counter at the end of a send. It is the number sent exactly when none was allocated
  meanwhile (`EventHub.LastSeqIsNumberSent`, `EventHub.LastSeqMayOvertakeDeliveries`). While a subscriber is
  registered it covers every number that syncs and broadcasts delivered; heartbeats stamp nothing and may tell
  a later one, and so may a state sync that ends after the subscriber has left
  (`EventHub.LastSeqMissesExactly`, `EventHub.HeartbeatRunsAhead`, `EventHub.LateSyncMissed`).
- The disk report's docstring gives the cache a 30-minute lifetime. An entry outlives it exactly when its
  memory timestamp is later than its write (`ReportCache.OutlivesTtlExactly`); after a disk hit it may be
  almost an hour old, plus the time calls took between their steps (`ReportCache.NearlyTheBound`). Overlapping
  calls may even replace a newer report in memory by an older one; the bound still holds
  (`ReportCache.Cache.CopyMemory`).
- The canonical printer identifies NaN with null, -0 with 0 and `[undefined]` with `[]`, and nothing else
  beyond key order (`CanonicalJson.PrintsAlike`).
- `best_lane` is documented to require an acceptable error rate; the code only adds a penalty to the score, so
  a lane that always fails can win (`LaneMetrics.AlwaysFailingWinsExactly`, `LaneMetrics.AlwaysFailingMayWin`).
- The planner ranks Dynamo before the other runtimes of its device and precision, by a bonus of 3, although it
  costs 15% more and its fit was judged without that surcharge (`Planner.DynamoFirst`,
  `Planner.RuntimesDiffer`).
- The routing rules in `ollama-router/README.md` describe an earlier program; the model follows the code.

## Modelling choices

- Floats are reals; `round` is to the nearest multiple, ties to even. Clock readings are inputs. `time.time()`
  is taken to be positive.
- A JavaScript number is its sign, shortest digits and decimal point, which is how Number::toString of
  ECMA-262 prints it; doubles are not modelled.
- A physical GPU is an integer of the lane configuration; parsing it from a device list is not modelled.
- What the environment decides (upstream outcomes, poll results, whether a write succeeds, prefix hashes,
  lower-casing) is a parameter.

## Model

| member | source | states |
|---|---|---|
| `Lanes.LaneState.MarkFailed` | ollama-router/app/state.py:146-150 | a failure counts; reaching the threshold opens the breaker until now + cooldown and resets the count |
| `Lanes.LaneState.MarkSucceeded` | ollama-router/app/state.py:152-154 | a success closes the circuit and clears the count; the lane stays the product of its history |
| `Lanes.LaneState.Recover` | ollama-router/app/router.py:92-109 | a restart happens only with a unit, after the recovery cooldown and below the attempt cap, and is then recorded |
| `Lanes.LaneState.Fail` | ollama-router/app/router.py:83-87 | a failure is marked and recovery is attempted only if the circuit is then open; exact new state from three clock readings |
| `Lanes.LaneState.Refresh` | ollama-router/app/state.py:124-140 | a poll replaces health, residents and GPU, an unreachable lane forgets its residents, and breaker and recovery fields are untouched |
| `Lanes.BreakerHistory` | ollama-router/app/state.py:146-154 | over every run: the counter is the failure streak modulo the threshold, and the open-until time is that of the last failure completing a multiple of it with no success since |
| `Lanes.FailuresBelowThreshold` | ollama-router/app/state.py:146-150 | for a threshold of at least 1 the failure count stays below it in every run |
| `Lanes.OpenExactly` | ollama-router/app/state.py:142-154 | the circuit is open exactly while the last opening, with no success after it, lies less than the cooldown back |
| `Lanes.StreakMeans` | ollama-router/app/state.py:146-154 | the streak is the number of failures ending the history with no success among them |
| `Lanes.OpeningFollowsStrikes` | ollama-router/app/state.py:146-150 | an opening ends at least the threshold of failures with no success among them |
| `Lanes.RestartsExactly` | ollama-router/app/router.py:83-102 | the positions counted as restarts are exactly those of the events that restarted the unit, in order |
| `Lanes.RecoveryHistory` | ollama-router/app/router.py:92-102 | over a lane's whole life the attempt counter is the number of restarts, never above the cap, and neighbouring restarts are at least the recovery cooldown apart |
| `Lanes.RestartsOnlyWhileOpen` | ollama-router/app/router.py:83-95 | a unit is restarted only while the circuit is open at the check, and only if there is one |
| `Lanes.RestartsWhenDue` | ollama-router/app/router.py:83-102 | judged by the history alone, a failure restarts the unit exactly when the circuit is open at the check, there is a unit, the last restart lies the cooldown back, and attempts are left |
| `Lanes.PollHistory` | ollama-router/app/state.py:124-140 | over every run health, residents and GPU are those of the last poll, whatever was marked since; an unreachable lane holds none |
| `Lanes.FitsMeans` | ollama-router/app/state.py:87-93 | a model fits exactly when the GPU reading, in bytes, covers it with the margin and every resident |
| `Lanes.LiveLaneBounds` | ollama-router/app/state.py:142-154 | a live lane object obeys the breaker and recovery bounds at every moment |
| `Selection.Dedup` | ollama-router/app/router.py:40-46 | the loop leaves exactly one lane per GPU with an eligible lane: the first eligible purpose-built one, else the first eligible one, in order of GPU entry |
| `Selection.Select` | ollama-router/app/router.py:33-70 | None exactly when no lane is healthy with a closed circuit; else the priority-ordered optimum: warm, learned and fitting, smallest fitting, any |
| `Selection.ChoiceUnique` | ollama-router/app/router.py:33-70 | the policy determines the chosen lane, ties included |
| `Selection.CompatOnlyAlone` | ollama-router/app/router.py:36-46 | a compat lane is chosen only if no eligible purpose-built lane shares its GPU |
| `Selection.FirstMinIsLeast` | ollama-router/app/router.py:53-70 | taking the first minimum over the deduplicated list finds the optimum over all representatives |
| `Selection.RepresentativeMeans` | ollama-router/app/router.py:36-46 | a lane stands for its GPU exactly if it is usable, and of the usable lanes there the first that is not compat, or the first of all if each is |
| `Selection.EveryGpuRepresented` | ollama-router/app/router.py:40-46 | every GPU with a usable lane has a lane that stands for it |
| `Selection.ClassesMean` | ollama-router/app/router.py:53-64 | warm is to hold the model; to fit is to have a reading that covers size, margin and residents in bytes |
| `Selection.ChoiceHealthy` | ollama-router/app/router.py:34-38 | nothing is chosen exactly if no lane is healthy with a closed circuit, and what is chosen is such a lane |
| `Selection.ChoiceWarmFastest` | ollama-router/app/router.py:52-55 | with a warm representative a warm one is chosen, and its latency score is the least of theirs |
| `Selection.LearnedChosen` | ollama-router/app/router.py:57-62 | with none warm, the lane with the best learned score is chosen if it represents its GPU and the model fits there |
| `Selection.ChoiceTightestFit` | ollama-router/app/router.py:64-67 | with none warm and none learned the choice fits, and no fitting representative has less free memory |
| `Selection.ChoiceLeastFree` | ollama-router/app/router.py:69-70 | where the model fits nowhere no representative has less free memory than the choice, an unknown GPU counting as none |
| `VramSafety.LoadLeavesRoom` | ollama-router/app/state.py:87-93 | loading on a lane from the learned or fitting branch leaves at least residents + margin - 0.01 GiB truly free, despite two roundings |
| `VramSafety.NeverOvercommits` | ollama-router/app/router.py:57-67 | no run in which each such load follows a poll of its GPU takes a GPU below zero, for a margin of at least 0.01 |
| `VramSafety.ReportedSizeIsRight` | ollama-router/app/state.py:191-194 | a size a lane reports is used to within 0.005 GiB |
| `VramSafety.NameDecides` | ollama-router/app/router.py:72-77 | the name decides the size if no lane holds the model or the first that does reports no size |
| `VramSafety.OvercommitsExactly` | ollama-router/app/router.py:57-80 | a GPU no other program touches is overcommitted nowhere in a run, however loads were chosen and polled, exactly when the run's loads on it add up to at most what was free at the start |
| `VramSafety.FreeBalances` | ollama-router/app/router.py:57-80 | over any run the free memory of a GPU is what it was, less the loads on it and what other programs took and did not give back |
| `VramSafety.SizesWithinReading` | ollama-router/app/state.py:87-93 | between polls nothing overcommits if the router's sizes of the models loaded since, each with its rounding, are within the free memory a lane reported |
| `VramSafety.StalePollOvercommits` | ollama-router/app/router.py:64-67 | the policy does choose twice after one poll and takes 16 GiB from a GPU with 10 free |
| `LaneMetrics.MetricsStore.Record` | ollama-router/app/metrics.py:47-70 | the store stays equal to the full log of recorded requests; a write that fails keeps the old file or leaves none readable, and a readable file always tells the log up to the last good write |
| `LaneMetrics.RecordedTells` | ollama-router/app/metrics.py:58-69 | recording keeps every cell equal to the count, error count, latency sum and last values of the log |
| `LaneMetrics.ScoreFromLog` | ollama-router/app/metrics.py:18-24 | the score of a lane in the log is its mean latency plus 5000 times its share of errors, to within 2.55 for two roundings |
| `LaneMetrics.LastEventKept` | ollama-router/app/metrics.py:64-69 | the last request leaves its error text, and its latency to the tenth |
| `LaneMetrics.BestLaneOfLog` | ollama-router/app/metrics.py:72-85 | a lane is the best lane exactly when it is the first minimiser of the score over lanes with at least 3 samples in the log |
| `LaneMetrics.AlwaysFailingWinsExactly` | ollama-router/app/metrics.py:72-85 | a lane whose every request failed is the best lane exactly when its average latency plus 5000 is the first least score |
| `LaneMetrics.AlwaysFailingMayWin` | ollama-router/app/metrics.py:72-85 | after three failed requests and no other the failing lane is the best lane |
| `LaneMetrics.BestLaneExists` | ollama-router/app/metrics.py:72-85 | there is a best lane exactly when some lane has 3 samples in the log |
| `LaneMetrics.BestLaneScoreOfLog` | ollama-router/app/metrics.py:87-92 | among resident lanes an unseen lane scores infinity, any other the score of its part of the log |
| `LaneMetrics.SaveLoad` | ollama-router/app/metrics.py:37-56 | loading what was saved restores the store, which still tells its log |
| `LaneMetrics.LoadAllOrNothing` | ollama-router/app/metrics.py:37-46 | one cell with an unknown key empties the store; without one every model is read |
| `Gateway.Proxy.Target` | ollama-router/app/main.py:129-138 | a pinned lane is used if healthy with a closed circuit and refused otherwise; else the policy chooses |
| `Gateway.PinnedMeans` | ollama-router/app/main.py:130-138 | a pinned lane that exists is taken if healthy with a closed circuit, and otherwise none is |
| `Gateway.UnpinnedMeans` | ollama-router/app/main.py:131-136 | without a pinned lane, or with one that does not exist, the policy chooses |
| `Gateway.AskingMeans` | ollama-router/app/router.py:50-58 | the policy is asked with the model, the margin, and exactly what the log of finished attempts says about its lanes |
| `Gateway.Proxy.Admit` | ollama-router/app/main.py:127-138 | a request chooses a lane eligible at that moment, or is refused with nothing changed |
| `Gateway.Proxy.Send` | ollama-router/app/main.py:140-149 | once the body has been read one attempt goes to the lane chosen before, whether or not it is still eligible |
| `Gateway.Proxy.Settle` | ollama-router/app/main.py:150-169 | every attempt makes exactly one metrics record and exactly one of on_failure and on_success, on its own lane |
| `Gateway.Proxy.Finish` | ollama-router/app/main.py:150-197 | a failed first attempt is sent once more, to a different lane chosen and eligible after the failure was marked; an answer below 500 is never sent again and leaves no failure and a closed circuit; the reply otherwise |
| `Gateway.AnswerMeans` | ollama-router/app/main.py:158-160 | an answer below 500, a 404 included, is a success: no error text, failures cleared, circuit closed |
| `Gateway.FailureMeans` | ollama-router/app/main.py:151-169 | an answer of 500 or more, or a transport error, counts as a failure or opens the circuit; the recorded text is HTTP and the status in decimal, or the text of the error |
| `Gateway.ResentMeans` | ollama-router/app/main.py:154-157 | nothing is sent again for an answer below 500 or a second attempt, and a second attempt goes to another lane, healthy with a closed circuit |
| `Gateway.Proxy.PollLane` | ollama-router/app/state.py:113-140 | polling one lane between any two steps of requests updates it by its own reading and no other lane, mark or request |
| `Gateway.Proxy.Refresh` | ollama-router/app/state.py:113-122 | a poll between requests updates every lane by its own reading and no request |
| `Gateway.ResentBalanced` | ollama-router/app/main.py:154-157 | the second attempt keeps the books: at most two attempts per request, on different lanes, none lost |
| `Gateway.AccountsBalance` | ollama-router/app/main.py:150-197 | over every interleaving and from any store, attempts sent are those finished and in flight and are the lanes tried; each model's request counters grow by its finished attempts, and its error counters by its failures exactly if no failed attempt had an empty error text |
| `Gateway.MarksBalance` | ollama-router/app/router.py:83-90 | over every interleaving a lane's failures and successes grow by exactly the attempts on it that ended so |
| `Gateway.SilentTimeout` | ollama-router/app/metrics.py:65-69 | a transport error whose text is empty is a failure the store does not count |
| `CanonicalJson.ParsePrint` | model-forge/packages/benchmark-schema/src/index.ts:155-169 | a reader that knows only the code points of RFC 8259 recovers every value, up to its normal form, from its text followed by any legal delimiter |
| `CanonicalJson.PrintsJson` | model-forge/packages/benchmark-schema/src/index.ts:155-169 | without undefined in it a value prints as JSON text, by that reader, which reads a value equal up to key order, NaN and -0 |
| `CanonicalJson.PairPrints` | model-forge/packages/benchmark-schema/src/index.ts:159-160 | two elements print between brackets, code points 91 and 93, with a comma, 44, between them |
| `CanonicalJson.TwoPropsPrint` | model-forge/packages/benchmark-schema/src/index.ts:162-167 | two properties print between braces, 123 and 125, the lesser key first whatever their order, each key before a colon, 58 |
| `CanonicalJson.EscapesExactly` | model-forge/packages/benchmark-schema/src/index.ts:157 | a unit stands for itself exactly if it is no quote, backslash, control or surrogate; the short escapes, and six lower-case units for the others |
| `CanonicalJson.PrefixFree` | model-forge/packages/benchmark-schema/src/index.ts:155-169 | delimited texts of two values agree only if the values have one normal form and the rests are equal |
| `CanonicalJson.PrintsAlike` | model-forge/packages/benchmark-schema/src/index.ts:155-169 | two values print alike exactly when equal up to key order, NaN against null, -0 against 0 and [undefined] against [] |
| `CanonicalJson.AlikeNorm` | model-forge/packages/benchmark-schema/src/index.ts:155-169 | the direct relation of equality up to key order is equality of normal forms |
| `CanonicalJson.PrintWellFormed` | model-forge/packages/benchmark-schema/src/index.ts:155-176 | the text never has a lone surrogate, so hashing it as UTF-8 loses nothing |
| `CanonicalJson.SortSorted` | model-forge/packages/benchmark-schema/src/index.ts:162 | keys come out in strict code-unit order |
| `CanonicalJson.LessMeans` | model-forge/packages/benchmark-schema/src/index.ts:162 | a key precedes another exactly if it is a proper prefix or has the smaller code unit where they first differ |
| `CanonicalJson.CharsRoundTrip` | model-forge/packages/benchmark-schema/src/index.ts:157 | string escaping is undone by reading the literal |
| `NumberText.RoundTrip` | model-forge/packages/benchmark-schema/src/index.ts:157 | the text of a finite number identifies it, except that both zeros share one |
| `NumberText.PrintIsJson` | model-forge/packages/benchmark-schema/src/index.ts:157 | every finite number prints by the number grammar of section 6 of RFC 8259 |
| `NumberText.WholeExactly` | model-forge/packages/benchmark-schema/src/index.ts:157 | with the point past the digits but at most at 21 the text is the digits and zeros up to the point |
| `NumberText.SplitExactly` | model-forge/packages/benchmark-schema/src/index.ts:157 | with the point among at most 21 digits the text is the digits with a point there |
| `NumberText.FractionExactly` | model-forge/packages/benchmark-schema/src/index.ts:157 | with the point up to five places before the digits the text is 0. and zeros up to them |
| `NumberText.ScientificExactly` | model-forge/packages/benchmark-schema/src/index.ts:157 | a number of at least 10^21 or below 10^-6 prints one digit, the others after a point, e, a sign, and an exponent with no leading zero |
| `BenchmarkRecord.EnvironmentBytesAgree` | model-forge/packages/benchmark-schema/src/index.ts:181-206 | the hashed environment text determines exactly the hardware, software and runtime fields named in it |
| `BenchmarkRecord.ResultBytesAgree` | model-forge/packages/benchmark-schema/src/index.ts:211-242 | the hashed result text determines exactly the model, precision, workload and metric fields named in it |
| `BenchmarkRecord.SameBytes` | model-forge/packages/benchmark-schema/src/index.ts:173-176 | the bytes hashed for two objects are equal exactly when the objects are alike |
| `BenchmarkRecord.BytesReadBack` | model-forge/packages/benchmark-schema/src/index.ts:173-176 | the hashed bytes are UTF-8 of the canonical text, and from them a value equal up to key order is read back |
| `BenchmarkRecord.EnvironmentFields` | model-forge/packages/benchmark-schema/src/index.ts:186-205 | hardware, software and runtime stand under their own names, and so do the two runtime fields |
| `BenchmarkRecord.HardwareFields` | model-forge/packages/benchmark-schema/src/index.ts:187-193 | each of the five hardware fields stands under its own name, and nothing else does |
| `BenchmarkRecord.SoftwareFields` | model-forge/packages/benchmark-schema/src/index.ts:194-200 | each of the five software fields stands under its own name, undefined where it is absent |
| `BenchmarkRecord.ResultFields` | model-forge/packages/benchmark-schema/src/index.ts:217-241 | the four parts of a result stand under their own names |
| `BenchmarkRecord.ModelFields` | model-forge/packages/benchmark-schema/src/index.ts:218-227 | each hashed model and precision field stands under its own name |
| `BenchmarkRecord.WorkloadFields` | model-forge/packages/benchmark-schema/src/index.ts:228-234 | each of the five workload fields stands under its own name |
| `BenchmarkRecord.MetricsFields` | model-forge/packages/benchmark-schema/src/index.ts:235-240 | each of the four hashed metrics stands under its own name, the medians for the two latencies |
| `BenchmarkRecord.ValidateBenchmarkIntegrity` | model-forge/packages/benchmark-schema/src/index.ts:247-286 | valid exactly when both stored hashes match and a synthetic fixture is not verified; each error is reported once, exactly in its case, in the order of the tests |
| `BenchmarkRecord.HashesPinHashedFields` | model-forge/packages/benchmark-schema/src/index.ts:247-286 | without a collision, a record whose stored hashes validate agrees on every hashed field with the record they were made from, and conversely |
| `Speculative.ClosedForm` | model-forge/packages/benchmark-cli/modelforge/speculative.py:70 | the closed form for expected tokens is the sum of alpha^i for i = 0..gamma |
| `Speculative.StepDirection` | model-forge/packages/benchmark-cli/modelforge/speculative.py:69-71 | the sign of the gain decides whether one more draft token helps |
| `Speculative.Unimodal` | model-forge/packages/benchmark-cli/modelforge/speculative.py:66-74 | once the speedup fails to rise it falls ever after |
| `Speculative.ScanGamma` | model-forge/packages/benchmark-cli/modelforge/speculative.py:66-74 | the scan returns the first best lookahead in 1..10 |
| `Speculative.ScanIsGlobal` | model-forge/packages/benchmark-cli/modelforge/speculative.py:66-74 | a winner below 10 is the best of all lookaheads of at least 1 |
| `Speculative.ScanAtEdge` | model-forge/packages/benchmark-cli/modelforge/speculative.py:66-74 | a winner of 10 is the best of all exactly when 11 does not beat it |
| `Speculative.BreakEvenExact` | model-forge/packages/benchmark-cli/modelforge/speculative.py:69-81 | some lookahead gives a speedup above 1 exactly when alpha exceeds t_draft / t_target |
| `Speculative.ScanSuffices` | model-forge/packages/benchmark-cli/modelforge/speculative.py:66-74 | for acceptance up to 0.82 and a draft step of at least a sixth of the target's the scan's winner is at most 5 and the best of all lookaheads |
| `Speculative.ProfilePair` | model-forge/packages/benchmark-cli/modelforge/speculative.py:50-96 | for every model, draft and domain the reported optimal lookahead is the best of all; a requested one gets its rounded quantities; fails only on a zero cost |
| `Speculative.ReferencePairs` | model-forge/packages/benchmark-cli/modelforge/speculative.py:12-61 | the reference figures of each pair, and the acceptance shifted by exactly the domain adjustment: neither clamp ever acts |
| `Speculative.ReferenceFigures` | model-forge/packages/benchmark-cli/modelforge/speculative.py:81-94 | the reported memory overhead, draft model and rounded break-even of each reference pair and of any other target |
| `Speculative.StepsAt` | model-forge/packages/benchmark-cli/modelforge/speculative.py:77-78 | cost and tokens at any lookahead, negative ones included, by their values at zero and their steps |
| `Speculative.Sweep` | model-forge/packages/benchmark-cli/modelforge/speculative.py:99-108 | the ten reported speedups and expected token counts for lookaheads 1..10 |
| `Speculative.SweptNearest` | model-forge/packages/benchmark-cli/modelforge/speculative.py:79-92 | a reported speedup is 0.92 times the theoretical one to the nearest hundredth |
| `Speculative.SweepUnimodal` | model-forge/packages/benchmark-cli/modelforge/speculative.py:99-108 | a reported drop is never followed by a higher reported speedup |
| `SmartRouter.Client.RouteRequest` | model-forge/packages/benchmark-cli/modelforge/smart_router.py:37-74 | the first warm backend, else the first least loaded one, gets the request and the prefix; raises exactly if none serves the model |
| `SmartRouter.Client.TriggerSpotDrain` | model-forge/packages/benchmark-cli/modelforge/smart_router.py:76-99 | the worker drains, forgets its prefixes and hands its requests to the first other active backend |
| `SmartRouter.RouteEffect` | model-forge/packages/benchmark-cli/modelforge/smart_router.py:47-62 | a request changes one record: the first warm active backend of its model, else one of least load, gets one request and the prefix |
| `SmartRouter.DrainEffect` | model-forge/packages/benchmark-cli/modelforge/smart_router.py:78-91 | a drain empties one record, and of the others at most one changes, by exactly the requests taken |
| `SmartRouter.TakerMeans` | model-forge/packages/benchmark-cli/modelforge/smart_router.py:88-91 | the one that takes over is the first other record that is active, whatever its model |
| `SmartRouter.RunAgrees` | model-forge/packages/benchmark-cli/modelforge/smart_router.py:37-91 | over every run the warm sets are exactly an abstract (model, prefix) to backend map |
| `SmartRouter.WarmPrefixesExclusive` | model-forge/packages/benchmark-cli/modelforge/smart_router.py:47-62 | in every reachable state a prefix is warm in at most one backend per model, which is active |
| `SmartRouter.StickyRouting` | model-forge/packages/benchmark-cli/modelforge/smart_router.py:47-62 | a request hits exactly when the map knows its prefix, and then goes where the map says |
| `SmartRouter.StickyUntilDrained` | model-forge/packages/benchmark-cli/modelforge/smart_router.py:76-86 | an entry of the map dies only when the backend it names is drained |
| `SmartRouter.RouteAddsOne` | model-forge/packages/benchmark-cli/modelforge/smart_router.py:61 | a routed request adds exactly one to the total load |
| `SmartRouter.DrainConserves` | model-forge/packages/benchmark-cli/modelforge/smart_router.py:82-91 | a drain keeps the total exactly when the worker was idle or another backend is active |
| `SmartRouter.SecondDrainDropsAll` | model-forge/packages/benchmark-cli/modelforge/smart_router.py:76-91 | draining both workers of the default pool drops its four requests at the second drain |
| `SmartRouter.ColdDispatchBalances` | model-forge/packages/benchmark-cli/modelforge/smart_router.py:53-62 | cold requests to one model never widen its load spread beyond the larger of its start and 1 |
| `StateCodec.ApplyKey` | inference-api/app/static/js/dashboard.js:16-19 | the loop masks every code unit with the repeating key |
| `StateCodec.MaskBits` | inference-api/app/static/js/dashboard.js:18 | each bit of a stored unit is the exclusive or of the text's bit and the key's |
| `StateCodec.SameClassesWellFormed` | inference-api/app/static/js/dashboard.js:16-20 | masking keeps surrogate classes, so it neither makes nor breaks well-formedness |
| `StateCodec.Encrypt` | inference-api/app/static/js/dashboard.js:14-21 | succeeds exactly on well-formed text, and what it stores decrypts to that text |
| `StateCodec.Decrypt` | inference-api/app/static/js/dashboard.js:23-34 | any text it returns is well-formed, can be stored again, and reads back the same; null where a layer throws |
| `StateCodec.RoundTrip` | inference-api/app/static/js/dashboard.js:14-34 | storing succeeds exactly on well-formed text, and reading it back gives that text |
| `StateCodec.ReadIsStorable` | inference-api/app/static/js/dashboard.js:23-34 | whatever reading yields can be stored again and reads back the same |
| `StateCodec.AtobBtoa` | inference-api/app/static/js/dashboard.js:20-25 | base64 decoding undoes encoding on every byte string |
| `StateCodec.AlphabetTable` | inference-api/app/static/js/dashboard.js:20-25 | the 64 letters and their values are those of the standard, both ways |
| `StateCodec.GroupMeans` | inference-api/app/static/js/dashboard.js:20 | the letters of a group are the base-64 digits of its bytes as one number, filled up with zero bits |
| `StateCodec.StandardVectors` | inference-api/app/static/js/dashboard.js:20 | three test vectors of section 10 of RFC 4648 |
| `StateCodec.AtobAccepts` | inference-api/app/static/js/dashboard.js:25 | what decoding accepts: no lone last letter, and padding only as far as it fills the last group |
| `StateCodec.EmptyState` | inference-api/app/static/js/dashboard.js:14-21 | an empty state is stored as GhQ= |
| `Utf16.DecodeEncode` | inference-api/app/static/js/dashboard.js:20-25 | UTF-8 decoding undoes encoding on every string that can be encoded |
| `Utf16.EncodeDecode` | inference-api/app/static/js/dashboard.js:20-25 | the UTF-8 decoder accepts no second spelling of a string |
| `Utf16.EncodeDefined` | inference-api/app/static/js/dashboard.js:20 | UTF-8 encoding is defined exactly on strings without lone surrogates |
| `Utf16.UnitBytes` | inference-api/app/static/js/dashboard.js:20 | a unit is encoded by exactly the bytes of the table in section 3 of RFC 3629 |
| `Utf16.PairBytes` | inference-api/app/static/js/dashboard.js:20 | a surrogate pair is encoded by exactly the four bytes of its code point |
| `ReportCache.Cache.CheckMemory` | inference-api/app/main.py:2747-2750 | a call begins, and passes memory if the entry is younger than the TTL |
| `ReportCache.Cache.CopyMemory` | inference-api/app/main.py:2752-2757 | whatever ran since the check, the report served is younger than the TTL if computed here, than twice the TTL if read from disk, plus the time it waited to be placed and the time since the check |
| `ReportCache.Cache.Place` | inference-api/app/main.py:2766-2776 | the stamped report replaces the one in memory and is served, written less than the TTL before it was let in |
| `ReportCache.Cache.Report` | inference-api/app/main.py:2738-2778 | the steps of a call that runs alone add up to its exact tier, report and new caches |
| `ReportCache.Cache.OtherWorkerWrites` | inference-api/app/main.py:2742-2744 | another worker replacing the shared file keeps the staleness invariant |
| `ReportCache.NearlyTheBound` | inference-api/app/main.py:2759-2767 | the bound is tight for every gap and wait: a run serves a report twice the TTL plus both less any epsilon old |
| `ReportCache.OutlivesTtlExactly` | inference-api/app/main.py:2740-2766 | an entry can be served at the TTL's age or later exactly when its memory timestamp is later than its write |
| `EventHub.StepKeeps` | inference-api/app/main.py:4506-4605 | every step of every coroutine keeps the numbering, and no record set by the server and no delivered number passes the counter |
| `EventHub.NumbersGapFree` | inference-api/app/main.py:4586-4592 | under every interleaving the numbers allocated are 1, 2, 3, ... in order |
| `EventHub.LastSeqCoversDeliveries` | inference-api/app/main.py:4545-4605 | a number a sync or broadcast delivered to a subscriber still registered is at most its last_seq; only numbers told by heartbeats can exceed it |
| `EventHub.LastSeqMissesExactly` | inference-api/app/main.py:4523-4605 | over every run a delivered number exceeds the record's last_seq exactly when it was that of a heartbeat, or of a state sync which ended after its target had left, and no send stamped the record since the number was allocated |
| `EventHub.LateSyncMissed` | inference-api/app/main.py:4558-4561 | a run in which number 2 reaches a client that has left, and its record stays at 1 |
| `EventHub.HeartbeatRunsAhead` | inference-api/app/main.py:4523-4525 | a run in which a heartbeat tells a registered client the number 2 while its record stays at 1 |
| `EventHub.LastSeqMonotone` | inference-api/app/main.py:4559-4605 | once set by the server, last_seq never decreases |
| `EventHub.LastSeqIsNumberSent` | inference-api/app/main.py:4543-4603 | over every run last_seq is at least the number of the send that last stamped it, and equals it exactly when no number was allocated from that allocation to the end of the send |
| `EventHub.LastSeqMayOvertakeDeliveries` | inference-api/app/main.py:4559 | a run in which last_seq exceeds every number delivered to the subscriber |
| `EventHub.ClientSeqUnchecked` | inference-api/app/main.py:4497-4512 | a hello may set last_seq to any number, even one not yet allocated |
| `EventHub.Server.Connect` | inference-api/app/main.py:4506-4515 | a new subscriber is registered with its own last_seq and its sync begins |
| `EventHub.Server.StartBroadcast` | inference-api/app/main.py:4582-4598 | a known event type takes the next number and the current subscribers; an unknown one takes none |
| `EventHub.Server.BroadcastTurn` | inference-api/app/main.py:4598-4605 | one target: stamped with the counter of that moment, dropped on failure, or skipped |
| `EventHub.BroadcastReachesAll` | inference-api/app/main.py:4598-4605 | over every run: the subscribers that had a turn of a broadcast, then those still pending, are the registry at its start, in order and without repetition; so once its task is gone each had exactly one turn |
| `EventHub.TurnEffect` | inference-api/app/main.py:4598-4605 | a turn delivers and stamps, or unregisters, exactly its target |
| `EventHub.OtherTasksKept` | inference-api/app/main.py:4598-4605 | a step on one task leaves every other task as it was |
| `EventHub.UnknownTypeIgnored` | inference-api/app/main.py:4584-4585 | an unknown event type takes no number and starts nothing |
| `EventHub.Server.AllocateSync` | inference-api/app/main.py:4533-4543 | a state sync takes the next number once its snapshot is gathered |
| `EventHub.Server.FinishSync` | inference-api/app/main.py:4545-4561 | a sent sync is delivered, and stamps its target only if still registered; a failed one changes no record |
| `EventHub.Server.Heartbeat` | inference-api/app/main.py:4521-4525 | a handler that waited in vain sends the counter as it stands |
| `EventHub.Server.FinishHeartbeat` | inference-api/app/main.py:4523-4529 | a sent heartbeat stamps nothing; one that raises ends the handler and its registration |
| `RateLimiter.KeyInjective` | inference-api/app/middleware/security.py:269 | the bucket key determines address and minute, even for addresses with colons |
| `RateLimiter.KeyMeans` | inference-api/app/middleware/security.py:269 | the key is the address, a colon and the minute in decimal |
| `RateLimiter.PrunedMeans` | inference-api/app/middleware/security.py:264-267 | up to 10000 buckets all stay; above that exactly those at most two minutes old do |
| `RateLimiter.RequestAgrees` | inference-api/app/middleware/security.py:264-273 | whatever was pruned, for a minute not yet past the dict holds the count of the unpruned ledger |
| `RateLimiter.Limiter.Dispatch` | inference-api/app/middleware/security.py:259-286 | a request is forwarded exactly when fewer than the limit came from its address in its minute before it |
| `RateLimiter.Limiter.Reply` | inference-api/app/middleware/security.py:287-290 | the remaining count of a reply takes off every request of that address and minute up to the reply, later ones included, and not below zero |
| `RateLimiter.ExactlyTheFirst` | inference-api/app/middleware/security.py:272-275 | of the requests of an address in a minute exactly the first requests_per_minute + burst are forwarded |
| `Planner.GpusNeededIsLeast` | model-forge/packages/benchmark-cli/modelforge/planner.py:99-102 | the GPU count is the least n of at least 1 with n * 0.9 * VRAM covering weights, KV cache and 2 GB |
| `Planner.TotalMeans` | model-forge/packages/benchmark-cli/modelforge/planner.py:88-99 | what must be covered: one byte a parameter in FP8 and two otherwise, 131072 bytes for each token of each request, and 2 GB |
| `Planner.ThroughputMeans` | model-forge/packages/benchmark-cli/modelforge/planner.py:106-107 | throughput is 40 tokens a second for each 1000 GB/s over 1.1 times the bytes of a parameter, at 85% for each of several GPUs |
| `Planner.CostMeans` | model-forge/packages/benchmark-cli/modelforge/planner.py:109-111 | the price of a million tokens at that throughput, to the cent |
| `Planner.FirstTokenMeans` | model-forge/packages/benchmark-cli/modelforge/planner.py:108 | the time to the first token is 400 times the context over the bandwidth in whole milliseconds, and at least 75 |
| `Planner.FitMeans` | model-forge/packages/benchmark-cli/modelforge/planner.py:113-116 | the fit says exactly which of the two limits the estimate keeps |
| `Planner.EstimateMeans` | model-forge/packages/benchmark-cli/modelforge/planner.py:101-111 | every estimate is for the least count, and takes throughput, latency and price from it |
| `Planner.LargeModel` | model-forge/packages/benchmark-cli/modelforge/planner.py:16-62 | the estimate for a 70.6B model in FP8 on the two Hopper devices of the table |
| `Planner.LargeModelElsewhere` | model-forge/packages/benchmark-cli/modelforge/planner.py:16-62 | the same estimate on the other three devices of the table |
| `Planner.RuntimesDiffer` | model-forge/packages/benchmark-cli/modelforge/planner.py:117-182 | how throughput, latency, cost and fit of the three runtimes follow from one estimate |
| `Planner.DynamoFirst` | model-forge/packages/benchmark-cli/modelforge/planner.py:117-185 | Dynamo is ranked before the other runtimes of its device and precision, though it costs more |
| `Planner.GeneratedSized` | model-forge/packages/benchmark-cli/modelforge/planner.py:93-182 | every candidate has the least count, at most 8, doubled only for Dynamo on a single GPU, and a runtime and precision offered for its device |
| `Planner.ContributesExactly` | model-forge/packages/benchmark-cli/modelforge/planner.py:93-182 | a device and precision contribute a candidate for a runtime exactly when the runtime is offered for them and 8 GPUs hold the model |
| `Planner.RuntimeContributes` | model-forge/packages/benchmark-cli/modelforge/planner.py:101-182 | the same in figures: NVIDIA for Dynamo and NIM, four concurrent requests for Dynamo, and 8 GPUs at 90% that hold the model |
| `Planner.SynthesizeCandidates` | model-forge/packages/benchmark-cli/modelforge/planner.py:80-191 | at most six candidates, ordered by fit, cost and throughput, ranked from 1, and no omitted one precedes a returned one |
| `Planner.RankedMeans` | model-forge/packages/benchmark-cli/modelforge/planner.py:184-191 | a ranked candidate has no lower fit than any later or omitted one, at equal fit no higher cost, and then no lower throughput |
| `Planner.GeneratedInOrder` | model-forge/packages/benchmark-cli/modelforge/planner.py:93-182 | a device yields FP8 before FP16, and Dynamo before NIM before vLLM |
| `Planner.SortStable` | model-forge/packages/benchmark-cli/modelforge/planner.py:184-185 | candidates that tie keep the order of generation |
| `ErrorMetrics.ComputeOfflineMetrics` | model-forge/packages/performance-predictor/src/evaluator.ts:41-77 | the loop computes the defined sums and percentile; the index clamp never binds |
| `ErrorMetrics.MeansShareTotals` | model-forge/packages/performance-predictor/src/evaluator.ts:71-77 | each mean times the count is its total |
| `ErrorMetrics.TotalsOfMore` | model-forge/packages/performance-predictor/src/evaluator.ts:56-63 | a further pair adds its absolute error, its percentage error and the square of its error to the totals |
| `ErrorMetrics.ApeMeans` | model-forge/packages/performance-predictor/src/evaluator.ts:57-58 | the percentage error times the actual value, or 0.001 if larger, is 100 times the absolute error |
| `ErrorMetrics.MaeAgainstRmse` | model-forge/packages/performance-predictor/src/evaluator.ts:51-75 | mae^2 <= rmse^2 <= n * mae^2 for every non-empty list |
| `ErrorMetrics.PercentileCovers` | model-forge/packages/performance-predictor/src/evaluator.ts:65-75 | more than nine tenths of the percentage errors are at most the reported percentile, which is one of them |
| `ErrorMetrics.PercentileTight` | model-forge/packages/performance-predictor/src/evaluator.ts:65-75 | at most nine tenths of the percentage errors are below the reported percentile |
| `ErrorMetrics.OrderIrrelevant` | model-forge/packages/performance-predictor/src/evaluator.ts:56-75 | the metrics do not depend on the order of the pairs |
| `FuzzyMatch.Fuzzy` | inference-api/app/static/js/epic.js:12-26 | a match exactly when the lowered query is a subsequence of the lowered text; exact substring score, else between the query length and nine less than ten times it |
| `FuzzyMatch.Walk` | inference-api/app/static/js/epic.js:17-25 | the greedy loop takes the leftmost places and finds exactly the subsequences; one point a letter and nine more for each next to the one before or at the start; ten a letter exactly if the text starts with the query |
| `FuzzyMatch.GreedyAhead` | inference-api/app/static/js/epic.js:18-24 | no other choice of places for the query is ahead of the leftmost ones |
| `FuzzyMatch.GreedySafe` | inference-api/app/static/js/epic.js:18-24 | matching a letter at its first place loses no match |

## Left out

- VramFor: the size guess from a model's name (a regular expression and a table of quantization factors) is an arbitrary function.
- GenerateCandidates: the parameter count is an input; the ladder that reads it off the model name is one look-up.
- ComputeOfflineMetrics: the numbers are those before `toFixed(2)`, and the mean square is given rather than its root.
- Fuzzy: lower-casing is an arbitrary function on strings.
- Outcome: an exception outside `httpx.HTTPError` (a cancelled request, an invalid URL) leaves an attempt with no mark and no record.
- Skipped: no caller passes `target_subs`, so the step does not occur at present; the theorems allow it.
- ParsePrint: BigInt, symbols, functions and sparse arrays are not values of the model.
- Connect: connection ids are taken to be distinct; the source draws eight hexadecimal digits at random.
- RouteRequest: two prompts with one prefix hash are one prefix, and the overhead timing and request ids are not modelled.
- PollLane: a lane is polled in one step; the source polls in a second thread, which can run between any two statements of the event loop.
- LoadMetric: a metrics file whose fields have the wrong JSON type is not modelled.
- A response body, its headers and the HTTP client; a pinned lane that does not exist falls through to the policy as in the source.
- `awardXP` and the rest of the dashboard, its panels and charts.
- `systemctl`, `nvidia-smi`, the watchdog and the autoscaler of the GPU router.
- `middleware/rate_limit.py`, whose Redis member is the current second, so that it counts seconds and bounds no requests.
- The jobs list, the reconciler, policy and execution engines, the SLO compiler and the job queue.
- Hash equality between the TypeScript and Python schemas.
- Authentication, tokens, signatures and threat patterns.
