# ModelPilot gateway: verification model

This project models the stateful core of the ModelPilot backend in Dafny and proves properties of the
model for all inputs, all runs and all interleavings.

* **Circuit breaker and probe leases.** `Circuit` is the health record as a pure state machine;
  `CircuitHistory` relates a run of outcomes to the failures it counted; `CircuitObservation` compares reads
  that advance lazily with a machine that writes every advance. `Probes` and `HealthManager` are the two
  mutable components. `GatewaySystem` is the transition system of any number of concurrent calls (admission,
  explicit start, completion, stale release, passing time), over leases of any type, objects included.
* **Requests.** `GatewayService` is the gateway as one object. It records its own history as an execution of
  `GatewaySystem`, so the theorems about reachable states hold of the object itself, and it runs the fallback loop
  with arbitrary steps of other requests before and during every provider call. Every turn of a request is a visit on
  that record: one start of the candidate, and one completion with its provider's answer unless it was refused. `Fallback` is the account of one
  request: what its turns mean for calls, logs, evidence and the ending. `Explanation` is the routing explanation
  with its validator and its health rewrite.
* **Scoring and ranking.** `Scoring` is the confidence-blended score over reals, `Ranking` the order and what
  a position means, `Router` the deduplicating, filtering and explaining router, `RoutingInputs` what the router
  reads from the stores.
* **Benchmarks.** `Decimals` and `NumericEvaluator` are the bounded-precision tolerance decision, `Json` the tree
  equality and the object hook, `Benchmark` the definitions and validators, `BenchmarkRunner` the runner loop,
  `QualityMetrics`, `QualityEvidence` and `Quality` the aggregation of history, `QualityResolver` the aggregation of
  stored history, `RunnerHistory` the way from the runner to the resolver.
* **Stored form.** `Timestamps` is the fixed-width UTC text, `BenchmarkStore` the flat immutable history,
  `MetricsStore` the window of recent attempts and its percentiles.

`dafny verify dfyconfig.toml` checks everything. Times of the circuit breaker are integers (microseconds), times of
stored records are UTC field records; scores, weights and latencies are reals. Clocks, store failures, provider
replies, identifiers and randomness are parameters, so every theorem is about all of them. The dictionary of
evidence and the dictionary of sources that the aggregator writes side by side are one map of attempts here.
Exceptions are enumerated error results. Lemmas switch automatic induction off, so every inductive proof is written out.

Findings about the code:

* A success or counted failure settles a half-open circuit except when it finished before the record's last update;
  then it is rejected and the record stays half-open (`DecisiveOutcomeLeavesHalfOpen`, over interleavings
  `DecisiveCompletionSettles`). A probe's own success can be lost that way (`LateCompletionIsReachable`): one call times
  out and opens the circuit, the probe is admitted with the key's lease, a stale call fails without being counted and
  so writes the advance, and the probe's success, which finished in between, is processed last. When the outcomes of a key are processed in the order in which they finished it cannot arise
  (`OrderedCompletionsSettle`).
* Reading lazily and writing every observation agree on every outcome except one that finished after the cooldown
  but before an observation that wrote the advance; the lazy record accepts it (`LateOutcomeSeparates`, reached from no
  record in `LateSuccessSeparates`).
* `ConfidenceRamp`: the repository's README says measured signals are ignored below five samples; the code ignores
  them at exactly five samples as well, and the model follows the code.
* `PrecisionThreshold`: the tolerance comparison is exact at a precision if and only if the tolerance has a form with at
  most that many digits. The code's precision always is enough; the tolerance's own digits alone would be too
  (`ToleranceDigitsSuffice`), so neither the operands' digits nor the two extra ones are needed.

## Model

| member | source | states |
|---|---|---|
| Circuit.TransitionNeverBuildsInvalidRecord | backend/src/modelpilot/health/models.py:59-152 | No transition the code can build from a valid record ever fails the record validator, for any outcome time, policy and verdict. |
| Circuit.AcceptedExactlyWhen | backend/src/modelpilot/health/models.py:92-147 | Which outcomes are accepted: exactly those not older than the record that do not meet a circuit still open at their finishing time (an uncounted failure is accepted there too). |
| Circuit.DecisiveOutcomeLeavesHalfOpen | backend/src/modelpilot/health/models.py:106-139 | After a decisive outcome the record is half-open if and only if it was half-open already and the outcome is older than its last update. |
| Circuit.IneligibleExactlyWhenBlocked | backend/src/modelpilot/health/eligibility.py:28-46 | Routing refuses a key exactly when its stored circuit is OPEN and the deadline has not come; an absent or unreadable record is eligible. |
| Circuit.EvidenceReports | backend/src/modelpilot/health/eligibility.py:28-46 | What routing is told: effective state, count and deadline of a readable record with the reason that goes with the state, and the fail-open reading exactly when the record cannot be read or is ahead of the clock. |
| Circuit.CountedExactly | backend/src/modelpilot/health/models.py:110-118 | Every failure counts except a refused authentication; a failure without an error type is refused. |
| CircuitHistory.StreakExtends | backend/src/modelpilot/health/models.py:106-139 | The counted failures since the last accepted success grow by one counted failure and are cleared by a success. |
| CircuitHistory.CountedFailureEffect | backend/src/modelpilot/health/models.py:106-139 | An accepted counted failure counts one more, comes after any running cooldown, and opens the circuit exactly when it was broken before or the threshold is reached, with the new deadline. |
| CircuitHistory.OtherOutcomeEffect | backend/src/modelpilot/health/models.py:92-118 | An accepted success closes the circuit, clears the count and notes its time; an uncounted failure leaves count, times and window alone and writes at most the advance. |
| CircuitHistory.RunSummarizes | backend/src/modelpilot/health/manager.py:23-48 | Run invariant from no record or from one that any earlier run left, even under another policy: count, state, opening and deadline, and the time of a failure counted since, are exactly what the carried failures and the counted failures since the last success amount to. |
| CircuitHistory.SpacedSpan | backend/src/modelpilot/health/models.py:79-134 | Failures counted after the one that opened the circuit are at least one cooldown apart, so together they span that many cooldowns. |
| CircuitHistory.OutageBound | backend/src/modelpilot/health/models.py:115-134 | For every run and every starting record: the failures counted after the opening one, times the cooldown, fit between that failure and the latest opening, and none came before the deadline running at the start; without a counted failure the opening is the one on record. |
| CircuitHistory.NewOutage | backend/src/modelpilot/health/models.py:115-134 | For an outage that began in the run: (failures - threshold) * cooldown fits between the threshold-th failure of the streak and the latest opening. |
| CircuitHistory.ContinuedOutage | backend/src/modelpilot/health/models.py:115-134 | For an outage going on at the start under the same cooldown: the failures counted since, times the cooldown, fit between the two openings. |
| CircuitHistory.FaultsAreInvisible | backend/src/modelpilot/health/manager.py:24-47 | Deliveries lost to store faults leave the same final record and history as if they had never been made. |
| CircuitHistory.LateSuccessStaysHalfOpen | backend/src/modelpilot/health/models.py:92-118 | A run from no record, for every cooldown, in which a success that finished before the written advance is refused and the record stays half-open. |
| CircuitObservation.RelatedStep | backend/src/modelpilot/health/models.py:79-139 | One step of the simulation: related lazy and eager records give related records and agree on acceptance. |
| CircuitObservation.RunsStayRelated | backend/src/modelpilot/health/models.py:79-139 | For nondecreasing times, a machine that never writes the OPEN to HALF_OPEN advance and one that writes it at arbitrary observations stay related over whole runs. |
| CircuitObservation.LazyReadsAreInvisible | backend/src/modelpilot/health/eligibility.py:28-46 | The two machines give the same eligibility at every later instant and, after a success or counted failure, the same record. |
| CircuitObservation.UncountedFailureDiffersInTimeOnly | backend/src/modelpilot/health/models.py:116-118 | After an uncounted failure the two records differ at most in the update time and the written advance. |
| CircuitObservation.LateOutcomeSeparates | backend/src/modelpilot/health/models.py:79-147 | Without a nondecreasing clock: the two machines disagree on acceptance if and only if the outcome finished after the deadline but before the observation. |
| CircuitObservation.LateSuccessSeparates | backend/src/modelpilot/health/models.py:79-147 | That disagreement is reached from no record for every cooldown: the lazy circuit closes and the eager one stays half-open. |
| Probes.HalfOpenProbeCoordinator.TryAcquire | backend/src/modelpilot/health/probes.py:18-25 | A free key gets a fresh lease object and is claimed; a claimed key gets none and nothing changes. |
| Probes.HalfOpenProbeCoordinator.Release | backend/src/modelpilot/health/probes.py:27-32 | Only the very lease object on record is removed; any other release changes nothing. |
| Probes.HalfOpenProbeCoordinator.IsInFlight | backend/src/modelpilot/health/probes.py:34-36 | True exactly for claimed keys. |
| Probes.ReleaseUndoesAcquire | backend/src/modelpilot/health/probes.py:18-32 | Releasing the acquired lease restores the claims there were before. |
| Probes.StaleReleaseKeepsNewOwner | backend/src/modelpilot/health/probes.py:27-32 | A release of an equal but different lease object leaves the current owner in place. |
| HealthManager.ProviderHealthManager.Update | backend/src/modelpilot/health/manager.py:23-48 | The table after an update is the specified one; rejection and store faults leave the whole table untouched, and other keys never change. |
| HealthManager.UpdateKeepsHealth | backend/src/modelpilot/health/manager.py:23-48 | Every update keeps the table invariant: each record satisfies the run invariant, sits under its own key and is not from the future. |
| GatewaySystem.ReachableInvariant | backend/src/modelpilot/service.py:172-211 | In every interleaving: leases match in-flight probing calls one to one, and every stored record satisfies the run invariant. |
| GatewaySystem.RestartIsStart | backend/src/modelpilot/service.py:172-211 | From the health left behind in any reachable state a new gateway may start, under any policy. |
| GatewaySystem.SingleFlightProbes | backend/src/modelpilot/service.py:192-211 | In every reachable state of every interleaving, for leases of any type, no key has two outstanding probes, a lease is held exactly by the in-flight call admitted with it, and a quiescent state has no leases. |
| GatewaySystem.CompletionReleasesExactlyItsLease | backend/src/modelpilot/service.py:204-211 | Success, failure, exception and cancellation each remove the call's own lease and no other. |
| GatewaySystem.StaleReleaseChangesNothing | backend/src/modelpilot/health/probes.py:27-32 | Releasing a lease no in-flight call holds changes nothing, in every reachable state. |
| GatewaySystem.CallStartsExactlyWhenAllowed | backend/src/modelpilot/service.py:172-204 | With a readable store an automatic call starts if and only if the stored circuit does not block and the probe, when one is due, is free; a probing call is the only leaseholder of its key. |
| GatewaySystem.UnreadableStoreFailsOpen | backend/src/modelpilot/router.py:200-208 | With an unreadable store the call starts, without a lease. |
| GatewaySystem.AdmissionReports | backend/src/modelpilot/service.py:172-190 | The evidence is passed on as it is, except that a recovering circuit is reported as a probe when its lease is free and as refused when another call probes. |
| GatewaySystem.DecisiveCompletionSettles | backend/src/modelpilot/service.py:199-211 | In every reachable state, a success or counted failure processed without a store fault leaves HALF_OPEN if and only if the record was HALF_OPEN and the outcome finished before its last update. |
| GatewaySystem.OrderedCompletionsSettle | backend/src/modelpilot/service.py:199-211 | If no earlier delivery to the key, nor its persisted record, is later than the outcome, a success or counted failure always leaves CLOSED or OPEN. |
| GatewaySystem.LateCompletionIsReachable | backend/src/modelpilot/service.py:199-211 | For every cooldown and lease, an interleaving of three calls reaches a state in which a probe's own success is refused: its lease is given back and the circuit stays HALF_OPEN. |
| GatewaySystem.ConcurrentHealthIsSequential | backend/src/modelpilot/service.py:204-222 | However calls interleave, the stored record of a key is the one a sequential circuit computes from the deliveries to that key. |
| GatewaySystem.ConcurrentRunSummarizes | backend/src/modelpilot/service.py:204-222 | In every interleaving the stored record of a key is what its persisted record and the outcomes accepted since amount to. |
| GatewaySystem.ConcurrentOutageBound | backend/src/modelpilot/service.py:192-222 | The outage bound holds for every key in every interleaving, whatever record was persisted before the start. |
| GatewayService.GatewayService.AdmitProbe | backend/src/modelpilot/service.py:172-190 | Admission claims a lease exactly when the fresh evidence is half-open and none is claimed, and reports the matching evidence. |
| GatewayService.GatewayService.BeginInvocation | backend/src/modelpilot/service.py:192-204 | Up to the provider call, an invocation performs exactly one admission (or explicit start) step of the transition system. |
| GatewayService.GatewayService.FinishInvocation | backend/src/modelpilot/service.py:204-222 | From the provider's return on, an invocation performs exactly one completion step, releasing its lease in every case. |
| GatewayService.GatewayService.InvokeCandidate | backend/src/modelpilot/service.py:172-222 | With any steps of other requests around it, an invocation records one start of exactly this candidate on the state its evidence is about, and, unless refused, one completion with exactly its provider's answer: an outcome is delivered to health, any other answer leaves health alone. |
| GatewayService.AnswerReachesHealth | backend/src/modelpilot/service.py:204-222 | The completion of a call adds its outcome, and nothing else, to the deliveries of the outcome's key, and the stored record of every key follows. |
| GatewayService.GatewayService.TryCandidates | backend/src/modelpilot/service.py:70-123 | The loop's turns are consecutive recorded visits of the ranked candidates up to the first ending reply, and calls, records, attempts and evidence are exactly those of the turns. |
| GatewayService.GatewayService.Complete | backend/src/modelpilot/service.py:57-170 | A request among others yields the account of its recorded visits: success, all-failed, nothing-available and propagation told apart exactly, request log and decision written exactly in the first two, and a valid explanation. |
| GatewayService.RequestEndsAsAnswered | backend/src/modelpilot/service.py:70-170 | Over what the providers answered: served by the first called candidate that did not fail if it answered, broken off by it otherwise, failed everywhere exactly when every called one failed, without a provider exactly when none was called. |
| GatewayService.RequestRecordsAsAnswered | backend/src/modelpilot/service.py:72-123 | Calls are exactly the recorded ones in rank order, an attempt is recorded exactly for a returned outcome, and the log names candidate, score and success of every call that did not break off. |
| GatewayService.RequestEvidenceIsRecorded | backend/src/modelpilot/service.py:192-203 | The evidence collected for a candidate is the admission verdict of its visit, for automatic requests only. |
| GatewayService.RequestEventsAreItsVisits | backend/src/modelpilot/service.py:70-123 | Every recorded event of the request's invocations is the start or the completion of one of its visits: no provider is called but those of the account. |
| GatewayService.ServiceIsReachable | backend/src/modelpilot/service.py:172-222 | While the clock was steady the object's state is reached by its own recorded history, so probes are single flight, claims are exactly the probes in flight and every stored record satisfies the run invariant. |
| GatewayService.ServiceOutageBound | backend/src/modelpilot/service.py:192-222 | The outage bound for the object's own deliveries to a key, whatever record it started with. |
| GatewayService.CandidateIsCalledExactlyWhenAllowed | backend/src/modelpilot/service.py:192-204 | A call of the candidate is in flight after its start, and is completed with its provider's answer, if and only if the circuit found at that moment did not block and no other call held the probe that was due. |
| Explanation.WithHealthUpdates | backend/src/modelpilot/metrics/models.py:233-256 | The loop yields the validated rewrite, whose meaning the next rows state. |
| Explanation.UpdatesDecide | backend/src/modelpilot/metrics/models.py:233-256 | A candidate with new evidence is excluded with it when refused and carries it when not; a candidate without new evidence stays as it was. |
| Explanation.OnlyRefusedMoveOut | backend/src/modelpilot/metrics/models.py:239-243 | Whatever is newly excluded was ranked and is refused by its new evidence. |
| Explanation.RewriteConservesCandidates | backend/src/modelpilot/metrics/models.py:233-256 | For any updates the union of ranked and excluded keys and their total number stay the same, earlier exclusions stay first, and the ranked keys are the surviving ones. |
| Explanation.RewriteKeepsOrderAndScores | backend/src/modelpilot/metrics/models.py:238-248 | Survivors keep their relative order and every field but rank, selection and health; ranks are 1..n and only the first is selected. |
| Explanation.RewriteKeysDistinct | backend/src/modelpilot/metrics/models.py:188-199 | No key appears twice or on both sides after a rewrite. |
| Explanation.ValidExactly | backend/src/modelpilot/metrics/models.py:188-226 | An explanation is valid if and only if both lists together have as many keys as entries, candidates are eligible and exclusions refused, ranks count from one with the first one selected, and a server is named wholly or not at all. |
| Explanation.RewriteValidExactlyWhen | backend/src/modelpilot/metrics/models.py:188-256 | The rewrite of a valid explanation is valid if and only if a candidate survives or nothing had been served. |
| Explanation.RewriteIdempotent | backend/src/modelpilot/metrics/models.py:233-256 | Applying the same updates again changes nothing. |
| Explanation.ServingKeepsValidity | backend/src/modelpilot/metrics/models.py:228-231 | A valid explanation can be marked as served if and only if it ranks somebody. |
| Fallback.TakeTurn | backend/src/modelpilot/service.py:72-123 | The loop body after an invocation keeps calls, records, attempts and evidence equal to what the turns so far mean, and ends the request exactly at an ending reply. |
| Fallback.Explain | backend/src/modelpilot/service.py:133-156 | The explanation built at the end of a request is the rewrite with the collected evidence, and always passes its validator. |
| Fallback.Conclude | backend/src/modelpilot/service.py:124-170 | The end of a request writes exactly the explanation, request log and decision its turns call for. |
| Fallback.ReportsFollowEnding | backend/src/modelpilot/service.py:124-170 | Request log and decision exist exactly for served and failed requests, name the serving candidate, and the explanation carries the evidence unless an exception escaped. |
| Fallback.CallsFollowTheRanking | backend/src/modelpilot/service.py:72-113 | Calls are a subsequence of the ranking, no key twice; recorded attempt indices strictly increase and belong to calls. |
| Fallback.EndingIsExhaustive | backend/src/modelpilot/service.py:155-170 | Every call before the last failed, the log has one entry per such call, and nothing was called exactly when every candidate was refused. |
| Fallback.CalledCandidateStaysRanked | backend/src/modelpilot/service.py:199-204 | Evidence collected up to a call never drops the called candidate from the explanation, whatever the turns were. |
| Fallback.ServedCandidateIsRanked | backend/src/modelpilot/service.py:133-138 | The explanation of a served request is valid, names the serving candidate and still ranks it. |
| Fallback.UnservedExplanationIsValid | backend/src/modelpilot/service.py:155-156 | A request that nobody served also ends with a valid explanation. |
| Scoring.ConfidenceRamp | backend/src/modelpilot/router.py:34-41 | Sample confidence lies in [0,1], is zero exactly up to and including five samples and one exactly from fifty on. |
| Scoring.NormalizationIsAntitone | backend/src/modelpilot/router.py:44-51 | Lower latency or cost never normalizes to a lower score. |
| Scoring.ScoresAreUnit | backend/src/modelpilot/router.py:254-285 | Every signal score and the rounded final score lie in [0,1]. |
| Scoring.LatencyMeaning | backend/src/modelpilot/router.py:44-46 | The latency score is one up to a second, then a second divided by the latency, down to the cap at thirty. |
| Scoring.CostMeaning | backend/src/modelpilot/router.py:49-51 | The cost score is one up to the target, then the target divided by the cost. |
| Scoring.ReliabilityMeaning | backend/src/modelpilot/router.py:355-364 | The measured reliability is the success rate with ten extra samples at the static rate. |
| Scoring.SignalsInterpolate | backend/src/modelpilot/router.py:325-383 | Every measured signal is static up to five of its own samples, measured alone from fifty, and linear between. |
| Scoring.QualityInterpolates | backend/src/modelpilot/router.py:261-271 | Quality moves from static to benchmark score in proportion to the benchmark confidence. |
| Scoring.RoundSixIsNearest | backend/src/modelpilot/router.py:279-285 | Rounding gives the nearest millionth, halves to the even one. |
| Scoring.FinalScoreIsAverage | backend/src/modelpilot/router.py:279-285 | The final score is the rounded average of the four parts, each weighted by the preference for its own aspect. |
| Scoring.SinglePreferenceDecides | backend/src/modelpilot/router.py:279-285 | With one preference only, the final score is the published score of that aspect. |
| Scoring.FourthAspectDecides | backend/src/modelpilot/router.py:279-285 | Candidates that agree in three aspects are ordered by the fourth: equal without a preference for it, strictly when the advantage weighs more than a millionth. |
| Scoring.ImprovementRaisesScore | backend/src/modelpilot/router.py:254-383 | Better latency, cost or success count at fixed sample counts never lowers the final score. |
| Scoring.ColdScoreIsStatic | backend/src/modelpilot/router.py:340-383 | Without usable measurements every score equals the static one. |
| Ranking.RanksUniquely | backend/src/modelpilot/router.py:172-187 | There is exactly one ranking of given scores by (-score, provider, model). |
| Ranking.NumberedRanks | backend/src/modelpilot/router.py:172-187 | Sorting and numbering distinct scored keys yields that ranking. |
| Ranking.RankCountsBetter | backend/src/modelpilot/router.py:172-187 | The position of a key is the number of keys whose score sorts before its own. |
| Ranking.RaisingNeverWorsensRank | backend/src/modelpilot/router.py:172-187 | Raising one score alone never moves its key down. |
| Router.Deduplicate | backend/src/modelpilot/router.py:142-152 | Each configured, requested key is kept once, with the value of its last occurrence. |
| Router.InForceIgnoresOrder | backend/src/modelpilot/router.py:142-152 | The configuration in force does not depend on candidate order when duplicates agree. |
| Router.EvaluateHealth | backend/src/modelpilot/router.py:189-209 | Exactly the given keys get evidence, each the lazy verdict on its record or the fail-open one. |
| Router.Rank | backend/src/modelpilot/router.py:132-187 | The result is the ranking of the candidates in force that health admits, with the evidence of exactly those candidates; explicit models bypass health and measurements. |
| Router.SelectionIgnoresOrder | backend/src/modelpilot/router.py:132-187 | Two results of the router on reordered candidates, duplicates agreeing, are equal. |
| Router.RankingIsUnique | backend/src/modelpilot/router.py:172-187 | There is only one ranking of given candidates and inputs. |
| Router.RankedExactly | backend/src/modelpilot/router.py:132-187 | A key is ranked exactly when it is offered and, for an automatic request, not refused; its score uses the measurements for automatic requests only. |
| Router.SinglePreferenceRanks | backend/src/modelpilot/router.py:172-187 | A request that cares for one aspect gets the candidates in the order of that aspect, ties by provider and model. |
| Router.FourthAspectRanks | backend/src/modelpilot/router.py:172-187 | Of two candidates that agree in three aspects, the one ahead by more than a millionth in the fourth ranks first. |
| Router.ImprovementNeverWorsensRank | backend/src/modelpilot/router.py:132-187 | Improving one candidate's measurements alone never worsens its rank. |
| Router.ColdRankingIsStatic | backend/src/modelpilot/router.py:132-187 | When no candidate has usable measurements the ranking equals the static one, position by position. |
| Router.ExcludeMeaning | backend/src/modelpilot/router.py:125-128 | Exactly the refused keys are excluded, each once, with their evidence. |
| Router.FreshExplanationIsValid | backend/src/modelpilot/router.py:116-129 | Ranking and exclusions from the same evidence always make a valid explanation. |
| Router.RankWithExplanation | backend/src/modelpilot/router.py:105-130 | An explanation is made exactly for automatic requests, is valid and unserved, and excludes exactly the refused keys, in key order. |
| Router.RoutingIgnoresOrder | backend/src/modelpilot/router.py:105-130 | Ranking and explanation together do not depend on the order of agreeing candidates. |
| RoutingInputs.ReadSnapshots | backend/src/modelpilot/router.py:211-229 | Exactly the listed keys asked for get measurements, those of their last snapshot, and all are valid; a missing or failing store leaves none. |
| RoutingInputs.ReadQualitySnapshots | backend/src/modelpilot/router.py:231-252 | A key gets quality evidence exactly when the source's reply is a valid snapshot of that key and suite. |
| RoutingInputs.ReadInputs | backend/src/modelpilot/router.py:160-163 | Read from the two stores, the inputs of scoring are always valid; exactly the keys with an attempt in the window are measured, by their snapshot, and exactly the keys whose stored runs can be combined have quality evidence, that of those runs. |
| RoutingInputs.MeasuresAttempts | backend/src/modelpilot/router.py:211-229 | The measurements are those of the at most one hundred newest attempts in the window: counts of attempts and successes, median latency, priced successes and their median price. |
| RoutingInputs.EvidencesRuns | backend/src/modelpilot/router.py:231-252 | The quality evidence is the weighted quality of the suite over the latest stored attempts, with the confidence these earn. |
| Decimals.ValueLaws | backend/src/modelpilot/benchmarks/evaluators.py:73-100 | The value of a decimal is its coefficient at exponent zero, changes sign with the sign and is multiplied by ten with every step of the exponent. |
| Decimals.ValueIsScaled | backend/src/modelpilot/benchmarks/evaluators.py:73-100 | A decimal's value is its integer coefficient at any common lower exponent, exactly. |
| Decimals.ComparisonIsExact | backend/src/modelpilot/benchmarks/evaluators.py:74-97 | Decimal comparison decides the order of the exact values, for any exponents. |
| NumericEvaluator.GrammarIsAccepted | backend/src/modelpilot/benchmarks/evaluators.py:60-66 | Every text of the number grammar (section 6 of RFC 8259) is accepted and splits into its own parts. |
| NumericEvaluator.AcceptedIsGrammar | backend/src/modelpilot/benchmarks/evaluators.py:60-66 | Only texts of the grammar are accepted. |
| NumericEvaluator.DenotedMeaning | backend/src/modelpilot/benchmarks/evaluators.py:67-70 | The decimal of an accepted text is integer part and fraction put together, scaled by the exponent. |
| NumericEvaluator.RoundDownIsGreatest | backend/src/modelpilot/benchmarks/evaluators.py:79-92 | Rounding toward minus infinity keeps the greatest representable value not above the difference, and flags exactly the inexact cases. |
| NumericEvaluator.RoundedGapDecides | backend/src/modelpilot/benchmarks/evaluators.py:92-97 | At any precision that represents the tolerance, the rounded gap and the Inexact flag decide the exact comparison. |
| NumericEvaluator.DecideIsExact | backend/src/modelpilot/benchmarks/evaluators.py:63-100 | For all finite decimals the verdict is match exactly when the exact difference is at most the tolerance. |
| NumericEvaluator.PrecisionThreshold | backend/src/modelpilot/benchmarks/evaluators.py:73-97 | For every tolerance and precision: the comparison is exact for all numbers if and only if the tolerance equals a decimal of at most that many digits. |
| NumericEvaluator.TooShortPrecisionMisjudges | backend/src/modelpilot/benchmarks/evaluators.py:79-97 | At any shorter precision, a number just above the tolerance is accepted within it of zero. |
| NumericEvaluator.ToleranceDigitsSuffice | backend/src/modelpilot/benchmarks/evaluators.py:73-79 | The precision the code computes decides as the tolerance's own digit count does. |
| Json.ObjectHook | backend/src/modelpilot/benchmarks/_json.py:8-14 | The fold succeeds exactly when no name repeats and then maps every name to its value. |
| Json.HookedMeaning | backend/src/modelpilot/benchmarks/_json.py:8-14 | What the hook computes is accepted exactly without a repeated name, and is then the mapping of the pairs. |
| Json.MembersAreHooked | backend/src/modelpilot/benchmarks/_json.py:8-14 | The tree of an object's members is what the hook makes of their names and values. |
| Json.EqualityIsCanonical | backend/src/modelpilot/benchmarks/evaluators.py:103-119 | Tree equality coincides with equality of canonical trees: objects as maps, arrays in order, numbers by exact value, booleans apart from numbers. |
| Json.EqualityIsEquivalence | backend/src/modelpilot/benchmarks/evaluators.py:103-119 | Tree equality is reflexive, symmetric and transitive. |
| Json.ReorderingKeepsMeaning | backend/src/modelpilot/benchmarks/_json.py:8-14 | Reordering members at any depth is accepted exactly when the original is, with the same canonical tree. |
| Json.ReorderedAnswerMatches | backend/src/modelpilot/benchmarks/evaluators.py:103-119 | A document matches any reordering of itself and the same answers as its reorderings. |
| Json.ReadableExactlyWithoutRepeats | backend/src/modelpilot/benchmarks/_json.py:8-14 | A document is readable if and only if no member name repeats in any object at any depth. |
| Json.BuildDenotes | backend/src/modelpilot/benchmarks/_json.py:8-14 | A document is read as the tree its text denotes, values of every kind unchanged. |
| Json.DenotesOnce | backend/src/modelpilot/benchmarks/evaluators.py:103-119 | A text denotes at most one tree. |
| Benchmark.EvaluationMeaning | backend/src/modelpilot/benchmarks/evaluators.py:122-167 | Every evaluation passes its validator; numeric answers pass exactly within the tolerance, JSON answers exactly with equal canonical trees, texts exactly when equal, equal up to normalization, or containing the expected one; the reason tells unreadable answers from wrong ones. |
| Benchmark.RunsSay | backend/src/modelpilot/benchmarks/results.py:51-104 | A validated run has one sound result per case id, counts and a status that are those of its results, and cases left over exactly when an authentication failure ended it, which is then its last result and its only one. |
| Benchmark.FittingRunsFollowSuite | backend/src/modelpilot/benchmarks/quality.py:184-197 | The results of a fitting run are of the suite's first cases, each evaluated by the case's own evaluator. |
| Benchmark.JsonPassesExactly | backend/src/modelpilot/benchmarks/evaluators.py:103-119 | A JSON answer passes if and only if both documents parse and denote the same tree. |
| BenchmarkRunner.RunCase | backend/src/modelpilot/benchmarks/runner.py:87-141 | A case fails to report only for a raising adapter or a foreign outcome; otherwise the result is valid, fits the case and reports the call field by field. |
| BenchmarkRunner.RunCases | backend/src/modelpilot/benchmarks/runner.py:62-67 | Cases run in order up to and including the first authentication failure, and the loop fails exactly when its last call broke it. |
| BenchmarkRunner.Run | backend/src/modelpilot/benchmarks/runner.py:48-85 | For arbitrary provider behaviour the run passes the run validator and reports a prefix of the suite call by call; it fails exactly for a refused request, a broken call or a clock that went back. |
| QualityMetrics.TallyScore | backend/src/modelpilot/benchmarks/quality.py:136-142 | Any bounds on the evaluated scores bound the exact weighted sum. |
| QualityMetrics.QualityWithinScores | backend/src/modelpilot/benchmarks/quality.py:138-145 | The weighted quality lies between any bounds on the evaluated scores. |
| QualityMetrics.ConfidenceBounds | backend/src/modelpilot/benchmarks/quality.py:122-123 | Confidence lies in [0,1], is at most either coverage, and is zero up to five evaluated cases. |
| QualityMetrics.MetricsAreConsistent | backend/src/modelpilot/benchmarks/quality.py:40-61 | Whatever the evidence, the computed metrics pass their strict validator. |
| QualityMetrics.SmallSuitesEarnNoConfidence | backend/src/modelpilot/benchmarks/quality.py:122-159 | A suite of five or fewer cases earns no confidence from any evidence. |
| QualityMetrics.CategoriesAddUp | backend/src/modelpilot/benchmarks/quality.py:224-232 | Counts, weights and weighted scores of the categories add up to those of the suite. |
| QualityMetrics.QualityIsConserved | backend/src/modelpilot/benchmarks/quality.py:208-232 | Evaluated weight times quality of the suite is the sum of the same over its categories. |
| QualityMetrics.MetricsWeighCases | backend/src/modelpilot/benchmarks/quality.py:126-159 | For a suite or one of its categories: quality times the evaluated case weights is the sum of weight times score, weighted coverage times all weights is the evaluated weights, and the counts are those of the cases. |
| QualityMetrics.ConfidenceExactly | backend/src/modelpilot/benchmarks/quality.py:122-123 | Confidence is none up to five evaluated cases, the product of both coverages from fifty, and linear between. |
| QualityEvidence.FoldReaches | backend/src/modelpilot/benchmarks/quality.py:202-207 | A case is in evidence exactly when some run reached it. |
| QualityEvidence.FoldKeepsLastAttempt | backend/src/modelpilot/benchmarks/quality.py:202-207 | Overwriting keeps, for every case, the result and run id of the last run that reached it. |
| QualityEvidence.PrefixTheorem | backend/src/modelpilot/benchmarks/results.py:95-104 | Observed cases are a prefix as long as the longest run; if it is shorter than the suite, its last case is an authentication failure and completeness is strictly below coverage. |
| Quality.LatestAttempt | backend/src/modelpilot/benchmarks/quality.py:201-207 | The evidence for a case is the attempt of the run greatest by (finished_at, run_id) among the supplied runs that reached it. |
| Quality.OrderAndRepetitionDoNotMatter | backend/src/modelpilot/benchmarks/quality.py:173-207 | Acceptance and the whole snapshot are the same for any order and repetition of the runs. |
| Quality.LatestRunWithin | backend/src/modelpilot/benchmarks/quality.py:95-103 | The latest run's counts never exceed the combined ones and it is among the sources. |
| Quality.SnapshotsAreConsistent | backend/src/modelpilot/benchmarks/quality.py:87-119 | Once the input checks pass, the snapshot always passes the provenance validator and all metrics validators. |
| Quality.SnapshotReadsHistory | backend/src/modelpilot/benchmarks/quality.py:126-159 | The observed count is the length of the longest supplied run, and the bounds on completeness and confidence hold for the snapshot. |
| Quality.SnapshotWeighsCases | backend/src/modelpilot/benchmarks/quality.py:201-234 | Quality, coverage and confidence of the suite and of each of its categories are the means over the latest attempts weighted by the cases' own weights. |
| Quality.SnapshotNamesLatest | backend/src/modelpilot/benchmarks/quality.py:208-223 | The latest run named is the one that finished last, ties by id, with its configuration and the shares of cases it reached and completed. |
| Quality.CheckRun | backend/src/modelpilot/benchmarks/quality.py:176-197 | A run passes its checks exactly when it is consistent and fits suite, target and configuration; a refusal names something that is wrong. |
| Quality.AcceptsExtended | backend/src/modelpilot/benchmarks/quality.py:175-200 | A history grows by exactly the consistent fitting runs of the same configuration whose id is new or repeats the same run. |
| Quality.Compatible | backend/src/modelpilot/benchmarks/quality.py:173-200 | The loop accepts exactly the compatible histories and keeps their distinct runs. |
| Quality.Aggregate | backend/src/modelpilot/benchmarks/quality.py:162-234 | The aggregator succeeds exactly on compatible histories and returns the consistent snapshot they determine. |
| QualityResolver.BenchmarkQualityResolver.GetQualitySnapshot | backend/src/modelpilot/benchmarks/resolver.py:42-51 | Nothing when no run of the suite is stored for the target, the consistent snapshot of exactly the stored runs when all fit the suite under one configuration, and a refusal otherwise. |
| QualityResolver.AcceptedExactlyCombinable | backend/src/modelpilot/benchmarks/quality.py:173-200 | For stored runs of one scope, acceptance by the aggregator is exactly fitting the suite and sharing the configuration. |
| RunnerHistory.RunnerResultsAreAccepted | backend/src/modelpilot/benchmarks/quality.py:175-200 | Any sequence of runner results of one suite, target and configuration with distinct ids is an accepted history, whatever the provider did. |
| RunnerHistory.RunnerResultsAreResolved | backend/src/modelpilot/benchmarks/resolver.py:42-51 | Saving such results keeps every one of them, and they are exactly what the resolver finds and can combine. |
| Timestamps.OrderIsElapsedTime | backend/src/modelpilot/sqlite_database.py:234-237 | Field order of UTC date-times is the order of elapsed microseconds in the Gregorian calendar. |
| Timestamps.TextOrderIsTimeOrder | backend/src/modelpilot/sqlite_database.py:234-237 | Comparing stored texts is comparing instants: the serialization is strictly order-preserving (compare section 5.1 of RFC 3339). |
| Timestamps.TextRoundTrip | backend/src/modelpilot/benchmarks/sqlite_store.py:128-129 | Reading a stored time gives back the instant. |
| Timestamps.ReadsExactlyWrittenText | backend/src/modelpilot/benchmarks/sqlite_store.py:128-129 | The reader of the stored form: a text reads as a time if and only if it is the written text of that valid time. Other ISO 8601 forms, which the source's reader also takes, are not modelled. |
| Timestamps.IsoTextIsFaithful | backend/src/modelpilot/sqlite_database.py:234-237 | The text form has the two properties the stores rely on. |
| BenchmarkStore.CasesRoundTrip | backend/src/modelpilot/benchmarks/sqlite_store.py:144-154 | Case rows restore to the saved results in order, a zero score and no evaluation kept apart. |
| BenchmarkStore.RunRoundTrip | backend/src/modelpilot/benchmarks/sqlite_store.py:125-141 | Flattening a valid run into rows and restoring it gives back the run. |
| BenchmarkStore.LostRowsAreDetected | backend/src/modelpilot/benchmarks/sqlite_store.py:132-141 | Losing any case rows of a stored run is reported as corruption, never read back as a shorter run. |
| BenchmarkStore.NoSaveOverwrites | backend/src/modelpilot/benchmarks/sqlite_store.py:34-38 | After any sequence of saves an id holds exactly the first consistent run saved under it. |
| BenchmarkStore.TablesHoldHistory | backend/src/modelpilot/benchmarks/sqlite_store.py:24-49 | After any sequence of saves the two tables hold exactly that history. |
| BenchmarkStore.EntryOrderIsRunOrder | backend/src/modelpilot/benchmarks/sqlite_store.py:101-107 | Ordering rows by stored text and id is the aggregator's order of runs. |
| BenchmarkStore.ListedRunsNeedNoSorting | backend/src/modelpilot/benchmarks/quality.py:201 | Runs listed in that order are what the aggregator's deduplication and sort produce. |
| BenchmarkStore.InsertRun | backend/src/modelpilot/benchmarks/sqlite_store.py:38-49 | The transaction commits exactly when no insert fails, and then adds the run row and one row per case. |
| BenchmarkStore.SQLiteBenchmarkStore.SaveRun | backend/src/modelpilot/benchmarks/sqlite_store.py:24-49 | Invalid runs, taken ids and database failures are told apart exactly, and each leaves both tables unchanged. |
| BenchmarkStore.SQLiteBenchmarkStore.GetRun | backend/src/modelpilot/benchmarks/sqlite_store.py:51-63 | An id gives back exactly the run saved under it, or nothing. |
| BenchmarkStore.SQLiteBenchmarkStore.ListMatchingRuns | backend/src/modelpilot/benchmarks/sqlite_store.py:95-107 | All saved runs of one scope and no others come back, in (finished_at, run_id) order. |
| MetricsStore.NearestRankIsPercentile | backend/src/modelpilot/metrics/sqlite_store.py:494-499 | The nearest rank is the least value with at least that percentage of the values at or below it, whatever their order. |
| MetricsStore.PercentilesAreOrdered | backend/src/modelpilot/metrics/sqlite_store.py:212-216 | Percentiles are unique and grow with the percentage. |
| MetricsStore.RecentIsNewest | backend/src/modelpilot/metrics/sqlite_store.py:129-152 | The text query returns the newest attempts of the window: nothing outside it, newest first, and nothing newer left out. |
| MetricsStore.SnapshotsAreValid | backend/src/modelpilot/metrics/models.py:78-121 | Every snapshot built from valid attempts passes the snapshot validator. |
| MetricsStore.SnapshotReadsAttempts | backend/src/modelpilot/metrics/sqlite_store.py:195-219 | A snapshot counts attempts and successes, has the mean, median and 95th percentile of the latencies, the mean and median price of the priced successes, and spans their finishing times. |
| MetricsStore.SumIsAdditive | backend/src/modelpilot/metrics/sqlite_store.py:211-215 | The sum behind the means adds up over parts. |
| MetricsStore.SQLiteMetricsStore.RecordAttempt | backend/src/modelpilot/metrics/sqlite_store.py:100-127 | An attempt is appended once; a second one of the same request and index changes nothing. |
| MetricsStore.SQLiteMetricsStore.GetProviderMetrics | backend/src/modelpilot/metrics/sqlite_store.py:180-219 | A snapshot exists exactly when the window holds an attempt, covers at most one hundred, and is valid. |
| MetricsStore.SQLiteMetricsStore.ListProviderMetrics | backend/src/modelpilot/metrics/sqlite_store.py:161-178 | One valid snapshot for exactly the keys with an attempt in the window, in key order. |

## Left out

- Provider HTTP adapters, error mapping and message redaction: a provider call is an arbitrary reply.
- FastAPI routes, CLI, CORS, settings, the frontend and launch scripts.
- SQL text, WAL, locking, migrations, column CHECK constraints and the backup script: stores are maps and sequences with atomic operations and an optional failing insert.
- Coordination between processes: leases are process-local in the code as well.
- Two requests in the same loop at once: `GatewayService.Complete` runs one request loop, and other requests take part as arbitrary invocation steps between its own.
- A clock that goes back: the object still works, but the theorems about its history hold only while the clock was steady.
- Preemption inside `threading.Lock` sections and between await points: these stretches are atomic steps.
- IEEE rounding of scores, ratios and percentile positions, and the absolute tolerance of the success-rate check: reals are exact here, with `round(x, 6)` as exact half-even rounding.
- Decimal exponent limits, overflow to non-finite values and the library's limit on digits.
- Text trimming, Unicode normalization, case folding and JSON syntax: parameters of `Benchmark.EvaluateCase`; the tree of a parsed document starts at its member lists.
- SHA-256: the suite fingerprint is a tag stored with the suite.
- Identifier patterns, non-empty text and the "auto" target check of the record models.
- The source labels and benchmark provenance copied into routing signals, and the request-log deque.
- `estimate_cost`, token normalization, pricing, routing-decision rows, recent failures and the metrics summary.
- `list_runs` with its limit and the newest-first order: easier than `ListMatchingRuns`.
- Timestamps.ReadsExactlyWrittenText: `datetime.fromisoformat` also reads other ISO 8601 forms, which the stores never write; the model reads the written form only.
- The seven-day window start is a parameter of `MetricsStore`: date subtraction is not part of this model.
- Enumerated columns (category, status, error type, evaluator kind) keep their values in `BenchmarkStore` rows; only booleans, times and the optional evaluation change their form.
