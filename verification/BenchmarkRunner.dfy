/** The benchmark runner: one explicit target, cases in order, stop after an authentication failure. */
module BenchmarkRunner {
  import opened Common
  import opened Timestamps
  import opened Benchmark

  /** A normalized provider outcome; `text` is the assistant text, if the response has one. */
  datatype Reply = Reply(
    target: Key,
    success: bool,
    text: Option<string>,
    error: Option<ErrorType>,
    latencyMs: real,
    inputTokens: Option<nat>,
    outputTokens: Option<nat>,
    totalTokens: Option<nat>)

  /** What a provider call does: miss the runner's deadline, break an adapter invariant, or answer. */
  datatype Call = Expired(latencyMs: real) | Raised | Answered(reply: Reply)

  /** The outcome validator. */
  predicate ValidCall(c: Call) {
    match c
    case Expired(latency) => 0.0 <= latency
    case Raised => true
    case Answered(r) => 0.0 <= r.latencyMs && (r.success <==> r.error.None?)
  }

  datatype RunError = ProviderMismatch | TooManyCases | AdapterRaised | OutcomeMismatch | InvalidRun

  /** A call that yields a case result: the deadline, or an answer for the requested target. */
  predicate Handled(c: Call, target: Key) {
    c.Expired? || (c.Answered? && c.reply.target == target)
  }

  predicate Denied(c: Call) {
    c.Answered? && c.reply.error == Some(AuthenticationError)
  }

  /** How `result` reports `call`: a missed deadline, a failure, a response without text, or an evaluated answer. */
  predicate Reports(result: CaseResult, c: Case, call: Call, lib: TextLibrary)
    requires ValidSpec(c.evaluator, lib)
  {
    if call.Answered? then
      var reply := call.reply;
      && result.latencyMs == reply.latencyMs && result.inputTokens == reply.inputTokens
      && result.outputTokens == reply.outputTokens && result.totalTokens == reply.totalTokens
      && if reply.success && reply.text.Some? then
           result.evaluation == Some(EvaluateCase(c.evaluator, reply.text.value, lib))
         else result.error == if reply.success then Some(InvalidResponse) else reply.error
    else
      call.Expired? && result.latencyMs == call.latencyMs && result.error == Some(Timeout)
  }

  method RunCase(c: Case, target: Key, call: Call, lib: TextLibrary) returns (r: Result<CaseResult, RunError>)
    requires ValidSpec(c.evaluator, lib) && ValidCall(call)
    ensures r.Ok? <==> Handled(call, target)
    ensures r.Err? ==> r.error == if call.Raised? then AdapterRaised else OutcomeMismatch
    ensures r.Ok? ==> ConsistentExecution(r.value) && FitsCase(r.value, c) && r.value.target == target
    ensures r.Ok? ==> Reports(r.value, c, call, lib)
  {
    match call {
      case Raised => return Err(AdapterRaised);
      case Expired(latency) =>
        return Ok(CaseResult(target, c.caseId, c.category, ProviderFailed,
                             latency, None, None, None, Some(Timeout), None));
      case Answered(reply) =>
        if reply.target != target {
          return Err(OutcomeMismatch);
        }
        var error, evaluation := reply.error, None;
        if reply.success {
          if reply.text.None? {
            error := Some(InvalidResponse);
          } else {
            EvaluationMeaning(c.evaluator, reply.text.value, lib);
            evaluation := Some(EvaluateCase(c.evaluator, reply.text.value, lib));
          }
        }
        return Ok(CaseResult(target, c.caseId, c.category, if error.Some? then ProviderFailed else Completed,
                             reply.latencyMs, reply.inputTokens, reply.outputTokens, reply.totalTokens,
                             error, evaluation));
    }
  }

  /** How many calls are made: cases go in order until one is denied or breaks the run. */
  function CallsMade(calls: seq<Call>, target: Key, from: nat): (n: nat)
    requires from <= |calls|
    ensures from <= n <= |calls|
    decreases |calls| - from
  {
    if from == |calls| then from
    else if Denied(calls[from]) || !Handled(calls[from], target) then from + 1
    else CallsMade(calls, target, from + 1)
  }

  predicate Reported(results: seq<CaseResult>, cases: seq<Case>, calls: seq<Call>, target: Key, lib: TextLibrary)
    requires |results| <= |cases| == |calls|
    requires forall i :: 0 <= i < |cases| ==> ValidSpec(cases[i].evaluator, lib)
  {
    forall i :: 0 <= i < |results| ==>
      && ConsistentExecution(results[i]) && FitsCase(results[i], cases[i]) && results[i].target == target
      && Reports(results[i], cases[i], calls[i], lib)
  }

  /** Only the last result may be an authentication failure, and it is one when cases are left over. */
  predicate EndsAtDenial(results: seq<CaseResult>, total: nat) {
    && (forall i :: 0 <= i < |results| && results[i].error == Some(AuthenticationError) ==> i == |results| - 1)
    && (0 < |results| < total ==> results[|results| - 1].error == Some(AuthenticationError))
  }

  lemma DenialIsReported(result: CaseResult, c: Case, call: Call, lib: TextLibrary)
    requires ValidSpec(c.evaluator, lib) && ValidCall(call)
    requires ConsistentExecution(result) && Reports(result, c, call, lib)
    ensures result.error == Some(AuthenticationError) <==> Denied(call)
  {
  }

  /** The case loop. */
  method RunCases(cases: seq<Case>, target: Key, calls: seq<Call>, lib: TextLibrary)
    returns (r: Result<seq<CaseResult>, RunError>)
    requires cases != [] && |calls| == |cases|
    requires forall i :: 0 <= i < |cases| ==> ValidSpec(cases[i].evaluator, lib) && ValidCall(calls[i])
    ensures r.Ok? <==> Handled(calls[CallsMade(calls, target, 0) - 1], target)
    ensures r.Ok? ==>
              && |r.value| == CallsMade(calls, target, 0)
              && Reported(r.value, cases, calls, target, lib) && EndsAtDenial(r.value, |cases|)
  {
    var results: seq<CaseResult> := [];
    var n := 0;
    while n < |cases|
      invariant 0 <= n == |results| <= |cases|
      invariant CallsMade(calls, target, 0) == CallsMade(calls, target, n)
      invariant n > 0 ==> Handled(calls[n - 1], target)
      invariant Reported(results, cases, calls, target, lib)
      invariant forall i :: 0 <= i < n ==> results[i].error != Some(AuthenticationError)
    {
      var result := RunCase(cases[n], target, calls[n], lib);
      if result.Err? {
        return Err(result.error);
      }
      DenialIsReported(result.value, cases[n], calls[n], lib);
      results := results + [result.value];
      if result.value.error == Some(AuthenticationError) {
        return Ok(results);
      }
      n := n + 1;
    }
    return Ok(results);
  }

  function Assembled(suite: Suite, target: Key, config: RunConfig, runId: string, startedAt: Utc, finishedAt: Utc,
                     results: seq<CaseResult>, failures: nat): BenchmarkRun
    requires failures <= |results|
  {
    BenchmarkRun(runId, target, suite.suiteId, suite.version, suite.fingerprint, config, startedAt, finishedAt,
                 if failures > 0 then CompletedWithFailures else RunCompleted,
                 |suite.cases|, |results| - failures, failures, |results| < |suite.cases|, results)
  }

  lemma CaseIdsDiffer(results: seq<CaseResult>, suite: Suite, lib: TextLibrary)
    requires ValidSuite(suite, lib) && |results| <= |suite.cases|
    requires forall i :: 0 <= i < |results| ==> FitsCase(results[i], suite.cases[i])
    ensures forall i, j :: 0 <= i < j < |results| ==> results[i].caseId != results[j].caseId
  {
  }

  lemma {:induction false} AssembledFits(suite: Suite, target: Key, config: RunConfig, runId: string, startedAt: Utc,
                                         finishedAt: Utc, results: seq<CaseResult>, calls: seq<Call>, lib: TextLibrary)
    requires ValidSuite(suite, lib) && ValidConfig(config) && ValidUtc(startedAt) && ValidUtc(finishedAt)
    requires 0 < |results| <= |suite.cases| == |calls|
    requires Reported(results, suite.cases, calls, target, lib) && EndsAtDenial(results, |suite.cases|)
    ensures
      var run := Assembled(suite, target, config, runId, startedAt, finishedAt, results,
                           |results| - CountCompleted(results));
      (ConsistentRun(run) <==> !Earlier(finishedAt, startedAt)) && FitsSuite(run, suite, target)
  {
    CaseIdsDiffer(results, suite, lib);
  }

  /** `run` is what the runner makes of the given calls, one per case. */
  ghost predicate IsRunOf(run: BenchmarkRun, suite: Suite, target: Key, config: RunConfig, calls: seq<Call>,
                          lib: TextLibrary)
    requires ValidSuite(suite, lib)
  {
    && |calls| == |suite.cases| && |run.results| == CallsMade(calls, target, 0)
    && Reported(run.results, suite.cases, calls, target, lib) && EndsAtDenial(run.results, |suite.cases|)
    && ValidUtc(run.startedAt) && ValidUtc(run.finishedAt) && !Earlier(run.finishedAt, run.startedAt)
    && CountCompleted(run.results) <= |run.results|
    && run == Assembled(suite, target, config, run.runId, run.startedAt, run.finishedAt, run.results,
                        |run.results| - CountCompleted(run.results))
  }

  /** Whatever the calls did, the run passes its validator and executes a prefix of the suite. */
  lemma RunIsConsistent(run: BenchmarkRun, suite: Suite, target: Key, config: RunConfig, calls: seq<Call>,
                        lib: TextLibrary)
    requires ValidSuite(suite, lib) && ValidConfig(config) && IsRunOf(run, suite, target, config, calls, lib)
    ensures ConsistentRun(run) && FitsSuite(run, suite, target) && run.config == config
  {
    AssembledFits(suite, target, config, run.runId, run.startedAt, run.finishedAt, run.results, calls, lib);
  }

  /**
   * The runner's promise for arbitrary provider behaviour, one call per case. The run executes the
   * cases in order up to the first authentication failure, reports each call, and satisfies the run
   * validator; it fails exactly when a call broke it, the request was refused, or the clock went back.
   */
  method Run(suite: Suite, target: Key, providerName: string, config: RunConfig, runId: string,
             calls: seq<Call>, startedAt: Utc, finishedAt: Utc, lib: TextLibrary)
    returns (r: Result<BenchmarkRun, RunError>)
    requires ValidSuite(suite, lib) && ValidConfig(config) && ValidUtc(startedAt) && ValidUtc(finishedAt)
    requires |calls| == |suite.cases| && forall i :: 0 <= i < |calls| ==> ValidCall(calls[i])
    ensures r.Ok? <==>
              && providerName == target.provider && |suite.cases| <= config.maxCases
              && Handled(calls[CallsMade(calls, target, 0) - 1], target)
              && !Earlier(finishedAt, startedAt)
    ensures r.Ok? ==>
              && IsRunOf(r.value, suite, target, config, calls, lib)
              && ConsistentRun(r.value) && FitsSuite(r.value, suite, target)
              && r.value.runId == runId && r.value.startedAt == startedAt && r.value.finishedAt == finishedAt
  {
    if providerName != target.provider {
      return Err(ProviderMismatch);
    }
    if |suite.cases| > config.maxCases {
      return Err(TooManyCases);
    }
    var results := RunCases(suite.cases, target, calls, lib);
    if results.Err? {
      return Err(results.error);
    }
    var failures := |results.value| - CountCompleted(results.value);
    AssembledFits(suite, target, config, runId, startedAt, finishedAt, results.value, calls, lib);
    if Earlier(finishedAt, startedAt) {
      return Err(InvalidRun);
    }
    return Ok(Assembled(suite, target, config, runId, startedAt, finishedAt, results.value, failures));
  }
}
