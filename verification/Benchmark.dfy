/** Benchmark definitions, case evaluation, and the result records with their validators. */
module Benchmark {
  import opened Common
  import opened Decimals
  import opened NumericEvaluator
  import opened Json
  import opened Timestamps

  datatype Category = Coding | Reasoning | StructuredOutput | Math | InstructionFollowing

  datatype EvaluatorKind = ExactMatch | NormalizedExactMatch | Contains | NumericTolerance | JsonEquality

  datatype EvaluatorSpec =
    | ExactSpec(expected: string)
    | NormalizedSpec(expected: string)
    | ContainsSpec(expected: string)
    | NumericSpec(number: Decimal, tolerance: Decimal)
    | JsonSpec(document: string)

  const EVALUATOR_VERSION := "1"

  function KindOf(spec: EvaluatorSpec): EvaluatorKind {
    match spec
    case ExactSpec(_) => ExactMatch
    case NormalizedSpec(_) => NormalizedExactMatch
    case ContainsSpec(_) => Contains
    case NumericSpec(_, _) => NumericTolerance
    case JsonSpec(_) => JsonEquality
  }

  datatype EvaluationReason = Matched | Mismatch | BadNumber | TooFar | BadJson

  datatype CaseEvaluation = CaseEvaluation(kind: EvaluatorKind, version: string, score: real, passed: bool,
                                           reason: EvaluationReason)

  /** The evaluation validator. */
  predicate ValidEvaluation(e: CaseEvaluation) {
    && 0.0 <= e.score <= 1.0
    && (e.passed <==> e.score == 1.0) && (e.passed <==> e.reason == Matched)
    && (e.reason == BadNumber || e.reason == BadJson ==> e.score == 0.0)
  }

  /** Text functions the evaluators take from elsewhere: trimming, normalization, JSON syntax. */
  datatype TextLibrary = TextLibrary(
    strip: string -> string,
    normalize: string -> string,
    parse: string -> Option<Text>)

  function ParseDocument(text: string, lib: TextLibrary): Option<Json> {
    match lib.parse(text)
    case None => None
    case Some(t) => if Build(t).Ok? then Some(Build(t).value) else None
  }

  /** What the definition validators ask of a specification. */
  predicate ValidSpec(spec: EvaluatorSpec, lib: TextLibrary) {
    match spec
    case ContainsSpec(expected) => expected != []
    case NumericSpec(_, tolerance) => ValidTolerance(tolerance)
    case JsonSpec(document) => ParseDocument(document, lib).Some?
    case _ => true
  }

  predicate Occurs(needle: string, text: string) {
    needle <= text || (text != [] && Occurs(needle, text[1..]))
  }

  function ReasonFor(spec: EvaluatorSpec, text: string, lib: TextLibrary): EvaluationReason
    requires ValidSpec(spec, lib)
  {
    match spec
    case ExactSpec(expected) => if text == expected then Matched else Mismatch
    case NormalizedSpec(expected) => if lib.normalize(text) == lib.normalize(expected) then Matched else Mismatch
    case ContainsSpec(expected) => if Occurs(expected, text) then Matched else Mismatch
    case NumericSpec(number, tolerance) =>
      (match NumericReasonOf(lib.strip(text), number, tolerance)
       case Match => Matched
       case OutsideTolerance => TooFar
       case InvalidNumber => BadNumber)
    case JsonSpec(document) =>
      match ParseDocument(text, lib)
      case None => BadJson
      case Some(actual) => if JsonEqual(ParseDocument(document, lib).value, actual) then Matched else Mismatch
  }

  function EvaluateCase(spec: EvaluatorSpec, text: string, lib: TextLibrary): CaseEvaluation
    requires ValidSpec(spec, lib)
  {
    var reason := ReasonFor(spec, text, lib);
    CaseEvaluation(KindOf(spec), EVALUATOR_VERSION, if reason == Matched then 1.0 else 0.0, reason == Matched, reason)
  }

  /**
   * What passing means: bad answers never raise and never score, a numeric answer passes
   * exactly within the tolerance, a JSON answer exactly when the canonical trees are equal, a
   * text exactly when it is the expected one, also up to normalization, or contains it. The
   * reason tells unreadable answers from wrong ones.
   */
  lemma EvaluationMeaning(spec: EvaluatorSpec, text: string, lib: TextLibrary)
    requires ValidSpec(spec, lib)
    ensures
      var e := EvaluateCase(spec, text, lib);
      && ValidEvaluation(e) && (e.score == 1.0 || e.score == 0.0) && e.version == "1"
      && (spec.NumericSpec? ==>
            var n := ParseNumber(lib.strip(text));
            && e.kind == NumericTolerance && (e.reason == BadNumber <==> n.None?)
            && (e.passed || e.reason == BadNumber || e.reason == TooFar)
            && (e.passed <==>
                  n.Some? && NumericEvaluator.Abs(Value(n.value) - Value(spec.number)) <= Value(spec.tolerance)))
      && (spec.JsonSpec? ==>
            var actual := ParseDocument(text, lib);
            && e.kind == JsonEquality && (e.reason == BadJson <==> actual.None?)
            && (e.passed || e.reason == BadJson || e.reason == Mismatch)
            && (e.passed <==> actual.Some? && Canon(actual.value) == Canon(ParseDocument(spec.document, lib).value)))
      && (spec.ContainsSpec? ==>
            && e.kind == Contains && (e.passed || e.reason == Mismatch)
            && (e.passed <==> exists i :: 0 <= i <= |text| && spec.expected <= text[i..]))
      && (spec.ExactSpec? ==>
            && e.kind == ExactMatch && (e.passed || e.reason == Mismatch)
            && (e.passed <==> text == spec.expected))
      && (spec.NormalizedSpec? ==>
            && e.kind == NormalizedExactMatch && (e.passed || e.reason == Mismatch)
            && (e.passed <==> lib.normalize(text) == lib.normalize(spec.expected)))
  {
    match spec {
      case NumericSpec(number, tolerance) =>
        var n := ParseNumber(lib.strip(text));
        if n.Some? { DecideIsExact(n.value, number, tolerance); }
      case JsonSpec(document) =>
        var actual := ParseDocument(text, lib);
        if actual.Some? { EqualityIsCanonical(ParseDocument(document, lib).value, actual.value); }
      case ContainsSpec(expected) =>
        OccursSomewhere(expected, text);
      case _ =>
    }
  }

  /** A JSON answer passes exactly when both documents parse and denote the same tree. */
  lemma JsonPassesExactly(spec: EvaluatorSpec, text: string, lib: TextLibrary)
    requires ValidSpec(spec, lib) && spec.JsonSpec?
    ensures EvaluateCase(spec, text, lib).passed <==>
              && lib.parse(text).Some? && lib.parse(spec.document).Some?
              && exists c :: Denotes(lib.parse(text).value, c) && Denotes(lib.parse(spec.document).value, c)
  {
    EvaluationMeaning(spec, text, lib);
    DocumentsAreReadExactly(text, lib);
    DocumentsAreReadExactly(spec.document, lib);
    var expected, b := lib.parse(spec.document).value, Canon(ParseDocument(spec.document, lib).value);
    BuildDenotes(expected);
    if ParseDocument(text, lib).Some? {
      var answer, a := lib.parse(text).value, Canon(ParseDocument(text, lib).value);
      BuildDenotes(answer);
      if c :| Denotes(answer, c) && Denotes(expected, c) {
        DenotesOnce(answer, a, c);
        DenotesOnce(expected, b, c);
      }
      assert Denotes(answer, a) && Denotes(expected, b);
    } else if lib.parse(text).Some? {
      if c :| Denotes(lib.parse(text).value, c) { DenotingIsReadable(lib.parse(text).value, c); }
    }
  }

  /** A document is read exactly when its text parses and no member name repeats in any object. */
  lemma DocumentsAreReadExactly(text: string, lib: TextLibrary)
    ensures ParseDocument(text, lib).Some? <==> lib.parse(text).Some? && NoRepeats(lib.parse(text).value)
    ensures ParseDocument(text, lib).Some? ==> Build(lib.parse(text).value) == Ok(ParseDocument(text, lib).value)
  {
    if lib.parse(text).Some? { ReadableExactlyWithoutRepeats(lib.parse(text).value); }
  }

  lemma {:induction false} OccursSomewhere(needle: string, text: string)
    ensures Occurs(needle, text) <==> exists i :: 0 <= i <= |text| && needle <= text[i..]
  {
    assert text[0..] == text;
    if needle <= text {
      assert needle <= text[0..];
    } else if text != [] {
      OccursSomewhere(needle, text[1..]);
      if i :| 0 <= i <= |text[1..]| && needle <= text[1..][i..] {
        assert text[1..][i..] == text[i + 1..];
      }
      if i :| 0 <= i <= |text| && needle <= text[i..] {
        assert text[i..] == text[1..][i - 1..];
      }
    }
  }

  // ----- definitions and results -------------------------------------------------------------

  datatype Case = Case(caseId: string, category: Category, evaluator: EvaluatorSpec, weight: real)

  /** A suite; the fingerprint stands for the hash of its canonical text. */
  datatype Suite = Suite(suiteId: string, version: string, fingerprint: string, cases: seq<Case>)

  /** What the suite validators ask of the cases: at least one, unique ids, positive weights. */
  predicate ValidCases(cases: seq<Case>) {
    cases != [] && DistinctIds(cases) && Weighted(cases)
  }

  predicate DistinctIds(cases: seq<Case>) {
    forall i, j :: 0 <= i < j < |cases| ==> cases[i].caseId != cases[j].caseId
  }

  predicate Weighted(cases: seq<Case>) {
    forall i :: 0 <= i < |cases| ==> cases[i].weight > 0.0
  }

  predicate ValidSuite(suite: Suite, lib: TextLibrary) {
    ValidCases(suite.cases) && forall i :: 0 <= i < |suite.cases| ==> ValidSpec(suite.cases[i].evaluator, lib)
  }

  datatype RunConfig = RunConfig(maxCases: nat, timeoutSeconds: real, temperature: real, maxTokens: nat)

  predicate ValidConfig(c: RunConfig) {
    c.maxCases > 0 && c.timeoutSeconds > 0.0 && 0.0 <= c.temperature <= 2.0 && c.maxTokens > 0
  }

  datatype ExecutionStatus = Completed | ProviderFailed

  datatype CaseResult = CaseResult(
    target: Key,
    caseId: string,
    category: Category,
    status: ExecutionStatus,
    latencyMs: real,
    inputTokens: Option<nat>,
    outputTokens: Option<nat>,
    totalTokens: Option<nat>,
    error: Option<ErrorType>,
    evaluation: Option<CaseEvaluation>)

  /** The case-result validator. */
  predicate ConsistentExecution(r: CaseResult) {
    && 0.0 <= r.latencyMs
    && (r.evaluation.Some? ==> ValidEvaluation(r.evaluation.value))
    && if r.status == Completed then r.evaluation.Some? && r.error.None?
       else r.evaluation.None? && r.error.Some?
  }

  datatype RunStatus = RunCompleted | CompletedWithFailures

  datatype BenchmarkRun = BenchmarkRun(
    runId: string,
    target: Key,
    suiteId: string,
    suiteVersion: string,
    fingerprint: string,
    config: RunConfig,
    startedAt: Utc,
    finishedAt: Utc,
    status: RunStatus,
    totalCases: nat,
    completedCases: nat,
    failedCases: nat,
    terminatedEarly: bool,
    results: seq<CaseResult>)

  function CountCompleted(results: seq<CaseResult>): (n: nat)
    ensures n <= |results|
  {
    if results == [] then 0
    else CountCompleted(results[..|results| - 1]) + if results[|results| - 1].status == Completed then 1 else 0
  }

  /** The run validator, check by check. */
  predicate ConsistentRun(r: BenchmarkRun) {
    var n := |r.results|;
    && ValidUtc(r.startedAt) && ValidUtc(r.finishedAt) && ValidConfig(r.config) && r.totalCases > 0
    && (forall i :: 0 <= i < n ==> ConsistentExecution(r.results[i]))
    && !Earlier(r.finishedAt, r.startedAt)
    && r.completedCases == CountCompleted(r.results) && r.failedCases == n - CountCompleted(r.results)
    && 0 < n <= r.totalCases
    && (forall i, j :: 0 <= i < j < n ==> r.results[i].caseId != r.results[j].caseId)
    && (forall i :: 0 <= i < n ==> r.results[i].target == r.target)
    && (forall i :: 0 <= i < n && r.results[i].error == Some(AuthenticationError) ==> i == n - 1)
    && (r.terminatedEarly <==> n < r.totalCases)
    && (n < r.totalCases ==> r.results[n - 1].error == Some(AuthenticationError))
    && r.status == (if r.failedCases > 0 then CompletedWithFailures else RunCompleted)
  }

  /** The run is an execution of a prefix of `suite` against `target`. */
  predicate FitsSuite(r: BenchmarkRun, suite: Suite, target: Key) {
    && r.target == target
    && r.suiteId == suite.suiteId && r.suiteVersion == suite.version && r.fingerprint == suite.fingerprint
    && r.totalCases == |suite.cases|
    && forall i :: 0 <= i < |r.results| && i < |suite.cases| ==> FitsCase(r.results[i], suite.cases[i])
  }

  predicate FitsCase(result: CaseResult, c: Case) {
    && result.caseId == c.caseId && result.category == c.category
    && (result.evaluation.Some? ==>
          result.evaluation.value.kind == KindOf(c.evaluator) && result.evaluation.value.version == EVALUATOR_VERSION)
  }

  // ----- what validated records say ----------------------------------------------------------

  /** The positions of the results that were completed. */
  function CompletedPlaces(results: seq<CaseResult>): set<int> {
    set i | 0 <= i < |results| && results[i].status == Completed
  }

  lemma {:induction false} CompletedAreCounted(results: seq<CaseResult>)
    ensures CountCompleted(results) == |CompletedPlaces(results)|
  {
    if results != [] {
      var n := |results| - 1;
      CompletedAreCounted(results[..n]);
      assert CompletedPlaces(results) ==
             CompletedPlaces(results[..n]) + if results[n].status == Completed then {n} else {};
    }
  }

  function ResultIds(results: seq<CaseResult>): set<string> {
    set i | 0 <= i < |results| :: results[i].caseId
  }

  /** Ids are distinct exactly when there are as many as results. */
  lemma {:induction false} IdsAreCounted(results: seq<CaseResult>)
    requires forall i, j :: 0 <= i < j < |results| ==> results[i].caseId != results[j].caseId
    ensures |ResultIds(results)| == |results|
  {
    if results != [] {
      var n := |results| - 1;
      var front := results[..n];
      IdsAreCounted(front);
      assert forall i :: 0 <= i < n ==> front[i] == results[i];
      assert ResultIds(results) == ResultIds(front) + {results[n].caseId};
    }
  }

  /** A validated evaluation: its score is perfect exactly when it passed, and nothing unreadable scores. */
  predicate SoundEvaluation(e: CaseEvaluation) {
    && Unit(e.score) && (e.passed ==> e.score == 1.0 && e.reason == Matched)
    && (!e.passed ==> e.score < 1.0 && e.reason != Matched)
    && (e.score > 0.0 ==> e.reason != BadNumber && e.reason != BadJson)
  }

  /** A validated result: evaluated and without error, or failed with one. */
  predicate SoundResult(r: CaseResult) {
    && r.latencyMs >= 0.0
    && (r.status == Completed <==> r.error.None?) && (r.evaluation.Some? <==> r.error.None?)
    && (r.evaluation.Some? ==> SoundEvaluation(r.evaluation.value))
  }

  /**
   * What a validated run says: one result per case id, all of its target; counts that are those
   * of its results; failures exactly when its status says so; and cases left over exactly when
   * it was ended by an authentication failure, which is then its last result and its only one.
   */
  lemma RunsSay(r: BenchmarkRun)
    requires ConsistentRun(r)
    ensures |ResultIds(r.results)| == |r.results| <= r.totalCases
    ensures forall x <- r.results :: SoundResult(x) && x.target == r.target
    ensures r.completedCases == |CompletedPlaces(r.results)| && r.completedCases + r.failedCases == |r.results|
    ensures r.status == RunCompleted <==> forall x <- r.results :: x.status == Completed
    ensures r.terminatedEarly <==> |r.results| < r.totalCases
    ensures r.terminatedEarly ==> r.results[|r.results| - 1].error == Some(AuthenticationError)
    ensures forall i :: 0 <= i < |r.results| - 1 ==> r.results[i].error != Some(AuthenticationError)
    ensures !Earlier(r.finishedAt, r.startedAt)
  {
    IdsAreCounted(r.results);
    CompletedAreCounted(r.results);
    AllCompleted(r.results);
  }

  lemma {:induction false} AllCompleted(results: seq<CaseResult>)
    ensures CountCompleted(results) == |results| <==> forall x <- results :: x.status == Completed
  {
    if results != [] {
      var n := |results| - 1;
      AllCompleted(results[..n]);
      assert results == results[..n] + [results[n]];
    }
  }

  /** The results of a run that fits a suite are of its first cases, each by the case's own evaluator. */
  lemma FittingRunsFollowSuite(r: BenchmarkRun, suite: Suite, target: Key, i: nat)
    requires ConsistentRun(r) && FitsSuite(r, suite, target) && i < |r.results|
    ensures i < |suite.cases|
    ensures
      var x, c := r.results[i], suite.cases[i];
      && x.target == target && x.caseId == c.caseId && x.category == c.category
      && (x.evaluation.Some? ==>
            var e := x.evaluation.value;
            && e.version == "1"
            && (e.kind == ExactMatch <==> c.evaluator.ExactSpec?)
            && (e.kind == NormalizedExactMatch <==> c.evaluator.NormalizedSpec?)
            && (e.kind == Contains <==> c.evaluator.ContainsSpec?)
            && (e.kind == NumericTolerance <==> c.evaluator.NumericSpec?)
            && (e.kind == JsonEquality <==> c.evaluator.JsonSpec?))
  {
  }
}
