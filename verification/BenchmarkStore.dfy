/** The stored form of benchmark history: flat rows with nullable columns and text times. */
module BenchmarkStore {
  import opened Common
  import opened Timestamps
  import opened Order
  import opened Benchmark
  import opened QualityEvidence
  import opened Quality

  // ----- rows --------------------------------------------------------------------------------

  /** A row of the run table, without its primary key. Booleans are 0 or 1, times are text. */
  datatype RunRow = RunRow(
    suiteId: string, suiteVersion: string, fingerprint: string, provider: string, model: string,
    startedAt: string, finishedAt: string, status: RunStatus,
    totalCases: nat, completedCases: nat, failedCases: nat, terminatedEarly: int,
    maxCases: nat, timeoutSeconds: real, temperature: real, maxTokens: nat)

  /** A row of the case table, without its primary key of run id and case index. */
  datatype CaseRow = CaseRow(
    caseId: string, category: Category, status: ExecutionStatus, provider: string, model: string,
    latencyMs: real, inputTokens: Option<nat>, outputTokens: Option<nat>, totalTokens: Option<nat>,
    error: Option<ErrorType>,
    score: Option<real>, passed: Option<int>, kind: Option<EvaluatorKind>, version: Option<string>,
    reason: Option<EvaluationReason>)

  type RunTable = map<string, RunRow>
  type CaseTable = map<(string, nat), CaseRow>

  datatype StoreError = InvalidInput | DuplicateRun | DatabaseFault | OrphanCases | MalformedRun

  function Bit(b: bool): int {
    if b then 1 else 0
  }

  function FlattenRun(c: TimeCodec, r: BenchmarkRun): RunRow {
    RunRow(r.suiteId, r.suiteVersion, r.fingerprint, r.target.provider, r.target.model,
           c.write(r.startedAt), c.write(r.finishedAt), r.status,
           r.totalCases, r.completedCases, r.failedCases, Bit(r.terminatedEarly),
           r.config.maxCases, r.config.timeoutSeconds, r.config.temperature, r.config.maxTokens)
  }

  function FlattenCase(r: CaseResult): CaseRow {
    var row := CaseRow(r.caseId, r.category, r.status, r.target.provider, r.target.model, r.latencyMs,
                       r.inputTokens, r.outputTokens, r.totalTokens, r.error, None, None, None, None, None);
    match r.evaluation
    case None => row
    case Some(e) => row.(score := Some(e.score), passed := Some(Bit(e.passed)), kind := Some(e.kind),
                         version := Some(e.version), reason := Some(e.reason))
  }

  function RestoreEvaluation(row: CaseRow): Result<Option<CaseEvaluation>, StoreError> {
    if row.score.None? && row.passed.None? && row.kind.None? && row.version.None? && row.reason.None? then Ok(None)
    else if row.score.None? || row.passed.None? || row.kind.None? || row.version.None? || row.reason.None? then
      Err(MalformedRun)
    else if row.passed.value != 0 && row.passed.value != 1 then Err(MalformedRun)
    else
      var e := CaseEvaluation(row.kind.value, row.version.value, row.score.value, row.passed.value == 1,
                              row.reason.value);
      if ValidEvaluation(e) then Ok(Some(e)) else Err(MalformedRun)
  }

  function RestoreCase(row: CaseRow): Result<CaseResult, StoreError> {
    match RestoreEvaluation(row)
    case Err(x) => Err(x)
    case Ok(evaluation) =>
      var r := CaseResult(Key(row.provider, row.model), row.caseId, row.category, row.status, row.latencyMs,
                          row.inputTokens, row.outputTokens, row.totalTokens, row.error, evaluation);
      if ConsistentExecution(r) then Ok(r) else Err(MalformedRun)
  }

  function RestoreCases(rows: seq<CaseRow>): Result<seq<CaseResult>, StoreError> {
    if rows == [] then Ok([])
    else
      var n := |rows| - 1;
      match RestoreCases(rows[..n])
      case Err(x) => Err(x)
      case Ok(front) =>
        match RestoreCase(rows[n])
        case Err(x) => Err(x)
        case Ok(r) => Ok(front + [r])
  }

  function Rebuilt(runId: string, row: RunRow, startedAt: Utc, finishedAt: Utc,
                   results: seq<CaseResult>): BenchmarkRun {
    BenchmarkRun(runId, Key(row.provider, row.model), row.suiteId, row.suiteVersion, row.fingerprint,
                 RunConfig(row.maxCases, row.timeoutSeconds, row.temperature, row.maxTokens),
                 startedAt, finishedAt, row.status, row.totalCases, row.completedCases,
                 row.failedCases, row.terminatedEarly == 1, results)
  }

  function RestoreParts(runId: string, row: RunRow, startedAt: Option<Utc>, finishedAt: Option<Utc>,
                        results: Result<seq<CaseResult>, StoreError>): Result<BenchmarkRun, StoreError>
  {
    if startedAt.None? || finishedAt.None? || results.Err? then Err(MalformedRun)
    else if row.terminatedEarly != 0 && row.terminatedEarly != 1 then Err(MalformedRun)
    else
      var r := Rebuilt(runId, row, startedAt.value, finishedAt.value, results.value);
      if ConsistentRun(r) then Ok(r) else Err(MalformedRun)
  }

  function RestoreRun(c: TimeCodec, runId: string, row: RunRow, rows: seq<CaseRow>): Result<BenchmarkRun, StoreError> {
    RestoreParts(runId, row, c.read(row.startedAt), c.read(row.finishedAt), RestoreCases(rows))
  }

  // ----- row round trips ---------------------------------------------------------------------

  /** A zero score and no evaluation at all stay apart in the nullable columns. */
  lemma CaseRoundTrip(r: CaseResult)
    requires ConsistentExecution(r)
    ensures RestoreCase(FlattenCase(r)) == Ok(r)
  {
  }

  function FlattenCases(results: seq<CaseResult>): (rows: seq<CaseRow>)
    ensures |rows| == |results|
  {
    if results == [] then []
    else FlattenCases(results[..|results| - 1]) + [FlattenCase(results[|results| - 1])]
  }

  lemma {:induction false} CasesRoundTrip(results: seq<CaseResult>)
    requires forall i :: 0 <= i < |results| ==> ConsistentExecution(results[i])
    ensures RestoreCases(FlattenCases(results)) == Ok(results)
  {
    if results != [] {
      var n := |results| - 1;
      CasesRoundTrip(results[..n]);
      CaseRoundTrip(results[n]);
      assert results == results[..n] + [results[n]];
      assert FlattenCases(results)[..n] == FlattenCases(results[..n]);
    }
  }

  lemma PartsOfRun(r: BenchmarkRun)
    requires ConsistentRun(r)
    ensures ValidUtc(r.startedAt) && ValidUtc(r.finishedAt)
    ensures forall i :: 0 <= i < |r.results| ==> ConsistentExecution(r.results[i])
  {
  }

  lemma PartsRoundTrip(c: TimeCodec, r: BenchmarkRun)
    requires ConsistentRun(r)
    ensures RestoreParts(r.runId, FlattenRun(c, r), Some(r.startedAt), Some(r.finishedAt), Ok(r.results)) == Ok(r)
  {
  }

  lemma TimesRoundTrip(c: TimeCodec, r: BenchmarkRun)
    requires Faithful(c) && ConsistentRun(r)
    ensures c.read(FlattenRun(c, r).startedAt) == Some(r.startedAt)
    ensures c.read(FlattenRun(c, r).finishedAt) == Some(r.finishedAt)
  {
  }

  lemma RunRoundTrip(c: TimeCodec, r: BenchmarkRun)
    requires Faithful(c) && ConsistentRun(r)
    ensures RestoreRun(c, r.runId, FlattenRun(c, r), FlattenCases(r.results)) == Ok(r)
  {
    TimesRoundTrip(c, r);
    PartsOfRun(r);
    CasesRoundTrip(r.results);
    PartsRoundTrip(c, r);
  }

  // ----- tables ------------------------------------------------------------------------------

  function CaseIndices(cases: CaseTable, runId: string): set<nat> {
    set k | k in cases && k.0 == runId :: k.1
  }

  /** The indices present are the first ones, without a gap. */
  predicate Contiguous(cases: CaseTable, runId: string) {
    forall i :: 0 <= i < |CaseIndices(cases, runId)| ==> (runId, i) in cases
  }

  function RowsOf(cases: CaseTable, runId: string): seq<CaseRow>
    requires Contiguous(cases, runId)
  {
    seq(|CaseIndices(cases, runId)|, i requires 0 <= i < |CaseIndices(cases, runId)| => cases[(runId, i)])
  }

  /** Restoring one run row with its case rows. */
  function Load(c: TimeCodec, runs: RunTable, cases: CaseTable, runId: string): Result<BenchmarkRun, StoreError>
    requires runId in runs
  {
    if !Contiguous(cases, runId) then Err(MalformedRun)
    else RestoreRun(c, runId, runs[runId], RowsOf(cases, runId))
  }

  /** The run of an id, none, or a refusal of corrupted data. */
  function Fetch(c: TimeCodec, runs: RunTable, cases: CaseTable,
                 runId: string): Result<Option<BenchmarkRun>, StoreError> {
    if runId !in runs then
      if CaseIndices(cases, runId) != {} then Err(OrphanCases) else Ok(None)
    else
      match Load(c, runs, cases, runId)
      case Err(x) => Err(x)
      case Ok(r) => Ok(Some(r))
  }

  /** The tables hold exactly `history`. */
  ghost predicate Holds(c: TimeCodec, runs: RunTable, cases: CaseTable, history: map<string, BenchmarkRun>) {
    HoldsRuns(c, runs, history) && HoldsCases(cases, history)
  }

  ghost predicate HoldsRuns(c: TimeCodec, runs: RunTable, history: map<string, BenchmarkRun>) {
    runs.Keys == history.Keys && forall id <- history :: StoredAs(c, id, runs[id], history[id])
  }

  predicate StoredAs(c: TimeCodec, id: string, row: RunRow, r: BenchmarkRun) {
    ConsistentRun(r) && r.runId == id && row == FlattenRun(c, r)
  }

  ghost predicate HoldsCases(cases: CaseTable, history: map<string, BenchmarkRun>) {
    && (forall k <- cases :: k.0 in history)
    && forall id <- history :: HasRows(cases, id, FlattenCases(history[id].results))
  }

  function Below(n: nat): set<nat> {
    if n == 0 then {} else Below(n - 1) + {n - 1}
  }

  lemma {:induction false} BelowExactly(n: nat)
    ensures |Below(n)| == n && forall i: nat :: i in Below(n) <==> i < n
  {
    if n > 0 { BelowExactly(n - 1); }
  }

  /** The case rows of one run are `rows`, in index order. */
  predicate HasRows(cases: CaseTable, runId: string, rows: seq<CaseRow>) {
    && (forall k <- cases :: k.0 == runId ==> k.1 < |rows|)
    && (forall i :: 0 <= i < |rows| ==> (runId, i) in cases && cases[(runId, i)] == rows[i])
  }

  lemma RowsAreFound(cases: CaseTable, runId: string, rows: seq<CaseRow>)
    requires HasRows(cases, runId, rows)
    ensures Contiguous(cases, runId) && RowsOf(cases, runId) == rows
  {
    var indices, n := CaseIndices(cases, runId), |rows|;
    BelowExactly(n);
    forall i: nat ensures i in indices <==> i in Below(n) {
      assert i in indices <==> (runId, i) in cases;
    }
    assert indices == Below(n);
  }

  lemma LoadReturnsHistory(c: TimeCodec, runs: RunTable, cases: CaseTable, history: map<string, BenchmarkRun>,
                           runId: string)
    requires Faithful(c) && Holds(c, runs, cases, history) && runId in runs
    ensures runId in history && Load(c, runs, cases, runId) == Ok(history[runId])
  {
    RowsAreFound(cases, runId, FlattenCases(history[runId].results));
    RunRoundTrip(c, history[runId]);
  }

  /** Whatever is stored is read back as it was saved. */
  lemma FetchReturnsHistory(c: TimeCodec, runs: RunTable, cases: CaseTable, history: map<string, BenchmarkRun>,
                            runId: string)
    requires Faithful(c) && Holds(c, runs, cases, history)
    ensures Fetch(c, runs, cases, runId) == Ok(if runId in history then Some(history[runId]) else None)
  {
    if runId in runs {
      LoadReturnsHistory(c, runs, cases, history, runId);
    } else {
      var indices := CaseIndices(cases, runId);
      forall i: nat ensures i !in indices {
        assert i in indices <==> (runId, i) in cases;
      }
    }
  }

  // ----- corruption --------------------------------------------------------------------------

  lemma {:induction false} FlattenPrefix(results: seq<CaseResult>, m: nat)
    requires m <= |results|
    ensures FlattenCases(results)[..m] == FlattenCases(results[..m])
  {
    var n := |results| - 1;
    if m < |results| {
      FlattenPrefix(results[..n], m);
      assert results[..n][..m] == results[..m];
      assert FlattenCases(results)[..m] == FlattenCases(results[..n])[..m];
    } else {
      assert results[..m] == results;
    }
  }

  lemma FewerRows(cases: CaseTable, runId: string, rows: seq<CaseRow>, lost: set<(string, nat)>)
    requires HasRows(cases, runId, rows)
    requires lost <= cases.Keys && exists k <- lost :: k.0 == runId
    ensures
      var left, m := cases - lost, |CaseIndices(cases - lost, runId)|;
      m < |rows| && (Contiguous(left, runId) ==> RowsOf(left, runId) == rows[..m])
  {
    var left := cases - lost;
    var before, after := CaseIndices(cases, runId), CaseIndices(left, runId);
    RowsAreFound(cases, runId, rows);
    var k :| k in lost && k.0 == runId;
    assert k.1 in before && k.1 !in after by { assert k == (runId, k.1); }
    assert after <= before;
    assert before == after + (before - after);
    assert k.1 in before - after;
  }

  lemma TruncatedRunIsRefused(c: TimeCodec, r: BenchmarkRun, m: nat)
    requires ConsistentRun(r) && m < |r.results|
    ensures
      RestoreParts(r.runId, FlattenRun(c, r), Some(r.startedAt), Some(r.finishedAt), Ok(r.results[..m]))
      == Err(MalformedRun)
  {
  }

  lemma ShortLoadIsRefused(c: TimeCodec, r: BenchmarkRun, m: nat)
    requires Faithful(c) && ConsistentRun(r) && m < |r.results|
    ensures RestoreRun(c, r.runId, FlattenRun(c, r), FlattenCases(r.results)[..m]) == Err(MalformedRun)
  {
    FlattenPrefix(r.results, m);
    PartsOfRun(r);
    CasesRoundTrip(r.results[..m]);
    TimesRoundTrip(c, r);
    TruncatedRunIsRefused(c, r, m);
  }

  /** Losing any case rows of a run, in the middle or at the end, never yields a shortened run. */
  lemma LostRowsAreDetected(c: TimeCodec, runs: RunTable, cases: CaseTable, history: map<string, BenchmarkRun>,
                            runId: string, lost: set<(string, nat)>)
    requires Faithful(c) && Holds(c, runs, cases, history) && runId in history
    requires lost <= cases.Keys && exists k <- lost :: k.0 == runId
    ensures Fetch(c, runs, cases - lost, runId) == Err(MalformedRun)
  {
    var r, left := history[runId], cases - lost;
    FewerRows(cases, runId, FlattenCases(r.results), lost);
    if Contiguous(left, runId) { ShortLoadIsRefused(c, r, |CaseIndices(left, runId)|); }
  }

  // ----- saving ------------------------------------------------------------------------------

  /** The case table after inserting one row per result. */
  function Inserted(cases: CaseTable, runId: string, results: seq<CaseResult>): CaseTable {
    if results == [] then cases
    else
      var n := |results| - 1;
      Inserted(cases, runId, results[..n])[(runId, n) := FlattenCase(results[n])]
  }

  lemma {:induction false} InsertedRows(cases: CaseTable, runId: string, results: seq<CaseResult>)
    requires forall k <- cases :: k.0 != runId
    ensures HasRows(Inserted(cases, runId, results), runId, FlattenCases(results))
  {
    if results != [] { InsertedRows(cases, runId, results[..|results| - 1]); }
  }

  lemma {:induction false} InsertedElsewhere(cases: CaseTable, runId: string, results: seq<CaseResult>,
                                             k: (string, nat))
    requires k.0 != runId
    ensures
      var more := Inserted(cases, runId, results);
      (k in more <==> k in cases) && (k in cases ==> more[k] == cases[k])
  {
    if results != [] { InsertedElsewhere(cases, runId, results[..|results| - 1], k); }
  }

  lemma {:induction false} OtherRowsStay(cases: CaseTable, runId: string, results: seq<CaseResult>, other: string,
                                         rows: seq<CaseRow>)
    requires other != runId && HasRows(cases, other, rows)
    ensures HasRows(Inserted(cases, runId, results), other, rows)
  {
    var more := Inserted(cases, runId, results);
    forall k | k in more && k.0 == other ensures k.1 < |rows| {
      InsertedElsewhere(cases, runId, results, k);
    }
    forall i | 0 <= i < |rows| ensures (other, i) in more && more[(other, i)] == rows[i] {
      InsertedElsewhere(cases, runId, results, (other, i));
    }
  }

  lemma {:induction false} InsertKeepsCases(cases: CaseTable, history: map<string, BenchmarkRun>, run: BenchmarkRun)
    requires HoldsCases(cases, history) && run.runId !in history
    ensures HoldsCases(Inserted(cases, run.runId, run.results), history[run.runId := run])
  {
    var id, more := run.runId, Inserted(cases, run.runId, run.results);
    InsertedRows(cases, id, run.results);
    forall k | k in more && k.0 != id ensures k.0 in history {
      InsertedElsewhere(cases, id, run.results, k);
    }
    forall other | other in history ensures HasRows(more, other, FlattenCases(history[other].results)) {
      OtherRowsStay(cases, id, run.results, other, FlattenCases(history[other].results));
    }
  }

  lemma InsertKeepsRuns(c: TimeCodec, runs: RunTable, history: map<string, BenchmarkRun>, run: BenchmarkRun)
    requires HoldsRuns(c, runs, history) && ConsistentRun(run)
    ensures HoldsRuns(c, runs[run.runId := FlattenRun(c, run)], history[run.runId := run])
  {
  }

  lemma {:induction false} InsertKeeps(c: TimeCodec, runs: RunTable, cases: CaseTable,
                                       history: map<string, BenchmarkRun>, run: BenchmarkRun)
    requires Holds(c, runs, cases, history) && ConsistentRun(run) && run.runId !in history
    ensures Holds(c, runs[run.runId := FlattenRun(c, run)], Inserted(cases, run.runId, run.results),
                  history[run.runId := run])
  {
    InsertKeepsRuns(c, runs, history, run);
    InsertKeepsCases(cases, history, run);
  }

  /** What one save does to the history: the first consistent run of an id stays for good. */
  function Saved(history: map<string, BenchmarkRun>, run: BenchmarkRun): map<string, BenchmarkRun> {
    if ConsistentRun(run) && run.runId !in history then history[run.runId := run] else history
  }

  function SavedAll(saves: seq<BenchmarkRun>): map<string, BenchmarkRun> {
    if saves == [] then map[] else Saved(SavedAll(saves[..|saves| - 1]), saves[|saves| - 1])
  }

  /** Save `i` is the first one of a consistent run with its id. */
  predicate FirstSave(saves: seq<BenchmarkRun>, i: nat) {
    && i < |saves| && ConsistentRun(saves[i])
    && forall k :: 0 <= k < i ==> !(ConsistentRun(saves[k]) && saves[k].runId == saves[i].runId)
  }

  lemma {:induction false} SaveStays(saves: seq<BenchmarkRun>, i: nat)
    requires FirstSave(saves, i)
    ensures var id := saves[i].runId; id in SavedAll(saves) && SavedAll(saves)[id] == saves[i]
  {
    var n := |saves| - 1;
    if i < n {
      assert FirstSave(saves[..n], i);
      SaveStays(saves[..n], i);
    } else if saves[n].runId in SavedAll(saves[..n]) {
      var k := SavedComesFrom(saves[..n], saves[n].runId);
    }
  }

  lemma {:induction false} SavedComesFrom(saves: seq<BenchmarkRun>, id: string) returns (i: nat)
    requires id in SavedAll(saves)
    ensures FirstSave(saves, i) && saves[i].runId == id
  {
    var n := |saves| - 1;
    var front := saves[..n];
    if id in SavedAll(front) {
      i := SavedComesFrom(front, id);
      assert saves[i] == front[i];
    } else {
      i := n;
      NoneSaved(front, id);
      assert forall k :: 0 <= k < n ==> saves[k] == front[k];
    }
  }

  lemma {:induction false} NoneSaved(saves: seq<BenchmarkRun>, id: string)
    requires id !in SavedAll(saves)
    ensures forall k :: 0 <= k < |saves| && saves[k].runId == id ==> !ConsistentRun(saves[k])
  {
    forall k | 0 <= k < |saves| && saves[k].runId == id ensures !ConsistentRun(saves[k]) {
      if ConsistentRun(saves[k]) { FirstSaveExists(saves, k); }
    }
  }

  lemma {:induction false} FirstSaveExists(saves: seq<BenchmarkRun>, k: nat)
    requires k < |saves| && ConsistentRun(saves[k])
    ensures saves[k].runId in SavedAll(saves)
  {
    var n := |saves| - 1;
    if k < n { FirstSaveExists(saves[..n], k); }
  }

  /** After any sequence of saves, an id holds exactly the first consistent run saved under it. */
  lemma {:induction false} NoSaveOverwrites(saves: seq<BenchmarkRun>, id: string)
    ensures id in SavedAll(saves) <==> exists i :: 0 <= i < |saves| && FirstSave(saves, i) && saves[i].runId == id
    ensures forall i :: 0 <= i < |saves| && FirstSave(saves, i) && saves[i].runId == id ==>
              id in SavedAll(saves) && SavedAll(saves)[id] == saves[i]
  {
    if id in SavedAll(saves) {
      var i := SavedComesFrom(saves, id);
    }
    forall i | 0 <= i < |saves| && FirstSave(saves, i) && saves[i].runId == id
      ensures id in SavedAll(saves) && SavedAll(saves)[id] == saves[i]
    {
      SaveStays(saves, i);
    }
  }

  // ----- listing in order --------------------------------------------------------------------

  /** The sort key of a stored run: both columns are text. */
  datatype Entry = Entry(finishedAt: string, runId: string)

  predicate EntryLess(a: Entry, b: Entry) {
    TextLess(a.finishedAt, b.finishedAt) || (a.finishedAt == b.finishedAt && TextLess(a.runId, b.runId))
  }

  lemma EntryLessIsStrict()
    ensures StrictOrder(EntryLess)
  {
    forall a ensures !EntryLess(a, a) {
      TextIrreflexive(a.finishedAt);
      TextIrreflexive(a.runId);
    }
    forall a, b, c | EntryLess(a, b) && EntryLess(b, c) ensures EntryLess(a, c) {
      if TextLess(a.finishedAt, b.finishedAt) && TextLess(b.finishedAt, c.finishedAt) {
        TextTransitive(a.finishedAt, b.finishedAt, c.finishedAt);
      }
      if TextLess(a.runId, b.runId) && TextLess(b.runId, c.runId) { TextTransitive(a.runId, b.runId, c.runId); }
    }
  }

  function EntryOf(c: TimeCodec, r: BenchmarkRun): Entry {
    Entry(c.write(r.finishedAt), r.runId)
  }

  /** Ordering rows by stored text is ordering runs by time: the order the aggregator needs. */
  lemma EntryOrderIsRunOrder(c: TimeCodec, a: BenchmarkRun, b: BenchmarkRun)
    requires Faithful(c) && ConsistentRun(a) && ConsistentRun(b)
    ensures EntryLess(EntryOf(c, a), EntryOf(c, b)) <==> RunBefore(a, b)
  {
    PartsOfRun(a);
    PartsOfRun(b);
    assert c.read(c.write(a.finishedAt)) == Some(a.finishedAt);
  }

  /** Runs listed in order are what the aggregator's own deduplication and sort would produce. */
  lemma ListedRunsNeedNoSorting(runs: seq<BenchmarkRun>)
    requires Sorted(runs, RunBefore) && IdsAgree(runs)
    ensures OrderedRuns(runs) == runs
  {
    OrderedRunsSorted(runs);
    RunBeforeIsStrict();
    SortedIsUnique(OrderedRuns(runs), runs, RunBefore);
  }

  datatype Scope = Scope(target: Key, suiteId: string, suiteVersion: string, fingerprint: string)

  predicate InScope(row: RunRow, scope: Scope) {
    && row.provider == scope.target.provider && row.model == scope.target.model
    && row.suiteId == scope.suiteId && row.suiteVersion == scope.suiteVersion && row.fingerprint == scope.fingerprint
  }

  predicate RunInScope(r: BenchmarkRun, scope: Scope) {
    && r.target == scope.target
    && r.suiteId == scope.suiteId && r.suiteVersion == scope.suiteVersion && r.fingerprint == scope.fingerprint
  }

  ghost function Matching(history: map<string, BenchmarkRun>, scope: Scope): set<BenchmarkRun> {
    set id | id in history && RunInScope(history[id], scope) :: history[id]
  }

  /** The entry of a row of `runs` in `scope`. */
  predicate Lists(runs: RunTable, scope: Scope, e: Entry) {
    e.runId in runs && InScope(runs[e.runId], scope) && e.finishedAt == runs[e.runId].finishedAt
  }

  method ListEntries(runs: RunTable, scope: Scope) returns (listed: seq<Entry>)
    ensures forall e :: e in listed <==> Lists(runs, scope, e)
    ensures forall i, j :: 0 <= i < j < |listed| ==> listed[i].runId != listed[j].runId
  {
    var wanted := set id | id in runs && InScope(runs[id], scope);
    var ids := ListTexts(wanted);
    assert forall id :: id in wanted <==> id in ids by {
      assert forall id :: id in Elements(ids) <==> id in ids;
    }
    assert forall i :: 0 <= i < |ids| ==> ids[i] in wanted;
    assert forall e :: Lists(runs, scope, e) ==> e.runId in ids;
    listed := seq(|ids|, i requires 0 <= i < |ids| => Entry(runs[ids[i]].finishedAt, ids[i]));
    forall e | Lists(runs, scope, e) ensures e in listed {
      var i :| 0 <= i < |ids| && ids[i] == e.runId;
      assert listed[i] == e;
    }
  }

  method SortEntries(listed: seq<Entry>) returns (entries: seq<Entry>)
    requires forall i, j :: 0 <= i < j < |listed| ==> listed[i].runId != listed[j].runId
    ensures Sorted(entries, EntryLess) && forall e :: e in entries <==> e in listed
  {
    EntryLessIsStrict();
    forall i, j | 0 <= i < j < |listed| ensures EntryLess(listed[i], listed[j]) || EntryLess(listed[j], listed[i]) {
      TextTotal(listed[i].finishedAt, listed[j].finishedAt);
      TextTotal(listed[i].runId, listed[j].runId);
    }
    SortSorts(listed, EntryLess);
    SortElements(listed, EntryLess);
    entries := SortBy(listed, EntryLess);
    assert forall e :: e in entries <==> e in Elements(listed);
  }

  lemma ListedEntry(c: TimeCodec, runs: RunTable, history: map<string, BenchmarkRun>, scope: Scope, e: Entry)
    requires HoldsRuns(c, runs, history)
    ensures
      Lists(runs, scope, e) <==>
        e.runId in history && RunInScope(history[e.runId], scope) && e == EntryOf(c, history[e.runId])
  {
  }

  /** Loading the entries in order. */
  predicate Loaded(history: map<string, BenchmarkRun>, entries: seq<Entry>, listed: seq<BenchmarkRun>) {
    && |listed| == |entries|
    && forall i :: 0 <= i < |entries| ==> entries[i].runId in history && listed[i] == history[entries[i].runId]
  }

  lemma ListedInOrder(c: TimeCodec, runs: RunTable, history: map<string, BenchmarkRun>, scope: Scope,
                      entries: seq<Entry>, listed: seq<BenchmarkRun>)
    requires Faithful(c) && HoldsRuns(c, runs, history)
    requires Sorted(entries, EntryLess) && Loaded(history, entries, listed)
    requires forall e <- entries :: Lists(runs, scope, e)
    ensures Sorted(listed, RunBefore)
  {
    forall i, j | 0 <= i < j < |listed| ensures RunBefore(listed[i], listed[j]) {
      assert Lists(runs, scope, entries[i]) && Lists(runs, scope, entries[j]);
      ListedEntry(c, runs, history, scope, entries[i]);
      ListedEntry(c, runs, history, scope, entries[j]);
      EntryOrderIsRunOrder(c, listed[i], listed[j]);
    }
  }

  lemma ListedExactly(c: TimeCodec, runs: RunTable, history: map<string, BenchmarkRun>, scope: Scope,
                      entries: seq<Entry>, listed: seq<BenchmarkRun>)
    requires HoldsRuns(c, runs, history) && Loaded(history, entries, listed)
    requires forall e :: e in entries <==> Lists(runs, scope, e)
    ensures Elements(listed) == Matching(history, scope)
  {
    forall r | r in listed ensures r in Matching(history, scope) {
      var i :| 0 <= i < |listed| && listed[i] == r;
      assert entries[i] in entries;
      ListedEntry(c, runs, history, scope, entries[i]);
    }
    forall id | id in history && RunInScope(history[id], scope) ensures history[id] in listed {
      var e := EntryOf(c, history[id]);
      ListedEntry(c, runs, history, scope, e);
      var i :| 0 <= i < |entries| && entries[i] == e;
      assert listed[i] == history[id];
    }
  }

  function LoadAll(c: TimeCodec, runs: RunTable, cases: CaseTable,
                   entries: seq<Entry>): Result<seq<BenchmarkRun>, StoreError>
    requires forall e <- entries :: e.runId in runs
  {
    if entries == [] then Ok([])
    else
      var n := |entries| - 1;
      match LoadAll(c, runs, cases, entries[..n])
      case Err(x) => Err(x)
      case Ok(front) =>
        match Load(c, runs, cases, entries[n].runId)
        case Err(x) => Err(x)
        case Ok(r) => Ok(front + [r])
  }

  predicate Loads(c: TimeCodec, runs: RunTable, cases: CaseTable, history: map<string, BenchmarkRun>, runId: string) {
    runId in runs && runId in history && Load(c, runs, cases, runId) == Ok(history[runId])
  }

  lemma {:induction false} LoadAllLoads(c: TimeCodec, runs: RunTable, cases: CaseTable,
                                        history: map<string, BenchmarkRun>, entries: seq<Entry>)
    requires forall e <- entries :: e.runId in runs && Loads(c, runs, cases, history, e.runId)
    ensures var r := LoadAll(c, runs, cases, entries); r.Ok? && Loaded(history, entries, r.value)
  {
    if entries != [] {
      var n := |entries| - 1;
      LoadAllLoads(c, runs, cases, history, entries[..n]);
      assert entries[n] in entries;
      LoadedAppend(history, entries, LoadAll(c, runs, cases, entries[..n]).value, history[entries[n].runId]);
    }
  }

  lemma {:induction false} LoadAllReturnsHistory(c: TimeCodec, runs: RunTable, cases: CaseTable,
                                                 history: map<string, BenchmarkRun>, entries: seq<Entry>)
    requires Faithful(c) && Holds(c, runs, cases, history) && forall e <- entries :: e.runId in runs
    ensures var r := LoadAll(c, runs, cases, entries); r.Ok? && Loaded(history, entries, r.value)
  {
    forall e | e in entries ensures Loads(c, runs, cases, history, e.runId) {
      LoadReturnsHistory(c, runs, cases, history, e.runId);
    }
    LoadAllLoads(c, runs, cases, history, entries);
  }

  lemma LoadedAppend(history: map<string, BenchmarkRun>, entries: seq<Entry>, front: seq<BenchmarkRun>, r: BenchmarkRun)
    requires entries != [] && Loaded(history, entries[..|entries| - 1], front)
    requires entries[|entries| - 1].runId in history && r == history[entries[|entries| - 1].runId]
    ensures Loaded(history, entries, front + [r])
  {
  }

  /**
   * The transaction body: the run row, then the case rows one by one. `fault` names the insert at
   * which the database fails, if any; the caller keeps the old tables then.
   */
  method InsertRun(c: TimeCodec, runs: RunTable, cases: CaseTable, run: BenchmarkRun, fault: Option<nat>)
    returns (committed: bool, moreRuns: RunTable, moreCases: CaseTable)
    ensures committed <==> fault.None? || fault.value > |run.results|
    ensures committed ==>
              moreRuns == runs[run.runId := FlattenRun(c, run)] && moreCases == Inserted(cases, run.runId, run.results)
  {
    moreRuns, moreCases := runs, cases;
    if fault == Some(0) {
      return false, moreRuns, moreCases;
    }
    moreRuns := runs[run.runId := FlattenRun(c, run)];
    var results := run.results;
    for index := 0 to |results|
      invariant fault.Some? ==> fault.value > index
      invariant moreCases == Inserted(cases, run.runId, results[..index])
    {
      if fault == Some(index + 1) {
        return false, moreRuns, moreCases;
      }
      assert results[..index + 1][..index] == results[..index];
      moreCases := moreCases[(run.runId, index) := FlattenCase(results[index])];
    }
    assert results[..|results|] == results;
    committed := true;
  }

  // ----- the store ---------------------------------------------------------------------------

  /** The tables after a sequence of saves. */
  function RunsAfter(c: TimeCodec, saves: seq<BenchmarkRun>): RunTable {
    if saves == [] then map[]
    else
      var front, last := saves[..|saves| - 1], saves[|saves| - 1];
      var runs := RunsAfter(c, front);
      if Takes(front, last) then runs[last.runId := FlattenRun(c, last)] else runs
  }

  function CasesAfter(saves: seq<BenchmarkRun>): CaseTable {
    if saves == [] then map[]
    else
      var front, last := saves[..|saves| - 1], saves[|saves| - 1];
      var cases := CasesAfter(front);
      if Takes(front, last) then Inserted(cases, last.runId, last.results) else cases
  }

  predicate Takes(saves: seq<BenchmarkRun>, run: BenchmarkRun) {
    ConsistentRun(run) && run.runId !in SavedAll(saves)
  }

  lemma {:induction false} TablesHoldHistory(c: TimeCodec, saves: seq<BenchmarkRun>)
    ensures Holds(c, RunsAfter(c, saves), CasesAfter(saves), SavedAll(saves))
  {
    if saves != [] {
      var front, last := saves[..|saves| - 1], saves[|saves| - 1];
      TablesHoldHistory(c, front);
      if Takes(front, last) { InsertKeeps(c, RunsAfter(c, front), CasesAfter(front), SavedAll(front), last); }
    }
  }

  lemma {:induction false} TablesStep(c: TimeCodec, saves: seq<BenchmarkRun>, run: BenchmarkRun)
    ensures
      var runs, cases := RunsAfter(c, saves), CasesAfter(saves);
      && RunsAfter(c, saves + [run]) == (if Takes(saves, run) then runs[run.runId := FlattenRun(c, run)] else runs)
      && CasesAfter(saves + [run]) == (if Takes(saves, run) then Inserted(cases, run.runId, run.results) else cases)
      && SavedAll(saves + [run]) == Saved(SavedAll(saves), run)
      && RunsAfter(c, saves).Keys == SavedAll(saves).Keys
  {
    assert (saves + [run])[..|saves|] == saves;
    TablesHoldHistory(c, saves);
  }

  class SQLiteBenchmarkStore {
    const codec: TimeCodec
    var runs: RunTable
    var cases: CaseTable
    /** Every save that ran to its end, refused ones included. */
    ghost var saves: seq<BenchmarkRun>

    ghost predicate Valid()
      reads this
    {
      Faithful(codec) && runs == RunsAfter(codec, saves) && cases == CasesAfter(saves)
    }

    ghost function History(): map<string, BenchmarkRun>
      reads this
    {
      SavedAll(saves)
    }

    constructor ()
      ensures Valid() && History() == map[]
    {
      IsoTextIsFaithful();
      codec := ISO_TEXT;
      runs, cases, saves := map[], map[], [];
    }

    /**
     * One transaction. `fault` names the insert at which the database fails, if any; every failure
     * leaves both tables as they were.
     */
    method SaveRun(run: BenchmarkRun, fault: Option<nat>) returns (error: Option<StoreError>)
      requires Valid()
      modifies this
      ensures Valid()
      ensures error ==
              if !ConsistentRun(run) then Some(InvalidInput)
              else if run.runId in old(History()) then Some(DuplicateRun)
              else if fault.Some? && fault.value <= |run.results| then Some(DatabaseFault)
              else None
      ensures error.Some? ==> runs == old(runs) && cases == old(cases) && History() == old(History())
      ensures error.None? ==> History() == old(History())[run.runId := run]
      ensures saves == if error == Some(DatabaseFault) then old(saves) else old(saves) + [run]
    {
      TablesStep(codec, saves, run);
      if !ConsistentRun(run) {
        saves := saves + [run];
        return Some(InvalidInput);
      }
      if run.runId in runs {
        saves := saves + [run];
        return Some(DuplicateRun);
      }
      var committed, moreRuns, moreCases := InsertRun(codec, runs, cases, run, fault);
      if !committed {
        return Some(DatabaseFault);
      }
      runs, cases, saves := moreRuns, moreCases, saves + [run];
      return None;
    }

    /** Reading an id gives back exactly the run saved under it. */
    method GetRun(runId: string) returns (r: Result<Option<BenchmarkRun>, StoreError>)
      requires Valid()
      ensures r == Ok(if runId in History() then Some(History()[runId]) else None)
    {
      TablesHoldHistory(codec, saves);
      FetchReturnsHistory(codec, runs, cases, History(), runId);
      return Fetch(codec, runs, cases, runId);
    }

    /** All history of one scope, in the order of end time and run id. */
    method ListMatchingRuns(scope: Scope) returns (r: Result<seq<BenchmarkRun>, StoreError>)
      requires Valid()
      ensures r.Ok? && Sorted(r.value, RunBefore) && Elements(r.value) == Matching(History(), scope)
    {
      var found := ListEntries(runs, scope);
      var entries := SortEntries(found);
      r := LoadAll(codec, runs, cases, entries);
      TablesHoldHistory(codec, saves);
      LoadAllReturnsHistory(codec, runs, cases, History(), entries);
      ListedInOrder(codec, runs, History(), scope, entries, r.value);
      ListedExactly(codec, runs, History(), scope, entries, r.value);
    }
  }
}
