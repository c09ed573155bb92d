/** Quality aggregation: which histories are accepted, and the snapshot they yield. */
module Quality {
  import opened Common
  import opened Timestamps
  import opened Order
  import opened Benchmark
  import opened QualityMetrics
  import opened QualityEvidence

  // ----- accepted histories ------------------------------------------------------------------

  predicate SameConfig(runs: seq<BenchmarkRun>) {
    forall i :: 0 <= i < |runs| ==> runs[i].config == runs[0].config
  }

  /** Runs that share an id are the same run. */
  predicate IdsAgree(runs: seq<BenchmarkRun>) {
    forall i, j :: 0 <= i < j < |runs| && runs[i].runId == runs[j].runId ==> runs[i] == runs[j]
  }

  predicate Accepts(suite: Suite, runs: seq<BenchmarkRun>, target: Key) {
    History(suite, runs, target) && SameConfig(runs) && IdsAgree(runs)
  }

  function Find(runs: seq<BenchmarkRun>, runId: string): (r: Option<BenchmarkRun>)
    ensures r.Some? ==> r.value in runs && r.value.runId == runId
    ensures r.None? ==> forall run <- runs :: run.runId != runId
  {
    if runs == [] then None
    else
      var n := |runs| - 1;
      if runs[n].runId == runId then Some(runs[n]) else Find(runs[..n], runId)
  }

  /** The first run of every id, in order of appearance. */
  function Deduplicated(runs: seq<BenchmarkRun>): seq<BenchmarkRun> {
    if runs == [] then []
    else
      var n := |runs| - 1;
      var front := Deduplicated(runs[..n]);
      if Find(front, runs[n].runId).Some? then front else front + [runs[n]]
  }

  predicate DistinctRuns(runs: seq<BenchmarkRun>) {
    forall i, j :: 0 <= i < j < |runs| ==> runs[i].runId != runs[j].runId
  }

  lemma {:induction false} DeduplicatedIsDistinct(runs: seq<BenchmarkRun>)
    ensures DistinctRuns(Deduplicated(runs))
  {
    if runs != [] {
      var n := |runs| - 1;
      DeduplicatedIsDistinct(runs[..n]);
    }
  }

  lemma {:induction false} DeduplicatedElements(runs: seq<BenchmarkRun>)
    requires IdsAgree(runs)
    ensures Elements(Deduplicated(runs)) == Elements(runs)
  {
    if runs != [] {
      var n := |runs| - 1;
      var front, run := Deduplicated(runs[..n]), runs[n];
      DeduplicatedElements(runs[..n]);
      assert runs == runs[..n] + [run];
      ElementsAppend(runs[..n], run);
      ElementsAppend(front, run);
      var known := Find(front, run.runId);
      if known.Some? {
        assert known.value in Elements(runs[..n]);
        var i :| 0 <= i < n && runs[i] == known.value;
        assert run in Elements(runs[..n]);
      }
    }
  }

  lemma ElementsAppend<T>(s: seq<T>, x: T)
    ensures Elements(s + [x]) == Elements(s) + {x}
  {
  }

  function OrderedRuns(runs: seq<BenchmarkRun>): seq<BenchmarkRun> {
    SortBy(Deduplicated(runs), RunBefore)
  }

  lemma OrderedRunsSorted(runs: seq<BenchmarkRun>)
    requires IdsAgree(runs)
    ensures Sorted(OrderedRuns(runs), RunBefore) && Elements(OrderedRuns(runs)) == Elements(runs)
  {
    var unique := Deduplicated(runs);
    DeduplicatedIsDistinct(runs);
    DeduplicatedElements(runs);
    RunBeforeIsStrict();
    forall i, j | 0 <= i < j < |unique| ensures RunBefore(unique[i], unique[j]) || RunBefore(unique[j], unique[i]) {
      TextTotal(unique[i].runId, unique[j].runId);
    }
    SortSorts(unique, RunBefore);
    SortElements(unique, RunBefore);
  }

  lemma SameElementsAccepted(suite: Suite, runs: seq<BenchmarkRun>, others: seq<BenchmarkRun>, target: Key)
    requires Accepts(suite, runs, target) && Elements(others) <= Elements(runs)
    ensures Accepts(suite, others, target)
  {
    forall i | 0 <= i < |others| ensures others[i] in runs {
      assert others[i] in Elements(others);
    }
  }

  // ----- snapshots ---------------------------------------------------------------------------

  datatype Snapshot = Snapshot(
    metrics: Metrics,
    target: Key,
    suiteId: string,
    suiteVersion: string,
    fingerprint: string,
    config: Option<RunConfig>,
    sourceCount: nat,
    sources: seq<string>,
    latest: Option<string>,
    latestCoverage: Option<real>,
    latestCompleteness: Option<real>,
    categories: seq<CategoryMetrics>,
    generatedAt: Utc)

  ghost function SourceIds(e: Evidence): set<string> {
    set id | id in e :: e[id].runId
  }

  predicate ConsistentCategories(categories: seq<CategoryMetrics>) {
    && (forall i :: 0 <= i < |categories| ==> ConsistentMetrics(categories[i].metrics))
    && (forall i, j :: 0 <= i < j < |categories| ==> categories[i].category != categories[j].category)
  }

  /** The snapshot validator, check by check. */
  predicate ConsistentSnapshot(s: Snapshot) {
    && ConsistentMetrics(s.metrics)
    && ConsistentCategories(s.categories)
    && Sorted(s.sources, TextLess)
    && s.sourceCount == |s.sources|
    && (s.sourceCount == 0 <==> s.metrics.observed == 0)
    && (if s.sourceCount > 0 then
          && s.latest.Some? && s.latest.value in s.sources && s.config.Some?
          && s.latestCoverage.Some? && s.latestCompleteness.Some?
          && 0.0 <= s.latestCompleteness.value <= s.latestCoverage.value <= s.metrics.coverage
          && s.latestCompleteness.value <= s.metrics.completeness
        else s.latest.None? && s.config.None? && s.latestCoverage.None? && s.latestCompleteness.None?)
    && SumCounts(s.categories) == CountsOf(s.metrics)
  }

  /** A snapshot without sources says nothing of runs, and one with sources names a run among them. */
  lemma SourcesDecide(s: Snapshot)
    requires ConsistentSnapshot(s)
    ensures s.sources == [] <==> s.metrics.observed == 0
    ensures s.sources == [] <==> s.latest.None?
    ensures s.latest.Some? <==> s.config.Some? && s.latestCoverage.Some? && s.latestCompleteness.Some?
    ensures s.latest.Some? ==>
              s.latest.value in s.sources
              && s.latestCompleteness.value <= s.latestCoverage.value <= s.metrics.coverage
              && s.latestCompleteness.value <= s.metrics.completeness
    ensures SumCounts(s.categories) == Counts(s.metrics.total, s.metrics.observed, s.metrics.evaluated,
                                              s.metrics.failed)
  {
  }

  predicate Describes(s: Snapshot, suite: Suite, ordered: seq<BenchmarkRun>, target: Key, generatedAt: Utc)
    requires ValidCases(suite.cases) && Named(CategoriesOf(suite.cases), suite.cases)
  {
    && s.metrics == MetricsOf(suite.cases, EvidenceOf(ordered))
    && s.categories == ByCategory(CategoriesOf(suite.cases), suite.cases, EvidenceOf(ordered))
    && s.target == target && s.suiteId == suite.suiteId && s.suiteVersion == suite.version
    && s.fingerprint == suite.fingerprint && s.generatedAt == generatedAt
    && s.sourceCount == |s.sources|
    && if ordered == [] then s.latest.None? && s.config.None? && s.latestCoverage.None? && s.latestCompleteness.None?
       else
         var last := ordered[|ordered| - 1];
         && s.latest == Some(last.runId) && s.config == Some(last.config)
         && s.latestCoverage == Some(|last.results| as real / |suite.cases| as real)
         && s.latestCompleteness == Some(last.completedCases as real / |suite.cases| as real)
  }

  /** What a snapshot of `runs` must say; it determines the snapshot. */
  ghost predicate Aggregates(s: Snapshot, suite: Suite, runs: seq<BenchmarkRun>, target: Key, generatedAt: Utc)
    requires ValidCases(suite.cases)
  {
    EveryCategoryIsListed(suite.cases);
    && Describes(s, suite, OrderedRuns(runs), target, generatedAt)
    && Sorted(s.sources, TextLess) && Elements(s.sources) == SourceIds(EvidenceOf(OrderedRuns(runs)))
  }

  lemma TextLessIsStrict()
    ensures StrictOrder(TextLess)
  {
    forall a ensures !TextLess(a, a) {
      TextIrreflexive(a);
    }
    forall a, b, c | TextLess(a, b) && TextLess(b, c) ensures TextLess(a, c) {
      TextTransitive(a, b, c);
    }
  }

  // ----- the main results --------------------------------------------------------------------

  /**
   * The evidence for a case is the attempt of the run greatest by end time, then run id, among
   * the runs that reached it; a case no run reached has none.
   */
  lemma LatestAttempt(suite: Suite, runs: seq<BenchmarkRun>, target: Key, run: BenchmarkRun, j: nat)
    requires ValidCases(suite.cases) && Accepts(suite, runs, target) && j < |suite.cases|
    ensures
      var id, e := suite.cases[j].caseId, EvidenceOf(OrderedRuns(runs));
      && (id in e <==> exists r <- runs :: |r.results| > j)
      && (run in runs && |run.results| > j
          && (forall r <- runs :: |r.results| > j ==> r == run || RunBefore(r, run)) ==>
            id in e && e[id] == Attempt(run.results[j], run.runId))
  {
    var ordered := OrderedRuns(runs);
    OrderedRunsSorted(runs);
    SameElementsAccepted(suite, runs, ordered, target);
    HistoryIsAligned(suite, ordered, target);
    FoldReaches(ordered, suite.cases, j);
    ReachedByElements(ordered, runs, j);
    if run in runs && |run.results| > j && forall r <- runs :: |r.results| > j ==> r == run || RunBefore(r, run) {
      GreatestIsLastAttempt(ordered, runs, run, j);
      var i :| 0 <= i < |ordered| && ordered[i] == run && LastAttempt(ordered, i, j);
      FoldKeepsLastAttempt(ordered, suite.cases, i, j);
    }
  }

  lemma ReachedByElements(ordered: seq<BenchmarkRun>, runs: seq<BenchmarkRun>, j: nat)
    requires Elements(ordered) == Elements(runs)
    ensures Reached(ordered, j) <==> exists r <- runs :: |r.results| > j
  {
    if Reached(ordered, j) {
      var i :| 0 <= i < |ordered| && |ordered[i].results| > j;
      assert ordered[i] in Elements(runs);
    }
    if r :| r in runs && |r.results| > j {
      assert r in Elements(ordered);
    }
  }

  lemma GreatestIsLastAttempt(ordered: seq<BenchmarkRun>, runs: seq<BenchmarkRun>, run: BenchmarkRun, j: nat)
    requires Sorted(ordered, RunBefore) && Elements(ordered) == Elements(runs)
    requires run in runs && |run.results| > j && forall r <- runs :: |r.results| > j ==> r == run || RunBefore(r, run)
    ensures exists i :: 0 <= i < |ordered| && ordered[i] == run && LastAttempt(ordered, i, j)
  {
    assert run in Elements(ordered);
    var i :| 0 <= i < |ordered| && ordered[i] == run;
    RunBeforeIsStrict();
    forall k | i < k < |ordered| ensures |ordered[k].results| <= j {
      assert ordered[k] in Elements(runs);
      assert RunBefore(ordered[i], ordered[k]);
    }
    assert LastAttempt(ordered, i, j);
  }

  /** Acceptance and the snapshot depend only on which runs there are, not on order or repetition. */
  lemma OrderAndRepetitionDoNotMatter(suite: Suite, runs: seq<BenchmarkRun>, others: seq<BenchmarkRun>, target: Key,
                                      generatedAt: Utc, s: Snapshot, t: Snapshot)
    requires ValidCases(suite.cases) && Elements(runs) == Elements(others)
    ensures Accepts(suite, runs, target) <==> Accepts(suite, others, target)
    ensures
      (&& Accepts(suite, runs, target)
       && Aggregates(s, suite, runs, target, generatedAt)
       && Aggregates(t, suite, others, target, generatedAt)) ==> s == t
  {
    if Accepts(suite, others, target) { SameElementsAccepted(suite, others, runs, target); }
    if Accepts(suite, runs, target) {
      SameElementsAccepted(suite, runs, others, target);
      OrderedRunsSorted(runs);
      OrderedRunsSorted(others);
      RunBeforeIsStrict();
      SortedIsUnique(OrderedRuns(runs), OrderedRuns(others), RunBefore);
      if Aggregates(s, suite, runs, target, generatedAt) && Aggregates(t, suite, others, target, generatedAt) {
        TextLessIsStrict();
        SortedIsUnique(s.sources, t.sources, TextLess);
      }
    }
  }

  lemma RatioMonotone(a: nat, b: nat, n: nat)
    requires a <= b && n > 0
    ensures 0.0 <= a as real / n as real <= b as real / n as real
  {
  }

  lemma {:induction false} EvaluatedGrows(cases: seq<Case>, e: Evidence, k: nat)
    requires k <= |cases|
    ensures TallyOf(cases[..k], e).evaluated <= TallyOf(cases, e).evaluated
  {
    if k < |cases| {
      var n := |cases| - 1;
      EvaluatedGrows(cases[..n], e, k);
      assert cases[..n][..k] == cases[..k];
    } else {
      assert cases[..k] == cases;
    }
  }

  /** The evidence for the first `k` cases is what `results` says. */
  predicate Reflects(e: Evidence, results: seq<CaseResult>, cases: seq<Case>, k: nat)
    requires k <= |results| && k <= |cases|
  {
    forall j :: 0 <= j < k ==> Observed(cases[j], e) && e[cases[j].caseId].result == results[j]
  }

  lemma {:induction false} CompletedWithin(results: seq<CaseResult>, cases: seq<Case>, e: Evidence, k: nat)
    requires k <= |results| && k <= |cases| && Reflects(e, results, cases, k)
    requires forall j :: 0 <= j < k ==> ConsistentExecution(results[j])
    ensures CountCompleted(results[..k]) == TallyOf(cases[..k], e).evaluated
  {
    if k > 0 {
      CompletedWithin(results, cases, e, k - 1);
      assert results[..k][..k - 1] == results[..k - 1] && cases[..k][..k - 1] == cases[..k - 1];
      assert ConsistentExecution(results[k - 1]);
    }
  }

  /** The latest run's own counts never exceed the combined ones. */
  lemma LatestRunWithin(suite: Suite, ordered: seq<BenchmarkRun>, target: Key)
    requires ValidCases(suite.cases) && History(suite, ordered, target) && ordered != []
    ensures
      var last, e, m := ordered[|ordered| - 1], EvidenceOf(ordered), MetricsOf(suite.cases, EvidenceOf(ordered));
      && 0 < |last.results| <= m.observed && last.completedCases <= |last.results| && last.completedCases <= m.evaluated
      && last.runId in SourceIds(e)
  {
    var cases, e, n := suite.cases, EvidenceOf(ordered), |ordered| - 1;
    var results := ordered[n].results;
    var k := |results|;
    assert ConsistentRun(ordered[n]);
    PrefixTheorem(suite, ordered, target);
    LongestIsLongest(ordered);
    HistoryIsAligned(suite, ordered, target);
    forall j | 0 <= j < k ensures Observed(cases[j], e) && e[cases[j].caseId] == Attempt(results[j], ordered[n].runId) {
      FoldKeepsLastAttempt(ordered, cases, n, j);
    }
    assert e[cases[0].caseId].runId == ordered[n].runId;
    CompletedWithin(results, cases, e, k);
    EvaluatedGrows(cases, e, k);
    assert results[..k] == results;
  }

  /** Nothing is observed exactly when there is no run, and then there are no sources. */
  lemma {:induction false} SourcesMatchObservations(suite: Suite, ordered: seq<BenchmarkRun>, target: Key)
    requires ValidCases(suite.cases) && History(suite, ordered, target)
    ensures
      var e, m := EvidenceOf(ordered), MetricsOf(suite.cases, EvidenceOf(ordered));
      (ordered == [] <==> m.observed == 0) && (ordered == [] <==> SourceIds(e) == {})
  {
    PrefixTheorem(suite, ordered, target);
    if ordered != [] { LatestRunWithin(suite, ordered, target); }
  }

  lemma {:induction false} CategoriesAreConsistent(cases: seq<Case>, e: Evidence)
    requires Weighted(cases) && Scored(e) && Named(CategoriesOf(cases), cases)
    ensures ConsistentCategories(ByCategory(CategoriesOf(cases), cases, e))
  {
    var categories := CategoriesOf(cases);
    var c := ByCategory(categories, cases, e);
    CategoriesAreUnique(cases);
    forall i | 0 <= i < |c| ensures ConsistentMetrics(c[i].metrics) && c[i].category == categories[i] {
      ByCategoryAt(categories, cases, e, i);
      MetricsAreConsistent(OfCategory(cases, categories[i]), e);
    }
  }

  lemma {:induction false} CategoryCountsAddUp(cases: seq<Case>, e: Evidence)
    requires cases != [] && Weighted(cases) && Named(CategoriesOf(cases), cases)
    ensures SumCounts(ByCategory(CategoriesOf(cases), cases, e)) == CountsOf(MetricsOf(cases, e))
  {
    CategoriesAreUnique(cases);
    EveryCategoryIsListed(cases);
    CategoriesAddUp(CategoriesOf(cases), cases, e);
    CountsAreTallies(CategoriesOf(cases), cases, e);
    MetricsCount(cases, e);
  }

  /** For every accepted history the snapshot passes its own validator. */
  lemma SnapshotsAreConsistent(s: Snapshot, suite: Suite, runs: seq<BenchmarkRun>, target: Key, generatedAt: Utc)
    requires ValidCases(suite.cases) && Accepts(suite, runs, target)
    requires Aggregates(s, suite, runs, target, generatedAt)
    ensures ConsistentSnapshot(s)
  {
    var ordered, cases := OrderedRuns(runs), suite.cases;
    var e := EvidenceOf(ordered);
    OrderedRunsSorted(runs);
    SameElementsAccepted(suite, runs, ordered, target);
    HistoryIsAligned(suite, ordered, target);
    EvidenceIsScored(ordered, cases);
    MetricsAreConsistent(cases, e);
    EveryCategoryIsListed(cases);
    CategoriesAreConsistent(cases, e);
    CategoryCountsAddUp(cases, e);
    SourcesMatchObservations(suite, ordered, target);
    EmptyExactly(s.sources);
    if ordered != [] {
      var last := ordered[|ordered| - 1];
      LatestRunWithin(suite, ordered, target);
      assert last.runId in Elements(s.sources);
      RatioMonotone(|last.results|, s.metrics.observed, |cases|);
      RatioMonotone(last.completedCases, |last.results|, |cases|);
      RatioMonotone(last.completedCases, s.metrics.evaluated, |cases|);
    }
  }

  /**
   * Read off the snapshot: observations reach exactly as far as the longest run, an incompletely
   * observed suite is even less completely evaluated, and five or fewer cases earn no confidence
   * however often they are repeated.
   */
  lemma SnapshotReadsHistory(s: Snapshot, suite: Suite, runs: seq<BenchmarkRun>, target: Key, generatedAt: Utc)
    requires ValidCases(suite.cases) && Accepts(suite, runs, target)
    requires Aggregates(s, suite, runs, target, generatedAt)
    ensures forall r <- runs :: |r.results| <= s.metrics.observed
    ensures runs != [] ==> exists r <- runs :: |r.results| == s.metrics.observed
    ensures 0 < s.metrics.observed < s.metrics.total ==> s.metrics.completeness < s.metrics.coverage
    ensures s.metrics.confidence <= s.metrics.weightedCoverage && s.metrics.confidence <= s.metrics.completeness
    ensures |suite.cases| <= 5 ==> s.metrics.confidence == 0.0
  {
    var ordered := OrderedRuns(runs);
    OrderedRunsSorted(runs);
    SameElementsAccepted(suite, runs, ordered, target);
    PrefixTheorem(suite, ordered, target);
    SmallSuitesEarnNoConfidence(suite.cases, EvidenceOf(ordered));
    LongestOfElements(ordered, runs);
  }

  lemma {:induction false} LongestOfElements(ordered: seq<BenchmarkRun>, runs: seq<BenchmarkRun>)
    requires Elements(ordered) == Elements(runs)
    ensures forall r <- runs :: |r.results| <= Longest(ordered)
    ensures runs != [] ==> exists r <- runs :: |r.results| == Longest(ordered)
  {
    LongestIsLongest(ordered);
    assert forall r <- runs :: r in Elements(ordered);
    EmptyExactly(runs);
    EmptyExactly(ordered);
    if runs != [] {
      var i := LongestIsReached(ordered);
      assert ordered[i] in Elements(runs);
    }
  }

  /**
   * The numbers of a snapshot: for the suite and for each of its categories the counts, the means
   * weighted by the cases' own weights and the confidence they earn, over the latest attempts.
   */
  lemma {:induction false} SnapshotWeighsCases(s: Snapshot, suite: Suite, runs: seq<BenchmarkRun>, target: Key,
                                               generatedAt: Utc)
    requires ValidCases(suite.cases) && Aggregates(s, suite, runs, target, generatedAt)
    ensures
      var e := EvidenceOf(OrderedRuns(runs));
      && Weighs(s.metrics, suite.cases, e, None) && EarnsConfidence(s.metrics)
      && forall i :: 0 <= i < |s.categories| ==> CategoryWeighs(s.categories, suite.cases, e, i)
    ensures Unique(CategoriesOf(suite.cases))
    ensures forall c <- suite.cases :: exists i :: 0 <= i < |s.categories| && s.categories[i].category == c.category
  {
    var e := EvidenceOf(OrderedRuns(runs));
    EveryCategoryIsListed(suite.cases);
    MetricsWeighCases(suite.cases, e, None);
    ConfidenceIsEarned(s.metrics);
    CategoriesAreUnique(suite.cases);
    forall i | 0 <= i < |s.categories| ensures CategoryWeighs(s.categories, suite.cases, e, i) {
      CategoriesWeighCases(suite.cases, e, i);
    }
    forall c | c in suite.cases ensures exists i :: 0 <= i < |s.categories| && s.categories[i].category == c.category {
      var i := CategoryIsListed(suite.cases, e, c);
    }
  }

  /** What the snapshot says of the category at `i`: its name in the order of the cases, and its numbers. */
  ghost predicate CategoryWeighs(categories: seq<CategoryMetrics>, cases: seq<Case>, e: Evidence, i: nat) {
    && i < |categories| == |CategoriesOf(cases)| && categories[i].category == CategoriesOf(cases)[i]
    && Weighs(categories[i].metrics, cases, e, Some(categories[i].category)) && EarnsConfidence(categories[i].metrics)
  }

  lemma {:induction false} CategoriesWeighCases(cases: seq<Case>, e: Evidence, i: nat)
    requires ValidCases(cases) && Named(CategoriesOf(cases), cases) && i < |CategoriesOf(cases)|
    ensures CategoryWeighs(ByCategory(CategoriesOf(cases), cases, e), cases, e, i)
  {
    var category := CategoriesOf(cases)[i];
    ByCategoryAt(CategoriesOf(cases), cases, e, i);
    MetricsWeighCases(cases, e, Some(category));
    ConfidenceIsEarned(MetricsOf(OfCategory(cases, category), e));
  }

  lemma {:induction false} CategoryIsListed(cases: seq<Case>, e: Evidence, c: Case) returns (i: nat)
    requires ValidCases(cases) && Named(CategoriesOf(cases), cases) && c in cases
    ensures i < |ByCategory(CategoriesOf(cases), cases, e)|
    ensures ByCategory(CategoriesOf(cases), cases, e)[i].category == c.category
  {
    EveryCategoryIsListed(cases);
    var j :| 0 <= j < |cases| && cases[j] == c;
    i :| 0 <= i < |CategoriesOf(cases)| && CategoriesOf(cases)[i] == c.category;
    ByCategoryAt(CategoriesOf(cases), cases, e, i);
  }

  /** The run is the one that finished last, ties by id. */
  predicate IsLatestOf(run: BenchmarkRun, runs: seq<BenchmarkRun>) {
    run in runs && forall r <- runs :: r == run || RunBefore(r, run)
  }

  lemma {:induction false} LastIsLatest(runs: seq<BenchmarkRun>, run: BenchmarkRun)
    requires IdsAgree(runs) && IsLatestOf(run, runs)
    ensures var ordered := OrderedRuns(runs); ordered != [] && ordered[|ordered| - 1] == run
  {
    var ordered := OrderedRuns(runs);
    OrderedRunsSorted(runs);
    RunBeforeIsStrict();
    assert run in Elements(ordered);
    var i :| 0 <= i < |ordered| && ordered[i] == run;
    assert ordered[|ordered| - 1] in Elements(runs);
  }

  /** The latest run a snapshot names, with its configuration and how far it got. */
  lemma {:induction false} SnapshotNamesLatest(s: Snapshot, suite: Suite, runs: seq<BenchmarkRun>, target: Key,
                                               generatedAt: Utc, run: BenchmarkRun)
    requires ValidCases(suite.cases) && Accepts(suite, runs, target) && IsLatestOf(run, runs)
    requires Aggregates(s, suite, runs, target, generatedAt)
    ensures s.latest == Some(run.runId) && s.config == Some(run.config)
    ensures s.latestCoverage.Some? && Times(|suite.cases| as real, s.latestCoverage.value) == |run.results| as real
    ensures s.latestCompleteness.Some?
    ensures Times(|suite.cases| as real, s.latestCompleteness.value) == |CompletedPlaces(run.results)| as real
  {
    LastIsLatest(runs, run);
    assert ConsistentRun(run);
    CompletedAreCounted(run.results);
    TimesQuotient(|run.results| as real, |suite.cases| as real);
    TimesQuotient(run.completedCases as real, |suite.cases| as real);
  }

  // ----- the aggregator ----------------------------------------------------------------------

  datatype Rejection =
    | InvalidRun | TargetMismatch | SuiteMismatch | ConfigMismatch | TotalMismatch | CaseMismatch | ConflictingRun

  /** What a run must have wrong for a refusal that concerns it alone. */
  predicate Blames(x: Rejection, suite: Suite, run: BenchmarkRun, config: Option<RunConfig>, target: Key) {
    match x
    case InvalidRun => !ConsistentRun(run)
    case TargetMismatch => run.target != target
    case SuiteMismatch =>
      run.suiteId != suite.suiteId || run.suiteVersion != suite.version || run.fingerprint != suite.fingerprint
    case ConfigMismatch => config.Some? && run.config != config.value
    case TotalMismatch => run.totalCases != |suite.cases|
    case CaseMismatch =>
      exists i :: 0 <= i < |run.results| && i < |suite.cases| && !FitsCase(run.results[i], suite.cases[i])
    case ConflictingRun => false
  }

  /** The checks on one run, in the order they are made; `config` is that of the runs before it. */
  method CheckRun(suite: Suite, run: BenchmarkRun, config: Option<RunConfig>, target: Key)
    returns (r: Option<Rejection>)
    ensures r.None? <==>
              ConsistentRun(run) && FitsSuite(run, suite, target) && (config.Some? ==> run.config == config.value)
    ensures r.Some? ==> Blames(r.value, suite, run, config, target)
  {
    if !ConsistentRun(run) {
      return Some(InvalidRun);
    }
    if run.target != target {
      return Some(TargetMismatch);
    }
    if run.suiteId != suite.suiteId || run.suiteVersion != suite.version || run.fingerprint != suite.fingerprint {
      return Some(SuiteMismatch);
    }
    if config.Some? && run.config != config.value {
      return Some(ConfigMismatch);
    }
    if run.totalCases != |suite.cases| {
      return Some(TotalMismatch);
    }
    var n := 0;
    while n < |run.results| && n < |suite.cases|
      invariant 0 <= n <= |run.results| && n <= |suite.cases|
      invariant forall i :: 0 <= i < n ==> FitsCase(run.results[i], suite.cases[i])
    {
      if !FitsCase(run.results[n], suite.cases[n]) {
        return Some(CaseMismatch);
      }
      n := n + 1;
    }
    return None;
  }

  /** The run has the configuration of `runs` and its id is new or names an equal run. */
  predicate Joins(runs: seq<BenchmarkRun>, run: BenchmarkRun) {
    && (runs != [] ==> run.config == runs[0].config)
    && forall i :: 0 <= i < |runs| && runs[i].runId == run.runId ==> runs[i] == run
  }

  /** A history grows by exactly the consistent runs of the suite that join it. */
  lemma AcceptsExtended(suite: Suite, runs: seq<BenchmarkRun>, run: BenchmarkRun, target: Key)
    ensures
      Accepts(suite, runs + [run], target) <==>
        Accepts(suite, runs, target) && ConsistentRun(run) && FitsSuite(run, suite, target) && Joins(runs, run)
  {
    var more := runs + [run];
    if Accepts(suite, more, target) {
      assert Elements(runs) <= Elements(more) by { ElementsAppend(runs, run); }
      SameElementsAccepted(suite, more, runs, target);
      assert more[|runs|] == run;
      JoinsExactly(runs, run);
    }
    if Accepts(suite, runs, target) && ConsistentRun(run) && FitsSuite(run, suite, target) && Joins(runs, run) {
      JoinsExactly(runs, run);
    }
  }

  lemma JoinsExactly(runs: seq<BenchmarkRun>, run: BenchmarkRun)
    requires SameConfig(runs) && IdsAgree(runs)
    ensures SameConfig(runs + [run]) && IdsAgree(runs + [run]) <==> Joins(runs, run)
  {
    var more := runs + [run];
    if SameConfig(more) && IdsAgree(more) {
      assert more[|runs|] == run && more[|runs|].config == more[0].config;
      forall i | 0 <= i < |runs| && runs[i].runId == run.runId ensures runs[i] == run {
        assert more[i] == runs[i];
      }
    }
  }

  lemma PrefixAccepted(suite: Suite, runs: seq<BenchmarkRun>, n: nat, target: Key)
    requires n <= |runs|
    ensures Accepts(suite, runs, target) ==> Accepts(suite, runs[..n], target)
  {
  }

  lemma {:induction false} KnownAgrees(runs: seq<BenchmarkRun>, unique: seq<BenchmarkRun>, run: BenchmarkRun)
    requires Elements(unique) == Elements(runs) && IdsAgree(runs)
    ensures
      (forall i :: 0 <= i < |runs| && runs[i].runId == run.runId ==> runs[i] == run) <==>
        (Find(unique, run.runId).None? || Find(unique, run.runId).value == run)
  {
    var known := Find(unique, run.runId);
    assert forall i :: 0 <= i < |runs| ==> runs[i] in Elements(unique);
    if known.Some? {
      assert known.value in Elements(runs);
    }
  }

  function ConfigOf(runs: seq<BenchmarkRun>): Option<RunConfig> {
    if runs == [] then None else Some(runs[0].config)
  }

  lemma ConfigAppend(suite: Suite, runs: seq<BenchmarkRun>, run: BenchmarkRun, target: Key)
    requires Accepts(suite, runs + [run], target)
    ensures ConfigOf(runs + [run]) == Some(run.config)
  {
    assert (runs + [run])[|runs|] == run;
  }

  lemma {:induction false} DeduplicatedAppend(runs: seq<BenchmarkRun>, run: BenchmarkRun)
    ensures
      var front := Deduplicated(runs);
      Deduplicated(runs + [run]) == if Find(front, run.runId).Some? then front else front + [run]
  {
  }

  /** The checks on the next run, given the accepted ones before it. */
  method CheckNext(suite: Suite, ghost runs: seq<BenchmarkRun>, unique: seq<BenchmarkRun>, config: Option<RunConfig>,
                   run: BenchmarkRun, target: Key)
    returns (r: Option<Rejection>)
    requires Accepts(suite, runs, target) && unique == Deduplicated(runs) && config == ConfigOf(runs)
    ensures r.None? <==> Accepts(suite, runs + [run], target)
    ensures r.Some? ==>
              || Blames(r.value, suite, run, config, target)
              || (r.value == ConflictingRun && exists other <- runs :: other.runId == run.runId && other != run)
  {
    DeduplicatedElements(runs);
    AcceptsExtended(suite, runs, run, target);
    KnownAgrees(runs, unique, run);
    r := CheckRun(suite, run, config, target);
    if r.Some? {
      return;
    }
    var known := Find(unique, run.runId);
    assert known.Some? ==> known.value in Elements(runs);
    return if known.Some? && known.value != run then Some(ConflictingRun) else None;
  }

  lemma TakeNext<T>(s: seq<T>, n: nat)
    requires n < |s|
    ensures s[..n] + [s[n]] == s[..n + 1]
  {
  }

  /** The acceptance loop: the distinct runs, or the reason the history is refused. */
  method Compatible(suite: Suite, runs: seq<BenchmarkRun>, target: Key)
    returns (r: Result<seq<BenchmarkRun>, Rejection>)
    ensures r.Ok? <==> Accepts(suite, runs, target)
    ensures r.Ok? ==> r.value == Deduplicated(runs)
  {
    var unique: seq<BenchmarkRun> := [];
    var config: Option<RunConfig> := None;
    ghost var seen: seq<BenchmarkRun> := [];
    for n := 0 to |runs|
      invariant seen == runs[..n] && Accepts(suite, seen, target)
      invariant unique == Deduplicated(seen) && config == ConfigOf(seen)
    {
      var run := runs[n];
      TakeNext(runs, n);
      var refused := CheckNext(suite, seen, unique, config, run, target);
      PrefixAccepted(suite, runs, n + 1, target);
      if refused.Some? {
        return Err(refused.value);
      }
      DeduplicatedAppend(seen, run);
      ConfigAppend(suite, seen, run, target);
      seen := seen + [run];
      config := Some(run.config);
      unique := if Find(unique, run.runId).Some? then unique else unique + [run];
    }
    assert runs[..|runs|] == runs;
    return Ok(unique);
  }

  method Collect(ordered: seq<BenchmarkRun>) returns (e: Evidence)
    ensures e == EvidenceOf(ordered)
  {
    e := map[];
    for n := 0 to |ordered|
      invariant e == EvidenceOf(ordered[..n])
    {
      var results, before := ordered[n].results, e;
      for j := 0 to |results|
        invariant e == Overlay(results[..j], ordered[n].runId, before)
      {
        assert results[..j + 1][..j] == results[..j];
        e := e[results[j].caseId := Attempt(results[j], ordered[n].runId)];
      }
      assert results[..|results|] == results;
      assert ordered[..n + 1][..n] == ordered[..n];
    }
    assert ordered[..|ordered|] == ordered;
  }

  method ListTexts(texts: set<string>) returns (listed: seq<string>)
    ensures Elements(listed) == texts && forall i, j :: 0 <= i < j < |listed| ==> listed[i] != listed[j]
  {
    var rest := texts;
    listed := [];
    while rest != {}
      invariant rest + Elements(listed) == texts && rest !! Elements(listed)
      invariant forall i, j :: 0 <= i < j < |listed| ==> listed[i] != listed[j]
      decreases |rest|
    {
      var x :| x in rest;
      ElementsAppend(listed, x);
      assert x !in Elements(listed);
      listed, rest := listed + [x], rest - {x};
    }
  }

  method SortTexts(texts: set<string>) returns (sorted: seq<string>)
    ensures Sorted(sorted, TextLess) && Elements(sorted) == texts
  {
    var listed := ListTexts(texts);
    TextLessIsStrict();
    forall i, j | 0 <= i < j < |listed| ensures TextLess(listed[i], listed[j]) || TextLess(listed[j], listed[i]) {
      TextTotal(listed[i], listed[j]);
    }
    SortSorts(listed, TextLess);
    SortElements(listed, TextLess);
    return SortBy(listed, TextLess);
  }

  /**
   * The aggregator accepts exactly the compatible histories; the snapshot it returns is the one
   * their distinct runs determine, and passes the snapshot validator.
   */
  method Aggregate(suite: Suite, runs: seq<BenchmarkRun>, target: Key, generatedAt: Utc)
    returns (r: Result<Snapshot, Rejection>)
    requires ValidCases(suite.cases)
    ensures r.Ok? <==> Accepts(suite, runs, target)
    ensures r.Ok? ==> Aggregates(r.value, suite, runs, target, generatedAt) && ConsistentSnapshot(r.value)
  {
    var unique := Compatible(suite, runs, target);
    if unique.Err? {
      return Err(unique.error);
    }
    var ordered := SortBy(unique.value, RunBefore);
    var e := Collect(ordered);
    var sources := SortTexts(set id | id in e :: e[id].runId);
    EveryCategoryIsListed(suite.cases);
    var s := Snapshot(MetricsOf(suite.cases, e), target, suite.suiteId, suite.version, suite.fingerprint, None,
                      |sources|, sources, None, None, None,
                      ByCategory(CategoriesOf(suite.cases), suite.cases, e), generatedAt);
    if ordered != [] {
      var last := ordered[|ordered| - 1];
      s := s.(config := Some(last.config), latest := Some(last.runId),
              latestCoverage := Some(|last.results| as real / |suite.cases| as real),
              latestCompleteness := Some(last.completedCases as real / |suite.cases| as real));
    }
    assert Describes(s, suite, ordered, target, generatedAt);
    SnapshotsAreConsistent(s, suite, runs, target, generatedAt);
    return Ok(s);
  }
}
