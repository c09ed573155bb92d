/** The evidence fold over ordered runs: later attempts overwrite earlier ones. */
module QualityEvidence {
  import opened Common
  import opened Timestamps
  import opened Order
  import opened Benchmark
  import opened QualityMetrics

  /** Runs in the order of their end, ties by run id. */
  predicate RunBefore(a: BenchmarkRun, b: BenchmarkRun) {
    Earlier(a.finishedAt, b.finishedAt) || (a.finishedAt == b.finishedAt && TextLess(a.runId, b.runId))
  }

  lemma RunBeforeIsStrict()
    ensures StrictOrder(RunBefore)
  {
    forall a ensures !RunBefore(a, a) {
      TextIrreflexive(a.runId);
    }
    forall a, b, c | RunBefore(a, b) && RunBefore(b, c) ensures RunBefore(a, c) {
      if TextLess(a.runId, b.runId) && TextLess(b.runId, c.runId) { TextTransitive(a.runId, b.runId, c.runId); }
    }
  }

  /** Each result overwrites what was known of its case. */
  function Overlay(results: seq<CaseResult>, runId: string, e: Evidence): Evidence {
    if results == [] then e
    else
      var n := |results| - 1;
      Overlay(results[..n], runId, e)[results[n].caseId := Attempt(results[n], runId)]
  }

  function EvidenceOf(runs: seq<BenchmarkRun>): Evidence {
    if runs == [] then map[]
    else
      var n := |runs| - 1;
      Overlay(runs[n].results, runs[n].runId, EvidenceOf(runs[..n]))
  }

  /** The results belong to the first cases, in order. */
  predicate Aligned(results: seq<CaseResult>, cases: seq<Case>) {
    |results| <= |cases| && forall i :: 0 <= i < |results| ==> results[i].caseId == cases[i].caseId
  }

  predicate AllAligned(runs: seq<BenchmarkRun>, cases: seq<Case>) {
    forall i :: 0 <= i < |runs| ==> Aligned(runs[i].results, cases)
  }

  lemma {:induction false} OverlayAt(results: seq<CaseResult>, runId: string, e: Evidence, cases: seq<Case>, j: nat)
    requires DistinctIds(cases) && Aligned(results, cases) && j < |cases|
    ensures
      var id, f := cases[j].caseId, Overlay(results, runId, e);
      if j < |results| then id in f && f[id] == Attempt(results[j], runId)
      else (id in f <==> id in e) && (id in e ==> f[id] == e[id])
  {
    if results != [] {
      OverlayAt(results[..|results| - 1], runId, e, cases, j);
    }
  }

  lemma {:induction false} OverlayKeys(results: seq<CaseResult>, runId: string, e: Evidence, id: string)
    requires id in Overlay(results, runId, e)
    ensures id in e || exists j :: 0 <= j < |results| && results[j].caseId == id
  {
    if results != [] {
      var n := |results| - 1;
      if id != results[n].caseId { OverlayKeys(results[..n], runId, e, id); }
    }
  }

  /** Run `i` holds the last attempt of case `j` among `runs`. */
  predicate LastAttempt(runs: seq<BenchmarkRun>, i: nat, j: nat) {
    i < |runs| && j < |runs[i].results| && forall k :: i < k < |runs| ==> |runs[k].results| <= j
  }

  predicate Reached(runs: seq<BenchmarkRun>, j: nat) {
    exists i :: 0 <= i < |runs| && |runs[i].results| > j
  }

  /** A case is in evidence exactly when some run reached it. */
  lemma {:induction false} FoldReaches(runs: seq<BenchmarkRun>, cases: seq<Case>, j: nat)
    requires DistinctIds(cases) && AllAligned(runs, cases) && j < |cases|
    ensures cases[j].caseId in EvidenceOf(runs) <==> Reached(runs, j)
  {
    if runs != [] {
      var n := |runs| - 1;
      var front := runs[..n];
      FoldReaches(front, cases, j);
      OverlayAt(runs[n].results, runs[n].runId, EvidenceOf(front), cases, j);
      if Reached(front, j) {
        var i :| 0 <= i < |front| && |front[i].results| > j;
        assert runs[i] == front[i];
      }
    }
  }

  /** What is kept for a case is its last attempt. */
  lemma {:induction false} FoldKeepsLastAttempt(runs: seq<BenchmarkRun>, cases: seq<Case>, i: nat, j: nat)
    requires DistinctIds(cases) && AllAligned(runs, cases) && j < |cases| && LastAttempt(runs, i, j)
    ensures
      var id, e := cases[j].caseId, EvidenceOf(runs);
      id in e && e[id] == Attempt(runs[i].results[j], runs[i].runId)
  {
    var n := |runs| - 1;
    OverlayAt(runs[n].results, runs[n].runId, EvidenceOf(runs[..n]), cases, j);
    if i < n { FoldKeepsLastAttempt(runs[..n], cases, i, j); }
  }

  lemma {:induction false} FoldKeys(runs: seq<BenchmarkRun>, cases: seq<Case>, id: string)
    requires AllAligned(runs, cases) && id in EvidenceOf(runs)
    ensures exists j :: 0 <= j < |cases| && cases[j].caseId == id
  {
    var n := |runs| - 1;
    OverlayKeys(runs[n].results, runs[n].runId, EvidenceOf(runs[..n]), id);
    if id in EvidenceOf(runs[..n]) {
      FoldKeys(runs[..n], cases, id);
    } else {
      var j :| 0 <= j < |runs[n].results| && runs[n].results[j].caseId == id;
      assert cases[j].caseId == id;
    }
  }

  /** The last run that reached case `j`. */
  lemma {:induction false} LastAttemptExists(runs: seq<BenchmarkRun>, j: nat) returns (i: nat)
    requires Reached(runs, j)
    ensures LastAttempt(runs, i, j)
  {
    var n := |runs| - 1;
    if |runs[n].results| > j {
      i := n;
    } else {
      var k :| 0 <= k < |runs| && |runs[k].results| > j;
      assert runs[..n][k] == runs[k];
      i := LastAttemptExists(runs[..n], j);
      assert forall m :: i < m < |runs| ==> m == n || runs[m] == runs[..n][m];
    }
  }

  /** Every piece of evidence is a result of one of the runs. */
  lemma EvidenceComesFromRuns(runs: seq<BenchmarkRun>, cases: seq<Case>, id: string) returns (i: nat, j: nat)
    requires DistinctIds(cases) && AllAligned(runs, cases) && id in EvidenceOf(runs)
    ensures j < |cases| && cases[j].caseId == id && LastAttempt(runs, i, j)
    ensures EvidenceOf(runs)[id] == Attempt(runs[i].results[j], runs[i].runId)
  {
    FoldKeys(runs, cases, id);
    j :| 0 <= j < |cases| && cases[j].caseId == id;
    FoldReaches(runs, cases, j);
    i := LastAttemptExists(runs, j);
    FoldKeepsLastAttempt(runs, cases, i, j);
  }

  lemma {:induction false} EvidenceIsScored(runs: seq<BenchmarkRun>, cases: seq<Case>)
    requires DistinctIds(cases) && AllAligned(runs, cases)
    requires forall i :: 0 <= i < |runs| ==> ConsistentRun(runs[i])
    ensures Scored(EvidenceOf(runs))
  {
    forall id <- EvidenceOf(runs) ensures EvidenceOf(runs)[id].result.evaluation.Some? ==>
                                            0.0 <= EvidenceOf(runs)[id].result.evaluation.value.score <= 1.0
    {
      var i, j := EvidenceComesFromRuns(runs, cases, id);
      assert ConsistentExecution(runs[i].results[j]);
    }
  }

  // ----- prefixes ----------------------------------------------------------------------------

  /** The number of cases the longest run reached. */
  function Longest(runs: seq<BenchmarkRun>): nat {
    if runs == [] then 0
    else
      var n := |runs| - 1;
      if |runs[n].results| > Longest(runs[..n]) then |runs[n].results| else Longest(runs[..n])
  }

  lemma {:induction false} LongestIsLongest(runs: seq<BenchmarkRun>)
    ensures forall i :: 0 <= i < |runs| ==> |runs[i].results| <= Longest(runs)
  {
    if runs != [] { LongestIsLongest(runs[..|runs| - 1]); }
  }

  lemma {:induction false} LongestIsReached(runs: seq<BenchmarkRun>) returns (i: nat)
    requires runs != []
    ensures i < |runs| && |runs[i].results| == Longest(runs)
  {
    var n := |runs| - 1;
    assert n == 0 ==> Longest(runs[..n]) == 0;
    if Longest(runs) == |runs[n].results| {
      i := n;
    } else {
      i := LongestIsReached(runs[..n]);
    }
  }

  lemma {:induction false} ReachedBelowLongest(runs: seq<BenchmarkRun>, j: nat)
    requires j < Longest(runs)
    ensures Reached(runs, j)
  {
    var i := LongestIsReached(runs);
    assert |runs[i].results| > j;
  }

  /** The first `k` cases, and no others, are in evidence. */
  predicate ObservesFirst(cases: seq<Case>, e: Evidence, k: nat) {
    forall j :: 0 <= j < |cases| ==> (Observed(cases[j], e) <==> j < k)
  }

  lemma {:induction false} CountFirst(cases: seq<Case>, e: Evidence, k: nat)
    requires ObservesFirst(cases, e, k)
    ensures TallyOf(cases, e).observed == if k < |cases| then k else |cases|
  {
    if cases != [] { CountFirst(cases[..|cases| - 1], e, k); }
  }

  lemma {:induction false} ObservedPrefix(runs: seq<BenchmarkRun>, cases: seq<Case>)
    requires DistinctIds(cases) && AllAligned(runs, cases)
    ensures ObservesFirst(cases, EvidenceOf(runs), Longest(runs)) && Longest(runs) <= |cases|
  {
    LongestIsLongest(runs);
    if runs != [] {
      var i := LongestIsReached(runs);
      assert Aligned(runs[i].results, cases);
    }
    forall j | 0 <= j < |cases| ensures Observed(cases[j], EvidenceOf(runs)) <==> j < Longest(runs) {
      FoldReaches(runs, cases, j);
      if j < Longest(runs) {
        ReachedBelowLongest(runs, j);
      }
    }
  }

  lemma {:induction false} UnevaluatedCase(cases: seq<Case>, e: Evidence, j: nat)
    requires j < |cases| && Observed(cases[j], e) && !Evaluated(cases[j], e)
    ensures TallyOf(cases, e).evaluated < TallyOf(cases, e).observed
  {
    var n := |cases| - 1;
    TallyCounts(cases[..n], e);
    if j < n { UnevaluatedCase(cases[..n], e, j); }
  }

  /** All of `runs` are consistent executions of the suite. */
  predicate History(suite: Suite, runs: seq<BenchmarkRun>, target: Key) {
    forall i :: 0 <= i < |runs| ==> ConsistentRun(runs[i]) && FitsSuite(runs[i], suite, target)
  }

  lemma HistoryIsAligned(suite: Suite, runs: seq<BenchmarkRun>, target: Key)
    requires History(suite, runs, target)
    ensures AllAligned(runs, suite.cases)
  {
  }

  /** A run that stopped short of the suite stopped at an authentication failure. */
  lemma ShortRunEndsInDenial(run: BenchmarkRun, suite: Suite, target: Key)
    requires ConsistentRun(run) && FitsSuite(run, suite, target) && |run.results| < |suite.cases|
    ensures var last := run.results[|run.results| - 1]; last.error == Some(AuthenticationError) && last.evaluation.None?
  {
  }

  /**
   * Observations are always a prefix of the suite, as long as the longest run. When the suite is
   * not fully observed, the last observed case is an authentication failure in every run that
   * reached it, so completeness stays strictly below coverage.
   */
  lemma {:induction false} PrefixTheorem(suite: Suite, runs: seq<BenchmarkRun>, target: Key)
    requires ValidCases(suite.cases) && History(suite, runs, target)
    ensures
      var e, m := EvidenceOf(runs), MetricsOf(suite.cases, EvidenceOf(runs));
      && m.observed == Longest(runs) <= |suite.cases|
      && ObservesFirst(suite.cases, e, m.observed)
      && (0 < m.observed < m.total ==>
            && e[suite.cases[m.observed - 1].caseId].result.error == Some(AuthenticationError)
            && m.completeness < m.coverage)
  {
    HistoryIsAligned(suite, runs, target);
    ObservedPrefix(runs, suite.cases);
    CountFirst(suite.cases, EvidenceOf(runs), Longest(runs));
    if 0 < Longest(runs) < |suite.cases| {
      DeniedAtTheEnd(suite, runs, target);
      FewerEvaluated(suite.cases, EvidenceOf(runs), Longest(runs) - 1);
    }
  }

  lemma FewerEvaluated(cases: seq<Case>, e: Evidence, j: nat)
    requires cases != [] && Weighted(cases)
    requires j < |cases| && Observed(cases[j], e) && !Evaluated(cases[j], e)
    ensures MetricsOf(cases, e).completeness < MetricsOf(cases, e).coverage
  {
    UnevaluatedCase(cases, e, j);
    SmallerRatio(TallyOf(cases, e).evaluated, TallyOf(cases, e).observed, |cases|);
  }

  /** If a run that reached case `j` ended there, short of the suite, the result is a denial. */
  lemma EndOfRun(run: BenchmarkRun, suite: Suite, target: Key, j: nat)
    requires ConsistentRun(run) && FitsSuite(run, suite, target) && |run.results| == j + 1 < |suite.cases|
    ensures run.results[j].error == Some(AuthenticationError) && run.results[j].evaluation.None?
  {
    ShortRunEndsInDenial(run, suite, target);
  }

  lemma {:induction false} DeniedAtTheEnd(suite: Suite, runs: seq<BenchmarkRun>, target: Key)
    requires ValidCases(suite.cases) && History(suite, runs, target) && 0 < Longest(runs) < |suite.cases|
    ensures
      var e, id := EvidenceOf(runs), suite.cases[Longest(runs) - 1].caseId;
      id in e && e[id].result.error == Some(AuthenticationError) && e[id].result.evaluation.None?
  {
    var j := Longest(runs) - 1;
    HistoryIsAligned(suite, runs, target);
    LongestIsLongest(runs);
    ReachedBelowLongest(runs, j);
    var i := LastAttemptExists(runs, j);
    FoldKeepsLastAttempt(runs, suite.cases, i, j);
    EndOfRun(runs[i], suite, target, j);
  }

  lemma SmallerRatio(a: nat, b: nat, n: nat)
    requires a < b && n > 0
    ensures a as real / n as real < b as real / n as real
  {
  }
}
