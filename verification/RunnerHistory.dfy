/** What the runner records is always usable: as a history, and once stored, as routing evidence. */
module RunnerHistory {
  import opened Common
  import opened Order
  import opened Benchmark
  import opened BenchmarkRunner
  import opened Quality
  import opened BenchmarkStore
  import opened QualityResolver

  /** `run` is a result of the runner for some behaviour of the provider. */
  ghost predicate IsRunnerResult(run: BenchmarkRun, suite: Suite, target: Key, config: RunConfig, lib: TextLibrary)
    requires ValidSuite(suite, lib)
  {
    exists calls :: IsRunOf(run, suite, target, config, calls, lib)
  }

  lemma RunnerResultFits(run: BenchmarkRun, suite: Suite, target: Key, config: RunConfig, lib: TextLibrary)
    requires ValidSuite(suite, lib) && ValidConfig(config) && IsRunnerResult(run, suite, target, config, lib)
    ensures ConsistentRun(run) && FitsSuite(run, suite, target) && run.config == config
  {
    var calls :| IsRunOf(run, suite, target, config, calls, lib);
    RunIsConsistent(run, suite, target, config, calls, lib);
  }

  /** Any results of the runner with distinct ids are an acceptable history, however the provider behaved. */
  lemma RunnerResultsAreAccepted(runs: seq<BenchmarkRun>, suite: Suite, target: Key, config: RunConfig,
                                 lib: TextLibrary)
    requires ValidSuite(suite, lib) && ValidConfig(config) && DistinctRuns(runs)
    requires forall run <- runs :: IsRunnerResult(run, suite, target, config, lib)
    ensures Accepts(suite, runs, target)
  {
    forall i | 0 <= i < |runs|
      ensures ConsistentRun(runs[i]) && FitsSuite(runs[i], suite, target) && runs[i].config == config
    {
      RunnerResultFits(runs[i], suite, target, config, lib);
    }
  }

  /**
   * Storing results of the runner with distinct ids keeps every one of them, and the resolver
   * can combine them.
   */
  lemma {:induction false} RunnerResultsAreResolved(saves: seq<BenchmarkRun>, suite: Suite, target: Key,
                                                    config: RunConfig, lib: TextLibrary)
    requires ValidSuite(suite, lib) && ValidConfig(config) && DistinctRuns(saves)
    requires forall run <- saves :: IsRunnerResult(run, suite, target, config, lib)
    ensures Matching(SavedAll(saves), ScopeOf(suite, target)) == Elements(saves)
    ensures Combinable(Elements(saves), suite, target)
  {
    var history, scope := SavedAll(saves), ScopeOf(suite, target);
    RunnerResultsAreAccepted(saves, suite, target, config, lib);
    forall i | 0 <= i < |saves| ensures saves[i] in Matching(history, scope) {
      assert FirstSave(saves, i) && RunInScope(saves[i], scope);
      NoSaveOverwrites(saves, saves[i].runId);
    }
    forall run | run in Matching(history, scope) ensures run in Elements(saves) {
      var id :| id in history && history[id] == run;
      NoSaveOverwrites(saves, id);
    }
    AcceptedExactlyCombinable(saves, suite, target, saves);
  }
}
