/** Benchmark quality for routing: stored history of one suite, aggregated on request. */
module QualityResolver {
  import opened Common
  import opened Order
  import opened Timestamps
  import opened Benchmark
  import opened Quality
  import opened BenchmarkStore

  function ScopeOf(suite: Suite, target: Key): Scope {
    Scope(target, suite.suiteId, suite.version, suite.fingerprint)
  }

  /** What it takes for stored runs of one scope to be aggregated. */
  ghost predicate Combinable(found: set<BenchmarkRun>, suite: Suite, target: Key) {
    && (forall run <- found :: FitsSuite(run, suite, target))
    && (forall a, b :: a in found && b in found ==> a.config == b.config)
  }

  /** Stored runs are consistent and sit under their own ids. */
  lemma {:induction false} StoredRuns(saves: seq<BenchmarkRun>, scope: Scope)
    ensures forall run <- Matching(SavedAll(saves), scope) :: ConsistentRun(run)
    ensures
      var found := Matching(SavedAll(saves), scope);
      forall a, b :: a in found && b in found && a.runId == b.runId ==> a == b
  {
    var history := SavedAll(saves);
    forall id | id in history ensures ConsistentRun(history[id]) && history[id].runId == id {
      NoSaveOverwrites(saves, id);
    }
  }

  /** Stored runs of a scope are an acceptable history exactly when they can be combined. */
  lemma {:induction false} AcceptedExactlyCombinable(saves: seq<BenchmarkRun>, suite: Suite, target: Key,
                                                      runs: seq<BenchmarkRun>)
    requires Elements(runs) == Matching(SavedAll(saves), ScopeOf(suite, target))
    ensures Accepts(suite, runs, target) <==> Combinable(Elements(runs), suite, target)
  {
    StoredRuns(saves, ScopeOf(suite, target));
    assert forall i :: 0 <= i < |runs| ==> runs[i] in Elements(runs);
  }

  class BenchmarkQualityResolver {
    const suite: Suite
    const store: SQLiteBenchmarkStore

    constructor (suite: Suite, store: SQLiteBenchmarkStore)
      ensures this.suite == suite && this.store == store
    {
      this.suite, this.store := suite, store;
    }

    ghost function Found(target: Key): set<BenchmarkRun>
      reads store
    {
      Matching(store.History(), ScopeOf(suite, target))
    }

    /**
     * Nothing when no run of the suite is stored for the target, the snapshot of exactly the
     * stored runs when they can be combined, and a refusal otherwise.
     */
    method GetQualitySnapshot(target: Key, generatedAt: Utc) returns (r: Result<Option<Snapshot>, Rejection>)
      requires store.Valid() && ValidCases(suite.cases)
      ensures r.Ok? <==> Combinable(Found(target), suite, target)
      ensures r.Ok? ==> (r.value.None? <==> Found(target) == {})
      ensures r.Ok? && r.value.Some? ==>
                && IsSnapshotOf(r.value.value, suite, Found(target), target, generatedAt)
                && ConsistentSnapshot(r.value.value)
    {
      var runs := store.ListMatchingRuns(ScopeOf(suite, target));
      AcceptedExactlyCombinable(store.saves, suite, target, runs.value);
      EmptyExactly(runs.value);
      if runs.value == [] {
        return Ok(None);
      }
      var s := Aggregate(suite, runs.value, target, generatedAt);
      if s.Err? {
        return Err(s.error);
      }
      assert Elements(runs.value) == Found(target) && Aggregates(s.value, suite, runs.value, target, generatedAt);
      return Ok(Some(s.value));
    }
  }

  /** `s` aggregates the given runs, in whatever order. */
  ghost predicate IsSnapshotOf(s: Snapshot, suite: Suite, found: set<BenchmarkRun>, target: Key, generatedAt: Utc)
    requires ValidCases(suite.cases)
  {
    exists runs :: Elements(runs) == found && Aggregates(s, suite, runs, target, generatedAt)
  }

  lemma SnapshotNamesItsSuite(s: Snapshot, suite: Suite, found: set<BenchmarkRun>, target: Key, generatedAt: Utc)
    requires ValidCases(suite.cases) && IsSnapshotOf(s, suite, found, target, generatedAt)
    ensures s.target == target
    ensures s.suiteId == suite.suiteId && s.suiteVersion == suite.version && s.fingerprint == suite.fingerprint
  {
  }
}
