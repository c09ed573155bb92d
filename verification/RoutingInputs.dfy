/** What routing reads from the stores: the measurements and quality evidence of the candidates. */
module RoutingInputs {
  import opened Common
  import opened Order
  import opened Timestamps
  import opened Scoring
  import Benchmark
  import MetricsStore
  import Quality
  import History = QualityEvidence
  import QualityMetrics
  import QualityResolver

  function MetricsFrom(s: MetricsStore.Snapshot): Metrics {
    Metrics(s.sampleCount, s.successCount, s.successRate, s.p50Latency, s.pricedCount, s.p50Cost)
  }

  function QualityFrom(s: Quality.Snapshot): QualityEvidence {
    QualityEvidence(s.metrics.quality, s.metrics.confidence)
  }

  /** The last snapshot of `key` in a listing. */
  predicate LastListed(listed: seq<MetricsStore.Snapshot>, key: Key, i: nat) {
    i < |listed| && listed[i].key == key && forall j :: i < j < |listed| ==> listed[j].key != key
  }

  predicate ReadFrom(m: Metrics, listed: seq<MetricsStore.Snapshot>, key: Key) {
    exists i :: 0 <= i < |listed| && LastListed(listed, key, i) && m == MetricsFrom(listed[i])
  }

  /** The keys asked for and listed, each with its last listed snapshot. */
  predicate ReadsListing(metrics: map<Key, Metrics>, listed: seq<MetricsStore.Snapshot>, keys: seq<Key>) {
    && (forall k :: k in metrics ==> k in keys && ReadFrom(metrics[k], listed, k))
    && (forall i :: 0 <= i < |listed| && listed[i].key in keys ==> listed[i].key in metrics)
  }

  predicate AllMetricsValid(metrics: map<Key, Metrics>) {
    forall k :: k in metrics ==> ValidMetrics(metrics[k])
  }

  lemma ReadStays(m: Metrics, listed: seq<MetricsStore.Snapshot>, s: MetricsStore.Snapshot, key: Key)
    ensures key != s.key && ReadFrom(m, listed, key) ==> ReadFrom(m, listed + [s], key)
    ensures key == s.key ==> ReadFrom(MetricsFrom(s), listed + [s], key)
  {
    var more := listed + [s];
    if key == s.key { assert LastListed(more, key, |listed|); }
    if key != s.key && ReadFrom(m, listed, key) {
      var i :| 0 <= i < |listed| && LastListed(listed, key, i) && m == MetricsFrom(listed[i]);
      assert LastListed(more, key, i) && more[i] == listed[i];
    }
  }

  /** Measurements of the given keys; an absent or failing store leaves none. */
  method ReadSnapshots(keys: seq<Key>, listed: Option<seq<MetricsStore.Snapshot>>) returns (metrics: map<Key, Metrics>)
    requires listed.Some? ==> forall s <- listed.value :: MetricsStore.ValidSnapshot(s)
    ensures ReadsListing(metrics, if listed.Some? then listed.value else [], keys) && AllMetricsValid(metrics)
  {
    metrics := map[];
    if listed.None? {
      return;
    }
    var all := listed.value;
    for n := 0 to |all|
      invariant ReadsListing(metrics, all[..n], keys) && AllMetricsValid(metrics)
    {
      ghost var before := metrics;
      assert all[n] in all;
      if all[n].key in keys {
        metrics := metrics[all[n].key := MetricsFrom(all[n])];
      }
      assert all[..n + 1] == all[..n] + [all[n]];
      forall k | k in metrics ensures ReadFrom(metrics[k], all[..n + 1], k) {
        ReadStays(metrics[k], all[..n], all[n], k);
      }
    }
    assert all[..|all|] == all;
  }

  /** What the quality source does when asked for one key. */
  datatype QualityReply = NothingKnown | SourceRaised | Known(snapshot: Quality.Snapshot)

  /** A reply is used when its snapshot is valid and is about the key and the suite asked for. */
  predicate Usable(reply: QualityReply, key: Key, suite: Benchmark.Suite) {
    && reply.Known?
    && Quality.ConsistentSnapshot(reply.snapshot) && reply.snapshot.target == key
    && reply.snapshot.suiteId == suite.suiteId && reply.snapshot.suiteVersion == suite.version
    && reply.snapshot.fingerprint == suite.fingerprint
  }

  /** Nothing is used but a valid snapshot of this very key and suite. */
  lemma OthersAreNotUsed(reply: QualityReply, key: Key, suite: Benchmark.Suite)
    ensures reply.SourceRaised? || reply.NothingKnown? ==> !Usable(reply, key, suite)
    ensures reply.Known? ==>
              var s := reply.snapshot;
              !Usable(reply, key, suite) <==>
                || !Quality.ConsistentSnapshot(s) || s.target.provider != key.provider || s.target.model != key.model
                || s.suiteId != suite.suiteId || s.suiteVersion != suite.version || s.fingerprint != suite.fingerprint
  {
  }

  /** The evidence of one key is that of its reply, if the reply can be used. */
  predicate ReadsReply(quality: map<Key, QualityEvidence>, key: Key, reply: QualityReply, suite: Benchmark.Suite) {
    && (key in quality <==> Usable(reply, key, suite))
    && (key in quality ==> quality[key] == QualityFrom(reply.snapshot))
  }

  predicate AllQualityValid(quality: map<Key, QualityEvidence>) {
    forall k :: k in quality ==> ValidQuality(quality[k])
  }

  lemma UsableQuality(reply: QualityReply, key: Key, suite: Benchmark.Suite)
    requires Usable(reply, key, suite)
    ensures ValidQuality(QualityFrom(reply.snapshot))
  {
  }

  /** Quality evidence of the given keys; whatever cannot be used is left out. */
  method ReadQualitySnapshots(keys: seq<Key>, replies: seq<QualityReply>, suite: Benchmark.Suite)
    returns (quality: map<Key, QualityEvidence>)
    requires |replies| == |keys| && forall i, j :: 0 <= i < j < |keys| ==> keys[i] != keys[j]
    ensures quality.Keys <= Elements(keys) && AllQualityValid(quality)
    ensures forall i :: 0 <= i < |keys| ==> ReadsReply(quality, keys[i], replies[i], suite)
  {
    quality := map[];
    for n := 0 to |keys|
      invariant forall k :: k in quality ==> k in keys[..n]
      invariant AllQualityValid(quality)
      invariant forall i :: 0 <= i < n ==> ReadsReply(quality, keys[i], replies[i], suite)
    {
      assert keys[n] !in keys[..n];
      if Usable(replies[n], keys[n], suite) {
        UsableQuality(replies[n], keys[n], suite);
        quality := quality[keys[n] := QualityFrom(replies[n].snapshot)];
      }
    }
  }

  /** What the resolver's answer is to the router, which treats every refusal alike. */
  function ReplyOf(r: Result<Option<Quality.Snapshot>, Quality.Rejection>): QualityReply {
    if r.Err? then SourceRaised else if r.value.None? then NothingKnown else Known(r.value.value)
  }

  /** The measurements of a key are in force exactly when it has a recent attempt. */
  ghost predicate FromMetricsStore(metrics: map<Key, Metrics>, keys: seq<Key>, store: MetricsStore.SQLiteMetricsStore,
                                   since: Utc)
    reads store
  {
    && (forall k :: k in metrics <==> k in keys && MetricsStore.HasAttempts(store.table, k, since))
    && (forall k <- keys :: k in metrics ==> Measures(metrics[k], store, k, since))
  }

  /** `m` is taken from the store's snapshot of the key. */
  ghost predicate Measures(m: Metrics, store: MetricsStore.SQLiteMetricsStore, key: Key, since: Utc)
    reads store
  {
    var s := MetricsStore.SnapshotOf(store.codec, store.table, key, since);
    s.Some? && m == MetricsFrom(s.value)
  }

  /** Runs of the key are stored and can be combined. */
  ghost predicate HasHistory(key: Key, resolver: QualityResolver.BenchmarkQualityResolver)
    reads resolver.store
  {
    resolver.Found(key) != {} && QualityResolver.Combinable(resolver.Found(key), resolver.suite, key)
  }

  /** The reply can be used exactly when the key has a history, and is then the snapshot of that history. */
  ghost predicate Answers(reply: QualityReply, key: Key, resolver: QualityResolver.BenchmarkQualityResolver,
                          generatedAt: Utc)
    requires Benchmark.ValidCases(resolver.suite.cases)
    reads resolver.store
  {
    && (Usable(reply, key, resolver.suite) <==> HasHistory(key, resolver))
    && (Usable(reply, key, resolver.suite) ==>
          QualityResolver.IsSnapshotOf(reply.snapshot, resolver.suite, resolver.Found(key), key, generatedAt))
  }

  /** `q` is taken from the snapshot of the key's stored runs. */
  ghost predicate Evidences(q: QualityEvidence, key: Key, resolver: QualityResolver.BenchmarkQualityResolver,
                            generatedAt: Utc)
    requires Benchmark.ValidCases(resolver.suite.cases)
    reads resolver.store
  {
    exists s :: QualityResolver.IsSnapshotOf(s, resolver.suite, resolver.Found(key), key, generatedAt)
                && q == QualityFrom(s)
  }

  /** Exactly the keys with a history have quality evidence, each that of its stored runs. */
  ghost predicate FromHistory(quality: map<Key, QualityEvidence>, keys: seq<Key>,
                              resolver: QualityResolver.BenchmarkQualityResolver, generatedAt: Utc)
    requires Benchmark.ValidCases(resolver.suite.cases)
    reads resolver.store
  {
    && (forall k :: k in quality <==> k in keys && HasHistory(k, resolver))
    && (forall k <- keys :: k in quality ==> Evidences(quality[k], k, resolver, generatedAt))
  }

  /** The resolver's answer for a key. */
  method AskResolver(key: Key, resolver: QualityResolver.BenchmarkQualityResolver, generatedAt: Utc)
    returns (reply: QualityReply)
    requires resolver.store.Valid() && Benchmark.ValidCases(resolver.suite.cases)
    ensures Answers(reply, key, resolver, generatedAt)
  {
    var r := resolver.GetQualitySnapshot(key, generatedAt);
    if r.Ok? && r.value.Some? {
      QualityResolver.SnapshotNamesItsSuite(r.value.value, resolver.suite, resolver.Found(key), key, generatedAt);
    }
    return ReplyOf(r);
  }

  lemma RepliesAreHistory(quality: map<Key, QualityEvidence>, keys: seq<Key>, replies: seq<QualityReply>,
                          resolver: QualityResolver.BenchmarkQualityResolver, generatedAt: Utc)
    requires Benchmark.ValidCases(resolver.suite.cases) && |replies| == |keys|
    requires quality.Keys <= Elements(keys)
    requires forall i :: 0 <= i < |keys| ==> ReadsReply(quality, keys[i], replies[i], resolver.suite)
    requires forall i :: 0 <= i < |keys| ==> Answers(replies[i], keys[i], resolver, generatedAt)
    ensures FromHistory(quality, keys, resolver, generatedAt)
  {
    forall k | k in keys
      ensures k in quality <==> HasHistory(k, resolver)
      ensures k in quality ==> Evidences(quality[k], k, resolver, generatedAt)
    {
      var i :| 0 <= i < |keys| && keys[i] == k;
      assert ReadsReply(quality, k, replies[i], resolver.suite) && Answers(replies[i], k, resolver, generatedAt);
    }
  }

  lemma ListedMetrics(metrics: map<Key, Metrics>, listed: seq<MetricsStore.Snapshot>, keys: seq<Key>,
                      store: MetricsStore.SQLiteMetricsStore, since: Utc)
    requires ReadsListing(metrics, listed, keys) && MetricsStore.ListsWindow(store.codec, store.table, since, listed)
    ensures FromMetricsStore(metrics, keys, store, since)
  {
    forall k | k in keys
      ensures k in metrics <==> MetricsStore.HasSnapshot(listed, k)
      ensures k in metrics ==> Measures(metrics[k], store, k, since)
    {
      if k in metrics {
        var i :| 0 <= i < |listed| && LastListed(listed, k, i) && metrics[k] == MetricsFrom(listed[i]);
        assert listed[i] in listed;
      }
    }
  }

  /**
   * Inputs read from the two stores are always valid: scoring never sees a measurement or a
   * quality score outside the ranges its results rest on.
   */
  method ReadInputs(preferences: Preferences, keys: seq<Key>, store: MetricsStore.SQLiteMetricsStore, since: Utc,
                    resolver: QualityResolver.BenchmarkQualityResolver, generatedAt: Utc)
    returns (inputs: Inputs)
    requires ValidPreferences(preferences) && store.Valid() && ValidUtc(since)
    requires resolver.store.Valid() && Benchmark.ValidCases(resolver.suite.cases)
    requires forall i, j :: 0 <= i < j < |keys| ==> keys[i] != keys[j]
    ensures ValidInputs(inputs) && inputs.preferences == preferences
    ensures FromMetricsStore(inputs.metrics, keys, store, since)
    ensures FromHistory(inputs.quality, keys, resolver, generatedAt)
  {
    var listed := store.ListProviderMetrics(since);
    var metrics := ReadSnapshots(keys, Some(listed));
    ListedMetrics(metrics, listed, keys, store, since);
    var replies: seq<QualityReply> := [];
    for n := 0 to |keys|
      invariant |replies| == n
      invariant forall i :: 0 <= i < n ==> Answers(replies[i], keys[i], resolver, generatedAt)
    {
      var reply := AskResolver(keys[n], resolver, generatedAt);
      replies := replies + [reply];
    }
    var quality := ReadQualitySnapshots(keys, replies, resolver.suite);
    RepliesAreHistory(quality, keys, replies, resolver, generatedAt);
    return Inputs(preferences, metrics, quality);
  }

  // ----- what the inputs say about the stored records ----------------------------------------

  /**
   * Measurements read from the store are those of the newest attempts in the window: how many,
   * how many succeeded, their median latency, how many had a price and the median of these.
   */
  lemma {:induction false} MeasuresAttempts(m: Metrics, store: MetricsStore.SQLiteMetricsStore, key: Key, since: Utc)
    returns (p: seq<nat>)
    requires Measures(m, store, key, since)
    ensures
      var attempts := MetricsStore.RecordsOf(MetricsStore.Recent(store.codec, store.table, key, 100, since));
      var costs := MetricsStore.Costs(attempts);
      && m.sampleCount == |attempts| && m.successCount == |MetricsStore.SuccessPlaces(attempts)|
      && m.successRate.Some?
      && m.p50Latency.Some?
      && MetricsStore.IsPercentile(MetricsStore.Latencies(attempts), 50, m.p50Latency.value)
      && MetricsStore.ListsPrices(costs, p, attempts) && m.pricedCount == |p|
      && (p == [] ==> m.p50Cost.None?)
      && (p != [] ==> m.p50Cost.Some? && MetricsStore.IsPercentile(costs, 50, m.p50Cost.value))
  {
    var attempts := MetricsStore.RecordsOf(MetricsStore.Recent(store.codec, store.table, key, 100, since));
    p := MetricsStore.SnapshotReadsAttempts(key, attempts);
  }

  /**
   * Quality evidence read from history is the quality of the suite over the latest attempts,
   * weighted by the cases' own weights, with the confidence these attempts earn.
   */
  lemma {:induction false} EvidencesRuns(q: QualityEvidence, key: Key,
                                         resolver: QualityResolver.BenchmarkQualityResolver, generatedAt: Utc)
    returns (runs: seq<Benchmark.BenchmarkRun>, m: QualityMetrics.Metrics)
    requires Benchmark.ValidCases(resolver.suite.cases) && Evidences(q, key, resolver, generatedAt)
    ensures Elements(runs) == resolver.Found(key)
    ensures q.score == m.quality && q.confidence == m.confidence
    ensures QualityMetrics.Weighs(m, resolver.suite.cases, History.EvidenceOf(Quality.OrderedRuns(runs)), None)
    ensures QualityMetrics.EarnsConfidence(m)
  {
    var suite := resolver.suite;
    var s :| QualityResolver.IsSnapshotOf(s, suite, resolver.Found(key), key, generatedAt) && q == QualityFrom(s);
    runs :| Elements(runs) == resolver.Found(key) && Quality.Aggregates(s, suite, runs, key, generatedAt);
    m := s.metrics;
    Quality.SnapshotWeighsCases(s, suite, runs, key, generatedAt);
  }
}
