/** Recorded attempts, the window of recent ones, and the metrics snapshot built from them. */
module MetricsStore {
  import opened Common
  import opened Timestamps
  import opened Order

  datatype AttemptRecord = AttemptRecord(
    requestId: string,
    attemptIndex: nat,
    key: Key,
    startedAt: Utc,
    finishedAt: Utc,
    latencyMs: real,
    success: bool,
    cost: Option<real>)

  predicate ValidAttempt(a: AttemptRecord) {
    && ValidUtc(a.startedAt) && ValidUtc(a.finishedAt) && !Earlier(a.finishedAt, a.startedAt)
    && 0.0 <= a.latencyMs && (a.cost.Some? ==> 0.0 <= a.cost.value)
  }

  // ----- percentiles -------------------------------------------------------------------------

  predicate Less(a: real, b: real) {
    a < b
  }

  function AtMost(values: seq<real>, v: real): nat {
    if values == [] then 0 else (if values[0] <= v then 1 else 0) + AtMost(values[1..], v)
  }

  function Under(values: seq<real>, v: real): nat {
    if values == [] then 0 else (if values[0] < v then 1 else 0) + Under(values[1..], v)
  }

  predicate Ascending(s: seq<real>) {
    forall i, j :: 0 <= i < j < |s| ==> s[i] <= s[j]
  }

  lemma {:induction false} InsertAscends(x: real, s: seq<real>)
    requires Ascending(s)
    ensures Ascending(Insert(x, s, Less)) && Insert(x, s, Less) != []
    ensures Insert(x, s, Less)[0] == x || (s != [] && Insert(x, s, Less)[0] == s[0])
  {
    if s != [] && !Less(x, s[0]) {
      InsertAscends(x, s[1..]);
      var t := Insert(x, s[1..], Less);
      assert forall j :: 0 < j < |t| ==> t[0] <= t[j];
    }
  }

  lemma {:induction false} InsertCounts(x: real, s: seq<real>, v: real)
    ensures AtMost(Insert(x, s, Less), v) == AtMost([x] + s, v) && Under(Insert(x, s, Less), v) == Under([x] + s, v)
  {
    assert ([x] + s)[1..] == s;
    if s != [] && !Less(x, s[0]) {
      InsertCounts(x, s[1..], v);
      assert ([x] + s[1..])[1..] == s[1..];
    }
  }

  lemma {:induction false} SortCounts(values: seq<real>, v: real)
    ensures Ascending(SortBy(values, Less)) && |SortBy(values, Less)| == |values|
    ensures AtMost(SortBy(values, Less), v) == AtMost(values, v) && Under(SortBy(values, Less), v) == Under(values, v)
  {
    SortElements(values, Less);
    if values != [] {
      var rest := SortBy(values[1..], Less);
      SortCounts(values[1..], v);
      InsertAscends(values[0], rest);
      InsertCounts(values[0], rest, v);
      assert ([values[0]] + rest)[1..] == rest;
    }
  }

  lemma {:induction false} RankCounts(s: seq<real>, k: nat)
    requires Ascending(s) && k < |s|
    ensures AtMost(s, s[k]) >= k + 1 && Under(s, s[k]) <= k
  {
    if k > 0 {
      RankCounts(s[1..], k - 1);
    } else {
      NoneUnder(s, s[0]);
    }
  }

  lemma {:induction false} NoneUnder(s: seq<real>, v: real)
    requires forall i :: 0 <= i < |s| ==> v <= s[i]
    ensures Under(s, v) == 0
  {
    if s != [] { NoneUnder(s[1..], v); }
  }

  /** ceil(percent / 100 * n) - 1 */
  function Rank(n: nat, percent: nat): (k: nat)
    requires n > 0 && 0 < percent <= 100
    ensures k < n && 100 * (k + 1) >= percent * n > 100 * k
  {
    ProductOrder(1, percent, n);
    ProductOrder(percent, 100, n);
    CeilingBounds(percent * n);
    (percent * n + 99) / 100 - 1
  }

  lemma CeilingBounds(m: nat)
    ensures 100 * ((m + 99) / 100) >= m && (m > 0 ==> m > 100 * ((m + 99) / 100 - 1))
  {
  }

  /** The value at that position of the sorted values. */
  function NearestRank(values: seq<real>, percent: nat): (r: Option<real>)
    requires 0 < percent <= 100
  {
    if values == [] then None
    else
      SortElements(values, Less);
      Some(SortBy(values, Less)[Rank(|values|, percent)])
  }

  /** `v` is the least value with at least `percent` percent of the values at or below it. */
  predicate IsPercentile(values: seq<real>, percent: nat, v: real) {
    v in values && 100 * AtMost(values, v) >= percent * |values| > 100 * Under(values, v)
  }

  /** The nearest rank is a percentile whatever the order of the values. */
  lemma NearestRankIsPercentile(values: seq<real>, percent: nat)
    requires 0 < percent <= 100 && values != []
    ensures var r := NearestRank(values, percent); r.Some? && IsPercentile(values, percent, r.value)
  {
    var s, k := SortBy(values, Less), Rank(|values|, percent);
    SortElements(values, Less);
    SortCounts(values, s[k]);
    RankCounts(s, k);
    assert s[k] in Elements(s);
  }

  lemma {:induction false} CountsGrow(values: seq<real>, a: real, b: real)
    ensures a < b ==> AtMost(values, a) <= Under(values, b)
  {
    if values != [] { CountsGrow(values[1..], a, b); }
  }

  /** There is only one percentile, and a higher percentage never gives a lower value. */
  lemma PercentilesAreOrdered(values: seq<real>, p: nat, q: nat, v: real, w: real)
    requires p <= q && IsPercentile(values, p, v) && IsPercentile(values, q, w)
    ensures v <= w && (p == q ==> v == w)
  {
    CountsGrow(values, w, v);
    CountsGrow(values, v, w);
    ProductOrder(p, q, |values|);
  }

  // ----- the recent window -------------------------------------------------------------------

  /** A table row: the autoincremented id and the text the table is filtered and sorted by. */
  datatype Row = Row(id: nat, finishedText: string, attempt: AttemptRecord)

  /** Rows are sorted newest first, later ids first among equal times. */
  predicate Newer(a: Row, b: Row) {
    TextLess(b.finishedText, a.finishedText) || (a.finishedText == b.finishedText && a.id > b.id)
  }

  lemma NewerIsStrict()
    ensures StrictOrder(Newer)
  {
    forall a ensures !Newer(a, a) {
      TextIrreflexive(a.finishedText);
    }
    forall a, b, c | Newer(a, b) && Newer(b, c) ensures Newer(a, c) {
      if TextLess(b.finishedText, a.finishedText) && TextLess(c.finishedText, b.finishedText) {
        TextTransitive(c.finishedText, b.finishedText, a.finishedText);
      }
    }
  }

  ghost predicate ValidTable(c: TimeCodec, table: seq<Row>) {
    forall i :: 0 <= i < |table| ==>
      && table[i].id == i && ValidAttempt(table[i].attempt)
      && table[i].finishedText == c.write(table[i].attempt.finishedAt)
  }

  predicate Selects(key: Key, sinceText: string, row: Row) {
    row.attempt.key == key && !TextLess(row.finishedText, sinceText)
  }

  function Selected(table: seq<Row>, key: Key, sinceText: string): seq<Row> {
    if table == [] then []
    else
      var front, last := Selected(table[..|table| - 1], key, sinceText), table[|table| - 1];
      if Selects(key, sinceText, last) then front + [last] else front
  }

  predicate IdsAscend(rows: seq<Row>) {
    forall i, j :: 0 <= i < j < |rows| ==> rows[i].id < rows[j].id
  }

  lemma {:induction false} SelectedRows(table: seq<Row>, key: Key, sinceText: string)
    requires forall i :: 0 <= i < |table| ==> table[i].id == i
    ensures forall row :: row in Selected(table, key, sinceText) <==> row in table && Selects(key, sinceText, row)
    ensures IdsAscend(Selected(table, key, sinceText))
  {
    if table != [] {
      var n := |table| - 1;
      SelectedRows(table[..n], key, sinceText);
      assert table == table[..n] + [table[n]];
      var front := Selected(table[..n], key, sinceText);
      forall i | 0 <= i < |front| ensures front[i].id < n {
        assert front[i] in front;
      }
    }
  }

  /** At most `limit` rows of the key finished since the given time, newest first. */
  function Recent(c: TimeCodec, table: seq<Row>, key: Key, limit: nat, since: Utc): seq<Row> {
    var s := SortBy(Selected(table, key, c.write(since)), Newer);
    if |s| <= limit then s else s[..limit]
  }

  /** In terms of instants: the row is of the key and finished no earlier than `since`. */
  predicate InWindow(row: Row, key: Key, since: Utc) {
    row.attempt.key == key && !Earlier(row.attempt.finishedAt, since)
  }

  /** In terms of instants: `a` finished after `b`, or at the same time and was recorded after it. */
  predicate After(a: Row, b: Row) {
    Earlier(b.attempt.finishedAt, a.attempt.finishedAt) || (a.attempt.finishedAt == b.attempt.finishedAt && a.id > b.id)
  }

  lemma RowsInTime(c: TimeCodec, table: seq<Row>, a: Row, b: Row, key: Key, since: Utc)
    requires Faithful(c) && ValidTable(c, table) && ValidUtc(since) && a in table && b in table
    ensures Newer(a, b) <==> After(a, b)
    ensures Selects(key, c.write(since), a) <==> InWindow(a, key, since)
  {
  }

  /**
   * The text query returns the newest attempts in the window: rows of the window only, newest
   * first, as many as the limit allows, and no row left out is newer than a row returned.
   */
  lemma RecentIsNewest(c: TimeCodec, table: seq<Row>, key: Key, limit: nat, since: Utc)
    requires Faithful(c) && ValidTable(c, table) && ValidUtc(since)
    ensures
      var r := Recent(c, table, key, limit, since);
      && |r| <= limit
      && (forall row <- r :: row in table && InWindow(row, key, since))
      && (forall i, j :: 0 <= i < j < |r| ==> After(r[i], r[j]))
      && (forall row <- table :: InWindow(row, key, since) && row !in r ==>
            |r| == limit && forall kept <- r :: After(kept, row))
  {
    var found, r := Selected(table, key, c.write(since)), Recent(c, table, key, limit, since);
    var s := SortBy(found, Newer);
    SelectedRows(table, key, c.write(since));
    SelectedSorts(found);
    forall row ensures row in s <==> row in found {
      assert row in Elements(s) <==> row in Elements(found);
    }
    forall row | row in r ensures row in table && InWindow(row, key, since) {
      assert row in s;
      RowsInTime(c, table, row, row, key, since);
    }
    forall i, j | 0 <= i < j < |r| ensures After(r[i], r[j]) {
      assert r[i] in r && r[j] in r && Newer(s[i], s[j]);
      RowsInTime(c, table, r[i], r[j], key, since);
    }
    forall row | row in table && InWindow(row, key, since) && row !in r
      ensures |r| == limit && forall kept <- r :: After(kept, row)
    {
      RowsInTime(c, table, row, row, key, since);
      LeftOutIsOlder(s, limit, row);
      forall kept | kept in r ensures After(kept, row) {
        RowsInTime(c, table, kept, row, key, since);
      }
    }
  }

  lemma LeftOutIsOlder(s: seq<Row>, limit: nat, row: Row)
    requires Sorted(s, Newer) && row in s
    requires row !in if |s| <= limit then s else s[..limit]
    ensures limit < |s| && forall kept <- s[..limit] :: Newer(kept, row)
  {
  }

  lemma {:induction false} SelectedSorts(found: seq<Row>)
    requires IdsAscend(found)
    ensures Sorted(SortBy(found, Newer), Newer) && Elements(SortBy(found, Newer)) == Elements(found)
  {
    NewerIsStrict();
    forall i, j | 0 <= i < j < |found| ensures Newer(found[i], found[j]) || Newer(found[j], found[i]) {
      TextTotal(found[i].finishedText, found[j].finishedText);
    }
    SortSorts(found, Newer);
    SortElements(found, Newer);
  }

  // ----- snapshots ---------------------------------------------------------------------------

  datatype Snapshot = Snapshot(
    key: Key,
    sampleCount: nat,
    successCount: nat,
    failureCount: nat,
    successRate: Option<real>,
    averageLatency: Option<real>,
    p50Latency: Option<real>,
    p95Latency: Option<real>,
    pricedCount: nat,
    averageCost: Option<real>,
    p50Cost: Option<real>,
    windowStart: Utc,
    windowEnd: Utc)

  predicate NonNegative(x: Option<real>) {
    x.Some? ==> 0.0 <= x.value
  }

  /** The snapshot validator, field ranges included. */
  predicate ValidSnapshot(s: Snapshot) {
    && NonNegative(s.averageLatency) && NonNegative(s.p50Latency) && NonNegative(s.p95Latency)
    && NonNegative(s.averageCost) && NonNegative(s.p50Cost)
    && (s.successRate.Some? ==> 0.0 <= s.successRate.value <= 1.0)
    && !Earlier(s.windowEnd, s.windowStart)
    && s.successCount + s.failureCount == s.sampleCount
    && if s.sampleCount == 0 then
         && s.pricedCount == 0 && s.successRate.None? && s.averageLatency.None? && s.p50Latency.None?
         && s.p95Latency.None? && s.averageCost.None? && s.p50Cost.None?
       else
         && s.pricedCount <= s.successCount
         && (s.pricedCount == 0 <==> s.averageCost.None?) && (s.pricedCount == 0 <==> s.p50Cost.None?)
         && (s.successRate.Some? ==> s.successRate.value == s.successCount as real / s.sampleCount as real)
  }

  predicate Priced(a: AttemptRecord) {
    a.success && a.cost.Some?
  }

  function Successes(attempts: seq<AttemptRecord>): (n: nat)
    ensures n <= |attempts|
  {
    if attempts == [] then 0
    else Successes(attempts[..|attempts| - 1]) + if attempts[|attempts| - 1].success then 1 else 0
  }

  function Latencies(attempts: seq<AttemptRecord>): (s: seq<real>)
    ensures |s| == |attempts| && forall i :: 0 <= i < |s| ==> s[i] == attempts[i].latencyMs
  {
    seq(|attempts|, i requires 0 <= i < |attempts| => attempts[i].latencyMs)
  }

  /** The costs of successful, priced attempts; a failed attempt never counts as priced. */
  function Costs(attempts: seq<AttemptRecord>): (s: seq<real>)
    ensures |s| <= Successes(attempts)
  {
    if attempts == [] then []
    else
      var front, last := Costs(attempts[..|attempts| - 1]), attempts[|attempts| - 1];
      if Priced(last) then front + [last.cost.value] else front
  }

  function Sum(values: seq<real>): real {
    if values == [] then 0.0 else Sum(values[..|values| - 1]) + values[|values| - 1]
  }

  function Earliest(attempts: seq<AttemptRecord>): Utc
    requires attempts != []
  {
    if |attempts| == 1 then attempts[0].finishedAt
    else
      var rest := Earliest(attempts[1..]);
      if Earlier(rest, attempts[0].finishedAt) then rest else attempts[0].finishedAt
  }

  function Latest(attempts: seq<AttemptRecord>): Utc
    requires attempts != []
  {
    if |attempts| == 1 then attempts[0].finishedAt
    else
      var rest := Latest(attempts[1..]);
      if Earlier(attempts[0].finishedAt, rest) then rest else attempts[0].finishedAt
  }

  function Build(key: Key, attempts: seq<AttemptRecord>): Option<Snapshot> {
    if attempts == [] then None
    else
      var n, successes, latencies, costs := |attempts|, Successes(attempts), Latencies(attempts), Costs(attempts);
      Some(Snapshot(
             key, n, successes, n - successes, Some(successes as real / n as real),
             Some(Sum(latencies) / n as real), NearestRank(latencies, 50), NearestRank(latencies, 95),
             |costs|, if costs == [] then None else Some(Sum(costs) / |costs| as real), NearestRank(costs, 50),
             Earliest(attempts), Latest(attempts)))
  }

  predicate AllNonNegative(values: seq<real>) {
    forall i :: 0 <= i < |values| ==> 0.0 <= values[i]
  }

  lemma {:induction false} SumNonNegative(values: seq<real>)
    requires AllNonNegative(values)
    ensures 0.0 <= Sum(values)
  {
    if values != [] { SumNonNegative(values[..|values| - 1]); }
  }

  lemma {:induction false} SamplesNonNegative(attempts: seq<AttemptRecord>)
    requires forall i :: 0 <= i < |attempts| ==> ValidAttempt(attempts[i])
    ensures AllNonNegative(Latencies(attempts)) && AllNonNegative(Costs(attempts))
  {
    if attempts != [] {
      assert ValidAttempt(attempts[|attempts| - 1]);
      SamplesNonNegative(attempts[..|attempts| - 1]);
    }
  }

  /** The instant is the finishing time of one of the attempts. */
  predicate FinishesOne(t: Utc, attempts: seq<AttemptRecord>) {
    exists i :: 0 <= i < |attempts| && attempts[i].finishedAt == t
  }

  lemma FinishesOneMore(t: Utc, attempts: seq<AttemptRecord>)
    requires attempts != [] && FinishesOne(t, attempts[1..])
    ensures FinishesOne(t, attempts)
  {
    var i :| 0 <= i < |attempts[1..]| && attempts[1..][i].finishedAt == t;
    assert attempts[i + 1].finishedAt == t;
  }

  /** The window bounds are the least and greatest finishing times. */
  lemma {:induction false} WindowBounds(attempts: seq<AttemptRecord>)
    requires attempts != []
    ensures forall i :: 0 <= i < |attempts| ==>
              !Earlier(attempts[i].finishedAt, Earliest(attempts)) && !Earlier(Latest(attempts), attempts[i].finishedAt)
    ensures !Earlier(Latest(attempts), Earliest(attempts))
  {
    if |attempts| > 1 {
      WindowBounds(attempts[1..]);
      forall i | 0 <= i < |attempts|
        ensures !Earlier(attempts[i].finishedAt, Earliest(attempts))
        ensures !Earlier(Latest(attempts), attempts[i].finishedAt)
      {
        if i > 0 { assert attempts[i] == attempts[1..][i - 1]; }
      }
    }
  }

  lemma {:induction false} WindowIsAttained(attempts: seq<AttemptRecord>)
    requires attempts != []
    ensures FinishesOne(Earliest(attempts), attempts) && FinishesOne(Latest(attempts), attempts)
  {
    assert FinishesOne(attempts[0].finishedAt, attempts);
    if |attempts| > 1 {
      WindowIsAttained(attempts[1..]);
      FinishesOneMore(Earliest(attempts[1..]), attempts);
      FinishesOneMore(Latest(attempts[1..]), attempts);
    }
  }

  lemma QuotientNonNegative(a: real, n: nat)
    requires 0.0 <= a && n > 0
    ensures 0.0 <= a / n as real && (a <= n as real ==> a / n as real <= 1.0)
  {
  }

  /** Every snapshot built from valid attempts passes the validator, and its median is at most its 95th percentile. */
  lemma SnapshotsAreValid(key: Key, attempts: seq<AttemptRecord>)
    requires forall i :: 0 <= i < |attempts| ==> ValidAttempt(attempts[i])
    ensures
      var s := Build(key, attempts);
      && (s.None? <==> attempts == [])
      && (s.Some? ==>
            && ValidSnapshot(s.value) && s.value.key == key && s.value.sampleCount == |attempts|
            && s.value.p50Latency.Some? && s.value.p95Latency.Some?
            && s.value.p50Latency.value <= s.value.p95Latency.value)
  {
    if attempts != [] {
      var latencies, costs := Latencies(attempts), Costs(attempts);
      SamplesNonNegative(attempts);
      SumNonNegative(latencies);
      SumNonNegative(costs);
      WindowBounds(attempts);
      QuotientNonNegative(Successes(attempts) as real, |attempts|);
      QuotientNonNegative(Sum(latencies), |latencies|);
      NearestRankIsPercentile(latencies, 50);
      NearestRankIsPercentile(latencies, 95);
      PercentilesAreOrdered(latencies, 50, 95, NearestRank(latencies, 50).value, NearestRank(latencies, 95).value);
      if costs != [] {
        QuotientNonNegative(Sum(costs), |costs|);
        NearestRankIsPercentile(costs, 50);
      }
    }
  }

  /** A validated snapshot: counts that add up, a rate that is their share, prices of successes only, a real span. */
  lemma SnapshotsSay(s: Snapshot)
    requires ValidSnapshot(s)
    ensures s.successCount + s.failureCount == s.sampleCount && s.pricedCount <= s.successCount
    ensures s.successRate.Some? ==> Times(s.sampleCount as real, s.successRate.value) == s.successCount as real
    ensures s.averageCost.Some? <==> s.pricedCount > 0
    ensures s.p50Cost.Some? <==> s.pricedCount > 0
    ensures s.sampleCount == 0 ==> s.p50Latency.None? && s.p95Latency.None? && s.averageLatency.None?
    ensures s.windowStart == s.windowEnd || Earlier(s.windowStart, s.windowEnd)
  {
    if s.sampleCount > 0 { TimesQuotient(s.successCount as real, s.sampleCount as real); }
  }

  // ----- what a snapshot says of its attempts ------------------------------------------------

  /** The sum of the values, defined by what it does to one value and to two sequences. */
  lemma {:induction false} SumIsAdditive(a: seq<real>, b: seq<real>, x: real)
    ensures Sum([x]) == x && Sum(a + b) == Sum(a) + Sum(b)
  {
    assert [x][..0] == [];
    if b == [] {
      assert a + b == a;
    } else {
      var n := |b| - 1;
      SumIsAdditive(a, b[..n], x);
      assert (a + b)[..|a + b| - 1] == a + b[..n];
    }
  }

  function SuccessPlaces(attempts: seq<AttemptRecord>): set<int> {
    set i | 0 <= i < |attempts| && attempts[i].success
  }

  lemma {:induction false} SuccessesAreCounted(attempts: seq<AttemptRecord>)
    ensures Successes(attempts) == |SuccessPlaces(attempts)|
  {
    if attempts != [] {
      var n := |attempts| - 1;
      SuccessesAreCounted(attempts[..n]);
      assert SuccessPlaces(attempts) == SuccessPlaces(attempts[..n]) + if attempts[n].success then {n} else {};
    }
  }

  /** `p` lists the successful attempts with a price, in order, and `costs` their prices. */
  ghost predicate ListsPrices(costs: seq<real>, p: seq<nat>, attempts: seq<AttemptRecord>) {
    && |p| == |costs|
    && (forall a, b :: 0 <= a < b < |p| ==> p[a] < p[b])
    && (forall a :: 0 <= a < |p| ==>
          p[a] < |attempts| && attempts[p[a]].success && attempts[p[a]].cost == Some(costs[a]))
    && (forall i :: 0 <= i < |attempts| && attempts[i].success && attempts[i].cost.Some? ==> i in p)
  }

  lemma {:induction false} CostsAreListed(attempts: seq<AttemptRecord>) returns (p: seq<nat>)
    ensures ListsPrices(Costs(attempts), p, attempts)
  {
    p := [];
    if attempts != [] {
      var n := |attempts| - 1;
      p := CostsAreListed(attempts[..n]);
      PricesExtend(Costs(attempts[..n]), p, attempts);
      if Priced(attempts[n]) { p := p + [n]; }
    }
  }

  lemma PricesExtend(costs: seq<real>, p: seq<nat>, attempts: seq<AttemptRecord>)
    requires attempts != [] && ListsPrices(costs, p, attempts[..|attempts| - 1])
    ensures
      var n := |attempts| - 1;
      if Priced(attempts[n]) then ListsPrices(costs + [attempts[n].cost.value], p + [n], attempts)
      else ListsPrices(costs, p, attempts)
  {
    var n := |attempts| - 1;
    assert forall i :: 0 <= i < n ==> attempts[..n][i] == attempts[i];
    forall i | 0 <= i < n && attempts[i].success && attempts[i].cost.Some? ensures i in p {
      assert attempts[..n][i] == attempts[i];
    }
  }

  /** The instants are the least and the greatest finishing time of the attempts. */
  predicate Spans(from: Utc, to: Utc, attempts: seq<AttemptRecord>) {
    && FinishesOne(from, attempts) && FinishesOne(to, attempts)
    && forall i :: 0 <= i < |attempts| ==>
         !Earlier(attempts[i].finishedAt, from) && !Earlier(to, attempts[i].finishedAt)
  }

  /**
   * What a snapshot says: how many attempts there were and how many succeeded, the mean, median
   * and 95th percentile of their latencies, the mean and median price of the successful ones
   * with a price, and the time they span.
   */
  lemma {:induction false} SnapshotReadsAttempts(key: Key, attempts: seq<AttemptRecord>) returns (p: seq<nat>)
    requires attempts != []
    ensures
      var s, latencies, costs := Build(key, attempts).value, Latencies(attempts), Costs(attempts);
      && s.key == key && s.sampleCount == |attempts|
      && s.successCount == |SuccessPlaces(attempts)| && s.failureCount == s.sampleCount - s.successCount
      && s.successRate.Some? && Times(s.sampleCount as real, s.successRate.value) == s.successCount as real
      && s.averageLatency.Some? && Times(s.sampleCount as real, s.averageLatency.value) == Sum(latencies)
      && s.p50Latency.Some? && IsPercentile(latencies, 50, s.p50Latency.value)
      && s.p95Latency.Some? && IsPercentile(latencies, 95, s.p95Latency.value)
      && ListsPrices(costs, p, attempts) && s.pricedCount == |p|
      && (p == [] ==> s.averageCost.None? && s.p50Cost.None?)
      && (p != [] ==>
            && s.averageCost.Some? && Times(s.pricedCount as real, s.averageCost.value) == Sum(costs)
            && s.p50Cost.Some? && IsPercentile(costs, 50, s.p50Cost.value))
      && Spans(s.windowStart, s.windowEnd, attempts)
  {
    var latencies, costs := Latencies(attempts), Costs(attempts);
    SuccessesAreCounted(attempts);
    p := CostsAreListed(attempts);
    WindowBounds(attempts);
    WindowIsAttained(attempts);
    TimesQuotient(Successes(attempts) as real, |attempts| as real);
    TimesQuotient(Sum(latencies), |attempts| as real);
    NearestRankIsPercentile(latencies, 50);
    NearestRankIsPercentile(latencies, 95);
    if costs != [] {
      TimesQuotient(Sum(costs), |costs| as real);
      NearestRankIsPercentile(costs, 50);
    }
  }

  // ----- the keys with recent attempts -------------------------------------------------------

  predicate Recently(sinceText: string, row: Row) {
    !TextLess(row.finishedText, sinceText)
  }

  /** The keys of the rows since the given time, each once. */
  function KeysSince(table: seq<Row>, sinceText: string): (keys: seq<Key>)
    ensures forall k :: k in keys <==> exists row <- table :: row.attempt.key == k && Recently(sinceText, row)
    ensures forall i, j :: 0 <= i < j < |keys| ==> keys[i] != keys[j]
  {
    if table == [] then []
    else
      var front, last := KeysSince(table[..|table| - 1], sinceText), table[|table| - 1];
      assert table == table[..|table| - 1] + [last];
      if Recently(sinceText, last) && last.attempt.key !in front then front + [last.attempt.key] else front
  }

  /** Some attempt of the key finished in the window. */
  predicate HasAttempts(table: seq<Row>, key: Key, since: Utc) {
    exists row <- table :: InWindow(row, key, since)
  }

  /** `listed` holds one snapshot of every key with an attempt in the window, in key order. */
  ghost predicate ListsWindow(c: TimeCodec, table: seq<Row>, since: Utc, listed: seq<Snapshot>) {
    && (forall i, j :: 0 <= i < j < |listed| ==> KeyLess(listed[i].key, listed[j].key))
    && (forall s <- listed :: IsSnapshotOf(s, c, table, s.key, since))
    && (forall k :: HasSnapshot(listed, k) <==> HasAttempts(table, k, since))
  }

  lemma {:induction false} KeysInWindow(c: TimeCodec, table: seq<Row>, since: Utc)
    requires Faithful(c) && ValidTable(c, table) && ValidUtc(since)
    ensures
      var keys := SortBy(KeysSince(table, c.write(since)), KeyLess);
      && Sorted(keys, KeyLess)
      && forall k :: k in keys <==> HasAttempts(table, k, since)
  {
    var found := KeysSince(table, c.write(since));
    KeyOrder();
    SortSorts(found, KeyLess);
    SortElements(found, KeyLess);
    var keys := SortBy(found, KeyLess);
    forall k ensures k in keys <==> HasAttempts(table, k, since) {
      assert k in Elements(keys) <==> k in Elements(found);
      forall row | row in table
        ensures InWindow(row, k, since) <==> row.attempt.key == k && Recently(c.write(since), row)
      {
        RowsInTime(c, table, row, row, k, since);
      }
    }
  }

  predicate IsSnapshotOf(s: Snapshot, c: TimeCodec, table: seq<Row>, key: Key, since: Utc) {
    s.key == key && ValidSnapshot(s) && SnapshotOf(c, table, key, since) == Some(s)
  }

  lemma ListsKeys(c: TimeCodec, table: seq<Row>, since: Utc, keys: seq<Key>, listed: seq<Snapshot>)
    requires Sorted(keys, KeyLess) && |listed| == |keys|
    requires forall k :: k in keys <==> HasAttempts(table, k, since)
    requires forall i :: 0 <= i < |keys| ==> IsSnapshotOf(listed[i], c, table, keys[i], since)
    ensures ListsWindow(c, table, since, listed)
  {
    forall s | s in listed ensures IsSnapshotOf(s, c, table, s.key, since) && s.key in keys {
      var i :| 0 <= i < |listed| && listed[i] == s;
      assert keys[i] in keys;
    }
    forall k | k in keys ensures HasSnapshot(listed, k) {
      var i :| 0 <= i < |keys| && keys[i] == k;
      assert listed[i] in listed;
    }
  }

  predicate HasSnapshot(listed: seq<Snapshot>, key: Key) {
    exists s <- listed :: s.key == key
  }

  /** The snapshot of the newest attempts of one key in the window. */
  function SnapshotOf(c: TimeCodec, table: seq<Row>, key: Key, since: Utc): Option<Snapshot> {
    Build(key, RecordsOf(Recent(c, table, key, ATTEMPT_LIMIT, since)))
  }

  // ----- the store ---------------------------------------------------------------------------

  const ATTEMPT_LIMIT := 100

  function RecordsOf(rows: seq<Row>): (s: seq<AttemptRecord>)
    ensures |s| == |rows| && forall i :: 0 <= i < |s| ==> s[i] == rows[i].attempt
  {
    seq(|rows|, i requires 0 <= i < |rows| => rows[i].attempt)
  }

  predicate SameAttempt(a: AttemptRecord, b: AttemptRecord) {
    a.requestId == b.requestId && a.attemptIndex == b.attemptIndex
  }

  class SQLiteMetricsStore {
    const codec: TimeCodec
    var table: seq<Row>

    ghost predicate Valid()
      reads this
    {
      && Faithful(codec) && ValidTable(codec, table)
      && forall i, j :: 0 <= i < j < |table| ==> !SameAttempt(table[i].attempt, table[j].attempt)
    }

    constructor ()
      ensures Valid() && table == []
    {
      IsoTextIsFaithful();
      codec, table := ISO_TEXT, [];
    }

    /** An attempt is recorded once; a second one of the same request and index changes nothing. */
    method RecordAttempt(a: AttemptRecord) returns (recorded: bool)
      requires Valid() && ValidAttempt(a)
      modifies this
      ensures Valid()
      ensures recorded <==> forall row <- old(table) ::
                row.attempt.requestId != a.requestId || row.attempt.attemptIndex != a.attemptIndex
      ensures RecordsOf(table) == if recorded then RecordsOf(old(table)) + [a] else RecordsOf(old(table))
    {
      if exists row <- table :: SameAttempt(row.attempt, a) {
        return false;
      }
      table := table + [Row(|table|, codec.write(a.finishedAt), a)];
      return true;
    }

    /** The snapshot of the newest attempts in the window; it always passes the snapshot validator. */
    method GetProviderMetrics(key: Key, since: Utc) returns (s: Option<Snapshot>)
      requires Valid() && ValidUtc(since)
      ensures s == SnapshotOf(codec, table, key, since)
      ensures s == Build(key, RecordsOf(Recent(codec, table, key, 100, since)))
      ensures s.Some? ==> ValidSnapshot(s.value) && s.value.key == key && s.value.sampleCount <= ATTEMPT_LIMIT
      ensures s.Some? <==> HasAttempts(table, key, since)
    {
      var rows := Recent(codec, table, key, ATTEMPT_LIMIT, since);
      RecentIsNewest(codec, table, key, ATTEMPT_LIMIT, since);
      forall i | 0 <= i < |rows| ensures ValidAttempt(rows[i].attempt) {
        assert rows[i] in rows;
      }
      SnapshotsAreValid(key, RecordsOf(rows));
      if rows != [] { assert rows[0] in rows; }
      return Build(key, RecordsOf(rows));
    }

    /** The snapshots of all keys with recent attempts, in key order. */
    method ListProviderMetrics(since: Utc) returns (listed: seq<Snapshot>)
      requires Valid() && ValidUtc(since)
      ensures ListsWindow(codec, table, since, listed)
    {
      var keys := SortBy(KeysSince(table, codec.write(since)), KeyLess);
      KeysInWindow(codec, table, since);
      listed := [];
      for n := 0 to |keys|
        invariant |listed| == n
        invariant forall i :: 0 <= i < n ==> IsSnapshotOf(listed[i], codec, table, keys[i], since)
      {
        assert keys[n] in keys;
        var s := GetProviderMetrics(keys[n], since);
        listed := listed + [s.value];
      }
      ListsKeys(codec, table, since, keys, listed);
    }
  }
}
