/** The order of scored signals: what a ranking is, that there is only one, and what a position means. */
module Ranking {
  import opened Common
  import opened Order
  import opened Circuit
  import opened Explanation

  /** The sort key of a ranking: descending score, then provider, then model. */
  predicate SignalLess(a: Signal, b: Signal) {
    a.finalScore > b.finalScore || (a.finalScore == b.finalScore && KeyLess(a.key, b.key))
  }

  lemma SignalOrder()
    ensures StrictOrder(SignalLess)
    ensures forall a: Signal, b: Signal :: a.key != b.key ==> SignalLess(a, b) || SignalLess(b, a)
  {
    KeyOrder();
    forall a ensures !SignalLess(a, a) { assert !KeyLess(a.key, a.key); }
    forall a, b, c | SignalLess(a, b) && SignalLess(b, c) ensures SignalLess(a, c) {
      if KeyLess(a.key, b.key) && KeyLess(b.key, c.key) { assert KeyLess(a.key, c.key); }
    }
    forall a: Signal, b: Signal | a.key != b.key ensures SignalLess(a, b) || SignalLess(b, a) {
      assert KeyLess(a.key, b.key) || KeyLess(b.key, a.key);
    }
  }

  // ----- what a ranking is -------------------------------------------------------------------

  /** The scores to rank, by key. */
  type Scores = map<Key, Signal>

  predicate OwnScores(scores: Scores) {
    forall k <- scores :: scores[k].key == k
  }

  function Placed(s: Signal, position: nat, evidence: map<Key, Eligibility>): Signal {
    s.(rank := position + 1, selected := position == 0, health := Lookup(evidence, s.key))
  }

  predicate PlacedAt(ranked: seq<Signal>, scores: Scores, evidence: map<Key, Eligibility>, i: nat)
    requires i < |ranked|
  {
    ranked[i].key in scores && ranked[i] == Placed(scores[ranked[i].key], i, evidence)
  }

  predicate Lists(ranked: seq<Signal>, k: Key) {
    exists i :: 0 <= i < |ranked| && ranked[i].key == k
  }

  /**
   * `ranked` is the ranking of the scores: strictly sorted by (-score, provider, model), one
   * signal per key, numbered from one, the first one selected.
   */
  ghost predicate Ranks(ranked: seq<Signal>, scores: Scores, evidence: map<Key, Eligibility>) {
    && Sorted(ranked, SignalLess)
    && (forall i :: 0 <= i < |ranked| ==> PlacedAt(ranked, scores, evidence, i))
    && (forall k <- scores :: Lists(ranked, k))
  }

  lemma RankedScores(ranked: seq<Signal>, scores: Scores, evidence: map<Key, Eligibility>)
    requires Ranks(ranked, scores, evidence)
    ensures forall i :: 0 <= i < |ranked| ==>
              ranked[i].key in scores && ranked[i] == Placed(scores[ranked[i].key], i, evidence)
  {
    forall i | 0 <= i < |ranked|
      ensures ranked[i].key in scores && ranked[i] == Placed(scores[ranked[i].key], i, evidence)
    {
      assert PlacedAt(ranked, scores, evidence, i);
    }
  }

  ghost function Bare(ranked: seq<Signal>, scores: Scores): (b: seq<Signal>)
    requires forall i :: 0 <= i < |ranked| ==> ranked[i].key in scores
    ensures |b| == |ranked|
  {
    seq(|ranked|, i requires 0 <= i < |ranked| => scores[ranked[i].key])
  }

  lemma BareSorted(ranked: seq<Signal>, scores: Scores, evidence: map<Key, Eligibility>)
    requires OwnScores(scores) && Ranks(ranked, scores, evidence)
    ensures forall i :: 0 <= i < |ranked| ==> ranked[i].key in scores
    ensures Sorted(Bare(ranked, scores), SignalLess)
    ensures Elements(Bare(ranked, scores)) == scores.Values
  {
    RankedScores(ranked, scores, evidence);
    var b := Bare(ranked, scores);
    forall i, j | 0 <= i < j < |b| ensures SignalLess(b[i], b[j]) {
      assert SignalLess(ranked[i], ranked[j]);
    }
    forall k | k in scores ensures scores[k] in b {
      assert Lists(ranked, k);
      var i :| 0 <= i < |ranked| && ranked[i].key == k;
      assert b[i] == scores[k];
    }
  }

  /** There is only one ranking of given scores. */
  lemma RanksUniquely(r: seq<Signal>, s: seq<Signal>, scores: Scores, evidence: map<Key, Eligibility>)
    requires OwnScores(scores) && Ranks(r, scores, evidence) && Ranks(s, scores, evidence)
    ensures r == s
  {
    BareSorted(r, scores, evidence);
    BareSorted(s, scores, evidence);
    SignalOrder();
    SortedIsUnique(Bare(r, scores), Bare(s, scores), SignalLess);
    forall i | 0 <= i < |r| ensures r[i] == s[i] {
      assert PlacedAt(r, scores, evidence, i) && PlacedAt(s, scores, evidence, i);
      assert Bare(r, scores)[i].key == r[i].key && Bare(s, scores)[i].key == s[i].key;
    }
  }

  lemma RankingKeysDistinct(ranked: seq<Signal>, scores: Scores, evidence: map<Key, Eligibility>)
    requires Ranks(ranked, scores, evidence)
    ensures DistinctSignals(ranked)
  {
    SignalOrder();
    forall i, j | 0 <= i < j < |ranked| ensures ranked[i].key != ranked[j].key {
      assert PlacedAt(ranked, scores, evidence, i) && PlacedAt(ranked, scores, evidence, j);
      assert SignalLess(ranked[i], ranked[j]) && !SignalLess(ranked[i], ranked[i]);
    }
  }

  // ----- making one --------------------------------------------------------------------------

  /** One bare score per key, in any order. */
  predicate Scored(scored: seq<Signal>, scores: Scores) {
    && DistinctSignals(scored)
    && (forall i :: 0 <= i < |scored| ==> scored[i].key in scores && scored[i] == scores[scored[i].key])
    && (forall k <- scores :: Lists(scored, k))
  }

  function Number(sorted: seq<Signal>, evidence: map<Key, Eligibility>): seq<Signal> {
    seq(|sorted|, i requires 0 <= i < |sorted| => Placed(sorted[i], i, evidence))
  }

  /** Sorting and numbering the scores ranks them. */
  lemma {:induction false} NumberedRanks(scored: seq<Signal>, scores: Scores, evidence: map<Key, Eligibility>)
    requires Scored(scored, scores)
    ensures Ranks(Number(SortBy(scored, SignalLess), evidence), scores, evidence)
  {
    var sorted := SortBy(scored, SignalLess);
    var ranked := Number(sorted, evidence);
    SignalOrder();
    SortSorts(scored, SignalLess);
    SortElements(scored, SignalLess);
    forall i, j | 0 <= i < j < |ranked| ensures SignalLess(ranked[i], ranked[j]) {
      assert SignalLess(sorted[i], sorted[j]);
    }
    forall i | 0 <= i < |ranked| ensures PlacedAt(ranked, scores, evidence, i) {
      assert sorted[i] in Elements(scored);
    }
    forall k | k in scores ensures Lists(ranked, k) {
      SortedLists(scored, k);
      var i :| 0 <= i < |sorted| && sorted[i].key == k;
      assert ranked[i].key == k;
    }
  }

  lemma {:induction false} SortedLists(scored: seq<Signal>, k: Key)
    requires Lists(scored, k)
    ensures Lists(SortBy(scored, SignalLess), k)
  {
    var a :| 0 <= a < |scored| && scored[a].key == k;
    SortElements(scored, SignalLess);
    assert scored[a] in Elements(SortBy(scored, SignalLess));
  }

  // ----- what a position means ---------------------------------------------------------------

  /** The keys whose score sorts before the one of `key`. */
  ghost function Better(scores: Scores, key: Key): set<Key>
    requires key in scores
  {
    set k | k in scores && SignalLess(scores[k], scores[key])
  }

  lemma SignalAsymmetric(a: Signal, b: Signal)
    ensures !(SignalLess(a, b) && SignalLess(b, a))
  {
    SignalOrder();
    assert !SignalLess(a, a);
  }

  lemma LessIsEarlier(s: seq<Signal>, j: nat, i: nat)
    requires Sorted(s, SignalLess) && i < |s| && j < |s| && SignalLess(s[j], s[i])
    ensures j < i
  {
    SignalAsymmetric(s[i], s[j]);
  }

  ghost function KeysBefore(ranked: seq<Signal>, n: nat): set<Key>
    requires n <= |ranked|
  {
    if n == 0 then {} else KeysBefore(ranked, n - 1) + {ranked[n - 1].key}
  }

  lemma {:induction false} KeysBeforeExactly(ranked: seq<Signal>, n: nat, k: Key)
    requires n <= |ranked|
    ensures k in KeysBefore(ranked, n) <==> exists j :: 0 <= j < n && ranked[j].key == k
  {
    if n > 0 { KeysBeforeExactly(ranked, n - 1, k); }
  }

  lemma {:induction false} PrefixKeys(ranked: seq<Signal>, n: nat)
    requires n <= |ranked| && DistinctSignals(ranked)
    ensures |KeysBefore(ranked, n)| == n
  {
    if n > 0 {
      PrefixKeys(ranked, n - 1);
      KeysBeforeExactly(ranked, n - 1, ranked[n - 1].key);
    }
  }

  /** The position of a candidate is the number of scores that sort before its own. */
  lemma RankCountsBetter(ranked: seq<Signal>, scores: Scores, evidence: map<Key, Eligibility>, i: nat)
    requires OwnScores(scores) && Ranks(ranked, scores, evidence) && i < |ranked|
    ensures ranked[i].key in scores && |Better(scores, ranked[i].key)| == i
  {
    RankedScores(ranked, scores, evidence);
    var better, front := Better(scores, ranked[i].key), KeysBefore(ranked, i);
    forall k ensures k in better <==> k in front {
      KeysBeforeExactly(ranked, i, k);
      if k in better {
        assert Lists(ranked, k);
        var j :| 0 <= j < |ranked| && ranked[j].key == k;
        LessIsEarlier(ranked, j, i);
      }
      if j :| 0 <= j < i && ranked[j].key == k {
        assert SignalLess(ranked[j], ranked[i]);
      }
    }
    assert better == front;
    RankingKeysDistinct(ranked, scores, evidence);
    PrefixKeys(ranked, i);
  }

  lemma SubsetSize<T>(a: set<T>, b: set<T>)
    requires a <= b
    ensures |a| <= |b|
  {
    assert b == a + (b - a);
  }

  /** `after` differs from `before` at most in a higher final score of `key`. */
  predicate Raises(before: Scores, after: Scores, key: Key) {
    && before.Keys == after.Keys && key in before
    && before[key].finalScore <= after[key].finalScore
    && forall k <- before :: k != key ==> before[k] == after[k]
  }

  /** Raising one score alone never moves its key down. */
  lemma RaisingNeverWorsensRank(before: seq<Signal>, after: seq<Signal>, former: Scores, improved: Scores,
                                evidence: map<Key, Eligibility>, i: nat, j: nat)
    requires OwnScores(former) && OwnScores(improved)
    requires Ranks(before, former, evidence) && Ranks(after, improved, evidence)
    requires i < |before| && j < |after| && before[i].key == after[j].key
    requires Raises(former, improved, before[i].key)
    ensures j <= i
  {
    var key := before[i].key;
    RankCountsBetter(before, former, evidence, i);
    RankCountsBetter(after, improved, evidence, j);
    SignalAsymmetric(improved[key], improved[key]);
    assert Better(improved, key) <= Better(former, key);
    SubsetSize(Better(improved, key), Better(former, key));
  }

  function WithoutCount(s: Signal): Signal {
    s.(sampleCount := 0)
  }

  /** The reported sample count plays no part in the order. */
  lemma CountsDoNotMatter(ranked: seq<Signal>, bare: seq<Signal>, scores: Scores, bareScores: Scores,
                          evidence: map<Key, Eligibility>)
    requires OwnScores(scores) && OwnScores(bareScores)
    requires scores.Keys == bareScores.Keys && forall k <- scores :: bareScores[k] == WithoutCount(scores[k])
    requires Ranks(ranked, scores, evidence) && Ranks(bare, bareScores, evidence)
    ensures |ranked| == |bare| && forall i :: 0 <= i < |ranked| ==> bare[i] == WithoutCount(ranked[i])
  {
    var stripped := seq(|ranked|, i requires 0 <= i < |ranked| => WithoutCount(ranked[i]));
    forall i | 0 <= i < |stripped| ensures PlacedAt(stripped, bareScores, evidence, i) {
      assert PlacedAt(ranked, scores, evidence, i);
    }
    forall i, j | 0 <= i < j < |stripped| ensures SignalLess(stripped[i], stripped[j]) {
      assert SignalLess(ranked[i], ranked[j]);
    }
    forall k | k in bareScores ensures Lists(stripped, k) {
      assert Lists(ranked, k);
      var i :| 0 <= i < |ranked| && ranked[i].key == k;
      assert stripped[i].key == k;
    }
    RanksUniquely(stripped, bare, bareScores, evidence);
  }
}
