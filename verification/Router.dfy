/** Ranking: filtering, deduplication, scoring and ordering of the configured candidates. */
module Router {
  import opened Common
  import opened Order
  import opened Circuit
  import opened Explanation
  import opened Ranking
  import opened Scoring
  import opened Fallback

  /** Everything a ranking depends on besides the candidates; keys in `unreadable` have no readable health. */
  datatype Situation = Situation(
    configured: set<string>,
    requested: Option<string>,
    inputs: Inputs,
    health: map<Key, Health>,
    unreadable: set<Key>,
    now: Instant)

  // ----- which candidates are ranked ---------------------------------------------------------

  /** A candidate that may be considered: its provider is configured and its model is asked for. */
  predicate Considered(c: Candidate, at: Situation) {
    c.key.provider in at.configured && (at.requested.Some? ==> c.key.model == at.requested.value)
  }

  /** The configuration in force per key: the last considered candidate with that key. */
  ghost predicate InForce(chosen: map<Key, Candidate>, candidates: seq<Candidate>, at: Situation, n: nat)
    requires n <= |candidates|
  {
    && (forall k :: k in chosen ==> exists i :: LastFor(candidates, at, n, k, i) && chosen[k] == candidates[i])
    && (forall i :: 0 <= i < n && Considered(candidates[i], at) ==> candidates[i].key in chosen)
  }

  ghost predicate LastFor(candidates: seq<Candidate>, at: Situation, n: nat, k: Key, i: int)
    requires n <= |candidates|
  {
    && 0 <= i < n && candidates[i].key == k && Considered(candidates[i], at)
    && forall j :: i < j < n && Considered(candidates[j], at) ==> candidates[j].key != k
  }

  /** Deduplication, as insertion into an ordered dictionary: position of the first, value of the last. */
  method Deduplicate(candidates: seq<Candidate>, at: Situation)
    returns (order: seq<Key>, chosen: map<Key, Candidate>)
    ensures InForce(chosen, candidates, at, |candidates|)
    ensures forall k :: k in order <==> k in chosen
    ensures forall i, j :: 0 <= i < j < |order| ==> order[i] != order[j]
  {
    order, chosen := [], map[];
    for n := 0 to |candidates|
      invariant InForce(chosen, candidates, at, n)
      invariant forall k :: k in order <==> k in chosen
      invariant forall i, j :: 0 <= i < j < |order| ==> order[i] != order[j]
    {
      var c := candidates[n];
      ghost var before := chosen;
      if Considered(c, at) {
        if c.key !in chosen { order := order + [c.key]; }
        chosen := chosen[c.key := c];
      }
      forall k | k in chosen
        ensures exists i :: LastFor(candidates, at, n + 1, k, i) && chosen[k] == candidates[i]
      {
        if Considered(c, at) && k == c.key {
          assert LastFor(candidates, at, n + 1, k, n);
        } else {
          var i :| LastFor(candidates, at, n, k, i) && before[k] == candidates[i];
          assert LastFor(candidates, at, n + 1, k, i);
        }
      }
    }
  }

  /** Candidates with the same key are the same. */
  predicate Agree(candidates: seq<Candidate>) {
    forall i, j :: 0 <= i < |candidates| && 0 <= j < |candidates| && candidates[i].key == candidates[j].key ==>
      candidates[i] == candidates[j]
  }

  /**
   * The configuration in force does not depend on the order of the candidates, when candidates
   * with the same key agree.
   */
  lemma InForceIgnoresOrder(a: seq<Candidate>, b: seq<Candidate>, at: Situation,
                            x: map<Key, Candidate>, y: map<Key, Candidate>)
    requires Elements(a) == Elements(b)
    requires Agree(a)
    requires InForce(x, a, at, |a|) && InForce(y, b, at, |b|)
    ensures x == y
  {
    OneWay(a, b, at, x, y);
    assert Agree(b) by {
      forall i, j | 0 <= i < |b| && 0 <= j < |b| && b[i].key == b[j].key ensures b[i] == b[j] {
        assert b[i] in Elements(a) && b[j] in Elements(a);
      }
    }
    OneWay(b, a, at, y, x);
  }

  lemma OneWay(a: seq<Candidate>, b: seq<Candidate>, at: Situation,
               x: map<Key, Candidate>, y: map<Key, Candidate>)
    requires Elements(a) == Elements(b)
    requires Agree(a)
    requires InForce(x, a, at, |a|) && InForce(y, b, at, |b|)
    ensures forall k :: k in x ==> k in y && y[k] == x[k]
  {
    forall k | k in x ensures k in y && y[k] == x[k] {
      var i :| LastFor(a, at, |a|, k, i) && x[k] == a[i];
      assert a[i] in Elements(b);
      var j :| 0 <= j < |b| && b[j] == a[i];
      assert k in y;
      var m :| LastFor(b, at, |b|, k, m) && y[k] == b[m];
      assert b[m] in Elements(a);
    }
  }

  /** Request-local health evidence; keys in `unreadable` cannot be read. */
  method EvaluateHealth(keys: seq<Key>, health: map<Key, Health>, unreadable: set<Key>, now: Instant)
    returns (evidence: map<Key, Eligibility>)
    ensures forall k :: k in evidence <==> k in keys
    ensures forall k :: k in evidence ==> evidence[k] == Evidence(k !in unreadable, Lookup(health, k), now)
  {
    evidence := map[];
    for n := 0 to |keys|
      invariant forall k :: k in evidence <==> k in keys[..n]
      invariant forall k :: k in evidence ==> evidence[k] == Evidence(k !in unreadable, Lookup(health, k), now)
    {
      assert keys[..n + 1] == keys[..n] + [keys[n]];
      if keys[n] in evidence { continue; }
      evidence := evidence[keys[n] := Evidence(keys[n] !in unreadable, Lookup(health, keys[n]), now)];
    }
  }

  // ----- the ranking of candidates -----------------------------------------------------------

  ghost predicate OwnKeys(chosen: map<Key, Candidate>) {
    forall k :: k in chosen ==> chosen[k].key == k
  }

  ghost function ScoresOf(chosen: map<Key, Candidate>, inputs: Inputs): Scores
    requires ValidPreferences(inputs.preferences)
  {
    map k | k in chosen :: ScoreOf(chosen[k], inputs)
  }

  /** `ranked` is the ranking of the chosen candidates by their scores. */
  ghost predicate IsRanking(ranked: seq<Signal>, chosen: map<Key, Candidate>, inputs: Inputs,
                            evidence: map<Key, Eligibility>)
    requires ValidPreferences(inputs.preferences)
  {
    Ranks(ranked, ScoresOf(chosen, inputs), evidence)
  }

  lemma ScoresAreOwn(chosen: map<Key, Candidate>, inputs: Inputs)
    requires ValidPreferences(inputs.preferences) && OwnKeys(chosen)
    ensures OwnScores(ScoresOf(chosen, inputs))
  {
  }

  /** There is only one ranking of given candidates and inputs. */
  lemma RankingIsUnique(r: seq<Signal>, s: seq<Signal>, chosen: map<Key, Candidate>, inputs: Inputs,
                        evidence: map<Key, Eligibility>)
    requires ValidPreferences(inputs.preferences) && OwnKeys(chosen)
    requires IsRanking(r, chosen, inputs, evidence) && IsRanking(s, chosen, inputs, evidence)
    ensures r == s
  {
    ScoresAreOwn(chosen, inputs);
    RanksUniquely(r, s, ScoresOf(chosen, inputs), evidence);
  }

  // ----- the router --------------------------------------------------------------------------

  /** The candidates in force that health admits; an explicit model is not filtered by health. */
  ghost predicate IsAdmitted(admitted: map<Key, Candidate>, chosen: map<Key, Candidate>,
                             evidence: map<Key, Eligibility>, auto: bool) {
    && (forall k :: k in admitted <==> k in chosen && (auto ==> k in evidence && evidence[k].eligible))
    && (forall k :: k in admitted ==> admitted[k] == chosen[k])
  }

  /** Request-local evidence: each key's lazy verdict, or the fail-open one. */
  ghost predicate IsEvidence(evidence: map<Key, Eligibility>, keys: set<Key>, at: Situation) {
    && evidence.Keys == keys
    && forall k :: k in evidence ==> evidence[k] == Evidence(k !in at.unreadable, Lookup(at.health, k), at.now)
  }

  /** Health and measurements count for automatic requests only. */
  function InputsUsed(at: Situation): Inputs {
    if at.requested.None? then at.inputs else StaticInputs(at.inputs)
  }

  /** What the router yields: the ranked candidates and the evidence, with the candidates they came from. */
  datatype Selection = Selection(
    ranked: seq<Signal>,
    evidence: map<Key, Eligibility>,
    chosen: map<Key, Candidate>,
    admitted: map<Key, Candidate>)

  /** The ranking of the candidates in force that health admits. */
  ghost predicate IsSelection(o: Selection, candidates: seq<Candidate>, at: Situation)
    requires ValidPreferences(at.inputs.preferences)
  {
    && InForce(o.chosen, candidates, at, |candidates|)
    && IsEvidence(o.evidence, if at.requested.None? then o.chosen.Keys else {}, at)
    && IsAdmitted(o.admitted, o.chosen, o.evidence, at.requested.None?)
    && IsRanking(o.ranked, o.admitted, InputsUsed(at), o.evidence)
  }

  lemma SameEvidence(e: map<Key, Eligibility>, f: map<Key, Eligibility>, keys: set<Key>, at: Situation)
    requires IsEvidence(e, keys, at) && IsEvidence(f, keys, at)
    ensures e == f
  {
  }

  lemma SameAdmitted(a: map<Key, Candidate>, b: map<Key, Candidate>, chosen: map<Key, Candidate>,
                     evidence: map<Key, Eligibility>, auto: bool)
    requires IsAdmitted(a, chosen, evidence, auto) && IsAdmitted(b, chosen, evidence, auto)
    ensures a == b
  {
    assert forall k :: k in a <==> k in b;
  }

  /** The selection does not depend on the order of the candidates, when candidates with the same key agree. */
  lemma SelectionIgnoresOrder(a: seq<Candidate>, b: seq<Candidate>, at: Situation, x: Selection, y: Selection)
    requires ValidPreferences(at.inputs.preferences)
    requires Elements(a) == Elements(b)
    requires Agree(a)
    requires IsSelection(x, a, at) && IsSelection(y, b, at)
    ensures x == y
  {
    InForceIgnoresOrder(a, b, at, x.chosen, y.chosen);
    SameEvidence(x.evidence, y.evidence, if at.requested.None? then x.chosen.Keys else {}, at);
    SameAdmitted(x.admitted, y.admitted, x.chosen, x.evidence, at.requested.None?);
    InForceOwnKeys(x.chosen, a, at);
    RankingIsUnique(x.ranked, y.ranked, x.admitted, InputsUsed(at), x.evidence);
  }

  /** Which keys may be ranked: those of a configured provider and, if one is asked for, of that model. */
  predicate Offered(candidates: seq<Candidate>, at: Situation, k: Key) {
    && (exists i :: 0 <= i < |candidates| && candidates[i].key == k)
    && k.provider in at.configured && (at.requested.None? || k.model == at.requested.value)
  }

  /**
   * Who is ranked: for an automatic request the offered keys that are not refused, scored by the
   * measurements; for an explicit model all offered keys, whatever their health, scored without.
   */
  lemma RankedExactly(o: Selection, candidates: seq<Candidate>, at: Situation, k: Key)
    requires ValidPreferences(at.inputs.preferences) && IsSelection(o, candidates, at)
    ensures Lists(o.ranked, k) <==>
              && Offered(candidates, at, k)
              && (at.requested.None? ==> Evidence(k !in at.unreadable, Lookup(at.health, k), at.now).eligible)
    ensures Lists(o.ranked, k) ==>
              && k in o.admitted && (exists i :: 0 <= i < |candidates| && candidates[i] == o.admitted[k])
              && exists i :: 0 <= i < |o.ranked| && o.ranked[i] ==
                   Placed(ScoreOf(o.admitted[k], if at.requested.None? then at.inputs else StaticInputs(at.inputs)), i,
                          o.evidence)
  {
    InForceOwnKeys(o.chosen, candidates, at);
    RankedScores(o.ranked, ScoresOf(o.admitted, InputsUsed(at)), o.evidence);
    OfferedAreChosen(o.chosen, candidates, at, k);
    if k in o.admitted {
      assert k in ScoresOf(o.admitted, InputsUsed(at));
      assert Lists(o.ranked, k);
      var i :| 0 <= i < |o.ranked| && o.ranked[i].key == k;
    }
  }

  lemma OfferedAreChosen(chosen: map<Key, Candidate>, candidates: seq<Candidate>, at: Situation, k: Key)
    requires InForce(chosen, candidates, at, |candidates|)
    ensures k in chosen <==> Offered(candidates, at, k)
    ensures k in chosen ==> exists i :: 0 <= i < |candidates| && candidates[i] == chosen[k]
  {
    if k in chosen {
      var i :| LastFor(candidates, at, |candidates|, k, i) && chosen[k] == candidates[i];
    }
    if Offered(candidates, at, k) {
      var i :| 0 <= i < |candidates| && candidates[i].key == k;
      assert Considered(candidates[i], at);
    }
  }

  method Rank(candidates: seq<Candidate>, at: Situation) returns (o: Selection, order: seq<Key>)
    requires ValidPreferences(at.inputs.preferences)
    ensures IsSelection(o, candidates, at)
    ensures forall k :: k in order <==> k in o.chosen
    ensures forall i, j :: 0 <= i < j < |order| ==> order[i] != order[j]
  {
    var latest;
    order, latest := Deduplicate(candidates, at);
    var evidence := map[];
    if at.requested.None? {
      evidence := EvaluateHealth(order, at.health, at.unreadable, at.now);
    }
    var available := map k | k in latest && (at.requested.Some? || evidence[k].eligible) :: latest[k];
    InForceOwnKeys(latest, candidates, at);
    var scored := ScoreAll(order, available, InputsUsed(at));
    NumberedRanks(scored, ScoresOf(available, InputsUsed(at)), evidence);
    o := Selection(Number(SortBy(scored, SignalLess), evidence), evidence, latest, available);
  }

  /** One score per available key, in configuration order. */
  method ScoreAll(order: seq<Key>, available: map<Key, Candidate>, inputs: Inputs) returns (scored: seq<Signal>)
    requires ValidPreferences(inputs.preferences) && OwnKeys(available)
    requires forall i, j :: 0 <= i < j < |order| ==> order[i] != order[j]
    requires forall k :: k in available ==> k in order
    ensures Scored(scored, ScoresOf(available, inputs))
  {
    ghost var scores := ScoresOf(available, inputs);
    ScoresAreOwn(available, inputs);
    scored := [];
    for n := 0 to |order|
      invariant ScoredFirst(scored, scores, order[..n])
    {
      var k := order[n];
      assert order[..n + 1] == order[..n] + [k];
      if k in available {
        var score := ScoreOf(available[k], inputs);
        ScoreNext(scored, scores, order[..n], k);
        scored := scored + [score];
      }
    }
    assert order[..|order|] == order;
  }

  /** The scored keys are exactly those of `seen` that have a score. */
  predicate ScoredFirst(scored: seq<Signal>, scores: Scores, seen: seq<Key>) {
    && DistinctSignals(scored)
    && (forall i :: 0 <= i < |scored| ==>
          scored[i].key in seen && scored[i].key in scores && scored[i] == scores[scored[i].key])
    && (forall k <- seen :: k in scores ==> Lists(scored, k))
  }

  lemma ScoreNext(scored: seq<Signal>, scores: Scores, seen: seq<Key>, k: Key)
    requires OwnScores(scores) && ScoredFirst(scored, scores, seen) && k in scores && k !in seen
    ensures ScoredFirst(scored + [scores[k]], scores, seen + [k])
  {
    var more := scored + [scores[k]];
    forall x | x in seen + [k] && x in scores ensures Lists(more, x) {
      if x == k {
        assert more[|scored|].key == k;
      } else {
        assert Lists(scored, x);
        var i :| 0 <= i < |scored| && scored[i].key == x;
        assert more[i].key == x;
      }
    }
  }

  lemma InForceOwnKeys(chosen: map<Key, Candidate>, candidates: seq<Candidate>, at: Situation)
    requires InForce(chosen, candidates, at, |candidates|)
    ensures OwnKeys(chosen)
  {
  }

  /**
   * Improving one candidate's measurements alone (latency, cost, successes at the same sample
   * counts) never moves it down.
   */
  lemma ImprovementNeverWorsensRank(before: seq<Signal>, after: seq<Signal>, chosen: map<Key, Candidate>,
                                    former: Inputs, improved: Inputs, evidence: map<Key, Eligibility>, i: nat, j: nat)
    requires ValidInputs(former) && ValidInputs(improved) && OwnKeys(chosen)
    requires IsRanking(before, chosen, former, evidence) && IsRanking(after, chosen, improved, evidence)
    requires i < |before| && j < |after| && before[i].key == after[j].key
    requires before[i].key in former.metrics
    requires exists m ::
               && improved == former.(metrics := former.metrics[before[i].key := m])
               && NoWorse(former.metrics[before[i].key], m)
    ensures j <= i
  {
    var key := before[i].key;
    var m :| improved == former.(metrics := former.metrics[key := m]) && NoWorse(former.metrics[key], m);
    RankedScores(before, ScoresOf(chosen, former), evidence);
    ScoresAreOwn(chosen, former);
    ScoresAreOwn(chosen, improved);
    ImprovementRaises(chosen, former, improved, before[i].key, m);
    RaisingNeverWorsensRank(before, after, ScoresOf(chosen, former), ScoresOf(chosen, improved), evidence, i, j);
  }

  lemma ImprovementRaises(chosen: map<Key, Candidate>, former: Inputs, improved: Inputs, key: Key, m: Metrics)
    requires ValidInputs(former) && ValidInputs(improved) && OwnKeys(chosen) && key in chosen
    requires key in former.metrics && improved == former.(metrics := former.metrics[key := m])
    requires NoWorse(former.metrics[key], m)
    ensures Raises(ScoresOf(chosen, former), ScoresOf(chosen, improved), key)
  {
    assert improved.metrics[key] == m;
    ImprovementRaisesScore(chosen[key], former, improved);
    forall k | k in chosen && k != key ensures ScoreOf(chosen[k], former) == ScoreOf(chosen[k], improved) {
      SameScore(chosen[k], former, improved);
    }
  }

  /** A score depends on the candidate's own measurements only. */
  lemma SameScore(c: Candidate, a: Inputs, b: Inputs)
    requires ValidPreferences(a.preferences) && a.preferences == b.preferences
    requires Lookup(a.metrics, c.key) == Lookup(b.metrics, c.key)
    requires Lookup(a.quality, c.key) == Lookup(b.quality, c.key)
    ensures ScoreOf(c, a) == ScoreOf(c, b)
  {
  }

  /** What stands at a position: a candidate's published score, and the order to every later position. */
  lemma PositionsOrdered(ranked: seq<Signal>, chosen: map<Key, Candidate>, inputs: Inputs,
                         evidence: map<Key, Eligibility>, i: nat, j: nat)
    requires ValidPreferences(inputs.preferences) && OwnKeys(chosen)
    requires IsRanking(ranked, chosen, inputs, evidence) && i < j < |ranked|
    ensures ranked[i].key in chosen && ranked[j].key in chosen
    ensures ranked[i] == Placed(ScoreOf(chosen[ranked[i].key], inputs), i, evidence)
    ensures ranked[j] == Placed(ScoreOf(chosen[ranked[j].key], inputs), j, evidence)
    ensures ranked[j].finalScore <= ranked[i].finalScore
    ensures ranked[j].finalScore == ranked[i].finalScore ==> TieBroken(ranked[i].key, ranked[j].key)
  {
    RankedScores(ranked, ScoresOf(chosen, inputs), evidence);
    assert SignalLess(ranked[i], ranked[j]);
    TextIrreflexive(ranked[i].key.provider);
  }

  /** Equal scores are in the order of the provider, then of the model. */
  predicate TieBroken(a: Key, b: Key) {
    if a.provider == b.provider then TextLess(a.model, b.model) else TextLess(a.provider, b.provider)
  }

  /** A request that cares about one aspect only gets the candidates in the order of that aspect. */
  lemma SinglePreferenceRanks(ranked: seq<Signal>, chosen: map<Key, Candidate>, inputs: Inputs,
                              evidence: map<Key, Eligibility>, aspect: Aspect, i: nat, j: nat)
    requires ValidPreferences(inputs.preferences) && CaresOnlyFor(inputs.preferences, aspect) && OwnKeys(chosen)
    requires IsRanking(ranked, chosen, inputs, evidence) && i < j < |ranked|
    ensures Published(ranked[j], aspect) <= Published(ranked[i], aspect)
    ensures Published(ranked[j], aspect) == Published(ranked[i], aspect) ==> TieBroken(ranked[i].key, ranked[j].key)
  {
    PositionsOrdered(ranked, chosen, inputs, evidence, i, j);
    SinglePreferenceDecides(chosen[ranked[i].key], inputs, aspect);
    SinglePreferenceDecides(chosen[ranked[j].key], inputs, aspect);
  }

  /** Of two candidates that agree in three aspects, the one that is better enough in the fourth ranks first. */
  lemma FourthAspectRanks(ranked: seq<Signal>, chosen: map<Key, Candidate>, inputs: Inputs,
                          evidence: map<Key, Eligibility>, aspect: Aspect, i: nat, j: nat)
    requires ValidPreferences(inputs.preferences) && OwnKeys(chosen)
    requires IsRanking(ranked, chosen, inputs, evidence) && i < j < |ranked|
    requires ranked[i].key in chosen && ranked[j].key in chosen
    requires forall other :: other != aspect ==>
               Part(chosen[ranked[i].key], inputs, other) == Part(chosen[ranked[j].key], inputs, other)
    ensures Gain(chosen[ranked[j].key], chosen[ranked[i].key], inputs, aspect)
              <= 0.000001 * TotalPreference(inputs.preferences)
  {
    PositionsOrdered(ranked, chosen, inputs, evidence, i, j);
    NotAheadByMuch(chosen[ranked[j].key], chosen[ranked[i].key], inputs, aspect);
  }

  /**
   * Cold start: when no chosen candidate has a usable measurement, the ranking is the static
   * one, position by position, in keys and in every score.
   */
  lemma ColdRankingIsStatic(ranked: seq<Signal>, baseline: seq<Signal>, chosen: map<Key, Candidate>, inputs: Inputs,
                            evidence: map<Key, Eligibility>)
    requires ValidInputs(inputs) && OwnKeys(chosen)
    requires forall k :: k in chosen ==> Cold(inputs, k)
    requires IsRanking(ranked, chosen, inputs, evidence) && IsRanking(baseline, chosen, StaticInputs(inputs), evidence)
    ensures |ranked| == |baseline|
    ensures forall i :: 0 <= i < |ranked| ==> ranked[i].(sampleCount := 0) == baseline[i]
  {
    ScoresAreOwn(chosen, inputs);
    ScoresAreOwn(chosen, StaticInputs(inputs));
    forall k | k in chosen
      ensures ScoreOf(chosen[k], StaticInputs(inputs)) == WithoutCount(ScoreOf(chosen[k], inputs))
    {
      ColdScoreIsStatic(chosen[k], inputs);
    }
    CountsDoNotMatter(ranked, baseline, ScoresOf(chosen, inputs), ScoresOf(chosen, StaticInputs(inputs)), evidence);
  }

  // ----- the explanation of a ranking --------------------------------------------------------

  /** The refused keys, in the given order, with their evidence and without invented scores. */
  function Exclude(keys: seq<Key>, evidence: map<Key, Eligibility>): seq<Exclusion>
    requires forall k :: k in keys ==> k in evidence
  {
    if keys == [] then []
    else
      var rest := Exclude(keys[1..], evidence);
      if evidence[keys[0]].eligible then rest else [Exclusion(keys[0], evidence[keys[0]])] + rest
  }

  predicate Excludes(x: seq<Exclusion>, k: Key) {
    exists i :: 0 <= i < |x| && x[i].key == k
  }

  lemma {:induction false} ExcludedIsRefused(keys: seq<Key>, evidence: map<Key, Eligibility>, i: nat)
    requires forall k :: k in keys ==> k in evidence
    requires i < |Exclude(keys, evidence)|
    ensures var e := Exclude(keys, evidence)[i]; e.key in keys && e.health == evidence[e.key] && !e.health.eligible
  {
    if evidence[keys[0]].eligible {
      ExcludedIsRefused(keys[1..], evidence, i);
    } else if i > 0 {
      ExcludedIsRefused(keys[1..], evidence, i - 1);
    }
  }

  lemma {:induction false} ExcludedAreRefused(keys: seq<Key>, evidence: map<Key, Eligibility>)
    requires forall k :: k in keys ==> k in evidence
    ensures
      var x := Exclude(keys, evidence);
      forall i :: 0 <= i < |x| ==> x[i].key in keys && x[i].health == evidence[x[i].key] && !x[i].health.eligible
  {
    var x := Exclude(keys, evidence);
    forall i | 0 <= i < |x| ensures x[i].key in keys && x[i].health == evidence[x[i].key] && !x[i].health.eligible {
      ExcludedIsRefused(keys, evidence, i);
    }
  }

  lemma {:induction false} RefusedAreExcluded(keys: seq<Key>, evidence: map<Key, Eligibility>, k: Key)
    requires forall k :: k in keys ==> k in evidence
    requires k in keys && !evidence[k].eligible
    ensures Excludes(Exclude(keys, evidence), k)
  {
    var rest, x := Exclude(keys[1..], evidence), Exclude(keys, evidence);
    if k == keys[0] {
      assert x[0].key == k;
    } else {
      RefusedAreExcluded(keys[1..], evidence, k);
      var i :| 0 <= i < |rest| && rest[i].key == k;
      assert x[if evidence[keys[0]].eligible then i else i + 1].key == k;
    }
  }

  lemma {:induction false} ExclusionsAreDistinct(keys: seq<Key>, evidence: map<Key, Eligibility>)
    requires forall k :: k in keys ==> k in evidence
    requires forall i, j :: 0 <= i < j < |keys| ==> keys[i] != keys[j]
    ensures DistinctExclusions(Exclude(keys, evidence))
  {
    if keys != [] {
      ExclusionsAreDistinct(keys[1..], evidence);
      ExcludedAreRefused(keys[1..], evidence);
      assert keys[0] !in keys[1..];
      assert forall i :: 0 <= i < |Exclude(keys[1..], evidence)| ==> Exclude(keys[1..], evidence)[i].key in keys[1..];
    }
  }

  /** Exactly the refused keys are excluded, each once, with their evidence. */
  lemma {:induction false} ExcludeMeaning(keys: seq<Key>, evidence: map<Key, Eligibility>)
    requires forall k :: k in keys ==> k in evidence
    requires forall i, j :: 0 <= i < j < |keys| ==> keys[i] != keys[j]
    ensures
      var x := Exclude(keys, evidence);
      && (forall i :: 0 <= i < |x| ==> x[i].key in keys && x[i].health == evidence[x[i].key] && !x[i].health.eligible)
      && (forall k :: k in keys && !evidence[k].eligible ==> Excludes(x, k))
      && DistinctExclusions(x)
  {
    ExcludedAreRefused(keys, evidence);
    ExclusionsAreDistinct(keys, evidence);
    forall k | k in keys && !evidence[k].eligible ensures Excludes(Exclude(keys, evidence), k) {
      RefusedAreExcluded(keys, evidence, k);
    }
  }

  lemma {:induction false} SortKeepsDistinct(keys: seq<Key>)
    requires forall i, j :: 0 <= i < j < |keys| ==> keys[i] != keys[j]
    ensures var s := SortBy(keys, KeyLess); Sorted(s, KeyLess) && forall i, j :: 0 <= i < j < |s| ==> s[i] != s[j]
    ensures Elements(SortBy(keys, KeyLess)) == Elements(keys)
  {
    KeyOrder();
    SortSorts(keys, KeyLess);
    SortElements(keys, KeyLess);
    var s := SortBy(keys, KeyLess);
    forall i, j | 0 <= i < j < |s| ensures s[i] != s[j] {
      assert KeyLess(s[i], s[j]) && !KeyLess(s[i], s[i]);
    }
  }

  /** The explanation before serving; the first ranked candidate is selected. */
  function Unserved(requestId: string, ranked: seq<Signal>, excluded: seq<Exclusion>): Explanation {
    var first := if ranked == [] then None else Some(ranked[0]);
    Explanation(requestId,
                if first.None? then None else Some(first.value.key.provider),
                if first.None? then None else Some(first.value.key.model),
                None, None, first, ranked, excluded)
  }

  /** Ranking and exclusions taken from the same evidence always make a valid explanation. */
  lemma {:induction false} FreshExplanationIsValid(requestId: string, ranked: seq<Signal>, order: seq<Key>,
                                                   admitted: map<Key, Candidate>, inputs: Inputs,
                                                   evidence: map<Key, Eligibility>)
    requires ValidPreferences(inputs.preferences) && IsRanking(ranked, admitted, inputs, evidence)
    requires forall i, j :: 0 <= i < j < |order| ==> order[i] != order[j]
    requires forall k :: k in order ==> k in evidence
    requires forall k :: k in admitted ==> k in evidence && evidence[k].eligible
    ensures ValidExplanation(Unserved(requestId, ranked, Exclude(order, evidence)))
    ensures DistinctSignals(ranked)
    ensures
      ExcludedKeys(Unserved(requestId, ranked, Exclude(order, evidence)))
      == set k | k in order && !evidence[k].eligible
  {
    RankingKeysDistinct(ranked, ScoresOf(admitted, inputs), evidence);
    RankedScores(ranked, ScoresOf(admitted, inputs), evidence);
    ExcludeMeaning(order, evidence);
    assert forall i :: 0 <= i < |ranked| ==> ranked[i].health == Some(evidence[ranked[i].key]);
  }

  /** The explanation of a selection: the refused keys in key order; none for an explicit model. */
  ghost predicate IsExplained(routing: Option<Explanation>, requestId: string, o: Selection, at: Situation) {
    && (routing.Some? <==> at.requested.None?)
    && (routing.Some? ==> exists keys: seq<Key> :: ExplainsInOrder(routing.value, requestId, o, keys))
  }

  ghost predicate ExplainsInOrder(e: Explanation, requestId: string, o: Selection, keys: seq<Key>) {
    && Sorted(keys, KeyLess) && Elements(keys) == o.chosen.Keys == o.evidence.Keys
    && e == Unserved(requestId, o.ranked, Exclude(keys, o.evidence))
  }

  /** Ranking and explanation are the same for any order of agreeing candidates. */
  lemma RoutingIgnoresOrder(a: seq<Candidate>, b: seq<Candidate>, at: Situation, requestId: string,
                            x: Selection, y: Selection, r: Option<Explanation>, s: Option<Explanation>)
    requires ValidPreferences(at.inputs.preferences)
    requires Elements(a) == Elements(b)
    requires Agree(a)
    requires IsSelection(x, a, at) && IsExplained(r, requestId, x, at)
    requires IsSelection(y, b, at) && IsExplained(s, requestId, y, at)
    ensures x == y && r == s
  {
    SelectionIgnoresOrder(a, b, at, x, y);
    if r.Some? {
      var k: seq<Key> :| ExplainsInOrder(r.value, requestId, x, k);
      var l: seq<Key> :| ExplainsInOrder(s.value, requestId, y, l);
      KeyOrder();
      SortedIsUnique(k, l, KeyLess);
    }
  }

  method RankWithExplanation(candidates: seq<Candidate>, at: Situation, requestId: string)
    returns (o: Selection, routing: Option<Explanation>)
    requires ValidPreferences(at.inputs.preferences)
    ensures IsSelection(o, candidates, at) && IsExplained(routing, requestId, o, at)
    ensures FreshRouting(o.ranked, routing)
    ensures routing.Some? ==>
              ExcludedKeys(routing.value) == set k | k in o.chosen && !o.evidence[k].eligible
  {
    var order;
    o, order := Rank(candidates, at);
    if at.requested.Some? {
      RankingKeysDistinct(o.ranked, ScoresOf(o.admitted, InputsUsed(at)), o.evidence);
      return o, None;
    }
    var sorted := SortBy(order, KeyLess);
    SortKeepsDistinct(order);
    assert forall k :: k in sorted <==> k in Elements(sorted);
    assert forall k :: k in order <==> k in Elements(order);
    FreshExplanationIsValid(requestId, o.ranked, sorted, o.admitted, at.inputs, o.evidence);
    routing := Some(Unserved(requestId, o.ranked, Exclude(sorted, o.evidence)));
    assert ExplainsInOrder(routing.value, requestId, o, sorted);
  }
}
