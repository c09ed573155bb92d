/** The routing explanation: its validator, and its rewriting when health changes before a call. */
module Explanation {
  import opened Common
  import opened Circuit

  datatype Signal = Signal(
    key: Key,
    quality: real,
    cost: real,
    latency: real,
    reliability: real,
    sampleCount: nat,
    finalScore: real,
    rank: nat,
    selected: bool,
    health: Option<Eligibility>)

  datatype Exclusion = Exclusion(key: Key, health: Eligibility)

  datatype Explanation = Explanation(
    requestId: string,
    selectedProvider: Option<string>,
    selectedModel: Option<string>,
    servedProvider: Option<string>,
    servedModel: Option<string>,
    selected: Option<Signal>,
    candidates: seq<Signal>,
    excluded: seq<Exclusion>)

  datatype ValidationError = ExplanationInvalid

  predicate Refused(health: Option<Eligibility>) {
    health.Some? && !health.value.eligible
  }

  predicate DistinctSignals(s: seq<Signal>) {
    forall i, j :: 0 <= i < j < |s| ==> s[i].key != s[j].key
  }

  predicate DistinctExclusions(s: seq<Exclusion>) {
    forall i, j :: 0 <= i < j < |s| ==> s[i].key != s[j].key
  }

  function SignalKeys(s: seq<Signal>): (k: seq<Key>)
    ensures |k| == |s| && forall i :: 0 <= i < |s| ==> k[i] == s[i].key
  {
    seq(|s|, i requires 0 <= i < |s| => s[i].key)
  }

  function ExclusionKeys(s: seq<Exclusion>): (k: seq<Key>)
    ensures |k| == |s| && forall i :: 0 <= i < |s| ==> k[i] == s[i].key
  {
    seq(|s|, i requires 0 <= i < |s| => s[i].key)
  }

  predicate DisjointKeys(s: seq<Key>, t: seq<Key>) {
    forall i, j :: 0 <= i < |s| && 0 <= j < |t| ==> s[i] != t[j]
  }

  /** The validator's checks on the two lists: no key twice, none in both, health on the right side. */
  predicate ConsistentLists(candidates: seq<Signal>, excluded: seq<Exclusion>) {
    && DistinctSignals(candidates)
    && (forall i :: 0 <= i < |candidates| ==> !Refused(candidates[i].health))
    && DisjointKeys(SignalKeys(candidates), ExclusionKeys(excluded))
    && DistinctExclusions(excluded)
    && (forall j :: 0 <= j < |excluded| ==> !excluded[j].health.eligible)
  }

  /** The validator's checks on selection, serving and rank numbers. */
  predicate ConsistentSelection(e: Explanation) {
    if e.candidates == [] then
      && e.selected.None? && e.selectedProvider.None? && e.selectedModel.None?
      && e.servedProvider.None? && e.servedModel.None?
    else
      && e.selected == Some(e.candidates[0])
      && e.selectedProvider == Some(e.candidates[0].key.provider)
      && e.selectedModel == Some(e.candidates[0].key.model)
      && (e.servedProvider.None? <==> e.servedModel.None?)
      && (forall i :: 0 <= i < |e.candidates| ==> e.candidates[i].rank == i + 1)
      && (forall i :: 0 <= i < |e.candidates| ==> (e.candidates[i].selected <==> i == 0))
  }

  /** The explanation validator. */
  predicate ValidExplanation(e: Explanation) {
    ConsistentLists(e.candidates, e.excluded) && ConsistentSelection(e)
  }

  function Validated(e: Explanation): Result<Explanation, ValidationError> {
    if ValidExplanation(e) then Ok(e) else Err(ExplanationInvalid)
  }

  function WithServedBy(e: Explanation, key: Key): Result<Explanation, ValidationError> {
    Validated(e.(servedProvider := Some(key.provider), servedModel := Some(key.model)))
  }

  // ----- the meaning of a health rewrite -----------------------------------------------------

  function HealthAfter(item: Signal, updates: map<Key, Eligibility>): Option<Eligibility> {
    if item.key in updates then Some(updates[item.key]) else item.health
  }

  predicate Survives(item: Signal, updates: map<Key, Eligibility>) {
    !Refused(HealthAfter(item, updates))
  }

  /** The positions, in order, of the first `n` candidates whose survival is `alive`. */
  function Positions(items: seq<Signal>, updates: map<Key, Eligibility>, alive: bool, n: nat): (p: seq<nat>)
    requires n <= |items|
    ensures forall a :: 0 <= a < |p| ==> p[a] < n && Survives(items[p[a]], updates) == alive
  {
    if n == 0 then []
    else
      var front := Positions(items, updates, alive, n - 1);
      if Survives(items[n - 1], updates) == alive then front + [n - 1] else front
  }

  ghost predicate Increasing(p: seq<nat>) {
    forall a, b :: 0 <= a < b < |p| ==> p[a] < p[b]
  }

  lemma {:induction false} PositionsIncrease(items: seq<Signal>, updates: map<Key, Eligibility>, alive: bool, n: nat)
    requires n <= |items|
    ensures Increasing(Positions(items, updates, alive, n))
  {
    if n > 0 {
      PositionsIncrease(items, updates, alive, n - 1);
      var front := Positions(items, updates, alive, n - 1);
      assert forall a :: 0 <= a < |front| ==> front[a] < n - 1;
      assert Increasing(front + [n - 1]);
    }
  }

  lemma {:induction false} PositionsComplete(items: seq<Signal>, updates: map<Key, Eligibility>, alive: bool, n: nat,
                                             i: nat)
    returns (a: nat)
    requires i < n <= |items| && Survives(items[i], updates) == alive
    ensures a < |Positions(items, updates, alive, n)| && Positions(items, updates, alive, n)[a] == i
  {
    if i == n - 1 {
      a := |Positions(items, updates, alive, n - 1)|;
    } else {
      a := PositionsComplete(items, updates, alive, n - 1, i);
    }
  }

  function Kept(items: seq<Signal>, updates: map<Key, Eligibility>, n: nat): seq<Signal>
    requires n <= |items|
  {
    var p := Positions(items, updates, true, n);
    seq(|p|, a requires 0 <= a < |p| =>
      items[p[a]].(health := HealthAfter(items[p[a]], updates), rank := a + 1, selected := a == 0))
  }

  function Dropped(items: seq<Signal>, updates: map<Key, Eligibility>, n: nat): seq<Exclusion>
    requires n <= |items|
  {
    var p := Positions(items, updates, false, n);
    seq(|p|, a requires 0 <= a < |p| => Exclusion(items[p[a]].key, HealthAfter(items[p[a]], updates).value))
  }

  /** The rewritten explanation, before it is validated. */
  function Rewritten(e: Explanation, updates: map<Key, Eligibility>): Explanation {
    var kept := Kept(e.candidates, updates, |e.candidates|);
    e.(candidates := kept,
       excluded := e.excluded + Dropped(e.candidates, updates, |e.candidates|),
       selected := if kept == [] then None else Some(kept[0]),
       selectedProvider := if kept == [] then None else Some(kept[0].key.provider),
       selectedModel := if kept == [] then None else Some(kept[0].key.model))
  }

  method WithHealthUpdates(e: Explanation, updates: map<Key, Eligibility>)
    returns (r: Result<Explanation, ValidationError>)
    ensures r == Validated(Rewritten(e, updates))
  {
    var candidates: seq<Signal>, excluded := [], e.excluded;
    for n := 0 to |e.candidates|
      invariant candidates == Kept(e.candidates, updates, n)
      invariant excluded == e.excluded + Dropped(e.candidates, updates, n)
    {
      var item := e.candidates[n];
      var health := HealthAfter(item, updates);
      if health.Some? && !health.value.eligible {
        excluded := excluded + [Exclusion(item.key, health.value)];
      } else {
        candidates := candidates + [item.(health := health, rank := |candidates| + 1, selected := candidates == [])];
      }
    }
    var selected := if candidates == [] then None else Some(candidates[0]);
    r := Validated(e.(candidates := candidates, excluded := excluded, selected := selected,
                      selectedProvider := if selected.None? then None else Some(selected.value.key.provider),
                      selectedModel := if selected.None? then None else Some(selected.value.key.model)));
  }

  // ----- what a rewrite keeps ----------------------------------------------------------------

  ghost function RankedKeys(e: Explanation): set<Key> {
    set i | 0 <= i < |e.candidates| :: e.candidates[i].key
  }

  ghost function ExcludedKeys(e: Explanation): set<Key> {
    set j | 0 <= j < |e.excluded| :: e.excluded[j].key
  }

  lemma {:induction false} SplitCounts(items: seq<Signal>, updates: map<Key, Eligibility>, n: nat)
    requires n <= |items|
    ensures |Positions(items, updates, true, n)| + |Positions(items, updates, false, n)| == n
  {
    if n > 0 { SplitCounts(items, updates, n - 1); }
  }

  ghost function KeysWhere(items: seq<Signal>, updates: map<Key, Eligibility>, alive: bool): set<Key> {
    set i | 0 <= i < |items| && Survives(items[i], updates) == alive :: items[i].key
  }

  lemma KeptKeys(items: seq<Signal>, updates: map<Key, Eligibility>)
    ensures var kept := Kept(items, updates, |items|);
            (set a | 0 <= a < |kept| :: kept[a].key) == KeysWhere(items, updates, true)
  {
    var kept, p := Kept(items, updates, |items|), Positions(items, updates, true, |items|);
    forall i | 0 <= i < |items| && Survives(items[i], updates)
      ensures exists a :: 0 <= a < |kept| && kept[a].key == items[i].key
    {
      var a := PositionsComplete(items, updates, true, |items|, i);
      assert kept[a].key == items[i].key;
    }
    forall a | 0 <= a < |kept| ensures kept[a].key in KeysWhere(items, updates, true) {
      assert kept[a].key == items[p[a]].key;
    }
  }

  lemma DroppedKeys(items: seq<Signal>, updates: map<Key, Eligibility>)
    ensures var dropped := Dropped(items, updates, |items|);
            (set a | 0 <= a < |dropped| :: dropped[a].key) == KeysWhere(items, updates, false)
  {
    var dropped, p := Dropped(items, updates, |items|), Positions(items, updates, false, |items|);
    forall i | 0 <= i < |items| && !Survives(items[i], updates)
      ensures exists a :: 0 <= a < |dropped| && dropped[a].key == items[i].key
    {
      var a := PositionsComplete(items, updates, false, |items|, i);
      assert dropped[a].key == items[i].key;
    }
    forall a | 0 <= a < |dropped| ensures dropped[a].key in KeysWhere(items, updates, false) {
      assert dropped[a].key == items[p[a]].key;
    }
  }

  lemma ExcludedAppend(x: seq<Exclusion>, y: seq<Exclusion>)
    ensures (set j | 0 <= j < |x + y| :: (x + y)[j].key)
         == (set j | 0 <= j < |x| :: x[j].key) + (set j | 0 <= j < |y| :: y[j].key)
  {
    forall j | 0 <= j < |y| ensures (x + y)[|x| + j].key == y[j].key {}
    forall j | 0 <= j < |x| ensures (x + y)[j].key == x[j].key {}
  }

  /** No candidate is lost, invented or duplicated: ranked and excluded together stay the same set. */
  lemma RewriteConservesCandidates(e: Explanation, updates: map<Key, Eligibility>)
    ensures
      var r := Rewritten(e, updates);
      && RankedKeys(r) + ExcludedKeys(r) == RankedKeys(e) + ExcludedKeys(e)
      && |r.candidates| + |r.excluded| == |e.candidates| + |e.excluded|
      && e.excluded <= r.excluded
      && RankedKeys(r) == KeysWhere(e.candidates, updates, true)
  {
    SplitCounts(e.candidates, updates, |e.candidates|);
    KeptKeys(e.candidates, updates);
    DroppedKeys(e.candidates, updates);
    ExcludedAppend(e.excluded, Dropped(e.candidates, updates, |e.candidates|));
    assert RankedKeys(e) == KeysWhere(e.candidates, updates, true) + KeysWhere(e.candidates, updates, false);
  }

  /** Survivors keep their relative order and everything but rank, selection and health. */
  lemma RewriteKeepsOrderAndScores(e: Explanation, updates: map<Key, Eligibility>) returns (from: seq<nat>)
    ensures
      var r := Rewritten(e, updates);
      && |from| == |r.candidates|
      && Increasing(from)
      && (forall a :: 0 <= a < |from| ==>
            && from[a] < |e.candidates|
            && var before := e.candidates[from[a]];
               r.candidates[a] == before.(rank := a + 1, selected := a == 0, health := HealthAfter(before, updates)))
  {
    from := Positions(e.candidates, updates, true, |e.candidates|);
    PositionsIncrease(e.candidates, updates, true, |e.candidates|);
  }

  /** The candidate at `a` of the rewrite is the one at `i` before it, with the given health. */
  predicate StaysAs(r: Explanation, e: Explanation, i: nat, health: Option<Eligibility>) {
    && i < |e.candidates|
    && exists a :: 0 <= a < |r.candidates| && a <= i
         && r.candidates[a] == e.candidates[i].(rank := a + 1, selected := a == 0, health := health)
  }

  /** The key is no longer ranked and has been added to the excluded ones with this evidence. */
  predicate MovesOut(r: Explanation, e: Explanation, key: Key, health: Eligibility) {
    && (forall a :: 0 <= a < |r.candidates| ==> r.candidates[a].key != key)
    && exists j :: |e.excluded| <= j < |r.excluded| && r.excluded[j] == Exclusion(key, health)
  }

  /**
   * The updates decide. A candidate with new evidence leaves the ranking for the excluded ones
   * when it is refused and carries the new evidence when it is not; a candidate without new
   * evidence stays as it was.
   */
  lemma UpdatesDecide(e: Explanation, updates: map<Key, Eligibility>, i: nat)
    requires ConsistentLists(e.candidates, e.excluded) && i < |e.candidates|
    ensures
      var r, item := Rewritten(e, updates), e.candidates[i];
      && (item.key in updates && !updates[item.key].eligible ==> MovesOut(r, e, item.key, updates[item.key]))
      && (item.key in updates && updates[item.key].eligible ==> StaysAs(r, e, i, Some(updates[item.key])))
      && (item.key !in updates ==> StaysAs(r, e, i, item.health))
  {
    var r, item, n := Rewritten(e, updates), e.candidates[i], |e.candidates|;
    var alive, dead := Positions(e.candidates, updates, true, n), Positions(e.candidates, updates, false, n);
    if item.key in updates && !updates[item.key].eligible {
      var b := PositionsComplete(e.candidates, updates, false, n, i);
      assert r.excluded[|e.excluded| + b] == Exclusion(item.key, updates[item.key]);
      forall a | 0 <= a < |r.candidates| ensures r.candidates[a].key != item.key {
        assert Survives(e.candidates[alive[a]], updates);
      }
    } else {
      var a := PositionsComplete(e.candidates, updates, true, n, i);
      PositionsIncrease(e.candidates, updates, true, n);
      IncreasingIsAbove(alive, a);
      assert r.candidates[a].rank == a + 1;
    }
  }

  lemma {:induction false} IncreasingIsAbove(p: seq<nat>, a: nat)
    requires Increasing(p) && a < |p|
    ensures a <= p[a]
  {
    if a > 0 { IncreasingIsAbove(p, a - 1); }
  }

  /** Whatever is newly excluded was ranked and is refused by its new evidence. */
  lemma OnlyRefusedMoveOut(e: Explanation, updates: map<Key, Eligibility>, j: nat)
    requires ConsistentLists(e.candidates, e.excluded)
    requires |e.excluded| <= j < |Rewritten(e, updates).excluded|
    ensures
      var x := Rewritten(e, updates).excluded[j];
      && x.key in updates && !updates[x.key].eligible && x.health == updates[x.key]
      && exists i :: 0 <= i < |e.candidates| && e.candidates[i].key == x.key
  {
    var dead := Positions(e.candidates, updates, false, |e.candidates|);
    var i := dead[j - |e.excluded|];
    assert !Survives(e.candidates[i], updates);
    assert Rewritten(e, updates).excluded[j].key == e.candidates[i].key;
  }

  predicate DistinctKeys(s: seq<Key>) {
    forall i, j :: 0 <= i < j < |s| ==> s[i] != s[j]
  }

  ghost predicate Picks(keys: seq<Key>, p: seq<nat>, picked: seq<Key>) {
    Increasing(p) && |picked| == |p| && forall a :: 0 <= a < |p| ==> p[a] < |keys| && picked[a] == keys[p[a]]
  }

  lemma PickedDistinct(keys: seq<Key>, p: seq<nat>, picked: seq<Key>)
    requires DistinctKeys(keys) && Picks(keys, p, picked)
    ensures DistinctKeys(picked)
  {
  }

  lemma PickedDisjoint(keys: seq<Key>, p: seq<nat>, picked: seq<Key>, q: seq<nat>, others: seq<Key>)
    requires DistinctKeys(keys) && Picks(keys, p, picked) && Picks(keys, q, others)
    requires forall a, b :: 0 <= a < |p| && 0 <= b < |q| ==> p[a] != q[b]
    ensures DisjointKeys(picked, others)
  {
  }

  lemma AppendedDistinct(s: seq<Key>, t: seq<Key>)
    requires DistinctKeys(s) && DistinctKeys(t) && DisjointKeys(t, s)
    ensures DistinctKeys(s + t)
  {
  }

  /** The rewrite splits the candidate keys into kept ones and newly excluded ones. */
  lemma RewriteSplitsKeys(e: Explanation, updates: map<Key, Eligibility>) returns (kept: seq<Key>, dropped: seq<Key>)
    requires DistinctSignals(e.candidates)
    ensures kept == SignalKeys(Rewritten(e, updates).candidates)
    ensures ExclusionKeys(e.excluded) + dropped == ExclusionKeys(Rewritten(e, updates).excluded)
    ensures DistinctKeys(kept) && DistinctKeys(dropped) && DisjointKeys(kept, dropped)
    ensures forall a :: 0 <= a < |kept| ==> kept[a] in SignalKeys(e.candidates)
    ensures forall b :: 0 <= b < |dropped| ==> dropped[b] in SignalKeys(e.candidates)
  {
    var n, keys := |e.candidates|, SignalKeys(e.candidates);
    var alive, dead := Positions(e.candidates, updates, true, n), Positions(e.candidates, updates, false, n);
    PositionsIncrease(e.candidates, updates, true, n);
    PositionsIncrease(e.candidates, updates, false, n);
    kept := SignalKeys(Kept(e.candidates, updates, n));
    dropped := ExclusionKeys(Dropped(e.candidates, updates, n));
    PickedDistinct(keys, alive, kept);
    PickedDistinct(keys, dead, dropped);
    PickedDisjoint(keys, alive, kept, dead, dropped);
  }

  lemma RewriteKeysDistinct(e: Explanation, updates: map<Key, Eligibility>)
    requires DistinctSignals(e.candidates) && DistinctExclusions(e.excluded)
    requires DisjointKeys(SignalKeys(e.candidates), ExclusionKeys(e.excluded))
    ensures
      var r := Rewritten(e, updates);
      && DistinctSignals(r.candidates) && DistinctExclusions(r.excluded)
      && DisjointKeys(SignalKeys(r.candidates), ExclusionKeys(r.excluded))
  {
    var kept, dropped := RewriteSplitsKeys(e, updates);
    var before := ExclusionKeys(e.excluded);
    assert DisjointKeys(dropped, before);
    AppendedDistinct(before, dropped);
    SignalKeysDistinct(Rewritten(e, updates).candidates, kept);
    ExclusionKeysDistinct(Rewritten(e, updates).excluded, before + dropped);
  }

  ghost function KeySet(keys: seq<Key>): set<Key> {
    set k | k in keys
  }

  /** Keys are distinct exactly when there are as many as positions. */
  lemma {:induction false} DistinctCount(keys: seq<Key>)
    ensures |KeySet(keys)| <= |keys| && (|KeySet(keys)| == |keys| <==> DistinctKeys(keys))
  {
    if keys != [] {
      var n := |keys| - 1;
      var front := keys[..n];
      DistinctCount(front);
      assert keys == front + [keys[n]];
      assert KeySet(keys) == KeySet(front) + {keys[n]};
      LastKeyDistinct(keys);
    }
  }

  lemma LastKeyDistinct(keys: seq<Key>)
    requires keys != []
    ensures
      var n := |keys| - 1;
      DistinctKeys(keys) <==> DistinctKeys(keys[..n]) && keys[n] !in keys[..n]
  {
    var n := |keys| - 1;
    var front := keys[..n];
    if DistinctKeys(front) && keys[n] !in front {
      forall i, j | 0 <= i < j < |keys| ensures keys[i] != keys[j] {
        assert keys[i] == front[i];
      }
    }
  }

  lemma ConcatDistinct(a: seq<Key>, b: seq<Key>)
    ensures DistinctKeys(a + b) <==> DistinctKeys(a) && DistinctKeys(b) && DisjointKeys(a, b)
  {
    var c := a + b;
    if DistinctKeys(c) {
      forall i, j | 0 <= i < j < |a| ensures a[i] != a[j] { assert c[i] != c[j]; }
      forall i, j | 0 <= i < j < |b| ensures b[i] != b[j] { assert c[|a| + i] != c[|a| + j]; }
      forall i, j | 0 <= i < |a| && 0 <= j < |b| ensures a[i] != b[j] { assert c[i] != c[|a| + j]; }
    }
  }

  /** No key stands twice in the two lists exactly when they have as many keys as entries. */
  lemma KeysCountEntries(e: Explanation)
    ensures |RankedKeys(e) + ExcludedKeys(e)| == |e.candidates| + |e.excluded| <==>
              && DistinctSignals(e.candidates) && DistinctExclusions(e.excluded)
              && DisjointKeys(SignalKeys(e.candidates), ExclusionKeys(e.excluded))
  {
    var a, b := SignalKeys(e.candidates), ExclusionKeys(e.excluded);
    DistinctCount(a + b);
    ConcatDistinct(a, b);
    assert KeySet(a) == RankedKeys(e) && KeySet(b) == ExcludedKeys(e);
    assert KeySet(a + b) == KeySet(a) + KeySet(b);
    forall i, j | 0 <= i < j < |a| ensures a[i] == a[j] <==> e.candidates[i].key == e.candidates[j].key {}
    forall i, j | 0 <= i < j < |b| ensures b[i] == b[j] <==> e.excluded[i].key == e.excluded[j].key {}
  }

  /**
   * What the validator demands: as many keys as entries in both lists together, eligible
   * candidates and refused exclusions, candidates numbered from one with the first one
   * selected, and a server named by provider and model or not at all, only if one is ranked.
   */
  lemma {:induction false} ValidExactly(e: Explanation)
    ensures ValidExplanation(e) <==>
              && |RankedKeys(e) + ExcludedKeys(e)| == |e.candidates| + |e.excluded|
              && (forall c <- e.candidates :: c.health.Some? ==> c.health.value.eligible)
              && (forall x <- e.excluded :: !x.health.eligible)
              && (forall i :: 0 <= i < |e.candidates| ==> e.candidates[i].rank - 1 == i)
              && (forall i :: 0 <= i < |e.candidates| ==> (e.candidates[i].selected <==> i < 1))
              && e.selected == (if |e.candidates| > 0 then Some(e.candidates[0]) else None)
              && e.selectedProvider == (if e.selected.Some? then Some(e.selected.value.key.provider) else None)
              && e.selectedModel == (if e.selected.Some? then Some(e.selected.value.key.model) else None)
              && (e.servedProvider.Some? <==> e.servedModel.Some?)
              && (e.servedProvider.Some? ==> |e.candidates| > 0)
  {
    KeysCountEntries(e);
  }

  lemma SignalKeysDistinct(s: seq<Signal>, keys: seq<Key>)
    requires keys == SignalKeys(s) && DistinctKeys(keys)
    ensures DistinctSignals(s)
  {
  }

  lemma ExclusionKeysDistinct(s: seq<Exclusion>, keys: seq<Key>)
    requires keys == ExclusionKeys(s) && DistinctKeys(keys)
    ensures DistinctExclusions(s)
  {
  }

  /** Kept candidates are not refused, dropped ones are, and the lists stay disjoint. */
  lemma RewriteKeepsLists(e: Explanation, updates: map<Key, Eligibility>)
    requires ConsistentLists(e.candidates, e.excluded)
    ensures var r := Rewritten(e, updates); ConsistentLists(r.candidates, r.excluded)
  {
    RewriteKeysDistinct(e, updates);
  }

  lemma SomeSurvivor(e: Explanation, updates: map<Key, Eligibility>)
    ensures Rewritten(e, updates).candidates != [] <==>
              exists i :: 0 <= i < |e.candidates| && Survives(e.candidates[i], updates)
  {
    var n := |e.candidates|;
    if i :| 0 <= i < n && Survives(e.candidates[i], updates) {
      var a := PositionsComplete(e.candidates, updates, true, n, i);
    }
    var p := Positions(e.candidates, updates, true, n);
    if p != [] { assert Survives(e.candidates[p[0]], updates); }
  }

  /**
   * Exactly when the rewrite of a valid explanation is valid again: some candidate survives,
   * or nothing had been served. Before serving, it always is.
   */
  lemma RewriteValidExactlyWhen(e: Explanation, updates: map<Key, Eligibility>)
    requires ValidExplanation(e)
    ensures ValidExplanation(Rewritten(e, updates)) <==>
              (e.servedProvider.None? && e.servedModel.None?)
              || exists i :: 0 <= i < |e.candidates| && Survives(e.candidates[i], updates)
  {
    RewriteKeepsLists(e, updates);
    SomeSurvivor(e, updates);
  }

  /** Applying the same updates again changes nothing. */
  lemma RewriteIdempotent(e: Explanation, updates: map<Key, Eligibility>)
    ensures Rewritten(Rewritten(e, updates), updates) == Rewritten(e, updates)
  {
    var r := Rewritten(e, updates);
    assert forall i :: 0 <= i < |r.candidates| ==> Survives(r.candidates[i], updates);
    AllAlive(r.candidates, updates, |r.candidates|);
    assert Kept(r.candidates, updates, |r.candidates|) == r.candidates;
    assert r.excluded + [] == r.excluded;
  }

  lemma {:induction false} AllAlive(items: seq<Signal>, updates: map<Key, Eligibility>, n: nat)
    requires n <= |items| && forall i :: 0 <= i < n ==> Survives(items[i], updates)
    ensures Positions(items, updates, false, n) == []
    ensures |Positions(items, updates, true, n)| == n
    ensures forall a :: 0 <= a < n ==> Positions(items, updates, true, n)[a] == a
  {
    if n > 0 { AllAlive(items, updates, n - 1); }
  }

  /** A valid nonempty explanation can always be marked as served. */
  lemma ServingKeepsValidity(e: Explanation, key: Key)
    requires ValidExplanation(e)
    ensures WithServedBy(e, key).Ok? <==> e.candidates != []
  {
  }
}
