/**
 * The account of one request: which candidates were called, what is logged, how it ends, and
 * what becomes of its explanation, as functions of the turns it took in rank order. The loop
 * that takes the turns is GatewayService.Complete.
 */
module Fallback {
  import opened Common
  import opened Circuit
  import opened Explanation

  /** How a provider call ends for the loop. */
  datatype Reply =
    | ErrorRaised             // a third-party adapter's error; fallback continues
    | OutcomeFailed
    | OutcomeSucceeded
    | OutcomeWithoutResponse  // a "successful" outcome with nothing in it: an error escapes
    | BareResponse            // what an older adapter returns
    | Escaped                 // any other exception, or cancellation

  /**
   * One candidate: the evidence at its admission, recorded only for automatic requests of a
   * gateway with a probe coordinator, and what its provider replies if it is called.
   */
  datatype Turn = Turn(evidence: Option<Eligibility>, reply: Reply)

  /** Refused at admission: the provider is not called. */
  predicate Skipped(t: Turn) {
    Refused(t.evidence)
  }

  datatype AttemptLog = AttemptLog(key: Key, score: real, success: bool)

  datatype RequestLog = RequestLog(success: bool, selected: Option<Key>, attempts: seq<AttemptLog>)

  datatype Ending =
    | NoProviderAvailable
    | AllProvidersFailed
    | Served(index: nat, attempts: nat)
    | Propagated(index: nat)

  datatype Trace = Trace(
    ending: Ending,
    calls: seq<nat>,             // candidates whose provider was called
    recorded: seq<nat>,          // attempt indices written to the metrics store
    attempts: seq<AttemptLog>,
    updates: map<Key, Eligibility>,
    routing: Option<Explanation>,
    logged: Option<RequestLog>,
    decision: Option<Explanation>)

  predicate Serves(t: Turn) {
    !Skipped(t) && (t.reply == OutcomeSucceeded || t.reply == BareResponse)
  }

  predicate Stops(t: Turn) {
    Serves(t) || (!Skipped(t) && (t.reply == OutcomeWithoutResponse || t.reply == Escaped))
  }

  predicate GivesOutcome(t: Turn) {
    !Skipped(t) && (t.reply == OutcomeFailed || t.reply == OutcomeSucceeded || t.reply == OutcomeWithoutResponse)
  }

  /** The first turn that ends the request, or the number of turns. */
  function StopAt(turns: seq<Turn>): (n: nat)
    ensures n <= |turns|
    ensures n < |turns| ==> Stops(turns[n])
    ensures forall i :: 0 <= i < n ==> !Stops(turns[i])
  {
    if turns == [] then 0
    else if Stops(turns[0]) then 0
    else 1 + StopAt(turns[1..])
  }

  /** How many turns a request takes. */
  function Seen(turns: seq<Turn>): nat {
    if StopAt(turns) < |turns| then StopAt(turns) + 1 else StopAt(turns)
  }

  /** What a turn leaves behind: a provider call, or a recorded attempt. */
  datatype Mark = Called | Recorded

  predicate Marks(m: Mark, t: Turn) {
    if m == Called then !Skipped(t) else GivesOutcome(t)
  }

  /** The positions among the first `n` turns that leave the mark, in order. */
  function Where(turns: seq<Turn>, m: Mark, n: nat): (p: seq<nat>)
    requires n <= |turns|
    ensures forall a :: 0 <= a < |p| ==> p[a] < n && Marks(m, turns[p[a]])
  {
    if n == 0 then []
    else
      var front := Where(turns, m, n - 1);
      if Marks(m, turns[n - 1]) then front + [n - 1] else front
  }

  lemma {:induction false} WhereIncreases(turns: seq<Turn>, m: Mark, n: nat)
    requires n <= |turns|
    ensures Increasing(Where(turns, m, n))
  {
    if n > 0 { WhereIncreases(turns, m, n - 1); }
  }

  lemma {:induction false} WhereFinds(turns: seq<Turn>, m: Mark, n: nat, i: nat)
    requires i < n <= |turns| && Marks(m, turns[i])
    ensures i in Where(turns, m, n)
  {
    if i < n - 1 { WhereFinds(turns, m, n - 1, i); }
  }

  lemma {:induction false} WhereMeaning(turns: seq<Turn>, m: Mark, n: nat)
    requires n <= |turns|
    ensures Increasing(Where(turns, m, n))
    ensures forall i :: i in Where(turns, m, n) <==> 0 <= i < n && Marks(m, turns[i])
  {
    WhereIncreases(turns, m, n);
    forall i | 0 <= i < n && Marks(m, turns[i]) ensures i in Where(turns, m, n) {
      WhereFinds(turns, m, n, i);
    }
  }

  function Failed(item: Signal): AttemptLog {
    AttemptLog(item.key, item.finalScore, false)
  }

  function FailureLogs(ranked: seq<Signal>, turns: seq<Turn>, n: nat): seq<AttemptLog>
    requires n <= |turns| <= |ranked|
  {
    if n == 0 then []
    else
      var front := FailureLogs(ranked, turns, n - 1);
      if Skipped(turns[n - 1]) then front
      else front + [Failed(ranked[n - 1])]
  }

  lemma {:induction false} FailureLogAt(ranked: seq<Signal>, turns: seq<Turn>, n: nat, a: nat)
    requires n <= |turns| <= |ranked| && a < |Where(turns, Called, n)|
    ensures
      var logs, i := FailureLogs(ranked, turns, n), Where(turns, Called, n)[a];
      |logs| == |Where(turns, Called, n)| && logs[a] == Failed(ranked[i])
  {
    FailureLogCount(ranked, turns, n - 1);
    var front, calls := FailureLogs(ranked, turns, n - 1), Where(turns, Called, n - 1);
    if a < |calls| {
      FailureLogAt(ranked, turns, n - 1, a);
    } else {
      assert Where(turns, Called, n) == calls + [n - 1];
      assert FailureLogs(ranked, turns, n) == front + [Failed(ranked[n - 1])];
    }
  }

  lemma {:induction false} FailureLogCount(ranked: seq<Signal>, turns: seq<Turn>, n: nat)
    requires n <= |turns| <= |ranked|
    ensures |FailureLogs(ranked, turns, n)| == |Where(turns, Called, n)|
  {
    if n > 0 { FailureLogCount(ranked, turns, n - 1); }
  }

  /** One failure entry per called candidate, in call order. */
  lemma {:induction false} FailureLogsMatchCalls(ranked: seq<Signal>, turns: seq<Turn>, n: nat)
    requires n <= |turns| <= |ranked|
    ensures
      var logs, calls := FailureLogs(ranked, turns, n), Where(turns, Called, n);
      && |logs| == |calls|
      && forall a :: 0 <= a < |logs| ==> logs[a] == Failed(ranked[calls[a]])
  {
    var logs, calls := FailureLogs(ranked, turns, n), Where(turns, Called, n);
    FailureLogCount(ranked, turns, n);
    forall a | 0 <= a < |logs| ensures logs[a] == Failed(ranked[calls[a]]) {
      FailureLogAt(ranked, turns, n, a);
    }
  }

  function EvidenceMap(ranked: seq<Signal>, turns: seq<Turn>, n: nat): map<Key, Eligibility>
    requires n <= |turns| <= |ranked|
  {
    if n == 0 then map[]
    else
      var front := EvidenceMap(ranked, turns, n - 1);
      if turns[n - 1].evidence.Some? then front[ranked[n - 1].key := turns[n - 1].evidence.value] else front
  }

  lemma {:induction false} EvidenceMapAt(ranked: seq<Signal>, turns: seq<Turn>, n: nat, i: nat)
    requires i < n <= |turns| <= |ranked| && DistinctSignals(ranked)
    ensures ranked[i].key in EvidenceMap(ranked, turns, n) <==> turns[i].evidence.Some?
    ensures turns[i].evidence.Some? ==> EvidenceMap(ranked, turns, n)[ranked[i].key] == turns[i].evidence.value
  {
    if i == n - 1 {
      EvidenceMapOnlySeen(ranked, turns, n - 1, i);
    } else {
      EvidenceMapAt(ranked, turns, n - 1, i);
      assert ranked[i].key != ranked[n - 1].key;
    }
  }

  lemma {:induction false} EvidenceMapOnlySeen(ranked: seq<Signal>, turns: seq<Turn>, n: nat, i: nat)
    requires n <= i < |turns| <= |ranked| && DistinctSignals(ranked)
    ensures ranked[i].key !in EvidenceMap(ranked, turns, n)
  {
    if n > 0 {
      EvidenceMapOnlySeen(ranked, turns, n - 1, i);
      assert ranked[n - 1].key != ranked[i].key;
    }
  }

  /** A request starts from a ranking and its matching, unserved explanation. */
  predicate FreshRouting(ranked: seq<Signal>, routing: Option<Explanation>) {
    && DistinctSignals(ranked)
    && (routing.Some? ==>
          && ValidExplanation(routing.value)
          && routing.value.candidates == ranked
          && routing.value.servedProvider.None? && routing.value.servedModel.None?)
  }

  /**
   * A candidate whose provider was called is never dropped from the explanation by the
   * evidence collected up to then.
   */
  lemma {:induction false} CalledCandidateStaysRanked(ranked: seq<Signal>, routing: Explanation, turns: seq<Turn>,
                                                      n: nat, i: nat)
    requires i < n <= |turns| <= |ranked| && FreshRouting(ranked, Some(routing))
    requires !Skipped(turns[i])
    ensures
      var r := Rewritten(routing, EvidenceMap(ranked, turns, n));
      && ValidExplanation(r) && r.candidates != []
      && exists a :: 0 <= a < |r.candidates| && r.candidates[a].key == ranked[i].key
  {
    var updates := EvidenceMap(ranked, turns, n);
    EvidenceMapAt(ranked, turns, n, i);
    assert Survives(ranked[i], updates);
    RewriteValidExactlyWhen(routing, updates);
    var a := PositionsComplete(ranked, updates, true, |ranked|, i);
    assert Rewritten(routing, updates).candidates[a].key == ranked[i].key;
  }

  /** The explanation after the collected evidence and, if any, the serving candidate are noted. */
  function Explained(routing: Option<Explanation>, updates: map<Key, Eligibility>,
                     served: Option<Key>): Option<Explanation> {
    if routing.None? then None
    else
      var r := Rewritten(routing.value, updates);
      Some(if served.None? then r
           else r.(servedProvider := Some(served.value.provider), servedModel := Some(served.value.model)))
  }

  /** `served` is the position of the candidate that answered, if any. */
  predicate Concluded(ranked: seq<Signal>, routing: Option<Explanation>, turns: seq<Turn>, served: Option<nat>)
  {
    && |turns| <= |ranked| && FreshRouting(ranked, routing)
    && (served.Some? ==> served.value == StopAt(turns) < |turns|)
  }

  lemma {:induction false} ConclusionIsValid(ranked: seq<Signal>, routing: Explanation, turns: seq<Turn>,
                                             served: Option<nat>)
    requires Concluded(ranked, Some(routing), turns, served)
    ensures
      var r := Rewritten(routing, EvidenceMap(ranked, turns, Seen(turns)));
      ValidExplanation(r) && (served.Some? ==> r.candidates != [])
  {
    if served.Some? {
      CalledCandidateStaysRanked(ranked, routing, turns, Seen(turns), served.value);
    } else {
      RewriteValidExactlyWhen(routing, EvidenceMap(ranked, turns, Seen(turns)));
    }
  }

  /** The explanation is rewritten with the evidence, without a validation error, and notes who served. */
  method Explain(ranked: seq<Signal>, routing: Option<Explanation>, ghost turns: seq<Turn>,
                 updates: map<Key, Eligibility>, served: Option<nat>)
    returns (r: Option<Explanation>)
    requires Concluded(ranked, routing, turns, served) && updates == EvidenceMap(ranked, turns, Seen(turns))
    ensures r == Explained(routing, updates, if served.Some? then Some(ranked[served.value].key) else None)
    ensures r.Some? ==> ValidExplanation(r.value)
  {
    if routing.None? {
      return None;
    }
    ConclusionIsValid(ranked, routing.value, turns, served);
    var rewritten := WithHealthUpdates(routing.value, updates);
    if served.None? {
      return Some(rewritten.value);
    }
    ServingKeepsValidity(rewritten.value, ranked[served.value].key);
    return Some(WithServedBy(rewritten.value, ranked[served.value].key).value);
  }

  predicate EndsWithin(ending: Ending, n: nat) {
    ending.Served? ==> ending.index < n
  }

  /** The explanation at the end: untouched by an escaping exception, rewritten otherwise. */
  function EndRouting(ranked: seq<Signal>, routing: Option<Explanation>, ending: Ending,
                      updates: map<Key, Eligibility>): Option<Explanation>
    requires EndsWithin(ending, |ranked|)
  {
    if ending.Propagated? then routing
    else Explained(routing, updates, if ending.Served? then Some(ranked[ending.index].key) else None)
  }

  /** The request log: one for a served request, one for a request that failed everywhere, none otherwise. */
  function EndLog(ranked: seq<Signal>, ending: Ending, attempts: seq<AttemptLog>): Option<RequestLog>
    requires EndsWithin(ending, |ranked|)
  {
    match ending
    case Served(i, _) => Some(RequestLog(true, Some(ranked[i].key), attempts))
    case AllProvidersFailed => Some(RequestLog(false, None, attempts))
    case _ => None
  }

  /** How a request ends after its turns: by the first ending reply, or by whether anything was called. */
  function EndingOf(ranked: seq<Signal>, turns: seq<Turn>): Ending
    requires |turns| <= |ranked|
  {
    var stop := StopAt(turns);
    if stop < |turns| then
      if Serves(turns[stop]) then Served(stop, |AttemptsOf(ranked, turns)|) else Propagated(stop)
    else if Where(turns, Called, |turns|) == [] then NoProviderAvailable
    else AllProvidersFailed
  }

  /** The request's own log: a failure per failed call, and the success that ended it. */
  function AttemptsOf(ranked: seq<Signal>, turns: seq<Turn>): seq<AttemptLog>
    requires |turns| <= |ranked|
  {
    var stop := StopAt(turns);
    if stop < |turns| && Serves(turns[stop]) then
      FailureLogs(ranked, turns, stop) + [AttemptLog(ranked[stop].key, ranked[stop].finalScore, true)]
    else FailureLogs(ranked, turns, stop)
  }

  /** The turns are all a request takes: it goes on exactly until a reply ends it. */
  predicate Finished(ranked: seq<Signal>, turns: seq<Turn>) {
    |turns| <= |ranked| && Seen(turns) == |turns| && (StopAt(turns) == |turns| ==> |turns| == |ranked|)
  }

  /** What a request leaves behind, calls and log included. */
  predicate Accounts(t: Trace, ranked: seq<Signal>, routing: Option<Explanation>, turns: seq<Turn>) {
    && Finished(ranked, turns)
    && t.calls == Where(turns, Called, |turns|) && t.recorded == Where(turns, Recorded, |turns|)
    && t.updates == EvidenceMap(ranked, turns, |turns|)
    && t.attempts == AttemptsOf(ranked, turns)
    && t.ending == EndingOf(ranked, turns)
    && t.routing == EndRouting(ranked, routing, t.ending, t.updates)
    && t.logged == EndLog(ranked, t.ending, t.attempts)
    && t.decision == if t.ending.Served? || t.ending.AllProvidersFailed? then t.routing else None
  }

  // ----- one turn at a time ------------------------------------------------------------------

  lemma {:induction false} WhereGrows(turns: seq<Turn>, t: Turn, m: Mark, n: nat)
    requires n <= |turns|
    ensures Where(turns + [t], m, n) == Where(turns, m, n)
  {
    if n > 0 { WhereGrows(turns, t, m, n - 1); }
  }

  lemma {:induction false} LogsGrow(ranked: seq<Signal>, turns: seq<Turn>, t: Turn, n: nat)
    requires n <= |turns| < |ranked|
    ensures FailureLogs(ranked, turns + [t], n) == FailureLogs(ranked, turns, n)
  {
    if n > 0 { LogsGrow(ranked, turns, t, n - 1); }
  }

  lemma {:induction false} EvidenceGrows(ranked: seq<Signal>, turns: seq<Turn>, t: Turn, n: nat)
    requires n <= |turns| < |ranked|
    ensures EvidenceMap(ranked, turns + [t], n) == EvidenceMap(ranked, turns, n)
  {
    if n > 0 { EvidenceGrows(ranked, turns, t, n - 1); }
  }

  lemma {:induction false} StopGrows(turns: seq<Turn>, t: Turn)
    requires StopAt(turns) == |turns|
    ensures StopAt(turns + [t]) == if Stops(t) then |turns| else |turns| + 1
  {
    var more, k := turns + [t], StopAt(turns + [t]);
    assert more[|turns|] == t;
    assert forall i :: 0 <= i < |turns| ==> more[i] == turns[i];
  }

  /** What one more turn adds to calls, records, evidence and failures. */
  lemma {:induction false} TurnTaken(ranked: seq<Signal>, turns: seq<Turn>, t: Turn)
    requires |turns| < |ranked| && StopAt(turns) == |turns|
    ensures
      var n, more := |turns|, turns + [t];
      && StopAt(more) == (if Stops(t) then n else n + 1) && Seen(more) == n + 1
      && (forall m :: Where(more, m, n + 1) == if Marks(m, t) then Where(turns, m, n) + [n] else Where(turns, m, n))
      && EvidenceMap(ranked, more, n + 1)
           == (if t.evidence.Some? then EvidenceMap(ranked, turns, n)[ranked[n].key := t.evidence.value]
               else EvidenceMap(ranked, turns, n))
      && FailureLogs(ranked, more, n) == FailureLogs(ranked, turns, n)
      && FailureLogs(ranked, more, n + 1)
           == (if Skipped(t) then FailureLogs(ranked, turns, n)
               else FailureLogs(ranked, turns, n) + [Failed(ranked[n])])
  {
    var n, more := |turns|, turns + [t];
    forall m ensures Where(more, m, n + 1) == if Marks(m, t) then Where(turns, m, n) + [n] else Where(turns, m, n) {
      WhereGrows(turns, t, m, n);
    }
    LogsGrow(ranked, turns, t, n);
    EvidenceGrows(ranked, turns, t, n);
    StopGrows(turns, t);
  }

  /** What the loop has gathered so far. */
  datatype Progress = Progress(
    calls: seq<nat>, recorded: seq<nat>, attempts: seq<AttemptLog>, updates: map<Key, Eligibility>)

  predicate Tracks(p: Progress, ranked: seq<Signal>, turns: seq<Turn>) {
    && |turns| <= |ranked|
    && p.calls == Where(turns, Called, |turns|) && p.recorded == Where(turns, Recorded, |turns|)
    && p.attempts == AttemptsOf(ranked, turns) && p.updates == EvidenceMap(ranked, turns, |turns|)
  }

  /** What one more turn adds to the log, and how it ends the request if it does. */
  lemma {:induction false} AttemptTaken(ranked: seq<Signal>, turns: seq<Turn>, t: Turn)
    requires |turns| < |ranked| && StopAt(turns) == |turns|
    ensures
      var n, more, attempts := |turns|, turns + [t], AttemptsOf(ranked, turns);
      && AttemptsOf(ranked, more)
           == (if Serves(t) then attempts + [AttemptLog(ranked[n].key, ranked[n].finalScore, true)]
               else if Skipped(t) || Stops(t) then attempts else attempts + [Failed(ranked[n])])
      && (Stops(t) ==>
            EndingOf(ranked, more) == if Serves(t) then Served(n, |AttemptsOf(ranked, more)|) else Propagated(n))
  {
    TurnTaken(ranked, turns, t);
    assert (turns + [t])[|turns|] == t;
  }

  /** What the loop has gathered after one more turn. */
  lemma {:induction false} TracksNext(p: Progress, q: Progress, ranked: seq<Signal>, turns: seq<Turn>, t: Turn)
    requires |turns| < |ranked| && StopAt(turns) == |turns| && Tracks(p, ranked, turns)
    requires q.calls == if Skipped(t) then p.calls else p.calls + [|turns|]
    requires q.recorded == if GivesOutcome(t) then p.recorded + [|turns|] else p.recorded
    requires q.updates ==
               if t.evidence.Some? then p.updates[ranked[|turns|].key := t.evidence.value] else p.updates
    requires q.attempts ==
               (if Serves(t) then p.attempts + [AttemptLog(ranked[|turns|].key, ranked[|turns|].finalScore, true)]
                else if Skipped(t) || Stops(t) then p.attempts else p.attempts + [Failed(ranked[|turns|])])
    ensures Tracks(q, ranked, turns + [t])
    ensures Stops(t) ==>
              EndingOf(ranked, turns + [t]) ==
              if Serves(t) then Served(|turns|, |q.attempts|) else Propagated(|turns|)
  {
    TurnTaken(ranked, turns, t);
    AttemptTaken(ranked, turns, t);
  }

  /** The loop body after an invocation: what is gathered, and the ending if the reply is one. */
  method TakeTurn(ranked: seq<Signal>, ghost turns: seq<Turn>, n: nat, turn: Turn, p: Progress)
    returns (q: Progress, ending: Option<Ending>)
    requires n == |turns| < |ranked| && StopAt(turns) == n && Tracks(p, ranked, turns)
    ensures Tracks(q, ranked, turns + [turn])
    ensures ending == if Stops(turn) then Some(EndingOf(ranked, turns + [turn])) else None
  {
    var item := ranked[n];
    q, ending := p, None;
    if turn.evidence.Some? {
      q := q.(updates := q.updates[item.key := turn.evidence.value]);
    }
    if Skipped(turn) {
      TracksNext(p, q, ranked, turns, turn);
      return;
    }
    q := q.(calls := q.calls + [n]);
    if GivesOutcome(turn) {
      q := q.(recorded := q.recorded + [n]);
    }
    if turn.reply == OutcomeFailed || turn.reply == ErrorRaised {
      q := q.(attempts := q.attempts + [Failed(item)]);
      TracksNext(p, q, ranked, turns, turn);
      return;
    }
    if turn.reply == OutcomeWithoutResponse || turn.reply == Escaped {
      TracksNext(p, q, ranked, turns, turn);
      return q, Some(Propagated(n));
    }
    q := q.(attempts := q.attempts + [AttemptLog(item.key, item.finalScore, true)]);
    TracksNext(p, q, ranked, turns, turn);
    ending := Some(Served(n, |q.attempts|));
  }

  /** The end of a request: the explanation is rewritten and the records are written. */
  method Conclude(ranked: seq<Signal>, routing: Option<Explanation>, ghost turns: seq<Turn>, ending: Ending,
                  p: Progress)
    returns (t: Trace)
    requires FreshRouting(ranked, routing) && Finished(ranked, turns)
    requires Tracks(p, ranked, turns) && ending == EndingOf(ranked, turns)
    ensures Accounts(t, ranked, routing, turns)
    ensures t.routing.Some? ==> ValidExplanation(t.routing.value)
  {
    match ending {
      case Propagated(_) =>
        t := Trace(ending, p.calls, p.recorded, p.attempts, p.updates, routing, None, None);
      case Served(n, _) =>
        var explained := Explain(ranked, routing, turns, p.updates, Some(n));
        t := Trace(ending, p.calls, p.recorded, p.attempts, p.updates, explained,
                   Some(RequestLog(true, Some(ranked[n].key), p.attempts)), explained);
      case NoProviderAvailable =>
        var explained := Explain(ranked, routing, turns, p.updates, None);
        t := Trace(ending, p.calls, p.recorded, p.attempts, p.updates, explained, None, None);
      case AllProvidersFailed =>
        var explained := Explain(ranked, routing, turns, p.updates, None);
        t := Trace(ending, p.calls, p.recorded, p.attempts, p.updates, explained,
                   Some(RequestLog(false, None, p.attempts)), explained);
    }
  }

  /** The log has one entry per call that did not break off, in call order. */
  lemma {:induction false} AttemptsFollowCalls(ranked: seq<Signal>, turns: seq<Turn>)
    requires Finished(ranked, turns)
    ensures
      var calls, attempts := Where(turns, Called, |turns|), AttemptsOf(ranked, turns);
      && |attempts| == |calls| - (if EndingOf(ranked, turns).Propagated? then 1 else 0)
      && forall a :: 0 <= a < |attempts| ==>
           attempts[a] ==
           AttemptLog(ranked[calls[a]].key, ranked[calls[a]].finalScore, Serves(turns[calls[a]]))
  {
    var stop := StopAt(turns);
    var calls, front := Where(turns, Called, |turns|), Where(turns, Called, stop);
    FailureLogsMatchCalls(ranked, turns, stop);
    assert calls == if stop < |turns| then front + [stop] else front;
    forall a | 0 <= a < |front| ensures !Serves(turns[front[a]]) {
      assert !Stops(turns[front[a]]);
    }
  }

  // ----- what the account means -------------------------------------------------

  /** A subsequence of the ranking is called, no key twice, and attempt indices strictly increase. */
  lemma {:induction false} CallsFollowTheRanking(ranked: seq<Signal>, turns: seq<Turn>)
    requires |turns| <= |ranked| && DistinctSignals(ranked)
    ensures
      var calls, recorded := Where(turns, Called, Seen(turns)), Where(turns, Recorded, Seen(turns));
      && Increasing(calls) && Increasing(recorded)
      && (forall a, b :: 0 <= a < b < |calls| ==> ranked[calls[a]].key != ranked[calls[b]].key)
      && (forall i :: i in recorded ==> i in calls)
  {
    var calls := Where(turns, Called, Seen(turns));
    WhereMeaning(turns, Called, Seen(turns));
    WhereMeaning(turns, Recorded, Seen(turns));
    forall a, b | 0 <= a < b < |calls| ensures ranked[calls[a]].key != ranked[calls[b]].key {
      assert calls[a] < calls[b];
    }
  }

  /** Before the ending reply, every called provider failed. */
  lemma {:induction false} CallsBeforeStopFailed(turns: seq<Turn>, i: nat)
    requires i in Where(turns, Called, Seen(turns)) && i < StopAt(turns)
    ensures turns[i].reply == OutcomeFailed || turns[i].reply == ErrorRaised
  {
    WhereMeaning(turns, Called, Seen(turns));
  }

  /**
   * Every call but the ending one failed, and the log has exactly one entry per such call;
   * with no ending reply, nothing was called exactly when every candidate was refused.
   */
  lemma {:induction false} EndingIsExhaustive(ranked: seq<Signal>, turns: seq<Turn>)
    requires |turns| <= |ranked|
    ensures
      var stop, calls := StopAt(turns), Where(turns, Called, Seen(turns));
      && (forall i :: i in calls && i < stop ==> turns[i].reply == OutcomeFailed || turns[i].reply == ErrorRaised)
      && (stop < |turns| ==> calls == Where(turns, Called, stop) + [stop])
      && |FailureLogs(ranked, turns, stop)| == |calls| - (if stop < |turns| then 1 else 0)
      && (stop == |turns| ==> (calls == [] <==> forall i :: 0 <= i < |turns| ==> Skipped(turns[i])))
  {
    var stop, calls := StopAt(turns), Where(turns, Called, Seen(turns));
    forall i | i in calls && i < stop ensures turns[i].reply == OutcomeFailed || turns[i].reply == ErrorRaised {
      CallsBeforeStopFailed(turns, i);
    }
    FailureLogsMatchCalls(ranked, turns, stop);
    if stop == |turns| { NothingCalledExactly(turns, |turns|); }
  }

  lemma {:induction false} NothingCalledExactly(turns: seq<Turn>, n: nat)
    requires n <= |turns|
    ensures Where(turns, Called, n) == [] <==> forall i :: 0 <= i < n ==> Skipped(turns[i])
  {
    var calls := Where(turns, Called, n);
    WhereMeaning(turns, Called, n);
    if calls == [] {
      forall i | 0 <= i < n ensures Skipped(turns[i]) {
        assert i !in calls;
      }
    } else {
      assert !Skipped(turns[calls[0]]);
    }
  }

  /**
   * The explanation of a served request is valid, names the serving candidate, and still ranks
   * it, whatever health evidence the earlier candidates collected.
   */
  lemma {:induction false} ServedCandidateIsRanked(ranked: seq<Signal>, routing: Explanation, turns: seq<Turn>)
    requires |turns| <= |ranked| && FreshRouting(ranked, Some(routing))
    requires StopAt(turns) < |turns| && Serves(turns[StopAt(turns)])
    ensures
      var key := ranked[StopAt(turns)].key;
      var e := Explained(Some(routing), EvidenceMap(ranked, turns, Seen(turns)), Some(key)).value;
      && ValidExplanation(e)
      && e.servedProvider == Some(key.provider) && e.servedModel == Some(key.model)
      && exists a :: 0 <= a < |e.candidates| && e.candidates[a].key == key
  {
    var stop := StopAt(turns);
    var r := Rewritten(routing, EvidenceMap(ranked, turns, Seen(turns)));
    CalledCandidateStaysRanked(ranked, routing, turns, stop + 1, stop);
    ServingKeepsValidity(r, ranked[stop].key);
    KeptCandidate(r, ranked[stop].key, ranked[stop].key);
  }

  lemma KeptCandidate(r: Explanation, key: Key, server: Key)
    requires exists a :: 0 <= a < |r.candidates| && r.candidates[a].key == key
    ensures
      var e := r.(servedProvider := Some(server.provider), servedModel := Some(server.model));
      exists a :: 0 <= a < |e.candidates| && e.candidates[a].key == key
  {
    var a :| 0 <= a < |r.candidates| && r.candidates[a].key == key;
    assert r.(servedProvider := Some(server.provider), servedModel := Some(server.model)).candidates[a].key == key;
  }

  /** A request that fails everywhere, or is refused everywhere, also ends with a valid explanation. */
  lemma {:induction false} UnservedExplanationIsValid(ranked: seq<Signal>, routing: Explanation, turns: seq<Turn>)
    requires |turns| <= |ranked| && FreshRouting(ranked, Some(routing))
    ensures ValidExplanation(Explained(Some(routing), EvidenceMap(ranked, turns, |turns|), None).value)
  {
    RewriteValidExactlyWhen(routing, EvidenceMap(ranked, turns, |turns|));
  }

  /**
   * What is written at the end: a request log and a decision exactly for a request that was
   * served or failed everywhere, the serving candidate in log and explanation, and the evidence
   * in the explanation unless an exception escaped.
   */
  lemma ReportsFollowEnding(t: Trace, ranked: seq<Signal>, routing: Option<Explanation>, turns: seq<Turn>)
    requires Accounts(t, ranked, routing, turns) && FreshRouting(ranked, routing)
    ensures t.logged.Some? <==> t.ending.Served? || t.ending.AllProvidersFailed?
    ensures t.logged.Some? ==> t.logged.value.attempts == t.attempts && (t.logged.value.success <==> t.ending.Served?)
    ensures t.logged.Some? ==>
              t.logged.value.selected == if t.ending.Served? then Some(ranked[t.ending.index].key) else None
    ensures t.decision.Some? <==> routing.Some? && t.logged.Some?
    ensures t.decision.Some? ==> t.decision == t.routing
    ensures t.ending.Propagated? ==> t.routing == routing
    ensures !t.ending.Propagated? && routing.Some? ==>
              && t.routing.Some?
              && t.routing.value.candidates == Rewritten(routing.value, t.updates).candidates
              && t.routing.value.excluded == Rewritten(routing.value, t.updates).excluded
              && t.routing.value.servedProvider ==
                 (if t.ending.Served? then Some(ranked[t.ending.index].key.provider) else None)
              && t.routing.value.servedModel ==
                 (if t.ending.Served? then Some(ranked[t.ending.index].key.model) else None)
  {
  }

  /** The evidence collected is that of each turn that had some. */
  lemma {:induction false} EvidenceOfTurns(ranked: seq<Signal>, turns: seq<Turn>, k: Key)
    requires |turns| <= |ranked| && DistinctSignals(ranked)
    ensures
      var updates := EvidenceMap(ranked, turns, |turns|);
      && (k in updates ==> exists i :: 0 <= i < |turns| && ranked[i].key == k && turns[i].evidence.Some?)
      && forall i :: 0 <= i < |turns| && ranked[i].key == k ==> Lookup(updates, k) == turns[i].evidence
  {
    EvidenceComesFromTurn(ranked, turns, |turns|, k);
    forall i | 0 <= i < |turns| && ranked[i].key == k
      ensures Lookup(EvidenceMap(ranked, turns, |turns|), k) == turns[i].evidence
    {
      EvidenceMapAt(ranked, turns, |turns|, i);
    }
  }

  lemma {:induction false} EvidenceComesFromTurn(ranked: seq<Signal>, turns: seq<Turn>, n: nat, k: Key)
    requires n <= |turns| <= |ranked|
    ensures k in EvidenceMap(ranked, turns, n) ==>
              exists i :: 0 <= i < n && ranked[i].key == k && turns[i].evidence.Some?
  {
    if n > 0 { EvidenceComesFromTurn(ranked, turns, n - 1, k); }
  }
}
