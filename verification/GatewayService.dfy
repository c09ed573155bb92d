/**
 * The gateway as one object: candidate invocations over the shared coordinator and health
 * manager, and the request loop over them. The provider call between `BeginInvocation` and
 * `FinishInvocation` is where other requests run. The service records its own history as an
 * execution of the transition system, so the theorems of GatewaySystem are about this object.
 */
module GatewayService {
  import opened Common
  import opened Circuit
  import opened CircuitHistory
  import opened HealthManager
  import opened Probes
  import opened GatewaySystem
  import opened Explanation
  import Fallback

  function LeaseOf(lease: ProbeLease?): Option<ProbeLease> {
    if lease == null then None else Some(lease)
  }

  // ----- what the world does -----------------------------------------------------------------

  /** What a provider call comes back with; `hasResponse` tells whether an outcome carries a response. */
  datatype Answer =
    | Outcome(delivery: Delivery, hasResponse: bool)
    | Bare
    | ProviderError
    | Crash
    | Cancel

  /** What an answer means for the invocation. */
  function CompletionOf(a: Answer): Completion {
    match a
    case Outcome(d, _) => Answered(d)
    case Bare => LegacyPayload
    case Cancel => Cancelled
    case _ => Raised
  }

  /** What the same answer means for the request loop. */
  function ReplyOf(a: Answer): Fallback.Reply {
    match a
    case Outcome(d, hasResponse) =>
      if d.outcome.verdict.Failed? then Fallback.OutcomeFailed
      else if hasResponse then Fallback.OutcomeSucceeded else Fallback.OutcomeWithoutResponse
    case Bare => Fallback.BareResponse
    case ProviderError => Fallback.ErrorRaised
    case _ => Fallback.Escaped
  }

  /** One step of another request, in its own invocation `id`. */
  datatype Move =
    | Begin(id: nat, key: Key, automatic: bool, now: Instant, readable: bool)
    | End(id: nat, answer: Answer, now: Instant)

  /** What happens around one candidate: clock and store readings, the answer, and other requests. */
  datatype World = World(
    before: seq<Move>, now: Instant, readable: bool,
    during: seq<Move>, answer: Answer, later: Instant)

  // ----- the recorded history ----------------------------------------------------------------

  /** `states` and `events` record how `s` came about; in order as long as the clock was `steady`. */
  ghost predicate Recorded(states: seq<System<ProbeLease>>, events: seq<Event<ProbeLease>>, steady: bool,
                           s: System<ProbeLease>, policy: Policy)
  {
    && |states| == |events| + 1 && states[|events|] == s
    && (steady ==> Reaches(states, events, s, policy))
  }

  /** Reading the clock and then taking a step extends the record by two events. */
  lemma RecordExtends(states: seq<System<ProbeLease>>, events: seq<Event<ProbeLease>>, s: System<ProbeLease>,
                      now: Instant, e: Event<ProbeLease>, t: System<ProbeLease>, policy: Policy)
    requires Reaches(states, events, s, policy) && s.clock <= now && Takes(s.(clock := now), e, t, policy)
    ensures Reaches(states + [s.(clock := now), t], events + [Tick(now), e], t, policy)
  {
    var u := s.(clock := now);
    StepIsReached(states, events, s, Tick(now), u, policy);
    StepIsReached(states + [u], events + [Tick(now)], u, e, t, policy);
    assert states + [u] + [t] == states + [u, t] && events + [Tick(now)] + [e] == events + [Tick(now), e];
  }

  /** Every lease in flight was issued for the key of its call. */
  ghost predicate OwnLeases(flights: map<nat, Flight<ProbeLease>>) {
    forall id :: Probing(flights, id) ==> flights[id].lease.value.key == flights[id].key
  }

  class GatewayService {
    const probes: HalfOpenProbeCoordinator
    const manager: ProviderHealthManager
    /** The invocations suspended in a provider call, as the event loop holds them. */
    var flights: map<nat, Flight<ProbeLease>>
    ghost var issued: set<ProbeLease>
    ghost var states: seq<System<ProbeLease>>
    ghost var events: seq<Event<ProbeLease>>
    /** The clock has never gone back and no outcome came from the future. */
    ghost var steady: bool

    constructor (manager: ProviderHealthManager, ghost now: Instant)
      ensures this.manager == manager && fresh(probes)
      ensures Valid() && flights == map[] && states == [System(now, manager.store, map[], {}, map[])]
      ensures steady <==> HealthInvariant(manager.store, now)
    {
      this.manager := manager;
      var coordinator := new HalfOpenProbeCoordinator();
      this.probes := coordinator;
      this.flights, this.issued := map[], {};
      this.events := [];
      this.states := [System(now, manager.store, map[], {}, map[])];
      this.steady := HealthInvariant(manager.store, now);
      new;
      if steady { StartIsReached(states[0], manager.policy); }
    }

    /** The service as a state of the transition system. */
    ghost function View(clock: Instant): System<ProbeLease>
      reads this, probes, manager
    {
      System(clock, manager.store, probes.leases, issued, flights)
    }

    /** The last clock reading. */
    ghost function Clock(): Instant
      reads this
      requires states != []
    {
      states[|states| - 1].clock
    }

    /** Claims and calls in flight match, and every lease was issued for its call's key. */
    ghost predicate Sound()
      reads this, probes
    {
      ClaimsMatch(probes.leases, issued, flights) && OwnLeases(flights)
    }

    ghost predicate Valid()
      reads this, probes, manager
    {
      states != [] && Recorded(states, events, steady, View(Clock()), manager.policy) && Sound()
    }

    /** Health is read again immediately before the call; a recovering circuit needs the key's lease. */
    method AdmitProbe(key: Key, now: Instant, readable: bool) returns (e: Eligibility, lease: ProbeLease?)
      modifies probes
      ensures e == AdmissionOf(old(View(now)), key, readable)
      ensures lease != null <==> e.probe
      ensures lease == null ==> probes.leases == old(probes.leases)
      ensures lease != null ==> fresh(lease) && lease.key == key && key !in old(probes.leases)
                                && probes.leases == Acquired(old(probes.leases), key, lease)
    {
      var evidence := Evidence(readable, Lookup(manager.store, key), now);
      if !evidence.eligible || evidence.state != Some(HalfOpen) {
        return evidence, null;
      }
      lease := probes.TryAcquire(key);
      e := Admission(evidence, lease == null);
    }

    /** The admission of a call, or the unconditional start of one for an explicit model. */
    method StartCall(id: nat, key: Key, automatic: bool, now: Instant, readable: bool)
      returns (evidence: Option<Eligibility>, lease: ProbeLease?)
      requires Sound() && id !in flights
      modifies this`flights, this`issued, probes
      ensures Sound()
      ensures evidence == if automatic then Some(AdmissionOf(old(View(now)), key, readable)) else None
      ensures lease != null ==> fresh(lease)
      ensures lease != null <==> evidence.Some? && evidence.value.probe
      ensures automatic ==> View(now) == Admitted(old(View(now)), id, key, readable, LeaseOf(lease))
      ensures !automatic ==> View(now) == old(View(now)).(flights := old(flights)[id := Flight(key, None)])
      ensures flights == if Refused(evidence) then old(flights) else old(flights)[id := Flight(key, LeaseOf(lease))]
    {
      ghost var claims, calls := probes.leases, flights;
      lease, evidence := null, None;
      if automatic {
        var e;
        e, lease := AdmitProbe(key, now, readable);
        evidence := Some(e);
        if !e.eligible {
          return;
        }
      }
      flights := flights[id := Flight(key, LeaseOf(lease))];
      if lease != null {
        issued := issued + {lease};
        ProbeKeepsClaims(claims, old(issued), calls, id, key, lease);
      } else {
        LeaseFreeCallKeepsClaims(claims, issued, calls, id, key);
      }
      assert forall i :: i != id ==> (Probing(flights, i) <==> Probing(calls, i));
    }

    /**
     * The part of an invocation before the provider call. `started` tells whether the provider
     * is called; an explicit model is never admitted through health.
     */
    method BeginInvocation(id: nat, key: Key, automatic: bool, now: Instant, readable: bool)
      returns (started: bool, evidence: Option<Eligibility>)
      requires Valid() && id !in flights
      modifies this, probes
      ensures Valid()
      ensures evidence == if automatic then Some(AdmissionOf(old(View(now)), key, readable)) else None
      ensures started <==> !Refused(evidence)
      ensures started ==> id in flights && flights == old(flights)[id := flights[id]] && flights[id].key == key
      ensures !started ==> flights == old(flights)
      ensures steady <==> old(steady) && old(Clock()) <= now
      ensures states == old(states) + [old(View(now)), View(now)]
      ensures events == old(events) + [Tick(now), events[|old(events)| + 1]]
      ensures Starts(events[|old(events)| + 1], id, key, automatic, readable)
    {
      ghost var before := View(now);
      var lease;
      evidence, lease := StartCall(id, key, automatic, now, readable);
      started := !Refused(evidence);
      ghost var e := if automatic then Admit(id, key, readable, LeaseOf(lease)) else StartExplicit(id, key);
      Note(now, e, before);
    }

    /** The end of a call, `finally` included: health is updated, the lease given back. */
    method EndCall(id: nat, completion: Completion)
      requires Sound() && id in flights
      modifies this`flights, probes, manager
      ensures Sound()
      ensures forall now :: View(now) == Completed(old(View(now)), id, completion, manager.policy)
      ensures flights == old(flights) - {id}
      ensures old(flights)[id].lease.Some? ==> probes.leases == old(probes.leases) - {old(flights)[id].key}
    {
      EndKeepsClaims(probes.leases, issued, flights, id);
      var call := flights[id];
      assert call.lease.Some? ==> Probing(flights, id);
      if completion.Answered? {
        var _ := manager.Update(completion.delivery);
      }
      if call.lease.Some? {
        probes.Release(call.lease.value);
      }
      flights := flights - {id};
      assert forall i :: Probing(flights, i) ==> Probing(old(flights), i);
      forall now ensures View(now) == Completed(old(View(now)), id, completion, manager.policy) {
        assert old(View(now)).flights == old(flights);
      }
    }

    /** The part after the provider call. */
    method FinishInvocation(id: nat, completion: Completion, ghost now: Instant)
      requires Valid() && id in flights
      modifies this, probes, manager
      ensures Valid()
      ensures View(now) == Completed(old(View(now)), id, completion, manager.policy)
      ensures flights == old(flights) - {id}
      ensures old(flights)[id].lease.Some? ==> probes.leases == old(probes.leases) - {old(flights)[id].key}
      ensures steady <==>
                && old(steady) && old(Clock()) <= now
                && (completion.Answered? ==> completion.delivery.outcome.finishedAt <= now)
      ensures states == old(states) + [old(View(now)), View(now)]
      ensures events == old(events) + [Tick(now), Event<ProbeLease>.Complete(id, completion)]
    {
      ghost var before := View(now);
      EndCall(id, completion);
      assert View(now) == Completed(before, id, completion, manager.policy);
      Note(now, Event<ProbeLease>.Complete(id, completion), before);
    }

    /** Records that the clock read `now` and that `e` led from `before` to the present state. */
    ghost method Note(now: Instant, e: Event<ProbeLease>, before: System<ProbeLease>)
      requires |states| == |events| + 1 && before == states[|events|].(clock := now)
      requires steady ==> Reaches(states, events, states[|events|], manager.policy)
      requires InTime(e, now) ==> Takes(before, e, View(now), manager.policy)
      modifies this`states, this`events, this`steady
      ensures states == old(states) + [before, View(now)] && events == old(events) + [Tick(now), e]
      ensures steady <==> old(steady) && old(Clock()) <= now && InTime(e, now)
      ensures Recorded(states, events, steady, View(now), manager.policy)
    {
      var last := states[|events|];
      steady := steady && last.clock <= now && InTime(e, now);
      if steady { RecordExtends(states, events, last, now, e, View(now), manager.policy); }
      states, events := states + [before, View(now)], events + [Tick(now), e];
    }

    // ----- one request among others ----------------------------------------------------------

    /** The invocation `mine` is left alone by other requests. */
    twostate predicate Untouched(mine: nat)
      reads this
    {
      && (mine in flights <==> mine in old(flights))
      && (mine in flights ==> flights[mine] == old(flights)[mine])
    }

    /** The record has grown, by no event of the invocation `mine`. */
    twostate predicate Aside(mine: nat)
      reads this
    {
      && old(states) <= states && old(events) <= events
      && Quiet(events, mine, |old(events)|, |events|)
    }

    /** One step of another request; a step that is not possible does not happen. */
    method Perform(m: Move, mine: nat)
      requires Valid()
      modifies this, probes, manager
      ensures Valid() && Untouched(mine) && Aside(mine)
    {
      if m.id == mine {
        return;
      }
      match m {
        case Begin(id, key, automatic, now, readable) =>
          if id !in flights {
            var _, _ := BeginInvocation(id, key, automatic, now, readable);
          }
        case End(id, answer, now) =>
          if id in flights {
            FinishInvocation(id, CompletionOf(answer), now);
          }
      }
    }

    /** Any number of steps of other requests. */
    method OthersRun(moves: seq<Move>, mine: nat)
      requires Valid()
      modifies this, probes, manager
      ensures Valid() && Untouched(mine) && Aside(mine)
    {
      for n := 0 to |moves|
        invariant Valid() && Untouched(mine) && Aside(mine)
      {
        Perform(moves[n], mine);
      }
    }

    /** The provider call of an invocation in flight: other requests run, then the answer is processed. */
    method CallProvider(id: nat, w: World)
      requires Valid() && id in flights
      modifies this, probes, manager
      ensures Valid() && id !in flights && old(states) <= states && old(events) <= events
      ensures |old(events)| < |events| && Quiet(events, id, |old(events)|, |events| - 1)
      ensures |states| == |events| + 1 && Finishes(events[|events| - 1], id, w.answer)
      ensures id in states[|events| - 1].flights
      ensures Processes(states[|events| - 1], states[|events|], w.answer, manager.policy)
    {
      OthersRun(w.during, id);
      FinishInvocation(id, CompletionOf(w.answer), w.later);
    }

    /**
     * One candidate invocation, with other requests running before it and while its provider
     * works: the recorded call of exactly this candidate, answered by exactly what its provider
     * returned, and the evidence and reply that make its turn.
     */
    method InvokeCandidate(id: nat, key: Key, automatic: bool, w: World)
      returns (turn: Fallback.Turn, ghost visit: Visit)
      requires Valid() && id !in flights
      modifies this, probes, manager
      ensures Valid() && id !in flights && old(states) <= states && old(events) <= events
      ensures Visited(turn, visit, id, key, automatic, w, states, events, manager.policy)
      ensures visit.from == |old(events)| && visit.to == |events|
    {
      ghost var from := |events|;
      OthersRun(w.before, id);
      ghost var at := |events| + 1;
      ghost var earlier := events;
      var started, evidence := BeginInvocation(id, key, automatic, w.now, w.readable);
      assert Quiet(events, id, from, at) by { QuietBefore(earlier, events, id, from, at - 1); }
      turn := Fallback.Turn(evidence, ReplyOf(w.answer));
      if started {
        CallProvider(id, w);
      }
      visit := Visit(from, at, |events|);
    }

    /** The invocation of the candidate after those already taken. */
    method InvokeNext(id: nat, ranked: seq<Signal>, automatic: bool, worlds: seq<World>, n: nat,
                      ghost turns: seq<Fallback.Turn>, ghost visits: seq<Visit>, ghost from: nat)
      returns (turn: Fallback.Turn, ghost visit: Visit)
      requires Valid() && id !in flights && |worlds| == |ranked|
      requires Taken(turns, visits, id, ranked, automatic, worlds, states, events, manager.policy)
      requires n == |turns| < |ranked| && Covers(visits, from, |events|)
      modifies this, probes, manager
      ensures Valid() && id !in flights && old(states) <= states && old(events) <= events
      ensures Taken(turns + [turn], visits + [visit], id, ranked, automatic, worlds, states, events, manager.policy)
      ensures Covers(visits + [visit], from, |events|)
    {
      turn, visit := InvokeCandidate(id, ranked[n].key, automatic, worlds[n]);
      TakenExtends(turns, visits, id, ranked, automatic, worlds, old(states), old(events), states, events, turn, visit,
                   manager.policy);
      CoversExtends(visits, from, |old(events)|, visit);
    }

    /** The fallback loop: candidates are invoked in rank order until a reply ends the request. */
    method TryCandidates(id: nat, ranked: seq<Signal>, automatic: bool, worlds: seq<World>)
      returns (ending: Fallback.Ending, progress: Fallback.Progress,
               ghost turns: seq<Fallback.Turn>, ghost visits: seq<Visit>)
      requires Valid() && id !in flights && |worlds| == |ranked|
      modifies this, probes, manager
      ensures Valid() && id !in flights && old(states) <= states && old(events) <= events
      ensures Taken(turns, visits, id, ranked, automatic, worlds, states, events, manager.policy)
      ensures Covers(visits, |old(events)|, |events|)
      ensures Fallback.Finished(ranked, turns)
      ensures Fallback.Tracks(progress, ranked, turns) && ending == Fallback.EndingOf(ranked, turns)
    {
      progress, turns, visits := Fallback.Progress([], [], [], map[]), [], [];
      for n := 0 to |ranked|
        invariant Valid() && id !in flights && old(states) <= states && old(events) <= events
        invariant |turns| == n && Taken(turns, visits, id, ranked, automatic, worlds, states, events, manager.policy)
        invariant Covers(visits, |old(events)|, |events|)
        invariant Fallback.StopAt(turns) == n && Fallback.Tracks(progress, ranked, turns)
      {
        var turn, visit := InvokeNext(id, ranked, automatic, worlds, n, turns, visits, |old(events)|);
        var stopped;
        progress, stopped := Fallback.TakeTurn(ranked, turns, n, turn, progress);
        Fallback.StopGrows(turns, turn);
        turns, visits := turns + [turn], visits + [visit];
        if stopped.Some? {
          ending := stopped.value;
          return;
        }
      }
      Fallback.FailureLogsMatchCalls(ranked, turns, |turns|);
      ending := if progress.attempts == [] then Fallback.NoProviderAvailable else Fallback.AllProvidersFailed;
    }

    /**
     * One request. `turns` is what its candidates did, each a recorded visit; the trace is the
     * account of those turns, and its explanation, if any, is valid.
     */
    method Complete(id: nat, ranked: seq<Signal>, routing: Option<Explanation>, automatic: bool, worlds: seq<World>)
      returns (t: Fallback.Trace, ghost turns: seq<Fallback.Turn>, ghost visits: seq<Visit>)
      requires Valid() && id !in flights && |worlds| == |ranked| && Fallback.FreshRouting(ranked, routing)
      modifies this, probes, manager
      ensures Valid() && id !in flights && old(states) <= states && old(events) <= events
      ensures Taken(turns, visits, id, ranked, automatic, worlds, states, events, manager.policy)
      ensures Covers(visits, |old(events)|, |events|)
      ensures Fallback.Accounts(t, ranked, routing, turns)
      ensures t.routing.Some? ==> ValidExplanation(t.routing.value)
    {
      var ending, progress;
      ending, progress, turns, visits := TryCandidates(id, ranked, automatic, worlds);
      t := Fallback.Conclude(ranked, routing, turns, ending, progress);
    }
  }

  // ----- what the record says about one request ----------------------------------------------

  /** The event belongs to the invocation `id`. */
  predicate Concerns(e: Event<ProbeLease>, id: nat) {
    match e
    case Admit(i, _, _, _) => i == id
    case StartExplicit(i, _) => i == id
    case Complete(i, _) => i == id
    case _ => false
  }

  /** No event of `id` is recorded from `i` up to `j`. */
  predicate Quiet(events: seq<Event<ProbeLease>>, id: nat, i: nat, j: nat) {
    forall k :: i <= k < j && k < |events| ==> !Concerns(events[k], id)
  }

  lemma QuietBefore(earlier: seq<Event<ProbeLease>>, events: seq<Event<ProbeLease>>, id: nat, i: nat, j: nat)
    requires earlier <= events && j <= |earlier| < |events| && Quiet(earlier, id, i, j) && j == |earlier|
    requires !Concerns(events[j], id)
    ensures Quiet(events, id, i, j + 1)
  {
  }

  /** The event asks for the call of `key`: an admission, or the start of an explicit model. */
  predicate Starts(e: Event<ProbeLease>, id: nat, key: Key, automatic: bool, readable: bool) {
    if automatic then e.Admit? && e.id == id && e.key == key && e.readable == readable
    else e == StartExplicit(id, key)
  }

  /** The event completes the call with exactly this answer; only an outcome is delivered to health. */
  predicate Finishes(e: Event<ProbeLease>, id: nat, a: Answer) {
    && e.Complete? && e.id == id
    && (a.Outcome? <==> e.completion.Answered?) && (a.Outcome? ==> e.completion.delivery == a.delivery)
    && (a.Bare? <==> e.completion == LegacyPayload) && (a.Cancel? <==> e.completion == Cancelled)
  }

  /**
   * What an answer does to the stored health: an outcome whose update is accepted and persisted
   * puts the new record under its key; anything else changes nothing.
   */
  predicate Processes(before: System<ProbeLease>, after: System<ProbeLease>, a: Answer, policy: Policy) {
    if a.Outcome? && !a.delivery.readFails && !a.delivery.writeFails
       && Transition(Lookup(before.health, a.delivery.outcome.key), a.delivery.outcome, policy).Ok? then
      var o := a.delivery.outcome;
      after.health == before.health[o.key := Transition(Lookup(before.health, o.key), o, policy).value]
    else after.health == before.health
  }

  /** The events of one candidate: from `from` up to `to`, with its start at `at`. */
  datatype Visit = Visit(from: nat, at: nat, to: nat)

  /**
   * What the record says about a turn: one start of this candidate, on the state its evidence
   * is about; unless it was refused, one completion with the answer of its provider, the last
   * event of the visit; and no other event of the invocation.
   */
  ghost predicate Visited(t: Fallback.Turn, v: Visit, id: nat, key: Key, automatic: bool, w: World,
                          states: seq<System<ProbeLease>>, events: seq<Event<ProbeLease>>, policy: Policy)
  {
    && v.from <= v.at < v.to <= |events| && |states| == |events| + 1
    && states[v.at].clock == w.now && Starts(events[v.at], id, key, automatic, w.readable)
    && t == Fallback.Turn(if automatic then Some(AdmissionOf(states[v.at], key, w.readable)) else None,
                          ReplyOf(w.answer))
    && (id in states[v.at + 1].flights <==> !Fallback.Skipped(t))
    && (id in states[v.at + 1].flights ==> states[v.at + 1].flights[id].key == key)
    && Quiet(events, id, v.from, v.at)
    && if Fallback.Skipped(t) then v.to == v.at + 1
       else
         && v.at < v.to - 1 && Quiet(events, id, v.at + 1, v.to - 1)
         && Finishes(events[v.to - 1], id, w.answer) && id in states[v.to - 1].flights
         && Processes(states[v.to - 1], states[v.to], w.answer, policy)
  }

  /** The turns are visits of the ranked candidates, in order. */
  ghost predicate Taken(turns: seq<Fallback.Turn>, visits: seq<Visit>, id: nat, ranked: seq<Signal>, automatic: bool,
                        worlds: seq<World>, states: seq<System<ProbeLease>>, events: seq<Event<ProbeLease>>,
                        policy: Policy)
  {
    && |turns| == |visits| <= |ranked| == |worlds|
    && forall i :: 0 <= i < |turns| ==>
         Visited(turns[i], visits[i], id, ranked[i].key, automatic, worlds[i], states, events, policy)
  }

  /** The visits follow one another without a gap. */
  predicate Covers(visits: seq<Visit>, from: nat, to: nat) {
    if visits == [] then from == to
    else visits[|visits| - 1].to == to && Covers(visits[..|visits| - 1], from, visits[|visits| - 1].from)
  }

  lemma {:induction false} CoversExtends(visits: seq<Visit>, from: nat, to: nat, v: Visit)
    requires Covers(visits, from, to) && v.from == to
    ensures Covers(visits + [v], from, v.to)
  {
    assert (visits + [v])[..|visits|] == visits;
  }

  lemma VisitedStays(t: Fallback.Turn, v: Visit, id: nat, key: Key, automatic: bool, w: World,
                     known: seq<System<ProbeLease>>, done: seq<Event<ProbeLease>>,
                     states: seq<System<ProbeLease>>, events: seq<Event<ProbeLease>>, policy: Policy)
    requires Visited(t, v, id, key, automatic, w, known, done, policy)
    requires known <= states && done <= events && |states| == |events| + 1
    ensures Visited(t, v, id, key, automatic, w, states, events, policy)
  {
  }

  lemma TakenExtends(turns: seq<Fallback.Turn>, visits: seq<Visit>, id: nat, ranked: seq<Signal>, automatic: bool,
                     worlds: seq<World>, known: seq<System<ProbeLease>>, done: seq<Event<ProbeLease>>,
                     states: seq<System<ProbeLease>>, events: seq<Event<ProbeLease>>, t: Fallback.Turn, v: Visit,
                     policy: Policy)
    requires Taken(turns, visits, id, ranked, automatic, worlds, known, done, policy) && |turns| < |ranked|
    requires known <= states && done <= events
    requires Visited(t, v, id, ranked[|turns|].key, automatic, worlds[|turns|], states, events, policy)
    ensures Taken(turns + [t], visits + [v], id, ranked, automatic, worlds, states, events, policy)
  {
    forall i | 0 <= i < |turns|
      ensures Visited(turns[i], visits[i], id, ranked[i].key, automatic, worlds[i], states, events, policy)
    {
      VisitedStays(turns[i], visits[i], id, ranked[i].key, automatic, worlds[i], known, done, states, events,
                   policy);
    }
  }

  /** The event at `k` is the start of a visit, or the completion of one that was not refused. */
  ghost predicate OfVisit(turns: seq<Fallback.Turn>, visits: seq<Visit>, k: nat, i: nat) {
    && i < |turns| == |visits|
    && (k == visits[i].at || (k == visits[i].to - 1 && !Fallback.Skipped(turns[i])))
  }

  /**
   * During the whole request, every recorded event of its invocations is the start or the
   * completion of one of its visits: no provider is called but those of the account.
   */
  lemma {:induction false} RequestEventsAreItsVisits(turns: seq<Fallback.Turn>, visits: seq<Visit>, id: nat,
                                                     ranked: seq<Signal>, automatic: bool, worlds: seq<World>,
                                                     states: seq<System<ProbeLease>>,
                                                     events: seq<Event<ProbeLease>>, policy: Policy,
                                                     from: nat, to: nat, k: nat)
    requires Taken(turns, visits, id, ranked, automatic, worlds, states, events, policy) && Covers(visits, from, to)
    requires from <= k < to <= |events| && Concerns(events[k], id)
    ensures exists i: nat :: OfVisit(turns, visits, k, i)
    decreases |visits|
  {
    if visits != [] {
      var n := |visits| - 1;
      assert Visited(turns[n], visits[n], id, ranked[n].key, automatic, worlds[n], states, events, policy);
      if k >= visits[n].from {
        assert OfVisit(turns, visits, k, n);
      } else {
        RequestEventsAreItsVisits(turns[..n], visits[..n], id, ranked, automatic, worlds, states, events, policy,
                                  from, visits[n].from, k);
        var i: nat :| OfVisit(turns[..n], visits[..n], k, i);
        assert OfVisit(turns, visits, k, i);
      }
    }
  }

  /**
   * A called candidate's outcome is delivered to the circuit of its key, exactly once and by
   * the last event of the visit; any other answer delivers nothing and leaves health alone.
   */
  lemma {:induction false} AnswerReachesHealth(t: Fallback.Turn, v: Visit, id: nat, key: Key, automatic: bool, w: World,
                                               states: seq<System<ProbeLease>>, events: seq<Event<ProbeLease>>,
                                               policy: Policy, k: Key)
    requires Visited(t, v, id, key, automatic, w, states, events, policy) && !Fallback.Skipped(t)
    ensures
      DeliveriesTo(events[..v.to], k) ==
      DeliveriesTo(events[..v.to - 1], k)
      + if w.answer.Outcome? && w.answer.delivery.outcome.key == k then [w.answer.delivery] else []
    ensures Lookup(states[v.to].health, k) ==
            if w.answer.Outcome? && w.answer.delivery.outcome.key == k then
              Deliver(Ledger(Lookup(states[v.to - 1].health, k), []), w.answer.delivery, policy).record
            else Lookup(states[v.to - 1].health, k)
  {
    assert events[..v.to][..v.to - 1] == events[..v.to - 1];
  }

  // ----- how a request ends, in terms of the answers -----------------------------------------

  /** The request goes on to the next candidate. */
  predicate FallsBack(a: Answer) {
    a.ProviderError? || (a.Outcome? && a.delivery.outcome.verdict.Failed?)
  }

  /** The request is answered. */
  predicate Serving(a: Answer) {
    a.Bare? || (a.Outcome? && a.delivery.outcome.verdict.Succeeded? && a.hasResponse)
  }

  /** The request breaks off with an exception. */
  predicate Breaks(a: Answer) {
    a.Crash? || a.Cancel? || (a.Outcome? && a.delivery.outcome.verdict.Succeeded? && !a.hasResponse)
  }

  /** On the record, the candidate at `i` was called: its call was in flight after the start of its visit. */
  ghost predicate CalledAt(visits: seq<Visit>, id: nat, states: seq<System<ProbeLease>>, i: int) {
    0 <= i < |visits| && visits[i].at + 1 < |states| && id in states[visits[i].at + 1].flights
  }

  /** Every candidate called before `i` fell back. */
  ghost predicate FallsBackBefore(visits: seq<Visit>, id: nat, states: seq<System<ProbeLease>>, worlds: seq<World>,
                                  i: int)
  {
    forall j :: 0 <= j < i && j < |worlds| && CalledAt(visits, id, states, j) ==> FallsBack(worlds[j].answer)
  }

  /** What the turn at `i` is, in terms of the record and the answer. */
  ghost predicate AsAnswered(turns: seq<Fallback.Turn>, visits: seq<Visit>, id: nat, states: seq<System<ProbeLease>>,
                             worlds: seq<World>, i: nat)
    requires i < |turns| <= |worlds|
  {
    var called, a := CalledAt(visits, id, states, i), worlds[i].answer;
    && (called <==> !Fallback.Skipped(turns[i]))
    && (Fallback.Serves(turns[i]) <==> called && Serving(a))
    && (Fallback.Stops(turns[i]) <==> called && !FallsBack(a))
    && (Fallback.GivesOutcome(turns[i]) <==> called && a.Outcome?)
    && (Breaks(a) <==> !FallsBack(a) && !Serving(a))
  }

  ghost predicate AllAsAnswered(turns: seq<Fallback.Turn>, visits: seq<Visit>, id: nat,
                                states: seq<System<ProbeLease>>, worlds: seq<World>)
  {
    && |turns| == |visits| <= |worlds|
    && forall i :: 0 <= i < |turns| ==> AsAnswered(turns, visits, id, states, worlds, i)
  }

  lemma TurnsAreAnswered(turns: seq<Fallback.Turn>, visits: seq<Visit>, id: nat, ranked: seq<Signal>, automatic: bool,
                         worlds: seq<World>, states: seq<System<ProbeLease>>, events: seq<Event<ProbeLease>>,
                         policy: Policy)
    requires Taken(turns, visits, id, ranked, automatic, worlds, states, events, policy)
    ensures AllAsAnswered(turns, visits, id, states, worlds)
  {
    forall i | 0 <= i < |turns| ensures AsAnswered(turns, visits, id, states, worlds, i) {
      assert Visited(turns[i], visits[i], id, ranked[i].key, automatic, worlds[i], states, events, policy);
    }
  }

  /** Every call before `i` fell back exactly when the loop came as far as `i`. */
  lemma {:induction false} StopsAtFirst(turns: seq<Fallback.Turn>, visits: seq<Visit>, id: nat,
                                        states: seq<System<ProbeLease>>, worlds: seq<World>, i: nat)
    requires AllAsAnswered(turns, visits, id, states, worlds) && i <= |turns|
    ensures FallsBackBefore(visits, id, states, worlds, i) <==> i <= Fallback.StopAt(turns)
  {
    var stop := Fallback.StopAt(turns);
    if i <= stop {
      forall j | 0 <= j < i && CalledAt(visits, id, states, j) ensures FallsBack(worlds[j].answer) {
        assert AsAnswered(turns, visits, id, states, worlds, j) && !Fallback.Stops(turns[j]);
      }
    } else {
      assert AsAnswered(turns, visits, id, states, worlds, stop) && CalledAt(visits, id, states, stop);
    }
  }

  lemma EndsAt(turns: seq<Fallback.Turn>, visits: seq<Visit>, id: nat, ranked: seq<Signal>,
               states: seq<System<ProbeLease>>, worlds: seq<World>, i: nat)
    requires AllAsAnswered(turns, visits, id, states, worlds) && |turns| <= |ranked|
    ensures
      var ending, first := Fallback.EndingOf(ranked, turns), FallsBackBefore(visits, id, states, worlds, i);
      && (ending.Served? && ending.index == i <==>
            CalledAt(visits, id, states, i) && Serving(worlds[i].answer) && first)
      && (ending == Fallback.Propagated(i) <==>
            CalledAt(visits, id, states, i) && Breaks(worlds[i].answer) && first)
  {
    if i < |turns| {
      StopsAtFirst(turns, visits, id, states, worlds, i);
      assert AsAnswered(turns, visits, id, states, worlds, i);
    }
  }

  lemma EndsNowhere(turns: seq<Fallback.Turn>, visits: seq<Visit>, id: nat, ranked: seq<Signal>,
                    states: seq<System<ProbeLease>>, worlds: seq<World>)
    requires AllAsAnswered(turns, visits, id, states, worlds) && Fallback.Finished(ranked, turns)
    ensures
      var ending := Fallback.EndingOf(ranked, turns);
      && (ending.NoProviderAvailable? <==> forall i :: !CalledAt(visits, id, states, i))
      && (ending.AllProvidersFailed? <==>
            && (exists i :: CalledAt(visits, id, states, i))
            && FallsBackBefore(visits, id, states, worlds, |turns|))
      && (ending.NoProviderAvailable? || ending.AllProvidersFailed? ==> |turns| == |ranked|)
  {
    Fallback.NothingCalledExactly(turns, |turns|);
    StopsAtFirst(turns, visits, id, states, worlds, |turns|);
    forall i | 0 <= i < |turns| ensures CalledAt(visits, id, states, i) <==> !Fallback.Skipped(turns[i]) {
      assert AsAnswered(turns, visits, id, states, worlds, i);
    }
    var stop := Fallback.StopAt(turns);
    if stop < |turns| { assert CalledAt(visits, id, states, stop); }
  }

  /**
   * How a request ends, in terms of what its providers answered: served by the first called
   * candidate that did not fall back if that one answered, broken off by it otherwise, failed
   * everywhere when every called one fell back, and without a provider when none was called.
   */
  lemma {:induction false} RequestEndsAsAnswered(t: Fallback.Trace, turns: seq<Fallback.Turn>, visits: seq<Visit>,
                                                 id: nat, ranked: seq<Signal>, routing: Option<Explanation>,
                                                 automatic: bool, worlds: seq<World>,
                                                 states: seq<System<ProbeLease>>, events: seq<Event<ProbeLease>>,
                                                 policy: Policy)
    requires Taken(turns, visits, id, ranked, automatic, worlds, states, events, policy)
    requires Fallback.Accounts(t, ranked, routing, turns)
    ensures forall i: nat ::
              (t.ending.Served? && t.ending.index == i <==>
               CalledAt(visits, id, states, i) && Serving(worlds[i].answer)
               && FallsBackBefore(visits, id, states, worlds, i))
    ensures forall i: nat ::
              (t.ending == Fallback.Propagated(i) <==>
               CalledAt(visits, id, states, i) && Breaks(worlds[i].answer)
               && FallsBackBefore(visits, id, states, worlds, i))
    ensures t.ending.AllProvidersFailed? <==>
              && (exists i :: CalledAt(visits, id, states, i))
              && FallsBackBefore(visits, id, states, worlds, |visits|)
    ensures t.ending.NoProviderAvailable? <==> forall i :: !CalledAt(visits, id, states, i)
    ensures t.ending.AllProvidersFailed? || t.ending.NoProviderAvailable? ==> |visits| == |ranked|
  {
    TurnsAreAnswered(turns, visits, id, ranked, automatic, worlds, states, events, policy);
    EndsNowhere(turns, visits, id, ranked, states, worlds);
    forall i: nat
      ensures t.ending.Served? && t.ending.index == i <==>
                CalledAt(visits, id, states, i) && Serving(worlds[i].answer)
                && FallsBackBefore(visits, id, states, worlds, i)
      ensures t.ending == Fallback.Propagated(i) <==>
                CalledAt(visits, id, states, i) && Breaks(worlds[i].answer)
                && FallsBackBefore(visits, id, states, worlds, i)
    {
      EndsAt(turns, visits, id, ranked, states, worlds, i);
    }
  }

  /** The entry logs the call of this candidate, as a success exactly when the answer served the request. */
  predicate Logged(entry: Fallback.AttemptLog, item: Signal, a: Answer) {
    entry.key == item.key && entry.score == item.finalScore && (entry.success <==> Serving(a))
  }

  lemma {:induction false} MarksAsAnswered(turns: seq<Fallback.Turn>, visits: seq<Visit>, id: nat,
                                           states: seq<System<ProbeLease>>, worlds: seq<World>)
    requires AllAsAnswered(turns, visits, id, states, worlds)
    ensures
      var calls := Fallback.Where(turns, Fallback.Called, |turns|);
      Increasing(calls) && forall i :: i in calls <==> CalledAt(visits, id, states, i)
    ensures
      var recorded := Fallback.Where(turns, Fallback.Recorded, |turns|);
      && Increasing(recorded)
      && forall i :: i in recorded <==> CalledAt(visits, id, states, i) && worlds[i].answer.Outcome?
  {
    Fallback.WhereMeaning(turns, Fallback.Called, |turns|);
    Fallback.WhereMeaning(turns, Fallback.Recorded, |turns|);
    forall i | 0 <= i < |turns|
      ensures CalledAt(visits, id, states, i) <==> Fallback.Marks(Fallback.Called, turns[i])
      ensures Fallback.Marks(Fallback.Recorded, turns[i]) <==>
                CalledAt(visits, id, states, i) && worlds[i].answer.Outcome?
    {
      assert AsAnswered(turns, visits, id, states, worlds, i);
    }
  }

  lemma {:induction false} LogsAsAnswered(turns: seq<Fallback.Turn>, visits: seq<Visit>, id: nat, ranked: seq<Signal>,
                                          states: seq<System<ProbeLease>>, worlds: seq<World>)
    requires AllAsAnswered(turns, visits, id, states, worlds) && Fallback.Finished(ranked, turns)
    ensures
      var calls, attempts := Fallback.Where(turns, Fallback.Called, |turns|), Fallback.AttemptsOf(ranked, turns);
      && |attempts| == |calls| - (if Fallback.EndingOf(ranked, turns).Propagated? then 1 else 0)
      && forall a :: 0 <= a < |attempts| ==> Logged(attempts[a], ranked[calls[a]], worlds[calls[a]].answer)
  {
    var calls, attempts := Fallback.Where(turns, Fallback.Called, |turns|), Fallback.AttemptsOf(ranked, turns);
    Fallback.AttemptsFollowCalls(ranked, turns);
    forall a | 0 <= a < |attempts| ensures Logged(attempts[a], ranked[calls[a]], worlds[calls[a]].answer) {
      assert AsAnswered(turns, visits, id, states, worlds, calls[a]);
    }
  }

  /**
   * What a request leaves behind, in terms of the answers: calls in rank order, an outcome
   * recorded per called candidate that returned one, one log entry per call that did not break
   * off, and the evidence of every admission.
   */
  lemma {:induction false} RequestRecordsAsAnswered(t: Fallback.Trace, turns: seq<Fallback.Turn>, visits: seq<Visit>,
                                                    id: nat, ranked: seq<Signal>, routing: Option<Explanation>,
                                                    automatic: bool, worlds: seq<World>,
                                                    states: seq<System<ProbeLease>>, events: seq<Event<ProbeLease>>,
                                                    policy: Policy)
    requires Taken(turns, visits, id, ranked, automatic, worlds, states, events, policy)
    requires Fallback.Accounts(t, ranked, routing, turns)
    ensures Increasing(t.calls) && forall i :: i in t.calls <==> CalledAt(visits, id, states, i)
    ensures Increasing(t.recorded)
    ensures forall i :: i in t.recorded <==> CalledAt(visits, id, states, i) && worlds[i].answer.Outcome?
    ensures |t.attempts| == |t.calls| - if t.ending.Propagated? then 1 else 0
    ensures forall a :: 0 <= a < |t.attempts| ==>
              t.calls[a] < |ranked| && Logged(t.attempts[a], ranked[t.calls[a]], worlds[t.calls[a]].answer)
  {
    TurnsAreAnswered(turns, visits, id, ranked, automatic, worlds, states, events, policy);
    MarksAsAnswered(turns, visits, id, states, worlds);
    LogsAsAnswered(turns, visits, id, ranked, states, worlds);
  }

  /** The evidence a request collects: for an automatic one the admission verdict of every visit, else none. */
  lemma {:induction false} RequestEvidenceIsRecorded(t: Fallback.Trace, turns: seq<Fallback.Turn>, visits: seq<Visit>,
                                                     id: nat, ranked: seq<Signal>, routing: Option<Explanation>,
                                                     automatic: bool, worlds: seq<World>,
                                                     states: seq<System<ProbeLease>>,
                                                     events: seq<Event<ProbeLease>>, policy: Policy, i: nat)
    requires Taken(turns, visits, id, ranked, automatic, worlds, states, events, policy)
    requires Fallback.Accounts(t, ranked, routing, turns) && DistinctSignals(ranked) && i < |visits|
    ensures visits[i].at < |states|
    ensures Lookup(t.updates, ranked[i].key) ==
            if automatic then Some(AdmissionOf(states[visits[i].at], ranked[i].key, worlds[i].readable)) else None
  {
    assert Visited(turns[i], visits[i], id, ranked[i].key, automatic, worlds[i], states, events, policy);
    Fallback.EvidenceOfTurns(ranked, turns, ranked[i].key);
  }

  /** The event does not deliver an outcome from the future. */
  ghost predicate InTime(e: Event<ProbeLease>, now: Instant) {
    e.Complete? && e.completion.Answered? ==> e.completion.delivery.outcome.finishedAt <= now
  }

  // ----- what the object inherits ------------------------------------------------------------

  /**
   * The theorems of the transition system hold of the service itself: as long as the clock was
   * steady, its present state is reached by its own recorded history, so probes are single
   * flight, claims are exactly the probes in flight, and every stored record satisfies the run
   * invariant.
   */
  lemma ServiceIsReachable(service: GatewayService)
    requires service.Valid() && service.steady && ValidPolicy(service.manager.policy)
    ensures Reaches(service.states, service.events, service.View(service.Clock()), service.manager.policy)
    ensures forall i, j | Probing(service.flights, i) && Probing(service.flights, j) ::
              service.flights[i].key == service.flights[j].key ==> i == j
    ensures forall key :: key in service.probes.leases <==> Claimed(service.flights, key)
    ensures service.flights == map[] ==> service.probes.leases == map[]
    ensures HealthInvariant(service.manager.store, service.Clock())
  {
    var s, policy := service.View(service.Clock()), service.manager.policy;
    SingleFlightProbes(service.states, service.events, s, policy);
    ReachableInvariant(service.states, service.events, s, policy);
  }

  /** The outage bound for the service's own deliveries to a key, whatever record it started with. */
  lemma {:induction false} ServiceOutageBound(service: GatewayService, key: Key)
    requires service.Valid() && service.steady && ValidPolicy(service.manager.policy)
    requires key in service.manager.store && service.manager.store[key].state != Closed
    ensures
      var policy := service.manager.policy;
      var accepted := LedgerOf(service.states, service.events, key, policy).accepted;
      Outage(service.manager.store[key], Carried(Lookup(service.states[0].health, key), accepted), Streak(accepted),
             policy)
  {
    ConcurrentOutageBound(service.states, service.events, service.View(service.Clock()), service.manager.policy, key);
  }

  /**
   * An automatic request of a steady service calls a candidate exactly when the circuit it found
   * at that moment did not block and no other call held the probe that was due: then, and only
   * then, a call of this candidate is in flight after the start and is completed with the answer
   * of its provider. No other event of the request is recorded during the visit.
   */
  lemma {:induction false} CandidateIsCalledExactlyWhenAllowed(service: GatewayService, turns: seq<Fallback.Turn>,
                                                               visits: seq<Visit>, id: nat, ranked: seq<Signal>,
                                                               worlds: seq<World>, i: nat)
    requires service.Valid() && service.steady && ValidPolicy(service.manager.policy)
    requires Taken(turns, visits, id, ranked, true, worlds, service.states, service.events, service.manager.policy)
    requires i < |turns| && worlds[i].readable
    ensures
      var key, v := ranked[i].key, visits[i];
      var s, next := service.states[v.at], service.states[v.at + 1];
      var blocked := key in s.health && Blocked(s.health[key], worlds[i].now);
      var recovering := key in s.health && s.health[key].state != Closed && !blocked;
      var called := !blocked && !(recovering && key in s.leases);
      && id !in s.flights
      && (id in next.flights <==> called) && (called ==> next.flights[id].key == key)
      && (called <==> !Fallback.Skipped(turns[i]))
      && (forall k :: v.from <= k < v.to && k != v.at && Concerns(service.events[k], id) ==> k == v.to - 1 && called)
      && (called ==> Finishes(service.events[v.to - 1], id, worlds[i].answer))
  {
    var v, key, states, events := visits[i], ranked[i].key, service.states, service.events;
    assert Visited(turns[i], v, id, key, true, worlds[i], states, events, service.manager.policy);
    var s, e := states[v.at], events[v.at];
    StateOnTheWay(states, events, service.View(service.Clock()), service.manager.policy, v.at);
    assert Takes(s, e, states[v.at + 1], service.manager.policy);
    IneligibleExactlyWhenBlocked(true, Lookup(s.health, key), worlds[i].now);
  }
}
