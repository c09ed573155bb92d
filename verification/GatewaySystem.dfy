/**
 * Any number of requests calling providers at the same time, as a transition system.
 *
 * A candidate invocation has one suspension point, the provider call, so it is two atomic
 * steps: admission (health re-evaluated, a probe lease perhaps claimed) and completion (the
 * outcome recorded, health updated, the lease given back). Admission takes any key at any
 * time: rankings computed earlier and calls admitted earlier may be arbitrarily stale.
 * Leases are of an arbitrary type, heap objects told apart by identity included.
 */
module GatewaySystem {
  import opened Common
  import opened Circuit
  import opened CircuitHistory
  import opened HealthManager
  import opened Probes

  /** A provider call in progress, with the lease it must give back. */
  datatype Flight<L> = Flight(key: Key, lease: Option<L>)

  datatype System<L> = System(
    clock: Instant,
    health: map<Key, Health>,
    leases: map<Key, L>,
    issued: set<L>,
    flights: map<nat, Flight<L>>)

  /** How a provider call ends. Only a normalized outcome touches health. */
  datatype Completion =
    | Answered(delivery: Delivery)
    | LegacyPayload
    | Raised
    | Cancelled

  datatype Event<L> =
    | Tick(now: Instant)
    | Admit(id: nat, key: Key, readable: bool, claim: Option<L>)  // the lease object to use if one is due
    | StartExplicit(id: nat, key: Key)
    | Complete(id: nat, completion: Completion)
    | StaleRelease(key: Key, lease: L)

  /** The evidence recorded at admission; `claimed` tells whether the key's lease is taken. */
  function Admission(evidence: Eligibility, claimed: bool): Eligibility {
    if evidence.eligible && evidence.state == Some(HalfOpen) then
      Eligibility(!claimed, Some(HalfOpen), !claimed, evidence.cooldownUntil, evidence.failures,
                  if claimed then ProbeInFlight else ProbeAcquired)
    else evidence
  }

  function AdmissionOf<L>(s: System<L>, key: Key, readable: bool): Eligibility {
    Admission(Evidence(readable, Lookup(s.health, key), s.clock), key in s.leases)
  }

  function Admitted<L>(s: System<L>, id: nat, key: Key, readable: bool, lease: Option<L>): System<L>
    requires AdmissionOf(s, key, readable).probe ==> lease.Some?
  {
    var e := AdmissionOf(s, key, readable);
    if !e.eligible then s
    else if e.probe then
      s.(leases := Acquired(s.leases, key, lease.value), issued := s.issued + {lease.value},
         flights := s.flights[id := Flight(key, lease)])
    else s.(flights := s.flights[id := Flight(key, None)])
  }

  function Completed<L(==)>(s: System<L>, id: nat, c: Completion, policy: Policy): System<L>
    requires id in s.flights
  {
    var f := s.flights[id];
    s.(health := if c.Answered? then UpdatedHealth(s.health, c.delivery, policy) else s.health,
       leases := if f.lease.Some? then Released(s.leases, f.key, f.lease.value) else s.leases,
       flights := s.flights - {id})
  }

  /** The call `id` is in flight and holds a lease. */
  predicate Probing<L>(flights: map<nat, Flight<L>>, id: nat) {
    id in flights && flights[id].lease.Some?
  }

  /**
   * The clock never goes back, a new lease is a new object, and outcomes are not from the
   * future. A lease that no call holds any more may be given back again at any time.
   */
  ghost predicate Enabled<L>(s: System<L>, e: Event<L>) {
    match e
    case StaleRelease(_, lease) =>
      lease in s.issued && forall id :: Probing(s.flights, id) ==> s.flights[id].lease.value != lease
    case Tick(now) => s.clock <= now
    case Admit(id, key, readable, lease) =>
      && id !in s.flights
      && (lease.Some? ==> lease.value !in s.issued)
      && (AdmissionOf(s, key, readable).probe ==> lease.Some?)
    case StartExplicit(id, _) => id !in s.flights
    case Complete(id, c) => id in s.flights && (c.Answered? ==> c.delivery.outcome.finishedAt <= s.clock)
  }

  function Step<L(==)>(s: System<L>, e: Event<L>, policy: Policy): System<L>
    requires Enabled(s, e)
  {
    match e
    case Tick(now) => s.(clock := now)
    case Admit(id, key, readable, lease) => Admitted(s, id, key, readable, lease)
    case StartExplicit(id, key) => s.(flights := s.flights[id := Flight(key, None)])
    case Complete(id, c) => Completed(s, id, c, policy)
    case StaleRelease(key, lease) => s.(leases := Released(s.leases, key, lease))
  }

  ghost predicate Takes<L>(s: System<L>, e: Event<L>, t: System<L>, policy: Policy) {
    Enabled(s, e) && t == Step(s, e, policy)
  }

  /** A gateway that has just been started: no call, no lease, and whatever health was persisted before. */
  ghost predicate Starting<L>(s: System<L>) {
    s.leases == map[] && s.flights == map[] && HealthInvariant(s.health, s.clock)
  }

  /** The interleaving `events` leads from `states[0]` through `states` to `t`. */
  ghost predicate Reaches<L>(states: seq<System<L>>, events: seq<Event<L>>, t: System<L>, policy: Policy) {
    && |states| == |events| + 1 && states[|events|] == t
    && Starting(states[0])
    && forall i :: 0 <= i < |events| ==> Takes(states[i], events[i], states[i + 1], policy)
  }

  /** A started gateway is reached by no event at all. */
  lemma StartIsReached<L>(s: System<L>, policy: Policy)
    requires Starting(s)
    ensures Reaches([s], [], s, policy)
  {
  }

  /** One more enabled step is reached too. */
  lemma StepIsReached<L>(states: seq<System<L>>, events: seq<Event<L>>, s: System<L>, e: Event<L>, t: System<L>,
                         policy: Policy)
    requires Reaches(states, events, s, policy) && Takes(s, e, t, policy)
    ensures Reaches(states + [t], events + [e], t, policy)
  {
    var longer, all := states + [t], events + [e];
    forall i | 0 <= i < |all| ensures Takes(longer[i], all[i], longer[i + 1], policy) {
      if i < |events| { assert Takes(states[i], events[i], states[i + 1], policy); }
    }
  }

  /** The last step of a nonempty interleaving. */
  lemma LastStep<L>(states: seq<System<L>>, events: seq<Event<L>>, t: System<L>, policy: Policy)
    requires Reaches(states, events, t, policy) && events != []
    ensures
      var n := |events| - 1;
      Reaches(states[..n + 1], events[..n], states[n], policy) && Takes(states[n], events[n], t, policy)
  {
    var n := |events| - 1;
    forall i | 0 <= i < n ensures Takes(states[..n + 1][i], events[..n][i], states[..n + 1][i + 1], policy) {
      assert Takes(states[i], events[i], states[i + 1], policy);
    }
    assert Takes(states[n], events[n], states[n + 1], policy);
  }

  // ----- the invariant -----------------------------------------------------------------------

  /** The claim table `leases` and the calls in flight that hold a lease are in bijection. */
  ghost predicate ClaimsMatch<L>(leases: map<Key, L>, issued: set<L>, flights: map<nat, Flight<L>>) {
    && (forall id :: Probing(flights, id) ==>
          flights[id].key in leases && leases[flights[id].key] == flights[id].lease.value)
    && (forall key :: key in leases ==> Claimed(flights, key))
    && (forall i, j :: Probing(flights, i) && Probing(flights, j) && flights[i].key == flights[j].key ==> i == j)
    && (forall key :: key in leases ==> leases[key] in issued)
  }

  ghost predicate Claimed<L>(flights: map<nat, Flight<L>>, key: Key) {
    exists id :: Probing(flights, id) && flights[id].key == key
  }

  ghost predicate Invariant<L>(s: System<L>) {
    HealthInvariant(s.health, s.clock) && ClaimsMatch(s.leases, s.issued, s.flights)
  }

  lemma LeaseFreeCallKeepsClaims<L>(leases: map<Key, L>, issued: set<L>, flights: map<nat, Flight<L>>, id: nat,
                                    key: Key)
    requires ClaimsMatch(leases, issued, flights) && id !in flights
    ensures ClaimsMatch(leases, issued, flights[id := Flight(key, None)])
  {
    var after := flights[id := Flight(key, None)];
    assert forall i :: Probing(after, i) ==> i != id && Probing(flights, i) && after[i] == flights[i];
    forall k | k in leases ensures Claimed(after, k) {
      var i :| Probing(flights, i) && flights[i].key == k;
      assert Probing(after, i);
    }
  }

  lemma ProbeKeepsClaims<L>(leases: map<Key, L>, issued: set<L>, flights: map<nat, Flight<L>>, id: nat, key: Key,
                            lease: L)
    requires ClaimsMatch(leases, issued, flights) && id !in flights && key !in leases
    ensures ClaimsMatch(leases[key := lease], issued + {lease}, flights[id := Flight(key, Some(lease))])
  {
    var after := flights[id := Flight(key, Some(lease))];
    assert forall i :: i != id ==> (Probing(after, i) <==> Probing(flights, i));
    forall k | k in leases[key := lease] ensures Claimed(after, k) {
      if k == key {
        assert Probing(after, id);
      } else {
        var i :| Probing(flights, i) && flights[i].key == k;
        assert Probing(after, i);
      }
    }
  }

  lemma EndKeepsClaims<L>(leases: map<Key, L>, issued: set<L>, flights: map<nat, Flight<L>>, id: nat)
    requires ClaimsMatch(leases, issued, flights) && id in flights
    ensures
      var f := flights[id];
      && ClaimsMatch(if f.lease.Some? then Released(leases, f.key, f.lease.value) else leases, issued, flights - {id})
      && (f.lease.Some? ==> f.key in leases && Released(leases, f.key, f.lease.value) == leases - {f.key})
  {
    var f, after := flights[id], flights - {id};
    var left := if f.lease.Some? then Released(leases, f.key, f.lease.value) else leases;
    assert Probing(flights, id) <==> f.lease.Some?;
    assert forall i :: Probing(after, i) <==> Probing(flights, i) && i != id;
    forall k | k in left ensures Claimed(after, k) {
      var i :| Probing(flights, i) && flights[i].key == k;
      assert Probing(after, i);
    }
  }

  /** A lease nobody holds any more names no current claim. */
  lemma StaleReleaseIsNoOp<L>(s: System<L>, key: Key, lease: L)
    requires ClaimsMatch(s.leases, s.issued, s.flights) && Enabled(s, StaleRelease(key, lease))
    ensures Released(s.leases, key, lease) == s.leases
  {
  }

  lemma StepKeepsInvariant<L>(s: System<L>, e: Event<L>, policy: Policy)
    requires ValidPolicy(policy) && Invariant(s) && Enabled(s, e)
    ensures Invariant(Step(s, e, policy))
  {
    match e {
      case Tick(now) =>
      case Admit(id, key, readable, lease) =>
        if AdmissionOf(s, key, readable).probe {
          ProbeKeepsClaims(s.leases, s.issued, s.flights, id, key, lease.value);
        } else {
          LeaseFreeCallKeepsClaims(s.leases, s.issued, s.flights, id, key);
        }
      case StartExplicit(id, key) =>
        LeaseFreeCallKeepsClaims(s.leases, s.issued, s.flights, id, key);
      case Complete(id, c) =>
        EndKeepsClaims(s.leases, s.issued, s.flights, id);
        if c.Answered? { UpdateKeepsHealth(s.health, c.delivery, s.clock, policy); }
      case StaleRelease(key, lease) =>
        StaleReleaseIsNoOp(s, key, lease);
    }
  }

  /** Every interleaving of any number of requests keeps the invariant. */
  lemma {:induction false} ReachableInvariant<L>(states: seq<System<L>>, events: seq<Event<L>>, t: System<L>,
                                                 policy: Policy)
    requires ValidPolicy(policy) && Reaches(states, events, t, policy)
    ensures Invariant(t)
    decreases |events|
  {
    if events != [] {
      var n := |events| - 1;
      LastStep(states, events, t, policy);
      ReachableInvariant(states[..n + 1], events[..n], states[n], policy);
      StepKeepsInvariant(states[n], events[n], policy);
    }
  }

  /** Every state on the way is reached, and so satisfies the invariant. */
  lemma StateOnTheWay<L>(states: seq<System<L>>, events: seq<Event<L>>, t: System<L>, policy: Policy, i: nat)
    requires ValidPolicy(policy) && Reaches(states, events, t, policy) && i < |states|
    ensures Reaches(states[..i + 1], events[..i], states[i], policy) && Invariant(states[i])
  {
    forall j | 0 <= j < i ensures Takes(states[..i + 1][j], events[..i][j], states[..i + 1][j + 1], policy) {
      assert Takes(states[j], events[j], states[j + 1], policy);
    }
    ReachableInvariant(states[..i + 1], events[..i], states[i], policy);
  }

  /** Whatever state a gateway stops in, the next one may start from the health it leaves, under any policy. */
  lemma {:induction false} RestartIsStart<L>(states: seq<System<L>>, events: seq<Event<L>>, t: System<L>,
                                             policy: Policy, later: Instant)
    requires ValidPolicy(policy) && Reaches(states, events, t, policy) && t.clock <= later
    ensures var next: System<L> := System(later, t.health, map[], {}, map[]); Starting(next)
  {
    ReachableInvariant(states, events, t, policy);
  }

  // ----- what the invariant gives ------------------------------------------------------------

  /**
   * In every reachable state: at most one probe per key is in flight, a key is claimed exactly
   * when one is, the claim is that probe's own lease, and a state with no call in flight holds
   * no lease.
   */
  lemma {:induction false} SingleFlightProbes<L>(states: seq<System<L>>, events: seq<Event<L>>, t: System<L>,
                                                 policy: Policy)
    requires ValidPolicy(policy) && Reaches(states, events, t, policy)
    ensures forall i, j | Probing(t.flights, i) && Probing(t.flights, j) ::
              t.flights[i].key == t.flights[j].key ==> i == j
    ensures forall key :: key in t.leases <==> Claimed(t.flights, key)
    ensures forall i :: Probing(t.flights, i) ==>
              t.flights[i].key in t.leases && t.leases[t.flights[i].key] == t.flights[i].lease.value
    ensures t.flights == map[] ==> t.leases == map[]
  {
    ReachableInvariant(states, events, t, policy);
    if t.flights == map[] {
      assert forall key :: key !in t.leases;
    }
  }

  /**
   * However a call ends (outcome, legacy payload, exception, cancellation), it takes away its
   * own lease and no other claim, no other flight.
   */
  lemma {:induction false} CompletionReleasesExactlyItsLease<L>(states: seq<System<L>>, events: seq<Event<L>>,
                                                                s: System<L>, policy: Policy, id: nat, c: Completion)
    requires ValidPolicy(policy) && Reaches(states, events, s, policy) && Enabled(s, Complete(id, c))
    ensures
      var t := Step(s, Complete(id, c), policy);
      && t.leases == (if s.flights[id].lease.Some? then s.leases - {s.flights[id].key} else s.leases)
      && (s.flights[id].lease.Some? ==> s.flights[id].key in s.leases)
      && t.flights == s.flights - {id}
  {
    ReachableInvariant(states, events, s, policy);
    EndKeepsClaims(s.leases, s.issued, s.flights, id);
  }

  /**
   * Giving a lease back again after its call ended, even after another request has claimed
   * the same key, changes nothing.
   */
  lemma {:induction false} StaleReleaseChangesNothing<L>(states: seq<System<L>>, events: seq<Event<L>>, s: System<L>,
                                                         policy: Policy, key: Key, lease: L)
    requires ValidPolicy(policy) && Reaches(states, events, s, policy) && Enabled(s, StaleRelease(key, lease))
    ensures Step(s, StaleRelease(key, lease), policy) == s
  {
    ReachableInvariant(states, events, s, policy);
    StaleReleaseIsNoOp(s, key, lease);
  }

  /**
   * No automatic call starts into a blocking circuit, and none starts into a recovering one
   * without holding its only lease, in any reachable state with a readable store. The three
   * conditions are exact: a call starts precisely when none of them refuses it.
   */
  lemma {:induction false} CallStartsExactlyWhenAllowed<L>(states: seq<System<L>>, events: seq<Event<L>>, s: System<L>,
                                                           policy: Policy, id: nat, key: Key, lease: Option<L>)
    requires ValidPolicy(policy) && Reaches(states, events, s, policy)
    requires Enabled(s, Admit(id, key, true, lease))
    ensures
      var t := Step(s, Admit(id, key, true, lease), policy);
      var blocked := key in s.health && Blocked(s.health[key], s.clock);
      var recovering := key in s.health && s.health[key].state != Closed && !blocked;
      && (id in t.flights <==> !blocked && !(recovering && key in s.leases))
      && (id in t.flights && recovering ==>
            && lease.Some? && t.flights[id].lease == lease
            && forall j :: j in t.flights && j != id && t.flights[j].key == key ==> t.flights[j].lease.None?)
      && (id in t.flights && !recovering ==> t.flights[id].lease.None? && t.leases == s.leases)
      && (id !in t.flights ==> t == s)
  {
    ReachableInvariant(states, events, s, policy);
    IneligibleExactlyWhenBlocked(true, Lookup(s.health, key), s.clock);
    StepKeepsInvariant(s, Admit(id, key, true, lease), policy);
    OnlyProbe(Step(s, Admit(id, key, true, lease), policy), id);
  }

  /** A flight that holds a lease is the only one of its key that does. */
  lemma OnlyProbe<L>(t: System<L>, id: nat)
    requires ClaimsMatch(t.leases, t.issued, t.flights)
    ensures id in t.flights && t.flights[id].lease.Some? ==>
              forall j :: j in t.flights && j != id && t.flights[j].key == t.flights[id].key ==>
                t.flights[j].lease.None?
  {
  }

  /**
   * What an admission reports: the evidence as it is, except that a recovering circuit is
   * reported as a probe with its lease, or as refused while another call probes.
   */
  lemma AdmissionReports<L>(s: System<L>, key: Key, readable: bool)
    ensures
      var e, a := Evidence(readable, Lookup(s.health, key), s.clock), AdmissionOf(s, key, readable);
      var due := e.eligible && e.state == Some(HalfOpen);
      && (!due ==> a == e)
      && (due && key in s.leases ==> a == e.(eligible := false, probe := false, reason := ProbeInFlight))
      && (due && key !in s.leases ==> a == e.(probe := true, reason := ProbeAcquired))
  {
  }

  /** With an unreadable store admission fails open: the call starts, without a lease. */
  lemma UnreadableStoreFailsOpen<L>(s: System<L>, policy: Policy, id: nat, key: Key, lease: Option<L>)
    requires Enabled(s, Admit(id, key, false, lease))
    ensures Step(s, Admit(id, key, false, lease), policy) == s.(flights := s.flights[id := Flight(key, None)])
  {
  }

  /**
   * After a success or a counted failure has been processed without a store fault, the stored
   * circuit of its key is HALF_OPEN exactly when it was before and the outcome is older than
   * the record; whatever stale calls did before, it is CLOSED or OPEN otherwise.
   */
  lemma {:induction false} DecisiveCompletionSettles<L>(states: seq<System<L>>, events: seq<Event<L>>, s: System<L>,
                                                        policy: Policy, id: nat, d: Delivery)
    requires ValidPolicy(policy) && Reaches(states, events, s, policy)
    requires Enabled(s, Complete(id, Answered(d))) && !d.readFails && !d.writeFails
    requires d.outcome.verdict.Succeeded? || CountedFailure(d.outcome.verdict)
    ensures
      var k, t := d.outcome.key, Step(s, Complete(id, Answered(d)), policy);
      && k in t.health
      && (t.health[k].state == HalfOpen <==>
            k in s.health && s.health[k].state == HalfOpen && d.outcome.finishedAt < s.health[k].updatedAt)
  {
    ReachableInvariant(states, events, s, policy);
    var stored := Lookup(s.health, d.outcome.key);
    DecisiveOutcomeLeavesHalfOpen(stored, d.outcome, policy);
    TransitionNeverBuildsInvalidRecord(stored, d.outcome, policy);
  }

  /** The first `n` calls of `key`, none of them probing. */
  function Calls<L>(key: Key, n: nat): map<nat, Flight<L>> {
    if n == 0 then map[] else Calls(key, n - 1)[n - 1 := Flight(key, None)]
  }

  lemma {:induction false} CallsAreBelow<L>(key: Key, n: nat)
    ensures forall id :: id in Calls<L>(key, n) ==> id < n
  {
    if n > 0 { CallsAreBelow<L>(key, n - 1); }
  }

  /** Any number of calls may be admitted before anything is known of their key. */
  lemma {:induction false} ManyCalls<L>(key: Key, start: Instant, n: nat, policy: Policy)
    returns (states: seq<System<L>>, events: seq<Event<L>>, s: System<L>)
    ensures Reaches(states, events, s, policy) && s == System(start, map[], map[], {}, Calls(key, n))
  {
    if n == 0 {
      s := System(start, map[], map[], {}, map[]);
      states, events := [s], [];
      StartIsReached(s, policy);
    } else {
      var before;
      states, events, before := ManyCalls(key, start, n - 1, policy);
      CallsAreBelow<L>(key, n - 1);
      var e := Admit(n - 1, key, true, None);
      s := before.(flights := Calls(key, n));
      assert Step(before, e, policy) == s;
      StepIsReached(states, events, before, e, s, policy);
      states, events := states + [s], events + [e];
    }
  }

  /**
   * Three overlapping calls: one opens the circuit, then the probe is admitted, then the other
   * early call is answered.
   */
  lemma {:induction false} ProbeAmongCalls<L>(key: Key, start: Instant, admitted: Instant, seen: Instant,
                                              policy: Policy, lease: L, d0: Delivery, d1: Delivery)
    returns (states: seq<System<L>>, events: seq<Event<L>>, s: System<L>)
    requires start <= admitted <= seen && d0.outcome.finishedAt <= admitted && d1.outcome.finishedAt <= seen
    requires Evidence(true, Lookup(UpdatedHealth(map[], d0, policy), key), admitted).eligible
    requires Evidence(true, Lookup(UpdatedHealth(map[], d0, policy), key), admitted).state == Some(HalfOpen)
    ensures Reaches(states, events, s, policy)
    ensures s == System(seen, UpdatedHealth(UpdatedHealth(map[], d0, policy), d1, policy), map[key := lease],
                        {lease}, map[2 := Flight(key, Some(lease))])
  {
    states, events, s := ManyCalls(key, start, 2, policy);
    assert Calls<L>(key, 1) == Calls<L>(key, 0)[0 := Flight(key, None)];
    assert s.flights == map[0 := Flight(key, None), 1 := Flight(key, None)];
    states, events, s := Continue(states, events, s, Tick(admitted), policy);
    states, events, s := Continue(states, events, s, Complete(0, Answered(d0)), policy);
    states, events, s := Continue(states, events, s, Admit(2, key, true, Some(lease)), policy);
    states, events, s := Continue(states, events, s, Tick(seen), policy);
    states, events, s := Continue(states, events, s, Complete(1, Answered(d1)), policy);
    assert s.flights == map[2 := Flight(key, Some(lease))];
  }

  lemma {:induction false} Continue<L>(states: seq<System<L>>, events: seq<Event<L>>, s: System<L>, e: Event<L>,
                                       policy: Policy)
    returns (more: seq<System<L>>, longer: seq<Event<L>>, t: System<L>)
    requires Reaches(states, events, s, policy) && Enabled(s, e)
    ensures Reaches(more, longer, t, policy) && t == Step(s, e, policy)
  {
    t := Step(s, e, policy);
    StepIsReached(states, events, s, e, t, policy);
    more, longer := states + [t], events + [e];
  }

  /**
   * The exception is reached by a probe's own outcome: a call times out and opens the circuit,
   * a probe is admitted with the key's lease, a stale call fails without being counted and
   * writes the advance, and the probe's success, which finished before that, is refused. The
   * probe gives back its lease and the circuit stays HALF_OPEN.
   */
  lemma {:induction false} LateCompletionIsReachable<L>(key: Key, cooldown: nat, lease: L, first: Instant,
                                                        admitted: Instant, late: Instant, seen: Instant)
    returns (states: seq<System<L>>, events: seq<Event<L>>, s: System<L>)
    requires first + cooldown <= admitted <= late < seen
    ensures
      var policy, last := Policy(1, cooldown), Event<L>.Complete(2, Answered(LateTrace(key, first, seen, late)[2]));
      && Reaches(states, events, s, policy) && Enabled(s, last)
      && s.flights == map[2 := Flight(key, Some(lease))] && s.leases == map[key := lease]
      && key in s.health && s.health[key].state == HalfOpen
      && Step(s, last, policy) == s.(leases := map[], flights := map[])
  {
    var policy, ds := Policy(1, cooldown), LateTrace(key, first, seen, late);
    var broken := UpdatedHealth(map[], ds[0], policy);
    assert broken[key].state == Open && broken[key].cooldownUntil == Some(first + cooldown);
    states, events, s := ProbeAmongCalls(key, first, admitted, seen, policy, lease, ds[0], ds[1]);
    assert s.health[key].state == HalfOpen && s.health[key].updatedAt == seen;
    assert map[key := lease] - {key} == map[];
    assert s.flights - {2} == map[];
  }

  // ----- each key sees a plain circuit history -----------------------------------------------

  /** The deliveries to `key`, `ds`, after one more event. */
  function Extended<L>(ds: seq<Delivery>, e: Event<L>, key: Key): seq<Delivery> {
    if e.Complete? && e.completion.Answered? && e.completion.delivery.outcome.key == key then
      ds + [e.completion.delivery]
    else ds
  }

  /** The deliveries an interleaving makes to one key, in order. */
  function DeliveriesTo<L>(events: seq<Event<L>>, key: Key): seq<Delivery> {
    if events == [] then []
    else Extended(DeliveriesTo(events[..|events| - 1], key), events[|events| - 1], key)
  }

  lemma {:induction false} StepFollowsRun<L>(start: Ledger, s: System<L>, e: Event<L>, policy: Policy, key: Key,
                                             ds: seq<Delivery>)
    requires Enabled(s, e)
    requires Lookup(s.health, key) == Run(start, ds, policy).record && AllFor(key, ds)
    ensures Lookup(Step(s, e, policy).health, key) == Run(start, Extended(ds, e, key), policy).record
    ensures AllFor(key, Extended(ds, e, key))
  {
    if e.Complete? && e.completion.Answered? {
      var d := e.completion.delivery;
      assert (ds + [d])[..|ds|] == ds;
      HealthFollowsDelivery(s.health, d, policy, key);
    }
  }

  /** The record of one key after a delivery, to it or to another key. */
  lemma HealthFollowsDelivery(health: map<Key, Health>, d: Delivery, policy: Policy, key: Key)
    ensures Lookup(UpdatedHealth(health, d, policy), key) ==
            if d.outcome.key == key then Deliver(Ledger(Lookup(health, key), []), d, policy).record
            else Lookup(health, key)
  {
  }

  /** What a key's circuit starts from: its persisted record, and nothing accepted yet. */
  function StartOf<L>(s: System<L>, key: Key): Ledger {
    Ledger(Lookup(s.health, key), [])
  }

  /**
   * However calls interleave, the stored record of a key is the one a sequential circuit
   * computes from the deliveries to that key, so every theorem about single-circuit runs
   * (failure counting, the outage bound) holds in the concurrent system.
   */
  lemma {:induction false} ConcurrentHealthIsSequential<L>(states: seq<System<L>>, events: seq<Event<L>>, t: System<L>,
                                                           policy: Policy, key: Key)
    requires Reaches(states, events, t, policy)
    ensures Lookup(t.health, key) == Run(StartOf(states[0], key), DeliveriesTo(events, key), policy).record
    ensures AllFor(key, DeliveriesTo(events, key))
    decreases |events|
  {
    if events != [] {
      var n := |events| - 1;
      LastStep(states, events, t, policy);
      ConcurrentHealthIsSequential(states[..n + 1], events[..n], states[n], policy, key);
      StepFollowsRun(StartOf(states[0], key), states[n], events[n], policy, key, DeliveriesTo(events[..n], key));
    }
  }

  /** The sequential history of a key: from its persisted record through the deliveries to it. */
  function LedgerOf<L>(states: seq<System<L>>, events: seq<Event<L>>, key: Key, policy: Policy): Ledger
    requires states != []
  {
    Run(StartOf(states[0], key), DeliveriesTo(events, key), policy)
  }

  /**
   * So in every interleaving the stored record of a key is what its persisted record and the
   * outcomes accepted since amount to.
   */
  lemma {:induction false} ConcurrentRunSummarizes<L>(states: seq<System<L>>, events: seq<Event<L>>, t: System<L>,
                                                      policy: Policy, key: Key)
    requires ValidPolicy(policy) && Reaches(states, events, t, policy)
    ensures
      var l := LedgerOf(states, events, key, policy);
      l.record == Lookup(t.health, key) && Summarizes(l, Lookup(states[0].health, key), key, policy)
  {
    ConcurrentHealthIsSequential(states, events, t, policy, key);
    RunSummarizes(Lookup(states[0].health, key), DeliveriesTo(events, key), key, policy);
  }

  /** The outage bound of a single circuit, in the concurrent system, whatever record was persisted before. */
  lemma {:induction false} ConcurrentOutageBound<L>(states: seq<System<L>>, events: seq<Event<L>>, t: System<L>,
                                                    policy: Policy, key: Key)
    requires ValidPolicy(policy) && Reaches(states, events, t, policy)
    requires key in t.health && t.health[key].state != Closed
    ensures
      var accepted := LedgerOf(states, events, key, policy).accepted;
      Outage(t.health[key], Carried(Lookup(states[0].health, key), accepted), Streak(accepted), policy)
  {
    ConcurrentHealthIsSequential(states, events, t, policy, key);
    OutageBound(Lookup(states[0].health, key), DeliveriesTo(events, key), key, policy);
  }

  /**
   * When no earlier delivery to a key finished after this one, and neither did its persisted
   * record, a success or counted failure always settles the circuit: CLOSED or OPEN.
   */
  lemma {:induction false} OrderedCompletionsSettle<L>(states: seq<System<L>>, events: seq<Event<L>>, s: System<L>,
                                                       policy: Policy, id: nat, d: Delivery)
    requires ValidPolicy(policy) && Reaches(states, events, s, policy)
    requires Enabled(s, Complete(id, Answered(d))) && !d.readFails && !d.writeFails
    requires d.outcome.verdict.Succeeded? || CountedFailure(d.outcome.verdict)
    requires FinishedBy(DeliveriesTo(events, d.outcome.key), d.outcome.finishedAt)
    requires d.outcome.key in states[0].health ==> states[0].health[d.outcome.key].updatedAt <= d.outcome.finishedAt
    ensures
      var k, t := d.outcome.key, Step(s, Complete(id, Answered(d)), policy);
      k in t.health && t.health[k].state != HalfOpen
  {
    var k := d.outcome.key;
    DecisiveCompletionSettles(states, events, s, policy, id, d);
    ConcurrentHealthIsSequential(states, events, s, policy, k);
    RecordNotAhead(StartOf(states[0], k), DeliveriesTo(events, k), policy, d.outcome.finishedAt);
  }
}
