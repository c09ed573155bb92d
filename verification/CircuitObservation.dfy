/**
 * Reads of the circuit advance lazily and never write. This module compares that machine with
 * one that also writes the OPEN to HALF_OPEN advance whenever it is asked to.
 */
module CircuitObservation {
  import opened Common
  import opened Circuit

  /** A script step: an observation (the eager machine may write there) or an outcome. */
  datatype Step = Observe(at: Instant, write: bool) | Deliver(outcome: Outcome)

  function TimeOf(s: Step): Instant {
    match s
    case Observe(at, _) => at
    case Deliver(o) => o.finishedAt
  }

  function LazyStep(record: Option<Health>, s: Step, policy: Policy): Option<Health> {
    match s
    case Observe(_, _) => record
    case Deliver(o) => Stored(record, o, policy)
  }

  function EagerStep(record: Option<Health>, s: Step, policy: Policy): Option<Health> {
    match s
    case Observe(at, write) =>
      if write && record.Some? && Advance(record.value, at).Ok? then Some(Advance(record.value, at).value) else record
    case Deliver(o) => Stored(record, o, policy)
  }

  function LazyRun(record: Option<Health>, steps: seq<Step>, policy: Policy): Option<Health> {
    if steps == [] then record
    else LazyStep(LazyRun(record, steps[..|steps| - 1], policy), steps[|steps| - 1], policy)
  }

  function EagerRun(record: Option<Health>, steps: seq<Step>, policy: Policy): Option<Health> {
    if steps == [] then record
    else EagerStep(EagerRun(record, steps[..|steps| - 1], policy), steps[|steps| - 1], policy)
  }

  function Latest(start: Instant, steps: seq<Step>): Instant {
    if steps == [] then start else TimeOf(steps[|steps| - 1])
  }

  ghost predicate Nondecreasing(start: Instant, steps: seq<Step>) {
    steps == [] ||
      (Nondecreasing(start, steps[..|steps| - 1]) && Latest(start, steps[..|steps| - 1]) <= TimeOf(steps[|steps| - 1]))
  }

  ghost predicate ForKey(key: Key, steps: seq<Step>) {
    forall i :: 0 <= i < |steps| && steps[i].Deliver? ==> steps[i].outcome.key == key
  }

  /**
   * The two stored records agree in every field but the advance: the lazy one may still say
   * OPEN where its deadline has passed, and the update times of two HALF_OPEN records may differ.
   */
  ghost predicate Related(lazy: Option<Health>, eager: Option<Health>, now: Instant) {
    match (lazy, eager)
    case (None, None) => true
    case (Some(l), Some(e)) =>
      && ValidState(l) && ValidState(e)
      && l.updatedAt <= now && e.updatedAt <= now
      && l == e.(state := l.state, updatedAt := l.updatedAt)
      && (l == e
          || (e.state == HalfOpen && l.state == HalfOpen)
          || (e.state == HalfOpen && l.state == Open && l.cooldownUntil.value <= now))
    case _ => false
  }

  lemma RelatedStep(lazy: Option<Health>, eager: Option<Health>, s: Step, key: Key, now: Instant, policy: Policy)
    requires ValidPolicy(policy) && Related(lazy, eager, now) && now <= TimeOf(s)
    requires lazy.Some? ==> lazy.value.key == key
    requires s.Deliver? ==> s.outcome.key == key
    ensures Related(LazyStep(lazy, s, policy), EagerStep(eager, s, policy), TimeOf(s))
    ensures LazyStep(lazy, s, policy).Some? ==> LazyStep(lazy, s, policy).value.key == key
    ensures s.Deliver? && (s.outcome.verdict.Succeeded? || CountedFailure(s.outcome.verdict)) ==>
              && Transition(lazy, s.outcome, policy).Ok? == Transition(eager, s.outcome, policy).Ok?
              && (Transition(lazy, s.outcome, policy).Ok? ==>
                    Transition(lazy, s.outcome, policy) == Transition(eager, s.outcome, policy))
  {
    match s {
      case Observe(at, _) =>
        if eager.Some? { assert Advance(eager.value, at) != Err(InvalidRecord); }
      case Deliver(o) =>
        TransitionNeverBuildsInvalidRecord(lazy, o, policy);
        TransitionNeverBuildsInvalidRecord(eager, o, policy);
    }
  }

  /** Lazy and eager runs stay related over every script with nondecreasing times. */
  lemma {:induction false} RunsStayRelated(record: Option<Health>, steps: seq<Step>, key: Key, start: Instant,
                                           policy: Policy)
    requires ValidPolicy(policy) && Nondecreasing(start, steps) && ForKey(key, steps)
    requires record.Some? ==> ValidState(record.value) && record.value.key == key && record.value.updatedAt <= start
    ensures Related(LazyRun(record, steps, policy), EagerRun(record, steps, policy), Latest(start, steps))
    ensures LazyRun(record, steps, policy).Some? ==> LazyRun(record, steps, policy).value.key == key
  {
    if steps != [] {
      var front := steps[..|steps| - 1];
      RunsStayRelated(record, front, key, start, policy);
      RelatedStep(LazyRun(record, front, policy), EagerRun(record, front, policy), steps[|steps| - 1],
                  key, Latest(start, front), policy);
    }
  }

  /**
   * The simulation theorem. Over any nondecreasing script, writing the advance at arbitrary
   * observation points is invisible: from then on every instant gives the same evidence, and
   * the next success or counted failure is accepted by both and leaves the same record, or by neither.
   */
  lemma {:induction false} LazyReadsAreInvisible(record: Option<Health>, steps: seq<Step>, key: Key, start: Instant,
                                                 policy: Policy, now: Instant, next: Outcome)
    requires ValidPolicy(policy) && Nondecreasing(start, steps) && ForKey(key, steps)
    requires record.Some? ==> ValidState(record.value) && record.value.key == key && record.value.updatedAt <= start
    requires Latest(start, steps) <= now
    requires next.key == key && next.finishedAt == now
    ensures
      var lazy, eager := LazyRun(record, steps, policy), EagerRun(record, steps, policy);
      && Evidence(true, lazy, now) == Evidence(true, eager, now)
      && (next.verdict.Succeeded? || CountedFailure(next.verdict) ==>
            && Transition(lazy, next, policy).Ok? == Transition(eager, next, policy).Ok?
            && (Transition(lazy, next, policy).Ok? ==>
                Transition(lazy, next, policy) == Transition(eager, next, policy)))
  {
    RunsStayRelated(record, steps, key, start, policy);
    var lazy, eager := LazyRun(record, steps, policy), EagerRun(record, steps, policy);
    RelatedStep(lazy, eager, Deliver(next), key, Latest(start, steps), policy);
    if lazy.Some? {
      assert Advance(lazy.value, now).Ok? && Advance(eager.value, now).Ok?;
    }
  }

  /** An uncounted failure leaves records that differ at most in their update time. */
  lemma {:induction false} UncountedFailureDiffersInTimeOnly(record: Option<Health>, steps: seq<Step>, key: Key,
                                                             start: Instant, policy: Policy, o: Outcome)
    requires ValidPolicy(policy) && Nondecreasing(start, steps + [Deliver(o)]) && ForKey(key, steps + [Deliver(o)])
    requires record.Some? ==> ValidState(record.value) && record.value.key == key && record.value.updatedAt <= start
    requires o.verdict.Failed? && o.verdict.error.Some? && !Counts(o.verdict.error.value)
    ensures
      var lazy, eager := LazyRun(record, steps + [Deliver(o)], policy), EagerRun(record, steps + [Deliver(o)], policy);
      lazy.Some? && eager.Some? && lazy.value == eager.value.(updatedAt := lazy.value.updatedAt)
  {
    var longer := steps + [Deliver(o)];
    assert longer[..|longer| - 1] == steps;
    assert o.key == key by { assert longer[|steps|].outcome.key == key; }
    assert ForKey(key, steps) by {
      forall i | 0 <= i < |steps| && steps[i].Deliver? ensures steps[i].outcome.key == key {
        assert longer[i] == steps[i];
      }
    }
    RunsStayRelated(record, steps, key, start, policy);
    var lazy, eager := LazyRun(record, steps, policy), EagerRun(record, steps, policy);
    TransitionNeverBuildsInvalidRecord(lazy, o, policy);
    TransitionNeverBuildsInvalidRecord(eager, o, policy);
  }

  /**
   * Without nondecreasing times the simulation fails, and this is exactly when: after an eager
   * write of the advance at `seen`, an outcome is treated differently by the two machines
   * precisely if it finished at or after the deadline but before the observation.
   */
  lemma LateOutcomeSeparates(h: Health, seen: Instant, o: Outcome, policy: Policy)
    requires ValidPolicy(policy) && ValidState(h) && h.state == Open && h.key == o.key
    requires h.updatedAt <= seen && h.cooldownUntil.value <= seen
    requires o.verdict.Succeeded? || CountedFailure(o.verdict)
    ensures Advance(h, seen).Ok?
    ensures (Transition(Some(h), o, policy).Ok? != Transition(Some(Advance(h, seen).value), o, policy).Ok?)
       <==> (h.updatedAt <= o.finishedAt && h.cooldownUntil.value <= o.finishedAt < seen)
  {
    assert Advance(h, seen).Ok?;
    TransitionNeverBuildsInvalidRecord(Some(h), o, policy);
    TransitionNeverBuildsInvalidRecord(Some(Advance(h, seen).value), o, policy);
  }

  /**
   * That family is reached from no record: with a threshold of one, the circuit opens, an
   * observation after the deadline writes the advance, and a success that finished between the
   * deadline and the observation closes the lazy circuit but is refused by the eager one.
   */
  lemma {:induction false} LateSuccessSeparates(key: Key, cooldown: nat, first: Instant, seen: Instant, late: Instant)
    requires first + cooldown <= late < seen
    ensures
      var policy := Policy(1, cooldown);
      var steps := [Deliver(Outcome(key, Failed(Some(Timeout)), first)), Observe(seen, true),
                    Deliver(Outcome(key, Succeeded, late))];
      var lazy, eager := LazyRun(None, steps, policy), EagerRun(None, steps, policy);
      lazy.Some? && lazy.value.state == Closed && eager.Some? && eager.value.state == HalfOpen
  {
    var policy := Policy(1, cooldown);
    var steps := [Deliver(Outcome(key, Failed(Some(Timeout)), first)), Observe(seen, true),
                  Deliver(Outcome(key, Succeeded, late))];
    assert steps[..2][..1] == steps[..1] && steps[..1][..0] == [] && steps[..3] == steps;
    assert LazyRun(None, steps[..2], policy) == LazyRun(None, steps[..1], policy);
    assert EagerRun(None, steps[..1], policy) == LazyRun(None, steps[..1], policy);
    assert EagerRun(None, steps[..2], policy) == EagerStep(EagerRun(None, steps[..1], policy), steps[1], policy);
  }
}
