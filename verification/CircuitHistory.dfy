/**
 * Whole runs of one circuit: any sequence of outcomes, each delivered to the health manager
 * with or without a store fault, from no record or from any earlier record.
 */
module CircuitHistory {
  import opened Common
  import opened Circuit

  /** One health update, with the store faults that may hit its read and its write. */
  datatype Delivery = Delivery(outcome: Outcome, readFails: bool, writeFails: bool)

  /** The stored record and, in order, the outcomes whose update was persisted. */
  datatype Ledger = Ledger(record: Option<Health>, accepted: seq<Outcome>)

  const FRESH := Ledger(None, [])

  function Deliver(l: Ledger, d: Delivery, policy: Policy): Ledger {
    if d.readFails then l
    else match Transition(l.record, d.outcome, policy)
      case Err(_) => l
      case Ok(h) => if d.writeFails then l else Ledger(Some(h), l.accepted + [d.outcome])
  }

  function Run(start: Ledger, ds: seq<Delivery>, policy: Policy): Ledger {
    if ds == [] then start
    else Deliver(Run(start, ds[..|ds| - 1], policy), ds[|ds| - 1], policy)
  }

  ghost predicate AllFor(key: Key, ds: seq<Delivery>) {
    forall i :: 0 <= i < |ds| ==> ds[i].outcome.key == key
  }

  // ----- an independent reading of the history -----------------------------------------------

  /** The counted failures among `log`, in order. */
  function CountedOf(log: seq<Outcome>): seq<Outcome> {
    if log == [] then []
    else
      var last := log[|log| - 1];
      CountedOf(log[..|log| - 1]) + if CountedFailure(last.verdict) then [last] else []
  }

  /** The position just after the last success of `log`. */
  function AfterLastSuccess(log: seq<Outcome>): (cut: nat)
    ensures cut <= |log|
    ensures cut > 0 ==> log[cut - 1].verdict.Succeeded?
    ensures forall i :: cut <= i < |log| ==> !log[i].verdict.Succeeded?
  {
    if log == [] then 0
    else if log[|log| - 1].verdict.Succeeded? then |log|
    else AfterLastSuccess(log[..|log| - 1])
  }

  /** The counted failures accepted since the last accepted success. */
  function Streak(log: seq<Outcome>): seq<Outcome> {
    CountedOf(log[AfterLastSuccess(log)..])
  }

  /** How one more accepted outcome changes the streak. */
  lemma StreakExtends(log: seq<Outcome>, o: Outcome)
    ensures Streak(log + [o]) ==
              if o.verdict.Succeeded? then []
              else if CountedFailure(o.verdict) then Streak(log) + [o]
              else Streak(log)
  {
    var longer := log + [o];
    assert longer[..|longer| - 1] == log;
    if o.verdict.Succeeded? {
      assert longer[|longer|..] == [];
    } else {
      var cut := AfterLastSuccess(log);
      assert AfterLastSuccess(longer) == cut;
      var tail := longer[cut..];
      assert tail == log[cut..] + [o];
      assert tail[..|tail| - 1] == log[cut..];
    }
  }

  // ----- the run invariant -------------------------------------------------------------------

  /** What the record alone satisfies after any run, whatever policies were in force. */
  ghost predicate RecordInvariant(h: Health) {
    && ValidState(h)
    && (h.state != Closed ==> h.failures > 0 && h.openedAt == h.lastFailureAt)
    && (h.state == HalfOpen ==> h.cooldownUntil.value <= h.updatedAt)
  }

  /** The record `h` counts the failure `o` on top of `before`, and opens when it should. */
  ghost predicate CountsOneMore(h: Health, before: Option<Health>, o: Outcome, policy: Policy) {
    && h.failures == FailuresOf(before) + 1 && h.lastFailureAt == Some(o.finishedAt)
    && (h.state != Closed <==> Broken(before) || h.failures >= policy.threshold)
    && (h.state != Closed ==>
          h.openedAt == Some(o.finishedAt) && h.cooldownUntil == Some(o.finishedAt + policy.cooldown))
  }

  /** A counted failure that is accepted counts one more, respects a running cooldown, and opens as it should. */
  lemma CountedFailureEffect(before: Option<Health>, o: Outcome, policy: Policy)
    requires ValidPolicy(policy) && CountedFailure(o.verdict)
    requires before.Some? ==> RecordInvariant(before.value) && before.value.key == o.key
    requires Transition(before, o, policy).Ok?
    ensures
      var h := Transition(before, o, policy).value;
      && RecordInvariant(h) && h.key == o.key
      && CountsOneMore(h, before, o, policy)
      && (Broken(before) ==> before.value.cooldownUntil.value <= o.finishedAt)
      && h.updatedAt == o.finishedAt && h.lastSuccessAt == LastSuccessOf(before)
  {
    TransitionNeverBuildsInvalidRecord(before, o, policy);
  }

  /** Any other accepted outcome closes the circuit (success) or leaves count and window alone. */
  lemma OtherOutcomeEffect(before: Option<Health>, o: Outcome, policy: Policy)
    requires ValidPolicy(policy) && !CountedFailure(o.verdict)
    requires before.Some? ==> RecordInvariant(before.value) && before.value.key == o.key
    requires Transition(before, o, policy).Ok?
    ensures
      var h := Transition(before, o, policy).value;
      && RecordInvariant(h) && h.key == o.key
      && (o.verdict.Succeeded? ==>
            && h.failures == 0 && h.state == Closed
            && h.lastSuccessAt == Some(o.finishedAt) && h.updatedAt == o.finishedAt
            && (before.Some? ==> h.lastFailureAt == before.value.lastFailureAt))
      && (o.verdict.Failed? ==>
            && h.failures == FailuresOf(before) && (h.state != Closed <==> Broken(before))
            && h.lastSuccessAt == LastSuccessOf(before)
            && (before.Some? ==> h.state == EffectiveState(before.value, o.finishedAt))
            && h.updatedAt == (if before.Some? && h.state == before.value.state then before.value.updatedAt
                               else o.finishedAt)
            && (before.Some? ==>
                  && h.lastFailureAt == before.value.lastFailureAt
                  && h.openedAt == before.value.openedAt && h.cooldownUntil == before.value.cooldownUntil))
  {
    TransitionNeverBuildsInvalidRecord(before, o, policy);
  }

  function FailuresOf(record: Option<Health>): nat {
    if record.None? then 0 else record.value.failures
  }

  function LastSuccessOf(record: Option<Health>): Option<Instant> {
    if record.None? then None else record.value.lastSuccessAt
  }

  /** The record is of a circuit that is not CLOSED. */
  predicate Broken(record: Option<Health>) {
    record.Some? && record.value.state != Closed
  }

  // ----- what the record says about the history ----------------------------------------------

  /** The starting record, as long as no success has been accepted since; what it counted still counts. */
  function Carried(start: Option<Health>, log: seq<Outcome>): Option<Health> {
    if AfterLastSuccess(log) > 0 then None else start
  }

  /**
   * Which failure of the streak opens the circuit: the first one if it was broken already, and
   * otherwise the one that reaches the threshold, at the earliest the next one.
   */
  function FirstOpening(carried: Option<Health>, policy: Policy): (n: nat)
    requires ValidPolicy(policy)
  {
    if Broken(carried) || FailuresOf(carried) >= policy.threshold then 0
    else policy.threshold - FailuresOf(carried) - 1
  }

  /** A running cooldown is respected, and so is the one every opening of the streak starts. */
  ghost predicate Spaced(carried: Option<Health>, streak: seq<Outcome>, policy: Policy)
    requires ValidPolicy(policy)
  {
    && (Broken(carried) && carried.value.cooldownUntil.Some? && streak != [] ==>
          carried.value.cooldownUntil.value <= streak[0].finishedAt)
    && forall i :: FirstOpening(carried, policy) < i < |streak| ==>
         streak[i - 1].finishedAt + policy.cooldown <= streak[i].finishedAt
  }

  /** The record `h` is what the carried record and the streak since then amount to. */
  ghost predicate Amounts(h: Health, carried: Option<Health>, streak: seq<Outcome>, policy: Policy)
    requires ValidPolicy(policy)
  {
    && h.failures == FailuresOf(carried) + |streak|
    && if streak == [] then
         && (h.state != Closed <==> Broken(carried))
         && (Broken(carried) ==>
               h.openedAt == carried.value.openedAt && h.cooldownUntil == carried.value.cooldownUntil)
       else
         var last := streak[|streak| - 1].finishedAt;
         && h.lastFailureAt == Some(last)
         && (h.state != Closed <==> FirstOpening(carried, policy) < |streak|)
         && (h.state != Closed ==> h.openedAt == Some(last) && h.cooldownUntil == Some(last + policy.cooldown))
  }

  /** The record is the summary of the starting record and the outcomes accepted since. */
  ghost predicate Summarizes(l: Ledger, start: Option<Health>, key: Key, policy: Policy)
    requires ValidPolicy(policy)
  {
    var carried, streak := Carried(start, l.accepted), Streak(l.accepted);
    && Spaced(carried, streak, policy)
    && match l.record
       case None => start.None? && l.accepted == []
       case Some(h) => h.key == key && RecordInvariant(h) && Amounts(h, carried, streak, policy)
  }

  /** A record the run may start from: absent, or left behind by any earlier run of the key. */
  ghost predicate ValidStart(start: Option<Health>, key: Key) {
    start.Some? ==> RecordInvariant(start.value) && start.value.key == key
  }

  lemma CarriedExtends(start: Option<Health>, log: seq<Outcome>, o: Outcome)
    ensures Carried(start, log + [o]) == if o.verdict.Succeeded? then None else Carried(start, log)
  {
    assert (log + [o])[..|log|] == log;
  }

  lemma SpacedExtends(carried: Option<Health>, streak: seq<Outcome>, o: Outcome, policy: Policy)
    requires ValidPolicy(policy) && Spaced(carried, streak, policy)
    requires streak == [] && Broken(carried) && carried.value.cooldownUntil.Some? ==>
               carried.value.cooldownUntil.value <= o.finishedAt
    requires FirstOpening(carried, policy) < |streak| ==>
               streak[|streak| - 1].finishedAt + policy.cooldown <= o.finishedAt
    ensures Spaced(carried, streak + [o], policy)
  {
  }

  /** What a record amounts to, when there is one; with none, nothing has been carried or counted. */
  ghost predicate AmountsIfAny(record: Option<Health>, carried: Option<Health>, streak: seq<Outcome>, policy: Policy)
    requires ValidPolicy(policy)
  {
    if record.None? then carried.None? && streak == [] else Amounts(record.value, carried, streak, policy)
  }

  lemma AmountsExtends(h: Health, before: Option<Health>, carried: Option<Health>, streak: seq<Outcome>, o: Outcome,
                       policy: Policy)
    requires ValidPolicy(policy) && AmountsIfAny(before, carried, streak, policy)
    requires CountsOneMore(h, before, o, policy)
    ensures Amounts(h, carried, streak + [o], policy)
  {
  }

  lemma CountedFailureKeepsSummary(l: Ledger, o: Outcome, start: Option<Health>, key: Key, policy: Policy)
    requires ValidPolicy(policy) && o.key == key && Summarizes(l, start, key, policy)
    requires CountedFailure(o.verdict) && Transition(l.record, o, policy).Ok?
    ensures Summarizes(Ledger(Some(Transition(l.record, o, policy).value), l.accepted + [o]), start, key, policy)
  {
    var h, carried, streak := Transition(l.record, o, policy).value, Carried(start, l.accepted), Streak(l.accepted);
    StreakExtends(l.accepted, o);
    CarriedExtends(start, l.accepted, o);
    CountedFailureEffect(l.record, o, policy);
    SpacedExtends(carried, streak, o, policy);
    AmountsExtends(h, l.record, carried, streak, o, policy);
  }

  lemma OtherOutcomeKeepsSummary(l: Ledger, o: Outcome, start: Option<Health>, key: Key, policy: Policy)
    requires ValidPolicy(policy) && o.key == key && Summarizes(l, start, key, policy)
    requires !CountedFailure(o.verdict) && Transition(l.record, o, policy).Ok?
    ensures Summarizes(Ledger(Some(Transition(l.record, o, policy).value), l.accepted + [o]), start, key, policy)
  {
    StreakExtends(l.accepted, o);
    CarriedExtends(start, l.accepted, o);
    OtherOutcomeEffect(l.record, o, policy);
  }

  lemma DeliverKeepsSummary(l: Ledger, d: Delivery, start: Option<Health>, key: Key, policy: Policy)
    requires ValidPolicy(policy) && d.outcome.key == key && Summarizes(l, start, key, policy)
    ensures Summarizes(Deliver(l, d, policy), start, key, policy)
  {
    if !d.readFails && !d.writeFails && Transition(l.record, d.outcome, policy).Ok? {
      if CountedFailure(d.outcome.verdict) {
        CountedFailureKeepsSummary(l, d.outcome, start, key, policy);
      } else {
        OtherOutcomeKeepsSummary(l, d.outcome, start, key, policy);
      }
    }
  }

  /**
   * The run invariant, from no record or from one that any earlier run left behind, even under
   * another policy: after any deliveries (stale, rejected and failing ones included) the stored
   * record is what the carried failures and the counted failures accepted since amount to.
   */
  lemma {:induction false} RunSummarizes(start: Option<Health>, ds: seq<Delivery>, key: Key, policy: Policy)
    requires ValidPolicy(policy) && AllFor(key, ds) && ValidStart(start, key)
    ensures Summarizes(Run(Ledger(start, []), ds, policy), start, key, policy)
  {
    if ds != [] {
      RunSummarizes(start, ds[..|ds| - 1], key, policy);
      DeliverKeepsSummary(Run(Ledger(start, []), ds[..|ds| - 1], policy), ds[|ds| - 1], start, key, policy);
    }
  }

  // ----- the outage bound --------------------------------------------------------------------

  lemma {:induction false} SpacedSpan(carried: Option<Health>, streak: seq<Outcome>, policy: Policy, n: nat)
    requires ValidPolicy(policy) && Spaced(carried, streak, policy)
    requires FirstOpening(carried, policy) < n <= |streak|
    ensures (n - 1 - FirstOpening(carried, policy)) * policy.cooldown
              <= streak[n - 1].finishedAt - streak[FirstOpening(carried, policy)].finishedAt
  {
    var first := FirstOpening(carried, policy);
    if first < n - 1 {
      SpacedSpan(carried, streak, policy, n - 1);
      assert streak[n - 2].finishedAt + policy.cooldown <= streak[n - 1].finishedAt;
      assert (n - 1 - first) * policy.cooldown == (n - 2 - first) * policy.cooldown + policy.cooldown;
    }
  }

  /** `n` cooldowns fit into the span. */
  predicate Fit(n: int, cooldown: int, span: int) {
    n * cooldown <= span && (cooldown > 0 ==> n <= span / cooldown)
  }

  /**
   * The outage of a circuit that is not CLOSED: without a failure counted since the start it is
   * the one it started with; otherwise the failures after the opening one, each paid for by one
   * elapsed cooldown, fit between that failure and the latest opening, and none of them came
   * before the cooldown that was running at the start had passed.
   */
  ghost predicate Outage(h: Health, carried: Option<Health>, streak: seq<Outcome>, policy: Policy)
    requires ValidPolicy(policy)
  {
    var first := FirstOpening(carried, policy);
    && h.failures == FailuresOf(carried) + |streak| && h.openedAt.Some?
    && (streak == [] ==> Broken(carried) && h.openedAt == carried.value.openedAt)
    && (streak != [] ==>
          && first < |streak|
          && Fit(|streak| - 1 - first, policy.cooldown, h.openedAt.value - streak[first].finishedAt)
          && (Broken(carried) ==>
                && carried.value.cooldownUntil.Some?
                && carried.value.cooldownUntil.value <= streak[0].finishedAt))
  }

  /** The outage bound for every run and every starting record. */
  lemma {:induction false} OutageBound(start: Option<Health>, ds: seq<Delivery>, key: Key, policy: Policy)
    requires ValidPolicy(policy) && AllFor(key, ds) && ValidStart(start, key)
    requires Broken(Run(Ledger(start, []), ds, policy).record)
    ensures
      var l := Run(Ledger(start, []), ds, policy);
      Outage(l.record.value, Carried(start, l.accepted), Streak(l.accepted), policy)
  {
    RunSummarizes(start, ds, key, policy);
    var l := Run(Ledger(start, []), ds, policy);
    var h, carried, streak := l.record.value, Carried(start, l.accepted), Streak(l.accepted);
    if streak != [] {
      var first := FirstOpening(carried, policy);
      SpacedSpan(carried, streak, policy, |streak|);
      if policy.cooldown > 0 {
        QuotientBound(|streak| - 1 - first, policy.cooldown, h.openedAt.value - streak[first].finishedAt);
      }
    }
  }

  /** An outage that began in this history lasts from the threshold-th failure of its streak. */
  lemma NewOutage(h: Health, streak: seq<Outcome>, policy: Policy)
    requires ValidPolicy(policy) && Outage(h, None, streak, policy)
    ensures policy.threshold <= |streak| == h.failures
    ensures Fit(h.failures - policy.threshold, policy.cooldown,
                h.openedAt.value - streak[policy.threshold - 1].finishedAt)
  {
  }

  /**
   * An outage that was going on at the start, opened under the same cooldown: every failure
   * counted since is paid for by one cooldown since the opening on record at the start.
   */
  lemma ContinuedOutage(h: Health, carried: Health, streak: seq<Outcome>, policy: Policy)
    requires ValidPolicy(policy) && Outage(h, Some(carried), streak, policy)
    requires carried.state != Closed && carried.openedAt.Some?
    requires carried.cooldownUntil == Some(carried.openedAt.value + policy.cooldown)
    ensures Fit(h.failures - carried.failures, policy.cooldown, h.openedAt.value - carried.openedAt.value)
  {
    var n, span := |streak|, h.openedAt.value - carried.openedAt.value;
    if n > 0 { assert n * policy.cooldown == (n - 1) * policy.cooldown + policy.cooldown; }
    if policy.cooldown > 0 { QuotientBound(n, policy.cooldown, span); }
  }

  lemma QuotientBound(n: int, d: int, span: int)
    requires d > 0 && n * d <= span
    ensures n <= span / d
  {
    var q := span / d;
    assert span < (q + 1) * d;
    ProductOrder(q + 1, n, d);
  }

  // ----- late outcomes -----------------------------------------------------------------------

  ghost predicate FinishedBy(ds: seq<Delivery>, limit: Instant) {
    forall i :: 0 <= i < |ds| ==> ds[i].outcome.finishedAt <= limit
  }

  /** The record is never newer than the outcomes it was made from. */
  lemma {:induction false} RecordNotAhead(start: Ledger, ds: seq<Delivery>, policy: Policy, limit: Instant)
    requires start.record.Some? ==> start.record.value.updatedAt <= limit
    requires FinishedBy(ds, limit)
    ensures var r := Run(start, ds, policy).record; r.Some? ==> r.value.updatedAt <= limit
  {
    if ds != [] { RecordNotAhead(start, ds[..|ds| - 1], policy, limit); }
  }

  /** Three overlapping calls: one times out, one meets an authentication failure, one succeeds late. */
  function LateTrace(key: Key, first: Instant, seen: Instant, late: Instant): seq<Delivery> {
    [Delivery(Outcome(key, Failed(Some(Timeout)), first), false, false),
     Delivery(Outcome(key, Failed(Some(AuthenticationError)), seen), false, false),
     Delivery(Outcome(key, Succeeded, late), false, false)]
  }

  /**
   * The exception in DecisiveOutcomeLeavesHalfOpen is reached from no record: the uncounted
   * failure writes the advance, and the success that finished before it is refused.
   */
  lemma {:induction false} LateSuccessStaysHalfOpen(key: Key, cooldown: nat, first: Instant, seen: Instant,
                                                    late: Instant)
    requires first + cooldown <= late < seen
    ensures
      var policy, ds := Policy(1, cooldown), LateTrace(key, first, seen, late);
      var before, after := Run(FRESH, ds[..2], policy).record, Run(FRESH, ds, policy).record;
      && before.Some? && before.value.state == HalfOpen && before.value.updatedAt == seen
      && Transition(before, ds[2].outcome, policy) == Err(ClockBehind)
      && after == before
  {
    var policy, ds := Policy(1, cooldown), LateTrace(key, first, seen, late);
    assert ds[..2][..1] == ds[..1] && ds[..1][..0] == [] && ds[..3] == ds;
    assert Run(FRESH, ds[..1], policy) == Deliver(FRESH, ds[0], policy);
    assert Run(FRESH, ds[..2], policy) == Deliver(Run(FRESH, ds[..1], policy), ds[1], policy);
    assert Run(FRESH, ds, policy) == Deliver(Run(FRESH, ds[..2], policy), ds[2], policy);
  }

  // ----- store faults ------------------------------------------------------------------------

  /**
   * A faulty delivery is as if it had not happened: removing every delivery whose read or
   * write failed changes neither the record nor the accepted outcomes.
   */
  function Faultless(ds: seq<Delivery>): seq<Delivery> {
    if ds == [] then []
    else
      var last := ds[|ds| - 1];
      Faultless(ds[..|ds| - 1]) + if last.readFails || last.writeFails then [] else [last]
  }

  lemma {:induction false} FaultsAreInvisible(start: Ledger, ds: seq<Delivery>, policy: Policy)
    ensures Run(start, ds, policy) == Run(start, Faultless(ds), policy)
  {
    if ds != [] {
      var front, last := ds[..|ds| - 1], ds[|ds| - 1];
      FaultsAreInvisible(start, front, policy);
      if !last.readFails && !last.writeFails {
        var kept := Faultless(front) + [last];
        assert kept[..|kept| - 1] == Faultless(front);
      } else {
        assert Faultless(ds) == Faultless(front);
      }
    }
  }
}
