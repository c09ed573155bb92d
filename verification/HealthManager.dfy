/** The health manager: one read, one transition and one write per normalized outcome. */
module HealthManager {
  import opened Common
  import opened Circuit
  import opened CircuitHistory

  datatype UpdateError = PersistenceFailed | TransitionRejected(reason: Rejection)

  /** The health table after one delivery. */
  function UpdatedHealth(health: map<Key, Health>, d: Delivery, policy: Policy): map<Key, Health> {
    if d.readFails || d.writeFails then health
    else match Transition(Lookup(health, d.outcome.key), d.outcome, policy)
      case Err(_) => health
      case Ok(h) => health[d.outcome.key := h]
  }

  /** Every stored record satisfies the run invariant, sits under its own key and is not from the future. */
  ghost predicate HealthInvariant(health: map<Key, Health>, clock: Instant) {
    forall k :: k in health ==>
      health[k].key == k && RecordInvariant(health[k]) && health[k].updatedAt <= clock
  }

  lemma UpdateKeepsHealth(health: map<Key, Health>, d: Delivery, clock: Instant, policy: Policy)
    requires ValidPolicy(policy) && d.outcome.finishedAt <= clock
    requires HealthInvariant(health, clock)
    ensures HealthInvariant(UpdatedHealth(health, d, policy), clock)
  {
    var stored := Lookup(health, d.outcome.key);
    TransitionNeverBuildsInvalidRecord(stored, d.outcome, policy);
    if Transition(stored, d.outcome, policy).Ok? {
      if CountedFailure(d.outcome.verdict) {
        CountedFailureEffect(stored, d.outcome, policy);
      } else {
        OtherOutcomeEffect(stored, d.outcome, policy);
      }
    }
  }

  class ProviderHealthManager {
    const policy: Policy
    var store: map<Key, Health>

    /** The policy is checked once, here. */
    constructor (policy: Policy, store: map<Key, Health>)
      requires ValidPolicy(policy)
      ensures this.policy == policy && this.store == store
    {
      this.policy := policy;
      this.store := store;
    }

    /**
     * A rejected transition or a failed read or write leaves the store untouched; otherwise
     * the returned record, and only it, is written under the outcome's key.
     */
    method Update(d: Delivery) returns (r: Result<Health, UpdateError>)
      modifies this
      ensures store == UpdatedHealth(old(store), d, policy)
      ensures r.Ok? ==> store == old(store)[d.outcome.key := r.value]
      ensures r.Err? ==> store == old(store)
      ensures r.Ok? <==>
                && !d.readFails && !d.writeFails
                && Transition(Lookup(old(store), d.outcome.key), d.outcome, policy).Ok?
      ensures r.Err? && r.error.TransitionRejected? ==>
                !d.readFails && Transition(Lookup(old(store), d.outcome.key), d.outcome, policy) == Err(r.error.reason)
    {
      if d.readFails {
        return Err(PersistenceFailed);
      }
      var updated := Transition(Lookup(store, d.outcome.key), d.outcome, policy);
      if updated.Err? {
        return Err(TransitionRejected(updated.error));
      }
      if d.writeFails {
        return Err(PersistenceFailed);
      }
      store := store[d.outcome.key := updated.value];
      return Ok(updated.value);
    }
  }
}
