/**
 * Process-local single-flight recovery claims. Leases are equal by value in the source and
 * are told apart by identity, so they are heap objects here.
 */
module Probes {
  import opened Common

  /** The claim table after `key` is claimed with `lease`. */
  function Acquired<L>(leases: map<Key, L>, key: Key, lease: L): map<Key, L> {
    if key in leases then leases else leases[key := lease]
  }

  /** The claim table after `lease`, issued for `key`, is given back. */
  function Released<L(==)>(leases: map<Key, L>, key: Key, lease: L): map<Key, L> {
    if key in leases && leases[key] == lease then leases - {key} else leases
  }

  class ProbeLease {
    const key: Key

    constructor (key: Key)
      ensures this.key == key
    {
      this.key := key;
    }
  }

  class HalfOpenProbeCoordinator {
    var leases: map<Key, ProbeLease>

    constructor ()
      ensures leases == map[]
    {
      leases := map[];
    }

    /** Claims `key` with a new lease unless it is claimed already; never waits. */
    method TryAcquire(key: Key) returns (lease: ProbeLease?)
      modifies this
      ensures lease == null <==> key in old(leases)
      ensures lease == null ==> leases == old(leases)
      ensures lease != null ==> fresh(lease) && lease.key == key && leases == Acquired(old(leases), key, lease)
    {
      if key in leases {
        return null;
      }
      var claim := new ProbeLease(key);
      leases := leases[key := claim];
      return claim;
    }

    /** A repeated or stale release leaves every claim, in particular another request's, in place. */
    method Release(lease: ProbeLease)
      modifies this
      ensures leases == Released(old(leases), lease.key, lease)
      ensures lease !in old(leases).Values ==> leases == old(leases)
      ensures forall k :: k in old(leases) && old(leases)[k] != lease ==> k in leases && leases[k] == old(leases)[k]
    {
      if lease.key in leases && leases[lease.key] == lease {
        leases := leases - {lease.key};
      }
    }

    method IsInFlight(key: Key) returns (busy: bool)
      ensures busy <==> key in leases
    {
      busy := key in leases;
    }
  }

  /** Giving back a lease just obtained restores the table; giving it back twice is giving it back once. */
  lemma ReleaseUndoesAcquire<L>(leases: map<Key, L>, key: Key, lease: L)
    requires key !in leases
    ensures Released(Acquired(leases, key, lease), key, lease) == leases
    ensures Released(Released(Acquired(leases, key, lease), key, lease), key, lease) == leases
  {
    assert leases[key := lease] - {key} == leases;
  }

  /** A claimed key keeps its claim, whoever asks for it again. */
  lemma AcquireIsExclusive<L>(leases: map<Key, L>, key: Key, first: L, second: L)
    requires key !in leases
    ensures Acquired(Acquired(leases, key, first), key, second) == leases[key := first]
  {
  }

  /**
   * The request sequence acquire, release, acquire again, release the first lease again: the
   * second owner keeps its claim whenever the two leases are different objects.
   */
  lemma StaleReleaseKeepsNewOwner<L>(leases: map<Key, L>, key: Key, first: L, second: L)
    requires key !in leases && first != second
    ensures
      var reclaimed := Acquired(Released(Acquired(leases, key, first), key, first), key, second);
      Released(reclaimed, key, first) == reclaimed && reclaimed[key] == second
  {
    ReleaseUndoesAcquire(leases, key, first);
  }
}
