/**
 * The circuit record of one provider/model pair and its transitions.
 *
 * Instants and durations are integers (microseconds). Every transition builds a
 * candidate record and passes it through the record validator, as the source does;
 * a validator failure is the value `Err(InvalidRecord)`, so that its absence is a
 * theorem and not an assumption.
 */
module Circuit {
  import opened Common

  type Instant = int

  datatype CircuitState = Closed | Open | HalfOpen

  datatype Health = Health(
    key: Key,
    state: CircuitState,
    failures: nat,
    openedAt: Option<Instant>,
    cooldownUntil: Option<Instant>,
    lastFailureAt: Option<Instant>,
    lastSuccessAt: Option<Instant>,
    updatedAt: Instant)

  datatype Rejection =
    | ClockBehind
    | CircuitStillOpen
    | InvalidRecord
    | InvalidPolicy
    | MissingErrorType

  datatype Policy = Policy(threshold: int, cooldown: int)

  /** What a normalized provider outcome says; a failure without an error type is malformed. */
  datatype Verdict = Succeeded | Failed(error: Option<ErrorType>)

  datatype Outcome = Outcome(key: Key, verdict: Verdict, finishedAt: Instant)

  predicate Counts(error: ErrorType) {
    error in {Timeout, ConnectionError, RateLimit, ProviderFault, InvalidResponse, UnknownError}
  }

  predicate CountedFailure(v: Verdict) {
    v.Failed? && v.error.Some? && Counts(v.error.value)
  }

  predicate ValidPolicy(p: Policy) {
    1 <= p.threshold && 0 <= p.cooldown
  }

  predicate NotAfter(event: Option<Instant>, limit: Instant) {
    event.Some? ==> event.value <= limit
  }

  /** The record validator. */
  predicate ValidState(h: Health) {
    var hasWindow := h.openedAt.Some? && h.cooldownUntil.Some?;
    && (h.state == Closed ==> h.openedAt.None? && h.cooldownUntil.None?)
    && (h.state != Closed ==> hasWindow)
    && (hasWindow ==> h.openedAt.value <= h.cooldownUntil.value)
    && NotAfter(h.openedAt, h.updatedAt)
    && NotAfter(h.lastFailureAt, h.updatedAt)
    && NotAfter(h.lastSuccessAt, h.updatedAt)
  }

  function Validated(h: Health): Result<Health, Rejection> {
    if ValidState(h) then Ok(h) else Err(InvalidRecord)
  }

  function Initial(key: Key, now: Instant): Health {
    Health(key, Closed, 0, None, None, None, None, now)
  }

  function Advance(h: Health, now: Instant): Result<Health, Rejection> {
    if now < h.updatedAt then Err(ClockBehind)
    else if h.state == Open && h.cooldownUntil.Some? && now >= h.cooldownUntil.value then
      Validated(h.(state := HalfOpen, updatedAt := now))
    else Ok(h)
  }

  function RecordSuccess(h: Health, now: Instant): Result<Health, Rejection> {
    match Advance(h, now)
    case Err(e) => Err(e)
    case Ok(current) =>
      if current.state == Open then Err(CircuitStillOpen)
      else Validated(current.(state := Closed, failures := 0, openedAt := None,
                              cooldownUntil := None, lastSuccessAt := Some(now), updatedAt := now))
  }

  function RecordFailure(h: Health, error: ErrorType, policy: Policy, now: Instant): Result<Health, Rejection> {
    if !ValidPolicy(policy) then Err(InvalidPolicy)
    else match Advance(h, now)
      case Err(e) => Err(e)
      case Ok(current) =>
        if !Counts(error) then Ok(current)
        else if current.state == Open then Err(CircuitStillOpen)
        else
          var failures := current.failures + 1;
          if current.state == HalfOpen || failures >= policy.threshold then
            Validated(current.(state := Open, failures := failures, openedAt := Some(now),
                               cooldownUntil := Some(now + policy.cooldown),
                               lastFailureAt := Some(now), updatedAt := now))
          else
            Validated(current.(failures := failures, lastFailureAt := Some(now), updatedAt := now))
  }

  /** What a health update computes from the stored record (absent before the first outcome). */
  function Transition(stored: Option<Health>, outcome: Outcome, policy: Policy): Result<Health, Rejection> {
    var now := outcome.finishedAt;
    var current := if stored.Some? then stored.value else Initial(outcome.key, now);
    match outcome.verdict
    case Succeeded => RecordSuccess(current, now)
    case Failed(None) => Err(MissingErrorType)
    case Failed(Some(error)) => RecordFailure(current, error, policy, now)
  }

  /** The circuit blocks: OPEN and its deadline not reached. */
  predicate Blocked(h: Health, now: Instant) {
    h.state == Open && h.cooldownUntil.Some? && now < h.cooldownUntil.value
  }

  // ----- eligibility -------------------------------------------------------------------------

  datatype Reason =
    | Healthy
    | CircuitOpen
    | ProbeEligible
    | ProbeAcquired
    | ProbeInFlight
    | HealthUnknown
    | StoreUnavailable

  datatype Eligibility = Eligibility(
    eligible: bool,
    state: Option<CircuitState>,
    probe: bool,
    cooldownUntil: Option<Instant>,
    failures: Option<nat>,
    reason: Reason)

  function HealthEligibility(health: Option<Health>, now: Instant): Result<Eligibility, Rejection> {
    if health.None? then Ok(Eligibility(true, Some(Closed), false, None, None, HealthUnknown))
    else match Advance(health.value, now)
      case Err(e) => Err(e)
      case Ok(current) =>
        Ok(Eligibility(
          current.state != Open, Some(current.state), false,
          health.value.cooldownUntil, Some(health.value.failures),
          if current.state == Open then CircuitOpen
          else if current.state == HalfOpen then ProbeEligible else Healthy))
  }

  /** Reading for routing: any read or evaluation error fails open. */
  function Evidence(readable: bool, health: Option<Health>, now: Instant): Eligibility {
    var failOpen := Eligibility(true, None, false, None, None, StoreUnavailable);
    if !readable then failOpen
    else match HealthEligibility(health, now)
      case Ok(e) => e
      case Err(_) => failOpen
  }

  // ----- facts about single transitions ------------------------------------------------------

  /**
   * No record a transition builds is ever refused by the record validator, whatever valid
   * record it starts from; the record it returns is valid and keeps its key.
   */
  lemma TransitionNeverBuildsInvalidRecord(stored: Option<Health>, outcome: Outcome, policy: Policy)
    requires ValidPolicy(policy)
    requires stored.Some? ==> ValidState(stored.value) && stored.value.key == outcome.key
    ensures Transition(stored, outcome, policy) != Err(InvalidRecord)
    ensures Transition(stored, outcome, policy).Ok? ==>
              var h := Transition(stored, outcome, policy).value;
              ValidState(h) && h.key == outcome.key && h.updatedAt <= outcome.finishedAt
  {
    if stored.Some? {
      var h := stored.value;
      assert Advance(h, outcome.finishedAt).Ok? ==> ValidState(Advance(h, outcome.finishedAt).value);
    } else {
      assert ValidState(Initial(outcome.key, outcome.finishedAt));
    }
  }

  /**
   * Exactly which well-formed outcomes are accepted: the ones that are not older than the
   * record and that either do not count or find the circuit not blocking.
   */
  lemma AcceptedExactlyWhen(h: Health, outcome: Outcome, policy: Policy)
    requires ValidPolicy(policy) && ValidState(h) && h.key == outcome.key
    requires outcome.verdict != Failed(None)
    ensures Transition(Some(h), outcome, policy).Ok? <==>
              && h.updatedAt <= outcome.finishedAt
              && ((outcome.verdict.Failed? && !CountedFailure(outcome.verdict)) || !Blocked(h, outcome.finishedAt))
  {
    TransitionNeverBuildsInvalidRecord(Some(h), outcome, policy);
    assert h.state == Open ==> h.cooldownUntil.Some?;
  }

  /** The record left in the store by an outcome: the new one, or the old one when it is rejected. */
  function Stored(before: Option<Health>, outcome: Outcome, policy: Policy): Option<Health> {
    match Transition(before, outcome, policy)
    case Ok(h) => Some(h)
    case Err(_) => before
  }

  /**
   * A success or a counted failure never leaves the stored circuit HALF_OPEN, accepted or
   * not, except in one family: the record was HALF_OPEN already and is newer than the outcome.
   */
  lemma DecisiveOutcomeLeavesHalfOpen(before: Option<Health>, outcome: Outcome, policy: Policy)
    requires ValidPolicy(policy)
    requires before.Some? ==> ValidState(before.value) && before.value.key == outcome.key
    requires outcome.verdict.Succeeded? || CountedFailure(outcome.verdict)
    ensures
      var after := Stored(before, outcome, policy);
      (after.Some? && after.value.state == HalfOpen) <==>
      (before.Some? && before.value.state == HalfOpen && outcome.finishedAt < before.value.updatedAt)
  {
    TransitionNeverBuildsInvalidRecord(before, outcome, policy);
  }

  /**
   * Routing refuses a key exactly when the store is readable, the clock is not behind the
   * record, and the circuit blocks; every other reading, including every failure, is eligible.
   */
  lemma IneligibleExactlyWhenBlocked(readable: bool, health: Option<Health>, now: Instant)
    requires health.Some? ==> ValidState(health.value)
    ensures !Evidence(readable, health, now).eligible <==>
              readable && health.Some? && health.value.updatedAt <= now && Blocked(health.value, now)
  {
    if health.Some? {
      var h := health.value;
      assert h.state == Open ==> h.cooldownUntil.Some?;
      assert Advance(h, now) != Err(InvalidRecord);
    }
  }

  /**
   * What a validated record says: it has an opening and a deadline after it exactly when it is
   * not CLOSED, and nothing it notes is later than its last update.
   */
  lemma RecordsSay(h: Health)
    requires ValidState(h)
    ensures h.state == Closed <==> h.openedAt.None?
    ensures h.state == Closed <==> h.cooldownUntil.None?
    ensures h.state != Closed ==> h.openedAt.value <= h.updatedAt && h.openedAt.value <= h.cooldownUntil.value
    ensures h.lastFailureAt.Some? ==> h.lastFailureAt.value <= h.updatedAt
    ensures h.lastSuccessAt.Some? ==> h.lastSuccessAt.value <= h.updatedAt
  {
  }

  /** Which failures count: all but a refused authentication. */
  lemma CountedExactly(v: Verdict)
    ensures CountedFailure(v) <==> v.Failed? && v.error.Some? && v.error != Some(AuthenticationError)
    ensures v == Failed(None) ==>
              forall stored, key, now, policy :: Transition(stored, Outcome(key, v, now), policy).Err?
  {
    if v.Failed? && v.error.Some? {
      match v.error.value {
        case Timeout =>
        case ConnectionError =>
        case AuthenticationError =>
        case RateLimit =>
        case ProviderFault =>
        case InvalidResponse =>
        case UnknownError =>
      }
    }
  }

  /** The state a readable record is in at `now`: an OPEN circuit recovers when its deadline has come. */
  function EffectiveState(h: Health, now: Instant): CircuitState
    requires ValidState(h)
  {
    if h.state == Open && h.cooldownUntil.value <= now then HalfOpen else h.state
  }

  /**
   * What routing is told about a key: the effective state, the count and the deadline on record,
   * and the reason that goes with the state; without a record the key is healthy but unknown,
   * and every failure to read or evaluate is told as such and fails open.
   */
  lemma EvidenceReports(readable: bool, health: Option<Health>, now: Instant)
    requires health.Some? ==> ValidState(health.value)
    ensures
      var e := Evidence(readable, health, now);
      && !e.probe
      && (e.reason == StoreUnavailable <==> !readable || (health.Some? && now < health.value.updatedAt))
      && (e.reason == StoreUnavailable ==>
            e.eligible && e.state.None? && e.cooldownUntil.None? && e.failures.None?)
      && (e.reason == HealthUnknown <==> readable && health.None?)
      && (e.reason == HealthUnknown ==>
            e.eligible && e.state == Some(Closed) && e.cooldownUntil.None? && e.failures.None?)
      && (readable && health.Some? && health.value.updatedAt <= now ==>
            var h, state := health.value, EffectiveState(health.value, now);
            && e.state == Some(state) && e.failures == Some(h.failures) && e.cooldownUntil == h.cooldownUntil
            && (e.eligible <==> state != Open)
            && (e.reason == CircuitOpen <==> state == Open)
            && (e.reason == ProbeEligible <==> state == HalfOpen)
            && (e.reason == Healthy <==> state == Closed))
  {
    if health.Some? { assert Advance(health.value, now) != Err(InvalidRecord); }
  }
}
