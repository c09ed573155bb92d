/**
 * Confidence-blended candidate scores. Scores and weights are reals; the final rounding to six
 * digits is round-half-even, as Python's `round` does.
 */
module Scoring {
  import opened Common
  import opened Explanation

  const MIN_MEASURED_SAMPLES := 5
  const FULL_CONFIDENCE_SAMPLES := 50
  const LATENCY_TARGET_MS := 1000.0
  const LATENCY_CAP_MS := 30000.0
  const COST_TARGET_USD := 0.001
  const COST_EPSILON := 0.000000000001
  const RELIABILITY_PRIOR_STRENGTH := 10.0

  datatype Candidate = Candidate(key: Key, quality: real, cost: real, latency: real, reliability: real)

  datatype Preferences = Preferences(quality: real, cost: real, latency: real, reliability: real)

  /** A metrics snapshot of one key, as far as scoring reads it. */
  datatype Metrics = Metrics(
    sampleCount: nat,
    successCount: nat,
    successRate: Option<real>,
    p50Latency: Option<real>,
    pricedCount: nat,
    p50Cost: Option<real>)

  datatype QualityEvidence = QualityEvidence(score: Option<real>, confidence: real)

  /** Everything a score depends on besides the candidate itself. */
  datatype Inputs = Inputs(preferences: Preferences, metrics: map<Key, Metrics>, quality: map<Key, QualityEvidence>)

  predicate ValidCandidate(c: Candidate) {
    Unit(c.quality) && Unit(c.cost) && Unit(c.latency) && Unit(c.reliability)
  }

  predicate ValidPreferences(p: Preferences) {
    && 0.0 <= p.quality && 0.0 <= p.cost && 0.0 <= p.latency && 0.0 <= p.reliability
    && p.quality + p.cost + p.latency + p.reliability > 0.0
  }

  /** The snapshot validator, on the fields kept here. */
  predicate ValidMetrics(m: Metrics) {
    && m.successCount <= m.sampleCount
    && (m.sampleCount == 0 ==> m.pricedCount == 0 && m.successRate.None? && m.p50Latency.None? && m.p50Cost.None?)
    && (m.sampleCount > 0 ==> m.pricedCount <= m.successCount && (m.pricedCount == 0 <==> m.p50Cost.None?))
    && (m.p50Latency.Some? ==> 0.0 <= m.p50Latency.value)
    && (m.p50Cost.Some? ==> 0.0 <= m.p50Cost.value)
  }

  predicate ValidQuality(q: QualityEvidence) {
    Unit(q.confidence) && (q.score.Some? ==> Unit(q.score.value))
  }

  ghost predicate ValidInputs(inputs: Inputs) {
    && ValidPreferences(inputs.preferences)
    && (forall k :: k in inputs.metrics ==> ValidMetrics(inputs.metrics[k]))
    && (forall k :: k in inputs.quality ==> ValidQuality(inputs.quality[k]))
  }

  function Normalized(p: Preferences): Preferences
    requires ValidPreferences(p)
  {
    var total := p.quality + p.cost + p.latency + p.reliability;
    Preferences(p.quality / total, p.cost / total, p.latency / total, p.reliability / total)
  }

  function Max(a: real, b: real): real { if a < b then b else a }

  function Min(a: real, b: real): real { if b < a then b else a }

  function Clamp(x: real): real { Max(0.0, Min(x, 1.0)) }

  function ConfidenceForSamples(n: nat): real {
    if n < MIN_MEASURED_SAMPLES then 0.0
    else if n >= FULL_CONFIDENCE_SAMPLES then 1.0
    else (n - MIN_MEASURED_SAMPLES) as real / (FULL_CONFIDENCE_SAMPLES - MIN_MEASURED_SAMPLES) as real
  }

  function NormalizeLatency(ms: real): real {
    Clamp(LATENCY_TARGET_MS / Max(Min(ms, LATENCY_CAP_MS), 1.0))
  }

  function NormalizeCost(usd: real): real {
    Clamp(COST_TARGET_USD / Max(usd, COST_EPSILON))
  }

  function Blend(baseline: real, measured: real, confidence: real): real {
    baseline * (1.0 - confidence) + measured * confidence
  }

  function LatencyScore(baseline: real, m: Option<Metrics>): real {
    if m.None? || m.value.p50Latency.None? then baseline
    else
      var confidence := ConfidenceForSamples(m.value.sampleCount);
      if confidence == 0.0 then baseline
      else Blend(baseline, NormalizeLatency(m.value.p50Latency.value), confidence)
  }

  function Smoothed(baseline: real, m: Metrics): real {
    (m.successCount as real + baseline * RELIABILITY_PRIOR_STRENGTH)
    / (m.sampleCount as real + RELIABILITY_PRIOR_STRENGTH)
  }

  function ReliabilityScore(baseline: real, m: Option<Metrics>): real {
    if m.None? || m.value.successRate.None? then baseline
    else
      var confidence := ConfidenceForSamples(m.value.sampleCount);
      if confidence == 0.0 then baseline
      else Blend(baseline, Clamp(Smoothed(baseline, m.value)), confidence)
  }

  function CostScore(baseline: real, m: Option<Metrics>): real {
    if m.None? || m.value.p50Cost.None? then baseline
    else
      var confidence := ConfidenceForSamples(m.value.pricedCount);
      if confidence == 0.0 then baseline
      else Blend(baseline, NormalizeCost(m.value.p50Cost.value), confidence)
  }

  function QualityScore(baseline: real, q: Option<QualityEvidence>): real {
    if q.Some? && q.value.score.Some? && q.value.confidence > 0.0
    then Blend(baseline, q.value.score.value, q.value.confidence)
    else baseline
  }

  function HalfEven(x: real): int {
    var down := x.Floor;
    var rest := x - down as real;
    if rest < 0.5 then down
    else if rest > 0.5 then down + 1
    else if down % 2 == 0 then down else down + 1
  }

  function RoundSix(x: real): real {
    HalfEven(x * 1000000.0) as real / 1000000.0
  }

  function Weighted(w: Preferences, quality: real, cost: real, latency: real, reliability: real): real {
    quality * w.quality + cost * w.cost + latency * w.latency + reliability * w.reliability
  }

  function ScoreOf(c: Candidate, inputs: Inputs): Signal
    requires ValidPreferences(inputs.preferences)
  {
    var m, q := Lookup(inputs.metrics, c.key), Lookup(inputs.quality, c.key);
    var quality, cost := QualityScore(c.quality, q), CostScore(c.cost, m);
    var latency, reliability := LatencyScore(c.latency, m), ReliabilityScore(c.reliability, m);
    Signal(c.key, quality, RoundSix(cost), RoundSix(latency), RoundSix(reliability),
           if m.Some? then m.value.sampleCount else 0,
           RoundSix(Weighted(Normalized(inputs.preferences), quality, cost, latency, reliability)),
           1, false, None)
  }

  // ----- arithmetic of the pieces ------------------------------------------------------------

  lemma HalfEvenMonotone(x: real, y: real)
    requires x <= y
    ensures HalfEven(x) <= HalfEven(y)
  {
  }

  lemma RoundSixMonotone(x: real, y: real)
    requires x <= y
    ensures RoundSix(x) <= RoundSix(y)
  {
    HalfEvenMonotone(x * 1000000.0, y * 1000000.0);
  }

  lemma RoundSixKeepsUnit(x: real)
    requires Unit(x)
    ensures Unit(RoundSix(x))
  {
  }

  lemma QuotientAntitone(n: real, x: real, y: real)
    requires 0.0 < n && 0.0 < x <= y
    ensures n / y <= n / x
  {
  }

  lemma NormalizationIsAntitone(better: real, worse: real)
    requires better <= worse
    ensures NormalizeLatency(worse) <= NormalizeLatency(better)
    ensures NormalizeCost(worse) <= NormalizeCost(better)
  {
    QuotientAntitone(LATENCY_TARGET_MS, Max(Min(better, LATENCY_CAP_MS), 1.0), Max(Min(worse, LATENCY_CAP_MS), 1.0));
    QuotientAntitone(COST_TARGET_USD, Max(better, COST_EPSILON), Max(worse, COST_EPSILON));
  }

  /** Sample confidence is a ramp on [0,1]; it is zero exactly up to the minimum, the minimum included. */
  lemma ConfidenceRamp(n: nat)
    ensures Unit(ConfidenceForSamples(n))
    ensures ConfidenceForSamples(n) == 0.0 <==> n <= MIN_MEASURED_SAMPLES
    ensures ConfidenceForSamples(n) == 1.0 <==> n >= FULL_CONFIDENCE_SAMPLES
  {
  }

  lemma BlendMonotone(s: real, a: real, b: real, c: real)
    requires a <= b && 0.0 <= c
    ensures Blend(s, a, c) <= Blend(s, b, c)
  {
  }

  lemma UnitProduct(x: real, y: real)
    requires Unit(x) && 0.0 <= y
    ensures 0.0 <= x * y <= y
  {
  }

  lemma BlendUnit(s: real, m: real, c: real)
    requires Unit(s) && Unit(m) && Unit(c)
    ensures Unit(Blend(s, m, c))
  {
    var d := 1.0 - c;
    UnitProduct(s, d);
    UnitProduct(m, c);
    var x, y := s * d, m * c;
    assert 0.0 <= x <= d && 0.0 <= y <= c;
    assert Blend(s, m, c) == x + y;
  }

  lemma WeightedMonotone(w: Preferences, q: real, c: real, l: real, r: real, q': real, c': real, l': real, r': real)
    requires 0.0 <= w.quality && 0.0 <= w.cost && 0.0 <= w.latency && 0.0 <= w.reliability
    requires q <= q' && c <= c' && l <= l' && r <= r'
    ensures Weighted(w, q, c, l, r) <= Weighted(w, q', c', l', r')
  {
  }

  lemma NormalizedWeights(p: Preferences)
    requires ValidPreferences(p)
    ensures
      var w := Normalized(p);
      && 0.0 <= w.quality && 0.0 <= w.cost && 0.0 <= w.latency && 0.0 <= w.reliability
      && w.quality + w.cost + w.latency + w.reliability == 1.0
  {
  }

  /** Every published score is in [0,1], so the signal validator never refuses a scored candidate. */
  lemma ScoresAreUnit(c: Candidate, inputs: Inputs)
    requires ValidCandidate(c) && ValidInputs(inputs)
    ensures
      var s := ScoreOf(c, inputs);
      Unit(s.quality) && Unit(s.cost) && Unit(s.latency) && Unit(s.reliability) && Unit(s.finalScore)
  {
    var m, q := Lookup(inputs.metrics, c.key), Lookup(inputs.quality, c.key);
    var quality, cost := QualityScore(c.quality, q), CostScore(c.cost, m);
    var latency, reliability := LatencyScore(c.latency, m), ReliabilityScore(c.reliability, m);
    if q.Some? && q.value.score.Some? { BlendUnit(c.quality, q.value.score.value, q.value.confidence); }
    if m.Some? {
      ConfidenceRamp(m.value.sampleCount);
      ConfidenceRamp(m.value.pricedCount);
      if m.value.p50Cost.Some? {
        BlendUnit(c.cost, NormalizeCost(m.value.p50Cost.value), ConfidenceForSamples(m.value.pricedCount));
      }
      if m.value.p50Latency.Some? {
        BlendUnit(c.latency, NormalizeLatency(m.value.p50Latency.value), ConfidenceForSamples(m.value.sampleCount));
      }
      BlendUnit(c.reliability, Clamp(Smoothed(c.reliability, m.value)), ConfidenceForSamples(m.value.sampleCount));
    }
    var w := Normalized(inputs.preferences);
    NormalizedWeights(inputs.preferences);
    WeightedMonotone(w, 0.0, 0.0, 0.0, 0.0, quality, cost, latency, reliability);
    WeightedMonotone(w, quality, cost, latency, reliability, 1.0, 1.0, 1.0, 1.0);
    RoundSixKeepsUnit(cost);
    RoundSixKeepsUnit(latency);
    RoundSixKeepsUnit(reliability);
    RoundSixKeepsUnit(Weighted(w, quality, cost, latency, reliability));
  }

  // ----- what the signals are ----------------------------------------------------------------

  /** A measured latency up to the target is perfect; beyond, the score falls as its inverse, down to the cap. */
  lemma LatencyMeaning(ms: real)
    ensures ms <= 1000.0 ==> NormalizeLatency(ms) == 1.0
    ensures 1000.0 <= ms <= 30000.0 ==> NormalizeLatency(ms) * ms == 1000.0
    ensures 30000.0 <= ms ==> NormalizeLatency(ms) * 30000.0 == 1000.0
  {
    if 1000.0 < ms <= 30000.0 { InverseMeaning(1000.0, ms); }
  }

  /** A measured cost up to the target is perfect; beyond, the score falls as its inverse. */
  lemma CostMeaning(usd: real)
    ensures usd <= 0.001 ==> NormalizeCost(usd) == 1.0
    ensures 0.001 <= usd ==> NormalizeCost(usd) * usd == 0.001
  {
    if 0.001 < usd {
      InverseMeaning(0.001, usd);
    } else {
      InverseAbove(0.001, Max(usd, COST_EPSILON));
    }
  }

  lemma InverseMeaning(target: real, x: real)
    requires 0.0 < target <= x
    ensures 0.0 <= target / x <= 1.0 && (target / x) * x == target
  {
  }

  lemma InverseAbove(target: real, x: real)
    requires 0.0 < x <= target
    ensures 1.0 <= target / x
  {
  }

  /** The measured reliability is the success rate with ten extra samples at the static rate. */
  lemma ReliabilityMeaning(baseline: real, m: Metrics)
    requires Unit(baseline) && m.successCount <= m.sampleCount
    ensures Clamp(Smoothed(baseline, m)) * (m.sampleCount as real + 10.0) == m.successCount as real + 10.0 * baseline
  {
    var n, x := m.sampleCount as real + 10.0, m.successCount as real + baseline * 10.0;
    InverseUnit(x, n);
  }

  lemma InverseUnit(x: real, n: real)
    requires 0.0 <= x <= n && 0.0 < n
    ensures Unit(x / n) && (x / n) * n == x
  {
  }

  /** From the static to the measured score: static up to five samples, measured from fifty, linear between. */
  predicate Interpolates(score: real, baseline: real, measured: real, n: nat) {
    if n <= 5 then score == baseline
    else if n >= 50 then score == measured
    else 45.0 * score == (50 - n) as real * baseline + (n - 5) as real * measured
  }

  lemma BlendInterpolates(baseline: real, measured: real, n: nat)
    requires n > 5
    ensures Interpolates(Blend(baseline, measured, ConfidenceForSamples(n)), baseline, measured, n)
  {
    if n < 50 {
      var c, k := ConfidenceForSamples(n), (n - 5) as real;
      assert 45.0 * c == k;
      assert 45.0 * (baseline * (1.0 - c)) == baseline * (45.0 - 45.0 * c);
      assert 45.0 * (measured * c) == measured * (45.0 * c);
    }
  }

  /** Each measured signal moves from its static to its measured score with its own sample count. */
  lemma SignalsInterpolate(c: Candidate, m: Metrics)
    ensures m.p50Latency.Some? ==>
              Interpolates(LatencyScore(c.latency, Some(m)), c.latency, NormalizeLatency(m.p50Latency.value),
                           m.sampleCount)
    ensures m.p50Cost.Some? ==>
              Interpolates(CostScore(c.cost, Some(m)), c.cost, NormalizeCost(m.p50Cost.value), m.pricedCount)
    ensures m.successRate.Some? ==>
              Interpolates(ReliabilityScore(c.reliability, Some(m)), c.reliability,
                           Clamp(Smoothed(c.reliability, m)), m.sampleCount)
    ensures m.p50Latency.None? ==> LatencyScore(c.latency, Some(m)) == c.latency
    ensures m.p50Cost.None? ==> CostScore(c.cost, Some(m)) == c.cost
    ensures m.successRate.None? ==> ReliabilityScore(c.reliability, Some(m)) == c.reliability
  {
    ConfidenceRamp(m.sampleCount);
    ConfidenceRamp(m.pricedCount);
    if m.p50Latency.Some? && m.sampleCount > 5 {
      BlendInterpolates(c.latency, NormalizeLatency(m.p50Latency.value), m.sampleCount);
    }
    if m.p50Cost.Some? && m.pricedCount > 5 {
      BlendInterpolates(c.cost, NormalizeCost(m.p50Cost.value), m.pricedCount);
    }
    if m.successRate.Some? && m.sampleCount > 5 {
      BlendInterpolates(c.reliability, Clamp(Smoothed(c.reliability, m)), m.sampleCount);
    }
  }

  /** Quality moves from the static to the benchmark score in proportion to the benchmark confidence. */
  lemma QualityInterpolates(baseline: real, q: QualityEvidence)
    requires ValidQuality(q)
    ensures q.score.None? ==> QualityScore(baseline, Some(q)) == baseline
    ensures q.score.Some? ==>
              QualityScore(baseline, Some(q)) - baseline == q.confidence * (q.score.value - baseline)
  {
  }

  // ----- what the final score is -------------------------------------------------------------

  /** Rounding moves a number by at most half a millionth, onto a millionth, and halves onto an even one. */
  lemma RoundSixIsNearest(x: real)
    ensures
      var n := HalfEven(x * 1000000.0);
      && RoundSix(x) * 1000000.0 == n as real
      && -0.5 <= n as real - x * 1000000.0 <= 0.5
      && (n as real - x * 1000000.0 == 0.5 || n as real - x * 1000000.0 == -0.5 ==> n % 2 == 0)
  {
  }

  datatype Aspect = QualityAspect | CostAspect | LatencyAspect | ReliabilityAspect

  /** How much the request cares about an aspect. */
  function PreferenceFor(p: Preferences, aspect: Aspect): real {
    match aspect
    case QualityAspect => p.quality
    case CostAspect => p.cost
    case LatencyAspect => p.latency
    case ReliabilityAspect => p.reliability
  }

  /** How the candidate does in an aspect, before rounding. */
  function Part(c: Candidate, inputs: Inputs, aspect: Aspect): real {
    var m := Lookup(inputs.metrics, c.key);
    match aspect
    case QualityAspect => QualityScore(c.quality, Lookup(inputs.quality, c.key))
    case CostAspect => CostScore(c.cost, m)
    case LatencyAspect => LatencyScore(c.latency, m)
    case ReliabilityAspect => ReliabilityScore(c.reliability, m)
  }

  function TotalPreference(p: Preferences): real {
    p.quality + p.cost + p.latency + p.reliability
  }

  /** The part as the signal publishes it. */
  function Published(s: Signal, aspect: Aspect): real {
    match aspect
    case QualityAspect => RoundSix(s.quality)
    case CostAspect => s.cost
    case LatencyAspect => s.latency
    case ReliabilityAspect => s.reliability
  }

  /** The exact average of four numbers, each weighted by the preference for its own aspect. */
  function Mean(p: Preferences, quality: real, cost: real, latency: real, reliability: real): real
    requires ValidPreferences(p)
  {
    (p.quality * quality + p.cost * cost + p.latency * latency + p.reliability * reliability) / TotalPreference(p)
  }

  /** The average of the candidate's parts. */
  function Average(c: Candidate, inputs: Inputs): real
    requires ValidPreferences(inputs.preferences)
  {
    Mean(inputs.preferences, Part(c, inputs, QualityAspect), Part(c, inputs, CostAspect),
         Part(c, inputs, LatencyAspect), Part(c, inputs, ReliabilityAspect))
  }

  lemma SharesAreMean(q: real, c: real, l: real, r: real, p: Preferences)
    requires ValidPreferences(p)
    ensures Weighted(Normalized(p), q, c, l, r) == Mean(p, q, c, l, r)
  {
    var total := TotalPreference(p);
    ShareTimes(q, p.quality, total);
    ShareTimes(c, p.cost, total);
    ShareTimes(l, p.latency, total);
    ShareTimes(r, p.reliability, total);
  }

  lemma ShareTimes(x: real, w: real, total: real)
    requires total > 0.0
    ensures x * (w / total) == (w * x) / total
  {
  }

  /** What an amount contributes to an average in which it has the weight `w` of `total`. */
  function Share(w: real, x: real, total: real): real
    requires total > 0.0
  {
    (w * x) / total
  }

  /** Raising one of the four numbers raises the average in proportion to its preference. */
  lemma MeanGains(p: Preferences, q: real, c: real, l: real, r: real, x: real)
    requires ValidPreferences(p)
    ensures Mean(p, q + x, c, l, r) - Mean(p, q, c, l, r) == Share(p.quality, x, TotalPreference(p))
    ensures Mean(p, q, c + x, l, r) - Mean(p, q, c, l, r) == Share(p.cost, x, TotalPreference(p))
    ensures Mean(p, q, c, l + x, r) - Mean(p, q, c, l, r) == Share(p.latency, x, TotalPreference(p))
    ensures Mean(p, q, c, l, r + x) - Mean(p, q, c, l, r) == Share(p.reliability, x, TotalPreference(p))
  {
    var total := TotalPreference(p);
    var whole := p.quality * q + p.cost * c + p.latency * l + p.reliability * r;
    SumQuotient(whole, p.quality * x, total);
    SumQuotient(whole, p.cost * x, total);
    SumQuotient(whole, p.latency * x, total);
    SumQuotient(whole, p.reliability * x, total);
    assert p.quality * (q + x) == p.quality * q + p.quality * x;
    assert p.cost * (c + x) == p.cost * c + p.cost * x;
    assert p.latency * (l + x) == p.latency * l + p.latency * x;
    assert p.reliability * (r + x) == p.reliability * r + p.reliability * x;
  }

  lemma SumQuotient(a: real, b: real, d: real)
    requires d > 0.0
    ensures (a + b) / d - a / d == b / d
  {
  }

  /** With one preference only, the average is the one number it weighs. */
  lemma MeanOfOne(w: real, q: real, c: real, l: real, r: real)
    requires w > 0.0
    ensures Mean(Preferences(w, 0.0, 0.0, 0.0), q, c, l, r) == q
    ensures Mean(Preferences(0.0, w, 0.0, 0.0), q, c, l, r) == c
    ensures Mean(Preferences(0.0, 0.0, w, 0.0), q, c, l, r) == l
    ensures Mean(Preferences(0.0, 0.0, 0.0, w), q, c, l, r) == r
  {
    MeanIs(Preferences(w, 0.0, 0.0, 0.0), q, c, l, r, w, q);
    MeanIs(Preferences(0.0, w, 0.0, 0.0), q, c, l, r, w, c);
    MeanIs(Preferences(0.0, 0.0, w, 0.0), q, c, l, r, w, l);
    MeanIs(Preferences(0.0, 0.0, 0.0, w), q, c, l, r, w, r);
  }

  lemma MeanIs(p: Preferences, q: real, c: real, l: real, r: real, w: real, x: real)
    requires ValidPreferences(p) && TotalPreference(p) == w
    requires p.quality * q + p.cost * c + p.latency * l + p.reliability * r == w * x
    ensures Mean(p, q, c, l, r) == x
  {
    WholeShare(w, x);
  }

  lemma WholeShare(w: real, x: real)
    requires w > 0.0
    ensures (w * x) / w == x
  {
  }

  /**
   * The published signal: every part rounded, and as final score the rounded average of the
   * parts, each weighted by the preference for its own aspect.
   */
  lemma FinalScoreIsAverage(c: Candidate, inputs: Inputs)
    requires ValidPreferences(inputs.preferences)
    ensures ScoreOf(c, inputs).key == c.key
    ensures ScoreOf(c, inputs).finalScore == RoundSix(Average(c, inputs))
    ensures ScoreOf(c, inputs).sampleCount == if c.key in inputs.metrics then inputs.metrics[c.key].sampleCount else 0
  {
    SharesAreMean(Part(c, inputs, QualityAspect), Part(c, inputs, CostAspect), Part(c, inputs, LatencyAspect),
                  Part(c, inputs, ReliabilityAspect), inputs.preferences);
  }

  lemma PartsArePublished(c: Candidate, inputs: Inputs, aspect: Aspect)
    requires ValidPreferences(inputs.preferences)
    ensures Published(ScoreOf(c, inputs), aspect) == RoundSix(Part(c, inputs, aspect))
    ensures ScoreOf(c, inputs).quality == Part(c, inputs, QualityAspect)
  {
    match aspect {
      case QualityAspect =>
      case CostAspect =>
      case LatencyAspect =>
      case ReliabilityAspect =>
    }
  }

  /** The request cares about this aspect alone. */
  predicate CaresOnlyFor(p: Preferences, aspect: Aspect) {
    match aspect
    case QualityAspect => p.cost == 0.0 && p.latency == 0.0 && p.reliability == 0.0
    case CostAspect => p.quality == 0.0 && p.latency == 0.0 && p.reliability == 0.0
    case LatencyAspect => p.quality == 0.0 && p.cost == 0.0 && p.reliability == 0.0
    case ReliabilityAspect => p.quality == 0.0 && p.cost == 0.0 && p.latency == 0.0
  }

  /** With one preference only, the final score is the published score of that aspect. */
  lemma SinglePreferenceDecides(c: Candidate, inputs: Inputs, aspect: Aspect)
    requires ValidPreferences(inputs.preferences) && CaresOnlyFor(inputs.preferences, aspect)
    ensures ScoreOf(c, inputs).finalScore == Published(ScoreOf(c, inputs), aspect)
  {
    FinalScoreIsAverage(c, inputs);
    PartsArePublished(c, inputs, aspect);
    MeanOfOne(PreferenceFor(inputs.preferences, aspect), Part(c, inputs, QualityAspect), Part(c, inputs, CostAspect),
              Part(c, inputs, LatencyAspect), Part(c, inputs, ReliabilityAspect));
  }

  /** What the first candidate gains over the second through one aspect. */
  function Gain(a: Candidate, b: Candidate, inputs: Inputs, aspect: Aspect): real {
    PreferenceFor(inputs.preferences, aspect) * (Part(a, inputs, aspect) - Part(b, inputs, aspect))
  }

  lemma AverageGains(a: Candidate, b: Candidate, inputs: Inputs, aspect: Aspect)
    requires ValidPreferences(inputs.preferences)
    requires forall other :: other != aspect ==> Part(a, inputs, other) == Part(b, inputs, other)
    ensures Average(a, inputs) - Average(b, inputs) ==
            Share(PreferenceFor(inputs.preferences, aspect), Part(a, inputs, aspect) - Part(b, inputs, aspect),
                  TotalPreference(inputs.preferences))
  {
    var q, c := Part(b, inputs, QualityAspect), Part(b, inputs, CostAspect);
    var l, r := Part(b, inputs, LatencyAspect), Part(b, inputs, ReliabilityAspect);
    var x := Part(a, inputs, aspect) - Part(b, inputs, aspect);
    MeanGains(inputs.preferences, q, c, l, r, x);
    assert Part(a, inputs, QualityAspect) == if aspect == QualityAspect then q + x else q;
    assert Part(a, inputs, CostAspect) == if aspect == CostAspect then c + x else c;
    assert Part(a, inputs, LatencyAspect) == if aspect == LatencyAspect then l + x else l;
    assert Part(a, inputs, ReliabilityAspect) == if aspect == ReliabilityAspect then r + x else r;
  }

  /**
   * Two candidates that agree in three aspects are ordered by the fourth: not at all when the
   * request does not care for it, never the wrong way round, and strictly when the advantage
   * weighs more than a millionth of all preferences.
   */
  lemma FourthAspectDecides(a: Candidate, b: Candidate, inputs: Inputs, aspect: Aspect)
    requires ValidPreferences(inputs.preferences)
    requires forall other :: other != aspect ==> Part(a, inputs, other) == Part(b, inputs, other)
    requires Part(b, inputs, aspect) <= Part(a, inputs, aspect)
    ensures
      var p, x, y := inputs.preferences, ScoreOf(a, inputs).finalScore, ScoreOf(b, inputs).finalScore;
      && y <= x
      && (PreferenceFor(p, aspect) == 0.0 ==> x == y)
      && (Gain(a, b, inputs, aspect) > 0.000001 * TotalPreference(p) ==> y < x)
  {
    FinalScoreIsAverage(a, inputs);
    FinalScoreIsAverage(b, inputs);
    AverageOrders(a, b, inputs, aspect);
    RoundSixOrders(Average(b, inputs), Average(a, inputs));
  }

  lemma AverageOrders(a: Candidate, b: Candidate, inputs: Inputs, aspect: Aspect)
    requires ValidPreferences(inputs.preferences)
    requires forall other :: other != aspect ==> Part(a, inputs, other) == Part(b, inputs, other)
    requires Part(b, inputs, aspect) <= Part(a, inputs, aspect)
    ensures
      var p, gained := inputs.preferences, Average(a, inputs) - Average(b, inputs);
      && 0.0 <= gained
      && (PreferenceFor(p, aspect) == 0.0 ==> gained == 0.0)
      && (Gain(a, b, inputs, aspect) > 0.000001 * TotalPreference(p) ==> gained > 0.000001)
  {
    AverageGains(a, b, inputs, aspect);
    var w, x := PreferenceFor(inputs.preferences, aspect), Part(a, inputs, aspect) - Part(b, inputs, aspect);
    var gained := Average(a, inputs) - Average(b, inputs);
    assert 0.0 <= w && 0.0 <= x;
    GainWeighs(w, x, TotalPreference(inputs.preferences));
    assert Gain(a, b, inputs, aspect) == w * x;
  }

  /** So a candidate with no higher final score is at most a millionth ahead in the fourth aspect. */
  lemma NotAheadByMuch(a: Candidate, b: Candidate, inputs: Inputs, aspect: Aspect)
    requires ValidPreferences(inputs.preferences)
    requires forall other :: other != aspect ==> Part(a, inputs, other) == Part(b, inputs, other)
    requires ScoreOf(a, inputs).finalScore <= ScoreOf(b, inputs).finalScore
    ensures Gain(a, b, inputs, aspect) <= 0.000001 * TotalPreference(inputs.preferences)
  {
    if Part(b, inputs, aspect) <= Part(a, inputs, aspect) {
      FourthAspectDecides(a, b, inputs, aspect);
    } else {
      LossGainsNothing(a, b, inputs, aspect);
    }
  }

  lemma LossGainsNothing(a: Candidate, b: Candidate, inputs: Inputs, aspect: Aspect)
    requires ValidPreferences(inputs.preferences) && Part(a, inputs, aspect) <= Part(b, inputs, aspect)
    ensures Gain(a, b, inputs, aspect) <= 0.000001 * TotalPreference(inputs.preferences)
  {
    var w, x := PreferenceFor(inputs.preferences, aspect), Part(a, inputs, aspect) - Part(b, inputs, aspect);
    LossWeighsNothing(w, x);
    assert Gain(a, b, inputs, aspect) == w * x;
  }

  lemma LossWeighsNothing(w: real, x: real)
    requires 0.0 <= w && x <= 0.0
    ensures w * x <= 0.0
  {
  }

  lemma GainWeighs(w: real, x: real, total: real)
    requires 0.0 <= w && 0.0 <= x && total > 0.0
    ensures 0.0 <= Share(w, x, total) && (w == 0.0 ==> Share(w, x, total) == 0.0)
    ensures w * x > 0.000001 * total ==> Share(w, x, total) > 0.000001
  {
    var gain := w * x;
    assert gain >= 0.0;
    QuotientSign(gain, total);
    QuotientExceeds(gain, total);
  }

  lemma QuotientSign(gain: real, total: real)
    requires total > 0.0 && gain >= 0.0
    ensures 0.0 <= gain / total && (gain == 0.0 ==> gain / total == 0.0)
  {
  }

  lemma QuotientExceeds(gain: real, total: real)
    requires total > 0.0
    ensures gain > 0.000001 * total ==> gain / total > 0.000001
  {
  }

  lemma RoundSixOrders(x: real, y: real)
    requires x <= y
    ensures RoundSix(x) <= RoundSix(y) && (y - x > 0.000001 ==> RoundSix(x) < RoundSix(y))
  {
    RoundSixMonotone(x, y);
    RoundSixIsNearest(x);
    RoundSixIsNearest(y);
  }

  // ----- improvement and cold start ----------------------------------------------------------

  /** At the same sample counts, `after` is nowhere slower, dearer or less successful than `before`. */
  predicate NoWorse(before: Metrics, after: Metrics) {
    && before.sampleCount == after.sampleCount && before.pricedCount == after.pricedCount
    && before.successCount <= after.successCount
    && (before.successRate.Some? <==> after.successRate.Some?)
    && (before.p50Latency.Some? <==> after.p50Latency.Some?)
    && (before.p50Latency.Some? ==> after.p50Latency.value <= before.p50Latency.value)
    && (before.p50Cost.Some? <==> after.p50Cost.Some?)
    && (before.p50Cost.Some? ==> after.p50Cost.value <= before.p50Cost.value)
  }

  lemma SmoothedMonotone(s: real, before: Metrics, after: Metrics)
    requires before.sampleCount == after.sampleCount && before.successCount <= after.successCount
    ensures Clamp(Smoothed(s, before)) <= Clamp(Smoothed(s, after))
  {
    var total := before.sampleCount as real + RELIABILITY_PRIOR_STRENGTH;
    var x := before.successCount as real + s * RELIABILITY_PRIOR_STRENGTH;
    var y := after.successCount as real + s * RELIABILITY_PRIOR_STRENGTH;
    assert x <= y && 0.0 < total;
    if x / total > y / total { assert (x / total) * total > (y / total) * total; }
  }

  lemma PartsImprove(c: Candidate, before: Metrics, after: Metrics)
    requires NoWorse(before, after)
    ensures LatencyScore(c.latency, Some(before)) <= LatencyScore(c.latency, Some(after))
    ensures CostScore(c.cost, Some(before)) <= CostScore(c.cost, Some(after))
    ensures ReliabilityScore(c.reliability, Some(before)) <= ReliabilityScore(c.reliability, Some(after))
  {
    var sampled, priced := ConfidenceForSamples(before.sampleCount), ConfidenceForSamples(before.pricedCount);
    ConfidenceRamp(before.sampleCount);
    ConfidenceRamp(before.pricedCount);
    if before.p50Latency.Some? {
      NormalizationIsAntitone(after.p50Latency.value, before.p50Latency.value);
      BlendMonotone(c.latency, NormalizeLatency(before.p50Latency.value), NormalizeLatency(after.p50Latency.value),
                    sampled);
    }
    if before.p50Cost.Some? {
      NormalizationIsAntitone(after.p50Cost.value, before.p50Cost.value);
      BlendMonotone(c.cost, NormalizeCost(before.p50Cost.value), NormalizeCost(after.p50Cost.value), priced);
    }
    SmoothedMonotone(c.reliability, before, after);
    BlendMonotone(c.reliability, Clamp(Smoothed(c.reliability, before)), Clamp(Smoothed(c.reliability, after)),
                  sampled);
  }

  /** Better measurements of a candidate never lower its final score. */
  lemma ImprovementRaisesScore(c: Candidate, before: Inputs, after: Inputs)
    requires ValidInputs(before) && ValidInputs(after)
    requires before.preferences == after.preferences
    requires Lookup(before.quality, c.key) == Lookup(after.quality, c.key)
    requires c.key in before.metrics && c.key in after.metrics && NoWorse(before.metrics[c.key], after.metrics[c.key])
    ensures ScoreOf(c, before).finalScore <= ScoreOf(c, after).finalScore
  {
    var m, m' := before.metrics[c.key], after.metrics[c.key];
    var w, q := Normalized(before.preferences), QualityScore(c.quality, Lookup(before.quality, c.key));
    PartsImprove(c, m, m');
    NormalizedWeights(before.preferences);
    WeightedMonotone(w,
                     q, CostScore(c.cost, Some(m)), LatencyScore(c.latency, Some(m)),
                     ReliabilityScore(c.reliability, Some(m)),
                     q, CostScore(c.cost, Some(m')), LatencyScore(c.latency, Some(m')),
                     ReliabilityScore(c.reliability, Some(m')));
    RoundSixMonotone(
      Weighted(w, q, CostScore(c.cost, Some(m)), LatencyScore(c.latency, Some(m)),
               ReliabilityScore(c.reliability, Some(m))),
      Weighted(w, q, CostScore(c.cost, Some(m')), LatencyScore(c.latency, Some(m')),
               ReliabilityScore(c.reliability, Some(m'))));
  }

  /** No usable measurement of `key`: at most the minimum sample count and no quality confidence. */
  predicate Cold(inputs: Inputs, key: Key) {
    && (key in inputs.metrics ==> inputs.metrics[key].sampleCount <= MIN_MEASURED_SAMPLES)
    && (key in inputs.quality ==> inputs.quality[key].score.None? || inputs.quality[key].confidence == 0.0)
  }

  function StaticInputs(inputs: Inputs): Inputs {
    inputs.(metrics := map[], quality := map[])
  }

  /** A cold candidate has its static scores; only the reported sample count may differ. */
  lemma ColdScoreIsStatic(c: Candidate, inputs: Inputs)
    requires ValidInputs(inputs) && Cold(inputs, c.key)
    ensures ScoreOf(c, inputs).(sampleCount := 0) == ScoreOf(c, StaticInputs(inputs))
  {
    if c.key in inputs.metrics {
      ConfidenceRamp(inputs.metrics[c.key].sampleCount);
      ConfidenceRamp(inputs.metrics[c.key].pricedCount);
    }
  }
}
