/** Weighted quality metrics of a list of cases under given evidence, and their validator. */
module QualityMetrics {
  import opened Common
  import opened Benchmark

  /** The result used as evidence for a case and the run it came from. */
  datatype Attempt = Attempt(result: CaseResult, runId: string)

  type Evidence = map<string, Attempt>

  /** Stored results carry scores between zero and one. */
  predicate Scored(e: Evidence) {
    forall id <- e :: e[id].result.evaluation.Some? ==> 0.0 <= e[id].result.evaluation.value.score <= 1.0
  }

  predicate Observed(c: Case, e: Evidence) {
    c.caseId in e
  }

  predicate Evaluated(c: Case, e: Evidence) {
    c.caseId in e && e[c.caseId].result.evaluation.Some?
  }

  function Score(c: Case, e: Evidence): real
    requires Evaluated(c, e)
  {
    e[c.caseId].result.evaluation.value.score
  }

  // ----- tallies -----------------------------------------------------------------------------

  /** The counts and exact weight sums the metrics are made of. */
  datatype Tally = Tally(total: nat, observed: nat, evaluated: nat, weight: real, evaluatedWeight: real, score: real)

  function Nothing(): Tally {
    Tally(0, 0, 0, 0.0, 0.0, 0.0)
  }

  function Plus(a: Tally, b: Tally): Tally {
    Tally(a.total + b.total, a.observed + b.observed, a.evaluated + b.evaluated,
          a.weight + b.weight, a.evaluatedWeight + b.evaluatedWeight, a.score + b.score)
  }

  function TallyOne(c: Case, e: Evidence): Tally {
    Tally(1, if Observed(c, e) then 1 else 0, if Evaluated(c, e) then 1 else 0, c.weight,
          if Evaluated(c, e) then c.weight else 0.0,
          if Evaluated(c, e) then c.weight * Score(c, e) else 0.0)
  }

  function TallyOf(cases: seq<Case>, e: Evidence): Tally {
    if cases == [] then Nothing()
    else Plus(TallyOf(cases[..|cases| - 1], e), TallyOne(cases[|cases| - 1], e))
  }

  lemma {:induction false} TallyAppend(cases: seq<Case>, c: Case, e: Evidence)
    ensures TallyOf(cases + [c], e) == Plus(TallyOf(cases, e), TallyOne(c, e))
  {
  }

  lemma {:induction false} TallyCounts(cases: seq<Case>, e: Evidence)
    ensures var t := TallyOf(cases, e); t.evaluated <= t.observed <= t.total == |cases|
  {
    if cases != [] { TallyCounts(cases[..|cases| - 1], e); }
  }

  lemma {:induction false} TallyWeights(cases: seq<Case>, e: Evidence)
    requires Weighted(cases)
    ensures
      var t := TallyOf(cases, e);
      && 0.0 <= t.evaluatedWeight <= t.weight
      && (t.evaluated == 0 <==> t.evaluatedWeight == 0.0)
      && (t.evaluated == |cases| <==> t.evaluatedWeight == t.weight)
      && (cases != [] ==> t.weight > 0.0)
  {
    if cases != [] {
      var front := cases[..|cases| - 1];
      TallyWeights(front, e);
      TallyCounts(front, e);
    }
  }

  predicate ScoresWithin(cases: seq<Case>, e: Evidence, lo: real, hi: real) {
    forall i :: 0 <= i < |cases| && Evaluated(cases[i], e) ==> lo <= Score(cases[i], e) <= hi
  }

  predicate Between(lo: real, hi: real, weight: real, score: real) {
    lo * weight <= score <= hi * weight
  }

  lemma OneScore(c: Case, e: Evidence, lo: real, hi: real)
    requires c.weight > 0.0 && (Evaluated(c, e) ==> lo <= Score(c, e) <= hi)
    ensures var t := TallyOne(c, e); Between(lo, hi, t.evaluatedWeight, t.score)
  {
  }

  lemma BetweenPlus(lo: real, hi: real, w: real, score: real, more: real, extra: real)
    requires Between(lo, hi, w, score) && Between(lo, hi, more, extra)
    ensures Between(lo, hi, w + more, score + extra)
  {
  }

  /** Any bounds on the evaluated scores bound the weighted sum. */
  lemma {:induction false} TallyScore(cases: seq<Case>, e: Evidence, lo: real, hi: real)
    requires Weighted(cases) && ScoresWithin(cases, e, lo, hi)
    ensures var t := TallyOf(cases, e); Between(lo, hi, t.evaluatedWeight, t.score)
  {
    if cases != [] {
      var front, last := cases[..|cases| - 1], cases[|cases| - 1];
      TallyScore(front, e, lo, hi);
      OneScore(last, e, lo, hi);
      var t, one := TallyOf(front, e), TallyOne(last, e);
      BetweenPlus(lo, hi, t.evaluatedWeight, t.score, one.evaluatedWeight, one.score);
    }
  }

  // ----- metrics -----------------------------------------------------------------------------

  datatype Metrics = Metrics(
    quality: Option<real>,
    coverage: real,
    completeness: real,
    weightedCoverage: real,
    confidence: real,
    total: nat,
    observed: nat,
    evaluated: nat,
    failed: nat)

  /** Confidence grows linearly from 5 to 50 evaluated cases, damped by both coverages. */
  function Confidence(n: nat, weightedCoverage: real, completeness: real): real {
    Product(Ramp(n), weightedCoverage, completeness)
  }

  function Product(a: real, b: real, c: real): real {
    a * b * c
  }

  function Ramp(n: nat): real {
    var r := (n as real - 5.0) / 45.0;
    if r < 0.0 then 0.0 else if r > 1.0 then 1.0 else r
  }

  function MetricsOf(cases: seq<Case>, e: Evidence): (m: Metrics)
    requires cases != [] && Weighted(cases)
  {
    TallyCounts(cases, e);
    TallyWeights(cases, e);
    var t := TallyOf(cases, e);
    var n := |cases| as real;
    var completeness := t.evaluated as real / n;
    var weightedCoverage := t.evaluatedWeight / t.weight;
    Metrics(
      if t.evaluated > 0 then Some(t.score / t.evaluatedWeight) else None,
      t.observed as real / n, completeness, weightedCoverage,
      Confidence(t.evaluated, weightedCoverage, completeness),
      |cases|, t.observed, t.evaluated, t.observed - t.evaluated)
  }

  /** The metrics validator, field ranges included. */
  predicate ConsistentMetrics(m: Metrics) {
    && (m.quality.Some? ==> Unit(m.quality.value)) && Unit(m.coverage) && Unit(m.completeness)
    && Unit(m.weightedCoverage) && Unit(m.confidence) && m.total > 0
    && m.evaluated <= m.observed <= m.total
    && m.failed == m.observed - m.evaluated
    && (m.quality.None? <==> m.evaluated == 0)
    && m.coverage == m.observed as real / m.total as real
    && m.completeness == m.evaluated as real / m.total as real
    && (m.evaluated == 0 ==> m.weightedCoverage == 0.0)
    && (m.evaluated == m.total ==> m.weightedCoverage == 1.0)
    && m.confidence == Confidence(m.evaluated, m.weightedCoverage, m.completeness)
  }

  lemma QuotientBetween(lo: real, s: real, w: real, hi: real)
    requires w > 0.0 && lo * w <= s <= hi * w
    ensures lo <= s / w <= hi
  {
  }

  lemma RatioUnit(a: real, b: real)
    requires 0.0 <= a <= b && b > 0.0
    ensures Unit(a / b) && (a == 0.0 <==> a / b == 0.0) && (a == b <==> a / b == 1.0)
  {
  }

  lemma ProductUnit(a: real, b: real)
    requires Unit(a) && Unit(b)
    ensures 0.0 <= a * b <= a && a * b <= b
  {
  }

  /** Confidence is at most either coverage, and none is earned below six evaluated cases. */
  lemma ConfidenceBounds(n: nat, weightedCoverage: real, completeness: real)
    requires Unit(weightedCoverage) && Unit(completeness)
    ensures
      var c := Confidence(n, weightedCoverage, completeness);
      Unit(c) && c <= weightedCoverage && c <= completeness && (n <= 5 ==> c == 0.0)
  {
    ProductsUnit(Ramp(n), weightedCoverage, completeness);
  }

  lemma ProductsUnit(a: real, b: real, c: real)
    requires Unit(a) && Unit(b) && Unit(c)
    ensures var p := Product(a, b, c); Unit(p) && p <= b && p <= c && (a == 0.0 ==> p == 0.0)
  {
    var ab := a * b;
    ProductUnit(a, b);
    ProductUnit(ab, c);
    assert Product(a, b, c) == ab * c;
  }

  /** The exact weighted quality lies between any bounds on the scores it averages. */
  lemma QualityWithinScores(cases: seq<Case>, e: Evidence, lo: real, hi: real)
    requires cases != [] && Weighted(cases) && ScoresWithin(cases, e, lo, hi)
    ensures var q := MetricsOf(cases, e).quality; q.Some? ==> lo <= q.value <= hi
  {
    TallyCounts(cases, e);
    TallyWeights(cases, e);
    TallyScore(cases, e, lo, hi);
    var t := TallyOf(cases, e);
    if t.evaluated > 0 { QuotientBetween(lo, t.score, t.evaluatedWeight, hi); }
  }

  /** Whatever the evidence, the computed metrics pass their own validator. */
  lemma MetricsAreConsistent(cases: seq<Case>, e: Evidence)
    requires cases != [] && Weighted(cases) && Scored(e)
    ensures ConsistentMetrics(MetricsOf(cases, e))
  {
    var t := TallyOf(cases, e);
    TallyCounts(cases, e);
    TallyWeights(cases, e);
    QualityWithinScores(cases, e, 0.0, 1.0);
    RatioUnit(t.observed as real, |cases| as real);
    RatioUnit(t.evaluated as real, |cases| as real);
    RatioUnit(t.evaluatedWeight, t.weight);
    ConfidenceBounds(t.evaluated, t.evaluatedWeight / t.weight, t.evaluated as real / |cases| as real);
  }

  /** Confidence is at most both coverages, and a suite of five or fewer cases never earns any. */
  lemma SmallSuitesEarnNoConfidence(cases: seq<Case>, e: Evidence)
    requires cases != [] && Weighted(cases)
    ensures
      var m := MetricsOf(cases, e);
      && Unit(m.confidence) && m.confidence <= m.weightedCoverage && m.confidence <= m.completeness
      && (|cases| <= 5 ==> m.confidence == 0.0)
  {
    var t := TallyOf(cases, e);
    TallyCounts(cases, e);
    TallyWeights(cases, e);
    RatioUnit(t.evaluated as real, |cases| as real);
    RatioUnit(t.evaluatedWeight, t.weight);
    ConfidenceBounds(t.evaluated, t.evaluatedWeight / t.weight, t.evaluated as real / |cases| as real);
  }

  // ----- categories --------------------------------------------------------------------------

  function OfCategory(cases: seq<Case>, category: Category): (s: seq<Case>)
    ensures Weighted(cases) ==> Weighted(s)
  {
    if cases == [] then []
    else
      var front := OfCategory(cases[..|cases| - 1], category);
      if cases[|cases| - 1].category == category then front + [cases[|cases| - 1]] else front
  }

  /** The categories of the cases, each once, in order of first appearance. */
  function CategoriesOf(cases: seq<Case>): seq<Category> {
    if cases == [] then []
    else
      var front := CategoriesOf(cases[..|cases| - 1]);
      if cases[|cases| - 1].category in front then front else front + [cases[|cases| - 1].category]
  }

  predicate Unique(categories: seq<Category>) {
    forall i, j :: 0 <= i < j < |categories| ==> categories[i] != categories[j]
  }

  lemma {:induction false} CategoriesAreUnique(cases: seq<Case>)
    ensures Unique(CategoriesOf(cases))
  {
    if cases != [] { CategoriesAreUnique(cases[..|cases| - 1]); }
  }

  lemma {:induction false} CategoryExactly(cases: seq<Case>, category: Category)
    ensures category in CategoriesOf(cases) <==> OfCategory(cases, category) != []
  {
    if cases != [] { CategoryExactly(cases[..|cases| - 1], category); }
  }

  function TallyByCategory(categories: seq<Category>, cases: seq<Case>, e: Evidence): Tally {
    if categories == [] then Nothing()
    else
      var n := |categories| - 1;
      Plus(TallyByCategory(categories[..n], cases, e), TallyOf(OfCategory(cases, categories[n]), e))
  }

  /** What one more case adds to the tally of one category. */
  lemma {:induction false} CategoryTally(cases: seq<Case>, c: Case, category: Category, e: Evidence)
    ensures
      var before := TallyOf(OfCategory(cases, category), e);
      TallyOf(OfCategory(cases + [c], category), e)
      == if c.category == category then Plus(before, TallyOne(c, e)) else before
  {
    assert (cases + [c])[..|cases|] == cases;
    if c.category == category { TallyAppend(OfCategory(cases, category), c, e); }
  }

  lemma {:induction false} CategoriesAppend(front: seq<Category>, last: Category, cases: seq<Case>, e: Evidence)
    ensures TallyByCategory(front + [last], cases, e) ==
            Plus(TallyByCategory(front, cases, e), TallyOf(OfCategory(cases, last), e))
  {
    assert (front + [last])[..|front|] == front;
  }

  /** One more case adds its tally to exactly one category. */
  lemma {:induction false} CategoryStep(categories: seq<Category>, cases: seq<Case>, c: Case, e: Evidence)
    requires Unique(categories)
    ensures
      var before := TallyByCategory(categories, cases, e);
      TallyByCategory(categories, cases + [c], e)
      == if c.category in categories then Plus(before, TallyOne(c, e)) else before
  {
    if categories != [] {
      var n := |categories| - 1;
      var front, last := categories[..n], categories[n];
      assert categories == front + [last];
      CategoryStep(front, cases, c, e);
      CategoryTally(cases, c, last, e);
      CategoriesAppend(front, last, cases, e);
      CategoriesAppend(front, last, cases + [c], e);
      PlusRegroups(TallyByCategory(front, cases, e), TallyOf(OfCategory(cases, last), e), TallyOne(c, e));
    }
  }

  lemma PlusRegroups(a: Tally, b: Tally, c: Tally)
    ensures Plus(a, Plus(b, c)) == Plus(Plus(a, b), c)
    ensures Plus(Plus(a, c), b) == Plus(Plus(a, b), c)
  {
  }

  lemma {:induction false} NoCases(categories: seq<Category>, cases: seq<Case>, e: Evidence)
    requires cases == []
    ensures TallyByCategory(categories, cases, e) == Nothing()
  {
    if categories != [] {
      var n := |categories| - 1;
      NoCases(categories[..n], cases, e);
      PlusNothing(TallyByCategory(categories[..n], cases, e), TallyOf(OfCategory(cases, categories[n]), e));
    }
  }

  lemma PlusNothing(a: Tally, b: Tally)
    requires b == Nothing()
    ensures Plus(a, b) == a
  {
  }

  predicate Covers(categories: seq<Category>, cases: seq<Case>) {
    forall i :: 0 <= i < |cases| ==> cases[i].category in categories
  }

  /** Categories partition the suite: counts, weights and weighted scores all add up. */
  lemma {:induction false} CategoriesAddUp(categories: seq<Category>, cases: seq<Case>, e: Evidence)
    requires Unique(categories) && Covers(categories, cases)
    ensures TallyByCategory(categories, cases, e) == TallyOf(cases, e)
  {
    if cases == [] {
      NoCases(categories, cases, e);
    } else {
      var n := |cases| - 1;
      var front, last := cases[..n], cases[n];
      CategoriesAddUp(categories, front, e);
      CategoryStep(categories, front, last, e);
      assert cases == front + [last];
      TallyAppend(front, last, e);
    }
  }

  datatype CategoryMetrics = CategoryMetrics(category: Category, metrics: Metrics)

  predicate Named(categories: seq<Category>, cases: seq<Case>) {
    forall i :: 0 <= i < |categories| ==> OfCategory(cases, categories[i]) != []
  }

  function ByCategory(categories: seq<Category>, cases: seq<Case>, e: Evidence): (s: seq<CategoryMetrics>)
    requires Weighted(cases) && Named(categories, cases)
    ensures |s| == |categories|
  {
    if categories == [] then []
    else
      var n := |categories| - 1;
      ByCategory(categories[..n], cases, e)
      + [CategoryMetrics(categories[n], MetricsOf(OfCategory(cases, categories[n]), e))]
  }

  lemma {:induction false} ByCategoryAt(categories: seq<Category>, cases: seq<Case>, e: Evidence, i: nat)
    requires Weighted(cases) && Named(categories, cases) && i < |categories|
    ensures ByCategory(categories, cases, e)[i] ==
            CategoryMetrics(categories[i], MetricsOf(OfCategory(cases, categories[i]), e))
  {
    var n := |categories| - 1;
    if i < n { ByCategoryAt(categories[..n], cases, e, i); }
  }

  datatype Counts = Counts(total: nat, observed: nat, evaluated: nat, failed: nat)

  function CountsOf(m: Metrics): Counts {
    Counts(m.total, m.observed, m.evaluated, m.failed)
  }

  function PlusCounts(a: Counts, b: Counts): Counts {
    Counts(a.total + b.total, a.observed + b.observed, a.evaluated + b.evaluated, a.failed + b.failed)
  }

  function SumCounts(categories: seq<CategoryMetrics>): Counts {
    if categories == [] then Counts(0, 0, 0, 0)
    else
      var n := |categories| - 1;
      PlusCounts(SumCounts(categories[..n]), CountsOf(categories[n].metrics))
  }

  predicate Counted(s: Counts, t: Tally) {
    s.total == t.total && s.observed == t.observed && s.evaluated == t.evaluated && s.failed == t.observed - t.evaluated
  }

  lemma {:induction false} MetricsCount(cases: seq<Case>, e: Evidence)
    requires cases != [] && Weighted(cases)
    ensures Counted(CountsOf(MetricsOf(cases, e)), TallyOf(cases, e))
  {
    TallyCounts(cases, e);
  }

  lemma CountedPlus(s: Counts, t: Tally, more: Counts, extra: Tally)
    requires Counted(s, t) && Counted(more, extra)
    ensures Counted(PlusCounts(s, more), Plus(t, extra))
  {
  }

  lemma {:induction false} CountsAreTallies(categories: seq<Category>, cases: seq<Case>, e: Evidence)
    requires Weighted(cases) && Named(categories, cases)
    ensures Counted(SumCounts(ByCategory(categories, cases, e)), TallyByCategory(categories, cases, e))
  {
    if categories != [] {
      var n := |categories| - 1;
      var front, last := categories[..n], OfCategory(cases, categories[n]);
      CountsAreTallies(front, cases, e);
      MetricsCount(last, e);
      CountedPlus(SumCounts(ByCategory(front, cases, e)), TallyByCategory(front, cases, e),
                  CountsOf(MetricsOf(last, e)), TallyOf(last, e));
      SumCountsAppend(ByCategory(front, cases, e), CategoryMetrics(categories[n], MetricsOf(last, e)));
    }
  }

  lemma {:induction false} SumCountsAppend(categories: seq<CategoryMetrics>, c: CategoryMetrics)
    ensures SumCounts(categories + [c]) == PlusCounts(SumCounts(categories), CountsOf(c.metrics))
  {
  }

  /** Evaluated weight times quality, zero when nothing was evaluated. */
  function WeightedQuality(cases: seq<Case>, e: Evidence): real
    requires cases != [] && Weighted(cases)
  {
    var q := MetricsOf(cases, e).quality;
    if q.Some? then TallyOf(cases, e).evaluatedWeight * q.value else 0.0
  }

  function SumWeightedQuality(categories: seq<Category>, cases: seq<Case>, e: Evidence): real
    requires Weighted(cases) && Named(categories, cases)
  {
    if categories == [] then 0.0
    else
      var n := |categories| - 1;
      SumWeightedQuality(categories[..n], cases, e) + WeightedQuality(OfCategory(cases, categories[n]), e)
  }

  lemma {:induction false} WeightedQualityIsScore(cases: seq<Case>, e: Evidence)
    requires cases != [] && Weighted(cases)
    ensures WeightedQuality(cases, e) == TallyOf(cases, e).score
  {
    TallyCounts(cases, e);
    TallyWeights(cases, e);
    NothingEvaluated(cases, e);
    var t := TallyOf(cases, e);
    if t.evaluated > 0 { TimesQuotient(t.score, t.evaluatedWeight); }
  }

  lemma {:induction false} NothingEvaluated(cases: seq<Case>, e: Evidence)
    ensures TallyOf(cases, e).evaluated == 0 ==> TallyOf(cases, e).score == 0.0
  {
    if cases != [] { NothingEvaluated(cases[..|cases| - 1], e); }
  }

  lemma {:induction false} SumIsScore(categories: seq<Category>, cases: seq<Case>, e: Evidence)
    requires Weighted(cases) && Named(categories, cases)
    ensures SumWeightedQuality(categories, cases, e) == TallyByCategory(categories, cases, e).score
  {
    if categories != [] {
      var n := |categories| - 1;
      SumIsScore(categories[..n], cases, e);
      WeightedQualityIsScore(OfCategory(cases, categories[n]), e);
    }
  }

  lemma {:induction false} EveryCategoryIsListed(cases: seq<Case>)
    ensures Named(CategoriesOf(cases), cases) && Covers(CategoriesOf(cases), cases)
  {
    forall i | 0 <= i < |CategoriesOf(cases)| ensures OfCategory(cases, CategoriesOf(cases)[i]) != [] {
      CategoryExactly(cases, CategoriesOf(cases)[i]);
    }
    if cases != [] { EveryCategoryIsListed(cases[..|cases| - 1]); }
  }

  /** Evaluated weight times quality is conserved when a suite is split into its categories. */
  lemma {:induction false} QualityIsConserved(cases: seq<Case>, e: Evidence)
    requires cases != [] && Weighted(cases)
    ensures
      Named(CategoriesOf(cases), cases)
      && WeightedQuality(cases, e) == SumWeightedQuality(CategoriesOf(cases), cases, e)
  {
    EveryCategoryIsListed(cases);
    CategoriesAreUnique(cases);
    CategoriesAddUp(CategoriesOf(cases), cases, e);
    SumIsScore(CategoriesOf(cases), cases, e);
    WeightedQualityIsScore(cases, e);
  }

  // ----- the metrics as weighted means -------------------------------------------------------

  /** The case is asked about: any case, or one of the given category. */
  predicate Within(c: Case, scope: Option<Category>) {
    scope.None? || c.category == scope.value
  }

  /** The case has an evaluated result in evidence. */
  predicate HasScore(c: Case, e: Evidence) {
    c.caseId in e && e[c.caseId].result.evaluation.Some?
  }

  /** The sum of the case weights. */
  function SumWeights(cases: seq<Case>, scope: Option<Category>): real {
    if cases == [] then 0.0
    else
      var c := cases[|cases| - 1];
      SumWeights(cases[..|cases| - 1], scope) + if Within(c, scope) then c.weight else 0.0
  }

  /** The sum of the weights of the cases with a score. */
  function SumScoredWeights(cases: seq<Case>, e: Evidence, scope: Option<Category>): real {
    if cases == [] then 0.0
    else
      var c := cases[|cases| - 1];
      SumScoredWeights(cases[..|cases| - 1], e, scope) + if Within(c, scope) && HasScore(c, e) then c.weight else 0.0
  }

  /** The sum of weight times score of the cases with a score. */
  function SumWeightTimesScore(cases: seq<Case>, e: Evidence, scope: Option<Category>): real {
    if cases == [] then 0.0
    else
      var c := cases[|cases| - 1];
      SumWeightTimesScore(cases[..|cases| - 1], e, scope)
      + if Within(c, scope) && HasScore(c, e) then c.weight * e[c.caseId].result.evaluation.value.score else 0.0
  }

  /** The positions of the cases asked about, those in evidence, and those with a score. */
  function PlacesIn(cases: seq<Case>, scope: Option<Category>): set<int> {
    set i | 0 <= i < |cases| && Within(cases[i], scope)
  }

  function PlacesObserved(cases: seq<Case>, e: Evidence, scope: Option<Category>): set<int> {
    set i | 0 <= i < |cases| && Within(cases[i], scope) && cases[i].caseId in e
  }

  function PlacesScored(cases: seq<Case>, e: Evidence, scope: Option<Category>): set<int> {
    set i | 0 <= i < |cases| && Within(cases[i], scope) && HasScore(cases[i], e)
  }

  /** The part of the cases that is asked about. */
  function Part(cases: seq<Case>, scope: Option<Category>): seq<Case> {
    if scope.None? then cases else OfCategory(cases, scope.value)
  }

  /** What one more case does to the tally of the part. */
  lemma {:induction false} PartTally(cases: seq<Case>, c: Case, e: Evidence, scope: Option<Category>)
    ensures
      var before, after := TallyOf(Part(cases, scope), e), TallyOf(Part(cases + [c], scope), e);
      after == if Within(c, scope) then Plus(before, TallyOne(c, e)) else before
  {
    if scope.None? {
      TallyAppend(cases, c, e);
    } else {
      CategoryTally(cases, c, scope.value, e);
    }
  }

  /** The sums of one case. */
  lemma OneCase(c: Case, e: Evidence)
    ensures
      var t := TallyOne(c, e);
      && t.weight == c.weight
      && t.evaluatedWeight == (if HasScore(c, e) then c.weight else 0.0)
      && t.score == (if HasScore(c, e) then c.weight * e[c.caseId].result.evaluation.value.score else 0.0)
      && t.total == 1 && t.observed == (if c.caseId in e then 1 else 0)
      && t.evaluated == (if HasScore(c, e) then 1 else 0)
  {
  }

  /** The tally has the sums over the cases' own weights. */
  ghost predicate Sums(t: Tally, cases: seq<Case>, e: Evidence, scope: Option<Category>) {
    && t.weight == SumWeights(cases, scope)
    && t.evaluatedWeight == SumScoredWeights(cases, e, scope)
    && t.score == SumWeightTimesScore(cases, e, scope)
  }

  lemma {:induction false} SumsExtend(t: Tally, u: Tally, cases: seq<Case>, c: Case, e: Evidence,
                                      scope: Option<Category>)
    requires Sums(t, cases, e, scope)
    requires u == if Within(c, scope) then Plus(t, TallyOne(c, e)) else t
    ensures Sums(u, cases + [c], e, scope)
  {
    OneCase(c, e);
    assert (cases + [c])[..|cases|] == cases;
  }

  lemma {:induction false} TallySumsWeights(cases: seq<Case>, e: Evidence, scope: Option<Category>)
    ensures Sums(TallyOf(Part(cases, scope), e), cases, e, scope)
  {
    if cases != [] {
      var front, last := cases[..|cases| - 1], cases[|cases| - 1];
      TallySumsWeights(front, e, scope);
      PartTally(front, last, e, scope);
      SumsExtend(TallyOf(Part(front, scope), e), TallyOf(Part(front + [last], scope), e), front, last, e, scope);
      assert cases == front + [last];
    }
  }

  /** The tally counts positions. */
  ghost predicate CountsPlaces(t: Tally, cases: seq<Case>, e: Evidence, scope: Option<Category>) {
    && t.total == |PlacesIn(cases, scope)|
    && t.observed == |PlacesObserved(cases, e, scope)|
    && t.evaluated == |PlacesScored(cases, e, scope)|
  }

  lemma {:induction false} PlacesInExtend(cases: seq<Case>, c: Case, scope: Option<Category>)
    ensures |PlacesIn(cases + [c], scope)| == |PlacesIn(cases, scope)| + if Within(c, scope) then 1 else 0
  {
    var n := |cases|;
    assert PlacesIn(cases + [c], scope) == PlacesIn(cases, scope) + if Within(c, scope) then {n} else {};
  }

  lemma {:induction false} PlacesObservedExtend(cases: seq<Case>, c: Case, e: Evidence, scope: Option<Category>)
    ensures |PlacesObserved(cases + [c], e, scope)|
         == |PlacesObserved(cases, e, scope)| + if Within(c, scope) && c.caseId in e then 1 else 0
  {
    var n := |cases|;
    assert PlacesObserved(cases + [c], e, scope) ==
           PlacesObserved(cases, e, scope) + if Within(c, scope) && c.caseId in e then {n} else {};
  }

  lemma {:induction false} PlacesScoredExtend(cases: seq<Case>, c: Case, e: Evidence, scope: Option<Category>)
    ensures |PlacesScored(cases + [c], e, scope)|
         == |PlacesScored(cases, e, scope)| + if Within(c, scope) && HasScore(c, e) then 1 else 0
  {
    var n := |cases|;
    assert PlacesScored(cases + [c], e, scope) ==
           PlacesScored(cases, e, scope) + if Within(c, scope) && HasScore(c, e) then {n} else {};
  }

  lemma {:induction false} PlacesExtend(t: Tally, u: Tally, cases: seq<Case>, c: Case, e: Evidence,
                                        scope: Option<Category>)
    requires CountsPlaces(t, cases, e, scope)
    requires u == if Within(c, scope) then Plus(t, TallyOne(c, e)) else t
    ensures CountsPlaces(u, cases + [c], e, scope)
  {
    OneCase(c, e);
    PlacesInExtend(cases, c, scope);
    PlacesObservedExtend(cases, c, e, scope);
    PlacesScoredExtend(cases, c, e, scope);
  }

  lemma {:induction false} TallyCountsPlaces(cases: seq<Case>, e: Evidence, scope: Option<Category>)
    ensures CountsPlaces(TallyOf(Part(cases, scope), e), cases, e, scope)
  {
    if cases == [] {
      assert PlacesIn(cases, scope) == {};
      assert PlacesObserved(cases, e, scope) == {} && PlacesScored(cases, e, scope) == {};
    } else {
      var front, last := cases[..|cases| - 1], cases[|cases| - 1];
      TallyCountsPlaces(front, e, scope);
      PartTally(front, last, e, scope);
      PlacesExtend(TallyOf(Part(front, scope), e), TallyOf(Part(front + [last], scope), e), front, last, e, scope);
      assert cases == front + [last];
    }
  }

  /**
   * What metrics of a suite, or of one of its categories, say: the counts of its cases, and
   * means weighted by the cases' own weights.
   */
  ghost predicate Weighs(m: Metrics, cases: seq<Case>, e: Evidence, scope: Option<Category>) {
    var weight, scored := SumWeights(cases, scope), SumScoredWeights(cases, e, scope);
    && m.total == |PlacesIn(cases, scope)|
    && m.observed == |PlacesObserved(cases, e, scope)|
    && m.evaluated == |PlacesScored(cases, e, scope)|
    && (m.quality.Some? <==> m.evaluated > 0)
    && (m.quality.Some? ==> scored > 0.0 && Times(scored, m.quality.value) == SumWeightTimesScore(cases, e, scope))
    && weight > 0.0 && Times(weight, m.weightedCoverage) == scored
    && Times(m.total as real, m.coverage) == m.observed as real
    && Times(m.total as real, m.completeness) == m.evaluated as real
  }

  /** The quotients of the metrics, multiplied out. */
  ghost predicate Quotients(m: Metrics, t: Tally) {
    && m.total == t.total && m.observed == t.observed && m.evaluated == t.evaluated
    && (m.quality.Some? <==> t.evaluated > 0)
    && (m.quality.Some? ==> t.evaluatedWeight > 0.0 && Times(t.evaluatedWeight, m.quality.value) == t.score)
    && t.weight > 0.0 && Times(t.weight, m.weightedCoverage) == t.evaluatedWeight
    && Times(m.total as real, m.coverage) == m.observed as real
    && Times(m.total as real, m.completeness) == m.evaluated as real
  }

  lemma {:induction false} MetricsAreQuotients(cases: seq<Case>, e: Evidence)
    requires cases != [] && Weighted(cases)
    ensures Quotients(MetricsOf(cases, e), TallyOf(cases, e))
  {
    TallyCounts(cases, e);
    TallyWeights(cases, e);
    var t := TallyOf(cases, e);
    if t.evaluated > 0 { TimesQuotient(t.score, t.evaluatedWeight); }
    TimesQuotient(t.evaluatedWeight, t.weight);
    TimesQuotient(t.observed as real, |cases| as real);
    TimesQuotient(t.evaluated as real, |cases| as real);
  }

  /** The computed metrics are the weighted means. */
  lemma {:induction false} MetricsWeighCases(cases: seq<Case>, e: Evidence, scope: Option<Category>)
    requires Weighted(cases) && Part(cases, scope) != []
    ensures Weighted(Part(cases, scope)) && Weighs(MetricsOf(Part(cases, scope), e), cases, e, scope)
  {
    TallySumsWeights(cases, e, scope);
    TallyCountsPlaces(cases, e, scope);
    MetricsAreQuotients(Part(cases, scope), e);
  }

  /** Confidence exactly: none up to five scored cases, the product of both coverages from fifty, linear between. */
  lemma ConfidenceExactly(n: nat, weightedCoverage: real, completeness: real)
    ensures
      var c, both := Confidence(n, weightedCoverage, completeness), weightedCoverage * completeness;
      && (n <= 5 ==> c == 0.0)
      && (5 <= n <= 50 ==> 45.0 * c == (n - 5) as real * both)
      && (50 <= n ==> c == both)
  {
    var r, both := Ramp(n), weightedCoverage * completeness;
    assert r * weightedCoverage * completeness == r * both;
    if 5 <= n <= 50 {
      assert 45.0 * r == (n - 5) as real;
      assert 45.0 * (r * both) == (45.0 * r) * both;
    }
  }

  /** The metrics' confidence is exactly what their own counts and coverages earn. */
  predicate EarnsConfidence(m: Metrics) {
    var both := Times(m.weightedCoverage, m.completeness);
    && (m.evaluated <= 5 ==> m.confidence == 0.0)
    && (5 <= m.evaluated <= 50 ==> 45.0 * m.confidence == (m.evaluated - 5) as real * both)
    && (50 <= m.evaluated ==> m.confidence == both)
  }

  lemma ConfidenceIsEarned(m: Metrics)
    requires m.confidence == Confidence(m.evaluated, m.weightedCoverage, m.completeness)
    ensures EarnsConfidence(m)
  {
    ConfidenceExactly(m.evaluated, m.weightedCoverage, m.completeness);
  }

  /**
   * What validated metrics say: shares of their own counts, a quality exactly when something was
   * evaluated, no weight covered when nothing was and all of it when everything was, and the
   * confidence these earn.
   */
  lemma MetricsSay(m: Metrics)
    requires ConsistentMetrics(m)
    ensures m.failed + m.evaluated == m.observed <= m.total
    ensures m.quality.Some? <==> m.evaluated > 0
    ensures m.quality.Some? ==> 0.0 <= m.quality.value <= 1.0
    ensures Times(m.total as real, m.coverage) == m.observed as real
    ensures Times(m.total as real, m.completeness) == m.evaluated as real
    ensures m.evaluated == 0 ==> m.weightedCoverage == 0.0 && m.confidence == 0.0
    ensures m.evaluated == m.total ==> m.weightedCoverage == 1.0
    ensures EarnsConfidence(m)
  {
    TimesQuotient(m.observed as real, m.total as real);
    TimesQuotient(m.evaluated as real, m.total as real);
    ConfidenceIsEarned(m);
  }
}
