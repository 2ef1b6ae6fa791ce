/**
 The scoring rule for component candidates (`check_component_protocols.automated_score`): ratio to the
 best per metric, mean per criterion, weighted mean over the criteria that have a basis. Proved: scores
 lie between 0 and 1, a candidate at least as good everywhere never scores lower, and the unit a metric
 is measured in does not matter.
 */
module Scoring {
  import opened Basics
  import opened Statistics

  const OWNER_SCORED := {"research_flexibility"}
  const GATE_CRITERIA := {"correctness", "failure_semantics"}
  const INTEGRATION_PARTS: seq<string> := ["adapter_loc", "transitive_crates", "build_seconds"]

  datatype Metric = Metric(id: string, lower: bool, criterion: string)

  /** What one candidate reported; a metric or part it did not report is absent. */
  datatype Measured = Measured(
    metrics: map<string, real>, license: Option<bool>, integration: map<string, real>, targets: seq<bool>)

  /** The weights in the order of the dict, a criterion at most once. */
  datatype Weight = Weight(criterion: string, weight: real)

  // ---------------------------------------------------------------- ratio to the best

  /** The best usable value: the least where lower is better, the greatest otherwise. */
  function Best(values: seq<Option<real>>, lower: bool): Option<real> {
    if values == [] then None else Better(values[0], Best(values[1..], lower), lower)
  }

  function Better(a: Option<real>, b: Option<real>, lower: bool): Option<real> {
    if a.None? then b
    else if b.None? then a
    else if (if lower then a.value < b.value else a.value > b.value) then a
    else b
  }

  /** The score `ratio` gives the candidate at place `i`, None when it has no usable value. */
  function Ratio(values: seq<Option<real>>, lower: bool, i: nat): Option<real>
    requires i < |values|
  {
    RatioOf(values[i], Best(values, lower), lower)
  }

  function RatioOf(v: Option<real>, best: Option<real>, lower: bool): Option<real> {
    if v.None? || best.None? then None else Some(ToBest(v.value, best.value, lower))
  }

  function ToBest(v: real, best: real, lower: bool): real {
    if lower then if v == best then 1.0 else if v > 0.0 then best / v else 0.0
    else if best > 0.0 then v / best else 0.0
  }

  ghost predicate NonNegative(values: seq<Option<real>>) {
    forall i | 0 <= i < |values| && values[i].Some? :: values[i].value >= 0.0
  }

  /** The best is one of the values and none is better. */
  lemma {:induction false} BestIsBest(values: seq<Option<real>>, lower: bool, i: nat)
    requires i < |values| && values[i].Some?
    ensures Best(values, lower).Some?
    ensures Best(values, lower) in values
    ensures if lower then Best(values, lower).value <= values[i].value else Best(values, lower).value >= values[i].value
  {
    if i > 0 {
      BestIsBest(values[1..], lower, i - 1);
      assert values[1..][i - 1] == values[i];
    } else if k :| 0 < k < |values| && values[k].Some? {
      BestIsBest(values[1..], lower, k - 1);
    } else {
      NoneIsBest(values[1..], lower);
    }
  }

  lemma {:induction false} NoneIsBest(values: seq<Option<real>>, lower: bool)
    requires forall i | 0 <= i < |values| :: values[i].None?
    ensures Best(values, lower).None?
  {
    if values != [] {
      NoneIsBest(values[1..], lower);
    }
  }

  lemma QuotientWithin(a: real, b: real)
    requires 0.0 <= a <= b && b > 0.0
    ensures 0.0 <= a / b <= 1.0
  {
  }

  /** A ratio lies between 0 and 1. */
  lemma RatioWithin(values: seq<Option<real>>, lower: bool, i: nat)
    requires i < |values| && values[i].Some? && NonNegative(values)
    ensures Ratio(values, lower, i).Some? && 0.0 <= Ratio(values, lower, i).value <= 1.0
  {
    BestIsBest(values, lower, i);
    var k :| 0 <= k < |values| && values[k] == Best(values, lower);
    var v, best := values[i].value, Best(values, lower).value;
    if lower {
      if v > 0.0 {
        QuotientWithin(best, v);
      }
    } else if best > 0.0 {
      QuotientWithin(v, best);
    }
  }

  lemma QuotientMonotone(a: real, b: real, c: real)
    requires a >= 0.0 && 0.0 < b <= c
    ensures a / c <= a / b
  {
    assert a / b * b == a && a / c * c == a;
    assert a / b * c >= a / b * b;
  }

  lemma QuotientMonotoneAbove(a: real, b: real, c: real)
    requires a <= b && c > 0.0
    ensures a / c <= b / c
  {
  }

  /** A value at least as good never has the lower ratio. */
  lemma RatioMonotone(values: seq<Option<real>>, lower: bool, i: nat, j: nat)
    requires i < |values| && j < |values| && values[i].Some? && values[j].Some? && NonNegative(values)
    requires if lower then values[i].value <= values[j].value else values[i].value >= values[j].value
    ensures Ratio(values, lower, i).Some? && Ratio(values, lower, j).Some?
    ensures Ratio(values, lower, i).value >= Ratio(values, lower, j).value
  {
    RatioWithin(values, lower, i);
    RatioWithin(values, lower, j);
    BestIsBest(values, lower, i);
    BestIsBest(values, lower, j);
    var k :| 0 <= k < |values| && values[k] == Best(values, lower);
    var a, b, best := values[i].value, values[j].value, Best(values, lower).value;
    if lower {
      if a != best && b != best && a > 0.0 {
        QuotientMonotone(best, a, b);
      }
    } else if best > 0.0 {
      QuotientMonotoneAbove(b, a, best);
    }
  }

  /** A value in a unit `k` times smaller. */
  function Rescaled(x: real, k: real): real {
    k * x
  }

  function TimesOne(value: Option<real>, k: real): Option<real> {
    if value.Some? then Some(Rescaled(value.value, k)) else None
  }

  function Times(values: seq<Option<real>>, k: real): (scaled: seq<Option<real>>)
    ensures |scaled| == |values|
  {
    seq(|values|, i requires 0 <= i < |values| => TimesOne(values[i], k))
  }

  lemma TimesOrder(a: real, b: real, k: real)
    requires k > 0.0
    ensures a < b <==> Rescaled(a, k) < Rescaled(b, k)
    ensures a == b <==> Rescaled(a, k) == Rescaled(b, k)
  {
  }

  lemma {:induction false} BestTimes(values: seq<Option<real>>, lower: bool, k: real)
    requires k > 0.0
    ensures Best(Times(values, k), lower) == TimesOne(Best(values, lower), k)
  {
    if values != [] {
      BestTimes(values[1..], lower, k);
      assert Times(values, k)[1..] == Times(values[1..], k);
      BetterTimes(values[0], Best(values[1..], lower), lower, k);
    }
  }

  lemma BetterTimes(a: Option<real>, b: Option<real>, lower: bool, k: real)
    requires k > 0.0
    ensures Better(TimesOne(a, k), TimesOne(b, k), lower) == TimesOne(Better(a, b, lower), k)
  {
    if a.Some? && b.Some? {
      TimesOrder(a.value, b.value, k);
      TimesOrder(b.value, a.value, k);
    }
  }

  lemma QuotientTimes(a: real, b: real, k: real)
    requires k > 0.0 && b != 0.0
    ensures Rescaled(b, k) != 0.0 && Rescaled(a, k) / Rescaled(b, k) == a / b
  {
  }

  lemma ToBestScaleFree(v: real, best: real, lower: bool, k: real)
    requires k > 0.0
    ensures ToBest(Rescaled(v, k), Rescaled(best, k), lower) == ToBest(v, best, lower)
  {
    TimesOrder(0.0, v, k);
    TimesOrder(0.0, best, k);
    TimesOrder(v, best, k);
    if lower && v > 0.0 {
      QuotientTimes(best, v, k);
    } else if !lower && best > 0.0 {
      QuotientTimes(v, best, k);
    }
  }

  lemma RatioOfScaleFree(v: Option<real>, best: Option<real>, lower: bool, k: real)
    requires k > 0.0
    ensures RatioOf(TimesOne(v, k), TimesOne(best, k), lower) == RatioOf(v, best, lower)
  {
    if v.Some? && best.Some? {
      ToBestScaleFree(v.value, best.value, lower, k);
    }
  }

  /** Measured in another unit, every ratio is what it was. */
  lemma RatioScaleFree(values: seq<Option<real>>, lower: bool, k: real, i: nat)
    requires k > 0.0 && i < |values|
    ensures Ratio(Times(values, k), lower, i) == Ratio(values, lower, i)
  {
    BestTimes(values, lower, k);
    RatioOfScaleFree(values[i], Best(values, lower), lower, k);
  }

  // ---------------------------------------------------------------- the score of a candidate

  function Values(cs: seq<Measured>, id: string): (values: seq<Option<real>>)
    ensures |values| == |cs|
  {
    seq(|cs|, i requires 0 <= i < |cs| => if id in cs[i].metrics then Some(cs[i].metrics[id]) else None)
  }

  function PartValues(cs: seq<Measured>, part: string): (values: seq<Option<real>>)
    ensures |values| == |cs|
  {
    seq(|cs|, i requires 0 <= i < |cs| => if part in cs[i].integration then Some(cs[i].integration[part]) else None)
  }

  function Listed(score: Option<real>): seq<real> {
    if score.Some? then [score.value] else []
  }

  /** The ratios of the metrics of one criterion, in the order of the protocol. */
  function MetricScores(metrics: seq<Metric>, cs: seq<Measured>, i: nat, c: string): seq<real>
    requires i < |cs|
  {
    if metrics == [] then []
    else
      var last := metrics[|metrics| - 1];
      MetricScores(metrics[..|metrics| - 1], cs, i, c)
      + if last.criterion == c then Listed(Ratio(Values(cs, last.id), last.lower, i)) else []
  }

  /** The ratios of the parts of the integration cost, of which less is better. */
  function PartScores(parts: seq<string>, cs: seq<Measured>, i: nat): seq<real>
    requires i < |cs|
  {
    if parts == [] then []
    else PartScores(parts[..|parts| - 1], cs, i) + Listed(Ratio(PartValues(cs, parts[|parts| - 1]), true, i))
  }

  function Passing(targets: seq<bool>): nat {
    if targets == [] then 0 else (if targets[0] then 1 else 0) + Passing(targets[1..])
  }

  function Portability(targets: seq<bool>): real
    requires targets != []
  {
    Passing(targets) as real / |targets| as real
  }

  /** The scores a criterion is the mean of: for a gate 1, for a proxy its own, otherwise the ratios. */
  function Basis(metrics: seq<Metric>, cs: seq<Measured>, i: nat, c: string): seq<real>
    requires i < |cs|
  {
    if c in GATE_CRITERIA then [1.0]
    else if c == "portability" && cs[i].targets != [] then [Portability(cs[i].targets)]
    else if c == "license_fit" && cs[i].license.Some? then [if cs[i].license.value then 1.0 else 0.0]
    else MetricScores(metrics, cs, i, c) + if c == "integration_cost" then PartScores(INTEGRATION_PARTS, cs, i) else []
  }

  predicate Counts(c: string, basis: seq<real>) {
    c !in OWNER_SCORED && basis != []
  }

  /** One criterion's part of the weighted sum, and of the total weight. */
  function TermOf(w: Weight, basis: seq<real>): real {
    if Counts(w.criterion, basis) then w.weight * Mean(basis) else 0.0
  }

  function ShareOf(w: Weight, basis: seq<real>): real {
    if Counts(w.criterion, basis) then w.weight else 0.0
  }

  function Term(w: Weight, metrics: seq<Metric>, cs: seq<Measured>, i: nat): real
    requires i < |cs|
  {
    TermOf(w, Basis(metrics, cs, i, w.criterion))
  }

  function Share(w: Weight, metrics: seq<Metric>, cs: seq<Measured>, i: nat): real
    requires i < |cs|
  {
    ShareOf(w, Basis(metrics, cs, i, w.criterion))
  }

  function Terms(weights: seq<Weight>, metrics: seq<Metric>, cs: seq<Measured>, i: nat): (xs: seq<real>)
    requires i < |cs|
    ensures |xs| == |weights|
  {
    seq(|weights|, k requires 0 <= k < |weights| => Term(weights[k], metrics, cs, i))
  }

  function Shares(weights: seq<Weight>, metrics: seq<Metric>, cs: seq<Measured>, i: nat): (xs: seq<real>)
    requires i < |cs|
    ensures |xs| == |weights|
  {
    seq(|weights|, k requires 0 <= k < |weights| => Share(weights[k], metrics, cs, i))
  }

  /** The weights of the criteria that have a basis, renormalised. */
  function Score(weights: seq<Weight>, metrics: seq<Metric>, cs: seq<Measured>, i: nat): real
    requires i < |cs|
  {
    var total := Sum(Shares(weights, metrics, cs, i));
    if total != 0.0 then Sum(Terms(weights, metrics, cs, i)) / total else 0.0
  }

  // ---------------------------------------------------------------- scores lie between 0 and 1

  /** Every number reported is non-negative. */
  ghost predicate Sane(metrics: seq<Metric>, cs: seq<Measured>) {
    && (forall id :: NonNegative(Values(cs, id)))
    && (forall part :: NonNegative(PartValues(cs, part)))
  }

  ghost predicate WithinUnit(xs: seq<real>) {
    forall k | 0 <= k < |xs| :: 0.0 <= xs[k] <= 1.0
  }

  lemma ListedWithin(values: seq<Option<real>>, lower: bool, i: nat)
    requires i < |values| && NonNegative(values)
    ensures WithinUnit(Listed(Ratio(values, lower, i)))
  {
    if values[i].Some? {
      RatioWithin(values, lower, i);
    }
  }

  lemma {:induction false} MetricScoresWithin(metrics: seq<Metric>, cs: seq<Measured>, i: nat, c: string)
    requires i < |cs| && Sane(metrics, cs)
    ensures WithinUnit(MetricScores(metrics, cs, i, c))
  {
    if metrics != [] {
      var last := metrics[|metrics| - 1];
      MetricScoresWithin(metrics[..|metrics| - 1], cs, i, c);
      ListedWithin(Values(cs, last.id), last.lower, i);
    }
  }

  lemma {:induction false} PartScoresWithin(parts: seq<string>, cs: seq<Measured>, i: nat, metrics: seq<Metric>)
    requires i < |cs| && Sane(metrics, cs)
    ensures WithinUnit(PartScores(parts, cs, i))
  {
    if parts != [] {
      PartScoresWithin(parts[..|parts| - 1], cs, i, metrics);
      ListedWithin(PartValues(cs, parts[|parts| - 1]), true, i);
    }
  }

  lemma {:induction false} PassingAtMost(targets: seq<bool>)
    ensures Passing(targets) <= |targets|
  {
    if targets != [] {
      PassingAtMost(targets[1..]);
    }
  }

  lemma BasisWithin(metrics: seq<Metric>, cs: seq<Measured>, i: nat, c: string)
    requires i < |cs| && Sane(metrics, cs)
    ensures WithinUnit(Basis(metrics, cs, i, c))
  {
    MetricScoresWithin(metrics, cs, i, c);
    PartScoresWithin(INTEGRATION_PARTS, cs, i, metrics);
    if cs[i].targets != [] {
      PassingAtMost(cs[i].targets);
      QuotientWithin(Passing(cs[i].targets) as real, |cs[i].targets| as real);
    }
  }

  lemma TermWithinShare(w: Weight, metrics: seq<Metric>, cs: seq<Measured>, i: nat)
    requires i < |cs| && Sane(metrics, cs) && w.weight >= 0.0
    ensures 0.0 <= Term(w, metrics, cs, i) <= Share(w, metrics, cs, i)
  {
    if Counts(w.criterion, Basis(metrics, cs, i, w.criterion)) {
      BasisWithin(metrics, cs, i, w.criterion);
      MeanWithin(Basis(metrics, cs, i, w.criterion), 0.0, 1.0);
      ProductWithin(w.weight, Mean(Basis(metrics, cs, i, w.criterion)));
    }
  }

  lemma ProductWithin(a: real, b: real)
    requires a >= 0.0 && 0.0 <= b <= 1.0
    ensures 0.0 <= a * b <= a
  {
  }

  ghost predicate ValidWeights(weights: seq<Weight>) {
    forall k | 0 <= k < |weights| :: weights[k].weight >= 0.0
  }

  /** Every score lies between 0 and 1, whatever was and was not reported. */
  lemma ScoreWithin(weights: seq<Weight>, metrics: seq<Metric>, cs: seq<Measured>, i: nat)
    requires i < |cs| && Sane(metrics, cs) && ValidWeights(weights)
    ensures 0.0 <= Score(weights, metrics, cs, i) <= 1.0
  {
    var terms, shares := Terms(weights, metrics, cs, i), Shares(weights, metrics, cs, i);
    forall k | 0 <= k < |weights|
      ensures 0.0 <= terms[k] <= shares[k]
    {
      TermWithinShare(weights[k], metrics, cs, i);
    }
    SumNonNegative(terms);
    SumMonotone(terms, shares);
    if Sum(shares) != 0.0 {
      QuotientWithin(Sum(terms), Sum(shares));
    }
  }

  // ---------------------------------------------------------------- better candidates do not score lower

  /** Candidate `i` reported everything the rule looks at. */
  ghost predicate Reported(metrics: seq<Metric>, m: Measured) {
    && (forall k | 0 <= k < |metrics| :: metrics[k].id in m.metrics)
    && (forall k | 0 <= k < |INTEGRATION_PARTS| :: INTEGRATION_PARTS[k] in m.integration)
    && m.license.Some? && m.targets != []
  }

  ghost predicate AtLeastAsGood(metrics: seq<Metric>, a: Measured, b: Measured)
    requires Reported(metrics, a) && Reported(metrics, b)
  {
    && (forall k | 0 <= k < |metrics| ::
          if metrics[k].lower then a.metrics[metrics[k].id] <= b.metrics[metrics[k].id]
          else a.metrics[metrics[k].id] >= b.metrics[metrics[k].id])
    && (forall k | 0 <= k < |INTEGRATION_PARTS| ::
        a.integration[INTEGRATION_PARTS[k]] <= b.integration[INTEGRATION_PARTS[k]])
    && (b.license.value ==> a.license.value)
    && Portability(a.targets) >= Portability(b.targets)
  }

  /** As many numbers, none smaller than the one it is compared with. */
  ghost predicate Dominates(xs: seq<real>, ys: seq<real>) {
    |xs| == |ys| && forall k | 0 <= k < |xs| :: ys[k] <= xs[k]
  }

  lemma DominatesConcat(a: seq<real>, b: seq<real>, c: seq<real>, d: seq<real>)
    requires Dominates(a, b) && Dominates(c, d)
    ensures Dominates(a + c, b + d)
  {
  }

  lemma {:induction false} MetricScoresDominate(metrics: seq<Metric>, cs: seq<Measured>, i: nat, j: nat, c: string)
    requires i < |cs| && j < |cs| && Sane(metrics, cs) && Reported(metrics, cs[i]) && Reported(metrics, cs[j])
    requires AtLeastAsGood(metrics, cs[i], cs[j])
    ensures Dominates(MetricScores(metrics, cs, i, c), MetricScores(metrics, cs, j, c))
  {
    if metrics != [] {
      var before, last := metrics[..|metrics| - 1], metrics[|metrics| - 1];
      MetricScoresDominate(before, cs, i, j, c);
      if last.criterion == c {
        RatioMonotone(Values(cs, last.id), last.lower, i, j);
        DominatesConcat(MetricScores(before, cs, i, c), MetricScores(before, cs, j, c),
                        Listed(Ratio(Values(cs, last.id), last.lower, i)),
                        Listed(Ratio(Values(cs, last.id), last.lower, j)));
      }
    }
  }

  lemma {:induction false} PartScoresDominate(parts: seq<string>, cs: seq<Measured>, i: nat, j: nat)
    requires i < |cs| && j < |cs| && forall part :: NonNegative(PartValues(cs, part))
    requires forall k | 0 <= k < |parts| ::
      parts[k] in cs[i].integration && parts[k] in cs[j].integration
          && cs[i].integration[parts[k]] <= cs[j].integration[parts[k]]
    ensures Dominates(PartScores(parts, cs, i), PartScores(parts, cs, j))
  {
    if parts != [] {
      var before, last := parts[..|parts| - 1], parts[|parts| - 1];
      PartScoresDominate(before, cs, i, j);
      RatioMonotone(PartValues(cs, last), true, i, j);
      DominatesConcat(PartScores(before, cs, i), PartScores(before, cs, j),
                      Listed(Ratio(PartValues(cs, last), true, i)), Listed(Ratio(PartValues(cs, last), true, j)));
    }
  }

  lemma BasisDominates(metrics: seq<Metric>, cs: seq<Measured>, i: nat, j: nat, c: string)
    requires i < |cs| && j < |cs| && Sane(metrics, cs) && Reported(metrics, cs[i]) && Reported(metrics, cs[j])
    requires AtLeastAsGood(metrics, cs[i], cs[j])
    ensures Dominates(Basis(metrics, cs, i, c), Basis(metrics, cs, j, c))
  {
    MetricScoresDominate(metrics, cs, i, j, c);
    PartScoresDominate(INTEGRATION_PARTS, cs, i, j);
    if c == "integration_cost" {
      DominatesConcat(MetricScores(metrics, cs, i, c), MetricScores(metrics, cs, j, c),
                      PartScores(INTEGRATION_PARTS, cs, i), PartScores(INTEGRATION_PARTS, cs, j));
    }
  }

  lemma ProductMonotone(a: real, b: real, c: real)
    requires a >= 0.0 && b <= c
    ensures a * b <= a * c
  {
  }

  lemma TermDominates(w: Weight, metrics: seq<Metric>, cs: seq<Measured>, i: nat, j: nat)
    requires i < |cs| && j < |cs| && Sane(metrics, cs) && Reported(metrics, cs[i]) && Reported(metrics, cs[j])
    requires AtLeastAsGood(metrics, cs[i], cs[j]) && w.weight >= 0.0
    ensures Term(w, metrics, cs, j) <= Term(w, metrics, cs, i)
    ensures Share(w, metrics, cs, j) == Share(w, metrics, cs, i)
  {
    BasisDominates(metrics, cs, i, j, w.criterion);
    TermOfDominates(w, Basis(metrics, cs, i, w.criterion), Basis(metrics, cs, j, w.criterion));
  }

  lemma TermOfDominates(w: Weight, xs: seq<real>, ys: seq<real>)
    requires Dominates(xs, ys) && w.weight >= 0.0
    ensures TermOf(w, ys) <= TermOf(w, xs) && ShareOf(w, ys) == ShareOf(w, xs)
  {
    if Counts(w.criterion, xs) {
      MeanMonotone(ys, xs);
      ProductMonotone(w.weight, Mean(ys), Mean(xs));
    }
  }

  /** A candidate at least as good on every metric and proxy never scores lower. */
  lemma ScoreMonotone(weights: seq<Weight>, metrics: seq<Metric>, cs: seq<Measured>, i: nat, j: nat)
    requires i < |cs| && j < |cs| && Sane(metrics, cs) && ValidWeights(weights)
    requires Reported(metrics, cs[i]) && Reported(metrics, cs[j]) && AtLeastAsGood(metrics, cs[i], cs[j])
    ensures Score(weights, metrics, cs, j) <= Score(weights, metrics, cs, i)
  {
    var better, worse := Terms(weights, metrics, cs, i), Terms(weights, metrics, cs, j);
    forall k | 0 <= k < |weights|
      ensures worse[k] <= better[k] && Shares(weights, metrics, cs, j)[k] == Shares(weights, metrics, cs, i)[k]
    {
      TermDominates(weights[k], metrics, cs, i, j);
    }
    SumMonotone(worse, better);
    assert Shares(weights, metrics, cs, j) == Shares(weights, metrics, cs, i);
    var shares := Shares(weights, metrics, cs, i);
    SumNonNegative(shares);
    if Sum(shares) != 0.0 {
      QuotientMonotoneAbove(Sum(worse), Sum(better), Sum(shares));
    }
  }

  // ---------------------------------------------------------------- units do not matter

  /** Every candidate's value of the metric `id`, in another unit. */
  function InUnit(cs: seq<Measured>, id: string, k: real): (scaled: seq<Measured>)
    ensures |scaled| == |cs|
  {
    seq(|cs|, i requires 0 <= i < |cs| =>
      if id in cs[i].metrics then cs[i].(metrics := cs[i].metrics[id := Rescaled(cs[i].metrics[id], k)]) else cs[i])
  }

  lemma ValuesInUnit(cs: seq<Measured>, id: string, k: real, other: string)
    ensures Values(InUnit(cs, id, k), other) == if other == id then Times(Values(cs, id), k) else Values(cs, other)
  {
  }

  lemma PartsInUnit(cs: seq<Measured>, id: string, k: real, part: string)
    ensures PartValues(InUnit(cs, id, k), part) == PartValues(cs, part)
  {
  }

  lemma {:induction false} MetricScoresInUnit(
    metrics: seq<Metric>, cs: seq<Measured>, id: string, k: real, i: nat, c: string)
    requires k > 0.0 && i < |cs|
    ensures MetricScores(metrics, InUnit(cs, id, k), i, c) == MetricScores(metrics, cs, i, c)
  {
    if metrics != [] {
      var last := metrics[|metrics| - 1];
      MetricScoresInUnit(metrics[..|metrics| - 1], cs, id, k, i, c);
      ValuesInUnit(cs, id, k, last.id);
      RatioScaleFree(Values(cs, last.id), last.lower, k, i);
    }
  }

  lemma {:induction false} PartScoresInUnit(parts: seq<string>, cs: seq<Measured>, id: string, k: real, i: nat)
    requires i < |cs|
    ensures PartScores(parts, InUnit(cs, id, k), i) == PartScores(parts, cs, i)
  {
    if parts != [] {
      PartScoresInUnit(parts[..|parts| - 1], cs, id, k, i);
      PartsInUnit(cs, id, k, parts[|parts| - 1]);
    }
  }

  /** Multiplying one metric by a positive constant for every candidate changes no score. */
  lemma ScoreScaleFree(weights: seq<Weight>, metrics: seq<Metric>, cs: seq<Measured>, id: string, k: real, i: nat)
    requires k > 0.0 && i < |cs|
    ensures Score(weights, metrics, InUnit(cs, id, k), i) == Score(weights, metrics, cs, i)
  {
    var scaled := InUnit(cs, id, k);
    forall c
      ensures Basis(metrics, scaled, i, c) == Basis(metrics, cs, i, c)
    {
      MetricScoresInUnit(metrics, cs, id, k, i, c);
      PartScoresInUnit(INTEGRATION_PARTS, cs, id, k, i);
    }
    forall k | 0 <= k < |weights|
      ensures Term(weights[k], metrics, scaled, i) == Term(weights[k], metrics, cs, i)
      ensures Share(weights[k], metrics, scaled, i) == Share(weights[k], metrics, cs, i)
    {
      assert Basis(metrics, scaled, i, weights[k].criterion) == Basis(metrics, cs, i, weights[k].criterion);
    }
    assert Terms(weights, metrics, scaled, i) == Terms(weights, metrics, cs, i);
    assert Shares(weights, metrics, scaled, i) == Shares(weights, metrics, cs, i);
  }

  // ---------------------------------------------------------------- the loops

  /** `per`: for each candidate, the scores gathered so far by criterion. */
  type Per = seq<map<string, seq<real>>>

  function At(m: map<string, seq<real>>, c: string): seq<real> {
    if c in m then m[c] else []
  }

  /** `per[n].setdefault(criterion, []).append(score)` for every candidate that has one. */
  method AppendRatios(per: Per, values: seq<Option<real>>, lower: bool, criterion: string) returns (after: Per)
    requires |values| == |per|
    ensures |after| == |per|
    ensures forall i, c | 0 <= i < |per| ::
              At(after[i], c) == At(per[i], c) + if c == criterion then Listed(Ratio(values, lower, i)) else []
  {
    after := per;
    for n := 0 to |per|
      invariant |after| == |per|
      invariant forall i | n <= i < |per| :: after[i] == per[i]
      invariant forall i, c | 0 <= i < n ::
        At(after[i], c) == At(per[i], c) + if c == criterion then Listed(Ratio(values, lower, i)) else []
    {
      var score := Ratio(values, lower, n);
      if score.Some? {
        after := after[n := after[n][criterion := At(after[n], criterion) + [score.value]]];
      }
    }
  }

  /** What is gathered once some metrics and some integration parts were read. */
  ghost predicate Gathered(per: Per, metrics: seq<Metric>, parts: seq<string>, cs: seq<Measured>) {
    && |per| == |cs|
    && forall i, c | 0 <= i < |cs| :: At(per[i], c) == Ratios(metrics, parts, cs, i, c)
  }

  function Ratios(metrics: seq<Metric>, parts: seq<string>, cs: seq<Measured>, i: nat, c: string): seq<real>
    requires i < |cs|
  {
    MetricScores(metrics, cs, i, c) + if c == "integration_cost" then PartScores(parts, cs, i) else []
  }

  lemma OneMoreMetric(metrics: seq<Metric>, m: nat, cs: seq<Measured>, i: nat, c: string)
    requires m < |metrics| && i < |cs|
    ensures Ratios(metrics[..m + 1], [], cs, i, c) ==
            Ratios(metrics[..m], [], cs, i, c)
            + if c == metrics[m].criterion then Listed(Ratio(Values(cs, metrics[m].id), metrics[m].lower, i)) else []
  {
    assert metrics[..m + 1][..m] == metrics[..m];
  }

  lemma OneMorePart(metrics: seq<Metric>, parts: seq<string>, p: nat, cs: seq<Measured>, i: nat, c: string)
    requires p < |parts| && i < |cs|
    ensures Ratios(metrics, parts[..p + 1], cs, i, c) ==
            Ratios(metrics, parts[..p], cs, i, c)
            + if c == "integration_cost" then Listed(Ratio(PartValues(cs, parts[p]), true, i)) else []
  {
    assert parts[..p + 1][..p] == parts[..p];
  }

  /** The loop over the metrics. */
  method GatherMetrics(metrics: seq<Metric>, cs: seq<Measured>) returns (per: Per)
    ensures Gathered(per, metrics, [], cs)
  {
    per := seq(|cs|, _ => map[]);
    for m := 0 to |metrics|
      invariant Gathered(per, metrics[..m], [], cs)
    {
      var after := AppendRatios(per, Values(cs, metrics[m].id), metrics[m].lower, metrics[m].criterion);
      forall i, c | 0 <= i < |cs|
        ensures At(after[i], c) == Ratios(metrics[..m + 1], [], cs, i, c)
      {
        OneMoreMetric(metrics, m, cs, i, c);
        assert At(per[i], c) == Ratios(metrics[..m], [], cs, i, c);
      }
      per := after;
    }
    assert metrics[..|metrics|] == metrics;
  }

  /** The loop over the integration parts. */
  method GatherParts(before: Per, metrics: seq<Metric>, parts: seq<string>, cs: seq<Measured>) returns (per: Per)
    requires Gathered(before, metrics, [], cs)
    ensures Gathered(per, metrics, parts, cs)
  {
    per := before;
    assert parts[..0] == [];
    for p := 0 to |parts|
      invariant Gathered(per, metrics, parts[..p], cs)
    {
      var after := AppendRatios(per, PartValues(cs, parts[p]), true, "integration_cost");
      forall i, c | 0 <= i < |cs|
        ensures At(after[i], c) == Ratios(metrics, parts[..p + 1], cs, i, c)
      {
        OneMorePart(metrics, parts, p, cs, i, c);
        assert At(per[i], c) == Ratios(metrics, parts[..p], cs, i, c);
      }
      per := after;
    }
    assert parts[..|parts|] == parts;
  }

  /** The proxies and gates of one candidate, which replace what was gathered under their names. */
  function WithProxies(m: map<string, seq<real>>, c: Measured): map<string, seq<real>> {
    var licensed := if c.license.Some? then m["license_fit" := [if c.license.value then 1.0 else 0.0]] else m;
    var ported := if c.targets != [] then licensed["portability" := [Portability(c.targets)]] else licensed;
    ported["correctness" := [1.0]]["failure_semantics" := [1.0]]
  }

  lemma ProxiesComplete(per: Per, metrics: seq<Metric>, cs: seq<Measured>, n: nat, c: string)
    requires Gathered(per, metrics, INTEGRATION_PARTS, cs) && n < |cs|
    ensures At(WithProxies(per[n], cs[n]), c) == Basis(metrics, cs, n, c)
  {
    assert At(per[n], c) == Ratios(metrics, INTEGRATION_PARTS, cs, n, c);
  }

  lemma BasesKnown(all: map<string, seq<real>>, weights: seq<Weight>, metrics: seq<Metric>, cs: seq<Measured>, n: nat)
    requires n < |cs| && forall c :: At(all, c) == Basis(metrics, cs, n, c)
    ensures WeightedTerms(weights, all) == Terms(weights, metrics, cs, n)
    ensures WeightedShares(weights, all) == Shares(weights, metrics, cs, n)
  {
  }

  function WeightedTerms(weights: seq<Weight>, all: map<string, seq<real>>): seq<real> {
    seq(|weights|, k requires 0 <= k < |weights| => TermOf(weights[k], At(all, weights[k].criterion)))
  }

  function WeightedShares(weights: seq<Weight>, all: map<string, seq<real>>): seq<real> {
    seq(|weights|, k requires 0 <= k < |weights| => ShareOf(weights[k], At(all, weights[k].criterion)))
  }

  predicate Weighted(weights: seq<Weight>, c: string) {
    exists k | 0 <= k < |weights| :: weights[k].criterion == c
  }

  /** The criterion has a score for the candidate and no weight, which is where the sum of the weights raises. */
  ghost predicate Unweighted(weights: seq<Weight>, metrics: seq<Metric>, cs: seq<Measured>, i: nat, c: string) {
    i < |cs| && Counts(c, Basis(metrics, cs, i, c)) && !Weighted(weights, c)
  }

  /** Every criterion the candidate has a score under has a weight. */
  ghost predicate Covered(weights: seq<Weight>, metrics: seq<Metric>, cs: seq<Measured>, i: nat) {
    forall c :: !Unweighted(weights, metrics, cs, i, c)
  }

  /** The candidate's score by the rule, which needs a weight for each of its criteria. */
  ghost predicate ScoredAs(weights: seq<Weight>, metrics: seq<Metric>, cs: seq<Measured>, i: nat, score: real) {
    i < |cs| && Covered(weights, metrics, cs, i) && score == Score(weights, metrics, cs, i)
  }

  ghost predicate AllScoredAs(weights: seq<Weight>, metrics: seq<Metric>, cs: seq<Measured>, scores: seq<real>) {
    forall i | 0 <= i < |scores| :: ScoredAs(weights, metrics, cs, i, scores[i])
  }

  lemma OneMoreScored(weights: seq<Weight>, metrics: seq<Metric>, cs: seq<Measured>, scores: seq<real>, score: real)
    requires AllScoredAs(weights, metrics, cs, scores) && ScoredAs(weights, metrics, cs, |scores|, score)
    ensures AllScoredAs(weights, metrics, cs, scores + [score])
  {
    var more := scores + [score];
    forall i | 0 <= i < |more|
      ensures ScoredAs(weights, metrics, cs, i, more[i])
    {
      assert i < |scores| ==> ScoredAs(weights, metrics, cs, i, scores[i]);
    }
  }

  /** The weighted sum over what was gathered for one candidate, unless a criterion scored there has no weight. */
  method ScoreOne(weights: seq<Weight>, metrics: seq<Metric>, cs: seq<Measured>, per: Per, n: nat)
    returns (r: Result<real, string>)
    requires Gathered(per, metrics, INTEGRATION_PARTS, cs) && n < |cs|
    ensures r.Ok? ==> ScoredAs(weights, metrics, cs, n, r.value)
    ensures r.Err? ==> Unweighted(weights, metrics, cs, n, r.error)
  {
    var all := WithProxies(per[n], cs[n]);
    forall c
      ensures At(all, c) == Basis(metrics, cs, n, c)
    {
      ProxiesComplete(per, metrics, cs, n, c);
    }
    var unweighted := set c | c in all && Counts(c, all[c]) && !Weighted(weights, c);
    if unweighted != {} {
      var c :| c in unweighted;
      return Err(c);
    }
    assert forall c :: Unweighted(weights, metrics, cs, n, c) ==> c in unweighted;
    BasesKnown(all, weights, metrics, cs, n);
    var terms, shares := WeightedTerms(weights, all), WeightedShares(weights, all);
    return Ok(if Sum(shares) != 0.0 then Sum(terms) / Sum(shares) else 0.0);
  }

  /** The first candidate to raise: those before it have scores, and `c` is a criterion of its without a weight. */
  ghost predicate RaisesAt(
    weights: seq<Weight>, metrics: seq<Metric>, cs: seq<Measured>, scores: seq<real>, c: string)
  {
    AllScoredAs(weights, metrics, cs, scores) && Unweighted(weights, metrics, cs, |scores|, c)
  }

  /**
   `automated_score`: it raises at the first candidate with a score under a criterion that has no weight, and otherwise
   the weighted sums of what the loops gathered are the scores of the rule.
   */
  method AutomatedScore(weights: seq<Weight>, metrics: seq<Metric>, cs: seq<Measured>)
    returns (r: Result<seq<real>, string>)
    ensures r.Err? ==> exists scores :: RaisesAt(weights, metrics, cs, scores, r.error)
    ensures r.Ok? ==> |r.value| == |cs| && AllScoredAs(weights, metrics, cs, r.value)
  {
    var gathered := GatherMetrics(metrics, cs);
    var per := GatherParts(gathered, metrics, INTEGRATION_PARTS, cs);
    var scores := [];
    for n := 0 to |cs|
      invariant |scores| == n && AllScoredAs(weights, metrics, cs, scores)
    {
      var score := ScoreOne(weights, metrics, cs, per, n);
      if score.Err? {
        assert RaisesAt(weights, metrics, cs, scores, score.error);
        return Err(score.error);
      }
      OneMoreScored(weights, metrics, cs, scores, score.value);
      scores := scores + [score.value];
    }
    return Ok(scores);
  }
}
