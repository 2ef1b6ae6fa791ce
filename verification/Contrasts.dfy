/**
 The decision on one contrast of the baseline study (`aggregate_a0_baseline`): paired differences per
 seed, their Student intervals, the gates and the verdict. Proved of every admitted table: the verdicts
 exclude each other whatever the order of the branches, pooling over folds commutes, and exchanging
 the two arms reflects the evidence, so no exchanged contrast supports its claim a second time.
 */
module Contrasts {
  import opened Basics
  import opened Evidence
  import opened Statistics

  const T_CRITICAL := 2.7764451051977987

  datatype Mode = PlainParams | EqualParamsFlops | EqualParams

  datatype Contrast = Contrast(treatment: string, control: string, mode: Mode)

  datatype Thresholds = Thresholds(
    deltaMin: real, accuracyLowerAbove: real, eachFoldAbove: real, nllUpperAtMost: real, eceMeanAtMost: real,
    eceUpperAtMost: real,
    iidLowerAtLeast: real, coverageIidAtLeast: real, coverageOodAtLeast: real, selectiveMeanAtMost: real,
    paramTolerance: real, learnableAtLeast: real)

  /** The two splits a table is read on: the one drawn as the training data and the shifted one. */
  datatype Split = Iid | Ood

  /** The numbers of an admitted table: for each arm a row for each seed, in it a number for each fold. */
  datatype Readings = Readings(
    arms: set<string>, folds: nat, scores: (string, Split, Metric) -> seq<seq<real>>,
    sizes: (string, Size) -> seq<seq<real>>)

  ghost predicate Shaped(t: Readings, rows: seq<seq<real>>) {
    |rows| == |SEEDS| && Rectangular(rows, t.folds)
  }

  ghost predicate ValidReadings(t: Readings) {
    && t.folds > 0
    && (forall arm, split, metric | arm in t.arms :: Shaped(t, t.scores(arm, split, metric)))
    && (forall arm, size | arm in t.arms :: Shaped(t, t.sizes(arm, size)))
  }

  ghost predicate ValidContrast(t: Readings, c: Contrast) {
    ValidReadings(t) && c.treatment in t.arms && c.control in t.arms
  }

  // ---------------------------------------------------------------- paired differences

  /** `one` of `Table.deltas`: the number of a fold, or the mean over the folds of a seed. */
  function One(rows: seq<seq<real>>, width: nat, i: nat, fold: Option<nat>): real
    requires Rectangular(rows, width) && width > 0 && i < |rows| && (fold.Some? ==> fold.value < width)
  {
    if fold.Some? then rows[i][fold.value] else Mean(rows[i])
  }

  function Paired(a: seq<seq<real>>, b: seq<seq<real>>, width: nat, fold: Option<nat>): (deltas: seq<real>)
    requires |a| == |b| && Rectangular(a, width) && Rectangular(b, width) && width > 0
    requires fold.Some? ==> fold.value < width
    ensures |deltas| == |a|
  {
    seq(|a|, i requires 0 <= i < |a| => One(a, width, i, fold) - One(b, width, i, fold))
  }

  ghost predicate ValidFold(t: Readings, fold: Option<nat>) {
    fold.Some? ==> fold.value < t.folds
  }

  /** `Table.deltas`. */
  ghost function Deltas(t: Readings, c: Contrast, split: Split, metric: Metric, fold: Option<nat>): (deltas: seq<real>)
    requires ValidContrast(t, c) && ValidFold(t, fold)
    ensures |deltas| == |SEEDS|
  {
    assert Shaped(t, t.scores(c.treatment, split, metric)) && Shaped(t, t.scores(c.control, split, metric));
    Paired(t.scores(c.treatment, split, metric), t.scores(c.control, split, metric), t.folds, fold)
  }

  /** `endpoint`: the interval of the differences. */
  ghost function Endpoint(
    t: Readings, c: Contrast, split: Split, metric: Metric, fold: Option<nat>, root: real -> real): Interval
    requires ValidContrast(t, c) && ValidFold(t, fold) && root(|SEEDS| as real) != 0.0
  {
    StudentInterval(Deltas(t, c, split, metric, fold), T_CRITICAL, root)
  }

  // ---------------------------------------------------------------- matched compute

  /** A relative difference of sizes, infinite where the control has none. */
  datatype Ratio = Finite(x: real) | Infinite

  predicate AtMost(r: Ratio, k: real) {
    r.Finite? && r.x <= k
  }

  function Larger(a: Ratio, b: Ratio): Ratio {
    if a.Infinite? || b.Infinite? then Infinite else if a.x < b.x then b else a
  }

  function Relative(tp: real, cp: real): Ratio {
    if cp != 0.0 then Finite(Abs(tp - cp) / cp) else Infinite
  }

  ghost function SizeAt(t: Readings, arm: string, size: Size, i: nat, j: nat): real
    requires ValidReadings(t) && arm in t.arms && i < |SEEDS| && j < t.folds
  {
    assert Shaped(t, t.sizes(arm, size));
    t.sizes(arm, size)[i][j]
  }

  /** The sizes of both arms at one cell, as `compute_check` reads them. */
  datatype Pair = Pair(tp: real, cp: real, tf: real, cf: real)

  predicate PairMatches(mode: Mode, p: Pair, tolerance: real) {
    match mode
    case PlainParams => AtMost(Relative(p.tp, p.cp), tolerance)
    case EqualParamsFlops => p.tp == p.cp && p.tf == p.cf
    case EqualParams => p.tp == p.cp
  }

  ghost function PairAt(t: Readings, c: Contrast, i: nat, j: nat): Pair
    requires ValidContrast(t, c) && i < |SEEDS| && j < t.folds
  {
    Pair(SizeAt(t, c.treatment, TotalParams, i, j), SizeAt(t, c.control, TotalParams, i, j),
         SizeAt(t, c.treatment, FlopsPerExample, i, j), SizeAt(t, c.control, FlopsPerExample, i, j))
  }

  ghost predicate MatchedAt(t: Readings, c: Contrast, tolerance: real, i: nat, j: nat)
    requires ValidContrast(t, c) && i < |SEEDS| && j < t.folds
  {
    PairMatches(c.mode, PairAt(t, c, i, j), tolerance)
  }

  /** Compute is matched at every seed and fold. */
  ghost predicate Matched(t: Readings, c: Contrast, tolerance: real)
    requires ValidContrast(t, c)
  {
    forall i: nat, j: nat | i < |SEEDS| && j < t.folds :: MatchedAt(t, c, tolerance, i, j)
  }

  ghost predicate Reads(t: Readings, c: Contrast, cells: seq<seq<Pair>>)
    requires ValidContrast(t, c)
  {
    && |cells| == |SEEDS|
    && (forall i | 0 <= i < |cells| :: |cells[i]| == t.folds)
    && (forall i: nat, j: nat | i < |SEEDS| && j < t.folds :: cells[i][j] == PairAt(t, c, i, j))
  }

  /** No relative difference among `cells` is larger than `worst`. */
  ghost predicate Bounds(worst: Ratio, cells: seq<Pair>) {
    forall k | 0 <= k < |cells| :: Larger(worst, Relative(cells[k].tp, cells[k].cp)) == worst
  }

  ghost predicate AllMatch(mode: Mode, cells: seq<Pair>, tolerance: real) {
    forall k | 0 <= k < |cells| :: PairMatches(mode, cells[k], tolerance)
  }

  lemma BoundsLarger(worst: Ratio, other: Ratio, cells: seq<Pair>)
    requires Bounds(worst, cells)
    ensures Bounds(Larger(worst, other), cells)
  {
  }

  /** The inner loop of `compute_check`, over the folds of one seed. */
  method CheckSeed(mode: Mode, cells: seq<Pair>, tolerance: real, before: Ratio) returns (ok: bool, worst: Ratio)
    ensures ok <==> AllMatch(mode, cells, tolerance)
    ensures Bounds(worst, cells) && Larger(worst, before) == worst
    ensures worst == before || exists k | 0 <= k < |cells| :: worst == Relative(cells[k].tp, cells[k].cp)
  {
    ok, worst := true, before;
    for k := 0 to |cells|
      invariant ok <==> AllMatch(mode, cells[..k], tolerance)
      invariant Bounds(worst, cells[..k]) && Larger(worst, before) == worst
      invariant worst == before || exists m | 0 <= m < k :: worst == Relative(cells[m].tp, cells[m].cp)
    {
      var relative := Relative(cells[k].tp, cells[k].cp);
      assert cells[..k + 1] == cells[..k] + [cells[k]];
      BoundsLarger(worst, relative, cells[..k]);
      worst := Larger(worst, relative);
      ok := ok && PairMatches(mode, cells[k], tolerance);
    }
    assert cells[..|cells|] == cells;
  }

  /** `compute_check`: whether all cells match, and the largest relative difference among them. */
  method ComputeCheck(mode: Mode, cells: seq<seq<Pair>>, tolerance: real) returns (ok: bool, worst: Ratio)
    ensures ok <==> forall i | 0 <= i < |cells| :: AllMatch(mode, cells[i], tolerance)
    ensures forall i | 0 <= i < |cells| :: Bounds(worst, cells[i])
    ensures worst == Finite(0.0) || exists i, k | 0 <= i < |cells| && 0 <= k < |cells[i]| ::
            worst == Relative(cells[i][k].tp, cells[i][k].cp)
  {
    ok, worst := true, Finite(0.0);
    for n := 0 to |cells|
      invariant ok <==> forall i | 0 <= i < n :: AllMatch(mode, cells[i], tolerance)
      invariant forall i | 0 <= i < n :: Bounds(worst, cells[i])
      invariant worst == Finite(0.0) || exists i, k | 0 <= i < n && 0 <= k < |cells[i]| ::
        worst == Relative(cells[i][k].tp, cells[i][k].cp)
    {
      var matches, larger := CheckSeed(mode, cells[n], tolerance, worst);
      forall i | 0 <= i < n
        ensures Bounds(larger, cells[i])
      {
        BoundsTransitive(worst, larger, cells[i]);
      }
      ok, worst := ok && matches, larger;
    }
  }

  lemma BoundsTransitive(worst: Ratio, larger: Ratio, cells: seq<Pair>)
    requires Bounds(worst, cells) && Larger(larger, worst) == larger
    ensures Bounds(larger, cells)
  {
  }

  /** So the check passes exactly when compute is matched. */
  lemma CheckIsMatched(t: Readings, c: Contrast, cells: seq<seq<Pair>>, tolerance: real)
    requires ValidContrast(t, c) && Reads(t, c, cells)
    ensures (forall i | 0 <= i < |cells| :: AllMatch(c.mode, cells[i], tolerance)) <==> Matched(t, c, tolerance)
  {
    forall i: nat, j: nat | i < |SEEDS| && j < t.folds
      ensures PairMatches(c.mode, cells[i][j], tolerance) <==> MatchedAt(t, c, tolerance, i, j)
    {
    }
    if forall i | 0 <= i < |cells| :: AllMatch(c.mode, cells[i], tolerance) {
      forall i: nat, j: nat | i < |SEEDS| && j < t.folds
        ensures MatchedAt(t, c, tolerance, i, j)
      {
        assert AllMatch(c.mode, cells[i], tolerance);
      }
    }
  }

  // ---------------------------------------------------------------- gates and verdicts

  datatype Gate = CompleteEvidence | OodAccuracy | PositiveEachFold | OodNllEachFold | OodEceEachFold
                | IidAccuracy | CoverageGate | SelectiveErrorGate | MatchedCompute

  ghost function ScoreAt(t: Readings, arm: string, split: Split, metric: Metric, i: nat, j: nat): real
    requires ValidReadings(t) && arm in t.arms && i < |SEEDS| && j < t.folds
  {
    assert Shaped(t, t.scores(arm, split, metric));
    t.scores(arm, split, metric)[i][j]
  }

  /** `evaluate_gates`, one gate at a time. */
  ghost predicate Holds(t: Readings, c: Contrast, th: Thresholds, root: real -> real, gate: Gate)
    requires ValidContrast(t, c) && root(|SEEDS| as real) != 0.0
  {
    match gate
    case CompleteEvidence => true
    case OodAccuracy =>
      var e := Endpoint(t, c, Ood, Accuracy, None, root);
      e.mean >= th.deltaMin && e.low > th.accuracyLowerAbove
    case PositiveEachFold => forall f: nat | f < t.folds ::
        Endpoint(t, c, Ood, Accuracy, Some(f), root).mean > th.eachFoldAbove
    case OodNllEachFold => forall f: nat | f < t.folds ::
        Endpoint(t, c, Ood, Nll, Some(f), root).high <= th.nllUpperAtMost
    case OodEceEachFold => forall f: nat | f < t.folds ::
      var e := Endpoint(t, c, Ood, Ece, Some(f), root);
      e.mean <= th.eceMeanAtMost && e.high <= th.eceUpperAtMost
    case IidAccuracy => Endpoint(t, c, Iid, Accuracy, None, root).low >= th.iidLowerAtLeast
    case CoverageGate => forall i: nat, j: nat | i < |SEEDS| && j < t.folds ::
      && ScoreAt(t, c.treatment, Iid, Coverage, i, j) >= th.coverageIidAtLeast
      && ScoreAt(t, c.treatment, Ood, Coverage, i, j) >= th.coverageOodAtLeast
    case SelectiveErrorGate => Endpoint(t, c, Ood, SelectiveError, None, root).mean <= th.selectiveMeanAtMost
    case MatchedCompute => Matched(t, c, th.paramTolerance)
  }

  /** `mean_accuracy`: over all seeds and folds at once. */
  ghost function MeanAccuracy(t: Readings, arm: string): real
    requires ValidReadings(t) && arm in t.arms
  {
    Sum(RowSums(t.scores(arm, Iid, Accuracy))) / (|SEEDS| * t.folds) as real
  }

  ghost predicate Learnable(t: Readings, th: Thresholds, arm: string)
    requires ValidReadings(t) && arm in t.arms
  {
    MeanAccuracy(t, arm) >= th.learnableAtLeast
  }

  datatype Verdict = Supports | Falsifies | Inconclusive

  datatype Label = LabelSupports | NoGoCalibration | LabelInconclusive | Harmful | LabelFalsifies

  datatype Rules = Rules(order: seq<Gate>, calibration: seq<Gate>)

  ghost function Failing(t: Readings, c: Contrast, th: Thresholds, root: real -> real, order: seq<Gate>): seq<Gate>
    requires ValidContrast(t, c) && root(|SEEDS| as real) != 0.0
  {
    if order == [] then []
    else (if Holds(t, c, th, root, order[0]) then [] else [order[0]]) + Failing(t, c, th, root, order[1..])
  }

  /** `decide_contrast`. */
  ghost function Decide(t: Readings, c: Contrast, th: Thresholds, rules: Rules, root: real -> real): (Verdict, Label)
    requires ValidContrast(t, c) && root(|SEEDS| as real) != 0.0
  {
    var failing := Failing(t, c, th, root, rules.order);
    var high := Endpoint(t, c, Ood, Accuracy, None, root).high;
    if Holds(t, c, th, root, OodAccuracy) then
      if failing == [] then (Supports, LabelSupports)
      else if exists i | 0 <= i < |failing| :: failing[i] in rules.calibration then (Inconclusive, NoGoCalibration)
      else (Inconclusive, LabelInconclusive)
    else if high < th.deltaMin && Learnable(t, th, c.treatment) && Learnable(t, th, c.control)
        && Holds(t, c, th, root, MatchedCompute) then
      if high < 0.0 then (Falsifies, Harmful) else (Falsifies, LabelFalsifies)
    else (Inconclusive, LabelInconclusive)
  }

  // ---------------------------------------------------------------- what a verdict means

  lemma {:induction false} FailingExactly(
    t: Readings, c: Contrast, th: Thresholds, root: real -> real, order: seq<Gate>, gate: Gate)
    requires ValidContrast(t, c) && root(|SEEDS| as real) != 0.0
    ensures gate in Failing(t, c, th, root, order) <==> gate in order && !Holds(t, c, th, root, gate)
  {
    if order != [] {
      FailingExactly(t, c, th, root, order[1..], gate);
      assert order == [order[0]] + order[1..];
    }
  }

  /** The accuracy gate and the ground for falsification exclude each other: an interval encloses its mean. */
  lemma GateExcludesFalsification(t: Readings, c: Contrast, th: Thresholds, root: real -> real)
    requires ValidContrast(t, c) && IsRoot(root) && root(|SEEDS| as real) != 0.0
    ensures !(Holds(t, c, th, root, OodAccuracy) && Endpoint(t, c, Ood, Accuracy, None, root).high < th.deltaMin)
  {
    IntervalEnclosesMean(Deltas(t, c, Ood, Accuracy, None), T_CRITICAL, root);
  }

  /** Each verdict has its own ground, in which the order of the branches plays no part. */
  lemma VerdictGrounds(t: Readings, c: Contrast, th: Thresholds, rules: Rules, root: real -> real)
    requires ValidContrast(t, c) && IsRoot(root) && root(|SEEDS| as real) != 0.0
    ensures var (verdict, named) := Decide(t, c, th, rules, root);
            var high := Endpoint(t, c, Ood, Accuracy, None, root).high;
            var grounds := high < th.deltaMin && Learnable(t, th, c.treatment) && Learnable(t, th, c.control)
                && Matched(t, c, th.paramTolerance);
            && (verdict == Supports <==> named == LabelSupports)
            && (verdict == Supports <==>
                  Holds(t, c, th, root, OodAccuracy) && forall gate | gate in rules.order ::
                      Holds(t, c, th, root, gate))
            && (verdict == Falsifies <==> grounds)
            && (named == Harmful <==> grounds && high < 0.0)
            && (named == NoGoCalibration <==>
                  Holds(t, c, th, root, OodAccuracy)
                  && exists gate | gate in rules.calibration :: gate in rules.order && !Holds(t, c, th, root, gate))
  {
    GateExcludesFalsification(t, c, th, root);
    var failing := Failing(t, c, th, root, rules.order);
    forall gate
      ensures gate in failing <==> gate in rules.order && !Holds(t, c, th, root, gate)
    {
      FailingExactly(t, c, th, root, rules.order, gate);
    }
    if failing != [] {
      assert failing[0] in failing;
    }
    if gate :| gate in rules.calibration && gate in failing {
      var i :| 0 <= i < |failing| && failing[i] == gate;
      assert failing[i] in rules.calibration;
    }
    if i :| 0 <= i < |failing| && failing[i] in rules.calibration {
      assert failing[i] in failing;
    }
  }

  // ---------------------------------------------------------------- pooling over folds

  /** The differences of two arms, cell by cell. */
  ghost function Differences(a: seq<seq<real>>, b: seq<seq<real>>, width: nat): (rows: seq<seq<real>>)
    requires |a| == |b| && Rectangular(a, width) && Rectangular(b, width)
    ensures |rows| == |a| && Rectangular(rows, width)
  {
    seq(|a|, i requires 0 <= i < |a| => seq(width, j requires 0 <= j < width => a[i][j] - b[i][j]))
  }

  /** Averaging differences or taking the difference of averages: the two deciders pool alike. */
  lemma MeanOfDifferences(xs: seq<real>, ys: seq<real>, ds: seq<real>)
    requires |xs| == |ys| == |ds| > 0 && forall j | 0 <= j < |xs| :: ds[j] == xs[j] - ys[j]
    ensures Mean(ds) == Mean(xs) - Mean(ys)
  {
    SumAdded(ds, ys);
    assert Added(ds, ys) == xs;
    DivideAdds(Sum(ds), Sum(ys), |xs|);
  }

  /**
   Pooling commutes: the mean over seeds of the differences averaged over folds is the mean over folds
   of the differences averaged over seeds.
   */
  lemma PooledMeanIsMeanOfFolds(t: Readings, c: Contrast, split: Split, metric: Metric, foldMeans: seq<real>)
    requires ValidContrast(t, c) && |foldMeans| == t.folds
    requires forall f: nat | f < |foldMeans| :: foldMeans[f] == Mean(Deltas(t, c, split, metric, Some(f)))
    ensures Mean(Deltas(t, c, split, metric, None)) == Mean(foldMeans)
  {
    var a, b, width := t.scores(c.treatment, split, metric), t.scores(c.control, split, metric), t.folds;
    var d := Differences(a, b, width);
    PoolingCommutes(d, width);
    var pooled := Deltas(t, c, split, metric, None);
    forall i | 0 <= i < |SEEDS|
      ensures RowMeans(d, width)[i] == pooled[i]
    {
      MeanOfDifferences(a[i], b[i], d[i]);
    }
    assert RowMeans(d, width) == pooled;
    forall f: nat | f < width
      ensures ColumnMeans(d, width)[f] == foldMeans[f]
    {
      var fold := Deltas(t, c, split, metric, Some(f));
      forall i | 0 <= i < |SEEDS|
        ensures Column(d, width, f)[i] == fold[i]
      {
      }
      assert Column(d, width, f) == fold;
    }
    assert ColumnMeans(d, width) == foldMeans;
  }

  /** So where every fold's mean lies above a threshold, the pooled mean does too. */
  lemma EachFoldCarriesThePool(t: Readings, c: Contrast, th: Thresholds, root: real -> real)
    requires ValidContrast(t, c) && root(|SEEDS| as real) != 0.0 && Holds(t, c, th, root, PositiveEachFold)
    ensures Endpoint(t, c, Ood, Accuracy, None, root).mean > th.eachFoldAbove
  {
    var width := t.folds;
    var foldMeans := seq(width, f requires 0 <= f < width => Mean(Deltas(t, c, Ood, Accuracy, Some(f))));
    forall f: nat | f < width
      ensures foldMeans[f] > th.eachFoldAbove
    {
      assert Endpoint(t, c, Ood, Accuracy, Some(f), root).mean > th.eachFoldAbove;
    }
    PooledMeanIsMeanOfFolds(t, c, Ood, Accuracy, foldMeans);
    MeanAbove(foldMeans, th.eachFoldAbove);
  }

  // ---------------------------------------------------------------- exchanging the arms

  function Exchanged(c: Contrast): Contrast {
    Contrast(c.control, c.treatment, c.mode)
  }

  lemma DeltasReflect(t: Readings, c: Contrast, split: Split, metric: Metric, fold: Option<nat>)
    requires ValidContrast(t, c) && ValidFold(t, fold)
    ensures Deltas(t, Exchanged(c), split, metric, fold) == Negated(Deltas(t, c, split, metric, fold))
  {
  }

  /** Exchanging treatment and control negates every difference and reflects every interval. */
  lemma EndpointsReflect(t: Readings, c: Contrast, split: Split, metric: Metric, fold: Option<nat>, root: real -> real)
    requires ValidContrast(t, c) && ValidFold(t, fold) && root(|SEEDS| as real) != 0.0
    ensures var e, r := Endpoint(t, c, split, metric, fold, root), Endpoint(t, Exchanged(c), split, metric, fold, root);
            r == Interval(-e.mean, e.sd, -e.high, -e.low)
  {
    DeltasReflect(t, c, split, metric, fold);
    IntervalReflects(Deltas(t, c, split, metric, fold), T_CRITICAL, root);
  }

  /** Under the modes that ask for equality, compute is matched both ways or neither. */
  lemma MatchedBothWays(t: Readings, c: Contrast, tolerance: real)
    requires ValidContrast(t, c) && !c.mode.PlainParams?
    ensures Matched(t, c, tolerance) <==> Matched(t, Exchanged(c), tolerance)
  {
    forall i: nat, j: nat | i < |SEEDS| && j < t.folds
      ensures MatchedAt(t, c, tolerance, i, j) <==> MatchedAt(t, Exchanged(c), tolerance, i, j)
    {
    }
  }

  /**
   Verdicts are antisymmetric: a contrast that supports its claim, exchanged, never supports; it is harmful exactly
   when both arms are learnable and compute is matched the other way round too, which the modes that ask for equality
   carry over.
   */
  lemma SupportsExchangedIsHarmful(t: Readings, c: Contrast, th: Thresholds, rules: Rules, root: real -> real)
    requires ValidContrast(t, c) && IsRoot(root) && root(|SEEDS| as real) != 0.0
    requires th.deltaMin > 0.0 && th.accuracyLowerAbove >= 0.0
    requires Decide(t, c, th, rules, root).0 == Supports
    ensures Decide(t, Exchanged(c), th, rules, root) ==
            if Learnable(t, th, c.treatment) && Learnable(t, th, c.control)
            && Matched(t, Exchanged(c), th.paramTolerance)
            then (Falsifies, Harmful) else (Inconclusive, LabelInconclusive)
    ensures !c.mode.PlainParams? && MatchedCompute in rules.order ==> Matched(t, Exchanged(c), th.paramTolerance)
  {
    VerdictGrounds(t, c, th, rules, root);
    assert Holds(t, c, th, root, OodAccuracy);
    EndpointsReflect(t, c, Ood, Accuracy, None, root);
    VerdictGrounds(t, Exchanged(c), th, rules, root);
    assert !Holds(t, Exchanged(c), th, root, OodAccuracy);
    if !c.mode.PlainParams? && MatchedCompute in rules.order {
      assert Holds(t, c, th, root, MatchedCompute);
      MatchedBothWays(t, c, th.paramTolerance);
    }
  }
}
