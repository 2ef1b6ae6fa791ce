/**
 The ablation decider (`aggregate_a0_ablation.decide`): one verdict for each contrast, in order, from the accuracies of
 every arm, seed and split. Proved for any study and any scores: exactly when it raises, and that otherwise it fails
 closed, judges a mechanism that relies on a manipulation check only after that check passed, and supports a contrast
 only on the statistics of arms that were learnable.
 */
module Ablation {
  import opened Basics
  import opened Statistics

  const TEST_SPLITS: seq<string> :=
    ["test_iid", "ood_compose_epi", "ood_compose_regime", "ood_distractors", "ood_validity", "ood_payload"]

  const SLOTLESS := "no-semantic-slots"
  const SLOTLESS_MASKED := "no-semantic-slots-masked"

  /** A split's accuracy, and that of each of its subsets, of which an empty one has none. */
  datatype Cell = Cell(accuracy: real, subsets: map<string, Option<real>>)

  /** What each arm, seed and split scored. */
  type Scores = map<string, map<int, map<string, Cell>>>

  /** The endpoint of a contrast: a split's accuracy, the unweighted mean over some splits, or that of a subset. */
  datatype Endpoint = OnSplit(split: string) | Composite(name: string) | Subset(split: string, tag: string)
                    | UnknownEndpoint

  /**
   A text that names nothing is empty: `requiresPass` where no check is relied on, `dose` where there is none.
   */
  datatype Kind =
    | NotTestedKind
    | ManipulationCheck(passMin: real)
    | NegativeControl(equivalence: real)
    | MechanismPair
    | Mechanism(requiresPass: string, blindnessMargin: Option<real>, reportMaskShare: bool, dose: string)

  datatype Contrast = Contrast(
    id: string, kind: Kind, endpoint: Endpoint, comparator: string, ablated: string, attribution: Option<string>,
    deltaMin: real)

  /** The preregistered numbers: seeds, the t quantile, the bars of the gates and of learnability. */
  datatype Study = Study(
    seeds: seq<int>, t: real, ceiling: real, competenceMin: real, competenceMargin: real, leakMargin: real,
    bound: real, restrictedBar: real, completePath: set<string>, restricted: set<string>,
    composites: map<string, seq<string>>, contrasts: seq<Contrast>)

  datatype Verdict = Supports | Falsifies | Harmful | Inconclusive | Equivalent | SupportsNonlinearity
                   | Pass | Fail | NotExercised | NotTested | NotRun | NotIssued

  /** Where a square root is taken, it is of the number of seeds. */
  predicate Rooted(study: Study, root: real -> real) {
    study.seeds != [] ==> root(|study.seeds| as real) != 0.0
  }

  // ---------------------------------------------------------------- endpoints

  predicate HasSplits(row: map<string, Cell>, splits: seq<string>) {
    forall k | 0 <= k < |splits| :: splits[k] in row
  }

  /** `endpoint` on one arm and seed; where it raises there is no value. */
  function Value(composites: map<string, seq<string>>, row: map<string, Cell>, e: Endpoint): Option<real> {
    match e
    case OnSplit(split) => if split in row then Some(row[split].accuracy) else None
    case Composite(name) =>
      if name in composites && composites[name] != [] && HasSplits(row, composites[name]) then
        var splits := composites[name];
        Some(Mean(seq(|splits|, k requires 0 <= k < |splits| => row[splits[k]].accuracy)))
      else None
    case Subset(split, tag) => if split in row && tag in row[split].subsets then row[split].subsets[tag] else None
    case UnknownEndpoint => None
  }

  function Read(study: Study, scores: Scores, arm: string, seed: int, e: Endpoint): Option<real> {
    if arm in scores && seed in scores[arm] then Value(study.composites, scores[arm][seed], e) else None
  }

  /** The endpoint of the arm has a value for every seed. */
  predicate Readable(study: Study, scores: Scores, arm: string, e: Endpoint) {
    forall i | 0 <= i < |study.seeds| :: Read(study, scores, arm, study.seeds[i], e).Some?
  }

  function ReadAll(study: Study, scores: Scores, arm: string, e: Endpoint): (xs: seq<real>)
    requires Readable(study, scores, arm, e)
    ensures |xs| == |study.seeds|
  {
    seq(|study.seeds|, i requires 0 <= i < |study.seeds| => Read(study, scores, arm, study.seeds[i], e).value)
  }

  // ---------------------------------------------------------------- completeness

  predicate Scored(scores: Scores, arm: string, seed: int) {
    arm in scores && seed in scores[arm] && HasSplits(scores[arm][seed], TEST_SPLITS)
  }

  /** No test split is missing for any of `arms` and any seed. */
  predicate Complete(scores: Scores, arms: set<string>, seeds: seq<int>) {
    forall arm | arm in arms :: forall i | 0 <= i < |seeds| :: Scored(scores, arm, seeds[i])
  }

  lemma CompleteForOne(scores: Scores, arms: set<string>, seeds: seq<int>, arm: string)
    requires Complete(scores, arms, seeds) && arm in arms
    ensures Complete(scores, {arm}, seeds)
  {
  }

  function Iid(scores: Scores, arm: string, seed: int): real
    requires Scored(scores, arm, seed)
  {
    assert TEST_SPLITS[0] in scores[arm][seed];
    scores[arm][seed]["test_iid"].accuracy
  }

  /** `mean_over_seeds` on the test split drawn as the training data. */
  function MeanIid(scores: Scores, arm: string, seeds: seq<int>): real
    requires Complete(scores, {arm}, seeds) && seeds != []
  {
    Mean(seq(|seeds|, i requires 0 <= i < |seeds| => Iid(scores, arm, seeds[i])))
  }

  /** Every split the endpoint reads is one of the test splits, and none of them is a subset. */
  predicate OverTestSplits(study: Study, e: Endpoint) {
    match e
    case OnSplit(split) => split in TEST_SPLITS
    case Composite(name) =>
      && name in study.composites && study.composites[name] != []
      && forall k | 0 <= k < |study.composites[name]| :: study.composites[name][k] in TEST_SPLITS
    case _ => false
  }

  lemma TestSplitsAreReadable(study: Study, scores: Scores, arm: string, e: Endpoint)
    requires Complete(scores, {arm}, study.seeds) && OverTestSplits(study, e)
    ensures Readable(study, scores, arm, e)
  {
    forall i | 0 <= i < |study.seeds|
      ensures Read(study, scores, arm, study.seeds[i], e).Some?
    {
      assert Scored(scores, arm, study.seeds[i]);
      TestSplitHasValue(study, scores[arm][study.seeds[i]], e);
    }
  }

  lemma TestSplitHasValue(study: Study, row: map<string, Cell>, e: Endpoint)
    requires HasSplits(row, TEST_SPLITS) && OverTestSplits(study, e)
    ensures Value(study.composites, row, e).Some?
  {
    forall split | split in TEST_SPLITS
      ensures split in row
    {
      var k :| 0 <= k < |TEST_SPLITS| && TEST_SPLITS[k] == split;
    }
  }

  // ---------------------------------------------------------------- paired statistics

  datatype Stats = Stats(deltas: seq<real>, interval: Interval)

  function Minus(xs: seq<real>, ys: seq<real>): (ds: seq<real>)
    requires |xs| == |ys|
    ensures |ds| == |xs|
  {
    seq(|xs|, i requires 0 <= i < |xs| => xs[i] - ys[i])
  }

  /** `paired`. */
  function Paired(comparator: seq<real>, ablated: seq<real>, t: real, root: real -> real): Stats
    requires |comparator| == |ablated| > 0 && root(|comparator| as real) != 0.0
  {
    var deltas := Minus(comparator, ablated);
    Stats(deltas, StudentInterval(deltas, t, root))
  }

  predicate AllPositive(xs: seq<real>) {
    forall i | 0 <= i < |xs| :: xs[i] > 0.0
  }

  /** `common_rule`. */
  function CommonRule(stats: Stats, deltaMin: real, blocked: bool): Verdict {
    if blocked then Inconclusive
    else if stats.interval.mean >= deltaMin && stats.interval.low > 0.0 && AllPositive(stats.deltas) then Supports
    else if stats.interval.high < deltaMin then if stats.interval.high < 0.0 then Harmful else Falsifies
    else Inconclusive
  }

  /** Support and falsification have grounds that exclude each other, so the order of the tests does not matter. */
  lemma CommonRuleGrounds(comparator: seq<real>, ablated: seq<real>, t: real, root: real -> real, deltaMin: real)
    requires |comparator| == |ablated| > 0 && t >= 0.0 && IsRoot(root) && root(|comparator| as real) != 0.0
    ensures var s := Paired(comparator, ablated, t, root); var v := CommonRule(s, deltaMin, false);
            && (v == Supports <==> s.interval.mean >= deltaMin && s.interval.low > 0.0 && AllPositive(s.deltas))
            && (v in {Falsifies, Harmful} <==> s.interval.high < deltaMin)
            && (v == Harmful <==> s.interval.high < deltaMin && s.interval.high < 0.0)
  {
    IntervalEnclosesMean(Minus(comparator, ablated), t, root);
  }

  /** With a positive margin, a supported contrast with its arms exchanged is harmful. */
  lemma SupportsExchangedIsHarmful(
    comparator: seq<real>, ablated: seq<real>, t: real, root: real -> real, deltaMin: real)
    requires |comparator| == |ablated| > 0 && t >= 0.0 && IsRoot(root) && root(|comparator| as real) != 0.0
    requires deltaMin > 0.0
    requires CommonRule(Paired(comparator, ablated, t, root), deltaMin, false) == Supports
    ensures CommonRule(Paired(ablated, comparator, t, root), deltaMin, false) == Harmful
  {
    var deltas := Minus(comparator, ablated);
    assert Minus(ablated, comparator) == Negated(deltas);
    IntervalReflects(deltas, t, root);
    CommonRuleGrounds(ablated, comparator, t, root, deltaMin);
  }

  // ---------------------------------------------------------------- learnability and blocking

  datatype Path = CompletePath | Restricted

  datatype Status = Status(path: Path, bar: real, passes: bool)

  function LearnStatus(study: Study, table: Scores, arm: string): Option<Status>
    requires Complete(table, {arm}, study.seeds) && study.seeds != []
  {
    var mean := MeanIid(table, arm, study.seeds);
    if arm in study.completePath then Some(Status(CompletePath, study.bound, mean >= study.bound))
    else if arm in study.restricted then Some(Status(Restricted, study.restrictedBar, mean >= study.restrictedBar))
    else None
  }

  /** What the contrasts are decided on: the table, the contingency runs, and whether a gate failed or a leak shows. */
  datatype Situation = Situation(table: Scores, contingency: Option<Scores>, alarm: bool)

  ghost predicate ValidSituation(study: Study, s: Situation) {
    && study.seeds != []
    && Complete(s.table, s.table.Keys + {"full"}, study.seeds)
    && (s.contingency.Some? ==> Complete(s.contingency.value, s.contingency.value.Keys, study.seeds))
  }

  function Arms(c: Contrast): seq<string> {
    [c.comparator, c.ablated] + (if c.attribution.Some? then [c.attribution.value] else [])
  }

  function StatusIn(study: Study, s: Situation, arm: string): Option<Status>
    requires ValidSituation(study, s) && arm in s.table
  {
    CompleteForOne(s.table, s.table.Keys + {"full"}, study.seeds, arm);
    LearnStatus(study, s.table, arm)
  }

  predicate Present(s: Situation, arms: seq<string>) {
    forall i | 0 <= i < |arms| :: arms[i] in s.table
  }

  predicate BelowBar(study: Study, s: Situation, arm: string)
    requires ValidSituation(study, s) && arm in s.table
  {
    StatusIn(study, s, arm).Some? && !StatusIn(study, s, arm).value.passes
  }

  /** A complete-path arm below its bar calls for the longer contingency runs. */
  predicate NeedsContingency(study: Study, s: Situation, arms: seq<string>)
    requires ValidSituation(study, s) && Present(s, arms)
  {
    exists i | 0 <= i < |arms| :: BelowBar(study, s, arms[i]) && StatusIn(study, s, arms[i]).value.path == CompletePath
  }

  predicate ContingencyCovers(s: Situation, arms: seq<string>) {
    s.contingency.Some? && forall i | 0 <= i < |arms| :: arms[i] in s.contingency.value
  }

  predicate StillBelow(study: Study, s: Situation, arm: string)
    requires ValidSituation(study, s) && arm in s.table && s.contingency.Some? && arm in s.contingency.value
  {
    CompleteForOne(s.contingency.value, s.contingency.value.Keys, study.seeds, arm);
    StatusIn(study, s, arm).Some? && MeanIid(s.contingency.value, arm, study.seeds) < StatusIn(study, s, arm).value.bar
  }

  /** `blocked`: the alarm, or an arm below its bar where the contingency does not lift it. */
  predicate Blocked(study: Study, s: Situation, arms: seq<string>)
    requires ValidSituation(study, s) && Present(s, arms)
  {
    || s.alarm
    || (if NeedsContingency(study, s, arms)
        then !ContingencyCovers(s, arms) || exists i | 0 <= i < |arms| :: StillBelow(study, s, arms[i])
        else exists i | 0 <= i < |arms| :: BelowBar(study, s, arms[i]))
  }

  /** `source`: the contingency table decides when a complete-path arm failed and it has every arm. */
  function SourceOf(study: Study, s: Situation, arms: seq<string>): Scores
    requires ValidSituation(study, s) && Present(s, arms)
  {
    if NeedsContingency(study, s, arms) && ContingencyCovers(s, arms) then s.contingency.value else s.table
  }

  lemma SourceIsComplete(study: Study, s: Situation, arms: seq<string>)
    requires ValidSituation(study, s) && Present(s, arms)
    ensures Complete(SourceOf(study, s, arms), SourceOf(study, s, arms).Keys, study.seeds)
    ensures forall i | 0 <= i < |arms| :: arms[i] in SourceOf(study, s, arms)
  {
  }

  // ---------------------------------------------------------------- one contrast

  /** The results of manipulation checks by id, the last one of an id standing. */
  type Checks = map<string, Verdict>

  /** `contrast_stats`; there are none where an endpoint raises. */
  function PairedOn(
    study: Study, data: Scores, comparator: string, ablated: string, e: Endpoint, root: real -> real): Option<Stats>
    requires study.seeds != [] && Rooted(study, root)
  {
    if Readable(study, data, comparator, e) && Readable(study, data, ablated, e)
    then Some(Paired(ReadAll(study, data, comparator, e), ReadAll(study, data, ablated, e), study.t, root))
    else None
  }

  function CheckVerdict(stats: Stats, passMin: real, blocked: bool): Verdict {
    if blocked then Inconclusive
    else if stats.interval.mean >= passMin && AllPositive(stats.deltas) then Pass
    else Fail
  }

  function ControlVerdict(stats: Stats, equivalence: real, deltaMin: real, blocked: bool): Verdict {
    if blocked then Inconclusive
    else if stats.interval.high < 0.0 then Harmful
    else if -equivalence < stats.interval.low && stats.interval.high < equivalence then Equivalent
    else if CommonRule(stats, deltaMin, false) == Supports then Supports
    else Inconclusive
  }

  function PairVerdict(stats: Stats, attribution: Stats, deltaMin: real, blocked: bool): Verdict {
    var first, second := CommonRule(stats, deltaMin, blocked), CommonRule(attribution, deltaMin, blocked);
    if first in {Falsifies, Harmful} then first
    else if first == Supports && second == Supports then SupportsNonlinearity
    else Inconclusive
  }

  predicate Blind(study: Study, s: Situation, c: Contrast)
    requires ValidSituation(study, s) && Present(s, Arms(c)) && c.kind.Mechanism?
  {
    CompleteForOne(s.table, s.table.Keys + {"full"}, study.seeds, Arms(c)[1]);
    c.kind.blindnessMargin.Some?
        && MeanIid(s.table, c.ablated, study.seeds) > study.bound + c.kind.blindnessMargin.value
  }

  predicate PassedIn(checks: Checks, id: string) {
    id in checks && checks[id] == Pass
  }

  function MechanismVerdict(study: Study, s: Situation, c: Contrast, stats: Stats, checks: Checks): Verdict
    requires ValidSituation(study, s) && Present(s, Arms(c)) && c.kind.Mechanism?
  {
    if Blocked(study, s, Arms(c)) then Inconclusive
    else if c.kind.requiresPass != "" && !PassedIn(checks, c.kind.requiresPass) then NotExercised
    else if Blind(study, s, c) then Inconclusive
    else CommonRule(stats, c.deltaMin, false)
  }

  predicate HasMaskPair(scores: Scores) {
    SLOTLESS in scores && SLOTLESS_MASKED in scores
  }

  function ShareData(s: Situation, data: Scores): Scores {
    if HasMaskPair(data) then data else s.table
  }

  /** The mask share a mechanism reports can be computed, or is not asked for. */
  predicate ShareReads(study: Study, s: Situation, c: Contrast, data: Scores)
    requires c.kind.Mechanism?
  {
    var share := ShareData(s, data);
    c.kind.reportMaskShare && HasMaskPair(share) ==>
      Readable(study, share, SLOTLESS_MASKED, c.endpoint) && Readable(study, share, SLOTLESS, c.endpoint)
  }

  /** The dose response a mechanism reports can be computed, or is not asked for. */
  predicate DoseReads(study: Study, c: Contrast, data: Scores)
    requires c.kind.Mechanism?
  {
    c.kind.dose != "" && c.kind.dose in data ==>
      Readable(study, data, c.kind.dose, c.endpoint) && Readable(study, data, "full", c.endpoint)
  }

  /** What the loop does with one contrast once it has its statistics, the reports that go with the verdict included. */
  function Judged(
    study: Study, s: Situation, c: Contrast, data: Scores, stats: Stats, checks: Checks,
    root: real -> real): Option<Verdict>
    requires ValidSituation(study, s) && Rooted(study, root) && Present(s, Arms(c)) && !c.kind.NotTestedKind?
  {
    var blocked := Blocked(study, s, Arms(c));
    match c.kind
    case ManipulationCheck(passMin) => Some(CheckVerdict(stats, passMin, blocked))
    case NegativeControl(equivalence) =>
      if "full" in data then Some(ControlVerdict(stats, equivalence, c.deltaMin, blocked)) else None
    case MechanismPair =>
      if c.attribution.None? then None
      else
        var attribution := PairedOn(study, data, c.comparator, c.attribution.value, c.endpoint, root);
        if attribution.None? then None else Some(PairVerdict(stats, attribution.value, c.deltaMin, blocked))
    case Mechanism(_, _, _, _) =>
      if ShareReads(study, s, c, data) && DoseReads(study, c, data)
      then Some(MechanismVerdict(study, s, c, stats, checks))
      else None
  }

  /** The verdict on one contrast, given the checks recorded before it; none where the loop raises. */
  function VerdictOn(study: Study, s: Situation, c: Contrast, checks: Checks, root: real -> real): Option<Verdict>
    requires ValidSituation(study, s) && Rooted(study, root)
  {
    if c.kind.NotTestedKind? then Some(NotTested)
    else if !Present(s, Arms(c)) then Some(NotRun)
    else
      var data := SourceOf(study, s, Arms(c));
      var stats := PairedOn(study, data, c.comparator, c.ablated, c.endpoint, root);
      if stats.None? then None else Judged(study, s, c, data, stats.value, checks, root)
  }

  // ---------------------------------------------------------------- when a contrast raises

  /** The arms whose endpoint a contrast reads in the table that decides it. */
  function Consulted(c: Contrast, data: Scores): set<string> {
    {c.comparator, c.ablated}
    + (if c.kind.MechanismPair? && c.attribution.Some? then {c.attribution.value} else {})
    + (if c.kind.Mechanism? && c.kind.dose != "" && c.kind.dose in data then {c.kind.dose, "full"} else {})
  }

  /** Some seed has no value of the endpoint for one of `arms`: no score, an unknown split or an empty subset. */
  ghost predicate SomeUnread(study: Study, data: Scores, arms: set<string>, e: Endpoint) {
    exists arm | arm in arms :: !Readable(study, data, arm, e)
  }

  /**
   What makes a contrast raise: an endpoint without a value, a negative control decided by contingency runs that leave
   out the full arm, or a mechanism pair that names no attribution arm.
   */
  ghost predicate Raises(study: Study, s: Situation, c: Contrast)
    requires ValidSituation(study, s)
  {
    && !c.kind.NotTestedKind?
    && Present(s, Arms(c))
    && var data := SourceOf(study, s, Arms(c)); var share := ShareData(s, data);
       || SomeUnread(study, data, Consulted(c, data), c.endpoint)
       || (c.kind.Mechanism? && c.kind.reportMaskShare && HasMaskPair(share)
           && SomeUnread(study, share, {SLOTLESS, SLOTLESS_MASKED}, c.endpoint))
       || (c.kind.NegativeControl? && "full" !in data)
       || (c.kind.MechanismPair? && c.attribution.None?)
  }

  lemma UnreadOfTwo(study: Study, data: Scores, a: string, b: string, e: Endpoint)
    ensures SomeUnread(study, data, {a, b}, e) <==> !Readable(study, data, a, e) || !Readable(study, data, b, e)
  {
    assert a in {a, b} && b in {a, b};
  }

  lemma UnreadOfUnion(study: Study, data: Scores, some: set<string>, more: set<string>, e: Endpoint)
    ensures SomeUnread(study, data, some + more, e) <==>
            SomeUnread(study, data, some, e) || SomeUnread(study, data, more, e)
  {
    assert some <= some + more && more <= some + more;
  }

  /** The arms a contrast consults beside its comparator and the arm it ablates. */
  lemma UnreadConsulted(study: Study, c: Contrast, data: Scores)
    ensures SomeUnread(study, data, Consulted(c, data), c.endpoint) <==>
            || !Readable(study, data, c.comparator, c.endpoint) || !Readable(study, data, c.ablated, c.endpoint)
            || (c.kind.MechanismPair? && c.attribution.Some? && !Readable(study, data, c.attribution.value, c.endpoint))
            || (c.kind.Mechanism? && !DoseReads(study, c, data))
  {
    var pair, dose := {c.comparator, c.ablated}, if c.kind.Mechanism? then c.kind.dose else "";
    UnreadOfTwo(study, data, c.comparator, c.ablated, c.endpoint);
    if c.kind.MechanismPair? && c.attribution.Some? {
      UnreadOfUnion(study, data, pair, {c.attribution.value}, c.endpoint);
      UnreadOfTwo(study, data, c.attribution.value, c.attribution.value, c.endpoint);
      assert Consulted(c, data) == pair + {c.attribution.value};
    } else if c.kind.Mechanism? && dose != "" && dose in data {
      UnreadOfUnion(study, data, pair, {dose, "full"}, c.endpoint);
      UnreadOfTwo(study, data, dose, "full", c.endpoint);
      assert Consulted(c, data) == pair + {dose, "full"};
    } else {
      assert Consulted(c, data) == pair;
    }
  }

  lemma JudgedUnless(
    study: Study, s: Situation, c: Contrast, data: Scores, stats: Stats, checks: Checks, root: real -> real)
    requires ValidSituation(study, s) && Rooted(study, root) && Present(s, Arms(c)) && !c.kind.NotTestedKind?
    requires Readable(study, data, c.comparator, c.endpoint) && Readable(study, data, c.ablated, c.endpoint)
    ensures Judged(study, s, c, data, stats, checks, root).None? <==>
            || SomeUnread(study, data, Consulted(c, data), c.endpoint)
            || (c.kind.Mechanism? && !ShareReads(study, s, c, data))
            || (c.kind.NegativeControl? && "full" !in data)
            || (c.kind.MechanismPair? && c.attribution.None?)
  {
    UnreadConsulted(study, c, data);
  }

  lemma SharesUnless(study: Study, s: Situation, c: Contrast, data: Scores)
    requires c.kind.Mechanism?
    ensures !ShareReads(study, s, c, data) <==>
            && c.kind.reportMaskShare && HasMaskPair(ShareData(s, data))
            && SomeUnread(study, ShareData(s, data), {SLOTLESS, SLOTLESS_MASKED}, c.endpoint)
  {
    UnreadOfTwo(study, ShareData(s, data), SLOTLESS, SLOTLESS_MASKED, c.endpoint);
  }

  /** Whether a contrast raises depends neither on the checks before it nor on whether its arms are blocked. */
  lemma RaisesExactly(study: Study, s: Situation, c: Contrast, checks: Checks, root: real -> real)
    requires ValidSituation(study, s) && Rooted(study, root)
    ensures VerdictOn(study, s, c, checks, root).None? <==> Raises(study, s, c)
  {
    if !c.kind.NotTestedKind? && Present(s, Arms(c)) {
      var data := SourceOf(study, s, Arms(c));
      UnreadConsulted(study, c, data);
      if c.kind.Mechanism? {
        SharesUnless(study, s, c, data);
      }
      var stats := PairedOn(study, data, c.comparator, c.ablated, c.endpoint, root);
      if stats.Some? {
        JudgedUnless(study, s, c, data, stats.value, checks, root);
      }
    }
  }

  /** A contrast against the full arm on whole test splits never raises, if it names the arms its kind calls for. */
  lemma WholeSplitsNeverRaise(study: Study, s: Situation, c: Contrast)
    requires ValidSituation(study, s) && OverTestSplits(study, c.endpoint)
    requires c.comparator == "full" && (c.kind.MechanismPair? ==> c.attribution.Some?)
    ensures !Raises(study, s, c)
  {
    if !c.kind.NotTestedKind? && Present(s, Arms(c)) {
      var data := SourceOf(study, s, Arms(c));
      SourceIsComplete(study, s, Arms(c));
      assert Arms(c)[0] in data && Arms(c)[1] in data;
      assert c.attribution.Some? ==> Arms(c)[2] in data;
      forall arm | arm in Consulted(c, data)
        ensures Readable(study, data, arm, c.endpoint)
      {
        CompleteForOne(data, data.Keys, study.seeds, arm);
        TestSplitsAreReadable(study, data, arm, c.endpoint);
      }
      var share := ShareData(s, data);
      forall arm | arm in {SLOTLESS, SLOTLESS_MASKED} && HasMaskPair(share)
        ensures Readable(study, share, arm, c.endpoint)
      {
        CompleteForOne(share, share.Keys, study.seeds, arm);
        TestSplitsAreReadable(study, share, arm, c.endpoint);
      }
    }
  }

  // ---------------------------------------------------------------- the contrasts in order

  /** The loop's state: the checks recorded and the verdicts given so far. */
  datatype Progress = Progress(checks: Checks, each: seq<Verdict>)

  /** A manipulation check whose arms ran leaves its verdict in `checks`. */
  predicate Records(s: Situation, c: Contrast) {
    c.kind.ManipulationCheck? && Present(s, Arms(c))
  }

  /** The state after the first `n` contrasts; none where one of them raised. */
  function After(study: Study, s: Situation, n: nat, root: real -> real): (p: Option<Progress>)
    requires ValidSituation(study, s) && Rooted(study, root) && n <= |study.contrasts|
    ensures p.Some? ==> |p.value.each| == n
  {
    if n == 0 then Some(Progress(map[], []))
    else
      var before := After(study, s, n - 1, root);
      if before.None? then None
      else
        var c := study.contrasts[n - 1];
        var verdict := VerdictOn(study, s, c, before.value.checks, root);
        if verdict.None? then None
        else Some(Progress(if Records(s, c) then before.value.checks[c.id := verdict.value] else before.value.checks,
                           before.value.each + [verdict.value]))
  }

  /** The loop gets through exactly when no contrast raises. */
  lemma {:induction false} RunsThroughExactly(study: Study, s: Situation, n: nat, root: real -> real)
    requires ValidSituation(study, s) && Rooted(study, root) && n <= |study.contrasts|
    ensures After(study, s, n, root).Some? <==> forall m | 0 <= m < n :: !Raises(study, s, study.contrasts[m])
  {
    if n > 0 {
      RunsThroughExactly(study, s, n - 1, root);
      var before := After(study, s, n - 1, root);
      if before.Some? {
        RaisesExactly(study, s, study.contrasts[n - 1], before.value.checks, root);
      }
    }
  }

  /** Each verdict is the one on its contrast, given the checks recorded before it. */
  lemma {:induction false} EachInTurn(study: Study, s: Situation, n: nat, m: nat, root: real -> real)
    requires ValidSituation(study, s) && Rooted(study, root) && m < n <= |study.contrasts|
    requires After(study, s, n, root).Some?
    ensures After(study, s, m, root).Some?
    ensures After(study, s, m, root).value.each == After(study, s, n, root).value.each[..m]
    ensures VerdictOn(study, s, study.contrasts[m], After(study, s, m, root).value.checks, root)
         == Some(After(study, s, n, root).value.each[m])
  {
    if m < n - 1 {
      EachInTurn(study, s, n - 1, m, root);
    }
  }

  /** Contrast `j` is the last manipulation check of this id before contrast `n` whose arms ran. */
  ghost predicate LastCheck(study: Study, s: Situation, id: string, j: nat, n: nat)
    requires n <= |study.contrasts|
  {
    && j < n
    && Records(s, study.contrasts[j]) && study.contrasts[j].id == id
    && forall m | j < m < n :: !(Records(s, study.contrasts[m]) && study.contrasts[m].id == id)
  }

  lemma LastCheckOneMore(study: Study, s: Situation, id: string, j: nat, n: nat)
    requires 0 < n <= |study.contrasts|
    ensures LastCheck(study, s, id, j, n) <==>
            if Records(s, study.contrasts[n - 1]) && study.contrasts[n - 1].id == id then j == n - 1
            else LastCheck(study, s, id, j, n - 1)
  {
  }

  /** What is recorded under an id is the verdict of the last check of that id. */
  lemma {:induction false} RecordedIsTheLast(
    study: Study, s: Situation, n: nat, id: string, root: real -> real) returns (j: nat)
    requires ValidSituation(study, s) && Rooted(study, root) && n <= |study.contrasts| && After(study, s, n, root).Some?
    requires id in After(study, s, n, root).value.checks
    ensures LastCheck(study, s, id, j, n)
    ensures After(study, s, n, root).value.checks[id] == After(study, s, n, root).value.each[j]
  {
    var c := study.contrasts[n - 1];
    if Records(s, c) && c.id == id {
      j := n - 1;
    } else {
      j := RecordedIsTheLast(study, s, n - 1, id, root);
    }
    LastCheckOneMore(study, s, id, j, n);
  }

  /** A mechanism that relies on a check is judged only if the last earlier check of that id passed. */
  lemma JudgedOnlyAfterItsCheckPassed(study: Study, s: Situation, n: nat, root: real -> real) returns (j: nat)
    requires ValidSituation(study, s) && Rooted(study, root) && After(study, s, |study.contrasts|, root).Some?
    requires n < |study.contrasts| && study.contrasts[n].kind.Mechanism? && study.contrasts[n].kind.requiresPass != ""
    requires After(study, s, |study.contrasts|, root).value.each[n] in {Supports, Falsifies, Harmful}
    ensures LastCheck(study, s, study.contrasts[n].kind.requiresPass, j, n)
    ensures After(study, s, |study.contrasts|, root).value.each[j] == Pass
  {
    EachInTurn(study, s, |study.contrasts|, n, root);
    JudgedRests(study, s, study.contrasts[n], After(study, s, n, root).value.checks, root);
    j := RecordedIsTheLast(study, s, n, study.contrasts[n].kind.requiresPass, root);
  }

  lemma JudgedRests(study: Study, s: Situation, c: Contrast, checks: Checks, root: real -> real)
    requires ValidSituation(study, s) && Rooted(study, root) && c.kind.Mechanism? && c.kind.requiresPass != ""
    requires VerdictOn(study, s, c, checks, root) in {Some(Supports), Some(Falsifies), Some(Harmful)}
    ensures PassedIn(checks, c.kind.requiresPass)
  {
  }

  ghost predicate Grounds(stats: Stats, deltaMin: real) {
    stats.interval.mean >= deltaMin && stats.interval.low > 0.0 && AllPositive(stats.deltas)
  }

  /** The statistics of two arms exist and are grounds for support. */
  ghost predicate GroundsBetween(study: Study, data: Scores, c: Contrast, ablated: string, root: real -> real)
    requires study.seeds != [] && Rooted(study, root)
  {
    var stats := PairedOn(study, data, c.comparator, ablated, c.endpoint, root);
    stats.Some? && Grounds(stats.value, c.deltaMin)
  }

  /** What the statistics of a contrast must be like for the verdict on it to claim what it does. */
  ghost predicate GroundsFor(v: Verdict, c: Contrast, stats: Stats) {
    match v
    case Supports => Grounds(stats, c.deltaMin)
    case SupportsNonlinearity => c.kind.MechanismPair? && Grounds(stats, c.deltaMin)
    case Falsifies => 0.0 <= stats.interval.high < c.deltaMin
    case Harmful => stats.interval.high < 0.0
    case Equivalent => c.kind.NegativeControl? && -c.kind.equivalence < stats.interval.low
        && 0.0 <= stats.interval.high < c.kind.equivalence
    case Pass => c.kind.ManipulationCheck? && stats.interval.mean >= c.kind.passMin && AllPositive(stats.deltas)
    case Fail => c.kind.ManipulationCheck? && !(stats.interval.mean >= c.kind.passMin && AllPositive(stats.deltas))
    case NotExercised => c.kind.Mechanism? && c.kind.requiresPass != ""
    case Inconclusive => true
    case _ => false
  }

  lemma CheckHasGrounds(c: Contrast, stats: Stats, blocked: bool)
    requires c.kind.ManipulationCheck?
    ensures GroundsFor(CheckVerdict(stats, c.kind.passMin, blocked), c, stats)
    ensures blocked ==> CheckVerdict(stats, c.kind.passMin, blocked) == Inconclusive
  {
  }

  lemma ControlHasGrounds(c: Contrast, stats: Stats, blocked: bool)
    requires c.kind.NegativeControl?
    ensures GroundsFor(ControlVerdict(stats, c.kind.equivalence, c.deltaMin, blocked), c, stats)
    ensures blocked ==> ControlVerdict(stats, c.kind.equivalence, c.deltaMin, blocked) == Inconclusive
  {
  }

  lemma PairHasGrounds(c: Contrast, stats: Stats, attribution: Stats, blocked: bool)
    requires c.kind.MechanismPair?
    ensures GroundsFor(PairVerdict(stats, attribution, c.deltaMin, blocked), c, stats)
    ensures PairVerdict(stats, attribution, c.deltaMin, blocked) == SupportsNonlinearity ==>
            Grounds(attribution, c.deltaMin)
    ensures PairVerdict(stats, attribution, c.deltaMin, blocked) != Supports
    ensures blocked ==> PairVerdict(stats, attribution, c.deltaMin, blocked) == Inconclusive
  {
  }

  lemma MechanismHasGrounds(study: Study, s: Situation, c: Contrast, stats: Stats, checks: Checks)
    requires ValidSituation(study, s) && Present(s, Arms(c)) && c.kind.Mechanism?
    ensures GroundsFor(MechanismVerdict(study, s, c, stats, checks), c, stats)
    ensures Blocked(study, s, Arms(c)) ==> MechanismVerdict(study, s, c, stats, checks) == Inconclusive
  {
  }

  lemma JudgedHasGrounds(
    study: Study, s: Situation, c: Contrast, data: Scores, stats: Stats, checks: Checks, root: real -> real)
    requires ValidSituation(study, s) && Rooted(study, root) && Present(s, Arms(c)) && !c.kind.NotTestedKind?
    requires Judged(study, s, c, data, stats, checks, root).Some?
    ensures GroundsFor(Judged(study, s, c, data, stats, checks, root).value, c, stats)
    ensures Judged(study, s, c, data, stats, checks, root).value == Inconclusive || !Blocked(study, s, Arms(c))
    ensures Judged(study, s, c, data, stats, checks, root) == Some(SupportsNonlinearity) ==>
              c.attribution.Some? && GroundsBetween(study, data, c, c.attribution.value, root)
  {
    var blocked := Blocked(study, s, Arms(c));
    match c.kind
    case ManipulationCheck(_) => CheckHasGrounds(c, stats, blocked);
    case NegativeControl(_) => ControlHasGrounds(c, stats, blocked);
    case MechanismPair =>
      var attribution := PairedOn(study, data, c.comparator, c.attribution.value, c.endpoint, root).value;
      PairHasGrounds(c, stats, attribution, blocked);
    case Mechanism(_, _, _, _) => MechanismHasGrounds(study, s, c, stats, checks);
  }

  lemma SupportOnOneHasGrounds(study: Study, s: Situation, c: Contrast, checks: Checks, root: real -> real)
    requires ValidSituation(study, s) && Rooted(study, root)
    requires VerdictOn(study, s, c, checks, root) in {Some(Supports), Some(SupportsNonlinearity)}
    ensures Present(s, Arms(c)) && !Blocked(study, s, Arms(c))
    ensures GroundsBetween(study, SourceOf(study, s, Arms(c)), c, c.ablated, root)
    ensures VerdictOn(study, s, c, checks, root) == Some(SupportsNonlinearity) ==>
              c.attribution.Some? && GroundsBetween(study, SourceOf(study, s, Arms(c)), c, c.attribution.value, root)
  {
    var data := SourceOf(study, s, Arms(c));
    var stats := PairedOn(study, data, c.comparator, c.ablated, c.endpoint, root).value;
    JudgedHasGrounds(study, s, c, data, stats, checks, root);
  }

  /**
   Support rests on its grounds: no alarm, every arm learnable (in the contingency where that decides), a mean of at
   least the margin, an interval above zero and every seed positive; for the nonlinearity, against both arms.
   */
  lemma SupportHasGrounds(study: Study, s: Situation, n: nat, root: real -> real)
    requires ValidSituation(study, s) && Rooted(study, root) && After(study, s, |study.contrasts|, root).Some?
    requires n < |study.contrasts|
    requires After(study, s, |study.contrasts|, root).value.each[n] in {Supports, SupportsNonlinearity}
    ensures var c := study.contrasts[n];
            && Present(s, Arms(c)) && !s.alarm && !Blocked(study, s, Arms(c))
            && var data := SourceOf(study, s, Arms(c));
               && GroundsBetween(study, data, c, c.ablated, root)
               && (After(study, s, |study.contrasts|, root).value.each[n] == SupportsNonlinearity ==>
                     c.attribution.Some? && GroundsBetween(study, data, c, c.attribution.value, root))
  {
    EachInTurn(study, s, |study.contrasts|, n, root);
    SupportOnOneHasGrounds(study, s, study.contrasts[n], After(study, s, n, root).value.checks, root);
  }

  /** Every verdict but the silent ones has its grounds in the statistics of arms nothing blocks. */
  lemma ClaimsHaveGrounds(study: Study, s: Situation, n: nat, root: real -> real)
    requires ValidSituation(study, s) && Rooted(study, root) && After(study, s, |study.contrasts|, root).Some?
    requires n < |study.contrasts| && After(study, s, |study.contrasts|, root).value.each[n] !in SILENT
    ensures var c := study.contrasts[n];
            && Present(s, Arms(c)) && !Blocked(study, s, Arms(c))
            && var stats := PairedOn(study, SourceOf(study, s, Arms(c)), c.comparator, c.ablated, c.endpoint, root);
               stats.Some? && GroundsFor(After(study, s, |study.contrasts|, root).value.each[n], c, stats.value)
  {
    EachInTurn(study, s, |study.contrasts|, n, root);
    var c, checks := study.contrasts[n], After(study, s, n, root).value.checks;
    ClaimOnOneHasGrounds(study, s, c, checks, root);
  }

  lemma ClaimOnOneHasGrounds(study: Study, s: Situation, c: Contrast, checks: Checks, root: real -> real)
    requires ValidSituation(study, s) && Rooted(study, root)
    requires VerdictOn(study, s, c, checks, root).Some? && VerdictOn(study, s, c, checks, root).value !in SILENT
    ensures Present(s, Arms(c)) && !Blocked(study, s, Arms(c))
    ensures var stats := PairedOn(study, SourceOf(study, s, Arms(c)), c.comparator, c.ablated, c.endpoint, root);
            stats.Some? && GroundsFor(VerdictOn(study, s, c, checks, root).value, c, stats.value)
  {
    var data := SourceOf(study, s, Arms(c));
    var stats := PairedOn(study, data, c.comparator, c.ablated, c.endpoint, root).value;
    JudgedHasGrounds(study, s, c, data, stats, checks, root);
  }

  /** Where nothing is blocked, the arms of the table that decides are at or above their bars. */
  lemma UnblockedArmsAreLearnable(study: Study, s: Situation, arms: seq<string>, i: nat)
    requires ValidSituation(study, s) && Present(s, arms) && !Blocked(study, s, arms) && i < |arms|
    ensures Complete(SourceOf(study, s, arms), {arms[i]}, study.seeds)
    ensures StatusIn(study, s, arms[i]).Some? ==>
              MeanIid(SourceOf(study, s, arms), arms[i], study.seeds) >= StatusIn(study, s, arms[i]).value.bar
  {
    SourceIsComplete(study, s, arms);
    CompleteForOne(SourceOf(study, s, arms), SourceOf(study, s, arms).Keys, study.seeds, arms[i]);
    if NeedsContingency(study, s, arms) {
      assert ContingencyCovers(s, arms) && !StillBelow(study, s, arms[i]);
    } else {
      assert !BelowBar(study, s, arms[i]);
    }
  }

  // ---------------------------------------------------------------- the whole decision

  /** The gates as they are handed in, by name. */
  type Gates = map<string, bool>

  predicate ScoresComplete(study: Study, table: Scores, contingency: Option<Scores>) {
    && Complete(table, table.Keys + {"full"}, study.seeds)
    && (contingency.Some? ==> Complete(contingency.value, contingency.value.Keys, study.seeds))
  }

  predicate G3(gates: Gates) {
    "G3" in gates && gates["G3"]
  }

  function CompetenceBar(study: Study): real {
    if study.competenceMin < study.ceiling + study.competenceMargin then study.ceiling + study.competenceMargin
    else study.competenceMin
  }

  predicate Competent(study: Study, table: Scores)
    requires study.seeds != [] && Complete(table, table.Keys + {"full"}, study.seeds)
  {
    CompleteForOne(table, table.Keys + {"full"}, study.seeds, "full");
    MeanIid(table, "full", study.seeds) >= CompetenceBar(study)
  }

  predicate Leaks(study: Study, table: Scores)
    requires study.seeds != [] && Complete(table, table.Keys + {"full"}, study.seeds)
  {
    && "raw-blind" in table
    && (CompleteForOne(table, table.Keys + {"full"}, study.seeds, "raw-blind");
        MeanIid(table, "raw-blind", study.seeds) > study.ceiling + study.leakMargin)
  }

  /** A gate handed in failed; G1 is decided here, whatever is handed in for it. */
  predicate AnyFailed(gates: Gates) {
    exists name | name in gates && name != "G1" :: !gates[name]
  }

  function SituationOf(study: Study, table: Scores, contingency: Option<Scores>, gates: Gates): Situation
    requires study.seeds != [] && ScoresComplete(study, table, contingency)
  {
    Situation(table, contingency, AnyFailed(gates) || Leaks(study, table))
  }

  /** The subsets and composites reported after the verdicts all have values. */
  predicate ReportsRead(study: Study, s: Situation) {
    && (HasMaskPair(s.table) ==>
          && Readable(study, s.table, SLOTLESS_MASKED, Subset("test_iid", "validity"))
          && Readable(study, s.table, SLOTLESS, Subset("test_iid", "validity")))
    && (s.contingency.Some? ==>
          forall arm | arm in s.contingency.value && arm in s.table && arm in study.completePath + study.restricted ::
            Readable(study, s.contingency.value, arm, Composite("A")))
    && forall arm | arm in s.table ::
         && Readable(study, s.table, arm, Subset("ood_compose_regime", "transfer"))
         && Readable(study, s.table, arm, Subset("ood_compose_epi", "heldout"))
  }

  /** Why `decide` raises: no seed to average over, the first contrast at fault, or a report. */
  datatype Fault = NoSeeds | AtContrast(n: nat) | InReport

  /** The same silent verdict for every contrast but those that are not tested. */
  function AllSilent(contrasts: seq<Contrast>, silent: Verdict): seq<Verdict> {
    seq(|contrasts|, n requires 0 <= n < |contrasts| => if contrasts[n].kind.NotTestedKind? then NotTested else silent)
  }

  /** `decide`: the verdict on each contrast, early exits included; none where it raises. */
  function Decide(
    study: Study, table: Scores, contingency: Option<Scores>, gates: Gates,
    root: real -> real): (each: Option<seq<Verdict>>)
    requires Rooted(study, root)
    ensures each.Some? ==> |each.value| == |study.contrasts|
  {
    if !ScoresComplete(study, table, contingency) || !G3(gates) then Some(AllSilent(study.contrasts, Inconclusive))
    else if study.seeds == [] then None
    else if !Competent(study, table) then Some(AllSilent(study.contrasts, NotIssued))
    else
      var s := SituationOf(study, table, contingency, gates);
      var p := After(study, s, |study.contrasts|, root);
      if p.Some? && ReportsRead(study, s) then Some(p.value.each) else None
  }

  /** Why `decide` raises, if it does: it got past the early exits, and `fault` is the first thing to go wrong. */
  ghost predicate RaisesOn(study: Study, table: Scores, contingency: Option<Scores>, gates: Gates, fault: Fault) {
    && ScoresComplete(study, table, contingency) && G3(gates)
    && match fault
       case NoSeeds => study.seeds == []
       case AtContrast(n) =>
         && study.seeds != [] && Competent(study, table) && n < |study.contrasts|
         && var s := SituationOf(study, table, contingency, gates);
            && Raises(study, s, study.contrasts[n])
            && forall m | 0 <= m < n :: !Raises(study, s, study.contrasts[m])
       case InReport =>
         && study.seeds != [] && Competent(study, table)
         && var s := SituationOf(study, table, contingency, gates);
            && (forall m | 0 <= m < |study.contrasts| :: !Raises(study, s, study.contrasts[m]))
            && !ReportsRead(study, s)
  }

  /** `decide` raises for at most one reason, and exactly when there is one. */
  lemma DecideRaisesExactly(study: Study, table: Scores, contingency: Option<Scores>, gates: Gates, root: real -> real)
    requires Rooted(study, root)
    ensures Decide(study, table, contingency, gates, root).None? <==>
            exists fault :: RaisesOn(study, table, contingency, gates, fault)
  {
    if ScoresComplete(study, table, contingency) && G3(gates) {
      if study.seeds == [] {
        assert RaisesOn(study, table, contingency, gates, NoSeeds);
      } else if Competent(study, table) {
        var s := SituationOf(study, table, contingency, gates);
        RunsThroughExactly(study, s, |study.contrasts|, root);
        if After(study, s, |study.contrasts|, root).None? {
          var n := FirstToRaise(study, s, |study.contrasts|);
          assert RaisesOn(study, table, contingency, gates, AtContrast(n));
        } else if !ReportsRead(study, s) {
          assert RaisesOn(study, table, contingency, gates, InReport);
        }
      }
    }
  }

  lemma FirstToRaise(study: Study, s: Situation, bound: nat) returns (n: nat)
    requires ValidSituation(study, s) && bound <= |study.contrasts|
    requires exists m | 0 <= m < bound :: Raises(study, s, study.contrasts[m])
    ensures n < bound && Raises(study, s, study.contrasts[n])
    ensures forall m | 0 <= m < n :: !Raises(study, s, study.contrasts[m])
  {
    if exists m | 0 <= m < bound - 1 :: Raises(study, s, study.contrasts[m]) {
      n := FirstToRaise(study, s, bound - 1);
    } else {
      var m :| 0 <= m < bound && Raises(study, s, study.contrasts[m]);
      n := m;
    }
  }

  lemma FaultIsUnique(study: Study, table: Scores, contingency: Option<Scores>, gates: Gates, a: Fault, b: Fault)
    requires RaisesOn(study, table, contingency, gates, a) && RaisesOn(study, table, contingency, gates, b)
    ensures a == b
  {
  }

  // ---------------------------------------------------------------- failing closed

  /** The verdicts that claim nothing. */
  const SILENT := {Inconclusive, NotIssued, NotTested, NotRun}

  lemma BlockedIsSilent(study: Study, s: Situation, c: Contrast, checks: Checks, root: real -> real)
    requires ValidSituation(study, s) && Rooted(study, root) && !Raises(study, s, c)
    requires Present(s, Arms(c)) ==> Blocked(study, s, Arms(c))
    ensures VerdictOn(study, s, c, checks, root).Some? && VerdictOn(study, s, c, checks, root).value in SILENT
  {
    RaisesExactly(study, s, c, checks, root);
  }

  /** Scores are missing, a gate failed, the full arm is not competent or the leak alarm is active. */
  ghost predicate MustNotClaim(study: Study, table: Scores, contingency: Option<Scores>, gates: Gates) {
    || !ScoresComplete(study, table, contingency)
    || !G3(gates)
    || AnyFailed(gates)
    || (study.seeds != [] && (!Competent(study, table) || Leaks(study, table)))
  }

  /** The decider fails closed: it raises, or no contrast gets a verdict that claims anything. */
  lemma FailsClosed(study: Study, table: Scores, contingency: Option<Scores>, gates: Gates, n: nat, root: real -> real)
    requires Rooted(study, root) && n < |study.contrasts| && MustNotClaim(study, table, contingency, gates)
    ensures var each := Decide(study, table, contingency, gates, root); each.Some? ==> each.value[n] in SILENT
  {
    if Decide(study, table, contingency, gates, root).Some? && ScoresComplete(study, table, contingency) && G3(gates)
       && Competent(study, table)
    {
      var s := SituationOf(study, table, contingency, gates);
      EachInTurn(study, s, |study.contrasts|, n, root);
      RaisesExactly(study, s, study.contrasts[n], After(study, s, n, root).value.checks, root);
      BlockedIsSilent(study, s, study.contrasts[n], After(study, s, n, root).value.checks, root);
    }
  }

  // ---------------------------------------------------------------- the loop over the contrasts

  /** A dict filled with `each` in order. */
  function Filled(contrasts: seq<Contrast>, each: seq<Verdict>): map<string, Verdict>
    requires |each| <= |contrasts|
  {
    if each == [] then map[]
    else Filled(contrasts, each[..|each| - 1])[contrasts[|each| - 1].id := each[|each| - 1]]
  }

  /** Of contrasts of one id the last one stands, and nothing but verdicts given is kept. */
  lemma {:induction false} LastStands(contrasts: seq<Contrast>, each: seq<Verdict>, id: string) returns (n: nat)
    requires |each| <= |contrasts| && id in Filled(contrasts, each)
    ensures n < |each| && contrasts[n].id == id && Filled(contrasts, each)[id] == each[n]
    ensures forall m | n < m < |each| :: contrasts[m].id != id
  {
    var last := |each| - 1;
    if contrasts[last].id == id {
      n := last;
    } else {
      n := LastStands(contrasts, each[..last], id);
    }
  }

  /** So under no id does `decide` keep a verdict that claims anything when it fails closed. */
  lemma KeptVerdictsFailClosed(
    study: Study, table: Scores, contingency: Option<Scores>, gates: Gates, root: real -> real, id: string)
    requires Rooted(study, root) && MustNotClaim(study, table, contingency, gates)
    ensures var each := Decide(study, table, contingency, gates, root);
            each.Some? && id in Filled(study.contrasts, each.value) ==>
                Filled(study.contrasts, each.value)[id] in SILENT
  {
    var each := Decide(study, table, contingency, gates, root);
    if each.Some? && id in Filled(study.contrasts, each.value) {
      var n := LastStands(study.contrasts, each.value, id);
      FailsClosed(study, table, contingency, gates, n, root);
    }
  }

  lemma FilledPrefix(contrasts: seq<Contrast>, each: seq<Verdict>, n: nat)
    requires n < |each| <= |contrasts|
    ensures Filled(contrasts, each[..n + 1]) == Filled(contrasts, each[..n])[contrasts[n].id := each[n]]
  {
    assert each[..n + 1][..n] == each[..n];
  }

  /** The early exits: nothing is tested, and every other contrast gets the same silent verdict. */
  method FillSilent(contrasts: seq<Contrast>, silent: Verdict) returns (verdicts: map<string, Verdict>)
    ensures verdicts == Filled(contrasts, AllSilent(contrasts, silent))
  {
    ghost var each := AllSilent(contrasts, silent);
    verdicts := map[];
    for n := 0 to |contrasts|
      invariant verdicts == Filled(contrasts, each[..n])
    {
      FilledPrefix(contrasts, each, n);
      verdicts := verdicts[contrasts[n].id := if contrasts[n].kind.NotTestedKind? then NotTested else silent];
    }
    assert each[..|contrasts|] == each;
  }

  /** The main loop: each contrast with the checks recorded before it, up to the first that raises. */
  method FillInOrder(study: Study, s: Situation, root: real -> real) returns (r: Result<map<string, Verdict>, nat>)
    requires ValidSituation(study, s) && Rooted(study, root)
    ensures r.Ok? <==> After(study, s, |study.contrasts|, root).Some?
    ensures r.Ok? ==> r.value == Filled(study.contrasts, After(study, s, |study.contrasts|, root).value.each)
    ensures r.Err? ==> r.error < |study.contrasts| && Raises(study, s, study.contrasts[r.error])
    ensures r.Err? ==> forall m | 0 <= m < r.error :: !Raises(study, s, study.contrasts[m])
  {
    var verdicts: map<string, Verdict> := map[];
    var checks: Checks := map[];
    for n := 0 to |study.contrasts|
      invariant After(study, s, n, root).Some?
      invariant checks == After(study, s, n, root).value.checks
      invariant verdicts == Filled(study.contrasts, After(study, s, n, root).value.each)
    {
      var c := study.contrasts[n];
      var verdict := VerdictOn(study, s, c, checks, root);
      if verdict.None? {
        RaisesExactly(study, s, c, checks, root);
        RunsThroughExactly(study, s, n, root);
        RunsThroughExactly(study, s, |study.contrasts|, root);
        return Err(n);
      }
      OneMoreFilled(study, s, n, verdict.value, root);
      if Records(s, c) {
        checks := checks[c.id := verdict.value];
      }
      verdicts := verdicts[c.id := verdict.value];
    }
    return Ok(verdicts);
  }

  lemma OneMoreFilled(study: Study, s: Situation, n: nat, verdict: Verdict, root: real -> real)
    requires ValidSituation(study, s) && Rooted(study, root) && n < |study.contrasts| && After(study, s, n, root).Some?
    requires VerdictOn(study, s, study.contrasts[n], After(study, s, n, root).value.checks, root) == Some(verdict)
    ensures After(study, s, n + 1, root).Some?
    ensures Filled(study.contrasts, After(study, s, n + 1, root).value.each)
         == Filled(study.contrasts, After(study, s, n, root).value.each)[study.contrasts[n].id := verdict]
  {
    var before := After(study, s, n, root).value.each;
    assert After(study, s, n + 1, root).value.each == before + [verdict];
    assert (before + [verdict])[..n] == before;
  }

  /**
   `decide`: it raises on the one fault there is, or keeps for each id the verdict on the last contrast of that id.
   */
  method DecideAll(study: Study, table: Scores, contingency: Option<Scores>, gates: Gates, root: real -> real)
    returns (r: Result<map<string, Verdict>, Fault>)
    requires Rooted(study, root)
    ensures r.Err? ==> RaisesOn(study, table, contingency, gates, r.error)
    ensures r.Ok? ==> forall fault :: !RaisesOn(study, table, contingency, gates, fault)
    ensures r.Ok? ==> Decide(study, table, contingency, gates, root).Some?
                      && r.value == Filled(study.contrasts, Decide(study, table, contingency, gates, root).value)
  {
    DecideRaisesExactly(study, table, contingency, gates, root);
    if !ScoresComplete(study, table, contingency) || !G3(gates) {
      var verdicts := FillSilent(study.contrasts, Inconclusive);
      return Ok(verdicts);
    } else if study.seeds == [] {
      return Err(NoSeeds);
    } else if !Competent(study, table) {
      var verdicts := FillSilent(study.contrasts, NotIssued);
      return Ok(verdicts);
    }
    var s := SituationOf(study, table, contingency, gates);
    var filled := FillInOrder(study, s, root);
    if filled.Err? {
      return Err(AtContrast(filled.error));
    }
    RunsThroughExactly(study, s, |study.contrasts|, root);
    if !ReportsRead(study, s) {
      return Err(InReport);
    }
    return Ok(filled.value);
  }
}
