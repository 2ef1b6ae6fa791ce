/**
 What the baseline decider admits as evidence (`aggregate_a0_baseline`): one run for each confirmatory
 seed, each with exactly one checked row for every fold, arm and split. What is admitted makes every
 number the decider later looks up present and finite.
 */
module Evidence {
  import opened Basics

  /** A JSON value; `NonFinite` is NaN or an infinity. */
  datatype Json = Null | Bool(flag: bool) | Int(n: int) | Float(x: real) | NonFinite | Str(text: string) | Other

  type Row = map<string, Json>

  const SEEDS: seq<int> := [17, 29, 43, 71, 101]

  function Members(xs: seq<int>): set<int> {
    set x | x in xs
  }

  const FINAL_NUMBERS: seq<string> := [
    "raw_nll", "raw_ece15", "raw_coverage", "raw_selective_error", "raw_confidence_threshold",
    "fitted_temperature", "fitted_nll", "fitted_ece15", "total_params", "flops_per_example",
    "latency_p95_ms", "ms_per_step", "explicit_token_mean"
  ]

  const META_NUMBERS: seq<string> := ["lr", "final_train_loss", "ms_per_step", "total_params", "flops_per_example"]

  /** The frozen criteria: the folds with their digests, the splits, the run row's fields, the rate grid. */
  datatype Criteria = Criteria(
    folds: seq<(string, string)>, iid: string, ood: string, runFields: seq<(string, Json)>, grid: seq<real>)

  /**
   A study: its arms, in order, for each the fields its meta row must agree with, and whether mask shares are
   required.
   */
  datatype Study = Study(
    id: string, runner: string, arms: seq<string>, expected: map<string, seq<(string, Json)>>, requireMaskShare: bool)

  predicate ValidStudy(study: Study) {
    study.arms != [] && forall i | 0 <= i < |study.arms| :: study.arms[i] in study.expected
  }

  // ---------------------------------------------------------------- single values

  function Get(row: Row, key: string): Json {
    if key in row then row[key] else Null
  }

  /** `finite_number`: an integer or a finite float, no boolean. */
  predicate IsNumber(j: Json) {
    j.Int? || j.Float?
  }

  function Number(j: Json): real
    requires IsNumber(j)
  {
    if j.Int? then j.n as real else j.x
  }

  function Abs(x: real): real {
    if x < 0.0 then -x else x
  }

  predicate Close(a: real, b: real, tolerance: real) {
    Abs(a - b) <= tolerance
  }

  /** `agree`. */
  predicate Agrees(actual: Json, expected: Json) {
    if expected.Bool? then actual == expected
    else if IsNumber(expected) then IsNumber(actual) && Close(Number(actual), Number(expected), 0.000000001)
    else !expected.NonFinite? && actual == expected
  }

  predicate IntegerFrom(j: Json, minimum: int) {
    j.Int? && j.n >= minimum
  }

  predicate UnitInterval(j: Json) {
    IsNumber(j) && 0.0 <= Number(j) <= 1.0
  }

  predicate AllNumbers(row: Row, keys: seq<string>) {
    forall i | 0 <= i < |keys| :: IsNumber(Get(row, keys[i]))
  }

  /** `check_final`. */
  predicate FinalOk(final: Row, meta: Row) {
    && IntegerFrom(Get(final, "n"), 1)
    && IntegerFrom(Get(final, "correct"), 0)
    && Get(final, "correct").n <= Get(final, "n").n
    && UnitInterval(Get(final, "accuracy"))
    && Close(Number(Get(final, "accuracy")), Get(final, "correct").n as real / Get(final, "n").n as real,
        0.000000000001)
    && AllNumbers(final, FINAL_NUMBERS)
    && FinalBounds(final)
    && IntegerFrom(Get(final, "explicit_token_count"), 1)
    && Agrees(Get(final, "total_params"), Get(meta, "total_params"))
    && Agrees(Get(final, "flops_per_example"), Get(meta, "flops_per_example"))
    && Agrees(Get(final, "latent_steps"), Get(meta, "latent_steps"))
  }

  predicate FinalBounds(final: Row) {
    && IsNumber(Get(final, "raw_nll")) && Number(Get(final, "raw_nll")) >= 0.0
    && UnitInterval(Get(final, "raw_ece15"))
    && UnitInterval(Get(final, "raw_coverage"))
    && UnitInterval(Get(final, "raw_selective_error"))
    && IsNumber(Get(final, "fitted_temperature")) && Number(Get(final, "fitted_temperature")) > 0.0
  }

  predicate OnGrid(lr: real, grid: seq<real>) {
    exists i | 0 <= i < |grid| ::
      Close(lr, grid[i], 0.000000000001 * (if Abs(lr) < Abs(grid[i]) then Abs(grid[i]) else Abs(lr)))
  }

  predicate MetaOk(meta: Row, criteria: Criteria, expected: seq<(string, Json)>) {
    && IsNumber(Get(meta, "nan")) && Number(Get(meta, "nan")) == 0.0
    && AllNumbers(meta, META_NUMBERS)
    && (forall i | 0 <= i < |expected| :: Agrees(Get(meta, expected[i].0), expected[i].1))
    && IsNumber(Get(meta, "lr")) && OnGrid(Number(Get(meta, "lr")), criteria.grid)
  }

  // ---------------------------------------------------------------- the rows of one run

  const MASKED := "no-semantic-slots-masked"
  const UNMASKED := "no-semantic-slots"

  /** The key of an evidence row: its kind with the fold, arm and split that kind names. */
  datatype Cell = DataCell(fold: string) | MetaCell(fold: string, arm: string)
                | FinalCell(fold: string, arm: string, split: string)
                | ShareCell(fold: string, split: string)

  datatype Refusal = NotOneRunRow | BadRunRow | BadRow | DuplicateRow(cell: Cell) | Incomplete
                   | WrongCount | NotAdmissible | MixedKinds | DuplicateSeed(seed: int) | MissingSeeds | Disagreement
                   | Inconsistent

  predicate IsRunRow(row: Row) {
    Get(row, "row") == Str("run-baseline-v1")
  }

  predicate IsEvidence(row: Row) {
    Get(row, "row") in {Str("data-v2"), Str("meta-baseline-v1"), Str("final-baseline-v1"),
        Str("mask-share-baseline-v1")}
  }

  function RunRows(rows: seq<Row>): seq<Row> {
    if rows == [] then [] else (if IsRunRow(rows[0]) then [rows[0]] else []) + RunRows(rows[1..])
  }

  /** The run row names a confirmatory seed, the one recorded if any, and this study and protocol. */
  predicate RunRowOk(run: Row, seed: Option<int>, criteria: Criteria, study: Study) {
    && Get(run, "seed").Int? && Get(run, "seed").n in SEEDS
    && (seed.Some? ==> seed.value == Get(run, "seed").n)
    && Get(run, "study") == Str(study.runner)
    && (forall i | 0 <= i < |criteria.runFields| :: Agrees(Get(run, criteria.runFields[i].0), criteria.runFields[i].1))
    && Get(run, "arms").Str? && multiset(SplitText(Get(run, "arms").text, ',')) == multiset(study.arms)
  }

  predicate HasFold(criteria: Criteria, fold: string) {
    exists i | 0 <= i < |criteria.folds| :: criteria.folds[i].0 == fold
  }

  /** The checks on one evidence row by itself. */
  predicate RowOk(row: Row, runSeed: int, criteria: Criteria, study: Study) {
    var kind := Get(row, "row");
    && Get(row, "fold").Str? && HasFold(criteria, Get(row, "fold").text)
    && (kind != Str("data-v2") ==> Get(row, "study") == Str(study.runner))
    && (kind in {Str("meta-baseline-v1"), Str("final-baseline-v1")} ==>
          && Get(row, "arm").Str? && Get(row, "arm").text in study.arms
          && Agrees(Get(row, "seed"), Int(runSeed)))
    && (kind in {Str("final-baseline-v1"), Str("mask-share-baseline-v1")} ==>
          Get(row, "split").Str? && Get(row, "split").text in {criteria.iid, criteria.ood})
  }

  function CellOf(row: Row, runSeed: int, criteria: Criteria, study: Study): Cell
    requires IsEvidence(row) && RowOk(row, runSeed, criteria, study)
  {
    if Get(row, "row") == Str("data-v2") then DataCell(Get(row, "fold").text)
    else if Get(row, "row") == Str("meta-baseline-v1") then MetaCell(Get(row, "fold").text, Get(row, "arm").text)
    else if Get(row, "row") == Str("final-baseline-v1")
    then FinalCell(Get(row, "fold").text, Get(row, "arm").text, Get(row, "split").text)
    else ShareCell(Get(row, "fold").text, Get(row, "split").text)
  }

  type Cells = map<Cell, Row>

  predicate ArmComplete(cells: Cells, criteria: Criteria, study: Study, fold: string, arm: string)
    requires arm in study.expected
  {
    && MetaCell(fold, arm) in cells && MetaOk(cells[MetaCell(fold, arm)], criteria, study.expected[arm])
    && FinalCell(fold, arm, criteria.iid) in cells
        && FinalOk(cells[FinalCell(fold, arm, criteria.iid)], cells[MetaCell(fold, arm)])
    && FinalCell(fold, arm, criteria.ood) in cells
        && FinalOk(cells[FinalCell(fold, arm, criteria.ood)], cells[MetaCell(fold, arm)])
  }

  /** `check_mask_share` on one row: it repeats the accuracies of the two arms, and its share is their difference. */
  predicate ShareOk(row: Row, masked: Row, unmasked: Row) {
    && IsNumber(Get(row, "masked_accuracy")) && Agrees(Get(row, "masked_accuracy"), Get(masked, "accuracy"))
    && IsNumber(Get(row, "unmasked_accuracy")) && Agrees(Get(row, "unmasked_accuracy"), Get(unmasked, "accuracy"))
    && IsNumber(Get(row, "mask_share"))
    && Close(Number(Get(row, "mask_share")),
        Number(Get(row, "masked_accuracy")) - Number(Get(row, "unmasked_accuracy")), 0.000000000001)
    && (Get(row, "mask_share_of_full_gap") == Null || IsNumber(Get(row, "mask_share_of_full_gap")))
    && UnitInterval(Get(row, "nonlive_slot_share"))
  }

  predicate ShareComplete(cells: Cells, fold: string, split: string) {
    && ShareCell(fold, split) in cells && FinalCell(fold, MASKED, split) in cells
        && FinalCell(fold, UNMASKED, split) in cells
    && ShareOk(cells[ShareCell(fold, split)], cells[FinalCell(fold, MASKED, split)],
        cells[FinalCell(fold, UNMASKED, split)])
  }

  predicate SharesComplete(cells: Cells, criteria: Criteria) {
    forall i | 0 <= i < |criteria.folds| ::
      ShareComplete(cells, criteria.folds[i].0, criteria.iid) && ShareComplete(cells, criteria.folds[i].0, criteria.ood)
  }

  /**
   Every fold has its dataset, for every arm its meta row and both final rows, and the mask shares if required, all
   checked.
   */
  predicate Complete(cells: Cells, criteria: Criteria, study: Study)
    requires ValidStudy(study)
  {
    && (study.requireMaskShare ==> SharesComplete(cells, criteria))
    && forall i | 0 <= i < |criteria.folds| ::
         && DataCell(criteria.folds[i].0) in cells
         && Get(cells[DataCell(criteria.folds[i].0)], "data_fnv64") == Str(criteria.folds[i].1)
         && forall j | 0 <= j < |study.arms| :: ArmComplete(cells, criteria, study, criteria.folds[i].0, study.arms[j])
  }

  /** `cells` holds every evidence row of `rows` under its key, and no key has two rows. */
  ghost predicate Indexes(rows: seq<Row>, runSeed: int, criteria: Criteria, study: Study, cells: Cells) {
    && (forall i | 0 <= i < |rows| && IsEvidence(rows[i]) :: HeldUnderItsKey(rows[i], runSeed, criteria, study, cells))
    && (forall i, j | 0 <= i < j < |rows| && IsEvidence(rows[i]) && IsEvidence(rows[j]) ::
          CellOf(rows[i], runSeed, criteria, study) != CellOf(rows[j], runSeed, criteria, study))
    && (forall cell | cell in cells :: HasRow(rows, runSeed, criteria, study, cell))
  }

  ghost predicate HeldUnderItsKey(row: Row, runSeed: int, criteria: Criteria, study: Study, cells: Cells)
    requires IsEvidence(row)
  {
    RowOk(row, runSeed, criteria, study)
    && CellOf(row, runSeed, criteria, study) in cells
    && cells[CellOf(row, runSeed, criteria, study)] == row
  }

  ghost predicate HasRow(rows: seq<Row>, runSeed: int, criteria: Criteria, study: Study, cell: Cell) {
    exists i | 0 <= i < |rows| && IsEvidence(rows[i]) && RowOk(rows[i], runSeed, criteria, study) ::
      CellOf(rows[i], runSeed, criteria, study) == cell
  }

  /** The loop that fills the cells: it succeeds exactly when every row is in order and none is a second. */
  method FillCells(rows: seq<Row>, runSeed: int, criteria: Criteria, study: Study) returns (r: Result<Cells, Refusal>)
    ensures r.Ok? ==> Indexes(rows, runSeed, criteria, study, r.value)
    ensures r.Err? ==> forall cells :: !Indexes(rows, runSeed, criteria, study, cells)
  {
    var cells: Cells := map[];
    for n := 0 to |rows|
      invariant Indexes(rows[..n], runSeed, criteria, study, cells)
    {
      var row := rows[n];
      ghost var before := cells;
      assert rows[..n + 1] == rows[..n] + [row];
      if IsEvidence(row) {
        if !RowOk(row, runSeed, criteria, study) {
          return Err(BadRow);
        }
        var cell := CellOf(row, runSeed, criteria, study);
        if cell in cells {
          SecondRowRefuses(rows, n, runSeed, criteria, study, cells);
          return Err(DuplicateRow(cell));
        }
        cells := cells[cell := row];
        IndexOneMore(rows[..n], row, runSeed, criteria, study, before);
      } else {
        SkipOneMore(rows[..n], row, runSeed, criteria, study, cells);
      }
    }
    assert rows[..|rows|] == rows;
    return Ok(cells);
  }

  lemma SecondRowRefuses(rows: seq<Row>, n: nat, runSeed: int, criteria: Criteria, study: Study, cells: Cells)
    requires n < |rows| && Indexes(rows[..n], runSeed, criteria, study, cells)
    requires IsEvidence(rows[n]) && RowOk(rows[n], runSeed, criteria, study)
    requires CellOf(rows[n], runSeed, criteria, study) in cells
    ensures forall other :: !Indexes(rows, runSeed, criteria, study, other)
  {
    var cell := CellOf(rows[n], runSeed, criteria, study);
    var i :| 0 <= i < n && IsEvidence(rows[..n][i]) && CellOf(rows[..n][i], runSeed, criteria, study) == cell;
    assert rows[i] == rows[..n][i];
  }

  lemma IndexOneMore(rows: seq<Row>, row: Row, runSeed: int, criteria: Criteria, study: Study, cells: Cells)
    requires Indexes(rows, runSeed, criteria, study, cells) && IsEvidence(row) && RowOk(row, runSeed, criteria, study)
    requires CellOf(row, runSeed, criteria, study) !in cells
    ensures Indexes(rows + [row], runSeed, criteria, study, cells[CellOf(row, runSeed, criteria, study) := row])
  {
    var longer, after := rows + [row], cells[CellOf(row, runSeed, criteria, study) := row];
    forall cell | cell in after
      ensures HasRow(longer, runSeed, criteria, study, cell)
    {
      if cell in cells {
        var i :| 0 <= i < |rows| && IsEvidence(rows[i]) && CellOf(rows[i], runSeed, criteria, study) == cell;
        assert longer[i] == rows[i];
      } else {
        assert longer[|rows|] == row;
      }
    }
  }

  lemma SkipOneMore(rows: seq<Row>, row: Row, runSeed: int, criteria: Criteria, study: Study, cells: Cells)
    requires Indexes(rows, runSeed, criteria, study, cells) && !IsEvidence(row)
    ensures Indexes(rows + [row], runSeed, criteria, study, cells)
  {
    var longer := rows + [row];
    assert forall i | 0 <= i < |longer| && IsEvidence(longer[i]) :: i < |rows| && longer[i] == rows[i];
    forall cell | cell in cells
      ensures HasRow(longer, runSeed, criteria, study, cell)
    {
      assert HasRow(rows, runSeed, criteria, study, cell);
      var i :| 0 <= i < |rows| && IsEvidence(rows[i]) && CellOf(rows[i], runSeed, criteria, study) == cell;
      assert longer[i] == rows[i];
    }
  }

  /** What a run's rows must be: one run row in order, its evidence rows indexed, and complete. */
  ghost predicate RunAdmits(
    rows: seq<Row>, seed: Option<int>, criteria: Criteria, study: Study, runSeed: int, cells: Cells)
    requires ValidStudy(study)
  {
    && |RunRows(rows)| == 1
    && RunRowOk(RunRows(rows)[0], seed, criteria, study)
    && runSeed == Get(RunRows(rows)[0], "seed").n
    && Indexes(rows, runSeed, criteria, study, cells)
    && Complete(cells, criteria, study)
  }

  /** `index_rows`: it returns the one index there is, and refuses when there is none. */
  method IndexRows(rows: seq<Row>, seed: Option<int>, criteria: Criteria, study: Study)
    returns (r: Result<(int, Cells), Refusal>)
    requires ValidStudy(study)
    ensures r.Ok? ==> RunAdmits(rows, seed, criteria, study, r.value.0, r.value.1)
    ensures r.Err? ==> forall runSeed, cells :: !RunAdmits(rows, seed, criteria, study, runSeed, cells)
  {
    var runs := RunRows(rows);
    if |runs| != 1 {
      return Err(NotOneRunRow);
    }
    if !RunRowOk(runs[0], seed, criteria, study) {
      return Err(BadRunRow);
    }
    var runSeed := Get(runs[0], "seed").n;
    var filled := FillCells(rows, runSeed, criteria, study);
    if filled.Err? {
      return Err(filled.error);
    }
    if !Complete(filled.value, criteria, study) {
      forall cells | Indexes(rows, runSeed, criteria, study, cells)
        ensures !Complete(cells, criteria, study)
      {
        IndexIsUnique(rows, runSeed, criteria, study, filled.value, cells);
      }
      return Err(Incomplete);
    }
    return Ok((runSeed, filled.value));
  }

  lemma IndexIsUnique(rows: seq<Row>, runSeed: int, criteria: Criteria, study: Study, a: Cells, b: Cells)
    requires Indexes(rows, runSeed, criteria, study, a) && Indexes(rows, runSeed, criteria, study, b)
    ensures a == b
  {
    forall cell | cell in a
      ensures cell in b && b[cell] == a[cell]
    {
      var i :| 0 <= i < |rows| && IsEvidence(rows[i]) && CellOf(rows[i], runSeed, criteria, study) == cell;
    }
    forall cell | cell in b
      ensures cell in a
    {
      var i :| 0 <= i < |rows| && IsEvidence(rows[i]) && CellOf(rows[i], runSeed, criteria, study) == cell;
    }
  }

  // ---------------------------------------------------------------- the table of all runs

  /** A source: a run record, admitted or not by its own fields, or a bare file of rows. */
  datatype Source = RunRecord(sound: bool, seed: int, rows: seq<Row>, identity: seq<string>) | RowFile(rows: seq<Row>)

  /** `admit_record`: a bare row file only where it is allowed. */
  predicate Admissible(source: Source, allowRows: bool) {
    match source
    case RunRecord(sound, seed, _, _) => sound && seed in SEEDS
    case RowFile(_) => allowRows
  }

  function RecordedSeed(source: Source): Option<int> {
    if source.RunRecord? then Some(source.seed) else None
  }

  type BySeed = map<int, Cells>

  /** One arm, one rate; each fold and arm, one size; each fold and split, one test set. */
  predicate Consistent(table: BySeed, criteria: Criteria, study: Study)
    requires ValidStudy(study) && Full(table, criteria, study)
  {
    && criteria.folds != []
    && (forall arm, s, t, i, j |
          arm in study.arms && s in table && t in table && 0 <= i < |criteria.folds| && 0 <= j < |criteria.folds| ::
          Number(Get(MetaRow(table, criteria, study, s, i, arm), "lr"))
              == Number(Get(MetaRow(table, criteria, study, t, j, arm), "lr")))
    && (forall s, i, arm | s in table && 0 <= i < |criteria.folds| && arm in study.arms ::
          && Number(Get(MetaRow(table, criteria, study, s, i, arm), "total_params"))
             == Number(Get(MetaRow(table, criteria, study, SEEDS[0], i, arm), "total_params"))
          && Number(Get(MetaRow(table, criteria, study, s, i, arm), "flops_per_example"))
             == Number(Get(MetaRow(table, criteria, study, SEEDS[0], i, arm), "flops_per_example")))
    && (forall s, i, arm, split | s in table && 0 <= i < |criteria.folds| && arm in study.arms
        && split in {criteria.iid, criteria.ood} ::
          && Get(FinalRow(table, criteria, study, s, i, arm, split), "n")
             == Get(FinalRow(table, criteria, study, SEEDS[0], i, study.arms[0], split), "n")
          && Get(FinalRow(table, criteria, study, s, i, arm, split), "explicit_token_count")
             == Get(FinalRow(table, criteria, study, SEEDS[0], i, study.arms[0], split), "explicit_token_count"))
  }

  /** The seeds are exactly the confirmatory ones, and each run is complete. */
  predicate Full(table: BySeed, criteria: Criteria, study: Study)
    requires ValidStudy(study)
  {
    && table.Keys == Members(SEEDS)
    && forall s | s in table :: Complete(table[s], criteria, study)
  }

  function MetaRow(table: BySeed, criteria: Criteria, study: Study, seed: int, i: int, arm: string): (row: Row)
    requires ValidStudy(study) && Full(table, criteria, study)
    requires seed in table && 0 <= i < |criteria.folds| && arm in study.arms
    ensures AllNumbers(row, META_NUMBERS)
    ensures IsNumber(Get(row, "lr")) && IsNumber(Get(row, "total_params")) && IsNumber(Get(row, "flops_per_example"))
  {
    var j :| 0 <= j < |study.arms| && study.arms[j] == arm;
    assert ArmComplete(table[seed], criteria, study, criteria.folds[i].0, study.arms[j]);
    var row := table[seed][MetaCell(criteria.folds[i].0, arm)];
    assert IsNumber(Get(row, META_NUMBERS[0])) && IsNumber(Get(row, META_NUMBERS[3]))
        && IsNumber(Get(row, META_NUMBERS[4]));
    row
  }

  function FinalRow(
    table: BySeed, criteria: Criteria, study: Study, seed: int, i: int, arm: string, split: string): (row: Row)
    requires ValidStudy(study) && Full(table, criteria, study)
    requires seed in table && 0 <= i < |criteria.folds| && arm in study.arms && split in {criteria.iid, criteria.ood}
    ensures AllNumbers(row, FINAL_NUMBERS) && UnitInterval(Get(row, "accuracy"))
  {
    var j :| 0 <= j < |study.arms| && study.arms[j] == arm;
    assert ArmComplete(table[seed], criteria, study, criteria.folds[i].0, study.arms[j]);
    table[seed][FinalCell(criteria.folds[i].0, arm, split)]
  }

  /** Some run of `table` is the one `source` holds. */
  ghost predicate HeldIn(source: Source, criteria: Criteria, study: Study, table: BySeed)
    requires ValidStudy(study)
  {
    exists s | s in table :: IsRunOf(source, criteria, study, s, table[s])
  }

  ghost predicate IsRunOf(source: Source, criteria: Criteria, study: Study, runSeed: int, cells: Cells)
    requires ValidStudy(study)
  {
    RunAdmits(source.rows, RecordedSeed(source), criteria, study, runSeed, cells)
  }

  /** A source holds one run only. */
  lemma RunIsUnique(source: Source, criteria: Criteria, study: Study, s: int, a: Cells, t: int, b: Cells)
    requires ValidStudy(study) && IsRunOf(source, criteria, study, s, a) && IsRunOf(source, criteria, study, t, b)
    ensures s == t && a == b
  {
    IndexIsUnique(source.rows, s, criteria, study, a, b);
  }

  /** The table of the first `n` sources: each holds one of its runs, no two the same one, and there is no other run. */
  ghost predicate Gathered(sources: seq<Source>, n: nat, criteria: Criteria, study: Study, table: BySeed)
    requires ValidStudy(study) && n <= |sources|
  {
    && (forall i | 0 <= i < n :: HeldIn(sources[i], criteria, study, table))
    && (forall i, j, s | 0 <= i < j < n && s in table ::
          !(IsRunOf(sources[i], criteria, study, s, table[s]) && IsRunOf(sources[j], criteria, study, s, table[s])))
    && (forall s | s in table :: FromOneOf(sources, n, criteria, study, s, table[s]))
  }

  ghost predicate FromOneOf(sources: seq<Source>, n: nat, criteria: Criteria, study: Study, s: int, cells: Cells)
    requires ValidStudy(study) && n <= |sources|
  {
    exists i | 0 <= i < n :: IsRunOf(sources[i], criteria, study, s, cells)
  }

  ghost predicate AllAdmissible(sources: seq<Source>, allowRows: bool) {
    forall i | 0 <= i < |sources| :: Admissible(sources[i], allowRows)
  }

  ghost predicate OneKindOnly(sources: seq<Source>) {
    forall i, j | 0 <= i < |sources| && 0 <= j < |sources| :: sources[i].RunRecord? == sources[j].RunRecord?
  }

  ghost predicate OneIdentity(sources: seq<Source>) {
    forall i, j | 0 <= i < |sources| && 0 <= j < |sources| && sources[i].RunRecord? && sources[j].RunRecord? ::
      sources[i].identity == sources[j].identity
  }

  /** What an admitted table is made of. */
  ghost predicate TableAdmits(sources: seq<Source>, criteria: Criteria, study: Study, allowRows: bool, table: BySeed)
    requires ValidStudy(study)
  {
    && |sources| == |SEEDS| && AllAdmissible(sources, allowRows) && OneKindOnly(sources) && OneIdentity(sources)
    && Gathered(sources, |sources|, criteria, study, table)
    && Full(table, criteria, study)
    && Consistent(table, criteria, study)
  }

  lemma HeldInMore(source: Source, criteria: Criteria, study: Study, table: BySeed, seed: int, cells: Cells)
    requires ValidStudy(study) && HeldIn(source, criteria, study, table) && seed !in table
    ensures HeldIn(source, criteria, study, table[seed := cells])
  {
    var after := table[seed := cells];
    var s :| s in table && IsRunOf(source, criteria, study, s, table[s]);
    assert s in after && after[s] == table[s];
  }

  /** The runs of one source are apart from the runs of sources before it whose seeds are others. */
  lemma StillApart(
    sources: seq<Source>, n: nat, criteria: Criteria, study: Study, table: BySeed, seed: int, cells: Cells, i: nat,
    s: int)
    requires ValidStudy(study) && i < n < |sources| && HeldIn(sources[i], criteria, study, table) && seed !in table
    requires IsRunOf(sources[n], criteria, study, seed, cells) && s in table[seed := cells]
    ensures !(IsRunOf(sources[i], criteria, study, s, table[seed := cells][s])
              && IsRunOf(sources[n], criteria, study, s, table[seed := cells][s]))
  {
    var after := table[seed := cells];
    var t :| t in table && IsRunOf(sources[i], criteria, study, t, table[t]);
    if IsRunOf(sources[i], criteria, study, s, after[s]) {
      RunIsUnique(sources[i], criteria, study, s, after[s], t, table[t]);
      if IsRunOf(sources[n], criteria, study, s, after[s]) {
        RunIsUnique(sources[n], criteria, study, s, after[s], seed, cells);
      }
    }
  }

  lemma GatherOneMore(
    sources: seq<Source>, n: nat, criteria: Criteria, study: Study, table: BySeed, seed: int, cells: Cells)
    requires ValidStudy(study) && n < |sources| && Gathered(sources, n, criteria, study, table) && seed !in table
    requires IsRunOf(sources[n], criteria, study, seed, cells)
    ensures Gathered(sources, n + 1, criteria, study, table[seed := cells])
  {
    HeldInAll(sources, n, criteria, study, table, seed, cells);
    ApartAll(sources, n, criteria, study, table, seed, cells);
    FromOneOfMore(sources, n, criteria, study, table, seed, cells);
  }

  lemma HeldInAll(
    sources: seq<Source>, n: nat, criteria: Criteria, study: Study, table: BySeed, seed: int, cells: Cells)
    requires ValidStudy(study) && n < |sources| && seed !in table && IsRunOf(sources[n], criteria, study, seed, cells)
    requires forall i | 0 <= i < n :: HeldIn(sources[i], criteria, study, table)
    ensures forall i | 0 <= i < n + 1 :: HeldIn(sources[i], criteria, study, table[seed := cells])
  {
    var after := table[seed := cells];
    forall i | 0 <= i < n + 1
      ensures HeldIn(sources[i], criteria, study, after)
    {
      if i < n {
        HeldInMore(sources[i], criteria, study, table, seed, cells);
      } else {
        HeldNow(sources[n], criteria, study, table, seed, cells);
      }
    }
  }

  lemma HeldNow(source: Source, criteria: Criteria, study: Study, table: BySeed, seed: int, cells: Cells)
    requires ValidStudy(study) && IsRunOf(source, criteria, study, seed, cells)
    ensures HeldIn(source, criteria, study, table[seed := cells])
  {
    var after := table[seed := cells];
    assert seed in after && after[seed] == cells;
  }

  lemma ApartAll(sources: seq<Source>, n: nat, criteria: Criteria, study: Study, table: BySeed, seed: int, cells: Cells)
    requires ValidStudy(study) && n < |sources| && Gathered(sources, n, criteria, study, table) && seed !in table
    requires IsRunOf(sources[n], criteria, study, seed, cells)
    ensures var after := table[seed := cells];
            forall i, j, s | 0 <= i < j < n + 1 && s in after ::
              !(IsRunOf(sources[i], criteria, study, s, after[s]) && IsRunOf(sources[j], criteria, study, s, after[s]))
  {
    var after := table[seed := cells];
    forall i, j, s | 0 <= i < j < n + 1 && s in after
      ensures !(IsRunOf(sources[i], criteria, study, s, after[s]) && IsRunOf(sources[j], criteria, study, s, after[s]))
    {
      if j == n {
        StillApart(sources, n, criteria, study, table, seed, cells, i, s);
      } else {
        ApartBefore(sources, n, criteria, study, table, seed, cells, i, j, s);
      }
    }
  }

  lemma FromOneOfMore(
    sources: seq<Source>, n: nat, criteria: Criteria, study: Study, table: BySeed, seed: int, cells: Cells)
    requires ValidStudy(study) && n < |sources| && IsRunOf(sources[n], criteria, study, seed, cells)
    requires forall s | s in table :: FromOneOf(sources, n, criteria, study, s, table[s])
    ensures var after := table[seed := cells];
            forall s | s in after :: FromOneOf(sources, n + 1, criteria, study, s, after[s])
  {
    var after := table[seed := cells];
    forall s | s in after
      ensures FromOneOf(sources, n + 1, criteria, study, s, after[s])
    {
      if s != seed {
        assert FromOneOf(sources, n, criteria, study, s, table[s]);
      }
    }
  }

  lemma ApartBefore(
    sources: seq<Source>, n: nat, criteria: Criteria, study: Study, table: BySeed, seed: int, cells: Cells, i: nat,
    j: nat, s: int)
    requires ValidStudy(study) && i < j < n <= |sources| && Gathered(sources, n, criteria, study, table)
    requires seed !in table
    requires s in table[seed := cells]
    ensures !(IsRunOf(sources[i], criteria, study, s, table[seed := cells][s])
              && IsRunOf(sources[j], criteria, study, s, table[seed := cells][s]))
  {
    assert HeldIn(sources[i], criteria, study, table);
    if s == seed {
      var t :| t in table && IsRunOf(sources[i], criteria, study, t, table[t]);
    }
  }

  /** One table at most is made of the sources. */
  lemma GatheredIsUnique(sources: seq<Source>, criteria: Criteria, study: Study, a: BySeed, b: BySeed)
    requires ValidStudy(study)
    requires Gathered(sources, |sources|, criteria, study, a) && Gathered(sources, |sources|, criteria, study, b)
    ensures a == b
  {
    GatheredAgree(sources, criteria, study, a, b);
    GatheredAgree(sources, criteria, study, b, a);
    BothWays(a, b);
  }

  ghost predicate Extends<K, V>(a: map<K, V>, b: map<K, V>) {
    forall k | k in a :: k in b && b[k] == a[k]
  }

  lemma BothWays<K, V>(a: map<K, V>, b: map<K, V>)
    requires Extends(a, b) && Extends(b, a)
    ensures a == b
  {
    assert a.Keys == b.Keys;
  }

  lemma GatheredAgree(sources: seq<Source>, criteria: Criteria, study: Study, a: BySeed, b: BySeed)
    requires ValidStudy(study)
    requires Gathered(sources, |sources|, criteria, study, a) && Gathered(sources, |sources|, criteria, study, b)
    ensures Extends(a, b)
  {
    forall s | s in a
      ensures s in b && b[s] == a[s]
    {
      assert FromOneOf(sources, |sources|, criteria, study, s, a[s]);
      var i :| 0 <= i < |sources| && IsRunOf(sources[i], criteria, study, s, a[s]);
      assert HeldIn(sources[i], criteria, study, b);
      var t :| t in b && IsRunOf(sources[i], criteria, study, t, b[t]);
      RunIsUnique(sources[i], criteria, study, s, a[s], t, b[t]);
    }
  }

  /** Two sources that run one seed make no table. */
  lemma SecondSourceRefuses(
    sources: seq<Source>, n: nat, criteria: Criteria, study: Study, table: BySeed, seed: int, cells: Cells,
    all: BySeed)
    requires ValidStudy(study) && n < |sources| && Gathered(sources, n, criteria, study, table)
    requires IsRunOf(sources[n], criteria, study, seed, cells) && seed in table
    ensures !Gathered(sources, |sources|, criteria, study, all)
  {
    assert FromOneOf(sources, n, criteria, study, seed, table[seed]);
    var i :| 0 <= i < n && IsRunOf(sources[i], criteria, study, seed, table[seed]);
    if HeldIn(sources[i], criteria, study, all) && HeldIn(sources[n], criteria, study, all) {
      var s :| s in all && IsRunOf(sources[i], criteria, study, s, all[s]);
      var t :| t in all && IsRunOf(sources[n], criteria, study, t, all[t]);
      RunIsUnique(sources[i], criteria, study, s, all[s], seed, table[seed]);
      RunIsUnique(sources[n], criteria, study, t, all[t], seed, cells);
    }
  }

  /** Every source so far is admissible, of the one kind in `kinds`, and `identities` are those of the records. */
  ghost predicate Noted(sources: seq<Source>, n: nat, allowRows: bool, kinds: set<bool>, identities: set<seq<string>>)
    requires n <= |sources|
  {
    && (forall i | 0 <= i < n :: Admissible(sources[i], allowRows) && kinds == {sources[i].RunRecord?})
    && (forall i | 0 <= i < n && sources[i].RunRecord? :: sources[i].identity in identities)
    && (forall identity | identity in identities ::
        exists i | 0 <= i < n && sources[i].RunRecord? :: sources[i].identity == identity)
    && (n == 0 ==> kinds == {})
  }

  /** The loop over the sources. */
  method Gather(sources: seq<Source>, criteria: Criteria, study: Study, allowRows: bool)
    returns (r: Result<(BySeed, set<bool>, set<seq<string>>), Refusal>)
    requires ValidStudy(study)
    ensures r.Ok? ==> Gathered(sources, |sources|, criteria, study, r.value.0)
    ensures r.Ok? ==> Noted(sources, |sources|, allowRows, r.value.1, r.value.2)
    ensures r.Err? && AllAdmissible(sources, allowRows) && OneKindOnly(sources) ==>
              forall all :: !Gathered(sources, |sources|, criteria, study, all)
  {
    var kinds: set<bool> := {};
    var bySeed: BySeed := map[];
    var identities: set<seq<string>> := {};
    for n := 0 to |sources|
      invariant Gathered(sources, n, criteria, study, bySeed)
      invariant Noted(sources, n, allowRows, kinds, identities)
    {
      var source := sources[n];
      if !Admissible(source, allowRows) {
        return Err(NotAdmissible);
      }
      NoteOneMore(sources, n, allowRows, kinds, identities);
      kinds := kinds + {source.RunRecord?};
      if |kinds| != 1 {
        return Err(MixedKinds);
      }
      var indexed := IndexRows(source.rows, RecordedSeed(source), criteria, study);
      if indexed.Err? {
        NoRunRefuses(sources, n, criteria, study);
        return Err(indexed.error);
      }
      var (seed, cells) := indexed.value;
      assert IsRunOf(sources[n], criteria, study, seed, cells);
      if seed in bySeed {
        forall all
          ensures !Gathered(sources, |sources|, criteria, study, all)
        {
          SecondSourceRefuses(sources, n, criteria, study, bySeed, seed, cells, all);
        }
        return Err(DuplicateSeed(seed));
      }
      GatherOneMore(sources, n, criteria, study, bySeed, seed, cells);
      bySeed := bySeed[seed := cells];
      if source.RunRecord? {
        identities := identities + {source.identity};
      }
    }
    return Ok((bySeed, kinds, identities));
  }

  lemma NoRunRefuses(sources: seq<Source>, n: nat, criteria: Criteria, study: Study)
    requires ValidStudy(study) && n < |sources| && forall s, cells :: !IsRunOf(sources[n], criteria, study, s, cells)
    ensures forall all :: !Gathered(sources, |sources|, criteria, study, all)
  {
    forall all
      ensures !Gathered(sources, |sources|, criteria, study, all)
    {
      assert !HeldIn(sources[n], criteria, study, all);
    }
  }

  lemma NoteOneMore(sources: seq<Source>, n: nat, allowRows: bool, kinds: set<bool>, identities: set<seq<string>>)
    requires n < |sources| && Noted(sources, n, allowRows, kinds, identities) && Admissible(sources[n], allowRows)
    ensures var source := sources[n];
            if |kinds + {source.RunRecord?}| == 1 then
              Noted(sources, n + 1, allowRows, kinds + {source.RunRecord?},
                    if source.RunRecord? then identities + {source.identity} else identities)
            else !OneKindOnly(sources)
  {
    var kind := sources[n].RunRecord?;
    assert n == 0 || sources[0].RunRecord? == kind ==> kinds + {kind} == {kind};
    if |kinds + {kind}| == 1 {
      OneKind(kinds + {kind}, kind);
      forall i | 0 <= i < n
        ensures sources[i].RunRecord? == kind
      {
        assert sources[i].RunRecord? in kinds;
        assert sources[i].RunRecord? in kinds + {kind};
      }
      NoteIdentity(sources, n, identities);
    }
  }

  lemma NoteIdentity(sources: seq<Source>, n: nat, identities: set<seq<string>>)
    requires n < |sources|
    requires forall identity | identity in identities ::
            exists i | 0 <= i < n && sources[i].RunRecord? :: sources[i].identity == identity
    ensures var more := if sources[n].RunRecord? then identities + {sources[n].identity} else identities;
            forall identity | identity in more ::
                exists i | 0 <= i < n + 1 && sources[i].RunRecord? :: sources[i].identity == identity
  {
    var more := if sources[n].RunRecord? then identities + {sources[n].identity} else identities;
    forall identity | identity in more
      ensures exists i | 0 <= i < n + 1 && sources[i].RunRecord? :: sources[i].identity == identity
    {
      if identity in identities {
        var i :| 0 <= i < n && sources[i].RunRecord? && sources[i].identity == identity;
      }
    }
  }

  /** `build_table`: it returns the one table the sources make, and refuses when they make none. */
  method BuildTable(sources: seq<Source>, criteria: Criteria, study: Study, allowRows: bool)
    returns (r: Result<BySeed, Refusal>)
    requires ValidStudy(study)
    ensures r.Ok? ==> TableAdmits(sources, criteria, study, allowRows, r.value)
    ensures r.Err? ==> forall table :: !TableAdmits(sources, criteria, study, allowRows, table)
  {
    if |sources| != |SEEDS| {
      return Err(WrongCount);
    }
    var gathered := Gather(sources, criteria, study, allowRows);
    if gathered.Err? {
      return Err(gathered.error);
    }
    r := CheckTable(sources, criteria, study, allowRows, gathered.value.0, gathered.value.1, gathered.value.2);
  }

  /** The checks on the runs gathered: every seed is there, the records agree, and so do the rows of all runs. */
  method CheckTable(
    sources: seq<Source>, criteria: Criteria, study: Study, allowRows: bool, bySeed: BySeed, kinds: set<bool>,
    identities: set<seq<string>>)
    returns (r: Result<BySeed, Refusal>)
    requires ValidStudy(study) && |sources| == |SEEDS| && Gathered(sources, |sources|, criteria, study, bySeed)
    requires Noted(sources, |sources|, allowRows, kinds, identities)
    ensures r.Ok? ==> TableAdmits(sources, criteria, study, allowRows, r.value)
    ensures r.Err? ==> forall table :: !TableAdmits(sources, criteria, study, allowRows, table)
  {
    if !(forall i | 0 <= i < |SEEDS| :: SEEDS[i] in bySeed) {
      MissingSeedRefuses(bySeed, criteria, study);
      NoTableAtAll(sources, criteria, study, allowRows, bySeed);
      return Err(MissingSeeds);
    }
    if kinds == {true} && |identities| != 1 {
      TwoIdentities(sources, identities);
      NoTableAtAll(sources, criteria, study, allowRows, bySeed);
      return Err(Disagreement);
    }
    SameKinds(sources, kinds);
    SameIdentities(sources, kinds, identities);
    GatheredIsFull(sources, criteria, study, allowRows, bySeed);
    if !Consistent(bySeed, criteria, study) {
      NoTableAtAll(sources, criteria, study, allowRows, bySeed);
      return Err(Inconsistent);
    }
    return Ok(bySeed);
  }

  lemma GatheredIsFull(sources: seq<Source>, criteria: Criteria, study: Study, allowRows: bool, table: BySeed)
    requires ValidStudy(study) && Gathered(sources, |sources|, criteria, study, table)
    requires AllAdmissible(sources, allowRows)
    requires forall i | 0 <= i < |SEEDS| :: SEEDS[i] in table
    ensures Full(table, criteria, study)
  {
    GatheredIsComplete(sources, criteria, study, allowRows, table);
    ExactlyTheSeeds(table);
  }

  /** The table gathered is the only one the sources could make. */
  lemma NoTableAtAll(sources: seq<Source>, criteria: Criteria, study: Study, allowRows: bool, bySeed: BySeed)
    requires ValidStudy(study) && Gathered(sources, |sources|, criteria, study, bySeed)
    requires !TableAdmits(sources, criteria, study, allowRows, bySeed)
    ensures forall table :: !TableAdmits(sources, criteria, study, allowRows, table)
  {
    forall table
      ensures !TableAdmits(sources, criteria, study, allowRows, table)
    {
      if Gathered(sources, |sources|, criteria, study, table) {
        GatheredIsUnique(sources, criteria, study, table, bySeed);
      }
    }
  }

  lemma MissingSeedRefuses(table: BySeed, criteria: Criteria, study: Study)
    requires ValidStudy(study) && exists i | 0 <= i < |SEEDS| :: SEEDS[i] !in table
    ensures !Full(table, criteria, study)
  {
    var seeds := SEEDS;
    var i :| 0 <= i < |seeds| && seeds[i] !in table;
    assert seeds[i] in Members(seeds);
  }

  lemma TwoIdentities(sources: seq<Source>, identities: set<seq<string>>)
    requires sources != [] && |identities| != 1
    requires forall i | 0 <= i < |sources| :: sources[i].RunRecord? && sources[i].identity in identities
    requires forall identity | identity in identities ::
            exists i | 0 <= i < |sources| && sources[i].RunRecord? :: sources[i].identity == identity
    ensures !OneIdentity(sources)
  {
    var first := sources[0].identity;
    var others := identities - {first};
    assert others == {} ==> identities == {first};
    var other :| other in others;
    var i :| 0 <= i < |sources| && sources[i].RunRecord? && sources[i].identity == other;
  }

  lemma GatheredIsComplete(sources: seq<Source>, criteria: Criteria, study: Study, allowRows: bool, table: BySeed)
    requires ValidStudy(study) && Gathered(sources, |sources|, criteria, study, table)
    requires AllAdmissible(sources, allowRows)
    ensures forall s | s in table :: s in SEEDS && Complete(table[s], criteria, study)
  {
    forall s | s in table
      ensures s in SEEDS && Complete(table[s], criteria, study)
    {
      assert FromOneOf(sources, |sources|, criteria, study, s, table[s]);
      var i :| 0 <= i < |sources| && IsRunOf(sources[i], criteria, study, s, table[s]);
    }
  }

  lemma ExactlyTheSeeds(table: BySeed)
    requires forall i | 0 <= i < |SEEDS| :: SEEDS[i] in table
    requires forall s | s in table :: s in SEEDS
    ensures table.Keys == Members(SEEDS)
  {
    var seeds := SEEDS;
    forall s
      ensures s in table.Keys <==> s in Members(seeds)
    {
      if s in Members(seeds) {
        var i :| 0 <= i < |seeds| && seeds[i] == s;
      }
      if s in table {
        assert s in seeds;
      }
    }
    assert table.Keys == Members(seeds);
  }

  lemma OneKind(kinds: set<bool>, kind: bool)
    requires kind in kinds && |kinds| == 1
    ensures kinds == {kind}
  {
    var others := kinds - {kind};
    assert |others| == 0;
    assert kinds == others + {kind};
  }

  lemma SameKinds(sources: seq<Source>, kinds: set<bool>)
    requires forall i | 0 <= i < |sources| :: kinds == {sources[i].RunRecord?}
    ensures OneKindOnly(sources)
  {
    forall i, j | 0 <= i < |sources| && 0 <= j < |sources|
      ensures sources[i].RunRecord? == sources[j].RunRecord?
    {
      assert sources[i].RunRecord? in kinds && sources[j].RunRecord? in kinds;
    }
  }

  lemma SameIdentities(sources: seq<Source>, kinds: set<bool>, identities: set<seq<string>>)
    requires forall i | 0 <= i < |sources| :: kinds == {sources[i].RunRecord?}
    requires forall i | 0 <= i < |sources| && sources[i].RunRecord? :: sources[i].identity in identities
    requires kinds == {true} ==> |identities| == 1
    ensures OneIdentity(sources)
  {
    forall i, j | 0 <= i < |sources| && 0 <= j < |sources| && sources[i].RunRecord? && sources[j].RunRecord?
      ensures sources[i].identity == sources[j].identity
    {
      assert kinds == {true};
      var others := identities - {sources[i].identity};
      assert |others| == 0;
      assert sources[j].identity !in others;
    }
  }

  // ---------------------------------------------------------------- looking up what was admitted

  datatype Metric = Accuracy | Coverage | Nll | Ece | SelectiveError | DiagnosticNll | DiagnosticEce

  /** The column of a final row each metric is read from. */
  type Columns = map<Metric, string>

  /** Every metric has a column, and each is one `check_final` checks. */
  predicate CheckedColumns(columns: Columns) {
    forall m: Metric :: m in columns && (columns[m] == "accuracy" || columns[m] in FINAL_NUMBERS)
  }

  /** The decider's view of an admitted table (`Table`). */
  datatype Table = Table(bySeed: BySeed, criteria: Criteria, study: Study, columns: Columns)

  predicate Admitted(t: Table) {
    ValidStudy(t.study) && Full(t.bySeed, t.criteria, t.study) && CheckedColumns(t.columns)
  }

  /** The cells the decider reads: a confirmatory seed, a fold by its place, and an arm of the study. */
  predicate Within(t: Table, seed: int, fold: int, arm: string) {
    seed in SEEDS && 0 <= fold < |t.criteria.folds| && arm in t.study.arms
  }

  /** `Table.final`: on an admitted table the row, the column and the number are always there. */
  function Final(t: Table, seed: int, fold: int, arm: string, split: string, metric: Metric): (x: real)
    requires Admitted(t) && Within(t, seed, fold, arm) && split in {t.criteria.iid, t.criteria.ood}
    ensures FinalCell(t.criteria.folds[fold].0, arm, split) in t.bySeed[seed]
    ensures t.columns[metric] in t.bySeed[seed][FinalCell(t.criteria.folds[fold].0, arm, split)]
    ensures var j := t.bySeed[seed][FinalCell(t.criteria.folds[fold].0, arm, split)][t.columns[metric]];
            IsNumber(j) && x == Number(j)
  {
    var row := FinalRow(t.bySeed, t.criteria, t.study, seed, fold, arm, split);
    var column := t.columns[metric];
    assert IsNumber(Get(row, column)) by {
      if column in FINAL_NUMBERS {
        var k :| 0 <= k < |FINAL_NUMBERS| && FINAL_NUMBERS[k] == column;
        assert IsNumber(Get(row, FINAL_NUMBERS[k]));
      }
    }
    assert FinalCell(t.criteria.folds[fold].0, arm, split) in t.bySeed[seed] by {
      var j :| 0 <= j < |t.study.arms| && t.study.arms[j] == arm;
      assert ArmComplete(t.bySeed[seed], t.criteria, t.study, t.criteria.folds[fold].0, t.study.arms[j]);
    }
    Number(Get(row, column))
  }

  datatype Size = TotalParams | FlopsPerExample

  /** `Table.meta` for the two fields the compute check reads. */
  function Meta(t: Table, seed: int, fold: int, arm: string, field: Size): real
    requires Admitted(t) && Within(t, seed, fold, arm)
  {
    var row := MetaRow(t.bySeed, t.criteria, t.study, seed, fold, arm);
    Number(Get(row, if field.TotalParams? then "total_params" else "flops_per_example"))
  }
}
