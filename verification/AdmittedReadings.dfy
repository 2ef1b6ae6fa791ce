/** From what `build_table` admits to the numbers the decider reads: every lookup hits. */
module AdmittedReadings {
  import opened Basics
  import opened Evidence
  import Contrasts
  import Statistics

  ghost predicate Decidable(t: Table) {
    Admitted(t) && t.criteria.folds != []
  }

  ghost function Scores(t: Table, arm: string, split: string, metric: Metric): (rows: seq<seq<real>>)
    requires Decidable(t) && arm in t.study.arms && split in {t.criteria.iid, t.criteria.ood}
    ensures |rows| == |SEEDS| && forall i | 0 <= i < |rows| :: |rows[i]| == |t.criteria.folds|
  {
    seq(|SEEDS|, i requires 0 <= i < |SEEDS| =>
      seq(|t.criteria.folds|, j requires 0 <= j < |t.criteria.folds| => Final(t, SEEDS[i], j, arm, split, metric)))
  }

  ghost function Sizes(t: Table, arm: string, size: Size): (rows: seq<seq<real>>)
    requires Decidable(t) && arm in t.study.arms
    ensures |rows| == |SEEDS| && forall i | 0 <= i < |rows| :: |rows[i]| == |t.criteria.folds|
  {
    seq(|SEEDS|, i requires 0 <= i < |SEEDS| =>
      seq(|t.criteria.folds|, j requires 0 <= j < |t.criteria.folds| => Meta(t, SEEDS[i], j, arm, size)))
  }

  function SplitName(t: Table, split: Contrasts.Split): string {
    if split.Iid? then t.criteria.iid else t.criteria.ood
  }

  ghost function ReadingsOf(t: Table): Contrasts.Readings
    requires Decidable(t)
  {
    Contrasts.Readings(
      set arm | arm in t.study.arms,
      |t.criteria.folds|,
      (arm: string, split: Contrasts.Split, metric: Metric) =>
        if arm in t.study.arms then Scores(t, arm, SplitName(t, split), metric) else [],
      (arm: string, size: Size) => if arm in t.study.arms then Sizes(t, arm, size) else [])
  }

  /**
   Admission makes later lookups total: of a table `build_table` returned, read through columns it
   checks, every number a contrast of two arms of the study is decided on is there.
   */
  lemma AdmittedIsDecidable(
    sources: seq<Source>, criteria: Criteria, study: Study, allowRows: bool, bySeed: BySeed, columns: Columns,
    c: Contrasts.Contrast)
    requires ValidStudy(study) && TableAdmits(sources, criteria, study, allowRows, bySeed)
    requires CheckedColumns(columns) && c.treatment in study.arms && c.control in study.arms
    ensures Decidable(Table(bySeed, criteria, study, columns))
    ensures Contrasts.ValidContrast(ReadingsOf(Table(bySeed, criteria, study, columns)), c)
  {
    var t := Table(bySeed, criteria, study, columns);
    var r := ReadingsOf(t);
    forall arm, split, metric | arm in r.arms
      ensures Contrasts.Shaped(r, r.scores(arm, split, metric))
    {
    }
    forall arm, size | arm in r.arms
      ensures Contrasts.Shaped(r, r.sizes(arm, size))
    {
    }
  }
}
