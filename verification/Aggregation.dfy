/**
 The exploratory aggregator (`aggregate_experiment.aggregate`): the metric rows of every completed run,
 grouped by their labels and summarized across seeds. Proved: nothing a run printed is dropped, every
 completed seed is accounted for once per group and metric, and the aggregate is called complete
 exactly when nothing is missing.
 */
module Aggregation {
  import opened Basics

  /** A field of a printed row: a label, a number, one too large for a float, or no metric at all. */
  datatype Field = Text(text: string) | Finite(x: real) | NonFinite(spelling: string) | TooLarge | NotAMetric

  type Row = map<string, Field>

  /** The string fields name the row. */
  type Name = map<string, string>

  function NameOf(row: Row): Name {
    map k | k in row && row[k].Text? :: row[k].text
  }

  datatype Run = Run(seed: int, completed: bool, rows: seq<Row>)

  /** One number: the row it is in, the metric and the seed. */
  datatype Cell = Cell(group: Name, metric: string, seed: int)

  datatype Refusal = UndeclaredSeed(seed: int) | NoRecords | TwoCompleted(seed: int)
                   | PrintedTwice(group: Name, seed: int)
                   | DoesNotFit(metric: string) | NoRows

  // ---------------------------------------------------------------- what the completed runs printed

  datatype Print = Print(seed: int, row: Row)

  predicate IsMetric(row: Row, m: string) {
    m in row && m != "seed" && (row[m].Finite? || row[m].NonFinite?)
  }

  ghost predicate Prints(ps: seq<Print>, i: int, group: Name, seed: int) {
    0 <= i < |ps| && NameOf(ps[i].row) == group && ps[i].seed == seed
  }

  /** No run printed a row of one name twice. */
  ghost predicate OncePerRun(ps: seq<Print>) {
    forall i, j | 0 <= i < j < |ps| :: !(NameOf(ps[i].row) == NameOf(ps[j].row) && ps[i].seed == ps[j].seed)
  }

  datatype Tables = Tables(finite: map<Cell, real>, nonFinite: map<Cell, string>, printedBy: map<Name, set<int>>)

  /** The three dicts hold exactly what was printed. */
  ghost predicate Holds(t: Tables, ps: seq<Print>) {
    && (forall group :: group in t.printedBy <==> exists i | 0 <= i < |ps| :: NameOf(ps[i].row) == group)
    && (forall group, seed | group in t.printedBy :: seed in t.printedBy[group] <==>
        exists i :: Prints(ps, i, group, seed))
    && (forall cell :: cell in t.finite <==> exists i :: HasFinite(ps, i, cell))
    && (forall cell :: cell in t.nonFinite <==> exists i :: HasNonFinite(ps, i, cell))
    && (forall i, cell | HasFinite(ps, i, cell) :: t.finite[cell] == ps[i].row[cell.metric].x)
    && (forall i, cell | HasNonFinite(ps, i, cell) :: t.nonFinite[cell] == ps[i].row[cell.metric].spelling)
  }

  ghost predicate HasFinite(ps: seq<Print>, i: int, cell: Cell) {
    Prints(ps, i, cell.group, cell.seed) && IsMetric(ps[i].row, cell.metric) && ps[i].row[cell.metric].Finite?
  }

  ghost predicate HasNonFinite(ps: seq<Print>, i: int, cell: Cell) {
    Prints(ps, i, cell.group, cell.seed) && IsMetric(ps[i].row, cell.metric) && ps[i].row[cell.metric].NonFinite?
  }

  // ---------------------------------------------------------------- reading one row

  /** `cell` is the place of one of the row's metrics among `names`. */
  predicate OfRow(cell: Cell, group: Name, seed: int, row: Row, names: set<string>) {
    cell.group == group && cell.seed == seed && cell.metric in names && IsMetric(row, cell.metric)
  }

  /** The finite metrics of the row among `names` were added under its group and seed, and nothing else changed. */
  ghost predicate AddedFinite(
    before: map<Cell, real>, after: map<Cell, real>, group: Name, seed: int, row: Row, names: set<string>)
  {
    forall cell ::
      if OfRow(cell, group, seed, row, names) && row[cell.metric].Finite? then
        cell in after && after[cell] == row[cell.metric].x
      else (cell in after <==> cell in before) && (cell in before ==> after[cell] == before[cell])
  }

  ghost predicate AddedNonFinite(
    before: map<Cell, string>, after: map<Cell, string>, group: Name, seed: int, row: Row, names: set<string>)
  {
    forall cell ::
      if OfRow(cell, group, seed, row, names) && row[cell.metric].NonFinite? then
        cell in after && after[cell] == row[cell.metric].spelling
      else (cell in after <==> cell in before) && (cell in before ==> after[cell] == before[cell])
  }

  predicate Fits(row: Row) {
    forall m | m in row && m != "seed" :: !row[m].TooLarge?
  }

  /** The loop over the fields of a row. */
  method ReadFields(t: Tables, seed: int, row: Row) returns (r: Result<Tables, Refusal>)
    ensures r.Ok? <==> Fits(row)
    ensures r.Ok? ==>
      && AddedFinite(t.finite, r.value.finite, NameOf(row), seed, row, row.Keys)
      && AddedNonFinite(t.nonFinite, r.value.nonFinite, NameOf(row), seed, row, row.Keys)
      && r.value.printedBy == t.printedBy
  {
    var group := NameOf(row);
    var finite, nonFinite := t.finite, t.nonFinite;
    var left := row.Keys;
    ghost var done: set<string> := {};
    while left != {}
      invariant done + left == row.Keys
      invariant AddedFinite(t.finite, finite, group, seed, row, done)
      invariant AddedNonFinite(t.nonFinite, nonFinite, group, seed, row, done)
      invariant forall m | m in done && m != "seed" :: !row[m].TooLarge?
      decreases left
    {
      var m :| m in left;
      left, done := left - {m}, done + {m};
      if m == "seed" {
      } else if row[m].TooLarge? {
        return Err(DoesNotFit(m));
      } else if row[m].Finite? {
        finite := finite[Cell(group, m, seed) := row[m].x];
      } else if row[m].NonFinite? {
        nonFinite := nonFinite[Cell(group, m, seed) := row[m].spelling];
      }
    }
    assert done == row.Keys;
    return Ok(Tables(finite, nonFinite, t.printedBy));
  }

  function PrintedBy(t: Tables, group: Name): set<int> {
    if group in t.printedBy then t.printedBy[group] else {}
  }

  /** One row of one run: refused when the run printed its name before. */
  method ReadRow(t: Tables, seed: int, row: Row, ghost ps: seq<Print>) returns (r: Result<Tables, Refusal>)
    requires Holds(t, ps) && OncePerRun(ps)
    ensures r.Ok? <==> Fits(row) && OncePerRun(ps + [Print(seed, row)])
    ensures r.Ok? ==> Holds(r.value, ps + [Print(seed, row)])
  {
    var group := NameOf(row);
    if seed in PrintedBy(t, group) {
      ghost var i :| Prints(ps, i, group, seed);
      ghost var longer := ps + [Print(seed, row)];
      assert longer[i] == ps[i] && longer[|ps|] == Print(seed, row);
      return Err(PrintedTwice(group, seed));
    }
    NewRowIsFirst(t, ps, seed, row);
    var listed := t.(printedBy := t.printedBy[group := PrintedBy(t, group) + {seed}]);
    r := ReadFields(listed, seed, row);
    if r.Ok? {
      HoldsOneMore(t, r.value, ps, seed, row);
    }
  }

  lemma NewRowIsFirst(t: Tables, ps: seq<Print>, seed: int, row: Row)
    requires Holds(t, ps) && OncePerRun(ps) && seed !in PrintedBy(t, NameOf(row))
    ensures OncePerRun(ps + [Print(seed, row)])
  {
    forall i | 0 <= i < |ps|
      ensures !(NameOf(ps[i].row) == NameOf(row) && ps[i].seed == seed)
    {
      assert Prints(ps, i, NameOf(ps[i].row), ps[i].seed);
    }
  }

  lemma HoldsOneMore(t: Tables, after: Tables, ps: seq<Print>, seed: int, row: Row)
    requires Holds(t, ps) && seed !in PrintedBy(t, NameOf(row))
    requires AddedFinite(t.finite, after.finite, NameOf(row), seed, row, row.Keys)
    requires AddedNonFinite(t.nonFinite, after.nonFinite, NameOf(row), seed, row, row.Keys)
    requires after.printedBy == t.printedBy[NameOf(row) := PrintedBy(t, NameOf(row)) + {seed}]
    ensures Holds(after, ps + [Print(seed, row)])
  {
    var longer := ps + [Print(seed, row)];
    forall i, group, s
      ensures Prints(longer, i, group, s) <==>
              Prints(ps, i, group, s) || (i == |ps| && group == NameOf(row) && s == seed)
    {
    }
    PrintedOneMore(t, after, ps, seed, row);
    FiniteOneMore(t, after, ps, seed, row);
    NonFiniteOneMore(t, after, ps, seed, row);
  }

  lemma PrintedOneMore(t: Tables, after: Tables, ps: seq<Print>, seed: int, row: Row)
    requires Holds(t, ps)
    requires after.printedBy == t.printedBy[NameOf(row) := PrintedBy(t, NameOf(row)) + {seed}]
    ensures var longer := ps + [Print(seed, row)];
            && (forall group :: group in after.printedBy <==>
                exists i | 0 <= i < |longer| :: NameOf(longer[i].row) == group)
            && (forall group, s | group in after.printedBy :: s in after.printedBy[group] <==>
                exists i :: Prints(longer, i, group, s))
  {
    var longer := ps + [Print(seed, row)];
    assert Prints(longer, |ps|, NameOf(row), seed);
    forall group
      ensures group in after.printedBy <==> exists i | 0 <= i < |longer| :: NameOf(longer[i].row) == group
    {
      if group in t.printedBy {
        var i :| 0 <= i < |ps| && NameOf(ps[i].row) == group;
        assert longer[i] == ps[i];
      }
    }
    forall group, s | group in after.printedBy
      ensures s in after.printedBy[group] <==> exists i :: Prints(longer, i, group, s)
    {
      if group in t.printedBy && s in t.printedBy[group] {
        var i :| Prints(ps, i, group, s);
        assert Prints(longer, i, group, s);
      }
      if i :| Prints(longer, i, group, s) {
        if i < |ps| {
          assert Prints(ps, i, group, s);
        }
      }
    }
  }

  lemma FiniteOneMore(t: Tables, after: Tables, ps: seq<Print>, seed: int, row: Row)
    requires Holds(t, ps) && seed !in PrintedBy(t, NameOf(row))
    requires AddedFinite(t.finite, after.finite, NameOf(row), seed, row, row.Keys)
    ensures var longer := ps + [Print(seed, row)];
            && (forall cell :: cell in after.finite <==> exists i :: HasFinite(longer, i, cell))
            && (forall i, cell | HasFinite(longer, i, cell) :: after.finite[cell] == longer[i].row[cell.metric].x)
  {
    var longer := ps + [Print(seed, row)];
    forall i, cell
      ensures HasFinite(longer, i, cell) <==>
        HasFinite(ps, i, cell)
            || (i == |ps| && OfRow(cell, NameOf(row), seed, row, row.Keys) && row[cell.metric].Finite?)
    {
    }
    forall cell
      ensures cell in after.finite <==> exists i :: HasFinite(longer, i, cell)
    {
      if OfRow(cell, NameOf(row), seed, row, row.Keys) && row[cell.metric].Finite? {
        assert HasFinite(longer, |ps|, cell);
      } else if cell in t.finite {
        var i :| HasFinite(ps, i, cell);
        assert HasFinite(longer, i, cell);
      }
    }
    forall i, cell | HasFinite(longer, i, cell)
      ensures after.finite[cell] == longer[i].row[cell.metric].x
    {
      if i < |ps| {
        assert HasFinite(ps, i, cell) && Prints(ps, i, cell.group, cell.seed);
        assert !(cell.group == NameOf(row) && cell.seed == seed);
      }
    }
  }

  lemma NonFiniteOneMore(t: Tables, after: Tables, ps: seq<Print>, seed: int, row: Row)
    requires Holds(t, ps) && seed !in PrintedBy(t, NameOf(row))
    requires AddedNonFinite(t.nonFinite, after.nonFinite, NameOf(row), seed, row, row.Keys)
    ensures var longer := ps + [Print(seed, row)];
            && (forall cell :: cell in after.nonFinite <==> exists i :: HasNonFinite(longer, i, cell))
            && (forall i, cell | HasNonFinite(longer, i, cell) ::
                after.nonFinite[cell] == longer[i].row[cell.metric].spelling)
  {
    var longer := ps + [Print(seed, row)];
    forall i, cell
      ensures HasNonFinite(longer, i, cell) <==>
        HasNonFinite(ps, i, cell)
            || (i == |ps| && OfRow(cell, NameOf(row), seed, row, row.Keys) && row[cell.metric].NonFinite?)
    {
    }
    forall cell
      ensures cell in after.nonFinite <==> exists i :: HasNonFinite(longer, i, cell)
    {
      if OfRow(cell, NameOf(row), seed, row, row.Keys) && row[cell.metric].NonFinite? {
        assert HasNonFinite(longer, |ps|, cell);
      } else if cell in t.nonFinite {
        var i :| HasNonFinite(ps, i, cell);
        assert HasNonFinite(longer, i, cell);
      }
    }
    forall i, cell | HasNonFinite(longer, i, cell)
      ensures after.nonFinite[cell] == longer[i].row[cell.metric].spelling
    {
      if i < |ps| {
        assert HasNonFinite(ps, i, cell) && Prints(ps, i, cell.group, cell.seed);
        assert !(cell.group == NameOf(row) && cell.seed == seed);
      }
    }
  }

  // ---------------------------------------------------------------- reading all runs

  function RowPrints(seed: int, rows: seq<Row>): seq<Print> {
    seq(|rows|, i requires 0 <= i < |rows| => Print(seed, rows[i]))
  }

  /** Everything the completed runs printed. */
  function AllPrints(runs: seq<Run>): seq<Print> {
    if runs == [] then []
    else
      var last := runs[|runs| - 1];
      AllPrints(runs[..|runs| - 1]) + if last.completed then RowPrints(last.seed, last.rows) else []
  }

  ghost predicate AllFit(ps: seq<Print>) {
    forall i | 0 <= i < |ps| :: Fits(ps[i].row)
  }

  ghost predicate Acceptable(ps: seq<Print>) {
    OncePerRun(ps) && AllFit(ps)
  }

  lemma AcceptablePrefix(ps: seq<Print>, more: seq<Print>)
    requires Acceptable(ps + more)
    ensures Acceptable(ps)
  {
    var all := ps + more;
    forall i | 0 <= i < |ps|
      ensures all[i] == ps[i]
    {
    }
  }

  /** The rows of one run. */
  method ReadRun(t: Tables, seed: int, rows: seq<Row>, ghost ps: seq<Print>) returns (r: Result<Tables, Refusal>)
    requires Holds(t, ps) && Acceptable(ps)
    ensures r.Ok? <==> Acceptable(ps + RowPrints(seed, rows))
    ensures r.Ok? ==> Holds(r.value, ps + RowPrints(seed, rows))
  {
    var tables := t;
    assert ps + RowPrints(seed, rows[..0]) == ps;
    for n := 0 to |rows|
      invariant Holds(tables, ps + RowPrints(seed, rows[..n])) && Acceptable(ps + RowPrints(seed, rows[..n]))
    {
      ghost var before := ps + RowPrints(seed, rows[..n]);
      assert ps + RowPrints(seed, rows[..n + 1]) == before + [Print(seed, rows[n])];
      var read := ReadRow(tables, seed, rows[n], before);
      FitsOneMore(before, Print(seed, rows[n]));
      if read.Err? {
        assert ps + RowPrints(seed, rows) == (ps + RowPrints(seed, rows[..n + 1])) + RowPrints(seed, rows[n + 1..]);
        if Acceptable(ps + RowPrints(seed, rows)) {
          AcceptablePrefix(ps + RowPrints(seed, rows[..n + 1]), RowPrints(seed, rows[n + 1..]));
        }
        return read;
      }
      tables := read.value;
    }
    assert rows[..|rows|] == rows;
    return Ok(tables);
  }

  lemma FitsOneMore(ps: seq<Print>, p: Print)
    ensures AllFit(ps + [p]) <==> AllFit(ps) && Fits(p.row)
  {
    var longer := ps + [p];
    assert longer[|ps|] == p;
    if AllFit(longer) {
      forall i | 0 <= i < |ps|
        ensures Fits(ps[i].row)
      {
        assert longer[i] == ps[i];
      }
    }
  }

  /** Every completed run, in order. */
  method ReadRuns(runs: seq<Run>) returns (r: Result<Tables, Refusal>)
    ensures r.Ok? <==> Acceptable(AllPrints(runs))
    ensures r.Ok? ==> Holds(r.value, AllPrints(runs))
  {
    var tables := Tables(map[], map[], map[]);
    for n := 0 to |runs|
      invariant Holds(tables, AllPrints(runs[..n])) && Acceptable(AllPrints(runs[..n]))
    {
      AllPrintsOneMore(runs, n);
      if runs[n].completed {
        var read := ReadRun(tables, runs[n].seed, runs[n].rows, AllPrints(runs[..n]));
        if read.Err? {
          if Acceptable(AllPrints(runs)) {
            AcceptableSoFar(runs, n + 1);
          }
          return read;
        }
        tables := read.value;
      }
    }
    assert runs[..|runs|] == runs;
    return Ok(tables);
  }

  lemma AllPrintsOneMore(runs: seq<Run>, n: nat)
    requires n < |runs|
    ensures AllPrints(runs[..n + 1]) ==
            if runs[n].completed then AllPrints(runs[..n]) + RowPrints(runs[n].seed, runs[n].rows)
            else AllPrints(runs[..n])
  {
    assert runs[..n + 1][..n] == runs[..n];
  }

  lemma {:induction false} AcceptableSoFar(runs: seq<Run>, n: nat)
    requires n <= |runs| && Acceptable(AllPrints(runs))
    ensures Acceptable(AllPrints(runs[..n]))
  {
    if n == |runs| {
      assert runs[..n] == runs;
    } else {
      var before, last := runs[..|runs| - 1], runs[|runs| - 1];
      var more := if last.completed then RowPrints(last.seed, last.rows) else [];
      AcceptablePrefix(AllPrints(before), more);
      AcceptableSoFar(before, n);
      assert before[..n] == runs[..n];
    }
  }

  // ---------------------------------------------------------------- the aggregate

  datatype Summary = Summary(bySeed: map<int, real>, nonFinite: map<int, string>, missing: set<int>)

  datatype Group = Group(missingRow: set<int>, metrics: map<string, Summary>)

  datatype Aggregate = Aggregate(
    complete: bool, completed: set<int>, missing: set<int>, failed: seq<Run>, groups: map<Name, Group>)

  function MetricNames(t: Tables, group: Name): set<string> {
    set cell | cell in t.finite.Keys + t.nonFinite.Keys && cell.group == group :: cell.metric
  }

  function Summarize(t: Tables, group: Name, metric: string, completed: set<int>): Summary {
    var bySeed := map seed | seed in completed && Cell(group, metric, seed) in t.finite ::
        t.finite[Cell(group, metric, seed)];
    var bad := map seed | seed in completed && Cell(group, metric, seed) in t.nonFinite ::
        t.nonFinite[Cell(group, metric, seed)];
    Summary(bySeed, bad, completed - bySeed.Keys - bad.Keys)
  }

  function GroupOf(t: Tables, group: Name, completed: set<int>): Group {
    Group(completed - PrintedBy(t, group), map m | m in MetricNames(t, group) :: Summarize(t, group, m, completed))
  }

  /** The `gaps` flag for one group. */
  predicate Gaps(g: Group) {
    g.missingRow != {} || exists m | m in g.metrics :: g.metrics[m].missing != {} || g.metrics[m].nonFinite != map[]
  }

  function CompletedSeeds(runs: seq<Run>): set<int> {
    set run | run in runs && run.completed :: run.seed
  }

  function FailedRuns(runs: seq<Run>): seq<Run> {
    if runs == [] then []
    else
      var last := runs[|runs| - 1];
      FailedRuns(runs[..|runs| - 1]) + if last.completed then [] else [last]
  }

  ghost predicate OneCompletedPerSeed(runs: seq<Run>) {
    forall i, j | 0 <= i < j < |runs| && runs[i].completed && runs[j].completed :: runs[i].seed != runs[j].seed
  }

  /** The loop over the groups. */
  method Groups(t: Tables, completed: set<int>) returns (groups: map<Name, Group>, gaps: bool)
    ensures groups.Keys == t.printedBy.Keys
    ensures forall group | group in groups :: groups[group] == GroupOf(t, group, completed)
    ensures gaps <==> AnyFlagged(groups, Gaps)
  {
    groups, gaps := map[], false;
    var left := t.printedBy.Keys;
    while left != {}
      invariant groups.Keys + left == t.printedBy.Keys && groups.Keys !! left
      invariant forall group | group in groups :: groups[group] == GroupOf(t, group, completed)
      invariant gaps <==> AnyFlagged(groups, Gaps)
      decreases left
    {
      var group :| group in left;
      var g := GroupOf(t, group, completed);
      OneMoreFlagged(groups, group, g, Gaps);
      left := left - {group};
      groups := groups[group := g];
      gaps := gaps || Gaps(g);
    }
  }

  ghost predicate AnyFlagged<K, V>(m: map<K, V>, flag: V -> bool) {
    exists k | k in m :: flag(m[k])
  }

  lemma OneMoreFlagged<K, V>(before: map<K, V>, k: K, v: V, flag: V -> bool)
    requires k !in before
    ensures AnyFlagged(before[k := v], flag) <==> AnyFlagged(before, flag) || flag(v)
  {
    var after := before[k := v];
    if AnyFlagged(before, flag) {
      var x :| x in before && flag(before[x]);
      assert x in after && after[x] == before[x];
    }
    if flag(v) {
      assert k in after && after[k] == v;
    }
    if AnyFlagged(after, flag) {
      var x :| x in after && flag(after[x]);
      assert x != k ==> x in before && after[x] == before[x];
    }
  }

  /** The declared seeds and the completed ones, each once. */
  ghost predicate Admissible(declared: seq<int>, runs: seq<Run>) {
    && runs != []
    && (forall i | 0 <= i < |runs| :: runs[i].seed in declared)
    && OneCompletedPerSeed(runs)
    && Acceptable(AllPrints(runs))
    && (CompletedSeeds(runs) != {} ==> AllPrints(runs) != [])
  }

  /** The loop that sorts the records into completed and failed. */
  method SortRuns(runs: seq<Run>) returns (r: Result<(set<int>, seq<Run>), Refusal>)
    ensures r.Ok? <==> OneCompletedPerSeed(runs)
    ensures r.Ok? ==> r.value == (CompletedSeeds(runs), FailedRuns(runs))
  {
    var completed: set<int> := {};
    var failed: seq<Run> := [];
    for n := 0 to |runs|
      invariant completed == CompletedSeeds(runs[..n]) && OneCompletedPerSeed(runs[..n])
      invariant failed == FailedRuns(runs[..n])
    {
      if runs[n].completed && runs[n].seed in completed {
        TwoOfOneSeed(runs, n);
        return Err(TwoCompleted(runs[n].seed));
      }
      SortedOneMore(runs, n);
      if runs[n].completed {
        completed := completed + {runs[n].seed};
      } else {
        failed := failed + [runs[n]];
      }
    }
    assert runs[..|runs|] == runs;
    return Ok((completed, failed));
  }

  lemma TwoOfOneSeed(runs: seq<Run>, n: nat)
    requires n < |runs| && runs[n].completed && runs[n].seed in CompletedSeeds(runs[..n])
    ensures !OneCompletedPerSeed(runs)
  {
    var other :| other in runs[..n] && other.completed && other.seed == runs[n].seed;
    var i :| 0 <= i < n && runs[i] == other;
  }

  lemma SortedOneMore(runs: seq<Run>, n: nat)
    requires n < |runs| && OneCompletedPerSeed(runs[..n])
    requires runs[n].completed ==> runs[n].seed !in CompletedSeeds(runs[..n])
    ensures OneCompletedPerSeed(runs[..n + 1])
    ensures CompletedSeeds(runs[..n + 1]) ==
            CompletedSeeds(runs[..n]) + if runs[n].completed then {runs[n].seed} else {}
    ensures FailedRuns(runs[..n + 1]) == FailedRuns(runs[..n]) + if runs[n].completed then [] else [runs[n]]
  {
    assert runs[..n + 1][..n] == runs[..n];
    CompletedOneMore(runs[..n], runs[n]);
    assert runs[..n + 1] == runs[..n] + [runs[n]];
    if runs[n].completed {
      NotYetCompleted(runs, n);
    }
  }

  lemma CompletedOneMore(runs: seq<Run>, run: Run)
    ensures CompletedSeeds(runs + [run]) == CompletedSeeds(runs) + if run.completed then {run.seed} else {}
  {
    var longer := runs + [run];
    assert longer[|runs|] == run;
    assert forall r :: r in longer <==> r in runs || r == run;
  }

  lemma NotYetCompleted(runs: seq<Run>, n: nat)
    requires n < |runs| && runs[n].completed && runs[n].seed !in CompletedSeeds(runs[..n])
    requires OneCompletedPerSeed(runs[..n])
    ensures OneCompletedPerSeed(runs[..n + 1])
  {
    forall i | 0 <= i < n && runs[i].completed
      ensures runs[i].seed != runs[n].seed
    {
      assert runs[i] in runs[..n];
      assert runs[i].seed in CompletedSeeds(runs[..n]);
    }
    assert forall i | 0 <= i < n :: runs[..n][i] == runs[i];
  }

  /** What an aggregate says of the runs: read off the tables that hold all they printed. */
  ghost predicate Reports(a: Aggregate, declared: seq<int>, runs: seq<Run>, t: Tables) {
    && Holds(t, AllPrints(runs))
    && a.completed == CompletedSeeds(runs)
    && a.missing == (set seed | seed in declared) - a.completed
    && a.failed == FailedRuns(runs)
    && a.groups.Keys == t.printedBy.Keys
    && (forall group | group in a.groups :: a.groups[group] == GroupOf(t, group, a.completed))
    && (a.complete <==> a.missing == {} && a.failed == [] && !AnyFlagged(a.groups, Gaps))
  }

  /** `aggregate`, from the selected records on. */
  method AggregateRuns(declared: seq<int>, runs: seq<Run>) returns (r: Result<Aggregate, Refusal>, ghost t: Tables)
    ensures r.Ok? <==> Admissible(declared, runs)
    ensures r.Ok? ==> Reports(r.value, declared, runs, t)
  {
    t := Tables(map[], map[], map[]);
    for n := 0 to |runs|
      invariant forall i | 0 <= i < n :: runs[i].seed in declared
    {
      if runs[n].seed !in declared {
        r := Err(UndeclaredSeed(runs[n].seed));
        return;
      }
    }
    if runs == [] {
      r := Err(NoRecords);
      return;
    }
    var sorted := SortRuns(runs);
    if sorted.Err? {
      r := Err(sorted.error);
      return;
    }
    var (completed, failed) := sorted.value;
    var read := ReadRuns(runs);
    if read.Err? {
      r := Err(read.error);
      return;
    }
    t := read.value;
    PrintedSomething(t, AllPrints(runs));
    if completed != {} && read.value.printedBy == map[] {
      r := Err(NoRows);
      return;
    }
    var groups, gaps := Groups(read.value, completed);
    var missing := (set seed | seed in declared) - completed;
    r := Ok(Aggregate(missing == {} && failed == [] && !gaps, completed, missing, failed, groups));
  }

  lemma PrintedSomething(t: Tables, ps: seq<Print>)
    requires Holds(t, ps)
    ensures t.printedBy == map[] <==> ps == []
  {
    if ps != [] {
      assert NameOf(ps[0].row) in t.printedBy;
    } else {
      assert t.printedBy.Keys == {};
    }
  }

  // ---------------------------------------------------------------- nothing is dropped

  lemma PrintsComeFromRuns(runs: seq<Run>, i: nat)
    requires i < |AllPrints(runs)|
    ensures AllPrints(runs)[i].seed in CompletedSeeds(runs)
  {
    var before, last := runs[..|runs| - 1], runs[|runs| - 1];
    assert runs == before + [last];
    if i < |AllPrints(before)| {
      PrintsComeFromRuns(before, i);
    }
  }

  lemma FiniteOrNot(t: Tables, ps: seq<Print>, cell: Cell)
    requires Holds(t, ps) && OncePerRun(ps)
    ensures Apart(t, cell)
  {
    if cell in t.finite {
      var i :| HasFinite(ps, i, cell);
      forall j
        ensures !HasNonFinite(ps, j, cell)
      {
        if Prints(ps, j, cell.group, cell.seed) {
          assert i == j;
        }
      }
    }
  }

  predicate Apart(t: Tables, cell: Cell) {
    cell in t.finite ==> cell !in t.nonFinite
  }

  /** Each seed is finite, non-finite or missing, and only one of them. */
  ghost predicate Partitions(s: Summary, seeds: set<int>) {
    && s.bySeed.Keys + s.nonFinite.Keys + s.missing == seeds
    && s.bySeed.Keys !! s.nonFinite.Keys !! s.missing
  }

  lemma SummaryPartitions(t: Tables, ps: seq<Print>, group: Name, metric: string, seeds: set<int>)
    requires Holds(t, ps) && OncePerRun(ps)
    ensures Partitions(Summarize(t, group, metric, seeds), seeds)
  {
    forall seed
      ensures Apart(t, Cell(group, metric, seed))
    {
      FiniteOrNot(t, ps, Cell(group, metric, seed));
    }
    ApartPartitions(t, group, metric, seeds);
  }

  lemma ApartPartitions(t: Tables, group: Name, metric: string, seeds: set<int>)
    requires forall seed :: Apart(t, Cell(group, metric, seed))
    ensures Partitions(Summarize(t, group, metric, seeds), seeds)
  {
    var s := Summarize(t, group, metric, seeds);
    forall seed | seed in s.bySeed
      ensures seed !in s.nonFinite
    {
      assert Apart(t, Cell(group, metric, seed));
    }
  }

  /** Per group and metric, every completed seed is accounted for once. */
  lemma SeedsAreAccountedForOnce(declared: seq<int>, runs: seq<Run>, a: Aggregate, t: Tables)
    requires Acceptable(AllPrints(runs)) && Reports(a, declared, runs, t)
    ensures forall group, metric | group in a.groups && metric in a.groups[group].metrics ::
              Partitions(a.groups[group].metrics[metric], a.completed)
  {
    forall group, metric | group in a.groups && metric in a.groups[group].metrics
      ensures Partitions(a.groups[group].metrics[metric], a.completed)
    {
      SummaryPartitions(t, AllPrints(runs), group, metric, a.completed);
    }
  }

  /** Every number a completed run printed is in the aggregate, under its group, metric and seed. */
  lemma NothingIsDropped(declared: seq<int>, runs: seq<Run>, a: Aggregate, t: Tables, i: nat, metric: string)
    requires Reports(a, declared, runs, t) && i < |AllPrints(runs)| && IsMetric(AllPrints(runs)[i].row, metric)
    ensures var p := AllPrints(runs)[i];
            && NameOf(p.row) in a.groups
            && metric in a.groups[NameOf(p.row)].metrics
            && var s := a.groups[NameOf(p.row)].metrics[metric];
               if p.row[metric].Finite? then p.seed in s.bySeed && s.bySeed[p.seed] == p.row[metric].x
               else p.seed in s.nonFinite && s.nonFinite[p.seed] == p.row[metric].spelling
  {
    var ps := AllPrints(runs);
    var p := ps[i];
    var cell := Cell(NameOf(p.row), metric, p.seed);
    PrintsComeFromRuns(runs, i);
    assert Prints(ps, i, cell.group, cell.seed);
    assert HasFinite(ps, i, cell) || HasNonFinite(ps, i, cell);
    assert cell in t.finite.Keys + t.nonFinite.Keys;
    assert metric in MetricNames(t, NameOf(p.row));
  }

  // ---------------------------------------------------------------- complete

  /** Some run printed `metric` in a row of this name. */
  ghost predicate Measured(ps: seq<Print>, group: Name, metric: string) {
    exists i | 0 <= i < |ps| :: NameOf(ps[i].row) == group && IsMetric(ps[i].row, metric)
  }

  ghost predicate RowFromAll(ps: seq<Print>, group: Name, seeds: set<int>) {
    forall seed | seed in seeds :: exists j :: Prints(ps, j, group, seed)
  }

  ghost predicate FiniteFromAll(ps: seq<Print>, group: Name, metric: string, seeds: set<int>) {
    forall seed | seed in seeds :: exists j :: HasFinite(ps, j, Cell(group, metric, seed))
  }

  /** Every seed printed every group that any of them printed, with a finite value of every metric measured in it. */
  ghost predicate NoGaps(ps: seq<Print>, seeds: set<int>) {
    && (forall i | 0 <= i < |ps| :: RowFromAll(ps, NameOf(ps[i].row), seeds))
    && (forall group, metric | Measured(ps, group, metric) :: FiniteFromAll(ps, group, metric, seeds))
  }

  lemma MetricsAreMeasured(t: Tables, ps: seq<Print>, group: Name, metric: string)
    requires Holds(t, ps)
    ensures metric in MetricNames(t, group) <==> Measured(ps, group, metric)
  {
    if metric in MetricNames(t, group) {
      var cell :| cell in t.finite.Keys + t.nonFinite.Keys && cell.group == group && cell.metric == metric;
      if cell in t.finite {
        var i :| HasFinite(ps, i, cell);
      } else {
        var i :| HasNonFinite(ps, i, cell);
      }
    }
    if Measured(ps, group, metric) {
      var i :| 0 <= i < |ps| && NameOf(ps[i].row) == group && IsMetric(ps[i].row, metric);
      var cell := Cell(group, metric, ps[i].seed);
      assert HasFinite(ps, i, cell) || HasNonFinite(ps, i, cell);
      assert cell in t.finite.Keys + t.nonFinite.Keys;
    }
  }

  lemma SummaryGaps(t: Tables, ps: seq<Print>, group: Name, metric: string, seeds: set<int>)
    requires Holds(t, ps) && OncePerRun(ps)
    ensures var s := Summarize(t, group, metric, seeds);
            s.missing == {} && s.nonFinite == map[] <==> FiniteFromAll(ps, group, metric, seeds)
  {
    var s := Summarize(t, group, metric, seeds);
    SummaryPartitions(t, ps, group, metric, seeds);
    if FiniteFromAll(ps, group, metric, seeds) {
      forall seed | seed in seeds
        ensures seed in s.bySeed
      {
        var j :| HasFinite(ps, j, Cell(group, metric, seed));
      }
      assert s.nonFinite.Keys == {};
    }
    if s.missing == {} && s.nonFinite == map[] {
      forall seed | seed in seeds
        ensures exists j :: HasFinite(ps, j, Cell(group, metric, seed))
      {
        assert seed in s.bySeed.Keys;
      }
    }
  }

  lemma RowGaps(t: Tables, ps: seq<Print>, group: Name, seeds: set<int>)
    requires Holds(t, ps) && group in t.printedBy
    ensures seeds - PrintedBy(t, group) == {} <==> RowFromAll(ps, group, seeds)
  {
    NothingLeft(seeds, PrintedBy(t, group));
  }

  lemma NothingLeft(all: set<int>, some: set<int>)
    ensures all - some == {} <==> forall x | x in all :: x in some
  {
    var left := all - some;
    if left == {} {
      forall x | x in all
        ensures x in some
      {
        assert x !in left;
      }
    }
    if forall x | x in all :: x in some {
      assert left == {};
    }
  }

  lemma GroupGaps(t: Tables, ps: seq<Print>, group: Name, seeds: set<int>)
    requires Holds(t, ps) && OncePerRun(ps) && group in t.printedBy
    ensures !Gaps(GroupOf(t, group, seeds)) <==>
              && RowFromAll(ps, group, seeds)
              && forall metric | Measured(ps, group, metric) :: FiniteFromAll(ps, group, metric, seeds)
  {
    var g := GroupOf(t, group, seeds);
    RowGaps(t, ps, group, seeds);
    forall metric
      ensures metric in g.metrics <==> Measured(ps, group, metric)
      ensures metric in g.metrics ==>
                (g.metrics[metric].missing == {} && g.metrics[metric].nonFinite == map[] <==>
                    FiniteFromAll(ps, group, metric, seeds))
    {
      MetricsAreMeasured(t, ps, group, metric);
      SummaryGaps(t, ps, group, metric, seeds);
    }
  }

  lemma NoFlagExactlyWhenNoGaps(t: Tables, ps: seq<Print>, groups: map<Name, Group>, seeds: set<int>)
    requires Holds(t, ps) && OncePerRun(ps) && groups.Keys == t.printedBy.Keys
    requires forall group | group in groups :: groups[group] == GroupOf(t, group, seeds)
    ensures !AnyFlagged(groups, Gaps) <==> NoGaps(ps, seeds)
  {
    forall group | group in groups
      ensures !Gaps(groups[group]) <==>
                && RowFromAll(ps, group, seeds)
                && forall metric | Measured(ps, group, metric) :: FiniteFromAll(ps, group, metric, seeds)
    {
      GroupGaps(t, ps, group, seeds);
    }
    assert forall i | 0 <= i < |ps| :: NameOf(ps[i].row) in groups;
  }

  lemma {:induction false} NoneFailed(runs: seq<Run>)
    ensures FailedRuns(runs) == [] <==> forall i | 0 <= i < |runs| :: runs[i].completed
  {
    if runs != [] {
      NoneFailed(runs[..|runs| - 1]);
    }
  }

  /**
   The aggregate is `complete` exactly when no run failed, every declared seed completed, every group was printed by
   all of them and every metric is finite for each.
   */
  lemma CompleteExactlyWhenNothingIsMissing(declared: seq<int>, runs: seq<Run>, a: Aggregate, t: Tables)
    requires Acceptable(AllPrints(runs)) && Reports(a, declared, runs, t)
    ensures a.complete <==>
              && (forall i | 0 <= i < |runs| :: runs[i].completed)
              && (forall seed | seed in declared :: seed in CompletedSeeds(runs))
              && NoGaps(AllPrints(runs), CompletedSeeds(runs))
  {
    NoneFailed(runs);
    NoFlagExactlyWhenNoGaps(t, AllPrints(runs), a.groups, a.completed);
    NothingLeft((set seed | seed in declared), a.completed);
  }
}
