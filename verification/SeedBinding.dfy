/**
 How an aggregate is bound to the runs it reports on: the aggregator's `seed_record_digests` and the
 gate's checks in `archived_errors`, which read the same run records on their own. SHA-256 is taken
 as collision-free, a record's bytes standing for their digest.
 */
module SeedBinding {
  import opened Basics

  type Bytes = string

  /** A field of a parsed record, as far as `finished_run` tells values apart. */
  datatype Field = Missing | Number(n: int) | Text(text: string) | OtherValue

  /** A parsed JSON object; `seed` is the seed as `json.dumps` writes it, None when it names none. */
  datatype Fields = Fields(
    seed: Option<string>, status: Field, exitCode: Field, finishedAt: Field, stdout: Field, stderr: Field)

  datatype Parsed = Object(fields: Fields) | NotAnObject | Unparsable

  datatype RunRecord = RunRecord(name: string, data: Bytes, parsed: Parsed)

  /** `finished_run`: an exit code, a status that agrees with it, a finishing time and both outputs. */
  predicate Finished(f: Fields) {
    && f.exitCode.Number?
    && f.status == Text(if f.exitCode.n == 0 then "completed" else "failed")
    && f.finishedAt.Text? && f.stdout.Text? && f.stderr.Text?
  }

  /** A run of a seed: a command that failed to launch is none. */
  predicate IsRun(r: RunRecord) {
    r.parsed.Object? && r.parsed.fields.seed.Some? && r.parsed.fields.status != Text("failed-to-launch")
  }

  function SeedOf(r: RunRecord): string
    requires IsRun(r)
  {
    r.parsed.fields.seed.value
  }

  // ---------------------------------------------------------------- what the records say

  ghost predicate AllReadable(rs: seq<RunRecord>) {
    forall i | 0 <= i < |rs| :: !rs[i].parsed.Unparsable?
  }

  /** No seed ran twice; a reservation nothing finished is a run of its seed too. */
  ghost predicate EachSeedOnce(rs: seq<RunRecord>) {
    forall i, j | 0 <= i < j < |rs| && IsRun(rs[i]) && IsRun(rs[j]) :: SeedOf(rs[i]) != SeedOf(rs[j])
  }

  ghost predicate OnlySeeds(rs: seq<RunRecord>, seeds: set<string>) {
    forall i | 0 <= i < |rs| && IsRun(rs[i]) :: SeedOf(rs[i]) in seeds
  }

  /** Record `i` is a finished run of `seed`. */
  ghost predicate Outcome(rs: seq<RunRecord>, i: int, seed: string) {
    0 <= i < |rs| && IsRun(rs[i]) && SeedOf(rs[i]) == seed && Finished(rs[i].parsed.fields)
  }

  /** `digests` names, for each seed a finished run has, the record of that run. */
  ghost predicate NamesOutcomes(rs: seq<RunRecord>, digests: map<string, Bytes>) {
    && (forall seed | seed in digests :: exists i :: Outcome(rs, i, seed) && digests[seed] == rs[i].data)
    && (forall i, seed | Outcome(rs, i, seed) :: seed in digests)
  }

  lemma OutcomesOneMore(rs: seq<RunRecord>, r: RunRecord, digests: map<string, Bytes>)
    requires NamesOutcomes(rs, digests)
    ensures NamesOutcomes(
              rs + [r], if IsRun(r) && Finished(r.parsed.fields) then digests[SeedOf(r) := r.data] else digests)
  {
    var longer := rs + [r];
    var after := if IsRun(r) && Finished(r.parsed.fields) then digests[SeedOf(r) := r.data] else digests;
    forall seed | seed in after
      ensures exists i :: Outcome(longer, i, seed) && after[seed] == longer[i].data
    {
      if IsRun(r) && Finished(r.parsed.fields) && seed == SeedOf(r) {
        assert Outcome(longer, |rs|, seed);
      } else {
        var i :| Outcome(rs, i, seed) && digests[seed] == rs[i].data;
        assert longer[i] == rs[i];
        assert Outcome(longer, i, seed);
      }
    }
    forall i, seed | Outcome(longer, i, seed)
      ensures seed in after
    {
      if i < |rs| {
        assert Outcome(rs, i, seed);
      }
    }
  }

  // ---------------------------------------------------------------- the aggregator

  datatype Refusal = CannotRead(name: string) | MoreThanOne(seed: string)

  /** `seed_record_digests`, on the records in the order of their names. */
  method SeedRecordDigests(rs: seq<RunRecord>) returns (r: Result<map<string, Bytes>, Refusal>)
    ensures r.Ok? <==> AllReadable(rs) && EachSeedOnce(rs)
    ensures r.Ok? ==> NamesOutcomes(rs, r.value)
  {
    var digests: map<string, Bytes> := map[];
    var reserved: set<string> := {};
    for n := 0 to |rs|
      invariant AllReadable(rs[..n]) && EachSeedOnce(rs[..n]) && NamesOutcomes(rs[..n], digests)
      invariant forall seed :: seed in reserved <==> exists i | 0 <= i < n :: IsRun(rs[i]) && SeedOf(rs[i]) == seed
    {
      var record := rs[n];
      assert rs[..n + 1] == rs[..n] + [record];
      OutcomesOneMore(rs[..n], record, digests);
      if record.parsed.Unparsable? {
        return Err(CannotRead(record.name));
      }
      if IsRun(record) {
        var seed := SeedOf(record);
        if seed in reserved {
          return Err(MoreThanOne(seed));
        }
        reserved := reserved + {seed};
        if Finished(record.parsed.fields) {
          digests := digests[seed := record.data];
        }
      }
    }
    assert rs[..|rs|] == rs;
    return Ok(digests);
  }

  // ---------------------------------------------------------------- the gate

  /** A value of the aggregate's `seed_records`: a digest, or something else. */
  datatype Named = Names(digest: Bytes) | NoDigest

  datatype Finding = Unreadable(name: string) | NotPreregistered(seed: string) | RanTwice(seed: string) | NoSeedRecords
                   | NoRecord(seed: string) | NoOutcome(seed: string) | OtherDigest(seed: string)
                   | ExtraSeed(seed: string)

  /** The names of the records that ran `seed`, in order. */
  function Ran(rs: seq<RunRecord>, seed: string): seq<string> {
    if rs == [] then []
    else
      var last := rs[|rs| - 1];
      Ran(rs[..|rs| - 1], seed) + if IsRun(last) && SeedOf(last) == seed then [last.name] else []
  }

  ghost predicate CountsRuns(rs: seq<RunRecord>, runs: map<string, seq<string>>) {
    forall seed :: if seed in runs then runs[seed] == Ran(rs, seed) != [] else Ran(rs, seed) == []
  }

  function AddRun(runs: map<string, seq<string>>, seed: string, name: string): map<string, seq<string>> {
    runs[seed := (if seed in runs then runs[seed] else []) + [name]]
  }

  lemma CountsOneMore(rs: seq<RunRecord>, r: RunRecord, runs: map<string, seq<string>>)
    requires CountsRuns(rs, runs)
    ensures CountsRuns(rs + [r], if IsRun(r) then AddRun(runs, SeedOf(r), r.name) else runs)
  {
    assert (rs + [r])[..|rs|] == rs;
  }

  lemma {:induction false} RanSomewhere(rs: seq<RunRecord>, seed: string)
    ensures Ran(rs, seed) != [] <==> exists i | 0 <= i < |rs| :: IsRun(rs[i]) && SeedOf(rs[i]) == seed
  {
    if rs != [] {
      var before := rs[..|rs| - 1];
      RanSomewhere(before, seed);
      if i :| 0 <= i < |before| && IsRun(before[i]) && SeedOf(before[i]) == seed {
        assert IsRun(rs[i]) && SeedOf(rs[i]) == seed;
      }
      if i :| 0 <= i < |rs| && IsRun(rs[i]) && SeedOf(rs[i]) == seed {
        assert i < |before| ==> before[i] == rs[i];
      }
    }
  }

  lemma {:induction false} OnceHasOneName(rs: seq<RunRecord>, seed: string)
    requires EachSeedOnce(rs)
    ensures |Ran(rs, seed)| <= 1
  {
    if rs != [] {
      var before := rs[..|rs| - 1];
      OnceHasOneName(before, seed);
      RanSomewhere(before, seed);
    }
  }

  lemma {:induction false} TwiceHasTwoNames(rs: seq<RunRecord>, i: nat, j: nat)
    requires i < j < |rs| && IsRun(rs[i]) && IsRun(rs[j]) && SeedOf(rs[i]) == SeedOf(rs[j])
    ensures |Ran(rs, SeedOf(rs[j]))| > 1
  {
    var before := rs[..|rs| - 1];
    if j == |rs| - 1 {
      assert before[i] == rs[i];
      RanSomewhere(before, SeedOf(rs[j]));
    } else {
      TwiceHasTwoNames(before, i, j);
    }
  }

  /** The loop over the records: who ran, what finished, and what is wrong with a record by itself. */
  method ReadRecords(rs: seq<RunRecord>, preregistered: set<string>)
    returns (runs: map<string, seq<string>>, digests: map<string, Bytes>, errors: set<Finding>)
    ensures CountsRuns(rs, runs) && NamesOutcomes(rs, digests)
    ensures errors == {} <==> AllReadable(rs) && OnlySeeds(rs, preregistered)
  {
    runs, digests, errors := map[], map[], {};
    for n := 0 to |rs|
      invariant CountsRuns(rs[..n], runs) && NamesOutcomes(rs[..n], digests)
      invariant errors == {} <==> AllReadable(rs[..n]) && OnlySeeds(rs[..n], preregistered)
    {
      var record := rs[n];
      assert rs[..n + 1] == rs[..n] + [record];
      OutcomesOneMore(rs[..n], record, digests);
      CountsOneMore(rs[..n], record, runs);
      if record.parsed.Unparsable? {
        errors := errors + {Unreadable(record.name)};
      } else if IsRun(record) {
        var seed := SeedOf(record);
        runs := AddRun(runs, seed, record.name);
        if Finished(record.parsed.fields) {
          digests := digests[seed := record.data];
        }
        if seed !in preregistered {
          errors := errors + {NotPreregistered(seed)};
        }
      }
    }
    assert rs[..|rs|] == rs;
  }

  /** The loop over the preregistered seeds for one aggregate. */
  function SeedFinding(
    runs: map<string, seq<string>>, digests: map<string, Bytes>, bound: map<string, Named>,
    seed: string): set<Finding>
  {
    if seed !in runs then {NoRecord(seed)}
    else if seed !in digests then {NoOutcome(seed)}
    else if |runs[seed]| > 1 then {}
    else if seed !in bound || bound[seed] != Names(digests[seed]) then {OtherDigest(seed)}
    else {}
  }

  method CheckAggregate(
    runs: map<string, seq<string>>, digests: map<string, Bytes>, preregistered: seq<string>,
    seedRecords: Option<map<string, Named>>)
    returns (errors: set<Finding>)
    ensures errors == {} <==>
      && seedRecords.Some?
      && (forall k | 0 <= k < |preregistered| :: SeedFinding(runs, digests, seedRecords.value, preregistered[k]) == {})
      && (forall seed | seed in seedRecords.value :: seed in preregistered)
  {
    if seedRecords.None? {
      return {NoSeedRecords};
    }
    var bound := seedRecords.value;
    errors := {};
    for k := 0 to |preregistered|
      invariant errors == {} <==> forall j | 0 <= j < k :: SeedFinding(runs, digests, bound, preregistered[j]) == {}
    {
      errors := errors + SeedFinding(runs, digests, bound, preregistered[k]);
    }
    var extra := set seed | seed in bound && seed !in preregistered :: ExtraSeed(seed);
    assert extra == {} <==> forall seed | seed in bound :: seed in preregistered by {
      if seed :| seed in bound && seed !in preregistered {
        assert ExtraSeed(seed) in extra;
      }
    }
    errors := errors + extra;
  }

  /** `seed_records` is exactly the map the aggregator computes. */
  ghost predicate Is(bound: map<string, Named>, digests: map<string, Bytes>) {
    bound.Keys == digests.Keys && forall seed | seed in digests :: bound[seed] == Names(digests[seed])
  }

  /**
   The gate's seed checks on the aggregate on disk: they pass exactly when the aggregator's own reading
   of the records succeeds, names an outcome for each preregistered seed and for no other, and is what
   the aggregate carries, and no record ran a seed outside the preregistration.
   */
  method GateSeedChecks(rs: seq<RunRecord>, preregistered: seq<string>, seedRecords: Option<map<string, Named>>)
    returns (errors: set<Finding>)
    ensures errors == {} <==>
      && AllReadable(rs) && EachSeedOnce(rs)
      && OnlySeeds(rs, set seed | seed in preregistered)
      && seedRecords.Some?
      && exists digests :: BindsOutcomes(rs, preregistered, seedRecords.value, digests)
  {
    var runs, outcomes, found := ReadRecords(rs, set seed | seed in preregistered);
    var twice := set seed | seed in runs && |runs[seed]| > 1 :: RanTwice(seed);
    var aggregate := CheckAggregate(runs, outcomes, preregistered, seedRecords);
    errors := found + twice + aggregate;
    RanTwiceExactly(rs, runs, twice);
    if errors == {} {
      assert found == {} && twice == {} && aggregate == {};
      AcceptedIsBound(rs, runs, outcomes, preregistered, seedRecords.value);
      assert BindsOutcomes(rs, preregistered, seedRecords.value, outcomes);
    } else if found == {} && twice == {} {
      BoundIsAccepted(rs, runs, outcomes, preregistered, seedRecords);
      if seedRecords.Some? {
        forall digests
          ensures !BindsOutcomes(rs, preregistered, seedRecords.value, digests)
        {
          if NamesOutcomes(rs, digests) {
            OutcomesFixDigests(rs, digests, outcomes);
          }
        }
      }
    }
  }

  /** `bound` names the record of the finished run of each preregistered seed, and nothing else. */
  ghost predicate BindsOutcomes(
    rs: seq<RunRecord>, preregistered: seq<string>, bound: map<string, Named>, digests: map<string, Bytes>)
  {
    NamesOutcomes(rs, digests) && digests.Keys == (set seed | seed in preregistered) && Is(bound, digests)
  }

  lemma RanTwiceExactly(rs: seq<RunRecord>, runs: map<string, seq<string>>, twice: set<Finding>)
    requires CountsRuns(rs, runs) && twice == set seed | seed in runs && |runs[seed]| > 1 :: RanTwice(seed)
    ensures twice == {} <==> EachSeedOnce(rs)
  {
    if twice == {} {
      forall i, j | 0 <= i < j < |rs| && IsRun(rs[i]) && IsRun(rs[j])
        ensures SeedOf(rs[i]) != SeedOf(rs[j])
      {
        var seed := SeedOf(rs[j]);
        assert seed in runs && |runs[seed]| > 1 ==> RanTwice(seed) in twice;
        if SeedOf(rs[i]) == seed {
          TwiceHasTwoNames(rs, i, j);
        }
      }
    }
    if EachSeedOnce(rs) {
      forall seed | seed in runs
        ensures |runs[seed]| <= 1
      {
        OnceHasOneName(rs, seed);
      }
    }
  }

  lemma AcceptedIsBound(
    rs: seq<RunRecord>, runs: map<string, seq<string>>, digests: map<string, Bytes>, preregistered: seq<string>,
    bound: map<string, Named>)
    requires CountsRuns(rs, runs) && NamesOutcomes(rs, digests) && EachSeedOnce(rs)
    requires OnlySeeds(rs, set seed | seed in preregistered)
    requires forall k | 0 <= k < |preregistered| :: SeedFinding(runs, digests, bound, preregistered[k]) == {}
    requires forall seed | seed in bound :: seed in preregistered
    ensures digests.Keys == (set seed | seed in preregistered) && Is(bound, digests)
  {
    forall seed | seed in preregistered
      ensures seed in digests && seed in bound && bound[seed] == Names(digests[seed])
    {
      OnceHasOneName(rs, seed);
      var k :| 0 <= k < |preregistered| && preregistered[k] == seed;
      assert SeedFinding(runs, digests, bound, preregistered[k]) == {};
    }
    forall seed | seed in digests
      ensures seed in preregistered
    {
      var i :| Outcome(rs, i, seed) && digests[seed] == rs[i].data;
      assert SeedOf(rs[i]) in set s | s in preregistered;
    }
  }

  lemma BoundIsAccepted(
    rs: seq<RunRecord>, runs: map<string, seq<string>>, digests: map<string, Bytes>, preregistered: seq<string>,
    seedRecords: Option<map<string, Named>>)
    requires CountsRuns(rs, runs) && NamesOutcomes(rs, digests)
    ensures digests.Keys == (set seed | seed in preregistered) && seedRecords.Some?
            && Is(seedRecords.value, digests) ==>
      && (forall k | 0 <= k < |preregistered| :: SeedFinding(runs, digests, seedRecords.value, preregistered[k]) == {})
      && (forall seed | seed in seedRecords.value :: seed in preregistered)
  {
    if digests.Keys == (set seed | seed in preregistered) && seedRecords.Some? && Is(seedRecords.value, digests) {
      var bound := seedRecords.value;
      forall k | 0 <= k < |preregistered|
        ensures SeedFinding(runs, digests, bound, preregistered[k]) == {}
      {
        var seed := preregistered[k];
        assert seed in digests.Keys;
        var i :| Outcome(rs, i, seed) && digests[seed] == rs[i].data;
        RanSomewhere(rs, seed);
      }
      forall seed | seed in bound
        ensures seed in preregistered
      {
        assert seed in digests.Keys;
      }
    }
  }

  /** The map both readers arrive at is one map: where each seed ran once, its outcomes fix it. */
  lemma OutcomesFixDigests(rs: seq<RunRecord>, a: map<string, Bytes>, b: map<string, Bytes>)
    requires EachSeedOnce(rs) && NamesOutcomes(rs, a) && NamesOutcomes(rs, b)
    ensures a == b
  {
    forall seed | seed in a
      ensures seed in b && b[seed] == a[seed]
    {
      var i :| Outcome(rs, i, seed) && a[seed] == rs[i].data;
      var j :| Outcome(rs, j, seed) && b[seed] == rs[j].data;
      assert i == j;
    }
    forall seed | seed in b
      ensures seed in a
    {
      var i :| Outcome(rs, i, seed) && b[seed] == rs[i].data;
    }
  }

  /**
   Aggregator and gate agree: on records of preregistered seeds the gate accepts an aggregate exactly
   when `seed_record_digests` succeeds with an outcome for every preregistered seed and the aggregate
   carries the map it returned.
   */
  method Agree(rs: seq<RunRecord>, preregistered: seq<string>, seedRecords: Option<map<string, Named>>)
    returns (written: Result<map<string, Bytes>, Refusal>, errors: set<Finding>)
    requires OnlySeeds(rs, set seed | seed in preregistered)
    ensures errors == {} <==>
      && written.Ok?
      && written.value.Keys == (set seed | seed in preregistered)
      && seedRecords.Some? && Is(seedRecords.value, written.value)
  {
    written := SeedRecordDigests(rs);
    errors := GateSeedChecks(rs, preregistered, seedRecords);
    if written.Ok? && seedRecords.Some? {
      forall digests | BindsOutcomes(rs, preregistered, seedRecords.value, digests)
        ensures digests == written.value
      {
        OutcomesFixDigests(rs, written.value, digests);
      }
      assert BindsOutcomes(rs, preregistered, seedRecords.value, written.value) <==>
        written.value.Keys == (set seed | seed in preregistered) && Is(seedRecords.value, written.value);
    }
  }

  /** So each preregistered seed of an accepted aggregate is bound to the one record that ran it, finished. */
  lemma EachSeedBoundToOneOutcome(
    rs: seq<RunRecord>, digests: map<string, Bytes>, bound: map<string, Named>, seed: string)
    requires EachSeedOnce(rs) && NamesOutcomes(rs, digests) && Is(bound, digests) && seed in digests
    ensures exists i :: Outcome(rs, i, seed) && bound[seed] == Names(rs[i].data)
                        && forall j | 0 <= j < |rs| && IsRun(rs[j]) && SeedOf(rs[j]) == seed :: j == i
  {
    var i :| Outcome(rs, i, seed) && digests[seed] == rs[i].data;
    assert bound[seed] == Names(rs[i].data);
  }
}
