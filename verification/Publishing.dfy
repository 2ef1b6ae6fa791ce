/**
 `experiment_records.publish_aggregate` and `aggregate_problems`: one aggregate is a metrics.json
 and the run.json written with it, moved into place so that no interruption mixes two of them.

 A directory operation is durable once the directory is flushed; until then a power loss may keep
 any of the operations since and lose the others. Files are written and flushed under temporary
 names beforehand, so an installed file has its whole content. SHA-256 is taken as collision-free.
 */
module Publishing {
  import opened Basics

  type Bytes = string

  datatype Digest = Sha256(of: Content)

  /** What a mutation check counted, as JSON writes it. */
  datatype Counts = Counts(killed: string, total: string, gitSha: string)

  datatype Summary = Summary(counts: Counts, sha256: Option<Digest>)

  /** The value of `mutation_checks` in a run.json: null or absent, a table, or something else. */
  datatype Carried = NoChecks | Checks(summary: Summary) | NotATable

  datatype Run = Run(body: Bytes, metricsSha256: Option<Digest>, checks: Carried)

  datatype Content = MetricsText(body: Bytes) | RunText(run: Run) | Evidence(counts: Counts, outcomes: Bytes)
                   | Unreadable(body: Bytes)

  datatype Name = MetricsJson | RunJson | MutationsJson | StaleToml

  /** A regular file, or a symlink through which another file's content is read. */
  datatype File = Regular(content: Content) | Link(content: Content)

  type Directory = map<Name, File>

  // ---------------------------------------------------------------- one aggregate

  datatype Problem = LinkedMetrics | LinkedMutations | MetricsUnread | OtherMetrics
                   | UnexpectedMutations | MutationsUnread | OtherMutations

  predicate IsLink(d: Directory, name: Name) {
    name in d && d[name].Link?
  }

  /** The digest check on metrics.json. */
  function MetricsProblems(run: Run, d: Directory): set<Problem> {
    if run.metricsSha256.None? || IsLink(d, MetricsJson) then {}
    else if MetricsJson !in d then {MetricsUnread}
    else if Sha256(d[MetricsJson].content) != run.metricsSha256.value then {OtherMetrics}
    else {}
  }

  function MutationSummary(evidence: Content): Option<Summary> {
    if evidence.Evidence? then Some(Summary(evidence.counts, Some(Sha256(evidence)))) else None
  }

  function MutationProblems(run: Run, d: Directory): set<Problem> {
    if IsLink(d, MutationsJson) then {}
    else if run.checks.NoChecks? then if MutationsJson in d then {UnexpectedMutations} else {}
    else if MutationsJson !in d || MutationSummary(d[MutationsJson].content).None? then {MutationsUnread}
    else
      var summary := MutationSummary(d[MutationsJson].content).value;
      var compared :=
        if run.checks.Checks? && run.checks.summary.sha256.None? then summary.(sha256 := None) else summary;
      if run.checks != Checks(compared) then {OtherMutations} else {}
  }

  function AggregateProblems(run: Run, d: Directory): set<Problem> {
    (if IsLink(d, MetricsJson) then {LinkedMetrics} else {})
    + (if IsLink(d, MutationsJson) then {LinkedMutations} else {})
    + MetricsProblems(run, d)
    + MutationProblems(run, d)
  }

  /** `run` binds the metrics beside it, whole, when it names a digest at all. */
  ghost predicate BindsMetrics(run: Run, d: Directory) {
    && !IsLink(d, MetricsJson)
    && (run.metricsSha256.Some? ==> MetricsJson in d && run.metricsSha256.value.of == d[MetricsJson].content)
  }

  /** `run` carries the mutation evidence beside it: its counts, and the whole file when it names a digest. */
  ghost predicate CarriesEvidence(run: Run, d: Directory) {
    match run.checks
    case NoChecks => MutationsJson !in d
    case NotATable => false
    case Checks(Summary(counts, sha256)) =>
      && MutationsJson in d
      && d[MutationsJson].Regular?
      && d[MutationsJson].content.Evidence?
      && d[MutationsJson].content.counts == counts
      && (sha256.Some? ==> sha256.value.of == d[MutationsJson].content)
  }

  /** There is no problem exactly when run.json, metrics.json and mutations.json are one aggregate. */
  lemma NoProblemIsOneAggregate(run: Run, d: Directory)
    ensures AggregateProblems(run, d) == {} <==> BindsMetrics(run, d) && CarriesEvidence(run, d)
  {
    assert MetricsProblems(run, d) == {} && !IsLink(d, MetricsJson) <==> BindsMetrics(run, d);
    assert MutationProblems(run, d) == {} && !IsLink(d, MutationsJson) <==> CarriesEvidence(run, d);
    assert LinkedMetrics in AggregateProblems(run, d) || !IsLink(d, MetricsJson);
    assert LinkedMutations in AggregateProblems(run, d) || !IsLink(d, MutationsJson);
  }

  // ---------------------------------------------------------------- the disk

  datatype Operation = Remove(name: Name) | Install(name: Name, content: Content)

  function Apply(d: Directory, op: Operation): Directory {
    match op
    case Remove(name) => d - {name}
    case Install(name, content) => d[name := Regular(content)]
  }

  /** The directory as last flushed, and the operations since. */
  datatype Disk = Disk(flushed: Directory, pending: seq<Operation>)

  /** The flushed directory with those pending operations applied that `kept` marks. */
  function Outcome(d: Directory, pending: seq<Operation>, kept: seq<bool>): Directory
    requires |kept| == |pending|
    decreases |pending|
  {
    if pending == [] then d
    else Outcome(if kept[0] then Apply(d, pending[0]) else d, pending[1..], kept[1..])
  }

  /** What a power loss can leave. */
  ghost predicate CanLeave(disk: Disk, d: Directory) {
    exists kept: seq<bool> | |kept| == |disk.pending| :: d == Outcome(disk.flushed, disk.pending, kept)
  }

  function AllKept(n: nat): (kept: seq<bool>)
    ensures |kept| == n
  {
    seq(n, _ => true)
  }

  /** What every program sees while the machine is up. */
  function Live(disk: Disk): Directory {
    Outcome(disk.flushed, disk.pending, AllKept(|disk.pending|))
  }

  datatype Action = Do(op: Operation) | Flush

  function Act(disk: Disk, action: Action): Disk {
    match action
    case Do(op) => Disk(disk.flushed, disk.pending + [op])
    case Flush => Disk(Live(disk), [])
  }

  function ActAll(disk: Disk, actions: seq<Action>): Disk {
    if actions == [] then disk else Act(ActAll(disk, actions[..|actions| - 1]), actions[|actions| - 1])
  }

  /** The moves of `publish_aggregate`, each followed by `sync_directory`. */
  function Protocol(metrics: Content, run: Content): (actions: seq<Action>)
    ensures |actions| == 6
  {
    [Do(Remove(RunJson)), Flush, Do(Install(MetricsJson, metrics)), Flush, Do(Install(RunJson, run)), Flush]
  }

  /** The run.json a publication installs: it names the digest of the metrics installed with it. */
  function Bind(run: Run, metrics: Content): Run {
    run.(metricsSha256 := Some(Sha256(metrics)))
  }

  function BoundRun(metrics: Bytes, run: Run): Content {
    RunText(Bind(run, MetricsText(metrics)))
  }

  function ProtocolOf(metrics: Bytes, run: Run): (actions: seq<Action>)
    ensures |actions| == 6
  {
    Protocol(MetricsText(metrics), BoundRun(metrics, run))
  }

  /**
   What a publication does from `disk` on when nothing interrupts it: the marker goes last, and only if all is well.
   */
  function StepsOf(disk: Disk, metrics: Bytes, run: Run): (actions: seq<Action>)
    ensures ProtocolOf(metrics, run) <= actions && |actions| <= 7
  {
    var moved := ActAll(disk, ProtocolOf(metrics, run));
    ProtocolOf(metrics, run)
    + if AggregateProblems(Bind(run, MetricsText(metrics)), Live(moved)) == {} then [Do(Remove(StaleToml))] else []
  }

  /** From `start` the disk went through `states`, those of the first actions, to `end`. */
  ghost predicate Follows(start: Disk, actions: seq<Action>, states: seq<Disk>, end: Disk) {
    && |states| <= |actions|
    && end == ActAll(start, actions[..|states|])
    && forall i | 0 <= i < |states| :: states[i] == ActAll(start, actions[..i + 1])
  }

  predicate Unbound(run: Run) {
    run.checks.Checks? && run.checks.summary.sha256.None?
  }

  /** Another program gets to change the directory: the moves were made, none having failed. */
  predicate Meddles(run: Run, failing: Option<nat>, meddled: Option<Directory>) {
    meddled.Some? && !Unbound(run) && (failing.Some? ==> failing.value > 6)
  }

  datatype Failure = EvidenceUnbound | OsError | Unreadback | ChangedMeanwhile | NotOneAggregate(problems: set<Problem>)

  // ---------------------------------------------------------------- the publication

  class ResultsDirectory {
    var disk: Disk
    /** Every state the disk has been in. */
    ghost var states: seq<Disk>

    constructor (d: Directory)
      ensures disk == Disk(d, []) && states == [disk]
    {
      disk := Disk(d, []);
      states := [Disk(d, [])];
    }

    method Perform(action: Action)
      modifies this
      ensures disk == Act(old(disk), action)
      ensures states == old(states) + [disk]
    {
      disk := Act(disk, action);
      states := states + [disk];
    }

    /** Whatever another program makes of the directory. */
    method Meddle(d: Directory)
      modifies this
      ensures disk == Disk(d, []) && states == old(states) + [disk]
    {
      disk := Disk(d, []);
      states := states + [disk];
    }

    /**
     `publish_aggregate`. Staging a temporary file, moving one or removing the marker may fail (`failing` says at which
     of the steps, 0 for staging), and another program may change the directory before it is read back (`meddled`).
     */
    method Publish(metrics: Bytes, run: Run, failing: Option<nat>, meddled: Option<Directory>)
      returns (result: Result<(), Failure>)
      modifies this
      // Refused, or failed while staging: nothing was touched.
      ensures Unbound(run) || failing == Some(0) ==> result.Err? && disk == old(disk) && states == old(states)
      // The disk goes through the publication's states and no others, to the last one exactly on success.
      ensures !Meddles(run, failing, meddled) ==>
        && old(states) <= states
        && Follows(old(disk), StepsOf(old(disk), metrics, run), states[|old(states)|..], disk)
        && (result.Ok? <==> |states| == |old(states)| + 7)
      // Success: both files are the new pair, one aggregate with its evidence, and the marker is gone.
      ensures result.Ok? ==>
        && MetricsJson in Live(disk) && Live(disk)[MetricsJson].content == MetricsText(metrics)
        && RunJson in Live(disk) && Live(disk)[RunJson].content == RunText(Bind(run, MetricsText(metrics)))
        && BindsMetrics(Bind(run, MetricsText(metrics)), Live(disk)) && CarriesEvidence(run, Live(disk))
        && StaleToml !in Live(disk)
      // The marker never goes otherwise.
      ensures result.Err? ==>
        (StaleToml in Live(disk) <==>
            StaleToml in (if Meddles(run, failing, meddled) then meddled.value else old(Live(disk))))
    {
      if Unbound(run) || failing == Some(0) {
        assert states[|states|..] == [] && StepsOf(disk, metrics, run)[..0] == [];
        return Err(if Unbound(run) then EvidenceUnbound else OsError);
      }
      ghost var start := disk;
      var moved := MoveIntoPlace(metrics, run, failing);
      if !moved {
        return Err(OsError);
      }
      assert StepsOf(start, metrics, run)[..6] == ProtocolOf(metrics, run);
      PairIsDurable(start, MetricsText(metrics), BoundRun(metrics, run));
      if meddled.Some? {
        Meddle(meddled.value);
      }
      var problem := ReadBack(Live(disk), metrics, run);
      if problem.Some? {
        return Err(problem.value);
      }
      if failing == Some(7) {
        return Err(OsError);
      }
      if meddled.None? {
        FollowsOneMore(start, StepsOf(start, metrics, run), states[|old(states)|..], disk);
      }
      ghost var passed := states;
      LiveAfter(disk, Remove(StaleToml));
      Perform(Do(Remove(StaleToml)));
      assert meddled.None? ==> states[|old(states)|..] == passed[|old(states)|..] + [disk];
      return Ok(());
    }

    /** The moves, each with its sync, up to the first that fails. */
    method MoveIntoPlace(metrics: Bytes, run: Run, failing: Option<nat>) returns (moved: bool)
      requires failing != Some(0)
      modifies this
      ensures old(states) <= states
      ensures Follows(old(disk), StepsOf(old(disk), metrics, run), states[|old(states)|..], disk)
      ensures moved <==> |states| == |old(states)| + 6
      ensures moved <==> (failing.Some? ==> failing.value > 6)
      ensures |states| <= |old(states)| + 6
      ensures StaleToml in Live(disk) <==> StaleToml in old(Live(disk))
    {
      var actions := ProtocolOf(metrics, run);
      ghost var start, steps := disk, StepsOf(disk, metrics, run);
      assert steps[..0] == [] && states[|states|..] == [];
      for n := 0 to 6
        invariant failing.Some? ==> failing.value > n
        invariant old(states) <= states && |states| == |old(states)| + n
        invariant Follows(start, steps, states[|old(states)|..], disk)
        invariant StaleToml in Live(disk) <==> StaleToml in Live(start)
      {
        if failing == Some(n + 1) {
          return false;
        }
        assert steps[n] == actions[n];
        FollowsOneMore(start, steps, states[|old(states)|..], disk);
        ActKeepsOthers(disk, actions[n], StaleToml);
        ghost var passed := states;
        Perform(actions[n]);
        assert states[|old(states)|..] == passed[|old(states)|..] + [disk];
      }
      return true;
    }
  }

  /**
   What is wrong with the files as they are read back; nothing, exactly when they are the new pair and its evidence.
   */
  function ReadBack(seen: Directory, metrics: Bytes, run: Run): (problem: Option<Failure>)
    ensures problem.None? <==>
      && MetricsJson in seen && seen[MetricsJson].content == MetricsText(metrics)
      && RunJson in seen && seen[RunJson].content == BoundRun(metrics, run)
      && BindsMetrics(Bind(run, MetricsText(metrics)), seen) && CarriesEvidence(run, seen)
  {
    var bound := Bind(run, MetricsText(metrics));
    NoProblemIsOneAggregate(bound, seen);
    if MetricsJson !in seen || RunJson !in seen then Some(Unreadback)
    else if seen[MetricsJson].content != MetricsText(metrics) || seen[RunJson].content != RunText(bound)
    then Some(ChangedMeanwhile)
    else if AggregateProblems(bound, seen) != {} then Some(NotOneAggregate(AggregateProblems(bound, seen)))
    else None
  }

  lemma FollowsOneMore(start: Disk, actions: seq<Action>, states: seq<Disk>, end: Disk)
    requires Follows(start, actions, states, end) && |states| < |actions|
    ensures Follows(start, actions, states + [Act(end, actions[|states|])], Act(end, actions[|states|]))
  {
    assert actions[..|states| + 1][..|states|] == actions[..|states|];
  }

  lemma {:induction false} OutcomeConcat(d: Directory, pending: seq<Operation>, op: Operation, kept: seq<bool>)
    requires |kept| == |pending| + 1
    ensures var before := Outcome(d, pending, kept[..|pending|]);
            Outcome(d, pending + [op], kept) == if kept[|pending|] then Apply(before, op) else before
    decreases |pending|
  {
    if pending == [] {
      assert (pending + [op])[1..] == [];
    } else {
      OutcomeConcat(if kept[0] then Apply(d, pending[0]) else d, pending[1..], op, kept[1..]);
      assert (pending + [op])[1..] == pending[1..] + [op];
      assert kept[1..][..|pending| - 1] == kept[..|pending|][1..];
    }
  }

  lemma LiveAfter(disk: Disk, op: Operation)
    ensures Live(Act(disk, Do(op))) == Apply(Live(disk), op)
  {
    var n := |disk.pending|;
    OutcomeConcat(disk.flushed, disk.pending, op, AllKept(n + 1));
    assert AllKept(n + 1)[..n] == AllKept(n);
  }

  lemma ActKeepsOthers(disk: Disk, action: Action, name: Name)
    requires action.Do? ==> action.op.name != name
    ensures name in Live(Act(disk, action)) <==> name in Live(disk)
  {
    if action.Do? {
      LiveAfter(disk, action.op);
    }
  }

  // ---------------------------------------------------------------- every interruption

  /** The metrics.json, if any, and the run.json a directory holds together. */
  datatype Pair = Pair(metrics: Option<File>, run: File)

  function Held(d: Directory): Option<File> {
    if MetricsJson in d then Some(d[MetricsJson]) else None
  }

  /** No run.json, or one beside the metrics.json it belongs with. */
  ghost predicate Legitimate(d: Directory, pairs: set<Pair>) {
    RunJson in d ==> Pair(Held(d), d[RunJson]) in pairs
  }

  /** Metrics are settled: nothing pending touches them, and every run.json there may be goes with them. */
  ghost predicate MetricsSettled(disk: Disk, pairs: set<Pair>) {
    && Legitimate(disk.flushed, pairs)
    && forall op | op in disk.pending ::
         op.name != MetricsJson
             && (op.Install? && op.name == RunJson ==> Pair(Held(disk.flushed), Regular(op.content)) in pairs)
  }

  /** There is no run.json, whatever is kept of the pending operations. */
  ghost predicate RunGone(disk: Disk) {
    RunJson !in disk.flushed && forall op | op in disk.pending :: op.Install? ==> op.name != RunJson
  }

  ghost predicate Safe(disk: Disk, pairs: set<Pair>) {
    MetricsSettled(disk, pairs) || RunGone(disk)
  }

  lemma {:induction false} OutcomesLegitimate(d: Directory, pending: seq<Operation>, kept: seq<bool>, pairs: set<Pair>)
    requires |kept| == |pending| && Safe(Disk(d, pending), pairs)
    ensures Legitimate(Outcome(d, pending, kept), pairs)
    ensures RunGone(Disk(d, pending)) ==> RunJson !in Outcome(d, pending, kept)
    decreases |pending|
  {
    if pending != [] {
      var next := if kept[0] then Apply(d, pending[0]) else d;
      assert pending[0] in pending;
      assert forall op | op in pending[1..] :: op in pending;
      assert MetricsSettled(Disk(d, pending), pairs) ==> Held(next) == Held(d);
      assert RunGone(Disk(d, pending)) ==> RunGone(Disk(next, pending[1..]));
      assert Safe(Disk(next, pending[1..]), pairs);
      OutcomesLegitimate(next, pending[1..], kept[1..], pairs);
    }
  }

  /** A power loss leaves only legitimate directories; so does the machine while it is up. */
  lemma SafeLeavesLegitimate(disk: Disk, pairs: set<Pair>)
    requires Safe(disk, pairs)
    ensures Legitimate(Live(disk), pairs)
    ensures RunGone(disk) ==> RunJson !in Live(disk)
    ensures forall d | CanLeave(disk, d) :: Legitimate(d, pairs)
  {
    OutcomesLegitimate(disk.flushed, disk.pending, AllKept(|disk.pending|), pairs);
    forall d | CanLeave(disk, d)
      ensures Legitimate(d, pairs)
    {
      var kept :| |kept| == |disk.pending| && d == Outcome(disk.flushed, disk.pending, kept);
      OutcomesLegitimate(disk.flushed, disk.pending, kept, pairs);
    }
  }

  lemma FlushedIsSafe(d: Directory, pairs: set<Pair>)
    requires Legitimate(d, pairs)
    ensures Safe(Disk(d, []), pairs)
  {
  }

  /** The states of one publication, from any safe disk, are safe for the old pairs and the new one. */
  lemma {:induction false} ProtocolIsSafe(disk: Disk, metrics: Content, run: Content, n: nat, pairs: set<Pair>)
    requires n <= 6 && Safe(disk, pairs)
    requires Pair(Some(Regular(metrics)), Regular(run)) in pairs
    ensures Safe(ActAll(disk, Protocol(metrics, run)[..n]), pairs)
    ensures 2 <= n <= 4 ==> RunGone(ActAll(disk, Protocol(metrics, run)[..n]))
    ensures n >= 4 ==> Held(ActAll(disk, Protocol(metrics, run)[..n]).flushed) == Some(Regular(metrics))
    ensures n == 4 ==> ActAll(disk, Protocol(metrics, run)[..n]).pending == []
  {
    var actions := Protocol(metrics, run);
    if n == 0 {
      assert actions[..0] == [];
    } else {
      ProtocolIsSafe(disk, metrics, run, n - 1, pairs);
      assert actions[..n][..n - 1] == actions[..n - 1];
      var before := ActAll(disk, actions[..n - 1]);
      if actions[n - 1].Flush? {
        SafeLeavesLegitimate(before, pairs);
        ProtocolIsSafe(disk, metrics, run, n - 2, pairs);
        SafeLeavesLegitimate(ActAll(disk, actions[..n - 2]), pairs);
        FlushAfter(disk, actions, n);
      }
    }
  }

  lemma FlushAfter(disk: Disk, actions: seq<Action>, n: nat)
    requires 0 < n <= |actions| && actions[n - 1].Flush?
    requires n >= 2 && actions[n - 2].Do?
    ensures ActAll(disk, actions[..n]) ==
            Disk(Apply(Live(ActAll(disk, actions[..n - 2])), actions[n - 2].op), [])
  {
    assert actions[..n][..n - 1] == actions[..n - 1];
    assert actions[..n - 1][..n - 2] == actions[..n - 2];
    LiveAfter(ActAll(disk, actions[..n - 2]), actions[n - 2].op);
  }

  /** After its six moves a publication's pair is there, whatever the disk was before. */
  lemma PairIsDurable(disk: Disk, metrics: Content, run: Content)
    ensures var moved := ActAll(disk, Protocol(metrics, run));
            moved.pending == [] && HoldsPair(moved.flushed, metrics, run) && Live(moved) == moved.flushed
  {
    var actions := Protocol(metrics, run);
    assert actions[..6] == actions;
    FlushAfter(disk, actions, 4);
    FlushAfter(disk, actions, 6);
  }

  ghost predicate HoldsPair(d: Directory, metrics: Content, run: Content) {
    MetricsJson in d && d[MetricsJson] == Regular(metrics) && RunJson in d && d[RunJson] == Regular(run)
  }

  /** A publication up to some of its steps, or a power loss that keeps some of what was pending. */
  datatype Event = Attempt(metrics: Bytes, run: Run, steps: nat) | PowerLoss(kept: seq<bool>)

  ghost predicate Possible(disk: Disk, event: Event) {
    match event
    case Attempt(metrics, run, steps) => steps <= |StepsOf(disk, metrics, run)| && (Unbound(run) ==> steps == 0)
    case PowerLoss(kept) => |kept| == |disk.pending|
  }

  ghost function Happen(disk: Disk, event: Event): Disk
    requires Possible(disk, event)
  {
    match event
    case Attempt(metrics, run, steps) => ActAll(disk, StepsOf(disk, metrics, run)[..steps])
    case PowerLoss(kept) => Disk(Outcome(disk.flushed, disk.pending, kept), [])
  }

  /** The disks a history passes through, one after each event. */
  ghost predicate History(disks: seq<Disk>, events: seq<Event>) {
    && |disks| == |events| + 1
    && forall i | 0 <= i < |events| :: Possible(disks[i], events[i]) && disks[i + 1] == Happen(disks[i], events[i])
  }

  function NewPair(event: Event): set<Pair> {
    if event.Attempt?
    then {Pair(Some(Regular(MetricsText(event.metrics))), Regular(BoundRun(event.metrics, event.run)))}
    else {}
  }

  /** A directory that a power loss at this moment can leave holds `pair`. */
  ghost predicate CouldHold(disk: Disk, pair: Pair) {
    exists d | CanLeave(disk, d) :: RunJson in d && Pair(Held(d), d[RunJson]) == pair
  }

  // ---------------------------------------------------------------- one event

  lemma CanLeaveFlushed(d: Directory, left: Directory)
    ensures CanLeave(Disk(d, []), left) <==> left == d
  {
    assert Outcome(d, [], []) == d;
  }

  lemma CanLeaveMore(disk: Disk, op: Operation, left: Directory) returns (before: Directory)
    requires CanLeave(Act(disk, Do(op)), left)
    ensures CanLeave(disk, before) && (left == before || left == Apply(before, op))
  {
    var kept :| |kept| == |disk.pending| + 1 && left == Outcome(disk.flushed, disk.pending + [op], kept);
    OutcomeConcat(disk.flushed, disk.pending, op, kept);
    before := Outcome(disk.flushed, disk.pending, kept[..|disk.pending|]);
  }

  /** The disk after the first steps of the protocol: each flush makes the move before it final. */
  lemma StepStates(disk: Disk, metrics: Content, run: Content, n: nat)
    requires n <= 6
    ensures var now := ActAll(disk, Protocol(metrics, run)[..n]);
            && (n == 0 ==> now == disk)
            && (n == 1 ==> now == Act(disk, Do(Remove(RunJson))))
            && (n == 2 || n == 4 || n == 6 ==> now.pending == [])
            && (2 <= n <= 4 ==> RunGone(now))
            && (n == 3 ==> now.pending == [Install(MetricsJson, metrics)])
            && (n == 4 || n == 5 ==> Held(now.flushed) == Some(Regular(metrics)) && RunJson !in now.flushed)
            && (n == 5 ==> now.pending == [Install(RunJson, run)])
            && (n == 6 ==> HoldsPair(now.flushed, metrics, run))
  {
    var actions := Protocol(metrics, run);
    assert actions[..0] == [] && actions[..1] == [actions[0]] && actions[..1][..0] == [];
    if n >= 2 {
      FlushAfter(disk, actions, 2);
      assert actions[..3][..2] == actions[..2];
    }
    if n >= 4 {
      FlushAfter(disk, actions, 4);
      assert actions[..5][..4] == actions[..4];
    }
    if n == 6 {
      FlushAfter(disk, actions, 6);
    }
  }

  /** Taking the marker away last leaves the pair where it is. */
  lemma SeventhStep(disk: Disk, metrics: Bytes, run: Run)
    requires |StepsOf(disk, metrics, run)| == 7
    ensures var moved := ActAll(disk, ProtocolOf(metrics, run));
            && ActAll(disk, StepsOf(disk, metrics, run)[..7]) == Disk(moved.flushed, [Remove(StaleToml)])
            && AggregateProblems(Bind(run, MetricsText(metrics)), moved.flushed) == {}
  {
    var actions := StepsOf(disk, metrics, run);
    assert actions[..7][..6] == ProtocolOf(metrics, run);
    PairIsDurable(disk, MetricsText(metrics), BoundRun(metrics, run));
  }

  lemma HappenedSteps(disk: Disk, metrics: Bytes, run: Run, steps: nat)
    requires Possible(disk, Attempt(metrics, run, steps)) && steps <= 6
    ensures Happen(disk, Attempt(metrics, run, steps)) == ActAll(disk, ProtocolOf(metrics, run)[..steps])
  {
    assert StepsOf(disk, metrics, run)[..steps] == ProtocolOf(metrics, run)[..steps];
  }

  /** Once the removal of the old run.json was flushed, all that can be left is no run.json or the new pair. */
  lemma NoOldPairAfterTheFlush(disk: Disk, event: Event, left: Directory)
    requires Possible(disk, event) && event.Attempt? && event.steps >= 2 && CanLeave(Happen(disk, event), left)
    ensures RunJson !in left || HoldsPair(left, MetricsText(event.metrics), BoundRun(event.metrics, event.run))
  {
    var metrics, run := MetricsText(event.metrics), BoundRun(event.metrics, event.run);
    if event.steps == 7 {
      FinishedIsDurable(disk, event, left);
    } else {
      HappenedSteps(disk, event.metrics, event.run, event.steps);
      StepStates(disk, metrics, run, event.steps);
      var now := Happen(disk, event);
      var kept :| |kept| == |now.pending| && left == Outcome(now.flushed, now.pending, kept);
      if 2 <= event.steps <= 4 {
        OutcomesLegitimate(now.flushed, now.pending, kept, {});
      } else if event.steps == 5 {
        var before := CanLeaveMore(Disk(now.flushed, []), Install(RunJson, run), left);
        CanLeaveFlushed(now.flushed, before);
      }
    }
  }

  /** A publication that made its six moves is durable: whatever a power loss leaves holds exactly the new pair. */
  lemma FinishedIsDurable(disk: Disk, event: Event, left: Directory)
    requires Possible(disk, event) && event.Attempt? && event.steps >= 6 && CanLeave(Happen(disk, event), left)
    ensures HoldsPair(left, MetricsText(event.metrics), BoundRun(event.metrics, event.run))
  {
    var metrics, run := MetricsText(event.metrics), BoundRun(event.metrics, event.run);
    PairIsDurable(disk, metrics, run);
    var moved := ActAll(disk, ProtocolOf(event.metrics, event.run));
    assert ProtocolOf(event.metrics, event.run)[..6] == ProtocolOf(event.metrics, event.run);
    if event.steps == 6 {
      HappenedSteps(disk, event.metrics, event.run, 6);
      CanLeaveFlushed(moved.flushed, left);
    } else {
      SeventhStep(disk, event.metrics, event.run);
      var before := CanLeaveMore(moved, Remove(StaleToml), left);
      CanLeaveFlushed(moved.flushed, before);
    }
  }

  /**
   Crash safety, event by event and from any disk: what a power loss can leave after a publication cut at any step, or
   after a power loss, is no run.json, a pair it could have left before, or the new pair.
   */
  lemma OldPairOrNew(disk: Disk, event: Event, pair: Pair)
    requires Possible(disk, event) && CouldHold(Happen(disk, event), pair)
    ensures CouldHold(disk, pair) || pair in NewPair(event)
  {
    var left :| CanLeave(Happen(disk, event), left) && RunJson in left && Pair(Held(left), left[RunJson]) == pair;
    if event.PowerLoss? {
      var d := Outcome(disk.flushed, disk.pending, event.kept);
      CanLeaveFlushed(d, left);
      assert CanLeave(disk, left);
    } else if event.steps >= 2 {
      NoOldPairAfterTheFlush(disk, event, left);
    } else {
      HappenedSteps(disk, event.metrics, event.run, event.steps);
      StepStates(disk, MetricsText(event.metrics), BoundRun(event.metrics, event.run), event.steps);
      if event.steps == 1 {
        var before := CanLeaveMore(disk, Remove(RunJson), left);
      }
    }
  }

  /** The marker is there in whatever a power loss can leave. */
  ghost predicate MarkerStays(disk: Disk) {
    StaleToml in disk.flushed && forall op | op in disk.pending :: op != Remove(StaleToml)
  }

  lemma {:induction false} MarkerStaysInOutcomes(d: Directory, pending: seq<Operation>, kept: seq<bool>)
    requires |kept| == |pending| && MarkerStays(Disk(d, pending))
    ensures StaleToml in Outcome(d, pending, kept)
    decreases |pending|
  {
    if pending != [] {
      assert pending[0] in pending && forall op | op in pending[1..] :: op in pending;
      MarkerStaysInOutcomes(if kept[0] then Apply(d, pending[0]) else d, pending[1..], kept[1..]);
    }
  }

  lemma {:induction false} MarkerStaysThroughMoves(disk: Disk, metrics: Content, run: Content, n: nat)
    requires n <= 6 && MarkerStays(disk)
    ensures MarkerStays(ActAll(disk, Protocol(metrics, run)[..n]))
  {
    var actions := Protocol(metrics, run);
    if n == 0 {
      assert actions[..0] == [];
    } else {
      MarkerStaysThroughMoves(disk, metrics, run, n - 1);
      assert actions[..n][..n - 1] == actions[..n - 1];
      var before := ActAll(disk, actions[..n - 1]);
      MarkerStaysInOutcomes(before.flushed, before.pending, AllKept(|before.pending|));
    }
  }

  /** Only a publication that found all well takes the marker away: any other event leaves it. */
  lemma OnlyAFinishedPublicationClears(disk: Disk, event: Event)
    requires Possible(disk, event) && MarkerStays(disk) && (event.Attempt? ==> event.steps < 7)
    ensures MarkerStays(Happen(disk, event))
  {
    match event
    case Attempt(metrics, run, steps) =>
      HappenedSteps(disk, metrics, run, steps);
      MarkerStaysThroughMoves(disk, MetricsText(metrics), BoundRun(metrics, run), steps);
    case PowerLoss(kept) =>
      MarkerStaysInOutcomes(disk.flushed, disk.pending, kept);
  }

  /**
   A marker an event takes away, in any directory a power loss can leave, is gone beside the pair of that very
   publication, one aggregate with its evidence.
   */
  lemma ClearedBesideItsPair(disk: Disk, event: Event, left: Directory)
    requires Possible(disk, event) && MarkerStays(disk) && CanLeave(Happen(disk, event), left) && StaleToml !in left
    ensures event.Attempt? && event.steps == 7
    ensures HoldsPair(left, MetricsText(event.metrics), BoundRun(event.metrics, event.run))
    ensures AggregateProblems(Bind(event.run, MetricsText(event.metrics)), left) == {}
  {
    if event.Attempt? ==> event.steps < 7 {
      OnlyAFinishedPublicationClears(disk, event);
      var now := Happen(disk, event);
      var kept :| |kept| == |now.pending| && left == Outcome(now.flushed, now.pending, kept);
      MarkerStaysInOutcomes(now.flushed, now.pending, kept);
    } else {
      FinishedIsDurable(disk, event, left);
      SeventhStep(disk, event.metrics, event.run);
      var moved := ActAll(disk, ProtocolOf(event.metrics, event.run));
      PairIsDurable(disk, MetricsText(event.metrics), BoundRun(event.metrics, event.run));
      var before := CanLeaveMore(moved, Remove(StaleToml), left);
      CanLeaveFlushed(moved.flushed, before);
    }
  }

  // ---------------------------------------------------------------- whole histories

  lemma LiveCanBeLeft(disk: Disk)
    ensures CanLeave(disk, Live(disk))
  {
  }

  function OldPair(d: Directory): set<Pair> {
    if RunJson in d then {Pair(Held(d), d[RunJson])} else {}
  }

  /** No publication after event `i` got as far as flushing the removal of run.json. */
  ghost predicate Lasts(events: seq<Event>, i: int) {
    forall j | 0 <= j < |events| && j > i && events[j].Attempt? :: events[j].steps < 2
  }

  /** The pair `pair` is the one from before the history, or of its event `i`, and nothing has replaced it since. */
  ghost predicate Current(d: Directory, events: seq<Event>, i: int, pair: Pair) {
    -1 <= i < |events| && pair in (if i == -1 then OldPair(d) else NewPair(events[i])) && Lasts(events, i)
  }

  /**
   Over any sequence of publications, each cut at any step, and of power losses: a pair that is there, or that a power
   loss now can leave, is the one the directory started with or one a publication wrote, and no later publication has
   removed it for good.
   */
  lemma {:induction false} PairsNeverMix(disks: seq<Disk>, events: seq<Event>, d: Directory, pair: Pair)
    requires History(disks, events) && disks[0] == Disk(d, []) && CouldHold(disks[|events|], pair)
    ensures exists i :: Current(d, events, i, pair)
  {
    if events == [] {
      var left :| CanLeave(disks[0], left) && RunJson in left && Pair(Held(left), left[RunJson]) == pair;
      CanLeaveFlushed(d, left);
      assert Current(d, events, -1, pair);
    } else {
      var n := |events| - 1;
      OldPairOrNew(disks[n], events[n], pair);
      if pair in NewPair(events[n]) {
        assert Current(d, events, n, pair);
      } else {
        OldPairWasNotFlushed(disks[n], events[n], pair);
        HistoryBefore(disks, events);
        PairsNeverMix(disks[..n + 1], events[..n], d, pair);
        var i :| Current(d, events[..n], i, pair);
        CurrentStays(d, events, i, pair);
      }
    }
  }

  lemma HistoryBefore(disks: seq<Disk>, events: seq<Event>)
    requires History(disks, events) && events != []
    ensures History(disks[..|events|], events[..|events| - 1])
  {
  }

  lemma OldPairWasNotFlushed(disk: Disk, event: Event, pair: Pair)
    requires Possible(disk, event) && CouldHold(Happen(disk, event), pair) && pair !in NewPair(event)
    ensures event.Attempt? ==> event.steps < 2
  {
    if event.Attempt? && event.steps >= 2 {
      var left :| CanLeave(Happen(disk, event), left) && RunJson in left && Pair(Held(left), left[RunJson]) == pair;
      NoOldPairAfterTheFlush(disk, event, left);
    }
  }

  lemma CurrentStays(d: Directory, events: seq<Event>, i: int, pair: Pair)
    requires events != [] && Current(d, events[..|events| - 1], i, pair)
    requires events[|events| - 1].Attempt? ==> events[|events| - 1].steps < 2
    ensures Current(d, events, i, pair)
  {
    var n := |events| - 1;
    assert i >= 0 ==> events[..n][i] == events[i];
    forall j | 0 <= j < |events| && j > i && events[j].Attempt?
      ensures events[j].steps < 2
    {
      assert j < n ==> events[..n][j] == events[j];
    }
  }

  /** run.json, if there is one, is the run.json of the metrics.json beside it. */
  ghost predicate Matched(d: Directory) {
    RunJson in d ==> d[RunJson].content.RunText? && MetricsJson in d
                     && d[RunJson].content.run.metricsSha256 == Some(Sha256(d[MetricsJson].content))
  }

  /** A directory that starts with no run.json, or with a matching pair, never holds any other. */
  lemma AlwaysMatched(disks: seq<Disk>, events: seq<Event>, d: Directory)
    requires History(disks, events) && disks[0] == Disk(d, []) && Matched(d)
    ensures Matched(Live(disks[|events|]))
    ensures forall left | CanLeave(disks[|events|], left) :: Matched(left)
  {
    forall left | CanLeave(disks[|events|], left)
      ensures Matched(left)
    {
      if RunJson in left {
        var pair := Pair(Held(left), left[RunJson]);
        assert CouldHold(disks[|events|], pair);
        PairsNeverMix(disks, events, d, pair);
        var i :| Current(d, events, i, pair);
      }
    }
    LiveCanBeLeft(disks[|events|]);
  }

  /** A pair whose six moves were made is there for good: only a later publication replaces it. */
  lemma {:induction false} FinishedStays(disks: seq<Disk>, events: seq<Event>, i: nat, left: Directory)
    requires History(disks, events) && i < |events| && events[i].Attempt? && events[i].steps >= 6
    requires forall j | i < j < |events| :: events[j].PowerLoss? || events[j].steps == 0
    requires CanLeave(disks[|events|], left)
    ensures HoldsPair(left, MetricsText(events[i].metrics), BoundRun(events[i].metrics, events[i].run))
  {
    var n := |events| - 1;
    if i == n {
      FinishedIsDurable(disks[n], events[n], left);
    } else {
      match events[n] {
        case Attempt(metrics, run, steps) =>
          HappenedSteps(disks[n], metrics, run, 0);
          StepStates(disks[n], MetricsText(metrics), BoundRun(metrics, run), 0);
        case PowerLoss(kept) =>
          CanLeaveFlushed(Outcome(disks[n].flushed, disks[n].pending, kept), left);
      }
      FinishedStays(disks[..n + 1], events[..n], i, left);
    }
  }

  /** A stale marker that was there at the start is missing only after a publication that found all well. */
  lemma {:induction false} MarkerIsNeverLost(disks: seq<Disk>, events: seq<Event>, d: Directory, left: Directory)
    requires History(disks, events) && disks[0] == Disk(d, []) && StaleToml in d
    requires CanLeave(disks[|events|], left) && StaleToml !in left
    ensures exists i | 0 <= i < |events| :: events[i].Attempt? && events[i].steps == 7
  {
    if forall i | 0 <= i < |events| && events[i].Attempt? :: events[i].steps < 7 {
      MarkerStaysOverHistory(disks, events, d);
      var now := disks[|events|];
      var kept :| |kept| == |now.pending| && left == Outcome(now.flushed, now.pending, kept);
      MarkerStaysInOutcomes(now.flushed, now.pending, kept);
    } else {
      var i :| 0 <= i < |events| && events[i].Attempt? && events[i].steps >= 7;
      assert Possible(disks[i], events[i]);
    }
  }

  lemma {:induction false} MarkerStaysOverHistory(disks: seq<Disk>, events: seq<Event>, d: Directory)
    requires History(disks, events) && disks[0] == Disk(d, []) && StaleToml in d
    requires forall i | 0 <= i < |events| && events[i].Attempt? :: events[i].steps < 7
    ensures MarkerStays(disks[|events|])
  {
    if events != [] {
      var n := |events| - 1;
      MarkerStaysOverHistory(disks[..n + 1], events[..n], d);
      OnlyAFinishedPublicationClears(disks[n], events[n]);
    }
  }

  /** So every state `Publish` takes the disk through is safe for the pairs there were and the new one. */
  lemma PublishedStatesAreSafe(start: Disk, metrics: Bytes, run: Run, states: seq<Disk>, end: Disk, pairs: set<Pair>)
    requires Follows(start, StepsOf(start, metrics, run), states, end) && Safe(start, pairs)
    requires NewPair(Attempt(metrics, run, 0)) <= pairs
    ensures forall i | 0 <= i < |states| :: Safe(states[i], pairs)
  {
    var pair := Pair(Some(Regular(MetricsText(metrics))), Regular(BoundRun(metrics, run)));
    assert pair in NewPair(Attempt(metrics, run, 0));
    forall i | 0 <= i < |states|
      ensures Safe(states[i], pairs)
    {
      if i < 6 {
        assert StepsOf(start, metrics, run)[..i + 1] == ProtocolOf(metrics, run)[..i + 1];
        ProtocolIsSafe(start, MetricsText(metrics), BoundRun(metrics, run), i + 1, pairs);
      } else {
        SeventhStep(start, metrics, run);
        PairIsDurable(start, MetricsText(metrics), BoundRun(metrics, run));
      }
    }
  }

  // ---------------------------------------------------------------- why the steps are as they are

  /** Without the flush after the removal, a power loss can leave the old run.json beside new metrics. */
  lemma WithoutTheFlushPairsMix(oldMetrics: Content, oldRun: Content, metrics: Content)
    ensures var d := map[MetricsJson := Regular(oldMetrics), RunJson := Regular(oldRun)];
            CanLeave(Act(Act(Disk(d, []), Do(Remove(RunJson))), Do(Install(MetricsJson, metrics))),
                     map[MetricsJson := Regular(metrics), RunJson := Regular(oldRun)])
  {
    var d := map[MetricsJson := Regular(oldMetrics), RunJson := Regular(oldRun)];
    var pending := [Remove(RunJson), Install(MetricsJson, metrics)];
    var kept := [false, true];
    assert pending[1..] == [Install(MetricsJson, metrics)] && kept[1..] == [true];
    assert pending[1..][1..] == [];
    assert Outcome(d, pending, kept) == Outcome(d, pending[1..], kept[1..]);
    assert Outcome(d, pending[1..], kept[1..]) == Apply(d, pending[1]);
    assert Apply(d, pending[1]) == map[MetricsJson := Regular(metrics), RunJson := Regular(oldRun)];
    assert Act(Act(Disk(d, []), Do(Remove(RunJson))), Do(Install(MetricsJson, metrics))) == Disk(d, pending);
  }

  lemma {:induction false} ActAllConcat(disk: Disk, a: seq<Action>, b: seq<Action>)
    ensures ActAll(disk, a + b) == ActAll(ActAll(disk, a), b)
  {
    if b == [] {
      assert a + b == a;
    } else {
      ActAllConcat(disk, a, b[..|b| - 1]);
      assert (a + b)[..|a + b| - 1] == a + b[..|b| - 1];
    }
  }

  // ---------------------------------------------------------------- two publishers at once

  function Count(turns: seq<bool>, who: bool): nat {
    if turns == [] then 0 else Count(turns[..|turns| - 1], who) + if turns[|turns| - 1] == who then 1 else 0
  }

  /** Two publishers' actions in the order in which they take turns. */
  function Merge(a: seq<Action>, b: seq<Action>, turns: seq<bool>): seq<Action>
    requires Count(turns, true) <= |a| && Count(turns, false) <= |b|
  {
    if turns == [] then []
    else
      var before, last := turns[..|turns| - 1], turns[|turns| - 1];
      Merge(a, b, before) + [if last then a[Count(before, true)] else b[Count(before, false)]]
  }

  /** Who of the two took action number `k` of theirs last. */
  function LastToDo(turns: seq<bool>, k: nat): bool {
    if turns == [] then true
    else
      var before, last := turns[..|turns| - 1], turns[|turns| - 1];
      if Count(before, last) == k then last else LastToDo(before, k)
  }

  function Chosen<T>(who: bool, x: T, y: T): T {
    if who then x else y
  }

  /** What the two leave: the metrics of the last to install metrics, and the run.json of the last to install one. */
  lemma {:induction false} LastInstallsStand(
    disk: Disk, first: Bytes, run: Run, second: Bytes, other: Run, turns: seq<bool>)
    requires Count(turns, true) <= 6 && Count(turns, false) <= 6
    ensures var now := Live(ActAll(disk, Merge(ProtocolOf(first, run), ProtocolOf(second, other), turns)));
            && (Count(turns, true) >= 3 || Count(turns, false) >= 3 ==>
                  Held(now) == Some(Regular(MetricsText(Chosen(LastToDo(turns, 2), first, second)))))
            && (Count(turns, true) >= 5 && Count(turns, false) >= 5 ==>
                  RunJson in now
                  && now[RunJson] == Regular(Chosen(LastToDo(turns, 4), BoundRun(first, run), BoundRun(second, other))))
  {
    if turns != [] {
      var before, last := turns[..|turns| - 1], turns[|turns| - 1];
      LastInstallsStand(disk, first, run, second, other, before);
      var a, b := ProtocolOf(first, run), ProtocolOf(second, other);
      var merged := Merge(a, b, turns);
      assert merged[..|merged| - 1] == Merge(a, b, before);
      var was := ActAll(disk, Merge(a, b, before));
      var action := if last then a[Count(before, true)] else b[Count(before, false)];
      assert ActAll(disk, merged) == Act(was, action);
      if action.Do? {
        LiveAfter(was, action.op);
      } else {
        FlushedIsLive(was);
      }
    }
  }

  lemma FlushedIsLive(disk: Disk)
    ensures Live(Act(disk, Flush)) == Live(disk)
  {
    assert AllKept(0) == [];
  }

  /**
   However two publishers interleave, once both are done the directory holds one aggregate's files if and only if one
   of them made both the last metrics.json and the last run.json, or both published the same metrics.
   */
  lemma TwoPublishersMatchExactly(disk: Disk, first: Bytes, run: Run, second: Bytes, other: Run, turns: seq<bool>)
    requires Count(turns, true) == 6 && Count(turns, false) == 6
    ensures Matched(Live(ActAll(disk, Merge(ProtocolOf(first, run), ProtocolOf(second, other), turns)))) <==>
            LastToDo(turns, 2) == LastToDo(turns, 4) || first == second
  {
    LastInstallsStand(disk, first, run, second, other, turns);
  }

  /**
   One way in which they mix: the second publishes up to its metrics.json while the first is about to install its
   run.json. `aggregate_problems` reports it.
   */
  lemma TwoPublishersCanMix(d: Directory, first: Bytes, second: Bytes, run: Run, other: Run)
    requires first != second
    ensures var a, b := ProtocolOf(first, run), ProtocolOf(second, other);
            var mixed := Live(ActAll(Disk(d, []), a[..4] + b[..4] + a[4..]));
            !Matched(mixed) && AggregateProblems(Bind(run, MetricsText(first)), mixed) != {}
  {
    var a, b := ProtocolOf(first, run), ProtocolOf(second, other);
    var bound := Bind(run, MetricsText(first));
    var before := ActAll(Disk(d, []), a[..4]);
    ActAllConcat(Disk(d, []), a[..4], b[..4]);
    ActAllConcat(Disk(d, []), a[..4] + b[..4], a[4..]);
    var pairs := NewPair(Attempt(second, other, 4)) + NewPair(Attempt(first, run, 4)) + OldPair(d);
    FlushedIsSafe(d, pairs);
    ProtocolIsSafe(Disk(d, []), MetricsText(first), RunText(bound), 4, pairs);
    ProtocolIsSafe(before, MetricsText(second), RunText(Bind(other, MetricsText(second))), 4, pairs);
    var middle := ActAll(before, b[..4]);
    assert a[4..] == [Do(Install(RunJson, RunText(bound))), Flush];
    FlushAfter(middle, a[4..], 2);
    assert a[4..][..2] == a[4..] && a[4..][..0] == [];
    var mixed := Live(ActAll(middle, a[4..]));
    assert mixed == Apply(middle.flushed, Install(RunJson, RunText(bound)));
    NoProblemIsOneAggregate(bound, mixed);
  }
}
