/**
 The status gate of a listed experiment (`check_research_gates`): which status may follow which,
 which commits of its history go back on a status, and which of them count as its freezes.
 */
module StatusGate {
  import opened Basics
  import opened CommitGraph

  // ---------------------------------------------------------------- the order of statuses

  /** A manifest's status: the string it holds, or None for one that is no string. */
  type Status = Option<string>

  const RANK: map<string, nat> := map["prepared" := 0, "running" := 1, "completed" := 2, "failed" := 2]
  const SUPERSEDED: Status := Some("superseded")

  predicate Ranked(s: Status) {
    s.Some? && s.value in RANK
  }

  /** `may_follow`. */
  predicate MayFollow(was: Status, now: Status) {
    if was == SUPERSEDED then now == SUPERSEDED
    else if now == SUPERSEDED then Ranked(was)
    else Ranked(was) && Ranked(now) && RANK[now.value] >= RANK[was.value] && (RANK[was.value] < 2 || now == was)
  }

  predicate IsStatus(s: Status) {
    Ranked(s) || s == SUPERSEDED
  }

  /** One step of the life the design gives an experiment. */
  predicate Moves(was: Status, now: Status) {
    || (was == Some("prepared") && now == Some("running"))
    || (was == Some("running") && now in {Some("completed"), Some("failed")})
    || (Ranked(was) && now == SUPERSEDED)
  }

  /** A life, or a part of one: from a status by any number of these steps. */
  ghost predicate IsLife(path: seq<Status>) {
    path != [] && IsStatus(path[0]) && forall i | 0 <= i < |path| - 1 :: Moves(path[i], path[i + 1])
  }

  ghost predicate LeadsTo(path: seq<Status>, was: Status, now: Status) {
    IsLife(path) && path[0] == was && path[|path| - 1] == now
  }

  lemma {:induction false} LivesMoveForward(path: seq<Status>)
    requires IsLife(path)
    ensures MayFollow(path[0], path[|path| - 1])
  {
    var n := |path| - 1;
    if n > 0 {
      LivesMoveForward(path[..n]);
      assert Moves(path[n - 1], path[n]);
      MayFollowIsAPartialOrder(path[0], path[n - 1], path[n]);
    }
  }

  /** A status may follow another exactly when some life leads from the one to the other. */
  lemma MayFollowIsReachability(was: Status, now: Status)
    ensures MayFollow(was, now) <==> exists path :: LeadsTo(path, was, now)
  {
    if path :| LeadsTo(path, was, now) {
      LivesMoveForward(path);
    }
    if MayFollow(was, now) {
      var path :=
        if was == now then [was]
        else if Moves(was, now) then [was, now]
        else [was, Some("running"), now];
      assert LeadsTo(path, was, now);
    }
  }

  /** So it orders the five statuses: no status is left and come back to. */
  lemma MayFollowIsAPartialOrder(a: Status, b: Status, c: Status)
    ensures MayFollow(a, a) <==> IsStatus(a)
    ensures MayFollow(a, b) ==> IsStatus(a) && IsStatus(b)
    ensures MayFollow(a, b) && MayFollow(b, a) ==> a == b
    ensures MayFollow(a, b) && MayFollow(b, c) ==> MayFollow(a, c)
  {
  }

  // ---------------------------------------------------------------- the history of an experiment

  /** The frozen state a commit holds: the status and the digest of the rest of it. */
  datatype Frozen = Frozen(status: string, digest: string)

  /** One entry of `launch_listing`. */
  datatype Listed = Listed(commit: Commit, frozen: Option<Frozen>)

  /** What the gate reads: the listing, the statuses each listed commit holds, and git's graph. */
  datatype Record = Record(listing: seq<Listed>, held: map<Commit, seq<Status>>, graph: Graph)

  ghost predicate ValidRecord(r: Record) {
    && Acyclic(r.graph)
    && forall i | 0 <= i < |r.listing| :: r.listing[i].commit in r.held
  }

  /** A freeze of the listing is on the history of `c`. */
  ghost predicate FreezeBehind(r: Record, c: Commit)
    requires Acyclic(r.graph)
  {
    exists i | 0 <= i < |r.listing| :: r.listing[i].frozen.Some? && Descends(r.graph, r.listing[i].commit, c)
  }

  /** Entry `i` fixes the status `was`: it is frozen at it, or superseded with a freeze behind it. */
  ghost predicate Anchors(r: Record, i: int, was: Status)
    requires ValidRecord(r) && 0 <= i < |r.listing|
  {
    match r.listing[i].frozen
    case Some(frozen) => was == Some(frozen.status)
    case None => was == SUPERSEDED && SUPERSEDED in r.held[r.listing[i].commit] && FreezeBehind(r, r.listing[i].commit)
  }

  datatype Anchor = Anchor(commit: Commit, status: Status)

  ghost predicate IsAnchor(r: Record, a: Anchor)
    requires ValidRecord(r)
  {
    exists i | 0 <= i < |r.listing| :: r.listing[i].commit == a.commit && Anchors(r, i, a.status)
  }

  /** At `commit`, after `anchor`, the manifest holds `now`, which may not follow. */
  datatype Regression = Regression(anchor: Anchor, commit: Commit, now: Status)

  ghost predicate IsRegression(r: Record, e: Regression)
    requires ValidRecord(r) && e.commit in r.held
  {
    && IsAnchor(r, e.anchor)
    && Descends(r.graph, e.anchor.commit, e.commit)
    && e.now in r.held[e.commit]
    && !MayFollow(e.anchor.status, e.now)
  }

  ghost predicate GoesBack(r: Record, c: Commit)
    requires ValidRecord(r) && c in r.held
  {
    exists a, now :: IsRegression(r, Regression(a, c, now))
  }

  /** What `descendants_of` lists, for every commit it is asked about. */
  ghost predicate GitDescendants(r: Record, git: map<Commit, set<Commit>>)
    requires ValidRecord(r)
  {
    forall i | 0 <= i < |r.listing| ::
      && r.listing[i].commit in git
      && forall j | 0 <= j < |r.listing| ::
           r.listing[j].commit in git[r.listing[i].commit] <==>
               Descends(r.graph, r.listing[i].commit, r.listing[j].commit)
  }

  ghost predicate Memo(below: map<Commit, set<Commit>>, git: map<Commit, set<Commit>>) {
    forall a | a in below :: a in git && below[a] == git[a]
  }

  /** The inner `after`, which asks git once for each anchor. */
  method After(git: map<Commit, set<Commit>>, below: map<Commit, set<Commit>>, anchor: Commit, commit: Commit)
    returns (yes: bool, memo: map<Commit, set<Commit>>)
    requires anchor in git && Memo(below, git)
    ensures Memo(memo, git) && (yes <==> commit in git[anchor])
  {
    memo := if anchor in below then below else below[anchor := git[anchor]];
    yes := commit in memo[anchor];
  }

  /** The entry is a freeze at the anchor's commit and status. */
  predicate FreezesAs(entry: Listed, a: Anchor) {
    entry.frozen.Some? && a == Anchor(entry.commit, Some(entry.frozen.value.status))
  }

  /** An anchor of the first kind: a freeze, with the status frozen there. */
  ghost predicate FreezeOf(r: Record, a: Anchor) {
    exists i | 0 <= i < |r.listing| :: FreezesAs(r.listing[i], a)
  }

  /** The freezes in the order of the listing. */
  ghost function FreezesIn(listing: seq<Listed>): seq<Anchor> {
    if listing == [] then []
    else
      var last := listing[|listing| - 1];
      FreezesIn(listing[..|listing| - 1])
      + if last.frozen.Some? then [Anchor(last.commit, Some(last.frozen.value.status))] else []
  }

  method FrozenAnchors(r: Record) returns (anchors: seq<Anchor>)
    ensures anchors == FreezesIn(r.listing)
    ensures forall a :: a in anchors <==> FreezeOf(r, a)
  {
    anchors := [];
    for n := 0 to |r.listing|
      invariant anchors == FreezesIn(r.listing[..n])
    {
      assert r.listing[..n + 1][..n] == r.listing[..n];
      if r.listing[n].frozen.Some? {
        anchors := anchors + [Anchor(r.listing[n].commit, Some(r.listing[n].frozen.value.status))];
      }
    }
    assert r.listing[..|r.listing|] == r.listing;
    forall a
      ensures a in anchors <==> FreezeOf(r, a)
    {
      FreezesAreListed(r.listing, a);
    }
  }

  lemma {:induction false} FreezesAreListed(listing: seq<Listed>, a: Anchor)
    ensures a in FreezesIn(listing) <==> exists i | 0 <= i < |listing| :: FreezesAs(listing[i], a)
  {
    if listing != [] {
      var n := |listing| - 1;
      var before := listing[..n];
      FreezesAreListed(before, a);
      if i :| 0 <= i < |listing| && FreezesAs(listing[i], a) {
        assert i < n ==> before[i] == listing[i];
      }
      if i :| 0 <= i < n && FreezesAs(before[i], a) {
        assert listing[i] == before[i];
      }
    }
  }

  /** `any(after(name, commit) for name in frozen_names)`. */
  method AnyAfter(
    r: Record, git: map<Commit, set<Commit>>, below: map<Commit, set<Commit>>, frozen: seq<Anchor>, n: nat)
    returns (found: bool, memo: map<Commit, set<Commit>>)
    requires ValidRecord(r) && GitDescendants(r, git) && Memo(below, git) && n < |r.listing|
    requires forall a :: a in frozen <==> FreezeOf(r, a)
    ensures Memo(memo, git) && (found <==> FreezeBehind(r, r.listing[n].commit))
  {
    memo, found := below, false;
    for k := 0 to |frozen|
      invariant Memo(memo, git)
      invariant found <==> exists j | 0 <= j < k :: Descends(r.graph, frozen[j].commit, r.listing[n].commit)
    {
      assert FreezeOf(r, frozen[k]);
      var yes;
      yes, memo := After(git, memo, frozen[k].commit, r.listing[n].commit);
      found := found || yes;
    }
    if FreezeBehind(r, r.listing[n].commit) {
      ghost var i :| 0 <= i < |r.listing| && r.listing[i].frozen.Some?
          && Descends(r.graph, r.listing[i].commit, r.listing[n].commit);
      assert FreezeOf(r, Anchor(r.listing[i].commit, Some(r.listing[i].frozen.value.status)));
    }
    if found {
      ghost var j :| 0 <= j < |frozen| && Descends(r.graph, frozen[j].commit, r.listing[n].commit);
      assert FreezeOf(r, frozen[j]);
    }
  }

  /** An anchor of the second kind among the first `n` entries: superseded for good. */
  ghost predicate SupersededAt(r: Record, n: int, a: Anchor)
    requires ValidRecord(r) && n <= |r.listing|
  {
    exists i | 0 <= i < n :: r.listing[i].frozen.None? && r.listing[i].commit == a.commit && Anchors(r, i, a.status)
  }

  lemma AnchorKinds(r: Record)
    requires ValidRecord(r)
    ensures forall a :: IsAnchor(r, a) <==> FreezeOf(r, a) || SupersededAt(r, |r.listing|, a)
  {
  }

  /** Both kinds of anchor. */
  method AllAnchors(r: Record, git: map<Commit, set<Commit>>)
    returns (anchors: seq<Anchor>, memo: map<Commit, set<Commit>>)
    requires ValidRecord(r) && GitDescendants(r, git)
    ensures Memo(memo, git) && forall a :: a in anchors <==> IsAnchor(r, a)
  {
    anchors := FrozenAnchors(r);
    var frozen := anchors;
    memo := map[];
    for n := 0 to |r.listing|
      invariant Memo(memo, git)
      invariant forall a :: a in anchors <==> FreezeOf(r, a) || SupersededAt(r, n, a)
    {
      var commit := r.listing[n].commit;
      if r.listing[n].frozen.None? && SUPERSEDED in r.held[commit] {
        var found;
        found, memo := AnyAfter(r, git, memo, frozen, n);
        if found {
          assert Anchors(r, n, SUPERSEDED);
          anchors := anchors + [Anchor(commit, SUPERSEDED)];
        }
      }
    }
    AnchorKinds(r);
  }

  /** The first anchor, in order, that one listed commit goes back on. */
  method FirstBroken(
    r: Record, git: map<Commit, set<Commit>>, below: map<Commit, set<Commit>>, anchors: seq<Anchor>, n: nat)
    returns (broken: Option<Regression>, memo: map<Commit, set<Commit>>)
    requires ValidRecord(r) && GitDescendants(r, git) && Memo(below, git) && n < |r.listing|
    requires forall a :: a in anchors <==> IsAnchor(r, a)
    ensures Memo(memo, git)
    ensures broken.Some? <==> GoesBack(r, r.listing[n].commit)
    ensures broken.Some? ==> broken.value.commit == r.listing[n].commit && IsRegression(r, broken.value)
  {
    var commit := r.listing[n].commit;
    var statuses := r.held[commit];
    memo, broken := below, None;
    for k := 0 to |anchors|
      invariant Memo(memo, git)
      invariant forall j, m | 0 <= j < k && 0 <= m < |statuses| ::
        !IsRegression(r, Regression(anchors[j], commit, statuses[m]))
    {
      assert IsAnchor(r, anchors[k]);
      for m := 0 to |statuses|
        invariant Memo(memo, git)
        invariant forall l | 0 <= l < m :: !IsRegression(r, Regression(anchors[k], commit, statuses[l]))
      {
        if anchors[k].commit != commit && !MayFollow(anchors[k].status, statuses[m]) {
          var yes;
          yes, memo := After(git, memo, anchors[k].commit, commit);
          if yes {
            broken := Some(Regression(anchors[k], commit, statuses[m]));
            return;
          }
        }
      }
    }
    forall a, now
      ensures !IsRegression(r, Regression(a, commit, now))
    {
      if IsAnchor(r, a) && now in statuses {
        assert a in anchors;
        var j :| 0 <= j < |anchors| && anchors[j] == a;
        var m :| 0 <= m < |statuses| && statuses[m] == now;
        assert !IsRegression(r, Regression(anchors[j], commit, statuses[m]));
      }
    }
  }

  /** Those of the first `n` listed commits that go back, in the order of the listing. */
  ghost function GoingBack(r: Record, n: nat): seq<Commit>
    requires ValidRecord(r) && n <= |r.listing|
  {
    if n == 0 then []
    else GoingBack(r, n - 1) + if GoesBack(r, r.listing[n - 1].commit) then [r.listing[n - 1].commit] else []
  }

  ghost function CommitsOf(errors: seq<Regression>): seq<Commit> {
    seq(|errors|, k requires 0 <= k < |errors| => errors[k].commit)
  }

  /**
   `status_regressions`: one error for each listed commit that goes back on a status fixed on its own line of history,
   in the order of the listing, each naming such a status, and none for any other commit.
   */
  method StatusRegressions(r: Record, git: map<Commit, set<Commit>>) returns (errors: seq<Regression>)
    requires ValidRecord(r) && GitDescendants(r, git)
    ensures forall e | e in errors :: e.commit in r.held && IsRegression(r, e)
    ensures forall i | 0 <= i < |r.listing| ::
      GoesBack(r, r.listing[i].commit) <==> exists k | 0 <= k < |errors| :: errors[k].commit == r.listing[i].commit
    ensures CommitsOf(errors) == GoingBack(r, |r.listing|)
  {
    var anchors, memo := AllAnchors(r, git);
    errors := [];
    for n := 0 to |r.listing|
      invariant Memo(memo, git) && CommitsOf(errors) == GoingBack(r, n)
      invariant forall e | e in errors :: e.commit in r.held && IsRegression(r, e)
    {
      var broken;
      broken, memo := FirstBroken(r, git, memo, anchors, n);
      if broken.Some? {
        assert CommitsOf(errors + [broken.value]) == CommitsOf(errors) + [r.listing[n].commit];
        errors := errors + [broken.value];
      }
    }
    ErrorsCoverTheListing(r, errors);
  }

  lemma ErrorsCoverTheListing(r: Record, errors: seq<Regression>)
    requires ValidRecord(r) && CommitsOf(errors) == GoingBack(r, |r.listing|)
    ensures forall i | 0 <= i < |r.listing| ::
      GoesBack(r, r.listing[i].commit) <==> exists k | 0 <= k < |errors| :: errors[k].commit == r.listing[i].commit
  {
    forall i | 0 <= i < |r.listing|
      ensures GoesBack(r, r.listing[i].commit) <==>
              exists k | 0 <= k < |errors| :: errors[k].commit == r.listing[i].commit
    {
      var commit := r.listing[i].commit;
      GoingBackLists(r, |r.listing|, i);
      if commit in CommitsOf(errors) {
        var k :| 0 <= k < |errors| && CommitsOf(errors)[k] == commit;
        assert errors[k].commit == commit;
      }
      if exists k | 0 <= k < |errors| :: errors[k].commit == commit {
        var k :| 0 <= k < |errors| && errors[k].commit == commit;
        assert CommitsOf(errors)[k] == commit;
      }
    }
  }

  lemma {:induction false} GoingBackLists(r: Record, n: nat, i: nat)
    requires ValidRecord(r) && n <= |r.listing| && i < |r.listing|
    ensures r.listing[i].commit in GoingBack(r, n) ==> GoesBack(r, r.listing[i].commit)
    ensures i < n && GoesBack(r, r.listing[i].commit) ==> r.listing[i].commit in GoingBack(r, n)
  {
    if n > 0 {
      GoingBackLists(r, n - 1, i);
    }
  }

  // ---------------------------------------------------------------- what a gate without errors says

  ghost predicate NoneGoesBack(r: Record)
    requires ValidRecord(r)
  {
    forall i | 0 <= i < |r.listing| :: !GoesBack(r, r.listing[i].commit)
  }

  /**
   The gate is silent exactly when, after every freeze and every superseding that had a freeze behind
   it, each listed descendant, on any side of any merge, holds only statuses that may follow.
   */
  lemma SilentExactlyWhenForward(r: Record)
    requires ValidRecord(r)
    ensures NoneGoesBack(r) <==>
      forall i, j, was, now ::
        0 <= i < |r.listing| && 0 <= j < |r.listing| && Anchors(r, i, was)
        && Descends(r.graph, r.listing[i].commit, r.listing[j].commit) && now in r.held[r.listing[j].commit]
        ==> MayFollow(was, now)
  {
    if NoneGoesBack(r) {
      forall i, j, was, now |
        0 <= i < |r.listing| && 0 <= j < |r.listing| && Anchors(r, i, was)
        && Descends(r.graph, r.listing[i].commit, r.listing[j].commit) && now in r.held[r.listing[j].commit]
        ensures MayFollow(was, now)
      {
        assert IsAnchor(r, Anchor(r.listing[i].commit, was));
        assert !IsRegression(r, Regression(Anchor(r.listing[i].commit, was), r.listing[j].commit, now));
      }
    }
  }

  /** After a frozen completed or failed, every listed descendant holds that status or superseded. */
  lemma FinalStatusesAreFinal(r: Record, i: nat, j: nat, now: Status)
    requires ValidRecord(r) && NoneGoesBack(r) && i < |r.listing| && j < |r.listing|
    requires r.listing[i].frozen.Some? && r.listing[i].frozen.value.status in {"completed", "failed"}
    requires Descends(r.graph, r.listing[i].commit, r.listing[j].commit) && now in r.held[r.listing[j].commit]
    ensures now == Some(r.listing[i].frozen.value.status) || now == SUPERSEDED
  {
    SilentExactlyWhenForward(r);
    assert Anchors(r, i, Some(r.listing[i].frozen.value.status));
  }

  /**
   A status never goes back along a line of history: of three listed commits on one line, the first
   frozen, what the last holds may follow what was frozen; and where the one between them is frozen
   too or superseded, it may follow what that one fixes.
   */
  lemma ForwardAlongALine(r: Record, i: nat, j: nat, k: nat, mid: Status, now: Status)
    requires ValidRecord(r) && NoneGoesBack(r) && i < |r.listing| && j < |r.listing| && k < |r.listing|
    requires r.listing[i].frozen.Some?
    requires Descends(r.graph, r.listing[i].commit, r.listing[j].commit)
    requires Descends(r.graph, r.listing[j].commit, r.listing[k].commit)
    requires mid in r.held[r.listing[j].commit] && now in r.held[r.listing[k].commit]
    ensures MayFollow(Some(r.listing[i].frozen.value.status), mid)
    ensures MayFollow(Some(r.listing[i].frozen.value.status), now)
    ensures r.listing[j].frozen.Some? ==> MayFollow(Some(r.listing[j].frozen.value.status), now)
    ensures mid == SUPERSEDED && r.listing[j].frozen.None? ==> now == SUPERSEDED
  {
    SilentExactlyWhenForward(r);
    assert Anchors(r, i, Some(r.listing[i].frozen.value.status));
    ReachesTransitive(r.graph, r.listing[i].commit, r.listing[j].commit, r.listing[k].commit);
    ReachesDeeper(r.graph, r.listing[i].commit, r.listing[j].commit);
    ReachesDeeper(r.graph, r.listing[j].commit, r.listing[k].commit);
    if r.listing[j].frozen.Some? {
      assert Anchors(r, j, Some(r.listing[j].frozen.value.status));
    } else if mid == SUPERSEDED {
      assert Anchors(r, j, SUPERSEDED);
    }
  }

  // ---------------------------------------------------------------- freezes

  /** A Python dict from frozen state to commit, in the order of its keys. */
  datatype Slot = Slot(state: Frozen, commit: Commit)

  /** `states.pop(state, None)`. */
  function Pop(states: seq<Slot>, state: Frozen): seq<Slot> {
    if states == [] then []
    else if states[0].state == state then Pop(states[1..], state)
    else [states[0]] + Pop(states[1..], state)
  }

  /** Some entry of the listing holds `state`. */
  predicate Holds(listing: seq<Listed>, state: Frozen) {
    exists i | 0 <= i < |listing| :: listing[i].frozen == Some(state)
  }

  /** The entries that hold a state no later, older entry holds again, in the order of the listing. */
  function Oldest(listing: seq<Listed>): seq<Slot> {
    if listing == [] then []
    else if listing[0].frozen.Some? && !Holds(listing[1..], listing[0].frozen.value)
    then [Slot(listing[0].frozen.value, listing[0].commit)] + Oldest(listing[1..])
    else Oldest(listing[1..])
  }

  lemma {:induction false} OldestHeld(listing: seq<Listed>, k: nat)
    requires k < |Oldest(listing)|
    ensures Holds(listing, Oldest(listing)[k].state)
  {
    var first := listing[0].frozen.Some? && !Holds(listing[1..], listing[0].frozen.value);
    if first && k == 0 {
      assert listing[0].frozen == Some(Oldest(listing)[0].state);
    } else {
      var j := if first then k - 1 else k;
      OldestHeld(listing[1..], j);
      var i :| 0 <= i < |listing[1..]| && listing[1..][i].frozen == Some(Oldest(listing)[k].state);
      assert listing[i + 1].frozen == Some(Oldest(listing)[k].state);
    }
  }

  /** Reading one more, older entry: its state leaves the place it had and goes behind all others. */
  lemma {:induction false} OldestOneMore(listing: seq<Listed>, entry: Listed)
    ensures Oldest(listing + [entry]) ==
      if entry.frozen.None? then Oldest(listing)
      else Pop(Oldest(listing), entry.frozen.value) + [Slot(entry.frozen.value, entry.commit)]
  {
    var longer := listing + [entry];
    if listing == [] {
      assert longer[1..] == [];
    } else {
      OldestOneMore(listing[1..], entry);
      assert longer[1..] == listing[1..] + [entry];
      if listing[0].frozen.Some? {
        HoldsOneMore(listing[1..], entry, listing[0].frozen.value);
        if entry.frozen.Some? && entry.frozen.value == listing[0].frozen.value
           && !Holds(listing[1..], listing[0].frozen.value) {
          assert Oldest(listing)[1..] == Oldest(listing[1..]);
        }
      }
    }
  }

  lemma HoldsOneMore(listing: seq<Listed>, entry: Listed, state: Frozen)
    ensures Holds(listing + [entry], state) <==> Holds(listing, state) || entry.frozen == Some(state)
  {
    var longer := listing + [entry];
    if Holds(listing, state) {
      var i :| 0 <= i < |listing| && listing[i].frozen == Some(state);
      assert longer[i] == listing[i];
    }
    if entry.frozen == Some(state) {
      assert longer[|listing|] == entry;
    }
  }

  /** `freezes`: removing and reinserting keys comes to keeping the oldest commit of each state. */
  method Freezes(listing: seq<Listed>) returns (found: seq<(Commit, string)>)
    ensures |found| == |Oldest(listing)|
    ensures forall k | 0 <= k < |found| :: found[k] == (Oldest(listing)[k].commit, Oldest(listing)[k].state.status)
  {
    var states: seq<Slot> := [];
    for n := 0 to |listing|
      invariant states == Oldest(listing[..n])
    {
      assert listing[..n + 1] == listing[..n] + [listing[n]];
      OldestOneMore(listing[..n], listing[n]);
      if listing[n].frozen.Some? {
        states := Pop(states, listing[n].frozen.value);
        states := states + [Slot(listing[n].frozen.value, listing[n].commit)];
      }
    }
    assert listing[..|listing|] == listing;
    found := seq(|states|, k requires 0 <= k < |states| => (states[k].commit, states[k].state.status));
  }

  /** Where in the listing the `k`-th freeze is: the last, oldest entry that holds its state. */
  ghost predicate IsOldestAt(listing: seq<Listed>, slot: Slot, i: int) {
    && 0 <= i < |listing|
    && listing[i] == Listed(slot.commit, Some(slot.state))
    && forall j | i < j < |listing| :: listing[j].frozen != Some(slot.state)
  }

  lemma {:induction false} OldestAt(listing: seq<Listed>, k: nat) returns (i: nat)
    requires k < |Oldest(listing)|
    ensures IsOldestAt(listing, Oldest(listing)[k], i)
  {
    var first := listing[0].frozen.Some? && !Holds(listing[1..], listing[0].frozen.value);
    if first && k == 0 {
      i := 0;
      FirstIsOldest(listing);
    } else {
      var m := OldestAt(listing[1..], if first then k - 1 else k);
      i := m + 1;
      ShiftOldest(listing, Oldest(listing)[k], m);
    }
  }

  lemma HoldsFirstOrLater(listing: seq<Listed>, state: Frozen)
    ensures Holds(listing, state) <==> listing != [] && (listing[0].frozen == Some(state) || Holds(listing[1..], state))
  {
    if listing != [] {
      assert forall i | 0 < i < |listing| :: listing[i] == listing[1..][i - 1];
      if Holds(listing[1..], state) {
        var i :| 0 <= i < |listing[1..]| && listing[1..][i].frozen == Some(state);
        assert listing[i + 1].frozen == Some(state);
      }
    }
  }

  lemma {:induction false} EveryStateKept(listing: seq<Listed>, state: Frozen) returns (k: nat)
    requires Holds(listing, state)
    ensures k < |Oldest(listing)| && Oldest(listing)[k].state == state
  {
    HoldsFirstOrLater(listing, state);
    var first := listing[0].frozen.Some? && !Holds(listing[1..], listing[0].frozen.value);
    if Holds(listing[1..], state) {
      k := EveryStateKept(listing[1..], state);
      k := if first then k + 1 else k;
    } else {
      k := 0;
    }
  }

  lemma {:induction false} StatesDiffer(listing: seq<Listed>, k: nat, m: nat)
    requires k < m < |Oldest(listing)|
    ensures Oldest(listing)[k].state != Oldest(listing)[m].state
  {
    var first := listing[0].frozen.Some? && !Holds(listing[1..], listing[0].frozen.value);
    if first {
      if k == 0 {
        OldestHeld(listing[1..], m - 1);
      } else {
        StatesDiffer(listing[1..], k - 1, m - 1);
      }
    } else {
      StatesDiffer(listing[1..], k, m);
    }
  }

  lemma {:induction false} OrderOfListing(listing: seq<Listed>, k: nat, m: nat) returns (i: nat, j: nat)
    requires k < m < |Oldest(listing)|
    ensures i < j && IsOldestAt(listing, Oldest(listing)[k], i) && IsOldestAt(listing, Oldest(listing)[m], j)
  {
    var first := listing[0].frozen.Some? && !Holds(listing[1..], listing[0].frozen.value);
    if first && k == 0 {
      i := 0;
      FirstIsOldest(listing);
      var l := OldestAt(listing[1..], m - 1);
      j := l + 1;
      ShiftOldest(listing, Oldest(listing)[m], l);
    } else {
      var a, b := OrderOfListing(listing[1..], if first then k - 1 else k, if first then m - 1 else m);
      i, j := a + 1, b + 1;
      ShiftOldest(listing, Oldest(listing)[k], a);
      ShiftOldest(listing, Oldest(listing)[m], b);
    }
  }

  lemma FirstIsOldest(listing: seq<Listed>)
    requires listing != [] && listing[0].frozen.Some? && !Holds(listing[1..], listing[0].frozen.value)
    ensures IsOldestAt(listing, Oldest(listing)[0], 0)
  {
    forall j | 0 < j < |listing|
      ensures listing[j].frozen != listing[0].frozen
    {
      assert listing[1..][j - 1] == listing[j];
    }
  }

  lemma ShiftOldest(listing: seq<Listed>, slot: Slot, a: nat)
    requires listing != [] && IsOldestAt(listing[1..], slot, a)
    ensures IsOldestAt(listing, slot, a + 1)
  {
    forall j | a + 1 < j < |listing|
      ensures listing[j].frozen != Some(slot.state)
    {
      assert listing[1..][j - 1] == listing[j];
    }
  }

  /** `slot` names the oldest entry of its state. */
  ghost predicate NamesOldest(listing: seq<Listed>, slot: Slot) {
    exists i :: IsOldestAt(listing, slot, i)
  }

  ghost predicate ListedBefore(listing: seq<Listed>, a: Slot, b: Slot) {
    exists i, j | i < j :: IsOldestAt(listing, a, i) && IsOldestAt(listing, b, j)
  }

  /**
   What `freezes` returns: exactly one entry for each distinct frozen state, named by the oldest
   commit that holds it, in the order of the listing.
   */
  lemma OneFreezePerState(listing: seq<Listed>, kept: seq<Slot>)
    requires kept == Oldest(listing)
    ensures forall state :: Holds(listing, state) <==> exists k | 0 <= k < |kept| :: kept[k].state == state
    ensures forall k, m | 0 <= k < m < |kept| :: kept[k].state != kept[m].state
    ensures forall k | 0 <= k < |kept| :: NamesOldest(listing, kept[k])
    ensures forall k, m | 0 <= k < m < |kept| :: ListedBefore(listing, kept[k], kept[m])
  {
    forall state
      ensures Holds(listing, state) <==> exists k | 0 <= k < |kept| :: kept[k].state == state
    {
      if Holds(listing, state) {
        var k := EveryStateKept(listing, state);
        assert kept[k].state == state;
      }
      if k :| 0 <= k < |kept| && kept[k].state == state {
        OldestHeld(listing, k);
      }
    }
    forall k, m | 0 <= k < m < |kept|
      ensures kept[k].state != kept[m].state
      ensures ListedBefore(listing, kept[k], kept[m])
    {
      StatesDiffer(listing, k, m);
      var i, j := OrderOfListing(listing, k, m);
    }
    forall k | 0 <= k < |kept|
      ensures NamesOldest(listing, kept[k])
    {
      var i := OldestAt(listing, k);
    }
  }
}
