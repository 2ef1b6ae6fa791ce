/**
 The stale marker of archived results (`experiment_records.marker_errors`): which commit it may name
 as the first change after the results, and that a marker once accepted stays accepted.

 Which commits changed a provenance file is fixed here (`changed`), and for a listed experiment so is
 which commits left its manifest or the registry other than the results' commit holds them (`moved`).
 */
module StaleMarker {
  import opened Basics
  import opened CommitGraph

  /** What git is asked about: the history and the two kinds of change. */
  datatype Repository = Repository(graph: Graph, changed: set<Commit>, moved: map<Commit, set<Commit>>)

  /** A change after `base`: of a provenance file, or, for a listed experiment, of the files completing it. */
  ghost predicate IsChange(repo: Repository, listed: bool, base: Commit, c: Commit) {
    c in repo.changed || (listed && base in repo.moved && c in repo.moved[base])
  }

  ghost predicate Distinct<T>(xs: seq<T>) {
    forall i, j | 0 <= i < j < |xs| :: xs[i] != xs[j]
  }

  /** Parents before children. */
  ghost predicate Topological(g: Graph, xs: seq<Commit>)
    requires Acyclic(g)
  {
    forall i, j | 0 <= i < j < |xs| :: !Descends(g, xs[j], xs[i])
  }

  /** What `rev-list --reverse --topo-order --ancestry-path base..head` prints of the commits in `of`. */
  ghost predicate Lists(g: Graph, base: Commit, head: Commit, of: set<Commit>, xs: seq<Commit>)
    requires Acyclic(g)
  {
    && Distinct(xs)
    && Topological(g, xs)
    && forall c :: c in xs <==> Between(g, base, c, head) && c in of
  }

  /** The changes after `base` up to `head`, in one order, parents before children. */
  ghost predicate ListsChanges(repo: Repository, listed: bool, base: Commit, head: Commit, xs: seq<Commit>)
    requires Acyclic(repo.graph)
  {
    && Distinct(xs)
    && Topological(repo.graph, xs)
    && forall c :: c in xs <==> Between(repo.graph, base, c, head) && IsChange(repo, listed, base, c)
  }

  function Keep(xs: seq<Commit>, counted: set<Commit>): seq<Commit> {
    if xs == [] then [] else (if xs[0] in counted then [xs[0]] else []) + Keep(xs[1..], counted)
  }

  lemma {:induction false} KeepKeepsOrder(g: Graph, xs: seq<Commit>, counted: set<Commit>)
    requires Acyclic(g) && Distinct(xs) && Topological(g, xs)
    ensures Distinct(Keep(xs, counted)) && Topological(g, Keep(xs, counted))
    ensures forall c :: c in Keep(xs, counted) <==> c in xs && c in counted
  {
    if xs != [] {
      var rest := Keep(xs[1..], counted);
      KeepKeepsOrder(g, xs[1..], counted);
      assert xs == [xs[0]] + xs[1..];
      forall j | 0 <= j < |rest|
        ensures rest[j] != xs[0] && !Descends(g, rest[j], xs[0])
      {
        assert rest[j] in xs[1..];
        var k :| 0 <= k < |xs[1..]| && xs[1..][k] == rest[j];
        assert xs[k + 1] == rest[j];
      }
    }
  }

  /**
   `changes_after_results`. The three listings are git's: of the commits that changed a provenance
   file, of those that touched the files completing the experiment moves, and of all.
   */
  method ChangesAfterResults(
    repo: Repository, listed: bool, base: Commit, head: Commit,
    found: seq<Commit>, touched: seq<Commit>, every: seq<Commit>, ghost all: set<Commit>, ghost touching: set<Commit>)
    returns (changes: seq<Commit>)
    requires Acyclic(repo.graph)
    requires Lists(repo.graph, base, head, repo.changed, found)
    requires Lists(repo.graph, base, head, touching, touched) && (base in repo.moved ==> repo.moved[base] <= touching)
    requires Lists(repo.graph, base, head, all, every) && forall c | Between(repo.graph, base, c, head) :: c in all
    ensures ListsChanges(repo, listed, base, head, changes)
  {
    if !listed {
      return found;
    }
    var moved := set c | c in touched && base in repo.moved && c in repo.moved[base];
    if moved == {} {
      forall c | Between(repo.graph, base, c, head)
        ensures !(base in repo.moved && c in repo.moved[base])
      {
        assert base in repo.moved && c in repo.moved[base] ==> c in moved;
      }
      return found;
    }
    var counted := (set c | c in found) + moved;
    KeepKeepsOrder(repo.graph, every, counted);
    changes := Keep(every, counted);
  }

  // ---------------------------------------------------------------- the commit the marker may name

  /** The rule of `marker_errors`: `since` is listed, and alone up to itself. */
  predicate AcceptsSince(since: Commit, changes: seq<Commit>, upToSince: seq<Commit>) {
    since in changes && upToSince == [since]
  }

  /** A first change: a change after the results on HEAD's history with no other one on its own. */
  ghost predicate FirstChange(repo: Repository, listed: bool, base: Commit, head: Commit, since: Commit)
    requires Acyclic(repo.graph)
  {
    && Between(repo.graph, base, since, head)
    && IsChange(repo, listed, base, since)
    && forall c | Between(repo.graph, base, c, since) && IsChange(repo, listed, base, c) :: c == since
  }

  lemma OnlyElement<T(!new)>(xs: seq<T>, x: T)
    requires Distinct(xs) && x in xs && forall y | y in xs :: y == x
    ensures xs == [x]
  {
    if |xs| != 1 {
      TwoElements(xs);
    }
  }

  lemma TwoElements<T(!new)>(xs: seq<T>)
    requires Distinct(xs) && |xs| > 1
    ensures exists y, z | y in xs && z in xs :: y != z
  {
    assert xs[0] in xs && xs[1] in xs && xs[0] != xs[1];
  }

  /** The rule accepts exactly the first changes, whichever way git orders its listings. */
  lemma AcceptedExactlyFirstChanges(
    repo: Repository, listed: bool, base: Commit, head: Commit, since: Commit, changes: seq<Commit>,
    upToSince: seq<Commit>)
    requires Acyclic(repo.graph)
    requires ListsChanges(repo, listed, base, head, changes) && ListsChanges(repo, listed, base, since, upToSince)
    ensures AcceptsSince(since, changes, upToSince) <==> FirstChange(repo, listed, base, head, since)
  {
    if FirstChange(repo, listed, base, head, since) {
      assert since in changes;
      ReachesDeeper(repo.graph, since, head);
      assert Reaches(repo.graph, since, since);
      assert since in upToSince;
      OnlyElement(upToSince, since);
    }
    if AcceptsSince(since, changes, upToSince) {
      forall c | Between(repo.graph, base, c, since) && IsChange(repo, listed, base, c)
        ensures c == since
      {
        assert c in upToSince;
      }
    }
  }

  /** Whenever there is a change after the results, there is a first one, on the history of any of them. */
  lemma {:induction false} FirstChangeExists(repo: Repository, listed: bool, base: Commit, head: Commit, c: Commit)
    returns (since: Commit)
    requires Acyclic(repo.graph) && Between(repo.graph, base, c, head) && IsChange(repo, listed, base, c)
    ensures FirstChange(repo, listed, base, head, since) && Reaches(repo.graph, since, c)
    decreases if c in repo.graph.depth then repo.graph.depth[c] else 0
  {
    ReachesDeeper(repo.graph, c, head);
    if d :| Between(repo.graph, base, d, c) && IsChange(repo, listed, base, d) && d != c {
      ReachesDeeper(repo.graph, d, c);
      ReachesTransitive(repo.graph, d, c, head);
      since := FirstChangeExists(repo, listed, base, head, d);
      ReachesTransitive(repo.graph, since, d, c);
    } else {
      since := c;
      assert Reaches(repo.graph, c, c);
    }
  }

  /** History grew, and what the old commits changed is what they changed. */
  ghost predicate RepositoryGrewInto(repo: Repository, later: Repository, listed: bool, base: Commit) {
    && GrewInto(repo.graph, later.graph)
    && forall c | c in repo.graph.parents :: IsChange(repo, listed, base, c) <==> IsChange(later, listed, base, c)
  }

  /**
   When HEAD moves on to any descendant, merges of any other lines included, a commit on the old
   HEAD's history is a first change exactly when it was one before.
   */
  lemma FirstChangesStay(
    repo: Repository, later: Repository, listed: bool, base: Commit, head: Commit, newHead: Commit, since: Commit)
    requires Acyclic(repo.graph) && Acyclic(later.graph) && RepositoryGrewInto(repo, later, listed, base)
    requires head in repo.graph.parents && Reaches(later.graph, head, newHead)
    requires Reaches(repo.graph, since, head)
    ensures FirstChange(repo, listed, base, head, since) <==> FirstChange(later, listed, base, newHead, since)
  {
    ReachesDeeper(repo.graph, since, head);
    HistoryIsFixed(repo.graph, later.graph, since, head);
    HistoryIsFixed(repo.graph, later.graph, base, since);
    ReachesTransitive(later.graph, since, head, newHead);
    forall c
      ensures Between(repo.graph, base, c, since) <==> Between(later.graph, base, c, since)
      ensures Between(repo.graph, base, c, since) ==> c in repo.graph.parents
    {
      HistoryIsFixed(repo.graph, later.graph, c, since);
      if Reaches(repo.graph, c, since) {
        ReachesDeeper(repo.graph, c, since);
        HistoryIsFixed(repo.graph, later.graph, base, c);
      }
    }
  }

  // ---------------------------------------------------------------- the whole marker

  datatype Marker = Marker(results: Option<string>, since: Option<string>, reason: Option<string>)

  datatype Finding = NoResults | NoSince | NoReasonKey | NoReason | ResultsNotACommit | SinceNotACommit
                   | OtherResults | NotOnHistory | NotFirst

  predicate Blank(s: string) {
    forall i | 0 <= i < |s| :: s[i] in {' ', '\t', '\n', '\r'}
  }

  function Resolve(names: map<string, Commit>, name: string): Option<Commit> {
    if name in names then Some(names[name]) else None
  }

  function MissingKeys(marker: Marker): set<Finding> {
    (if marker.results.None? then {NoResults} else {})
    + (if marker.since.None? then {NoSince} else {})
    + (if marker.reason.None? then {NoReasonKey} else {})
  }

  function BadFields(marker: Marker, names: map<string, Commit>): set<Finding>
    requires MissingKeys(marker) == {}
  {
    assert marker.results.Some? by { assert marker.results.None? ==> NoResults in MissingKeys(marker); }
    assert marker.since.Some? by { assert marker.since.None? ==> NoSince in MissingKeys(marker); }
    assert marker.reason.Some? by { assert marker.reason.None? ==> NoReasonKey in MissingKeys(marker); }
    (if Blank(marker.reason.value) then {NoReason} else {})
    + (if Resolve(names, marker.results.value).None? then {ResultsNotACommit} else {})
    + (if Resolve(names, marker.since.value).None? then {SinceNotACommit} else {})
  }

  /** The marker is honest: it gives a reason and names the results and a first change after them. */
  ghost predicate Honest(
    marker: Marker, names: map<string, Commit>, same: set<Commit>, repo: Repository, listed: bool, head: Commit)
    requires Acyclic(repo.graph)
  {
    && marker.results.Some? && marker.since.Some? && marker.reason.Some? && !Blank(marker.reason.value)
    && marker.results.value in names && marker.since.value in names
    && names[marker.results.value] in same
    && Reaches(repo.graph, names[marker.results.value], head)
    && FirstChange(repo, listed, names[marker.results.value], head, names[marker.since.value])
  }

  /** Git answers for the commits the marker names: their changes, up to HEAD and up to `stale_since`. */
  ghost predicate GitLists(
    marker: Marker, names: map<string, Commit>, repo: Repository, listed: bool, head: Commit, changes: seq<Commit>,
    upToSince: seq<Commit>)
    requires Acyclic(repo.graph)
  {
    marker.results.Some? && marker.results.value in names && marker.since.Some? && marker.since.value in names ==>
      && ListsChanges(repo, listed, names[marker.results.value], head, changes)
      && ListsChanges(repo, listed, names[marker.results.value], names[marker.since.value], upToSince)
  }

  /**
   `marker_errors`: no error exactly when the marker is honest. `names` are the commits git resolves,
   `same` those at which every stale file's provenance files are those of its own run, `onHistory`
   those on HEAD's history.
   */
  method MarkerErrors(
    marker: Marker, names: map<string, Commit>, same: set<Commit>, onHistory: set<Commit>, changes: seq<Commit>,
    upToSince: seq<Commit>, ghost repo: Repository, ghost listed: bool, ghost head: Commit)
    returns (errors: set<Finding>)
    requires Acyclic(repo.graph) && forall c :: c in onHistory <==> Reaches(repo.graph, c, head)
    requires GitLists(marker, names, repo, listed, head, changes, upToSince)
    ensures errors == {} <==> Honest(marker, names, same, repo, listed, head)
  {
    errors := MissingKeys(marker);
    if errors != {} {
      return;
    }
    errors := BadFields(marker, names);
    var marked, since := Resolve(names, marker.results.value), Resolve(names, marker.since.value);
    if errors != {} {
      assert marker.results.value in names && marker.since.value in names ==> NoReason in errors;
      return;
    }
    assert !Blank(marker.reason.value) by { assert Blank(marker.reason.value) ==> NoReason in errors; }
    assert marked.Some? by { assert marked.None? ==> ResultsNotACommit in errors; }
    assert since.Some? by { assert since.None? ==> SinceNotACommit in errors; }
    if marked.value !in same {
      return {OtherResults};
    }
    if marked.value !in onHistory {
      return {NotOnHistory};
    }
    AcceptedExactlyFirstChanges(repo, listed, marked.value, head, since.value, changes, upToSince);
    if !AcceptsSince(since.value, changes, upToSince) {
      return {NotFirst};
    }
  }

  /** An honest marker stays honest however HEAD moves on. */
  lemma HonestMarkersStay(
    marker: Marker, names: map<string, Commit>, same: set<Commit>, repo: Repository, later: Repository,
    listed: bool, head: Commit, newHead: Commit)
    requires Acyclic(repo.graph) && Acyclic(later.graph) && Honest(marker, names, same, repo, listed, head)
    requires RepositoryGrewInto(repo, later, listed, names[marker.results.value])
    requires head in repo.graph.parents && Reaches(later.graph, head, newHead)
    ensures Honest(marker, names, same, later, listed, newHead)
  {
    var marked, since := names[marker.results.value], names[marker.since.value];
    HistoryIsFixed(repo.graph, later.graph, marked, head);
    ReachesTransitive(later.graph, marked, head, newHead);
    FirstChangesStay(repo, later, listed, marked, head, newHead, since);
  }
}
