/**
 `experiment_records.ProvenanceWatch`: a run's provenance files as they were before it started, told
 apart from what they are now by their stamps, so that an edit that was undone is seen too. As the
 source assumes of its file systems, every write gives a file a stamp nothing had before, and so does every entry
 added to a directory or removed from it to the directory.
 */
module ProvenanceWatch {
  import opened Basics

  type Stamp = nat

  // ---------------------------------------------------------------- what can happen to the tree

  /**
   A write or removal by whatever program, and the two ends of a `rewriting` block. A write makes the directories on the
   way that are missing.
   */
  datatype Event = Write(name: string) | Delete(name: string) | Enter(files: set<string>) | Leave

  /**
   The files and the directories there are, each with its stamp, what the watch recorded, and the names of each open
   block.
   */
  datatype State = State(
    present: map<string, Stamp>, dirs: map<string, Stamp>, clock: Stamp,
    stamps: map<string, Option<Stamp>>, foreign: set<string>, blocks: seq<set<string>>)

  /** `posixpath.dirname` of a path as git lists it, which has no doubled slash. */
  function Dirname(name: string): (parent: string)
    ensures name != "" ==> |parent| < |name|
  {
    if name == "" || name[|name| - 1] == '/' then (if name == "" then "" else name[..|name| - 1])
    else Dirname(name[..|name| - 1])
  }

  /** The directory an entry is in; the root is `.`. */
  function Parent(name: string): string {
    if Dirname(name) == "" then "." else Dirname(name)
  }

  /** `d` and every directory above it but the root. */
  function Chain(d: string): set<string>
    decreases |d|
  {
    if d == "" then {} else {d} + Chain(Dirname(d))
  }

  function Above(name: string): set<string> {
    Chain(Dirname(name))
  }

  function StampOf(present: map<string, Stamp>, n: string): Option<Stamp> {
    if n in present then Some(present[n]) else None
  }

  /** `stamps.get(n)`. */
  function Get(stamps: map<string, Option<Stamp>>, n: string): Option<Stamp> {
    if n in stamps then stamps[n] else None
  }

  function Names(xs: seq<string>): set<string> {
    set x | x in xs
  }

  lemma OneMoreName(xs: seq<string>, i: nat)
    requires i < |xs|
    ensures Names(xs[..i + 1]) == Names(xs[..i]) + {xs[i]}
  {
    assert xs[..i + 1] == xs[..i] + [xs[i]];
  }

  /** The watched names among `names` whose stamp is not the one recorded. */
  function Changed(stamps: map<string, Option<Stamp>>, present: map<string, Stamp>, names: set<string>): set<string> {
    set n | n in names && n in stamps && StampOf(present, n) != stamps[n]
  }

  function Restamped(
    stamps: map<string, Option<Stamp>>, present: map<string, Stamp>, names: set<string>): map<string, Option<Stamp>>
  {
    stamps + map n | n in names :: StampOf(present, n)
  }

  lemma RestampOneMore(stamps: map<string, Option<Stamp>>, present: map<string, Stamp>, names: set<string>, n: string)
    ensures Restamped(stamps, present, names + {n}) == Restamped(stamps, present, names)[n := StampOf(present, n)]
  {
  }

  /** The directories a write of `n` makes. */
  function Missing(dirs: map<string, Stamp>, n: string): set<string> {
    Above(n) - dirs.Keys
  }

  /** The directories a new file disturbs: its own, those made on the way, and those they are made in. */
  function DisturbedBy(dirs: map<string, Stamp>, n: string): set<string> {
    {Parent(n)} + Missing(dirs, n) + set d | d in Missing(dirs, n) :: Parent(d)
  }

  function Disturb(dirs: map<string, Stamp>, names: set<string>, clock: Stamp): map<string, Stamp> {
    dirs + map d | d in names :: clock
  }

  /** The directories an event disturbs. */
  function Disturbed(s: State, e: Event): set<string> {
    match e
    case Write(n) => if n in s.present then {} else DisturbedBy(s.dirs, n)
    case Delete(n) => if n in s.present then {Parent(n)} else {}
    case _ => {}
  }

  function Step(s: State, e: Event): State {
    match e
    case Write(n) =>
      s.(present := s.present[n := s.clock], dirs := Disturb(s.dirs, Disturbed(s, e), s.clock), clock := s.clock + 1)
    case Delete(n) =>
      s.(present := s.present - {n}, dirs := Disturb(s.dirs, Disturbed(s, e), s.clock), clock := s.clock + 1)
    case Enter(files) =>
      var watched := files * s.stamps.Keys;
      s.(foreign := s.foreign + Changed(s.stamps, s.present, watched), blocks := s.blocks + [watched])
    case Leave =>
      if s.blocks == [] then s
      else s.(stamps := Restamped(s.stamps, s.present, s.blocks[|s.blocks| - 1]), blocks := s.blocks[..|s.blocks| - 1])
  }

  /** The files under the pathspecs: those git tracks, there or not, and those that are there. */
  function Listed(covers: string -> bool, tracked: set<string>, present: map<string, Stamp>): set<string> {
    tracked + set n | n in present && covers(n)
  }

  /** The names `changes` finds written. */
  function Written(covers: string -> bool, tracked: set<string>, s: State): set<string> {
    var now := Listed(covers, tracked, s.present);
    s.foreign + set n | n in s.stamps.Keys + now
        && Get(s.stamps, n) != (if n in now then StampOf(s.present, n) else None)
  }

  function Look(covers: string -> bool, tracked: set<string>, present: map<string, Stamp>): map<string, Option<Stamp>> {
    map n | n in Listed(covers, tracked, present) :: StampOf(present, n)
  }

  /** The directories among `directories` whose stamp is not the one recorded. */
  function Moved(directories: map<string, Option<Stamp>>, dirs: map<string, Stamp>): set<string> {
    set d | d in directories && StampOf(dirs, d) != directories[d]
  }

  function Start(
    covers: string -> bool, tracked: set<string>, present: map<string, Stamp>, dirs: map<string, Stamp>,
    clock: Stamp): State
  {
    State(present, dirs, clock, Look(covers, tracked, present), {}, [])
  }

  function After(start: State, events: seq<Event>): State {
    if events == [] then start else Step(After(start, events[..|events| - 1]), events[|events| - 1])
  }

  // ---------------------------------------------------------------- directories on the way

  /** The root and every directory above one of `names`. */
  function AboveAll(names: set<string>): set<string> {
    {"."} + set name, d | name in names && d in Above(name) :: d
  }

  /** With a directory, all above it are there. */
  ghost predicate Closed(found: set<string>) {
    forall d | d in found :: Above(d) <= found
  }

  /** The inner loop of `directories_above`: up from one name to the root, or to a directory that is there already. */
  method ClimbFrom(name: string, before: set<string>) returns (found: set<string>)
    requires Closed(before)
    ensures Closed(found) && found == before + Above(name)
  {
    found := before;
    var parent := Dirname(name);
    while parent != "" && parent !in found
      invariant before <= found && found + Chain(parent) == before + Above(name)
      invariant forall d | d in found && d !in before :: |d| > |parent| && Above(d) <= found + Chain(parent)
      decreases |parent|
    {
      found := found + {parent};
      parent := Dirname(parent);
    }
    assert Chain(parent) <= found;
  }

  /** `directories_above`. */
  method DirectoriesAbove(names: set<string>) returns (found: set<string>)
    ensures found == AboveAll(names)
  {
    found := {"."};
    var left := names;
    assert Dirname(".") == "" by {
      assert "."[..0] == "";
    }
    while left != {}
      invariant left <= names && Closed(found) && found == AboveAll(names - left)
      decreases left
    {
      var name :| name in left;
      found := ClimbFrom(name, found);
      assert names - (left - {name}) == (names - left) + {name};
      AboveOneMore(names - left, name);
      left := left - {name};
    }
    assert names - left == names;
  }

  lemma AboveOneMore(names: set<string>, name: string)
    ensures AboveAll(names + {name}) == AboveAll(names) + Above(name)
  {
  }

  /** Stamps lie before the clock, and every file is in directories that are there. */
  ghost predicate Sound(present: map<string, Stamp>, dirs: map<string, Stamp>, clock: Stamp) {
    && (forall n | n in present :: present[n] < clock && Parent(n) in dirs && Above(n) <= dirs.Keys)
    && forall d | d in dirs :: dirs[d] < clock
  }

  ghost predicate Fresh(covers: string -> bool, tracked: set<string>, present: map<string, Stamp>, clock: Stamp) {
    (forall n | n in tracked :: covers(n)) && forall n | n in present :: present[n] < clock
  }

  // ---------------------------------------------------------------- the objects

  /** The working tree, which any program may change. `covers` is what the pathspecs match. */
  class Checkout {
    const covers: string -> bool
    const tracked: set<string>
    var present: map<string, Stamp>
    var dirs: map<string, Stamp>
    var clock: Stamp
    var head: string
    var uncommitted: set<string>

    constructor (covers: string -> bool, tracked: set<string>, head: string)
      requires forall n | n in tracked :: covers(n)
      ensures Valid() && this.covers == covers && this.tracked == tracked
      ensures present == map[] && dirs == map["." := 0] && clock == 1 && this.head == head && uncommitted == {}
    {
      this.covers, this.tracked, this.head := covers, tracked, head;
      present, dirs, clock, uncommitted := map[], map["." := 0], 1, {};
    }

    ghost predicate Valid()
      reads this
    {
      Fresh(covers, tracked, present, clock) && Sound(present, dirs, clock)
    }

    method Write(n: string)
      requires Valid()
      modifies this
      ensures Valid() && head == old(head) && uncommitted == old(uncommitted)
      ensures present == old(present)[n := old(clock)] && clock == old(clock) + 1
      ensures dirs == if n in old(present) then old(dirs) else Disturb(old(dirs), DisturbedBy(old(dirs), n), old(clock))
    {
      if n !in present {
        dirs := Disturb(dirs, DisturbedBy(dirs, n), clock);
      }
      present, clock := present[n := clock], clock + 1;
    }

    method Delete(n: string)
      requires Valid()
      modifies this
      ensures Valid() && head == old(head) && uncommitted == old(uncommitted)
      ensures present == old(present) - {n} && clock == old(clock) + 1
      ensures dirs == if n in old(present) then Disturb(old(dirs), {Parent(n)}, old(clock)) else old(dirs)
    {
      if n in present {
        dirs := Disturb(dirs, {Parent(n)}, clock);
      }
      present, clock := present - {n}, clock + 1;
    }
  }

  datatype Findings = Findings(headMoved: bool, written: set<string>, moved: set<string>, uncommitted: set<string>)

  class Watch {
    const checkout: Checkout
    var head: string
    var stamps: map<string, Option<Stamp>>
    var foreign: set<string>
    var directories: map<string, Option<Stamp>>
    var reserved: map<string, Option<Stamp>>
    ghost var blocks: seq<set<string>>

    ghost function Seen(): State
      reads this, checkout
    {
      State(checkout.present, checkout.dirs, checkout.clock, stamps, foreign, blocks)
    }

    constructor (checkout: Checkout)
      requires checkout.Valid()
      ensures Fresh(checkout.covers, checkout.tracked, checkout.present, checkout.clock)
      ensures Sound(checkout.present, checkout.dirs, checkout.clock)
      ensures this.checkout == checkout && head == checkout.head
      ensures Seen() == Start(checkout.covers, checkout.tracked, checkout.present, checkout.dirs, checkout.clock)
      ensures directories == map[] && reserved == map[]
    {
      this.checkout, head := checkout, checkout.head;
      stamps := Look(checkout.covers, checkout.tracked, checkout.present);
      foreign, blocks, directories, reserved := {}, [], map[], map[];
    }

    /** `stamp_reserved`. */
    method StampReserved(names: set<string>)
      modifies this
      ensures Seen() == old(Seen()) && directories == old(directories) && head == old(head)
      ensures reserved == map n | n in names :: StampOf(checkout.present, n)
    {
      reserved := map n | n in names :: StampOf(checkout.present, n);
    }

    /** `stamp_directories`: the root and every directory on the way to a watched or reserved file, as they are now. */
    method StampDirectories()
      modifies this
      ensures Seen() == old(Seen()) && reserved == old(reserved) && head == old(head)
      ensures directories.Keys == AboveAll(stamps.Keys + reserved.Keys)
      ensures Moved(directories, checkout.dirs) == {}
    {
      var above := DirectoriesAbove(stamps.Keys + reserved.Keys);
      directories := map d | d in above :: StampOf(checkout.dirs, d);
    }

    /** The part of `rewriting` before the block runs. */
    method BeginRewriting(files: seq<string>) returns (watched: seq<string>)
      modifies this
      ensures Seen() == Step(old(Seen()), Enter(Names(files)))
      ensures blocks == old(blocks) + [Names(watched)]
      ensures directories == old(directories) && reserved == old(reserved) && head == old(head)
    {
      watched := WatchedAmong(files);
      for i := 0 to |watched|
        invariant foreign == old(foreign) + Changed(stamps, checkout.present, Names(watched[..i]))
        invariant stamps == old(stamps) && blocks == old(blocks) && directories == old(directories)
        invariant reserved == old(reserved) && head == old(head)
      {
        var name := watched[i];
        assert name in Names(watched);
        OneMoreName(watched, i);
        if StampOf(checkout.present, name) != stamps[name] {
          foreign := foreign + {name};
        }
      }
      assert watched[..|watched|] == watched;
      blocks := blocks + [Names(watched)];
    }

    method WatchedAmong(files: seq<string>) returns (watched: seq<string>)
      ensures Names(watched) == Names(files) * stamps.Keys
    {
      watched := [];
      for i := 0 to |files|
        invariant Names(watched) == Names(files[..i]) * stamps.Keys
      {
        OneMoreName(files, i);
        if files[i] in stamps {
          assert Names(watched + [files[i]]) == Names(watched) + {files[i]};
          watched := watched + [files[i]];
        }
      }
      assert files[..|files|] == files;
    }

    /** The part of `rewriting` after the block, however it ended. */
    method EndRewriting(watched: seq<string>)
      requires blocks != [] && blocks[|blocks| - 1] == Names(watched)
      modifies this
      ensures Seen() == Step(old(Seen()), Leave)
      ensures directories == old(directories) && reserved == old(reserved) && head == old(head)
    {
      assert Restamped(stamps, checkout.present, Names(watched[..0])) == stamps;
      for i := 0 to |watched|
        invariant stamps == Restamped(old(stamps), checkout.present, Names(watched[..i]))
        invariant foreign == old(foreign) && blocks == old(blocks) && directories == old(directories)
        invariant reserved == old(reserved) && head == old(head)
      {
        OneMoreName(watched, i);
        RestampOneMore(old(stamps), checkout.present, Names(watched[..i]), watched[i]);
        stamps := stamps[watched[i] := StampOf(checkout.present, watched[i])];
      }
      assert watched[..|watched|] == watched;
      blocks := blocks[..|blocks| - 1];
    }

    /** `changes`. */
    method Changes() returns (found: Findings)
      ensures found.headMoved <==> checkout.head != head
      ensures found.uncommitted == checkout.uncommitted
      ensures forall n :: n in found.written <==>
        || n in Written(checkout.covers, checkout.tracked, Seen())
        || (n in reserved && StampOf(checkout.present, n) != reserved[n])
      ensures found.moved == Moved(directories, checkout.dirs)
    {
      var now := Look(checkout.covers, checkout.tracked, checkout.present);
      var written := foreign
        + (set n | n in stamps.Keys + now.Keys && Get(stamps, n) != Get(now, n))
        + (set n | n in reserved && StampOf(checkout.present, n) != reserved[n]);
      found := Findings(checkout.head != head, written, Moved(directories, checkout.dirs), checkout.uncommitted);
    }
  }

  // ---------------------------------------------------------------- what happened to one file

  /**
   The life of one file, told without stamps: whether it was there when the watch last stamped it,
   whether it was written or removed since, whether it is there, which of the open blocks cover it,
   and whether a change was found on entering a block.
   */
  datatype Life = Life(stampedThere: bool, touched: bool, there: bool, covering: seq<bool>, found: bool)

  /** A change between two looks shows unless the file was there at neither. */
  predicate Shows(l: Life) {
    l.touched && (l.stampedThere || l.there)
  }

  predicate Inside(l: Life) {
    true in l.covering
  }

  function Live(l: Life, n: string, watched: bool, e: Event): Life {
    match e
    case Write(m) => if m == n then l.(touched := true, there := true) else l
    case Delete(m) => if m == n then l.(touched := l.touched || l.there, there := false) else l
    case Enter(files) =>
      var covers := watched && n in files;
      l.(found := l.found || (covers && Shows(l)), covering := l.covering + [covers])
    case Leave =>
      if l.covering == [] then l
      else
        var open := l.(covering := l.covering[..|l.covering| - 1]);
        if l.covering[|l.covering| - 1] then open.(stampedThere := l.there, touched := false) else open
  }

  function LifeOf(start: State, n: string, events: seq<Event>): Life {
    if events == [] then Life(n in start.present, false, n in start.present, [], false)
    else Live(LifeOf(start, n, events[..|events| - 1]), n, n in start.stamps, events[|events| - 1])
  }

  ghost predicate Ordered(s: State) {
    && (forall n | n in s.present :: s.present[n] < s.clock)
    && (forall n | n in s.stamps && s.stamps[n].Some? :: s.stamps[n].value < s.clock)
    && forall i | 0 <= i < |s.blocks| :: s.blocks[i] <= s.stamps.Keys
  }

  /** The watch's records on `n` say what its life says. */
  ghost predicate Tells(s: State, n: string, l: Life) {
    && l.there == (n in s.present)
    && |l.covering| == |s.blocks|
    && (forall i | 0 <= i < |s.blocks| :: l.covering[i] == (n in s.blocks[i]))
    && l.found == (n in s.foreign)
    && l.stampedThere == Get(s.stamps, n).Some?
    && (!l.touched ==> StampOf(s.present, n) == Get(s.stamps, n))
    && (l.touched && l.there && l.stampedThere ==> StampOf(s.present, n) != Get(s.stamps, n))
  }

  lemma StepKeepsOrder(s: State, e: Event)
    requires Ordered(s)
    ensures Ordered(Step(s, e)) && Step(s, e).stamps.Keys == s.stamps.Keys
  {
    var t := Step(s, e);
    if e.Leave? && s.blocks != [] {
      assert s.blocks[|s.blocks| - 1] <= s.stamps.Keys;
      assert t.stamps.Keys == s.stamps.Keys;
    }
  }

  lemma StepTells(s: State, n: string, l: Life, e: Event)
    requires Ordered(s) && Tells(s, n, l)
    ensures Tells(Step(s, e), n, Live(l, n, n in s.stamps, e))
  {
    if e.Leave? && s.blocks != [] {
      var last := |s.blocks| - 1;
      assert l.covering[last] == (n in s.blocks[last]);
      assert s.blocks[last] <= s.stamps.Keys;
    }
  }

  lemma {:induction false} RunTells(start: State, n: string, events: seq<Event>)
    requires Ordered(start) && start.blocks == [] && start.foreign == {}
    requires Get(start.stamps, n) == StampOf(start.present, n)
    ensures Ordered(After(start, events)) && After(start, events).stamps.Keys == start.stamps.Keys
    ensures Tells(After(start, events), n, LifeOf(start, n, events))
  {
    if events != [] {
      var before := events[..|events| - 1];
      RunTells(start, n, before);
      StepKeepsOrder(After(start, before), events[|events| - 1]);
      StepTells(After(start, before), n, LifeOf(start, n, before), events[|events| - 1]);
    }
  }

  /**
   After any interleaving of writes, removals and `rewriting` blocks, `changes` reports a file under
   the pathspecs exactly when a change to it showed at a look: on entering a block that covers it, or now.
   */
  lemma ReportsExactlyWhatShows(
    covers: string -> bool, tracked: set<string>, present: map<string, Stamp>, dirs: map<string, Stamp>, clock: Stamp,
    events: seq<Event>, n: string)
    requires Fresh(covers, tracked, present, clock) && covers(n)
    ensures var start := Start(covers, tracked, present, dirs, clock);
            var life := LifeOf(start, n, events);
            n in Written(covers, tracked, After(start, events)) <==> life.found || Shows(life)
  {
    var start := Start(covers, tracked, present, dirs, clock);
    RunTells(start, n, events);
    var s := After(start, events);
    assert n in s.present ==> n in Listed(covers, tracked, s.present);
  }

  // ---------------------------------------------------------------- which writes are forgiven

  /** The event writes the file, or removes it. */
  predicate TouchesNow(l: Life, n: string, e: Event) {
    e == Write(n) || (e == Delete(n) && l.there)
  }

  /** At the event the watch looks at the file: a block over it begins, or one ends. */
  predicate LooksNow(l: Life, n: string, watched: bool, e: Event) {
    match e
    case Enter(files) => watched && n in files
    case Leave => l.covering != [] && l.covering[|l.covering| - 1]
    case _ => false
  }

  lemma NoteStep(l: Life, n: string, watched: bool, e: Event)
    requires l.stampedThere
    ensures var now := Live(l, n, watched, e);
            && (now.found <==> l.found || (LooksNow(l, n, watched, e) && e.Enter? && l.touched))
            && (now.touched <==> TouchesNow(l, n, e) || (l.touched && !(LooksNow(l, n, watched, e) && e.Leave?)))
  {
  }

  ghost predicate Touches(start: State, n: string, events: seq<Event>, i: nat)
    requires i < |events|
  {
    TouchesNow(LifeOf(start, n, events[..i]), n, events[i])
  }

  ghost predicate LooksAt(start: State, n: string, events: seq<Event>, i: nat)
    requires i < |events|
  {
    LooksNow(LifeOf(start, n, events[..i]), n, n in start.stamps, events[i])
  }

  /** The watch does not look at the file between events `i` and `j`. */
  ghost predicate Unlooked(start: State, n: string, events: seq<Event>, i: nat, j: nat)
    requires j <= |events|
  {
    forall k: nat | i < k < j :: !LooksAt(start, n, events, k)
  }

  /** After event `i` the watch next looks at the file on entering a block, or on leaving one, at event `j`. */
  ghost predicate NextLook(start: State, n: string, events: seq<Event>, i: nat, j: nat) {
    i < j < |events| && LooksAt(start, n, events, j) && Unlooked(start, n, events, i, j)
  }

  /** What event `i` did is stamped afresh, unseen, when a block over the file ends. */
  ghost predicate Forgiven(start: State, n: string, events: seq<Event>, i: nat) {
    exists j: nat :: NextLook(start, n, events, i, j) && events[j].Leave?
  }

  /** What event `i` did was seen when a block over the file began. */
  ghost predicate Caught(start: State, n: string, events: seq<Event>, i: nat) {
    exists j: nat :: NextLook(start, n, events, i, j) && events[j].Enter?
  }

  ghost predicate ThereAtEveryStamp(start: State, n: string, events: seq<Event>) {
    forall i | 0 <= i <= |events| :: LifeOf(start, n, events[..i]).stampedThere
  }

  /** Some event that touches the file was caught. */
  ghost predicate AnyCaught(start: State, n: string, events: seq<Event>) {
    exists i: nat | i < |events| :: Touches(start, n, events, i) && Caught(start, n, events, i)
  }

  /** Some event touched the file since the watch last looked at it. */
  ghost predicate AnyPending(start: State, n: string, events: seq<Event>) {
    exists i: nat | i < |events| :: Touches(start, n, events, i) && Unlooked(start, n, events, i, |events|)
  }

  lemma SamePrefix(start: State, n: string, events: seq<Event>, i: nat)
    requires events != [] && i < |events| - 1
    ensures var before := events[..|events| - 1];
            && (Touches(start, n, events, i) <==> Touches(start, n, before, i))
            && (LooksAt(start, n, events, i) <==> LooksAt(start, n, before, i))
  {
    var before := events[..|events| - 1];
    assert before[..i] == events[..i];
  }

  lemma UnlookedOneMore(start: State, n: string, events: seq<Event>, i: nat)
    requires events != [] && i < |events| - 1
    ensures Unlooked(start, n, events, i, |events|) <==>
            Unlooked(start, n, events[..|events| - 1], i, |events| - 1) && !LooksAt(start, n, events, |events| - 1)
    ensures NextLook(start, n, events, i, |events| - 1) <==>
            Unlooked(start, n, events[..|events| - 1], i, |events| - 1) && LooksAt(start, n, events, |events| - 1)
  {
    SameUnlooked(start, n, events, i, |events| - 1);
  }

  lemma SameNextLook(start: State, n: string, events: seq<Event>, i: nat, j: nat)
    requires events != [] && j < |events| - 1
    ensures NextLook(start, n, events, i, j) <==> NextLook(start, n, events[..|events| - 1], i, j)
  {
    SamePrefix(start, n, events, j);
    SameUnlooked(start, n, events, i, j);
  }

  lemma SameUnlooked(start: State, n: string, events: seq<Event>, i: nat, j: nat)
    requires events != [] && j < |events|
    ensures Unlooked(start, n, events, i, j) <==> Unlooked(start, n, events[..|events| - 1], i, j)
  {
    var before := events[..|events| - 1];
    forall k: nat | i < k < j
      ensures LooksAt(start, n, events, k) <==> LooksAt(start, n, before, k)
    {
      SamePrefix(start, n, events, k);
    }
  }

  lemma CaughtOneMore(start: State, n: string, events: seq<Event>, i: nat)
    requires events != [] && i < |events| - 1
    ensures Caught(start, n, events, i) <==>
            || Caught(start, n, events[..|events| - 1], i)
            || (Unlooked(start, n, events[..|events| - 1], i, |events| - 1)
                && LooksAt(start, n, events, |events| - 1) && events[|events| - 1].Enter?)
  {
    if Caught(start, n, events, i) {
      CaughtBefore(start, n, events, i);
    }
    if Caught(start, n, events[..|events| - 1], i) {
      StillCaught(start, n, events, i);
    }
    UnlookedOneMore(start, n, events, i);
  }

  lemma CaughtBefore(start: State, n: string, events: seq<Event>, i: nat)
    requires events != [] && i < |events| - 1 && Caught(start, n, events, i)
    ensures || Caught(start, n, events[..|events| - 1], i)
            || (NextLook(start, n, events, i, |events| - 1) && events[|events| - 1].Enter?)
  {
    var j: nat :| NextLook(start, n, events, i, j) && events[j].Enter?;
    if j < |events| - 1 {
      SameNextLook(start, n, events, i, j);
    }
  }

  lemma StillCaught(start: State, n: string, events: seq<Event>, i: nat)
    requires events != [] && Caught(start, n, events[..|events| - 1], i)
    ensures Caught(start, n, events, i)
  {
    var before := events[..|events| - 1];
    var j: nat :| NextLook(start, n, before, i, j) && before[j].Enter?;
    SameNextLook(start, n, events, i, j);
  }

  lemma CaughtSoFar(start: State, n: string, events: seq<Event>)
    requires events != []
    ensures AnyCaught(start, n, events) <==>
            || AnyCaught(start, n, events[..|events| - 1])
            || (AnyPending(start, n, events[..|events| - 1])
                && LooksAt(start, n, events, |events| - 1) && events[|events| - 1].Enter?)
  {
    var before, last := events[..|events| - 1], |events| - 1;
    forall i: nat | i < last
      ensures Touches(start, n, events, i) && Caught(start, n, events, i) <==>
              Touches(start, n, before, i)
              && (Caught(start, n, before, i)
                  || (Unlooked(start, n, before, i, last) && LooksAt(start, n, events, last) && events[last].Enter?))
    {
      SamePrefix(start, n, events, i);
      CaughtOneMore(start, n, events, i);
    }
    assert !Caught(start, n, events, last);
    if AnyCaught(start, n, before) {
      var i: nat :| i < last && Touches(start, n, before, i) && Caught(start, n, before, i);
      assert Touches(start, n, events, i) && Caught(start, n, events, i);
    }
    if AnyPending(start, n, before) && LooksAt(start, n, events, last) && events[last].Enter? {
      var i: nat :| i < last && Touches(start, n, before, i) && Unlooked(start, n, before, i, last);
      assert Touches(start, n, events, i) && Caught(start, n, events, i);
    }
  }

  lemma PendingSoFar(start: State, n: string, events: seq<Event>)
    requires events != []
    ensures AnyPending(start, n, events) <==>
            || Touches(start, n, events, |events| - 1)
            || (AnyPending(start, n, events[..|events| - 1]) && !LooksAt(start, n, events, |events| - 1))
  {
    var before, last := events[..|events| - 1], |events| - 1;
    forall i: nat | i < last
      ensures Touches(start, n, events, i) && Unlooked(start, n, events, i, |events|) <==>
              Touches(start, n, before, i) && Unlooked(start, n, before, i, last) && !LooksAt(start, n, events, last)
    {
      SamePrefix(start, n, events, i);
      UnlookedOneMore(start, n, events, i);
    }
    if AnyPending(start, n, before) && !LooksAt(start, n, events, last) {
      var i: nat :| i < last && Touches(start, n, before, i) && Unlooked(start, n, before, i, last);
      assert Touches(start, n, events, i) && Unlooked(start, n, events, i, |events|);
    }
    if Touches(start, n, events, last) {
      assert Unlooked(start, n, events, last, |events|);
    }
  }

  /**
   The watch's notes on a file, told by its events: found is what was caught, and a touch shows until it is forgiven.
   */
  lemma {:induction false} NotesTell(start: State, n: string, events: seq<Event>)
    requires ThereAtEveryStamp(start, n, events)
    ensures var life := LifeOf(start, n, events);
            && (life.found <==> AnyCaught(start, n, events))
            && (AnyPending(start, n, events) ==> life.touched)
            && (life.touched ==> AnyPending(start, n, events) || AnyCaught(start, n, events))
  {
    if events != [] {
      var before, last := events[..|events| - 1], |events| - 1;
      forall i | 0 <= i <= |before|
        ensures before[..i] == events[..i]
      {
      }
      NotesTell(start, n, before);
      CaughtSoFar(start, n, events);
      PendingSoFar(start, n, events);
      assert LifeOf(start, n, events[..last]).stampedThere;
      NoteStep(LifeOf(start, n, before), n, n in start.stamps, events[last]);
    }
  }

  /**
   The watch sees undone edits: a file that was there whenever the watch stamped it is reported exactly when something
   wrote or removed it and the watch's next look was not the end of a block over it, whatever the file holds now.
   */
  lemma SeesUndoneEdits(
    covers: string -> bool, tracked: set<string>, present: map<string, Stamp>, dirs: map<string, Stamp>, clock: Stamp,
    events: seq<Event>, n: string)
    requires Fresh(covers, tracked, present, clock) && covers(n)
    requires ThereAtEveryStamp(Start(covers, tracked, present, dirs, clock), n, events)
    ensures var start := Start(covers, tracked, present, dirs, clock);
            n in Written(covers, tracked, After(start, events)) <==>
            exists i: nat | i < |events| :: Touches(start, n, events, i) && !Forgiven(start, n, events, i)
  {
    var start := Start(covers, tracked, present, dirs, clock);
    ReportsExactlyWhatShows(covers, tracked, present, dirs, clock, events, n);
    NotesTell(start, n, events);
    assert events[..|events|] == events && LifeOf(start, n, events[..|events|]).stampedThere;
    forall i: nat | i < |events|
      ensures !Forgiven(start, n, events, i) <==> Caught(start, n, events, i) || Unlooked(start, n, events, i, |events|)
    {
      LooksComeOnce(start, n, events, i);
    }
  }

  /** A next look there is, or there is none, and it is one of the two kinds. */
  lemma LooksComeOnce(start: State, n: string, events: seq<Event>, i: nat)
    requires i < |events|
    ensures !Forgiven(start, n, events, i) <==> Caught(start, n, events, i) || Unlooked(start, n, events, i, |events|)
  {
    if !Unlooked(start, n, events, i, |events|) {
      var j := FirstLook(start, n, events, i, |events|);
    }
  }

  lemma {:induction false} FirstLook(start: State, n: string, events: seq<Event>, i: nat, end: nat) returns (j: nat)
    requires end <= |events| && !Unlooked(start, n, events, i, end)
    ensures NextLook(start, n, events, i, j)
  {
    if Unlooked(start, n, events, i, end - 1) {
      j := end - 1;
    } else {
      j := FirstLook(start, n, events, i, end - 1);
    }
  }

  // ---------------------------------------------------------------- one block at a time

  /** No block over the file begins inside another. */
  ghost predicate OneBlockAtATime(start: State, n: string, events: seq<Event>) {
    forall i: nat | i < |events| && events[i].Enter? && LooksAt(start, n, events, i) ::
        !Inside(LifeOf(start, n, events[..i]))
  }

  /** At most one open block covers the file. */
  ghost predicate CoveredOnce(l: Life) {
    forall i, j | 0 <= i < j < |l.covering| :: !(l.covering[i] && l.covering[j])
  }

  lemma CoverageStep(l: Life, n: string, watched: bool, e: Event)
    requires CoveredOnce(l) && (e.Enter? && LooksNow(l, n, watched, e) ==> !Inside(l))
    ensures CoveredOnce(Live(l, n, watched, e))
    ensures Inside(Live(l, n, watched, e)) <==> if LooksNow(l, n, watched, e) then e.Enter? else Inside(l)
  {
    match e
    case Enter(files) => EnterCovers(l, n, watched, files);
    case Leave => if l.covering != [] { LeaveEndsCovering(l, n, watched); }
    case _ =>
  }

  lemma LeaveEndsCovering(l: Life, n: string, watched: bool)
    requires CoveredOnce(l) && l.covering != []
    ensures CoveredOnce(Live(l, n, watched, Leave))
    ensures Inside(Live(l, n, watched, Leave)) <==> Inside(l) && !l.covering[|l.covering| - 1]
  {
    var k := |l.covering| - 1;
    assert l.covering == l.covering[..k] + [l.covering[k]];
    if true in l.covering[..k] {
      var i :| 0 <= i < k && l.covering[i];
      assert !(l.covering[i] && l.covering[k]);
    }
  }

  lemma EnterCovers(l: Life, n: string, watched: bool, files: set<string>)
    requires CoveredOnce(l) && (watched && n in files ==> !Inside(l))
    ensures CoveredOnce(Live(l, n, watched, Enter(files)))
    ensures Inside(Live(l, n, watched, Enter(files))) <==> Inside(l) || (watched && n in files)
  {
    var covers := watched && n in files;
    var after := l.covering + [covers];
    assert covers ==> after[|l.covering|];
    if Inside(l) {
      var i :| 0 <= i < |l.covering| && l.covering[i];
      assert after[i];
    }
  }

  lemma {:induction false} CoverageSoFar(start: State, n: string, events: seq<Event>, i: nat)
    requires OneBlockAtATime(start, n, events) && i <= |events|
    ensures CoveredOnce(LifeOf(start, n, events[..i]))
  {
    if i > 0 {
      CoverageSoFar(start, n, events, i - 1);
      assert events[..i][..i - 1] == events[..i - 1];
      CoverageStep(LifeOf(start, n, events[..i - 1]), n, n in start.stamps, events[i - 1]);
    }
  }

  ghost predicate InsideAt(start: State, n: string, events: seq<Event>, i: nat)
    requires i <= |events|
  {
    Inside(LifeOf(start, n, events[..i]))
  }

  ghost predicate StaysAt(start: State, n: string, events: seq<Event>, i: nat)
    requires i < |events|
  {
    InsideAt(start, n, events, i + 1) <==> InsideAt(start, n, events, i)
  }

  lemma {:induction false} StaysAllTheWay(start: State, n: string, events: seq<Event>, i: nat, j: nat)
    requires i <= j <= |events| && forall k: nat | i <= k < j :: StaysAt(start, n, events, k)
    ensures InsideAt(start, n, events, j) <==> InsideAt(start, n, events, i)
  {
    if i < j {
      StaysAllTheWay(start, n, events, i, j - 1);
      assert StaysAt(start, n, events, j - 1);
    }
  }

  /** Between two looks the file stays inside a block, or outside. */
  lemma InsideUntilTheNextLook(start: State, n: string, events: seq<Event>, i: nat, j: nat)
    requires OneBlockAtATime(start, n, events) && i < j <= |events| && !LooksAt(start, n, events, i)
    requires Unlooked(start, n, events, i, j)
    ensures InsideAt(start, n, events, j) <==> InsideAt(start, n, events, i)
  {
    forall k: nat | i <= k < j
      ensures StaysAt(start, n, events, k)
    {
      InsideStays(start, n, events, k);
    }
    StaysAllTheWay(start, n, events, i, j);
  }

  lemma InsideStays(start: State, n: string, events: seq<Event>, k: nat)
    requires OneBlockAtATime(start, n, events) && k < |events| && !LooksAt(start, n, events, k)
    ensures StaysAt(start, n, events, k)
  {
    assert events[..k + 1][..k] == events[..k];
    CoverageSoFar(start, n, events, k);
    CoverageStep(LifeOf(start, n, events[..k]), n, n in start.stamps, events[k]);
  }

  /** With one block over the file at a time and none open now, exactly what was done inside a block is forgiven. */
  lemma ForgivenExactlyInside(start: State, n: string, events: seq<Event>, i: nat)
    requires OneBlockAtATime(start, n, events) && i < |events| && Touches(start, n, events, i)
    requires !Inside(LifeOf(start, n, events))
    ensures Forgiven(start, n, events, i) <==> Inside(LifeOf(start, n, events[..i]))
  {
    assert events[..|events|] == events;
    if Unlooked(start, n, events, i, |events|) {
      InsideUntilTheNextLook(start, n, events, i, |events|);
    } else {
      var j := FirstLook(start, n, events, i, |events|);
      InsideUntilTheNextLook(start, n, events, i, j);
      ForgivenAtTheNextLook(start, n, events, i, j);
      LeavesFromInside(start, n, events, j);
    }
  }

  lemma ForgivenAtTheNextLook(start: State, n: string, events: seq<Event>, i: nat, j: nat)
    requires NextLook(start, n, events, i, j)
    ensures Forgiven(start, n, events, i) <==> events[j].Leave?
  {
    if Forgiven(start, n, events, i) {
      var k: nat :| NextLook(start, n, events, i, k) && events[k].Leave?;
      OneNextLook(start, n, events, i, j, k);
    }
  }

  lemma OneNextLook(start: State, n: string, events: seq<Event>, i: nat, j: nat, k: nat)
    requires NextLook(start, n, events, i, j) && NextLook(start, n, events, i, k)
    ensures j == k
  {
  }

  /** With one block at a time, the watch looks at the file inside a block only on leaving it. */
  lemma LeavesFromInside(start: State, n: string, events: seq<Event>, j: nat)
    requires OneBlockAtATime(start, n, events) && j < |events| && LooksAt(start, n, events, j)
    ensures events[j].Leave? <==> InsideAt(start, n, events, j)
  {
  }

  /** So there the watch reports the file exactly when something touched it outside a block. */
  lemma SeesWhatIsDoneOutside(
    covers: string -> bool, tracked: set<string>, present: map<string, Stamp>, dirs: map<string, Stamp>, clock: Stamp,
    events: seq<Event>, n: string)
    requires Fresh(covers, tracked, present, clock) && covers(n)
    requires var start := Start(covers, tracked, present, dirs, clock);
             && ThereAtEveryStamp(start, n, events) && OneBlockAtATime(start, n, events)
             && !Inside(LifeOf(start, n, events))
    ensures var start := Start(covers, tracked, present, dirs, clock);
            n in Written(covers, tracked, After(start, events)) <==>
            exists i: nat | i < |events| :: Touches(start, n, events, i) && !Inside(LifeOf(start, n, events[..i]))
  {
    var start := Start(covers, tracked, present, dirs, clock);
    SeesUndoneEdits(covers, tracked, present, dirs, clock, events, n);
    forall i: nat | i < |events| && Touches(start, n, events, i)
      ensures Forgiven(start, n, events, i) <==> Inside(LifeOf(start, n, events[..i]))
    {
      ForgivenExactlyInside(start, n, events, i);
    }
  }

  // ---------------------------------------------------------------- reserved files and directories

  ghost predicate ComesOrGoes(before: map<string, Stamp>, after: map<string, Stamp>, x: string) {
    x in before <==> x !in after
  }

  /** A file or directory of `d` comes to be or ceases to be, or `d` itself comes to be. The root is in no directory. */
  ghost predicate EntriesChange(s: State, t: State, d: string) {
    || (d !in s.dirs && d in t.dirs)
    || (exists x :: Parent(x) == d && ComesOrGoes(s.present, t.present, x))
    || (exists x :: Parent(x) == d && x != "." && ComesOrGoes(s.dirs, t.dirs, x))
  }

  lemma {:induction false} ChainGoesUp(d: string, x: string)
    requires x in Chain(d) && Dirname(x) != ""
    ensures Dirname(x) in Chain(d)
    decreases |d|
  {
    if x != d {
      ChainGoesUp(Dirname(d), x);
    }
  }

  /** A write disturbs no directory that is neither there, nor made by it, nor the root. */
  lemma DisturbedIsThere(dirs: map<string, Stamp>, n: string, d: string)
    requires d in DisturbedBy(dirs, n) && d !in dirs
    ensures d in Missing(dirs, n) || d == "."
  {
    if x :| x in Missing(dirs, n) && Parent(x) == d {
      if Dirname(x) != "" {
        ChainGoesUp(Dirname(n), x);
      }
    }
  }

  lemma WriteDisturbs(s: State, n: string, d: string)
    requires n !in s.present
    ensures d in DisturbedBy(s.dirs, n) <==> EntriesChange(s, Step(s, Write(n)), d)
  {
    var t := Step(s, Write(n));
    assert ComesOrGoes(s.present, t.present, n);
    forall x | x in t.dirs && x !in s.dirs
      ensures x in Missing(s.dirs, n) || x == "."
    {
      DisturbedIsThere(s.dirs, n, x);
    }
    if x :| x in Missing(s.dirs, n) && Parent(x) == d {
      assert ComesOrGoes(s.dirs, t.dirs, x);
      assert x == "." ==> d == ".";
    }
  }

  /** An event disturbs exactly the directories whose entries change. */
  lemma DisturbedExactly(s: State, e: Event, d: string)
    requires Sound(s.present, s.dirs, s.clock)
    ensures d in Disturbed(s, e) <==> EntriesChange(s, Step(s, e), d)
  {
    if e.Write? && e.name !in s.present {
      WriteDisturbs(s, e.name, d);
    } else if e.Delete? && e.name in s.present {
      assert ComesOrGoes(s.present, Step(s, e).present, e.name);
    }
  }

  /** At one of the events the entries of the directory change. */
  ghost predicate AnyEntryChanged(s: State, events: seq<Event>, d: string) {
    events != [] &&
      var before := events[..|events| - 1];
      AnyEntryChanged(s, before, d) || EntriesChange(After(s, before), After(s, events), d)
  }

  lemma {:induction false} DirectoryStampMoves(s: State, events: seq<Event>, d: string)
    requires Sound(s.present, s.dirs, s.clock)
    ensures var t := After(s, events);
            && s.clock <= t.clock
            && if AnyEntryChanged(s, events, d) then d in t.dirs && s.clock <= t.dirs[d]
               else StampOf(t.dirs, d) == StampOf(s.dirs, d)
  {
    if events != [] {
      var before := events[..|events| - 1];
      DirectoryStampMoves(s, before, d);
      StaysSound(s, before);
      DisturbedExactly(After(s, before), events[|events| - 1], d);
    }
  }

  /** A stamped directory is reported exactly when an entry was added to it or removed from it since. */
  lemma DirectoriesShowTheirEntries(s: State, stamped: set<string>, events: seq<Event>, d: string)
    requires Sound(s.present, s.dirs, s.clock)
    ensures d in Moved(map x | x in stamped :: StampOf(s.dirs, x), After(s, events).dirs) <==>
            d in stamped && AnyEntryChanged(s, events, d)
  {
    DirectoryStampMoves(s, events, d);
  }

  lemma {:induction false} AfterConcat(s: State, a: seq<Event>, b: seq<Event>)
    ensures After(s, a + b) == After(After(s, a), b)
  {
    if b == [] {
      assert a + b == a;
    } else {
      AfterConcat(s, a, b[..|b| - 1]);
      assert (a + b)[..|a + b| - 1] == a + b[..|b| - 1];
    }
  }

  /** The watch notes only names it has stamped. */
  lemma {:induction false} NotesOnlyStamped(s: State, events: seq<Event>)
    requires s.foreign <= s.stamps.Keys && forall i | 0 <= i < |s.blocks| :: s.blocks[i] <= s.stamps.Keys
    ensures var t := After(s, events);
            && t.stamps.Keys == s.stamps.Keys && t.foreign <= t.stamps.Keys
            && forall i | 0 <= i < |t.blocks| :: t.blocks[i] <= t.stamps.Keys
  {
    if events != [] {
      var before := events[..|events| - 1];
      NotesOnlyStamped(s, before);
      var t := After(s, before);
      if events[|events| - 1].Leave? && t.blocks != [] {
        assert t.blocks[|t.blocks| - 1] <= t.stamps.Keys;
      }
    }
  }

  lemma {:induction false} StaysSound(s: State, events: seq<Event>)
    requires Sound(s.present, s.dirs, s.clock)
    ensures var t := After(s, events); Sound(t.present, t.dirs, t.clock)
  {
    if events != [] {
      var before := events[..|events| - 1];
      StaysSound(s, before);
      StepStaysSound(After(s, before), events[|events| - 1]);
    }
  }

  lemma StepStaysSound(s: State, e: Event)
    requires Sound(s.present, s.dirs, s.clock)
    ensures var t := Step(s, e); Sound(t.present, t.dirs, t.clock)
  {
  }

  /**
   A file the watch did not see at first, created and removed again before it looks: no stamp of a file shows it, and
   its directory does exactly where that was stamped before.
   */
  lemma CreatedAndRemovedIsMissed(
    covers: string -> bool, tracked: set<string>, present: map<string, Stamp>, dirs: map<string, Stamp>, clock: Stamp,
    before: seq<Event>, stamped: set<string>, since: seq<Event>, n: string)
    requires Fresh(covers, tracked, present, clock) && Sound(present, dirs, clock)
    requires n !in tracked && n !in present
    requires var start := Start(covers, tracked, present, dirs, clock);
             n !in After(start, before).present && n !in After(start, before + since).present
    requires Write(n) in since
    ensures var start := Start(covers, tracked, present, dirs, clock);
            var now := After(start, before + since);
            var directories := map d | d in stamped :: StampOf(After(start, before).dirs, d);
            && n !in Written(covers, tracked, now)
            && (Parent(n) in Moved(directories, now.dirs) <==> Parent(n) in stamped)
  {
    var start := Start(covers, tracked, present, dirs, clock);
    NotesOnlyStamped(start, before + since);
    StaysSound(start, before);
    AfterConcat(start, before, since);
    var s := After(start, before);
    FirstWriteCreates(s, since, n);
    DirectoriesShowTheirEntries(s, stamped, since, Parent(n));
  }

  lemma CreationChanges(s: State, n: string)
    requires n !in s.present
    ensures EntriesChange(s, Step(s, Write(n)), Parent(n))
  {
    assert ComesOrGoes(s.present, Step(s, Write(n)).present, n);
  }

  lemma {:induction false} FirstWriteCreates(s: State, events: seq<Event>, n: string)
    requires n !in s.present && Write(n) in events
    ensures AnyEntryChanged(s, events, Parent(n))
  {
    var before, last := events[..|events| - 1], |events| - 1;
    if Write(n) in before {
      FirstWriteCreates(s, before, n);
    } else {
      StaysAway(s, before, n);
      assert events == before + [events[last]];
      CreationChanges(After(s, before), n);
    }
  }

  lemma {:induction false} StaysAway(s: State, events: seq<Event>, n: string)
    requires n !in s.present && Write(n) !in events
    ensures n !in After(s, events).present
  {
    if events != [] {
      var before := events[..|events| - 1];
      assert events == before + [events[|events| - 1]];
      StaysAway(s, before, n);
    }
  }

  /** Event `i` writes the file, or removes it. */
  ghost predicate ChangesFile(s: State, events: seq<Event>, n: string, i: nat)
    requires i < |events|
  {
    events[i] == Write(n) || (events[i] == Delete(n) && n in After(s, events[..i]).present)
  }

  ghost predicate AnyFileChange(s: State, events: seq<Event>, n: string) {
    exists i: nat | i < |events| :: ChangesFile(s, events, n, i)
  }

  lemma FileChangedSoFar(s: State, events: seq<Event>, n: string)
    requires events != []
    ensures AnyFileChange(s, events, n) <==>
            AnyFileChange(s, events[..|events| - 1], n) || ChangesFile(s, events, n, |events| - 1)
  {
    var before := events[..|events| - 1];
    forall i: nat | i < |before|
      ensures ChangesFile(s, before, n, i) <==> ChangesFile(s, events, n, i)
    {
      assert before[..i] == events[..i];
    }
    if AnyFileChange(s, before, n) {
      var i: nat :| i < |before| && ChangesFile(s, before, n, i);
      assert ChangesFile(s, events, n, i);
    }
  }

  lemma {:induction false} FileStampMoves(s: State, events: seq<Event>, n: string)
    requires n in s.present ==> s.present[n] < s.clock
    ensures var t := After(s, events);
            && s.clock <= t.clock
            && if AnyFileChange(s, events, n) then n in t.present ==> s.clock <= t.present[n]
               else StampOf(t.present, n) == StampOf(s.present, n)
  {
    if events != [] {
      FileStampMoves(s, events[..|events| - 1], n);
      FileChangedSoFar(s, events, n);
    }
  }

  /**
   A reserved file, stamped as it was, is reported exactly when it was written or removed since, whatever it holds now,
   unless it was away then and is away now.
   */
  lemma ReservedFilesAreSeen(s: State, events: seq<Event>, n: string)
    requires n in s.present ==> s.present[n] < s.clock
    ensures StampOf(After(s, events).present, n) != StampOf(s.present, n) <==>
            AnyFileChange(s, events, n) && (n in s.present || n in After(s, events).present)
  {
    FileStampMoves(s, events, n);
  }
}
