/**
 What a citation relies on: whether `unittest` collects a test that `python_tests` finds. The last statements of a class
 body that can bind, or unbind, its name tell how the body leaves it at worst, and the first class along the method
 resolution order that does not leave it unbound decides. Inherited tests count.
 */
module CollectedTests {
  import opened Basics
  import opened PythonAst
  import opened ModuleExecution
  import opened CarefulAnalysis
  import opened TestCases
  import opened TestCasesSound

  // ---------------------------------------------------------------- class bodies

  /** Of the ways a body can leave a name `Spoiled` is the worst for a test and `Sound` the best. */
  predicate AtLeast(a: Fate, b: Fate) {
    b == Spoiled || a == Sound || a == b
  }

  /** How a name is left at worst by a change of a body's bindings that found it `was`. */
  function Worsened(was: Fate, free: set<string>, gone: set<string>, loose: set<string>, t: string): Fate {
    if t in free then Spoiled
    else if t in gone then Absent
    else if t in loose && was == Sound then Absent
    else was
  }

  /** How a name is left at worst by statement `node` that found it `was`. */
  function FateAfter(node: Node, globals: set<string>, t: string, was: Fate): Fate {
    if DefinesMethod(node, globals) && node.name == t then Sound
    else Worsened(was, Assigns(node) - globals, Deleted(node) - globals, Binds(node) - globals, t)
  }

  function FateUpTo(body: seq<Node>, globals: set<string>, t: string): Fate {
    if body == [] then Absent
    else FateAfter(body[|body| - 1], globals, t, FateUpTo(body[..|body| - 1], globals, t))
  }

  /** How a class body leaves a name at worst. */
  function BodyFate(body: seq<Node>, t: string): Fate {
    FateUpTo(body, DeclaredAll(body), t)
  }

  lemma ChangesAtWorst(
    before: Members, after: Members, free: set<string>, gone: set<string>, loose: set<string>, t: string, was: Fate)
    requires Changes(before, after, free, gone, loose) && AtLeast(FateIn(before, t), was)
    ensures AtLeast(FateIn(after, t), Worsened(was, free, gone, loose, t))
  {
    assert ChangesAt(before, after, free, gone, loose, t);
  }

  lemma StepAtWorst(at: nat, node: Node, globals: set<string>, before: Members, after: Members, t: string, was: Fate)
    requires BodyStep(at, node, globals, before, after) && AtLeast(FateIn(before, t), was)
    ensures AtLeast(FateIn(after, t), FateAfter(node, globals, t, was))
  {
    if DefinesMethod(node, globals) {
      var free, loose := AssignsAll(node.header) - globals, BindsAll(node.header) - globals;
      var mid :| Changes(before, mid, free, {}, loose) && after == mid[node.name := Method(at)];
      ChangesAtWorst(before, mid, free, {}, loose, t, was);
      if node.name != t {
        DefinitionEffects(node, globals, t, was);
      }
    } else {
      ChangesAtWorst(before, after, Assigns(node) - globals, Deleted(node) - globals, Binds(node) - globals, t, was);
    }
  }

  /** Of every other name a plain `def` changes what its header does. */
  lemma DefinitionEffects(node: Node, globals: set<string>, t: string, was: Fate)
    requires DefinesMethod(node, globals) && node.name != t
    ensures FateAfter(node, globals, t, was)
         == Worsened(was, AssignsAll(node.header) - globals, {}, BindsAll(node.header) - globals, t)
  {
    assert AssignsAll(node.decorators) == {} && BindsAll(node.decorators) == {};
  }

  /** No run of a body leaves a name worse than that. */
  lemma {:induction false} NoRunIsWorse(body: seq<Node>, globals: set<string>, states: seq<Members>, t: string)
    requires |states| == |body| + 1 && states[0] == map[]
    requires forall i | 0 <= i < |body| :: BodyStep(i, body[i], globals, states[i], states[i + 1])
    ensures AtLeast(FateIn(states[|body|], t), FateUpTo(body, globals, t))
  {
    if body != [] {
      var n := |body| - 1;
      NoRunIsWorse(body[..n], globals, states[..n + 1], t);
      StepAtWorst(n, body[n], globals, states[n], states[n + 1], t, FateUpTo(body[..n], globals, t));
    }
  }

  lemma LeftAtWorst(body: seq<Node>, members: Members, t: string)
    requires BodyLeaves(body, members)
    ensures AtLeast(FateIn(members, t), BodyFate(body, t))
  {
    var states :| BodyRun(body, states) && states[|body|] == members;
    NoRunIsWorse(body, DeclaredAll(body), states, t);
  }

  // ---------------------------------------------------------------- one run leaves every name at its worst

  /** The names that stay bound when everything goes as badly as it can. */
  predicate Lasts(before: Members, free: set<string>, gone: set<string>, loose: set<string>, n: string) {
    n in free || (n in before && n !in gone && !(n in loose && FateIn(before, n) == Sound))
  }

  function Spoil(before: Members, free: set<string>, gone: set<string>, loose: set<string>): Members {
    map n | n in before.Keys + free && Lasts(before, free, gone, loose, n) ::
      if n in free then Value(false) else before[n]
  }

  lemma SpoilIsAChange(before: Members, free: set<string>, gone: set<string>, loose: set<string>)
    ensures Changes(before, Spoil(before, free, gone, loose), free, gone, loose)
    ensures forall t :: FateIn(Spoil(before, free, gone, loose), t) == Worsened(FateIn(before, t), free, gone, loose, t)
  {
  }

  function WorstStep(at: nat, node: Node, globals: set<string>, before: Members): Members {
    if DefinesMethod(node, globals) then
      Spoil(before, AssignsAll(node.header) - globals, {}, BindsAll(node.header) - globals)[node.name := Method(at)]
    else Spoil(before, Assigns(node) - globals, Deleted(node) - globals, Binds(node) - globals)
  }

  function WorstUpTo(body: seq<Node>, globals: set<string>): Members {
    if body == [] then map[]
    else WorstStep(|body| - 1, body[|body| - 1], globals, WorstUpTo(body[..|body| - 1], globals))
  }

  function WorstMembers(body: seq<Node>): Members {
    WorstUpTo(body, DeclaredAll(body))
  }

  lemma WorstIsAStep(at: nat, node: Node, globals: set<string>, before: Members)
    ensures BodyStep(at, node, globals, before, WorstStep(at, node, globals, before))
  {
    if DefinesMethod(node, globals) {
      SpoilIsAChange(before, AssignsAll(node.header) - globals, {}, BindsAll(node.header) - globals);
    } else {
      SpoilIsAChange(before, Assigns(node) - globals, Deleted(node) - globals, Binds(node) - globals);
    }
  }

  lemma WorstStepFate(at: nat, node: Node, globals: set<string>, before: Members, t: string)
    ensures FateIn(WorstStep(at, node, globals, before), t) == FateAfter(node, globals, t, FateIn(before, t))
  {
    if DefinesMethod(node, globals) {
      SpoilIsAChange(before, AssignsAll(node.header) - globals, {}, BindsAll(node.header) - globals);
      if node.name != t {
        DefinitionEffects(node, globals, t, FateIn(before, t));
      }
    } else {
      SpoilIsAChange(before, Assigns(node) - globals, Deleted(node) - globals, Binds(node) - globals);
    }
  }

  lemma {:induction false} WorstFate(body: seq<Node>, globals: set<string>, t: string)
    ensures FateIn(WorstUpTo(body, globals), t) == FateUpTo(body, globals, t)
  {
    if body != [] {
      var n := |body| - 1;
      WorstFate(body[..n], globals, t);
      WorstStepFate(n, body[n], globals, WorstUpTo(body[..n], globals), t);
    }
  }

  lemma WorstIsLeft(body: seq<Node>)
    ensures BodyLeaves(body, WorstMembers(body))
  {
    var globals := DeclaredAll(body);
    var states := seq(|body| + 1, i requires 0 <= i <= |body| => WorstUpTo(body[..i], globals));
    forall i | 0 <= i < |body|
      ensures BodyStep(i, body[i], globals, states[i], states[i + 1])
    {
      assert body[..i + 1][..i] == body[..i];
      WorstIsAStep(i, body[i], globals, states[i]);
    }
    assert body[..|body|] == body;
    assert BodyRun(body, states);
  }

  function WorstBodies(tree: seq<Node>): Bodies {
    map site | 0 <= site < |tree| && IsClassAt(tree, site) :: WorstMembers(tree[site].body)
  }

  lemma WorstBodiesAreLeft(tree: seq<Node>)
    ensures Leaves(tree, WorstBodies(tree))
  {
    forall site: nat | IsClassAt(tree, site)
      ensures BodyLeaves(tree[site].body, WorstMembers(tree[site].body))
    {
      WorstIsLeft(tree[site].body);
    }
  }

  // ---------------------------------------------------------------- along the resolution order

  /** How the class `o` leaves a name at worst. */
  function ClassFate(tree: seq<Node>, o: Object, t: string): Fate {
    if o.Class? && IsClassAt(tree, o.site) then BodyFate(tree[o.site].body, t) else Absent
  }

  /** What looking a name up along a line of classes comes to at worst. */
  function Expected(tree: seq<Node>, line: seq<Object>, t: string): Fate {
    if line == [] then Absent
    else if ClassFate(tree, line[0], t) != Absent then ClassFate(tree, line[0], t)
    else Expected(tree, line[1..], t)
  }

  lemma ClassAtWorst(tree: seq<Node>, made: Bodies, o: Object, t: string)
    requires Leaves(tree, made)
    ensures AtLeast(FateOf(made, o, t), ClassFate(tree, o, t))
  {
    if o.Class? && IsClassAt(tree, o.site) {
      LeftAtWorst(tree[o.site].body, made[o.site], t);
    }
  }

  /** Classes that are one as far as the module's statements tell. */
  predicate SameClass(a: Object, b: Object) {
    if a.Class? then b.Class? && b.site == a.site else a == b
  }

  ghost predicate BeginsWith(line: seq<Object>, longer: seq<Object>) {
    |line| <= |longer| && forall i | 0 <= i < |line| :: SameClass(line[i], longer[i])
  }

  /** What is expected of the beginning of a line is the least any run finds along it. */
  lemma {:induction false} LookUpAtWorst(
    tree: seq<Node>, made: Bodies, line: seq<Object>, longer: seq<Object>, t: string)
    requires Leaves(tree, made) && BeginsWith(line, longer) && Expected(tree, line, t) == Sound
    ensures LookUp(made, longer, t) == Sound
  {
    ClassAtWorst(tree, made, longer[0], t);
    assert ClassFate(tree, longer[0], t) == ClassFate(tree, line[0], t);
    if ClassFate(tree, line[0], t) == Absent {
      assert BeginsWith(line[1..], longer[1..]);
      LookUpAtWorst(tree, made, line[1..], longer[1..], t);
    }
  }

  lemma {:induction false} LookUpInWorst(tree: seq<Node>, line: seq<Object>, t: string)
    ensures LookUp(WorstBodies(tree), line, t) == Expected(tree, line, t)
  {
    if line != [] {
      LookUpInWorst(tree, line[1..], t);
      if line[0].Class? && IsClassAt(tree, line[0].site) {
        var body := tree[line[0].site].body;
        WorstFate(body, DeclaredAll(body), t);
      }
    }
  }

  // ---------------------------------------------------------------- the order of what fits

  lemma PositiveLength<T>(lists: seq<seq<T>>, i: nat)
    requires i < |lists| && lists[i] != []
    ensures TotalLength(lists) > 0
  {
    if i > 0 {
      PositiveLength(lists[1..], i - 1);
    }
  }

  /** All of `few` stand in `many`, in their order. */
  predicate Subsequence<T(==)>(few: seq<T>, many: seq<T>) {
    few == [] || (many != [] && Subsequence(Behead(few, many[0]), many[1..]))
  }

  lemma {:induction false} NoLength<T>(lists: seq<seq<T>>, i: nat)
    requires i < |lists| && TotalLength(lists) == 0
    ensures lists[i] == []
  {
    if i > 0 {
      NoLength(lists[1..], i - 1);
    }
  }

  /** A merge keeps the order of every list merged, and takes nothing from elsewhere. */
  lemma {:induction false} MergeKeepsOrders<T>(lists: seq<seq<T>>)
    requires Merge(lists).Some?
    ensures forall i | 0 <= i < |lists| :: Subsequence(lists[i], Merge(lists).value)
    ensures forall x | x in Merge(lists).value :: exists i | 0 <= i < |lists| :: x in lists[i]
    decreases TotalLength(lists)
  {
    var merged := Merge(lists).value;
    if TotalLength(lists) == 0 {
      forall i | 0 <= i < |lists|
        ensures lists[i] == []
      {
        NoLength(lists, i);
      }
    } else {
      var good := FirstGood(lists, 0).value;
      var less := BeheadAll(lists, lists[good][0]);
      MergeKeepsOrders(less);
      assert merged == [lists[good][0]] + Merge(less).value && merged[1..] == Merge(less).value;
      forall x | x in merged
        ensures exists i | 0 <= i < |lists| :: x in lists[i]
      {
        if x in Merge(less).value {
          var i :| 0 <= i < |less| && x in less[i];
          assert x in lists[i];
        }
      }
    }
  }

  function LinesOf(bases: seq<Object>): (lines: seq<seq<Object>>)
    ensures |lines| == |bases| && forall i | 0 <= i < |bases| :: lines[i] == LineageOf(bases[i]).known
  {
    seq(|bases|, i requires 0 <= i < |bases| => LineageOf(bases[i]).known)
  }

  lemma WholeIsMerged(o: Object)
    requires o.Class? && |o.bases| > 1 && LineageOf(o).whole
    ensures forall i | 0 <= i < |o.bases| :: LineageOf(o.bases[i]).whole
    ensures Merge(LinesOf(o.bases) + [o.bases]).Some?
    ensures LineageOf(o).known == [o] + Merge(LinesOf(o.bases) + [o.bases]).value
  {
    assert LinesOf(o.bases) == seq(|o.bases|, i requires 0 <= i < |o.bases| => LineageOf(o.bases[i]).known);
  }

  /**
   The resolution order of a class with several bases keeps their order and the order of each of them: a class two of
   them share comes after both.
   */
  lemma LineKeepsOrders(o: Object)
    requires o.Class? && |o.bases| > 1 && LineageOf(o).whole
    ensures Subsequence(o.bases, LineageOf(o).known[1..])
    ensures forall i | 0 <= i < |o.bases| :: Subsequence(LineageOf(o.bases[i]).known, LineageOf(o).known[1..])
    ensures forall x | x in LineageOf(o).known[1..] ::
              x in o.bases || exists i | 0 <= i < |o.bases| :: x in LineageOf(o.bases[i]).known
  {
    WholeIsMerged(o);
    MergeOfLines(LinesOf(o.bases), o.bases);
    assert LineageOf(o).known[1..] == Merge(LinesOf(o.bases) + [o.bases]).value;
  }

  lemma MergeOfLines(lines: seq<seq<Object>>, bases: seq<Object>)
    requires Merge(lines + [bases]).Some?
    ensures Subsequence(bases, Merge(lines + [bases]).value)
    ensures forall i | 0 <= i < |lines| :: Subsequence(lines[i], Merge(lines + [bases]).value)
    ensures forall x | x in Merge(lines + [bases]).value :: x in bases || exists i | 0 <= i < |lines| :: x in lines[i]
  {
    var lists := lines + [bases];
    MergeKeepsOrders(lists);
    assert lists[|lines|] == bases && forall i | 0 <= i < |lines| :: lists[i] == lines[i];
  }

  lemma MergeBegins<T>(lists: seq<seq<T>>)
    requires Merge(lists).Some? && TotalLength(lists) > 0
    ensures Merge(lists).value != []
    ensures exists i | 0 <= i < |lists| ::
              lists[i] != [] && InNoTail(lists, lists[i][0]) && Merge(lists).value[0] == lists[i][0]
  {
  }

  lemma LaterBasesWait(lists: seq<seq<Object>>, bases: seq<Object>, i: nat)
    requires bases in lists && 0 < i < |bases|
    ensures !InNoTail(lists, bases[i])
  {
    var k :| 0 <= k < |lists| && lists[k] == bases;
    assert lists[k][1..][i - 1] == bases[i];
  }

  /** Whatever the lines of its bases, a class is followed by the first of them. */
  lemma FirstBaseComesFirst(lines: seq<seq<Object>>, bases: seq<Object>)
    requires bases != [] && |lines| == |bases|
    requires forall i | 0 <= i < |bases| :: lines[i] != [] && lines[i][0] == bases[i]
    requires Merge(lines + [bases]).Some?
    ensures Merge(lines + [bases]).value != [] && Merge(lines + [bases]).value[0] == bases[0]
  {
    var lists := lines + [bases];
    PositiveLength(lists, |lines|);
    MergeBegins(lists);
    assert lists[|lines|] == bases;
    forall i | 0 < i < |bases|
      ensures !InNoTail(lists, bases[i])
    {
      LaterBasesWait(lists, bases, i);
    }
  }

  /** The line of a class begins with the class. */
  lemma BeginsWithItself(o: Object)
    requires IsClass(o)
    ensures LineageOf(o).known != [] && LineageOf(o).known[0] == o
  {
  }

  /** A class with a whole line has no unknown ancestor, so what fits it is the class itself. */
  lemma {:induction false} WholeIsItself(known: Object, o: Object)
    requires Fits(known, o) && LineageOf(known).whole
    ensures o == known
  {
    if known.Class? {
      forall i | 0 <= i < |known.bases|
        ensures o.bases[i] == known.bases[i]
      {
        WholeIsItself(known.bases[i], o.bases[i]);
      }
    }
  }

  /** The line of several bases, of which it is certain that the first comes first. */
  lemma SeveralBases(o: Object)
    requires o.Class? && |o.bases| > 1 && IsClass(o.bases[0])
    ensures BeginsWith([o, o.bases[0]], LineageOf(o).known)
  {
    if LineageOf(o).whole {
      WholeIsMerged(o);
      forall i | 0 <= i < |o.bases|
        ensures LinesOf(o.bases)[i] != [] && LinesOf(o.bases)[i][0] == o.bases[i]
      {
        WholeIsAClass(o.bases[i]);
        BeginsWithItself(o.bases[i]);
      }
      FirstBaseComesFirst(LinesOf(o.bases), o.bases);
    }
  }

  lemma WholeIsAClass(o: Object)
    requires LineageOf(o).whole
    ensures IsClass(o)
  {
  }

  /** What is certain of the line of a class holds of whatever fits it. */
  lemma {:induction false} LineFits(known: Object, o: Object)
    requires Fits(known, o)
    ensures BeginsWith(LineageOf(known).known, LineageOf(o).known)
  {
    if LineageOf(known).whole {
      WholeIsItself(known, o);
    } else if known.Class? {
      if |known.bases| == 1 {
        LineFits(known.bases[0], o.bases[0]);
      } else if IsClass(known.bases[0]) {
        assert Fits(known.bases[0], o.bases[0]);
        SeveralBases(o);
      } else {
        BeginsWithItself(o);
      }
    }
  }

  // ---------------------------------------------------------------- the theorem

  ghost predicate AlwaysCollects(tree: seq<Node>, n: string, site: nat, t: string) {
    forall envs, made | Run(tree, envs) && Leaves(tree, made) :: Collects(envs[|tree|], made, n, site, t)
  }

  ghost predicate SometimesMisses(tree: seq<Node>, n: string, site: nat, t: string) {
    exists envs, made :: Run(tree, envs) && Leaves(tree, made) && Misses(envs[|tree|], made, n, site, t)
  }

  /** What the careful analysis knows of the resolution order of a class it exposes. */
  function KnownLine(tree: seq<Node>, n: string): Lineage {
    if n in Careful(tree) then LineageOf(Careful(tree)[n]) else Lineage([], false)
  }

  function ExpectedIn(tree: seq<Node>, n: string, t: string): Fate {
    Expected(tree, KnownLine(tree, n).known, t)
  }

  /** No unknown object decides what looking up `t` comes to. */
  predicate Decided(tree: seq<Node>, n: string, t: string) {
    KnownLine(tree, n).whole || ExpectedIn(tree, n, t) != Absent
  }

  lemma CollectedIfExpected(tree: seq<Node>, n: string, site: nat, t: string)
    requires Exposes(Careful(tree), n, site) && "test" <= t && ExpectedIn(tree, n, t) == Sound
    ensures AlwaysCollects(tree, n, site, t)
  {
    forall envs, made | Run(tree, envs) && Leaves(tree, made)
      ensures Collects(envs[|tree|], made, n, site, t)
    {
      CarefulIsExact(tree, n, site);
      RunHolds(tree, envs);
      assert HoldsAt(Careful(tree), envs[|tree|], n);
      var known, o := Careful(tree)[n], envs[|tree|][n];
      LineFits(known, o);
      LookUpAtWorst(tree, made, LineageOf(known).known, LineageOf(o).known, t);
    }
  }

  lemma MissedIfNot(tree: seq<Node>, n: string, site: nat, t: string)
    requires Exposes(Careful(tree), n, site) && Decided(tree, n, t) && ExpectedIn(tree, n, t) != Sound
    ensures SometimesMisses(tree, n, site, t)
  {
    CarefulIsARun(tree);
    WorstBodiesAreLeft(tree);
    LookUpInWorst(tree, KnownLine(tree, n).known, t);
    assert Misses(CarefulRun(tree)[|tree|], WorstBodies(tree), n, site, t);
  }

  /**
   A class that every run exposes: `unittest` collects the test `t` from it after every run, if and only if the first
   class along its resolution order whose body can bind `t` certainly leaves it bound to something to call; otherwise
   some run misses it for certain. Where no class certain to come first can bind `t`, and an unknown base is among
   the ancestors, nothing is claimed of what that base may bind.
   */
  lemma CollectedExactly(tree: seq<Node>, n: string, site: nat, t: string)
    requires Exposes(Careful(tree), n, site) && "test" <= t
    ensures ExpectedIn(tree, n, t) == Sound ==> AlwaysCollects(tree, n, site, t)
    ensures Decided(tree, n, t) && ExpectedIn(tree, n, t) != Sound ==> SometimesMisses(tree, n, site, t)
    ensures SometimesMisses(tree, n, site, t) ==> !AlwaysCollects(tree, n, site, t)
  {
    if ExpectedIn(tree, n, t) == Sound {
      CollectedIfExpected(tree, n, site, t);
    } else if Decided(tree, n, t) {
      MissedIfNot(tree, n, site, t);
    }
  }

  // ---------------------------------------------------------------- the tests that are found

  /**
   What a citation relies on. On a module whose statements store openly, and unless an unknown base decides it,
   `unittest` collects the test `t` from a returned class after every run if and only if that first class leaves it
   sound.
   */
  lemma CitedTestsAreCollected(tree: seq<Node>, n: string, site: nat, t: string)
    requires AllStoreOpenly(tree) && Returned(tree, n, site) && "test" <= t
    ensures ExpectedIn(tree, n, t) == Sound ==> AlwaysCollects(tree, n, site, t)
    ensures Decided(tree, n, t) ==> (AlwaysCollects(tree, n, site, t) <==> ExpectedIn(tree, n, t) == Sound)
    ensures Decided(tree, n, t) ==> (SometimesMisses(tree, n, site, t) <==> ExpectedIn(tree, n, t) != Sound)
  {
    ReturnedIsExposed(tree, n, site);
    CollectedExactly(tree, n, site, t);
  }

  /** The line of an exposed class begins with it, so its own body decides wherever it can bind the name. */
  lemma OwnBodyDecides(tree: seq<Node>, n: string, site: nat, t: string)
    requires Exposes(Careful(tree), n, site) && IsClassAt(tree, site) && BodyFate(tree[site].body, t) != Absent
    ensures Decided(tree, n, t) && ExpectedIn(tree, n, t) == BodyFate(tree[site].body, t)
  {
    BeginsWithItself(Careful(tree)[n]);
  }

  /** `t` is credited to the class `n`, and some run leaves `unittest` without it. */
  ghost predicate FoundInVain(tree: seq<Node>, n: string, site: nat, t: string) {
    Returned(tree, n, site) && HasTest(tree, site, t) && SometimesMisses(tree, n, site, t)
  }

  /** A test whose name its class body can bind anew after the `def` is found all the same. */
  lemma FoundButNotCollected(tree: seq<Node>, n: string, site: nat, t: string)
    requires AllStoreOpenly(tree) && Returned(tree, n, site) && HasTest(tree, site, t)
    requires Decided(tree, n, t) && ExpectedIn(tree, n, t) != Sound
    ensures IsTest(tree, t) && FoundInVain(tree, n, site, t)
  {
    CitedTestsAreCollected(tree, n, site, t);
  }

  // ---------------------------------------------------------------- inherited tests

  lemma {:induction false} ExpectedInMore(tree: seq<Node>, node: Node, line: seq<Object>, t: string)
    requires forall x | x in line :: MadeBefore(x, |tree|)
    ensures Expected(tree + [node], line, t) == Expected(tree, line, t)
  {
    if line != [] {
      ExpectedInMore(tree, node, line[1..], t);
      assert MadeBefore(line[0], |tree|);
    }
  }

  lemma {:induction false} LineMadeBefore(o: Object, n: nat)
    requires MadeBefore(o, n)
    ensures forall x | x in LineageOf(o).known :: MadeBefore(x, n)
  {
    if o.Class? {
      forall i | 0 <= i < |o.bases|
        ensures forall x | x in LineageOf(o.bases[i]).known :: MadeBefore(x, n)
      {
        LineMadeBefore(o.bases[i], n);
      }
      if |o.bases| > 1 && LineageOf(o).whole {
        LineKeepsOrders(o);
        assert LineageOf(o).known == [o] + LineageOf(o).known[1..];
      }
    }
  }

  /** Class statement `b` has a single base, which is known to be `base`. */
  predicate DerivesOnlyFrom(tree: seq<Node>, b: Node, base: Object) {
    IsPlainClass(b) && !HasMetaclass(b) && |b.bases| == 1 && KnownObject(b.bases[0], Careful(tree)) == base
  }

  lemma KnownAsDerived(tree: seq<Node>, b: Node, base: Object)
    requires DerivesOnlyFrom(tree, b, base)
    ensures b.name in Careful(tree + [b]) && Careful(tree + [b])[b.name] == Class(|tree|, [base])
  {
    CarefulOneMore(tree, b);
    assert KnownObjects(b.bases, Careful(tree)) == [base];
  }

  lemma KnownIsMadeBefore(tree: seq<Node>, base: Node)
    ensures MadeBefore(KnownObject(base, Careful(tree)), |tree|)
  {
    CarefulMadeBefore(tree);
  }

  /** What is expected of such a class: what its body can leave, or else what is expected of its base. */
  lemma ExpectedOfDerived(tree: seq<Node>, b: Node, base: Object, t: string)
    requires DerivesOnlyFrom(tree, b, base)
    ensures KnownLine(tree + [b], b.name).whole == LineageOf(base).whole
    ensures ExpectedIn(tree + [b], b.name, t) ==
            if BodyFate(b.body, t) != Absent then BodyFate(b.body, t) else Expected(tree, LineageOf(base).known, t)
  {
    KnownAsDerived(tree, b, base);
    KnownIsMadeBefore(tree, b.bases[0]);
    LineMadeBefore(base, |tree|);
    ExpectedInMore(tree, b, LineageOf(base).known, t);
    var o := Class(|tree|, [base]);
    assert ([o] + LineageOf(base).known)[1..] == LineageOf(base).known;
    assert ClassFate(tree + [b], o, t) == BodyFate(b.body, t);
  }

  /**
   A test inherited from the only base is collected after every run, if the base gives it and the body does not bind it
   to anything else: `class B(A): pass`, or one that defines the test and deletes it again.
   */
  lemma InheritedTestIsCollected(tree: seq<Node>, a: string, site: nat, b: Node, t: string)
    requires Exposes(Careful(tree), a, site) && "test" <= t && ExpectedIn(tree, a, t) == Sound
    requires IsPlainClass(b) && !HasMetaclass(b) && b.bases == [Name(a, Load)] && BodyFate(b.body, t) == Absent
    ensures AlwaysCollects(tree + [b], b.name, |tree|, t)
  {
    var base := Careful(tree)[a];
    KnownAsDerived(tree, b, base);
    ExpectedOfDerived(tree, b, base, t);
    assert Derives(Careful(tree + [b])[b.name].bases[0]);
    CollectedIfExpected(tree + [b], b.name, |tree|, t);
  }

  // ---------------------------------------------------------------- tests found in vain

  lemma NoTestsOfUnittest(tree: seq<Node>, base: Object, t: string)
    requires base.UnittestCase?
    ensures LineageOf(base).whole && Expected(tree, LineageOf(base).known, t) == Absent
  {
    var line := LineageOf(base).known;
    assert line[0] == base && forall x | x in line[1..] :: x.UnittestCase?;
    assert |line| == 2 ==> Expected(tree, line[1..], t) == Expected(tree, line[1..][1..], t);
  }

  /** A class whose only base is one of `unittest`'s has no tests but its own. */
  lemma OnlyItsOwnTests(tree: seq<Node>, c: Node, base: Object, t: string)
    requires DerivesOnlyFrom(tree, c, base) && base.UnittestCase?
    ensures Decided(tree + [c], c.name, t) && ExpectedIn(tree + [c], c.name, t) == BodyFate(c.body, t)
  {
    NoTestsOfUnittest(tree, base, t);
    ExpectedOfDerived(tree, c, base, t);
  }

  /** After `del t` a body leaves `t` unbound, unless it is a global there. */
  lemma DeletedIsAbsent(body: seq<Node>, t: string)
    requires body != [] && body[|body| - 1] == Delete([Name(t, Del)]) && t !in DeclaredAll(body)
    ensures BodyFate(body, t) == Absent
  {
    var targets := body[|body| - 1].targets;
    assert UnboundAll(targets) == Unbound(targets[0]) + UnboundAll(targets[1..]);
    assert AssignsAll(targets) == Assigns(targets[0]) + AssignsAll(targets[1..]);
    assert t in Deleted(body[|body| - 1]) && t !in Assigns(body[|body| - 1]);
  }

  const DELETING_BODY := [FunctionDef("test_a", [], [], []), Delete([Name("test_a", Del)])]
  const DELETING := ClassDef("Blockers", [], [Name("TestCase", Load)], [], DELETING_BODY)

  lemma DeclaresNothing(body: seq<Node>)
    requires |body| == 2 && body[0].FunctionDef? && body[1].Delete?
    ensures DeclaredAll(body) == {} && EscapesAll(body) == {}
  {
    var tail := body[1..];
    assert tail[0] == body[1] && tail[1..] == [];
    assert DeclaredAll(tail) == Declared(tail[0]) + DeclaredAll(tail[1..]);
    assert EscapesAll(tail) == Escapes(tail[0]) + EscapesAll(tail[1..]);
  }

  lemma ImportedIsACase()
    ensures KnownObject(Name("TestCase", Load), Careful([IMPORT])).UnittestCase?
  {
    ImportIsKnown();
    ImportStoresOpenly();
    AnalysesAgree([IMPORT], false);
    assert AgreesAt(Analyse([IMPORT]), Careful([IMPORT]), false, "TestCase");
  }

  lemma SpoiledTestIsFoundInVain(c: Node, n: string, t: string)
    requires IsPlainClass(c) && c.name == n && c.bases == [Name("TestCase", Load)] && c.keywords == []
    requires Escapes(c) == {}
    requires HasTest([IMPORT, c], 1, t) && BodyFate(c.body, t) != Sound
    ensures FoundInVain([IMPORT, c], n, 1, t)
  {
    ImportedBaseIsReturned(c, n);
    SmallModuleIsOpen(c);
    ImportedIsACase();
    assert [IMPORT] + [c] == [IMPORT, c];
    OnlyItsOwnTests([IMPORT], c, KnownObject(c.bases[0], Careful([IMPORT])), t);
    FoundButNotCollected([IMPORT, c], n, 1, t);
  }

  /** One module that cites in vain: `class Blockers(TestCase)` whose body holds `def test_a` and then `del test_a`. */
  lemma DeletedTestIsStillFound()
    ensures FoundInVain([IMPORT, DELETING], "Blockers", 1, "test_a")
  {
    DeclaresNothing(DELETING_BODY);
    DeletedIsAbsent(DELETING_BODY, "test_a");
    assert DELETING.body[0].FunctionDef? && DELETING.body[0].name == "test_a";
    SpoiledTestIsFoundInVain(DELETING, "Blockers", "test_a");
  }
}
