/**
 A small execution semantics for a Python module: its statements run in order, each may rebind any of the names it
 stores, a class statement fixes the bases of its class when it runs, and what `unittest` finds in a class is looked up
 along its method resolution order.
 */
module ModuleExecution {
  import opened Basics
  import opened PythonAst

  const CASE_EXPORTS := {"TestCase", "IsolatedAsyncioTestCase", "FunctionTestCase"}

  /**
   What a name can be bound to. A class made by the module's own statement number `site` carries the objects its bases
   evaluated to; a statement at module scope runs once, so the number tells its class from all others. `Thing` is any
   other object.
   */
  datatype Object =
    | Unittest
    | UnittestCase(exported: string)
    | Class(site: nat, bases: seq<Object>)
    | Thing

  /** Whether `unittest` takes an object as a test case: it derives from one of its case classes. */
  predicate Derives(o: Object) {
    match o
    case UnittestCase(_) => true
    case Class(_, bases) => exists i | 0 <= i < |bases| :: Derives(bases[i])
    case _ => false
  }

  type Env = map<string, Object>

  ghost predicate AgreeAt<T>(before: map<string, T>, after: map<string, T>, n: string) {
    (n in before <==> n in after) && (n in before ==> before[n] == after[n])
  }

  /** Every name outside `stores` is bound as it was; those in it are bound or unbound anyhow. */
  ghost predicate Rebinds(before: Env, after: Env, stores: set<string>) {
    forall n | n !in stores :: AgreeAt(before, after, n)
  }

  // ---------------------------------------------------------------- imports

  predicate ImportsModule(alias: Alias) {
    if alias.asname.Some? then alias.name == "unittest"
    else alias.name == "unittest" || "unittest." <= alias.name
  }

  predicate FromUnittest(node: Node)
    requires node.ImportFrom?
  {
    && node.level == 0
    && node.from.Some?
    && node.from.value in {"unittest", "unittest.case", "unittest.async_case"}
  }

  predicate ImportsStar(names: seq<Alias>) {
    exists i | 0 <= i < |names| :: names[i].name == "*"
  }

  /** The object the alias `k` of an import is bound to, where the import fixes it. */
  ghost predicate ImportGives(node: Node, k: nat, o: Object)
    requires (node.Import? || node.ImportFrom?) && k < |node.names|
  {
    && (node.Import? && ImportsModule(node.names[k]) ==> o == Unittest)
    && (node.ImportFrom? && FromUnittest(node) && node.names[k].name in CASE_EXPORTS ==>
        o == UnittestCase(node.names[k].name))
  }

  /** Binding the first `k` aliases in order: of two that bind one name the later one stays. */
  function BindAliases(env: Env, names: seq<Alias>, objects: seq<Object>, k: nat): Env
    requires k <= |names| == |objects|
  {
    if k == 0 then env else BindAliases(env, names, objects, k - 1)[Target(names[k - 1]) := objects[k - 1]]
  }

  ghost predicate ImportStep(node: Node, before: Env, after: Env)
    requires node.Import? || node.ImportFrom?
  {
    if ImportsStar(node.names) then true
    else exists objects: seq<Object> ::
           && |objects| == |node.names|
           && (forall k | 0 <= k < |objects| :: ImportGives(node, k, objects[k]))
           && after == BindAliases(before, node.names, objects, |objects|)
  }

  // ---------------------------------------------------------------- classes

  /** `base` names one of the case classes through a module name. */
  predicate IsExportOf(base: Node) {
    base.Attribute? && base.attr in CASE_EXPORTS && base.value.Name?
  }

  /** Evaluating one base expression: a bare name reads its binding, anything else yields any object. */
  ghost predicate EvalBase(base: Node, before: Env, o: Object, after: Env) {
    && Rebinds(before, after, Stores(base))
    && (base.Name? && base.id in before ==> o == before[base.id])
    && (IsExportOf(base) && base.value.id in before && before[base.value.id] == Unittest ==>
        o == UnittestCase(base.attr))
  }

  ghost predicate EvalBases(bases: seq<Node>, before: Env, objects: seq<Object>, after: Env)
    decreases |bases|
  {
    && |objects| == |bases|
    && if bases == [] then after == before
       else
         exists mid: Env ::
           EvalBase(bases[0], before, objects[0], mid) && EvalBases(bases[1..], mid, objects[1..], after)
  }

  /** A metaclass, named or passed through `**`, decides itself what the statement binds. */
  predicate HasMetaclass(c: Node)
    requires c.ClassDef?
  {
    exists i | 0 <= i < |c.keywords| :: c.keywords[i].Keyword? && c.keywords[i].arg in {Some("metaclass"), None}
  }

  /** What a class statement can rebind once its bases are evaluated, its own name aside. */
  function TailStores(c: Node): set<string>
    requires c.ClassDef?
  {
    StoresAll(c.keywords) + Escapes(c)
  }

  ghost predicate ClassGives(site: nat, c: Node, objects: seq<Object>, o: Object)
    requires c.ClassDef?
  {
    HasMetaclass(c) || o == Class(site, objects)
  }

  ghost predicate ClassStep(site: nat, c: Node, before: Env, after: Env)
    requires c.ClassDef?
  {
    exists objects: seq<Object>, mid: Env, late: Env, o: Object ::
      && EvalBases(c.bases, before, objects, mid)
      && Rebinds(mid, late, TailStores(c))
      && ClassGives(site, c, objects, o)
      && after == late[c.name := o]
  }

  // ---------------------------------------------------------------- modules

  predicate IsPlainClass(node: Node) {
    node.ClassDef? && node.decorators == []
  }

  /** One statement at module scope; a decorator may return anything, so a decorated class is any statement. */
  ghost predicate Step(site: nat, node: Node, before: Env, after: Env) {
    if IsPlainClass(node) then ClassStep(site, node, before, after)
    else if node.Import? || node.ImportFrom? then ImportStep(node, before, after)
    else Rebinds(before, after, Stores(node))
  }

  /** The bindings before the first statement, after each, and so at the end of the module. */
  ghost predicate Run(tree: seq<Node>, envs: seq<Env>) {
    && |envs| == |tree| + 1
    && envs[0] == map[]
    && forall i | 0 <= i < |tree| :: Step(i, tree[i], envs[i], envs[i + 1])
  }

  /** `n` is bound to the class statement `site` made, and `unittest` collects it. */
  ghost predicate Exposes(env: Env, n: string, site: nat) {
    n in env && env[n].Class? && env[n].site == site && Derives(env[n])
  }

  // ---------------------------------------------------------------- class bodies

  /** What a class body can bind a name to: the function its statement number `at` defines, or any other value. */
  datatype Member = Method(at: nat) | Value(callable: bool)

  type Members = map<string, Member>

  /** A `def` that binds, in the body, its name to the very function it defines. */
  predicate DefinesMethod(node: Node, globals: set<string>) {
    node.FunctionDef? && node.decorators == [] && node.name !in globals
  }

  /** `free` names may be bound or unbound anyhow, `gone` names are unbound, `loose` names may be unbound. */
  ghost predicate ChangesAt(
    before: Members, after: Members, free: set<string>, gone: set<string>, loose: set<string>, n: string)
  {
    if n in free then true
    else if n in gone then n !in after
    else AgreeAt(before, after, n) || (n in loose && n !in after)
  }

  ghost predicate Changes(before: Members, after: Members, free: set<string>, gone: set<string>, loose: set<string>) {
    forall n :: ChangesAt(before, after, free, gone, loose, n)
  }

  /** One statement of a class body, in which `globals` are declared global: a plain `def` binds its function last. */
  ghost predicate BodyStep(at: nat, node: Node, globals: set<string>, before: Members, after: Members) {
    if DefinesMethod(node, globals) then
      exists mid: Members ::
        && Changes(before, mid, AssignsAll(node.header) - globals, {}, BindsAll(node.header) - globals)
        && after == mid[node.name := Method(at)]
    else Changes(before, after, Assigns(node) - globals, Deleted(node) - globals, Binds(node) - globals)
  }

  ghost predicate BodyRun(body: seq<Node>, states: seq<Members>) {
    && |states| == |body| + 1
    && states[0] == map[]
    && forall i | 0 <= i < |body| :: BodyStep(i, body[i], DeclaredAll(body), states[i], states[i + 1])
  }

  /** Some run of the body leaves `members`. */
  ghost predicate BodyLeaves(body: seq<Node>, members: Members) {
    exists states :: BodyRun(body, states) && states[|body|] == members
  }

  /** What the class statements of a module left in their classes, by their numbers. */
  type Bodies = map<nat, Members>

  predicate IsClassAt(tree: seq<Node>, site: nat) {
    site < |tree| && tree[site].ClassDef?
  }

  ghost predicate Leaves(tree: seq<Node>, made: Bodies) {
    && (forall site | site in made :: IsClassAt(tree, site) && BodyLeaves(tree[site].body, made[site]))
    && forall site: nat | IsClassAt(tree, site) :: site in made
  }

  // ---------------------------------------------------------------- the method resolution order

  function TotalLength<T>(lists: seq<seq<T>>): nat {
    if lists == [] then 0 else |lists[0]| + TotalLength(lists[1..])
  }

  /** `x` stands behind the head of none of the lists. */
  predicate InNoTail<T(==)>(lists: seq<seq<T>>, x: T) {
    forall i | 0 <= i < |lists| && lists[i] != [] :: x !in lists[i][1..]
  }

  /** The place of the first list whose head is in no tail. */
  function FirstGood<T(==)>(lists: seq<seq<T>>, from: nat): (r: Option<nat>)
    requires from <= |lists|
    ensures r.Some? ==>
      && from <= r.value < |lists|
      && lists[r.value] != []
      && InNoTail(lists, lists[r.value][0])
    decreases |lists| - from
  {
    if from == |lists| then None
    else if lists[from] != [] && InNoTail(lists, lists[from][0]) then Some(from)
    else FirstGood(lists, from + 1)
  }

  function Behead<T(==)>(list: seq<T>, x: T): seq<T> {
    if list != [] && list[0] == x then list[1..] else list
  }

  function BeheadAll<T(==)>(lists: seq<seq<T>>, x: T): (less: seq<seq<T>>)
    ensures |less| == |lists| && TotalLength(less) <= TotalLength(lists)
    ensures forall i | 0 <= i < |lists| :: less[i] == Behead(lists[i], x)
    ensures (exists i | 0 <= i < |lists| :: lists[i] != [] && lists[i][0] == x) ==>
            TotalLength(less) < TotalLength(lists)
  {
    if lists == [] then [] else [Behead(lists[0], x)] + BeheadAll(lists[1..], x)
  }

  /** The merge of C3: again and again the first head that stands in no tail; none where all heads do. */
  function Merge<T(==)>(lists: seq<seq<T>>): Option<seq<T>>
    decreases TotalLength(lists)
  {
    if TotalLength(lists) == 0 then Some([])
    else
      var good := FirstGood(lists, 0);
      if good.None? then None
      else
        var x := lists[good.value][0];
        var rest := Merge(BeheadAll(lists, x));
        if rest.None? then None else Some([x] + rest.value)
  }

  /** The classes certain to come first in a method resolution order, in order, and whether they are all of it. */
  datatype Lineage = Lineage(known: seq<Object>, whole: bool)

  predicate IsClass(o: Object) {
    o.UnittestCase? || o.Class?
  }

  /**
   The order of a class is settled by those of its bases. Of an object that is unknown nothing is certain, and a class
   with such an ancestor is followed for certain only by its only base, or else the first of them.
   */
  function LineageOf(o: Object): Lineage {
    match o
    case UnittestCase(exported) =>
      Lineage(if exported == "TestCase" then [o] else [o, UnittestCase("TestCase")], true)
    case Class(_, bases) =>
      if bases == [] then Lineage([o], true)
      else if |bases| == 1 then
        var only := LineageOf(bases[0]);
        Lineage([o] + only.known, only.whole)
      else
        var lines := seq(|bases|, i requires 0 <= i < |bases| => LineageOf(bases[i]).known);
        var merged :=
          if forall i | 0 <= i < |bases| :: LineageOf(bases[i]).whole then Merge(lines + [bases]) else None;
        if merged.Some? then Lineage([o] + merged.value, true)
        else Lineage([o] + (if IsClass(bases[0]) then [bases[0]] else []), false)
    case _ => Lineage([], false)
  }

  // ---------------------------------------------------------------- what is found in a class

  /** How a class body leaves a name: bound to what cannot be called, unbound, or bound to what can. */
  datatype Fate = Spoiled | Absent | Sound

  function FateIn(members: Members, t: string): Fate {
    if t !in members then Absent else if members[t].Method? || members[t].callable then Sound else Spoiled
  }

  /** None of the case classes of `unittest` binds a name that begins with `test`. */
  function FateOf(made: Bodies, o: Object, t: string): Fate {
    if o.Class? && o.site in made then FateIn(made[o.site], t) else Absent
  }

  /** The first class along the line that binds the name decides. */
  function LookUp(made: Bodies, line: seq<Object>, t: string): Fate {
    if line == [] then Absent
    else if FateOf(made, line[0], t) != Absent then FateOf(made, line[0], t)
    else LookUp(made, line[1..], t)
  }

  /** Whether looking up `t` in a class finds something to call; none where an unknown object decides it. */
  function Finds(made: Bodies, o: Object, t: string): Option<bool> {
    var line := LineageOf(o);
    match LookUp(made, line.known, t)
    case Sound => Some(true)
    case Spoiled => Some(false)
    case Absent => if line.whole then Some(false) else None
  }

  /** `unittest` collects the test `t` from the class that statement `site` made and the module exposes as `n`. */
  ghost predicate Collects(env: Env, made: Bodies, n: string, site: nat, t: string) {
    Exposes(env, n, site) && "test" <= t && Finds(made, env[n], t) == Some(true)
  }

  /** It collects no such test from it, whatever the objects are that the module does not know. */
  ghost predicate Misses(env: Env, made: Bodies, n: string, site: nat, t: string) {
    Exposes(env, n, site) && Finds(made, env[n], t) == Some(false)
  }
}
