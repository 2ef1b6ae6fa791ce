/**
 `check_contract_citations.module_cases` and `python_tests`: the classes of a module it takes for test cases, found by
 reading its statements in order, and the tests in their bodies.
 */
module TestCases {
  import opened Basics
  import opened PythonAst
  import opened ModuleExecution

  // ---------------------------------------------------------------- the analysis

  /** The four collections the analyser updates. `bound` names a class by its place in the module. */
  datatype Facts = Facts(
    modules: set<string>, direct: set<string>, bound: map<string, Option<nat>>, isCase: map<string, bool>)

  predicate IsCaseBase(base: Node, modules: set<string>, direct: set<string>) {
    match base
    case Name(id, _) => id in direct
    case Attribute(value, attr) => attr in CASE_EXPORTS && value.Name? && value.id in modules
    case _ => false
  }

  predicate KnownCase(isCase: map<string, bool>, n: string) {
    n in isCase && isCase[n]
  }

  predicate BaseIsCase(base: Node, facts: Facts) {
    IsCaseBase(base, facts.modules, facts.direct) || (base.Name? && KnownCase(facts.isCase, base.id))
  }

  /** `forget`, `bound[name] = None` and `is_case.pop(name, None)` for every name of `names`. */
  function Clear(facts: Facts, names: set<string>): Facts {
    Facts(facts.modules - names,
          facts.direct - names,
          facts.bound + map n | n in names :: None,
          facts.isCase - names)
  }

  /** The names the aliases of `import` make known as the module. */
  function ModuleCredits(names: seq<Alias>): set<string> {
    set alias | alias in names && ImportsModule(alias) :: if alias.asname.Some? then alias.asname.value else "unittest"
  }

  /** The names the aliases of `from unittest import` make known as case classes. */
  function CaseCredits(names: seq<Alias>): set<string> {
    set alias | alias in names && alias.name in CASE_EXPORTS ::
      if alias.asname.Some? then alias.asname.value else alias.name
  }

  function CreditedModules(node: Node): set<string> {
    if node.Import? then ModuleCredits(node.names) else {}
  }

  function CreditedCases(node: Node): set<string> {
    if node.ImportFrom? && FromUnittest(node) then CaseCredits(node.names) else {}
  }

  function BindClass(facts: Facts, n: string, site: nat, derives: bool): Facts {
    Facts(facts.modules - {n}, facts.direct - {n}, facts.bound[n := Some(site)], facts.isCase[n := derives])
  }

  function StepFacts(facts: Facts, site: nat, node: Node): Facts {
    if IsPlainClass(node) then
      BindClass(facts, node.name, site, exists i | 0 <= i < |node.bases| :: BaseIsCase(node.bases[i], facts))
    else
      var cleared := Clear(facts, Reported(node));
      cleared.(modules := cleared.modules + CreditedModules(node), direct := cleared.direct + CreditedCases(node))
  }

  const NOTHING_KNOWN := Facts({}, {}, map[], map[])

  function Analyse(tree: seq<Node>): Facts {
    if tree == [] then NOTHING_KNOWN
    else StepFacts(Analyse(tree[..|tree| - 1]), |tree| - 1, tree[|tree| - 1])
  }

  lemma AnalyseOneMore(tree: seq<Node>, node: Node)
    ensures Analyse(tree + [node]) == StepFacts(Analyse(tree), |tree|, node)
  {
    assert (tree + [node])[..|tree|] == tree;
  }

  /** The dict comprehension `module_cases` returns. */
  function Cases(facts: Facts): map<string, nat> {
    map n | n in facts.bound && facts.bound[n].Some? && KnownCase(facts.isCase, n) :: facts.bound[n].value
  }

  lemma ClearOneMore(facts: Facts, names: set<string>, name: string)
    ensures Clear(facts, names + {name}) ==
            var Facts(modules, direct, bound, isCase) := Clear(facts, names);
            Facts(modules - {name}, direct - {name}, bound[name := None], isCase - {name})
  {
    var cleared := Clear(facts, names);
    assert Clear(facts, names + {name}).bound == cleared.bound[name := None];
    assert facts.isCase - (names + {name}) == cleared.isCase - {name};
  }

  lemma ClearNothing(facts: Facts)
    ensures Clear(facts, {}) == facts
  {
    assert Clear(facts, {}).bound == facts.bound;
    assert Clear(facts, {}).isCase == facts.isCase;
  }

  /** The loop that clears the names a statement rebinds. */
  method ClearNames(facts: Facts, names: set<string>) returns (cleared: Facts)
    ensures cleared == Clear(facts, names)
  {
    cleared := facts;
    var left := names;
    ghost var done := {};
    ClearNothing(facts);
    while left != {}
      invariant done + left == names
      invariant cleared == Clear(facts, done)
      decreases left
    {
      var name :| name in left;
      ClearOneMore(facts, done, name);
      left, done := left - {name}, done + {name};
      cleared := Facts(
        cleared.modules - {name}, cleared.direct - {name}, cleared.bound[name := None], cleared.isCase - {name});
    }
    assert done == names;
  }

  lemma OneMoreAlias(names: seq<Alias>, k: nat)
    requires k < |names|
    ensures ModuleCredits(names[..k + 1]) == ModuleCredits(names[..k]) + ModuleCredits([names[k]])
    ensures CaseCredits(names[..k + 1]) == CaseCredits(names[..k]) + CaseCredits([names[k]])
  {
    assert names[..k + 1] == names[..k] + [names[k]];
  }

  /** The loop over the aliases of an `import`. */
  method CreditModules(names: seq<Alias>, known: set<string>) returns (modules: set<string>)
    ensures modules == known + ModuleCredits(names)
  {
    modules := known;
    for k := 0 to |names|
      invariant modules == known + ModuleCredits(names[..k])
    {
      var alias := names[k];
      OneMoreAlias(names, k);
      if alias.asname.Some? {
        if alias.name == "unittest" {
          modules := modules + {alias.asname.value};
        }
      } else if alias.name == "unittest" || "unittest." <= alias.name {
        modules := modules + {"unittest"};
      }
    }
    assert names[..|names|] == names;
  }

  /** The loop over the aliases of a `from unittest import`. */
  method CreditCases(names: seq<Alias>, known: set<string>) returns (direct: set<string>)
    ensures direct == known + CaseCredits(names)
  {
    direct := known;
    for k := 0 to |names|
      invariant direct == known + CaseCredits(names[..k])
    {
      var alias := names[k];
      OneMoreAlias(names, k);
      if alias.name in CASE_EXPORTS {
        direct := direct + {if alias.asname.Some? then alias.asname.value else alias.name};
      }
    }
    assert names[..|names|] == names;
  }

  method CreditImport(node: Node, known: Facts) returns (credited: Facts)
    ensures credited ==
            known.(modules := known.modules + CreditedModules(node), direct := known.direct + CreditedCases(node))
  {
    var modules, direct := known.modules, known.direct;
    if node.Import? {
      modules := CreditModules(node.names, modules);
    } else if node.ImportFrom? && FromUnittest(node) {
      direct := CreditCases(node.names, direct);
    }
    credited := known.(modules := modules, direct := direct);
  }

  /** `module_cases`, statement by statement, each class by its place in the module's body. */
  method ModuleCases(tree: seq<Node>) returns (cases: map<string, nat>)
    ensures cases == Cases(Analyse(tree))
  {
    var facts := NOTHING_KNOWN;
    for site := 0 to |tree|
      invariant facts == Analyse(tree[..site])
    {
      var node := tree[site];
      assert tree[..site + 1][..site] == tree[..site];
      if IsPlainClass(node) {
        var derives := exists i | 0 <= i < |node.bases| :: BaseIsCase(node.bases[i], facts);
        facts := BindClass(facts, node.name, site, derives);
      } else {
        var names := ReboundNames(node);
        var cleared := ClearNames(facts, names);
        facts := CreditImport(node, cleared);
      }
    }
    assert tree[..|tree|] == tree;
    cases := Cases(facts);
  }

  // ---------------------------------------------------------------- the tests of a module

  /** Statement `site` is a class statement whose body defines the method `t`, a `test*` name. */
  ghost predicate HasTest(tree: seq<Node>, site: nat, t: string) {
    && site < |tree|
    && tree[site].ClassDef?
    && "test" <= t
    && exists k | 0 <= k < |tree[site].body| :: tree[site].body[k].FunctionDef? && tree[site].body[k].name == t
  }

  /** `t` is a test of one of the module's cases. */
  ghost predicate IsTest(tree: seq<Node>, t: string) {
    var cases := Cases(Analyse(tree));
    exists n | n in cases :: HasTest(tree, cases[n], t)
  }

  predicate BoundToClass(tree: seq<Node>, site: nat) {
    site < |tree| && IsPlainClass(tree[site])
  }

  lemma {:induction false} BoundToClasses(tree: seq<Node>, n: string)
    requires n in Analyse(tree).bound && Analyse(tree).bound[n].Some?
    ensures BoundToClass(tree, Analyse(tree).bound[n].value)
  {
    assert tree != [];
    var before, node := tree[..|tree| - 1], tree[|tree| - 1];
    var facts := Analyse(before);
    assert Analyse(tree) == StepFacts(facts, |tree| - 1, node);
    if !(IsPlainClass(node) && node.name == n) {
      assert n in facts.bound && facts.bound[n] == Analyse(tree).bound[n];
      BoundToClasses(before, n);
    }
  }

  /** The `test*` methods of one class body. */
  method TestMethods(c: Node) returns (found: set<string>)
    requires c.ClassDef?
    ensures forall t :: t in found <==>
      "test" <= t && exists k | 0 <= k < |c.body| :: c.body[k].FunctionDef? && c.body[k].name == t
  {
    found := {};
    for k := 0 to |c.body|
      invariant forall t :: t in found <==>
        "test" <= t && exists j | 0 <= j < k :: c.body[j].FunctionDef? && c.body[j].name == t
    {
      if c.body[k].FunctionDef? && "test" <= c.body[k].name {
        found := found + {c.body[k].name};
      }
    }
  }

  /** `python_tests` of a module that parses. */
  method PythonTests(tree: seq<Node>) returns (found: set<string>)
    ensures forall t :: t in found <==> IsTest(tree, t)
  {
    found := {};
    var cases := ModuleCases(tree);
    var left := cases.Keys;
    while left != {}
      invariant left <= cases.Keys
      invariant forall t :: t in found <==> exists n | n in cases && n !in left :: HasTest(tree, cases[n], t)
      decreases left
    {
      var n :| n in left;
      BoundToClasses(tree, n);
      var tests := TestMethods(tree[cases[n]]);
      ghost var before := found;
      found := found + tests;
      ghost var seen := left;
      left := left - {n};
      forall t
        ensures t in found <==> exists m | m in cases && m !in left :: HasTest(tree, cases[m], t)
      {
        assert t in tests <==> HasTest(tree, cases[n], t);
        if t in before {
          var m :| m in cases && m !in seen && HasTest(tree, cases[m], t);
          assert m !in left;
        }
        if exists m | m in cases && m !in left :: HasTest(tree, cases[m], t) {
          var m :| m in cases && m !in left && HasTest(tree, cases[m], t);
          assert m == n || m !in seen;
        }
      }
    }
  }
}
