/**
 When `module_cases` tells the truth. It is sound on a module exactly when the careful analysis exposes each class it
 returns, and complete exactly when it returns each class that analysis exposes; both hold wherever no statement stores
 behind its report or reports what it does not store.
 */
module TestCasesSound {
  import opened Basics
  import opened PythonAst
  import opened ModuleExecution
  import opened CarefulAnalysis
  import opened TestCases

  /** `module_cases` returns `n` as the class of statement `site`. */
  predicate Returned(tree: seq<Node>, n: string, site: nat) {
    n in Cases(Analyse(tree)) && Cases(Analyse(tree))[n] == site
  }

  /** What `module_cases` promises: each class it returns is exposed at the end of every run. */
  ghost predicate SoundOn(tree: seq<Node>) {
    forall n, site | Returned(tree, n, site) :: AlwaysExposes(tree, n, site)
  }

  /** The careful analysis exposes every class `module_cases` returns. */
  ghost predicate Confirmed(tree: seq<Node>) {
    forall n, site | Returned(tree, n, site) :: Exposes(Careful(tree), n, site)
  }

  /** `module_cases` is sound on a module exactly when the careful analysis exposes all it returns. */
  lemma SoundExactlyWhenConfirmed(tree: seq<Node>)
    ensures SoundOn(tree) <==> Confirmed(tree)
  {
    forall n, site | Returned(tree, n, site)
      ensures AlwaysExposes(tree, n, site) <==> Exposes(Careful(tree), n, site)
    {
      CarefulIsExact(tree, n, site);
    }
  }

  /** Every class that every run exposes is returned. */
  ghost predicate CompleteOn(tree: seq<Node>) {
    forall n, site | AlwaysExposes(tree, n, site) :: Returned(tree, n, site)
  }

  /** `module_cases` keeps every class the careful analysis exposes. */
  ghost predicate Kept(tree: seq<Node>) {
    forall n, site | Exposes(Careful(tree), n, site) :: Returned(tree, n, site)
  }

  /** `module_cases` is complete on a module exactly when it keeps all the careful analysis exposes. */
  lemma CompleteExactlyWhenKept(tree: seq<Node>)
    ensures CompleteOn(tree) <==> Kept(tree)
  {
    forall n, site
      ensures AlwaysExposes(tree, n, site) <==> Exposes(Careful(tree), n, site)
    {
      CarefulIsExact(tree, n, site);
    }
  }

  // ---------------------------------------------------------------- modules it is sound and complete on

  predicate BindsOnce(names: seq<Alias>) {
    forall i, j | 0 <= i < j < |names| :: Target(names[i]) != Target(names[j])
  }

  /** No star import, no import that binds one name twice, no store in a header or through `global`, no metaclass. */
  predicate StoresOpenly(node: Node) {
    if IsPlainClass(node) then StoresAll(node.bases) == {} && TailStores(node) == {} && !HasMetaclass(node)
    else if node.Import? || node.ImportFrom? then !ImportsStar(node.names) && BindsOnce(node.names)
    else HeadersStoreNothing(node)
  }

  predicate AllStoreOpenly(tree: seq<Node>) {
    forall i | 0 <= i < |tree| :: StoresOpenly(tree[i])
  }

  /** Whatever a statement mentions without binding it, it also rebinds. */
  predicate MentionsNothingElse(node: Node) {
    IsPlainClass(node) || Phantoms(node) <= Stores(node)
  }

  predicate AllMentionNothingElse(tree: seq<Node>) {
    forall i | 0 <= i < |tree| :: MentionsNothingElse(tree[i])
  }

  /** What the analyser believes of a name is known of it, and, where `exact`, the other way round. */
  ghost predicate AgreesAt(facts: Facts, known: Env, exact: bool, n: string) {
    && (n in facts.modules ==> n in known && known[n] == Unittest)
    && (n in facts.direct ==> n in known && known[n].UnittestCase?)
    && (KnownCase(facts.isCase, n) ==>
        n in facts.bound && facts.bound[n].Some? && Exposes(known, n, facts.bound[n].value))
    && (exact && n in known ==>
          && (known[n] == Unittest ==> n in facts.modules)
          && (known[n].UnittestCase? ==> n in facts.direct)
          && (known[n].Class? && Derives(known[n]) ==> KnownCase(facts.isCase, n)))
  }

  ghost predicate Agrees(facts: Facts, known: Env, exact: bool) {
    forall n :: AgreesAt(facts, known, exact, n)
  }

  lemma ClearAgrees(facts: Facts, known: Env, exact: bool, names: set<string>, fewer: set<string>)
    requires Agrees(facts, known, exact) && fewer <= names && (exact ==> fewer == names)
    ensures Agrees(Clear(facts, names), Blank(known, fewer), exact)
  {
    var cleared, blanked := Clear(facts, names), Blank(known, fewer);
    forall n
      ensures AgreesAt(cleared, blanked, exact, n)
    {
      assert AgreesAt(facts, known, exact, n);
    }
  }

  lemma BaseAgrees(facts: Facts, known: Env, exact: bool, base: Node)
    requires Agrees(facts, known, exact)
    ensures BaseIsCase(base, facts) ==> Derives(KnownObject(base, known))
    ensures exact && Derives(KnownObject(base, known)) ==> BaseIsCase(base, facts)
  {
    if base.Name? {
      assert AgreesAt(facts, known, exact, base.id);
    } else if IsExportOf(base) {
      assert AgreesAt(facts, known, exact, base.value.id);
    }
  }

  /** Bases that store nothing are all evaluated with what is known before the first. */
  lemma {:induction false} QuietBases(bases: seq<Node>, known: Env)
    requires StoresAll(bases) == {}
    ensures AfterBases(bases, known) == known
    ensures forall i | 0 <= i < |bases| :: KnownObjects(bases, known)[i] == KnownObject(bases[i], known)
  {
    if bases != [] {
      assert Stores(bases[0]) == {} && StoresAll(bases[1..]) == {};
      assert Blank(known, {}) == known;
      QuietBases(bases[1..], known);
    }
  }

  lemma ClassAgrees(facts: Facts, known: Env, exact: bool, site: nat, c: Node)
    requires IsPlainClass(c) && StoresOpenly(c) && Agrees(facts, known, exact)
    ensures Agrees(StepFacts(facts, site, c), CarefulStep(site, c, known), exact)
  {
    QuietBases(c.bases, known);
    assert Blank(known, {}) == known;
    var o := Class(site, KnownObjects(c.bases, known));
    var derives := exists i | 0 <= i < |c.bases| :: BaseIsCase(c.bases[i], facts);
    if i :| 0 <= i < |c.bases| && BaseIsCase(c.bases[i], facts) {
      BaseAgrees(facts, known, exact, c.bases[i]);
      assert Derives(o.bases[i]);
    }
    if exact && Derives(o) {
      var i :| 0 <= i < |c.bases| && Derives(o.bases[i]);
      BaseAgrees(facts, known, exact, c.bases[i]);
    }
    BindAgrees(facts, known, exact, c.name, site, derives, o);
  }

  lemma BindAgrees(facts: Facts, known: Env, exact: bool, n: string, site: nat, derives: bool, o: Object)
    requires Agrees(facts, known, exact) && o.Class? && o.site == site
    requires (derives ==> Derives(o)) && (exact && Derives(o) ==> derives)
    ensures Agrees(BindClass(facts, n, site, derives), known[n := o], exact)
  {
    var bound, more := BindClass(facts, n, site, derives), known[n := o];
    forall m
      ensures AgreesAt(bound, more, exact, m)
    {
      assert AgreesAt(facts, known, exact, m);
    }
  }

  // ---------------------------------------------------------------- imports

  lemma {:induction false} FirstPartStops(prefix: string, rest: string)
    requires '.' !in prefix && (rest == "" || rest[0] == '.')
    ensures FirstPart(prefix + rest) == prefix
  {
    if prefix == "" {
      assert prefix + rest == rest;
    } else {
      FirstPartStops(prefix[1..], rest);
      assert (prefix + rest)[1..] == prefix[1..] + rest;
    }
  }

  lemma ModuleTarget(name: string, module_: string)
    requires module_ == "unittest" && (name == module_ || module_ + "." <= name)
    ensures FirstPart(name) == module_
  {
    FirstPartStops(module_, name[|module_|..]);
    assert name == module_ + name[|module_|..];
  }

  lemma NoDotInExports()
    ensures forall name | name in CASE_EXPORTS :: '.' !in name
  {
  }

  lemma DotlessTarget(alias: Alias, exports: set<string>)
    requires forall name | name in exports :: '.' !in name
    ensures alias.name in exports && alias.asname.None? ==> Target(alias) == alias.name
  {
    if alias.name in exports {
      FirstPartStops(alias.name, "");
      assert alias.name + "" == alias.name;
    }
  }

  lemma CreditsAreTargets(alias: Alias)
    ensures ImportsModule(alias) && alias.asname.None? ==> Target(alias) == "unittest"
    ensures alias.name in CASE_EXPORTS && alias.asname.None? ==> Target(alias) == alias.name
  {
    if alias.asname.None? && ImportsModule(alias) {
      ModuleTarget(alias.name, "unittest");
    }
    NoDotInExports();
    DotlessTarget(alias, CASE_EXPORTS);
  }

  /** An import credits exactly the targets of the aliases it credits. */
  lemma CreditedByAnAlias(names: seq<Alias>, n: string)
    ensures n in ModuleCredits(names) <==>
            exists i | 0 <= i < |names| :: ImportsModule(names[i]) && Target(names[i]) == n
    ensures n in CaseCredits(names) <==>
            exists i | 0 <= i < |names| :: names[i].name in CASE_EXPORTS && Target(names[i]) == n
  {
    forall i | 0 <= i < |names|
      ensures ImportsModule(names[i]) ==> Target(names[i]) in ModuleCredits(names)
      ensures names[i].name in CASE_EXPORTS ==> Target(names[i]) in CaseCredits(names)
    {
      CreditsAreTargets(names[i]);
    }
    if n in ModuleCredits(names) {
      var alias :| alias in names && ImportsModule(alias)
        && n == if alias.asname.Some? then alias.asname.value else "unittest";
      CreditsAreTargets(alias);
    }
    if n in CaseCredits(names) {
      var alias :| alias in names && alias.name in CASE_EXPORTS
        && n == if alias.asname.Some? then alias.asname.value else alias.name;
      CreditsAreTargets(alias);
    }
  }

  /** Where no two aliases share a target, each name is bound by its alias or left as it was. */
  lemma {:induction false} BoundByItsAlias(env: Env, names: seq<Alias>, objects: seq<Object>, count: nat, n: string)
    requires count <= |names| == |objects| && BindsOnce(names)
    ensures var after := BindAliases(env, names, objects, count);
            && (forall i | 0 <= i < count && Target(names[i]) == n :: n in after && after[n] == objects[i])
            && ((forall i | 0 <= i < count :: Target(names[i]) != n) ==> AgreeAt(env, after, n))
  {
    if count > 0 {
      BoundByItsAlias(env, names, objects, count - 1, n);
      if Target(names[count - 1]) == n {
        forall i | 0 <= i < count && Target(names[i]) == n
          ensures i == count - 1
        {
          OneAliasFor(names, i, count - 1);
        }
      }
    }
  }

  /** The facts after an import, name by name. */
  lemma ImportedFacts(facts: Facts, site: nat, node: Node, n: string)
    requires node.Import? || node.ImportFrom?
    ensures var after := StepFacts(facts, site, node);
            if exists i | 0 <= i < |node.names| :: Target(node.names[i]) == n then
              && !KnownCase(after.isCase, n)
              && (n in after.modules <==> n in CreditedModules(node))
              && (n in after.direct <==> n in CreditedCases(node))
            else
              && (n in after.modules <==> n in facts.modules || n in CreditedModules(node))
              && (n in after.direct <==> n in facts.direct || n in CreditedCases(node))
              && (KnownCase(after.isCase, n) <==> KnownCase(facts.isCase, n))
              && (KnownCase(facts.isCase, n) && n in facts.bound ==>
                  n in after.bound && after.bound[n] == facts.bound[n])
  {
    assert Reported(node) == Targets(node.names);
    if i :| 0 <= i < |node.names| && Target(node.names[i]) == n {
      assert node.names[i] in node.names;
      assert n in Targets(node.names);
    }
  }

  lemma OneAliasFor(names: seq<Alias>, i: nat, j: nat)
    requires BindsOnce(names) && i < |names| && j < |names| && Target(names[i]) == Target(names[j])
    ensures i == j
  {
  }

  /** A name is credited exactly when the alias that binds it is known. */
  lemma CreditedAsKnown(node: Node, i: nat)
    requires (node.Import? || node.ImportFrom?) && BindsOnce(node.names) && i < |node.names|
    ensures var n := Target(node.names[i]);
            && (n in CreditedModules(node) <==> KnownAlias(node, i) == Unittest)
            && (n in CreditedCases(node) <==> KnownAlias(node, i).UnittestCase?)
  {
    var names, n := node.names, Target(node.names[i]);
    CreditedByAnAlias(names, n);
    if j :| 0 <= j < |names| && ImportsModule(names[j]) && Target(names[j]) == n {
      OneAliasFor(names, i, j);
    }
    if j :| 0 <= j < |names| && names[j].name in CASE_EXPORTS && Target(names[j]) == n {
      OneAliasFor(names, i, j);
    }
  }

  lemma ImportAgreesAt(facts: Facts, known: Env, exact: bool, site: nat, node: Node, n: string)
    requires (node.Import? || node.ImportFrom?) && StoresOpenly(node) && Agrees(facts, known, exact)
    ensures AgreesAt(StepFacts(facts, site, node), CarefulStep(site, node, known), exact, n)
  {
    var after := CarefulStep(site, node, known);
    ImportedFacts(facts, site, node, n);
    BoundByItsAlias(known, node.names, KnownAliases(node), |node.names|, n);
    if i :| 0 <= i < |node.names| && Target(node.names[i]) == n {
      CreditedAsKnown(node, i);
      assert n in after && after[n] == KnownAlias(node, i);
    } else {
      CreditedByAnAlias(node.names, n);
      assert AgreeAt(known, after, n);
      assert AgreesAt(facts, known, exact, n);
    }
  }

  // ---------------------------------------------------------------- whole modules

  lemma OtherFacts(facts: Facts, site: nat, node: Node)
    requires !IsPlainClass(node) && !node.Import? && !node.ImportFrom?
    ensures StepFacts(facts, site, node) == Clear(facts, Reported(node))
  {
    assert CreditedModules(node) == {} && CreditedCases(node) == {};
  }

  lemma OtherAgrees(facts: Facts, known: Env, exact: bool, site: nat, node: Node)
    requires !IsPlainClass(node) && !node.Import? && !node.ImportFrom?
    requires StoresOpenly(node) && (exact ==> MentionsNothingElse(node)) && Agrees(facts, known, exact)
    ensures Agrees(StepFacts(facts, site, node), CarefulStep(site, node, known), exact)
  {
    ReportIsComplete(node);
    OtherFacts(facts, site, node);
    ClearAgrees(facts, known, exact, Reported(node), Stores(node));
  }

  lemma StepAgrees(facts: Facts, known: Env, exact: bool, site: nat, node: Node)
    requires StoresOpenly(node) && (exact ==> MentionsNothingElse(node)) && Agrees(facts, known, exact)
    ensures Agrees(StepFacts(facts, site, node), CarefulStep(site, node, known), exact)
  {
    if IsPlainClass(node) {
      ClassAgrees(facts, known, exact, site, node);
    } else if node.Import? || node.ImportFrom? {
      forall n
        ensures AgreesAt(StepFacts(facts, site, node), CarefulStep(site, node, known), exact, n)
      {
        ImportAgreesAt(facts, known, exact, site, node, n);
      }
    } else {
      OtherAgrees(facts, known, exact, site, node);
    }
  }

  lemma {:induction false} AnalysesAgree(tree: seq<Node>, exact: bool)
    requires AllStoreOpenly(tree) && (exact ==> AllMentionNothingElse(tree))
    ensures Agrees(Analyse(tree), Careful(tree), exact)
  {
    if tree != [] {
      var n := |tree| - 1;
      AnalysesAgree(tree[..n], exact);
      StepAgrees(Analyse(tree[..n]), Careful(tree[..n]), exact, n, tree[n]);
    }
  }

  lemma ReturnedIsExposed(tree: seq<Node>, n: string, site: nat)
    requires AllStoreOpenly(tree) && Returned(tree, n, site)
    ensures Exposes(Careful(tree), n, site)
  {
    AnalysesAgree(tree, false);
    assert AgreesAt(Analyse(tree), Careful(tree), false, n);
  }

  /** On every module whose statements store openly, each class `module_cases` returns is exposed after every run. */
  lemma SoundOnOpenModules(tree: seq<Node>)
    requires AllStoreOpenly(tree)
    ensures SoundOn(tree)
  {
    forall n, site | Returned(tree, n, site)
      ensures Exposes(Careful(tree), n, site)
    {
      ReturnedIsExposed(tree, n, site);
    }
    SoundExactlyWhenConfirmed(tree);
  }

  /**
   Where besides no statement mentions a name it does not rebind, `module_cases` returns exactly the classes every run
   exposes: no class that a run hides, and every class no run can hide.
   */
  lemma SoundAndCompleteOnOpenModules(tree: seq<Node>)
    requires AllStoreOpenly(tree) && AllMentionNothingElse(tree)
    ensures SoundOn(tree) && CompleteOn(tree)
  {
    SoundOnOpenModules(tree);
    AnalysesAgree(tree, true);
    forall n, site | Exposes(Careful(tree), n, site)
      ensures Returned(tree, n, site)
    {
      assert AgreesAt(Analyse(tree), Careful(tree), true, n);
    }
    CompleteExactlyWhenKept(tree);
  }

  // ---------------------------------------------------------------- modules it is wrong on

  /**
   A `def` whose defaults, decorators or annotations rebind a case (`def f(x=(Case := 1))`) is the
   family that escapes: the class is still returned, and some run does not expose it.
   */
  lemma HeaderStoreIsMissed(tree: seq<Node>, n: string, site: nat, f: Node)
    requires Returned(tree, n, site)
    requires f.FunctionDef? && f.name != n && n in BindsAll(f.decorators) + BindsAll(f.header)
    ensures Returned(tree + [f], n, site) && !SoundOn(tree + [f])
  {
    AnalyseOneMore(tree, f);
    DefReportsItsNameOnly(Analyse(tree), |tree|, f, n);
    CarefulOneMore(tree, f);
    assert Careful(tree + [f])[n] == Thing;
    SoundExactlyWhenConfirmed(tree + [f]);
    assert !Exposes(Careful(tree + [f]), n, site);
  }

  lemma DefReportsItsNameOnly(facts: Facts, site: nat, f: Node, n: string)
    requires f.FunctionDef? && f.name != n && n in Cases(facts)
    ensures n in Cases(StepFacts(facts, site, f)) && Cases(StepFacts(facts, site, f))[n] == Cases(facts)[n]
  {
    assert Reported(f) == {f.name};
  }

  const IMPORT := ImportFrom(0, Some("unittest"), [Alias("TestCase", None)])
  const BLOCKERS := ClassDef("Blockers", [], [Name("TestCase", Load)], [], [])
  const WALRUS := FunctionDef("f", [], [Name("Blockers", Store)], [])

  lemma ImportIsKnown()
    ensures "TestCase" in Analyse([IMPORT]).direct
  {
    AnalyseOneMore([], IMPORT);
    assert [] + [IMPORT] == [IMPORT];
    assert IMPORT.names[0] in IMPORT.names;
    assert CreditedCases(IMPORT) == CaseCredits(IMPORT.names);
  }

  /** A class statement whose base was imported as a case class is returned, whatever its body. */
  lemma ImportedBaseIsReturned(c: Node, n: string)
    requires IsPlainClass(c) && c.name == n && c.bases == [Name("TestCase", Load)]
    ensures Returned([IMPORT, c], n, 1)
  {
    ImportIsKnown();
    AnalyseOneMore([IMPORT], c);
    assert [IMPORT] + [c] == [IMPORT, c];
    assert BaseIsCase(c.bases[0], Analyse([IMPORT]));
  }

  /** One such module: the import, `class Blockers(TestCase)` and `def f(x=(Blockers := 1))`. */
  lemma WalrusInADefaultIsMissed()
    ensures Returned([IMPORT, BLOCKERS] + [WALRUS], "Blockers", 1) && !SoundOn([IMPORT, BLOCKERS] + [WALRUS])
  {
    ImportedBaseIsReturned(BLOCKERS, "Blockers");
    assert Binds(WALRUS.header[0]) == {"Blockers"};
    HeaderStoreIsMissed([IMPORT, BLOCKERS], "Blockers", 1, WALRUS);
  }

  /**
   A statement that only mentions a case, as a comprehension target (`[Case for Case in xs]`), in a bare annotation or
   in a `global` declaration, is the family it is too careful with: every run still exposes the class, which is dropped.
   */
  lemma MentionedCaseIsDropped(tree: seq<Node>, n: string, site: nat, node: Node)
    requires Exposes(Careful(tree), n, site) && n in Phantoms(node) && n !in Stores(node)
    requires !IsPlainClass(node) && !node.Import? && !node.ImportFrom?
    ensures n !in Cases(Analyse(tree + [node]))
    ensures !CompleteOn(tree + [node])
  {
    var after := tree + [node];
    AnalyseOneMore(tree, node);
    ReportedIsBoundOrMentioned(node);
    CarefulOneMore(tree, node);
    assert Exposes(Careful(after), n, site);
    CompleteExactlyWhenKept(after);
  }

  /** Such a statement: `[x for n in xs]`. */
  predicate PlainComprehension(c: Node) {
    && c.Comprehension? && c.first.Name? && c.first.access.Load?
    && |c.inner| == 1 && c.inner[0].Name? && c.inner[0].access.Load?
  }

  lemma PlainComprehensionBindsNothing(c: Node)
    requires PlainComprehension(c)
    ensures Stores(Other([c])) == {}
    ensures Elements(c.bound) <= Phantoms(Other([c]))
  {
    assert Binds(c.inner[0]) == {} && BindsAll(c.inner[1..]) == {};
    assert Binds(c) == {} && Escapes(c) == {} && [c][1..] == [];
    assert BindsAll([c]) == {} && EscapesAll([c]) == {};
    assert PhantomsAll([c]) == Phantoms(c) + PhantomsAll([c][1..]);
  }

  lemma TargetIsDropped(tree: seq<Node>, n: string, site: nat, c: Node)
    requires Exposes(Careful(tree), n, site) && PlainComprehension(c) && n in c.bound
    ensures n !in Cases(Analyse(tree + [Other([c])])) && !CompleteOn(tree + [Other([c])])
  {
    PlainComprehensionBindsNothing(c);
    MentionedCaseIsDropped(tree, n, site, Other([c]));
  }

  const MENTION := Comprehension(Name("xs", Load), ["Blockers"], [Name("Blockers", Load)])

  /** One such module: the import, `class Blockers(TestCase)` and `[Blockers for Blockers in xs]`. */
  lemma ComprehensionTargetIsDropped()
    ensures !CompleteOn([IMPORT, BLOCKERS] + [Other([MENTION])])
  {
    ImportedBaseIsReturned(BLOCKERS, "Blockers");
    SmallModuleIsOpen(BLOCKERS);
    ReturnedIsExposed([IMPORT, BLOCKERS], "Blockers", 1);
    assert MENTION.bound[0] == "Blockers";
    TargetIsDropped([IMPORT, BLOCKERS], "Blockers", 1, MENTION);
  }

  lemma ImportStoresOpenly()
    ensures StoresOpenly(IMPORT)
  {
  }

  lemma SmallModuleIsOpen(c: Node)
    requires IsPlainClass(c) && c.bases == [Name("TestCase", Load)] && c.keywords == [] && Escapes(c) == {}
    ensures AllStoreOpenly([IMPORT, c])
  {
    assert Stores(c.bases[0]) == {} && c.bases[1..] == [];
    assert StoresAll(c.bases) == {};
    assert StoresAll(c.keywords) == {};
    ImportStoresOpenly();
  }
}
