/**
 The most that can be known of a module without running it. The analysis follows one run: the worst, in which every name
 a statement can rebind is rebound to an unknown object. What it knows of a name holds in every run, so it is exact: it
 exposes a class as a case if and only if every run does.
 */
module CarefulAnalysis {
  import opened Basics
  import opened PythonAst
  import opened ModuleExecution

  // ---------------------------------------------------------------- the analysis

  function Blank(env: Env, names: set<string>): Env {
    env + map n | n in names :: Thing
  }

  /** What a base evaluates to as far as its binding tells. */
  function KnownObject(base: Node, env: Env): Object {
    if base.Name? && base.id in env then env[base.id]
    else if IsExportOf(base) && base.value.id in env && env[base.value.id] == Unittest then UnittestCase(base.attr)
    else Thing
  }

  /** A base counts only with what is still known once the bases before it were evaluated. */
  function KnownObjects(bases: seq<Node>, env: Env): (objects: seq<Object>)
    ensures |objects| == |bases|
  {
    if bases == [] then []
    else [KnownObject(bases[0], env)] + KnownObjects(bases[1..], Blank(env, Stores(bases[0])))
  }

  function AfterBases(bases: seq<Node>, env: Env): Env {
    if bases == [] then env else AfterBases(bases[1..], Blank(env, Stores(bases[0])))
  }

  function KnownAlias(node: Node, k: nat): Object
    requires (node.Import? || node.ImportFrom?) && k < |node.names|
  {
    if node.Import? && ImportsModule(node.names[k]) then Unittest
    else if node.ImportFrom? && FromUnittest(node) && node.names[k].name in CASE_EXPORTS
    then UnittestCase(node.names[k].name)
    else Thing
  }

  function KnownAliases(node: Node): (objects: seq<Object>)
    requires node.Import? || node.ImportFrom?
    ensures |objects| == |node.names|
  {
    seq(|node.names|, k requires 0 <= k < |node.names| => KnownAlias(node, k))
  }

  function KnownClass(site: nat, c: Node, env: Env): Object
    requires c.ClassDef?
  {
    if HasMetaclass(c) then Thing else Class(site, KnownObjects(c.bases, env))
  }

  function CarefulStep(site: nat, node: Node, env: Env): Env {
    if IsPlainClass(node) then
      Blank(AfterBases(node.bases, env), TailStores(node))[node.name := KnownClass(site, node, env)]
    else if node.Import? || node.ImportFrom? then
      if ImportsStar(node.names) then map[] else BindAliases(env, node.names, KnownAliases(node), |node.names|)
    else Blank(env, Stores(node))
  }

  function Careful(tree: seq<Node>): Env {
    if tree == [] then map[]
    else CarefulStep(|tree| - 1, tree[|tree| - 1], Careful(tree[..|tree| - 1]))
  }

  lemma CarefulOneMore(tree: seq<Node>, node: Node)
    ensures Careful(tree + [node]) == CarefulStep(|tree|, node, Careful(tree))
  {
    assert (tree + [node])[..|tree|] == tree;
  }

  // ---------------------------------------------------------------- what is known holds in every run

  /** `o` is what `known` says, which of a `Thing` says nothing. */
  ghost predicate Fits(known: Object, o: Object) {
    match known
    case Thing => true
    case Class(site, bases) =>
      && o.Class? && o.site == site && |o.bases| == |bases|
      && forall i | 0 <= i < |bases| :: Fits(bases[i], o.bases[i])
    case _ => o == known
  }

  lemma {:induction false} FitsDerives(known: Object, o: Object)
    requires Fits(known, o) && Derives(known)
    ensures Derives(o)
  {
    if known.Class? {
      var i :| 0 <= i < |known.bases| && Derives(known.bases[i]);
      FitsDerives(known.bases[i], o.bases[i]);
    }
  }

  ghost predicate HoldsAt(known: Env, env: Env, n: string) {
    n in known && known[n] != Thing ==> n in env && Fits(known[n], env[n])
  }

  ghost predicate Holds(known: Env, env: Env) {
    forall n :: HoldsAt(known, env, n)
  }

  lemma BlankHolds(known: Env, before: Env, after: Env, names: set<string>)
    requires Holds(known, before) && Rebinds(before, after, names)
    ensures Holds(Blank(known, names), after)
  {
    forall n
      ensures HoldsAt(Blank(known, names), after, n)
    {
      assert HoldsAt(known, before, n);
      if n !in names {
        assert AgreeAt(before, after, n);
      }
    }
  }

  lemma BindHolds(known: Env, env: Env, n: string, what: Object, o: Object)
    requires Holds(known, env) && Fits(what, o)
    ensures Holds(known[n := what], env[n := o])
  {
    var more, after := known[n := what], env[n := o];
    forall m
      ensures HoldsAt(more, after, m)
    {
      assert HoldsAt(known, env, m);
    }
  }

  lemma BaseHolds(known: Env, base: Node, before: Env, o: Object, after: Env)
    requires Holds(known, before) && EvalBase(base, before, o, after)
    ensures Fits(KnownObject(base, known), o)
    ensures Holds(Blank(known, Stores(base)), after)
  {
    BlankHolds(known, before, after, Stores(base));
    if base.Name? {
      assert HoldsAt(known, before, base.id);
    } else if IsExportOf(base) {
      assert HoldsAt(known, before, base.value.id);
    }
  }

  lemma {:induction false} BasesHold(known: Env, bases: seq<Node>, before: Env, objects: seq<Object>, after: Env)
    requires Holds(known, before) && EvalBases(bases, before, objects, after)
    ensures Holds(AfterBases(bases, known), after)
    ensures forall i | 0 <= i < |bases| :: Fits(KnownObjects(bases, known)[i], objects[i])
    decreases |bases|
  {
    if bases != [] {
      var mid :| EvalBase(bases[0], before, objects[0], mid) && EvalBases(bases[1..], mid, objects[1..], after);
      var blanked := Blank(known, Stores(bases[0]));
      BaseHolds(known, bases[0], before, objects[0], mid);
      BasesHold(blanked, bases[1..], mid, objects[1..], after);
      forall i | 0 < i < |bases|
        ensures Fits(KnownObjects(bases, known)[i], objects[i])
      {
        assert KnownObjects(bases, known)[i] == KnownObjects(bases[1..], blanked)[i - 1];
        assert objects[i] == objects[1..][i - 1];
      }
    }
  }

  lemma ClassHolds(known: Env, site: nat, c: Node, before: Env, after: Env)
    requires IsPlainClass(c) && Holds(known, before) && ClassStep(site, c, before, after)
    ensures Holds(CarefulStep(site, c, known), after)
  {
    var objects, mid, late, o :| EvalBases(c.bases, before, objects, mid) && Rebinds(mid, late, TailStores(c))
      && ClassGives(site, c, objects, o) && after == late[c.name := o];
    BasesHold(known, c.bases, before, objects, mid);
    BlankHolds(AfterBases(c.bases, known), mid, late, TailStores(c));
    BindHolds(Blank(AfterBases(c.bases, known), TailStores(c)), late, c.name, KnownClass(site, c, known), o);
  }

  lemma {:induction false} AliasesHold(known: Env, node: Node, before: Env, objects: seq<Object>, count: nat)
    requires (node.Import? || node.ImportFrom?) && count <= |node.names| == |objects|
    requires Holds(known, before) && forall i | 0 <= i < |objects| :: ImportGives(node, i, objects[i])
    ensures Holds(BindAliases(known, node.names, KnownAliases(node), count),
                  BindAliases(before, node.names, objects, count))
  {
    if count > 0 {
      AliasesHold(known, node, before, objects, count - 1);
      assert ImportGives(node, count - 1, objects[count - 1]);
      BindHolds(BindAliases(known, node.names, KnownAliases(node), count - 1),
                BindAliases(before, node.names, objects, count - 1),
                Target(node.names[count - 1]), KnownAliases(node)[count - 1], objects[count - 1]);
    }
  }

  lemma StepHolds(known: Env, site: nat, node: Node, before: Env, after: Env)
    requires Holds(known, before) && Step(site, node, before, after)
    ensures Holds(CarefulStep(site, node, known), after)
  {
    if IsPlainClass(node) {
      ClassHolds(known, site, node, before, after);
    } else if node.Import? || node.ImportFrom? {
      if !ImportsStar(node.names) {
        var objects :| |objects| == |node.names| && (forall i | 0 <= i < |objects| :: ImportGives(node, i, objects[i]))
          && after == BindAliases(before, node.names, objects, |objects|);
        AliasesHold(known, node, before, objects, |objects|);
      }
    } else {
      BlankHolds(known, before, after, Stores(node));
    }
  }

  /** After any run, each name the analysis knows is bound to what it is known as. */
  lemma {:induction false} RunHolds(tree: seq<Node>, envs: seq<Env>)
    requires Run(tree, envs)
    ensures Holds(Careful(tree), envs[|tree|])
  {
    if tree != [] {
      var n := |tree| - 1;
      assert Run(tree[..n], envs[..n + 1]);
      RunHolds(tree[..n], envs[..n + 1]);
      StepHolds(Careful(tree[..n]), n, tree[n], envs[n], envs[n + 1]);
    }
  }

  // ---------------------------------------------------------------- the analysis is itself a run

  lemma {:induction false} KnownBasesEvaluate(bases: seq<Node>, env: Env)
    ensures EvalBases(bases, env, KnownObjects(bases, env), AfterBases(bases, env))
    decreases |bases|
  {
    if bases != [] {
      var mid := Blank(env, Stores(bases[0]));
      KnownBasesEvaluate(bases[1..], mid);
      assert EvalBase(bases[0], env, KnownObject(bases[0], env), mid);
      assert KnownObjects(bases, env)[1..] == KnownObjects(bases[1..], mid);
    }
  }

  lemma CarefulIsAStep(site: nat, node: Node, env: Env)
    ensures Step(site, node, env, CarefulStep(site, node, env))
  {
    if IsPlainClass(node) {
      var objects, mid := KnownObjects(node.bases, env), AfterBases(node.bases, env);
      KnownBasesEvaluate(node.bases, env);
      var late, o := Blank(mid, TailStores(node)), KnownClass(site, node, env);
      assert Rebinds(mid, late, TailStores(node)) && ClassGives(site, node, objects, o);
      assert CarefulStep(site, node, env) == late[node.name := o];
    } else if node.Import? || node.ImportFrom? {
      var objects := KnownAliases(node);
      assert forall k | 0 <= k < |objects| :: ImportGives(node, k, objects[k]);
      if !ImportsStar(node.names) {
        assert CarefulStep(site, node, env) == BindAliases(env, node.names, objects, |objects|);
      }
    }
  }

  function CarefulRun(tree: seq<Node>): (envs: seq<Env>)
    ensures |envs| == |tree| + 1 && envs[|tree|] == Careful(tree)
  {
    assert tree[..|tree|] == tree;
    seq(|tree| + 1, i requires 0 <= i <= |tree| => Careful(tree[..i]))
  }

  lemma CarefulIsARun(tree: seq<Node>)
    ensures Run(tree, CarefulRun(tree))
  {
    var envs := CarefulRun(tree);
    forall i | 0 <= i < |tree|
      ensures Step(i, tree[i], envs[i], envs[i + 1])
    {
      assert tree[..i + 1] == tree[..i] + [tree[i]];
      CarefulOneMore(tree[..i], tree[i]);
      CarefulIsAStep(i, tree[i], envs[i]);
    }
  }

  // ---------------------------------------------------------------- exactness

  ghost predicate AlwaysExposes(tree: seq<Node>, n: string, site: nat) {
    forall envs | Run(tree, envs) :: Exposes(envs[|tree|], n, site)
  }

  /** The analysis is exact: it exposes a class as a case if and only if every run does. */
  lemma CarefulIsExact(tree: seq<Node>, n: string, site: nat)
    ensures Exposes(Careful(tree), n, site) <==> AlwaysExposes(tree, n, site)
  {
    if Exposes(Careful(tree), n, site) {
      forall envs | Run(tree, envs)
        ensures Exposes(envs[|tree|], n, site)
      {
        RunHolds(tree, envs);
        assert HoldsAt(Careful(tree), envs[|tree|], n);
        FitsDerives(Careful(tree)[n], envs[|tree|][n]);
      }
    }
    if AlwaysExposes(tree, n, site) {
      CarefulIsARun(tree);
    }
  }

  // ---------------------------------------------------------------- classes are made by earlier statements

  /** Every class in `o`, ancestors included, was made by one of the first `n` statements. */
  ghost predicate MadeBefore(o: Object, n: nat) {
    o.Class? ==> o.site < n && forall i | 0 <= i < |o.bases| :: MadeBefore(o.bases[i], n)
  }

  ghost predicate AllMadeBefore(env: Env, n: nat) {
    forall m | m in env :: MadeBefore(env[m], n)
  }

  lemma {:induction false} MadeBeforeMore(o: Object, n: nat, more: nat)
    requires MadeBefore(o, n) && n <= more
    ensures MadeBefore(o, more)
  {
    if o.Class? {
      forall i | 0 <= i < |o.bases|
        ensures MadeBefore(o.bases[i], more)
      {
        MadeBeforeMore(o.bases[i], n, more);
      }
    }
  }

  lemma {:induction false} BasesMadeBefore(bases: seq<Node>, env: Env, n: nat)
    requires AllMadeBefore(env, n)
    ensures AllMadeBefore(AfterBases(bases, env), n)
    ensures forall i | 0 <= i < |bases| :: MadeBefore(KnownObjects(bases, env)[i], n)
  {
    if bases != [] {
      BasesMadeBefore(bases[1..], Blank(env, Stores(bases[0])), n);
    }
  }

  lemma {:induction false} AliasesMadeBefore(env: Env, node: Node, count: nat, n: nat)
    requires (node.Import? || node.ImportFrom?) && count <= |node.names| && AllMadeBefore(env, n)
    ensures AllMadeBefore(BindAliases(env, node.names, KnownAliases(node), count), n)
  {
    if count > 0 {
      AliasesMadeBefore(env, node, count - 1, n);
    }
  }

  lemma {:induction false} CarefulMadeBefore(tree: seq<Node>)
    ensures AllMadeBefore(Careful(tree), |tree|)
  {
    if tree != [] {
      var n := |tree| - 1;
      var env, node := Careful(tree[..n]), tree[n];
      CarefulMadeBefore(tree[..n]);
      forall m | m in env
        ensures MadeBefore(env[m], n + 1)
      {
        MadeBeforeMore(env[m], n, n + 1);
      }
      if IsPlainClass(node) {
        BasesMadeBefore(node.bases, env, n + 1);
      } else if node.Import? || node.ImportFrom? {
        AliasesMadeBefore(env, node, |node.names|, n + 1);
      }
    }
  }
}
