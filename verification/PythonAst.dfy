/**
 The part of Python's syntax tree `check_contract_citations` looks at, the names a statement is
 reported to rebind (`rebound_names`), and the names executing it at module scope can rebind.
 */
module PythonAst {
  import opened Basics

  datatype Access = Load | Store | Del

  datatype Alias = Alias(name: string, asname: Option<string>)

  /**
   `header` holds what a `def` evaluates where it stands, its decorators aside: argument defaults and annotations. A
   comprehension evaluates `first`, its first iterable, where it stands, and `inner`, the rest, in a scope of its own,
   in which `bound` are the names it binds; an assignment expression in it binds outside. A bare annotation is `name:
   int` with no value. A `del` statement holds its targets. Every node kind the analyser does not name is `Other` with
   its child nodes.
   */
  datatype Node =
    | FunctionDef(name: string, decorators: seq<Node>, header: seq<Node>, body: seq<Node>)
    | ClassDef(name: string, decorators: seq<Node>, bases: seq<Node>, keywords: seq<Node>, body: seq<Node>)
    | Lambda(defaults: seq<Node>, result: Node)
    | Comprehension(first: Node, bound: seq<string>, inner: seq<Node>)
    | BareAnnotation(name: string, annotation: Node)
    | Delete(targets: seq<Node>)
    | Name(id: string, access: Access)
    | Attribute(value: Node, attr: string)
    | Keyword(arg: Option<string>, value: Node)
    | Import(names: seq<Alias>)
    | ImportFrom(level: nat, from: Option<string>, names: seq<Alias>)
    | Global(declared: seq<string>)
    | ExceptHandler(caught: Option<string>, children: seq<Node>)
    | MatchCapture(captured: Option<string>, children: seq<Node>)
    | MatchMapping(rest: Option<string>, children: seq<Node>)
    | Other(children: seq<Node>)

  function Elements<T>(xs: seq<T>): set<T> {
    set x | x in xs
  }

  /** `name.split(".")[0]`. */
  function FirstPart(name: string): string {
    if name == "" || name[0] == '.' then "" else [name[0]] + FirstPart(name[1..])
  }

  /** The name an import alias binds. */
  function Target(alias: Alias): string {
    if alias.asname.Some? then alias.asname.value else FirstPart(alias.name)
  }

  function Targets(names: seq<Alias>): set<string> {
    set alias | alias in names :: Target(alias)
  }

  function Optional(name: Option<string>): set<string> {
    if name.Some? then {name.value} else {}
  }

  /** The names a node binds by itself, its child nodes aside. */
  function Bound(node: Node): set<string> {
    match node
    case FunctionDef(name, _, _, _) => {name}
    case ClassDef(name, _, _, _, _) => {name}
    case Name(id, access) => if access.Load? then {} else {id}
    case Import(names) => Targets(names)
    case ImportFrom(_, _, names) => Targets(names)
    case ExceptHandler(caught, _) => Optional(caught)
    case MatchCapture(captured, _) => Optional(captured)
    case MatchMapping(rest, _) => Optional(rest)
    case _ => {}
  }

  /** The names a node only seems to bind: in a scope of its own, or by declaring something of them. */
  function Mentioned(node: Node): set<string> {
    match node
    case Comprehension(_, bound, _) => Elements(bound)
    case BareAnnotation(name, _) => {name}
    case Global(declared) => Elements(declared)
    case _ => {}
  }

  /** The names the analyser takes from a node. */
  function Own(node: Node): set<string> {
    Bound(node) + Mentioned(node)
  }

  // ---------------------------------------------------------------- the names reported

  /** Whether the walk stops at a node: a `def`, `class` or `lambda` opens a scope of its own. */
  predicate OpensScope(node: Node) {
    node.FunctionDef? || node.ClassDef? || node.Lambda?
  }

  /** The child nodes the walk goes on to. */
  function Descended(node: Node): seq<Node> {
    match node
    case Comprehension(first, _, inner) => [first] + inner
    case BareAnnotation(_, annotation) => [annotation]
    case Delete(targets) => targets
    case Attribute(value, _) => [value]
    case Keyword(_, value) => [value]
    case ExceptHandler(_, children) => children
    case MatchCapture(_, children) => children
    case MatchMapping(_, children) => children
    case Other(children) => children
    case _ => []
  }

  /** The names of every node the walk from `node` reaches. */
  function Reported(node: Node): set<string>
    decreases node, 1
  {
    Own(node) +
    match node
    case Comprehension(first, _, inner) => Reported(first) + ReportedAll(inner)
    case BareAnnotation(_, annotation) => Reported(annotation)
    case Delete(targets) => ReportedAll(targets)
    case Attribute(value, _) => Reported(value)
    case Keyword(_, value) => Reported(value)
    case ExceptHandler(_, children) => ReportedAll(children)
    case MatchCapture(_, children) => ReportedAll(children)
    case MatchMapping(_, children) => ReportedAll(children)
    case Other(children) => ReportedAll(children)
    case _ => {}
  }

  function ReportedAll(nodes: seq<Node>): set<string>
    decreases nodes, 0
  {
    if nodes == [] then {} else Reported(nodes[0]) + ReportedAll(nodes[1..])
  }

  lemma ReportedConcat(a: seq<Node>, b: seq<Node>)
    ensures ReportedAll(a + b) == ReportedAll(a) + ReportedAll(b)
  {
    if a == [] {
      assert a + b == b;
    } else {
      ReportedConcat(a[1..], b);
      assert (a + b)[1..] == a[1..] + b;
    }
  }

  lemma ReportedByStep(node: Node)
    ensures Reported(node) == Own(node) + ReportedAll(Descended(node))
  {
    if node.Comprehension? {
      assert ([node.first] + node.inner)[1..] == node.inner;
    }
  }

  ghost function Size(node: Node): nat
    decreases node, 1
  {
    1 +
    match node
    case Comprehension(first, _, inner) => Size(first) + SizeAll(inner)
    case BareAnnotation(_, annotation) => Size(annotation)
    case Delete(targets) => SizeAll(targets)
    case Attribute(value, _) => Size(value)
    case Keyword(_, value) => Size(value)
    case ExceptHandler(_, children) => SizeAll(children)
    case MatchCapture(_, children) => SizeAll(children)
    case MatchMapping(_, children) => SizeAll(children)
    case Other(children) => SizeAll(children)
    case _ => 0
  }

  ghost function SizeAll(nodes: seq<Node>): nat
    decreases nodes, 0
  {
    if nodes == [] then 0 else Size(nodes[0]) + SizeAll(nodes[1..])
  }

  lemma SizeConcat(a: seq<Node>, b: seq<Node>)
    ensures SizeAll(a + b) == SizeAll(a) + SizeAll(b)
  {
    if a == [] {
      assert a + b == b;
    } else {
      SizeConcat(a[1..], b);
      assert (a + b)[1..] == a[1..] + b;
    }
  }

  lemma SizeByStep(node: Node)
    ensures Size(node) == 1 + SizeAll(Descended(node))
  {
    if node.Comprehension? {
      assert ([node.first] + node.inner)[1..] == node.inner;
    }
  }

  /** Taking the last node off the worklist and putting its child nodes there loses no name. */
  lemma WalkOneMore(others: seq<Node>, current: Node)
    ensures ReportedAll(others + [current]) == ReportedAll(others + Descended(current)) + Own(current)
    ensures SizeAll(others + Descended(current)) < SizeAll(others + [current])
  {
    ReportedConcat(others, [current]);
    ReportedConcat(others, Descended(current));
    ReportedByStep(current);
    SizeConcat(others, [current]);
    SizeConcat(others, Descended(current));
    SizeByStep(current);
  }

  /** `rebound_names`: a worklist that ends with exactly the names of the nodes it can reach. */
  method ReboundNames(node: Node) returns (names: set<string>)
    ensures names == Reported(node)
  {
    names := {};
    var pending := [node];
    while pending != []
      invariant names + ReportedAll(pending) == Reported(node)
      decreases SizeAll(pending)
    {
      var current := pending[|pending| - 1];
      var others := pending[..|pending| - 1];
      assert pending == others + [current];
      WalkOneMore(others, current);
      names := names + Own(current);
      if OpensScope(current) {
        assert others + Descended(current) == others;
        pending := others;
      } else {
        pending := others + Descended(current);
      }
    }
  }

  // ---------------------------------------------------------------- the names a run can rebind

  /**
   The names executing `node` can rebind in the scope it stands in. A `def` or `lambda` evaluates its defaults and
   decorators there, and a `class` its bases and keywords; a comprehension keeps its targets to itself.
   */
  function Binds(node: Node): set<string>
    decreases node, 1
  {
    Bound(node) +
    match node
    case FunctionDef(_, decorators, header, _) => BindsAll(decorators) + BindsAll(header)
    case ClassDef(_, decorators, bases, keywords, _) => BindsAll(decorators) + BindsAll(bases) + BindsAll(keywords)
    case Lambda(defaults, _) => BindsAll(defaults)
    case Comprehension(first, _, inner) => Binds(first) + BindsAll(inner)
    case BareAnnotation(_, annotation) => Binds(annotation)
    case Delete(targets) => BindsAll(targets)
    case Attribute(value, _) => Binds(value)
    case Keyword(_, value) => Binds(value)
    case ExceptHandler(_, children) => BindsAll(children)
    case MatchCapture(_, children) => BindsAll(children)
    case MatchMapping(_, children) => BindsAll(children)
    case Other(children) => BindsAll(children)
    case _ => {}
  }

  function BindsAll(nodes: seq<Node>): set<string>
    decreases nodes, 0
  {
    if nodes == [] then {} else Binds(nodes[0]) + BindsAll(nodes[1..])
  }

  /** The names a node by itself can leave bound: `del` and the end of an `except` block only unbind. */
  function Assigned(node: Node): set<string> {
    match node
    case Name(id, access) => if access.Store? then {id} else {}
    case ExceptHandler(_, _) => {}
    case _ => Bound(node)
  }

  /** The names executing `node` can leave bound anew in the scope it stands in. */
  function Assigns(node: Node): set<string>
    decreases node, 1
  {
    Assigned(node) +
    match node
    case FunctionDef(_, decorators, header, _) => AssignsAll(decorators) + AssignsAll(header)
    case ClassDef(_, decorators, bases, keywords, _) =>
        AssignsAll(decorators) + AssignsAll(bases) + AssignsAll(keywords)
    case Lambda(defaults, _) => AssignsAll(defaults)
    case Comprehension(first, _, inner) => Assigns(first) + AssignsAll(inner)
    case BareAnnotation(_, annotation) => Assigns(annotation)
    case Delete(targets) => AssignsAll(targets)
    case Attribute(value, _) => Assigns(value)
    case Keyword(_, value) => Assigns(value)
    case ExceptHandler(_, children) => AssignsAll(children)
    case MatchCapture(_, children) => AssignsAll(children)
    case MatchMapping(_, children) => AssignsAll(children)
    case Other(children) => AssignsAll(children)
    case _ => {}
  }

  function AssignsAll(nodes: seq<Node>): set<string>
    decreases nodes, 0
  {
    if nodes == [] then {} else Assigns(nodes[0]) + AssignsAll(nodes[1..])
  }

  /** The names a target of `del` unbinds, in tuples and lists too. */
  function Unbound(target: Node): set<string>
    decreases target, 1
  {
    match target
    case Name(id, access) => if access.Del? then {id} else {}
    case Other(children) => UnboundAll(children)
    case _ => {}
  }

  function UnboundAll(targets: seq<Node>): set<string>
    decreases targets, 0
  {
    if targets == [] then {} else Unbound(targets[0]) + UnboundAll(targets[1..])
  }

  /** The names a statement is certain to leave unbound. */
  function Deleted(node: Node): set<string> {
    if node.Delete? then UnboundAll(node.targets) else {}
  }

  /** The names declared `global` in the scope `node` stands in. */
  function Declared(node: Node): set<string>
    decreases node, 1
  {
    match node
    case Global(declared) => Elements(declared)
    case ExceptHandler(_, children) => DeclaredAll(children)
    case MatchCapture(_, children) => DeclaredAll(children)
    case MatchMapping(_, children) => DeclaredAll(children)
    case Other(children) => DeclaredAll(children)
    case _ => {}
  }

  function DeclaredAll(nodes: seq<Node>): set<string>
    decreases nodes, 0
  {
    if nodes == [] then {} else Declared(nodes[0]) + DeclaredAll(nodes[1..])
  }

  /** The module names that class bodies below rebind, having declared them `global`. */
  function Escapes(node: Node): set<string>
    decreases node, 1
  {
    match node
    case ClassDef(_, _, _, _, body) => DeclaredAll(body) * BindsAll(body) + EscapesAll(body)
    case ExceptHandler(_, children) => EscapesAll(children)
    case MatchCapture(_, children) => EscapesAll(children)
    case MatchMapping(_, children) => EscapesAll(children)
    case Other(children) => EscapesAll(children)
    case _ => {}
  }

  function EscapesAll(nodes: seq<Node>): set<string>
    decreases nodes, 0
  {
    if nodes == [] then {} else Escapes(nodes[0]) + EscapesAll(nodes[1..])
  }

  /** The module-scope names executing `node` there can rebind. */
  function Stores(node: Node): set<string> {
    Binds(node) + Escapes(node)
  }

  function StoresAll(nodes: seq<Node>): set<string> {
    if nodes == [] then {} else Stores(nodes[0]) + StoresAll(nodes[1..])
  }

  lemma {:induction false} StoresOfAll(nodes: seq<Node>)
    ensures StoresAll(nodes) == BindsAll(nodes) + EscapesAll(nodes)
  {
    if nodes != [] {
      StoresOfAll(nodes[1..]);
    }
  }

  // ---------------------------------------------------------------- how the two relate

  /** The names the walk from `node` takes that no node it reaches binds by itself. */
  function Phantoms(node: Node): set<string>
    decreases node, 1
  {
    Mentioned(node) +
    match node
    case Comprehension(first, _, inner) => Phantoms(first) + PhantomsAll(inner)
    case BareAnnotation(_, annotation) => Phantoms(annotation)
    case Delete(targets) => PhantomsAll(targets)
    case Attribute(value, _) => Phantoms(value)
    case Keyword(_, value) => Phantoms(value)
    case ExceptHandler(_, children) => PhantomsAll(children)
    case MatchCapture(_, children) => PhantomsAll(children)
    case MatchMapping(_, children) => PhantomsAll(children)
    case Other(children) => PhantomsAll(children)
    case _ => {}
  }

  function PhantomsAll(nodes: seq<Node>): set<string>
    decreases nodes, 0
  {
    if nodes == [] then {} else Phantoms(nodes[0]) + PhantomsAll(nodes[1..])
  }

  lemma {:induction false} ReportedIsBoundOrMentioned(node: Node)
    ensures Phantoms(node) <= Reported(node) <= Binds(node) + Phantoms(node)
    decreases node, 1
  {
    match node
    case Comprehension(first, _, inner) =>
      ReportedIsBoundOrMentioned(first);
      AllReportedIsBoundOrMentioned(inner);
    case BareAnnotation(_, annotation) => ReportedIsBoundOrMentioned(annotation);
    case Delete(targets) => AllReportedIsBoundOrMentioned(targets);
    case Attribute(value, _) => ReportedIsBoundOrMentioned(value);
    case Keyword(_, value) => ReportedIsBoundOrMentioned(value);
    case ExceptHandler(_, children) => AllReportedIsBoundOrMentioned(children);
    case MatchCapture(_, children) => AllReportedIsBoundOrMentioned(children);
    case MatchMapping(_, children) => AllReportedIsBoundOrMentioned(children);
    case Other(children) => AllReportedIsBoundOrMentioned(children);
    case _ =>
  }

  lemma {:induction false} AllReportedIsBoundOrMentioned(nodes: seq<Node>)
    ensures PhantomsAll(nodes) <= ReportedAll(nodes) <= BindsAll(nodes) + PhantomsAll(nodes)
    decreases nodes, 0
  {
    if nodes != [] {
      ReportedIsBoundOrMentioned(nodes[0]);
      AllReportedIsBoundOrMentioned(nodes[1..]);
    }
  }

  /**
   The walk invents a name exactly where a comprehension target, a bare annotation or a `global` declaration names one
   that nothing in the statement rebinds.
   */
  lemma ReportedAreStores(node: Node)
    ensures Reported(node) <= Stores(node) <==> Phantoms(node) <= Stores(node)
  {
    ReportedIsBoundOrMentioned(node);
  }

  /** No node below holds, in the header of a scope it opens, a store or a global of its own. */
  predicate HeadersStoreNothing(node: Node)
    decreases node, 1
  {
    match node
    case FunctionDef(_, decorators, header, _) => BindsAll(decorators) == {} && BindsAll(header) == {}
    case ClassDef(_, decorators, bases, keywords, body) =>
      BindsAll(decorators) == {} && BindsAll(bases) == {} && BindsAll(keywords) == {} && Escapes(node) == {}
    case Lambda(defaults, _) => BindsAll(defaults) == {}
    case Comprehension(first, _, inner) => HeadersStoreNothing(first) && AllHeadersStoreNothing(inner)
    case BareAnnotation(_, annotation) => HeadersStoreNothing(annotation)
    case Delete(targets) => AllHeadersStoreNothing(targets)
    case Attribute(value, _) => HeadersStoreNothing(value)
    case Keyword(_, value) => HeadersStoreNothing(value)
    case ExceptHandler(_, children) => AllHeadersStoreNothing(children)
    case MatchCapture(_, children) => AllHeadersStoreNothing(children)
    case MatchMapping(_, children) => AllHeadersStoreNothing(children)
    case Other(children) => AllHeadersStoreNothing(children)
    case _ => true
  }

  predicate AllHeadersStoreNothing(nodes: seq<Node>)
    decreases nodes, 0
  {
    nodes == [] || (HeadersStoreNothing(nodes[0]) && AllHeadersStoreNothing(nodes[1..]))
  }

  lemma {:induction false} OpenlyBound(node: Node)
    requires HeadersStoreNothing(node)
    ensures Binds(node) <= Reported(node) && Escapes(node) == {}
    decreases node, 1
  {
    match node
    case Comprehension(first, _, inner) =>
      OpenlyBound(first);
      AllOpenlyBound(inner);
    case BareAnnotation(_, annotation) => OpenlyBound(annotation);
    case Delete(targets) => AllOpenlyBound(targets);
    case Attribute(value, _) => OpenlyBound(value);
    case Keyword(_, value) => OpenlyBound(value);
    case ExceptHandler(_, children) => AllOpenlyBound(children);
    case MatchCapture(_, children) => AllOpenlyBound(children);
    case MatchMapping(_, children) => AllOpenlyBound(children);
    case Other(children) => AllOpenlyBound(children);
    case _ =>
  }

  lemma {:induction false} AllOpenlyBound(nodes: seq<Node>)
    requires AllHeadersStoreNothing(nodes)
    ensures BindsAll(nodes) <= ReportedAll(nodes) && EscapesAll(nodes) == {}
    decreases nodes, 0
  {
    if nodes != [] {
      OpenlyBound(nodes[0]);
      AllOpenlyBound(nodes[1..]);
    }
  }

  /** Where no scope's header stores, every name a run can rebind is reported, and with it only what is mentioned. */
  lemma ReportIsComplete(node: Node)
    requires HeadersStoreNothing(node)
    ensures Reported(node) == Stores(node) + Phantoms(node)
  {
    OpenlyBound(node);
    ReportedIsBoundOrMentioned(node);
  }
}
