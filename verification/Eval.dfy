/**
 Evaluating the node-set part of XPath: paths, steps, filters and unions over a `World`.

 A predicate is an oracle asked with a node, its position and the size of the set, so everything
 proved here holds for any predicate that does not raise.
 */
module Eval {
  import opened Wrappers
  import opened Xdm
  import opened Numbering
  import opened XPathAst
  import opened Axes
  import AxisWalks

  const XML_NS_URI := "http://www.w3.org/XML/1998/namespace"

  type Namespaces = map<string, string>

  /** Looking a prefix up: `xml` always has its namespace, whatever the bindings say. */
  function NamespaceOf(namespaces: Namespaces, prefix: string): Option<string> {
    if prefix in namespaces then Some(namespaces[prefix]) else if prefix == "xml" then Some(XML_NS_URI) else None
  }

  /** The context: a node, and its place in a list of some size. */
  datatype Focus = Focus(node: Node, position: nat, size: nat)

  /** The documents, and what an expression can ask besides the tree itself. */
  datatype World = World(
    docs: Documents,
    holds: (Expr, Focus) -> bool,
    variable: (Option<string>, string) -> Option<seq<Node>>,
    call: (Expr, Focus) -> Option<seq<Node>>,
    elementById: string -> Option<Node>,
    keyed: (Option<string>, string, string) -> seq<Node>)
  {
    ghost predicate Valid() {
      && ValidDocuments(docs)
      && (forall p, l :: variable(p, l).Some? ==> AreNodes(variable(p, l).value))
      && (forall e, f :: call(e, f).Some? ==> AreNodes(call(e, f).value))
      && (forall id :: elementById(id).Some? ==> IsNode(docs, elementById(id).value))
      && (forall p, l, v :: AreNodes(keyed(p, l, v)))
    }

    ghost predicate AreNodes(s: seq<Node>) {
      forall n | n in s :: IsNode(docs, n)
    }
  }

  // --- Node tests -------------------------------------------------------------------------------

  /** What a name test can select: an axis has one kind of node that names are tested on. */
  function PrincipalKind(axis: Axis): NodeKind {
    match axis
    case Attribute => AttributeKind
    case Namespace => NamespaceKind
    case _ => ElementKind
  }

  /** The prefix a node test names a namespace by. */
  function TestPrefix(test: NodeTest): Option<string> {
    match test
    case NamedTest(InNamespace(prefix)) => Some(prefix)
    case NamedTest(QualifiedName(prefix, _)) => prefix
    case _ => None
  }

  predicate TestIsBound(namespaces: Namespaces, test: NodeTest) {
    TestPrefix(test).Some? ==> NamespaceOf(namespaces, TestPrefix(test).value).Some?
  }

  /** Whether a node passes a node test on an axis, or `Err` for a name in a namespace nobody bound. */
  function Matches(docs: Documents, namespaces: Namespaces, n: Node, axis: Axis, test: NodeTest): Result<bool>
    requires IsNode(docs, n)
  {
    var kind, name := Kind(docs, n), Name(docs, n);
    match test
    case AnyNodeTest => Ok(true)
    case TextTest => Ok(kind == TextKind)
    case CommentTest => Ok(kind == CommentKind)
    case ProcessingInstructionTest(None) => Ok(kind == ProcessingInstructionKind)
    case ProcessingInstructionTest(Some(target)) =>
      Ok(kind == ProcessingInstructionKind && name.Some? && name.value.local == target)
    case NamedTest(t) =>
      if kind != PrincipalKind(axis) then
        Ok(false)
      else
        match t
        case AnyName => Ok(true)
        case InNamespace(prefix) =>
          var namespace := NamespaceOf(namespaces, prefix);
          if namespace.None? then Err else Ok(name.Some? && name.value.namespace == namespace)
        case QualifiedName(prefix, local) =>
          var namespace := if prefix.Some? then NamespaceOf(namespaces, prefix.value) else None;
          if prefix.Some? && namespace.None? then Err
          else Ok(name.Some? && name.value.namespace == namespace && name.value.local == local)
  }

  // --- Predicates -------------------------------------------------------------------------------

  /** The nodes from `i` on that a predicate keeps, each asked with its place in the whole list. */
  function KeptFrom(w: World, nodes: seq<Node>, condition: Expr, i: nat): (r: seq<Node>)
    requires i <= |nodes|
    ensures forall x | x in r :: x in nodes[i..]
    ensures Ascending(nodes) ==> Ascending(r)
    decreases |nodes| - i
  {
    if i == |nodes| then
      []
    else
      var rest := KeptFrom(w, nodes, condition, i + 1);
      assert Ascending(nodes) ==> forall x | x in nodes[i + 1..] :: Before(nodes[i], x);
      if w.holds(condition, Focus(nodes[i], i + 1, |nodes|)) then [nodes[i]] + rest else rest
  }

  function Kept(w: World, nodes: seq<Node>, condition: Expr): seq<Node> {
    KeptFrom(w, nodes, condition, 0)
  }

  /** One predicate after the other, positions counted anew in what is left. */
  function KeptByAll(w: World, nodes: seq<Node>, predicates: seq<Expr>): (r: seq<Node>)
    ensures forall x | x in r :: x in nodes
    ensures Ascending(nodes) ==> Ascending(r)
    decreases |predicates|
  {
    if predicates == [] then nodes else KeptByAll(w, Kept(w, nodes, predicates[0]), predicates[1..])
  }

  lemma {:induction false} KeptByAllAppend(w: World, nodes: seq<Node>, p: seq<Expr>, q: seq<Expr>)
    ensures KeptByAll(w, nodes, p + q) == KeptByAll(w, KeptByAll(w, nodes, p), q)
    decreases |p|
  {
    if p == [] {
      assert p + q == q;
    } else {
      assert (p + q)[1..] == p[1..] + q;
      KeptByAllAppend(w, Kept(w, nodes, p[0]), p[1..], q);
    }
  }

  method Filter(w: World, nodes: seq<Node>, condition: Expr) returns (kept: seq<Node>)
    ensures kept == Kept(w, nodes, condition)
  {
    kept := [];
    for i := 0 to |nodes|
      invariant Kept(w, nodes, condition) == kept + KeptFrom(w, nodes, condition, i)
    {
      if w.holds(condition, Focus(nodes[i], i + 1, |nodes|)) {
        kept := kept + [nodes[i]];
      }
    }
  }

  method ApplyPredicates(w: World, nodes: seq<Node>, predicates: seq<Expr>) returns (kept: seq<Node>)
    ensures kept == KeptByAll(w, Normalize(nodes), predicates)
  {
    kept := Normalize(nodes);
    for i := 0 to |predicates|
      invariant KeptByAll(w, Normalize(nodes), predicates) == KeptByAll(w, kept, predicates[i..])
    {
      kept := Filter(w, kept, predicates[i]);
    }
  }

  // --- Steps ------------------------------------------------------------------------------------

  /** The nodes of a list that pass a node test. */
  function Passing(docs: Documents, ns: Namespaces, nodes: seq<Node>, axis: Axis, test: NodeTest): Result<seq<Node>>
    requires forall n | n in nodes :: IsNode(docs, n)
  {
    if nodes == [] then
      Ok([])
    else
      var first :- Matches(docs, ns, nodes[0], axis, test);
      var rest :- Passing(docs, ns, nodes[1..], axis, test);
      Ok(if first then [nodes[0]] + rest else rest)
  }

  /** A test whose prefix is bound never raises, and keeps the nodes that pass. */
  lemma {:induction false} PassingMembers(docs: Documents, ns: Namespaces, nodes: seq<Node>, axis: Axis, test: NodeTest)
    requires forall n | n in nodes :: IsNode(docs, n)
    ensures var r := Passing(docs, ns, nodes, axis, test);
            && (TestIsBound(ns, test) ==> r.Ok?)
            && (r.Ok? ==> forall x :: x in r.value <==> x in nodes && Matches(docs, ns, x, axis, test) == Ok(true))
  {
    if nodes != [] {
      PassingMembers(docs, ns, nodes[1..], axis, test);
    }
  }

  /** What one step selects from one node: the axis, then the node test, then the predicates. */
  function Selected(w: World, ns: Namespaces, step: Step, n: Node): (r: Result<seq<Node>>)
    requires IsNode(w.docs, n)
    ensures TestIsBound(ns, step.test) ==> r.Ok?
    ensures r.Ok? ==> w.AreNodes(r.value)
  {
    AxisOrder(w.docs, n, step.axis);
    PassingMembers(w.docs, ns, AxisNodes(w.docs, n, step.axis), step.axis, step.test);
    var passing :- Passing(w.docs, ns, AxisNodes(w.docs, n, step.axis), step.axis, step.test);
    Ok(KeptByAll(w, passing, step.predicates))
  }

  function Gathered(w: World, ns: Namespaces, step: Step, from: seq<Node>): (r: Result<seq<Node>>)
    requires w.AreNodes(from)
    ensures TestIsBound(ns, step.test) ==> r.Ok?
    ensures r.Ok? ==> forall x :: x in r.value <==>
                        exists m :: m in from && Selected(w, ns, step, m).Ok? && x in Selected(w, ns, step, m).value
  {
    if from == [] then
      Ok([])
    else
      var first :- Selected(w, ns, step, from[0]);
      var rest :- Gathered(w, ns, step, from[1..]);
      Ok(first + rest)
  }

  /** One step from every node reached so far. */
  function StepNodes(w: World, ns: Namespaces, step: Step, from: seq<Node>): (r: Result<seq<Node>>)
    requires w.AreNodes(from)
    ensures TestIsBound(ns, step.test) ==> r.Ok?
    ensures r.Ok? ==> w.AreNodes(r.value) && Ascending(r.value)
    ensures r.Ok? ==> forall x :: x in r.value <==>
                        exists m :: m in from && Selected(w, ns, step, m).Ok? && x in Selected(w, ns, step, m).value
  {
    var gathered :- Gathered(w, ns, step, from);
    Ok(Normalize(gathered))
  }

  function StepsNodes(w: World, ns: Namespaces, steps: seq<Step>, from: seq<Node>): (r: Result<seq<Node>>)
    requires w.AreNodes(from)
    ensures r.Ok? ==> w.AreNodes(r.value)
    ensures r.Ok? && steps != [] ==> Ascending(r.value)
    decreases |steps|
  {
    if steps == [] then
      Ok(from)
    else
      var nodes :- StepNodes(w, ns, steps[0], from);
      StepsNodes(w, ns, steps[1..], nodes)
  }

  lemma {:induction false} StepsNodesAppend(w: World, ns: Namespaces, p: seq<Step>, q: seq<Step>, from: seq<Node>)
    requires w.AreNodes(from)
    ensures StepsNodes(w, ns, p + q, from) ==
            if StepsNodes(w, ns, p, from).Err? then Err else StepsNodes(w, ns, q, StepsNodes(w, ns, p, from).value)
    decreases |p|
  {
    if p == [] {
      assert p + q == q;
    } else {
      assert (p + q)[1..] == p[1..] + q;
      var nodes := StepNodes(w, ns, p[0], from);
      if nodes.Ok? {
        StepsNodesAppend(w, ns, p[1..], q, nodes.value);
      }
    }
  }

  /** What a loop has gathered so far, followed by what is still to come. */
  function After(done: seq<Node>, rest: Result<seq<Node>>): Result<seq<Node>> {
    if rest.Ok? then Ok(done + rest.value) else Err
  }

  lemma AfterNothing(rest: Result<seq<Node>>)
    ensures After([], rest) == rest
  {
    if rest.Ok? {
      assert [] + rest.value == rest.value;
    }
  }

  lemma PassingNext(docs: Documents, ns: Namespaces, nodes: seq<Node>, axis: Axis, test: NodeTest, done: seq<Node>)
    requires nodes != [] && forall n | n in nodes :: IsNode(docs, n)
    ensures var passes := Matches(docs, ns, nodes[0], axis, test);
            After(done, Passing(docs, ns, nodes, axis, test)) ==
            if passes.Err? then Err
            else After(done + (if passes.value then [nodes[0]] else []), Passing(docs, ns, nodes[1..], axis, test))
  {
    hide Matches;
    var rest := Passing(docs, ns, nodes[1..], axis, test);
    if rest.Ok? {
      Regrouped(done, [nodes[0]], rest.value);
      assert done + [] == done;
    }
  }

  lemma GatheredNext(w: World, ns: Namespaces, step: Step, from: seq<Node>, done: seq<Node>)
    requires from != [] && w.AreNodes(from)
    ensures var first := Selected(w, ns, step, from[0]);
            After(done, Gathered(w, ns, step, from)) ==
            if first.Err? then Err else After(done + first.value, Gathered(w, ns, step, from[1..]))
  {
    hide Selected;
    var first, rest := Selected(w, ns, step, from[0]), Gathered(w, ns, step, from[1..]);
    if first.Ok? && rest.Ok? {
      Regrouped(done, first.value, rest.value);
    }
  }

  method Test(docs: Documents, ns: Namespaces, candidates: seq<Node>, axis: Axis, test: NodeTest)
    returns (r: Result<seq<Node>>)
    requires forall n | n in candidates :: IsNode(docs, n)
    ensures r == Passing(docs, ns, candidates, axis, test)
  {
    var selected: seq<Node> := [];
    AfterNothing(Passing(docs, ns, candidates, axis, test));
    for i := 0 to |candidates|
      invariant Passing(docs, ns, candidates, axis, test) == After(selected, Passing(docs, ns, candidates[i..], axis, test))
    {
      assert candidates[i..][1..] == candidates[i + 1..];
      PassingNext(docs, ns, candidates[i..], axis, test, selected);
      var passes :- Matches(docs, ns, candidates[i], axis, test);
      selected := selected + if passes then [candidates[i]] else [];
    }
    assert selected + [] == selected;
    r := Ok(selected);
  }

  /** A step taken from a single node, its predicates counting along the axis. */
  method Select(w: World, ns: Namespaces, step: Step, node: Node) returns (r: Result<seq<Node>>)
    requires IsNode(w.docs, node)
    ensures r == Selected(w, ns, step, node)
  {
    var candidates := AxisWalks.Nodes(w.docs, node, step.axis);
    AxisOrder(w.docs, node, step.axis);
    var selected :- Test(w.docs, ns, candidates, step.axis, step.test);
    var kept := selected;
    for i := 0 to |step.predicates|
      invariant KeptByAll(w, selected, step.predicates) == KeptByAll(w, kept, step.predicates[i..])
    {
      kept := Filter(w, kept, step.predicates[i]);
    }
    r := Ok(kept);
  }

  /** A step taken from each node of a list. */
  method EvalStep(w: World, ns: Namespaces, step: Step, from: seq<Node>) returns (r: Result<seq<Node>>)
    requires w.AreNodes(from)
    ensures r == StepNodes(w, ns, step, from)
  {
    var result: seq<Node> := [];
    AfterNothing(Gathered(w, ns, step, from));
    for i := 0 to |from|
      invariant Gathered(w, ns, step, from) == After(result, Gathered(w, ns, step, from[i..]))
    {
      assert from[i..][1..] == from[i + 1..];
      GatheredNext(w, ns, step, from[i..], result);
      var selected :- Select(w, ns, step, from[i]);
      result := result + selected;
    }
    assert result + [] == result;
    r := Ok(Normalize(result));
  }

  // --- Expressions that yield node-sets -----------------------------------------------------------

  /** The elements a list of ids names: the tokens of the text, each looked up, in document order. */
  function IdNodes(w: World, text: string): seq<Node> {
    Normalize(Looked(w, Tokens(text)))
  }

  function Looked(w: World, ids: seq<string>): (r: seq<Node>)
    ensures forall x :: x in r <==> exists id :: id in ids && w.elementById(id) == Some(x)
  {
    if ids == [] then
      []
    else
      (if w.elementById(ids[0]).Some? then [w.elementById(ids[0]).value] else []) + Looked(w, ids[1..])
  }

  predicate IsWhitespace(c: char) {
    c in {' ', '\t', '\r', '\n'}
  }

  /** The maximal runs of a text that hold no whitespace. */
  function Tokens(text: string): seq<string> {
    TokensFrom(text, [])
  }

  function TokensFrom(text: string, token: string): seq<string>
    decreases |text|
  {
    if text == [] then
      if token == [] then [] else [token]
    else if IsWhitespace(text[0]) then
      (if token == [] then [] else [token]) + TokensFrom(text[1..], [])
    else
      TokensFrom(text[1..], token + [text[0]])
  }

  /** What can name an element: one token, with no whitespace in it. */
  predicate IsToken(s: string) {
    s != [] && forall c | c in s :: !IsWhitespace(c)
  }

  /** A text without whitespace is a token, and whitespace anywhere parts the tokens before it from those after. */
  lemma TokensArePartedByWhitespace(before: string, c: char, after: string)
    requires c == ' ' || c == '\t' || c == '\r' || c == '\n'
    ensures Tokens(before + [c] + after) == Tokens(before) + Tokens(after)
    ensures Tokens("") == []
    ensures before != "" && (forall d | d in before :: d != ' ' && d != '\t' && d != '\r' && d != '\n') ==> Tokens(before) == [before]
  {
    PartedFrom(before, c, after, []);
    if before != "" && forall d | d in before :: d != ' ' && d != '\t' && d != '\r' && d != '\n' {
      OneToken(before, []);
      assert [] + before == before;
    }
  }

  lemma {:induction false} PartedFrom(before: string, c: char, after: string, token: string)
    requires c == ' ' || c == '\t' || c == '\r' || c == '\n'
    ensures TokensFrom(before + [c] + after, token) == TokensFrom(before, token) + TokensFrom(after, [])
    decreases before
  {
    var text := before + [c] + after;
    if before == [] {
      assert text == [c] + after && text[1..] == after;
    } else {
      assert text[0] == before[0] && text[1..] == before[1..] + [c] + after;
      PartedFrom(before[1..], c, after, if IsWhitespace(before[0]) then [] else token + [before[0]]);
    }
  }

  lemma {:induction false} OneToken(text: string, token: string)
    requires IsToken(token + text)
    ensures TokensFrom(text, token) == [token + text]
    decreases |text|
  {
    if text == [] {
      assert token + text == token;
    } else {
      assert text[0] in token + text;
      assert token + text == (token + [text[0]]) + text[1..];
      OneToken(text[1..], token + [text[0]]);
    }
  }

  /** A name split at its first colon, its prefix resolved, or `Err` when the prefix is not bound. */
  function Expanded(ns: Namespaces, name: string): Result<(Option<string>, string)> {
    if ':' !in name then
      Ok((None, name))
    else
      var i := FirstColon(name);
      var namespace := NamespaceOf(ns, name[..i]);
      if namespace.Some? then Ok((namespace, name[i + 1..])) else Err
  }

  function FirstColon(name: string): (i: nat)
    requires ':' in name
    ensures i < |name| && name[i] == ':' && ':' !in name[..i]
  {
    if name[0] == ':' then 0 else 1 + FirstColon(name[1..])
  }

  /** The node-set an expression yields, or `Err` for an expression that yields something else. */
  function NodesOf(w: World, ns: Namespaces, e: Expr, focus: Focus): (r: Result<seq<Node>>)
    requires w.Valid() && IsNode(w.docs, focus.node)
    ensures r.Ok? ==> w.AreNodes(r.value)
    decreases e
  {
    match e
    case PathExpr(path) =>
      var from :- match path.start
                  case RootStart => Ok([focus.node.RootNode()])
                  case ContextStart => Ok([focus.node])
                  case ExprStart(start) => NodesOf(w, ns, start, focus);
      StepsNodes(w, ns, path.steps, from)
    case FilterExpr(filtered, predicates) =>
      var nodes :- NodesOf(w, ns, filtered, focus);
      Ok(KeptByAll(w, Normalize(nodes), predicates))
    case Binary(Union, left, right) =>
      var a :- NodesOf(w, ns, left, focus);
      var b :- NodesOf(w, ns, right, focus);
      Ok(Normalize(a + b))
    case Variable(prefix, local) =>
      if prefix.Some? then
        var namespace := NamespaceOf(ns, prefix.value);
        if namespace.None? then Err else FromOption(w.variable(namespace, local))
      else
        FromOption(w.variable(None, local))
    case Function(prefix, local, arguments) =>
      if prefix.None? && local == "id" && |arguments| == 1 && arguments[0].Literal? then
        Ok(IdNodes(w, arguments[0].text))
      else if prefix.None? && local == "key" && |arguments| == 2 && arguments[0].Literal? && arguments[1].Literal? then
        var name :- Expanded(ns, arguments[0].text);
        Ok(Normalize(w.keyed(name.0, name.1, arguments[1].text)))
      else
        FromOption(w.call(e, focus))
    case _ => Err
  }

  function FromOption(nodes: Option<seq<Node>>): Result<seq<Node>> {
    if nodes.Some? then Ok(nodes.value) else Err
  }

  /** Walks a path from where it starts, a step at a time. */
  method EvalPath(w: World, ns: Namespaces, path: Path, focus: Focus) returns (r: Result<seq<Node>>)
    requires w.Valid() && IsNode(w.docs, focus.node)
    ensures r == NodesOf(w, ns, PathExpr(path), focus)
  {
    var nodes: seq<Node>;
    match path.start {
      case RootStart => nodes := [focus.node.RootNode()];
      case ContextStart => nodes := [focus.node];
      case ExprStart(start) =>
        var from := NodesOf(w, ns, start, focus);
        if from.Err? {
          return Err;
        }
        nodes := from.value;
    }
    ghost var from := nodes;
    for i := 0 to |path.steps|
      invariant w.AreNodes(nodes)
      invariant StepsNodes(w, ns, path.steps, from) == StepsNodes(w, ns, path.steps[i..], nodes)
    {
      var next := EvalStep(w, ns, path.steps[i], nodes);
      if next.Err? {
        return Err;
      }
      nodes := next.value;
    }
    r := Ok(nodes);
  }

  // --- The parser's two rewrites ------------------------------------------------------------------

  /** `(P)/Q` and `P/Q` select the same nodes. */
  lemma SplicingPreservesMeaning(w: World, ns: Namespaces, inner: Path, steps: seq<Step>, focus: Focus)
    requires w.Valid() && IsNode(w.docs, focus.node)
    ensures NodesOf(w, ns, PathExpr(Path(ExprStart(PathExpr(inner)), steps)), focus)
            == NodesOf(w, ns, PathExpr(Path(inner.start, inner.steps + steps)), focus)
  {
    var from := match inner.start
                case RootStart => Ok([focus.node.RootNode()])
                case ContextStart => Ok([focus.node])
                case ExprStart(start) => NodesOf(w, ns, start, focus);
    if from.Ok? {
      StepsNodesAppend(w, ns, inner.steps, steps, from.value);
    }
  }

  /** `((E)[p])[q]` and `(E)[p][q]` select the same nodes: filtering leaves nothing to sort. */
  lemma FoldingPreservesMeaning(w: World, ns: Namespaces, e: Expr, p: seq<Expr>, q: seq<Expr>, focus: Focus)
    requires w.Valid() && IsNode(w.docs, focus.node)
    ensures NodesOf(w, ns, FilterExpr(FilterExpr(e, p), q), focus) == NodesOf(w, ns, FilterExpr(e, p + q), focus)
  {
    var nodes := NodesOf(w, ns, e, focus);
    if nodes.Ok? {
      var kept := KeptByAll(w, Normalize(nodes.value), p);
      KeptByAllAppend(w, Normalize(nodes.value), p, q);
      NormalizeSorted(kept);
    }
  }

  /** What is sorted already stays as it is. */
  lemma NormalizeSorted(s: seq<Node>)
    requires Ascending(s)
    ensures Normalize(s) == s
  {
    AscendingIsUnique(Normalize(s), s);
  }

  /** A path with a step yields its nodes in document order, each once. */
  lemma PathsAreInDocumentOrder(w: World, ns: Namespaces, path: Path, focus: Focus)
    requires w.Valid() && IsNode(w.docs, focus.node) && path.steps != []
    ensures var r := NodesOf(w, ns, PathExpr(path), focus); r.Ok? ==> Ascending(r.value)
  {
    var from := match path.start
                case RootStart => Ok([focus.node.RootNode()])
                case ContextStart => Ok([focus.node])
                case ExprStart(start) => NodesOf(w, ns, start, focus);
    if from.Ok? {
      assert NodesOf(w, ns, PathExpr(path), focus) == StepsNodes(w, ns, path.steps, from.value);
    }
  }
}
