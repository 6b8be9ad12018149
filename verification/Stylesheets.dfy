/**
 A stylesheet as the engine meets it: the bodies of its templates and attribute sets, how large they
 are, what a name can be bound to, and what is asked of expressions and of the choice of a rule.
 */
module Stylesheets {
  import opened Wrappers
  import opened Xdm

  // --- Stylesheets ------------------------------------------------------------------------------------

  datatype Instruction =
    | Nothing
    | LiteralText(text: string)
    | TextInstruction(text: string)
    | ValueOf(select: string)
    | If(test: string, body: seq<Instruction>)
    | Choose(branches: seq<Branch>)
    | WriteNumber(specification: string)
    | ForEach(select: string, sorts: seq<string>, body: seq<Instruction>)
    | ApplyTemplates(nodes: Option<string>, sorts: seq<string>, mode: Option<string>, withParams: seq<Declaration>)
    | ApplyImports
    | CallTemplate(template: string, withParams: seq<Declaration>)
    | Declare(isParam: bool, declaration: Declaration)
    | MakeElement(name: string, uses: seq<string>, body: seq<Instruction>)
    | MakeAttribute(name: string, body: seq<Instruction>)
    | MakeComment(body: seq<Instruction>)
    | MakeInstruction(name: string, body: seq<Instruction>)
    | Copy(uses: seq<string>, body: seq<Instruction>)
    | CopyOf(select: string, variable: Option<string>)
    | Message(terminate: bool, body: seq<Instruction>)
    | LiteralElement(element: ExpandedName, uses: seq<string>, attributes: seq<LiteralAttribute>, body: seq<Instruction>)
    | Unknown(understood: bool, fallbacks: seq<Fallback>)
  {
    /** An element of the XSLT namespace that is known. */
    predicate IsInstruction() {
      !Nothing? && !LiteralText? && !LiteralElement? && !Unknown?
    }

    /** One that makes or copies result nodes. */
    predicate Builds() {
      MakeElement? || MakeAttribute? || MakeComment? || MakeInstruction? || Copy? || CopyOf?
    }
  }

  datatype Branch = When(test: string, body: seq<Instruction>) | Otherwise(body: seq<Instruction>)

  datatype Fallback = Fallback(body: seq<Instruction>)

  datatype LiteralAttribute = LiteralAttribute(name: ExpandedName, value: string)

  /** A name given a value: by an expression, or by content run into a fragment of its own. */
  datatype Declaration = Select(name: string, select: string) | Produced(name: string, body: seq<Instruction>)

  datatype Template = Template(body: seq<Instruction>, precedence: int)

  datatype AttributeSet = AttributeSet(uses: seq<string>, body: seq<Instruction>)

  datatype GlobalVariable = GlobalVariable(declaration: Declaration, precedence: int, isParameter: bool)

  datatype Stylesheet = Stylesheet(
    templates: seq<Template>,
    named: map<string, nat>,
    attributeSets: map<string, seq<AttributeSet>>,
    variables: seq<GlobalVariable>)

  /** How much there is of a body: what an instruction runs is always less. */
  function Size(body: seq<Instruction>): nat {
    if body == [] then 0 else 1 + InstructionSize(body[0]) + Size(body[1..])
  }

  function InstructionSize(i: Instruction): nat {
    match i
    case If(_, body) => Size(body)
    case Choose(branches) => BranchesSize(branches)
    case ForEach(_, _, body) => Size(body)
    case ApplyTemplates(_, _, _, withParams) => DeclarationsSize(withParams)
    case CallTemplate(_, withParams) => DeclarationsSize(withParams)
    case Declare(_, declaration) => DeclarationSize(declaration)
    case MakeElement(_, _, body) => Size(body)
    case MakeAttribute(_, body) => Size(body)
    case MakeComment(body) => Size(body)
    case MakeInstruction(_, body) => Size(body)
    case Copy(_, body) => Size(body)
    case Message(_, body) => Size(body)
    case LiteralElement(_, _, _, body) => Size(body)
    case Unknown(_, fallbacks) => FallbacksSize(fallbacks)
    case _ => 0
  }

  function BranchesSize(branches: seq<Branch>): nat {
    if branches == [] then 0 else Size(branches[0].body) + BranchesSize(branches[1..])
  }

  function DeclarationsSize(ds: seq<Declaration>): nat {
    if ds == [] then 0 else DeclarationSize(ds[0]) + DeclarationsSize(ds[1..])
  }

  function DeclarationSize(d: Declaration): nat {
    if d.Produced? then Size(d.body) else 0
  }

  function FallbacksSize(fallbacks: seq<Fallback>): nat {
    if fallbacks == [] then 0 else Size(fallbacks[0].body) + FallbacksSize(fallbacks[1..])
  }

  lemma {:induction false} SizeOfOne(body: seq<Instruction>, i: nat)
    requires i < |body|
    ensures InstructionSize(body[i]) < Size(body)
  {
    if i > 0 {
      SizeOfOne(body[1..], i - 1);
    }
  }

  lemma {:induction false} SizeOfBranch(branches: seq<Branch>, i: nat)
    requires i < |branches|
    ensures Size(branches[i].body) <= BranchesSize(branches)
  {
    if i > 0 {
      SizeOfBranch(branches[1..], i - 1);
    }
  }

  lemma {:induction false} SizeOfDeclaration(ds: seq<Declaration>, i: nat)
    requires i < |ds|
    ensures DeclarationSize(ds[i]) <= DeclarationsSize(ds)
  {
    if i > 0 {
      SizeOfDeclaration(ds[1..], i - 1);
    }
  }

  lemma {:induction false} SizeOfFallback(fallbacks: seq<Fallback>, i: nat)
    requires i < |fallbacks|
    ensures Size(fallbacks[i].body) <= FallbacksSize(fallbacks)
  {
    if i > 0 {
      SizeOfFallback(fallbacks[1..], i - 1);
    }
  }

  // Bodies in which no `xsl:apply-templates` carries an `xsl:with-param`: that is the one way of
  // reaching a rule without a test of the depth, and `XsltLaws.PassesTheLimitExactly` says what comes of it.

  predicate Guarded(body: seq<Instruction>) {
    forall i | i in body :: GuardedInstruction(i)
  }

  predicate GuardedInstruction(i: Instruction) {
    match i
    case If(_, body) => Guarded(body)
    case Choose(branches) => forall b | b in branches :: Guarded(b.body)
    case ForEach(_, _, body) => Guarded(body)
    case ApplyTemplates(_, _, _, withParams) => withParams == []
    case CallTemplate(_, withParams) => forall d | d in withParams :: GuardedDeclaration(d)
    case Declare(_, declaration) => GuardedDeclaration(declaration)
    case MakeElement(_, _, body) => Guarded(body)
    case MakeAttribute(_, body) => Guarded(body)
    case MakeComment(body) => Guarded(body)
    case MakeInstruction(_, body) => Guarded(body)
    case Copy(_, body) => Guarded(body)
    case Message(_, body) => Guarded(body)
    case LiteralElement(_, _, _, body) => Guarded(body)
    case Unknown(_, fallbacks) => forall f | f in fallbacks :: Guarded(f.body)
    case _ => true
  }

  predicate GuardedDeclaration(d: Declaration) {
    d.Produced? ==> Guarded(d.body)
  }

  ghost predicate GuardedSheet(sheet: Stylesheet) {
    && (forall t | t in sheet.templates :: Guarded(t.body))
    && (forall name, set_ | name in sheet.attributeSets && set_ in sheet.attributeSets[name] :: Guarded(set_.body))
    && (forall v | v in sheet.variables :: GuardedDeclaration(v.declaration))
  }

  /** A name stands for a template the stylesheet has. */
  ghost predicate IsLinked(sheet: Stylesheet) {
    forall name | name in sheet.named :: sheet.named[name] < |sheet.templates|
  }

  // --- Values and the expressions that give them --------------------------------------------------------

  datatype Value = NodeSet(nodes: seq<Node>) | Boolean(holds: bool) | Number(value: real) | String(text: string) {
    predicate Truth() {
      match this
      case NodeSet(nodes) => nodes != []
      case Boolean(holds) => holds
      case Number(value) => value != 0.0
      case String(text) => text != ""
    }
  }

  /** A variable's value, and the fragment it was built as if it came from content. */
  datatype Binding<F> = Binding(name: string, value: Value, fragment: Option<F>)

  type Scopes<F> = seq<seq<Binding<F>>>

  datatype Variable = Variable(name: string, value: Value)

  /** What an expression sees of the variables: their values, never the fragments. */
  function Seen<F>(scopes: Scopes<F>): seq<seq<Variable>> {
    seq(|scopes|, i requires 0 <= i < |scopes| => SeenOf(scopes[i]))
  }

  function SeenOf<F>(scope: seq<Binding<F>>): seq<Variable> {
    seq(|scope|, i requires 0 <= i < |scope| => Variable(scope[i].name, scope[i].value))
  }

  /** The fragment the innermost binding of a name holds. */
  function FragmentNamed<F>(scopes: Scopes<F>, name: string): Option<F> {
    if scopes == [] then
      None
    else
      var found := BindingNamed(scopes[|scopes| - 1], name);
      if found.Some? then found.value.fragment else FragmentNamed(scopes[..|scopes| - 1], name)
  }

  function BindingNamed<F>(scope: seq<Binding<F>>, name: string): Option<Binding<F>> {
    if scope == [] then None
    else if scope[|scope| - 1].name == name then Some(scope[|scope| - 1])
    else BindingNamed(scope[..|scope| - 1], name)
  }

  predicate Binds<F>(scope: seq<Binding<F>>, name: string) {
    exists i | 0 <= i < |scope| :: scope[i].name == name
  }

  function Without<F>(scope: seq<Binding<F>>, name: string): seq<Binding<F>> {
    if scope == [] then [] else (if scope[0].name == name then [] else [scope[0]]) + Without(scope[1..], name)
  }

  datatype Focus = Focus(node: Node, position: nat, size: nat)

  /** What running a stylesheet asks of the rest: expressions, numbers, sorting and the choice of a rule. Any may raise. */
  datatype Oracles = Oracles(
    evaluate: (string, Focus, seq<seq<Variable>>) -> Result<Value>,
    text: (string, Focus, seq<seq<Variable>>) -> Result<string>,
    name: (string, Focus, seq<seq<Variable>>) -> Result<ExpandedName>,
    number: (string, Focus, seq<seq<Variable>>) -> Result<string>,
    sort: (seq<string>, seq<Node>, Focus, seq<seq<Variable>>) -> Result<seq<Node>>,
    rule: (Node, Option<string>, Option<int>) -> Result<Option<nat>>,
    keeps: Node -> bool)

  ghost predicate ValidOracles(docs: Documents, sheet: Stylesheet, o: Oracles) {
    && (forall e, f, s :: AreNodes(docs, o.evaluate(e, f, s)))
    && (forall n, m, b :: IsRule(sheet, o.rule(n, m, b)))
    && (forall sorts, nodes, f, s :: IsArranged(nodes, o.sort(sorts, nodes, f, s)))
  }

  predicate AreNodes(docs: Documents, r: Result<Value>) {
    r.Ok? && r.value.NodeSet? ==> AllNodes(docs, r.value.nodes)
  }

  /** Sorting moves nodes about, and neither loses nor adds one. */
  predicate IsArranged(nodes: seq<Node>, r: Result<seq<Node>>) {
    r.Ok? ==> multiset(r.value) == multiset(nodes)
  }

  predicate AllNodes(docs: Documents, nodes: seq<Node>) {
    forall n | n in nodes :: IsNode(docs, n)
  }

  predicate IsRule(sheet: Stylesheet, r: Result<Option<nat>>) {
    r.Ok? && r.value.Some? ==> r.value.value < |sheet.templates|
  }

  /** The nodes whitespace stripping leaves. */
  function Stripped(o: Oracles, nodes: seq<Node>): (r: seq<Node>)
    ensures forall n :: n in r <==> n in nodes && o.keeps(n)
  {
    if nodes == [] then [] else (if o.keeps(nodes[0]) then [nodes[0]] else []) + Stripped(o, nodes[1..])
  }

  // --- How far down the source a built-in rule can still go -----------------------------------------------

  function TreeSize(t: Tree): nat
    decreases t, |t.Kids()| + 1
  {
    1 + KidsSize(t, 0)
  }

  function KidsSize(t: Tree, i: nat): nat
    requires i <= |t.Kids()|
    decreases t, |t.Kids()| - i
  {
    if i == |t.Kids()| then 0 else TreeSize(t.Kids()[i]) + KidsSize(t, i + 1)
  }

  lemma {:induction false} KidsSizeOfOne(t: Tree, i: nat, k: nat)
    requires i <= k < |t.Kids()|
    ensures TreeSize(t.Kids()[k]) <= KidsSize(t, i)
    decreases k - i
  {
    if i < k {
      KidsSizeOfOne(t, i + 1, k);
    }
  }

  function Extent(docs: Documents, n: Node): nat
    requires IsNode(docs, n)
  {
    match Item(docs, n)
    case TreeItem(t) => TreeSize(t)
    case _ => 0
  }

  predicate AllWithin(docs: Documents, nodes: seq<Node>, bound: nat)
    requires AllNodes(docs, nodes)
  {
    forall n | n in nodes :: Extent(docs, n) < bound
  }

  lemma ChildrenAreWithin(docs: Documents, n: Node)
    requires IsNode(docs, n)
    ensures AllNodes(docs, Children(docs, n)) && AllWithin(docs, Children(docs, n), Extent(docs, n))
  {
    if Item(docs, n).TreeItem? {
      var t := Item(docs, n).tree;
      forall i: nat | i < |t.Kids()|
        ensures IsNode(docs, n.Down(ChildHop(i))) && Extent(docs, n.Down(ChildHop(i))) < Extent(docs, n)
      {
        ItemAtAppend(docs[n.document], n.hops, [ChildHop(i)]);
        assert ItemAt(t, [ChildHop(i)]) == ItemAt(t.Kids()[i], []);
        KidsSizeOfOne(t, 0, i);
      }
    }
  }

  lemma ChildItem(docs: Documents, n: Node, i: nat)
    requires IsNode(docs, n) && Item(docs, n).TreeItem? && i < |Item(docs, n).tree.Kids()|
    ensures i < |Children(docs, n)| && IsNode(docs, Children(docs, n)[i])
    ensures Item(docs, Children(docs, n)[i]) == TreeItem(Item(docs, n).tree.Kids()[i])
  {
    var t := Item(docs, n).tree;
    ItemAtAppend(docs[n.document], n.hops, [ChildHop(i)]);
    assert ItemAt(t, [ChildHop(i)]) == ItemAt(t.Kids()[i], []);
  }

  ghost function Bound(docs: Documents, nodes: seq<Node>): (b: nat)
    requires AllNodes(docs, nodes)
    ensures AllWithin(docs, nodes, b)
  {
    if nodes == [] then 0 else
      var rest := Bound(docs, nodes[1..]);
      var first := Extent(docs, nodes[0]) + 1;
      if first > rest then first else rest
  }

  // --- Attribute sets and top-level variables ------------------------------------------------------------

  function SetsSize(sets: seq<AttributeSet>): nat {
    if sets == [] then 0 else Size(sets[0].body) + SetsSize(sets[1..])
  }

  lemma {:induction false} SizeOfSet(sets: seq<AttributeSet>, i: nat)
    requires i < |sets|
    ensures Size(sets[i].body) <= SetsSize(sets)
  {
    if i > 0 {
      SizeOfSet(sets[1..], i - 1);
    }
  }

  /** Some declaration of the same name has a higher import precedence. */
  predicate IsShadowed(variables: seq<GlobalVariable>, v: GlobalVariable) {
    exists other :: other in variables && other.declaration.name == v.declaration.name && other.precedence > v.precedence
  }

  /** One of the first `count` declarations gives a name its value. */
  predicate NameDeclared(variables: seq<GlobalVariable>, count: nat, name: string)
    requires count <= |variables|
  {
    exists k | 0 <= k < count :: variables[k].declaration.name == name && !IsShadowed(variables, variables[k])
  }

  lemma OneMoreDeclared(variables: seq<GlobalVariable>, i: nat, name: string)
    requires i < |variables| && NameDeclared(variables, i + 1, name)
    ensures NameDeclared(variables, i, name) || (!IsShadowed(variables, variables[i]) && name == variables[i].declaration.name)
  {
    var k :| 0 <= k < i + 1 && variables[k].declaration.name == name && !IsShadowed(variables, variables[k]);
  }

  function HighestPrecedence(variables: seq<GlobalVariable>): (top: int)
    ensures forall v | v in variables :: v.precedence <= top
  {
    if variables == [] then 0 else
      var rest := HighestPrecedence(variables[1..]);
      if variables[0].precedence > rest then variables[0].precedence else rest
  }

  /** However many declarations a name has, one of them is not shadowed. */
  lemma {:induction false} SomeoneWins(variables: seq<GlobalVariable>, v: GlobalVariable)
    requires v in variables
    ensures NameDeclared(variables, |variables|, v.declaration.name)
    decreases HighestPrecedence(variables) - v.precedence
  {
    if IsShadowed(variables, v) {
      var other :| other in variables && other.declaration.name == v.declaration.name && other.precedence > v.precedence;
      SomeoneWins(variables, other);
    } else {
      var k :| 0 <= k < |variables| && variables[k] == v;
      assert variables[k].declaration.name == v.declaration.name;
    }
  }

  predicate IsWhitespaceOnly(text: string) {
    forall c | c in text :: c in {' ', '\t', '\r', '\n'}
  }

  /** The text of a subtree. */
  function TextOf(t: Tree): string
    decreases t, |t.Kids()| + 1
  {
    if t.Text? then t.value else TextFrom(t, 0)
  }

  function TextFrom(t: Tree, i: nat): string
    requires i <= |t.Kids()|
    decreases t, |t.Kids()| - i
  {
    if i == |t.Kids()| then "" else TextOf(t.Kids()[i]) + TextFrom(t, i + 1)
  }

  datatype CurrentRule = CurrentRule(precedence: int, mode: Option<string>)
}
