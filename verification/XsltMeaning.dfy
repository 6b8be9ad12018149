/**
 What a stylesheet means, without an engine: every construct yields the content it puts where it
 stands, the scopes it leaves and the messages it sends. The depth, the current rule, the attribute
 sets in use and whether an element is open are handed down as part of `Env`, so nothing has to be
 put back; results are trees, so there are no node numbers; and a fragment is the tree it holds.

 `XsltEngine` proves that the engine, which does all of this by changing its state in place and
 undoing what it pushed, produces exactly this.
 */
module XsltMeaning {
  import opened Wrappers
  import opened Xdm
  import opened ResultTree
  import opened Stylesheets

  /** `maxDepth` is the depth that is tested for; `spare` is how many templates the machine has room for past it. */
  datatype Context = Context(docs: Documents, sheet: Stylesheet, oracles: Oracles, maxDepth: nat, spare: nat) {
    ghost predicate Valid() {
      ValidOracles(docs, sheet, oracles) && IsLinked(sheet)
    }

    /** No run gets deeper than this. */
    function Limit(): nat {
      maxDepth + spare
    }

    /** The attribute sets that can still be used without one using itself. */
    function Unused(chain: seq<string>): set<string> {
      set name | name in sheet.attributeSets && name !in chain
    }
  }

  lemma RuleIsThere(g: Context, n: Node, mode: Option<string>, below: Option<int>)
    requires g.Valid()
    ensures IsRule(g.sheet, g.oracles.rule(n, mode, below))
  {
  }

  lemma NodesAreThere(g: Context, select: string, focus: Focus, seen: seq<seq<Variable>>)
    requires g.Valid()
    ensures AreNodes(g.docs, g.oracles.evaluate(select, focus, seen))
  {
  }

  /** What happens on the way: a message, or a template entered at a depth, which was tested or was not. */
  datatype Event = Said(text: string) | Entered(depth: nat, tested: bool)

  type Log = seq<Event>

  /** A run that fails has still done what its log says. */
  datatype Outcome<+T> = Fine(value: T) | Failed(log: Log) {
    predicate IsFailure() {
      Failed?
    }

    function PropagateFailure<U>(): Outcome<U>
      requires Failed?
    {
      Failed(log)
    }

    function Extract(): T
      requires Fine?
    {
      value
    }
  }

  function Asked<T>(r: Result<T>): Outcome<T> {
    if r.Ok? then Fine(r.value) else Failed([])
  }

  /** What happened before also happened if what comes then fails. */
  function After<T>(before: Log, r: Outcome<T>): Outcome<T> {
    if r.Fine? then r else Failed(before + r.log)
  }

  function Messages(log: Log): seq<string> {
    if log == [] then [] else (if log[0].Said? then [log[0].text] else []) + Messages(log[1..])
  }

  /** The deepest a run went: entering a template at a depth takes it one deeper. */
  function Deepest(log: Log): nat {
    if log == [] then 0 else
      var rest := Deepest(log[1..]);
      if log[0].Entered? && log[0].depth + 1 > rest then log[0].depth + 1 else rest
  }

  lemma {:induction false} DeepestOfBoth(a: Log, b: Log)
    ensures Deepest(a + b) == if Deepest(a) < Deepest(b) then Deepest(b) else Deepest(a)
  {
    if a == [] {
      assert a + b == b;
    } else {
      DeepestOfBoth(a[1..], b);
      assert (a + b)[1..] == a[1..] + b;
    }
  }

  lemma {:induction false} MessagesOfBoth(a: Log, b: Log)
    ensures Messages(a + b) == Messages(a) + Messages(b)
  {
    if a == [] {
      assert a + b == b;
    } else {
      var first := if a[0].Said? then [a[0].text] else [];
      MessagesOfBoth(a[1..], b);
      assert (a + b)[0] == a[0] && (a + b)[1..] == a[1..] + b;
      assert Messages(a) == first + Messages(a[1..]);
      assert Messages(a + b) == first + Messages(a[1..] + b);
      hide Messages;
      assert first + (Messages(a[1..]) + Messages(b)) == first + Messages(a[1..]) + Messages(b);
    }
  }

  /** Where an instruction stands. */
  datatype Env = Env(
    scopes: Scopes<Built>,
    depth: nat,
    chain: seq<string>,
    currentRule: Option<CurrentRule>,
    inElement: bool)

  /** What an instruction comes to. */
  datatype Done = Done(scopes: Scopes<Built>, content: Content, log: Log) {
    function Then(more: Done): Done {
      Done(more.scopes, content.Then(more.content), log + more.log)
    }

    function Next(more: Outcome<Done>): Outcome<Done> {
      if more.Fine? then Fine(Then(more.value)) else Failed(log + more.log)
    }
  }

  function LogOf(r: Outcome<Done>): Log {
    if r.Fine? then r.value.log else r.log
  }

  /** Something happened first. */
  function Logged(e: Event, r: Outcome<Done>): Outcome<Done> {
    if r.Fine? then Fine(r.value.(log := [e] + r.value.log)) else Failed([e] + r.log)
  }

  lemma DoneThen(a: Done, b: Done, c: Outcome<Done>)
    ensures a.Then(b).Next(c) == a.Next(b.Next(c))
    ensures a.Then(Done(a.scopes, EMPTY, [])) == a
  {
    ContentThen(a.content, b.content, if c.Fine? then c.value.content else EMPTY);
    assert a.log + b.log + LogOf(c) == a.log + (b.log + LogOf(c));
  }

  /** The first thing done leaves nothing behind but its scopes. */
  lemma NothingThen(scopes: Scopes<Built>, r: Outcome<Done>)
    ensures Done(scopes, EMPTY, []).Next(r) == r
  {
    var silence: Log := [];
    assert silence + LogOf(r) == LogOf(r);
    if r.Fine? {
      ContentThen(r.value.content, EMPTY, EMPTY);
    }
  }

  /** A tree with nothing under it yet. */
  function Leaf(n: ResultNode): Built {
    Built(n.kind, n.name, n.text, n.attributes, [])
  }

  function Quiet(env: Env): Done {
    Done(env.scopes, EMPTY, [])
  }

  function Putting(env: Env, content: Content): Done {
    Done(env.scopes, content, [])
  }

  function PuttingIf(env: Env, content: Result<Content>): Outcome<Done> {
    if content.Ok? then Fine(Putting(env, content.value)) else Failed([])
  }

  lemma PuttingThen(env: Env, content: Content, more: Result<Content>)
    ensures PuttingIf(env, if more.Ok? then Ok(content.Then(more.value)) else Err) == Putting(env, content).Next(PuttingIf(env, more))
  {
    var none: Log := [];
    assert none + none == none;
  }

  lemma ThenPut(d: Done, content: Content)
    ensures d.(content := EMPTY).Then(Done(d.scopes, content, [])) == d.(content := content)
  {
    ContentThen(content, EMPTY, EMPTY);
  }

  /** Text becomes a node of its own, unless there is none. */
  function TextContentOf(text: string): Content {
    if text == "" then EMPTY else Child(Leaf(TextNode(text)))
  }

  // --- Template rules -------------------------------------------------------------------------------

  /** A node's rule, or the built-in one; at the limit, neither. */
  function Apply(g: Context, focus: Focus, mode: Option<string>, env: Env): Outcome<Done>
    requires g.Valid() && IsNode(g.docs, focus.node)
    decreases g.Limit() - env.depth, g.Unused(env.chain), 0, Extent(g.docs, focus.node), 3, 0
  {
    if env.depth >= g.maxDepth then
      Failed([])
    else
      var matched :- Asked(g.oracles.rule(focus.node, mode, None));
      assert IsRule(g.sheet, g.oracles.rule(focus.node, mode, None));
      match matched
      case None => BuiltIn(g, focus, mode, env)
      case Some(rule) => Rule(g, rule, mode, focus, [], true, env)
  }

  /** A rule reached by matching is the current one for as long as its body runs, one level deeper. */
  function Rule(g: Context, rule: nat, mode: Option<string>, focus: Focus, parameters: seq<Binding<Built>>, tested: bool, env: Env)
    : Outcome<Done>
    requires g.Valid() && IsNode(g.docs, focus.node) && rule < |g.sheet.templates| && env.depth < g.Limit()
    decreases g.Limit() - env.depth, g.Unused(env.chain), 0, 0, 0, 0
  {
    var current := Some(CurrentRule(g.sheet.templates[rule].precedence, mode));
    Logged(Entered(env.depth, tested),
           InScope(g, parameters, g.sheet.templates[rule].body, focus, env.(depth := env.depth + 1, currentRule := current)))
  }

  /** The rule the current one overrode: the same node and mode, a lower import precedence. */
  function Imported(g: Context, focus: Focus, env: Env): Outcome<Done>
    requires g.Valid() && IsNode(g.docs, focus.node)
    decreases g.Limit() - env.depth, g.Unused(env.chain), 1, 0, 0, 0
  {
    if env.currentRule.None? || env.depth >= g.maxDepth then
      Failed([])
    else
      var CurrentRule(precedence, mode) := env.currentRule.value;
      var matched :- Asked(g.oracles.rule(focus.node, mode, Some(precedence)));
      assert IsRule(g.sheet, g.oracles.rule(focus.node, mode, Some(precedence)));
      match matched
      case None => BuiltIn(g, focus, mode, env)
      case Some(rule) => Rule(g, rule, mode, focus, [], true, env)
  }

  function BuiltIn(g: Context, focus: Focus, mode: Option<string>, env: Env): Outcome<Done>
    requires g.Valid() && IsNode(g.docs, focus.node)
    decreases g.Limit() - env.depth, g.Unused(env.chain), 0, Extent(g.docs, focus.node), 2, 0
  {
    match Item(g.docs, focus.node)
    case AttributeItem(a) => Fine(Putting(env, TextContentOf(a.value)))
    case NamespaceItem(_) => Fine(Quiet(env))
    case TreeItem(t) =>
      if t.Root? || t.Element? then
        ChildrenAreWithin(g.docs, focus.node);
        ApplyToAll(g, Stripped(g.oracles, Children(g.docs, focus.node)), 0, mode, env, Extent(g.docs, focus.node))
      else
        Fine(Putting(env, TextContentOf(if t.Text? then t.value else "")))
  }

  function ApplyToAll(g: Context, nodes: seq<Node>, i: nat, mode: Option<string>, env: Env, ghost bound: nat): Outcome<Done>
    requires g.Valid() && AllNodes(g.docs, nodes) && AllWithin(g.docs, nodes, bound) && i <= |nodes|
    decreases g.Limit() - env.depth, g.Unused(env.chain), 0, bound, 1, |nodes| - i
  {
    if i == |nodes| then
      Fine(Quiet(env))
    else
      assert nodes[i] in nodes;
      var first :- Apply(g, Focus(nodes[i], i + 1, |nodes|), mode, env);
      first.Next(ApplyToAll(g, nodes, i + 1, mode, env.(scopes := first.scopes), bound))
  }

  /**
   Rules for a list of nodes, each given the parameters. No depth is tested on the way: a rule that
   matches is entered for as long as the machine has room for it.
   */
  function HandToAll(g: Context, nodes: seq<Node>, i: nat, mode: Option<string>, parameters: seq<Binding<Built>>, env: Env): Outcome<Done>
    requires g.Valid() && AllNodes(g.docs, nodes) && i <= |nodes|
    decreases g.Limit() - env.depth, g.Unused(env.chain), 1, 0, 0, |nodes| - i
  {
    if i == |nodes| then
      Fine(Quiet(env))
    else
      assert nodes[i] in nodes;
      var first :- HandTo(g, Focus(nodes[i], i + 1, |nodes|), mode, parameters, env);
      first.Next(HandToAll(g, nodes, i + 1, mode, parameters, env.(scopes := first.scopes)))
  }

  function HandTo(g: Context, focus: Focus, mode: Option<string>, parameters: seq<Binding<Built>>, env: Env): Outcome<Done>
    requires g.Valid() && IsNode(g.docs, focus.node)
    decreases g.Limit() - env.depth, g.Unused(env.chain), 0, Extent(g.docs, focus.node), 3, 0
  {
    var matched :- Asked(g.oracles.rule(focus.node, mode, None));
    assert IsRule(g.sheet, g.oracles.rule(focus.node, mode, None));
    match matched
    case None => BuiltIn(g, focus, mode, env)
    case Some(rule) =>
      if env.depth >= g.Limit() then Failed([]) else Rule(g, rule, mode, focus, parameters, false, env)
  }

  /** A body in a scope of its own: nothing it declares is left afterwards. */
  function InScope(g: Context, scope: seq<Binding<Built>>, body: seq<Instruction>, focus: Focus, env: Env): Outcome<Done>
    requires g.Valid() && IsNode(g.docs, focus.node)
    decreases g.Limit() - env.depth, g.Unused(env.chain), Size(body), 0, 4, 0
  {
    var inside :- Body(g, body, focus, env.(scopes := env.scopes + [scope]));
    Fine(inside.(scopes := env.scopes))
  }

  // --- Bodies ---------------------------------------------------------------------------------------

  function Body(g: Context, body: seq<Instruction>, focus: Focus, env: Env): Outcome<Done>
    requires g.Valid() && IsNode(g.docs, focus.node)
    decreases g.Limit() - env.depth, g.Unused(env.chain), Size(body), 0, 3, 0
  {
    if body == [] then
      Fine(Quiet(env))
    else
      var first :- One(g, body[0], focus, env);
      first.Next(Body(g, body[1..], focus, env.(scopes := first.scopes)))
  }

  function One(g: Context, i: Instruction, focus: Focus, env: Env): Outcome<Done>
    requires g.Valid() && IsNode(g.docs, focus.node)
    decreases g.Limit() - env.depth, g.Unused(env.chain), InstructionSize(i) + 1, 0, 2, 2
  {
    if i.IsInstruction() then
      Instructed(g, i, focus, env)
    else
      match i
      case Nothing => Fine(Quiet(env))
      case LiteralText(text) => Fine(Putting(env, TextContentOf(if IsWhitespaceOnly(text) then "" else text)))
      case LiteralElement(name, uses, attributes, body) => NewElement(g, name, uses, attributes, body, focus, env)
      case Unknown(understood, fallbacks) =>
        if understood && fallbacks != [] then Fallbacks(g, fallbacks, focus, env) else Failed([])
  }

  function Instructed(g: Context, i: Instruction, focus: Focus, env: Env): Outcome<Done>
    requires g.Valid() && IsNode(g.docs, focus.node) && i.IsInstruction()
    decreases g.Limit() - env.depth, g.Unused(env.chain), InstructionSize(i) + 1, 0, 2, 1
  {
    if i.Builds() then
      Building(g, i, focus, env)
    else
      match i
      case TextInstruction(text) => Fine(Putting(env, TextContentOf(text)))
      case ValueOf(select) => Valued(g, select, focus, env)
      case WriteNumber(specification) => Numbered(g, specification, focus, env)
      case If(test, body) => Conditional(g, test, body, focus, env)
      case Choose(branches) => Choice(g, branches, focus, env)
      case ForEach(select, sorts, body) => Repeated(g, select, sorts, body, focus, env)
      case ApplyTemplates(select, sorts, mode, withParams) => Applying(g, select, sorts, mode, withParams, focus, env)
      case ApplyImports => Imported(g, focus, env)
      case CallTemplate(template, withParams) => Called(g, template, withParams, focus, env)
      case Declare(isParam, declaration) => Declaring(g, isParam, declaration, focus, env)
      case Message(terminate, body) => Telling(g, terminate, body, focus, env)
  }

  function Building(g: Context, i: Instruction, focus: Focus, env: Env): Outcome<Done>
    requires g.Valid() && IsNode(g.docs, focus.node) && i.Builds()
    decreases g.Limit() - env.depth, g.Unused(env.chain), InstructionSize(i) + 1, 0, 2, 0
  {
    match i
    case MakeElement(name, uses, body) => NamedElement(g, name, uses, body, focus, env)
    case MakeAttribute(name, body) => NewAttribute(g, name, body, focus, env)
    case MakeComment(body) => NewComment(g, body, focus, env)
    case MakeInstruction(name, body) => NewInstruction(g, name, body, focus, env)
    case Copy(uses, body) => Copied(g, uses, body, focus, env)
    case CopyOf(select, variable) => CopiedValue(g, select, variable, focus, env)
  }

  // --- Choosing and repeating -----------------------------------------------------------------------

  function Valued(g: Context, select: string, focus: Focus, env: Env): Outcome<Done> {
    var text :- Asked(g.oracles.text(select, focus, Seen(env.scopes)));
    Fine(Putting(env, TextContentOf(text)))
  }

  function Numbered(g: Context, specification: string, focus: Focus, env: Env): Outcome<Done> {
    var text :- Asked(g.oracles.number(specification, focus, Seen(env.scopes)));
    Fine(Putting(env, TextContentOf(text)))
  }

  function Conditional(g: Context, test: string, body: seq<Instruction>, focus: Focus, env: Env): Outcome<Done>
    requires g.Valid() && IsNode(g.docs, focus.node)
    decreases g.Limit() - env.depth, g.Unused(env.chain), Size(body), 0, 4, 0
  {
    var value :- Asked(g.oracles.evaluate(test, focus, Seen(env.scopes)));
    if value.Truth() then Body(g, body, focus, env) else Fine(Quiet(env))
  }

  /** The first branch from `i` on whose test holds; a test that raises ends the search. */
  function FirstTrue(g: Context, branches: seq<Branch>, i: nat, focus: Focus, env: Env): (r: Result<Option<nat>>)
    requires i <= |branches|
    ensures r.Ok? && r.value.Some? ==> r.value.value < |branches|
    decreases |branches| - i
  {
    if i == |branches| then
      Ok(None)
    else
      match branches[i]
      case Otherwise(_) => FirstTrue(g, branches, i + 1, focus, env)
      case When(test, _) =>
        var value :- g.oracles.evaluate(test, focus, Seen(env.scopes));
        if value.Truth() then Ok(Some(i)) else FirstTrue(g, branches, i + 1, focus, env)
  }

  /** The last `xsl:otherwise` among the first `count` branches. */
  function LastOtherwise(branches: seq<Branch>, count: nat): (r: Option<nat>)
    requires count <= |branches|
    ensures r.Some? ==> r.value < count
  {
    if count == 0 then None
    else if branches[count - 1].Otherwise? then Some(count - 1)
    else LastOtherwise(branches, count - 1)
  }

  function Choice(g: Context, branches: seq<Branch>, focus: Focus, env: Env): Outcome<Done>
    requires g.Valid() && IsNode(g.docs, focus.node)
    decreases g.Limit() - env.depth, g.Unused(env.chain), BranchesSize(branches), 0, 4, 0
  {
    var holds :- Asked(FirstTrue(g, branches, 0, focus, env));
    var chosen := if holds.Some? then holds else LastOtherwise(branches, |branches|);
    match chosen
    case None => Fine(Quiet(env))
    case Some(i) =>
      SizeOfBranch(branches, i);
      Body(g, branches[i].body, focus, env)
  }

  /** The nodes an expression selects, whitespace stripped; anything else is an error. */
  function Selected(g: Context, select: string, focus: Focus, env: Env): (r: Result<seq<Node>>)
    requires g.Valid()
    ensures r.Ok? ==> AllNodes(g.docs, r.value)
  {
    assert AreNodes(g.docs, g.oracles.evaluate(select, focus, Seen(env.scopes)));
    var value :- g.oracles.evaluate(select, focus, Seen(env.scopes));
    if value.NodeSet? then Ok(Stripped(g.oracles, value.nodes)) else Err
  }

  /** In the order the sorts ask for, or as they come if there is none. */
  function Sorted(g: Context, sorts: seq<string>, nodes: seq<Node>, focus: Focus, env: Env): (r: Result<seq<Node>>)
    requires g.Valid()
    ensures r.Ok? ==> multiset(r.value) == multiset(nodes)
  {
    assert IsArranged(nodes, g.oracles.sort(sorts, nodes, focus, Seen(env.scopes)));
    if sorts == [] then Ok(nodes) else g.oracles.sort(sorts, nodes, focus, Seen(env.scopes))
  }

  lemma SortedAreNodes(g: Context, sorts: seq<string>, nodes: seq<Node>, focus: Focus, env: Env)
    requires g.Valid() && AllNodes(g.docs, nodes) && Sorted(g, sorts, nodes, focus, env).Ok?
    ensures AllNodes(g.docs, Sorted(g, sorts, nodes, focus, env).value)
  {
    var sorted := Sorted(g, sorts, nodes, focus, env).value;
    forall n | n in sorted ensures IsNode(g.docs, n) {
      assert n in multiset(sorted);
    }
  }

  /** What `select` yields, or else the children of the context node. */
  function Applied(g: Context, select: Option<string>, focus: Focus, env: Env): (r: Result<seq<Node>>)
    requires g.Valid() && IsNode(g.docs, focus.node)
    ensures r.Ok? ==> AllNodes(g.docs, r.value)
  {
    match select
    case Some(expression) => Selected(g, expression, focus, env)
    case None =>
      ChildrenAreWithin(g.docs, focus.node);
      Ok(Stripped(g.oracles, Children(g.docs, focus.node)))
  }

  /** The parameters come first; the depth is tested on the way to a rule only where there are none. */
  function Applying(g: Context, select: Option<string>, sorts: seq<string>, mode: Option<string>, withParams: seq<Declaration>,
                    focus: Focus, env: Env): Outcome<Done>
    requires g.Valid() && IsNode(g.docs, focus.node)
    decreases g.Limit() - env.depth, g.Unused(env.chain), DeclarationsSize(withParams) + 1, 0, 1, 0
  {
    var (parameters, done) :- Parameters(g, withParams, focus, env);
    var inner := env.(scopes := done.scopes);
    var selected :- After(done.log, Asked(Applied(g, select, focus, inner)));
    var nodes :- After(done.log, Asked(Sorted(g, sorts, selected, focus, inner)));
    SortedAreNodes(g, sorts, selected, focus, inner);
    done.Next(if parameters == [] then ApplyToAll(g, nodes, 0, mode, inner, Bound(g.docs, nodes))
              else HandToAll(g, nodes, 0, mode, parameters, inner))
  }

  function Repeated(g: Context, select: string, sorts: seq<string>, body: seq<Instruction>, focus: Focus, env: Env): Outcome<Done>
    requires g.Valid()
    decreases g.Limit() - env.depth, g.Unused(env.chain), Size(body), 0, 6, 0
  {
    var selected :- Asked(Selected(g, select, focus, env));
    var nodes :- Asked(Sorted(g, sorts, selected, focus, env));
    SortedAreNodes(g, sorts, selected, focus, env);
    Turns(g, body, nodes, 0, env)
  }

  function Turns(g: Context, body: seq<Instruction>, nodes: seq<Node>, i: nat, env: Env): Outcome<Done>
    requires g.Valid() && AllNodes(g.docs, nodes) && i <= |nodes|
    decreases g.Limit() - env.depth, g.Unused(env.chain), Size(body), 0, 5, |nodes| - i
  {
    if i == |nodes| then
      Fine(Quiet(env))
    else
      assert nodes[i] in nodes;
      var first :- InScope(g, [], body, Focus(nodes[i], i + 1, |nodes|), env);
      first.Next(Turns(g, body, nodes, i + 1, env.(scopes := first.scopes)))
  }

  function Fallbacks(g: Context, fallbacks: seq<Fallback>, focus: Focus, env: Env): Outcome<Done>
    requires g.Valid() && IsNode(g.docs, focus.node)
    decreases g.Limit() - env.depth, g.Unused(env.chain), FallbacksSize(fallbacks), 0, 4, |fallbacks|
  {
    if fallbacks == [] then
      Fine(Quiet(env))
    else
      var first :- Body(g, fallbacks[0].body, focus, env);
      first.Next(Fallbacks(g, fallbacks[1..], focus, env.(scopes := first.scopes)))
  }

  // --- Named templates and variables -----------------------------------------------------------------

  /** A named template runs one level deeper; the current rule stays what it was. */
  function Called(g: Context, name: string, withParams: seq<Declaration>, focus: Focus, env: Env): Outcome<Done>
    requires g.Valid() && IsNode(g.docs, focus.node)
    decreases g.Limit() - env.depth, g.Unused(env.chain), DeclarationsSize(withParams), 0, 9, 0
  {
    var (parameters, done) :- Parameters(g, withParams, focus, env);
    if name !in g.sheet.named || env.depth >= g.maxDepth then
      Failed(done.log)
    else
      done.Next(Logged(Entered(env.depth, true),
                       InScope(g, parameters, g.sheet.templates[g.sheet.named[name]].body, focus,
                               env.(scopes := done.scopes, depth := env.depth + 1))))
  }

  function Parameters(g: Context, ds: seq<Declaration>, focus: Focus, env: Env): Outcome<(seq<Binding<Built>>, Done)>
    requires g.Valid() && IsNode(g.docs, focus.node)
    decreases g.Limit() - env.depth, g.Unused(env.chain), DeclarationsSize(ds), 0, 8, |ds|
  {
    if ds == [] then
      Fine(([], Quiet(env)))
    else
      var (binding, first) :- Declared(g, ds[0], focus, env);
      var (rest, more) :- After(first.log, Parameters(g, ds[1..], focus, env.(scopes := first.scopes)));
      Fine(([binding] + rest, first.Then(more)))
  }

  /** What a name is bound to: an expression's value, or the text of content, kept as a tree as well. */
  function Declared(g: Context, d: Declaration, focus: Focus, env: Env): Outcome<(Binding<Built>, Done)>
    requires g.Valid() && IsNode(g.docs, focus.node)
    decreases g.Limit() - env.depth, g.Unused(env.chain), DeclarationSize(d), 0, 7, 0
  {
    match d
    case Select(name, select) =>
      var value :- Asked(g.oracles.evaluate(select, focus, Seen(env.scopes)));
      Fine((Binding(name, value, None), Quiet(env)))
    case Produced(name, body) =>
      var (fragment, done) :- InFragment(g, body, focus, env);
      Fine((Binding(name, String(TextUnder(fragment)), Some(fragment)), done))
  }

  /** A parameter that was supplied keeps its value, and its default is not evaluated. */
  function Declaring(g: Context, isParam: bool, d: Declaration, focus: Focus, env: Env): Outcome<Done>
    requires g.Valid() && IsNode(g.docs, focus.node)
    decreases g.Limit() - env.depth, g.Unused(env.chain), DeclarationSize(d), 0, 8, 0
  {
    if isParam && env.scopes != [] && Binds(env.scopes[|env.scopes| - 1], d.name) then
      Fine(Quiet(env))
    else
      var (binding, done) :- Declared(g, d, focus, env);
      Fine(done.(scopes := WithBinding(done.scopes, binding)))
  }

  /** The innermost scope with one more binding. */
  function WithBinding<F>(scopes: Scopes<F>, binding: Binding<F>): Scopes<F> {
    if scopes == [] then [] else scopes[|scopes| - 1 := scopes[|scopes| - 1] + [binding]]
  }

  // --- Building ---------------------------------------------------------------------------------------

  /** A body run into a fragment of its own puts nothing where it stands. */
  function InFragment(g: Context, body: seq<Instruction>, focus: Focus, env: Env): Outcome<(Built, Done)>
    requires g.Valid() && IsNode(g.docs, focus.node)
    decreases g.Limit() - env.depth, g.Unused(env.chain), Size(body), 0, 6, 0
  {
    var inside :- Body(g, body, focus, env.(inElement := false));
    Fine((Leaf(Fragment()).With(inside.content), inside.(content := EMPTY)))
  }

  /** An element: what its attribute sets give, then what is written on it, then what its body puts into it. */
  function NewElement(g: Context, name: ExpandedName, uses: seq<string>, attributes: seq<LiteralAttribute>,
                      body: seq<Instruction>, focus: Focus, env: Env): Outcome<Done>
    requires g.Valid() && IsNode(g.docs, focus.node)
    decreases g.Limit() - env.depth, g.Unused(env.chain), Size(body), 0, 5, 0
  {
    var sets :- UsedSets(g, uses, focus, env.(inElement := true));
    var inner := env.(scopes := sets.scopes, inElement := true);
    var written :- After(sets.log, Asked(Written(g, attributes, focus, inner)));
    Wrapped(ElementNode(name), sets.Then(Putting(inner, written)).Next(Body(g, body, focus, inner)))
  }

  /** What was done, inside a new node. */
  function Wrapped(n: ResultNode, r: Outcome<Done>): Outcome<Done> {
    var done :- r;
    Fine(done.(content := Child(Leaf(n).With(done.content))))
  }

  /** The attributes written on a literal element. */
  function Written(g: Context, attributes: seq<LiteralAttribute>, focus: Focus, env: Env): Result<Content> {
    if attributes == [] then
      Ok(EMPTY)
    else
      var value :- g.oracles.text(attributes[0].value, focus, Seen(env.scopes));
      var rest :- Written(g, attributes[1..], focus, env);
      Ok(AttributeOnly(attributes[0].name, value).Then(rest))
  }

  function NamedElement(g: Context, name: string, uses: seq<string>, body: seq<Instruction>, focus: Focus, env: Env): Outcome<Done>
    requires g.Valid() && IsNode(g.docs, focus.node)
    decreases g.Limit() - env.depth, g.Unused(env.chain), Size(body), 0, 6, 0
  {
    var expanded :- Asked(g.oracles.name(name, focus, Seen(env.scopes)));
    NewElement(g, expanded, uses, [], body, focus, env)
  }

  function NewComment(g: Context, body: seq<Instruction>, focus: Focus, env: Env): Outcome<Done>
    requires g.Valid() && IsNode(g.docs, focus.node)
    decreases g.Limit() - env.depth, g.Unused(env.chain), Size(body), 0, 7, 0
  {
    var (fragment, done) :- InFragment(g, body, focus, env);
    Fine(done.(content := Child(Leaf(CommentNode(TextUnder(fragment))))))
  }

  function NewInstruction(g: Context, name: string, body: seq<Instruction>, focus: Focus, env: Env): Outcome<Done>
    requires g.Valid() && IsNode(g.docs, focus.node)
    decreases g.Limit() - env.depth, g.Unused(env.chain), Size(body), 0, 7, 0
  {
    var target :- Asked(g.oracles.text(name, focus, Seen(env.scopes)));
    var (fragment, done) :- InFragment(g, body, focus, env);
    Fine(done.(content := Child(Leaf(InstructionNode(target, TextUnder(fragment))))))
  }

  /** A message in the log, or a failure. */
  function Telling(g: Context, terminate: bool, body: seq<Instruction>, focus: Focus, env: Env): Outcome<Done>
    requires g.Valid() && IsNode(g.docs, focus.node)
    decreases g.Limit() - env.depth, g.Unused(env.chain), Size(body), 0, 7, 0
  {
    var (fragment, done) :- InFragment(g, body, focus, env);
    if terminate then Failed(done.log) else Fine(done.(log := done.log + [Said(TextUnder(fragment))]))
  }

  /** An attribute for the element that is open; where none is, it is an error. */
  function NewAttribute(g: Context, name: string, body: seq<Instruction>, focus: Focus, env: Env): Outcome<Done>
    requires g.Valid() && IsNode(g.docs, focus.node)
    decreases g.Limit() - env.depth, g.Unused(env.chain), Size(body), 0, 7, 0
  {
    var expanded :- Asked(g.oracles.name(name, focus, Seen(env.scopes)));
    var (fragment, done) :- InFragment(g, body, focus, env);
    if env.inElement then Fine(done.(content := AttributeOnly(expanded, TextUnder(fragment)))) else Failed(done.log)
  }

  /** The attribute sets an element names, in order; one that is in use already is an error. */
  function UsedSets(g: Context, names: seq<string>, focus: Focus, env: Env): Outcome<Done>
    requires g.Valid() && IsNode(g.docs, focus.node)
    decreases g.Limit() - env.depth, g.Unused(env.chain), 0, 0, 0, |names|
  {
    if names == [] then
      Fine(Quiet(env))
    else if names[0] in env.chain || names[0] !in g.sheet.attributeSets || g.sheet.attributeSets[names[0]] == [] then
      Failed([])
    else
      assert g.Unused(env.chain + [names[0]]) < g.Unused(env.chain) by {
        assert names[0] in g.Unused(env.chain) && names[0] !in g.Unused(env.chain + [names[0]]);
      }
      var first :- SetDeclarations(g, g.sheet.attributeSets[names[0]], focus, env.(chain := env.chain + [names[0]]));
      first.Next(UsedSets(g, names[1..], focus, env.(scopes := first.scopes)))
  }

  /** The declarations of a name in turn, each with the sets it uses before its own body. */
  function SetDeclarations(g: Context, sets: seq<AttributeSet>, focus: Focus, env: Env): Outcome<Done>
    requires g.Valid() && IsNode(g.docs, focus.node)
    decreases g.Limit() - env.depth, g.Unused(env.chain), SetsSize(sets) + 1, 0, 0, |sets|
  {
    if sets == [] then
      Fine(Quiet(env))
    else
      var first :- OneDeclaration(g, sets[0], focus, env);
      first.Next(SetDeclarations(g, sets[1..], focus, env.(scopes := first.scopes)))
  }

  function OneDeclaration(g: Context, declaration: AttributeSet, focus: Focus, env: Env): Outcome<Done>
    requires g.Valid() && IsNode(g.docs, focus.node)
    decreases g.Limit() - env.depth, g.Unused(env.chain), Size(declaration.body) + 1, 0, 0, 0
  {
    var used :- UsedSets(g, declaration.uses, focus, env);
    used.Next(Body(g, declaration.body, focus, env.(scopes := used.scopes, inElement := true)))
  }

  // --- Copying ------------------------------------------------------------------------------------------

  /** A copy of the context node alone; the body is run for an element and for the root. */
  function Copied(g: Context, uses: seq<string>, body: seq<Instruction>, focus: Focus, env: Env): Outcome<Done>
    requires g.Valid() && IsNode(g.docs, focus.node)
    decreases g.Limit() - env.depth, g.Unused(env.chain), Size(body), 0, 6, 0
  {
    match Item(g.docs, focus.node)
    case TreeItem(Root(_)) => Body(g, body, focus, env)
    case TreeItem(Element(name, _, _, _)) => NewElement(g, name, uses, [], body, focus, env)
    case _ =>
      PuttingIf(env, CopyOfNode(g.docs, focus.node, env.inElement))
  }

  /** The trees of a fragment, copies of the nodes of a set, or the text of anything else. */
  function CopiedValue(g: Context, select: string, variable: Option<string>, focus: Focus, env: Env): Outcome<Done>
    requires g.Valid()
  {
    if variable.Some? && FragmentNamed(env.scopes, variable.value).Some? then
      Fine(Putting(env, Content(map[], FragmentNamed(env.scopes, variable.value).value.children)))
    else
      assert AreNodes(g.docs, g.oracles.evaluate(select, focus, Seen(env.scopes)));
      var value :- Asked(g.oracles.evaluate(select, focus, Seen(env.scopes)));
      if value.NodeSet? then
        PuttingIf(env, CopyOfAll(g.docs, value.nodes, env.inElement))
      else
        var text :- Asked(g.oracles.text(select, focus, Seen(env.scopes)));
        Fine(Putting(env, TextContentOf(text)))
  }

  function CopyOfAll(docs: Documents, nodes: seq<Node>, inElement: bool): Result<Content>
    requires AllNodes(docs, nodes)
  {
    if nodes == [] then
      Ok(EMPTY)
    else
      assert nodes[0] in nodes;
      var first :- CopyOfNode(docs, nodes[0], inElement);
      var rest :- CopyOfAll(docs, nodes[1..], inElement);
      Ok(first.Then(rest))
  }

  /** A node and everything under it; an attribute needs an element to go onto, a namespace is not copied. */
  function CopyOfNode(docs: Documents, n: Node, inElement: bool): Result<Content>
    requires IsNode(docs, n)
  {
    match Item(docs, n)
    case TreeItem(t) => Ok(Content(map[], CopyOfTree(t)))
    case AttributeItem(a) => if inElement then Ok(AttributeOnly(a.name, a.value)) else Err
    case NamespaceItem(_) => Ok(EMPTY)
  }

  /** A source tree as result trees: an element is one, the root is its children. */
  function CopyOfTree(t: Tree): seq<Built>
    decreases t, |t.Kids()| + 1
  {
    match t
    case Root(_) => CopyOfKids(t, 0)
    case Element(name, _, attributes, _) => [Built(ElementResult, name, "", AttributeMap(attributes), CopyOfKids(t, 0))]
    case Text(value) => TextContentOf(value).children
    case Comment(value) => [Leaf(CommentNode(value))]
    case ProcessingInstruction(target, value) => [Leaf(InstructionNode(target, value))]
  }

  function CopyOfKids(t: Tree, i: nat): seq<Built>
    requires i <= |t.Kids()|
    decreases t, |t.Kids()| - i
  {
    if i == |t.Kids()| then [] else CopyOfTree(t.Kids()[i]) + CopyOfKids(t, i + 1)
  }

  function AttributeMap(attributes: seq<XmlAttribute>): map<ExpandedName, string> {
    if attributes == [] then map[] else map[attributes[0].name := attributes[0].value] + AttributeMap(attributes[1..])
  }

  lemma CopiedElement(t: Tree, scopes: Scopes<Built>)
    requires t.Element?
    ensures var begun := Done(scopes, Content(AttributeMap(t.attributes), []), []);
            var inside := Done(scopes, Content(map[], CopyOfKids(t, 0)), []);
            Wrapped(ElementNode(t.name), begun.Next(Fine(inside))) == Fine(Done(scopes, Content(map[], CopyOfTree(t)), []))
  {
    var attributes, kids := AttributeMap(t.attributes), CopyOfKids(t, 0);
    assert attributes + map[] == attributes && map[] + attributes == attributes;
    var none: seq<Built> := [];
    assert none + kids == kids;
    var silence: Log := [];
    assert silence + silence == silence;
  }

  // --- A whole run ---------------------------------------------------------------------------------------

  /** The global scope, declaration after declaration; one that a module of higher precedence overrides is skipped. */
  function Globals(g: Context, i: nat, node: Node, supplied: map<string, string>, scope: seq<Binding<Built>>)
    : Outcome<(seq<Binding<Built>>, Log)>
    requires g.Valid() && IsNode(g.docs, node) && i <= |g.sheet.variables|
    decreases |g.sheet.variables| - i
  {
    if i == |g.sheet.variables| then
      Fine((scope, []))
    else if IsShadowed(g.sheet.variables, g.sheet.variables[i]) then
      Globals(g, i + 1, node, supplied, scope)
    else
      var (binding, done) :- GlobalBinding(g, g.sheet.variables[i], node, supplied, scope);
      AfterLog(done.log, Globals(g, i + 1, node, supplied, Without(Global(done.scopes), binding.name) + [binding]))
  }

  function Global<F>(scopes: Scopes<F>): seq<Binding<F>> {
    if scopes == [] then [] else scopes[0]
  }

  /** A parameter the caller supplied does not evaluate its default. */
  function GlobalBinding(g: Context, v: GlobalVariable, node: Node, supplied: map<string, string>, scope: seq<Binding<Built>>)
    : Outcome<(Binding<Built>, Done)>
    requires g.Valid() && IsNode(g.docs, node) && v in g.sheet.variables
  {
    var env := Env([scope], 0, [], None, false);
    if v.isParameter && v.declaration.name in supplied then
      Fine((Binding(v.declaration.name, String(supplied[v.declaration.name]), None), Quiet(env)))
    else
      Declared(g, v.declaration, Focus(node, 1, 1), env)
  }

  /** Working a value out puts nothing where it stands. */
  lemma GlobalPutsNothing(g: Context, v: GlobalVariable, node: Node, supplied: map<string, string>, scope: seq<Binding<Built>>)
    requires g.Valid() && IsNode(g.docs, node) && v in g.sheet.variables
    ensures var r := GlobalBinding(g, v, node, supplied, scope);
            r.Fine? ==> r.value.0.name == v.declaration.name && r.value.1.content == EMPTY
  {
    if !(v.isParameter && v.declaration.name in supplied) {
      DeclaredPutsNothing(g, v.declaration, Focus(node, 1, 1), Env([scope], 0, [], None, false));
    }
  }

  lemma DeclaredPutsNothing(g: Context, d: Declaration, focus: Focus, env: Env)
    requires g.Valid() && IsNode(g.docs, focus.node)
    ensures var r := Declared(g, d, focus, env); r.Fine? ==> r.value.0.name == d.name && r.value.1.content == EMPTY
  {
    if d.Produced? {
      var r := InFragment(g, d.body, focus, env);
      assert r.Fine? ==> r.value.1.content == EMPTY;
    }
  }

  function AfterLog(before: Log, r: Outcome<(seq<Binding<Built>>, Log)>): Outcome<(seq<Binding<Built>>, Log)> {
    if r.Fine? then Fine((r.value.0, before + r.value.1)) else Failed(before + r.log)
  }

  lemma AfterLogs(a: Log, b: Log, r: Outcome<(seq<Binding<Built>>, Log)>)
    ensures AfterLog([], r) == r && AfterLog(a, AfterLog(b, r)) == AfterLog(a + b, r)
  {
    var none: Log := [];
    var log := if r.Fine? then r.value.1 else r.log;
    assert none + log == log && a + (b + log) == (a + b) + log;
  }

  /** The result tree of a stylesheet for a source, and what happened on the way. */
  function Meaning(g: Context, node: Node, supplied: map<string, string>): Outcome<(Built, Log)>
    requires g.Valid() && IsNode(g.docs, node)
  {
    var (scope, log) :- Globals(g, 0, node, supplied, []);
    var done :- After(log, Apply(g, Focus(node, 1, 1), None, Env([scope], 0, [], None, false)));
    Fine((Leaf(Fragment()).With(done.content), log + done.log))
  }

  function LogOfRun(r: Outcome<(Built, Log)>): Log {
    if r.Fine? then r.value.1 else r.log
  }
}
