/**
 Laws of the meaning of stylesheets that relate several runs: a higher limit changes no result, what
 the built-in rules copy through, which attribute stands, and what a set that uses itself comes to.
 */
module XsltLaws {
  import opened Wrappers
  import opened Xdm
  import opened ResultTree
  import opened Stylesheets
  import opened XsltMeaning

  // --- A higher limit ---------------------------------------------------------------------------------

  /** The same stylesheet, source and expressions, with at least as much depth allowed. */
  ghost predicate Wider(g: Context, h: Context) {
    && g.Valid() && h.Valid() && h == g.(maxDepth := h.maxDepth, spare := h.spare)
    && g.maxDepth <= h.maxDepth && g.Limit() <= h.Limit()
  }

  lemma {:induction false} ApplyWider(g: Context, h: Context, focus: Focus, mode: Option<string>, env: Env)
    requires Wider(g, h) && IsNode(g.docs, focus.node)
    requires Apply(g, focus, mode, env).Fine?
    ensures Apply(h, focus, mode, env) == Apply(g, focus, mode, env)
    decreases g.Limit() - env.depth, g.Unused(env.chain), 0, Extent(g.docs, focus.node), 3, 0
  {
    var matched := g.oracles.rule(focus.node, mode, None).value;
    assert IsRule(g.sheet, g.oracles.rule(focus.node, mode, None));
    match matched
    case None => BuiltInWider(g, h, focus, mode, env);
    case Some(rule) => RuleWider(g, h, rule, mode, focus, [], true, env);
  }

  lemma {:induction false} RuleWider(g: Context, h: Context, rule: nat, mode: Option<string>, focus: Focus, parameters: seq<Binding<Built>>, tested: bool, env: Env)
    requires Wider(g, h) && IsNode(g.docs, focus.node) && rule < |g.sheet.templates| && env.depth < g.Limit()
    requires Rule(g, rule, mode, focus, parameters, tested, env).Fine?
    ensures Rule(h, rule, mode, focus, parameters, tested, env) == Rule(g, rule, mode, focus, parameters, tested, env)
    decreases g.Limit() - env.depth, g.Unused(env.chain), 0, 0, 0, 0
  {
    InScopeWider(g, h, parameters, g.sheet.templates[rule].body, focus,
                 env.(depth := env.depth + 1, currentRule := Some(CurrentRule(g.sheet.templates[rule].precedence, mode))));
  }

  lemma {:induction false} HandToAllWider(g: Context, h: Context, nodes: seq<Node>, i: nat, mode: Option<string>, parameters: seq<Binding<Built>>, env: Env)
    requires Wider(g, h) && AllNodes(g.docs, nodes) && i <= |nodes|
    requires HandToAll(g, nodes, i, mode, parameters, env).Fine?
    ensures HandToAll(h, nodes, i, mode, parameters, env) == HandToAll(g, nodes, i, mode, parameters, env)
    decreases g.Limit() - env.depth, g.Unused(env.chain), 1, 0, 0, |nodes| - i
  {
    if i < |nodes| {
      assert nodes[i] in nodes;
      var focus := Focus(nodes[i], i + 1, |nodes|);
      HandToWider(g, h, focus, mode, parameters, env);
      HandToAllWider(g, h, nodes, i + 1, mode, parameters, env.(scopes := HandTo(g, focus, mode, parameters, env).value.scopes));
    }
  }

  lemma {:induction false} HandToWider(g: Context, h: Context, focus: Focus, mode: Option<string>, parameters: seq<Binding<Built>>, env: Env)
    requires Wider(g, h) && IsNode(g.docs, focus.node)
    requires HandTo(g, focus, mode, parameters, env).Fine?
    ensures HandTo(h, focus, mode, parameters, env) == HandTo(g, focus, mode, parameters, env)
    decreases g.Limit() - env.depth, g.Unused(env.chain), 0, Extent(g.docs, focus.node), 3, 0
  {
    RuleIsThere(g, focus.node, mode, None);
    match g.oracles.rule(focus.node, mode, None).value
    case None => BuiltInWider(g, h, focus, mode, env);
    case Some(rule) => RuleWider(g, h, rule, mode, focus, parameters, false, env);
  }

  lemma {:induction false} ImportedWider(g: Context, h: Context, focus: Focus, env: Env)
    requires Wider(g, h) && IsNode(g.docs, focus.node)
    requires Imported(g, focus, env).Fine?
    ensures Imported(h, focus, env) == Imported(g, focus, env)
    decreases g.Limit() - env.depth, g.Unused(env.chain), 1, 0, 0, 0
  {
    var CurrentRule(precedence, mode) := env.currentRule.value;
    assert IsRule(g.sheet, g.oracles.rule(focus.node, mode, Some(precedence)));
    match g.oracles.rule(focus.node, mode, Some(precedence)).value
    case None => BuiltInWider(g, h, focus, mode, env);
    case Some(rule) => RuleWider(g, h, rule, mode, focus, [], true, env);
  }

  lemma {:induction false} BuiltInWider(g: Context, h: Context, focus: Focus, mode: Option<string>, env: Env)
    requires Wider(g, h) && IsNode(g.docs, focus.node)
    requires BuiltIn(g, focus, mode, env).Fine?
    ensures BuiltIn(h, focus, mode, env) == BuiltIn(g, focus, mode, env)
    decreases g.Limit() - env.depth, g.Unused(env.chain), 0, Extent(g.docs, focus.node), 2, 0
  {
    var place := Item(g.docs, focus.node);
    if place.TreeItem? && (place.tree.Root? || place.tree.Element?) {
      ChildrenAreWithin(g.docs, focus.node);
      ApplyToAllWider(g, h, Stripped(g.oracles, Children(g.docs, focus.node)), 0, mode, Extent(g.docs, focus.node), env);
    }
  }

  lemma {:induction false} ApplyToAllWider(g: Context, h: Context, nodes: seq<Node>, i: nat, mode: Option<string>, bound: nat, env: Env)
    requires Wider(g, h) && AllNodes(g.docs, nodes) && AllWithin(g.docs, nodes, bound) && i <= |nodes|
    requires ApplyToAll(g, nodes, i, mode, env, bound).Fine?
    ensures ApplyToAll(h, nodes, i, mode, env, bound) == ApplyToAll(g, nodes, i, mode, env, bound)
    decreases g.Limit() - env.depth, g.Unused(env.chain), 0, bound, 1, |nodes| - i
  {
    if i < |nodes| {
      assert nodes[i] in nodes;
      var focus := Focus(nodes[i], i + 1, |nodes|);
      ApplyWider(g, h, focus, mode, env);
      ApplyToAllWider(g, h, nodes, i + 1, mode, bound, env.(scopes := Apply(g, focus, mode, env).value.scopes));
    }
  }

  lemma {:induction false} InScopeWider(g: Context, h: Context, scope: seq<Binding<Built>>, body: seq<Instruction>, focus: Focus, env: Env)
    requires Wider(g, h) && IsNode(g.docs, focus.node)
    requires InScope(g, scope, body, focus, env).Fine?
    ensures InScope(h, scope, body, focus, env) == InScope(g, scope, body, focus, env)
    decreases g.Limit() - env.depth, g.Unused(env.chain), Size(body), 0, 4, 0
  {
    BodyWider(g, h, body, focus, env.(scopes := env.scopes + [scope]));
  }

  lemma {:induction false} BodyWider(g: Context, h: Context, body: seq<Instruction>, focus: Focus, env: Env)
    requires Wider(g, h) && IsNode(g.docs, focus.node)
    requires Body(g, body, focus, env).Fine?
    ensures Body(h, body, focus, env) == Body(g, body, focus, env)
    decreases g.Limit() - env.depth, g.Unused(env.chain), Size(body), 0, 3, 0
  {
    if body != [] {
      OneWider(g, h, body[0], focus, env);
      BodyWider(g, h, body[1..], focus, env.(scopes := One(g, body[0], focus, env).value.scopes));
    }
  }

  lemma {:induction false} OneWider(g: Context, h: Context, i: Instruction, focus: Focus, env: Env)
    requires Wider(g, h) && IsNode(g.docs, focus.node)
    requires One(g, i, focus, env).Fine?
    ensures One(h, i, focus, env) == One(g, i, focus, env)
    decreases g.Limit() - env.depth, g.Unused(env.chain), InstructionSize(i) + 1, 0, 2, 2
  {
    if i.IsInstruction() {
      InstructedWider(g, h, i, focus, env);
    } else if i.LiteralElement? {
      NewElementWider(g, h, i.element, i.uses, i.attributes, i.body, focus, env);
    } else if i.Unknown? {
      FallbacksWider(g, h, i.fallbacks, focus, env);
    }
  }

  lemma {:induction false} InstructedWider(g: Context, h: Context, i: Instruction, focus: Focus, env: Env)
    requires Wider(g, h) && IsNode(g.docs, focus.node) && i.IsInstruction()
    requires Instructed(g, i, focus, env).Fine?
    ensures Instructed(h, i, focus, env) == Instructed(g, i, focus, env)
    decreases g.Limit() - env.depth, g.Unused(env.chain), InstructionSize(i) + 1, 0, 2, 1
  {
    if i.Builds() {
      BuildingWider(g, h, i, focus, env);
    } else {
      match i
      case TextInstruction(_) =>
      case ValueOf(_) =>
      case WriteNumber(_) =>
      case If(test, body) => ConditionalWider(g, h, test, body, focus, env);
      case Choose(branches) => ChoiceWider(g, h, branches, focus, env);
      case ForEach(select, sorts, body) => RepeatedWider(g, h, select, sorts, body, focus, env);
      case ApplyTemplates(select, sorts, mode, withParams) => ApplyingWider(g, h, select, sorts, mode, withParams, focus, env);
      case ApplyImports => ImportedWider(g, h, focus, env);
      case CallTemplate(template, withParams) => CalledWider(g, h, template, withParams, focus, env);
      case Declare(isParam, declaration) => DeclaringWider(g, h, isParam, declaration, focus, env);
      case Message(terminate, body) => FragmentWider(g, h, body, focus, env);
    }
  }

  lemma {:induction false} BuildingWider(g: Context, h: Context, i: Instruction, focus: Focus, env: Env)
    requires Wider(g, h) && IsNode(g.docs, focus.node) && i.Builds()
    requires Building(g, i, focus, env).Fine?
    ensures Building(h, i, focus, env) == Building(g, i, focus, env)
    decreases g.Limit() - env.depth, g.Unused(env.chain), InstructionSize(i) + 1, 0, 2, 0
  {
    match i
    case MakeElement(name, uses, body) => NamedElementWider(g, h, name, uses, body, focus, env);
    case MakeAttribute(_, body) => FragmentWider(g, h, body, focus, env);
    case MakeComment(body) => FragmentWider(g, h, body, focus, env);
    case MakeInstruction(_, body) => FragmentWider(g, h, body, focus, env);
    case Copy(uses, body) => CopiedWider(g, h, uses, body, focus, env);
    case CopyOf(_, _) =>
  }

  lemma {:induction false} ConditionalWider(g: Context, h: Context, test: string, body: seq<Instruction>, focus: Focus, env: Env)
    requires Wider(g, h) && IsNode(g.docs, focus.node)
    requires Conditional(g, test, body, focus, env).Fine?
    ensures Conditional(h, test, body, focus, env) == Conditional(g, test, body, focus, env)
    decreases g.Limit() - env.depth, g.Unused(env.chain), Size(body), 0, 4, 0
  {
    if g.oracles.evaluate(test, focus, Seen(env.scopes)).value.Truth() {
      BodyWider(g, h, body, focus, env);
    }
  }

  lemma {:induction false} FirstTrueWider(g: Context, h: Context, branches: seq<Branch>, i: nat, focus: Focus, env: Env)
    requires Wider(g, h) && i <= |branches|
    ensures FirstTrue(h, branches, i, focus, env) == FirstTrue(g, branches, i, focus, env)
    decreases |branches| - i
  {
    if i < |branches| {
      FirstTrueWider(g, h, branches, i + 1, focus, env);
    }
  }

  lemma {:induction false} ChoiceWider(g: Context, h: Context, branches: seq<Branch>, focus: Focus, env: Env)
    requires Wider(g, h) && IsNode(g.docs, focus.node)
    requires Choice(g, branches, focus, env).Fine?
    ensures Choice(h, branches, focus, env) == Choice(g, branches, focus, env)
    decreases g.Limit() - env.depth, g.Unused(env.chain), BranchesSize(branches), 0, 4, 0
  {
    FirstTrueWider(g, h, branches, 0, focus, env);
    var holds := FirstTrue(g, branches, 0, focus, env).value;
    var chosen := if holds.Some? then holds else LastOtherwise(branches, |branches|);
    if chosen.Some? {
      SizeOfBranch(branches, chosen.value);
      BodyWider(g, h, branches[chosen.value].body, focus, env);
    }
  }

  lemma {:induction false} ApplyingWider(g: Context, h: Context, select: Option<string>, sorts: seq<string>, mode: Option<string>,
                                        withParams: seq<Declaration>, focus: Focus, env: Env)
    requires Wider(g, h) && IsNode(g.docs, focus.node)
    requires Applying(g, select, sorts, mode, withParams, focus, env).Fine?
    ensures Applying(h, select, sorts, mode, withParams, focus, env) == Applying(g, select, sorts, mode, withParams, focus, env)
    decreases g.Limit() - env.depth, g.Unused(env.chain), DeclarationsSize(withParams) + 1, 0, 1, 0
  {
    ParametersWider(g, h, withParams, focus, env);
    var (parameters, done) := Parameters(g, withParams, focus, env).value;
    var inner := env.(scopes := done.scopes);
    var selected := Applied(g, select, focus, inner).value;
    assert Applied(h, select, focus, inner) == Ok(selected);
    var nodes := Sorted(g, sorts, selected, focus, inner).value;
    SortedAreNodes(g, sorts, selected, focus, inner);
    if parameters == [] {
      ApplyToAllWider(g, h, nodes, 0, mode, Bound(g.docs, nodes), inner);
    } else {
      HandToAllWider(g, h, nodes, 0, mode, parameters, inner);
    }
  }

  lemma {:induction false} RepeatedWider(g: Context, h: Context, select: string, sorts: seq<string>, body: seq<Instruction>, focus: Focus, env: Env)
    requires Wider(g, h)
    requires Repeated(g, select, sorts, body, focus, env).Fine?
    ensures Repeated(h, select, sorts, body, focus, env) == Repeated(g, select, sorts, body, focus, env)
    decreases g.Limit() - env.depth, g.Unused(env.chain), Size(body), 0, 6, 0
  {
    var selected := Selected(g, select, focus, env).value;
    assert Selected(h, select, focus, env) == Ok(selected);
    var nodes := Sorted(g, sorts, selected, focus, env).value;
    SortedAreNodes(g, sorts, selected, focus, env);
    TurnsWider(g, h, body, nodes, 0, env);
  }

  lemma {:induction false} TurnsWider(g: Context, h: Context, body: seq<Instruction>, nodes: seq<Node>, i: nat, env: Env)
    requires Wider(g, h) && AllNodes(g.docs, nodes) && i <= |nodes|
    requires Turns(g, body, nodes, i, env).Fine?
    ensures Turns(h, body, nodes, i, env) == Turns(g, body, nodes, i, env)
    decreases g.Limit() - env.depth, g.Unused(env.chain), Size(body), 0, 5, |nodes| - i
  {
    if i < |nodes| {
      assert nodes[i] in nodes;
      var focus := Focus(nodes[i], i + 1, |nodes|);
      InScopeWider(g, h, [], body, focus, env);
      TurnsWider(g, h, body, nodes, i + 1, env.(scopes := InScope(g, [], body, focus, env).value.scopes));
    }
  }

  lemma {:induction false} FallbacksWider(g: Context, h: Context, fallbacks: seq<Fallback>, focus: Focus, env: Env)
    requires Wider(g, h) && IsNode(g.docs, focus.node)
    requires Fallbacks(g, fallbacks, focus, env).Fine?
    ensures Fallbacks(h, fallbacks, focus, env) == Fallbacks(g, fallbacks, focus, env)
    decreases g.Limit() - env.depth, g.Unused(env.chain), FallbacksSize(fallbacks), 0, 4, |fallbacks|
  {
    if fallbacks != [] {
      BodyWider(g, h, fallbacks[0].body, focus, env);
      FallbacksWider(g, h, fallbacks[1..], focus, env.(scopes := Body(g, fallbacks[0].body, focus, env).value.scopes));
    }
  }

  lemma {:induction false} CalledWider(g: Context, h: Context, name: string, withParams: seq<Declaration>, focus: Focus, env: Env)
    requires Wider(g, h) && IsNode(g.docs, focus.node)
    requires Called(g, name, withParams, focus, env).Fine?
    ensures Called(h, name, withParams, focus, env) == Called(g, name, withParams, focus, env)
    decreases g.Limit() - env.depth, g.Unused(env.chain), DeclarationsSize(withParams), 0, 9, 0
  {
    ParametersWider(g, h, withParams, focus, env);
    var (parameters, done) := Parameters(g, withParams, focus, env).value;
    InScopeWider(g, h, parameters, g.sheet.templates[g.sheet.named[name]].body, focus,
                 env.(scopes := done.scopes, depth := env.depth + 1));
  }

  lemma {:induction false} ParametersWider(g: Context, h: Context, ds: seq<Declaration>, focus: Focus, env: Env)
    requires Wider(g, h) && IsNode(g.docs, focus.node)
    requires Parameters(g, ds, focus, env).Fine?
    ensures Parameters(h, ds, focus, env) == Parameters(g, ds, focus, env)
    decreases g.Limit() - env.depth, g.Unused(env.chain), DeclarationsSize(ds), 0, 8, |ds|
  {
    if ds != [] {
      DeclaredWider(g, h, ds[0], focus, env);
      ParametersWider(g, h, ds[1..], focus, env.(scopes := Declared(g, ds[0], focus, env).value.1.scopes));
    }
  }

  lemma {:induction false} DeclaredWider(g: Context, h: Context, d: Declaration, focus: Focus, env: Env)
    requires Wider(g, h) && IsNode(g.docs, focus.node)
    requires Declared(g, d, focus, env).Fine?
    ensures Declared(h, d, focus, env) == Declared(g, d, focus, env)
    decreases g.Limit() - env.depth, g.Unused(env.chain), DeclarationSize(d), 0, 7, 0
  {
    if d.Produced? {
      FragmentWider(g, h, d.body, focus, env);
    }
  }

  lemma {:induction false} DeclaringWider(g: Context, h: Context, isParam: bool, d: Declaration, focus: Focus, env: Env)
    requires Wider(g, h) && IsNode(g.docs, focus.node)
    requires Declaring(g, isParam, d, focus, env).Fine?
    ensures Declaring(h, isParam, d, focus, env) == Declaring(g, isParam, d, focus, env)
    decreases g.Limit() - env.depth, g.Unused(env.chain), DeclarationSize(d), 0, 8, 0
  {
    if !(isParam && env.scopes != [] && Binds(env.scopes[|env.scopes| - 1], d.name)) {
      DeclaredWider(g, h, d, focus, env);
    }
  }

  lemma {:induction false} FragmentWider(g: Context, h: Context, body: seq<Instruction>, focus: Focus, env: Env)
    requires Wider(g, h) && IsNode(g.docs, focus.node)
    requires InFragment(g, body, focus, env).Fine?
    ensures InFragment(h, body, focus, env) == InFragment(g, body, focus, env)
    decreases g.Limit() - env.depth, g.Unused(env.chain), Size(body), 0, 6, 0
  {
    BodyWider(g, h, body, focus, env.(inElement := false));
  }

  lemma {:induction false} NewElementWider(g: Context, h: Context, name: ExpandedName, uses: seq<string>, attributes: seq<LiteralAttribute>, body: seq<Instruction>, focus: Focus, env: Env)
    requires Wider(g, h) && IsNode(g.docs, focus.node)
    requires NewElement(g, name, uses, attributes, body, focus, env).Fine?
    ensures NewElement(h, name, uses, attributes, body, focus, env) == NewElement(g, name, uses, attributes, body, focus, env)
    decreases g.Limit() - env.depth, g.Unused(env.chain), Size(body), 0, 5, 0
  {
    var outer := env.(inElement := true);
    UsedSetsWider(g, h, uses, focus, outer);
    var inner := env.(scopes := UsedSets(g, uses, focus, outer).value.scopes, inElement := true);
    WrittenWider(g, h, attributes, focus, inner);
    BodyWider(g, h, body, focus, inner);
  }

  lemma {:induction false} NamedElementWider(g: Context, h: Context, name: string, uses: seq<string>, body: seq<Instruction>, focus: Focus, env: Env)
    requires Wider(g, h) && IsNode(g.docs, focus.node)
    requires NamedElement(g, name, uses, body, focus, env).Fine?
    ensures NamedElement(h, name, uses, body, focus, env) == NamedElement(g, name, uses, body, focus, env)
    decreases g.Limit() - env.depth, g.Unused(env.chain), Size(body), 0, 6, 0
  {
    NewElementWider(g, h, g.oracles.name(name, focus, Seen(env.scopes)).value, uses, [], body, focus, env);
  }

  lemma {:induction false} WrittenWider(g: Context, h: Context, attributes: seq<LiteralAttribute>, focus: Focus, env: Env)
    requires Wider(g, h)
    ensures Written(h, attributes, focus, env) == Written(g, attributes, focus, env)
  {
    if attributes != [] {
      WrittenWider(g, h, attributes[1..], focus, env);
    }
  }

  lemma {:induction false} UsedSetsWider(g: Context, h: Context, names: seq<string>, focus: Focus, env: Env)
    requires Wider(g, h) && IsNode(g.docs, focus.node)
    requires UsedSets(g, names, focus, env).Fine?
    ensures UsedSets(h, names, focus, env) == UsedSets(g, names, focus, env)
    decreases g.Limit() - env.depth, g.Unused(env.chain), 0, 0, 0, |names|
  {
    if names != [] {
      var inner := env.(chain := env.chain + [names[0]]);
      assert g.Unused(inner.chain) < g.Unused(env.chain) by {
        assert names[0] in g.Unused(env.chain) && names[0] !in g.Unused(inner.chain);
      }
      var sets := g.sheet.attributeSets[names[0]];
      SetDeclarationsWider(g, h, sets, focus, inner);
      UsedSetsWider(g, h, names[1..], focus, env.(scopes := SetDeclarations(g, sets, focus, inner).value.scopes));
    }
  }

  lemma {:induction false} SetDeclarationsWider(g: Context, h: Context, sets: seq<AttributeSet>, focus: Focus, env: Env)
    requires Wider(g, h) && IsNode(g.docs, focus.node)
    requires SetDeclarations(g, sets, focus, env).Fine?
    ensures SetDeclarations(h, sets, focus, env) == SetDeclarations(g, sets, focus, env)
    decreases g.Limit() - env.depth, g.Unused(env.chain), SetsSize(sets) + 1, 0, 0, |sets|
  {
    if sets != [] {
      OneDeclarationWider(g, h, sets[0], focus, env);
      SetDeclarationsWider(g, h, sets[1..], focus, env.(scopes := OneDeclaration(g, sets[0], focus, env).value.scopes));
    }
  }

  lemma {:induction false} OneDeclarationWider(g: Context, h: Context, declaration: AttributeSet, focus: Focus, env: Env)
    requires Wider(g, h) && IsNode(g.docs, focus.node)
    requires OneDeclaration(g, declaration, focus, env).Fine?
    ensures OneDeclaration(h, declaration, focus, env) == OneDeclaration(g, declaration, focus, env)
    decreases g.Limit() - env.depth, g.Unused(env.chain), Size(declaration.body) + 1, 0, 0, 0
  {
    UsedSetsWider(g, h, declaration.uses, focus, env);
    var used := UsedSets(g, declaration.uses, focus, env).value;
    BodyWider(g, h, declaration.body, focus, env.(scopes := used.scopes, inElement := true));
  }

  lemma {:induction false} CopiedWider(g: Context, h: Context, uses: seq<string>, body: seq<Instruction>, focus: Focus, env: Env)
    requires Wider(g, h) && IsNode(g.docs, focus.node)
    requires Copied(g, uses, body, focus, env).Fine?
    ensures Copied(h, uses, body, focus, env) == Copied(g, uses, body, focus, env)
    decreases g.Limit() - env.depth, g.Unused(env.chain), Size(body), 0, 6, 0
  {
    match Item(g.docs, focus.node)
    case TreeItem(Root(_)) => BodyWider(g, h, body, focus, env);
    case TreeItem(Element(name, _, _, _)) => NewElementWider(g, h, name, uses, [], body, focus, env);
    case _ =>
  }

  lemma {:induction false} GlobalsWider(g: Context, h: Context, i: nat, node: Node, supplied: map<string, string>, scope: seq<Binding<Built>>)
    requires Wider(g, h) && IsNode(g.docs, node) && i <= |g.sheet.variables|
    requires Globals(g, i, node, supplied, scope).Fine?
    ensures Globals(h, i, node, supplied, scope) == Globals(g, i, node, supplied, scope)
    decreases |g.sheet.variables| - i
  {
    if i < |g.sheet.variables| {
      var v := g.sheet.variables[i];
      if IsShadowed(g.sheet.variables, v) {
        GlobalsWider(g, h, i + 1, node, supplied, scope);
      } else {
        if !(v.isParameter && v.declaration.name in supplied) {
          DeclaredWider(g, h, v.declaration, Focus(node, 1, 1), Env([scope], 0, [], None, false));
        }
        var (binding, done) := GlobalBinding(g, v, node, supplied, scope).value;
        GlobalsWider(g, h, i + 1, node, supplied, Without(Global(done.scopes), binding.name) + [binding]);
      }
    }
  }

  /** The depth limit only cuts runs off: one that succeeds gives the same result, and says the same, under every higher limit. */
  lemma LimitOnlyCutsOff(g: Context, h: Context, node: Node, supplied: map<string, string>)
    requires Wider(g, h) && IsNode(g.docs, node) && Meaning(g, node, supplied).Fine?
    ensures Meaning(h, node, supplied) == Meaning(g, node, supplied)
  {
    GlobalsWider(g, h, 0, node, supplied, []);
    var (scope, said) := Globals(g, 0, node, supplied, []).value;
    ApplyWider(g, h, Focus(node, 1, 1), None, Env([scope], 0, [], None, false));
  }

  // --- How deep a run gets -------------------------------------------------------------------------------

  /** Templates are entered below the limit the machine sets, and below `maxDepth` wherever the depth was tested. */
  predicate Legal(g: Context, guarded: bool, log: Log) {
    forall e | e in log :: IsLegal(g, guarded, e)
  }

  predicate IsLegal(g: Context, guarded: bool, e: Event) {
    e.Entered? ==> e.depth < g.Limit() && (e.tested ==> e.depth < g.maxDepth) && (guarded ==> e.tested)
  }

  function LogBeside<T>(r: Outcome<(T, Done)>): Log {
    if r.Fine? then r.value.1.log else r.log
  }

  lemma {:induction false} ApplyLegal(g: Context, guarded: bool, focus: Focus, mode: Option<string>, env: Env)
    requires g.Valid() && IsNode(g.docs, focus.node) && (guarded ==> GuardedSheet(g.sheet))
    ensures Legal(g, guarded, LogOf(Apply(g, focus, mode, env)))
    decreases g.Limit() - env.depth, g.Unused(env.chain), 0, Extent(g.docs, focus.node), 3, 0
  {
    if env.depth < g.maxDepth && g.oracles.rule(focus.node, mode, None).Ok? {
      RuleIsThere(g, focus.node, mode, None);
      match g.oracles.rule(focus.node, mode, None).value
      case None => BuiltInLegal(g, guarded, focus, mode, env);
      case Some(rule) => RuleLegal(g, guarded, rule, mode, focus, [], true, env);
    }
  }

  lemma {:induction false} RuleLegal(g: Context, guarded: bool, rule: nat, mode: Option<string>, focus: Focus,
                                     parameters: seq<Binding<Built>>, tested: bool, env: Env)
    requires g.Valid() && IsNode(g.docs, focus.node) && rule < |g.sheet.templates| && env.depth < g.Limit()
    requires (guarded ==> GuardedSheet(g.sheet) && tested) && (tested ==> env.depth < g.maxDepth)
    ensures Legal(g, guarded, LogOf(Rule(g, rule, mode, focus, parameters, tested, env)))
    decreases g.Limit() - env.depth, g.Unused(env.chain), 0, 0, 0, 0
  {
    InScopeLegal(g, guarded, parameters, g.sheet.templates[rule].body, focus,
                 env.(depth := env.depth + 1, currentRule := Some(CurrentRule(g.sheet.templates[rule].precedence, mode))));
  }

  lemma {:induction false} ImportedLegal(g: Context, guarded: bool, focus: Focus, env: Env)
    requires g.Valid() && IsNode(g.docs, focus.node) && (guarded ==> GuardedSheet(g.sheet))
    ensures Legal(g, guarded, LogOf(Imported(g, focus, env)))
    decreases g.Limit() - env.depth, g.Unused(env.chain), 1, 0, 0, 0
  {
    if env.currentRule.Some? && env.depth < g.maxDepth {
      var CurrentRule(precedence, mode) := env.currentRule.value;
      var matched := g.oracles.rule(focus.node, mode, Some(precedence));
      RuleIsThere(g, focus.node, mode, Some(precedence));
      if matched.Ok? {
        match matched.value
        case None => BuiltInLegal(g, guarded, focus, mode, env);
        case Some(rule) => RuleLegal(g, guarded, rule, mode, focus, [], true, env);
      }
    }
  }

  lemma {:induction false} BuiltInLegal(g: Context, guarded: bool, focus: Focus, mode: Option<string>, env: Env)
    requires g.Valid() && IsNode(g.docs, focus.node) && (guarded ==> GuardedSheet(g.sheet))
    ensures Legal(g, guarded, LogOf(BuiltIn(g, focus, mode, env)))
    decreases g.Limit() - env.depth, g.Unused(env.chain), 0, Extent(g.docs, focus.node), 2, 0
  {
    var place := Item(g.docs, focus.node);
    if place.TreeItem? && (place.tree.Root? || place.tree.Element?) {
      ChildrenAreWithin(g.docs, focus.node);
      ApplyToAllLegal(g, guarded, Stripped(g.oracles, Children(g.docs, focus.node)), 0, mode, Extent(g.docs, focus.node), env);
    }
  }

  lemma {:induction false} ApplyToAllLegal(g: Context, guarded: bool, nodes: seq<Node>, i: nat, mode: Option<string>, bound: nat, env: Env)
    requires g.Valid() && AllNodes(g.docs, nodes) && AllWithin(g.docs, nodes, bound) && i <= |nodes| && (guarded ==> GuardedSheet(g.sheet))
    ensures Legal(g, guarded, LogOf(ApplyToAll(g, nodes, i, mode, env, bound)))
    decreases g.Limit() - env.depth, g.Unused(env.chain), 0, bound, 1, |nodes| - i
  {
    if i < |nodes| {
      assert nodes[i] in nodes;
      var focus := Focus(nodes[i], i + 1, |nodes|);
      ApplyLegal(g, guarded, focus, mode, env);
      var first := Apply(g, focus, mode, env);
      if first.Fine? {
        ApplyToAllLegal(g, guarded, nodes, i + 1, mode, bound, env.(scopes := first.value.scopes));
      }
    }
  }

  /** Only here may a template be entered at a depth that was not tested. */
  lemma {:induction false} HandToAllLegal(g: Context, nodes: seq<Node>, i: nat, mode: Option<string>, parameters: seq<Binding<Built>>, env: Env)
    requires g.Valid() && AllNodes(g.docs, nodes) && i <= |nodes|
    ensures Legal(g, false, LogOf(HandToAll(g, nodes, i, mode, parameters, env)))
    decreases g.Limit() - env.depth, g.Unused(env.chain), 1, 0, 0, |nodes| - i
  {
    if i < |nodes| {
      assert nodes[i] in nodes;
      var focus := Focus(nodes[i], i + 1, |nodes|);
      HandToLegal(g, focus, mode, parameters, env);
      var first := HandTo(g, focus, mode, parameters, env);
      if first.Fine? {
        HandToAllLegal(g, nodes, i + 1, mode, parameters, env.(scopes := first.value.scopes));
      }
    }
  }

  lemma {:induction false} HandToLegal(g: Context, focus: Focus, mode: Option<string>, parameters: seq<Binding<Built>>, env: Env)
    requires g.Valid() && IsNode(g.docs, focus.node)
    ensures Legal(g, false, LogOf(HandTo(g, focus, mode, parameters, env)))
    decreases g.Limit() - env.depth, g.Unused(env.chain), 0, Extent(g.docs, focus.node), 3, 0
  {
    var matched := g.oracles.rule(focus.node, mode, None);
    RuleIsThere(g, focus.node, mode, None);
    if matched.Ok? {
      match matched.value
      case None => BuiltInLegal(g, false, focus, mode, env);
      case Some(rule) =>
        if env.depth < g.Limit() {
          RuleLegal(g, false, rule, mode, focus, parameters, false, env);
        }
    }
  }

  lemma {:induction false} InScopeLegal(g: Context, guarded: bool, scope: seq<Binding<Built>>, body: seq<Instruction>, focus: Focus, env: Env)
    requires g.Valid() && IsNode(g.docs, focus.node) && (guarded ==> GuardedSheet(g.sheet) && Guarded(body))
    ensures Legal(g, guarded, LogOf(InScope(g, scope, body, focus, env)))
    decreases g.Limit() - env.depth, g.Unused(env.chain), Size(body), 0, 4, 0
  {
    BodyLegal(g, guarded, body, focus, env.(scopes := env.scopes + [scope]));
  }

  lemma {:induction false} BodyLegal(g: Context, guarded: bool, body: seq<Instruction>, focus: Focus, env: Env)
    requires g.Valid() && IsNode(g.docs, focus.node) && (guarded ==> GuardedSheet(g.sheet) && Guarded(body))
    ensures Legal(g, guarded, LogOf(Body(g, body, focus, env)))
    decreases g.Limit() - env.depth, g.Unused(env.chain), Size(body), 0, 3, 0
  {
    if body != [] {
      OneLegal(g, guarded, body[0], focus, env);
      var first := One(g, body[0], focus, env);
      if first.Fine? {
        BodyLegal(g, guarded, body[1..], focus, env.(scopes := first.value.scopes));
      }
    }
  }

  lemma {:induction false} OneLegal(g: Context, guarded: bool, i: Instruction, focus: Focus, env: Env)
    requires g.Valid() && IsNode(g.docs, focus.node) && (guarded ==> GuardedSheet(g.sheet) && GuardedInstruction(i))
    ensures Legal(g, guarded, LogOf(One(g, i, focus, env)))
    decreases g.Limit() - env.depth, g.Unused(env.chain), InstructionSize(i) + 1, 0, 2, 2
  {
    if i.IsInstruction() {
      InstructedLegal(g, guarded, i, focus, env);
    } else if i.LiteralElement? {
      NewElementLegal(g, guarded, i.element, i.uses, i.attributes, i.body, focus, env);
    } else if i.Unknown? {
      FallbacksLegal(g, guarded, i.fallbacks, focus, env);
    }
  }

  lemma {:induction false} InstructedLegal(g: Context, guarded: bool, i: Instruction, focus: Focus, env: Env)
    requires g.Valid() && IsNode(g.docs, focus.node) && i.IsInstruction() && (guarded ==> GuardedSheet(g.sheet) && GuardedInstruction(i))
    ensures Legal(g, guarded, LogOf(Instructed(g, i, focus, env)))
    decreases g.Limit() - env.depth, g.Unused(env.chain), InstructionSize(i) + 1, 0, 2, 1
  {
    if i.Builds() {
      BuildingLegal(g, guarded, i, focus, env);
    } else {
      match i
      case TextInstruction(_) =>
      case ValueOf(_) =>
      case WriteNumber(_) =>
      case If(test, body) => ConditionalLegal(g, guarded, test, body, focus, env);
      case Choose(branches) => ChoiceLegal(g, guarded, branches, focus, env);
      case ForEach(select, sorts, body) => RepeatedLegal(g, guarded, select, sorts, body, focus, env);
      case ApplyTemplates(select, sorts, mode, withParams) => ApplyingLegal(g, guarded, select, sorts, mode, withParams, focus, env);
      case ApplyImports => ImportedLegal(g, guarded, focus, env);
      case CallTemplate(template, withParams) => CalledLegal(g, guarded, template, withParams, focus, env);
      case Declare(isParam, declaration) => DeclaringLegal(g, guarded, isParam, declaration, focus, env);
      case Message(terminate, body) => FragmentLegal(g, guarded, body, focus, env);
    }
  }

  lemma {:induction false} BuildingLegal(g: Context, guarded: bool, i: Instruction, focus: Focus, env: Env)
    requires g.Valid() && IsNode(g.docs, focus.node) && i.Builds() && (guarded ==> GuardedSheet(g.sheet) && GuardedInstruction(i))
    ensures Legal(g, guarded, LogOf(Building(g, i, focus, env)))
    decreases g.Limit() - env.depth, g.Unused(env.chain), InstructionSize(i) + 1, 0, 2, 0
  {
    match i
    case MakeElement(name, uses, body) => NamedElementLegal(g, guarded, name, uses, body, focus, env);
    case MakeAttribute(_, body) => FragmentLegal(g, guarded, body, focus, env);
    case MakeComment(body) => FragmentLegal(g, guarded, body, focus, env);
    case MakeInstruction(_, body) => FragmentLegal(g, guarded, body, focus, env);
    case Copy(uses, body) => CopiedLegal(g, guarded, uses, body, focus, env);
    case CopyOf(_, _) =>
  }

  lemma {:induction false} ConditionalLegal(g: Context, guarded: bool, test: string, body: seq<Instruction>, focus: Focus, env: Env)
    requires g.Valid() && IsNode(g.docs, focus.node) && (guarded ==> GuardedSheet(g.sheet) && Guarded(body))
    ensures Legal(g, guarded, LogOf(Conditional(g, test, body, focus, env)))
    decreases g.Limit() - env.depth, g.Unused(env.chain), Size(body), 0, 4, 0
  {
    BodyLegal(g, guarded, body, focus, env);
  }

  lemma {:induction false} ChoiceLegal(g: Context, guarded: bool, branches: seq<Branch>, focus: Focus, env: Env)
    requires g.Valid() && IsNode(g.docs, focus.node) && (guarded ==> GuardedSheet(g.sheet) && forall b | b in branches :: Guarded(b.body))
    ensures Legal(g, guarded, LogOf(Choice(g, branches, focus, env)))
    decreases g.Limit() - env.depth, g.Unused(env.chain), BranchesSize(branches), 0, 4, 0
  {
    var holds := FirstTrue(g, branches, 0, focus, env);
    if holds.Ok? {
      var chosen := if holds.value.Some? then holds.value else LastOtherwise(branches, |branches|);
      if chosen.Some? {
        SizeOfBranch(branches, chosen.value);
        BodyLegal(g, guarded, branches[chosen.value].body, focus, env);
      }
    }
  }

  lemma {:induction false} ApplyingLegal(g: Context, guarded: bool, select: Option<string>, sorts: seq<string>, mode: Option<string>, withParams: seq<Declaration>, focus: Focus, env: Env)
    requires g.Valid() && IsNode(g.docs, focus.node) && (guarded ==> GuardedSheet(g.sheet) && withParams == [])
    ensures Legal(g, guarded, LogOf(Applying(g, select, sorts, mode, withParams, focus, env)))
    decreases g.Limit() - env.depth, g.Unused(env.chain), DeclarationsSize(withParams) + 1, 0, 1, 0
  {
    ParametersLegal(g, guarded, withParams, focus, env);
    var handed := Parameters(g, withParams, focus, env);
    if handed.Fine? {
      var (parameters, done) := handed.value;
      var inner := env.(scopes := done.scopes);
      var selected := Applied(g, select, focus, inner);
      if selected.Ok? && Sorted(g, sorts, selected.value, focus, inner).Ok? {
        var nodes := Sorted(g, sorts, selected.value, focus, inner).value;
        SortedAreNodes(g, sorts, selected.value, focus, inner);
        if parameters == [] {
          ApplyToAllLegal(g, guarded, nodes, 0, mode, Bound(g.docs, nodes), inner);
        } else {
          HandToAllLegal(g, nodes, 0, mode, parameters, inner);
        }
      }
    }
  }

  lemma {:induction false} RepeatedLegal(g: Context, guarded: bool, select: string, sorts: seq<string>, body: seq<Instruction>, focus: Focus, env: Env)
    requires g.Valid() && (guarded ==> GuardedSheet(g.sheet) && Guarded(body))
    ensures Legal(g, guarded, LogOf(Repeated(g, select, sorts, body, focus, env)))
    decreases g.Limit() - env.depth, g.Unused(env.chain), Size(body), 0, 6, 0
  {
    var selected := Selected(g, select, focus, env);
    if selected.Ok? && Sorted(g, sorts, selected.value, focus, env).Ok? {
      SortedAreNodes(g, sorts, selected.value, focus, env);
      TurnsLegal(g, guarded, body, Sorted(g, sorts, selected.value, focus, env).value, 0, env);
    }
  }

  lemma {:induction false} TurnsLegal(g: Context, guarded: bool, body: seq<Instruction>, nodes: seq<Node>, i: nat, env: Env)
    requires g.Valid() && AllNodes(g.docs, nodes) && i <= |nodes| && (guarded ==> GuardedSheet(g.sheet) && Guarded(body))
    ensures Legal(g, guarded, LogOf(Turns(g, body, nodes, i, env)))
    decreases g.Limit() - env.depth, g.Unused(env.chain), Size(body), 0, 5, |nodes| - i
  {
    if i < |nodes| {
      assert nodes[i] in nodes;
      var focus := Focus(nodes[i], i + 1, |nodes|);
      InScopeLegal(g, guarded, [], body, focus, env);
      var first := InScope(g, [], body, focus, env);
      if first.Fine? {
        TurnsLegal(g, guarded, body, nodes, i + 1, env.(scopes := first.value.scopes));
      }
    }
  }

  lemma {:induction false} FallbacksLegal(g: Context, guarded: bool, fallbacks: seq<Fallback>, focus: Focus, env: Env)
    requires g.Valid() && IsNode(g.docs, focus.node) && (guarded ==> GuardedSheet(g.sheet) && forall f | f in fallbacks :: Guarded(f.body))
    ensures Legal(g, guarded, LogOf(Fallbacks(g, fallbacks, focus, env)))
    decreases g.Limit() - env.depth, g.Unused(env.chain), FallbacksSize(fallbacks), 0, 4, |fallbacks|
  {
    if fallbacks != [] {
      BodyLegal(g, guarded, fallbacks[0].body, focus, env);
      var first := Body(g, fallbacks[0].body, focus, env);
      if first.Fine? {
        FallbacksLegal(g, guarded, fallbacks[1..], focus, env.(scopes := first.value.scopes));
      }
    }
  }

  lemma {:induction false} CalledLegal(g: Context, guarded: bool, name: string, withParams: seq<Declaration>, focus: Focus, env: Env)
    requires g.Valid() && IsNode(g.docs, focus.node) && (guarded ==> GuardedSheet(g.sheet) && forall d | d in withParams :: GuardedDeclaration(d))
    ensures Legal(g, guarded, LogOf(Called(g, name, withParams, focus, env)))
    decreases g.Limit() - env.depth, g.Unused(env.chain), DeclarationsSize(withParams), 0, 9, 0
  {
    ParametersLegal(g, guarded, withParams, focus, env);
    var handed := Parameters(g, withParams, focus, env);
    if handed.Fine? && name in g.sheet.named && env.depth < g.maxDepth {
      InScopeLegal(g, guarded, handed.value.0, g.sheet.templates[g.sheet.named[name]].body, focus,
                   env.(scopes := handed.value.1.scopes, depth := env.depth + 1));
    }
  }

  lemma {:induction false} ParametersLegal(g: Context, guarded: bool, ds: seq<Declaration>, focus: Focus, env: Env)
    requires g.Valid() && IsNode(g.docs, focus.node) && (guarded ==> GuardedSheet(g.sheet) && forall d | d in ds :: GuardedDeclaration(d))
    ensures Legal(g, guarded, LogBeside(Parameters(g, ds, focus, env)))
    decreases g.Limit() - env.depth, g.Unused(env.chain), DeclarationsSize(ds), 0, 8, |ds|
  {
    if ds != [] {
      DeclaredLegal(g, guarded, ds[0], focus, env);
      var first := Declared(g, ds[0], focus, env);
      if first.Fine? {
        ParametersLegal(g, guarded, ds[1..], focus, env.(scopes := first.value.1.scopes));
      }
    }
  }

  lemma {:induction false} DeclaredLegal(g: Context, guarded: bool, d: Declaration, focus: Focus, env: Env)
    requires g.Valid() && IsNode(g.docs, focus.node) && (guarded ==> GuardedSheet(g.sheet) && GuardedDeclaration(d))
    ensures Legal(g, guarded, LogBeside(Declared(g, d, focus, env)))
    decreases g.Limit() - env.depth, g.Unused(env.chain), DeclarationSize(d), 0, 7, 0
  {
    if d.Produced? {
      FragmentLegal(g, guarded, d.body, focus, env);
    }
  }

  lemma {:induction false} DeclaringLegal(g: Context, guarded: bool, isParam: bool, d: Declaration, focus: Focus, env: Env)
    requires g.Valid() && IsNode(g.docs, focus.node) && (guarded ==> GuardedSheet(g.sheet) && GuardedDeclaration(d))
    ensures Legal(g, guarded, LogOf(Declaring(g, isParam, d, focus, env)))
    decreases g.Limit() - env.depth, g.Unused(env.chain), DeclarationSize(d), 0, 8, 0
  {
    DeclaredLegal(g, guarded, d, focus, env);
  }

  lemma {:induction false} FragmentLegal(g: Context, guarded: bool, body: seq<Instruction>, focus: Focus, env: Env)
    requires g.Valid() && IsNode(g.docs, focus.node) && (guarded ==> GuardedSheet(g.sheet) && Guarded(body))
    ensures Legal(g, guarded, LogBeside(InFragment(g, body, focus, env)))
    decreases g.Limit() - env.depth, g.Unused(env.chain), Size(body), 0, 6, 0
  {
    BodyLegal(g, guarded, body, focus, env.(inElement := false));
  }

  lemma {:induction false} NewElementLegal(g: Context, guarded: bool, name: ExpandedName, uses: seq<string>, attributes: seq<LiteralAttribute>, body: seq<Instruction>, focus: Focus, env: Env)
    requires g.Valid() && IsNode(g.docs, focus.node) && (guarded ==> GuardedSheet(g.sheet) && Guarded(body))
    ensures Legal(g, guarded, LogOf(NewElement(g, name, uses, attributes, body, focus, env)))
    decreases g.Limit() - env.depth, g.Unused(env.chain), Size(body), 0, 5, 0
  {
    var outer := env.(inElement := true);
    UsedSetsLegal(g, guarded, uses, focus, outer);
    var sets := UsedSets(g, uses, focus, outer);
    if sets.Fine? {
      BodyLegal(g, guarded, body, focus, env.(scopes := sets.value.scopes, inElement := true));
    }
  }

  lemma {:induction false} NamedElementLegal(g: Context, guarded: bool, name: string, uses: seq<string>, body: seq<Instruction>, focus: Focus, env: Env)
    requires g.Valid() && IsNode(g.docs, focus.node) && (guarded ==> GuardedSheet(g.sheet) && Guarded(body))
    ensures Legal(g, guarded, LogOf(NamedElement(g, name, uses, body, focus, env)))
    decreases g.Limit() - env.depth, g.Unused(env.chain), Size(body), 0, 6, 0
  {
    var expanded := g.oracles.name(name, focus, Seen(env.scopes));
    if expanded.Ok? {
      NewElementLegal(g, guarded, expanded.value, uses, [], body, focus, env);
    }
  }

  lemma {:induction false} UsedSetsLegal(g: Context, guarded: bool, names: seq<string>, focus: Focus, env: Env)
    requires g.Valid() && IsNode(g.docs, focus.node) && (guarded ==> GuardedSheet(g.sheet))
    ensures Legal(g, guarded, LogOf(UsedSets(g, names, focus, env)))
    decreases g.Limit() - env.depth, g.Unused(env.chain), 0, 0, 0, |names|
  {
    if names != [] && names[0] !in env.chain && names[0] in g.sheet.attributeSets && g.sheet.attributeSets[names[0]] != [] {
      var inner := env.(chain := env.chain + [names[0]]);
      assert g.Unused(inner.chain) < g.Unused(env.chain) by {
        assert names[0] in g.Unused(env.chain) && names[0] !in g.Unused(inner.chain);
      }
      var sets := g.sheet.attributeSets[names[0]];
      SetDeclarationsLegal(g, guarded, sets, focus, inner);
      var first := SetDeclarations(g, sets, focus, inner);
      if first.Fine? {
        UsedSetsLegal(g, guarded, names[1..], focus, env.(scopes := first.value.scopes));
      }
    }
  }

  lemma {:induction false} SetDeclarationsLegal(g: Context, guarded: bool, sets: seq<AttributeSet>, focus: Focus, env: Env)
    requires g.Valid() && IsNode(g.docs, focus.node) && (guarded ==> GuardedSheet(g.sheet) && forall s | s in sets :: Guarded(s.body))
    ensures Legal(g, guarded, LogOf(SetDeclarations(g, sets, focus, env)))
    decreases g.Limit() - env.depth, g.Unused(env.chain), SetsSize(sets) + 1, 0, 0, |sets|
  {
    if sets != [] {
      OneDeclarationLegal(g, guarded, sets[0], focus, env);
      var first := OneDeclaration(g, sets[0], focus, env);
      if first.Fine? {
        SetDeclarationsLegal(g, guarded, sets[1..], focus, env.(scopes := first.value.scopes));
      }
    }
  }

  lemma {:induction false} OneDeclarationLegal(g: Context, guarded: bool, declaration: AttributeSet, focus: Focus, env: Env)
    requires g.Valid() && IsNode(g.docs, focus.node) && (guarded ==> GuardedSheet(g.sheet) && Guarded(declaration.body))
    ensures Legal(g, guarded, LogOf(OneDeclaration(g, declaration, focus, env)))
    decreases g.Limit() - env.depth, g.Unused(env.chain), Size(declaration.body) + 1, 0, 0, 0
  {
    UsedSetsLegal(g, guarded, declaration.uses, focus, env);
    var used := UsedSets(g, declaration.uses, focus, env);
    if used.Fine? {
      BodyLegal(g, guarded, declaration.body, focus, env.(scopes := used.value.scopes, inElement := true));
    }
  }

  lemma {:induction false} CopiedLegal(g: Context, guarded: bool, uses: seq<string>, body: seq<Instruction>, focus: Focus, env: Env)
    requires g.Valid() && IsNode(g.docs, focus.node) && (guarded ==> GuardedSheet(g.sheet) && Guarded(body))
    ensures Legal(g, guarded, LogOf(Copied(g, uses, body, focus, env)))
    decreases g.Limit() - env.depth, g.Unused(env.chain), Size(body), 0, 6, 0
  {
    match Item(g.docs, focus.node)
    case TreeItem(Root(_)) => BodyLegal(g, guarded, body, focus, env);
    case TreeItem(Element(name, _, _, _)) => NewElementLegal(g, guarded, name, uses, [], body, focus, env);
    case _ =>
  }

  lemma {:induction false} GlobalsLegal(g: Context, guarded: bool, i: nat, node: Node, supplied: map<string, string>, scope: seq<Binding<Built>>)
    requires g.Valid() && IsNode(g.docs, node) && i <= |g.sheet.variables| && (guarded ==> GuardedSheet(g.sheet))
    ensures var r := Globals(g, i, node, supplied, scope); Legal(g, guarded, if r.Fine? then r.value.1 else r.log)
    decreases |g.sheet.variables| - i
  {
    if i < |g.sheet.variables| {
      var v := g.sheet.variables[i];
      if IsShadowed(g.sheet.variables, v) {
        GlobalsLegal(g, guarded, i + 1, node, supplied, scope);
      } else {
        if !(v.isParameter && v.declaration.name in supplied) {
          DeclaredLegal(g, guarded, v.declaration, Focus(node, 1, 1), Env([scope], 0, [], None, false));
        }
        var bound := GlobalBinding(g, v, node, supplied, scope);
        if bound.Fine? {
          GlobalsLegal(g, guarded, i + 1, node, supplied, Without(Global(bound.value.1.scopes), bound.value.0.name) + [bound.value.0]);
        }
      }
    }
  }

  lemma RunLegal(g: Context, guarded: bool, node: Node, supplied: map<string, string>)
    requires g.Valid() && IsNode(g.docs, node) && (guarded ==> GuardedSheet(g.sheet))
    ensures Legal(g, guarded, LogOfRun(Meaning(g, node, supplied)))
  {
    GlobalsLegal(g, guarded, 0, node, supplied, []);
    var globals := Globals(g, 0, node, supplied, []);
    if globals.Fine? {
      ApplyLegal(g, guarded, Focus(node, 1, 1), None, Env([globals.value.0], 0, [], None, false));
    }
  }

  lemma {:induction false} DeepestIsOfSome(log: Log, depth: nat)
    ensures Deepest(log) > depth <==> exists e | e in log :: e.Entered? && e.depth >= depth
  {
    if log != [] {
      DeepestIsOfSome(log[1..], depth);
      if e :| e in log && e.Entered? && e.depth >= depth && e != log[0] {
        assert e in log[1..];
      }
    }
  }

  /**
   A run gets deeper than `maxDepth` if and only if, at that depth or deeper, an `xsl:apply-templates` has
   its parameters, comes to a node some rule matches, and so enters the rule without a test.
   */
  lemma PassesTheLimitExactly(g: Context, node: Node, supplied: map<string, string>)
    requires g.Valid() && IsNode(g.docs, node)
    ensures var log := LogOfRun(Meaning(g, node, supplied));
            && Deepest(log) <= g.Limit()
            && (Deepest(log) > g.maxDepth <==> exists e | e in log :: e.Entered? && !e.tested && e.depth >= g.maxDepth)
  {
    var log := LogOfRun(Meaning(g, node, supplied));
    RunLegal(g, false, node, supplied);
    DeepestIsOfSome(log, g.maxDepth);
    DeepestIsOfSome(log, g.Limit());
    forall e | e in log && e.Entered? ensures e.depth < g.Limit() && (e.tested ==> e.depth < g.maxDepth) {
      assert IsLegal(g, false, e);
    }
  }

  /** Where no `xsl:apply-templates` has parameters, no run ever does, whether it succeeds or fails. */
  lemma GuardedNeverPasses(g: Context, node: Node, supplied: map<string, string>)
    requires g.Valid() && IsNode(g.docs, node) && GuardedSheet(g.sheet)
    ensures Deepest(LogOfRun(Meaning(g, node, supplied))) <= g.maxDepth
  {
    RunLegal(g, true, node, supplied);
    PassesTheLimitExactly(g, node, supplied);
    var log := LogOfRun(Meaning(g, node, supplied));
    if e :| e in log && e.Entered? && !e.tested {
      assert !IsLegal(g, true, e);
    }
  }

  /** A rule that matches a node and is handed parameters is entered, and that is the first that happens, for as long as there is room. */
  lemma HandedIsEntered(g: Context, focus: Focus, mode: Option<string>, parameters: seq<Binding<Built>>, rule: nat, env: Env)
    requires g.Valid() && IsNode(g.docs, focus.node) && g.oracles.rule(focus.node, mode, None) == Ok(Some(rule))
    ensures var log := LogOf(HandTo(g, focus, mode, parameters, env));
            if env.depth < g.Limit() then log != [] && log[0] == Entered(env.depth, false) else log == []
  {
    RuleIsThere(g, focus.node, mode, None);
    hide InScope;
  }

  /** The stylesheet whose one rule applies itself to the node it matched, with a parameter. */
  function Relentless(): Stylesheet {
    Stylesheet([Template([ApplyTemplates(Some("."), [], None, [Select("p", ".")])], 0)], map[], map[], [])
  }

  /** On a document of one node, which its expressions select and its rule matches. */
  function RelentlessContext(maxDepth: nat, spare: nat): Context {
    var root := Node(0, []);
    Context([Root([])], Relentless(),
            Oracles((_, _, _) => Ok(NodeSet([root])), (_, _, _) => Err, (_, _, _) => Err, (_, _, _) => Err,
                    (_, nodes, _, _) => Ok(nodes), (_, _, _) => Ok(Some(0)), _ => true),
            maxDepth, spare)
  }

  lemma RelentlessIsValid(maxDepth: nat, spare: nat)
    ensures RelentlessContext(maxDepth, spare).Valid() && IsNode(RelentlessContext(maxDepth, spare).docs, Node(0, []))
  {
    var g := RelentlessContext(maxDepth, spare);
    assert IsNode(g.docs, Node(0, []));
  }

  const HANDED: seq<Binding<Built>> := [Binding("p", NodeSet([Node(0, [])]), None)]

  lemma RelentlessParameters(maxDepth: nat, spare: nat, env: Env)
    requires RelentlessContext(maxDepth, spare).Valid() && IsNode(RelentlessContext(maxDepth, spare).docs, Node(0, []))
    ensures Parameters(RelentlessContext(maxDepth, spare), [Select("p", ".")], Focus(Node(0, []), 1, 1), env) == Fine((HANDED, Quiet(env)))
  {
    var d := Select("p", ".");
    DoneThen(Quiet(env), Quiet(env), Failed([]));
    assert [d][1..] == [] && HANDED + [] == HANDED && env.(scopes := env.scopes) == env;
  }

  lemma RelentlessNodes(maxDepth: nat, spare: nat, env: Env)
    requires RelentlessContext(maxDepth, spare).Valid() && IsNode(RelentlessContext(maxDepth, spare).docs, Node(0, []))
    ensures var g := RelentlessContext(maxDepth, spare); var focus := Focus(Node(0, []), 1, 1);
            Applied(g, Some("."), focus, env) == Ok([focus.node]) && Sorted(g, [], [focus.node], focus, env) == Ok([focus.node])
  {
    var g, focus := RelentlessContext(maxDepth, spare), Focus(Node(0, []), 1, 1);
    NothingStripped(g.oracles, [focus.node]);
    assert g.oracles.evaluate(".", focus, Seen(env.scopes)) == Ok(NodeSet([focus.node]));
  }

  /** All its body does is hand the parameter to the rule for the node. */
  lemma RelentlessAgain(maxDepth: nat, spare: nat, env: Env)
    requires RelentlessContext(maxDepth, spare).Valid() && IsNode(RelentlessContext(maxDepth, spare).docs, Node(0, []))
    requires HandTo(RelentlessContext(maxDepth, spare), Focus(Node(0, []), 1, 1), None, HANDED, env).Failed?
    ensures var g := RelentlessContext(maxDepth, spare); var focus := Focus(Node(0, []), 1, 1);
            Body(g, Relentless().templates[0].body, focus, env) == HandTo(g, focus, None, HANDED, env)
  {
    var g, focus, d := RelentlessContext(maxDepth, spare), Focus(Node(0, []), 1, 1), Select("p", ".");
    RelentlessParameters(maxDepth, spare, env);
    RelentlessNodes(maxDepth, spare, env);
    hide HandTo, Parameters, Applied, Sorted, RelentlessContext, ValidOracles, IsNode;
    var one := HandTo(g, focus, None, HANDED, env);
    NothingThen(env.scopes, one);
    assert HandToAll(g, [focus.node], 0, None, HANDED, env) == one;
    hide HandToAll;
    assert env.(scopes := env.scopes) == env;
    assert Applying(g, Some("."), [], None, [d], focus, env) == one;
    hide Applying;
    assert One(g, ApplyTemplates(Some("."), [], None, [d]), focus, env) == one;
  }

  /** Deeper than any limit: it goes down for as long as the machine has room, however low `maxDepth` is. */
  lemma {:induction false} RelentlessGoesDown(maxDepth: nat, spare: nat, parameters: seq<Binding<Built>>, tested: bool, env: Env)
    requires RelentlessContext(maxDepth, spare).Valid() && IsNode(RelentlessContext(maxDepth, spare).docs, Node(0, []))
    requires env.depth < maxDepth + spare
    ensures var r := Rule(RelentlessContext(maxDepth, spare), 0, None, Focus(Node(0, []), 1, 1), parameters, tested, env);
            r.Failed? && Deepest(LogOf(r)) == maxDepth + spare
    decreases maxDepth + spare - env.depth
  {
    var g, focus := RelentlessContext(maxDepth, spare), Focus(Node(0, []), 1, 1);
    var inner := env.(depth := env.depth + 1, currentRule := Some(CurrentRule(0, None)), scopes := env.scopes + [parameters]);
    if inner.depth < g.Limit() {
      RelentlessGoesDown(maxDepth, spare, HANDED, false, inner);
    }
    RelentlessAgain(maxDepth, spare, inner);
    var log := LogOf(HandTo(g, focus, None, HANDED, inner));
    hide Body, HandTo;
    DeepestOfBoth([Entered(env.depth, tested)], log);
    assert [Entered(env.depth, tested)][1..] == [];
  }

  /** So the depth of a run may pass `maxDepth` by as much as there is room. */
  lemma RelentlessPasses(maxDepth: nat, spare: nat)
    requires maxDepth > 0
    ensures var g := RelentlessContext(maxDepth, spare);
            && g.Valid() && IsNode(g.docs, Node(0, []))
            && Deepest(LogOfRun(Meaning(g, Node(0, []), map[]))) == maxDepth + spare
  {
    RelentlessIsValid(maxDepth, spare);
    var g, focus, env := RelentlessContext(maxDepth, spare), Focus(Node(0, []), 1, 1), Env([[]], 0, [], None, false);
    RelentlessGoesDown(maxDepth, spare, [], true, env);
    assert Apply(g, focus, None, env) == Rule(g, 0, None, focus, [], true, env) by {
      hide Rule;
    }
    hide Apply, Rule;
    assert Globals(g, 0, focus.node, map[], []) == Fine(([], []));
    assert [] + LogOf(Apply(g, focus, None, env)) == LogOf(Apply(g, focus, None, env));
  }

  // --- What the built-in rules alone produce ------------------------------------------------------------

  ghost predicate NoRules(o: Oracles) {
    forall n, mode, below :: o.rule(n, mode, below) == Ok(None)
  }

  /** Nothing but text, and which. */
  predicate IsJustText(env: Env, r: Outcome<Done>, text: string) {
    && r.Fine? && r.value.scopes == env.scopes && r.value.log == [] && r.value.content.attributes == map[]
    && (forall t | t in r.value.content.children :: t.kind == TextResult)
    && TextUnderAll(r.value.content.children) == text
  }

  /** Left to themselves, and with nothing stripped, the built-in rules copy the source's text through. */
  lemma {:induction false} BuiltInCopiesText(g: Context, focus: Focus, mode: Option<string>, env: Env)
    requires g.Valid() && NoRules(g.oracles) && (forall n :: g.oracles.keeps(n)) && env.depth < g.maxDepth
    requires IsNode(g.docs, focus.node) && Item(g.docs, focus.node).TreeItem?
    ensures IsJustText(env, Apply(g, focus, mode, env), TextOf(Item(g.docs, focus.node).tree))
    decreases Extent(g.docs, focus.node), 1, 0
  {
    var t := Item(g.docs, focus.node).tree;
    assert Apply(g, focus, mode, env) == BuiltIn(g, focus, mode, env);
    if t.Root? || t.Element? {
      ChildrenAreWithin(g.docs, focus.node);
      NothingStripped(g.oracles, Children(g.docs, focus.node));
      BuiltInCopiesFrom(g, focus.node, 0, mode, env);
    } else {
      var text := if t.Text? then t.value else "";
      if text != "" {
        var leaf := Leaf(TextNode(text));
        assert [leaf][1..] == [] && TextUnderAll([leaf]) == text;
      }
    }
  }

  lemma {:induction false} BuiltInCopiesFrom(g: Context, n: Node, i: nat, mode: Option<string>, env: Env)
    requires g.Valid() && NoRules(g.oracles) && (forall n :: g.oracles.keeps(n)) && env.depth < g.maxDepth
    requires IsNode(g.docs, n) && Item(g.docs, n).TreeItem? && i <= |Item(g.docs, n).tree.Kids()|
    ensures AllNodes(g.docs, Children(g.docs, n)) && AllWithin(g.docs, Children(g.docs, n), Extent(g.docs, n))
    ensures IsJustText(env, ApplyToAll(g, Children(g.docs, n), i, mode, env, Extent(g.docs, n)), Stylesheets.TextFrom(Item(g.docs, n).tree, i))
    decreases Extent(g.docs, n), 0, |Item(g.docs, n).tree.Kids()| - i
  {
    var t, nodes := Item(g.docs, n).tree, Children(g.docs, n);
    ChildrenAreWithin(g.docs, n);
    if i < |t.Kids()| {
      ChildItem(g.docs, n, i);
      assert nodes[i] in nodes;
      BuiltInCopiesText(g, Focus(nodes[i], i + 1, |nodes|), mode, env);
      BuiltInCopiesFrom(g, n, i + 1, mode, env);
      var first := Apply(g, Focus(nodes[i], i + 1, |nodes|), mode, env).value;
      var rest := ApplyToAll(g, nodes, i + 1, mode, env, Extent(g.docs, n)).value;
      TextUnderBoth(first.content.children, rest.content.children);
      assert env.(scopes := first.scopes) == env;
    }
  }

  lemma {:induction false} NothingStripped(o: Oracles, nodes: seq<Node>)
    requires forall n :: o.keeps(n)
    ensures Stripped(o, nodes) == nodes
  {
    if nodes != [] {
      NothingStripped(o, nodes[1..]);
    }
  }

  /** So a stylesheet with no rule for anything and no variables means the text of its source. */
  lemma NoRulesMeanTheText(g: Context, node: Node, supplied: map<string, string>)
    requires g.Valid() && NoRules(g.oracles) && (forall n :: g.oracles.keeps(n)) && 0 < g.maxDepth && g.sheet.variables == []
    requires IsNode(g.docs, node) && Item(g.docs, node).TreeItem?
    ensures Meaning(g, node, supplied).Fine?
    ensures TextUnder(Meaning(g, node, supplied).value.0) == TextOf(Item(g.docs, node).tree)
  {
    BuiltInCopiesText(g, Focus(node, 1, 1), None, Env([[]], 0, [], None, false));
    var content := Apply(g, Focus(node, 1, 1), None, Env([[]], 0, [], None, false)).value.content;
    assert Leaf(Fragment()).children + content.children == content.children;
  }

  // --- Which attribute stands -----------------------------------------------------------------------------

  /** The value written last for a name, among attributes whose values all expand. */
  function LastWritten(g: Context, attributes: seq<LiteralAttribute>, name: ExpandedName, focus: Focus, env: Env): Option<string> {
    if attributes == [] then None
    else if attributes[|attributes| - 1].name == name then
      var r := g.oracles.text(attributes[|attributes| - 1].value, focus, Seen(env.scopes));
      if r.Ok? then Some(r.value) else None
    else LastWritten(g, attributes[..|attributes| - 1], name, focus, env)
  }

  lemma {:induction false} WrittenAttributes(g: Context, attributes: seq<LiteralAttribute>, name: ExpandedName, focus: Focus, env: Env)
    requires Written(g, attributes, focus, env).Ok?
    ensures var given := Written(g, attributes, focus, env).value.attributes;
            LastWritten(g, attributes, name, focus, env) == if name in given then Some(given[name]) else None
  {
    if attributes != [] {
      var last := |attributes| - 1;
      WrittenBut(g, attributes, focus, env);
      WrittenAttributes(g, attributes[..last], name, focus, env);
    }
  }

  /** What is written last is put last. */
  lemma {:induction false} WrittenBut(g: Context, attributes: seq<LiteralAttribute>, focus: Focus, env: Env)
    requires attributes != [] && Written(g, attributes, focus, env).Ok?
    ensures var last := attributes[|attributes| - 1];
            && Written(g, attributes[..|attributes| - 1], focus, env).Ok? && g.oracles.text(last.value, focus, Seen(env.scopes)).Ok?
            && Written(g, attributes, focus, env).value
               == Written(g, attributes[..|attributes| - 1], focus, env).value
                  .Then(AttributeOnly(last.name, g.oracles.text(last.value, focus, Seen(env.scopes)).value))
  {
    var last := |attributes| - 1;
    var text := g.oracles.text(attributes[0].value, focus, Seen(env.scopes)).value;
    if last == 0 {
      ContentThen(AttributeOnly(attributes[0].name, text), EMPTY, EMPTY);
    } else {
      WrittenBut(g, attributes[1..], focus, env);
      assert attributes[1..][..last - 1] == attributes[..last][1..];
      assert attributes[1..][last - 1] == attributes[last];
      ContentThen(AttributeOnly(attributes[0].name, text), Written(g, attributes[..last][1..], focus, env).value,
                  AttributeOnly(attributes[last].name, g.oracles.text(attributes[last].value, focus, Seen(env.scopes)).value));
    }
  }

  /**
   An attribute of a new element: the body has the last word, then what is written on the element, and
   only what neither gives comes from the attribute sets.
   */
  lemma AttributesStand(g: Context, name: ExpandedName, uses: seq<string>, attributes: seq<LiteralAttribute>,
                        body: seq<Instruction>, focus: Focus, env: Env, attribute: ExpandedName)
    requires g.Valid() && IsNode(g.docs, focus.node)
    requires NewElement(g, name, uses, attributes, body, focus, env).Fine?
    ensures var sets := UsedSets(g, uses, focus, env.(inElement := true));
            sets.Fine? &&
            var inner := env.(scopes := sets.value.scopes, inElement := true);
            var inside := Body(g, body, focus, inner);
            var children := NewElement(g, name, uses, attributes, body, focus, env).value.content.children;
            && inside.Fine? && |children| == 1
            && var given := children[0].attributes;
               && (attribute in inside.value.content.attributes ==>
                     attribute in given && given[attribute] == inside.value.content.attributes[attribute])
               && (attribute !in inside.value.content.attributes && LastWritten(g, attributes, attribute, focus, inner).Some? ==>
                     attribute in given && given[attribute] == LastWritten(g, attributes, attribute, focus, inner).value)
               && (attribute !in inside.value.content.attributes && LastWritten(g, attributes, attribute, focus, inner).None? ==>
                     (attribute in given <==> attribute in sets.value.content.attributes)
                     && (attribute in given ==> given[attribute] == sets.value.content.attributes[attribute]))
  {
    var sets := UsedSets(g, uses, focus, env.(inElement := true)).value;
    WrittenAttributes(g, attributes, attribute, focus, env.(scopes := sets.scopes, inElement := true));
  }

  // --- Sets that use themselves ---------------------------------------------------------------------------

  /** A declaration of the one set names the other. */
  ghost predicate Uses(sheet: Stylesheet, user: string, used: string) {
    user in sheet.attributeSets && exists d :: d in sheet.attributeSets[user] && used in d.uses
  }

  ghost predicate IsUseChain(sheet: Stylesheet, path: seq<string>) {
    forall i | 0 <= i < |path| - 1 :: Uses(sheet, path[i], path[i + 1])
  }

  /** When applying sets succeeds, so did applying each of them, with it in use. */
  lemma {:induction false} EachSetSucceeds(g: Context, names: seq<string>, name: string, focus: Focus, env: Env) returns (left: Scopes<Built>)
    requires g.Valid() && IsNode(g.docs, focus.node) && UsedSets(g, names, focus, env).Fine? && name in names
    ensures name !in env.chain && name in g.sheet.attributeSets
    ensures SetDeclarations(g, g.sheet.attributeSets[name], focus, env.(scopes := left, chain := env.chain + [name])).Fine?
  {
    if names[0] == name {
      left := env.scopes;
    } else {
      var first := SetDeclarations(g, g.sheet.attributeSets[names[0]], focus, env.(chain := env.chain + [names[0]])).value;
      left := EachSetSucceeds(g, names[1..], name, focus, env.(scopes := first.scopes));
    }
  }

  lemma {:induction false} EachDeclarationSucceeds(g: Context, sets: seq<AttributeSet>, d: AttributeSet, focus: Focus, env: Env)
    returns (left: Scopes<Built>)
    requires g.Valid() && IsNode(g.docs, focus.node)
    requires SetDeclarations(g, sets, focus, env).Fine? && d in sets
    ensures UsedSets(g, d.uses, focus, env.(scopes := left)).Fine?
  {
    if sets[0] == d {
      left := env.scopes;
    } else {
      left := EachDeclarationSucceeds(g, sets[1..], d, focus, env.(scopes := OneDeclaration(g, sets[0], focus, env).value.scopes));
    }
  }

  /** Where sets are applied without error, following their uses never comes back to a set that is in use. */
  lemma {:induction false} UsesNeverReturn(g: Context, names: seq<string>, path: seq<string>, focus: Focus, env: Env)
    requires g.Valid() && IsNode(g.docs, focus.node) && UsedSets(g, names, focus, env).Fine?
    requires path != [] && path[0] in names && IsUseChain(g.sheet, path)
    ensures forall i | 0 <= i < |path| :: path[i] !in env.chain
    ensures forall i, j | 0 <= i < j < |path| :: path[i] != path[j]
    decreases |path|
  {
    var scopes := EachSetSucceeds(g, names, path[0], focus, env);
    if |path| > 1 {
      var inner := env.(scopes := scopes, chain := env.chain + [path[0]]);
      assert Uses(g.sheet, path[0], path[1]);
      var d :| d in g.sheet.attributeSets[path[0]] && path[1] in d.uses;
      var within := EachDeclarationSucceeds(g, g.sheet.attributeSets[path[0]], d, focus, inner);
      UsesNeverReturn(g, d.uses, path[1..], focus, inner.(scopes := within));
      forall i | 1 <= i < |path| ensures path[i] !in inner.chain {
        assert path[i] == path[1..][i - 1];
      }
      forall i, j | 0 <= i < j < |path| ensures path[i] != path[j] {
        assert path[j] == path[1..][j - 1];
        if i == 0 {
          assert path[0] in inner.chain;
        } else {
          assert path[i] == path[1..][i - 1];
        }
      }
    }
  }

  /** A set that uses itself, however far around, is an error wherever it is used, whatever the expressions do. */
  lemma SetUsingItselfFails(g: Context, names: seq<string>, path: seq<string>, focus: Focus, env: Env)
    requires g.Valid() && IsNode(g.docs, focus.node)
    requires |path| > 1 && path[0] in names && path[|path| - 1] == path[0] && IsUseChain(g.sheet, path)
    ensures UsedSets(g, names, focus, env).Failed?
  {
    if UsedSets(g, names, focus, env).Fine? {
      UsesNeverReturn(g, names, path, focus, env);
    }
  }
}
