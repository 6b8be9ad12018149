/**
 Copying: what is copied keeps its text, and the stylesheet whose one rule copies a node and applies
 itself to what is in it makes of any source the source again.
 */
module XsltIdentity {
  import opened Wrappers
  import opened Xdm
  import opened ResultTree
  import opened Stylesheets
  import opened XsltMeaning
  import opened XsltLaws
  import opened XsltEquations

  // --- Deep copies ------------------------------------------------------------------------------------------

  /** A deep copy has the text of what it is a copy of. */
  lemma {:induction false} CopyKeepsText(t: Tree)
    ensures TextUnderAll(CopyOfTree(t)) == TextOf(t)
    decreases t, |t.Kids()| + 1
  {
    match t
    case Root(_) => KidsKeepText(t, 0);
    case Element(_, _, _, _) =>
      KidsKeepText(t, 0);
      TextOfOne(CopyOfTree(t)[0]);
    case Text(value) =>
      if value != "" {
        TextOfOne(Leaf(TextNode(value)));
      }
    case Comment(value) => TextOfOne(Leaf(CommentNode(value)));
    case ProcessingInstruction(target, value) => TextOfOne(Leaf(InstructionNode(target, value)));
  }

  lemma {:induction false} KidsKeepText(t: Tree, i: nat)
    requires i <= |t.Kids()|
    ensures TextUnderAll(CopyOfKids(t, i)) == Stylesheets.TextFrom(t, i)
    decreases t, |t.Kids()| - i
  {
    if i < |t.Kids()| {
      CopyKeepsText(t.Kids()[i]);
      KidsKeepText(t, i + 1);
      TextUnderBoth(CopyOfTree(t.Kids()[i]), CopyOfKids(t, i + 1));
    }
  }

  lemma TextOfOne(t: Built)
    ensures TextUnderAll([t]) == TextUnder(t)
  {
    assert [t][1..] == [];
  }

  /** What a node is copied to. */
  function CopyOf(docs: Documents, n: Node): Content
    requires IsNode(docs, n)
  {
    match Item(docs, n)
    case TreeItem(t) => Content(map[], CopyOfTree(t))
    case AttributeItem(a) => AttributeOnly(a.name, a.value)
    case NamespaceItem(_) => EMPTY
  }

  lemma {:induction false} CopiesAreAll(docs: Documents, nodes: seq<Node>, inElement: bool, scopes: Scopes<Built>) returns (ds: seq<Done>)
    requires AllNodes(docs, nodes)
    ensures CopyOfAll(docs, nodes, inElement).Ok? <==> inElement || forall n | n in nodes :: !Item(docs, n).AttributeItem?
    ensures CopyOfAll(docs, nodes, inElement).Ok? ==>
              && |ds| == |nodes| && (forall i: nat | i < |nodes| :: ds[i] == Done(scopes, CopyOf(docs, nodes[i]), []))
              && CopyOfAll(docs, nodes, inElement).value == AllContent(ds)
  {
    if nodes == [] {
      ds := [];
    } else {
      assert nodes[0] in nodes;
      hide CopyOfTree;
      var rest := CopiesAreAll(docs, nodes[1..], inElement, scopes);
      ds := [Done(scopes, CopyOf(docs, nodes[0]), [])] + rest;
      assert ds[1..] == rest;
      assert nodes == [nodes[0]] + nodes[1..];
    }
  }

  /** `xsl:copy-of` of nodes copies each whole and in order; an attribute among them needs an element that is open. */
  lemma NodesAreCopied(g: Context, select: string, focus: Stylesheets.Focus, env: Env) returns (ds: seq<Done>)
    requires g.Valid() && IsNode(g.docs, focus.node)
    requires var value := g.oracles.evaluate(select, focus, Seen(env.scopes)); value.Ok? && value.value.NodeSet?
    ensures var nodes := g.oracles.evaluate(select, focus, Seen(env.scopes)).value.nodes;
            var r := One(g, Instruction.CopyOf(select, None), focus, env);
            && AllNodes(g.docs, nodes)
            && (r.Fine? <==> env.inElement || forall n | n in nodes :: !Item(g.docs, n).AttributeItem?)
            && (r.Fine? ==>
                  && |ds| == |nodes| && (forall i: nat | i < |nodes| :: ds[i] == Done(env.scopes, CopyOf(g.docs, nodes[i]), []))
                  && r == Fine(Done(env.scopes, AllContent(ds), [])))
  {
    NodesAreThere(g, select, focus, Seen(env.scopes));
    InstructionsAre(g, false, Select("", ""), select, None, "", focus, env);
    ds := CopiesAreAll(g.docs, g.oracles.evaluate(select, focus, Seen(env.scopes)).value.nodes, env.inElement, env.scopes);
    hide One, CopyOfAll, CopyOf;
  }

  // --- The identity stylesheet ------------------------------------------------------------------------------

  /** Apply the rules to the attributes and then to the children. */
  const ALL_INSIDE := ApplyTemplates(Some("@*|node()"), [], None, [])

  /** Every node has the one rule, a copy with the rules applied inside; nothing is stripped. */
  ghost predicate IsIdentity(g: Context) {
    && g.sheet.templates != [] && g.sheet.templates[0].body == [Copy([], [ALL_INSIDE])]
    && (forall n :: g.oracles.rule(n, None, None) == Ok(Some(0)) && g.oracles.keeps(n))
    && (forall focus: Stylesheets.Focus, seen | IsNode(g.docs, focus.node) ::
          g.oracles.evaluate("@*|node()", focus, seen) == Ok(NodeSet(Inside(g.docs, focus.node))))
  }

  function Inside(docs: Documents, n: Node): seq<Node>
    requires IsNode(docs, n)
  {
    AttributeNodes(docs, n) + Children(docs, n)
  }

  /** How many rules deep copying a tree goes. */
  function Levels(t: Tree): nat
    decreases t, |t.Kids()| + 1
  {
    1 + LevelsFrom(t, 0)
  }

  function LevelsFrom(t: Tree, i: nat): nat
    requires i <= |t.Kids()|
    decreases t, |t.Kids()| - i
  {
    if i == |t.Kids()| then
      if t.Attributes() == [] then 0 else 1
    else
      var rest, here := LevelsFrom(t, i + 1), Levels(t.Kids()[i]);
      if rest > here then rest else here
  }

  lemma {:induction false} LevelsOfOne(t: Tree, i: nat, k: nat)
    requires i <= |t.Kids()|
    ensures t.Attributes() != [] ==> 1 <= LevelsFrom(t, i)
    ensures i <= k < |t.Kids()| ==> Levels(t.Kids()[k]) <= LevelsFrom(t, i)
    decreases |t.Kids()| - i
  {
    if i < |t.Kids()| {
      LevelsOfOne(t, i + 1, k);
    }
  }

  predicate Yields(env: Env, r: Outcome<Done>, content: Content) {
    r.Fine? && r.value.scopes == env.scopes && r.value.content == content
  }

  /** The contents of the copies of what is in a node, from the i-th on. */
  function CopyOfInside(t: Tree, i: nat): Content
    requires i <= |t.Attributes()| + |t.Kids()|
  {
    if i <= |t.Attributes()| then Content(AttributeMap(t.Attributes()[i..]), CopyOfKids(t, 0))
    else Content(map[], CopyOfKids(t, i - |t.Attributes()|))
  }

  lemma InsideItem(docs: Documents, n: Node, i: nat)
    requires IsNode(docs, n) && Item(docs, n).TreeItem?
    ensures var t := Item(docs, n).tree;
            && |Inside(docs, n)| == |t.Attributes()| + |t.Kids()|
            && (i < |Inside(docs, n)| ==>
                  && IsNode(docs, Inside(docs, n)[i])
                  && Item(docs, Inside(docs, n)[i])
                     == if i < |t.Attributes()| then AttributeItem(t.Attributes()[i]) else TreeItem(t.Kids()[i - |t.Attributes()|]))
  {
    var t := Item(docs, n).tree;
    if i < |t.Attributes()| {
      ItemAtAppend(docs[n.document], n.hops, [AttributeHop(i)]);
    } else if i < |Inside(docs, n)| {
      ChildItem(docs, n, i - |t.Attributes()|);
    }
  }

  lemma InsideAreNodes(docs: Documents, n: Node)
    requires IsNode(docs, n) && Item(docs, n).TreeItem?
    ensures AllNodes(docs, Inside(docs, n))
  {
    forall x | x in Inside(docs, n) ensures IsNode(docs, x) {
      var i :| 0 <= i < |Inside(docs, n)| && Inside(docs, n)[i] == x;
      InsideItem(docs, n, i);
    }
  }

  /** One more is copied in front of the rest. */
  lemma CopyOfNext(docs: Documents, n: Node, i: nat)
    requires IsNode(docs, n) && Item(docs, n).TreeItem? && i < |Inside(docs, n)| && IsNode(docs, Inside(docs, n)[i])
    ensures var t := Item(docs, n).tree;
            |Inside(docs, n)| == |t.Attributes()| + |t.Kids()| && CopyOf(docs, Inside(docs, n)[i]).Then(CopyOfInside(t, i + 1)) == CopyOfInside(t, i)
  {
    InsideItem(docs, n, i);
    var t := Item(docs, n).tree;
    var attributes := t.Attributes();
    var none: seq<Built> := [];
    var no: map<ExpandedName, string> := map[];
    if i < |attributes| {
      assert attributes[i..][1..] == attributes[i + 1..];
      assert none + CopyOfKids(t, 0) == CopyOfKids(t, 0);
    } else {
      assert no + no == no && attributes[|attributes|..] == [];
    }
  }

  /** The rule on a node: a copy of the node, and inside it what the rule makes of what is in the node. */
  lemma {:induction false} NodeIsCopied(g: Context, focus: Stylesheets.Focus, env: Env)
    requires g.Valid() && IsIdentity(g) && IsNode(g.docs, focus.node) && Item(g.docs, focus.node).TreeItem?
    requires env.depth + Levels(Item(g.docs, focus.node).tree) <= g.maxDepth
    ensures Yields(env, Apply(g, focus, None, env), CopyOf(g.docs, focus.node))
    decreases Item(g.docs, focus.node).tree, 1, 0
  {
    var t := Item(g.docs, focus.node).tree;
    var inner := Within(g, env);
    RuleApplies(g, focus, env);
    LevelsOfOne(t, 0, 0);
    if t.Root? || t.Element? {
      var open := if t.Element? then inner.(inElement := true) else inner;
      InsideIsCopied(g, focus.node, 0, open);
      InsideIsAppliedTo(g, focus, open);
      ElementIsCopied(g, focus, inner);
      hide Apply, One;
    } else {
      OthersAreCopied(g, focus, inner);
      hide Apply, One;
    }
  }

  /** The place of the rule's body. */
  function Within(g: Context, env: Env): Env
    requires g.sheet.templates != []
  {
    env.(depth := env.depth + 1, currentRule := Some(CurrentRule(g.sheet.templates[0].precedence, None)), scopes := env.scopes + [[]])
  }

  lemma RuleApplies(g: Context, focus: Stylesheets.Focus, env: Env)
    requires g.Valid() && IsIdentity(g) && IsNode(g.docs, focus.node) && env.depth < g.maxDepth
    ensures var r, copied := Apply(g, focus, None, env), One(g, Copy([], [ALL_INSIDE]), focus, Within(g, env));
            copied.Fine? ==> Yields(env, r, copied.value.content)
  {
    RuleIsEntered(g, 0, None, [], true, focus, env);
    OneInstruction(g, Copy([], [ALL_INSIDE]), focus, Within(g, env));
    assert env.(depth := env.depth + 1, currentRule := Some(CurrentRule(g.sheet.templates[0].precedence, None)),
                scopes := env.scopes + [[]]) == Within(g, env);
    hide Rule, Body, One;
  }

  lemma CopyIs(g: Context, focus: Stylesheets.Focus, env: Env)
    requires g.Valid() && IsNode(g.docs, focus.node)
    ensures One(g, Copy([], [ALL_INSIDE]), focus, env) == Copied(g, [], [ALL_INSIDE], focus, env)
  {
    hide Copied;
    var copy := Copy([], [ALL_INSIDE]);
    assert One(g, copy, focus, env) == Instructed(g, copy, focus, env) == Building(g, copy, focus, env);
  }

  lemma OthersAreCopied(g: Context, focus: Stylesheets.Focus, env: Env)
    requires g.Valid() && IsNode(g.docs, focus.node)
    requires match Item(g.docs, focus.node)
             case TreeItem(t) => !t.Root? && !t.Element?
             case AttributeItem(_) => env.inElement
             case NamespaceItem(_) => true
    ensures Yields(env, One(g, Copy([], [ALL_INSIDE]), focus, env), CopyOf(g.docs, focus.node))
  {
    CopyIs(g, focus, env);
    hide One, CopyOfTree;
  }

  /** An element is copied with its name around what comes of its inside, and the root is just its inside. */
  lemma ElementIsCopied(g: Context, focus: Stylesheets.Focus, env: Env)
    requires g.Valid() && IsNode(g.docs, focus.node) && Item(g.docs, focus.node).TreeItem?
    requires var t := Item(g.docs, focus.node).tree;
             && (t.Root? || t.Element?)
             && var open := if t.Element? then env.(inElement := true) else env;
                Yields(open, One(g, ALL_INSIDE, focus, open), CopyOfInside(t, 0))
    ensures Yields(env, One(g, Copy([], [ALL_INSIDE]), focus, env), CopyOf(g.docs, focus.node))
  {
    var t := Item(g.docs, focus.node).tree;
    var open := if t.Element? then env.(inElement := true) else env;
    CopyIs(g, focus, env);
    OneInstruction(g, ALL_INSIDE, focus, open);
    hide One;
    if t.Element? {
      NewElementIs(g, t.name, focus, env);
      hide Body, NewElement;
      assert t.attributes[0..] == t.attributes;
      var none: seq<Built> := [];
      var no: map<ExpandedName, string> := map[];
      assert none + CopyOfKids(t, 0) == CopyOfKids(t, 0) && no + AttributeMap(t.attributes) == AttributeMap(t.attributes);
    } else {
      hide Body;
    }
  }

  lemma NewElementIs(g: Context, name: ExpandedName, focus: Stylesheets.Focus, env: Env)
    requires g.Valid() && IsNode(g.docs, focus.node)
    ensures var open := env.(inElement := true);
            NewElement(g, name, [], [], [ALL_INSIDE], focus, env) == Wrapped(ElementNode(name), Body(g, [ALL_INSIDE], focus, open))
  {
    var open := env.(inElement := true);
    hide Body;
    assert UsedSets(g, [], focus, open) == Fine(Quiet(open));
    assert env.(scopes := env.scopes, inElement := true) == open;
    DoneThen(Quiet(open), Quiet(open), Failed([]));
    NothingThen(open.scopes, Body(g, [ALL_INSIDE], focus, open));
  }

  lemma InsideIsAppliedTo(g: Context, focus: Stylesheets.Focus, env: Env)
    requires g.Valid() && IsIdentity(g) && IsNode(g.docs, focus.node) && AllNodes(g.docs, Inside(g.docs, focus.node))
    ensures One(g, ALL_INSIDE, focus, env) == RulesFor(g, Inside(g.docs, focus.node), 0, None, [], env)
  {
    SelectedNodesOnly(g, "@*|node()", [], None, [], focus, env);
    NothingStripped(g.oracles, Inside(g.docs, focus.node));
    hide One, RulesFor;
  }

  lemma {:induction false} InsideIsCopied(g: Context, n: Node, i: nat, env: Env)
    requires g.Valid() && IsIdentity(g) && IsNode(g.docs, n) && Item(g.docs, n).TreeItem?
    requires var t := Item(g.docs, n).tree; env.depth + LevelsFrom(t, 0) <= g.maxDepth && (t.Element? ==> env.inElement)
    requires i <= |Inside(g.docs, n)|
    ensures AllNodes(g.docs, Inside(g.docs, n)) && |Inside(g.docs, n)| == |Item(g.docs, n).tree.Attributes()| + |Item(g.docs, n).tree.Kids()|
    ensures Yields(env, RulesFor(g, Inside(g.docs, n), i, None, [], env), CopyOfInside(Item(g.docs, n).tree, i))
    decreases Item(g.docs, n).tree, 0, |Inside(g.docs, n)| - i + 1
  {
    var t, nodes := Item(g.docs, n).tree, Inside(g.docs, n);
    InsideAreNodes(g.docs, n);
    InsideItem(g.docs, n, i);
    if i == |nodes| {
      assert t.Attributes()[|t.Attributes()|..] == [];
    } else {
      InsideIsCopied(g, n, i + 1, env);
      OneInsideIsCopied(g, n, i, env);
      RulesForNext(g, nodes, i, None, [], env);
      CopyOfNext(g.docs, n, i);
      hide RuleFor, RulesFor, CopyOfInside, CopyOf, Inside;
    }
  }

  lemma {:induction false} OneInsideIsCopied(g: Context, n: Node, i: nat, env: Env)
    requires g.Valid() && IsIdentity(g) && IsNode(g.docs, n) && Item(g.docs, n).TreeItem?
    requires var t := Item(g.docs, n).tree; env.depth + LevelsFrom(t, 0) <= g.maxDepth && (t.Element? ==> env.inElement)
    requires AllNodes(g.docs, Inside(g.docs, n)) && i < |Inside(g.docs, n)| && IsNode(g.docs, Inside(g.docs, n)[i])
    ensures Yields(env, RuleFor(g, Inside(g.docs, n), i, None, [], env), CopyOf(g.docs, Inside(g.docs, n)[i]))
    decreases Item(g.docs, n).tree, 0, 0
  {
    var t, nodes := Item(g.docs, n).tree, Inside(g.docs, n);
    var focus := Stylesheets.Focus(nodes[i], i + 1, |nodes|);
    InsideItem(g.docs, n, i);
    if i < |t.Attributes()| {
      LevelsOfOne(t, 0, 0);
      RuleApplies(g, focus, env);
      OthersAreCopied(g, focus, Within(g, env));
      hide Apply, One, CopyOf;
    } else {
      LevelsOfOne(t, 0, i - |t.Attributes()|);
      assert t.Kids()[i - |t.Attributes()|] in t.Kids();
      NodeIsCopied(g, focus, env);
      hide Apply, CopyOf;
    }
  }

  /** With depth enough for the source, the identity stylesheet means a deep copy of it. */
  lemma IdentityMeansTheSource(g: Context, node: Node, supplied: map<string, string>)
    requires g.Valid() && IsIdentity(g) && g.sheet.variables == [] && IsNode(g.docs, node) && Item(g.docs, node).TreeItem?
    requires Levels(Item(g.docs, node).tree) <= g.maxDepth
    ensures Meaning(g, node, supplied).Fine?
    ensures Meaning(g, node, supplied).value.0 == Built(FragmentResult, NO_NAME, "", map[], CopyOfTree(Item(g.docs, node).tree))
  {
    NodeIsCopied(g, Stylesheets.Focus(node, 1, 1), Env([[]], 0, [], None, false));
    hide Apply;
  }
}
