/**
 What single instructions come to, said without the functions that define them: which branch runs, with
 which position and which variables a body is run, what a rule hands on, and what is made of content.
 */
module XsltEquations {
  import opened Wrappers
  import opened Xdm
  import opened ResultTree
  import opened Stylesheets
  import opened XsltMeaning
  import opened XsltLaws

  // --- Choosing ---------------------------------------------------------------------------------------------

  /** What counts as true: a node-set with a node in it, a number that is not zero, a string that is not empty. */
  predicate CountsAsTrue(v: Value) {
    || (v.NodeSet? && |v.nodes| > 0) || (v.Boolean? && v.holds)
    || (v.Number? && (v.value < 0.0 || v.value > 0.0)) || (v.String? && |v.text| > 0)
  }

  /** A branch's test gives a value that does or does not count as true. */
  predicate TestIs(g: Context, branch: Branch, focus: Focus, env: Env, holds: bool) {
    branch.When? && var r := g.oracles.evaluate(branch.test, focus, Seen(env.scopes)); r.Ok? && CountsAsTrue(r.value) == holds
  }

  /** Among the first `count` branches no test holds, and none raises. */
  predicate NoneHolds(g: Context, branches: seq<Branch>, count: nat, focus: Focus, env: Env)
    requires count <= |branches|
  {
    forall j | 0 <= j < count && branches[j].When? :: TestIs(g, branches[j], focus, env, false)
  }

  lemma TheyAre(g: Context, branches: seq<Branch>, test: string, body: seq<Instruction>, focus: Focus, env: Env)
    requires g.Valid() && IsNode(g.docs, focus.node)
    ensures One(g, Choose(branches), focus, env) == Choice(g, branches, focus, env)
    ensures One(g, If(test, body), focus, env) == Conditional(g, test, body, focus, env)
  {
    hide Choice, Conditional;
    assert One(g, Choose(branches), focus, env) == Instructed(g, Choose(branches), focus, env);
    assert One(g, If(test, body), focus, env) == Instructed(g, If(test, body), focus, env);
  }

  lemma {:induction false} FirstTrueIs(g: Context, branches: seq<Branch>, from: nat, i: nat, focus: Focus, env: Env)
    requires from <= i <= |branches| && NoneHolds(g, branches, i, focus, env)
    ensures FirstTrue(g, branches, from, focus, env) == FirstTrue(g, branches, i, focus, env)
    decreases i - from
  {
    if from < i {
      assert branches[from].When? ==> TestIs(g, branches[from], focus, env, false);
      FirstTrueIs(g, branches, from + 1, i, focus, env);
    }
  }

  /** `xsl:choose` runs the first branch whose test holds; the tests after it are not evaluated. */
  lemma FirstTrueBranchRuns(g: Context, branches: seq<Branch>, i: nat, focus: Focus, env: Env)
    requires g.Valid() && IsNode(g.docs, focus.node) && i < |branches|
    requires NoneHolds(g, branches, i, focus, env) && TestIs(g, branches[i], focus, env, true)
    ensures One(g, Choose(branches), focus, env) == Body(g, branches[i].body, focus, env)
  {
    TheyAre(g, branches, "", [], focus, env);
    FirstTrueIs(g, branches, 0, i, focus, env);
    hide Body;
  }

  /** A test that raises before one holds is an error. */
  lemma RaisingTestFails(g: Context, branches: seq<Branch>, i: nat, focus: Focus, env: Env)
    requires g.Valid() && IsNode(g.docs, focus.node) && i < |branches| && branches[i].When?
    requires NoneHolds(g, branches, i, focus, env) && g.oracles.evaluate(branches[i].test, focus, Seen(env.scopes)).Err?
    ensures One(g, Choose(branches), focus, env) == Failed([])
  {
    TheyAre(g, branches, "", [], focus, env);
    FirstTrueIs(g, branches, 0, i, focus, env);
    hide Body;
  }

  /** Where no test holds the last `xsl:otherwise` runs. */
  lemma OtherwiseRuns(g: Context, branches: seq<Branch>, i: nat, focus: Focus, env: Env)
    requires g.Valid() && IsNode(g.docs, focus.node) && i < |branches| && NoneHolds(g, branches, |branches|, focus, env)
    requires branches[i].Otherwise? && forall j | i < j < |branches| :: branches[j].When?
    ensures One(g, Choose(branches), focus, env) == Body(g, branches[i].body, focus, env)
  {
    TheyAre(g, branches, "", [], focus, env);
    FirstTrueIs(g, branches, 0, |branches|, focus, env);
    LastOtherwiseIs(branches, i, |branches|);
    hide Body;
  }

  lemma {:induction false} LastOtherwiseIs(branches: seq<Branch>, i: nat, count: nat)
    requires i < count <= |branches| && branches[i].Otherwise? && forall j | i < j < count :: branches[j].When?
    ensures LastOtherwise(branches, count) == Some(i)
  {
    if i + 1 < count {
      LastOtherwiseIs(branches, i, count - 1);
    }
  }

  /** And where there is none, nothing happens. */
  lemma NothingIsChosen(g: Context, branches: seq<Branch>, focus: Focus, env: Env)
    requires g.Valid() && IsNode(g.docs, focus.node) && NoneHolds(g, branches, |branches|, focus, env)
    requires forall b | b in branches :: b.When?
    ensures One(g, Choose(branches), focus, env) == Fine(Quiet(env))
  {
    TheyAre(g, branches, "", [], focus, env);
    FirstTrueIs(g, branches, 0, |branches|, focus, env);
    NoOtherwise(branches, |branches|);
    hide Body;
  }

  lemma {:induction false} NoOtherwise(branches: seq<Branch>, count: nat)
    requires count <= |branches| && forall b | b in branches :: b.When?
    ensures LastOtherwise(branches, count) == None
  {
    if count > 0 {
      assert branches[count - 1] in branches;
      NoOtherwise(branches, count - 1);
    }
  }

  /** `xsl:if` is `xsl:choose` with one branch. */
  lemma IfIsChoose(g: Context, test: string, body: seq<Instruction>, focus: Focus, env: Env)
    requires g.Valid() && IsNode(g.docs, focus.node)
    ensures One(g, If(test, body), focus, env) == One(g, Choose([When(test, body)]), focus, env)
    ensures TestIs(g, When(test, body), focus, env, true) ==> One(g, If(test, body), focus, env) == Body(g, body, focus, env)
    ensures TestIs(g, When(test, body), focus, env, false) ==> One(g, If(test, body), focus, env) == Fine(Quiet(env))
    ensures g.oracles.evaluate(test, focus, Seen(env.scopes)).Err? ==> One(g, If(test, body), focus, env) == Failed([])
  {
    var branches := [When(test, body)];
    TheyAre(g, branches, test, body, focus, env);
    var r := g.oracles.evaluate(test, focus, Seen(env.scopes));
    if r.Err? {
      RaisingTestFails(g, branches, 0, focus, env);
    } else if CountsAsTrue(r.value) {
      FirstTrueBranchRuns(g, branches, 0, focus, env);
    } else {
      NothingIsChosen(g, branches, focus, env);
    }
    hide Body, Choice;
  }

  // --- One turn per node ------------------------------------------------------------------------------------

  /** The contents of several, one after the other. */
  function AllContent(ds: seq<Done>): Content {
    if ds == [] then EMPTY else ds[0].content.Then(AllContent(ds[1..]))
  }

  function AllLogs(ds: seq<Done>): Log {
    if ds == [] then [] else ds[0].log + AllLogs(ds[1..])
  }

  /** A turn of a body: its node is the context, its place in the list counts from one, and its scope is new and empty. */
  function Turn(g: Context, body: seq<Instruction>, nodes: seq<Node>, i: nat, env: Env): Outcome<Done>
    requires g.Valid() && AllNodes(g.docs, nodes) && i < |nodes|
  {
    assert nodes[i] in nodes;
    Body(g, body, Focus(nodes[i], i + 1, |nodes|), env.(scopes := env.scopes + [[]]))
  }

  /** `xsl:for-each` succeeds when every turn does, each in the same scopes, and comes to their contents in order. */
  lemma {:induction false} TurnsAreAll(g: Context, body: seq<Instruction>, nodes: seq<Node>, from: nat, env: Env) returns (ds: seq<Done>)
    requires g.Valid() && AllNodes(g.docs, nodes) && from <= |nodes|
    ensures Turns(g, body, nodes, from, env).Fine? <==> forall i: nat | from <= i < |nodes| :: Turn(g, body, nodes, i, env).Fine?
    ensures Turns(g, body, nodes, from, env).Fine? ==>
              && |ds| == |nodes| - from
              && (forall i: nat | from <= i < |nodes| :: Turn(g, body, nodes, i, env) == Fine(ds[i - from]))
              && Turns(g, body, nodes, from, env) == Fine(Done(env.scopes, AllContent(ds), AllLogs(ds)))
    decreases |nodes| - from
  {
    hide Body;
    if from == |nodes| {
      ds := [];
    } else {
      assert nodes[from] in nodes;
      var rest := TurnsAreAll(g, body, nodes, from + 1, env);
      var first := Turn(g, body, nodes, from, env);
      assert env.(scopes := env.scopes) == env;
      if first.Fine? {
        ds := [first.value] + rest;
        assert ds[1..] == rest;
      } else {
        ds := [];
      }
    }
  }

  // --- A rule per node ----------------------------------------------------------------------------------------

  /** Applying rules leaves the scopes as they were. */
  lemma {:induction false} RulesKeepScopes(g: Context, focus: Focus, mode: Option<string>, parameters: seq<Binding<Built>>, env: Env)
    requires g.Valid() && IsNode(g.docs, focus.node)
    ensures KeepsScopes(env, Apply(g, focus, mode, env)) && KeepsScopes(env, HandTo(g, focus, mode, parameters, env))
    ensures KeepsScopes(env, BuiltIn(g, focus, mode, env))
    decreases Extent(g.docs, focus.node), 1, 0
  {
    RuleIsThere(g, focus.node, mode, None);
    var item := Item(g.docs, focus.node);
    if item.TreeItem? && (item.tree.Root? || item.tree.Element?) {
      ChildrenAreWithin(g.docs, focus.node);
      AllRulesKeepScopes(g, Stripped(g.oracles, Children(g.docs, focus.node)), 0, mode, env, Extent(g.docs, focus.node));
    }
    var r := g.oracles.rule(focus.node, mode, None);
    if r.Ok? && r.value.Some? && env.depth < g.Limit() {
      RuleIsEntered(g, r.value.value, mode, [], true, focus, env);
      RuleIsEntered(g, r.value.value, mode, parameters, false, focus, env);
    }
    hide Body, ApplyToAll, Rule;
  }

  predicate KeepsScopes(env: Env, r: Outcome<Done>) {
    r.Fine? ==> r.value.scopes == env.scopes
  }

  lemma {:induction false} AllRulesKeepScopes(g: Context, nodes: seq<Node>, i: nat, mode: Option<string>, env: Env, bound: nat)
    requires g.Valid() && AllNodes(g.docs, nodes) && AllWithin(g.docs, nodes, bound) && i <= |nodes|
    ensures KeepsScopes(env, ApplyToAll(g, nodes, i, mode, env, bound))
    decreases bound, 0, |nodes| - i
  {
    if i < |nodes| {
      assert nodes[i] in nodes;
      RulesKeepScopes(g, Focus(nodes[i], i + 1, |nodes|), mode, [], env);
      assert env.(scopes := env.scopes) == env;
      AllRulesKeepScopes(g, nodes, i + 1, mode, env, bound);
      hide Apply;
    }
  }

  /** What is done for a node of a list: its rule, with its place in the list counting from one, and the parameters if there are any. */
  function RuleFor(g: Context, nodes: seq<Node>, i: nat, mode: Option<string>, parameters: seq<Binding<Built>>, env: Env): Outcome<Done>
    requires g.Valid() && AllNodes(g.docs, nodes) && i < |nodes|
  {
    assert nodes[i] in nodes;
    var focus := Focus(nodes[i], i + 1, |nodes|);
    if parameters == [] then Apply(g, focus, mode, env) else HandTo(g, focus, mode, parameters, env)
  }

  function RulesFor(g: Context, nodes: seq<Node>, from: nat, mode: Option<string>, parameters: seq<Binding<Built>>, env: Env): Outcome<Done>
    requires g.Valid() && AllNodes(g.docs, nodes) && from <= |nodes|
  {
    if parameters == [] then ApplyToAll(g, nodes, from, mode, env, Bound(g.docs, nodes)) else HandToAll(g, nodes, from, mode, parameters, env)
  }

  lemma RulesForNext(g: Context, nodes: seq<Node>, from: nat, mode: Option<string>, parameters: seq<Binding<Built>>, env: Env)
    requires g.Valid() && AllNodes(g.docs, nodes) && from < |nodes|
    ensures var first := RuleFor(g, nodes, from, mode, parameters, env);
            RulesFor(g, nodes, from, mode, parameters, env)
            == if first.Failed? then first else first.value.Next(RulesFor(g, nodes, from + 1, mode, parameters, env))
  {
    assert nodes[from] in nodes;
    RulesKeepScopes(g, Focus(nodes[from], from + 1, |nodes|), mode, parameters, env);
    assert env.(scopes := env.scopes) == env;
    hide Apply, HandTo;
  }

  /** Rules applied to a list succeed when each does, all in the same scopes and mode, and come to their contents in order. */
  lemma {:induction false} RulesAreAll(g: Context, nodes: seq<Node>, from: nat, mode: Option<string>, parameters: seq<Binding<Built>>, env: Env)
    returns (ds: seq<Done>)
    requires g.Valid() && AllNodes(g.docs, nodes) && from <= |nodes|
    ensures var r := RulesFor(g, nodes, from, mode, parameters, env);
            && (r.Fine? <==> forall i: nat | from <= i < |nodes| :: RuleFor(g, nodes, i, mode, parameters, env).Fine?)
            && (r.Fine? ==>
                  && |ds| == |nodes| - from
                  && (forall i: nat | from <= i < |nodes| :: RuleFor(g, nodes, i, mode, parameters, env) == Fine(ds[i - from]))
                  && r == Fine(Done(env.scopes, AllContent(ds), AllLogs(ds))))
    decreases |nodes| - from
  {
    if from == |nodes| {
      ds := [];
    } else {
      RulesForNext(g, nodes, from, mode, parameters, env);
      var rest := RulesAreAll(g, nodes, from + 1, mode, parameters, env);
      var first := RuleFor(g, nodes, from, mode, parameters, env);
      hide RuleFor, RulesFor;
      if first.Fine? {
        ds := [first.value] + rest;
        assert ds[1..] == rest;
      } else {
        ds := [];
      }
    }
  }

  // --- Which nodes ----------------------------------------------------------------------------------------

  /** `xsl:apply-templates` without more: the children that are not stripped, in document order and in the mode it names. */
  lemma ChildrenByDefault(g: Context, mode: Option<string>, focus: Focus, env: Env)
    requires g.Valid() && IsNode(g.docs, focus.node)
    ensures AllNodes(g.docs, Stripped(g.oracles, Children(g.docs, focus.node)))
    ensures One(g, ApplyTemplates(None, [], mode, []), focus, env)
         == RulesFor(g, Stripped(g.oracles, Children(g.docs, focus.node)), 0, mode, [], env)
  {
    ChildrenAreWithin(g.docs, focus.node);
    ApplyingIs(g, None, [], mode, focus, env);
    hide One, RulesFor;
  }

  /** With `select` it is the nodes selected, and with sorts those in the order they ask for; anything but nodes is an error. */
  lemma SelectedNodesOnly(g: Context, select: string, sorts: seq<string>, mode: Option<string>, body: seq<Instruction>, focus: Focus, env: Env)
    requires g.Valid() && IsNode(g.docs, focus.node)
    ensures var value := g.oracles.evaluate(select, focus, Seen(env.scopes));
            if value.Err? || !value.value.NodeSet? then
              One(g, ApplyTemplates(Some(select), sorts, mode, []), focus, env).Failed? && One(g, ForEach(select, sorts, body), focus, env).Failed?
            else
              var nodes := Stripped(g.oracles, value.value.nodes);
              var order := if sorts == [] then Ok(nodes) else g.oracles.sort(sorts, nodes, focus, Seen(env.scopes));
              if order.Err? then
                One(g, ApplyTemplates(Some(select), sorts, mode, []), focus, env).Failed? && One(g, ForEach(select, sorts, body), focus, env).Failed?
              else
                && AllNodes(g.docs, order.value)
                && One(g, ApplyTemplates(Some(select), sorts, mode, []), focus, env) == RulesFor(g, order.value, 0, mode, [], env)
                && One(g, ForEach(select, sorts, body), focus, env) == Turns(g, body, order.value, 0, env)
  {
    NodesAreThere(g, select, focus, Seen(env.scopes));
    ApplyingIs(g, Some(select), sorts, mode, focus, env);
    RepeatedIs(g, select, sorts, body, focus, env);
    var value := g.oracles.evaluate(select, focus, Seen(env.scopes));
    if value.Ok? && value.value.NodeSet? {
      var nodes := Stripped(g.oracles, value.value.nodes);
      if Sorted(g, sorts, nodes, focus, env).Ok? {
        SortedAreNodes(g, sorts, nodes, focus, env);
      }
    }
    hide One, RulesFor, Turns;
  }

  lemma ApplyingIs(g: Context, select: Option<string>, sorts: seq<string>, mode: Option<string>, focus: Focus, env: Env)
    requires g.Valid() && IsNode(g.docs, focus.node)
    ensures var selected := Applied(g, select, focus, env);
            var r := One(g, ApplyTemplates(select, sorts, mode, []), focus, env);
            if selected.Err? || Sorted(g, sorts, selected.value, focus, env).Err? then r.Failed?
            else
              var nodes := Sorted(g, sorts, selected.value, focus, env).value;
              AllNodes(g.docs, nodes) && r == RulesFor(g, nodes, 0, mode, [], env)
  {
    var a := ApplyTemplates(select, sorts, mode, []);
    var selected := Applied(g, select, focus, env);
    assert One(g, a, focus, env) == Instructed(g, a, focus, env) == Applying(g, select, sorts, mode, [], focus, env);
    assert Parameters(g, [], focus, env) == Fine(([], Quiet(env)));
    assert env.(scopes := env.scopes) == env;
    hide One, Instructed, ApplyToAll, Applied, Sorted;
    if selected.Ok? && Sorted(g, sorts, selected.value, focus, env).Ok? {
      SortedAreNodes(g, sorts, selected.value, focus, env);
      NothingThen(env.scopes, RulesFor(g, Sorted(g, sorts, selected.value, focus, env).value, 0, mode, [], env));
    }
  }

  lemma RepeatedIs(g: Context, select: string, sorts: seq<string>, body: seq<Instruction>, focus: Focus, env: Env)
    requires g.Valid() && IsNode(g.docs, focus.node)
    ensures One(g, ForEach(select, sorts, body), focus, env) == Repeated(g, select, sorts, body, focus, env)
  {
    hide Repeated;
    assert One(g, ForEach(select, sorts, body), focus, env) == Instructed(g, ForEach(select, sorts, body), focus, env);
  }

  // --- Variables and parameters -------------------------------------------------------------------------------

  /** What a variable was bound to is seen by what comes after it in the same body. */
  lemma VariableIsSeen(g: Context, name: string, select: string, later: string, focus: Focus, env: Env)
    requires g.Valid() && IsNode(g.docs, focus.node) && env.scopes != [] && g.oracles.evaluate(select, focus, Seen(env.scopes)).Ok?
    ensures var value := g.oracles.evaluate(select, focus, Seen(env.scopes)).value;
            var before, inner := env.scopes[..|env.scopes| - 1], env.scopes[|env.scopes| - 1];
            var text := g.oracles.text(later, focus, Seen(before) + [SeenOf(inner) + [Variable(name, value)]]);
            var r := Body(g, [Declare(false, Select(name, select)), ValueOf(later)], focus, env);
            if text.Ok? then r.Fine? && r.value.content == TextContentOf(text.value) && r.value.log == [] else r == Failed([])
  {
    var value := g.oracles.evaluate(select, focus, Seen(env.scopes)).value;
    var binding: Binding<Built> := Binding(name, value, None);
    var bound := WithBinding(env.scopes, binding);
    SeenWith(env.scopes, binding);
    TwoInstructions(g, Declare(false, Select(name, select)), ValueOf(later), focus, env);
    InstructionsAre(g, false, Select(name, select), "", None, "", focus, env);
    ValueOfIs(g, later, focus, env.(scopes := bound));
    hide Body, One, Seen, WithBinding;
  }

  lemma InstructionsAre(g: Context, isParam: bool, d: Declaration, select: string, variable: Option<string>, name: string, focus: Focus, env: Env)
    requires g.Valid() && IsNode(g.docs, focus.node)
    ensures One(g, Declare(isParam, d), focus, env) == Declaring(g, isParam, d, focus, env)
    ensures One(g, CopyOf(select, variable), focus, env) == CopiedValue(g, select, variable, focus, env)
    ensures One(g, ApplyImports, focus, env) == Imported(g, focus, env)
    ensures One(g, CallTemplate(name, []), focus, env) == Called(g, name, [], focus, env)
  {
    hide Declaring, CopiedValue, Imported, Called;
    assert One(g, Declare(isParam, d), focus, env) == Instructed(g, Declare(isParam, d), focus, env);
    assert One(g, CopyOf(select, variable), focus, env) == Instructed(g, CopyOf(select, variable), focus, env);
    assert Instructed(g, CopyOf(select, variable), focus, env) == Building(g, CopyOf(select, variable), focus, env);
    assert One(g, ApplyImports, focus, env) == Instructed(g, ApplyImports, focus, env);
    assert One(g, CallTemplate(name, []), focus, env) == Instructed(g, CallTemplate(name, []), focus, env);
  }

  /** A template's body, one level deeper and in a scope of its own. */
  function Entering(g: Context, template: nat, parameters: seq<Binding<Built>>, current: Option<CurrentRule>, tested: bool, focus: Focus, env: Env)
    : Outcome<Done>
    requires g.Valid() && IsNode(g.docs, focus.node) && template < |g.sheet.templates|
  {
    var inside := Body(g, g.sheet.templates[template].body, focus,
                       env.(depth := env.depth + 1, currentRule := current, scopes := env.scopes + [parameters]));
    if inside.Fine? then Fine(Done(env.scopes, inside.value.content, [Entered(env.depth, tested)] + inside.value.log))
    else Failed([Entered(env.depth, tested)] + inside.log)
  }

  lemma RuleIsEntered(g: Context, rule: nat, mode: Option<string>, parameters: seq<Binding<Built>>, tested: bool, focus: Focus, env: Env)
    requires g.Valid() && IsNode(g.docs, focus.node) && rule < |g.sheet.templates| && env.depth < g.Limit()
    ensures Rule(g, rule, mode, focus, parameters, tested, env)
         == Entering(g, rule, parameters, Some(CurrentRule(g.sheet.templates[rule].precedence, mode)), tested, focus, env)
  {
    hide Body;
  }

  /** A call without parameters: the current rule is the one there was. */
  lemma TemplateIsEntered(g: Context, name: string, focus: Focus, env: Env)
    requires g.Valid() && IsNode(g.docs, focus.node) && name in g.sheet.named && env.depth < g.maxDepth
    ensures Called(g, name, [], focus, env) == Entering(g, g.sheet.named[name], [], env.currentRule, true, focus, env)
  {
    hide Body;
    var inside := InScope(g, [], g.sheet.templates[g.sheet.named[name]].body, focus, env.(depth := env.depth + 1));
    assert env.(scopes := env.scopes, depth := env.depth + 1) == env.(depth := env.depth + 1);
    assert Parameters(g, [], focus, env) == Fine(([], Quiet(env)));
    NothingThen(env.scopes, Logged(Entered(env.depth, true), inside));
  }

  lemma ValueOfIs(g: Context, select: string, focus: Focus, env: Env)
    requires g.Valid() && IsNode(g.docs, focus.node)
    ensures var text := g.oracles.text(select, focus, Seen(env.scopes));
            One(g, ValueOf(select), focus, env) == if text.Ok? then Fine(Done(env.scopes, TextContentOf(text.value), [])) else Failed([])
  {
    assert One(g, ValueOf(select), focus, env) == Instructed(g, ValueOf(select), focus, env);
  }

  lemma SeenWith(scopes: Scopes<Built>, binding: Binding<Built>)
    requires scopes != []
    ensures Seen(WithBinding(scopes, binding))
         == Seen(scopes[..|scopes| - 1]) + [SeenOf(scopes[|scopes| - 1]) + [Variable(binding.name, binding.value)]]
  {
    var last := |scopes| - 1;
    assert SeenOf(scopes[last] + [binding]) == SeenOf(scopes[last]) + [Variable(binding.name, binding.value)];
    forall i: nat | i < |scopes| ensures Seen(WithBinding(scopes, binding))[i]
      == (Seen(scopes[..last]) + [SeenOf(scopes[last]) + [Variable(binding.name, binding.value)]])[i] {
    }
  }

  /** Two instructions in a row: the second stands in the scopes the first left. */
  lemma TwoInstructions(g: Context, a: Instruction, b: Instruction, focus: Focus, env: Env)
    requires g.Valid() && IsNode(g.docs, focus.node)
    ensures var first := One(g, a, focus, env);
            Body(g, [a, b], focus, env)
            == if first.Failed? then first else first.value.Next(One(g, b, focus, env.(scopes := first.value.scopes)))
  {
    var first := One(g, a, focus, env);
    assert [a, b][1..] == [b] && [b][1..] == [];
    if first.Fine? {
      var then_ := env.(scopes := first.value.scopes);
      var second := One(g, b, focus, then_);
      hide One;
      if second.Fine? {
        DoneThen(second.value, second.value, Failed([]));
        assert Body(g, [], focus, then_.(scopes := second.value.scopes)) == Fine(Done(second.value.scopes, EMPTY, []));
        assert second.value.Next(Fine(Done(second.value.scopes, EMPTY, []))) == second;
      }
      assert Body(g, [b], focus, then_) == second;
    }
  }

  /** A body of one instruction. */
  lemma OneInstruction(g: Context, a: Instruction, focus: Focus, env: Env)
    requires g.Valid() && IsNode(g.docs, focus.node)
    ensures Body(g, [a], focus, env) == One(g, a, focus, env)
  {
    var first := One(g, a, focus, env);
    assert [a][1..] == [];
    hide One;
    if first.Fine? {
      assert Body(g, [], focus, env.(scopes := first.value.scopes)) == Fine(Done(first.value.scopes, EMPTY, []));
      DoneThen(first.value, first.value, Failed([]));
    }
  }

  /**
   The body of a rule sees the parameters it is handed, in a scope of its own inside those of the place it
   was handed them.
   */
  lemma HandedParametersAreSeen(g: Context, rule: nat, select: string, mode: Option<string>, parameters: seq<Binding<Built>>, focus: Focus, env: Env)
    requires g.Valid() && IsNode(g.docs, focus.node) && g.oracles.rule(focus.node, mode, None) == Ok(Some(rule)) && env.depth < g.Limit()
    ensures rule < |g.sheet.templates|
    ensures g.sheet.templates[rule].body == [ValueOf(select)] ==>
              var text := g.oracles.text(select, focus, Seen(env.scopes) + [SeenOf(parameters)]);
              var r := HandTo(g, focus, mode, parameters, env);
              if text.Ok? then r.Fine? && r.value.content == TextContentOf(text.value) && r.value.scopes == env.scopes else r.Failed?
  {
    RuleIsThere(g, focus.node, mode, None);
    var inner := env.(depth := env.depth + 1, currentRule := Some(CurrentRule(g.sheet.templates[rule].precedence, mode)),
                      scopes := env.scopes + [parameters]);
    RuleIsEntered(g, rule, mode, parameters, false, focus, env);
    OneInstruction(g, ValueOf(select), focus, inner);
    ValueOfIs(g, select, focus, inner);
    assert Seen(env.scopes + [parameters]) == Seen(env.scopes) + [SeenOf(parameters)];
    hide Body, One, Seen, Rule;
  }

  /** A name that is bound in the innermost scope. */
  predicate IsBoundHere(env: Env, name: string) {
    env.scopes != [] && var inner := env.scopes[|env.scopes| - 1]; exists i | 0 <= i < |inner| :: inner[i].name == name
  }

  /** A parameter that was handed on keeps its value, and its default is not so much as evaluated; any other is bound as a variable is. */
  lemma HandedParameterStands(g: Context, d: Declaration, focus: Focus, env: Env)
    requires g.Valid() && IsNode(g.docs, focus.node)
    ensures IsBoundHere(env, d.name) ==> One(g, Declare(true, d), focus, env) == Fine(Quiet(env))
    ensures !IsBoundHere(env, d.name) ==> One(g, Declare(true, d), focus, env) == One(g, Declare(false, d), focus, env)
  {
    InstructionsAre(g, true, d, "", None, "", focus, env);
    InstructionsAre(g, false, d, "", None, "", focus, env);
    hide Declared, One;
  }

  /** `xsl:copy-of` of a variable that came from content puts what that content built, with its last binding. */
  lemma FragmentIsCopied(g: Context, name: string, content: seq<Instruction>, select: string, focus: Focus, env: Env)
    requires g.Valid() && IsNode(g.docs, focus.node) && env.scopes != []
    requires Body(g, content, focus, env.(inElement := false)).Fine? && Body(g, content, focus, env.(inElement := false)).value.scopes != []
    ensures var r := Body(g, [Declare(false, Produced(name, content)), CopyOf(select, Some(name))], focus, env);
            r.Fine? && r.value.content == Content(map[], Body(g, content, focus, env.(inElement := false)).value.content.children)
  {
    var built := Body(g, content, focus, env.(inElement := false)).value;
    var fragment := Leaf(Fragment()).With(built.content);
    var binding := Binding(name, String(TextUnder(fragment)), Some(fragment));
    var bound := WithBinding(built.scopes, binding);
    TwoInstructions(g, Declare(false, Produced(name, content)), CopyOf(select, Some(name)), focus, env);
    InstructionsAre(g, false, Produced(name, content), "", None, "", focus, env);
    FragmentIsDeclared(g, name, content, focus, env);
    assert fragment.children == built.content.children;
    LastIsNamed(built.scopes, binding);
    InstructionsAre(g, false, Produced(name, content), select, Some(name), "", focus, env.(scopes := bound));
    hide Body, One, Declared, FragmentNamed;
    ContentThen(Content(map[], fragment.children), EMPTY, EMPTY);
  }

  lemma FragmentIsDeclared(g: Context, name: string, content: seq<Instruction>, focus: Focus, env: Env)
    requires g.Valid() && IsNode(g.docs, focus.node) && Body(g, content, focus, env.(inElement := false)).Fine?
    ensures var built := Body(g, content, focus, env.(inElement := false)).value;
            var fragment := Leaf(Fragment()).With(built.content);
            Declared(g, Produced(name, content), focus, env)
            == Fine((Binding(name, String(TextUnder(fragment)), Some(fragment)), built.(content := EMPTY)))
  {
    hide Body;
  }

  lemma LastIsNamed(scopes: Scopes<Built>, binding: Binding<Built>)
    requires scopes != []
    ensures FragmentNamed(WithBinding(scopes, binding), binding.name) == binding.fragment
  {
  }

  // --- Content that becomes text ------------------------------------------------------------------------------

  /** What a body builds away from any element, and its text. */
  function BuiltText(g: Context, body: seq<Instruction>, focus: Focus, env: Env): Outcome<(string, Done)>
    requires g.Valid() && IsNode(g.docs, focus.node)
  {
    var inside :- Body(g, body, focus, env.(inElement := false));
    Fine((TextUnderAll(inside.content.children), inside))
  }

  /**
   A comment, a processing instruction, an attribute and a message are made of the text of what their
   body builds: attributes it leaves behind are dropped, and so are comments and processing instructions.
   An attribute needs an element that is open, and a message that ends the run says nothing.
   */
  lemma TextIsWhatIsMade(g: Context, name: string, body: seq<Instruction>, focus: Focus, env: Env)
    requires g.Valid() && IsNode(g.docs, focus.node)
    ensures var built := BuiltText(g, body, focus, env);
            var comment, message, ending := One(g, MakeComment(body), focus, env), One(g, Message(false, body), focus, env),
                                            One(g, Message(true, body), focus, env);
            var attribute, instruction := One(g, MakeAttribute(name, body), focus, env), One(g, MakeInstruction(name, body), focus, env);
            var expanded, target := g.oracles.name(name, focus, Seen(env.scopes)), g.oracles.text(name, focus, Seen(env.scopes));
            && (built.Failed? ==> comment == message == ending == Failed(built.log) && attribute.Failed? && instruction.Failed?)
            && (built.Fine? ==>
                  var (text, inside) := built.value;
                  && comment == Fine(inside.(content := Content(map[], [Built(CommentResult, NO_NAME, text, map[], [])])))
                  && message == Fine(Done(inside.scopes, EMPTY, inside.log + [Said(text)]))
                  && ending == Failed(inside.log)
                  && instruction == (if target.Err? then Failed([])
                                     else Fine(inside.(content := Content(map[], [Built(InstructionResult, ExpandedName(None, target.value), text, map[], [])]))))
                  && attribute == (if expanded.Err? then Failed([])
                                   else if !env.inElement then Failed(inside.log)
                                   else Fine(inside.(content := Content(map[expanded.value := text], [])))))
  {
    BuildersAre(g, name, body, focus, env);
    BuiltApart(g, body, focus, env);
    hide One, Body, InFragment;
  }

  lemma BuiltApart(g: Context, body: seq<Instruction>, focus: Focus, env: Env)
    requires g.Valid() && IsNode(g.docs, focus.node)
    ensures var built, r := BuiltText(g, body, focus, env), InFragment(g, body, focus, env);
            if built.Failed? then r == Failed(built.log)
            else r.Fine? && TextUnder(r.value.0) == built.value.0 && r.value.1 == built.value.1.(content := EMPTY)
  {
    hide Body;
    var inside := Body(g, body, focus, env.(inElement := false));
    if inside.Fine? {
      var none: seq<Built> := [];
      assert none + inside.value.content.children == inside.value.content.children;
    }
  }

  lemma BuildersAre(g: Context, name: string, body: seq<Instruction>, focus: Focus, env: Env)
    requires g.Valid() && IsNode(g.docs, focus.node)
    ensures One(g, MakeComment(body), focus, env) == NewComment(g, body, focus, env)
    ensures One(g, MakeInstruction(name, body), focus, env) == NewInstruction(g, name, body, focus, env)
    ensures One(g, MakeAttribute(name, body), focus, env) == NewAttribute(g, name, body, focus, env)
    ensures forall terminate :: One(g, Message(terminate, body), focus, env) == Telling(g, terminate, body, focus, env)
  {
    hide NewComment, NewInstruction, NewAttribute, Telling;
    assert One(g, MakeComment(body), focus, env) == Instructed(g, MakeComment(body), focus, env) == Building(g, MakeComment(body), focus, env);
    assert One(g, MakeInstruction(name, body), focus, env) == Instructed(g, MakeInstruction(name, body), focus, env)
        == Building(g, MakeInstruction(name, body), focus, env);
    assert One(g, MakeAttribute(name, body), focus, env) == Instructed(g, MakeAttribute(name, body), focus, env)
        == Building(g, MakeAttribute(name, body), focus, env);
    forall terminate ensures One(g, Message(terminate, body), focus, env) == Telling(g, terminate, body, focus, env) {
      assert One(g, Message(terminate, body), focus, env) == Instructed(g, Message(terminate, body), focus, env);
    }
  }

  // --- What is not known ---------------------------------------------------------------------------------------

  /** An instruction nobody knows runs its fallbacks, all of them in order, as if they stood there; without one it fails. */
  lemma FallbacksStandInstead(g: Context, first: seq<Instruction>, second: seq<Instruction>, focus: Focus, env: Env)
    requires g.Valid() && IsNode(g.docs, focus.node)
    ensures One(g, Unknown(true, []), focus, env).Failed? && One(g, Unknown(false, [Fallback(first)]), focus, env).Failed?
    ensures One(g, Unknown(true, [Fallback(first), Fallback(second)]), focus, env) == Body(g, first + second, focus, env)
  {
    var both := [Fallback(first), Fallback(second)];
    assert both[1..] == [Fallback(second)] && both[1..][1..] == [];
    BodyOfBoth(g, first, second, focus, env);
    hide Body;
    var a := Body(g, first, focus, env);
    if a.Fine? {
      var after := env.(scopes := a.value.scopes);
      var b := Body(g, second, focus, after);
      if b.Fine? {
        DoneThen(b.value, b.value, Failed([]));
        assert Fallbacks(g, [], focus, after.(scopes := b.value.scopes)) == Fine(Done(b.value.scopes, EMPTY, []));
      }
      assert Fallbacks(g, [Fallback(second)], focus, after) == b;
    }
  }

  /** One body and then another are one body. */
  lemma {:induction false} BodyOfBoth(g: Context, first: seq<Instruction>, second: seq<Instruction>, focus: Focus, env: Env)
    requires g.Valid() && IsNode(g.docs, focus.node)
    ensures var a := Body(g, first, focus, env);
            Body(g, first + second, focus, env)
            == if a.Failed? then a else a.value.Next(Body(g, second, focus, env.(scopes := a.value.scopes)))
    decreases first
  {
    hide One;
    if first == [] {
      assert first + second == second;
      assert env.(scopes := env.scopes) == env;
      NothingThen(env.scopes, Body(g, second, focus, env));
    } else {
      var one := One(g, first[0], focus, env);
      assert (first + second)[0] == first[0] && (first + second)[1..] == first[1..] + second;
      if one.Fine? {
        var after := env.(scopes := one.value.scopes);
        BodyOfBoth(g, first[1..], second, focus, after);
        var rest := Body(g, first[1..], focus, after);
        if rest.Fine? {
          DoneThen(one.value, rest.value, Body(g, second, focus, after.(scopes := rest.value.scopes)));
        }
      }
    }
  }

  /** Text of a template becomes a text node: always where `xsl:text` says so, otherwise unless it is nothing but whitespace. */
  lemma TextsAreNodes(g: Context, text: string, focus: Focus, env: Env)
    requires g.Valid() && IsNode(g.docs, focus.node)
    ensures var node := Content(map[], [Built(TextResult, NO_NAME, text, map[], [])]);
            && One(g, TextInstruction(text), focus, env) == Fine(Done(env.scopes, if text == "" then EMPTY else node, []))
            && One(g, LiteralText(text), focus, env)
               == Fine(Done(env.scopes, if exists c | c in text :: c != ' ' && c != '\t' && c != '\r' && c != '\n' then node else EMPTY, []))
  {
    assert One(g, TextInstruction(text), focus, env) == Instructed(g, TextInstruction(text), focus, env);
  }

  /** `xsl:number` writes the number its specification comes to, as text. */
  lemma NumberIsText(g: Context, specification: string, focus: Focus, env: Env)
    requires g.Valid() && IsNode(g.docs, focus.node)
    ensures var number, r := g.oracles.number(specification, focus, Seen(env.scopes)), One(g, WriteNumber(specification), focus, env);
            if number.Ok? then r == One(g, TextInstruction(number.value), focus, env) else r.Failed?
  {
    assert One(g, WriteNumber(specification), focus, env) == Instructed(g, WriteNumber(specification), focus, env);
    if g.oracles.number(specification, focus, Seen(env.scopes)).Ok? {
      TextsAreNodes(g, g.oracles.number(specification, focus, Seen(env.scopes)).value, focus, env);
    }
  }

  /** Where there is no rule for it an attribute gives its value, and a namespace node nothing. */
  lemma AttributesGiveTheirValue(g: Context, mode: Option<string>, focus: Focus, env: Env)
    requires g.Valid() && IsNode(g.docs, focus.node) && g.oracles.rule(focus.node, mode, None) == Ok(None) && env.depth < g.maxDepth
    ensures var item, r := Item(g.docs, focus.node), Apply(g, focus, mode, env);
            && (item.AttributeItem? ==> r == One(g, TextInstruction(item.attribute.value), focus, env))
            && (item.NamespaceItem? ==> r == Fine(Quiet(env)))
  {
    if Item(g.docs, focus.node).AttributeItem? {
      TextsAreNodes(g, Item(g.docs, focus.node).attribute.value, focus, env);
    }
    assert Apply(g, focus, mode, env) == BuiltIn(g, focus, mode, env);
    hide One, Apply;
  }

  /** `xsl:element`, and `xsl:copy` on an element, come to the literal element of that name, attribute sets and body. */
  lemma ElementsAreAlike(g: Context, name: string, uses: seq<string>, body: seq<Instruction>, focus: Focus, env: Env)
    requires g.Valid() && IsNode(g.docs, focus.node)
    ensures var expanded, r := g.oracles.name(name, focus, Seen(env.scopes)), One(g, MakeElement(name, uses, body), focus, env);
            if expanded.Ok? then r == One(g, LiteralElement(expanded.value, uses, [], body), focus, env) else r.Failed?
    ensures var item, r := Item(g.docs, focus.node), One(g, Copy(uses, body), focus, env);
            && (item.TreeItem? && item.tree.Element? ==> r == One(g, LiteralElement(item.tree.name, uses, [], body), focus, env))
            && (item.TreeItem? && item.tree.Root? ==> r == Body(g, body, focus, env))
  {
    assert One(g, MakeElement(name, uses, body), focus, env) == Instructed(g, MakeElement(name, uses, body), focus, env)
        == Building(g, MakeElement(name, uses, body), focus, env) == NamedElement(g, name, uses, body, focus, env);
    assert One(g, Copy(uses, body), focus, env) == Instructed(g, Copy(uses, body), focus, env)
        == Building(g, Copy(uses, body), focus, env) == Copied(g, uses, body, focus, env);
    hide NewElement, Body;
  }

  // --- Top-level variables --------------------------------------------------------------------------------------

  lemma {:induction false} WithoutIs(scope: seq<Binding<Built>>, name: string)
    ensures forall b :: b in Without(scope, name) <==> b in scope && b.name != name
  {
    if scope != [] {
      WithoutIs(scope[1..], name);
    }
  }

  /** A name has one value in a scope. */
  predicate HasTheValue(scope: seq<Binding<Built>>, name: string, value: Value) {
    Binding(name, value, None) in scope && forall b | b in scope && b.name == name :: b == Binding(name, value, None)
  }

  ghost predicate OnlySelects(g: Context) {
    forall v | v in g.sheet.variables :: v.declaration.Select?
  }

  /** The declaration whose value stands: none of higher precedence, and none later that is not overridden. */
  ghost predicate Stands(g: Context, k: nat) {
    && k < |g.sheet.variables| && !IsShadowed(g.sheet.variables, g.sheet.variables[k])
    && forall j: nat | k < j < |g.sheet.variables| && g.sheet.variables[j].declaration.name == g.sheet.variables[k].declaration.name ::
         IsShadowed(g.sheet.variables, g.sheet.variables[j])
  }

  lemma NextGlobal(g: Context, i: nat, node: Node, supplied: map<string, string>, scope: seq<Binding<Built>>) returns (value: Value)
    requires g.Valid() && IsNode(g.docs, node) && i < |g.sheet.variables| && OnlySelects(g)
    requires !IsShadowed(g.sheet.variables, g.sheet.variables[i]) && Globals(g, i, node, supplied, scope).Fine?
    ensures var v := g.sheet.variables[i];
            && (if v.isParameter && v.declaration.name in supplied then value == String(supplied[v.declaration.name])
                else g.oracles.evaluate(v.declaration.select, Focus(node, 1, 1), [SeenOf(scope)]) == Ok(value))
            && Globals(g, i + 1, node, supplied, Without(scope, v.declaration.name) + [Binding(v.declaration.name, value, None)]).Fine?
            && Globals(g, i, node, supplied, scope).value.0
               == Globals(g, i + 1, node, supplied, Without(scope, v.declaration.name) + [Binding(v.declaration.name, value, None)]).value.0
  {
    var v := g.sheet.variables[i];
    assert v in g.sheet.variables;
    assert Seen([scope]) == [SeenOf(scope)];
    value := GlobalBinding(g, v, node, supplied, scope).value.0.value;
    hide Without, IsShadowed;
  }

  lemma OthersKeepTheValue(scope: seq<Binding<Built>>, name: string, value: Value, other: string, otherValue: Value)
    requires HasTheValue(scope, name, value) && other != name
    ensures HasTheValue(Without(scope, other) + [Binding(other, otherValue, None)], name, value)
  {
    WithoutIs(scope, other);
  }

  lemma {:induction false} LaterGlobalsKeep(g: Context, i: nat, node: Node, supplied: map<string, string>, scope: seq<Binding<Built>>, k: nat, value: Value)
    requires g.Valid() && IsNode(g.docs, node) && k < i <= |g.sheet.variables| && OnlySelects(g) && Stands(g, k)
    requires HasTheValue(scope, g.sheet.variables[k].declaration.name, value) && Globals(g, i, node, supplied, scope).Fine?
    ensures HasTheValue(Globals(g, i, node, supplied, scope).value.0, g.sheet.variables[k].declaration.name, value)
    decreases |g.sheet.variables| - i
  {
    if i < |g.sheet.variables| {
      if IsShadowed(g.sheet.variables, g.sheet.variables[i]) {
        LaterGlobalsKeep(g, i + 1, node, supplied, scope, k, value);
      } else {
        var other := NextGlobal(g, i, node, supplied, scope);
        var name := g.sheet.variables[i].declaration.name;
        assert name != g.sheet.variables[k].declaration.name;
        hide Globals, IsShadowed, HasTheValue;
        OthersKeepTheValue(scope, g.sheet.variables[k].declaration.name, value, name, other);
        LaterGlobalsKeep(g, i + 1, node, supplied, Without(scope, name) + [Binding(name, other, None)], k, value);
      }
    }
  }

  /**
   What a top-level name is bound to in the end: of its declarations the one of highest precedence, and
   of those the last. A parameter that was supplied has the value supplied; anything else the value its
   expression gives at the root, where the variables before it can be seen.
   */
  lemma {:induction false} GlobalsStand(g: Context, i: nat, node: Node, supplied: map<string, string>, scope: seq<Binding<Built>>, k: nat)
    returns (value: Value, before: seq<Binding<Built>>)
    requires g.Valid() && IsNode(g.docs, node) && i <= k && OnlySelects(g) && Stands(g, k)
    requires Globals(g, i, node, supplied, scope).Fine?
    ensures var v := g.sheet.variables[k];
            && HasTheValue(Globals(g, i, node, supplied, scope).value.0, v.declaration.name, value)
            && (if v.isParameter && v.declaration.name in supplied then value == String(supplied[v.declaration.name])
                else g.oracles.evaluate(v.declaration.select, Focus(node, 1, 1), [SeenOf(before)]) == Ok(value))
            && Globals(g, k, node, supplied, before).Fine?
            && Globals(g, k, node, supplied, before).value.0 == Globals(g, i, node, supplied, scope).value.0
    decreases k - i
  {
    if i < k && IsShadowed(g.sheet.variables, g.sheet.variables[i]) {
      value, before := GlobalsStand(g, i + 1, node, supplied, scope, k);
    } else {
      var v := g.sheet.variables[i].declaration;
      var next := NextGlobal(g, i, node, supplied, scope);
      var after := Without(scope, v.name) + [Binding(v.name, next, None)];
      hide Globals, IsShadowed;
      if i < k {
        value, before := GlobalsStand(g, i + 1, node, supplied, after, k);
      } else {
        WithoutIs(scope, v.name);
        LaterGlobalsKeep(g, i + 1, node, supplied, after, k, next);
        value, before := next, scope;
      }
    }
  }

  // --- What a rule reaches past --------------------------------------------------------------------------------

  /** `xsl:apply-imports` in a rule asks for a rule for the same node and mode, of lower import precedence than that rule. */
  lemma ImportsAreBelowTheRule(g: Context, rule: nat, mode: Option<string>, parameters: seq<Binding<Built>>, tested: bool, focus: Focus, env: Env)
    requires g.Valid() && IsNode(g.docs, focus.node) && rule < |g.sheet.templates| && env.depth + 1 < g.maxDepth
    requires g.sheet.templates[rule].body == [ApplyImports]
    ensures var below := g.oracles.rule(focus.node, mode, Some(g.sheet.templates[rule].precedence));
            var inner := env.(depth := env.depth + 1, scopes := env.scopes + [parameters],
                              currentRule := Some(CurrentRule(g.sheet.templates[rule].precedence, mode)));
            var reached := if below.Err? then Failed([])
                           else if below.value.None? then BuiltIn(g, focus, mode, inner)
                           else if below.value.value < |g.sheet.templates| then Rule(g, below.value.value, mode, focus, [], true, inner)
                           else Failed([]);
            var r := Rule(g, rule, mode, focus, parameters, tested, env);
            && r.Fine? == reached.Fine? && LogOf(r) == [Entered(env.depth, tested)] + LogOf(reached)
            && (r.Fine? ==> r.value.content == reached.value.content && r.value.scopes == env.scopes)
  {
    var inner := env.(depth := env.depth + 1, scopes := env.scopes + [parameters],
                      currentRule := Some(CurrentRule(g.sheet.templates[rule].precedence, mode)));
    RuleIsThere(g, focus.node, mode, Some(g.sheet.templates[rule].precedence));
    RuleIsEntered(g, rule, mode, parameters, tested, focus, env);
    OneInstruction(g, ApplyImports, focus, inner);
    InstructionsAre(g, false, Select("", ""), "", None, "", focus, inner);
    hide Body, One, BuiltIn, Rule;
  }

  /** A named template leaves the current rule what it was: `xsl:apply-imports` in it reaches past that one. */
  lemma CallKeepsTheRule(g: Context, name: string, focus: Focus, env: Env)
    requires g.Valid() && IsNode(g.docs, focus.node) && name in g.sheet.named && env.depth < g.maxDepth
    requires g.sheet.templates[g.sheet.named[name]].body == [ApplyImports]
    ensures var inner := env.(depth := env.depth + 1, scopes := env.scopes + [[]]);
            var reached := One(g, ApplyImports, focus, inner);
            var r := One(g, CallTemplate(name, []), focus, env);
            && r.Fine? == reached.Fine? && LogOf(r) == [Entered(env.depth, true)] + LogOf(reached)
            && (r.Fine? ==> r.value.content == reached.value.content && r.value.scopes == env.scopes)
  {
    var inner := env.(depth := env.depth + 1, scopes := env.scopes + [[]]);
    OneInstruction(g, ApplyImports, focus, inner);
    InstructionsAre(g, false, Select("", ""), "", None, name, focus, env);
    TemplateIsEntered(g, name, focus, env);
    assert env.(depth := env.depth + 1, currentRule := env.currentRule, scopes := env.scopes + [[]]) == inner;
    hide Body, One, Called;
  }
}
