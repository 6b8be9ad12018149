/**
 Running a stylesheet: templates, built-in rules, attribute sets and bodies call one another without
 a bound of their own, and a depth guard and a guard on attribute sets make every run finite.

 The methods of `Engine` change its state as they go and put back what they pushed, whether they
 succeed or not. Each is proved to do what `XsltMeaning` says of the same construct.
 */
module XsltEngine {
  import opened Wrappers
  import opened Xdm
  import opened ResultTree
  import opened Stylesheets
  import opened XsltMeaning
  import opened XsltStates

  class Engine {
    const docs: Documents
    const sheet: Stylesheet
    const oracles: Oracles
    const maxDepth: nat
    /** The templates there is room for past `maxDepth`. */
    const spare: nat

    var output: ResultNodes
    /** The nodes content goes into; the last one takes it. */
    var insertion: seq<nat>
    /** What names are bound to, from the global scope inwards. */
    var scopes: Scopes<nat>
    var messages: seq<string>
    /** The names of the attribute sets in use at the moment. */
    var chain: seq<string>
    var currentRule: Option<CurrentRule>
    var depth: nat
    /** The greatest value `depth` has had, and what has happened so far. */
    ghost var peak: nat
    ghost var log: Log

    ghost function S(): State
      reads this
    {
      State(output, insertion, scopes, log, chain, currentRule, depth, peak)
    }

    function Limit(): nat {
      maxDepth + spare
    }

    ghost function G(): (g: Context)
    {
      Context(docs, sheet, oracles, maxDepth, spare)
    }

    ghost predicate Ready()
      reads this
    {
      G().Valid() && Sound(S(), Limit()) && Accounted(messages, log, peak)
    }

    ghost function Remaining(): int
      reads this
    {
      Limit() - depth
    }

    ghost function Unused(): set<string>
      reads this
    {
      G().Unused(chain)
    }

    // --- The result tree ------------------------------------------------------------------------------

    method New(n: ResultNode) returns (id: nat)
      requires Ready() && IsDetached(n)
      modifies this`output
      ensures Ready() && id == |old(output)| && S() == old(S()).(output := Create(old(output), n))
    {
      hide ValidOracles, IsNode;
      id := |output|;
      NodeCreated(S(), n, Limit());
      output := Create(output, n);
    }

    method Append(node: nat)
      requires Ready() && S().Open() < node < |output| && output[node].parent.None?
      modifies this`output
      ensures Ready() && S() == old(S()).(output := AppendChild(old(output), old(S()).Open(), node))
    {
      hide ValidOracles, IsNode;
      NodeAppended(S(), node, Limit());
      output := AppendChild(output, insertion[|insertion| - 1], node);
    }

    method AppendNew(n: ResultNode)
      requires Ready() && IsDetached(n)
      modifies this`output
      ensures Ready() && Ran(old(S()), S(), Ok(()), Fine(Putting(Here(old(S())), Child(Leaf(n)))))
    {
      hide Body, One, UsedSets, Apply, ValidOracles, IsNode;
      NewChildPut(S(), n, Limit());
      var node := New(n);
      Append(node);
    }

    method AppendText(text: string)
      requires Ready()
      modifies this`output
      ensures Ready() && Ran(old(S()), S(), Ok(()), Fine(Putting(Here(old(S())), TextContentOf(text))))
    {
      hide Body, One, UsedSets, Apply;
      if text != "" {
        AppendNew(TextNode(text));
      } else {
        NothingRuns(S(), Limit());
      hide ValidOracles, IsNode, Sound, Ran, Accounted;
      }
    }

    /** Runs a body with `inner` as the innermost open node. */
    method Fill(inner: nat, body: seq<Instruction>, focus: Focus) returns (r: Result<()>)
      requires Ready() && IsNode(docs, focus.node) && CanOpen(output, scopes, inner)
      modifies this
      ensures Ready() && RanAt(old(S()), S(), inner, r, Body(G(), body, focus, EnvAt(old(S()), inner)))
      decreases Remaining(), Unused(), Size(body), 0, 7
    {
      hide One, UsedSets, Apply, ValidOracles, IsNode;
      ghost var s0 := S();
      NodePushed(s0, inner, Limit());
      insertion := insertion + [inner];
      r := RunBody(body, focus);
      NodePopped(s0, inner, S(), r, Body(G(), body, focus, EnvAt(s0, inner)), Limit());
      insertion := insertion[..|insertion| - 1];
    }

    /** A body, with a new fragment to take what it produces. */
    method IntoFragment(body: seq<Instruction>, focus: Focus) returns (r: Result<nat>)
      requires Ready() && IsNode(docs, focus.node)
      modifies this
      ensures Ready() && Captured(old(S()), S(), r, InFragment(G(), body, focus, Here(old(S()))))
      decreases Remaining(), Unused(), Size(body), 0, 8
    {
      hide Body, One, UsedSets, Apply, ValidOracles, IsNode;
      ghost var s0 := S();
      NodeCreated(s0, Fragment(), Limit());
      var fragment := New(Fragment());
      ghost var s1 := S();
      var outcome := Fill(fragment, body, focus);
      KeptInside(s0, s1, S(), s0.Open(), fragment);
      if outcome.Err? {
        return Err;
      }
      FragmentFilled(s0, s1, S(), s0.Open(), Body(G(), body, focus, EnvAt(s1, fragment)).value, Limit());
      return Ok(fragment);
    }

    method CapturedText(body: seq<Instruction>, focus: Focus) returns (r: Result<string>)
      requires Ready() && IsNode(docs, focus.node)
      modifies this
      ensures Ready() && CapturedAs(old(S()), S(), r, InFragment(G(), body, focus, Here(old(S()))))
      decreases Remaining(), Unused(), Size(body), 0, 9
    {
      hide Body, One, UsedSets, Apply, ValidOracles, IsNode;
      var fragment :- IntoFragment(body, focus);
      TextIsTextUnder(output, fragment);
      return Ok(TextContent(output, fragment));
    }

    // --- Template rules ---------------------------------------------------------------------------------

    /** The depth test, the choice of a rule, and the rule. */
    method ApplyRules(focus: Focus, mode: Option<string>) returns (r: Result<()>)
      requires Ready() && IsNode(docs, focus.node)
      modifies this
      ensures Ready() && Ran(old(S()), S(), r, Apply(G(), focus, mode, Here(old(S()))))
      decreases Remaining(), Unused(), 0, Extent(docs, focus.node), 4
    {
      hide Body, One, UsedSets;
      NothingRuns(S(), Limit());
      hide ValidOracles, IsNode, Sound, Ran, Accounted;
      if depth >= maxDepth {
        return Err;
      }
      var matched :- oracles.rule(focus.node, mode, None);
      RuleIsThere(G(), focus.node, mode, None);
      match matched {
        case None => r := RunBuiltIn(focus, mode);
        case Some(rule) =>
          assert LiftedScope(output, []) == [];
          r := RunRule(rule, mode, focus, [], true);
      }
    }

    /** A rule that matched, as the current one while it runs; `tested` says whether the depth was tested on the way. */
    method RunRule(rule: nat, mode: Option<string>, focus: Focus, parameters: seq<Binding<nat>>, ghost tested: bool) returns (r: Result<()>)
      requires Ready() && IsNode(docs, focus.node) && rule < |sheet.templates| && depth < Limit()
      requires ScopeExists(parameters, |output|) && forall i | i in insertion :: ScopeClear(output, parameters, i)
      modifies this
      ensures Ready() && Ran(old(S()), S(), r, Rule(G(), rule, mode, focus, LiftedScope(old(output), parameters), tested, Here(old(S()))))
      decreases Remaining(), Unused(), 0, 0, 1
    {
      hide Body, One, UsedSets, Apply;
      Opens(S(), Limit());
      hide ValidOracles, IsNode, Sound, Ran, Accounted, ScopeExists, ScopeClear;
      ghost var s0 := S();
      var previous := currentRule;
      var current := Some(CurrentRule(sheet.templates[rule].precedence, mode));
      UnderRule(s0, current, Limit());
      currentRule := current;
      ghost var s1 := S();
      r := GoDeeper(rule, focus, parameters, tested);
      ghost var m := Logged(Entered(s0.depth, tested), InScope(G(), LiftedScope(s0.output, parameters), sheet.templates[rule].body,
                                                              focus, Here(s1).(depth := s0.depth + 1)));
      RanUnder(s0, current, S(), r, m, Limit());
      currentRule := previous;
    }

    /** A template's body, one level deeper than where it was reached. */
    method GoDeeper(template: nat, focus: Focus, parameters: seq<Binding<nat>>, ghost tested: bool) returns (r: Result<()>)
      requires Ready() && IsNode(docs, focus.node) && template < |sheet.templates| && depth < Limit()
      requires ScopeExists(parameters, |output|) && forall i | i in insertion :: ScopeClear(output, parameters, i)
      modifies this
      ensures Ready() && Ran(old(S()), S(), r,
                             Logged(Entered(old(depth), tested),
                                    InScope(G(), LiftedScope(old(output), parameters), sheet.templates[template].body,
                                            focus, Here(old(S())).(depth := old(depth) + 1))))
      decreases Remaining(), Unused(), 0, 0, 0
    {
      hide Body, One, UsedSets, Apply;
      ghost var s0 := S();
      Enter(tested);
      ghost var s1 := S();
      hide ValidOracles, IsNode, Sound, Ran, Accounted, ScopeExists, ScopeClear;
      r := RunTemplate(sheet.templates[template].body, focus, parameters);
      ghost var m := InScope(G(), LiftedScope(s0.output, parameters), sheet.templates[template].body, focus, Here(s1));
      RanDeeper(s0, s1, S(), tested, r, m, Limit());
      depth := depth - 1;
    }

    method Enter(ghost tested: bool)
      requires Ready() && depth < Limit()
      modifies this`depth, this`peak, this`log
      ensures Ready() && depth == old(depth) + 1 && peak >= old(peak) && log == old(log) + [Entered(old(depth), tested)]
      ensures Here(S()) == Here(old(S())).(depth := depth)
    {
      hide Sound, Accounted;
      GoneDeeper(S(), tested, Limit());
      AccountedEntered(messages, log, peak, depth, tested);
      log := log + [Entered(depth, tested)];
      depth := depth + 1;
      peak := if peak < depth then depth else peak;
    }

    /** The rule this one overrode. */
    method ApplyImported(focus: Focus) returns (r: Result<()>)
      requires Ready() && IsNode(docs, focus.node)
      modifies this
      ensures Ready() && Ran(old(S()), S(), r, Imported(G(), focus, Here(old(S()))))
      decreases Remaining(), Unused(), 1, 0, 0
    {
      hide Body, One, UsedSets, Apply;
      NothingRuns(S(), Limit());
      hide ValidOracles, IsNode, Sound, Ran, Accounted;
      if currentRule.None? {
        return Err;
      }
      if depth >= maxDepth {
        return Err;
      }
      var CurrentRule(precedence, mode) := currentRule.value;
      var matched :- oracles.rule(focus.node, mode, Some(precedence));
      RuleIsThere(G(), focus.node, mode, Some(precedence));
      match matched {
        case None => r := RunBuiltIn(focus, mode);
        case Some(rule) =>
          assert LiftedScope(output, []) == [];
          r := RunRule(rule, mode, focus, [], true);
      }
    }

    /** What happens to a node no rule was found for. */
    method RunBuiltIn(focus: Focus, mode: Option<string>) returns (r: Result<()>)
      requires Ready() && IsNode(docs, focus.node)
      modifies this
      ensures Ready() && Ran(old(S()), S(), r, BuiltIn(G(), focus, mode, Here(old(S()))))
      decreases Remaining(), Unused(), 0, Extent(docs, focus.node), 2
    {
      hide Body, One, UsedSets, Apply;
      NothingRuns(S(), Limit());
      hide ValidOracles, IsNode, Sound, Ran, Accounted;
      match Item(docs, focus.node) {
        case AttributeItem(a) =>
          AppendText(a.value);
          r := Ok(());
        case NamespaceItem(_) => r := Ok(());
        case TreeItem(t) =>
          if t.Root? || t.Element? {
            ChildrenAreWithin(docs, focus.node);
            r := ApplyToEach(Stripped(oracles, Children(docs, focus.node)), mode, Extent(docs, focus.node));
          } else {
            if t.Text? {
              AppendText(t.value);
            }
            r := Ok(());
          }
      }
    }

    /** A rule for each node, with the node's position in the list as its context. */
    method ApplyToEach(nodes: seq<Node>, mode: Option<string>, ghost bound: nat) returns (r: Result<()>)
      requires Ready() && AllNodes(docs, nodes) && AllWithin(docs, nodes, bound)
      modifies this
      ensures Ready() && Ran(old(S()), S(), r, ApplyToAll(G(), nodes, 0, mode, Here(old(S())), bound))
      decreases Remaining(), Unused(), 0, bound, 1
    {
      hide Body, One, UsedSets, Apply;
      Opens(S(), Limit());
      hide ValidOracles, IsNode, Sound, Achieved, KeptAt, RanAt, SoFar;
      ghost var s0, open, env := S(), S().Open(), Here(S());
      ghost var whole := ApplyToAll(G(), nodes, 0, mode, env, bound);
      ghost var done := Quiet(env);
      NothingSoFar(s0, Limit(), open, whole);
      for i := 0 to |nodes|
        invariant Ready() && SoFar(s0, S(), open, done, whole, ApplyToAll(G(), nodes, i, mode, env.(scopes := done.scopes), bound))
      {
        ghost var s1 := S();
        ghost var rest := ApplyToAll(G(), nodes, i, mode, env.(scopes := done.scopes), bound);
        assert nodes[i] in nodes;
        SoFarHere(s0, s1, open, done, whole, rest, Limit());
        var outcome := ApplyRules(Focus(nodes[i], i + 1, |nodes|), mode);
        ghost var first := Apply(G(), Focus(nodes[i], i + 1, |nodes|), mode, Here(s1));
        ghost var after := if first.Fine? then ApplyToAll(G(), nodes, i + 1, mode, env.(scopes := first.value.scopes), bound) else first;
        OneMore(s0, s1, S(), open, done, outcome, first, whole, rest, after);
        if outcome.Err? {
          return Err;
        }
        done := done.Then(first.value);
      }
      AllDone(s0, S(), open, done, whole);
      return Ok(());
    }

    /** Runs a template's body in a scope that holds its parameters and whatever it declares. */
    method RunTemplate(body: seq<Instruction>, focus: Focus, parameters: seq<Binding<nat>>) returns (r: Result<()>)
      requires Ready() && IsNode(docs, focus.node)
      requires ScopeExists(parameters, |output|) && forall i | i in insertion :: ScopeClear(output, parameters, i)
      modifies this
      ensures Ready() && Ran(old(S()), S(), r, InScope(G(), LiftedScope(old(output), parameters), body, focus, Here(old(S()))))
      decreases Remaining(), Unused(), Size(body), 0, 8
    {
      hide Body, One, UsedSets, Apply, ValidOracles, IsNode;
      r := RunInScope(parameters, body, focus);
    }

    /** Pushes a scope, runs a body and pops what is left of it. */
    method RunInScope(scope: seq<Binding<nat>>, body: seq<Instruction>, focus: Focus) returns (r: Result<()>)
      requires Ready() && IsNode(docs, focus.node)
      requires ScopeExists(scope, |output|) && forall i | i in insertion :: ScopeClear(output, scope, i)
      modifies this
      ensures Ready() && Ran(old(S()), S(), r, InScope(G(), LiftedScope(old(output), scope), body, focus, Here(old(S()))))
      decreases Remaining(), Unused(), Size(body), 0, 7
    {
      hide Body, One, UsedSets, Apply, ValidOracles, IsNode;
      ghost var s0 := S();
      ScopePushed(s0, scope, Limit());
      scopes := scopes + [scope];
      ghost var inside := Body(G(), body, focus, Here(S()));
      r := RunBody(body, focus);
      RanInScope(s0, scope, S(), r, inside, Limit());
      scopes := scopes[..|scopes| - 1];
    }

    // --- Running a body -----------------------------------------------------------------------------------

    method RunBody(body: seq<Instruction>, focus: Focus) returns (r: Result<()>)
      requires Ready() && IsNode(docs, focus.node)
      modifies this
      ensures Ready() && Ran(old(S()), S(), r, Body(G(), body, focus, Here(old(S()))))
      decreases Remaining(), Unused(), Size(body), 0, 6
    {
      hide One, UsedSets, Apply;
      Opens(S(), Limit());
      hide ValidOracles, IsNode, Sound, Achieved, KeptAt, RanAt, SoFar;
      ghost var s0, open, env := S(), S().Open(), Here(S());
      ghost var whole := Body(G(), body, focus, env);
      ghost var done := Quiet(env);
      assert body[0..] == body;
      NothingSoFar(s0, Limit(), open, whole);
      for i := 0 to |body|
        invariant Ready() && SoFar(s0, S(), open, done, whole, Body(G(), body[i..], focus, env.(scopes := done.scopes)))
      {
        ghost var s1 := S();
        ghost var rest := Body(G(), body[i..], focus, env.(scopes := done.scopes));
        SoFarHere(s0, s1, open, done, whole, rest, Limit());
        SizeOfOne(body, i);
        var outcome := RunNode(body[i], focus);
        assert body[i..][0] == body[i] && body[i..][1..] == body[i + 1..];
        ghost var first := One(G(), body[i], focus, Here(s1));
        ghost var after := if first.Fine? then Body(G(), body[i + 1..], focus, env.(scopes := first.value.scopes)) else first;
        OneMore(s0, s1, S(), open, done, outcome, first, whole, rest, after);
        if outcome.Err? {
          return Err;
        }
        done := done.Then(first.value);
      }
      AllDone(s0, S(), open, done, whole);
      return Ok(());
    }

    /** One node of a body: characters, an element of the result, something unknown, or an instruction. */
    method RunNode(i: Instruction, focus: Focus) returns (r: Result<()>)
      requires Ready() && IsNode(docs, focus.node)
      modifies this
      ensures Ready() && Ran(old(S()), S(), r, One(G(), i, focus, Here(old(S()))))
      decreases Remaining(), Unused(), InstructionSize(i) + 1, 0, 5
    {
      NothingRuns(S(), Limit());
      hide Instructed, NewElement, Fallbacks, ValidOracles, IsLinked, IsNode, Sound, Ran, Accounted;
      if i.IsInstruction() {
        r := RunInstruction(i, focus);
        return;
      }
      match i
      case Nothing => r := Ok(());
      case LiteralText(text) => r := WriteLiteral(text);
      case LiteralElement(name, uses, attributes, body) => r := BuildLiteral(name, uses, attributes, body, focus);
      case Unknown(understood, fallbacks) =>
        if understood && fallbacks != [] {
          r := FallBack(fallbacks, focus);
        } else {
          r := Err;
        }
    }

    /** One instruction; what builds nodes is dealt with apart. */
    method RunInstruction(i: Instruction, focus: Focus) returns (r: Result<()>)
      requires Ready() && IsNode(docs, focus.node) && i.IsInstruction()
      modifies this
      ensures Ready() && Ran(old(S()), S(), r, Instructed(G(), i, focus, Here(old(S()))))
      decreases Remaining(), Unused(), InstructionSize(i) + 1, 0, 4
    {
      NothingRuns(S(), Limit());
      hide Building, Valued, Numbered, Conditional, Choice, Repeated, Applying, Imported, Called, Declaring, Telling;
      hide ValidOracles, IsLinked, IsNode, Sound, Ran, Accounted;
      if i.Builds() {
        r := Build(i, focus);
        return;
      }
      match i
      case TextInstruction(text) =>
        AppendText(text);
        r := Ok(());
      case ValueOf(select) => r := WriteValue(select, focus);
      case WriteNumber(specification) => r := WriteNumberOf(specification, focus);
      case If(test, body) => r := RunIf(test, body, focus);
      case Choose(branches) => r := ChooseBranch(branches, focus);
      case ForEach(select, sorts, body) => r := RunForEach(select, sorts, body, focus);
      case ApplyTemplates(nodes, sorts, mode, withParams) => r := RunApplyTemplates(nodes, sorts, mode, withParams, focus);
      case ApplyImports => r := ApplyImported(focus);
      case CallTemplate(template, withParams) => r := Call(template, withParams, focus);
      case Declare(isParam, declaration) => r := Bind(isParam, declaration, focus);
      case Message(terminate, body) => r := Say(terminate, body, focus);
    }

    method Build(i: Instruction, focus: Focus) returns (r: Result<()>)
      requires Ready() && IsNode(docs, focus.node) && i.Builds()
      modifies this
      ensures Ready() && Ran(old(S()), S(), r, Building(G(), i, focus, Here(old(S()))))
      decreases Remaining(), Unused(), InstructionSize(i) + 1, 0, 3
    {
      Opens(S(), Limit());
      hide NamedElement, NewAttribute, NewComment, NewInstruction, Copied, CopiedValue;
      hide ValidOracles, IsLinked, IsNode, Sound, Ran, Accounted;
      match i
      case MakeElement(name, uses, body) => r := BuildElement(name, uses, body, focus);
      case MakeAttribute(name, body) => r := BuildAttribute(name, body, focus);
      case MakeComment(body) => r := BuildComment(body, focus);
      case MakeInstruction(name, body) => r := BuildInstruction(name, body, focus);
      case Copy(uses, body) => r := CopyNode(uses, body, focus);
      case CopyOf(select, variable) => r := CopySelected(select, variable, focus);
    }

    /** Characters of the stylesheet; those that are only whitespace are not part of the result. */
    method WriteLiteral(text: string) returns (r: Result<()>)
      requires Ready()
      modifies this`output
      ensures Ready() && Ran(old(S()), S(), r, Fine(Putting(Here(old(S())), TextContentOf(if IsWhitespaceOnly(text) then "" else text))))
    {
      hide Body, One, UsedSets, Apply;
      NothingRuns(S(), Limit());
      hide ValidOracles, IsNode, Sound, Ran, Accounted;
      if !IsWhitespaceOnly(text) {
        AppendText(text);
      }
      r := Ok(());
    }

    method WriteValue(select: string, focus: Focus) returns (r: Result<()>)
      requires Ready()
      modifies this`output
      ensures Ready() && Ran(old(S()), S(), r, Valued(G(), select, focus, Here(old(S()))))
    {
      hide Body, One, UsedSets, Apply;
      NothingRuns(S(), Limit());
      hide ValidOracles, IsNode, Sound, Ran, Accounted;
      SeenLifted(output, scopes);
      var text :- oracles.text(select, focus, Seen(scopes));
      AppendText(text);
      r := Ok(());
    }

    /** A number, worked out and written as the instruction asks. */
    method WriteNumberOf(specification: string, focus: Focus) returns (r: Result<()>)
      requires Ready()
      modifies this`output
      ensures Ready() && Ran(old(S()), S(), r, Numbered(G(), specification, focus, Here(old(S()))))
    {
      hide Body, One, UsedSets, Apply;
      NothingRuns(S(), Limit());
      hide ValidOracles, IsNode, Sound, Ran, Accounted;
      SeenLifted(output, scopes);
      var text :- oracles.number(specification, focus, Seen(scopes));
      AppendText(text);
      r := Ok(());
    }

    method RunIf(test: string, body: seq<Instruction>, focus: Focus) returns (r: Result<()>)
      requires Ready() && IsNode(docs, focus.node)
      modifies this
      ensures Ready() && Ran(old(S()), S(), r, Conditional(G(), test, body, focus, Here(old(S()))))
      decreases Remaining(), Unused(), Size(body) + 1, 0, 0
    {
      hide Body, One, UsedSets, Apply;
      NothingRuns(S(), Limit());
      hide ValidOracles, IsNode, Sound, Ran, Accounted;
      SeenLifted(output, scopes);
      var value :- oracles.evaluate(test, focus, Seen(scopes));
      if value.Truth() {
        r := RunBody(body, focus);
      } else {
        r := Ok(());
      }
    }

    /** The text of a body, as a comment. */
    method BuildComment(body: seq<Instruction>, focus: Focus) returns (r: Result<()>)
      requires Ready() && IsNode(docs, focus.node)
      modifies this
      ensures Ready() && Ran(old(S()), S(), r, NewComment(G(), body, focus, Here(old(S()))))
      decreases Remaining(), Unused(), Size(body) + 1, 0, 0
    {
      hide Body, One, UsedSets, Apply, ValidOracles, IsNode;
      ghost var s0 := S();
      var text :- CapturedText(body, focus);
      ghost var s1 := S();
      AppendNew(CommentNode(text));
      CapturedThenPut(s0, s1, S(), InFragment(G(), body, focus, Here(s0)).value, Child(Leaf(CommentNode(text))));
      r := Ok(());
    }

    /** The text of a body, as a processing instruction. */
    method BuildInstruction(name: string, body: seq<Instruction>, focus: Focus) returns (r: Result<()>)
      requires Ready() && IsNode(docs, focus.node)
      modifies this
      ensures Ready() && Ran(old(S()), S(), r, NewInstruction(G(), name, body, focus, Here(old(S()))))
      decreases Remaining(), Unused(), Size(body) + 1, 0, 0
    {
      hide Body, One, UsedSets, Apply, ValidOracles, IsNode;
      ghost var s0 := S();
      StartsHere(s0, Limit(), s0.Open());
      SeenLifted(output, scopes);
      var target :- oracles.text(name, focus, Seen(scopes));
      var data :- CapturedText(body, focus);
      ghost var s1 := S();
      AppendNew(InstructionNode(target, data));
      CapturedThenPut(s0, s1, S(), InFragment(G(), body, focus, Here(s0)).value, Child(Leaf(InstructionNode(target, data))));
      r := Ok(());
    }

    /** The text of a body, as a message; with `terminate` the run fails instead. */
    method Say(terminate: bool, body: seq<Instruction>, focus: Focus) returns (r: Result<()>)
      requires Ready() && IsNode(docs, focus.node)
      modifies this
      ensures Ready() && Ran(old(S()), S(), r, Telling(G(), terminate, body, focus, Here(old(S()))))
      decreases Remaining(), Unused(), Size(body) + 1, 0, 0
    {
      hide Body, One, UsedSets, Apply, ValidOracles, IsNode;
      ghost var s0 := S();
      var text :- CapturedText(body, focus);
      if terminate {
        return Err;
      }
      AccountedSaid(messages, log, peak, text);
      ghost var captured := InFragment(G(), body, focus, Here(s0)).value.1.log;
      assert s0.log + captured + [Said(text)] == s0.log + (captured + [Said(text)]);
      messages, log := messages + [text], log + [Said(text)];
      r := Ok(());
    }

    /** The first branch whose test holds, or the last `xsl:otherwise`. */
    method ChooseBranch(branches: seq<Branch>, focus: Focus) returns (r: Result<()>)
      requires Ready() && IsNode(docs, focus.node)
      modifies this
      ensures Ready() && Ran(old(S()), S(), r, Choice(G(), branches, focus, Here(old(S()))))
      decreases Remaining(), Unused(), BranchesSize(branches) + 1, 0, 0
    {
      hide Body, One, UsedSets, Apply;
      ghost var env := Here(S());
      NothingRuns(S(), Limit());
      hide ValidOracles, IsNode, Sound, Ran, Accounted;
      SeenLifted(output, scopes);
      var otherwise: Option<nat> := None;
      for i := 0 to |branches|
        invariant Ready() && S() == old(S()) && otherwise == LastOtherwise(branches, i)
        invariant FirstTrue(G(), branches, 0, focus, env) == FirstTrue(G(), branches, i, focus, env)
      {
        SizeOfBranch(branches, i);
        match branches[i] {
          case When(test, body) =>
            var value :- oracles.evaluate(test, focus, Seen(scopes));
            if value.Truth() {
              r := RunBody(body, focus);
              return;
            }
          case Otherwise(_) => otherwise := Some(i);
        }
      }
      match otherwise {
        case Some(i) =>
          SizeOfBranch(branches, i);
          r := RunBody(branches[i].body, focus);
        case None => r := Ok(());
      }
    }

    /** The nodes selected, in the order asked for, each with a turn of the body. */
    method RunForEach(select: string, sorts: seq<string>, body: seq<Instruction>, focus: Focus) returns (r: Result<()>)
      requires Ready() && IsNode(docs, focus.node)
      modifies this
      ensures Ready() && Ran(old(S()), S(), r, Repeated(G(), select, sorts, body, focus, Here(old(S()))))
      decreases Remaining(), Unused(), Size(body) + 1, 0, 0
    {
      hide Body, One, UsedSets, Apply;
      NothingRuns(S(), Limit());
      hide ValidOracles, IsNode, Sound, Ran, Accounted;
      var selected :- Nodes(select, focus);
      var nodes :- Sort(sorts, selected, focus);
      SortedAreNodes(G(), sorts, selected, focus, Here(S()));
      r := TakeTurns(body, nodes);
    }

    /** The nodes as the sorts arrange them, or unchanged. */
    method Sort(sorts: seq<string>, nodes: seq<Node>, focus: Focus) returns (r: Result<seq<Node>>)
      requires Ready()
      ensures r == Sorted(G(), sorts, nodes, focus, Here(S()))
    {
      hide ValidOracles, IsNode;
      SeenLifted(output, scopes);
      if sorts == [] {
        return Ok(nodes);
      }
      return oracles.sort(sorts, nodes, focus, Seen(scopes));
    }

    method TakeTurns(body: seq<Instruction>, nodes: seq<Node>) returns (r: Result<()>)
      requires Ready() && AllNodes(docs, nodes)
      modifies this
      ensures Ready() && Ran(old(S()), S(), r, Turns(G(), body, nodes, 0, Here(old(S()))))
      decreases Remaining(), Unused(), Size(body), 0, 8
    {
      hide Body, One, UsedSets, Apply;
      Opens(S(), Limit());
      hide ValidOracles, IsNode, Sound, Achieved, KeptAt, RanAt, SoFar;
      ghost var s0, open, env := S(), S().Open(), Here(S());
      ghost var whole := Turns(G(), body, nodes, 0, env);
      ghost var done := Quiet(env);
      NothingSoFar(s0, Limit(), open, whole);
      for i := 0 to |nodes|
        invariant Ready() && SoFar(s0, S(), open, done, whole, Turns(G(), body, nodes, i, env.(scopes := done.scopes)))
      {
        ghost var s1 := S();
        ghost var rest := Turns(G(), body, nodes, i, env.(scopes := done.scopes));
        assert nodes[i] in nodes;
        SoFarHere(s0, s1, open, done, whole, rest, Limit());
        assert LiftedScope(output, []) == [];
        var outcome := RunInScope([], body, Focus(nodes[i], i + 1, |nodes|));
        ghost var first := InScope(G(), [], body, Focus(nodes[i], i + 1, |nodes|), Here(s1));
        ghost var after := if first.Fine? then Turns(G(), body, nodes, i + 1, env.(scopes := first.value.scopes)) else first;
        OneMore(s0, s1, S(), open, done, outcome, first, whole, rest, after);
        if outcome.Err? {
          return Err;
        }
        done := done.Then(first.value);
      }
      AllDone(s0, S(), open, done, whole);
      return Ok(());
    }

    /** The nodes an expression selects, whitespace stripped; anything else is an error. */
    method Nodes(select: string, focus: Focus) returns (r: Result<seq<Node>>)
      requires Ready()
      ensures r == Selected(G(), select, focus, Here(S()))
    {
      hide ValidOracles, IsNode;
      SeenLifted(output, scopes);
      var value :- oracles.evaluate(select, focus, Seen(scopes));
      return if value.NodeSet? then Ok(Stripped(oracles, value.nodes)) else Err;
    }

    /** What `select` yields, or else the children of the context node. */
    method NodesToApply(select: Option<string>, focus: Focus) returns (r: Result<seq<Node>>)
      requires Ready() && IsNode(docs, focus.node)
      ensures r == Applied(G(), select, focus, Here(S()))
    {
      hide ValidOracles, IsNode;
      match select {
        case Some(expression) => r := Nodes(expression, focus);
        case None =>
          ChildrenAreWithin(docs, focus.node);
          r := Ok(Stripped(oracles, Children(docs, focus.node)));
      }
    }

    /** Parameters first, then the nodes; the depth is tested on the way to a rule only where no parameters are handed on. */
    method RunApplyTemplates(select: Option<string>, sorts: seq<string>, mode: Option<string>, withParams: seq<Declaration>, focus: Focus)
      returns (r: Result<()>)
      requires Ready() && IsNode(docs, focus.node)
      modifies this
      ensures Ready() && Ran(old(S()), S(), r, Applying(G(), select, sorts, mode, withParams, focus, Here(old(S()))))
      decreases Remaining(), Unused(), DeclarationsSize(withParams) + 1, 0, 1
    {
      hide Body, One, UsedSets, Apply;
      Opens(S(), Limit());
      hide ValidOracles, IsNode, Sound, BoundTo, Ran;
      ghost var s0 := S();
      var handed := WithParams(withParams, focus);
      ghost var s1 := S();
      ghost var m := Parameters(G(), withParams, focus, Here(s0));
      StoppedBound(s0, s1, handed, m);
      if handed.Err? {
        return Err;
      }
      BoundHere(s0, s1, handed.value, m, Limit());
      LogEnds(m.value.1.log);
      var selected :- NodesToApply(select, focus);
      var nodes :- Sort(sorts, selected, focus);
      SortedAreNodes(G(), sorts, selected, focus, Here(s1));
      ghost var inner;
      if handed.value == [] {
        r := ApplyToEach(nodes, mode, Bound(docs, nodes));
        inner := ApplyToAll(G(), nodes, 0, mode, Here(s1), Bound(docs, nodes));
      } else {
        r := HandToEach(nodes, mode, handed.value, |s0.output|);
        inner := HandToAll(G(), nodes, 0, mode, m.value.0, Here(s1));
      }
      RanWithBound(s0, s1, S(), handed.value, m, r, inner);
    }

    /** The parameters go to the rule of every node; none of their fragments is older than `from`. */
    method HandToEach(nodes: seq<Node>, mode: Option<string>, parameters: seq<Binding<nat>>, ghost from: nat) returns (r: Result<()>)
      requires Ready() && AllNodes(docs, nodes) && ScopeExists(parameters, |output|) && AllBefore(insertion, from) && NewScope(parameters, from)
      modifies this
      ensures Ready() && Ran(old(S()), S(), r, HandToAll(G(), nodes, 0, mode, LiftedScope(old(output), parameters), Here(old(S()))))
      decreases Remaining(), Unused(), 1, 0, 0
    {
      hide Body, One, UsedSets, Apply;
      Opens(S(), Limit());
      hide ValidOracles, IsNode, Sound, Achieved, KeptAt, RanAt, SoFar, NewScope, ScopeExists, ScopeClear;
      ghost var s0, open, env, lifted := S(), S().Open(), Here(S()), LiftedScope(output, parameters);
      ghost var whole := HandToAll(G(), nodes, 0, mode, lifted, env);
      ghost var done := Quiet(env);
      NothingSoFar(s0, Limit(), open, whole);
      for i := 0 to |nodes|
        invariant Ready() && SoFar(s0, S(), open, done, whole, HandToAll(G(), nodes, i, mode, lifted, env.(scopes := done.scopes)))
      {
        ghost var s1 := S();
        ghost var rest := HandToAll(G(), nodes, i, mode, lifted, env.(scopes := done.scopes));
        assert nodes[i] in nodes;
        SoFarHere(s0, s1, open, done, whole, rest, Limit());
        HandedStays(s0, s1, open, done, whole, rest, parameters, from, Limit());
        var focus := Focus(nodes[i], i + 1, |nodes|);
        var outcome := HandToOne(focus, mode, parameters);
        ghost var first := HandTo(G(), focus, mode, lifted, Here(s1));
        ghost var after := if first.Fine? then HandToAll(G(), nodes, i + 1, mode, lifted, env.(scopes := first.value.scopes)) else first;
        OneMore(s0, s1, S(), open, done, outcome, first, whole, rest, after);
        if outcome.Err? {
          return Err;
        }
        done := done.Then(first.value);
      }
      AllDone(s0, S(), open, done, whole);
      return Ok(());
    }

    /** The rule that matches, entered without a test of the depth. */
    method HandToOne(focus: Focus, mode: Option<string>, parameters: seq<Binding<nat>>) returns (r: Result<()>)
      requires Ready() && IsNode(docs, focus.node)
      requires ScopeExists(parameters, |output|) && forall i | i in insertion :: ScopeClear(output, parameters, i)
      modifies this
      ensures Ready() && Ran(old(S()), S(), r, HandTo(G(), focus, mode, LiftedScope(old(output), parameters), Here(old(S()))))
      decreases Remaining(), Unused(), 0, Extent(docs, focus.node), 4
    {
      hide Body, One, UsedSets, Apply;
      NothingRuns(S(), Limit());
      hide ValidOracles, IsNode, Sound, Ran, Accounted;
      var matched :- oracles.rule(focus.node, mode, None);
      RuleIsThere(G(), focus.node, mode, None);
      match matched {
        case None => r := RunBuiltIn(focus, mode);
        case Some(rule) =>
          if depth >= Limit() {
            return Err;
          }
          r := RunRule(rule, mode, focus, parameters, false);
      }
    }

    /** Runs a named template; the current rule stays what it was. */
    method Call(name: string, withParams: seq<Declaration>, focus: Focus) returns (r: Result<()>)
      requires Ready() && IsNode(docs, focus.node)
      modifies this
      ensures Ready() && Ran(old(S()), S(), r, Called(G(), name, withParams, focus, Here(old(S()))))
      decreases Remaining(), Unused(), DeclarationsSize(withParams) + 1, 0, 0
    {
      hide Body, One, UsedSets, Apply;
      Opens(S(), Limit());
      hide ValidOracles, IsNode, Sound, BoundTo, Ran;
      ghost var s0 := S();
      var handed := WithParams(withParams, focus);
      ghost var s1 := S();
      ghost var m := Parameters(G(), withParams, focus, Here(s0));
      StoppedBound(s0, s1, handed, m);
      if handed.Err? {
        return Err;
      }
      BoundHere(s0, s1, handed.value, m, Limit());
      if name !in sheet.named {
        return Err;
      }
      if depth >= maxDepth {
        return Err;
      }
      r := GoDeeper(sheet.named[name], focus, handed.value, true);
      RanWithBound(s0, s1, S(), handed.value, m, r,
                   Logged(Entered(s1.depth, true),
                          InScope(G(), m.value.0, sheet.templates[sheet.named[name]].body, focus, Here(s1).(depth := s1.depth + 1))));
    }

    /** The values an instruction hands on, evaluated where it stands. */
    method WithParams(ds: seq<Declaration>, focus: Focus) returns (r: Result<seq<Binding<nat>>>)
      requires Ready() && IsNode(docs, focus.node)
      modifies this
      ensures Ready() && BoundTo(old(S()), S(), r, Parameters(G(), ds, focus, Here(old(S()))))
      decreases Remaining(), Unused(), DeclarationsSize(ds), 0, 11
    {
      hide Body, One, UsedSets, Apply;
      Opens(S(), Limit());
      hide ValidOracles, IsNode, Sound, Achieved, KeptAt, BoundTo, BoundSoFar, DeclaredAs;
      ghost var s0, open, env := S(), S().Open(), Here(S());
      ghost var whole := Parameters(G(), ds, focus, env);
      ghost var done := Quiet(env);
      var parameters: seq<Binding<nat>> := [];
      assert ds[0..] == ds;
      BoundNothing(s0, Limit(), open, whole);
      for i := 0 to |ds|
        invariant Ready() && BoundSoFar(s0, S(), open, parameters, done, whole, Parameters(G(), ds[i..], focus, env.(scopes := done.scopes)))
      {
        ghost var s1 := S();
        Opens(s1, Limit());
        ghost var rest := Parameters(G(), ds[i..], focus, env.(scopes := done.scopes));
        BoundSoFarHere(s0, s1, parameters, done, Limit(), whole, rest);
        SizeOfDeclaration(ds, i);
        var declared := DeclaredValue(ds[i], focus);
        assert ds[i..][0] == ds[i] && ds[i..][1..] == ds[i + 1..];
        ghost var first := Declared(G(), ds[i], focus, Here(s1));
        ghost var after := if first.Fine? then Parameters(G(), ds[i + 1..], focus, env.(scopes := first.value.1.scopes)) else Failed([]);
        BoundOneMore(s0, s1, S(), parameters, ds[i].name, done, declared, first, whole, rest, after);
        if declared.Err? {
          return Err;
        }
        parameters := parameters + [Binding(ds[i].name, declared.value.0, declared.value.1)];
        done := done.Then(first.value.1);
      }
      assert ds[|ds|..] == [];
      BoundAll(s0, S(), parameters, done, whole);
      return Ok(parameters);
    }

    /** One more binding, unless it is a parameter that has a value already. */
    method Bind(isParam: bool, d: Declaration, focus: Focus) returns (r: Result<()>)
      requires Ready() && IsNode(docs, focus.node)
      modifies this
      ensures Ready() && Ran(old(S()), S(), r, Declaring(G(), isParam, d, focus, Here(old(S()))))
      decreases Remaining(), Unused(), DeclarationSize(d) + 1, 0, 0
    {
      hide Declared, Body, One, UsedSets, Apply;
      ghost var s0 := S();
      StartsHere(s0, Limit(), s0.Open());
      if scopes != [] {
        BindsLifted(output, scopes, d.name);
      }
      if isParam && scopes != [] && Binds(scopes[|scopes| - 1], d.name) {
        return Ok(());
      }
      hide ValidOracles, IsNode, Sound, Achieved, KeptAt, Binds;
      ghost var m := Declared(G(), d, focus, Here(s0));
      var value :- DeclaredValue(d, focus);
      BindingAdded(s0, S(), d.name, value, m.value, Limit());
      if scopes != [] {
        scopes := WithBinding(scopes, Binding(d.name, value.0, value.1));
      }
      return Ok(());
    }

    /** What a declaration carries: its expression's value, or what its content produces. */
    method DeclaredValue(d: Declaration, focus: Focus) returns (r: Result<(Value, Option<nat>)>)
      requires Ready() && IsNode(docs, focus.node)
      modifies this
      ensures Ready() && DeclaredAs(old(S()), S(), d.name, r, Declared(G(), d, focus, Here(old(S()))))
      decreases Remaining(), Unused(), DeclarationSize(d), 0, 10
    {
      hide Body, One, UsedSets, Apply;
      NothingRuns(S(), Limit());
      hide ValidOracles, IsNode, Sound, Ran, Accounted;
      SeenLifted(output, scopes);
      match d
      case Select(_, select) =>
        var value :- oracles.evaluate(select, focus, Seen(scopes));
        return Ok((value, None));
      case Produced(_, body) =>
        var fragment :- IntoFragment(body, focus);
        TextIsTextUnder(output, fragment);
        return Ok((String(TextContent(output, fragment)), Some(fragment)));
    }

    method FallBack(fallbacks: seq<Fallback>, focus: Focus) returns (r: Result<()>)
      requires Ready() && IsNode(docs, focus.node)
      modifies this
      ensures Ready() && Ran(old(S()), S(), r, Fallbacks(G(), fallbacks, focus, Here(old(S()))))
      decreases Remaining(), Unused(), FallbacksSize(fallbacks) + 1, 0, 0
    {
      hide Body, One, UsedSets, Apply;
      Opens(S(), Limit());
      hide ValidOracles, IsNode, Sound, Achieved, KeptAt, RanAt, SoFar;
      ghost var s0, open, env := S(), S().Open(), Here(S());
      ghost var whole := Fallbacks(G(), fallbacks, focus, env);
      ghost var done := Quiet(env);
      assert fallbacks[0..] == fallbacks;
      NothingSoFar(s0, Limit(), open, whole);
      for i := 0 to |fallbacks|
        invariant Ready() && SoFar(s0, S(), open, done, whole, Fallbacks(G(), fallbacks[i..], focus, env.(scopes := done.scopes)))
      {
        ghost var s1 := S();
        ghost var rest := Fallbacks(G(), fallbacks[i..], focus, env.(scopes := done.scopes));
        SoFarHere(s0, s1, open, done, whole, rest, Limit());
        SizeOfFallback(fallbacks, i);
        var outcome := RunBody(fallbacks[i].body, focus);
        assert fallbacks[i..][0] == fallbacks[i] && fallbacks[i..][1..] == fallbacks[i + 1..];
        ghost var first := Body(G(), fallbacks[i].body, focus, Here(s1));
        ghost var after := if first.Fine? then Fallbacks(G(), fallbacks[i + 1..], focus, env.(scopes := first.value.scopes)) else first;
        OneMore(s0, s1, S(), open, done, outcome, first, whole, rest, after);
        if outcome.Err? {
          return Err;
        }
        done := done.Then(first.value);
      }
      AllDone(s0, S(), open, done, whole);
      return Ok(());
    }

    // --- Instructions that build result nodes -----------------------------------------------------------------

    /** Creates an element in the open node, puts its attribute sets on it and runs the body inside it. */
    method OpenElement(name: ExpandedName, uses: seq<string>, body: seq<Instruction>, focus: Focus) returns (r: Result<()>)
      requires Ready() && IsNode(docs, focus.node)
      modifies this
      ensures Ready() && Ran(old(S()), S(), r, NewElement(G(), name, uses, [], body, focus, Here(old(S()))))
      decreases Remaining(), Unused(), Size(body) + 1, 0, 0
    {
      hide Body, One, UsedSets, Apply, ValidOracles, IsNode;
      ghost var s0, env := S(), Here(S());
      var n := ElementNode(name);
      EmptyNodePlaced(s0, n, Limit());
      var created := New(n);
      Append(created);
      ghost var s1 := S();
      var sets := UseAttributeSets(uses, created, focus);
      ghost var s2 := S();
      ghost var used := UsedSets(G(), uses, focus, EnvAt(s1, created));
      PlacedFilled(s0, s1, s2, s0.Open(), created, n, Quiet(env), sets, used);
      if sets.Err? {
        return Err;
      }
      StaysOpenable(s1, s2, created, created);
      EnvAfter(s1, s2, created, used.value);
      r := Fill(created, body, focus);
      ghost var inside := Body(G(), body, focus, EnvAt(s2, created));
      ElementFilled(s0, s1, s2, S(), s0.Open(), created, n, env, used.value, r, inside);
    }

    method BuildElement(name: string, uses: seq<string>, body: seq<Instruction>, focus: Focus) returns (r: Result<()>)
      requires Ready() && IsNode(docs, focus.node)
      modifies this
      ensures Ready() && Ran(old(S()), S(), r, NamedElement(G(), name, uses, body, focus, Here(old(S()))))
      decreases Remaining(), Unused(), Size(body) + 1, 0, 1
    {
      hide Body, One, UsedSets, Apply;
      NothingRuns(S(), Limit());
      hide ValidOracles, IsNode, Sound, Ran, Accounted;
      SeenLifted(output, scopes);
      var expanded :- oracles.name(name, focus, Seen(scopes));
      r := OpenElement(expanded, uses, body, focus);
    }

    /** The text of a body, as an attribute of the open node, which must be an element. */
    method BuildAttribute(name: string, body: seq<Instruction>, focus: Focus) returns (r: Result<()>)
      requires Ready() && IsNode(docs, focus.node)
      modifies this
      ensures Ready() && Ran(old(S()), S(), r, NewAttribute(G(), name, body, focus, Here(old(S()))))
      decreases Remaining(), Unused(), Size(body) + 1, 0, 0
    {
      hide Body, One, UsedSets, Apply, ValidOracles, IsNode;
      ghost var s0 := S();
      StartsHere(s0, Limit(), s0.Open());
      SeenLifted(output, scopes);
      var expanded :- oracles.name(name, focus, Seen(scopes));
      var value :- CapturedText(body, focus);
      ghost var s1 := S();
      ghost var captured := InFragment(G(), body, focus, Here(s0)).value;
      EnvAfter(s0, s1, s0.Open(), captured.1);
      r := AddAttribute(expanded, value);
      KeptTwice(s0, s1, S(), s0.Open());
      if r.Ok? {
        CapturedThenPut(s0, s1, S(), captured, AttributeOnly(expanded, value));
      }
    }

    method AddAttribute(name: ExpandedName, value: string) returns (r: Result<()>)
      requires Ready()
      modifies this`output
      ensures Ready() && Ran(old(S()), S(), r, if Here(old(S())).inElement then Fine(Putting(Here(old(S())), AttributeOnly(name, value))) else Failed([]))
    {
      hide Body, One, UsedSets, Apply;
      NothingRuns(S(), Limit());
      hide ValidOracles, IsNode, Sound, Ran, Accounted;
      var target := insertion[|insertion| - 1];
      if output[target].kind != ElementResult {
        return Err;
      }
      AttributePut(S(), target, name, value, Limit());
      output := SetAttribute(output, target, name, value);
      return Ok(());
    }

    /** A literal result element: its attribute sets first, so that what is written on it wins. */
    method BuildLiteral(name: ExpandedName, uses: seq<string>, attributes: seq<LiteralAttribute>,
                        body: seq<Instruction>, focus: Focus) returns (r: Result<()>)
      requires Ready() && IsNode(docs, focus.node)
      modifies this
      ensures Ready() && Ran(old(S()), S(), r, NewElement(G(), name, uses, attributes, body, focus, Here(old(S()))))
      decreases Remaining(), Unused(), Size(body) + 1, 0, 0
    {
      hide Body, One, UsedSets, Apply, ValidOracles, IsNode;
      ghost var s0, env := S(), Here(S());
      var n := ElementNode(name);
      NodeCreated(s0, n, Limit());
      var created := New(n);
      ghost var s1 := S();
      var sets := UseLiteralSets(uses, created, focus);
      ghost var s2 := S();
      ghost var used := UsedSets(G(), uses, focus, EnvAt(s1, created));
      KeptInside(s0, s1, s2, s0.Open(), created);
      if sets.Err? {
        return Err;
      }
      StaysOpenable(s1, s2, created, created);
      EnvAfter(s1, s2, created, used.value);
      var written := WriteAttributes(created, attributes, focus);
      ghost var s3 := S();
      ghost var given := PuttingIf(EnvAt(s2, created), Written(G(), attributes, focus, EnvAt(s2, created)));
      RanTwice(s1, s2, s3, created, used.value, written, given);
      KeptInside(s0, s1, s3, s0.Open(), created);
      if written.Err? {
        return Err;
      }
      ghost var begun := used.value.Then(given.value);
      NodePlaced(s0, s1, s3, n, begun, Limit());
      Append(created);
      ghost var s4 := S();
      assert EnvAt(s4, created) == EnvAt(s2, created);
      r := Fill(created, body, focus);
      PlacedFilled(s0, s4, S(), s0.Open(), created, n, begun, r, Body(G(), body, focus, EnvAt(s4, created)));
    }

    /** The sets of a literal element are applied with it open, though it is not in the result yet. */
    method UseLiteralSets(uses: seq<string>, created: nat, focus: Focus) returns (r: Result<()>)
      requires Ready() && IsNode(docs, focus.node) && CanOpen(output, scopes, created) && output[created].kind == ElementResult
      modifies this
      ensures Ready() && RanAt(old(S()), S(), created, r, UsedSets(G(), uses, focus, EnvAt(old(S()), created)))
      decreases Remaining(), Unused(), 0, 0, 2
    {
      hide Body, One, Apply, ValidOracles, IsNode;
      ghost var s0 := S();
      NodePushed(s0, created, Limit());
      insertion := insertion + [created];
      r := UseAttributeSets(uses, created, focus);
      NodePopped(s0, created, S(), r, UsedSets(G(), uses, focus, EnvAt(s0, created)), Limit());
      insertion := insertion[..|insertion| - 1];
    }

    method WriteAttributes(element: nat, attributes: seq<LiteralAttribute>, focus: Focus) returns (r: Result<()>)
      requires Ready() && CanOpen(output, scopes, element)
      modifies this`output
      ensures Ready() && RanAt(old(S()), S(), element, r, PuttingIf(EnvAt(old(S()), element), Written(G(), attributes, focus, EnvAt(old(S()), element))))
    {
      hide Body, One, UsedSets, Apply;
      Opens(S(), Limit());
      hide ValidOracles, IsNode, Sound, Achieved, KeptAt, RanAt, SoFar;
      ghost var s0, env := S(), EnvAt(S(), element);
      ghost var whole := PuttingIf(env, Written(G(), attributes, focus, env));
      ghost var done := Quiet(env);
      assert attributes[0..] == attributes;
      NothingSoFar(s0, Limit(), element, whole);
      for i := 0 to |attributes|
        invariant Ready() && CanOpen(output, scopes, element) && done.scopes == env.scopes
        invariant SoFar(s0, S(), element, done, whole, PuttingIf(env, Written(G(), attributes[i..], focus, env)))
      {
        ghost var s1 := S();
        ghost var rest := Written(G(), attributes[i..], focus, env);
        assert attributes[i..][0] == attributes[i] && attributes[i..][1..] == attributes[i + 1..];
        SoFarAt(s0, s1, element, done, whole, PuttingIf(env, rest));
        SeenLifted(output, scopes);
        var expanded := oracles.text(attributes[i].value, focus, Seen(scopes));
        if expanded.Err? {
          FailedNow(s0, s1, element, done, whole);
          return Err;
        }
        ghost var after := Written(G(), attributes[i + 1..], focus, env);
        ghost var first := AttributeOnly(attributes[i].name, expanded.value);
        SetAttributeOn(element, attributes[i].name, expanded.value);
        PuttingThen(env, first, after);
        OneMore(s0, s1, S(), element, done, Ok(()), Fine(Putting(env, first)), whole, PuttingIf(env, rest), PuttingIf(env, after));
        done := done.Then(Putting(env, first));
      }
      AllDone(s0, S(), element, done, whole);
      return Ok(());
    }

    method SetAttributeOn(element: nat, name: ExpandedName, value: string)
      requires Ready() && CanOpen(output, scopes, element)
      modifies this`output
      ensures Ready() && CanOpen(output, scopes, element)
      ensures RanAt(old(S()), S(), element, Ok(()), Fine(Putting(EnvAt(old(S()), element), AttributeOnly(name, value))))
    {
      hide Body, One, UsedSets, Apply, ValidOracles, IsNode;
      AttributePut(S(), element, name, value, Limit());
      output := SetAttribute(output, element, name, value);
    }

    /** One set after the other; a name already in use ends the run. */
    method UseAttributeSets(names: seq<string>, target: nat, focus: Focus) returns (r: Result<()>)
      requires Ready() && IsNode(docs, focus.node) && CanOpen(output, scopes, target) && output[target].kind == ElementResult
      modifies this
      ensures Ready() && RanAt(old(S()), S(), target, r, UsedSets(G(), names, focus, EnvAt(old(S()), target)))
      decreases Remaining(), Unused(), 0, 0, 1
    {
      hide Body, One, Apply;
      Opens(S(), Limit());
      hide ValidOracles, IsNode, Sound, Achieved, KeptAt, RanAt, SoFar;
      ghost var s0, env := S(), EnvAt(S(), target);
      ghost var whole := UsedSets(G(), names, focus, env);
      ghost var done := Quiet(env);
      assert names[0..] == names;
      NothingSoFar(s0, Limit(), target, whole);
      for i := 0 to |names|
        invariant Ready() && CanOpen(output, scopes, target) && output[target].kind == ElementResult
        invariant SoFar(s0, S(), target, done, whole, UsedSets(G(), names[i..], focus, env.(scopes := done.scopes)))
      {
        ghost var s1 := S();
        ghost var rest := UsedSets(G(), names[i..], focus, env.(scopes := done.scopes));
        SoFarAt(s0, s1, target, done, whole, rest);
        assert names[i..][0] == names[i] && names[i..][1..] == names[i + 1..];
        var name := names[i];
        if name in chain || name !in sheet.attributeSets || sheet.attributeSets[name] == [] {
          FailedNow(s0, s1, target, done, whole);
          return Err;
        }
        var outcome := UseOneSet(name, target, focus);
        ghost var first := SetDeclarations(G(), sheet.attributeSets[name], focus, EnvAt(s1, target).(chain := s1.chain + [name]));
        ghost var after := if first.Fine? then UsedSets(G(), names[i + 1..], focus, env.(scopes := first.value.scopes)) else first;
        OneMore(s0, s1, S(), target, done, outcome, first, whole, rest, after);
        if outcome.Err? {
          return Err;
        }
        done := done.Then(first.value);
      }
      AllDone(s0, S(), target, done, whole);
      return Ok(());
    }

    /** One set, in use while its declarations are applied. */
    method UseOneSet(name: string, target: nat, focus: Focus) returns (r: Result<()>)
      requires Ready() && IsNode(docs, focus.node) && CanOpen(output, scopes, target) && output[target].kind == ElementResult
      requires name !in chain && name in sheet.attributeSets
      modifies this
      ensures Ready() && CanOpen(output, scopes, target) && output[target].kind == ElementResult
      ensures RanAt(old(S()), S(), target, r,
                    SetDeclarations(G(), sheet.attributeSets[name], focus, EnvAt(old(S()), target).(chain := old(chain) + [name])))
      decreases Remaining(), Unused(), 0, 0, 0
    {
      hide Body, One, UsedSets, Apply, ValidOracles, IsNode;
      ghost var s0 := S();
      ghost var unused := Unused();
      chain := chain + [name];
      assert Unused() < unused by {
        assert name in unused && name !in Unused();
      }
      r := ApplyAttributeSets(sheet.attributeSets[name], target, focus);
      chain := chain[..|chain| - 1];
      StaysOpenable(s0, S(), target, target);
      assert NodeKept(s0.output[target], output[target], true);
    }

    /** All declarations of a name, in the order of the list, each after the sets it uses. */
    method ApplyAttributeSets(sets: seq<AttributeSet>, target: nat, focus: Focus) returns (r: Result<()>)
      requires Ready() && IsNode(docs, focus.node) && CanOpen(output, scopes, target) && output[target].kind == ElementResult
      modifies this
      ensures Ready() && RanAt(old(S()), S(), target, r, SetDeclarations(G(), sets, focus, EnvAt(old(S()), target)))
      decreases Remaining(), Unused(), SetsSize(sets) + 1, 0, 1
    {
      hide Body, One, UsedSets, Apply;
      Opens(S(), Limit());
      hide ValidOracles, IsNode, Sound, Achieved, KeptAt, RanAt, SoFar;
      ghost var s0, env := S(), EnvAt(S(), target);
      ghost var whole := SetDeclarations(G(), sets, focus, env);
      ghost var done := Quiet(env);
      assert sets[0..] == sets;
      NothingSoFar(s0, Limit(), target, whole);
      for i := 0 to |sets|
        invariant Ready() && CanOpen(output, scopes, target) && output[target].kind == ElementResult
        invariant SoFar(s0, S(), target, done, whole, SetDeclarations(G(), sets[i..], focus, env.(scopes := done.scopes)))
      {
        ghost var s1 := S();
        ghost var rest := SetDeclarations(G(), sets[i..], focus, env.(scopes := done.scopes));
        SoFarAt(s0, s1, target, done, whole, rest);
        assert sets[i..][0] == sets[i] && sets[i..][1..] == sets[i + 1..];
        SizeOfSet(sets, i);
        var outcome := ApplyDeclaration(sets[i], target, focus);
        ghost var first := OneDeclaration(G(), sets[i], focus, EnvAt(s1, target));
        ghost var after := if first.Fine? then SetDeclarations(G(), sets[i + 1..], focus, env.(scopes := first.value.scopes)) else first;
        OneMore(s0, s1, S(), target, done, outcome, first, whole, rest, after);
        if outcome.Err? {
          return Err;
        }
        done := done.Then(first.value);
      }
      AllDone(s0, S(), target, done, whole);
      return Ok(());
    }

    method ApplyDeclaration(declaration: AttributeSet, target: nat, focus: Focus) returns (r: Result<()>)
      requires Ready() && IsNode(docs, focus.node) && CanOpen(output, scopes, target) && output[target].kind == ElementResult
      modifies this
      ensures Ready() && CanOpen(output, scopes, target) && output[target].kind == ElementResult
      ensures RanAt(old(S()), S(), target, r, OneDeclaration(G(), declaration, focus, EnvAt(old(S()), target)))
      decreases Remaining(), Unused(), Size(declaration.body) + 1, 0, 0
    {
      hide Body, One, UsedSets, Apply, ValidOracles, IsNode;
      ghost var s0 := S();
      var sets := UseAttributeSets(declaration.uses, target, focus);
      ghost var s1 := S();
      ghost var used := UsedSets(G(), declaration.uses, focus, EnvAt(s0, target));
      StaysOpenable(s0, s1, target, target);
      assert NodeKept(s0.output[target], output[target], true);
      if sets.Err? {
        return Err;
      }
      EnvAfter(s0, s1, target, used.value);
      r := Fill(target, declaration.body, focus);
      RanTwice(s0, s1, S(), target, used.value, r, Body(G(), declaration.body, focus, EnvAt(s1, target)));
      StaysOpenable(s1, S(), target, target);
      assert NodeKept(s1.output[target], output[target], true);
    }

    // --- Copying ----------------------------------------------------------------------------------------------

    /** A copy of the context node alone, which the body may fill. */
    method CopyNode(uses: seq<string>, body: seq<Instruction>, focus: Focus) returns (r: Result<()>)
      requires Ready() && IsNode(docs, focus.node)
      modifies this
      ensures Ready() && Ran(old(S()), S(), r, Copied(G(), uses, body, focus, Here(old(S()))))
      decreases Remaining(), Unused(), Size(body) + 1, 0, 1
    {
      hide Body, One, UsedSets, Apply, ValidOracles, IsNode;
      match Item(docs, focus.node) {
        case TreeItem(Root(_)) => r := RunBody(body, focus);
        case TreeItem(Element(name, _, _, _)) => r := OpenElement(name, uses, body, focus);
        case _ => r := CopyShallow(focus.node);
      }
    }

    /** Copying what has nothing under it. */
    method CopyShallow(n: Node) returns (r: Result<()>)
      requires Ready() && IsNode(docs, n) && !(Item(docs, n).TreeItem? && (Item(docs, n).tree.Root? || Item(docs, n).tree.Element?))
      modifies this`output
      ensures Ready() && Ran(old(S()), S(), r, PuttingIf(Here(old(S())), CopyOfNode(docs, n, Here(old(S())).inElement)))
    {
      hide Body, One, UsedSets, Apply;
      NothingRuns(S(), Limit());
      hide ValidOracles, IsNode, Sound, Ran, Accounted;
      match Item(docs, n) {
        case TreeItem(Text(value)) => AppendText(value);
        case TreeItem(Comment(value)) => AppendNew(CommentNode(value));
        case TreeItem(ProcessingInstruction(target, value)) => AppendNew(InstructionNode(target, value));
        case AttributeItem(a) =>
          r := AddAttribute(a.name, a.value);
          return;
        case NamespaceItem(_) =>
      }
      return Ok(());
    }

    /** An element with its attributes, appended to the open node. */
    method CopyStart(name: ExpandedName, attributes: seq<XmlAttribute>) returns (created: nat)
      requires Ready()
      modifies this`output
      ensures Ready() && Placed(old(S()), S(), old(S()).Open(), created, ElementNode(name),
                                Putting(Here(old(S())), Content(AttributeMap(attributes), [])))
    {
      hide ValidOracles, IsNode;
      ghost var s0 := S();
      var n := ElementNode(name);
      NodeCreated(s0, n, Limit());
      created := New(n);
      ghost var s1 := S();
      PutAll(created, attributes);
      NodePlaced(s0, s1, S(), n, Putting(EnvAt(s1, created), Content(AttributeMap(attributes), [])), Limit());
      Append(created);
    }

    method PutAll(element: nat, attributes: seq<XmlAttribute>)
      requires Ready() && CanOpen(output, scopes, element)
      modifies this`output
      ensures Ready() && RanAt(old(S()), S(), element, Ok(()), Fine(Putting(EnvAt(old(S()), element), Content(AttributeMap(attributes), []))))
    {
      hide Body, One, UsedSets, Apply;
      Opens(S(), Limit());
      hide ValidOracles, IsNode, Sound, Achieved, KeptAt, RanAt, SoFar;
      ghost var s0, env := S(), EnvAt(S(), element);
      ghost var whole := Fine(Putting(env, Content(AttributeMap(attributes), [])));
      ghost var done := Quiet(env);
      assert attributes[0..] == attributes;
      NothingSoFar(s0, Limit(), element, whole);
      for i := 0 to |attributes|
        invariant Ready() && CanOpen(output, scopes, element) && done.scopes == env.scopes
        invariant SoFar(s0, S(), element, done, whole, Fine(Putting(env, Content(AttributeMap(attributes[i..]), []))))
      {
        ghost var s1 := S();
        ghost var rest := Content(AttributeMap(attributes[i..]), []);
        assert attributes[i..][0] == attributes[i] && attributes[i..][1..] == attributes[i + 1..];
        SoFarAt(s0, s1, element, done, whole, Fine(Putting(env, rest)));
        ghost var after := Content(AttributeMap(attributes[i + 1..]), []);
        ghost var first := AttributeOnly(attributes[i].name, attributes[i].value);
        SetAttributeOn(element, attributes[i].name, attributes[i].value);
        PuttingThen(env, first, Ok(after));
        OneMore(s0, s1, S(), element, done, Ok(()), Fine(Putting(env, first)), whole, Fine(Putting(env, rest)), Fine(Putting(env, after)));
        done := done.Then(Putting(env, first));
      }
      AllDone(s0, S(), element, done, whole);
    }

    /** Copying a subtree of the source. */
    method CopyDeep(n: Node) returns (r: Result<()>)
      requires Ready() && IsNode(docs, n)
      modifies this`output, this`insertion
      ensures Ready() && Ran(old(S()), S(), r, PuttingIf(Here(old(S())), CopyOfNode(docs, n, Here(old(S())).inElement)))
      decreases Extent(docs, n), 2
    {
      hide Body, One, UsedSets, Apply, ValidOracles, IsNode;
      match Item(docs, n) {
        case TreeItem(Root(_)) => r := CopyChildren(n);
        case TreeItem(Element(name, _, attributes, _)) => r := CopyElement(n);
        case _ => r := CopyShallow(n);
      }
    }

    method CopyElement(n: Node) returns (r: Result<()>)
      requires Ready() && IsNode(docs, n) && Item(docs, n).TreeItem? && Item(docs, n).tree.Element?
      modifies this`output, this`insertion
      ensures Ready() && Ran(old(S()), S(), r, Fine(Putting(Here(old(S())), Content(map[], CopyOfTree(Item(docs, n).tree)))))
      decreases Extent(docs, n), 1
    {
      hide Body, One, UsedSets, Apply, ValidOracles, IsNode;
      var t := Item(docs, n).tree;
      ghost var s0, env := S(), Here(S());
      var created := CopyStart(t.name, t.attributes);
      ghost var s1 := S();
      ghost var begun := Putting(env, Content(AttributeMap(t.attributes), []));
      NodePushed(s1, created, Limit());
      insertion := insertion + [created];
      r := CopyChildren(n);
      ghost var inside := Fine(Putting(EnvAt(s1, created), Content(map[], CopyOfKids(t, 0))));
      NodePopped(s1, created, S(), r, inside, Limit());
      insertion := insertion[..|insertion| - 1];
      PlacedFilled(s0, s1, S(), s0.Open(), created, ElementNode(t.name), begun, r, inside);
      CopiedElement(t, env.scopes);
    }

    method CopyChildren(n: Node) returns (r: Result<()>)
      requires Ready() && IsNode(docs, n) && Item(docs, n).TreeItem?
      modifies this`output, this`insertion
      ensures Ready() && Ran(old(S()), S(), r, Fine(Putting(Here(old(S())), Content(map[], CopyOfKids(Item(docs, n).tree, 0)))))
      decreases Extent(docs, n), 0
    {
      hide Body, One, UsedSets, Apply;
      Opens(S(), Limit());
      hide ValidOracles, IsNode, Sound, Achieved, KeptAt, RanAt, SoFar;
      var t := Item(docs, n).tree;
      ghost var s0, open, env := S(), S().Open(), Here(S());
      ghost var whole := Fine(Putting(env, Content(map[], CopyOfKids(t, 0))));
      ghost var done := Quiet(env);
      ChildrenAreWithin(docs, n);
      var children := Children(docs, n);
      NothingSoFar(s0, Limit(), open, whole);
      for i := 0 to |children|
        invariant Ready() && done.scopes == env.scopes
        invariant SoFar(s0, S(), open, done, whole, Fine(Putting(env, Content(map[], CopyOfKids(t, i)))))
      {
        ghost var s1 := S();
        ghost var rest, after := Content(map[], CopyOfKids(t, i)), Content(map[], CopyOfKids(t, i + 1));
        assert children[i] in children;
        ChildItem(docs, n, i);
        SoFarHere(s0, s1, open, done, whole, Fine(Putting(env, rest)), Limit());
        var outcome := CopyDeep(children[i]);
        ghost var first := Content(map[], CopyOfTree(t.Kids()[i]));
        PuttingThen(env, first, Ok(after));
        OneMore(s0, s1, S(), open, done, outcome, Fine(Putting(env, first)), whole, Fine(Putting(env, rest)), Fine(Putting(env, after)));
        if outcome.Err? {
          return Err;
        }
        done := done.Then(Putting(env, first));
      }
      AllDone(s0, S(), open, done, whole);
      return Ok(());
    }

    /** What is copied depends on the value: the trees of a fragment, the nodes of a set, or the text of anything else. */
    method CopySelected(select: string, variable: Option<string>, focus: Focus) returns (r: Result<()>)
      requires Ready() && IsNode(docs, focus.node)
      modifies this`output, this`insertion
      ensures Ready() && Ran(old(S()), S(), r, CopiedValue(G(), select, variable, focus, Here(old(S()))))
    {
      hide Body, One, UsedSets, Apply;
      NothingRuns(S(), Limit());
      hide ValidOracles, IsNode, Sound, Ran, Accounted;
      if variable.Some? {
        FragmentLifted(output, scopes, variable.value);
        if FragmentNamed(scopes, variable.value).Some? {
          ClearOfNamed(output, scopes, variable.value, S().Open());
          CopyFragment(FragmentNamed(scopes, variable.value).value);
          return Ok(());
        }
      }
      SeenLifted(output, scopes);
      var value :- oracles.evaluate(select, focus, Seen(scopes));
      NodesAreThere(G(), select, focus, Seen(scopes));
      if value.NodeSet? {
        r := CopyNodes(value.nodes);
      } else {
        var text :- oracles.text(select, focus, Seen(scopes));
        AppendText(text);
        r := Ok(());
      }
    }

    method CopyNodes(nodes: seq<Node>) returns (r: Result<()>)
      requires Ready() && AllNodes(docs, nodes)
      modifies this`output, this`insertion
      ensures Ready() && Ran(old(S()), S(), r, PuttingIf(Here(old(S())), CopyOfAll(docs, nodes, Here(old(S())).inElement)))
    {
      hide Body, One, UsedSets, Apply;
      Opens(S(), Limit());
      hide ValidOracles, IsNode, Sound, Achieved, KeptAt, RanAt, SoFar;
      ghost var s0, open, env := S(), S().Open(), Here(S());
      ghost var whole := PuttingIf(env, CopyOfAll(docs, nodes, env.inElement));
      ghost var done := Quiet(env);
      assert nodes[0..] == nodes;
      NothingSoFar(s0, Limit(), open, whole);
      for i := 0 to |nodes|
        invariant Ready() && done.scopes == env.scopes
        invariant SoFar(s0, S(), open, done, whole, PuttingIf(env, CopyOfAll(docs, nodes[i..], env.inElement)))
      {
        ghost var s1 := S();
        ghost var rest := PuttingIf(env, CopyOfAll(docs, nodes[i..], env.inElement));
        assert nodes[i] in nodes;
        assert nodes[i..][0] == nodes[i] && nodes[i..][1..] == nodes[i + 1..];
        SoFarHere(s0, s1, open, done, whole, rest, Limit());
        var outcome := CopyDeep(nodes[i]);
        ghost var first := CopyOfNode(docs, nodes[i], env.inElement);
        ghost var after := CopyOfAll(docs, nodes[i + 1..], env.inElement);
        if first.Ok? {
          PuttingThen(env, first.value, after);
        }
        OneMore(s0, s1, S(), open, done, outcome, PuttingIf(env, first), whole, rest, PuttingIf(env, after));
        if outcome.Err? {
          return Err;
        }
        done := done.Then(Putting(env, first.value));
      }
      AllDone(s0, S(), open, done, whole);
      return Ok(());
    }

    /** Copies what a variable's content built; both trees are the engine's own. */
    method CopyFragment(fragment: nat)
      requires Ready() && fragment < |output| && Avoids(output, fragment, S().Open())
      modifies this`output
      ensures Ready() && Ran(old(S()), S(), Ok(()), Fine(Putting(Here(old(S())), Content(map[], TreeOf(old(output), fragment).children))))
    {
      hide Body, One, UsedSets, Apply;
      Opens(S(), Limit());
      hide ValidOracles, IsNode, Sound, Achieved, KeptAt, RanAt, SoFar;
      ghost var s0, open, env := S(), S().Open(), Here(S());
      ghost var trees := TreeOf(output, fragment).children;
      ghost var whole := Fine(Putting(env, Content(map[], trees)));
      ghost var done := Quiet(env);
      var children := output[fragment].children;
      assert trees[0..] == trees && |trees| == |children|;
      hide TreeOf, Avoids;
      NothingSoFar(s0, Limit(), open, whole);
      for i := 0 to |children|
        invariant Ready() && done.scopes == env.scopes
        invariant SoFar(s0, S(), open, done, whole, Fine(Putting(env, Content(map[], trees[i..]))))
      {
        ghost var s1 := S();
        ghost var rest := Fine(Putting(env, Content(map[], trees[i..])));
        SoFarHere(s0, s1, open, done, whole, rest, Limit());
        ChildStays(s0, s1, open, done, whole, rest, fragment, i);
        CopyBuilt(children[i]);
        ChildJoins(s0, s1, S(), open, env, done, trees, i, whole);
        done := done.Then(Putting(env, Child(trees[i])));
      }
      assert trees[|children|..] == [];
      AllDone(s0, S(), open, done, whole);
    }

    /** A copy of one result tree, put into the open node. */
    method CopyBuilt(n: nat)
      requires Ready() && n < |output|
      modifies this`output
      ensures Ready() && Ran(old(S()), S(), Ok(()), Fine(Putting(Here(old(S())), Child(TreeOf(old(output), n)))))
    {
      hide Body, One, UsedSets, Apply, ValidOracles, IsNode;
      ghost var s0 := S();
      AllClosed(output);
      var copy := Clone(n, |output|);
      ghost var s1 := S();
      CopyPut(s0, s1, copy, TreeOf(s0.output, n), Limit());
      Append(copy);
    }

    /** A detached copy of a node of the result, and of everything under it; what was there stays as it was. */
    method Clone(n: nat, ghost limit: nat) returns (copy: nat)
      requires Ready() && n < limit <= |output| && Closed(output, limit)
      modifies this`output
      ensures Ready() && S() == old(S()).(output := output) && old(output) <= output
      ensures copy == |old(output)| < |output| && output[copy].parent.None?
      ensures TreeOf(output, copy) == TreeOf(old(output), n)
      decreases limit - n
    {
      hide ValidOracles, IsNode;
      ghost var s0 := S();
      var children := output[n].children;
      assert ClosedAt(output, n, limit) && HoldsItsChildren(output, n);
      ghost var bare := output[n].(parent := None, children := []);
      NodeCreated(s0, bare, Limit());
      copy := New(output[n].(parent := None, children := []));
      WithThen(Leaf(bare), EMPTY, EMPTY);
      for i := 0 to |children|
        invariant Ready() && S() == s0.(output := output) && |s0.output| == copy < |output| && s0.output <= output
        invariant output[copy].parent.None? && output[copy].kind == bare.kind
        invariant TreeOf(output, copy) == Leaf(bare).With(Content(map[], TreeOf(s0.output, n).children[..i]))
      {
        ghost var s1 := S();
        assert children[i] in children;
        ClosedStays(s0.output, output, limit);
        var part := Clone(children[i], limit);
        ClonedPart(s0, s1, S(), n, i, copy, part, bare, Limit());
        output := AppendChild(output, copy, part);
      }
      WholeClone(s0.output, n);
    }

    // --- A whole run ------------------------------------------------------------------------------------------

    constructor (docs: Documents, sheet: Stylesheet, oracles: Oracles, maxDepth: nat, spare: nat)
      requires Context(docs, sheet, oracles, maxDepth, spare).Valid()
      ensures Ready() && G() == Context(docs, sheet, oracles, maxDepth, spare)
      ensures S() == State([Fragment()], [0], [], [], [], None, 0, 0)
    {
      hide ValidOracles, IsNode;
      this.docs, this.sheet, this.oracles, this.maxDepth, this.spare := docs, sheet, oracles, maxDepth, spare;
      output, insertion, scopes, messages, chain := [Fragment()], [0], [], [], [];
      currentRule, depth, peak, log := None, 0, 0, [];
      new;
      assert HoldsItsChildren(output, 0) && HasItsParent(output, 0);
    }

    /** A top-level declaration's value: a parameter the caller supplied does not evaluate its default. */
    method GlobalValue(variable: GlobalVariable, node: Node, supplied: map<string, string>)
      returns (r: Result<(Value, Option<nat>)>)
      requires Ready() && BeforeRules(S()) && variable in sheet.variables && IsNode(docs, node)
      modifies this
      ensures Ready()
      ensures DeclaredAs(old(S()), S(), variable.declaration.name, r,
                         GlobalBinding(G(), variable, node, supplied, LiftedScope(old(output), old(scopes)[0])))
    {
      hide Body, One, UsedSets, Apply, ValidOracles, IsNode;
      GlobalsHere(S());
      StartsHere(S(), Limit(), 0);
      if variable.isParameter && variable.declaration.name in supplied {
        return Ok((String(supplied[variable.declaration.name]), None));
      }
      r := DeclaredValue(variable.declaration, Focus(node, 1, 1));
    }

    /** Binds one name in the global scope, in place of whatever it was bound to there. */
    method BindGlobal(variable: GlobalVariable, node: Node, supplied: map<string, string>) returns (r: Result<()>)
      requires Ready() && BeforeRules(S()) && variable in sheet.variables && IsNode(docs, node)
      modifies this
      ensures Ready() && GlobalDone(old(S()), S(), r, GlobalBinding(G(), variable, node, supplied, LiftedScope(old(output), old(scopes)[0])))
      ensures r.Ok? ==> KeepsNames(old(S()), S()) && Binds(scopes[0], variable.declaration.name)
    {
      hide Body, One, UsedSets, Apply;
      GlobalsHere(S());
      hide ValidOracles, IsNode, Sound, Achieved;
      ghost var s0 := S();
      ghost var m := GlobalBinding(G(), variable, node, supplied, LiftedScope(output, scopes[0]));
      GlobalPutsNothing(G(), variable, node, supplied, LiftedScope(output, scopes[0]));
      var value :- GlobalValue(variable, node, supplied);
      GlobalRebound(s0, S(), variable.declaration.name, value, m.value, Limit());
      var binding := Binding(variable.declaration.name, value.0, value.1);
      forall name | name == binding.name || Binds(s0.scopes[0], name) ensures Binds(Without(scopes[0], binding.name) + [binding], name) {
        ReboundKeepsNames(s0.scopes[0], scopes[0], binding, name);
      }
      scopes := [Without(scopes[0], variable.declaration.name) + [binding]];
      return Ok(());
    }

    /** The global scope, declaration by declaration; in the end every declared name is in it. */
    method BindGlobals(node: Node, supplied: map<string, string>) returns (r: Result<()>)
      requires Ready() && S() == State([Fragment()], [0], [], [], [], None, 0, 0) && IsNode(docs, node)
      modifies this
      ensures Ready()
      ensures var m := Globals(G(), 0, node, supplied, []);
              && (r.Ok? <==> m.Fine?) && (m.Failed? ==> log == m.log)
              && (r.Ok? ==> BeforeRules(S()) && ScopeExists(scopes[0], |output|)
                            && LiftedScope(output, scopes[0]) == m.value.0 && log == m.value.1)
      ensures r.Ok? ==> BindsDeclared(S(), sheet.variables, |sheet.variables|)
    {
      hide Body, One, UsedSets, Apply;
      ghost var whole := Globals(G(), 0, node, supplied, []);
      scopes := [[]];
      NoGlobalsYet(G(), node, supplied, S());
      assert BindsDeclared(S(), sheet.variables, 0);
      hide ValidOracles, IsNode, Sound, Binds, NameDeclared, BindsDeclared, KeepsNames, GlobalDone, BeforeRules;
      for i := 0 to |sheet.variables|
        invariant Ready() && GlobalsSoFar(G(), node, supplied, S(), i, whole) && BindsDeclared(S(), sheet.variables, i)
      {
        ghost var s1 := S();
        if !IsShadowed(sheet.variables, sheet.variables[i]) {
          r := BindGlobal(sheet.variables[i], node, supplied);
          OneMoreGlobal(G(), node, supplied, s1, S(), i, r, whole);
          if r.Err? {
            return;
          }
        }
        OneMoreBound(s1, S(), sheet.variables, i);
      }
      return Ok(());
    }

    /**
     Transforms a source: binds the global variables, then applies the rule for the starting node. The
     result is exactly what the stylesheet means.
     */
    static method Transform(docs: Documents, sheet: Stylesheet, oracles: Oracles, maxDepth: nat, spare: nat, node: Node,
                            supplied: map<string, string>)
      returns (r: Result<(ResultNodes, seq<string>)>, ghost peak: nat)
      requires Context(docs, sheet, oracles, maxDepth, spare).Valid() && IsNode(docs, node)
      ensures r.Ok? <==> Meaning(Context(docs, sheet, oracles, maxDepth, spare), node, supplied).Fine?
      ensures r.Ok? ==> var m := Meaning(Context(docs, sheet, oracles, maxDepth, spare), node, supplied);
                        && r.value.0 != [] && WellFormed(r.value.0) && TreeOf(r.value.0, 0) == m.value.0
                        && r.value.1 == Messages(m.value.1)
      ensures peak == Deepest(LogOfRun(Meaning(Context(docs, sheet, oracles, maxDepth, spare), node, supplied)))
    {
      hide Body, One, UsedSets, Apply, ValidOracles, IsNode;
      var engine := new Engine(docs, sheet, oracles, maxDepth, spare);
      var bound := engine.BindGlobals(node, supplied);
      if bound.Err? {
        return Err, engine.peak;
      }
      ghost var s1 := engine.S();
      GlobalsHere(s1);
      var outcome := engine.ApplyRules(Focus(node, 1, 1), None);
      if outcome.Err? {
        return Err, engine.peak;
      }
      return Ok((engine.output, engine.messages)), engine.peak;
    }
  }
}
