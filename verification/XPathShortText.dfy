/**
 The shortest spelling as text: what somebody writing an expression by hand would type for a tree.
 Its tokens are those of the spelling in tokens, so that parsing it gives the tree back.

 The names of axes, operators and node types stand here a second time, so that it does not take the
 printer and the tokenizer merely to agree with each other.
 */
module XPathShortText {
  import opened Wrappers
  import opened Strings
  import opened XPathAst
  import opened XPathLexer
  import opened XPathPrinter
  import opened XPathSpelling
  import opened XPathParser
  import opened XPathGrammar

  function OperatorText(op: BinaryOp): string {
    match op
    case Or => " or "
    case And => " and "
    case Equal => " = "
    case NotEqual => " != "
    case Less => " < "
    case LessEqual => " <= "
    case Greater => " > "
    case GreaterEqual => " >= "
    case Add => " + "
    case Subtract => " - "
    case Multiply => " * "
    case Divide => " div "
    case Modulo => " mod "
    case Union => " | "
  }

  /** Nothing for the child axis, a sign for the attribute axis, and for any other its name. */
  function AxisText(axis: Axis): string {
    match axis
    case Ancestor => "ancestor::"
    case AncestorOrSelf => "ancestor-or-self::"
    case Attribute => "@"
    case Child => ""
    case Descendant => "descendant::"
    case DescendantOrSelf => "descendant-or-self::"
    case Following => "following::"
    case FollowingSibling => "following-sibling::"
    case Namespace => "namespace::"
    case Parent => "parent::"
    case Preceding => "preceding::"
    case PrecedingSibling => "preceding-sibling::"
    case SelfAxis => "self::"
  }

  function TestText(test: NodeTest): string {
    match test
    case NamedTest(AnyName) => "*"
    case NamedTest(InNamespace(prefix)) => prefix + ":*"
    case NamedTest(QualifiedName(Some(prefix), local)) => prefix + ":" + local
    case NamedTest(QualifiedName(None, local)) => local
    case AnyNodeTest => "node()"
    case TextTest => "text()"
    case CommentTest => "comment()"
    case ProcessingInstructionTest(None) => "processing-instruction()"
    case ProcessingInstructionTest(Some(target)) => "processing-instruction(" + PrintLiteral(target) + ")"
  }

  function ShortAt(e: Expr, level: nat): string
    decreases e, 1
  {
    if Strength(e) < level then "(" + Short(e) + ")" else Short(e)
  }

  function Short(e: Expr): string
    decreases e, 0
  {
    match e
    case Binary(op, left, right) => ShortAt(left, StrengthOf(op)) + OperatorText(op) + ShortAt(right, StrengthOf(op) + 1)
    case Negate(operand) => "-" + ShortAt(operand, UNARY)
    case PathExpr(path) => ShortPath(path)
    case FilterExpr(filtered, predicates) => ShortAt(filtered, PRIMARY) + ShortPredicates(predicates)
    case Literal(text) => PrintLiteral(text)
    case Number(numeral) => PrintNumeral(numeral)
    case Variable(prefix, local) => "$" + PrintQName(prefix, local)
    case Function(prefix, local, arguments) => PrintQName(prefix, local) + "(" + ShortArguments(arguments) + ")"
  }

  function ShortArguments(arguments: seq<Expr>): string {
    if arguments == [] then ""
    else if |arguments| == 1 then Short(arguments[0])
    else Short(arguments[0]) + ", " + ShortArguments(arguments[1..])
  }

  function ShortPredicates(predicates: seq<Expr>): string {
    if predicates == [] then "" else "[" + Short(predicates[0]) + "]" + ShortPredicates(predicates[1..])
  }

  function ShortStep(step: Step): string {
    if step == HERE then "."
    else if step == ABOVE then ".."
    else AxisText(step.axis) + TestText(step.test) + ShortPredicates(step.predicates)
  }

  function ShortSlashed(steps: seq<Step>): string {
    if steps == [] then ""
    else if |steps| > 1 && steps[0] == BELOW then "//" + ShortStep(steps[1]) + ShortSlashed(steps[2..])
    else "/" + ShortStep(steps[0]) + ShortSlashed(steps[1..])
  }

  function ShortPath(path: Path): string {
    match path.start
    case RootStart => if path.steps == [] then "/" else ShortSlashed(path.steps)
    case ContextStart => if path.steps == [] then "" else ShortStep(path.steps[0]) + ShortSlashed(path.steps[1..])
    case ExprStart(e) => ShortAt(e, FILTER) + ShortSlashed(path.steps)
  }

  // --- Its tokens -----------------------------------------------------------------------------------------

  lemma OperatorTexts(op: BinaryOp)
    ensures OperatorText(op) == " " + Symbol(op) + " "
  {
  }

  lemma TestTexts(test: NodeTest)
    ensures TestText(test) == PrintTest(test)
  {
  }

  lemma LexesAxisText(axis: Axis, previous: Option<Token>, rest: string)
    requires PrecedesOperand(previous)
    ensures Lexes(AxisText(axis), previous, AxisSpelled(axis), rest)
    ensures PrecedesOperand(LastOf(AxisSpelled(axis), previous))
  {
    hide Lexes;
    match axis
    case Child => LexesNothing(previous, rest);
    case Attribute => LexesBracket('@', previous, rest);
    case _ =>
      LexesAxis(axis, previous, "::" + rest);
      LexesColons(Some(AxisToken(axis)), rest);
      LexesBoth(AxisName(axis), "::", previous, [AxisToken(axis)], [ColonColon], rest);
      assert AxisText(axis) == AxisName(axis) + "::";
      assert AxisSpelled(axis) == [AxisToken(axis)] + [ColonColon];
  }

  lemma LexesDot(previous: Option<Token>, rest: string)
    requires EndsToken(rest)
    ensures IsRead(".", previous, [Dot], rest)
  {
    var s := "." + rest;
    assert s[0] == '.' && (|s| > 1 ==> s[1] == rest[0]);
    if rest != [] {
      EndsNames(rest);
    }
    assert PairAt(s).None?;
    LexesOne(".", previous, Dot, rest);
  }

  lemma LexesDots(previous: Option<Token>, rest: string)
    ensures IsRead("..", previous, [DotDot], rest)
  {
    assert (".." + rest)[..2] == "..";
    LexesOne("..", previous, DotDot, rest);
  }

  lemma LexesSlashes(previous: Option<Token>, rest: string)
    ensures Lexes("//", previous, [DoubleSlash], rest)
  {
    assert ("//" + rest)[..2] == "//";
    LexesOne("//", previous, DoubleSlash, rest);
  }

  lemma {:induction false} LexesShortPredicates(predicates: seq<Expr>, previous: Option<Token>, rest: string)
    requires (forall p | p in predicates :: IsCanonical(p)) && EndsToken(rest)
    ensures Lexes(ShortPredicates(predicates), previous, PredicatesSpelled(predicates), rest)
    ensures predicates != [] ==> IsRead(ShortPredicates(predicates), previous, PredicatesSpelled(predicates), rest)
    ensures EndsToken(ShortPredicates(predicates) + rest)
    decreases predicates
  {
    hide Lexes;
    if predicates == [] {
      LexesNothing(previous, rest);
      assert ShortPredicates(predicates) + rest == rest;
    } else {
      var first, more := Short(predicates[0]), ShortPredicates(predicates[1..]);
      var head, tail := [LeftBracket] + Bare(predicates[0]) + [RightBracket], PredicatesSpelled(predicates[1..]);
      assert EndsToken("]" + (more + rest));
      LexesShort(predicates[0], Some(LeftBracket), "]" + (more + rest));
      LexesShortPredicates(predicates[1..], Some(RightBracket), rest);
      hide Short, Bare, IsCanonical;
      LexesEnclosed('[', ']', first, previous, Bare(predicates[0]), more + rest);
      ThenMore("[" + first + "]", more, previous, head, tail, rest);
    }
  }

  lemma {:induction false} LexesShortStep(step: Step, previous: Option<Token>, rest: string)
    requires IsCanonicalStep(step) && PrecedesOperand(previous) && EndsToken(rest)
    ensures IsRead(ShortStep(step), previous, StepSpelled(step), rest)
    decreases step
  {
    hide Lexes;
    if step == HERE {
      LexesDot(previous, rest);
    } else if step == ABOVE {
      LexesDots(previous, rest);
    } else {
      var axis, test, predicates := AxisText(step.axis), TestText(step.test), ShortPredicates(step.predicates);
      var ta, tt, tp := AxisSpelled(step.axis), TestTokens(step.test), PredicatesSpelled(step.predicates);
      var afterTest := predicates + rest;
      LexesShortPredicates(step.predicates, LastOf(ta + tt, previous), rest);
      LexesAxisText(step.axis, previous, test + afterTest);
      TestTexts(step.test);
      LexesTest(step.test, LastOf(ta, previous), afterTest);
      IsReadThen(axis, test, previous, ta, tt, afterTest);
      LexesBoth(axis + test, predicates, previous, ta + tt, tp, rest);
      assert tp == [] ==> ta + tt + tp == ta + tt;
    }
  }

  /** No step's text begins with a slash. */
  lemma StepBegins(step: Step, rest: string)
    requires IsCanonicalStep(step)
    ensures var s := ShortStep(step) + rest; s != [] && s[0] != '/'
  {
  }

  lemma SlashedEnds(steps: seq<Step>, rest: string)
    requires EndsToken(rest)
    ensures EndsToken(ShortSlashed(steps) + rest)
  {
    hide ShortStep;
    if steps == [] {
      assert ShortSlashed(steps) + rest == rest;
    } else {
      assert ShortSlashed(steps)[0] == '/';
    }
  }

  /** A separator, the step after it, and the rest of the steps. */
  lemma {:induction false} LexesShortSlashed(steps: seq<Step>, previous: Option<Token>, rest: string)
    requires (forall step | step in steps :: IsCanonicalStep(step)) && EndsToken(rest)
    ensures Lexes(ShortSlashed(steps), previous, Slashed(steps), rest)
    ensures steps != [] ==> IsRead(ShortSlashed(steps), previous, Slashed(steps), rest)
    decreases steps
  {
    hide Lexes, ShortStep, StepSpelled, IsCanonicalStep;
    if steps == [] {
      LexesNothing(previous, rest);
    } else {
      var doubled := |steps| > 1 && steps[0] == BELOW;
      var separator, token := if doubled then "//" else "/", if doubled then DoubleSlash else Slash;
      var k := if doubled then 1 else 0;
      var first, more := ShortStep(steps[k]), ShortSlashed(steps[k + 1..]);
      var tf, tm := StepSpelled(steps[k]), Slashed(steps[k + 1..]);
      SlashedEnds(steps[k + 1..], rest);
      StepBegins(steps[k], more + rest);
      if doubled {
        LexesSlashes(previous, first + (more + rest));
      } else {
        LexesSlash(previous, first + (more + rest));
      }
      LexesShortStep(steps[k], Some(token), more + rest);
      IsReadThen(separator, first, previous, [token], tf, more + rest);
      LexesShortSlashed(steps[k + 1..], LastOf([token] + tf, previous), rest);
      ThenMore(separator + first, more, previous, [token] + tf, tm, rest);
    }
  }

  /** More may be nothing, and then what came before it ends the text. */
  lemma ThenMore(a: string, b: string, previous: Option<Token>, ta: seq<Token>, tb: seq<Token>, rest: string)
    requires IsRead(a, previous, ta, b + rest) && Lexes(b, LastOf(ta, previous), tb, rest)
    requires tb == [] || IsRead(b, LastOf(ta, previous), tb, rest)
    ensures IsRead(a + b, previous, ta + tb, rest)
  {
    LexesBoth(a, b, previous, ta, tb, rest);
    if tb == [] {
      assert ta + tb == ta;
    }
  }

  lemma {:induction false} LexesShortArguments(arguments: seq<Expr>, previous: Option<Token>, rest: string)
    requires (forall a | a in arguments :: IsCanonical(a)) && PrecedesOperand(previous)
    requires rest != [] && rest[0] == ')'
    ensures Lexes(ShortArguments(arguments), previous, ArgumentsSpelled(arguments), rest)
    decreases arguments
  {
    if arguments == [] {
      LexesNothing(previous, rest);
    } else if |arguments| == 1 {
      LexesShort(arguments[0], previous, rest);
    } else {
      var first, more := Short(arguments[0]), ShortArguments(arguments[1..]);
      assert EndsToken(", " + (more + rest));
      LexesShort(arguments[0], previous, ", " + (more + rest));
      hide Lexes;
      LexesBracket(',', LastOf(Bare(arguments[0]), previous), " " + (more + rest));
      LexesSpace(Some(Comma), more + rest);
      LexesBoth(",", " ", LastOf(Bare(arguments[0]), previous), [Comma], [], more + rest);
      assert ", " == "," + " " && [Comma] + [] == [Comma];
      LexesBoth(first, ", ", previous, Bare(arguments[0]), [Comma], more + rest);
      LexesShortArguments(arguments[1..], Some(Comma), rest);
      LexesBoth(first + ", ", more, previous, Bare(arguments[0]) + [Comma], ArgumentsSpelled(arguments[1..]), rest);
    }
  }

  lemma {:induction false} LexesShortAt(e: Expr, level: nat, previous: Option<Token>, rest: string)
    requires IsCanonical(e) && PrecedesOperand(previous) && EndsToken(rest)
    ensures IsRead(ShortAt(e, level), previous, Spelled(e, level), rest)
    decreases e, 1
  {
    if Strength(e) < level {
      CloseEndsToken(rest);
      LexesShort(e, Some(LeftParen), ")" + rest);
      hide Lexes, Short, Bare;
      LexesEnclosed('(', ')', Short(e), previous, Bare(e), rest);
    } else {
      LexesShort(e, previous, rest);
    }
  }

  /** The text of the shortest spelling is read as its tokens, wherever an operand may stand. */
  lemma {:induction false} LexesShort(e: Expr, previous: Option<Token>, rest: string)
    requires IsCanonical(e) && PrecedesOperand(previous) && EndsToken(rest)
    requires IsRoot(e) ==> rest == [] || rest[0] != '/'
    ensures Lexes(Short(e), previous, Bare(e), rest)
    ensures !IsRoot(e) ==> IsRead(Short(e), previous, Bare(e), rest)
    decreases e, 0
  {
    hide Lexes;
    match e
    case Binary(_, _, _) => LexesShortBinary(e, previous, rest);
    case Negate(_) => LexesShortNegation(e, previous, rest);
    case PathExpr(path) => LexesShortPath(path, previous, rest);
    case FilterExpr(_, _) => LexesShortFilter(e, previous, rest);
    case Literal(text) => LexesLiteral(text, previous, rest);
    case Number(numeral) => LexesNumber(numeral, previous, rest);
    case Variable(prefix, local) => LexesVariable(prefix, local, previous, rest);
    case Function(_, _, _) => LexesShortFunction(e, previous, rest);
  }

  lemma {:induction false} LexesShortNegation(e: Expr, previous: Option<Token>, rest: string)
    requires e.Negate? && IsCanonical(e) && PrecedesOperand(previous) && EndsToken(rest)
    ensures IsRead(Short(e), previous, Bare(e), rest)
    decreases e, 0, 0
  {
    hide Lexes;
    var operand := ShortAt(e.operand, UNARY);
    LexesBracket('-', previous, operand + rest);
    LexesShortAt(e.operand, UNARY, Some(MinusToken), rest);
    IsReadThen("-", operand, previous, [MinusToken], Spelled(e.operand, UNARY), rest);
  }

  lemma {:induction false} LexesShortFilter(e: Expr, previous: Option<Token>, rest: string)
    requires e.FilterExpr? && IsCanonical(e) && PrecedesOperand(previous) && EndsToken(rest)
    ensures IsRead(Short(e), previous, Bare(e), rest)
    decreases e, 0, 0
  {
    hide Lexes;
    var head, tail := ShortAt(e.filtered, PRIMARY), ShortPredicates(e.predicates);
    var th, tt := Spelled(e.filtered, PRIMARY), PredicatesSpelled(e.predicates);
    LexesShortPredicates(e.predicates, LastOf(th, previous), rest);
    LexesShortAt(e.filtered, PRIMARY, previous, tail + rest);
    IsReadThen(head, tail, previous, th, tt, rest);
  }

  lemma {:induction false} LexesShortBinary(e: Expr, previous: Option<Token>, rest: string)
    requires e.Binary? && IsCanonical(e) && PrecedesOperand(previous) && EndsToken(rest)
    ensures IsRead(Short(e), previous, Bare(e), rest)
    decreases e, 0, 0
  {
    hide Lexes;
    var level := StrengthOf(e.op);
    var left, op, right := ShortAt(e.left, level), OperatorText(e.op), ShortAt(e.right, level + 1);
    var tl, tr := Spelled(e.left, level), Spelled(e.right, level + 1);
    OperatorTexts(e.op);
    OperatorEndsToken(e.op, right + rest);
    assert op + (right + rest) == " " + Symbol(e.op) + " " + (right + rest);
    LexesShortAt(e.left, level, previous, op + (right + rest));
    LexesOperator(e.op, LastOf(tl, previous), right + rest);
    OperatorPrecedesOperand(e.op);
    LexesShortAt(e.right, level + 1, Some(OperatorToken(e.op)), rest);
    LexesBoth(left, op, previous, tl, [OperatorToken(e.op)], right + rest);
    IsReadThen(left + op, right, previous, tl + [OperatorToken(e.op)], tr, rest);
  }

  lemma {:induction false} LexesShortFunction(e: Expr, previous: Option<Token>, rest: string)
    requires e.Function? && IsCanonical(e) && PrecedesOperand(previous) && EndsToken(rest)
    ensures IsRead(Short(e), previous, Bare(e), rest)
    decreases e, 0, 0
  {
    hide Lexes;
    var name, token := PrintQName(e.prefix, e.local), FunctionToken(e.prefix, e.local);
    var inside, ts := ShortArguments(e.arguments), ArgumentsSpelled(e.arguments);
    CloseEndsToken(rest);
    LexesShortArguments(e.arguments, Some(LeftParen), ")" + rest);
    CallTexts(e);
    hide Short, Bare, ShortArguments, ArgumentsSpelled, PrintQName;
    LexesEnclosed('(', ')', inside, Some(token), ts, rest);
    LexesCalled(e.prefix, e.local, previous, ("(" + inside + ")") + rest);
    IsReadThen(name, "(" + inside + ")", previous, [token], [LeftParen] + ts + [RightParen], rest);
  }

  lemma CallTexts(e: Expr)
    requires e.Function?
    ensures Short(e) == PrintQName(e.prefix, e.local) + ("(" + ShortArguments(e.arguments) + ")")
    ensures Bare(e) == [FunctionToken(e.prefix, e.local)] + ([LeftParen] + ArgumentsSpelled(e.arguments) + [RightParen])
  {
  }

  lemma {:induction false} LexesShortPath(path: Path, previous: Option<Token>, rest: string)
    requires IsCanonical(PathExpr(path)) && PrecedesOperand(previous) && EndsToken(rest)
    requires path.steps == [] ==> rest == [] || rest[0] != '/'
    ensures Lexes(ShortPath(path), previous, PathSpelled(path), rest)
    ensures path.steps != [] ==> IsRead(ShortPath(path), previous, PathSpelled(path), rest)
    decreases path
  {
    hide Lexes;
    var steps := path.steps;
    if steps == [] {
      LexesSlash(previous, rest);
    } else {
      match path.start
      case RootStart => LexesShortSlashed(steps, previous, rest);
      case ContextStart =>
        var first, ts := ShortStep(steps[0]), StepSpelled(steps[0]);
        SlashedEnds(steps[1..], rest);
        LexesShortStep(steps[0], previous, ShortSlashed(steps[1..]) + rest);
        LexesShortSlashed(steps[1..], LastOf(ts, previous), rest);
        ThenMore(first, ShortSlashed(steps[1..]), previous, ts, Slashed(steps[1..]), rest);
      case ExprStart(e) =>
        var ts := Spelled(e, FILTER);
        SlashedEnds(steps, rest);
        LexesShortAt(e, FILTER, previous, ShortSlashed(steps) + rest);
        LexesShortSlashed(steps, LastOf(ts, previous), rest);
        IsReadThen(ShortAt(e, FILTER), ShortSlashed(steps), previous, ts, Slashed(steps), rest);
    }
  }

  /** Written as shortly as the grammar allows, a tree is parsed as itself. */
  lemma ShortIsParsed(e: Expr)
    requires IsCanonical(e)
    ensures Parse(Short(e)) == Ok(e)
  {
    LexesShort(e, None, []);
    assert Short(e) + [] == Short(e) && Bare(e) + [] == Bare(e);
    assert Tokenize([], LastOf(Bare(e), None)) == Ok([]);
    ShortestIsRead(e);
  }

  // --- Some of what is written so -------------------------------------------------------------------------

  function ChildStep(prefix: Option<string>, name: string): Step {
    Step(Child, NamedTest(QualifiedName(prefix, name)), [])
  }

  function FromHere(steps: seq<Step>): Expr {
    PathExpr(Path(ContextStart, steps))
  }

  function ChildPath(name: string): Expr {
    FromHere([ChildStep(None, name)])
  }

  lemma NameIsShort(name: string)
    requires IsNcname(name)
    ensures Short(ChildPath(name)) == name && IsCanonical(ChildPath(name)) && Strength(ChildPath(name)) == PATH
  {
    var e, step := ChildPath(name), ChildStep(None, name);
    assert ShortStep(step) == name;
    assert e.path.steps == [step] && ShortSlashed(e.path.steps[1..]) == "";
  }

  /** A name alone is a child of that name, and never an operator. */
  lemma NameIsChild(name: string)
    requires IsNcname(name)
    ensures Parse(name) == Ok(ChildPath(name))
  {
    NameIsShort(name);
    ShortIsParsed(ChildPath(name));
  }

  lemma OneSlashed(step: Step)
    ensures ShortSlashed([step]) == "/" + ShortStep(step) && ShortSlashed([BELOW, step]) == "//" + ShortStep(step)
  {
    hide ShortStep;
    assert [step][1..] == [] && [BELOW, step][2..] == [] && ShortSlashed([]) == "";
  }

  /** A name after two slashes is sought everywhere. */
  lemma DoubledSlashIsParsed(prefix: string, local: string)
    requires IsNcname(prefix) && IsNcname(local)
    ensures Parse("//" + (prefix + ":" + local))
         == Ok(PathExpr(Path(RootStart, [Step(DescendantOrSelf, AnyNodeTest, []), ChildStep(Some(prefix), local)])))
  {
    var step := ChildStep(Some(prefix), local);
    var e := PathExpr(Path(RootStart, [BELOW, step]));
    assert IsCanonicalStep(step) && ShortStep(step) == prefix + ":" + local;
    hide IsNcname, ShortStep;
    assert IsCanonical(e);
    hide Parse, IsCanonical, ShortSlashed;
    OneSlashed(step);
    assert Short(e) == ShortSlashed([BELOW, step]);
    ShortIsParsed(e);
  }

  /** The attributes of the parent. */
  lemma ParentIsParsed(name: string)
    requires IsNcname(name)
    ensures Parse(".." + ("/" + ("@" + name)))
         == Ok(FromHere([Step(Parent, AnyNodeTest, []), Step(Attribute, NamedTest(QualifiedName(None, name)), [])]))
  {
    var step := Step(Attribute, NamedTest(QualifiedName(None, name)), []);
    var e := FromHere([ABOVE, step]);
    assert IsCanonicalStep(step) && ShortStep(step) == "@" + name;
    assert ShortStep(ABOVE) == "..";
    hide IsNcname, ShortStep;
    assert IsCanonical(e);
    hide Parse, IsCanonical, ShortSlashed;
    OneSlashed(step);
    assert [ABOVE, step][1..] == [step];
    assert Short(e) == ShortStep(ABOVE) + ShortSlashed([step]);
    ShortIsParsed(e);
  }
}
