/**
 The grammar of section 3 of XPath 1.0 from the writer's side, in tokens: every abbreviation that a
 tree allows, and parentheses only where precedence and associativity call for them or a lone slash
 is an operand. What is spelled so is read as that tree.

 The printer writes every axis and every parenthesis out, so that its round trip says nothing of the
 abbreviations or of how operators bind; this spelling relies on them everywhere.
 */
module XPathGrammar {
  import opened Wrappers
  import opened XPathAst
  import opened XPathLexer
  import opened XPathSpelling
  import opened XPathParser
  import opened XPathRoundTrip

  const UNARY := 6
  const UNION := 7
  const PATH := 8
  const FILTER := 9
  const PRIMARY := 10

  // --- The spelling -----------------------------------------------------------------------------------

  /** How tightly the outermost operator of an expression binds; a lone slash least, as what follows it would be taken for a step. */
  function Strength(e: Expr): (level: int)
    ensures -1 <= level <= PRIMARY
  {
    match e
    case Binary(op, _, _) => StrengthOf(op)
    case Negate(_) => UNARY
    case PathExpr(_) => if IsRoot(e) then -1 else PATH
    case FilterExpr(_, _) => FILTER
    case _ => PRIMARY
  }

  function StrengthOf(op: BinaryOp): (level: nat)
    ensures level <= UNION && level != UNARY
  {
    if op == Union then UNION else LevelOf(op)
  }

  /** Where something binding at `level` or more tightly is due: in parentheses if it does not. */
  function Spelled(e: Expr, level: nat): seq<Token>
    decreases e, 1
  {
    if Strength(e) < level then [LeftParen] + Bare(e) + [RightParen] else Bare(e)
  }

  /** Operators of one level join from the left, so only the right operand has to bind more tightly. */
  function Bare(e: Expr): seq<Token>
    decreases e, 0
  {
    match e
    case Binary(op, left, right) => Spelled(left, StrengthOf(op)) + [OperatorToken(op)] + Spelled(right, StrengthOf(op) + 1)
    case Negate(operand) => [MinusToken] + Spelled(operand, UNARY)
    case PathExpr(path) => PathSpelled(path)
    case FilterExpr(filtered, predicates) => Spelled(filtered, PRIMARY) + PredicatesSpelled(predicates)
    case Literal(text) => [LiteralToken(text)]
    case Number(numeral) => [NumberToken(numeral)]
    case Variable(prefix, local) => [VariableToken(prefix, local)]
    case Function(prefix, local, arguments) => [FunctionToken(prefix, local), LeftParen] + ArgumentsSpelled(arguments) + [RightParen]
  }

  function ArgumentsSpelled(arguments: seq<Expr>): seq<Token> {
    if arguments == [] then []
    else if |arguments| == 1 then Bare(arguments[0])
    else Bare(arguments[0]) + [Comma] + ArgumentsSpelled(arguments[1..])
  }

  function PredicatesSpelled(predicates: seq<Expr>): seq<Token> {
    if predicates == [] then [] else [LeftBracket] + Bare(predicates[0]) + [RightBracket] + PredicatesSpelled(predicates[1..])
  }

  /** The step that `.` is, the one that `..` is, and the one that a doubled slash leaves out. */
  const HERE := Step(SelfAxis, AnyNodeTest, [])
  const ABOVE := Step(Parent, AnyNodeTest, [])
  const BELOW := Step(DescendantOrSelf, AnyNodeTest, [])

  function AxisSpelled(axis: Axis): seq<Token> {
    match axis
    case Child => []
    case Attribute => [At]
    case _ => [AxisToken(axis), ColonColon]
  }

  function StepSpelled(step: Step): seq<Token> {
    if step == HERE then [Dot]
    else if step == ABOVE then [DotDot]
    else AxisSpelled(step.axis) + TestTokens(step.test) + PredicatesSpelled(step.predicates)
  }

  /** Steps with a slash before each, or two where there is a step between them to leave out. */
  function Slashed(steps: seq<Step>): seq<Token> {
    if steps == [] then []
    else if |steps| > 1 && steps[0] == BELOW then [DoubleSlash] + StepSpelled(steps[1]) + Slashed(steps[2..])
    else [Slash] + StepSpelled(steps[0]) + Slashed(steps[1..])
  }

  function PathSpelled(path: Path): seq<Token> {
    match path.start
    case RootStart => if path.steps == [] then [Slash] else Slashed(path.steps)
    case ContextStart => if path.steps == [] then [] else StepSpelled(path.steps[0]) + Slashed(path.steps[1..])
    case ExprStart(e) => Spelled(e, FILTER) + Slashed(path.steps)
  }

  // --- Reading and continuing ---------------------------------------------------------------------------

  /** What may come after an expression of a level without being taken into it. */
  predicate Ends(level: nat, rest: seq<Token>) {
    && StopsSteps(rest)
    && (level <= UNION ==> !Next(rest, Pipe))
    && (rest == [] || forall k | level <= k < LEVELS :: OperatorAt(k, rest[0]).None?)
  }

  /** What reading at a level comes to: the expression, and then whatever continues it at that level. */
  function Reading(level: nat, ts: seq<Token>): Parsed<Expr> {
    if level <= LEVELS then ParseBinary(level, ts) else if level == UNION then ParseUnion(ts) else ParsePath(ts)
  }

  function Continuing(level: nat, e: Expr, rest: seq<Token>): Parsed<Expr> {
    if level < LEVELS then BinaryTail(level, e, rest) else if level == UNION then UnionTail(e, rest) else Ok((e, rest))
  }

  lemma NothingContinues(level: nat, e: Expr, rest: seq<Token>)
    requires Ends(level, rest)
    ensures Continuing(level, e, rest) == Ok((e, rest))
  {
  }

  /** An operator ends what is to its left at the next level. */
  lemma OperatorEnds(op: BinaryOp, rest: seq<Token>)
    ensures Ends(StrengthOf(op) + 1, [OperatorToken(op)] + rest)
    ensures StrengthOf(op) < LEVELS ==> OperatorAt(StrengthOf(op), OperatorToken(op)) == Some(op)
    ensures StrengthOf(op) == UNION <==> OperatorToken(op) == Pipe
  {
  }

  lemma EndsTighter(level: nat, rest: seq<Token>)
    requires Ends(level, rest)
    ensures Ends(level + 1, rest)
  {
  }

  lemma ClosingEnds(rest: seq<Token>)
    requires StopsExpr(rest)
    ensures Ends(0, rest)
  {
  }

  /** How far reading is from where an expression's own operator is taken. */
  function Distance(e: Expr, level: nat): nat {
    if level <= Strength(e) then Strength(e) - level else if level <= PRIMARY then 100 + (PRIMARY - level) else 0
  }

  // --- Operators ----------------------------------------------------------------------------------------

  /** At each level what is spelled for it is read, and then what continues it. */
  lemma {:induction false} SpelledContinues(e: Expr, level: nat, rest: seq<Token>)
    requires IsCanonical(e) && level <= PATH && Ends(level + 1, rest)
    ensures Reading(level, Spelled(e, level) + rest) == Continuing(level, e, rest)
    ensures level > UNARY ==> !Next(Spelled(e, level) + rest, MinusToken)
    decreases e, Distance(e, level), 1
  {
    hide ParseBinary, ParseUnary, ParseUnion, ParsePath, BinaryTail, UnionTail, Bare, Ends, IsCanonical;
    if level == PATH {
      PathIsRead(e, rest);
    } else if level == UNARY {
      UnaryIsRead(e, rest);
    } else if Strength(e) == level {
      OperationContinues(e, rest);
    } else {
      SpelledIsRead(e, level + 1, rest);
      OneLevelLooser(e, level, rest);
    }
  }

  /** And where nothing continues it, it alone is read. */
  lemma {:induction false} SpelledIsRead(e: Expr, level: nat, rest: seq<Token>)
    requires IsCanonical(e) && level <= PATH && Ends(level, rest)
    ensures Reading(level, Spelled(e, level) + rest) == Ok((e, rest))
    ensures level > UNARY ==> !Next(Spelled(e, level) + rest, MinusToken)
    decreases e, Distance(e, level), 2
  {
    EndsTighter(level, rest);
    SpelledContinues(e, level, rest);
    NothingContinues(level, e, rest);
  }

  /** What binds more tightly, or is in parentheses, is read by the next level. */
  lemma OneLevelLooser(e: Expr, level: nat, rest: seq<Token>)
    requires level < PATH && level != UNARY && Strength(e) != level
    requires Reading(level + 1, Spelled(e, level + 1) + rest) == Ok((e, rest))
    requires level == UNION ==> !Next(Spelled(e, PATH) + rest, MinusToken)
    ensures Spelled(e, level) == Spelled(e, level + 1)
    ensures Reading(level, Spelled(e, level) + rest) == Continuing(level, e, rest)
  {
    hide ParseUnary, ParsePath, Bare;
  }

  lemma {:induction false} OperationContinues(e: Expr, rest: seq<Token>)
    requires IsCanonical(e) && e.Binary? && Ends(StrengthOf(e.op) + 1, rest)
    ensures Reading(StrengthOf(e.op), Spelled(e, StrengthOf(e.op)) + rest) == Continuing(StrengthOf(e.op), e, rest)
    ensures StrengthOf(e.op) > UNARY ==> !Next(Spelled(e, StrengthOf(e.op)) + rest, MinusToken)
    decreases e, Distance(e, StrengthOf(e.op)), 0
  {
    hide ParseBinary, ParseUnary, ParseUnion, ParsePath, BinaryTail, UnionTail, Ends;
    var level := StrengthOf(e.op);
    var afterOp := Spelled(e.right, level + 1) + rest;
    var afterLeft := [OperatorToken(e.op)] + afterOp;
    assert Spelled(e, level) + rest == Spelled(e.left, level) + afterLeft;
    OperatorEnds(e.op, afterOp);
    SpelledContinues(e.left, level, afterLeft);
    SpelledIsRead(e.right, level + 1, rest);
    assert afterLeft[0] == OperatorToken(e.op) && afterLeft[1..] == afterOp;
    OperatorTaken(e, afterLeft, rest);
  }

  lemma OperatorTaken(e: Expr, afterLeft: seq<Token>, rest: seq<Token>)
    requires e.Binary? && afterLeft != [] && afterLeft[0] == OperatorToken(e.op)
    requires Reading(StrengthOf(e.op) + 1, afterLeft[1..]) == Ok((e.right, rest))
    ensures Continuing(StrengthOf(e.op), e.left, afterLeft) == Continuing(StrengthOf(e.op), e, rest)
  {
    OperatorEnds(e.op, afterLeft[1..]);
    hide ParseBinary, ParsePath;
  }

  /** A minus sign takes what binds as tightly as itself, so that minus signs nest. */
  lemma {:induction false} UnaryIsRead(e: Expr, rest: seq<Token>)
    requires IsCanonical(e) && Ends(UNARY + 1, rest)
    ensures Reading(UNARY, Spelled(e, UNARY) + rest) == Ok((e, rest))
    decreases e, Distance(e, UNARY), 0
  {
    hide ParsePath, ParseUnion, UnionTail, Ends;
    var ts := Spelled(e, UNARY) + rest;
    if e.Negate? {
      assert Spelled(e, UNARY) == [MinusToken] + Spelled(e.operand, UNARY);
      assert ts[0] == MinusToken && ts[1..] == Spelled(e.operand, UNARY) + rest;
      SpelledContinues(e.operand, UNARY, rest);
      assert ParseUnary(ts[1..]) == Ok((e.operand, rest));
      assert ParseUnary(ts) == Ok((e, rest));
    } else {
      assert Spelled(e, UNARY) == Spelled(e, UNION);
      SpelledIsRead(e, UNION, rest);
      assert ParseUnion(ts) == Ok((e, rest));
      assert ParseUnary(ts) == ParseUnion(ts);
      assert ParseBinary(UNARY, ts) == ParseUnary(ts);
    }
  }

  // --- Paths, filters and primary expressions --------------------------------------------------------------

  /** What has no operator outside, or parentheses around it. */
  lemma {:induction false} PathIsRead(e: Expr, rest: seq<Token>)
    requires IsCanonical(e) && Ends(PATH + 1, rest)
    ensures Reading(PATH, Spelled(e, PATH) + rest) == Ok((e, rest)) && !Next(Spelled(e, PATH) + rest, MinusToken)
    decreases e, Distance(e, PATH), 0
  {
    if Strength(e) == PATH {
      hide ParsePath;
      SlashedPathIsRead(e.path, rest);
    } else {
      FilterIsRead(e, rest);
      hide ParseFilter, Bare;
    }
  }

  /** A filter, or what may start one, or parentheses. */
  lemma {:induction false} FilterIsRead(e: Expr, rest: seq<Token>)
    requires IsCanonical(e) && !Next(rest, LeftBracket)
    ensures ParseFilter(Spelled(e, FILTER) + rest) == Ok((e, rest)) && StartsPrimary(Spelled(e, FILTER) + rest)
    decreases e, Distance(e, FILTER), 2
  {
    if Strength(e) == FILTER {
      var predicates := PredicatesSpelled(e.predicates);
      var ts := Spelled(e, FILTER) + rest;
      FilterSpelled(e, rest);
      PrimaryIsRead(e.filtered, predicates + rest);
      PredicatesAreRead(e.predicates, rest);
      FilterOf(ts, e, predicates + rest, rest);
    } else {
      PrimaryIsRead(e, rest);
      FilterOfPrimary(Spelled(e, PRIMARY) + rest, e, rest);
    }
  }

  lemma FilterSpelled(e: Expr, rest: seq<Token>)
    requires e.FilterExpr?
    ensures Spelled(e, FILTER) + rest == Spelled(e.filtered, PRIMARY) + (PredicatesSpelled(e.predicates) + rest)
  {
    assert Spelled(e, FILTER) == Spelled(e.filtered, PRIMARY) + PredicatesSpelled(e.predicates) by {
      hide PredicatesSpelled;
    }
    hide *;
  }

  lemma CallSpelled(e: Expr, rest: seq<Token>)
    requires e.Function?
    ensures var inside := ArgumentsSpelled(e.arguments) + [RightParen] + rest;
            Spelled(e, PRIMARY) + rest == [FunctionToken(e.prefix, e.local)] + ([LeftParen] + inside)
  {
    hide ArgumentsSpelled;
    assert Spelled(e, PRIMARY) == [FunctionToken(e.prefix, e.local), LeftParen] + ArgumentsSpelled(e.arguments) + [RightParen];
    assert [FunctionToken(e.prefix, e.local), LeftParen] == [FunctionToken(e.prefix, e.local)] + [LeftParen];
  }

  lemma {:induction false} PrimaryIsRead(e: Expr, rest: seq<Token>)
    requires IsCanonical(e)
    ensures ParsePrimary(Spelled(e, PRIMARY) + rest) == Ok((e, rest))
    decreases e, Distance(e, PRIMARY), 1
  {
    if Strength(e) < PRIMARY {
      BareIsRead(e, [RightParen] + rest);
      GroupIsRead(e, rest);
    } else if e.Function? {
      CallIsRead(e, rest);
    } else {
      OneTokenIsRead(e, rest);
    }
  }

  lemma OneTokenIsRead(e: Expr, rest: seq<Token>)
    requires e.Literal? || e.Number? || e.Variable?
    ensures ParsePrimary(Spelled(e, PRIMARY) + rest) == Ok((e, rest))
  {
    assert |Spelled(e, PRIMARY)| == 1;
    assert (Spelled(e, PRIMARY) + rest)[1..] == rest;
  }

  lemma GroupIsRead(e: Expr, rest: seq<Token>)
    requires ParseExpr(Bare(e) + ([RightParen] + rest)) == Ok((e, [RightParen] + rest))
    ensures ParsePrimary([LeftParen] + Bare(e) + [RightParen] + rest) == Ok((e, rest))
  {
    hide Bare, ParseExpr;
    var ts, closing := [LeftParen] + Bare(e) + [RightParen] + rest, [RightParen] + rest;
    assert ts[1..] == Bare(e) + closing && closing[1..] == rest;
  }

  lemma {:induction false} CallIsRead(e: Expr, rest: seq<Token>)
    requires IsCanonical(e) && e.Function?
    ensures ParsePrimary(Spelled(e, PRIMARY) + rest) == Ok((e, rest))
    decreases e, 0, 0
  {
    var inside := ArgumentsSpelled(e.arguments) + [RightParen] + rest;
    ArgumentsAreRead(e.arguments, rest);
    CallSpelled(e, rest);
    hide ParseArguments, Spelled, ArgumentsSpelled, IsCanonical;
    var ts := Spelled(e, PRIMARY) + rest;
    assert ts[0] == FunctionToken(e.prefix, e.local) && ts[1..] == [LeftParen] + inside;
    assert Expect(ts[1..], LeftParen) == Ok(inside);
  }

  /** A whole expression, with what closes it after it. */
  lemma {:induction false} BareIsRead(e: Expr, rest: seq<Token>)
    requires IsCanonical(e) && StopsExpr(rest)
    ensures ParseExpr(Bare(e) + rest) == Ok((e, rest))
    decreases e, 50, 0
  {
    if IsRoot(e) {
      assert PathExpr(Path(RootStart, [])) == e;
      RootIsRead(Bare(e) + rest, rest);
    } else {
      ClosingEnds(rest);
      SpelledIsRead(e, 0, rest);
      assert Spelled(e, 0) == Bare(e);
    }
  }

  lemma RootIsRead(ts: seq<Token>, rest: seq<Token>)
    requires ts == [Slash] + rest && StopsExpr(rest)
    ensures ParseExpr(ts) == Ok((PathExpr(Path(RootStart, [])), rest))
  {
    StopsEverything(rest);
    assert ts[1..] == rest;
    assert ParseLocationPath(ts) == Ok((Path(RootStart, []), rest));
    assert ParsePath(ts) == Ok((PathExpr(Path(RootStart, [])), rest));
    PathAtLevel(0, ts, PathExpr(Path(RootStart, [])), rest);
  }

  lemma {:induction false} PredicatesAreRead(predicates: seq<Expr>, rest: seq<Token>)
    requires (forall p | p in predicates :: IsCanonical(p)) && !Next(rest, LeftBracket)
    ensures ParsePredicates(PredicatesSpelled(predicates) + rest) == Ok((predicates, rest))
    decreases predicates
  {
    if predicates == [] {
      assert PredicatesSpelled(predicates) + rest == rest;
    } else {
      hide ParsePredicates, ParseExpr, IsCanonical, Bare;
      var after := PredicatesSpelled(predicates[1..]) + rest;
      Bracketed(Bare(predicates[0]), PredicatesSpelled(predicates[1..]), rest);
      BareIsRead(predicates[0], [RightBracket] + after);
      PredicatesAreRead(predicates[1..], rest);
      PredicatesNext(PredicatesSpelled(predicates) + rest, predicates, after, rest);
    }
  }

  lemma {:induction false} ArgumentsAreRead(arguments: seq<Expr>, rest: seq<Token>)
    requires forall a | a in arguments :: IsCanonical(a)
    ensures ParseArguments(ArgumentsSpelled(arguments) + [RightParen] + rest) == Ok((arguments, rest))
    decreases arguments, 1
  {
    var ts := ArgumentsSpelled(arguments) + [RightParen] + rest;
    if arguments == [] {
      assert ts == [RightParen] + rest && ts[1..] == rest;
    } else {
      ArgumentListIsRead(arguments, rest);
      hide ParseArgumentList;
    }
  }

  lemma {:induction false} ArgumentListIsRead(arguments: seq<Expr>, rest: seq<Token>)
    requires arguments != [] && forall a | a in arguments :: IsCanonical(a)
    ensures var ts := ArgumentsSpelled(arguments) + [RightParen] + rest;
            ParseArgumentList(ts) == Ok((arguments, rest)) && !Next(ts, RightParen)
    decreases arguments, 0
  {
    hide Bare, ParseExpr, IsCanonical;
    var ts := ArgumentsSpelled(arguments) + [RightParen] + rest;
    var first := Bare(arguments[0]);
    if |arguments| == 1 {
      var after := [RightParen] + rest;
      assert ts == first + after && after[1..] == rest && [arguments[0]] == arguments;
      BareIsRead(arguments[0], after);
    } else {
      var more := ArgumentsSpelled(arguments[1..]) + [RightParen] + rest;
      var after := [Comma] + more;
      assert ts == first + after && after[1..] == more;
      BareIsRead(arguments[0], after);
      ArgumentListIsRead(arguments[1..], rest);
      assert [arguments[0]] + arguments[1..] == arguments;
    }
    if Next(ts, RightParen) {
      NothingReadsFromClosing(ts);
      assert false;
    }
  }

  // --- Steps --------------------------------------------------------------------------------------------

  lemma TestBegins(test: NodeTest, rest: seq<Token>)
    ensures var ts := TestTokens(test) + rest;
            StartsStep(ts) && !Next(ts, Dot) && !Next(ts, DotDot) && !Next(ts, At) && !ts[0].AxisToken?
  {
  }

  /** A test begins with neither a dot nor an axis, so that no axis before it is the child axis. */
  lemma AxisIsRead(axis: Axis, test: NodeTest, rest: seq<Token>)
    ensures var ts := AxisSpelled(axis) + (TestTokens(test) + rest);
            && ParseAxis(ts) == Ok((axis, TestTokens(test) + rest))
            && !Next(ts, Dot) && !Next(ts, DotDot) && StartsStep(ts)
  {
    TestBegins(test, rest);
    hide TestTokens;
    var more := TestTokens(test) + rest;
    match axis
    case Child => assert AxisSpelled(axis) + more == more;
    case Attribute => assert ([At] + more)[1..] == more;
    case _ => assert ([AxisToken(axis), ColonColon] + more)[1..] == [ColonColon] + more && ([ColonColon] + more)[1..] == more;
  }

  lemma {:induction false} StepIsRead(step: Step, rest: seq<Token>)
    requires IsCanonicalStep(step) && !Next(rest, LeftBracket)
    ensures ParseStep(StepSpelled(step) + rest) == Ok((step, rest)) && StartsStep(StepSpelled(step) + rest)
    decreases step
  {
    if step == HERE || step == ABOVE {
      DotsAreRead(step, rest);
    } else {
      hide ParseAxis, ParseTest, ParsePredicates, ParseStep, TestTokens, AxisSpelled;
      var afterTest := PredicatesSpelled(step.predicates) + rest;
      var afterAxis := TestTokens(step.test) + afterTest;
      assert StepSpelled(step) + rest == AxisSpelled(step.axis) + afterAxis;
      AxisIsRead(step.axis, step.test, afterTest);
      TestReads(step.test, afterTest);
      PredicatesAreRead(step.predicates, rest);
      StepOfParts(AxisSpelled(step.axis) + afterAxis, step, afterAxis, afterTest, rest);
    }
  }

  lemma DotsAreRead(step: Step, rest: seq<Token>)
    requires step == HERE || step == ABOVE
    ensures ParseStep(StepSpelled(step) + rest) == Ok((step, rest)) && StartsStep(StepSpelled(step) + rest)
  {
    hide ParseAxis, ParseTest, ParsePredicates;
    assert (StepSpelled(step) + rest)[1..] == rest;
  }

  lemma StepOfParts(ts: seq<Token>, step: Step, afterAxis: seq<Token>, afterTest: seq<Token>, rest: seq<Token>)
    requires !Next(ts, Dot) && !Next(ts, DotDot) && ParseAxis(ts) == Ok((step.axis, afterAxis))
    requires ParseTest(afterAxis) == Ok((step.test, afterTest)) && ParsePredicates(afterTest) == Ok((step.predicates, rest))
    ensures ParseStep(ts) == Ok((step, rest))
  {
    hide ParseAxis, ParseTest, ParsePredicates;
  }

  lemma SlashedStops(steps: seq<Step>, rest: seq<Token>)
    requires StopsSteps(rest)
    ensures !Next(Slashed(steps) + rest, LeftBracket)
  {
  }

  /** Where two slashes stand for a step, and where one stands before it. */
  lemma SlashedThen(steps: seq<Step>, rest: seq<Token>)
    requires steps != []
    ensures var ts := Slashed(steps) + rest;
            if |steps| > 1 && steps[0] == BELOW
            then Next(ts, DoubleSlash) && ts[1..] == StepSpelled(steps[1]) + (Slashed(steps[2..]) + rest)
            else Next(ts, Slash) && ts[1..] == StepSpelled(steps[0]) + (Slashed(steps[1..]) + rest)
  {
    hide StepSpelled;
    var doubled := |steps| > 1 && steps[0] == BELOW;
    var first, more := if doubled then StepSpelled(steps[1]) else StepSpelled(steps[0]),
                       if doubled then Slashed(steps[2..]) else Slashed(steps[1..]);
    assert Slashed(steps) == [if doubled then DoubleSlash else Slash] + first + more;
    AfterOne(if doubled then DoubleSlash else Slash, first, more, rest);
  }

  lemma AfterOne(token: Token, first: seq<Token>, more: seq<Token>, rest: seq<Token>)
    ensures Next([token] + first + more + rest, token) && ([token] + first + more + rest)[1..] == first + (more + rest)
  {
  }

  lemma {:induction false} SlashedAreRead(before: seq<Step>, steps: seq<Step>, rest: seq<Token>)
    requires (forall step | step in steps :: IsCanonicalStep(step)) && StopsSteps(rest)
    ensures StepsTail(before, Slashed(steps) + rest) == Ok((before + steps, rest))
    decreases steps
  {
    hide ParseStep, StepSpelled, IsCanonicalStep;
    if steps == [] {
      assert Slashed(steps) + rest == rest && before + steps == before;
    } else {
      hide StepsTail, Slashed;
      SlashedThen(steps, rest);
      var k := if |steps| > 1 && steps[0] == BELOW then 1 else 0;
      var after := steps[k + 1..];
      SlashedStops(after, rest);
      StepIsRead(steps[k], Slashed(after) + rest);
      SlashedAreRead(before + steps[..k + 1], after, rest);
      OneMoreSlashed(before, steps, Slashed(steps) + rest, Slashed(after) + rest, rest);
    }
  }

  /** A separator and a step, and then what the rest of the steps come to. */
  lemma OneMoreSlashed(before: seq<Step>, steps: seq<Step>, ts: seq<Token>, after: seq<Token>, rest: seq<Token>)
    requires steps != []
    requires var k := if |steps| > 1 && steps[0] == BELOW then 1 else 0;
             && Next(ts, if k == 1 then DoubleSlash else Slash) && ParseStep(ts[1..]) == Ok((steps[k], after))
             && StepsTail(before + steps[..k + 1], after) == Ok((before + steps[..k + 1] + steps[k + 1..], rest))
    ensures StepsTail(before, ts) == Ok((before + steps, rest))
  {
    hide ParseStep;
    if |steps| > 1 && steps[0] == BELOW {
      assert steps[..2] == [BELOW, steps[1]] && before + steps[..2] + steps[2..] == before + steps;
    } else {
      assert steps[..1] == [steps[0]] && before + steps[..1] + steps[1..] == before + steps;
    }
  }

  lemma {:induction false} StepsAreRead(steps: seq<Step>, rest: seq<Token>)
    requires steps != [] && (forall step | step in steps :: IsCanonicalStep(step)) && StopsSteps(rest)
    ensures var ts := StepSpelled(steps[0]) + (Slashed(steps[1..]) + rest);
            ParseSteps(ts) == Ok((steps, rest)) && StartsStep(ts)
    decreases steps
  {
    hide ParseStep, StepSpelled, IsCanonicalStep, StepsTail, Slashed;
    SlashedStops(steps[1..], rest);
    StepIsRead(steps[0], Slashed(steps[1..]) + rest);
    SlashedAreRead([steps[0]], steps[1..], rest);
    assert [steps[0]] + steps[1..] == steps;
  }

  lemma {:induction false} SlashedPathIsRead(path: Path, rest: seq<Token>)
    requires IsCanonical(PathExpr(path)) && !IsRoot(PathExpr(path)) && StopsSteps(rest)
    ensures ParsePath(PathSpelled(path) + rest) == Ok((PathExpr(path), rest))
    ensures !Next(PathSpelled(path) + rest, MinusToken)
    decreases path
  {
    hide ParseSteps, ParseFilter, StepSpelled, Slashed;
    var steps, ts := path.steps, PathSpelled(path) + rest;
    match path.start
    case ContextStart =>
      StepsAreRead(steps, rest);
      assert ts == StepSpelled(steps[0]) + (Slashed(steps[1..]) + rest);
      ContextPathIsRead(ts, steps, rest);
    case RootStart =>
      SlashedThen(steps, rest);
      StepsAreRead(if steps[0] == BELOW && |steps| > 1 then steps[1..] else steps, rest);
      RootPathIsRead(ts, steps, rest);
    case ExprStart(e) =>
      var after := Slashed(steps) + rest;
      assert ts == Spelled(e, FILTER) + after;
      SlashedThen(steps, rest);
      FilterIsRead(e, after);
      StepsAreRead(if steps[0] == BELOW && |steps| > 1 then steps[1..] else steps, rest);
      ContinuedPathIsRead(ts, e, after, steps, rest);
  }

  lemma ContextPathIsRead(ts: seq<Token>, steps: seq<Step>, rest: seq<Token>)
    requires ParseSteps(ts) == Ok((steps, rest)) && StartsStep(ts)
    ensures ParsePath(ts) == Ok((PathExpr(Path(ContextStart, steps)), rest)) && !Next(ts, MinusToken)
  {
    hide ParseSteps;
    assert ParseLocationPath(ts) == Ok((Path(ContextStart, steps), rest));
  }

  /** The steps after a slash, or after two and without the step those stand for. */
  predicate StepsFollow(ts: seq<Token>, steps: seq<Step>, rest: seq<Token>) {
    && steps != []
    && if steps[0] == BELOW && |steps| > 1
       then Next(ts, DoubleSlash) && ParseSteps(ts[1..]) == Ok((steps[1..], rest))
       else Next(ts, Slash) && ParseSteps(ts[1..]) == Ok((steps, rest)) && StartsStep(ts[1..])
  }

  lemma RootPathIsRead(ts: seq<Token>, steps: seq<Step>, rest: seq<Token>)
    requires StepsFollow(ts, steps, rest)
    ensures ParsePath(ts) == Ok((PathExpr(Path(RootStart, steps)), rest)) && !Next(ts, MinusToken)
  {
    hide ParseSteps;
    assert [steps[0]] + steps[1..] == steps;
    assert ParseLocationPath(ts) == Ok((Path(RootStart, steps), rest));
  }

  lemma ContinuedPathIsRead(ts: seq<Token>, start: Expr, after: seq<Token>, steps: seq<Step>, rest: seq<Token>)
    requires StartsPrimary(ts) && ParseFilter(ts) == Ok((start, after)) && !start.PathExpr?
    requires StepsFollow(after, steps, rest)
    ensures ParsePath(ts) == Ok((PathExpr(Path(ExprStart(start), steps)), rest)) && !Next(ts, MinusToken)
  {
    hide ParseSteps, ParseFilter;
    assert [steps[0]] + steps[1..] == steps;
  }

  /** Spelled as shortly as the grammar allows, a tree is read back. */
  lemma ShortestIsRead(e: Expr)
    requires IsCanonical(e)
    ensures ParseTokens(Bare(e)) == Ok(e)
  {
    BareIsRead(e, []);
    assert Bare(e) + [] == Bare(e);
  }
}
