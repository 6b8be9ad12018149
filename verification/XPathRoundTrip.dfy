/**
 Printing and parsing undo each other: every tree the parser returns is canonical, and parsing the
 text of a canonical tree gives the tree back.
 */
module XPathRoundTrip {
  import opened Wrappers
  import opened XPathAst
  import opened XPathLexer
  import opened XPathPrinter
  import opened XPathSpelling
  import opened XPathParser

  // --- What may follow without being taken in -----------------------------------------------------------

  predicate StopsSteps(rest: seq<Token>) {
    rest == [] || rest[0] !in {Slash, DoubleSlash, LeftBracket}
  }

  /** No operator that binds at `level` or more tightly comes next. */
  predicate StopsLevel(level: nat, rest: seq<Token>) {
    StopsSteps(rest) && (rest == [] || (rest[0] != Pipe && forall k | level <= k < LEVELS :: OperatorAt(k, rest[0]).None?))
  }

  predicate StopsExpr(rest: seq<Token>) {
    rest == [] || rest[0] in {RightParen, RightBracket, Comma}
  }

  lemma StopsEverything(rest: seq<Token>)
    requires StopsExpr(rest)
    ensures StopsLevel(0, rest) && StopsSteps(rest) && !StartsStep(rest)
  {
  }

  // --- From one level of the grammar to a looser one ------------------------------------------------------

  lemma {:induction false} Looser(level: nat, tighter: nat, ts: seq<Token>, e: Expr, rest: seq<Token>)
    requires level <= tighter <= LEVELS && ParseBinary(tighter, ts) == Ok((e, rest)) && StopsLevel(level, rest)
    ensures ParseBinary(level, ts) == Ok((e, rest))
    decreases tighter - level
  {
    if level < tighter {
      Looser(level + 1, tighter, ts, e, rest);
      assert BinaryTail(level, e, rest) == Ok((e, rest));
    }
  }

  /** A union reads as an expression of the tightest binary level, if no minus comes first. */
  lemma UnionAtLevels(ts: seq<Token>, first: Expr, afterFirst: seq<Token>, e: Expr, rest: seq<Token>)
    requires ParsePath(ts) == Ok((first, afterFirst)) && UnionTail(first, afterFirst) == Ok((e, rest))
    requires !Next(ts, MinusToken)
    ensures ParseBinary(LEVELS, ts) == Ok((e, rest))
  {
    assert ParseUnion(ts) == Ok((e, rest));
    assert ParseUnary(ts) == ParseUnion(ts);
  }

  lemma PathAtLevel(level: nat, ts: seq<Token>, e: Expr, rest: seq<Token>)
    requires level <= LEVELS && ParsePath(ts) == Ok((e, rest)) && !Next(ts, MinusToken) && StopsLevel(level, rest)
    ensures ParseBinary(level, ts) == Ok((e, rest))
  {
    UnionAtLevels(ts, e, rest, e, rest);
    Looser(level, LEVELS, ts, e, rest);
  }

  // --- Pieces --------------------------------------------------------------------------------------------

  lemma TestReads(test: NodeTest, rest: seq<Token>)
    ensures ParseTest(TestTokens(test) + rest) == Ok((test, rest))
  {
    var ts := TestTokens(test) + rest;
    if test.NamedTest? {
      assert ts[0] == TestTokens(test)[0] && ts[1..] == rest;
    } else if test.ProcessingInstructionTest? && test.target.Some? {
      InstructionTestReads(test.target.value, rest);
    } else {
      NodeTypeReads(test, rest);
    }
  }

  lemma NodeTypeReads(test: NodeTest, rest: seq<Token>)
    requires !test.NamedTest? && (test.ProcessingInstructionTest? ==> test.target.None?)
    ensures ParseTest(TestTokens(test) + rest) == Ok((test, rest))
  {
    var ts := TestTokens(test) + rest;
    var inside := [RightParen] + rest;
    assert ts == [TestTokens(test)[0]] + ([LeftParen] + inside);
    assert ts[1..] == [LeftParen] + inside;
    assert Expect([LeftParen] + inside, LeftParen) == Ok(inside);
    assert Expect(inside, RightParen) == Ok(rest);
  }

  lemma InstructionTestReads(target: string, rest: seq<Token>)
    ensures ParseTest(TestTokens(ProcessingInstructionTest(Some(target))) + rest)
         == Ok((ProcessingInstructionTest(Some(target)), rest))
  {
    var ts := TestTokens(ProcessingInstructionTest(Some(target))) + rest;
    var inside := [LiteralToken(target), RightParen] + rest;
    assert ts == [NodeTypeToken(ProcessingInstructionType)] + ([LeftParen] + inside);
    assert ts[1..] == [LeftParen] + inside;
    assert Expect([LeftParen] + inside, LeftParen) == Ok(inside);
    assert inside[1..] == [RightParen] + rest;
    assert Expect([RightParen] + rest, RightParen) == Ok(rest);
  }

  lemma PredicatesNext(ts: seq<Token>, predicates: seq<Expr>, after: seq<Token>, rest: seq<Token>)
    requires predicates != [] && Next(ts, LeftBracket)
    requires ParseExpr(ts[1..]) == Ok((predicates[0], [RightBracket] + after))
    requires ParsePredicates(after) == Ok((predicates[1..], rest))
    ensures ParsePredicates(ts) == Ok((predicates, rest))
  {
    hide ParseExpr;
    assert ([RightBracket] + after)[1..] == after;
    assert [predicates[0]] + predicates[1..] == predicates;
  }

  lemma PredicatesThenMore(predicates: seq<Expr>, rest: seq<Token>)
    requires predicates != []
    ensures var ts := PredicatesTokens(predicates) + rest;
            && Next(ts, LeftBracket)
            && ts[1..] == TokensOf(predicates[0]) + ([RightBracket] + (PredicatesTokens(predicates[1..]) + rest))
  {
    Bracketed(TokensOf(predicates[0]), PredicatesTokens(predicates[1..]), rest);
  }

  lemma Bracketed(first: seq<Token>, more: seq<Token>, rest: seq<Token>)
    ensures var ts := [LeftBracket] + first + [RightBracket] + more + rest;
            Next(ts, LeftBracket) && ts[1..] == first + ([RightBracket] + (more + rest))
  {
    var ts := [LeftBracket] + first + [RightBracket] + more + rest;
    assert ts == [LeftBracket] + (first + ([RightBracket] + (more + rest)));
  }

  lemma {:induction false} PredicatesRead(predicates: seq<Expr>, rest: seq<Token>)
    requires (forall p | p in predicates :: IsCanonical(p)) && !Next(rest, LeftBracket)
    ensures ParsePredicates(PredicatesTokens(predicates) + rest) == Ok((predicates, rest))
    decreases predicates
  {
    if predicates == [] {
      assert PredicatesTokens(predicates) + rest == rest;
    } else {
      hide ParsePredicates, ParseExpr, IsCanonical, TokensOf, PredicatesTokens;
      var after := PredicatesTokens(predicates[1..]) + rest;
      PredicatesThenMore(predicates, rest);
      ExprReads(predicates[0], [RightBracket] + after);
      PredicatesRead(predicates[1..], rest);
      PredicatesNext(PredicatesTokens(predicates) + rest, predicates, after, rest);
    }
  }

  lemma {:induction false} StepReads(step: Step, rest: seq<Token>)
    requires IsCanonicalStep(step) && !Next(rest, LeftBracket)
    ensures ParseStep(StepTokens(step) + rest) == Ok((step, rest))
    decreases step
  {
    var predicates := PredicatesTokens(step.predicates);
    var ts := StepTokens(step) + rest;
    var afterAxis := TestTokens(step.test) + (predicates + rest);
    assert ts[0] == AxisToken(step.axis) && ts[1] == ColonColon && ts[1..][1..] == afterAxis;
    assert ParseAxis(ts) == Ok((step.axis, afterAxis));
    TestReads(step.test, predicates + rest);
    PredicatesRead(step.predicates, rest);
  }

  /** The tokens of steps that come after others. */
  function MoreSteps(steps: seq<Step>): seq<Token> {
    if steps == [] then [] else [Slash] + StepsTokens(steps)
  }

  lemma StepsThenMore(steps: seq<Step>, rest: seq<Token>)
    requires steps != []
    ensures StepsTokens(steps) + rest == StepTokens(steps[0]) + (MoreSteps(steps[1..]) + rest)
    ensures (StepsTokens(steps) + rest)[0].AxisToken?
  {
    if |steps| == 1 {
      assert MoreSteps(steps[1..]) + rest == rest;
    }
  }

  lemma StepsTailNext(done: seq<Step>, ts: seq<Token>, steps: seq<Step>, after: seq<Token>, rest: seq<Token>)
    requires steps != [] && Next(ts, Slash) && ParseStep(ts[1..]) == Ok((steps[0], after))
    requires StepsTail(done + [steps[0]], after) == Ok((done + [steps[0]] + steps[1..], rest))
    ensures StepsTail(done, ts) == Ok((done + steps, rest))
  {
    hide ParseStep;
    assert done + [steps[0]] + steps[1..] == done + steps;
  }

  lemma MoreBeginsWithSlash(steps: seq<Step>, rest: seq<Token>)
    requires steps != []
    ensures var ts := MoreSteps(steps) + rest;
            Next(ts, Slash) && ts[1..] == StepTokens(steps[0]) + (MoreSteps(steps[1..]) + rest)
  {
    StepsThenMore(steps, rest);
    AfterSlash(StepsTokens(steps), rest);
  }

  lemma AfterSlash(steps: seq<Token>, rest: seq<Token>)
    ensures ([Slash] + steps + rest)[1..] == steps + rest
  {
  }

  lemma {:induction false} StepsTailReads(done: seq<Step>, steps: seq<Step>, rest: seq<Token>)
    requires (forall step | step in steps :: IsCanonicalStep(step)) && StopsSteps(rest)
    ensures StepsTail(done, MoreSteps(steps) + rest) == Ok((done + steps, rest))
    decreases steps
  {
    if steps == [] {
      assert MoreSteps(steps) + rest == rest && done + steps == done;
    } else {
      hide ParseStep, StepsTail, StepTokens, StepsTokens, IsCanonicalStep;
      var after := MoreSteps(steps[1..]) + rest;
      MoreBeginsWithSlash(steps, rest);
      MoreStops(steps[1..], rest);
      StepReads(steps[0], after);
      StepsTailReads(done + [steps[0]], steps[1..], rest);
      StepsTailNext(done, MoreSteps(steps) + rest, steps, after, rest);
    }
  }

  lemma MoreStops(steps: seq<Step>, rest: seq<Token>)
    requires StopsSteps(rest)
    ensures !Next(MoreSteps(steps) + rest, LeftBracket)
  {
  }

  lemma {:induction false} StepsRead(steps: seq<Step>, rest: seq<Token>)
    requires steps != [] && (forall step | step in steps :: IsCanonicalStep(step)) && StopsSteps(rest)
    ensures ParseSteps(StepsTokens(steps) + rest) == Ok((steps, rest))
    ensures (StepsTokens(steps) + rest)[0].AxisToken?
    decreases steps, 1
  {
    hide ParseStep, StepsTail, StepTokens, StepsTokens;
    var after := MoreSteps(steps[1..]) + rest;
    StepsThenMore(steps, rest);
    MoreStops(steps[1..], rest);
    StepReads(steps[0], after);
    StepsTailReads([steps[0]], steps[1..], rest);
    assert [steps[0]] + steps[1..] == steps;
  }

  lemma {:induction false} ArgumentsRead(arguments: seq<Expr>, rest: seq<Token>)
    requires forall a | a in arguments :: IsCanonical(a)
    ensures ParseArguments(ArgumentsTokens(arguments) + [RightParen] + rest) == Ok((arguments, rest))
    decreases arguments, 1
  {
    var ts := ArgumentsTokens(arguments) + [RightParen] + rest;
    if arguments == [] {
      assert ts[0] == RightParen && ts[1..] == rest;
    } else {
      ArgumentListReads(arguments, rest);
      if Next(ts, RightParen) {
        NothingReadsFromClosing(ts);
        assert false;
      }
    }
  }

  /** No expression begins with a closing parenthesis. */
  lemma NothingReadsFromClosing(ts: seq<Token>)
    requires Next(ts, RightParen)
    ensures ParseArgumentList(ts).Err?
  {
    assert ParseStep(ts).Err?;
    assert ParseSteps(ts).Err?;
    assert ParseLocationPath(ts).Err?;
    assert ParsePath(ts).Err?;
    assert ParseUnion(ts).Err?;
    assert ParseUnary(ts).Err?;
    NoTighterLevel(0, ts);
  }

  lemma {:induction false} NoTighterLevel(level: nat, ts: seq<Token>)
    requires level <= LEVELS && ParseUnary(ts).Err?
    ensures ParseBinary(level, ts).Err?
    decreases LEVELS - level
  {
    if level < LEVELS {
      NoTighterLevel(level + 1, ts);
    }
  }

  lemma {:induction false} ArgumentListReads(arguments: seq<Expr>, rest: seq<Token>)
    requires arguments != [] && forall a | a in arguments :: IsCanonical(a)
    ensures ParseArgumentList(ArgumentsTokens(arguments) + [RightParen] + rest) == Ok((arguments, rest))
    decreases arguments, 0
  {
    var ts := ArgumentsTokens(arguments) + [RightParen] + rest;
    var first := TokensOf(arguments[0]);
    if |arguments| == 1 {
      assert ts == first + ([RightParen] + rest);
      ExprReads(arguments[0], [RightParen] + rest);
      assert ([RightParen] + rest)[1..] == rest;
      assert [arguments[0]] == arguments;
    } else {
      var more := ArgumentsTokens(arguments[1..]) + [RightParen] + rest;
      assert ts == first + ([Comma] + more);
      ExprReads(arguments[0], [Comma] + more);
      assert ([Comma] + more)[1..] == more;
      ArgumentListReads(arguments[1..], rest);
      assert [arguments[0]] + arguments[1..] == arguments;
    }
  }

  // --- Expressions -----------------------------------------------------------------------------------------

  predicate IsPrimary(e: Expr) {
    !e.PathExpr? && !e.FilterExpr? && !e.Negate?
  }

  /** A parenthesised expression is read as a primary one. */
  lemma {:induction false} ParenthesesRead(e: Expr, rest: seq<Token>)
    requires IsCanonical(e)
    ensures ParsePrimary([LeftParen] + TokensOf(e) + [RightParen] + rest) == Ok((e, rest))
    decreases e, 4
  {
    var ts := [LeftParen] + TokensOf(e) + [RightParen] + rest;
    assert ts[1..] == TokensOf(e) + ([RightParen] + rest);
    ExprReads(e, [RightParen] + rest);
    assert ([RightParen] + rest)[1..] == rest;
  }

  lemma {:induction false} CallReads(e: Expr, rest: seq<Token>)
    requires IsCanonical(e) && e.Function?
    ensures ParsePrimary(TokensOf(e) + rest) == Ok((e, rest))
    decreases e, 0
  {
    hide ArgumentsTokens;
    var ts := TokensOf(e) + rest;
    var inside := ArgumentsTokens(e.arguments) + [RightParen] + rest;
    assert ts[0] == FunctionToken(e.prefix, e.local) && ts[1..] == [LeftParen] + inside;
    assert Expect(ts[1..], LeftParen) == Ok(inside);
    ArgumentsRead(e.arguments, rest);
    hide IsCanonical, ParseArguments;
  }

  lemma {:induction false} OperationIsPrimary(e: Expr, rest: seq<Token>)
    requires IsCanonical(e) && e.Binary?
    ensures ParsePrimary(TokensOf(e) + rest) == Ok((e, rest))
    decreases e, 0
  {
    hide EmbeddedTokens, OperatorToken;
    var ts := TokensOf(e) + rest;
    var inside := EmbeddedTokens(e.left) + [OperatorToken(e.op)] + EmbeddedTokens(e.right);
    assert ts[0] == LeftParen && ts[1..] == inside + ([RightParen] + rest);
    OperationReads(e, rest);
    hide IsCanonical, ParseExpr;
    assert ([RightParen] + rest)[1..] == rest;
  }

  lemma {:induction false} PrimaryReads(e: Expr, rest: seq<Token>)
    requires IsCanonical(e) && IsPrimary(e)
    ensures ParsePrimary(TokensOf(e) + rest) == Ok((e, rest))
    decreases e, 1
  {
    var ts := TokensOf(e) + rest;
    if e.Binary? {
      OperationIsPrimary(e, rest);
    } else if e.Function? {
      CallReads(e, rest);
    } else {
      assert ts[1..] == rest;
    }
  }

  /** What begins with `-` or ends with `/` is parenthesised. */
  lemma ParenthesesWhereNeeded(e: Expr)
    ensures e.Negate? || IsRoot(e) ==> NeedsParentheses(Print(e))
  {
    RootEndsWithSlash(e);
  }

  lemma {:induction false} EmbeddedPrimaryReads(e: Expr, rest: seq<Token>)
    requires IsCanonical(e) && !e.FilterExpr? && (e.PathExpr? ==> e.path.steps == [])
    ensures ParsePrimary(EmbeddedTokens(e) + rest) == Ok((e, rest))
    decreases e, 5
  {
    ParenthesesWhereNeeded(e);
    if NeedsParentheses(Print(e)) {
      ParenthesesRead(e, rest);
    } else {
      PrimaryReads(e, rest);
    }
  }

  /** A primary expression with no predicate after it is a whole filter. */
  lemma FilterOfPrimary(ts: seq<Token>, e: Expr, rest: seq<Token>)
    requires ParsePrimary(ts) == Ok((e, rest)) && !Next(rest, LeftBracket)
    ensures ParseFilter(ts) == Ok((e, rest)) && StartsPrimary(ts)
  {
    assert ParsePredicates(rest) == Ok(([], rest));
  }

  /** The tokens of a filter: what is filtered, then the predicates. */
  function FilterHead(e: Expr): seq<Token>
    requires e.FilterExpr?
  {
    if AbsorbsPredicates(e.filtered) then [LeftParen] + TokensOf(e.filtered) + [RightParen] else EmbeddedTokens(e.filtered)
  }

  lemma FilterSplits(e: Expr, rest: seq<Token>)
    requires e.FilterExpr?
    ensures TokensOf(e) + rest == FilterHead(e) + (PredicatesTokens(e.predicates) + rest)
  {
    assert TokensOf(e) == FilterHead(e) + PredicatesTokens(e.predicates) by {
      hide EmbeddedTokens, PredicatesTokens;
    }
    hide *;
  }

  lemma FilterOf(ts: seq<Token>, e: Expr, between: seq<Token>, rest: seq<Token>)
    requires e.FilterExpr? && e.predicates != []
    requires ParsePrimary(ts) == Ok((e.filtered, between)) && ParsePredicates(between) == Ok((e.predicates, rest))
    requires !e.filtered.FilterExpr?
    ensures ParseFilter(ts) == Ok((e, rest)) && StartsPrimary(ts)
  {
    assert StartsPrimary(ts);
    hide ParsePrimary, ParsePredicates;
  }

  lemma {:induction false} FilterTokensRead(e: Expr, rest: seq<Token>)
    requires e.FilterExpr? && IsCanonical(e) && !Next(rest, LeftBracket)
    ensures ParseFilter(TokensOf(e) + rest) == Ok((e, rest)) && StartsPrimary(TokensOf(e) + rest)
    decreases e, 0
  {
    var predicates := PredicatesTokens(e.predicates);
    PredicatesRead(e.predicates, rest);
    FilterSplits(e, rest);
    if AbsorbsPredicates(e.filtered) {
      ParenthesesRead(e.filtered, predicates + rest);
    } else {
      EmbeddedPrimaryReads(e.filtered, predicates + rest);
    }
    FilterOf(TokensOf(e) + rest, e, predicates + rest, rest);
  }

  lemma {:induction false} EmbeddedFilterReads(e: Expr, rest: seq<Token>)
    requires IsCanonical(e) && !e.PathExpr? && !Next(rest, LeftBracket)
    ensures ParseFilter(EmbeddedTokens(e) + rest) == Ok((e, rest)) && StartsPrimary(EmbeddedTokens(e) + rest)
    decreases e, 6
  {
    if !e.FilterExpr? {
      EmbeddedPrimaryReads(e, rest);
      FilterOfPrimary(EmbeddedTokens(e) + rest, e, rest);
    } else if NeedsParentheses(Print(e)) {
      ParenthesesRead(e, rest);
      FilterOfPrimary(EmbeddedTokens(e) + rest, e, rest);
    } else {
      FilterTokensRead(e, rest);
    }
  }

  /** A path whose tokens are followed by nothing that continues it. */
  lemma {:induction false} PathReads(path: Path, rest: seq<Token>)
    requires IsCanonical(PathExpr(path)) && StopsSteps(rest) && (path.steps == [] ==> !StartsStep(rest))
    ensures ParsePath(PathTokens(path) + rest) == Ok((PathExpr(path), rest))
    ensures !Next(PathTokens(path) + rest, MinusToken)
    decreases path, 1
  {
    hide ParseFilter, ParseSteps, ParsePath, EmbeddedTokens;
    var ts, steps := PathTokens(path) + rest, StepsTokens(path.steps);
    if path.steps != [] {
      StepsRead(path.steps, rest);
    }
    match path.start
    case RootStart =>
      assert ts[0] == Slash && ts[1..] == steps + rest;
      if path.steps == [] {
        assert ts[1..] == rest;
      }
      LocationPathReads(ts, path, rest);
    case ContextStart => LocationPathReads(ts, path, rest);
    case ExprStart(e) =>
      ContinuedReads(path, rest);
  }

  lemma {:induction false} ContinuedReads(path: Path, rest: seq<Token>)
    requires IsCanonical(PathExpr(path)) && path.start.ExprStart? && StopsSteps(rest)
    requires ParseSteps(StepsTokens(path.steps) + rest) == Ok((path.steps, rest))
    ensures ParsePath(PathTokens(path) + rest) == Ok((PathExpr(path), rest))
    ensures !Next(PathTokens(path) + rest, MinusToken)
    decreases path, 0
  {
    hide ParseFilter, ParseSteps, ParsePath, EmbeddedTokens, StepsTokens;
    var e, after := path.start.expr, [Slash] + (StepsTokens(path.steps) + rest);
    assert PathTokens(path) + rest == EmbeddedTokens(e) + after;
    assert after[1..] == StepsTokens(path.steps) + rest;
    EmbeddedFilterReads(e, after);
    FilterThenSteps(PathTokens(path) + rest, e, after, path.steps, rest);
  }

  lemma LocationPathReads(ts: seq<Token>, path: Path, rest: seq<Token>)
    requires match path.start
             case RootStart => Next(ts, Slash) && (if path.steps == [] then ts[1..] == rest && !StartsStep(rest)
                                                   else ParseSteps(ts[1..]) == Ok((path.steps, rest)) && StartsStep(ts[1..]))
             case ContextStart => ParseSteps(ts) == Ok((path.steps, rest)) && ts != [] && ts[0].AxisToken?
             case ExprStart(_) => false
    ensures ParsePath(ts) == Ok((PathExpr(path), rest))
  {
    hide ParseSteps;
    assert !StartsPrimary(ts);
    assert ParseLocationPath(ts) == Ok((path, rest));
  }

  lemma FilterThenSteps(ts: seq<Token>, start: Expr, after: seq<Token>, steps: seq<Step>, rest: seq<Token>)
    requires StartsPrimary(ts) && ParseFilter(ts) == Ok((start, after)) && !start.PathExpr?
    requires Next(after, Slash) && ParseSteps(after[1..]) == Ok((steps, rest))
    ensures ParsePath(ts) == Ok((PathExpr(Path(ExprStart(start), steps)), rest)) && !Next(ts, MinusToken)
  {
    hide ParseSteps, ParseFilter;
  }

  /** Anything but a negation is read where a path may stand. */
  lemma {:induction false} OperandReads(e: Expr, rest: seq<Token>)
    requires IsCanonical(e) && !e.Negate? && StopsSteps(rest) && (IsRoot(e) ==> !StartsStep(rest))
    ensures ParsePath(TokensOf(e) + rest) == Ok((e, rest)) && !Next(TokensOf(e) + rest, MinusToken)
    decreases e, 2
  {
    if e.PathExpr? {
      PathReads(e.path, rest);
    } else if e.FilterExpr? {
      FilterTokensRead(e, rest);
    } else {
      PrimaryReads(e, rest);
      FilterOfPrimary(TokensOf(e) + rest, e, rest);
    }
  }

  lemma {:induction false} EmbeddedReads(e: Expr, rest: seq<Token>)
    requires IsCanonical(e) && StopsSteps(rest)
    ensures ParsePath(EmbeddedTokens(e) + rest) == Ok((e, rest)) && !Next(EmbeddedTokens(e) + rest, MinusToken)
    decreases e, 5
  {
    ParenthesesWhereNeeded(e);
    if NeedsParentheses(Print(e)) {
      ParenthesesRead(e, rest);
      FilterOfPrimary(EmbeddedTokens(e) + rest, e, rest);
    } else {
      OperandReads(e, rest);
    }
  }

  /** The level an operator binds at; a union binds more tightly than any of them. */
  function LevelOf(op: BinaryOp): nat {
    match op
    case Or => 0
    case And => 1
    case Equal => 2
    case NotEqual => 2
    case Less => 3
    case LessEqual => 3
    case Greater => 3
    case GreaterEqual => 3
    case Add => 4
    case Subtract => 4
    case Multiply => 5
    case Divide => 5
    case Modulo => 5
    case Union => 6
  }

  lemma OperatorBinds(op: BinaryOp, rest: seq<Token>)
    ensures var ts := [OperatorToken(op)] + rest;
            && StopsSteps(ts)
            && (op != Union ==> StopsLevel(LevelOf(op) + 1, ts) && OperatorAt(LevelOf(op), OperatorToken(op)) == Some(op))
  {
  }

  /** What stands between the parentheses of a binary expression is read as that expression. */
  lemma {:induction false} OperationReads(e: Expr, rest: seq<Token>)
    requires e.Binary? && IsCanonical(e)
    ensures ParseExpr(EmbeddedTokens(e.left) + [OperatorToken(e.op)] + EmbeddedTokens(e.right) + ([RightParen] + rest))
            == Ok((e, [RightParen] + rest))
    decreases e, 0, 0
  {
    hide ParsePath, ParseBinary, ParseExpr, EmbeddedTokens;
    var closing := [RightParen] + rest;
    var afterOp := EmbeddedTokens(e.right) + closing;
    var afterLeft := [OperatorToken(e.op)] + afterOp;
    var ts := EmbeddedTokens(e.left) + [OperatorToken(e.op)] + EmbeddedTokens(e.right) + closing;
    assert ts == EmbeddedTokens(e.left) + afterLeft && afterLeft[1..] == afterOp;
    OperatorBinds(e.op, afterOp);
    EmbeddedReads(e.left, afterLeft);
    EmbeddedReads(e.right, closing);
    if e.op == Union {
      UnionReads(e, ts, afterLeft, closing);
    } else {
      var level := LevelOf(e.op);
      PathAtLevel(level + 1, ts, e.left, afterLeft);
      PathAtLevel(level + 1, afterOp, e.right, closing);
      LevelReads(e, level, ts, afterLeft, closing);
    }
  }

  lemma UnionReads(e: Expr, ts: seq<Token>, afterLeft: seq<Token>, closing: seq<Token>)
    requires e.Binary? && e.op == Union && Next(closing, RightParen) && Next(afterLeft, Pipe) && !Next(ts, MinusToken)
    requires ParsePath(ts) == Ok((e.left, afterLeft)) && ParsePath(afterLeft[1..]) == Ok((e.right, closing))
    ensures ParseExpr(ts) == Ok((e, closing))
  {
    assert UnionTail(e, closing) == Ok((e, closing));
    assert UnionTail(e.left, afterLeft) == Ok((e, closing));
    UnionAtLevels(ts, e.left, afterLeft, e, closing);
    Looser(0, LEVELS, ts, e, closing);
  }

  lemma LevelReads(e: Expr, level: nat, ts: seq<Token>, afterLeft: seq<Token>, closing: seq<Token>)
    requires e.Binary? && level < LEVELS && Next(closing, RightParen)
    requires afterLeft != [] && OperatorAt(level, afterLeft[0]) == Some(e.op)
    requires ParseBinary(level + 1, ts) == Ok((e.left, afterLeft))
    requires ParseBinary(level + 1, afterLeft[1..]) == Ok((e.right, closing))
    ensures ParseExpr(ts) == Ok((e, closing))
  {
    assert BinaryTail(level, e, closing) == Ok((e, closing));
    assert BinaryTail(level, e.left, afterLeft) == Ok((e, closing));
    assert ParseBinary(level, ts) == Ok((e, closing));
    Looser(0, level, ts, e, closing);
  }

  lemma {:induction false} NegationReads(e: Expr, rest: seq<Token>)
    requires IsCanonical(e) && e.Negate? && StopsExpr(rest)
    ensures ParseExpr(TokensOf(e) + rest) == Ok((e, rest))
    decreases e, 2
  {
    StopsEverything(rest);
    var ts := TokensOf(e) + rest;
    assert ts[0] == MinusToken && ts[1..] == EmbeddedTokens(e.operand) + rest;
    EmbeddedReads(e.operand, rest);
    hide TokensOf, EmbeddedTokens, IsCanonical, ParsePath;
    PathAtLevel(LEVELS, ts[1..], e.operand, rest);
    assert ParseBinary(LEVELS, ts) == Ok((e, rest));
    Looser(0, LEVELS, ts, e, rest);
  }

  /** Parsing the tokens of a canonical tree gives the tree back. */
  lemma {:induction false} ExprReads(e: Expr, rest: seq<Token>)
    requires IsCanonical(e) && StopsExpr(rest)
    ensures ParseExpr(TokensOf(e) + rest) == Ok((e, rest))
    decreases e, 3
  {
    StopsEverything(rest);
    if e.Negate? {
      NegationReads(e, rest);
    } else {
      OperandReads(e, rest);
      PathAtLevel(0, TokensOf(e) + rest, e, rest);
    }
  }

  /** Parsing the text of a canonical tree gives the tree back. */
  lemma PrintedParses(e: Expr)
    requires IsCanonical(e)
    ensures Parse(Print(e)) == Ok(e)
  {
    PrintedIsTokenized(e);
    ExprReads(e, []);
    assert TokensOf(e) + [] == TokensOf(e);
  }
}
