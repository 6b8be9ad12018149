/**
 From tokens to expression trees, each level of precedence by a function of its own. `ParseExpr` and
 the functions under it say what a level takes of the tokens and what it leaves.
 */
module XPathParser {
  import opened Wrappers
  import opened XPathAst
  import opened XPathLexer

  /** What was read, and the tokens after it. */
  type Parsed<T> = Result<(T, seq<Token>)>

  const LEVELS: nat := 6

  /** The operator a token is at a precedence level, loosest first. */
  function OperatorAt(level: nat, token: Token): Option<BinaryOp> {
    match (level, token)
    case (0, OrToken) => Some(Or)
    case (1, AndToken) => Some(And)
    case (2, EqualToken) => Some(Equal)
    case (2, NotEqualToken) => Some(NotEqual)
    case (3, LessEqualToken) => Some(LessEqual)
    case (3, GreaterEqualToken) => Some(GreaterEqual)
    case (3, LessToken) => Some(Less)
    case (3, GreaterToken) => Some(Greater)
    case (4, PlusToken) => Some(Add)
    case (4, MinusToken) => Some(Subtract)
    case (5, MultiplyToken) => Some(Multiply)
    case (5, DivToken) => Some(Divide)
    case (5, ModToken) => Some(Modulo)
    case _ => None
  }

  /** The operators of each binary level, loosest first. */
  const OPERATORS: seq<seq<(Token, BinaryOp)>> := [
    [(OrToken, Or)],
    [(AndToken, And)],
    [(EqualToken, Equal), (NotEqualToken, NotEqual)],
    [(LessEqualToken, LessEqual), (GreaterEqualToken, GreaterEqual), (LessToken, Less), (GreaterToken, Greater)],
    [(PlusToken, Add), (MinusToken, Subtract)],
    [(MultiplyToken, Multiply), (DivToken, Divide), (ModToken, Modulo)]
  ]

  predicate Next(ts: seq<Token>, token: Token) {
    ts != [] && ts[0] == token
  }

  function Expect(ts: seq<Token>, token: Token): (r: Result<seq<Token>>)
    ensures r.Ok? ==> |r.value| < |ts|
  {
    if Next(ts, token) then Ok(ts[1..]) else Err
  }

  // --- Precedence levels ----------------------------------------------------------------------------

  function ParseExpr(ts: seq<Token>): (r: Parsed<Expr>)
    ensures r.Ok? ==> |r.value.1| < |ts|
    decreases |ts|, 20
  {
    ParseBinary(0, ts)
  }

  /** An expression of one level: operands of the next, joined from the left. */
  function ParseBinary(level: nat, ts: seq<Token>): (r: Parsed<Expr>)
    requires level <= LEVELS
    ensures r.Ok? ==> |r.value.1| < |ts|
    decreases |ts|, 19 - level
  {
    if level == LEVELS then
      ParseUnary(ts)
    else
      var left :- ParseBinary(level + 1, ts);
      BinaryTail(level, left.0, left.1)
  }

  function BinaryTail(level: nat, left: Expr, ts: seq<Token>): (r: Parsed<Expr>)
    requires level < LEVELS
    ensures r.Ok? ==> |r.value.1| <= |ts|
    decreases |ts|, 0
  {
    if ts != [] && OperatorAt(level, ts[0]).Some? then
      var right :- ParseBinary(level + 1, ts[1..]);
      BinaryTail(level, Binary(OperatorAt(level, ts[0]).value, left, right.0), right.1)
    else
      Ok((left, ts))
  }

  function ParseUnary(ts: seq<Token>): (r: Parsed<Expr>)
    ensures r.Ok? ==> |r.value.1| < |ts|
    decreases |ts|, 12
  {
    if Next(ts, MinusToken) then
      var operand :- ParseUnary(ts[1..]);
      Ok((Negate(operand.0), operand.1))
    else
      ParseUnion(ts)
  }

  function ParseUnion(ts: seq<Token>): (r: Parsed<Expr>)
    ensures r.Ok? ==> |r.value.1| < |ts|
    decreases |ts|, 11
  {
    var left :- ParsePath(ts);
    UnionTail(left.0, left.1)
  }

  function UnionTail(left: Expr, ts: seq<Token>): (r: Parsed<Expr>)
    ensures r.Ok? ==> |r.value.1| <= |ts|
    decreases |ts|, 0
  {
    if Next(ts, Pipe) then
      var right :- ParsePath(ts[1..]);
      UnionTail(Binary(Union, left, right.0), right.1)
    else
      Ok((left, ts))
  }

  // --- Paths ----------------------------------------------------------------------------------------

  /** The step `//` stands for. */
  const ANY_DEPTH := Step(DescendantOrSelf, AnyNodeTest, [])

  predicate StartsPrimary(ts: seq<Token>) {
    ts != [] && (ts[0].VariableToken? || ts[0] == LeftParen || ts[0].LiteralToken? || ts[0].NumberToken? || ts[0].FunctionToken?)
  }

  /** A path from the context or the root, or a filter with steps after it. */
  function ParsePath(ts: seq<Token>): (r: Parsed<Expr>)
    ensures r.Ok? ==> |r.value.1| < |ts|
    decreases |ts|, 10
  {
    if !StartsPrimary(ts) then
      var path :- ParseLocationPath(ts);
      Ok((PathExpr(path.0), path.1))
    else
      var filter :- ParseFilter(ts);
      if Next(filter.1, Slash) then
        var steps :- ParseSteps(filter.1[1..]);
        Ok((Continued(filter.0, steps.0), steps.1))
      else if Next(filter.1, DoubleSlash) then
        var steps :- ParseSteps(filter.1[1..]);
        Ok((Continued(filter.0, [ANY_DEPTH] + steps.0), steps.1))
      else
        Ok(filter)
  }

  /** A path walked from what an expression yields; the steps of a path are spliced in. */
  function Continued(start: Expr, steps: seq<Step>): Expr {
    if start.PathExpr? then
      PathExpr(Path(start.path.start, start.path.steps + steps))
    else
      PathExpr(Path(ExprStart(start), steps))
  }

  function ParseLocationPath(ts: seq<Token>): (r: Parsed<Path>)
    ensures r.Ok? ==> |r.value.1| < |ts|
    decreases |ts|, 9
  {
    if Next(ts, DoubleSlash) then
      var steps :- ParseSteps(ts[1..]);
      Ok((Path(RootStart, [ANY_DEPTH] + steps.0), steps.1))
    else if Next(ts, Slash) then
      if StartsStep(ts[1..]) then
        var steps :- ParseSteps(ts[1..]);
        Ok((Path(RootStart, steps.0), steps.1))
      else
        Ok((Path(RootStart, []), ts[1..]))
    else
      var steps :- ParseSteps(ts);
      Ok((Path(ContextStart, steps.0), steps.1))
  }

  predicate StartsStep(ts: seq<Token>) {
    ts != [] && (ts[0] in {Dot, DotDot, At, Star} || ts[0].AxisToken? || ts[0].NameToken? || ts[0].WildcardToken? || ts[0].NodeTypeToken?)
  }

  /** At least one step; a `//` between two is a step of its own. */
  function ParseSteps(ts: seq<Token>): (r: Parsed<seq<Step>>)
    ensures r.Ok? ==> |r.value.1| < |ts| && r.value.0 != []
    decreases |ts|, 8
  {
    var first :- ParseStep(ts);
    StepsTail([first.0], first.1)
  }

  function StepsTail(steps: seq<Step>, ts: seq<Token>): (r: Parsed<seq<Step>>)
    ensures r.Ok? ==> |r.value.1| <= |ts| && |steps| <= |r.value.0|
    decreases |ts|, 0
  {
    if Next(ts, Slash) then
      var next :- ParseStep(ts[1..]);
      StepsTail(steps + [next.0], next.1)
    else if Next(ts, DoubleSlash) then
      var next :- ParseStep(ts[1..]);
      StepsTail(steps + [ANY_DEPTH, next.0], next.1)
    else
      Ok((steps, ts))
  }

  function ParseStep(ts: seq<Token>): (r: Parsed<Step>)
    ensures r.Ok? ==> |r.value.1| < |ts|
    decreases |ts|, 7
  {
    if Next(ts, Dot) then
      Ok((Step(SelfAxis, AnyNodeTest, []), ts[1..]))
    else if Next(ts, DotDot) then
      Ok((Step(Parent, AnyNodeTest, []), ts[1..]))
    else
      var axis :- ParseAxis(ts);
      var test :- ParseTest(axis.1);
      var predicates :- ParsePredicates(test.1);
      Ok((Step(axis.0, test.0, predicates.0), predicates.1))
  }

  function ParseAxis(ts: seq<Token>): (r: Parsed<Axis>)
    ensures r.Ok? ==> |r.value.1| <= |ts|
  {
    if Next(ts, At) then
      Ok((Attribute, ts[1..]))
    else if ts != [] && ts[0].AxisToken? then
      var rest :- Expect(ts[1..], ColonColon);
      Ok((ts[0].axis, rest))
    else
      Ok((Child, ts))
  }

  function ParseTest(ts: seq<Token>): (r: Parsed<NodeTest>)
    ensures r.Ok? ==> |r.value.1| < |ts|
  {
    if ts == [] then
      Err
    else
      match ts[0]
      case Star => Ok((NamedTest(AnyName), ts[1..]))
      case WildcardToken(prefix) => Ok((NamedTest(InNamespace(prefix)), ts[1..]))
      case NameToken(prefix, local) => Ok((NamedTest(QualifiedName(prefix, local)), ts[1..]))
      case NodeTypeToken(nodeType) =>
        var inside :- Expect(ts[1..], LeftParen);
        var test := match nodeType
                    case NodeType => (AnyNodeTest, inside)
                    case TextType => (TextTest, inside)
                    case CommentType => (CommentTest, inside)
                    case ProcessingInstructionType =>
                      if inside != [] && inside[0].LiteralToken? then
                        (ProcessingInstructionTest(Some(inside[0].text)), inside[1..])
                      else
                        (ProcessingInstructionTest(None), inside);
        var rest :- Expect(test.1, RightParen);
        Ok((test.0, rest))
      case _ => Err
  }

  /** As many bracketed expressions as there are. */
  function ParsePredicates(ts: seq<Token>): (r: Parsed<seq<Expr>>)
    ensures r.Ok? ==> |r.value.1| <= |ts|
    decreases |ts|, 0
  {
    if Next(ts, LeftBracket) then
      var first :- ParseExpr(ts[1..]);
      var rest :- Expect(first.1, RightBracket);
      var more :- ParsePredicates(rest);
      Ok(([first.0] + more.0, more.1))
    else
      Ok(([], ts))
  }

  // --- Primary expressions --------------------------------------------------------------------------

  /** A primary expression with its predicates; those of a filter are folded into it. */
  function ParseFilter(ts: seq<Token>): (r: Parsed<Expr>)
    ensures r.Ok? ==> |r.value.1| < |ts|
    decreases |ts|, 6
  {
    var primary :- ParsePrimary(ts);
    var predicates :- ParsePredicates(primary.1);
    Ok((Filtered(primary.0, predicates.0), predicates.1))
  }

  function Filtered(primary: Expr, predicates: seq<Expr>): Expr {
    if predicates == [] then primary
    else if primary.FilterExpr? then FilterExpr(primary.filtered, primary.predicates + predicates)
    else FilterExpr(primary, predicates)
  }

  function ParsePrimary(ts: seq<Token>): (r: Parsed<Expr>)
    ensures r.Ok? ==> |r.value.1| < |ts|
    decreases |ts|, 5
  {
    if ts == [] then
      Err
    else
      match ts[0]
      case VariableToken(prefix, local) => Ok((Variable(prefix, local), ts[1..]))
      case LiteralToken(text) => Ok((Literal(text), ts[1..]))
      case NumberToken(numeral) => Ok((Number(numeral), ts[1..]))
      case LeftParen =>
        var inner :- ParseExpr(ts[1..]);
        var rest :- Expect(inner.1, RightParen);
        Ok((inner.0, rest))
      case FunctionToken(prefix, local) =>
        var inside :- Expect(ts[1..], LeftParen);
        var arguments :- ParseArguments(inside);
        Ok((Function(prefix, local, arguments.0), arguments.1))
      case _ => Err
  }

  /** What stands between the parentheses of a call, up to and with the closing one. */
  function ParseArguments(ts: seq<Token>): (r: Parsed<seq<Expr>>)
    ensures r.Ok? ==> |r.value.1| < |ts|
    decreases |ts|, 22
  {
    if Next(ts, RightParen) then Ok(([], ts[1..])) else ParseArgumentList(ts)
  }

  function ParseArgumentList(ts: seq<Token>): (r: Parsed<seq<Expr>>)
    ensures r.Ok? ==> |r.value.1| < |ts|
    decreases |ts|, 21
  {
    var first :- ParseExpr(ts);
    if Next(first.1, Comma) then
      var more :- ParseArgumentList(first.1[1..]);
      Ok(([first.0] + more.0, more.1))
    else
      var rest :- Expect(first.1, RightParen);
      Ok(([first.0], rest))
  }

  /** A whole expression, which must account for every token. */
  function ParseTokens(ts: seq<Token>): Result<Expr> {
    var parsed :- ParseExpr(ts);
    if parsed.1 == [] then Ok(parsed.0) else Err
  }

  /** The tree of an expression's text. */
  function Parse(text: string): Result<Expr> {
    var tokens :- Tokenize(text, None);
    ParseTokens(tokens)
  }

  // --- The cursor -------------------------------------------------------------------------------------

  /** The first operator of a level that a token is, in the order the table gives them. */
  lemma OperatorAtIs(level: nat, token: Token, i: nat)
    requires level < LEVELS && i <= |OPERATORS[level]|
    requires forall k | 0 <= k < i :: OPERATORS[level][k].0 != token
    requires i < |OPERATORS[level]| ==> OPERATORS[level][i].0 == token
    ensures OperatorAt(level, token) == if i < |OPERATORS[level]| then Some(OPERATORS[level][i].1) else None
  {
    assert i > 0 ==> OPERATORS[level][0].0 != token;
    assert i > 1 ==> OPERATORS[level][1].0 != token;
    assert i > 2 ==> OPERATORS[level][2].0 != token;
    assert i > 3 ==> OPERATORS[level][3].0 != token;
  }

  /** What a list already read becomes when the rest of it is read. */
  function Joined<T>(read: seq<T>, more: Parsed<seq<T>>): Parsed<seq<T>> {
    if more.Ok? then Ok((read + more.value.0, more.value.1)) else Err
  }

  lemma JoinedNone<T>(more: Parsed<seq<T>>)
    ensures Joined([], more) == more
  {
    if more.Ok? {
      assert [] + more.value.0 == more.value.0;
    }
  }

  lemma JoinedMore<T>(read: seq<T>, next: T, more: Parsed<seq<T>>)
    ensures Joined(read + [next], more) == Joined(read, if more.Ok? then Ok(([next] + more.value.0, more.value.1)) else Err)
  {
    if more.Ok? {
      assert (read + [next]) + more.value.0 == read + ([next] + more.value.0);
    }
  }

  class Parser {
    const tokens: seq<Token>
    var at: nat

    ghost predicate Valid()
      reads this
    {
      at <= |tokens|
    }

    function Rest(): seq<Token>
      requires Valid()
      reads this
    {
      tokens[at..]
    }

    constructor (tokens: seq<Token>)
      ensures Valid() && this.tokens == tokens && at == 0
    {
      this.tokens := tokens;
      at := 0;
    }

    /** What was read is what `spec` says, and the cursor stands where `spec` leaves off. */
    ghost predicate Reads<T>(spec: Parsed<T>, r: Result<T>)
      reads this
    {
      && Valid()
      && match spec {
           case Err => r.Err?
           case Ok((value, rest)) => r == Ok(value) && Rest() == rest
         }
    }

    method Bump()
      requires Valid() && Rest() != []
      modifies this`at
      ensures Valid() && Rest() == old(Rest())[1..]
    {
      at := at + 1;
    }

    method Eat(expected: Token) returns (eaten: bool)
      requires Valid()
      modifies this`at
      ensures Valid() && eaten == Next(old(Rest()), expected)
      ensures Rest() == if eaten then old(Rest())[1..] else old(Rest())
    {
      eaten := Next(Rest(), expected);
      if eaten {
        Bump();
      }
    }

    method ExpectToken(expected: Token) returns (r: Result<()>)
      requires Valid()
      modifies this`at
      ensures Valid() && r.Ok? == Expect(old(Rest()), expected).Ok?
      ensures r.Ok? ==> Rest() == Expect(old(Rest()), expected).value
    {
      var eaten := Eat(expected);
      return if eaten then Ok(()) else Err;
    }

    method ReadExpr() returns (r: Result<Expr>)
      requires Valid()
      modifies this`at
      ensures Reads(ParseExpr(old(Rest())), r)
      decreases |Rest()|, 20
    {
      r := ReadBinary(0);
    }

    /** The operators of one level, taken from the left as they come. */
    method ReadBinary(level: nat) returns (r: Result<Expr>)
      requires level <= LEVELS && Valid()
      modifies this`at
      ensures Reads(ParseBinary(level, old(Rest())), r)
      decreases |Rest()|, 19 - level
    {
      if level == LEVELS {
        r := ReadUnary();
        return;
      }
      ghost var entry := Rest();
      hide OperatorAt;
      var left :- ReadBinary(level + 1);
      while true
        invariant Valid() && |Rest()| < |entry|
        invariant ParseBinary(level, entry) == BinaryTail(level, left, Rest())
        decreases |Rest()|
      {
        var op := ReadOperator(level);
        if op.None? {
          return Ok(left);
        }
        var right :- ReadBinary(level + 1);
        left := Binary(op.value, left, right);
      }
    }

    method ReadOperator(level: nat) returns (r: Option<BinaryOp>)
      requires level < LEVELS && Valid()
      modifies this`at
      ensures Valid()
      ensures var ts := old(Rest());
              if ts == [] then r.None? && Rest() == ts
              else r == OperatorAt(level, ts[0]) && Rest() == if r.Some? then ts[1..] else ts
    {
      ghost var ts := Rest();
      hide OperatorAt;
      for i := 0 to |OPERATORS[level]|
        invariant Valid() && Rest() == ts
        invariant ts != [] ==> forall k | 0 <= k < i :: OPERATORS[level][k].0 != ts[0]
      {
        var eaten := Eat(OPERATORS[level][i].0);
        if eaten {
          OperatorAtIs(level, ts[0], i);
          return Some(OPERATORS[level][i].1);
        }
      }
      if ts != [] {
        OperatorAtIs(level, ts[0], |OPERATORS[level]|);
      }
      return None;
    }

    method ReadUnary() returns (r: Result<Expr>)
      requires Valid()
      modifies this`at
      ensures Reads(ParseUnary(old(Rest())), r)
      decreases |Rest()|, 12
    {
      var negated := Eat(MinusToken);
      if negated {
        var operand :- ReadUnary();
        return Ok(Negate(operand));
      }
      r := ReadUnion();
    }

    method ReadUnion() returns (r: Result<Expr>)
      requires Valid()
      modifies this`at
      ensures Reads(ParseUnion(old(Rest())), r)
      decreases |Rest()|, 11
    {
      ghost var entry := Rest();
      var left :- ReadPath();
      while true
        invariant Valid() && |Rest()| < |entry|
        invariant ParseUnion(entry) == UnionTail(left, Rest())
        decreases |Rest()|
      {
        var more := Eat(Pipe);
        if !more {
          return Ok(left);
        }
        var right :- ReadPath();
        left := Binary(Union, left, right);
      }
    }

    /** A path from the context or the root, or a filter with steps after it. */
    method ReadPath() returns (r: Result<Expr>)
      requires Valid()
      modifies this`at
      ensures Reads(ParsePath(old(Rest())), r)
      decreases |Rest()|, 10
    {
      if !StartsPrimary(Rest()) {
        var path :- ReadLocationPath();
        return Ok(PathExpr(path));
      }
      var filter :- ReadFilter();
      var steps: seq<Step>;
      var slash := Eat(Slash);
      if slash {
        steps :- ReadSteps();
      } else {
        var doubled := Eat(DoubleSlash);
        if !doubled {
          return Ok(filter);
        }
        steps :- ReadSteps();
        steps := [ANY_DEPTH] + steps;
      }
      if filter.PathExpr? {
        return Ok(PathExpr(Path(filter.path.start, filter.path.steps + steps)));
      }
      return Ok(PathExpr(Path(ExprStart(filter), steps)));
    }

    method ReadLocationPath() returns (r: Result<Path>)
      requires Valid()
      modifies this`at
      ensures Reads(ParseLocationPath(old(Rest())), r)
      decreases |Rest()|, 9
    {
      var doubled := Eat(DoubleSlash);
      if doubled {
        var steps :- ReadSteps();
        return Ok(Path(RootStart, [ANY_DEPTH] + steps));
      }
      var slash := Eat(Slash);
      if slash {
        if !StartsStep(Rest()) {
          return Ok(Path(RootStart, []));
        }
        var steps :- ReadSteps();
        return Ok(Path(RootStart, steps));
      }
      var steps :- ReadSteps();
      return Ok(Path(ContextStart, steps));
    }

    /** At least one step; a `//` between two is a step of its own. */
    method ReadSteps() returns (r: Result<seq<Step>>)
      requires Valid()
      modifies this`at
      ensures Reads(ParseSteps(old(Rest())), r)
      decreases |Rest()|, 8
    {
      ghost var entry := Rest();
      var first :- ReadStep();
      var steps := [first];
      while true
        invariant Valid() && |Rest()| < |entry|
        invariant ParseSteps(entry) == StepsTail(steps, Rest())
        decreases |Rest()|
      {
        var slash := Eat(Slash);
        if slash {
          var next :- ReadStep();
          steps := steps + [next];
        } else {
          var doubled := Eat(DoubleSlash);
          if !doubled {
            return Ok(steps);
          }
          var next :- ReadStep();
          steps := steps + [ANY_DEPTH, next];
        }
      }
    }

    method ReadStep() returns (r: Result<Step>)
      requires Valid()
      modifies this`at
      ensures Reads(ParseStep(old(Rest())), r)
      decreases |Rest()|, 7
    {
      hide ParseTest, ParseAxis;
      var dot := Eat(Dot);
      if dot {
        return Ok(Step(SelfAxis, AnyNodeTest, []));
      }
      var dots := Eat(DotDot);
      if dots {
        return Ok(Step(Parent, AnyNodeTest, []));
      }
      var axis :- ReadAxis();
      var test :- ReadTest();
      var predicates :- ReadPredicates();
      return Ok(Step(axis, test, predicates));
    }

    method ReadAxis() returns (r: Result<Axis>)
      requires Valid()
      modifies this`at
      ensures Reads(ParseAxis(old(Rest())), r)
    {
      var named := if Rest() != [] && Rest()[0].AxisToken? then Some(Rest()[0].axis) else None;
      var abbreviated := Eat(At);
      if abbreviated {
        return Ok(Attribute);
      }
      if named.Some? {
        Bump();
        var _ :- ExpectToken(ColonColon);
        return Ok(named.value);
      }
      return Ok(Child);
    }

    method ReadTest() returns (r: Result<NodeTest>)
      requires Valid()
      modifies this`at
      ensures Reads(ParseTest(old(Rest())), r)
    {
      if Rest() == [] {
        return Err;
      }
      match Rest()[0]
      case Star =>
        Bump();
        return Ok(NamedTest(AnyName));
      case WildcardToken(prefix) =>
        Bump();
        return Ok(NamedTest(InNamespace(prefix)));
      case NameToken(prefix, local) =>
        Bump();
        return Ok(NamedTest(QualifiedName(prefix, local)));
      case NodeTypeToken(nodeType) =>
        Bump();
        var _ :- ExpectToken(LeftParen);
        var test := AnyNodeTest;
        match nodeType {
          case NodeType => test := AnyNodeTest;
          case TextType => test := TextTest;
          case CommentType => test := CommentTest;
          case ProcessingInstructionType =>
            if Rest() != [] && Rest()[0].LiteralToken? {
              test := ProcessingInstructionTest(Some(Rest()[0].text));
              Bump();
            } else {
              test := ProcessingInstructionTest(None);
            }
        }
        var _ :- ExpectToken(RightParen);
        return Ok(test);
      case _ => return Err;
    }

    /** As many bracketed expressions as there are. */
    method ReadPredicates() returns (r: Result<seq<Expr>>)
      requires Valid()
      modifies this`at
      ensures Reads(ParsePredicates(old(Rest())), r)
      decreases |Rest()|, 1
    {
      ghost var entry := Rest();
      var predicates: seq<Expr> := [];
      JoinedNone(ParsePredicates(entry));
      while true
        invariant Valid() && |Rest()| <= |entry|
        invariant ParsePredicates(entry) == Joined(predicates, ParsePredicates(Rest()))
        decreases |Rest()|
      {
        var open := Eat(LeftBracket);
        if !open {
          assert predicates + [] == predicates;
          return Ok(predicates);
        }
        var condition :- ReadExpr();
        var _ :- ExpectToken(RightBracket);
        JoinedMore(predicates, condition, ParsePredicates(Rest()));
        predicates := predicates + [condition];
      }
    }

    /** A primary expression with its predicates; those of a filter are folded into it. */
    method ReadFilter() returns (r: Result<Expr>)
      requires Valid()
      modifies this`at
      ensures Reads(ParseFilter(old(Rest())), r)
      decreases |Rest()|, 6
    {
      var primary :- ReadPrimary();
      var predicates :- ReadPredicates();
      if predicates == [] {
        return Ok(primary);
      }
      if primary.FilterExpr? {
        return Ok(FilterExpr(primary.filtered, primary.predicates + predicates));
      }
      return Ok(FilterExpr(primary, predicates));
    }

    method ReadPrimary() returns (r: Result<Expr>)
      requires Valid()
      modifies this`at
      ensures Reads(ParsePrimary(old(Rest())), r)
      decreases |Rest()|, 5
    {
      if Rest() == [] {
        return Err;
      }
      match Rest()[0]
      case VariableToken(prefix, local) =>
        Bump();
        return Ok(Variable(prefix, local));
      case LiteralToken(text) =>
        Bump();
        return Ok(Literal(text));
      case NumberToken(numeral) =>
        Bump();
        return Ok(Number(numeral));
      case LeftParen =>
        Bump();
        var inner :- ReadExpr();
        var _ :- ExpectToken(RightParen);
        return Ok(inner);
      case FunctionToken(prefix, local) =>
        Bump();
        var _ :- ExpectToken(LeftParen);
        var arguments :- ReadArguments();
        return Ok(Function(prefix, local, arguments));
      case _ => return Err;
    }

    /** What stands between the parentheses of a call, up to and with the closing one. */
    method ReadArguments() returns (r: Result<seq<Expr>>)
      requires Valid()
      modifies this`at
      ensures Reads(ParseArguments(old(Rest())), r)
      decreases |Rest()|, 22
    {
      ghost var entry := Rest();
      var arguments: seq<Expr> := [];
      var none := Eat(RightParen);
      if none {
        return Ok(arguments);
      }
      JoinedNone(ParseArgumentList(entry));
      while true
        invariant Valid() && |Rest()| <= |entry|
        invariant ParseArguments(entry) == Joined(arguments, ParseArgumentList(Rest()))
        decreases |Rest()|
      {
        var argument :- ReadExpr();
        var more := Eat(Comma);
        if more {
          JoinedMore(arguments, argument, ParseArgumentList(Rest()));
          arguments := arguments + [argument];
        } else {
          arguments := arguments + [argument];
          var _ :- ExpectToken(RightParen);
          return Ok(arguments);
        }
      }
    }

    /** The tree of an expression's tokens, all of which it must account for. */
    static method Run(tokens: seq<Token>) returns (r: Result<Expr>)
      ensures r == ParseTokens(tokens)
    {
      var parser := new Parser(tokens);
      assert parser.Rest() == tokens;
      var e :- parser.ReadExpr();
      return if parser.Rest() == [] then Ok(e) else Err;
    }
  }

  /** The whole of parsing: the tokens, and then the tree they spell. */
  method Compile(text: string) returns (r: Result<Expr>)
    ensures r == Parse(text)
  {
    var tokens :- Lexer.Run(text);
    r := Parser.Run(tokens);
  }
}
