/** Every tree the parser returns is canonical, so printing it and parsing the text gives it back. */
module XPathCanonical {
  import opened Strings
  import opened Wrappers
  import opened XPathAst
  import opened XPathLexer
  import opened XPathPrinter
  import opened XPathSpelling
  import opened XPathParser
  import opened XPathRoundTrip

  // --- What the lexer promises about a token ------------------------------------------------------------

  predicate IsSound(token: Token) {
    match token
    case NameToken(prefix, local) => IsQName(prefix, local)
    case VariableToken(prefix, local) => IsQName(prefix, local)
    case FunctionToken(prefix, local) => IsQName(prefix, local) && (prefix.None? ==> NodeTypeNamed(local).None?)
    case WildcardToken(namespace) => IsNcname(namespace)
    case LiteralToken(text) => IsQuotable(text)
    case NumberToken(numeral) => IsShortest(numeral)
    case _ => true
  }

  predicate AreSound(ts: seq<Token>) {
    forall t | t in ts :: IsSound(t)
  }

  lemma {:induction false} LeadingZeros(s: string)
    requires s != [] && AreDigits(s)
    ensures var r := WithoutLeadingZeros(s); r != [] && AreDigits(r) && (|r| > 1 ==> r[0] != '0')
  {
    if |s| > 1 && s[0] == '0' {
      LeadingZeros(s[1..]);
    }
  }

  lemma {:induction false} TrailingZeros(s: string)
    requires AreDigits(s)
    ensures var r := WithoutTrailingZeros(s); AreDigits(r) && (r != [] ==> r[|r| - 1] != '0')
  {
    if s != [] && s[|s| - 1] == '0' {
      TrailingZeros(s[..|s| - 1]);
    }
  }

  lemma NumeralIsShortest(whole: string, fraction: string)
    requires AreDigits(whole) && AreDigits(fraction)
    ensures IsShortest(NumeralOf(whole, fraction))
  {
    LeadingZeros(if whole == [] then "0" else whole);
    TrailingZeros(fraction);
    hide WithoutLeadingZeros, WithoutTrailingZeros;
  }

  lemma NumbersAreShortest(s: string)
    ensures IsShortest(NumberAt(s).0)
  {
    hide IsShortest, NumeralOf, DigitLength, IsDigit;
    var n := DigitLength(s);
    if n < |s| && s[n] == '.' {
      var m := DigitLength(s[n + 1..]);
      assert s[n + 1..n + 1 + m] == s[n + 1..][..m];
      NumeralIsShortest(s[..n], s[n + 1..n + 1 + m]);
    } else {
      NumeralIsShortest(s[..n], []);
    }
  }

  lemma LiteralIsSound(s: string)
    requires s != [] && s[0] in {'"', '\''} && LiteralAt(s).Ok?
    ensures IsSound(LiteralAt(s).value.0)
  {
    var end := Find(s[1..], s[0]).value;
    assert s[1..1 + end] == s[1..][..end];
  }

  lemma NameIsSound(s: string, previous: Option<Token>)
    requires NameTokenAt(s, previous).Ok?
    ensures IsSound(NameTokenAt(s, previous).value.0)
  {
    hide QNameAt, SkipWhitespace, AxisNamed, PrecedesOperand, IsNcname;
  }

  lemma PunctuationIsSound(c: char, previous: Option<Token>)
    ensures Punctuation(c, previous).Some? ==> IsSound(Punctuation(c, previous).value)
  {
  }

  lemma NextTokenIsSound(s: string, previous: Option<Token>)
    requires s != [] && NextToken(s, previous).Ok?
    ensures IsSound(NextToken(s, previous).value.0)
  {
    hide NumberAt, IsShortest, IsNcnameStartChar, IsNcnameChar, LiteralAt, NameTokenAt, Punctuation, QNameAt, IsNcname;
    PunctuationIsSound(s[0], previous);
    NumbersAreShortest(s);
    if PairAt(s).None? && Punctuation(s[0], previous).None? {
      if s[0] in {'"', '\''} {
        LiteralIsSound(s);
      } else if NameTokenAt(s, previous).Ok? {
        NameIsSound(s, previous);
      }
    }
  }

  lemma {:induction false} TokensAreSound(s: string, previous: Option<Token>)
    requires Tokenize(s, previous).Ok?
    ensures AreSound(Tokenize(s, previous).value)
    decreases |s|
  {
    var rest := SkipWhitespace(s);
    if rest != [] {
      hide IsSound, NextToken;
      NextTokenIsSound(rest, previous);
      var next := NextToken(rest, previous).value;
      TokensAreSound(rest[next.1..], Some(next.0));
    }
  }

  // --- What the parser makes of sound tokens --------------------------------------------------------------

  predicate AllCanonical(es: seq<Expr>) {
    forall e | e in es :: IsCanonical(e)
  }

  predicate AllCanonicalSteps(steps: seq<Step>) {
    forall step | step in steps :: IsCanonicalStep(step)
  }

  lemma {:induction false} ExprIsCanonical(ts: seq<Token>)
    requires AreSound(ts) && ParseExpr(ts).Ok?
    ensures IsCanonical(ParseExpr(ts).value.0) && AreSound(ParseExpr(ts).value.1)
    decreases |ts|, 20
  {
    hide IsCanonical, IsSound;
    BinaryIsCanonical(0, ts);
  }

  lemma {:induction false} BinaryIsCanonical(level: nat, ts: seq<Token>)
    requires level <= LEVELS && AreSound(ts) && ParseBinary(level, ts).Ok?
    ensures IsCanonical(ParseBinary(level, ts).value.0) && AreSound(ParseBinary(level, ts).value.1)
    decreases |ts|, 19 - level
  {
    hide IsCanonical, IsSound;
    if level == LEVELS {
      UnaryIsCanonical(ts);
    } else {
      BinaryIsCanonical(level + 1, ts);
      var left := ParseBinary(level + 1, ts).value;
      BinaryTailIsCanonical(level, left.0, left.1);
    }
  }

  lemma {:induction false} BinaryTailIsCanonical(level: nat, left: Expr, ts: seq<Token>)
    requires level < LEVELS && AreSound(ts) && IsCanonical(left) && BinaryTail(level, left, ts).Ok?
    ensures IsCanonical(BinaryTail(level, left, ts).value.0) && AreSound(BinaryTail(level, left, ts).value.1)
    decreases |ts|, 0
  {
    hide IsSound;
    if ts != [] && OperatorAt(level, ts[0]).Some? {
      BinaryIsCanonical(level + 1, ts[1..]);
      var right := ParseBinary(level + 1, ts[1..]).value;
      BinaryTailIsCanonical(level, Binary(OperatorAt(level, ts[0]).value, left, right.0), right.1);
    }
  }

  lemma {:induction false} UnaryIsCanonical(ts: seq<Token>)
    requires AreSound(ts) && ParseUnary(ts).Ok?
    ensures IsCanonical(ParseUnary(ts).value.0) && AreSound(ParseUnary(ts).value.1)
    decreases |ts|, 12
  {
    hide IsSound;
    if Next(ts, MinusToken) {
      UnaryIsCanonical(ts[1..]);
    } else {
      UnionIsCanonical(ts);
    }
  }

  lemma {:induction false} UnionIsCanonical(ts: seq<Token>)
    requires AreSound(ts) && ParseUnion(ts).Ok?
    ensures IsCanonical(ParseUnion(ts).value.0) && AreSound(ParseUnion(ts).value.1)
    decreases |ts|, 11
  {
    hide IsCanonical, IsSound;
    PathIsCanonical(ts);
    UnionTailIsCanonical(ParsePath(ts).value.0, ParsePath(ts).value.1);
  }

  lemma {:induction false} UnionTailIsCanonical(left: Expr, ts: seq<Token>)
    requires AreSound(ts) && IsCanonical(left) && UnionTail(left, ts).Ok?
    ensures IsCanonical(UnionTail(left, ts).value.0) && AreSound(UnionTail(left, ts).value.1)
    decreases |ts|, 0
  {
    hide IsSound;
    if Next(ts, Pipe) {
      PathIsCanonical(ts[1..]);
      var right := ParsePath(ts[1..]).value;
      UnionTailIsCanonical(Binary(Union, left, right.0), right.1);
    }
  }

  /** Splicing keeps a tree canonical, and keeps a path from being started by a path. */
  lemma ContinuedIsCanonical(start: Expr, steps: seq<Step>)
    requires IsCanonical(start) && AllCanonicalSteps(steps) && steps != []
    ensures IsCanonical(Continued(start, steps))
  {
    if start.PathExpr? {
      assert forall step | step in start.path.steps + steps :: IsCanonicalStep(step);
    }
  }

  lemma AnyDepthFirst(steps: seq<Step>)
    requires AllCanonicalSteps(steps)
    ensures AllCanonicalSteps([ANY_DEPTH] + steps)
  {
    assert IsCanonicalStep(ANY_DEPTH);
  }

  lemma {:induction false} PathIsCanonical(ts: seq<Token>)
    requires AreSound(ts) && ParsePath(ts).Ok?
    ensures IsCanonical(ParsePath(ts).value.0) && AreSound(ParsePath(ts).value.1)
    decreases |ts|, 10
  {
    hide IsCanonicalStep, IsSound, Continued, IsCanonical;
    if !StartsPrimary(ts) {
      LocationPathIsCanonical(ts);
    } else {
      FilterIsCanonical(ts);
      var filter := ParseFilter(ts).value;
      if Next(filter.1, Slash) || Next(filter.1, DoubleSlash) {
        StepsAreCanonical(filter.1[1..]);
        var steps := ParseSteps(filter.1[1..]).value.0;
        AnyDepthFirst(steps);
        ContinuedIsCanonical(filter.0, steps);
        ContinuedIsCanonical(filter.0, [ANY_DEPTH] + steps);
      }
    }
  }

  lemma {:induction false} LocationPathIsCanonical(ts: seq<Token>)
    requires AreSound(ts) && ParseLocationPath(ts).Ok?
    ensures IsCanonical(PathExpr(ParseLocationPath(ts).value.0)) && AreSound(ParseLocationPath(ts).value.1)
    decreases |ts|, 9
  {
    hide IsCanonicalStep, IsSound;
    if Next(ts, DoubleSlash) {
      StepsAreCanonical(ts[1..]);
      AnyDepthFirst(ParseSteps(ts[1..]).value.0);
    } else if Next(ts, Slash) {
      if StartsStep(ts[1..]) {
        StepsAreCanonical(ts[1..]);
      }
    } else {
      StepsAreCanonical(ts);
    }
  }

  lemma {:induction false} StepsAreCanonical(ts: seq<Token>)
    requires AreSound(ts) && ParseSteps(ts).Ok?
    ensures AllCanonicalSteps(ParseSteps(ts).value.0) && AreSound(ParseSteps(ts).value.1)
    decreases |ts|, 8
  {
    hide IsCanonicalStep, IsSound;
    StepIsCanonical(ts);
    StepsTailIsCanonical([ParseStep(ts).value.0], ParseStep(ts).value.1);
  }

  lemma {:induction false} StepsTailIsCanonical(steps: seq<Step>, ts: seq<Token>)
    requires AreSound(ts) && AllCanonicalSteps(steps) && StepsTail(steps, ts).Ok?
    ensures AllCanonicalSteps(StepsTail(steps, ts).value.0) && AreSound(StepsTail(steps, ts).value.1)
    decreases |ts|, 0
  {
    hide IsSound;
    if Next(ts, Slash) {
      StepIsCanonical(ts[1..]);
      hide IsCanonicalStep;
      var next := ParseStep(ts[1..]).value;
      StepsTailIsCanonical(steps + [next.0], next.1);
    } else if Next(ts, DoubleSlash) {
      StepIsCanonical(ts[1..]);
      var next := ParseStep(ts[1..]).value;
      assert IsCanonicalStep(ANY_DEPTH);
      StepsTailIsCanonical(steps + [ANY_DEPTH, next.0], next.1);
    }
  }

  lemma TestIsCanonical(ts: seq<Token>)
    requires AreSound(ts) && ParseTest(ts).Ok?
    ensures IsCanonicalTest(ParseTest(ts).value.0) && AreSound(ParseTest(ts).value.1)
  {
    assert IsSound(ts[0]);
    if ts[0].NodeTypeToken? {
      var inside := Expect(ts[1..], LeftParen).value;
      assert AreSound(inside);
      if inside != [] {
        assert IsSound(inside[0]);
      }
    }
  }

  lemma {:induction false} StepIsCanonical(ts: seq<Token>)
    requires AreSound(ts) && ParseStep(ts).Ok?
    ensures IsCanonicalStep(ParseStep(ts).value.0) && AreSound(ParseStep(ts).value.1)
    decreases |ts|, 7
  {
    hide IsSound, ParseTest, ParsePredicates;
    if !Next(ts, Dot) && !Next(ts, DotDot) {
      var axis := ParseAxis(ts).value;
      assert AreSound(axis.1);
      TestIsCanonical(axis.1);
      PredicatesAreCanonical(ParseTest(axis.1).value.1);
    }
  }

  lemma {:induction false} PredicatesAreCanonical(ts: seq<Token>)
    requires AreSound(ts) && ParsePredicates(ts).Ok?
    ensures AllCanonical(ParsePredicates(ts).value.0) && AreSound(ParsePredicates(ts).value.1)
    decreases |ts|, 0
  {
    hide IsSound, IsCanonical;
    if Next(ts, LeftBracket) {
      ExprIsCanonical(ts[1..]);
      var rest := Expect(ParseExpr(ts[1..]).value.1, RightBracket).value;
      PredicatesAreCanonical(rest);
    }
  }

  /** Folding keeps a tree canonical, and keeps a filter from being filtered. */
  lemma FilteredIsCanonical(primary: Expr, predicates: seq<Expr>)
    requires IsCanonical(primary) && AllCanonical(predicates)
    ensures IsCanonical(Filtered(primary, predicates))
  {
    if predicates != [] && primary.FilterExpr? {
      assert forall p | p in primary.predicates + predicates :: IsCanonical(p);
    }
  }

  lemma {:induction false} FilterIsCanonical(ts: seq<Token>)
    requires AreSound(ts) && ParseFilter(ts).Ok?
    ensures IsCanonical(ParseFilter(ts).value.0) && AreSound(ParseFilter(ts).value.1)
    decreases |ts|, 6
  {
    hide IsSound, IsCanonical, Filtered;
    PrimaryIsCanonical(ts);
    var primary := ParsePrimary(ts).value;
    PredicatesAreCanonical(primary.1);
    FilteredIsCanonical(primary.0, ParsePredicates(primary.1).value.0);
  }

  lemma {:induction false} PrimaryIsCanonical(ts: seq<Token>)
    requires AreSound(ts) && ParsePrimary(ts).Ok?
    ensures IsCanonical(ParsePrimary(ts).value.0) && AreSound(ParsePrimary(ts).value.1)
    decreases |ts|, 5
  {
    assert IsSound(ts[0]);
    if ts[0] == LeftParen {
      ExprIsCanonical(ts[1..]);
    } else if ts[0].FunctionToken? {
      ArgumentsAreCanonical(Expect(ts[1..], LeftParen).value);
    }
  }

  lemma {:induction false} ArgumentsAreCanonical(ts: seq<Token>)
    requires AreSound(ts) && ParseArguments(ts).Ok?
    ensures AllCanonical(ParseArguments(ts).value.0) && AreSound(ParseArguments(ts).value.1)
    decreases |ts|, 22
  {
    hide IsSound, IsCanonical;
    if !Next(ts, RightParen) {
      ArgumentListIsCanonical(ts);
    }
  }

  lemma {:induction false} ArgumentListIsCanonical(ts: seq<Token>)
    requires AreSound(ts) && ParseArgumentList(ts).Ok?
    ensures AllCanonical(ParseArgumentList(ts).value.0) && AreSound(ParseArgumentList(ts).value.1)
    decreases |ts|, 21
  {
    hide IsSound, IsCanonical;
    ExprIsCanonical(ts);
    var first := ParseExpr(ts).value;
    if Next(first.1, Comma) {
      ArgumentListIsCanonical(first.1[1..]);
    }
  }

  // --- The round trip ---------------------------------------------------------------------------------------

  /** The parser returns only canonical trees. */
  lemma ParsedIsCanonical(text: string)
    requires Parse(text).Ok?
    ensures IsCanonical(Parse(text).value)
  {
    hide IsCanonical, IsSound;
    TokensAreSound(text, None);
    ExprIsCanonical(Tokenize(text, None).value);
  }

  /** Printing what was parsed and parsing that again gives the same tree. */
  lemma ParsePrintParse(text: string)
    requires Parse(text).Ok?
    ensures Parse(Print(Parse(text).value)) == Parse(text)
  {
    hide IsCanonical;
    ParsedIsCanonical(text);
    PrintedParses(Parse(text).value);
  }

  /** The canonical trees are exactly those the parser returns. */
  lemma CanonicalIsParsed(e: Expr)
    ensures IsCanonical(e) <==> exists text :: Parse(text) == Ok(e)
  {
    hide Parse;
    if IsCanonical(e) {
      PrintedParses(e);
    }
    if text :| Parse(text) == Ok(e) {
      ParsedIsCanonical(text);
    }
  }
}
