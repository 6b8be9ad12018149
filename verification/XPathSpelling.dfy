/**
 Canonical trees, the tokens they are written with, and the proof that printing one and tokenizing
 the text gives exactly those tokens.
 */
module XPathSpelling {
  import opened Strings
  import opened Wrappers
  import opened XPathAst
  import opened XPathLexer
  import opened XPathPrinter

  // --- Canonical trees ------------------------------------------------------------------------------

  predicate IsQName(prefix: Option<string>, local: string) {
    (prefix.Some? ==> IsNcname(prefix.value)) && IsNcname(local)
  }

  /** What can be quoted: the text holds at most one of the two quotes. */
  predicate IsQuotable(text: string) {
    '\'' !in text || '"' !in text
  }

  predicate AreDigits(s: string) {
    forall c | c in s :: IsDigit(c)
  }

  /** Digits without a needless zero at either end. */
  predicate IsShortest(n: Numeral) {
    && n.whole != [] && AreDigits(n.whole) && (|n.whole| > 1 ==> n.whole[0] != '0')
    && AreDigits(n.fraction) && (n.fraction != [] ==> n.fraction[|n.fraction| - 1] != '0')
  }

  predicate IsCanonicalTest(test: NodeTest) {
    match test
    case NamedTest(InNamespace(prefix)) => IsNcname(prefix)
    case NamedTest(QualifiedName(prefix, local)) => IsQName(prefix, local)
    case ProcessingInstructionTest(Some(target)) => IsQuotable(target)
    case _ => true
  }

  predicate IsCanonicalStep(step: Step) {
    IsCanonicalTest(step.test) && forall p | p in step.predicates :: IsCanonical(p)
  }

  /**
   The trees that have one spelling: no filter of a filter, no path started by a path, steps wherever
   there is something to walk from, predicates wherever there is a filter, and names, literals and
   numbers that can be written down.
   */
  predicate IsCanonical(e: Expr) {
    match e
    case Binary(_, left, right) => IsCanonical(left) && IsCanonical(right)
    case Negate(operand) => IsCanonical(operand)
    case PathExpr(Path(start, steps)) =>
      && (forall step | step in steps :: IsCanonicalStep(step))
      && (!start.RootStart? ==> steps != [])
      && (start.ExprStart? ==> IsCanonical(start.expr) && !start.expr.PathExpr?)
    case FilterExpr(filtered, predicates) =>
      && IsCanonical(filtered) && !filtered.FilterExpr?
      && predicates != [] && forall p | p in predicates :: IsCanonical(p)
    case Literal(text) => IsQuotable(text)
    case Number(numeral) => IsShortest(numeral)
    case Variable(prefix, local) => IsQName(prefix, local)
    case Function(prefix, local, arguments) =>
      && IsQName(prefix, local) && (prefix.None? ==> NodeTypeNamed(local).None?)
      && forall a | a in arguments :: IsCanonical(a)
  }

  // --- The tokens a tree is written with --------------------------------------------------------------

  function OperatorToken(op: BinaryOp): Token {
    match op
    case Or => OrToken
    case And => AndToken
    case Equal => EqualToken
    case NotEqual => NotEqualToken
    case Less => LessToken
    case LessEqual => LessEqualToken
    case Greater => GreaterToken
    case GreaterEqual => GreaterEqualToken
    case Add => PlusToken
    case Subtract => MinusToken
    case Multiply => MultiplyToken
    case Divide => DivToken
    case Modulo => ModToken
    case Union => Pipe
  }

  function TestTokens(test: NodeTest): seq<Token> {
    match test
    case NamedTest(AnyName) => [Star]
    case NamedTest(InNamespace(prefix)) => [WildcardToken(prefix)]
    case NamedTest(QualifiedName(prefix, local)) => [NameToken(prefix, local)]
    case AnyNodeTest => [NodeTypeToken(NodeType), LeftParen, RightParen]
    case TextTest => [NodeTypeToken(TextType), LeftParen, RightParen]
    case CommentTest => [NodeTypeToken(CommentType), LeftParen, RightParen]
    case ProcessingInstructionTest(None) => [NodeTypeToken(ProcessingInstructionType), LeftParen, RightParen]
    case ProcessingInstructionTest(Some(target)) =>
      [NodeTypeToken(ProcessingInstructionType), LeftParen, LiteralToken(target), RightParen]
  }

  function PredicatesTokens(predicates: seq<Expr>): seq<Token> {
    if predicates == [] then
      []
    else
      [LeftBracket] + TokensOf(predicates[0]) + [RightBracket] + PredicatesTokens(predicates[1..])
  }

  function StepTokens(step: Step): seq<Token> {
    [AxisToken(step.axis), ColonColon] + TestTokens(step.test) + PredicatesTokens(step.predicates)
  }

  function StepsTokens(steps: seq<Step>): seq<Token> {
    if steps == [] then
      []
    else if |steps| == 1 then
      StepTokens(steps[0])
    else
      StepTokens(steps[0]) + [Slash] + StepsTokens(steps[1..])
  }

  function ArgumentsTokens(arguments: seq<Expr>): seq<Token> {
    if arguments == [] then
      []
    else if |arguments| == 1 then
      TokensOf(arguments[0])
    else
      TokensOf(arguments[0]) + [Comma] + ArgumentsTokens(arguments[1..])
  }

  function PathTokens(path: Path): seq<Token> {
    match path.start
    case RootStart => [Slash] + StepsTokens(path.steps)
    case ContextStart => StepsTokens(path.steps)
    case ExprStart(e) => if path.steps == [] then EmbeddedTokens(e) else EmbeddedTokens(e) + [Slash] + StepsTokens(path.steps)
  }

  function EmbeddedTokens(e: Expr): seq<Token>
    decreases e, 1
  {
    if NeedsParentheses(Print(e)) then [LeftParen] + TokensOf(e) + [RightParen] else TokensOf(e)
  }

  function TokensOf(e: Expr): seq<Token>
    decreases e, 0
  {
    match e
    case Binary(op, left, right) => [LeftParen] + EmbeddedTokens(left) + [OperatorToken(op)] + EmbeddedTokens(right) + [RightParen]
    case Negate(operand) => [MinusToken] + EmbeddedTokens(operand)
    case PathExpr(path) => PathTokens(path)
    case FilterExpr(filtered, predicates) =>
      (if AbsorbsPredicates(filtered) then [LeftParen] + TokensOf(filtered) + [RightParen] else EmbeddedTokens(filtered))
      + PredicatesTokens(predicates)
    case Literal(text) => [LiteralToken(text)]
    case Number(numeral) => [NumberToken(numeral)]
    case Variable(prefix, local) => [VariableToken(prefix, local)]
    case Function(prefix, local, arguments) => [FunctionToken(prefix, local), LeftParen] + ArgumentsTokens(arguments) + [RightParen]
  }

  // --- Tokenizing piece by piece ----------------------------------------------------------------------

  /** After `previous`, `text` is read as the tokens `ts` when `rest` follows it. */
  predicate Lexes(text: string, previous: Option<Token>, ts: seq<Token>, rest: string) {
    Tokenize(text + rest, previous) == Prepend(ts, Tokenize(rest, LastOf(ts, previous)))
  }

  lemma LexesBoth(a: string, b: string, previous: Option<Token>, ta: seq<Token>, tb: seq<Token>, rest: string)
    requires Lexes(a, previous, ta, b + rest) && Lexes(b, LastOf(ta, previous), tb, rest)
    ensures Lexes(a + b, previous, ta + tb, rest)
  {
    assert (a + b) + rest == a + (b + rest);
    var r := Tokenize(rest, LastOf(ta + tb, previous));
    assert LastOf(tb, LastOf(ta, previous)) == LastOf(ta + tb, previous) by {
      if tb == [] {
        assert ta + tb == ta;
      }
    }
    if r.Ok? {
      assert ta + (tb + r.value) == (ta + tb) + r.value;
    }
  }

  lemma LexesOne(text: string, previous: Option<Token>, token: Token, rest: string)
    requires text != [] && !IsWhitespace(text[0]) && NextToken(text + rest, previous) == Ok((token, |text|))
    ensures Lexes(text, previous, [token], rest)
  {
    assert SkipWhitespace(text + rest) == text + rest;
    assert (text + rest)[|text|..] == rest;
  }

  lemma LexesSpace(previous: Option<Token>, rest: string)
    ensures Lexes(" ", previous, [], rest)
  {
    assert (" " + rest)[1..] == rest;
    assert SkipWhitespace(" " + rest) == SkipWhitespace(rest);
    var r := Tokenize(rest, previous);
    if r.Ok? {
      assert [] + r.value == r.value;
    }
  }

  /** What may follow a name or a number without becoming part of it or changing what it is. */
  predicate EndsToken(rest: string) {
    || rest == [] || rest[0] in {')', ']', ',', '[', '/'}
    || (rest[0] == ' ' && |rest| > 1 && rest[1] !in {' ', '\t', '\r', '\n', '(', ':'})
  }

  lemma EndsNames(rest: string)
    requires EndsToken(rest) && rest != []
    ensures !IsNcnameChar(rest[0]) && !IsDigit(rest[0]) && rest[0] != ':' && rest[0] != '.'
  {
  }

  /** The characters that are a token whatever follows them. */
  lemma LexesBracket(c: char, previous: Option<Token>, rest: string)
    requires c in {'(', ')', '[', ']', '@', ',', '|', '+', '-', '=', '*'}
    ensures Lexes([c], previous, [Punctuation(c, previous).value], rest)
  {
    var s := [c] + rest;
    assert s[0] == c;
    assert PairAt(s).None?;
    LexesOne([c], previous, Punctuation(c, previous).value, rest);
  }

  lemma LexesSlash(previous: Option<Token>, rest: string)
    requires rest == [] || rest[0] != '/'
    ensures Lexes("/", previous, [Slash], rest)
  {
    var s := "/" + rest;
    assert s[0] == '/' && (|s| > 1 ==> s[1] == rest[0]);
    assert PairAt(s).None?;
    LexesOne("/", previous, Slash, rest);
  }

  // --- Names ------------------------------------------------------------------------------------------

  lemma {:induction false} NameLengthExact(name: string, rest: string)
    requires (forall c | c in name :: IsNcnameChar(c)) && (rest == [] || !IsNcnameChar(rest[0]))
    ensures NameLength(name + rest) == |name|
  {
    if name == [] {
      assert name + rest == rest;
    } else {
      assert name[0] in name && (name + rest)[1..] == name[1..] + rest;
      NameLengthExact(name[1..], rest);
    }
  }

  lemma NcnameExact(name: string, rest: string)
    requires IsNcname(name) && (rest == [] || !IsNcnameChar(rest[0]))
    ensures NcnameAt(name + rest) == Ok(|name|) && (name + rest)[..|name|] == name
  {
    NameLengthExact(name, rest);
  }

  lemma QNameExact(prefix: Option<string>, local: string, rest: string)
    requires IsQName(prefix, local) && (rest == [] || (!IsNcnameChar(rest[0]) && rest[0] != ':'))
    ensures var text := PrintQName(prefix, local);
            QNameAt(text + rest) == Ok(QName(prefix, Some(local), |text|))
  {
    hide IsNcname, IsNcnameChar, IsNcnameStartChar;
    if prefix.None? {
      NcnameExact(local, rest);
      assert (local + rest)[|local|..] == rest && (local + rest)[..|local|] == local;
    } else {
      PrefixedExact(prefix.value, local, rest);
    }
  }

  lemma PrefixedExact(p: string, local: string, rest: string)
    requires IsNcname(p) && IsNcname(local) && (rest == [] || (!IsNcnameChar(rest[0]) && rest[0] != ':'))
    ensures QNameAt(p + ":" + local + rest) == Ok(QName(Some(p), Some(local), |p| + 1 + |local|))
  {
    assert local[0] != ':' && local[0] != '*';
    assert !IsNcnameChar(':');
    hide IsNcnameChar, IsNcnameStartChar;
    AroundColon(p, local, rest);
    NcnameExact(p, ":" + local + rest);
    NcnameExact(local, rest);
    ColonBegins(local, rest);
    hide IsNcname, NcnameAt, StartsWith;
  }

  lemma ColonBegins(local: string, rest: string)
    requires local != "" && local[0] != ':' && local[0] != '*'
    ensures var s := ":" + local + rest; StartsWith(s, ":") && !StartsWith(s, "::") && !StartsWith(s[1..], "*")
  {
    var s := ":" + local + rest;
    assert s[0] == ':' && s[1] == local[0] && s[1..][0] == local[0];
    assert "::"[1] == ':';
  }

  lemma AroundColon(p: string, local: string, rest: string)
    ensures var s := p + ":" + local + rest;
            && s == p + (":" + local + rest) && s[..|p|] == p && s[|p|..] == ":" + local + rest
            && s[|p|..][1..] == local + rest && s[|p|..][1..1 + |local|] == local
  {
  }

  lemma WildcardExact(prefix: string, rest: string)
    requires IsNcname(prefix)
    ensures QNameAt(prefix + ":*" + rest) == Ok(QName(Some(prefix), None, |prefix| + 2))
  {
    var after := ":*" + rest;
    assert prefix + ":*" + rest == prefix + after;
    NcnameExact(prefix, after);
    assert (prefix + after)[|prefix|..] == after && after[1..] == "*" + rest;
    assert after[1] == '*' && "::"[1] == ':';
    assert StartsWith(after, ":") && !StartsWith(after, "::") && StartsWith(after[1..], "*");
  }

  /** A text that begins like a name is read by `NameTokenAt`. */
  lemma NamesAreNames(s: string, previous: Option<Token>)
    requires s != [] && IsNcnameStartChar(s[0])
    ensures NextToken(s, previous) == NameTokenAt(s, previous)
  {
    assert PairAt(s).None? && Punctuation(s[0], previous).None?;
  }

  lemma SkipNothing(rest: string)
    requires EndsToken(rest)
    ensures !StartsWith(SkipWhitespace(rest), "::") && !StartsWith(SkipWhitespace(rest), "(")
  {
    if rest != [] && rest[0] == ' ' {
      assert SkipWhitespace(rest) == SkipWhitespace(rest[1..]) == rest[1..];
    }
  }

  lemma PrintedNameStarts(prefix: Option<string>, local: string, rest: string)
    requires IsQName(prefix, local)
    ensures var s := PrintQName(prefix, local) + rest; s != [] && IsNcnameStartChar(s[0]) && !IsWhitespace(s[0])
  {
  }

  lemma LexesName(prefix: Option<string>, local: string, previous: Option<Token>, rest: string)
    requires IsQName(prefix, local) && PrecedesOperand(previous) && EndsToken(rest)
    ensures Lexes(PrintQName(prefix, local), previous, [NameToken(prefix, local)], rest)
  {
    var text := PrintQName(prefix, local);
    PrintedNameStarts(prefix, local, rest);
    NamesAreNames(text + rest, previous);
    QNameExact(prefix, local, rest);
    assert (text + rest)[|text|..] == rest;
    SkipNothing(rest);
    LexesOne(text, previous, NameToken(prefix, local), rest);
  }

  lemma LexesWildcard(prefix: string, previous: Option<Token>, rest: string)
    requires IsNcname(prefix)
    ensures Lexes(prefix + ":*", previous, [WildcardToken(prefix)], rest)
  {
    var text := prefix + ":*";
    NamesAreNames(text + rest, previous);
    WildcardExact(prefix, rest);
    LexesOne(text, previous, WildcardToken(prefix), rest);
  }

  /** A name with `(` after it, where an operand belongs, is a node type or a function. */
  lemma LexesCalled(prefix: Option<string>, local: string, previous: Option<Token>, rest: string)
    requires IsQName(prefix, local) && PrecedesOperand(previous) && rest != [] && rest[0] == '('
    ensures Lexes(PrintQName(prefix, local), previous,
                  [if prefix.None? && NodeTypeNamed(local).Some? then NodeTypeToken(NodeTypeNamed(local).value)
                   else FunctionToken(prefix, local)], rest)
  {
    var text := PrintQName(prefix, local);
    PrintedNameStarts(prefix, local, rest);
    NamesAreNames(text + rest, previous);
    QNameExact(prefix, local, rest);
    assert (text + rest)[|text|..] == rest && SkipWhitespace(rest) == rest;
    LexesOne(text, previous,
             if prefix.None? && NodeTypeNamed(local).Some? then NodeTypeToken(NodeTypeNamed(local).value)
             else FunctionToken(prefix, local), rest);
  }

  lemma AxisNameLetters(axis: Axis)
    ensures forall c | c in AxisName(axis) :: 'a' <= c <= 'z' || c == '-'
  {
    match axis
    case Ancestor => case AncestorOrSelf => case Attribute => case Child => case Descendant => case DescendantOrSelf =>
    case Following => case FollowingSibling => case Namespace => case Parent => case Preceding => case PrecedingSibling =>
    case SelfAxis =>
  }

  lemma AxisNames(axis: Axis)
    ensures AxisNamed(AxisName(axis)) == Some(axis)
    ensures IsNcname(AxisName(axis)) && OperatorNamed(AxisName(axis)).None?
  {
    AxisNameLetters(axis);
    assert IsNcname(AxisName(axis)) by {
      hide AxisNamed;
      assert AxisName(axis) != "" && AxisName(axis)[0] != '-';
      hide AxisName;
    }
  }

  lemma LexesAxis(axis: Axis, previous: Option<Token>, rest: string)
    requires StartsWith(rest, "::")
    ensures Lexes(AxisName(axis), previous, [AxisToken(axis)], rest)
  {
    var text := AxisName(axis);
    AxisNames(axis);
    NamesAreNames(text + rest, previous);
    NcnameExact(text, rest);
    assert (text + rest)[|text|..] == rest && SkipWhitespace(rest) == rest;
    assert QNameAt(text + rest) == Ok(QName(None, Some(text), |text|));
    LexesOne(text, previous, AxisToken(axis), rest);
  }

  lemma LexesColons(previous: Option<Token>, rest: string)
    ensures Lexes("::", previous, [ColonColon], rest)
  {
    assert ("::" + rest)[..2] == "::";
    LexesOne("::", previous, ColonColon, rest);
  }

  lemma LexesVariable(prefix: Option<string>, local: string, previous: Option<Token>, rest: string)
    requires IsQName(prefix, local) && EndsToken(rest)
    ensures Lexes("$" + PrintQName(prefix, local), previous, [VariableToken(prefix, local)], rest)
  {
    hide Lexes, QNameAt, IsNcnameStartChar, IsNcnameChar, PrintQName;
    var text := "$" + PrintQName(prefix, local);
    if rest != [] {
      EndsNames(rest);
    }
    assert (text + rest)[0] == '$' && (text + rest)[1..] == PrintQName(prefix, local) + rest;
    QNameExact(prefix, local, rest);
    assert PairAt(text + rest).None? && Punctuation('$', previous).None?;
    LexesOne(text, previous, VariableToken(prefix, local), rest);
  }

  // --- Literals and numbers ------------------------------------------------------------------------

  lemma InQuotes(text: string, quote: char, rest: string)
    ensures var s := [quote] + text + [quote] + rest;
            s[0] == quote && s[1..] == text + ([quote] + rest) && s[1..1 + |text|] == text
  {
  }

  lemma QuoteIsPlain(s: string, previous: Option<Token>)
    requires s != "" && (s[0] == '"' || s[0] == '\'')
    ensures PairAt(s).None? && Punctuation(s[0], previous).None?
  {
    assert s[0] != '/' && s[0] != ':' && s[0] != '!' && s[0] != '<' && s[0] != '>' && s[0] != '.';
  }

  lemma LexesLiteral(text: string, previous: Option<Token>, rest: string)
    requires IsQuotable(text)
    ensures Lexes(PrintLiteral(text), previous, [LiteralToken(text)], rest)
  {
    hide Lexes;
    var quote := if '\'' in text then '"' else '\'';
    var printed := [quote] + text + [quote];
    assert PrintLiteral(text) == printed;
    InQuotes(text, quote, rest);
    FindIs(text, quote, rest);
    QuoteIsPlain(printed + rest, previous);
    hide PairAt, Punctuation;
    LexesOne(printed, previous, LiteralToken(text), rest);
  }

  lemma {:induction false} DigitLengthExact(digits: string, rest: string)
    requires AreDigits(digits) && (rest == [] || !IsDigit(rest[0]))
    ensures DigitLength(digits + rest) == |digits|
  {
    if digits == [] {
      assert digits + rest == rest;
    } else {
      assert digits[0] in digits && (digits + rest)[1..] == digits[1..] + rest;
      DigitLengthExact(digits[1..], rest);
    }
  }

  lemma LexesNumber(n: Numeral, previous: Option<Token>, rest: string)
    requires IsShortest(n) && EndsToken(rest)
    ensures Lexes(PrintNumeral(n), previous, [NumberToken(n)], rest)
  {
    hide Lexes, NumberAt, IsNcnameStartChar, IsNcnameChar;
    var text := PrintNumeral(n);
    NumberExact(n, rest);
    assert n.whole[0] in n.whole && (text + rest)[0] == n.whole[0];
    assert PairAt(text + rest).None? && Punctuation(text[0], previous).None?;
    LexesOne(text, previous, NumberToken(n), rest);
  }

  lemma NumberExact(n: Numeral, rest: string)
    requires IsShortest(n) && EndsToken(rest)
    ensures NumberAt(PrintNumeral(n) + rest) == (n, |PrintNumeral(n)|)
  {
    ShortestIsKept(n);
    EndsNumbers(rest);
    PrintedNumeral(n);
    hide *;
    if n.fraction == [] {
      WholeExact(n.whole, rest);
    } else {
      FractionExact(n.whole, n.fraction, rest);
    }
  }

  lemma EndsNumbers(rest: string)
    requires EndsToken(rest)
    ensures rest == [] || (!IsDigit(rest[0]) && rest[0] != '.')
  {
    if rest != [] {
      EndsNames(rest);
    }
  }

  lemma PrintedNumeral(n: Numeral)
    ensures PrintNumeral(n) == if n.fraction == [] then n.whole else n.whole + "." + n.fraction
  {
  }

  lemma WholeExact(whole: string, rest: string)
    requires AreDigits(whole) && (rest == [] || (!IsDigit(rest[0]) && rest[0] != '.'))
    ensures NumberAt(whole + rest) == (NumeralOf(whole, []), |whole|)
  {
    hide NumeralOf;
    DigitLengthExact(whole, rest);
    assert (whole + rest)[..|whole|] == whole;
  }

  lemma FractionExact(whole: string, fraction: string, rest: string)
    requires AreDigits(whole) && AreDigits(fraction) && (rest == [] || !IsDigit(rest[0]))
    ensures NumberAt(whole + "." + fraction + rest) == (NumeralOf(whole, fraction), |whole| + 1 + |fraction|)
  {
    hide NumeralOf;
    DigitLengthExact(whole, "." + fraction + rest);
    DigitLengthExact(fraction, rest);
    hide DigitLength, AreDigits;
    AroundPoint(whole, fraction, rest);
  }

  lemma AroundPoint(whole: string, fraction: string, rest: string)
    ensures var s := whole + "." + fraction + rest;
            && s == whole + ("." + fraction + rest) && s[..|whole|] == whole && s[|whole|] == '.'
            && s[|whole| + 1..] == fraction + rest && s[|whole| + 1..|whole| + 1 + |fraction|] == fraction
  {
  }

  lemma ShortestIsKept(n: Numeral)
    requires IsShortest(n)
    ensures NumeralOf(n.whole, n.fraction) == n && AreDigits(n.whole) && AreDigits(n.fraction)
  {
  }

  // --- Operators --------------------------------------------------------------------------------------

  /** ` op ` after an operand is read as the operator it is. */
  lemma LexesOperator(op: BinaryOp, previous: Option<Token>, rest: string)
    requires !PrecedesOperand(previous)
    ensures Lexes(" " + Symbol(op) + " ", previous, [OperatorToken(op)], rest)
  {
    var symbol, token := Symbol(op), OperatorToken(op);
    LexesSymbol(op, previous, " " + rest);
    LexesSpace(previous, symbol + (" " + rest));
    LexesBoth(" ", symbol, previous, [], [token], " " + rest);
    LexesSpace(Some(token), rest);
    assert [] + [token] == [token] && [token] + [] == [token];
    LexesBoth(" " + symbol, " ", previous, [token], [], rest);
  }

  lemma LexesSymbol(op: BinaryOp, previous: Option<Token>, rest: string)
    requires !PrecedesOperand(previous) && rest != [] && rest[0] == ' '
    ensures Lexes(Symbol(op), previous, [OperatorToken(op)], rest)
  {
    hide Lexes, NumberAt, NameTokenAt, QNameAt;
    var symbol, token := Symbol(op), OperatorToken(op);
    if op in {Or, And, Divide, Modulo} {
      OperatorNameExact(op, previous, rest);
      NamesAreNames(symbol + rest, previous);
      LexesOne(symbol, previous, token, rest);
    } else if op in {NotEqual, LessEqual, GreaterEqual} {
      assert (symbol + rest)[..2] == symbol;
      LexesOne(symbol, previous, token, rest);
    } else {
      assert (symbol + rest)[0] == symbol[0] && (symbol + rest)[1] == ' ';
      assert PairAt(symbol + rest).None?;
      LexesOne(symbol, previous, token, rest);
    }
  }

  lemma OperatorNameExact(op: BinaryOp, previous: Option<Token>, rest: string)
    requires op in {Or, And, Divide, Modulo} && !PrecedesOperand(previous) && rest != [] && rest[0] == ' '
    ensures NameTokenAt(Symbol(op) + rest, previous) == Ok((OperatorToken(op), |Symbol(op)|))
    ensures IsNcnameStartChar(Symbol(op)[0])
  {
    var symbol := Symbol(op);
    assert IsNcname(symbol) by {
      assert forall c | c in symbol :: 'a' <= c <= 'z';
    }
    NcnameExact(symbol, rest);
    assert (symbol + rest)[|symbol|..] == rest;
    assert QNameAt(symbol + rest) == Ok(QName(None, Some(symbol), |symbol|));
  }

  // --- Whole trees --------------------------------------------------------------------------------------

  predicate IsRoot(e: Expr) {
    e.PathExpr? && e.path.start.RootStart? && e.path.steps == []
  }

  /** The text of a tree is tokenized as its tokens, and the last of them ends an operand. */
  predicate IsRead(text: string, previous: Option<Token>, ts: seq<Token>, rest: string) {
    Lexes(text, previous, ts, rest) && ts != [] && !PrecedesOperand(LastOf(ts, None))
  }

  lemma IsReadThen(a: string, b: string, previous: Option<Token>, ta: seq<Token>, tb: seq<Token>, rest: string)
    requires Lexes(a, previous, ta, b + rest) && IsRead(b, LastOf(ta, previous), tb, rest)
    ensures IsRead(a + b, previous, ta + tb, rest)
  {
    LexesBoth(a, b, previous, ta, tb, rest);
  }

  /** Adds text that ends in a token which ends an operand. */
  lemma IsReadEnding(a: string, b: string, previous: Option<Token>, ta: seq<Token>, tb: seq<Token>, rest: string)
    requires Lexes(a, previous, ta, b + rest) && Lexes(b, LastOf(ta, previous), tb, rest)
    requires tb != [] && !PrecedesOperand(LastOf(tb, None))
    ensures IsRead(a + b, previous, ta + tb, rest)
  {
    LexesBoth(a, b, previous, ta, tb, rest);
  }

  lemma LexesTest(test: NodeTest, previous: Option<Token>, rest: string)
    requires IsCanonicalTest(test) && PrecedesOperand(previous) && EndsToken(rest)
    ensures IsRead(PrintTest(test), previous, TestTokens(test), rest)
  {
    hide Lexes;
    match test
    case NamedTest(AnyName) => LexesBracket('*', previous, rest);
    case NamedTest(InNamespace(prefix)) => LexesWildcard(prefix, previous, rest);
    case NamedTest(QualifiedName(prefix, local)) => LexesName(prefix, local, previous, rest);
    case AnyNodeTest =>
      LexesNodeType("node", NodeType, previous, rest);
      assert "node()" == "node" + "()";
    case TextTest =>
      LexesNodeType("text", TextType, previous, rest);
      assert "text()" == "text" + "()";
    case CommentTest =>
      LexesNodeType("comment", CommentType, previous, rest);
      assert "comment()" == "comment" + "()";
    case ProcessingInstructionTest(None) =>
      LexesNodeType("processing-instruction", ProcessingInstructionType, previous, rest);
      assert "processing-instruction()" == "processing-instruction" + "()";
    case ProcessingInstructionTest(Some(target)) => LexesInstructionTest(target, previous, rest);
  }

  lemma LexesInstructionTest(target: string, previous: Option<Token>, rest: string)
    requires IsQuotable(target) && PrecedesOperand(previous) && EndsToken(rest)
    ensures var test := ProcessingInstructionTest(Some(target));
            IsRead(PrintTest(test), previous, TestTokens(test), rest)
  {
    hide Lexes;
    var name, quoted := "processing-instruction", PrintLiteral(target);
    var nodeType := NodeTypeToken(ProcessingInstructionType);
    var ts := [nodeType] + [LeftParen];
    NodeTypeNames(name, ProcessingInstructionType);
    LexesCalled(None, name, previous, "(" + (quoted + (")" + rest)));
    LexesBracket('(', Some(nodeType), quoted + (")" + rest));
    LexesBoth(name, "(", previous, [nodeType], [LeftParen], quoted + (")" + rest));
    LexesLiteral(target, Some(LeftParen), ")" + rest);
    LexesBoth(name + "(", quoted, previous, ts, [LiteralToken(target)], ")" + rest);
    LexesBracket(')', Some(LiteralToken(target)), rest);
    IsReadEnding(name + "(" + quoted, ")", previous, ts + [LiteralToken(target)], [RightParen], rest);
    InstructionTestIs(target);
  }

  lemma InstructionTestIs(target: string)
    ensures PrintTest(ProcessingInstructionTest(Some(target))) == "processing-instruction" + "(" + PrintLiteral(target) + ")"
    ensures TestTokens(ProcessingInstructionTest(Some(target)))
         == [NodeTypeToken(ProcessingInstructionType)] + [LeftParen] + [LiteralToken(target)] + [RightParen]
  {
  }

  lemma NodeTypeNames(name: string, nodeType: NodeTypeName)
    requires NodeTypeNamed(name) == Some(nodeType)
    ensures IsNcname(name)
  {
    assert forall c | c in name :: 'a' <= c <= 'z' || c == '-';
  }

  lemma LexesNodeType(name: string, nodeType: NodeTypeName, previous: Option<Token>, rest: string)
    requires NodeTypeNamed(name) == Some(nodeType) && PrecedesOperand(previous)
    ensures IsRead(name + "()", previous, [NodeTypeToken(nodeType), LeftParen, RightParen], rest)
  {
    hide Lexes;
    var token := NodeTypeToken(nodeType);
    NodeTypeNames(name, nodeType);
    LexesCalled(None, name, previous, "(" + (")" + rest));
    LexesBracket('(', Some(token), ")" + rest);
    LexesBoth(name, "(", previous, [token], [LeftParen], ")" + rest);
    LexesBracket(')', Some(LeftParen), rest);
    IsReadEnding(name + "(", ")", previous, [token] + [LeftParen], [RightParen], rest);
    assert name + "()" == name + "(" + ")";
    assert [NodeTypeToken(nodeType), LeftParen, RightParen] == [token] + [LeftParen] + [RightParen];
  }

  /** Text between brackets: `(`, `[` or nothing in front, and what closes it behind. */
  lemma LexesEnclosed(open: char, close: char, text: string, previous: Option<Token>, ts: seq<Token>, rest: string)
    requires (open == '(' && close == ')') || (open == '[' && close == ']')
    requires Lexes(text, Some(Punctuation(open, None).value), ts, [close] + rest)
    ensures IsRead([open] + text + [close], previous,
                   [Punctuation(open, None).value] + ts + [Punctuation(close, None).value], rest)
  {
    hide Lexes;
    var opening, closing := Punctuation(open, None).value, Punctuation(close, None).value;
    LexesBracket(open, previous, text + ([close] + rest));
    LexesBoth([open], text, previous, [opening], ts, [close] + rest);
    LexesBracket(close, LastOf([opening] + ts, previous), rest);
    IsReadEnding([open] + text, [close], previous, [opening] + ts, [closing], rest);
  }

  lemma {:induction false} LexesPredicates(predicates: seq<Expr>, previous: Option<Token>, rest: string)
    requires (forall p | p in predicates :: IsCanonical(p)) && EndsToken(rest)
    ensures Lexes(PrintPredicates(predicates), previous, PredicatesTokens(predicates), rest)
    ensures predicates != [] ==> IsRead(PrintPredicates(predicates), previous, PredicatesTokens(predicates), rest)
    ensures predicates != [] ==> EndsToken(PrintPredicates(predicates) + rest)
    decreases predicates
  {
    if predicates == [] {
      LexesNothing(previous, rest);
    } else {
      var first, more := Print(predicates[0]), PrintPredicates(predicates[1..]);
      assert EndsToken("]" + (more + rest));
      LexesExpr(predicates[0], Some(LeftBracket), "]" + (more + rest));
      hide Lexes;
      LexesEnclosed('[', ']', first, previous, TokensOf(predicates[0]), more + rest);
      var head := [LeftBracket] + TokensOf(predicates[0]) + [RightBracket];
      LexesPredicates(predicates[1..], Some(RightBracket), rest);
      assert LastOf(head, previous) == Some(RightBracket);
      LexesBoth("[" + first + "]", more, previous, head, PredicatesTokens(predicates[1..]), rest);
    }
  }

  lemma LexesNothing(previous: Option<Token>, rest: string)
    ensures Lexes("", previous, [], rest)
  {
    assert "" + rest == rest;
    var r := Tokenize(rest, previous);
    if r.Ok? {
      assert [] + r.value == r.value;
    }
  }

  lemma {:induction false} LexesStep(step: Step, previous: Option<Token>, rest: string)
    requires IsCanonicalStep(step) && EndsToken(rest)
    ensures IsRead(PrintStep(step), previous, StepTokens(step), rest)
    decreases step
  {
    hide Lexes;
    var axis, test, predicates := AxisName(step.axis), PrintTest(step.test), PrintPredicates(step.predicates);
    var afterTest := predicates + rest;
    LexesPredicates(step.predicates, LastOf(TestTokens(step.test), Some(ColonColon)), rest);
    assert EndsToken(afterTest) by {
      if step.predicates == [] {
        assert afterTest == rest;
      }
    }
    LexesAxis(step.axis, previous, "::" + (test + afterTest));
    LexesColons(Some(AxisToken(step.axis)), test + afterTest);
    LexesBoth(axis, "::", previous, [AxisToken(step.axis)], [ColonColon], test + afterTest);
    LexesTest(step.test, Some(ColonColon), afterTest);
    var head := [AxisToken(step.axis)] + [ColonColon];
    IsReadThen(axis + "::", test, previous, head, TestTokens(step.test), afterTest);
    LexesBoth(axis + "::" + test, predicates, previous, head + TestTokens(step.test), PredicatesTokens(step.predicates), rest);
    assert head == [AxisToken(step.axis), ColonColon];
  }

  lemma {:induction false} LexesSteps(steps: seq<Step>, previous: Option<Token>, rest: string)
    requires steps != [] && (forall step | step in steps :: IsCanonicalStep(step)) && EndsToken(rest)
    ensures IsRead(PrintSteps(steps), previous, StepsTokens(steps), rest)
    decreases steps
  {
    hide Lexes;
    if |steps| == 1 {
      LexesStep(steps[0], previous, rest);
    } else {
      var first, more := PrintStep(steps[0]), PrintSteps(steps[1..]);
      assert EndsToken("/" + (more + rest));
      LexesStep(steps[0], previous, "/" + (more + rest));
      StepsBeginWithName(steps[1..], rest);
      LexesSlash(LastOf(StepTokens(steps[0]), previous), more + rest);
      LexesBoth(first, "/", previous, StepTokens(steps[0]), [Slash], more + rest);
      LexesSteps(steps[1..], Some(Slash), rest);
      IsReadThen(first + "/", more, previous, StepTokens(steps[0]) + [Slash], StepsTokens(steps[1..]), rest);
    }
  }

  lemma StepsBeginWithName(steps: seq<Step>, rest: string)
    requires steps != []
    ensures PrintSteps(steps) + rest != [] && IsNcnameStartChar((PrintSteps(steps) + rest)[0])
  {
    AxisNames(steps[0].axis);
  }

  lemma {:induction false} LexesArguments(arguments: seq<Expr>, rest: string)
    requires forall a | a in arguments :: IsCanonical(a)
    requires rest != [] && rest[0] == ')'
    ensures Lexes(PrintArguments(arguments), Some(LeftParen), ArgumentsTokens(arguments), rest)
    ensures Lexes(PrintArguments(arguments), Some(Comma), ArgumentsTokens(arguments), rest)
    decreases arguments
  {
    if arguments == [] {
      LexesNothing(Some(LeftParen), rest);
      LexesNothing(Some(Comma), rest);
    } else {
      LexesArgumentsAfter(arguments, Some(LeftParen), rest);
      LexesArgumentsAfter(arguments, Some(Comma), rest);
    }
  }

  lemma {:induction false} LexesArgumentsAfter(arguments: seq<Expr>, previous: Option<Token>, rest: string)
    requires arguments != [] && forall a | a in arguments :: IsCanonical(a)
    requires rest != [] && rest[0] == ')' && PrecedesOperand(previous)
    ensures Lexes(PrintArguments(arguments), previous, ArgumentsTokens(arguments), rest)
    decreases arguments, 0
  {
    if |arguments| == 1 {
      LexesExpr(arguments[0], previous, rest);
    } else {
      var first, more := Print(arguments[0]), PrintArguments(arguments[1..]);
      assert EndsToken(", " + (more + rest));
      LexesExpr(arguments[0], previous, ", " + (more + rest));
      hide Lexes;
      LexesBracket(',', LastOf(TokensOf(arguments[0]), previous), " " + (more + rest));
      LexesSpace(Some(Comma), more + rest);
      LexesBoth(",", " ", LastOf(TokensOf(arguments[0]), previous), [Comma], [], more + rest);
      assert ", " == "," + " " && [Comma] + [] == [Comma];
      LexesBoth(first, ", ", previous, TokensOf(arguments[0]), [Comma], more + rest);
      LexesArguments(arguments[1..], rest);
      LexesBoth(first + ", ", more, previous, TokensOf(arguments[0]) + [Comma], ArgumentsTokens(arguments[1..]), rest);
    }
  }

  lemma {:induction false} LexesEmbedded(e: Expr, previous: Option<Token>, rest: string)
    requires IsCanonical(e) && PrecedesOperand(previous) && EndsToken(rest)
    ensures IsRead(Embedded(e), previous, EmbeddedTokens(e), rest)
    decreases e, 1
  {
    if NeedsParentheses(Print(e)) {
      LexesExpr(e, Some(LeftParen), ")" + rest);
      LexesEnclosed('(', ')', Print(e), previous, TokensOf(e), rest);
    } else {
      RootEndsWithSlash(e);
      LexesExpr(e, previous, rest);
    }
  }

  lemma RootEndsWithSlash(e: Expr)
    ensures IsRoot(e) ==> NeedsParentheses(Print(e))
  {
    if IsRoot(e) {
      assert Print(e) == "/" + PrintSteps(e.path.steps) == "/";
    }
  }

  /** Printing a canonical tree and tokenizing the text gives the tree's tokens. */
  lemma {:induction false} LexesExpr(e: Expr, previous: Option<Token>, rest: string)
    requires IsCanonical(e) && PrecedesOperand(previous) && EndsToken(rest)
    requires IsRoot(e) ==> rest == [] || rest[0] != '/'
    ensures Lexes(Print(e), previous, TokensOf(e), rest)
    ensures !IsRoot(e) ==> IsRead(Print(e), previous, TokensOf(e), rest)
    decreases e, 0
  {
    match e
    case Binary(op, left, right) => LexesBinary(e, previous, rest);
    case Negate(operand) =>
      LexesBracket('-', previous, Embedded(operand) + rest);
      LexesEmbedded(operand, Some(MinusToken), rest);
      IsReadThen("-", Embedded(operand), previous, [MinusToken], EmbeddedTokens(operand), rest);
    case PathExpr(path) => LexesPath(path, previous, rest);
    case FilterExpr(_, _) => LexesFilter(e, previous, rest);
    case Literal(text) => LexesLiteral(text, previous, rest);
    case Number(numeral) => LexesNumber(numeral, previous, rest);
    case Variable(prefix, local) => LexesVariable(prefix, local, previous, rest);
    case Function(_, _, _) => LexesFunction(e, previous, rest);
  }

  lemma {:induction false} LexesFilter(e: Expr, previous: Option<Token>, rest: string)
    requires e.FilterExpr? && IsCanonical(e) && PrecedesOperand(previous) && EndsToken(rest)
    ensures IsRead(Print(e), previous, TokensOf(e), rest)
    decreases e, 0, 0
  {
    var filtered := e.filtered;
    var text := if AbsorbsPredicates(filtered) then "(" + Print(filtered) + ")" else Embedded(filtered);
    var ts := if AbsorbsPredicates(filtered) then [LeftParen] + TokensOf(filtered) + [RightParen] else EmbeddedTokens(filtered);
    var more := PrintPredicates(e.predicates);
    LexesPredicates(e.predicates, LastOf(ts, previous), rest);
    hide Lexes;
    if AbsorbsPredicates(filtered) {
      LexesExpr(filtered, Some(LeftParen), ")" + (more + rest));
      LexesEnclosed('(', ')', Print(filtered), previous, TokensOf(filtered), more + rest);
    } else {
      LexesEmbedded(filtered, previous, more + rest);
    }
    IsReadThen(text, more, previous, ts, PredicatesTokens(e.predicates), rest);
  }

  lemma {:induction false} LexesFunction(e: Expr, previous: Option<Token>, rest: string)
    requires e.Function? && IsCanonical(e) && PrecedesOperand(previous) && EndsToken(rest)
    ensures IsRead(Print(e), previous, TokensOf(e), rest)
    decreases e, 0, 0
  {
    hide Lexes;
    var name, token := PrintQName(e.prefix, e.local), FunctionToken(e.prefix, e.local);
    var inside, ts := PrintArguments(e.arguments), ArgumentsTokens(e.arguments);
    LexesArguments(e.arguments, ")" + rest);
    LexesArgumentsAtStart(e.arguments, token, rest);
    LexesCalled(e.prefix, e.local, previous, ("(" + inside + ")") + rest);
    IsReadThen(name, "(" + inside + ")", previous, [token], [LeftParen] + ts + [RightParen], rest);
    assert Print(e) == name + ("(" + inside + ")");
    assert TokensOf(e) == [token] + ([LeftParen] + ts + [RightParen]);
  }

  lemma LexesArgumentsAtStart(arguments: seq<Expr>, token: Token, rest: string)
    requires Lexes(PrintArguments(arguments), Some(LeftParen), ArgumentsTokens(arguments), ")" + rest)
    ensures IsRead("(" + PrintArguments(arguments) + ")", Some(token), [LeftParen] + ArgumentsTokens(arguments) + [RightParen], rest)
  {
    LexesEnclosed('(', ')', PrintArguments(arguments), Some(token), ArgumentsTokens(arguments), rest);
  }

  lemma OperatorEndsToken(op: BinaryOp, rest: string)
    ensures EndsToken(" " + Symbol(op) + " " + rest)
  {
    var s := " " + Symbol(op) + " " + rest;
    assert s[0] == ' ' && s[1] == Symbol(op)[0];
  }

  lemma OperatorPrecedesOperand(op: BinaryOp)
    ensures PrecedesOperand(Some(OperatorToken(op)))
  {
  }

  lemma CloseEndsToken(rest: string)
    ensures EndsToken(")" + rest)
  {
  }

  /** Two operands and the operator between them, enclosed. */
  lemma LexesOperation(left: string, op: string, right: string, tl: seq<Token>, to: Token, tr: seq<Token>,
                       previous: Option<Token>, rest: string)
    requires IsRead(left, Some(LeftParen), tl, op + (right + (")" + rest)))
    requires Lexes(op, LastOf(tl, None), [to], right + (")" + rest))
    requires IsRead(right, Some(to), tr, ")" + rest)
    ensures IsRead("(" + left + op + right + ")", previous, [LeftParen] + tl + [to] + tr + [RightParen], rest)
  {
    hide Lexes;
    LexesBoth(left, op, Some(LeftParen), tl, [to], right + (")" + rest));
    IsReadThen(left + op, right, Some(LeftParen), tl + [to], tr, ")" + rest);
    LexesEnclosed('(', ')', left + op + right, previous, tl + [to] + tr, rest);
    assert "(" + left + op + right + ")" == "(" + (left + op + right) + ")";
    assert [LeftParen] + tl + [to] + tr + [RightParen] == [LeftParen] + (tl + [to] + tr) + [RightParen];
  }

  lemma {:induction false} LexesBinary(e: Expr, previous: Option<Token>, rest: string)
    requires e.Binary? && IsCanonical(e) && PrecedesOperand(previous) && EndsToken(rest)
    ensures IsRead(Print(e), previous, TokensOf(e), rest)
    decreases e, 0, 0
  {
    hide Lexes;
    var left, op, right := Embedded(e.left), " " + Symbol(e.op) + " ", Embedded(e.right);
    OperatorEndsToken(e.op, right + (")" + rest));
    LexesEmbedded(e.left, Some(LeftParen), op + (right + (")" + rest)));
    LexesOperator(e.op, LastOf(EmbeddedTokens(e.left), None), right + (")" + rest));
    OperatorPrecedesOperand(e.op);
    CloseEndsToken(rest);
    LexesEmbedded(e.right, Some(OperatorToken(e.op)), ")" + rest);
    LexesOperation(left, op, right, EmbeddedTokens(e.left), OperatorToken(e.op), EmbeddedTokens(e.right), previous, rest);
    BinaryText(e);
  }

  lemma BinaryText(e: Expr)
    requires e.Binary?
    ensures Print(e) == "(" + Embedded(e.left) + (" " + Symbol(e.op) + " ") + Embedded(e.right) + ")"
  {
    assert "(" + Embedded(e.left) + " " + Symbol(e.op) + " " == "(" + Embedded(e.left) + (" " + Symbol(e.op) + " ");
  }

  lemma {:induction false} LexesPath(path: Path, previous: Option<Token>, rest: string)
    requires IsCanonical(PathExpr(path)) && PrecedesOperand(previous) && EndsToken(rest)
    requires path.steps == [] ==> rest == [] || rest[0] != '/'
    ensures Lexes(PrintPath(path), previous, PathTokens(path), rest)
    ensures path.steps != [] ==> IsRead(PrintPath(path), previous, PathTokens(path), rest)
    decreases path
  {
    var steps := PrintSteps(path.steps);
    if path.steps == [] {
      LexesSlash(previous, rest);
      assert PrintPath(path) == "/" && PathTokens(path) == [Slash];
    } else {
      StepsBeginWithName(path.steps, rest);
      match path.start
      case RootStart =>
        LexesSlash(previous, steps + rest);
        LexesSteps(path.steps, Some(Slash), rest);
        IsReadThen("/", steps, previous, [Slash], StepsTokens(path.steps), rest);
      case ContextStart => LexesSteps(path.steps, previous, rest);
      case ExprStart(e) =>
        var start, ts := Embedded(e), EmbeddedTokens(e);
        assert EndsToken("/" + (steps + rest));
        LexesEmbedded(e, previous, "/" + (steps + rest));
        LexesSlash(LastOf(ts, previous), steps + rest);
        LexesBoth(start, "/", previous, ts, [Slash], steps + rest);
        LexesSteps(path.steps, Some(Slash), rest);
        IsReadThen(start + "/", steps, previous, ts + [Slash], StepsTokens(path.steps), rest);
    }
  }

  /** The tokens of a canonical tree's text. */
  lemma PrintedIsTokenized(e: Expr)
    requires IsCanonical(e)
    ensures Tokenize(Print(e), None) == Ok(TokensOf(e))
  {
    LexesExpr(e, None, []);
    assert Print(e) + [] == Print(e) && TokensOf(e) + [] == TokensOf(e);
    assert Tokenize([], LastOf(TokensOf(e), None)) == Ok([]);
  }
}
