/**
 Turning an XPath expression into tokens. What a character means depends on the token before it and
 on what follows (section 3.7 of XPath 1.0): `*`, `div`, `text` and `child` are each two things.

 `Tokenize` says what the tokens are; the class `Lexer` is the cursor that computes them.
 */
module XPathLexer {
  import opened Wrappers
  import opened Strings
  import opened XPathAst

  datatype NodeTypeName = NodeType | TextType | CommentType | ProcessingInstructionType

  datatype Token =
    | LeftParen
    | RightParen
    | LeftBracket
    | RightBracket
    | Dot
    | DotDot
    | At
    | Comma
    | ColonColon
    | Slash
    | DoubleSlash
    | Pipe
    | PlusToken
    | MinusToken
    | EqualToken
    | NotEqualToken
    | LessToken
    | LessEqualToken
    | GreaterToken
    | GreaterEqualToken
    | Star
    | MultiplyToken
    | AndToken
    | OrToken
    | DivToken
    | ModToken
    | AxisToken(axis: Axis)
    | NodeTypeToken(nodeType: NodeTypeName)
    | FunctionToken(prefix: Option<string>, local: string)
    | NameToken(prefix: Option<string>, local: string)
    | WildcardToken(namespace: string)
    | VariableToken(prefix: Option<string>, local: string)
    | LiteralToken(text: string)
    | NumberToken(numeral: Numeral)
  {
    predicate IsOperator() {
      this in {Slash, DoubleSlash, Pipe, PlusToken, MinusToken, EqualToken, NotEqualToken, LessToken, LessEqualToken,
               GreaterToken, GreaterEqualToken, MultiplyToken, AndToken, OrToken, DivToken, ModToken}
    }
  }

  /** After this token an operand is due, so that a name or `*` cannot be an operator. */
  predicate PrecedesOperand(previous: Option<Token>) {
    match previous
    case None => true
    case Some(token) => token in {At, ColonColon, LeftParen, LeftBracket, Comma} || token.IsOperator()
  }

  // --- Characters ---------------------------------------------------------------------------------

  predicate IsWhitespace(c: char) {
    c in {' ', '\t', '\r', '\n'}
  }

  predicate IsDigit(c: char) {
    '0' <= c <= '9'
  }

  /** `NameStartChar` of XML 1.0 without the colon. */
  predicate IsNcnameStartChar(c: char) {
    var u := c as int;
    || 'A' <= c <= 'Z' || c == '_' || 'a' <= c <= 'z'
    || 0xC0 <= u <= 0xD6 || 0xD8 <= u <= 0xF6 || 0xF8 <= u <= 0x2FF || 0x370 <= u <= 0x37D || 0x37F <= u <= 0x1FFF
    || 0x200C <= u <= 0x200D || 0x2070 <= u <= 0x218F || 0x2C00 <= u <= 0x2FEF || 0x3001 <= u <= 0xD7FF
    || 0xF900 <= u <= 0xFDCF || 0xFDF0 <= u <= 0xFFFD || 0x10000 <= u <= 0xEFFFF
  }

  predicate IsNcnameChar(c: char) {
    var u := c as int;
    IsNcnameStartChar(c) || c == '-' || c == '.' || IsDigit(c) || u == 0xB7 || 0x300 <= u <= 0x36F || 0x203F <= u <= 0x2040
  }

  predicate IsNcname(s: string) {
    s != [] && IsNcnameStartChar(s[0]) && forall c | c in s :: IsNcnameChar(c)
  }

  // --- Runs of characters -------------------------------------------------------------------------

  function NameLength(s: string): (n: nat)
    ensures n <= |s| && (forall c | c in s[..n] :: IsNcnameChar(c)) && (n < |s| ==> !IsNcnameChar(s[n]))
  {
    if s == [] || !IsNcnameChar(s[0]) then 0 else 1 + NameLength(s[1..])
  }

  function DigitLength(s: string): (n: nat)
    ensures n <= |s| && (forall c | c in s[..n] :: IsDigit(c)) && (n < |s| ==> !IsDigit(s[n]))
  {
    if s == [] || !IsDigit(s[0]) then 0 else 1 + DigitLength(s[1..])
  }

  function SkipWhitespace(s: string): (rest: string)
    ensures |rest| <= |s| && (rest != [] ==> !IsWhitespace(rest[0]))
  {
    if s != [] && IsWhitespace(s[0]) then SkipWhitespace(s[1..]) else s
  }

  // --- Numbers ------------------------------------------------------------------------------------

  function WithoutLeadingZeros(s: string): string {
    if |s| > 1 && s[0] == '0' then WithoutLeadingZeros(s[1..]) else s
  }

  function WithoutTrailingZeros(s: string): string {
    if s != [] && s[|s| - 1] == '0' then WithoutTrailingZeros(s[..|s| - 1]) else s
  }

  /** The number that digits, with or without a fraction, stand for. */
  function NumeralOf(whole: string, fraction: string): Numeral {
    Numeral(WithoutLeadingZeros(if whole == [] then "0" else whole), WithoutTrailingZeros(fraction))
  }

  predicate AreZeros(s: string) {
    forall c | c in s :: c == '0'
  }

  /** What digits stand for is kept: only zeros at either end are dropped, and `.5` is `0.5`. */
  lemma {:induction false} OnlyZerosAreDropped(whole: string, fraction: string)
    ensures var n := NumeralOf(whole, fraction);
            && (exists zeros | AreZeros(zeros) :: (if whole == [] then "0" else whole) == zeros + n.whole)
            && (exists zeros | AreZeros(zeros) :: fraction == n.fraction + zeros)
  {
    var _ := LeadingZeros(if whole == [] then "0" else whole);
    var _ := TrailingZeros(fraction);
  }

  lemma {:induction false} LeadingZeros(s: string) returns (zeros: string)
    ensures AreZeros(zeros) && s == zeros + WithoutLeadingZeros(s)
  {
    zeros := "";
    if |s| > 1 && s[0] == '0' {
      var more := LeadingZeros(s[1..]);
      zeros := "0" + more;
    }
  }

  lemma {:induction false} TrailingZeros(s: string) returns (zeros: string)
    ensures AreZeros(zeros) && s == WithoutTrailingZeros(s) + zeros
  {
    zeros := "";
    if s != [] && s[|s| - 1] == '0' {
      var more := TrailingZeros(s[..|s| - 1]);
      zeros := more + "0";
    }
  }

  /** The digits before the point, those after it, and how many characters there are in all. */
  function NumberAt(s: string): (r: (Numeral, nat))
    ensures r.1 <= |s|
  {
    var n := DigitLength(s);
    if n < |s| && s[n] == '.' then
      var m := DigitLength(s[n + 1..]);
      (NumeralOf(s[..n], s[n + 1..n + 1 + m]), n + 1 + m)
    else
      (NumeralOf(s[..n], []), n)
  }

  // --- Names --------------------------------------------------------------------------------------

  /** A `QName` or `prefix:*`; no local part stands for the `*`. */
  datatype QName = QName(prefix: Option<string>, local: Option<string>, length: nat)

  function NcnameAt(s: string): (r: Result<nat>)
    ensures r.Ok? ==> 0 < r.value <= |s| && IsNcname(s[..r.value])
  {
    if s != [] && IsNcnameStartChar(s[0]) then Ok(NameLength(s)) else Err
  }

  function QNameAt(s: string): (r: Result<QName>)
    ensures r.Ok? ==> 0 < r.value.length <= |s| && (r.value.local.None? ==> r.value.prefix.Some?)
    ensures r.Ok? ==> (r.value.prefix.Some? ==> IsNcname(r.value.prefix.value))
                      && (r.value.local.Some? ==> IsNcname(r.value.local.value))
  {
    var n :- NcnameAt(s);
    var rest := s[n..];
    if !StartsWith(rest, ":") || StartsWith(rest, "::") then
      Ok(QName(None, Some(s[..n]), n))
    else if StartsWith(rest[1..], "*") then
      Ok(QName(Some(s[..n]), None, n + 2))
    else
      var m :- NcnameAt(rest[1..]);
      Ok(QName(Some(s[..n]), Some(rest[1..1 + m]), n + 1 + m))
  }

  function AxisNamed(name: string): Option<Axis> {
    if name == "ancestor" then Some(Ancestor)
    else if name == "ancestor-or-self" then Some(AncestorOrSelf)
    else if name == "attribute" then Some(Attribute)
    else if name == "child" then Some(Child)
    else if name == "descendant" then Some(Descendant)
    else if name == "descendant-or-self" then Some(DescendantOrSelf)
    else if name == "following" then Some(Following)
    else if name == "following-sibling" then Some(FollowingSibling)
    else if name == "namespace" then Some(Namespace)
    else if name == "parent" then Some(Parent)
    else if name == "preceding" then Some(Preceding)
    else if name == "preceding-sibling" then Some(PrecedingSibling)
    else if name == "self" then Some(SelfAxis)
    else None
  }

  function NodeTypeNamed(name: string): Option<NodeTypeName> {
    if name == "node" then Some(NodeType)
    else if name == "text" then Some(TextType)
    else if name == "comment" then Some(CommentType)
    else if name == "processing-instruction" then Some(ProcessingInstructionType)
    else None
  }

  function OperatorNamed(name: string): Option<Token> {
    if name == "and" then Some(AndToken)
    else if name == "or" then Some(OrToken)
    else if name == "div" then Some(DivToken)
    else if name == "mod" then Some(ModToken)
    else None
  }

  /** The token a name is, decided by what precedes and follows it. */
  function NameTokenAt(s: string, previous: Option<Token>): (r: Result<(Token, nat)>)
    ensures r.Ok? ==> 0 < r.value.1 <= |s|
  {
    var name :- QNameAt(s);
    if name.local.None? then
      Ok((WildcardToken(name.prefix.value), name.length))
    else
      var local := name.local.value;
      if name.prefix.None? && !PrecedesOperand(previous) && OperatorNamed(local).Some? then
        Ok((OperatorNamed(local).value, name.length))
      else
        var after := SkipWhitespace(s[name.length..]);
        if StartsWith(after, "::") then
          if name.prefix.None? && AxisNamed(local).Some? then Ok((AxisToken(AxisNamed(local).value), name.length)) else Err
        else if StartsWith(after, "(") then
          if name.prefix.None? && NodeTypeNamed(local).Some? then
            Ok((NodeTypeToken(NodeTypeNamed(local).value), name.length))
          else
            Ok((FunctionToken(name.prefix, local), name.length))
        else
          Ok((NameToken(name.prefix, local), name.length))
  }

  // --- Tokens -------------------------------------------------------------------------------------

  /** Punctuation of two characters. */
  function PairAt(s: string): (r: Option<Token>)
    ensures r.Some? ==> |s| >= 2
  {
    if StartsWith(s, "//") then Some(DoubleSlash)
    else if StartsWith(s, "::") then Some(ColonColon)
    else if StartsWith(s, "!=") then Some(NotEqualToken)
    else if StartsWith(s, "<=") then Some(LessEqualToken)
    else if StartsWith(s, ">=") then Some(GreaterEqualToken)
    else if StartsWith(s, "..") then Some(DotDot)
    else None
  }

  /** The same tokens as the table the cursor goes through. */
  const PAIRS := [("//", DoubleSlash), ("::", ColonColon), ("!=", NotEqualToken), ("<=", LessEqualToken),
                  (">=", GreaterEqualToken), ("..", DotDot)]

  /** The first entry of the table that fits is the token, and when none fits there is none. */
  lemma PairAtIs(s: string, i: nat)
    requires i <= |PAIRS| && (forall k | 0 <= k < i :: !StartsWith(s, PAIRS[k].0))
    requires i < |PAIRS| ==> StartsWith(s, PAIRS[i].0)
    ensures PairAt(s) == if i < |PAIRS| then Some(PAIRS[i].1) else None
  {
    assert forall k | 0 <= k < i :: !StartsWith(s, PAIRS[k].0);
    assert i > 0 ==> !StartsWith(s, PAIRS[0].0);
    assert i > 1 ==> !StartsWith(s, PAIRS[1].0);
    assert i > 2 ==> !StartsWith(s, PAIRS[2].0);
    assert i > 3 ==> !StartsWith(s, PAIRS[3].0);
    assert i > 4 ==> !StartsWith(s, PAIRS[4].0);
    assert i > 5 ==> !StartsWith(s, PAIRS[5].0);
  }

  function Punctuation(c: char, previous: Option<Token>): Option<Token> {
    match c
    case '(' => Some(LeftParen)
    case ')' => Some(RightParen)
    case '[' => Some(LeftBracket)
    case ']' => Some(RightBracket)
    case '@' => Some(At)
    case ',' => Some(Comma)
    case '/' => Some(Slash)
    case '|' => Some(Pipe)
    case '+' => Some(PlusToken)
    case '-' => Some(MinusToken)
    case '=' => Some(EqualToken)
    case '<' => Some(LessToken)
    case '>' => Some(GreaterToken)
    case '*' => Some(if PrecedesOperand(previous) then Star else MultiplyToken)
    case _ => None
  }

  function LiteralAt(s: string): (r: Result<(Token, nat)>)
    requires s != []
    ensures r.Ok? ==> 0 < r.value.1 <= |s|
  {
    match Find(s[1..], s[0])
    case None => Err
    case Some(end) => Ok((LiteralToken(s[1..1 + end]), end + 2))
  }

  function VariableAt(s: string): (r: Result<(Token, nat)>)
    requires s != []
    ensures r.Ok? ==> 0 < r.value.1 <= |s|
  {
    var name :- QNameAt(s[1..]);
    if name.local.None? then Err else Ok((VariableToken(name.prefix, name.local.value), 1 + name.length))
  }

  /** The next token of a text that does not begin with whitespace, and how long it is. */
  function NextToken(s: string, previous: Option<Token>): (r: Result<(Token, nat)>)
    requires s != []
    ensures r.Ok? ==> 0 < r.value.1 <= |s|
  {
    var c := s[0];
    if PairAt(s).Some? then
      Ok((PairAt(s).value, 2))
    else if Punctuation(c, previous).Some? then
      Ok((Punctuation(c, previous).value, 1))
    else if c == '"' || c == '\'' then
      LiteralAt(s)
    else if c == '$' then
      VariableAt(s)
    else if c == '.' then
      if |s| > 1 && IsDigit(s[1]) then Ok((NumberToken(NumberAt(s).0), NumberAt(s).1)) else Ok((Dot, 1))
    else if IsDigit(c) then
      Ok((NumberToken(NumberAt(s).0), NumberAt(s).1))
    else if IsNcnameStartChar(c) then
      NameTokenAt(s, previous)
    else
      Err
  }

  /** The tokens of a text, given the token before it. */
  function Tokenize(s: string, previous: Option<Token>): Result<seq<Token>>
    decreases |s|
  {
    var rest := SkipWhitespace(s);
    if rest == [] then
      Ok([])
    else
      var next :- NextToken(rest, previous);
      var tokens :- Tokenize(rest[next.1..], Some(next.0));
      Ok([next.0] + tokens)
  }

  /** Blanks, tabs and line ends before a token make no difference. */
  lemma {:induction false} SpaceMakesNoDifference(space: string, s: string, previous: Option<Token>)
    requires forall c | c in space :: c == ' ' || c == '\t' || c == '\r' || c == '\n'
    ensures Tokenize(space + s, previous) == Tokenize(s, previous)
    decreases space
  {
    if space == [] {
      assert space + s == s;
    } else {
      var text := space + s;
      assert space[0] in space && text[0] == space[0] && text[1..] == space[1..] + s;
      assert SkipWhitespace(text) == SkipWhitespace(text[1..]);
      assert Tokenize(text, previous) == Tokenize(text[1..], previous);
      assert forall c | c in space[1..] :: c in space;
      SpaceMakesNoDifference(space[1..], s, previous);
    }
  }

  // --- The cursor -----------------------------------------------------------------------------------

  lemma {:induction false} NameLengthIs(s: string, n: nat)
    requires n <= |s| && (forall c | c in s[..n] :: IsNcnameChar(c)) && (n < |s| ==> !IsNcnameChar(s[n]))
    ensures NameLength(s) == n
  {
    if n > 0 {
      assert s[0] in s[..n];
      assert s[1..][..n - 1] == s[..n][1..];
      NameLengthIs(s[1..], n - 1);
    }
  }

  lemma {:induction false} DigitLengthIs(s: string, n: nat)
    requires n <= |s| && (forall c | c in s[..n] :: IsDigit(c)) && (n < |s| ==> !IsDigit(s[n]))
    ensures DigitLength(s) == n
  {
    if n > 0 {
      assert s[0] in s[..n];
      assert s[1..][..n - 1] == s[..n][1..];
      DigitLengthIs(s[1..], n - 1);
    }
  }

  lemma SlicesTwice(s: string, n: nat, m: nat)
    requires n + 1 + m <= |s|
    ensures s[n..][1..][m..] == s[n + 1 + m..] && s[n..][1..][..m] == s[n..][1..1 + m]
  {
  }

  class Lexer {
    const input: string
    var at: nat

    ghost predicate Valid()
      reads this
    {
      at <= |input|
    }

    function Rest(): string
      requires Valid()
      reads this
    {
      input[at..]
    }

    constructor (input: string)
      ensures Valid() && this.input == input && at == 0
    {
      this.input := input;
      at := 0;
    }

    /** What was read is what `spec` says is at `before`, and the cursor is past it exactly. */
    ghost predicate Reads<T>(before: string, spec: Result<(T, nat)>, r: Result<T>)
      requires spec.Ok? ==> spec.value.1 <= |before|
      reads this
    {
      && Valid()
      && match spec {
           case Err => r.Err?
           case Ok((token, length)) => r == Ok(token) && Rest() == before[length..]
         }
    }

    method Advance(n: nat)
      requires Valid() && n <= |Rest()|
      modifies this`at
      ensures Valid() && at == old(at) + n && Rest() == old(Rest())[n..]
    {
      at := at + n;
    }

    method Eat(text: string) returns (eaten: bool)
      requires Valid()
      modifies this`at
      ensures Valid() && eaten == StartsWith(old(Rest()), text)
      ensures Rest() == if eaten then old(Rest())[|text|..] else old(Rest())
    {
      eaten := StartsWith(Rest(), text);
      if eaten {
        Advance(|text|);
      }
    }

    method SkipSpace()
      requires Valid()
      modifies this`at
      ensures Valid() && Rest() == SkipWhitespace(old(Rest()))
    {
      while Rest() != [] && IsWhitespace(Rest()[0])
        invariant Valid() && SkipWhitespace(Rest()) == SkipWhitespace(old(Rest()))
        decreases |input| - at
      {
        Advance(1);
      }
    }

    method ReadNcname() returns (r: Result<string>)
      requires Valid()
      modifies this`at
      ensures Valid()
      ensures match NcnameAt(old(Rest())) {
                case Err => r.Err?
                case Ok(n) => r == Ok(old(Rest())[..n]) && Rest() == old(Rest())[n..]
              }
    {
      var rest := Rest();
      if rest == [] || !IsNcnameStartChar(rest[0]) {
        return Err;
      }
      var end := 0;
      while end < |rest| && IsNcnameChar(rest[end])
        invariant end <= |rest| && forall c | c in rest[..end] :: IsNcnameChar(c)
      {
        assert rest[..end + 1] == rest[..end] + [rest[end]];
        end := end + 1;
      }
      NameLengthIs(rest, end);
      Advance(end);
      return Ok(rest[..end]);
    }

    /** A name's prefix and local part; no local part is the `*` of `prefix:*`. */
    method ReadQName() returns (r: Result<(Option<string>, Option<string>)>)
      requires Valid()
      modifies this`at
      ensures Valid()
      ensures match QNameAt(old(Rest())) {
                case Err => r.Err?
                case Ok(name) => r == Ok((name.prefix, name.local)) && Rest() == old(Rest())[name.length..]
              }
    {
      hide IsNcname, IsNcnameStartChar, NcnameAt, NameLength;
      ghost var s := Rest();
      var first :- ReadNcname();
      ghost var n := |first|;
      if !StartsWith(Rest(), ":") || StartsWith(Rest(), "::") {
        return Ok((None, Some(first)));
      }
      Advance(1);
      if StartsWith(Rest(), "*") {
        Advance(1);
        SlicesTwice(s, n, 1);
        return Ok((Some(first), None));
      }
      var local :- ReadNcname();
      SlicesTwice(s, n, |local|);
      return Ok((Some(first), Some(local)));
    }

    method ReadLiteral() returns (r: Result<Token>)
      requires Valid() && Rest() != []
      modifies this`at
      ensures Reads(old(Rest()), LiteralAt(old(Rest())), r)
    {
      ghost var s := Rest();
      var quote := Rest()[0];
      Advance(1);
      match Find(Rest(), quote) {
        case None => return Err;
        case Some(end) =>
          var value := Rest()[..end];
          assert value == s[1..1 + end];
          Advance(end + 1);
          return Ok(LiteralToken(value));
      }
    }

    method ReadNumber() returns (numeral: Numeral)
      requires Valid()
      modifies this`at
      ensures Valid() && numeral == NumberAt(old(Rest())).0 && Rest() == old(Rest())[NumberAt(old(Rest())).1..]
    {
      hide NumeralOf, DigitLength;
      var s := Rest();
      var end := CountDigits(s);
      var point := end;
      if end < |s| && s[end] == '.' {
        var digits := CountDigits(s[point + 1..]);
        end := end + 1 + digits;
        numeral := NumeralOf(s[..point], s[point + 1..end]);
      } else {
        numeral := NumeralOf(s[..point], []);
      }
      Advance(end);
    }

    static method CountDigits(s: string) returns (end: nat)
      ensures end == DigitLength(s)
    {
      end := 0;
      while end < |s| && IsDigit(s[end])
        invariant end <= |s| && forall c | c in s[..end] :: IsDigit(c)
      {
        assert s[..end + 1] == s[..end] + [s[end]];
        end := end + 1;
      }
      DigitLengthIs(s, end);
    }

    method ReadVariable() returns (r: Result<Token>)
      requires Valid() && Rest() != []
      modifies this`at
      ensures Reads(old(Rest()), VariableAt(old(Rest())), r)
    {
      hide QNameAt;
      Advance(1);
      var name :- ReadQName();
      match name.1 {
        case Some(local) => return Ok(VariableToken(name.0, local));
        case None => return Err;
      }
    }

    /** A name becomes a token: operator, axis, function, node type, wildcard or plain name. */
    method ReadName(previous: Option<Token>) returns (r: Result<Token>)
      requires Valid()
      modifies this`at
      ensures Reads(old(Rest()), NameTokenAt(old(Rest()), previous), r)
    {
      hide QNameAt, AxisNamed, NodeTypeNamed, OperatorNamed, PrecedesOperand, IsNcname;
      var name :- ReadQName();
      if name.1.None? {
        return Ok(WildcardToken(name.0.value));
      }
      var local := name.1.value;
      if name.0.None? && !PrecedesOperand(previous) && OperatorNamed(local).Some? {
        return Ok(OperatorNamed(local).value);
      }
      var after := SkipWhitespace(Rest());
      if StartsWith(after, "::") {
        if name.0.None? && AxisNamed(local).Some? {
          return Ok(AxisToken(AxisNamed(local).value));
        }
        return Err;
      }
      if StartsWith(after, "(") {
        if name.0.None? && NodeTypeNamed(local).Some? {
          return Ok(NodeTypeToken(NodeTypeNamed(local).value));
        }
        return Ok(FunctionToken(name.0, local));
      }
      return Ok(NameToken(name.0, local));
    }

    /** One of the two-character tokens, if that is what comes next. */
    method ReadPair() returns (r: Option<Token>)
      requires Valid()
      modifies this`at
      ensures Valid() && r == PairAt(old(Rest())) && Rest() == if r.Some? then old(Rest())[2..] else old(Rest())
    {
      ghost var s := Rest();
      for i := 0 to |PAIRS|
        invariant Valid() && Rest() == s
        invariant forall k | 0 <= k < i :: !StartsWith(s, PAIRS[k].0)
      {
        var eaten := Eat(PAIRS[i].0);
        if eaten {
          PairAtIs(s, i);
          return Some(PAIRS[i].1);
        }
      }
      PairAtIs(s, |PAIRS|);
      return None;
    }

    method ReadToken(previous: Option<Token>) returns (r: Result<Token>)
      requires Valid() && Rest() != []
      modifies this`at
      ensures Reads(old(Rest()), NextToken(old(Rest()), previous), r)
    {
      hide PairAt, Punctuation, LiteralAt, VariableAt, NumberAt, NameTokenAt, IsNcnameStartChar;
      var pair := ReadPair();
      if pair.Some? {
        return Ok(pair.value);
      }
      var c := Rest()[0];
      var punctuation := Punctuation(c, previous);
      if punctuation.Some? {
        Advance(1);
        return Ok(punctuation.value);
      }
      if c == '"' || c == '\'' {
        r := ReadLiteral();
      } else if c == '$' {
        r := ReadVariable();
      } else if c == '.' {
        if |Rest()| > 1 && IsDigit(Rest()[1]) {
          var numeral := ReadNumber();
          r := Ok(NumberToken(numeral));
        } else {
          Advance(1);
          r := Ok(Dot);
        }
      } else if IsDigit(c) {
        var numeral := ReadNumber();
        r := Ok(NumberToken(numeral));
      } else if IsNcnameStartChar(c) {
        r := ReadName(previous);
      } else {
        r := Err;
      }
    }

    /** The tokens of a whole expression, or no tokens at all. */
    static method Run(input: string) returns (r: Result<seq<Token>>)
      ensures r == Tokenize(input, None)
    {
      hide NextToken;
      var lexer := new Lexer(input);
      var tokens: seq<Token> := [];
      PrependNone(Tokenize(input, None));
      while true
        invariant lexer.Valid() && fresh(lexer)
        invariant Prepend(tokens, Tokenize(lexer.Rest(), LastOf(tokens, None))) == Tokenize(input, None)
        decreases |lexer.input| - lexer.at
      {
        ghost var start := lexer.Rest();
        lexer.SkipSpace();
        if lexer.Rest() == [] {
          assert tokens + [] == tokens;
          return Ok(tokens);
        }
        ghost var rest := lexer.Rest();
        var token :- lexer.ReadToken(LastOf(tokens, None));
        PrependToken(tokens, token, Tokenize(lexer.Rest(), Some(token)));
        tokens := tokens + [token];
      }
    }
  }

  function Prepend(ts: seq<Token>, r: Result<seq<Token>>): Result<seq<Token>> {
    if r.Ok? then Ok(ts + r.value) else Err
  }

  function LastOf(ts: seq<Token>, previous: Option<Token>): Option<Token> {
    if ts == [] then previous else Some(ts[|ts| - 1])
  }

  lemma PrependNone(r: Result<seq<Token>>)
    ensures Prepend([], r) == r
  {
    if r.Ok? {
      assert [] + r.value == r.value;
    }
  }

  lemma PrependToken(tokens: seq<Token>, token: Token, r: Result<seq<Token>>)
    ensures Prepend(tokens + [token], r) == Prepend(tokens, if r.Ok? then Ok([token] + r.value) else Err)
  {
    if r.Ok? {
      assert (tokens + [token]) + r.value == tokens + ([token] + r.value);
    }
  }
}
