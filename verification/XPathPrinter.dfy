/** Writing an expression tree back as text: the unabbreviated form, with parentheses where they are needed. */
module XPathPrinter {
  import opened Wrappers
  import opened XPathAst

  function AxisName(axis: Axis): string {
    match axis
    case Ancestor => "ancestor"
    case AncestorOrSelf => "ancestor-or-self"
    case Attribute => "attribute"
    case Child => "child"
    case Descendant => "descendant"
    case DescendantOrSelf => "descendant-or-self"
    case Following => "following"
    case FollowingSibling => "following-sibling"
    case Namespace => "namespace"
    case Parent => "parent"
    case Preceding => "preceding"
    case PrecedingSibling => "preceding-sibling"
    case SelfAxis => "self"
  }

  function Symbol(op: BinaryOp): string {
    match op
    case Or => "or"
    case And => "and"
    case Equal => "="
    case NotEqual => "!="
    case Less => "<"
    case LessEqual => "<="
    case Greater => ">"
    case GreaterEqual => ">="
    case Add => "+"
    case Subtract => "-"
    case Multiply => "*"
    case Divide => "div"
    case Modulo => "mod"
    case Union => "|"
  }

  function PrintQName(prefix: Option<string>, local: string): string {
    if prefix.Some? then prefix.value + ":" + local else local
  }

  /** A literal in the quotes its value does not contain. */
  function PrintLiteral(text: string): string {
    if '\'' in text then "\"" + text + "\"" else "'" + text + "'"
  }

  function PrintNumeral(n: Numeral): string {
    if n.fraction == [] then n.whole else n.whole + "." + n.fraction
  }

  function PrintTest(test: NodeTest): string {
    match test
    case NamedTest(AnyName) => "*"
    case NamedTest(InNamespace(prefix)) => prefix + ":*"
    case NamedTest(QualifiedName(prefix, local)) => PrintQName(prefix, local)
    case AnyNodeTest => "node()"
    case TextTest => "text()"
    case CommentTest => "comment()"
    case ProcessingInstructionTest(None) => "processing-instruction()"
    case ProcessingInstructionTest(Some(target)) => "processing-instruction(" + PrintLiteral(target) + ")"
  }

  function PrintPredicates(predicates: seq<Expr>): string {
    if predicates == [] then
      ""
    else
      "[" + Print(predicates[0]) + "]" + PrintPredicates(predicates[1..])
  }

  function PrintStep(step: Step): string {
    AxisName(step.axis) + "::" + PrintTest(step.test) + PrintPredicates(step.predicates)
  }

  /** Steps, each but the first with a slash before it. */
  function PrintSteps(steps: seq<Step>): string {
    if steps == [] then
      ""
    else if |steps| == 1 then
      PrintStep(steps[0])
    else
      PrintStep(steps[0]) + "/" + PrintSteps(steps[1..])
  }

  function PrintArguments(arguments: seq<Expr>): string {
    if arguments == [] then
      ""
    else if |arguments| == 1 then
      Print(arguments[0])
    else
      Print(arguments[0]) + ", " + PrintArguments(arguments[1..])
  }

  function PrintPath(path: Path): string {
    match path.start
    case RootStart => "/" + PrintSteps(path.steps)
    case ContextStart => PrintSteps(path.steps)
    case ExprStart(e) => if path.steps == [] then Embedded(e) else Embedded(e) + "/" + PrintSteps(path.steps)
  }

  /** What cannot stand inside something else as it is: a slash at the end would take up what follows, a minus sign at the start what is before. */
  predicate NeedsParentheses(printed: string) {
    printed != [] && (printed[|printed| - 1] == '/' || printed[0] == '-')
  }

  function Parenthesized(printed: string): string {
    if NeedsParentheses(printed) then "(" + printed + ")" else printed
  }

  /** An operand as it is written inside something else, in parentheses if it needs them. */
  function Embedded(e: Expr): string
    decreases e, 1
  {
    Parenthesized(Print(e))
  }

  /** A predicate written after a path would bind to the path's last step. */
  predicate AbsorbsPredicates(e: Expr) {
    e.PathExpr? && e.path.steps != []
  }

  function FilteredText(filtered: Expr): string
    decreases filtered, 2
  {
    if AbsorbsPredicates(filtered) then "(" + Print(filtered) + ")" else Embedded(filtered)
  }

  function Print(e: Expr): string
    decreases e, 0
  {
    match e
    case Binary(op, left, right) => "(" + Embedded(left) + " " + Symbol(op) + " " + Embedded(right) + ")"
    case Negate(operand) => "-" + Embedded(operand)
    case PathExpr(path) => PrintPath(path)
    case FilterExpr(filtered, predicates) =>
      FilteredText(filtered) + PrintPredicates(predicates)
    case Literal(text) => PrintLiteral(text)
    case Number(numeral) => PrintNumeral(numeral)
    case Variable(prefix, local) => "$" + PrintQName(prefix, local)
    case Function(prefix, local, arguments) => PrintQName(prefix, local) + "(" + PrintArguments(arguments) + ")"
  }

  // --- The formatter ----------------------------------------------------------------------------------

  lemma Reassociated(a: string, b: string, c: string, d: string)
    ensures a + (b + c + d) == a + b + c + d
  {
  }

  lemma {:induction false} StepsPrinted(steps: seq<Step>, i: nat)
    requires 0 < i < |steps|
    ensures PrintSteps(steps[..i + 1]) == PrintSteps(steps[..i]) + "/" + PrintStep(steps[i])
  {
    hide PrintStep;
    if i == 1 {
      assert steps[..2][1..] == [steps[1]];
      assert steps[..1] == [steps[0]];
    } else {
      StepsPrinted(steps[1..], i - 1);
      assert steps[..i + 1][1..] == steps[1..][..i] && steps[..i][1..] == steps[1..][..i - 1];
      Reassociated(PrintStep(steps[0]) + "/", PrintSteps(steps[1..][..i - 1]), "/", PrintStep(steps[i]));
    }
  }

  lemma {:induction false} ArgumentsPrinted(arguments: seq<Expr>, i: nat)
    requires 0 < i < |arguments|
    ensures PrintArguments(arguments[..i + 1]) == PrintArguments(arguments[..i]) + ", " + Print(arguments[i])
  {
    hide Print;
    if i == 1 {
      assert arguments[..2][1..] == [arguments[1]];
      assert arguments[..1] == [arguments[0]];
    } else {
      ArgumentsPrinted(arguments[1..], i - 1);
      assert arguments[..i + 1][1..] == arguments[1..][..i] && arguments[..i][1..] == arguments[1..][..i - 1];
      Reassociated(Print(arguments[0]) + ", ", PrintArguments(arguments[1..][..i - 1]), ", ", Print(arguments[i]));
    }
  }

  lemma {:induction false} PredicatesPrinted(predicates: seq<Expr>, i: nat)
    requires i < |predicates|
    ensures PrintPredicates(predicates[..i + 1]) == PrintPredicates(predicates[..i]) + "[" + Print(predicates[i]) + "]"
  {
    hide Print;
    if i == 0 {
      assert predicates[..1][1..] == [];
    } else {
      PredicatesPrinted(predicates[1..], i - 1);
      assert predicates[..i + 1][1..] == predicates[1..][..i] && predicates[..i][1..] == predicates[1..][..i - 1];
      Reassociated("[" + Print(predicates[0]) + "]" + PrintPredicates(predicates[1..][..i - 1]), "[", Print(predicates[i]), "]");
    }
  }

  /** A path's text while its steps are being written: `i` of them so far. */
  function PathSoFar(start: string, relative: bool, steps: seq<Step>, i: nat): string
    requires i <= |steps|
  {
    start + (if relative || i == 0 then "" else "/") + PrintSteps(steps[..i])
  }

  lemma PathGrows(start: string, relative: bool, steps: seq<Step>, i: nat)
    requires i < |steps|
    ensures PathSoFar(start, relative, steps, i + 1)
         == PathSoFar(start, relative, steps, i) + (if i > 0 || !relative then "/" else "") + PrintStep(steps[i])
  {
    hide PrintStep;
    if i > 0 {
      StepsPrinted(steps, i);
      Reassociated(start + (if relative then "" else "/"), PrintSteps(steps[..i]), "/", PrintStep(steps[i]));
    } else {
      assert steps[..1] == [steps[0]];
    }
  }

  lemma NothingPrinted(start: string, relative: bool, steps: seq<Step>)
    ensures PathSoFar(start, relative, steps, 0) == start
  {
    assert PrintSteps(steps[..0]) == "";
  }

  lemma WholePath(path: Path)
    ensures path.start.RootStart? && path.steps == [] ==> PrintPath(path) == "/"
    ensures !(path.start.RootStart? && path.steps == []) ==>
              PrintPath(path) == PathSoFar(if path.start.ExprStart? then Embedded(path.start.expr) else "",
                                           path.start.ContextStart?, path.steps, |path.steps|)
  {
    hide PrintStep, Embedded;
    assert path.steps[..|path.steps|] == path.steps;
  }

  lemma Regrouped(a: string, b: string, c: string, d: string)
    ensures a + b + c + d == a + (b + c + d)
  {
  }

  class Formatter {
    var output: string

    constructor ()
      ensures output == ""
    {
      output := "";
    }

    method Write(text: string)
      modifies this
      ensures output == old(output) + text
    {
      output := output + text;
    }

    method WriteQName(prefix: Option<string>, local: string)
      modifies this
      ensures output == old(output) + PrintQName(prefix, local)
    {
      if prefix.Some? {
        Write(prefix.value);
        Write(":");
      }
      Write(local);
    }

    method WritePredicates(predicates: seq<Expr>)
      modifies this
      ensures output == old(output) + PrintPredicates(predicates)
      decreases predicates, 0
    {
      for i := 0 to |predicates|
        invariant output == old(output) + PrintPredicates(predicates[..i])
      {
        Write("[");
        WriteExpr(predicates[i]);
        Write("]");
        PredicatesPrinted(predicates, i);
      }
      assert predicates[..|predicates|] == predicates;
    }

    method WriteStep(step: Step)
      modifies this
      ensures output == old(output) + PrintStep(step)
      decreases step, 1
    {
      hide PrintTest, AxisName;
      Write(AxisName(step.axis));
      Write("::");
      Write(PrintTest(step.test));
      WritePredicates(step.predicates);
    }

    method WritePath(path: Path)
      modifies this
      ensures output == old(output) + PrintPath(path)
      decreases path, 3
    {
      hide PrintStep, PrintSteps, Embedded;
      var steps := path.steps;
      var relative := path.start.ContextStart?;
      ghost var start := if path.start.ExprStart? then Embedded(path.start.expr) else "";
      ghost var before := output;
      if path.start.RootStart? && steps == [] {
        Write("/");
        WholePath(path);
        return;
      }
      if path.start.ExprStart? {
        var text := EmbeddedText(path.start.expr);
        Write(text);
      }
      assert output == before + PathSoFar(start, relative, steps, 0) by {
        NothingPrinted(start, relative, steps);
      }
      for i := 0 to |steps|
        invariant output == before + PathSoFar(start, relative, steps, i)
      {
        if i > 0 || !relative {
          Write("/");
        }
        WriteStep(steps[i]);
        PathGrows(start, relative, steps, i);
        Regrouped(before, PathSoFar(start, relative, steps, i), if i > 0 || !relative then "/" else "", PrintStep(steps[i]));
      }
      WholePath(path);
    }

    /** A subexpression's text, printed on its own before it is known whether it needs parentheses. */
    static method EmbeddedText(e: Expr) returns (text: string)
      ensures text == Embedded(e)
      decreases e, 5
    {
      var formatter := new Formatter();
      formatter.WriteExpr(e);
      var printed := formatter.output;
      text := if NeedsParentheses(printed) then "(" + printed + ")" else printed;
    }

    method WriteExpr(e: Expr)
      modifies this
      ensures output == old(output) + Print(e)
      decreases e, 4
    {
      hide PrintQName, PrintArguments, PrintPath, PrintPredicates, PrintLiteral, PrintNumeral, Symbol, Embedded, AbsorbsPredicates;
      ghost var before := output;
      match e
      case Binary(op, left, right) =>
        var l := EmbeddedText(left);
        var r := EmbeddedText(right);
        Write("(" + l + " " + Symbol(op) + " " + r + ")");
      case Negate(operand) =>
        var text := EmbeddedText(operand);
        Write("-" + text);
      case PathExpr(path) => WritePath(path);
      case FilterExpr(filtered, predicates) =>
        WriteFiltered(filtered);
        WritePredicates(predicates);
        Reassociated(before, FilteredText(filtered), PrintPredicates(predicates), "");
      case Literal(text) => Write(PrintLiteral(text));
      case Number(numeral) => Write(PrintNumeral(numeral));
      case Variable(prefix, local) =>
        Write("$");
        WriteQName(prefix, local);
      case Function(prefix, local, arguments) =>
        WriteQName(prefix, local);
        Write("(");
        WriteArguments(arguments);
        Write(")");
        Regrouped(before + PrintQName(prefix, local), "(", PrintArguments(arguments), ")");
        Regrouped(before, PrintQName(prefix, local), "(", PrintArguments(arguments));
    }

    method WriteFiltered(filtered: Expr)
      modifies this
      ensures output == old(output) + FilteredText(filtered)
      decreases filtered, 6
    {
      if AbsorbsPredicates(filtered) {
        Write("(");
        WriteExpr(filtered);
        Write(")");
      } else {
        var text := EmbeddedText(filtered);
        Write(text);
      }
    }

    method WriteArguments(arguments: seq<Expr>)
      modifies this
      ensures output == old(output) + PrintArguments(arguments)
      decreases arguments, 0
    {
      hide Print;
      ghost var before := output;
      for i := 0 to |arguments|
        invariant output == before + PrintArguments(arguments[..i])
      {
        if i > 0 {
          Write(", ");
        }
        WriteExpr(arguments[i]);
        if i > 0 {
          ArgumentsPrinted(arguments, i);
          Regrouped(before, PrintArguments(arguments[..i]), ", ", Print(arguments[i]));
        } else {
          assert arguments[..1] == [arguments[0]];
          assert before + PrintArguments(arguments[..0]) == before;
        }
      }
      assert arguments[..|arguments|] == arguments;
    }
  }
}
