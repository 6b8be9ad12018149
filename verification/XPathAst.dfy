/** Expressions of XPath 1.0 as trees, with every abbreviation written out. */
module XPathAst {
  import opened Wrappers

  datatype Axis =
    | Ancestor
    | AncestorOrSelf
    | Attribute
    | Child
    | Descendant
    | DescendantOrSelf
    | Following
    | FollowingSibling
    | Namespace
    | Parent
    | Preceding
    | PrecedingSibling
    | SelfAxis

  datatype NameTest =
    | AnyName
    | InNamespace(prefix: string)
    | QualifiedName(prefixed: Option<string>, local: string)

  datatype NodeTest =
    | NamedTest(name: NameTest)
    | AnyNodeTest
    | TextTest
    | CommentTest
    | ProcessingInstructionTest(target: Option<string>)

  datatype Step = Step(axis: Axis, test: NodeTest, predicates: seq<Expr>)

  datatype PathStart = RootStart | ContextStart | ExprStart(expr: Expr)

  datatype Path = Path(start: PathStart, steps: seq<Step>)

  datatype BinaryOp =
    | Or
    | And
    | Equal
    | NotEqual
    | Less
    | LessEqual
    | Greater
    | GreaterEqual
    | Add
    | Subtract
    | Multiply
    | Divide
    | Modulo
    | Union

  /** A finite number by its shortest decimal digits, which is how it is printed. */
  datatype Numeral = Numeral(whole: string, fraction: string)

  datatype Expr =
    | Binary(op: BinaryOp, left: Expr, right: Expr)
    | Negate(operand: Expr)
    | PathExpr(path: Path)
    | FilterExpr(filtered: Expr, predicates: seq<Expr>)
    | Literal(text: string)
    | Number(numeral: Numeral)
    | Variable(prefix: Option<string>, local: string)
    | Function(prefix: Option<string>, local: string, arguments: seq<Expr>)
}
