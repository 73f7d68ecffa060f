/**
 * Syntax trees of the fully parenthesised expression language
 *   <e> ::= <n> | <v> | (<e> <o> <e>)
 * and the Expression record that pairs a tree with the text it was parsed from.
 */
module Expressions {
  import opened Wrappers
  import opened JavaStrings
  import opened Numbers

  /** The five operator types; their symbols are the five characters the operator token accepts. */
  datatype Op = Add | Sub | Mul | Div | Pow {
    function Symbol(): char
    {
      match this
      case Add => '+'
      case Sub => '-'
      case Mul => '*'
      case Div => '/'
      case Pow => '^'
    }
  }

  predicate IsOperatorChar(c: char)
  {
    c == '+' || c == '-' || c == '*' || c == '/' || c == '^'
  }

  /** The lookup over Operator.Type.values() by the one-character symbol string. */
  function OperatorOf(t: string): (r: Option<Op>)
    ensures r.Some? ==> t == [r.value.Symbol()]
    ensures |t| == 1 && IsOperatorChar(t[0]) ==> r.Some?
  {
    if t == "+" then Some(Add)
    else if t == "-" then Some(Sub)
    else if t == "*" then Some(Mul)
    else if t == "/" then Some(Div)
    else if t == "^" then Some(Pow)
    else None
  }

  /** Looking up an operator's own symbol finds that operator. */
  lemma OperatorOfSymbol(op: Op)
    ensures OperatorOf([op.Symbol()]) == Some(op)
  {
    match op
    case Add => assert [op.Symbol()] == "+";
    case Sub => assert [op.Symbol()] == "-";
    case Mul => assert [op.Symbol()] == "*";
    case Div => assert [op.Symbol()] == "/";
    case Pow => assert [op.Symbol()] == "^";
  }

  /** Operator.Type.values(), in declaration order. */
  const Ops: seq<Op> := [Add, Sub, Mul, Div, Pow]

  /** A string that is none of the five symbols names no operator. */
  lemma NoSymbolNoOperator(t: string)
    requires forall j :: 0 <= j < |Ops| ==> t != [Ops[j].Symbol()]
    ensures OperatorOf(t).None?
  {
    assert t != [Ops[0].Symbol()] && t != [Ops[1].Symbol()] && t != [Ops[2].Symbol()];
    assert t != [Ops[3].Symbol()] && t != [Ops[4].Symbol()];
  }

  /** A constant keeps its literal text; its value is ConstantValue(text). */
  datatype Node =
    | Constant(text: string)
    | Variable(name: string)
    | Operator(op: Op, left: Node, right: Node)

  /** The parsed tree together with the raw, unstripped expression text. */
  datatype Expression = Expression(root: Node, text: string)

  /** The variable token: `[a-z][a-z0-9]*`. */
  predicate IsVariableName(t: string)
  {
    |t| > 0 && IsLowerLetter(t[0]) &&
    forall k :: 1 <= k < |t| ==> IsLowerLetter(t[k]) || IsDigit(t[k])
  }

  /** A tree the parser can produce: every leaf is a well-formed token. */
  predicate WellFormed(n: Node)
  {
    match n
    case Constant(t) => IsConstantLiteral(t)
    case Variable(x) => IsVariableName(x)
    case Operator(_, l, r) => WellFormed(l) && WellFormed(r)
  }

  /** The tree in the grammar's own fully parenthesised, space-free form. */
  function Print(n: Node): string
  {
    match n
    case Constant(t) => t
    case Variable(x) => x
    case Operator(op, l, r) => "(" + Print(l) + [op.Symbol()] + Print(r) + ")"
  }

  /** The names a tree looks up in the tuple. */
  function FreeVariables(n: Node): set<string>
  {
    match n
    case Constant(_) => {}
    case Variable(x) => {x}
    case Operator(_, l, r) => FreeVariables(l) + FreeVariables(r)
  }
}
