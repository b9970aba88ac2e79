/** The fixed tables from expression classes to PHP operator spellings. */
module Operators {
  import opened Ast

  /** PHP operator written between the two parenthesised operands. */
  function BinaryToken(op: BinaryOp): string
  {
    match op
    case Add => "+"
    case And => "&&"
    case BitwiseAnd => "&"
    case BitwiseOr => "|"
    case BitwiseXor => "^"
    case Concat => "."
    case Div => "/"
    case Equal => "=="
    case FloorDiv => "/"
    case Greater => ">"
    case GreaterEqual => ">="
    case Less => "<"
    case LessEqual => "<="
    case Mod => "%"
    case Mul => "*"
    case NotEqual => "!="
    case Or => "||"
    case Power => "**"
    case Sub => "-"
    case Unmapped => "undefined"  // the operator variable is never assigned
  }

  /** Text written before the operands: only floor division wraps the
      quotient in a call to `floor`. */
  function BinaryPrefix(op: BinaryOp): string
  {
    if op == FloorDiv then "floor(" else ""
  }

  /** Text written after the operands, closing the `floor` call. */
  function BinarySuffix(op: BinaryOp): string
  {
    if op == FloorDiv then ")" else ""
  }

  /** PHP operator written before the parenthesised operand. */
  function UnaryToken(op: UnaryOp): string
  {
    match op
    case Neg => "-"
    case Not => "!"
    case Pos => "+"
  }

  /** Every operator has a non-empty spelling, and two operators share a
      spelling only when they are division and floor division, which the
      `floor(...)` wrapper then tells apart. */
  lemma BinaryTokensDistinct(a: BinaryOp, b: BinaryOp)
    ensures |BinaryToken(a)| > 0
    ensures BinaryToken(a) == BinaryToken(b) <==> a == b || {a, b} == {Div, FloorDiv}
  {
  }

  /** The three unary operators have distinct one-character spellings. */
  lemma UnaryTokensDistinct(a: UnaryOp, b: UnaryOp)
    ensures |UnaryToken(a)| == 1
    ensures UnaryToken(a) == UnaryToken(b) <==> a == b
  {
  }
}
