/** The operator table of Toolchain/src/shuntingyard_funcs.c. */
module Operators {

  datatype Op =
    | OpenParen | ClosedParen
    | UPlus | Negate
    | Mul | Div | Mod
    | Add | Sub
    | ShiftRight | Ge | Gt | ShiftLeft | Le | Lt
    | Eq | Ne
    | Not | BitNot
    | BitXor | Or | BitOr | And | BitAnd

  /** The entries in the order in which they are tried. */
  const OPERATORS: seq<Op> := [
    OpenParen, ClosedParen, UPlus, Negate, Mul, Div, Mod, Add, Sub,
    ShiftRight, Ge, Gt, ShiftLeft, Le, Lt, Eq, Ne, Not, BitNot, BitXor, Or, BitOr, And, BitAnd
  ]

  function Str(op: Op): string {
    match op
    case OpenParen => "("
    case ClosedParen => ")"
    case UPlus => "+"
    case Negate => "-"
    case Mul => "*"
    case Div => "/"
    case Mod => "%"
    case Add => "+"
    case Sub => "-"
    case ShiftRight => ">>"
    case Ge => ">="
    case Gt => ">"
    case ShiftLeft => "<<"
    case Le => "<="
    case Lt => "<"
    case Eq => "=="
    case Ne => "!="
    case Not => "!"
    case BitNot => "~"
    case BitXor => "^"
    case Or => "||"
    case BitOr => "|"
    case And => "&&"
    case BitAnd => "&"
  }

  function Priority(op: Op): int {
    match op
    case OpenParen | ClosedParen => 0
    case UPlus | Negate | Not | BitNot => 11
    case Mul | Div | Mod => 10
    case Add | Sub => 9
    case ShiftRight | ShiftLeft => 8
    case Ge | Gt | Le | Lt => 7
    case Eq | Ne => 6
    case BitAnd => 5
    case BitXor => 4
    case BitOr => 3
    case And => 2
    case Or => 1
  }

  /** The args field: how many values the operator takes. It also decides where the operator may
      stand, so the open parenthesis counts as taking one and the closed one as taking none. */
  function Args(op: Op): nat {
    match op
    case ClosedParen => 0
    case OpenParen | UPlus | Negate | Not | BitNot => 1
    case _ => 2
  }

  predicate IsParen(op: Op) {
    op.OpenParen? || op.ClosedParen?
  }

  predicate IsUnary(op: Op) {
    Args(op) == 1 && !op.OpenParen?
  }

  predicate IsBinary(op: Op) {
    Args(op) == 2
  }

  /** The functions of the table, on values of any kind. Parentheses have none. */
  datatype Sem<!V> = Sem(un: (Op, V) -> V, bin: (Op, V, V) -> V)
}
