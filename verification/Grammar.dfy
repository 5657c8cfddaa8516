/**
 What expressions mean: syntax trees, the tokens they are written with, and their values.

 A tree keeps its parentheses. It is well formed when precedence and left associativity read its
 tokens back as this tree; a unary operand of a unary operator has to be in parentheses.
 */
module Grammar {
  import opened Operators
  import opened Lexer

  datatype Expr<+V> =
    | Leaf(v: V)
    | Paren(e: Expr<V>)
    | Unary(op: Op, e: Expr<V>)
    | Binary(op: Op, l: Expr<V>, r: Expr<V>)

  function Prec<V>(e: Expr<V>): int {
    match e
    case Leaf(_) | Paren(_) => 12
    case Unary(_, _) => 11
    case Binary(op, _, _) => Priority(op)
  }

  predicate WellFormed<V>(e: Expr<V>) {
    match e
    case Leaf(_) => true
    case Paren(x) => WellFormed(x)
    case Unary(op, x) => IsUnary(op) && WellFormed(x) && Prec(x) > 11
    case Binary(op, l, r) =>
      IsBinary(op) && WellFormed(l) && WellFormed(r) && Prec(l) >= Priority(op) && Prec(r) > Priority(op)
  }

  function Yield<V>(e: Expr<V>): seq<Token<V>> {
    match e
    case Leaf(v) => [Num(v)]
    case Paren(x) => [Oper(OpenParen)] + Yield(x) + [Oper(ClosedParen)]
    case Unary(op, x) => [Oper(op)] + Yield(x)
    case Binary(op, l, r) => Yield(l) + [Oper(op)] + Yield(r)
  }

  function Eval<V>(sem: Sem<V>, e: Expr<V>): V {
    match e
    case Leaf(v) => v
    case Paren(x) => Eval(sem, x)
    case Unary(op, x) => sem.un(op, Eval(sem, x))
    case Binary(op, l, r) => sem.bin(op, Eval(sem, l), Eval(sem, r))
  }

  predicate IsUnaryToken<V>(t: Token<V>) {
    t.Oper? && IsUnary(t.op)
  }

  predicate NoAdjacentUnary<V>(ts: seq<Token<V>>) {
    forall k :: 0 < k < |ts| ==> !(IsUnaryToken(ts[k - 1]) && IsUnaryToken(ts[k]))
  }
}
