/**
 The comparison functions of the operator table (Toolchain/src/shuntingyard_funcs.c), and when they compute
 what they are written for.
 */
module Comparisons {
  import opened Operators
  import opened Lexer
  import opened ShuntingYard
  import opened Grammar
  import opened ParserCorrectness

  predicate IsComparison(op: Op) {
    op.Gt? || op.Ge? || op.Lt? || op.Le? || op.Eq? || op.Ne?
  }

  function Bool(b: bool): int {
    if b then 1 else 0
  }

  /** The functions in the table, on the values left and right of the operator. */
  function Compare(op: Op, left: int, right: int): int
    requires IsComparison(op)
  {
    match op
    case Gt => Bool(left > right)
    case Ge => Bool(left >= right)
    case Lt => Bool(left < right)
    case Le => Bool(left >= right)
    case Eq => Bool(left == right)
    case Ne => Bool(left != right)
  }

  /** The relations the operators stand for. */
  predicate Related(op: Op, left: int, right: int)
    requires IsComparison(op)
  {
    match op
    case Gt => left > right
    case Ge => left >= right
    case Lt => left < right
    case Le => left <= right
    case Eq => left == right
    case Ne => left != right
  }

  ghost predicate UsesTable(sem: Sem<int>) {
    forall op, left, right :: IsComparison(op) ==> sem.bin(op, left, right) == Compare(op, left, right)
  }

  /** A comparison of any two expressions tells the truth about their values if and only if it is not <= or
      the values are equal: <= is computed as >=. */
  lemma ComparisonsExactly(sem: Sem<int>, op: Op, l: Expr<int>, r: Expr<int>)
    requires UsesTable(sem) && IsComparison(op) && WellFormed(Binary(op, l, r))
    ensures var left, right := Eval(sem, l), Eval(sem, r);
            Parse(sem, Yield(Binary(op, l, r))) == Ok(Bool(Related(op, left, right))) <==> op != Le || left == right
  {
    hide Parse, WellFormed;
    ParseCorrect(sem, Binary(op, l, r));
    assert Eval(sem, Binary(op, l, r)) == Compare(op, Eval(sem, l), Eval(sem, r));
  }

  /** So does every text that lexes to such a comparison. */
  lemma ComparisonTexts(env: Env, sem: Sem<int>, s: string, op: Op, l: Expr<int>, r: Expr<int>)
    requires UsesTable(sem) && IsComparison(op) && WellFormed(Binary(op, l, r))
    requires Lex(env, s, 0, false) == Some(Yield(Binary(op, l, r)))
    ensures var left, right := Eval(sem, l), Eval(sem, r);
            ParseExp(env, sem, s) == Ok(Bool(Related(op, left, right))) <==> op != Le || left == right
  {
    hide Parse, ParseExp, Lex, WellFormed, UsesTable;
    ParseExpIsParse(env, sem, s);
    ComparisonsExactly(sem, op, l, r);
  }
}
