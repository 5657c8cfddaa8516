/**
 Which operators bind tighter than which, with the levels named by their operators: a grammar with one
 nonterminal for each level, as for the expressions of C, and its equivalence with the evaluator.
 */
module Levels {
  import opened Operators
  import opened Lexer
  import opened ShuntingYard
  import opened Grammar
  import opened ParserCorrectness

  /** The binary operators, loosest first. */
  const LEVELS: seq<set<Op>> := [
    {Or}, {And}, {BitOr}, {BitXor}, {BitAnd}, {Eq, Ne}, {Lt, Le, Gt, Ge}, {ShiftLeft, ShiftRight}, {Add, Sub},
    {Mul, Div, Mod}
  ]

  predicate AtLevel(n: nat, op: Op) {
    n < |LEVELS| && op in LEVELS[n]
  }

  const PREFIXED := 10
  const PRIMARY := 11

  /** The expressions of a level: those of the next level, or an expression of this level, an operator of
      this level, and an expression of the next. Above the binary operators, one prefixed operator, and
      then operands and parentheses. */
  predicate Derives<V>(n: nat, e: Expr<V>)
    requires n <= PRIMARY
    decreases e, PRIMARY - n
  {
    if n < PREFIXED then
      if e.Binary? && AtLevel(n, e.op) then Derives(n, e.l) && Derives(n + 1, e.r) else Derives(n + 1, e)
    else if n == PREFIXED then
      if e.Unary? then e.op in {UPlus, Negate, Not, BitNot} && Derives(PRIMARY, e.e) else Derives(PRIMARY, e)
    else
      match e
      case Leaf(_) => true
      case Paren(x) => Derives(0, x)
      case _ => false
  }

  // ----- the grammar of trees is this grammar

  lemma LevelIsPriority(n: nat, op: Op)
    ensures AtLevel(n, op) <==> IsBinary(op) && Priority(op) == n + 1
  {
  }

  lemma BinaryHasLevel(op: Op)
    ensures IsBinary(op) ==> 1 <= Priority(op) <= PREFIXED
    ensures IsUnary(op) <==> op in {UPlus, Negate, Not, BitNot}
  {
  }

  lemma {:induction false} DerivesExactly<V>(n: nat, e: Expr<V>)
    requires n <= PRIMARY
    ensures Derives(n, e) <==> WellFormed(e) && Prec(e) > n
    decreases e, PRIMARY - n
  {
    hide Priority, Args, AtLevel;
    if n < PREFIXED {
      DerivesExactly(n + 1, e);
      match e
      case Binary(op, l, r) =>
        LevelIsPriority(n, op);
        DerivesExactly(n, l);
        DerivesExactly(n + 1, r);
      case _ =>
    } else if n == PREFIXED {
      DerivesExactly(PRIMARY, e);
      match e
      case Unary(op, x) =>
        BinaryHasLevel(op);
        DerivesExactly(PRIMARY, x);
      case Binary(op, _, _) => BinaryHasLevel(op);
      case _ =>
    } else {
      match e
      case Paren(x) =>
        DerivesExactly(0, x);
        PrecPositive(x);
      case Binary(op, _, _) => BinaryHasLevel(op);
      case _ =>
    }
  }

  lemma PrecPositive<V>(e: Expr<V>)
    ensures WellFormed(e) ==> Prec(e) > 0
  {
  }

  /** What is accepted, and with which value, by levels: without two unary operators in a row, a sequence of
      tokens evaluates to v if and only if it is the writing of an expression of the loosest level with
      value v. */
  lemma AcceptedByLevels<V(!new)>(sem: Sem<V>, ts: seq<Token<V>>, v: V)
    requires Alternates(ts, false) && NoAdjacentUnary(ts)
    ensures Parse(sem, ts) == Ok(v) <==> exists e: Expr<V> :: Derives(0, e) && Yield(e) == ts && Eval(sem, e) == v
  {
    hide Parse, Derives, WellFormed, Yield, Eval;
    AcceptanceIsGrammar(sem, ts, v);
    forall e: Expr<V>
      ensures Derives(0, e) <==> WellFormed(e)
    {
      DerivesExactly(0, e);
      PrecPositive(e);
    }
  }

  /** The same for text. */
  lemma TextByLevels(env: Env, sem: Sem<int>, s: string, v: int)
    requires Lex(env, s, 0, false).Some? ==> NoAdjacentUnary(Lex(env, s, 0, false).value)
    ensures ParseExp(env, sem, s) == Ok(v) <==>
            exists e: Expr<int> :: Derives(0, e) && Lex(env, s, 0, false) == Some(Yield(e)) && Eval(sem, e) == v
  {
    hide Parse, ParseExp, Lex, Derives, WellFormed, Yield, Eval;
    ParseExpIsGrammar(env, sem, s, v);
    forall e: Expr<int>
      ensures Derives(0, e) <==> WellFormed(e)
    {
      DerivesExactly(0, e);
      PrecPositive(e);
    }
  }

  // ----- two operators

  /** The second operator is of a tighter level than the first. */
  predicate Tighter(first: Op, second: Op) {
    exists i: nat, j: nat :: i < j < |LEVELS| && AtLevel(i, first) && AtLevel(j, second)
  }

  lemma TighterIsPriority(first: Op, second: Op)
    requires IsBinary(first) && IsBinary(second)
    ensures Tighter(first, second) <==> Priority(second) > Priority(first)
  {
    hide Priority, Args, AtLevel;
    if Tighter(first, second) {
      var i: nat, j: nat :| i < j < |LEVELS| && AtLevel(i, first) && AtLevel(j, second);
      LevelIsPriority(i, first);
      LevelIsPriority(j, second);
    }
    BinaryHasLevel(first);
    BinaryHasLevel(second);
    var i: nat, j: nat := Priority(first) - 1, Priority(second) - 1;
    LevelIsPriority(i, first);
    LevelIsPriority(j, second);
  }

  lemma TwoYields<V>(a: V, first: Op, b: V, second: Op, c: V)
    ensures var ts := [Num(a), Oper(first), Num(b), Oper(second), Num(c)];
            && Yield(Binary(first, Leaf(a), Binary(second, Leaf(b), Leaf(c)))) == ts
            && Yield(Binary(second, Binary(first, Leaf(a), Leaf(b)), Leaf(c))) == ts
  {
    assert Yield(Binary(second, Leaf(b), Leaf(c))) == [Num(b), Oper(second), Num(c)];
    assert Yield(Binary(first, Leaf(a), Leaf(b))) == [Num(a), Oper(first), Num(b)];
  }

  lemma TwoTrees<V>(a: V, first: Op, b: V, second: Op, c: V)
    requires IsBinary(first) && IsBinary(second)
    ensures if Priority(second) > Priority(first) then
              WellFormed(Binary(first, Leaf(a), Binary(second, Leaf(b), Leaf(c))))
            else WellFormed(Binary(second, Binary(first, Leaf(a), Leaf(b)), Leaf(c)))
  {
    hide Priority, Args;
    BinaryHasLevel(first);
    BinaryHasLevel(second);
    assert WellFormed(Binary(second, Leaf(b), Leaf(c))) && WellFormed(Binary(first, Leaf(a), Leaf(b)));
  }

  /** Of two binary operators the second one takes the operand between them if and only if it is of a
      tighter level. */
  lemma TwoOperators<V>(sem: Sem<V>, a: V, first: Op, b: V, second: Op, c: V)
    requires IsBinary(first) && IsBinary(second)
    ensures Parse(sem, [Num(a), Oper(first), Num(b), Oper(second), Num(c)])
         == Ok(if Tighter(first, second) then sem.bin(first, a, sem.bin(second, b, c))
               else sem.bin(second, sem.bin(first, a, b), c))
  {
    hide Parse, Tighter, Priority, Args, WellFormed, Yield;
    TighterIsPriority(first, second);
    TwoYields(a, first, b, second, c);
    TwoTrees(a, first, b, second, c);
    if Tighter(first, second) {
      var right := Binary(second, Leaf(b), Leaf(c));
      assert Eval(sem, right) == sem.bin(second, b, c);
      ParseCorrect(sem, Binary(first, Leaf(a), right));
    } else {
      var left := Binary(first, Leaf(a), Leaf(b));
      assert Eval(sem, left) == sem.bin(first, a, b);
      ParseCorrect(sem, Binary(second, left, Leaf(c)));
    }
  }
}
