/**
 The two-stack evaluator agrees with the grammar, in both directions.
 */
module ParserCorrectness {
  import opened Operators
  import opened Lexer
  import opened ShuntingYard
  import opened Grammar

  // ----- evaluating a stretch of pending operators

  function EvalAll<V>(sem: Sem<V>, vals: seq<V>, ops: seq<Op>): Option<seq<V>>
    decreases |ops|
  {
    if ops == [] then Some(vals)
    else
      var vals' := ApplyOp(sem, vals, ops[|ops| - 1]);
      if vals'.None? then None else EvalAll(sem, vals'.value, ops[..|ops| - 1])
  }

  lemma {:induction false} EvalAllConcat<V>(sem: Sem<V>, vals: seq<V>, front: seq<Op>, back: seq<Op>)
    requires EvalAll(sem, vals, back).Some?
    ensures EvalAll(sem, vals, front + back) == EvalAll(sem, EvalAll(sem, vals, back).value, front)
    decreases |back|
  {
    if back == [] {
      assert front + back == front;
    } else {
      var n := |back| - 1;
      assert (front + back)[..|front| + n] == front + back[..n];
      EvalAllConcat(sem, ApplyOp(sem, vals, back[n]).value, front, back[..n]);
    }
  }

  /** All of these bind at least as tightly as priority p. */
  ghost predicate AtLeast(ops: seq<Op>, p: int) {
    ops == [] || (Binds(ops[|ops| - 1], p) && AtLeast(ops[..|ops| - 1], p))
  }

  lemma {:induction false} AtLeastWeaken(ops: seq<Op>, p: int, q: int)
    requires AtLeast(ops, q) && p <= q
    ensures AtLeast(ops, p)
  {
    if ops != [] {
      AtLeastWeaken(ops[..|ops| - 1], p, q);
    }
  }

  predicate Binds(op: Op, p: int) {
    !IsParen(op) && Priority(op) >= p
  }

  lemma {:induction false} AtLeastCons(op: Op, ops: seq<Op>, p: int, q: int)
    requires Binds(op, p) && AtLeast(ops, q) && p <= q
    ensures AtLeast([op] + ops, p)
  {
    if ops == [] {
      assert ([op] + ops)[..0] == [];
    } else {
      AtLeastCons(op, ops[..|ops| - 1], p, q);
      assert ([op] + ops)[..|ops|] == [op] + ops[..|ops| - 1];
    }
  }

  lemma {:induction false} PopAll<V>(sem: Sem<V>, vals: seq<V>, below: seq<Op>, ops: seq<Op>, p: int)
    requires AtLeast(ops, p) && EvalAll(sem, vals, ops).Some?
    ensures PopWhile(sem, vals, below + ops, p) == PopWhile(sem, EvalAll(sem, vals, ops).value, below, p)
    decreases |ops|
  {
    if ops == [] {
      assert below + ops == below;
    } else {
      var n := |ops| - 1;
      SnocTop(below, ops);
      PopAll(sem, ApplyOp(sem, vals, ops[n]).value, below, ops[..n], p);
    }
  }

  lemma SnocTop(below: seq<Op>, ops: seq<Op>)
    requires ops != []
    ensures var n := |below + ops| - 1;
            n >= 0 && (below + ops)[n] == ops[|ops| - 1] && (below + ops)[..n] == below + ops[..|ops| - 1]
  {
  }

  lemma {:induction false} CloseAll<V>(sem: Sem<V>, vals: seq<V>, below: seq<Op>, ops: seq<Op>)
    requires AtLeast(ops, 1) && EvalAll(sem, vals, ops).Some?
    ensures CloseParen(sem, vals, below + ops) == CloseParen(sem, EvalAll(sem, vals, ops).value, below)
    decreases |ops|
  {
    if ops == [] {
      assert below + ops == below;
    } else {
      var n := |ops| - 1;
      SnocTop(below, ops);
      CloseAll(sem, ApplyOp(sem, vals, ops[n]).value, below, ops[..n]);
    }
  }

  lemma {:induction false} FlushAll<V>(sem: Sem<V>, vals: seq<V>, ops: seq<Op>)
    requires EvalAll(sem, vals, ops).Some?
    ensures Flush(sem, vals, ops) == State(EvalAll(sem, vals, ops).value, [], false, Done)
    decreases |ops|
  {
    if ops != [] {
      FlushAll(sem, ApplyOp(sem, vals, ops[|ops| - 1]).value, ops[..|ops| - 1]);
    }
  }

  lemma {:induction false} RunConcat<V>(sem: Sem<V>, st: State<V>, ts: seq<Token<V>>, us: seq<Token<V>>)
    ensures Run(sem, st, ts + us) == Run(sem, Run(sem, st, ts), us)
    decreases |ts|
  {
    if ts == [] {
      assert ts + us == us;
    } else if st.status == Done {
      assert (ts + us)[1..] == ts[1..] + us;
      RunConcat(sem, Push(sem, st, ts[0]), ts[1..], us);
    }
  }

  lemma RunOne<V>(sem: Sem<V>, st: State<V>, t: Token<V>)
    requires st.status == Done
    ensures Run(sem, st, [t]) == Push(sem, st, t)
  {
    assert [t][1..] == [];
  }

  // ----- from trees to values

  /** What a tree leaves on the stacks once its last token has been read: operators at the right
      edge are still waiting. */
  function Residue<V>(sem: Sem<V>, e: Expr<V>): (seq<V>, seq<Op>) {
    match e
    case Leaf(v) => ([v], [])
    case Paren(x) => ([Eval(sem, x)], [])
    case Unary(op, x) => ([Eval(sem, x)], [op])
    case Binary(op, l, r) => var (vs, os) := Residue(sem, r); ([Eval(sem, l)] + vs, [op] + os)
  }

  lemma {:induction false} ResidueEvaluates<V>(sem: Sem<V>, e: Expr<V>, below: seq<V>)
    requires WellFormed(e)
    ensures var (vs, os) := Residue(sem, e);
            AtLeast(os, Prec(e)) && EvalAll(sem, below + vs, os) == Some(below + [Eval(sem, e)])
  {
    match e
    case Leaf(_) =>
    case Paren(_) =>
    case Unary(op, x) =>
      assert (below + [Eval(sem, x)])[..|below|] == below;
    case Binary(op, l, r) =>
      var (vs, os) := Residue(sem, r);
      var a, b := Eval(sem, l), Eval(sem, r);
      ResidueEvaluates(sem, r, below + [a]);
      assert below + ([a] + vs) == below + [a] + vs;
      EvalAllConcat(sem, below + [a] + vs, [op], os);
      assert (below + [a] + [b])[..|below|] == below;
      AtLeastCons(op, os, Priority(op), Prec(r));
  }

  /** Reading a tree on top of operators that bind less tightly leaves its residue. */
  lemma {:induction false} ReadTree<V>(sem: Sem<V>, e: Expr<V>, vals: seq<V>, ops: seq<Op>)
    requires WellFormed(e) && (ops == [] || Priority(ops[|ops| - 1]) < Prec(e))
    ensures var (vs, os) := Residue(sem, e);
            Run(sem, State(vals, ops, false, Done), Yield(e)) == State(vals + vs, ops + os, true, Done)
    decreases e, 0
  {
    match e
    case Leaf(_) =>
    case Paren(x) => ReadParen(sem, x, vals, ops);
    case Unary(op, x) =>
      assert Push(sem, State(vals, ops, false, Done), Oper(op)) == State(vals, ops + [op], false, Done);
      assert Yield(e)[1..] == Yield(x);
      ReadTree(sem, x, vals, ops + [op]);
      assert ops + [op] + [] == ops + [op];
    case Binary(op, l, r) =>
      ReadTree(sem, l, vals, ops);
      ReadTree(sem, r, vals + [Eval(sem, l)], ops + [op]);
      ReadBinary(sem, op, l, r, vals, ops);
  }

  /** A binary expression, given its operands. */
  lemma ReadBinary<V>(sem: Sem<V>, op: Op, l: Expr<V>, r: Expr<V>, vals: seq<V>, ops: seq<Op>)
    requires WellFormed(l) && IsBinary(op) && Prec(l) >= Priority(op)
    requires ops == [] || Priority(ops[|ops| - 1]) < Priority(op)
    requires var (vs, os) := Residue(sem, l);
             Run(sem, State(vals, ops, false, Done), Yield(l)) == State(vals + vs, ops + os, true, Done)
    requires var (vs, os) := Residue(sem, r);
             var vals', ops' := vals + [Eval(sem, l)], ops + [op];
             Run(sem, State(vals', ops', false, Done), Yield(r)) == State(vals' + vs, ops' + os, true, Done)
    ensures var (vs, os) := Residue(sem, Binary(op, l, r));
            Run(sem, State(vals, ops, false, Done), Yield(Binary(op, l, r))) == State(vals + vs, ops + os, true, Done)
  {
    hide Push, Run, IsBinary, Priority;
    var st := State(vals, ops, false, Done);
    ReadOperator(sem, l, op, vals, ops);
    RunConcat(sem, st, Yield(l) + [Oper(op)], Yield(r));
    RunConcat(sem, st, Yield(l), [Oper(op)]);
    var (vs, os) := Residue(sem, r);
    assert vals + [Eval(sem, l)] + vs == vals + ([Eval(sem, l)] + vs);
    assert ops + [op] + os == ops + ([op] + os);
  }

  /** A binary operator closes off its left operand. */
  lemma ReadOperator<V>(sem: Sem<V>, l: Expr<V>, op: Op, vals: seq<V>, ops: seq<Op>)
    requires WellFormed(l) && IsBinary(op) && Prec(l) >= Priority(op)
    requires ops == [] || Priority(ops[|ops| - 1]) < Priority(op)
    ensures var (vs, os) := Residue(sem, l);
            Run(sem, State(vals + vs, ops + os, true, Done), [Oper(op)])
              == State(vals + [Eval(sem, l)], ops + [op], false, Done)
  {
    var (vs, os) := Residue(sem, l);
    var st := State(vals + vs, ops + os, true, Done);
    ResidueEvaluates(sem, l, vals);
    AtLeastWeaken(os, Priority(op), Prec(l));
    PopAll(sem, vals + vs, ops, os, Priority(op));
    RunOne(sem, st, Oper(op));
  }

  lemma {:induction false} ReadParen<V>(sem: Sem<V>, x: Expr<V>, vals: seq<V>, ops: seq<Op>)
    requires WellFormed(x)
    ensures Run(sem, State(vals, ops, false, Done), Yield(Paren(x))) == State(vals + [Eval(sem, x)], ops, true, Done)
    decreases x, 1
  {
    var st := State(vals, ops, false, Done);
    var open: seq<Token<V>>, closed: seq<Token<V>> := [Oper(OpenParen)], [Oper(ClosedParen)];
    var (vs, os) := Residue(sem, x);
    PrecPositive(x);
    ReadTree(sem, x, vals, ops + [OpenParen]);
    RunConcat(sem, st, open + Yield(x), closed);
    RunConcat(sem, st, open, Yield(x));
    RunOne(sem, st, Oper(OpenParen));
    ResidueEvaluates(sem, x, vals);
    var st' := State(vals + vs, ops + [OpenParen] + os, true, Done);
    RunOne(sem, st', Oper(ClosedParen));
    AtLeastWeaken(os, 1, Prec(x));
    CloseAll(sem, vals + vs, ops + [OpenParen], os);
    assert (ops + [OpenParen])[..|ops|] == ops;
  }

  lemma PrecPositive<V>(e: Expr<V>)
    requires WellFormed(e)
    ensures Prec(e) > 0
  {
  }

  /** Shunting-yard correctness: the tokens of every well-formed tree parse to the tree's value. */
  lemma ParseCorrect<V>(sem: Sem<V>, e: Expr<V>)
    requires WellFormed(e)
    ensures Parse(sem, Yield(e)) == Ok(Eval(sem, e))
  {
    var (vs, os) := Residue(sem, e);
    ReadTree(sem, e, [], []);
    ResidueEvaluates(sem, e, []);
    assert [] + vs == vs && [] + os == os;
    FlushAll(sem, vs, os);
  }

  // ----- from acceptance to trees

  /** A partly read expression: the operands read and the operators still waiting, in the order of
      the text. */
  datatype Spine<+V> =
    | Empty
    | Operand(below: Spine<V>, e: Expr<V>)
    | Operator(below: Spine<V>, op: Op)

  function TopPriority<V>(sp: Spine<V>): int {
    match sp
    case Empty => 0
    case Operand(b, _) => TopPriority(b)
    case Operator(_, op) => Priority(op)
  }

  /** Operands and operators alternate, and everything is bound as tightly as it must be. */
  predicate Proper<V>(sp: Spine<V>) {
    match sp
    case Empty => true
    case Operand(b, e) => !b.Operand? && Proper(b) && WellFormed(e)
    case Operator(b, op) =>
      && Proper(b) && op != ClosedParen
      && (op == OpenParen || TopPriority(b) < Priority(op))
      && if IsBinary(op) then b.Operand? && Prec(b.e) >= Priority(op) else !b.Operand?
  }

  /** The tokens read so far. */
  function Layout<V>(sp: Spine<V>): seq<Token<V>> {
    match sp
    case Empty => []
    case Operand(b, e) => Layout(b) + Yield(e)
    case Operator(b, op) => Layout(b) + [Oper(op)]
  }

  /** The two stacks. */
  function Values<V>(sem: Sem<V>, sp: Spine<V>): seq<V> {
    match sp
    case Empty => []
    case Operand(b, e) => Values(sem, b) + [Eval(sem, e)]
    case Operator(b, _) => Values(sem, b)
  }

  function Pending<V>(sp: Spine<V>): seq<Op> {
    match sp
    case Empty => []
    case Operand(b, _) => Pending(b)
    case Operator(b, op) => Pending(b) + [op]
  }

  /** An operand binds more tightly than the operator below it, which may thus take it. */
  predicate Takes<V>(sp: Spine<V>) {
    sp.Operand? && Proper(sp) && TopPriority(sp) < Prec(sp.e)
  }

  /** The operator below the operand on top has taken its operands. */
  function Join<V>(sp: Spine<V>): Spine<V>
    requires Takes(sp) && sp.below.Operator? && sp.below.op != OpenParen
  {
    var b := sp.below;
    assert Proper(b);
    if IsBinary(b.op) then Operand(b.below.below, Binary(b.op, b.below.e, sp.e))
    else Operand(b.below, Unary(b.op, sp.e))
  }

  /** Joining keeps the text and leaves an operand that the next operator below may take. */
  lemma JoinReadsTheSame<V>(sp: Spine<V>)
    requires Takes(sp) && sp.below.Operator? && sp.below.op != OpenParen
    ensures var sp' := Join(sp);
            Takes(sp') && Layout(sp') == Layout(sp) && Prec(sp'.e) == Priority(sp.below.op)
  {
    var b := sp.below;
    assert TopPriority(sp) == TopPriority(b) == Priority(b.op);
    assert WellFormed(sp.e) && Proper(b) && Proper(b.below);
    if IsBinary(b.op) {
      var low, l := b.below.below, b.below.e;
      assert Layout(low) + Yield(Binary(b.op, l, sp.e)) == Layout(low) + Yield(l) + [Oper(b.op)] + Yield(sp.e);
    } else {
      assert Layout(b.below) + Yield(Unary(b.op, sp.e)) == Layout(b.below) + [Oper(b.op)] + Yield(sp.e);
    }
  }

  /** Evaluating the top operator is joining its operands into a tree that reads the same. */
  lemma JoinTop<V>(sem: Sem<V>, sp: Spine<V>)
    requires Takes(sp) && sp.below.Operator? && sp.below.op != OpenParen
    ensures var sp', op := Join(sp), sp.below.op;
            && Takes(sp') && Layout(sp') == Layout(sp) && Prec(sp'.e) == Priority(op)
            && Pending(sp) == Pending(sp') + [op]
            && ApplyOp(sem, Values(sem, sp), op) == Some(Values(sem, sp'))
  {
    JoinReadsTheSame(sp);
    var b := sp.below;
    var v := Eval(sem, sp.e);
    assert Proper(b);
    assert Pending(sp) == Pending(b) == Pending(b.below) + [b.op];
    if IsBinary(b.op) {
      var low, l := b.below.below, b.below.e;
      assert Values(sem, sp) == Values(sem, low) + [Eval(sem, l)] + [v];
      assert Values(sem, sp)[..|Values(sem, low)|] == Values(sem, low);
      assert Pending(b.below) == Pending(low);
    } else {
      assert Values(sem, sp) == Values(sem, b.below) + [v];
      assert Values(sem, sp)[..|Values(sem, b.below)|] == Values(sem, b.below);
    }
  }

  /** With an operand on top, the pending operators end in the one below it. */
  lemma PendingTop<V>(sp: Spine<V>)
    requires sp.Operand? && Proper(sp)
    ensures var ops := Pending(sp);
            if sp.below.Empty? then ops == []
            else sp.below.Operator? && ops != [] && ops[|ops| - 1] == sp.below.op
                 && ops[..|ops| - 1] == Pending(sp.below.below)
  {
  }

  /** Popping for a binary operator of priority p: the operand on top ends up binding tightly enough
      to be its left operand. */
  lemma {:induction false} PopSpine<V>(sem: Sem<V>, sp: Spine<V>, p: int) returns (sp': Spine<V>)
    requires Takes(sp) && 0 < p <= Prec(sp.e)
    ensures PopWhile(sem, Values(sem, sp), Pending(sp), p) == State(Values(sem, sp'), Pending(sp'), false, Done)
    ensures Takes(sp') && TopPriority(sp') < p <= Prec(sp'.e) && Layout(sp') == Layout(sp)
    decreases |Pending(sp)|
  {
    sp' := sp;
    PendingTop(sp);
    if sp.below.Operator? && Priority(sp.below.op) >= p {
      JoinTop(sem, sp);
      assert (Pending(Join(sp)) + [sp.below.op])[..|Pending(Join(sp))|] == Pending(Join(sp));
      sp' := PopSpine(sem, Join(sp), p);
    }
  }

  /** Closing a parenthesis that has an open one yields one tree in parentheses. */
  lemma {:induction false} CloseSpine<V>(sem: Sem<V>, sp: Spine<V>) returns (sp': Spine<V>)
    requires Takes(sp) && CloseParen(sem, Values(sem, sp), Pending(sp)).status == Done
    ensures CloseParen(sem, Values(sem, sp), Pending(sp)) == State(Values(sem, sp'), Pending(sp'), true, Done)
    ensures Takes(sp') && sp'.e.Paren? && Layout(sp') == Layout(sp) + [Oper(ClosedParen)]
    decreases |Pending(sp)|
  {
    sp' := sp;
    PendingTop(sp);
    if sp.below.Operator? {
      if sp.below.op == OpenParen {
        var low := sp.below.below;
        assert Proper(sp.below) && Proper(low);
        sp' := Operand(low, Paren(sp.e));
        TopPriorityBound(low);
        assert Layout(low) + Yield(Paren(sp.e)) == Layout(low) + [Oper(OpenParen)] + Yield(sp.e) + [Oper(ClosedParen)];
      } else {
        JoinTop(sem, sp);
        assert (Pending(Join(sp)) + [sp.below.op])[..|Pending(Join(sp))|] == Pending(Join(sp));
        sp' := CloseSpine(sem, Join(sp));
      }
    }
  }

  lemma {:induction false} TopPriorityBound<V>(sp: Spine<V>)
    ensures TopPriority(sp) < 12
  {
    if sp.Operand? {
      TopPriorityBound(sp.below);
    }
  }

  /** Evaluating everything yields the one tree that was read. */
  lemma {:induction false} FlushSpine<V>(sem: Sem<V>, sp: Spine<V>) returns (e: Expr<V>)
    requires Takes(sp) && Flush(sem, Values(sem, sp), Pending(sp)).status == Done
    ensures WellFormed(e) && Yield(e) == Layout(sp)
    ensures Flush(sem, Values(sem, sp), Pending(sp)).vals == [Eval(sem, e)]
    decreases |Pending(sp)|
  {
    e := sp.e;
    PendingTop(sp);
    if sp.below.Operator? {
      if sp.below.op != OpenParen {
        JoinTop(sem, sp);
        assert (Pending(Join(sp)) + [sp.below.op])[..|Pending(Join(sp))|] == Pending(Join(sp));
        e := FlushSpine(sem, Join(sp));
      }
    }
  }

  // ----- token sequences as the lexer makes them

  /** Operands and operators stand where they are due. */
  ghost predicate Alternates<V>(ts: seq<Token<V>>, lastNumber: bool)
    decreases |ts|
  {
    ts == [] || (Due(ts[0], lastNumber) && Alternates(ts[1..], ts[0].Num? || ts[0].op == ClosedParen))
  }

  lemma {:induction false} LexAlternates(env: Env, s: string, i: nat, lastNumber: bool)
    requires Lex(env, s, i, lastNumber).Some?
    ensures Alternates(Lex(env, s, i, lastNumber).value, lastNumber)
    decreases |s| - i, !lastNumber
  {
    if At(s, i) == '\0' {
    } else if IsSpace(s[i]) {
      LexAlternates(env, s, i + 1, lastNumber);
    } else {
      var operand := if lastNumber then NotFound else Lexer.Operand(env, s, i);
      var operator := Lexer.Operator(s, i, !lastNumber);
      var ts := Lex(env, s, i, lastNumber).value;
      if operand.Found? {
        LexAlternates(env, s, operand.next, true);
        assert ts[1..] == Lex(env, s, operand.next, true).value;
      } else {
        LexAlternates(env, s, operator.next, operator.item == ClosedParen);
        assert ts[1..] == Lex(env, s, operator.next, operator.item == ClosedParen).value;
      }
    }
  }

  /** A unary operator is on top just after it has been read. */
  predicate UnaryOnTop<V>(sp: Spine<V>) {
    sp.Operator? && IsUnary(sp.op)
  }

  /** Between two tokens, an operand on top is a leaf or in parentheses. */
  predicate Between<V>(sp: Spine<V>) {
    Proper(sp) && (sp.Operand? ==> Prec(sp.e) == 12)
  }

  function Stacks<V>(sem: Sem<V>, sp: Spine<V>): State<V> {
    State(Values(sem, sp), Pending(sp), sp.Operand?, Done)
  }

  lemma {:induction false} PushToken<V>(sem: Sem<V>, sp: Spine<V>, t: Token<V>) returns (sp': Spine<V>)
    requires Between(sp) && Due(t, sp.Operand?) && !(UnaryOnTop(sp) && IsUnaryToken(t))
    requires Push(sem, Stacks(sem, sp), t).status == Done
    ensures Push(sem, Stacks(sem, sp), t) == Stacks(sem, sp')
    ensures Between(sp') && Layout(sp') == Layout(sp) + [t]
    ensures UnaryOnTop(sp') == IsUnaryToken(t) && sp'.Operand? == (t.Num? || t.op == ClosedParen)
  {
    hide CloseParen;
    TopPriorityBound(sp);
    match t
    case Num(v) => sp' := Operand(sp, Leaf(v));
    case Oper(op) =>
      if op == ClosedParen {
        sp' := CloseSpine(sem, sp);
      } else if IsBinary(op) {
        sp' := PopSpine(sem, sp, Priority(op));
        sp' := Operator(sp', op);
      } else {
        sp' := Operator(sp, op);
        PendingOperator(sp);
      }
  }

  lemma PendingOperator<V>(sp: Spine<V>)
    requires Proper(sp) && !sp.Operand?
    ensures Pending(sp) == [] || Priority(Pending(sp)[|Pending(sp)| - 1]) == TopPriority(sp)
    ensures !UnaryOnTop(sp) ==> TopPriority(sp) < 11
  {
  }

  lemma {:induction false} RunSpine<V>(sem: Sem<V>, sp: Spine<V>, ts: seq<Token<V>>) returns (sp': Spine<V>)
    requires Between(sp) && Alternates(ts, sp.Operand?) && NoAdjacentUnary(ts)
    requires UnaryOnTop(sp) && ts != [] ==> !IsUnaryToken(ts[0])
    requires Run(sem, Stacks(sem, sp), ts).status == Done
    ensures Run(sem, Stacks(sem, sp), ts) == Stacks(sem, sp')
    ensures Between(sp') && Layout(sp') == Layout(sp) + ts
    decreases |ts|
  {
    sp' := sp;
    if ts != [] {
      var sp1 := PushToken(sem, sp, ts[0]);
      NoAdjacentTail(ts);
      sp' := RunSpine(sem, sp1, ts[1..]);
      assert ts == [ts[0]] + ts[1..];
    }
  }

  lemma NoAdjacentTail<V>(ts: seq<Token<V>>)
    requires ts != [] && NoAdjacentUnary(ts)
    ensures NoAdjacentUnary(ts[1..])
    ensures |ts| > 1 && IsUnaryToken(ts[0]) ==> !IsUnaryToken(ts[1..][0])
  {
    forall k | 0 < k < |ts[1..]|
      ensures !(IsUnaryToken(ts[1..][k - 1]) && IsUnaryToken(ts[1..][k]))
    {
      assert ts[1..][k - 1] == ts[k] && ts[1..][k] == ts[k + 1];
    }
  }

  /** Whatever is accepted is the writing of a well-formed tree, and the value is the tree's. */
  lemma AcceptedHasTree<V>(sem: Sem<V>, ts: seq<Token<V>>) returns (e: Expr<V>)
    requires Alternates(ts, false) && NoAdjacentUnary(ts) && Parse(sem, ts).Ok?
    ensures WellFormed(e) && Yield(e) == ts && Parse(sem, ts) == Ok(Eval(sem, e))
  {
    var sp := RunSpine(sem, Empty, ts);
    var st := Stacks(sem, sp);
    SpineBalanced(sem, sp);
    FlushBalanced(sem, st.vals, st.ops, st.lastNumber);
    TopPriorityBound(sp);
    e := FlushSpine(sem, sp);
  }

  lemma {:induction false} SpineBalanced<V>(sem: Sem<V>, sp: Spine<V>)
    requires Proper(sp)
    ensures Balanced(Stacks(sem, sp))
  {
    match sp
    case Empty =>
    case Operand(b, _) => SpineBalanced(sem, b);
    case Operator(b, op) =>
      SpineBalanced(sem, b);
      BinariesSnoc(Pending(b), op);
  }

  /** Acceptance equals the grammar: without two unary operators in a row, a sequence of tokens
      parses to v exactly when it is the writing of a well-formed tree of value v. */
  lemma AcceptanceIsGrammar<V(!new)>(sem: Sem<V>, ts: seq<Token<V>>, v: V)
    requires Alternates(ts, false) && NoAdjacentUnary(ts)
    ensures Parse(sem, ts) == Ok(v) <==> exists e: Expr<V> :: WellFormed(e) && Yield(e) == ts && Eval(sem, e) == v
  {
    if Parse(sem, ts) == Ok(v) {
      var e := AcceptedHasTree(sem, ts);
    }
    forall e: Expr<V> | WellFormed(e) && Yield(e) == ts
      ensures Parse(sem, ts) == Ok(Eval(sem, e))
    {
      ParseCorrect(sem, e);
    }
  }

  /** The same for text, whatever the spacing and whatever the symbols stand for. */
  lemma ParseExpIsGrammar(env: Env, sem: Sem<int>, s: string, v: int)
    requires Lex(env, s, 0, false).Some? ==> NoAdjacentUnary(Lex(env, s, 0, false).value)
    ensures ParseExp(env, sem, s) == Ok(v) <==>
            exists e: Expr<int> :: WellFormed(e) && Lex(env, s, 0, false) == Some(Yield(e)) && Eval(sem, e) == v
  {
    ParseExpIsParse(env, sem, s);
    var ts := Lex(env, s, 0, false);
    if ts.Some? {
      LexAlternates(env, s, 0, false);
      AcceptanceIsGrammar(sem, ts.value, v);
    }
  }
}
