/**
 Two unary operators in a row.

 The evaluator applies the first of them to whatever operand was read last, which is an earlier one,
 if there is one at all. Ordinary grammar allows such expressions, so agreement with it stops exactly
 there. To see that it always does, expressions are evaluated to weights that tell in which order
 operands and unary operators have been put together.
 */
module AdjacentUnary {
  import opened Operators
  import opened Lexer
  import opened ShuntingYard
  import opened Grammar
  import opened ParserCorrectness

  /** How many operands, how many unary operators, and for all operands together how many unary
      operators stand ahead of them. */
  datatype Weight = Weight(operands: nat, unaries: nat, ahead: nat)

  const NOTHING := Weight(0, 0, 0)
  const OPERAND := Weight(1, 0, 0)
  const UNARY := Weight(0, 1, 0)

  function Then(a: Weight, b: Weight): Weight {
    Weight(a.operands + b.operands, a.unaries + b.unaries, a.ahead + b.ahead + Times(a.unaries, b.operands))
  }

  const WEIGHTS: Sem<Weight> := Sem((op, x) => Then(UNARY, x), (op, x, y) => Then(x, y))

  /** Multiplication, kept out of sight of the arithmetic solver. */
  function Times(m: nat, n: nat): nat {
    if m == 0 then 0 else n + Times(m - 1, n)
  }

  lemma {:induction false} TimesLaws(m: nat, n: nat, k: nat)
    ensures Times(m, 0) == 0
    ensures Times(m + n, k) == Times(m, k) + Times(n, k)
    ensures Times(m, n + k) == Times(m, n) + Times(m, k)
  {
    if m > 0 {
      TimesLaws(m - 1, n, k);
    }
  }

  lemma {:induction false} ThenAssociates(a: Weight, b: Weight, c: Weight)
    ensures Then(Then(a, b), c) == Then(a, Then(b, c))
  {
    TimesLaws(a.unaries, b.unaries, c.operands);
    TimesLaws(a.unaries, b.operands, c.operands);
  }

  lemma {:induction false} ThenNothing(a: Weight)
    ensures Then(NOTHING, a) == a == Then(a, NOTHING)
  {
    TimesLaws(a.unaries, 0, 0);
  }

  lemma ThenOperands(a: Weight, b: Weight)
    ensures Then(a, b).operands == a.operands + b.operands
  {
  }

  lemma {:induction false} ThenUnary(a: Weight)
    ensures Then(a, UNARY) == Weight(a.operands, a.unaries + 1, a.ahead)
    ensures Then(UNARY, a) == Weight(a.operands, a.unaries + 1, a.ahead + a.operands)
  {
    TimesLaws(a.unaries, 0, 0);
    assert Times(1, a.operands) == a.operands + Times(0, a.operands);
  }

  /** Expressions of ordinary grammar: a unary operator may stand in front of another one. */
  predicate Readable<V>(e: Expr<V>) {
    match e
    case Leaf(_) => true
    case Paren(x) => Readable(x)
    case Unary(op, x) => IsUnary(op) && Readable(x) && Prec(x) >= 11
    case Binary(op, l, r) =>
      IsBinary(op) && Readable(l) && Readable(r) && Prec(l) >= Priority(op) && Prec(r) > Priority(op)
  }

  /** The expression with operands that weigh one. */
  function Weigh<V>(e: Expr<V>): Expr<Weight> {
    match e
    case Leaf(_) => Leaf(OPERAND)
    case Paren(x) => Paren(Weigh(x))
    case Unary(op, x) => Unary(op, Weigh(x))
    case Binary(op, l, r) => Binary(op, Weigh(l), Weigh(r))
  }

  function TokenWeight(t: Token<Weight>): Weight {
    match t
    case Num(w) => w
    case Oper(op) => if IsUnary(op) then UNARY else NOTHING
  }

  function TokensWeight(ts: seq<Token<Weight>>): Weight {
    if ts == [] then NOTHING else Then(TokenWeight(ts[0]), TokensWeight(ts[1..]))
  }

  lemma {:induction false} TokensWeightConcat(ts: seq<Token<Weight>>, us: seq<Token<Weight>>)
    ensures TokensWeight(ts + us) == Then(TokensWeight(ts), TokensWeight(us))
  {
    hide Then;
    if ts == [] {
      assert ts + us == us;
      ThenNothing(TokensWeight(us));
    } else {
      assert (ts + us)[1..] == ts[1..] + us;
      TokensWeightConcat(ts[1..], us);
      ThenAssociates(TokenWeight(ts[0]), TokensWeight(ts[1..]), TokensWeight(us));
    }
  }

  lemma {:induction false} TokensWeightOne(t: Token<Weight>)
    ensures TokensWeight([t]) == TokenWeight(t)
  {
    ThenNothing(TokenWeight(t));
    assert [t][1..] == [];
  }

  /** Properly evaluated, an expression weighs what its tokens weigh in the order of the text. */
  lemma {:induction false} EvalIsTokensWeight(e: Expr<Weight>)
    requires Readable(e)
    ensures Eval(WEIGHTS, e) == TokensWeight(Yield(e))
  {
    hide Then, TokensWeight;
    match e
    case Leaf(w) => TokensWeightOne(Num(w));
    case Paren(x) =>
      EvalIsTokensWeight(x);
      ParenWeight(Yield(x));
    case Unary(op, x) =>
      EvalIsTokensWeight(x);
      AroundWeight(op, Yield(x));
    case Binary(op, l, r) =>
      EvalIsTokensWeight(l);
      EvalIsTokensWeight(r);
      AroundWeight(op, Yield(r));
      assert Yield(e) == Yield(l) + ([Oper(op)] + Yield(r));
      TokensWeightConcat(Yield(l), [Oper(op)] + Yield(r));
      ThenNothing(Eval(WEIGHTS, r));
  }

  lemma {:induction false} ParenWeight(ts: seq<Token<Weight>>)
    ensures TokensWeight([Oper(OpenParen)] + ts + [Oper(ClosedParen)]) == TokensWeight(ts)
  {
    hide Then;
    var open: seq<Token<Weight>>, closed: seq<Token<Weight>> := [Oper(OpenParen)], [Oper(ClosedParen)];
    AroundWeight(OpenParen, ts);
    TokensWeightConcat(open + ts, closed);
    TokensWeightOne(closed[0]);
    assert TokensWeight(closed) == NOTHING;
    ThenNothing(TokensWeight(ts));
  }

  lemma {:induction false} AroundWeight(op: Op, ts: seq<Token<Weight>>)
    ensures TokensWeight([Oper(op)] + ts) == Then(TokenWeight(Oper(op)), TokensWeight(ts))
  {
    hide Then;
    TokensWeightConcat([Oper(op)], ts);
    TokensWeightOne(Oper(op));
  }

  // ----- the stacks, weighed

  /** Operands and operators alternate; how tightly they bind does not matter here. */
  predicate Loose(sp: Spine<Weight>) {
    match sp
    case Empty => true
    case Operand(b, e) => !b.Operand? && Loose(b) && e.Leaf? && e.v.operands > 0
    case Operator(b, op) => Loose(b) && op != ClosedParen && (b.Operand? <==> IsBinary(op))
  }

  function SpineWeight(sp: Spine<Weight>): Weight
    requires Loose(sp)
  {
    match sp
    case Empty => NOTHING
    case Operand(b, e) => Then(SpineWeight(b), e.v)
    case Operator(b, op) => Then(SpineWeight(b), TokenWeight(Oper(op)))
  }

  /** As heavy in operands and unary operators, and no lighter, or truly heavier, in what is ahead. */
  predicate Heavier(a: Weight, b: Weight, strictly: bool) {
    a.operands == b.operands && a.unaries == b.unaries &&
    if strictly then a.ahead > b.ahead else a.ahead >= b.ahead
  }

  lemma {:induction false} HeavierThen(a: Weight, b: Weight, c: Weight, strictly: bool)
    requires Heavier(a, b, strictly)
    ensures Heavier(Then(a, c), Then(b, c), strictly)
  {
  }

  lemma HeavierNothing(w: Weight)
    ensures Heavier(w, Then(w, NOTHING), false)
  {
    ThenNothing(w);
  }

  /** The operator below the operand on top takes its operands. */
  lemma {:induction false} JoinWeighs(sp: Spine<Weight>) returns (sp': Spine<Weight>)
    requires Loose(sp) && sp.Operand? && sp.below.Operator? && sp.below.op != OpenParen
    ensures Loose(sp') && sp'.Operand? && SpineWeight(sp') == SpineWeight(sp)
    ensures Pending(sp) == Pending(sp') + [sp.below.op]
    ensures ApplyOp(WEIGHTS, Values(WEIGHTS, sp), sp.below.op) == Some(Values(WEIGHTS, sp'))
  {
    hide Then;
    var b, w := sp.below, sp.e.v;
    assert Loose(b) && Loose(b.below);
    assert Pending(sp) == Pending(b) == Pending(b.below) + [b.op];
    if IsBinary(b.op) {
      var low, l := b.below.below, b.below.e.v;
      sp' := Operand(low, Leaf(Then(l, w)));
      ThenOperands(l, w);
      assert SpineWeight(b) == Then(SpineWeight(b.below), NOTHING);
      ThenNothing(SpineWeight(b.below));
      ThenAssociates(SpineWeight(low), l, w);
      assert Values(WEIGHTS, sp) == Values(WEIGHTS, low) + [l] + [w];
      assert Values(WEIGHTS, sp)[..|Values(WEIGHTS, low)|] == Values(WEIGHTS, low);
      assert Pending(b.below) == Pending(low);
    } else {
      sp' := Operand(b.below, Leaf(Then(UNARY, w)));
      ThenOperands(UNARY, w);
      ThenAssociates(SpineWeight(b.below), UNARY, w);
      assert Values(WEIGHTS, sp) == Values(WEIGHTS, b.below) + [w];
      assert Values(WEIGHTS, sp)[..|Values(WEIGHTS, b.below)|] == Values(WEIGHTS, b.below);
    }
  }

  /** A unary operator evaluated too early goes to the last operand read, past which it moves. */
  lemma {:induction false} MisapplyWeighs(sp: Spine<Weight>, op: Op) returns (sp': Spine<Weight>)
    requires Loose(sp) && IsUnary(op) && Values(WEIGHTS, sp) != []
    ensures Loose(sp') && sp'.Operand? == sp.Operand? && Pending(sp') == Pending(sp)
    ensures Heavier(SpineWeight(sp'), Then(SpineWeight(sp), UNARY), true)
    ensures ApplyOp(WEIGHTS, Values(WEIGHTS, sp), op) == Some(Values(WEIGHTS, sp'))
  {
    match sp
    case Operand(b, e) =>
      var w := e.v;
      sp' := Operand(b, Leaf(Then(UNARY, w)));
      ThenUnary(w);
      ThenUnary(Then(SpineWeight(b), w));
      assert Values(WEIGHTS, sp)[..|Values(WEIGHTS, b)|] == Values(WEIGHTS, b);
    case Operator(b, o) =>
      var b' := MisapplyWeighs(b, op);
      sp' := Operator(b', o);
      var x, y := SpineWeight(b), TokenWeight(Oper(o));
      HeavierThen(SpineWeight(b'), Then(x, UNARY), y, true);
      ThenUnary(x);
      ThenUnary(Then(x, y));
      TimesLaws(x.unaries, 1, 0);
      TimesLaws(x.unaries + 1, 1, 0);
  }

  lemma {:induction false} PendingTopLoose(sp: Spine<Weight>)
    requires Loose(sp)
    ensures var b := if sp.Operand? then sp.below else sp;
            var ops := Pending(sp);
            if b.Empty? then ops == []
            else b.Operator? && ops != [] && ops[|ops| - 1] == b.op && ops[..|ops| - 1] == Pending(b.below)
  {
  }

  lemma {:induction false} DropTop(ops: seq<Op>, op: Op)
    ensures (ops + [op])[..|ops|] == ops
  {
  }

  lemma {:induction false} PopWeighs(sp: Spine<Weight>, p: int) returns (sp': Spine<Weight>)
    requires Loose(sp) && sp.Operand? && p > 0
    ensures PopWhile(WEIGHTS, Values(WEIGHTS, sp), Pending(sp), p)
         == State(Values(WEIGHTS, sp'), Pending(sp'), false, Done)
    ensures Loose(sp') && sp'.Operand? && SpineWeight(sp') == SpineWeight(sp)
    decreases |Pending(sp)|
  {
    hide Then;
    sp' := sp;
    PendingTopLoose(sp);
    if sp.below.Operator? && Priority(sp.below.op) >= p {
      var sp1 := JoinWeighs(sp);
      DropTop(Pending(sp1), sp.below.op);
      sp' := PopWeighs(sp1, p);
    }
  }

  lemma {:induction false} CloseWeighs(sp: Spine<Weight>) returns (sp': Spine<Weight>)
    requires Loose(sp) && sp.Operand?
    requires CloseParen(WEIGHTS, Values(WEIGHTS, sp), Pending(sp)).status == Done
    ensures CloseParen(WEIGHTS, Values(WEIGHTS, sp), Pending(sp))
         == State(Values(WEIGHTS, sp'), Pending(sp'), true, Done)
    ensures Loose(sp') && sp'.Operand? && SpineWeight(sp') == SpineWeight(sp)
    decreases |Pending(sp)|
  {
    hide Then;
    sp' := sp;
    PendingTopLoose(sp);
    if sp.below.Operator? {
      if sp.below.op == OpenParen {
        assert Loose(sp.below);
        sp' := Operand(sp.below.below, sp.e);
        ThenNothing(SpineWeight(sp.below.below));
      } else {
        var sp1 := JoinWeighs(sp);
        DropTop(Pending(sp1), sp.below.op);
        sp' := CloseWeighs(sp1);
      }
    }
  }

  lemma {:induction false} FlushWeighs(sp: Spine<Weight>)
    requires Loose(sp) && sp.Operand?
    requires Flush(WEIGHTS, Values(WEIGHTS, sp), Pending(sp)).status == Done
    ensures Flush(WEIGHTS, Values(WEIGHTS, sp), Pending(sp)).vals == [SpineWeight(sp)]
    decreases |Pending(sp)|
  {
    hide Then;
    PendingTopLoose(sp);
    if sp.below.Operator? {
      if sp.below.op != OpenParen {
        var sp1 := JoinWeighs(sp);
        DropTop(Pending(sp1), sp.below.op);
        FlushWeighs(sp1);
      }
    } else {
      ThenNothing(sp.e.v);
    }
  }

  /** A unary operator drives every unary operator on top of the stack to the wrong operand. */
  lemma {:induction false} PopUnaryWeighs(sp: Spine<Weight>) returns (sp': Spine<Weight>)
    requires Loose(sp) && !sp.Operand?
    requires PopWhile(WEIGHTS, Values(WEIGHTS, sp), Pending(sp), 11).status == Done
    ensures PopWhile(WEIGHTS, Values(WEIGHTS, sp), Pending(sp), 11)
         == State(Values(WEIGHTS, sp'), Pending(sp'), false, Done)
    ensures Loose(sp') && !sp'.Operand? && Heavier(SpineWeight(sp'), SpineWeight(sp), UnaryOnTop(sp))
    decreases |Pending(sp)|
  {
    sp' := sp;
    PendingTopLoose(sp);
    if UnaryOnTop(sp) {
      var sp1 := MisapplyWeighs(sp.below, sp.op);
      DropTop(Pending(sp1), sp.op);
      sp' := PopUnaryWeighs(sp1);
    }
  }

  lemma {:induction false} PushUnaryWeighs(sp: Spine<Weight>, op: Op) returns (sp': Spine<Weight>)
    requires Loose(sp) && IsUnary(op) && !sp.Operand?
    requires Push(WEIGHTS, Stacks(WEIGHTS, sp), Oper(op)).status == Done
    ensures Push(WEIGHTS, Stacks(WEIGHTS, sp), Oper(op)) == Stacks(WEIGHTS, sp')
    ensures Loose(sp') && UnaryOnTop(sp')
    ensures Heavier(SpineWeight(sp'), Then(SpineWeight(sp), UNARY), UnaryOnTop(sp))
  {
    hide Then;
    var st := Stacks(WEIGHTS, sp);
    assert Priority(op) == 11;
    assert Push(WEIGHTS, st, Oper(op)).status == PopWhile(WEIGHTS, st.vals, st.ops, 11).status;
    var low := PopUnaryWeighs(sp);
    sp' := Operator(low, op);
    assert Push(WEIGHTS, st, Oper(op)) == Stacks(WEIGHTS, sp');
    OperatorWeight(low, op);
    HeavierThen(SpineWeight(low), SpineWeight(sp), UNARY, UnaryOnTop(sp));
  }

  lemma {:induction false} OperatorWeight(sp: Spine<Weight>, op: Op)
    requires Loose(sp) && !sp.Operand? && IsUnary(op)
    ensures Loose(Operator(sp, op))
    ensures SpineWeight(Operator(sp, op)) == Then(SpineWeight(sp), UNARY)
  {
    hide Then;
  }

  lemma {:induction false} PushBinaryWeighs(sp: Spine<Weight>, op: Op) returns (sp': Spine<Weight>)
    requires Loose(sp) && IsBinary(op) && sp.Operand?
    ensures Push(WEIGHTS, Stacks(WEIGHTS, sp), Oper(op)) == Stacks(WEIGHTS, sp')
    ensures Loose(sp') && sp'.Operator? && sp'.op == op && SpineWeight(sp') == Then(SpineWeight(sp), NOTHING)
  {
    hide Then;
    var low := PopWeighs(sp, Priority(op));
    sp' := Operator(low, op);
  }

  lemma {:induction false} PushWeighs(sp: Spine<Weight>, t: Token<Weight>) returns (sp': Spine<Weight>)
    requires Loose(sp) && Due(t, sp.Operand?) && (t.Num? ==> t.v.operands > 0)
    requires Push(WEIGHTS, Stacks(WEIGHTS, sp), t).status == Done
    ensures Push(WEIGHTS, Stacks(WEIGHTS, sp), t) == Stacks(WEIGHTS, sp')
    ensures Loose(sp') && sp'.Operand? == (t.Num? || t.op == ClosedParen) && UnaryOnTop(sp') == IsUnaryToken(t)
    ensures Heavier(SpineWeight(sp'), Then(SpineWeight(sp), TokenWeight(t)), UnaryOnTop(sp) && IsUnaryToken(t))
  {
    if t.Num? {
      sp' := Operand(sp, Leaf(t.v));
    } else if t.op == ClosedParen {
      sp' := CloseWeighs(sp);
      ThenNothing(SpineWeight(sp));
    } else if t.op == OpenParen {
      sp' := Operator(sp, t.op);
    } else if IsBinary(t.op) {
      sp' := PushBinaryWeighs(sp, t.op);
    } else {
      sp' := PushUnaryWeighs(sp, t.op);
    }
  }

  /** Two unary operators in a row, the first of them perhaps on top of the stack already. */
  predicate Clash<V>(sp: Spine<V>, ts: seq<Token<V>>) {
    (UnaryOnTop(sp) && ts != [] && IsUnaryToken(ts[0])) || !NoAdjacentUnary(ts)
  }

  lemma {:induction false} ClashStep<V>(sp: Spine<V>, sp': Spine<V>, ts: seq<Token<V>>)
    requires ts != [] && UnaryOnTop(sp') == IsUnaryToken(ts[0])
    ensures Clash(sp, ts) ==> (UnaryOnTop(sp) && IsUnaryToken(ts[0])) || Clash(sp', ts[1..])
  {
    if !NoAdjacentUnary(ts) {
      var k :| 0 < k < |ts| && IsUnaryToken(ts[k - 1]) && IsUnaryToken(ts[k]);
      if k == 1 {
        assert ts[1..][0] == ts[1];
      } else {
        assert ts[1..][k - 2] == ts[k - 1] && ts[1..][k - 1] == ts[k];
      }
    }
  }

  predicate HasWeight(ts: seq<Token<Weight>>) {
    forall k :: 0 <= k < |ts| && ts[k].Num? ==> ts[k].v.operands > 0
  }

  lemma {:induction false} RunWeighs(sp: Spine<Weight>, ts: seq<Token<Weight>>) returns (sp': Spine<Weight>)
    requires Loose(sp) && Alternates(ts, sp.Operand?) && HasWeight(ts)
    requires Run(WEIGHTS, Stacks(WEIGHTS, sp), ts).status == Done
    ensures Run(WEIGHTS, Stacks(WEIGHTS, sp), ts) == Stacks(WEIGHTS, sp') && Loose(sp')
    ensures Heavier(SpineWeight(sp'), Then(SpineWeight(sp), TokensWeight(ts)), Clash(sp, ts))
    decreases |ts|
  {
    hide Then;
    sp' := sp;
    if ts == [] {
      RunNothingWeighs(sp);
    } else {
      RunDone(sp, ts);
      var sp1 := PushWeighs(sp, ts[0]);
      sp' := RunWeighs(sp1, ts[1..]);
      RunStepWeighs(sp, sp1, sp', ts);
    }
  }

  /** A run that goes well begins with a token that goes well. */
  lemma {:induction false} RunDone(sp: Spine<Weight>, ts: seq<Token<Weight>>)
    requires ts != [] && HasWeight(ts) && Run(WEIGHTS, Stacks(WEIGHTS, sp), ts).status == Done
    ensures var st := Push(WEIGHTS, Stacks(WEIGHTS, sp), ts[0]);
            st.status == Done && Run(WEIGHTS, Stacks(WEIGHTS, sp), ts) == Run(WEIGHTS, st, ts[1..])
    ensures HasWeight(ts[1..])
  {
  }

  lemma {:induction false} RunNothingWeighs(sp: Spine<Weight>)
    requires Loose(sp)
    ensures Heavier(SpineWeight(sp), Then(SpineWeight(sp), TokensWeight([])), Clash(sp, []))
  {
    assert !Clash(sp, []);
    HeavierNothing(SpineWeight(sp));
  }

  lemma {:induction false} RunStepWeighs(sp: Spine<Weight>, sp1: Spine<Weight>, sp': Spine<Weight>,
                                         ts: seq<Token<Weight>>)
    requires ts != [] && Loose(sp) && Loose(sp1) && Loose(sp')
    requires UnaryOnTop(sp1) == IsUnaryToken(ts[0])
    requires Heavier(SpineWeight(sp1), Then(SpineWeight(sp), TokenWeight(ts[0])), UnaryOnTop(sp) && IsUnaryToken(ts[0]))
    requires Heavier(SpineWeight(sp'), Then(SpineWeight(sp1), TokensWeight(ts[1..])), Clash(sp1, ts[1..]))
    ensures Heavier(SpineWeight(sp'), Then(SpineWeight(sp), TokensWeight(ts)), Clash(sp, ts))
  {
    hide Then;
    var a, t, rest := SpineWeight(sp), TokenWeight(ts[0]), TokensWeight(ts[1..]);
    ClashStep(sp, sp1, ts);
    HeavierThen(SpineWeight(sp1), Then(a, t), rest, UnaryOnTop(sp) && IsUnaryToken(ts[0]));
    ThenAssociates(a, t, rest);
  }

  lemma {:induction false} LooseBalanced(sp: Spine<Weight>)
    requires Loose(sp)
    ensures Balanced(Stacks(WEIGHTS, sp))
  {
    match sp
    case Empty =>
    case Operand(b, _) => LooseBalanced(b);
    case Operator(b, op) =>
      LooseBalanced(b);
      BinariesSnoc(Pending(b), op);
  }

  // ----- trees and their tokens

  lemma {:induction false} YieldAlternates<V>(e: Expr<V>, rest: seq<Token<V>>)
    requires Readable(e) && Alternates(rest, true)
    ensures Alternates(Yield(e) + rest, false)
  {
    match e
    case Leaf(v) => AlternatesCons(Num(v), rest, false);
    case Paren(x) =>
      AlternatesCons(Oper(ClosedParen), rest, true);
      YieldAlternates(x, [Oper(ClosedParen)] + rest);
      AlternatesCons(Oper(OpenParen), Yield(x) + ([Oper(ClosedParen)] + rest), false);
      Regroup([Oper(OpenParen)], Yield(x), [Oper(ClosedParen)], rest);
    case Unary(op, x) =>
      YieldAlternates(x, rest);
      AlternatesCons(Oper(op), Yield(x) + rest, false);
      assert Yield(e) + rest == [Oper(op)] + (Yield(x) + rest);
    case Binary(op, l, r) =>
      YieldAlternates(r, rest);
      AlternatesCons(Oper(op), Yield(r) + rest, true);
      YieldAlternates(l, [Oper(op)] + (Yield(r) + rest));
      Regroup(Yield(l), [Oper(op)], Yield(r), rest);
  }

  lemma Regroup<T>(a: seq<T>, b: seq<T>, c: seq<T>, d: seq<T>)
    ensures a + b + c + d == a + (b + (c + d))
  {
  }

  lemma {:induction false} AlternatesCons<V>(t: Token<V>, rest: seq<Token<V>>, lastNumber: bool)
    requires Due(t, lastNumber) && Alternates(rest, t.Num? || t.op == ClosedParen)
    ensures Alternates([t] + rest, lastNumber)
  {
    assert ([t] + rest)[1..] == rest;
  }

  lemma {:induction false} WeighReadable<V>(e: Expr<V>)
    requires Readable(e)
    ensures Readable(Weigh(e)) && Prec(Weigh(e)) == Prec(e)
    ensures |Yield(Weigh(e))| == |Yield(e)|
    ensures forall k :: 0 <= k < |Yield(e)| ==>
              && IsUnaryToken(Yield(Weigh(e))[k]) == IsUnaryToken(Yield(e)[k])
              && (Yield(Weigh(e))[k].Num? ==> Yield(Weigh(e))[k].v.operands > 0)
  {
    match e
    case Leaf(_) =>
    case Paren(x) => WeighReadable(x);
    case Unary(op, x) => WeighReadable(x);
    case Binary(op, l, r) =>
      WeighReadable(l);
      WeighReadable(r);
  }

  lemma {:induction false} NoAdjacentPart<V>(a: seq<Token<V>>, b: seq<Token<V>>, c: seq<Token<V>>)
    requires NoAdjacentUnary(a + b + c)
    ensures NoAdjacentUnary(b)
  {
    var ts := a + b + c;
    forall k | 0 < k < |b|
      ensures !(IsUnaryToken(b[k - 1]) && IsUnaryToken(b[k]))
    {
      assert b[k - 1] == ts[|a| + k - 1] && b[k] == ts[|a| + k];
    }
  }

  lemma {:induction false} TwoInARow<V>(a: Op, b: Op, rest: seq<Token<V>>)
    requires IsUnary(a) && IsUnary(b)
    ensures !NoAdjacentUnary([Oper(a)] + ([Oper(b)] + rest))
  {
    var ts := [Oper(a)] + ([Oper(b)] + rest);
    assert IsUnaryToken(ts[0]) && IsUnaryToken(ts[1]);
  }

  /** Ordinary expressions without two unary operators in a row are the well-formed ones. */
  lemma {:induction false} ReadableWithoutClash<V>(e: Expr<V>)
    requires Readable(e) && NoAdjacentUnary(Yield(e))
    ensures WellFormed(e)
  {
    match e
    case Leaf(_) =>
    case Paren(x) =>
      NoAdjacentPart([Oper(OpenParen)], Yield(x), [Oper(ClosedParen)]);
      ReadableWithoutClash(x);
    case Unary(op, x) =>
      assert Yield(e) == [Oper(op)] + Yield(x) + [];
      NoAdjacentPart([Oper(op)], Yield(x), []);
      ReadableWithoutClash(x);
      if x.Unary? {
        TwoInARow(op, x.op, Yield(x.e));
      }
    case Binary(op, l, r) =>
      assert Yield(e) == [] + Yield(l) + ([Oper(op)] + Yield(r));
      NoAdjacentPart([], Yield(l), [Oper(op)] + Yield(r));
      assert Yield(e) == (Yield(l) + [Oper(op)]) + Yield(r) + [];
      NoAdjacentPart(Yield(l) + [Oper(op)], Yield(r), []);
      ReadableWithoutClash(l);
      ReadableWithoutClash(r);
  }

  /** Exactly the expressions without two unary operators in a row are evaluated as they read: for
      those ParseCorrect gives the right value under any operator functions, and for all others the
      operator functions WEIGHTS show that the value is wrong or missing. */
  lemma {:induction false} RightExactlyWithoutClash<V>(e: Expr<V>)
    requires Readable(e)
    ensures Parse(WEIGHTS, Yield(Weigh(e))) == Ok(Eval(WEIGHTS, Weigh(e))) <==> NoAdjacentUnary(Yield(e))
    ensures NoAdjacentUnary(Yield(e)) <==> WellFormed(Weigh(e))
  {
    hide Then;
    var w := Weigh(e);
    var ts := Yield(w);
    WeighReadable(e);
    assert NoAdjacentUnary(ts) <==> NoAdjacentUnary(Yield(e));
    if NoAdjacentUnary(ts) {
      ReadableWithoutClash(w);
      ParseCorrect(WEIGHTS, w);
    } else if Parse(WEIGHTS, ts).Ok? {
      YieldAlternates(w, []);
      assert ts + [] == ts;
      var sp := RunWeighs(Empty, ts);
      var st := Stacks(WEIGHTS, sp);
      LooseBalanced(sp);
      FlushBalanced(WEIGHTS, st.vals, st.ops, st.lastNumber);
      FlushWeighs(sp);
      EvalIsTokensWeight(w);
      ThenNothing(TokensWeight(ts));
    }
    if WellFormed(w) {
      ParseCorrect(WEIGHTS, w);
    }
  }

  /** The smallest such expression that is accepted: in 1 + - - 2 the first minus goes to the 1. */
  lemma MinusMinus(sem: Sem<int>, a: int, b: int)
    ensures Parse(sem, [Num(a), Oper(Add), Oper(Negate), Oper(Negate), Num(b)])
         == Ok(sem.bin(Add, sem.un(Negate, a), sem.un(Negate, b)))
  {
    hide Run, CloseParen;
    var neg: Token<int> := Oper(Negate);
    var t1 := [neg] + [Num(b)];
    var t2 := [neg] + t1;
    var t3 := [Oper(Add)] + t2;
    var x, y := sem.un(Negate, a), sem.un(Negate, b);
    var s1, s2 := State([a], [], true, Done), State([a], [Add], false, Done);
    var s3, s4 := State([a], [Add, Negate], false, Done), State([x], [Add, Negate], false, Done);
    assert [Num(a), Oper(Add), neg, neg, Num(b)] == [Num(a)] + t3;
    RunFirst(sem, State([], [], false, Done), Num(a), t3);
    RunFirst(sem, s1, Oper(Add), t2);
    RunFirst(sem, s2, neg, t1);
    assert Run(sem, State([], [], false, Done), [Num(a)] + t3) == Run(sem, s3, t1) by {
      assert Push(sem, State([], [], false, Done), Num(a)) == s1 && Push(sem, s1, Oper(Add)) == s2;
      assert Push(sem, s2, neg) == s3;
    }
    assert Run(sem, s3, t1) == State([x, b], [Add, Negate], true, Done) by {
      RunFirst(sem, s3, neg, [Num(b)]);
      RunOne(sem, s4, Num(b));
      SecondMinus(sem, a);
    }
    LastMinus(sem, x, b);
  }

  lemma SecondMinus(sem: Sem<int>, a: int)
    ensures Push(sem, State([a], [Add, Negate], false, Done), Oper(Negate))
         == State([sem.un(Negate, a)], [Add, Negate], false, Done)
  {
    assert [Add, Negate][..1] == [Add];
    Apply1(sem, [], a, Negate);
    assert PopWhile(sem, [a], [Add, Negate], 11) == PopWhile(sem, [sem.un(Negate, a)], [Add], 11);
  }

  lemma LastMinus(sem: Sem<int>, x: int, b: int)
    ensures Flush(sem, [x, b], [Add, Negate]) == State([sem.bin(Add, x, sem.un(Negate, b))], [], false, Done)
  {
    assert [Add, Negate][..1] == [Add] && [Add][..0] == [];
    Apply1(sem, [x], b, Negate);
    Apply2(sem, [], x, sem.un(Negate, b), Add);
    assert Flush(sem, [x, b], [Add, Negate]) == Flush(sem, [x, sem.un(Negate, b)], [Add]);
  }

  lemma Apply1<V>(sem: Sem<V>, vals: seq<V>, x: V, op: Op)
    requires IsUnary(op)
    ensures ApplyOp(sem, vals + [x], op) == Some(vals + [sem.un(op, x)])
  {
    assert (vals + [x])[..|vals|] == vals;
  }

  lemma Apply2<V>(sem: Sem<V>, vals: seq<V>, x: V, y: V, op: Op)
    requires IsBinary(op)
    ensures ApplyOp(sem, vals + [x, y], op) == Some(vals + [sem.bin(op, x, y)])
  {
    assert (vals + [x, y])[..|vals|] == vals;
  }
}
