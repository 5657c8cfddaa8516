/**
 The two-stack evaluator of Toolchain/src/shuntingyard.c.

 The tops of the stacks are at the ends of the sequences. Values may be of any kind, since the
 algorithm only moves them about and applies the functions of the operator table.
 */
module ShuntingYard {
  import opened Operators
  import opened Lexer

  datatype Status =
    | Done
    | NoValues | MissingValue | TooManyPop | TooManyPopParen
    | MismatchedOpen | MismatchedClose | Unrecognized

  datatype State<+V> = State(vals: seq<V>, ops: seq<Op>, lastNumber: bool, status: Status)

  /** The outcome of a parse; status is never Done in an Error. */
  datatype Outcome<+V> = Ok(value: V) | Error(status: Status)

  const EMPTY: State<int> := State([], [], false, Done)

  /** evalOperator: fails on a parenthesis and when values are missing. */
  function ApplyOp<V>(sem: Sem<V>, vals: seq<V>, op: Op): Option<seq<V>> {
    var n := |vals|;
    if IsParen(op) || n < Args(op) then None
    else if Args(op) == 1 then Some(vals[..n - 1] + [sem.un(op, vals[n - 1])])
    else Some(vals[..n - 2] + [sem.bin(op, vals[n - 2], vals[n - 1])])
  }

  /** A closed parenthesis evaluates everything down to its open one. */
  function CloseParen<V>(sem: Sem<V>, vals: seq<V>, ops: seq<Op>): State<V>
    decreases |ops|
  {
    if ops == [] then State(vals, ops, true, MismatchedClose)
    else
      var n := |ops| - 1;
      if ops[n] == OpenParen then State(vals, ops[..n], true, Done)
      else
        var vals' := ApplyOp(sem, vals, ops[n]);
        if vals'.None? then State(vals, ops[..n], true, TooManyPopParen)
        else CloseParen(sem, vals'.value, ops[..n])
  }

  /** An operator of priority p evaluates everything that binds at least as tightly. */
  function PopWhile<V>(sem: Sem<V>, vals: seq<V>, ops: seq<Op>, p: int): State<V>
    decreases |ops|
  {
    if ops == [] then State(vals, ops, false, Done)
    else
      var n := |ops| - 1;
      if Priority(ops[n]) < p then State(vals, ops, false, Done)
      else
        var vals' := ApplyOp(sem, vals, ops[n]);
        if vals'.None? then State(vals, ops[..n], false, TooManyPop)
        else PopWhile(sem, vals'.value, ops[..n], p)
  }

  /** One token. */
  function Push<V>(sem: Sem<V>, st: State<V>, t: Token<V>): State<V> {
    match t
    case Num(v) => State(st.vals + [v], st.ops, true, Done)
    case Oper(op) =>
      if op == OpenParen then State(st.vals, st.ops + [op], false, Done)
      else if op == ClosedParen then CloseParen(sem, st.vals, st.ops)
      else
        var st' := PopWhile(sem, st.vals, st.ops, Priority(op));
        st'.(ops := st'.ops + [op])
  }

  function Run<V>(sem: Sem<V>, st: State<V>, ts: seq<Token<V>>): State<V>
    decreases |ts|
  {
    if ts == [] || st.status != Done then st else Run(sem, Push(sem, st, ts[0]), ts[1..])
  }

  lemma RunFirst<V>(sem: Sem<V>, st: State<V>, t: Token<V>, rest: seq<Token<V>>)
    requires st.status == Done
    ensures Run(sem, st, [t] + rest) == Run(sem, Push(sem, st, t), rest)
  {
    assert ([t] + rest)[1..] == rest;
  }

  /** At the end of the input everything left is evaluated. */
  function Flush<V>(sem: Sem<V>, vals: seq<V>, ops: seq<Op>): State<V>
    decreases |ops|
  {
    if ops == [] then State(vals, ops, false, Done)
    else
      var n := |ops| - 1;
      var vals' := ApplyOp(sem, vals, ops[n]);
      if vals'.None? then State(vals, ops[..n], false, MissingValue)
      else Flush(sem, vals'.value, ops[..n])
  }

  function Finish<V>(sem: Sem<V>, st: State<V>): Outcome<V> {
    if st.status != Done then Error(st.status)
    else
      var st' := Flush(sem, st.vals, st.ops);
      if st'.status != Done then Error(st'.status)
      else if |st'.vals| == 1 then Ok(st'.vals[0])
      else if |st'.vals| == 0 then Error(NoValues)
      else Error(MismatchedOpen)
  }

  /** The parse of a token sequence. */
  function Parse<V>(sem: Sem<V>, ts: seq<Token<V>>): Outcome<V> {
    Finish(sem, Run(sem, State([], [], false, Done), ts))
  }

  // ----- straight from the text

  /** The main loop of parseExp, which finds and pushes one token after the other. */
  function Exec(env: Env, sem: Sem<int>, s: string, i: nat, st: State<int>): State<int>
    decreases |s| - i, !st.lastNumber
  {
    if At(s, i) == '\0' || st.status != Done then st
    else if IsSpace(s[i]) then Exec(env, sem, s, i + 1, st)
    else
      var operand := if st.lastNumber then NotFound else Operand(env, s, i);
      if operand.Found? then Exec(env, sem, s, operand.next, Push(sem, st, Num(operand.item)))
      else
        var operator := Operator(s, i, !st.lastNumber);
        if operator.NotFound? then st.(status := Unrecognized)
        else Exec(env, sem, s, operator.next, Push(sem, st, Oper(operator.item)))
  }

  function ParseExp(env: Env, sem: Sem<int>, s: string): Outcome<int> {
    Finish(sem, Exec(env, sem, s, 0, EMPTY))
  }

  /** Which of operand and operator is due is settled by the token alone. */
  lemma {:induction false} ModeAfterClose<V>(sem: Sem<V>, vals: seq<V>, ops: seq<Op>)
    ensures CloseParen(sem, vals, ops).lastNumber
    decreases |ops|
  {
    if ops != [] && ops[|ops| - 1] != OpenParen {
      var vals' := ApplyOp(sem, vals, ops[|ops| - 1]);
      if vals'.Some? {
        ModeAfterClose(sem, vals'.value, ops[..|ops| - 1]);
      }
    }
  }

  lemma {:induction false} ModeAfterPop<V>(sem: Sem<V>, vals: seq<V>, ops: seq<Op>, p: int)
    ensures !PopWhile(sem, vals, ops, p).lastNumber
    decreases |ops|
  {
    if ops != [] && Priority(ops[|ops| - 1]) >= p {
      var vals' := ApplyOp(sem, vals, ops[|ops| - 1]);
      if vals'.Some? {
        ModeAfterPop(sem, vals'.value, ops[..|ops| - 1], p);
      }
    }
  }

  lemma ModeAfter<V>(sem: Sem<V>, st: State<V>, t: Token<V>)
    ensures Push(sem, st, t).lastNumber == (t.Num? || t.op == ClosedParen)
  {
    ModeAfterClose(sem, st.vals, st.ops);
    if t.Oper? {
      ModeAfterPop(sem, st.vals, st.ops, Priority(t.op));
    }
  }

  /** Reading and evaluating in one pass is the same as reading first: text that lexes is evaluated
      token by token, and other text is never accepted. */
  lemma {:induction false} ExecIsRun(env: Env, sem: Sem<int>, s: string, i: nat, st: State<int>)
    requires st.status == Done
    ensures var ts := Lex(env, s, i, st.lastNumber);
            if ts.Some? then Exec(env, sem, s, i, st) == Run(sem, st, ts.value)
            else Exec(env, sem, s, i, st).status != Done
    decreases |s| - i, !st.lastNumber, 0
  {
    if At(s, i) == '\0' {
    } else if IsSpace(s[i]) {
      ExecIsRun(env, sem, s, i + 1, st);
    } else {
      var operand := if st.lastNumber then NotFound else Operand(env, s, i);
      if operand.Found? {
        ExecAfter(env, sem, s, operand.next, st, Num(operand.item));
      } else {
        var operator := Operator(s, i, !st.lastNumber);
        if operator.Found? {
          ExecAfter(env, sem, s, operator.next, st, Oper(operator.item));
        }
      }
    }
  }

  lemma ExecAfter(env: Env, sem: Sem<int>, s: string, next: nat, st: State<int>, t: Token<int>)
    requires st.status == Done && (t.Num? ==> !st.lastNumber)
    ensures var st' := Push(sem, st, t);
            var ts := Lex(env, s, next, t.Num? || t.op == ClosedParen);
            if ts.Some? then Exec(env, sem, s, next, st') == Run(sem, st, [t] + ts.value)
            else Exec(env, sem, s, next, st').status != Done
    decreases |s| - next, t.Oper? && t.op != ClosedParen, 1
  {
    var st' := Push(sem, st, t);
    ModeAfter(sem, st, t);
    var ts := Lex(env, s, next, st'.lastNumber);
    if ts.Some? {
      assert ([t] + ts.value)[1..] == ts.value;
    }
    if st'.status == Done {
      ExecIsRun(env, sem, s, next, st');
    }
  }

  /** Accepted text is text that lexes to accepted tokens, with the same value. */
  lemma ParseExpIsParse(env: Env, sem: Sem<int>, s: string)
    ensures var ts := Lex(env, s, 0, false);
            if ts.Some? then ParseExp(env, sem, s) == Parse(sem, ts.value)
            else ParseExp(env, sem, s).Error?
  {
    ExecIsRun(env, sem, s, 0, EMPTY);
  }

  /** Symbol-table monotonicity for values: once an expression parses, later definitions of new
      names leave its value alone. */
  lemma ParseExpMonotone(env: Env, env': Env, sem: Sem<int>, s: string)
    requires Extends(env.symbols, env'.symbols) && env.scan == env'.scan
    requires ParseExp(env, sem, s).Ok?
    ensures ParseExp(env', sem, s) == ParseExp(env, sem, s)
  {
    ParseExpIsParse(env, sem, s);
    ParseExpIsParse(env', sem, s);
    LexMonotone(env, env', s, 0, false);
  }

  // ----- the two-stack invariant

  function Binaries(ops: seq<Op>): nat {
    if ops == [] then 0 else Binaries(ops[..|ops| - 1]) + (if IsBinary(ops[|ops| - 1]) then 1 else 0)
  }

  /** While nothing has gone wrong there is one value for each pending binary operator, and one more
      just after an operand. */
  ghost predicate Balanced<V>(st: State<V>) {
    && |st.vals| == Binaries(st.ops) + (if st.lastNumber then 1 else 0)
    && forall k :: 0 <= k < |st.ops| ==> st.ops[k] != ClosedParen
  }

  /** A token where its kind is due. */
  predicate Due<V>(t: Token<V>, lastNumber: bool) {
    if t.Num? then !lastNumber else (Args(t.op) == 1) == !lastNumber
  }

  lemma BinariesSnoc(ops: seq<Op>, op: Op)
    ensures Binaries(ops + [op]) == Binaries(ops) + (if IsBinary(op) then 1 else 0)
  {
    assert (ops + [op])[..|ops|] == ops;
  }

  /** With an operand on top, no evaluation runs out of values. */
  lemma {:induction false} CloseParenBalanced<V>(sem: Sem<V>, vals: seq<V>, ops: seq<Op>)
    requires Balanced(State(vals, ops, true, Done))
    ensures var st := CloseParen(sem, vals, ops);
            if OpenParen in ops then st.status == Done && Balanced(st) else st.status == MismatchedClose
    decreases |ops|
  {
    if ops != [] && ops[|ops| - 1] != OpenParen {
      var n := |ops| - 1;
      assert ops == ops[..n] + [ops[n]];
      CloseParenBalanced(sem, ApplyOp(sem, vals, ops[n]).value, ops[..n]);
    }
  }

  lemma {:induction false} PopBinaryBalanced<V>(sem: Sem<V>, vals: seq<V>, ops: seq<Op>, p: int)
    requires Balanced(State(vals, ops, true, Done)) && p > 0
    ensures var st := PopWhile(sem, vals, ops, p);
            st.status == Done && Balanced(st.(lastNumber := true))
    decreases |ops|
  {
    if ops != [] && Priority(ops[|ops| - 1]) >= p {
      var n := |ops| - 1;
      PopBinaryBalanced(sem, ApplyOp(sem, vals, ops[n]).value, ops[..n], p);
    }
  }

  /** A unary operator evaluates earlier unary ones at once, and goes wrong exactly if there is one
      and no value for it. */
  lemma {:induction false} PopUnaryBalanced<V>(sem: Sem<V>, vals: seq<V>, ops: seq<Op>)
    requires Balanced(State(vals, ops, false, Done))
    ensures var st := PopWhile(sem, vals, ops, 11);
            if vals == [] && ops != [] && IsUnary(ops[|ops| - 1]) then st.status == TooManyPop
            else st.status == Done && Balanced(st)
    decreases |ops|
  {
    if ops != [] && Priority(ops[|ops| - 1]) >= 11 && vals != [] {
      var n := |ops| - 1;
      PopUnaryBalanced(sem, ApplyOp(sem, vals, ops[n]).value, ops[..n]);
    }
  }

  /** Every token keeps the invariant or ends the run in one of three ways. */
  lemma PushBalanced<V>(sem: Sem<V>, st: State<V>, t: Token<V>)
    requires Balanced(st) && st.status == Done && Due(t, st.lastNumber)
    ensures var st' := Push(sem, st, t);
            if st'.status == Done then Balanced(st') else st'.status in {MismatchedClose, TooManyPop}
  {
    hide Binaries, PopWhile, CloseParen;
    if t.Oper? {
      if t.op == ClosedParen {
        CloseParenBalanced(sem, st.vals, st.ops);
      } else if t.op == OpenParen {
        BinariesSnoc(st.ops, t.op);
      } else {
        var st' := PopWhile(sem, st.vals, st.ops, Priority(t.op));
        ModeAfterPop(sem, st.vals, st.ops, Priority(t.op));
        if st.lastNumber {
          PopBinaryBalanced(sem, st.vals, st.ops, Priority(t.op));
        } else {
          PopUnaryBalanced(sem, st.vals, st.ops);
        }
        BinariesSnoc(st'.ops, t.op);
      }
    }
  }

  /** The same at every moment of every run over text. */
  lemma {:induction false} ExecBalanced(env: Env, sem: Sem<int>, s: string, i: nat, st: State<int>)
    requires Balanced(st) && st.status == Done
    ensures var st' := Exec(env, sem, s, i, st);
            if st'.status == Done then Balanced(st')
            else st'.status in {MismatchedClose, TooManyPop, Unrecognized}
    decreases |s| - i, !st.lastNumber
  {
    if At(s, i) == '\0' {
    } else if IsSpace(s[i]) {
      ExecBalanced(env, sem, s, i + 1, st);
    } else {
      var operand := if st.lastNumber then NotFound else Operand(env, s, i);
      var operator := Operator(s, i, !st.lastNumber);
      if operand.Found? || operator.Found? {
        var t := if operand.Found? then Num(operand.item) else Oper(operator.item);
        var st' := Push(sem, st, t);
        PushBalanced(sem, st, t);
        ModeAfter(sem, st, t);
        if st'.status == Done {
          ExecBalanced(env, sem, s, if operand.Found? then operand.next else operator.next, st');
        }
      }
    }
  }

  /** At the end of the input, evaluation leaves at most one value. */
  lemma {:induction false} FlushBalanced<V>(sem: Sem<V>, vals: seq<V>, ops: seq<Op>, lastNumber: bool)
    requires Balanced(State(vals, ops, lastNumber, Done))
    ensures var st := Flush(sem, vals, ops);
            st.status == MissingValue || (st.status == Done && st.ops == [] && |st.vals| == if lastNumber then 1 else 0)
    decreases |ops|
  {
    if ops != [] {
      var n := |ops| - 1;
      var vals' := ApplyOp(sem, vals, ops[n]);
      if vals'.Some? {
        FlushBalanced(sem, vals'.value, ops[..n], lastNumber);
      }
    }
  }
}
