/**
 Which status the evaluator returns, for every sequence of tokens: it can be read off the tokens without
 evaluating anything.
 */
module Statuses {
  import opened Operators
  import opened Lexer
  import opened ShuntingYard
  import opened ParserCorrectness

  // ----- reading the status off the tokens

  /** In front of the first operand, a unary operator directly behind another one. */
  predicate Stutters<V>(ts: seq<Token<V>>, afterUnary: bool)
    decreases |ts|
  {
    ts != [] && ts[0].Oper? && Args(ts[0].op) == 1 &&
    ((IsUnary(ts[0].op) && afterUnary) || Stutters(ts[1..], IsUnary(ts[0].op)))
  }

  /** Some closed parenthesis has no open one, when depth of them are open at the start. */
  predicate Overclosed<V>(ts: seq<Token<V>>, depth: nat)
    decreases |ts|
  {
    ts != [] &&
    if ts[0] == Oper(ClosedParen) then depth == 0 || Overclosed(ts[1..], depth - 1)
    else Overclosed(ts[1..], if ts[0] == Oper(OpenParen) then depth + 1 else depth)
  }

  /** How many parentheses are open at the end, when depth of them are at the start. */
  function Depth<V>(ts: seq<Token<V>>, depth: nat): nat
    decreases |ts|
  {
    if ts == [] then depth
    else if ts[0] == Oper(OpenParen) then Depth(ts[1..], depth + 1)
    else if ts[0] == Oper(ClosedParen) && depth > 0 then Depth(ts[1..], depth - 1)
    else Depth(ts[1..], depth)
  }

  /** An operand ends here. */
  predicate EndsOperand<V>(ts: seq<Token<V>>, lastNumber: bool) {
    if ts == [] then lastNumber else ts[|ts| - 1].Num? || ts[|ts| - 1].op == ClosedParen
  }

  function Verdict<V>(ts: seq<Token<V>>): Status {
    if Stutters(ts, false) then TooManyPop
    else if Overclosed(ts, 0) then MismatchedClose
    else if ts == [] then NoValues
    else if Depth(ts, 0) > 0 || !EndsOperand(ts, false) then MissingValue
    else Done
  }

  // ----- what the stacks have to do with it

  function Opens(ops: seq<Op>): nat {
    if ops == [] then 0 else Opens(ops[..|ops| - 1]) + (if ops[|ops| - 1] == OpenParen then 1 else 0)
  }

  lemma OpensSnoc(ops: seq<Op>, op: Op)
    ensures Opens(ops + [op]) == Opens(ops) + (if op == OpenParen then 1 else 0)
  {
    assert (ops + [op])[..|ops|] == ops;
  }

  lemma {:induction false} OpensIn(ops: seq<Op>)
    ensures Opens(ops) > 0 <==> OpenParen in ops
  {
    if ops != [] {
      var n := |ops| - 1;
      assert ops == ops[..n] + [ops[n]];
      OpensIn(ops[..n]);
    }
  }

  predicate UnaryLast(ops: seq<Op>) {
    ops != [] && IsUnary(ops[|ops| - 1])
  }

  lemma {:induction false} CloseOpens<V>(sem: Sem<V>, vals: seq<V>, ops: seq<Op>)
    requires Balanced(State(vals, ops, true, Done)) && Opens(ops) > 0
    ensures var st := CloseParen(sem, vals, ops); Opens(st.ops) == Opens(ops) - 1 && st.vals != []
    decreases |ops|
  {
    var n := |ops| - 1;
    if ops[n] != OpenParen {
      CloseOpens(sem, ApplyOp(sem, vals, ops[n]).value, ops[..n]);
    }
  }

  lemma {:induction false} PopOpens<V>(sem: Sem<V>, vals: seq<V>, ops: seq<Op>, p: int)
    requires p > 0
    ensures var st := PopWhile(sem, vals, ops, p);
            st.status == Done ==> Opens(st.ops) == Opens(ops) && (st.vals == [] <==> vals == [])
    decreases |ops|
  {
    if ops != [] && Priority(ops[|ops| - 1]) >= p {
      var n := |ops| - 1;
      var vals' := ApplyOp(sem, vals, ops[n]);
      if vals'.Some? {
        PopOpens(sem, vals'.value, ops[..n], p);
      }
    }
  }

  /** What is known of the stacks between two tokens. */
  ghost predicate Standing<V>(st: State<V>, depth: nat) {
    && st.status == Done && Balanced(st) && Opens(st.ops) == depth
    && (st.vals == [] ==> !st.lastNumber)
  }

  /** One token, with its status and the number of open parentheses. */
  lemma PushStands<V>(sem: Sem<V>, st: State<V>, t: Token<V>, depth: nat)
    requires Standing(st, depth) && Due(t, st.lastNumber)
    ensures var st' := Push(sem, st, t);
            if t.Oper? && IsUnary(t.op) && st.vals == [] && UnaryLast(st.ops) then st'.status == TooManyPop
            else if t == Oper(ClosedParen) && depth == 0 then st'.status == MismatchedClose
            else
              && Standing(st', Depth([t], depth)) && st'.lastNumber == (t.Num? || t.op == ClosedParen)
              && (st'.vals == [] <==> st.vals == [] && !t.Num?)
              && (t.Oper? && t.op != ClosedParen ==> st'.ops != [] && st'.ops[|st'.ops| - 1] == t.op)
  {
    hide CloseParen, PopWhile, Binaries, Opens;
    PushBalanced(sem, st, t);
    ModeAfter(sem, st, t);
    if t.Oper? {
      if t.op == ClosedParen {
        CloseParenBalanced(sem, st.vals, st.ops);
        OpensIn(st.ops);
        if depth > 0 {
          CloseOpens(sem, st.vals, st.ops);
        }
      } else if t.op == OpenParen {
        OpensSnoc(st.ops, t.op);
      } else {
        var p := Priority(t.op);
        var st' := PopWhile(sem, st.vals, st.ops, p);
        PopOpens(sem, st.vals, st.ops, p);
        OpensSnoc(st'.ops, t.op);
        if st.lastNumber {
          PopBinaryBalanced(sem, st.vals, st.ops, p);
        } else {
          PopUnaryBalanced(sem, st.vals, st.ops);
        }
      }
    }
  }

  lemma {:induction false} FlushStatus<V>(sem: Sem<V>, vals: seq<V>, ops: seq<Op>, lastNumber: bool)
    requires Balanced(State(vals, ops, lastNumber, Done))
    ensures Flush(sem, vals, ops).status == Done <==> Opens(ops) == 0 && (lastNumber || ops == [])
    decreases |ops|
  {
    if ops != [] {
      var n := |ops| - 1;
      assert ops == ops[..n] + [ops[n]];
      var vals' := ApplyOp(sem, vals, ops[n]);
      if vals'.Some? {
        FlushStatus(sem, vals'.value, ops[..n], lastNumber);
      }
    }
  }

  // ----- whole sequences

  lemma {:induction false} RunVerdict<V>(sem: Sem<V>, st: State<V>, ts: seq<Token<V>>, depth: nat)
    requires Standing(st, depth) && Alternates(ts, st.lastNumber)
    ensures var st' := Run(sem, st, ts);
            if st.vals == [] && Stutters(ts, UnaryLast(st.ops)) then st'.status == TooManyPop
            else if Overclosed(ts, depth) then st'.status == MismatchedClose
            else
              && Standing(st', Depth(ts, depth)) && st'.lastNumber == EndsOperand(ts, st.lastNumber)
              && (ts != [] && !st'.lastNumber ==> st'.ops != [])
    decreases |ts|
  {
    hide Push, Balanced, Opens;
    if ts != [] {
      var t, rest := ts[0], ts[1..];
      var st1 := Push(sem, st, t);
      PushStands(sem, st, t, depth);
      assert [t][1..] == [];
      if st1.status == Done {
        RunVerdict(sem, st1, rest, Depth([t], depth));
        if rest != [] {
          assert ts[|ts| - 1] == rest[|rest| - 1];
        }
      }
    }
  }

  /** The status of every sequence of tokens, exactly: TOO_MANY_POP if and only if two unary operators
      meet in front of the first operand, otherwise MISMATCHED_CLOSE if and only if a closed parenthesis
      has no open one, otherwise NO_VALUES if and only if there are no tokens, otherwise MISSING_VALUE if
      and only if a parenthesis is left open or the end is not the end of an operand, otherwise DONE. */
  lemma StatusIsVerdict<V>(sem: Sem<V>, ts: seq<Token<V>>)
    requires Alternates(ts, false)
    ensures var r := Parse(sem, ts);
            if Verdict(ts) == Done then r.Ok? else r == Error(Verdict(ts))
  {
    hide Run, Flush;
    var st0: State<V> := State([], [], false, Done);
    var st := Run(sem, st0, ts);
    RunVerdict(sem, st0, ts, 0);
    if st.status == Done {
      FlushStatus(sem, st.vals, st.ops, st.lastNumber);
      FlushBalanced(sem, st.vals, st.ops, st.lastNumber);
      NothingRun(sem);
    }
  }

  lemma NothingRun<V>(sem: Sem<V>)
    ensures Run(sem, State([], [], false, Done), []) == State([], [], false, Done)
    ensures Flush(sem, [], []) == State([], [], false, Done)
  {
  }

  // ----- text

  /** The tokens up to the end of the text, or up to where neither space nor an admissible token stands. */
  function Front(env: Env, s: string, i: nat, lastNumber: bool): seq<Token<int>>
    decreases |s| - i, !lastNumber
  {
    if At(s, i) == '\0' then []
    else if IsSpace(s[i]) then Front(env, s, i + 1, lastNumber)
    else
      var operand := if lastNumber then NotFound else Lexer.Operand(env, s, i);
      if operand.Found? then [Num(operand.item)] + Front(env, s, operand.next, true)
      else
        var operator := Lexer.Operator(s, i, !lastNumber);
        if operator.NotFound? then []
        else [Oper(operator.item)] + Front(env, s, operator.next, operator.item == ClosedParen)
  }

  lemma {:induction false} FrontAlternates(env: Env, s: string, i: nat, lastNumber: bool)
    ensures Alternates(Front(env, s, i, lastNumber), lastNumber)
    ensures Lex(env, s, i, lastNumber).Some? ==> Lex(env, s, i, lastNumber).value == Front(env, s, i, lastNumber)
    decreases |s| - i, !lastNumber
  {
    hide Lexer.Operand, OperatorFrom;
    if At(s, i) != '\0' {
      if IsSpace(s[i]) {
        FrontAlternates(env, s, i + 1, lastNumber);
      } else {
        var operand := if lastNumber then NotFound else Lexer.Operand(env, s, i);
        var operator := Lexer.Operator(s, i, !lastNumber);
        if operand.Found? {
          FrontAlternates(env, s, operand.next, true);
          assert Front(env, s, i, lastNumber)[1..] == Front(env, s, operand.next, true);
        } else if operator.Found? {
          var next := operator.item == ClosedParen;
          FrontAlternates(env, s, operator.next, next);
          assert Front(env, s, i, lastNumber)[1..] == Front(env, s, operator.next, next);
        }
      }
    }
  }

  /** The evaluator evaluates those tokens; where they break off the text is not recognised. */
  lemma {:induction false} ExecIsFront(env: Env, sem: Sem<int>, s: string, i: nat, st: State<int>)
    requires st.status == Done
    ensures var end := Run(sem, st, Front(env, s, i, st.lastNumber));
            Exec(env, sem, s, i, st)
            == if end.status == Done && Lex(env, s, i, st.lastNumber).None? then end.(status := Unrecognized) else end
    decreases |s| - i, !st.lastNumber
  {
    hide Lexer.Operand, OperatorFrom, Push, Alternates;
    if At(s, i) != '\0' {
      if IsSpace(s[i]) {
        ExecIsFront(env, sem, s, i + 1, st);
      } else {
        var operand := if st.lastNumber then NotFound else Lexer.Operand(env, s, i);
        var operator := Lexer.Operator(s, i, !st.lastNumber);
        if operand.Found? || operator.Found? {
          var t := if operand.Found? then Num(operand.item) else Oper(operator.item);
          var next := if operand.Found? then operand.next else operator.next;
          var st' := Push(sem, st, t);
          ModeAfter(sem, st, t);
          RunFirst(sem, st, t, Front(env, s, next, t.Num? || t.op == ClosedParen));
          if st'.status == Done {
            ExecIsFront(env, sem, s, next, st');
          }
        }
      }
    }
  }

  /** The status of every text, exactly: what breaks off is UNRECOGNIZED unless the tokens in front of it
      give TOO_MANY_POP or MISMATCHED_CLOSE, and all else has the status of its tokens. */
  lemma TextStatus(env: Env, sem: Sem<int>, s: string)
    ensures var ts, r := Front(env, s, 0, false), ParseExp(env, sem, s);
            if Lex(env, s, 0, false).None? && !Stutters(ts, false) && !Overclosed(ts, 0) then r == Error(Unrecognized)
            else if Verdict(ts) == Done then r.Ok?
            else r == Error(Verdict(ts))
  {
    hide Exec, Run, Flush, Lex, Front, Stutters, Overclosed;
    var ts := Front(env, s, 0, false);
    FrontAlternates(env, s, 0, false);
    ExecIsFront(env, sem, s, 0, EMPTY);
    StatusIsVerdict(sem, ts);
    RunVerdict(sem, EMPTY, ts, 0);
  }

  /** A missing closed parenthesis: MISSING_VALUE, where MISMATCHED_OPEN was meant. */
  lemma MissingParenthesis<V>(sem: Sem<V>, v: V)
    ensures Parse(sem, [Oper(OpenParen), Num(v)]) == Error(MissingValue)
  {
    var ts := [Oper(OpenParen), Num(v)];
    assert ts[1..] == [Num(v)] && [Num(v)][1..] == [];
    assert !Stutters([Num(v)], false) && !Overclosed([Num(v)], 1) && Depth([Num(v)], 1) == 1;
    assert Alternates([Num(v)], false);
    StatusIsVerdict(sem, ts);
  }
}
