/**
 parseExp of Toolchain/src/shuntingyard.c with its growing stacks and its loops, each proved against
 the functions that describe it.
 */
module ParseExp {
  import opened Operators
  import opened Lexer
  import opened ShuntingYard

  /** A stack in an array that doubles when it is full. */
  class OpStack<T(0)> {
    var stack: array<T>
    var level: nat

    ghost predicate Valid()
      reads this
    {
      level <= stack.Length
    }

    ghost function Contents(): seq<T>
      reads this, stack
      requires Valid()
    {
      stack[..level]
    }

    constructor ()
      ensures Valid() && fresh(stack) && Contents() == []
    {
      stack := new T[0];
      level := 0;
    }

    method Push(x: T)
      requires Valid()
      modifies this, stack
      ensures Valid() && (stack == old(stack) || fresh(stack))
      ensures Contents() == old(Contents()) + [x]
    {
      if level >= stack.Length {
        var bigger := new T[if stack.Length == 0 then 1 else 2 * stack.Length];
        forall i | 0 <= i < level {
          bigger[i] := stack[i];
        }
        assert bigger[..level] == stack[..level];
        stack := bigger;
      }
      stack[level] := x;
      level := level + 1;
      assert stack[..level] == old(Contents()) + [x];
    }

    method Pop() returns (x: T)
      requires Valid() && level > 0
      modifies this
      ensures Valid() && stack == old(stack) && level == old(level) - 1
      ensures x == old(Contents())[level] && Contents() == old(Contents())[..level]
    {
      level := level - 1;
      x := stack[level];
    }
  }

  // ----- scanning

  method ParseNumeric(s: string, expstr: nat, base: nat) returns (f: Found<int>)
    ensures f == Numeric(s, expstr, base)
  {
    var tmp, ptr := 0, expstr;
    while true
      invariant expstr <= ptr
      invariant Digits(s, expstr, ptr, base, tmp) == Numeric(s, expstr, base)
      decreases |s| - ptr
    {
      var digit := CharToNumeral(At(s, ptr));
      if 0 <= digit < base {
        tmp := Wrap32(tmp * base);
        tmp := Wrap32(tmp + digit);
        ptr := ptr + 1;
      } else if digit >= 0 {
        return NotFound;
      } else if ptr != expstr {
        return Found(tmp, ptr);
      } else {
        return NotFound;
      }
    }
  }

  method ParseInt(s: string, expstr: nat) returns (f: Found<int>)
    ensures f == Int(s, expstr)
  {
    for i := 0 to |PREFIXES|
      invariant IntFrom(s, expstr, i) == Int(s, expstr)
    {
      if HasPrefix(s, expstr, PREFIXES[i].0) {
        f := ParseNumeric(s, expstr + |PREFIXES[i].0|, PREFIXES[i].1);
        return;
      }
    }
    f := ParseNumeric(s, expstr, 10);
  }

  method ParseSymbol(symbols: seq<Symbol>, s: string, expstr: nat) returns (f: Found<int>)
    ensures f == LongestSymbol(symbols, |symbols|, s, expstr)
  {
    f := NotFound;
    for i := 0 to |symbols|
      invariant f == LongestSymbol(symbols, i, s, expstr)
    {
      if HasPrefix(s, expstr, symbols[i].name) {
        var localEnd := expstr + |symbols[i].name|;
        if f.NotFound? || localEnd > f.next {
          f := Found(symbols[i].value, localEnd);
        }
      }
    }
  }

  method ParseOperator(s: string, expstr: nat, unary: bool) returns (f: Found<Op>)
    ensures f == Operator(s, expstr, unary)
  {
    for i := 0 to |OPERATORS|
      invariant OperatorFrom(s, expstr, unary, i) == Operator(s, expstr, unary)
    {
      if unary == (Args(OPERATORS[i]) == 1) && HasPrefix(s, expstr, Str(OPERATORS[i])) {
        return Found(OPERATORS[i], expstr + |Str(OPERATORS[i])|);
      }
    }
    f := NotFound;
  }

  method ParseOperand(env: Env, s: string, expstr: nat) returns (f: Found<int>)
    ensures f == Operand(env, s, expstr)
  {
    f := ParseInt(s, expstr);
    if f.NotFound? {
      f := CharLiteral(env.scan, s, expstr);
      if f.NotFound? {
        f := ParseSymbol(env.symbols, s, expstr);
      }
    }
  }

  // ----- evaluating

  method EvalOperator(sem: Sem<int>, vals: OpStack<int>, op: Op) returns (failed: bool)
    requires vals.Valid()
    modifies vals, vals.stack
    ensures vals.Valid() && (vals.stack == old(vals.stack) || fresh(vals.stack))
    ensures failed == ApplyOp(sem, old(vals.Contents()), op).None?
    ensures vals.Contents() == if failed then old(vals.Contents()) else ApplyOp(sem, old(vals.Contents()), op).value
  {
    if IsParen(op) || vals.level < Args(op) {
      return true;
    }
    var n := vals.level;
    var values := new int[Args(op)];
    for i := 0 to Args(op)
      invariant vals.Valid() && vals.stack == old(vals.stack) && vals.level == n - i
      invariant vals.stack[..n] == old(vals.Contents())
      invariant forall j :: 0 <= j < i ==> values[j] == old(vals.Contents())[n - 1 - j]
    {
      values[i] := vals.Pop();
    }
    var value := if Args(op) == 1 then sem.un(op, values[0]) else sem.bin(op, values[1], values[0]);
    assert vals.Contents() == old(vals.Contents())[..n - Args(op)];
    vals.Push(value);
    failed := false;
  }

  /** The loop for a closed parenthesis. */
  method CloseLoop(sem: Sem<int>, vals: OpStack<int>, ops: OpStack<Op>) returns (exitcode: Status)
    requires vals.Valid() && ops.Valid()
    modifies vals, vals.stack, ops
    ensures vals.Valid() && ops.Valid() && ops.stack == old(ops.stack)
    ensures vals.stack == old(vals.stack) || fresh(vals.stack)
    ensures State(vals.Contents(), ops.Contents(), true, exitcode)
         == CloseParen(sem, old(vals.Contents()), old(ops.Contents()))
  {
    while true
      invariant vals.Valid() && ops.Valid() && ops.stack == old(ops.stack)
      invariant vals.stack == old(vals.stack) || fresh(vals.stack)
      invariant CloseParen(sem, vals.Contents(), ops.Contents())
             == CloseParen(sem, old(vals.Contents()), old(ops.Contents()))
      decreases ops.level
    {
      if ops.level <= 0 {
        return MismatchedClose;
      }
      var op := ops.Pop();
      if op == OpenParen {
        return Done;
      }
      var failed := EvalOperator(sem, vals, op);
      if failed {
        return TooManyPopParen;
      }
    }
  }

  /** The loop for any other operator. */
  method PopLoop(sem: Sem<int>, vals: OpStack<int>, ops: OpStack<Op>, priority: int) returns (exitcode: Status)
    requires vals.Valid() && ops.Valid()
    modifies vals, vals.stack, ops, ops.stack
    ensures vals.Valid() && ops.Valid()
    ensures vals.stack == old(vals.stack) || fresh(vals.stack)
    ensures ops.stack == old(ops.stack) || fresh(ops.stack)
    ensures State(vals.Contents(), ops.Contents(), false, exitcode)
         == PopWhile(sem, old(vals.Contents()), old(ops.Contents()), priority)
  {
    exitcode := Done;
    while ops.level > 0
      invariant vals.Valid() && ops.Valid()
      invariant vals.stack == old(vals.stack) || fresh(vals.stack)
      invariant ops.stack == old(ops.stack)
      invariant PopWhile(sem, vals.Contents(), ops.Contents(), priority)
             == PopWhile(sem, old(vals.Contents()), old(ops.Contents()), priority)
      decreases ops.level
    {
      var op := ops.Pop();
      if Priority(op) < priority {
        ops.Push(op);
        return;
      }
      var failed := EvalOperator(sem, vals, op);
      if failed {
        return TooManyPop;
      }
    }
  }

  /** The loop at the end of the input. */
  method FlushLoop(sem: Sem<int>, vals: OpStack<int>, ops: OpStack<Op>) returns (exitcode: Status)
    requires vals.Valid() && ops.Valid()
    modifies vals, vals.stack, ops
    ensures vals.Valid() && ops.Valid()
    ensures State(vals.Contents(), ops.Contents(), false, exitcode)
         == Flush(sem, old(vals.Contents()), old(ops.Contents()))
  {
    exitcode := Done;
    while ops.level > 0
      invariant vals.Valid() && ops.Valid() && ops.stack == old(ops.stack)
      invariant vals.stack == old(vals.stack) || fresh(vals.stack)
      invariant Flush(sem, vals.Contents(), ops.Contents())
             == Flush(sem, old(vals.Contents()), old(ops.Contents()))
      decreases ops.level
    {
      var op := ops.Pop();
      var failed := EvalOperator(sem, vals, op);
      if failed {
        return MissingValue;
      }
    }
  }

  /** An operator that has been recognised. */
  method PushOperator(sem: Sem<int>, vals: OpStack<int>, ops: OpStack<Op>, op: Op, ghost mode: bool)
      returns (lastNumber: bool, exitcode: Status)
    requires vals.Valid() && ops.Valid()
    modifies vals, vals.stack, ops, ops.stack
    ensures vals.Valid() && ops.Valid()
    ensures vals.stack == old(vals.stack) || fresh(vals.stack)
    ensures ops.stack == old(ops.stack) || fresh(ops.stack)
    ensures State(vals.Contents(), ops.Contents(), lastNumber, exitcode)
         == ShuntingYard.Push(sem, State(old(vals.Contents()), old(ops.Contents()), mode, Done), Oper(op))
  {
    if op == OpenParen {
      ops.Push(op);
      return false, Done;
    } else if op == ClosedParen {
      exitcode := CloseLoop(sem, vals, ops);
      lastNumber := true;
    } else {
      exitcode := PopLoop(sem, vals, ops, Priority(op));
      ops.Push(op);
      lastNumber := false;
    }
  }

  /** The parser: the value of the expression, or the error it stops with. */
  method ParseExpression(env: Env, sem: Sem<int>, expstr: string) returns (r: Outcome<int>)
    ensures r == ShuntingYard.ParseExp(env, sem, expstr)
  {
    hide ApplyOp, CloseParen, PopWhile, Flush, OperatorFrom, IntFrom, LongestSymbol, CharLiteral;
    var ops := new OpStack<Op>();
    var vals := new OpStack<int>();
    var ptr: nat, exitcode, lastNumber := 0, Done, false;
    while At(expstr, ptr) != '\0' && exitcode == Done
      invariant vals.Valid() && ops.Valid()
      invariant fresh(vals.stack) && fresh(ops.stack)
      invariant Exec(env, sem, expstr, ptr, State(vals.Contents(), ops.Contents(), lastNumber, exitcode))
             == Exec(env, sem, expstr, 0, EMPTY)
      decreases exitcode == Done, |expstr| - ptr, !lastNumber
    {
      if IsSpace(expstr[ptr]) {
        ptr := ptr + 1;
      } else {
        var operand := NotFound;
        if !lastNumber {
          operand := ParseOperand(env, expstr, ptr);
        }
        if operand.Found? {
          vals.Push(operand.item);
          ptr := operand.next;
          lastNumber := true;
        } else {
          var operator := ParseOperator(expstr, ptr, !lastNumber);
          if operator.Found? {
            StrIsNoWord(operator.item);
            lastNumber, exitcode := PushOperator(sem, vals, ops, operator.item, lastNumber);
            ptr := operator.next;
          } else {
            exitcode := Unrecognized;
          }
        }
      }
    }
    if exitcode != Done {
      return Error(exitcode);
    }
    exitcode := FlushLoop(sem, vals, ops);
    if exitcode != Done {
      return Error(exitcode);
    }
    if vals.level == 1 {
      var value := vals.Pop();
      return Ok(value);
    } else if vals.level == 0 {
      return Error(NoValues);
    } else {
      return Error(MismatchedOpen);
    }
  }
}
