/**
 Expressions by their words: what an expression means without knowing the symbol table, and so exactly
 when it has a value and which.
 */
module Words {
  import opened Operators
  import opened Lexer
  import opened ShuntingYard
  import opened SymTab
  import opened Grammar
  import opened Statuses
  import LabelParser
  import ParserCorrectness

  /** An operand as it is written. */
  datatype Word = Name(name: string) | Literal(value: int)

  /** A number or character. */
  function Constant(scan: EscapeScanner, s: string, i: nat): (f: Found<int>)
    ensures f.Found? ==> i <= f.next
  {
    Operand(Env([], scan), s, i)
  }

  predicate StartsName(c: char) {
    IsAlpha(c) || c == '_'
  }

  /** The text in words and operators, where a name goes on as long as it can. */
  function Read(scan: EscapeScanner, s: string, i: nat, lastNumber: bool): Option<seq<Token<Word>>>
    decreases |s| - i, !lastNumber
  {
    if At(s, i) == '\0' then Some([])
    else if IsSpace(s[i]) then Read(scan, s, i + 1, lastNumber)
    else if !lastNumber && Constant(scan, s, i).Found? then
      var f := Constant(scan, s, i);
      Behind(Num(Literal(f.item)), Read(scan, s, f.next, true))
    else if !lastNumber && StartsName(s[i]) then
      LabelParser.WordInside(s, i);
      var end := LabelParser.SkipWord(s, i);
      Behind(Num(Name(s[i..end])), Read(scan, s, end, true))
    else
      var operator := Operator(s, i, !lastNumber);
      if operator.NotFound? then None
      else Behind(Oper(operator.item), Read(scan, s, operator.next, operator.item == ClosedParen))
  }

  function Behind<V>(t: Token<V>, rest: Option<seq<Token<V>>>): Option<seq<Token<V>>> {
    if rest.None? then None else Some([t] + rest.value)
  }

  function NamesOf(ws: seq<Token<Word>>): set<string> {
    if ws == [] then {}
    else (if ws[0].Num? && ws[0].v.Name? then {ws[0].v.name} else {}) + NamesOf(ws[1..])
  }

  ghost predicate Identifiers(symbols: seq<Symbol>) {
    UniqueNames(symbols) && forall k :: 0 <= k < |symbols| ==> IsIdentifier(symbols[k].name)
  }

  predicate IsBound(symbols: seq<Symbol>, name: string) {
    Lookup(symbols, name).Some?
  }

  ghost predicate AllBound(symbols: seq<Symbol>, names: set<string>) {
    forall name :: name in names ==> IsBound(symbols, name)
  }

  /** What a word stands for; 0 for a name that is not bound. */
  function ValueOf(symbols: seq<Symbol>, w: Word): int {
    match w
    case Literal(v) => v
    case Name(name) => if IsBound(symbols, name) then Lookup(symbols, name).value else 0
  }

  function Plug(symbols: seq<Symbol>, ws: seq<Token<Word>>): seq<Token<int>> {
    if ws == [] then []
    else [if ws[0].Num? then Num(ValueOf(symbols, ws[0].v)) else Oper(ws[0].op)] + Plug(symbols, ws[1..])
  }

  // ----- names in a table

  lemma NotEmpty(w: string)
    requires IsIdentifier(w)
    ensures |w| > 0
  {
  }

  lemma NoSymbols(s: string, i: nat)
    ensures LongestSymbol([], 0, s, i).NotFound?
  {
  }

  /** A symbol that stands at a word is not longer than the word. */
  lemma WordCovers(symbols: seq<Symbol>, s: string, i: nat, f: Found<int>)
    requires Identifiers(symbols) && f.Found? && f == LongestSymbol(symbols, |symbols|, s, i) && i < |s|
    ensures i < f.next <= LabelParser.SkipWord(s, i)
  {
    hide LongestSymbol, IsIdentifier, LabelParser.SkipWord;
    LongestIsLongest(symbols, |symbols|, s, i);
    var k :| 0 <= k < |symbols| && symbols[k].value == f.item
             && HasPrefix(s, i, symbols[k].name) && i + |symbols[k].name| == f.next;
    NotEmpty(symbols[k].name);
    var end := LabelParser.SkipWord(s, i);
    if end < f.next {
      LongerWord(symbols[k].name, s, i, end);
    }
  }

  /** The symbol that stands at a word and covers it bears its name. */
  lemma WinnerBinds(symbols: seq<Symbol>, s: string, i: nat, end: nat, f: Found<int>)
    requires Identifiers(symbols) && f.Found? && f == LongestSymbol(symbols, |symbols|, s, i) && i <= end == f.next
    ensures end <= |s| && Lookup(symbols, s[i..end]) == Some(f.item)
  {
    hide LongestSymbol, IsIdentifier;
    LongestIsLongest(symbols, |symbols|, s, i);
    var k :| 0 <= k < |symbols| && symbols[k].value == f.item
             && HasPrefix(s, i, symbols[k].name) && i + |symbols[k].name| == f.next;
    assert symbols[k] == Symbol(s[i..end], f.item);
    LookupIsMembership(symbols, s[i..end], f.item);
  }

  lemma BoundStands(symbols: seq<Symbol>, s: string, i: nat)
    requires Identifiers(symbols) && i < |s| && LabelParser.SkipWord(s, i) <= |s|
    requires IsBound(symbols, s[i..LabelParser.SkipWord(s, i)])
    ensures var f := LongestSymbol(symbols, |symbols|, s, i); f.Found? && f.next >= LabelParser.SkipWord(s, i)
  {
    hide LongestSymbol, IsIdentifier;
    LongestIsLongest(symbols, |symbols|, s, i);
    var end := LabelParser.SkipWord(s, i);
    var k := IndexOf(symbols, s[i..end], 0);
    assert HasPrefix(s, i, symbols[k].name);
  }

  /** Behind a word that is bound, the lexer goes on; at any other it gets stuck. */
  lemma NameLexes(env: Env, s: string, i: nat)
    requires Identifiers(env.symbols) && i < |s| && StartsName(s[i]) && Constant(env.scan, s, i).NotFound?
    ensures var end := LabelParser.SkipWord(s, i);
            && i < end <= |s|
            && if IsBound(env.symbols, s[i..end]) then
                 Operand(env, s, i) == Found(Lookup(env.symbols, s[i..end]).value, end)
               else Operand(env, s, i).NotFound? ||
                    (Operand(env, s, i).next < |s| && IsWordChar(s[Operand(env, s, i).next]))
  {
    hide LongestSymbol, IntFrom, CharLiteral, IndexOf, IsAlpha, IsDigit;
    LabelParser.WordInside(s, i);
    var end := LabelParser.SkipWord(s, i);
    var f := Operand(env, s, i);
    assert LongestSymbol([], 0, s, i).NotFound? by { NoSymbols(s, i); }
    assert f == LongestSymbol(env.symbols, |env.symbols|, s, i);
    FirstOfWord(s, i);
    if IsBound(env.symbols, s[i..end]) {
      BoundStands(env.symbols, s, i);
    }
    if f.Found? {
      WordCovers(env.symbols, s, i, f);
      if f.next == end {
        WinnerBinds(env.symbols, s, i, end, f);
      } else {
        assert IsWordChar(At(s, f.next));
      }
    }
  }

  lemma FirstOfWord(s: string, i: nat)
    requires i < |s| && StartsName(s[i])
    ensures i < LabelParser.SkipWord(s, i)
  {
  }

  /** Where no word starts, no symbol stands. */
  lemma NoNameNoSymbol(symbols: seq<Symbol>, s: string, i: nat)
    requires Identifiers(symbols) && i < |s| && !StartsName(s[i])
    ensures LongestSymbol(symbols, |symbols|, s, i).NotFound?
  {
    hide LongestSymbol, IsAlpha, IsDigit;
    LongestIsLongest(symbols, |symbols|, s, i);
    forall k | 0 <= k < |symbols|
      ensures !HasPrefix(s, i, symbols[k].name)
    {
      PrefixHead(s, i, symbols[k].name);
    }
  }

  lemma ConstantOrSymbol(env: Env, s: string, i: nat)
    ensures Operand(env, s, i) == if Constant(env.scan, s, i).Found? then Constant(env.scan, s, i)
                                  else LongestSymbol(env.symbols, |env.symbols|, s, i)
  {
    NoSymbols(s, i);
  }

  // ----- reading and lexing

  lemma PlugOne(symbols: seq<Symbol>, t: Token<Word>, rest: seq<Token<Word>>)
    ensures Plug(symbols, [t] + rest)
         == [if t.Num? then Num(ValueOf(symbols, t.v)) else Oper(t.op)] + Plug(symbols, rest)
    ensures NamesOf([t] + rest) == (if t.Num? && t.v.Name? then {t.v.name} else {}) + NamesOf(rest)
  {
    assert ([t] + rest)[1..] == rest;
  }

  ghost predicate LexesTo(symbols: seq<Symbol>, ws: Option<seq<Token<Word>>>, ts: Option<seq<Token<int>>>) {
    ts == if ws.Some? && AllBound(symbols, NamesOf(ws.value)) then Some(Plug(symbols, ws.value)) else None
  }

  /** A word in front. */
  lemma LexesBehind(symbols: seq<Symbol>, t: Token<Word>, ws: Option<seq<Token<Word>>>, ts: Option<seq<Token<int>>>)
    requires LexesTo(symbols, ws, ts) && (t.Num? && t.v.Name? ==> IsBound(symbols, t.v.name))
    ensures LexesTo(symbols, Behind(t, ws), Behind(if t.Num? then Num(ValueOf(symbols, t.v)) else Oper(t.op), ts))
  {
    hide IsBound, ValueOf;
    if ws.Some? {
      PlugOne(symbols, t, ws.value);
      if AllBound(symbols, NamesOf([t] + ws.value)) {
        assert AllBound(symbols, NamesOf(ws.value));
      }
    }
  }

  /** Text lexes if and only if it reads and all its names are bound, and then to the same tokens with the
      names replaced by their values. */
  lemma {:induction false} LexIsReading(env: Env, s: string, i: nat, lastNumber: bool)
    requires Identifiers(env.symbols)
    ensures LexesTo(env.symbols, Read(env.scan, s, i, lastNumber), Lex(env, s, i, lastNumber))
    decreases |s| - i, !lastNumber
  {
    hide LexesTo, Operand, OperatorFrom, LongestSymbol, Constant, IsAlpha, IsDigit, IsBound, Identifiers;
    if At(s, i) == '\0' {
      EmptyLexes(env.symbols);
    } else if IsSpace(s[i]) {
      LexIsReading(env, s, i + 1, lastNumber);
    } else if !lastNumber && Constant(env.scan, s, i).Found? {
      ConstantOrSymbol(env, s, i);
      var f := Constant(env.scan, s, i);
      LexIsReading(env, s, f.next, true);
      LexesBehind(env.symbols, Num(Literal(f.item)), Read(env.scan, s, f.next, true), Lex(env, s, f.next, true));
    } else if !lastNumber && StartsName(s[i]) {
      WordLexes(env, s, i);
    } else {
      if !lastNumber {
        ConstantOrSymbol(env, s, i);
        NoNameNoSymbol(env.symbols, s, i);
      }
      var operator := Operator(s, i, !lastNumber);
      if operator.Found? {
        var op, next := operator.item, operator.next;
        LexIsReading(env, s, next, op == ClosedParen);
        LexesBehind(env.symbols, Oper(op), Read(env.scan, s, next, op == ClosedParen),
                    Lex(env, s, next, op == ClosedParen));
      } else {
        NothingLexes(env.symbols);
      }
    }
  }

  lemma EmptyLexes(symbols: seq<Symbol>)
    ensures LexesTo(symbols, Some([]), Some([]))
  {
  }

  lemma NothingLexes(symbols: seq<Symbol>)
    ensures LexesTo(symbols, None, None)
  {
  }

  lemma WordLexes(env: Env, s: string, i: nat)
    requires Identifiers(env.symbols) && i < |s| && s[i] != '\0' && !IsSpace(s[i])
    requires StartsName(s[i]) && Constant(env.scan, s, i).NotFound?
    ensures LexesTo(env.symbols, Read(env.scan, s, i, false), Lex(env, s, i, false))
    decreases |s| - i, true, 0
  {
    hide LexesTo, Operand, OperatorFrom, LongestSymbol, Constant, IsAlpha, IsDigit, IsBound, Identifiers;
    NameLexes(env, s, i);
    var end := LabelParser.SkipWord(s, i);
    var ws := Read(env.scan, s, end, true);
    if IsBound(env.symbols, s[i..end]) {
      LexIsReading(env, s, end, true);
      LexesBehind(env.symbols, Num(Name(s[i..end])), ws, Lex(env, s, end, true));
      BoundValue(env.symbols, s[i..end]);
    } else {
      var f := Operand(env, s, i);
      if f.Found? {
        WordStops(env, s, f.next);
      } else {
        NoOperatorAtWord(s, i, true, 0);
      }
      UnboundStops(env.symbols, s[i..end], ws);
    }
  }

  lemma BoundValue(symbols: seq<Symbol>, name: string)
    requires IsBound(symbols, name)
    ensures Lookup(symbols, name) == Some(ValueOf(symbols, Name(name)))
  {
  }

  lemma UnboundStops(symbols: seq<Symbol>, name: string, ws: Option<seq<Token<Word>>>)
    requires !IsBound(symbols, name)
    ensures LexesTo(symbols, Behind(Num(Name(name)), ws), None)
  {
    if ws.Some? {
      PlugOne(symbols, Num(Name(name)), ws.value);
    }
  }

  // ----- when an expression has a value

  function NamesIn(scan: EscapeScanner, s: string): set<string> {
    var ws := Read(scan, s, 0, false);
    if ws.Some? then NamesOf(ws.value) else {}
  }

  /** Whether the text is an expression, whatever its names stand for. */
  predicate IsExpression(scan: EscapeScanner, s: string) {
    var ws := Read(scan, s, 0, false);
    ws.Some? && Verdict(ws.value) == Done
  }

  lemma {:induction false} VerdictPlugged(symbols: seq<Symbol>, ws: seq<Token<Word>>, afterUnary: bool, depth: nat)
    ensures var ts := Plug(symbols, ws);
            && |ts| == |ws| && Stutters(ts, afterUnary) == Stutters(ws, afterUnary)
            && Overclosed(ts, depth) == Overclosed(ws, depth) && Depth(ts, depth) == Depth(ws, depth)
            && (ws != [] ==>
                  ts[|ts| - 1].Num? == ws[|ws| - 1].Num? &&
                  (ws[|ws| - 1].Oper? ==> ts[|ts| - 1] == Oper(ws[|ws| - 1].op)))
    decreases |ws|
  {
    if ws != [] {
      var t := ws[0];
      VerdictPlugged(symbols, ws[1..], t.Oper? && IsUnary(t.op), depth);
      VerdictPlugged(symbols, ws[1..], false, depth + 1);
      if depth > 0 {
        VerdictPlugged(symbols, ws[1..], false, depth - 1);
      }
    }
  }

  /** An expression has a value if and only if the text is an expression and all its names are bound. */
  lemma ValueExactly(env: Env, sem: Sem<int>, s: string)
    requires Identifiers(env.symbols)
    ensures ParseExp(env, sem, s).Ok? <==> IsExpression(env.scan, s) && AllBound(env.symbols, NamesIn(env.scan, s))
  {
    hide Lex, Read, ParseExp, AllBound, Identifiers, Stutters, Overclosed, Depth;
    LexIsReading(env, s, 0, false);
    ParseExpIsParse(env, sem, s);
    var ws := Read(env.scan, s, 0, false);
    if ws.Some? {
      VerdictPlugged(env.symbols, ws.value, false, 0);
      if AllBound(env.symbols, NamesOf(ws.value)) {
        FrontAlternates(env, s, 0, false);
        TextStatus(env, sem, s);
      }
    }
  }

  // ----- which value it has

  function PlugTree(symbols: seq<Symbol>, e: Expr<Word>): (e': Expr<int>)
    ensures Prec(e') == Prec(e)
  {
    match e
    case Leaf(w) => Leaf(ValueOf(symbols, w))
    case Paren(x) => Paren(PlugTree(symbols, x))
    case Unary(op, x) => Unary(op, PlugTree(symbols, x))
    case Binary(op, l, r) => Binary(op, PlugTree(symbols, l), PlugTree(symbols, r))
  }

  lemma PlugConcat(symbols: seq<Symbol>, xs: seq<Token<Word>>, ys: seq<Token<Word>>)
    ensures Plug(symbols, xs + ys) == Plug(symbols, xs) + Plug(symbols, ys)
    decreases |xs|
  {
    if xs == [] {
      assert xs + ys == ys;
    } else {
      assert (xs + ys)[1..] == xs[1..] + ys;
      PlugConcat(symbols, xs[1..], ys);
    }
  }

  function LeafNames(e: Expr<Word>): set<string> {
    match e
    case Leaf(w) => if w.Name? then {w.name} else {}
    case Paren(x) => LeafNames(x)
    case Unary(_, x) => LeafNames(x)
    case Binary(_, l, r) => LeafNames(l) + LeafNames(r)
  }

  lemma {:induction false} NamesConcat(xs: seq<Token<Word>>, ys: seq<Token<Word>>)
    ensures NamesOf(xs + ys) == NamesOf(xs) + NamesOf(ys)
    decreases |xs|
  {
    if xs == [] {
      assert xs + ys == ys;
    } else {
      assert (xs + ys)[1..] == xs[1..] + ys;
      NamesConcat(xs[1..], ys);
    }
  }

  lemma {:induction false} NamesYield(e: Expr<Word>)
    ensures NamesOf(Yield(e)) == LeafNames(e)
  {
    match e
    case Leaf(w) =>
    case Paren(x) =>
      NamesYield(x);
      NamesConcat([Oper(OpenParen)] + Yield(x), [Oper(ClosedParen)]);
      NamesConcat([Oper(OpenParen)], Yield(x));
    case Unary(op, x) =>
      NamesYield(x);
      NamesConcat([Oper(op)], Yield(x));
    case Binary(op, l, r) =>
      NamesYield(l);
      NamesYield(r);
      NamesConcat(Yield(l) + [Oper(op)], Yield(r));
      NamesConcat(Yield(l), [Oper(op)]);
  }

  lemma PlugBetween(symbols: seq<Symbol>, xs: seq<Token<Word>>, op: Op, ys: seq<Token<Word>>)
    ensures Plug(symbols, xs + [Oper(op)] + ys) == Plug(symbols, xs) + [Oper(op)] + Plug(symbols, ys)
  {
    PlugConcat(symbols, xs + [Oper(op)], ys);
    PlugConcat(symbols, xs, [Oper(op)]);
  }

  lemma PlugParens(symbols: seq<Symbol>, xs: seq<Token<Word>>)
    ensures Plug(symbols, [Oper(OpenParen)] + xs + [Oper(ClosedParen)])
         == [Oper(OpenParen)] + Plug(symbols, xs) + [Oper(ClosedParen)]
  {
    PlugConcat(symbols, [Oper(OpenParen)] + xs, [Oper(ClosedParen)]);
    PlugConcat(symbols, [Oper(OpenParen)], xs);
  }

  lemma {:induction false} PlugYield(symbols: seq<Symbol>, e: Expr<Word>)
    ensures WellFormed(PlugTree(symbols, e)) == WellFormed(e)
    ensures Yield(PlugTree(symbols, e)) == Plug(symbols, Yield(e))
  {
    hide ValueOf;
    match e
    case Leaf(w) =>
      assert Plug(symbols, [Num(w)]) == [Num(ValueOf(symbols, w))];
    case Paren(x) =>
      PlugYield(symbols, x);
      PlugParens(symbols, Yield(x));
    case Unary(op, x) =>
      PlugYield(symbols, x);
      PlugOne(symbols, Oper(op), Yield(x));
    case Binary(op, l, r) =>
      PlugYield(symbols, l);
      PlugYield(symbols, r);
      PlugBetween(symbols, Yield(l), op, Yield(r));
  }

  /** The value of an expression is that of its tree, with every name replaced by its value. */
  lemma ValueOfTree(env: Env, sem: Sem<int>, s: string, e: Expr<Word>)
    requires Identifiers(env.symbols) && WellFormed(e) && Read(env.scan, s, 0, false) == Some(Yield(e))
    requires AllBound(env.symbols, LeafNames(e))
    ensures ParseExp(env, sem, s) == Ok(Eval(sem, PlugTree(env.symbols, e)))
  {
    hide Lex, Read, ParseExp, AllBound, Identifiers, Parse;
    LexIsReading(env, s, 0, false);
    ParseExpIsParse(env, sem, s);
    NamesYield(e);
    PlugYield(env.symbols, e);
    ParserCorrectness.ParseCorrect(sem, PlugTree(env.symbols, e));
  }
}
