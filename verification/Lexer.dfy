/**
 How Toolchain/src/shuntingyard.c cuts an expression into tokens.

 Text is a C string: it ends at its first NUL character or behind its last character. Which tokens
 are looked for depends on whether an operand or an operator is due.
 */
module Lexer {
  import opened Operators

  datatype Option<+T> = None | Some(value: T)

  datatype Symbol = Symbol(name: string, value: int)

  /** An operand or operator and the position behind it. */
  datatype Found<+T> = NotFound | Found(item: T, next: nat)

  /** The scanning of numeric escapes in character literals is left to the C library: whether a
      number is there, its value, and how many characters it takes. */
  type EscapeScanner = (string, nat, bool) -> Option<(int, nat)>

  datatype Env = Env(symbols: seq<Symbol>, scan: EscapeScanner)

  datatype Token<+V> = Num(v: V) | Oper(op: Op)

  function At(s: string, i: nat): char {
    if i < |s| then s[i] else '\0'
  }

  predicate HasPrefix(s: string, i: nat, w: string) {
    i + |w| <= |s| && s[i..i + |w|] == w
  }

  predicate IsSpace(c: char) {
    c == ' ' || '\t' <= c <= '\r'
  }

  predicate IsAlpha(c: char) {
    'a' <= c <= 'z' || 'A' <= c <= 'Z'
  }

  predicate IsDigit(c: char) {
    '0' <= c <= '9'
  }

  // ----- operands

  function CharToNumeral(c: char): int {
    if '0' <= c <= '9' then c as int - '0' as int
    else if 'a' <= c <= 'z' then c as int - 'a' as int + 10
    else if 'A' <= c <= 'Z' then c as int - 'A' as int + 10
    else -1
  }

  /** Assignment to a 32-bit int. */
  function Wrap32(x: int): int {
    (x + 0x8000_0000) % 0x1_0000_0000 - 0x8000_0000
  }

  /** The digits from i on, behind digits worth tmp that start at start. A digit too large for the
      base is an error, anything else ends the number. */
  function Digits(s: string, start: nat, i: nat, base: nat, tmp: int): Found<int>
    decreases |s| - i
  {
    var digit := CharToNumeral(At(s, i));
    if 0 <= digit < base then Digits(s, start, i + 1, base, Wrap32(Wrap32(tmp * base) + digit))
    else if digit >= 0 || i == start then NotFound
    else Found(tmp, i)
  }

  function Numeric(s: string, i: nat, base: nat): Found<int> {
    Digits(s, i, i, base, 0)
  }

  const PREFIXES: seq<(string, nat)> := [("0x", 16), ("0X", 16), ("0b", 2), ("0B", 2), ("0o", 8), ("0O", 8)]

  function IntFrom(s: string, i: nat, k: nat): Found<int>
    requires k <= |PREFIXES|
    decreases |PREFIXES| - k
  {
    if k == |PREFIXES| then Numeric(s, i, 10)
    else if HasPrefix(s, i, PREFIXES[k].0) then Numeric(s, i + |PREFIXES[k].0|, PREFIXES[k].1)
    else IntFrom(s, i, k + 1)
  }

  function Int(s: string, i: nat): Found<int> {
    IntFrom(s, i, 0)
  }

  /** One character of a literal, possibly escaped. */
  function CharAt(scan: EscapeScanner, s: string, i: nat): Found<int> {
    if At(s, i) != '\\' then Found(At(s, i) as int, i + 1)
    else
      match At(s, i + 1)
      case 'a' => Found(7, i + 2)
      case 'b' => Found(8, i + 2)
      case 'f' => Found(12, i + 2)
      case 'n' => Found(10, i + 2)
      case 'r' => Found(13, i + 2)
      case 't' => Found(9, i + 2)
      case 'v' => Found(11, i + 2)
      case '\"' => Found('\"' as int, i + 2)
      case '\\' => Found('\\' as int, i + 2)
      case '\'' => Found('\'' as int, i + 2)
      case 'x' =>
        (match scan(s, i + 2, true)
         case None => NotFound
         case Some((value, count)) => Found(value, i + 2 + count))
      case _ =>
        (match scan(s, i + 1, false)
         case None => NotFound
         case Some((value, count)) => Found(value, i + 1 + count))
  }

  function CharLiteral(scan: EscapeScanner, s: string, i: nat): Found<int> {
    if At(s, i) != '\'' then NotFound
    else
      match CharAt(scan, s, i + 1)
      case NotFound => NotFound
      case Found(value, next) => if At(s, next) == '\'' then Found(value, next + 1) else NotFound
  }

  /** The longest of the first n names that stands at i; among equal names the first. */
  function LongestSymbol(symbols: seq<Symbol>, n: nat, s: string, i: nat): (f: Found<int>)
    requires n <= |symbols|
    ensures f.Found? ==> i <= f.next <= |s|
  {
    if n == 0 then NotFound
    else
      var best := LongestSymbol(symbols, n - 1, s, i);
      var sym := symbols[n - 1];
      if HasPrefix(s, i, sym.name) && (best.NotFound? || i + |sym.name| > best.next) then
        Found(sym.value, i + |sym.name|)
      else best
  }

  /** The name chosen is one that stands there, and no longer one does. */
  lemma {:induction false} LongestIsLongest(symbols: seq<Symbol>, n: nat, s: string, i: nat)
    requires n <= |symbols|
    ensures var f := LongestSymbol(symbols, n, s, i);
            && (f.Found? <==> exists k :: 0 <= k < n && HasPrefix(s, i, symbols[k].name))
            && (f.Found? ==>
                && (exists k :: 0 <= k < n && symbols[k].value == f.item
                                && HasPrefix(s, i, symbols[k].name) && i + |symbols[k].name| == f.next)
                && forall k :: 0 <= k < n && HasPrefix(s, i, symbols[k].name) ==> i + |symbols[k].name| <= f.next)
  {
    if n > 0 {
      LongestIsLongest(symbols, n - 1, s, i);
    }
  }

  function Operand(env: Env, s: string, i: nat): (f: Found<int>)
    ensures f.Found? ==> i <= f.next
  {
    var number := Int(s, i);
    if number.Found? then IntAdvances(s, i, 0); number
    else
      var literal := CharLiteral(env.scan, s, i);
      if literal.Found? then literal else LongestSymbol(env.symbols, |env.symbols|, s, i)
  }

  lemma {:induction false} IntAdvances(s: string, i: nat, k: nat)
    requires k <= |PREFIXES|
    ensures IntFrom(s, i, k).Found? ==> i < IntFrom(s, i, k).next
    decreases |PREFIXES| - k
  {
    if k == |PREFIXES| {
      DigitsAdvance(s, i, i, 10, 0);
    } else if HasPrefix(s, i, PREFIXES[k].0) {
      DigitsAdvance(s, i + |PREFIXES[k].0|, i + |PREFIXES[k].0|, PREFIXES[k].1, 0);
    } else {
      IntAdvances(s, i, k + 1);
    }
  }

  lemma {:induction false} DigitsAdvance(s: string, start: nat, i: nat, base: nat, tmp: int)
    requires start <= i
    ensures var f := Digits(s, start, i, base, tmp); f.Found? ==> start < f.next && i <= f.next
    decreases |s| - i
  {
    if 0 <= CharToNumeral(At(s, i)) < base {
      DigitsAdvance(s, start, i + 1, base, Wrap32(Wrap32(tmp * base) + CharToNumeral(At(s, i))));
    }
  }

  // ----- operators

  /** Entry k stands at i and may stand there. */
  predicate OperatorHere(s: string, i: nat, unary: bool, k: nat)
    requires k < |OPERATORS|
  {
    unary == (Args(OPERATORS[k]) == 1) && HasPrefix(s, i, Str(OPERATORS[k]))
  }

  function OperatorFrom(s: string, i: nat, unary: bool, k: nat): (f: Found<Op>)
    requires k <= |OPERATORS|
    ensures f.Found? ==> f.next == i + |Str(f.item)| && HasPrefix(s, i, Str(f.item)) && unary == (Args(f.item) == 1)
    decreases |OPERATORS| - k
  {
    if k == |OPERATORS| then NotFound
    else if OperatorHere(s, i, unary, k) then Found(OPERATORS[k], i + |Str(OPERATORS[k])|)
    else OperatorFrom(s, i, unary, k + 1)
  }

  function Operator(s: string, i: nat, unary: bool): (f: Found<Op>)
    ensures f.Found? ==> f.next == i + |Str(f.item)| && HasPrefix(s, i, Str(f.item)) && unary == (Args(f.item) == 1)
  {
    OperatorFrom(s, i, unary, 0)
  }

  // ----- the token sequence

  /** The tokens from position i on, where lastNumber says that an operator is due; None if some
      position holds neither space nor an admissible token. */
  function Lex(env: Env, s: string, i: nat, lastNumber: bool): Option<seq<Token<int>>>
    decreases |s| - i, !lastNumber
  {
    if At(s, i) == '\0' then Some([])
    else if IsSpace(s[i]) then Lex(env, s, i + 1, lastNumber)
    else
      var operand := if lastNumber then NotFound else Operand(env, s, i);
      if operand.Found? then
        var rest := Lex(env, s, operand.next, true);
        if rest.None? then None else Some([Num(operand.item)] + rest.value)
      else
        var operator := Operator(s, i, !lastNumber);
        if operator.NotFound? then None
        else
          var rest := Lex(env, s, operator.next, operator.item == ClosedParen);
          if rest.None? then None else Some([Oper(operator.item)] + rest.value)
  }

  // ----- new names do not disturb old expressions

  /** The shape of a label: a letter or underscore, then letters, digits and underscores. */
  predicate IsIdentifier(w: string) {
    |w| > 0 && (IsAlpha(w[0]) || w[0] == '_') &&
    forall k :: 0 <= k < |w| ==> IsWordChar(w[k])
  }

  predicate IsWordChar(c: char) {
    IsAlpha(c) || IsDigit(c) || c == '_'
  }

  ghost predicate UniqueNames(symbols: seq<Symbol>) {
    forall j, k :: 0 <= j < k < |symbols| ==> symbols[j].name != symbols[k].name
  }

  /** All the symbols of one table are in the other, and whatever else is there is an identifier
      with a name of its own. The order does not matter. */
  ghost predicate Extends(small: seq<Symbol>, large: seq<Symbol>) {
    && UniqueNames(large)
    && (forall k :: 0 <= k < |small| ==> small[k] in large)
    && (forall k :: 0 <= k < |large| && large[k] !in small ==> IsIdentifier(large[k].name))
  }

  lemma PrefixHead(s: string, i: nat, w: string)
    requires |w| > 0
    ensures HasPrefix(s, i, w) ==> At(s, i) == w[0]
  {
    if HasPrefix(s, i, w) {
      assert s[i] == s[i..i + |w|][0];
    }
  }

  lemma StrIsNoWord(op: Op)
    ensures 1 <= |Str(op)| <= 2 && !IsWordChar(Str(op)[0])
  {
  }

  lemma {:induction false} NoOperatorAtWord(s: string, i: nat, unary: bool, k: nat)
    requires k <= |OPERATORS| && IsWordChar(At(s, i))
    ensures OperatorFrom(s, i, unary, k).NotFound?
    decreases |OPERATORS| - k
  {
    if k < |OPERATORS| {
      var w := Str(OPERATORS[k]);
      StrIsNoWord(OPERATORS[k]);
      PrefixHead(s, i, w);
      NoOperatorAtWord(s, i, unary, k + 1);
    }
  }

  /** A name added later can only win at a place where the smaller table leads into a dead end. */
  lemma NewSymbolWins(small: seq<Symbol>, large: seq<Symbol>, s: string, i: nat)
    requires Extends(small, large)
    ensures var f := LongestSymbol(small, |small|, s, i);
            var g := LongestSymbol(large, |large|, s, i);
            g == f || if f.Found? then f.next < |s| && IsWordChar(s[f.next])
                      else i < |s| && IsWordChar(s[i])
  {
    var f := LongestSymbol(small, |small|, s, i);
    var g := LongestSymbol(large, |large|, s, i);
    LongestIsLongest(small, |small|, s, i);
    LongestIsLongest(large, |large|, s, i);
    if f.Found? {
      var j :| 0 <= j < |small| && small[j].value == f.item
               && HasPrefix(s, i, small[j].name) && i + |small[j].name| == f.next;
      var j' :| 0 <= j' < |large| && large[j'] == small[j];
      WinnerOf(small, large, s, i, f, j');
    } else if g.Found? {
      var k :| 0 <= k < |large| && large[k].value == g.item
               && HasPrefix(s, i, large[k].name) && i + |large[k].name| == g.next;
      assert large[k] !in small;
      assert s[i] == s[i..i + |large[k].name|][0];
    }
  }

  /** The winner of the smaller table, at position j in the larger one, against that table's own. */
  lemma WinnerOf(small: seq<Symbol>, large: seq<Symbol>, s: string, i: nat, f: Found<int>, j: nat)
    requires Extends(small, large) && f.Found? && f == LongestSymbol(small, |small|, s, i)
    requires j < |large| && large[j].value == f.item
    requires HasPrefix(s, i, large[j].name) && i + |large[j].name| == f.next
    ensures LongestSymbol(large, |large|, s, i) == f || (f.next < |s| && IsWordChar(s[f.next]))
  {
    hide LongestSymbol, IsAlpha, IsDigit;
    var g := LongestSymbol(large, |large|, s, i);
    LongestIsLongest(small, |small|, s, i);
    LongestIsLongest(large, |large|, s, i);
    var k :| 0 <= k < |large| && large[k].value == g.item
             && HasPrefix(s, i, large[k].name) && i + |large[k].name| == g.next;
    if g.next == f.next {
      SameSymbol(large, j, k, s, i);
    } else {
      assert f.next < g.next && large[k] !in small;
      LongerWord(large[k].name, s, i, f.next);
    }
  }

  lemma SameSymbol(symbols: seq<Symbol>, j: nat, k: nat, s: string, i: nat)
    requires UniqueNames(symbols) && j < |symbols| && k < |symbols|
    requires HasPrefix(s, i, symbols[j].name) && HasPrefix(s, i, symbols[k].name)
    requires |symbols[j].name| == |symbols[k].name|
    ensures j == k
  {
    assert symbols[j].name == symbols[k].name;
  }

  lemma LongerWord(w: string, s: string, i: nat, p: nat)
    requires IsIdentifier(w) && HasPrefix(s, i, w) && i <= p < i + |w|
    ensures p < |s| && IsWordChar(s[p])
  {
    assert s[p] == s[i..i + |w|][p - i];
  }

  /** Symbol-table monotonicity: text that lexes under a table lexes to the same tokens under every
      extension of it. */
  lemma {:induction false} LexMonotone(env: Env, env': Env, s: string, i: nat, lastNumber: bool)
    requires Extends(env.symbols, env'.symbols) && env.scan == env'.scan
    requires Lex(env, s, i, lastNumber).Some?
    ensures Lex(env', s, i, lastNumber) == Lex(env, s, i, lastNumber)
    decreases |s| - i, !lastNumber
  {
    hide LongestSymbol, OperatorFrom, IntFrom, CharLiteral, HasPrefix, IsIdentifier;
    if At(s, i) == '\0' {
    } else if IsSpace(s[i]) {
      LexMonotone(env, env', s, i + 1, lastNumber);
    } else {
      var operand := if lastNumber then NotFound else Operand(env, s, i);
      if !lastNumber {
        NewSymbolWins(env.symbols, env'.symbols, s, i);
        if operand.Found? {
          WordStops(env, s, operand.next);
        } else if IsWordChar(s[i]) {
          NoOperatorAtWord(s, i, true, 0);
        }
        assert Operand(env', s, i) == operand;
      }
      if operand.Found? {
        LexMonotone(env, env', s, operand.next, true);
      } else {
        var operator := Operator(s, i, !lastNumber);
        LexMonotone(env, env', s, operator.next, operator.item == ClosedParen);
      }
    }
  }

  lemma WordStops(env: Env, s: string, i: nat)
    ensures IsWordChar(At(s, i)) ==> Lex(env, s, i, true).None?
  {
    if IsWordChar(At(s, i)) {
      NoOperatorAtWord(s, i, false, 0);
    }
  }
}
