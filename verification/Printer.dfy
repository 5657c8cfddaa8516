/**
 Writing expressions out as text, and reading them back.
 */
module Printer {
  import opened Operators
  import opened Lexer
  import opened ShuntingYard
  import opened Grammar
  import opened ParserCorrectness
  import opened AdjacentUnary

  function Digit(d: nat): char
    requires d < 16
  {
    "0123456789abcdef"[d]
  }

  /** The bases that numbers are written in. */
  predicate IsBase(base: nat) {
    base == 2 || base == 8 || base == 10 || base == 16
  }

  lemma DivMod(n: nat, base: nat)
    requires IsBase(base)
    ensures n / base * base + n % base == n && n % base < base && (base <= n ==> n / base < n)
  {
    if base == 2 {
      assert n / 2 * 2 + n % 2 == n;
    } else if base == 8 {
      assert n / 8 * 8 + n % 8 == n;
    } else if base == 10 {
      assert n / 10 * 10 + n % 10 == n;
    } else {
      assert n / 16 * 16 + n % 16 == n;
    }
  }

  function Numeral(n: nat, base: nat): string
    requires IsBase(base)
  {
    if n < base then [Digit(n)]
    else
      DivMod(n, base);
      Numeral(n / base, base) + [Digit(n % base)]
  }

  function Decimal(n: nat): string {
    Numeral(n, 10)
  }

  function Write(t: Token<int>): string
    requires t.Num? ==> t.v >= 0
  {
    match t
    case Num(v) => Decimal(v)
    case Oper(op) => Str(op)
  }

  /** Operands that a decimal literal can stand for. */
  ghost predicate Writable(ts: seq<Token<int>>) {
    forall k :: 0 <= k < |ts| && ts[k].Num? ==> 0 <= ts[k].v < 0x8000_0000
  }

  /** Every token followed by a space. */
  function Print(ts: seq<Token<int>>): string
    requires Writable(ts)
  {
    if ts == [] then "" else Write(ts[0]) + " " + Print(ts[1..])
  }

  // ----- numerals

  /** A digit with this value, in either case of letter. */
  predicate IsDigitOf(c: char, d: nat) {
    d < 16 && (c == "0123456789abcdef"[d] || c == "0123456789ABCDEF"[d])
  }

  /** A numeral of n, perhaps with zeros in front. */
  predicate IsNumeral(w: string, n: nat, base: nat)
    requires IsBase(base)
    decreases |w|
  {
    |w| > 0 && IsDigitOf(w[|w| - 1], n % base) &&
    if |w| == 1 then n < base else IsNumeral(w[..|w| - 1], n / base, base)
  }

  /** What stands in front of the numerals of each base. */
  predicate IsPrefix(p: string, base: nat) {
    || (base == 16 && (p == "0x" || p == "0X")) || (base == 2 && (p == "0b" || p == "0B"))
    || (base == 8 && (p == "0o" || p == "0O")) || (base == 10 && p == "")
  }

  /** The number in 32 bits, with sign. */
  predicate IsInt32Of(v: int, n: nat) {
    -0x8000_0000 <= v < 0x8000_0000 && (v - n) % 0x1_0000_0000 == 0
  }

  lemma DigitIs(d: nat)
    requires d < 16
    ensures IsDigitOf(Digit(d), d)
  {
  }

  lemma {:induction false} NumeralIs(n: nat, base: nat)
    requires IsBase(base)
    ensures IsNumeral(Numeral(n, base), n, base)
  {
    hide IsDigitOf, Digit;
    DivMod(n, base);
    DigitIs(n % base);
    if n >= base {
      NumeralIs(n / base, base);
      assert Numeral(n, base)[..|Numeral(n, base)| - 1] == Numeral(n / base, base);
    }
  }

  // ----- reading a number

  lemma DigitReads(c: char, d: nat)
    requires IsDigitOf(c, d)
    ensures CharToNumeral(c) == d && (d < 10 ==> IsDigit(c))
  {
  }

  lemma WrapIs(n: nat)
    ensures IsInt32Of(Wrap32(n), n) && (n < 0x8000_0000 ==> Wrap32(n) == n)
  {
  }

  lemma WrapSame(x: int, y: int)
    requires (x - y) % 0x1_0000_0000 == 0
    ensures Wrap32(x) == Wrap32(y)
  {
  }

  /** Wrapping around on the way makes no difference. */
  lemma WrapStep(q: nat, base: nat, d: nat)
    requires IsBase(base)
    ensures Wrap32(Wrap32(Wrap32(q) * base) + d) == Wrap32(q * base + d)
  {
    hide Wrap32;
    WrapIs(q);
    var q' := Wrap32(q);
    MultipleTimes(q' - q, base);
    Distributes(q', q, base);
    WrapSame(q' * base, q * base);
    WrapIs(q * base);
    WrapSame(Wrap32(q * base) + d, q * base + d);
  }

  lemma Distributes(x: int, y: int, z: int)
    ensures (x - y) * z == x * z - y * z
  {
  }

  lemma MultipleTimes(x: int, base: nat)
    requires x % 0x1_0000_0000 == 0 && IsBase(base)
    ensures x * base % 0x1_0000_0000 == 0
  {
  }

  /** In every base, the digits of n bring the accumulator to n, in 32 bits. */
  lemma {:induction false} NumeralReads(s: string, i: nat, w: string, n: nat, base: nat)
    requires IsBase(base) && IsNumeral(w, n, base) && HasPrefix(s, i, w)
    ensures Digits(s, i, i, base, 0) == Digits(s, i, i + |w|, base, Wrap32(n))
    decreases |w|
  {
    hide HasPrefix, CharToNumeral, IsDigitOf, Wrap32;
    var q, d, last := n / base, n % base, |w| - 1;
    DivMod(n, base);
    DigitReads(w[last], d);
    PrefixAt(s, i, w, last);
    if last == 0 {
      WrapStep(0, base, d);
      Wrap0();
    } else {
      assert w == w[..last] + w[last..];
      PrefixFront(s, i, w[..last], w[last..]);
      hide Digits;
      NumeralReads(s, i, w[..last], q, base);
      WrapStep(q, base, d);
      DigitStep(s, i, i + last, base, Wrap32(q), d);
    }
  }

  lemma Wrap0()
    ensures Wrap32(0) == 0
  {
  }

  lemma DigitStep(s: string, start: nat, i: nat, base: nat, tmp: int, d: nat)
    requires CharToNumeral(At(s, i)) == d < base
    ensures Digits(s, start, i, base, tmp) == Digits(s, start, i + 1, base, Wrap32(Wrap32(tmp * base) + d))
  {
    hide CharToNumeral, Wrap32;
  }

  /** The prefixes are tried in order, and no two of them match. */
  lemma {:induction false} FindPrefix(s: string, i: nat, p: string, base: nat, j: nat)
    requires j <= |PREFIXES| && |p| == 2 && HasPrefix(s, i, p) && (p, base) in PREFIXES[j..]
    ensures IntFrom(s, i, j) == Numeric(s, i + 2, base)
    decreases |PREFIXES| - j
  {
    hide Digits;
    if PREFIXES[j] != (p, base) {
      assert PREFIXES[j].0 != p;
      assert PREFIXES[j..] == [PREFIXES[j]] + PREFIXES[j + 1..];
      FindPrefix(s, i, p, base, j + 1);
    }
  }

  lemma PrefixListed(p: string, base: nat)
    requires IsPrefix(p, base)
    ensures p == "" || (|p| == 2 && (p, base) in PREFIXES[0..])
  {
    assert PREFIXES[0..] == PREFIXES;
    assert PREFIXES == [("0x", 16), ("0X", 16), ("0b", 2), ("0B", 2), ("0o", 8), ("0O", 8)];
    assert PREFIXES[0] == ("0x", 16) && PREFIXES[1] == ("0X", 16) && PREFIXES[2] == ("0b", 2);
    assert PREFIXES[3] == ("0B", 2) && PREFIXES[4] == ("0o", 8) && PREFIXES[5] == ("0O", 8);
  }

  /** A numeral of any length, in either case of letter, behind the prefix of its base and in front of
      anything but a letter or digit, is read as its number, in 32 bits. */
  lemma PrefixedReads(s: string, i: nat, p: string, w: string, n: nat, base: nat)
    requires IsPrefix(p, base) && IsNumeral(w, n, base) && HasPrefix(s, i, p + w)
    requires CharToNumeral(At(s, i + |p| + |w|)) < 0
    ensures Int(s, i).Found? && Int(s, i).next == i + |p| + |w| && IsInt32Of(Int(s, i).item, n)
  {
    hide IntFrom, Digits, IsInt32Of, IsNumeral, Wrap32;
    var start, end := i + |p|, i + |p| + |w|;
    PrefixBehind(s, i, p, w);
    NumeralLong(w, n, base);
    NumeralReads(s, start, w, n, base);
    NumberEnds(s, start, end, base, Wrap32(n));
    WrapIs(n);
    PrefixListed(p, base);
    if p == "" {
      NoPrefixAtDecimal(s, i, w, n);
    } else {
      PrefixFront(s, i, p, w);
      FindPrefix(s, i, p, base, 0);
    }
  }

  /** A numeral with a letter, or a digit too large for its base, right behind it is no number, and neither is
      a prefix with no digit behind it. */
  lemma BadNumeral(s: string, i: nat, p: string, w: string, n: nat, base: nat)
    requires IsPrefix(p, base) && HasPrefix(s, i, p + w) && p != ""
    requires if w == "" then !(0 <= CharToNumeral(At(s, i + 2)) < base)
             else IsNumeral(w, n, base) && CharToNumeral(At(s, i + 2 + |w|)) >= base
    ensures Int(s, i).NotFound?
  {
    hide IntFrom, Digits, IsNumeral, Wrap32;
    var start, end := i + |p|, i + |p| + |w|;
    PrefixListed(p, base);
    PrefixFront(s, i, p, w);
    FindPrefix(s, i, p, base, 0);
    if w == "" {
      NoDigit(s, start, base);
    } else {
      PrefixBehind(s, i, p, w);
      NumeralReads(s, start, w, n, base);
      LargeDigit(s, start, end, base, Wrap32(n));
    }
  }

  lemma NoDigit(s: string, start: nat, base: nat)
    requires !(0 <= CharToNumeral(At(s, start)) < base)
    ensures Digits(s, start, start, base, 0).NotFound?
  {
  }

  lemma LargeDigit(s: string, start: nat, i: nat, base: nat, v: int)
    requires CharToNumeral(At(s, i)) >= base
    ensures Digits(s, start, i, base, v).NotFound?
  {
  }

  lemma NumeralLong(w: string, n: nat, base: nat)
    requires IsBase(base) && IsNumeral(w, n, base)
    ensures |w| > 0
  {
  }

  lemma NumberEnds(s: string, start: nat, i: nat, base: nat, v: int)
    requires CharToNumeral(At(s, i)) < 0 && start < i
    ensures Digits(s, start, i, base, v) == Found(v, i)
  {
  }

  lemma PrefixBehind(s: string, i: nat, p: string, w: string)
    requires HasPrefix(s, i, p + w)
    ensures HasPrefix(s, i + |p|, w)
  {
    assert (p + w)[|p|..] == w;
    assert s[i + |p|..i + |p| + |w|] == s[i..i + |p + w|][|p|..];
  }

  lemma {:induction false} DecimalChars(w: string, n: nat)
    requires IsNumeral(w, n, 10)
    ensures forall k :: 0 <= k < |w| ==> IsDigit(w[k])
    decreases |w|
  {
    var last := |w| - 1;
    DigitReads(w[last], n % 10);
    if last > 0 {
      DecimalChars(w[..last], n / 10);
      assert forall k :: 0 <= k < last ==> w[k] == w[..last][k];
    }
  }

  lemma NoPrefixAtDecimal(s: string, i: nat, w: string, n: nat)
    requires IsNumeral(w, n, 10) && HasPrefix(s, i, w) && CharToNumeral(At(s, i + |w|)) < 0
    ensures IntFrom(s, i, 0) == Numeric(s, i, 10)
  {
    hide IntFrom, Digits;
    DecimalChars(w, n);
    if |w| > 1 {
      PrefixAt(s, i, w, 1);
    }
    NoPrefix(s, i, 0);
  }

  /** A digit, or what is neither digit nor letter, behind the first character rules out a base prefix. */
  lemma {:induction false} NoPrefix(s: string, i: nat, k: nat)
    requires k <= |PREFIXES|
    requires IsDigit(At(s, i + 1)) || CharToNumeral(At(s, i + 1)) < 0
    ensures IntFrom(s, i, k) == Numeric(s, i, 10)
    decreases |PREFIXES| - k
  {
    if k < |PREFIXES| {
      var p := PREFIXES[k].0;
      assert |p| == 2 && !IsDigit(p[1]) && CharToNumeral(p[1]) >= 0;
      if HasPrefix(s, i, p) {
        assert s[i + 1] == s[i..i + |p|][1];
      }
      NoPrefix(s, i, k + 1);
    }
  }

  /** So an expression that is such a number, between blanks, has its value. */
  lemma PrefixedEvaluates(env: Env, sem: Sem<int>, p: string, w: string, n: nat, base: nat)
    requires IsPrefix(p, base) && IsNumeral(w, n, base)
    ensures var r := ParseExp(env, sem, " " + p + w + " ");
            r.Ok? && IsInt32Of(r.value, n) && (n < 0x8000_0000 ==> r.value == n)
  {
    hide IntFrom, IsNumeral, IsInt32Of, OperatorFrom, CharLiteral, LongestSymbol;
    var s := " " + p + w + " ";
    assert s == " " + (p + w) + " ";
    assert HasPrefix(s, 1, p + w) && s[0] == ' ' && s[|s| - 1] == ' ';
    NumeralLong(w, n, base);
    PrefixedReads(s, 1, p, w, n, base);
    FirstDigit(p, w, n, base);
    assert s[1] == (p + w)[0];
    DigitIsNoSpace(s[1]);
    var v := Int(s, 1).item;
    Int32Small(v, n);
    var st := State([v], [], true, Done);
    assert Exec(env, sem, s, |s|, st) == st;
    assert Exec(env, sem, s, |s| - 1, st) == st;
    assert Lexer.Operand(env, s, 1) == Found(v, |s| - 1);
    assert [] + [v] == [v];
    assert Exec(env, sem, s, 1, EMPTY) == Exec(env, sem, s, |s| - 1, st);
    assert Exec(env, sem, s, 0, EMPTY) == st;
  }

  lemma Int32Small(v: int, n: nat)
    ensures IsInt32Of(v, n) && n < 0x8000_0000 ==> v == n
  {
  }

  /** Literals start with a digit. */
  lemma FirstDigit(p: string, w: string, n: nat, base: nat)
    requires IsPrefix(p, base) && IsNumeral(w, n, base)
    ensures |p + w| > 0 && IsDigit((p + w)[0])
  {
    if p == "" {
      DecimalChars(w, n);
      assert p + w == w;
    }
  }

  lemma {:induction false} DecimalDigits(n: nat)
    ensures |Decimal(n)| > 0 && forall k :: 0 <= k < |Decimal(n)| ==> IsDigit(Decimal(n)[k])
  {
    NumeralIs(n, 10);
    DecimalChars(Decimal(n), n);
  }

  /** A number followed by a space is read as that number. */
  lemma NumberReads(s: string, i: nat, n: nat)
    requires HasPrefix(s, i, Decimal(n) + " ") && n < 0x8000_0000
    ensures Int(s, i) == Found(n, i + |Decimal(n)|)
  {
    hide IntFrom, Numeral, IsNumeral;
    var w := Decimal(n);
    NumeralIs(n, 10);
    PrefixFront(s, i, w, " ");
    PrefixAt(s, i, w + " ", |w|);
    assert "" + w == w;
    PrefixedReads(s, i, "", w, n, 10);
    Int32Small(Int(s, i).item, n);
  }

  // ----- blanks

  /** Space, tabulators, line and form feed, and carriage return. */
  const BLANKS: set<int> := {9, 10, 11, 12, 13, 32}

  /** Blanks are skipped, wherever they are, and any other character at which no token stands breaks the text
      off. */
  lemma BlanksSkipped(env: Env, s: string, i: nat, lastNumber: bool)
    requires i < |s| && s[i] != '\0'
    ensures s[i] as int in BLANKS ==> Lex(env, s, i, lastNumber) == Lex(env, s, i + 1, lastNumber)
    ensures s[i] as int !in BLANKS &&
            Lexer.Operand(env, s, i).NotFound? && Lexer.Operator(s, i, !lastNumber).NotFound? ==>
              Lex(env, s, i, lastNumber).None?
  {
    hide Lexer.Operand, OperatorFrom;
  }

  // ----- reading a character

  /** What the escapes stand for. */
  const ESCAPES: seq<(char, int)> := [
    ('a', 7), ('b', 8), ('t', 9), ('n', 10), ('v', 11), ('f', 12), ('r', 13), ('\"', 34), ('\'', 39), ('\\', 92)
  ]

  /** A character in quotes is its code, and an escaped one what the escape stands for. */
  lemma CharactersRead(scan: EscapeScanner, s: string, i: nat, c: char, k: nat)
    requires k < |ESCAPES|
    ensures c != '\\' && c != '\0' && HasPrefix(s, i, ['\'', c, '\'']) ==>
              CharLiteral(scan, s, i) == Found(c as int, i + 3)
    ensures HasPrefix(s, i, ['\'', '\\', ESCAPES[k].0, '\'']) ==>
              CharLiteral(scan, s, i) == Found(ESCAPES[k].1, i + 4)
  {
    var plain, escaped := ['\'', c, '\''], ['\'', '\\', ESCAPES[k].0, '\''];
    if HasPrefix(s, i, plain) {
      assert s[i] == s[i..i + 3][0] && s[i + 1] == s[i..i + 3][1] && s[i + 2] == s[i..i + 3][2];
    }
    if HasPrefix(s, i, escaped) {
      assert s[i] == s[i..i + 4][0] && s[i + 1] == s[i..i + 4][1];
      assert s[i + 2] == s[i..i + 4][2] && s[i + 3] == s[i..i + 4][3];
    }
  }

  // ----- reading an operator

  function First(op: Op): char {
    match op
    case OpenParen => '('
    case ClosedParen => ')'
    case UPlus | Add => '+'
    case Negate | Sub => '-'
    case Mul => '*'
    case Div => '/'
    case Mod => '%'
    case ShiftRight | Ge | Gt => '>'
    case ShiftLeft | Le | Lt => '<'
    case Eq => '='
    case Ne | Not => '!'
    case BitNot => '~'
    case BitXor => '^'
    case Or | BitOr => '|'
    case And | BitAnd => '&'
  }

  /** The second character of the operator, or the space that is written behind it. */
  function Second(op: Op): char {
    match op
    case ShiftRight => '>'
    case ShiftLeft => '<'
    case Ge | Le | Eq | Ne => '='
    case Or => '|'
    case And => '&'
    case _ => ' '
  }

  function Index(op: Op): (k: nat)
    ensures k < |OPERATORS| && OPERATORS[k] == op
  {
    match op
    case OpenParen => 0
    case ClosedParen => 1
    case UPlus => 2
    case Negate => 3
    case Mul => 4
    case Div => 5
    case Mod => 6
    case Add => 7
    case Sub => 8
    case ShiftRight => 9
    case Ge => 10
    case Gt => 11
    case ShiftLeft => 12
    case Le => 13
    case Lt => 14
    case Eq => 15
    case Ne => 16
    case Not => 17
    case BitNot => 18
    case BitXor => 19
    case Or => 20
    case BitOr => 21
    case And => 22
    case BitAnd => 23
  }

  lemma StrChars(op: Op)
    ensures Str(op) == if Second(op) == ' ' then [First(op)] else [First(op), Second(op)]
  {
  }

  lemma Written(s: string, i: nat, op: Op)
    requires HasPrefix(s, i, Str(op) + " ")
    ensures At(s, i) == First(op) && At(s, i + 1) == Second(op)
  {
    StrChars(op);
    var w := Str(op) + " ";
    assert s[i] == s[i..i + |w|][0] && s[i + 1] == s[i..i + |w|][1];
  }

  /** An entry that comes earlier in the table and may stand in the same places does not match. */
  lemma EarlierDiffers(op: Op, other: Op)
    requires Index(other) < Index(op) && (Args(other) == 1) == (Args(op) == 1)
    ensures First(other) != First(op) || (Second(other) != ' ' && Second(other) != Second(op))
  {
  }

  lemma NoEarlierMatch(s: string, i: nat, op: Op, k: nat)
    requires HasPrefix(s, i, Str(op) + " ") && k < Index(op)
    requires Index(OPERATORS[k]) == k
    ensures !OperatorHere(s, i, Args(op) == 1, k)
  {
    var other := OPERATORS[k];
    if OperatorHere(s, i, Args(op) == 1, k) {
      var w := Str(other);
      StrChars(other);
      Written(s, i, op);
      PrefixHead(s, i, w);
      if |w| == 2 {
        assert s[i + 1] == s[i..i + |w|][1];
      }
      EarlierDiffers(op, other);
    }
  }

  lemma TableDistinct(k: nat)
    requires k < |OPERATORS|
    ensures Index(OPERATORS[k]) == k
  {
  }

  lemma PrefixFront(s: string, i: nat, w: string, w': string)
    requires HasPrefix(s, i, w + w')
    ensures HasPrefix(s, i, w)
  {
    assert s[i..i + |w|] == s[i..i + |w + w'|][..|w|];
  }

  lemma PrefixAt(s: string, i: nat, w: string, k: nat)
    requires HasPrefix(s, i, w) && k < |w|
    ensures At(s, i + k) == w[k]
  {
    assert s[i + k] == s[i..i + |w|][k];
  }

  /** Whatever stands there is found. */
  lemma {:induction false} OperatorReads(s: string, i: nat, op: Op, k: nat)
    requires HasPrefix(s, i, Str(op) + " ") && k <= Index(op)
    ensures OperatorFrom(s, i, Args(op) == 1, k) == Found(op, i + |Str(op)|)
    decreases Index(op) - k
  {
    hide HasPrefix, Str, Index;
    if k == Index(op) {
      PrefixFront(s, i, Str(op), " ");
    } else {
      TableDistinct(k);
      NoEarlierMatch(s, i, op, k);
      OperatorReads(s, i, op, k + 1);
    }
  }

  lemma {:induction false} FirstHere(s: string, i: nat, unary: bool, k: nat, j: nat)
    requires k <= j < |OPERATORS| && OperatorHere(s, i, unary, j)
    ensures OperatorFrom(s, i, unary, k).Found? && Index(OperatorFrom(s, i, unary, k).item) <= j
    decreases j - k
  {
    hide OperatorHere, Str;
    TableDistinct(k);
    if k < j && !OperatorHere(s, i, unary, k) {
      FirstHere(s, i, unary, k + 1, j);
    }
  }

  /** Of two operators that start alike and may stand in the same places, the longer one comes first. */
  lemma LongerFirst(op: Op, other: Op)
    requires Index(op) < Index(other) && (Args(other) == 1) == (Args(op) == 1) && First(op) == First(other)
    ensures |Str(other)| <= |Str(op)|
  {
  }

  lemma StartsAs(s: string, i: nat, op: Op)
    requires HasPrefix(s, i, Str(op))
    ensures At(s, i) == First(op)
  {
    StrChars(op);
    PrefixAt(s, i, Str(op), 0);
  }

  /** The operator that is read is the longest one that stands there and may. */
  lemma LongestOperator(s: string, i: nat, op: Op)
    requires HasPrefix(s, i, Str(op))
    ensures var f := Lexer.Operator(s, i, Args(op) == 1);
            f.Found? && (Args(f.item) == 1) == (Args(op) == 1) && |Str(op)| <= |Str(f.item)|
  {
    hide Str, Index, HasPrefix, OperatorFrom, First;
    var f := Lexer.Operator(s, i, Args(op) == 1);
    FirstHere(s, i, Args(op) == 1, 0, Index(op));
    StartsAs(s, i, op);
    StartsAs(s, i, f.item);
    if Index(f.item) < Index(op) {
      LongerFirst(f.item, op);
    } else {
      SameIndex(f.item, op);
    }
  }

  lemma SameIndex(op: Op, other: Op)
    ensures Index(op) == Index(other) ==> op == other
  {
  }

  // ----- reading a printed sequence

  /** Where an operator stands, no operand does, if names are identifiers. */
  lemma NoOperand(env: Env, s: string, i: nat, op: Op)
    requires HasPrefix(s, i, Str(op) + " ")
    requires forall k :: 0 <= k < |env.symbols| ==> IsIdentifier(env.symbols[k].name)
    ensures Lexer.Operand(env, s, i).NotFound?
  {
    Written(s, i, op);
    NoIntAtOperator(s, i, op, 0);
    NoSymbolAtOperator(env.symbols, |env.symbols|, s, i, op);
  }

  lemma {:induction false} NoIntAtOperator(s: string, i: nat, op: Op, k: nat)
    requires At(s, i) == First(op) && k <= |PREFIXES|
    ensures IntFrom(s, i, k).NotFound?
    decreases |PREFIXES| - k
  {
    if k < |PREFIXES| {
      assert PREFIXES[k].0[0] == '0';
      PrefixHead(s, i, PREFIXES[k].0);
      NoIntAtOperator(s, i, op, k + 1);
    }
  }

  lemma {:induction false} NoSymbolAtOperator(symbols: seq<Symbol>, n: nat, s: string, i: nat, op: Op)
    requires At(s, i) == First(op) && n <= |symbols|
    requires forall k :: 0 <= k < |symbols| ==> IsIdentifier(symbols[k].name)
    ensures LongestSymbol(symbols, n, s, i).NotFound?
  {
    if n > 0 {
      NoSymbolAtOperator(symbols, n - 1, s, i, op);
      PrefixHead(s, i, symbols[n - 1].name);
    }
  }

  lemma DigitIsNoSpace(c: char)
    ensures IsDigit(c) ==> !IsSpace(c) && c != '\0'
  {
  }

  lemma FirstIsNoSpace(op: Op)
    ensures !IsSpace(First(op)) && First(op) != '\0'
  {
  }

  lemma StartsWith(s: string, i: nat, w: string)
    requires i + |w| <= |s| && s[i..i + |w|] == w
    ensures HasPrefix(s, i, w)
  {
  }

  lemma {:induction false} PrintReads(env: Env, s: string, i: nat, ts: seq<Token<int>>, lastNumber: bool)
    requires forall k :: 0 <= k < |env.symbols| ==> IsIdentifier(env.symbols[k].name)
    requires Alternates(ts, lastNumber) && Writable(ts)
    requires i <= |s| && s[i..] == Print(ts)
    ensures Lex(env, s, i, lastNumber) == Some(ts)
    decreases |ts|
  {
    hide HasPrefix, Str, Decimal, OperatorFrom, IntFrom, LongestSymbol, CharLiteral, IsIdentifier, IsDigit, Priority;
    if ts == [] {
      assert |s[i..]| == 0;
    } else {
      var t, rest := ts[0], ts[1..];
      var w := Write(t) + " ";
      var next := i + |w|;
      assert Print(ts) == w + Print(rest);
      assert s[next..] == s[i..][|w|..] == Print(rest);
      assert s[i..next] == s[i..][..|w|] == w;
      StartsWith(s, i, w);
      PrefixAt(s, i, w, |w| - 1);
      PrintReads(env, s, next, rest, t.Num? || t.op == ClosedParen);
      assert Lex(env, s, next - 1, t.Num? || t.op == ClosedParen) == Some(rest);
      assert ts == [t] + rest;
      TokenReads(env, s, i, t, lastNumber);
    }
  }

  /** One printed token in front of whatever follows. */
  lemma TokenReads(env: Env, s: string, i: nat, t: Token<int>, lastNumber: bool)
    requires forall k :: 0 <= k < |env.symbols| ==> IsIdentifier(env.symbols[k].name)
    requires Due(t, lastNumber) && (t.Num? ==> 0 <= t.v < 0x8000_0000)
    requires HasPrefix(s, i, Write(t) + " ")
    ensures var rest := Lex(env, s, i + |Write(t)|, t.Num? || t.op == ClosedParen);
            Lex(env, s, i, lastNumber) == if rest.None? then None else Some([t] + rest.value)
  {
    hide HasPrefix, Str, Decimal, OperatorFrom, IntFrom, LongestSymbol, CharLiteral, IsIdentifier, IsDigit, Priority;
    if t.Num? {
      NumberReads(s, i, t.v);
      DecimalDigits(t.v);
      PrefixAt(s, i, Write(t) + " ", 0);
      DigitIsNoSpace(At(s, i));
    } else {
      Written(s, i, t.op);
      FirstIsNoSpace(t.op);
      OperatorReads(s, i, t.op, 0);
      if !lastNumber {
        NoOperand(env, s, i, t.op);
      }
    }
  }

  /** Whatever the symbol table, the printed text of every well-formed tree over literals evaluates
      to the value of the tree. */
  lemma PrintedParses(env: Env, sem: Sem<int>, e: Expr<int>)
    requires WellFormed(e) && Writable(Yield(e))
    requires forall k :: 0 <= k < |env.symbols| ==> IsIdentifier(env.symbols[k].name)
    ensures ParseExp(env, sem, Print(Yield(e))) == Ok(Eval(sem, e))
  {
    var s := Print(Yield(e));
    WellFormedReadable(e);
    YieldAlternates(e, []);
    assert Yield(e) + [] == Yield(e);
    assert s[0..] == s;
    PrintReads(env, s, 0, Yield(e), false);
    ParseExpIsParse(env, sem, s);
    ParseCorrect(sem, e);
  }

  /** So in the text 1 + - - 2 both numbers are negated, and the sum is of the negations. */
  lemma MinusMinusText(env: Env, sem: Sem<int>)
    requires forall k :: 0 <= k < |env.symbols| ==> IsIdentifier(env.symbols[k].name)
    ensures ParseExp(env, sem, "1 + - - 2 ") == Ok(sem.bin(Add, sem.un(Negate, 1), sem.un(Negate, 2)))
  {
    hide IsIdentifier, ParseExp, Parse;
    var ts := [Num(1), Oper(Add), Oper(Negate), Oper(Negate), Num(2)];
    var s := "1 + - - 2 ";
    assert Print(ts) == s;
    assert s[0..] == s;
    PrintReads(env, s, 0, ts, false);
    ParseExpIsParse(env, sem, s);
    MinusMinus(sem, 1, 2);
  }

  lemma {:induction false} WellFormedReadable<V>(e: Expr<V>)
    requires WellFormed(e)
    ensures Readable(e)
  {
    match e
    case Leaf(_) =>
    case Paren(x) => WellFormedReadable(x);
    case Unary(_, x) => WellFormedReadable(x);
    case Binary(_, l, r) =>
      WellFormedReadable(l);
      WellFormedReadable(r);
  }
}
