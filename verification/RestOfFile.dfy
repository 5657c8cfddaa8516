/**
 The first attempt at an operand, which is given the rest of the file. For operands that are expressions it
 comes to an attempt at the operand alone where nothing but blanks follows, and to none on all other lines.
 */
module RestOfFile {
  import opened Operators
  import opened Lexer
  import opened ShuntingYard
  import opened SymTab
  import opened Isa
  import opened Processor
  import opened Statuses
  import opened Words
  import opened Assembler
  import opened Encoding
  import opened AssemblerRun
  import opened AssemblerTheorems
  import opened SymbolsGrow
  import opened Files
  import opened FirstPhase
  import opened Definitions
  import Image
  import LabelParser

  // ----- what follows an operand

  /** Operands end at the end of the file, at the end of the line, or where a comment starts. */
  predicate Follows(rest: string) {
    rest == "" || rest[0] == '\n' || rest[0] == '#'
  }

  predicate AllBlank(s: string) {
    forall k :: 0 <= k < |s| ==> IsSpace(s[k])
  }

  /** Behind blanks, what follows is no operator: no line and no comment starts with one. */
  predicate Ends(rest: string) {
    Follows(rest) &&
    forall k :: 0 <= k < |rest| && AllBlank(rest[..k]) ==> rest[k] != '\0' && Operator(rest, k, false).NotFound?
  }

  /** A numeric escape with something behind it is read the same whatever comes later. */
  ghost predicate Local(scan: EscapeScanner) {
    forall s: string, rest: string, i: nat, hex: bool ::
      scan(s, i, hex).Some? && i + scan(s, i, hex).value.1 < |s| ==> scan(s + rest, i, hex) == scan(s, i, hex)
  }

  // ----- tokens of the operand

  lemma PrefixThrough(s: string, rest: string, i: nat, w: string)
    requires i < |s| < i + |w| && HasPrefix(s + rest, i, w)
    ensures rest != "" && rest[0] in w
  {
    assert w[|s| - i] == (s + rest)[i..i + |w|][|s| - i] == rest[0];
  }

  lemma PrefixBefore(s: string, rest: string, i: nat, w: string)
    requires i < |s| && Follows(rest) && '\n' !in w && '#' !in w
    ensures HasPrefix(s + rest, i, w) == HasPrefix(s, i, w)
  {
    if i + |w| <= |s| {
      assert (s + rest)[i..i + |w|] == s[i..i + |w|];
    } else if HasPrefix(s + rest, i, w) {
      PrefixThrough(s, rest, i, w);
    }
  }

  lemma PlainStrings(op: Op)
    ensures '\n' !in Str(op) && '#' !in Str(op)
  {
  }

  lemma {:induction false} OperatorBefore(s: string, rest: string, i: nat, unary: bool, k: nat)
    requires i < |s| && Follows(rest) && k <= |OPERATORS|
    ensures OperatorFrom(s + rest, i, unary, k) == OperatorFrom(s, i, unary, k)
    decreases |OPERATORS| - k
  {
    hide HasPrefix, Follows;
    if k < |OPERATORS| {
      PlainStrings(OPERATORS[k]);
      PrefixBefore(s, rest, i, Str(OPERATORS[k]));
      OperatorBefore(s, rest, i, unary, k + 1);
    }
  }

  lemma {:induction false} DigitsBefore(s: string, rest: string, start: nat, i: nat, base: nat, tmp: int)
    requires i <= |s| && Follows(rest)
    ensures Digits(s + rest, start, i, base, tmp) == Digits(s, start, i, base, tmp)
    ensures Digits(s, start, i, base, tmp).Found? ==> Digits(s, start, i, base, tmp).next <= |s|
    decreases |s| - i
  {
    hide Wrap32;
    var digit := CharToNumeral(At(s, i));
    if i < |s| {
      if 0 <= digit < base {
        DigitsBefore(s, rest, start, i + 1, base, Wrap32(Wrap32(tmp * base) + digit));
      }
    } else {
      assert CharToNumeral(At(s + rest, i)) == -1;
    }
  }

  lemma {:induction false} IntBefore(s: string, rest: string, i: nat, k: nat)
    requires i < |s| && Follows(rest) && k <= |PREFIXES|
    ensures IntFrom(s + rest, i, k) == IntFrom(s, i, k)
    ensures IntFrom(s, i, k).Found? ==> IntFrom(s, i, k).next <= |s|
    decreases |PREFIXES| - k
  {
    hide Digits, Follows;
    if k == |PREFIXES| {
      DigitsBefore(s, rest, i, i, 10, 0);
    } else {
      var (w, base) := PREFIXES[k];
      assert '\n' !in w && '#' !in w;
      PrefixBefore(s, rest, i, w);
      if HasPrefix(s, i, w) {
        DigitsBefore(s, rest, i + |w|, i + |w|, base, 0);
      } else {
        IntBefore(s, rest, i, k + 1);
      }
    }
  }

  lemma LiteralBefore(scan: EscapeScanner, s: string, rest: string, i: nat)
    requires Local(scan) && CharLiteral(scan, s, i).Found?
    ensures CharLiteral(scan, s + rest, i) == CharLiteral(scan, s, i) && CharLiteral(scan, s, i).next <= |s|
  {
    assert forall k :: 0 <= k < |s| ==> At(s + rest, k) == At(s, k);
    assert i + 1 < |s|;
  }

  lemma ConstantBefore(scan: EscapeScanner, s: string, rest: string, i: nat)
    requires Local(scan) && i < |s| && Follows(rest) && (Constant(scan, s, i).Found? || s[i] != '\'')
    ensures Constant(scan, s + rest, i) == Constant(scan, s, i)
    ensures Constant(scan, s, i).Found? ==> Constant(scan, s, i).next <= |s|
  {
    hide IntFrom, CharAt, Local, Follows;
    IntBefore(s, rest, i, 0);
    NoSymbols(s, i);
    NoSymbols(s + rest, i);
    if CharLiteral(scan, s, i).Found? {
      LiteralBefore(scan, s, rest, i);
    }
  }

  lemma {:induction false} WordBefore(s: string, rest: string, i: nat)
    requires i <= |s| && Follows(rest)
    ensures LabelParser.SkipWord(s + rest, i) == LabelParser.SkipWord(s, i) <= |s|
    decreases |s| - i
  {
    if i < |s| {
      if IsWordChar(s[i]) {
        WordBefore(s, rest, i + 1);
      }
    } else {
      assert !IsWordChar(At(s + rest, i));
    }
  }

  // ----- the operand, and then the rest

  function Joined(ws: seq<Token<Word>>, more: Option<seq<Token<Word>>>): Option<seq<Token<Word>>> {
    if more.None? then None else Some(ws + more.value)
  }

  lemma JoinedBehind(t: Token<Word>, ws: seq<Token<Word>>, more: Option<seq<Token<Word>>>, lastNumber: bool)
    ensures Behind(t, Joined(ws, more)) == Joined([t] + ws, more)
    ensures EndsOperand([t] + ws, lastNumber) == EndsOperand(ws, t.Num? || t.op == ClosedParen)
  {
    if more.Some? {
      assert [t] + (ws + more.value) == [t] + ws + more.value;
    }
  }

  lemma NoQuote(s: string, i: nat, unary: bool)
    requires Operator(s, i, unary).Found?
    ensures i < |s| && s[i] != '\''
  {
    var op := Operator(s, i, unary).item;
    assert s[i] == s[i..i + |Str(op)|][0] == Str(op)[0];
  }

  /** What follows is read where the operand ends. */
  lemma {:induction false} ReadOn(scan: EscapeScanner, s: string, rest: string, i: nat, lastNumber: bool)
    requires Local(scan) && i <= |s| && '\0' !in s && Follows(rest) && Read(scan, s, i, lastNumber).Some?
    ensures var ws := Read(scan, s, i, lastNumber).value;
            Read(scan, s + rest, i, lastNumber) == Joined(ws, Read(scan, s + rest, |s|, EndsOperand(ws, lastNumber)))
    decreases |s| - i, !lastNumber, 0
  {
    hide Local, Follows, Constant, OperatorFrom, StartsName, LabelParser.SkipWord, IsSpace, EndsOperand;
    if i == |s| {
      NothingRead(scan, s, lastNumber);
      NothingJoined(Read(scan, s + rest, |s|, lastNumber));
    } else if IsSpace(s[i]) {
      ReadOn(scan, s, rest, i + 1, lastNumber);
    } else if !lastNumber && Constant(scan, s, i).Found? {
      ConstantBefore(scan, s, rest, i);
      var f := Constant(scan, s, i);
      ReadBehind(scan, s, rest, Num(Literal(f.item)), f.next, lastNumber);
    } else if !lastNumber && StartsName(s[i]) {
      NameNoQuote(s[i]);
      ConstantBefore(scan, s, rest, i);
      WordBefore(s, rest, i);
      var end := LabelParser.SkipWord(s, i);
      assert (s + rest)[i..end] == s[i..end];
      ReadBehind(scan, s, rest, Num(Name(s[i..end])), end, lastNumber);
    } else {
      var operator := Operator(s, i, !lastNumber);
      NoQuote(s, i, !lastNumber);
      ConstantBefore(scan, s, rest, i);
      OperatorBefore(s, rest, i, !lastNumber, 0);
      ReadBehind(scan, s, rest, Oper(operator.item), operator.next, lastNumber);
    }
  }

  lemma NameNoQuote(c: char)
    ensures StartsName(c) ==> c != '\''
  {
  }

  lemma NothingRead(scan: EscapeScanner, s: string, lastNumber: bool)
    ensures Read(scan, s, |s|, lastNumber) == Some([]) && EndsOperand<Word>([], lastNumber) == lastNumber
  {
  }

  lemma NothingJoined(more: Option<seq<Token<Word>>>)
    ensures Joined([], more) == more
  {
    if more.Some? {
      assert [] + more.value == more.value;
    }
  }

  lemma ReadBehind(scan: EscapeScanner, s: string, rest: string, t: Token<Word>, next: nat, lastNumber: bool)
    requires Local(scan) && next <= |s| && '\0' !in s && Follows(rest)
    requires Read(scan, s, next, t.Num? || t.op == ClosedParen).Some?
    ensures var ws := [t] + Read(scan, s, next, t.Num? || t.op == ClosedParen).value;
            Behind(t, Read(scan, s + rest, next, t.Num? || t.op == ClosedParen)) ==
            Joined(ws, Read(scan, s + rest, |s|, EndsOperand(ws, lastNumber)))
    decreases |s| - next, !(t.Num? || t.op == ClosedParen), 1
  {
    var last := t.Num? || t.op == ClosedParen;
    ReadOn(scan, s, rest, next, last);
    var ws := Read(scan, s, next, last).value;
    JoinedBehind(t, ws, Read(scan, s + rest, |s|, EndsOperand(ws, last)), lastNumber);
  }

  lemma PrefixShifted(s: string, rest: string, k: nat, w: string)
    ensures HasPrefix(s + rest, |s| + k, w) == HasPrefix(rest, k, w)
  {
    if k + |w| <= |rest| {
      assert (s + rest)[|s| + k..|s| + k + |w|] == rest[k..k + |w|];
    }
  }

  lemma {:induction false} OperatorShifted(s: string, rest: string, k: nat, unary: bool, n: nat)
    requires n <= |OPERATORS|
    ensures OperatorFrom(s + rest, |s| + k, unary, n).NotFound? == OperatorFrom(rest, k, unary, n).NotFound?
    decreases |OPERATORS| - n
  {
    hide HasPrefix;
    if n < |OPERATORS| {
      PrefixShifted(s, rest, k, Str(OPERATORS[n]));
      OperatorShifted(s, rest, k, unary, n + 1);
    }
  }

  /** Behind a complete operand, blanks are skipped and anything else is not recognised. */
  lemma {:induction false} RestReads(scan: EscapeScanner, s: string, rest: string, k: nat)
    requires Ends(rest) && k <= |rest| && AllBlank(rest[..k])
    ensures Read(scan, s + rest, |s| + k, true) == if AllBlank(rest[k..]) then Some([]) else None
    decreases |rest| - k
  {
    hide OperatorFrom;
    if k < |rest| {
      assert (s + rest)[|s| + k] == rest[k];
      if IsSpace(rest[k]) {
        assert rest[..k + 1] == rest[..k] + [rest[k]] && rest[k..] == [rest[k]] + rest[k + 1..];
        RestReads(scan, s, rest, k + 1);
      } else {
        assert !IsSpace(rest[k..][0]);
        OperatorShifted(s, rest, k, false, 0);
      }
    }
  }

  lemma CompleteEnds(scan: EscapeScanner, text: string)
    requires IsExpression(scan, text)
    ensures Read(scan, text, 0, false).Some? && EndsOperand(Read(scan, text, 0, false).value, false)
  {
  }

  /** With the rest of the file behind it an expression reads the same if that is blank, and not at all
      otherwise. */
  lemma SeenReads(scan: EscapeScanner, text: string, rest: string)
    requires Local(scan) && IsExpression(scan, text) && '\0' !in text && Ends(rest)
    ensures Read(scan, text + rest, 0, false) == if AllBlank(rest) then Read(scan, text, 0, false) else None
  {
    hide Read, Local, IsExpression, EndsOperand;
    CompleteEnds(scan, text);
    ReadOn(scan, text, rest, 0, false);
    assert rest[..0] == [] && rest[0..] == rest;
    RestReads(scan, text, rest, 0);
    var ws := Read(scan, text, 0, false).value;
    assert ws + [] == ws;
  }

  /** So the first attempt succeeds if and only if the text alone has a value and only blanks follow, and
      then it gives that value. */
  lemma SeenExactly(env: Env, sem: Sem<int>, text: string, rest: string)
    requires Identifiers(env.symbols) && Local(env.scan)
    requires IsExpression(env.scan, text) && '\0' !in text && Ends(rest)
    ensures var alone, seen := ParseExp(env, sem, text), ParseExp(env, sem, text + rest);
            if alone.Ok? && AllBlank(rest) then seen == alone else seen.Error?
  {
    hide Read, Lex, ParseExp, Parse, Local, Identifiers, Ends, AllBound, Verdict;
    SeenReads(env.scan, text, rest);
    LexIsReading(env, text, 0, false);
    LexIsReading(env, text + rest, 0, false);
    ParseExpIsParse(env, sem, text);
    ParseExpIsParse(env, sem, text + rest);
    ValueExactly(env, sem, text);
    ValueExactly(env, sem, text + rest);
  }

  // ----- lines

  lemma AttemptIs(ctx: Context, st: Asm, fix: Fix, text: string, rest: string)
    requires Identifiers(st.symbols) && Local(ctx.scan)
    requires IsExpression(ctx.scan, text) && '\0' !in text && Ends(rest)
    ensures AddUnresolved(ctx, st, fix, text, Some(rest)) == AddUnresolved(ctx, st, fix, text, Tried(AllBlank(rest)))
  {
    hide ParseExp, Local, Identifiers, IsExpression, Ends, AllBlank, Bind, Bitwise;
    SeenExactly(Env(st.symbols, ctx.scan), ctx.sem, text, rest);
  }

  /** The operand of the line, if it has one, is an expression, and it ends where it should. */
  predicate WellCut(scan: EscapeScanner, item: Item, rest: string) {
    Ends(rest) && (FixOf(item).Some? ==> IsExpression(scan, FixOf(item).value.1) && '\0' !in FixOf(item).value.1)
  }

  lemma LineIs(ctx: Context, st: Asm, item: Item, rest: string)
    requires Parsed(item) && Identifiers(st.symbols) && Local(ctx.scan) && WellCut(ctx.scan, item, rest)
    ensures Line(ctx, st, item, Some(rest)) == Line(ctx, st, item, Tried(AllBlank(rest)))
  {
    hide AddUnresolved, Local, Identifiers, IsExpression, Ends, AllBlank, Opcode, EmitPair, EmitAll;
    if st.loc + Size(item) <= ROM_SIZE || IsDirect(item) {
      match item
      case Immediate(m, text) => AttemptIs(ctx, Emit(st, Opcode(m), 0), FixImm8, text, rest);
      case Relative(m, text) => AttemptIs(ctx, Emit(st, Opcode(m), 0), FixRelative, text, rest);
      case Memory(m, mode, text) =>
        Image.OpcodeOfMemory(m, mode);
        AttemptIs(ctx, Emit(st, Opcode(m) + ModeBits(mode), 0), FixImm4, text, rest);
      case LoadPair(_, text) => AttemptIs(ctx, st, FixPair, text, rest);
      case Rdja(text) => AttemptIs(ctx, st, FixReturn, text, rest);
      case Call(text) => AttemptIs(ctx, st, FixReturn, text, rest);
      case Goto(text) => AttemptIs(ctx, st, FixReturn, text, rest);
      case Define(name, text) => AttemptIs(ctx, st, FixDefine(name), text, rest);
      case Assert(text) => AttemptIs(ctx, st, FixAssert, text, rest);
      case Echo(text) => AttemptIs(ctx, st, FixEcho, text, rest);
      case _ =>
    }
  }

  // ----- programs

  ghost predicate AllWellCut(scan: EscapeScanner, items: seq<Item>, rests: seq<string>) {
    |rests| == |items| && forall k :: 0 <= k < |items| ==> WellCut(scan, items[k], rests[k])
  }

  /** The lines with nothing but blanks behind their operands; in a file that can only be the last line. */
  function BlankBehind(rests: seq<string>): set<nat> {
    set k: nat | k < |rests| && AllBlank(rests[k])
  }

  lemma {:induction false} ScanFileIs(ctx: Context, items: seq<Item>, rests: seq<string>, early: set<nat>)
    requires AllParsed(items) && NoRedefine(items) && Local(ctx.scan) && AllWellCut(ctx.scan, items, rests)
    requires forall k: nat :: k < |items| ==> (k in early <==> AllBlank(rests[k]))
    ensures ScanFile(ctx, items, rests) == Scan(ctx, items, early)
    decreases |items|
  {
    hide Line, NoRedefine, Local, WellCut, Identifiers, Parsed, AllBlank, Start;
    if items != [] {
      var n := |items| - 1;
      NoRedefineFront(items);
      ScanFileIs(ctx, items[..n], rests[..n], early);
      var r := Scan(ctx, items[..n], early);
      if r.Assembled? {
        ScanIdentifiers(ctx, items[..n], early);
        LineIs(ctx, r.st, items[n], rests[n]);
      }
    }
  }

  /** The assembler on a file whose operands are expressions, if the program redefines no name: it does what
      it would do if it tried operands alone at once where nothing but blanks follows, and nowhere else. So
      then it makes no difference to try the operands as seen, where that succeeds. */
  lemma FileAssembles(ctx: Context, items: seq<Item>, rests: seq<string>)
    requires AllParsed(items) && NoRedefine(items) && Local(ctx.scan) && AllWellCut(ctx.scan, items, rests)
    ensures AllParsed(AsSeen(ctx, items, rests))
    ensures AssembleFile(ctx, items, rests)
         == Assemble(ctx, AsSeen(ctx, items, rests), Successes(ctx, items, rests))
         == Assemble(ctx, items, BlankBehind(rests))
  {
    hide Scan, ScanFile, NoRedefine, Local, WellCut, AsSeen, Successes;
    FileIsProgram(ctx, items, rests);
    ScanFileIs(ctx, items, rests, BlankBehind(rests));
  }

  /** So a file whose first phase succeeds assembles if and only if its names are available in the order of
      the lines, where the first phase evaluates a definition on the last line only, and the values fit. */
  lemma FileAssemblesExactly(ctx: Context, items: seq<Item>, rests: seq<string>)
    requires AllParsed(items) && NoRedefine(items) && Local(ctx.scan) && AllWellCut(ctx.scan, items, rests)
    requires ScanFile(ctx, items, rests).Assembled?
    ensures var early := BlankBehind(rests);
            && Scan(ctx, items, early).Assembled?
            && (AssembleFile(ctx, items, rests).Assembled? <==>
                InOrder(ctx.scan, items, early) && OperandsFit(ctx, items, early))
  {
    hide Scan, ScanFile, NoRedefine, Local, WellCut, Assemble, AssembleFile;
    ScanFileIs(ctx, items, rests, BlankBehind(rests));
    FileAssembles(ctx, items, rests);
    AssemblesExactly(ctx, items, BlankBehind(rests));
  }

  // ----- sizes and locations

  lemma {:induction false} KnownIsLabel(scan: EscapeScanner, items: seq<Item>, early: set<nat>, name: string)
    requires name in Known(scan, items, early) && forall k: nat :: k < |items| ==> k !in early
    ensures name == "ISR" ||
            exists k: nat :: k < |items| && !items[k].Define? && DefName(items[k]) == Some(name)
    decreases |items|
  {
    hide Evaluable;
    if items != [] {
      var n := |items| - 1;
      if name in Known(scan, items[..n], early) {
        KnownIsLabel(scan, items[..n], early, name);
        if name != "ISR" {
          var k: nat :| k < n && !items[..n][k].Define? && DefName(items[..n][k]) == Some(name);
          assert items[k] == items[..n][k];
        }
      } else {
        assert DefName(items[n]) == Some(name);
      }
    }
  }

  lemma {:induction false} DefinedByLine(items: seq<Item>, name: string) returns (k: nat)
    requires name in Defined(items)
    ensures k < |items| && items[k].Define? && items[k].name == name
    decreases |items|
  {
    k := |items| - 1;
    if name in Defined(items[..k]) {
      k := DefinedByLine(items[..k], name);
    }
  }

  /** The text that a line needs a number for at once. */
  function AtOnce(item: Item): Option<string> {
    match item
    case Static(_, text) => Some(text)
    case MemLoc(text) => Some(text)
    case Loc(text) => Some(text)
    case _ => None
  }

  /** In a file with something behind every operand but the last, no size and no location can use a name that
      is defined by an expression, wherever and however that is: what is defined is not bound in time. */
  lemma SizesUseNoDefinitions(ctx: Context, items: seq<Item>, rests: seq<string>, k: nat)
    requires AllParsed(items) && NoRedefine(items) && Local(ctx.scan) && AllWellCut(ctx.scan, items, rests)
    requires forall j :: 0 <= j < |rests| - 1 ==> !AllBlank(rests[j])
    requires ScanFile(ctx, items, rests).Assembled? && k < |items| && AtOnce(items[k]).Some?
    ensures NamesIn(ctx.scan, AtOnce(items[k]).value) !! Defined(items)
  {
    hide Scan, ScanFile, Local, WellCut, Known, Evaluable, Value, NamesIn, IsExpression, AllBlank, Parsed, NoRedefine;
    var early := BlankBehind(rests);
    ScanFileIs(ctx, items, rests, early);
    ScansExactly(ctx, items, early);
    ScanExtends(ctx, items, early, k);
    assert GoesAt(ctx, items, early, k);
    var names := Known(ctx.scan, items[..k], early);
    EvaluableNames(ctx.scan, AtOnce(items[k]).value, names);
    forall name | name in names && name in Defined(items)
      ensures false
    {
      KnownIsLabel(ctx.scan, items[..k], early, name);
      var d := DefinedByLine(items, name);
      NoLabelDefined(items, k, d);
    }
  }

  lemma EvaluableNames(scan: EscapeScanner, text: string, names: set<string>)
    requires Evaluable(scan, text, names)
    ensures NamesIn(scan, text) <= names
  {
  }

  lemma NoLabelDefined(items: seq<Item>, n: nat, d: nat)
    requires NoRedefine(items) && n <= |items| && d < |items| && items[d].Define?
    ensures items[d].name != "ISR"
    ensures forall k: nat :: k < n && !items[..n][k].Define? ==> DefName(items[..n][k]) != Some(items[d].name)
  {
    assert DefName(items[d]) == Some(items[d].name);
  }
}
