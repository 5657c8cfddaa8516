/**
 What it does to programs that the first attempt at an operand is given the rest of the file.
 */
module RestExamples {
  import opened Operators
  import opened Lexer
  import opened ShuntingYard
  import opened SymTab
  import opened Isa
  import opened Processor
  import opened Statuses
  import opened Words
  import opened Names
  import opened Assembler
  import opened Encoding
  import opened AssemblerRun
  import opened Files
  import opened RestOfFile
  import EarlyLate
  import Printer
  import Definitions
  import LabelParser

  // ----- a comment behind the last line

  predicate StartsNoOperator(c: char) {
    c == '\n' || c == '@' || c == '#'
  }

  lemma StartsOtherwise(op: Op)
    ensures |Str(op)| > 0 && !StartsNoOperator(Str(op)[0])
  {
  }

  lemma {:induction false} NoOperatorAt(s: string, i: nat, unary: bool, k: nat)
    requires k <= |OPERATORS| && StartsNoOperator(At(s, i))
    ensures OperatorFrom(s, i, unary, k).NotFound?
    decreases |OPERATORS| - k
  {
    hide Str, StartsNoOperator;
    if k < |OPERATORS| {
      StartsOtherwise(OPERATORS[k]);
      PrefixHead(s, i, Str(OPERATORS[k]));
      NoOperatorAt(s, i, unary, k + 1);
    }
  }

  /** A line end and a directive behind it, and a comment. */
  lemma DirectiveEnds(rest: string)
    requires (|rest| > 1 && rest[0] == '\n' && rest[1] == '@') || (rest != "" && rest[0] == '#')
    ensures Ends(rest) && !AllBlank(rest)
  {
    hide OperatorFrom;
    forall k | 0 <= k < |rest| && AllBlank(rest[..k])
      ensures rest[k] != '\0' && Operator(rest, k, false).NotFound?
    {
      BlankFront(rest, k);
      NoOperatorAt(rest, k, false, 0);
    }
  }

  lemma BlankFront(s: string, k: nat)
    requires k <= |s| && AllBlank(s[..k])
    ensures forall j :: 0 <= j < k ==> IsSpace(s[j])
  {
    assert forall j :: 0 <= j < k ==> s[..k][j] == s[j];
  }

  lemma NothingEnds()
    ensures Ends("") && AllBlank("")
  {
  }

  lemma ForwardExpressions(scan: EscapeScanner)
    ensures IsExpression(scan, " b") && IsExpression(scan, " ISR")
  {
    hide Read, IsPadded;
    EarlyLate.Padded();
    PaddedReads(scan, " b", "b");
    PaddedReads(scan, " ISR", "ISR");
    Definitions.OneName("b");
    Definitions.OneName("ISR");
  }

  /** Definitions of a by b and of b by ISR assemble, but not if there is a comment behind the second one. */
  lemma CommentDecides(ctx: Context)
    requires Local(ctx.scan)
    ensures AllParsed(EarlyLate.FORWARD)
    ensures AssembleFile(ctx, EarlyLate.FORWARD, ["\n@define b ISR", ""]).Assembled?
    ensures AssembleFile(ctx, EarlyLate.FORWARD, ["\n@define b ISR#", "#"]) == Failed(NotResolved)
  {
    hide Assemble, AssembleFile, NoRedefine, Local, IsExpression, Ends, AllBlank;
    EarlyLate.ConverseFails(ctx);
    ForwardExpressions(ctx.scan);
    DirectiveEnds("\n@define b ISR");
    DirectiveEnds("\n@define b ISR#");
    DirectiveEnds("#");
    NothingEnds();
    FileAssembles(ctx, EarlyLate.FORWARD, ["\n@define b ISR", ""]);
    FileAssembles(ctx, EarlyLate.FORWARD, ["\n@define b ISR#", "#"]);
    assert BlankBehind(["\n@define b ISR", ""]) == {1};
    assert BlankBehind(["\n@define b ISR#", "#"]) == {};
  }

  // ----- an operand that runs on

  /** The operand of the second line is no expression, but the third line completes it. */
  const RUNNING_ON: seq<Item> := [Label("nop"), Immediate(Rdi, " 1 + "), Plain(Nop, false)]

  lemma OneReads(scan: EscapeScanner, s: string)
    requires HasPrefix(s, 0, " 1 + ")
    ensures Read(scan, s, 0, false)
         == Behind(Num(Literal(1)), Behind(Oper(Op.Add), Read(scan, s, 5, false)))
  {
    hide Digits, OperatorFrom, CharLiteral, LongestSymbol;
    var w := " 1 + ";
    assert |w| == 5;
    assert forall k :: 0 <= k < 5 ==> s[k] == s[0..5][k] == w[k];
    assert Printer.Decimal(1) == "1";
    assert s[1..3] == "1 " && s[3..5] == "+ ";
    Printer.NumberReads(s, 1, 1);
    Printer.OperatorReads(s, 3, Op.Add, 0);
    assert Constant(scan, s, 1) == Found(1, 2);
    assert Read(scan, s, 4, false) == Read(scan, s, 5, false);
    assert Read(scan, s, 3, true) == Behind(Oper(Op.Add), Read(scan, s, 4, false));
    assert Read(scan, s, 2, true) == Read(scan, s, 3, true);
    assert Read(scan, s, 1, false) == Behind(Num(Literal(1)), Read(scan, s, 2, true));
  }

  lemma NopReads(scan: EscapeScanner)
    ensures Read(scan, " 1 + \nnop", 5, false) == Some([Num(Name("nop"))])
  {
    hide Constant, OperatorFrom, LabelParser.SkipWord;
    var s, t := " 1 + \nnop", Num(Name("nop"));
    assert |s| == 9 && s[5] == '\n' && s[6] == 'n';
    NoConstant(scan, s, 6);
    assert IsWordChar(s[6]) && IsWordChar(s[7]) && IsWordChar(s[8]);
    LabelParser.SameEnd(s, 6, 9);
    assert s[6..9] == "nop";
    assert Read(scan, s, 9, true) == Some([]);
    assert Read(scan, s, 6, false) == Behind(t, Read(scan, s, 9, true));
    assert [t] + [] == [t];
    assert Read(scan, s, 5, false) == Read(scan, s, 6, false);
  }

  lemma RunsOnReads(scan: EscapeScanner)
    ensures Read(scan, " 1 + ", 0, false) == Some([Num(Literal(1)), Oper(Op.Add)])
    ensures Read(scan, " 1 + \nnop", 0, false) == Some([Num(Literal(1)), Oper(Op.Add), Num(Name("nop"))])
  {
    var one, plus: Token<Word> := Num(Literal(1)), Oper(Op.Add);
    var s, nop := " 1 + \nnop", Num(Name("nop"));
    assert " 1 + "[0..5] == " 1 + ";
    OneReads(scan, " 1 + ");
    assert Read(scan, " 1 + ", 5, false) == Some([]);
    assert [one] + ([plus] + []) == [one, plus];
    hide Read;
    assert s[0..5] == " 1 + ";
    OneReads(scan, s);
    NopReads(scan);
    assert [one] + ([plus] + [nop]) == [one, plus, nop];
  }

  lemma RunsOnVerdicts()
    ensures Verdict<Word>([Num(Literal(1)), Oper(Op.Add)]) == MissingValue
    ensures Verdict<Word>([Num(Literal(1)), Oper(Op.Add), Num(Name("nop"))]) == Done
    ensures NamesOf([Num(Literal(1)), Oper(Op.Add), Num(Name("nop"))]) == {"nop"}
  {
    var one: Token<Word> := Num(Literal(1));
    var ws: seq<Token<Word>> := [one, Oper(Op.Add), Num(Name("nop"))];
    assert ws[1..] == [Oper(Op.Add), Num(Name("nop"))] && ws[1..][1..] == [Num(Name("nop"))];
    assert [one, Oper(Op.Add)][1..] == [Oper(Op.Add)];
  }

  /** The first attempt joins the operand to the next line, so the file assembles; were the operand alone
      looked at, on whichever lines, the program would not. */
  lemma RunsOn(ctx: Context, early: set<nat>)
    ensures AllParsed(RUNNING_ON) && NoRedefine(RUNNING_ON) && !IsExpression(ctx.scan, " 1 + ")
    ensures AssembleFile(ctx, RUNNING_ON, ["\nrdi 1 + \nnop", "\nnop", ""]).Assembled?
    ensures AsSeen(ctx, RUNNING_ON, ["\nrdi 1 + \nnop", "\nnop", ""])[1] == Immediate(Rdi, " 1 + \nnop")
    ensures !Assemble(ctx, RUNNING_ON, early).Assembled?
  {
    hide Read, ParseExp, Blank, Verdict, NamesOf, Scan, AssembleFile, AsSeen,
         Definitions.OperandsFit, Definitions.Available;
    RunsOnReads(ctx.scan);
    RunsOnVerdicts();
    assert DefName(RUNNING_ON[1]) == None && DefName(RUNNING_ON[2]) == None;
    RunsOnAssembles(ctx);
    assert FixOf(RUNNING_ON[1]) == Some((FixImm8, " 1 + "));
    assert !Definitions.InOrder(ctx.scan, RUNNING_ON, early);
    if Scan(ctx, RUNNING_ON, early).Assembled? {
      Definitions.AssemblesExactly(ctx, RUNNING_ON, early);
    }
  }

  const NOP_BOUND: seq<Symbol> := [Symbol("ISR", ISR_ADDR), Symbol("nop", 0)]

  lemma JoinedValue(ctx: Context)
    ensures Value(ctx, NOP_BOUND, Seen(" 1 + ", "\nnop")).Ok?
  {
    hide Read, ParseExp, Verdict, NamesOf;
    RunsOnReads(ctx.scan);
    RunsOnVerdicts();
    assert " 1 + " + "\nnop" == " 1 + \nnop";
    assert IsBound(NOP_BOUND, "nop") by {
      LookupIsMembership(NOP_BOUND, "nop", 0);
      assert NOP_BOUND[1] == Symbol("nop", 0);
    }
    ValueExactly(Env(NOP_BOUND, ctx.scan), ctx.sem, " 1 + \nnop");
  }

  /** The second line needs no fixup. */
  lemma SecondLine(ctx: Context, st: Asm)
    requires st.symbols == NOP_BOUND && st.loc == 0 && st.unresolved == []
    ensures var r := Line(ctx, st, RUNNING_ON[1], Some("\nnop"));
            r.Assembled? && r.st.unresolved == [] && r.st.loc == 2
  {
    hide Value, Bitwise, Bind, Seen;
    JoinedValue(ctx);
  }

  lemma SecondAttempt(ctx: Context, st: Asm)
    requires st.symbols == NOP_BOUND && st.loc == 0
    ensures Attempt(ctx, st, RUNNING_ON[1], "\nnop")
  {
    hide Value, Seen;
    JoinedValue(ctx);
  }

  lemma RunsOnAssembles(ctx: Context)
    requires AllParsed(RUNNING_ON)
    ensures AssembleFile(ctx, RUNNING_ON, ["\nrdi 1 + \nnop", "\nnop", ""]).Assembled?
    ensures AsSeen(ctx, RUNNING_ON, ["\nrdi 1 + \nnop", "\nnop", ""])[1] == Immediate(Rdi, " 1 + \nnop")
  {
    hide Value, Blank, Bitwise, Attempt;
    var rests := ["\nrdi 1 + \nnop", "\nnop", ""];
    assert RUNNING_ON[..2][..1] == RUNNING_ON[..1] && RUNNING_ON[..1][..0] == [];
    assert rests[..2][..1] == rests[..1] && rests[..1][..0] == [];
    var st := Start().(symbols := NOP_BOUND);
    assert ScanFile(ctx, RUNNING_ON[..1], rests[..1]) == Assembled(st);
    SecondAttempt(ctx, st);
    assert Succeeds(ctx, RUNNING_ON, rests, 1);
    assert " 1 + " + "\nnop" == " 1 + \nnop";
    hide AddUnresolved;
    SecondLine(ctx, st);
    assert ScanFile(ctx, RUNNING_ON[..2], rests[..2]) == Line(ctx, st, RUNNING_ON[1], Some("\nnop"));
    assert ScanFile(ctx, RUNNING_ON, rests).st.unresolved == [];
  }

  // ----- a size by name

  const SIZED: seq<Item> := [Define("SIZE", " 16 "), Static("buf", " SIZE")]

  lemma SixteenReads(scan: EscapeScanner)
    ensures Read(scan, " 16 ", 0, false) == Some([Num(Literal(16))])
  {
    hide Digits, CharLiteral, LongestSymbol;
    var s := " 16 ";
    assert Printer.Decimal(1) == "1";
    assert Printer.Decimal(16) == Printer.Decimal(1) + [Printer.Digit(6)] == "16";
    assert s[1..4] == "16 ";
    Printer.NumberReads(s, 1, 16);
    assert Constant(scan, s, 1) == Found(16, 3);
    assert Read(scan, s, 4, true) == Some([]);
    assert Read(scan, s, 3, true) == Some([]);
    var t: Token<Word> := Num(Literal(16));
    assert [t] + [] == [t];
    assert Read(scan, s, 0, false) == Read(scan, s, 1, false) == Some([t]);
  }

  lemma SizePadded()
    ensures IsPadded(" SIZE", "SIZE")
  {
    assert StandsAt(" SIZE", "SIZE", 1);
  }

  lemma SizeExpressions(scan: EscapeScanner)
    ensures IsExpression(scan, " 16 ") && NamesIn(scan, " SIZE") == {"SIZE"}
  {
    hide Read, IsPadded;
    var t: Token<Word> := Num(Literal(16));
    SixteenReads(scan);
    assert [t][1..] == [];
    SizePadded();
    PaddedReads(scan, " SIZE", "SIZE");
    Definitions.OneName("SIZE");
  }

  lemma SizedLines()
    ensures AllParsed(SIZED) && NoRedefine(SIZED) && "SIZE" in Definitions.Defined(SIZED)
  {
    assert SIZED[..1] == [SIZED[0]] && SIZED[..1][..0] == [];
  }

  /** Defining SIZE as 16 and then allocating that much static memory fails. */
  lemma SizeByName(ctx: Context)
    requires Local(ctx.scan)
    ensures AllParsed(SIZED) && NoRedefine(SIZED)
    ensures AssembleFile(ctx, SIZED, ["\n@static buf SIZE", ""]).Failed?
  {
    hide ScanFile, Local, IsExpression, NamesIn, Ends, AllBlank, Parsed, ResolveAll;
    var rests := ["\n@static buf SIZE", ""];
    SizeExpressions(ctx.scan);
    DirectiveEnds(rests[0]);
    NothingEnds();
    SizedLines();
    if ScanFile(ctx, SIZED, rests).Assembled? {
      SizesUseNoDefinitions(ctx, SIZED, rests, 1);
    }
  }
}
