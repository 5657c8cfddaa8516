/**
 Where the two locations of the assembler stand: exactly what each line does to the place of the next line in
 the ROM and of the next allocation in the RAM, and how a program gets its handler to where handlers start.
 */
module Locations {
  import opened Lexer
  import opened ShuntingYard
  import opened Processor
  import opened Assembler
  import opened Encoding
  import opened AssemblerRun
  import opened AssemblerTheorems
  import opened Words
  import opened Names
  import opened SymbolsGrow
  import opened SourceMachine
  import opened Execution
  import opened ProgramRun
  import opened StaticMemory
  import opened Interrupts
  import opened InterruptLaws

  // ----- the location in the ROM

  /** What a line of a program that gets through the first phase needs a value for at once, that value at the
      end of the first phase. */
  lemma SameValueLater(ctx: Context, items: seq<Item>, early: set<nat>, k: nat, text: string)
    requires AllParsed(items) && NoRedefine(items) && Scan(ctx, items, early).Assembled? && k <= |items|
    requires Scan(ctx, items[..k], early).Assembled? ==> Value(ctx, Scan(ctx, items[..k], early).st.symbols, text).Ok?
    ensures Scan(ctx, items[..k], early).Assembled?
    ensures Value(ctx, Scan(ctx, items, early).st.symbols, text)
         == Value(ctx, Scan(ctx, items[..k], early).st.symbols, text)
  {
    hide Scan, NoRedefine, Value, Extends;
    ScanExtends(ctx, items, early, k);
    ValueMonotone(ctx, Scan(ctx, items[..k], early).st.symbols, Scan(ctx, items, early).st.symbols, text);
  }

  /** One more line. */
  lemma LineAt(ctx: Context, items: seq<Item>, early: set<nat>, k: nat)
    requires AllParsed(items) && NoRedefine(items) && Scan(ctx, items, early).Assembled? && k < |items|
    ensures var r, r' := Scan(ctx, items[..k], early), Scan(ctx, items[..k + 1], early);
            && r.Assembled? && r'.Assembled? && Line(ctx, r.st, items[k], Tried(k in early)) == r' && Legal(items[k])
  {
    hide Line, NoRedefine, Extends, Legal, Parsed;
    ScanExtends(ctx, items, early, k);
    ScanExtends(ctx, items, early, k + 1);
    assert items[..k + 1][..k] == items[..k];
    AcceptedIsLegal(ctx, Scan(ctx, items[..k], early).st, items[k], k in early);
  }

  lemma PlacesAt(ctx: Context, items: seq<Item>, early: set<nat>, k: nat)
    requires AllParsed(items) && NoRedefine(items) && Scan(ctx, items, early).Assembled? && k <= |items|
    ensures Scan(ctx, items[..k], early).Assembled?
    ensures (Addrs(ctx, items, early) + [Scan(ctx, items, early).st.loc])[k] == Scan(ctx, items[..k], early).st.loc
  {
    hide Scan, NoRedefine, Extends, Addrs;
    ScanExtends(ctx, items, early, k);
    if k < |items| {
      AddrIs(ctx, items, early, k);
    } else {
      assert items[..k] == items;
    }
  }

  /** Behind @loc the next line stands at the value of its text. */
  lemma LocMoves(ctx: Context, items: seq<Item>, early: set<nat>, k: nat)
    requires AllParsed(items) && NoRedefine(items) && Scan(ctx, items, early).Assembled?
    requires k < |items| && items[k].Loc?
    ensures var addrs := Addrs(ctx, items, early) + [Scan(ctx, items, early).st.loc];
            Value(ctx, Scan(ctx, items, early).st.symbols, items[k].text) == Ok(addrs[k + 1])
  {
    hide Scan, NoRedefine, Value, Addrs;
    LineAt(ctx, items, early, k);
    PlacesAt(ctx, items, early, k + 1);
    SameValueLater(ctx, items, early, k, items[k].text);
  }

  // ----- the location in the RAM

  /** Where the next allocation would start when line k is reached. */
  ghost function RamAt(ctx: Context, items: seq<Item>, early: set<nat>, k: nat): int
    requires AllParsed(items) && k <= |items|
  {
    var r := Scan(ctx, items[..k], early);
    if r.Assembled? then r.st.ramLoc else 0
  }

  /** Exactly what each line does to it: @static takes as many bytes as its text says and binds its name to
      the first of them, @memloc moves it to the value of its text, and no other line does anything. */
  lemma RamFollows(ctx: Context, items: seq<Item>, early: set<nat>, k: nat)
    requires AllParsed(items) && NoRedefine(items) && Scan(ctx, items, early).Assembled? && k < |items|
    ensures var at, next := RamAt(ctx, items, early, k), RamAt(ctx, items, early, k + 1);
            var symbols := Scan(ctx, items, early).st.symbols;
            match items[k]
            case Static(name, text) => Value(ctx, symbols, text) == Ok(next - at) && Symbol(name, at) in symbols
            case MemLoc(text) => Value(ctx, symbols, text) == Ok(next)
            case _ => next == at
  {
    hide Scan, NoRedefine, Value, Extends, Place;
    LineAt(ctx, items, early, k);
    var st, st' := Scan(ctx, items[..k], early).st, Scan(ctx, items[..k + 1], early).st;
    match items[k]
    case Static(name, text) =>
      SameValueLater(ctx, items, early, k, text);
      BindBinds(st.symbols, name, st.ramLoc);
      ScanExtends(ctx, items, early, k + 1);
      ExtendsMember(st'.symbols, Scan(ctx, items, early).st.symbols, Symbol(name, st.ramLoc));
    case MemLoc(text) => SameValueLater(ctx, items, early, k, text);
    case item =>
      if !IsDirect(item) {
        PlaceKeepsRam(ctx, st, item, k in early);
      }
  }

  /** It starts at 0x8000, and where it ends up is FREE_MEM. */
  lemma RamEnds(ctx: Context, items: seq<Item>, early: set<nat>)
    requires AllParsed(items) && NoRedefine(items) && Assemble(ctx, items, early).Assembled?
    ensures RamAt(ctx, items, early, 0) == 0x8000
    ensures Symbol("FREE_MEM", RamAt(ctx, items, early, |items|)) in Assemble(ctx, items, early).st.symbols
  {
    hide NoRedefine, ResolveAll, Extends, Identifiers;
    assert items[..0] == [] && items[..|items|] == items;
    FinalExtends(ctx, items, early);
  }

  // ----- the handler

  lemma IsrIsBound(ctx: Context, items: seq<Item>, early: set<nat>, text: string)
    requires Builds(ctx, items, early) && IsPadded(text, "ISR")
    ensures Value(ctx, Scan(ctx, items, early).st.symbols, text) == Ok(0x7F00)
  {
    hide NoRedefine, ParseExp, Identifiers, IsPadded, Extends, ResolveAll;
    ScanExtends(ctx, items, early, 0);
    ScanIdentifiers(ctx, items, early);
    assert items[..0] == [];
    var isr := Symbol("ISR", ISR_ADDR);
    assert Start().symbols[0] == isr;
    ExtendsMember(Start().symbols, Scan(ctx, items, early).st.symbols, isr);
    NameIsItsValue(Env(Scan(ctx, items, early).st.symbols, ctx.scan), ctx.sem, text, "ISR", ISR_ADDR);
  }

  /** The line behind @loc ISR stands where handlers start: its bytes are there, and if it is a label, that is
      what the label stands for. */
  lemma HandlerPlaced(ctx: Context, items: seq<Item>, early: set<nat>, k: nat)
    requires Builds(ctx, items, early) && k + 1 < |items| && items[k].Loc? && IsPadded(items[k].text, "ISR")
    ensures var prog := ProgramOf(ctx, items, early);
            && prog.addrs[k + 1] == 0x7F00 && Legal(items[k + 1])
            && Fits(items[k + 1], 0x7F00, prog.values[k + 1])
            && Holds(RomOf(ctx, items, early), 0x7F00, Encode(items[k + 1], 0x7F00, prog.values[k + 1]))
            && (items[k + 1].Label? ==> Symbol(items[k + 1].name, 0x7F00) in Assemble(ctx, items, early).st.symbols)
  {
    hide Scan, NoRedefine, Assemble, Addrs, IsPadded, Value, Holds, Encode, Fits;
    ScanBuilds(ctx, items, early);
    IsrIsBound(ctx, items, early, items[k].text);
    LocMoves(ctx, items, early, k);
    LinesPlaced(ctx, items, early);
    if items[k + 1].Label? {
      LabelStands(ctx, items, early, k + 1);
    }
  }

  lemma LabelStands(ctx: Context, items: seq<Item>, early: set<nat>, k: nat)
    requires Builds(ctx, items, early) && k < |items| && items[k].Label?
    ensures Symbol(items[k].name, Addrs(ctx, items, early)[k]) in Assemble(ctx, items, early).st.symbols
  {
    hide NoRedefine, Assemble, Addrs, Ordered, BlankElsewhere, Encode;
    ImageIsEncoding(ctx, items, early);
    assert Finished(ctx, Assemble(ctx, items, early).st, items[k], Addrs(ctx, items, early)[k]);
  }

  /** So a program that is interrupted goes on at that line, with everything else as it was. */
  lemma HandlerStarts(ctx: Context, items: seq<Item>, early: set<nat>, k: nat, c: Cpu, input: Input)
    requires Builds(ctx, items, early) && k + 1 < |items| && items[k].Loc? && IsPadded(items[k].text, "ISR")
    requires c.rom == RomOf(ctx, items, early) && Step(c, input).Some? && !c.intActive
    requires Step(c, input).value.intActive
    ensures var c' := Alone(Step(c, input).value);
            Tracks(ProgramOf(ctx, items, early), RomOf(ctx, items, early), Source(k + 1, RegsOf(c')), c')
  {
    hide Builds, ProgramOf, RomOf, Step, IsPadded, Encode, Fits, Holds;
    HandlerPlaced(ctx, items, early, k);
    EntersExactly(c, input);
    StepKeepsRom(c, input);
  }
}
