/**
 The memory that a program allocates statically: the pieces do not overlap each other, their names stand
 for them, and FREE_MEM lies behind all of them. They may overlap the stack, and it is said exactly when.
 */
module StaticMemory {
  import opened Bytes
  import opened Lexer
  import opened ShuntingYard
  import opened SymTab
  import opened Isa
  import opened Processor
  import opened Assembler
  import opened Encoding
  import opened Image
  import opened AssemblerRun
  import opened AssemblerTheorems
  import opened SourceMachine
  import opened Words
  import opened SymbolsGrow
  import Printer

  /** Where @static stops; the stack page of interrupt handlers lies below it. */
  const LIMIT := 0xFF00

  /** What an allocation asks for and gets. */
  datatype Span = Span(name: string, start: int, size: int)

  /** The allocations of the first phase, in order. */
  ghost function Spans(ctx: Context, items: seq<Item>, early: set<nat>): seq<Span>
    requires AllParsed(items)
    decreases |items|
  {
    if items == [] then []
    else
      var front, item := items[..|items| - 1], items[|items| - 1];
      var r := Scan(ctx, front, early);
      var before := Spans(ctx, front, early);
      if r.Assembled? && item.Static? && Value(ctx, r.st.symbols, item.text).Ok? then
        before + [Span(item.name, r.st.ramLoc, Value(ctx, r.st.symbols, item.text).value)]
      else before
  }

  /** The spans lie one behind the other between the start of the RAM and the limit, and below loc. */
  ghost predicate Stacked(spans: seq<Span>, loc: int) {
    && ROM_SIZE <= loc
    && (forall i, j :: 0 <= i < j < |spans| ==> spans[i].start + spans[i].size <= spans[j].start)
    && forall i :: 0 <= i < |spans| ==>
         ROM_SIZE <= spans[i].start && 0 <= spans[i].size &&
         spans[i].start + spans[i].size <= LIMIT && spans[i].start + spans[i].size <= loc
  }

  ghost predicate Bound(spans: seq<Span>, symbols: seq<Symbol>) {
    forall i :: 0 <= i < |spans| ==> Symbol(spans[i].name, spans[i].start) in symbols
  }

  lemma ExtendsKeeps(small: seq<Symbol>, large: seq<Symbol>, spans: seq<Span>)
    requires Extends(small, large) && Bound(spans, small)
    ensures Bound(spans, large)
  {
    hide Extends;
    forall i | 0 <= i < |spans|
      ensures Symbol(spans[i].name, spans[i].start) in large
    {
      ExtendsMember(small, large, Symbol(spans[i].name, spans[i].start));
    }
  }

  // ----- the allocations

  lemma {:induction false} ScanStacks(ctx: Context, items: seq<Item>, early: set<nat>)
    requires AllParsed(items) && NoRedefine(items) && Scan(ctx, items, early).Assembled?
    ensures var st := Scan(ctx, items, early).st;
            Stacked(Spans(ctx, items, early), st.ramLoc) && Bound(Spans(ctx, items, early), st.symbols)
    decreases |items|
  {
    if items != [] {
      hide Line, NoRedefine, Inv, Pending, Unbound, FixOf, Stacked, Bound, Parsed, Extends;
      var n := |items| - 1;
      var front, item := items[..n], items[n];
      assert items == front + [item];
      NoRedefineFront(items);
      ScanStacks(ctx, front, early);
      var st, st' := Scan(ctx, front, early).st, Scan(ctx, items, early).st;
      var ks := ScanInv(ctx, front, early);
      AcceptedIsLegal(ctx, st, item, n in early);
      LineExtends(ctx, front, Addrs(ctx, front, early), ks, st, item, n in early, st');
      ExtendsKeeps(st.symbols, st'.symbols, Spans(ctx, front, early));
      LineStacks(ctx, st, item, n in early, st', Spans(ctx, front, early), Spans(ctx, items, early));
    }
  }

  lemma LineStacks(ctx: Context, st: Asm, item: Item, early: bool, st': Asm, before: seq<Span>, after: seq<Span>)
    requires Legal(item) && Line(ctx, st, item, Tried(early)) == Assembled(st')
    requires Stacked(before, st.ramLoc) && Bound(before, st'.symbols)
    requires after == if item.Static? && Value(ctx, st.symbols, item.text).Ok?
                      then before + [Span(item.name, st.ramLoc, Value(ctx, st.symbols, item.text).value)] else before
    ensures Stacked(after, st'.ramLoc) && Bound(after, st'.symbols)
  {
    hide Value, Encode, AddUnresolved;
    if item.Static? {
      BindBinds(st.symbols, item.name, st.ramLoc);
    } else if !IsDirect(item) {
      hide Place;
      PlaceKeepsRam(ctx, st, item, early);
    }
  }

  lemma BindBinds(symbols: seq<Symbol>, name: string, value: int)
    ensures Symbol(name, value) in Bind(symbols, name, value)
  {
    var k := IndexOf(symbols, name, 0);
    assert Bind(symbols, name, value)[k] == Symbol(name, value);
  }

  lemma PlaceKeepsRam(ctx: Context, st: Asm, item: Item, early: bool)
    requires Legal(item) && !IsDirect(item) && st.loc + Size(item) <= ROM_SIZE
    requires Place(ctx, st, item, Tried(early)).Assembled?
    ensures Place(ctx, st, item, Tried(early)).st.ramLoc == st.ramLoc
  {
    hide Opcode, RegId, Resolve;
    match item
    case Move(a, b) => EmitAllHolds(st, MoveBytes(a, b));
    case Swap(a, b) => EmitAllHolds(st, SwapBytes(a, b));
    case _ =>
  }

  /** Static memory: in every program that redefines no name and assembles, the allocations lie one
      behind the other above the ROM and end by 0xFF00, in the final symbol table their names stand for
      where they start, and FREE_MEM stands for a place behind all of them. */
  lemma StaticsDoNotOverlap(ctx: Context, items: seq<Item>, early: set<nat>)
    requires AllParsed(items) && NoRedefine(items) && Assemble(ctx, items, early).Assembled?
    ensures var st, spans := Assemble(ctx, items, early).st, Spans(ctx, items, early);
            && Bound(spans, st.symbols)
            && exists free :: Symbol("FREE_MEM", free) in st.symbols && Stacked(spans, free)
  {
    hide NoRedefine, Bound, Stacked, Scan, Spans, ResolveAll, Extends, Identifiers;
    ScanStacks(ctx, items, early);
    FinalExtends(ctx, items, early);
    ExtendsKeeps(Scan(ctx, items, early).st.symbols, Assemble(ctx, items, early).st.symbols, Spans(ctx, items, early));
  }

  lemma ScannedFront(ctx: Context, items: seq<Item>, early: set<nat>)
    requires AllParsed(items) && Scan(ctx, items, early).Assembled? && items != []
    ensures var item, r := items[|items| - 1], Scan(ctx, items[..|items| - 1], early);
            r.Assembled? && (item.Static? ==> Value(ctx, r.st.symbols, item.text).Ok?)
  {
    hide Place, Value, Parsed;
  }

  lemma {:induction false} SpanOf(ctx: Context, items: seq<Item>, early: set<nat>, k: nat)
    requires AllParsed(items) && Scan(ctx, items, early).Assembled? && k < |items| && items[k].Static?
    ensures exists i :: 0 <= i < |Spans(ctx, items, early)| && Spans(ctx, items, early)[i].name == items[k].name
    decreases |items|
  {
    hide Scan, Value, Parsed;
    var n := |items| - 1;
    var front, spans := items[..n], Spans(ctx, items, early);
    ScannedFront(ctx, items, early);
    if k < n {
      SpanOf(ctx, front, early, k);
      var i :| 0 <= i < |Spans(ctx, front, early)| && Spans(ctx, front, early)[i].name == front[k].name;
      assert spans[i].name == items[k].name;
    } else {
      assert spans[|spans| - 1].name == items[k].name;
    }
  }

  /** The name of every static allocation is bound at the end. */
  lemma StaticBound(ctx: Context, items: seq<Item>, early: set<nat>, k: nat) returns (x: Symbol)
    requires AllParsed(items) && NoRedefine(items) && Assemble(ctx, items, early).Assembled?
    requires k < |items| && items[k].Static?
    ensures x in Assemble(ctx, items, early).st.symbols && x.name == items[k].name
  {
    hide NoRedefine, Spans, Scan, ResolveAll, Stacked;
    StaticsDoNotOverlap(ctx, items, early);
    SpanOf(ctx, items, early, k);
    var spans := Spans(ctx, items, early);
    var i :| 0 <= i < |spans| && spans[i].name == items[k].name;
    x := Symbol(spans[i].name, spans[i].start);
  }

  // ----- the stack

  predicate Contains(span: Span, addr: int) {
    span.start <= addr < span.start + span.size
  }

  /** A span of the first phase. */
  predicate IsSpan(span: Span) {
    ROM_SIZE <= span.start && 0 <= span.size && span.start + span.size <= LIMIT
  }

  /** No instruction in stack mode reads the span, whatever the registers. */
  ghost predicate NotRead(span: Span) {
    forall r: Regs, offset: int :: 0 <= offset < 16 ==> !Contains(span, Address(r, StackMode, offset))
  }

  /** The place in the RAM that a store goes to: one to the ROM goes to the same place in the RAM. */
  function Cell(addr: Word16): int {
    ROM_SIZE + addr % ROM_SIZE
  }

  ghost predicate NotWritten(span: Span) {
    forall r: Regs, offset: int :: 0 <= offset < 16 ==> !Contains(span, Cell(Address(r, StackMode, offset)))
  }

  /** The span keeps clear of what a handler's stack pointer reaches. */
  predicate BelowHandlerStack(span: Span) {
    span.size > 0 ==> span.start + span.size <= 0xFE00 || 0xFE8E < span.start
  }

  /** The span keeps clear of where stores behind the end of memory go. */
  predicate AboveWrapAround(span: Span) {
    span.size > 0 ==> 0x800E < span.start
  }

  /** The registers in which an instruction in stack mode has this address. */
  function Reaching(sp: Byte, intActive: bool): Regs {
    Regs(0, sp, 0, 0, 0, 0, 0, false, false, intActive, false, false, false, Blank(), Blank())
  }

  lemma HandlerReaches(x: int) returns (r: Regs, offset: int)
    requires 0xFE00 <= x <= 0xFE8E
    ensures 0 <= offset < 16 && Address(r, StackMode, offset) == x
  {
    var sp: Byte := if x - 0xFE00 < 0x80 then x - 0xFE00 else 0x7F;
    r, offset := Reaching(sp, true), x - 0xFE00 - sp as int;
  }

  lemma WrapReaches(x: int) returns (r: Regs, offset: int)
    requires 0x8000 <= x <= 0x800E
    ensures 0 <= offset < 16 && Cell(Address(r, StackMode, offset)) == x
  {
    r, offset := Reaching(0xFF, false), x - 0x8000 + 1;
  }

  lemma StackAddresses(r: Regs, offset: int)
    requires 0 <= offset < 16
    ensures var a := Address(r, StackMode, offset); 0xFE00 <= a <= 0xFE8E || 0xFF00 <= a || a <= 0xE
  {
  }

  /** The stack keeps clear of a span exactly when the span keeps clear of 0xFE00 to 0xFE8E. */
  lemma NotReadExactly(span: Span)
    requires IsSpan(span)
    ensures NotRead(span) <==> BelowHandlerStack(span)
  {
    hide Address;
    if !BelowHandlerStack(span) {
      var x := if span.start < 0xFE00 then 0xFE00 else span.start;
      var r, offset := HandlerReaches(x);
      assert Contains(span, Address(r, StackMode, offset));
    }
    forall r: Regs, offset: int | BelowHandlerStack(span) && 0 <= offset < 16
      ensures !Contains(span, Address(r, StackMode, offset))
    {
      StackAddresses(r, offset);
    }
  }

  /** Stores in stack mode, too, if it also keeps clear of the first 15 bytes of the RAM, where stores go
      whose address runs over the end of memory. */
  lemma NotWrittenExactly(span: Span)
    requires IsSpan(span)
    ensures NotWritten(span) <==> BelowHandlerStack(span) && AboveWrapAround(span)
  {
    hide Address;
    if !BelowHandlerStack(span) {
      var x := if span.start < 0xFE00 then 0xFE00 else span.start;
      var r, offset := HandlerReaches(x);
      assert Contains(span, Cell(Address(r, StackMode, offset)));
    }
    if !AboveWrapAround(span) {
      var r, offset := WrapReaches(span.start);
      assert Contains(span, Cell(Address(r, StackMode, offset)));
    }
    forall r: Regs, offset: int | BelowHandlerStack(span) && AboveWrapAround(span) && 0 <= offset < 16
      ensures !Contains(span, Cell(Address(r, StackMode, offset)))
    {
      StackAddresses(r, offset);
    }
  }

  /** Static memory and the stack: in every program that redefines no name and assembles, instructions in
      stack mode never read any of it if and only if it ends by 0xFE00 or starts behind 0xFE8E, and never
      write any of it if and only if besides none of it lies in the first 15 bytes of the RAM. */
  lemma StaticsAndStack(ctx: Context, items: seq<Item>, early: set<nat>)
    requires AllParsed(items) && NoRedefine(items) && Assemble(ctx, items, early).Assembled?
    ensures var spans := Spans(ctx, items, early);
            && ((forall i :: 0 <= i < |spans| ==> NotRead(spans[i])) <==>
                (forall i :: 0 <= i < |spans| ==> BelowHandlerStack(spans[i])))
            && ((forall i :: 0 <= i < |spans| ==> NotWritten(spans[i])) <==>
                (forall i :: 0 <= i < |spans| ==> BelowHandlerStack(spans[i]) && AboveWrapAround(spans[i])))
  {
    hide NoRedefine, Spans, Scan, ResolveAll, NotRead, NotWritten, BelowHandlerStack, AboveWrapAround;
    ScanStacks(ctx, items, early);
    var spans := Spans(ctx, items, early);
    forall i | 0 <= i < |spans|
      ensures NotRead(spans[i]) <==> BelowHandlerStack(spans[i])
      ensures NotWritten(spans[i]) <==> BelowHandlerStack(spans[i]) && AboveWrapAround(spans[i])
    {
      NotReadExactly(spans[i]);
      NotWrittenExactly(spans[i]);
    }
  }

  /** An allocation that the assembler accepts although a handler's stack lies in it. */
  const COLLIDING: seq<Item> := [MemLoc(" 0xfe00 "), Static("buf", " 0x10 ")]

  lemma CollidingTexts(ctx: Context, symbols: seq<Symbol>)
    ensures Value(ctx, symbols, " 0xfe00 ") == Ok(0xFE00) && Value(ctx, symbols, " 0x10 ") == Ok(16)
  {
    hide ParseExp, Printer.Digit;
    var env := Env(symbols, ctx.scan);
    Numerals();
    Printer.NumeralIs(0xFE00, 16);
    Printer.NumeralIs(16, 16);
    Printer.PrefixedEvaluates(env, ctx.sem, "0x", "fe00", 0xFE00, 16);
    Printer.PrefixedEvaluates(env, ctx.sem, "0x", "10", 16, 16);
    assert " " + "0x" + "fe00" + " " == " 0xfe00 ";
    assert " " + "0x" + "10" + " " == " 0x10 ";
  }

  lemma Numerals()
    ensures Printer.Numeral(0xFE00, 16) == "fe00" && Printer.Numeral(16, 16) == "10"
  {
    assert Printer.Numeral(0xF, 16) == "f";
    assert Printer.Numeral(0xFE, 16) == Printer.Numeral(0xF, 16) + [Printer.Digit(0xE)];
    assert Printer.Numeral(0xFE0, 16) == Printer.Numeral(0xFE, 16) + [Printer.Digit(0)];
    assert Printer.Numeral(0xFE00, 16) == Printer.Numeral(0xFE0, 16) + [Printer.Digit(0)];
    assert Printer.Numeral(1, 16) == "1";
    assert Printer.Numeral(16, 16) == Printer.Numeral(1, 16) + [Printer.Digit(0)];
  }

  lemma StackCollides(ctx: Context, early: set<nat>)
    ensures AllParsed(COLLIDING) && NoRedefine(COLLIDING) && Assemble(ctx, COLLIDING, early).Assembled?
    ensures Spans(ctx, COLLIDING, early) == [Span("buf", 0xFE00, 16)]
    ensures forall r: Regs :: r.intActive && r.sp == 0 ==> Contains(Span("buf", 0xFE00, 16), Address(r, StackMode, 0))
  {
    hide Value, Blank;
    assert COLLIDING[..1] == [MemLoc(" 0xfe00 ")] && COLLIDING[..1][..0] == [];
    CollidingTexts(ctx, Start().symbols);
    var st := Start().(ramLoc := 0xFE00);
    assert Scan(ctx, COLLIDING[..1], early) == Assembled(st);
    assert Scan(ctx, COLLIDING, early) == Assembled(st.(symbols := Bind(st.symbols, "buf", 0xFE00), ramLoc := 0xFE10));
    assert Spans(ctx, COLLIDING[..1], early) == [];
  }
}
