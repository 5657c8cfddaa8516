/**
 The assembler (Toolchain/src/nandy_asm_tools.c, nandy_tools.c, nandy_parse_tools.c, instrs_*.c) on
 lines that have been parsed: what each line writes into the ROM, and what it leaves for later.
 */
module Assembler {
  import opened Bytes
  import opened Operators
  import opened Lexer
  import opened ShuntingYard
  import opened SymTab
  import opened Isa
  import opened Processor

  datatype Pair = P | Q

  /** A line of the program. Operands that are expressions are kept as text. */
  datatype Item =
    | Label(name: string)
    | Plain(m: Mnemonic, y: bool)
    | Register(m: Mnemonic, reg: Reg)
    | Immediate(m: Mnemonic, text: string)
    | Relative(m: Mnemonic, text: string)
    | Memory(m: Mnemonic, mode: MemMode, text: string)
    | LoadPair(pair: Pair, text: string)
    | Rdja(text: string)
    | Call(text: string)
    | Goto(text: string)
    | Move(a: Reg, b: Reg)
    | Swap(a: Reg, b: Reg)
    | Define(name: string, text: string)
    | Assert(text: string)
    | Echo(text: string)
    | Static(name: string, text: string)
    | MemLoc(text: string)
    | Loc(text: string)

  predicate IsRegisterOp(m: Mnemonic) {
    m.Rd? || m.Wr? || m.Sw?
  }

  predicate IsImmediateOp(m: Mnemonic) {
    m.Rdi? || m.Ori? || m.Andi? || m.Xori? || m.Addi? || m.Adci? || m.Subi? || m.Sbci?
  }

  predicate IsRelativeOp(m: Mnemonic) {
    m.J? || m.Jr? || m.Jc? || m.Jcr?
  }

  predicate IsMemoryOp(m: Mnemonic) {
    m.Ld? || m.St?
  }

  /** The instructions that name x or y. */
  predicate IsXYOp(m: Mnemonic) {
    m.Or? || m.And? || m.Xor? || m.Add? || m.Adc? || m.Sub? || m.Sbc?
  }

  /** A line as the parser makes it: each mnemonic with operands of its kind. */
  predicate Parsed(item: Item) {
    match item
    case Plain(m, y) =>
      && !IsRegisterOp(m) && !IsImmediateOp(m) && !IsRelativeOp(m) && !IsMemoryOp(m)
      && (y ==> IsXYOp(m))
    case Register(m, _) => IsRegisterOp(m)
    case Immediate(m, _) => IsImmediateOp(m)
    case Relative(m, _) => IsRelativeOp(m)
    case Memory(m, _, _) => IsMemoryOp(m)
    case _ => true
  }

  // ----- the state of the assembler

  /** What has to be done once the value of an expression is known. */
  datatype Fix =
    | FixPair | FixReturn | FixRelative | FixImm8 | FixImm4
    | FixDefine(name: string) | FixAssert | FixEcho

  datatype Fixup = Fixup(fix: Fix, text: string, pos: nat)

  datatype Asm = Asm(rom: Memory, loc: nat, ramLoc: int, symbols: seq<Symbol>, unresolved: seq<Fixup>)

  /** What expressions are evaluated with besides the symbols. */
  datatype Context = Context(scan: EscapeScanner, sem: Sem<int>)

  function Value(ctx: Context, symbols: seq<Symbol>, text: string): Outcome<int> {
    ParseExp(Env(symbols, ctx.scan), ctx.sem, text)
  }

  /** The three high bits of a jump offset, in their place in the instruction byte. */
  function OffsetBits(offset: int): Byte {
    offset / 256 % 8 * 2
  }

  /** The resolvers, given the value of the expression: None when the value does not fit. */
  function Apply(st: Asm, f: Fixup, v: int): Option<Asm> {
    match f.fix
    case FixPair =>
      if 0 <= v < 0x10000 && f.pos + 5 < ROM_SIZE then
        Some(st.(rom := st.rom[f.pos + 5 := v / 256][f.pos + 2 := v % 256]))
      else None
    case FixReturn =>
      if 0 <= v - 1 < 0x10000 && f.pos + 5 < ROM_SIZE then
        Some(st.(rom := st.rom[f.pos + 5 := (v - 1) / 256][f.pos + 2 := (v - 1) % 256]))
      else None
    case FixRelative =>
      var offset := v - f.pos - 1;
      if -1024 <= offset < 1024 && f.pos + 1 < ROM_SIZE then
        Some(st.(rom := st.rom[f.pos := Bitwise(OrOp, st.rom[f.pos], OffsetBits(offset))][f.pos + 1 := offset % 256]))
      else None
    case FixImm8 =>
      if f.pos + 1 < ROM_SIZE then Some(st.(rom := st.rom[f.pos + 1 := v % 256])) else None
    case FixImm4 =>
      if f.pos < ROM_SIZE then Some(st.(rom := st.rom[f.pos := Bitwise(OrOp, st.rom[f.pos], v % 16)])) else None
    case FixDefine(name) => Some(st.(symbols := Bind(st.symbols, name, v)))
    case FixAssert => if v != 0 then Some(st) else None
    case FixEcho => Some(st)
  }

  function Resolve(ctx: Context, st: Asm, f: Fixup): Option<Asm> {
    match Value(ctx, st.symbols, f.text)
    case Error(_) => None
    case Ok(v) => Apply(st, f, v)
  }

  /** What the first attempt at an expression is given: the text and what follows it in the file. */
  function Seen(text: string, rest: string): (s: string)
    ensures rest == "" ==> s == text
  {
    text + rest
  }

  /** addUnresolved: try to resolve the expression at once, and keep it for later if that fails. The first
      attempt is given everything up to the end of the file, the second one the text alone. With None for
      the rest of the file there is no first attempt. */
  function AddUnresolved(ctx: Context, st: Asm, fix: Fix, text: string, rest: Option<string>): (r: Asm)
    ensures r.loc == st.loc && r.ramLoc == st.ramLoc
  {
    var now := if rest.Some? then Resolve(ctx, st, Fixup(fix, Seen(text, rest.value), st.loc)) else None;
    if now.Some? then now.value else st.(unresolved := st.unresolved + [Fixup(fix, text, st.loc)])
  }

  // ----- instructions and macros

  /** An instruction byte, and how far to move on. */
  function Emit(st: Asm, b: Byte, size: nat): Asm
    requires st.loc < ROM_SIZE
  {
    st.(rom := st.rom[st.loc := b], loc := st.loc + size)
  }

  function RegisterByte(m: Mnemonic, reg: Reg): Byte
    requires IsRegisterOp(m) && reg != Acc
  {
    Opcode(m) + RegId(reg)
  }

  function PlainByte(m: Mnemonic, y: bool): Byte {
    if y && IsXYOp(m) then Opcode(m) + 0x10 else Opcode(m)
  }

  function HighReg(pair: Pair): (r: Reg)
    ensures r != Acc
  {
    if pair == P then PH else QH
  }

  function LowReg(pair: Pair): (r: Reg)
    ensures r != Acc
  {
    if pair == P then PL else QL
  }

  /** rdp and rdq, once their fixup has been taken care of. */
  function EmitPair(st: Asm, pair: Pair): Asm
    requires st.loc + 7 <= ROM_SIZE
  {
    var st1 := Emit(st, RegisterByte(Wr, HighReg(pair)), 1);
    var st2 := Emit(st1, Opcode(Rdi), 2);
    var st3 := Emit(st2, RegisterByte(Wr, LowReg(pair)), 1);
    var st4 := Emit(st3, Opcode(Rdi), 2);
    Emit(st4, RegisterByte(Sw, HighReg(pair)), 1)
  }

  /** The register instructions that move and swap stand for. */
  function MoveBytes(a: Reg, b: Reg): seq<Byte> {
    if a == b then []
    else if b == Acc then [RegisterByte(Rd, a)]
    else if a == Acc then [RegisterByte(Wr, b)]
    else if a == IO then [RegisterByte(Sw, b), RegisterByte(Rd, a), RegisterByte(Sw, b)]
    else [RegisterByte(Sw, a), RegisterByte(Wr, b), RegisterByte(Sw, a)]
  }

  function SwapBytes(a: Reg, b: Reg): seq<Byte> {
    if a == b then []
    else if b == Acc then [RegisterByte(Sw, a)]
    else if a == Acc then [RegisterByte(Sw, b)]
    else if a == IO then [RegisterByte(Sw, b), RegisterByte(Sw, a), RegisterByte(Sw, b)]
    else [RegisterByte(Sw, a), RegisterByte(Sw, b), RegisterByte(Sw, a)]
  }

  function EmitAll(st: Asm, bs: seq<Byte>): Asm
    requires st.loc + |bs| <= ROM_SIZE
    decreases |bs|
  {
    if bs == [] then st else EmitAll(Emit(st, bs[0], 1), bs[1..])
  }

  function Size(item: Item): nat {
    match item
    case Plain(_, _) | Register(_, _) | Memory(_, _, _) => 1
    case Immediate(_, _) | Relative(_, _) => 2
    case LoadPair(_, _) | Rdja(_) => 7
    case Call(_) | Goto(_) => 8
    case Move(a, b) => |MoveBytes(a, b)|
    case Swap(a, b) => |SwapBytes(a, b)|
    case _ => 0
  }

  // ----- lines

  datatype AsmError = BadInstruction | Overrun | NotResolved

  datatype AsmResult = Assembled(st: Asm) | Failed(error: AsmError)

  /** A line that goes into the ROM, where it fits. */
  function Place(ctx: Context, st: Asm, item: Item, rest: Option<string>): AsmResult
    requires Parsed(item) && st.loc + Size(item) <= ROM_SIZE
  {
    match item
    case Plain(m, y) => Assembled(Emit(st, PlainByte(m, y), 1))
    case Register(m, reg) => if reg == Acc then Failed(BadInstruction) else Assembled(Emit(st, RegisterByte(m, reg), 1))
    case Immediate(m, text) =>
      var st1 := AddUnresolved(ctx, Emit(st, Opcode(m), 0), FixImm8, text, rest);
      Assembled(st1.(loc := st1.loc + 2))
    case Relative(m, text) =>
      var st1 := AddUnresolved(ctx, Emit(st, Opcode(m), 0), FixRelative, text, rest);
      Assembled(st1.(loc := st1.loc + 2))
    case Memory(m, mode, text) =>
      var st1 := AddUnresolved(ctx, Emit(st, Opcode(m) + ModeBits(mode), 0), FixImm4, text, rest);
      Assembled(st1.(loc := st1.loc + 1))
    case LoadPair(pair, text) => Assembled(EmitPair(AddUnresolved(ctx, st, FixPair, text, rest), pair))
    case Rdja(text) => Assembled(EmitPair(AddUnresolved(ctx, st, FixReturn, text, rest), P))
    case Call(text) => Assembled(Emit(EmitPair(AddUnresolved(ctx, st, FixReturn, text, rest), P), Opcode(Jpr), 1))
    case Goto(text) => Assembled(Emit(EmitPair(AddUnresolved(ctx, st, FixReturn, text, rest), P), Opcode(Jp), 1))
    case Move(a, b) => Assembled(EmitAll(st, MoveBytes(a, b)))
    case Swap(a, b) => Assembled(EmitAll(st, SwapBytes(a, b)))
    case _ => Assembled(st)
  }

  /** A line that only talks to the assembler. Locations have to be known on the spot. */
  function Direct(ctx: Context, st: Asm, item: Item, rest: Option<string>): AsmResult {
    match item
    case Label(name) => Assembled(st.(symbols := Bind(st.symbols, name, st.loc)))
    case Define(name, text) => Assembled(AddUnresolved(ctx, st, FixDefine(name), text, rest))
    case Assert(text) => Assembled(AddUnresolved(ctx, st, FixAssert, text, rest))
    case Echo(text) => Assembled(AddUnresolved(ctx, st, FixEcho, text, rest))
    case Static(name, text) =>
      (match Value(ctx, st.symbols, text)
       case Error(_) => Failed(BadInstruction)
       case Ok(v) =>
         if v < 0 || st.ramLoc + v > 0xFF00 then Failed(BadInstruction)
         else Assembled(st.(symbols := Bind(st.symbols, name, st.ramLoc), ramLoc := st.ramLoc + v)))
    case MemLoc(text) =>
      (match Value(ctx, st.symbols, text)
       case Error(_) => Failed(BadInstruction)
       case Ok(v) =>
         if v < 0x10000 && v > st.ramLoc then Assembled(st.(ramLoc := v)) else Failed(BadInstruction))
    case Loc(text) =>
      (match Value(ctx, st.symbols, text)
       case Error(_) => Failed(BadInstruction)
       case Ok(v) =>
         if v < 0x10000 && v > st.loc then Assembled(st.(loc := v)) else Failed(BadInstruction))
    case _ => Assembled(st)
  }

  predicate IsDirect(item: Item) {
    item.Label? || item.Define? || item.Assert? || item.Echo? || item.Static? || item.MemLoc? || item.Loc?
  }

  function Line(ctx: Context, st: Asm, item: Item, rest: Option<string>): AsmResult
    requires Parsed(item)
  {
    if IsDirect(item) then Direct(ctx, st, item, rest)
    else if st.loc + Size(item) > ROM_SIZE then Failed(Overrun)
    else Place(ctx, st, item, rest)
  }

  // ----- whole programs

  function Blank(): Memory {
    seq(ROM_SIZE, i => 0)
  }

  function Start(): Asm {
    Asm(Blank(), 0, ROM_SIZE, [Symbol("ISR", ISR_ADDR)], [])
  }

  ghost predicate AllParsed(items: seq<Item>) {
    forall k :: 0 <= k < |items| ==> Parsed(items[k])
  }

  /** A first attempt that is given the text alone, or none. */
  function Tried(early: bool): Option<string> {
    if early then Some("") else None
  }

  /** The first phase, line by line, where operands are tried at once on the lines with these numbers. */
  ghost function Scan(ctx: Context, items: seq<Item>, early: set<nat>): AsmResult
    requires AllParsed(items)
    decreases |items|
  {
    if items == [] then Assembled(Start())
    else
      var n := |items| - 1;
      match Scan(ctx, items[..n], early)
      case Failed(e) => Failed(e)
      case Assembled(st) => Line(ctx, st, items[n], Tried(n in early))
  }

  /** The first phase as it is, where rests[k] is what follows the operand of line k in the file. */
  ghost function ScanFile(ctx: Context, items: seq<Item>, rests: seq<string>): AsmResult
    requires AllParsed(items) && |rests| == |items|
    decreases |items|
  {
    if items == [] then Assembled(Start())
    else
      var n := |items| - 1;
      match ScanFile(ctx, items[..n], rests[..n])
      case Failed(e) => Failed(e)
      case Assembled(st) => Line(ctx, st, items[n], Some(rests[n]))
  }

  /** The second phase: what was left over, in order. */
  function ResolveAll(ctx: Context, st: Asm, fs: seq<Fixup>): Option<Asm>
    decreases |fs|
  {
    if fs == [] then Some(st)
    else
      match Resolve(ctx, st, fs[0])
      case None => None
      case Some(st') => ResolveAll(ctx, st', fs[1..])
  }

  function BindFreeMem(st: Asm): Asm {
    st.(symbols := Bind(st.symbols, "FREE_MEM", st.ramLoc))
  }

  function SecondPhase(ctx: Context, r: AsmResult): AsmResult {
    match r
    case Failed(e) => Failed(e)
    case Assembled(st) =>
      match ResolveAll(ctx, BindFreeMem(st), st.unresolved)
      case None => Failed(NotResolved)
      case Some(st') => Assembled(st')
  }

  ghost function Assemble(ctx: Context, items: seq<Item>, early: set<nat>): AsmResult
    requires AllParsed(items)
  {
    SecondPhase(ctx, Scan(ctx, items, early))
  }

  ghost function AssembleFile(ctx: Context, items: seq<Item>, rests: seq<string>): AsmResult
    requires AllParsed(items) && |rests| == |items|
  {
    SecondPhase(ctx, ScanFile(ctx, items, rests))
  }
}
