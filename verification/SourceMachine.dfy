/**
 The machine a programmer has in mind: it executes the lines of the program as written, macros as
 single steps, and jumps to lines. Nothing here knows how a line is encoded.
 */
module SourceMachine {
  import opened Bytes
  import opened Lexer
  import opened Isa
  import opened Processor
  import opened Assembler
  import opened Encoding
  import Alu

  /** What a program can observe; rom and ram are the two halves of memory. */
  datatype Regs = Regs(
    acc: Byte, sp: Byte, x: Byte, y: Byte, p: Word16, q: Word16, ia: Word16,
    carry: bool, intEn: bool, intActive: bool, idbg: bool, ioRd: bool, ioWr: bool,
    rom: Memory, ram: Memory)

  // ----- registers and memory

  function Get(r: Regs, reg: Reg): Byte
    requires reg != IO
  {
    match reg
    case SP => r.sp
    case X => r.x
    case Y => r.y
    case PH => r.p / 256
    case PL => r.p % 256
    case QH => r.q / 256
    case QL => r.q % 256
    case Acc => r.acc
  }

  function Set(r: Regs, reg: Reg, b: Byte): (r': Regs)
    requires reg != IO
    ensures r'.rom == r.rom
  {
    match reg
    case SP => r.(sp := b)
    case X => r.(x := b)
    case Y => r.(y := b)
    case PH => r.(p := b as int * 256 + r.p % 256)
    case PL => r.(p := r.p / 256 * 256 + b as int)
    case QH => r.(q := b as int * 256 + r.q % 256)
    case QL => r.(q := r.q / 256 * 256 + b as int)
    case Acc => r.(acc := b)
  }

  lemma Halves(w: Word16, b: Byte)
    ensures var high, low := b as int * 256 + w % 256, w / 256 * 256 + b as int;
            high / 256 == b && high % 256 == w % 256 && low / 256 == w / 256 && low % 256 == b
  {
  }

  lemma GetSetP(r: Regs, reg: Reg, b: Byte, other: Reg)
    requires reg == PH || reg == PL
    requires other != IO
    ensures Get(Set(r, reg, b), other) == if other == reg then b else Get(r, other)
  {
    Halves(r.p, b);
  }

  lemma GetSetQ(r: Regs, reg: Reg, b: Byte, other: Reg)
    requires reg == QH || reg == QL
    requires other != IO
    ensures Get(Set(r, reg, b), other) == if other == reg then b else Get(r, other)
  {
    Halves(r.q, b);
  }

  lemma GetSetByte(r: Regs, reg: Reg, b: Byte, other: Reg)
    requires reg == SP || reg == X || reg == Y || reg == Acc
    requires other != IO
    ensures Get(Set(r, reg, b), other) == if other == reg then b else Get(r, other)
  {
  }

  /** Registers do not overlap, although p and q are each two of them. */
  lemma GetSet(r: Regs, reg: Reg, b: Byte, other: Reg)
    requires reg != IO && other != IO
    ensures Get(Set(r, reg, b), other) == if other == reg then b else Get(r, other)
  {
    hide Get, Set;
    if reg == PH || reg == PL {
      GetSetP(r, reg, b, other);
    } else if reg == QH || reg == QL {
      GetSetQ(r, reg, b, other);
    } else {
      GetSetByte(r, reg, b, other);
    }
  }

  function LoadFrom(r: Regs, addr: Word16): Byte {
    if addr < ROM_SIZE then r.rom[addr] else r.ram[addr - ROM_SIZE]
  }

  function StoreTo(r: Regs, addr: Word16, b: Byte): Regs {
    r.(ram := r.ram[addr % ROM_SIZE := b])
  }

  function PageOf(r: Regs): int {
    if r.intActive && r.sp < 0x80 then 0xFE00 else 0xFF00
  }

  function Address(r: Regs, mode: MemMode, offset: int): Word16 {
    match mode
    case StackMode => Wrap16(PageOf(r) + r.sp as int + offset)
    case QMode => Wrap16(r.q + offset)
    case PMode | PPreMode => Wrap16(r.p + offset)
  }

  // ----- single instructions

  /** Leave no request to a device behind. */
  function Idle(r: Regs): Regs {
    r.(ioRd := false, ioWr := false)
  }

  function Index(r: Regs, y: bool): Byte {
    if y then r.y else r.x
  }

  function AfterPlain(r: Regs, m: Mnemonic, y: bool, a: Word16): (r': Regs)
    ensures r'.rom == r.rom
  {
    match m
    case Jpr => r.(p := a)
    case Jxi => r.(intActive := false)
    case Brk => r.(idbg := true)
    case Dint => r.(intEn := false)
    case Eint => r.(intEn := true)
    case Ipoll => r.(acc := 64 * Alu.Bit(r.intEn) + 128 * Alu.Bit(r.intActive))
    case Or => r.(acc := Bitwise(OrOp, r.acc, Index(r, y)))
    case And => r.(acc := Bitwise(AndOp, r.acc, Index(r, y)))
    case Xor => r.(acc := Bitwise(XorOp, r.acc, Index(r, y)))
    case Add => r.(acc := Alu.Add(r.acc, Index(r, y), false).q)
    case Sub => r.(acc := Alu.Sub(r.acc, Index(r, y), true).q)
    case Sl => r.(acc := Alu.ShiftLeft(r.acc, false).q)
    case Sr => r.(acc := Alu.ShiftRight(r.acc, false).q)
    case Slc => var s := Alu.ShiftLeft(r.acc, r.carry); r.(acc := s.q, carry := s.carry)
    case Src => var s := Alu.ShiftRight(r.acc, r.carry); r.(acc := s.q, carry := s.carry)
    case Cclr => r.(carry := false)
    case Cset => r.(carry := true)
    case Ctog => r.(carry := !r.carry)
    case Zero => r.(carry := r.acc == 0)
    case Nzero => r.(carry := r.acc != 0)
    case Sgn => r.(carry := r.acc >= 0x80)
    case Nsgn => r.(carry := r.acc < 0x80)
    case _ => r
  }

  /** Reading the device register asks the device selected by y for a byte. */
  function AfterIO(r: Regs, m: Mnemonic, input: Input): (r': Regs)
    ensures r'.rom == r.rom
  {
    var read := m.Rd? || m.Sw?;
    r.(ioRd := read, ioWr := m.Wr? || m.Sw?,
       acc := if read && r.y < 16 && input.data.Some? then input.data.value else r.acc)
  }

  function AfterRegister(r: Regs, m: Mnemonic, reg: Reg, input: Input): (r': Regs)
    ensures r'.rom == r.rom
  {
    if reg == IO then AfterIO(r, m, input)
    else
      match m
      case Rd => Set(r, Acc, Get(r, reg))
      case Wr => Set(r, reg, Get(r, Acc))
      case Sw => Exchange(r, reg, Acc)
      case _ => r
  }

  function Exchange(r: Regs, a: Reg, b: Reg): (r': Regs)
    requires a != IO && b != IO
    ensures r'.rom == r.rom
  {
    Set(Set(r, a, Get(r, b)), b, Get(r, a))
  }

  function AfterImmediate(r: Regs, m: Mnemonic, b: Byte): (r': Regs)
    ensures r'.rom == r.rom
  {
    match m
    case Rdi => r.(acc := b)
    case Ori => r.(acc := Bitwise(OrOp, r.acc, b))
    case Andi => r.(acc := Bitwise(AndOp, r.acc, b))
    case Xori => r.(acc := Bitwise(XorOp, r.acc, b))
    case Addi => r.(acc := Alu.Add(r.acc, b, false).q)
    case Subi => r.(acc := Alu.Sub(r.acc, b, true).q)
    case Adci => var s := Alu.Add(r.acc, b, r.carry); r.(acc := s.q, carry := s.carry)
    case Sbci => var s := Alu.Sub(r.acc, b, r.carry); r.(acc := s.q, carry := s.carry)
    case _ => r
  }

  function AfterMemory(r: Regs, m: Mnemonic, mode: MemMode, offset: int): (r': Regs)
    ensures r'.rom == r.rom
  {
    var addr := Address(r, mode, offset);
    var moved := if mode == PPreMode then r.(p := addr) else r;
    if m.Ld? then moved.(acc := LoadFrom(r, addr)) else StoreTo(moved, addr, r.acc)
  }

  // ----- lines

  function SetPair(r: Regs, pair: Pair, v: Word16): Regs {
    if pair == P then r.(p := v) else r.(q := v)
  }

  predicate Runnable(m: Mnemonic) {
    !m.Adc? && !m.Sbc? && !m.Jcr?
  }

  /** The lines this machine executes. Three mnemonics share their opcodes with others, moves to and
      from devices are not single steps, and there is nothing to run where the location jumps ahead. */
  predicate Supported(item: Item) {
    match item
    case Plain(m, _) => Runnable(m)
    case Relative(m, _) => Runnable(m)
    case Move(a, b) => a != IO && b != IO
    case Swap(a, b) => a != IO && b != IO
    case Loc(_) => false
    case _ => true
  }

  /** How many machine instructions a line stands for. */
  function Steps(item: Item): nat {
    match item
    case Plain(_, _) | Register(_, _) | Memory(_, _, _) | Immediate(_, _) | Relative(_, _) => 1
    case LoadPair(_, _) | Rdja(_) => 5
    case Call(_) | Goto(_) => 6
    case Move(a, b) => if a == b then 0 else if a == Acc || b == Acc then 1 else 3
    case Swap(a, b) => if a == b then 0 else if a == Acc || b == Acc then 1 else 3
    case _ => 0
  }

  /** The registers after a line at address a whose operand has value v. No line changes the ROM. */
  function After(r: Regs, item: Item, a: Word16, v: int, inputs: seq<Input>): (r': Regs)
    requires Supported(item) && Fits(item, a, v) && |inputs| == Steps(item)
    ensures r'.rom == r.rom
  {
    if Steps(item) == 0 then r
    else
      var r := Idle(r);
      match item
      case Plain(m, y) => AfterPlain(r, m, y, a)
      case Register(m, reg) => AfterRegister(r, m, reg, inputs[0])
      case Immediate(m, _) => AfterImmediate(r, m, v % 256)
      case Relative(m, _) => if m.Jr? then r.(p := Wrap16(a + 1)) else r
      case Memory(m, mode, _) => AfterMemory(r, m, mode, v % 16)
      case LoadPair(pair, _) => SetPair(r, pair, v)
      case Rdja(_) => r.(p := v - 1)
      case Call(_) => r.(p := Wrap16(a + 7))
      case Goto(_) => r.(p := v - 1)
      case Move(from, to) => Set(r, to, Get(r, from))
      case Swap(x, y) => Exchange(r, x, y)
      case _ => r
  }

  /** Where a line goes on: at another address, or at the next line. */
  function Leaves(r: Regs, item: Item, v: int): Option<Word16> {
    match item
    case Plain(m, _) =>
      (match m
       case Jp | Jpr => Some(Wrap16(r.p + 1))
       case Jxi => Some(Wrap16(r.ia + 1))
       case _ => None)
    case Relative(m, _) => if m.Jc? && !r.carry then None else Some(Wrap16(v))
    case Call(_) | Goto(_) => Some(Wrap16(v))
    case _ => None
  }

  // ----- programs

  /** A program with the address of every line and of its end, and the operand value of every line. */
  datatype Program = Program(items: seq<Item>, addrs: seq<nat>, values: seq<int>)

  datatype Source = Source(line: nat, regs: Regs)

  ghost predicate WellPlaced(prog: Program) {
    && |prog.addrs| == |prog.items| + 1 && |prog.values| == |prog.items|
    && forall k :: 0 <= k < |prog.items| ==> Fits(prog.items[k], prog.addrs[k], prog.values[k])
  }

  /** One line: to the next one, or to any line at the address it jumps to. */
  ghost predicate SourceStep(prog: Program, s: Source, inputs: seq<Input>, s': Source)
    requires WellPlaced(prog)
  {
    && s.line < |prog.items| && s'.line <= |prog.items| && prog.addrs[s.line] < 0x10000
    && var item, a, v := prog.items[s.line], prog.addrs[s.line], prog.values[s.line];
    && Supported(item) && |inputs| == Steps(item)
    && s'.regs == After(s.regs, item, a, v, inputs)
    && match Leaves(s.regs, item, v)
       case None => s'.line == s.line + 1
       case Some(target) => prog.addrs[s'.line] == target
  }

  ghost predicate SourceRun(prog: Program, trace: seq<Source>, inputs: seq<seq<Input>>)
    requires WellPlaced(prog)
  {
    |trace| == |inputs| + 1 && forall i :: 0 <= i < |inputs| ==> SourceStep(prog, trace[i], inputs[i], trace[i + 1])
  }
}
