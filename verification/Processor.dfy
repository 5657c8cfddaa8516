/**
 One step of the emulated processor (Toolchain/src/instrs_*.c, nandy_parse_tools.c,
 nandy_emu_tools.c) as a function on its state.
 */
module Processor {
  import opened Bytes
  import opened Lexer
  import opened Isa
  import Alu

  const ROM_SIZE := 0x8000
  const ISR_ADDR := 0x7F00

  type Memory = m: seq<Byte> | |m| == ROM_SIZE witness seq(ROM_SIZE, _ => 0)

  datatype Cpu = Cpu(
    elapsed: nat, pc: Word16, ia: Word16,
    acc: Byte, sp: Byte, x: Byte, y: Byte, p: Word16, q: Word16,
    carry: bool, intEn: bool, intActive: bool, ioRd: bool, ioWr: bool, idbg: bool,
    intsIn: Byte, rom: Memory, ram: Memory)

  /** What the devices do in one step: the byte one of them puts into the accumulator if it is read,
      if any does, and the two interrupt lines. */
  datatype Input = Input(data: Option<Byte>, irq0: bool, irq1: bool)

  // ----- bitwise operations

  datatype BitOp = AndOp | OrOp | XorOp

  function BitwiseOn(op: BitOp, a: bool, b: bool): bool {
    match op
    case AndOp => a && b
    case OrOp => a || b
    case XorOp => a != b
  }

  /** The low n bits of a and b, combined. */
  function BitsOf(op: BitOp, a: nat, b: nat, n: nat): (r: nat)
    ensures r < Pow2(n)
  {
    if n == 0 then 0
    else Alu.Bit(BitwiseOn(op, a % 2 == 1, b % 2 == 1)) + 2 * BitsOf(op, a / 2, b / 2, n - 1)
  }

  function Bitwise(op: BitOp, a: Byte, b: Byte): Byte {
    Pow2Of8();
    BitsOf(op, a, b, 8)
  }

  // ----- memory and registers

  function Wrap16(a: int): Word16 {
    a % 0x10000
  }

  function Peek(c: Cpu, addr: Word16): Byte {
    if addr >= ROM_SIZE then c.ram[addr - ROM_SIZE] else c.rom[addr]
  }

  /** Writing to the ROM half writes the same place in the RAM half. */
  function Poke(c: Cpu, addr: Word16, value: Byte): Cpu {
    c.(ram := c.ram[addr % ROM_SIZE := value])
  }

  function Operand(c: Cpu): Byte {
    Peek(c, Wrap16(c.pc + 1))
  }

  function Advance(c: Cpu, bytes: nat, clocks: nat): Cpu {
    c.(pc := Wrap16(c.pc + bytes), elapsed := c.elapsed + clocks)
  }

  function SetHigh(w: Word16, b: Byte): Word16 {
    w % 256 + 256 * b as int
  }

  function SetLow(w: Word16, b: Byte): Word16 {
    w / 256 * 256 + b as int
  }

  /** The read half of a register instruction. */
  function ReadReg(c: Cpu, r: Reg): Cpu {
    match r
    case SP => c.(acc := c.sp)
    case IO => c.(ioRd := true)
    case X => c.(acc := c.x)
    case Y => c.(acc := c.y)
    case PH => c.(acc := c.p / 256)
    case PL => c.(acc := c.p % 256)
    case QH => c.(acc := c.q / 256)
    case QL => c.(acc := c.q % 256)
    case Acc => c
  }

  /** The write half, with the value the accumulator had before. */
  function WriteReg(c: Cpu, r: Reg, tmp: Byte): Cpu {
    match r
    case SP => c.(sp := tmp)
    case IO => c.(ioWr := true)
    case X => c.(x := tmp)
    case Y => c.(y := tmp)
    case PH => c.(p := SetHigh(c.p, tmp))
    case PL => c.(p := SetLow(c.p, tmp))
    case QH => c.(q := SetHigh(c.q, tmp))
    case QL => c.(q := SetLow(c.q, tmp))
    case Acc => c
  }

  function ExeRMove(c: Cpu): Cpu {
    var b := Peek(c, c.pc);
    var c1 := if b / 16 % 2 == 1 then ReadReg(c, RegOf(b)) else c;
    var c2 := if b / 8 % 2 == 1 then WriteReg(c1, RegOf(b), c.acc) else c1;
    Advance(c2, 1, 1)
  }

  function SignExtend11(value: int): int
    requires 0 <= value < 0x800
  {
    if value >= 0x400 then value - 0x800 else value
  }

  /** The offset in a jump: three high bits in the instruction byte, eight low bits behind it. */
  function JumpOffset(c: Cpu): int {
    SignExtend11(Peek(c, c.pc) / 2 % 8 * 256 + Operand(c) as int)
  }

  function Jump(c: Cpu): Cpu {
    c.(pc := Wrap16(c.pc + JumpOffset(c) + 1), elapsed := c.elapsed + 2)
  }

  function AluReg(c: Cpu): Byte {
    if Peek(c, c.pc) / 16 % 2 == 1 then c.y else c.x
  }

  /** The start of the stack page: sp is a signed byte, so its upper half ignores the interrupt page. */
  function StackBase(c: Cpu): int {
    if c.sp >= 0x80 then 0xFF00 + c.sp as int
    else (if c.intActive then 0xFE00 else 0xFF00) + c.sp as int
  }

  /** The address of a memory access, which in +p mode moves p. */
  function MemAddr(c: Cpu): (Word16, Cpu) {
    var b := Peek(c, c.pc);
    var offset := b % 16;
    match ModeOf(b)
    case StackMode => (Wrap16(StackBase(c) + offset), c)
    case PMode => (Wrap16(c.p + offset), c)
    case QMode => (Wrap16(c.q + offset), c)
    case PPreMode => (Wrap16(c.p + offset), c.(p := Wrap16(c.p + offset)))
  }

  // ----- the instructions, one function for each file of them

  /** Jumps through p and out of the interrupt handler. */
  function ExecIndirect(c: Cpu, m: Mnemonic): Cpu
    requires m.Jp? || m.Jpr? || m.Jxi?
  {
    match m
    case Jp => c.(pc := Wrap16(c.p + 1), elapsed := c.elapsed + 1)
    case Jpr => c.(pc := Wrap16(c.p + 1), p := c.pc, elapsed := c.elapsed + 1)
    case Jxi => c.(pc := Wrap16(c.ia + 1), intActive := false, elapsed := c.elapsed + 1)
  }

  function ExecRelative(c: Cpu, m: Mnemonic): Cpu
    requires m.J? || m.Jr? || m.Jc? || m.Jcr?
  {
    if (m.Jc? || m.Jcr?) && !c.carry then Advance(c, 2, 2)
    else if m.Jr? || m.Jcr? then Jump(c).(p := Wrap16(c.pc + 1))
    else Jump(c)
  }

  function ExecFlags(c: Cpu, m: Mnemonic): Cpu
    requires m.Brk? || m.Dint? || m.Eint? || m.Nop?
  {
    match m
    case Brk => Advance(c.(idbg := true), 1, 1)
    case Dint => Advance(c.(intEn := false), 1, 1)
    case Eint => Advance(c.(intEn := true), 1, 1)
    case Nop => Advance(c, 1, 1)
  }

  predicate IsCarryOp(m: Mnemonic) {
    m.Cclr? || m.Nzero? || m.Sgn? || m.Cset? || m.Ctog? || m.Zero? || m.Nsgn?
  }

  /** The carry those instructions leave behind. */
  function NewCarry(acc: Byte, carry: bool, m: Mnemonic): bool
    requires IsCarryOp(m)
  {
    match m
    case Cclr => false
    case Cset => true
    case Ctog => !carry
    case Zero => acc == 0
    case Nzero => acc != 0
    case Sgn => acc >= 0x80
    case Nsgn => acc < 0x80
  }

  function ExecCarry(c: Cpu, m: Mnemonic): Cpu
    requires IsCarryOp(m)
  {
    Advance(c.(carry := NewCarry(c.acc, c.carry, m)), 1, 1)
  }

  function ExecBits(c: Cpu, m: Mnemonic): Cpu
    requires m.Ipoll? || m.Or? || m.And? || m.Xor?
  {
    var acc :=
      match m
      case Ipoll => Bitwise(OrOp, c.intsIn, 64 * Alu.Bit(c.intEn) + 128 * Alu.Bit(c.intActive))
      case Or => Bitwise(OrOp, c.acc, AluReg(c))
      case And => Bitwise(AndOp, c.acc, AluReg(c))
      case Xor => Bitwise(XorOp, c.acc, AluReg(c));
    Advance(c.(acc := acc), 1, 1)
  }

  predicate IsArithmetic(m: Mnemonic) {
    m.Add? || m.Adc? || m.Sub? || m.Sbc? || m.Addi? || m.Adci? || m.Subi? || m.Sbci?
  }

  /** The accumulator and carry after an addition or subtraction; only the forms with carry change it. */
  function Arithmetic(acc: Byte, b: Byte, carry: bool, m: Mnemonic): (Byte, bool)
    requires IsArithmetic(m)
  {
    match m
    case Add | Addi => (Alu.Add(acc, b, false).q, carry)
    case Adc | Adci => var s := Alu.Add(acc, b, carry); (s.q, s.carry)
    case Sub | Subi => (Alu.Sub(acc, b, true).q, carry)
    case Sbc | Sbci => var s := Alu.Sub(acc, b, carry); (s.q, s.carry)
  }

  function ExecArithmetic(c: Cpu, m: Mnemonic): Cpu
    requires m.Add? || m.Adc? || m.Sub? || m.Sbc?
  {
    var (acc, carry) := Arithmetic(c.acc, AluReg(c), c.carry, m);
    Advance(c.(acc := acc, carry := carry), 1, 1)
  }

  function ExecShift(c: Cpu, m: Mnemonic): Cpu
    requires m.Sl? || m.Slc? || m.Sr? || m.Src?
  {
    var s := if m.Sl? || m.Slc? then Alu.ShiftLeft(c.acc, m.Slc? && c.carry)
             else Alu.ShiftRight(c.acc, m.Src? && c.carry);
    Advance(c.(acc := s.q, carry := if m.Slc? || m.Src? then s.carry else c.carry), 1, 1)
  }

  function ExecMemory(c: Cpu, m: Mnemonic): Cpu
    requires m.Ld? || m.St?
  {
    var (addr, c') := MemAddr(c);
    Advance(if m.Ld? then c'.(acc := Peek(c', addr)) else Poke(c', addr, c.acc), 1, 2)
  }

  function ExecImmediateBits(c: Cpu, m: Mnemonic): Cpu
    requires m.Rdi? || m.Ori? || m.Andi? || m.Xori?
  {
    var acc :=
      match m
      case Rdi => Operand(c)
      case Ori => Bitwise(OrOp, c.acc, Operand(c))
      case Andi => Bitwise(AndOp, c.acc, Operand(c))
      case Xori => Bitwise(XorOp, c.acc, Operand(c));
    Advance(c.(acc := acc), 2, 2)
  }

  function ExecImmediateArithmetic(c: Cpu, m: Mnemonic): Cpu
    requires m.Addi? || m.Adci? || m.Subi? || m.Sbci?
  {
    var (acc, carry) := Arithmetic(c.acc, Operand(c), c.carry, m);
    Advance(c.(acc := acc, carry := carry), 2, 2)
  }

  predicate IsAluOp(m: Mnemonic) {
    || m.Ipoll? || m.Or? || m.And? || m.Xor?
    || m.Sl? || m.Slc? || m.Sr? || m.Src?
    || m.Rdi? || m.Ori? || m.Andi? || m.Xori?
    || IsArithmetic(m)
  }

  function ExecAlu(c: Cpu, m: Mnemonic): Cpu
    requires IsAluOp(m)
  {
    if m.Rdi? || m.Ori? || m.Andi? || m.Xori? then ExecImmediateBits(c, m)
    else if m.Addi? || m.Adci? || m.Subi? || m.Sbci? then ExecImmediateArithmetic(c, m)
    else if m.Add? || m.Adc? || m.Sub? || m.Sbc? then ExecArithmetic(c, m)
    else if m.Sl? || m.Slc? || m.Sr? || m.Src? then ExecShift(c, m)
    else ExecBits(c, m)
  }

  /** The instruction at pc, once it has been decoded. */
  function Exec(c: Cpu, m: Mnemonic): Cpu {
    if IsAluOp(m) then ExecAlu(c, m)
    else if m.Rd? || m.Wr? || m.Sw? then ExeRMove(c)
    else if m.Jp? || m.Jpr? || m.Jxi? then ExecIndirect(c, m)
    else if m.J? || m.Jr? || m.Jc? || m.Jcr? then ExecRelative(c, m)
    else if m.Ld? || m.St? then ExecMemory(c, m)
    else if IsCarryOp(m) then ExecCarry(c, m)
    else ExecFlags(c, m)
  }

  // ----- a whole step

  /** The devices answer: a read from one of the sixteen device registers may change the accumulator,
      and the interrupt lines are sampled. */
  function Devices(c: Cpu, input: Input): Cpu {
    var acc := if c.ioRd && c.y < 16 && input.data.Some? then input.data.value else c.acc;
    c.(acc := acc, intsIn := c.intsIn / 4 * 4 + Alu.Bit(input.irq0) + 2 * Alu.Bit(input.irq1))
  }

  predicate Interrupted(c: Cpu) {
    c.intEn && c.intsIn != 0 && !c.intActive
  }

  function EnterHandler(c: Cpu): Cpu {
    if Interrupted(c) then c.(ia := Wrap16(c.pc - 1), pc := ISR_ADDR, intActive := true) else c
  }

  /** emu_step; None when the byte at pc is no instruction. */
  function Step(c: Cpu, input: Input): Option<Cpu> {
    var c0 := c.(ioRd := false, ioWr := false);
    match Lookup(Peek(c, c.pc))
    case None => None
    case Some(m) => Some(EnterHandler(Devices(Exec(c0, m), input)))
  }

  function Run(c: Cpu, inputs: seq<Input>): Option<Cpu>
    decreases |inputs|
  {
    if inputs == [] then Some(c)
    else
      match Step(c, inputs[0])
      case None => None
      case Some(c') => Run(c', inputs[1..])
  }

  lemma {:induction false} RunConcat(c: Cpu, xs: seq<Input>, ys: seq<Input>)
    ensures Run(c, xs + ys) == match Run(c, xs) case None => None case Some(c') => Run(c', ys)
    decreases |xs|
  {
    if xs == [] {
      assert xs + ys == ys;
    } else {
      assert (xs + ys)[1..] == xs[1..] + ys;
      match Step(c, xs[0])
      case None =>
      case Some(c') => RunConcat(c', xs[1..], ys);
    }
  }
}
