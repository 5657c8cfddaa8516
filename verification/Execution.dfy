/**
 What the processor does with the bytes of one line: exactly what the source machine does with the
 line.
 */
module Execution {
  import opened Bytes
  import opened Lexer
  import opened Isa
  import opened Processor
  import opened Assembler
  import opened Encoding
  import opened SourceMachine
  import Alu

  function RegsOf(c: Cpu): Regs {
    Regs(c.acc, c.sp, c.x, c.y, c.p, c.q, c.ia, c.carry, c.intEn, c.intActive, c.idbg, c.ioRd, c.ioWr, c.rom, c.ram)
  }

  /** No interrupt line is raised. */
  predicate Silent(input: Input) {
    !input.irq0 && !input.irq1
  }

  // ----- one instruction

  /** Address of what comes next. */
  function NextAddr(r: Regs, item: Item, a: Word16, v: int): Word16 {
    match Leaves(r, item, v)
    case None => Wrap16(a + Size(item))
    case Some(target) => target
  }

  /** The processor has done the line at a. */
  ghost predicate Did(c: Cpu, item: Item, v: int, inputs: seq<Input>, r: Option<Cpu>)
    requires Supported(item) && Fits(item, c.pc, v) && |inputs| == Steps(item)
  {
    && r.Some? && RegsOf(r.value) == After(RegsOf(c), item, c.pc, v, inputs)
    && r.value.pc == NextAddr(RegsOf(c), item, c.pc, v) && r.value.intsIn == 0
  }

  /** The instruction at pc, when no device and no interrupt gets in the way. */
  lemma StepIs(c: Cpu, input: Input, m: Mnemonic)
    requires c.intsIn == 0 && Silent(input) && Decode(Peek(c, c.pc)) == Some(m)
    requires var c' := Exec(Ready(c), m); c'.intsIn == 0 && !c'.ioRd
    ensures Step(c, input) == Some(Exec(Ready(c), m))
  {
    hide Exec, Decode, Lookup;
    LookupIsDecode(Peek(c, c.pc));
  }

  function Ready(c: Cpu): Cpu {
    c.(ioRd := false, ioWr := false)
  }

  lemma DecodePlain(m: Mnemonic, y: bool)
    requires Parsed(Plain(m, y)) && Runnable(m)
    ensures Decode(PlainByte(m, y)) == Some(m)
    ensures IsXYOp(m) ==> (PlainByte(m, y) / 16 % 2 == 1 <==> y)
  {
    hide Decode;
    MatchDecodes(PlainByte(m, y), m);
  }

  lemma {:induction false} ZeroOr(b: nat, n: nat)
    requires b < Pow2(n)
    ensures BitsOf(OrOp, 0, b, n) == b
  {
    if n > 0 {
      ZeroOr(b / 2, n - 1);
    }
  }

  lemma ZeroOrByte(b: Byte)
    ensures Bitwise(OrOp, 0, b) == b
  {
    Pow2Of8();
    ZeroOr(b, 8);
  }

  /** What an operation of the arithmetic unit does: it changes accumulator and carry only. */
  ghost predicate Computes(c: Cpu, m: Mnemonic, y: bool)
    requires IsAluOp(m)
  {
    var r := AfterPlain(RegsOf(c), m, y, c.pc);
    ExecAlu(c, m) == Advance(c.(acc := r.acc, carry := r.carry), 1, 1)
  }

  lemma PlainBits(c: Cpu, m: Mnemonic, y: bool)
    requires (m.Ipoll? || m.Or? || m.And? || m.Xor?) && c.intsIn == 0
    requires !m.Ipoll? ==> (Peek(c, c.pc) / 16 % 2 == 1 <==> y)
    ensures Computes(c, m, y)
  {
    hide Computes;
    if m.Ipoll? {
      PlainIpoll(c, y);
    } else {
      PlainBitwise(c, m, y);
    }
  }

  lemma PlainBitwise(c: Cpu, m: Mnemonic, y: bool)
    requires (m.Or? || m.And? || m.Xor?) && (Peek(c, c.pc) / 16 % 2 == 1 <==> y)
    ensures Computes(c, m, y)
  {
    hide Bitwise, Advance, Peek;
  }

  lemma PlainIpoll(c: Cpu, y: bool)
    requires c.intsIn == 0
    ensures Computes(c, Ipoll, y)
  {
    hide Bitwise, Advance, Peek;
    var flags: Byte := 64 * Alu.Bit(c.intEn) + 128 * Alu.Bit(c.intActive);
    ZeroOrByte(flags);
  }

  lemma PlainArithmetic(c: Cpu, m: Mnemonic, y: bool)
    requires (m.Add? || m.Sub?) && (Peek(c, c.pc) / 16 % 2 == 1 <==> y)
    ensures Computes(c, m, y)
  {
    hide Advance, Peek, Alu.Add, Alu.Sub;
  }

  lemma PlainShift(c: Cpu, m: Mnemonic, y: bool)
    requires m.Sl? || m.Slc? || m.Sr? || m.Src?
    ensures Computes(c, m, y)
  {
    hide Advance, Alu.ShiftLeft, Alu.ShiftRight;
  }

  ghost predicate DidPlain(c: Cpu, m: Mnemonic, y: bool, c': Cpu)
    requires Parsed(Plain(m, y)) && Runnable(m)
  {
    && RegsOf(c') == AfterPlain(RegsOf(c), m, y, c.pc)
    && c'.pc == NextAddr(RegsOf(c), Plain(m, y), c.pc, 0) && c'.intsIn == 0 && c'.ioRd == c.ioRd
  }

  lemma Advanced(c: Cpu, acc: Byte, carry: bool, n: nat)
    ensures var c' := Advance(c.(acc := acc, carry := carry), n, n);
            && RegsOf(c') == RegsOf(c).(acc := acc, carry := carry)
            && c'.pc == Wrap16(c.pc + n) && c'.intsIn == c.intsIn && c'.ioRd == c.ioRd
  {
  }

  lemma SameCarry(c: Cpu, acc: Byte)
    ensures c.(acc := acc) == c.(acc := acc, carry := RegsOf(c).carry)
  {
  }

  lemma SameAcc(c: Cpu, carry: bool)
    ensures c.(carry := carry) == c.(acc := RegsOf(c).acc, carry := carry)
  {
  }

  /** An operation on the accumulator or the carry changes nothing else. */
  lemma PlainChanges(r: Regs, m: Mnemonic, y: bool, a: Word16)
    requires IsAluOp(m) && !IsImmediateOp(m)
    ensures var r' := AfterPlain(r, m, y, a); r' == r.(acc := r'.acc, carry := r'.carry)
  {
    hide AfterPlain;
    if m.Ipoll? || m.Or? || m.And? || m.Xor? {
      BitsChange(r, m, y, a);
    } else if m.Sl? || m.Slc? || m.Sr? || m.Src? {
      ShiftChanges(r, m, y, a);
    } else {
      SumChanges(r, m, y, a);
    }
  }

  lemma BitsChange(r: Regs, m: Mnemonic, y: bool, a: Word16)
    requires m.Ipoll? || m.Or? || m.And? || m.Xor?
    ensures var r' := AfterPlain(r, m, y, a); r' == r.(acc := r'.acc, carry := r'.carry)
  {
    hide Bitwise, Index;
  }

  lemma ShiftChanges(r: Regs, m: Mnemonic, y: bool, a: Word16)
    requires m.Sl? || m.Slc? || m.Sr? || m.Src?
    ensures var r' := AfterPlain(r, m, y, a); r' == r.(acc := r'.acc, carry := r'.carry)
  {
    hide Alu.ShiftLeft, Alu.ShiftRight;
  }

  lemma SumChanges(r: Regs, m: Mnemonic, y: bool, a: Word16)
    requires m.Add? || m.Adc? || m.Sub? || m.Sbc?
    ensures var r' := AfterPlain(r, m, y, a); r' == r.(acc := r'.acc, carry := r'.carry)
  {
    hide Alu.Add, Alu.Sub, Index;
  }

  lemma CarryChanges(r: Regs, m: Mnemonic, y: bool, a: Word16)
    requires IsCarryOp(m)
    ensures AfterPlain(r, m, y, a) == r.(carry := NewCarry(r.acc, r.carry, m))
  {
  }

  /** Instructions that do not jump are followed by the next byte. */
  lemma PlainNext(r: Regs, m: Mnemonic, y: bool, a: Word16)
    requires Parsed(Plain(m, y)) && (IsAluOp(m) || IsCarryOp(m))
    ensures NextAddr(r, Plain(m, y), a, 0) == Wrap16(a + 1)
  {
  }

  lemma ExecPlainAlu(c: Cpu, m: Mnemonic, y: bool)
    requires Parsed(Plain(m, y)) && Runnable(m) && IsAluOp(m) && c.intsIn == 0
    requires IsXYOp(m) ==> (Peek(c, c.pc) / 16 % 2 == 1 <==> y)
    ensures DidPlain(c, m, y, ExecAlu(c, m))
  {
    hide Peek, ExecAlu, AfterPlain, NextAddr, RegsOf, Advance;
    if m.Ipoll? || m.Or? || m.And? || m.Xor? {
      PlainBits(c, m, y);
    } else if m.Add? || m.Sub? {
      PlainArithmetic(c, m, y);
    } else {
      PlainShift(c, m, y);
    }
    var r := AfterPlain(RegsOf(c), m, y, c.pc);
    PlainChanges(RegsOf(c), m, y, c.pc);
    PlainNext(RegsOf(c), m, y, c.pc);
    Advanced(c, r.acc, r.carry, 1);
  }

  lemma ExecPlainCarry(c: Cpu, m: Mnemonic, y: bool)
    requires Parsed(Plain(m, y)) && IsCarryOp(m) && c.intsIn == 0
    ensures DidPlain(c, m, y, ExecCarry(c, m))
  {
    hide AfterPlain, NextAddr, RegsOf, Advance, NewCarry;
    SameView(c);
    var carry := NewCarry(c.acc, c.carry, m);
    CarryChanges(RegsOf(c), m, y, c.pc);
    PlainNext(RegsOf(c), m, y, c.pc);
    SameAcc(c, carry);
    Advanced(c, c.acc, carry, 1);
  }

  lemma SameView(c: Cpu)
    ensures RegsOf(c).acc == c.acc && RegsOf(c).carry == c.carry
  {
  }

  lemma ExecPlainControl(c: Cpu, m: Mnemonic, y: bool)
    requires Parsed(Plain(m, y)) && Runnable(m) && !IsAluOp(m) && !IsCarryOp(m) && c.intsIn == 0
    ensures DidPlain(c, m, y, if m.Jp? || m.Jpr? || m.Jxi? then ExecIndirect(c, m) else ExecFlags(c, m))
  {
  }

  lemma ExecPlain(c: Cpu, m: Mnemonic, y: bool)
    requires Parsed(Plain(m, y)) && Runnable(m) && c.intsIn == 0
    requires IsXYOp(m) ==> (Peek(c, c.pc) / 16 % 2 == 1 <==> y)
    ensures DidPlain(c, m, y, Exec(c, m))
  {
    hide Bitwise, Peek, ExecAlu, ExecCarry, ExecIndirect, ExecFlags, DidPlain;
    if IsAluOp(m) {
      ExecPlainAlu(c, m, y);
    } else if IsCarryOp(m) {
      ExecPlainCarry(c, m, y);
    } else {
      ExecPlainControl(c, m, y);
    }
  }

  lemma PlainRuns(c: Cpu, m: Mnemonic, y: bool, input: Input)
    requires Legal(Plain(m, y)) && Runnable(m) && c.intsIn == 0 && Silent(input)
    requires c.pc < ROM_SIZE && c.rom[c.pc] == PlainByte(m, y)
    ensures Did(c, Plain(m, y), 0, [input], Step(c, input))
  {
    hide Decode, Lookup, PlainByte, Exec, AfterPlain, Opcode, Step;
    DecodePlain(m, y);
    ExecPlain(Ready(c), m, y);
    StepIs(c, input, m);
  }

  lemma Dispatch(c: Cpu, m: Mnemonic)
    ensures IsRegisterOp(m) ==> Exec(c, m) == ExeRMove(c)
    ensures IsMemoryOp(m) ==> Exec(c, m) == ExecMemory(c, m)
  {
    hide ExeRMove, ExecMemory, ExecRelative, ExecAlu, ExecIndirect, ExecCarry, ExecFlags;
  }

  lemma DispatchLong(c: Cpu, m: Mnemonic)
    ensures IsRelativeOp(m) ==> Exec(c, m) == ExecRelative(c, m)
    ensures IsImmediateOp(m) ==> Exec(c, m) == ExecAlu(c, m)
  {
    hide ExeRMove, ExecMemory, ExecRelative, ExecAlu, ExecIndirect, ExecCarry, ExecFlags;
  }

  lemma DecodeRegister(m: Mnemonic, reg: Reg)
    requires IsRegisterOp(m) && reg != Acc
    ensures var b := RegisterByte(m, reg);
            && Decode(b) == Some(m) && RegOf(b) == reg
            && (b / 16 % 2 == 1 <==> m.Rd? || m.Sw?) && (b / 8 % 2 == 1 <==> m.Wr? || m.Sw?)
  {
  }

  lemma ExecRegister(c: Cpu, m: Mnemonic, reg: Reg)
    requires IsRegisterOp(m) && reg != Acc && reg != IO && Peek(c, c.pc) == RegisterByte(m, reg)
    ensures var c' := ExeRMove(c);
            && RegsOf(c') == AfterRegister(RegsOf(c), m, reg, Input(None, false, false))
            && c'.pc == Wrap16(c.pc + 1) && c'.intsIn == c.intsIn && c'.ioRd == c.ioRd
  {
    hide Peek, Decode;
    DecodeRegister(m, reg);
  }

  /** Other registers do not depend on the devices. */
  lemma AskNobody(r: Regs, m: Mnemonic, reg: Reg, input: Input)
    requires reg != IO
    ensures AfterRegister(r, m, reg, input) == AfterRegister(r, m, reg, Input(None, false, false))
  {
  }

  lemma ExecIO(c: Cpu, m: Mnemonic)
    requires IsRegisterOp(m) && Peek(c, c.pc) == RegisterByte(m, IO)
    ensures ExeRMove(c)
         == Processor.Advance(c.(ioRd := c.ioRd || m.Rd? || m.Sw?, ioWr := c.ioWr || m.Wr? || m.Sw?), 1, 1)
  {
    hide Peek, RegisterByte, Decode, SetHigh, SetLow, Advance;
    DecodeRegister(m, IO);
  }

  lemma IORuns(c: Cpu, m: Mnemonic, input: Input)
    requires IsRegisterOp(m) && c.intsIn == 0 && Silent(input)
    requires c.pc < ROM_SIZE && c.rom[c.pc] == RegisterByte(m, IO)
    ensures Did(c, Register(m, IO), 0, [input], Step(c, input))
  {
    hide Decode, Lookup, RegisterByte, Set, Get, Exec, ExeRMove;
    DecodeRegister(m, IO);
    LookupIsDecode(c.rom[c.pc]);
    Dispatch(Ready(c), m);
    ExecIO(Ready(c), m);
  }

  lemma RegisterRuns(c: Cpu, m: Mnemonic, reg: Reg, input: Input)
    requires Legal(Register(m, reg)) && c.intsIn == 0 && Silent(input)
    requires c.pc < ROM_SIZE && c.rom[c.pc] == RegisterByte(m, reg)
    ensures Did(c, Register(m, reg), 0, [input], Step(c, input))
  {
    hide Decode, Lookup, RegisterByte, ExeRMove, Step, AfterRegister, ExecAlu;
    if reg == IO {
      IORuns(c, m, input);
    } else {
      assert AfterRegister(RegsOf(Ready(c)), m, reg, input)
          == AfterRegister(RegsOf(Ready(c)), m, reg, Input(None, false, false)) by {
        AskNobody(RegsOf(Ready(c)), m, reg, input);
      }
      DecodeRegister(m, reg);
      hide Exec;
      Dispatch(Ready(c), m);
      ExecRegister(Ready(c), m, reg);
      StepIs(c, input, m);
    }
  }

  lemma DecodeImmediate(m: Mnemonic)
    requires IsImmediateOp(m)
    ensures Decode(Opcode(m)) == Some(m)
  {
  }

  lemma ImmediateBitsIs(c: Cpu, m: Mnemonic)
    requires m.Rdi? || m.Ori? || m.Andi? || m.Xori?
    ensures ExecAlu(c, m) == Advance(c.(acc := AfterImmediate(RegsOf(c), m, Processor.Operand(c)).acc), 2, 2)
  {
    hide Bitwise, Processor.Operand, Advance;
  }

  lemma ImmediateArithmeticIs(c: Cpu, m: Mnemonic)
    requires m.Addi? || m.Adci? || m.Subi? || m.Sbci?
    ensures var r := AfterImmediate(RegsOf(c), m, Processor.Operand(c));
            ExecAlu(c, m) == Advance(c.(acc := r.acc, carry := r.carry), 2, 2)
  {
    if m.Addi? || m.Adci? {
      ImmediateSumIs(c, m);
    } else {
      ImmediateDifferenceIs(c, m);
    }
  }

  lemma ImmediateSumIs(c: Cpu, m: Mnemonic)
    requires m.Addi? || m.Adci?
    ensures var r := AfterImmediate(RegsOf(c), m, Processor.Operand(c));
            ExecAlu(c, m) == Advance(c.(acc := r.acc, carry := r.carry), 2, 2)
  {
    hide Alu.Add, Processor.Operand, Advance;
  }

  lemma ImmediateDifferenceIs(c: Cpu, m: Mnemonic)
    requires m.Subi? || m.Sbci?
    ensures var r := AfterImmediate(RegsOf(c), m, Processor.Operand(c));
            ExecAlu(c, m) == Advance(c.(acc := r.acc, carry := r.carry), 2, 2)
  {
    hide Alu.Sub, Processor.Operand, Advance;
  }

  /** An immediate operation changes accumulator and carry only, and a bitwise one the accumulator only. */
  lemma OnlyAccumulator(r: Regs, m: Mnemonic, b: Byte)
    requires IsImmediateOp(m)
    ensures var r' := AfterImmediate(r, m, b);
            && r' == r.(acc := r'.acc, carry := r'.carry)
            && (m.Rdi? || m.Ori? || m.Andi? || m.Xori? ==> r'.carry == r.carry)
  {
    hide Bitwise, Alu.Add, Alu.Sub;
    match m
    case Rdi | Ori | Andi | Xori =>
    case _ =>
  }

  lemma ExecImmediate(c: Cpu, m: Mnemonic)
    requires IsImmediateOp(m)
    ensures var c' := Exec(c, m);
            && RegsOf(c') == AfterImmediate(RegsOf(c), m, Processor.Operand(c))
            && c'.pc == Wrap16(c.pc + 2) && c'.intsIn == c.intsIn && c'.ioRd == c.ioRd
  {
    hide Processor.Operand, AfterImmediate, ExecAlu, Exec, Advance, RegsOf;
    DispatchLong(c, m);
    var r := AfterImmediate(RegsOf(c), m, Processor.Operand(c));
    OnlyAccumulator(RegsOf(c), m, Processor.Operand(c));
    Advanced(c, r.acc, r.carry, 2);
    if m.Rdi? || m.Ori? || m.Andi? || m.Xori? {
      ImmediateBitsIs(c, m);
      SameCarry(c, r.acc);
    } else {
      ImmediateArithmeticIs(c, m);
    }
  }

  lemma ImmediateRuns(c: Cpu, m: Mnemonic, text: string, v: int, input: Input)
    requires IsImmediateOp(m) && c.intsIn == 0 && Silent(input)
    requires c.pc + 1 < ROM_SIZE && c.rom[c.pc] == Opcode(m) && c.rom[c.pc + 1] == v % 256
    ensures Did(c, Immediate(m, text), v, [input], Step(c, input))
  {
    hide Decode, Lookup, Opcode, Exec, AfterImmediate, Step;
    DecodeImmediate(m);
    ExecImmediate(Ready(c), m);
    StepIs(c, input, m);
  }

  lemma DecodeMemory(m: Mnemonic, mode: MemMode, offset: int)
    requires IsMemoryOp(m) && 0 <= offset < 16
    ensures var b := Opcode(m) + ModeBits(mode) + offset;
            b < 256 && Decode(b) == Some(m) && ModeOf(b) == mode && b % 16 == offset
  {
  }

  lemma AddressIs(c: Cpu, mode: MemMode, offset: int)
    requires ModeOf(Peek(c, c.pc)) == mode && Peek(c, c.pc) % 16 == offset
    ensures var addr := Address(RegsOf(c), mode, offset);
            MemAddr(c) == (addr, if mode == PPreMode then c.(p := addr) else c)
  {
    hide ModeOf, Peek;
  }

  lemma LoadIs(c: Cpu, mode: MemMode, offset: int)
    requires ModeOf(Peek(c, c.pc)) == mode && Peek(c, c.pc) % 16 == offset
    ensures DidMemory(c, Ld, mode, offset, ExecMemory(c, Ld))
  {
    AddressIs(c, mode, offset);
    hide ModeOf, MemAddr, Address;
  }

  lemma StoreIs(c: Cpu, mode: MemMode, offset: int)
    requires ModeOf(Peek(c, c.pc)) == mode && Peek(c, c.pc) % 16 == offset
    ensures DidMemory(c, St, mode, offset, ExecMemory(c, St))
  {
    AddressIs(c, mode, offset);
    hide ModeOf, MemAddr, Address, Peek;
  }

  ghost predicate DidMemory(c: Cpu, m: Mnemonic, mode: MemMode, offset: int, c': Cpu) {
    && RegsOf(c') == AfterMemory(RegsOf(c), m, mode, offset)
    && c'.pc == Wrap16(c.pc + 1) && c'.intsIn == c.intsIn && c'.ioRd == c.ioRd
  }

  lemma ExecMemoryIs(c: Cpu, m: Mnemonic, mode: MemMode, offset: int)
    requires IsMemoryOp(m) && ModeOf(Peek(c, c.pc)) == mode && Peek(c, c.pc) % 16 == offset
    ensures DidMemory(c, m, mode, offset, ExecMemory(c, m))
  {
    hide DidMemory, ExecMemory, ModeOf, Peek;
    if m == Ld {
      LoadIs(c, mode, offset);
    } else {
      StoreIs(c, mode, offset);
    }
  }

  lemma MemoryRuns(c: Cpu, m: Mnemonic, mode: MemMode, text: string, v: int, input: Input)
    requires IsMemoryOp(m) && c.intsIn == 0 && Silent(input)
    requires c.pc < ROM_SIZE && c.rom[c.pc] == Opcode(m) + ModeBits(mode) + v % 16
    ensures Did(c, Memory(m, mode, text), v, [input], Step(c, input))
  {
    hide Decode, Lookup, Opcode, Exec, ExecMemory, AfterMemory, Step;
    DecodeMemory(m, mode, v % 16);
    Dispatch(Ready(c), m);
    ExecMemoryIs(Ready(c), m, mode, v % 16);
    StepIs(c, input, m);
  }

  /** The eleven bits of a jump offset are enough exactly for the offsets the assembler accepts. */
  lemma OffsetRoundTrip(offset: int)
    ensures SignExtend11(OffsetBits(offset) / 2 % 8 * 256 + offset % 256) == offset <==> -1024 <= offset < 1024
  {
    var q := offset / 256;
    assert offset == 256 * q + offset % 256;
  }

  lemma DecodeRelative(m: Mnemonic, offset: int)
    requires IsRelativeOp(m) && Runnable(m)
    ensures var b := Opcode(m) + OffsetBits(offset);
            b < 256 && Decode(b) == Some(m) && b / 2 % 8 == OffsetBits(offset) / 2 % 8
  {
    var bits := OffsetBits(offset);
    assert bits % 2 == 0 && bits < 16;
  }

  lemma ExecRelativeIs(c: Cpu, m: Mnemonic, v: int)
    requires IsRelativeOp(m) && Runnable(m) && JumpOffset(c) == v - c.pc - 1
    ensures var c' := Exec(c, m);
            && RegsOf(c') == (if m.Jr? then RegsOf(c).(p := Wrap16(c.pc + 1)) else RegsOf(c))
            && c'.pc == (if m.Jc? && !c.carry then Wrap16(c.pc + 2) else Wrap16(v))
            && c'.intsIn == c.intsIn && c'.ioRd == c.ioRd
  {
    hide Exec, JumpOffset;
    DispatchLong(c, m);
  }

  lemma RelativeRuns(c: Cpu, m: Mnemonic, text: string, v: int, input: Input)
    requires IsRelativeOp(m) && Runnable(m) && c.intsIn == 0 && Silent(input)
    requires -1024 <= v - c.pc - 1 < 1024 && c.pc + 1 < ROM_SIZE
    requires c.rom[c.pc] == Opcode(m) + OffsetBits(v - c.pc - 1) && c.rom[c.pc + 1] == (v - c.pc - 1) % 256
    ensures Did(c, Relative(m, text), v, [input], Step(c, input))
  {
    hide Decode, Lookup, Opcode, OffsetBits, SignExtend11, Step, Exec;
    var offset := v - c.pc - 1;
    DecodeRelative(m, offset);
    OffsetRoundTrip(offset);
    assert JumpOffset(Ready(c)) == offset;
    ExecRelativeIs(Ready(c), m, v);
    hide JumpOffset;
    StepIs(c, input, m);
  }

  // ----- the instructions that are never executed

  lemma DecodeJcr(offset: int)
    ensures var b := Opcode(Jcr) + OffsetBits(offset);
            b < 256 && Decode(b) == Some(Jc) && b / 2 % 8 == OffsetBits(offset) / 2 % 8
  {
  }

  /** The bytes of jcr jump like jc: nothing is left in p to return with. */
  lemma JcrRunsAsJc(c: Cpu, text: string, v: int, input: Input)
    requires c.intsIn == 0 && Silent(input)
    requires -1024 <= v - c.pc - 1 < 1024 && c.pc + 1 < ROM_SIZE
    requires c.rom[c.pc] == Opcode(Jcr) + OffsetBits(v - c.pc - 1) && c.rom[c.pc + 1] == (v - c.pc - 1) % 256
    ensures Did(c, Relative(Jc, text), v, [input], Step(c, input))
  {
    hide Decode, Lookup, Opcode, OffsetBits, SignExtend11, Step, Exec;
    var offset := v - c.pc - 1;
    DecodeJcr(offset);
    OffsetRoundTrip(offset);
    assert JumpOffset(Ready(c)) == offset;
    ExecRelativeIs(Ready(c), Jc, v);
    hide JumpOffset;
    StepIs(c, input, Jc);
  }

  /** The bytes of adc and sbc add and subtract without looking at the carry. */
  lemma CarryFormsRunAsPlain(c: Cpu, m: Mnemonic, y: bool, input: Input)
    requires (m.Adc? || m.Sbc?) && c.intsIn == 0 && Silent(input)
    requires c.pc < ROM_SIZE && c.rom[c.pc] == PlainByte(m, y)
    ensures Did(c, Plain(Shadow(m), y), 0, [input], Step(c, input))
  {
    hide Step, Decode, Did;
    PlainRuns(c, Shadow(m), y, input);
  }

  /** The emulator finds the instruction that a byte was assembled for if and only if it is not one of the
      three. */
  lemma DecodesExactly(b: Byte, m: Mnemonic)
    requires Matches(b, m)
    ensures Lookup(b) == Some(m) <==> Runnable(m)
  {
    hide Matches, Lookup, Decode;
    MatchDecodes(b, m);
    LookupIsDecode(b);
  }

  lemma StepOfCarryForm(c: Cpu, m: Mnemonic, y: bool, input: Input)
    requires (m.Adc? || m.Sbc?) && c.intsIn == 0 && Silent(input)
    requires c.pc < ROM_SIZE && c.rom[c.pc] == PlainByte(m, y)
    ensures Step(c, input) == Some(ExecArithmetic(Ready(c), Shadow(m)))
  {
    hide Decode, Lookup, Arithmetic, Step, Exec;
    DecodePlain(Shadow(m), y);
    ArithmeticDispatch(Ready(c), Shadow(m));
    StepIs(c, input, Shadow(m));
  }

  lemma ArithmeticDispatch(c: Cpu, m: Mnemonic)
    requires m.Add? || m.Adc? || m.Sub? || m.Sbc?
    ensures Exec(c, m) == ExecArithmetic(c, m)
  {
    hide ExecArithmetic;
  }

  /** The byte of adc does what adc is for if and only if the carry is clear and the sum fits a byte. */
  lemma AdcExactly(c: Cpu, y: bool, input: Input)
    requires c.intsIn == 0 && Silent(input) && c.pc < ROM_SIZE && c.rom[c.pc] == PlainByte(Adc, y)
    ensures Step(c, input) == Some(Exec(Ready(c), Adc)) <==> !c.carry && c.acc as int + AluReg(c) as int < 256
  {
    hide Step, Exec, Peek, PlainByte, AluReg;
    StepOfCarryForm(c, Adc, y, input);
    ArithmeticDispatch(Ready(c), Adc);
    SameOperand(c);
    SumsDiffer(c.acc, AluReg(c), c.carry);
  }

  /** The byte of sbc does what sbc is for if and only if the carry is set and nothing is borrowed. */
  lemma SbcExactly(c: Cpu, y: bool, input: Input)
    requires c.intsIn == 0 && Silent(input) && c.pc < ROM_SIZE && c.rom[c.pc] == PlainByte(Sbc, y)
    ensures Step(c, input) == Some(Exec(Ready(c), Sbc)) <==> c.carry && c.acc >= AluReg(c)
  {
    hide Step, Exec, Peek, PlainByte, AluReg;
    StepOfCarryForm(c, Sbc, y, input);
    ArithmeticDispatch(Ready(c), Sbc);
    SameOperand(c);
    SumsDiffer(c.acc, AluReg(c), c.carry);
  }

  lemma SameOperand(c: Cpu)
    ensures AluReg(Ready(c)) == AluReg(c)
  {
  }

  lemma SumsDiffer(a: Byte, b: Byte, carry: bool)
    ensures var s := Alu.Add(a, b, carry);
            (s.q, s.carry) == (Alu.Add(a, b, false).q, carry) <==> !carry && a as int + b as int < 256
    ensures var s := Alu.Sub(a, b, carry);
            (s.q, s.carry) == (Alu.Sub(a, b, true).q, carry) <==> carry && a >= b
  {
  }

  /** The bytes of jcr do what jcr is for if and only if the carry is clear, or p already holds what jcr would
      leave in it. */
  lemma JcrExactly(c: Cpu, v: int, input: Input)
    requires c.intsIn == 0 && Silent(input)
    requires -1024 <= v - c.pc - 1 < 1024 && c.pc + 1 < ROM_SIZE
    requires c.rom[c.pc] == Opcode(Jcr) + OffsetBits(v - c.pc - 1) && c.rom[c.pc + 1] == (v - c.pc - 1) % 256
    ensures Step(c, input) == Some(Exec(Ready(c), Jcr)) <==> !c.carry || c.p == Wrap16(c.pc + 1)
  {
    hide Decode, Lookup, Opcode, OffsetBits, SignExtend11, Step, Exec, JumpOffset;
    DecodeJcr(v - c.pc - 1);
    DispatchLong(Ready(c), Jc);
    DispatchLong(Ready(c), Jcr);
    StepIs(c, input, Jc);
  }
}
