/**
 Interrupts: handlers never nest and return to the exact instruction they interrupted, and handlers
 that restore what they use are invisible to the program they interrupt.
 */
module Interrupts {
  import opened Bytes
  import opened Lexer
  import opened Isa
  import opened Processor
  import opened Execution
  import Alu

  // ----- entering and leaving

  predicate IsJxi(c: Cpu) {
    Lookup(Peek(c, c.pc)) == Some(Jxi)
  }

  /** The step without the entry into a handler at its end. */
  function Body(c: Cpu, m: Mnemonic, input: Input): Cpu {
    Devices(Exec(Ready(c), m), input)
  }

  /** No instruction but jxi touches what belongs to interrupts. */
  ghost predicate Keeps(c: Cpu, c': Cpu) {
    c'.ia == c.ia && c'.intsIn == c.intsIn && c'.rom == c.rom && c'.intActive == c.intActive
  }

  /** Most do not touch the enabling of interrupts either. And they take so many clocks. */
  ghost predicate Untouched(c: Cpu, c': Cpu, clocks: nat) {
    Keeps(c, c') && c'.intEn == c.intEn && c'.elapsed == c.elapsed + clocks
  }

  /** Instructions of two bytes and those with a memory access take two clocks, all others one. */
  function Clocks(m: Mnemonic): nat {
    if m.Ld? || m.St? || IsLong(m) then 2 else 1
  }

  lemma MemoryKeeps(c: Cpu, m: Mnemonic)
    requires m.Ld? || m.St?
    ensures Untouched(c, ExecMemory(c, m), 2)
  {
    hide ModeOf, Peek, StackBase;
  }

  lemma ReadWriteKeep(c: Cpu, r: Reg, tmp: Byte)
    ensures Untouched(c, ReadReg(c, r), 0) && Untouched(c, WriteReg(c, r, tmp), 0)
  {
    hide SetHigh, SetLow;
  }

  lemma RMoveKeeps(c: Cpu)
    ensures Untouched(c, ExeRMove(c), 1)
  {
    hide Peek, RegOf, ReadReg, WriteReg;
    var reg := RegOf(Peek(c, c.pc));
    ReadWriteKeep(c, reg, c.acc);
    ReadWriteKeep(ReadReg(c, reg), reg, c.acc);
  }

  lemma AluKeeps(c: Cpu, m: Mnemonic)
    requires IsAluOp(m)
    ensures Untouched(c, ExecAlu(c, m), Clocks(m))
  {
    hide ExecImmediateBits, ExecImmediateArithmetic, ExecArithmetic, ExecShift, ExecBits;
    if m.Rdi? || m.Ori? || m.Andi? || m.Xori? {
      ImmediateBitsKeeps(c, m);
    } else if m.Addi? || m.Adci? || m.Subi? || m.Sbci? || m.Add? || m.Adc? || m.Sub? || m.Sbc? {
      ArithmeticKeeps(c, m);
    } else if m.Sl? || m.Slc? || m.Sr? || m.Src? {
      ShiftKeeps(c, m);
    } else {
      BitsKeeps(c, m);
    }
  }

  lemma ImmediateBitsKeeps(c: Cpu, m: Mnemonic)
    requires m.Rdi? || m.Ori? || m.Andi? || m.Xori?
    ensures Untouched(c, ExecImmediateBits(c, m), 2)
  {
    hide Bitwise, Processor.Operand;
  }

  lemma ArithmeticKeeps(c: Cpu, m: Mnemonic)
    requires IsArithmetic(m)
    ensures if m.Add? || m.Adc? || m.Sub? || m.Sbc? then Untouched(c, ExecArithmetic(c, m), 1)
            else Untouched(c, ExecImmediateArithmetic(c, m), 2)
  {
    hide Arithmetic, Processor.Operand, AluReg;
  }

  lemma ShiftKeeps(c: Cpu, m: Mnemonic)
    requires m.Sl? || m.Slc? || m.Sr? || m.Src?
    ensures Untouched(c, ExecShift(c, m), 1)
  {
    hide Alu.ShiftLeft, Alu.ShiftRight;
  }

  lemma BitsKeeps(c: Cpu, m: Mnemonic)
    requires m.Ipoll? || m.Or? || m.And? || m.Xor?
    ensures Untouched(c, ExecBits(c, m), 1)
  {
    hide Bitwise, AluReg;
  }

  lemma JumpKeeps(c: Cpu, m: Mnemonic)
    requires m.J? || m.Jr? || m.Jc? || m.Jcr?
    ensures Untouched(c, ExecRelative(c, m), 2)
  {
    hide JumpOffset;
  }

  lemma FlagKeeps(c: Cpu, m: Mnemonic)
    ensures IsCarryOp(m) ==> Untouched(c, ExecCarry(c, m), 1)
    ensures m.Brk? || m.Nop? ==> Untouched(c, ExecFlags(c, m), 1)
    ensures m.Dint? || m.Eint? ==> 
              Keeps(c, ExecFlags(c, m)) && ExecFlags(c, m).intEn == m.Eint? && ExecFlags(c, m).elapsed == c.elapsed + 1
    ensures m.Jp? || m.Jpr? ==> Untouched(c, ExecIndirect(c, m), 1)
  {
    hide NewCarry;
  }

  lemma ExecKeeps(c: Cpu, m: Mnemonic)
    ensures if m == Jxi then Exec(c, m) == c.(pc := Wrap16(c.ia + 1), intActive := false, elapsed := c.elapsed + 1)
            else Keeps(c, Exec(c, m)) && Exec(c, m).intEn == (m == Eint || (m != Dint && c.intEn))
    ensures Exec(c, m).elapsed == c.elapsed + Clocks(m)
  {
    hide ExecMemory, ExeRMove, ExecAlu, ExecRelative, ExecFlags, ExecCarry, Keeps;
    if IsAluOp(m) {
      AluKeeps(c, m);
    } else if m.Ld? || m.St? {
      MemoryKeeps(c, m);
    } else if m.Rd? || m.Wr? || m.Sw? {
      RMoveKeeps(c);
    } else if m.J? || m.Jr? || m.Jc? || m.Jcr? {
      JumpKeeps(c, m);
    } else {
      FlagKeeps(c, m);
    }
  }

  /** One step and the interrupt state. In a handler, no other is entered, and the way back is kept,
      until jxi: it leads to the instruction the handler interrupted, or straight into the next handler
      with the same way back. Outside, a handler is entered exactly when interrupts are enabled and
      requested, and the way back is the instruction that would have been next. */
  lemma HandlersDoNotNest(c: Cpu, input: Input)
    requires Step(c, input).Some?
    ensures var c' := Step(c, input).value;
            if c.intActive && !IsJxi(c) then c'.intActive && c'.ia == c.ia
            else if c.intActive then
              (if c'.intActive then c'.ia == c.ia && c'.pc == ISR_ADDR else c'.pc == Wrap16(c.ia + 1))
            else if c'.intActive then
              c'.pc == ISR_ADDR && Wrap16(c'.ia + 1) == Body(c, Lookup(Peek(c, c.pc)).value, input).pc
            else c'.ia == c.ia
  {
    hide Exec, Lookup, Wrap16, Peek;
    WrapBack(Body(c, Lookup(Peek(c, c.pc)).value, input).pc);
    WrapForth(c.ia);
    ExecKeeps(Ready(c), Lookup(Peek(c, c.pc)).value);
  }

  lemma WrapForth(ia: Word16)
    ensures Wrap16(Wrap16(ia + 1) - 1) == ia
  {
  }

  // ----- what the interrupted program can tell apart

  /** The same memory outside the places in h, which are counted from the start of the RAM. */
  ghost predicate SameMemory(h: set<nat>, c: Cpu, d: Cpu) {
    c.rom == d.rom && forall i: nat :: i < ROM_SIZE && i !in h ==> c.ram[i] == d.ram[i]
  }

  /** The same registers; the cycle count and the interrupt bookkeeping may differ. */
  ghost predicate SameRegisters(c: Cpu, d: Cpu) {
    && c.acc == d.acc && c.sp == d.sp && c.x == d.x && c.y == d.y && c.p == d.p && c.q == d.q
    && c.carry == d.carry && c.intEn == d.intEn
  }

  /** States from which the same happens outside h. */
  ghost predicate Alike(h: set<nat>, c: Cpu, d: Cpu) {
    && SameRegisters(c, d) && SameMemory(h, c, d)
    && c.pc == d.pc && c.intActive == d.intActive && c.ioRd == d.ioRd && c.ioWr == d.ioWr
  }

  predicate Visible(h: set<nat>, addr: Word16) {
    addr >= ROM_SIZE ==> addr - ROM_SIZE !in h
  }

  predicate IsLong(m: Mnemonic) {
    m.Rdi? || m.Ori? || m.Andi? || m.Xori? || m.Addi? || m.Adci? || m.Subi? || m.Sbci?
    || m.J? || m.Jr? || m.Jc? || m.Jcr?
  }

  /** An instruction that does not look at interrupts and whose bytes and data lie outside h. A write
      to the ROM lands in the RAM. */
  predicate Harmless(h: set<nat>, c: Cpu, m: Mnemonic) {
    && m != Ipoll && m != Jxi && Visible(h, c.pc)
    && (IsLong(m) ==> Visible(h, Wrap16(c.pc + 1)))
    && (m.Ld? ==> Visible(h, MemAddr(c).0))
    && (m.St? ==> MemAddr(c).0 % ROM_SIZE !in h)
  }

  lemma PeekSame(h: set<nat>, c: Cpu, d: Cpu, addr: Word16)
    requires SameMemory(h, c, d) && Visible(h, addr)
    ensures Peek(c, addr) == Peek(d, addr)
  {
  }

  // ----- alike states stay alike, instruction by instruction

  lemma JumpAlike(h: set<nat>, c: Cpu, d: Cpu)
    requires Alike(h, c, d) && JumpOffset(c) == JumpOffset(d)
    ensures Alike(h, Jump(c), Jump(d))
  {
    hide JumpOffset, Wrap16;
  }

  lemma MovedAlike(h: set<nat>, c: Cpu, d: Cpu, p: Word16)
    requires Alike(h, c, d)
    ensures Alike(h, Advance(c, 2, 2), Advance(d, 2, 2)) && Alike(h, c.(p := p), d.(p := p))
  {
    hide Wrap16;
  }

  lemma LongReads(h: set<nat>, c: Cpu, m: Mnemonic)
    requires Harmless(h, c, m) && IsLong(m)
    ensures Visible(h, c.pc) && Visible(h, Wrap16(c.pc + 1))
  {
    hide MemAddr, Wrap16, Visible;
  }

  lemma AlikeParts(h: set<nat>, c: Cpu, d: Cpu)
    requires Alike(h, c, d)
    ensures SameMemory(h, c, d) && c.pc == d.pc && c.carry == d.carry
  {
    hide SameMemory;
  }

  lemma RelativeAlike(h: set<nat>, c: Cpu, d: Cpu, m: Mnemonic)
    requires (m.J? || m.Jr? || m.Jc? || m.Jcr?) && Harmless(h, c, m) && Alike(h, c, d)
    ensures Alike(h, ExecRelative(c, m), ExecRelative(d, m))
  {
    hide Jump, Advance, Alike, Wrap16, Harmless, Peek, MemAddr, SameMemory, Visible, JumpOffset;
    LongReads(h, c, m);
    AlikeParts(h, c, d);
    OffsetAlike(h, c, d);
    JumpAlike(h, c, d);
    MovedAlike(h, c, d, c.p);
    MovedAlike(h, Jump(c), Jump(d), Wrap16(c.pc + 1));
  }

  lemma OffsetAlike(h: set<nat>, c: Cpu, d: Cpu)
    requires SameMemory(h, c, d) && c.pc == d.pc && Visible(h, c.pc) && Visible(h, Wrap16(c.pc + 1))
    ensures JumpOffset(c) == JumpOffset(d)
  {
    hide Peek;
    PeekSame(h, c, d, c.pc);
    PeekSame(h, c, d, Wrap16(c.pc + 1));
  }

  lemma FlagsAlike(h: set<nat>, c: Cpu, d: Cpu, m: Mnemonic)
    requires Alike(h, c, d)
    ensures IsCarryOp(m) ==> Alike(h, ExecCarry(c, m), ExecCarry(d, m))
    ensures m.Brk? || m.Dint? || m.Eint? || m.Nop? ==> Alike(h, ExecFlags(c, m), ExecFlags(d, m))
    ensures m.Jp? || m.Jpr? ==> Alike(h, ExecIndirect(c, m), ExecIndirect(d, m))
  {
    hide NewCarry;
  }

  lemma ReadWriteAlike(h: set<nat>, c: Cpu, d: Cpu, r: Reg, tmp: Byte)
    requires Alike(h, c, d)
    ensures Alike(h, ReadReg(c, r), ReadReg(d, r)) && Alike(h, WriteReg(c, r, tmp), WriteReg(d, r, tmp))
  {
    hide SetHigh, SetLow, SameMemory;
    assert SameMemory(h, ReadReg(c, r), ReadReg(d, r)) && SameMemory(h, WriteReg(c, r, tmp), WriteReg(d, r, tmp)) by {
      ReadWriteMemory(h, c, d, r, tmp);
    }
  }

  lemma ReadWriteMemory(h: set<nat>, c: Cpu, d: Cpu, r: Reg, tmp: Byte)
    requires SameMemory(h, c, d)
    ensures SameMemory(h, ReadReg(c, r), ReadReg(d, r)) && SameMemory(h, WriteReg(c, r, tmp), WriteReg(d, r, tmp))
  {
    hide SetHigh, SetLow;
  }

  lemma RMoveAlike(h: set<nat>, c: Cpu, d: Cpu)
    requires Alike(h, c, d) && Visible(h, c.pc)
    ensures Alike(h, ExeRMove(c), ExeRMove(d))
  {
    hide Peek, RegOf, ReadReg, WriteReg, SameMemory, Advance, Visible;
    assert SameMemory(h, c, d) && c.pc == d.pc && c.acc == d.acc;
    PeekSame(h, c, d, c.pc);
    var b := Peek(c, c.pc);
    var reg := RegOf(b);
    hide Alike;
    ReadWriteAlike(h, c, d, reg, c.acc);
    ReadWriteAlike(h, ReadReg(c, reg), ReadReg(d, reg), reg, c.acc);
    var c1, d1 := if b / 16 % 2 == 1 then ReadReg(c, reg) else c, if b / 16 % 2 == 1 then ReadReg(d, reg) else d;
    AdvancedAlike(h, c1, d1);
    AdvancedAlike(h, WriteReg(c1, reg, c.acc), WriteReg(d1, reg, c.acc));
  }

  lemma AdvancedAlike(h: set<nat>, c: Cpu, d: Cpu)
    ensures Alike(h, c, d) ==> Alike(h, Advance(c, 1, 1), Advance(d, 1, 1))
  {
    hide Wrap16;
  }

  lemma BitsAlike(h: set<nat>, c: Cpu, d: Cpu, m: Mnemonic)
    requires (m.Or? || m.And? || m.Xor?) && Alike(h, c, d) && Visible(h, c.pc)
    ensures Alike(h, ExecBits(c, m), ExecBits(d, m))
  {
    PeekSame(h, c, d, c.pc);
    hide Bitwise, Peek;
  }

  lemma ImmediateBitsAlike(h: set<nat>, c: Cpu, d: Cpu, m: Mnemonic)
    requires (m.Rdi? || m.Ori? || m.Andi? || m.Xori?) && Alike(h, c, d) && Visible(h, Wrap16(c.pc + 1))
    ensures Alike(h, ExecImmediateBits(c, m), ExecImmediateBits(d, m))
  {
    PeekSame(h, c, d, Wrap16(c.pc + 1));
    hide Bitwise, Peek;
  }

  lemma OperandsAlike(h: set<nat>, c: Cpu, d: Cpu, m: Mnemonic)
    requires IsArithmetic(m) && Harmless(h, c, m) && Alike(h, c, d)
    ensures AluReg(c) == AluReg(d) && (IsLong(m) ==> Processor.Operand(c) == Processor.Operand(d))
  {
    hide Peek;
    PeekSame(h, c, d, c.pc);
    if IsLong(m) {
      PeekSame(h, c, d, Wrap16(c.pc + 1));
    }
  }

  lemma ArithmeticAlike(h: set<nat>, c: Cpu, d: Cpu, m: Mnemonic)
    requires (m.Add? || m.Adc? || m.Sub? || m.Sbc?) && Harmless(h, c, m) && Alike(h, c, d)
    ensures Alike(h, ExecArithmetic(c, m), ExecArithmetic(d, m))
  {
    hide Arithmetic, Peek, AluReg, Processor.Operand, MemAddr;
    OperandsAlike(h, c, d, m);
  }

  lemma ImmediateArithmeticAlike(h: set<nat>, c: Cpu, d: Cpu, m: Mnemonic)
    requires (m.Addi? || m.Adci? || m.Subi? || m.Sbci?) && Harmless(h, c, m) && Alike(h, c, d)
    ensures Alike(h, ExecImmediateArithmetic(c, m), ExecImmediateArithmetic(d, m))
  {
    hide Arithmetic, Peek, AluReg, Processor.Operand, MemAddr;
    OperandsAlike(h, c, d, m);
  }

  lemma ShiftAlike(h: set<nat>, c: Cpu, d: Cpu, m: Mnemonic)
    requires (m.Sl? || m.Slc? || m.Sr? || m.Src?) && Alike(h, c, d)
    ensures Alike(h, ExecShift(c, m), ExecShift(d, m))
  {
    hide Alu.ShiftLeft, Alu.ShiftRight;
  }

  lemma AluAlike(h: set<nat>, c: Cpu, d: Cpu, m: Mnemonic)
    requires IsAluOp(m) && Harmless(h, c, m) && Alike(h, c, d)
    ensures Alike(h, ExecAlu(c, m), ExecAlu(d, m))
  {
    hide ExecImmediateBits, ExecImmediateArithmetic, ExecArithmetic, ExecShift, ExecBits;
    if m.Rdi? || m.Ori? || m.Andi? || m.Xori? {
      ImmediateBitsAlike(h, c, d, m);
    } else if m.Addi? || m.Adci? || m.Subi? || m.Sbci? {
      ImmediateArithmeticAlike(h, c, d, m);
    } else if IsArithmetic(m) {
      ArithmeticAlike(h, c, d, m);
    } else if m.Sl? || m.Slc? || m.Sr? || m.Src? {
      ShiftAlike(h, c, d, m);
    } else {
      BitsAlike(h, c, d, m);
    }
  }

  lemma MemAddrAlike(h: set<nat>, c: Cpu, d: Cpu)
    requires Alike(h, c, d) && Visible(h, c.pc)
    ensures MemAddr(c).0 == MemAddr(d).0 && Alike(h, MemAddr(c).1, MemAddr(d).1)
  {
    PeekSame(h, c, d, c.pc);
    hide Peek, ModeOf;
  }

  lemma MemoryAlike(h: set<nat>, c: Cpu, d: Cpu, m: Mnemonic)
    requires (m.Ld? || m.St?) && Harmless(h, c, m) && Alike(h, c, d)
    ensures Alike(h, ExecMemory(c, m), ExecMemory(d, m))
  {
    MemAddrAlike(h, c, d);
    hide MemAddr;
    var (addr, c') := MemAddr(c);
    if m.Ld? {
      PeekSame(h, c', MemAddr(d).1, addr);
      hide Peek;
    }
  }

  lemma ExecAlike(h: set<nat>, c: Cpu, d: Cpu, m: Mnemonic)
    requires Harmless(h, c, m) && Alike(h, c, d)
    ensures Alike(h, Exec(c, m), Exec(d, m))
  {
    hide ExecMemory, ExeRMove, ExecAlu, ExecRelative, ExecFlags, ExecCarry, Alike, ExecIndirect;
    if IsAluOp(m) {
      AluAlike(h, c, d, m);
    } else if m.Ld? || m.St? {
      MemoryAlike(h, c, d, m);
    } else if m.Rd? || m.Wr? || m.Sw? {
      RMoveAlike(h, c, d);
    } else if m.J? || m.Jr? || m.Jc? || m.Jcr? {
      RelativeAlike(h, c, d, m);
    } else {
      FlagsAlike(h, c, d, m);
    }
  }

  // ----- one step of the interrupted program

  /** States that differ only in what the next step clears anyway. */
  ghost predicate Similar(h: set<nat>, c: Cpu, d: Cpu) {
    Alike(h, Ready(c), Ready(d))
  }

  /** The next instruction, if there is one, is harmless. */
  predicate HarmlessHere(h: set<nat>, c: Cpu) {
    Visible(h, c.pc) &&
    match Lookup(Peek(c, c.pc))
    case None => true
    case Some(m) => Harmless(h, Ready(c), m)
  }

  /** The interrupted program's state: where it will go on once the handler has returned. */
  function Resumed(c: Cpu): Cpu {
    if c.intActive then c.(pc := Wrap16(c.ia + 1), intActive := false) else c
  }

  function Quieted(input: Input): Input {
    input.(irq0 := false, irq1 := false)
  }

  lemma DevicesAlike(h: set<nat>, c: Cpu, d: Cpu, input: Input)
    requires Alike(h, c, d) && c.intsIn == 0
    ensures var c' := Devices(c, Quieted(input));
            && Alike(h, c', Devices(d, input)) && c'.intsIn == 0 && c'.intActive == c.intActive
  {
  }

  lemma WrapBack(pc: Word16)
    ensures Wrap16(Wrap16(pc - 1) + 1) == pc
  {
  }

  lemma EnterAlike(h: set<nat>, c: Cpu, d: Cpu)
    requires Alike(h, c, d) && !c.intActive && c.intsIn == 0
    ensures EnterHandler(c) == c && Similar(h, c, Resumed(EnterHandler(d)))
  {
    hide Wrap16;
    WrapBack(d.pc);
  }

  lemma MainStep(h: set<nat>, u: Cpu, c: Cpu, input: Input)
    requires Similar(h, u, c) && u.intsIn == 0 && !c.intActive && HarmlessHere(h, u) && Step(c, input).Some?
    ensures var r := Step(u, Quieted(input));
            && r.Some? && r.value.intsIn == 0 && !r.value.intActive
            && Similar(h, r.value, Resumed(Step(c, input).value))
  {
    assert !u.intActive && SameMemory(h, u, c) && u.pc == c.pc;
    PeekSame(h, u, c, u.pc);
    hide Exec, Lookup, Peek, Devices, EnterHandler, Harmless, Alike;
    var m := Lookup(Peek(c, c.pc)).value;
    ExecAlike(h, Ready(u), Ready(c), m);
    assert m != Jxi by { HarmlessStays(h, Ready(u), m); }
    ExecKeeps(Ready(u), m);
    DevicesAlike(h, Exec(Ready(u), m), Exec(Ready(c), m), input);
    EnterAlike(h, Devices(Exec(Ready(u), m), Quieted(input)), Devices(Exec(Ready(c), m), input));
  }

  lemma HarmlessStays(h: set<nat>, c: Cpu, m: Mnemonic)
    requires Harmless(h, c, m)
    ensures m != Jxi
  {
  }

  // ----- whole runs

  /** The states of a run, one for every step and one at the end. */
  ghost predicate IsTrace(t: seq<Cpu>, inputs: seq<Input>) {
    |t| == |inputs| + 1 && forall i :: 0 <= i < |inputs| ==> Step(t[i], inputs[i]) == Some(t[i + 1])
  }

  /** A handler has just been entered, from the program or straight from another handler. */
  ghost predicate Entered(t: seq<Cpu>, a: nat) {
    0 < a < |t| && t[a].intActive && (!t[a - 1].intActive || IsJxi(t[a - 1]))
  }

  /** A handler runs from its entry at a to behind its jxi at b. */
  ghost predicate Activation(t: seq<Cpu>, a: nat, b: nat) {
    Entered(t, a) && a < b < |t| && IsJxi(t[b - 1]) && forall i :: a <= i < b - 1 ==> !IsJxi(t[i])
  }

  /** Every handler restores the registers, the carry and the interrupt enable, and the memory outside h. */
  ghost predicate HandlersRestore(h: set<nat>, t: seq<Cpu>) {
    forall a: nat, b: nat :: Activation(t, a, b) ==> SameRegisters(t[a], t[b]) && SameMemory(h, t[a], t[b])
  }

  /** The inputs of the steps outside handlers, without the interrupts. */
  function MainInputs(t: seq<Cpu>, inputs: seq<Input>, n: nat): seq<Input>
    requires n <= |inputs| < |t|
  {
    if n == 0 then []
    else MainInputs(t, inputs, n - 1) + (if t[n - 1].intActive then [] else [Quieted(inputs[n - 1])])
  }

  /** Running alone on these inputs, the program never looks at interrupts or at the memory in h. */
  ghost predicate HarmlessAlone(h: set<nat>, c: Cpu, inputs: seq<Input>) {
    forall n :: 0 <= n < |inputs| ==>
      match Run(c, inputs[..n])
      case None => true
      case Some(c') => HarmlessHere(h, c')
  }

  function Alone(c: Cpu): Cpu {
    c.(intsIn := 0)
  }

  lemma {:induction false} MainInputsPrefix(t: seq<Cpu>, inputs: seq<Input>, n: nat, k: nat)
    requires n <= k <= |inputs| < |t|
    ensures MainInputs(t, inputs, n) <= MainInputs(t, inputs, k)
    decreases k - n
  {
    if n < k {
      MainInputsPrefix(t, inputs, n, k - 1);
    }
  }

  /** Where the program stands when the run has come to n, and, inside a handler, where that was entered. */
  ghost predicate Follows(h: set<nat>, t: seq<Cpu>, n: nat, u: Option<Cpu>, a: nat)
    requires n < |t|
  {
    && u.Some? && u.value.intsIn == 0 && !u.value.intActive
    && if t[n].intActive then
         && a <= n && Entered(t, a) && (forall i :: a <= i < n ==> !IsJxi(t[i]))
         && t[n].ia == t[a].ia && Similar(h, u.value, Resumed(t[a]))
       else Similar(h, u.value, t[n])
  }

  lemma MainFollows(h: set<nat>, t: seq<Cpu>, inputs: seq<Input>, n: nat, u: Cpu, a: nat)
    requires IsTrace(t, inputs) && n < |inputs| && !t[n].intActive && HarmlessHere(h, u)
    requires Follows(h, t, n, Some(u), a)
    ensures Follows(h, t, n + 1, Step(u, Quieted(inputs[n])), n + 1)
  {
    hide Step, HarmlessHere, Similar;
    assert Step(t[n], inputs[n]) == Some(t[n + 1]);
    MainStep(h, u, t[n], inputs[n]);
  }

  lemma SimilarRestored(h: set<nat>, u: Cpu, e: Cpu, r: Cpu)
    requires Similar(h, u, Resumed(e)) && SameRegisters(e, r) && SameMemory(h, e, r)
    requires e.intActive && Resumed(r).pc == Resumed(e).pc
    ensures Similar(h, u, Resumed(r))
  {
  }

  lemma HandlerFollows(h: set<nat>, t: seq<Cpu>, inputs: seq<Input>, n: nat, u: Cpu, a: nat) returns (a': nat)
    requires IsTrace(t, inputs) && n < |inputs| && t[n].intActive && HandlersRestore(h, t)
    requires Follows(h, t, n, Some(u), a)
    ensures Follows(h, t, n + 1, Some(u), a')
  {
    hide Step, Similar, IsJxi, SameRegisters, SameMemory;
    assert Step(t[n], inputs[n]) == Some(t[n + 1]);
    HandlersDoNotNest(t[n], inputs[n]);
    a' := a;
    if IsJxi(t[n]) {
      assert Activation(t, a, n + 1);
      SimilarRestored(h, u, t[a], t[n + 1]);
      a' := n + 1;
    }
  }

  lemma OneMore(c: Cpu, inputs: seq<Input>, input: Input)
    requires Run(c, inputs).Some?
    ensures Run(c, inputs + [input]) == Step(Run(c, inputs).value, input)
  {
    hide Step;
    RunConcat(c, inputs, [input]);
    assert [input][1..] == [];
  }

  /** The program's next instruction is harmless, since it is when the program runs alone. */
  lemma NextHarmless(h: set<nat>, t: seq<Cpu>, inputs: seq<Input>, n: nat)
    requires n < |inputs| < |t| && !t[n].intActive
    requires HarmlessAlone(h, Alone(t[0]), MainInputs(t, inputs, |inputs|))
    requires Run(Alone(t[0]), MainInputs(t, inputs, n)).Some?
    ensures HarmlessHere(h, Run(Alone(t[0]), MainInputs(t, inputs, n)).value)
  {
    hide Run, HarmlessHere, HarmlessAlone, MainInputs, Quieted;
    var xs := MainInputs(t, inputs, n);
    NextInput(t, inputs, n);
    HarmlessAt(h, Alone(t[0]), MainInputs(t, inputs, |inputs|), |xs|);
  }

  lemma HarmlessAt(h: set<nat>, c: Cpu, inputs: seq<Input>, k: nat)
    requires k < |inputs| && HarmlessAlone(h, c, inputs) && Run(c, inputs[..k]).Some?
    ensures HarmlessHere(h, Run(c, inputs[..k]).value)
  {
    hide Run, HarmlessHere;
  }

  lemma NextInput(t: seq<Cpu>, inputs: seq<Input>, n: nat)
    requires n < |inputs| < |t| && !t[n].intActive
    ensures var all, xs := MainInputs(t, inputs, |inputs|), MainInputs(t, inputs, n);
            |xs| < |all| && all[..|xs|] == xs
  {
    MainInputsPrefix(t, inputs, n + 1, |inputs|);
    MainInputsPrefix(t, inputs, n, |inputs|);
  }

  lemma {:induction false} FollowsRun(h: set<nat>, t: seq<Cpu>, inputs: seq<Input>, n: nat) returns (a: nat)
    requires IsTrace(t, inputs) && !t[0].intActive && HandlersRestore(h, t) && n <= |inputs|
    requires HarmlessAlone(h, Alone(t[0]), MainInputs(t, inputs, |inputs|))
    ensures Follows(h, t, n, Run(Alone(t[0]), MainInputs(t, inputs, n)), a)
    decreases n
  {
    hide Step, Run, Follows, HarmlessHere, HandlersRestore, HarmlessAlone;
    if n == 0 {
      a := 0;
      FollowsFromStart(h, t);
    } else {
      a := FollowsRun(h, t, inputs, n - 1);
      FollowsSome(h, t, n - 1, Run(Alone(t[0]), MainInputs(t, inputs, n - 1)), a);
      var u := Run(Alone(t[0]), MainInputs(t, inputs, n - 1)).value;
      if t[n - 1].intActive {
        assert MainInputs(t, inputs, n) == MainInputs(t, inputs, n - 1);
        a := HandlerFollows(h, t, inputs, n - 1, u, a);
      } else {
        NextHarmless(h, t, inputs, n - 1);
        OneMore(Alone(t[0]), MainInputs(t, inputs, n - 1), Quieted(inputs[n - 1]));
        MainFollows(h, t, inputs, n - 1, u, a);
        a := n;
      }
    }
  }

  lemma FollowsSome(h: set<nat>, t: seq<Cpu>, n: nat, u: Option<Cpu>, a: nat)
    requires n < |t| && Follows(h, t, n, u, a)
    ensures u.Some?
  {
  }

  lemma FollowsFromStart(h: set<nat>, t: seq<Cpu>)
    requires |t| > 0 && !t[0].intActive
    ensures Follows(h, t, 0, Run(Alone(t[0]), []), 0)
  {
  }

  /** Interrupt transparency: under any arrival of interrupts, if every handler restores what it found,
      outside a part of the memory that the program does not use, then whenever no handler is active the
      program is where it would be had it run alone on its own inputs, and while one is active the
      program waits at exactly the instruction it will resume with. */
  lemma InterruptsAreTransparent(h: set<nat>, t: seq<Cpu>, inputs: seq<Input>, n: nat)
    requires IsTrace(t, inputs) && !t[0].intActive && HandlersRestore(h, t) && n <= |inputs|
    requires HarmlessAlone(h, Alone(t[0]), MainInputs(t, inputs, |inputs|))
    ensures var r := Run(Alone(t[0]), MainInputs(t, inputs, n));
            && r.Some? && !r.value.intActive && r.value.pc == Resumed(t[n]).pc
            && (!t[n].intActive ==> SameRegisters(r.value, t[n]) && SameMemory(h, r.value, t[n]))
  {
    hide Step, Run, HandlersRestore, HarmlessAlone, IsTrace, MainInputs;
    var a := FollowsRun(h, t, inputs, n);
  }
}
