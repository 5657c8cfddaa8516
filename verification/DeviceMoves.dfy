/**
 Moves and swaps between a register and the device register: one of their three instructions talks to the
 device, and the accumulator gets its old value back.
 */
module DeviceMoves {
  import opened Bytes
  import opened Isa
  import opened Processor
  import opened Assembler
  import opened Encoding
  import opened SourceMachine
  import opened Execution
  import opened Simulation

  predicate IsOther(reg: Reg) {
    reg != IO && reg != Acc
  }

  /** The device that y selects while the register and the accumulator are exchanged. */
  function Selected(r: Regs, reg: Reg): Byte {
    if reg == Y then r.acc else r.y
  }

  /** What the register gets: the answer of a device, or, if none answers, what it had. */
  function Received(r: Regs, reg: Reg, input: Input): Byte
    requires IsOther(reg)
  {
    if Selected(r, reg) < 16 && input.data.Some? then input.data.value else Get(r, reg)
  }

  lemma ExchangedY(r: Regs, reg: Reg)
    requires IsOther(reg)
    ensures Exchange(r, reg, Acc).y == Selected(r, reg) && Exchange(r, reg, Acc).acc == Get(r, reg)
  {
  }

  /** Exchanging, replacing the accumulator, and exchanging back sets the register. */
  lemma ExchangeBack(r: Regs, reg: Reg, b: Byte)
    requires IsOther(reg)
    ensures Exchange(Set(Exchange(r, reg, Acc), Acc, b), reg, Acc) == Set(r, reg, b)
  {
    hide Set, Get, Exchange, Frame;
    var r1 := Exchange(r, reg, Acc);
    var r2 := Set(r1, Acc, b);
    var r3, goal := Exchange(r2, reg, Acc), Set(r, reg, b);
    SetFrame(r1, Acc, b);
    SetFrame(r, reg, b);
    forall other | other != IO
      ensures Get(r3, other) == Get(goal, other)
    {
      GetExchange(r2, reg, Acc, other);
      GetSet(r1, Acc, b, reg);
      GetSet(r1, Acc, b, Acc);
      GetSet(r1, Acc, b, other);
      GetExchange(r, reg, Acc, reg);
      GetExchange(r, reg, Acc, other);
      GetSet(r, reg, b, other);
    }
    GetExchange(r2, reg, Acc, Acc);
    GetExchange(r, reg, Acc, Acc);
    SameRegs(r3, goal);
  }

  lemma IdleStays(r: Regs, reg: Reg)
    requires IsOther(reg)
    ensures Idle(Exchange(Idle(r), reg, Acc)) == Exchange(Idle(r), reg, Acc)
  {
  }

  lemma AfterDevice(r: Regs, m: Mnemonic, input: Input)
    requires IsRegisterOp(m)
    ensures Idle(AfterIO(r, m, input)) == Idle(Set(r, Acc, AfterIO(r, m, input).acc))
  {
  }

  lemma IdleSet(r: Regs, reg: Reg, b: Byte)
    requires reg != IO
    ensures Idle(Set(r, reg, b)) == Set(Idle(r), reg, b)
  {
  }

  /** One register instruction of the three. */
  lemma OneOfThree(c: Cpu, m: Mnemonic, reg: Reg, bs: seq<Byte>, k: nat, start: Word16, input: Input)
    requires Legal(Register(m, reg)) && c.intsIn == 0 && Silent(input)
    requires Holds(c.rom, start, bs) && k < |bs| && bs[k] == RegisterByte(m, reg) && c.pc == start + k
    ensures var r := Step(c, input);
            && r.Some? && r.value.intsIn == 0 && r.value.pc == Wrap16(start + k + 1) && r.value.rom == c.rom
            && RegsOf(r.value) == AfterRegister(Idle(RegsOf(c)), m, reg, input)
  {
    hide Step, RegisterByte, AfterRegister, Idle;
    assert c.rom[start + k] == bs[k];
    RegisterRuns(c, m, reg, input);
    RomOfRegs(c, Step(c, input).value);
  }

  lemma RomOfRegs(c: Cpu, c': Cpu)
    ensures RegsOf(c).rom == c.rom && RegsOf(c').rom == c'.rom && Idle(RegsOf(c)).rom == c.rom
  {
  }

  ghost predicate Talks(c: Cpu, reg: Reg, m: Mnemonic, inputs: seq<Input>)
    requires IsOther(reg) && IsRegisterOp(m)
  {
    && |inputs| == 3 && AllSilent(inputs) && c.intsIn == 0
    && Holds(c.rom, c.pc, [RegisterByte(Sw, reg), RegisterByte(m, IO), RegisterByte(Sw, reg)])
  }

  /** The three instructions, and what the device sees behind the second one. */
  lemma ThreeRun(c: Cpu, reg: Reg, m: Mnemonic, inputs: seq<Input>)
    requires IsOther(reg) && IsRegisterOp(m) && Talks(c, reg, m, inputs)
    ensures var r, r2, r3 := Idle(RegsOf(c)), Processor.Run(c, inputs[..2]), Processor.Run(c, inputs);
            && r2.Some? && r3.Some? && r3.value.pc == c.pc + 3 && r3.value.intsIn == 0
            && r2.value.ioRd == (m != Wr) && r2.value.ioWr == (m != Rd)
            && r2.value.y == Selected(r, reg)
            && r2.value.acc == (if m == Wr then Get(r, reg) else Received(r, reg, inputs[1]))
            && RegsOf(r3.value) == Set(r, reg, if m == Wr then Get(r, reg) else Received(r, reg, inputs[1]))
  {
    hide Processor.Run, Step, RegisterByte, Get, Set, Exchange, Idle, Holds, AfterIO;
    var r := Idle(RegsOf(c));
    var bs := [RegisterByte(Sw, reg), RegisterByte(m, IO), RegisterByte(Sw, reg)];
    HoldsEnd(c.rom, c.pc, bs);
    OneOfThree(c, Sw, reg, bs, 0, c.pc, inputs[0]);
    var c1 := Step(c, inputs[0]).value;
    OneOfThree(c1, m, IO, bs, 1, c.pc, inputs[1]);
    var c2 := Step(c1, inputs[1]).value;
    OneOfThree(c2, Sw, reg, bs, 2, c.pc, inputs[2]);
    RunThree(c, inputs);
    IdleStays(RegsOf(c), reg);
    ExchangedY(r, reg);
    var r1 := Exchange(r, reg, Acc);
    DeviceSees(c2, r1, m, inputs[1]);
    AfterDevice(r1, m, inputs[1]);
    IdleSet(r1, Acc, AfterIO(r1, m, inputs[1]).acc);
    ExchangeBack(r, reg, AfterIO(r1, m, inputs[1]).acc);
  }

  lemma DeviceSees(c: Cpu, r: Regs, m: Mnemonic, input: Input)
    requires IsRegisterOp(m) && RegsOf(c) == AfterIO(r, m, input)
    ensures c.ioRd == (m != Wr) && c.ioWr == (m != Rd) && c.y == r.y && c.acc == AfterIO(r, m, input).acc
    ensures AfterIO(r, m, input).acc == if m != Wr && r.y < 16 && input.data.Some? then input.data.value else r.acc
  {
  }

  lemma HoldsEnd(rom: Memory, a: Word16, bs: seq<Byte>)
    requires Holds(rom, a, bs) && bs != []
    ensures a + |bs| <= ROM_SIZE
  {
  }

  lemma RunThree(c: Cpu, inputs: seq<Input>)
    requires |inputs| == 3 && Step(c, inputs[0]).Some?
    requires Step(Step(c, inputs[0]).value, inputs[1]).Some?
    ensures Processor.Run(c, inputs[..2]) == Step(Step(c, inputs[0]).value, inputs[1])
    ensures Processor.Run(c, inputs) == Step(Step(Step(c, inputs[0]).value, inputs[1]).value, inputs[2])
  {
    hide Step, Processor.Run;
    assert inputs[..2] == [inputs[0]] + [inputs[1]] && inputs == inputs[..2] + [inputs[2]];
    OneStep(c, inputs[0]);
    OneStep(Step(c, inputs[0]).value, inputs[1]);
    OneStep(Step(Step(c, inputs[0]).value, inputs[1]).value, inputs[2]);
    RunConcat(c, [inputs[0]], [inputs[1]]);
    RunConcat(c, inputs[..2], [inputs[2]]);
  }

  // ----- the lines

  /** Behind two of the three steps the device is asked, or told, and which one. */
  ghost predicate AskedAndTold(c: Cpu, reg: Reg, inputs: seq<Input>, asked: bool, told: bool)
    requires |inputs| == 3
  {
    var r, r2 := Idle(RegsOf(c)), Processor.Run(c, inputs[..2]);
    r2.Some? && r2.value.ioRd == asked && r2.value.ioWr == told && r2.value.y == Selected(r, reg)
  }

  /** A move from the device register: the device is asked once, and its answer ends up in the register; nothing
      else changes, the accumulator neither. */
  lemma MoveFromDevice(c: Cpu, reg: Reg, inputs: seq<Input>)
    requires IsOther(reg) && |inputs| == 3 && AllSilent(inputs) && c.intsIn == 0
    requires Holds(c.rom, c.pc, MoveBytes(IO, reg))
    ensures var r, end := Idle(RegsOf(c)), Processor.Run(c, inputs);
            && AskedAndTold(c, reg, inputs, true, false)
            && end.Some? && end.value.pc == c.pc + 3 && RegsOf(end.value) == Set(r, reg, Received(r, reg, inputs[1]))
  {
    hide Processor.Run, RegisterByte, Holds, Get, Set, Idle;
    ThreeRun(c, reg, Rd, inputs);
  }

  /** A move to the device register: the device is told the contents of the register, and nothing changes. */
  lemma MoveToDevice(c: Cpu, reg: Reg, inputs: seq<Input>)
    requires IsOther(reg) && |inputs| == 3 && AllSilent(inputs) && c.intsIn == 0
    requires Holds(c.rom, c.pc, MoveBytes(reg, IO))
    ensures var r, end := Idle(RegsOf(c)), Processor.Run(c, inputs);
            && AskedAndTold(c, reg, inputs, false, true) && Processor.Run(c, inputs[..2]).value.acc == Get(r, reg)
            && end.Some? && end.value.pc == c.pc + 3 && RegsOf(end.value) == r
  {
    hide Processor.Run, RegisterByte, Holds, Get, Set, Idle;
    ThreeRun(c, reg, Wr, inputs);
    SetSame(Idle(RegsOf(c)), reg);
  }

  lemma SetSame(r: Regs, reg: Reg)
    requires reg != IO
    ensures Set(r, reg, Get(r, reg)) == r
  {
  }

  /** A swap with the device register, written in either order: the device is asked and told in one step. */
  lemma SwapWithDevice(c: Cpu, a: Reg, b: Reg, inputs: seq<Input>)
    requires (a == IO && IsOther(b)) || (b == IO && IsOther(a))
    requires |inputs| == 3 && AllSilent(inputs) && c.intsIn == 0
    requires Holds(c.rom, c.pc, SwapBytes(a, b))
    ensures var r, reg, end := Idle(RegsOf(c)), if a == IO then b else a, Processor.Run(c, inputs);
            && AskedAndTold(c, reg, inputs, true, true)
            && end.Some? && end.value.pc == c.pc + 3 && RegsOf(end.value) == Set(r, reg, Received(r, reg, inputs[1]))
  {
    hide Processor.Run, RegisterByte, Holds, Get, Set, Idle;
    ThreeRun(c, if a == IO then b else a, Sw, inputs);
  }

  /** With the accumulator, moves and swaps are the instructions rd, wr and sw of the device register. */
  lemma AccumulatorAndDevice(c: Cpu, item: Item, input: Input)
    requires item == Move(IO, Acc) || item == Move(Acc, IO) || item == Swap(IO, Acc) || item == Swap(Acc, IO)
    requires c.intsIn == 0 && Silent(input) && Holds(c.rom, c.pc, Encode(item, c.pc, 0))
    ensures var m := if item == Move(IO, Acc) then Rd else if item == Move(Acc, IO) then Wr else Sw;
            var r := Step(c, input);
            r.Some? && r.value.pc == Wrap16(c.pc + 1) && RegsOf(r.value) == AfterIO(Idle(RegsOf(c)), m, input)
  {
    hide Step, AfterIO, Idle;
    var m := if item == Move(IO, Acc) then Rd else if item == Move(Acc, IO) then Wr else Sw;
    assert Encode(item, c.pc, 0) == [RegisterByte(m, IO)];
    OneOfThree(c, m, IO, [RegisterByte(m, IO)], 0, c.pc, input);
  }
}
