/**
 The emulator with its registers in fields and its memories in arrays, updated in place. Every method
 is proved against a function in module Processor.
 */
module Emulator {
  import opened Bytes
  import opened Lexer
  import opened Isa
  import opened Processor
  import Alu

  /** The decoder: on first use, every byte is looked up in the instruction list. */
  class Decoder {
    var cached: bool
    const cache: array<Option<Mnemonic>>

    ghost predicate Valid()
      reads this, cache
    {
      cache.Length == 256 && (cached ==> forall b: Byte :: cache[b] == Lookup(b))
    }

    constructor ()
      ensures Valid() && fresh(cache)
    {
      cached := false;
      cache := new Option<Mnemonic>[256](_ => None);
    }

    /** The first instruction in the list that the byte matches. */
    method Search(b: Byte) returns (m: Option<Mnemonic>)
      ensures m == Lookup(b)
    {
      hide Matches, Entry;
      m := None;
      var j := 0;
      while j < LIST_SIZE && m.None?
        invariant j <= LIST_SIZE
        invariant if m.None? then LookupFrom(b, j) == Lookup(b) else m == Lookup(b)
      {
        if Matches(b, Entry(j)) {
          m := Some(Entry(j));
        }
        j := j + 1;
      }
    }

    method ILookup(b: Byte) returns (m: Option<Mnemonic>)
      requires Valid()
      modifies this, cache
      ensures Valid() && m == Lookup(b)
    {
      hide Lookup;
      if !cached {
        for i := 0 to 256
          invariant forall k: Byte :: k < i ==> cache[k] == Lookup(k)
        {
          cache[i] := Search(i);
        }
        cached := true;
      }
      m := cache[b];
    }
  }

  class Machine {
    var elapsed: nat
    var pc: Word16
    var ia: Word16
    var acc: Byte
    var sp: Byte
    var x: Byte
    var y: Byte
    var p: Word16
    var q: Word16
    var carry: bool
    var intEn: bool
    var intActive: bool
    var ioRd: bool
    var ioWr: bool
    var idbg: bool
    var intsIn: Byte
    const rom: array<Byte>
    const ram: array<Byte>

    ghost predicate Valid() {
      rom.Length == ram.Length == ROM_SIZE && rom != ram
    }

    ghost function View(): Cpu
      reads this, rom, ram
      requires Valid()
    {
      Cpu(elapsed, pc, ia, acc, sp, x, y, p, q, carry, intEn, intActive, ioRd, ioWr, idbg, intsIn, rom[..], ram[..])
    }

    constructor (image: array<Byte>)
      requires image.Length == ROM_SIZE
      ensures Valid() && rom == image && fresh(ram)
      ensures View()
           == Cpu(0, 0, 0, 0, 0, 0, 0, 0, 0, false, false, false, false, false, false, 0, image[..], View().ram)
      ensures forall i :: 0 <= i < ram.Length ==> ram[i] == 0
    {
      elapsed, pc, ia, acc, sp, x, y, p, q := 0, 0, 0, 0, 0, 0, 0, 0, 0;
      carry, intEn, intActive, ioRd, ioWr, idbg, intsIn := false, false, false, false, false, false, 0;
      rom := image;
      ram := new Byte[ROM_SIZE](_ => 0);
    }

    method PeekAt(addr: Word16) returns (b: Byte)
      requires Valid()
      ensures b == Peek(View(), addr)
    {
      b := if addr >= ROM_SIZE then ram[addr - ROM_SIZE] else rom[addr];
    }

    method PokeAt(addr: Word16, value: Byte)
      requires Valid()
      modifies ram
      ensures View() == Poke(old(View()), addr, value)
    {
      ram[addr % ROM_SIZE] := value;
    }

    method Advance(bytes: nat, clocks: nat)
      requires Valid()
      modifies this`pc, this`elapsed
      ensures View() == Processor.Advance(old(View()), bytes, clocks)
    {
      pc := (pc + bytes) % 0x10000;
      elapsed := elapsed + clocks;
    }

    method ReadHalf(r: Reg)
      modifies this`acc, this`ioRd
      requires Valid()
      ensures View() == ReadReg(old(View()), r)
    {
      match r {
        case SP => acc := sp;
        case IO => ioRd := true;
        case X => acc := x;
        case Y => acc := y;
        case PH => acc := p / 256;
        case PL => acc := p % 256;
        case QH => acc := q / 256;
        case QL => acc := q % 256;
        case Acc =>
      }
    }

    method WriteHalf(r: Reg, tmp: Byte)
      modifies this`sp, this`ioWr, this`x, this`y, this`p, this`q
      requires Valid()
      ensures View() == WriteReg(old(View()), r, tmp)
    {
      hide SetHigh, SetLow;
      match r {
        case SP => sp := tmp;
        case IO => ioWr := true;
        case X => x := tmp;
        case Y => y := tmp;
        case PH => p := SetHigh(p, tmp);
        case PL => p := SetLow(p, tmp);
        case QH => q := SetHigh(q, tmp);
        case QL => q := SetLow(q, tmp);
        case Acc =>
      }
    }

    method ExeRMove()
      requires Valid()
      modifies this
      ensures View() == Processor.ExeRMove(old(View()))
    {
      hide ReadReg, WriteReg;
      var b := PeekAt(pc);
      var tmp := acc;
      if b / 16 % 2 == 1 {
        ReadHalf(RegOf(b));
      }
      if b / 8 % 2 == 1 {
        WriteHalf(RegOf(b), tmp);
      }
      Advance(1, 1);
    }

    method ExeJump()
      requires Valid()
      modifies this`pc, this`elapsed
      ensures View() == Jump(old(View()))
    {
      var b := PeekAt(pc);
      var low := PeekAt((pc + 1) % 0x10000);
      var offset := b / 2 % 8 * 256 + low as int;
      if offset >= 0x400 {
        offset := offset - 0x800;
      }
      pc := (pc + offset + 1) % 0x10000;
      elapsed := elapsed + 2;
    }

    method ExeIndirect(m: Mnemonic)
      requires Valid() && (m.Jp? || m.Jpr? || m.Jxi?)
      modifies this
      ensures View() == ExecIndirect(old(View()), m)
    {
      var prevAddr := pc;
      if m == Jxi {
        pc := (ia + 1) % 0x10000;
        intActive := false;
      } else {
        pc := (p + 1) % 0x10000;
        if m == Jpr {
          p := prevAddr;
        }
      }
      elapsed := elapsed + 1;
    }

    method ExeRelative(m: Mnemonic)
      requires Valid() && (m.J? || m.Jr? || m.Jc? || m.Jcr?)
      modifies this
      ensures View() == ExecRelative(old(View()), m)
    {
      if (m.Jc? || m.Jcr?) && !carry {
        Advance(2, 2);
      } else {
        if m.Jr? || m.Jcr? {
          p := (pc + 1) % 0x10000;
        }
        ExeJump();
      }
    }

    method GetALUReg() returns (b: Byte)
      requires Valid()
      ensures b == AluReg(View())
    {
      var instr := PeekAt(pc);
      b := if instr / 16 % 2 == 1 then y else x;
    }

    method ExeBits(m: Mnemonic)
      requires Valid() && (m.Ipoll? || m.Or? || m.And? || m.Xor?)
      modifies this`acc, this`pc, this`elapsed
      ensures View() == ExecBits(old(View()), m)
    {
      var r := GetALUReg();
      acc := if m == Ipoll then Bitwise(OrOp, intsIn, 64 * Alu.Bit(intEn) + 128 * Alu.Bit(intActive))
             else Bitwise(if m == Or then OrOp else if m == And then AndOp else XorOp, acc, r);
      Advance(1, 1);
    }

    method ExeArithmetic(m: Mnemonic)
      requires Valid() && (m.Add? || m.Adc? || m.Sub? || m.Sbc?)
      modifies this`acc, this`carry, this`pc, this`elapsed
      ensures View() == ExecArithmetic(old(View()), m)
    {
      hide Alu.Add, Alu.Sub;
      var r := GetALUReg();
      var s := if m == Add then Alu.Add(acc, r, false)
               else if m == Adc then Alu.Add(acc, r, carry)
               else if m == Sub then Alu.Sub(acc, r, true)
               else Alu.Sub(acc, r, carry);
      acc := s.q;
      if m.Adc? || m.Sbc? {
        carry := s.carry;
      }
      Advance(1, 1);
    }

    method ExeShift(m: Mnemonic)
      requires Valid() && (m.Sl? || m.Slc? || m.Sr? || m.Src?)
      modifies this`acc, this`carry, this`pc, this`elapsed
      ensures View() == ExecShift(old(View()), m)
    {
      hide Alu.ShiftLeft, Alu.ShiftRight;
      var cin := (m.Slc? || m.Src?) && carry;
      var s := if m.Sl? || m.Slc? then Alu.ShiftLeft(acc, cin) else Alu.ShiftRight(acc, cin);
      acc := s.q;
      if m.Slc? || m.Src? {
        carry := s.carry;
      }
      Advance(1, 1);
    }

    method ExeFlags(m: Mnemonic)
      requires Valid() && (m.Brk? || m.Dint? || m.Eint? || m.Nop?)
      modifies this`idbg, this`intEn, this`pc, this`elapsed
      ensures View() == ExecFlags(old(View()), m)
    {
      if m == Brk {
        idbg := true;
      } else if m != Nop {
        intEn := m == Eint;
      }
      Advance(1, 1);
    }

    method ExeCarry(m: Mnemonic)
      requires Valid() && IsCarryOp(m)
      modifies this`carry, this`pc, this`elapsed
      ensures View() == ExecCarry(old(View()), m)
    {
      carry := if m == Cclr then false
               else if m == Nzero then acc != 0
               else if m == Sgn then acc >= 0x80
               else if m == Cset then true
               else if m == Ctog then !carry
               else if m == Zero then acc == 0
               else acc < 0x80;
      Advance(1, 1);
    }

    method ExeImmediateBits(m: Mnemonic)
      requires Valid() && (m.Rdi? || m.Ori? || m.Andi? || m.Xori?)
      modifies this`acc, this`pc, this`elapsed
      ensures View() == ExecImmediateBits(old(View()), m)
    {
      var b := PeekAt((pc + 1) % 0x10000);
      acc := if m == Rdi then b
             else Bitwise(if m == Ori then OrOp else if m == Andi then AndOp else XorOp, acc, b);
      Advance(2, 2);
    }

    method ExeImmediateArithmetic(m: Mnemonic)
      requires Valid() && (m.Addi? || m.Adci? || m.Subi? || m.Sbci?)
      modifies this`acc, this`carry, this`pc, this`elapsed
      ensures View() == ExecImmediateArithmetic(old(View()), m)
    {
      hide Alu.Add, Alu.Sub;
      var b := PeekAt((pc + 1) % 0x10000);
      var s := if m == Addi then Alu.Add(acc, b, false)
               else if m == Adci then Alu.Add(acc, b, carry)
               else if m == Subi then Alu.Sub(acc, b, true)
               else Alu.Sub(acc, b, carry);
      acc := s.q;
      if m.Adci? || m.Sbci? {
        carry := s.carry;
      }
      Advance(2, 2);
    }

    method GetMemAddr() returns (addr: Word16)
      requires Valid()
      modifies this`p
      ensures (addr, View()) == MemAddr(old(View()))
    {
      var instr := PeekAt(pc);
      match ModeOf(instr) {
        case StackMode =>
          var base := if sp >= 0x80 then 0xFF00 + sp as int else (if intActive then 0xFE00 else 0xFF00) + sp as int;
          addr := (base + instr % 16) % 0x10000;
        case PMode => addr := (p + instr % 16) % 0x10000;
        case QMode => addr := (q + instr % 16) % 0x10000;
        case PPreMode =>
          p := (p + instr % 16) % 0x10000;
          addr := p;
      }
    }

    method ExeMemory(m: Mnemonic)
      requires Valid() && (m.Ld? || m.St?)
      modifies this, ram
      ensures View() == ExecMemory(old(View()), m)
    {
      var addr := GetMemAddr();
      if m == Ld {
        acc := PeekAt(addr);
      } else {
        PokeAt(addr, acc);
      }
      Advance(1, 2);
    }

    /** The instructions of the arithmetic unit. */
    method ExecuteAlu(m: Mnemonic)
      requires Valid() && IsAluOp(m)
      modifies this`acc, this`carry, this`pc, this`elapsed
      ensures View() == ExecAlu(old(View()), m)
    {
      hide ExecBits, ExecArithmetic, ExecShift, ExecImmediateBits, ExecImmediateArithmetic;
      if m.Rdi? || m.Ori? || m.Andi? || m.Xori? {
        ExeImmediateBits(m);
      } else if m.Addi? || m.Adci? || m.Subi? || m.Sbci? {
        ExeImmediateArithmetic(m);
      } else if m.Add? || m.Adc? || m.Sub? || m.Sbc? {
        ExeArithmetic(m);
      } else if m.Sl? || m.Slc? || m.Sr? || m.Src? {
        ExeShift(m);
      } else {
        ExeBits(m);
      }
    }

    method Execute(m: Mnemonic)
      requires Valid()
      modifies this, ram
      ensures View() == Exec(old(View()), m)
    {
      hide Processor.ExeRMove, ExecIndirect, ExecRelative, ExecFlags, ExecCarry, ExecMemory, ExecAlu;
      if IsAluOp(m) {
        ExecuteAlu(m);
      } else if m.Rd? || m.Wr? || m.Sw? {
        ExeRMove();
      } else if m.Jp? || m.Jpr? || m.Jxi? {
        ExeIndirect(m);
      } else if m.J? || m.Jr? || m.Jc? || m.Jcr? {
        ExeRelative(m);
      } else if m.Ld? || m.St? {
        ExeMemory(m);
      } else if IsCarryOp(m) {
        ExeCarry(m);
      } else {
        ExeFlags(m);
      }
    }

    /** The devices, as far as the processor sees them. */
    method StepDevices(input: Input)
      requires Valid()
      modifies this`acc, this`intsIn
      ensures View() == Devices(old(View()), input)
    {
      if ioRd && y < 16 && input.data.Some? {
        acc := input.data.value;
      }
      intsIn := intsIn / 4 * 4 + Alu.Bit(input.irq0) + 2 * Alu.Bit(input.irq1);
    }

    /** emu_step: whether the emulation has to stop, because of an invalid byte or a breakpoint. */
    method EmuStep(decoder: Decoder, input: Input) returns (stop: bool)
      requires Valid() && decoder.Valid()
      modifies this, ram, decoder, decoder.cache
      ensures decoder.Valid()
      ensures match Step(old(View()), input)
              case None => stop && View() == old(View()).(ioRd := false, ioWr := false)
              case Some(c) => View() == c && stop == c.idbg
    {
      hide Exec, Lookup, Devices;
      ioRd := false;
      ioWr := false;
      var instr := PeekAt(pc);
      var m := decoder.ILookup(instr);
      if m.None? {
        return true;
      }
      Execute(m.value);
      StepDevices(input);
      Interrupt();
      stop := idbg;
    }

    method Interrupt()
      requires Valid()
      modifies this`ia, this`pc, this`intActive
      ensures View() == EnterHandler(old(View()))
    {
      if intEn && intsIn != 0 && !intActive {
        ia := (pc - 1) % 0x10000;
        pc := ISR_ADDR;
        intActive := true;
      }
    }
  }
}
