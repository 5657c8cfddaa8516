/**
 The assembler as the program has it: an asm_state_t that resolvers, instructions and macros write in
 place (Toolchain/src/nandy_tools.c, nandy_asm_tools.c, instrs_*.c), proved against Assembler.
 */
module AssemblerState {
  import opened Bytes
  import opened Lexer
  import opened ShuntingYard
  import opened SymTab
  import opened Isa
  import opened Processor
  import opened Assembler
  import Image
  import Parser = ParseExp

  class AsmState {
    var rom: array<Byte>
    var romLoc: nat
    var ramLoc: int
    const resolved: Table
    var unresolved: seq<Fixup>

    ghost function Repr(): set<object>
      reads this, resolved
    {
      {this, rom, resolved, resolved.symbols}
    }

    ghost predicate Valid()
      reads this, Repr()
    {
      rom.Length == ROM_SIZE && resolved.Valid()
    }

    ghost function View(): Asm
      requires Valid()
      reads this, Repr()
    {
      Asm(rom[..], romLoc, ramLoc, resolved.Contents(), unresolved)
    }

    constructor ()
      ensures Valid() && fresh(Repr()) && View() == Asm(Blank(), 0, ROM_SIZE, [], [])
    {
      rom := new Byte[ROM_SIZE](i => 0);
      romLoc := 0;
      ramLoc := ROM_SIZE;
      resolved := new Table();
      unresolved := [];
      new;
      assert rom[..] == Blank();
    }

    method AddLabel(name: string, value: int)
      requires Valid()
      modifies resolved, resolved.symbols
      ensures Valid() && fresh(Repr() - old(Repr()))
      ensures View() == old(View()).(symbols := Bind(old(View().symbols), name, value))
    {
      resolved.Put(name, value);
    }

    method Parse(ctx: Context, text: string) returns (value: Outcome<int>)
      requires Valid()
      ensures value == Value(ctx, View().symbols, text)
    {
      value := Parser.ParseExpression(Env(resolved.symbols[..resolved.len], ctx.scan), ctx.sem, text);
    }

    method Poke(pos: nat, b: Byte)
      requires Valid() && pos < ROM_SIZE
      modifies rom
      ensures View() == old(View()).(rom := old(View().rom)[pos := b])
    {
      rom[pos] := b;
    }

    /** The functions that addUnresolved and assemble call once the value of the text is wanted. */
    method ResolveFixup(ctx: Context, f: Fixup) returns (ok: bool)
      requires Valid()
      modifies rom, resolved, resolved.symbols
      ensures Valid() && fresh(Repr() - old(Repr()))
      ensures ok == Resolve(ctx, old(View()), f).Some?
      ensures View() == if ok then Resolve(ctx, old(View()), f).value else old(View())
    {
      hide ParseExp, Bitwise;
      var parsed := Parse(ctx, f.text);
      if parsed.Error? {
        return false;
      }
      var value := parsed.value;
      ok := true;
      match f.fix {
        case FixPair => ok := WritePair(f.pos, value);
        case FixReturn => ok := WritePair(f.pos, value - 1);
        case FixRelative =>
          var offset := value - f.pos - 1;
          ok := -1024 <= offset < 1024 && f.pos + 1 < ROM_SIZE;
          if ok {
            Poke(f.pos, Bitwise(OrOp, rom[f.pos], OffsetBits(offset)));
            Poke(f.pos + 1, offset % 256);
          }
        case FixImm8 =>
          ok := f.pos + 1 < ROM_SIZE;
          if ok {
            Poke(f.pos + 1, value % 256);
          }
        case FixImm4 =>
          ok := f.pos < ROM_SIZE;
          if ok {
            Poke(f.pos, Bitwise(OrOp, rom[f.pos], value % 16));
          }
        case FixDefine(name) => AddLabel(name, value);
        case FixAssert => ok := value != 0;
        case FixEcho =>
      }
    }

    method WritePair(pos: nat, value: int) returns (ok: bool)
      requires Valid()
      modifies rom
      ensures ok == (0 <= value < 0x10000 && pos + 5 < ROM_SIZE)
      ensures View() == if ok then old(View()).(rom := old(View().rom)[pos + 5 := value / 256][pos + 2 := value % 256])
                        else old(View())
    {
      ok := 0 <= value < 0x10000 && pos + 5 < ROM_SIZE;
      if ok {
        Poke(pos + 5, value / 256);
        Poke(pos + 2, value % 256);
      }
    }

    /** The first attempt is given the rest of the file as well. */
    method AddUnresolvedFixup(ctx: Context, fix: Fix, text: string, rest: string)
      requires Valid()
      modifies this`unresolved, rom, resolved, resolved.symbols
      ensures Valid() && fresh(Repr() - old(Repr()))
      ensures View() == AddUnresolved(ctx, old(View()), fix, text, Some(rest))
    {
      hide Resolve;
      var ok := ResolveFixup(ctx, Fixup(fix, Seen(text, rest), romLoc));
      if !ok {
        unresolved := unresolved + [Fixup(fix, text, romLoc)];
      }
    }

    method EmitByte(b: Byte, size: nat)
      requires Valid() && romLoc < ROM_SIZE
      modifies this`romLoc, rom
      ensures Valid() && View() == Emit(old(View()), b, size)
    {
      Poke(romLoc, b);
      romLoc := romLoc + size;
    }

    /** rdp, rdq and rdja behind their fixup. */
    method EmitPairCode(pair: Pair)
      requires Valid() && romLoc + 7 <= ROM_SIZE
      modifies this`romLoc, rom
      ensures Valid() && View() == EmitPair(old(View()), pair)
    {
      hide Opcode, RegId;
      EmitByte(RegisterByte(Wr, HighReg(pair)), 1);
      EmitByte(Opcode(Rdi), 2);
      EmitByte(RegisterByte(Wr, LowReg(pair)), 1);
      EmitByte(Opcode(Rdi), 2);
      EmitByte(RegisterByte(Sw, HighReg(pair)), 1);
    }

    /** One register instruction, unless it names the accumulator. */
    method EmitRegister(m: Mnemonic, reg: Reg)
      requires Valid() && IsRegisterOp(m) && reg != Acc && romLoc < ROM_SIZE
      modifies this`romLoc, rom
      ensures Valid() && View() == Emit(old(View()), RegisterByte(m, reg), 1)
    {
      EmitByte(RegisterByte(m, reg), 1);
    }

    method MoveLine(a: Reg, b: Reg)
      requires Valid() && romLoc + |MoveBytes(a, b)| <= ROM_SIZE
      modifies this`romLoc, rom
      ensures Valid() && View() == EmitAll(old(View()), MoveBytes(a, b))
    {
      hide Opcode, RegId;
      ghost var st := View();
      if a != b {
        if b == Acc {
          EmitRegister(Rd, a);
          EmitOne(st, RegisterByte(Rd, a));
        } else if a == Acc {
          EmitRegister(Wr, b);
          EmitOne(st, RegisterByte(Wr, b));
        } else if a == IO {
          EmitThree(st, RegisterByte(Sw, b), RegisterByte(Rd, a), RegisterByte(Sw, b));
          EmitRegister(Sw, b);
          EmitRegister(Rd, a);
          EmitRegister(Sw, b);
        } else {
          EmitThree(st, RegisterByte(Sw, a), RegisterByte(Wr, b), RegisterByte(Sw, a));
          EmitRegister(Sw, a);
          EmitRegister(Wr, b);
          EmitRegister(Sw, a);
        }
      }
    }

    method SwapLine(a: Reg, b: Reg)
      requires Valid() && romLoc + |SwapBytes(a, b)| <= ROM_SIZE
      modifies this`romLoc, rom
      ensures Valid() && View() == EmitAll(old(View()), SwapBytes(a, b))
    {
      hide Opcode, RegId;
      ghost var st := View();
      if a != b {
        if b == Acc {
          EmitRegister(Sw, a);
          EmitOne(st, RegisterByte(Sw, a));
        } else if a == Acc {
          EmitRegister(Sw, b);
          EmitOne(st, RegisterByte(Sw, b));
        } else if a == IO {
          EmitThree(st, RegisterByte(Sw, b), RegisterByte(Sw, a), RegisterByte(Sw, b));
          EmitRegister(Sw, b);
          EmitRegister(Sw, a);
          EmitRegister(Sw, b);
        } else {
          EmitThree(st, RegisterByte(Sw, a), RegisterByte(Sw, b), RegisterByte(Sw, a));
          EmitRegister(Sw, a);
          EmitRegister(Sw, b);
          EmitRegister(Sw, a);
        }
      }
    }

    /** An instruction that is no macro. */
    method PlaceInstruction(ctx: Context, item: Item, rest: string) returns (error: Option<AsmError>)
      requires Valid() && Parsed(item) && romLoc + Size(item) <= ROM_SIZE
      requires item.Plain? || item.Register? || item.Immediate? || item.Relative? || item.Memory?
      modifies Repr()
      ensures Valid() && fresh(Repr() - old(Repr()))
      ensures Place(ctx, old(View()), item, Some(rest))
           == if error.None? then Assembled(View()) else Failed(error.value)
    {
      hide Opcode, RegId, AddUnresolved;
      error := None;
      match item {
        case Plain(m, y) => EmitByte(PlainByte(m, y), 1);
        case Register(m, reg) =>
          if reg == Acc {
            error := Some(BadInstruction);
          } else {
            EmitByte(RegisterByte(m, reg), 1);
          }
        case Immediate(m, text) =>
          EmitByte(Opcode(m), 0);
          AddUnresolvedFixup(ctx, FixImm8, text, rest);
          romLoc := romLoc + 2;
        case Relative(m, text) =>
          EmitByte(Opcode(m), 0);
          AddUnresolvedFixup(ctx, FixRelative, text, rest);
          romLoc := romLoc + 2;
        case Memory(m, mode, text) =>
          Image.OpcodeOfMemory(m, mode);
          EmitByte(Opcode(m) + ModeBits(mode), 0);
          AddUnresolvedFixup(ctx, FixImm4, text, rest);
          romLoc := romLoc + 1;
      }
    }

    method PlaceMacro(ctx: Context, item: Item, rest: string)
      requires Valid() && Parsed(item) && romLoc + Size(item) <= ROM_SIZE
      requires item.LoadPair? || item.Rdja? || item.Call? || item.Goto? || item.Move? || item.Swap?
      modifies Repr()
      ensures Valid() && fresh(Repr() - old(Repr()))
      ensures Place(ctx, old(View()), item, Some(rest)) == Assembled(View())
    {
      hide Opcode, RegId, AddUnresolved, EmitAll, MoveBytes, SwapBytes;
      match item {
        case LoadPair(pair, text) => AddUnresolvedFixup(ctx, FixPair, text, rest); EmitPairCode(pair);
        case Rdja(text) => AddUnresolvedFixup(ctx, FixReturn, text, rest); EmitPairCode(P);
        case Call(text) => AddUnresolvedFixup(ctx, FixReturn, text, rest); EmitPairCode(P); EmitByte(Opcode(Jpr), 1);
        case Goto(text) => AddUnresolvedFixup(ctx, FixReturn, text, rest); EmitPairCode(P); EmitByte(Opcode(Jp), 1);
        case Move(a, b) => MoveLine(a, b);
        case Swap(a, b) => SwapLine(a, b);
      }
    }

    method PlaceLine(ctx: Context, item: Item, rest: string) returns (error: Option<AsmError>)
      requires Valid() && Parsed(item) && romLoc + Size(item) <= ROM_SIZE && !IsDirect(item)
      modifies Repr()
      ensures Valid() && fresh(Repr() - old(Repr()))
      ensures Place(ctx, old(View()), item, Some(rest))
           == if error.None? then Assembled(View()) else Failed(error.value)
    {
      hide Place, Size;
      if item.LoadPair? || item.Rdja? || item.Call? || item.Goto? || item.Move? || item.Swap? {
        PlaceMacro(ctx, item, rest);
        error := None;
      } else {
        error := PlaceInstruction(ctx, item, rest);
      }
    }

    /** A line that only talks to the assembler. */
    method DirectLine(ctx: Context, item: Item, rest: string) returns (error: Option<AsmError>)
      requires Valid() && IsDirect(item)
      modifies Repr()
      ensures Valid() && fresh(Repr() - old(Repr()))
      ensures Direct(ctx, old(View()), item, Some(rest))
           == if error.None? then Assembled(View()) else Failed(error.value)
    {
      hide Value, AddUnresolved, Bind;
      error := None;
      match item {
        case Label(name) => AddLabel(name, romLoc);
        case Define(name, text) => AddUnresolvedFixup(ctx, FixDefine(name), text, rest);
        case Assert(text) => AddUnresolvedFixup(ctx, FixAssert, text, rest);
        case Echo(text) => AddUnresolvedFixup(ctx, FixEcho, text, rest);
        case Static(name, text) =>
          var size := Parse(ctx, text);
          if size.Error? || size.value < 0 || ramLoc + size.value > 0xFF00 {
            return Some(BadInstruction);
          }
          AddLabel(name, ramLoc);
          ramLoc := ramLoc + size.value;
        case MemLoc(text) =>
          var to := Parse(ctx, text);
          if to.Error? || to.value >= 0x10000 || to.value <= ramLoc {
            return Some(BadInstruction);
          }
          ramLoc := to.value;
        case Loc(text) =>
          var to := Parse(ctx, text);
          if to.Error? || to.value >= 0x10000 || to.value <= romLoc {
            return Some(BadInstruction);
          }
          romLoc := to.value;
      }
    }

    method AssembleLine(ctx: Context, item: Item, rest: string) returns (error: Option<AsmError>)
      requires Valid() && Parsed(item)
      modifies Repr()
      ensures Valid() && fresh(Repr() - old(Repr()))
      ensures Line(ctx, old(View()), item, Some(rest)) == if error.None? then Assembled(View()) else Failed(error.value)
    {
      hide Direct, Place;
      if IsDirect(item) {
        error := DirectLine(ctx, item, rest);
      } else if romLoc + Size(item) > ROM_SIZE {
        error := Some(Overrun);
      } else {
        error := PlaceLine(ctx, item, rest);
      }
    }

    /** The fixups left over, in order. */
    method ResolveLeftovers(ctx: Context) returns (ok: bool)
      requires Valid()
      modifies rom, resolved, resolved.symbols
      ensures Valid() && fresh(Repr() - old(Repr()))
      ensures ok == ResolveAll(ctx, old(View()), old(unresolved)).Some?
      ensures ok ==> View() == ResolveAll(ctx, old(View()), old(unresolved)).value
    {
      hide Resolve;
      for i := 0 to |unresolved|
        invariant Valid() && fresh(Repr() - old(Repr()))
        invariant ResolveAll(ctx, View(), unresolved[i..]) == ResolveAll(ctx, old(View()), old(unresolved))
      {
        assert unresolved[i..][0] == unresolved[i] && unresolved[i..][1..] == unresolved[i + 1..];
        ok := ResolveFixup(ctx, unresolved[i]);
        if !ok {
          return;
        }
      }
      ok := true;
    }

    /** The whole program: all lines, then all fixups that are left. */
    method AssembleProgram(ctx: Context, items: seq<Item>, rests: seq<string>) returns (error: Option<AsmError>)
      requires Valid() && View() == Asm(Blank(), 0, ROM_SIZE, [], []) && AllParsed(items)
      requires |rests| == |items|
      modifies Repr()
      ensures Valid() && fresh(Repr() - old(Repr()))
      ensures AssembleFile(ctx, items, rests) == if error.None? then Assembled(View()) else Failed(error.value)
    {
      hide Line, ResolveAll, Blank, Parsed;
      AddLabel("ISR", ISR_ADDR);
      assert items[..0] == [] && rests[..0] == [];
      for i := 0 to |items|
        invariant Valid() && fresh(Repr() - old(Repr()))
        invariant ScanFile(ctx, items[..i], rests[..i]) == Assembled(View())
      {
        error := AssembleLine(ctx, items[i], rests[i]);
        assert items[..i + 1][..i] == items[..i] && rests[..i + 1][..i] == rests[..i];
        if error.Some? {
          ScanStops(ctx, items, rests, i + 1);
          return;
        }
      }
      assert items[..|items|] == items && rests[..|items|] == rests;
      AddLabel("FREE_MEM", ramLoc);
      var ok := ResolveLeftovers(ctx);
      error := if ok then None else Some(NotResolved);
    }
  }

  lemma EmitOne(st: Asm, a: Byte)
    requires st.loc + 1 <= ROM_SIZE
    ensures EmitAll(st, [a]) == Emit(st, a, 1)
  {
    assert [a][1..] == [];
  }

  lemma EmitThree(st: Asm, a: Byte, b: Byte, c: Byte)
    requires st.loc + 3 <= ROM_SIZE
    ensures EmitAll(st, [a, b, c]) == Emit(Emit(Emit(st, a, 1), b, 1), c, 1)
  {
    var st1 := Emit(st, a, 1);
    var st2 := Emit(st1, b, 1);
    assert [a, b, c][1..] == [b, c] && [b, c][1..] == [c];
    assert EmitAll(st1, [b, c]) == EmitAll(st2, [c]);
    EmitOne(st2, c);
  }

  /** A line that fails ends the assembly. */
  lemma {:induction false} ScanStops(ctx: Context, items: seq<Item>, rests: seq<string>, n: nat)
    requires AllParsed(items) && |rests| == |items| && n <= |items| && ScanFile(ctx, items[..n], rests[..n]).Failed?
    ensures ScanFile(ctx, items, rests) == ScanFile(ctx, items[..n], rests[..n])
    decreases |items|
  {
    hide Line;
    if n < |items| {
      var front, before := items[..|items| - 1], rests[..|items| - 1];
      assert front[..n] == items[..n] && before[..n] == rests[..n];
      ScanStops(ctx, front, before, n);
    } else {
      assert items[..n] == items && rests[..n] == rests;
    }
  }
}
