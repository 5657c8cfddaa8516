/**
 The ROM the assembler leaves behind is the encoding of every line under the final symbol table,
 whether operands were filled in at once or later.
 */
module Image {
  import opened Bytes
  import opened Isa
  import opened Processor
  import opened Assembler
  import opened Encoding

  // ----- one line

  ghost predicate SameOutside(rom: Memory, rom': Memory, a: int, n: int) {
    forall x :: 0 <= x < ROM_SIZE && !(a <= x < a + n) ==> rom'[x] == rom[x]
  }

  lemma HoldsConcat(rom: Memory, a: int, xs: seq<Byte>, ys: seq<Byte>)
    ensures Holds(rom, a, xs + ys) <==> Holds(rom, a, xs) && Holds(rom, a + |xs|, ys)
  {
    if Holds(rom, a, xs + ys) {
      assert forall i :: 0 <= i < |xs| ==> (xs + ys)[i] == xs[i];
      forall i | 0 <= i < |ys|
        ensures rom[a + |xs| + i] == ys[i]
      {
        assert rom[a + (|xs| + i)] == (xs + ys)[|xs| + i];
      }
    }
    if Holds(rom, a, xs) && Holds(rom, a + |xs|, ys) {
      forall i | 0 <= i < |xs + ys|
        ensures rom[a + i] == (xs + ys)[i]
      {
        if i >= |xs| {
          assert rom[a + |xs| + (i - |xs|)] == ys[i - |xs|];
        }
      }
    }
  }

  lemma FillPair(rom: Memory, a: nat, pair: Pair, blank: int, v: int)
    requires 0 <= blank < 0x10000 && 0 <= v < 0x10000 && Holds(rom, a, PairBytes(pair, blank))
    ensures var rom' := rom[a + 5 := v / 256][a + 2 := v % 256];
            Holds(rom', a, PairBytes(pair, v)) && SameOutside(rom, rom', a, 7)
  {
    hide Opcode, RegId;
    var bs := PairBytes(pair, blank);
    var rom' := rom[a + 5 := v / 256][a + 2 := v % 256];
    forall i | 0 <= i < 7
      ensures rom'[a + i] == PairBytes(pair, v)[i]
    {
      assert rom[a + i] == bs[i];
    }
  }

  /** A resolver that succeeds turns the blank bytes of a line into its encoding. */
  lemma ApplyFills(st: Asm, item: Item, a: nat, v: int)
    requires Legal(item) && FixOf(item).Some? && Writes(FixOf(item).value.0)
    requires Holds(st.rom, a, Template(item, a)) && Apply(st, FixupOf(item, a), v).Some?
    ensures var st' := Apply(st, FixupOf(item, a), v).value;
            && st' == st.(rom := st'.rom) && SameOutside(st.rom, st'.rom, a, Size(item))
            && Fits(item, a, v) && Holds(st'.rom, a, Encode(item, a, v))
  {
    hide Bitwise, Opcode, RegId, Holds;
    match item
    case Immediate(m, _) => FillImm8(st.rom, a, m, v);
    case Relative(m, _) => FillRelative(st.rom, a, m, v);
    case Memory(m, mode, _) => FillImm4(st.rom, a, m, mode, v);
    case LoadPair(pair, _) => FillPair(st.rom, a, pair, 0, v);
    case Rdja(_) => FillPair(st.rom, a, P, 0, v - 1);
    case Call(_) => FillReturn(st.rom, a, [Opcode(Jpr)], v - 1);
    case Goto(_) => FillReturn(st.rom, a, [Opcode(Jp)], v - 1);
  }

  lemma FillImm8(rom: Memory, a: nat, m: Mnemonic, v: int)
    requires Holds(rom, a, [Opcode(m), 0])
    ensures var rom' := rom[a + 1 := v % 256];
            Holds(rom', a, [Opcode(m), v % 256]) && SameOutside(rom, rom', a, 2)
  {
    assert rom[a + 0] == [Opcode(m), 0][0];
  }

  lemma FillRelative(rom: Memory, a: nat, m: Mnemonic, v: int)
    requires IsRelativeOp(m) && Holds(rom, a, JumpBytes(m, 0))
    ensures var offset := v - a - 1;
            var rom' := rom[a := Bitwise(OrOp, rom[a], OffsetBits(offset))][a + 1 := offset % 256];
            Holds(rom', a, JumpBytes(m, offset)) && SameOutside(rom, rom', a, 2)
  {
    hide Bitwise, Opcode;
    assert rom[a + 0] == JumpBytes(m, 0)[0];
    OrOffset(m, OffsetBits(v - a - 1));
  }

  lemma FillImm4(rom: Memory, a: nat, m: Mnemonic, mode: MemMode, v: int)
    requires IsMemoryOp(m) && Holds(rom, a, [Opcode(m) + ModeBits(mode) + 0 % 16])
    ensures var rom' := rom[a := Bitwise(OrOp, rom[a], v % 16)];
            Holds(rom', a, [Opcode(m) + ModeBits(mode) + v % 16]) && SameOutside(rom, rom', a, 1)
  {
    hide Bitwise;
    var b := Opcode(m) + ModeBits(mode);
    assert rom[a + 0] == [b + 0 % 16][0];
    assert b % 16 == 0;
    OrImm4(b, v % 16);
  }

  lemma FillReturn(rom: Memory, a: nat, jump: seq<Byte>, v: int)
    requires |jump| == 1 && 0 <= v < 0x10000 && Holds(rom, a, PairBytes(P, 0) + jump)
    ensures var rom' := rom[a + 5 := v / 256][a + 2 := v % 256];
            Holds(rom', a, PairBytes(P, v) + jump) && SameOutside(rom, rom', a, 8)
  {
    hide Opcode, RegId;
    var rom' := rom[a + 5 := v / 256][a + 2 := v % 256];
    HoldsConcat(rom, a, PairBytes(P, 0), jump);
    FillPair(rom, a, P, 0, v);
    assert rom'[a + 7 + 0] == rom[a + 7 + 0] == jump[0];
    HoldsConcat(rom', a, PairBytes(P, v), jump);
  }

  // ----- placing a line

  /** From address a on the ROM is still blank. */
  ghost predicate BlankFrom(rom: Memory, a: int) {
    forall x :: 0 <= x < ROM_SIZE && a <= x ==> rom[x] == 0
  }

  /** What placing a line does: it writes its own bytes only. They are complete if there is no
      operand, or if the value of the operand is known and fits; otherwise the operand is blank and
      the fixup has been kept. */
  ghost predicate Placed(ctx: Context, st: Asm, item: Item, early: bool, st': Asm)
    requires Legal(item)
  {
    var a := st.loc;
    && st'.loc == a + Size(item) && st'.ramLoc == st.ramLoc && st'.symbols == st.symbols
    && SameOutside(st.rom, st'.rom, a, Size(item))
    && if FixOf(item).None? then
         st'.unresolved == st.unresolved && Holds(st'.rom, a, Encode(item, a, 0))
       else if st'.unresolved == st.unresolved then
         early && Complete(ctx, st', item, a)
       else
         st'.unresolved == st.unresolved + [FixupOf(item, a)] && Holds(st'.rom, a, Template(item, a))
  }

  /** The line's operand has a value under the current symbols, and its bytes encode it. */
  ghost predicate Complete(ctx: Context, st: Asm, item: Item, a: nat)
    requires Legal(item) && FixOf(item).Some?
  {
    var r := Value(ctx, st.symbols, FixOf(item).value.1);
    r.Ok? && Fits(item, a, r.value) && Holds(st.rom, a, Encode(item, a, r.value))
  }

  lemma EmitPairHolds(st: Asm, pair: Pair, v: int)
    requires st.loc + 7 <= ROM_SIZE && 0 <= v < 0x10000
    requires st.rom[st.loc + 2] == v % 256 && st.rom[st.loc + 5] == v / 256
    ensures var st' := EmitPair(st, pair);
            && st' == st.(rom := st'.rom, loc := st.loc + 7)
            && SameOutside(st.rom, st'.rom, st.loc, 7) && Holds(st'.rom, st.loc, PairBytes(pair, v))
  {
    hide Opcode, RegId;
    var st' := EmitPair(st, pair);
    var a, bs := st.loc, PairBytes(pair, v);
    assert st'.rom == st.rom[a := bs[0]][a + 1 := bs[1]][a + 3 := bs[3]][a + 4 := bs[4]][a + 6 := bs[6]];
    forall i | 0 <= i < 7
      ensures st'.rom[a + i] == bs[i]
    {
    }
  }

  lemma {:induction false} EmitAllHolds(st: Asm, bs: seq<Byte>)
    requires st.loc + |bs| <= ROM_SIZE
    ensures var st' := EmitAll(st, bs);
            && st' == st.(rom := st'.rom, loc := st.loc + |bs|)
            && SameOutside(st.rom, st'.rom, st.loc, |bs|) && Holds(st'.rom, st.loc, bs)
    decreases |bs|
  {
    if bs != [] {
      var st1 := Emit(st, bs[0], 1);
      var st' := EmitAll(st, bs);
      EmitAllHolds(st1, bs[1..]);
      forall i | 0 <= i < |bs|
        ensures st'.rom[st.loc + i] == bs[i]
      {
        if i > 0 {
          assert st'.rom[st1.loc + (i - 1)] == bs[1..][i - 1];
        }
      }
    }
  }

  /** A line whose opcode is written before its operand is looked at. */
  lemma PlaceThenFill(ctx: Context, st: Asm, item: Item, early: bool, st1: Asm, st2: Asm)
    requires Legal(item) && (item.Immediate? || item.Relative? || item.Memory?)
    requires st.loc + Size(item) <= ROM_SIZE && BlankFrom(st.rom, st.loc)
    requires st1 == Emit(st, Template(item, st.loc)[0], 0)
    requires st2 == AddUnresolved(ctx, st1, FixOf(item).value.0, FixOf(item).value.1, Tried(early))
    ensures Placed(ctx, st, item, early, st2.(loc := st.loc + Size(item)))
  {
    hide Bitwise, Opcode, Apply;
    var a := st.loc;
    var t := Template(item, a);
    assert Holds(st1.rom, a, t) by {
      assert |t| == 2 ==> t[1] == 0;
    }
    var f := FixupOf(item, a);
    var r := Value(ctx, st.symbols, f.text);
    if early && r.Ok? && Apply(st1, f, r.value).Some? {
      ApplyFills(st1, item, a, r.value);
    }
  }

  /** A macro whose operand is looked at before its opcodes are written around it. */
  lemma FillThenPlace(ctx: Context, st: Asm, fix: Fix, text: string, early: bool, pair: Pair)
    requires fix.FixPair? || fix.FixReturn?
    requires st.loc + 7 <= ROM_SIZE && BlankFrom(st.rom, st.loc)
    ensures var st1 := AddUnresolved(ctx, st, fix, text, Tried(early));
            var st2 := EmitPair(st1, pair);
            var f := Fixup(fix, text, st.loc);
            var r := Value(ctx, st.symbols, text);
            && st1.loc == st.loc && st2 == st.(rom := st2.rom, loc := st.loc + 7, unresolved := st2.unresolved)
            && SameOutside(st.rom, st2.rom, st.loc, 7)
            && if st2.unresolved == st.unresolved then
                 early && r.Ok? && PairFits(fix, r.value)
                 && Holds(st2.rom, st.loc, PairBytes(pair, PairValue(fix, r.value)))
               else
                 st2.unresolved == st.unresolved + [f] && Holds(st2.rom, st.loc, PairBytes(pair, 0))
  {
    hide Value;
    var st1 := AddUnresolved(ctx, st, fix, text, Tried(early));
    var f := Fixup(fix, text, st.loc);
    var r := Value(ctx, st.symbols, text);
    if early && r.Ok? && Apply(st, f, r.value).Some? {
      EmitPairHolds(st1, pair, PairValue(fix, r.value));
    } else {
      EmitPairHolds(st1, pair, 0);
    }
  }

  function PairValue(fix: Fix, v: int): int {
    if fix.FixReturn? then v - 1 else v
  }

  predicate PairFits(fix: Fix, v: int) {
    0 <= PairValue(fix, v) < 0x10000
  }

  /** call and goto: the macro, then the jump. */
  lemma PlaceJump(ctx: Context, st: Asm, item: Item, text: string, early: bool, b: Byte)
    requires (item == Call(text) && b == Opcode(Jpr)) || (item == Goto(text) && b == Opcode(Jp))
    requires st.loc + 8 <= ROM_SIZE && BlankFrom(st.rom, st.loc)
    ensures Placed(ctx, st, item, early, Emit(EmitPair(AddUnresolved(ctx, st, FixReturn, text, Tried(early)), P), b, 1))
  {
    hide Value, AddUnresolved, EmitPair, Opcode;
    var st2 := EmitPair(AddUnresolved(ctx, st, FixReturn, text, Tried(early)), P);
    FillThenPlace(ctx, st, FixReturn, text, early, P);
    var st3 := Emit(st2, b, 1);
    var r := Value(ctx, st.symbols, text);
    var bs := PairBytes(P, if st2.unresolved == st.unresolved then r.value - 1 else 0);
    assert Holds(st3.rom, st.loc, bs) && Holds(st3.rom, st.loc + 7, [b]);
    HoldsConcat(st3.rom, st.loc, bs, [b]);
  }

  lemma OpcodeOfMemory(m: Mnemonic, mode: MemMode)
    requires IsMemoryOp(m)
    ensures Opcode(m) + ModeBits(mode) < 256
  {
  }

  lemma PlaceResult(ctx: Context, st: Asm, item: Item, early: bool)
    requires Legal(item) && !IsDirect(item)
    requires st.loc + Size(item) <= ROM_SIZE && BlankFrom(st.rom, st.loc)
    ensures var r := Place(ctx, st, item, Tried(early));
            r.Assembled? && Placed(ctx, st, item, early, r.st)
  {
    hide Value, AddUnresolved, EmitPair, Opcode, MoveBytes, SwapBytes, Apply;
    match item
    case Plain(m, y) =>
    case Register(m, reg) =>
    case Immediate(m, text) =>
      var st1 := Emit(st, Opcode(m), 0);
      PlaceThenFill(ctx, st, item, early, st1, AddUnresolved(ctx, st1, FixImm8, text, Tried(early)));
    case Relative(m, text) =>
      var st1 := Emit(st, Opcode(m), 0);
      PlaceThenFill(ctx, st, item, early, st1, AddUnresolved(ctx, st1, FixRelative, text, Tried(early)));
    case Memory(m, mode, text) =>
      OpcodeOfMemory(m, mode);
      var st1 := Emit(st, Opcode(m) + ModeBits(mode), 0);
      PlaceThenFill(ctx, st, item, early, st1, AddUnresolved(ctx, st1, FixImm4, text, Tried(early)));
    case LoadPair(pair, text) => FillThenPlace(ctx, st, FixPair, text, early, pair);
    case Rdja(text) => FillThenPlace(ctx, st, FixReturn, text, early, P);
    case Call(text) => PlaceJump(ctx, st, item, text, early, Opcode(Jpr));
    case Goto(text) => PlaceJump(ctx, st, item, text, early, Opcode(Jp));
    case Move(x, y) => EmitAllHolds(st, MoveBytes(x, y));
    case Swap(x, y) => EmitAllHolds(st, SwapBytes(x, y));
  }
}
