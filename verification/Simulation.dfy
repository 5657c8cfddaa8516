/**
 The assembled ROM, run by the processor without interrupts, follows the source machine line by line.
 */
module Simulation {
  import opened Bytes
  import opened Lexer
  import opened Isa
  import opened Processor
  import opened Assembler
  import opened Encoding
  import opened Image
  import opened SourceMachine
  import opened Execution

  ghost predicate AllSilent(inputs: seq<Input>) {
    forall i :: 0 <= i < |inputs| ==> Silent(inputs[i])
  }

  // ----- lines of one instruction

  predicate Single(item: Item) {
    item.Plain? || item.Register? || item.Immediate? || item.Relative? || item.Memory?
  }

  lemma SingleRuns(c: Cpu, item: Item, v: int, input: Input)
    requires Single(item) && Legal(item) && Supported(item) && Fits(item, c.pc, v)
    requires c.intsIn == 0 && Silent(input) && Holds(c.rom, c.pc, Encode(item, c.pc, v))
    ensures Did(c, item, v, [input], Step(c, input))
  {
    hide Step, After, Leaves, Opcode, OffsetBits;
    var bs := Encode(item, c.pc, v);
    assert c.rom[c.pc + 0] == bs[0];
    match item
    case Plain(m, y) => PlainRuns(c, m, y, input); DidAnyValue(c, item, v, input);
    case Register(m, reg) => RegisterRuns(c, m, reg, input); DidAnyValue(c, item, v, input);
    case Immediate(m, text) =>
      assert c.rom[c.pc + 1] == bs[1];
      ImmediateRuns(c, m, text, v, input);
    case Relative(m, text) =>
      assert c.rom[c.pc + 1] == bs[1];
      RelativeRuns(c, m, text, v, input);
    case Memory(m, mode, text) => MemoryRuns(c, m, mode, text, v, input);
  }

  /** Lines without an operand do not look at its value. */
  lemma DidAnyValue(c: Cpu, item: Item, v: int, input: Input)
    requires (item.Plain? || item.Register?) && Supported(item)
    requires Did(c, item, 0, [input], Step(c, input))
    ensures Did(c, item, v, [input], Step(c, input))
  {
    hide Step, AfterPlain, AfterRegister;
  }

  // ----- macros, as instructions one behind the other

  /** An instruction that a macro is made of; it does not jump and asks no device. */
  datatype Part = OnReg(m: Mnemonic, reg: Reg) | LoadAcc(b: Byte)

  predicate IsPart(part: Part) {
    part.OnReg? ==> IsRegisterOp(part.m) && part.reg != Acc && part.reg != IO
  }

  ghost predicate AreParts(parts: seq<Part>) {
    forall i :: 0 <= i < |parts| ==> IsPart(parts[i])
  }

  function PartBytes(part: Part): seq<Byte>
    requires IsPart(part)
  {
    match part
    case OnReg(m, reg) => [RegisterByte(m, reg)]
    case LoadAcc(b) => [Opcode(Rdi), b]
  }

  ghost function BytesOf(parts: seq<Part>): seq<Byte>
    requires AreParts(parts)
  {
    if parts == [] then [] else PartBytes(parts[0]) + BytesOf(parts[1..])
  }

  function AfterPart(r: Regs, part: Part): (r': Regs)
    requires IsPart(part)
    ensures r'.rom == r.rom
  {
    match part
    case OnReg(m, reg) => AfterRegister(Idle(r), m, reg, Input(None, false, false))
    case LoadAcc(b) => Idle(r).(acc := b)
  }

  ghost function AfterParts(r: Regs, parts: seq<Part>): Regs
    requires AreParts(parts)
    decreases |parts|
  {
    if parts == [] then r else AfterParts(AfterPart(r, parts[0]), parts[1..])
  }

  lemma PartRuns(c: Cpu, part: Part, input: Input)
    requires IsPart(part) && c.intsIn == 0 && Silent(input)
    requires Holds(c.rom, c.pc, PartBytes(part))
    ensures var r := Step(c, input);
            && r.Some? && r.value.intsIn == 0 && RegsOf(r.value) == AfterPart(RegsOf(c), part)
            && r.value.pc == c.pc + |PartBytes(part)|
  {
    hide Step, Opcode, AfterRegister;
    if part.OnReg? {
      var item := Register(part.m, part.reg);
      assert Encode(item, c.pc, 0) == PartBytes(part);
      SingleRuns(c, item, 0, input);
      AskNobody(Idle(RegsOf(c)), part.m, part.reg, input);
    } else {
      var item := Immediate(Rdi, "");
      assert Encode(item, c.pc, part.b) == PartBytes(part);
      SingleRuns(c, item, part.b, input);
    }
  }

  lemma {:induction false} PartsRun(c: Cpu, parts: seq<Part>, inputs: seq<Input>)
    requires AreParts(parts) && |inputs| == |parts| && c.intsIn == 0 && AllSilent(inputs)
    requires Holds(c.rom, c.pc, BytesOf(parts))
    ensures var r := Processor.Run(c, inputs);
            && r.Some? && r.value.intsIn == 0 && RegsOf(r.value) == AfterParts(RegsOf(c), parts)
            && r.value.pc == c.pc + |BytesOf(parts)|
    decreases |parts|
  {
    hide Step, AfterPart, Holds, PartBytes, IsPart;
    if parts != [] {
      HoldsConcat(c.rom, c.pc, PartBytes(parts[0]), BytesOf(parts[1..]));
      PartRuns(c, parts[0], inputs[0]);
      PartsRun(Step(c, inputs[0]).value, parts[1..], inputs[1..]);
    }
  }

  // ----- what the macros come to

  function PairParts(pair: Pair, v: Word16): seq<Part> {
    [OnReg(Wr, HighReg(pair)), LoadAcc(v % 256), OnReg(Wr, LowReg(pair)), LoadAcc(v / 256), OnReg(Sw, HighReg(pair))]
  }

  lemma Pack(h: Byte, l: Byte)
    ensures (h as int * 256 + l) / 256 == h && (h as int * 256 + l) % 256 == l
  {
  }

  lemma PairByHalves(r: Regs, pair: Pair, v: Word16)
    ensures var r1 := Set(r, HighReg(pair), r.acc);
            var r2 := r1.(acc := v % 256);
            var r3 := Set(r2, LowReg(pair), r2.acc);
            var r4 := r3.(acc := v / 256);
            Exchange(r4, HighReg(pair), Acc) == SetPair(r, pair, v)
  {
    var w := if pair == P then r.p else r.q;
    var high, low: Byte := v / 256, v % 256;
    Pack(r.acc, w % 256);
    Pack(r.acc, low);
    assert v == high as int * 256 + low;
    var kept: Word16 := r.acc as int * 256 + low;
    hide Set;
    var r2 := Set(r, HighReg(pair), r.acc).(acc := low);
    var r3 := Set(r2, LowReg(pair), low);
    SetHighHalf(r, pair, r.acc);
    SetLowHalf(r2, pair, low);
    assert r3 == SetPair(r, pair, kept).(acc := low);
    SwapHigh(r3.(acc := high), pair, r.acc, low, high);
  }

  lemma SetLowHalf(r: Regs, pair: Pair, b: Byte)
    ensures Set(r, LowReg(pair), b)
         == if pair == P then r.(p := r.p / 256 * 256 + b as int) else r.(q := r.q / 256 * 256 + b as int)
  {
  }

  lemma SwapHigh(r: Regs, pair: Pair, h: Byte, l: Byte, h': Byte)
    requires r.acc == h' && (if pair == P then r.p else r.q) == h as int * 256 + l as int
    ensures Exchange(r, HighReg(pair), Acc) == SetPair(r, pair, h' as int * 256 + l as int).(acc := h)
  {
    hide Set;
    Pack(h, l);
    SetHighHalf(r, pair, h');
    assert Get(r, HighReg(pair)) == h;
    SetAcc(Set(r, HighReg(pair), h'), h);
  }

  lemma SetHighHalf(r: Regs, pair: Pair, b: Byte)
    ensures Set(r, HighReg(pair), b)
         == if pair == P then r.(p := b as int * 256 + r.p % 256) else r.(q := b as int * 256 + r.q % 256)
  {
  }

  lemma SetAcc(r: Regs, b: Byte)
    ensures Set(r, Acc, b) == r.(acc := b)
  {
  }

  lemma Unfold(r: Regs, part: Part, parts: seq<Part>)
    requires IsPart(part) && AreParts(parts)
    ensures AreParts([part] + parts)
    ensures AfterParts(r, [part] + parts) == AfterParts(AfterPart(r, part), parts)
    ensures BytesOf([part] + parts) == PartBytes(part) + BytesOf(parts)
  {
    hide AfterPart, IsPart, PartBytes;
    assert ([part] + parts)[1..] == parts;
  }

  lemma UnfoldThree(r: Regs, a: Part, b: Part, c: Part)
    requires IsPart(a) && IsPart(b) && IsPart(c)
    ensures AreParts([a, b, c])
    ensures AfterParts(r, [a, b, c]) == AfterPart(AfterPart(AfterPart(r, a), b), c)
    ensures BytesOf([a, b, c]) == PartBytes(a) + PartBytes(b) + PartBytes(c)
  {
    hide AfterPart, IsPart, PartBytes;
    Unfold(r, a, [b, c]);
    Unfold(AfterPart(r, a), b, [c]);
    Unfold(AfterPart(AfterPart(r, a), b), c, []);
    assert [a] + [b, c] == [a, b, c] && [b] + [c] == [b, c] && [c] + [] == [c];
  }

  lemma UnfoldFive(r: Regs, a: Part, b: Part, c: Part, d: Part, e: Part)
    requires IsPart(a) && IsPart(b) && IsPart(c) && IsPart(d) && IsPart(e)
    ensures AreParts([a, b, c, d, e])
    ensures AfterParts(r, [a, b, c, d, e]) == AfterPart(AfterPart(AfterPart(AfterPart(AfterPart(r, a), b), c), d), e)
    ensures BytesOf([a, b, c, d, e]) == PartBytes(a) + PartBytes(b) + PartBytes(c) + PartBytes(d) + PartBytes(e)
  {
    hide AfterPart, IsPart, PartBytes, AfterParts, BytesOf;
    UnfoldThree(AfterPart(AfterPart(r, a), b), c, d, e);
    Unfold(AfterPart(r, a), b, [c, d, e]);
    Unfold(r, a, [b] + [c, d, e]);
    assert [a] + ([b] + [c, d, e]) == [a, b, c, d, e];
  }

  /** Loading a pair through the accumulator changes the pair and nothing else. */
  lemma PairLoads(r: Regs, pair: Pair, v: Word16)
    ensures AreParts(PairParts(pair, v)) && AfterParts(r, PairParts(pair, v)) == SetPair(Idle(r), pair, v)
    ensures BytesOf(PairParts(pair, v)) == PairBytes(pair, v)
  {
    hide Opcode, RegId, BytesOf, AfterParts, Set, Get, Exchange, SetPair;
    var ps := PairParts(pair, v);
    UnfoldFive(r, ps[0], ps[1], ps[2], ps[3], ps[4]);
    PairByParts(r, pair, v);
  }

  lemma PartIs(r: Regs, part: Part)
    requires IsPart(part)
    ensures AfterPart(r, part)
         == if part.LoadAcc? then Idle(r).(acc := part.b)
            else if part.m.Wr? then Set(Idle(r), part.reg, r.acc)
            else if part.m.Rd? then Set(Idle(r), Acc, Get(Idle(r), part.reg))
            else Exchange(Idle(r), part.reg, Acc)
  {
    hide Set, Exchange;
  }

  lemma PairByParts(r: Regs, pair: Pair, v: Word16)
    ensures var ps := PairParts(pair, v);
            AfterPart(AfterPart(AfterPart(AfterPart(AfterPart(r, ps[0]), ps[1]), ps[2]), ps[3]), ps[4])
            == SetPair(Idle(r), pair, v)
  {
    hide Set, Get, Exchange, SetPair, AfterPart, Idle, RegId;
    var hi, lo := HighReg(pair), LowReg(pair);
    var ps := PairParts(pair, v);
    var r0 := Idle(r);
    IdleIdle(r);
    var r1 := Set(r0, hi, r0.acc);
    IdleSet(r0, hi, r0.acc);
    var r2 := r1.(acc := v % 256);
    IdleAcc(r1, v % 256);
    var r3 := Set(r2, lo, r2.acc);
    IdleSet(r2, lo, r2.acc);
    var r4 := r3.(acc := v / 256);
    IdleAcc(r3, v / 256);
    PartIs(r, ps[0]);
    PartIs(r1, ps[1]);
    PartIs(r2, ps[2]);
    PartIs(r3, ps[3]);
    PartIs(r4, ps[4]);
    PairByHalves(r0, pair, v);
  }

  lemma IdleIdle(r: Regs)
    ensures Idle(Idle(r)) == Idle(r) && Idle(r).acc == r.acc
  {
  }

  lemma IdleAcc(r: Regs, b: Byte)
    requires Idle(r) == r
    ensures Idle(r.(acc := b)) == r.(acc := b)
  {
  }

  lemma IdleSet(r: Regs, reg: Reg, b: Byte)
    requires reg != IO && Idle(r) == r
    ensures Idle(Set(r, reg, b)) == Set(r, reg, b)
  {
  }

  // ----- moves and swaps

  /** Everything but the registers. */
  function Frame(r: Regs): Regs {
    r.(acc := 0, sp := 0, x := 0, y := 0, p := 0, q := 0)
  }

  lemma SetFrame(r: Regs, reg: Reg, b: Byte)
    requires reg != IO
    ensures Frame(Set(r, reg, b)) == Frame(r)
  {
    hide Frame;
    FrameByField(r, b, Set(r, reg, b).p);
    FrameByField(r, b, Set(r, reg, b).q);
  }

  lemma FrameByField(r: Regs, b: Byte, w: Word16)
    ensures Frame(r.(acc := b)) == Frame(r.(sp := b)) == Frame(r.(x := b)) == Frame(r.(y := b)) == Frame(r)
    ensures Frame(r.(p := w)) == Frame(r.(q := w)) == Frame(r)
  {
  }

  lemma SameRegs(r: Regs, s: Regs)
    requires Frame(r) == Frame(s) && forall reg :: reg != IO ==> Get(r, reg) == Get(s, reg)
    ensures r == s
  {
    hide Get;
    SameByName(r, s);
  }

  lemma SameByName(r: Regs, s: Regs)
    requires forall reg :: reg != IO ==> Get(r, reg) == Get(s, reg)
    ensures r.acc == s.acc && r.sp == s.sp && r.x == s.x && r.y == s.y && r.p == s.p && r.q == s.q
  {
    assert Get(r, Acc) == Get(s, Acc) && Get(r, SP) == Get(s, SP) && Get(r, X) == Get(s, X) && Get(r, Y) == Get(s, Y);
    assert Get(r, PL) == Get(s, PL) && Get(r, PH) == Get(s, PH);
    assert Get(r, QL) == Get(s, QL) && Get(r, QH) == Get(s, QH);
  }

  lemma GetExchange(r: Regs, a: Reg, b: Reg, reg: Reg)
    requires a != IO && b != IO && reg != IO
    ensures Get(Exchange(r, a, b), reg) == if reg == a then Get(r, b) else if reg == b then Get(r, a) else Get(r, reg)
    ensures Frame(Exchange(r, a, b)) == Frame(r)
  {
    hide Set, Get, Frame;
    GetSet(r, a, Get(r, b), reg);
    GetSet(Set(r, a, Get(r, b)), b, Get(r, a), reg);
    SetFrame(r, a, Get(r, b));
    SetFrame(Set(r, a, Get(r, b)), b, Get(r, a));
  }

  /** A move through the accumulator, which gets its old value back. */
  lemma MoveIsSet(r: Regs, a: Reg, b: Reg)
    requires a != IO && b != IO && a != Acc && b != Acc && a != b
    ensures var r1 := Exchange(r, a, Acc);
            Exchange(Set(r1, b, Get(r1, Acc)), a, Acc) == Set(r, b, Get(r, a))
  {
    hide Set, Get, Exchange, Frame;
    var r1 := Exchange(r, a, Acc);
    var r2 := Set(r1, b, Get(r1, Acc));
    var r3, goal := Exchange(r2, a, Acc), Set(r, b, Get(r, a));
    GetExchange(r, a, Acc, Acc);
    SetFrame(r1, b, Get(r1, Acc));
    SetFrame(r, b, Get(r, a));
    forall reg | reg != IO
      ensures Get(r3, reg) == Get(goal, reg)
    {
      GetExchange(r2, a, Acc, reg);
      GetSet(r1, b, Get(r1, Acc), a);
      GetSet(r1, b, Get(r1, Acc), Acc);
      GetSet(r1, b, Get(r1, Acc), reg);
      GetExchange(r, a, Acc, a);
      GetExchange(r, a, Acc, reg);
      GetSet(r, b, Get(r, a), reg);
    }
    GetExchange(r2, a, Acc, Acc);
    SameRegs(r3, goal);
  }

  lemma SwapIsExchange(r: Regs, a: Reg, b: Reg)
    requires a != IO && b != IO && a != Acc && b != Acc && a != b
    ensures Exchange(Exchange(Exchange(r, a, Acc), b, Acc), a, Acc) == Exchange(r, a, b)
  {
    hide Set, Get, Exchange, Frame;
    var r1 := Exchange(r, a, Acc);
    var r2 := Exchange(r1, b, Acc);
    var r3, goal := Exchange(r2, a, Acc), Exchange(r, a, b);
    forall reg | reg != IO
      ensures Get(r3, reg) == Get(goal, reg)
    {
      GetExchange(r2, a, Acc, reg);
      GetExchange(r1, b, Acc, a);
      GetExchange(r1, b, Acc, Acc);
      GetExchange(r1, b, Acc, reg);
      GetExchange(r, a, Acc, a);
      GetExchange(r, a, Acc, b);
      GetExchange(r, a, Acc, Acc);
      GetExchange(r, a, Acc, reg);
      GetExchange(r, a, b, reg);
    }
    GetExchange(r2, a, Acc, Acc);
    GetExchange(r1, b, Acc, Acc);
    GetExchange(r, a, Acc, Acc);
    GetExchange(r, a, b, Acc);
    SameRegs(r3, goal);
  }

  function MoveParts(item: Item): seq<Part>
    requires (item.Move? || item.Swap?) && Supported(item)
  {
    var other := if item.Move? then Wr else Sw;
    if item.a == item.b then []
    else if item.b == Acc then [OnReg(if item.Move? then Rd else Sw, item.a)]
    else if item.a == Acc then [OnReg(other, item.b)]
    else [OnReg(Sw, item.a), OnReg(other, item.b), OnReg(Sw, item.a)]
  }

  lemma MovePartsEncode(item: Item)
    requires (item.Move? || item.Swap?) && Supported(item)
    ensures var ps := MoveParts(item);
            && AreParts(ps) && |ps| == Steps(item)
            && BytesOf(ps) == (if item.Move? then MoveBytes(item.a, item.b) else SwapBytes(item.a, item.b))
  {
    hide Opcode, RegId;
    var ps := MoveParts(item);
    if |ps| == 3 {
      BytesOfThree(ps[0], ps[1], ps[2]);
    }
  }

  lemma BytesOfThree(a: Part, b: Part, c: Part)
    requires IsPart(a) && IsPart(b) && IsPart(c)
    ensures AreParts([a, b, c]) && BytesOf([a, b, c]) == PartBytes(a) + PartBytes(b) + PartBytes(c)
  {
    hide IsPart, PartBytes;
    assert [a, b, c][1..] == [b, c] && [b, c][1..] == [c] && [c][1..] == [];
    assert BytesOf([c]) == PartBytes(c);
    assert BytesOf([b, c]) == PartBytes(b) + PartBytes(c);
  }

  lemma MovePartsMean(r: Regs, item: Item)
    requires (item.Move? || item.Swap?) && Supported(item)
    ensures AreParts(MoveParts(item))
    ensures AfterParts(r, MoveParts(item))
         == if item.a == item.b then r
            else if item.Move? then Set(Idle(r), item.b, Get(Idle(r), item.a))
            else Exchange(Idle(r), item.a, item.b)
  {
    hide Set, Get, Exchange, AfterPart, Idle;
    var ps := MoveParts(item);
    var r0 := Idle(r);
    if |ps| == 3 {
      UnfoldThree(r, ps[0], ps[1], ps[2]);
      var r1 := Exchange(r0, item.a, Acc);
      var r2 := if item.Move? then Set(r1, item.b, r1.acc) else Exchange(r1, item.b, Acc);
      PartIs(r, ps[0]);
      IdleIdle(r);
      IdleExchange(r0, item.a);
      PartIs(r1, ps[1]);
      PartIs(r2, ps[2]);
      if item.Move? {
        IdleSet(r1, item.b, r1.acc);
        assert Get(r1, Acc) == r1.acc by { GetAcc(r1); }
        MoveIsSet(r0, item.a, item.b);
      } else {
        IdleExchange(r1, item.b);
        SwapIsExchange(r0, item.a, item.b);
      }
    } else {
      MoveOneMeans(r, item);
    }
  }

  lemma GetAcc(r: Regs)
    ensures Get(r, Acc) == r.acc
  {
  }

  lemma IdleExchange(r: Regs, reg: Reg)
    requires reg != IO && Idle(r) == r
    ensures Idle(Exchange(r, reg, Acc)) == Exchange(r, reg, Acc)
  {
    hide Set, Get, Idle;
    IdleSet(r, reg, Get(r, Acc));
    IdleSet(Set(r, reg, Get(r, Acc)), Acc, Get(r, reg));
  }

  /** Moves to and from the accumulator. */
  lemma MoveOneMeans(r: Regs, item: Item)
    requires (item.Move? || item.Swap?) && Supported(item) && (item.a == item.b || item.a == Acc || item.b == Acc)
    ensures AreParts(MoveParts(item))
    ensures AfterParts(r, MoveParts(item))
         == if item.a == item.b then r
            else if item.Move? then Set(Idle(r), item.b, Get(Idle(r), item.a))
            else Exchange(Idle(r), item.a, item.b)
  {
    hide Set, Exchange, AfterPart, Idle;
    var ps := MoveParts(item);
    if |ps| == 1 {
      Unfold(r, ps[0], []);
      assert [ps[0]] + [] == ps;
      PartIs(r, ps[0]);
      IdleIdle(r);
      if item.Swap? && item.a == Acc {
        ExchangeSymmetric(Idle(r), item.b);
      }
    }
  }

  lemma ExchangeSymmetric(r: Regs, reg: Reg)
    requires reg != IO
    ensures Exchange(r, Acc, reg) == Exchange(r, reg, Acc)
  {
  }

  // ----- every line

  /** The bytes of a line, wherever they stand, do what the line means. */
  lemma LineRuns(c: Cpu, item: Item, v: int, inputs: seq<Input>)
    requires Legal(item) && Supported(item) && Fits(item, c.pc, v) && |inputs| == Steps(item)
    requires c.intsIn == 0 && AllSilent(inputs) && Holds(c.rom, c.pc, Encode(item, c.pc, v))
    ensures Did(c, item, v, inputs, Processor.Run(c, inputs))
  {
    hide Step, Encode, Holds, After, Leaves, Did;
    if Single(item) {
      SingleRuns(c, item, v, inputs[0]);
      OneStep(c, inputs[0]);
      assert inputs == [inputs[0]];
    } else {
      MacroRuns(c, item, v, inputs);
    }
  }

  lemma OneStep(c: Cpu, input: Input)
    ensures Processor.Run(c, [input]) == Step(c, input)
  {
    hide Step;
    assert [input][1..] == [];
  }

  lemma MoveRuns(c: Cpu, item: Item, v: int, inputs: seq<Input>)
    requires (item.Move? || item.Swap?) && Supported(item) && |inputs| == Steps(item)
    requires c.intsIn == 0 && AllSilent(inputs) && Holds(c.rom, c.pc, Encode(item, c.pc, v))
    ensures Did(c, item, v, inputs, Processor.Run(c, inputs))
  {
    hide Processor.Run, Holds, AfterParts, BytesOf, Set, Get, Exchange, MoveBytes, SwapBytes, Idle;
    MovePartsEncode(item);
    MovePartsMean(RegsOf(c), item);
    PartsRun(c, MoveParts(item), inputs);
  }

  lemma PairRuns(c: Cpu, pair: Pair, v: Word16, inputs: seq<Input>)
    requires |inputs| == 5 && c.intsIn == 0 && AllSilent(inputs) && Holds(c.rom, c.pc, PairBytes(pair, v))
    ensures var r := Processor.Run(c, inputs);
            && r.Some? && r.value.intsIn == 0 && RegsOf(r.value) == SetPair(Idle(RegsOf(c)), pair, v)
            && r.value.pc == c.pc + 7
  {
    hide Processor.Run, Holds, AfterParts, BytesOf, Opcode, RegId;
    PairLoads(RegsOf(c), pair, v);
    PartsRun(c, PairParts(pair, v), inputs);
  }

  lemma PairJumps(c: Cpu, m: Mnemonic, v: Word16, inputs: seq<Input>)
    requires m.Jp? || m.Jpr?
    requires |inputs| == 6 && c.intsIn == 0 && AllSilent(inputs)
    requires Holds(c.rom, c.pc, PairBytes(P, v) + [Opcode(m)])
    ensures var r := Processor.Run(c, inputs);
            && r.Some? && r.value.intsIn == 0 && r.value.pc == Wrap16(v + 1)
            && RegsOf(r.value) == Idle(RegsOf(c)).(p := if m.Jp? then v else Wrap16(c.pc + 7))
  {
    hide Processor.Run, Holds, Step, PairBytes, Opcode;
    HoldsConcat(c.rom, c.pc, PairBytes(P, v), [Opcode(m)]);
    assert inputs == inputs[..5] + [inputs[5]];
    PairRuns(c, P, v, inputs[..5]);
    var c' := Processor.Run(c, inputs[..5]).value;
    RunConcat(c, inputs[..5], [inputs[5]]);
    OneStep(c', inputs[5]);
    assert |PairBytes(P, v)| == 7 by { PairLength(v); }
    SingleRuns(c', Plain(m, false), 0, inputs[5]);
  }

  lemma PairLength(v: Word16)
    ensures |PairBytes(P, v)| == 7
  {
  }

  lemma MacroRuns(c: Cpu, item: Item, v: int, inputs: seq<Input>)
    requires Legal(item) && Supported(item) && Fits(item, c.pc, v) && |inputs| == Steps(item) && !Single(item)
    requires c.intsIn == 0 && AllSilent(inputs) && Holds(c.rom, c.pc, Encode(item, c.pc, v))
    ensures Did(c, item, v, inputs, Processor.Run(c, inputs))
  {
    hide Processor.Run, Holds, PairBytes, Opcode, MoveBytes, SwapBytes, Set, Get, Exchange;
    NoSteps(c);
    match item
    case Move(_, _) => MoveRuns(c, item, v, inputs);
    case Swap(_, _) => MoveRuns(c, item, v, inputs);
    case LoadPair(pair, _) => PairRuns(c, pair, v, inputs);
    case Rdja(_) => PairRuns(c, P, v - 1, inputs);
    case Call(_) => PairJumps(c, Jpr, v - 1, inputs);
    case Goto(_) => PairJumps(c, Jp, v - 1, inputs);
    case _ =>
  }

  lemma NoSteps(c: Cpu)
    ensures Processor.Run(c, []) == Some(c)
  {
  }
}
