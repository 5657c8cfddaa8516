/**
 What each line of a program means as bytes, given the value of its operand: the reference the
 assembler is proved against.
 */
module Encoding {
  import opened Bytes
  import opened Lexer
  import opened Isa
  import opened Processor
  import opened Assembler

  function FixOf(item: Item): Option<(Fix, string)> {
    match item
    case Immediate(_, text) => Some((FixImm8, text))
    case Relative(_, text) => Some((FixRelative, text))
    case Memory(_, _, text) => Some((FixImm4, text))
    case LoadPair(_, text) => Some((FixPair, text))
    case Rdja(text) => Some((FixReturn, text))
    case Call(text) => Some((FixReturn, text))
    case Goto(text) => Some((FixReturn, text))
    case Define(name, text) => Some((FixDefine(name), text))
    case Assert(text) => Some((FixAssert, text))
    case Echo(text) => Some((FixEcho, text))
    case _ => None
  }

  function FixupOf(item: Item, a: nat): Fixup
    requires FixOf(item).Some?
  {
    Fixup(FixOf(item).value.0, FixOf(item).value.1, a)
  }

  /** The fixups that write into the ROM. */
  predicate Writes(fix: Fix) {
    fix.FixPair? || fix.FixReturn? || fix.FixRelative? || fix.FixImm8? || fix.FixImm4?
  }

  /** Save the accumulator in the high half, load the low half and the high half, and swap back. */
  function PairBytes(pair: Pair, v: int): seq<Byte>
    requires 0 <= v < 0x10000
  {
    [RegisterByte(Wr, HighReg(pair)), Opcode(Rdi), v % 256,
     RegisterByte(Wr, LowReg(pair)), Opcode(Rdi), v / 256,
     RegisterByte(Sw, HighReg(pair))]
  }

  /** Operand values that can be encoded in a line at address a. */
  predicate Fits(item: Item, a: int, v: int) {
    match item
    case LoadPair(_, _) => 0 <= v < 0x10000
    case Rdja(_) | Call(_) | Goto(_) => 0 <= v - 1 < 0x10000
    case Relative(_, _) => -1024 <= v - a - 1 < 1024
    case Assert(_) => v != 0
    case _ => true
  }

  /** A line the assembler accepts: the accumulator cannot be moved to or from itself. */
  predicate Legal(item: Item) {
    Parsed(item) && !(item.Register? && item.reg == Acc)
  }

  function JumpBytes(m: Mnemonic, offset: int): (bs: seq<Byte>)
    requires IsRelativeOp(m)
    ensures |bs| == 2
  {
    [Opcode(m) + OffsetBits(offset), offset % 256]
  }

  /** The bytes of a line at address a whose operand, if it has one, has value v. */
  function Encode(item: Item, a: int, v: int): (bs: seq<Byte>)
    requires Legal(item) && Fits(item, a, v)
    ensures |bs| == Size(item)
  {
    match item
    case Plain(m, y) => [PlainByte(m, y)]
    case Register(m, reg) => [RegisterByte(m, reg)]
    case Immediate(m, _) => [Opcode(m), v % 256]
    case Relative(m, _) => JumpBytes(m, v - a - 1)
    case Memory(m, mode, _) => [Opcode(m) + ModeBits(mode) + v % 16]
    case LoadPair(pair, _) => PairBytes(pair, v)
    case Rdja(_) => PairBytes(P, v - 1)
    case Call(_) => PairBytes(P, v - 1) + [Opcode(Jpr)]
    case Goto(_) => PairBytes(P, v - 1) + [Opcode(Jp)]
    case Move(x, y) => MoveBytes(x, y)
    case Swap(x, y) => SwapBytes(x, y)
    case _ => []
  }

  /** Whether the ROM holds these bytes from address a on. */
  ghost predicate Holds(rom: Memory, a: int, bs: seq<Byte>) {
    0 <= a && (bs == [] || a + |bs| <= ROM_SIZE) && forall i :: 0 <= i < |bs| ==> rom[a + i] == bs[i]
  }

  /** A value whose operand bits are all zero: the bytes of a line before its operand is known. */
  function BlankValue(item: Item, a: int): (v: int)
    ensures Fits(item, a, v)
  {
    match item
    case Relative(_, _) => a + 1
    case Rdja(_) | Call(_) | Goto(_) | Assert(_) => 1
    case _ => 0
  }

  function Template(item: Item, a: int): seq<Byte>
    requires Legal(item)
  {
    Encode(item, a, BlankValue(item, a))
  }

  // ----- filling in operand bits

  lemma {:induction false} OrZero(a: nat, n: nat)
    requires a < Pow2(n)
    ensures BitsOf(OrOp, a, 0, n) == a
  {
    if n > 0 {
      OrZero(a / 2, n - 1);
    }
  }

  function Shifted(q: nat, k: nat): nat {
    if k == 0 then q else 2 * Shifted(q, k - 1)
  }

  /** Where the low k bits are zero, or-ing in a value of k bits adds it. */
  lemma {:induction false} OrAdds(q: nat, b: nat, k: nat, n: nat)
    requires Shifted(q, k) < Pow2(n) && b < Pow2(k) && k <= n
    ensures BitsOf(OrOp, Shifted(q, k), b, n) == Shifted(q, k) + b
    decreases k
  {
    if k == 0 {
      OrZero(q, n);
    } else {
      OrAdds(q, b / 2, k - 1, n - 1);
    }
  }

  lemma OrImm4(b: Byte, v: int)
    requires b % 16 == 0 && 0 <= v < 16
    ensures Bitwise(OrOp, b, v) == b + v
  {
    assert Pow2(4) == 16;
    Pow2Of8();
    var q: nat := b / 16;
    assert Shifted(q, 1) == 2 * q;
    assert Shifted(q, 3) == 8 * q;
    assert Shifted(q, 4) == b;
    OrAdds(q, v, 4, 8);
  }

  lemma OrOffset(m: Mnemonic, bits: Byte)
    requires IsRelativeOp(m) && bits % 2 == 0 && bits < 16
    ensures Bitwise(OrOp, Opcode(m), bits) == Opcode(m) + bits
  {
    var b := Opcode(m);
    assert Pow2(3) == 8;
    assert Pow2(7) == 128 by {
      assert Pow2(5) == 32;
    }
    assert Shifted(b / 16, 3) == b / 2;
    OrAdds(b / 16, bits / 2, 3, 7);
    assert BitsOf(OrOp, b, bits, 8) == b % 2 + 2 * BitsOf(OrOp, b / 2, bits / 2, 7);
  }
}
