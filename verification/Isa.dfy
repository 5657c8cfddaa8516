/**
 The instruction set: register numbers, opcodes and masks as in Toolchain/src/instrs_*.c, and the
 decoder of Toolchain/src/nandy_emu_tools.c.
 */
module Isa {
  import opened Bytes
  import opened Lexer

  datatype Reg = SP | IO | X | Y | PL | PH | QL | QH | Acc

  function RegId(r: Reg): (id: nat)
    ensures id <= 8
  {
    match r
    case SP => 0
    case IO => 1
    case X => 2
    case Y => 3
    case PL => 4
    case PH => 5
    case QL => 6
    case QH => 7
    case Acc => 8
  }

  /** The register a register instruction names in its low three bits. */
  function RegOf(b: Byte): Reg {
    match b % 8
    case 0 => SP
    case 1 => IO
    case 2 => X
    case 3 => Y
    case 4 => PL
    case 5 => PH
    case 6 => QL
    case _ => QH
  }

  datatype MemMode = StackMode | QMode | PMode | PPreMode

  function ModeBits(mode: MemMode): int {
    match mode
    case StackMode => 0x00
    case QMode => 0x20
    case PMode => 0x40
    case PPreMode => 0x60
  }

  function ModeOf(b: Byte): MemMode {
    match b / 32 % 4
    case 0 => StackMode
    case 1 => QMode
    case 2 => PMode
    case _ => PPreMode
  }

  datatype Mnemonic =
    | Rd | Wr | Sw
    | Jp | Jpr | Jxi
    | Brk | Dint | Eint
    | Ipoll | Or | And | Xor
    | Cclr | Nop | Nzero | Sgn | Cset | Ctog | Zero | Nsgn
    | Add | Adc | Sub | Sbc
    | Sl | Slc | Sr | Src
    | Ld | St
    | Rdi | Ori | Andi | Xori
    | Addi | Adci | Subi | Sbci
    | J | Jr | Jc | Jcr

  /** The executable instructions in the order of the instruction list. */
  const LIST_SIZE := 43

  function Entry(k: nat): Mnemonic
    requires k < LIST_SIZE
  {
    match k
    case 0 => Rd
    case 1 => Wr
    case 2 => Sw
    case 3 => Jp
    case 4 => Jpr
    case 5 => Jxi
    case 6 => Brk
    case 7 => Dint
    case 8 => Eint
    case 9 => Ipoll
    case 10 => Or
    case 11 => And
    case 12 => Xor
    case 13 => Cclr
    case 14 => Nop
    case 15 => Nzero
    case 16 => Sgn
    case 17 => Cset
    case 18 => Ctog
    case 19 => Zero
    case 20 => Nsgn
    case 21 => Add
    case 22 => Adc
    case 23 => Sub
    case 24 => Sbc
    case 25 => Sl
    case 26 => Slc
    case 27 => Sr
    case 28 => Src
    case 29 => Ld
    case 30 => St
    case 31 => Rdi
    case 32 => Ori
    case 33 => Andi
    case 34 => Xori
    case 35 => Addi
    case 36 => Adci
    case 37 => Subi
    case 38 => Sbci
    case 39 => J
    case 40 => Jr
    case 41 => Jc
    case _ => Jcr
  }

  function Opcode(m: Mnemonic): Byte {
    match m
    case Rd => 0x10
    case Wr => 0x08
    case Sw => 0x18
    case Jp => 0x04
    case Jpr => 0x05
    case Jxi => 0x06
    case Brk => 0x00
    case Dint => 0x02
    case Eint => 0x03
    case Ipoll => 0x20
    case Or => 0x21
    case And => 0x22
    case Xor => 0x23
    case Cclr => 0x28
    case Nop => 0x29
    case Nzero => 0x2A
    case Sgn => 0x2B
    case Cset => 0x38
    case Ctog => 0x39
    case Zero => 0x3A
    case Nsgn => 0x3B
    case Add | Adc => 0x2C
    case Sub | Sbc => 0x2D
    case Sl => 0x26
    case Slc => 0x2E
    case Sr => 0x27
    case Src => 0x2F
    case Ld => 0x90
    case St => 0x80
    case Rdi => 0x60
    case Ori => 0x61
    case Andi => 0x62
    case Xori => 0x63
    case Addi => 0x64
    case Adci => 0x6C
    case Subi => 0x65
    case Sbci => 0x6D
    case J => 0x40
    case Jr => 0x41
    case Jc => 0x50
    case Jcr => 0x51
  }

  /** Which bits of the instruction byte are operand bits: a register number, the choice between x
      and y, the high bits of a jump offset, or mode and offset of a memory access. */
  datatype Mask = NoBits | Bits2to0 | Bit4 | Bits3to1 | Bits3to0 | Bits6to5And3to0

  function OperandBits(m: Mnemonic): Mask {
    match m
    case Rd | Wr | Sw => Bits2to0
    case Ipoll | Or | And | Xor | Add | Adc | Sub | Sbc | Sl | Slc | Sr | Src | Addi | Adci | Subi | Sbci => Bit4
    case Ld | St => Bits6to5And3to0
    case J | Jr | Jcr => Bits3to1
    case Jc => Bits3to0
    case _ => NoBits
  }

  /** The byte with those bits cleared. */
  function Clear(b: Byte, mask: Mask): int {
    match mask
    case NoBits => b
    case Bits2to0 => b / 8 * 8
    case Bit4 => b - b / 16 % 2 * 16
    case Bits3to1 => b / 16 * 16 + b % 2
    case Bits3to0 => b / 16 * 16
    case Bits6to5And3to0 => b / 128 * 128 + b / 16 % 2 * 16
  }

  predicate Matches(b: Byte, m: Mnemonic) {
    Opcode(m) == Clear(b, OperandBits(m))
  }

  /** The first instruction in the list from k on that the byte matches. */
  function LookupFrom(b: Byte, k: nat): Option<Mnemonic>
    requires k <= LIST_SIZE
    decreases LIST_SIZE - k
  {
    if k == LIST_SIZE then None
    else if Matches(b, Entry(k)) then Some(Entry(k))
    else LookupFrom(b, k + 1)
  }

  function Lookup(b: Byte): Option<Mnemonic> {
    LookupFrom(b, 0)
  }

  /** The instruction set by ranges of bytes. */
  function Decode(b: Byte): Option<Mnemonic> {
    if b < 0x08 then
      match b
      case 0 => Some(Brk)
      case 2 => Some(Dint)
      case 3 => Some(Eint)
      case 4 => Some(Jp)
      case 5 => Some(Jpr)
      case 6 => Some(Jxi)
      case _ => None
    else if b < 0x10 then Some(Wr)
    else if b < 0x18 then Some(Rd)
    else if b < 0x20 then Some(Sw)
    else if b < 0x40 then DecodeAlu(b % 8, b / 8 % 2 == 1, b / 16 % 2 == 1)
    else if b < 0x50 then Some(if b % 2 == 0 then J else Jr)
    else if b < 0x60 then Some(Jc)
    else if b < 0x80 then DecodeImmediate(b % 8, b / 8 % 2 == 1, b / 16 % 2 == 1)
    else Some(if b / 16 % 2 == 1 then Ld else St)
  }

  function DecodeAlu(operation: int, carrySel: bool, xy: bool): Option<Mnemonic> {
    match operation
    case 0 => Some(if carrySel then (if xy then Cset else Cclr) else Ipoll)
    case 1 => Some(if carrySel then (if xy then Ctog else Nop) else Or)
    case 2 => Some(if carrySel then (if xy then Zero else Nzero) else And)
    case 3 => Some(if carrySel then (if xy then Nsgn else Sgn) else Xor)
    case 4 => if carrySel then Some(Add) else None
    case 5 => if carrySel then Some(Sub) else None
    case 6 => Some(if carrySel then Slc else Sl)
    case 7 => Some(if carrySel then Src else Sr)
    case _ => None
  }

  function DecodeImmediate(operation: int, carrySel: bool, xy: bool): Option<Mnemonic> {
    match operation
    case 4 => Some(if carrySel then Adci else Addi)
    case 5 => Some(if carrySel then Sbci else Subi)
    case _ =>
      if carrySel || xy then None
      else if operation == 0 then Some(Rdi)
      else if operation == 1 then Some(Ori)
      else if operation == 2 then Some(Andi)
      else if operation == 3 then Some(Xori)
      else None
  }

  // ----- the list and the ranges agree

  /** Three instructions share all their bytes with an earlier one. */
  function Shadow(m: Mnemonic): Mnemonic {
    match m
    case Adc => Add
    case Sbc => Sub
    case Jcr => Jc
    case _ => m
  }

  function Position(m: Mnemonic): (k: nat)
    ensures k < LIST_SIZE && Entry(k) == m
  {
    match m
    case Rd => 0
    case Wr => 1
    case Sw => 2
    case Jp => 3
    case Jpr => 4
    case Jxi => 5
    case Brk => 6
    case Dint => 7
    case Eint => 8
    case Ipoll => 9
    case Or => 10
    case And => 11
    case Xor => 12
    case Cclr => 13
    case Nop => 14
    case Nzero => 15
    case Sgn => 16
    case Cset => 17
    case Ctog => 18
    case Zero => 19
    case Nsgn => 20
    case Add => 21
    case Adc => 22
    case Sub => 23
    case Sbc => 24
    case Sl => 25
    case Slc => 26
    case Sr => 27
    case Src => 28
    case Ld => 29
    case St => 30
    case Rdi => 31
    case Ori => 32
    case Andi => 33
    case Xori => 34
    case Addi => 35
    case Adci => 36
    case Subi => 37
    case Sbci => 38
    case J => 39
    case Jr => 40
    case Jc => 41
    case Jcr => 42
  }

  lemma PositionDistinct(k: nat)
    requires k < LIST_SIZE
    ensures Position(Entry(k)) == k
  {
  }

  lemma MatchDecodes(b: Byte, m: Mnemonic)
    requires Matches(b, m)
    ensures Decode(b) == Some(Shadow(m))
  {
    if 0x20 <= b < 0x40 {
      AluDecodes(b, m);
    } else if 0x60 <= b < 0x80 {
      ImmediateDecodes(b, m);
    } else {
      hide DecodeAlu, DecodeImmediate;
    }
  }

  lemma AluDecodes(b: Byte, m: Mnemonic)
    requires Matches(b, m) && 0x20 <= b < 0x40
    ensures Decode(b) == Some(Shadow(m))
  {
    hide DecodeImmediate;
    var low, c, xy := b % 8, b / 8 % 2, b / 16 % 2;
    assert b == 0x20 + 16 * xy + 8 * c + low;
  }

  lemma ImmediateDecodes(b: Byte, m: Mnemonic)
    requires Matches(b, m) && 0x60 <= b < 0x80
    ensures Decode(b) == Some(Shadow(m))
  {
    hide DecodeAlu;
    var low, c, xy := b % 8, b / 8 % 2, b / 16 % 2;
    assert b == 0x60 + 16 * xy + 8 * c + low;
  }

  lemma DecodeMatches(b: Byte)
    requires Decode(b).Some?
    ensures Matches(b, Decode(b).value) && Shadow(Decode(b).value) == Decode(b).value
  {
    if 0x20 <= b < 0x40 {
      AluMatches(b);
    } else if 0x60 <= b < 0x80 {
      ImmediateMatches(b);
    } else {
      hide DecodeAlu, DecodeImmediate;
    }
  }

  lemma AluMatches(b: Byte)
    requires 0x20 <= b < 0x40 && Decode(b).Some?
    ensures Matches(b, Decode(b).value) && Shadow(Decode(b).value) == Decode(b).value
  {
    hide DecodeImmediate;
    var low, c, xy := b % 8, b / 8 % 2, b / 16 % 2;
    assert b == 0x20 + 16 * xy + 8 * c + low;
    if low < 4 {
      assert low == 0 || low == 1 || low == 2 || low == 3;
    }
  }

  lemma ImmediateMatches(b: Byte)
    requires 0x60 <= b < 0x80 && Decode(b).Some?
    ensures Matches(b, Decode(b).value) && Shadow(Decode(b).value) == Decode(b).value
  {
    hide DecodeAlu;
    var low, c, xy := b % 8, b / 8 % 2, b / 16 % 2;
    assert b == 0x60 + 16 * xy + 8 * c + low;
    hide DecodeImmediate;
    assert Decode(b) == DecodeImmediate(low, c == 1, xy == 1);
    if low == 4 || low == 5 {
      CarryImmediate(low, c, xy);
    } else {
      PlainImmediate(low, c, xy);
    }
  }

  lemma CarryImmediate(low: nat, c: nat, xy: nat)
    requires low == 4 || low == 5
    requires c < 2 && xy < 2
    ensures var b: Byte := 0x60 + 16 * xy + 8 * c + low;
            var m := DecodeImmediate(low, c == 1, xy == 1);
            m.Some? && Matches(b, m.value) && Shadow(m.value) == m.value
  {
  }

  lemma PlainImmediate(low: nat, c: nat, xy: nat)
    requires low < 4 || low == 6 || low == 7
    requires c < 2 && xy < 2
    ensures var b: Byte := 0x60 + 16 * xy + 8 * c + low;
            var m := DecodeImmediate(low, c == 1, xy == 1);
            m.Some? ==> Matches(b, m.value) && Shadow(m.value) == m.value
  {
  }

  /** Searching finds the first match, which is never one of the shadowed instructions. */
  lemma {:induction false} LookupFinds(b: Byte, k: nat)
    requires k <= LIST_SIZE
    requires Decode(b).Some? ==> k <= Position(Decode(b).value)
    ensures LookupFrom(b, k) == Decode(b)
    decreases LIST_SIZE - k
  {
    hide Matches, Decode, Shadow, Opcode, Position, Entry;
    if k < LIST_SIZE {
      var m := Entry(k);
      PositionDistinct(k);
      if Matches(b, m) {
        MatchDecodes(b, m);
        ShadowEarlier(m);
      } else {
        if Decode(b).Some? {
          DecodeMatches(b);
        }
        LookupFinds(b, k + 1);
      }
    }
  }

  lemma ShadowEarlier(m: Mnemonic)
    ensures Position(Shadow(m)) <= Position(m)
  {
  }

  /** The decoder built from the instruction list decodes by ranges; in particular no byte is ever
      executed as adc, sbc or jcr, although the assembler has them. */
  lemma LookupIsDecode(b: Byte)
    ensures Lookup(b) == Decode(b)
    ensures Lookup(b) != Some(Adc) && Lookup(b) != Some(Sbc) && Lookup(b) != Some(Jcr)
  {
    LookupFinds(b, 0);
  }
}
