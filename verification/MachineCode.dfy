/**
 The machine code by its fields (Toolchain/include/nandy_definitions.h): which bits of an opcode say what. The
 assembler and the decoder have tables of opcodes, and these are the bytes in both.
 */
module MachineCode {
  import opened Bytes
  import opened Isa

  const RETURNS := 0x01
  const CARRY_SELECT := 0x08
  const WRITES := 0x08
  const READS := 0x10
  const X_OR_Y := 0x10
  const CONDITIONAL := 0x10
  const LOADS := 0x10
  const ALU_SELECT := 0x20
  const MULTIBYTE := 0x40
  const MEMORY := 0x80

  function Flag(on: bool, mask: int): int {
    if on then mask else 0
  }

  /** The operations of the arithmetic unit in the order of their numbers, each with all instructions that use
      it. */
  const OPERATIONS: seq<set<Mnemonic>> := [
    {Ipoll, Rdi, Cclr, Cset}, {Or, Ori, Nop, Ctog}, {And, Andi, Nzero, Zero}, {Xor, Xori, Sgn, Nsgn},
    {Mnemonic.Add, Adc, Addi, Adci}, {Mnemonic.Sub, Sbc, Subi, Sbci}, {Sl, Slc}, {Sr, Src}
  ]

  const WITH_CARRY_SELECT: set<Mnemonic> := {
    Cclr, Nop, Nzero, Sgn, Cset, Ctog, Zero, Nsgn, Mnemonic.Add, Adc, Mnemonic.Sub, Sbc, Slc, Src, Adci, Sbci
  }

  const IMMEDIATE: set<Mnemonic> := {Rdi, Ori, Andi, Xori, Addi, Adci, Subi, Sbci}

  function AluFields(m: Mnemonic, k: nat): int {
    ALU_SELECT + k + Flag(m in IMMEDIATE, MULTIBYTE) + Flag(m in WITH_CARRY_SELECT, CARRY_SELECT) +
    Flag(m in {Cset, Ctog, Zero, Nsgn}, X_OR_Y)
  }

  /** An instruction of the arithmetic unit: its number, and flags for an immediate operand, the carry, and, where
      no operand is, the choice between two instructions. */
  lemma AluOpcodes(m: Mnemonic, k: nat)
    requires k < |OPERATIONS| && m in OPERATIONS[k]
    ensures Opcode(m) == AluFields(m, k)
  {
    hide Opcode, AluFields;
    if k < 2 {
      FirstOpcodes(m, k);
    } else if k < 4 {
      SecondOpcodes(m, k);
    } else {
      LastOpcodes(m, k);
    }
  }

  lemma FirstOpcodes(m: Mnemonic, k: nat)
    requires k < 2 && m in OPERATIONS[k]
    ensures Opcode(m) == AluFields(m, k)
  {
  }

  lemma SecondOpcodes(m: Mnemonic, k: nat)
    requires 2 <= k < 4 && m in OPERATIONS[k]
    ensures Opcode(m) == AluFields(m, k)
  {
  }

  lemma LastOpcodes(m: Mnemonic, k: nat)
    requires 4 <= k < |OPERATIONS| && m in OPERATIONS[k]
    ensures Opcode(m) == AluFields(m, k)
  {
  }

  /** All other instructions. */
  lemma OtherOpcodes(m: Mnemonic)
    ensures m in {Rd, Wr, Sw} ==> Opcode(m) == Flag(m != Wr, READS) + Flag(m != Rd, WRITES)
    ensures m in {Ld, St} ==> Opcode(m) == MEMORY + Flag(m == Ld, LOADS)
    ensures m in {J, Jr, Jc, Jcr} ==>
              Opcode(m) == MULTIBYTE + Flag(m in {Jc, Jcr}, CONDITIONAL) + Flag(m in {Jr, Jcr}, RETURNS)
    ensures m in {Brk, Dint, Eint, Jp, Jpr, Jxi} ==>
              Opcode(m) == if m == Brk then 0 else if m == Dint then 2 else if m == Eint then 3
                           else 4 + Flag(m == Jpr, 1) + Flag(m == Jxi, 2)
    ensures m in {Rd, Wr, Sw, Ld, St, J, Jr, Jc, Jcr, Brk, Dint, Eint, Jp, Jpr, Jxi} ||
            exists k: nat :: k < |OPERATIONS| && m in OPERATIONS[k]
  {
    if m !in {Rd, Wr, Sw, Ld, St, J, Jr, Jc, Jcr, Brk, Dint, Eint, Jp, Jpr, Jxi} {
      assert m in OPERATIONS[0] || m in OPERATIONS[1] || m in OPERATIONS[2] || m in OPERATIONS[3] ||
             m in OPERATIONS[4] || m in OPERATIONS[5] || m in OPERATIONS[6] || m in OPERATIONS[7];
    }
  }

  const REGISTERS: seq<Reg> := [SP, IO, X, Y, PL, PH, QL, QH]

  const MODES: seq<MemMode> := [StackMode, QMode, PMode, PPreMode]

  /** Registers are numbered in the low three bits, and modes in bits 5 and 6, in this order. */
  lemma Numbers(k: nat, b: Byte)
    ensures k < 8 ==> RegId(REGISTERS[k]) == k && (b % 8 == k ==> RegOf(b) == REGISTERS[k])
    ensures k < 4 ==> ModeBits(MODES[k]) == 0x20 * k && (b / 0x20 % 4 == k ==> ModeOf(b) == MODES[k])
  {
  }
}
