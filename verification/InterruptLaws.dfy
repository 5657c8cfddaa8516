/**
 Exactly when a handler is entered and left, how long a step takes, and what a program sees of the interrupt
 lines.
 */
module InterruptLaws {
  import opened Bytes
  import opened Lexer
  import opened Isa
  import opened Processor
  import opened Execution
  import opened Interrupts
  import opened BitLaws
  import Alu

  /** The two lines are bits 0 and 1, and some bit is set if one of them is up or another bit was set. */
  lemma LinesUp(b: Byte, irq0: bool, irq1: bool)
    ensures var b' := b / 4 * 4 + Alu.Bit(irq0) + 2 * Alu.Bit(irq1);
            && (b' != 0 <==> irq0 || irq1 || b >= 4) && b' / 4 == b / 4
            && (b' % 2 == 1 <==> irq0) && (b' / 2 % 2 == 1 <==> irq1)
  {
  }

  lemma StepKeepsRom(c: Cpu, input: Input)
    requires Step(c, input).Some?
    ensures Step(c, input).value.rom == c.rom
  {
    hide Exec, Lookup, Peek;
    ExecKeeps(Ready(c), Lookup(Peek(c, c.pc)).value);
  }

  lemma StepIsBody(c: Cpu, input: Input)
    requires Step(c, input).Some?
    ensures Lookup(Peek(c, c.pc)).Some?
    ensures var m := Lookup(Peek(c, c.pc)).value;
            var b := Body(c, m, input);
            && Step(c, input).value == EnterHandler(b) && b.intEn == (m == Eint || (m != Dint && c.intEn))
            && b.intActive == (c.intActive && m != Jxi)
            && b.intsIn == c.intsIn / 4 * 4 + Alu.Bit(input.irq0) + 2 * Alu.Bit(input.irq1)
  {
    hide Exec, Lookup, Peek, Wrap16, EnterHandler;
    ExecKeeps(Ready(c), Lookup(Peek(c, c.pc)).value);
  }

  lemma Entry(b: Cpu)
    ensures var c' := EnterHandler(b);
            && c'.intEn == b.intEn && c'.intsIn == b.intsIn
            && c'.intActive == (b.intActive || (b.intEn && b.intsIn != 0))
            && (c'.intActive && !b.intActive ==> c'.pc == 0x7F00)
  {
  }

  /** When a handler is entered: outside handlers, if and only if interrupts are enabled after the instruction
      and some line is up, one of the two sampled in this step or another one; and a handler is left by jxi
      unless the same holds, when the next handler is entered at once. A handler starts at 0x7F00. The two
      lines are bits 0 and 1 of intsIn, whose other bits are kept. */
  lemma EntersExactly(c: Cpu, input: Input)
    requires Step(c, input).Some?
    ensures var m, c' := Lookup(Peek(c, c.pc)).value, Step(c, input).value;
            var requested := input.irq0 || input.irq1 || c.intsIn >= 4;
            && (!c.intActive ==> (c'.intActive <==> requested && (m == Eint || (m != Dint && c.intEn))))
            && (c.intActive ==> (c'.intActive <==> m != Jxi || (requested && c.intEn)))
            && (c'.intActive && (!c.intActive || m == Jxi) ==> c'.pc == 0x7F00)
            && c'.intEn == (m == Eint || (m != Dint && c.intEn))
            && c'.intsIn / 4 == c.intsIn / 4
            && (c'.intsIn % 2 == 1 <==> input.irq0) && (c'.intsIn / 2 % 2 == 1 <==> input.irq1)
  {
    hide Step, Body, EnterHandler, Lookup, Peek;
    StepIsBody(c, input);
    Entry(Body(c, Lookup(Peek(c, c.pc)).value, input));
    LinesUp(c.intsIn, input.irq0, input.irq1);
  }

  /** A step takes the clocks of its instruction, whether a handler is entered or not. */
  lemma StepTakes(c: Cpu, input: Input)
    requires Step(c, input).Some?
    ensures Step(c, input).value.elapsed == c.elapsed + Clocks(Lookup(Peek(c, c.pc)).value)
  {
    hide Exec, Lookup, Peek, Clocks;
    ExecKeeps(Ready(c), Lookup(Peek(c, c.pc)).value);
  }

  lemma {:induction false} ShiftedBits(b: nat, n: nat, k: nat)
    ensures BitAt(Pow2(n) * b, k) <==> k >= n && BitAt(b, k - n)
  {
    if n > 0 {
      var half := Pow2(n - 1) * b;
      assert Pow2(n) * b == 2 * half;
      if k > 0 {
        ShiftedBits(b, n - 1, k - 1);
      }
    }
  }

  lemma FlagBits(en: bool, active: bool, k: nat)
    requires k < 8
    ensures BitAt(64 * Alu.Bit(en) + 128 * Alu.Bit(active), k) <==> (k == 6 && en) || (k == 7 && active)
  {
    var flags := Alu.Bit(en) + 2 * Alu.Bit(active);
    assert Pow2(6) == 64 by {
      assert Pow2(3) == 8;
    }
    ShiftedBits(flags, 6, k);
    assert 64 * Alu.Bit(en) + 128 * Alu.Bit(active) == Pow2(6) * flags;
  }

  /** What ipoll reads: the lines, and in the highest two bits, besides, whether interrupts are enabled and
      whether a handler is active. */
  lemma IpollReads(c: Cpu, input: Input, k: nat)
    requires Lookup(Peek(c, c.pc)) == Some(Ipoll) && k < 8
    ensures Step(c, input).Some?
    ensures BitAt(Step(c, input).value.acc, k) <==>
            BitAt(c.intsIn, k) || (k == 6 && c.intEn) || (k == 7 && c.intActive)
  {
    hide Lookup, Peek, Bitwise, BitAt;
    FlagBits(c.intEn, c.intActive, k);
    BitwiseAt(OrOp, c.intsIn, 64 * Alu.Bit(c.intEn) + 128 * Alu.Bit(c.intActive), k);
  }
}
