/**
 The two stacks that the guide promises (Design/ProgrammersGuide.md), and when stack mode keeps to them.
 */
module Stacks {
  import opened Bytes
  import opened Isa
  import opened Processor
  import opened SourceMachine

  /** What the guide says of stack mode: addresses wrap around inside a page of 256 bytes. */
  function InPage(page: Word16, sp: Byte, offset: int): int
    requires 0 <= offset
  {
    page + (sp as int + offset) % 256
  }

  /** With the pages as the emulator has them, 0xFE00 for handlers: a handler is on its page exactly while sp
      is below 0x80, and other code wraps around as promised exactly while it does not have to. */
  lemma StackExactly(r: Regs, offset: int)
    requires 0 <= offset < 16
    ensures Address(r, StackMode, offset) == InPage(if r.intActive then 0xFE00 else 0xFF00, r.sp, offset) <==>
            if r.intActive then r.sp < 0x80 else r.sp as int + offset < 256
  {
  }

  /** With the pages as the guide has them, 0xFE00 for other code: only handlers can be where it says, and
      only with sp from 0x80 on. */
  lemma GuideExactly(r: Regs, offset: int)
    requires 0 <= offset < 16
    ensures Address(r, StackMode, offset) == InPage(if r.intActive then 0xFF00 else 0xFE00, r.sp, offset) <==>
            r.intActive && r.sp >= 0x80 && r.sp as int + offset < 256
  {
  }

  /** A handler shares its stack with the code it interrupts: at some address of the other code's stack, if
      and only if its sp is at least 0x80. So it does after the first push from sp 0. */
  lemma StacksMeet(r: Regs, offset: int)
    requires r.intActive && 0 <= offset < 16
    ensures r.sp >= 0x80 <==>
            exists m: Regs, o: int ::
              !m.intActive && 0 <= o < 16 && Address(m, StackMode, o) == Address(r, StackMode, offset)
  {
    if r.sp >= 0x80 {
      var m := r.(intActive := false);
      assert Address(m, StackMode, offset) == Address(r, StackMode, offset);
    } else {
      assert 0xFE00 <= Address(r, StackMode, offset) < 0xFF00;
      forall m: Regs, o: int | !m.intActive && 0 <= o < 16
        ensures Address(m, StackMode, o) != Address(r, StackMode, offset)
      {
        assert Address(m, StackMode, o) >= 0xFF00 || Address(m, StackMode, o) < 0x10;
      }
    }
  }
}
