/**
 Assembler, emulator and interrupts together: an assembled program that is interrupted at any time still
 follows its source.
 */
module InterruptedPrograms {
  import opened Processor
  import opened Assembler
  import opened SourceMachine
  import opened Execution
  import opened Simulation
  import opened ProgramRun
  import opened Interrupts

  lemma {:induction false} MainInputsSilent(t: seq<Cpu>, inputs: seq<Input>, n: nat)
    requires n <= |inputs| < |t|
    ensures AllSilent(MainInputs(t, inputs, n))
  {
    if n > 0 {
      MainInputsSilent(t, inputs, n - 1);
    }
  }

  lemma {:induction false} PartsSilent(parts: seq<seq<Input>>)
    requires AllSilent(Flatten(parts))
    ensures forall i :: 0 <= i < |parts| ==> AllSilent(parts[i])
  {
    if parts != [] {
      var rest := Flatten(parts[1..]);
      assert forall i :: 0 <= i < |parts[0]| ==> Flatten(parts)[i] == parts[0][i];
      assert forall i :: 0 <= i < |rest| ==> Flatten(parts)[|parts[0]| + i] == rest[i];
      PartsSilent(parts[1..]);
      assert forall i :: 0 < i < |parts| ==> parts[i] == parts[1..][i - 1];
    }
  }

  /** From reset, whatever interrupts arrive: if the handlers restore what they found, and the program alone
      would not touch their memory, then when the steps outside handlers add up to some lines of a run of
      the source machine and no handler is active, the processor stands at the line the source machine has
      come to, with the same registers and the same memory. */
  lemma InterruptedProgramFollowsSource(ctx: Context, items: seq<Item>, early: set<nat>, h: set<nat>,
      t: seq<Cpu>, inputs: seq<Input>, n: nat, lines: seq<Source>, parts: seq<seq<Input>>)
    requires Builds(ctx, items, early)
    requires IsTrace(t, inputs) && !t[0].intActive && t[0].pc == 0 && t[0].rom == RomOf(ctx, items, early)
    requires HandlersRestore(h, t) && HarmlessAlone(h, Alone(t[0]), MainInputs(t, inputs, |inputs|))
    requires SourceRun(ProgramOf(ctx, items, early), lines, parts) && lines[0] == Source(0, RegsOf(Alone(t[0])))
    requires n <= |inputs| && !t[n].intActive && Flatten(parts) == MainInputs(t, inputs, n)
    ensures var prog, s := ProgramOf(ctx, items, early), lines[|parts|];
            && s.line < |prog.addrs| && t[n].pc == prog.addrs[s.line]
            && t[n].acc == s.regs.acc && t[n].sp == s.regs.sp && t[n].x == s.regs.x && t[n].y == s.regs.y
            && t[n].p == s.regs.p && t[n].q == s.regs.q && t[n].carry == s.regs.carry && t[n].intEn == s.regs.intEn
            && t[n].rom == s.regs.rom && forall i: nat :: i < ROM_SIZE && i !in h ==> t[n].ram[i] == s.regs.ram[i]
  {
    hide Builds, ProgramOf, RomOf, Step, HandlersRestore, HarmlessAlone, Processor.Run, MainInputs, Flatten;
    var c := Alone(t[0]);
    MainInputsSilent(t, inputs, n);
    PartsSilent(parts);
    ResetTracks(ctx, items, early, c);
    assert parts[..|parts|] == parts;
    Simulates(ctx, items, early, lines, parts, c, |parts|);
    InterruptsAreTransparent(h, t, inputs, n);
  }
}
