/**
 How the program of any file that assembles runs: the theorems about runs, for the lines with the operands
 that the assembler has seen.
 */
module FileRuns {
  import opened Processor
  import opened Assembler
  import opened AssemblerRun
  import opened SourceMachine
  import opened Execution
  import opened Simulation
  import opened ProgramRun
  import opened Interrupts
  import opened InterruptedPrograms
  import opened Files

  /** A file of such lines assembles. */
  ghost predicate FileBuilds(ctx: Context, items: seq<Item>, rests: seq<string>) {
    AllParsed(items) && NoRedefine(items) && |rests| == |items| && AssembleFile(ctx, items, rests).Assembled?
  }

  ghost function FileRom(ctx: Context, items: seq<Item>, rests: seq<string>): Memory
    requires FileBuilds(ctx, items, rests)
  {
    AssembleFile(ctx, items, rests).st.rom
  }

  lemma SeenBuilds(ctx: Context, items: seq<Item>, rests: seq<string>)
    requires FileBuilds(ctx, items, rests)
    ensures Builds(ctx, AsSeen(ctx, items, rests), Successes(ctx, items, rests))
    ensures RomOf(ctx, AsSeen(ctx, items, rests), Successes(ctx, items, rests)) == FileRom(ctx, items, rests)
  {
    hide Assemble, AssembleFile, NoRedefine, AsSeen, Successes;
    FileIsProgram(ctx, items, rests);
  }

  /** The program of the file: the lines as seen, where they stand, and what their operands come to. */
  ghost function FileProgram(ctx: Context, items: seq<Item>, rests: seq<string>): (prog: Program)
    requires FileBuilds(ctx, items, rests)
  {
    SeenBuilds(ctx, items, rests);
    ProgramOf(ctx, AsSeen(ctx, items, rests), Successes(ctx, items, rests))
  }

  /** The simulation theorem for every file that assembles. */
  lemma FileSimulates(ctx: Context, items: seq<Item>, rests: seq<string>,
      trace: seq<Source>, inputs: seq<seq<Input>>, c: Cpu, n: nat)
    requires FileBuilds(ctx, items, rests) && n <= |inputs|
    requires SourceRun(FileProgram(ctx, items, rests), trace, inputs)
    requires forall i :: 0 <= i < |inputs| ==> AllSilent(inputs[i])
    requires Tracks(FileProgram(ctx, items, rests), FileRom(ctx, items, rests), trace[0], c)
    ensures var r := Processor.Run(c, Flatten(inputs[..n]));
            r.Some? && Tracks(FileProgram(ctx, items, rests), FileRom(ctx, items, rests), trace[n], r.value)
  {
    hide Assemble, AssembleFile, NoRedefine, AllParsed, FileRom, Builds, ProgramOf, RomOf, AsSeen, Successes,
         SourceRun, Tracks, AllSilent, Processor.Run;
    SeenBuilds(ctx, items, rests);
    Simulates(ctx, AsSeen(ctx, items, rests), Successes(ctx, items, rests), trace, inputs, c, n);
  }

  /** And at reset the processor is where the source machine starts. */
  lemma FileResetTracks(ctx: Context, items: seq<Item>, rests: seq<string>, c: Cpu)
    requires FileBuilds(ctx, items, rests) && c.pc == 0 && c.intsIn == 0 && c.rom == FileRom(ctx, items, rests)
    ensures Tracks(FileProgram(ctx, items, rests), FileRom(ctx, items, rests), Source(0, RegsOf(c)), c)
  {
    hide Assemble, AssembleFile, NoRedefine, AllParsed, FileRom, Builds, ProgramOf, RomOf, AsSeen, Successes, Tracks;
    SeenBuilds(ctx, items, rests);
    ResetTracks(ctx, AsSeen(ctx, items, rests), Successes(ctx, items, rests), c);
  }

  /** From reset, under any arrival of interrupts with handlers that restore what they found. */
  lemma InterruptedFileFollowsSource(ctx: Context, items: seq<Item>, rests: seq<string>, h: set<nat>,
      t: seq<Cpu>, inputs: seq<Input>, n: nat, lines: seq<Source>, parts: seq<seq<Input>>)
    requires FileBuilds(ctx, items, rests)
    requires IsTrace(t, inputs) && !t[0].intActive && t[0].pc == 0 && t[0].rom == FileRom(ctx, items, rests)
    requires HandlersRestore(h, t) && HarmlessAlone(h, Alone(t[0]), MainInputs(t, inputs, |inputs|))
    requires SourceRun(FileProgram(ctx, items, rests), lines, parts) && lines[0] == Source(0, RegsOf(Alone(t[0])))
    requires n <= |inputs| && !t[n].intActive && Flatten(parts) == MainInputs(t, inputs, n)
    ensures var prog, s := FileProgram(ctx, items, rests), lines[|parts|];
            && s.line < |prog.addrs| && t[n].pc == prog.addrs[s.line]
            && t[n].acc == s.regs.acc && t[n].sp == s.regs.sp && t[n].x == s.regs.x && t[n].y == s.regs.y
            && t[n].p == s.regs.p && t[n].q == s.regs.q && t[n].carry == s.regs.carry && t[n].intEn == s.regs.intEn
            && t[n].rom == s.regs.rom && forall i: nat :: i < ROM_SIZE && i !in h ==> t[n].ram[i] == s.regs.ram[i]
  {
    hide Assemble, AssembleFile, NoRedefine, AllParsed, FileRom, Builds, ProgramOf, RomOf, AsSeen, Successes,
         HandlersRestore, HarmlessAlone, Flatten, SourceRun, IsTrace, MainInputs, Alone;
    SeenBuilds(ctx, items, rests);
    InterruptedProgramFollowsSource(ctx, AsSeen(ctx, items, rests), Successes(ctx, items, rests),
                                    h, t, inputs, n, lines, parts);
  }
}
