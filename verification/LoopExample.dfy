/**
 The smallest program with a label, a jump to itself, as an application of the simulation theorem.
 */
module LoopExample {
  import opened Lexer
  import opened ShuntingYard
  import opened Isa
  import opened Processor
  import opened Assembler
  import opened AssemblerRun
  import opened AssemblerTheorems
  import opened SourceMachine
  import opened Execution
  import opened Simulation
  import opened ProgramRun
  import opened Names
  import EarlyLate

  const LOOP: seq<Item> := [Label("start"), Relative(J, " start")]

  lemma LoopScans(ctx: Context)
    ensures AllParsed(LOOP) && NoRedefine(LOOP)
    ensures Scan(ctx, LOOP, {}) == Assembled(Start().(
              rom := Blank()[0 := Opcode(J)], loc := 2,
              symbols := [Symbol("ISR", ISR_ADDR), Symbol("start", 0)],
              unresolved := [Fixup(FixRelative, " start", 0)]))
  {
    hide ParseExp, Blank, Bitwise;
    assert LOOP[..1] == [Label("start")] && LOOP[..1][..0] == [];
    assert DefName(LOOP[1]) == None;
    assert Scan(ctx, LOOP[..1], {})
        == Assembled(Start().(symbols := [Symbol("ISR", ISR_ADDR), Symbol("start", 0)]));
  }

  /** It assembles, whichever lines are tried at once. */
  lemma LoopBuilds(ctx: Context, early: set<nat>)
    ensures Builds(ctx, LOOP, early)
  {
    hide Scan, ParseExp, Blank, Bitwise, NoRedefine;
    LoopScans(ctx);
    var st := BindFreeMem(Scan(ctx, LOOP, {}).st);
    var symbols := [Symbol("ISR", ISR_ADDR), Symbol("start", 0), Symbol("FREE_MEM", ROM_SIZE)];
    assert st.symbols == symbols;
    assert symbols[1] == Symbol("start", 0);
    assert IsPadded(" start", "start") by { assert StandsAt(" start", "start", 1); }
    NameIsItsValue(Env(symbols, ctx.scan), ctx.sem, " start", "start", 0);
    assert Resolve(ctx, st, st.unresolved[0]).Some?;
    assert ResolveAll(ctx, st, st.unresolved) == Resolve(ctx, st, st.unresolved[0]);
    EarlyLate.EarlyAgreesWithLate(ctx, LOOP, early);
  }

  /** Where the two lines are, and what the jump jumps to. */
  lemma LoopProgram(ctx: Context, early: set<nat>)
    requires Builds(ctx, LOOP, early)
    ensures var prog := ProgramOf(ctx, LOOP, early);
            prog.items == LOOP && prog.addrs[0] == 0 && prog.addrs[1] == 0 && prog.values[1] == 0
  {
    hide Scan, Addrs, Assemble, NoRedefine, Values;
    ScanBuilds(ctx, LOOP, early);
    StartsAtZero(ctx, LOOP, early);
    AddrsFollow(ctx, LOOP, early, 0);
    assert IsPadded(" start", "start") by { assert StandsAt(" start", "start", 1); }
    LabelIsLine(ctx, LOOP, early, 0, 1);
  }

  /** From reset, after any number of steps without interrupts, the processor is back at the label. */
  lemma {:induction false} LoopsForever(ctx: Context, early: set<nat>, c: Cpu, inputs: seq<Input>)
    requires Builds(ctx, LOOP, early) && AllSilent(inputs)
    requires c.pc == 0 && c.intsIn == 0 && c.rom == RomOf(ctx, LOOP, early)
    ensures var r := Processor.Run(c, inputs);
            r.Some? && r.value.pc == 0 && r.value.intsIn == 0 && r.value.rom == RomOf(ctx, LOOP, early)
    decreases |inputs|
  {
    hide Builds, ProgramOf, RomOf, Processor.Run;
    if inputs == [] {
      NoSteps(c);
    } else {
      OnceAround(ctx, early, c, inputs[0]);
      RunConcat(c, [inputs[0]], inputs[1..]);
      assert [inputs[0]] + inputs[1..] == inputs;
      LoopsForever(ctx, early, Processor.Run(c, [inputs[0]]).value, inputs[1..]);
    }
  }

  lemma OnceAround(ctx: Context, early: set<nat>, c: Cpu, input: Input)
    requires Builds(ctx, LOOP, early) && Silent(input)
    requires c.pc == 0 && c.intsIn == 0 && c.rom == RomOf(ctx, LOOP, early)
    ensures var r := Processor.Run(c, [input]);
            r.Some? && r.value.pc == 0 && r.value.intsIn == 0 && r.value.rom == RomOf(ctx, LOOP, early)
  {
    hide Builds, ProgramOf, RomOf, Processor.Run;
    var prog, r := ProgramOf(ctx, LOOP, early), RegsOf(c);
    var lines := [Source(0, r), Source(1, r), Source(0, Idle(r))];
    var parts: seq<seq<Input>> := [[], [input]];
    LoopProgram(ctx, early);
    ResetTracks(ctx, LOOP, early, c);
    assert SourceStep(prog, lines[0], parts[0], lines[1]);
    assert SourceStep(prog, lines[1], parts[1], lines[2]);
    Simulates(ctx, LOOP, early, lines, parts, c, 2);
    OnePart(input);
    assert parts[..2] == parts;
  }

  lemma OnePart(input: Input)
    ensures Flatten([[], [input]]) == [input]
  {
    var tail: seq<seq<Input>> := [[input]];
    assert [[], [input]][1..] == tail && tail[1..] == [];
    assert Flatten(tail) == [input] + Flatten([]);
  }
}
