/**
 The correctness of assembler and emulator together: the assembled ROM, run by the processor without
 interrupts, follows the source machine line by line.
 */
module ProgramRun {
  import opened Bytes
  import opened Lexer
  import opened ShuntingYard
  import opened SymTab
  import opened Isa
  import opened Processor
  import opened Assembler
  import opened Encoding
  import opened Image
  import opened AssemblerRun
  import opened AssemblerTheorems
  import opened SourceMachine
  import opened Execution
  import opened Simulation
  import opened Names
  import opened Words
  import opened Grammar
  import opened SymbolsGrow

  // ----- the assembled program

  /** The value of a line's operand under the final symbol table. */
  ghost function OperandValue(ctx: Context, symbols: seq<Symbol>, item: Item): int {
    if FixOf(item).None? then 0
    else
      match Value(ctx, symbols, FixOf(item).value.1)
      case Ok(v) => v
      case Error(_) => 0
  }

  ghost predicate Builds(ctx: Context, items: seq<Item>, early: set<nat>) {
    AllParsed(items) && NoRedefine(items) && Assemble(ctx, items, early).Assembled?
  }

  ghost function RomOf(ctx: Context, items: seq<Item>, early: set<nat>): Memory
    requires Builds(ctx, items, early)
  {
    Assemble(ctx, items, early).st.rom
  }

  /** The lines are legal, their operands fit, and the ROM holds their code. */
  lemma LinesPlaced(ctx: Context, items: seq<Item>, early: set<nat>)
    requires Builds(ctx, items, early)
    ensures var addrs, st := Addrs(ctx, items, early), Assemble(ctx, items, early).st;
            AllLegal(items) && forall k :: 0 <= k < |items| ==>
              var v := OperandValue(ctx, st.symbols, items[k]);
              Fits(items[k], addrs[k], v) && Holds(st.rom, addrs[k], Encode(items[k], addrs[k], v))
  {
    hide Assemble, Addrs, Scan, NoRedefine, Ordered, BlankElsewhere, Holds, Fits, Encode, Value;
    ImageIsEncoding(ctx, items, early);
    var addrs, st := Addrs(ctx, items, early), Assemble(ctx, items, early).st;
    forall k | 0 <= k < |items|
      ensures var v := OperandValue(ctx, st.symbols, items[k]);
              Fits(items[k], addrs[k], v) && Holds(st.rom, addrs[k], Encode(items[k], addrs[k], v))
    {
      assert Finished(ctx, st, items[k], addrs[k]);
      FitsWithout(items[k], addrs[k]);
    }
  }

  lemma FitsWithout(item: Item, a: int)
    ensures FixOf(item).None? ==> Fits(item, a, 0)
  {
  }

  /** The program as the source machine sees it. */
  ghost function ProgramOf(ctx: Context, items: seq<Item>, early: set<nat>): (prog: Program)
    requires Builds(ctx, items, early)
    ensures WellPlaced(prog) && prog.items == items
  {
    LinesPlaced(ctx, items, early);
    Program(items,
            Addrs(ctx, items, early) + [Scan(ctx, items, early).st.loc],
            Values(ctx, Assemble(ctx, items, early).st.symbols, items))
  }

  ghost function Values(ctx: Context, symbols: seq<Symbol>, items: seq<Item>): seq<int> {
    seq(|items|, k requires 0 <= k < |items| => OperandValue(ctx, symbols, items[k]))
  }

  // ----- addresses

  lemma LineMoves(ctx: Context, front: seq<Item>, addrs: seq<nat>, ks: seq<nat>, st: Asm, item: Item, early: bool,
                  st': Asm)
    requires Inv(ctx, front, addrs, ks, st) && Legal(item) && Line(ctx, st, item, Tried(early)) == Assembled(st')
    requires !item.Loc?
    ensures st'.loc == st.loc + Size(item)
  {
    hide Place, Inv, Encode, Template, Value, Resolve;
    BlankFromInv(ctx, front, addrs, ks, st);
    if !IsDirect(item) {
      PlaceResult(ctx, st, item, early);
    }
  }

  /** Each line stands where the one before it ends, except behind a jump of the location. */
  lemma {:induction false} AddrsFollow(ctx: Context, items: seq<Item>, early: set<nat>, k: nat)
    requires AllParsed(items) && NoRedefine(items) && Scan(ctx, items, early).Assembled?
    requires k < |items| && !items[k].Loc?
    ensures var addrs := Addrs(ctx, items, early) + [Scan(ctx, items, early).st.loc];
            addrs[k + 1] == addrs[k] + Size(items[k])
    decreases |items|
  {
    hide Line, NoRedefine, Inv, Pending, Unbound, FixOf, Size, Parsed;
    var n := |items| - 1;
    var front, item := items[..n], items[n];
    NoRedefineFront(items);
    var st := Scan(ctx, front, early).st;
    assert Addrs(ctx, items, early) == Addrs(ctx, front, early) + [st.loc];
    if k < n {
      AddrsFollow(ctx, front, early, k);
    } else {
      var ks := ScanInv(ctx, front, early);
      AcceptedIsLegal(ctx, st, item, n in early);
      LineMoves(ctx, front, Addrs(ctx, front, early), ks, st, item, n in early, Scan(ctx, items, early).st);
    }
  }

  /** The first line stands at address 0, where the processor starts. */
  lemma {:induction false} StartsAtZero(ctx: Context, items: seq<Item>, early: set<nat>)
    requires AllParsed(items) && Scan(ctx, items, early).Assembled?
    ensures (Addrs(ctx, items, early) + [Scan(ctx, items, early).st.loc])[0] == 0
    decreases |items|
  {
    hide Line, Parsed;
    if items != [] {
      var front := items[..|items| - 1];
      StartsAtZero(ctx, front, early);
      assert Addrs(ctx, items, early) == Addrs(ctx, front, early) + [Scan(ctx, front, early).st.loc];
    }
  }

  // ----- the simulation

  /** The processor is where the source machine is. */
  ghost predicate Tracks(prog: Program, rom: Memory, s: Source, c: Cpu) {
    && s.line < |prog.addrs| && c.pc == prog.addrs[s.line] && RegsOf(c) == s.regs
    && c.intsIn == 0 && c.rom == rom
  }

  /** At reset the processor is where the source machine starts. */
  lemma ResetTracks(ctx: Context, items: seq<Item>, early: set<nat>, c: Cpu)
    requires Builds(ctx, items, early) && c.pc == 0 && c.intsIn == 0 && c.rom == RomOf(ctx, items, early)
    ensures Tracks(ProgramOf(ctx, items, early), RomOf(ctx, items, early), Source(0, RegsOf(c)), c)
  {
    hide Addrs, NoRedefine;
    StartsAtZero(ctx, items, early);
  }

  lemma StepTracks(ctx: Context, items: seq<Item>, early: set<nat>, s: Source, inputs: seq<Input>, s': Source, c: Cpu)
    requires Builds(ctx, items, early)
    requires SourceStep(ProgramOf(ctx, items, early), s, inputs, s') && AllSilent(inputs)
    requires Tracks(ProgramOf(ctx, items, early), RomOf(ctx, items, early), s, c)
    ensures var r := Processor.Run(c, inputs);
            r.Some? && Tracks(ProgramOf(ctx, items, early), RomOf(ctx, items, early), s', r.value)
  {
    hide Processor.Run, Assemble, Addrs, Scan, NoRedefine, Holds, Fits, Encode, After, Leaves, Size, Steps, Supported;
    var prog := ProgramOf(ctx, items, early);
    LinesPlaced(ctx, items, early);
    var item, v := items[s.line], prog.values[s.line];
    LineRuns(c, item, v, inputs);
    if Leaves(s.regs, item, v).None? {
      assert !item.Loc? by { LocUnsupported(item); }
      ScanBuilds(ctx, items, early);
      AddrsFollow(ctx, items, early, s.line);
      EndsInRange(c.rom, c.pc, item, v);
    }
  }

  lemma LocUnsupported(item: Item)
    ensures item.Loc? ==> !Supported(item)
  {
  }

  lemma ScanBuilds(ctx: Context, items: seq<Item>, early: set<nat>)
    requires Builds(ctx, items, early)
    ensures Scan(ctx, items, early).Assembled?
  {
  }

  lemma EndsInRange(rom: Memory, a: Word16, item: Item, v: int)
    requires Legal(item) && Fits(item, a, v) && Holds(rom, a, Encode(item, a, v))
    ensures a + Size(item) < 0x10000
  {
    hide Fits;
    if Size(item) > 0 {
      assert Encode(item, a, v) != [];
    }
  }

  function Flatten<T>(xss: seq<seq<T>>): seq<T> {
    if xss == [] then [] else xss[0] + Flatten(xss[1..])
  }

  /** The simulation theorem: from any state in which the processor is where the source machine is,
      every run of the source machine, however long and whatever it computes, is a run of the processor
      on the assembled ROM, and the two agree behind every line. */
  lemma {:induction false} Simulates(ctx: Context, items: seq<Item>, early: set<nat>,
      trace: seq<Source>, inputs: seq<seq<Input>>, c: Cpu, n: nat)
    requires Builds(ctx, items, early) && n <= |inputs|
    requires SourceRun(ProgramOf(ctx, items, early), trace, inputs)
    requires forall i :: 0 <= i < |inputs| ==> AllSilent(inputs[i])
    requires Tracks(ProgramOf(ctx, items, early), RomOf(ctx, items, early), trace[0], c)
    ensures var r := Processor.Run(c, Flatten(inputs[..n]));
            r.Some? && Tracks(ProgramOf(ctx, items, early), RomOf(ctx, items, early), trace[n], r.value)
    decreases n
  {
    hide Builds, ProgramOf, SourceStep, AllSilent, Tracks, RomOf, Processor.Run;
    if n == 0 {
      assert inputs[..0] == [];
      NoSteps(c);
    } else {
      Simulates(ctx, items, early, trace, inputs, c, n - 1);
      var front := Flatten(inputs[..n - 1]);
      var c' := Processor.Run(c, front).value;
      StepTracks(ctx, items, early, trace[n - 1], inputs[n - 1], trace[n], c');
      assert inputs[..n] == inputs[..n - 1] + [inputs[n - 1]];
      FlattenSnoc(inputs[..n - 1], inputs[n - 1]);
      RunConcat(c, front, inputs[n - 1]);
    }
  }

  lemma {:induction false} FlattenSnoc<T>(xss: seq<seq<T>>, xs: seq<T>)
    ensures Flatten(xss + [xs]) == Flatten(xss) + xs
  {
    if xss == [] {
      assert [xs][1..] == [];
    } else {
      assert (xss + [xs])[1..] == xss[1..] + [xs];
      FlattenSnoc(xss[1..], xs);
    }
  }

  // ----- labels and returns

  /** The line of the first label with this name, or behind the last line. */
  function LineOfLabel(items: seq<Item>, name: string): (j: nat)
    ensures j <= |items| && (j < |items| ==> items[j] == Label(name))
  {
    if items == [] then 0
    else if items[0] == Label(name) then 0
    else 1 + LineOfLabel(items[1..], name)
  }

  /** The tree with every label replaced by the address of its line. */
  function AddressTree(prog: Program, e: Expr<Word>): Expr<int>
    requires WellPlaced(prog)
  {
    match e
    case Leaf(w) => Leaf(if w.Literal? then w.value else prog.addrs[LineOfLabel(prog.items, w.name)])
    case Paren(x) => Paren(AddressTree(prog, x))
    case Unary(op, x) => Unary(op, AddressTree(prog, x))
    case Binary(op, l, r) => Binary(op, AddressTree(prog, l), AddressTree(prog, r))
  }

  ghost predicate AreLabels(items: seq<Item>, names: set<string>) {
    forall name :: name in names ==> LineOfLabel(items, name) < |items|
  }

  /** Labels stand for the addresses of their lines. */
  lemma LabelsBound(ctx: Context, items: seq<Item>, early: set<nat>, name: string)
    requires Builds(ctx, items, early) && LineOfLabel(items, name) < |items|
    ensures SymTab.Lookup(Assemble(ctx, items, early).st.symbols, name)
         == Some(ProgramOf(ctx, items, early).addrs[LineOfLabel(items, name)])
  {
    hide Assemble, Addrs, Scan, Ordered, BlankElsewhere, Holds, NoRedefine, Values;
    ImageIsEncoding(ctx, items, early);
    var st, j := Assemble(ctx, items, early).st, LineOfLabel(items, name);
    assert Finished(ctx, st, items[j], Addrs(ctx, items, early)[j]);
    LookupIsMembership(st.symbols, name, Addrs(ctx, items, early)[j]);
  }

  lemma {:induction false} AddressesPlugged(symbols: seq<Symbol>, prog: Program, e: Expr<Word>)
    requires WellPlaced(prog)
    requires forall name :: name in LeafNames(e) ==>
             SymTab.Lookup(symbols, name) == Some(prog.addrs[LineOfLabel(prog.items, name)])
    ensures PlugTree(symbols, e) == AddressTree(prog, e) && AllBound(symbols, LeafNames(e))
  {
    hide SymTab.Lookup, LineOfLabel;
    match e
    case Leaf(_) =>
    case Paren(x) => AddressesPlugged(symbols, prog, x);
    case Unary(_, x) => AddressesPlugged(symbols, prog, x);
    case Binary(_, l, r) =>
      AddressesPlugged(symbols, prog, l);
      AddressesPlugged(symbols, prog, r);
  }

  /** An operand whose words are those of a tree over labels and numbers, however it is spaced, has the
      value of that tree with the labels replaced by the addresses of their lines. */
  lemma OperandIsExpression(ctx: Context, items: seq<Item>, early: set<nat>, k: nat, e: Expr<Word>)
    requires Builds(ctx, items, early) && k < |items| && FixOf(items[k]).Some?
    requires WellFormed(e) && AreLabels(items, LeafNames(e))
    requires Read(ctx.scan, FixOf(items[k]).value.1, 0, false) == Some(Yield(e))
    ensures var prog := ProgramOf(ctx, items, early);
            prog.values[k] == Eval(ctx.sem, AddressTree(prog, e))
  {
    hide Assemble, Addrs, Scan, NoRedefine, ParseExp, Read, Identifiers, Extends, SymTab.Lookup, AllBound, Yield;
    var prog, symbols := ProgramOf(ctx, items, early), Assemble(ctx, items, early).st.symbols;
    forall name | name in LeafNames(e)
      ensures SymTab.Lookup(symbols, name) == Some(prog.addrs[LineOfLabel(prog.items, name)])
    {
      LabelsBound(ctx, items, early, name);
    }
    AddressesPlugged(symbols, prog, e);
    FinalExtends(ctx, items, early);
    ValueOfTree(Env(symbols, ctx.scan), ctx.sem, FixOf(items[k]).value.1, e);
  }

  /** In particular, an operand that is the name of a label, with or without blanks around it, is the
      address of the label's line. */
  lemma LabelIsLine(ctx: Context, items: seq<Item>, early: set<nat>, j: nat, k: nat)
    requires Builds(ctx, items, early) && j < |items| && k < |items|
    requires items[j].Label? && FixOf(items[k]).Some? && IsPadded(FixOf(items[k]).value.1, items[j].name)
    ensures var prog := ProgramOf(ctx, items, early); prog.values[k] == prog.addrs[j]
  {
    hide Builds, ProgramOf, IsPadded, Read;
    var name := items[j].name;
    var e: Expr<Word> := Leaf(Name(name));
    OnlyLabel(ctx, items, early, j);
    PaddedReads(ctx.scan, FixOf(items[k]).value.1, name);
    OperandIsExpression(ctx, items, early, k, e);
  }

  lemma OnlyLabel(ctx: Context, items: seq<Item>, early: set<nat>, j: nat)
    requires Builds(ctx, items, early) && j < |items| && items[j].Label?
    ensures LineOfLabel(items, items[j].name) == j
  {
    hide Assemble;
    LabelFound(items, j);
    var i := LineOfLabel(items, items[j].name);
    assert DefName(items[i]) == DefName(items[j]);
  }

  lemma {:induction false} LabelFound(items: seq<Item>, j: nat)
    requires j < |items| && items[j].Label?
    ensures LineOfLabel(items, items[j].name) <= j
  {
    if j > 0 && items[0] != items[j] {
      LabelFound(items[1..], j - 1);
    }
  }

  lemma LeavesReturn(r: Regs, item: Item, a: Word16, v: int, inputs: seq<Input>)
    requires item.Call? || (item.Relative? && item.m == Jr)
    requires Fits(item, a, v) && |inputs| == Steps(item)
    ensures After(r, item, a, v, inputs).p == Wrap16(a + Size(item) - 1)
  {
    hide AfterPlain, AfterRegister, AfterImmediate, AfterMemory;
  }

  /** After a call, and after a relative jump with return, a jump through p leads to the next line. */
  lemma ReturnsToNextLine(ctx: Context, items: seq<Item>, early: set<nat>, k: nat,
                          r: Regs, inputs: seq<Input>, r': Regs)
    requires Builds(ctx, items, early) && k < |items| && (items[k].Call? || (items[k].Relative? && items[k].m == Jr))
    requires |inputs| == Steps(items[k])
    requires var prog := ProgramOf(ctx, items, early);
             prog.addrs[k] < 0x10000 && r'.p == After(r, items[k], prog.addrs[k], prog.values[k], inputs).p
    ensures Leaves(r', Plain(Jp, false), 0) == Some(ProgramOf(ctx, items, early).addrs[k + 1])
  {
    hide Assemble, Addrs, Scan, NoRedefine, Encode, Holds, After, Fits, OperandValue;
    ScanBuilds(ctx, items, early);
    AddrsFollow(ctx, items, early, k);
    LinesPlaced(ctx, items, early);
    var prog := ProgramOf(ctx, items, early);
    LeavesReturn(r, items[k], prog.addrs[k], prog.values[k], inputs);
    EndsInRange(RomOf(ctx, items, early), prog.addrs[k], items[k], prog.values[k]);
  }
}
