/**
 The assembler on any file. A first attempt that succeeds on the operand with the rest of the file behind it
 takes both for the operand; so every file assembles as a program without that peculiarity does.
 */
module Files {
  import opened Bytes
  import opened Lexer
  import opened ShuntingYard
  import opened SymTab
  import opened Isa
  import opened Processor
  import opened Words
  import opened Assembler
  import opened Encoding
  import opened AssemblerRun
  import opened AssemblerTheorems
  import opened SymbolsGrow
  import opened Definitions
  import Image

  // ----- one line

  /** The line with another text for its operand. */
  function WithText(item: Item, text: string): Item {
    match item
    case Immediate(m, _) => Immediate(m, text)
    case Relative(m, _) => Relative(m, text)
    case Memory(m, mode, _) => Memory(m, mode, text)
    case LoadPair(pair, _) => LoadPair(pair, text)
    case Rdja(_) => Rdja(text)
    case Call(_) => Call(text)
    case Goto(_) => Goto(text)
    case Define(name, _) => Define(name, text)
    case Assert(_) => Assert(text)
    case Echo(_) => Echo(text)
    case _ => item
  }

  /** What the first attempt takes for the operand. */
  function SeenOf(item: Item, rest: string): string
    requires FixOf(item).Some?
  {
    Seen(FixOf(item).value.1, rest)
  }

  /** The first attempt at the operand succeeds. */
  predicate Attempt(ctx: Context, st: Asm, item: Item, rest: string) {
    FixOf(item).Some? && Resolve(ctx, st, Fixup(FixOf(item).value.0, SeenOf(item, rest), st.loc)).Some?
  }

  function Joined(ctx: Context, st: Asm, item: Item, rest: string): Item {
    if Attempt(ctx, st, item, rest) then WithText(item, SeenOf(item, rest)) else item
  }

  lemma WithTextKeeps(item: Item, text: string)
    ensures DefName(WithText(item, text)) == DefName(item) && (Parsed(item) ==> Parsed(WithText(item, text)))
    ensures FixOf(WithText(item, text)) == if FixOf(item).Some? then Some((FixOf(item).value.0, text)) else None
  {
  }

  lemma AddJoins(ctx: Context, st: Asm, fix: Fix, text: string, rest: string)
    ensures var b := Resolve(ctx, st, Fixup(fix, Seen(text, rest), st.loc)).Some?;
            AddUnresolved(ctx, st, fix, text, Some(rest)) ==
            AddUnresolved(ctx, st, fix, if b then Seen(text, rest) else text, Tried(b))
  {
    hide Resolve;
  }

  /** Whether a fixup can be resolved has nothing to do with what is in the ROM. */
  lemma AnyRom(ctx: Context, st: Asm, rom: Memory, f: Fixup)
    ensures Resolve(ctx, st.(rom := rom), f).Some? == Resolve(ctx, st, f).Some?
  {
    hide ParseExp, Bind, Bitwise;
  }

  lemma PlaceJoins(ctx: Context, st: Asm, item: Item, rest: string)
    requires Parsed(item) && st.loc + Size(item) <= ROM_SIZE && !IsDirect(item)
    ensures var item' := Joined(ctx, st, item, rest);
            && Parsed(item') && Size(item') == Size(item)
            && Place(ctx, st, item, Some(rest)) == Place(ctx, st, item', Tried(Attempt(ctx, st, item, rest)))
  {
    hide AddUnresolved, Resolve, Opcode, EmitPair, EmitAll, Tried, MoveBytes, SwapBytes, RegisterByte, PlainByte;
    match item
    case Immediate(m, text) => EmitJoins(ctx, st, Opcode(m), FixImm8, text, rest);
    case Relative(m, text) => EmitJoins(ctx, st, Opcode(m), FixRelative, text, rest);
    case Memory(m, mode, text) =>
      Image.OpcodeOfMemory(m, mode);
      EmitJoins(ctx, st, Opcode(m) + ModeBits(mode), FixImm4, text, rest);
    case LoadPair(_, text) => AddJoins(ctx, st, FixPair, text, rest);
    case Rdja(text) => AddJoins(ctx, st, FixReturn, text, rest);
    case Call(text) => AddJoins(ctx, st, FixReturn, text, rest);
    case Goto(text) => AddJoins(ctx, st, FixReturn, text, rest);
    case _ =>
  }

  lemma DirectJoins(ctx: Context, st: Asm, item: Item, rest: string)
    requires IsDirect(item)
    ensures var item' := Joined(ctx, st, item, rest);
            && IsDirect(item')
            && Direct(ctx, st, item, Some(rest)) == Direct(ctx, st, item', Tried(Attempt(ctx, st, item, rest)))
  {
    hide AddUnresolved, Resolve, Tried, Value, Bind;
    match item
    case Define(name, text) => AddJoins(ctx, st, FixDefine(name), text, rest);
    case Assert(text) => AddJoins(ctx, st, FixAssert, text, rest);
    case Echo(text) => AddJoins(ctx, st, FixEcho, text, rest);
    case _ =>
  }

  lemma LineJoins(ctx: Context, st: Asm, item: Item, rest: string)
    requires Parsed(item)
    ensures Parsed(Joined(ctx, st, item, rest))
    ensures Line(ctx, st, item, Some(rest))
         == Line(ctx, st, Joined(ctx, st, item, rest), Tried(Attempt(ctx, st, item, rest)))
  {
    hide Place, Direct, Resolve, Tried, Size, IsDirect, WithText, Parsed;
    if FixOf(item).Some? {
      WithTextKeeps(item, SeenOf(item, rest));
      SameSize(item, SeenOf(item, rest));
    }
    if IsDirect(item) {
      DirectJoins(ctx, st, item, rest);
    } else if st.loc + Size(item) <= ROM_SIZE {
      PlaceJoins(ctx, st, item, rest);
    }
  }

  lemma EmitJoins(ctx: Context, st: Asm, b: Byte, fix: Fix, text: string, rest: string)
    requires st.loc < ROM_SIZE
    ensures var ok := Resolve(ctx, st, Fixup(fix, Seen(text, rest), st.loc)).Some?;
            AddUnresolved(ctx, Emit(st, b, 0), fix, text, Some(rest)) ==
            AddUnresolved(ctx, Emit(st, b, 0), fix, if ok then Seen(text, rest) else text, Tried(ok))
  {
    hide AddUnresolved, Resolve, Tried;
    AddJoins(ctx, Emit(st, b, 0), fix, text, rest);
    AnyRom(ctx, st, st.rom[st.loc := b], Fixup(fix, Seen(text, rest), st.loc));
  }

  // ----- all lines

  /** The first attempt at the operand of line k succeeds, if the assembler gets there. */
  ghost predicate Succeeds(ctx: Context, items: seq<Item>, rests: seq<string>, k: nat)
    requires AllParsed(items) && |rests| == |items| && k < |items|
  {
    var r := ScanFile(ctx, items[..k], rests[..k]);
    r.Assembled? && Attempt(ctx, r.st, items[k], rests[k])
  }

  ghost function Successes(ctx: Context, items: seq<Item>, rests: seq<string>): set<nat>
    requires AllParsed(items) && |rests| == |items|
  {
    set k: nat | k < |items| && Succeeds(ctx, items, rests, k)
  }

  /** The lines with the operands that their values were taken from. */
  ghost function AsSeen(ctx: Context, items: seq<Item>, rests: seq<string>): (seen: seq<Item>)
    requires AllParsed(items) && |rests| == |items|
    ensures |seen| == |items|
  {
    seq(|items|, k requires 0 <= k < |items| =>
      if Succeeds(ctx, items, rests, k) then WithText(items[k], SeenOf(items[k], rests[k])) else items[k])
  }

  lemma SeenParsed(ctx: Context, items: seq<Item>, rests: seq<string>)
    requires AllParsed(items) && |rests| == |items|
    ensures AllParsed(AsSeen(ctx, items, rests))
    ensures forall k :: 0 <= k < |items| ==> DefName(AsSeen(ctx, items, rests)[k]) == DefName(items[k])
    ensures NoRedefine(items) ==> NoRedefine(AsSeen(ctx, items, rests))
  {
    hide ScanFile, Resolve, Parsed, WithText;
    forall k | 0 <= k < |items|
      ensures Parsed(AsSeen(ctx, items, rests)[k]) && DefName(AsSeen(ctx, items, rests)[k]) == DefName(items[k])
    {
      if Succeeds(ctx, items, rests, k) {
        WithTextKeeps(items[k], SeenOf(items[k], rests[k]));
      }
    }
  }

  lemma SeenFront(ctx: Context, items: seq<Item>, rests: seq<string>, n: nat)
    requires AllParsed(items) && |rests| == |items| && n <= |items|
    ensures AsSeen(ctx, items, rests)[..n] == AsSeen(ctx, items[..n], rests[..n])
    ensures forall k: nat :: k < n ==>
              (k in Successes(ctx, items, rests) <==> k in Successes(ctx, items[..n], rests[..n]))
  {
    hide ScanFile, Attempt, WithText;
    assert forall k :: 0 <= k < n ==> items[..n][..k] == items[..k] && rests[..n][..k] == rests[..k];
  }

  /** Only the numbers of lines matter. */
  lemma {:induction false} ScanSame(ctx: Context, items: seq<Item>, early: set<nat>, early': set<nat>)
    requires AllParsed(items) && forall k: nat :: k < |items| ==> (k in early <==> k in early')
    ensures Scan(ctx, items, early) == Scan(ctx, items, early')
    decreases |items|
  {
    hide Line, Parsed;
    if items != [] {
      ScanSame(ctx, items[..|items| - 1], early, early');
    }
  }

  lemma {:induction false} ScanJoins(ctx: Context, items: seq<Item>, rests: seq<string>)
    requires AllParsed(items) && |rests| == |items|
    ensures AllParsed(AsSeen(ctx, items, rests))
    ensures ScanFile(ctx, items, rests) == Scan(ctx, AsSeen(ctx, items, rests), Successes(ctx, items, rests))
    decreases |items|
  {
    SeenParsed(ctx, items, rests);
    if items != [] {
      hide Line, Parsed, Start, Attempt, WithText;
      var n := |items| - 1;
      var seen, early := AsSeen(ctx, items, rests), Successes(ctx, items, rests);
      ScanJoins(ctx, items[..n], rests[..n]);
      SeenFront(ctx, items, rests, n);
      ScanSame(ctx, seen[..n], early, Successes(ctx, items[..n], rests[..n]));
      var r := ScanFile(ctx, items[..n], rests[..n]);
      if r.Assembled? {
        LineJoins(ctx, r.st, items[n], rests[n]);
        assert seen[n] == Joined(ctx, r.st, items[n], rests[n]);
      }
    }
  }

  /** Every file: the assembler does what it would do with the operands it has seen, tried by themselves at
      once where the first attempt succeeds, and only there. */
  lemma FileIsProgram(ctx: Context, items: seq<Item>, rests: seq<string>)
    requires AllParsed(items) && |rests| == |items|
    ensures var seen := AsSeen(ctx, items, rests);
            && AllParsed(seen) && (NoRedefine(items) ==> NoRedefine(seen))
            && AssembleFile(ctx, items, rests) == Assemble(ctx, seen, Successes(ctx, items, rests))
  {
    hide Scan, ScanFile, NoRedefine, AsSeen, Successes;
    SeenParsed(ctx, items, rests);
    ScanJoins(ctx, items, rests);
  }

  // ----- when a first attempt succeeds

  /** The names bound when line k is reached, read off the lines. */
  ghost function KnownBefore(ctx: Context, items: seq<Item>, rests: seq<string>, k: nat): set<string>
    requires AllParsed(items) && |rests| == |items| && k <= |items|
  {
    Known(ctx.scan, AsSeen(ctx, items, rests)[..k], Successes(ctx, items, rests))
  }

  lemma {:induction false} KnownSame(scan: EscapeScanner, items: seq<Item>, early: set<nat>, early': set<nat>)
    requires forall k: nat :: k < |items| ==> (k in early <==> k in early')
    ensures Known(scan, items, early) == Known(scan, items, early')
    decreases |items|
  {
    hide Evaluable;
    if items != [] {
      KnownSame(scan, items[..|items| - 1], early, early');
    }
  }

  lemma ApplyFits(st: Asm, item: Item, a: nat, v: int)
    requires Parsed(item) && FixOf(item).Some? && (IsDirect(item) || a + Size(item) <= ROM_SIZE)
    ensures Apply(st, FixupOf(item, a), v).Some? <==> Fits(item, a, v)
  {
    hide Bitwise, Bind, OffsetBits;
  }

  /** The symbols when line k is reached. */
  lemma ReachedDomain(ctx: Context, items: seq<Item>, rests: seq<string>, k: nat)
    requires AllParsed(items) && NoRedefine(items) && |rests| == |items| && k <= |items|
    requires ScanFile(ctx, items[..k], rests[..k]).Assembled?
    ensures var symbols := ScanFile(ctx, items[..k], rests[..k]).st.symbols;
            Identifiers(symbols) && HasDomain(symbols, KnownBefore(ctx, items, rests, k))
  {
    hide Scan, ScanFile, NoRedefine, AsSeen, Successes, HasDomain, Identifiers, Known, Parsed;
    var front, before := items[..k], rests[..k];
    var seen, early := AsSeen(ctx, front, before), Successes(ctx, front, before);
    FrontOf(items, k);
    FileIsProgram(ctx, front, before);
    ScanJoins(ctx, front, before);
    ScanIdentifiers(ctx, seen, early);
    KnownIsDomain(ctx, seen, early);
    SeenFront(ctx, items, rests, k);
    KnownSame(ctx.scan, seen, early, Successes(ctx, items, rests));
  }

  lemma FrontOf(items: seq<Item>, k: nat)
    requires NoRedefine(items) && k <= |items|
    ensures NoRedefine(items[..k])
  {
  }

  /** The first attempt at the operand of a line that is reached and fits the ROM succeeds if and only if the
      operand and the rest of the file together are an expression over the names bound by then, and its
      value fits. */
  lemma SucceedsExactly(ctx: Context, items: seq<Item>, rests: seq<string>, k: nat)
    requires AllParsed(items) && NoRedefine(items) && |rests| == |items| && k < |items| && FixOf(items[k]).Some?
    requires ScanFile(ctx, items[..k], rests[..k]).Assembled?
    requires var st := ScanFile(ctx, items[..k], rests[..k]).st;
             IsDirect(items[k]) || st.loc + Size(items[k]) <= ROM_SIZE
    ensures var st, seen := ScanFile(ctx, items[..k], rests[..k]).st, SeenOf(items[k], rests[k]);
            k in Successes(ctx, items, rests) <==>
              && Evaluable(ctx.scan, seen, KnownBefore(ctx, items, rests, k))
              && FitsUnder(ctx, st.symbols, WithText(items[k], seen), st.loc)
  {
    hide ScanFile, NoRedefine, AsSeen, HasDomain, Identifiers, Evaluable, Value, Apply, Fits, Known, Size;
    var st, item, seen := ScanFile(ctx, items[..k], rests[..k]).st, items[k], SeenOf(items[k], rests[k]);
    ReachedDomain(ctx, items, rests, k);
    ValueInDomain(ctx, st.symbols, KnownBefore(ctx, items, rests, k), seen);
    WithTextKeeps(item, seen);
    SameSize(item, seen);
    var r := Value(ctx, st.symbols, seen);
    if r.Ok? {
      ApplyFits(st, WithText(item, seen), st.loc, r.value);
    }
  }

  lemma SameSize(item: Item, text: string)
    ensures Size(WithText(item, text)) == Size(item) && IsDirect(WithText(item, text)) == IsDirect(item)
  {
  }

  // ----- when a file assembles

  lemma {:induction false} KnownGrows(scan: EscapeScanner, items: seq<Item>, early: set<nat>, k: nat)
    requires k <= |items|
    ensures Known(scan, items[..k], early) <= Known(scan, items, early)
    decreases |items|
  {
    hide Evaluable;
    if k < |items| {
      var n := |items| - 1;
      assert items[..n][..k] == items[..k];
      KnownGrows(scan, items[..n], early, k);
    } else {
      assert items[..k] == items;
    }
  }

  /** The symbols when a line is reached are among those of the first phase. */
  lemma ReachedExtends(ctx: Context, items: seq<Item>, rests: seq<string>, k: nat)
    requires AllParsed(items) && NoRedefine(items) && |rests| == |items| && k < |items|
    requires ScanFile(ctx, items, rests).Assembled?
    ensures var seen, early := AsSeen(ctx, items, rests), Successes(ctx, items, rests);
            var r := ScanFile(ctx, items[..k], rests[..k]);
            && AllParsed(seen) && Scan(ctx, seen, early).Assembled? && r.Assembled?
            && Extends(r.st.symbols, Scan(ctx, seen, early).st.symbols) && r.st.loc == Addrs(ctx, seen, early)[k]
  {
    hide Scan, ScanFile, NoRedefine, AsSeen, Successes, Extends, Parsed;
    var seen, early := AsSeen(ctx, items, rests), Successes(ctx, items, rests);
    FileIsProgram(ctx, items, rests);
    ScanJoins(ctx, items, rests);
    ScanJoins(ctx, items[..k], rests[..k]);
    SeenFront(ctx, items, rests, k);
    ScanSame(ctx, seen[..k], early, Successes(ctx, items[..k], rests[..k]));
    ScanExtends(ctx, seen, early, k);
    AddrIs(ctx, seen, early, k);
  }

  lemma FinalTableExtends(ctx: Context, items: seq<Item>, early: set<nat>)
    requires AllParsed(items) && NoRedefine(items) && Scan(ctx, items, early).Assembled?
    ensures Extends(Scan(ctx, items, early).st.symbols, FinalTable(ctx, items, early))
  {
    hide Scan, NoRedefine, Inv, Pending, Bindings, BindFreeMem, Extends, Deferred;
    var st, addrs := Scan(ctx, items, early).st, Addrs(ctx, items, early);
    var ks := ScanInv(ctx, items, early);
    FreeMemInv(ctx, items, addrs, ks, st);
    FreeMemExtends(ctx, items, addrs, ks, st);
    FreeMemKeeps(st);
    PendingNew(ctx, items, addrs, ks, BindFreeMem(st), st.unresolved);
    BindingsExtend(ctx, BindFreeMem(st).symbols, st.unresolved);
    ExtendsTransitive(st.symbols, BindFreeMem(st).symbols, FinalTable(ctx, items, early));
  }

  lemma FreeMemKeeps(st: Asm)
    ensures BindFreeMem(st).unresolved == st.unresolved
  {
  }

  /** An operand that the first attempt has settled raises no more questions. */
  lemma SucceededReady(ctx: Context, items: seq<Item>, rests: seq<string>, k: nat)
    requires AllParsed(items) && NoRedefine(items) && |rests| == |items| && k in Successes(ctx, items, rests)
    requires ScanFile(ctx, items, rests).Assembled?
    ensures var seen, early := AsSeen(ctx, items, rests), Successes(ctx, items, rests);
            && AllParsed(seen) && Scan(ctx, seen, early).Assembled? && FixOf(seen[k]).Some?
            && Evaluable(ctx.scan, FixOf(seen[k]).value.1, Available(ctx.scan, seen, early, k))
            && FitsUnder(ctx, FinalTable(ctx, seen, early), seen[k], Addrs(ctx, seen, early)[k])
  {
    hide Scan, ScanFile, NoRedefine, Extends, Parsed, Evaluable, Value, Known, HasDomain, Identifiers, FinalTable,
         Addrs, Defined, Fits, WithText, Apply;
    var seen, early := AsSeen(ctx, items, rests), Successes(ctx, items, rests);
    var r, text := ScanFile(ctx, items[..k], rests[..k]), SeenOf(items[k], rests[k]);
    ReachedExtends(ctx, items, rests, k);
    ReachedDomain(ctx, items, rests, k);
    WithTextKeeps(items[k], text);
    ValueInDomain(ctx, r.st.symbols, KnownBefore(ctx, items, rests, k), text);
    KnownGrows(ctx.scan, seen, early, k);
    EvaluableGrows(ctx.scan, text, KnownBefore(ctx, items, rests, k), Available(ctx.scan, seen, early, k));
    FileIsProgram(ctx, items, rests);
    FinalTableExtends(ctx, seen, early);
    ExtendsTransitive(r.st.symbols, Scan(ctx, seen, early).st.symbols, FinalTable(ctx, seen, early));
    ValueMonotone(ctx, r.st.symbols, FinalTable(ctx, seen, early), text);
    AppliedFits(r.st, seen[k], r.st.loc, Value(ctx, r.st.symbols, text).value);
  }

  lemma EvaluableGrows(scan: EscapeScanner, text: string, names: set<string>, names': set<string>)
    requires Evaluable(scan, text, names) && names <= names'
    ensures Evaluable(scan, text, names')
  {
    hide IsExpression, NamesIn;
  }

  lemma AppliedFits(st: Asm, item: Item, a: nat, v: int)
    requires FixOf(item).Some? && Apply(st, FixupOf(item, a), v).Some?
    ensures Fits(item, a, v)
  {
    hide Bitwise, Bind, OffsetBits;
  }

  /** Every file whose first phase succeeds: it assembles if and only if each operand whose first attempt
      failed is by itself an expression over the names of the first phase, FREE_MEM and the definitions on
      earlier lines, and its value fits. */
  lemma FileExactly(ctx: Context, items: seq<Item>, rests: seq<string>)
    requires AllParsed(items) && NoRedefine(items) && |rests| == |items| && ScanFile(ctx, items, rests).Assembled?
    ensures var seen, early := AsSeen(ctx, items, rests), Successes(ctx, items, rests);
            && AllParsed(seen) && Scan(ctx, seen, early).Assembled?
            && (AssembleFile(ctx, items, rests).Assembled? <==>
                forall k: nat :: k < |items| && FixOf(items[k]).Some? && k !in early ==>
                  && Evaluable(ctx.scan, FixOf(items[k]).value.1, Available(ctx.scan, seen, early, k))
                  && FitsUnder(ctx, FinalTable(ctx, seen, early), items[k], Addrs(ctx, seen, early)[k]))
  {
    hide Scan, ScanFile, NoRedefine, Evaluable, FinalTable, Addrs, Assemble, AssembleFile, Available, FitsUnder, FixOf,
         Succeeds;
    var seen, early := AsSeen(ctx, items, rests), Successes(ctx, items, rests);
    FileIsProgram(ctx, items, rests);
    ScanJoins(ctx, items, rests);
    AssemblesExactly(ctx, seen, early);
    forall k: nat | k < |items|
      ensures k !in early ==> seen[k] == items[k]
      ensures k in early ==>
                && FixOf(seen[k]).Some?
                && Evaluable(ctx.scan, FixOf(seen[k]).value.1, Available(ctx.scan, seen, early, k))
                && FitsUnder(ctx, FinalTable(ctx, seen, early), seen[k], Addrs(ctx, seen, early)[k])
    {
      if k in early {
        SucceededReady(ctx, items, rests, k);
      }
    }
  }

  /** The image of every file that assembles: the encoding of every line at its address under the final
      symbol table, with the operands as seen, and zeros everywhere else. */
  lemma FileImage(ctx: Context, items: seq<Item>, rests: seq<string>)
    requires AllParsed(items) && NoRedefine(items) && |rests| == |items| && AssembleFile(ctx, items, rests).Assembled?
    ensures var seen, st := AsSeen(ctx, items, rests), AssembleFile(ctx, items, rests).st;
            && AllParsed(seen)
            && var addrs := Addrs(ctx, seen, Successes(ctx, items, rests));
               && AllLegal(seen) && Ordered(seen, addrs, st.loc) && BlankElsewhere(seen, addrs, st.rom)
               && forall k :: 0 <= k < |items| ==> Finished(ctx, st, seen[k], addrs[k])
  {
    hide Assemble, AssembleFile, NoRedefine, AsSeen, Successes, Addrs;
    FileIsProgram(ctx, items, rests);
    ImageIsEncoding(ctx, AsSeen(ctx, items, rests), Successes(ctx, items, rests));
  }
}
