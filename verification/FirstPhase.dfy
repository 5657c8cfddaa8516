/**
 When the first phase of the assembler succeeds: exactly when every line it reaches can be taken in, which
 can be said of each line by its names and by where the program has come to.
 */
module FirstPhase {
  import opened Lexer
  import opened ShuntingYard
  import opened SymTab
  import opened Isa
  import opened Processor
  import opened Words
  import opened Assembler
  import opened AssemblerRun
  import opened AssemblerTheorems
  import opened SymbolsGrow
  import opened Definitions
  import opened Files

  predicate Within(r: Outcome<int>, low: int, high: int) {
    r.Ok? ==> low <= r.value <= high
  }

  /** The line can be taken in where st stands and these names are bound: sizes and locations are expressions
      over the names and in range, the line fits the ROM, and the accumulator is not moved to itself. */
  predicate Goes(ctx: Context, st: Asm, item: Item, names: set<string>) {
    match item
    case Static(_, text) =>
      Evaluable(ctx.scan, text, names) && Within(Value(ctx, st.symbols, text), 0, 0xFF00 - st.ramLoc)
    case MemLoc(text) =>
      Evaluable(ctx.scan, text, names) && Within(Value(ctx, st.symbols, text), st.ramLoc + 1, 0xFFFF)
    case Loc(text) =>
      Evaluable(ctx.scan, text, names) && Within(Value(ctx, st.symbols, text), st.loc + 1, 0xFFFF)
    case Register(_, reg) => reg != Acc && st.loc < ROM_SIZE
    case _ => IsDirect(item) || st.loc + Size(item) <= ROM_SIZE
  }

  lemma LineGoes(ctx: Context, st: Asm, item: Item, rest: Option<string>, names: set<string>)
    requires Parsed(item) && Identifiers(st.symbols) && HasDomain(st.symbols, names)
    ensures Line(ctx, st, item, rest).Assembled? <==> Goes(ctx, st, item, names)
  {
    hide Identifiers, HasDomain, Evaluable, Value, AddUnresolved, Opcode, EmitPair, EmitAll, Bind, MoveBytes, SwapBytes;
    match item
    case Static(_, text) => ValueInDomain(ctx, st.symbols, names, text);
    case MemLoc(text) => ValueInDomain(ctx, st.symbols, names, text);
    case Loc(text) => ValueInDomain(ctx, st.symbols, names, text);
    case _ =>
  }

  /** Line k goes, if it is reached. */
  ghost predicate GoesAt(ctx: Context, items: seq<Item>, early: set<nat>, k: nat)
    requires AllParsed(items) && k < |items|
  {
    var r := Scan(ctx, items[..k], early);
    r.Assembled? ==> Goes(ctx, r.st, items[k], Known(ctx.scan, items[..k], early))
  }

  /** The first phase succeeds if and only if every line that is reached goes. */
  lemma {:induction false} ScansExactly(ctx: Context, items: seq<Item>, early: set<nat>)
    requires AllParsed(items) && NoRedefine(items)
    ensures Scan(ctx, items, early).Assembled? <==> forall k: nat :: k < |items| ==> GoesAt(ctx, items, early, k)
    decreases |items|
  {
    hide Line, NoRedefine, Parsed, Goes, Known, Identifiers, HasDomain, Start;
    if items != [] {
      var n := |items| - 1;
      NoRedefineFront(items);
      ScansExactly(ctx, items[..n], early);
      assert forall k: nat :: k < n ==> items[..n][..k] == items[..k];
      var r := Scan(ctx, items[..n], early);
      if r.Assembled? {
        ScanIdentifiers(ctx, items[..n], early);
        KnownIsDomain(ctx, items[..n], early);
        LineGoes(ctx, r.st, items[n], Tried(n in early), Known(ctx.scan, items[..n], early));
        assert Scan(ctx, items, early).Assembled? <==> GoesAt(ctx, items, early, n);
        forall k: nat | k < n
          ensures GoesAt(ctx, items, early, k)
        {
          assert GoesAt(ctx, items[..n], early, k);
        }
      } else {
        var k: nat :| k < n && !GoesAt(ctx, items[..n], early, k);
        assert !GoesAt(ctx, items, early, k);
      }
    }
  }

  /** Line k of the file goes, if it is reached. */
  ghost predicate FileGoesAt(ctx: Context, items: seq<Item>, rests: seq<string>, k: nat)
    requires AllParsed(items) && |rests| == |items| && k < |items|
  {
    var r := ScanFile(ctx, items[..k], rests[..k]);
    r.Assembled? ==> Goes(ctx, r.st, items[k], KnownBefore(ctx, items, rests, k))
  }

  lemma KnownBeforeFront(ctx: Context, items: seq<Item>, rests: seq<string>, n: nat, k: nat)
    requires AllParsed(items) && |rests| == |items| && k <= n <= |items|
    ensures KnownBefore(ctx, items[..n], rests[..n], k) == KnownBefore(ctx, items, rests, k)
  {
    hide AsSeen, Successes, Known;
    SeenFront(ctx, items, rests, n);
    assert AsSeen(ctx, items, rests)[..n][..k] == AsSeen(ctx, items, rests)[..k];
    KnownSame(ctx.scan, AsSeen(ctx, items, rests)[..k],
              Successes(ctx, items, rests), Successes(ctx, items[..n], rests[..n]));
  }

  /** The same for every file, with the names that are bound by then. */
  lemma {:induction false} FileScansExactly(ctx: Context, items: seq<Item>, rests: seq<string>)
    requires AllParsed(items) && NoRedefine(items) && |rests| == |items|
    ensures ScanFile(ctx, items, rests).Assembled? <==>
            forall k: nat :: k < |items| ==> FileGoesAt(ctx, items, rests, k)
    decreases |items|
  {
    hide Line, NoRedefine, Parsed, Goes, KnownBefore, Identifiers, HasDomain, Start;
    if items != [] {
      var n := |items| - 1;
      NoRedefineFront(items);
      FileScansExactly(ctx, items[..n], rests[..n]);
      forall k: nat | k < n
        ensures FileGoesAt(ctx, items[..n], rests[..n], k) == FileGoesAt(ctx, items, rests, k)
      {
        assert items[..n][..k] == items[..k] && rests[..n][..k] == rests[..k];
        KnownBeforeFront(ctx, items, rests, n, k);
      }
      var r := ScanFile(ctx, items[..n], rests[..n]);
      if r.Assembled? {
        ReachedDomain(ctx, items, rests, n);
        LineGoes(ctx, r.st, items[n], Some(rests[n]), KnownBefore(ctx, items, rests, n));
        assert ScanFile(ctx, items, rests).Assembled? <==> FileGoesAt(ctx, items, rests, n);
        forall k: nat | k < n
          ensures FileGoesAt(ctx, items, rests, k)
        {
          assert FileGoesAt(ctx, items[..n], rests[..n], k);
        }
      } else {
        var k: nat :| k < n && !FileGoesAt(ctx, items[..n], rests[..n], k);
        assert !FileGoesAt(ctx, items, rests, k);
      }
    }
  }
}
