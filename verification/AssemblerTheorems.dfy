/**
 Theorems about whole assemblies: what the ROM holds, and that it does not matter for the ROM when
 operands are filled in.
 */
module AssemblerTheorems {
  import opened Lexer
  import opened Assembler
  import opened Encoding
  import opened Image
  import opened AssemblerRun

  /** The address of every line: the location when the line is reached. */
  ghost function Addrs(ctx: Context, items: seq<Item>, early: set<nat>): (addrs: seq<nat>)
    requires AllParsed(items)
    ensures |addrs| == |items|
    decreases |items|
  {
    if items == [] then []
    else
      var front := items[..|items| - 1];
      var r := Scan(ctx, front, early);
      Addrs(ctx, front, early) + [if r.Assembled? then r.st.loc else 0]
  }

  lemma {:induction false} AddrIs(ctx: Context, items: seq<Item>, early: set<nat>, k: nat)
    requires AllParsed(items) && k < |items| && Scan(ctx, items[..k], early).Assembled?
    ensures Addrs(ctx, items, early)[k] == Scan(ctx, items[..k], early).st.loc
    decreases |items|
  {
    hide Scan;
    var n := |items| - 1;
    if k < n {
      assert items[..n][..k] == items[..k];
      AddrIs(ctx, items[..n], early, k);
    }
  }

  lemma NoRedefineFront(items: seq<Item>)
    requires NoRedefine(items) && items != []
    ensures NoRedefine(items[..|items| - 1])
  {
  }

  lemma LineLeavesFreeMem(ctx: Context, st: Asm, item: Item, early: bool, st': Asm)
    requires Legal(item) && Line(ctx, st, item, Tried(early)) == Assembled(st')
    requires Unbound(st.symbols, "FREE_MEM") && (DefName(item).Some? ==> Fresh(DefName(item).value))
    requires IsDirect(item) || BlankFrom(st.rom, st.loc)
    ensures Unbound(st'.symbols, "FREE_MEM")
  {
    hide Place, Direct, IsIdentifier, Placed;
    if IsDirect(item) {
      DirectLeavesFreeMem(ctx, st, item, early, st');
    } else {
      PlaceResult(ctx, st, item, early);
      PlacedKeepsSymbols(ctx, st, item, early, st');
    }
  }

  lemma PlacedKeepsSymbols(ctx: Context, st: Asm, item: Item, early: bool, st': Asm)
    requires Legal(item) && Placed(ctx, st, item, early, st')
    ensures st'.symbols == st.symbols
  {
    hide Encode, Template, Complete;
  }

  lemma DirectLeavesFreeMem(ctx: Context, st: Asm, item: Item, early: bool, st': Asm)
    requires IsDirect(item) && Direct(ctx, st, item, Tried(early)) == Assembled(st')
    requires Unbound(st.symbols, "FREE_MEM") && (DefName(item).Some? ==> Fresh(DefName(item).value))
    ensures Unbound(st'.symbols, "FREE_MEM")
  {
    hide Value, IsIdentifier;
  }

  /** Lines whose operands are not tried at once wait. */
  ghost predicate Deferred(items: seq<Item>, early: set<nat>, ks: seq<nat>) {
    forall k: nat :: k < |items| && k !in early && FixOf(items[k]).Some? ==> k in ks
  }

  lemma DeferredLine(front: seq<Item>, item: Item, early: set<nat>, ks: seq<nat>, ks': seq<nat>)
    requires Deferred(front, early, ks) && forall k :: k in ks ==> k in ks'
    requires |front| !in early && FixOf(item).Some? ==> |front| in ks'
    ensures Deferred(front + [item], early, ks')
  {
    hide FixOf;
    assert forall k: nat :: k < |front| ==> (front + [item])[k] == front[k];
  }

  lemma ScanStep(ctx: Context, items: seq<Item>, early: set<nat>)
    requires AllParsed(items) && items != [] && Scan(ctx, items, early).Assembled?
    ensures var n, r := |items| - 1, Scan(ctx, items[..|items| - 1], early);
            && r.Assembled? && Line(ctx, r.st, items[n], Tried(n in early)) == Scan(ctx, items, early)
            && Addrs(ctx, items, early) == Addrs(ctx, items[..n], early) + [r.st.loc]
  {
    hide Line, Parsed;
  }

  lemma NothingInv(ctx: Context, items: seq<Item>, early: set<nat>)
    requires items == []
    ensures var st := Scan(ctx, items, early).st;
            && Scan(ctx, items, early).Assembled? && Inv(ctx, items, Addrs(ctx, items, early), [], st)
            && Pending(items, Addrs(ctx, items, early), [], st.unresolved) && Unbound(st.symbols, "FREE_MEM")
    ensures Deferred(items, early, [])
  {
    StartInv(ctx);
  }

  /** The first phase, from the first line to the last. */
  lemma {:induction false} ScanInv(ctx: Context, items: seq<Item>, early: set<nat>) returns (ks: seq<nat>)
    requires AllParsed(items) && NoRedefine(items) && Scan(ctx, items, early).Assembled?
    ensures var st := Scan(ctx, items, early).st;
            var addrs := Addrs(ctx, items, early);
            && Inv(ctx, items, addrs, ks, st) && Pending(items, addrs, ks, st.unresolved)
            && Unbound(st.symbols, "FREE_MEM")
    ensures Deferred(items, early, ks)
    decreases |items|
  {
    hide Line, Scan, Addrs, Inv, Pending, NoRedefine, Unbound, FixOf, Deferred, Parsed;
    if items == [] {
      ks := [];
      NothingInv(ctx, items, early);
    } else {
      var n := |items| - 1;
      var front, item := items[..n], items[n];
      assert items == front + [item];
      NoRedefineFront(items);
      ScanStep(ctx, items, early);
      var st, st' := Scan(ctx, front, early).st, Scan(ctx, items, early).st;
      var before := ScanInv(ctx, front, early);
      AcceptedIsLegal(ctx, st, item, n in early);
      ks := ScanLine(ctx, front, Addrs(ctx, front, early), before, st, item, n in early, st');
      DeferredLine(front, item, early, before, ks);
    }
  }

  lemma ScanLine(ctx: Context, front: seq<Item>, addrs: seq<nat>, ks: seq<nat>, st: Asm, item: Item, early: bool,
                 st': Asm) returns (ks': seq<nat>)
    requires Inv(ctx, front, addrs, ks, st) && Pending(front, addrs, ks, st.unresolved) &&
             Unbound(st.symbols, "FREE_MEM")
    requires Legal(item) && NoRedefine(front + [item]) && Line(ctx, st, item, Tried(early)) == Assembled(st')
    ensures Inv(ctx, front + [item], addrs + [st.loc], ks', st')
    ensures Pending(front + [item], addrs + [st.loc], ks', st'.unresolved) && Unbound(st'.symbols, "FREE_MEM")
    ensures !early && FixOf(item).Some? ==> |front| in ks'
    ensures forall k :: k in ks ==> k in ks'
  {
    hide Inv, Line, Size, FixOf, Fresh, Unbound, Pending;
    InvNumbers(ctx, front, addrs, ks, st);
    var waiting := AddLine(ctx, front, addrs, ks, st, item, early, st');
    ks' := if waiting then ks + [|front|] else ks;
    PendingAppend(front, addrs, ks, st.unresolved, item, st.loc, waiting);
    assert (front + [item])[|front|] == item;
    BlankFromInv(ctx, front, addrs, ks, st);
    LineLeavesFreeMem(ctx, st, item, early, st');
    assert waiting ==> ks'[|ks|] == |front|;
  }

  /** The image theorem: a program that assembles leaves behind the encoding of every line, at the
      line's own address and with the values of all expressions under the final symbol table, and
      zeros everywhere else. */
  lemma ImageIsEncoding(ctx: Context, items: seq<Item>, early: set<nat>)
    requires AllParsed(items) && NoRedefine(items) && Assemble(ctx, items, early).Assembled?
    ensures var st := Assemble(ctx, items, early).st;
            var addrs := Addrs(ctx, items, early);
            && AllLegal(items) && Ordered(items, addrs, st.loc) && BlankElsewhere(items, addrs, st.rom)
            && UniqueNames(st.symbols)
            && forall k :: 0 <= k < |items| ==> Finished(ctx, st, items[k], addrs[k])
  {
    hide Finished, Waiting, BlankElsewhere, NoRedefine, Pending;
    var addrs := Addrs(ctx, items, early);
    var ks := ScanInv(ctx, items, early);
    var st := Scan(ctx, items, early).st;
    FreeMemInv(ctx, items, addrs, ks, st);
    ResolveRest(ctx, items, addrs, ks, BindFreeMem(st), st.unresolved);
    var st' := Assemble(ctx, items, early).st;
    forall k | 0 <= k < |items|
      ensures Finished(ctx, st', items[k], addrs[k])
    {
      assert LineOk(ctx, st', items[k], addrs[k], k in []);
    }
  }
}
