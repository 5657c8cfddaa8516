/**
 The symbol table of an assembly only grows, and only by identifiers.
 */
module SymbolsGrow {
  import opened Lexer
  import opened ShuntingYard
  import opened SymTab
  import opened Words
  import opened Processor
  import opened Assembler
  import opened Encoding
  import opened Image
  import opened AssemblerRun
  import opened AssemblerTheorems

  lemma ExtendsTransitive(a: seq<Symbol>, b: seq<Symbol>, c: seq<Symbol>)
    requires Extends(a, b) && Extends(b, c)
    ensures Extends(a, c)
  {
    hide IsIdentifier;
    forall k | 0 <= k < |a|
      ensures a[k] in c
    {
      var j :| 0 <= j < |b| && b[j] == a[k];
    }
    forall k | 0 <= k < |c| && c[k] !in a
      ensures IsIdentifier(c[k].name)
    {
      if c[k] in b {
        var j :| 0 <= j < |b| && b[j] == c[k];
      }
    }
  }

  lemma IdentifiersGrow(a: seq<Symbol>, b: seq<Symbol>)
    requires Identifiers(a) && Extends(a, b)
    ensures Identifiers(b)
  {
    hide IsIdentifier;
  }

  lemma StartIdentifiers()
    ensures Identifiers(Start().symbols) && Extends(Start().symbols, Start().symbols)
  {
  }

  lemma InvNamed(ctx: Context, items: seq<Item>, addrs: seq<nat>, ks: seq<nat>, st: Asm)
    requires Inv(ctx, items, addrs, ks, st)
    ensures Named(items, st.symbols) && UniqueNames(st.symbols)
  {
  }

  lemma ValueMonotone(ctx: Context, small: seq<Symbol>, large: seq<Symbol>, text: string)
    requires Extends(small, large) && Value(ctx, small, text).Ok?
    ensures Value(ctx, large, text) == Value(ctx, small, text)
  {
    ParseExpMonotone(Env(small, ctx.scan), Env(large, ctx.scan), ctx.sem, text);
  }

  lemma LineExtends(ctx: Context, front: seq<Item>, addrs: seq<nat>, ks: seq<nat>, st: Asm, item: Item, early: bool,
                    st': Asm)
    requires Inv(ctx, front, addrs, ks, st) && Legal(item) && NoRedefine(front + [item])
    requires Line(ctx, st, item, Tried(early)) == Assembled(st')
    ensures Extends(st.symbols, st'.symbols)
  {
    hide Inv, NoRedefine, Place, Value, Named, Extends, IsIdentifier;
    InvNamed(ctx, front, addrs, ks, st);
    ExtendsSame(st.symbols);
    if DefName(item).Some? {
      NewName(front, item, st.symbols);
      if st'.symbols != st.symbols {
        var value :| st'.symbols == Bind(st.symbols, DefName(item).value, value);
        BindFresh(st.symbols, DefName(item).value, value);
      }
    } else if !IsDirect(item) {
      BlankFromInv(ctx, front, addrs, ks, st);
      PlaceResult(ctx, st, item, early);
    }
  }

  lemma ResolveExtends(ctx: Context, items: seq<Item>, addrs: seq<nat>, ks: seq<nat>, st: Asm, st': Asm)
    requires Inv(ctx, items, addrs, ks, st) && NoRedefine(items) && ks != []
    requires Resolve(ctx, st, FixupOf(items[ks[0]], addrs[ks[0]])) == Some(st')
    ensures Extends(st.symbols, st'.symbols)
  {
    hide Named, Ordered, BlankElsewhere, Value, Extends, Bitwise, IsIdentifier, Template;
    InvNumbers(ctx, items, addrs, ks, st);
    var item, a := items[ks[0]], addrs[ks[0]];
    InvNamed(ctx, items, addrs, ks, st);
    ExtendsSame(st.symbols);
    if item.Define? {
      assert LineOk(ctx, st, item, a, true);
      assert DefName(item) == Some(item.name) && Fresh(item.name);
      BindFresh(st.symbols, item.name, Value(ctx, st.symbols, item.text).value);
    }
  }

  lemma HeadIs(items: seq<Item>, addrs: seq<nat>, ks: seq<nat>, fs: seq<Fixup>)
    requires |addrs| == |items| && Numbers(items, ks) && Pending(items, addrs, ks, fs) && fs != []
    ensures ks != [] && FixOf(items[ks[0]]).Some? && fs[0] == FixupOf(items[ks[0]], addrs[ks[0]])
  {
  }

  lemma {:induction false} RestExtends(ctx: Context, items: seq<Item>, addrs: seq<nat>, ks: seq<nat>, st: Asm,
                                       fs: seq<Fixup>)
    requires Inv(ctx, items, addrs, ks, st) && NoRedefine(items) && Pending(items, addrs, ks, fs)
    requires ResolveAll(ctx, st, fs).Some?
    ensures Extends(st.symbols, ResolveAll(ctx, st, fs).value.symbols)
    decreases |fs|
  {
    hide Inv, NoRedefine, Resolve, FixOf, Extends;
    InvNumbers(ctx, items, addrs, ks, st);
    if fs == [] {
      InvNamed(ctx, items, addrs, ks, st);
      ExtendsSame(st.symbols);
    } else {
      var st' := Resolve(ctx, st, fs[0]).value;
      HeadIs(items, addrs, ks, fs);
      ResolveHead(ctx, items, addrs, ks, st, st');
      ResolveExtends(ctx, items, addrs, ks, st, st');
      PendingTail(items, addrs, ks, fs);
      RestExtends(ctx, items, addrs, ks[1..], st', fs[1..]);
      ExtendsTransitive(st.symbols, st'.symbols, ResolveAll(ctx, st, fs).value.symbols);
    }
  }

  lemma NothingScanned(ctx: Context, items: seq<Item>, early: set<nat>)
    requires AllParsed(items)
    ensures Scan(ctx, items[..0], early) == Assembled(Start())
  {
  }

  /** The first phase from line k on only adds symbols. */
  lemma {:induction false} ScanExtends(ctx: Context, items: seq<Item>, early: set<nat>, k: nat)
    requires AllParsed(items) && NoRedefine(items) && Scan(ctx, items, early).Assembled? && k <= |items|
    ensures Scan(ctx, items[..k], early).Assembled?
    ensures Extends(Scan(ctx, items[..k], early).st.symbols, Scan(ctx, items, early).st.symbols)
    decreases |items|
  {
    hide Line, NoRedefine, Inv, Pending, Unbound, FixOf, Parsed, Extends, Start, Deferred;
    if k == |items| {
      assert items[..k] == items;
      var ks := ScanInv(ctx, items, early);
      InvNamed(ctx, items, Addrs(ctx, items, early), ks, Scan(ctx, items, early).st);
      ExtendsSame(Scan(ctx, items, early).st.symbols);
    } else {
      var n := |items| - 1;
      var front, item := items[..n], items[n];
      assert items == front + [item] && front[..k] == items[..k];
      NoRedefineFront(items);
      ScanExtends(ctx, front, early, k);
      var st, st' := Scan(ctx, front, early).st, Scan(ctx, items, early).st;
      var ks := ScanInv(ctx, front, early);
      AcceptedIsLegal(ctx, st, item, n in early);
      LineExtends(ctx, front, Addrs(ctx, front, early), ks, st, item, n in early, st');
      ExtendsTransitive(Scan(ctx, items[..k], early).st.symbols, st.symbols, st'.symbols);
    }
  }

  lemma ScanIdentifiers(ctx: Context, items: seq<Item>, early: set<nat>)
    requires AllParsed(items) && NoRedefine(items) && Scan(ctx, items, early).Assembled?
    ensures Identifiers(Scan(ctx, items, early).st.symbols)
  {
    hide Scan, NoRedefine, Identifiers, Extends, Start;
    NothingScanned(ctx, items, early);
    ScanExtends(ctx, items, early, 0);
    StartIdentifiers();
    IdentifiersGrow(Start().symbols, Scan(ctx, items, early).st.symbols);
  }

  lemma FreeMemExtends(ctx: Context, items: seq<Item>, addrs: seq<nat>, ks: seq<nat>, st: Asm)
    requires Inv(ctx, items, addrs, ks, st) && Unbound(st.symbols, "FREE_MEM")
    ensures Extends(st.symbols, BindFreeMem(st).symbols) && Symbol("FREE_MEM", st.ramLoc) in BindFreeMem(st).symbols
  {
    hide Inv, Extends;
    InvNamed(ctx, items, addrs, ks, st);
    BindFresh(st.symbols, "FREE_MEM", st.ramLoc);
    assert BindFreeMem(st).symbols[|st.symbols|] == Symbol("FREE_MEM", st.ramLoc);
  }

  /** Everything bound in the first phase, and FREE_MEM, stays bound to the same value, and every name in
      the final table is an identifier. */
  lemma FinalExtends(ctx: Context, items: seq<Item>, early: set<nat>)
    requires AllParsed(items) && NoRedefine(items) && Assemble(ctx, items, early).Assembled?
    ensures var st, final := Scan(ctx, items, early).st, Assemble(ctx, items, early).st.symbols;
            && Extends(st.symbols, final) && Extends(Start().symbols, final) && Identifiers(final)
            && Symbol("FREE_MEM", st.ramLoc) in final
  {
    hide Scan, NoRedefine, Inv, Pending, Extends, Identifiers, ResolveAll, BindFreeMem, Start;
    var st, final := Scan(ctx, items, early).st, Assemble(ctx, items, early).st.symbols;
    var addrs := Addrs(ctx, items, early);
    var ks := ScanInv(ctx, items, early);
    var bound := BindFreeMem(st);
    assert bound.unresolved == st.unresolved by { FreeMemKeeps(st); }
    FreeMemInv(ctx, items, addrs, ks, st);
    FreeMemExtends(ctx, items, addrs, ks, st);
    RestExtends(ctx, items, addrs, ks, bound, st.unresolved);
    ExtendsTransitive(st.symbols, bound.symbols, final);
    NothingScanned(ctx, items, early);
    ScanExtends(ctx, items, early, 0);
    ExtendsTransitive(Start().symbols, st.symbols, final);
    StartIdentifiers();
    IdentifiersGrow(Start().symbols, final);
    assert Symbol("FREE_MEM", st.ramLoc) in final by {
      ExtendsMember(bound.symbols, final, Symbol("FREE_MEM", st.ramLoc));
    }
  }

  lemma FreeMemKeeps(st: Asm)
    ensures BindFreeMem(st).unresolved == st.unresolved
  {
  }

  lemma ExtendsMember(a: seq<Symbol>, b: seq<Symbol>, x: Symbol)
    requires Extends(a, b) && x in a
    ensures x in b
  {
    var k :| 0 <= k < |a| && a[k] == x;
  }

  /** Every name in the final table comes from a line, or is one of the assembler's own. */
  lemma FinalNamed(ctx: Context, items: seq<Item>, early: set<nat>)
    requires AllParsed(items) && NoRedefine(items) && Assemble(ctx, items, early).Assembled?
    ensures Named(items, Assemble(ctx, items, early).st.symbols)
  {
    hide Scan, NoRedefine, Inv, Pending, ResolveAll, BindFreeMem;
    var st, addrs := Scan(ctx, items, early).st, Addrs(ctx, items, early);
    var ks := ScanInv(ctx, items, early);
    assert BindFreeMem(st).unresolved == st.unresolved by { FreeMemKeeps(st); }
    FreeMemInv(ctx, items, addrs, ks, st);
    ResolveRest(ctx, items, addrs, ks, BindFreeMem(st), st.unresolved);
    InvNamed(ctx, items, addrs, [], Assemble(ctx, items, early).st);
  }

  lemma UniqueMember(symbols: seq<Symbol>, x: Symbol, y: Symbol)
    requires UniqueNames(symbols) && x in symbols && y in symbols && x.name == y.name
    ensures x == y
  {
    var i :| 0 <= i < |symbols| && symbols[i] == x;
    var j :| 0 <= j < |symbols| && symbols[j] == y;
  }
}
