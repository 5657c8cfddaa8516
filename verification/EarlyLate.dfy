/**
 Filling in operands as soon as possible, as addUnresolved does, gives the same ROM as filling all of
 them in at the end, whenever the latter succeeds. The other direction does not hold.
 */
module EarlyLate {
  import opened Lexer
  import opened ShuntingYard
  import opened SymTab
  import opened Processor
  import opened Assembler
  import opened Encoding
  import opened Image
  import opened AssemblerRun
  import opened AssemblerTheorems
  import opened Names
  import opened SymbolsGrow
  import opened StaticMemory

  /** The same new name on both sides. */
  lemma BindBoth(small: seq<Symbol>, large: seq<Symbol>, name: string, value: int)
    requires Extends(small, large) && UniqueNames(small) && Unbound(large, name) && IsIdentifier(name)
    ensures Extends(Bind(small, name, value), Bind(large, name, value))
  {
    hide IsIdentifier;
    var x := Symbol(name, value);
    assert Unbound(small, name) by {
      forall i | 0 <= i < |small|
        ensures small[i].name != name
      {
        assert small[i] in large;
      }
    }
    BindFresh(small, name, value);
    BindFresh(large, name, value);
    forall k | 0 <= k < |small + [x]|
      ensures (small + [x])[k] in large + [x]
    {
      if k < |small| {
        assert small[k] in large;
      }
    }
    forall k | 0 <= k < |large + [x]| && (large + [x])[k] !in small + [x]
      ensures IsIdentifier((large + [x])[k].name)
    {
      assert k < |large| ==> large[k] !in small;
    }
  }

  /** A new name on the larger side only. */
  lemma BindLarge(small: seq<Symbol>, large: seq<Symbol>, name: string, value: int)
    requires Extends(small, large) && Unbound(large, name) && IsIdentifier(name)
    ensures Extends(small, Bind(large, name, value))
  {
    hide IsIdentifier;
    var x := Symbol(name, value);
    BindFresh(large, name, value);
    forall k | 0 <= k < |small|
      ensures small[k] in large + [x]
    {
      assert small[k] in large;
    }
    forall k | 0 <= k < |large + [x]| && (large + [x])[k] !in small
      ensures IsIdentifier((large + [x])[k].name)
    {
      assert k < |large| ==> large[k] !in small;
    }
  }

  /** A name that the larger side has already. */
  lemma BindSmall(small: seq<Symbol>, large: seq<Symbol>, name: string, value: int)
    requires Extends(small, large) && UniqueNames(small) && Symbol(name, value) in large
    requires Unbound(small, name) && IsIdentifier(name)
    ensures Extends(Bind(small, name, value), large)
  {
    BindFresh(small, name, value);
  }

  // ----- the first phase

  /** Two assemblers at the same place, one of which may know more names. */
  ghost predicate Ahead(d: Asm, e: Asm) {
    e.loc == d.loc && e.ramLoc == d.ramLoc && Extends(d.symbols, e.symbols)
  }

  lemma DirectParallel(ctx: Context, front: seq<Item>, d: Asm, e: Asm, item: Item, early: bool)
    requires IsDirect(item) && Ahead(d, e) && UniqueNames(d.symbols) && Named(front, e.symbols) &&
             NoRedefine(front + [item])
    requires Line(ctx, d, item, None).Assembled?
    ensures var r := Line(ctx, e, item, Tried(early));
            r.Assembled? && Ahead(Line(ctx, d, item, None).st, r.st)
  {
    hide NoRedefine, Extends, Named, Value, IsIdentifier;
    if DefName(item).Some? {
      NewName(front, item, e.symbols);
    }
    match item
    case Label(name) => BindBoth(d.symbols, e.symbols, name, d.loc);
    case Define(name, text) =>
      var r := Value(ctx, e.symbols, text);
      if r.Ok? {
        BindLarge(d.symbols, e.symbols, name, r.value);
      }
    case Assert(_) =>
    case Echo(_) =>
    case Static(name, text) =>
      ValueMonotone(ctx, d.symbols, e.symbols, text);
      BindBoth(d.symbols, e.symbols, name, d.ramLoc);
    case MemLoc(text) => ValueMonotone(ctx, d.symbols, e.symbols, text);
    case Loc(text) => ValueMonotone(ctx, d.symbols, e.symbols, text);
  }

  lemma PlacedParallel(ctx: Context, d: Asm, e: Asm, item: Item, early: bool)
    requires !IsDirect(item) && Ahead(d, e) && BlankFrom(d.rom, d.loc) && BlankFrom(e.rom, e.loc) && Legal(item)
    requires Line(ctx, d, item, None).Assembled?
    ensures var r := Line(ctx, e, item, Tried(early));
            r.Assembled? && Ahead(Line(ctx, d, item, None).st, r.st)
  {
    hide Place, Extends, Encode;
    PlaceResult(ctx, d, item, false);
    PlaceResult(ctx, e, item, early);
  }

  lemma {:induction false} ScanParallel(ctx: Context, items: seq<Item>, early: set<nat>)
    requires AllParsed(items) && NoRedefine(items) && Scan(ctx, items, {}).Assembled?
    ensures Scan(ctx, items, early).Assembled? && Ahead(Scan(ctx, items, {}).st, Scan(ctx, items, early).st)
    ensures Addrs(ctx, items, early) == Addrs(ctx, items, {})
    decreases |items|
  {
    hide Line, NoRedefine, Ahead, Inv, Pending, Unbound, FixOf, Start, Parsed;
    if items != [] {
      var n := |items| - 1;
      var front, item := items[..n], items[n];
      assert items == front + [item];
      NoRedefineFront(items);
      ScanParallel(ctx, front, early);
      var d, e := Scan(ctx, front, {}).st, Scan(ctx, front, early).st;
      var kd := ScanInv(ctx, front, {});
      var ke := ScanInv(ctx, front, early);
      AcceptedIsLegal(ctx, d, item, false);
      LineParallel(ctx, front, Addrs(ctx, front, {}), kd, Addrs(ctx, front, early), ke, d, e, item, n in early);
      AheadLoc(d, e);
      assert Addrs(ctx, items, early) == Addrs(ctx, front, early) + [e.loc];
      assert Addrs(ctx, items, {}) == Addrs(ctx, front, {}) + [d.loc];
    } else {
      AheadStart();
    }
  }

  lemma AheadStart()
    ensures Ahead(Start(), Start())
  {
    ExtendsSame(Start().symbols);
  }

  lemma AheadLoc(d: Asm, e: Asm)
    requires Ahead(d, e)
    ensures d.loc == e.loc
  {
  }

  lemma LineParallel(ctx: Context, front: seq<Item>, ad: seq<nat>, kd: seq<nat>, ae: seq<nat>, ke: seq<nat>, d: Asm,
                     e: Asm, item: Item, early: bool)
    requires Inv(ctx, front, ad, kd, d) && Inv(ctx, front, ae, ke, e) && Ahead(d, e)
    requires Legal(item) && NoRedefine(front + [item]) && Line(ctx, d, item, None).Assembled?
    ensures var r := Line(ctx, e, item, Tried(early));
            r.Assembled? && Ahead(Line(ctx, d, item, None).st, r.st)
  {
    hide Line, NoRedefine, Ahead, BlankElsewhere, Ordered, Numbers, LineOk;
    BlankFromInv(ctx, front, ad, kd, d);
    BlankFromInv(ctx, front, ae, ke, e);
    if IsDirect(item) {
      DirectParallel(ctx, front, d, e, item, early);
    } else {
      PlacedParallel(ctx, d, e, item, early);
    }
  }

  // ----- the second phase

  ghost predicate Subset(ke: seq<nat>, kd: seq<nat>) {
    forall k: nat :: k in ke ==> k in kd
  }

  /** The head of the longer list is the head of the shorter one, or not in it. */
  lemma Heads(items: seq<Item>, kd: seq<nat>, ke: seq<nat>)
    requires Numbers(items, kd) && Numbers(items, ke) && Subset(ke, kd) && kd != []
    ensures if ke != [] && ke[0] == kd[0] then Subset(ke[1..], kd[1..])
            else kd[0] !in ke && Subset(ke, kd[1..])
  {
    hide FixOf;
    TailNumbers(items, kd);
    if ke != [] {
      TailNumbers(items, ke);
      if kd[0] in ke {
        var i :| 0 <= i < |ke| && ke[i] == kd[0];
        assert ke[0] in ke;
        var j :| 0 <= j < |kd| && kd[j] == ke[0];
      }
    }
  }

  /** Both sides resolve the same fixup. */
  lemma ResolveBoth(ctx: Context, items: seq<Item>, n: nat, a: nat, d: Asm, e: Asm, d': Asm)
    requires NoRedefine(items) && n < |items| && Legal(items[n]) && FixOf(items[n]).Some?
    requires UniqueNames(d.symbols) && Extends(d.symbols, e.symbols) && Waiting(e, items[n], a)
    requires Resolve(ctx, d, FixupOf(items[n], a)) == Some(d')
    ensures Resolve(ctx, e, FixupOf(items[n], a)).Some?
    ensures Extends(d'.symbols, Resolve(ctx, e, FixupOf(items[n], a)).value.symbols)
  {
    hide Value, Extends, IsIdentifier, Bitwise, Template;
    var item := items[n];
    var text := FixOf(item).value.1;
    ValueMonotone(ctx, d.symbols, e.symbols, text);
    if item.Define? {
      assert DefName(item) == Some(item.name) && Fresh(item.name);
      BindBoth(d.symbols, e.symbols, item.name, Value(ctx, d.symbols, text).value);
    }
  }

  /** One side resolves what the other has resolved before. */
  lemma ResolveSmall(ctx: Context, items: seq<Item>, n: nat, a: nat, d: Asm, e: Asm, d': Asm)
    requires NoRedefine(items) && n < |items| && Legal(items[n]) && FixOf(items[n]).Some?
    requires UniqueNames(d.symbols) && Extends(d.symbols, e.symbols)
    requires Waiting(d, items[n], a) && Finished(ctx, e, items[n], a)
    requires Resolve(ctx, d, FixupOf(items[n], a)) == Some(d')
    ensures Extends(d'.symbols, e.symbols)
  {
    hide Value, Extends, IsIdentifier, Bitwise, Template, Encode;
    var item := items[n];
    var text := FixOf(item).value.1;
    ValueMonotone(ctx, d.symbols, e.symbols, text);
    if item.Define? {
      assert DefName(item) == Some(item.name) && Fresh(item.name);
      BindSmall(d.symbols, e.symbols, item.name, Value(ctx, d.symbols, text).value);
    }
  }

  lemma {:induction false} ResolveParallel(ctx: Context, items: seq<Item>, addrs: seq<nat>,
      kd: seq<nat>, ke: seq<nat>, d: Asm, e: Asm, fd: seq<Fixup>, fe: seq<Fixup>)
    requires NoRedefine(items) && Inv(ctx, items, addrs, kd, d) && Inv(ctx, items, addrs, ke, e)
    requires Pending(items, addrs, kd, fd) && Pending(items, addrs, ke, fe)
    requires Subset(ke, kd) && Extends(d.symbols, e.symbols) && ResolveAll(ctx, d, fd).Some?
    ensures ResolveAll(ctx, e, fe).Some?
    ensures Extends(ResolveAll(ctx, d, fd).value.symbols, ResolveAll(ctx, e, fe).value.symbols)
    decreases |fd|
  {
    hide NoRedefine, Resolve, Ordered, BlankElsewhere, Numbers, Extends, FixOf, Subset, Legal, Waiting, Finished;
    InvNumbers(ctx, items, addrs, kd, d);
    InvNumbers(ctx, items, addrs, ke, e);
    if fd == [] {
      assert kd == [];
      assert ke == [] by { EmptySubset(ke); }
    } else {
      var n := kd[0];
      HeadInRange(items, kd);
      var a := addrs[n];
      var d' := Resolve(ctx, d, fd[0]).value;
      assert fd[0] == FixupOf(items[n], a);
      ResolveHead(ctx, items, addrs, kd, d, d');
      PendingTail(items, addrs, kd, fd);
      Heads(items, kd, ke);
      assert LineOk(ctx, d, items[n], a, true);
      assert UniqueNames(d.symbols) by { NamedUnique(items, d.symbols); }
      if ke != [] && ke[0] == n {
        assert LineOk(ctx, e, items[n], a, true);
        ResolveBoth(ctx, items, n, a, d, e, d');
        var e' := Resolve(ctx, e, fe[0]).value;
        ResolveHead(ctx, items, addrs, ke, e, e');
        PendingTail(items, addrs, ke, fe);
        ResolveParallel(ctx, items, addrs, kd[1..], ke[1..], d', e', fd[1..], fe[1..]);
      } else {
        assert LineOk(ctx, e, items[n], a, false);
        ResolveSmall(ctx, items, n, a, d, e, d');
        ResolveParallel(ctx, items, addrs, kd[1..], ke, d', e, fd[1..], fe);
      }
    }
  }

  lemma EmptySubset(ke: seq<nat>)
    requires Subset(ke, [])
    ensures ke == []
  {
    HeadIn(ke);
  }

  lemma HeadIn(ks: seq<nat>)
    ensures ks != [] ==> ks[0] in ks
  {
  }

  lemma HeadInRange(items: seq<Item>, ks: seq<nat>)
    requires Numbers(items, ks) && ks != []
    ensures ks[0] < |items| && FixOf(items[ks[0]]).Some?
  {
  }

  // ----- the same ROM

  lemma SameBytes(ctx: Context, d: Asm, e: Asm, item: Item, a: nat, x: nat)
    requires Legal(item) && Finished(ctx, d, item, a) && Finished(ctx, e, item, a)
    requires Extends(d.symbols, e.symbols) && x < ROM_SIZE && Covers(item, a, x)
    ensures e.rom[x] == d.rom[x]
  {
    hide Value, Extends;
    if FixOf(item).None? {
      var bs := Encode(item, a, 0);
      assert d.rom[a + (x - a)] == bs[x - a] == e.rom[a + (x - a)];
    } else {
      ValueMonotone(ctx, d.symbols, e.symbols, FixOf(item).value.1);
      var bs := Encode(item, a, Value(ctx, d.symbols, FixOf(item).value.1).value);
      assert d.rom[a + (x - a)] == bs[x - a] == e.rom[a + (x - a)];
    }
  }

  /** Early and late resolution agree: if a program assembles with every fixup and every definition
      left to the end, then it assembles whichever lines are tried at once, to the same ROM, the same
      addresses, and the same symbols, possibly in another order. */
  lemma EarlyAgreesWithLate(ctx: Context, items: seq<Item>, early: set<nat>)
    requires AllParsed(items) && NoRedefine(items) && Assemble(ctx, items, {}).Assembled?
    ensures var d, e := Assemble(ctx, items, {}), Assemble(ctx, items, early);
            && e.Assembled? && e.st.rom == d.st.rom
            && Addrs(ctx, items, early) == Addrs(ctx, items, {})
            && forall x :: x in e.st.symbols <==> x in d.st.symbols
  {
    hide NoRedefine, Inv, Pending, Extends, Numbers, ResolveAll, Addrs, Scan, FixOf, Finished, Covers, BlankElsewhere;
    var addrs := Addrs(ctx, items, {});
    ScanParallel(ctx, items, early);
    var d, e := Scan(ctx, items, {}).st, Scan(ctx, items, early).st;
    var kd := ScanInv(ctx, items, {});
    var ke := ScanInv(ctx, items, early);
    InvNumbers(ctx, items, addrs, ke, e);
    FreeMemInv(ctx, items, addrs, kd, d);
    FreeMemInv(ctx, items, addrs, ke, e);
    assert Subset(ke, kd) by { AllIn(items, ke, kd); }
    assert Extends(BindFreeMem(d).symbols, BindFreeMem(e).symbols) by {
      assert UniqueNames(d.symbols) by { InvUnique(ctx, items, addrs, kd, d); }
      BindBoth(d.symbols, e.symbols, "FREE_MEM", d.ramLoc);
    }
    ResolveParallel(ctx, items, addrs, kd, ke, BindFreeMem(d), BindFreeMem(e), d.unresolved, e.unresolved);
    SameRom(ctx, items, early);
    SameSymbols(ctx, items, early);
  }

  /** Every name a line defines is bound at the end. */
  lemma DefinedBound(ctx: Context, items: seq<Item>, early: set<nat>, k: nat) returns (x: Symbol)
    requires AllParsed(items) && NoRedefine(items) && Assemble(ctx, items, early).Assembled?
    requires k < |items| && DefName(items[k]).Some?
    ensures x in Assemble(ctx, items, early).st.symbols && Some(x.name) == DefName(items[k])
  {
    hide Assemble, NoRedefine, Addrs, Ordered, BlankElsewhere, Holds, Value;
    if items[k].Static? {
      x := StaticBound(ctx, items, early, k);
    } else {
      ImageIsEncoding(ctx, items, early);
      var st, a := Assemble(ctx, items, early).st, Addrs(ctx, items, early)[k];
      assert Finished(ctx, st, items[k], a);
      x := if items[k].Label? then Symbol(items[k].name, a)
           else Symbol(items[k].name, Value(ctx, st.symbols, items[k].text).value);
    }
  }

  /** The larger of two final tables holds nothing more. */
  lemma NothingMore(ctx: Context, items: seq<Item>, early: set<nat>, x: Symbol)
    requires AllParsed(items) && NoRedefine(items)
    requires Assemble(ctx, items, {}).Assembled? && Assemble(ctx, items, early).Assembled?
    requires Extends(Assemble(ctx, items, {}).st.symbols, Assemble(ctx, items, early).st.symbols)
    requires x in Assemble(ctx, items, early).st.symbols
    ensures x in Assemble(ctx, items, {}).st.symbols
  {
    hide ResolveAll, Scan, NoRedefine, Extends, DefName, IsIdentifier, UniqueNames;
    var d, e := Assemble(ctx, items, {}).st.symbols, Assemble(ctx, items, early).st.symbols;
    FinalExtends(ctx, items, {});
    FinalExtends(ctx, items, early);
    FinalNamed(ctx, items, early);
    var i :| 0 <= i < |e| && e[i] == x;
    var y: Symbol;
    if Fresh(x.name) {
      var k :| 0 <= k < |items| && DefName(items[k]) == Some(x.name);
      y := DefinedBound(ctx, items, {}, k);
    } else if x.name == "ISR" {
      y := Symbol("ISR", ISR_ADDR);
      assert Start().symbols[0] == y;
      ExtendsMember(Start().symbols, d, y);
    } else {
      y := Symbol("FREE_MEM", Scan(ctx, items, {}).st.ramLoc);
    }
    ExtendsMember(d, e, y);
    UniqueMember(e, x, y);
  }

  lemma SameSymbols(ctx: Context, items: seq<Item>, early: set<nat>)
    requires AllParsed(items) && NoRedefine(items)
    requires Assemble(ctx, items, {}).Assembled? && Assemble(ctx, items, early).Assembled?
    requires Extends(Assemble(ctx, items, {}).st.symbols, Assemble(ctx, items, early).st.symbols)
    ensures forall x :: x in Assemble(ctx, items, early).st.symbols <==> x in Assemble(ctx, items, {}).st.symbols
  {
    hide Assemble, NoRedefine, Extends;
    var d, e := Assemble(ctx, items, {}).st.symbols, Assemble(ctx, items, early).st.symbols;
    forall x | x in e
      ensures x in d
    {
      NothingMore(ctx, items, early, x);
    }
    forall x | x in d
      ensures x in e
    {
      ExtendsMember(d, e, x);
    }
  }

  lemma InvUnique(ctx: Context, items: seq<Item>, addrs: seq<nat>, ks: seq<nat>, st: Asm)
    requires Inv(ctx, items, addrs, ks, st)
    ensures UniqueNames(st.symbols)
  {
  }

  lemma AllIn(items: seq<Item>, ke: seq<nat>, kd: seq<nat>)
    requires Numbers(items, ke)
    requires Deferred(items, {}, kd)
    ensures Subset(ke, kd)
  {
    hide FixOf;
    forall k: nat | k in ke
      ensures k in kd
    {
      var i :| 0 <= i < |ke| && ke[i] == k;
    }
  }

  lemma SameRom(ctx: Context, items: seq<Item>, early: set<nat>)
    requires AllParsed(items) && NoRedefine(items)
    requires Assemble(ctx, items, {}).Assembled? && Assemble(ctx, items, early).Assembled?
    requires Extends(Assemble(ctx, items, {}).st.symbols, Assemble(ctx, items, early).st.symbols)
    requires Addrs(ctx, items, early) == Addrs(ctx, items, {})
    ensures Assemble(ctx, items, early).st.rom == Assemble(ctx, items, {}).st.rom
  {
    hide Assemble, NoRedefine, Addrs, Finished, Covers, Extends, Legal;
    var d, e := Assemble(ctx, items, {}).st, Assemble(ctx, items, early).st;
    var addrs := Addrs(ctx, items, {});
    ImageIsEncoding(ctx, items, {});
    ImageIsEncoding(ctx, items, early);
    forall x: nat | x < ROM_SIZE
      ensures e.rom[x] == d.rom[x]
    {
      if k :| 0 <= k < |items| && Covers(items[k], addrs[k], x) {
        SameBytes(ctx, d, e, items[k], addrs[k], x);
      }
    }
  }

  // ----- the other direction

  /** A program that defines a name by another one that is defined later. */
  const FORWARD: seq<Item> := [Define("a", " b"), Define("b", " ISR")]

  lemma ForwardEarly(ctx: Context)
    ensures Scan(ctx, FORWARD[..1], {1}) == Assembled(Start().(unresolved := [Fixup(FixDefine("a"), " b", 0)]))
    ensures Scan(ctx, FORWARD, {1}) == Assembled(Start().(
              symbols := [Symbol("ISR", ISR_ADDR), Symbol("b", ISR_ADDR)],
              unresolved := [Fixup(FixDefine("a"), " b", 0)]))
  {
    hide ParseExp, Blank;
    assert FORWARD[..1] == [Define("a", " b")] && FORWARD[..1][..0] == [];
    Padded();
    UnknownName(Env(Start().symbols, ctx.scan), ctx.sem, " b", "b");
    NameIsItsValue(Env(Start().symbols, ctx.scan), ctx.sem, " ISR", "ISR", ISR_ADDR);
  }

  lemma Padded()
    ensures IsPadded(" b", "b") && IsPadded(" ISR", "ISR")
  {
    assert StandsAt(" b", "b", 1) && StandsAt(" ISR", "ISR", 1);
  }

  lemma ForwardLate(ctx: Context)
    ensures Scan(ctx, FORWARD[..1], {}) == Assembled(Start().(unresolved := [Fixup(FixDefine("a"), " b", 0)]))
    ensures Scan(ctx, FORWARD, {}) == Assembled(Start().(
              unresolved := [Fixup(FixDefine("a"), " b", 0), Fixup(FixDefine("b"), " ISR", 0)]))
  {
    hide ParseExp, Blank;
    assert FORWARD[..1] == [Define("a", " b")] && FORWARD[..1][..0] == [];
  }

  /** The converse fails: trying the last line at once can succeed where leaving everything to the end does
      not, since the end keeps to the order of the lines. */
  lemma ConverseFails(ctx: Context)
    ensures AllParsed(FORWARD) && NoRedefine(FORWARD)
    ensures Assemble(ctx, FORWARD, {1}).Assembled? && Assemble(ctx, FORWARD, {}) == Failed(NotResolved)
  {
    hide ParseExp, Blank, Scan;
    ForwardEarly(ctx);
    ForwardLate(ctx);
    Padded();
    var isr, b, free := Symbol("ISR", ISR_ADDR), Symbol("b", ISR_ADDR), Symbol("FREE_MEM", ROM_SIZE);
    var e := BindFreeMem(Scan(ctx, FORWARD, {1}).st);
    assert e.symbols == [isr, b, free];
    assert b in e.symbols by { assert e.symbols[1] == b; }
    NameIsItsValue(Env(e.symbols, ctx.scan), ctx.sem, " b", "b", ISR_ADDR);
    assert ResolveAll(ctx, e, e.unresolved) == Resolve(ctx, e, e.unresolved[0]);
    var d := BindFreeMem(Scan(ctx, FORWARD, {}).st);
    assert d.symbols == [isr, free];
    UnknownName(Env(d.symbols, ctx.scan), ctx.sem, " b", "b");
    assert Resolve(ctx, d, d.unresolved[0]) == None;
  }
}
