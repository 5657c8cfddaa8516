/**
 What the assembler keeps true from line to line and from fixup to fixup, and the image theorem that
 follows from it.
 */
module AssemblerRun {
  import opened Bytes
  import opened Lexer
  import opened ShuntingYard
  import opened SymTab
  import opened Processor
  import opened Assembler
  import opened Encoding
  import opened Image

  // ----- names

  function DefName(item: Item): Option<string> {
    match item
    case Label(name) => Some(name)
    case Define(name, _) => Some(name)
    case Static(name, _) => Some(name)
    case _ => None
  }

  predicate Fresh(name: string) {
    IsIdentifier(name) && name != "ISR" && name != "FREE_MEM"
  }

  /** Every name is defined at most once, and none of the assembler's own. */
  ghost predicate NoRedefine(items: seq<Item>) {
    && (forall k :: 0 <= k < |items| && DefName(items[k]).Some? ==> Fresh(DefName(items[k]).value))
    && forall j, k :: 0 <= j < k < |items| && DefName(items[j]) == DefName(items[k]) ==> DefName(items[j]) == None
  }

  ghost predicate Unbound(symbols: seq<Symbol>, name: string) {
    forall i :: 0 <= i < |symbols| ==> symbols[i].name != name
  }

  /** The names bound so far come from the lines read so far. */
  ghost predicate Named(items: seq<Item>, symbols: seq<Symbol>) {
    && UniqueNames(symbols)
    && forall i :: 0 <= i < |symbols| && Fresh(symbols[i].name) ==>
         exists k :: 0 <= k < |items| && DefName(items[k]) == Some(symbols[i].name)
  }

  lemma BindFresh(symbols: seq<Symbol>, name: string, value: int)
    requires UniqueNames(symbols) && Unbound(symbols, name) && IsIdentifier(name)
    ensures Bind(symbols, name, value) == symbols + [Symbol(name, value)]
    ensures Extends(symbols, symbols + [Symbol(name, value)])
  {
    BindExtends(symbols, name, value);
  }

  // ----- lines

  /** The line's bytes are final, and what it defines is bound. */
  ghost predicate Finished(ctx: Context, st: Asm, item: Item, a: nat)
    requires Legal(item)
  {
    if FixOf(item).None? then
      Holds(st.rom, a, Encode(item, a, 0)) && (item.Label? ==> Symbol(item.name, a) in st.symbols)
    else
      && Complete(ctx, st, item, a)
      && (item.Define? ==> Symbol(item.name, Value(ctx, st.symbols, item.text).value) in st.symbols)
  }

  /** The line's operand is still blank, and what it defines is not bound. */
  ghost predicate Waiting(st: Asm, item: Item, a: nat)
    requires Legal(item)
  {
    FixOf(item).Some? && Holds(st.rom, a, Template(item, a)) && (item.Define? ==> Unbound(st.symbols, item.name))
  }

  ghost predicate SameWithin(rom: Memory, rom': Memory, a: int, n: int) {
    forall x :: 0 <= x < ROM_SIZE && a <= x < a + n ==> rom'[x] == rom[x]
  }

  lemma KeepHolds(rom: Memory, rom': Memory, a: int, bs: seq<Byte>)
    requires Holds(rom, a, bs) && SameWithin(rom, rom', a, |bs|)
    ensures Holds(rom', a, bs)
  {
    forall i | 0 <= i < |bs|
      ensures rom'[a + i] == bs[i]
    {
      assert rom[a + i] == bs[i];
    }
  }

  /** More names and writes elsewhere leave a finished line finished. */
  lemma KeepFinished(ctx: Context, st: Asm, st': Asm, item: Item, a: nat)
    requires Legal(item) && Finished(ctx, st, item, a)
    requires Extends(st.symbols, st'.symbols) && SameWithin(st.rom, st'.rom, a, Size(item))
    ensures Finished(ctx, st', item, a)
  {
    hide Encode, Holds, ParseExp;
    if FixOf(item).None? {
      KeepHolds(st.rom, st'.rom, a, Encode(item, a, 0));
    } else {
      var text := FixOf(item).value.1;
      ParseExpMonotone(Env(st.symbols, ctx.scan), Env(st'.symbols, ctx.scan), ctx.sem, text);
      KeepHolds(st.rom, st'.rom, a, Encode(item, a, Value(ctx, st.symbols, text).value));
    }
  }

  lemma KeepWaiting(st: Asm, st': Asm, item: Item, a: nat)
    requires Legal(item) && Waiting(st, item, a)
    requires item.Define? ==> Unbound(st'.symbols, item.name)
    requires SameWithin(st.rom, st'.rom, a, Size(item))
    ensures Waiting(st', item, a)
  {
    hide Encode, Holds;
    KeepHolds(st.rom, st'.rom, a, Template(item, a));
  }

  // ----- the whole state

  ghost predicate AllLegal(items: seq<Item>) {
    forall k :: 0 <= k < |items| ==> Legal(items[k])
  }

  /** Lines lie one behind the other. */
  ghost predicate Ordered(items: seq<Item>, addrs: seq<nat>, loc: nat) {
    && |addrs| == |items|
    && (forall j, k :: 0 <= j < k < |items| ==> addrs[j] + Size(items[j]) <= addrs[k])
    && forall k :: 0 <= k < |items| ==> addrs[k] + Size(items[k]) <= loc
  }

  ghost predicate Covers(item: Item, a: nat, x: int) {
    a <= x < a + Size(item)
  }

  ghost predicate BlankElsewhere(items: seq<Item>, addrs: seq<nat>, rom: Memory)
    requires |addrs| == |items|
  {
    forall x :: 0 <= x < ROM_SIZE && (forall k :: 0 <= k < |items| ==> !Covers(items[k], addrs[k], x)) ==> rom[x] == 0
  }

  /** The lines still waiting, by number. */
  ghost predicate Numbers(items: seq<Item>, ks: seq<nat>) {
    && (forall i :: 0 <= i < |ks| ==> ks[i] < |items| && FixOf(items[ks[i]]).Some?)
    && forall i, j :: 0 <= i < j < |ks| ==> ks[i] < ks[j]
  }

  ghost predicate Pending(items: seq<Item>, addrs: seq<nat>, ks: seq<nat>, fs: seq<Fixup>)
    requires |addrs| == |items| && Numbers(items, ks)
  {
    |fs| == |ks| && forall i :: 0 <= i < |ks| ==> fs[i] == FixupOf(items[ks[i]], addrs[ks[i]])
  }

  ghost predicate LineOk(ctx: Context, st: Asm, item: Item, a: nat, waiting: bool)
    requires Legal(item)
  {
    if waiting then Waiting(st, item, a) else Finished(ctx, st, item, a)
  }

  ghost predicate Inv(ctx: Context, items: seq<Item>, addrs: seq<nat>, ks: seq<nat>, st: Asm) {
    && AllLegal(items) && Ordered(items, addrs, st.loc) && BlankElsewhere(items, addrs, st.rom)
    && Named(items, st.symbols) && Numbers(items, ks)
    && forall k :: 0 <= k < |items| ==> LineOk(ctx, st, items[k], addrs[k], k in ks)
  }

  lemma StartInv(ctx: Context)
    ensures Inv(ctx, [], [], [], Start())
  {
  }

  lemma BlankBeyond(items: seq<Item>, addrs: seq<nat>, st: Asm)
    requires Ordered(items, addrs, st.loc) && BlankElsewhere(items, addrs, st.rom)
    ensures BlankFrom(st.rom, st.loc)
  {
  }

  /** All lines are kept by a step that extends the symbols, leaves unbound the names that waiting
      lines define, and writes nothing below the current location. */
  lemma KeepLines(ctx: Context, items: seq<Item>, addrs: seq<nat>, ks: seq<nat>, st: Asm, st': Asm)
    requires Inv(ctx, items, addrs, ks, st)
    requires Extends(st.symbols, st'.symbols) && SameWithin(st.rom, st'.rom, 0, st.loc)
    requires forall k :: 0 <= k < |items| && k in ks && items[k].Define? ==> Unbound(st'.symbols, items[k].name)
    ensures forall k :: 0 <= k < |items| ==> LineOk(ctx, st', items[k], addrs[k], k in ks)
  {
    forall k | 0 <= k < |items|
      ensures LineOk(ctx, st', items[k], addrs[k], k in ks)
    {
      assert LineOk(ctx, st, items[k], addrs[k], k in ks);
      if k in ks {
        KeepWaiting(st, st', items[k], addrs[k]);
      } else {
        KeepFinished(ctx, st, st', items[k], addrs[k]);
      }
    }
  }

  // ----- one more line

  /** One more line behind the others, finished or waiting. */
  lemma Append(ctx: Context, items: seq<Item>, addrs: seq<nat>, ks: seq<nat>, st: Asm, item: Item, st': Asm,
               waiting: bool)
    requires Inv(ctx, items, addrs, ks, st) && Legal(item)
    requires forall k :: 0 <= k < |items| ==> LineOk(ctx, st', items[k], addrs[k], k in ks)
    requires LineOk(ctx, st', item, st.loc, waiting)
    requires Named(items + [item], st'.symbols)
    requires st.loc + Size(item) <= st'.loc && SameOutside(st.rom, st'.rom, st.loc, Size(item))
    ensures Inv(ctx, items + [item], addrs + [st.loc], if waiting then ks + [|items|] else ks, st')
  {
    hide LineOk, Size, Named, BlankElsewhere, Numbers, SameOutside, AllLegal, FixOf;
    var ks' := if waiting then ks + [|items|] else ks;
    WaitingHasFix(ctx, st', item, st.loc, waiting);
    OrderedAppend(items, addrs, st.loc, item, st'.loc);
    NumbersAppend(items, ks, item, waiting);
    BlankElsewhereAppend(items, addrs, st, item, st'.rom);
    LegalAppend(items, item);
    LinesAppend(ctx, items, addrs, ks, st', item, st.loc, waiting);
  }

  lemma LegalAppend(items: seq<Item>, item: Item)
    requires AllLegal(items) && Legal(item)
    ensures AllLegal(items + [item])
  {
    hide Legal;
  }

  lemma OrderedAppend(items: seq<Item>, addrs: seq<nat>, loc: nat, item: Item, loc': nat)
    requires Ordered(items, addrs, loc) && loc + Size(item) <= loc'
    ensures Ordered(items + [item], addrs + [loc], loc')
  {
    hide Size;
  }

  lemma NumbersAppend(items: seq<Item>, ks: seq<nat>, item: Item, waiting: bool)
    requires Numbers(items, ks) && (waiting ==> FixOf(item).Some?)
    ensures Numbers(items + [item], if waiting then ks + [|items|] else ks)
    ensures |items| !in ks
  {
    hide FixOf;
  }

  lemma LinesAppend(ctx: Context, items: seq<Item>, addrs: seq<nat>, ks: seq<nat>, st': Asm, item: Item, a: nat,
                    waiting: bool)
    requires AllLegal(items) && Legal(item) && |addrs| == |items| && |items| !in ks
    requires forall k :: 0 <= k < |items| ==> LineOk(ctx, st', items[k], addrs[k], k in ks)
    requires LineOk(ctx, st', item, a, waiting)
    ensures var n := |items|;
            var items', addrs', ks' := items + [item], addrs + [a], if waiting then ks + [n] else ks;
            AllLegal(items') && forall k :: 0 <= k <= n ==> LineOk(ctx, st', items'[k], addrs'[k], k in ks')
  {
    hide LineOk, Legal;
    var n := |items|;
    var items', addrs', ks' := items + [item], addrs + [a], if waiting then ks + [n] else ks;
    forall k | 0 <= k <= n
      ensures Legal(items'[k]) && LineOk(ctx, st', items'[k], addrs'[k], k in ks')
    {
      if k < n {
        assert LineOk(ctx, st', items[k], addrs[k], k in ks);
        assert k in ks' <==> k in ks;
      } else if waiting {
        assert ks'[|ks|] == n;
      }
    }
  }

  lemma WaitingHasFix(ctx: Context, st: Asm, item: Item, a: nat, waiting: bool)
    requires Legal(item) && LineOk(ctx, st, item, a, waiting)
    ensures waiting ==> FixOf(item).Some?
  {
  }

  lemma BlankElsewhereAppend(items: seq<Item>, addrs: seq<nat>, st: Asm, item: Item, rom': Memory)
    requires |addrs| == |items| && BlankElsewhere(items, addrs, st.rom)
    requires SameOutside(st.rom, rom', st.loc, Size(item))
    ensures BlankElsewhere(items + [item], addrs + [st.loc], rom')
  {
    hide Size;
    var n := |items|;
    var items', addrs' := items + [item], addrs + [st.loc];
    forall x | 0 <= x < ROM_SIZE && forall k :: 0 <= k <= n ==> !Covers(items'[k], addrs'[k], x)
      ensures rom'[x] == 0
    {
      assert !Covers(items'[n], addrs'[n], x);
      forall k | 0 <= k < n
        ensures !Covers(items[k], addrs[k], x)
      {
        assert !Covers(items'[k], addrs'[k], x);
      }
    }
  }

  /** A name that no earlier line defines is not bound yet. */
  lemma NewName(items: seq<Item>, item: Item, symbols: seq<Symbol>)
    requires Named(items, symbols) && NoRedefine(items + [item]) && DefName(item).Some?
    ensures Fresh(DefName(item).value) && Unbound(symbols, DefName(item).value)
  {
    var all := items + [item];
    var name := DefName(item).value;
    assert all[|items|] == item;
    forall k | 0 <= k < |items|
      ensures DefName(items[k]) != Some(name)
    {
      assert all[k] == items[k];
    }
  }

  lemma NamedMore(items: seq<Item>, item: Item, symbols: seq<Symbol>)
    requires Named(items, symbols)
    ensures Named(items + [item], symbols)
  {
    var all := items + [item];
    forall i | 0 <= i < |symbols| && Fresh(symbols[i].name)
      ensures exists k :: 0 <= k < |all| && DefName(all[k]) == Some(symbols[i].name)
    {
      var k :| 0 <= k < |items| && DefName(items[k]) == Some(symbols[i].name);
      assert all[k] == items[k];
    }
  }

  lemma NamedBind(items: seq<Item>, n: nat, symbols: seq<Symbol>, name: string, value: int)
    requires Named(items, symbols) && Unbound(symbols, name) && IsIdentifier(name)
    requires Fresh(name) ==> n < |items| && DefName(items[n]) == Some(name)
    ensures Named(items, Bind(symbols, name, value))
    ensures Extends(symbols, Bind(symbols, name, value)) && Symbol(name, value) in Bind(symbols, name, value)
  {
    hide IsIdentifier;
    var t := Bind(symbols, name, value);
    BindFresh(symbols, name, value);
    BindKeepsUnique(symbols, name, value);
    assert t[|symbols|] == Symbol(name, value);
    forall i | 0 <= i < |t| && Fresh(t[i].name)
      ensures exists k :: 0 <= k < |items| && DefName(items[k]) == Some(t[i].name)
    {
      if i < |symbols| {
        assert t[i] == symbols[i];
      } else {
        assert DefName(items[n]) == Some(t[i].name);
      }
    }
  }

  /** Lines that wait define other names than the next line. */
  lemma OtherNames(items: seq<Item>, item: Item, k: nat)
    requires NoRedefine(items + [item]) && k < |items| && items[k].Define? && DefName(item).Some?
    ensures items[k].name != DefName(item).value
  {
    var all := items + [item];
    assert all[k] == items[k] && all[|items|] == item;
  }

  lemma ExtendsSame(symbols: seq<Symbol>)
    requires UniqueNames(symbols)
    ensures Extends(symbols, symbols)
  {
  }

  /** Binding the name a new line defines keeps the other lines. */
  lemma BindLines(ctx: Context, items: seq<Item>, addrs: seq<nat>, ks: seq<nat>, st: Asm, item: Item, value: int,
                  st': Asm)
    requires Inv(ctx, items, addrs, ks, st) && NoRedefine(items + [item]) && DefName(item).Some?
    requires st'.rom == st.rom && st'.symbols == Bind(st.symbols, DefName(item).value, value)
    ensures forall k :: 0 <= k < |items| ==> LineOk(ctx, st', items[k], addrs[k], k in ks)
    ensures Named(items + [item], st'.symbols) && Symbol(DefName(item).value, value) in st'.symbols
  {
    hide Size;
    var name := DefName(item).value;
    NewName(items, item, st.symbols);
    NamedMore(items, item, st.symbols);
    assert (items + [item])[|items|] == item;
    NamedBind(items + [item], |items|, st.symbols, name, value);
    forall k | 0 <= k < |items| && k in ks && items[k].Define?
      ensures Unbound(st'.symbols, items[k].name)
    {
      assert LineOk(ctx, st, items[k], addrs[k], true);
      OtherNames(items, item, k);
      BindFresh(st.symbols, name, value);
    }
    KeepLines(ctx, items, addrs, ks, st, st');
  }

  /** Without new names, nothing happens to the other lines. */
  lemma SameLines(ctx: Context, items: seq<Item>, addrs: seq<nat>, ks: seq<nat>, st: Asm, item: Item, st': Asm)
    requires Inv(ctx, items, addrs, ks, st)
    requires st'.symbols == st.symbols && SameWithin(st.rom, st'.rom, 0, st.loc)
    ensures forall k :: 0 <= k < |items| ==> LineOk(ctx, st', items[k], addrs[k], k in ks)
    ensures Named(items + [item], st'.symbols)
  {
    hide Size, Named, NoRedefine;
    NamedMore(items, item, st.symbols);
    assert UniqueNames(st.symbols) by { NamedUnique(items, st.symbols); }
    ExtendsSame(st.symbols);
    forall k | 0 <= k < |items| && k in ks && items[k].Define?
      ensures Unbound(st'.symbols, items[k].name)
    {
      assert LineOk(ctx, st, items[k], addrs[k], true);
    }
    KeepLines(ctx, items, addrs, ks, st, st');
  }

  lemma NamedUnique(items: seq<Item>, symbols: seq<Symbol>)
    requires Named(items, symbols)
    ensures UniqueNames(symbols)
  {
  }

  lemma AcceptedIsLegal(ctx: Context, st: Asm, item: Item, early: bool)
    requires Parsed(item) && Line(ctx, st, item, Tried(early)).Assembled?
    ensures Legal(item)
  {
  }

  lemma PendingAppend(items: seq<Item>, addrs: seq<nat>, ks: seq<nat>, fs: seq<Fixup>, item: Item, a: nat,
                      waiting: bool)
    requires |addrs| == |items| && Numbers(items, ks) && Pending(items, addrs, ks, fs) &&
             (waiting ==> FixOf(item).Some?)
    ensures var ks' := if waiting then ks + [|items|] else ks;
            && Numbers(items + [item], ks')
            && Pending(items + [item], addrs + [a], ks', if waiting then fs + [FixupOf(item, a)] else fs)
  {
    hide FixOf;
    NumbersAppend(items, ks, item, waiting);
  }

  /** What one more line does to the lines and to the fixups that are kept. */
  ghost predicate Added(ctx: Context, items: seq<Item>, addrs: seq<nat>, ks: seq<nat>, st: Asm, item: Item, st': Asm,
                        waiting: bool) {
    && Inv(ctx, items + [item], addrs + [st.loc], if waiting then ks + [|items|] else ks, st')
    && (waiting ==> FixOf(item).Some?)
    && st'.unresolved == if waiting then st.unresolved + [FixupOf(item, st.loc)] else st.unresolved
  }

  lemma AddPlaced(ctx: Context, items: seq<Item>, addrs: seq<nat>, ks: seq<nat>, st: Asm, item: Item, early: bool,
                  st': Asm) returns (waiting: bool)
    requires Inv(ctx, items, addrs, ks, st) && Legal(item) && !IsDirect(item)
    requires Line(ctx, st, item, Tried(early)) == Assembled(st')
    ensures Added(ctx, items, addrs, ks, st, item, st', waiting)
    ensures !early && FixOf(item).Some? ==> waiting
  {
    hide Size, Place, Encode, NoRedefine, Named, Ordered, BlankElsewhere, Numbers;
    assert BlankFrom(st.rom, st.loc) by {
      BlankFromInv(ctx, items, addrs, ks, st);
    }
    PlaceResult(ctx, st, item, early);
    SameLines(ctx, items, addrs, ks, st, item, st');
    waiting := st'.unresolved != st.unresolved;
    assert LineOk(ctx, st', item, st.loc, waiting);
    Append(ctx, items, addrs, ks, st, item, st', waiting);
  }

  lemma BlankFromInv(ctx: Context, items: seq<Item>, addrs: seq<nat>, ks: seq<nat>, st: Asm)
    requires Inv(ctx, items, addrs, ks, st)
    ensures BlankFrom(st.rom, st.loc)
  {
    BlankBeyond(items, addrs, st);
  }

  /** Labels and static locations. */
  lemma AddName(ctx: Context, items: seq<Item>, addrs: seq<nat>, ks: seq<nat>, st: Asm, item: Item, value: int,
                st': Asm)
    requires Inv(ctx, items, addrs, ks, st) && NoRedefine(items + [item])
    requires (item.Label? && value == st.loc) || item.Static?
    requires st' == st.(symbols := Bind(st.symbols, DefName(item).value, value), ramLoc := st'.ramLoc)
    ensures Added(ctx, items, addrs, ks, st, item, st', false)
  {
    hide NoRedefine, Named, Ordered, BlankElsewhere, Numbers;
    BindLines(ctx, items, addrs, ks, st, item, value, st');
    assert LineOk(ctx, st', item, st.loc, false);
    Append(ctx, items, addrs, ks, st, item, st', false);
  }

  /** Lines that are about neither bytes nor names. */
  lemma AddMove(ctx: Context, items: seq<Item>, addrs: seq<nat>, ks: seq<nat>, st: Asm, item: Item, st': Asm)
    requires Inv(ctx, items, addrs, ks, st) && (item.MemLoc? || item.Loc?)
    requires st' == st.(loc := st'.loc, ramLoc := st'.ramLoc) && st.loc <= st'.loc
    ensures Added(ctx, items, addrs, ks, st, item, st', false)
  {
    hide Named, Ordered, BlankElsewhere, Numbers;
    SameLines(ctx, items, addrs, ks, st, item, st');
    assert LineOk(ctx, st', item, st.loc, false);
    Append(ctx, items, addrs, ks, st, item, st', false);
  }

  /** Definitions, assertions and echoes that are kept for later. */
  lemma AddDeferred(ctx: Context, items: seq<Item>, addrs: seq<nat>, ks: seq<nat>, st: Asm, item: Item, st': Asm)
    requires Inv(ctx, items, addrs, ks, st) && NoRedefine(items + [item])
    requires item.Define? || item.Assert? || item.Echo?
    requires st' == st.(unresolved := st.unresolved + [FixupOf(item, st.loc)])
    ensures Added(ctx, items, addrs, ks, st, item, st', true)
  {
    hide NoRedefine, Ordered, BlankElsewhere, Numbers;
    SameLines(ctx, items, addrs, ks, st, item, st');
    if item.Define? {
      NewName(items, item, st.symbols);
    }
    assert LineOk(ctx, st', item, st.loc, true);
    Append(ctx, items, addrs, ks, st, item, st', true);
  }

  /** The same, resolved at once. */
  lemma AddResolved(ctx: Context, items: seq<Item>, addrs: seq<nat>, ks: seq<nat>, st: Asm, item: Item, st': Asm)
    requires Inv(ctx, items, addrs, ks, st) && NoRedefine(items + [item])
    requires item.Define? || item.Assert? || item.Echo?
    requires Resolve(ctx, st, FixupOf(item, st.loc)) == Some(st')
    ensures Added(ctx, items, addrs, ks, st, item, st', false)
  {
    hide NoRedefine, Ordered, BlankElsewhere, Numbers, ParseExp;
    var v := Value(ctx, st.symbols, item.text).value;
    if item.Define? {
      BindLines(ctx, items, addrs, ks, st, item, v, st');
      NewName(items, item, st.symbols);
      BindFresh(st.symbols, item.name, v);
      ParseExpMonotone(Env(st.symbols, ctx.scan), Env(st'.symbols, ctx.scan), ctx.sem, item.text);
    } else {
      SameLines(ctx, items, addrs, ks, st, item, st');
    }
    assert LineOk(ctx, st', item, st.loc, false);
    Append(ctx, items, addrs, ks, st, item, st', false);
  }

  /** Every line keeps the invariant. */
  lemma AddLine(ctx: Context, items: seq<Item>, addrs: seq<nat>, ks: seq<nat>, st: Asm, item: Item, early: bool,
                st': Asm) returns (waiting: bool)
    requires Inv(ctx, items, addrs, ks, st) && Legal(item) && NoRedefine(items + [item])
    requires Line(ctx, st, item, Tried(early)) == Assembled(st')
    ensures Added(ctx, items, addrs, ks, st, item, st', waiting)
    ensures !early && FixOf(item).Some? ==> waiting
  {
    hide Inv, NoRedefine, Place, Value, Apply;
    waiting := false;
    match item
    case Label(_) => AddName(ctx, items, addrs, ks, st, item, st.loc, st');
    case Static(_, _) => AddName(ctx, items, addrs, ks, st, item, st.ramLoc, st');
    case MemLoc(_) => AddMove(ctx, items, addrs, ks, st, item, st');
    case Loc(_) => AddMove(ctx, items, addrs, ks, st, item, st');
    case Define(_, _) => waiting := AddSymbolic(ctx, items, addrs, ks, st, item, early, st');
    case Assert(_) => waiting := AddSymbolic(ctx, items, addrs, ks, st, item, early, st');
    case Echo(_) => waiting := AddSymbolic(ctx, items, addrs, ks, st, item, early, st');
    case _ => waiting := AddPlaced(ctx, items, addrs, ks, st, item, early, st');
  }

  lemma AddSymbolic(ctx: Context, items: seq<Item>, addrs: seq<nat>, ks: seq<nat>, st: Asm, item: Item, early: bool,
                    st': Asm) returns (waiting: bool)
    requires Inv(ctx, items, addrs, ks, st) && NoRedefine(items + [item])
    requires item.Define? || item.Assert? || item.Echo?
    requires st' == AddUnresolved(ctx, st, FixOf(item).value.0, FixOf(item).value.1, Tried(early))
    ensures Added(ctx, items, addrs, ks, st, item, st', waiting)
    ensures !early ==> waiting
  {
    hide Inv, NoRedefine, Resolve, Added;
    if early && Resolve(ctx, st, FixupOf(item, st.loc)).Some? {
      waiting := false;
      AddResolved(ctx, items, addrs, ks, st, item, st');
    } else {
      waiting := true;
      AddDeferred(ctx, items, addrs, ks, st, item, st');
    }
  }

  // ----- the second phase

  lemma TailNumbers(items: seq<Item>, ks: seq<nat>)
    requires Numbers(items, ks) && ks != []
    ensures Numbers(items, ks[1..])
    ensures forall k: nat :: k in ks[1..] <==> k in ks && k != ks[0]
  {
    hide FixOf;
    assert ks == [ks[0]] + ks[1..];
  }

  /** Lines do not overlap. */
  lemma OtherLine(items: seq<Item>, addrs: seq<nat>, loc: nat, j: nat, k: nat, rom: Memory, rom': Memory)
    requires Ordered(items, addrs, loc) && j < |items| && k < |items| && j != k
    requires SameOutside(rom, rom', addrs[j], Size(items[j]))
    ensures SameWithin(rom, rom', addrs[k], Size(items[k]))
  {
    hide Size;
  }

  lemma BlankElsewhereKept(items: seq<Item>, addrs: seq<nat>, k: nat, rom: Memory, rom': Memory)
    requires |addrs| == |items| && k < |items| && BlankElsewhere(items, addrs, rom)
    requires SameOutside(rom, rom', addrs[k], Size(items[k]))
    ensures BlankElsewhere(items, addrs, rom')
  {
    hide Size;
    forall x | 0 <= x < ROM_SIZE && forall j :: 0 <= j < |items| ==> !Covers(items[j], addrs[j], x)
      ensures rom'[x] == 0
    {
      assert !Covers(items[k], addrs[k], x);
    }
  }

  /** A step that finishes the first waiting line and leaves the others alone. */
  lemma Finish(ctx: Context, items: seq<Item>, addrs: seq<nat>, ks: seq<nat>, st: Asm, st': Asm)
    requires Inv(ctx, items, addrs, ks, st) && ks != [] && st'.loc == st.loc
    requires Extends(st.symbols, st'.symbols) && Named(items, st'.symbols)
    requires SameOutside(st.rom, st'.rom, addrs[ks[0]], Size(items[ks[0]]))
    requires Finished(ctx, st', items[ks[0]], addrs[ks[0]])
    requires forall k :: 0 <= k < |items| && k in ks && k != ks[0] && items[k].Define? ==>
             Unbound(st'.symbols, items[k].name)
    ensures Inv(ctx, items, addrs, ks[1..], st')
  {
    hide Size, Named, Waiting, Finished, BlankElsewhere, NoRedefine, Extends, SameOutside;
    var n := ks[0];
    TailNumbers(items, ks);
    BlankElsewhereKept(items, addrs, n, st.rom, st'.rom);
    forall k: nat | k < |items|
      ensures LineOk(ctx, st', items[k], addrs[k], k in ks[1..])
    {
      assert LineOk(ctx, st, items[k], addrs[k], k in ks);
      if k != n {
        OtherLine(items, addrs, st.loc, n, k, st.rom, st'.rom);
        if k in ks {
          KeepWaiting(st, st', items[k], addrs[k]);
        } else {
          KeepFinished(ctx, st, st', items[k], addrs[k]);
        }
      }
    }
  }

  /** Every fixup keeps the invariant and finishes its line. */
  lemma ResolveHead(ctx: Context, items: seq<Item>, addrs: seq<nat>, ks: seq<nat>, st: Asm, st': Asm)
    requires Inv(ctx, items, addrs, ks, st) && NoRedefine(items) && ks != []
    requires Resolve(ctx, st, FixupOf(items[ks[0]], addrs[ks[0]])) == Some(st')
    ensures Inv(ctx, items, addrs, ks[1..], st')
  {
    var n := ks[0];
    var item, a := items[n], addrs[n];
    assert LineOk(ctx, st, item, a, true);
    if Writes(FixOf(item).value.0) {
      ResolveBytes(ctx, items, addrs, ks, st, st');
    } else {
      ResolveSymbolic(ctx, items, addrs, ks, st, st');
    }
  }

  lemma OthersUnbound(ctx: Context, items: seq<Item>, addrs: seq<nat>, ks: seq<nat>, st: Asm)
    requires Inv(ctx, items, addrs, ks, st)
    ensures forall k :: 0 <= k < |items| && k in ks && items[k].Define? ==> Unbound(st.symbols, items[k].name)
    ensures Extends(st.symbols, st.symbols) && Named(items, st.symbols)
  {
    hide Size, BlankElsewhere, Ordered, Numbers;
    InvNumbers(ctx, items, addrs, ks, st);
    forall k | 0 <= k < |items| && k in ks && items[k].Define?
      ensures Unbound(st.symbols, items[k].name)
    {
      assert LineOk(ctx, st, items[k], addrs[k], true);
    }
  }

  lemma ResolveBytes(ctx: Context, items: seq<Item>, addrs: seq<nat>, ks: seq<nat>, st: Asm, st': Asm)
    requires Inv(ctx, items, addrs, ks, st) && ks != []
    requires Writes(FixOf(items[ks[0]]).value.0)
    requires Resolve(ctx, st, FixupOf(items[ks[0]], addrs[ks[0]])) == Some(st')
    ensures Inv(ctx, items, addrs, ks[1..], st')
  {
    hide Size, Named, BlankElsewhere, Ordered, Extends, Apply, Encode, Fits;
    InvNumbers(ctx, items, addrs, ks, st);
    var item, a := items[ks[0]], addrs[ks[0]];
    assert LineOk(ctx, st, item, a, true);
    var v := Value(ctx, st.symbols, FixOf(item).value.1).value;
    ApplyFills(st, item, a, v);
    OthersUnbound(ctx, items, addrs, ks, st);
    Finish(ctx, items, addrs, ks, st, st');
  }

  lemma ResolveSymbolic(ctx: Context, items: seq<Item>, addrs: seq<nat>, ks: seq<nat>, st: Asm, st': Asm)
    requires Inv(ctx, items, addrs, ks, st) && NoRedefine(items) && ks != []
    requires !Writes(FixOf(items[ks[0]]).value.0)
    requires Resolve(ctx, st, FixupOf(items[ks[0]], addrs[ks[0]])) == Some(st')
    ensures Inv(ctx, items, addrs, ks[1..], st')
  {
    hide BlankElsewhere, Ordered, ParseExp, Extends, IsIdentifier;
    InvNumbers(ctx, items, addrs, ks, st);
    var n := ks[0];
    var item, a := items[n], addrs[n];
    var v := Value(ctx, st.symbols, FixOf(item).value.1).value;
    assert LineOk(ctx, st, item, a, true);
    OthersUnbound(ctx, items, addrs, ks, st);
    if item.Define? {
      assert DefName(item) == Some(item.name) && Fresh(item.name);
      NamedBind(items, n, st.symbols, item.name, v);
      BindFresh(st.symbols, item.name, v);
      ParseExpMonotone(Env(st.symbols, ctx.scan), Env(st'.symbols, ctx.scan), ctx.sem, item.text);
      forall k | 0 <= k < |items| && k in ks && k != n && items[k].Define?
        ensures Unbound(st'.symbols, items[k].name)
      {
        DifferentNames(items, n, k);
      }
    }
    Finish(ctx, items, addrs, ks, st, st');
  }

  lemma DifferentNames(items: seq<Item>, j: nat, k: nat)
    requires NoRedefine(items) && j < |items| && k < |items| && j != k
    requires DefName(items[j]).Some?
    ensures DefName(items[j]) != DefName(items[k])
  {
  }

  lemma {:induction false} ResolveRest(ctx: Context, items: seq<Item>, addrs: seq<nat>, ks: seq<nat>, st: Asm,
                                       fs: seq<Fixup>)
    requires Inv(ctx, items, addrs, ks, st) && NoRedefine(items) && Pending(items, addrs, ks, fs)
    requires ResolveAll(ctx, st, fs).Some?
    ensures Inv(ctx, items, addrs, [], ResolveAll(ctx, st, fs).value)
    decreases |fs|
  {
    hide Inv, NoRedefine, Resolve;
    InvNumbers(ctx, items, addrs, ks, st);
    if fs != [] {
      var st' := Resolve(ctx, st, fs[0]).value;
      assert ks != [] && fs[0] == FixupOf(items[ks[0]], addrs[ks[0]]);
      ResolveHead(ctx, items, addrs, ks, st, st');
      PendingTail(items, addrs, ks, fs);
      ResolveRest(ctx, items, addrs, ks[1..], st', fs[1..]);
    } else {
      assert ks == [];
    }
  }

  lemma InvNumbers(ctx: Context, items: seq<Item>, addrs: seq<nat>, ks: seq<nat>, st: Asm)
    requires Inv(ctx, items, addrs, ks, st)
    ensures |addrs| == |items| && Numbers(items, ks)
  {
  }

  lemma PendingTail(items: seq<Item>, addrs: seq<nat>, ks: seq<nat>, fs: seq<Fixup>)
    requires |addrs| == |items| && Numbers(items, ks) && Pending(items, addrs, ks, fs) && ks != []
    ensures Numbers(items, ks[1..]) && Pending(items, addrs, ks[1..], fs[1..])
  {
    hide FixOf;
    TailNumbers(items, ks);
  }

  lemma FreeMemInv(ctx: Context, items: seq<Item>, addrs: seq<nat>, ks: seq<nat>, st: Asm)
    requires Inv(ctx, items, addrs, ks, st) && NoRedefine(items) && Unbound(st.symbols, "FREE_MEM")
    ensures Inv(ctx, items, addrs, ks, BindFreeMem(st))
  {
    hide Size, BlankElsewhere, Ordered, Numbers, Extends;
    var st' := BindFreeMem(st);
    assert IsIdentifier("FREE_MEM");
    NamedBind(items, 0, st.symbols, "FREE_MEM", st.ramLoc);
    BindFresh(st.symbols, "FREE_MEM", st.ramLoc);
    OthersUnbound(ctx, items, addrs, ks, st);
    forall k | 0 <= k < |items| && k in ks && items[k].Define?
      ensures Unbound(st'.symbols, items[k].name)
    {
      assert DefName(items[k]) == Some(items[k].name);
    }
    KeepLines(ctx, items, addrs, ks, st, st');
  }
}
