/**
 When the second phase of the assembler succeeds: exactly when the names that operands use are available
 in the order of the lines, and the values fit.
 */
module Definitions {
  import opened Lexer
  import opened ShuntingYard
  import opened SymTab
  import opened Isa
  import opened Processor
  import opened Statuses
  import opened Words
  import opened Names
  import opened Assembler
  import opened Encoding
  import opened Image
  import opened AssemblerRun
  import opened AssemblerTheorems
  import opened SymbolsGrow

  // ----- what can be read off the lines

  /** The names bound at the end of the first phase: labels and static memory, and definitions on lines tried
      at once, if their own names were bound there. */
  function Known(scan: EscapeScanner, items: seq<Item>, early: set<nat>): set<string>
    decreases |items|
  {
    if items == [] then {"ISR"}
    else
      var item, before := items[|items| - 1], Known(scan, items[..|items| - 1], early);
      match item
      case Label(name) => before + {name}
      case Static(name, _) => before + {name}
      case Define(name, text) =>
        if |items| - 1 in early && Evaluable(scan, text, before) then before + {name} else before
      case _ => before
  }

  /** The text is an expression over these names. */
  predicate Evaluable(scan: EscapeScanner, text: string, names: set<string>) {
    IsExpression(scan, text) && NamesIn(scan, text) <= names
  }

  /** The names that lines define by expressions. */
  function Defined(items: seq<Item>): set<string>
    decreases |items|
  {
    if items == [] then {}
    else
      var item, before := items[|items| - 1], Defined(items[..|items| - 1]);
      if item.Define? then before + {item.name} else before
  }

  /** The names line k can use: all those of the first phase, FREE_MEM, and the definitions before it. */
  function Available(scan: EscapeScanner, items: seq<Item>, early: set<nat>, k: nat): set<string>
    requires k <= |items|
  {
    Known(scan, items, early) + {"FREE_MEM"} + Defined(items[..k])
  }

  /** Every operand is an expression over the names available to its line. */
  ghost predicate InOrder(scan: EscapeScanner, items: seq<Item>, early: set<nat>) {
    forall k: nat :: k < |items| && FixOf(items[k]).Some? ==>
      Evaluable(scan, FixOf(items[k]).value.1, Available(scan, items, early, k))
  }

  // ----- the domain of a symbol table

  ghost predicate HasDomain(symbols: seq<Symbol>, names: set<string>) {
    forall name :: IsBound(symbols, name) <==> name in names
  }

  lemma BindDomain(symbols: seq<Symbol>, names: set<string>, name: string, value: int)
    requires HasDomain(symbols, names)
    ensures HasDomain(Bind(symbols, name, value), names + {name})
  {
    hide Bind, SymTab.Lookup;
    forall other: string
      ensures IsBound(Bind(symbols, name, value), other) <==> other in names + {name}
    {
      LookupBind(symbols, name, value, other);
      assert IsBound(symbols, other) <==> other in names;
    }
  }

  lemma MemberBound(symbols: seq<Symbol>, names: set<string>, x: Symbol)
    requires UniqueNames(symbols) && HasDomain(symbols, names) && x in symbols
    ensures x.name in names
  {
    LookupIsMembership(symbols, x.name, x.value);
    assert IsBound(symbols, x.name);
  }

  /** Under a table with this domain, a text has a value if and only if it is an expression over it. */
  lemma ValueInDomain(ctx: Context, symbols: seq<Symbol>, names: set<string>, text: string)
    requires Identifiers(symbols) && HasDomain(symbols, names)
    ensures Value(ctx, symbols, text).Ok? <==> Evaluable(ctx.scan, text, names)
  {
    hide ParseExp, IsExpression, NamesIn, Identifiers, IsBound;
    ValueExactly(Env(symbols, ctx.scan), ctx.sem, text);
    assert forall name :: name in NamesIn(ctx.scan, text) ==> (IsBound(symbols, name) <==> name in names);
  }

  // ----- the first phase

  lemma LineKnown(ctx: Context, st: Asm, item: Item, early: bool, st': Asm, names: set<string>, names': set<string>)
    requires Legal(item) && Line(ctx, st, item, Tried(early)) == Assembled(st') &&
             (IsDirect(item) || BlankFrom(st.rom, st.loc))
    requires Identifiers(st.symbols) && HasDomain(st.symbols, names)
    requires names' == match item
                       case Label(name) => names + {name}
                       case Static(name, _) => names + {name}
                       case Define(name, text) =>
                         if early && Evaluable(ctx.scan, text, names) then names + {name} else names
                       case _ => names
    ensures HasDomain(st'.symbols, names')
  {
    hide Value, HasDomain, Bind, Place, Evaluable, Identifiers, Encode;
    match item
    case Label(name) => BindDomain(st.symbols, names, name, st.loc);
    case Static(name, _) => BindDomain(st.symbols, names, name, st.ramLoc);
    case Define(name, text) =>
      ValueInDomain(ctx, st.symbols, names, text);
      var r := Value(ctx, st.symbols, text);
      if r.Ok? {
        BindDomain(st.symbols, names, name, r.value);
      }
    case _ =>
      if !IsDirect(item) {
        PlaceResult(ctx, st, item, early);
      }
  }

  lemma StartDomain()
    ensures HasDomain(Start().symbols, {"ISR"})
  {
    hide Blank;
    forall name: string
      ensures IsBound(Start().symbols, name) <==> name in {"ISR"}
    {
      assert Start().symbols == [Symbol("ISR", ISR_ADDR)];
    }
  }

  lemma {:induction false} KnownIsDomain(ctx: Context, items: seq<Item>, early: set<nat>)
    requires AllParsed(items) && NoRedefine(items) && Scan(ctx, items, early).Assembled?
    ensures HasDomain(Scan(ctx, items, early).st.symbols, Known(ctx.scan, items, early))
    decreases |items|
  {
    hide Line, NoRedefine, Inv, Pending, Unbound, Parsed, HasDomain, Evaluable, Identifiers, Start;
    if items == [] {
      StartDomain();
    } else {
      var n := |items| - 1;
      var front, item := items[..n], items[n];
      NoRedefineFront(items);
      KnownIsDomain(ctx, front, early);
      var st := Scan(ctx, front, early).st;
      var ks := ScanInv(ctx, front, early);
      BlankFromInv(ctx, front, Addrs(ctx, front, early), ks, st);
      AcceptedIsLegal(ctx, st, item, n in early);
      ScanIdentifiers(ctx, front, early);
      LineKnown(ctx, st, item, n in early, Scan(ctx, items, early).st, Known(ctx.scan, front, early),
                Known(ctx.scan, items, early));
    }
  }

  // ----- one fixup

  /** A resolver accepts a value if and only if it fits. */
  lemma ApplyExactly(st: Asm, item: Item, a: nat, v: int)
    requires Legal(item) && FixOf(item).Some? && Holds(st.rom, a, Template(item, a))
    ensures Apply(st, FixupOf(item, a), v).Some? <==> Fits(item, a, v)
  {
    hide Bitwise, Opcode, RegId;
    assert |Template(item, a)| == Size(item);
  }

  /** The table the second phase leaves if only definitions matter: each is bound when it has a value. */
  function Bindings(ctx: Context, symbols: seq<Symbol>, fs: seq<Fixup>): seq<Symbol>
    decreases |fs|
  {
    if fs == [] then symbols
    else
      var r := Value(ctx, symbols, fs[0].text);
      Bindings(ctx, if fs[0].fix.FixDefine? && r.Ok? then Bind(symbols, fs[0].fix.name, r.value) else symbols, fs[1..])
  }

  /** The definitions among the fixups bind new names, each its own. */
  ghost predicate NewNames(symbols: seq<Symbol>, fs: seq<Fixup>) {
    && UniqueNames(symbols)
    && (forall i :: 0 <= i < |fs| && fs[i].fix.FixDefine? ==>
          IsIdentifier(fs[i].fix.name) && Unbound(symbols, fs[i].fix.name))
    && forall i, j :: 0 <= i < j < |fs| && fs[i].fix.FixDefine? && fs[j].fix.FixDefine? ==>
         fs[i].fix.name != fs[j].fix.name
  }

  lemma NewNamesTail(symbols: seq<Symbol>, fs: seq<Fixup>, value: int)
    requires NewNames(symbols, fs) && fs != []
    ensures NewNames(symbols, fs[1..])
    ensures fs[0].fix.FixDefine? ==> NewNames(Bind(symbols, fs[0].fix.name, value), fs[1..])
    ensures fs[0].fix.FixDefine? ==> Extends(symbols, Bind(symbols, fs[0].fix.name, value))
  {
    hide IsIdentifier, Extends;
    if fs[0].fix.FixDefine? {
      BindFresh(symbols, fs[0].fix.name, value);
      BindKeepsUnique(symbols, fs[0].fix.name, value);
    }
  }

  lemma {:induction false} BindingsExtend(ctx: Context, symbols: seq<Symbol>, fs: seq<Fixup>)
    requires NewNames(symbols, fs)
    ensures Extends(symbols, Bindings(ctx, symbols, fs))
    decreases |fs|
  {
    hide Value, NewNames, Extends, Bind;
    if fs == [] {
      assert UniqueNames(symbols) by { NewNamesUnique(symbols, fs); }
      ExtendsSame(symbols);
    } else {
      var r := Value(ctx, symbols, fs[0].text);
      if fs[0].fix.FixDefine? && r.Ok? {
        NewNamesTail(symbols, fs, r.value);
        var symbols' := Bind(symbols, fs[0].fix.name, r.value);
        BindingsExtend(ctx, symbols', fs[1..]);
        ExtendsTransitive(symbols, symbols', Bindings(ctx, symbols', fs[1..]));
      } else {
        NewNamesTail(symbols, fs, 0);
        BindingsExtend(ctx, symbols, fs[1..]);
      }
    }
  }

  lemma NewNamesUnique(symbols: seq<Symbol>, fs: seq<Fixup>)
    requires NewNames(symbols, fs)
    ensures UniqueNames(symbols)
  {
  }

  lemma PendingNew(ctx: Context, items: seq<Item>, addrs: seq<nat>, ks: seq<nat>, st: Asm, fs: seq<Fixup>)
    requires Inv(ctx, items, addrs, ks, st) && NoRedefine(items) && Pending(items, addrs, ks, fs)
    ensures NewNames(st.symbols, fs)
  {
    hide Named, Ordered, BlankElsewhere, IsIdentifier, Holds, Template;
    InvNumbers(ctx, items, addrs, ks, st);
    InvNamed(ctx, items, addrs, ks, st);
    forall i | 0 <= i < |fs| && fs[i].fix.FixDefine?
      ensures IsIdentifier(fs[i].fix.name) && Unbound(st.symbols, fs[i].fix.name) &&
              DefName(items[ks[i]]) == Some(fs[i].fix.name)
    {
      assert ks[i] in ks;
      assert LineOk(ctx, st, items[ks[i]], addrs[ks[i]], true);
      assert DefName(items[ks[i]]) == Some(fs[i].fix.name) && Fresh(fs[i].fix.name);
    }
    forall i, j | 0 <= i < j < |fs| && fs[i].fix.FixDefine? && fs[j].fix.FixDefine?
      ensures fs[i].fix.name != fs[j].fix.name
    {
      DifferentNames(items, ks[i], ks[j]);
    }
  }

  // ----- the second phase

  lemma DefinedNext(items: seq<Item>, n: nat)
    requires n < |items|
    ensures Defined(items[..n + 1])
         == if items[n].Define? then Defined(items[..n]) + {items[n].name} else Defined(items[..n])
  {
    assert items[..n + 1][..n] == items[..n];
  }

  /** Behind a line that does not wait, the same names are bound. */
  lemma {:induction false} SkipFinished(ctx: Context, items: seq<Item>, addrs: seq<nat>, ks: seq<nat>, st: Asm,
                                        known: set<string>, n: nat, m: nat)
    requires Inv(ctx, items, addrs, ks, st) && n <= m <= |items| && forall j :: n <= j < m ==> j !in ks
    requires HasDomain(st.symbols, known + Defined(items[..n]))
    ensures HasDomain(st.symbols, known + Defined(items[..m]))
    decreases m - n
  {
    hide Named, Ordered, BlankElsewhere, Numbers, HasDomain, Value, Holds, Encode;
    if n < m {
      DefinedNext(items, n);
      InvNumbers(ctx, items, addrs, ks, st);
      InvNamed(ctx, items, addrs, ks, st);
      assert LineOk(ctx, st, items[n], addrs[n], false);
      var bound := known + Defined(items[..n]);
      if items[n].Define? {
        MemberBound(st.symbols, bound, Symbol(items[n].name, Value(ctx, st.symbols, items[n].text).value));
        assert known + Defined(items[..n + 1]) == bound;
      }
      SkipFinished(ctx, items, addrs, ks, st, known, n + 1, m);
    }
  }

  /** The operand of line k can be evaluated when its turn comes. */
  predicate Ready(scan: EscapeScanner, items: seq<Item>, known: set<string>, k: nat)
    requires k < |items| && FixOf(items[k]).Some?
  {
    Evaluable(scan, FixOf(items[k]).value.1, known + Defined(items[..k]))
  }

  /** Its value under this table, if there is one, fits. */
  predicate FitsUnder(ctx: Context, symbols: seq<Symbol>, item: Item, a: nat)
    requires FixOf(item).Some?
  {
    var r := Value(ctx, symbols, FixOf(item).value.1);
    r.Ok? ==> Fits(item, a, r.value)
  }

  ghost predicate AllReady(ctx: Context, items: seq<Item>, addrs: seq<nat>, ks: seq<nat>, known: set<string>,
                           symbols: seq<Symbol>)
    requires |addrs| == |items| && Numbers(items, ks)
  {
    forall i :: 0 <= i < |ks| ==>
      Ready(ctx.scan, items, known, ks[i]) && FitsUnder(ctx, symbols, items[ks[i]], addrs[ks[i]])
  }

  lemma AllReadyHead(ctx: Context, items: seq<Item>, addrs: seq<nat>, ks: seq<nat>, known: set<string>,
                     symbols: seq<Symbol>)
    requires |addrs| == |items| && Numbers(items, ks) && ks != [] && Numbers(items, ks[1..])
    ensures AllReady(ctx, items, addrs, ks, known, symbols) <==>
              && Ready(ctx.scan, items, known, ks[0]) && FitsUnder(ctx, symbols, items[ks[0]], addrs[ks[0]])
              && AllReady(ctx, items, addrs, ks[1..], known, symbols)
  {
    hide Ready, FitsUnder, FixOf;
    assert forall i :: 0 < i < |ks| ==> ks[i] == ks[1..][i - 1];
    assert forall i :: 0 <= i < |ks[1..]| ==> ks[1..][i] == ks[i + 1];
  }

  /** The turn of one line: it is resolved if and only if it is ready and fits. */
  lemma OneTurn(ctx: Context, items: seq<Item>, addrs: seq<nat>, ks: seq<nat>, st: Asm, fs: seq<Fixup>,
                known: set<string>)
    requires Inv(ctx, items, addrs, ks, st) && NoRedefine(items) && Pending(items, addrs, ks, fs) && ks != []
    requires Identifiers(st.symbols) && HasDomain(st.symbols, known + Defined(items[..ks[0]]))
    ensures Resolve(ctx, st, fs[0]).Some? <==>
              Ready(ctx.scan, items, known, ks[0]) &&
              FitsUnder(ctx, Bindings(ctx, st.symbols, fs), items[ks[0]], addrs[ks[0]])
  {
    hide NoRedefine, HasDomain, Identifiers, Named, Ordered, BlankElsewhere, Value, Fits, Bindings, Extends,
         Evaluable, Defined, Apply, Template;
    InvNumbers(ctx, items, addrs, ks, st);
    var item, a := items[ks[0]], addrs[ks[0]];
    var text := FixOf(item).value.1;
    assert fs[0] == FixupOf(item, a);
    assert LineOk(ctx, st, item, a, true);
    ValueInDomain(ctx, st.symbols, known + Defined(items[..ks[0]]), text);
    PendingNew(ctx, items, addrs, ks, st, fs);
    BindingsExtend(ctx, st.symbols, fs);
    var r := Value(ctx, st.symbols, text);
    if r.Ok? {
      ValueMonotone(ctx, st.symbols, Bindings(ctx, st.symbols, fs), text);
      ApplyExactly(st, item, a, r.value);
    }
  }

  /** What a line that is resolved binds. */
  lemma TurnBinds(ctx: Context, item: Item, a: nat, st: Asm, st': Asm, bound: set<string>)
    requires FixOf(item).Some? && Resolve(ctx, st, FixupOf(item, a)) == Some(st') && HasDomain(st.symbols, bound)
    ensures HasDomain(st'.symbols, if item.Define? then bound + {item.name} else bound)
    ensures st'.symbols
         == if item.Define? then Bind(st.symbols, item.name, Value(ctx, st.symbols, item.text).value) else st.symbols
  {
    hide HasDomain, Bind, Value, Bitwise;
    if item.Define? {
      BindDomain(st.symbols, bound, item.name, Value(ctx, st.symbols, item.text).value);
    }
  }

  /** The turn of a line leaves what the waiting ones bind in all. */
  lemma TurnBindings(ctx: Context, item: Item, a: nat, st: Asm, st': Asm, fs: seq<Fixup>)
    requires fs != [] && FixOf(item).Some? && fs[0] == FixupOf(item, a) && Resolve(ctx, st, fs[0]) == Some(st')
    ensures Bindings(ctx, st'.symbols, fs[1..]) == Bindings(ctx, st.symbols, fs)
  {
    hide Bind, Value, Bitwise;
  }

  /** The second phase from some line on, where the names of the first phase and those of the definitions
      before that line are bound. */
  lemma {:induction false} PhaseTwo(ctx: Context, items: seq<Item>, addrs: seq<nat>, ks: seq<nat>, st: Asm,
                                    fs: seq<Fixup>, known: set<string>, n: nat)
    requires Inv(ctx, items, addrs, ks, st) && NoRedefine(items) && Pending(items, addrs, ks, fs)
    requires n <= |items| && forall i :: 0 <= i < |ks| ==> n <= ks[i]
    requires Identifiers(st.symbols) && HasDomain(st.symbols, known + Defined(items[..n]))
    ensures ResolveAll(ctx, st, fs).Some? <==> AllReady(ctx, items, addrs, ks, known, Bindings(ctx, st.symbols, fs))
    decreases |fs|
  {
    hide Inv, NoRedefine, HasDomain, Identifiers, Resolve, Ready, FitsUnder, AllReady, FixOf, Defined, Extends, Value;
    InvNumbers(ctx, items, addrs, ks, st);
    if fs == [] {
      assert ks == [];
      NothingWaits(ctx, items, addrs, known, Bindings(ctx, st.symbols, fs));
    } else {
      var k := ks[0];
      HeadIs(items, addrs, ks, fs);
      assert forall j :: n <= j < k ==> j !in ks by { HeadIsFirst(items, ks); }
      SkipFinished(ctx, items, addrs, ks, st, known, n, k);
      OneTurn(ctx, items, addrs, ks, st, fs, known);
      TailNumbers(items, ks);
      AllReadyHead(ctx, items, addrs, ks, known, Bindings(ctx, st.symbols, fs));
      if Resolve(ctx, st, fs[0]).Some? {
        var st' := Resolve(ctx, st, fs[0]).value;
        NextTurn(ctx, items, addrs, ks, st, fs, st', known);
        PhaseTwo(ctx, items, addrs, ks[1..], st', fs[1..], known, k + 1);
      }
    }
  }

  lemma NothingWaits(ctx: Context, items: seq<Item>, addrs: seq<nat>, known: set<string>, symbols: seq<Symbol>)
    requires |addrs| == |items|
    ensures AllReady(ctx, items, addrs, [], known, symbols)
  {
  }

  lemma HeadIsFirst(items: seq<Item>, ks: seq<nat>)
    requires Numbers(items, ks) && ks != []
    ensures forall j :: j in ks ==> ks[0] <= j
    ensures forall i :: 0 <= i < |ks[1..]| ==> ks[0] + 1 <= ks[1..][i]
  {
    hide FixOf;
  }

  lemma NextTurn(ctx: Context, items: seq<Item>, addrs: seq<nat>, ks: seq<nat>, st: Asm, fs: seq<Fixup>, st': Asm,
                 known: set<string>)
    requires Inv(ctx, items, addrs, ks, st) && NoRedefine(items) && Pending(items, addrs, ks, fs) && ks != []
    requires Identifiers(st.symbols) && HasDomain(st.symbols, known + Defined(items[..ks[0]]))
    requires Resolve(ctx, st, fs[0]) == Some(st')
    ensures Inv(ctx, items, addrs, ks[1..], st') && Numbers(items, ks[1..]) && Pending(items, addrs, ks[1..], fs[1..])
    ensures Identifiers(st'.symbols) && HasDomain(st'.symbols, known + Defined(items[..ks[0] + 1]))
    ensures Bindings(ctx, st'.symbols, fs[1..]) == Bindings(ctx, st.symbols, fs)
    ensures forall i :: 0 <= i < |ks[1..]| ==> ks[0] + 1 <= ks[1..][i]
  {
    hide Inv, NoRedefine, HasDomain, Identifiers, Defined, Extends, Value, Resolve, Bindings, FixOf;
    InvNumbers(ctx, items, addrs, ks, st);
    var item, a := items[ks[0]], addrs[ks[0]];
    HeadIs(items, addrs, ks, fs);
    HeadIsFirst(items, ks);
    ResolveHead(ctx, items, addrs, ks, st, st');
    ResolveExtends(ctx, items, addrs, ks, st, st');
    IdentifiersGrow(st.symbols, st'.symbols);
    PendingTail(items, addrs, ks, fs);
    TurnBindings(ctx, item, a, st, st', fs);
    TurnBinds(ctx, item, a, st, st', known + Defined(items[..ks[0]]));
    DefinedNext(items, ks[0]);
    if item.Define? {
      assert known + Defined(items[..ks[0] + 1]) == known + Defined(items[..ks[0]]) + {item.name};
    }
  }

  // ----- whole programs

  /** The symbols at the end, as far as they have values. */
  ghost function FinalTable(ctx: Context, items: seq<Item>, early: set<nat>): seq<Symbol>
    requires AllParsed(items) && Scan(ctx, items, early).Assembled?
  {
    var st := Scan(ctx, items, early).st;
    Bindings(ctx, BindFreeMem(st).symbols, st.unresolved)
  }

  /** No value that an operand has is out of the range of its line, and no assertion is false. */
  ghost predicate OperandsFit(ctx: Context, items: seq<Item>, early: set<nat>)
    requires AllParsed(items) && Scan(ctx, items, early).Assembled?
  {
    forall k: nat :: k < |items| && FixOf(items[k]).Some? ==>
      FitsUnder(ctx, FinalTable(ctx, items, early), items[k], Addrs(ctx, items, early)[k])
  }

  /** A line that was resolved in the first phase was ready and fits. */
  lemma ResolvedReady(ctx: Context, items: seq<Item>, addrs: seq<nat>, ks: seq<nat>, st: Asm, fs: seq<Fixup>,
                      known: set<string>, k: nat)
    requires Inv(ctx, items, addrs, ks, st) && NoRedefine(items) && Pending(items, addrs, ks, fs)
    requires Identifiers(st.symbols) && HasDomain(st.symbols, known)
    requires k < |items| && k !in ks && FixOf(items[k]).Some?
    ensures Ready(ctx.scan, items, known, k) && FitsUnder(ctx, Bindings(ctx, st.symbols, fs), items[k], addrs[k])
  {
    hide NoRedefine, HasDomain, Identifiers, Named, Ordered, BlankElsewhere, Value, Fits, Bindings, Extends, Defined,
         Holds;
    InvNumbers(ctx, items, addrs, ks, st);
    assert LineOk(ctx, st, items[k], addrs[k], false);
    var text := FixOf(items[k]).value.1;
    ValueInDomain(ctx, st.symbols, known, text);
    PendingNew(ctx, items, addrs, ks, st, fs);
    BindingsExtend(ctx, st.symbols, fs);
    ValueMonotone(ctx, st.symbols, Bindings(ctx, st.symbols, fs), text);
  }

  /** All lines are ready and fit if and only if the waiting ones are and do. */
  lemma AllLinesReady(ctx: Context, items: seq<Item>, addrs: seq<nat>, ks: seq<nat>, st: Asm, fs: seq<Fixup>,
                      known: set<string>)
    requires Inv(ctx, items, addrs, ks, st) && NoRedefine(items) && Pending(items, addrs, ks, fs)
    requires Identifiers(st.symbols) && HasDomain(st.symbols, known) && |addrs| == |items| && Numbers(items, ks)
    ensures AllReady(ctx, items, addrs, ks, known, Bindings(ctx, st.symbols, fs)) <==>
              forall k: nat :: k < |items| && FixOf(items[k]).Some? ==>
                Ready(ctx.scan, items, known, k) && FitsUnder(ctx, Bindings(ctx, st.symbols, fs), items[k], addrs[k])
  {
    hide Inv, NoRedefine, HasDomain, Identifiers, Ready, FitsUnder, Bindings, FixOf;
    if AllReady(ctx, items, addrs, ks, known, Bindings(ctx, st.symbols, fs)) {
      forall k: nat | k < |items| && FixOf(items[k]).Some?
        ensures Ready(ctx.scan, items, known, k) && FitsUnder(ctx, Bindings(ctx, st.symbols, fs), items[k], addrs[k])
      {
        if k in ks {
          var i :| 0 <= i < |ks| && ks[i] == k;
        } else {
          ResolvedReady(ctx, items, addrs, ks, st, fs, known, k);
        }
      }
    }
  }

  lemma FreeMemDomain(symbols: seq<Symbol>, known: set<string>, st: Asm)
    requires HasDomain(st.symbols, known)
    ensures HasDomain(BindFreeMem(st).symbols, known + {"FREE_MEM"}) && BindFreeMem(st).unresolved == st.unresolved
  {
    hide HasDomain, Bind;
    BindDomain(st.symbols, known, "FREE_MEM", st.ramLoc);
  }

  /** When the second phase succeeds: for every program that redefines no name and gets through the first
      phase, it does if and only if every operand is an expression over the labels, the static memory, the
      definitions evaluated in the first phase, FREE_MEM and the definitions on earlier lines, and every
      value fits. */
  lemma AssemblesExactly(ctx: Context, items: seq<Item>, early: set<nat>)
    requires AllParsed(items) && NoRedefine(items) && Scan(ctx, items, early).Assembled?
    ensures Assemble(ctx, items, early).Assembled? <==>
            InOrder(ctx.scan, items, early) && OperandsFit(ctx, items, early)
  {
    hide Inv, NoRedefine, Scan, Pending, HasDomain, Identifiers, BindFreeMem, Bindings, FixOf, Evaluable, FitsUnder,
         AllReady, Known, Extends;
    var st, addrs := Scan(ctx, items, early).st, Addrs(ctx, items, early);
    var known, names := Known(ctx.scan, items, early), Known(ctx.scan, items, early) + {"FREE_MEM"};
    var ks := ScanInv(ctx, items, early);
    KnownIsDomain(ctx, items, early);
    ScanIdentifiers(ctx, items, early);
    FreeMemDomain(st.symbols, known, st);
    FreeMemInv(ctx, items, addrs, ks, st);
    FreeMemExtends(ctx, items, addrs, ks, st);
    var bound := BindFreeMem(st);
    IdentifiersGrow(st.symbols, bound.symbols);
    InvNumbers(ctx, items, addrs, ks, st);
    assert items[..0] == [] && names + Defined([]) == names;
    PhaseTwo(ctx, items, addrs, ks, bound, st.unresolved, names, 0);
    AllLinesReady(ctx, items, addrs, ks, bound, st.unresolved, names);
    forall k: nat | k < |items| && FixOf(items[k]).Some?
      ensures Ready(ctx.scan, items, names, k) <==>
              Evaluable(ctx.scan, FixOf(items[k]).value.1, Available(ctx.scan, items, early, k))
    {
    }
  }

  /** Lines whose operands fit whatever their values. */
  predicate AnyValueFits(item: Item) {
    item.Define? || item.Echo? || item.Immediate? || item.Memory?
  }

  /** For programs in which every value fits, the names alone decide. */
  lemma NamesDecide(ctx: Context, items: seq<Item>, early: set<nat>)
    requires AllParsed(items) && NoRedefine(items) && Scan(ctx, items, early).Assembled?
    requires forall k :: 0 <= k < |items| && FixOf(items[k]).Some? ==> AnyValueFits(items[k])
    ensures Assemble(ctx, items, early).Assembled? <==> InOrder(ctx.scan, items, early)
  {
    hide Assemble, Scan, NoRedefine, InOrder, FinalTable, Value;
    AssemblesExactly(ctx, items, early);
  }

  // ----- definitions in the wrong order, and in the right one

  const WRONG_ORDER: seq<Item> := [Define("a", " b"), Define("b", " c"), Label("c")]

  const RIGHT_ORDER: seq<Item> := [Define("b", " c"), Define("a", " b"), Label("c")]

  lemma Padded()
    ensures IsPadded(" b", "b") && IsPadded(" c", "c")
  {
    assert StandsAt(" b", "b", 1) && StandsAt(" c", "c", 1);
  }

  /** What the two texts read as. */
  lemma TextsRead(scan: EscapeScanner, names: set<string>)
    ensures Evaluable(scan, " b", names) <==> "b" in names
    ensures Evaluable(scan, " c", names) <==> "c" in names
  {
    hide Read, IsPadded;
    Padded();
    PaddedReads(scan, " b", "b");
    PaddedReads(scan, " c", "c");
    OneName("b");
    OneName("c");
  }

  lemma OneName(name: string)
    ensures var ws: seq<Token<Word>> := [Num(Name(name))];
            NamesOf(ws) == {name} && Verdict(ws) == Done
  {
    var ws: seq<Token<Word>> := [Num(Name(name))];
    var none: seq<Token<Word>> := [];
    assert ws[1..] == none;
    assert NamesOf(none) == {} && !Overclosed(none, 0) && Depth(none, 0) == 0;
    assert !Stutters(ws, false) && !Overclosed(ws, 0) && Depth(ws, 0) == 0 && EndsOperand(ws, false);
  }

  lemma ScansOne(ctx: Context, first: Item, second: Item, early: set<nat>)
    requires (first == Define("a", " b") && second == Define("b", " c")) ||
             (first == Define("b", " c") && second == Define("a", " b"))
    ensures var items := [first, second, Label("c")];
            && AllParsed(items) && NoRedefine(items) && Scan(ctx, items, early).Assembled?
            && Known(ctx.scan, items, early) == {"ISR", "c"}
  {
    hide ParseExp, Blank, Evaluable;
    var items := [first, second, Label("c")];
    assert items[..2] == [first, second] && [first, second][..1] == [first] && [first][..0] == [];
    TextsRead(ctx.scan, {"ISR"});
    assert Scan(ctx, [first], early).Assembled?;
    assert Known(ctx.scan, [first], early) == {"ISR"};
    assert Known(ctx.scan, [first, second], early) == {"ISR"};
  }

  lemma WrongOrderFails(ctx: Context, early: set<nat>)
    ensures AllParsed(WRONG_ORDER) && NoRedefine(WRONG_ORDER)
    ensures Assemble(ctx, WRONG_ORDER, early) == Failed(NotResolved)
  {
    hide Scan, Known, NoRedefine, Evaluable;
    ScansOne(ctx, Define("a", " b"), Define("b", " c"), early);
    NamesDecide(ctx, WRONG_ORDER, early);
    assert WRONG_ORDER[..0] == [];
    TextsRead(ctx.scan, Available(ctx.scan, WRONG_ORDER, early, 0));
    assert !Evaluable(ctx.scan, FixOf(WRONG_ORDER[0]).value.1, Available(ctx.scan, WRONG_ORDER, early, 0));
  }

  lemma RightOrderAssembles(ctx: Context, early: set<nat>)
    ensures AllParsed(RIGHT_ORDER) && NoRedefine(RIGHT_ORDER) && Assemble(ctx, RIGHT_ORDER, early).Assembled?
  {
    hide Scan, Known, NoRedefine, Evaluable, Assemble;
    ScansOne(ctx, Define("b", " c"), Define("a", " b"), early);
    NamesDecide(ctx, RIGHT_ORDER, early);
    assert RIGHT_ORDER[..1] == [RIGHT_ORDER[0]] && RIGHT_ORDER[..1][..0] == [];
    TextsRead(ctx.scan, Available(ctx.scan, RIGHT_ORDER, early, 0));
    TextsRead(ctx.scan, Available(ctx.scan, RIGHT_ORDER, early, 1));
  }

  /** A definition by a name that is defined on a later line, by a label that comes later still: nothing is
      wrong with the names, but the assembler gives up. In the other order it does not. */
  lemma OrderMatters(ctx: Context, early: set<nat>)
    ensures NoRedefine(WRONG_ORDER) && NoRedefine(RIGHT_ORDER) && AllParsed(WRONG_ORDER) && AllParsed(RIGHT_ORDER)
    ensures Assemble(ctx, WRONG_ORDER, early) == Failed(NotResolved) && Assemble(ctx, RIGHT_ORDER, early).Assembled?
  {
    hide Assemble, NoRedefine;
    WrongOrderFails(ctx, early);
    RightOrderAssembles(ctx, early);
  }
}
