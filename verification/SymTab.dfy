/**
 The symbol table of Toolchain/src/symtab.c: a growing array searched from the front.
 */
module SymTab {
  import opened Lexer

  /** The position of the first entry called name from i on, or the length of the table. */
  function IndexOf(symbols: seq<Symbol>, name: string, i: nat): (k: nat)
    requires i <= |symbols|
    ensures i <= k <= |symbols|
    ensures k < |symbols| ==> symbols[k].name == name
    ensures forall j :: i <= j < k ==> symbols[j].name != name
    decreases |symbols| - i
  {
    if i == |symbols| || symbols[i].name == name then i else IndexOf(symbols, name, i + 1)
  }

  function Lookup(symbols: seq<Symbol>, name: string): Option<int> {
    var k := IndexOf(symbols, name, 0);
    if k == |symbols| then None else Some(symbols[k].value)
  }

  function Bind(symbols: seq<Symbol>, name: string, value: int): seq<Symbol> {
    var k := IndexOf(symbols, name, 0);
    if k == |symbols| then symbols + [Symbol(name, value)] else symbols[k := Symbol(name, value)]
  }

  /** The last value written for a name wins, and other names keep theirs. */
  lemma LookupBind(symbols: seq<Symbol>, name: string, value: int, other: string)
    ensures Lookup(Bind(symbols, name, value), other) == if other == name then Some(value) else Lookup(symbols, other)
  {
    var t := Bind(symbols, name, value);
    var j, k := IndexOf(symbols, other, 0), IndexOf(t, other, 0);
    assert forall i :: 0 <= i < |symbols| ==> t[i].name == symbols[i].name;
    if other != name {
      if j < |symbols| {
        assert t[j].name == other && k <= j;
        assert symbols[k].name == other;
      }
    } else {
      var i := IndexOf(symbols, name, 0);
      assert t[i].name == name;
    }
  }

  /** Names stay unique. */
  lemma BindKeepsUnique(symbols: seq<Symbol>, name: string, value: int)
    requires UniqueNames(symbols)
    ensures UniqueNames(Bind(symbols, name, value))
  {
  }

  /** What is in a table with unique names is what lookup finds. */
  lemma LookupIsMembership(symbols: seq<Symbol>, name: string, value: int)
    requires UniqueNames(symbols)
    ensures Symbol(name, value) in symbols <==> Lookup(symbols, name) == Some(value)
  {
    var k := IndexOf(symbols, name, 0);
    if Symbol(name, value) in symbols {
      var j :| 0 <= j < |symbols| && symbols[j] == Symbol(name, value);
      assert symbols[k].name == symbols[j].name;
    }
  }

  /** Defining a new identifier extends the table. */
  lemma BindExtends(symbols: seq<Symbol>, name: string, value: int)
    requires UniqueNames(symbols) && IsIdentifier(name) && Lookup(symbols, name) == None
    ensures Bind(symbols, name, value) == symbols + [Symbol(name, value)]
    ensures Extends(symbols, Bind(symbols, name, value))
  {
    var t := Bind(symbols, name, value);
    BindKeepsUnique(symbols, name, value);
    assert forall k :: 0 <= k < |symbols| ==> t[k] == symbols[k];
  }

  class Table {
    var symbols: array<Symbol>
    var len: nat

    ghost predicate Valid()
      reads this
    {
      len <= symbols.Length
    }

    ghost function Contents(): seq<Symbol>
      reads this, symbols
      requires Valid()
    {
      symbols[..len]
    }

    constructor ()
      ensures Valid() && fresh(symbols) && Contents() == []
    {
      symbols := new Symbol[0];
      len := 0;
    }

    /** The position of the entry called name, or None. */
    method Find(name: string) returns (k: Option<nat>)
      requires Valid()
      ensures k == if IndexOf(Contents(), name, 0) == len then None else Some(IndexOf(Contents(), name, 0))
    {
      for i := 0 to len
        invariant IndexOf(Contents(), name, i) == IndexOf(Contents(), name, 0)
      {
        if name == symbols[i].name {
          return Some(i);
        }
      }
      k := None;
    }

    method Get(name: string) returns (value: Option<int>)
      requires Valid()
      ensures value == Lookup(Contents(), name)
    {
      var k := Find(name);
      value := if k.None? then None else Some(symbols[k.value].value);
    }

    method Put(name: string, value: int)
      requires Valid()
      modifies this, symbols
      ensures Valid() && (symbols == old(symbols) || fresh(symbols))
      ensures Contents() == Bind(old(Contents()), name, value)
    {
      ghost var before := Contents();
      var k := Find(name);
      if k.Some? {
        symbols[k.value] := Symbol(name, value);
      } else {
        if len >= symbols.Length {
          var bigger := new Symbol[if symbols.Length == 0 then 1 else 2 * symbols.Length];
          forall i | 0 <= i < len {
            bigger[i] := symbols[i];
          }
          symbols := bigger;
        }
        symbols[len] := Symbol(name, value);
        len := len + 1;
        assert symbols[..len] == before + [Symbol(name, value)];
      }
    }
  }
}
