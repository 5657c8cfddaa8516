/**
 The byte arithmetic of Toolchain/src/nandy_alufuncs.c, and the multi-byte arithmetic made from it by
 passing the carry along. Numbers of several bytes have the lowest byte first.
 */
module Alu {
  import opened Bytes

  datatype Sum = Sum(q: Byte, carry: bool)

  function Bit(c: bool): int {
    if c then 1 else 0
  }

  function Add(a: Byte, b: Byte, cin: bool): Sum {
    var result := a as int + b as int + Bit(cin);
    Sum(result % 256, result / 256 % 2 != 0)
  }

  function Sub(a: Byte, b: Byte, cin: bool): Sum {
    var result := a as int + 255 + Bit(cin) - b as int;
    Sum(result % 256, result / 256 % 2 != 0)
  }

  function ShiftLeft(a: Byte, cin: bool): Sum {
    Sum((2 * a as int + Bit(cin)) % 256, a / 128 % 2 != 0)
  }

  function ShiftRight(a: Byte, cin: bool): Sum {
    Sum(a / 2 + 128 * Bit(cin), a % 2 != 0)
  }

  // ----- numbers of several bytes

  datatype Chain = Chain(q: seq<Byte>, carry: bool)

  function Value(a: seq<Byte>): nat {
    if a == [] then 0 else a[0] as int + 256 * Value(a[1..])
  }

  function Pow256(k: nat): nat {
    if k == 0 then 1 else 256 * Pow256(k - 1)
  }

  /** A carry out of the k-th byte. */
  function CarryOut(c: bool, k: nat): nat {
    if c then Pow256(k) else 0
  }

  function AddChain(a: seq<Byte>, b: seq<Byte>, cin: bool): (r: Chain)
    requires |a| == |b|
    ensures |r.q| == |a|
  {
    if a == [] then Chain([], cin)
    else
      var s := Add(a[0], b[0], cin);
      var rest := AddChain(a[1..], b[1..], s.carry);
      Chain([s.q] + rest.q, rest.carry)
  }

  function SubChain(a: seq<Byte>, b: seq<Byte>, cin: bool): (r: Chain)
    requires |a| == |b|
    ensures |r.q| == |a|
  {
    if a == [] then Chain([], cin)
    else
      var s := Sub(a[0], b[0], cin);
      var rest := SubChain(a[1..], b[1..], s.carry);
      Chain([s.q] + rest.q, rest.carry)
  }

  /** From the lowest byte to the highest. */
  function ShiftLeftChain(a: seq<Byte>, cin: bool): (r: Chain)
    ensures |r.q| == |a|
  {
    if a == [] then Chain([], cin)
    else
      var s := ShiftLeft(a[0], cin);
      var rest := ShiftLeftChain(a[1..], s.carry);
      Chain([s.q] + rest.q, rest.carry)
  }

  /** From the highest byte to the lowest. */
  function ShiftRightChain(a: seq<Byte>, cin: bool): (r: Chain)
    ensures |r.q| == |a|
  {
    if a == [] then Chain([], cin)
    else
      var rest := ShiftRightChain(a[1..], cin);
      var s := ShiftRight(a[0], rest.carry);
      Chain([s.q] + rest.q, s.carry)
  }

  lemma {:induction false} ValueBound(a: seq<Byte>)
    ensures Value(a) < Pow256(|a|)
  {
    if a != [] {
      ValueBound(a[1..]);
    }
  }

  lemma ValueCons(x: Byte, rest: seq<Byte>)
    ensures Value([x] + rest) == x as int + 256 * Value(rest)
  {
    assert ([x] + rest)[1..] == rest;
  }

  lemma AddStep(a: Byte, b: Byte, cin: bool)
    ensures var s := Add(a, b, cin); s.q as int + 256 * Bit(s.carry) == a as int + b as int + Bit(cin)
  {
  }

  lemma SubStep(a: Byte, b: Byte, cin: bool)
    ensures var s := Sub(a, b, cin); s.q as int + 256 * Bit(s.carry) == a as int + 255 + Bit(cin) - b as int
  {
  }

  lemma ShiftLeftStep(a: Byte, cin: bool)
    ensures var s := ShiftLeft(a, cin); s.q as int + 256 * Bit(s.carry) == 2 * a as int + Bit(cin)
  {
  }

  /** Adding with carry, byte by byte, adds the numbers; the last carry is the overflow. */
  lemma {:induction false} AddChainAdds(a: seq<Byte>, b: seq<Byte>, cin: bool)
    requires |a| == |b|
    ensures var r := AddChain(a, b, cin);
            Value(r.q) + CarryOut(r.carry, |a|) == Value(a) + Value(b) + Bit(cin)
  {
    hide Add;
    if a != [] {
      var s := Add(a[0], b[0], cin);
      var rest := AddChain(a[1..], b[1..], s.carry);
      AddStep(a[0], b[0], cin);
      AddChainAdds(a[1..], b[1..], s.carry);
      ValueCons(s.q, rest.q);
    }
  }

  /** With carry set to begin with, subtracting byte by byte subtracts modulo the range, and the last
      carry tells whether there was nothing to borrow. */
  lemma SubChainSubtracts(a: seq<Byte>, b: seq<Byte>)
    requires |a| == |b|
    ensures var r := SubChain(a, b, true);
            && (r.carry <==> Value(a) >= Value(b))
            && Value(r.q) == if Value(a) >= Value(b) then Value(a) - Value(b) else Value(a) - Value(b) + Pow256(|a|)
  {
    var r := SubChain(a, b, true);
    SubChainBorrows(a, b, true);
    ValueBound(r.q);
    ValueBound(a);
    ValueBound(b);
  }

  lemma {:induction false} SubChainBorrows(a: seq<Byte>, b: seq<Byte>, cin: bool)
    requires |a| == |b|
    ensures var r := SubChain(a, b, cin);
            Value(r.q) + CarryOut(r.carry, |a|) == Value(a) + Pow256(|a|) - 1 + Bit(cin) - Value(b)
  {
    hide Sub;
    if a != [] {
      var s := Sub(a[0], b[0], cin);
      var rest := SubChain(a[1..], b[1..], s.carry);
      SubStep(a[0], b[0], cin);
      SubChainBorrows(a[1..], b[1..], s.carry);
      ValueCons(s.q, rest.q);
    }
  }

  /** Shifting left through the carry doubles the whole number. */
  lemma {:induction false} ShiftLeftDoubles(a: seq<Byte>, cin: bool)
    ensures var r := ShiftLeftChain(a, cin);
            Value(r.q) + CarryOut(r.carry, |a|) == 2 * Value(a) + Bit(cin)
  {
    hide ShiftLeft;
    if a != [] {
      var s := ShiftLeft(a[0], cin);
      var rest := ShiftLeftChain(a[1..], s.carry);
      ShiftLeftStep(a[0], cin);
      ShiftLeftDoubles(a[1..], s.carry);
      ValueCons(s.q, rest.q);
    }
  }

  /** Shifting right through the carry halves the whole number, and the bit that falls out is the
      last carry. */
  lemma {:induction false} ShiftRightHalves(a: seq<Byte>, cin: bool)
    ensures var r := ShiftRightChain(a, cin);
            2 * Value(r.q) + Bit(r.carry) == Value(a) + CarryOut(cin, |a|)
  {
    if a != [] {
      var rest := ShiftRightChain(a[1..], cin);
      var s := ShiftRight(a[0], rest.carry);
      ShiftRightHalves(a[1..], cin);
      ValueCons(s.q, rest.q);
    }
  }

  /** Shifting back undoes a shift, if the bit that fell out is put back in. */
  lemma ShiftsUndo(a: seq<Byte>, cin: bool)
    ensures var r := ShiftLeftChain(a, cin);
            ShiftRightChain(r.q, r.carry) == Chain(a, cin)
  {
    var r := ShiftLeftChain(a, cin);
    var u := ShiftRightChain(r.q, r.carry);
    ShiftLeftDoubles(a, cin);
    ShiftRightHalves(r.q, r.carry);
    ValueInjective(u.q, a);
  }

  lemma {:induction false} ValueInjective(a: seq<Byte>, b: seq<Byte>)
    requires |a| == |b| && Value(a) == Value(b)
    ensures a == b
  {
    if a != [] {
      ValueInjective(a[1..], b[1..]);
      assert a == [a[0]] + a[1..] && b == [b[0]] + b[1..];
    }
  }
}
