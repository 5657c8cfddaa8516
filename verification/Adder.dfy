/**
 The adder of Simulation/src-old, from its NAND gates up (xornand.v, fulladder.v, addern.v, addsub.v,
 mux.v), and its agreement with the byte arithmetic of the emulator.

 Words are sequences of wires, bit 0 first.
 */
module Adder {
  import opened Bytes
  import Alu

  function Nand(a: bool, b: bool): bool {
    !(a && b)
  }

  /** The two outputs q and n of an xornand cell. */
  function XorNand(a: bool, b: bool): (bool, bool) {
    var n := Nand(a, b);
    var na, nb := Nand(a, n), Nand(b, n);
    (Nand(na, nb), n)
  }

  /** The two outputs q and cout of a full adder. */
  function FullAdder(a: bool, b: bool, cin: bool): (bool, bool) {
    var (qpre, c1) := XorNand(a, b);
    var (q, c2) := XorNand(qpre, cin);
    (q, Nand(c1, c2))
  }

  function Invert(a: bool): bool {
    Nand(a, true)
  }

  function SelMux(a: bool, b: bool, sa: bool, sb: bool): bool {
    Nand(Nand(a, sa), Nand(b, sb))
  }

  function Mux(a: bool, b: bool, s: bool): bool {
    SelMux(a, b, Invert(s), s)
  }

  function Value(w: seq<bool>): nat {
    if w == [] then 0 else Alu.Bit(w[0]) + 2 * Value(w[1..])
  }

  /** An array of full adders, where the carry wires carrythru join the carry output of each one to the
      carry input of the next. */
  ghost predicate FullAdders(a: seq<bool>, b: seq<bool>, cin: bool, carrythru: seq<bool>, q: seq<bool>, cout: bool) {
    var width := |a|;
    && width >= 1 && |b| == |q| == width && |carrythru| == width - 1
    && forall i :: 0 <= i < width ==>
         FullAdder(a[i], b[i], ([cin] + carrythru)[i]) == (q[i], (carrythru + [cout])[i])
  }

  /** The netlist of addern, whose range of carry wires makes sense from width 2 on. */
  ghost predicate AdderN(a: seq<bool>, b: seq<bool>, cin: bool, carrythru: seq<bool>, q: seq<bool>, cout: bool) {
    |a| >= 2 && FullAdders(a, b, cin, carrythru, q, cout)
  }

  /** For every width, whatever the wires carry when the gates have settled, the outputs are the sum. */
  lemma AdderAdds(a: seq<bool>, b: seq<bool>, cin: bool, carrythru: seq<bool>, q: seq<bool>, cout: bool)
    requires AdderN(a, b, cin, carrythru, q, cout)
    ensures Value(q) + (if cout then Pow2(|a|) else 0) == Value(a) + Value(b) + Alu.Bit(cin)
  {
    FullAddersAdd(a, b, cin, carrythru, q, cout);
  }

  lemma {:induction false} FullAddersAdd(a: seq<bool>, b: seq<bool>, cin: bool,
                                         carrythru: seq<bool>, q: seq<bool>, cout: bool)
    requires FullAdders(a, b, cin, carrythru, q, cout)
    ensures Value(q) + (if cout then Pow2(|a|) else 0) == Value(a) + Value(b) + Alu.Bit(cin)
  {
    if |a| == 1 {
      assert a[1..] == b[1..] == q[1..] == [];
      assert FullAdder(a[0], b[0], ([cin] + carrythru)[0]) == (q[0], (carrythru + [cout])[0]);
    } else {
      var c := carrythru[0];
      assert FullAdder(a[0], b[0], ([cin] + carrythru)[0]) == (q[0], (carrythru + [cout])[0]);
      forall i | 0 <= i < |a| - 1
        ensures FullAdder(a[1..][i], b[1..][i], ([c] + carrythru[1..])[i]) == (q[1..][i], (carrythru[1..] + [cout])[i])
      {
        assert ([c] + carrythru[1..])[i] == ([cin] + carrythru)[i + 1];
        assert (carrythru[1..] + [cout])[i] == (carrythru + [cout])[i + 1];
        assert FullAdder(a[i + 1], b[i + 1], ([cin] + carrythru)[i + 1]) == (q[i + 1], (carrythru + [cout])[i + 1]);
      }
      FullAddersAdd(a[1..], b[1..], c, carrythru[1..], q[1..], cout);
    }
  }

  // ----- the 8-bit adder and subtractor

  function Bits(n: nat, width: nat): (w: seq<bool>)
    ensures |w| == width
  {
    if width == 0 then [] else [n % 2 == 1] + Bits(n / 2, width - 1)
  }

  lemma {:induction false} BitsValue(n: nat, width: nat)
    requires n < Pow2(width)
    ensures Value(Bits(n, width)) == n
  {
    if width > 0 {
      BitsValue(n / 2, width - 1);
      assert Bits(n, width)[1..] == Bits(n / 2, width - 1);
    }
  }

  lemma {:induction false} ValueBound(w: seq<bool>)
    ensures Value(w) < Pow2(|w|)
  {
    if w != [] {
      ValueBound(w[1..]);
    }
  }

  /** The netlist of addsub: the second operand is inverted for a subtraction, and the carry going in
      is either the given one or the one that makes the plain operation. */
  ghost predicate AddSub(a: seq<bool>, b: seq<bool>, isSub: bool, isCarry: bool, cin: bool,
                         carrythru: seq<bool>, q: seq<bool>, cout: bool)
  {
    && |a| == |b|
    && AdderN(a, seq(|b|, i requires 0 <= i < |b| => XorNand(b[i], isSub).0), Mux(isSub, cin, isCarry),
              carrythru, q, cout)
  }

  lemma {:induction false} InvertedValue(b: seq<bool>, inv: seq<bool>, isSub: bool)
    requires |inv| == |b| && forall i :: 0 <= i < |b| ==> inv[i] == XorNand(b[i], isSub).0
    ensures Value(inv) == if isSub then Pow2(|b|) - 1 - Value(b) else Value(b)
  {
    if b != [] {
      assert inv[0] == XorNand(b[0], isSub).0;
      InvertedValue(b[1..], inv[1..], isSub);
    }
  }

  /** At width 8 the gates compute what the emulator computes, in every mode: addition or
      subtraction, with a carry going in or without. */
  lemma AddSubIsAlu(a: Byte, b: Byte, isSub: bool, isCarry: bool, cin: bool, carrythru: seq<bool>, q: seq<bool>,
                    cout: bool)
    requires AddSub(Bits(a, 8), Bits(b, 8), isSub, isCarry, cin, carrythru, q, cout)
    ensures var c := if isCarry then cin else isSub;
            Value(q) < 256 && Alu.Sum(Value(q), cout) == if isSub then Alu.Sub(a, b, c) else Alu.Add(a, b, c)
  {
    hide XorNand, FullAdder, Bits, Value, Pow2, Nand;
    var c := if isCarry then cin else isSub;
    var x, y := Bits(a, 8), Bits(b, 8);
    var inv := seq(|y|, i requires 0 <= i < |y| => XorNand(y[i], isSub).0);
    Pow2Of8();
    BitsValue(a, 8);
    BitsValue(b, 8);
    InvertedValue(y, inv, isSub);
    MuxSelects(isSub, cin, isCarry);
    AdderAdds(x, inv, c, carrythru, q, cout);
    ValueBound(q);
    Carries(a, b, isSub, c, Value(q), cout);
  }

  lemma MuxSelects(a: bool, b: bool, s: bool)
    ensures Mux(a, b, s) == if s then b else a
  {
  }

  lemma Carries(a: Byte, b: Byte, isSub: bool, c: bool, q: nat, cout: bool)
    requires q < 256
    requires q + (if cout then 256 else 0) == a + (if isSub then 255 - b as int else b) + Alu.Bit(c)
    ensures Alu.Sum(q, cout) == if isSub then Alu.Sub(a, b, c) else Alu.Add(a, b, c)
  {
  }

  /** The wires can always settle: the netlist has a solution for all inputs. */
  lemma AdderSettles(a: seq<bool>, b: seq<bool>, cin: bool) returns (carrythru: seq<bool>, q: seq<bool>, cout: bool)
    requires |a| == |b| >= 2
    ensures AdderN(a, b, cin, carrythru, q, cout)
  {
    carrythru, q, cout := FullAddersSettle(a, b, cin);
  }

  lemma {:induction false} FullAddersSettle(a: seq<bool>, b: seq<bool>, cin: bool)
    returns (carrythru: seq<bool>, q: seq<bool>, cout: bool)
    requires |a| == |b| >= 1
    ensures FullAdders(a, b, cin, carrythru, q, cout)
  {
    var (s, c) := FullAdder(a[0], b[0], cin);
    if |a| == 1 {
      carrythru, q, cout := [], [s], c;
    } else {
      var ct, qs, co := FullAddersSettle(a[1..], b[1..], c);
      carrythru, q, cout := [c] + ct, [s] + qs, co;
      forall i | 0 <= i < |a|
        ensures FullAdder(a[i], b[i], ([cin] + carrythru)[i]) == (q[i], (carrythru + [cout])[i])
      {
        if i > 0 {
          assert FullAdder(a[1..][i - 1], b[1..][i - 1], ([c] + ct)[i - 1]) == (qs[i - 1], (ct + [co])[i - 1]);
          assert ([cin] + carrythru)[i] == ([c] + ct)[i - 1];
          assert (carrythru + [cout])[i] == (ct + [co])[i - 1];
        }
      }
    }
  }
}
