/**
 What the bitwise instructions compute, bit by bit and as numbers.
 */
module BitLaws {
  import opened Bytes
  import opened Processor
  import Alu

  /** The bit that comes out when the number has been halved k times. */
  predicate BitAt(b: nat, k: nat) {
    if k == 0 then b % 2 == 1 else BitAt(b / 2, k - 1)
  }

  lemma {:induction false} BitsAt(op: BitOp, a: nat, b: nat, n: nat, k: nat)
    requires k < n
    ensures BitAt(BitsOf(op, a, b, n), k) <==>
            match op
            case AndOp => BitAt(a, k) && BitAt(b, k)
            case OrOp => BitAt(a, k) || BitAt(b, k)
            case XorOp => BitAt(a, k) != BitAt(b, k)
  {
    var rest := BitsOf(op, a / 2, b / 2, n - 1);
    assert BitsOf(op, a, b, n) / 2 == rest;
    if k > 0 {
      BitsAt(op, a / 2, b / 2, n - 1, k - 1);
    }
  }

  /** Every bit of the result is the and, or or exclusive or of the two bits. */
  lemma BitwiseAt(op: BitOp, a: Byte, b: Byte, k: nat)
    requires k < 8
    ensures BitAt(Bitwise(op, a, b), k) <==>
            match op
            case AndOp => BitAt(a, k) && BitAt(b, k)
            case OrOp => BitAt(a, k) || BitAt(b, k)
            case XorOp => BitAt(a, k) != BitAt(b, k)
  {
    BitsAt(op, a, b, 8, k);
  }

  lemma {:induction false} BitsSum(a: nat, b: nat, n: nat)
    requires a < Pow2(n) && b < Pow2(n)
    ensures BitsOf(AndOp, a, b, n) + BitsOf(OrOp, a, b, n) == a + b
    ensures BitsOf(OrOp, a, b, n) == BitsOf(AndOp, a, b, n) + BitsOf(XorOp, a, b, n)
  {
    if n > 0 {
      BitsSum(a / 2, b / 2, n - 1);
    }
  }

  /** As numbers: and and or add up to the operands, and or is and plus exclusive or. */
  lemma BitwiseSums(a: Byte, b: Byte)
    ensures Bitwise(AndOp, a, b) as int + Bitwise(OrOp, a, b) as int == a as int + b as int
    ensures Bitwise(OrOp, a, b) as int == Bitwise(AndOp, a, b) as int + Bitwise(XorOp, a, b) as int
  {
    Pow2Of8();
    BitsSum(a, b, 8);
  }

  lemma BitsStep(a: nat, mask: nat, n: nat)
    requires n > 0
    ensures BitsOf(AndOp, a, 2 * mask + 1, n) == a % 2 + 2 * BitsOf(AndOp, a / 2, mask, n - 1)
  {
    hide Pow2;
    var m := 2 * mask + 1;
    assert m % 2 == 1 && m / 2 == mask;
    assert BitsOf(AndOp, a, m, n) == Alu.Bit(a % 2 == 1) + 2 * BitsOf(AndOp, a / 2, m / 2, n - 1);
  }

  lemma {:induction false} BitsMask(a: nat, n: nat, k: nat)
    requires k <= n
    ensures BitsOf(AndOp, a, Pow2(k) - 1, n) == a % Pow2(k)
  {
    if k > 0 {
      hide BitsOf;
      var p := Pow2(k - 1);
      assert Pow2(k) == 2 * p;
      BitsMask(a / 2, n - 1, k - 1);
      BitsStep(a, p - 1, n);
      ModTwice(a, p);
    } else if n > 0 {
      BitsMask(a / 2, n - 1, 0);
    }
  }

  lemma ModTwice(a: nat, p: nat)
    requires p > 0
    ensures a % (2 * p) == a % 2 + 2 * (a / 2 % p)
  {
    var q, r := a / 2 / p, 2 * (a / 2 % p) + a % 2;
    assert a / 2 == p * q + a / 2 % p;
    assert a == 2 * p * q + r;
    Remainder(a, 2 * p, q, r);
  }

  lemma Remainder(a: int, d: nat, q: int, r: nat)
    requires a == d * q + r && r < d
    ensures a % d == r
  {
    var q', r' := a / d, a % d;
    assert d * (q - q') == r' - r;
    if q > q' {
      Multiple(d, q - q');
    } else if q < q' {
      Multiple(d, q' - q);
    }
  }

  lemma Multiple(d: nat, n: nat)
    requires n > 0
    ensures d * n >= d
  {
  }

  /** Masking with the low k bits is the remainder. */
  lemma AndMasks(a: Byte, k: nat)
    requires k <= 8
    ensures var mask := Pow2(k) - 1; mask < 256 && Bitwise(AndOp, a, mask) as int == a as int % Pow2(k)
  {
    MaskFits(k);
    BitsMask(a, 8, k);
  }

  lemma {:induction false} Pow2Grows(k: nat, n: nat)
    requires k <= n
    ensures Pow2(k) <= Pow2(n)
    decreases n
  {
    if k < n {
      Pow2Grows(k, n - 1);
    }
  }

  lemma MaskFits(k: nat)
    requires k <= 8
    ensures Pow2(k) <= 256
  {
    Pow2Of8();
    Pow2Grows(k, 8);
  }

  /** Exclusive or with the same byte twice changes nothing. */
  lemma {:induction false} BitsXorTwice(a: nat, b: nat, n: nat)
    requires a < Pow2(n)
    ensures BitsOf(XorOp, BitsOf(XorOp, a, b, n), b, n) == a
  {
    if n > 0 {
      BitsXorTwice(a / 2, b / 2, n - 1);
    }
  }

  lemma XorUndoes(a: Byte, b: Byte)
    ensures Bitwise(XorOp, Bitwise(XorOp, a, b), b) == a
  {
    Pow2Of8();
    BitsXorTwice(a, b, 8);
  }
}
