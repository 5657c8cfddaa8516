/** Machine bytes, kept as bounded integers. */
module Bytes {

  type Byte = b: int | 0 <= b < 256

  type Word16 = a: int | 0 <= a < 0x10000

  function Pow2(n: nat): (p: nat)
    ensures p > 0
  {
    if n == 0 then 1 else 2 * Pow2(n - 1)
  }

  lemma Pow2Of8()
    ensures Pow2(8) == 256
  {
    assert Pow2(4) == 16;
    assert Pow2(6) == 64;
  }
}
