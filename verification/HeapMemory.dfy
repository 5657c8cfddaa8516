/**
 The bytes behind the heap: two-byte headers threaded through memory.

 A header holds the low byte of the next header's address, then its high byte with the top bit
 replaced by the used flag. MallocFrom walks and rewrites the bytes the way n_malloc does;
 MallocRefines shows that on the list of blocks this is HeapBlocks.AllocFrom.
 */
module HeapMemory {
  import opened Bytes
  import opened HeapBlocks

  const MAX_MEM := 0xFF00
  const FREE_MEM := 0x8000

  type Memory = m: seq<Byte> | |m| == MAX_MEM witness seq(MAX_MEM, _ => 0)

  function Next(m: Memory, i: int): int
    requires 0 <= i && i + 1 < MAX_MEM
  {
    0x8000 + m[i + 1] as int % 128 * 256 + m[i] as int
  }

  predicate Used(m: Memory, i: int)
    requires 0 <= i && i + 1 < MAX_MEM
  {
    m[i + 1] >= 128
  }

  function SetHeader(m: Memory, i: int, next: int, used: bool): Memory
    requires 0 <= i && i + 1 < MAX_MEM
  {
    m[i + 1 := (if used then 128 else 0) + next / 256 % 128][i := next % 256]
  }

  /** Following the headers from i leads exactly to the end of memory. */
  ghost predicate Chain(m: Memory, i: int)
    decreases MAX_MEM - i
  {
    FREE_MEM <= i <= MAX_MEM &&
    (i < MAX_MEM ==> i + 2 <= MAX_MEM && i + 2 <= Next(m, i) && Chain(m, Next(m, i)))
  }

  ghost function Blocks(m: Memory, i: int): (bs: seq<Block>)
    requires Chain(m, i)
    ensures Tiles(bs, i, MAX_MEM)
    ensures forall b :: b in bs ==> i <= b.start && b.start + 2 <= b.end <= MAX_MEM
    decreases MAX_MEM - i
  {
    if i == MAX_MEM then [] else [Block(i, Next(m, i), Used(m, i))] + Blocks(m, Next(m, i))
  }

  /** The coalescing loop: the end of the free blocks that start at next. */
  function RunEnd(m: Memory, next: int): (e: int)
    requires Chain(m, next)
    ensures next <= e && Chain(m, e)
    ensures e == MAX_MEM || Used(m, e)
    decreases MAX_MEM - next
  {
    if next + 1 < MAX_MEM && !Used(m, next) then RunEnd(m, Next(m, next)) else next
  }

  /** Claiming the free run from i to end, splitting off what the request leaves over. */
  function ClaimAt(m: Memory, i: int, end: int, sz: nat): Memory
    requires 0 <= i && sz + 2 < end - i && end <= MAX_MEM
  {
    if sz + 4 + MIN_ALLOC < end - i then
      SetHeader(SetHeader(m, i, i + sz + 2, true), i + sz + 2, end, false)
    else
      SetHeader(m, i, end, true)
  }

  /** The walk over the headers from i: the address handed out, or 0, and the bytes afterwards. */
  function MallocFrom(m: Memory, i: int, sz: nat): (int, Memory)
    requires Chain(m, i)
    decreases MAX_MEM - i
  {
    if i + 1 >= MAX_MEM then (0, m)
    else if Used(m, i) then MallocFrom(m, Next(m, i), sz)
    else
      var end := RunEnd(m, Next(m, i));
      if sz + 2 < end - i then
        (i + 2, ClaimAt(m, i, end, sz))
      else
        var m' := SetHeader(m, i, end, false);
        SameChain(m, m', end);
        MallocFrom(m', end, sz)
  }

  function FreeAt(m: Memory, addr: int): Memory
    requires 0 < addr <= MAX_MEM
  {
    m[addr - 1 := m[addr - 1] % 128]
  }

  function Init(m: Memory): Memory {
    m[FREE_MEM := MAX_MEM % 256][FREE_MEM + 1 := MAX_MEM / 256 % 128]
  }

  // ----- headers and frames

  lemma HeaderReadsBack(m: Memory, i: int, next: int, used: bool)
    requires 0 <= i && i + 1 < MAX_MEM && FREE_MEM <= next <= MAX_MEM
    ensures var m' := SetHeader(m, i, next, used); Next(m', i) == next && Used(m', i) == used
  {
  }

  /** The chain from i depends only on the bytes from i upwards. */
  lemma {:induction false} SameChain(m: Memory, m': Memory, i: int)
    requires Chain(m, i) && m[i..] == m'[i..]
    ensures Chain(m', i) && Blocks(m', i) == Blocks(m, i)
    decreases MAX_MEM - i
  {
    if i < MAX_MEM {
      assert m[i] == m[i..][0] && m[i + 1] == m[i..][1];
      assert m'[i] == m'[i..][0] && m'[i + 1] == m'[i..][1];
      var n := Next(m, i);
      assert m[n..] == m[i..][n - i..] && m'[n..] == m'[i..][n - i..];
      SameChain(m, m', n);
    }
  }

  lemma InitHeap(m: Memory)
    ensures Chain(Init(m), FREE_MEM)
    ensures Blocks(Init(m), FREE_MEM) == [Block(FREE_MEM, MAX_MEM, false)]
  {
    assert Next(Init(m), FREE_MEM) == MAX_MEM;
    assert Blocks(Init(m), MAX_MEM) == [];
  }

  // ----- malloc on bytes is first fit on blocks

  lemma {:induction false} RunEndIsFreePrefix(m: Memory, i: int)
    requires Chain(m, i) && i < MAX_MEM && !Used(m, i)
    ensures var bs := Blocks(m, i);
            var k := FreePrefix(bs);
            var end := RunEnd(m, Next(m, i));
            && 0 < k && bs[k - 1].end == end && Blocks(m, end) == bs[k..]
    decreases MAX_MEM - i
  {
    var n := Next(m, i);
    var bs := Blocks(m, i);
    assert bs[1..] == Blocks(m, n);
    if n < MAX_MEM && !Used(m, n) {
      RunEndIsFreePrefix(m, n);
    }
  }

  /** A header written at i, pointing at a chain above it, extends that chain by one block. */
  lemma ChainFrom(m: Memory, i: int, next: int, used: bool)
    requires FREE_MEM <= i && i + 2 <= next <= MAX_MEM && Chain(m, next)
    ensures var m' := SetHeader(m, i, next, used);
            && Chain(m', i) && Blocks(m', i) == [Block(i, next, used)] + Blocks(m, next)
  {
    var m' := SetHeader(m, i, next, used);
    HeaderReadsBack(m, i, next, used);
    assert m[next..] == m'[next..];
    SameChain(m, m', next);
  }

  lemma ClaimRefines(m: Memory, i: int, end: int, sz: nat)
    requires FREE_MEM <= i && sz + 2 < end - i && end <= MAX_MEM && Chain(m, end)
    ensures var m' := ClaimAt(m, i, end, sz);
            && Chain(m', i) && m'[..i] == m[..i]
            && Blocks(m', i) == Claim(i, end, sz) + Blocks(m, end)
  {
    if sz + 4 + MIN_ALLOC < end - i {
      var next := i + sz + 2;
      var m2 := SetHeader(m, next, end, false);
      ChainFrom(m, next, end, false);
      ChainFrom(m2, i, next, true);
      assert ClaimAt(m, i, end, sz) == SetHeader(m2, i, next, true);
    } else {
      ChainFrom(m, i, end, true);
    }
  }

  /** A header left alone goes on describing its block. */
  lemma SameHeader(m: Memory, m': Memory, i: int, n: int)
    requires Chain(m, i) && i < MAX_MEM && Next(m, i) == n && Chain(m', n)
    requires m'[i] == m[i] && m'[i + 1] == m[i + 1]
    ensures Chain(m', i) && Blocks(m', i) == [Block(i, n, Used(m, i))] + Blocks(m', n)
    ensures Blocks(m, i)[0] == Block(i, n, Used(m, i)) && Blocks(m, i)[1..] == Blocks(m, n)
  {
  }

  lemma SameFront(m: Memory, m': Memory, i: int, n: int)
    requires 0 <= i && i + 2 <= n <= MAX_MEM && m'[..n] == m[..n]
    ensures m'[..i] == m[..i] && m'[i] == m[i] && m'[i + 1] == m[i + 1]
  {
    assert m[..i] == m[..n][..i] && m'[..i] == m'[..n][..i];
    assert m[i] == m[..n][i] && m[i + 1] == m[..n][i + 1];
    assert m'[i] == m'[..n][i] && m'[i + 1] == m'[..n][i + 1];
  }

  /** What MallocFrom must have done to the bytes m from i on, given its result. */
  ghost predicate Refined(m: Memory, i: int, sz: nat, r: int, m': Memory)
    requires Chain(m, i)
  {
    Chain(m', i) && m'[..i] == m[..i] && (r, Blocks(m', i)) == AllocFrom(Blocks(m, i), sz)
  }

  lemma RefinedPastUsed(m: Memory, i: int, sz: nat, r: int, m': Memory)
    requires Chain(m, i) && i < MAX_MEM && Used(m, i) && Refined(m, Next(m, i), sz, r, m')
    ensures Refined(m, i, sz, r, m')
  {
    SameFront(m, m', i, Next(m, i));
    SameHeader(m, m', i, Next(m, i));
  }

  lemma RefinedPastFree(m: Memory, i: int, end: int, sz: nat, r: int, m': Memory)
    requires Chain(m, i) && i < MAX_MEM && !Used(m, i) && end == RunEnd(m, Next(m, i)) && end - i <= sz + 2
    requires var m1 := SetHeader(m, i, end, false);
             Chain(m1, end) && Blocks(m1, end) == Blocks(m, end) && Refined(m1, end, sz, r, m')
    ensures Refined(m, i, sz, r, m')
  {
    var m1 := SetHeader(m, i, end, false);
    ChainFrom(m, i, end, false);
    SameFront(m1, m', i, end);
    SameHeader(m1, m', i, end);
    RunEndIsFreePrefix(m, i);
    assert m1[..i] == m[..i];
  }

  lemma RefinedHere(m: Memory, i: int, end: int, sz: nat)
    requires Chain(m, i) && i < MAX_MEM && !Used(m, i) && end == RunEnd(m, Next(m, i)) && sz + 2 < end - i
    ensures var (r, m') := MallocFrom(m, i, sz); Refined(m, i, sz, r, m')
  {
    RunEndIsFreePrefix(m, i);
    ClaimRefines(m, i, end, sz);
  }

  /** The byte-level walk refines first fit on the list of blocks, and leaves the bytes below its
      starting point alone. */
  lemma {:induction false} MallocRefines(m: Memory, i: int, sz: nat)
    requires Chain(m, i)
    ensures var (r, m') := MallocFrom(m, i, sz); Refined(m, i, sz, r, m')
    decreases MAX_MEM - i
  {
    if i < MAX_MEM {
      var n := Next(m, i);
      var (r, m') := MallocFrom(m, i, sz);
      if Used(m, i) {
        MallocRefines(m, n, sz);
        RefinedPastUsed(m, i, sz, r, m');
      } else {
        var end := RunEnd(m, n);
        if sz + 2 < end - i {
          RefinedHere(m, i, end, sz);
        } else {
          var m1 := SetHeader(m, i, end, false);
          SameChain(m, m1, end);
          MallocRefines(m1, end, sz);
          RefinedPastFree(m, i, end, sz, r, m');
        }
      }
    }
  }

  /** What a whole walk means for the blocks. */
  lemma MallocOnBlocks(m: Memory, sz: nat)
    requires Chain(m, FREE_MEM)
    ensures var (r, m') := MallocFrom(m, FREE_MEM, sz);
            && Chain(m', FREE_MEM)
            && (r, Blocks(m', FREE_MEM)) == AllocFrom(Blocks(m, FREE_MEM), sz)
            && (r == 0 <==> NothingFits(Blocks(m, FREE_MEM), sz))
  {
    MallocRefines(m, FREE_MEM, sz);
    AllocIsFirstFit(Blocks(m, FREE_MEM), FREE_MEM, MAX_MEM, sz);
  }

  /** Every byte malloc writes lies in a block that was free. */
  lemma {:induction false} MallocWritesFreeSpace(m: Memory, i: int, sz: nat, b: Block, a: int)
    requires Chain(m, i) && b in Blocks(m, i) && b.used && b.start <= a < b.end
    ensures MallocFrom(m, i, sz).1[a] == m[a]
    decreases MAX_MEM - i
  {
    var n := Next(m, i);
    if Used(m, i) {
      if b.start == i {
        BlockAtStart(m, i, b);
        MallocRefines(m, n, sz);
        SameBelow(m, MallocFrom(m, n, sz).1, n, a);
      } else {
        assert b in Blocks(m, n);
        MallocWritesFreeSpace(m, n, sz, b, a);
      }
    } else {
      BehindFreeRun(m, i, b);
      var end := RunEnd(m, n);
      if end - i <= sz + 2 {
        var m1 := SetHeader(m, i, end, false);
        SameChain(m, m1, end);
        MallocWritesFreeSpace(m1, end, sz, b, a);
      } else {
        ClaimWritesBelow(m, i, end, sz, a);
      }
    }
  }

  lemma SameBelow(m: Memory, m': Memory, n: int, a: int)
    requires 0 <= a < n <= MAX_MEM && m'[..n] == m[..n]
    ensures m'[a] == m[a]
  {
    assert m[a] == m[..n][a] && m'[a] == m'[..n][a];
  }

  lemma ClaimWritesBelow(m: Memory, i: int, end: int, sz: nat, a: int)
    requires 0 <= i && sz + 2 < end - i && end <= a < MAX_MEM
    ensures ClaimAt(m, i, end, sz)[a] == m[a]
  {
  }

  /** A block in use cannot be part of the free run at i. */
  lemma BehindFreeRun(m: Memory, i: int, b: Block)
    requires Chain(m, i) && b in Blocks(m, i) && b.used && !Used(m, i)
    ensures b in Blocks(m, RunEnd(m, Next(m, i))) && RunEnd(m, Next(m, i)) <= b.start
  {
    var bs := Blocks(m, i);
    var k := FreePrefix(bs);
    RunEndIsFreePrefix(m, i);
    assert b in bs[..k] || b in bs[k..];
  }

  // ----- free and user writes

  /** Clearing the flag in a header frees that block and changes no other. */
  lemma {:induction false} FreeRefines(m: Memory, i: int, b: Block)
    requires Chain(m, i) && b in Blocks(m, i)
    ensures var m' := FreeAt(m, b.start + 2);
            Chain(m', i) && Blocks(m', i) == Released(Blocks(m, i), b.start)
    decreases MAX_MEM - i
  {
    var n := Next(m, i);
    if b.start == i {
      BlockAtStart(m, i, b);
      FreeHere(m, i, n);
    } else {
      assert b in Blocks(m, n);
      FreeRefines(m, n, b);
      FreeBeyond(m, i, n, b.start);
    }
  }

  lemma FreeBeyond(m: Memory, i: int, n: int, start: int)
    requires Chain(m, i) && i < MAX_MEM && n == Next(m, i) && n <= start && start + 2 <= MAX_MEM
    requires var m' := FreeAt(m, start + 2);
             Chain(m', n) && Blocks(m', n) == Released(Blocks(m, n), start)
    ensures var m' := FreeAt(m, start + 2);
            Chain(m', i) && Blocks(m', i) == Released(Blocks(m, i), start)
  {
    SameHeader(m, FreeAt(m, start + 2), i, n);
  }

  lemma FreeHere(m: Memory, i: int, n: int)
    requires Chain(m, i) && i < MAX_MEM && n == Next(m, i)
    ensures var m' := FreeAt(m, i + 2);
            Chain(m', i) && Blocks(m', i) == Released(Blocks(m, i), i)
  {
    var bs := Blocks(m, n);
    assert n / 256 % 128 == m[i + 1] % 128 && n % 256 == m[i];
    assert FreeAt(m, i + 2) == SetHeader(m, i, n, false);
    ChainFrom(m, i, n, false);
    ReleasedElsewhere(bs, i);
    assert ([Block(i, n, Used(m, i))] + bs)[1..] == bs;
  }

  /** A write behind the header of a block leaves the list of blocks as it is. */
  lemma {:induction false} WriteKeepsBlocks(m: Memory, i: int, b: Block, a: int, v: Byte)
    requires Chain(m, i) && b in Blocks(m, i) && b.start + 2 <= a < b.end
    ensures Chain(m[a := v], i) && Blocks(m[a := v], i) == Blocks(m, i)
    decreases MAX_MEM - i
  {
    var n := Next(m, i);
    if b.start == i {
      BlockAtStart(m, i, b);
      SameAbove(m, m[a := v], n);
    } else {
      assert b in Blocks(m, n);
      WriteKeepsBlocks(m, n, b, a, v);
    }
    SameHeader(m, m[a := v], i, n);
  }

  lemma SameAbove(m: Memory, m': Memory, n: int)
    requires Chain(m, n) && forall x :: n <= x < MAX_MEM ==> m'[x] == m[x]
    ensures Chain(m', n) && Blocks(m', n) == Blocks(m, n)
  {
    assert m[n..] == m'[n..];
    SameChain(m, m', n);
  }

  lemma BlockAtStart(m: Memory, i: int, b: Block)
    requires Chain(m, i) && b in Blocks(m, i) && b.start == i
    ensures b == Blocks(m, i)[0] && b.end == Next(m, i) && b.used == Used(m, i)
  {
    assert forall c :: c in Blocks(m, Next(m, i)) ==> i < c.start;
  }
}
