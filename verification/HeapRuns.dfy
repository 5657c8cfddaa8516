/**
 Whole runs of the allocator: any sequence of mallocs, frees of live pointers, and writes by the
 user inside live payloads, starting from an initialised heap over arbitrary memory.
 */
module HeapRuns {
  import opened Bytes
  import opened HeapBlocks
  import opened HeapMemory

  /** Memory, and the requested size of every live block. The pointer the user holds to a live
      block is its payload address. */
  datatype Heap = Heap(mem: Memory, live: map<Block, nat>)

  function Payload(b: Block): int {
    b.start + 2
  }

  datatype Op =
    | Malloc(sz: nat)
    | Free(b: Block)
    | Write(b: Block, addr: int, value: Byte)

  ghost function BlocksOf(h: Heap): seq<Block>
    requires Chain(h.mem, FREE_MEM)
  {
    Blocks(h.mem, FREE_MEM)
  }

  /** The live blocks are the blocks in use, and each payload is at least as long as was asked for
      and at most 3 bytes longer. */
  ghost predicate Inv(h: Heap) {
    && Chain(h.mem, FREE_MEM)
    && h.live.Keys == InUse(BlocksOf(h))
    && forall b | b in h.live :: h.live[b] <= b.end - Payload(b) <= h.live[b] + 3
  }

  ghost predicate Legal(h: Heap, op: Op) {
    match op
    case Malloc(_) => true
    case Free(b) => b in h.live
    case Write(b, addr, _) => b in h.live && Payload(b) <= addr < b.end
  }

  /** The block a successful malloc put behind the pointer r. */
  function BlockAt(m: Memory, r: int): Block
    requires 2 <= r <= MAX_MEM
  {
    Block(r - 2, Next(m, r - 2), true)
  }

  /** One operation: its result, 0 except for a successful malloc, and the heap afterwards. */
  ghost function Step(h: Heap, op: Op): (int, Heap)
    requires Inv(h) && Legal(h, op)
  {
    match op
    case Malloc(sz) =>
      var (r, m) := MallocFrom(h.mem, FREE_MEM, sz);
      (r, Heap(m, if 2 <= r <= MAX_MEM then h.live[BlockAt(m, r) := sz] else h.live))
    case Free(b) => (0, Heap(FreeAt(h.mem, Payload(b)), h.live - {b}))
    case Write(b, addr, value) => (0, Heap(h.mem[addr := value], h.live))
  }

  // ----- every step keeps the invariant

  /** Malloc, seen from the blocks in use. */
  lemma MallocBlocks(m: Memory, sz: nat) returns (n: Block)
    requires Chain(m, FREE_MEM)
    ensures var (r, m') := MallocFrom(m, FREE_MEM, sz);
            && Chain(m', FREE_MEM)
            && (r, Blocks(m', FREE_MEM)) == AllocFrom(Blocks(m, FREE_MEM), sz)
            && if r == 0 then InUse(Blocks(m', FREE_MEM)) == InUse(Blocks(m, FREE_MEM))
               else InUse(Blocks(m', FREE_MEM)) == InUse(Blocks(m, FREE_MEM)) + {n} && Serves(n, r, sz)
    ensures var (r, m') := MallocFrom(m, FREE_MEM, sz);
            r != 0 ==>
              && FREE_MEM <= n.start && n.end <= MAX_MEM && n == BlockAt(m', r)
              && n !in InUse(Blocks(m, FREE_MEM))
              && forall b | b in InUse(Blocks(m, FREE_MEM)) :: Apart(b, n)
  {
    var (r, m') := MallocFrom(m, FREE_MEM, sz);
    MallocRefines(m, FREE_MEM, sz);
    n := AllocKeepsUsed(Blocks(m, FREE_MEM), FREE_MEM, MAX_MEM, sz);
    if r != 0 {
      assert n in InUse(Blocks(m', FREE_MEM));
      BlockHeader(m', FREE_MEM, n);
      assert !Apart(n, n);
    }
  }

  /** Malloc, seen from the live blocks. */
  lemma MallocStep(h: Heap, sz: nat) returns (n: Block)
    requires Inv(h)
    ensures var (r, h') := Step(h, Malloc(sz));
            && Inv(h')
            && (r, BlocksOf(h')) == AllocFrom(BlocksOf(h), sz)
            && if r == 0 then h'.live == h.live
               else h'.live == h.live[n := sz] && n !in h.live && r == Payload(n)
                    && forall b | b in h.live :: Apart(b, n)
  {
    n := MallocBlocks(h.mem, sz);
    var (r, m') := MallocFrom(h.mem, FREE_MEM, sz);
    var h' := Step(h, Malloc(sz)).1;
    if r == 0 {
      assert h' == Heap(m', h.live);
    } else {
      assert h' == Heap(m', h.live[n := sz]);
      assert h'.live.Keys == h.live.Keys + {n};
    }
  }

  /** Every block's own header says where it ends and that it is in use. */
  lemma {:induction false} BlockHeader(m: Memory, i: int, b: Block)
    requires Chain(m, i) && b in Blocks(m, i)
    ensures Next(m, b.start) == b.end && Used(m, b.start) == b.used
    decreases MAX_MEM - i
  {
    if b.start == i {
      BlockAtStart(m, i, b);
    } else {
      assert b in Blocks(m, Next(m, i));
      BlockHeader(m, Next(m, i), b);
    }
  }

  lemma FreeStep(h: Heap, b: Block)
    requires Inv(h) && b in h.live
    ensures var h' := Step(h, Free(b)).1;
            Inv(h') && BlocksOf(h') == Released(BlocksOf(h), b.start)
  {
    FreeRefines(h.mem, FREE_MEM, b);
    ReleasedInUse(BlocksOf(h), FREE_MEM, MAX_MEM, b);
  }

  lemma WriteStep(h: Heap, b: Block, addr: int, value: Byte)
    requires Inv(h) && Legal(h, Write(b, addr, value))
    ensures var h' := Step(h, Write(b, addr, value)).1;
            Inv(h') && BlocksOf(h') == BlocksOf(h)
  {
    WriteKeepsBlocks(h.mem, FREE_MEM, b, addr, value);
  }

  lemma StepKeepsInv(h: Heap, op: Op)
    requires Inv(h) && Legal(h, op)
    ensures Inv(Step(h, op).1)
  {
    match op
    case Malloc(sz) => var _ := MallocStep(h, sz);
    case Free(b) => FreeStep(h, b);
    case Write(b, addr, value) => WriteStep(h, b, addr, value);
  }

  // ----- what a step may change

  /** No allocator step changes a byte of a payload that is live before and after it. */
  lemma AllocatorLeavesPayloads(h: Heap, op: Op, b: Block, a: int)
    requires Inv(h) && Legal(h, op) && !op.Write?
    requires b in h.live && op != Free(b) && Payload(b) <= a < b.end
    ensures b in Step(h, op).1.live && Step(h, op).1.mem[a] == h.mem[a]
  {
    match op
    case Malloc(sz) =>
      var _ := MallocStep(h, sz);
      MallocWritesFreeSpace(h.mem, FREE_MEM, sz, b, a);
    case Free(c) =>
      BlocksDisjoint(BlocksOf(h), FREE_MEM, MAX_MEM, b, c);
  }

  /** Live payloads lie inside the heap and are disjoint, with room for a header between them. */
  lemma LivePayloadsDisjoint(h: Heap, b: Block, c: Block)
    requires Inv(h) && b in h.live && c in h.live && b != c
    ensures FREE_MEM + 2 <= Payload(b) && b.end <= MAX_MEM
    ensures b.end + 2 <= Payload(c) || c.end + 2 <= Payload(b)
  {
    BlocksDisjoint(BlocksOf(h), FREE_MEM, MAX_MEM, b, c);
  }

  // ----- runs

  ghost function Start(m: Memory): (h: Heap)
    ensures Inv(h)
  {
    InitHeap(m);
    assert InUse(Blocks(Init(m), FREE_MEM)) == {};
    Heap(Init(m), map[])
  }

  /** The results of a sequence of operations and the heap at the end, unless some operation is not
      one the user may perform. */
  datatype Outcome = Illegal | Outcome(results: seq<int>, heap: Heap)

  ghost function Run(h: Heap, ops: seq<Op>): (o: Outcome)
    requires Inv(h)
    ensures o.Outcome? ==> Inv(o.heap)
    decreases |ops|
  {
    if ops == [] then Outcome([], h)
    else if !Legal(h, ops[0]) then Illegal
    else
      StepKeepsInv(h, ops[0]);
      var rest := Run(Step(h, ops[0]).1, ops[1..]);
      if rest.Illegal? then Illegal else Outcome([Step(h, ops[0]).0] + rest.results, rest.heap)
  }

  /** A heap that can come about. */
  ghost predicate Reachable(h: Heap) {
    exists m: Memory, ops: seq<Op> :: Arrives(m, ops, h)
  }

  ghost predicate Arrives(m: Memory, ops: seq<Op>, h: Heap) {
    var o := Run(Start(m), ops);
    o.Outcome? && o.heap == h
  }

  /** Safety over all runs: the headers tile the heap from its first address to its last, in blocks
      of at least 2 bytes whose sizes add up to all of it, and the live blocks are as they should be. */
  lemma HeapSafety(h: Heap)
    requires Reachable(h)
    ensures Inv(h)
    ensures Tiles(BlocksOf(h), FREE_MEM, MAX_MEM) && TotalSize(BlocksOf(h)) == 0x7F00
  {
    TilesTotal(BlocksOf(h), FREE_MEM, MAX_MEM);
  }

  lemma ChainOf(h: Heap)
    requires Inv(h)
    ensures Chain(h.mem, FREE_MEM)
  {
  }

  /** The exact allocation criterion on the bytes, from every reachable heap. */
  lemma MallocCriterion(h: Heap, sz: nat)
    requires Reachable(h)
    ensures Inv(h)
    ensures var r := Step(h, Malloc(sz)).0;
            && (r == 0 <==> NothingFits(BlocksOf(h), sz))
            && Inv(Step(h, Malloc(sz)).1) && (r != 0 ==> Served(BlocksOf(h), sz, r, BlocksOf(Step(h, Malloc(sz)).1)))
  {
    hide Inv, Served, NothingFits, AllocFrom, Tiles, Step;
    HeapSafety(h);
    var _ := MallocStep(h, sz);
    ChainOf(h);
    AllocIsFirstFit(BlocksOf(h), FREE_MEM, MAX_MEM, sz);
  }

  /** A malloc that fails has merged all adjacent free blocks. */
  lemma FailedMallocCoalesces(h: Heap, sz: nat)
    requires Inv(h) && Step(h, Malloc(sz)).0 == 0
    ensures Inv(Step(h, Malloc(sz)).1) && Coalesced(BlocksOf(Step(h, Malloc(sz)).1))
  {
    var _ := MallocStep(h, sz);
    FailureCoalesces(BlocksOf(h), FREE_MEM, MAX_MEM, sz);
  }

  /** Once nothing is live, a request succeeds exactly when it fits the whole heap, whatever
      happened before. */
  lemma EverythingFreed(h: Heap, sz: nat)
    requires Inv(h) && h.live == map[]
    ensures Step(h, Malloc(sz)).0 == if sz <= 0x7EFD then FREE_MEM + 2 else 0
  {
    var bs := BlocksOf(h);
    var k := FreePrefix(bs);
    forall b | b in bs
      ensures !b.used
    {
      assert b.used ==> b in InUse(bs);
    }
    TilesSplit(bs, FREE_MEM, MAX_MEM, k);
    var _ := MallocStep(h, sz);
    assert bs[k..] == [];
  }

  // ----- the history of splits and merges cannot be observed

  /** Two heaps that differ at most in how their free space is cut up. */
  ghost predicate Alike(h: Heap, g: Heap) {
    Inv(h) && Inv(g) && h.live == g.live && Merged(BlocksOf(h)) == Merged(BlocksOf(g))
  }

  lemma AlikeMalloc(h: Heap, g: Heap, sz: nat)
    requires Alike(h, g)
    ensures Step(h, Malloc(sz)).0 == Step(g, Malloc(sz)).0
    ensures Alike(Step(h, Malloc(sz)).1, Step(g, Malloc(sz)).1)
  {
    var n := MallocStep(h, sz);
    var n' := MallocStep(g, sz);
    var (r, h') := Step(h, Malloc(sz));
    var g' := Step(g, Malloc(sz)).1;
    AllocSeesMerged(BlocksOf(h), FREE_MEM, MAX_MEM, sz);
    AllocSeesMerged(BlocksOf(g), FREE_MEM, MAX_MEM, sz);
    MergedInUse(BlocksOf(h'), FREE_MEM, MAX_MEM);
    MergedInUse(BlocksOf(g'), FREE_MEM, MAX_MEM);
    if r != 0 {
      assert n in h'.live && n' in h'.live;
      if n != n' {
        BlocksDisjoint(BlocksOf(h'), FREE_MEM, MAX_MEM, n, n');
      }
    }
  }

  lemma AlikeFree(h: Heap, g: Heap, b: Block)
    requires Alike(h, g) && b in h.live
    ensures Alike(Step(h, Free(b)).1, Step(g, Free(b)).1)
  {
    FreeStep(h, b);
    FreeStep(g, b);
    ReleaseSeesMerged(BlocksOf(h), FREE_MEM, MAX_MEM, b);
    ReleaseSeesMerged(BlocksOf(g), FREE_MEM, MAX_MEM, b);
  }

  lemma {:induction false} MergedInUse(bs: seq<Block>, a: int, z: int)
    requires Tiles(bs, a, z)
    ensures InUse(Merged(bs)) == InUse(bs)
    decreases |bs|
  {
    if bs != [] {
      var k := if bs[0].used then 1 else FreePrefix(bs);
      TilesSplit(bs, a, z, k);
      MergedInUse(bs[k..], bs[k - 1].end, z);
      assert bs == bs[..k] + bs[k..];
      InUseConcat(bs[..k], bs[k..]);
      if bs[0].used {
        InUseConcat([bs[0]], Merged(bs[1..]));
        assert bs[..k] == [bs[0]];
      } else {
        InUseConcat([Block(bs[0].start, bs[k - 1].end, false)], Merged(bs[k..]));
        assert InUse(bs[..k]) == {};
      }
    }
  }

  /** No sequence of mallocs, frees and writes can tell such heaps apart. */
  lemma {:induction false} HistoryInvisible(h: Heap, g: Heap, ops: seq<Op>)
    requires Alike(h, g)
    ensures var x, y := Run(h, ops), Run(g, ops);
            if x.Illegal? then y.Illegal?
            else y.Outcome? && x.results == y.results && Alike(x.heap, y.heap)
    decreases |ops|
  {
    if ops != [] && Legal(h, ops[0]) {
      var h', g' := Step(h, ops[0]).1, Step(g, ops[0]).1;
      AlikeStep(h, g, ops[0]);
      HistoryInvisible(h', g', ops[1..]);
    }
  }

  lemma AlikeStep(h: Heap, g: Heap, op: Op)
    requires Alike(h, g) && Legal(h, op)
    ensures Step(h, op).0 == Step(g, op).0 && Alike(Step(h, op).1, Step(g, op).1)
  {
    match op
    case Malloc(sz) => AlikeMalloc(h, g, sz);
    case Free(b) => AlikeFree(h, g, b);
    case Write(b, addr, value) =>
      WriteStep(h, b, addr, value);
      WriteStep(g, b, addr, value);
  }
}
