/**
 The allocator of ReferenceImplementations/src/n_malloc.c over its global array of bytes.
 */
module NMalloc {
  import opened Bytes
  import opened HeapBlocks
  import opened HeapMemory

  class Allocator {
    const mem: array<Byte>

    ghost predicate Valid()
      reads this, mem
    {
      mem.Length == MAX_MEM && Chain(mem[..], FREE_MEM)
    }

    /** The array starts out zeroed, as a global does; the contents do not matter. */
    constructor ()
      ensures mem.Length == MAX_MEM && fresh(mem)
    {
      mem := new Byte[MAX_MEM](_ => 0);
    }

    method Init()
      requires mem.Length == MAX_MEM
      modifies mem
      ensures Valid() && mem[..] == HeapMemory.Init(old(mem[..]))
      ensures Blocks(mem[..], FREE_MEM) == [Block(FREE_MEM, MAX_MEM, false)]
    {
      InitHeap(mem[..]);
      mem[FREE_MEM] := MAX_MEM % 256;
      mem[FREE_MEM + 1] := MAX_MEM / 256 % 128;
      assert mem[..] == HeapMemory.Init(old(mem[..]));
    }

    method ReadNext(index: int) returns (next: int)
      requires mem.Length == MAX_MEM && 0 <= index && index + 1 < MAX_MEM
      ensures next == Next(mem[..], index)
    {
      next := 0x8000 + mem[index + 1] as int % 128 * 256 + mem[index] as int;
    }

    method WriteHeader(index: int, next: int, used: bool)
      requires mem.Length == MAX_MEM && 0 <= index && index + 1 < MAX_MEM
      modifies mem
      ensures mem[..] == SetHeader(old(mem[..]), index, next, used)
    {
      mem[index + 1] := (if used then 128 else 0) + next / 256 % 128;
      mem[index] := next % 256;
    }

    /** The inner loop of malloc: skip the free blocks from next on, so that they count as one. */
    method Coalesce(next: int) returns (end: int)
      requires mem.Length == MAX_MEM && Chain(mem[..], next)
      ensures end == RunEnd(mem[..], next)
    {
      end := next;
      while end + 1 < MAX_MEM && mem[end + 1] < 128
        invariant Chain(mem[..], end)
        invariant RunEnd(mem[..], end) == RunEnd(mem[..], next)
        decreases MAX_MEM - end
      {
        end := ReadNext(end);
      }
    }

    method ClaimBlock(index: int, end: int, sz: nat)
      requires mem.Length == MAX_MEM && 0 <= index && sz + 2 < end - index && end <= MAX_MEM
      modifies mem
      ensures mem[..] == ClaimAt(old(mem[..]), index, end, sz)
    {
      if sz + 4 + MIN_ALLOC < end - index {
        // the rest can hold a header of its own and more than MIN_ALLOC bytes
        var nextaddr := index + sz + 2;
        WriteHeader(index, nextaddr, true);
        WriteHeader(nextaddr, end, false);
      } else {
        WriteHeader(index, end, true);
      }
    }

    method Malloc(sz: nat) returns (r: int)
      requires Valid()
      modifies mem
      ensures Valid()
      ensures (r, mem[..]) == MallocFrom(old(mem[..]), FREE_MEM, sz)
      ensures (r, Blocks(mem[..], FREE_MEM)) == AllocFrom(Blocks(old(mem[..]), FREE_MEM), sz)
      ensures r == 0 <==> NothingFits(Blocks(old(mem[..]), FREE_MEM), sz)
    {
      ghost var m := mem[..];
      MallocOnBlocks(m, sz);
      var index := FREE_MEM;
      while index + 1 < MAX_MEM
        invariant Chain(mem[..], index)
        invariant MallocFrom(mem[..], index, sz) == MallocFrom(m, FREE_MEM, sz)
        decreases MAX_MEM - index
      {
        var next := ReadNext(index);
        if mem[index + 1] < 128 {
          next := Coalesce(next);
          if sz + 2 < next - index {
            ClaimBlock(index, next, sz);
            return index + 2;
          } else {
            // the walk goes on, but the merged free run stays one block from here on
            ghost var now := mem[..];
            WriteHeader(index, next, false);
            SameChain(now, mem[..], next);
          }
        }
        index := next;
      }
      r := 0;
    }

    method Free(addr: int, ghost b: Block)
      requires Valid() && b in InUse(Blocks(mem[..], FREE_MEM)) && addr == b.start + 2
      modifies mem
      ensures Valid() && mem[..] == FreeAt(old(mem[..]), addr)
      ensures InUse(Blocks(mem[..], FREE_MEM)) == InUse(Blocks(old(mem[..]), FREE_MEM)) - {b}
    {
      FreeRefines(mem[..], FREE_MEM, b);
      ReleasedInUse(Blocks(mem[..], FREE_MEM), FREE_MEM, MAX_MEM, b);
      mem[addr - 1] := mem[addr - 1] % 128;
      assert mem[..] == FreeAt(old(mem[..]), addr);
    }
  }
}
