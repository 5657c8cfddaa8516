/**
 The heap of ReferenceImplementations/src/n_malloc.c seen as a list of blocks.

 A block covers the addresses from start up to end, header included. AllocFrom says what a
 first-fit allocation does to the list; the theorems below say what that means in terms of
 maximal runs of adjacent free blocks, which AllocFrom never mentions.
 */
module HeapBlocks {

  const MIN_ALLOC := 1

  datatype Block = Block(start: int, end: int, used: bool)

  /** The blocks tile the addresses from a up to z, each with room for its header. */
  ghost predicate Tiles(bs: seq<Block>, a: int, z: int) {
    if bs == [] then a == z
    else bs[0].start == a && a + 2 <= bs[0].end && Tiles(bs[1..], bs[0].end, z)
  }

  /** The number of free blocks at the front of the list. */
  function FreePrefix(bs: seq<Block>): (k: nat)
    ensures k <= |bs|
    ensures forall i :: 0 <= i < k ==> !bs[i].used
    ensures k < |bs| ==> bs[k].used
  {
    if bs == [] || bs[0].used then 0 else 1 + FreePrefix(bs[1..])
  }

  /** What claiming a free run from start to end leaves behind for a request of sz bytes. */
  function Claim(start: int, end: int, sz: nat): (bs: seq<Block>)
    ensures bs != []
  {
    if sz + 4 + MIN_ALLOC < end - start then
      [Block(start, start + sz + 2, true), Block(start + sz + 2, end, false)]
    else
      [Block(start, end, true)]
  }

  /** First fit with coalescing: the address handed out (0 when there is none) and the new list. */
  function AllocFrom(bs: seq<Block>, sz: nat): (int, seq<Block>)
    decreases |bs|
  {
    if bs == [] then (0, [])
    else if bs[0].used then
      var (r, rest) := AllocFrom(bs[1..], sz);
      (r, [bs[0]] + rest)
    else
      var k := FreePrefix(bs);
      var start, end := bs[0].start, bs[k - 1].end;
      if sz + 2 < end - start then
        (start + 2, Claim(start, end, sz) + bs[k..])
      else
        var (r, rest) := AllocFrom(bs[k..], sz);
        (r, [Block(start, end, false)] + rest)
  }

  /** The blocks from i up to j are a maximal run of adjacent free blocks. */
  ghost predicate MaximalRun(bs: seq<Block>, i: nat, j: nat) {
    && i < j <= |bs|
    && (forall n :: i <= n < j ==> !bs[n].used)
    && (i == 0 || bs[i - 1].used)
    && (j == |bs| || bs[j].used)
  }

  ghost function RunLength(bs: seq<Block>, i: nat, j: nat): int
    requires i < j <= |bs|
  {
    bs[j - 1].end - bs[i].start
  }

  // ----- structure of tilings

  lemma {:induction false} TilesBounds(bs: seq<Block>, a: int, z: int)
    requires Tiles(bs, a, z)
    ensures a <= z
    ensures forall b :: b in bs ==> a <= b.start && b.start + 2 <= b.end <= z
  {
    if bs != [] {
      TilesBounds(bs[1..], bs[0].end, z);
      forall b | b in bs
        ensures a <= b.start && b.start + 2 <= b.end <= z
      {
        assert b == bs[0] || b in bs[1..];
      }
    }
  }

  lemma {:induction false} TilesConcat(xs: seq<Block>, ys: seq<Block>, a: int, m: int, z: int)
    requires Tiles(xs, a, m) && Tiles(ys, m, z)
    ensures Tiles(xs + ys, a, z)
  {
    if xs == [] {
      assert xs + ys == ys;
    } else {
      TilesConcat(xs[1..], ys, xs[0].end, m, z);
      assert (xs + ys)[1..] == xs[1..] + ys;
    }
  }

  /** Cutting a tiling in front of block k. */
  lemma {:induction false} TilesSplit(bs: seq<Block>, a: int, z: int, k: nat)
    requires Tiles(bs, a, z) && k <= |bs|
    ensures Tiles(bs[..k], a, if k == 0 then a else bs[k - 1].end)
    ensures Tiles(bs[k..], if k == 0 then a else bs[k - 1].end, z)
  {
    if k == 0 {
      assert bs[0..] == bs;
    } else {
      TilesSplit(bs[1..], bs[0].end, z, k - 1);
      assert bs[..k][1..] == bs[1..][..k - 1];
      assert bs[k..] == bs[1..][k - 1..];
    }
  }

  /** Two blocks of a tiling that are not the same block do not overlap. */
  lemma {:induction false} BlocksDisjoint(bs: seq<Block>, a: int, z: int, b: Block, c: Block)
    requires Tiles(bs, a, z) && b in bs && c in bs
    ensures b == c || b.end <= c.start || c.end <= b.start
  {
    TilesBounds(bs, a, z);
    TilesBounds(bs[1..], bs[0].end, z);
    assert forall x :: x in bs ==> x == bs[0] || x in bs[1..];
    if b in bs[1..] && c in bs[1..] {
      BlocksDisjoint(bs[1..], bs[0].end, z, b, c);
    }
  }

  // ----- the allocation itself

  /** The new list tiles the same addresses. */
  lemma {:induction false} AllocTiles(bs: seq<Block>, a: int, z: int, sz: nat)
    requires Tiles(bs, a, z)
    ensures Tiles(AllocFrom(bs, sz).1, a, z)
    decreases |bs|
  {
    if bs == [] {
    } else if bs[0].used {
      AllocTiles(bs[1..], bs[0].end, z, sz);
      var rest := AllocFrom(bs[1..], sz).1;
      assert ([bs[0]] + rest)[1..] == rest;
    } else {
      var k := FreePrefix(bs);
      var e := bs[k - 1].end;
      TilesSplit(bs, a, z, k);
      TilesBounds(bs[..k], a, e);
      assert bs[k - 1] == bs[..k][k - 1];
      if sz + 2 < e - a {
        var c := Claim(a, e, sz);
        assert Tiles(c, a, e) by {
          if sz + 4 + MIN_ALLOC < e - a {
            assert c[1..] == [Block(a + sz + 2, e, false)];
            assert c[1..][1..] == [];
          } else {
            assert c[1..] == [];
          }
        }
        TilesConcat(c, bs[k..], a, e, z);
      } else {
        assert bs[0] == bs[..k][0];
        AllocTiles(bs[k..], e, z, sz);
        var rest := AllocFrom(bs[k..], sz).1;
        assert ([Block(a, e, false)] + rest)[1..] == rest;
      }
    }
  }

  /** The blocks in use. */
  ghost function InUse(bs: seq<Block>): set<Block> {
    set b | b in bs && b.used
  }

  lemma InUseConcat(xs: seq<Block>, ys: seq<Block>)
    ensures InUse(xs + ys) == InUse(xs) + InUse(ys)
  {
    assert forall b :: b in xs + ys <==> b in xs || b in ys;
  }

  /** The block n fits a request of sz bytes whose payload is at r. */
  ghost predicate Serves(n: Block, r: int, sz: nat) {
    n.used && n.start + 2 == r && sz <= n.end - r <= sz + 3
  }

  ghost predicate Apart(b: Block, c: Block) {
    b.end <= c.start || c.end <= b.start
  }

  lemma ClaimInUse(a: int, e: int, sz: nat, back: seq<Block>)
    requires sz + 2 < e - a
    ensures var n := Claim(a, e, sz)[0];
            && InUse(Claim(a, e, sz) + back) == InUse(back) + {n}
            && Serves(n, a + 2, sz) && a <= n.start && n.end <= e
  {
    InUseConcat(Claim(a, e, sz), back);
    assert InUse(Claim(a, e, sz)) == {Claim(a, e, sz)[0]};
  }

  /** What an allocation between a and z does to the blocks in use; n is the new one, if there is one. */
  ghost predicate KeepsUsed(bs: seq<Block>, bs': seq<Block>, r: int, sz: nat, a: int, z: int, n: Block) {
    if r == 0 then InUse(bs') == InUse(bs)
    else InUse(bs') == InUse(bs) + {n} && Serves(n, r, sz) && a <= n.start && n.end <= z
         && forall b | b in InUse(bs) :: Apart(b, n)
  }

  /** Blocks in front do not get in the way. */
  lemma KeepsBehind(front: seq<Block>, front': seq<Block>, back: seq<Block>, back': seq<Block>, r: int, sz: nat,
      a: int, e: int, z: int, n: Block)
    requires Tiles(front, a, e) && a <= e && InUse(front') == InUse(front)
    requires KeepsUsed(back, back', r, sz, e, z, n)
    ensures KeepsUsed(front + back, front' + back', r, sz, a, z, n)
  {
    hide Serves;
    InUseConcat(front, back);
    InUseConcat(front', back');
    TilesBounds(front, a, e);
    forall b | b in InUse(front)
      ensures b.end <= e
    {
      assert b in front;
    }
  }

  /** A claimed run lies between the run's ends, behind which everything else starts. */
  lemma KeepsClaimed(front: seq<Block>, back: seq<Block>, sz: nat, a: int, e: int, z: int)
    requires Tiles(back, e, z) && e <= z && InUse(front) == {} && sz + 2 < e - a && 0 <= a
    ensures KeepsUsed(front + back, Claim(a, e, sz) + back, a + 2, sz, a, z, Claim(a, e, sz)[0])
  {
    hide Claim, Serves;
    InUseConcat(front, back);
    ClaimInUse(a, e, sz, back);
    TilesBounds(back, e, z);
    forall b | b in InUse(back)
      ensures e <= b.start
    {
      assert b in back;
    }
  }

  /** Only free space is handed out and nothing in use is touched: the blocks in use afterwards are
      those in use before, together with one new block that serves the request. */
  lemma {:induction false} AllocKeepsUsed(bs: seq<Block>, a: int, z: int, sz: nat) returns (n: Block)
    requires Tiles(bs, a, z) && 0 <= a
    ensures var (r, bs') := AllocFrom(bs, sz); KeepsUsed(bs, bs', r, sz, a, z, n)
    decreases |bs|
  {
    hide KeepsUsed, Claim;
    n := Block(a, z, true);
    if bs == [] {
      assert KeepsUsed([], [], 0, sz, a, z, n) by { NothingKept(sz, a, z, n); }
    } else {
      var k := if bs[0].used then 1 else FreePrefix(bs);
      var e := bs[k - 1].end;
      var front, back := bs[..k], bs[k..];
      TilesSplit(bs, a, z, k);
      TilesBounds(front, a, e);
      TilesBounds(back, e, z);
      assert front[0] == bs[0] && front[k - 1] == bs[k - 1];
      assert bs == front + back;
      if bs[0].used {
        n := AllocKeepsUsed(back, e, z, sz);
        assert front == [bs[0]];
        KeepsBehind(front, front, back, AllocFrom(back, sz).1, AllocFrom(back, sz).0, sz, a, e, z, n);
      } else {
        assert InUse(front) == {};
        if sz + 2 < e - a {
          n := Claim(a, e, sz)[0];
          KeepsClaimed(front, back, sz, a, e, z);
        } else {
          n := AllocKeepsUsed(back, e, z, sz);
          KeepsBehind(front, [Block(a, e, false)], back, AllocFrom(back, sz).1, AllocFrom(back, sz).0, sz, a, e, z, n);
        }
      }
    }
  }

  lemma NothingKept(sz: nat, a: int, z: int, n: Block)
    ensures KeepsUsed([], [], 0, sz, a, z, n)
  {
  }

  // ----- the exact criterion

  /** The list splits at k into one used block, or one maximal free run, and the remainder. */
  ghost predicate SplitsAt(bs: seq<Block>, k: nat) {
    bs != [] && if bs[0].used then k == 1 else k == FreePrefix(bs)
  }

  /** Behind such a split, the runs of the list are the runs of the remainder. */
  lemma RunBehind(bs: seq<Block>, k: nat, i: nat, j: nat)
    requires SplitsAt(bs, k)
    ensures MaximalRun(bs, i + k, j + k) <==> MaximalRun(bs[k..], i, j)
    ensures MaximalRun(bs[k..], i, j) ==> RunLength(bs, i + k, j + k) == RunLength(bs[k..], i, j)
  {
    var t := bs[k..];
    if MaximalRun(bs, i + k, j + k) {
      assert forall n | i <= n < j :: t[n] == bs[n + k];
    }
    if MaximalRun(t, i, j) {
      assert forall n | i + k <= n < j + k :: bs[n] == t[n - k];
      assert bs[i + k] == t[i];
      assert i > 0 ==> bs[i + k - 1] == t[i - 1];
    }
  }

  /** In front of such a split there is one run, if the first block is free, and none otherwise. */
  lemma RunInFront(bs: seq<Block>, k: nat, i: nat, j: nat)
    requires SplitsAt(bs, k) && i < k
    ensures MaximalRun(bs, i, j) <==> !bs[0].used && i == 0 && j == k
  {
    if MaximalRun(bs, i, j) {
      assert !bs[i].used;
      assert !bs[0].used;
    }
  }

  ghost predicate NothingFits(bs: seq<Block>, sz: nat) {
    forall i: nat, j: nat | MaximalRun(bs, i, j) :: RunLength(bs, i, j) <= sz + 2
  }

  ghost predicate LowestFit(bs: seq<Block>, sz: nat, i: nat, j: nat) {
    && MaximalRun(bs, i, j)
    && RunLength(bs, i, j) > sz + 2
    && forall i': nat, j': nat | MaximalRun(bs, i', j') && i' < i :: RunLength(bs, i', j') <= sz + 2
  }

  /** What is taken of a run: two bytes more than the request, or all of it if hardly more is there. */
  function Taken(bs: seq<Block>, sz: nat, i: nat, j: nat): Block
    requires i < j <= |bs|
  {
    var start, end := bs[i].start, bs[j - 1].end;
    Block(start, if end - start > sz + 5 then start + sz + 2 else end, true)
  }

  /** The request has been served from the lowest run that is long enough, by exactly so much of it. */
  ghost predicate Served(bs: seq<Block>, sz: nat, r: int, bs': seq<Block>) {
    exists i: nat, j: nat ::
      i < j <= |bs| && LowestFit(bs, sz, i, j) && r == bs[i].start + 2 && Taken(bs, sz, i, j) in bs'
  }

  lemma ServedBehind(bs: seq<Block>, k: nat, sz: nat, r: int, front: seq<Block>, rest: seq<Block>)
    requires SplitsAt(bs, k) && (!bs[0].used ==> RunLength(bs, 0, k) <= sz + 2)
    requires Served(bs[k..], sz, r, rest)
    ensures Served(bs, sz, r, front + rest)
  {
    hide LowestFit;
    FitBehind(bs, k, sz);
    var i: nat, j: nat :|
      i < j <= |bs[k..]| && LowestFit(bs[k..], sz, i, j) && r == bs[k..][i].start + 2 &&
      Taken(bs[k..], sz, i, j) in rest;
    assert Taken(bs, sz, i + k, j + k) == Taken(bs[k..], sz, i, j);
    assert LowestFit(bs, sz, i + k, j + k);
  }

  lemma ServedHere(bs: seq<Block>, k: nat, sz: nat)
    requires bs != [] && !bs[0].used && k == FreePrefix(bs) && sz + 2 < RunLength(bs, 0, k) && MaximalRun(bs, 0, k)
    ensures Served(bs, sz, AllocFrom(bs, sz).0, AllocFrom(bs, sz).1)
  {
    assert LowestFit(bs, sz, 0, k);
    assert Taken(bs, sz, 0, k) == AllocFrom(bs, sz).1[0];
  }

  /** Exact criterion: an allocation fails if and only if no maximal free run is longer than sz + 2
      bytes, and otherwise it lands at the start of the lowest run that is, and takes exactly so much. */
  lemma {:induction false} AllocIsFirstFit(bs: seq<Block>, a: int, z: int, sz: nat)
    requires Tiles(bs, a, z) && 0 <= a
    ensures AllocFrom(bs, sz).0 == 0 <==> NothingFits(bs, sz)
    ensures AllocFrom(bs, sz).0 != 0 ==> Served(bs, sz, AllocFrom(bs, sz).0, AllocFrom(bs, sz).1)
    decreases |bs|
  {
    hide Served, Claim;
    if bs != [] {
      var k := if bs[0].used then 1 else FreePrefix(bs);
      RunInFront(bs, k, 0, k);
      if !bs[0].used && sz + 2 < RunLength(bs, 0, k) {
        ServedHere(bs, k, sz);
        assert LowestFit(bs, sz, 0, k);
      } else {
        TilesSplit(bs, a, z, k);
        TilesBounds(bs[..k], a, bs[k - 1].end);
        AllocIsFirstFit(bs[k..], bs[k - 1].end, z, sz);
        FitBehind(bs, k, sz);
        var (r, rest) := AllocFrom(bs[k..], sz);
        if r != 0 {
          ServedBehind(bs, k, sz, r, if bs[0].used then [bs[0]] else [Block(bs[0].start, bs[k - 1].end, false)], rest);
        }
      }
    }
  }

  /** When the part in front of a split does not fit, the remainder decides. */
  lemma FitBehind(bs: seq<Block>, k: nat, sz: nat)
    requires SplitsAt(bs, k)
    requires !bs[0].used ==> RunLength(bs, 0, k) <= sz + 2
    ensures NothingFits(bs, sz) <==> NothingFits(bs[k..], sz)
    ensures forall i: nat, j: nat | LowestFit(bs[k..], sz, i, j) ::
              LowestFit(bs, sz, i + k, j + k) && bs[i + k].start == bs[k..][i].start
  {
    var t := bs[k..];
    if NothingFits(bs, sz) {
      forall i: nat, j: nat | MaximalRun(t, i, j)
        ensures RunLength(t, i, j) <= sz + 2
      {
        RunBehind(bs, k, i, j);
      }
    }
    if NothingFits(t, sz) {
      ShortRuns(bs, k, sz, |bs|);
    }
    forall i: nat, j: nat | LowestFit(t, sz, i, j)
      ensures LowestFit(bs, sz, i + k, j + k) && bs[i + k].start == t[i].start
    {
      RunBehind(bs, k, i, j);
      ShortRuns(bs, k, sz, i);
    }
  }

  lemma ShortRuns(bs: seq<Block>, k: nat, sz: nat, bound: nat)
    requires SplitsAt(bs, k)
    requires !bs[0].used ==> RunLength(bs, 0, k) <= sz + 2
    requires forall i: nat, j: nat | MaximalRun(bs[k..], i, j) && i < bound :: RunLength(bs[k..], i, j) <= sz + 2
    ensures forall i: nat, j: nat | MaximalRun(bs, i, j) && i < bound + k :: RunLength(bs, i, j) <= sz + 2
  {
    forall i: nat, j: nat | MaximalRun(bs, i, j) && i < bound + k
      ensures RunLength(bs, i, j) <= sz + 2
    {
      if i < k {
        RunInFront(bs, k, i, j);
      } else {
        RunBehind(bs, k, i - k, j - k);
      }
    }
  }

  // ----- failed requests leave a coalesced heap

  ghost predicate Coalesced(bs: seq<Block>) {
    forall i :: 0 <= i < |bs| - 1 ==> bs[i].used || bs[i + 1].used
  }

  lemma {:induction false} FailureCoalesces(bs: seq<Block>, a: int, z: int, sz: nat)
    requires Tiles(bs, a, z) && 0 <= a
    requires AllocFrom(bs, sz).0 == 0
    ensures Coalesced(AllocFrom(bs, sz).1)
    ensures bs != [] ==> AllocFrom(bs, sz).1 != [] && AllocFrom(bs, sz).1[0].used == bs[0].used
    decreases |bs|
  {
    if bs != [] {
      var k := if bs[0].used then 1 else FreePrefix(bs);
      TilesSplit(bs, a, z, k);
      TilesBounds(bs, a, z);
      FailureCoalesces(bs[k..], bs[k - 1].end, z, sz);
    }
  }

  // ----- the history of splits and merges cannot be observed

  /** The list with every maximal free run written as one block. */
  function Merged(bs: seq<Block>): seq<Block>
    decreases |bs|
  {
    if bs == [] then []
    else if bs[0].used then [bs[0]] + Merged(bs[1..])
    else
      var k := FreePrefix(bs);
      [Block(bs[0].start, bs[k - 1].end, false)] + Merged(bs[k..])
  }

  lemma {:induction false} MergedHead(bs: seq<Block>)
    ensures bs != [] ==> Merged(bs) != [] && Merged(bs)[0].used == bs[0].used
    ensures Merged(bs) == [] <==> bs == []
  {
  }

  /** A free block in front of a list that starts in use, or is empty, is a run of its own. */
  lemma FreePrefixOne(b: Block, rest: seq<Block>)
    requires !b.used && (rest == [] || rest[0].used)
    ensures FreePrefix([b] + rest) == 1
  {
    assert ([b] + rest)[1..] == rest;
  }

  /** Both functions on a list that starts with a block in use, and on one that starts with a free run. */
  lemma OneUsed(u: Block, t: seq<Block>, sz: nat)
    requires u.used
    ensures Merged([u] + t) == [u] + Merged(t)
    ensures AllocFrom([u] + t, sz) == (AllocFrom(t, sz).0, [u] + AllocFrom(t, sz).1)
  {
    assert ([u] + t)[1..] == t;
  }

  /** A free run of k blocks up to e, in front of t, counts as the block f. */
  lemma OneRun(bs: seq<Block>, k: nat, f: Block, t: seq<Block>, sz: nat)
    requires bs != [] && !bs[0].used
    requires k == FreePrefix(bs) && f == Block(bs[0].start, bs[k - 1].end, false) && t == bs[k..]
    ensures Merged(bs) == [f] + Merged(t)
    ensures AllocFrom(bs, sz) == if sz + 2 < f.end - f.start then (f.start + 2, Claim(f.start, f.end, sz) + t)
                                 else (AllocFrom(t, sz).0, [f] + AllocFrom(t, sz).1)
  {
    hide Claim;
  }

  lemma OneFree(f: Block, t: seq<Block>, sz: nat)
    requires !f.used && (t == [] || t[0].used)
    ensures Merged([f] + t) == [f] + Merged(t)
    ensures AllocFrom([f] + t, sz) == if sz + 2 < f.end - f.start then (f.start + 2, Claim(f.start, f.end, sz) + t)
                                      else (AllocFrom(t, sz).0, [f] + AllocFrom(t, sz).1)
  {
    hide Merged, AllocFrom, FreePrefix, Claim;
    FreePrefixOne(f, t);
    assert ([f] + t)[1..] == t && f == Block(f.start, f.end, false);
    OneRun([f] + t, 1, f, t, sz);
  }

  /** Allocation sees only the merged list. */
  lemma {:induction false} AllocSeesMerged(bs: seq<Block>, a: int, z: int, sz: nat)
    requires Tiles(bs, a, z)
    ensures AllocFrom(bs, sz).0 == AllocFrom(Merged(bs), sz).0
    ensures Merged(AllocFrom(bs, sz).1) == Merged(AllocFrom(Merged(bs), sz).1)
    decreases |bs|
  {
    if bs == [] {
    } else {
      hide Merged, AllocFrom, Claim;
      var k := if bs[0].used then 1 else FreePrefix(bs);
      var t := bs[k..];
      var e := bs[k - 1].end;
      TilesSplit(bs, a, z, k);
      AllocSeesMerged(t, e, z, sz);
      if bs[0].used {
        assert bs == [bs[0]] + t;
        OneUsed(bs[0], t, sz);
        OneUsed(bs[0], Merged(t), sz);
        OneUsed(bs[0], AllocFrom(t, sz).1, sz);
        OneUsed(bs[0], AllocFrom(Merged(t), sz).1, sz);
      } else {
        RunSeesMerged(bs, k, Block(a, e, false), t, e, z, sz);
      }
    }
  }

  lemma RunSeesMerged(bs: seq<Block>, k: nat, f: Block, t: seq<Block>, e: int, z: int, sz: nat)
    requires bs != [] && !bs[0].used
    requires k == FreePrefix(bs) && f == Block(bs[0].start, bs[k - 1].end, false) && t == bs[k..]
    requires Tiles(t, e, z) && (t == [] || t[0].used)
    requires AllocFrom(t, sz).0 == AllocFrom(Merged(t), sz).0
    requires Merged(AllocFrom(t, sz).1) == Merged(AllocFrom(Merged(t), sz).1)
    ensures AllocFrom(bs, sz).0 == AllocFrom(Merged(bs), sz).0
    ensures Merged(AllocFrom(bs, sz).1) == Merged(AllocFrom(Merged(bs), sz).1)
  {
    hide Merged, AllocFrom, FreePrefix, Claim, Tiles;
    MergedHead(t);
    OneRun(bs, k, f, t, sz);
    OneFree(f, Merged(t), sz);
    if sz + 2 < f.end - f.start {
      MergedClaim(f.start, f.end, sz, t);
      MergedClaim(f.start, f.end, sz, Merged(t));
      MergedTwice(t, e, z);
    } else {
      AllocHead(t, sz);
      AllocHead(Merged(t), sz);
      OneFree(f, AllocFrom(t, sz).1, sz);
      OneFree(f, AllocFrom(Merged(t), sz).1, sz);
    }
  }

  /** What follows a maximal free run starts in use, and still does after an allocation. */
  lemma AllocHead(bs: seq<Block>, sz: nat)
    requires bs == [] || bs[0].used
    ensures AllocFrom(bs, sz).1 == [] || AllocFrom(bs, sz).1[0].used
  {
  }

  lemma MergedClaim(a: int, e: int, sz: nat, t: seq<Block>)
    requires t == [] || t[0].used
    ensures Merged(Claim(a, e, sz) + t) == Claim(a, e, sz) + Merged(t)
  {
    var c := Claim(a, e, sz);
    if |c| == 2 {
      assert (c + t)[1..] == [c[1]] + t;
      FreePrefixOne(c[1], t);
      assert ([c[1]] + t)[1..] == t;
      assert c == [c[0]] + [c[1]];
    } else {
      assert (c + t)[1..] == t;
    }
  }

  lemma {:induction false} MergedTwice(bs: seq<Block>, a: int, z: int)
    requires Tiles(bs, a, z)
    ensures Merged(Merged(bs)) == Merged(bs)
    decreases |bs|
  {
    if bs != [] {
      var k := if bs[0].used then 1 else FreePrefix(bs);
      TilesSplit(bs, a, z, k);
      MergedTwice(bs[k..], bs[k - 1].end, z);
      MergedHead(bs[k..]);
      var m := Merged(bs[k..]);
      var f := Block(bs[0].start, bs[k - 1].end, false);
      if bs[0].used {
        assert ([bs[0]] + m)[1..] == m;
      } else {
        FreePrefixOne(f, m);
        assert ([f] + m)[1..] == m;
      }
    }
  }

  // ----- releasing a block

  /** The list with the block at address start no longer in use. */
  function Released(bs: seq<Block>, start: int): seq<Block> {
    if bs == [] then []
    else [if bs[0].start == start then bs[0].(used := false) else bs[0]] + Released(bs[1..], start)
  }

  lemma {:induction false} ReleasedElsewhere(bs: seq<Block>, start: int)
    requires forall b :: b in bs ==> b.start != start
    ensures Released(bs, start) == bs
  {
    if bs != [] {
      ReleasedElsewhere(bs[1..], start);
    }
  }

  /** Releasing a block in use takes exactly that block out of use. */
  lemma {:induction false} ReleasedInUse(bs: seq<Block>, a: int, z: int, b: Block)
    requires Tiles(bs, a, z) && b in InUse(bs)
    ensures InUse(Released(bs, b.start)) == InUse(bs) - {b}
  {
    var t := bs[1..];
    TilesBounds(t, bs[0].end, z);
    assert bs == [bs[0]] + t;
    InUseConcat([bs[0]], t);
    if b == bs[0] {
      ReleasedElsewhere(t, b.start);
      InUseConcat([b.(used := false)], t);
    } else {
      assert b in t;
      ReleasedInUse(t, bs[0].end, z, b);
      InUseConcat([bs[0]], Released(t, b.start));
    }
  }

  /** Merging may be done in any order. */
  lemma {:induction false} MergedCons(f: Block, bs: seq<Block>, a: int, z: int)
    requires !f.used && Tiles(bs, a, z)
    ensures Merged([f] + bs) == Merged([f] + Merged(bs))
  {
    var m := Merged(bs);
    assert ([f] + bs)[1..] == bs && ([f] + m)[1..] == m;
    if bs != [] && !bs[0].used {
      var k := FreePrefix(bs);
      assert ([f] + bs)[k + 1..] == bs[k..];
      var rest := Merged(bs[k..]);
      MergedHead(bs[k..]);
      assert m[1..] == rest;
      FreePrefixOne(m[0], rest);
      assert ([f] + m)[2..] == rest;
      TilesSplit(bs, a, z, k);
      MergedTwice(bs[k..], bs[k - 1].end, z);
    } else {
      MergedTwice(bs, a, z);
    }
  }

  /** A free run may be merged before what follows it is known. */
  lemma MergedRun(front: seq<Block>, back: seq<Block>)
    requires front != [] && forall b :: b in front ==> !b.used
    ensures Merged(front + back) == Merged([Block(front[0].start, front[|front| - 1].end, false)] + back)
  {
    MergedOfRun(front, back);
    MergedOfRun([Block(front[0].start, front[|front| - 1].end, false)], back);
  }

  lemma MergedOfRun(front: seq<Block>, back: seq<Block>)
    requires front != [] && forall b :: b in front ==> !b.used
    ensures var k := FreePrefix(back);
            var end := if k == 0 then front[|front| - 1].end else back[k - 1].end;
            Merged(front + back) == [Block(front[0].start, end, false)] + Merged(back[k..])
  {
    hide Merged, AllocFrom;
    var bs, f := front + back, |front|;
    var k := FreePrefix(back);
    FreePrefixConcat(front, back);
    assert front[0] in front && bs[0] == front[0];
    if k == 0 {
      assert bs[f - 1] == front[f - 1];
    } else {
      assert bs[f + k - 1] == back[k - 1];
    }
    assert bs[f + k..] == back[k..];
    OneRun(bs, f + k, Block(bs[0].start, bs[f + k - 1].end, false), bs[f + k..], 0);
  }

  lemma {:induction false} FreePrefixConcat(front: seq<Block>, back: seq<Block>)
    requires forall b :: b in front ==> !b.used
    ensures FreePrefix(front + back) == |front| + FreePrefix(back)
  {
    if front == [] {
      assert front + back == back;
    } else {
      assert front[0] in front;
      assert (front + back)[1..] == front[1..] + back;
      FreePrefixConcat(front[1..], back);
    }
  }

  /** Releasing a block in use, too, sees only the merged list. */
  lemma {:induction false} ReleaseSeesMerged(bs: seq<Block>, a: int, z: int, b: Block)
    requires Tiles(bs, a, z) && b in InUse(bs)
    ensures Merged(Released(bs, b.start)) == Merged(Released(Merged(bs), b.start))
    decreases |bs|
  {
    var k := if bs[0].used then 1 else FreePrefix(bs);
    var e := bs[k - 1].end;
    var t := bs[k..];
    var m := Merged(t);
    var s := b.start;
    TilesSplit(bs, a, z, k);
    TilesBounds(bs[..k], a, e);
    TilesBounds(t, e, z);
    MergedTiles(t, e, z);
    TilesBounds(m, e, z);
    assert bs == bs[..k] + t;
    if b == bs[0] {
      ReleasedElsewhere(t, s);
      ReleasedElsewhere(m, s);
      assert ([b] + m)[1..] == m;
      MergedCons(b.(used := false), t, e, z);
    } else {
      assert b in t;
      ReleaseSeesMerged(t, e, z, b);
      if bs[0].used {
        assert ([bs[0]] + m)[1..] == m;
        MergedConsUsed(bs[0], Released(t, s));
        MergedConsUsed(bs[0], Released(m, s));
      } else {
        ReleasedBehind(bs[..k], t, s);
        var f := Block(a, e, false);
        MergedRun(bs[..k], Released(t, s));
        ReleasedTiles(t, e, z, s);
        MergedCons(f, Released(t, s), e, z);
        assert ([f] + m)[1..] == m;
        ReleasedTiles(m, e, z, s);
        MergedCons(f, Released(m, s), e, z);
      }
    }
  }

  lemma MergedConsUsed(b: Block, bs: seq<Block>)
    requires b.used
    ensures Merged([b] + bs) == [b] + Merged(bs)
  {
    assert ([b] + bs)[1..] == bs;
  }

  lemma {:induction false} ReleasedBehind(front: seq<Block>, back: seq<Block>, start: int)
    requires forall b :: b in front ==> b.start != start
    ensures Released(front + back, start) == front + Released(back, start)
  {
    if front == [] {
      assert front + back == back;
    } else {
      assert front[0] in front;
      assert (front + back)[1..] == front[1..] + back;
      ReleasedBehind(front[1..], back, start);
    }
  }

  lemma {:induction false} ReleasedTiles(bs: seq<Block>, a: int, z: int, start: int)
    requires Tiles(bs, a, z)
    ensures Tiles(Released(bs, start), a, z)
  {
    if bs != [] {
      ReleasedTiles(bs[1..], bs[0].end, z, start);
    }
  }

  lemma {:induction false} MergedTiles(bs: seq<Block>, a: int, z: int)
    requires Tiles(bs, a, z)
    ensures Tiles(Merged(bs), a, z)
    decreases |bs|
  {
    if bs != [] {
      var k := if bs[0].used then 1 else FreePrefix(bs);
      TilesSplit(bs, a, z, k);
      TilesBounds(bs[..k], a, bs[k - 1].end);
      assert bs[..k][k - 1] == bs[k - 1];
      MergedTiles(bs[k..], bs[k - 1].end, z);
    }
  }

  // ----- conservation

  function TotalSize(bs: seq<Block>): int {
    if bs == [] then 0 else bs[0].end - bs[0].start + TotalSize(bs[1..])
  }

  lemma {:induction false} TilesTotal(bs: seq<Block>, a: int, z: int)
    requires Tiles(bs, a, z)
    ensures TotalSize(bs) == z - a
  {
    if bs != [] {
      TilesTotal(bs[1..], bs[0].end, z);
    }
  }
}
