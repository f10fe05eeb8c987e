/** The steps of the allocator on the heap in memory: flags, splitting, merging, growing. */
module HeapOps {
  import opened HeapModel
  import opened HeapFreeList

  /** The allocation that block b is or would be. */
  function Alloc(b: Blk): (int, int) { (b.addr + HDR, b.size) }

  ghost predicate Inside(bs: seq<Blk>, a: (int, int)) {
    exists k :: 0 <= k < |bs| && bs[k].addr + HDR <= a.0 && a.0 + a.1 <= End(bs[k])
  }

  // ----- what is live after a step -----

  lemma InLive(bs: seq<Blk>, k: nat)
    requires k < |bs|
    ensures !bs[k].free ==> Alloc(bs[k]) in Live(bs)
  {
  }

  /** Only block k can be the allocation at its address. */
  lemma LiveAt(bs: seq<Blk>, k: nat)
    requires Ordered(bs) && GoodBlocks(bs) && k < |bs|
    ensures forall a :: a in Live(bs) && a.0 == bs[k].addr + HDR ==> a == Alloc(bs[k]) && !bs[k].free
  {
    forall a | a in Live(bs) && a.0 == bs[k].addr + HDR ensures a == Alloc(bs[k]) && !bs[k].free {
      var j := LiveBlock(bs, a);
      assert j == k;
    }
  }

  lemma LiveRetagged(bs: seq<Blk>, k: nat, free: bool)
    requires Ordered(bs) && GoodBlocks(bs) && k < |bs|
    ensures Live(Retagged(bs, k, free)) == Live(bs) - {Alloc(bs[k])} + (if free then {} else {Alloc(bs[k])})
  {
    var r := Retagged(bs, k, free);
    forall a ensures a in Live(r) <==> a in Live(bs) - {Alloc(bs[k])} + (if free then {} else {Alloc(bs[k])}) {
      if a in Live(r) {
        var j := LiveBlock(r, a);
        if j != k {
          assert r[j] == bs[j];
          InLive(bs, j);
          assert bs[j].addr != bs[k].addr;
        }
      }
      if a in Live(bs) - {Alloc(bs[k])} {
        var j := LiveBlock(bs, a);
        assert j != k && r[j] == bs[j];
        InLive(r, j);
      }
      if !free {
        InLive(r, k);
      }
    }
  }

  lemma LiveOfSplit(bs: seq<Blk>, k: nat, size: int, a: (int, int))
    requires Ordered(bs) && GoodBlocks(bs) && k < |bs| && a in Live(Split(bs, k, size))
    ensures a == (bs[k].addr + HDR, size) || (a in Live(bs) && a != Alloc(bs[k]))
  {
    var r := Split(bs, k, size);
    var j := LiveBlock(r, a);
    if j != k {
      var i := if j < k then j else j - 1;
      assert r[j] == bs[i];
      InLive(bs, i);
      assert bs[i].addr != bs[k].addr;
    }
  }

  lemma LiveInSplit(bs: seq<Blk>, k: nat, size: int, a: (int, int))
    requires k < |bs| && a in Live(bs) && a != Alloc(bs[k])
    ensures a in Live(Split(bs, k, size))
  {
    var r := Split(bs, k, size);
    var i := LiveBlock(bs, a);
    var j := if i < k then i else i + 1;
    assert r[j] == bs[i];
    InLive(r, j);
  }

  lemma LiveSplit(bs: seq<Blk>, k: nat, size: int)
    requires Ordered(bs) && GoodBlocks(bs) && k < |bs|
    ensures Live(Split(bs, k, size)) == Live(bs) - {Alloc(bs[k])} + {(bs[k].addr + HDR, size)}
  {
    forall a | a in Live(Split(bs, k, size)) ensures a in Live(bs) - {Alloc(bs[k])} + {(bs[k].addr + HDR, size)} {
      LiveOfSplit(bs, k, size, a);
    }
    forall a | a in Live(bs) - {Alloc(bs[k])} ensures a in Live(Split(bs, k, size)) {
      LiveInSplit(bs, k, size, a);
    }
    InLive(Split(bs, k, size), k);
  }

  lemma LiveOfMerge(bs: seq<Blk>, k: nat, free: bool, a: (int, int))
    requires Ordered(bs) && GoodBlocks(bs) && k + 1 < |bs| && a in Live(Merge(bs, k, free))
    ensures (!free && a == Alloc(Merge(bs, k, free)[k])) || (a in Live(bs) && a != Alloc(bs[k]))
  {
    var r := Merge(bs, k, free);
    var j := LiveBlock(r, a);
    if j != k {
      var i := if j < k then j else j + 1;
      assert r[j] == bs[i];
      InLive(bs, i);
      assert bs[i].addr != bs[k].addr;
    }
  }

  lemma LiveInMerge(bs: seq<Blk>, k: nat, free: bool, a: (int, int))
    requires k + 1 < |bs| && bs[k + 1].free && a in Live(bs) && a != Alloc(bs[k])
    ensures a in Live(Merge(bs, k, free))
  {
    var r := Merge(bs, k, free);
    var i := LiveBlock(bs, a);
    var j := if i < k then i else i - 1;
    assert r[j] == bs[i];
    InLive(r, j);
  }

  /** What is live once block k has absorbed the free block after it. */
  ghost predicate LiveJoined(bs: seq<Blk>, r: seq<Blk>, k: nat) {
    && k < |bs| && k < |r|
    && (bs[k].free ==> Live(r) == Live(bs))
    && (!bs[k].free ==> Live(r) == Live(bs) - {Alloc(bs[k])} + {Alloc(r[k])})
  }

  lemma LiveMerge(bs: seq<Blk>, k: nat, free: bool)
    requires Ordered(bs) && GoodBlocks(bs) && k + 1 < |bs| && bs[k + 1].free && bs[k].free == free
    ensures LiveJoined(bs, Merge(bs, k, free), k)
  {
    var more := if free then {} else {Alloc(Merge(bs, k, free)[k])};
    forall a | a in Live(Merge(bs, k, free)) ensures a in Live(bs) - {Alloc(bs[k])} + more {
      LiveOfMerge(bs, k, free, a);
    }
    forall a | a in Live(bs) - {Alloc(bs[k])} ensures a in Live(Merge(bs, k, free)) {
      LiveInMerge(bs, k, free, a);
    }
    InLive(Merge(bs, k, free), k);
    LiveAt(bs, k);
  }

  lemma LiveExtended(bs: seq<Blk>, brk: int, size: int)
    ensures Live(Extended(bs, brk, size)) == Live(bs) + {(brk + HDR, size)}
  {
    var r := Extended(bs, brk, size);
    forall a ensures a in Live(r) <==> a in Live(bs) + {(brk + HDR, size)} {
      if a in Live(r) {
        var j := LiveBlock(r, a);
        if j < |bs| {
          assert r[j] == bs[j];
          InLive(bs, j);
        }
      }
      if a in Live(bs) {
        var j := LiveBlock(bs, a);
        assert r[j] == bs[j];
        InLive(r, j);
      }
      InLive(r, |bs|);
    }
  }

  // ----- the free list after a step -----

  lemma ListsRetagged(bs: seq<Blk>, fl: seq<int>, skip: set<int>, k: nat, free: bool)
    requires Ordered(bs) && GoodBlocks(bs) && Lists(bs, fl, skip) && k < |bs| && (bs[k].free ==> bs[k].addr in skip)
    ensures Lists(Retagged(bs, k, free), fl, skip + {bs[k].addr})
  {
    var r := Retagged(bs, k, free);
    forall i | 0 <= i < |fl| ensures fl[i] !in skip + {bs[k].addr} && IsFree(r, fl[i]) {
      var j :| 0 <= j < |bs| && bs[j].addr == fl[i] && bs[j].free;
      assert j != k && r[j] == bs[j];
    }
  }

  lemma ListsSplit(bs: seq<Blk>, fl: seq<int>, skip: set<int>, k: nat, size: int, newb: int)
    requires Ordered(bs) && GoodBlocks(bs) && Lists(bs, fl, skip) && k < |bs| && (bs[k].free ==> bs[k].addr in skip)
    requires Ordered(Split(bs, k, size)) && GoodBlocks(Split(bs, k, size)) && newb == bs[k].addr + HDR + size
    ensures Lists(Split(bs, k, size), fl, skip + {newb})
  {
    var r := Split(bs, k, size);
    forall i | 0 <= i < |fl| ensures fl[i] !in skip + {newb} && IsFree(r, fl[i]) {
      StaysFreeInSplit(bs, skip, k, size, fl[i]);
    }
    forall j | 0 <= j < |r| && r[j].free && r[j].addr !in skip + {newb} ensures r[j].addr in fl {
      assert r[j] == bs[if j < k then j else j - 1];
    }
  }

  lemma StaysFreeInSplit(bs: seq<Blk>, skip: set<int>, k: nat, size: int, a: int)
    requires IsFree(bs, a) && a !in skip && k < |bs| && (bs[k].free ==> bs[k].addr in skip)
    requires Ordered(Split(bs, k, size)) && GoodBlocks(Split(bs, k, size))
    ensures a != bs[k].addr + HDR + size && IsFree(Split(bs, k, size), a)
  {
    var r := Split(bs, k, size);
    var j :| 0 <= j < |bs| && bs[j].addr == a && bs[j].free;
    var j' := if j < k then j else j + 1;
    assert r[j'] == bs[j] && r[j'].addr != r[k + 1].addr;
  }

  lemma StaysFreeInMerge(bs: seq<Blk>, skip: set<int>, k: nat, free: bool, a: int)
    requires IsFree(bs, a) && a !in skip && k + 1 < |bs| && bs[k + 1].addr in skip
             && (bs[k].free ==> bs[k].addr in skip)
    ensures IsFree(Merge(bs, k, free), a)
  {
    var j :| 0 <= j < |bs| && bs[j].addr == a && bs[j].free;
    assert Merge(bs, k, free)[if j < k then j else j - 1] == bs[j];
  }

  lemma ListsMerge(bs: seq<Blk>, fl: seq<int>, skip: set<int>, k: nat, free: bool, next: int)
    requires Ordered(bs) && GoodBlocks(bs) && Lists(bs, fl, skip + {next}) && k + 1 < |bs| && next !in skip
    requires bs[k + 1].addr == next && (bs[k].free || free ==> bs[k].addr in skip)
    ensures Lists(Merge(bs, k, free), fl, skip)
  {
    var r := Merge(bs, k, free);
    assert bs[k].addr != bs[k + 1].addr;
    forall i | 0 <= i < |fl| ensures fl[i] !in skip && IsFree(r, fl[i]) {
      StaysFreeInMerge(bs, skip + {next}, k, free, fl[i]);
    }
    forall j | 0 <= j < |r| && r[j].free && r[j].addr !in skip ensures r[j].addr in fl {
      var i := if j < k then j else j + 1;
      assert r[j] == bs[i] && bs[i].addr != bs[k + 1].addr;
    }
  }

  lemma ListsExtended(bs: seq<Blk>, fl: seq<int>, skip: set<int>, brk: int, size: int)
    requires Lists(bs, fl, skip)
    ensures Lists(Extended(bs, brk, size), fl, skip)
  {
    var r := Extended(bs, brk, size);
    forall i | 0 <= i < |fl| ensures fl[i] !in skip && IsFree(r, fl[i]) {
      var j :| 0 <= j < |bs| && bs[j].addr == fl[i] && bs[j].free;
      assert r[j] == bs[j];
    }
  }

  /** A block in use need not be skipped. */
  lemma Unskip(mem: Memory, bs: seq<Blk>, fl: seq<int>, base: int, brk: int, skip: set<int>, k: nat)
    requires InMemory(mem, bs, fl, base, brk, skip) && k < |bs| && !bs[k].free
    ensures InMemory(mem, bs, fl, base, brk, skip - {bs[k].addr})
  {
    assert Open(0, mem, bs);
    forall j | 0 <= j < |bs| && bs[j].free && bs[j].addr !in skip - {bs[k].addr} ensures bs[j].addr in fl {
      assert j != k && bs[j].addr != bs[k].addr;
    }
  }

  /** A block in use may be skipped. */
  lemma SkipUsed(mem: Memory, bs: seq<Blk>, fl: seq<int>, base: int, brk: int, k: nat, b: int)
    requires InMemory(mem, bs, fl, base, brk, {}) && k < |bs| && !bs[k].free && bs[k].addr == b
    ensures InMemory(mem, bs, fl, base, brk, {b})
  {
    assert Open(0, mem, bs);
    forall i | 0 <= i < |fl| ensures fl[i] !in {b} && IsFree(bs, fl[i]) {
      var j :| 0 <= j < |bs| && bs[j].addr == fl[i] && bs[j].free;
      assert j != k && bs[j].addr != bs[k].addr;
    }
  }

  // ----- the steps -----

  lemma BlocksStay(bs: seq<Blk>, r: seq<Blk>, fl: seq<int>, skip: set<int>)
    requires Lists(r, fl, skip)
    ensures forall i :: 0 <= i < |fl| ==> IsBlock(r, fl[i])
  {
    forall i | 0 <= i < |fl| ensures IsBlock(r, fl[i]) {
      var j :| 0 <= j < |r| && r[j].addr == fl[i] && r[j].free;
    }
  }

  lemma LiveInside(bs: seq<Blk>)
    ensures forall a :: a in Live(bs) ==> Inside(bs, a)
  {
    forall a | a in Live(bs) ensures Inside(bs, a) {
      var k := LiveBlock(bs, a);
    }
  }

  /** A step that writes headers of the resulting blocks r only. */
  lemma HeaderStep(mem: Memory, mem': Memory, r: seq<Blk>, fl: seq<int>, base: int, brk: int, skip: set<int>,
                   live: set<(int, int)>)
    requires Tiled(r, base, brk) && Chained(mem', r) && OnlyHeaders(mem, mem', r) && FreeChain(mem, fl)
             && Lists(r, fl, skip)
    requires forall a :: a in live ==> Inside(r, a)
    ensures InMemory(mem', r, fl, base, brk, skip) && SameData(mem, mem', live)
  {
    BlocksStay(r, r, fl, skip);
    HeadersKeepFreeChain(mem, mem', r, fl);
    HeadersKeepData(mem, mem', r, live);
  }

  lemma RetagInside(bs: seq<Blk>, r: seq<Blk>, k: nat, free: bool)
    requires k < |bs| && r == Retagged(bs, k, free)
    ensures forall a :: a in Live(bs) ==> Inside(r, a)
  {
    forall a | a in Live(bs) ensures Inside(r, a) {
      var j := LiveBlock(bs, a);
      assert r[j].addr == bs[j].addr && r[j].size == bs[j].size;
    }
  }

  lemma RetagStep(mem: Memory, mem': Memory, bs: seq<Blk>, fl: seq<int>, base: int, brk: int, skip: set<int>, k: nat,
                  free: bool)
    requires InMemory(mem, bs, fl, base, brk, skip) && k < |bs| && (bs[k].free ==> bs[k].addr in skip)
    requires mem[bs[k].addr].Header?
    requires mem' == Store(mem, bs[k].addr,
             Header(Tag(Blk(bs[k].addr, bs[k].size, free)), mem[bs[k].addr].next, mem[bs[k].addr].prev))
    ensures InMemory(mem', Retagged(bs, k, free), fl, base, brk, skip + {bs[k].addr})
    ensures SameData(mem, mem', Live(bs))
    ensures Live(Retagged(bs, k, free)) == Live(bs) - {Alloc(bs[k])} + (if free then {} else {Alloc(bs[k])})
  {
    assert Open(0, mem, bs);
    var r := Retagged(bs, k, free);
    RetagTiled(bs, base, brk, k, free);
    RetagChained(mem, mem', bs, k, free);
    ListsRetagged(bs, fl, skip, k, free);
    LiveRetagged(bs, k, free);
    RetagInside(bs, r, k, free);
    HeaderStep(mem, mem', r, fl, base, brk, skip + {bs[k].addr}, Live(bs));
  }

  lemma SplitStep(mem: Memory, bs: seq<Blk>, fl: seq<int>, base: int, brk: int, skip: set<int>, k: nat, b: int,
                  size: int, newb: int)
    requires InMemory(mem, bs, fl, base, brk, skip) && k < |bs| && bs[k].addr == b && (bs[k].free ==> b in skip)
    requires size % ALIGN == 0 && size >= MIN_DATA && bs[k].size >= size + HDR + MIN_DATA
    requires mem[b].Header? && (k + 1 < |bs| ==> mem[bs[k + 1].addr].Header?)
    requires newb == b + HDR + size && newb != AddrAt(bs, k + 1)
    ensures InMemory(SplitMem(mem, bs, k, size), Split(bs, k, size), fl, base, brk, skip + {newb})
    ensures SameData(mem, SplitMem(mem, bs, k, size), Live(Split(bs, k, size)))
    ensures Live(Split(bs, k, size)) == Live(bs) - {Alloc(bs[k])} + {(b + HDR, size)}
    ensures IsFree(Split(bs, k, size), newb)
  {
    assert Open(0, mem, bs);
    SplitTiled(bs, base, brk, k, size);
    SplitChained(mem, bs, k, size);
    SplitHeaders(mem, bs, k, size);
    ListsSplit(bs, fl, skip, k, size, newb);
    LiveSplit(bs, k, size);
    LiveInside(Split(bs, k, size));
    SplitFree(bs, k, size);
    HeaderStep(mem, SplitMem(mem, bs, k, size), Split(bs, k, size), fl, base, brk, skip + {newb},
      Live(Split(bs, k, size)));
  }

  lemma SplitFree(bs: seq<Blk>, k: nat, size: int)
    requires k < |bs|
    ensures IsFree(Split(bs, k, size), bs[k].addr + HDR + size)
  {
    assert Split(bs, k, size)[k + 1].free;
  }

  lemma MergeStep(mem: Memory, bs: seq<Blk>, fl: seq<int>, base: int, brk: int, skip: set<int>, k: nat, free: bool,
                  next: int)
    requires k + 1 < |bs| && bs[k + 1].addr == next && next !in skip && InMemory(mem, bs, fl, base, brk, skip + {next})
    requires bs[k + 1].free && bs[k].free == free && (free ==> bs[k].addr in skip)
    requires mem[bs[k].addr].Header? && (k + 2 < |bs| ==> mem[bs[k + 2].addr].Header?)
    ensures InMemory(MergeMem(mem, bs, k, free), Merge(bs, k, free), fl, base, brk, skip)
    ensures SameData(mem, MergeMem(mem, bs, k, free), Live(bs))
    ensures LiveJoined(bs, Merge(bs, k, free), k)
  {
    assert Open(0, mem, bs);
    MergeTiled(bs, base, brk, k, free);
    MergeChained(mem, bs, k, free);
    MergeHeaders(mem, bs, k, free);
    ListsMerge(bs, fl, skip, k, free, next);
    LiveMerge(bs, k, free);
    MergeInside(bs, k, free);
    HeaderStep(mem, MergeMem(mem, bs, k, free), Merge(bs, k, free), fl, base, brk, skip, Live(bs));
  }

  lemma MergeInside(bs: seq<Blk>, k: nat, free: bool)
    requires GoodBlocks(bs) && k + 1 < |bs| && bs[k + 1].free
    ensures forall a :: a in Live(bs) ==> Inside(Merge(bs, k, free), a)
  {
    var r := Merge(bs, k, free);
    forall a | a in Live(bs) ensures Inside(r, a) {
      var j := LiveBlock(bs, a);
      var i := if j <= k then j else j - 1;
      assert GoodBlock(bs[k + 1]);
      assert r[i].addr <= bs[j].addr && End(bs[j]) <= End(r[i]);
    }
  }

  lemma ExtendStep(mem: Memory, bs: seq<Blk>, fl: seq<int>, base: int, brk: int, brk': int, skip: set<int>, size: int)
    requires InMemory(mem, bs, fl, base, brk, skip) && size >= MIN_DATA && size % ALIGN == 0 && brk' == brk + HDR + size
    requires |bs| > 0 ==> mem[bs[|bs| - 1].addr].Header?
    ensures InMemory(ExtendMem(mem, bs, brk, size), Extended(bs, brk, size), fl, base, brk', skip)
    ensures SameData(mem, ExtendMem(mem, bs, brk, size), Live(bs))
    ensures Live(Extended(bs, brk, size)) == Live(bs) + {(brk + HDR, size)}
  {
    assert Open(0, mem, bs);
    ExtendTiled(bs, base, brk, size);
    ExtendChained(mem, bs, base, brk, size);
    ExtendHeaders(mem, bs, brk, size);
    ListsExtended(bs, fl, skip, brk, size);
    LiveExtended(bs, brk, size);
    LiveInside(Extended(bs, brk, size));
    HeaderStep(mem, ExtendMem(mem, bs, brk, size), Extended(bs, brk, size), fl, base, brk', skip, Live(bs));
  }

  // ----- the users' writes -----

  /** Memory differs at most within allocation a. */
  ghost predicate OnlyWithin(mem: Memory, mem': Memory, a: (int, int)) {
    forall x {:trigger mem'[x]} :: !(a.0 <= x < a.0 + a.1) ==> mem'[x] == mem[x]
  }

  lemma PayloadKeepsChain(mem: Memory, mem': Memory, bs: seq<Blk>, k: nat)
    requires Ordered(bs) && GoodBlocks(bs) && Chained(mem, bs) && k < |bs| && OnlyWithin(mem, mem', Alloc(bs[k]))
    ensures Chained(mem', bs)
  {
    forall j | 0 <= j < |bs| ensures mem'[bs[j].addr] == mem[bs[j].addr] {
      assert j == k || End(bs[j]) <= bs[k].addr || End(bs[k]) <= bs[j].addr;
    }
  }

  lemma PayloadKeepsFreeChain(mem: Memory, mem': Memory, bs: seq<Blk>, fl: seq<int>, skip: set<int>, k: nat)
    requires Ordered(bs) && GoodBlocks(bs) && FreeChain(mem, fl) && Lists(bs, fl, skip)
    requires k < |bs| && !bs[k].free && OnlyWithin(mem, mem', Alloc(bs[k]))
    ensures FreeChain(mem', fl)
  {
    forall i | 0 <= i < |fl| ensures mem'[fl[i] + HDR] == mem[fl[i] + HDR] {
      var j :| 0 <= j < |bs| && bs[j].addr == fl[i] && bs[j].free;
      LinkIsApart(bs, j, k);
    }
  }

  /** What a user writes into a live allocation changes neither the heap nor other allocations. */
  lemma UserWrites(mem: Memory, mem': Memory, bs: seq<Blk>, fl: seq<int>, base: int, brk: int, skip: set<int>, k: nat)
    requires InMemory(mem, bs, fl, base, brk, skip) && k < |bs| && !bs[k].free && OnlyWithin(mem, mem', Alloc(bs[k]))
    ensures InMemory(mem', bs, fl, base, brk, skip) && SameData(mem, mem', Live(bs) - {Alloc(bs[k])})
  {
    assert Open(0, mem, bs);
    PayloadKeepsChain(mem, mem', bs, k);
    PayloadKeepsFreeChain(mem, mem', bs, fl, skip, k);
    forall a | a in Live(bs) - {Alloc(bs[k])} ensures Kept(mem, mem', a) {
      InLive(bs, k);
      LiveDisjoint(bs, base, brk, a, Alloc(bs[k]));
    }
  }

  // ----- neighbours -----

  /** No two neighbours are both free. */
  ghost predicate NoFreePair(bs: seq<Blk>) {
    forall i, j :: 0 <= i < j < |bs| && j == i + 1 ==> !(bs[i].free && bs[j].free)
  }

  /** No two neighbours are both free unless one of them is block k. */
  ghost predicate NoFreePairBut(bs: seq<Blk>, k: nat) {
    forall i, j :: 0 <= i < j < |bs| && j == i + 1 && i != k && j != k ==> !(bs[i].free && bs[j].free)
  }

  /** Splitting keeps the property exactly when the block after is in use. */
  lemma SplitPairs(bs: seq<Blk>, k: nat, size: int)
    requires NoFreePairBut(bs, k) && k < |bs|
    ensures NoFreePair(Split(bs, k, size)) <==> !(k + 1 < |bs| && bs[k + 1].free)
  {
    var r := Split(bs, k, size);
    if k + 1 < |bs| && bs[k + 1].free {
      var i, j := k + 1, k + 2;
      assert r[i].free && r[j].free;
    } else {
      forall i, j | 0 <= i < j < |r| && j == i + 1 ensures !(r[i].free && r[j].free) {
        if j < k {
          assert r[i] == bs[i] && r[j] == bs[j];
        } else if i > k + 1 {
          var i', j' := i - 1, j - 1;
          assert r[i] == bs[i'] && r[j] == bs[j'];
        }
      }
    }
  }

  lemma MergePairs(bs: seq<Blk>, k: nat, free: bool)
    requires k + 1 < |bs| && forall i, j :: 0 <= i < j < |bs| && j == i + 1 && j != k && i != k + 1 && i != k ==>
             !(bs[i].free && bs[j].free)
    ensures NoFreePairBut(Merge(bs, k, free), k)
  {
    var r := Merge(bs, k, free);
    forall i, j | 0 <= i < j < |r| && j == i + 1 && i != k && j != k ensures !(r[i].free && r[j].free) {
      if j < k {
        assert r[i] == bs[i] && r[j] == bs[j];
      } else {
        var i', j' := i + 1, j + 1;
        assert r[i] == bs[i'] && r[j] == bs[j'];
      }
    }
  }
}
