/**
 The heap of the user allocator as a flat memory: block headers with the links of the block list, the
 links of the free list inside free payloads, and the users' data all live in it.

 Memory maps an address to what is stored there: a header is the value at the address of its block,
 and every other address holds a word.  Headers take 32 bytes, so a payload starts 32 bytes after its
 block; a free block keeps the address of the next free block at the start of its payload.
 */
module HeapModel {
  import opened Sequences

  const HDR: int := 32        // sizeof(struct mem_block)
  const MIN_DATA: int := 16   // MIN_DATA_SIZE
  const ALIGN: int := 16

  datatype Cell = Header(size: int, next: int, prev: int) | Word(w: int)

  type Memory = m: imap<int, Cell> | forall a :: a in m ghost witness imap a: int | true :: Word(0)

  /** A store of one cell. */
  function Store(mem: Memory, a: int, c: Cell): (r: Memory)
  {
    mem[a := c]
  }

  datatype Blk = Blk(addr: int, size: int, free: bool)

  /** The size field: the payload size, with bit 0 set for a free block. */
  function Tag(b: Blk): int { if b.free then b.size + 1 else b.size }

  function AddrAt(bs: seq<Blk>, k: int): int {
    if 0 <= k < |bs| then bs[k].addr else 0
  }

  function End(b: Blk): int { b.addr + HDR + b.size }

  // ----- the block list -----

  /** The blocks are in address order and do not overlap. */
  ghost predicate Ordered(bs: seq<Blk>) {
    forall i, j :: 0 <= i < j < |bs| ==> End(bs[i]) <= bs[j].addr
  }

  /** Neighbours touch. */
  ghost predicate Gapless(bs: seq<Blk>) {
    forall i, j :: 0 <= i < j < |bs| && j == i + 1 ==> End(bs[i]) == bs[j].addr
  }

  ghost predicate GoodBlock(b: Blk) {
    b.addr > 0 && b.size >= MIN_DATA && b.size % ALIGN == 0
  }

  ghost predicate GoodBlocks(bs: seq<Blk>) {
    forall k :: 0 <= k < |bs| ==> GoodBlock(bs[k])
  }

  /** The blocks tile [base, brk) exactly. */
  ghost predicate Tiled(bs: seq<Blk>, base: int, brk: int) {
    && Ordered(bs) && Gapless(bs) && GoodBlocks(bs) && 0 < base <= brk
    && (if bs == [] then base == brk else bs[0].addr == base && End(bs[|bs| - 1]) == brk)
  }

  /** The headers in memory are those of the blocks, linked in order. */
  ghost predicate Chained(mem: Memory, bs: seq<Blk>) {
    && (forall k :: 0 <= k < |bs| ==> mem[bs[k].addr].Header? && mem[bs[k].addr].size == Tag(bs[k]))
    && (forall i, j :: 0 <= i < j < |bs| && j == i + 1 ==>
          mem[bs[i].addr].next == bs[j].addr && mem[bs[j].addr].prev == bs[i].addr)
    && (|bs| > 0 ==> mem[bs[0].addr].prev == 0 && mem[bs[|bs| - 1].addr].next == 0)
  }

  // ----- the free list -----

  function Nth(fl: seq<int>, i: int): int {
    if 0 <= i < |fl| then fl[i] else 0
  }

  /** The free list in memory runs through fl. */
  ghost predicate FreeChain(mem: Memory, fl: seq<int>) {
    && Distinct(fl) && (forall i :: 0 <= i < |fl| ==> fl[i] != 0)
    && (forall i, j :: 0 <= i < j < |fl| && j == i + 1 ==> mem[fl[i] + HDR] == Word(fl[j]))
    && (|fl| > 0 ==> mem[fl[|fl| - 1] + HDR] == Word(0))
  }

  ghost predicate IsBlock(bs: seq<Blk>, a: int) {
    exists k :: 0 <= k < |bs| && bs[k].addr == a
  }

  ghost predicate IsFree(bs: seq<Blk>, a: int) {
    exists k :: 0 <= k < |bs| && bs[k].addr == a && bs[k].free
  }

  /** The free list holds exactly the blocks flagged free, apart from those in `skip`. */
  ghost predicate Lists(bs: seq<Blk>, fl: seq<int>, skip: set<int>) {
    && (forall k :: 0 <= k < |bs| && bs[k].free && bs[k].addr !in skip ==> bs[k].addr in fl)
    && (forall i :: 0 <= i < |fl| ==> fl[i] !in skip && IsFree(bs, fl[i]))
  }

  // ----- live allocations -----

  /** What malloc has handed out: pairs of a payload address and a payload size. */
  ghost function Live(bs: seq<Blk>): set<(int, int)> {
    set b | b in bs && !b.free :: (b.addr + HDR, b.size)
  }

  /** The bytes of allocation a are the same in both memories. */
  ghost predicate Kept(mem: Memory, mem': Memory, a: (int, int)) {
    forall x :: a.0 <= x < a.0 + a.1 ==> mem'[x] == mem[x]
  }

  /** The data of every live allocation in `live` is the same in both memories. */
  ghost predicate SameData(mem: Memory, mem': Memory, live: set<(int, int)>) {
    forall a :: a in live ==> Kept(mem, mem', a)
  }

  lemma SameDataTwice(mem: Memory, mem1: Memory, mem2: Memory, live: set<(int, int)>)
    requires SameData(mem, mem1, live) && SameData(mem1, mem2, live)
    ensures SameData(mem, mem2, live)
  {
    forall a | a in live ensures Kept(mem, mem2, a) {
      assert Kept(mem, mem1, a) && Kept(mem1, mem2, a);
    }
  }

  lemma LiveBlock(bs: seq<Blk>, a: (int, int)) returns (k: nat)
    requires a in Live(bs)
    ensures k < |bs| && !bs[k].free && a == (bs[k].addr + HDR, bs[k].size)
  {
    k :| 0 <= k < |bs| && !bs[k].free && a == (bs[k].addr + HDR, bs[k].size);
  }

  /** Live allocations lie in the heap and do not overlap. */
  lemma LiveDisjoint(bs: seq<Blk>, base: int, brk: int, a: (int, int), b: (int, int))
    requires Tiled(bs, base, brk) && a in Live(bs) && b in Live(bs)
    ensures base + HDR <= a.0 && a.0 + a.1 <= brk
    ensures a == b || a.0 + a.1 <= b.0 || b.0 + b.1 <= a.0
  {
    var i := LiveBlock(bs, a);
    var j := LiveBlock(bs, b);
    if i < |bs| - 1 {
      assert End(bs[i]) <= bs[|bs| - 1].addr;
    }
    if i > 0 {
      assert End(bs[0]) <= bs[i].addr;
    }
  }

  // ----- what a change of memory leaves alone -----

  /** Memory differs at most in the free links of the given blocks. */
  ghost predicate OnlyLinks(mem: Memory, mem': Memory, addrs: set<int>) {
    forall x :: x - HDR !in addrs ==> mem'[x] == mem[x]
  }

  /** Memory differs at most in the headers of the blocks bs. */
  ghost predicate OnlyHeaders(mem: Memory, mem': Memory, bs: seq<Blk>) {
    forall x :: mem'[x] != mem[x] ==> IsBlock(bs, x)
  }

  /** The start of a payload is no header, and in no other payload. */
  lemma LinkIsApart(bs: seq<Blk>, j: nat, k: nat)
    requires Ordered(bs) && GoodBlocks(bs) && j < |bs| && k < |bs|
    ensures bs[k].addr != bs[j].addr + HDR
    ensures j != k ==> !(bs[k].addr <= bs[j].addr + HDR < End(bs[k]))
  {
  }

  lemma LinksKeepChain(mem: Memory, mem': Memory, bs: seq<Blk>, addrs: set<int>)
    requires Ordered(bs) && GoodBlocks(bs) && Chained(mem, bs) && OnlyLinks(mem, mem', addrs)
    requires forall a :: a in addrs ==> IsBlock(bs, a)
    ensures Chained(mem', bs)
  {
    forall k | 0 <= k < |bs| ensures mem'[bs[k].addr] == mem[bs[k].addr] {
      forall j | 0 <= j < |bs| ensures bs[k].addr - HDR != bs[j].addr {
        LinkIsApart(bs, j, k);
      }
      assert bs[k].addr - HDR !in addrs;
    }
  }

  lemma LiveIsApart(bs: seq<Blk>, a: (int, int), x: int, addrs: set<int>)
    requires Ordered(bs) && GoodBlocks(bs) && a in Live(bs) && a.0 <= x < a.0 + a.1
    requires forall c :: c in addrs ==> IsFree(bs, c)
    ensures x - HDR !in addrs
  {
    var i := LiveBlock(bs, a);
    forall j | 0 <= j < |bs| && bs[j].free ensures bs[j].addr != x - HDR {
      LinkIsApart(bs, j, i);
    }
  }

  lemma LinksKeepData(mem: Memory, mem': Memory, bs: seq<Blk>, addrs: set<int>)
    requires Ordered(bs) && GoodBlocks(bs) && OnlyLinks(mem, mem', addrs)
    requires forall a :: a in addrs ==> IsFree(bs, a)
    ensures SameData(mem, mem', Live(bs))
  {
    forall a | a in Live(bs) ensures Kept(mem, mem', a) {
      forall x | a.0 <= x < a.0 + a.1 ensures mem'[x] == mem[x] {
        LiveIsApart(bs, a, x, addrs);
      }
    }
  }

  lemma HeaderIsApart(bs: seq<Blk>, k: nat, x: int)
    requires Ordered(bs) && GoodBlocks(bs) && k < |bs| && bs[k].addr + HDR <= x < End(bs[k])
    ensures !IsBlock(bs, x)
  {
  }

  /** Headers are apart from all payloads. */
  lemma HeadersKeepPayload(mem: Memory, mem': Memory, bs: seq<Blk>, k: nat, x: int)
    requires Ordered(bs) && GoodBlocks(bs) && OnlyHeaders(mem, mem', bs)
    requires k < |bs| && bs[k].addr + HDR <= x < End(bs[k])
    ensures mem'[x] == mem[x]
  {
    HeaderIsApart(bs, k, x);
  }

  lemma HeadersKeepFreeChain(mem: Memory, mem': Memory, bs: seq<Blk>, fl: seq<int>)
    requires Ordered(bs) && GoodBlocks(bs) && OnlyHeaders(mem, mem', bs) && FreeChain(mem, fl)
    requires forall i :: 0 <= i < |fl| ==> IsBlock(bs, fl[i])
    ensures FreeChain(mem', fl)
  {
    forall i | 0 <= i < |fl| ensures mem'[fl[i] + HDR] == mem[fl[i] + HDR] {
      var k :| 0 <= k < |bs| && bs[k].addr == fl[i];
      HeadersKeepPayload(mem, mem', bs, k, fl[i] + HDR);
    }
  }

  lemma HeadersKeepData(mem: Memory, mem': Memory, bs: seq<Blk>, live: set<(int, int)>)
    requires Ordered(bs) && GoodBlocks(bs) && OnlyHeaders(mem, mem', bs)
    requires forall a :: a in live ==> exists k :: 0 <= k < |bs| && bs[k].addr + HDR <= a.0 && a.0 + a.1 <= End(bs[k])
    ensures SameData(mem, mem', live)
  {
    forall a | a in live ensures Kept(mem, mem', a) {
      var k :| 0 <= k < |bs| && bs[k].addr + HDR <= a.0 && a.0 + a.1 <= End(bs[k]);
      forall x | a.0 <= x < a.0 + a.1 ensures mem'[x] == mem[x] {
        HeadersKeepPayload(mem, mem', bs, k, x);
      }
    }
  }

  // ----- set_free and set_used -----

  function Retagged(bs: seq<Blk>, k: nat, free: bool): (r: seq<Blk>)
    requires k < |bs|
  {
    bs[k := Blk(bs[k].addr, bs[k].size, free)]
  }

  lemma RetagTiled(bs: seq<Blk>, base: int, brk: int, k: nat, free: bool)
    requires Tiled(bs, base, brk) && k < |bs|
    ensures Tiled(Retagged(bs, k, free), base, brk)
  {
    var r := Retagged(bs, k, free);
    assert forall j :: 0 <= j < |bs| ==> r[j].addr == bs[j].addr && r[j].size == bs[j].size;
  }

  lemma RetagChained(mem: Memory, mem': Memory, bs: seq<Blk>, k: nat, free: bool)
    requires Ordered(bs) && GoodBlocks(bs) && Chained(mem, bs) && k < |bs|
    requires mem' == Store(mem, bs[k].addr,
             Header(Tag(Blk(bs[k].addr, bs[k].size, free)), mem[bs[k].addr].next, mem[bs[k].addr].prev))
    ensures Chained(mem', Retagged(bs, k, free)) && OnlyHeaders(mem, mem', Retagged(bs, k, free))
  {
    var r := Retagged(bs, k, free);
    assert forall j :: 0 <= j < |bs| ==> r[j].addr == bs[j].addr && (j != k ==> r[j] == bs[j]);
    forall j | 0 <= j < |bs| && j != k ensures mem'[r[j].addr] == mem[bs[j].addr] {
      assert bs[j].addr != bs[k].addr;
    }
    assert r[k].addr == bs[k].addr;
  }

  // ----- split_block -----

  /** Block k cut after `size` bytes; the rest becomes a free block. */
  function Split(bs: seq<Blk>, k: nat, size: int): (r: seq<Blk>)
    requires k < |bs|
    ensures |r| == |bs| + 1
    ensures forall j :: 0 <= j < |r| ==>
              r[j] == if j < k then bs[j]
                      else if j == k then Blk(bs[k].addr, size, false)
                      else if j == k + 1 then Blk(bs[k].addr + HDR + size, bs[k].size - size - HDR, true)
                      else bs[j - 1]
  {
    bs[..k] + [Blk(bs[k].addr, size, false), Blk(bs[k].addr + HDR + size, bs[k].size - size - HDR, true)] + bs[k + 1..]
  }

  lemma SplitHead(bs: seq<Blk>, k: nat, size: int)
    requires k < |bs|
    ensures AddrAt(Split(bs, k, size), 0) == AddrAt(bs, 0)
  {
  }

  lemma SplitOrdered(bs: seq<Blk>, k: nat, size: int)
    requires Ordered(bs) && Gapless(bs) && k < |bs| && size >= MIN_DATA && bs[k].size >= size + HDR + MIN_DATA
    ensures Ordered(Split(bs, k, size)) && Gapless(Split(bs, k, size))
  {
    var r := Split(bs, k, size);
    forall i, j | 0 <= i < j < |r| ensures End(r[i]) <= r[j].addr && (j == i + 1 ==> End(r[i]) == r[j].addr) {
      if i < k {
        assert End(bs[i]) <= bs[k].addr;
      }
      if j > k + 1 {
        assert bs[k].addr < End(bs[k]) <= bs[j - 1].addr;
      }
    }
  }

  lemma SplitTiled(bs: seq<Blk>, base: int, brk: int, k: nat, size: int)
    requires Tiled(bs, base, brk) && k < |bs|
    requires size % ALIGN == 0 && size >= MIN_DATA && bs[k].size >= size + HDR + MIN_DATA
    ensures Tiled(Split(bs, k, size), base, brk)
  {
    SplitOrdered(bs, k, size);
    var r := Split(bs, k, size);
    assert GoodBlock(r[k]) && GoodBlock(r[k + 1]);
  }

  /** The assignments of split_block. */
  function SplitMem(mem: Memory, bs: seq<Blk>, k: nat, size: int): Memory
    requires k < |bs| && mem[bs[k].addr].Header? && (k + 1 < |bs| ==> mem[bs[k + 1].addr].Header?)
    requires bs[k].addr + HDR + size != AddrAt(bs, k + 1)
  {
    var b := bs[k].addr;
    var newb := b + HDR + size;
    var next := AddrAt(bs, k + 1);
    var m1 := Store(mem, newb, Header(bs[k].size - size - HDR + 1, next, b));
    var m2 := if k + 1 < |bs| then Store(m1, next, Header(mem[next].size, mem[next].next, newb)) else m1;
    Store(m2, b, Header(size, newb, mem[b].prev))
  }

  /** What split_block leaves in the headers of the new list r. */
  ghost predicate SplitDone(mem: Memory, mem': Memory, bs: seq<Blk>, r: seq<Blk>, k: nat) {
    && k < |bs| && |r| == |bs| + 1 && mem[bs[k].addr].Header? && (k + 1 < |bs| ==> mem[bs[k + 1].addr].Header?)
    && mem'[r[k].addr] == Header(Tag(r[k]), r[k + 1].addr, mem[bs[k].addr].prev)
    && mem'[r[k + 1].addr] == Header(Tag(r[k + 1]), AddrAt(bs, k + 1), bs[k].addr)
    && (k + 1 < |bs| ==> mem'[r[k + 2].addr] == Header(Tag(r[k + 2]), mem[bs[k + 1].addr].next, r[k + 1].addr))
    && (forall j :: 0 <= j < |r| && j != k && j != k + 1 && j != k + 2 ==> mem'[r[j].addr] == mem[r[j].addr])
  }

  lemma SplitCells(mem: Memory, bs: seq<Blk>, k: nat, size: int)
    requires Ordered(bs) && GoodBlocks(bs) && Gapless(bs) && Chained(mem, bs) && k < |bs|
    requires size >= MIN_DATA && bs[k].size >= size + HDR + MIN_DATA
    requires bs[k].addr + HDR + size != AddrAt(bs, k + 1)
    ensures SplitDone(mem, SplitMem(mem, bs, k, size), bs, Split(bs, k, size), k)
  {
    SplitOrdered(bs, k, size);
    var r, mem' := Split(bs, k, size), SplitMem(mem, bs, k, size);
    assert r[k].addr == bs[k].addr && r[k + 1].addr == bs[k].addr + HDR + size;
    assert r[k].addr < r[k + 1].addr;
    if k + 1 < |bs| {
      assert r[k + 2] == bs[k + 1] && r[k + 1].addr < r[k + 2].addr;
    }
    forall j | 0 <= j < |r| && j != k && j != k + 1 && j != k + 2 ensures mem'[r[j].addr] == mem[r[j].addr] {
      assert r[j].addr != r[k].addr && r[j].addr != r[k + 1].addr;
      if k + 1 < |bs| {
        assert r[j].addr != r[k + 2].addr;
      }
    }
  }

  /** r is bs with block k cut in two, addresses of the other blocks kept. */
  ghost predicate CutAt(bs: seq<Blk>, r: seq<Blk>, k: nat) {
    && k < |bs| && |r| == |bs| + 1 && r[k].addr == bs[k].addr
    && (forall j :: 0 <= j < k ==> r[j] == bs[j])
    && (forall j :: k + 1 < j < |r| ==> r[j] == bs[j - 1])
  }

  lemma SplitCuts(bs: seq<Blk>, k: nat, size: int)
    requires k < |bs|
    ensures CutAt(bs, Split(bs, k, size), k)
  {
  }

  lemma SplitTags(mem: Memory, mem': Memory, bs: seq<Blk>, r: seq<Blk>, k: nat)
    requires Chained(mem, bs) && CutAt(bs, r, k) && SplitDone(mem, mem', bs, r, k)
    ensures forall j :: 0 <= j < |r| ==> mem'[r[j].addr].Header? && mem'[r[j].addr].size == Tag(r[j])
  {
    forall j | 0 <= j < |r| ensures mem'[r[j].addr].Header? && mem'[r[j].addr].size == Tag(r[j]) {
      assert j > k + 1 ==> r[j] == bs[j - 1];
    }
  }

  lemma SplitLinks(mem: Memory, mem': Memory, bs: seq<Blk>, r: seq<Blk>, k: nat, i: nat, j: nat)
    requires Chained(mem, bs) && CutAt(bs, r, k) && SplitDone(mem, mem', bs, r, k)
    requires i < j < |r| && j == i + 1 && mem'[r[i].addr].Header? && mem'[r[j].addr].Header?
    ensures mem'[r[i].addr].next == r[j].addr && mem'[r[j].addr].prev == r[i].addr
  {
    if i < k {
      assert r[i] == bs[i] && r[j].addr == bs[j].addr;
    } else if i > k {
      assert r[j] == bs[j - 1];
      if i > k + 1 {
        assert r[i] == bs[i - 1];
      }
    }
  }

  lemma SplitChained(mem: Memory, bs: seq<Blk>, k: nat, size: int)
    requires Ordered(bs) && GoodBlocks(bs) && Gapless(bs) && Chained(mem, bs) && k < |bs|
    requires size >= MIN_DATA && bs[k].size >= size + HDR + MIN_DATA
    requires bs[k].addr + HDR + size != AddrAt(bs, k + 1)
    ensures Chained(SplitMem(mem, bs, k, size), Split(bs, k, size))
  {
    SplitCells(mem, bs, k, size);
    SplitCuts(bs, k, size);
    ChainAfterSplit(mem, SplitMem(mem, bs, k, size), bs, Split(bs, k, size), k);
  }

  lemma ChainAfterSplit(mem: Memory, mem': Memory, bs: seq<Blk>, r: seq<Blk>, k: nat)
    requires Chained(mem, bs) && CutAt(bs, r, k) && SplitDone(mem, mem', bs, r, k)
    ensures Chained(mem', r)
  {
    SplitTags(mem, mem', bs, r, k);
    forall i, j | 0 <= i < j < |r| && j == i + 1
      ensures mem'[r[i].addr].next == r[j].addr && mem'[r[j].addr].prev == r[i].addr
    {
      SplitLinks(mem, mem', bs, r, k, i, j);
    }
    assert k + 1 < |bs| ==> r[|r| - 1] == bs[|r| - 1 - 1];
  }

  lemma SplitHeaders(mem: Memory, bs: seq<Blk>, k: nat, size: int)
    requires k < |bs| && mem[bs[k].addr].Header? && (k + 1 < |bs| ==> mem[bs[k + 1].addr].Header?)
    requires bs[k].addr + HDR + size != AddrAt(bs, k + 1)
    ensures OnlyHeaders(mem, SplitMem(mem, bs, k, size), Split(bs, k, size))
  {
    var r, mem' := Split(bs, k, size), SplitMem(mem, bs, k, size);
    assert r[k].addr == bs[k].addr && r[k + 1].addr == bs[k].addr + HDR + size;
    assert k + 1 < |bs| ==> r[k + 2].addr == bs[k + 1].addr;
  }

  // ----- coalesce and realloc: absorbing the next block -----

  /** Blocks k and k + 1 made one. */
  function Merge(bs: seq<Blk>, k: nat, free: bool): (r: seq<Blk>)
    requires k + 1 < |bs|
    ensures |r| == |bs| - 1
    ensures forall j :: 0 <= j < |r| ==>
              r[j] == if j < k then bs[j]
                      else if j == k then Blk(bs[k].addr, bs[k].size + HDR + bs[k + 1].size, free)
                      else bs[j + 1]
  {
    bs[..k] + [Blk(bs[k].addr, bs[k].size + HDR + bs[k + 1].size, free)] + bs[k + 2..]
  }

  lemma MergeHead(bs: seq<Blk>, k: nat, free: bool)
    requires k + 1 < |bs|
    ensures AddrAt(Merge(bs, k, free), 0) == AddrAt(bs, 0)
  {
  }

  lemma MergeOrdered(bs: seq<Blk>, k: nat, free: bool)
    requires Ordered(bs) && Gapless(bs) && GoodBlocks(bs) && k + 1 < |bs|
    ensures Ordered(Merge(bs, k, free)) && Gapless(Merge(bs, k, free))
  {
    var r := Merge(bs, k, free);
    assert End(r[k]) == End(bs[k + 1]);
    forall i, j | 0 <= i < j < |r| ensures End(r[i]) <= r[j].addr && (j == i + 1 ==> End(r[i]) == r[j].addr) {
      if i < k {
        assert End(bs[i]) <= r[j].addr;
      } else if i == k {
        assert End(bs[k + 1]) <= bs[j + 1].addr;
      }
    }
  }

  lemma MergeTiled(bs: seq<Blk>, base: int, brk: int, k: nat, free: bool)
    requires Tiled(bs, base, brk) && k + 1 < |bs|
    ensures Tiled(Merge(bs, k, free), base, brk)
  {
    MergeOrdered(bs, k, free);
    var r := Merge(bs, k, free);
    assert GoodBlock(bs[k]) && GoodBlock(bs[k + 1]);
    assert GoodBlock(r[k]);
  }

  function MergeMem(mem: Memory, bs: seq<Blk>, k: nat, free: bool): Memory
    requires k + 1 < |bs| && mem[bs[k].addr].Header? && (k + 2 < |bs| ==> mem[bs[k + 2].addr].Header?)
  {
    var b := bs[k].addr;
    var next := AddrAt(bs, k + 2);
    var m1 := Store(mem, b, Header(Tag(Blk(b, bs[k].size + HDR + bs[k + 1].size, free)), next, mem[b].prev));
    if k + 2 < |bs| then Store(m1, next, Header(mem[next].size, mem[next].next, b)) else m1
  }

  ghost predicate MergeDone(mem: Memory, mem': Memory, bs: seq<Blk>, r: seq<Blk>, k: nat) {
    && k + 1 < |bs| && |r| == |bs| - 1 && mem[bs[k].addr].Header? && (k + 2 < |bs| ==> mem[bs[k + 2].addr].Header?)
    && mem'[r[k].addr] == Header(Tag(r[k]), AddrAt(bs, k + 2), mem[bs[k].addr].prev)
    && (k + 2 < |bs| ==> mem'[r[k + 1].addr] == Header(Tag(r[k + 1]), mem[bs[k + 2].addr].next, r[k].addr))
    && (forall j :: 0 <= j < |r| && j != k && j != k + 1 ==> mem'[r[j].addr] == mem[r[j].addr])
  }

  lemma MergeCells(mem: Memory, bs: seq<Blk>, k: nat, free: bool)
    requires Ordered(bs) && GoodBlocks(bs) && Gapless(bs) && Chained(mem, bs) && k + 1 < |bs|
    ensures MergeDone(mem, MergeMem(mem, bs, k, free), bs, Merge(bs, k, free), k)
  {
    MergeOrdered(bs, k, free);
    var r, mem' := Merge(bs, k, free), MergeMem(mem, bs, k, free);
    if k + 2 < |bs| {
      assert r[k + 1] == bs[k + 2] && r[k].addr < r[k + 1].addr;
    }
    forall j | 0 <= j < |r| && j != k && j != k + 1 ensures mem'[r[j].addr] == mem[r[j].addr] {
      assert r[j].addr != r[k].addr;
      if k + 2 < |bs| {
        assert r[j].addr != r[k + 1].addr;
      }
    }
  }

  ghost predicate JoinedAt(bs: seq<Blk>, r: seq<Blk>, k: nat) {
    && k + 1 < |bs| && |r| == |bs| - 1 && r[k].addr == bs[k].addr
    && (forall j :: 0 <= j < k ==> r[j] == bs[j])
    && (forall j :: k < j < |r| ==> r[j] == bs[j + 1])
  }

  lemma MergeJoins(bs: seq<Blk>, k: nat, free: bool)
    requires k + 1 < |bs|
    ensures JoinedAt(bs, Merge(bs, k, free), k)
  {
  }

  lemma MergeTags(mem: Memory, mem': Memory, bs: seq<Blk>, r: seq<Blk>, k: nat)
    requires Chained(mem, bs) && JoinedAt(bs, r, k) && MergeDone(mem, mem', bs, r, k)
    ensures forall j :: 0 <= j < |r| ==> mem'[r[j].addr].Header? && mem'[r[j].addr].size == Tag(r[j])
  {
    forall j | 0 <= j < |r| ensures mem'[r[j].addr].Header? && mem'[r[j].addr].size == Tag(r[j]) {
      assert j > k ==> r[j] == bs[j + 1];
    }
  }

  lemma MergeLinks(mem: Memory, mem': Memory, bs: seq<Blk>, r: seq<Blk>, k: nat, i: nat, j: nat)
    requires Chained(mem, bs) && JoinedAt(bs, r, k) && MergeDone(mem, mem', bs, r, k)
    requires i < j < |r| && j == i + 1 && mem'[r[i].addr].Header? && mem'[r[j].addr].Header?
    ensures mem'[r[i].addr].next == r[j].addr && mem'[r[j].addr].prev == r[i].addr
  {
    if i < k {
      assert r[i] == bs[i] && r[j].addr == bs[j].addr;
    } else {
      assert r[j] == bs[j + 1];
      if i > k {
        assert r[i] == bs[i + 1];
      }
    }
  }

  lemma MergeChained(mem: Memory, bs: seq<Blk>, k: nat, free: bool)
    requires Ordered(bs) && GoodBlocks(bs) && Gapless(bs) && Chained(mem, bs) && k + 1 < |bs|
    ensures Chained(MergeMem(mem, bs, k, free), Merge(bs, k, free))
  {
    MergeCells(mem, bs, k, free);
    MergeJoins(bs, k, free);
    ChainAfterMerge(mem, MergeMem(mem, bs, k, free), bs, Merge(bs, k, free), k);
  }

  lemma ChainAfterMerge(mem: Memory, mem': Memory, bs: seq<Blk>, r: seq<Blk>, k: nat)
    requires Chained(mem, bs) && JoinedAt(bs, r, k) && MergeDone(mem, mem', bs, r, k)
    ensures Chained(mem', r)
  {
    MergeTags(mem, mem', bs, r, k);
    forall i, j | 0 <= i < j < |r| && j == i + 1
      ensures mem'[r[i].addr].next == r[j].addr && mem'[r[j].addr].prev == r[i].addr
    {
      MergeLinks(mem, mem', bs, r, k, i, j);
    }
    assert k + 2 < |bs| ==> r[|r| - 1] == bs[|r| - 1 + 1];
  }

  lemma MergeHeaders(mem: Memory, bs: seq<Blk>, k: nat, free: bool)
    requires k + 1 < |bs| && mem[bs[k].addr].Header? && (k + 2 < |bs| ==> mem[bs[k + 2].addr].Header?)
    ensures OnlyHeaders(mem, MergeMem(mem, bs, k, free), Merge(bs, k, free))
  {
    var r, mem' := Merge(bs, k, free), MergeMem(mem, bs, k, free);
    assert r[k].addr == bs[k].addr;
    assert k + 2 < |bs| ==> r[k + 1].addr == bs[k + 2].addr;
  }

  // ----- a new block at the end of the heap -----

  function Extended(bs: seq<Blk>, brk: int, size: int): seq<Blk> {
    bs + [Blk(brk, size, false)]
  }

  /** The assignments by which malloc appends a block. */
  function ExtendMem(mem: Memory, bs: seq<Blk>, brk: int, size: int): Memory
    requires |bs| > 0 ==> mem[bs[|bs| - 1].addr].Header?
  {
    if bs == [] then Store(mem, brk, Header(size, 0, 0))
    else
      var last := bs[|bs| - 1].addr;
      Store(Store(mem, brk, Header(size, 0, last)), last, Header(mem[last].size, brk, mem[last].prev))
  }

  lemma ExtendTiled(bs: seq<Blk>, base: int, brk: int, size: int)
    requires Tiled(bs, base, brk) && size >= MIN_DATA && size % ALIGN == 0
    ensures Tiled(Extended(bs, brk, size), base, brk + HDR + size)
  {
    var r := Extended(bs, brk, size);
    forall i, j | 0 <= i < j < |r| ensures End(r[i]) <= r[j].addr && (j == i + 1 ==> End(r[i]) == r[j].addr) {
      if j == |bs| && i < |bs| - 1 {
        assert End(bs[i]) <= bs[|bs| - 1].addr;
      }
    }
  }

  lemma ExtendChained(mem: Memory, bs: seq<Blk>, base: int, brk: int, size: int)
    requires Tiled(bs, base, brk) && Chained(mem, bs) && size >= MIN_DATA && size % ALIGN == 0
    ensures Chained(ExtendMem(mem, bs, brk, size), Extended(bs, brk, size))
  {
    ExtendTiled(bs, base, brk, size);
    ChainAfterExtend(mem, ExtendMem(mem, bs, brk, size), bs, Extended(bs, brk, size), brk, size);
  }

  lemma ChainAfterExtend(mem: Memory, mem': Memory, bs: seq<Blk>, r: seq<Blk>, brk: int, size: int)
    requires Chained(mem, bs) && Ordered(r) && GoodBlocks(r) && r == Extended(bs, brk, size)
    requires mem' == ExtendMem(mem, bs, brk, size)
    ensures Chained(mem', r)
  {
    var n := |bs|;
    forall j | 0 <= j < n - 1 ensures mem'[r[j].addr] == mem[bs[j].addr] {
      assert r[j] == bs[j] && r[j].addr != r[n].addr && r[j].addr != r[n - 1].addr;
    }
    if n > 0 {
      assert r[n - 1] == bs[n - 1] && r[n - 1].addr != r[n].addr;
    }
  }

  lemma ExtendHeaders(mem: Memory, bs: seq<Blk>, brk: int, size: int)
    requires |bs| > 0 ==> mem[bs[|bs| - 1].addr].Header?
    ensures OnlyHeaders(mem, ExtendMem(mem, bs, brk, size), Extended(bs, brk, size))
  {
    var r := Extended(bs, brk, size);
    assert r[|bs|].addr == brk;
    assert |bs| > 0 ==> r[|bs| - 1].addr == bs[|bs| - 1].addr;
  }
}
