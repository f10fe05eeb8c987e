/** malloc, free, calloc and realloc. */
module HeapAlloc {
  import opened HeapModel
  import opened HeapFreeList
  import opened HeapOps
  import opened HeapCode

  // ----- the block list and the free list after each operation -----

  /** The block list and the free list. */
  datatype Lists = Lists(blocks: seq<Blk>, free: seq<int>)

  /** Carving and Joining are looked into only where this is mentioned. */
  predicate See(t: int, l: Lists) { true }

  /** The block list after split_block. */
  ghost function CutBlocks(bs: seq<Blk>, k: nat, size: int): (r: seq<Blk>)
    requires k < |bs|
    ensures k < |r|
  {
    if bs[k].size < size + HDR + MIN_DATA then bs else Split(bs, k, size)
  }

  /** The free list after split_block. */
  ghost function CutList(fsm: Fsm, fl: seq<int>, bs: seq<Blk>, k: nat, size: int): seq<int>
    requires k < |bs|
  {
    if bs[k].size < size + HDR + MIN_DATA then fl else Linked(fsm, fl, bs[k].addr + HDR + size)
  }

  /** split_block and set_used of block k. */
  ghost predicate Carving(fsm: Fsm, l: Lists, l': Lists, k: nat, size: int) {
    match l'
    case Lists(_, _) => forall t: int {:trigger See(t, l')} :: 0 <= t ==>
      && k < |l.blocks| && l'.blocks == Retagged(CutBlocks(l.blocks, k, size), k, false)
      && l'.free == CutList(fsm, l.free, l.blocks, k, size)
  }

  lemma CarvingIs(fsm: Fsm, bs: seq<Blk>, fl: seq<int>, bs1: seq<Blk>, fl1: seq<int>, bs2: seq<Blk>, k: nat, size: int)
    requires k < |bs|
    requires if bs[k].size < size + HDR + MIN_DATA then bs1 == bs && fl1 == fl
             else bs1 == Split(bs, k, size) && fl1 == Linked(fsm, fl, bs[k].addr + HDR + size)
    requires bs2 == Retagged(bs1, k, false)
    ensures Carving(fsm, Lists(bs, fl), Lists(bs2, fl1), k, size)
  {
    assert bs1 == CutBlocks(bs, k, size) && fl1 == CutList(fsm, fl, bs, k, size);
  }

  /** Block k holds little more than n of the bytes it had room for; the rest is a listed free block behind it. */
  ghost predicate GivesBack(bs: seq<Blk>, fl: seq<int>, k: nat, room: int, n: int) {
    && k < |bs| && bs[k].size < n + HDR + MIN_DATA
    && (bs[k].size != room ==> k + 1 < |bs| && bs[k + 1].free && bs[k + 1].addr in fl
                               && bs[k + 1].size == room - bs[k].size - HDR)
  }

  lemma CarvingGivesBack(fsm: Fsm, l: Lists, l': Lists, k: nat, n: int)
    requires Carving(fsm, l, l', k, n) && k < |l.blocks|
    ensures GivesBack(l'.blocks, l'.free, k, l.blocks[k].size, n)
    ensures l'.blocks[k].size == if l.blocks[k].size < n + HDR + MIN_DATA then l.blocks[k].size else n
  {
    assert See(0, l');
    if l.blocks[k].size >= n + HDR + MIN_DATA {
      var newb, fl := l.blocks[k].addr + HDR + n, l.free;
      assert ([newb] + fl)[0] == newb && (fl + [newb])[|fl|] == newb;
    }
  }

  /** The free neighbours of block k. */
  ghost function Neighbours(bs: seq<Blk>, k: nat): set<int>
    requires k < |bs|
  {
    (if FreeAt(bs, k - 1) then {bs[k - 1].addr} else {}) + (if FreeAt(bs, k + 1) then {bs[k + 1].addr} else {})
  }

  /** Where block k is once its free neighbours are joined to it. */
  ghost function JoinedAt(bs: seq<Blk>, k: nat): nat
    requires k < |bs|
  {
    if FreeAt(bs, k - 1) then k - 1 else k
  }

  ghost function JoinedPrev(bs: seq<Blk>, k: nat): (r: seq<Blk>)
    requires k < |bs|
    ensures JoinedAt(bs, k) < |r|
  {
    if FreeAt(bs, k - 1) then Merge(bs, k - 1, true) else bs
  }

  ghost function JoinedNext(bs: seq<Blk>, k: nat): (r: seq<Blk>)
    requires k < |bs|
    ensures k < |r|
  {
    if FreeAt(bs, k + 1) then Merge(bs, k, true) else bs
  }

  /** The block list after coalesce of free block k. */
  ghost function Coalesced(bs: seq<Blk>, k: nat): (r: seq<Blk>)
    requires k < |bs|
    ensures JoinedAt(bs, k) < |r|
  {
    JoinedNext(JoinedPrev(bs, k), JoinedAt(bs, k))
  }

  /** coalesce of free block k, which was off the free list. */
  ghost predicate Joining(fsm: Fsm, l: Lists, l': Lists, k: nat) {
    match l'
    case Lists(_, _) => forall t: int {:trigger See(t, l')} :: 0 <= t ==>
      && k < |l.blocks| && l'.blocks == Coalesced(l.blocks, k)
      && l'.free == Linked(fsm, Keeping(l.free, Neighbours(l.blocks, k)), l'.blocks[JoinedAt(l.blocks, k)].addr)
  }

  /** The two halves of coalesce. */
  ghost predicate PrevJoined(l: Lists, l': Lists, k: nat) {
    match l'
    case Lists(_, _) => forall t: int {:trigger See(t, l')} :: 0 <= t ==>
      && k < |l.blocks| && l'.blocks == JoinedPrev(l.blocks, k)
      && l'.free == if FreeAt(l.blocks, k - 1) then Keeping(l.free, {l.blocks[k - 1].addr}) else l.free
  }

  ghost predicate NextJoined(l: Lists, l': Lists, k: nat) {
    match l'
    case Lists(_, _) => forall t: int {:trigger See(t, l')} :: 0 <= t ==>
      && k < |l.blocks| && l'.blocks == JoinedNext(l.blocks, k)
      && l'.free == if FreeAt(l.blocks, k + 1) then Keeping(l.free, {l.blocks[k + 1].addr}) else l.free
  }

  lemma PrevIs(bs: seq<Blk>, fl: seq<int>, bs': seq<Blk>, fl': seq<int>, k: nat)
    requires k < |bs|
    requires if FreeAt(bs, k - 1) then bs' == Merge(bs, k - 1, true) && fl' == Keeping(fl, {bs[k - 1].addr})
             else bs' == bs && fl' == fl
    ensures PrevJoined(Lists(bs, fl), Lists(bs', fl'), k)
  {
    assert bs' == JoinedPrev(bs, k);
    assert fl' == if FreeAt(bs, k - 1) then Keeping(fl, {bs[k - 1].addr}) else fl;
  }

  lemma NextIs(bs: seq<Blk>, fl: seq<int>, bs': seq<Blk>, fl': seq<int>, k: nat)
    requires k < |bs|
    requires if FreeAt(bs, k + 1) then bs' == Merge(bs, k, true) && fl' == Keeping(fl, {bs[k + 1].addr})
             else bs' == bs && fl' == fl
    ensures NextJoined(Lists(bs, fl), Lists(bs', fl'), k)
  {
    assert bs' == JoinedNext(bs, k);
    assert fl' == if FreeAt(bs, k + 1) then Keeping(fl, {bs[k + 1].addr}) else fl;
  }

  lemma JoinedWithPrev(bs: seq<Blk>, base: int, brk: int, k: nat)
    requires Tiled(bs, base, brk) && k < |bs| && bs[k].free
    ensures var r, i := JoinedPrev(bs, k), JoinedAt(bs, k);
            && r[i].free && r[i].addr == (if FreeAt(bs, k - 1) then bs[k - 1] else bs[k]).addr
            && End(r[i]) == End(bs[k]) && r[..i] == bs[..i] && r[i + 1..] == bs[k + 1..]
  {
    if FreeAt(bs, k - 1) {
      var i := k - 1;
      assert End(bs[i]) == bs[k].addr;
    }
  }

  lemma JoinedWithNext(bs: seq<Blk>, k: nat)
    requires k < |bs| && bs[k].free && (k + 1 < |bs| ==> End(bs[k]) == bs[k + 1].addr)
    ensures var r := JoinedNext(bs, k);
            && r[k].free && r[k].addr == bs[k].addr && End(r[k]) == End(if FreeAt(bs, k + 1) then bs[k + 1] else bs[k])
            && r[..k] == bs[..k] && r[k + 1..] == bs[if FreeAt(bs, k + 1) then k + 2 else k + 1..]
  {
  }

  /** The joined block reaches from the start of a free block before block k to the end of one after it, and the other
      blocks are as they were. */
  lemma JoinedBlock(bs: seq<Blk>, base: int, brk: int, k: nat)
    requires Tiled(bs, base, brk) && k < |bs| && bs[k].free
    ensures var r, i := Coalesced(bs, k), JoinedAt(bs, k);
            && r[i].free && r[i].addr == (if FreeAt(bs, k - 1) then bs[k - 1] else bs[k]).addr
            && End(r[i]) == End(if FreeAt(bs, k + 1) then bs[k + 1] else bs[k])
            && r[..i] == bs[..i] && r[i + 1..] == bs[if FreeAt(bs, k + 1) then k + 2 else k + 1..]
  {
    var m, i := JoinedPrev(bs, k), JoinedAt(bs, k);
    JoinedWithPrev(bs, base, brk, k);
    var rest := m[i + 1..];
    assert |rest| == |bs[k + 1..]|;
    if k + 1 < |bs| {
      var j := k + 1;
      assert End(bs[k]) == bs[j].addr;
      assert m[i + 1] == rest[0] == bs[k + 1..][0] == bs[k + 1];
      assert m[i + 2..] == rest[1..] && bs[k + 2..] == bs[k + 1..][1..];
    }
    JoinedWithNext(m, i);
  }

  // ----- coalesce and free -----

  ghost predicate FreeAt(bs: seq<Blk>, k: int) {
    0 <= k < |bs| && bs[k].free
  }

  lemma PrevPairs(bs: seq<Blk>, k: nat)
    requires 0 < k < |bs| && FreeAt(bs, k - 1) && NoFreePairBut(bs, k)
    ensures NoFreePairBut(Merge(bs, k - 1, true), k - 1) && !FreeAt(Merge(bs, k - 1, true), k - 2)
  {
    MergePairs(bs, k - 1, true);
    if k >= 2 {
      var i, j := k - 2, k - 1;
      assert bs[j].free && !bs[i].free;
    }
  }

  lemma NextPairs(bs: seq<Blk>, k: nat)
    requires k + 1 < |bs| && FreeAt(bs, k + 1) && NoFreePairBut(bs, k) && !FreeAt(bs, k - 1)
    ensures NoFreePair(Merge(bs, k, true))
  {
    MergePairs(bs, k, true);
    var r := Merge(bs, k, true);
    if k + 2 < |bs| {
      var i, j := k + 1, k + 2;
      assert !(bs[i].free && bs[j].free);
    }
    ClearPairs(r, k);
  }

  lemma ClearPairs(bs: seq<Blk>, k: nat)
    requires k < |bs| && NoFreePairBut(bs, k) && !FreeAt(bs, k - 1) && !FreeAt(bs, k + 1)
    ensures NoFreePair(bs)
  {
    forall i, j | 0 <= i < j < |bs| && j == i + 1 ensures !(bs[i].free && bs[j].free) {
      assert i == k ==> !FreeAt(bs, j);
      assert j == k ==> !FreeAt(bs, i);
    }
  }

  /** The first half of coalesce: a free block before b absorbs it. */
  method CoalescePrev(h: Heap, ghost k: nat, b: int) returns (c: int, ghost i: nat)
    requires h.Rep({b}) && k < |h.bs| && h.bs[k].addr == b && h.bs[k].free
    modifies h`mem, h`bs, h`freeList, h`fl
    ensures i < |h.bs| && h.bs[i].addr == c && h.bs[i].free && h.Rep({c})
    ensures Live(h.bs) == Live(old(h.bs)) && SameData(old(h.mem), h.mem, Live(h.bs))
    ensures NoFreePairBut(old(h.bs), k) ==> NoFreePairBut(h.bs, i) && !FreeAt(h.bs, i - 1)
    ensures i == JoinedAt(old(h.bs), k) && PrevJoined(Lists(old(h.bs), old(h.fl)), Lists(h.bs, h.fl), k)
  {
    c, i := b, k;
    h.BlockFacts(k, {b});
    if k > 0 {
      h.BlockFacts(k - 1, {b});
    }
    if h.mem[b].prev != 0 && h.IsFreeAt(h.mem[b].prev) {
      c := h.mem[b].prev;
      i := k - 1;
      assert IsFree(h.bs, c);
      h.RemoveFromFreeList(c, {b});
      assert {b} + {c} == {c} + {b};
      ghost var mem1 := h.mem;
      h.MergeNext(i, c, b, true, {c});
      if NoFreePairBut(old(h.bs), k) {
        PrevPairs(old(h.bs), k);
      }
      SameDataTwice(old(h.mem), mem1, h.mem, Live(old(h.bs)));
    }
    PrevIs(old(h.bs), old(h.fl), h.bs, h.fl, k);
  }

  /** The second half of coalesce: b absorbs a free block after it. */
  method CoalesceNext(h: Heap, ghost k: nat, b: int)
    requires h.Rep({b}) && k < |h.bs| && h.bs[k].addr == b && h.bs[k].free
    modifies h`mem, h`bs, h`freeList, h`fl
    ensures k < |h.bs| && h.bs[k].addr == b && h.bs[k].free && h.Rep({b})
    ensures Live(h.bs) == Live(old(h.bs)) && SameData(old(h.mem), h.mem, Live(h.bs))
    ensures NoFreePairBut(old(h.bs), k) && !FreeAt(old(h.bs), k - 1) ==> NoFreePair(h.bs)
    ensures NextJoined(Lists(old(h.bs), old(h.fl)), Lists(h.bs, h.fl), k)
  {
    h.BlockFacts(k, {b});
    if k + 1 < |h.bs| {
      h.BlockFacts(k + 1, {b});
    }
    var next := h.mem[b].next;
    if next != 0 && h.IsFreeAt(next) {
      assert IsFree(h.bs, next);
      h.RemoveFromFreeList(next, {b});
      ghost var mem1 := h.mem;
      h.MergeNext(k, b, next, true, {b});
      if NoFreePairBut(old(h.bs), k) && !FreeAt(old(h.bs), k - 1) {
        NextPairs(old(h.bs), k);
      }
      SameDataTwice(old(h.mem), mem1, h.mem, Live(old(h.bs)));
    } else if NoFreePairBut(h.bs, k) && !FreeAt(h.bs, k - 1) {
      ClearPairs(h.bs, k);
    }
    NextIs(old(h.bs), old(h.fl), h.bs, h.fl, k);
  }

  lemma JoinedList(fl: seq<int>, fl1: seq<int>, fl2: seq<int>, bs: seq<Blk>, k: nat)
    requires k < |bs|
    requires fl1 == if FreeAt(bs, k - 1) then Keeping(fl, {bs[k - 1].addr}) else fl
    requires var r, i := JoinedPrev(bs, k), JoinedAt(bs, k);
             fl2 == if FreeAt(r, i + 1) then Keeping(fl1, {r[i + 1].addr}) else fl1
    ensures fl2 == Keeping(fl, Neighbours(bs, k))
  {
    var r, i := JoinedPrev(bs, k), JoinedAt(bs, k);
    assert FreeAt(r, i + 1) <==> FreeAt(bs, k + 1);
    if FreeAt(bs, k + 1) {
      assert r[i + 1] == bs[k + 1];
    }
    KeepingAll(fl, {});
    KeepingTwice(fl, if FreeAt(bs, k - 1) then {bs[k - 1].addr} else {},
                 if FreeAt(bs, k + 1) then {bs[k + 1].addr} else {});
    KeepingAll(fl1, {});
  }

  lemma JoiningIs(fsm: Fsm, l: Lists, l1: Lists, l2: Lists, l3: Lists, k: nat, i: nat, c: int)
    requires k < |l.blocks| && i == JoinedAt(l.blocks, k) && PrevJoined(l, l1, k) && NextJoined(l1, l2, i)
    requires i < |l2.blocks| && l2.blocks[i].addr == c && l3 == Lists(l2.blocks, Linked(fsm, l2.free, c))
    ensures Joining(fsm, l, l3, k)
  {
    assert See(0, l1) && See(0, l2);
    JoinedList(l.free, l1.free, l2.free, l.blocks, k);
    assert l3.blocks == Coalesced(l.blocks, k) && l3.blocks[JoinedAt(l.blocks, k)].addr == c;
    assert l3.free == Linked(fsm, Keeping(l.free, Neighbours(l.blocks, k)), c);
  }

  /** The joined block is first on the free list under first fit and last otherwise; the rest of the list is what it
      was, without the blocks that were joined, in its old order. */
  lemma JoinedIsPlaced(fsm: Fsm, l: Lists, l': Lists, k: nat)
    requires k < |l.blocks| && Joining(fsm, l, l', k)
    ensures JoinedAt(l.blocks, k) < |l'.blocks| && |l'.free| > 0
    ensures var c, rest := l'.blocks[JoinedAt(l.blocks, k)].addr, Keeping(l.free, Neighbours(l.blocks, k));
            if fsm == FirstFit then l'.free[0] == c && l'.free[1..] == rest
            else l'.free[|l'.free| - 1] == c && l'.free[..|l'.free| - 1] == rest
  {
    assert See(0, l');
  }

  /** coalesce of a listed free block: it ends up with no free neighbour, and where add_to_free_list puts it. */
  method Coalesce(h: Heap, ghost k: nat, b: int)
    requires h.Valid() && k < |h.bs| && h.bs[k].addr == b && h.bs[k].free
    modifies h`mem, h`bs, h`freeList, h`fl
    ensures h.Valid() && Live(h.bs) == Live(old(h.bs)) && SameData(old(h.mem), h.mem, Live(h.bs))
    ensures NoFreePairBut(old(h.bs), k) ==> NoFreePair(h.bs)
    ensures Joining(h.fsm, Lists(old(h.bs), Keeping(old(h.fl), {b})), Lists(h.bs, h.fl), k)
  {
    assert IsFree(h.bs, b);
    h.RemoveFromFreeList(b, {});
    assert {} + {b} == {b};
    ghost var mem1, l := h.mem, Lists(h.bs, h.fl);
    var c, i := CoalescePrev(h, k, b);
    ghost var mem2, l1 := h.mem, Lists(h.bs, h.fl);
    CoalesceNext(h, i, c);
    ghost var mem3, l2 := h.mem, Lists(h.bs, h.fl);
    assert IsFree(h.bs, c);
    assert {} + {c} == {c};
    h.AddToFreeList(c, {});
    JoiningIs(h.fsm, l, l1, l2, Lists(h.bs, h.fl), k, i, c);
    SameDataTwice(old(h.mem), mem1, mem2, Live(h.bs));
    SameDataTwice(old(h.mem), mem2, mem3, Live(h.bs));
    SameDataTwice(old(h.mem), mem3, h.mem, Live(h.bs));
  }

  lemma RetagPairs(bs: seq<Blk>, k: nat, free: bool)
    requires NoFreePair(bs) && k < |bs|
    ensures NoFreePairBut(Retagged(bs, k, free), k)
  {
  }

  lemma SameDataOn(mem: Memory, mem': Memory, live: set<(int, int)>, some: set<(int, int)>)
    requires SameData(mem, mem', live) && some <= live
    ensures SameData(mem, mem', some)
  {
  }

  lemma UsedIsUnlisted(h: Heap, k: nat)
    requires h.Valid() && k < |h.bs| && !h.bs[k].free
    ensures h.bs[k].addr !in h.fl
  {
    assert Open(0, h.mem, h.bs);
    if h.bs[k].addr in h.fl {
      var i :| 0 <= i < |h.fl| && h.fl[i] == h.bs[k].addr;
      var j :| 0 <= j < |h.bs| && h.bs[j].addr == h.fl[i] && h.bs[j].free;
      h.SameBlock(j, k, {});
    }
  }

  /** The list of free, once its block is taken off again. */
  lemma FreedList(fsm: Fsm, fl: seq<int>, b: int)
    requires b !in fl
    ensures Keeping(Linked(fsm, fl, b), {b}) == fl
  {
    LinkedThenGone(fsm, fl, b, {b});
    KeepingAll(fl, {b});
  }

  /** free: the allocation is gone, all others stay with their bytes, and free neighbours are joined.  The joined block
      is first on the free list under first fit and last otherwise, and the rest of the list keeps its order. */
  method Free(h: Heap, ptr: int, ghost k: nat)
    requires h.Valid() && (ptr != 0 ==> k < |h.bs| && !h.bs[k].free && Alloc(h.bs[k]).0 == ptr)
    modifies h`mem, h`bs, h`freeList, h`fl
    ensures h.Valid() && SameData(old(h.mem), h.mem, Live(h.bs))
    ensures Live(h.bs) == Live(old(h.bs)) - (if ptr == 0 then {} else {Alloc(old(h.bs)[k])})
    ensures NoFreePair(old(h.bs)) ==> NoFreePair(h.bs)
    ensures ptr == 0 ==> h.mem == old(h.mem) && h.bs == old(h.bs) && h.fl == old(h.fl)
    ensures ptr != 0 ==>
              Joining(h.fsm, Lists(Retagged(old(h.bs), k, true), old(h.fl)), Lists(h.bs, h.fl), k)
  {
    if ptr == 0 {
      return;
    }
    UsedIsUnlisted(h, k);
    FreedList(h.fsm, h.fl, h.bs[k].addr);
    var b := ptr - HDR;
    h.SetFlag(k, b, true, {});
    ghost var mem1 := h.mem;
    assert h.bs[k].addr == b && h.bs[k].free;
    assert IsFree(h.bs, b);
    h.AddToFreeList(b, {});
    ghost var mem2 := h.mem;
    Coalesce(h, k, b);
    if NoFreePair(old(h.bs)) {
      RetagPairs(old(h.bs), k, true);
    }
    SameDataOn(old(h.mem), mem1, Live(old(h.bs)), Live(h.bs));
    SameDataTwice(old(h.mem), mem1, mem2, Live(h.bs));
    SameDataTwice(old(h.mem), mem2, h.mem, Live(h.bs));
  }

  // ----- sizes -----

  const UINT: int := 0x1_0000_0000
  const PAGE: int := 4096

  /** align_size, in 32-bit arithmetic. */
  function AlignSize(size: int): int {
    var x := (size + ALIGN - 1) % UINT;
    x - x % ALIGN
  }

  /** The payload size that malloc and realloc look for. */
  function Rounded(size: int): int {
    if AlignSize(size) < MIN_DATA then MIN_DATA else AlignSize(size)
  }

  /** What malloc asks of sbrk, in 32-bit arithmetic. */
  function Request(size: int): int {
    var total := (HDR + size) % UINT;
    (total + PAGE - 1) % UINT / PAGE * PAGE
  }

  /** The largest size that malloc handles as intended: sbrk takes a signed argument. */
  const MAX_REQUEST: int := 0x8000_0000 - PAGE - HDR

  lemma RoundingIsRight(size: int)
    requires 0 < size < UINT
    ensures Rounded(size) % ALIGN == 0 && MIN_DATA <= Rounded(size) < UINT
    ensures Rounded(size) >= size <==> size <= UINT - ALIGN
    ensures size <= UINT - ALIGN ==> Rounded(size) < size + ALIGN
  {
  }

  /** sbrk raises the break by a request that is positive as a signed number. For any other it returns the
      break as it was, and malloc's first store there kills the process. */
  predicate Raises(request: int) {
    0 < request < 0x8000_0000
  }

  /** What malloc returns when the process is killed. */
  const LOST: int := -1

  function Least(x: int, y: int): (r: int) {
    if x < y then x else y
  }

  lemma RequestIsRight(size: int)
    requires size % ALIGN == 0 && MIN_DATA <= size < UINT
    ensures Request(size) % ALIGN == 0
    ensures size <= MAX_REQUEST <==> HDR + size <= Request(size) < 0x8000_0000
    ensures size <= MAX_REQUEST ==> Request(size) < HDR + size + PAGE
  {
  }

  /** Beyond that range the process is killed, except for the one size whose total wraps around to a page. */
  lemma RequestIsWrong(size: int)
    requires size % ALIGN == 0 && MAX_REQUEST < size < UINT
    ensures Raises(Request(size)) <==> size == UINT - ALIGN
    ensures Raises(Request(size)) ==> Request(size) == PAGE
  {
  }

  /** Rounding, the request and its use as a signed number go right exactly up to MAX_REQUEST. */
  lemma SizesAreRight(size: int)
    requires 0 < size < UINT
    ensures size <= MAX_REQUEST <==>
            Rounded(size) >= size && HDR + Rounded(size) <= Request(Rounded(size)) < 0x8000_0000
  {
    RoundingIsRight(size);
    RequestIsRight(Rounded(size));
    assert MAX_REQUEST % ALIGN == 0;
  }

  /** The sum that coalesce and realloc form is at most the size of the heap, so below 4 GiB it fits 32 bits. */
  lemma SumsFit(bs: seq<Blk>, base: int, brk: int, k: nat)
    requires Tiled(bs, base, brk) && k + 1 < |bs|
    ensures bs[k].size + HDR + bs[k + 1].size < brk - base
  {
    var j := k + 1;
    assert End(bs[k]) == bs[j].addr && GoodBlock(bs[k]);
    assert k > 0 ==> End(bs[0]) <= bs[k].addr;
    assert j < |bs| - 1 ==> End(bs[j]) <= bs[|bs| - 1].addr;
    assert GoodBlock(bs[0]) && GoodBlock(bs[|bs| - 1]);
  }

  // ----- malloc -----

  /** Block k is the new allocation at p, of at least `size` bytes and little more, and nothing else is new. */
  ghost predicate Allocated(bs: seq<Blk>, bs': seq<Blk>, k: nat, p: int, size: int) {
    && k < |bs'| && !bs'[k].free && p == bs'[k].addr + HDR && p > 0 && size <= bs'[k].size < size + HDR + MIN_DATA
    && Live(bs') == Live(bs) + {Alloc(bs'[k])} && (forall a :: a in Live(bs) ==> a.0 != p)
    && (NoFreePair(bs) ==> NoFreePair(bs'))
  }

  /** A block in use may be on or off the skip set. */
  lemma UsedIsListed(h: Heap, k: nat, b: int)
    requires h.Rep({b} + {b}) && k < |h.bs| && h.bs[k].addr == b && !h.bs[k].free
    ensures h.Valid()
  {
    Unskip(h.mem, h.bs, h.fl, h.base, h.brk, {b} + {b}, k);
    assert {b} + {b} - {b} == {};
  }

  /** Block k before and after split_block. */
  ghost predicate Cut(bs: seq<Blk>, r: seq<Blk>, k: nat, size: int) {
    && k < |bs|
    && (if bs[k].size < size + HDR + MIN_DATA then r == bs
        else r == Split(bs, k, size) && Live(r) == Live(bs) - {Alloc(bs[k])} + {(bs[k].addr + HDR, size)})
  }

  /** Block k before and after split_block and set_used. */
  ghost predicate Carved(bs: seq<Blk>, r: seq<Blk>, k: nat, size: int) {
    && k < |bs| && k < |r| && r[k].addr == bs[k].addr && !r[k].free
    && Least(size, bs[k].size) <= r[k].size < size + HDR + MIN_DATA && r[k].size <= bs[k].size
    && Live(r) == Live(bs) - {Alloc(bs[k])} + {Alloc(r[k])}
    && (NoFreePairBut(bs, k) ==> (NoFreePair(r) <==> !(FreeAt(bs, k + 1) && |r| > |bs|)))
  }

  lemma CarvePairs(bs: seq<Blk>, r1: seq<Blk>, r: seq<Blk>, k: nat, size: int)
    requires Cut(bs, r1, k, size) && r == Retagged(r1, k, false) && NoFreePairBut(bs, k)
    ensures NoFreePair(r) <==> !(FreeAt(bs, k + 1) && |r| > |bs|)
  {
    if r1 == bs {
      ClearPairsUsed(bs, r, k);
    } else {
      SplitPairs(bs, k, size);
      assert r == r1;
    }
  }

  lemma ClearPairsUsed(bs: seq<Blk>, r: seq<Blk>, k: nat)
    requires k < |bs| && NoFreePairBut(bs, k) && r == Retagged(bs, k, false)
    ensures NoFreePair(r)
  {
  }

  lemma CarveDone(bs: seq<Blk>, r1: seq<Blk>, r: seq<Blk>, k: nat, size: int)
    requires Cut(bs, r1, k, size) && r == Retagged(r1, k, false)
    requires Live(r) == Live(r1) - {Alloc(r1[k])} + {Alloc(r1[k])}
    ensures Carved(bs, r, k, size)
  {
    if NoFreePairBut(bs, k) {
      CarvePairs(bs, r1, r, k, size);
    }
    assert Alloc(r[k]) == Alloc(r1[k]);
  }

  /** split_block and set_used of block k, which is in use or off the free list. */
  method CarveBlock(h: Heap, ghost k: nat, b: int, size: int)
    requires h.Rep({b}) && k < |h.bs| && h.bs[k].addr == b && size % ALIGN == 0 && MIN_DATA <= size
    modifies h`mem, h`bs, h`freeList, h`fl
    ensures h.Valid() && Carved(old(h.bs), h.bs, k, size)
    ensures SameData(old(h.mem), h.mem, Live(old(h.bs)) - {Alloc(old(h.bs)[k])})
    ensures !old(h.bs)[k].free ==> SameData(old(h.mem), h.mem, Live(h.bs))
    ensures Carving(h.fsm, Lists(old(h.bs), old(h.fl)), Lists(h.bs, h.fl), k, size)
  {
    h.SplitBlock(k, b, size, {b});
    ghost var mem1, bs1 := h.mem, h.bs;
    assert Cut(old(h.bs), bs1, k, size) && h.fl == CutList(h.fsm, old(h.fl), old(h.bs), k, size);
    h.SetFlag(k, b, false, {b});
    assert Live(h.bs) == Live(bs1) - {Alloc(bs1[k])} + {Alloc(bs1[k])};
    UsedIsListed(h, k, b);
    CarveFacts(h.fsm, old(h.mem), mem1, h.mem, Lists(old(h.bs), old(h.fl)), bs1, Lists(h.bs, h.fl), k, size);
  }

  lemma CarveFacts(fsm: Fsm, mem: Memory, mem1: Memory, mem2: Memory, l: Lists, bs1: seq<Blk>, l': Lists, k: nat,
                   size: int)
    requires Cut(l.blocks, bs1, k, size) && k < |bs1| && l'.blocks == Retagged(bs1, k, false)
    requires Live(l'.blocks) == Live(bs1) - {Alloc(bs1[k])} + {Alloc(bs1[k])}
    requires l'.free == CutList(fsm, l.free, l.blocks, k, size)
    requires SameData(mem, mem1, Live(bs1)) && SameData(mem1, mem2, Live(bs1))
    ensures Carved(l.blocks, l'.blocks, k, size) && Carving(fsm, l, l', k, size)
    ensures SameData(mem, mem2, Live(l.blocks) - {Alloc(l.blocks[k])})
    ensures !l.blocks[k].free ==> SameData(mem, mem2, Live(l'.blocks))
  {
    CarvingIs(fsm, l.blocks, l.free, bs1, l'.free, l'.blocks, k, size);
    CarveDone(l.blocks, bs1, l'.blocks, k, size);
    CarveData(mem, mem1, mem2, l.blocks, bs1, k, size);
  }

  lemma CarveData(mem: Memory, mem1: Memory, mem2: Memory, bs: seq<Blk>, bs1: seq<Blk>, k: nat, size: int)
    requires Cut(bs, bs1, k, size) && SameData(mem, mem1, Live(bs1)) && SameData(mem1, mem2, Live(bs1))
    ensures SameData(mem, mem2, Live(bs) - {Alloc(bs[k])}) && SameData(mem, mem2, Live(bs1))
  {
    SameDataTwice(mem, mem1, mem2, Live(bs1));
    SameDataOn(mem, mem2, Live(bs1), Live(bs) - {Alloc(bs[k])});
  }

  // ----- malloc: a free block -----

  lemma PickedBlock(h: Heap, want: int, pick: int) returns (k: nat)
    requires h.Valid() && 0 <= pick < |h.fl| && Picks(h.fsm, Sizes(h.mem, h.fl), |h.fl|, want, pick)
    ensures k < |h.bs| && h.bs[k].addr == h.fl[pick] && h.bs[k].free && h.bs[k].size >= want
  {
    assert IsFree(h.bs, h.fl[pick]) by { h.FreeFactsOf(h.mem, {}); }
    k :| 0 <= k < |h.bs| && h.bs[k].addr == h.fl[pick] && h.bs[k].free;
    h.BlockFacts(k, {});
    assert Sizes(h.mem, h.fl)[pick] == h.bs[k].size;
  }

  lemma NothingPicked(h: Heap, want: int)
    requires h.Valid() && Picks(h.fsm, Sizes(h.mem, h.fl), |h.fl|, want, -1)
    ensures NoFit(h.bs, want)
  {
    forall k | 0 <= k < |h.bs| && h.bs[k].free ensures h.bs[k].size < want {
      assert IsFree(h.bs, h.bs[k].addr);
      var i := h.IndexOnList(h.bs[k].addr, {});
      h.BlockFacts(k, {});
      assert Sizes(h.mem, h.fl)[i] == h.bs[k].size;
    }
  }

  /** malloc takes free block k. */
  method TakeFree(h: Heap, ghost k: nat, b: int, size: int)
    requires h.Valid() && k < |h.bs| && h.bs[k].addr == b && h.bs[k].free
    requires size % ALIGN == 0 && MIN_DATA <= size <= h.bs[k].size
    modifies h`mem, h`bs, h`freeList, h`fl
    ensures h.Valid() && Carved(old(h.bs), h.bs, k, size) && Alloc(old(h.bs)[k]) !in Live(old(h.bs))
    ensures SameData(old(h.mem), h.mem, Live(old(h.bs)))
    ensures Carving(h.fsm, Lists(old(h.bs), Keeping(old(h.fl), {b})), Lists(h.bs, h.fl), k, size)
  {
    assert Alloc(h.bs[k]) !in Live(h.bs) by {
      assert Open(0, h.mem, h.bs);
      LiveAt(h.bs, k);
    }
    assert IsFree(h.bs, b);
    h.RemoveFromFreeList(b, {});
    assert {} + {b} == {b};
    ghost var mem1 := h.mem;
    CarveBlock(h, k, b, size);
    assert Live(old(h.bs)) - {Alloc(old(h.bs)[k])} == Live(old(h.bs));
    SameDataTwice(old(h.mem), mem1, h.mem, Live(old(h.bs)));
  }

  // ----- malloc: growing the heap -----

  lemma ChainNext(mem: Memory, bs: seq<Blk>, i: nat)
    requires Chained(mem, bs) && GoodBlocks(bs) && i < |bs|
    ensures mem[bs[i].addr].Header? && mem[bs[i].addr].next == AddrAt(bs, i + 1)
    ensures i + 1 < |bs| ==> AddrAt(bs, i + 1) != 0
  {
    if i + 1 < |bs| {
      var j := i + 1;
      assert mem[bs[i].addr].next == bs[j].addr && GoodBlock(bs[j]);
    }
  }

  /** The walk to the last block. */
  method LastBlock(h: Heap) returns (tmp: int)
    requires h.bs != [] && Chained(h.mem, h.bs) && GoodBlocks(h.bs) && h.head == h.bs[0].addr
    ensures tmp == h.bs[|h.bs| - 1].addr
  {
    tmp := h.head;
    ghost var i := 0;
    ChainNext(h.mem, h.bs, 0);
    while h.mem[tmp].next != 0
      invariant 0 <= i < |h.bs| && tmp == h.bs[i].addr && h.mem[tmp].Header? && h.mem[tmp].next == AddrAt(h.bs, i + 1)
      invariant i + 1 < |h.bs| ==> AddrAt(h.bs, i + 1) != 0
      decreases |h.bs| - i
    {
      tmp := h.mem[tmp].next;
      i := i + 1;
      ChainNext(h.mem, h.bs, i);
    }
  }

  lemma BeyondKeepsChain(mem: Memory, bs: seq<Blk>, base: int, brk: int, v: Cell)
    requires Tiled(bs, base, brk) && Chained(mem, bs)
    ensures Chained(Store(mem, brk, v), bs)
    ensures bs != [] ==> bs[|bs| - 1].addr != brk && mem[bs[|bs| - 1].addr].Header?
  {
    forall k | 0 <= k < |bs| ensures Store(mem, brk, v)[bs[k].addr] == mem[bs[k].addr] {
      assert k < |bs| - 1 ==> End(bs[k]) <= bs[|bs| - 1].addr;
      assert GoodBlock(bs[k]) && GoodBlock(bs[|bs| - 1]);
    }
  }

  /** Appendable is looked into only where this is mentioned. */
  ghost predicate Beyond(n: int, bs: seq<Blk>) { true }

  /** The headers are in order even with a new one at newb. */
  ghost predicate Appendable(mem: Memory, bs: seq<Blk>, newb: int, size: int) {
    forall n: int {:trigger Beyond(n, bs)} :: 0 <= n && bs != [] ==>
      && Chained(Store(mem, newb, Header(size, 0, 0)), bs) && GoodBlocks(bs)
      && bs[|bs| - 1].addr != newb && mem[bs[|bs| - 1].addr].Header?
  }

  /** The header writes by which malloc appends a block at the old break. */
  method WriteBlock(h: Heap, newb: int, size: int)
    requires Appendable(h.mem, h.bs, newb, size) && h.head == AddrAt(h.bs, 0) && (h.bs != [] ==> h.head != 0)
    requires h.bs != [] ==> h.mem[h.bs[|h.bs| - 1].addr].Header?
    modifies h`mem, h`head
    ensures h.mem == ExtendMem(old(h.mem), h.bs, newb, size) && h.head == if h.bs == [] then newb else old(h.head)
  {
    assert Beyond(0, h.bs);
    h.mem := Store(h.mem, newb, Header(size, 0, 0));
    if h.head == 0 {
      h.head := newb;
    } else {
      var tmp := LastBlock(h);
      h.mem := Store(h.mem, tmp, Header(h.mem[tmp].size, newb, h.mem[tmp].prev));
      h.mem := Store(h.mem, newb, Header(h.mem[newb].size, h.mem[newb].next, tmp));
    }
  }

  /** A block appended at the break, which sbrk has raised by HDR + size. */
  method AppendBlock(h: Heap, size: int)
    requires h.Valid() && size >= MIN_DATA && size % ALIGN == 0
    modifies h`mem, h`bs, h`head, h`brk
    ensures h.Valid() && h.brk == old(h.brk) + HDR + size && h.bs == Extended(old(h.bs), old(h.brk), size)
    ensures SameData(old(h.mem), h.mem, Live(old(h.bs)))
    ensures Live(h.bs) == Live(old(h.bs)) + {(old(h.brk) + HDR, size)} && (old(h.brk) + HDR, size) !in Live(old(h.bs))
  {
    ghost var mem0, bs0 := h.mem, h.bs;
    var newb := h.brk;
    AppendFacts(h, size);
    WriteBlock(h, newb, size);
    h.brk := newb + HDR + size;
    ExtendStep(mem0, bs0, h.fl, h.base, newb, h.brk, {}, size);
    h.bs := Extended(h.bs, newb, size);
  }

  lemma AppendFacts(h: Heap, size: int)
    requires h.Valid() && size >= MIN_DATA
    ensures (h.bs != [] ==> h.head != 0) && (h.brk + HDR, size) !in Live(h.bs)
    ensures Appendable(h.mem, h.bs, h.brk, size) && (h.bs != [] ==> h.mem[h.bs[|h.bs| - 1].addr].Header?)
  {
    TiledFacts(h);
    BeyondKeepsChain(h.mem, h.bs, h.base, h.brk, Header(size, 0, 0));
    BeyondIsNew(h.bs, h.base, h.brk, size);
    if h.bs != [] {
      h.BlockFacts(0, {});
    }
  }

  lemma TiledFacts(h: Heap)
    requires h.Valid()
    ensures Tiled(h.bs, h.base, h.brk) && Chained(h.mem, h.bs)
  {
    assert Open(0, h.mem, h.bs);
  }

  lemma BeyondIsNew(bs: seq<Blk>, base: int, brk: int, size: int)
    requires Tiled(bs, base, brk) && size >= MIN_DATA
    ensures (brk + HDR, size) !in Live(bs)
  {
    var a := (brk + HDR, size);
    if a in Live(bs) {
      LiveDisjoint(bs, base, brk, a, a);
    }
  }

  // ----- malloc -----

  /** Memory after memset. */
  function Filled(mem: Memory, start: int, n: nat, v: int): Memory {
    if n == 0 then mem else Store(Filled(mem, start, n - 1, v), start + (n - 1), Word(v))
  }

  lemma {:induction false} FilledAt(mem: Memory, start: int, n: nat, v: int, x: int)
    ensures Filled(mem, start, n, v)[x] == if start <= x < start + n then Word(v) else mem[x]
  {
    if n > 0 {
      FilledAt(mem, start, n - 1, v, x);
    }
  }

  method FillBytes(h: Heap, start: int, n: nat, v: int)
    modifies h`mem
    ensures h.mem == Filled(old(h.mem), start, n, v)
  {
    var i := 0;
    while i < n
      invariant 0 <= i <= n && h.mem == Filled(old(h.mem), start, i, v)
    {
      h.mem := Store(h.mem, start + i, Word(v));
      i := i + 1;
    }
  }

  lemma FilledWithin(mem: Memory, mem': Memory, start: int, n: nat, v: int)
    requires mem' == Filled(mem, start, n, v)
    ensures OnlyWithin(mem, mem', (start, n)) && AllBytes(mem', start, n, v)
  {
    forall x ensures mem'[x] == if start <= x < start + n then Word(v) else mem[x] {
      FilledAt(mem, start, n, v, x);
    }
  }

  /** memset within the payload of block k, which is in use. */
  method Fill(h: Heap, ghost k: nat, start: int, n: nat, v: int)
    requires h.Valid() && k < |h.bs| && !h.bs[k].free
    requires h.bs[k].addr + HDR <= start && start + n <= End(h.bs[k])
    modifies h`mem
    ensures h.Valid() && SameData(old(h.mem), h.mem, Live(h.bs) - {Alloc(h.bs[k])})
    ensures AllBytes(h.mem, start, n, v) && OnlyWithin(old(h.mem), h.mem, (start, n))
  {
    FillBytes(h, start, n, v);
    FilledWithin(old(h.mem), h.mem, start, n, v);
    UserWrites(old(h.mem), h.mem, h.bs, h.fl, h.base, h.brk, {}, k);
  }

  ghost predicate AllBytes(mem: Memory, p: int, n: int, v: int) {
    forall x :: p <= x < p + n ==> mem[x] == Word(v)
  }

  lemma FitPairs(bs: seq<Blk>, r: seq<Blk>, k: nat, size: int)
    requires Carved(bs, r, k, size) && bs[k].free && NoFreePair(bs)
    ensures NoFreePair(r)
  {
    if k + 1 < |bs| {
      var j := k + 1;
      assert bs[k].free && !bs[j].free;
    }
  }

  /** A free block is at the address of no allocation. */
  lemma FreeIsNotLive(h: Heap, k: nat)
    requires h.Valid() && k < |h.bs| && h.bs[k].free
    ensures forall a :: a in Live(h.bs) ==> a.0 != h.bs[k].addr + HDR
  {
    assert Open(0, h.mem, h.bs);
    LiveAt(h.bs, k);
  }

  /** malloc has taken free block k at p off the free list and cut it. */
  ghost predicate FromList(fsm: Fsm, bs: seq<Blk>, fl: seq<int>, bs': seq<Blk>, fl': seq<int>, k: nat, p: int, n: int) {
    && k < |bs| && bs[k].free && p == bs[k].addr + HDR
    && Carving(fsm, Lists(bs, Keeping(fl, {bs[k].addr})), Lists(bs', fl'), k, n)
  }

  /** malloc has appended block k of `request` bytes at the break and cut it. */
  ghost predicate FromBreak(fsm: Fsm, bs: seq<Blk>, fl: seq<int>, brk: int, request: int, bs': seq<Blk>, fl': seq<int>,
                            k: nat, p: int, n: int) {
    && k == |bs| && p == brk + HDR
    && Carving(fsm, Lists(Extended(bs, brk, request - HDR), fl), Lists(bs', fl'), k, n)
  }

  /** The part of malloc that looks for a free block; 0 and no change when nothing fits. */
  method MallocFit(h: Heap, size: int) returns (p: int, ghost k: nat, ghost pick: int)
    requires h.Valid() && size % ALIGN == 0 && MIN_DATA <= size
    modifies h`mem, h`bs, h`freeList, h`fl
    ensures h.Valid() && SameData(old(h.mem), h.mem, Live(old(h.bs)))
    ensures p == 0 <==> NoFit(old(h.bs), size)
    ensures p == 0 ==> h.mem == old(h.mem) && h.bs == old(h.bs) && h.fl == old(h.fl)
    ensures p != 0 ==> Allocated(old(h.bs), h.bs, k, p, size) && p == Nth(old(h.fl), pick) + HDR
    ensures p != 0 ==> FromList(h.fsm, old(h.bs), old(h.fl), h.bs, h.fl, k, p, size)
    ensures Picks(h.fsm, Sizes(old(h.mem), old(h.fl)), |old(h.fl)|, size, pick)
  {
    var b;
    assert FreeChain(h.mem, h.fl) by { h.FreeFactsOf(h.mem, {}); }
    b, pick := h.FindFreeBlock(size);
    p, k := 0, 0;
    if b == 0 {
      NothingPicked(h, size);
      return;
    }
    k := PickedBlock(h, size, pick);
    FreeIsNotLive(h, k);
    h.BlockFacts(k, {});
    TakeFree(h, k, b, size);
    p := b + HDR;
    if NoFreePair(old(h.bs)) {
      FitPairs(old(h.bs), h.bs, k, size);
    }
  }

  lemma BeyondPairs(bs: seq<Blk>, brk: int, big: int)
    requires NoFreePair(bs)
    ensures NoFreePairBut(Extended(bs, brk, big), |bs|)
  {
  }

  lemma GrowDone(bs: seq<Blk>, bs1: seq<Blk>, r: seq<Blk>, base: int, brk: int, big: int, size: int)
    requires bs1 == Extended(bs, brk, big) && Carved(bs1, r, |bs|, size) && Tiled(bs, base, brk) && brk >= 0
    requires Live(bs1) == Live(bs) + {(brk + HDR, big)} && (brk + HDR, big) !in Live(bs)
    ensures Allocated(bs, r, |bs|, brk + HDR, Least(size, big))
  {
    assert bs1[|bs|] == Blk(brk, big, false);
    forall a | a in Live(bs) ensures a.0 != brk + HDR {
      LiveDisjoint(bs, base, brk, a, a);
    }
    if NoFreePair(bs) {
      GrowPairs(bs, bs1, r, brk, big, size);
    }
  }

  lemma GrowPairs(bs: seq<Blk>, bs1: seq<Blk>, r: seq<Blk>, brk: int, big: int, size: int)
    requires bs1 == Extended(bs, brk, big) && Carved(bs1, r, |bs|, size) && NoFreePair(bs)
    ensures NoFreePair(r)
  {
    BeyondPairs(bs, brk, big);
  }

  /** The part of malloc that appends a block of `request` bytes and cuts it. */
  method MallocGrow(h: Heap, size: int, request: int) returns (p: int, ghost k: nat)
    requires h.Valid() && size % ALIGN == 0 && MIN_DATA <= size && request >= HDR + MIN_DATA && request % ALIGN == 0
    modifies h`mem, h`bs, h`freeList, h`fl, h`head, h`brk
    ensures h.Valid() && SameData(old(h.mem), h.mem, Live(old(h.bs))) && h.brk == old(h.brk) + request
    ensures Allocated(old(h.bs), h.bs, k, p, Least(size, request - HDR)) && p == old(h.brk) + HDR
    ensures h.bs[k].size <= request - HDR
    ensures FromBreak(h.fsm, old(h.bs), old(h.fl), old(h.brk), request, h.bs, h.fl, k, p, size)
  {
    var newb := h.brk;
    k := |h.bs|;
    assert Tiled(h.bs, h.base, h.brk) by { TiledFacts(h); }
    AppendBlock(h, request - HDR);
    ghost var mem1, bs1 := h.mem, h.bs;
    SkipUsed(h.mem, h.bs, h.fl, h.base, h.brk, k, newb);
    CarveBlock(h, k, newb, size);
    p := newb + HDR;
    assert Live(bs1) - {Alloc(bs1[k])} == Live(old(h.bs));
    GrowDone(old(h.bs), bs1, h.bs, h.base, newb, request - HDR, size);
    SameDataTwice(old(h.mem), mem1, h.mem, Live(old(h.bs)));
  }

  /** The memset of malloc when scribbling is on. */
  method Scribble(h: Heap, ghost bs0: seq<Blk>, ghost k: nat, p: int, ghost size: int)
    requires h.Valid() && Allocated(bs0, h.bs, k, p, size)
    modifies h`mem
    ensures h.Valid() && SameData(old(h.mem), h.mem, Live(bs0))
    ensures h.scribble ==> AllBytes(h.mem, p, h.bs[k].size, 0xAA)
  {
    if h.scribble {
      h.BlockFacts(k, {});
      Fill(h, k, p, h.GetSize(p - HDR), 0xAA);
      SameDataOn(old(h.mem), h.mem, Live(h.bs) - {Alloc(h.bs[k])}, Live(bs0));
    }
  }

  /** The payload that malloc gives for a rounded size: less than that in one case. */
  function Given(n: int, grown: bool): int {
    if grown then Least(n, Request(n) - HDR) else n
  }

  /** malloc of a rounded size, up to the scribbling. */
  method MallocBlock(h: Heap, n: int, granted: bool) returns (p: int, ghost k: nat, ghost pick: int)
    requires h.Valid() && n % ALIGN == 0 && MIN_DATA <= n < UINT
    modifies h`mem, h`bs, h`freeList, h`fl, h`head, h`brk
    ensures h.Valid() && SameData(old(h.mem), h.mem, Live(old(h.bs)))
    ensures p == LOST <==> NoFit(old(h.bs), n) && !Raises(Request(n))
    ensures p == 0 <==> NoFit(old(h.bs), n) && Raises(Request(n)) && !granted
    ensures p <= 0 ==> p == 0 || p == LOST
    ensures p <= 0 ==> h.mem == old(h.mem) && h.bs == old(h.bs) && h.fl == old(h.fl) && h.brk == old(h.brk)
    ensures p > 0 ==> Allocated(old(h.bs), h.bs, k, p, Given(n, NoFit(old(h.bs), n)))
    ensures p > 0 && NoFit(old(h.bs), n) ==> h.bs[k].size <= Request(n) - HDR
    ensures p > 0 ==> h.brk == old(h.brk) + (if NoFit(old(h.bs), n) then Request(n) else 0)
    ensures p > 0 && !NoFit(old(h.bs), n) ==> p == Nth(old(h.fl), pick) + HDR
    ensures Picks(h.fsm, Sizes(old(h.mem), old(h.fl)), |old(h.fl)|, n, pick)
    ensures p > 0 ==>
              if NoFit(old(h.bs), n)
              then FromBreak(h.fsm, old(h.bs), old(h.fl), old(h.brk), Request(n), h.bs, h.fl, k, p, n)
              else FromList(h.fsm, old(h.bs), old(h.fl), h.bs, h.fl, k, p, n)
  {
    p, k, pick := MallocFit(h, n);
    if p == 0 {
      var request := Request(n);
      RequestIsRight(n);
      if !Raises(request) {
        p := LOST;
      } else if granted {
        p, k := MallocGrow(h, n, request);
      }
    }
  }

  /** malloc's block holds as many bytes as were asked for. */
  ghost predicate Enough(size: int, grown: bool) {
    Rounded(size) >= size && (grown ==> size <= MAX_REQUEST)
  }

  lemma GivenIsEnough(size: int, grown: bool, got: int)
    requires 0 < size < UINT && (grown ==> Raises(Request(Rounded(size))))
    requires Given(Rounded(size), grown) <= got < Given(Rounded(size), grown) + HDR + MIN_DATA
    ensures size <= got <==> Enough(size, grown)
    ensures size <= MAX_REQUEST ==> Enough(size, grown) && Given(Rounded(size), grown) == Rounded(size)
  {
    RoundingIsRight(size);
    RequestIsRight(Rounded(size));
    SizesAreRight(size);
    if Rounded(size) > MAX_REQUEST {
      RequestIsWrong(Rounded(size));
    }
  }

  /**
   malloc: one new allocation, from the free block that the policy picks, or from a raised break when
   no free block is large enough; nothing else changes.
   */
  method Malloc(h: Heap, size: int, granted: bool) returns (p: int, ghost k: nat, ghost pick: int)
    requires h.Valid() && 0 <= size < UINT
    modifies h`mem, h`bs, h`freeList, h`fl, h`head, h`brk
    ensures h.Valid() && SameData(old(h.mem), h.mem, Live(old(h.bs)))
    ensures p == LOST <==> size > 0 && NoFit(old(h.bs), Rounded(size)) && !Raises(Request(Rounded(size)))
    ensures p == 0 <==> size == 0 || (NoFit(old(h.bs), Rounded(size)) && Raises(Request(Rounded(size))) && !granted)
    ensures p <= 0 ==> p == 0 || p == LOST
    ensures p <= 0 ==> h.mem == old(h.mem) && h.bs == old(h.bs) && h.fl == old(h.fl) && h.brk == old(h.brk)
    ensures p > 0 ==> Allocated(old(h.bs), h.bs, k, p, Given(Rounded(size), NoFit(old(h.bs), Rounded(size))))
    ensures p > 0 && NoFit(old(h.bs), Rounded(size)) ==> h.bs[k].size <= Request(Rounded(size)) - HDR
    ensures p > 0 ==> (size <= h.bs[k].size <==> Enough(size, NoFit(old(h.bs), Rounded(size))))
    ensures p > 0 && size <= MAX_REQUEST ==> Allocated(old(h.bs), h.bs, k, p, Rounded(size)) && size <= h.bs[k].size
    ensures p > 0 && h.scribble ==> AllBytes(h.mem, p, h.bs[k].size, 0xAA)
    ensures p > 0 ==> h.brk == old(h.brk) + (if NoFit(old(h.bs), Rounded(size)) then Request(Rounded(size)) else 0)
    ensures p > 0 && !NoFit(old(h.bs), Rounded(size)) ==> p == Nth(old(h.fl), pick) + HDR
    ensures p > 0 ==> Picks(h.fsm, Sizes(old(h.mem), old(h.fl)), |old(h.fl)|, Rounded(size), pick)
    ensures p > 0 ==>
              if NoFit(old(h.bs), Rounded(size))
              then FromBreak(h.fsm, old(h.bs), old(h.fl), old(h.brk), Request(Rounded(size)), h.bs, h.fl, k, p,
                Rounded(size))
              else FromList(h.fsm, old(h.bs), old(h.fl), h.bs, h.fl, k, p, Rounded(size))
  {
    p, k, pick := 0, 0, 0;
    if size == 0 {
      return;
    }
    RoundingIsRight(size);
    p, k, pick := MallocBlock(h, Rounded(size), granted);
    if p > 0 {
      ghost var mem1, grown := h.mem, NoFit(old(h.bs), Rounded(size));
      GivenIsEnough(size, grown, h.bs[k].size);
      Scribble(h, old(h.bs), k, p, Given(Rounded(size), grown));
      SameDataTwice(old(h.mem), mem1, h.mem, Live(old(h.bs)));
    }
  }

  /** The rounding wraps around for the sizes above 2^32 - 16: malloc of the largest size succeeds with a few
      bytes. */
  method MallocTooLittle(h: Heap) returns (p: int, ghost k: nat)
    requires h.Valid()
    modifies h`mem, h`bs, h`freeList, h`fl, h`head, h`brk
    ensures h.Valid() && p > 0 && Allocated(old(h.bs), h.bs, k, p, MIN_DATA) && h.bs[k].size < 64
  {
    assert Rounded(UINT - 1) == MIN_DATA;
    RequestIsRight(MIN_DATA);
    ghost var pick;
    p, k, pick := Malloc(h, UINT - 1, true);
  }

  /** The memset of calloc. */
  method Zero(h: Heap, ghost bs0: seq<Blk>, ghost k: nat, p: int, total: int, ghost n: int)
    requires h.Valid() && Allocated(bs0, h.bs, k, p, n) && 0 < total <= h.bs[k].size
    modifies h`mem
    ensures h.Valid() && SameData(old(h.mem), h.mem, Live(bs0)) && AllBytes(h.mem, p, total, 0)
  {
    Fill(h, k, p, total, 0);
    SameDataOn(old(h.mem), h.mem, Live(h.bs) - {Alloc(h.bs[k])}, Live(bs0));
  }

  /** calloc's product in 32-bit arithmetic. */
  function Product(nmemb: int, size: int): (r: int)
    requires nmemb >= 0 && size >= 0
    ensures 0 <= r < UINT
    ensures r == nmemb * size <==> nmemb * size < UINT
    ensures r <= nmemb * size && (nmemb * size >= UINT ==> nmemb * size >= r + UINT)
  {
    var exact := nmemb * size;
    assert exact >= 0;
    exact % UINT
  }

  /** The process is killed in calloc: by malloc, or by a memset that runs past a block that is too small. */
  ghost predicate CallocLost(bs: seq<Blk>, total: int, granted: bool) {
    var grown := NoFit(bs, Rounded(total));
    && total > 0
    && (if grown && !Raises(Request(Rounded(total))) then true else (grown ==> granted) && !Enough(total, grown))
  }

  lemma ProductIsEnough(nmemb: int, size: int, grown: bool, got: int)
    requires nmemb >= 0 && size >= 0 && 0 < Product(nmemb, size)
             && (grown ==> Raises(Request(Rounded(Product(nmemb, size)))))
    requires Enough(Product(nmemb, size), grown)
    requires got < Given(Rounded(Product(nmemb, size)), grown) + HDR + MIN_DATA && Product(nmemb, size) <= got
    ensures nmemb * size <= got <==> nmemb * size < UINT
    ensures Given(Rounded(Product(nmemb, size)), grown) == Rounded(Product(nmemb, size))
  {
    var total := Product(nmemb, size);
    RoundingIsRight(total);
    RequestIsRight(Rounded(total));
    SizesAreRight(total);
  }

  /** calloc: `total` zero bytes, where the total is the 32-bit product of the arguments. They are the bytes
      asked for exactly when the product does not wrap around. */
  method Calloc(h: Heap, nmemb: int, size: int, granted: bool) returns (p: int, ghost k: nat)
    requires h.Valid() && 0 <= nmemb < UINT && 0 <= size < UINT
    modifies h`mem, h`bs, h`freeList, h`fl, h`head, h`brk
    ensures h.Valid() && (p != LOST ==> SameData(old(h.mem), h.mem, Live(old(h.bs))))
    ensures p == LOST <==> CallocLost(old(h.bs), Product(nmemb, size), granted)
    ensures p == 0 <==> Product(nmemb, size) == 0 || (NoFit(old(h.bs), Rounded(Product(nmemb, size)))
                          && Raises(Request(Rounded(Product(nmemb, size)))) && !granted)
    ensures p <= 0 ==> p == 0 || p == LOST
    ensures p == 0 ==> h.mem == old(h.mem) && h.bs == old(h.bs) && h.fl == old(h.fl) && h.brk == old(h.brk)
    ensures p > 0 ==> Allocated(old(h.bs), h.bs, k, p, Rounded(Product(nmemb, size)))
    ensures p > 0 ==> AllBytes(h.mem, p, Product(nmemb, size), 0) && Product(nmemb, size) <= h.bs[k].size
    ensures p > 0 ==> (nmemb * size <= h.bs[k].size <==> nmemb * size < UINT)
  {
    ghost var pick, bs0 := 0, h.bs;
    var total := Product(nmemb, size);
    p, k, pick := Malloc(h, total, granted);
    if p > 0 {
      h.BlockFacts(k, {});
      if total > h.GetSize(p - HDR) {
        return LOST, k;
      }
      ghost var mem1, grown := h.mem, NoFit(bs0, Rounded(total));
      Zero(h, bs0, k, p, total, Given(Rounded(total), grown));
      SameDataTwice(old(h.mem), mem1, h.mem, Live(bs0));
      ProductIsEnough(nmemb, size, grown, h.bs[k].size);
    }
  }

  /** An input for which calloc gives a few bytes of the four gigabytes asked for. */
  method CallocTooLittle(h: Heap) returns (p: int, ghost k: nat)
    requires h.Valid()
    modifies h`mem, h`bs, h`freeList, h`fl, h`head, h`brk
    ensures h.Valid() && p > 0 && Allocated(old(h.bs), h.bs, k, p, 0x1_0000)
    ensures h.bs[k].size < 0x1_0000 + HDR + MIN_DATA < 0x1_0001 * 0x1_0000
  {
    assert Product(0x1_0001, 0x1_0000) == 0x1_0000 && Rounded(0x1_0000) == 0x1_0000;
    RequestIsRight(0x1_0000);
    p, k := Calloc(h, 0x1_0001, 0x1_0000, true);
  }

  // ----- realloc -----

  /** Block i of bs' is at p, holds little more than `size` bytes, and takes the place of the allocation of block k of
      bs. */
  ghost predicate Replaces(bs: seq<Blk>, bs': seq<Blk>, k: nat, i: nat, p: int, size: int) {
    && k < |bs| && i < |bs'| && !bs'[i].free && p == bs'[i].addr + HDR && size <= bs'[i].size < size + HDR + MIN_DATA
    && Live(bs') == Live(bs) - {Alloc(bs[k])} + {Alloc(bs'[i])}
  }

  /** The n bytes from address a on. */
  ghost function Bytes(mem: Memory, a: int, n: nat): (r: seq<Cell>)
    ensures |r| == n && forall i :: 0 <= i < n ==> r[i] == mem[a + i]
  {
    seq(n, i requires 0 <= i < n => mem[a + i])
  }

  lemma KeptBytes(mem: Memory, mem': Memory, a: int, n: nat, size: int)
    requires Kept(mem, mem', (a, size)) && n <= size
    ensures Bytes(mem', a, n) == Bytes(mem, a, n)
  {
  }

  /** The number of bytes that two blocks have in common. */
  function Common(x: int, y: int): nat {
    if x < 0 || y < 0 then 0 else Least(x, y)
  }

  /** realloc can stay in place: it shrinks, or the next block is free and large enough. */
  ghost predicate Fits(bs: seq<Blk>, k: nat, size: int)
    requires k < |bs|
  {
    size <= bs[k].size || (FreeAt(bs, k + 1) && bs[k].size + HDR + bs[k + 1].size >= size)
  }

  /** The block list from which realloc cuts in place: block k has absorbed the free block after it if it has to grow.
      */
  ghost function Roomy(bs: seq<Blk>, k: nat, size: int): (r: seq<Blk>)
    requires k < |bs| && Fits(bs, k, size)
    ensures k < |r| && r[k].addr == bs[k].addr
    ensures r[k].size == if size <= bs[k].size then bs[k].size else bs[k].size + HDR + bs[k + 1].size
  {
    if size <= bs[k].size then bs else Merge(bs, k, false)
  }

  /** The free list, likewise. */
  ghost function RoomyList(bs: seq<Blk>, fl: seq<int>, k: nat, size: int): seq<int>
    requires k < |bs| && Fits(bs, k, size)
  {
    if size <= bs[k].size then fl else Keeping(fl, {bs[k + 1].addr})
  }

  /** The blocks and the free list that realloc in place leaves. */
  ghost predicate InPlace(fsm: Fsm, bs: seq<Blk>, fl: seq<int>, bs': seq<Blk>, fl': seq<int>, k: nat, size: int) {
    && k < |bs| && Fits(bs, k, size)
    && Carving(fsm, Lists(Roomy(bs, k, size), RoomyList(bs, fl, k, size)), Lists(bs', fl'), k, size)
    && GivesBack(bs', fl', k, Roomy(bs, k, size)[k].size, size)
  }

  /** realloc cuts a tail off in front of a free block. */
  ghost predicate LeavesPair(bs: seq<Blk>, k: nat, size: int)
    requires k < |bs|
  {
    bs[k].size >= size + HDR + MIN_DATA && FreeAt(bs, k + 1)
  }

  /** What realloc promises of a live allocation when it returns p, now block i. */
  ghost predicate Resized(mem: Memory, mem': Memory, bs: seq<Blk>, bs': seq<Blk>, k: nat, i: nat, p: int, size: int) {
    && Replaces(bs, bs', k, i, p, size)
    && SameData(mem, mem', Live(bs) - {Alloc(bs[k])})
    && (var n := Common(bs[k].size, bs'[i].size); Bytes(mem', p, n) == Bytes(mem, bs[k].addr + HDR, n))
    && (NoFreePair(bs) ==> (NoFreePair(bs') <==> !LeavesPair(bs, k, size)))
  }

  /** The shrinking branch: the tail becomes a free block, which is not joined with a free block after it. */
  method Shrink(h: Heap, ghost k: nat, b: int, size: int)
    requires h.Valid() && k < |h.bs| && !h.bs[k].free && h.bs[k].addr == b
    requires size % ALIGN == 0 && MIN_DATA <= size <= h.bs[k].size
    modifies h`mem, h`bs, h`freeList, h`fl
    ensures h.Valid() && Resized(old(h.mem), h.mem, old(h.bs), h.bs, k, k, b + HDR, size)
    ensures InPlace(h.fsm, old(h.bs), old(h.fl), h.bs, h.fl, k, size)
  {
    InLive(h.bs, k);
    h.SplitBlock(k, b, size, {});
    ShrunkIsResized(old(h.mem), h.mem, old(h.bs), h.bs, k, size);
    ShrunkInPlace(h.fsm, old(h.bs), old(h.fl), h.bs, h.fl, k, size);
  }

  lemma ShrunkIsResized(mem: Memory, mem': Memory, bs: seq<Blk>, bs': seq<Blk>, k: nat, size: int)
    requires k < |bs| && !bs[k].free && Alloc(bs[k]) in Live(bs) && MIN_DATA <= size <= bs[k].size
    requires if bs[k].size < size + HDR + MIN_DATA then bs' == bs
             else bs' == Split(bs, k, size) && Live(bs') == Live(bs) - {Alloc(bs[k])} + {(bs[k].addr + HDR, size)}
    requires SameData(mem, mem', Live(bs'))
    ensures Resized(mem, mem', bs, bs', k, k, bs[k].addr + HDR, size)
  {
    if bs' != bs && NoFreePair(bs) {
      SplitPairs(bs, k, size);
    }
    ShrunkData(mem, mem', bs, bs', k);
  }

  lemma ShrunkInPlace(fsm: Fsm, bs: seq<Blk>, fl: seq<int>, bs': seq<Blk>, fl': seq<int>, k: nat, size: int)
    requires k < |bs| && !bs[k].free && size <= bs[k].size
    requires if bs[k].size < size + HDR + MIN_DATA then bs' == bs && fl' == fl
             else bs' == Split(bs, k, size) && fl' == Linked(fsm, fl, bs[k].addr + HDR + size)
    ensures InPlace(fsm, bs, fl, bs', fl', k, size)
  {
    assert Retagged(bs', k, false) == bs';
    CarvingIs(fsm, bs, fl, bs', fl', bs', k, size);
    CarvingGivesBack(fsm, Lists(bs, fl), Lists(bs', fl'), k, size);
  }

  lemma GrownInPlace(fsm: Fsm, bs: seq<Blk>, fl: seq<int>, bs': seq<Blk>, fl': seq<int>, k: nat, size: int)
    requires k + 1 < |bs| && FreeAt(bs, k + 1) && bs[k].size < size <= bs[k].size + HDR + bs[k + 1].size
    requires Carving(fsm, Lists(Merge(bs, k, false), Keeping(fl, {bs[k + 1].addr})), Lists(bs', fl'), k, size)
    ensures InPlace(fsm, bs, fl, bs', fl', k, size)
  {
    CarvingGivesBack(fsm, Lists(Merge(bs, k, false), Keeping(fl, {bs[k + 1].addr})), Lists(bs', fl'), k, size);
  }

  lemma JoinedPairs(bs: seq<Blk>, k: nat)
    requires k + 1 < |bs| && bs[k + 1].free && NoFreePair(bs)
    ensures NoFreePairBut(Merge(bs, k, false), k) && !FreeAt(Merge(bs, k, false), k + 1)
  {
    MergePairs(bs, k, false);
    if k + 2 < |bs| {
      var i, j := k + 1, k + 2;
      assert bs[i].free && !bs[j].free;
    }
  }

  /** Nothing else is at the address of the allocation of block k. */
  ghost predicate OnlyAt(bs: seq<Blk>, k: nat) {
    k < |bs| && !bs[k].free && Alloc(bs[k]) in Live(bs)
      && forall a :: a in Live(bs) && a.0 == bs[k].addr + HDR ==> a == Alloc(bs[k])
  }

  lemma UsedIsLive(h: Heap, k: nat)
    requires h.Valid() && k < |h.bs| && !h.bs[k].free
    ensures OnlyAt(h.bs, k)
  {
    assert Open(0, h.mem, h.bs);
    LiveAt(h.bs, k);
    InLive(h.bs, k);
  }

  /** Block k absorbs the free block after it. */
  method JoinNext(h: Heap, ghost k: nat, b: int, next: int)
    requires h.Valid() && k + 1 < |h.bs| && !h.bs[k].free && h.bs[k].addr == b && h.bs[k + 1].free
             && h.bs[k + 1].addr == next
    modifies h`mem, h`bs, h`freeList, h`fl
    ensures h.Valid() && h.bs == Merge(old(h.bs), k, false) && LiveJoined(old(h.bs), h.bs, k)
    ensures SameData(old(h.mem), h.mem, Live(old(h.bs))) && h.fl == Keeping(old(h.fl), {next})
  {
    assert IsFree(h.bs, next);
    h.RemoveFromFreeList(next, {});
    ghost var mem1 := h.mem;
    h.MergeNext(k, b, next, false, {});
    SameDataTwice(old(h.mem), mem1, h.mem, Live(old(h.bs)));
  }

  /** The writes of the growing branch, up to the scribbling. */
  method Absorb(h: Heap, ghost k: nat, b: int, next: int, size: int)
    requires h.Valid() && k + 1 < |h.bs| && !h.bs[k].free && h.bs[k].addr == b && h.bs[k + 1].free
             && h.bs[k + 1].addr == next
    requires size % ALIGN == 0 && MIN_DATA <= size <= h.bs[k].size + HDR + h.bs[k + 1].size
    modifies h`mem, h`bs, h`freeList, h`fl
    ensures h.Valid() && Replaces(old(h.bs), h.bs, k, k, b + HDR, size)
    ensures SameData(old(h.mem), h.mem, Live(old(h.bs)) - {Alloc(old(h.bs)[k])})
    ensures size >= old(h.bs)[k].size ==> Kept(old(h.mem), h.mem, Alloc(old(h.bs)[k]))
    ensures NoFreePair(old(h.bs)) ==> NoFreePair(h.bs)
    ensures Carving(h.fsm, Lists(Merge(old(h.bs), k, false), Keeping(old(h.fl), {next})), Lists(h.bs, h.fl), k, size)
  {
    UsedIsLive(h, k);
    JoinNext(h, k, b, next);
    ghost var mem2, bs2 := h.mem, h.bs;
    SkipUsed(h.mem, h.bs, h.fl, h.base, h.brk, k, b);
    CarveBlock(h, k, b, size);
    AbsorbDone(old(h.mem), mem2, h.mem, old(h.bs), bs2, h.bs, k, size);
  }

  lemma AbsorbDone(mem: Memory, mem2: Memory, mem3: Memory, bs: seq<Blk>, bs2: seq<Blk>, bs3: seq<Blk>, k: nat,
                   size: int)
    requires k + 1 < |bs| && bs2 == Merge(bs, k, false) && LiveJoined(bs, bs2, k) && Carved(bs2, bs3, k, size)
    requires OnlyAt(bs, k) && bs[k + 1].free && size <= bs[k].size + HDR + bs[k + 1].size
    requires SameData(mem, mem2, Live(bs)) && SameData(mem2, mem3, Live(bs3))
    ensures Replaces(bs, bs3, k, k, bs[k].addr + HDR, size)
    ensures SameData(mem, mem3, Live(bs) - {Alloc(bs[k])})
    ensures size >= bs[k].size ==> Kept(mem, mem3, Alloc(bs[k]))
    ensures NoFreePair(bs) ==> NoFreePair(bs3)
  {
    if NoFreePair(bs) {
      JoinedPairs(bs, k);
    }
    assert Live(bs2) - {Alloc(bs2[k])} == Live(bs) - {Alloc(bs[k])};
    assert Kept(mem, mem2, Alloc(bs[k])) && Kept(mem2, mem3, Alloc(bs3[k]));
    SameDataOn(mem, mem2, Live(bs), Live(bs) - {Alloc(bs[k])});
    SameDataOn(mem2, mem3, Live(bs3), Live(bs) - {Alloc(bs[k])});
    SameDataTwice(mem, mem2, mem3, Live(bs) - {Alloc(bs[k])});
  }

  /** The growing branch with its scribbling: the old bytes stay. */
  method GrowInPlace(h: Heap, ghost k: nat, b: int, next: int, old_: int, size: int)
    requires h.Valid() && k + 1 < |h.bs| && !h.bs[k].free && h.bs[k].addr == b && h.bs[k + 1].free
             && h.bs[k + 1].addr == next
    requires size % ALIGN == 0 && MIN_DATA <= size <= h.bs[k].size + HDR + h.bs[k + 1].size
             && old_ == h.bs[k].size < size
    modifies h`mem, h`bs, h`freeList, h`fl
    ensures h.Valid() && Resized(old(h.mem), h.mem, old(h.bs), h.bs, k, k, b + HDR, size)
    ensures h.scribble ==> AllBytes(h.mem, b + HDR + old_, h.bs[k].size - old_, 0xAA)
    ensures InPlace(h.fsm, old(h.bs), old(h.fl), h.bs, h.fl, k, size)
  {
    UsedIsLive(h, k);
    h.BlockFacts(k, {});
    Absorb(h, k, b, next, size);
    GrownInPlace(h.fsm, old(h.bs), old(h.fl), h.bs, h.fl, k, size);
    ghost var mem1 := h.mem;
    if h.scribble {
      h.BlockFacts(k, {});
      Fill(h, k, b + HDR + old_, h.GetSize(b) - old_, 0xAA);
    }
    GrownData(old(h.mem), mem1, h.mem, old(h.bs), h.bs, k, size);
  }

  lemma GrownData(mem: Memory, mem1: Memory, mem2: Memory, bs: seq<Blk>, bs': seq<Blk>, k: nat, size: int)
    requires OnlyAt(bs, k) && Replaces(bs, bs', k, k, bs[k].addr + HDR, size) && size > bs[k].size >= 0
    requires SameData(mem, mem1, Live(bs) - {Alloc(bs[k])}) && Kept(mem, mem1, Alloc(bs[k]))
    requires mem2 == mem1 || (SameData(mem1, mem2, Live(bs') - {Alloc(bs'[k])}) && Kept(mem1, mem2, Alloc(bs[k])))
    requires NoFreePair(bs) ==> NoFreePair(bs')
    ensures Resized(mem, mem2, bs, bs', k, k, bs[k].addr + HDR, size)
  {
    assert Live(bs') - {Alloc(bs'[k])} == Live(bs) - {Alloc(bs[k])};
    if mem2 != mem1 {
      SameDataTwice(mem, mem1, mem2, Live(bs) - {Alloc(bs[k])});
    }
    KeptBytes(mem, mem2, bs[k].addr + HDR, Common(bs[k].size, bs'[k].size), bs[k].size);
  }

  /** Memory after memmove of n bytes between regions that do not overlap. */
  function Copied(mem: Memory, dst: int, src: int, n: nat): Memory {
    if n == 0 then mem else Store(Copied(mem, dst, src, n - 1), dst + (n - 1), mem[src + (n - 1)])
  }

  lemma {:induction false} CopiedAt(mem: Memory, dst: int, src: int, n: nat, x: int)
    ensures Copied(mem, dst, src, n)[x] == if dst <= x < dst + n then mem[src + (x - dst)] else mem[x]
  {
    if n > 0 {
      CopiedAt(mem, dst, src, n - 1, x);
    }
  }

  /** The loop of memmove. */
  method CopyBytes(h: Heap, dst: int, src: int, n: nat)
    requires src + n <= dst || dst + n <= src
    modifies h`mem
    ensures h.mem == Copied(old(h.mem), dst, src, n)
  {
    var i := 0;
    while i < n
      invariant 0 <= i <= n && h.mem == Copied(old(h.mem), dst, src, i)
    {
      CopiedAt(old(h.mem), dst, src, i, src + i);
      h.mem := Store(h.mem, dst + i, h.mem[src + i]);
      i := i + 1;
    }
  }

  lemma CopiedWithin(mem: Memory, mem': Memory, dst: int, src: int, n: nat, size: int)
    requires mem' == Copied(mem, dst, src, n) && n <= size
    ensures OnlyWithin(mem, mem', (dst, size))
  {
    forall x | !(dst <= x < dst + size) ensures mem'[x] == mem[x] {
      CopiedAt(mem, dst, src, n, x);
    }
  }

  lemma CopiedBytes(mem: Memory, dst: int, src: int, n: nat)
    ensures Bytes(Copied(mem, dst, src, n), dst, n) == Bytes(mem, src, n)
  {
    var l, r := Bytes(Copied(mem, dst, src, n), dst, n), Bytes(mem, src, n);
    forall i | 0 <= i < n ensures l[i] == r[i] {
      CopiedAt(mem, dst, src, n, dst + i);
    }
  }

  /** memmove of n bytes into the payload of block k, from outside it. */
  method Copy(h: Heap, ghost k: nat, dst: int, src: int, n: nat)
    requires h.Valid() && k < |h.bs| && !h.bs[k].free && dst == h.bs[k].addr + HDR && n <= h.bs[k].size
    requires src + n <= dst || End(h.bs[k]) <= src
    modifies h`mem
    ensures h.Valid() && SameData(old(h.mem), h.mem, Live(h.bs) - {Alloc(h.bs[k])})
            && Bytes(h.mem, dst, n) == Bytes(old(h.mem), src, n)
  {
    CopyBytes(h, dst, src, n);
    CopiedWithin(old(h.mem), h.mem, dst, src, n, h.bs[k].size);
    CopiedBytes(old(h.mem), dst, src, n);
    UserWrites(old(h.mem), h.mem, h.bs, h.fl, h.base, h.brk, {}, k);
  }

  lemma TwoAllocs(h: Heap, a: (int, int), c: (int, int))
    requires h.Valid() && a in Live(h.bs) && c in Live(h.bs) && a.0 != c.0
    ensures a.0 + a.1 <= c.0 || c.0 + c.1 <= a.0
  {
    assert Open(0, h.mem, h.bs);
    LiveDisjoint(h.bs, h.base, h.brk, a, c);
  }

  lemma MoveData(mem0: Memory, mem1: Memory, mem2: Memory, mem3: Memory, live0: set<(int, int)>, live: set<(int, int)>,
                 a: (int, int), c: (int, int))
    requires a in live0 && c !in live0 && live == live0 - {a} + {c} && a.1 <= c.1
    requires SameData(mem0, mem1, live0) && SameData(mem1, mem2, live0) && SameData(mem2, mem3, live)
    requires 0 <= a.1 && Bytes(mem2, c.0, a.1) == Bytes(mem1, a.0, a.1)
    ensures SameData(mem0, mem3, live0 - {a}) && Bytes(mem3, c.0, a.1) == Bytes(mem0, a.0, a.1)
  {
    SameDataOn(mem0, mem1, live0, live0 - {a});
    SameDataOn(mem1, mem2, live0, live0 - {a});
    SameDataOn(mem2, mem3, live, live0 - {a});
    SameDataTwice(mem0, mem1, mem2, live0 - {a});
    SameDataTwice(mem0, mem2, mem3, live0 - {a});
    KeptBytes(mem0, mem1, a.0, a.1, a.1);
    KeptBytes(mem2, mem3, c.0, a.1, c.1);
  }

  /** The end of the moving branch, with the new allocation in hand. */
  method FinishMove(h: Heap, ghost j: nat, ptr: int, old_: nat, p: int, ghost mem0: Memory,
                    ghost live0: set<(int, int)>)
    returns (ghost i: nat)
    requires h.Valid() && j < |h.bs| && !h.bs[j].free && p == h.bs[j].addr + HDR && old_ <= h.bs[j].size && ptr != 0
    requires Live(h.bs) == live0 + {Alloc(h.bs[j])} && (ptr, old_) in live0 && (forall a :: a in live0 ==> a.0 != p)
    requires SameData(mem0, h.mem, live0)
    modifies h`mem, h`bs, h`freeList, h`fl
    ensures h.Valid() && i < |h.bs| && !h.bs[i].free && Alloc(h.bs[i]) == Alloc(old(h.bs)[j])
    ensures Live(h.bs) == live0 - {(ptr, old_)} + {Alloc(h.bs[i])}
    ensures SameData(mem0, h.mem, live0 - {(ptr, old_)}) && Bytes(h.mem, p, old_) == Bytes(mem0, ptr, old_)
    ensures NoFreePair(old(h.bs)) ==> NoFreePair(h.bs)
  {
    ghost var a, c := (ptr, old_), Alloc(h.bs[j]);
    ghost var mem1 := h.mem;
    InLive(h.bs, j);
    TwoAllocs(h, a, c);
    Copy(h, j, p, ptr, old_);
    ghost var mem2 := h.mem;
    assert Live(h.bs) - {c} == live0;
    ghost var k := LiveBlock(h.bs, a);
    Free(h, ptr, k);
    assert Live(h.bs) == live0 - {a} + {c};
    i := LiveBlock(h.bs, c);
    MoveData(mem0, mem1, mem2, h.mem, live0, Live(h.bs), a, c);
  }

  /** The process is killed in the moving branch: by malloc, or by a memmove that runs past the break. */
  ghost predicate MoveLost(bs: seq<Blk>, old_: int, size: int, granted: bool) {
    NoFit(bs, size) && (!Raises(Request(size)) || (granted && Request(size) - HDR < old_))
  }

  /** malloc as realloc calls it, with a size that is rounded already and more than the old_ bytes that are
      copied next. */
  method MallocToCopy(h: Heap, old_: int, n: int, granted: bool) returns (p: int, ghost j: nat)
    requires h.Valid() && n % ALIGN == 0 && MIN_DATA <= n < UINT && old_ < n
    modifies h`mem, h`bs, h`freeList, h`fl, h`head, h`brk
    ensures h.Valid() && SameData(old(h.mem), h.mem, Live(old(h.bs)))
    ensures p == LOST <==> MoveLost(old(h.bs), old_, n, granted)
    ensures p == 0 <==> NoFit(old(h.bs), n) && Raises(Request(n)) && !granted
    ensures p <= 0 ==> p == 0 || p == LOST
    ensures p == 0 ==> h.mem == old(h.mem) && h.bs == old(h.bs) && h.fl == old(h.fl) && h.brk == old(h.brk)
    ensures p > 0 ==> Allocated(old(h.bs), h.bs, j, p, Given(n, NoFit(old(h.bs), n))) && old_ <= h.bs[j].size
    ensures p > 0 ==> old_ < Given(n, NoFit(old(h.bs), n)) + HDR + MIN_DATA
  {
    RoundedTwice(n);
    ghost var pick;
    p, j, pick := Malloc(h, n, granted);
    if p > 0 {
      RequestIsRight(n);
      h.BlockFacts(j, {});
      if old_ > h.GetSize(p - HDR) {
        return LOST, j;
      }
    }
  }

  /** The moving branch: a new allocation with the old bytes, and the old one is freed; 0 and no change without memory.
      */
  method MoveTo(h: Heap, ghost k: nat, ptr: int, old_: nat, size: int, granted: bool) returns (p: int, ghost i: nat)
    requires h.Valid() && k < |h.bs| && !h.bs[k].free && ptr == h.bs[k].addr + HDR && old_ == h.bs[k].size < size < UINT
    requires size % ALIGN == 0 && MIN_DATA <= size
    modifies h`mem, h`bs, h`freeList, h`fl, h`head, h`brk
    ensures h.Valid()
    ensures p == LOST <==> MoveLost(old(h.bs), old_, size, granted)
    ensures p == 0 <==> NoFit(old(h.bs), size) && Raises(Request(size)) && !granted
    ensures p <= 0 ==> p == 0 || p == LOST
    ensures p == 0 ==> h.mem == old(h.mem) && h.bs == old(h.bs) && h.fl == old(h.fl) && h.brk == old(h.brk)
    ensures p > 0 ==> Resized(old(h.mem), h.mem, old(h.bs), h.bs, k, i, p, Given(size, NoFit(old(h.bs), size)))
  {
    ghost var live := Live(h.bs);
    UsedIsLive(h, k);
    h.BlockFacts(k, {});
    ghost var j;
    p, j := MallocToCopy(h, old_, size, granted);
    i := j;
    if p > 0 {
      i := MoveBytes(h, k, j, ptr, old_, p, Given(size, NoFit(old(h.bs), size)), old(h.mem), old(h.bs));
    }
  }

  /** The copy into the new allocation, and the release of the old one. */
  method MoveBytes(h: Heap, ghost k: nat, ghost j: nat, ptr: int, old_: nat, p: int, ghost size: int,
                   ghost mem0: Memory, ghost bs0: seq<Blk>)
    returns (ghost i: nat)
    requires h.Valid() && Allocated(bs0, h.bs, j, p, size) && OnlyAt(bs0, k) && ptr == bs0[k].addr + HDR && ptr != 0
    requires old_ == bs0[k].size <= h.bs[j].size && old_ < size + HDR + MIN_DATA && SameData(mem0, h.mem, Live(bs0))
    modifies h`mem, h`bs, h`freeList, h`fl
    ensures h.Valid() && Resized(mem0, h.mem, bs0, h.bs, k, i, p, size)
  {
    ghost var bs1 := h.bs;
    i := FinishMove(h, j, ptr, old_, p, mem0, Live(bs0));
    MovedIsResized(mem0, h.mem, bs0, bs1, h.bs, k, j, i, p, size);
  }

  lemma MovedIsResized(mem: Memory, mem': Memory, bs: seq<Blk>, bs1: seq<Blk>, bs': seq<Blk>, k: nat, j: nat, i: nat,
                       p: int, size: int)
    requires k < |bs| && i < |bs'| && !bs'[i].free && Allocated(bs, bs1, j, p, size) && Alloc(bs'[i]) == Alloc(bs1[j])
    requires 0 <= bs[k].size <= bs1[j].size && bs[k].size < size + HDR + MIN_DATA
    requires Live(bs') == Live(bs) - {Alloc(bs[k])} + {Alloc(bs'[i])}
    requires SameData(mem, mem', Live(bs) - {Alloc(bs[k])})
    requires Bytes(mem', p, bs[k].size) == Bytes(mem, bs[k].addr + HDR, bs[k].size)
    requires NoFreePair(bs1) ==> NoFreePair(bs')
    ensures Resized(mem, mem', bs, bs', k, i, p, size)
  {
    assert Common(bs[k].size, bs'[i].size) == bs[k].size;
  }

  lemma RoundedTwice(size: int)
    requires size % ALIGN == 0 && MIN_DATA <= size < UINT
    ensures Rounded(size) == size
  {
  }

  /** The payload that realloc gives for a rounded size. */
  ghost function ReallocGiven(bs: seq<Blk>, k: nat, n: int): int
    requires k < |bs|
  {
    if Fits(bs, k, n) then n else Given(n, NoFit(bs, n))
  }

  /** realloc of a live allocation to a nonzero size. */
  method Resize(h: Heap, ghost k: nat, ptr: int, size: int, granted: bool) returns (p: int, ghost i: nat)
    requires h.Valid() && k < |h.bs| && !h.bs[k].free && ptr == h.bs[k].addr + HDR
    requires size % ALIGN == 0 && MIN_DATA <= size < UINT
    modifies h`mem, h`bs, h`freeList, h`fl, h`head, h`brk
    ensures h.Valid()
    ensures p == LOST <==> !Fits(old(h.bs), k, size) && MoveLost(old(h.bs), old(h.bs)[k].size, size, granted)
    ensures p == 0 <==> !Fits(old(h.bs), k, size) && NoFit(old(h.bs), size) && Raises(Request(size)) && !granted
    ensures p <= 0 ==> p == 0 || p == LOST
    ensures p == 0 ==> h.mem == old(h.mem) && h.bs == old(h.bs) && h.fl == old(h.fl) && h.brk == old(h.brk)
    ensures p > 0 ==> Resized(old(h.mem), h.mem, old(h.bs), h.bs, k, i, p, ReallocGiven(old(h.bs), k, size))
    ensures Fits(old(h.bs), k, size) ==> p == ptr && h.brk == old(h.brk)
    ensures Fits(old(h.bs), k, size) ==> i == k && InPlace(h.fsm, old(h.bs), old(h.fl), h.bs, h.fl, k, size)
  {
    var b := ptr - HDR;
    h.BlockFacts(k, {});
    if k + 1 < |h.bs| {
      h.BlockFacts(k + 1, {});
    }
    var old_ := h.GetSize(b);
    var next := h.mem[b].next;
    p, i := ptr, k;
    if size <= old_ {
      Shrink(h, k, b, size);
    } else if next != 0 && h.IsFreeAt(next) && old_ + HDR + h.GetSize(next) >= size {
      GrowInPlace(h, k, b, next, old_, size);
    } else {
      p, i := MoveTo(h, k, ptr, old_, size, granted);
    }
  }

  lemma ShrunkData(mem: Memory, mem': Memory, bs: seq<Blk>, bs': seq<Blk>, k: nat)
    requires k < |bs| && k < |bs'| && !bs'[k].free && bs'[k].addr == bs[k].addr && 0 <= bs'[k].size <= bs[k].size
    requires Live(bs') == Live(bs) - {Alloc(bs[k])} + {Alloc(bs'[k])} && SameData(mem, mem', Live(bs'))
    ensures SameData(mem, mem', Live(bs) - {Alloc(bs[k])})
    ensures Bytes(mem', bs[k].addr + HDR, bs'[k].size) == Bytes(mem, bs[k].addr + HDR, bs'[k].size)
  {
    SameDataOn(mem, mem', Live(bs'), Live(bs) - {Alloc(bs[k])});
    InLive(bs', k);
    KeptBytes(mem, mem', bs[k].addr + HDR, bs'[k].size, bs'[k].size);
  }

  /** realloc: a new allocation, a freed one, or one resized with its bytes kept. */
  method Realloc(h: Heap, ghost k: nat, ptr: int, size: int, granted: bool) returns (p: int, ghost i: nat)
    requires h.Valid() && 0 <= size < UINT
    requires ptr != 0 ==> k < |h.bs| && !h.bs[k].free && ptr == h.bs[k].addr + HDR
    modifies h`mem, h`bs, h`freeList, h`fl, h`head, h`brk
    ensures h.Valid() && (p <= 0 ==> p == 0 || p == LOST)
    ensures ptr == 0 ==> SameData(old(h.mem), h.mem, Live(old(h.bs)))
    ensures ptr == 0 && p > 0 ==>
              Allocated(old(h.bs), h.bs, i, p, Given(Rounded(size), NoFit(old(h.bs), Rounded(size))))
    ensures ptr == 0 ==>
              (p == LOST <==> size > 0 && NoFit(old(h.bs), Rounded(size)) && !Raises(Request(Rounded(size))))
    ensures ptr == 0 ==>
              (p == 0 <==> size == 0
                           || (NoFit(old(h.bs), Rounded(size)) && Raises(Request(Rounded(size))) && !granted))
    ensures ptr != 0 && size == 0 ==> p == 0 && SameData(old(h.mem), h.mem, Live(h.bs))
    ensures ptr != 0 && size == 0 ==>
              && Live(h.bs) == Live(old(h.bs)) - {Alloc(old(h.bs)[k])}
              && (NoFreePair(old(h.bs)) ==> NoFreePair(h.bs))
    ensures ptr != 0 && p > 0 ==>
              Resized(old(h.mem), h.mem, old(h.bs), h.bs, k, i, p, ReallocGiven(old(h.bs), k, Rounded(size)))
    ensures ptr != 0 && size != 0 ==>
              (p == LOST <==> !Fits(old(h.bs), k, Rounded(size))
                              && MoveLost(old(h.bs), old(h.bs)[k].size, Rounded(size), granted))
    ensures ptr != 0 && size != 0 ==>
              (p == 0 <==> !Fits(old(h.bs), k, Rounded(size)) && NoFit(old(h.bs), Rounded(size))
                           && Raises(Request(Rounded(size))) && !granted)
    ensures ptr != 0 && size != 0 && Fits(old(h.bs), k, Rounded(size)) ==> p == ptr && h.brk == old(h.brk)
    ensures ptr != 0 && size != 0 && Fits(old(h.bs), k, Rounded(size)) ==>
              i == k && InPlace(h.fsm, old(h.bs), old(h.fl), h.bs, h.fl, k, Rounded(size))
    ensures (ptr == 0 || size != 0) && p == 0 ==> h.mem == old(h.mem) && h.bs == old(h.bs)
    ensures p > 0 && size <= MAX_REQUEST ==> i < |h.bs| && size <= h.bs[i].size
  {
    p, i := 0, 0;
    if ptr == 0 {
      ghost var pick;
      p, i, pick := Malloc(h, size, granted);
    } else if size == 0 {
      Free(h, ptr, k);
    } else {
      RoundingIsRight(size);
      SizesAreRight(size);
      RequestIsRight(Rounded(size));
      p, i := Resize(h, k, ptr, Rounded(size), granted);
    }
  }
}
