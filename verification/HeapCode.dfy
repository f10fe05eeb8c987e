/** The user allocator as imperative code over the flat memory. */
module HeapCode {
  import opened HeapModel
  import opened HeapFreeList
  import opened HeapOps

  datatype Fsm = FirstFit | BestFit | WorstFit

  /** The size field without bit 0. */
  function SizeIn(mem: Memory, b: int): int {
    if mem[b].Header? then mem[b].size - mem[b].size % 2 else 0
  }

  /** Sizes of the blocks on the free list, in list order. */
  ghost function Sizes(mem: Memory, fl: seq<int>): (r: seq<int>) {
    seq(|fl|, i requires 0 <= i < |fl| => SizeIn(mem, fl[i]))
  }

  /** What each policy picks among the first n sizes: -1 exactly when none is large enough. */
  ghost predicate Picks(fsm: Fsm, sizes: seq<int>, n: nat, want: int, i: int) {
    && n <= |sizes| && -1 <= i < n
    && (i == -1 ==> forall j :: 0 <= j < n ==> sizes[j] < want)
    && (i >= 0 ==> sizes[i] >= want)
    && (i >= 0 && fsm == FirstFit ==> forall j :: 0 <= j < i ==> sizes[j] < want)
    && (i >= 0 && fsm == BestFit ==> forall j :: 0 <= j < n && sizes[j] >= want ==>
          sizes[i] <= sizes[j] && (j < i ==> sizes[i] < sizes[j]))
    && (i >= 0 && fsm == WorstFit ==> forall j :: 0 <= j < n && sizes[j] >= want ==>
          sizes[i] >= sizes[j] && (j < i ==> sizes[i] > sizes[j]))
  }

  /** The free list after add_to_free_list. */
  function Linked(fsm: Fsm, fl: seq<int>, b: int): seq<int> {
    if fsm == FirstFit || fl == [] then [b] + fl else fl + [b]
  }

  lemma LinkedThenGone(fsm: Fsm, fl: seq<int>, b: int, gone: set<int>)
    requires b in gone
    ensures Keeping(Linked(fsm, fl, b), gone) == Keeping(fl, gone)
  {
    KeepingJoin([b], fl, gone);
    KeepingJoin(fl, [b], gone);
  }

  /** No free block has the wanted size. */
  ghost predicate NoFit(bs: seq<Blk>, want: int) {
    forall k :: 0 <= k < |bs| && bs[k].free ==> bs[k].size < want
  }

  lemma StoreTwice(mem: Memory, a: int, v: Cell, w: Cell)
    ensures Store(Store(mem, a, v), a, w) == Store(mem, a, w)
  {
  }

  /** Bit 0 of the size field is the flag, the rest is the size. */
  lemma TagBits(b: Blk)
    requires b.size % ALIGN == 0
    ensures Tag(b) - Tag(b) % 2 == b.size && (Tag(b) % 2 == 1 <==> b.free)
  {
    assert b.size == 2 * (8 * (b.size / 16));
  }

  class Heap {
    const base: int
    var mem: Memory
    var head: int
    var freeList: int
    var brk: int
    var fsm: Fsm
    var scribble: bool
    ghost var bs: seq<Blk>
    ghost var fl: seq<int>

    /** The block list and the free list in memory are bs and fl; the free list lacks only `skip`. */
    ghost predicate Rep(skip: set<int>)
      reads this
    {
      InMemory(mem, bs, fl, base, brk, skip) && head == AddrAt(bs, 0) && freeList == Nth(fl, 0)
    }

    ghost predicate Valid()
      reads this
    {
      Rep({})
    }

    /** No block yet; the memory holds anything. */
    constructor (start: int, fsm: Fsm, memory: Memory)
      requires start > 0
      ensures Valid() && bs == [] && base == brk == start
    {
      base, brk, head, freeList, this.fsm, scribble := start, start, 0, 0, fsm, false;
      bs, fl := [], [];
      mem := memory;
      new;
      assert Open(0, mem, bs);
    }

    /** get_free_next. */
    function FreeNext(b: int): int
      reads this
    {
      if mem[b + HDR].Word? then mem[b + HDR].w else 0
    }

    lemma FreeFactsOf(m: Memory, skip: set<int>)
      requires InMemory(m, bs, fl, base, brk, skip)
      ensures FreeChain(m, fl) && Lists(bs, fl, skip) && GoodBlocks(bs)
    {
      assert Open(0, m, bs);
    }

    lemma FreeNextIs(i: nat)
      requires FreeChain(mem, fl) && i < |fl|
      ensures mem[fl[i] + HDR].Word? && FreeNext(fl[i]) == Nth(fl, i + 1)
    {
      if i + 1 < |fl| {
        var j := i + 1;
        assert mem[fl[i] + HDR] == Word(fl[j]);
      }
    }

    /** The walk of add_to_free_list to the end of the list. */
    method LastFree() returns (cur: int)
      requires FreeChain(mem, fl) && fl != [] && freeList == Nth(fl, 0)
      ensures cur == fl[|fl| - 1]
    {
      cur := freeList;
      ghost var i := 0;
      FreeNextIs(0);
      while FreeNext(cur) != 0
        invariant 0 <= i < |fl| && cur == fl[i] && FreeNext(cur) == Nth(fl, i + 1)
        decreases |fl| - i
      {
        cur := FreeNext(cur);
        i := i + 1;
        FreeNextIs(i);
      }
    }

    /** The branches of add_to_free_list that put b first. */
    method LinkFirst(b: int, ghost skip: set<int>)
      requires Rep(skip + {b}) && IsFree(bs, b) && b !in skip
      modifies this`mem, this`freeList, this`fl
      ensures Rep(skip) && SameData(old(mem), mem, Live(bs)) && fl == [b] + old(fl)
    {
      ghost var mem0 := mem;
      mem := Store(mem, b + HDR, Word(0));
      mem := Store(mem, b + HDR, Word(freeList));
      StoreTwice(mem0, b + HDR, Word(0), Word(freeList));
      PushedFront(mem0, mem, bs, fl, base, brk, skip, b);
      freeList := b;
      fl := [b] + fl;
    }

    /** The branch of add_to_free_list that puts b last. */
    method LinkLast(b: int, ghost skip: set<int>)
      requires Rep(skip + {b}) && IsFree(bs, b) && b !in skip && freeList != 0
      modifies this`mem, this`fl
      ensures Rep(skip) && SameData(old(mem), mem, Live(bs)) && fl == old(fl) + [b]
    {
      ghost var mem0 := mem;
      mem := Store(mem, b + HDR, Word(0));
      assert FreeChain(mem, fl) by {
        FreeFactsOf(mem0, skip + {b});
        NotListed(bs, fl, skip, b);
        OtherLinkKeeps(mem0, fl, b, Word(0));
      }
      var last := LastFree();
      mem := Store(mem, last + HDR, Word(b));
      PushedBack(mem0, mem, bs, fl, base, brk, skip, b);
      fl := fl + [b];
    }

    /** add_to_free_list: at the front for first fit, at the end otherwise. */
    method AddToFreeList(b: int, ghost skip: set<int>)
      requires Rep(skip + {b}) && IsFree(bs, b) && b !in skip
      modifies this`mem, this`freeList, this`fl
      ensures Rep(skip) && SameData(old(mem), mem, Live(bs))
      ensures fl == if fsm == FirstFit || old(fl) == [] then [b] + old(fl) else old(fl) + [b]
    {
      assert freeList == 0 ==> fl == [] by { FreeFactsOf(mem, skip + {b}); }
      if freeList == 0 || fsm == FirstFit {
        LinkFirst(b, skip);
      } else {
        LinkLast(b, skip);
      }
    }

    /** The search of remove_from_free_list: the block and the one before it on the list. */
    method FindListed(b: int, ghost at: nat) returns (prev: int)
      requires FreeChain(mem, fl) && freeList == Nth(fl, 0) && at < |fl| && fl[at] == b
      ensures prev == Nth(fl, at - 1)
    {
      prev := 0;
      var cur := freeList;
      ghost var i := 0;
      while cur != b
        invariant 0 <= i <= at && cur == fl[i] && prev == Nth(fl, i - 1)
        decreases at - i
      {
        FreeNextIs(i);
        prev := cur;
        cur := FreeNext(cur);
        i := i + 1;
      }
    }

    /** remove_from_free_list of a listed block. */
    method RemoveFromFreeList(b: int, ghost skip: set<int>)
      requires Rep(skip) && IsFree(bs, b) && b !in skip
      modifies this`mem, this`freeList, this`fl
      ensures Rep(skip + {b}) && SameData(old(mem), mem, Live(bs))
      ensures b in old(fl) && fl == Keeping(old(fl), {b})
    {
      ghost var mem0 := mem;
      ghost var i := IndexOnList(b, skip);
      assert FreeChain(mem, fl) by { FreeFactsOf(mem, skip); }
      var prev := FindListed(b, i);
      FreeNextIs(i);
      KeepingOne(fl, i);
      UnlinkOne(b, prev, FreeNext(b), i, skip);
    }

    lemma IndexOnList(b: int, skip: set<int>) returns (i: nat)
      requires Rep(skip) && IsFree(bs, b) && b !in skip
      ensures i < |fl| && fl[i] == b
    {
      FreeFactsOf(mem, skip);
      var k :| 0 <= k < |bs| && bs[k].addr == b && bs[k].free;
      i := ListedBlock(bs, fl, skip, k);
    }

    /** The assignments of remove_from_free_list once the block is found. */
    method UnlinkOne(b: int, prev: int, next: int, ghost i: nat, ghost skip: set<int>)
      requires Rep(skip) && i < |fl| && fl[i] == b && prev == Nth(fl, i - 1) && next == Nth(fl, i + 1)
      requires i > 0 ==> prev != 0
      modifies this`mem, this`freeList, this`fl
      ensures Rep(skip + {b}) && SameData(old(mem), mem, Live(bs)) && fl == Without(old(fl), i)
    {
      ghost var mem0 := mem;
      if prev != 0 {
        mem := Store(mem, prev + HDR, Word(next));
      } else {
        freeList := next;
      }
      mem := Store(mem, b + HDR, Word(0));
      Removed(mem0, mem, bs, fl, base, brk, skip, i);
      fl := Without(fl, i);
    }

    // ----- headers -----

    /** is_free. */
    predicate IsFreeAt(b: int)
      reads this
    {
      mem[b].Header? && mem[b].size % 2 == 1
    }

    /** get_size: the size field without bit 0. */
    function GetSize(b: int): int
      reads this
    {
      SizeIn(mem, b)
    }

    lemma BlockHeader(k: nat, skip: set<int>)
      requires Rep(skip) && k < |bs|
      ensures mem[bs[k].addr].Header? && mem[bs[k].addr].size == Tag(bs[k]) && GoodBlock(bs[k])
    {
      assert Open(0, mem, bs);
    }

    lemma BlockLinks(k: nat, skip: set<int>)
      requires Rep(skip) && k < |bs| && mem[bs[k].addr].Header?
      ensures mem[bs[k].addr].next == AddrAt(bs, k + 1) && mem[bs[k].addr].prev == AddrAt(bs, k - 1)
      ensures k + 1 < |bs| ==> End(bs[k]) == bs[k + 1].addr
    {
      assert Open(0, mem, bs);
      if k + 1 < |bs| {
        var j := k + 1;
        assert mem[bs[k].addr].next == bs[j].addr;
      }
      if k > 0 {
        var i := k - 1;
        assert mem[bs[k].addr].prev == bs[i].addr;
      }
    }

    lemma BlockFacts(k: nat, skip: set<int>)
      requires Rep(skip) && k < |bs|
      ensures mem[bs[k].addr].Header? && mem[bs[k].addr].size == Tag(bs[k])
      ensures mem[bs[k].addr].next == AddrAt(bs, k + 1) && mem[bs[k].addr].prev == AddrAt(bs, k - 1)
      ensures GetSize(bs[k].addr) == bs[k].size && IsFreeAt(bs[k].addr) == bs[k].free
      ensures GoodBlock(bs[k]) && (k + 1 < |bs| ==> GoodBlock(bs[k + 1])) && (k > 0 ==> GoodBlock(bs[k - 1]))
      ensures k + 1 < |bs| ==> End(bs[k]) == bs[k + 1].addr
    {
      BlockHeader(k, skip);
      BlockLinks(k, skip);
      TagBits(bs[k]);
      if k + 1 < |bs| {
        BlockHeader(k + 1, skip);
      }
      if k > 0 {
        BlockHeader(k - 1, skip);
      }
    }

    /** Blocks are determined by their addresses. */
    lemma SameBlock(j: nat, k: nat, skip: set<int>)
      requires Rep(skip) && j < |bs| && k < |bs| && bs[j].addr == bs[k].addr
      ensures j == k
    {
      assert Open(0, mem, bs);
    }

    /** set_free or set_used of block k; a free block must be off the free list. */
    method SetFlag(ghost k: nat, b: int, free: bool, ghost skip: set<int>)
      requires Rep(skip) && k < |bs| && bs[k].addr == b && (bs[k].free ==> b in skip)
      modifies this`mem, this`bs
      ensures Rep(skip + {b}) && bs == Retagged(old(bs), k, free) && SameData(old(mem), mem, Live(old(bs)))
      ensures Live(bs) == Live(old(bs)) - {Alloc(old(bs)[k])} + (if free then {} else {Alloc(old(bs)[k])})
    {
      BlockFacts(k, skip);
      ghost var mem0 := mem;
      var size := GetSize(b);
      mem := Store(mem, b, Header(if free then size + 1 else size, mem[b].next, mem[b].prev));
      RetagStep(mem0, mem, bs, fl, base, brk, skip, k, free);
      bs := Retagged(bs, k, free);
    }

    // ----- split_block -----

    /** The assignments of split_block. */
    method WriteSplit(ghost k: nat, b: int, size: int) returns (newb: int)
      requires k < |bs| && bs[k].addr == b && mem[b].Header? && (k + 1 < |bs| ==> mem[bs[k + 1].addr].Header?)
      requires GetSize(b) == bs[k].size && mem[b].next == AddrAt(bs, k + 1) && (k + 1 < |bs| ==> AddrAt(bs, k + 1) != 0)
      requires size >= 0 && b != AddrAt(bs, k + 1) && b + HDR + size != AddrAt(bs, k + 1)
      modifies this`mem
      ensures newb == b + HDR + size && mem == SplitMem(old(mem), bs, k, size)
    {
      var bsize, next := GetSize(b), mem[b].next;
      newb := b + HDR + size;
      mem := Store(mem, newb, Header(bsize - size - HDR + 1, next, b));
      if next != 0 {
        mem := Store(mem, next, Header(mem[next].size, mem[next].next, newb));
      }
      mem := Store(mem, b, Header(size, newb, mem[b].prev));
    }

    lemma CutFacts(k: nat, size: int, skip: set<int>)
      requires Rep(skip) && k < |bs| && size >= MIN_DATA && bs[k].size >= size + HDR + MIN_DATA
      ensures mem[bs[k].addr].Header? && (k + 1 < |bs| ==> mem[bs[k + 1].addr].Header?)
      ensures GetSize(bs[k].addr) == bs[k].size && mem[bs[k].addr].next == AddrAt(bs, k + 1)
      ensures (k + 1 < |bs| ==> AddrAt(bs, k + 1) != 0) && bs[k].addr != AddrAt(bs, k + 1)
      ensures bs[k].addr + HDR + size != AddrAt(bs, k + 1)
    {
      BlockFacts(k, skip);
      if k + 1 < |bs| {
        BlockFacts(k + 1, skip);
      }
    }

    method CutBlock(ghost k: nat, b: int, size: int, ghost skip: set<int>) returns (newb: int)
      requires Rep(skip) && k < |bs| && bs[k].addr == b && (bs[k].free ==> b in skip)
      requires size % ALIGN == 0 && size >= MIN_DATA && bs[k].size >= size + HDR + MIN_DATA
      modifies this`mem, this`bs
      ensures newb == b + HDR + size && Rep(skip + {newb}) && bs == Split(old(bs), k, size)
      ensures SameData(old(mem), mem, Live(bs)) && IsFree(bs, newb)
      ensures Live(bs) == Live(old(bs)) - {Alloc(old(bs)[k])} + {(b + HDR, size)}
    {
      ghost var mem0, bs0 := mem, bs;
      CutFacts(k, size, skip);
      newb := WriteSplit(k, b, size);
      bs := Split(bs, k, size);
      SplitStep(mem0, bs0, fl, base, brk, skip, k, b, size, newb);
      SplitHead(bs0, k, size);
    }

    /** split_block: cut block k after size bytes if the rest can hold a block. */
    method SplitBlock(ghost k: nat, b: int, size: int, ghost skip: set<int>)
      requires Rep(skip) && k < |bs| && bs[k].addr == b && (bs[k].free ==> b in skip)
      requires size % ALIGN == 0 && MIN_DATA <= size && skip <= {b}
      modifies this`mem, this`bs, this`freeList, this`fl
      ensures Rep(skip) && SameData(old(mem), mem, Live(bs)) && k < |bs| && bs[k].addr == b
      ensures if old(bs)[k].size < size + HDR + MIN_DATA then mem == old(mem) && bs == old(bs)
              else bs == Split(old(bs), k, size)
                   && Live(bs) == Live(old(bs)) - {Alloc(old(bs)[k])} + {(b + HDR, size)}
      ensures fl == if old(bs)[k].size < size + HDR + MIN_DATA then old(fl) else Linked(fsm, old(fl), b + HDR + size)
    {
      BlockFacts(k, skip);
      if GetSize(b) < size + HDR + MIN_DATA {
        return;
      }
      var newb := CutBlock(k, b, size, skip);
      ghost var mem1 := mem;
      AddToFreeList(newb, skip);
      SameDataTwice(old(mem), mem1, mem, Live(bs));
    }

    // ----- find_free_block -----

    /** The switch of find_free_block on a block that is large enough. */
    predicate Better(cur: int, best: int)
      reads this
    {
      match fsm
      case FirstFit => true
      case BestFit => best == 0 || GetSize(cur) < GetSize(best)
      case WorstFit => best == 0 || GetSize(cur) > GetSize(best)
    }

    /** find_free_block: 0 when nothing fits, else the block that the policy picks. */
    method FindFreeBlock(size: int) returns (best: int, ghost pick: int)
      requires FreeChain(mem, fl) && freeList == Nth(fl, 0)
      ensures Picks(fsm, Sizes(mem, fl), |fl|, size, pick)
      ensures best == Nth(fl, pick) && (best == 0 <==> pick == -1)
    {
      best, pick := 0, -1;
      var cur := freeList;
      ghost var i := 0;
      ghost var sizes := Sizes(mem, fl);
      while cur != 0
        invariant 0 <= i <= |fl| && cur == Nth(fl, i) && best == Nth(fl, pick) && (best == 0 <==> pick == -1)
        invariant Picks(fsm, sizes, i, size, pick) && (fsm == FirstFit ==> pick == -1)
        decreases |fl| - i
      {
        assert sizes[i] == GetSize(cur);
        if GetSize(cur) >= size && Better(cur, best) {
          best, pick := cur, i;
          if fsm == FirstFit {
            return;
          }
        }
        FreeNextIs(i);
        cur := FreeNext(cur);
        i := i + 1;
      }
    }

    // ----- absorbing the next block -----

    /** The assignments by which coalesce and realloc absorb the block after b. */
    method WriteMerge(ghost k: nat, b: int, next: int, free: bool)
      requires k + 1 < |bs| && bs[k].addr == b && bs[k + 1].addr == next && mem[b].Header? && mem[next].Header?
      requires (k + 2 < |bs| ==> mem[bs[k + 2].addr].Header? && bs[k + 2].addr != 0 && bs[k + 2].addr != b)
      requires GetSize(b) == bs[k].size && GetSize(next) == bs[k + 1].size && mem[next].next == AddrAt(bs, k + 2)
      requires next != b
      modifies this`mem
      ensures mem == MergeMem(old(mem), bs, k, free)
    {
      var size := GetSize(b) + HDR + GetSize(next);
      mem := Store(mem, b, Header(if free then size + 1 else size, mem[next].next, mem[b].prev));
      var after := mem[next].next;
      if after != 0 {
        mem := Store(mem, after, Header(mem[after].size, mem[after].next, b));
      }
    }

    lemma MergeFacts(k: nat, skip: set<int>)
      requires Rep(skip) && k + 1 < |bs|
      ensures mem[bs[k].addr].Header? && mem[bs[k + 1].addr].Header? && bs[k + 1].addr != bs[k].addr
      ensures k + 2 < |bs| ==> mem[bs[k + 2].addr].Header? && bs[k + 2].addr != 0 && bs[k + 2].addr != bs[k].addr
      ensures GetSize(bs[k].addr) == bs[k].size && GetSize(bs[k + 1].addr) == bs[k + 1].size
      ensures mem[bs[k + 1].addr].next == AddrAt(bs, k + 2)
    {
      BlockFacts(k, skip);
      BlockFacts(k + 1, skip);
      if k + 2 < |bs| {
        BlockFacts(k + 2, skip);
      }
    }

    /** Block k absorbs block k + 1, which is free and off the free list; so is block k if it is free. */
    method MergeNext(ghost k: nat, b: int, next: int, free: bool, ghost skip: set<int>)
      requires k + 1 < |bs| && bs[k].addr == b && bs[k + 1].addr == next && next !in skip && Rep(skip + {next})
      requires bs[k + 1].free && bs[k].free == free && (free ==> b in skip)
      modifies this`mem, this`bs
      ensures Rep(skip) && bs == Merge(old(bs), k, free) && SameData(old(mem), mem, Live(old(bs)))
      ensures LiveJoined(old(bs), bs, k)
    {
      ghost var mem0, bs0 := mem, bs;
      MergeFacts(k, skip + {next});
      WriteMerge(k, b, next, free);
      bs := Merge(bs, k, free);
      MergeStep(mem0, bs0, fl, base, brk, skip, k, free, next);
      MergeHead(bs0, k, free);
    }
  }
}
