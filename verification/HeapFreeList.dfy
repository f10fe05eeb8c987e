/** Changes of the free list, as links inside the payloads of free blocks. */
module HeapFreeList {
  import opened Sequences
  import opened HeapModel

  /** fl without its element i. */
  function Without(fl: seq<int>, i: nat): (r: seq<int>)
    requires i < |fl|
    ensures |r| == |fl| - 1
    ensures forall j :: 0 <= j < |r| ==> r[j] == if j < i then fl[j] else fl[j + 1]
  {
    fl[..i] + fl[i + 1..]
  }

  /** The free list without the blocks in gone, in its order. */
  function Keeping(fl: seq<int>, gone: set<int>): seq<int> {
    if fl == [] then [] else (if fl[0] in gone then [] else [fl[0]]) + Keeping(fl[1..], gone)
  }

  lemma {:induction false} KeepingJoin(a: seq<int>, b: seq<int>, gone: set<int>)
    ensures Keeping(a + b, gone) == Keeping(a, gone) + Keeping(b, gone)
  {
    if a == [] {
      assert a + b == b;
    } else {
      assert (a + b)[1..] == a[1..] + b;
      KeepingJoin(a[1..], b, gone);
    }
  }

  lemma {:induction false} KeepingAll(fl: seq<int>, gone: set<int>)
    requires forall a :: a in fl ==> a !in gone
    ensures Keeping(fl, gone) == fl
  {
    if fl != [] {
      var head := fl[0];
      assert head in fl && forall a :: a in fl[1..] ==> a in fl;
      KeepingAll(fl[1..], gone);
      assert fl == [fl[0]] + fl[1..];
    }
  }

  lemma KeepingOne(fl: seq<int>, i: nat)
    requires Distinct(fl) && i < |fl|
    ensures Keeping(fl, {fl[i]}) == Without(fl, i)
  {
    SplitAt(fl, i);
    KeepingMiddle(fl[..i], fl[i], fl[i + 1..]);
  }

  lemma SplitAt(fl: seq<int>, i: nat)
    requires i < |fl|
    ensures fl == fl[..i] + [fl[i]] + fl[i + 1..]
    ensures Distinct(fl) ==> fl[i] !in fl[..i] && fl[i] !in fl[i + 1..]
  {
  }

  lemma KeepingMiddle(a: seq<int>, x: int, b: seq<int>)
    requires x !in a && x !in b
    ensures Keeping(a + [x] + b, {x}) == a + b
  {
    KeepingJoin(a + [x], b, {x});
    KeepingJoin(a, [x], {x});
    KeepingAll(a, {x});
    KeepingAll(b, {x});
    assert a + [] == a;
  }

  lemma {:induction false} KeepingTwice(fl: seq<int>, a: set<int>, b: set<int>)
    ensures Keeping(Keeping(fl, a), b) == Keeping(fl, a + b)
  {
    if fl != [] {
      KeepingTwice(fl[1..], a, b);
      var head := if fl[0] in a then [] else [fl[0]];
      KeepingJoin(head, Keeping(fl[1..], a), b);
    }
  }

  lemma DistinctWithout(fl: seq<int>, i: nat)
    requires Distinct(fl) && i < |fl|
    ensures Distinct(Without(fl, i)) && fl[i] !in Without(fl, i)
    ensures forall a :: a in Without(fl, i) <==> a in fl && a != fl[i]
  {
    var r := Without(fl, i);
    forall a | a in fl && a != fl[i] ensures a in r {
      var j :| 0 <= j < |fl| && fl[j] == a;
      assert r[if j < i then j else j - 1] == a;
    }
    forall a | a in r ensures a in fl && a != fl[i] {
      var j :| 0 <= j < |r| && r[j] == a;
      assert a == fl[if j < i then j else j + 1];
    }
  }

  lemma PushFront(mem: Memory, fl: seq<int>, b: int)
    requires FreeChain(mem, fl) && b !in fl && b != 0
    ensures FreeChain(Store(mem, b + HDR, Word(Nth(fl, 0))), [b] + fl)
  {
    var r, mem' := [b] + fl, Store(mem, b + HDR, Word(Nth(fl, 0)));
    forall i | 0 <= i < |fl| ensures mem'[fl[i] + HDR] == mem[fl[i] + HDR] {
      assert fl[i] in fl;
    }
    forall i, j | 0 <= i < j < |r| && j == i + 1 ensures mem'[r[i] + HDR] == Word(r[j]) {
      if i > 0 {
        assert r[i] == fl[i - 1] && r[j] == fl[j - 1];
      }
    }
    assert |fl| > 0 ==> r[|r| - 1] == fl[|fl| - 1];
  }

  lemma PushBack(mem: Memory, fl: seq<int>, b: int)
    requires FreeChain(mem, fl) && b !in fl && b != 0 && |fl| > 0
    ensures FreeChain(Store(Store(mem, b + HDR, Word(0)), fl[|fl| - 1] + HDR, Word(b)), fl + [b])
  {
    var r, mem' := fl + [b], Store(Store(mem, b + HDR, Word(0)), fl[|fl| - 1] + HDR, Word(b));
    forall i | 0 <= i < |fl| - 1 ensures mem'[fl[i] + HDR] == mem[fl[i] + HDR] {
      assert fl[i] in fl && fl[i] != fl[|fl| - 1];
    }
    assert fl[|fl| - 1] in fl;
    forall i, j | 0 <= i < j < |r| && j == i + 1 ensures mem'[r[i] + HDR] == Word(r[j]) {
      if j < |fl| {
        assert r[i] == fl[i] && r[j] == fl[j];
      }
    }
  }

  /** The two assignments of remove_from_free_list; the first only when b is not the first. */
  function Unlinked(mem: Memory, fl: seq<int>, i: nat): Memory
    requires i < |fl|
  {
    if i > 0 then Store(Store(mem, fl[i - 1] + HDR, Word(Nth(fl, i + 1))), fl[i] + HDR, Word(0))
    else Store(mem, fl[i] + HDR, Word(0))
  }

  lemma UnlinkCells(mem: Memory, fl: seq<int>, i: nat, j: nat)
    requires Distinct(fl) && i < |fl| && j < |fl| && j != i
    ensures Unlinked(mem, fl, i)[fl[j] + HDR] == if j == i - 1 then Word(Nth(fl, i + 1)) else mem[fl[j] + HDR]
  {
    assert fl[j] != fl[i];
    assert i > 0 && j != i - 1 ==> fl[j] != fl[i - 1];
  }

  lemma UnlinkPair(mem: Memory, fl: seq<int>, i: nat, p: nat)
    requires FreeChain(mem, fl) && i < |fl| && p + 1 < |fl| - 1
    ensures Unlinked(mem, fl, i)[Without(fl, i)[p] + HDR] == Word(Without(fl, i)[p + 1])
  {
    var q := p + 1;
    if p < i {
      UnlinkCells(mem, fl, i, p);
      if q < i {
        assert mem[fl[p] + HDR] == Word(fl[q]);
      }
    } else {
      var q' := p + 2;
      UnlinkCells(mem, fl, i, q);
      assert mem[fl[q] + HDR] == Word(fl[q']);
    }
  }

  lemma Unlink(mem: Memory, fl: seq<int>, i: nat)
    requires FreeChain(mem, fl) && i < |fl|
    ensures FreeChain(Unlinked(mem, fl, i), Without(fl, i))
  {
    DistinctWithout(fl, i);
    UnlinkedIsChain(Unlinked(mem, fl, i), mem, fl, Without(fl, i), i);
  }

  lemma UnlinkedIsChain(mem': Memory, mem: Memory, fl: seq<int>, r: seq<int>, i: nat)
    requires FreeChain(mem, fl) && i < |fl| && r == Without(fl, i) && mem' == Unlinked(mem, fl, i) && Distinct(r)
    ensures FreeChain(mem', r)
  {
    forall p, q | 0 <= p < q < |r| && q == p + 1 ensures mem'[r[p] + HDR] == Word(r[q]) {
      UnlinkPair(mem, fl, i, p);
    }
    if |r| > 0 {
      var last := if i == |fl| - 1 then i - 1 else |fl| - 1;
      UnlinkCells(mem, fl, i, last);
      assert r[|r| - 1] == fl[last];
    }
  }

  // ----- the free list and the flags -----

  lemma ListsAfterPush(bs: seq<Blk>, fl: seq<int>, fl': seq<int>, b: int, skip: set<int>)
    requires Lists(bs, fl, skip + {b}) && IsFree(bs, b) && b !in skip
    requires fl' == [b] + fl || fl' == fl + [b]
    ensures Lists(bs, fl', skip)
  {
    assert forall a :: a in fl' <==> a in fl || a == b;
    forall i | 0 <= i < |fl'| ensures fl'[i] !in skip && IsFree(bs, fl'[i]) {
      assert fl'[i] in fl';
      if fl'[i] in fl {
        var p :| 0 <= p < |fl| && fl[p] == fl'[i];
      }
    }
  }

  lemma ListsAfterUnlink(bs: seq<Blk>, fl: seq<int>, i: nat, skip: set<int>)
    requires Lists(bs, fl, skip) && Distinct(fl) && i < |fl|
    ensures Lists(bs, Without(fl, i), skip + {fl[i]})
  {
    DistinctWithout(fl, i);
    var r := Without(fl, i);
    forall j | 0 <= j < |r| ensures r[j] !in skip + {fl[i]} && IsFree(bs, r[j]) {
      assert r[j] in r;
      assert r[j] == fl[if j < i then j else j + 1];
    }
  }

  /** The first and the last link of a list, and membership. */
  lemma ListedBlock(bs: seq<Blk>, fl: seq<int>, skip: set<int>, k: nat) returns (i: nat)
    requires Lists(bs, fl, skip) && k < |bs| && bs[k].free && bs[k].addr !in skip
    ensures i < |fl| && fl[i] == bs[k].addr
  {
    i :| 0 <= i < |fl| && fl[i] == bs[k].addr;
  }

  function Elements(fl: seq<int>): set<int> {
    set a | a in fl
  }

  /** Writing free links leaves headers and live data alone. */
  lemma LinksKeep(mem: Memory, mem': Memory, bs: seq<Blk>, fl: seq<int>, b: int, skip: set<int>)
    requires Ordered(bs) && GoodBlocks(bs) && Chained(mem, bs) && Lists(bs, fl, skip) && IsFree(bs, b)
    requires OnlyLinks(mem, mem', Elements(fl) + {b})
    ensures Chained(mem', bs) && SameData(mem, mem', Live(bs))
  {
    forall a | a in Elements(fl) + {b} ensures IsFree(bs, a) && IsBlock(bs, a) {
      if a in fl {
        var i :| 0 <= i < |fl| && fl[i] == a;
      }
      var k :| 0 <= k < |bs| && bs[k].addr == a && bs[k].free;
    }
    LinksKeepChain(mem, mem', bs, Elements(fl) + {b});
    LinksKeepData(mem, mem', bs, Elements(fl) + {b});
  }

  lemma OtherLinkKeeps(mem: Memory, fl: seq<int>, b: int, v: Cell)
    requires FreeChain(mem, fl) && b !in fl
    ensures FreeChain(Store(mem, b + HDR, v), fl)
  {
    forall i | 0 <= i < |fl| ensures Store(mem, b + HDR, v)[fl[i] + HDR] == mem[fl[i] + HDR] {
      assert fl[i] in fl;
    }
  }

  // ----- the heap in memory -----

  datatype Range = Range(lo: int, hi: int)

  /** InMemory is looked into only where this is mentioned, for the memory and blocks it names. */
  ghost predicate Open(t: int, mem: Memory, bs: seq<Blk>) { true }

  /** Memory holds the blocks bs, tiling [base, brk), and the free list fl, which lacks only `skip`. */
  ghost predicate InMemory(mem: Memory, bs: seq<Blk>, fl: seq<int>, base: int, brk: int, skip: set<int>) {
    match Range(base, brk)
    case Range(lo, hi) =>
      forall t: int {:trigger Open(t, mem, bs)} :: 0 <= t ==>
        Tiled(bs, lo, hi) && Chained(mem, bs) && FreeChain(mem, fl) && Lists(bs, fl, skip)
  }

  lemma NotListed(bs: seq<Blk>, fl: seq<int>, skip: set<int>, b: int)
    requires Lists(bs, fl, skip + {b}) && GoodBlocks(bs) && IsFree(bs, b)
    ensures b !in fl && b != 0
  {
  }

  lemma OneLink(mem: Memory, a: int, v: Cell, addrs: set<int>)
    requires a in addrs
    ensures OnlyLinks(mem, Store(mem, a + HDR, v), addrs)
  {
  }

  lemma TwoLinks(mem: Memory, a: int, v: Cell, b: int, w: Cell, addrs: set<int>)
    requires a in addrs && b in addrs
    ensures OnlyLinks(mem, Store(Store(mem, a + HDR, v), b + HDR, w), addrs)
  {
  }

  lemma PushedFront(mem: Memory, mem': Memory, bs: seq<Blk>, fl: seq<int>, base: int, brk: int, skip: set<int>, b: int)
    requires InMemory(mem, bs, fl, base, brk, skip + {b}) && IsFree(bs, b) && b !in skip
    requires mem' == Store(mem, b + HDR, Word(Nth(fl, 0)))
    ensures InMemory(mem', bs, [b] + fl, base, brk, skip) && SameData(mem, mem', Live(bs))
  {
    assert Open(0, mem, bs);
    NotListed(bs, fl, skip, b);
    PushFront(mem, fl, b);
    ListsAfterPush(bs, fl, [b] + fl, b, skip);
    OneLink(mem, b, Word(Nth(fl, 0)), Elements(fl) + {b});
    LinksKeep(mem, mem', bs, fl, b, skip + {b});
  }

  lemma PushedBack(mem: Memory, mem': Memory, bs: seq<Blk>, fl: seq<int>, base: int, brk: int, skip: set<int>, b: int)
    requires InMemory(mem, bs, fl, base, brk, skip + {b}) && IsFree(bs, b) && b !in skip && fl != []
    requires mem' == Store(Store(mem, b + HDR, Word(0)), fl[|fl| - 1] + HDR, Word(b))
    ensures InMemory(mem', bs, fl + [b], base, brk, skip) && SameData(mem, mem', Live(bs))
  {
    assert Open(0, mem, bs);
    NotListed(bs, fl, skip, b);
    PushBack(mem, fl, b);
    ListsAfterPush(bs, fl, fl + [b], b, skip);
    TwoLinks(mem, b, Word(0), fl[|fl| - 1], Word(b), Elements(fl) + {b});
    LinksKeep(mem, mem', bs, fl, b, skip + {b});
  }

  lemma UnlinkOnlyLinks(mem: Memory, fl: seq<int>, i: nat)
    requires i < |fl|
    ensures OnlyLinks(mem, Unlinked(mem, fl, i), Elements(fl) + {fl[i]})
  {
    if i > 0 {
      TwoLinks(mem, fl[i - 1], Word(Nth(fl, i + 1)), fl[i], Word(0), Elements(fl) + {fl[i]});
    } else {
      OneLink(mem, fl[i], Word(0), Elements(fl) + {fl[i]});
    }
  }

  lemma Removed(mem: Memory, mem': Memory, bs: seq<Blk>, fl: seq<int>, base: int, brk: int, skip: set<int>, i: nat)
    requires InMemory(mem, bs, fl, base, brk, skip) && i < |fl| && mem' == Unlinked(mem, fl, i)
    ensures InMemory(mem', bs, Without(fl, i), base, brk, skip + {fl[i]}) && SameData(mem, mem', Live(bs))
  {
    assert Open(0, mem, bs);
    Unlink(mem, fl, i);
    ListsAfterUnlink(bs, fl, i, skip);
    UnlinkOnlyLinks(mem, fl, i);
    LinksKeep(mem, mem', bs, fl, fl[i], skip);
  }
}
