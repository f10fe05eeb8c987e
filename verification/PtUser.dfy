/** User memory: growing, shrinking, copying and freeing address spaces, with every page accounted for. */
module PtUser {
  import opened PtModel
  import opened PtSteps
  import opened PtCode

  // ----- one more page -----

  /** A free page with the given bytes is now mapped at page v of the tree; only page-table pages were
      added besides. */
  ghost predicate Gains(m: Mem, m': Mem, root: nat, v: nat, p: nat, perm: Perm, content: Page) {
    && p < |m.uses| == |m.pages| == |m'.pages| == |m'.uses| && m.uses[p].Free?
    && MappedIn(m', p, root, v, v + 1) && m'.pages[p] == content
    && Edited(m, m', root, p, p + 1) && OneLeaf(m, m', root, v, LeafPte(p, perm))
  }

  /** The bytes of a page that the kernel keeps. */
  function Filled(m: Mem, p: nat, content: Page): Mem
    requires p < |m.pages|
  {
    Mem(m.pages[p := content], m.uses, m.free)
  }

  ghost predicate FullPage(content: Page) { content.Bytes? && |content.bytes| == PGSIZE }

  lemma FillKeeps(m: Mem, p: nat, content: Page)
    requires Inv(m) && 0 < p < |m.uses| == |m.pages| && m.uses[p].Kept? && FullPage(content)
    ensures Inv(Filled(m, p, content)) && SameTrees(m, Filled(m, p, content))
  {
    assert Open(0, m);
    OtherPageKeeps(m, Filled(m, p, content), p);
    assert FreeOk(Filled(m, p, content));
    OtherPageNodes(m, Filled(m, p, content), p);
    EntriesGiveTrees(m, Filled(m, p, content));
  }

  /** kalloc and the writing of the new page. */
  ghost predicate Fresh(m: Mem, m': Mem, p: nat, content: Page) {
    && 0 < p < |m.uses| == |m.pages| == |m'.pages| == |m'.uses| && m.uses[p].Free? && m'.uses[p].Kept?
       && m'.pages[p] == content
    && SameTrees(m, m')
    && forall q :: 0 <= q < |m.uses| && q != p ==> m'.uses[q] == m.uses[q] && m'.pages[q] == m.pages[q]
  }

  lemma GainsAfterMap(m: Mem, m1: Mem, m2: Mem, root: nat, v: nat, p: nat, perm: Perm, content: Page)
    requires Inv(m2) && IsRoot(m, root) && IsRoot(m2, root) && v < TRAPFRAME
    requires Fresh(m, m1, p, content) && MapsPage(m1, m2, root, v, LeafPte(p, perm)) && IsRoot(m1, root)
    ensures Gains(m, m2, root, v, p, perm, content)
  {
    forall r: nat, w: nat | IsRoot(m, r) && w < MAXVPN
      ensures Leaf(m2.pages, r, w) == if (r, w) == (root, v) then LeafPte(p, perm) else Leaf(m.pages, r, w)
    {
      assert IsRoot(m1, r);
    }
    OwnedFacts(m2, p);
    var t := m2.uses[p].t;
    NodeNotZero(m2, t);
    TableIsNode(m2, root, 0, v);
    VpnOfWay(v);
  }

  lemma GrowsAfterRelease(m: Mem, m1: Mem, m2: Mem, m3: Mem, root: nat, p: nat, content: Page)
    requires Fresh(m, m1, p, content) && Grown(m1, m2, root) && p < |m2.uses| && m3 == Freed(m2, p) && SameTrees(m2, m3)
    ensures Grown(m, m3, root)
  {
    forall r: nat, w: nat | IsRoot(m, r) && w < MAXVPN ensures Leaf(m3.pages, r, w) == Leaf(m.pages, r, w) {
      assert IsRoot(m1, r) && IsRoot(m2, r);
    }
  }

  /** kalloc and the filling of the page. */
  method FreshPage(k: Kernel, content: Page) returns (p: nat)
    requires k.Valid() && |k.uses| == |k.pages| && FullPage(content)
    modifies k
    ensures k.Valid() && (p == 0 <==> old(k.free) == []) && (p == 0 ==> k.Now() == old(k.Now()))
    ensures p != 0 ==> Fresh(old(k.Now()), k.Now(), p, content) && |k.free| == |old(k.free)| - 1
  {
    ghost var m := k.Now();
    p := k.Kalloc();
    if p != 0 {
      ghost var m1 := k.Now();
      FillKeeps(m1, p, content);
      k.pages := k.pages[p := content];
      forall r: nat, v: nat | IsRoot(m, r) && v < MAXVPN ensures Leaf(k.pages, r, v) == Leaf(m.pages, r, v) {
        assert IsRoot(m1, r);
      }
    }
  }

  /** A page that is no table does not matter to the tables. */
  lemma SameTables(m: Mem, m': Mem, p: nat, root: nat, vpn: nat)
    requires Inv(m) && IsRoot(m, root) && !IsNode(m, p) && |m'.pages| == |m.pages|
    requires forall q :: 0 <= q < |m.pages| && q != p ==> m'.pages[q] == m.pages[q]
    ensures Missing(m'.pages, root, vpn) == Missing(m.pages, root, vpn)
  {
    if TableAt(m.pages, root, 1, vpn) != 0 {
      TableIsNode(m, root, 1, vpn);
    }
  }

  /** The tables of the tree are those it had and the two that page a needs. */
  ghost predicate TablesFor(pages: seq<Page>, pages': seq<Page>, root: nat, a: nat) {
    forall v: nat :: v < MAXVPN ==>
      && (TableAt(pages', root, 0, v) != 0 <==> TableAt(pages, root, 0, v) != 0 || v / 512 == a / 512)
      && (TableAt(pages', root, 1, v) != 0 <==> TableAt(pages, root, 1, v) != 0 || v / 262144 == a / 262144)
  }

  /** Two pages share the way to a table exactly when they are in the same group. */
  lemma SameWay(v: nat, a: nat)
    requires v < MAXVPN && a < MAXVPN
    ensures Way(1, v) == Way(1, a) <==> v / 262144 == a / 262144
    ensures Way(0, v) == Way(0, a) <==> v / 512 == a / 512
  {
    HighGroup(v);
    HighGroup(a);
    if Way(0, v) == Way(0, a) {
      assert Way(0, v)[0] == Way(0, a)[0] && Way(0, v)[1] == Way(0, a)[1];
    }
    if Way(1, v) == Way(1, a) {
      assert Way(1, v)[0] == Way(1, a)[0];
    }
  }

  lemma HighGroup(v: nat)
    requires v < MAXVPN
    ensures Px(2, v) == v / 262144 && v / 512 == 512 * Px(2, v) + Px(1, v)
  {
  }

  lemma TablesAfter(m: Mem, m': Mem, root: nat, a: nat)
    requires Inv(m) && Inv(m') && IsRoot(m, root) && IsRoot(m', root) && a < MAXVPN
    requires KeepsNodes(m, m') && OnWay(m, m', a) && TableAt(m'.pages, root, 0, a) != 0
    ensures TablesFor(m.pages, m'.pages, root, a)
  {
    forall v: nat | v < MAXVPN
      ensures TableAt(m'.pages, root, 0, v) != 0 <==> TableAt(m.pages, root, 0, v) != 0 || v / 512 == a / 512
      ensures TableAt(m'.pages, root, 1, v) != 0 <==> TableAt(m.pages, root, 1, v) != 0 || v / 262144 == a / 262144
    {
      SameWay(v, a);
      TablesOnWay(m, m', root, 0, a, v);
      TablesOnWay(m, m', root, 1, a, v);
      SameTable(m'.pages, root, a, v);
    }
  }

  lemma SameTable(pages: seq<Page>, root: nat, a: nat, v: nat)
    ensures Way(0, v) == Way(0, a) ==> TableAt(pages, root, 0, v) == TableAt(pages, root, 0, a)
    ensures Way(1, v) == Way(1, a) ==> TableAt(pages, root, 1, v) == TableAt(pages, root, 1, a)
  {
    if Way(0, v) == Way(0, a) {
      assert Way(0, v)[0] == Way(0, a)[0] && Way(0, v)[1] == Way(0, a)[1];
    }
    if Way(1, v) == Way(1, a) {
      assert Way(1, v)[0] == Way(1, a)[0];
    }
  }

  lemma TablesAfterMap(m: Mem, m1: Mem, m2: Mem, root: nat, v: nat, p: nat, content: Page)
    requires Inv(m) && Inv(m2) && IsRoot(m, root) && IsRoot(m2, root) && v < MAXVPN && Fresh(m, m1, p, content)
    requires KeepsNodes(m1, m2) && OnWay(m1, m2, v) && Leaf(m2.pages, root, v).v
    ensures TablesFor(m.pages, m2.pages, root, v)
  {
    NoneMade(m, m1, v);
    OnWayThen(m, m1, m2, v);
    TablesAfter(m, m2, root, v);
  }

  /** There is a page for page vpn of the tree and for the tables that it needs. */
  ghost predicate Enough(m: Mem, root: nat, vpn: nat) {
    match m
    case Mem(pages, _, free) => |free| > Missing(pages, root, vpn)
  }

  /** kalloc, the filling of the page, mappages, and kfree where that fails. */
  method GainPage(k: Kernel, root: nat, v: nat, content: Page, perm: Perm) returns (ok: bool, p: nat)
    requires k.Valid() && IsRoot(k.Now(), root) && v < TRAPFRAME && |k.uses| == |k.pages| && !Leaf(k.pages, root, v).v
    requires FullPage(content) && IsLeaf(LeafPte(0, perm))
    modifies k
    ensures k.Valid()
    ensures ok ==> p != 0 && Gains(old(k.Now()), k.Now(), root, v, p, perm, content)
    ensures !ok ==> Grown(old(k.Now()), k.Now(), root)
    ensures ok <==> Enough(old(k.Now()), root, v)
    ensures ok ==> |old(k.free)| == |k.free| + 1 + Missing(old(k.pages), root, v)
    ensures !ok ==> !Enough(k.Now(), root, v)
    ensures ok ==> TablesFor(old(k.pages), k.pages, root, v)
  {
    ghost var m := k.Now();
    GrownNone(m, root);
    p := FreshPage(k, content);
    if p == 0 {
      return false, 0;
    }
    ghost var m1 := k.Now();
    assert IsRoot(m1, root) && Leaf(m1.pages, root, v) == Leaf(m.pages, root, v);
    SameTables(m, m1, p, root, v);
    var out := k.MapPage(root, v, p, perm);
    ghost var m2 := k.Now();
    if out.Done? {
      GainsAfterMap(m, m1, m2, root, v, p, perm, content);
      TablesAfterMap(m, m1, m2, root, v, p, content);
      return true, p;
    }
    k.Kfree(p);
    SameTables(m2, k.Now(), p, root, v);
    GrowsAfterRelease(m, m1, m2, k.Now(), root, p, content);
    return false, 0;
  }

  // ----- many pages -----

  /** Free pages were mapped within [lo, hi) of the tree, or became its page-table pages; nothing else
      changed. */
  ghost predicate Acquires(m: Mem, m': Mem, root: nat, lo: nat, hi: nat) {
    match m'
    case Mem(_, _, _) =>
      && |m.uses| == |m.pages| == |m'.pages| == |m'.uses|
      && (forall p :: 0 <= p < |m.uses| ==>
            || m'.uses[p] == m.uses[p]
            || (m.uses[p].Free? && m'.uses[p].Node? && m'.uses[p].root == root && m'.uses[p].path != [])
            || (m.uses[p].Free? && MappedIn(m', p, root, lo, hi)))
      && (forall p :: 0 <= p < |m.uses| && (m.uses[p].Owned? || m.uses[p].Kept?) ==> m'.pages[p] == m.pages[p])
      && OtherLeaves(m, m', root, lo, hi)
  }

  /** All trees map everything as before, except for [lo, hi) of one. */
  ghost predicate OtherLeaves(m: Mem, m': Mem, root: nat, lo: nat, hi: nat) {
    && (forall r: nat :: IsRoot(m, r) ==> IsRoot(m', r))
    && (forall r: nat, v: nat :: IsRoot(m, r) && v < MAXVPN && !(r == root && lo <= v < hi) ==>
          Leaf(m'.pages, r, v) == Leaf(m.pages, r, v))
  }

  lemma AcquiresNone(m: Mem, root: nat, lo: nat)
    requires |m.uses| == |m.pages|
    ensures Acquires(m, m, root, lo, lo)
  {
  }

  lemma OtherLeavesMore(m: Mem, m1: Mem, m2: Mem, root: nat, lo: nat, v: nat, e: Pte)
    requires lo <= v && OtherLeaves(m, m1, root, lo, v) && OneLeaf(m1, m2, root, v, e)
    ensures OtherLeaves(m, m2, root, lo, v + 1)
  {
    forall r: nat, w: nat | IsRoot(m, r) && w < MAXVPN && !(r == root && lo <= w < v + 1)
      ensures Leaf(m2.pages, r, w) == Leaf(m.pages, r, w)
    {
      assert IsRoot(m1, r);
    }
  }

  lemma StaysMapped(m: Mem, m': Mem, root: nat, lo: nat, hi: nat, hi': nat, p: nat)
    requires MappedIn(m, p, root, lo, hi) && hi <= hi' && |m'.uses| == |m.uses|
    requires m'.uses[p] == m.uses[p] && m'.uses[m.uses[p].t] == m.uses[m.uses[p].t]
    ensures MappedIn(m', p, root, lo, hi')
  {
  }

  lemma AcquiresMore(m: Mem, m1: Mem, m2: Mem, root: nat, lo: nat, v: nat, p: nat, perm: Perm, content: Page)
    requires lo <= v && Acquires(m, m1, root, lo, v) && Gains(m1, m2, root, v, p, perm, content)
    ensures Acquires(m, m2, root, lo, v + 1)
  {
    OtherLeavesMore(m, m1, m2, root, lo, v, LeafPte(p, perm));
    forall q | 0 <= q < |m.uses|
      ensures || m2.uses[q] == m.uses[q]
              || (m.uses[q].Free? && m2.uses[q].Node? && m2.uses[q].root == root && m2.uses[q].path != [])
              || (m.uses[q].Free? && MappedIn(m2, q, root, lo, v + 1))
    {
      if q != p && MappedIn(m1, q, root, lo, v) && m2.uses[q] == m1.uses[q] {
        StaysMapped(m1, m2, root, lo, v, v + 1, q);
      }
    }
  }

  lemma AcquiresThenGrows(m: Mem, m1: Mem, m2: Mem, root: nat, lo: nat, hi: nat)
    requires Acquires(m, m1, root, lo, hi) && Grown(m1, m2, root)
    ensures Acquires(m, m2, root, lo, hi)
  {
    forall r: nat, w: nat | IsRoot(m, r) && w < MAXVPN && !(r == root && lo <= w < hi)
      ensures Leaf(m2.pages, r, w) == Leaf(m.pages, r, w)
    {
      assert IsRoot(m1, r);
    }
    forall q | 0 <= q < |m.uses|
      ensures || m2.uses[q] == m.uses[q]
              || (m.uses[q].Free? && m2.uses[q].Node? && m2.uses[q].root == root && m2.uses[q].path != [])
              || (m.uses[q].Free? && MappedIn(m2, q, root, lo, hi))
    {
      if MappedIn(m1, q, root, lo, hi) {
        StaysMapped(m1, m2, root, lo, hi, hi, q);
      }
    }
  }

  /** A page that the tree maps in [lo, hi) now and that was in use before was mapped there before. */
  lemma WasMapped(m: Mem, m': Mem, root: nat, lo: nat, hi: nat, p: nat)
    requires Inv(m) && Acquires(m, m', root, lo, hi) && MappedIn(m', p, root, lo, hi) && m'.uses[p] == m.uses[p]
    requires hi <= MAXVPN && IsRoot(m, root)
    ensures exists w :: lo <= w < hi && Leaf(m.pages, root, w).v
  {
    OwnedFacts(m, p);
    var t, i := m.uses[p].t, m.uses[p].i;
    var w := Vpn(m.uses[t].path, i);
    assert MappedIn(m, p, root, w, w + 1);
    MappedAt(m, root, w, p);
  }

  lemma ReleasedUses(m: Mem, m2: Mem, m3: Mem, root: nat, lo: nat, hi: nat)
    requires Inv(m) && IsRoot(m, root) && hi <= MAXVPN && lo <= hi && Clear(m, root, lo, hi - lo)
    requires Acquires(m, m2, root, lo, hi) && PagesGone(m2, m3, root, lo, hi, Free)
    ensures forall p :: 0 <= p < |m.uses| ==>
              || m3.uses[p] == m.uses[p]
              || (m.uses[p].Free? && m3.uses[p].Node? && m3.uses[p].root == root && m3.uses[p].path != [])
    ensures forall p :: 0 <= p < |m.uses| && (m.uses[p].Owned? || m.uses[p].Kept?) ==> m3.pages[p] == m.pages[p]
  {
    forall p | 0 <= p < |m.uses|
      ensures || m3.uses[p] == m.uses[p]
              || (m.uses[p].Free? && m3.uses[p].Node? && m3.uses[p].root == root && m3.uses[p].path != [])
      ensures m.uses[p].Owned? || m.uses[p].Kept? ==> m3.pages[p] == m.pages[p]
    {
      if MappedIn(m2, p, root, lo, hi) && m2.uses[p] == m.uses[p] {
        WasMapped(m, m2, root, lo, hi, p);
      }
    }
  }

  /** What was acquired is given back: only page-table pages remain. */
  lemma Released(m: Mem, m2: Mem, m3: Mem, root: nat, lo: nat, hi: nat)
    requires Inv(m) && IsRoot(m, root) && hi <= MAXVPN && lo <= hi && Clear(m, root, lo, hi - lo)
    requires Acquires(m, m2, root, lo, hi) && Unmaps(m2, m3, root, lo, hi, Free)
    ensures Grown(m, m3, root)
  {
    ReleasedUses(m, m2, m3, root, lo, hi);
    forall r: nat, v: nat | IsRoot(m, r) && v < MAXVPN ensures Leaf(m3.pages, r, v) == Leaf(m.pages, r, v) {
      assert IsRoot(m2, r);
      if r == root && lo <= v < hi {
        UnmappedIsNull(m, r, v);
      }
    }
  }

  // ----- uvmalloc and uvmdealloc -----

  function Pages(sz: nat): nat { (sz + PGSIZE - 1) / PGSIZE }

  const MAXSZ: nat := TRAPFRAME * PGSIZE

  lemma PagesMonotone(a: nat, b: nat)
    requires a <= b
    ensures Pages(a) <= Pages(b)
  {
  }

  function ZeroPage(): Page { Junk(0) }

  // ----- how many pages it takes -----

  /** The tables of the lower level that the pages in `want` lack, each named by its number. */
  ghost function Lows(pages: seq<Page>, root: nat, want: set<nat>): set<nat> {
    set v | v in want && TableAt(pages, root, 0, v) == 0 :: v / 512
  }

  /** The tables of the upper level that they lack. */
  ghost function Highs(pages: seq<Page>, root: nat, want: set<nat>): set<nat> {
    set v | v in want && TableAt(pages, root, 1, v) == 0 :: v / 262144
  }

  /** The free pages that mapping the pages in `want` takes: one for each, and one for each missing table. */
  ghost function PagesNeeded(pages: seq<Page>, root: nat, want: set<nat>): nat {
    |want| + |Lows(pages, root, want)| + |Highs(pages, root, want)|
  }

  lemma SubsetSize(a: set<nat>, b: set<nat>)
    requires a <= b
    ensures |a| <= |b|
  {
    assert b == a + (b - a);
  }

  lemma NeedGrows(pages: seq<Page>, root: nat, want: set<nat>, more: set<nat>)
    requires want <= more
    ensures PagesNeeded(pages, root, want) <= PagesNeeded(pages, root, more)
  {
    SubsetSize(want, more);
    SubsetSize(Lows(pages, root, want), Lows(pages, root, more));
    SubsetSize(Highs(pages, root, want), Highs(pages, root, more));
  }

  function One(b: bool): nat { if b then 1 else 0 }

  lemma NeedOneMore(pages: seq<Page>, root: nat, want: set<nat>, a: nat)
    requires a !in want
    ensures PagesNeeded(pages, root, want + {a}) == PagesNeeded(pages, root, want) + 1
              + One(TableAt(pages, root, 0, a) == 0 && a / 512 !in Lows(pages, root, want))
              + One(TableAt(pages, root, 1, a) == 0 && a / 262144 !in Highs(pages, root, want))
  {
    LowsOneMore(pages, root, want, a);
    HighsOneMore(pages, root, want, a);
  }

  lemma OneIn(r: set<nat>, x: nat)
    ensures |r + {x}| == |r| + One(x !in r)
  {
    if x in r {
      assert r + {x} == r;
    }
  }

  lemma LowsOneMore(pages: seq<Page>, root: nat, want: set<nat>, a: nat)
    ensures Lows(pages, root, want + {a})
         == Lows(pages, root, want) + if TableAt(pages, root, 0, a) == 0 then {a / 512} else {}
    ensures |Lows(pages, root, want + {a})|
         == |Lows(pages, root, want)| + One(TableAt(pages, root, 0, a) == 0 && a / 512 !in Lows(pages, root, want))
  {
    var l, r := Lows(pages, root, want + {a}), Lows(pages, root, want);
    if TableAt(pages, root, 0, a) == 0 {
      assert l == r + {a / 512};
      OneIn(r, a / 512);
    } else {
      assert l == r;
    }
  }

  lemma HighsOneMore(pages: seq<Page>, root: nat, want: set<nat>, a: nat)
    ensures Highs(pages, root, want + {a})
         == Highs(pages, root, want) + if TableAt(pages, root, 1, a) == 0 then {a / 262144} else {}
    ensures |Highs(pages, root, want + {a})|
         == |Highs(pages, root, want)| + One(TableAt(pages, root, 1, a) == 0 && a / 262144 !in Highs(pages, root, want))
  {
    var l, r := Highs(pages, root, want + {a}), Highs(pages, root, want);
    if TableAt(pages, root, 1, a) == 0 {
      assert l == r + {a / 262144};
      OneIn(r, a / 262144);
    } else {
      assert l == r;
    }
  }

  /** Paid is looked into only where this is mentioned. */
  ghost predicate Count(n: int, m: Mem) { true }

  /** Since m, exactly the pages in `want` have been mapped, with the tables they lacked. */
  ghost predicate Paid(m: Mem, now: Mem, root: nat, want: set<nat>) {
    match now
    case Mem(_, _, _) =>
      forall n: int {:trigger Count(n, now)} :: 0 <= n ==>
        |m.free| == |now.free| + PagesNeeded(m.pages, root, want) && TablesNow(m.pages, now.pages, root, want)
  }

  ghost predicate TablesNow(pages: seq<Page>, pages': seq<Page>, root: nat, want: set<nat>) {
    forall v: nat :: v < MAXVPN ==>
      && (TableAt(pages', root, 0, v) != 0 <==>
            TableAt(pages, root, 0, v) != 0 || v / 512 in Lows(pages, root, want))
      && (TableAt(pages', root, 1, v) != 0 <==>
            TableAt(pages, root, 1, v) != 0 || v / 262144 in Highs(pages, root, want))
  }

  lemma PaidNothing(m: Mem, root: nat)
    ensures Paid(m, m, root, {})
  {
    assert Lows(m.pages, root, {}) == {} && Highs(m.pages, root, {}) == {};
    assert TablesNow(m.pages, m.pages, root, {}) && PagesNeeded(m.pages, root, {}) == 0;
  }

  /** What page a lacks now is what it adds to the count. */
  lemma MissingIsNeeded(m: Mem, now: Mem, root: nat, want: set<nat>, a: nat)
    requires Paid(m, now, root, want) && a !in want && a < MAXVPN
    ensures |m.free| + 1 + Missing(now.pages, root, a) == |now.free| + PagesNeeded(m.pages, root, want + {a})
  {
    assert Count(0, now);
    NeedOneMore(m.pages, root, want, a);
    assert TableAt(now.pages, root, 1, a) == 0 ==> TableAt(now.pages, root, 0, a) == 0;
  }

  lemma TablesMore(pages: seq<Page>, pages1: seq<Page>, pages2: seq<Page>, root: nat, want: set<nat>, a: nat)
    requires TablesNow(pages, pages1, root, want) && TablesFor(pages1, pages2, root, a) && a < MAXVPN
    ensures TablesNow(pages, pages2, root, want + {a})
  {
    LowsOneMore(pages, root, want, a);
    HighsOneMore(pages, root, want, a);
    forall v: nat | v < MAXVPN
      ensures TableAt(pages2, root, 0, v) != 0 <==>
                TableAt(pages, root, 0, v) != 0 || v / 512 in Lows(pages, root, want + {a})
      ensures TableAt(pages2, root, 1, v) != 0 <==>
                TableAt(pages, root, 1, v) != 0 || v / 262144 in Highs(pages, root, want + {a})
    {
      SameWay(v, a);
      SameTable(pages, root, a, v);
    }
  }

  /** Mapping one more page. */
  lemma PaysMore(m: Mem, now: Mem, now': Mem, root: nat, want: set<nat>, a: nat)
    requires Paid(m, now, root, want) && a !in want && a < MAXVPN && TablesFor(now.pages, now'.pages, root, a)
    requires |now.free| == |now'.free| + 1 + Missing(now.pages, root, a)
    ensures Paid(m, now', root, want + {a})
  {
    MissingIsNeeded(m, now, root, want, a);
    assert Count(0, now);
    TablesMore(m.pages, now.pages, now'.pages, root, want, a);
  }

  /** Without the pages for one more, there were too few to begin with. */
  lemma CannotPay(m: Mem, now: Mem, root: nat, want: set<nat>, a: nat, all: set<nat>)
    requires Paid(m, now, root, want) && a !in want && a < MAXVPN && want + {a} <= all && !Enough(now, root, a)
    ensures |m.free| < PagesNeeded(m.pages, root, all)
  {
    MissingIsNeeded(m, now, root, want, a);
    NeedGrows(m.pages, root, want + {a}, all);
  }

  lemma AllPaid(m: Mem, now: Mem, root: nat, all: set<nat>)
    requires Paid(m, now, root, all)
    ensures |m.free| == |now.free| + PagesNeeded(m.pages, root, all)
  {
    assert Count(0, now);
  }

  predicate Between(lo: nat, v: nat, hi: nat) { lo <= v < hi }

  /** The page numbers from lo up to hi. */
  ghost function Range(lo: nat, hi: nat): set<nat> {
    set v: nat | v < hi && Between(lo, v, hi)
  }

  lemma RangeMore(lo: nat, a: nat, hi: nat)
    requires lo <= a < hi
    ensures Range(lo, a + 1) == Range(lo, a) + {a} && a !in Range(lo, a) && Range(lo, a) + {a} <= Range(lo, hi)
    ensures Range(lo, lo) == {}
  {
    forall v: nat ensures v in Range(lo, a + 1) <==> v in Range(lo, a) + {a} {
    }
  }

  /** Every page in [lo, hi) of the tree is mapped with the given permissions to a page of zeros. */
  ghost predicate Zeroed(m: Mem, root: nat, lo: nat, hi: nat, perm: Perm) {
    match m
    case Mem(pages, uses, _) =>
      forall v :: lo <= v < hi ==>
        var e := Leaf(pages, root, v);
        0 < e.ppn < |uses| == |pages| && e == LeafPte(e.ppn, perm) && uses[e.ppn].Owned? && pages[e.ppn] == ZeroPage()
  }

  lemma ZeroedMore(m1: Mem, m2: Mem, root: nat, lo: nat, v: nat, p: nat, perm: Perm)
    requires lo <= v < MAXVPN && Zeroed(m1, root, lo, v, perm) && Gains(m1, m2, root, v, p, perm, ZeroPage()) && p != 0
             && IsRoot(m1, root)
    ensures Zeroed(m2, root, lo, v + 1, perm)
  {
    forall w | lo <= w < v + 1
      ensures var e := Leaf(m2.pages, root, w);
              0 < e.ppn < |m2.uses| == |m2.pages| && e == LeafPte(e.ppn, perm) && m2.uses[e.ppn].Owned?
                && m2.pages[e.ppn] == ZeroPage()
    {
      if w < v {
        assert m1.uses[Leaf(m1.pages, root, w).ppn].Owned?;
      }
    }
  }

  /** uvmdealloc: exactly the pages between the two sizes are unmapped and freed. */
  method Uvmdealloc(k: Kernel, root: nat, oldsz: nat, newsz: nat) returns (r: nat)
    requires k.Valid() && IsRoot(k.Now(), root) && oldsz <= MAXSZ && |k.uses| == |k.pages|
    modifies k
    ensures k.Valid() && r == (if newsz >= oldsz then oldsz else newsz)
    ensures newsz < oldsz ==> Unmaps(old(k.Now()), k.Now(), root, Pages(newsz), Pages(oldsz), Free)
    ensures newsz >= oldsz ==> k.Now() == old(k.Now())
  {
    if newsz >= oldsz {
      return oldsz;
    }
    UnmapsNone(k.Now(), root, Pages(newsz), Free);
    PagesMonotone(newsz, oldsz);
    if Pages(newsz) < Pages(oldsz) {
      k.Uvmunmap(root, Pages(newsz), Pages(oldsz) - Pages(newsz), true);
    }
    return newsz;
  }

  lemma PagesOfPages(a: nat)
    ensures Pages(a * PGSIZE) == a
  {
  }

  lemma BelowSize(a: nat, sz: nat)
    ensures a * PGSIZE < sz <==> a < Pages(sz)
  {
  }

  lemma ClearThere(m: Mem, m': Mem, root: nat, lo: nat, a: nat, hi: nat)
    requires lo <= a < hi <= MAXVPN && IsRoot(m, root) && Clear(m, root, lo, hi - lo) && Acquires(m, m', root, lo, a)
    ensures !Leaf(m'.pages, root, a).v && IsRoot(m', root) && Clear(m, root, lo, a - lo)
  {
    assert Leaf(m'.pages, root, a) == Leaf(m.pages, root, a);
  }

  /** The failure path of uvmalloc. */
  method GiveBack(k: Kernel, root: nat, lo: nat, a: nat, ghost m: Mem)
    requires k.Valid() && Inv(m) && IsRoot(m, root) && lo <= a <= TRAPFRAME && Clear(m, root, lo, a - lo)
    requires Acquires(m, k.Now(), root, lo, a) && |k.uses| == |k.pages|
    modifies k
    ensures k.Valid() && Grown(m, k.Now(), root)
  {
    ghost var m2 := k.Now();
    assert IsRoot(m2, root);
    PagesOfPages(a);
    PagesOfPages(lo);
    UnmapsNone(m2, root, lo, Free);
    var r := Uvmdealloc(k, root, a * PGSIZE, lo * PGSIZE);
    Released(m, m2, k.Now(), root, lo, a);
  }

  /** One turn of uvmalloc. */
  method UvmallocTurn(k: Kernel, root: nat, lo: nat, a: nat, perm: Perm, ghost hi: nat, ghost m: Mem)
    returns (got: bool)
    requires k.Valid() && |k.uses| == |k.pages| && lo <= a < hi <= TRAPFRAME && IsLeaf(LeafPte(0, perm))
    requires IsRoot(m, root) && Clear(m, root, lo, hi - lo) && Acquires(m, k.Now(), root, lo, a)
    requires Zeroed(k.Now(), root, lo, a, perm) && Paid(m, k.Now(), root, Range(lo, a))
    modifies k
    ensures k.Valid() && |k.uses| == |k.pages|
    ensures got ==> Acquires(m, k.Now(), root, lo, a + 1) && Zeroed(k.Now(), root, lo, a + 1, perm)
    ensures got ==> Paid(m, k.Now(), root, Range(lo, a + 1))
    ensures !got ==> Acquires(m, k.Now(), root, lo, a) && |m.free| < PagesNeeded(m.pages, root, Range(lo, hi))
  {
    ghost var m1 := k.Now();
    ClearThere(m, m1, root, lo, a, hi);
    var p;
    got, p := GainPage(k, root, a, ZeroPage(), perm);
    RangeMore(lo, a, hi);
    if got {
      AcquiresMore(m, m1, k.Now(), root, lo, a, p, perm, ZeroPage());
      ZeroedMore(m1, k.Now(), root, lo, a, p, perm);
      PaysMore(m, m1, k.Now(), root, Range(lo, a), a);
    } else {
      CannotPay(m, m1, root, Range(lo, a), a, Range(lo, hi));
      AcquiresThenGrows(m, m1, k.Now(), root, lo, a);
    }
  }

  lemma ClearBelow(m: Mem, root: nat, lo: nat, a: nat, hi: nat)
    requires lo <= a <= hi && Clear(m, root, lo, hi - lo)
    ensures Clear(m, root, lo, a - lo)
  {
  }

  /** uvmalloc: every page between the two sizes is mapped to a new page of zeros, exactly when the free pages
      suffice for them and for the tables they lack; otherwise no user page is taken. */
  method Uvmalloc(k: Kernel, root: nat, oldsz: nat, newsz: nat, perm: Perm) returns (r: nat, ghost ok: bool)
    requires k.Valid() && IsRoot(k.Now(), root) && newsz <= MAXSZ && |k.uses| == |k.pages| && IsLeaf(LeafPte(0, perm))
    requires oldsz <= newsz ==>
              && Pages(oldsz) <= Pages(newsz)
              && Clear(k.Now(), root, Pages(oldsz), Pages(newsz) - Pages(oldsz))
    modifies k
    ensures k.Valid()
    ensures newsz < oldsz ==> r == oldsz && k.Now() == old(k.Now())
    ensures newsz >= oldsz && ok ==>
              r == newsz && Acquires(old(k.Now()), k.Now(), root, Pages(oldsz), Pages(newsz))
                && Zeroed(k.Now(), root, Pages(oldsz), Pages(newsz), perm)
    ensures newsz >= oldsz && !ok ==> r == 0 && Grown(old(k.Now()), k.Now(), root)
    ensures newsz >= oldsz ==>
              (ok <==> |old(k.free)| >= PagesNeeded(old(k.pages), root, Range(Pages(oldsz), Pages(newsz))))
    ensures newsz >= oldsz && ok ==>
              |k.free| == |old(k.free)| - PagesNeeded(old(k.pages), root, Range(Pages(oldsz), Pages(newsz)))
  {
    ok := true;
    if newsz < oldsz {
      return oldsz, true;
    }
    ghost var m, hi := k.Now(), Pages(newsz);
    var lo := Pages(oldsz);
    AcquiresNone(m, root, lo);
    PaidNothing(m, root);
    assert Range(lo, lo) == {};
    PagesMonotone(newsz, MAXSZ);
    PagesOfPages(TRAPFRAME);
    var a := lo;
    BelowSize(a, newsz);
    while a * PGSIZE < newsz
      invariant lo <= a <= hi && k.Valid() && |k.uses| == |k.pages| && Acquires(m, k.Now(), root, lo, a)
      invariant Zeroed(k.Now(), root, lo, a, perm) && Paid(m, k.Now(), root, Range(lo, a))
      invariant a * PGSIZE < newsz <==> a < hi
      decreases hi - a
    {
      var got := UvmallocTurn(k, root, lo, a, perm, hi, m);
      if !got {
        ClearBelow(m, root, lo, a, hi);
        GiveBack(k, root, lo, a, m);
        return 0, false;
      }
      a := a + 1;
      BelowSize(a, newsz);
    }
    AllPaid(m, k.Now(), root, Range(lo, hi));
    return newsz, true;
  }
}
