/** kalloc, walk, mappages, uvmunmap and their callers as imperative code over physical memory. */
module PtCode {
  import opened PtModel
  import opened PtSteps

  /** Free pages became page-table pages of one tree; nothing else changed. */
  ghost predicate Grown(m: Mem, m': Mem, root: nat) {
    && |m.uses| == |m.pages| == |m'.pages| == |m'.uses|
    && (forall p :: 0 <= p < |m.uses| ==>
          || m'.uses[p] == m.uses[p]
          || (m.uses[p].Free? && m'.uses[p].Node? && m'.uses[p].root == root && m'.uses[p].path != []))
    && (forall p :: 0 <= p < |m.uses| && (m.uses[p].Owned? || m.uses[p].Kept?) ==> m'.pages[p] == m.pages[p])
    && SameTrees(m, m')
  }

  lemma GrownKeepsNodes(m: Mem, m': Mem, root: nat)
    requires Grown(m, m', root)
    ensures KeepsNodes(m, m')
  {
  }

  lemma GrownTwice(m: Mem, m1: Mem, m2: Mem, root: nat)
    requires Grown(m, m1, root) && Grown(m1, m2, root)
    ensures Grown(m, m2, root)
  {
  }

  lemma GrownNone(m: Mem, root: nat)
    requires |m.uses| == |m.pages|
    ensures Grown(m, m, root)
  {
  }

  /** kalloc of a page and hanging it below entry i of t. */
  lemma HungAfterTake(m: Mem, t: nat, i: nat)
    requires Inv(m) && m.free != [] && IsNode(m, t) && |m.uses[t].path| < 2 && i < ENTRIES && !Entry(m.pages, t, i).v
    requires m.uses[t].path == [] ==> i < ENTRIES / 2
    ensures var c := m.free[0];
            && 0 < c < |m.uses| == |m.pages| && c != t && CanHang(Taken(m), t, i, c)
            && t < |m.pages| && m.pages[t].Ptes? && i < |m.pages[t].ptes| && Taken(m).pages[t] == m.pages[t]
               && Taken(m).uses[t] == m.uses[t]
  {
    TakeKeeps(m);
    assert Open(0, m);
  }

  lemma HungGrows(m: Mem, t: nat, i: nat)
    requires Inv(m) && m.free != [] && IsNode(m, t) && |m.uses[t].path| < 2 && i < ENTRIES && !Entry(m.pages, t, i).v
    requires m.uses[t].path == [] ==> i < ENTRIES / 2
    requires m.free[0] < |m.uses| == |m.pages| && m.free[0] != t && CanHang(Taken(m), t, i, m.free[0])
    requires t < |m.pages| && m.pages[t].Ptes? && i < |m.pages[t].ptes| && Taken(m).pages[t] == m.pages[t]
             && Taken(m).uses[t] == m.uses[t]
    ensures var m' := Hung(Taken(m), t, i, m.free[0]);
            Inv(m') && Grown(m, m', m.uses[t].root) && Child(m'.pages, t, i) == m.free[0] && m'.free == m.free[1..]
  {
    TakeKeeps(m);
    HangKeeps(Taken(m), t, i, m.free[0]);
    HangKeepsTrees(Taken(m), t, i, m.free[0]);
  }

  // ----- which tables are made -----

  /** OnWay is looked into only where this is mentioned. */
  ghost predicate Made(q: nat, m: Mem) { true }

  /** The page-table pages that are new are on the way to page vpn. */
  ghost predicate OnWay(m: Mem, m': Mem, vpn: nat) {
    match m'
    case Mem(_, _, _) =>
      forall q: nat {:trigger Made(q, m')} :: IsNode(m', q) && !IsNode(m, q) ==>
        m'.uses[q].path == Way(1, vpn) || m'.uses[q].path == Way(0, vpn)
  }

  /** Every page-table page stays what it is. */
  ghost predicate KeepsNodes(m: Mem, m': Mem) {
    match m'
    case Mem(_, _, _) => forall q: nat :: IsNode(m, q) ==> IsNode(m', q) && m'.uses[q] == m.uses[q]
  }

  lemma OnWayThen(m: Mem, m1: Mem, m2: Mem, vpn: nat)
    requires OnWay(m, m1, vpn) && OnWay(m1, m2, vpn) && KeepsNodes(m1, m2)
    ensures OnWay(m, m2, vpn)
  {
    forall q: nat | IsNode(m2, q) && !IsNode(m, q)
      ensures m2.uses[q].path == Way(1, vpn) || m2.uses[q].path == Way(0, vpn)
    {
      assert Made(q, m1) && Made(q, m2);
    }
  }

  lemma NoneMade(m: Mem, m': Mem, vpn: nat)
    requires forall q: nat :: IsNode(m', q) ==> IsNode(m, q)
    ensures OnWay(m, m', vpn)
  {
  }

  /** One page has become the next table on the way. */
  lemma OneMade(m: Mem, m': Mem, t: nat, c: nat, level: nat, vpn: nat)
    requires 1 <= level <= 2 && c < |m.uses| && IsNode(m, t) && m.uses[t].path == Way(level, vpn)
    requires m'.uses == m.uses[c := Node(m.uses[t].root, m.uses[t].path + [Px(level, vpn)], t)]
    ensures OnWay(m, m', vpn)
  {
    assert Way(level, vpn) + [Px(level, vpn)] == Way(level - 1, vpn);
    forall q: nat | IsNode(m', q) && !IsNode(m, q)
      ensures m'.uses[q].path == Way(1, vpn) || m'.uses[q].path == Way(0, vpn)
    {
      assert q == c;
    }
  }

  /** Tables are found for as many pages as before, and for those that share the way to page vpn. */
  lemma TablesOnWay(m: Mem, m': Mem, root: nat, level: nat, vpn: nat, v: nat)
    requires Inv(m) && Inv(m') && IsRoot(m, root) && IsRoot(m', root) && level < 2
    requires KeepsNodes(m, m') && OnWay(m, m', vpn)
    ensures TableAt(m.pages, root, level, v) != 0 ==> TableAt(m'.pages, root, level, v) != 0
    ensures TableAt(m'.pages, root, level, v) != 0 ==>
              TableAt(m.pages, root, level, v) != 0 || Way(level, v) == Way(level, vpn)
  {
    var t, t' := TableAt(m.pages, root, level, v), TableAt(m'.pages, root, level, v);
    if t != 0 {
      TableIsNode(m, root, level, v);
      NodeIsTable(m', t, level, v);
    }
    if t' != 0 {
      TableIsNode(m', root, level, v);
      if IsNode(m, t') {
        NodeIsTable(m, t', level, v);
      } else {
        assert Made(t', m');
      }
    }
  }

  datatype Perm = Perm(r: bool, w: bool, x: bool, u: bool)

  datatype Outcome = Done | NoMemory | Panic

  function LeafPte(ppn: nat, perm: Perm): Pte { Pte(true, perm.r, perm.w, perm.x, perm.u, ppn) }

  /** As Grown for the physical pages outside [lo, hi), whatever is mapped. */
  ghost predicate Edited(m: Mem, m': Mem, root: nat, lo: nat, hi: nat) {
    && |m.uses| == |m.pages| == |m'.pages| == |m'.uses|
    && (forall p :: 0 <= p < |m.uses| && !(lo <= p < hi) ==>
          || m'.uses[p] == m.uses[p]
          || (m.uses[p].Free? && m'.uses[p].Node? && m'.uses[p].root == root && m'.uses[p].path != []))
    && (forall p :: 0 <= p < |m.uses| && !(lo <= p < hi) && (m.uses[p].Owned? || m.uses[p].Kept?) ==>
       m'.pages[p] == m.pages[p])
  }

  /** Page vpn of the tree is mapped by e, which owns its page if that is user memory. */
  ghost predicate MapsPage(m: Mem, m': Mem, root: nat, vpn: nat, e: Pte) {
    && Edited(m, m', root, e.ppn, e.ppn + 1) && OneLeaf(m, m', root, vpn, e)
       && e.ppn < |m.pages| == |m.uses| == |m'.uses| == |m'.pages|
    && m'.pages[e.ppn] == m.pages[e.ppn]
    && m'.uses[e.ppn] == if vpn < TRAPFRAME then Owned(TableAt(m'.pages, root, 0, vpn), Px(0, vpn)) else m.uses[e.ppn]
  }

  lemma MapAfterWalk(m: Mem, m1: Mem, m2: Mem, root: nat, vpn: nat, t: nat, e: Pte, use: Use)
    requires Inv(m) && Inv(m1) && IsRoot(m, root) && Grown(m, m1, root) && vpn < MAXVPN && e.ppn < |m.uses|
             && m.uses[e.ppn].Kept?
    requires CanMap(m1, t, Px(0, vpn), e, use) && m1.uses[t].root == root && m1.uses[t].path == Way(0, vpn)
    requires t < |m1.pages| && m1.pages[t].Ptes? && Px(0, vpn) < |m1.pages[t].ptes|
    requires m2 == Mapped(m1, t, Px(0, vpn), e, e.ppn, use)
    ensures Inv(m2) && MapsPage(m, m2, root, vpn, e)
  {
    MapKeeps(m1, t, Px(0, vpn), e, use);
    MappedLeaf(m1, t, Px(0, vpn), e, e.ppn, use);
    VpnOfWay(vpn);
    SlotOf(m2, t, Px(0, vpn), vpn);
  }

  ghost predicate LeavesRange(m: Mem, m': Mem, root: nat, vpn: nat, ppn: nat, k: nat, perm: Perm) {
    && (forall r: nat :: IsRoot(m, r) ==> IsRoot(m', r))
    && (forall r: nat, v: nat :: IsRoot(m, r) && v < MAXVPN ==>
          Leaf(m'.pages, r, v) ==
            if r == root && vpn <= v < vpn + k then LeafPte(ppn + (v - vpn), perm) else Leaf(m.pages, r, v))
  }

  ghost predicate PagesRange(m: Mem, m': Mem, vpn: nat, ppn: nat, k: nat)
    requires ppn + k <= |m.uses| == |m.pages| == |m'.uses| == |m'.pages|
  {
    forall q :: ppn <= q < ppn + k ==>
      m'.pages[q] == m.pages[q] && if vpn + (q - ppn) < TRAPFRAME then m'.uses[q].Owned? else m'.uses[q] == m.uses[q]
  }

  /** MapsRange is looked into only where this is mentioned. */
  ghost predicate Look(n: int, m: Mem, m': Mem) { true }

  /** k pages from vpn on are mapped to the k pages from ppn on. */
  ghost predicate MapsRange(m: Mem, m': Mem, root: nat, vpn: nat, ppn: nat, k: nat, perm: Perm) {
    match m'
    case Mem(_, _, _) =>
      forall n: int {:trigger Look(n, m, m')} :: 0 <= n ==>
        && Edited(m, m', root, ppn, ppn + k) && ppn + k <= |m.uses|
        && LeavesRange(m, m', root, vpn, ppn, k, perm) && PagesRange(m, m', vpn, ppn, k)
  }

  /** n pages of bytes from ppn on that the kernel keeps. */
  ghost predicate Spare(m: Mem, ppn: nat, n: nat) {
    0 < ppn && ppn + n <= |m.uses| == |m.pages|
      && forall q :: ppn <= q < ppn + n ==> m.uses[q].Kept? && m.pages[q].Bytes?
  }

  /** The k pages from vpn on are not mapped. */
  ghost predicate Clear(m: Mem, root: nat, vpn: nat, k: nat) {
    match m
    case Mem(pages, _, _) => forall v :: vpn <= v < vpn + k ==> !Leaf(pages, root, v).v
  }

  lemma ClearOneMore(m: Mem, root: nat, vpn: nat, k: nat)
    requires Clear(m, root, vpn, k) && !Leaf(m.pages, root, vpn + k).v
    ensures Clear(m, root, vpn, k + 1)
  {
  }

  lemma MapsNone(m: Mem, root: nat, vpn: nat, ppn: nat, perm: Perm)
    requires |m.uses| == |m.pages| && ppn <= |m.uses|
    ensures MapsRange(m, m, root, vpn, ppn, 0, perm)
  {
    assert Edited(m, m, root, ppn, ppn) && LeavesRange(m, m, root, vpn, ppn, 0, perm) && PagesRange(m, m, vpn, ppn, 0);
  }

  lemma LeavesOneMore(m: Mem, m1: Mem, m2: Mem, root: nat, vpn: nat, ppn: nat, k: nat, perm: Perm)
    requires LeavesRange(m, m1, root, vpn, ppn, k, perm) && OneLeaf(m1, m2, root, vpn + k, LeafPte(ppn + k, perm))
    ensures LeavesRange(m, m2, root, vpn, ppn, k + 1, perm)
  {
    forall r: nat, v: nat | IsRoot(m, r) && v < MAXVPN
      ensures Leaf(m2.pages, r, v) ==
              if r == root && vpn <= v < vpn + (k + 1) then LeafPte(ppn + (v - vpn), perm) else Leaf(m.pages, r, v)
    {
      assert IsRoot(m1, r);
    }
  }

  lemma LeavesThenSame(m: Mem, m1: Mem, m2: Mem, root: nat, vpn: nat, ppn: nat, k: nat, perm: Perm)
    requires LeavesRange(m, m1, root, vpn, ppn, k, perm) && SameTrees(m1, m2)
    ensures LeavesRange(m, m2, root, vpn, ppn, k, perm)
  {
    forall r: nat, v: nat | IsRoot(m, r) && v < MAXVPN ensures Leaf(m2.pages, r, v) == Leaf(m1.pages, r, v) {
      assert IsRoot(m1, r);
    }
  }

  lemma PagesOneMore(m: Mem, m1: Mem, m2: Mem, root: nat, vpn: nat, ppn: nat, k: nat, n: nat, e: Pte)
    requires k < n && Spare(m, ppn, n) && Edited(m, m1, root, ppn, ppn + k) && PagesRange(m, m1, vpn, ppn, k)
    requires e.ppn == ppn + k && MapsPage(m1, m2, root, vpn + k, e)
    ensures PagesRange(m, m2, vpn, ppn, k + 1)
  {
    forall q | ppn <= q < ppn + (k + 1)
      ensures m2.pages[q] == m.pages[q] && if vpn + (q - ppn) < TRAPFRAME then m2.uses[q].Owned?
              else m2.uses[q] == m.uses[q]
    {
      assert m.uses[q].Kept?;
      assert m1.uses[q].Owned? || m1.uses[q] == m.uses[q];
    }
  }

  lemma EditedMore(m: Mem, m1: Mem, m2: Mem, root: nat, lo: nat, mid: nat, hi: nat)
    requires lo <= mid <= hi && Edited(m, m1, root, lo, mid) && Edited(m1, m2, root, mid, hi)
    requires forall q :: lo <= q < hi && q < |m.uses| ==> m.uses[q].Kept?
    ensures Edited(m, m2, root, lo, hi)
  {
  }

  lemma MapsOneMore(m: Mem, m1: Mem, m2: Mem, root: nat, vpn: nat, ppn: nat, k: nat, n: nat, perm: Perm)
    requires MapsRange(m, m1, root, vpn, ppn, k, perm) && MapsPage(m1, m2, root, vpn + k, LeafPte(ppn + k, perm))
    requires k < n && Spare(m, ppn, n)
    ensures MapsRange(m, m2, root, vpn, ppn, k + 1, perm)
  {
    assert Look(0, m, m1);
    LeavesOneMore(m, m1, m2, root, vpn, ppn, k, perm);
    PagesOneMore(m, m1, m2, root, vpn, ppn, k, n, LeafPte(ppn + k, perm));
    EditedMore(m, m1, m2, root, ppn, ppn + k, ppn + (k + 1));
  }

  lemma NextToMap(m: Mem, m1: Mem, root: nat, vpn: nat, ppn: nat, k: nat, n: nat, perm: Perm)
    requires MapsRange(m, m1, root, vpn, ppn, k, perm) && k < n && Spare(m, ppn, n) && IsRoot(m, root)
             && vpn + k < MAXVPN
    ensures IsRoot(m1, root) && |m1.uses| == |m1.pages| && ppn + k < |m1.uses| && m1.uses[ppn + k].Kept?
            && m1.pages[ppn + k].Bytes?
    ensures Leaf(m1.pages, root, vpn + k) == Leaf(m.pages, root, vpn + k)
  {
    assert Look(0, m, m1);
    assert m.uses[ppn + k].Kept?;
  }

  lemma MapsThenGrows(m: Mem, m1: Mem, m2: Mem, root: nat, vpn: nat, ppn: nat, k: nat, n: nat, perm: Perm)
    requires MapsRange(m, m1, root, vpn, ppn, k, perm) && Grown(m1, m2, root) && k <= n && Spare(m, ppn, n)
    ensures MapsRange(m, m2, root, vpn, ppn, k, perm)
  {
    assert Look(0, m, m1);
    LeavesThenSame(m, m1, m2, root, vpn, ppn, k, perm);
    EditedMore(m, m1, m2, root, ppn, ppn + k, ppn + k);
    forall q | ppn <= q < ppn + k
      ensures m2.pages[q] == m.pages[q] && if vpn + (q - ppn) < TRAPFRAME then m2.uses[q].Owned?
              else m2.uses[q] == m.uses[q]
    {
      assert m1.uses[q].Owned? || m1.uses[q] == m.uses[q];
    }
    assert PagesRange(m, m2, vpn, ppn, k);
  }

  /** Page p is what the tree maps somewhere in [lo, hi). */
  ghost predicate MappedIn(m: Mem, p: nat, root: nat, lo: nat, hi: nat) {
    && p < |m.uses| && m.uses[p].Owned? && LeafSlot(m, m.uses[p].t, m.uses[p].i)
    && m.uses[m.uses[p].t].root == root && lo <= Vpn(m.uses[m.uses[p].t].path, m.uses[p].i) < hi
  }

  ghost predicate LeavesGone(m: Mem, m': Mem, root: nat, lo: nat, hi: nat) {
    && (forall r: nat :: IsRoot(m, r) ==> IsRoot(m', r))
    && (forall r: nat, v: nat :: IsRoot(m, r) && v < MAXVPN ==>
          Leaf(m'.pages, r, v) == if r == root && lo <= v < hi then Null() else Leaf(m.pages, r, v))
  }

  ghost predicate PagesGone(m: Mem, m': Mem, root: nat, lo: nat, hi: nat, use: Use) {
    && |m.uses| == |m.pages| == |m'.pages| == |m'.uses|
    && (forall p :: 0 <= p < |m.uses| ==> m'.uses[p] == if MappedIn(m, p, root, lo, hi) then use else m.uses[p])
    && (forall p :: 0 <= p < |m.uses| && (m.uses[p].Owned? || m.uses[p].Kept?) && !MappedIn(m, p, root, lo, hi) ==>
       m'.pages[p] == m.pages[p])
  }

  /** The pages from lo to hi are no longer mapped; what was mapped there has become `use`. */
  ghost predicate Unmaps(m: Mem, m': Mem, root: nat, lo: nat, hi: nat, use: Use) {
    match m'
    case Mem(_, _, _) => LeavesGone(m, m', root, lo, hi) && PagesGone(m, m', root, lo, hi, use)
  }

  lemma UnmapsNone(m: Mem, root: nat, lo: nat, use: Use)
    requires |m.uses| == |m.pages|
    ensures Unmaps(m, m, root, lo, lo, use)
  {
  }

  lemma LeavesGoneMore(m: Mem, m1: Mem, m2: Mem, root: nat, lo: nat, mid: nat, hi: nat)
    requires lo <= mid <= hi && LeavesGone(m, m1, root, lo, mid) && LeavesGone(m1, m2, root, mid, hi)
    ensures LeavesGone(m, m2, root, lo, hi)
  {
    forall r: nat, v: nat | IsRoot(m, r) && v < MAXVPN
      ensures Leaf(m2.pages, r, v) == if r == root && lo <= v < hi then Null() else Leaf(m.pages, r, v)
    {
      assert IsRoot(m1, r);
    }
  }

  lemma MappedInStays(m: Mem, m1: Mem, root: nat, lo: nat, mid: nat, hi: nat, use: Use, p: nat)
    requires lo <= mid <= hi && PagesGone(m, m1, root, lo, mid, use) && !use.Owned? && !use.Node? && p < |m.uses|
    ensures MappedIn(m, p, root, lo, mid) ==> !MappedIn(m1, p, root, mid, hi)
    ensures !MappedIn(m, p, root, lo, mid) ==> (MappedIn(m1, p, root, mid, hi) <==> MappedIn(m, p, root, mid, hi))
  {
    if m.uses[p].Owned? && m.uses[p].t < |m.uses| {
      var t := m.uses[p].t;
      assert m.uses[t].Node? ==> m1.uses[t] == m.uses[t];
      assert m1.uses[t].Node? ==> m1.uses[t] == m.uses[t];
    }
  }

  lemma PagesGoneMore(m: Mem, m1: Mem, m2: Mem, root: nat, lo: nat, mid: nat, hi: nat, use: Use)
    requires lo <= mid <= hi && PagesGone(m, m1, root, lo, mid, use) && PagesGone(m1, m2, root, mid, hi, use)
    requires !use.Owned? && !use.Node?
    ensures PagesGone(m, m2, root, lo, hi, use)
  {
    forall p | 0 <= p < |m.uses|
      ensures m2.uses[p] == if MappedIn(m, p, root, lo, hi) then use else m.uses[p]
      ensures (m.uses[p].Owned? || m.uses[p].Kept?) && !MappedIn(m, p, root, lo, hi) ==> m2.pages[p] == m.pages[p]
    {
      MappedInStays(m, m1, root, lo, mid, hi, use, p);
      assert MappedIn(m, p, root, lo, hi) <==> MappedIn(m, p, root, lo, mid) || MappedIn(m, p, root, mid, hi);
    }
  }

  lemma UnmapsMore(m: Mem, m1: Mem, m2: Mem, root: nat, lo: nat, mid: nat, hi: nat, use: Use)
    requires lo <= mid <= hi && Unmaps(m, m1, root, lo, mid, use) && Unmaps(m1, m2, root, mid, hi, use) && !use.Owned?
             && !use.Node?
    ensures Unmaps(m, m2, root, lo, hi, use)
  {
    LeavesGoneMore(m, m1, m2, root, lo, mid, hi);
    PagesGoneMore(m, m1, m2, root, lo, mid, hi, use);
  }

  lemma OwnedFacts(m: Mem, p: nat)
    requires Inv(m) && p < |m.uses| && m.uses[p].Owned?
    ensures OwnedPage(m, p, m.uses[p]) && p != 0
  {
    assert Open(0, m);
  }

  ghost predicate MappedHere(m: Mem, p: nat, root: nat, vpn: nat) {
    MappedIn(m, p, root, vpn, vpn + 1)
  }

  /** What is mapped at one page: the page its entry points to, if that is user memory. */
  lemma MappedAt(m: Mem, root: nat, vpn: nat, p: nat)
    requires Inv(m) && IsRoot(m, root) && vpn < MAXVPN && MappedIn(m, p, root, vpn, vpn + 1)
    ensures vpn < TRAPFRAME && Leaf(m.pages, root, vpn).v && Leaf(m.pages, root, vpn).ppn == p
  {
    OwnedFacts(m, p);
    var t, i := m.uses[p].t, m.uses[p].i;
    SlotOf(m, t, i, vpn);
    NodeNotZero(m, t);
  }

  lemma UnmapsNothing(m: Mem, root: nat, vpn: nat, use: Use)
    requires Inv(m) && IsRoot(m, root) && vpn < MAXVPN && !Leaf(m.pages, root, vpn).v && |m.uses| == |m.pages|
    ensures Unmaps(m, m, root, vpn, vpn + 1, use)
  {
    UnmappedIsNull(m, root, vpn);
    forall p | 0 <= p < |m.uses| ensures m.uses[p] == if MappedIn(m, p, root, vpn, vpn + 1) then use else m.uses[p] {
      if MappedIn(m, p, root, vpn, vpn + 1) {
        MappedAt(m, root, vpn, p);
      }
    }
  }

  /** The slot of a mapped page. */
  ghost predicate SlotIs(m: Mem, root: nat, vpn: nat, t: nat, p: nat) {
    && LeafSlot(m, t, Px(0, vpn)) && m.uses[t].root == root && m.uses[t].path == Way(0, vpn)
    && t == TableAt(m.pages, root, 0, vpn) && t != 0 && Entry(m.pages, t, Px(0, vpn)).v
       && Entry(m.pages, t, Px(0, vpn)).ppn == p
    && t < |m.pages| == |m.uses| && m.pages[t].Ptes? && Px(0, vpn) < |m.pages[t].ptes| && p < |m.uses|
  }

  lemma OneMapped(m: Mem, root: nat, vpn: nat, t: nat, p: nat, q: nat)
    requires Inv(m) && IsRoot(m, root) && vpn < MAXVPN && SlotIs(m, root, vpn, t, p)
    ensures MappedIn(m, q, root, vpn, vpn + 1) <==> q == p && vpn < TRAPFRAME
    ensures vpn < TRAPFRAME ==> m.uses[p] == Owned(t, Px(0, vpn)) && p != t
  {
    VpnOfWay(vpn);
    if vpn < TRAPFRAME {
      UnmapKeeps(m, t, Px(0, vpn), p, Kept);
    }
    if MappedIn(m, q, root, vpn, vpn + 1) {
      MappedAt(m, root, vpn, q);
    }
  }

  lemma NullPages(m: Mem, m': Mem, root: nat, vpn: nat, t: nat, p: nat)
    requires Inv(m) && IsRoot(m, root) && vpn < MAXVPN && SlotIs(m, root, vpn, t, p)
    requires m' == Mapped(m, t, Px(0, vpn), Null(), p, if vpn < TRAPFRAME then Kept else m.uses[p])
    ensures PagesGone(m, m', root, vpn, vpn + 1, Kept)
  {
    forall q | 0 <= q < |m.uses|
      ensures m'.uses[q] == if MappedIn(m, q, root, vpn, vpn + 1) then Kept else m.uses[q]
      ensures (m.uses[q].Owned? || m.uses[q].Kept?) && !MappedIn(m, q, root, vpn, vpn + 1) ==> m'.pages[q] == m.pages[q]
    {
      OneMapped(m, root, vpn, t, p, q);
    }
  }

  /** *pte = 0 of a mapped page, whose page the kernel keeps from now on if it was user memory. */
  lemma NullDone(m: Mem, m': Mem, root: nat, vpn: nat, t: nat, p: nat)
    requires Inv(m) && IsRoot(m, root) && vpn < MAXVPN && SlotIs(m, root, vpn, t, p)
    requires m' == Mapped(m, t, Px(0, vpn), Null(), p, if vpn < TRAPFRAME then Kept else m.uses[p])
    ensures Inv(m') && Unmaps(m, m', root, vpn, vpn + 1, Kept)
            && (vpn < TRAPFRAME ==> p != 0 && m'.uses[p].Kept? && p != t)
  {
    VpnOfWay(vpn);
    var use := if vpn < TRAPFRAME then Kept else m.uses[p];
    UnmapKeeps(m, t, Px(0, vpn), p, use);
    MappedLeaf(m, t, Px(0, vpn), Null(), p, use);
    OneMapped(m, root, vpn, t, p, p);
    NullPages(m, m', root, vpn, t, p);
  }

  /** The same with the page freed. */
  lemma FreeDone(m: Mem, m1: Mem, m': Mem, root: nat, vpn: nat, p: nat)
    requires Inv(m1) && Unmaps(m, m1, root, vpn, vpn + 1, Kept) && 0 < p < |m1.uses| == |m1.pages| && m1.uses[p].Kept?
    requires forall q: nat :: MappedHere(m, q, root, vpn) <==> q == p
    requires m' == Freed(m1, p)
    ensures Inv(m') && Unmaps(m, m', root, vpn, vpn + 1, Free)
  {
    FreeKeeps(m1, p);
    forall r: nat, v: nat | IsRoot(m, r) && v < MAXVPN ensures Leaf(m'.pages, r, v) == Leaf(m1.pages, r, v) {
      assert IsRoot(m1, r);
    }
    forall q | 0 <= q < |m.uses| ensures m'.uses[q] == if MappedIn(m, q, root, vpn, vpn + 1) then Free else m.uses[q] {
      assert MappedHere(m, q, root, vpn) <==> q == p;
    }
    assert PagesGone(m, m', root, vpn, vpn + 1, Free);
  }

  class Kernel {
    var pages: seq<Page>
    var free: seq<nat>
    ghost var uses: seq<Use>

    ghost function Now(): Mem
      reads this
    {
      Mem(pages, uses, free)
    }

    ghost predicate Valid()
      reads this
    {
      Inv(Now())
    }

    // ----- kalloc.c -----

    /** kinit: the pages below `end` are the kernel's, and freerange gives all others to the free list. */
    constructor (end: nat, npages: nat)
      requires 0 < end <= npages
      ensures Valid() && |pages| == |uses| == npages
      ensures forall p :: 0 <= p < npages ==> uses[p] == (if p < end then Kept else Free) && pages[p].Bytes?
      ensures |free| == npages - end && forall j :: 0 <= j < |free| ==> free[j] == npages - 1 - j
    {
      pages, free, uses := seq(npages, _ => Junk(0)), [], seq(npages, _ => Kept);
      new;
      NothingMapped(Now());
      var p := end;
      while p < npages
        invariant end <= p <= npages && Valid() && |pages| == |uses| == npages
        invariant forall q :: 0 <= q < npages ==> uses[q] == (if end <= q < p then Free else Kept) && pages[q].Bytes?
        invariant |free| == p - end && forall j :: 0 <= j < |free| ==> free[j] == p - 1 - j
      {
        Kfree(p);
        p := p + 1;
      }
    }

    static lemma NothingMapped(m: Mem)
      requires |m.uses| == |m.pages| > 0 && m.free == []
      requires forall p :: 0 <= p < |m.uses| ==> m.uses[p].Kept? && m.pages[p] == Junk(0)
      ensures Inv(m)
    {
      assert Sized(m) && FreeOk(m) && NodesOk(m) && EntriesOk(m) && OwnedOk(m);
    }

    method Kalloc() returns (p: nat)
      requires Valid()
      modifies this
      ensures Valid() && SameTrees(old(Now()), Now())
      ensures p == 0 <==> old(free) == []
      ensures p == 0 ==> Now() == old(Now())
      ensures p != 0 ==>
                && p == old(free)[0] < |old(uses)| == |old(pages)| && old(uses)[p].Free?
                && Now() == Taken(old(Now()))
    {
      p := 0;
      if free != [] {
        TakeKeeps(Now());
        p := free[0];
        free := free[1..];
        pages := pages[p := Junk(5)];
        uses := uses[p := Kept];
      }
    }

    method Kfree(p: nat)
      requires p < |uses| == |pages|
      modifies this
      ensures Now() == Freed(old(Now()), p)
      ensures old(Valid()) && p != 0 && old(uses)[p].Kept? ==> Valid() && SameTrees(old(Now()), Now())
    {
      if Valid() && p != 0 && uses[p].Kept? {
        FreeKeeps(Now(), p);
      }
      pages := pages[p := Junk(1)];
      free := [p] + free;
      uses := uses[p := Free];
    }

    // ----- walk -----

    /** One turn of walk's loop, at entry i of page-table page t. */
    method WalkTurn(t: nat, i: nat, alloc: bool) returns (c: nat)
      requires Valid() && IsNode(Now(), t) && |uses[t].path| < 2 && i < ENTRIES && |uses| == |pages|
               && (uses[t].path == [] ==> i < ENTRIES / 2)
      modifies this
      ensures Valid() && Grown(old(Now()), Now(), old(uses)[t].root)
      ensures if Child(old(pages), t, i) != 0 || !alloc
              || old(free) == [] then Now() == old(Now()) else free == old(free)[1..]
      ensures c == Child(pages, t, i) && (c == 0 <==> Child(old(pages), t, i) == 0 && (!alloc || old(free) == []))
      ensures Now() != old(Now()) ==> forall j :: Child(pages, c, j) == 0
      ensures Now() != old(Now()) ==>
                c < |old(uses)| && uses == old(uses)[c := Node(old(uses)[t].root, old(uses)[t].path + [i], t)]
    {
      ghost var m := Now();
      NodeFacts(m, t, i);
      var pte := pages[t].ptes[i];
      if pte.v {
        c := pte.ppn;
        return;
      }
      if !alloc {
        return 0;
      }
      if free != [] {
        HungAfterTake(m, t, i);
        HungGrows(m, t, i);
      }
      c := Kalloc();
      if c == 0 {
        return;
      }
      pages := pages[c := NullTable()];
      pages := pages[t := Ptes(pages[t].ptes[i := Pointer(c)])];
      uses := uses[c := Node(uses[t].root, uses[t].path + [i], t)];
    }

    lemma NodeFacts(m: Mem, t: nat, i: nat)
      requires Inv(m) && IsNode(m, t) && i < ENTRIES
      ensures t < |m.pages| && m.pages[t].Ptes? && i < |m.pages[t].ptes| && |m.uses| == |m.pages|
      ensures m.pages[t].ptes[i].v ==> m.pages[t].ptes[i].ppn != 0
    {
      assert Open(0, m);
      assert EntryOk(m, t, i, Entry(m.pages, t, i));
    }

    /** walk: the page-table page that holds the entry of page vpn, or 0; with alloc, 0 only when memory
        runs out.  What is mapped does not change, even where levels are created. */
    method Walk(root: nat, vpn: nat, alloc: bool) returns (t: nat)
      requires Valid() && IsRoot(Now(), root) && vpn < MAXVPN && |uses| == |pages|
      modifies this
      ensures Valid() && Grown(old(Now()), Now(), root) && IsRoot(Now(), root)
      ensures t == TableAt(pages, root, 0, vpn) && (t == 0 ==> !alloc || free == [])
      ensures t != 0 ==> LeafSlot(Now(), t, Px(0, vpn)) && uses[t].root == root && uses[t].path == Way(0, vpn)
      ensures !alloc || TableAt(old(pages), root, 0, vpn) != 0 ==> Now() == old(Now())
      ensures |free| + Missing(old(pages), root, vpn) == |old(free)| + Missing(pages, root, vpn)
      ensures KeepsNodes(old(Now()), Now()) && OnWay(old(Now()), Now(), vpn)
    {
      t := root;
      var level := 2;
      GrownNone(Now(), root);
      NodeNotZero(Now(), root);
      NoneMade(Now(), Now(), vpn);
      while level > 0
        invariant 0 <= level <= 2 && Valid() && Grown(old(Now()), Now(), root) && IsRoot(Now(), root)
        invariant IsNode(Now(), t) && uses[t].root == root && uses[t].path == Way(level, vpn)
        invariant t == TableAt(pages, root, level, vpn) && t != 0
        invariant !alloc || TableAt(old(pages), root, level, vpn) != 0 ==> Now() == old(Now())
        invariant |free| + Missing(old(pages), root, vpn) == |old(free)| + Missing(pages, root, vpn)
        invariant KeepsNodes(old(Now()), Now()) && OnWay(old(Now()), Now(), vpn)
      {
        ghost var m := Now();
        TopIndex(vpn);
        var c := WalkTurn(t, Px(level, vpn), alloc);
        GrownTwice(old(Now()), m, Now(), root);
        if Now() != m {
          OneMade(m, Now(), t, c, level, vpn);
        } else {
          NoneMade(m, Now(), vpn);
        }
        GrownKeepsNodes(m, Now(), root);
        OnWayThen(old(Now()), m, Now(), vpn);
        WalkedOn(m, Now(), root, t, level, vpn);
        MissingAfter(m, Now(), root, t, level, vpn, c);
        if c == 0 {
          return 0;
        }
        t := c;
        level := level - 1;
      }
    }

    /** A turn of walk that takes a page leaves one table less to make. */
    lemma MissingAfter(m: Mem, m': Mem, root: nat, t: nat, level: nat, vpn: nat, c: nat)
      requires 1 <= level <= 2 && t != 0 && TableAt(m.pages, root, level, vpn) == t
               && TableAt(m'.pages, root, level, vpn) == t
      requires TableAt(m'.pages, root, level - 1, vpn) == c && c == Child(m'.pages, t, Px(level, vpn))
      requires TableAt(m.pages, root, level - 1, vpn) == Child(m.pages, t, Px(level, vpn))
      requires m' == m || (Child(m.pages, t, Px(level, vpn)) == 0 != c && |m'.free| == |m.free| - 1
               && forall j :: Child(m'.pages, c, j) == 0)
      ensures |m'.free| + Missing(m.pages, root, vpn) == |m.free| + Missing(m'.pages, root, vpn)
    {
    }

    lemma WalkedOn(m: Mem, m': Mem, root: nat, t: nat, level: nat, vpn: nat)
      requires Inv(m) && Inv(m') && 1 <= level <= 2 && IsRoot(m, root) && Grown(m, m', root)
      requires IsNode(m, t) && m.uses[t].root == root && m.uses[t].path == Way(level, vpn)
      ensures IsRoot(m', root) && IsNode(m', t) && m'.uses[t] == m.uses[t]
      ensures TableAt(m'.pages, root, level - 1, vpn) == Child(m'.pages, t, Px(level, vpn))
      ensures TableAt(m.pages, root, level - 1, vpn) == Child(m.pages, t, Px(level, vpn))
      ensures TableAt(m'.pages, root, level, vpn) == t && TableAt(m.pages, root, level, vpn) == t != 0
      ensures Child(m'.pages, t, Px(level, vpn)) != 0 ==>
                var c := Child(m'.pages, t, Px(level, vpn));
                IsNode(m', c) && m'.uses[c].root == root && m'.uses[c].path == Way(level - 1, vpn)
    {
      NodeNotZero(m, t);
      NodeIsTable(m, t, level, vpn);
      NodeIsTable(m', t, level, vpn);
      if Child(m'.pages, t, Px(level, vpn)) != 0 {
        ChildIsNode(m', t, Px(level, vpn));
      }
    }

    // ----- mappages -----

    /** One turn of mappages. */
    method MapPage(root: nat, vpn: nat, ppn: nat, perm: Perm) returns (out: Outcome)
      requires Valid() && IsRoot(Now(), root) && vpn < MAXVPN && |uses| == |pages|
      requires 0 < ppn < |uses| && uses[ppn].Kept? && (vpn < TRAPFRAME ==> pages[ppn].Bytes?)
               && IsLeaf(LeafPte(ppn, perm))
      modifies this
      ensures Valid()
      ensures out.Panic? <==> Leaf(old(pages), root, vpn).v
      ensures out.Done? ==> MapsPage(old(Now()), Now(), root, vpn, LeafPte(ppn, perm))
      ensures out.NoMemory? ==> Grown(old(Now()), Now(), root) && free == [] && Missing(pages, root, vpn) > 0
      ensures out.Done? ==> |old(free)| == |free| + Missing(old(pages), root, vpn)
      ensures out.NoMemory? ==> |old(free)| < Missing(old(pages), root, vpn)
      ensures out.Panic? ==> Now() == old(Now())
      ensures KeepsNodes(old(Now()), Now()) && OnWay(old(Now()), Now(), vpn)
    {
      var t := Walk(root, vpn, true);
      ghost var m := Now();
      assert Leaf(pages, root, vpn) == Leaf(old(pages), root, vpn);
      if t == 0 {
        return NoMemory;
      }
      var i := Px(0, vpn);
      NodeFacts(Now(), t, i);
      if pages[t].ptes[i].v {
        return Panic;
      }
      ghost var use := if vpn < TRAPFRAME then Owned(t, i) else Kept;
      pages := pages[t := Ptes(pages[t].ptes[i := LeafPte(ppn, perm)])];
      uses := uses[ppn := use];
      NoneMade(m, Now(), vpn);
      OnWayThen(old(Now()), m, Now(), vpn);
      VpnOfWay(vpn);
      MapAfterWalk(old(Now()), m, Now(), root, vpn, t, LeafPte(ppn, perm), use);
      return Done;
    }

    /** The next turn of mappages, after a of n pages. */
    method MapNext(ghost m: Mem, root: nat, vpn: nat, ppn: nat, a: nat, ghost n: nat, perm: Perm) returns (out: Outcome)
      requires Valid() && IsRoot(m, root) && a < n && vpn + n <= MAXVPN && IsLeaf(LeafPte(ppn, perm))
               && Spare(m, ppn, n)
      requires MapsRange(m, Now(), root, vpn, ppn, a, perm)
      modifies this
      ensures Valid() && MapsRange(m, Now(), root, vpn, ppn, if out.Done? then a + 1 else a, perm)
      ensures out.Panic? <==> Leaf(m.pages, root, vpn + a).v
      ensures out.NoMemory? ==> free == []
    {
      ghost var m1 := Now();
      NextToMap(m, m1, root, vpn, ppn, a, n, perm);
      out := MapPage(root, vpn + a, ppn + a, perm);
      if out.Done? {
        MapsOneMore(m, m1, Now(), root, vpn, ppn, a, n, perm);
      } else if out.NoMemory? {
        MapsThenGrows(m, m1, Now(), root, vpn, ppn, a, n, perm);
      }
    }

    /** mappages of n pages.  When it fails the first k of them are mapped. */
    method Mappages(root: nat, vpn: nat, n: nat, ppn: nat, perm: Perm) returns (out: Outcome, ghost k: nat)
      requires Valid() && IsRoot(Now(), root) && 0 < n && vpn + n <= MAXVPN && |uses| == |pages|
               && IsLeaf(LeafPte(ppn, perm))
      requires Spare(Now(), ppn, n)
      modifies this
      ensures Valid() && k <= n && (out.Done? <==> k == n) && MapsRange(old(Now()), Now(), root, vpn, ppn, k, perm)
      ensures out.NoMemory? ==> free == []
      ensures out.Panic? <==> k < n && Leaf(old(pages), root, vpn + k).v
      ensures Clear(old(Now()), root, vpn, k)
    {
      k := 0;
      ghost var m := Now();
      MapsNone(m, root, vpn, ppn, perm);
      var a := 0;
      while true
        invariant a == k < n && Valid() && MapsRange(m, Now(), root, vpn, ppn, a, perm)
        invariant Clear(m, root, vpn, a)
        decreases n - a
      {
        out := MapNext(m, root, vpn, ppn, a, n, perm);
        if !out.Done? {
          return;
        }
        ClearOneMore(m, root, vpn, a);
        k := k + 1;
        if a == n - 1 {
          return;
        }
        a := a + 1;
      }
    }

    // ----- uvmunmap -----

    /** kfree of the page and *pte = 0. */
    method UnmapFree(root: nat, vpn: nat, t: nat, p: nat)
      requires Valid() && IsRoot(Now(), root) && vpn < TRAPFRAME && SlotIs(Now(), root, vpn, t, p)
      modifies this
      ensures Valid() && Unmaps(old(Now()), Now(), root, vpn, vpn + 1, Free)
    {
      ghost var m := Now();
      ghost var m1 := Mapped(m, t, Px(0, vpn), Null(), p, Kept);
      NullDone(m, m1, root, vpn, t, p);
      forall q: nat ensures MappedHere(m, q, root, vpn) <==> q == p {
        OneMapped(m, root, vpn, t, p, q);
      }
      Kfree(p);
      pages := pages[t := Ptes(pages[t].ptes[Px(0, vpn) := Null()])];
      assert Now() == Freed(m1, p);
      FreeDone(m, m1, Now(), root, vpn, p);
    }

    /** One turn of uvmunmap. */
    method UnmapPage(root: nat, vpn: nat, doFree: bool)
      requires Valid() && IsRoot(Now(), root) && vpn < MAXVPN && |uses| == |pages| && (doFree ==> vpn < TRAPFRAME)
      modifies this
      ensures Valid() && Unmaps(old(Now()), Now(), root, vpn, vpn + 1, if doFree then Free else Kept)
    {
      var t := Walk(root, vpn, false);
      ghost var m := Now();
      if t == 0 {
        UnmapsNothing(m, root, vpn, if doFree then Free else Kept);
        return;
      }
      var i := Px(0, vpn);
      NodeFacts(m, t, i);
      if !pages[t].ptes[i].v {
        UnmapsNothing(m, root, vpn, if doFree then Free else Kept);
        return;
      }
      var p := pages[t].ptes[i].ppn;
      EntryInRange(m, t, i);
      if doFree {
        UnmapFree(root, vpn, t, p);
      } else {
        pages := pages[t := Ptes(pages[t].ptes[i := Null()])];
        uses := uses[p := if vpn < TRAPFRAME then Kept else uses[p]];
        NullDone(m, Now(), root, vpn, t, p);
      }
    }

    lemma EntryInRange(m: Mem, t: nat, i: nat)
      requires Inv(m) && LeafSlot(m, t, i) && Entry(m.pages, t, i).v
      ensures 0 < Entry(m.pages, t, i).ppn < |m.uses|
    {
      assert Open(0, m);
      assert EntryOk(m, t, i, Entry(m.pages, t, i));
    }

    /** uvmunmap of npages pages: exactly these are unmapped, and with doFree exactly their pages are freed. */
    method Uvmunmap(root: nat, vpn: nat, npages: nat, doFree: bool)
      requires Valid() && IsRoot(Now(), root) && vpn + npages <= MAXVPN && |uses| == |pages|
      requires doFree ==> vpn + npages <= TRAPFRAME
      modifies this
      ensures Valid() && Unmaps(old(Now()), Now(), root, vpn, vpn + npages, if doFree then Free else Kept)
    {
      ghost var m, use := Now(), if doFree then Free else Kept;
      UnmapsNone(m, root, vpn, use);
      var a := vpn;
      while a < vpn + npages
        invariant vpn <= a <= vpn + npages && Valid() && Unmaps(m, Now(), root, vpn, a, use) && IsRoot(Now(), root)
                  && |uses| == |pages|
      {
        ghost var m1 := Now();
        UnmapPage(root, a, doFree);
        UnmapsMore(m, m1, Now(), root, vpn, a, a + 1, use);
        a := a + 1;
      }
    }
  }
}
