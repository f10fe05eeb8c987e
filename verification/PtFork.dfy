/** Address spaces as a whole: proc_pagetable, uvmfree, uvmcopy and what fork gives back when it fails. */
module PtFork {
  import opened PtModel
  import opened PtSteps
  import opened PtCode
  import opened PtUser
  import opened PtFree

  // ----- uvmfree -----

  lemma NothingLeft(m: Mem, m1: Mem, root: nat, n: nat)
    requires IsRoot(m, root) && MapsBelow(m, root, n) && Unmaps(m, m1, root, 0, n, Free) && n <= MAXVPN
    ensures MapsBelow(m1, root, 0) && IsRoot(m1, root)
  {
    forall v: nat | 0 <= v < MAXVPN ensures !Leaf(m1.pages, root, v).v {
      assert v < n || !Leaf(m.pages, root, v).v;
    }
  }

  /** uvmfree of a tree that maps nothing from its size on: all its pages are freed, without a panic. */
  method Uvmfree(k: Kernel, root: nat, sz: nat) returns (ok: bool)
    requires k.Valid() && IsRoot(k.Now(), root) && sz <= MAXSZ && |k.uses| == |k.pages|
             && MapsBelow(k.Now(), root, Pages(sz))
    modifies k
    ensures ok && k.Valid() && TreeFreed(old(k.Now()), k.Now(), root)
  {
    ghost var m := k.Now();
    UnmapsNone(m, root, 0, Free);
    PagesMonotone(sz, MAXSZ);
    PagesOfPages(TRAPFRAME);
    if sz > 0 {
      k.Uvmunmap(root, 0, Pages(sz), true);
    }
    ghost var m1 := k.Now();
    NothingLeft(m, m1, root, Pages(sz));
    NothingMapped(m1, root);
    ok := Freewalk(k, root);
    TreeIsFreed(m, m1, k.Now(), root, Pages(sz));
  }

  // ----- building a tree and taking it down again -----

  /** A new tree has been built from free pages; nothing else changed. */
  ghost predicate Built(m: Mem, m': Mem, root: nat) {
    match m'
    case Mem(_, _, _) =>
      && |m.uses| == |m.pages| == |m'.pages| == |m'.uses| && root < |m.uses| && m.uses[root].Free? && IsRoot(m', root)
      && (forall p :: 0 <= p < |m.uses| ==> m'.uses[p] == m.uses[p] || (m.uses[p].Free? && Belongs(m', root, p)))
      && (forall p :: 0 <= p < |m.uses| && (m.uses[p].Owned? || m.uses[p].Kept?) ==> m'.pages[p] == m.pages[p])
      && SameTrees(m, m')
  }

  lemma {:induction false} RootIsNode(m: Mem, u: nat)
    requires Inv(m) && IsNode(m, u)
    ensures IsNode(m, m.uses[u].root)
    decreases |m.uses[u].path|
  {
    if m.uses[u].path == [] {
      RootOf(m, u);
    } else {
      UpOf(m, u);
      RootIsNode(m, m.uses[u].up);
    }
  }

  lemma NewTreeIsNew(m: Mem, m': Mem, root: nat, p: nat)
    requires Inv(m) && Built(m, m', root) && p < |m.uses| && m'.uses[p] == m.uses[p]
    ensures !Belongs(m', root, p)
  {
    if Under(m', root, p) {
      RootIsNode(m, p);
    } else if MappedIn(m', p, root, 0, TRAPFRAME) {
      OwnedFacts(m, p);
      RootIsNode(m, m.uses[p].t);
    }
  }

  /** Taking the tree down restores the use of every page. */
  lemma BuiltThenFreed(m: Mem, m1: Mem, m2: Mem, root: nat)
    requires Inv(m) && Built(m, m1, root) && TreeFreed(m1, m2, root)
    ensures m2.uses == m.uses && SameTrees(m, m2)
    ensures forall p :: 0 <= p < |m.uses| && (m.uses[p].Owned? || m.uses[p].Kept?) ==> m2.pages[p] == m.pages[p]
  {
    forall p | 0 <= p < |m.uses| ensures m2.uses[p] == m.uses[p] {
      if m1.uses[p] == m.uses[p] {
        NewTreeIsNew(m, m1, root, p);
      }
    }
    forall p | 0 <= p < |m.uses| && (m.uses[p].Owned? || m.uses[p].Kept?) ensures m2.pages[p] == m.pages[p] {
      NewTreeIsNew(m, m1, root, p);
    }
    forall r: nat, v: nat | IsRoot(m, r) && v < MAXVPN ensures Leaf(m2.pages, r, v) == Leaf(m.pages, r, v) {
      assert IsRoot(m1, r);
    }
  }

  lemma BuiltThenGrows(m: Mem, m1: Mem, m2: Mem, root: nat)
    requires Inv(m1) && Inv(m2) && Built(m, m1, root) && Grown(m1, m2, root)
    ensures Built(m, m2, root)
  {
    forall p | 0 <= p < |m.uses| ensures m2.uses[p] == m.uses[p] || (m.uses[p].Free? && Belongs(m2, root, p)) {
      if MappedIn(m1, p, root, 0, TRAPFRAME) {
        StaysMapped(m1, m2, root, 0, TRAPFRAME, TRAPFRAME, p);
      }
    }
    forall r: nat, v: nat | IsRoot(m, r) && v < MAXVPN ensures Leaf(m2.pages, r, v) == Leaf(m.pages, r, v) {
      assert IsRoot(m1, r);
    }
  }

  lemma NotRootYet(m: Mem, root: nat, r: nat)
    requires root < |m.uses| && m.uses[root].Free? && IsRoot(m, r)
    ensures r != root
  {
  }

  /** Mapping the trampoline or the trapframe, which stay with their keepers. */
  lemma BuiltThenMaps(m: Mem, m1: Mem, m2: Mem, root: nat, vpn: nat, e: Pte)
    requires Inv(m1) && Inv(m2) && Built(m, m1, root) && MapsPage(m1, m2, root, vpn, e) && vpn >= TRAPFRAME
             && m1.uses[e.ppn].Kept?
    ensures Built(m, m2, root)
  {
    forall p | 0 <= p < |m.uses| ensures m2.uses[p] == m.uses[p] || (m.uses[p].Free? && Belongs(m2, root, p)) {
      if MappedIn(m1, p, root, 0, TRAPFRAME) {
        StaysMapped(m1, m2, root, 0, TRAPFRAME, TRAPFRAME, p);
      }
    }
    forall r: nat, v: nat | IsRoot(m, r) && v < MAXVPN ensures Leaf(m2.pages, r, v) == Leaf(m.pages, r, v) {
      NotRootYet(m, root, r);
      assert IsRoot(m1, r);
    }
  }

  lemma BuiltThenUnmaps(m: Mem, m1: Mem, m2: Mem, root: nat, vpn: nat)
    requires Inv(m1) && Inv(m2) && Built(m, m1, root) && Unmaps(m1, m2, root, vpn, vpn + 1, Kept)
             && TRAPFRAME <= vpn < MAXVPN
    ensures Built(m, m2, root)
  {
    forall p | 0 <= p < |m.uses| ensures m2.uses[p] == m1.uses[p] {
      if MappedIn(m1, p, root, vpn, vpn + 1) {
        MappedAt(m1, root, vpn, p);
      }
    }
    forall p | 0 <= p < |m.uses| ensures m2.uses[p] == m.uses[p] || (m.uses[p].Free? && Belongs(m2, root, p)) {
      if MappedIn(m1, p, root, 0, TRAPFRAME) {
        StaysMapped(m1, m2, root, 0, TRAPFRAME, TRAPFRAME, p);
      }
    }
    forall r: nat, v: nat | IsRoot(m, r) && v < MAXVPN ensures Leaf(m2.pages, r, v) == Leaf(m.pages, r, v) {
      NotRootYet(m, root, r);
      assert IsRoot(m1, r);
    }
  }

  // ----- uvmcreate -----

  /** Page p becomes the root of an empty tree. */
  function NewRoot(m: Mem, p: nat): Mem
    requires p < |m.pages| == |m.uses|
  {
    Mem(m.pages[p := NullTable()], m.uses[p := Node(p, [], 0)], m.free)
  }

  lemma NewRootEntries(m: Mem, m': Mem, p: nat)
    requires p < |m.pages| == |m.uses| && m.uses[p].Kept? && m' == NewRoot(m, p)
    ensures forall u: nat :: IsNode(m', u) <==> IsNode(m, u) || u == p
    ensures forall u: nat, j: nat :: IsNode(m, u) ==> Entry(m'.pages, u, j) == Entry(m.pages, u, j)
    ensures forall j: nat :: Entry(m'.pages, p, j) == Null()
  {
  }

  lemma NewRootNodes(m: Mem, m': Mem, p: nat)
    requires Sized(m) && NodesOk(m) && 0 < p < |m.uses| && m.uses[p].Kept? && m' == NewRoot(m, p)
    ensures Sized(m') && NodesOk(m')
  {
    NewRootEntries(m, m', p);
    forall q: nat | IsNode(m', q) && m'.uses[q].path != [] ensures HangsFrom(m', q, m'.uses[q]) {
      assert HangsFrom(m, q, m.uses[q]);
    }
  }

  lemma NewRootRest(m: Mem, m': Mem, p: nat)
    requires Sized(m) && NodesOk(m) && EntriesOk(m) && OwnedOk(m) && 0 < p < |m.uses| && m.uses[p].Kept?
             && m' == NewRoot(m, p)
    ensures EntriesOk(m') && OwnedOk(m')
  {
    NewRootEntries(m, m', p);
    forall u, j | IsNode(m', u) && 0 <= j < ENTRIES ensures EntryOk(m', u, j, Entry(m'.pages, u, j)) {
      if u != p {
        assert EntryOk(m, u, j, Entry(m.pages, u, j));
      }
    }
    forall q | 0 <= q < |m'.uses| && m'.uses[q].Owned? ensures OwnedPage(m', q, m'.uses[q]) {
      assert OwnedPage(m, q, m.uses[q]);
    }
  }

  lemma RootKeeps(m: Mem, p: nat)
    requires Inv(m) && 0 < p < |m.uses| == |m.pages| && m.uses[p].Kept?
    ensures Inv(NewRoot(m, p)) && SameTrees(m, NewRoot(m, p)) && IsRoot(NewRoot(m, p), p)
    ensures forall v: nat :: Leaf(NewRoot(m, p).pages, p, v) == Null()
  {
    assert Open(0, m);
    var m' := NewRoot(m, p);
    NewRootNodes(m, m', p);
    NewRootRest(m, m', p);
    NewRootEntries(m, m', p);
    assert FreeOk(m');
    EntriesGiveTrees(m, m');
  }

  /** uvmcreate: an empty tree, or 0 without memory. */
  method Uvmcreate(k: Kernel) returns (root: nat)
    requires k.Valid() && |k.uses| == |k.pages|
    modifies k
    ensures k.Valid()
    ensures root == 0 ==> k.Now() == old(k.Now()) && k.free == []
    ensures root != 0 ==> Built(old(k.Now()), k.Now(), root) && MapsBelow(k.Now(), root, 0)
    ensures root != 0 ==> |k.free| == |old(k.free)| - 1 && forall v :: Missing(k.pages, root, v) == 2
  {
    root := k.Kalloc();
    if root == 0 {
      return;
    }
    ghost var m1 := k.Now();
    RootKeeps(m1, root);
    k.pages := k.pages[root := NullTable()];
    k.uses := k.uses[root := Node(root, [], 0)];
    forall r: nat, v: nat | IsRoot(old(k.Now()), r) && v < MAXVPN
      ensures Leaf(k.pages, r, v) == Leaf(old(k.pages), r, v)
    {
      assert IsRoot(m1, r);
    }
  }

  /** What a tree maps above user memory. */
  ghost predicate MapsKernelPages(m: Mem, root: nat, trampoline: nat, trapframe: nat) {
    && Leaf(m.pages, root, TRAMPOLINE) == LeafPte(trampoline, Perm(true, false, true, false))
    && Leaf(m.pages, root, TRAPFRAME) == LeafPte(trapframe, Perm(true, true, false, false))
  }

  /** Every page has the use it had, and what is in use holds what it held. */
  ghost predicate Restored(m: Mem, m': Mem) {
    match m'
    case Mem(_, _, _) =>
      && m'.uses == m.uses && |m'.pages| == |m.pages| == |m.uses| && SameTrees(m, m')
      && forall p :: 0 <= p < |m.uses| && (m.uses[p].Owned? || m.uses[p].Kept?) ==> m'.pages[p] == m.pages[p]
  }

  /** mappages of the trampoline or the trapframe into a tree being built. */
  method MapKernelPage(k: Kernel, root: nat, vpn: nat, ppn: nat, perm: Perm, ghost m: Mem) returns (ok: bool)
    requires k.Valid() && |k.uses| == |k.pages| && Built(m, k.Now(), root) && TRAPFRAME <= vpn < MAXVPN
             && !Leaf(k.pages, root, vpn).v
    requires 0 < ppn < |m.uses| && m.uses[ppn].Kept? && IsLeaf(LeafPte(ppn, perm))
    modifies k
    ensures k.Valid() && Built(m, k.Now(), root) && |k.uses| == |k.pages|
    ensures if ok then OneLeaf(old(k.Now()), k.Now(), root, vpn, LeafPte(ppn, perm))
            else SameTrees(old(k.Now()), k.Now())
    ensures ok ==> |old(k.free)| == |k.free| + Missing(old(k.pages), root, vpn)
    ensures !ok ==> |old(k.free)| < Missing(old(k.pages), root, vpn)
    ensures ok ==> TablesFor(old(k.pages), k.pages, root, vpn)
  {
    ghost var m1 := k.Now();
    var out := k.MapPage(root, vpn, ppn, perm);
    ok := out.Done?;
    if ok {
      TablesAfter(m1, k.Now(), root, vpn);
      BuiltThenMaps(m, m1, k.Now(), root, vpn, LeafPte(ppn, perm));
    } else {
      BuiltThenGrows(m, m1, k.Now(), root);
    }
  }

  /** uvmfree(pagetable, 0) of a tree that maps nothing. */
  method TakeDown(k: Kernel, root: nat, ghost m: Mem)
    requires k.Valid() && Inv(m) && |k.uses| == |k.pages| && Built(m, k.Now(), root) && MapsBelow(k.Now(), root, 0)
    modifies k
    ensures k.Valid() && Restored(m, k.Now())
  {
    ghost var m1 := k.Now();
    PagesOfPages(0);
    var ok := Uvmfree(k, root, 0);
    BuiltThenFreed(m, m1, k.Now(), root);
  }

  lemma EmptyStays(m: Mem, m': Mem, root: nat)
    requires IsRoot(m, root) && MapsBelow(m, root, 0) && SameTrees(m, m')
    ensures MapsBelow(m', root, 0)
  {
    forall v: nat | 0 <= v < MAXVPN ensures !Leaf(m'.pages, root, v).v {
      assert !Leaf(m.pages, root, v).v;
    }
  }

  lemma EmptyAgain(m: Mem, m1: Mem, m2: Mem, m3: Mem, root: nat, e: Pte)
    requires IsRoot(m, root) && MapsBelow(m, root, 0) && OneLeaf(m, m1, root, TRAMPOLINE, e) && SameTrees(m1, m2)
    requires Unmaps(m2, m3, root, TRAMPOLINE, TRAMPOLINE + 1, Kept)
    ensures MapsBelow(m3, root, 0)
  {
    forall v: nat | 0 <= v < MAXVPN ensures !Leaf(m3.pages, root, v).v {
      assert !Leaf(m.pages, root, v).v && IsRoot(m1, root) && IsRoot(m2, root);
    }
  }

  lemma KernelPagesMapped(m: Mem, m1: Mem, m2: Mem, root: nat, trampoline: nat, trapframe: nat)
    requires IsRoot(m, root) && MapsBelow(m, root, 0)
    requires OneLeaf(m, m1, root, TRAMPOLINE, LeafPte(trampoline, Perm(true, false, true, false)))
    requires OneLeaf(m1, m2, root, TRAPFRAME, LeafPte(trapframe, Perm(true, true, false, false)))
    ensures MapsKernelPages(m2, root, trampoline, trapframe) && Clear(m2, root, 0, TRAPFRAME)
  {
    assert IsRoot(m1, root);
    forall v: nat | 0 <= v < TRAPFRAME ensures !Leaf(m2.pages, root, v).v {
      assert !Leaf(m.pages, root, v).v;
    }
  }

  /** The second half of proc_pagetable: the tree with the trapframe mapped, or 0. */
  method MapTrapframe(k: Kernel, root: nat, trapframe: nat, ghost e: Pte, ghost m: Mem, ghost m1: Mem) returns (r: nat)
    requires k.Valid() && Inv(m) && |k.uses| == |k.pages| && Built(m, k.Now(), root) && root != 0
    requires IsRoot(m1, root) && MapsBelow(m1, root, 0) && OneLeaf(m1, k.Now(), root, TRAMPOLINE, e)
    requires 0 < trapframe < |m.uses| && m.uses[trapframe].Kept?
    modifies k
    ensures k.Valid() && (r == 0 || r == root)
    ensures r != 0 ==> Built(m, k.Now(), root)
    ensures r != 0 ==> OneLeaf(old(k.Now()), k.Now(), root, TRAPFRAME,
            LeafPte(trapframe, Perm(true, true, false, false)))
    ensures r == 0 ==> Restored(m, k.Now())
    ensures r != 0 ==> |old(k.free)| == |k.free| + Missing(old(k.pages), root, TRAPFRAME)
    ensures r == 0 ==> |old(k.free)| < Missing(old(k.pages), root, TRAPFRAME)
    ensures r != 0 ==> TablesFor(old(k.pages), k.pages, root, TRAPFRAME)
  {
    ghost var m2 := k.Now();
    assert Leaf(k.pages, root, TRAPFRAME) == Leaf(m1.pages, root, TRAPFRAME);
    var ok := MapKernelPage(k, root, TRAPFRAME, trapframe, Perm(true, true, false, false), m);
    r := root;
    if !ok {
      ghost var m3 := k.Now();
      k.Uvmunmap(root, TRAMPOLINE, 1, false);
      BuiltThenUnmaps(m, m3, k.Now(), root, TRAMPOLINE);
      EmptyAgain(m1, m2, m3, k.Now(), root, e);
      TakeDown(k, root, m);
      r := 0;
    }
  }

  /** The tree has the two tables of the trampoline and no others. */
  ghost predicate TopTables(pages: seq<Page>, root: nat) {
    forall v: nat :: v < MAXVPN ==>
      && (TableAt(pages, root, 0, v) != 0 <==> v / 512 == TRAMPOLINE / 512)
      && (TableAt(pages, root, 1, v) != 0 <==> v / 262144 == TRAMPOLINE / 262144)
  }

  lemma OnlyTopTables(pages: seq<Page>, pages1: seq<Page>, pages2: seq<Page>, root: nat)
    requires forall v :: Missing(pages, root, v) == 2
    requires TablesFor(pages, pages1, root, TRAMPOLINE) && TablesFor(pages1, pages2, root, TRAPFRAME)
    ensures TopTables(pages2, root)
  {
    assert TRAPFRAME / 512 == TRAMPOLINE / 512 && TRAPFRAME / 262144 == TRAMPOLINE / 262144;
    forall v: nat | v < MAXVPN
      ensures TableAt(pages2, root, 0, v) != 0 <==> v / 512 == TRAMPOLINE / 512
      ensures TableAt(pages2, root, 1, v) != 0 <==> v / 262144 == TRAMPOLINE / 262144
    {
      assert Missing(pages, root, v) == 2;
    }
  }

  /** The trapframe is next to the trampoline, in the same table. */
  lemma SameTopTable(pages: seq<Page>, root: nat)
    requires Leaf(pages, root, TRAMPOLINE).v
    ensures Missing(pages, root, TRAPFRAME) == 0
  {
    assert Px(2, TRAPFRAME) == Px(2, TRAMPOLINE) && Px(1, TRAPFRAME) == Px(1, TRAMPOLINE);
  }

  /** proc_pagetable: a tree that maps the trampoline and the trapframe only; without memory, the use of
      every page is what it was. */
  method ProcPagetable(k: Kernel, trampoline: nat, trapframe: nat) returns (root: nat)
    requires k.Valid() && |k.uses| == |k.pages|
    requires 0 < trampoline < |k.uses| && k.uses[trampoline].Kept? && 0 < trapframe < |k.uses|
             && k.uses[trapframe].Kept?
    modifies k
    ensures k.Valid()
    ensures root == 0 ==> Restored(old(k.Now()), k.Now())
    ensures root != 0 ==>
              && Built(old(k.Now()), k.Now(), root) && Clear(k.Now(), root, 0, TRAPFRAME)
              && MapsKernelPages(k.Now(), root, trampoline, trapframe)
    ensures (root == 0 <==> |old(k.free)| < 3) && (root != 0 ==> |k.free| == |old(k.free)| - 3)
    ensures root != 0 ==> TopTables(k.pages, root)
  {
    ghost var m := k.Now();
    root := Uvmcreate(k);
    if root == 0 {
      return;
    }
    ghost var m1 := k.Now();
    NodeNotZero(m1, root);
    var ok := MapKernelPage(k, root, TRAMPOLINE, trampoline, Perm(true, false, true, false), m);
    if !ok {
      EmptyStays(m1, k.Now(), root);
      TakeDown(k, root, m);
      return 0;
    }
    ghost var m2, tree := k.Now(), root;
    root := MapTrapframe(k, root, trapframe, LeafPte(trampoline, Perm(true, false, true, false)), m, m1);
    SameTopTable(m2.pages, tree);
    KernelPagesMapped(m1, m2, k.Now(), tree, trampoline, trapframe);
    if root != 0 {
      OnlyTopTables(m1.pages, m2.pages, k.pages, tree);
    }
  }

  // ----- uvmcopy -----

  function PermOf(e: Pte): Perm { Perm(e.r, e.w, e.x, e.u) }

  /** Page v of the new tree has the permissions and the bytes that page v of the old tree had. */
  ghost predicate CopiedPage(m: Mem, m': Mem, o: nat, n: nat, v: nat) {
    var e, e' := Leaf(m.pages, o, v), Leaf(m'.pages, n, v);
    if !e.v then e' == Null()
    else e' == LeafPte(e'.ppn, PermOf(e)) && e.ppn < |m.pages| && e'.ppn < |m'.uses| == |m'.pages|
         && m'.uses[e'.ppn].Owned? && m'.pages[e'.ppn] == m.pages[e.ppn]
  }

  ghost predicate CopiedTo(m: Mem, m': Mem, o: nat, n: nat, hi: nat) {
    match m'
    case Mem(_, _, _) => forall v :: 0 <= v < hi ==> CopiedPage(m, m', o, n, v)
  }

  lemma UserPage(m: Mem, root: nat, v: nat)
    requires Inv(m) && IsRoot(m, root) && v < TRAPFRAME && Leaf(m.pages, root, v).v
    ensures var e := Leaf(m.pages, root, v);
            e.ppn < |m.uses| == |m.pages| && m.uses[e.ppn].Owned? && FullPage(m.pages[e.ppn]) && IsLeaf(e)
            && m.uses[e.ppn] == Owned(TableAt(m.pages, root, 0, v), Px(0, v))
  {
    var t, i := TableAt(m.pages, root, 0, v), Px(0, v);
    TableIsNode(m, root, 0, v);
    VpnOfWay(v);
    assert Open(0, m);
    assert EntryOk(m, t, i, Entry(m.pages, t, i));
    assert OwnedPage(m, Entry(m.pages, t, i).ppn, m.uses[Entry(m.pages, t, i).ppn]);
  }

  lemma AcquiresSkip(m: Mem, m1: Mem, root: nat, lo: nat, v: nat)
    requires lo <= v && Acquires(m, m1, root, lo, v)
    ensures Acquires(m, m1, root, lo, v + 1)
  {
    forall q | 0 <= q < |m.uses|
      ensures || m1.uses[q] == m.uses[q]
              || (m.uses[q].Free? && m1.uses[q].Node? && m1.uses[q].root == root && m1.uses[q].path != [])
              || (m.uses[q].Free? && MappedIn(m1, q, root, lo, v + 1))
    {
      if MappedIn(m1, q, root, lo, v) {
        StaysMapped(m1, m1, root, lo, v, v + 1, q);
      }
    }
  }

  lemma CopiedMore(m: Mem, m1: Mem, m2: Mem, o: nat, n: nat, v: nat, p: nat, perm: Perm, content: Page)
    requires Inv(m) && IsRoot(m, o) && IsRoot(m1, n) && v < TRAPFRAME && CopiedTo(m, m1, o, n, v)
    requires Leaf(m.pages, o, v).v && perm == PermOf(Leaf(m.pages, o, v))
    requires Leaf(m.pages, o, v).ppn < |m.pages| && content == m.pages[Leaf(m.pages, o, v).ppn]
    requires Gains(m1, m2, n, v, p, perm, content)
    ensures CopiedTo(m, m2, o, n, v + 1)
  {
    assert CopiedPage(m, m2, o, n, v);
    forall w | 0 <= w < v + 1 ensures CopiedPage(m, m2, o, n, w) {
      if w < v {
        CopyStays(m, m1, m2, o, n, w, v, p, perm, content);
      }
    }
  }

  lemma CopyStays(m: Mem, m1: Mem, m2: Mem, o: nat, n: nat, w: nat, v: nat, p: nat, perm: Perm, content: Page)
    requires CopiedPage(m, m1, o, n, w) && w < v < MAXVPN && IsRoot(m1, n) && Gains(m1, m2, n, v, p, perm, content)
    ensures CopiedPage(m, m2, o, n, w)
  {
    assert Leaf(m2.pages, n, w) == Leaf(m1.pages, n, w);
  }

  lemma CopiedSkip(m: Mem, m1: Mem, o: nat, n: nat, v: nat)
    requires CopiedTo(m, m1, o, n, v) && !Leaf(m.pages, o, v).v && Leaf(m1.pages, n, v) == Null()
    ensures CopiedTo(m, m1, o, n, v + 1)
  {
    forall w | 0 <= w < v + 1 ensures CopiedPage(m, m1, o, n, w) {
      if w < v {
        assert CopiedPage(m, m1, o, n, w);
      }
    }
  }

  /** The pages below hi that the tree maps. */
  ghost function MappedBelow(pages: seq<Page>, root: nat, hi: nat): set<nat> {
    set v: nat | v < hi && Leaf(pages, root, v).v
  }

  lemma MappedMore(pages: seq<Page>, root: nat, v: nat, hi: nat)
    requires v < hi
    ensures v !in MappedBelow(pages, root, v)
    ensures MappedBelow(pages, root, v + 1)
         == if Leaf(pages, root, v).v then MappedBelow(pages, root, v) + {v} else MappedBelow(pages, root, v)
    ensures MappedBelow(pages, root, v + 1) <= MappedBelow(pages, root, hi)
  {
    var l, r := MappedBelow(pages, root, v + 1), MappedBelow(pages, root, v);
    if Leaf(pages, root, v).v {
      assert l == r + {v};
    } else {
      assert l == r;
    }
  }

  /** The entry that walk finds, without allocating. */
  method Lookup(k: Kernel, root: nat, vpn: nat) returns (e: Pte)
    requires k.Valid() && IsRoot(k.Now(), root) && vpn < MAXVPN && |k.uses| == |k.pages|
    modifies k
    ensures k.Now() == old(k.Now()) && e == Leaf(k.pages, root, vpn)
  {
    var t := k.Walk(root, vpn, false);
    if t == 0 {
      return Null();
    }
    k.NodeFacts(k.Now(), t, Px(0, vpn));
    return k.pages[t].ptes[Px(0, vpn)];
  }

  /** One turn of uvmcopy. */
  method CopyPage(k: Kernel, o: nat, n: nat, v: nat, ghost hi: nat, ghost m: Mem) returns (ok: bool)
    requires k.Valid() && Inv(m) && IsRoot(m, o) && IsRoot(m, n) && o != n && v < TRAPFRAME && |k.uses| == |k.pages|
    requires Acquires(m, k.Now(), n, 0, v) && CopiedTo(m, k.Now(), o, n, v) && !Leaf(m.pages, n, v).v
    requires v < hi && Paid(m, k.Now(), n, MappedBelow(m.pages, o, v))
    modifies k
    ensures k.Valid() && |k.uses| == |k.pages|
    ensures ok ==> Acquires(m, k.Now(), n, 0, v + 1) && CopiedTo(m, k.Now(), o, n, v + 1)
    ensures ok ==> Paid(m, k.Now(), n, MappedBelow(m.pages, o, v + 1))
    ensures !ok ==> Acquires(m, k.Now(), n, 0, v)
    ensures !ok ==> |m.free| < PagesNeeded(m.pages, n, MappedBelow(m.pages, o, hi))
  {
    ghost var m1 := k.Now();
    assert IsRoot(m1, o) && IsRoot(m1, n) && Leaf(m1.pages, o, v) == Leaf(m.pages, o, v)
           && Leaf(m1.pages, n, v) == Leaf(m.pages, n, v);
    var e := Lookup(k, o, v);
    MappedMore(m.pages, o, v, hi);
    if !e.v {
      AcquiresSkip(m, m1, n, 0, v);
      UnmappedIsNull(m, n, v);
      CopiedSkip(m, m1, o, n, v);
      return true;
    }
    UserPage(m, o, v);
    var p;
    ok, p := GainPage(k, n, v, k.pages[e.ppn], PermOf(e));
    if ok {
      AcquiresMore(m, m1, k.Now(), n, 0, v, p, PermOf(e), m.pages[e.ppn]);
      CopiedMore(m, m1, k.Now(), o, n, v, p, PermOf(e), m.pages[e.ppn]);
      PaysMore(m, m1, k.Now(), n, MappedBelow(m.pages, o, v), v);
    } else {
      CannotPay(m, m1, n, MappedBelow(m.pages, o, v), v, MappedBelow(m.pages, o, hi));
      AcquiresThenGrows(m, m1, k.Now(), n, 0, v);
    }
  }

  lemma ClearTo(m: Mem, root: nat, v: nat, hi: nat)
    requires v <= hi && Clear(m, root, 0, hi)
    ensures Clear(m, root, 0, v) && (v < hi ==> !Leaf(m.pages, root, v).v)
  {
  }

  /** uvmcopy: the new tree gets a copy of every page below sz, exactly when the free pages suffice for them and
      for the tables they lack; otherwise no user page is taken. */
  method Uvmcopy(k: Kernel, o: nat, n: nat, sz: nat) returns (ok: bool)
    requires k.Valid() && IsRoot(k.Now(), o) && IsRoot(k.Now(), n) && o != n && sz <= MAXSZ && |k.uses| == |k.pages|
    requires Clear(k.Now(), n, 0, TRAPFRAME)
    modifies k
    ensures k.Valid()
    ensures ok ==> Acquires(old(k.Now()), k.Now(), n, 0, Pages(sz)) && CopiedTo(old(k.Now()), k.Now(), o, n, Pages(sz))
    ensures !ok ==> Grown(old(k.Now()), k.Now(), n)
    ensures ok <==> |old(k.free)| >= PagesNeeded(old(k.pages), n, MappedBelow(old(k.pages), o, Pages(sz)))
    ensures ok ==> |k.free| == |old(k.free)| - PagesNeeded(old(k.pages), n, MappedBelow(old(k.pages), o, Pages(sz)))
  {
    ghost var m, hi := k.Now(), Pages(sz);
    PaidNothing(m, n);
    assert MappedBelow(m.pages, o, 0) == {};
    PagesMonotone(sz, MAXSZ);
    PagesOfPages(TRAPFRAME);
    AcquiresNone(m, n, 0);
    var i := 0;
    BelowSize(i, sz);
    while i * PGSIZE < sz
      invariant 0 <= i <= hi && k.Valid() && Acquires(m, k.Now(), n, 0, i) && CopiedTo(m, k.Now(), o, n, i)
                && |k.uses| == |k.pages|
      invariant (i * PGSIZE < sz <==> i < hi) && Paid(m, k.Now(), n, MappedBelow(m.pages, o, i))
      decreases hi - i
    {
      ClearTo(m, n, i, TRAPFRAME);
      var got := CopyPage(k, o, n, i, hi, m);
      if !got {
        ghost var m2 := k.Now();
        assert IsRoot(m2, n);
        k.Uvmunmap(n, 0, i, true);
        Released(m, m2, k.Now(), n, 0, i);
        return false;
      }
      i := i + 1;
      BelowSize(i, sz);
    }
    AllPaid(m, k.Now(), n, MappedBelow(m.pages, o, hi));
    return true;
  }
}
