/** allocproc, freeproc and kfork, as far as pages are concerned. */
module PtProc {
  import opened PtModel
  import opened PtSteps
  import opened PtCode
  import opened PtUser
  import opened PtFree
  import opened PtFork

  // ----- proc_freepagetable -----

  /** Unmapping the trampoline or the trapframe changes no page's use. */
  ghost predicate OnlyKernelLeaves(m: Mem, m': Mem, root: nat) {
    match m'
    case Mem(_, _, _) =>
      && m'.uses == m.uses && |m'.pages| == |m.pages| == |m.uses|
      && (forall p :: 0 <= p < |m.uses| && (m.uses[p].Owned? || m.uses[p].Kept?) ==> m'.pages[p] == m.pages[p])
      && (forall r: nat :: IsRoot(m, r) ==> IsRoot(m', r))
      && (forall r: nat, v: nat :: IsRoot(m, r) && v < MAXVPN && !(r == root && v >= TRAPFRAME) ==>
         Leaf(m'.pages, r, v) == Leaf(m.pages, r, v))
  }

  lemma KernelUnmap(m: Mem, m1: Mem, root: nat, vpn: nat)
    requires Inv(m) && IsRoot(m, root) && TRAPFRAME <= vpn < MAXVPN && Unmaps(m, m1, root, vpn, vpn + 1, Kept)
    ensures OnlyKernelLeaves(m, m1, root)
  {
    forall p | 0 <= p < |m.uses|
      ensures m1.uses[p] == m.uses[p]
      ensures m.uses[p].Owned? || m.uses[p].Kept? ==> m1.pages[p] == m.pages[p]
    {
      if MappedIn(m, p, root, vpn, vpn + 1) {
        MappedAt(m, root, vpn, p);
      }
    }
    assert m1.uses == m.uses;
  }

  lemma KernelLeavesTwice(m: Mem, m1: Mem, m2: Mem, root: nat)
    requires OnlyKernelLeaves(m, m1, root) && OnlyKernelLeaves(m1, m2, root)
    ensures OnlyKernelLeaves(m, m2, root)
  {
  }

  lemma FreedAfterKernelLeaves(m: Mem, m1: Mem, m2: Mem, root: nat)
    requires IsRoot(m, root) && OnlyKernelLeaves(m, m1, root) && TreeFreed(m1, m2, root)
    ensures TreeFreed(m, m2, root)
  {
    forall p: nat | p < |m.uses| ensures Belongs(m1, root, p) <==> Belongs(m, root, p) {
    }
    forall r: nat, v: nat | IsRoot(m, r) && r != root && v < MAXVPN
      ensures Leaf(m2.pages, r, v) == Leaf(m.pages, r, v)
    {
      assert IsRoot(m1, r);
    }
  }

  lemma BelowAfterUnmaps(m: Mem, m1: Mem, m2: Mem, root: nat, n: nat)
    requires IsRoot(m, root) && n <= TRAPFRAME && Clear(m, root, n, TRAPFRAME - n)
    requires Unmaps(m, m1, root, TRAMPOLINE, TRAMPOLINE + 1, Kept)
             && Unmaps(m1, m2, root, TRAPFRAME, TRAPFRAME + 1, Kept)
    ensures MapsBelow(m2, root, n)
  {
    assert IsRoot(m1, root);
    forall v: nat | n <= v < MAXVPN ensures !Leaf(m2.pages, root, v).v {
      assert v < TRAPFRAME ==> !Leaf(m.pages, root, v).v;
    }
  }

  /** proc_freepagetable: all pages of the tree are freed, but not what it maps above user memory. */
  method ProcFreepagetable(k: Kernel, root: nat, sz: nat) returns (ok: bool)
    requires k.Valid() && IsRoot(k.Now(), root) && sz <= MAXSZ && |k.uses| == |k.pages|
    requires Pages(sz) <= TRAPFRAME && Clear(k.Now(), root, Pages(sz), TRAPFRAME - Pages(sz))
    modifies k
    ensures ok && k.Valid() && TreeFreed(old(k.Now()), k.Now(), root)
  {
    ghost var m := k.Now();
    k.Uvmunmap(root, TRAMPOLINE, 1, false);
    ghost var m1 := k.Now();
    KernelUnmap(m, m1, root, TRAMPOLINE);
    k.Uvmunmap(root, TRAPFRAME, 1, false);
    ghost var m2 := k.Now();
    KernelUnmap(m1, m2, root, TRAPFRAME);
    KernelLeavesTwice(m, m1, m2, root);
    BelowAfterUnmaps(m, m1, m2, root, Pages(sz));
    ok := Uvmfree(k, root, sz);
    FreedAfterKernelLeaves(m, m2, k.Now(), root);
  }

  // ----- allocproc -----

  lemma RestoredAfterFree(m: Mem, m1: Mem, m2: Mem, m3: Mem, tf: nat)
    requires m.free != [] && m.free[0] == tf && tf < |m.uses| == |m.pages| && m.uses[tf].Free? && m1 == Taken(m)
    requires Restored(m1, m2) && m3 == Freed(m2, tf) && SameTrees(m, m1) && SameTrees(m2, m3)
    ensures Restored(m, m3)
  {
    forall r: nat, v: nat | IsRoot(m, r) && v < MAXVPN ensures Leaf(m3.pages, r, v) == Leaf(m.pages, r, v) {
      assert IsRoot(m1, r) && IsRoot(m2, r);
    }
    assert m3.uses == m.uses;
  }

  /** A trapframe page and a tree that maps it. */
  ghost predicate Prepared(m: Mem, m': Mem, tf: nat, root: nat) {
    && m.free != [] && m.free[0] == tf && 0 < tf < |m.uses| == |m.pages| && m.uses[tf].Free?
    && Inv(Taken(m)) && SameTrees(m, Taken(m)) && Built(Taken(m), m', root)
  }

  /** The pages of allocproc: a trapframe and a page table; without a vacant process or without memory, nothing has
      changed hands. */
  method Allocproc(k: Kernel, trampoline: nat, vacant: bool) returns (tf: nat, root: nat)
    requires k.Valid() && |k.uses| == |k.pages| && 0 < trampoline < |k.uses| && k.uses[trampoline].Kept?
    modifies k
    ensures k.Valid() && (root == 0 ==> Restored(old(k.Now()), k.Now()))
    ensures root != 0 ==>
              && Prepared(old(k.Now()), k.Now(), tf, root) && Clear(k.Now(), root, 0, TRAPFRAME)
              && MapsKernelPages(k.Now(), root, trampoline, tf)
    ensures root == 0 <==> !vacant || |old(k.free)| < 4
    ensures root != 0 ==> |k.free| == |old(k.free)| - 4 && TopTables(k.pages, root)
  {
    ghost var m := k.Now();
    root := 0;
    if !vacant {
      return 0, 0;
    }
    tf := k.Kalloc();
    if tf == 0 {
      return;
    }
    ghost var m1 := k.Now();
    root := ProcPagetable(k, trampoline, tf);
    if root == 0 {
      ghost var m2 := k.Now();
      k.Kfree(tf);
      RestoredAfterFree(m, m1, m2, k.Now(), tf);
    }
  }

  // ----- kfork -----

  lemma BuiltThenAcquires(m: Mem, m1: Mem, m2: Mem, root: nat, hi: nat)
    requires Inv(m1) && Inv(m2) && Built(m, m1, root) && Acquires(m1, m2, root, 0, hi) && hi <= TRAPFRAME
    ensures Built(m, m2, root)
  {
    forall p | 0 <= p < |m.uses| ensures m2.uses[p] == m.uses[p] || (m.uses[p].Free? && Belongs(m2, root, p)) {
      if MappedIn(m1, p, root, 0, TRAPFRAME) {
        StaysMapped(m1, m2, root, 0, TRAPFRAME, TRAPFRAME, p);
      }
      if MappedIn(m2, p, root, 0, hi) {
        StaysMapped(m2, m2, root, 0, hi, TRAPFRAME, p);
      }
    }
    forall r: nat, v: nat | IsRoot(m, r) && v < MAXVPN ensures Leaf(m2.pages, r, v) == Leaf(m.pages, r, v) {
      NotRootYet(m, root, r);
      assert IsRoot(m1, r);
    }
  }

  /** Freeing a page that the kernel keeps commutes with the building of a tree. */
  lemma BuiltWithoutFrame(m: Mem, m': Mem, root: nat, tf: nat)
    requires Inv(m) && Inv(m') && Built(m, m', root) && 0 < tf < |m.uses| && m.uses[tf].Kept? && m'.uses[tf].Kept?
    ensures Inv(Freed(m, tf)) && Inv(Freed(m', tf)) && Built(Freed(m, tf), Freed(m', tf), root)
            && SameTrees(m', Freed(m', tf))
    ensures SameTrees(m, Freed(m, tf))
  {
    FreeKeeps(m, tf);
    FreeKeeps(m', tf);
    var s, s' := Freed(m, tf), Freed(m', tf);
    forall p | 0 <= p < |s.uses| ensures s'.uses[p] == s.uses[p] || (s.uses[p].Free? && Belongs(s', root, p)) {
      if p != tf && MappedIn(m', p, root, 0, TRAPFRAME) {
        StaysMapped(m', s', root, 0, TRAPFRAME, TRAPFRAME, p);
      }
    }
    forall r: nat | IsRoot(s, r) ensures IsRoot(m, r) && IsRoot(s', r) {
      assert r != tf;
    }
    forall r: nat, v: nat | IsRoot(s, r) && v < MAXVPN ensures Leaf(s'.pages, r, v) == Leaf(s.pages, r, v) {
      assert IsRoot(m, r) && IsRoot(m', r);
    }
  }

  lemma RestoredAfterFork(m: Mem, s: Mem, tf: nat, s2: Mem)
    requires m.free != [] && m.free[0] == tf && tf < |m.uses| == |m.pages| && m.uses[tf].Free? && SameTrees(m, Taken(m))
    requires s == Freed(Taken(m), tf) && SameTrees(Taken(m), s)
    requires s2.uses == s.uses && |s2.pages| == |s.pages| && SameTrees(s, s2)
    requires forall p :: 0 <= p < |s.uses| && (s.uses[p].Owned? || s.uses[p].Kept?) ==> s2.pages[p] == s.pages[p]
    ensures Restored(m, s2)
  {
    assert s.uses == m.uses;
    forall r: nat, v: nat | IsRoot(m, r) && v < MAXVPN ensures Leaf(s2.pages, r, v) == Leaf(m.pages, r, v) {
      assert IsRoot(Taken(m), r) && IsRoot(s, r);
    }
  }

  /** freeproc of a process whose memory could not be copied: its size is still 0. */
  method Freeproc(k: Kernel, tf: nat, root: nat, ghost m: Mem)
    requires k.Valid() && Inv(m) && |k.uses| == |k.pages| && Prepared(m, k.Now(), tf, root)
             && Clear(k.Now(), root, 0, TRAPFRAME)
    modifies k
    ensures k.Valid() && Restored(m, k.Now())
  {
    ghost var m1, m3 := Taken(m), k.Now();
    assert m1.uses[tf].Kept? && m3.uses[tf].Kept?;
    BuiltWithoutFrame(m1, m3, root, tf);
    k.Kfree(tf);
    ghost var m4 := k.Now();
    PagesOfPages(0);
    ClearStays(m3, m4, root);
    var ok := ProcFreepagetable(k, root, 0);
    BuiltThenFreed(Freed(m1, tf), m4, k.Now(), root);
    RestoredAfterFork(m, Freed(m1, tf), tf, k.Now());
  }

  lemma ClearStays(m: Mem, m': Mem, root: nat)
    requires IsRoot(m, root) && Clear(m, root, 0, TRAPFRAME) && SameTrees(m, m')
    ensures Clear(m', root, 0, TRAPFRAME)
  {
    forall v | 0 <= v < TRAPFRAME ensures !Leaf(m'.pages, root, v).v {
      assert !Leaf(m.pages, root, v).v;
    }
  }

  /** What the child gets is what the parent had before the call. */
  lemma CopiedFromParent(m: Mem, m2: Mem, m3: Mem, tf: nat, o: nat, n: nat, hi: nat)
    requires Inv(m) && IsRoot(m, o) && Prepared(m, m2, tf, n) && CopiedTo(m2, m3, o, n, hi) && hi <= TRAPFRAME
    ensures CopiedTo(m, m3, o, n, hi)
  {
    var m1 := Taken(m);
    assert IsRoot(m1, o);
    forall v | 0 <= v < hi ensures CopiedPage(m, m3, o, n, v) {
      assert CopiedPage(m2, m3, o, n, v);
      assert Leaf(m2.pages, o, v) == Leaf(m1.pages, o, v) == Leaf(m.pages, o, v);
      if Leaf(m.pages, o, v).v {
        UserPage(m, o, v);
      }
    }
  }

  /** The free pages that kfork takes for a parent that maps the pages in `want`: the trapframe, the root and its
      two tables, the copies, and the other tables that these need. */
  ghost function ForkNeeds(want: set<nat>): nat {
    4 + |want| + |OtherLows(want)| + |OtherHighs(want)|
  }

  /** The tables of either level that cover pages in `want`, except those of the trampoline. */
  ghost function OtherLows(want: set<nat>): set<nat> {
    set v | v in want && v / 512 != TRAMPOLINE / 512 :: v / 512
  }

  ghost function OtherHighs(want: set<nat>): set<nat> {
    set v | v in want && v / 262144 != TRAMPOLINE / 262144 :: v / 262144
  }

  lemma CopyNeeds(pages: seq<Page>, root: nat, want: set<nat>)
    requires TopTables(pages, root) && forall v :: v in want ==> v < MAXVPN
    ensures PagesNeeded(pages, root, want) + 4 == ForkNeeds(want)
  {
    assert Lows(pages, root, want) == OtherLows(want);
    assert Highs(pages, root, want) == OtherHighs(want);
  }

  lemma SameMapped(m: Mem, m': Mem, root: nat, hi: nat)
    requires hi <= MAXVPN && forall v: nat :: v < MAXVPN ==> Leaf(m'.pages, root, v) == Leaf(m.pages, root, v)
    ensures MappedBelow(m'.pages, root, hi) == MappedBelow(m.pages, root, hi)
  {
  }

  /** From page n on a tree maps the trampoline and the trapframe and nothing else. */
  ghost predicate MapsAbove(m: Mem, root: nat, n: nat, trampoline: nat, tf: nat) {
    match m
    case Mem(_, _, _) =>
      && MapsKernelPages(m, root, trampoline, tf)
      && forall v :: n <= v < MAXVPN && v != TRAMPOLINE && v != TRAPFRAME ==> !Leaf(m.pages, root, v).v
  }

  lemma AboveTheCopy(m: Mem, m': Mem, root: nat, n: nat, trampoline: nat, tf: nat)
    requires IsRoot(m, root) && n <= TRAPFRAME && Clear(m, root, 0, TRAPFRAME) && Acquires(m, m', root, 0, n)
    requires MapsKernelPages(m, root, trampoline, tf)
    ensures MapsAbove(m', root, n, trampoline, tf)
  {
    forall v | n <= v < MAXVPN ensures Leaf(m'.pages, root, v) == Leaf(m.pages, root, v) {
    }
    assert forall v :: n <= v < MAXVPN && v != TRAMPOLINE && v != TRAPFRAME ==> !Leaf(m'.pages, root, v).v;
  }

  /** The pages of kfork: the child has a copy of every page of the parent below sz, exactly when a process is vacant
      and the free pages suffice; otherwise every page has the use it had. */
  method Kfork(k: Kernel, trampoline: nat, vacant: bool, parent: nat, sz: nat) returns (tf: nat, child: nat)
    requires k.Valid() && |k.uses| == |k.pages| && 0 < trampoline < |k.uses| && k.uses[trampoline].Kept?
    requires IsRoot(k.Now(), parent) && sz <= MAXSZ
    modifies k
    ensures k.Valid()
    ensures child == 0 ==> Restored(old(k.Now()), k.Now())
    ensures child == 0 <==> !vacant || |old(k.free)| < ForkNeeds(MappedBelow(old(k.pages), parent, Pages(sz)))
    ensures child != 0 ==>
              && Prepared(old(k.Now()), k.Now(), tf, child)
              && CopiedTo(old(k.Now()), k.Now(), parent, child, Pages(sz))
              && MapsAbove(k.Now(), child, Pages(sz), trampoline, tf)
    ensures child != 0 ==> |k.free| == |old(k.free)| - ForkNeeds(MappedBelow(old(k.pages), parent, Pages(sz)))
  {
    ghost var m := k.Now();
    tf, child := Allocproc(k, trampoline, vacant);
    if child == 0 {
      return;
    }
    ghost var m2 := k.Now();
    assert IsRoot(Taken(m), parent) && IsRoot(m2, parent) && parent != child;
    PagesMonotone(sz, MAXSZ);
    PagesOfPages(TRAPFRAME);
    SameMapped(m, m2, parent, Pages(sz));
    CopyNeeds(m2.pages, child, MappedBelow(m2.pages, parent, Pages(sz)));
    var ok := Uvmcopy(k, parent, child, sz);
    if ok {
      BuiltThenAcquires(Taken(m), m2, k.Now(), child, Pages(sz));
      CopiedFromParent(m, m2, k.Now(), tf, parent, child, Pages(sz));
      AboveTheCopy(m2, k.Now(), child, Pages(sz), trampoline, tf);
    } else {
      BuiltThenGrows(Taken(m), m2, k.Now(), child);
      ClearStays(m2, k.Now(), child);
      Freeproc(k, tf, child, m);
      child := 0;
    }
  }

  /** A kernel that has booted and created a process can fork it. */
  method BootAndFork(npages: nat) returns (k: Kernel, root: nat, child: nat)
    requires npages >= 10
    ensures fresh(k) && k.Valid() && child != 0 && root != 0 && child != root
  {
    k := new Kernel(2, npages);
    var tf, tf';
    tf, root := Allocproc(k, 1, true);
    PagesOfPages(0);
    assert MappedBelow(k.pages, root, 0) == {};
    NothingToCopy();
    tf', child := Kfork(k, 1, true, root, 0);
  }

  lemma NothingToCopy()
    ensures ForkNeeds({}) == 4
  {
    assert OtherLows({}) == {} && OtherHighs({}) == {};
  }

  /** Pages with the same use are free alike: the free list holds the same pages. */
  lemma SameFreePages(m: Mem, m': Mem)
    requires Inv(m) && Inv(m') && Restored(m, m')
    ensures forall p :: p in m'.free <==> p in m.free
  {
    assert Open(0, m) && Open(0, m');
    forall p ensures p in m'.free <==> p in m.free {
      if p in m.free {
        var i :| 0 <= i < |m.free| && m.free[i] == p;
        assert m'.uses[p].Free?;
      }
      if p in m'.free {
        var i :| 0 <= i < |m'.free| && m'.free[i] == p;
        assert m.uses[p].Free?;
      }
    }
  }
}
