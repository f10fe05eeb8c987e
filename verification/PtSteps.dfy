/** The elementary changes of physical memory, and what each keeps. */
module PtSteps {
  import opened PtModel

  function Junk(b: byte): (p: Page)
    ensures p.Bytes? && |p.bytes| == PGSIZE
  {
    Bytes(seq(PGSIZE, _ => b))
  }

  function NullTable(): (p: Page)
    ensures p.Ptes? && |p.ptes| == ENTRIES && forall i :: 0 <= i < ENTRIES ==> p.ptes[i] == Null()
  {
    Ptes(seq(ENTRIES, _ => Null()))
  }

  // ----- what stays -----

  /** Every tree maps every page as before. */
  ghost predicate SameTrees(m: Mem, m': Mem) {
    && (forall r: nat :: IsRoot(m, r) ==> IsRoot(m', r))
    && (forall r: nat, v: nat :: IsRoot(m, r) && v < MAXVPN ==> Leaf(m'.pages, r, v) == Leaf(m.pages, r, v))
  }

  // ----- kalloc and kfree -----

  function Taken(m: Mem): Mem
    requires m.free != [] && m.free[0] < |m.uses| == |m.pages|
  {
    Mem(m.pages[m.free[0] := Junk(5)], m.uses[m.free[0] := Kept], m.free[1..])
  }

  /** A change of one page that is not a table, with or without a change of its use. */
  ghost predicate OtherPage(m: Mem, m': Mem, p: nat) {
    && p < |m.uses| == |m.pages| && !m.uses[p].Node? && !m.uses[p].Owned?
    && |m'.uses| == |m.uses| && |m'.pages| == |m.pages| && !m'.uses[p].Node? && !m'.uses[p].Owned?
    && (forall q :: 0 <= q < |m.uses| && q != p ==> m'.uses[q] == m.uses[q] && m'.pages[q] == m.pages[q])
    && m'.pages[p].Bytes? && |m'.pages[p].bytes| == PGSIZE
  }

  lemma OtherPageNodes(m: Mem, m': Mem, p: nat)
    requires OtherPage(m, m', p) && NodesOk(m)
    ensures forall t: nat :: IsNode(m', t) <==> IsNode(m, t)
    ensures forall t: nat, i: nat :: IsNode(m, t) ==> Entry(m'.pages, t, i) == Entry(m.pages, t, i)
  {
  }

  lemma OtherPageKeeps(m: Mem, m': Mem, p: nat)
    requires OtherPage(m, m', p) && Sized(m) && NodesOk(m) && EntriesOk(m) && OwnedOk(m)
             && (p == 0 ==> m'.uses[p].Kept?)
    ensures Sized(m') && NodesOk(m') && EntriesOk(m') && OwnedOk(m')
  {
    OtherPageNodes(m, m', p);
    forall t: nat | IsNode(m', t) && m'.uses[t].path != [] ensures HangsFrom(m', t, m'.uses[t]) {
      assert HangsFrom(m, t, m.uses[t]);
    }
    forall t, i | IsNode(m', t) && 0 <= i < ENTRIES ensures EntryOk(m', t, i, Entry(m'.pages, t, i)) {
      assert EntryOk(m, t, i, Entry(m.pages, t, i));
    }
  }

  /** The entries of all page-table pages are the same. */
  ghost predicate SameEntries(m: Mem, m': Mem) {
    && (forall t: nat :: IsNode(m, t) ==> IsNode(m', t) && m'.uses[t] == m.uses[t])
    && (forall t: nat, i: nat :: IsNode(m, t) ==> Entry(m'.pages, t, i) == Entry(m.pages, t, i))
  }

  lemma SameTable(m: Mem, m': Mem, r: nat, level: nat, v: nat)
    requires Inv(m) && IsRoot(m, r) && SameEntries(m, m') && level <= 2
    ensures TableAt(m'.pages, r, level, v) == TableAt(m.pages, r, level, v)
  {
    if level < 2 && TableAt(m.pages, r, 1, v) != 0 {
      TableIsNode(m, r, 1, v);
    }
  }

  lemma EntriesGiveTrees(m: Mem, m': Mem)
    requires Inv(m) && SameEntries(m, m')
    ensures SameTrees(m, m')
  {
    forall r: nat, v: nat | IsRoot(m, r) && v < MAXVPN ensures Leaf(m'.pages, r, v) == Leaf(m.pages, r, v) {
      SameTable(m, m', r, 0, v);
      if TableAt(m.pages, r, 0, v) != 0 {
        TableIsNode(m, r, 0, v);
      }
    }
  }

  lemma TakeKeeps(m: Mem)
    requires Inv(m) && m.free != []
    ensures 0 < m.free[0] < |m.uses| == |m.pages| && m.uses[m.free[0]].Free?
    ensures Inv(Taken(m)) && SameTrees(m, Taken(m)) && m.free[0] !in Taken(m).free
  {
    assert Open(0, m);
    var p, m' := m.free[0], Taken(m);
    assert m.uses[p].Free?;
    OtherPageKeeps(m, m', p);
    OtherPageNodes(m, m', p);
    TakeList(m);
    EntriesGiveTrees(m, m');
  }

  lemma TakeList(m: Mem)
    requires FreeOk(m) && m.free != []
    ensures FreeOk(Taken(m)) && m.free[0] !in m.free[1..]
  {
    var m' := Taken(m);
    forall q | 0 <= q < |m'.uses| && m'.uses[q].Free? ensures q in m'.free {
      assert q in m.free && q != m.free[0];
    }
    forall k | 0 <= k < |m'.free| ensures m'.free[k] < |m'.uses| && m'.uses[m'.free[k]].Free? {
      assert m'.free[k] == m.free[k + 1];
    }
  }

  function Freed(m: Mem, p: nat): Mem
    requires p < |m.uses| == |m.pages|
  {
    Mem(m.pages[p := Junk(1)], m.uses[p := Free], [p] + m.free)
  }

  lemma FreeList(m: Mem, p: nat)
    requires FreeOk(m) && p < |m.uses| && !m.uses[p].Free?
    ensures FreeOk(Freed(m, p))
  {
    var m' := Freed(m, p);
    forall q | 0 <= q < |m'.uses| && m'.uses[q].Free? ensures q in m'.free {
      assert q == p || q in m.free;
    }
    forall k | 0 <= k < |m'.free| ensures m'.free[k] < |m'.uses| && m'.uses[m'.free[k]].Free? {
      assert k > 0 ==> m'.free[k] == m.free[k - 1];
    }
  }

  lemma FreeKeeps(m: Mem, p: nat)
    requires Inv(m) && 0 < p < |m.uses| == |m.pages| && m.uses[p].Kept?
    ensures Inv(Freed(m, p)) && SameTrees(m, Freed(m, p))
  {
    assert Open(0, m);
    OtherPageKeeps(m, Freed(m, p), p);
    OtherPageNodes(m, Freed(m, p), p);
    FreeList(m, p);
    EntriesGiveTrees(m, Freed(m, p));
  }

  // ----- a new page-table page -----

  function WithEntry(pages: seq<Page>, t: nat, i: nat, e: Pte): seq<Page>
    requires t < |pages| && pages[t].Ptes? && i < |pages[t].ptes|
  {
    pages[t := Ptes(pages[t].ptes[i := e])]
  }

  /** Page c becomes the page-table page below entry i of t. */
  function Hung(m: Mem, t: nat, i: nat, c: nat): Mem
    requires t < |m.pages| == |m.uses| && c < |m.pages| && c != t
    requires m.pages[t].Ptes? && i < |m.pages[t].ptes| && m.uses[t].Node?
  {
    Mem(WithEntry(m.pages[c := NullTable()], t, i, Pointer(c)),
        m.uses[c := Node(m.uses[t].root, m.uses[t].path + [i], t)], m.free)
  }

  /** When c can be hung. */
  ghost predicate CanHang(m: Mem, t: nat, i: nat, c: nat) {
    && IsNode(m, t) && |m.uses[t].path| < 2 && i < ENTRIES && 0 < c < |m.uses| && m.uses[c].Kept?
    && !Entry(m.pages, t, i).v && (m.uses[t].path == [] ==> i < ENTRIES / 2)
  }

  lemma HungEntries(m: Mem, t: nat, i: nat, c: nat)
    requires Sized(m) && NodesOk(m) && CanHang(m, t, i, c)
    ensures var m' := Hung(m, t, i, c);
            && (forall u: nat :: IsNode(m', u) <==> IsNode(m, u) || u == c)
            && (forall u: nat, j: nat :: IsNode(m, u) && (u, j) != (t, i) ==>
               Entry(m'.pages, u, j) == Entry(m.pages, u, j))
            && Entry(m'.pages, t, i) == Pointer(c) && (forall j: nat :: Entry(m'.pages, c, j) == Null())
  {
  }

  lemma HungHangs(m: Mem, m': Mem, t: nat, i: nat, c: nat, p: nat)
    requires Sized(m) && NodesOk(m) && CanHang(m, t, i, c) && m' == Hung(m, t, i, c)
    requires IsNode(m', p) && m'.uses[p].path != []
    ensures HangsFrom(m', p, m'.uses[p])
  {
    HungEntries(m, t, i, c);
    if p == c {
      assert m'.uses[c].path[..|m.uses[t].path|] == m.uses[t].path;
    } else {
      assert HangsFrom(m, p, m.uses[p]);
    }
  }

  lemma HungNodes(m: Mem, t: nat, i: nat, c: nat)
    requires Sized(m) && NodesOk(m) && CanHang(m, t, i, c)
    ensures NodesOk(Hung(m, t, i, c)) && Sized(Hung(m, t, i, c))
  {
    var m' := Hung(m, t, i, c);
    forall p: nat | IsNode(m', p)
      ensures p < |m'.pages| && m'.pages[p].Ptes? && |m'.uses[p].path| <= 2
      ensures forall k :: 0 <= k < |m'.uses[p].path| ==> m'.uses[p].path[k] < if k == 0 then ENTRIES / 2 else ENTRIES
      ensures m'.uses[p].path == [] <==> m'.uses[p].root == p
      ensures m'.uses[p].path != [] ==> HangsFrom(m', p, m'.uses[p])
    {
      assert p != c ==> IsNode(m, p);
      if m'.uses[p].path != [] {
        HungHangs(m, m', t, i, c, p);
      }
      RootIsNotNew(m, t, c);
    }
  }

  lemma RootIsNotNew(m: Mem, t: nat, c: nat)
    requires NodesOk(m) && IsNode(m, t) && !IsNode(m, c) && |m.uses[t].path| < 2
    ensures m.uses[t].root != c
  {
    if m.uses[t].path != [] {
      assert HangsFrom(m, t, m.uses[t]);
      var up := m.uses[t].up;
      assert IsNode(m, up) && m.uses[up].path == [];
    }
  }

  lemma HungEntriesOk(m: Mem, t: nat, i: nat, c: nat)
    requires Sized(m) && NodesOk(m) && EntriesOk(m) && CanHang(m, t, i, c)
    ensures EntriesOk(Hung(m, t, i, c))
  {
    HungEntries(m, t, i, c);
    var m' := Hung(m, t, i, c);
    forall u, j | IsNode(m', u) && 0 <= j < ENTRIES ensures EntryOk(m', u, j, Entry(m'.pages, u, j)) {
      if u != c && (u, j) != (t, i) {
        assert EntryOk(m, u, j, Entry(m.pages, u, j));
      }
    }
  }

  lemma HungOwned(m: Mem, t: nat, i: nat, c: nat)
    requires Sized(m) && NodesOk(m) && OwnedOk(m) && CanHang(m, t, i, c)
    ensures OwnedOk(Hung(m, t, i, c))
  {
    HungEntries(m, t, i, c);
    var m' := Hung(m, t, i, c);
    forall p | 0 <= p < |m'.uses| && m'.uses[p].Owned? ensures OwnedPage(m', p, m'.uses[p]) {
      assert OwnedPage(m, p, m.uses[p]);
    }
  }

  lemma HangKeeps(m: Mem, t: nat, i: nat, c: nat)
    requires Inv(m) && CanHang(m, t, i, c)
    ensures t < |m.pages| == |m.uses| && c < |m.pages| && c != t && m.pages[t].Ptes? && i < |m.pages[t].ptes|
    ensures Inv(Hung(m, t, i, c))
  {
    assert Open(0, m);
    HungNodes(m, t, i, c);
    HungEntriesOk(m, t, i, c);
    HungOwned(m, t, i, c);
    HungFree(m, t, i, c);
  }

  lemma HungFree(m: Mem, t: nat, i: nat, c: nat)
    requires Sized(m) && NodesOk(m) && FreeOk(m) && CanHang(m, t, i, c)
    ensures FreeOk(Hung(m, t, i, c))
  {
  }

  /** A table found before is found again when it is still a node. */
  lemma TableStays(m: Mem, m': Mem, r: nat, v: nat)
    requires Inv(m) && Inv(m') && IsRoot(m, r) && TableAt(m.pages, r, 0, v) != 0
    requires var t := TableAt(m.pages, r, 0, v); IsNode(m, t) ==> IsNode(m', t) && m'.uses[t] == m.uses[t]
    ensures TableAt(m'.pages, r, 0, v) == TableAt(m.pages, r, 0, v)
  {
    TableIsNode(m, r, 0, v);
    NodeIsTable(m', TableAt(m.pages, r, 0, v), 0, v);
  }

  lemma HungLeaf(m: Mem, m': Mem, t: nat, i: nat, c: nat, r: nat, v: nat)
    requires Inv(m) && Inv(m') && CanHang(m, t, i, c) && Sized(m) && NodesOk(m) && m' == Hung(m, t, i, c)
             && IsRoot(m, r)
    ensures IsRoot(m', r) && Leaf(m'.pages, r, v) == Leaf(m.pages, r, v)
  {
    HungEntries(m, t, i, c);
    var t0 := TableAt(m.pages, r, 0, v);
    if t0 != 0 {
      TableIsNode(m, r, 0, v);
      TableStays(m, m', r, v);
    } else {
      var t1 := TableAt(m'.pages, r, 0, v);
      if t1 != 0 {
        TableIsNode(m', r, 0, v);
        if t1 != c {
          NodeIsTable(m, t1, 0, v);
        }
      }
    }
  }

  lemma HangKeepsTrees(m: Mem, t: nat, i: nat, c: nat)
    requires Inv(m) && CanHang(m, t, i, c)
    ensures Sized(m) && NodesOk(m) && SameTrees(m, Hung(m, t, i, c))
  {
    HangKeeps(m, t, i, c);
    var m' := Hung(m, t, i, c);
    assert Open(0, m);
    forall r: nat, v: nat | IsRoot(m, r) && v < MAXVPN ensures Leaf(m'.pages, r, v) == Leaf(m.pages, r, v) {
      HungLeaf(m, m', t, i, c, r, v);
    }
  }

  // ----- leaf entries -----

  /** Entry i of t becomes e, and page p changes its use. */
  function Mapped(m: Mem, t: nat, i: nat, e: Pte, p: nat, use: Use): Mem
    requires t < |m.pages| && m.pages[t].Ptes? && i < |m.pages[t].ptes| && p < |m.uses|
  {
    Mem(WithEntry(m.pages, t, i, e), m.uses[p := use], m.free)
  }

  ghost predicate LeafSlot(m: Mem, t: nat, i: nat) {
    IsNode(m, t) && |m.uses[t].path| == 2 && i < ENTRIES
  }

  /** The slot is empty and page p may be mapped there: a user page becomes owned. */
  ghost predicate CanMap(m: Mem, t: nat, i: nat, e: Pte, use: Use) {
    && LeafSlot(m, t, i) && !Entry(m.pages, t, i).v && e.v && IsLeaf(e) && 0 < e.ppn < |m.uses| == |m.pages|
    && (if Vpn(m.uses[t].path, i) < TRAPFRAME then m.uses[e.ppn].Kept? && m.pages[e.ppn].Bytes? && use == Owned(t, i)
        else use == m.uses[e.ppn])
  }

  /** The slot is emptied; a user page is no longer owned. */
  ghost predicate CanUnmap(m: Mem, t: nat, i: nat, p: nat, use: Use) {
    && LeafSlot(m, t, i) && Entry(m.pages, t, i).v && Entry(m.pages, t, i).ppn == p && p < |m.uses|
    && use == if Vpn(m.uses[t].path, i) < TRAPFRAME then Kept else m.uses[p]
  }

  /** The page-table pages are the same, and only entry i of t differs. */
  ghost predicate OneEntry(m: Mem, m': Mem, t: nat, i: nat, e: Pte) {
    && (forall u: nat :: IsNode(m', u) <==> IsNode(m, u))
    && (forall u: nat :: IsNode(m, u) && IsNode(m', u) ==> m'.uses[u] == m.uses[u])
    && (forall u: nat, j: nat :: IsNode(m, u) ==>
       Entry(m'.pages, u, j) == if (u, j) == (t, i) then e else Entry(m.pages, u, j))
  }

  lemma MappedEntries(m: Mem, m': Mem, t: nat, i: nat, e: Pte, p: nat, use: Use)
    requires LeafSlot(m, t, i) && p < |m.uses| && (use.Node? || m.uses[p].Node? ==> use == m.uses[p])
    requires t < |m.pages| && m.pages[t].Ptes? && i < |m.pages[t].ptes|
    requires m' == Mapped(m, t, i, e, p, use)
    ensures OneEntry(m, m', t, i, e)
  {
  }

  lemma MappedNodes(m: Mem, m': Mem, t: nat, i: nat, e: Pte, p: nat, use: Use)
    requires Sized(m) && NodesOk(m) && LeafSlot(m, t, i) && 0 < p < |m.uses|
             && (use.Node? || m.uses[p].Node? ==> use == m.uses[p])
    requires m' == Mapped(m, t, i, e, p, use)
    ensures NodesOk(m') && Sized(m')
  {
    MappedEntries(m, m', t, i, e, p, use);
    forall q: nat | IsNode(m', q) && m'.uses[q].path != [] ensures HangsFrom(m', q, m'.uses[q]) {
      assert HangsFrom(m, q, m.uses[q]);
    }
  }

  lemma MapKeepsFree(m: Mem, m': Mem, t: nat, i: nat, e: Pte, p: nat, use: Use)
    requires FreeOk(m) && t < |m.pages| && m.pages[t].Ptes? && i < |m.pages[t].ptes| && p < |m.uses|
    requires m' == Mapped(m, t, i, e, p, use) && (use.Free? <==> m.uses[p].Free?)
    ensures FreeOk(m')
  {
  }

  lemma MapKeepsEntries(m: Mem, m': Mem, t: nat, i: nat, e: Pte, use: Use)
    requires Sized(m) && NodesOk(m) && EntriesOk(m) && CanMap(m, t, i, e, use) && m' == Mapped(m, t, i, e, e.ppn, use)
    ensures EntriesOk(m')
  {
    MappedEntries(m, m', t, i, e, e.ppn, use);
    forall u, j | IsNode(m', u) && 0 <= j < ENTRIES ensures EntryOk(m', u, j, Entry(m'.pages, u, j)) {
      assert EntryOk(m, u, j, Entry(m.pages, u, j));
    }
  }

  lemma MapKeepsOwned(m: Mem, m': Mem, t: nat, i: nat, e: Pte, use: Use)
    requires Sized(m) && NodesOk(m) && OwnedOk(m) && CanMap(m, t, i, e, use) && m' == Mapped(m, t, i, e, e.ppn, use)
    ensures OwnedOk(m')
  {
    forall p | 0 <= p < |m'.uses| && m'.uses[p].Owned? ensures OwnedPage(m', p, m'.uses[p]) {
      if p != e.ppn || use == m.uses[p] {
        MapKeepsOwnedAt(m, m', t, i, e, use, p);
      } else {
        MapOwnsPage(m, m', t, i, e, use);
      }
    }
  }

  lemma MapKeepsOwnedAt(m: Mem, m': Mem, t: nat, i: nat, e: Pte, use: Use, p: nat)
    requires Sized(m) && NodesOk(m) && OwnedOk(m) && CanMap(m, t, i, e, use) && m' == Mapped(m, t, i, e, e.ppn, use)
    requires p < |m'.uses| && m'.uses[p].Owned? && (p != e.ppn || use == m.uses[p])
    ensures OwnedPage(m', p, m'.uses[p])
  {
    MappedEntries(m, m', t, i, e, e.ppn, use);
    assert OwnedPage(m, p, m.uses[p]);
  }

  lemma MapOwnsPage(m: Mem, m': Mem, t: nat, i: nat, e: Pte, use: Use)
    requires Sized(m) && NodesOk(m) && CanMap(m, t, i, e, use) && m' == Mapped(m, t, i, e, e.ppn, use)
    requires e.ppn < |m'.uses| && m'.uses[e.ppn].Owned? && use != m.uses[e.ppn]
    ensures OwnedPage(m', e.ppn, m'.uses[e.ppn])
  {
    MappedEntries(m, m', t, i, e, e.ppn, use);
  }

  lemma MapKeeps(m: Mem, t: nat, i: nat, e: Pte, use: Use)
    requires Inv(m) && CanMap(m, t, i, e, use)
    ensures Sized(m) && NodesOk(m) && Inv(Mapped(m, t, i, e, e.ppn, use))
  {
    assert Open(0, m);
    var m' := Mapped(m, t, i, e, e.ppn, use);
    MappedNodes(m, m', t, i, e, e.ppn, use);
    MapKeepsEntries(m, m', t, i, e, use);
    MapKeepsOwned(m, m', t, i, e, use);
    MapKeepsFree(m, m', t, i, e, e.ppn, use);
  }

  lemma UnmapKeepsEntries(m: Mem, m': Mem, t: nat, i: nat, p: nat, use: Use)
    requires Sized(m) && NodesOk(m) && EntriesOk(m) && CanUnmap(m, t, i, p, use)
             && m' == Mapped(m, t, i, Null(), p, use)
    requires use != m.uses[p] ==> m.uses[p] == Owned(t, i)
    ensures EntriesOk(m')
  {
    MappedEntries(m, m', t, i, Null(), p, use);
    forall u, j | IsNode(m', u) && 0 <= j < ENTRIES ensures EntryOk(m', u, j, Entry(m'.pages, u, j)) {
      assert EntryOk(m, u, j, Entry(m.pages, u, j));
    }
  }

  lemma UnmapKeepsOwned(m: Mem, m': Mem, t: nat, i: nat, p: nat, use: Use)
    requires Sized(m) && NodesOk(m) && OwnedOk(m) && CanUnmap(m, t, i, p, use) && m' == Mapped(m, t, i, Null(), p, use)
    requires use != m.uses[p] ==> m.uses[p] == Owned(t, i)
    ensures OwnedOk(m')
  {
    forall q | 0 <= q < |m'.uses| && m'.uses[q].Owned? ensures OwnedPage(m', q, m'.uses[q]) {
      UnmapKeepsOwnedAt(m, m', t, i, p, use, q);
    }
  }

  lemma UnmapKeepsOwnedAt(m: Mem, m': Mem, t: nat, i: nat, p: nat, use: Use, q: nat)
    requires Sized(m) && NodesOk(m) && OwnedOk(m) && CanUnmap(m, t, i, p, use) && m' == Mapped(m, t, i, Null(), p, use)
    requires (use != m.uses[p] ==> m.uses[p] == Owned(t, i)) && q < |m'.uses| && m'.uses[q].Owned?
    ensures OwnedPage(m', q, m'.uses[q])
  {
    MappedEntries(m, m', t, i, Null(), p, use);
    assert OwnedPage(m, q, m.uses[q]);
  }

  lemma UnmapKeeps(m: Mem, t: nat, i: nat, p: nat, use: Use)
    requires Inv(m) && CanUnmap(m, t, i, p, use)
    ensures Sized(m) && NodesOk(m) && p != 0 && Inv(Mapped(m, t, i, Null(), p, use))
    ensures Vpn(m.uses[t].path, i) < TRAPFRAME ==> m.uses[p] == Owned(t, i)
  {
    assert Open(0, m);
    assert EntryOk(m, t, i, Entry(m.pages, t, i));
    var m' := Mapped(m, t, i, Null(), p, use);
    MappedNodes(m, m', t, i, Null(), p, use);
    UnmapKeepsEntries(m, m', t, i, p, use);
    UnmapKeepsOwned(m, m', t, i, p, use);
    MapKeepsFree(m, m', t, i, Null(), p, use);
  }

  /** Only the page of the changed slot is mapped differently. */
  ghost predicate OneLeaf(m: Mem, m': Mem, root: nat, vpn: nat, e: Pte) {
    && (forall r: nat :: IsRoot(m, r) ==> IsRoot(m', r))
    && (forall r: nat, v: nat :: IsRoot(m, r) && v < MAXVPN ==>
          Leaf(m'.pages, r, v) == if (r, v) == (root, vpn) then e else Leaf(m.pages, r, v))
  }

  lemma LeafAfter(m: Mem, m': Mem, t: nat, i: nat, e: Pte, r: nat, v: nat)
    requires Inv(m) && Inv(m') && LeafSlot(m, t, i) && IsRoot(m, r) && v < MAXVPN
    requires OneEntry(m, m', t, i, e)
    ensures Leaf(m'.pages, r, v)
         == if r == m.uses[t].root && v == Vpn(m.uses[t].path, i) then e else Leaf(m.pages, r, v)
  {
    SlotOf(m, t, i, v);
    NodeNotZero(m, t);
    var t0 := TableAt(m.pages, r, 0, v);
    if t0 != 0 {
      TableIsNode(m, r, 0, v);
      TableStays(m, m', r, v);
      VpnOfWay(v);
      assert Leaf(m'.pages, r, v) == Entry(m'.pages, t0, Px(0, v));
      assert Leaf(m.pages, r, v) == Entry(m.pages, t0, Px(0, v));
      if t0 == t && Px(0, v) == i {
        assert v == Vpn(m.uses[t].path, i);
      }
    } else if TableAt(m'.pages, r, 0, v) != 0 {
      assert IsRoot(m', r);
      TableIsNode(m', r, 0, v);
      NodeIsTable(m, TableAt(m'.pages, r, 0, v), 0, v);
    }
  }

  /** A slot is found by the page number it stands for. */
  lemma SlotOf(m: Mem, t: nat, i: nat, v: nat)
    requires Inv(m) && LeafSlot(m, t, i)
    ensures v == Vpn(m.uses[t].path, i) ==> TableAt(m.pages, m.uses[t].root, 0, v) == t && Px(0, v) == i
  {
    if v == Vpn(m.uses[t].path, i) {
      PathInRange(m, t);
      WayOfVpn(m.uses[t].path, i);
      NodeNotZero(m, t);
      NodeIsTable(m, t, 0, v);
    }
  }

  lemma PathInRange(m: Mem, t: nat)
    requires Inv(m) && IsNode(m, t)
    ensures |m.uses[t].path| <= 2 && forall k :: 0 <= k < |m.uses[t].path| ==>
            m.uses[t].path[k] < if k == 0 then ENTRIES / 2 else ENTRIES
  {
    assert Open(0, m);
  }

  lemma MappedLeaf(m: Mem, t: nat, i: nat, e: Pte, p: nat, use: Use)
    requires Inv(m) && Sized(m) && NodesOk(m) && LeafSlot(m, t, i) && p < |m.uses|
    requires use.Node? || m.uses[p].Node? ==> use == m.uses[p]
    requires Inv(Mapped(m, t, i, e, p, use))
    ensures OneLeaf(m, Mapped(m, t, i, e, p, use), m.uses[t].root, Vpn(m.uses[t].path, i), e)
  {
    var m' := Mapped(m, t, i, e, p, use);
    MappedEntries(m, m', t, i, e, p, use);
    forall r: nat, v: nat | IsRoot(m, r) && v < MAXVPN
      ensures Leaf(m'.pages, r, v) == if (r, v) == (m.uses[t].root, Vpn(m.uses[t].path, i)) then e
              else Leaf(m.pages, r, v)
    {
      LeafAfter(m, m', t, i, e, r, v);
    }
  }
}
