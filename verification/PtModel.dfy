/**
 Page tables over physical memory.

 Physical memory is a sequence of pages; a page is a page-table page of 512 entries or holds bytes.
 `uses` says of every page what it is for, so a page has one use at a time: it is on the free list,
 it is a page-table page at one place of one tree, it is the target of one leaf entry of user memory,
 or the kernel keeps it.
 */
module PtModel {
  import opened Sequences

  type byte = x: int | 0 <= x < 256

  const ENTRIES: nat := 512
  const PGSIZE: nat := 4096
  const MAXVPN: nat := 0x400_0000       // MAXVA / PGSIZE
  const TRAMPOLINE: nat := MAXVPN - 1   // as page numbers
  const TRAPFRAME: nat := MAXVPN - 2

  datatype Pte = Pte(v: bool, r: bool, w: bool, x: bool, u: bool, ppn: nat)

  function Null(): Pte { Pte(false, false, false, false, false, 0) }

  function Pointer(ppn: nat): Pte { Pte(true, false, false, false, false, ppn) }

  predicate IsLeaf(e: Pte) { e.r || e.w || e.x }

  /** A flag as the lowest bit of a word. */
  function Put(flag: bool, rest: nat): nat { 2 * rest + if flag then 1 else 0 }

  /** The 64-bit word of an entry: PA2PTE of the page, or'ed with the flag bits. */
  function Word(e: Pte): nat {
    Put(e.v, Put(e.r, Put(e.w, Put(e.x, Put(e.u, 32 * e.ppn)))))
  }

  /** PTE2PA and the tests of the flag bits. */
  function OfWord(w: nat): Pte {
    var w1, w2, w3, w4 := w / 2, w / 2 / 2, w / 2 / 2 / 2, w / 2 / 2 / 2 / 2;
    Pte(w % 2 == 1, w1 % 2 == 1, w2 % 2 == 1, w3 % 2 == 1, w4 % 2 == 1, w4 / 2 / 32)
  }

  lemma Lowest(flag: bool, rest: nat)
    ensures Put(flag, rest) / 2 == rest && (Put(flag, rest) % 2 == 1 <==> flag)
  {
  }

  /** The word of an entry gives the entry back. */
  lemma WordRoundTrip(e: Pte)
    ensures OfWord(Word(e)) == e
  {
    var w5 := 32 * e.ppn;
    var w4 := Put(e.u, w5);
    var w3 := Put(e.x, w4);
    var w2 := Put(e.w, w3);
    var w1 := Put(e.r, w2);
    Lowest(e.u, w5);
    Lowest(e.x, w4);
    Lowest(e.w, w3);
    Lowest(e.r, w2);
    Lowest(e.v, w1);
  }

  datatype Page = Ptes(ptes: seq<Pte>) | Bytes(bytes: seq<byte>)

  datatype Use =
    | Free
    | Node(root: nat, path: seq<nat>, up: nat)   // a page-table page; path is the way from the root
    | Owned(t: nat, i: nat)                      // mapped by entry i of page-table page t
    | Kept

  /** Physical memory, the use of each page, and the free list from its head. */
  datatype Mem = Mem(pages: seq<Page>, uses: seq<Use>, free: seq<nat>)

  // ----- page numbers and indices -----

  /** PX(level, va) of the page number of va. */
  function Px(level: nat, vpn: nat): (i: nat)
    ensures i < ENTRIES
  {
    if level == 0 then vpn % 512 else if level == 1 then vpn / 512 % 512 else vpn / 262144 % 512
  }

  /** The way from the root to the table of a level that covers a page. */
  function Way(level: nat, vpn: nat): seq<nat> {
    if level == 0 then [Px(2, vpn), Px(1, vpn)] else if level == 1 then [Px(2, vpn)] else []
  }

  function Vpn(path: seq<nat>, i: nat): nat
    requires |path| == 2
  {
    path[0] * 262144 + path[1] * 512 + i
  }

  lemma TopIndex(vpn: nat)
    requires vpn < MAXVPN
    ensures Px(2, vpn) < ENTRIES / 2
  {
  }

  /** The three indices determine the page number. */
  lemma VpnOfWay(vpn: nat)
    requires vpn < MAXVPN
    ensures Vpn(Way(0, vpn), Px(0, vpn)) == vpn
  {
  }

  lemma WayOfVpn(path: seq<nat>, i: nat)
    requires |path| == 2 && path[0] < ENTRIES && path[1] < ENTRIES && i < ENTRIES
    ensures Way(0, Vpn(path, i)) == path && Px(0, Vpn(path, i)) == i
  {
    var v := Vpn(path, i);
    assert v == (path[0] * 512 + path[1]) * 512 + i;
    assert v / 512 == path[0] * 512 + path[1];
    assert v / 262144 == path[0];
  }

  // ----- walking -----

  function Entry(pages: seq<Page>, t: nat, i: nat): Pte {
    if t < |pages| && pages[t].Ptes? && i < |pages[t].ptes| then pages[t].ptes[i] else Null()
  }

  /** The page that entry i of table t points to, or 0. */
  function Child(pages: seq<Page>, t: nat, i: nat): nat {
    if Entry(pages, t, i).v then Entry(pages, t, i).ppn else 0
  }

  /** The table of a level that covers page vpn, or 0. */
  function TableAt(pages: seq<Page>, root: nat, level: nat, vpn: nat): nat {
    if level >= 2 then root
    else
      var l1 := Child(pages, root, Px(2, vpn));
      if level == 1 || l1 == 0 then l1 else Child(pages, l1, Px(1, vpn))
  }

  /** The leaf entry of a page: what the tree says about it. */
  function Leaf(pages: seq<Page>, root: nat, vpn: nat): Pte {
    var t := TableAt(pages, root, 0, vpn);
    if t == 0 then Null() else Entry(pages, t, Px(0, vpn))
  }

  /** The number of page-table pages that have to be made before page vpn can be mapped. */
  function Missing(pages: seq<Page>, root: nat, vpn: nat): nat {
    if TableAt(pages, root, 1, vpn) == 0 then 2 else if TableAt(pages, root, 0, vpn) == 0 then 1 else 0
  }

  // ----- the invariant -----

  ghost predicate Sized(m: Mem) {
    && |m.uses| == |m.pages| > 0 && m.uses[0].Kept?
    && (forall p :: 0 <= p < |m.pages| ==>
          match m.pages[p] case Ptes(e) => |e| == ENTRIES case Bytes(b) => |b| == PGSIZE)
  }

  /** The free list holds exactly the free pages, each once. */
  ghost predicate FreeOk(m: Mem) {
    && |m.uses| == |m.pages| && Distinct(m.free)
    && (forall k :: 0 <= k < |m.free| ==> m.free[k] < |m.uses| && m.uses[m.free[k]].Free?)
    && (forall p :: 0 <= p < |m.uses| && m.uses[p].Free? ==> p in m.free)
  }

  ghost predicate IsNode(m: Mem, t: nat) {
    t < |m.uses| && m.uses[t].Node?
  }

  /** Every page-table page is one, and hangs where its way says. */
  ghost predicate NodesOk(m: Mem) {
    forall p: nat :: IsNode(m, p) ==>
      && p < |m.pages| && m.pages[p].Ptes? && |m.uses[p].path| <= 2
      && (forall k :: 0 <= k < |m.uses[p].path| ==> m.uses[p].path[k] < if k == 0 then ENTRIES / 2 else ENTRIES)
      && (m.uses[p].path == [] <==> m.uses[p].root == p)
      && (m.uses[p].path != [] ==> HangsFrom(m, p, m.uses[p]))
  }

  ghost predicate HangsFrom(m: Mem, p: nat, use: Use)
    requires use.Node? && use.path != []
  {
    var last := |use.path| - 1;
    && IsNode(m, use.up) && m.uses[use.up].root == use.root && m.uses[use.up].path == use.path[..last]
    && Child(m.pages, use.up, use.path[last]) == p
  }

  /** What an entry of a page-table page at the given place may be. */
  ghost predicate EntryOk(m: Mem, t: nat, i: nat, e: Pte)
    requires IsNode(m, t)
  {
    var use := m.uses[t];
    if !e.v then e == Null() else
      && 0 < e.ppn < |m.uses|
      && (|use.path| < 2 ==> !IsLeaf(e) && m.uses[e.ppn] == Node(use.root, use.path + [i], t))
      && (|use.path| == 2 ==> IsLeaf(e) && (Vpn(use.path, i) < TRAPFRAME ==> m.uses[e.ppn] == Owned(t, i)))
  }

  ghost predicate EntriesOk(m: Mem) {
    forall t, i :: IsNode(m, t) && 0 <= i < ENTRIES ==> EntryOk(m, t, i, Entry(m.pages, t, i))
  }

  /** A user page is bytes, and its entry points to it. */
  ghost predicate OwnedPage(m: Mem, p: nat, use: Use)
    requires use.Owned?
  {
    && p < |m.pages| && m.pages[p].Bytes? && IsNode(m, use.t) && |m.uses[use.t].path| == 2 && use.i < ENTRIES
    && Vpn(m.uses[use.t].path, use.i) < TRAPFRAME && Child(m.pages, use.t, use.i) == p
  }

  ghost predicate OwnedOk(m: Mem) {
    forall p :: 0 <= p < |m.uses| && m.uses[p].Owned? ==> OwnedPage(m, p, m.uses[p])
  }

  /** Inv is looked into only where this is mentioned. */
  ghost predicate Open(n: int, m: Mem) { true }

  ghost predicate Inv(m: Mem) {
    match m
    case Mem(_, _, _) =>
      forall n: int {:trigger Open(n, m)} :: 0 <= n ==>
        Sized(m) && FreeOk(m) && NodesOk(m) && EntriesOk(m) && OwnedOk(m)
  }

  ghost predicate IsRoot(m: Mem, root: nat) {
    IsNode(m, root) && m.uses[root].path == [] && m.uses[root].root == root
  }

  // ----- the tree and the ways -----

  lemma ChildIsNode(m: Mem, t: nat, i: nat)
    requires Inv(m) && IsNode(m, t) && |m.uses[t].path| < 2 && i < ENTRIES && Child(m.pages, t, i) != 0
    ensures var c := Child(m.pages, t, i);
            c < |m.uses| && m.uses[c] == Node(m.uses[t].root, m.uses[t].path + [i], t)
  {
    assert Open(0, m);
    assert EntryOk(m, t, i, Entry(m.pages, t, i));
  }

  lemma InvalidIsNull(m: Mem, t: nat, i: nat)
    requires Inv(m) && IsNode(m, t) && !Entry(m.pages, t, i).v
    ensures Entry(m.pages, t, i) == Null()
  {
    assert Open(0, m);
    if i < ENTRIES {
      assert EntryOk(m, t, i, Entry(m.pages, t, i));
    }
  }

  lemma UnmappedIsNull(m: Mem, root: nat, vpn: nat)
    requires Inv(m) && IsRoot(m, root) && !Leaf(m.pages, root, vpn).v
    ensures Leaf(m.pages, root, vpn) == Null()
  {
    if TableAt(m.pages, root, 0, vpn) != 0 {
      TableIsNode(m, root, 0, vpn);
      InvalidIsNull(m, TableAt(m.pages, root, 0, vpn), Px(0, vpn));
    }
  }

  /** The table found for a page is the one whose way is the page's. */
  lemma TableIsNode(m: Mem, root: nat, level: nat, vpn: nat)
    requires Inv(m) && IsRoot(m, root) && level <= 2 && TableAt(m.pages, root, level, vpn) != 0
    ensures var t := TableAt(m.pages, root, level, vpn);
            IsNode(m, t) && m.uses[t].root == root && m.uses[t].path == Way(level, vpn)
  {
    if level < 2 {
      ChildIsNode(m, root, Px(2, vpn));
      if level < 1 {
        ChildIsNode(m, TableAt(m.pages, root, 1, vpn), Px(1, vpn));
      }
    }
  }

  lemma UpOf(m: Mem, t: nat)
    requires Inv(m) && IsNode(m, t) && m.uses[t].path != []
    ensures HangsFrom(m, t, m.uses[t]) && |m.uses[t].path| <= 2
  {
    assert Open(0, m);
  }

  lemma RootOf(m: Mem, t: nat)
    requires Inv(m) && IsNode(m, t) && m.uses[t].path == []
    ensures m.uses[t].root == t
  {
    assert Open(0, m);
  }

  /** Every page-table page is the table found for the pages with its way. */
  lemma NodeIsTable(m: Mem, t: nat, level: nat, vpn: nat)
    requires Inv(m) && IsNode(m, t) && t != 0 && level <= 2 && m.uses[t].path == Way(level, vpn)
    ensures TableAt(m.pages, m.uses[t].root, level, vpn) == t && IsRoot(m, m.uses[t].root)
  {
    if level == 2 {
      RootOf(m, t);
    } else {
      UpOf(m, t);
      var up := m.uses[t].up;
      if level == 1 {
        assert m.uses[t].path[..0] == [];
        RootOf(m, up);
      } else {
        assert m.uses[t].path[..1] == [Px(2, vpn)];
        UpOf(m, up);
        assert m.uses[up].path[..0] == [];
        RootOf(m, m.uses[up].up);
        NodeNotZero(m, up);
      }
    }
  }

  lemma NodeNotZero(m: Mem, t: nat)
    requires Inv(m) && IsNode(m, t)
    ensures t != 0
  {
    assert Open(0, m);
  }

  /** Distinct page numbers, or distinct trees, reach distinct entries. */
  lemma SlotsAreDistinct(m: Mem, root: nat, vpn: nat, root': nat, vpn': nat)
    requires Inv(m) && IsRoot(m, root) && IsRoot(m, root') && vpn < MAXVPN && vpn' < MAXVPN
    requires TableAt(m.pages, root, 0, vpn) != 0
    requires TableAt(m.pages, root, 0, vpn) == TableAt(m.pages, root', 0, vpn') && Px(0, vpn) == Px(0, vpn')
    ensures root == root' && vpn == vpn'
  {
    TableIsNode(m, root, 0, vpn);
    TableIsNode(m, root', 0, vpn');
    VpnOfWay(vpn);
    VpnOfWay(vpn');
  }

  // ----- conservation -----

  /** Entry i of t holds its page: it points to a lower table, or maps user memory. */
  ghost predicate HoldsPage(m: Mem, t: nat, i: nat) {
    && IsNode(m, t) && i < ENTRIES && Entry(m.pages, t, i).v && |m.uses[t].path| <= 2
    && (|m.uses[t].path| == 2 ==> Vpn(m.uses[t].path, i) < TRAPFRAME)
  }

  /** A page is held by at most one entry of all trees; then it is neither free nor kept by the kernel. */
  lemma OneHolder(m: Mem, t: nat, i: nat, t': nat, i': nat)
    requires Inv(m) && HoldsPage(m, t, i) && HoldsPage(m, t', i')
             && Entry(m.pages, t, i).ppn == Entry(m.pages, t', i').ppn
    ensures t == t' && i == i'
    ensures var p := Entry(m.pages, t, i).ppn; p < |m.uses| && !m.uses[p].Free? && !m.uses[p].Kept? && p !in m.free
  {
    assert Open(0, m);
    assert EntryOk(m, t, i, Entry(m.pages, t, i)) && EntryOk(m, t', i', Entry(m.pages, t', i'));
    if |m.uses[t].path| < 2 && |m.uses[t'].path| < 2 {
      var path := m.uses[t].path;
      assert (path + [i])[|path|] == i && (path + [i'])[|path|] == i';
    }
  }

  /** Every page is on the free list, kept, the root of a tree, or held by an entry. */
  lemma EveryPageIsSomewhere(m: Mem, p: nat)
    requires Inv(m) && p < |m.uses|
    ensures || (m.uses[p].Free? && p in m.free)
            || m.uses[p].Kept?
            || IsRoot(m, p)
            || exists t, i :: HoldsPage(m, t, i) && Entry(m.pages, t, i).ppn == p
  {
    assert Open(0, m);
    if m.uses[p].Node? && m.uses[p].path != [] {
      var use := m.uses[p];
      UpOf(m, p);
      NodeNotZero(m, p);
      var i := use.path[|use.path| - 1];
      assert HoldsPage(m, use.up, i) && Entry(m.pages, use.up, i).ppn == p;
    } else if m.uses[p].Owned? {
      assert OwnedPage(m, p, m.uses[p]);
      assert HoldsPage(m, m.uses[p].t, m.uses[p].i) && Entry(m.pages, m.uses[p].t, m.uses[p].i).ppn == p;
    } else if m.uses[p].Node? {
      RootOf(m, p);
    }
  }
}
