/** freewalk: taking page-table pages out of a tree from below. */
module PtFree {
  import opened PtModel
  import opened PtSteps
  import opened PtCode

  // ----- the pages below a page-table page -----

  /** Page p is a page-table page at or below c. */
  ghost predicate Under(m: Mem, c: nat, p: nat) {
    IsNode(m, c) && IsNode(m, p) && m.uses[p].root == m.uses[c].root && m.uses[c].path <= m.uses[p].path
  }

  /** Page p is a page-table page below one of the first i entries of c. */
  ghost predicate UnderFirst(m: Mem, c: nat, i: nat, p: nat) {
    Under(m, c, p) && |m.uses[c].path| < |m.uses[p].path| && m.uses[p].path[|m.uses[c].path|] < i
  }

  /** No page is mapped below c. */
  ghost predicate NoLeaves(m: Mem, c: nat) {
    forall u: nat, i: nat :: Under(m, c, u) && |m.uses[u].path| == 2 ==> !Entry(m.pages, u, i).v
  }

  /** A place of a tree holds one page-table page. */
  lemma {:induction false} OneNode(m: Mem, p: nat, q: nat)
    requires Inv(m) && IsNode(m, p) && IsNode(m, q) && m.uses[p].root == m.uses[q].root
             && m.uses[p].path == m.uses[q].path
    ensures p == q
    decreases |m.uses[p].path|
  {
    if m.uses[p].path == [] {
      RootOf(m, p);
      RootOf(m, q);
    } else {
      UpOf(m, p);
      UpOf(m, q);
      OneNode(m, m.uses[p].up, m.uses[q].up);
    }
  }

  /** A page below entry i of c is reached through it. */
  lemma {:induction false} ReachedThrough(m: Mem, c: nat, p: nat)
    requires Inv(m) && Under(m, c, p) && |m.uses[c].path| < |m.uses[p].path|
    ensures var i := m.uses[p].path[|m.uses[c].path|];
            var d := Child(m.pages, c, i);
            i < ENTRIES && d != 0 && Under(m, d, p) && m.uses[d].path == m.uses[c].path + [i]
    decreases |m.uses[p].path|
  {
    var n := |m.uses[c].path|;
    var i := m.uses[p].path[n];
    PathInRange(m, p);
    NodeNotZero(m, p);
    UpOf(m, p);
    var up := m.uses[p].up;
    if |m.uses[p].path| == n + 1 {
      assert m.uses[p].path[..n] == m.uses[c].path;
      OneNode(m, up, c);
      assert m.uses[p].path == m.uses[c].path + [i];
    } else {
      ReachedThrough(m, c, up);
    }
  }

  // ----- taking one empty page-table page away -----

  ghost predicate Empty(m: Mem, c: nat) {
    forall i: nat :: !Entry(m.pages, c, i).v
  }

  /** Page-table page c is freed. */
  ghost predicate Dropped(m: Mem, m': Mem, c: nat) {
    && c < |m.uses| == |m.pages| && m.uses[c].Node?
    && m'.uses == m.uses[c := Free] && m'.free == [c] + m.free && |m'.pages| == |m.pages|
    && m'.pages[c] == Junk(1)
    && (forall p :: 0 <= p < |m.pages| && p != c && !(m.uses[c].path != [] && p == m.uses[c].up) ==>
       m'.pages[p] == m.pages[p])
    && (m.uses[c].path != [] ==>
          var up, i := m.uses[c].up, m.uses[c].path[|m.uses[c].path| - 1];
          && up < |m.pages| && up != c && m.pages[up].Ptes? && i < |m.pages[up].ptes|
          && m'.pages[up] == Ptes(m.pages[up].ptes[i := Null()]))
  }

  lemma DroppedEntries(m: Mem, m': Mem, c: nat)
    requires Sized(m) && NodesOk(m) && Dropped(m, m', c)
    ensures forall u: nat :: IsNode(m', u) <==> IsNode(m, u) && u != c
    ensures forall u: nat :: IsNode(m, u) && u != c ==> m'.uses[u] == m.uses[u]
    ensures forall u: nat, j: nat :: IsNode(m, u) && u != c ==>
              Entry(m'.pages, u, j)
              == if m.uses[c].path != [] && u == m.uses[c].up
                && j == m.uses[c].path[|m.uses[c].path| - 1] then Null() else Entry(m.pages, u, j)
  {
  }

  lemma DropKeepsNodes(m: Mem, m': Mem, c: nat)
    requires Sized(m) && NodesOk(m) && IsNode(m, c) && Empty(m, c) && Dropped(m, m', c)
    ensures NodesOk(m') && Sized(m')
  {
    DroppedEntries(m, m', c);
    forall p: nat | IsNode(m', p) && m'.uses[p].path != [] ensures HangsFrom(m', p, m'.uses[p]) {
      assert HangsFrom(m, p, m.uses[p]);
      if m.uses[c].path != [] {
        assert HangsFrom(m, c, m.uses[c]);
      }
    }
  }

  lemma DropKeepsEntries(m: Mem, m': Mem, c: nat)
    requires Sized(m) && NodesOk(m) && EntriesOk(m) && IsNode(m, c) && Dropped(m, m', c)
    ensures EntriesOk(m')
  {
    DroppedEntries(m, m', c);
    forall u, j | IsNode(m', u) && 0 <= j < ENTRIES ensures EntryOk(m', u, j, Entry(m'.pages, u, j)) {
      assert EntryOk(m, u, j, Entry(m.pages, u, j));
    }
  }

  lemma DropKeepsOwned(m: Mem, m': Mem, c: nat)
    requires Sized(m) && NodesOk(m) && OwnedOk(m) && IsNode(m, c) && Empty(m, c) && Dropped(m, m', c)
    ensures OwnedOk(m')
  {
    DroppedEntries(m, m', c);
    forall p | 0 <= p < |m'.uses| && m'.uses[p].Owned? ensures OwnedPage(m', p, m'.uses[p]) {
      assert OwnedPage(m, p, m.uses[p]);
      if m.uses[c].path != [] {
        assert HangsFrom(m, c, m.uses[c]);
      }
    }
  }

  lemma DropKeepsFree(m: Mem, m': Mem, c: nat)
    requires FreeOk(m) && Dropped(m, m', c)
    ensures FreeOk(m')
  {
    FreeList(m, c);
    var m1 := Freed(m, c);
    assert m'.uses == m1.uses && m'.free == m1.free;
  }

  lemma DropKeeps(m: Mem, m': Mem, c: nat)
    requires Inv(m) && IsNode(m, c) && Empty(m, c) && Dropped(m, m', c)
    ensures Inv(m')
  {
    assert Open(0, m);
    DropKeepsNodes(m, m', c);
    DropKeepsEntries(m, m', c);
    DropKeepsOwned(m, m', c);
    DropKeepsFree(m, m', c);
  }

  // ----- freewalk -----

  /** All page-table pages at and below c are free, nothing else has changed. */
  ghost predicate Razed(m: Mem, m': Mem, c: nat) {
    match m'
    case Mem(_, _, _) =>
      && |m.uses| == |m.pages| == |m'.pages| == |m'.uses|
      && (forall p :: 0 <= p < |m.uses| ==> m'.uses[p] == if Under(m, c, p) then Free else m.uses[p])
      && (forall p :: 0 <= p < |m.uses| && !Under(m, c, p) ==> m'.pages[p] == m.pages[p])
  }

  /** The same for the pages below the first i entries of c, which are null. */
  ghost predicate RazedFirst(m: Mem, m': Mem, c: nat, i: nat) {
    match m'
    case Mem(_, _, _) =>
      && |m.uses| == |m.pages| == |m'.pages| == |m'.uses|
      && (forall p :: 0 <= p < |m.uses| ==> m'.uses[p] == if UnderFirst(m, c, i, p) then Free else m.uses[p])
      && (forall p :: 0 <= p < |m.uses| && p != c && !UnderFirst(m, c, i, p) ==> m'.pages[p] == m.pages[p])
      && (forall j: nat :: Entry(m'.pages, c, j) == if j < i then Null() else Entry(m.pages, c, j))
  }

  /** Entry i of up set to null. */
  function Unhooked(m: Mem, up: nat, i: nat): Mem
    requires up < |m.pages| && m.pages[up].Ptes? && i < |m.pages[up].ptes|
  {
    Mem(WithEntry(m.pages, up, i, Null()), m.uses, m.free)
  }

  lemma NothingFirst(m: Mem, c: nat)
    requires |m.uses| == |m.pages|
    ensures RazedFirst(m, m, c, 0)
  {
  }

  /** An entry that is null has nothing below it. */
  lemma SkipEntry(m: Mem, s: Mem, c: nat, i: nat)
    requires Inv(m) && IsNode(m, c) && RazedFirst(m, s, c, i) && !Entry(m.pages, c, i).v
             && Entry(m.pages, c, i) == Null()
    ensures RazedFirst(m, s, c, i + 1)
  {
    forall p | 0 <= p < |m.uses| ensures m.uses[p] ==
      if UnderFirst(m, c, i + 1, p) && !UnderFirst(m, c, i, p) then Free else m.uses[p] {
      if UnderFirst(m, c, i + 1, p) && !UnderFirst(m, c, i, p) {
        ReachedThrough(m, c, p);
      }
    }
  }

  lemma UnderChild(m: Mem, s: Mem, c: nat, i: nat, d: nat, p: nat)
    requires RazedFirst(m, s, c, i) && IsNode(m, c) && IsNode(s, d) && d < |m.uses| && p < |m.uses|
    requires s.uses[d].root == m.uses[c].root && s.uses[d].path == m.uses[c].path + [i]
    ensures Under(s, d, p) <==> UnderFirst(m, c, i + 1, p) && !UnderFirst(m, c, i, p)
  {
    var n := |m.uses[c].path|;
    if Under(s, d, p) {
      assert s.uses[p] == m.uses[p];
      assert s.uses[p].path[..n + 1] == m.uses[c].path + [i];
      assert m.uses[p].path[..n] == m.uses[c].path && m.uses[p].path[n] == i;
    }
    if UnderFirst(m, c, i + 1, p) && !UnderFirst(m, c, i, p) {
      assert s.uses[p] == m.uses[p] && m.uses[p].path[n] == i;
      assert m.uses[p].path[..n + 1] == m.uses[c].path + [i];
    }
  }

  /** The turn of the loop that frees child d and then sets the entry to null. */
  lemma NextFirst(m: Mem, s: Mem, s1: Mem, c: nat, i: nat, d: nat)
    requires RazedFirst(m, s, c, i) && IsNode(m, c) && IsNode(s, d) && d < |m.uses| && i < ENTRIES
    requires s.uses[d].root == m.uses[c].root && s.uses[d].path == m.uses[c].path + [i]
    requires Razed(s, s1, d) && c < |s1.pages| && s1.pages[c].Ptes? && i < |s1.pages[c].ptes|
    ensures RazedFirst(m, Unhooked(s1, c, i), c, i + 1)
  {
    var s2 := Unhooked(s1, c, i);
    UnderChild(m, s, c, i, d, c);
    forall p | 0 <= p < |m.uses|
      ensures s2.uses[p] == if UnderFirst(m, c, i + 1, p) then Free else m.uses[p]
      ensures p != c && !UnderFirst(m, c, i + 1, p) ==> s2.pages[p] == m.pages[p]
    {
      UnderChild(m, s, c, i, d, p);
    }
    assert s1.pages[c] == s.pages[c];
    forall j: nat ensures Entry(s2.pages, c, j) == if j < i + 1 then Null() else Entry(m.pages, c, j) {
      assert Entry(s.pages, c, j) == if j < i then Null() else Entry(m.pages, c, j);
    }
  }

  lemma ChildHasNoLeaves(m: Mem, s: Mem, c: nat, i: nat, d: nat)
    requires RazedFirst(m, s, c, i) && IsNode(m, c) && IsNode(s, d) && d < |m.uses| && NoLeaves(m, c)
    requires s.uses[d].root == m.uses[c].root && s.uses[d].path == m.uses[c].path + [i]
    ensures NoLeaves(s, d)
  {
    forall u: nat, j: nat | Under(s, d, u) && |s.uses[u].path| == 2 ensures !Entry(s.pages, u, j).v {
      UnderChild(m, s, c, i, d, u);
      assert Under(m, c, u) && s.uses[u] == m.uses[u] && s.pages[u] == m.pages[u];
      assert Entry(s.pages, u, j) == Entry(m.pages, u, j);
    }
  }

  /** The entry that a page-table page hangs from. */
  function LastIndex(use: Use): nat
    requires use.Node? && use.path != []
  {
    use.path[|use.path| - 1]
  }

  /** Memory without c, as it is once the entry above c is null. */
  ghost predicate ValidWithout(m: Mem, use: Use)
    requires use.Node?
  {
    if use.path == [] then Inv(m)
    else use.up < |m.pages| && m.pages[use.up].Ptes? && LastIndex(use) < |m.pages[use.up].ptes|
         && Inv(Unhooked(m, use.up, LastIndex(use)))
  }

  lemma LastPage(m: Mem, s: Mem, c: nat)
    requires Inv(m) && Inv(s) && IsNode(m, c) && RazedFirst(m, s, c, ENTRIES) && s.uses[c] == m.uses[c] && c < |s.pages|
    ensures Razed(m, Freed(s, c), c) && ValidWithout(Freed(s, c), m.uses[c])
  {
    assert Open(0, s);
    PathFacts(m, c);
    forall i: nat ensures !Entry(s.pages, c, i).v {
    }
    forall p | 0 <= p < |m.uses| ensures Under(m, c, p) <==> UnderFirst(m, c, ENTRIES, p) || p == c {
      if Under(m, c, p) && p != c {
        LongerPath(m, c, p);
      }
    }
    if m.uses[c].path == [] {
      DropKeeps(s, Freed(s, c), c);
    } else {
      UpOf(s, c);
      var up, i := m.uses[c].up, LastIndex(m.uses[c]);
      PathInRange(s, c);
      DropKeeps(s, Unhooked(Freed(s, c), up, i), c);
    }
  }

  lemma PathFacts(m: Mem, c: nat)
    requires Inv(m) && IsNode(m, c)
    ensures |m.uses| == |m.pages| && c < |m.pages|
  {
    assert Open(0, m);
  }

  lemma LongerPath(m: Mem, c: nat, p: nat)
    requires Inv(m) && Under(m, c, p) && p != c
    ensures UnderFirst(m, c, ENTRIES, p)
  {
    if |m.uses[p].path| == |m.uses[c].path| {
      OneNode(m, c, p);
    }
    PathInRange(m, p);
  }

  /** An entry of c is null, or points to a page-table page below which nothing is mapped. */
  lemma EntryKind(m: Mem, s: Mem, c: nat, i: nat)
    requires Inv(m) && Inv(s) && IsNode(m, c) && IsNode(s, c) && s.uses[c] == m.uses[c] && i < ENTRIES
    requires RazedFirst(m, s, c, i) && NoLeaves(m, c)
    ensures Entry(s.pages, c, i).v ==>
              var d := Entry(s.pages, c, i).ppn;
              && !IsLeaf(Entry(s.pages, c, i)) && IsNode(s, d) && d < |m.uses|
              && s.uses[d] == Node(m.uses[c].root, m.uses[c].path + [i], c) && |s.uses[d].path| <= 2 && NoLeaves(s, d)
  {
    var e := Entry(s.pages, c, i);
    if e.v {
      assert Under(m, c, c) && Entry(m.pages, c, i) == e;
      PathInRange(m, c);
      NodeNotZero(s, c);
      assert EntryOk(s, c, i, e) by { assert Open(0, s); }
      ChildHasNoLeaves(m, s, c, i, e.ppn);
    }
  }

  /** Freeing a child leaves its parent alone. */
  lemma ParentStays(s: Mem, s1: Mem, c: nat, d: nat, i: nat)
    requires Inv(s) && Razed(s, s1, d) && IsNode(s, c) && IsNode(s, d)
             && s.uses[d] == Node(s.uses[c].root, s.uses[c].path + [i], c) && i < ENTRIES
    ensures IsNode(s1, c) && s1.uses[c] == s.uses[c] && c < |s1.pages| && s1.pages[c] == s.pages[c]
            && s1.pages[c].Ptes? && i < |s1.pages[c].ptes|
  {
    assert Open(0, s);
  }

  /** freewalk of a page-table page below which nothing is mapped: the panic is not reached, and exactly
      the page-table pages of the subtree are freed. */
  method Freewalk(k: Kernel, c: nat) returns (ok: bool)
    requires k.Valid() && IsNode(k.Now(), c) && NoLeaves(k.Now(), c) && |k.uses[c].path| <= 2
    modifies k
    ensures ok && Razed(old(k.Now()), k.Now(), c) && ValidWithout(k.Now(), old(k.uses)[c])
    decreases 2 - |k.uses[c].path|
  {
    ghost var m := k.Now();
    PathFacts(m, c);
    NothingFirst(m, c);
    var i := 0;
    while i < ENTRIES
      invariant i <= ENTRIES && k.Valid() && RazedFirst(m, k.Now(), c, i) && IsNode(k.Now(), c)
                && k.uses[c] == m.uses[c]
    {
      k.NodeFacts(k.Now(), c, i);
      var pte := k.pages[c].ptes[i];
      ghost var s := k.Now();
      EntryKind(m, s, c, i);
      if pte.v && !IsLeaf(pte) {
        ghost var d := pte.ppn;
        ok := Freewalk(k, pte.ppn);
        ParentStays(s, k.Now(), c, d, i);
        NextFirst(m, s, k.Now(), c, i, d);
        k.pages := k.pages[c := Ptes(k.pages[c].ptes[i := Null()])];
      } else if pte.v {
        return false;
      } else {
        InvalidIsNull(m, c, i);
        SkipEntry(m, s, c, i);
      }
      i := i + 1;
    }
    LastPage(m, k.Now(), c);
    k.Kfree(c);
    return true;
  }

  // ----- uvmfree -----

  /** Everything the tree maps lies below page n. */
  ghost predicate MapsBelow(m: Mem, root: nat, n: nat) {
    forall v: nat :: n <= v < MAXVPN ==> !Leaf(m.pages, root, v).v
  }

  /** A tree that maps nothing has no valid leaf entry. */
  lemma NothingMapped(m: Mem, root: nat)
    requires Inv(m) && IsRoot(m, root) && MapsBelow(m, root, 0)
    ensures NoLeaves(m, root)
  {
    forall u: nat, i: nat | Under(m, root, u) && |m.uses[u].path| == 2 ensures !Entry(m.pages, u, i).v {
      if i < ENTRIES {
        var v := Vpn(m.uses[u].path, i);
        SlotOf(m, u, i, v);
        NodeNotZero(m, u);
        PathInRange(m, u);
        SlotInRange(m.uses[u].path, i);
        assert Leaf(m.pages, root, v) == Entry(m.pages, u, i);
      } else {
        LongEntry(m, u, i);
      }
    }
  }

  lemma SlotInRange(path: seq<nat>, i: nat)
    requires |path| == 2 && path[0] < ENTRIES / 2 && path[1] < ENTRIES && i < ENTRIES
    ensures Vpn(path, i) < MAXVPN
  {
  }

  lemma LongEntry(m: Mem, u: nat, i: nat)
    requires Inv(m) && IsNode(m, u) && i >= ENTRIES
    ensures !Entry(m.pages, u, i).v
  {
    assert Open(0, m);
  }

  /** Page p belongs to the tree: a page-table page of it, or user memory that it maps. */
  ghost predicate Belongs(m: Mem, root: nat, p: nat) {
    Under(m, root, p) || MappedIn(m, p, root, 0, TRAPFRAME)
  }

  /** Exactly the pages of the tree are freed; all other trees map what they mapped. */
  ghost predicate TreeFreed(m: Mem, m': Mem, root: nat) {
    && |m.uses| == |m.pages| == |m'.pages| == |m'.uses|
    && (forall p :: 0 <= p < |m.uses| ==> m'.uses[p] == if Belongs(m, root, p) then Free else m.uses[p])
    && (forall p :: 0 <= p < |m.uses| && (m.uses[p].Owned? || m.uses[p].Kept?) && !Belongs(m, root, p) ==>
       m'.pages[p] == m.pages[p])
    && (forall r: nat :: IsRoot(m, r) && r != root ==> IsRoot(m', r))
    && (forall r: nat, v: nat :: IsRoot(m, r) && r != root && v < MAXVPN ==>
       Leaf(m'.pages, r, v) == Leaf(m.pages, r, v))
  }

  /** The entries of the other trees are where they were. */
  lemma OtherTree(m: Mem, m': Mem, root: nat, r: nat, v: nat)
    requires Inv(m) && Razed(m, m', root) && IsRoot(m, root) && IsRoot(m, r) && r != root
    ensures IsRoot(m', r) && Leaf(m'.pages, r, v) == Leaf(m.pages, r, v)
  {
    NodeNotZero(m, r);
    PathFacts(m, r);
    assert m'.pages[r] == m.pages[r];
    var l1 := TableAt(m.pages, r, 1, v);
    if l1 != 0 {
      TableIsNode(m, r, 1, v);
      PathFacts(m, l1);
      assert m'.pages[l1] == m.pages[l1];
      var l0 := TableAt(m.pages, r, 0, v);
      if l0 != 0 {
        TableIsNode(m, r, 0, v);
        PathFacts(m, l0);
        assert m'.pages[l0] == m.pages[l0];
      }
    }
  }

  lemma UnderStays(m: Mem, m1: Mem, root: nat, lo: nat, hi: nat, p: nat)
    requires PagesGone(m, m1, root, lo, hi, Free) && IsRoot(m, root) && p < |m.uses|
    ensures Under(m1, root, p) <==> Under(m, root, p)
  {
  }

  lemma MappedBelowSize(m: Mem, root: nat, n: nat, p: nat)
    requires Inv(m) && IsRoot(m, root) && n <= TRAPFRAME && MapsBelow(m, root, n)
    ensures MappedIn(m, p, root, 0, TRAPFRAME) <==> MappedIn(m, p, root, 0, n)
  {
    if MappedIn(m, p, root, 0, TRAPFRAME) {
      var v := Vpn(m.uses[m.uses[p].t].path, m.uses[p].i);
      assert MappedIn(m, p, root, v, v + 1);
      MappedAt(m, root, v, p);
    }
  }

  lemma TreeIsFreed(m: Mem, m1: Mem, m2: Mem, root: nat, n: nat)
    requires Inv(m) && Inv(m1) && IsRoot(m, root) && IsRoot(m1, root) && n <= TRAPFRAME && MapsBelow(m, root, n)
    requires Unmaps(m, m1, root, 0, n, Free) && Razed(m1, m2, root)
    ensures TreeFreed(m, m2, root)
  {
    forall p | 0 <= p < |m.uses|
      ensures m2.uses[p] == if Belongs(m, root, p) then Free else m.uses[p]
      ensures (m.uses[p].Owned? || m.uses[p].Kept?) && !Belongs(m, root, p) ==> m2.pages[p] == m.pages[p]
    {
      UnderStays(m, m1, root, 0, n, p);
      MappedBelowSize(m, root, n, p);
    }
    forall r: nat | IsRoot(m, r) && r != root ensures IsRoot(m2, r) {
      OtherTree(m1, m2, root, r, 0);
    }
    forall r: nat, v: nat | IsRoot(m, r) && r != root && v < MAXVPN
      ensures Leaf(m2.pages, r, v) == Leaf(m.pages, r, v)
    {
      OtherTree(m1, m2, root, r, v);
    }
  }
}
