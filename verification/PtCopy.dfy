/**
 vmfault, copyout and copyin against a flat view of user memory, in which a page that is not yet mapped
 reads as zeros.
 */
module PtCopy {
  import opened PtModel
  import opened PtSteps
  import opened PtCode
  import opened PtUser
  import opened PtFork

  /** What user memory holds at an address. */
  function ByteAt(pages: seq<Page>, root: nat, va: nat): byte {
    var e := Leaf(pages, root, va / PGSIZE);
    if va / PGSIZE < TRAPFRAME && e.v && e.ppn < |pages| && pages[e.ppn].Bytes? && |pages[e.ppn].bytes| == PGSIZE
    then pages[e.ppn].bytes[va % PGSIZE] else 0
  }

  /** The bytes s stored at address dst of one tree, and no other byte of any tree. */
  ghost predicate Stored(m: Mem, m': Mem, root: nat, dst: nat, s: seq<byte>) {
    match m'
    case Mem(_, _, _) =>
      forall n: int {:trigger Look(n, m, m')} :: 0 <= n ==>
        && (forall r: nat :: IsRoot(m, r) ==> IsRoot(m', r))
        && (forall r: nat, va: nat :: IsRoot(m, r) && va / PGSIZE < MAXVPN ==>
              ByteAt(m'.pages, r, va) ==
                if r == root && dst <= va < dst + |s| then s[va - dst] else ByteAt(m.pages, r, va))
  }

  lemma StoredNothing(m: Mem, root: nat, dst: nat)
    ensures Stored(m, m, root, dst, [])
  {
  }

  lemma StoredTwice(m: Mem, m1: Mem, m2: Mem, root: nat, dst: nat, s: seq<byte>, t: seq<byte>)
    requires Stored(m, m1, root, dst, s) && Stored(m1, m2, root, dst + |s|, t)
    ensures Stored(m, m2, root, dst, s + t)
  {
    assert Look(0, m, m1) && Look(0, m1, m2);
    forall r: nat, va: nat | IsRoot(m, r) && va / PGSIZE < MAXVPN
      ensures ByteAt(m2.pages, r, va) ==
              if r == root && dst <= va < dst + |s + t| then (s + t)[va - dst] else ByteAt(m.pages, r, va)
    {
      assert IsRoot(m1, r);
    }
  }

  // ----- writing into a user page -----

  function Rewritten(m: Mem, p: nat, content: Page): Mem
    requires p < |m.pages|
  {
    Mem(m.pages[p := content], m.uses, m.free)
  }

  lemma RewriteEntries(m: Mem, m': Mem, p: nat, content: Page)
    requires NodesOk(m) && p < |m.uses| == |m.pages| && m.uses[p].Owned? && m' == Rewritten(m, p, content)
    ensures forall u: nat :: IsNode(m', u) <==> IsNode(m, u)
    ensures forall u: nat, j: nat :: IsNode(m, u) ==> Entry(m'.pages, u, j) == Entry(m.pages, u, j)
  {
  }

  lemma RewriteKeeps(m: Mem, p: nat, content: Page)
    requires Inv(m) && p < |m.uses| == |m.pages| && m.uses[p].Owned? && FullPage(content)
    ensures Inv(Rewritten(m, p, content)) && SameTrees(m, Rewritten(m, p, content))
  {
    assert Open(0, m);
    var m' := Rewritten(m, p, content);
    RewriteEntries(m, m', p, content);
    RewriteNodes(m, m', p, content);
    RewriteEntriesOk(m, m', p, content);
    RewriteOwned(m, m', p, content);
    EntriesGiveTrees(m, m');
  }

  lemma RewriteNodes(m: Mem, m': Mem, p: nat, content: Page)
    requires Sized(m) && NodesOk(m) && FreeOk(m) && p < |m.uses| && m.uses[p].Owned? && FullPage(content)
             && m' == Rewritten(m, p, content)
    ensures Sized(m') && NodesOk(m') && FreeOk(m')
  {
    RewriteEntries(m, m', p, content);
    forall q: nat | IsNode(m', q) && m'.uses[q].path != [] ensures HangsFrom(m', q, m'.uses[q]) {
      assert HangsFrom(m, q, m.uses[q]);
    }
  }

  lemma RewriteEntriesOk(m: Mem, m': Mem, p: nat, content: Page)
    requires NodesOk(m) && EntriesOk(m) && p < |m.uses| == |m.pages| && m.uses[p].Owned?
             && m' == Rewritten(m, p, content)
    ensures EntriesOk(m')
  {
    RewriteEntries(m, m', p, content);
    forall u, j | IsNode(m', u) && 0 <= j < ENTRIES ensures EntryOk(m', u, j, Entry(m'.pages, u, j)) {
      assert EntryOk(m, u, j, Entry(m.pages, u, j));
    }
  }

  lemma RewriteOwned(m: Mem, m': Mem, p: nat, content: Page)
    requires NodesOk(m) && OwnedOk(m) && p < |m.uses| == |m.pages| && m.uses[p].Owned? && FullPage(content)
             && m' == Rewritten(m, p, content)
    ensures OwnedOk(m')
  {
    RewriteEntries(m, m', p, content);
    forall q | 0 <= q < |m'.uses| && m'.uses[q].Owned? ensures OwnedPage(m', q, m'.uses[q]) {
      assert OwnedPage(m, q, m.uses[q]);
    }
  }

  /** One user page is mapped in one place. */
  lemma OnePlace(m: Mem, r: nat, v: nat, r': nat, v': nat)
    requires Inv(m) && IsRoot(m, r) && IsRoot(m, r') && v < TRAPFRAME && v' < TRAPFRAME
    requires Leaf(m.pages, r, v).v && Leaf(m.pages, r', v').v && Leaf(m.pages, r, v).ppn == Leaf(m.pages, r', v').ppn
    ensures r == r' && v == v'
  {
    UserPage(m, r, v);
    UserPage(m, r', v');
    SlotsAreDistinct(m, r, v, r', v');
  }

  function Patch(b: seq<byte>, o: nat, s: seq<byte>): seq<byte>
    requires o + |s| <= |b|
  {
    b[..o] + s + b[o + |s|..]
  }

  lemma SplitAddress(v: nat, o: nat, va: nat, n: nat)
    requires o + n <= PGSIZE
    ensures v * PGSIZE + o <= va < v * PGSIZE + o + n <==> va / PGSIZE == v && o <= va % PGSIZE < o + n
  {
    assert va == va / PGSIZE * PGSIZE + va % PGSIZE;
  }

  lemma PatchAt(m: Mem, m': Mem, root: nat, v: nat, o: nat, s: seq<byte>, p: nat, r: nat, va: nat)
    requires Inv(m) && Inv(m') && IsRoot(m, root) && IsRoot(m, r) && v < TRAPFRAME && o + |s| <= PGSIZE
             && va / PGSIZE < MAXVPN
    requires Leaf(m.pages, root, v).v && Leaf(m.pages, root, v).ppn == p && p < |m.pages| && FullPage(m.pages[p])
    requires m' == Rewritten(m, p, Bytes(Patch(m.pages[p].bytes, o, s))) && SameTrees(m, m')
    ensures ByteAt(m'.pages, r, va)
         == if r == root && v * PGSIZE + o <= va < v * PGSIZE + o + |s| then s[va - (v * PGSIZE + o)]
           else ByteAt(m.pages, r, va)
  {
    SplitAddress(v, o, va, |s|);
    var w := va / PGSIZE;
    assert Leaf(m'.pages, r, w) == Leaf(m.pages, r, w);
    if w < TRAPFRAME && Leaf(m.pages, r, w).v {
      UserPage(m, r, w);
      if Leaf(m.pages, r, w).ppn == p {
        OnePlace(m, r, w, root, v);
      }
    }
  }

  lemma PatchStores(m: Mem, m': Mem, root: nat, v: nat, o: nat, s: seq<byte>, p: nat)
    requires Inv(m) && Inv(m') && IsRoot(m, root) && v < TRAPFRAME && o + |s| <= PGSIZE
    requires Leaf(m.pages, root, v).v && Leaf(m.pages, root, v).ppn == p && p < |m.pages| && FullPage(m.pages[p])
    requires m' == Rewritten(m, p, Bytes(Patch(m.pages[p].bytes, o, s))) && SameTrees(m, m')
    ensures Stored(m, m', root, v * PGSIZE + o, s)
  {
    forall r: nat, va: nat | IsRoot(m, r) && va / PGSIZE < MAXVPN
      ensures ByteAt(m'.pages, r, va)
           == if r == root && v * PGSIZE + o <= va < v * PGSIZE + o + |s| then s[va - (v * PGSIZE + o)]
             else ByteAt(m.pages, r, va)
    {
      PatchAt(m, m', root, v, o, s, p, r, va);
    }
  }

  // ----- vmfault -----

  lemma GainAt(m: Mem, m': Mem, root: nat, v: nat, p: nat, perm: Perm, r: nat, va: nat)
    requires Inv(m) && IsRoot(m, root) && IsRoot(m, r) && Gains(m, m', root, v, p, perm, ZeroPage())
             && !Leaf(m.pages, root, v).v
    requires va / PGSIZE < MAXVPN
    ensures ByteAt(m'.pages, r, va) == ByteAt(m.pages, r, va)
  {
    var w := va / PGSIZE;
    if (r, w) != (root, v) {
      assert Leaf(m'.pages, r, w) == Leaf(m.pages, r, w);
      if w < TRAPFRAME && Leaf(m.pages, r, w).v {
        UserPage(m, r, w);
      }
    }
  }

  lemma GainShowsNothing(m: Mem, m': Mem, root: nat, v: nat, p: nat, perm: Perm, dst: nat)
    requires Inv(m) && IsRoot(m, root) && Gains(m, m', root, v, p, perm, ZeroPage()) && !Leaf(m.pages, root, v).v
    ensures Stored(m, m', root, dst, [])
  {
    forall r: nat, va: nat | IsRoot(m, r) && va / PGSIZE < MAXVPN
      ensures ByteAt(m'.pages, r, va) == ByteAt(m.pages, r, va)
    {
      GainAt(m, m', root, v, p, perm, r, va);
    }
  }

  lemma GrowthShowsNothing(m: Mem, m': Mem, root: nat, dst: nat)
    requires Inv(m) && Grown(m, m', root)
    ensures Stored(m, m', root, dst, [])
  {
    forall r: nat, va: nat | IsRoot(m, r) && va / PGSIZE < MAXVPN
      ensures ByteAt(m'.pages, r, va) == ByteAt(m.pages, r, va)
    {
      var w := va / PGSIZE;
      assert Leaf(m'.pages, r, w) == Leaf(m.pages, r, w);
      if w < TRAPFRAME && Leaf(m.pages, r, w).v {
        UserPage(m, r, w);
      }
    }
  }

  /** What is mapped stays mapped, and nothing is mapped above user memory. */
  ghost predicate KeepsLeaves(m: Mem, m': Mem, root: nat) {
    match m'
    case Mem(_, _, _) =>
      forall v: nat :: v < MAXVPN && (Leaf(m.pages, root, v).v || v >= TRAPFRAME) ==>
        Leaf(m'.pages, root, v) == Leaf(m.pages, root, v)
  }

  lemma LeavesKeptTwice(m: Mem, m1: Mem, m2: Mem, root: nat)
    requires KeepsLeaves(m, m1, root) && KeepsLeaves(m1, m2, root)
    ensures KeepsLeaves(m, m2, root)
  {
    forall v: nat | v < MAXVPN && (Leaf(m.pages, root, v).v || v >= TRAPFRAME)
      ensures Leaf(m2.pages, root, v) == Leaf(m.pages, root, v)
    {
      assert Leaf(m1.pages, root, v) == Leaf(m.pages, root, v);
    }
  }

  /** vmfault: a page of zeros at a page below the size of the process that is not mapped; 0 exactly when
      the page is not one of those or memory has run out.  User memory reads as before either way. */
  method Vmfault(k: Kernel, root: nat, sz: nat, vpn: nat, ghost dst: nat) returns (p: nat)
    requires k.Valid() && IsRoot(k.Now(), root) && sz <= MAXSZ && vpn < MAXVPN && |k.uses| == |k.pages|
    modifies k
    ensures k.Valid() && Stored(old(k.Now()), k.Now(), root, dst, []) && KeepsLeaves(old(k.Now()), k.Now(), root)
            && |k.uses| == |k.pages|
    ensures IsRoot(k.Now(), root)
    ensures p != 0 ==> Leaf(k.pages, root, vpn) == LeafPte(p, Perm(true, true, false, true))
    ensures p == 0 <==> vpn * PGSIZE >= sz || Leaf(old(k.pages), root, vpn).v || !Enough(old(k.Now()), root, vpn)
    ensures p == 0 ==> Leaf(k.pages, root, vpn) == Leaf(old(k.pages), root, vpn)
    ensures p == 0 ==> vpn * PGSIZE >= sz || Leaf(k.pages, root, vpn).v || !Enough(k.Now(), root, vpn)
  {
    ghost var m := k.Now();
    StoredNothing(m, root, dst);
    if vpn * PGSIZE >= sz {
      return 0;
    }
    var e := Lookup(k, root, vpn);
    if e.v {
      return 0;
    }
    var ok;
    ok, p := GainPage(k, root, vpn, ZeroPage(), Perm(true, true, false, true));
    if ok {
      GainShowsNothing(m, k.Now(), root, vpn, p, Perm(true, true, false, true), dst);
    } else {
      GrowthShowsNothing(m, k.Now(), root, dst);
      return 0;
    }
  }

  /** walkaddr. */
  method Walkaddr(k: Kernel, root: nat, vpn: nat) returns (p: nat)
    requires k.Valid() && IsRoot(k.Now(), root) && |k.uses| == |k.pages|
    modifies k
    ensures k.Now() == old(k.Now())
    ensures p != 0 ==>
              && vpn < MAXVPN && Leaf(k.pages, root, vpn).v && Leaf(k.pages, root, vpn).u
              && Leaf(k.pages, root, vpn).ppn == p
    ensures p == 0 ==> vpn >= MAXVPN || !Leaf(k.pages, root, vpn).v || !Leaf(k.pages, root, vpn).u
  {
    if vpn >= MAXVPN {
      return 0;
    }
    var e := Lookup(k, root, vpn);
    if !e.v || !e.u {
      return 0;
    }
    UserPageNotZero(k.Now(), root, vpn);
    return e.ppn;
  }

  /** The trampoline and the trapframe are not for the user. */
  ghost predicate Hidden(m: Mem, root: nat) {
    forall v: nat :: TRAPFRAME <= v < MAXVPN ==> !Leaf(m.pages, root, v).u
  }

  /** No page is there for the user, and none can be made: the page is mapped without the user bit, or it is
      beyond the size of the process, or memory has run out. */
  ghost predicate Unavailable(m: Mem, root: nat, sz: nat, vpn: nat) {
    match m
    case Mem(pages, _, _) =>
      || vpn >= MAXVPN
      || (if Leaf(pages, root, vpn).v then !Leaf(pages, root, vpn).u else vpn * PGSIZE >= sz || !Enough(m, root, vpn))
  }

  /** walkaddr, and vmfault where that fails: the page of a user address, or 0. */
  method GetPage(k: Kernel, root: nat, sz: nat, vpn: nat, ghost dst: nat) returns (p: nat)
    requires k.Valid() && IsRoot(k.Now(), root) && sz <= MAXSZ && |k.uses| == |k.pages| && Hidden(k.Now(), root)
    modifies k
    ensures k.Valid() && Stored(old(k.Now()), k.Now(), root, dst, []) && KeepsLeaves(old(k.Now()), k.Now(), root)
            && Hidden(k.Now(), root)
    ensures |k.uses| == |k.pages| && IsRoot(k.Now(), root)
    ensures p != 0 ==>
              && vpn < TRAPFRAME && Leaf(k.pages, root, vpn).v && Leaf(k.pages, root, vpn).u
              && Leaf(k.pages, root, vpn).ppn == p
    ensures p != 0 ==> p < |k.pages| && k.uses[p].Owned? && FullPage(k.pages[p])
    ensures p == 0 <==> Unavailable(k.Now(), root, sz, vpn)
  {
    StoredNothing(k.Now(), root, dst);
    p := Walkaddr(k, root, vpn);
    if p == 0 && vpn < MAXVPN {
      p := Vmfault(k, root, sz, vpn, dst);
    }
    if p != 0 {
      UserPage(k.Now(), root, vpn);
    }
  }

  // ----- copyout -----

  /** Every address from lo on, n of them, is mapped for the user to write. */
  ghost predicate Writable(m: Mem, root: nat, lo: nat, n: nat) {
    match m
    case Mem(pages, _, _) =>
      forall va: nat :: lo <= va < lo + n ==>
        va / PGSIZE < TRAPFRAME && Leaf(pages, root, va / PGSIZE).v && Leaf(pages, root, va / PGSIZE).u
          && Leaf(pages, root, va / PGSIZE).w
  }

  /** The user cannot write the page, and no page to write can be made there. */
  ghost predicate ReadOnly(m: Mem, root: nat, sz: nat, vpn: nat) {
    Unavailable(m, root, sz, vpn) || (Leaf(m.pages, root, vpn).v && !Leaf(m.pages, root, vpn).w)
  }

  lemma WritableMore(m: Mem, m': Mem, root: nat, lo: nat, n: nat, v: nat, n': nat)
    requires Writable(m, root, lo, n) && KeepsLeaves(m, m', root)
    requires n' == 0 || (lo + n) / PGSIZE == (lo + n + n' - 1) / PGSIZE == v
    requires n' > 0 ==>
              && v < TRAPFRAME && Leaf(m'.pages, root, v).v && Leaf(m'.pages, root, v).u
              && Leaf(m'.pages, root, v).w
    ensures Writable(m', root, lo, n + n')
  {
    forall va: nat | lo <= va < lo + (n + n')
      ensures va / PGSIZE < TRAPFRAME && Leaf(m'.pages, root, va / PGSIZE).v && Leaf(m'.pages, root, va / PGSIZE).u
              && Leaf(m'.pages, root, va / PGSIZE).w
    {
      if va < lo + n {
        assert Leaf(m.pages, root, va / PGSIZE).v;
      } else {
        assert va / PGSIZE == v;
      }
    }
  }

  /** PGSIZE - (va - va0), or what is left. */
  function Piece(va: nat, left: nat): (n: nat)
    requires left > 0
    ensures 0 < n <= left && va % PGSIZE + n <= PGSIZE && va / PGSIZE == (va + n - 1) / PGSIZE
  {
    if left < PGSIZE - va % PGSIZE then left else PGSIZE - va % PGSIZE
  }

  /** memmove into the page of a user address. */
  method StorePiece(k: Kernel, root: nat, va: nat, p: nat, piece: seq<byte>)
    requires k.Valid() && IsRoot(k.Now(), root) && |k.uses| == |k.pages| && va % PGSIZE + |piece| <= PGSIZE
             && va / PGSIZE < TRAPFRAME
    requires Leaf(k.pages, root, va / PGSIZE).v && Leaf(k.pages, root, va / PGSIZE).ppn == p
    requires p < |k.pages| && k.uses[p].Owned? && FullPage(k.pages[p])
    modifies k
    ensures k.Valid() && Stored(old(k.Now()), k.Now(), root, va, piece) && SameTrees(old(k.Now()), k.Now())
            && |k.uses| == |k.pages|
  {
    ghost var m := k.Now();
    var v, o := va / PGSIZE, va % PGSIZE;
    var content := Bytes(Patch(k.pages[p].bytes, o, piece));
    RewriteKeeps(m, p, content);
    k.pages := k.pages[p := content];
    PatchStores(m, k.Now(), root, v, o, piece, p);
    assert v * PGSIZE + o == va;
  }

  /** One turn of copyout: n bytes stored, or nothing when the page is not there or not writable. */
  method CopyoutTurn(k: Kernel, root: nat, sz: nat, va: nat, piece: seq<byte>) returns (ok: bool)
    requires k.Valid() && IsRoot(k.Now(), root) && sz <= MAXSZ && |k.uses| == |k.pages| && Hidden(k.Now(), root)
    requires va % PGSIZE + |piece| <= PGSIZE
    modifies k
    ensures k.Valid() && IsRoot(k.Now(), root) && |k.uses| == |k.pages| && Hidden(k.Now(), root)
            && KeepsLeaves(old(k.Now()), k.Now(), root)
    ensures Stored(old(k.Now()), k.Now(), root, va, if ok then piece else [])
    ensures ok ==>
              && va / PGSIZE < TRAPFRAME && Leaf(k.pages, root, va / PGSIZE).v && Leaf(k.pages, root, va / PGSIZE).u
              && Leaf(k.pages, root, va / PGSIZE).w
    ensures !ok ==> ReadOnly(k.Now(), root, sz, va / PGSIZE)
  {
    ghost var m := k.Now();
    StoredNothing(m, root, va);
    if va / PGSIZE >= MAXVPN {
      return false;
    }
    var p := GetPage(k, root, sz, va / PGSIZE, va);
    if p == 0 {
      return false;
    }
    var e := Lookup(k, root, va / PGSIZE);
    if !e.w {
      return false;
    }
    ghost var m1 := k.Now();
    StorePiece(k, root, va, p, piece);
    StoredTwice(m, m1, k.Now(), root, va, [], piece);
    assert [] + piece == piece;
    return true;
  }

  lemma PrefixJoin(src: seq<byte>, i: nat, n: nat)
    requires i + n <= |src|
    ensures src[..i] + src[i..i + n] == src[..i + n] && src[..i] + [] == src[..i]
  {
  }

  /** The next turn of copyout, after i bytes. */
  method CopyoutNext(k: Kernel, root: nat, sz: nat, dstva: nat, src: seq<byte>, i: nat, ghost m: Mem)
    returns (ok: bool, n: nat)
    requires k.Valid() && IsRoot(k.Now(), root) && sz <= MAXSZ && |k.uses| == |k.pages| && Hidden(k.Now(), root)
             && i < |src|
    requires Stored(m, k.Now(), root, dstva, src[..i]) && Writable(k.Now(), root, dstva, i)
             && KeepsLeaves(m, k.Now(), root)
    modifies k
    ensures k.Valid() && IsRoot(k.Now(), root) && |k.uses| == |k.pages| && Hidden(k.Now(), root)
    ensures i + n <= |src| && (ok <==> n > 0) && KeepsLeaves(m, k.Now(), root)
    ensures !ok ==> ReadOnly(k.Now(), root, sz, (dstva + i) / PGSIZE)
    ensures Stored(m, k.Now(), root, dstva, src[..i + n]) && Writable(k.Now(), root, dstva, i + n)
  {
    ghost var m1 := k.Now();
    n := Piece(dstva + i, |src| - i);
    var piece := src[i..i + n];
    ok := CopyoutTurn(k, root, sz, dstva + i, piece);
    PrefixJoin(src, i, n);
    LeavesKeptTwice(m, m1, k.Now(), root);
    StoredTwice(m, m1, k.Now(), root, dstva, src[..i], if ok then piece else []);
    WritableMore(m1, k.Now(), root, dstva, i, (dstva + i) / PGSIZE, if ok then n else 0);
    if !ok {
      n := 0;
    }
  }

  /** copyout: exactly the given bytes are stored, in pages that the user may write.  It fails exactly at a
      page that the user cannot write and cannot be given, with the bytes before it stored. */
  method Copyout(k: Kernel, root: nat, sz: nat, dstva: nat, src: seq<byte>) returns (ok: bool, ghost done: nat)
    requires k.Valid() && IsRoot(k.Now(), root) && sz <= MAXSZ && |k.uses| == |k.pages| && Hidden(k.Now(), root)
    modifies k
    ensures k.Valid() && done <= |src| && (ok <==> done == |src|)
    ensures Stored(old(k.Now()), k.Now(), root, dstva, src[..done]) && Writable(k.Now(), root, dstva, done)
    ensures KeepsLeaves(old(k.Now()), k.Now(), root)
    ensures !ok ==> ReadOnly(k.Now(), root, sz, (dstva + done) / PGSIZE)
  {
    ghost var m := k.Now();
    StoredNothing(m, root, dstva);
    var i := 0;
    while i < |src|
      invariant 0 <= i <= |src| && k.Valid() && IsRoot(k.Now(), root) && |k.uses| == |k.pages| && Hidden(k.Now(), root)
      invariant Stored(m, k.Now(), root, dstva, src[..i]) && Writable(k.Now(), root, dstva, i)
                && KeepsLeaves(m, k.Now(), root)
    {
      var got, n := CopyoutNext(k, root, sz, dstva, src, i, m);
      if !got {
        return false, i;
      }
      i := i + n;
    }
    return true, |src|;
  }

  /** A page that was mapped and that the user could not write, such as the guard page of the stack, holds
      after copyout what it held before. */
  lemma GuardIsKept(m: Mem, m': Mem, root: nat, dstva: nat, s: seq<byte>, va: nat)
    requires IsRoot(m, root) && va / PGSIZE < MAXVPN && Stored(m, m', root, dstva, s) && Writable(m', root, dstva, |s|)
    requires KeepsLeaves(m, m', root)
    requires Leaf(m.pages, root, va / PGSIZE).v
             && !(Leaf(m.pages, root, va / PGSIZE).u && Leaf(m.pages, root, va / PGSIZE).w)
    ensures ByteAt(m'.pages, root, va) == ByteAt(m.pages, root, va)
  {
    assert Look(0, m, m');
    assert Leaf(m'.pages, root, va / PGSIZE) == Leaf(m.pages, root, va / PGSIZE);
  }

  // ----- copyin -----

  /** n bytes of user memory from an address on. */
  function Read(pages: seq<Page>, root: nat, va: nat, n: nat): (r: seq<byte>)
    ensures |r| == n && forall i :: 0 <= i < n ==> r[i] == ByteAt(pages, root, va + i)
  {
    seq<byte>(n, i requires 0 <= i < n => ByteAt(pages, root, va + i))
  }

  lemma SameRead(m: Mem, m': Mem, root: nat, dst: nat, va: nat, n: nat)
    requires IsRoot(m, root) && Stored(m, m', root, dst, []) && (n > 0 ==> (va + n - 1) / PGSIZE < MAXVPN)
    ensures Read(m'.pages, root, va, n) == Read(m.pages, root, va, n)
  {
    assert Look(0, m, m');
    var l, r := Read(m'.pages, root, va, n), Read(m.pages, root, va, n);
    forall i | 0 <= i < n ensures l[i] == r[i] {
      assert ByteAt(m'.pages, root, va + i) == ByteAt(m.pages, root, va + i);
    }
  }

  lemma ReadMore(pages: seq<Page>, root: nat, va: nat, n: nat, n': nat)
    ensures Read(pages, root, va, n) + Read(pages, root, va + n, n') == Read(pages, root, va, n + n')
  {
    var l, r := Read(pages, root, va, n) + Read(pages, root, va + n, n'), Read(pages, root, va, n + n');
    forall i | 0 <= i < n + n' ensures l[i] == r[i] {
      if i >= n {
        assert l[i] == ByteAt(pages, root, va + n + (i - n));
      }
    }
  }

  lemma PieceIsRead(pages: seq<Page>, root: nat, va: nat, p: nat, n: nat)
    requires va / PGSIZE < TRAPFRAME && va % PGSIZE + n <= PGSIZE
    requires Leaf(pages, root, va / PGSIZE).v && Leaf(pages, root, va / PGSIZE).ppn == p < |pages| && FullPage(pages[p])
    ensures Read(pages, root, va, n) == pages[p].bytes[va % PGSIZE..va % PGSIZE + n]
  {
    var l, r := Read(pages, root, va, n), pages[p].bytes[va % PGSIZE..va % PGSIZE + n];
    forall i | 0 <= i < n ensures l[i] == r[i] {
      SamePage(va, i);
    }
  }

  lemma SamePage(va: nat, i: nat)
    requires va % PGSIZE + i < PGSIZE
    ensures (va + i) / PGSIZE == va / PGSIZE && (va + i) % PGSIZE == va % PGSIZE + i
  {
  }

  /** One turn of copyin. */
  method CopyinTurn(k: Kernel, root: nat, sz: nat, va: nat, n: nat) returns (ok: bool, piece: seq<byte>)
    requires k.Valid() && IsRoot(k.Now(), root) && sz <= MAXSZ && |k.uses| == |k.pages| && Hidden(k.Now(), root)
    requires 0 < n && va % PGSIZE + n <= PGSIZE
    modifies k
    ensures k.Valid() && IsRoot(k.Now(), root) && |k.uses| == |k.pages| && Hidden(k.Now(), root)
    ensures Stored(old(k.Now()), k.Now(), root, va, [])
    ensures ok ==> va / PGSIZE < TRAPFRAME && piece == Read(old(k.pages), root, va, n)
    ensures !ok ==> Unavailable(k.Now(), root, sz, va / PGSIZE)
  {
    ghost var m := k.Now();
    piece := [];
    var p := GetPage(k, root, sz, va / PGSIZE, va);
    if p == 0 {
      return false, [];
    }
    piece := k.pages[p].bytes[va % PGSIZE..va % PGSIZE + n];
    PieceIsRead(k.pages, root, va, p, n);
    SamePage(va, n - 1);
    SameRead(m, k.Now(), root, va, va, n);
    return true, piece;
  }

  lemma StoredAnywhere(m: Mem, m': Mem, root: nat, va: nat, va': nat)
    requires Stored(m, m', root, va, [])
    ensures Stored(m, m', root, va', [])
  {
    assert Look(0, m, m');
  }

  /** The next turn of copyin, after the bytes dst. */
  method CopyinNext(k: Kernel, root: nat, sz: nat, srcva: nat, len: nat, dst: seq<byte>, ghost m: Mem)
    returns (ok: bool, more: seq<byte>)
    requires k.Valid() && IsRoot(k.Now(), root) && sz <= MAXSZ && |k.uses| == |k.pages| && Hidden(k.Now(), root)
             && |dst| < len && IsRoot(m, root)
    requires Stored(m, k.Now(), root, srcva, []) && dst == Read(m.pages, root, srcva, |dst|)
    modifies k
    ensures k.Valid() && IsRoot(k.Now(), root) && |k.uses| == |k.pages| && Hidden(k.Now(), root)
    ensures Stored(m, k.Now(), root, srcva, [])
    ensures ok ==> |dst| < |more| <= len && more == Read(m.pages, root, srcva, |more|)
    ensures !ok ==> Unavailable(k.Now(), root, sz, (srcva + |dst|) / PGSIZE)
  {
    ghost var m1 := k.Now();
    var va := srcva + |dst|;
    var n := Piece(va, len - |dst|);
    var piece;
    ok, piece := CopyinTurn(k, root, sz, va, n);
    more := dst + piece;
    StoredAnywhere(m1, k.Now(), root, va, srcva);
    ghost var none: seq<byte> := [];
    StoredTwice(m, m1, k.Now(), root, srcva, none, none);
    assert none + none == none;
    if ok {
      SamePage(va, n - 1);
      ReadNext(m, m1, root, srcva, va, dst, n, piece);
    }
  }

  lemma ReadNext(m: Mem, m1: Mem, root: nat, srcva: nat, va: nat, dst: seq<byte>, n: nat, piece: seq<byte>)
    requires IsRoot(m, root) && Stored(m, m1, root, srcva, []) && dst == Read(m.pages, root, srcva, |dst|)
    requires 0 < n && va == srcva + |dst| && (va + n - 1) / PGSIZE < MAXVPN && piece == Read(m1.pages, root, va, n)
    ensures dst + piece == Read(m.pages, root, srcva, |dst + piece|)
  {
    SameRead(m, m1, root, srcva, va, n);
    ReadMore(m.pages, root, srcva, |dst|, n);
  }

  /** copyin: the bytes of user memory, all of them or those before a page that the user cannot be given; user
      memory reads as before. */
  method Copyin(k: Kernel, root: nat, sz: nat, srcva: nat, len: nat) returns (ok: bool, dst: seq<byte>)
    requires k.Valid() && IsRoot(k.Now(), root) && sz <= MAXSZ && |k.uses| == |k.pages| && Hidden(k.Now(), root)
    modifies k
    ensures k.Valid() && Stored(old(k.Now()), k.Now(), root, srcva, [])
    ensures dst == Read(old(k.pages), root, srcva, |dst|) && |dst| <= len && (ok <==> |dst| == len)
    ensures !ok ==> Unavailable(k.Now(), root, sz, (srcva + |dst|) / PGSIZE)
  {
    ghost var m := k.Now();
    StoredNothing(m, root, srcva);
    dst := [];
    while |dst| < len
      invariant |dst| <= len && k.Valid() && IsRoot(k.Now(), root) && |k.uses| == |k.pages| && Hidden(k.Now(), root)
      invariant Stored(m, k.Now(), root, srcva, []) && dst == Read(m.pages, root, srcva, |dst|)
      decreases len - |dst|
    {
      var got, more := CopyinNext(k, root, sz, srcva, len, dst, m);
      if !got {
        return false, dst;
      }
      dst := more;
    }
    return true, dst;
  }

  // ----- copyinstr -----

  ghost predicate NoZero(s: seq<byte>) {
    forall i :: 0 <= i < |s| ==> s[i] != 0
  }

  /** The inner loop of copyinstr: up to n bytes from position o, up to a zero byte. */
  method ScanPiece(bytes: seq<byte>, o: nat, n: nat) returns (piece: seq<byte>, found: bool)
    requires o + n <= |bytes|
    ensures |piece| <= n && piece == bytes[o..o + |piece|] && NoZero(piece)
    ensures if found then |piece| < n && bytes[o + |piece|] == 0 else |piece| == n
  {
    piece := [];
    while |piece| < n
      invariant |piece| <= n && piece == bytes[o..o + |piece|] && NoZero(piece)
      decreases n - |piece|
    {
      if bytes[o + |piece|] == 0 {
        return piece, true;
      }
      piece := piece + [bytes[o + |piece|]];
    }
    return piece, false;
  }

  /** One turn of copyinstr: bytes of one page that the user can see. */
  method CopyinstrTurn(k: Kernel, root: nat, va: nat, n: nat) returns (mapped: bool, piece: seq<byte>, found: bool)
    requires k.Valid() && IsRoot(k.Now(), root) && |k.uses| == |k.pages| && Hidden(k.Now(), root) && 0 < n
             && va % PGSIZE + n <= PGSIZE
    modifies k
    ensures k.Now() == old(k.Now())
    ensures !mapped ==>
              || va / PGSIZE >= MAXVPN || !Leaf(k.pages, root, va / PGSIZE).v
              || !Leaf(k.pages, root, va / PGSIZE).u
    ensures mapped ==> |piece| <= n && piece == Read(k.pages, root, va, |piece|) && NoZero(piece)
    ensures mapped ==> if found then |piece| < n && ByteAt(k.pages, root, va + |piece|) == 0 else |piece| == n
  {
    piece, found := [], false;
    var p := Walkaddr(k, root, va / PGSIZE);
    if p == 0 {
      return false, [], false;
    }
    assert va / PGSIZE < TRAPFRAME;
    UserPage(k.Now(), root, va / PGSIZE);
    piece, found := ScanPiece(k.pages[p].bytes, va % PGSIZE, n);
    PieceIsRead(k.pages, root, va, p, |piece|);
    if found {
      ByteIs(k.pages, root, va, p, |piece|);
    }
    return true, piece, found;
  }

  lemma ByteIs(pages: seq<Page>, root: nat, va: nat, p: nat, i: nat)
    requires va / PGSIZE < TRAPFRAME && va % PGSIZE + i < PGSIZE
    requires Leaf(pages, root, va / PGSIZE).v && Leaf(pages, root, va / PGSIZE).ppn == p < |pages| && FullPage(pages[p])
    ensures ByteAt(pages, root, va + i) == pages[p].bytes[va % PGSIZE + i]
  {
    SamePage(va, i);
  }

  lemma UserPageNotZero(m: Mem, root: nat, v: nat)
    requires Inv(m) && IsRoot(m, root)
    ensures Leaf(m.pages, root, v).v ==> Leaf(m.pages, root, v).ppn != 0
  {
    if Leaf(m.pages, root, v).v {
      TableIsNode(m, root, 0, v);
      assert Open(0, m);
      assert EntryOk(m, TableAt(m.pages, root, 0, v), Px(0, v), Leaf(m.pages, root, v));
    }
  }

  lemma NoZeroJoin(a: seq<byte>, b: seq<byte>)
    requires NoZero(a) && NoZero(b)
    ensures NoZero(a + b)
  {
  }

  /** copyinstr: on success the bytes of user memory up to the first zero byte, fewer than max of them; on
      failure there is no zero byte among the first max, or none before a page that the user cannot see. */
  method Copyinstr(k: Kernel, root: nat, srcva: nat, max: nat) returns (ok: bool, dst: seq<byte>)
    requires k.Valid() && IsRoot(k.Now(), root) && |k.uses| == |k.pages| && Hidden(k.Now(), root)
    modifies k
    ensures k.Now() == old(k.Now())
    ensures dst == Read(k.pages, root, srcva, |dst|) && NoZero(dst) && |dst| <= max
    ensures ok ==> |dst| < max && ByteAt(k.pages, root, srcva + |dst|) == 0
    ensures !ok ==>
              || |dst| == max
              || (var v := (srcva + |dst|) / PGSIZE;
                  v >= MAXVPN || !Leaf(k.pages, root, v).v || !Leaf(k.pages, root, v).u)
  {
    dst := [];
    while |dst| < max
      invariant |dst| <= max && k.Now() == old(k.Now()) && dst == Read(k.pages, root, srcva, |dst|) && NoZero(dst)
      decreases max - |dst|
    {
      var va := srcva + |dst|;
      var mapped, piece, found := CopyinstrTurn(k, root, va, Piece(va, max - |dst|));
      if !mapped {
        return false, dst;
      }
      ReadMore(k.pages, root, srcva, |dst|, |piece|);
      NoZeroJoin(dst, piece);
      dst := dst + piece;
      if found {
        return true, dst;
      }
    }
    return false, dst;
  }
}
