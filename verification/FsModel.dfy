/**
 The block layer of the file system as a value: who owns which block, and which bytes a file holds.
 */
module FsModel {
  import opened FsBytes

  const NDIRECT: nat := 12
  const MAXFILE: nat := NDIRECT + NINDIRECT
  const MAXBYTES: nat := MAXFILE * BSIZE
  const IPB: nat := 16   // inodes per block

  /** The super block; data blocks start after the last bitmap block. */
  datatype Super = Super(size: nat, ninodes: nat, inodestart: nat, bmapstart: nat, datastart: nat)

  /** addrs holds NDIRECT direct block numbers and then the number of the indirect block. */
  datatype Inode = Inode(addrs: seq<nat>, size: nat)

  datatype Fs = Fs(sb: Super, blocks: seq<Block>, inodes: seq<Inode>)

  function BBlock(sb: Super, b: nat): nat { b / BPB + sb.bmapstart }
  function IBlock(sb: Super, i: nat): nat { i / IPB + sb.inodestart }

  ghost predicate Shape(fs: Fs) {
    && |fs.blocks| == fs.sb.size < Pow256(4)
    && 1 <= fs.sb.datastart <= fs.sb.size
    && BBlock(fs.sb, fs.sb.size) < fs.sb.datastart
    && |fs.inodes| == fs.sb.ninodes
    && forall i :: 0 <= i < |fs.inodes| ==> |fs.inodes[i].addrs| == NDIRECT + 1 && fs.inodes[i].size <= MAXBYTES
  }

  // ----- the bitmap -----

  function BitmapTo(fs: Fs, n: nat): (r: seq<bool>)
    requires Shape(fs) && n <= fs.sb.size
    ensures |r| == n
  {
    if n == 0 then []
    else BitmapTo(fs, n - 1) + [MarkedIn(fs.blocks[BBlock(fs.sb, n - 1)], n - 1)]
  }

  /** Which blocks are marked as in use. */
  function Bitmap(fs: Fs): (r: seq<bool>)
    requires Shape(fs)
    ensures |r| == fs.sb.size
  {
    BitmapTo(fs, fs.sb.size)
  }

  lemma {:induction false} BitmapToAt(fs: Fs, n: nat, b: nat)
    requires Shape(fs) && b < n <= fs.sb.size
    ensures BitmapTo(fs, n)[b] == MarkedIn(fs.blocks[BBlock(fs.sb, b)], b)
  {
    if b < n - 1 {
      BitmapToAt(fs, n - 1, b);
    }
  }

  lemma BitmapAt(fs: Fs, b: nat)
    requires Shape(fs) && b < fs.sb.size
    ensures Bitmap(fs)[b] == MarkedIn(fs.blocks[BBlock(fs.sb, b)], b)
  {
    BitmapToAt(fs, fs.sb.size, b);
  }

  /** The bitmap depends on the bitmap blocks only. */
  lemma SameBitmap(fs: Fs, fs': Fs)
    requires Shape(fs) && Shape(fs') && fs'.sb == fs.sb
    requires forall c :: 0 <= c < fs.sb.datastart ==> fs'.blocks[c] == fs.blocks[c]
    ensures Bitmap(fs') == Bitmap(fs)
  {
    forall b | 0 <= b < fs.sb.size ensures Bitmap(fs')[b] == Bitmap(fs)[b] {
      BitmapAt(fs, b);
      BitmapAt(fs', b);
    }
  }

  function SetBlock(fs: Fs, b: nat, v: Block): Fs
    requires b < |fs.blocks|
  {
    Fs(fs.sb, fs.blocks[b := v], fs.inodes)
  }

  lemma SameResidue(b: nat, c: nat)
    requires c / BPB == b / BPB && c % BPB == b % BPB
    ensures c == b
  {
  }

  lemma MarkBitmap(fs: Fs, b: nat)
    requires Shape(fs) && b < fs.sb.size && !MarkedIn(fs.blocks[BBlock(fs.sb, b)], b)
    ensures var fs' := SetBlock(fs, BBlock(fs.sb, b), Mark(fs.blocks[BBlock(fs.sb, b)], b));
            Shape(fs') && Bitmap(fs') == Bitmap(fs)[b := true]
  {
    var bm := fs.blocks[BBlock(fs.sb, b)];
    var fs' := SetBlock(fs, BBlock(fs.sb, b), Mark(bm, b));
    forall c | 0 <= c < fs.sb.size ensures Bitmap(fs')[c] == Bitmap(fs)[b := true][c] {
      BitmapAt(fs, c);
      BitmapAt(fs', c);
      if BBlock(fs.sb, c) == BBlock(fs.sb, b) {
        MarkOne(bm, b, c);
        if c % BPB == b % BPB {
          SameResidue(b, c);
        }
      }
    }
  }

  lemma UnmarkBitmap(fs: Fs, b: nat)
    requires Shape(fs) && b < fs.sb.size && MarkedIn(fs.blocks[BBlock(fs.sb, b)], b)
    ensures var fs' := SetBlock(fs, BBlock(fs.sb, b), Unmark(fs.blocks[BBlock(fs.sb, b)], b));
            Shape(fs') && Bitmap(fs') == Bitmap(fs)[b := false]
  {
    var bm := fs.blocks[BBlock(fs.sb, b)];
    var fs' := SetBlock(fs, BBlock(fs.sb, b), Unmark(bm, b));
    forall c | 0 <= c < fs.sb.size ensures Bitmap(fs')[c] == Bitmap(fs)[b := false][c] {
      BitmapAt(fs, c);
      BitmapAt(fs', c);
      if BBlock(fs.sb, c) == BBlock(fs.sb, b) {
        UnmarkOne(bm, b, c);
        if c % BPB == b % BPB {
          SameResidue(b, c);
        }
      }
    }
  }

  // ----- references -----

  /** The places that can refer to a block: a direct pointer, the pointer to the indirect block, a
      pointer in the indirect block. */
  datatype Ref = Direct(inum: nat, k: nat) | Ind(inum: nat) | Leaf(inum: nat, k: nat)

  predicate ValidRef(fs: Fs, r: Ref) {
    && r.inum < |fs.inodes|
    && (r.Direct? ==> r.k < NDIRECT)
    && (r.Leaf? ==> r.k < NINDIRECT)
  }

  /** The block a reference names, 0 for none. */
  function At(fs: Fs, r: Ref): nat
    requires Shape(fs) && ValidRef(fs, r)
  {
    var addrs := fs.inodes[r.inum].addrs;
    match r
    case Direct(_, k) => addrs[k]
    case Ind(_) => addrs[NDIRECT]
    case Leaf(_, k) =>
      var b := addrs[NDIRECT];
      if b == 0 || b >= |fs.blocks| then 0 else Words(fs.blocks[b])[k]
  }

  /** Exclusive ownership.  `owner` is a bijection between the blocks in use and the references that
      are not null; the bitmap marks exactly the metadata, the owned blocks and those in `extra`,
      which have just been allocated.  References in `gone` point to blocks already freed. */
  ghost predicate Owns(fs: Fs, owner: map<nat, Ref>, extra: set<nat>, gone: set<Ref>)
    requires Shape(fs)
  {
    && (forall b :: b in owner ==>
          && fs.sb.datastart <= b < fs.sb.size && b !in extra
          && ValidRef(fs, owner[b]) && owner[b] !in gone && At(fs, owner[b]) == b)
    && (forall b :: b in extra ==> fs.sb.datastart <= b < fs.sb.size)
    && (forall r :: ValidRef(fs, r) && r !in gone && At(fs, r) != 0 ==> At(fs, r) in owner && owner[At(fs, r)] == r)
    && (forall b :: 0 <= b < fs.sb.size ==> (Bitmap(fs)[b] <==> b < fs.sb.datastart || b in owner || b in extra))
  }

  ghost predicate Owned(fs: Fs, owner: map<nat, Ref>)
    requires Shape(fs)
  {
    Owns(fs, owner, {}, {})
  }

  /** The blocks that inode i reaches. */
  ghost function Reach(fs: Fs, owner: map<nat, Ref>, i: nat): set<nat> {
    set b | b in owner && owner[b].inum == i
  }

  /** Ownership in plain words: two references to one block are the same reference. */
  lemma NoSharing(fs: Fs, owner: map<nat, Ref>, r: Ref, r': Ref)
    requires Shape(fs) && Owned(fs, owner) && ValidRef(fs, r) && ValidRef(fs, r')
    requires At(fs, r) != 0 && At(fs, r) == At(fs, r')
    ensures r == r'
  {
  }

  /** The marked blocks are the metadata and, disjointly, the blocks reached from the inodes. */
  lemma MarkedIsReached(fs: Fs, owner: map<nat, Ref>, b: nat)
    requires Shape(fs) && Owned(fs, owner) && b < fs.sb.size
    ensures Bitmap(fs)[b] <==> b < fs.sb.datastart || exists r :: ValidRef(fs, r) && At(fs, r) == b && b != 0
  {
    if b in owner {
      assert At(fs, owner[b]) == b;
    }
  }

  // ----- changes that keep ownership -----

  /** A changed block that no indirect pointer names leaves every reference alone. */
  lemma SameRefs(fs: Fs, b: nat, v: Block)
    requires Shape(fs) && b < |fs.blocks|
    requires forall i :: 0 <= i < |fs.inodes| ==> fs.inodes[i].addrs[NDIRECT] != b
    ensures Shape(SetBlock(fs, b, v))
    ensures forall r :: ValidRef(fs, r) ==> ValidRef(SetBlock(fs, b, v), r) && At(SetBlock(fs, b, v), r) == At(fs, r)
  {
  }

  /** Only an indirect block is named by an indirect pointer. */
  lemma NotIndirect(fs: Fs, owner: map<nat, Ref>, extra: set<nat>, gone: set<Ref>, b: nat)
    requires Shape(fs) && Owns(fs, owner, extra, gone) && b != 0 && (forall i :: Ind(i) !in gone)
    requires b in owner ==> !owner[b].Ind?
    ensures forall i :: 0 <= i < |fs.inodes| ==> fs.inodes[i].addrs[NDIRECT] != b
  {
    forall i | 0 <= i < |fs.inodes| ensures fs.inodes[i].addrs[NDIRECT] != b {
      assert At(fs, Ind(i)) == fs.inodes[i].addrs[NDIRECT];
    }
  }

  /** Writing a data block keeps ownership. */
  lemma DataKeepsOwned(fs: Fs, owner: map<nat, Ref>, b: nat, v: Block)
    requires Shape(fs) && Owned(fs, owner) && b in owner && !owner[b].Ind?
    ensures var fs' := SetBlock(fs, b, v);
            && Shape(fs') && Owned(fs', owner)
            && forall r :: ValidRef(fs, r) ==> At(fs', r) == At(fs, r)
  {
    NotIndirect(fs, owner, {}, {}, b);
    SameRefs(fs, b, v);
    SameBitmap(fs, SetBlock(fs, b, v));
  }

  // ----- allocation -----

  /** balloc of block b: the bit is set, the block zeroed. */
  function Allocated(fs: Fs, b: nat): Fs
    requires Shape(fs) && b < fs.sb.size && !MarkedIn(fs.blocks[BBlock(fs.sb, b)], b)
  {
    SetBlock(SetBlock(fs, BBlock(fs.sb, b), Mark(fs.blocks[BBlock(fs.sb, b)], b)), b, ZeroBlock())
  }

  /** Neither a bitmap block nor an unowned block is an indirect block. */
  lemma AllocKeepsRefs(fs: Fs, owner: map<nat, Ref>, b: nat)
    requires Shape(fs) && Owned(fs, owner) && b < fs.sb.size && !Bitmap(fs)[b]
    requires !MarkedIn(fs.blocks[BBlock(fs.sb, b)], b)
    ensures var fs' := Allocated(fs, b);
            Shape(fs') && forall r :: ValidRef(fs, r) ==> ValidRef(fs', r) && At(fs', r) == At(fs, r)
  {
    var bb := BBlock(fs.sb, b);
    var mid := SetBlock(fs, bb, Mark(fs.blocks[bb], b));
    BitmapAt(fs, 0);
    assert forall i :: 0 <= i < |fs.inodes| ==> fs.inodes[i].addrs[NDIRECT] != bb || bb == 0 by {
      if bb != 0 {
        NotIndirect(fs, owner, {}, {}, bb);
      }
    }
    forall r | ValidRef(fs, r) ensures ValidRef(mid, r) && At(mid, r) == At(fs, r) {
      if r.Leaf? {
        var d := fs.inodes[r.inum].addrs[NDIRECT];
        assert d == 0 || d != bb;
      }
    }
    NotIndirect(fs, owner, {}, {}, b);
    SameRefs(mid, b, ZeroBlock());
  }

  lemma AllocKeepsOwned(fs: Fs, owner: map<nat, Ref>, b: nat)
    requires Shape(fs) && Owned(fs, owner) && b < fs.sb.size && !Bitmap(fs)[b]
    requires !MarkedIn(fs.blocks[BBlock(fs.sb, b)], b)
    ensures var fs' := Allocated(fs, b);
            Shape(fs') && Owns(fs', owner, {b}, {}) && fs.sb.datastart <= b && b !in owner
  {
    AllocKeepsRefs(fs, owner, b);
    var bb := BBlock(fs.sb, b);
    var mid := SetBlock(fs, bb, Mark(fs.blocks[bb], b));
    MarkBitmap(fs, b);
    SameBitmap(mid, Allocated(fs, b));
    assert Bitmap(Allocated(fs, b)) == Bitmap(fs)[b := true];
  }

  function SetAddr(fs: Fs, i: nat, k: nat, b: nat): Fs
    requires Shape(fs) && i < |fs.inodes| && k <= NDIRECT
  {
    Fs(fs.sb, fs.blocks, fs.inodes[i := Inode(fs.inodes[i].addrs[k := b], fs.inodes[i].size)])
  }

  lemma SetAddrBitmap(fs: Fs, i: nat, k: nat, b: nat)
    requires Shape(fs) && i < |fs.inodes| && k <= NDIRECT
    ensures Shape(SetAddr(fs, i, k, b)) && Bitmap(SetAddr(fs, i, k, b)) == Bitmap(fs)
  {
    SameBitmap(fs, SetAddr(fs, i, k, b));
  }

  lemma DirectRefs(fs: Fs, i: nat, k: nat, b: nat)
    requires Shape(fs) && i < |fs.inodes| && k < NDIRECT
    ensures Shape(SetAddr(fs, i, k, b))
    ensures forall r :: ValidRef(fs, r) <==> ValidRef(SetAddr(fs, i, k, b), r)
    ensures forall r :: ValidRef(fs, r) ==>
              At(SetAddr(fs, i, k, b), r) == if r == Direct(i, k) then b else At(fs, r)
  {
  }

  lemma DirectKeepsOwned(fs: Fs, owner: map<nat, Ref>, i: nat, k: nat, b: nat)
    requires Shape(fs) && Owns(fs, owner, {b}, {}) && i < |fs.inodes| && k < NDIRECT
    requires At(fs, Direct(i, k)) == 0
    ensures var fs' := SetAddr(fs, i, k, b);
            Shape(fs') && Owned(fs', owner[b := Direct(i, k)])
    ensures forall r :: ValidRef(fs, r) ==>
              At(SetAddr(fs, i, k, b), r) == if r == Direct(i, k) then b else At(fs, r)
  {
    SetAddrBitmap(fs, i, k, b);
    DirectRefs(fs, i, k, b);
  }

  lemma IndKeepsRefs(fs: Fs, i: nat, b: nat)
    requires Shape(fs) && i < |fs.inodes| && b < |fs.blocks|
    requires fs.inodes[i].addrs[NDIRECT] == 0 && fs.blocks[b] == ZeroBlock()
    ensures forall r :: ValidRef(fs, r) ==>
              ValidRef(SetAddr(fs, i, NDIRECT, b), r)
              && At(SetAddr(fs, i, NDIRECT, b), r) == if r == Ind(i) then b else At(fs, r)
  {
    WordsOfZero(fs.blocks[b]);
    var fs' := SetAddr(fs, i, NDIRECT, b);
    forall r | ValidRef(fs, r) ensures At(fs', r) == if r == Ind(i) then b else At(fs, r) {
      if r.Leaf? && r.inum == i {
        assert Words(fs'.blocks[b])[r.k] == 0 || b == 0;
      }
    }
  }

  lemma IndKeepsOwned(fs: Fs, owner: map<nat, Ref>, i: nat, b: nat)
    requires Shape(fs) && Owns(fs, owner, {b}, {}) && i < |fs.inodes|
    requires fs.inodes[i].addrs[NDIRECT] == 0 && b < |fs.blocks| && fs.blocks[b] == ZeroBlock()
    ensures var fs' := SetAddr(fs, i, NDIRECT, b);
            Shape(fs') && Owned(fs', owner[b := Ind(i)])
  {
    var fs' := SetAddr(fs, i, NDIRECT, b);
    SetAddrBitmap(fs, i, NDIRECT, b);
    IndKeepsRefs(fs, i, b);
    assert forall r :: ValidRef(fs, r) <==> ValidRef(fs', r);
  }

  /** a[k] = b in inode i's indirect block. */
  function SetLeaf(fs: Fs, i: nat, k: nat, b: nat): Fs
    requires Shape(fs) && i < |fs.inodes| && k < NINDIRECT && fs.inodes[i].addrs[NDIRECT] < |fs.blocks|
  {
    SetBlock(fs, fs.inodes[i].addrs[NDIRECT], PutWord(fs.blocks[fs.inodes[i].addrs[NDIRECT]], k, b))
  }

  lemma LeafKeepsRefs(fs: Fs, owner: map<nat, Ref>, extra: set<nat>, i: nat, k: nat, b: nat)
    requires Shape(fs) && Owns(fs, owner, extra, {}) && i < |fs.inodes| && k < NINDIRECT && b < fs.sb.size
    requires fs.inodes[i].addrs[NDIRECT] != 0
    ensures At(fs, Ind(i)) in owner && fs.sb.datastart <= fs.inodes[i].addrs[NDIRECT] < |fs.blocks|
    ensures var fs' := SetLeaf(fs, i, k, b);
            Shape(fs') && forall r :: ValidRef(fs, r) ==>
              ValidRef(fs', r) && At(fs', r) == if r == Leaf(i, k) then b else At(fs, r)
  {
    var d := fs.inodes[i].addrs[NDIRECT];
    assert At(fs, Ind(i)) == d;
    var fs' := SetLeaf(fs, i, k, b);
    WordsOfPut(fs.blocks[d], k, b);
    forall r | ValidRef(fs, r) ensures At(fs', r) == if r == Leaf(i, k) then b else At(fs, r) {
      if r.Leaf? && r.inum != i {
        assert At(fs, Ind(r.inum)) != d;
      }
    }
  }

  lemma LeafKeepsOwned(fs: Fs, owner: map<nat, Ref>, i: nat, k: nat, b: nat)
    requires Shape(fs) && Owns(fs, owner, {b}, {}) && i < |fs.inodes| && k < NINDIRECT
    requires fs.inodes[i].addrs[NDIRECT] != 0 && At(fs, Leaf(i, k)) == 0
    ensures fs.inodes[i].addrs[NDIRECT] < |fs.blocks|
    ensures var fs' := SetLeaf(fs, i, k, b);
            Shape(fs') && Owned(fs', owner[b := Leaf(i, k)])
  {
    LeafKeepsRefs(fs, owner, {b}, i, k, b);
    var fs' := SetLeaf(fs, i, k, b);
    SameBitmap(fs, fs');
    assert forall r :: ValidRef(fs, r) <==> ValidRef(fs', r);
  }

  // ----- freeing -----

  /** bfree of block b. */
  function Freed(fs: Fs, b: nat): Fs
    requires Shape(fs) && b < fs.sb.size && MarkedIn(fs.blocks[BBlock(fs.sb, b)], b)
  {
    SetBlock(fs, BBlock(fs.sb, b), Unmark(fs.blocks[BBlock(fs.sb, b)], b))
  }

  lemma FreeKeepsRefs(fs: Fs, owner: map<nat, Ref>, gone: set<Ref>, b: nat)
    requires Shape(fs) && Owns(fs, owner, {}, gone) && b < fs.sb.size && (forall i :: Ind(i) !in gone)
    requires MarkedIn(fs.blocks[BBlock(fs.sb, b)], b)
    ensures var fs' := Freed(fs, b);
            && Shape(fs') && Bitmap(fs') == Bitmap(fs)[b := false]
            && forall r :: ValidRef(fs, r) ==> ValidRef(fs', r) && At(fs', r) == At(fs, r)
  {
    var bb := BBlock(fs.sb, b);
    var fs' := Freed(fs, b);
    UnmarkBitmap(fs, b);
    if bb != 0 {
      NotIndirect(fs, owner, {}, gone, bb);
      SameRefs(fs, bb, Unmark(fs.blocks[bb], b));
    }
  }

  /** Freeing a block whose reference is then counted as gone. */
  lemma FreeKeepsOwned(fs: Fs, owner: map<nat, Ref>, gone: set<Ref>, r: Ref)
    requires Shape(fs) && Owns(fs, owner, {}, gone) && (forall i :: Ind(i) !in gone)
    requires ValidRef(fs, r) && r !in gone && At(fs, r) != 0
    ensures At(fs, r) in owner && MarkedIn(fs.blocks[BBlock(fs.sb, At(fs, r))], At(fs, r))
    ensures var fs' := Freed(fs, At(fs, r));
            Shape(fs') && Owns(fs', owner - {At(fs, r)}, {}, gone + {r})
  {
    var b := At(fs, r);
    BitmapAt(fs, b);
    FreeKeepsRefs(fs, owner, gone, b);
    var fs' := Freed(fs, b);
    assert forall q :: ValidRef(fs, q) <==> ValidRef(fs', q);
  }

  /** A gone direct pointer that is nulled is gone no more. */
  lemma NullDirect(fs: Fs, owner: map<nat, Ref>, i: nat, k: nat)
    requires Shape(fs) && i < |fs.inodes| && k < NDIRECT && Owns(fs, owner, {}, {Direct(i, k)})
    ensures var fs' := SetAddr(fs, i, k, 0);
            Shape(fs') && Owned(fs', owner)
    ensures forall r :: ValidRef(fs, r) ==>
              At(SetAddr(fs, i, k, 0), r) == if r == Direct(i, k) then 0 else At(fs, r)
  {
    SetAddrBitmap(fs, i, k, 0);
    DirectRefs(fs, i, k, 0);
  }

  ghost function Leaves(i: nat, n: nat): set<Ref> {
    set k | 0 <= k < n :: Leaf(i, k)
  }

  /** Nulling the indirect pointer nulls the pointers in the indirect block with it. */
  lemma NullIndirect(fs: Fs, owner: map<nat, Ref>, i: nat)
    requires Shape(fs) && i < |fs.inodes| && Owns(fs, owner, {}, Leaves(i, NINDIRECT) + {Ind(i)})
    ensures var fs' := SetAddr(fs, i, NDIRECT, 0);
            Shape(fs') && Owned(fs', owner)
    ensures forall r :: ValidRef(fs, r) ==>
              At(SetAddr(fs, i, NDIRECT, 0), r) == if r.inum == i && !r.Direct? then 0 else At(fs, r)
  {
    var fs' := SetAddr(fs, i, NDIRECT, 0);
    SetAddrBitmap(fs, i, NDIRECT, 0);
    assert forall r :: ValidRef(fs, r) <==> ValidRef(fs', r);
    forall r | ValidRef(fs, r) ensures At(fs', r) == if r.inum == i && !r.Direct? then 0 else At(fs, r) {
    }
    assert forall r :: ValidRef(fs, r) && r in Leaves(i, NINDIRECT) + {Ind(i)} ==> r.inum == i && !r.Direct?;
    forall r | ValidRef(fs, r) && r.inum == i && !r.Direct? ensures r in Leaves(i, NINDIRECT) + {Ind(i)} {
      if r.Leaf? {
        assert Leaf(i, r.k) in Leaves(i, NINDIRECT);
      }
    }
  }

  /** owner without the blocks of the references in gone. */
  function Dropped(owner: map<nat, Ref>, gone: set<Ref>): map<nat, Ref> {
    map b | b in owner && owner[b] !in gone :: owner[b]
  }

  /** A null reference can be counted as gone. */
  lemma NullIsGone(fs: Fs, owner: map<nat, Ref>, gone: set<Ref>, r: Ref)
    requires Shape(fs) && Owns(fs, owner, {}, gone) && ValidRef(fs, r) && At(fs, r) == 0
    ensures Owns(fs, owner, {}, gone + {r})
    ensures Dropped(owner, gone + {r}) == owner
  {
  }

  lemma DropOne(fs: Fs, owner0: map<nat, Ref>, owner: map<nat, Ref>, gone: set<Ref>, r: Ref)
    requires Shape(fs) && Owns(fs, owner, {}, gone) && ValidRef(fs, r) && r !in gone
    requires owner == Dropped(owner0, gone)
    ensures Dropped(owner0, gone + {r}) == if At(fs, r) == 0 then owner else owner - {At(fs, r)}
  {
    var after := Dropped(owner0, gone + {r});
    assert forall b :: b in after <==> b in owner && owner[b] != r;
  }
}
