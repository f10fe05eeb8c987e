/** The bytes of a file, independently of where its blocks are. */
module FsFiles {
  import opened FsBytes
  import opened FsModel

  function DataRef(i: nat, bn: nat): Ref {
    if bn < NDIRECT then Direct(i, bn) else Leaf(i, bn - NDIRECT)
  }

  /** The disk block that holds block bn of file i, 0 for none. */
  function AddrOf(fs: Fs, i: nat, bn: nat): nat
    requires Shape(fs) && i < |fs.inodes| && bn < MAXFILE
  {
    At(fs, DataRef(i, bn))
  }

  /** Byte o of file i; a block that is not mapped reads as zeros. */
  function ByteAt(fs: Fs, i: nat, o: nat): byte
    requires Shape(fs) && i < |fs.inodes| && o < MAXBYTES
  {
    var b := AddrOf(fs, i, o / BSIZE);
    if b == 0 || b >= |fs.blocks| then 0 else fs.blocks[b][o % BSIZE]
  }

  /** The contents of file i. */
  function Content(fs: Fs, i: nat): (c: seq<byte>)
    requires Shape(fs) && i < |fs.inodes|
    ensures |c| == fs.inodes[i].size
    ensures forall o :: 0 <= o < |c| ==> c[o] == ByteAt(fs, i, o)
  {
    seq(fs.inodes[i].size, o requires 0 <= o < fs.inodes[i].size => ByteAt(fs, i, o))
  }

  /** Every block below the size of its file is mapped. */
  ghost predicate Mapped(fs: Fs)
    requires Shape(fs)
  {
    forall i, bn :: 0 <= i < |fs.inodes| && 0 <= bn < MAXFILE && bn * BSIZE < fs.inodes[i].size ==>
      AddrOf(fs, i, bn) != 0
  }

  /** Consistent is looked into only where this is mentioned. */
  ghost predicate Open(t: int, fs: Fs, owner: map<nat, Ref>) { true }

  /** Exclusive ownership, and every block below the size of a file is mapped. */
  ghost predicate Consistent(fs: Fs, owner: map<nat, Ref>)
    requires Shape(fs)
  {
    match fs
    case Fs(_, _, _) => forall t: int {:trigger Open(t, fs, owner)} :: 0 <= t ==> Owned(fs, owner) && Mapped(fs)
  }

  ghost predicate Good(fs: Fs, owner: map<nat, Ref>) {
    Shape(fs) && Consistent(fs, owner)
  }

  lemma GoodParts(fs: Fs, owner: map<nat, Ref>)
    requires Good(fs, owner)
    ensures Owned(fs, owner) && Mapped(fs)
  {
    assert Open(0, fs, owner);
  }

  lemma IsGood(fs: Fs, owner: map<nat, Ref>)
    requires Shape(fs) && Owned(fs, owner) && Mapped(fs)
    ensures Good(fs, owner)
  {
  }

  /** Sizes and bytes of all files are the same, and no mapping is lost. */
  ghost predicate SameFiles(fs: Fs, fs': Fs)
    requires Shape(fs) && Shape(fs')
  {
    && fs'.sb == fs.sb && |fs'.inodes| == |fs.inodes|
    && (forall i :: 0 <= i < |fs.inodes| ==> fs'.inodes[i].size == fs.inodes[i].size)
    && (forall i, bn :: 0 <= i < |fs.inodes| && 0 <= bn < MAXFILE && AddrOf(fs, i, bn) != 0 ==>
          AddrOf(fs', i, bn) == AddrOf(fs, i, bn))
    && (forall i, o :: 0 <= i < |fs.inodes| && 0 <= o < MAXBYTES ==> ByteAt(fs', i, o) == ByteAt(fs, i, o))
  }

  /** A data reference keeps its block and the block its bytes, or it was null and gets a zeroed block. */
  ghost predicate RefKept(fs: Fs, fs': Fs, r: Ref)
    requires Shape(fs) && Shape(fs') && ValidRef(fs, r) && ValidRef(fs', r)
  {
    var b, b' := At(fs, r), At(fs', r);
    if b != 0 then b' == b && b < |fs.blocks| && b < |fs'.blocks| && fs'.blocks[b] == fs.blocks[b]
    else b' == 0 || (b' < |fs'.blocks| && fs'.blocks[b'] == ZeroBlock())
  }

  lemma RefsKeepFiles(fs: Fs, fs': Fs)
    requires Shape(fs) && Shape(fs') && fs'.sb == fs.sb && |fs'.inodes| == |fs.inodes|
    requires forall i :: 0 <= i < |fs.inodes| ==> fs'.inodes[i].size == fs.inodes[i].size
    requires forall r :: ValidRef(fs, r) && !r.Ind? ==> ValidRef(fs', r) && RefKept(fs, fs', r)
    ensures SameFiles(fs, fs')
  {
    forall i, bn | 0 <= i < |fs.inodes| && 0 <= bn < MAXFILE
      ensures AddrOf(fs, i, bn) != 0 ==> AddrOf(fs', i, bn) == AddrOf(fs, i, bn)
    {
      assert RefKept(fs, fs', DataRef(i, bn));
    }
    forall i, o | 0 <= i < |fs.inodes| && 0 <= o < MAXBYTES ensures ByteAt(fs', i, o) == ByteAt(fs, i, o) {
      assert RefKept(fs, fs', DataRef(i, o / BSIZE));
    }
  }

  lemma SameFilesTransitive(fs: Fs, fs': Fs, fs'': Fs)
    requires Shape(fs) && Shape(fs') && Shape(fs'') && SameFiles(fs, fs') && SameFiles(fs', fs'')
    ensures SameFiles(fs, fs'')
  {
  }

  lemma SameFilesKeepMapped(fs: Fs, fs': Fs)
    requires Shape(fs) && Shape(fs') && SameFiles(fs, fs') && Mapped(fs)
    ensures Mapped(fs')
  {
  }

  // ----- allocation shows in no file -----

  lemma OwnedBlock(fs: Fs, owner: map<nat, Ref>, extra: set<nat>, r: Ref)
    requires Shape(fs) && Owns(fs, owner, extra, {}) && ValidRef(fs, r) && At(fs, r) != 0
    ensures fs.sb.datastart <= At(fs, r) < |fs.blocks| && At(fs, r) !in extra
  {
  }

  lemma AllocKeepsFiles(fs: Fs, owner: map<nat, Ref>, b: nat)
    requires Shape(fs) && Owned(fs, owner) && b < fs.sb.size && !Bitmap(fs)[b]
    requires !MarkedIn(fs.blocks[BBlock(fs.sb, b)], b)
    ensures Shape(Allocated(fs, b)) && SameFiles(fs, Allocated(fs, b))
  {
    AllocKeepsRefs(fs, owner, b);
    AllocKeepsOwned(fs, owner, b);
    var fs' := Allocated(fs, b);
    forall r | ValidRef(fs, r) && !r.Ind? ensures ValidRef(fs', r) && RefKept(fs, fs', r) {
      if At(fs, r) != 0 {
        OwnedBlock(fs, owner, {}, r);
        assert At(fs, r) != b && At(fs, r) != BBlock(fs.sb, b);
      }
    }
    RefsKeepFiles(fs, fs');
  }

  lemma DirectKeepsFiles(fs: Fs, owner: map<nat, Ref>, i: nat, k: nat, b: nat)
    requires Shape(fs) && Owns(fs, owner, {b}, {}) && i < |fs.inodes| && k < NDIRECT
    requires At(fs, Direct(i, k)) == 0 && fs.blocks[b] == ZeroBlock()
    ensures Shape(SetAddr(fs, i, k, b)) && SameFiles(fs, SetAddr(fs, i, k, b))
  {
    DirectRefs(fs, i, k, b);
    var fs' := SetAddr(fs, i, k, b);
    forall r | ValidRef(fs, r) && !r.Ind? ensures ValidRef(fs', r) && RefKept(fs, fs', r) {
      if At(fs, r) != 0 {
        OwnedBlock(fs, owner, {b}, r);
      }
    }
    RefsKeepFiles(fs, fs');
  }

  lemma IndKeepsFiles(fs: Fs, owner: map<nat, Ref>, i: nat, b: nat)
    requires Shape(fs) && Owns(fs, owner, {b}, {}) && i < |fs.inodes|
    requires fs.inodes[i].addrs[NDIRECT] == 0 && fs.blocks[b] == ZeroBlock()
    ensures Shape(SetAddr(fs, i, NDIRECT, b)) && SameFiles(fs, SetAddr(fs, i, NDIRECT, b))
  {
    SetAddrBitmap(fs, i, NDIRECT, b);
    IndKeepsRefs(fs, i, b);
    var fs' := SetAddr(fs, i, NDIRECT, b);
    forall r | ValidRef(fs, r) && !r.Ind? ensures ValidRef(fs', r) && RefKept(fs, fs', r) {
      if At(fs, r) != 0 {
        OwnedBlock(fs, owner, {b}, r);
      }
    }
    RefsKeepFiles(fs, fs');
  }

  lemma LeafKeepsFiles(fs: Fs, owner: map<nat, Ref>, i: nat, k: nat, b: nat)
    requires Shape(fs) && Owns(fs, owner, {b}, {}) && i < |fs.inodes| && k < NINDIRECT
    requires fs.inodes[i].addrs[NDIRECT] != 0 && At(fs, Leaf(i, k)) == 0 && fs.blocks[b] == ZeroBlock()
    ensures fs.inodes[i].addrs[NDIRECT] < |fs.blocks|
    ensures Shape(SetLeaf(fs, i, k, b)) && SameFiles(fs, SetLeaf(fs, i, k, b))
  {
    LeafKeepsRefs(fs, owner, {b}, i, k, b);
    var d := fs.inodes[i].addrs[NDIRECT];
    assert At(fs, Ind(i)) == d && d in owner && owner[d] == Ind(i);
    var fs' := SetLeaf(fs, i, k, b);
    forall r | ValidRef(fs, r) && !r.Ind? ensures ValidRef(fs', r) && RefKept(fs, fs', r) {
      if At(fs, r) != 0 {
        OwnedBlock(fs, owner, {b}, r);
        assert At(fs, r) != d;
      }
    }
    RefsKeepFiles(fs, fs');
  }

  // ----- writing bytes -----

  /** A block with bytes s from position k on. */
  function Patched(blk: Block, k: nat, s: seq<byte>): (r: Block)
    requires k + |s| <= BSIZE
    ensures forall o :: 0 <= o < BSIZE ==> r[o] == if k <= o < k + |s| then s[o - k] else blk[o]
  {
    blk[..k] + s + blk[k + |s|..]
  }

  /** Bytes of file i from position off on, the others unchanged. */
  ghost predicate Replaced(fs: Fs, fs': Fs, i: nat, off: nat, s: seq<byte>)
    requires Shape(fs) && Shape(fs') && i < |fs.inodes| && |fs'.inodes| == |fs.inodes|
  {
    && (forall j, o :: 0 <= j < |fs.inodes| && j != i && 0 <= o < MAXBYTES ==> ByteAt(fs', j, o) == ByteAt(fs, j, o))
    && (forall o :: 0 <= o < MAXBYTES ==> ByteAt(fs', i, o) == if off <= o < off + |s| then s[o - off]
       else ByteAt(fs, i, o))
  }

  lemma DifferentBlocks(fs: Fs, owner: map<nat, Ref>, i: nat, bn: nat, j: nat, bm: nat)
    requires Shape(fs) && Owned(fs, owner) && i < |fs.inodes| && j < |fs.inodes| && bn < MAXFILE && bm < MAXFILE
    requires (i, bn) != (j, bm) && AddrOf(fs, i, bn) != 0
    ensures AddrOf(fs, j, bm) != AddrOf(fs, i, bn)
  {
    assert DataRef(i, bn) != DataRef(j, bm);
    if AddrOf(fs, j, bm) == AddrOf(fs, i, bn) {
      NoSharing(fs, owner, DataRef(i, bn), DataRef(j, bm));
    }
  }

  lemma PatchKeepsAddrs(fs: Fs, owner: map<nat, Ref>, i: nat, bn: nat, v: Block)
    requires Shape(fs) && Owned(fs, owner) && i < |fs.inodes| && bn < MAXFILE && AddrOf(fs, i, bn) != 0
    ensures AddrOf(fs, i, bn) in owner && !owner[AddrOf(fs, i, bn)].Ind? && AddrOf(fs, i, bn) < |fs.blocks|
    ensures var fs' := SetBlock(fs, AddrOf(fs, i, bn), v);
            && Shape(fs') && Owned(fs', owner)
            && forall j, bm :: 0 <= j < |fs.inodes| && 0 <= bm < MAXFILE ==> AddrOf(fs', j, bm) == AddrOf(fs, j, bm)
  {
    var b := AddrOf(fs, i, bn);
    assert owner[b] == DataRef(i, bn);
    DataKeepsOwned(fs, owner, b, v);
    forall j, bm | 0 <= j < |fs.inodes| && 0 <= bm < MAXFILE
      ensures AddrOf(SetBlock(fs, b, v), j, bm) == AddrOf(fs, j, bm)
    {
      assert ValidRef(fs, DataRef(j, bm));
    }
  }

  /** Patching the block that holds part of a file replaces exactly those bytes of that file. */
  lemma PatchReplaces(fs: Fs, owner: map<nat, Ref>, i: nat, off: nat, s: seq<byte>)
    requires Shape(fs) && Owned(fs, owner) && i < |fs.inodes| && off < MAXBYTES && off % BSIZE + |s| <= BSIZE
    requires AddrOf(fs, i, off / BSIZE) != 0
    ensures AddrOf(fs, i, off / BSIZE) < |fs.blocks|
    ensures var b := AddrOf(fs, i, off / BSIZE);
            var fs' := SetBlock(fs, b, Patched(fs.blocks[b], off % BSIZE, s));
            Shape(fs') && Owned(fs', owner) && Replaced(fs, fs', i, off, s)
  {
    var bn := off / BSIZE;
    var b := AddrOf(fs, i, bn);
    PatchKeepsAddrs(fs, owner, i, bn, fs.blocks[0]);
    var v := Patched(fs.blocks[b], off % BSIZE, s);
    PatchKeepsAddrs(fs, owner, i, bn, v);
    var fs' := SetBlock(fs, b, v);
    forall j, o | 0 <= j < |fs.inodes| && 0 <= o < MAXBYTES
      ensures ByteAt(fs', j, o) == if j == i && off <= o < off + |s| then s[o - off] else ByteAt(fs, j, o)
    {
      PatchAt(fs, owner, i, off, s, v, j, o);
    }
  }

  lemma PatchAt(fs: Fs, owner: map<nat, Ref>, i: nat, off: nat, s: seq<byte>, v: Block, j: nat, o: nat)
    requires Shape(fs) && Owned(fs, owner) && i < |fs.inodes| && off < MAXBYTES && off % BSIZE + |s| <= BSIZE
    requires AddrOf(fs, i, off / BSIZE) != 0 && j < |fs.inodes| && o < MAXBYTES
    requires AddrOf(fs, i, off / BSIZE) < |fs.blocks|
    requires v == Patched(fs.blocks[AddrOf(fs, i, off / BSIZE)], off % BSIZE, s)
    requires Shape(SetBlock(fs, AddrOf(fs, i, off / BSIZE), v))
    requires AddrOf(SetBlock(fs, AddrOf(fs, i, off / BSIZE), v), j, o / BSIZE) == AddrOf(fs, j, o / BSIZE)
    ensures ByteAt(SetBlock(fs, AddrOf(fs, i, off / BSIZE), v), j, o)
         == if j == i && off <= o < off + |s| then s[o - off] else ByteAt(fs, j, o)
  {
    if (i, off / BSIZE) != (j, o / BSIZE) {
      DifferentBlocks(fs, owner, i, off / BSIZE, j, o / BSIZE);
    }
  }

  lemma ReplacedTwice(fs: Fs, mid: Fs, fs': Fs, i: nat, off: nat, s: seq<byte>, t: seq<byte>)
    requires Shape(fs) && Shape(mid) && Shape(fs') && i < |fs.inodes|
    requires |mid.inodes| == |fs.inodes| && |fs'.inodes| == |fs.inodes|
    requires Replaced(fs, mid, i, off, s) && Replaced(mid, fs', i, off + |s|, t)
    ensures Replaced(fs, fs', i, off, s + t)
  {
    forall o | 0 <= o < MAXBYTES
      ensures ByteAt(fs', i, o) == if off <= o < off + |s + t| then (s + t)[o - off] else ByteAt(fs, i, o)
    {
    }
  }

  // ----- growing a file -----

  function SetSize(fs: Fs, i: nat, n: nat): Fs
    requires i < |fs.inodes|
  {
    Fs(fs.sb, fs.blocks, fs.inodes[i := Inode(fs.inodes[i].addrs, n)])
  }

  /** The size of a file does not matter to ownership and to the bytes at its offsets. */
  lemma SizeKeepsBlocks(fs: Fs, owner: map<nat, Ref>, i: nat, n: nat)
    requires Shape(fs) && Owned(fs, owner) && i < |fs.inodes| && n <= MAXBYTES
    ensures var fs' := SetSize(fs, i, n);
            && Shape(fs') && Owned(fs', owner)
            && (forall r :: ValidRef(fs, r) ==> ValidRef(fs', r) && At(fs', r) == At(fs, r))
            && (forall j, o :: 0 <= j < |fs.inodes| && 0 <= o < MAXBYTES ==> ByteAt(fs', j, o) == ByteAt(fs, j, o))
  {
    var fs' := SetSize(fs, i, n);
    SameBitmap(fs, fs');
    assert forall r :: ValidRef(fs, r) <==> ValidRef(fs', r);
    forall j, o | 0 <= j < |fs.inodes| && 0 <= o < MAXBYTES ensures ByteAt(fs', j, o) == ByteAt(fs, j, o) {
      assert ValidRef(fs, DataRef(j, o / BSIZE));
    }
  }

  lemma SizeKeepsMapped(fs: Fs, i: nat, n: nat)
    requires Shape(fs) && Mapped(fs) && i < |fs.inodes| && n <= MAXBYTES && Shape(SetSize(fs, i, n))
    requires forall bn :: 0 <= bn < MAXFILE && bn * BSIZE < n ==> AddrOf(fs, i, bn) != 0
    ensures Mapped(SetSize(fs, i, n))
  {
    var fs' := SetSize(fs, i, n);
    forall j, bn | 0 <= j < |fs'.inodes| && 0 <= bn < MAXFILE && bn * BSIZE < fs'.inodes[j].size
      ensures AddrOf(fs', j, bn) != 0
    {
      assert AddrOf(fs', j, bn) == AddrOf(fs, j, bn);
    }
  }

  /** The contents after bytes s were stored at off and the size became the maximum of the old size
      and the end of the first n of them. */
  lemma ContentAfterWrite(fs: Fs, fs': Fs, i: nat, off: nat, s: seq<byte>, n: nat)
    requires Shape(fs) && Shape(fs') && i < |fs.inodes| && |fs'.inodes| == |fs.inodes|
    requires Replaced(fs, fs', i, off, s) && n <= |s| && off <= fs.inodes[i].size && off + n <= MAXBYTES
    requires fs'.inodes[i].size == if off + n > fs.inodes[i].size then off + n else fs.inodes[i].size
    requires forall j :: 0 <= j < |fs.inodes| && j != i ==> fs'.inodes[j].size == fs.inodes[j].size
    ensures forall j :: 0 <= j < |fs.inodes| && j != i ==> Content(fs', j) == Content(fs, j)
    ensures n == |s| ==>
              var c := Content(fs, i);
              Content(fs', i) == c[..off] + s + (if off + n <= |c| then c[off + n..] else [])
  {
  }

  // ----- truncation -----

  /** An inode with no pointers. */
  ghost predicate Empty(n: Inode) {
    |n.addrs| == NDIRECT + 1 && (forall k :: 0 <= k <= NDIRECT ==> n.addrs[k] == 0) && n.size == 0
  }

  /** After file i lost all its blocks and nothing else changed but the bitmap. */
  lemma TruncatedRefs(fs: Fs, fs': Fs, i: nat)
    requires Shape(fs) && fs'.sb == fs.sb && |fs'.blocks| == |fs.blocks| && i < |fs.inodes|
    requires |fs'.inodes| == |fs.inodes| && Empty(fs'.inodes[i])
    requires forall j :: 0 <= j < |fs.inodes| && j != i ==> fs'.inodes[j] == fs.inodes[j]
    requires forall c :: fs.sb.datastart <= c < |fs.blocks| ==> fs'.blocks[c] == fs.blocks[c]
    requires forall j :: 0 <= j < |fs.inodes| ==>
             fs.inodes[j].addrs[NDIRECT] == 0 || fs.inodes[j].addrs[NDIRECT] >= fs.sb.datastart
    ensures Shape(fs')
    ensures forall r :: ValidRef(fs, r) ==> ValidRef(fs', r) && At(fs', r) == if r.inum == i then 0 else At(fs, r)
  {
  }

  lemma TruncatedFiles(fs: Fs, owner: map<nat, Ref>, fs': Fs, i: nat, j: nat)
    requires Good(fs, owner) && Shape(fs') && i < |fs.inodes| && j < |fs.inodes| && j != i
    requires |fs'.blocks| == |fs.blocks| && |fs'.inodes| == |fs.inodes| && fs'.inodes[j] == fs.inodes[j]
    requires forall c :: fs.sb.datastart <= c < |fs.blocks| ==> fs'.blocks[c] == fs.blocks[c]
    requires forall r :: ValidRef(fs, r) && r.inum != i ==> ValidRef(fs', r) && At(fs', r) == At(fs, r)
    ensures Content(fs', j) == Content(fs, j)
    ensures forall bn :: 0 <= bn < MAXFILE && bn * BSIZE < fs'.inodes[j].size ==> AddrOf(fs', j, bn) != 0
  {
    assert Open(0, fs, owner);
    forall o | 0 <= o < fs.inodes[j].size ensures ByteAt(fs', j, o) == ByteAt(fs, j, o) {
      var r := DataRef(j, o / BSIZE);
      assert ValidRef(fs, r) && At(fs', r) == At(fs, r);
      if At(fs, r) != 0 {
        OwnedBlock(fs, owner, {}, r);
      }
    }
    forall bn | 0 <= bn < MAXFILE && bn * BSIZE < fs'.inodes[j].size ensures AddrOf(fs', j, bn) != 0 {
      assert ValidRef(fs, DataRef(j, bn)) && AddrOf(fs, j, bn) != 0;
    }
  }
}
