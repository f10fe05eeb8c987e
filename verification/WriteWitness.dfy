/**
 A disk on which one chunk of filewrite logs exactly MAXOPBLOCKS blocks: the bound on a chunk is reached.

 The layout is the one that mkfs computes for 24577 blocks and 130464 inodes.  All blocks are in use except
 the last one of each of the first three bitmap blocks and the only one of the fourth.
 */
module WriteWitness {
  import opened FsBytes
  import opened FsModel
  import opened FsFiles
  import opened FsCode
  import opened FileWrite

  const SIZE: nat := 24577
  const INODES: nat := 130464
  const BMAPSTART: nat := 8187
  const DATASTART: nat := 8191
  const SPREAD: nat := 16382   // data blocks in use

  function Layout(): Super { Super(SIZE, INODES, 32, BMAPSTART, DATASTART) }

  /** The nth data block in use. */
  function Blk(n: nat): nat {
    if n < 8191 then 8192 + n else if n < SPREAD then 8193 + n else 0
  }

  /** Its position among the data blocks in use. */
  function Index(b: nat): nat
    requires b >= 8192
  {
    if b < 16383 then b - 8192 else b - 8193
  }

  predicate Used(b: nat) { b < 24576 && b % BPB != 8191 }

  /** The blocks in use are dealt out to the files from inode 1 on, twelve at a time. */
  function Addr(j: nat, k: nat): nat { if j > 0 && k < NDIRECT then Blk(12 * (j - 1) + k) else 0 }

  function Addrs(j: nat): (r: seq<nat>)
    ensures |r| == NDIRECT + 1 && r[NDIRECT] == 0 && forall k :: 0 <= k < NDIRECT ==> r[k] == Addr(j, k)
  {
    seq(NDIRECT + 1, k requires 0 <= k <= NDIRECT => Addr(j, k))
  }

  function File(j: nat): Inode {
    Inode(Addrs(j), if j == 0 then 0 else if j == 1 then 11 * BSIZE + 1 else if j < 1366 then 12 * BSIZE
                    else if j == 1366 then 2 * BSIZE else 0)
  }

  function Holes(): Block { seq(BSIZE, k => if k < 1023 then 255 else 127) }

  function Contents(b: nat): Block { if BMAPSTART <= b < BMAPSTART + 3 then Holes() else ZeroBlock() }

  function Disk(): (fs: Fs)
    ensures fs.sb == Layout() && |fs.blocks| == SIZE && |fs.inodes| == INODES
    ensures forall b :: 0 <= b < SIZE ==> fs.blocks[b] == Contents(b)
    ensures forall j :: 0 <= j < INODES ==> fs.inodes[j] == File(j)
  {
    Fs(Layout(), seq(SIZE, b requires 0 <= b < SIZE => Contents(b)), seq(INODES, j requires 0 <= j < INODES => File(j)))
  }

  ghost function Owner(): map<nat, Ref> {
    map b | DATASTART < b < SIZE && Used(b) :: Direct(Index(b) / 12 + 1, Index(b) % 12)
  }

  lemma WidthOfBlockNumber()
    ensures Pow256(4) == 4294967296
  {
    assert Pow256(4) == 256 * Pow256(3) == 65536 * Pow256(2) == 16777216 * Pow256(1);
    assert Pow256(1) == 256 * Pow256(0);
  }

  lemma DiskShape()
    ensures Shape(Disk())
  {
    WidthOfBlockNumber();
  }

  // ----- the bitmap -----

  lemma {:induction false} OnesBit(w: nat, i: nat)
    ensures Bit(Mask(w) - 1, i) == (i < w)
  {
    if w > 0 {
      assert (Mask(w) - 1) / 2 == Mask(w - 1) - 1;
      if i > 0 {
        OnesBit(w - 1, i - 1);
      }
    } else if i > 0 {
      OnesBit(0, i - 1);
    }
  }

  lemma HolesAt(b: nat)
    ensures MarkedIn(Holes(), b) == (b % BPB != 8191) && !MarkedIn(ZeroBlock(), b)
  {
    ByteWidth();
    assert Mask(8) == 2 * Mask(7);
    var k, i := (b % BPB) / 8, (b % BPB) % 8;
    OnesBit(8, i);
    OnesBit(7, i);
    OnesBit(0, i);
    assert Holes()[k] == if k < 1023 then Mask(8) - 1 else Mask(7) - 1;
    assert ZeroBlock()[k] == Mask(0) - 1;
  }

  lemma DiskBitmap(b: nat)
    requires b < SIZE && Shape(Disk())
    ensures Bitmap(Disk())[b] == Used(b)
  {
    BitmapAt(Disk(), b);
    HolesAt(b);
  }

  // ----- ownership -----

  lemma PlaceOf(n: nat)
    ensures 12 * (n / 12) + n % 12 == n
    ensures Blk(n) != 0 ==> DATASTART < Blk(n) < SIZE && Used(Blk(n)) && Index(Blk(n)) == n
  {
  }

  lemma BlkOf(b: nat)
    requires DATASTART < b < SIZE && Used(b)
    ensures Index(b) < SPREAD && Blk(Index(b)) == b
  {
  }

  lemma PlaceFor(j: nat, k: nat)
    requires k < 12
    ensures (12 * j + k) / 12 == j && (12 * j + k) % 12 == k
  {
  }

  lemma DiskRefs(r: Ref)
    requires Shape(Disk()) && ValidRef(Disk(), r)
    ensures At(Disk(), r) == if r.Direct? then Addr(r.inum, r.k) else 0
    ensures At(Disk(), r) != 0 ==> At(Disk(), r) in Owner() && Owner()[At(Disk(), r)] == r
  {
    assert Disk().inodes[r.inum] == File(r.inum);
    if r.Direct? && r.inum > 0 {
      PlaceOf(12 * (r.inum - 1) + r.k);
      PlaceFor(r.inum - 1, r.k);
    }
  }

  lemma OwnerIsRight(b: nat)
    requires Shape(Disk()) && b in Owner()
    ensures ValidRef(Disk(), Owner()[b]) && At(Disk(), Owner()[b]) == b
  {
    BlkOf(b);
    PlaceOf(Index(b));
    DiskRefs(Owner()[b]);
  }

  lemma DiskIsOwned()
    requires Shape(Disk())
    ensures Owned(Disk(), Owner())
  {
    var fs, owner := Disk(), Owner();
    forall b | b in owner ensures ValidRef(fs, owner[b]) && At(fs, owner[b]) == b {
      OwnerIsRight(b);
    }
    forall r | ValidRef(fs, r) && At(fs, r) != 0 ensures At(fs, r) in owner && owner[At(fs, r)] == r {
      DiskRefs(r);
    }
    forall b | 0 <= b < SIZE ensures Bitmap(fs)[b] <==> b < DATASTART || b in owner {
      DiskBitmap(b);
    }
  }

  lemma DiskIsMapped()
    requires Shape(Disk())
    ensures Mapped(Disk())
  {
    var fs := Disk();
    forall j, bn | 0 <= j < INODES && 0 <= bn < MAXFILE && bn * BSIZE < fs.inodes[j].size
      ensures AddrOf(fs, j, bn) != 0
    {
      FilesAreMapped(j, bn);
    }
  }

  lemma DiskIsGood()
    ensures Good(Disk(), Owner())
  {
    DiskShape();
    DiskIsOwned();
    DiskIsMapped();
    IsGood(Disk(), Owner());
  }

  lemma FilesAreMapped(j: nat, bn: nat)
    requires Shape(Disk()) && j < INODES && bn < MAXFILE && bn * BSIZE < Disk().inodes[j].size
    ensures AddrOf(Disk(), j, bn) != 0
  {
    assert Disk().inodes[j] == File(j);
    assert bn < 12;
    DiskRefs(Direct(j, bn));
  }

  // ----- the write -----

  const OFF: nat := 11 * BSIZE + 1

  predicate Free(b: nat) { b == 8191 || b == 16383 || b == 24575 || b == 24576 }

  /** The references that a write of CHUNK bytes at OFF can set. */
  predicate Settable(r: Ref) { r == Ind(1) || (r.Leaf? && r.inum == 1 && r.k < 3) }

  /** What writei leaves, as far as the argument needs it. */
  ghost predicate Outcome(fs': Fs, owner: map<nat, Ref>, log: set<nat>, r: int) {
    && Good(fs', owner) && fs'.sb == Layout() && Shape(Disk()) && 0 <= r <= CHUNK
    && WriteLog(Disk(), fs', {}, log, 1, OFF, CHUNK, r, CHUNK)
  }

  lemma OnlySettable(fs': Fs, owner: map<nat, Ref>, log: set<nat>, r: int, q: Ref)
    requires Outcome(fs', owner, log, r) && ValidRef(Disk(), q)
    ensures ValidRef(fs', q) && (!Settable(q) ==> At(fs', q) == At(Disk(), q))
    ensures At(Disk(), q) != 0 ==> At(fs', q) == At(Disk(), q)
    ensures Settable(q) ==> At(Disk(), q) == 0
  {
    var fs := Disk();
    DiskRefs(q);
    if q.Ind? {
      assert q.inum != 1 ==> At(fs', Ind(q.inum)) == At(fs, Ind(q.inum));
    } else {
      var bm := if q.Direct? then q.k else NDIRECT + q.k;
      assert DataRef(q.inum, bm) == q && AddrOf(fs', q.inum, bm) == At(fs', q) && AddrOf(fs, q.inum, bm) == At(fs, q);
      assert Covers(OFF, CHUNK, bm) <==> 11 <= bm <= 14;
    }
  }

  /** A reference that was null gets one of the four free blocks. */
  lemma NewIsFree(fs': Fs, owner: map<nat, Ref>, log: set<nat>, r: int, q: Ref)
    requires Outcome(fs', owner, log, r) && ValidRef(Disk(), q) && At(Disk(), q) == 0 && ValidRef(fs', q)
             && At(fs', q) != 0
    ensures Free(At(fs', q))
  {
    GoodParts(fs', owner);
    var b := At(fs', q);
    assert DATASTART <= b < SIZE;
    if Used(b) && b != DATASTART {
      var p := Owner()[b];
      OwnerIsRight(b);
      OnlySettable(fs', owner, log, r, p);
      NoSharing(fs', owner, p, q);
    }
  }

  /** A free block that is in use afterwards was given to one of the settable references. */
  lemma TakenBySettable(fs': Fs, owner: map<nat, Ref>, log: set<nat>, r: int, b: nat)
    requires Outcome(fs', owner, log, r) && Free(b) && Bitmap(fs')[b]
    ensures b in owner && ValidRef(fs', owner[b]) && At(fs', owner[b]) == b && Settable(owner[b])
  {
    GoodParts(fs', owner);
    OnlySettable(fs', owner, log, r, owner[b]);
    DiskRefs(owner[b]);
  }

  /** With a block unmapped three settable references are left for four blocks: the write does not fail. */
  lemma NotFull(fs': Fs, owner: map<nat, Ref>, log: set<nat>, r: int, bn: nat)
    requires Outcome(fs', owner, log, r) && 11 <= bn <= 14 && AddrOf(fs', 1, bn) == 0
    ensures exists b :: 0 <= b < SIZE && !Bitmap(fs')[b]
  {
    OnlySettable(fs', owner, log, r, DataRef(1, bn));
    DiskRefs(DataRef(1, bn));
    if Bitmap(fs')[8191] && Bitmap(fs')[16383] && Bitmap(fs')[24575] && Bitmap(fs')[24576] {
      TakenBySettable(fs', owner, log, r, 8191);
      TakenBySettable(fs', owner, log, r, 16383);
      TakenBySettable(fs', owner, log, r, 24575);
      TakenBySettable(fs', owner, log, r, 24576);
      assert false;
    }
  }

  lemma WriteSucceeds(fs': Fs, owner: map<nat, Ref>, log: set<nat>, r: int)
    requires Outcome(fs', owner, log, r)
    requires r < CHUNK ==> AddrOf(fs', 1, (OFF + r) / BSIZE) == 0 && forall b :: 0 <= b < SIZE ==> Bitmap(fs')[b]
    ensures r == CHUNK
  {
    if r < CHUNK {
      NotFull(fs', owner, log, r, (OFF + r) / BSIZE);
    }
  }

  /** The blocks logged: four of data, the indirect block, four of the bitmap, one of inodes. */
  function Ten(): set<nat> { {8203, 8191, 16383, 24575, 24576, 8187, 8188, 8189, 8190, 32} }

  lemma FourAreAll(a: nat, b: nat, c: nat, d: nat, log: set<nat>)
    requires Free(a) && Free(b) && Free(c) && Free(d) && a != b && a != c && a != d && b != c && b != d && c != d
    requires a in log && b in log && c in log && d in log
    requires BBlock(Layout(), a) in log && BBlock(Layout(), b) in log
    requires BBlock(Layout(), c) in log && BBlock(Layout(), d) in log
    ensures 8191 in log && 16383 in log && 24575 in log && 24576 in log
    ensures 8187 in log && 8188 in log && 8189 in log && 8190 in log
  {
    assert forall x :: Free(x) ==> x == a || x == b || x == c || x == d;
    assert Free(8191) && Free(16383) && Free(24575) && Free(24576);
    assert BBlock(Layout(), 8191) == 8187 && BBlock(Layout(), 16383) == 8188;
    assert BBlock(Layout(), 24575) == 8189 && BBlock(Layout(), 24576) == 8190;
  }

  lemma MappedLeaf(fs': Fs, owner: map<nat, Ref>, log: set<nat>, k: nat)
    requires Outcome(fs', owner, log, CHUNK) && k < 3 && fs'.inodes[1].size == OFF + CHUNK
    ensures At(fs', Leaf(1, k)) != 0 && At(fs', Ind(1)) != 0 && Free(At(fs', Leaf(1, k)))
    ensures At(fs', Leaf(1, k)) in log && BBlock(Layout(), At(fs', Leaf(1, k))) in log
    ensures At(fs', Leaf(1, k)) != At(fs', Ind(1))
  {
    GoodParts(fs', owner);
    var bn := NDIRECT + k;
    assert DataRef(1, bn) == Leaf(1, k) && AddrOf(fs', 1, bn) == At(fs', Leaf(1, k)) != 0;
    assert Covers(OFF, CHUNK, bn);
    DiskRefs(Leaf(1, k));
    assert AddrOf(Disk(), 1, bn) == 0;
    NewIsFree(fs', owner, log, CHUNK, Leaf(1, k));
  }

  lemma FirstBlockLogged(fs': Fs, owner: map<nat, Ref>, log: set<nat>)
    requires Outcome(fs', owner, log, CHUNK)
    ensures 8203 in log && 32 in log
  {
    DiskRefs(Direct(1, 11));
    assert AddrOf(Disk(), 1, 11) == 8203 && Covers(OFF, CHUNK, 11);
  }

  lemma IndirectLogged(fs': Fs, owner: map<nat, Ref>, log: set<nat>)
    requires Outcome(fs', owner, log, CHUNK) && At(fs', Ind(1)) != 0
    ensures Free(At(fs', Ind(1))) && At(fs', Ind(1)) in log && BBlock(Layout(), At(fs', Ind(1))) in log
  {
    DiskRefs(Ind(1));
    NewIsFree(fs', owner, log, CHUNK, Ind(1));
  }

  lemma LogIsBounded(fs': Fs, owner: map<nat, Ref>, log: set<nat>)
    requires Outcome(fs', owner, log, CHUNK)
    ensures |log| <= 10
  {
    assert Touched(OFF, CHUNK) == 4 && Fresh(OFF, CHUNK) == 3;
  }

  lemma LeavesDiffer(fs': Fs, owner: map<nat, Ref>, k: nat, l: nat)
    requires Good(fs', owner) && |fs'.inodes| > 1 && k < l < 3 && At(fs', Leaf(1, k)) != 0
    ensures At(fs', Leaf(1, k)) != At(fs', Leaf(1, l))
  {
    GoodParts(fs', owner);
  }

  lemma TenLogged(fs': Fs, owner: map<nat, Ref>, log: set<nat>)
    requires Outcome(fs', owner, log, CHUNK) && fs'.inodes[1].size == OFF + CHUNK
    ensures log == Ten() && |log| == MAXOPBLOCKS
  {
    MappedLeaf(fs', owner, log, 0);
    MappedLeaf(fs', owner, log, 1);
    MappedLeaf(fs', owner, log, 2);
    IndirectLogged(fs', owner, log);
    FirstBlockLogged(fs', owner, log);
    var a, b, c, d := At(fs', Leaf(1, 0)), At(fs', Leaf(1, 1)), At(fs', Leaf(1, 2)), At(fs', Ind(1));
    LeavesDiffer(fs', owner, 0, 1);
    LeavesDiffer(fs', owner, 0, 2);
    LeavesDiffer(fs', owner, 1, 2);
    FourAreAll(a, b, c, d, log);
    LogIsBounded(fs', owner, log);
    AllTen(log);
  }

  lemma TenCount()
    ensures |Ten()| == 10
  {
    var some: set<nat>, rest: set<nat> := {8203, 8191, 16383, 24575, 24576}, {8187, 8188, 8189, 8190, 32};
    assert Ten() == some + rest && some * rest == {};
    assert |some| == 5;
    assert |rest| == 5;
  }

  lemma AllTen(log: set<nat>)
    requires Ten() <= log && |log| <= 10
    ensures log == Ten() && |log| == 10
  {
    TenCount();
    SubsetBound(Ten(), log);
    if log != Ten() {
      var x :| x in log && x !in Ten();
      SubsetBound(Ten() + {x}, log);
    }
  }

  /** filewrite's chunk, written across the end of the direct blocks of file 1. */
  method ChunkLogsTen() returns (fsys: FileSystem)
    ensures fsys.Valid() && fsys.logged == Ten() && |fsys.logged| == MAXOPBLOCKS
    ensures FileWritten(Disk(), fsys.Now(), 1, OFF, seq(CHUNK, _ => 0), CHUNK)
  {
    DiskIsGood();
    var fs := Disk();
    fsys := new FileSystem(fs.sb, fs.blocks, fs.inodes, Owner());
    var src: seq<byte> := seq(CHUNK, _ => 0);
    ghost var stored;
    var r;
    r, stored := fsys.Writei(1, src, OFF, CHUNK, 0);
    assert Disk().inodes[1] == File(1);
    WriteSucceeds(fsys.Now(), fsys.owner, fsys.logged, r);
    TenLogged(fsys.Now(), fsys.owner, fsys.logged);
  }
}
