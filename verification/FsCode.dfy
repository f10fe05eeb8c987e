/**
 The block and inode procedures of the file system as imperative code over the current view of the
 disk, with the set of blocks each transaction hands to log_write.
 */
module FsCode {
  import opened FsBytes
  import opened FsModel
  import opened FsFiles

  const MAXOPBLOCKS: nat := 10

  lemma InBitmapBlock(sb: Super, base: nat, bi: nat)
    requires base % BPB == 0 && bi < BPB
    ensures BBlock(sb, base + bi) == BBlock(sb, base) && (base + bi) % BPB == bi
  {
  }

  /** A block is now the target of reference r, which was null or already pointed there; no file
      looks any different. */
  ghost predicate Mapping(fs: Fs, fs': Fs, owner: map<nat, Ref>, r: Ref, b: nat) {
    && Shape(fs) && Good(fs', owner) && SameFiles(fs, fs')
    && ValidRef(fs, r) && ValidRef(fs', r) && At(fs', r) == b && b < |fs'.blocks|
    && (forall q :: ValidRef(fs, q) && q != r ==> ValidRef(fs', q) && At(fs', q) == At(fs, q))
    && (At(fs, r) == 0 ==> fs'.blocks[b] == ZeroBlock())
  }

  /** The indirect block of file i and the bitmap block that covers it. */
  function IndirectSet(fs: Fs, i: nat): set<nat>
    requires Shape(fs) && i < |fs.inodes|
  {
    if At(fs, Ind(i)) == 0 then {} else {At(fs, Ind(i)), BBlock(fs.sb, At(fs, Ind(i)))}
  }

  /** What may be logged for the indirect block of file i: the block, and the bitmap block if it is new. */
  ghost function IndirectLog(fs: Fs, fs': Fs, i: nat): set<nat>
    requires Shape(fs) && Shape(fs') && i < |fs.inodes| && i < |fs'.inodes|
  {
    if At(fs, Ind(i)) == 0 then IndirectSet(fs', i) else {At(fs', Ind(i))}
  }

  /** What is logged for it in any case: both blocks if it is new. */
  ghost function NewIndirectLog(fs: Fs, fs': Fs, i: nat): set<nat>
    requires Shape(fs) && Shape(fs') && i < |fs.inodes| && i < |fs'.inodes|
  {
    if At(fs, Ind(i)) == 0 then IndirectSet(fs', i) else {}
  }

  /** File i has got an indirect block. */
  ghost predicate GetsIndirect(fs: Fs, fs': Fs, i: nat)
    requires Shape(fs) && Shape(fs') && i < |fs.inodes| && i < |fs'.inodes|
  {
    At(fs, Ind(i)) == 0 && At(fs', Ind(i)) != 0
  }

  /** The indirect blocks stay where they are, except that file i may get one. */
  ghost predicate KeepsIndirect(fs: Fs, fs': Fs, i: nat)
    requires Shape(fs) && Shape(fs') && |fs'.inodes| == |fs.inodes|
  {
    forall j :: 0 <= j < |fs.inodes| && (At(fs, Ind(j)) != 0 || j != i) ==> At(fs', Ind(j)) == At(fs, Ind(j))
  }

  /** A data block and the bitmap block that covers it. */
  function BlockSet(sb: Super, b: nat): set<nat> {
    if b == 0 then {} else {b, BBlock(sb, b)}
  }

  /** What bmap does: block bn of file i is now at addr, or could not be mapped; no other mapping
      changes and no file looks any different. */
  ghost predicate Bmapped(fs: Fs, fs': Fs, i: nat, bn: nat, addr: nat) {
    && Shape(fs) && Shape(fs') && SameFiles(fs, fs') && i < |fs.inodes| && bn < MAXFILE
    && AddrOf(fs', i, bn) == addr && addr < |fs'.blocks|
    && (forall j, bm :: 0 <= j < |fs.inodes| && 0 <= bm < MAXFILE && (j, bm) != (i, bn) ==>
          AddrOf(fs', j, bm) == AddrOf(fs, j, bm))
    && KeepsIndirect(fs, fs', i)
  }

  lemma DirectBmapped(fs: Fs, fs': Fs, owner: map<nat, Ref>, i: nat, bn: nat, addr: nat)
    requires Shape(fs) && i < |fs.inodes| && bn < NDIRECT
    requires if addr != 0 then Mapping(fs, fs', owner, Direct(i, bn), addr) else fs' == fs && At(fs, Direct(i, bn)) == 0
    ensures Bmapped(fs, fs', i, bn, addr)
  {
    forall j, bm | 0 <= j < |fs.inodes| && 0 <= bm < MAXFILE && (j, bm) != (i, bn)
      ensures AddrOf(fs', j, bm) == AddrOf(fs, j, bm)
    {
      assert DataRef(j, bm) != Direct(i, bn);
    }
  }

  lemma NotBmapped(fs: Fs, i: nat, bn: nat)
    requires Shape(fs) && i < |fs.inodes| && NDIRECT <= bn < MAXFILE && At(fs, Ind(i)) == 0
    ensures Bmapped(fs, fs, i, bn, 0)
  {
    assert AddrOf(fs, i, bn) == At(fs, Leaf(i, bn - NDIRECT));
  }

  /** File i has an indirect block, where it had one before if it had one. */
  ghost predicate IndirectLoaded(fs: Fs, mid: Fs, i: nat)
    requires Shape(fs) && i < |fs.inodes|
  {
    && Shape(mid) && SameFiles(fs, mid)
    && (forall q :: ValidRef(fs, q) && q != Ind(i) ==> ValidRef(mid, q) && At(mid, q) == At(fs, q))
    && (At(fs, Ind(i)) != 0 ==> mid == fs)
    && At(mid, Ind(i)) != 0
  }

  lemma LeafBmapped(fs: Fs, mid: Fs, fs': Fs, owner: map<nat, Ref>, i: nat, bn: nat, addr: nat)
    requires Shape(fs) && Shape(mid) && i < |fs.inodes| && NDIRECT <= bn < MAXFILE
    requires IndirectLoaded(fs, mid, i)
    requires if addr != 0 then Mapping(mid, fs', owner, Leaf(i, bn - NDIRECT), addr)
             else fs' == mid && At(mid, Leaf(i, bn - NDIRECT)) == 0
    ensures Bmapped(fs, fs', i, bn, addr)
  {
    SameFilesTransitive(fs, mid, fs');
    assert DataRef(i, bn) == Leaf(i, bn - NDIRECT);
    forall j, bm | 0 <= j < |fs.inodes| && 0 <= bm < MAXFILE && (j, bm) != (i, bn)
      ensures AddrOf(fs', j, bm) == AddrOf(fs, j, bm)
    {
      assert DataRef(j, bm) != Leaf(i, bn - NDIRECT) && ValidRef(fs, DataRef(j, bm));
    }
  }

  lemma LeafLogged(fs: Fs, mid: Fs, fs': Fs, i: nat, log: set<nat>, log1: set<nat>, log2: set<nat>, more: set<nat>,
                   d: nat)
    requires Shape(fs) && Shape(mid) && Shape(fs') && i < |mid.inodes| && i < |fs.inodes|
    requires fs'.inodes == mid.inodes && fs'.sb == mid.sb && At(mid, Ind(i)) == d && d != 0
    requires log1 == log + NewIndirectLog(fs, mid, i) && log1 <= log2 <= log1 + more + {d}
    requires At(fs, Ind(i)) != 0 ==> mid == fs
    ensures log + NewIndirectLog(fs, fs', i) <= log2 <= log + more + IndirectLog(fs, fs', i)
  {
    assert IndirectSet(fs', i) == IndirectSet(mid, i) && d in IndirectLog(fs, fs', i);
  }

  /** Bytes stored into file i: sizes stay, no mapping is lost, other bytes stay. */
  ghost predicate Wrote(fs: Fs, fs': Fs, i: nat, pos: nat, stored: seq<byte>) {
    && Shape(fs) && Shape(fs') && fs'.sb == fs.sb && i < |fs.inodes| && |fs'.inodes| == |fs.inodes|
    && (forall j :: 0 <= j < |fs.inodes| ==> fs'.inodes[j].size == fs.inodes[j].size)
    && (forall j, bm :: 0 <= j < |fs.inodes| && 0 <= bm < MAXFILE && AddrOf(fs, j, bm) != 0 ==>
          AddrOf(fs', j, bm) == AddrOf(fs, j, bm))
    && KeepsIndirect(fs, fs', i)
    && Replaced(fs, fs', i, pos, stored)
  }

  /** Every block that has changed is among those logged. */
  ghost predicate OnlyLogged(blocks: seq<Block>, blocks': seq<Block>, log: set<nat>) {
    |blocks'| == |blocks| && forall b :: 0 <= b < |blocks| && b !in log ==> blocks'[b] == blocks[b]
  }

  /** No inode but i has changed. */
  ghost predicate OtherInodes(inodes: seq<Inode>, inodes': seq<Inode>, i: nat) {
    |inodes'| == |inodes| && forall j :: 0 <= j < |inodes| && j != i ==> inodes'[j] == inodes[j]
  }

  lemma LoggedTwice(b0: seq<Block>, b1: seq<Block>, b2: seq<Block>, log1: set<nat>, log2: set<nat>)
    requires OnlyLogged(b0, b1, log1) && OnlyLogged(b1, b2, log2) && log1 <= log2
    ensures OnlyLogged(b0, b2, log2)
  {
  }

  lemma InodesTwice(i0: seq<Inode>, i1: seq<Inode>, i2: seq<Inode>, i: nat)
    requires OtherInodes(i0, i1, i) && OtherInodes(i1, i2, i)
    ensures OtherInodes(i0, i2, i)
  {
  }

  /** Bytes off to off + n lie in block bn of a file, among others. */
  predicate Covers(off: nat, n: nat, bn: nat) {
    n > 0 && off / BSIZE <= bn <= (off + n - 1) / BSIZE
  }

  /** No mapping changes except in the blocks of file i that bytes off to off + n lie in. */
  ghost predicate MapsOnly(fs: Fs, fs': Fs, i: nat, off: nat, n: nat)
    requires Shape(fs) && Shape(fs') && |fs'.inodes| == |fs.inodes|
  {
    forall j, bm :: 0 <= j < |fs.inodes| && 0 <= bm < MAXFILE && (j != i || !Covers(off, n, bm)) ==>
      AddrOf(fs', j, bm) == AddrOf(fs, j, bm)
  }

  /** The blocks that a write of bytes off to off + n logs in any case: the data blocks, the bitmap blocks
      of those that are new, and those of a new indirect block. */
  ghost predicate LogsAll(fs: Fs, fs': Fs, log: set<nat>, i: nat, off: nat, n: nat)
    requires Shape(fs) && Shape(fs') && i < |fs.inodes| && |fs'.inodes| == |fs.inodes|
  {
    && (forall bm :: 0 <= bm < MAXFILE && Covers(off, n, bm) ==>
          && AddrOf(fs', i, bm) in log
          && (AddrOf(fs, i, bm) == 0 ==> BBlock(fs'.sb, AddrOf(fs', i, bm)) in log))
    && NewIndirectLog(fs, fs', i) <= log
  }

  lemma CoversOne(pos: nat, m: nat, bm: nat)
    requires 0 < m <= BSIZE - pos % BSIZE
    ensures Covers(pos, m, bm) <==> bm == pos / BSIZE
  {
  }

  lemma CoversMore(off: nat, tot: nat, m: nat, bm: nat)
    requires 0 < m <= BSIZE - (off + tot) % BSIZE && (tot == 0 || (off + tot) % BSIZE == 0)
    ensures Covers(off, tot + m, bm) <==> Covers(off, tot, bm) || bm == (off + tot) / BSIZE
    ensures bm == (off + tot) / BSIZE ==> !Covers(off, tot, bm)
  {
  }

  lemma MapsMoreOnly(fs: Fs, mid: Fs, fs': Fs, i: nat, off: nat, tot: nat, m: nat)
    requires Shape(fs) && Shape(mid) && Shape(fs') && |fs'.inodes| == |mid.inodes| == |fs.inodes|
    requires 0 < m <= BSIZE - (off + tot) % BSIZE && (tot == 0 || (off + tot) % BSIZE == 0)
    requires MapsOnly(fs, mid, i, off, tot) && MapsOnly(mid, fs', i, off + tot, m)
    ensures MapsOnly(fs, fs', i, off, tot + m)
  {
    forall j, bm | 0 <= j < |fs.inodes| && 0 <= bm < MAXFILE && (j != i || !Covers(off, tot + m, bm))
      ensures AddrOf(fs', j, bm) == AddrOf(fs, j, bm)
    {
      CoversMore(off, tot, m, bm);
      CoversOne(off + tot, m, bm);
      assert AddrOf(mid, j, bm) == AddrOf(fs, j, bm);
    }
  }

  lemma LogsMore(fs: Fs, mid: Fs, fs': Fs, log: set<nat>, log': set<nat>, i: nat, off: nat, tot: nat, m: nat)
    requires Shape(fs) && Shape(mid) && Shape(fs') && i < |fs.inodes| && |fs'.inodes| == |mid.inodes| == |fs.inodes|
    requires 0 < m <= BSIZE - (off + tot) % BSIZE && (tot == 0 || (off + tot) % BSIZE == 0)
    requires off + tot < MAXBYTES && fs'.sb == mid.sb
    requires MapsOnly(fs, mid, i, off, tot) && MapsOnly(mid, fs', i, off + tot, m)
    requires KeepsIndirect(fs, mid, i) && KeepsIndirect(mid, fs', i)
    requires LogsAll(fs, mid, log, i, off, tot) && log + NewIndirectLog(mid, fs', i) <= log'
    requires TurnSet(mid, fs', i, (off + tot) / BSIZE) <= log' && AddrOf(fs', i, (off + tot) / BSIZE) != 0
    ensures LogsAll(fs, fs', log', i, off, tot + m)
  {
    forall bm | 0 <= bm < MAXFILE && Covers(off, tot + m, bm)
      ensures AddrOf(fs', i, bm) in log'
      ensures AddrOf(fs, i, bm) == 0 ==> BBlock(fs'.sb, AddrOf(fs', i, bm)) in log'
    {
      CoversMore(off, tot, m, bm);
      CoversOne(off + tot, m, bm);
    }
    assert At(fs, Ind(i)) != 0 ==> At(mid, Ind(i)) == At(fs, Ind(i));
  }

  /** A turn that fails leaves the log of the turns before it. */
  lemma LogsKept(fs: Fs, mid: Fs, fs': Fs, log: set<nat>, log': set<nat>, i: nat, off: nat, tot: nat, m: nat)
    requires Shape(fs) && Shape(mid) && Shape(fs') && i < |fs.inodes| && |fs'.inodes| == |mid.inodes| == |fs.inodes|
    requires 0 < m <= BSIZE - (off + tot) % BSIZE && (tot == 0 || (off + tot) % BSIZE == 0)
    requires fs'.sb == mid.sb && MapsOnly(mid, fs', i, off + tot, m)
    requires KeepsIndirect(fs, mid, i) && KeepsIndirect(mid, fs', i)
    requires LogsAll(fs, mid, log, i, off, tot) && log + NewIndirectLog(mid, fs', i) <= log'
    ensures LogsAll(fs, fs', log', i, off, tot)
  {
    forall bm | 0 <= bm < MAXFILE && Covers(off, tot, bm)
      ensures AddrOf(fs', i, bm) in log'
      ensures AddrOf(fs, i, bm) == 0 ==> BBlock(fs'.sb, AddrOf(fs', i, bm)) in log'
    {
      CoversMore(off, tot, m, bm);
      CoversOne(off + tot, m, bm);
    }
    assert At(fs, Ind(i)) != 0 ==> At(mid, Ind(i)) == At(fs, Ind(i));
  }

  lemma NothingCovered(fs: Fs, i: nat, off: nat, log: set<nat>)
    requires Shape(fs) && i < |fs.inodes|
    ensures MapsOnly(fs, fs, i, off, 0) && LogsAll(fs, fs, log, i, off, 0)
  {
  }

  /** Blocks that only a longer write covers are not touched by a shorter one. */
  lemma MapsOnlyMore(fs: Fs, fs': Fs, i: nat, off: nat, n: nat, n': nat)
    requires Shape(fs) && Shape(fs') && |fs'.inodes| == |fs.inodes| && MapsOnly(fs, fs', i, off, n) && n <= n'
    ensures MapsOnly(fs, fs', i, off, n')
  {
    forall j, bm | 0 <= j < |fs.inodes| && 0 <= bm < MAXFILE && (j != i || !Covers(off, n', bm))
      ensures AddrOf(fs', j, bm) == AddrOf(fs, j, bm)
    {
      assert (off + n - 1) / BSIZE <= (off + n' - 1) / BSIZE;
      assert !Covers(off, n, bm) || j != i;
    }
  }

  /** The blocks a turn logs apart from the indirect ones: the data block, and the bitmap block if the
      data block is new. */
  ghost function TurnSet(fs: Fs, fs': Fs, i: nat, bn: nat): set<nat>
    requires Shape(fs) && Shape(fs') && i < |fs.inodes| && i < |fs'.inodes| && bn < MAXFILE
  {
    if AddrOf(fs, i, bn) == 0 then BlockSet(fs'.sb, AddrOf(fs', i, bn)) else {AddrOf(fs', i, bn)}
  }

  lemma BmapWrote(fs: Fs, fs': Fs, i: nat, pos: nat, addr: nat)
    requires pos < MAXBYTES && Bmapped(fs, fs', i, pos / BSIZE, addr)
    ensures Wrote(fs, fs', i, pos, []) && (forall m :: 0 < m <= BSIZE - pos % BSIZE ==> MapsOnly(fs, fs', i, pos, m))
  {
    forall m | 0 < m <= BSIZE - pos % BSIZE ensures MapsOnly(fs, fs', i, pos, m) {
      CoversOne(pos, m, pos / BSIZE);
    }
  }

  lemma PatchWrote(fs: Fs, mid: Fs, owner: map<nat, Ref>, i: nat, pos: nat, s: seq<byte>)
    requires Wrote(fs, mid, i, pos, []) && Good(mid, owner) && pos < MAXBYTES && pos % BSIZE + |s| <= BSIZE
    requires AddrOf(mid, i, pos / BSIZE) != 0
    ensures AddrOf(mid, i, pos / BSIZE) < |mid.blocks|
    ensures var b := AddrOf(mid, i, pos / BSIZE);
            var fs' := SetBlock(mid, b, Patched(mid.blocks[b], pos % BSIZE, s));
            && Good(fs', owner) && Wrote(fs, fs', i, pos, s)
            && AddrOf(fs', i, pos / BSIZE) == b && At(fs', Ind(i)) == At(mid, Ind(i))
            && (forall m :: MapsOnly(fs, mid, i, pos, m) ==> MapsOnly(fs, fs', i, pos, m))
  {
    assert Open(0, mid, owner);
    PatchReplaces(mid, owner, i, pos, s);
    var b := AddrOf(mid, i, pos / BSIZE);
    PatchKeepsAddrs(mid, owner, i, pos / BSIZE, Patched(mid.blocks[b], pos % BSIZE, s));
    var fs' := SetBlock(mid, b, Patched(mid.blocks[b], pos % BSIZE, s));
    ReplacedFromNothing(fs, mid, fs', i, pos, s);
    IsGood(fs', owner);
  }

  lemma ReplacedFromNothing(fs: Fs, mid: Fs, fs': Fs, i: nat, pos: nat, s: seq<byte>)
    requires Shape(fs) && Shape(mid) && Shape(fs') && i < |fs.inodes|
    requires |mid.inodes| == |fs.inodes| && |fs'.inodes| == |fs.inodes|
    requires Replaced(fs, mid, i, pos, []) && Replaced(mid, fs', i, pos, s)
    ensures Replaced(fs, fs', i, pos, s)
  {
  }

  /** The number of file blocks that bytes off to off + n lie in. */
  function Touched(off: nat, n: nat): nat {
    if n == 0 then 0 else (off + n - 1) / BSIZE - off / BSIZE + 1
  }

  /** How many of them can be new: the block of an unaligned offset within the file is not. */
  function Fresh(off: nat, n: nat): nat {
    if n == 0 || off % BSIZE == 0 then Touched(off, n) else Touched(off, n) - 1
  }

  lemma TouchedStep(off: nat, tot: nat, m: nat, n: nat)
    requires 0 < m && tot + m <= n && m <= BSIZE - (off + tot) % BSIZE && (tot == 0 || (off + tot) % BSIZE == 0)
    ensures Touched(off, tot + m) == Touched(off, tot) + 1
    ensures Touched(off, tot + m) <= Touched(off, n)
    ensures Fresh(off, tot + m) == if tot == 0 && off % BSIZE != 0 then 0 else Fresh(off, tot) + 1
    ensures Fresh(off, tot + m) <= Fresh(off, n)
  {
  }

  /** Every block of file i below byte n is mapped. */
  ghost predicate MappedTo(fs: Fs, i: nat, n: nat)
    requires Shape(fs) && i < |fs.inodes|
  {
    forall bn :: 0 <= bn < MAXFILE && bn * BSIZE < n ==> AddrOf(fs, i, bn) != 0
  }

  ghost function TurnData(fs': Fs, i: nat, bn: nat): set<nat>
    requires Shape(fs') && i < |fs'.inodes| && bn < MAXFILE
  {
    {AddrOf(fs', i, bn)}
  }

  ghost function TurnBits(fs: Fs, fs': Fs, i: nat, bn: nat): set<nat>
    requires Shape(fs) && Shape(fs') && i < |fs.inodes| && i < |fs'.inodes| && bn < MAXFILE
  {
    if AddrOf(fs, i, bn) == 0 then {BBlock(fs'.sb, AddrOf(fs', i, bn))} else {}
  }

  /** What writei has done so far: the state and log it started from, the bytes stored, the data
      blocks and bitmap blocks logged. */
  datatype Writes = Writes(fs: Fs, log: set<nat>, stored: seq<byte>, data: set<nat>, bits: set<nat>)

  /** min(n - tot, BSIZE - off % BSIZE) */
  function Chunk(off: nat, tot: nat, n: nat): (m: nat)
    requires tot < n
    ensures 0 < m <= BSIZE - (off + tot) % BSIZE && tot + m <= n
    ensures tot + m == n || (off + (tot + m)) % BSIZE == 0
  {
    if n - tot < BSIZE - (off + tot) % BSIZE then n - tot else BSIZE - (off + tot) % BSIZE
  }

  /** The bytes of the user's buffer that a copy of m bytes from position tot can reach. */
  function Avail(src: seq<byte>, tot: nat, m: nat): (r: seq<byte>)
    requires tot <= |src|
    ensures |r| <= m && (|r| == m <==> tot + m <= |src|)
  {
    if tot + m <= |src| then src[tot..tot + m] else src[tot..]
  }

  lemma AvailPrefix(src: seq<byte>, tot: nat, m: nat, p: seq<byte>)
    requires tot <= |src| && p <= Avail(src, tot, m)
    ensures src[..tot] + p <= src
    ensures |p| == m ==> src[..tot] + p == src[..tot + m]
  {
  }

  /** The state of writei's loop after tot bytes. */
  ghost predicate Writing(w: Writes, fs': Fs, log': set<nat>, i: nat, off: nat, tot: nat) {
    && Wrote(w.fs, fs', i, off, w.stored) && MappedTo(fs', i, off + tot) && |w.stored| == tot
    && log' <= w.log + w.data + w.bits + IndirectLog(w.fs, fs', i)
    && |w.data| <= Touched(off, tot) && |w.bits| <= Fresh(off, tot)
  }

  /** The state after the loop, of which tot bytes count. */
  ghost predicate Written(w: Writes, fs': Fs, log': set<nat>, i: nat, off: nat, tot: nat, n: nat) {
    && Wrote(w.fs, fs', i, off, w.stored) && MappedTo(fs', i, off + tot)
    && log' <= w.log + w.data + w.bits + IndirectLog(w.fs, fs', i)
    && |w.data| <= Touched(off, n) && |w.bits| <= Fresh(off, n)
  }

  /** The block at byte pos of file i when a copy has failed after k bytes of it: it may not have been logged. */
  ghost function Torn(fs': Fs, i: nat, pos: nat, k: int): set<nat>
    requires Shape(fs') && i < |fs'.inodes|
  {
    if k > 0 && pos < MAXBYTES then {AddrOf(fs', i, pos / BSIZE)} else {}
  }

  /** InLoop and AfterLoop are looked into only where this is mentioned. */
  ghost predicate Peek(t: int, w: Writes) { true }

  /** The invariant of writei's loop, with what it has mapped and logged. */
  ghost predicate InLoop(w: Writes, fs': Fs, log': set<nat>, i: nat, off: nat, tot: nat) {
    match w
    case Writes(_, _, _, _, _) => forall t: int {:trigger Peek(t, w)} :: 0 <= t ==>
      && Writing(w, fs', log', i, off, tot)
      && OnlyLogged(w.fs.blocks, fs'.blocks, log') && OtherInodes(w.fs.inodes, fs'.inodes, i)
      && MapsOnly(w.fs, fs', i, off, tot) && LogsAll(w.fs, fs', log', i, off, tot)
  }

  ghost predicate AfterLoop(w: Writes, fs': Fs, log': set<nat>, i: nat, off: nat, tot: nat, n: nat) {
    match w
    case Writes(_, _, _, _, _) => forall t: int {:trigger Peek(t, w)} :: 0 <= t ==>
      && Written(w, fs', log', i, off, tot, n) && MapsOnly(w.fs, fs', i, off, n)
      && OtherInodes(w.fs.inodes, fs'.inodes, i) && LogsAll(w.fs, fs', log', i, off, tot)
      && OnlyLogged(w.fs.blocks, fs'.blocks, log' + Torn(fs', i, off + tot, |w.stored| - tot))
  }

  lemma StartWriting(w: Writes, owner: map<nat, Ref>, i: nat, off: nat)
    requires Good(w.fs, owner) && i < |w.fs.inodes| && off <= w.fs.inodes[i].size
    requires w.stored == [] && w.data == {} && w.bits == {}
    ensures InLoop(w, w.fs, w.log, i, off, 0)
  {
    assert Open(0, w.fs, owner);
    assert Writing(w, w.fs, w.log, i, off, 0);
    assert OnlyLogged(w.fs.blocks, w.fs.blocks, w.log) && OtherInodes(w.fs.inodes, w.fs.inodes, i);
    NothingCovered(w.fs, i, off, w.log);
  }

  lemma LoopDone(w: Writes, fs': Fs, log': set<nat>, i: nat, off: nat, n: nat)
    requires InLoop(w, fs', log', i, off, n)
    ensures AfterLoop(w, fs', log', i, off, n, n)
  {
    assert Peek(0, w);
  }

  /** What a turn at byte pos did, apart from the k bytes it stored. */
  ghost predicate Turned(mid: Fs, fs': Fs, logm: set<nat>, log': set<nat>, i: nat, pos: nat, m: nat, ok: bool,
                         k: nat)
    requires Shape(mid) && Shape(fs') && i < |mid.inodes| && |fs'.inodes| == |mid.inodes| && pos < MAXBYTES
  {
    && MapsOnly(mid, fs', i, pos, m)
    && logm + NewIndirectLog(mid, fs', i) <= log'
    && log' <= logm + TurnSet(mid, fs', i, pos / BSIZE) + IndirectLog(mid, fs', i)
    && (ok ==> AddrOf(fs', i, pos / BSIZE) != 0 && TurnSet(mid, fs', i, pos / BSIZE) <= log')
    && OtherInodes(mid.inodes, fs'.inodes, i)
    && OnlyLogged(mid.blocks, fs'.blocks, if ok then log' else log' + Torn(fs', i, pos, k))
  }

  lemma TurnInLoop(w: Writes, mid: Fs, fs': Fs, logm: set<nat>, log': set<nat>, i: nat, off: nat,
                   tot: nat, m: nat, n: nat, more: seq<byte>, ok: bool)
    requires InLoop(w, mid, logm, i, off, tot)
    requires 0 < m && tot + m <= n && off + n <= MAXBYTES && m <= BSIZE - (off + tot) % BSIZE
    requires tot == 0 || (off + tot) % BSIZE == 0
    requires Wrote(mid, fs', i, off + tot, more) && (ok ==> |more| == m)
    requires Turned(mid, fs', logm, log', i, off + tot, m, ok, |more|)
    ensures ok ==> InLoop(AddTurn(w, mid, fs', i, (off + tot) / BSIZE, more), fs', log', i, off, tot + m)
    ensures !ok ==> AfterLoop(AddTurn(w, mid, fs', i, (off + tot) / BSIZE, more), fs', log', i, off, tot, n)
  {
    assert Peek(0, w);
    TurnDone(w, mid, fs', logm, log', i, off, tot, m, n, more, ok);
    MapsMoreOnly(w.fs, mid, fs', i, off, tot, m);
    InodesTwice(w.fs.inodes, mid.inodes, fs'.inodes, i);
    if ok {
      LogsMore(w.fs, mid, fs', logm, log', i, off, tot, m);
      LoggedTwice(w.fs.blocks, mid.blocks, fs'.blocks, logm, log');
    } else {
      MapsOnlyMore(w.fs, fs', i, off, tot + m, n);
      LogsKept(w.fs, mid, fs', logm, log', i, off, tot, m);
      LoggedTwice(w.fs.blocks, mid.blocks, fs'.blocks, logm, log' + Torn(fs', i, off + tot, |more|));
    }
  }

  ghost function AddTurn(w: Writes, mid: Fs, fs': Fs, i: nat, bn: nat, more: seq<byte>): Writes
    requires Shape(mid) && Shape(fs') && i < |mid.inodes| && i < |fs'.inodes| && bn < MAXFILE
  {
    Writes(w.fs, w.log, w.stored + more, w.data + TurnData(fs', i, bn), w.bits + TurnBits(mid, fs', i, bn))
  }

  lemma TurnCounts(w: Writes, mid: Fs, fs': Fs, i: nat, off: nat, tot: nat, m: nat, n: nat)
    requires Shape(mid) && Shape(fs') && i < |mid.inodes| && i < |fs'.inodes| && MappedTo(mid, i, off + tot)
    requires 0 < m && tot + m <= n && off + n <= MAXBYTES && m <= BSIZE - (off + tot) % BSIZE
    requires tot == 0 || (off + tot) % BSIZE == 0
    requires |w.data| <= Touched(off, tot) && |w.bits| <= Fresh(off, tot)
    ensures |w.data + TurnData(fs', i, (off + tot) / BSIZE)| <= Touched(off, tot + m) <= Touched(off, n)
    ensures |w.bits + TurnBits(mid, fs', i, (off + tot) / BSIZE)| <= Fresh(off, tot + m) <= Fresh(off, n)
  {
    TouchedStep(off, tot, m, n);
    FirstIsMapped(mid, i, off, tot);
    UnionBound(w.data, TurnData(fs', i, (off + tot) / BSIZE));
    UnionBound(w.bits, TurnBits(mid, fs', i, (off + tot) / BSIZE));
  }

  /** One turn, of which the last may have failed. */
  lemma TurnDone(w: Writes, mid: Fs, fs': Fs, logm: set<nat>, log': set<nat>, i: nat, off: nat,
                 tot: nat, m: nat, n: nat, more: seq<byte>, ok: bool)
    requires Writing(w, mid, logm, i, off, tot)
    requires 0 < m && tot + m <= n && off + n <= MAXBYTES && m <= BSIZE - (off + tot) % BSIZE
    requires tot == 0 || (off + tot) % BSIZE == 0
    requires Wrote(mid, fs', i, off + tot, more) && (ok ==> |more| == m && AddrOf(fs', i, (off + tot) / BSIZE) != 0)
    requires log' <= logm + TurnSet(mid, fs', i, (off + tot) / BSIZE) + IndirectLog(mid, fs', i)
    ensures ok ==> Writing(AddTurn(w, mid, fs', i, (off + tot) / BSIZE, more), fs', log', i, off, tot + m)
    ensures Written(AddTurn(w, mid, fs', i, (off + tot) / BSIZE, more), fs', log', i, off, tot, n)
  {
    WroteTwice(w.fs, mid, fs', i, off, w.stored, more);
    MapsMore(mid, fs', i, off + tot, m, more, ok);
    IndirectGrows(w.fs, mid, fs', i);
    TurnCounts(w, mid, fs', i, off, tot, m, n);
  }

  lemma UnionBound(a: set<nat>, b: set<nat>)
    ensures |a + b| <= |a| + |b|
  {
    assert |a + b| + |a * b| == |a| + |b|;
  }

  lemma WroteTwice(fs: Fs, mid: Fs, fs': Fs, i: nat, off: nat, s: seq<byte>, t: seq<byte>)
    requires Wrote(fs, mid, i, off, s) && Wrote(mid, fs', i, off + |s|, t)
    ensures Wrote(fs, fs', i, off, s + t)
  {
    ReplacedTwice(fs, mid, fs', i, off, s, t);
  }

  lemma FirstIsMapped(fs: Fs, i: nat, off: nat, tot: nat)
    requires Shape(fs) && i < |fs.inodes| && off + tot < MAXBYTES && MappedTo(fs, i, off + tot)
    ensures (off + tot) % BSIZE != 0 ==> AddrOf(fs, i, (off + tot) / BSIZE) != 0
  {
  }

  lemma IndirectGrows(fs: Fs, mid: Fs, fs': Fs, i: nat)
    requires Shape(fs) && Shape(mid) && Shape(fs') && i < |fs.inodes| && |fs'.inodes| == |mid.inodes| == |fs.inodes|
    requires fs'.sb == mid.sb && KeepsIndirect(fs, mid, i) && KeepsIndirect(mid, fs', i)
    ensures IndirectLog(fs, mid, i) + IndirectLog(mid, fs', i) <= IndirectLog(fs, fs', i)
  {
  }

  lemma MapsMore(fs: Fs, fs': Fs, i: nat, pos: nat, m: nat, s: seq<byte>, ok: bool)
    requires Wrote(fs, fs', i, pos, s) && pos < MAXBYTES && MappedTo(fs, i, pos) && m <= BSIZE - pos % BSIZE
    requires ok ==> AddrOf(fs', i, pos / BSIZE) != 0
    ensures MappedTo(fs', i, if ok then pos + m else pos)
  {
    forall bn | 0 <= bn < MAXFILE && bn * BSIZE < (if ok then pos + m else pos) ensures AddrOf(fs', i, bn) != 0 {
      if bn * BSIZE < pos {
        assert AddrOf(fs, i, bn) != 0;
      } else {
        assert bn == pos / BSIZE;
      }
    }
  }

  const UINT: nat := 0x1_0000_0000

  function Max(a: nat, b: nat): nat { if a > b then a else b }

  /** What writei does to the files: bytes stored at off, the size raised to cover r of them. */
  ghost predicate FileWritten(fs: Fs, fs': Fs, i: nat, off: nat, stored: seq<byte>, r: int) {
    && Shape(fs) && Shape(fs') && fs'.sb == fs.sb && i < |fs.inodes| && |fs'.inodes| == |fs.inodes|
    && 0 <= r && fs'.inodes[i].size == Max(fs.inodes[i].size, off + r)
    && (forall j :: 0 <= j < |fs.inodes| && j != i ==> fs'.inodes[j].size == fs.inodes[j].size)
    && Replaced(fs, fs', i, off, stored)
  }

  /** The log blocks for the indirect block: itself and, if it is new, its bitmap block. */
  ghost function IndirectCost(fs: Fs, fs': Fs, i: nat): nat
    requires Shape(fs) && Shape(fs') && i < |fs.inodes| && i < |fs'.inodes|
  {
    if GetsIndirect(fs, fs', i) then 2 else 1
  }

  lemma FinishWrite(w: Writes, fs': Fs, owner: map<nat, Ref>, log': set<nat>, i: nat, off: nat, tot: nat, n: nat)
    requires AfterLoop(w, fs', log', i, off, tot, n) && Good(fs', owner) && off + tot <= MAXBYTES && i < |fs'.inodes|
    ensures var fs'' := SetSize(fs', i, Max(fs'.inodes[i].size, off + tot));
            Good(fs'', owner) && FileWritten(w.fs, fs'', i, off, w.stored, tot) && Bitmap(fs'') == Bitmap(fs')
  {
    assert Peek(0, w);
    assert Open(0, fs', owner);
    var size := Max(fs'.inodes[i].size, off + tot);
    SizeKeepsBlocks(fs', owner, i, size);
    SizeKeepsMapped(fs', i, size);
    SameBitmap(fs', SetSize(fs', i, size));
  }

  /** What a write of r of n bytes, with k bytes stored, does to the mappings and to the log. */
  ghost predicate WriteLog(fs: Fs, fs': Fs, log: set<nat>, log': set<nat>, i: nat, off: nat, n: nat, r: int, k: int) {
    && Shape(fs) && Shape(fs') && i < |fs.inodes| && |fs'.inodes| == |fs.inodes| && r >= 0
    && MapsOnly(fs, fs', i, off, n) && KeepsIndirect(fs, fs', i)
    && (forall bm :: 0 <= bm < MAXFILE && AddrOf(fs, i, bm) != 0 ==> AddrOf(fs', i, bm) == AddrOf(fs, i, bm))
    && OtherInodes(fs.inodes, fs'.inodes, i)
    && LogsAll(fs, fs', log', i, off, r) && OnlyLogged(fs.blocks, fs'.blocks, log' + Torn(fs', i, off + r, k - r))
    && IBlock(fs'.sb, i) in log'
    && |log'| <= |log| + Touched(off, n) + Fresh(off, n) + IndirectCost(fs, fs', i) + 1
    && |log' - {IBlock(fs'.sb, i)}| <= |log| + Touched(off, n) + Fresh(off, n) + IndirectCost(fs, fs', i)
  }

  /** The size of a file does not matter to its mappings. */
  lemma SizeKeepsLog(fs: Fs, mid: Fs, fs': Fs, log: set<nat>, log': set<nat>, i: nat, off: nat, n: nat, r: int,
                     k: int, size: nat)
    requires WriteLog(fs, mid, log, log', i, off, n, r, k) && Shape(fs') && fs' == SetSize(mid, i, size)
    ensures WriteLog(fs, fs', log, log', i, off, n, r, k)
  {
    assert forall j, bm :: 0 <= j < |fs.inodes| && 0 <= bm < MAXFILE ==> AddrOf(fs', j, bm) == AddrOf(mid, j, bm);
    assert forall j :: 0 <= j < |fs.inodes| ==> At(fs', Ind(j)) == At(mid, Ind(j));
  }

  lemma FinishLog(w: Writes, fs': Fs, log': set<nat>, i: nat, off: nat, tot: nat, n: nat)
    requires AfterLoop(w, fs', log', i, off, tot, n) && Shape(fs') && i < |fs'.inodes|
    ensures WriteLog(w.fs, fs', w.log, log' + {IBlock(fs'.sb, i)}, i, off, n, tot, |w.stored|)
  {
    assert Peek(0, w);
    LogSize(w, fs', log', i, off, tot, n);
    var ib := IBlock(fs'.sb, i);
    SubsetBound(log' + {ib} - {ib}, log');
  }

  /** The sum of two 32-bit numbers wraps around below them, or not at all. */
  lemma WrapsAround(off: nat, n: nat)
    requires off < UINT && n < UINT
    ensures if off + n < UINT then (off + n) % UINT == off + n else (off + n) % UINT < off
  {
  }

  lemma LogSize(w: Writes, fs': Fs, log': set<nat>, i: nat, off: nat, tot: nat, n: nat)
    requires Written(w, fs', log', i, off, tot, n)
    ensures |log'| <= |w.log| + Touched(off, n) + Fresh(off, n) + IndirectCost(w.fs, fs', i)
    ensures |log' + {IBlock(fs'.sb, i)}| <= |w.log| + Touched(off, n) + Fresh(off, n) + IndirectCost(w.fs, fs', i) + 1
  {
    var ind := IndirectLog(w.fs, fs', i);
    UnionBound(w.log, w.data);
    UnionBound(w.log + w.data, w.bits);
    UnionBound(w.log + w.data + w.bits, ind);
    SubsetBound(log', w.log + w.data + w.bits + ind);
    UnionBound(log', {IBlock(fs'.sb, i)});
  }

  lemma SubsetBound(a: set<nat>, b: set<nat>)
    requires a <= b
    ensures |a| <= |b|
  {
    assert b == a + (b - a);
  }

  lemma PieceOfBlock(fs: Fs, i: nat, pos: nat, m: nat)
    requires Shape(fs) && i < |fs.inodes| && pos + m <= fs.inodes[i].size && 0 < m <= BSIZE - pos % BSIZE
    requires AddrOf(fs, i, pos / BSIZE) != 0 && AddrOf(fs, i, pos / BSIZE) < |fs.blocks|
    ensures Content(fs, i)[pos..pos + m] == fs.blocks[AddrOf(fs, i, pos / BSIZE)][pos % BSIZE..pos % BSIZE + m]
  {
    var l, r := Content(fs, i)[pos..pos + m], fs.blocks[AddrOf(fs, i, pos / BSIZE)][pos % BSIZE..pos % BSIZE + m];
    forall k | 0 <= k < m ensures l[k] == r[k] {
      SameBlock(pos, k);
      assert l[k] == Content(fs, i)[pos + k] == ByteAt(fs, i, pos + k);
    }
  }

  lemma SameBlock(pos: nat, k: nat)
    requires pos % BSIZE + k < BSIZE
    ensures (pos + k) / BSIZE == pos / BSIZE && (pos + k) % BSIZE == pos % BSIZE + k
  {
  }

  lemma JoinSlices(c: seq<byte>, a: nat, b: nat, d: nat)
    requires a <= b <= d <= |c|
    ensures c[a..b] + c[b..d] == c[a..d]
  {
  }

  /** The blocks outside the metadata are the same. */
  ghost predicate SameData(fs: Fs, fs': Fs) {
    && fs'.sb == fs.sb && |fs'.blocks| == |fs.blocks|
    && forall c :: fs.sb.datastart <= c < |fs.blocks| ==> fs'.blocks[c] == fs.blocks[c]
  }

  lemma DropNone(owner: map<nat, Ref>)
    ensures Dropped(owner, {}) == owner
  {
  }

  lemma LeavesGrow(i: nat, k: nat)
    ensures Leaves(i, k + 1) == Leaves(i, k) + {Leaf(i, k)} && Leaf(i, k) !in Leaves(i, k)
  {
  }

  lemma DropLeaf(fs: Fs, owner: map<nat, Ref>, i: nat, k: nat)
    requires Shape(fs) && i < |fs.inodes| && k < NINDIRECT && Owns(fs, owner, {}, Leaves(i, k))
    ensures Dropped(owner, {Leaf(i, k)})
         == if At(fs, Leaf(i, k)) == 0 then owner else owner - {At(fs, Leaf(i, k))}
  {
    var after := Dropped(owner, {Leaf(i, k)});
    assert forall b :: b in after <==> b in owner && owner[b] != Leaf(i, k);
  }

  /** A free block taken by balloc. */
  ghost predicate Takes(fs: Fs, owner: map<nat, Ref>, b: nat) {
    && Good(fs, owner) && b < fs.sb.size && !Bitmap(fs)[b] && !MarkedIn(fs.blocks[BBlock(fs.sb, b)], b)
  }

  lemma NewDirect(fs: Fs, owner: map<nat, Ref>, i: nat, k: nat, b: nat)
    requires Takes(fs, owner, b) && i < |fs.inodes| && k < NDIRECT && At(fs, Direct(i, k)) == 0
    ensures Shape(Allocated(fs, b))
    ensures Mapping(fs, SetAddr(Allocated(fs, b), i, k, b), owner[b := Direct(i, k)], Direct(i, k), b)
  {
    assert Open(0, fs, owner);
    AllocKeepsFiles(fs, owner, b);
    AllocKeepsOwned(fs, owner, b);
    AllocKeepsRefs(fs, owner, b);
    var mid := Allocated(fs, b);
    DirectKeepsOwned(mid, owner, i, k, b);
    DirectKeepsFiles(mid, owner, i, k, b);
    SameFilesTransitive(fs, mid, SetAddr(mid, i, k, b));
    SameFilesKeepMapped(fs, SetAddr(mid, i, k, b));
  }

  lemma NewIndirect(fs: Fs, owner: map<nat, Ref>, i: nat, b: nat)
    requires Takes(fs, owner, b) && i < |fs.inodes| && At(fs, Ind(i)) == 0
    ensures Shape(Allocated(fs, b))
    ensures Mapping(fs, SetAddr(Allocated(fs, b), i, NDIRECT, b), owner[b := Ind(i)], Ind(i), b)
  {
    assert Open(0, fs, owner);
    AllocKeepsFiles(fs, owner, b);
    AllocKeepsOwned(fs, owner, b);
    AllocKeepsRefs(fs, owner, b);
    var mid := Allocated(fs, b);
    IndKeepsRefs(mid, i, b);
    IndKeepsOwned(mid, owner, i, b);
    IndKeepsFiles(mid, owner, i, b);
    SameFilesTransitive(fs, mid, SetAddr(mid, i, NDIRECT, b));
    SameFilesKeepMapped(fs, SetAddr(mid, i, NDIRECT, b));
  }

  lemma LeafKeepsZero(fs: Fs, owner: map<nat, Ref>, i: nat, k: nat, b: nat)
    requires Shape(fs) && Owns(fs, owner, {b}, {}) && i < |fs.inodes| && k < NINDIRECT
    requires fs.inodes[i].addrs[NDIRECT] != 0 && fs.inodes[i].addrs[NDIRECT] < |fs.blocks| && b < |fs.blocks|
    ensures SetLeaf(fs, i, k, b).blocks[b] == fs.blocks[b]
  {
    assert At(fs, Ind(i)) == fs.inodes[i].addrs[NDIRECT];
  }

  lemma NewLeaf(fs: Fs, owner: map<nat, Ref>, i: nat, k: nat, b: nat)
    requires Takes(fs, owner, b) && i < |fs.inodes| && k < NINDIRECT
    requires fs.inodes[i].addrs[NDIRECT] != 0 && At(fs, Leaf(i, k)) == 0
    ensures Shape(Allocated(fs, b)) && fs.inodes[i].addrs[NDIRECT] < |fs.blocks|
    ensures Mapping(fs, SetLeaf(Allocated(fs, b), i, k, b), owner[b := Leaf(i, k)], Leaf(i, k), b)
  {
    assert Open(0, fs, owner);
    AllocKeepsFiles(fs, owner, b);
    AllocKeepsOwned(fs, owner, b);
    AllocKeepsRefs(fs, owner, b);
    var mid := Allocated(fs, b);
    LeafKeepsRefs(mid, owner, {b}, i, k, b);
    LeafKeepsZero(mid, owner, i, k, b);
    LeafKeepsOwned(mid, owner, i, k, b);
    LeafKeepsFiles(mid, owner, i, k, b);
    SameFilesTransitive(fs, mid, SetLeaf(mid, i, k, b));
    SameFilesKeepMapped(fs, SetLeaf(mid, i, k, b));
  }

  lemma OldMapping(fs: Fs, owner: map<nat, Ref>, r: Ref)
    requires Good(fs, owner) && ValidRef(fs, r) && At(fs, r) != 0
    ensures Mapping(fs, fs, owner, r, At(fs, r)) && At(fs, r) < |fs.blocks|
  {
    assert Open(0, fs, owner);
  }

  lemma BlockInRange(fs: Fs, owner: map<nat, Ref>, r: Ref)
    requires Good(fs, owner) && ValidRef(fs, r)
    ensures At(fs, r) < |fs.blocks|
  {
    assert Open(0, fs, owner);
  }

  /** The bitmap blocks of a set of blocks. */
  ghost function BitmapBlocks(sb: Super, bs: set<nat>): set<nat> {
    set b | b in bs :: BBlock(sb, b)
  }

  /** Blocks in use before and not after have been freed: exactly their bitmap blocks are logged, and no block has
      changed that is not. */
  ghost predicate FreesLogged(sb: Super, blocks: seq<Block>, blocks': seq<Block>, log: set<nat>, log': set<nat>,
                              used: set<nat>, used': set<nat>) {
    used' <= used && log' == log + BitmapBlocks(sb, used - used') && OnlyLogged(blocks, blocks', log')
  }

  lemma FreesNothing(sb: Super, blocks: seq<Block>, log: set<nat>, used: set<nat>)
    ensures FreesLogged(sb, blocks, blocks, log, log, used, used)
  {
    assert BitmapBlocks(sb, used - used) == {};
  }

  lemma FreesOne(fs: Fs, log: set<nat>, owner: map<nat, Ref>, b: nat)
    requires Shape(fs) && b < fs.sb.size && MarkedIn(fs.blocks[BBlock(fs.sb, b)], b) && b in owner
    ensures FreesLogged(fs.sb, fs.blocks, Freed(fs, b).blocks, log, log + {BBlock(fs.sb, b)}, owner.Keys,
                        (owner - {b}).Keys)
  {
    assert owner.Keys - (owner - {b}).Keys == {b};
    assert BitmapBlocks(fs.sb, {b}) == {BBlock(fs.sb, b)};
  }

  lemma FreesTwice(sb: Super, b0: seq<Block>, b1: seq<Block>, b2: seq<Block>, log: set<nat>, log1: set<nat>,
                   log2: set<nat>, used: set<nat>, used1: set<nat>, used2: set<nat>)
    requires FreesLogged(sb, b0, b1, log, log1, used, used1) && FreesLogged(sb, b1, b2, log1, log2, used1, used2)
    ensures FreesLogged(sb, b0, b2, log, log2, used, used2)
  {
    LoggedTwice(b0, b1, b2, log1, log2);
    assert used - used2 == (used - used1) + (used1 - used2);
    assert BitmapBlocks(sb, used - used2) == BitmapBlocks(sb, used - used1) + BitmapBlocks(sb, used1 - used2);
  }

  class FileSystem {
    const sb: Super
    var blocks: seq<Block>
    var inodes: seq<Inode>     // the in-memory inodes
    var dinodes: seq<Inode>    // the inodes in the inode blocks
    var logged: set<nat>       // blocks passed to log_write since begin_op
    ghost var owner: map<nat, Ref>

    function Now(): Fs
      reads this
    {
      Fs(sb, blocks, inodes)
    }

    ghost predicate Valid()
      reads this
    {
      Good(Now(), owner) && |dinodes| == |inodes|
    }

    /** A file system that is mounted outside a transaction. */
    constructor (sb: Super, blocks: seq<Block>, inodes: seq<Inode>, ghost owner: map<nat, Ref>)
      requires Good(Fs(sb, blocks, inodes), owner)
      ensures Valid() && Now() == Fs(sb, blocks, inodes) && dinodes == inodes && logged == {} && this.owner == owner
    {
      this.sb, this.blocks, this.inodes, this.dinodes := sb, blocks, inodes, inodes;
      this.logged, this.owner := {}, owner;
    }

    /** The branch of balloc that has found a clear bit: set it, then bzero. */
    method TakeBlock(b: nat)
      requires Shape(Now()) && b < sb.size && !MarkedIn(blocks[BBlock(sb, b)], b)
      modifies this`blocks, this`logged
      ensures Now() == Allocated(old(Now()), b) && logged == old(logged) + {BBlock(sb, b), b}
    {
      var bp, bi := BBlock(sb, b), b % BPB;
      blocks := blocks[bp := blocks[bp][bi / 8 := WithBit(blocks[bp][bi / 8], bi % 8)]];
      logged := logged + {bp};
      blocks := blocks[b := ZeroBlock()];
      logged := logged + {b};
    }

    /** The inner loop of balloc: the first clear bit of one bitmap block, or the end of its range. */
    method ScanBlock(base: nat) returns (bi: nat)
      requires Shape(Now()) && base % BPB == 0 && base < sb.size
      ensures bi <= BPB && base + bi <= sb.size
      ensures forall c :: base <= c < base + bi ==> Bitmap(Now())[c]
      ensures if bi < BPB && base + bi < sb.size then !Bitmap(Now())[base + bi]
              && !MarkedIn(blocks[BBlock(sb, base + bi)], base + bi)
              else bi == BPB || base + bi == sb.size
    {
      var bp := BBlock(sb, base);
      bi := 0;
      while bi < BPB && base + bi < sb.size
        invariant bi <= BPB && base + bi <= sb.size
        invariant forall c :: base <= c < base + bi ==> Bitmap(Now())[c]
      {
        InBitmapBlock(sb, base, bi);
        BitmapAt(Now(), base + bi);
        if !Bit(blocks[bp][bi / 8], bi % 8) {
          return;
        }
        bi := bi + 1;
      }
    }

    /** The scan of balloc: the first block with a clear bit, or the size of the disk. */
    method FirstClear() returns (b: nat)
      requires Shape(Now())
      ensures b <= sb.size && forall c :: 0 <= c < b ==> Bitmap(Now())[c]
      ensures b < sb.size ==> !Bitmap(Now())[b] && !MarkedIn(blocks[BBlock(sb, b)], b)
    {
      var base := 0;
      while base < sb.size
        invariant base % BPB == 0
        invariant forall c :: 0 <= c < base && c < sb.size ==> Bitmap(Now())[c]
      {
        var bi := ScanBlock(base);
        if bi < BPB && base + bi < sb.size {
          return base + bi;
        }
        base := base + BPB;
      }
      return sb.size;
    }

    /** balloc: the first block with a clear bit, marked and zeroed; 0 when every bit is set. */
    method Balloc() returns (b: nat)
      requires Good(Now(), owner)
      modifies this`blocks, this`logged
      ensures b == 0 ==>
                && blocks == old(blocks) && logged == old(logged)
                && forall c :: 0 <= c < sb.size ==> Bitmap(Now())[c]
      ensures b != 0 ==>
                && b < sb.size && !Bitmap(old(Now()))[b] && (forall c :: 0 <= c < b ==> Bitmap(old(Now()))[c])
                && !MarkedIn(old(blocks)[BBlock(sb, b)], b) && Now() == Allocated(old(Now()), b)
                && logged == old(logged) + {BBlock(sb, b), b}
    {
      assert Open(0, Now(), owner);
      b := FirstClear();
      if b < sb.size {
        TakeBlock(b);
      } else {
        b := 0;
      }
    }

    /** bfree; false where the code panics because the block is free. */
    method Bfree(b: nat) returns (ok: bool)
      requires Shape(Now()) && b < sb.size
      modifies this`blocks, this`logged
      ensures ok <==> MarkedIn(old(blocks)[BBlock(sb, b)], b)
      ensures !ok ==> blocks == old(blocks) && logged == old(logged)
      ensures ok ==> Now() == Freed(old(Now()), b) && logged == old(logged) + {BBlock(sb, b)}
    {
      var bp, bi := BBlock(sb, b), b % BPB;
      if !Bit(blocks[bp][bi / 8], bi % 8) {
        return false;
      }
      blocks := blocks[bp := blocks[bp][bi / 8 := WithoutBit(blocks[bp][bi / 8], bi % 8)]];
      logged := logged + {bp};
      return true;
    }

    /** The direct branch of bmap. */
    method BmapDirect(i: nat, bn: nat) returns (addr: nat)
      requires Valid() && i < |inodes| && bn < NDIRECT
      modifies this`blocks, this`inodes, this`logged, this`owner
      ensures addr != 0 ==> Mapping(old(Now()), Now(), owner, Direct(i, bn), addr)
      ensures addr == 0 ==> Valid() && Full() && At(Now(), Direct(i, bn)) == 0
      ensures if addr == 0 || At(old(Now()), Direct(i, bn)) != 0 then Now() == old(Now()) && logged == old(logged)
              else logged == old(logged) + {BBlock(sb, addr), addr}
      ensures OnlyLogged(old(blocks), blocks, logged) && OtherInodes(old(inodes), inodes, i)
    {
      ghost var fs := Now();
      addr := inodes[i].addrs[bn];
      if addr == 0 {
        addr := Balloc();
        if addr == 0 {
          return;
        }
        NewDirect(fs, owner, i, bn, addr);
        inodes := inodes[i := Inode(inodes[i].addrs[bn := addr], inodes[i].size)];
        owner := owner[addr := Direct(i, bn)];
      } else {
        OldMapping(fs, owner, Direct(i, bn));
      }
    }

    /** The part of bmap that loads the indirect block, allocating it if necessary; 0 when the disk is
        full. */
    method LoadIndirect(i: nat) returns (d: nat)
      requires Valid() && i < |inodes|
      modifies this`blocks, this`inodes, this`logged, this`owner
      ensures d != 0 ==> Valid() && IndirectLoaded(old(Now()), Now(), i) && At(Now(), Ind(i)) == d
      ensures d == 0 ==> Valid() && Full() && At(Now(), Ind(i)) == 0
      ensures if d == 0 || At(old(Now()), Ind(i)) != 0 then Now() == old(Now()) && logged == old(logged)
              else logged == old(logged) + NewIndirectLog(old(Now()), Now(), i)
      ensures OnlyLogged(old(blocks), blocks, logged) && OtherInodes(old(inodes), inodes, i)
    {
      ghost var fs := Now();
      d := inodes[i].addrs[NDIRECT];
      if d == 0 {
        d := Balloc();
        if d == 0 {
          return;
        }
        NewIndirect(fs, owner, i, d);
        inodes := inodes[i := Inode(inodes[i].addrs[NDIRECT := d], inodes[i].size)];
        owner := owner[d := Ind(i)];
      } else {
        OldMapping(fs, owner, Ind(i));
      }
    }

    /** The part of bmap that looks up or allocates a block of the indirect block. */
    method BmapLeaf(i: nat, k: nat) returns (addr: nat)
      requires Valid() && i < |inodes| && k < NINDIRECT && inodes[i].addrs[NDIRECT] != 0
      modifies this`blocks, this`logged, this`owner
      ensures addr != 0 ==> Mapping(old(Now()), Now(), owner, Leaf(i, k), addr)
      ensures addr == 0 ==> Valid() && Full() && At(Now(), Leaf(i, k)) == 0
      ensures if addr == 0 || At(old(Now()), Leaf(i, k)) != 0 then Now() == old(Now()) && logged == old(logged)
              else logged == old(logged) + {BBlock(sb, addr), addr} + {inodes[i].addrs[NDIRECT]}
      ensures OnlyLogged(old(blocks), blocks, logged) && OtherInodes(old(inodes), inodes, i)
    {
      ghost var fs := Now();
      var d := inodes[i].addrs[NDIRECT];
      assert At(fs, Ind(i)) == d;
      BlockInRange(fs, owner, Ind(i));
      addr := Words(blocks[d])[k];
      assert At(fs, Leaf(i, k)) == addr;
      if addr == 0 {
        addr := Balloc();
        if addr == 0 {
          return;
        }
        NewLeaf(fs, owner, i, k, addr);
        blocks := blocks[d := PutWord(blocks[d], k, addr)];
        logged := logged + {d};
        owner := owner[addr := Leaf(i, k)];
      } else {
        OldMapping(fs, owner, Leaf(i, k));
      }
    }

    /** bmap: the disk block of block bn of file i, allocated if it is not mapped; 0 when the disk is
        full. */
    method Bmap(i: nat, bn: nat) returns (addr: nat)
      requires Valid() && i < |inodes| && bn < MAXFILE
      modifies this`blocks, this`inodes, this`logged, this`owner
      ensures Valid() && Bmapped(old(Now()), Now(), i, bn, addr)
      ensures addr == 0 ==> Full()
      ensures AddrOf(old(Now()), i, bn) != 0 ==> Now() == old(Now()) && logged == old(logged)
      ensures old(logged) + NewIndirectLog(old(Now()), Now(), i) <= logged
      ensures logged <= old(logged) + BlockSet(sb, addr) + IndirectLog(old(Now()), Now(), i)
      ensures AddrOf(old(Now()), i, bn) == 0 ==> BlockSet(sb, addr) <= logged
      ensures OnlyLogged(old(blocks), blocks, logged) && OtherInodes(old(inodes), inodes, i)
    {
      ghost var fs := Now();
      if bn < NDIRECT {
        addr := BmapDirect(i, bn);
        DirectBmapped(fs, Now(), owner, i, bn, addr);
      } else {
        addr := BmapIndirect(i, bn);
      }
    }

    /** The indirect branch of bmap. */
    method BmapIndirect(i: nat, bn: nat) returns (addr: nat)
      requires Valid() && i < |inodes| && NDIRECT <= bn < MAXFILE
      modifies this`blocks, this`inodes, this`logged, this`owner
      ensures Valid() && Bmapped(old(Now()), Now(), i, bn, addr)
      ensures addr == 0 ==> Full()
      ensures AddrOf(old(Now()), i, bn) != 0 ==> Now() == old(Now()) && logged == old(logged)
      ensures old(logged) + NewIndirectLog(old(Now()), Now(), i) <= logged
      ensures logged <= old(logged) + BlockSet(sb, addr) + IndirectLog(old(Now()), Now(), i)
      ensures AddrOf(old(Now()), i, bn) == 0 ==> BlockSet(sb, addr) <= logged
      ensures OnlyLogged(old(blocks), blocks, logged) && OtherInodes(old(inodes), inodes, i)
    {
      ghost var fs := Now();
      var d := LoadIndirect(i);
      if d == 0 {
        NotBmapped(fs, i, bn);
        return 0;
      }
      ghost var mid, log1 := Now(), logged;
      assert log1 == old(logged) + NewIndirectLog(fs, mid, i);
      addr := BmapLeaf(i, bn - NDIRECT);
      LeafBmapped(fs, mid, Now(), owner, i, bn, addr);
      LoggedTwice(fs.blocks, mid.blocks, blocks, log1, logged);
      LeafLogged(fs, mid, Now(), i, old(logged), log1, logged, BlockSet(sb, addr), d);
    }

    /** One turn of writei's loop: map the block, copy m bytes of which the user can supply only those
        in avail, log the block.  A copy that fails may have stored a few bytes first. */
    method WriteTurn(i: nat, pos: nat, m: nat, avail: seq<byte>, torn: nat) returns (ok: bool, ghost stored: seq<byte>)
      requires Valid() && i < |inodes| && pos < MAXBYTES && 0 < m <= BSIZE - pos % BSIZE && |avail| <= m
      modifies this`blocks, this`inodes, this`logged, this`owner
      ensures Valid() && Wrote(old(Now()), Now(), i, pos, stored)
      ensures ok ==> stored == avail && |avail| == m
      ensures !ok ==> stored <= avail && |stored| <= torn
      ensures !ok ==> |avail| < m || (Full() && AddrOf(Now(), i, pos / BSIZE) == 0)
      ensures Turned(old(Now()), Now(), old(logged), logged, i, pos, m, ok, |stored|)
    {
      ghost var fs := Now();
      stored := [];
      var addr := Bmap(i, pos / BSIZE);
      BmapWrote(fs, Now(), i, pos, addr);
      if addr == 0 {
        return false, [];
      }
      ok := |avail| == m;
      var k := if ok || torn > |avail| then |avail| else torn;
      stored := avail[..k];
      ghost var mid := Now();
      PatchWrote(fs, mid, owner, i, pos, stored);
      blocks := blocks[addr := Patched(blocks[addr], pos % BSIZE, avail[..k])];
      if ok {
        logged := logged + {addr};
      }
    }

    /** WriteTurn with the bookkeeping of what the loop has done so far. */
    method WriteStep(i: nat, src: seq<byte>, off: nat, n: nat, tot: nat, torn: nat, ghost w: Writes)
      returns (ok: bool, m: nat, ghost w': Writes)
      requires Valid() && i < |inodes| && off + n <= MAXBYTES && tot < n && tot <= |src|
      requires tot == 0 || (off + tot) % BSIZE == 0
      requires InLoop(w, Now(), logged, i, off, tot) && w.stored == src[..tot]
      modifies this`blocks, this`inodes, this`logged, this`owner
      ensures Valid() && 0 < m && tot + m <= n && (tot + m == n || (off + (tot + m)) % BSIZE == 0)
      ensures w'.fs == w.fs && w'.log == w.log
      ensures ok ==> tot + m <= |src| && w'.stored == src[..tot + m] && InLoop(w', Now(), logged, i, off, tot + m)
      ensures !ok ==> w'.stored <= src && tot <= |w'.stored| <= tot + torn
      ensures !ok ==> |src| < n || (Full() && AddrOf(Now(), i, (off + tot) / BSIZE) == 0)
      ensures !ok ==> AfterLoop(w', Now(), logged, i, off, tot, n)
    {
      m := Chunk(off, tot, n);
      ghost var before, log' := Now(), logged;
      ghost var more;
      ok, more := WriteTurn(i, off + tot, m, Avail(src, tot, m), torn);
      AvailPrefix(src, tot, m, more);
      TurnInLoop(w, before, Now(), log', logged, i, off, tot, m, n, more, ok);
      w' := AddTurn(w, before, Now(), i, (off + tot) / BSIZE, more);
    }

    /** writei's loop.  `w.stored` are the bytes that ended up in the file, `tot` of them counted. */
    method WriteLoop(i: nat, src: seq<byte>, off: nat, n: nat, torn: nat) returns (tot: nat, ghost w: Writes)
      requires Valid() && i < |inodes| && off <= inodes[i].size && off + n <= MAXBYTES
      modifies this`blocks, this`inodes, this`logged, this`owner
      ensures Valid() && w.fs == old(Now()) && w.log == old(logged) && AfterLoop(w, Now(), logged, i, off, tot, n)
      ensures tot <= n && w.stored <= src && tot <= |w.stored| <= tot + torn
      ensures tot < n ==> |src| < n || (Full() && AddrOf(Now(), i, (off + tot) / BSIZE) == 0)
      ensures tot == n ==> |w.stored| == n
    {
      tot := 0;
      w := Writes(Now(), logged, [], {}, {});
      StartWriting(w, owner, i, off);
      while tot < n
        invariant Valid() && tot <= n && tot <= |src| && i < |inodes|
        invariant tot == 0 || tot == n || (off + tot) % BSIZE == 0
        invariant w.fs == old(Now()) && w.log == old(logged) && w.stored == src[..tot]
        invariant InLoop(w, Now(), logged, i, off, tot)
      {
        var ok, m;
        ok, m, w := WriteStep(i, src, off, n, tot, torn, w);
        if !ok {
          return;
        }
        tot := tot + m;
      }
      LoopDone(w, Now(), logged, i, off, n);
    }

    /** iupdate: the inode is copied to its inode block. */
    method Iupdate(i: nat)
      requires i < |inodes| && |dinodes| == |inodes|
      modifies this`dinodes, this`logged
      ensures dinodes == old(dinodes)[i := inodes[i]] && logged == old(logged) + {IBlock(sb, i)}
    {
      dinodes := dinodes[i := inodes[i]];
      logged := logged + {IBlock(sb, i)};
    }

    /** writei after its checks. */
    method WriteAccepted(i: nat, src: seq<byte>, off: nat, n: nat, torn: nat)
      returns (tot: nat, ghost stored: seq<byte>)
      requires Valid() && i < |inodes| && off <= inodes[i].size && off + n <= MAXBYTES
      modifies this`blocks, this`inodes, this`dinodes, this`logged, this`owner
      ensures Valid() && FileWritten(old(Now()), Now(), i, off, stored, tot)
      ensures tot <= n && stored <= src && tot <= |stored| <= tot + torn && (tot == n ==> |stored| == n)
      ensures tot < n ==> |src| < n || (Full() && AddrOf(Now(), i, (off + tot) / BSIZE) == 0)
      ensures dinodes == old(dinodes)[i := inodes[i]]
      ensures WriteLog(old(Now()), Now(), old(logged), logged, i, off, n, tot, |stored|)
    {
      ghost var w;
      tot, w := WriteLoop(i, src, off, n, torn);
      stored := w.stored;
      ghost var mid := Now();
      FinishWrite(w, mid, owner, logged, i, off, tot, n);
      FinishLog(w, mid, logged, i, off, tot, n);
      inodes := inodes[i := Inode(inodes[i].addrs, Max(inodes[i].size, off + tot))];
      Iupdate(i);
      SizeKeepsLog(old(Now()), mid, Now(), old(logged), logged, i, off, n, tot, |stored|, inodes[i].size);
    }

    /** writei on 32-bit offsets.  src are the bytes the user can supply; a copy that fails in the
        middle may have stored up to torn more bytes than are counted. */
    method Writei(i: nat, src: seq<byte>, off: nat, n: nat, torn: nat) returns (r: int, ghost stored: seq<byte>)
      requires Valid() && i < |inodes| && off < UINT && n < UINT
      modifies this`blocks, this`inodes, this`dinodes, this`logged, this`owner
      ensures Valid()
      ensures r == -1 <==> off > old(inodes)[i].size || off + n > MAXBYTES
      ensures r == -1 ==> Now() == old(Now()) && dinodes == old(dinodes) && logged == old(logged)
      ensures r != -1 ==>
                && FileWritten(old(Now()), Now(), i, off, stored, r) && r <= n
                && stored <= src && r <= |stored| <= r + torn && (r == n ==> |stored| == n)
                && (r < n ==> |src| < n || (Full() && AddrOf(Now(), i, (off + r) / BSIZE) == 0))
                && dinodes == old(dinodes)[i := inodes[i]]
                && WriteLog(old(Now()), Now(), old(logged), logged, i, off, n, r, |stored|)
    {
      stored := [];
      WrapsAround(off, n);
      if off > inodes[i].size || (off + n) % UINT < off || (off + n) % UINT > MAXBYTES {
        return -1, [];
      }
      r, stored := WriteAccepted(i, src, off, n, torn);
    }

    /** Every bit of the bitmap is set. */
    ghost predicate Full()
      reads this
      requires Shape(Now())
    {
      forall c :: 0 <= c < sb.size ==> Bitmap(Now())[c]
    }

    /** readi on 32-bit offsets; room is how many bytes the destination can take.  The result is -1
        where a copy to the destination fails. */
    method Readi(i: nat, off: nat, n: nat, room: nat) returns (r: int, dst: seq<byte>)
      requires Valid() && i < |inodes| && off < UINT && n < UINT
      modifies this`blocks, this`inodes, this`logged, this`owner
      ensures Valid() && Now() == old(Now()) && logged == old(logged)
      ensures off > inodes[i].size || off + n >= UINT ==> r == 0 && dst == []
      ensures off <= inodes[i].size && off + n < UINT ==>
                var k := if off + n > inodes[i].size then inodes[i].size - off else n;
                if k <= room then r == k && dst == Content(Now(), i)[off..off + k] else r == -1
    {
      dst := [];
      WrapsAround(off, n);
      if off > inodes[i].size || (off + n) % UINT < off {
        return 0, [];
      }
      r, dst := ReadLoop(i, off, if off + n > inodes[i].size then inodes[i].size - off else n, room);
    }

    /** readi's loop. */
    method ReadLoop(i: nat, off: nat, n: nat, room: nat) returns (r: int, dst: seq<byte>)
      requires Valid() && i < |inodes| && off + n <= inodes[i].size
      modifies this`blocks, this`inodes, this`logged, this`owner
      ensures Valid() && Now() == old(Now()) && logged == old(logged)
      ensures if n <= room then r == n && dst == Content(Now(), i)[off..off + n] else r == -1
    {
      dst := [];
      var tot := 0;
      ghost var c := Content(Now(), i);
      while tot < n
        invariant Valid() && Now() == old(Now()) && logged == old(logged)
        invariant tot <= n && tot <= room && dst == c[off..off + tot]
      {
        var piece := ReadTurn(i, off, tot, n, c);
        if tot + |piece| > room {
          return -1, dst;
        }
        JoinSlices(c, off, off + tot, off + (tot + |piece|));
        dst := dst + piece;
        tot := tot + |piece|;
      }
      r := tot;
    }

    /** One turn of readi's loop: a piece of one block. */
    method ReadTurn(i: nat, off: nat, tot: nat, n: nat, ghost c: seq<byte>) returns (piece: seq<byte>)
      requires Valid() && i < |inodes| && tot < n && off + n <= inodes[i].size && c == Content(Now(), i)
      modifies this`blocks, this`inodes, this`logged, this`owner
      ensures Valid() && Now() == old(Now()) && logged == old(logged)
      ensures 0 < |piece| <= n - tot && piece == c[off + tot..off + (tot + |piece|)]
    {
      var pos, m := off + tot, Chunk(off, tot, n);
      assert AddrOf(Now(), i, pos / BSIZE) != 0 by { GoodParts(Now(), owner); }
      var addr := Bmap(i, pos / BSIZE);
      piece := blocks[addr][pos % BSIZE..pos % BSIZE + m];
      PieceOfBlock(Now(), i, pos, m);
    }

    // ----- itrunc -----

    /** One turn of itrunc's first loop; the block is never free already. */
    method FreeDirect(i: nat, k: nat)
      requires Shape(Now()) && Owned(Now(), owner) && i < |inodes| && k < NDIRECT
      modifies this`blocks, this`inodes, this`logged, this`owner
      ensures Shape(Now()) && Owned(Now(), owner) && SameData(old(Now()), Now())
      ensures inodes == old(inodes)[i := Inode(old(inodes)[i].addrs[k := 0], old(inodes)[i].size)]
      ensures owner == Dropped(old(owner), {Direct(i, k)})
      ensures FreesLogged(sb, old(blocks), blocks, old(logged), logged, old(owner).Keys, owner.Keys)
    {
      ghost var fs := Now();
      FreesNothing(sb, blocks, logged, owner.Keys);
      DropNone(owner);
      DropOne(fs, owner, owner, {}, Direct(i, k));
      assert {} + {Direct(i, k)} == {Direct(i, k)};
      if inodes[i].addrs[k] != 0 {
        FreeKeepsOwned(fs, owner, {}, Direct(i, k));
        FreesOne(fs, logged, owner, inodes[i].addrs[k]);
        var ok := Bfree(inodes[i].addrs[k]);
        owner := owner - {inodes[i].addrs[k]};
        NullDirect(Now(), owner, i, k);
        inodes := inodes[i := Inode(inodes[i].addrs[k := 0], inodes[i].size)];
      } else {
        assert inodes[i].addrs[k := 0] == inodes[i].addrs;
      }
    }

    /** One turn of itrunc's loop over the indirect block. */
    method FreeLeaf(i: nat, k: nat, d: nat)
      requires Shape(Now()) && i < |inodes| && k < NINDIRECT && d == inodes[i].addrs[NDIRECT] && 0 < d < |blocks|
      requires Owns(Now(), owner, {}, Leaves(i, k))
      modifies this`blocks, this`logged, this`owner
      ensures Shape(Now()) && Owns(Now(), owner, {}, Leaves(i, k + 1)) && SameData(old(Now()), Now())
      ensures owner == Dropped(old(owner), {Leaf(i, k)})
      ensures FreesLogged(sb, old(blocks), blocks, old(logged), logged, old(owner).Keys, owner.Keys)
    {
      ghost var fs := Now();
      FreesNothing(sb, blocks, logged, owner.Keys);
      LeavesGrow(i, k);
      DropLeaf(fs, owner, i, k);
      var addr := Words(blocks[d])[k];
      assert At(fs, Leaf(i, k)) == addr;
      if addr != 0 {
        FreeKeepsOwned(fs, owner, Leaves(i, k), Leaf(i, k));
        FreesOne(fs, logged, owner, addr);
        var ok := Bfree(addr);
        owner := owner - {addr};
      } else {
        NullIsGone(fs, owner, Leaves(i, k), Leaf(i, k));
      }
    }

    /** itrunc's first loop. */
    method FreeDirects(i: nat)
      requires Shape(Now()) && Owned(Now(), owner) && i < |inodes|
      modifies this`blocks, this`inodes, this`logged, this`owner
      ensures Shape(Now()) && Owned(Now(), owner) && SameData(old(Now()), Now())
      ensures inodes == old(inodes)[i := Inode(seq(NDIRECT, _ => 0) + [old(inodes)[i].addrs[NDIRECT]],
              old(inodes)[i].size)]
      ensures owner == Dropped(old(owner), Directs(i, NDIRECT))
      ensures FreesLogged(sb, old(blocks), blocks, old(logged), logged, old(owner).Keys, owner.Keys)
    {
      ghost var fs, own, log := Now(), owner, logged;
      FreesNothing(sb, blocks, logged, owner.Keys);
      DropNone(owner);
      ZeroedNone(inodes[i].addrs);
      assert Directs(i, 0) == {};
      var k := 0;
      while k < NDIRECT
        invariant k <= NDIRECT && Shape(Now()) && Owned(Now(), owner) && SameData(fs, Now())
        invariant inodes == fs.inodes[i := Inode(ZeroedTo(fs.inodes[i].addrs, k), fs.inodes[i].size)]
        invariant owner == Dropped(own, Directs(i, k))
        invariant FreesLogged(sb, fs.blocks, blocks, log, logged, own.Keys, owner.Keys)
      {
        ghost var blocks1, log1, used1 := blocks, logged, owner.Keys;
        FreeDirect(i, k);
        FreesTwice(sb, fs.blocks, blocks1, blocks, log, log1, logged, own.Keys, used1, owner.Keys);
        DropTwice(own, Directs(i, k), {Direct(i, k)});
        assert Directs(i, k + 1) == Directs(i, k) + {Direct(i, k)};
        ZeroedNext(fs.inodes[i].addrs, k);
        k := k + 1;
      }
      ZeroedAll(fs.inodes[i].addrs);
    }

    /** itrunc's second loop: everything the indirect block points to. */
    method FreeLeaves(i: nat)
      requires Shape(Now()) && Owned(Now(), owner) && i < |inodes| && 0 < inodes[i].addrs[NDIRECT] < |blocks|
      modifies this`blocks, this`logged, this`owner
      ensures Shape(Now()) && Owns(Now(), owner, {}, Leaves(i, NINDIRECT)) && SameData(old(Now()), Now())
      ensures owner == Dropped(old(owner), Leaves(i, NINDIRECT))
      ensures FreesLogged(sb, old(blocks), blocks, old(logged), logged, old(owner).Keys, owner.Keys)
    {
      ghost var fs, own, log := Now(), owner, logged;
      FreesNothing(sb, blocks, logged, owner.Keys);
      DropNone(owner);
      assert Leaves(i, 0) == {};
      var d := inodes[i].addrs[NDIRECT];
      var k := 0;
      while k < NINDIRECT
        invariant k <= NINDIRECT && Shape(Now()) && Owns(Now(), owner, {}, Leaves(i, k)) && SameData(fs, Now())
        invariant owner == Dropped(own, Leaves(i, k))
        invariant FreesLogged(sb, fs.blocks, blocks, log, logged, own.Keys, owner.Keys)
      {
        ghost var blocks1, log1, used1 := blocks, logged, owner.Keys;
        FreeLeaf(i, k, d);
        FreesTwice(sb, fs.blocks, blocks1, blocks, log, log1, logged, own.Keys, used1, owner.Keys);
        DropTwice(own, Leaves(i, k), {Leaf(i, k)});
        LeavesGrow(i, k);
        k := k + 1;
      }
    }

    /** The indirect half of itrunc. */
    method FreeIndirect(i: nat)
      requires Shape(Now()) && Owned(Now(), owner) && i < |inodes|
      modifies this`blocks, this`inodes, this`logged, this`owner
      ensures Shape(Now()) && Owned(Now(), owner) && SameData(old(Now()), Now())
      ensures inodes == old(inodes)[i := Inode(old(inodes)[i].addrs[NDIRECT := 0], old(inodes)[i].size)]
      ensures owner == Dropped(old(owner), Leaves(i, NINDIRECT) + {Ind(i)})
      ensures FreesLogged(sb, old(blocks), blocks, old(logged), logged, old(owner).Keys, owner.Keys)
    {
      ghost var own := owner;
      FreesNothing(sb, blocks, logged, owner.Keys);
      assert At(Now(), Ind(i)) == inodes[i].addrs[NDIRECT];
      if inodes[i].addrs[NDIRECT] != 0 {
        FreeLeaves(i);
        ghost var blocks1, log1, used1 := blocks, logged, owner.Keys;
        FreeIndirectBlock(i);
        FreesTwice(sb, old(blocks), blocks1, blocks, old(logged), log1, logged, own.Keys, used1, owner.Keys);
        DropTwice(own, Leaves(i, NINDIRECT), {Ind(i)});
      } else {
        NothingIndirect(Now(), owner, i);
        assert inodes[i].addrs[NDIRECT := 0] == inodes[i].addrs;
      }
    }

    /** The indirect block itself is freed and its pointer nulled. */
    method FreeIndirectBlock(i: nat)
      requires Shape(Now()) && i < |inodes| && inodes[i].addrs[NDIRECT] != 0
      requires Owns(Now(), owner, {}, Leaves(i, NINDIRECT))
      modifies this`blocks, this`inodes, this`logged, this`owner
      ensures Shape(Now()) && Owned(Now(), owner) && SameData(old(Now()), Now())
      ensures inodes == old(inodes)[i := Inode(old(inodes)[i].addrs[NDIRECT := 0], old(inodes)[i].size)]
      ensures owner == Dropped(old(owner), {Ind(i)})
      ensures FreesLogged(sb, old(blocks), blocks, old(logged), logged, old(owner).Keys, owner.Keys)
    {
      var d := inodes[i].addrs[NDIRECT];
      assert At(Now(), Ind(i)) == d;
      DropIndirect(Now(), owner, i);
      FreeKeepsOwned(Now(), owner, Leaves(i, NINDIRECT), Ind(i));
      FreesOne(Now(), logged, owner, d);
      var ok := Bfree(d);
      owner := owner - {d};
      NullIndirect(Now(), owner, i);
      inodes := inodes[i := Inode(inodes[i].addrs[NDIRECT := 0], inodes[i].size)];
    }

    /** itrunc up to the update of the inode. */
    method FreeAll(i: nat)
      requires Shape(Now()) && Owned(Now(), owner) && i < |inodes|
      modifies this`blocks, this`inodes, this`logged, this`owner
      ensures Shape(Now()) && Owned(Now(), owner) && SameData(old(Now()), Now())
      ensures inodes == old(inodes)[i := Inode(seq(NDIRECT + 1, _ => 0), old(inodes)[i].size)]
      ensures owner == Dropped(old(owner), Directs(i, NDIRECT) + (Leaves(i, NINDIRECT) + {Ind(i)}))
      ensures FreesLogged(sb, old(blocks), blocks, old(logged), logged, old(owner).Keys, owner.Keys)
    {
      ghost var own := owner;
      FreeDirects(i);
      ghost var blocks1, log1, used1 := blocks, logged, owner.Keys;
      FreeIndirect(i);
      FreesTwice(sb, old(blocks), blocks1, blocks, old(logged), log1, logged, own.Keys, used1, owner.Keys);
      DropTwice(own, Directs(i, NDIRECT), Leaves(i, NINDIRECT) + {Ind(i)});
      assert inodes[i].addrs == seq(NDIRECT + 1, _ => 0);
    }

    /** itrunc: exactly the blocks of file i are freed; nothing else changes.  The bitmap blocks of the freed blocks
        and the inode block are logged, nothing else is, and no other block has changed. */
    method Itrunc(i: nat)
      requires Valid() && i < |inodes|
      modifies this`blocks, this`inodes, this`dinodes, this`logged, this`owner
      ensures Valid() && inodes == old(inodes)[i := Inode(seq(NDIRECT + 1, _ => 0), 0)]
      ensures dinodes == old(dinodes)[i := inodes[i]]
      ensures forall b :: 0 <= b < sb.size ==>
                (Bitmap(Now())[b] <==> Bitmap(old(Now()))[b] && b !in Reach(old(Now()), old(owner), i))
      ensures forall j :: 0 <= j < |inodes| && j != i ==> Content(Now(), j) == Content(old(Now()), j)
      ensures logged == old(logged) + BitmapBlocks(sb, Reach(old(Now()), old(owner), i)) + {IBlock(sb, i)}
      ensures OnlyLogged(old(blocks), blocks, logged) && OtherInodes(old(inodes), inodes, i)
    {
      ghost var fs, own := Now(), owner;
      GoodParts(fs, own);
      FreeAll(i);
      SizeKeepsBlocks(Now(), owner, i, 0);
      inodes := inodes[i := Inode(inodes[i].addrs, 0)];
      assert inodes[i].addrs == seq(NDIRECT + 1, _ => 0);
      Truncated(fs, own, Now(), owner, i);
      TruncatedLog(fs, own, blocks, owner, i, old(logged), logged);
      Iupdate(i);
    }
  }

  /** addrs with its first k elements zero. */
  function ZeroedTo(addrs: seq<nat>, k: nat): (r: seq<nat>)
    requires k <= |addrs|
    ensures |r| == |addrs|
  {
    seq(k, _ => 0) + addrs[k..]
  }

  lemma ZeroedNone(addrs: seq<nat>)
    ensures ZeroedTo(addrs, 0) == addrs
  {
  }

  lemma ZeroedNext(addrs: seq<nat>, k: nat)
    requires k < |addrs|
    ensures ZeroedTo(addrs, k)[k := 0] == ZeroedTo(addrs, k + 1)
  {
  }

  lemma ZeroedAll(addrs: seq<nat>)
    requires |addrs| == NDIRECT + 1
    ensures ZeroedTo(addrs, NDIRECT) == seq(NDIRECT, _ => 0) + [addrs[NDIRECT]]
  {
  }

  ghost function Directs(i: nat, n: nat): set<Ref> {
    set k | 0 <= k < n :: Direct(i, k)
  }

  lemma DropTwice(owner: map<nat, Ref>, a: set<Ref>, b: set<Ref>)
    ensures Dropped(Dropped(owner, a), b) == Dropped(owner, a + b)
  {
  }

  lemma DropIndirect(fs: Fs, owner: map<nat, Ref>, i: nat)
    requires Shape(fs) && i < |fs.inodes| && Owns(fs, owner, {}, Leaves(i, NINDIRECT)) && At(fs, Ind(i)) != 0
    ensures Dropped(owner, {Ind(i)}) == owner - {At(fs, Ind(i))}
  {
    var after := Dropped(owner, {Ind(i)});
    assert forall b :: b in after <==> b in owner && owner[b] != Ind(i);
  }

  lemma NothingIndirect(fs: Fs, owner: map<nat, Ref>, i: nat)
    requires Shape(fs) && i < |fs.inodes| && Owned(fs, owner) && At(fs, Ind(i)) == 0
    ensures Dropped(owner, Leaves(i, NINDIRECT) + {Ind(i)}) == owner
  {
    forall b | b in owner ensures owner[b] !in Leaves(i, NINDIRECT) + {Ind(i)} {
      assert At(fs, owner[b]) == b;
    }
  }

  lemma IndirectIsData(fs: Fs, owner: map<nat, Ref>)
    requires Shape(fs) && Owned(fs, owner)
    ensures forall j :: 0 <= j < |fs.inodes| ==>
            fs.inodes[j].addrs[NDIRECT] == 0 || fs.inodes[j].addrs[NDIRECT] >= fs.sb.datastart
  {
    forall j | 0 <= j < |fs.inodes|
      ensures fs.inodes[j].addrs[NDIRECT] == 0 || fs.inodes[j].addrs[NDIRECT] >= fs.sb.datastart
    {
      assert At(fs, Ind(j)) == fs.inodes[j].addrs[NDIRECT];
    }
  }

  /** The end of itrunc: the inode's references are null, the other files are as they were, and the
      bitmap has lost exactly the blocks of the file. */
  lemma Truncated(fs: Fs, own: map<nat, Ref>, fs': Fs, owner: map<nat, Ref>, i: nat)
    requires Good(fs, own) && SameData(fs, fs') && i < |fs.inodes|
    requires fs'.inodes == fs.inodes[i := Inode(seq(NDIRECT + 1, _ => 0), 0)]
    requires Shape(fs') && Owned(fs', owner)
    requires owner == Dropped(own, Directs(i, NDIRECT) + (Leaves(i, NINDIRECT) + {Ind(i)}))
    ensures Good(fs', owner)
    ensures forall b :: 0 <= b < fs.sb.size ==> (Bitmap(fs')[b] <==> Bitmap(fs)[b] && b !in Reach(fs, own, i))
    ensures forall j :: 0 <= j < |fs.inodes| && j != i ==> Content(fs', j) == Content(fs, j)
  {
    assert Open(0, fs, own);
    IndirectIsData(fs, own);
    TruncatedRefs(fs, fs', i);
    forall j | 0 <= j < |fs.inodes|
      ensures forall bn :: 0 <= bn < MAXFILE && bn * BSIZE < fs'.inodes[j].size ==> AddrOf(fs', j, bn) != 0
    {
      if j != i {
        TruncatedFiles(fs, own, fs', i, j);
      }
    }
    forall j | 0 <= j < |fs.inodes| && j != i ensures Content(fs', j) == Content(fs, j) {
      TruncatedFiles(fs, own, fs', i, j);
    }
    TruncatedOwner(fs, own, owner, i);
    IsGood(fs', owner);
  }

  lemma TruncatedOwner(fs: Fs, own: map<nat, Ref>, owner: map<nat, Ref>, i: nat)
    requires Shape(fs) && Owned(fs, own) && i < |fs.inodes|
    requires owner == Dropped(own, Directs(i, NDIRECT) + (Leaves(i, NINDIRECT) + {Ind(i)}))
    ensures forall b :: b in owner <==> b in own && own[b].inum != i
  {
    forall b | b in own ensures b in owner <==> own[b].inum != i {
      var r := own[b];
      assert ValidRef(fs, r);
      if r.inum == i {
        if r.Direct? {
          assert r in Directs(i, NDIRECT);
        } else if r.Leaf? {
          assert r in Leaves(i, NINDIRECT);
        }
      }
    }
  }

  /** What itrunc has logged before it updates the inode. */
  lemma TruncatedLog(fs: Fs, own: map<nat, Ref>, blocks': seq<Block>, owner: map<nat, Ref>, i: nat, log: set<nat>,
                     log': set<nat>)
    requires Shape(fs) && Owned(fs, own) && i < |fs.inodes|
    requires owner == Dropped(own, Directs(i, NDIRECT) + (Leaves(i, NINDIRECT) + {Ind(i)}))
    requires FreesLogged(fs.sb, fs.blocks, blocks', log, log', own.Keys, owner.Keys)
    ensures log' == log + BitmapBlocks(fs.sb, Reach(fs, own, i)) && OnlyLogged(fs.blocks, blocks', log')
  {
    TruncatedOwner(fs, own, owner, i);
    assert own.Keys - owner.Keys == Reach(fs, own, i);
  }
}
