/** A file system as the blocks of words that the log handles. */
module FsLayout {
  import opened FsBytes
  import opened FsModel
  import opened FsFiles
  import opened FsCode

  const INODEWORDS: nat := 16   // sizeof(struct dinode) / sizeof(uint)

  /** The blocks that the log keeps for itself. */
  datatype LogArea = LogArea(start: nat, nlog: nat)

  predicate InLog(area: LogArea, b: nat) { area.start <= b < area.start + area.nlog }

  predicate InInodes(sb: Super, b: nat) { sb.inodestart <= b < sb.bmapstart }

  /** A dinode: type, device numbers and links, which are not modelled, then size and addresses. */
  function InodeWords(n: Inode): (r: seq<nat>)
    requires |n.addrs| == NDIRECT + 1
    ensures |r| == INODEWORDS
  {
    [0, 0, n.size] + n.addrs
  }

  /** Word k of an inode block. */
  function InodeWord(fs: Fs, b: nat, k: nat): nat
    requires Shape(fs) && InInodes(fs.sb, b)
  {
    var j := (b - fs.sb.inodestart) * IPB + k / INODEWORDS;
    if j < |fs.inodes| then InodeWords(fs.inodes[j])[k % INODEWORDS] else 0
  }

  function InodeBlock(fs: Fs, b: nat): (r: seq<nat>)
    requires Shape(fs) && InInodes(fs.sb, b)
    ensures |r| == NINDIRECT && forall k :: 0 <= k < |r| ==> r[k] == InodeWord(fs, b, k)
  {
    seq(NINDIRECT, k requires 0 <= k < NINDIRECT => InodeWord(fs, b, k))
  }

  /** Block b as words; nothing for the blocks of the log. */
  function BlockWords(fs: Fs, area: LogArea, b: nat): (r: seq<nat>)
    requires Shape(fs) && b < |fs.blocks|
    ensures |r| == if InLog(area, b) then 0 else NINDIRECT
  {
    if InLog(area, b) then []
    else if InInodes(fs.sb, b) then InodeBlock(fs, b)
    else Words(fs.blocks[b])
  }

  function Layout(fs: Fs, area: LogArea): (r: seq<seq<nat>>)
    requires Shape(fs)
    ensures |r| == |fs.blocks| && forall b :: 0 <= b < |r| ==> r[b] == BlockWords(fs, area, b)
  {
    seq(|fs.blocks|, b requires 0 <= b < |fs.blocks| => BlockWords(fs, area, b))
  }

  // ----- what a transaction changes -----

  lemma OtherInodeBlock(fs: Fs, fs': Fs, i: nat, b: nat)
    requires Shape(fs) && Shape(fs') && fs'.sb == fs.sb && OtherInodes(fs.inodes, fs'.inodes, i)
    requires InInodes(fs.sb, b) && b != IBlock(fs.sb, i)
    ensures InodeBlock(fs', b) == InodeBlock(fs, b)
  {
    var l, r := InodeBlock(fs', b), InodeBlock(fs, b);
    forall k | 0 <= k < NINDIRECT ensures l[k] == r[k] {
      var j := (b - fs.sb.inodestart) * IPB + k / INODEWORDS;
      assert j / IPB == b - fs.sb.inodestart;
    }
  }

  /** A transaction changes no block on disk but those it logs. */
  lemma OnlyLoggedChange(fs: Fs, fs': Fs, area: LogArea, i: nat, log: set<nat>, b: nat)
    requires Shape(fs) && Shape(fs') && fs'.sb == fs.sb && OtherInodes(fs.inodes, fs'.inodes, i)
    requires OnlyLogged(fs.blocks, fs'.blocks, log) && IBlock(fs.sb, i) in log && b < |fs.blocks| && b !in log
    ensures BlockWords(fs', area, b) == BlockWords(fs, area, b)
  {
    if !InLog(area, b) && InInodes(fs.sb, b) {
      OtherInodeBlock(fs, fs', i, b);
    }
  }

  // ----- the blocks determine the files -----

  lemma {:induction false} LittleIsOne(s: seq<byte>, t: seq<byte>)
    requires |s| == |t| && Little(s) == Little(t)
    ensures s == t
  {
    if s != [] {
      assert Little(s) % 256 == s[0] && Little(t) % 256 == t[0];
      LittleIsOne(s[1..], t[1..]);
      assert s == [s[0]] + s[1..] && t == [t[0]] + t[1..];
    }
  }

  lemma WordsAreOne(b: Block, c: Block)
    requires Words(b) == Words(c)
    ensures b == c
  {
    forall o | 0 <= o < BSIZE ensures b[o] == c[o] {
      var k := o / 4;
      WordsToAt(b, NINDIRECT, k);
      WordsToAt(c, NINDIRECT, k);
      LittleIsOne(b[4 * k..4 * k + 4], c[4 * k..4 * k + 4]);
      assert b[o] == b[4 * k..4 * k + 4][o - 4 * k] && c[o] == c[4 * k..4 * k + 4][o - 4 * k];
    }
  }

  /** The layout of mkfs: the log, then the inode blocks, then the bitmap and the data. */
  predicate LaidOut(sb: Super, area: LogArea) {
    && area.start + area.nlog <= sb.inodestart <= sb.bmapstart <= sb.datastart <= sb.size
    && (sb.ninodes > 0 ==> IBlock(sb, sb.ninodes - 1) < sb.bmapstart)
  }

  lemma SameInode(fs: Fs, fs': Fs, area: LogArea, j: nat)
    requires Shape(fs) && Shape(fs') && fs'.sb == fs.sb && LaidOut(fs.sb, area) && Layout(fs', area) == Layout(fs, area)
    requires j < |fs.inodes|
    ensures fs'.inodes[j] == fs.inodes[j]
  {
    var b, k0 := IBlock(fs.sb, j), (j % IPB) * INODEWORDS;
    assert InInodes(fs.sb, b) && !InLog(area, b) && b < |fs.blocks|;
    assert Layout(fs', area)[b] == InodeBlock(fs', b) && Layout(fs, area)[b] == InodeBlock(fs, b);
    var l, r := InodeWords(fs'.inodes[j]), InodeWords(fs.inodes[j]);
    forall w | 0 <= w < INODEWORDS ensures l[w] == r[w] {
      WordOfInode(fs, b, j, w);
      WordOfInode(fs', b, j, w);
    }
    assert l[2] == r[2] && l[3..] == fs'.inodes[j].addrs && r[3..] == fs.inodes[j].addrs;
  }

  lemma WordOfInode(fs: Fs, b: nat, j: nat, w: nat)
    requires Shape(fs) && j < |fs.inodes| && b == IBlock(fs.sb, j) && InInodes(fs.sb, b) && w < INODEWORDS
    ensures InodeBlock(fs, b)[(j % IPB) * INODEWORDS + w] == InodeWords(fs.inodes[j])[w]
  {
    var k := (j % IPB) * INODEWORDS + w;
    assert k / INODEWORDS == j % IPB && k % INODEWORDS == w;
    assert (b - fs.sb.inodestart) * IPB + j % IPB == j;
  }

  lemma SameDataBlock(fs: Fs, fs': Fs, area: LogArea, b: nat)
    requires Shape(fs) && Shape(fs') && fs'.sb == fs.sb && LaidOut(fs.sb, area) && Layout(fs', area) == Layout(fs, area)
    requires fs.sb.datastart <= b < |fs.blocks|
    ensures fs'.blocks[b] == fs.blocks[b]
  {
    assert Layout(fs', area)[b] == Words(fs'.blocks[b]) && Layout(fs, area)[b] == Words(fs.blocks[b]);
    WordsAreOne(fs'.blocks[b], fs.blocks[b]);
  }

  /** Two file systems with the same blocks hold the same files. */
  lemma LayoutTellsFiles(fs: Fs, owner: map<nat, Ref>, fs': Fs, area: LogArea, j: nat)
    requires Good(fs, owner) && Shape(fs') && fs'.sb == fs.sb && LaidOut(fs.sb, area)
    requires Layout(fs', area) == Layout(fs, area) && j < |fs.inodes|
    ensures Content(fs', j) == Content(fs, j)
  {
    GoodParts(fs, owner);
    SameInode(fs, fs', area, j);
    var l, r := Content(fs', j), Content(fs, j);
    forall o | 0 <= o < |r| ensures l[o] == r[o] {
      SameByte(fs, owner, fs', area, j, o);
    }
  }

  lemma SameByte(fs: Fs, owner: map<nat, Ref>, fs': Fs, area: LogArea, j: nat, o: nat)
    requires Shape(fs) && Owned(fs, owner) && Shape(fs') && fs'.sb == fs.sb && LaidOut(fs.sb, area)
    requires Layout(fs', area) == Layout(fs, area) && j < |fs.inodes| && fs'.inodes[j] == fs.inodes[j] && o < MAXBYTES
    ensures ByteAt(fs', j, o) == ByteAt(fs, j, o)
  {
    var d := At(fs, Ind(j));
    if d != 0 {
      SameDataBlock(fs, fs', area, d);
    }
    var b := AddrOf(fs, j, o / BSIZE);
    assert AddrOf(fs', j, o / BSIZE) == b;
    if b != 0 {
      assert ValidRef(fs, DataRef(j, o / BSIZE));
      SameDataBlock(fs, fs', area, b);
    }
  }
}
