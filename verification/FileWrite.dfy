/** filewrite: a write of any length cut into transactions that fit the log. */
module FileWrite {
  import opened FsBytes
  import opened FsModel
  import opened FsFiles
  import opened FsCode

  /** ((MAXOPBLOCKS-1-1-2) / 2) * BSIZE */
  const CHUNK: nat := ((MAXOPBLOCKS - 1 - 1 - 2) / 2) * BSIZE

  /** A chunk touches at most four file blocks, and at most three of them can be new. */
  lemma ChunkFits(off: nat, n: nat)
    requires n <= CHUNK
    ensures Touched(off, n) + Fresh(off, n) + 3 <= MAXOPBLOCKS
  {
  }

  lemma WrittenTwice(fs: Fs, mid: Fs, fs': Fs, i: nat, off: nat, s: seq<byte>, t: seq<byte>, r: int)
    requires FileWritten(fs, mid, i, off, s, |s|) && FileWritten(mid, fs', i, off + |s|, t, r)
    ensures FileWritten(fs, fs', i, off, s + t, |s| + r)
  {
    ReplacedTwice(fs, mid, fs', i, off, s, t);
  }

  /** What the chunks before byte `done` did: nothing yet, or a write of those bytes. */
  ghost predicate Progress(fs: Fs, now: Fs, i: nat, off: nat, src: seq<byte>, done: nat) {
    && done <= |src|
    && if done == 0 then now == fs else FileWritten(fs, now, i, off, src[..done], done)
  }

  /** The next block of the file is not mapped and no block is left on the disk. */
  ghost predicate DiskFull(fs: Fs, i: nat, pos: nat) {
    && Shape(fs) && i < |fs.inodes| && pos < MAXBYTES && AddrOf(fs, i, pos / BSIZE) == 0
    && forall c :: 0 <= c < fs.sb.size ==> Bitmap(fs)[c]
  }

  /** What a transaction leaves: the file system, and the blocks it logged. */
  datatype Commit = Commit(fs: Fs, log: set<nat>)

  /** ChunkWritten is looked into only where this is mentioned. */
  predicate Saw(q: int, c: Commit) { true }

  /** Names a transaction; Chain is looked into only where it is mentioned. */
  predicate Part(t: int) { true }

  /** A transaction has logged what a write of r of n bytes, with k bytes stored, logs. */
  ghost predicate Logged(before: Fs, c: Commit, i: nat, pos: nat, n: nat, r: int, k: int) {
    match c
    case Commit(_, _) =>
      forall q: int {:trigger Saw(q, c)} :: 0 <= q ==> WriteLog(before, c.fs, {}, c.log, i, pos, n, r, k)
  }

  /** One transaction of filewrite: begin_op, writei of at most a chunk, end_op. */
  method WriteChunk(fsys: FileSystem, i: nat, pos: nat, src: seq<byte>, n1: nat, torn: nat)
    returns (r: int, ghost more: seq<byte>)
    requires fsys.Valid() && i < |fsys.inodes| && pos < UINT && 0 < n1 <= CHUNK
    modifies fsys
    ensures fsys.Valid() && |fsys.inodes| == old(|fsys.inodes|)
    ensures old(fsys.dinodes == fsys.inodes) ==> fsys.dinodes == fsys.inodes
    ensures |fsys.logged| <= MAXOPBLOCKS && |fsys.logged - {IBlock(fsys.sb, i)}| < MAXOPBLOCKS
    ensures r == -1 <==> pos > old(fsys.inodes)[i].size || pos + n1 > MAXBYTES
    ensures r == -1 ==> fsys.Now() == old(fsys.Now()) && fsys.logged == {}
    ensures r != -1 ==>
              && FileWritten(old(fsys.Now()), fsys.Now(), i, pos, more, r) && more <= src
              && 0 <= r <= n1 && r <= |more| <= r + torn && (r == n1 ==> |more| == n1)
              && Logged(old(fsys.Now()), Commit(fsys.Now(), fsys.logged), i, pos, n1, r, |more|)
    ensures 0 <= r < n1 ==> |src| < n1 || DiskFull(fsys.Now(), i, pos + r)
  {
    fsys.logged := {};
    r, more := fsys.Writei(i, src, pos, n1, torn);
    ChunkFits(pos, n1);
    if r != -1 {
      InodesReachDisk(old(fsys.inodes), fsys.inodes, i);
    }
  }

  /** If the inode blocks held the inodes before, they do so after iupdate. */
  lemma InodesReachDisk(inodes: seq<Inode>, inodes': seq<Inode>, i: nat)
    requires OtherInodes(inodes, inodes', i) && i < |inodes|
    ensures inodes[i := inodes'[i]] == inodes'
  {
  }

  lemma ChunkIsWritten(before: Fs, c: Commit, i: nat, off: nat, src: seq<byte>, done: nat, n1: nat, more: seq<byte>)
    requires done <= |src| && more <= src[done..] && |more| == n1 && |c.log| <= MAXOPBLOCKS
    requires FileWritten(before, c.fs, i, off + done, more, n1)
    requires Logged(before, c, i, off + done, n1, n1, n1)
    ensures ChunkWritten(before, c, i, off, src, done, n1)
  {
    assert Saw(0, c);
    assert more == src[done..done + n1];
  }

  /** The chunk of src from byte done on. */
  method WriteNext(fsys: FileSystem, i: nat, off: nat, src: seq<byte>, done: nat, n1: nat, torn: nat)
    returns (r: int, ghost more: seq<byte>)
    requires fsys.Valid() && i < |fsys.inodes| && off + done < UINT && 0 < n1 <= CHUNK && done <= |src|
    modifies fsys
    ensures fsys.Valid() && |fsys.inodes| == old(|fsys.inodes|)
    ensures old(fsys.dinodes == fsys.inodes) ==> fsys.dinodes == fsys.inodes
    ensures |fsys.logged| <= MAXOPBLOCKS && |fsys.logged - {IBlock(fsys.sb, i)}| < MAXOPBLOCKS
    ensures r == -1 <==> off + done > old(fsys.inodes)[i].size || off + done + n1 > MAXBYTES
    ensures r == -1 ==> fsys.Now() == old(fsys.Now()) && fsys.logged == {}
    ensures r != -1 ==>
              && FileWritten(old(fsys.Now()), fsys.Now(), i, off + done, more, r) && more <= src[done..]
              && 0 <= r <= n1 && r <= |more| <= r + torn && (r == n1 ==> |more| == n1)
              && Logged(old(fsys.Now()), Commit(fsys.Now(), fsys.logged), i, off + done, n1, r, |more|)
    ensures 0 <= r < n1 ==> |src| < done + n1 || DiskFull(fsys.Now(), i, off + done + r)
    ensures r == n1 ==> ChunkWritten(old(fsys.Now()), Commit(fsys.Now(), fsys.logged), i, off, src, done, n1)
  {
    r, more := WriteChunk(fsys, i, off + done, src[done..], n1, torn);
    if r == n1 {
      ChunkIsWritten(old(fsys.Now()), Commit(fsys.Now(), fsys.logged), i, off, src, done, n1, more);
    }
  }

  /** One turn of filewrite's loop. */
  method Transaction(fsys: FileSystem, i: nat, off: nat, src: seq<byte>, done: nat, n1: nat, torn: nat, ghost fs: Fs)
    returns (r: int, ghost stored: seq<byte>)
    requires fsys.Valid() && i < |fsys.inodes| && off + done < UINT && 0 < n1 <= CHUNK
    requires Progress(fs, fsys.Now(), i, off, src, done)
    modifies fsys
    ensures fsys.Valid() && |fsys.inodes| == old(|fsys.inodes|) && |fsys.logged| <= MAXOPBLOCKS
    ensures old(fsys.dinodes == fsys.inodes) ==> fsys.dinodes == fsys.inodes
    ensures |fsys.logged - {IBlock(fsys.sb, i)}| < MAXOPBLOCKS
    ensures r == -1 <==> off + done > old(fsys.inodes)[i].size || off + done + n1 > MAXBYTES
    ensures r == -1 ==> fsys.Now() == old(fsys.Now()) && stored == src[..done] && fsys.logged == {}
    ensures r != -1 ==>
              && FileWritten(fs, fsys.Now(), i, off, stored, done + r) && stored <= src
              && 0 <= r <= n1 && done + r <= |stored| <= done + r + torn
              && Logged(old(fsys.Now()), Commit(fsys.Now(), fsys.logged), i, off + done, n1, r, |stored| - done)
    ensures 0 <= r < n1 ==> |src| < done + n1 || DiskFull(fsys.Now(), i, off + done + r)
    ensures r == n1 ==>
              && done + n1 <= |src| && stored == src[..done + n1] && fsys.inodes[i].size >= off + done + n1
              && Progress(fs, fsys.Now(), i, off, src, done + n1)
              && ChunkWritten(old(fsys.Now()), Commit(fsys.Now(), fsys.logged), i, off, src, done, n1)
  {
    ghost var mid := fsys.Now();
    ghost var more;
    r, more := WriteNext(fsys, i, off, src, done, n1, torn);
    stored := src[..done];
    if r != -1 {
      ChunkAdded(fs, mid, fsys.Now(), i, off, src, done, more, r);
      stored := src[..done] + more;
    }
  }

  // ----- the transactions of a write -----

  /** A transaction has written bytes done to done + n1 of src, and nothing else. */
  ghost predicate ChunkWritten(before: Fs, c: Commit, i: nat, off: nat, src: seq<byte>, done: nat, n1: int) {
    match c
    case Commit(_, _) =>
      && 0 <= n1 && done + n1 <= |src|
      && forall q: int {:trigger Saw(q, c)} :: 0 <= q ==>
           && FileWritten(before, c.fs, i, off + done, src[done..done + n1], n1)
           && WriteLog(before, c.fs, {}, c.log, i, off + done, n1, n1, n1) && |c.log| <= MAXOPBLOCKS
  }

  /** The file system after t transactions. */
  ghost function After(fs: Fs, commits: seq<Commit>, t: nat): Fs
    requires t <= |commits|
  {
    if t == 0 then fs else commits[t - 1].fs
  }

  /** The bytes that t transactions of a write of n bytes write. */
  function BytesIn(n: nat, t: nat): nat { if t * CHUNK < n then t * CHUNK else n }

  /** A write of n bytes takes t transactions. */
  predicate InChunks(n: nat, t: nat) { n <= t * CHUNK && (t > 0 ==> (t - 1) * CHUNK < n) }

  /** The transactions write one chunk after the other. */
  ghost predicate Chain(fs: Fs, commits: seq<Commit>, i: nat, off: nat, src: seq<byte>, n: nat) {
    forall t {:trigger Part(t)} :: 0 <= t < |commits| ==>
      ChunkWritten(After(fs, commits, t), commits[t], i, off, src, BytesIn(n, t), BytesIn(n, t + 1) - BytesIn(n, t))
  }

  lemma ChainGrows(fs: Fs, commits: seq<Commit>, c: Commit, i: nat, off: nat, src: seq<byte>, n: nat)
    requires Chain(fs, commits, i, off, src, n)
    requires var t := |commits|;
             ChunkWritten(After(fs, commits, t), c, i, off, src, BytesIn(n, t), BytesIn(n, t + 1) - BytesIn(n, t))
    ensures Chain(fs, commits + [c], i, off, src, n)
  {
    var commits' := commits + [c];
    forall t | 0 <= t < |commits'|
      ensures ChunkWritten(After(fs, commits', t), commits'[t], i, off, src, BytesIn(n, t),
              BytesIn(n, t + 1) - BytesIn(n, t))
    {
      assert Part(t) && After(fs, commits', t) == After(fs, commits, t);
    }
  }

  /** After each of them the file holds exactly the chunks so far. */
  lemma {:induction false} ChainIsPrefix(fs: Fs, commits: seq<Commit>, i: nat, off: nat, src: seq<byte>, n: nat, t: nat)
    requires Chain(fs, commits, i, off, src, n) && 0 < t <= |commits|
    ensures BytesIn(n, t) <= |src|
    ensures FileWritten(fs, After(fs, commits, t), i, off, src[..BytesIn(n, t)], BytesIn(n, t))
  {
    var done, n1 := BytesIn(n, t - 1), BytesIn(n, t) - BytesIn(n, t - 1);
    assert Part(t - 1);
    assert ChunkWritten(After(fs, commits, t - 1), commits[t - 1], i, off, src, done, n1);
    if t == 1 {
      FirstChunk(fs, commits[0], i, off, src, n1);
    } else {
      ChainIsPrefix(fs, commits, i, off, src, n, t - 1);
      NextPrefix(fs, After(fs, commits, t - 1), commits[t - 1], i, off, src, done, n1);
    }
  }

  lemma FirstChunk(fs: Fs, c: Commit, i: nat, off: nat, src: seq<byte>, n1: nat)
    requires ChunkWritten(fs, c, i, off, src, 0, n1)
    ensures FileWritten(fs, c.fs, i, off, src[..n1], n1)
  {
    assert Saw(0, c);
    assert src[0..n1] == src[..n1];
  }

  lemma NextPrefix(fs: Fs, mid: Fs, c: Commit, i: nat, off: nat, src: seq<byte>, done: nat, n1: nat)
    requires done <= |src| && FileWritten(fs, mid, i, off, src[..done], done)
    requires ChunkWritten(mid, c, i, off, src, done, n1)
    ensures FileWritten(fs, c.fs, i, off, src[..done + n1], done + n1)
  {
    assert Saw(0, c);
    WrittenTwice(fs, mid, c.fs, i, off, src[..done], src[done..done + n1], n1);
    assert src[..done] + src[done..done + n1] == src[..done + n1];
  }

  /** Going is looked into only where this is mentioned. */
  predicate Lap(q: int, commits: seq<Commit>) { true }

  /** The invariant of filewrite's loop: whole chunks are written, one transaction for each. */
  ghost predicate Going(fs: Fs, now: Fs, commits: seq<Commit>, i: nat, off: nat, src: seq<byte>, n: nat, done: nat) {
    forall q: int {:trigger Lap(q, commits)} :: 0 <= q ==>
      && Progress(fs, now, i, off, src, done) && now == After(fs, commits, |commits|)
      && Chain(fs, commits, i, off, src, n) && done == BytesIn(n, |commits|) && InChunks(done, |commits|)
      && SizesFit(fs, now, i, off, done)
  }

  ghost predicate SizesFit(fs: Fs, now: Fs, i: nat, off: nat, done: nat) {
    && i < |fs.inodes| && i < |now.inodes|
    && (done == 0 ==> now.inodes[i].size == fs.inodes[i].size)
    && (done > 0 ==> off <= fs.inodes[i].size && off + done <= MAXBYTES && off + done <= now.inodes[i].size)
  }

  lemma GoingStarts(fs: Fs, i: nat, off: nat, src: seq<byte>, n: nat)
    requires i < |fs.inodes|
    ensures Going(fs, fs, [], i, off, src, n, 0)
  {
    var none: seq<Commit> := [];
    assert Chain(fs, none, i, off, src, n) && BytesIn(n, |none|) == 0 && InChunks(0, |none|);
    assert Progress(fs, fs, i, off, src, 0) && After(fs, none, |none|) == fs && SizesFit(fs, fs, i, off, 0);
    assert Going(fs, fs, none, i, off, src, n, 0);
  }

  lemma GoesOn(fs: Fs, now: Fs, commits: seq<Commit>, c: Commit, i: nat, off: nat, src: seq<byte>, n: nat, done: nat,
               n1: nat)
    requires Going(fs, now, commits, i, off, src, n, done) && done < n
    requires n1 == if n - done > CHUNK then CHUNK else n - done
    requires ChunkWritten(now, c, i, off, src, done, n1) && Progress(fs, c.fs, i, off, src, done + n1)
    requires i < |c.fs.inodes| && off + done + n1 <= c.fs.inodes[i].size && off + done + n1 <= MAXBYTES
    requires i < |now.inodes| && off + done <= now.inodes[i].size
    ensures Going(fs, c.fs, commits + [c], i, off, src, n, done + n1)
  {
    assert Lap(0, commits);
    NextChunk(n, |commits|, done, n1);
    ChainGrows(fs, commits, c, i, off, src, n);
    assert After(fs, commits + [c], |commits + [c]|) == c.fs && SizesFit(fs, c.fs, i, off, done + n1);
    assert done + n1 == BytesIn(n, |commits + [c]|) && InChunks(done + n1, |commits + [c]|);
  }

  /** What a write that stops before its end leaves, and why it stops. */
  ghost predicate Stopped(fs: Fs, now: Fs, commits: seq<Commit>, i: nat, off: nat, src: seq<byte>, n: nat,
                          stored: seq<byte>, done: nat, torn: nat) {
    && stored <= src && done <= |stored| <= done + torn && done < n
    && (now == fs || FileWritten(fs, now, i, off, stored, done))
    && Chain(fs, commits, i, off, src, n) && |commits| * CHUNK <= done < (|commits| + 1) * CHUNK
    && i < |fs.inodes| && (off > fs.inodes[i].size || off + n > MAXBYTES || |src| < n || DiskFull(now, i, off + done))
  }

  lemma StopsHere(fs: Fs, mid: Fs, now: Fs, commits: seq<Commit>, i: nat, off: nat, src: seq<byte>, n: nat,
                  stored: seq<byte>, done: nat, n1: nat, r: nat, torn: nat)
    requires Going(fs, mid, commits, i, off, src, n, done) && r < n1
             && n1 == (if n - done > CHUNK then CHUNK else n - done)
    requires done < n && i < |mid.inodes| && stored <= src && done + r <= |stored| <= done + r + torn
    requires (now == mid && r == 0 && stored == src[..done]) || FileWritten(fs, now, i, off, stored, done + r)
    requires || off + done > mid.inodes[i].size || off + done + n1 > MAXBYTES
             || |src| < done + n1 || DiskFull(now, i, off + done + r)
    ensures Stopped(fs, now, commits, i, off, src, n, stored, done + r, torn)
  {
    assert Lap(0, commits);
    NextChunk(n, |commits|, done, n1);
  }

  lemma GoingFacts(fs: Fs, now: Fs, commits: seq<Commit>, i: nat, off: nat, src: seq<byte>, n: nat, done: nat)
    requires Going(fs, now, commits, i, off, src, n, done)
    ensures Progress(fs, now, i, off, src, done)
  {
    assert Lap(0, commits);
  }

  /** One turn of the loop, with the transactions so far. */
  method Turn(fsys: FileSystem, i: nat, off: nat, src: seq<byte>, n: nat, done: nat, torn: nat, ghost fs: Fs,
              ghost commits: seq<Commit>)
    returns (r: int, n1: nat, ghost stored: seq<byte>)
    requires fsys.Valid() && i < |fsys.inodes| && off + done < UINT && done < n
    requires Going(fs, fsys.Now(), commits, i, off, src, n, done)
    modifies fsys
    ensures fsys.Valid() && |fsys.inodes| == old(|fsys.inodes|) && |fsys.logged| <= MAXOPBLOCKS
    ensures old(fsys.dinodes == fsys.inodes) ==> fsys.dinodes == fsys.inodes
    ensures -1 <= r <= n1 && n1 == (if n - done > CHUNK then CHUNK else n - done)
    ensures r == n1 ==> Going(fs, fsys.Now(), commits + [Commit(fsys.Now(), fsys.logged)], i, off, src, n, done + n1)
    ensures r == n1 ==> off + done + n1 < UINT && done + n1 <= |src| && stored == src[..done + n1]
    ensures r < n1 ==>
              var r0 := if r == -1 then 0 else r;
              Stopped(fs, fsys.Now(), commits, i, off, src, n, stored, done + r0, torn)
  {
    GoingFacts(fs, fsys.Now(), commits, i, off, src, n, done);
    ghost var mid := fsys.Now();
    n1 := if n - done > CHUNK then CHUNK else n - done;
    r, stored := Transaction(fsys, i, off, src, done, n1, torn, fs);
    if r == n1 {
      GoesOn(fs, mid, commits, Commit(fsys.Now(), fsys.logged), i, off, src, n, done, n1);
    } else {
      StopsHere(fs, mid, fsys.Now(), commits, i, off, src, n, stored, done, n1, if r == -1 then 0 else r, torn);
    }
  }

  lemma AllWritten(fs: Fs, now: Fs, commits: seq<Commit>, i: nat, off: nat, src: seq<byte>, n: nat)
    requires Going(fs, now, commits, i, off, src, n, n)
    ensures Chain(fs, commits, i, off, src, n) && InChunks(n, |commits|) && now == After(fs, commits, |commits|)
    ensures n <= |src| && (now == fs || FileWritten(fs, now, i, off, src[..n], n))
    ensures n > 0 ==> i < |fs.inodes| && off <= fs.inodes[i].size && off + n <= MAXBYTES
  {
    assert Lap(0, commits);
  }

  /** filewrite's loop: all n bytes, or as far as it gets. */
  method WriteAll(fsys: FileSystem, i: nat, off: nat, src: seq<byte>, n: nat, torn: nat)
    returns (done: nat, off': nat, ghost stored: seq<byte>, ghost commits: seq<Commit>)
    requires fsys.Valid() && i < |fsys.inodes| && off < UINT && n < UINT / 2
    modifies fsys
    ensures fsys.Valid() && (n > 0 ==> |fsys.logged| <= MAXOPBLOCKS) && done <= n && off <= off'
    ensures old(fsys.dinodes == fsys.inodes) ==> fsys.dinodes == fsys.inodes
    ensures done == n ==> off' == off + n && n <= |src| && stored == src[..n]
    ensures done == n ==> Going(old(fsys.Now()), fsys.Now(), commits, i, off, src, n, n)
    ensures done < n ==> Stopped(old(fsys.Now()), fsys.Now(), commits, i, off, src, n, stored, off' - off, torn)
  {
    ghost var fs := fsys.Now();
    done, off', stored, commits := 0, off, [], [];
    GoingStarts(fs, i, off, src, n);
    while done < n
      invariant fsys.Valid() && i < |fsys.inodes| && (done > 0 ==> |fsys.logged| <= MAXOPBLOCKS)
      invariant done <= |src| && done <= n && off' == off + done < UINT && stored == src[..done]
      invariant old(fsys.dinodes == fsys.inodes) ==> fsys.dinodes == fsys.inodes
      invariant Going(fs, fsys.Now(), commits, i, off, src, n, done)
    {
      var r, n1;
      r, n1, stored := Turn(fsys, i, off, src, n, done, torn, fs, commits);
      if r > 0 {
        off' := off' + r;
      }
      if r != n1 {
        return;
      }
      commits := commits + [Commit(fsys.Now(), fsys.logged)];
      done := done + r;
    }
  }

  /** filewrite on a file opened on inode i, with 32-bit signed n: one transaction for each chunk, in order.  It
      fails only for an offset beyond the file, a file that would be too large, bytes that the user cannot
      supply, or a full disk. */
  method Filewrite(fsys: FileSystem, i: nat, off: nat, src: seq<byte>, n: int, torn: nat)
    returns (ret: int, off': nat, ghost stored: seq<byte>, ghost commits: seq<Commit>)
    requires fsys.Valid() && i < |fsys.inodes| && off < UINT && n < UINT / 2
    modifies fsys
    ensures fsys.Valid() && (n > 0 ==> |fsys.logged| <= MAXOPBLOCKS) && (ret == -1 || ret == n)
    ensures old(fsys.dinodes == fsys.inodes) ==> fsys.dinodes == fsys.inodes
    ensures n < 0 ==> ret == -1 && off' == off && fsys.Now() == old(fsys.Now())
    ensures ret == n >= 0 ==>
              && off' == off + n && n <= |src| && stored == src[..n]
              && Chain(old(fsys.Now()), commits, i, off, src, n) && InChunks(n, |commits|)
              && fsys.Now() == After(old(fsys.Now()), commits, |commits|)
              && (n > 0 ==> off <= old(fsys.inodes)[i].size && off + n <= MAXBYTES)
              && (fsys.Now() == old(fsys.Now()) || FileWritten(old(fsys.Now()), fsys.Now(), i, off, stored, n))
    ensures 0 <= n != ret ==>
              off <= off' && Stopped(old(fsys.Now()), fsys.Now(), commits, i, off, src, n, stored, off' - off, torn)
  {
    ghost var fs := fsys.Now();
    var done := 0;
    off', stored, commits := off, [], [];
    if n >= 0 {
      done, off', stored, commits := WriteAll(fsys, i, off, src, n, torn);
      if done == n {
        AllWritten(fs, fsys.Now(), commits, i, off, src, n);
      }
    }
    ret := if done == n then n else -1;
  }

  lemma NextChunk(n: nat, t: nat, done: nat, n1: nat)
    requires done == BytesIn(n, t) < n && n1 == if n - done > CHUNK then CHUNK else n - done
    ensures done == t * CHUNK && BytesIn(n, t + 1) == done + n1 && InChunks(done + n1, t + 1)
  {
  }

  lemma ChunkAdded(fs: Fs, mid: Fs, fs': Fs, i: nat, off: nat, src: seq<byte>, done: nat, more: seq<byte>, r: int)
    requires done <= |src|
    requires if done == 0 then mid == fs else FileWritten(fs, mid, i, off, src[..done], done)
    requires FileWritten(mid, fs', i, off + done, more, r) && more <= src[done..]
    ensures FileWritten(fs, fs', i, off, src[..done] + more, done + r) && src[..done] + more <= src
  {
    if done > 0 {
      WrittenTwice(fs, mid, fs', i, off, src[..done], more, r);
    } else {
      assert src[..done] + more == more;
    }
  }
}
