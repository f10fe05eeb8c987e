/**
 The write-ahead log over the buffer cache as a transition system.

 A step is a region that runs under one spin lock, or one synchronous block write together with
 the copying that precedes it under the buffer's sleep lock.  Any process may take any enabled
 step, so the runs of the machine are all interleavings of file-system operations, readers, the
 committer and recovery; `PowerFail` is enabled everywhere.
 */
module LogMachine {
  import opened Sequences
  import opened Options
  import opened AtomicStore

  const MAXOPBLOCKS: nat := 10
  const LOGBLOCKS: nat := 30
  const NBUF: nat := 30
  const BLOCKWORDS: nat := 256   // BSIZE / sizeof(uint)

  /** A cached block. `waiters` are the processes between bget and the end of brelse; `dirty` says
      that the holder has changed the data and not yet called log_write. */
  datatype Entry = Entry(valid: bool, data: Block, refcnt: nat, waiters: set<Pid>,
                         lock: Option<Pid>, dirty: bool)

  datatype Phase =
    | Booting                                    // before read_head
    | Running                                    // not in commit
    | WritingLog(k: nat)                         // write_log, tail == k
    | Installing(recovering: bool, tail: nat)    // install_trans
    | Erasing(rec: bool)                         // log.lh.n = 0 done, header not yet written
    | Finishing                                  // commit returned, committing still set

  /** `start` and `nlog` come from the super block; `ops` maps every outstanding operation to the
      number of log entries it has added. */
  datatype State = State(start: nat, nlog: nat, disk: seq<Block>, cache: map<nat, Entry>,
                         lh: seq<nat>, ops: map<Pid, nat>, committing: bool, phase: Phase)

  datatype Step =
    | Fetch(p: Pid, b: nat, victim: Option<nat>)   // bget: hit, or recycle
    | Lock(p: Pid, b: nat)                         // acquiresleep
    | Fill(p: Pid, b: nat)                         // bread of an invalid buffer
    | Modify(p: Pid, b: nat, v: Block)             // an operation changes b->data
    | LogWrite(p: Pid, b: nat)
    | Unlock(p: Pid, b: nat)                       // releasesleep
    | Put(p: Pid, b: nat)                          // brelse's decrement
    | BeginOp(p: Pid)
    | EndOp(p: Pid)
    | CopyToLog(p: Pid)                            // one turn of write_log
    | WriteHead(p: Pid)                            // the commit point
    | InstallOne(p: Pid)                           // one turn of install_trans
    | ClearHead                                    // log.lh.n = 0
    | EraseHead(p: Pid)                            // write_head of the empty log
    | EndCommit
    | ReadHead(p: Pid)
    | PowerFail

  // ----- the on-disk log -----

  predicate Home(s: State, b: nat) {
    b < |s.disk| && !(s.start <= b < s.start + s.nlog)
  }

  function Slot(s: State, i: nat): nat { s.start + 1 + i }

  /** The block numbers listed in a header block: word 0 is n, then n block numbers. */
  function Listed(header: Block): (l: seq<nat>) {
    if |header| == BLOCKWORDS && header[0] < BLOCKWORDS then header[1..1 + header[0]] else []
  }

  /** write_head: n and the first n entries are overwritten, the rest of the block is kept. */
  function WithList(header: Block, l: seq<nat>): (r: Block)
    requires |header| == BLOCKWORDS && |l| < BLOCKWORDS
    ensures |r| == BLOCKWORDS && r[0] == |l| && Listed(r) == l
  {
    [|l|] + l + header[1 + |l|..]
  }

  function OnDisk(s: State): seq<nat>
    requires s.start < |s.disk|
  {
    Listed(s.disk[s.start])
  }

  function IndexOf(l: seq<nat>, b: nat): (i: nat)
    requires b in l
    ensures i < |l| && l[i] == b
    ensures forall j :: 0 <= j < i ==> l[j] != b
  {
    if l[0] == b then 0 else 1 + IndexOf(l[1..], b)
  }

  // ----- enabling conditions and effects -----

  predicate Holds(s: State, p: Pid, b: nat) {
    b in s.cache && s.cache[b].valid && s.cache[b].lock == Some(p)
  }

  predicate Recovers(s: State) {
    || s.phase.Booting?
    || (s.phase.Installing? && s.phase.recovering)
    || (s.phase.Erasing? && s.phase.rec)
  }

  function SetEntry(s: State, b: nat, e: Entry): State { s.(cache := s.cache[b := e]) }

  predicate CanFetch(s: State, p: Pid, b: nat, victim: Option<nat>) {
    && b < |s.disk|
    && (b in s.cache ==> p !in s.cache[b].waiters)
    && (b !in s.cache ==>
          if victim.None? then |s.cache| < NBUF
          else victim.value in s.cache && s.cache[victim.value].refcnt == 0)
  }

  function DoFetch(s: State, p: Pid, b: nat, victim: Option<nat>): State
    requires CanFetch(s, p, b, victim)
  {
    if b in s.cache then
      SetEntry(s, b, s.cache[b].(refcnt := s.cache[b].refcnt + 1, waiters := s.cache[b].waiters + {p}))
    else
      var kept := if victim.None? then s.cache else s.cache - {victim.value};
      s.(cache := kept[b := Entry(false, [], 1, {p}, None, false)])
  }

  predicate CanLock(s: State, p: Pid, b: nat) {
    b in s.cache && p in s.cache[b].waiters && s.cache[b].lock.None?
  }

  predicate CanFill(s: State, p: Pid, b: nat) {
    b in s.cache && b < |s.disk| && !s.cache[b].valid && s.cache[b].lock == Some(p)
  }

  predicate CanModify(s: State, p: Pid, b: nat, v: Block) {
    Holds(s, p, b) && Home(s, b) && p in s.ops && |v| == BLOCKWORDS
  }

  /** log_write without a panic, by an operation that stays within its credit. */
  predicate CanLogWrite(s: State, p: Pid, b: nat) {
    && Holds(s, p, b) && Home(s, b) && p in s.ops
    && |s.lh| < LOGBLOCKS
    && (b !in s.lh ==> s.ops[p] < MAXOPBLOCKS)
  }

  function DoLogWrite(s: State, p: Pid, b: nat): State
    requires CanLogWrite(s, p, b)
  {
    var e := s.cache[b].(dirty := false);
    if b in s.lh then SetEntry(s, b, e)
    else s.(cache := s.cache[b := e.(refcnt := e.refcnt + 1)],
            lh := s.lh + [b], ops := s.ops[p := s.ops[p] + 1])
  }

  predicate CanUnlock(s: State, p: Pid, b: nat) {
    b in s.cache && s.cache[b].lock == Some(p) && !s.cache[b].dirty
  }

  predicate CanPut(s: State, p: Pid, b: nat) {
    b in s.cache && p in s.cache[b].waiters && s.cache[b].lock != Some(p) && s.cache[b].refcnt > 0
  }

  /** The log has room for n more entries. */
  predicate RoomFor(s: State, n: nat) { |s.lh| + n <= LOGBLOCKS }

  predicate CanBegin(s: State, p: Pid) {
    && p !in s.ops && s.phase.Running? && !s.committing
    && |s.lh| + (|s.ops| + 1) * MAXOPBLOCKS <= LOGBLOCKS
  }

  /** An operation ends after it has handed every block it changed to log_write. */
  predicate CanEnd(s: State, p: Pid) {
    && p in s.ops && s.phase.Running?
    && forall b :: b in s.cache && s.cache[b].dirty ==> s.cache[b].lock != Some(p)
  }

  /** The last outstanding operation starts a commit, which skips an empty transaction. */
  function DoEnd(s: State, p: Pid): State
    requires p in s.ops
  {
    var ops := s.ops - {p};
    if ops == map[] then
      s.(ops := ops, committing := true, phase := if s.lh == [] then Finishing else WritingLog(0))
    else s.(ops := ops)
  }

  predicate CanCopy(s: State, p: Pid) {
    && s.phase.WritingLog? && s.phase.k < |s.lh|
    && Slot(s, s.phase.k) < |s.disk|
    && Holds(s, p, Slot(s, s.phase.k)) && Holds(s, p, s.lh[s.phase.k])
  }

  function DoCopy(s: State): State
    requires exists p :: CanCopy(s, p)
  {
    var from := s.cache[s.lh[s.phase.k]].data;
    var to := Slot(s, s.phase.k);
    s.(disk := s.disk[to := from],
       cache := s.cache[to := s.cache[to].(data := from)],
       phase := WritingLog(s.phase.k + 1))
  }

  predicate HoldsHeader(s: State, p: Pid) {
    && |s.lh| < BLOCKWORDS && s.start < |s.disk|
    && Holds(s, p, s.start) && |s.cache[s.start].data| == BLOCKWORDS
  }

  function DoWriteHead(s: State, next: Phase): State
    requires exists p :: HoldsHeader(s, p)
  {
    var h := WithList(s.cache[s.start].data, s.lh);
    s.(disk := s.disk[s.start := h],
       cache := s.cache[s.start := s.cache[s.start].(data := h)],
       phase := next)
  }

  predicate CanInstall(s: State, p: Pid) {
    && s.phase.Installing? && s.phase.tail < |s.lh|
    && s.lh[s.phase.tail] < |s.disk|
    && Holds(s, p, Slot(s, s.phase.tail)) && Holds(s, p, s.lh[s.phase.tail])
    && (!s.phase.recovering ==> s.cache[s.lh[s.phase.tail]].refcnt > 0)
  }

  function DoInstall(s: State): State
    requires exists p :: CanInstall(s, p)
  {
    var dst := s.lh[s.phase.tail];
    var from := s.cache[Slot(s, s.phase.tail)].data;
    var e := s.cache[dst];
    s.(disk := s.disk[dst := from],
       cache := s.cache[dst := e.(data := from,
                                  refcnt := if s.phase.recovering then e.refcnt else e.refcnt - 1)],
       phase := Installing(s.phase.recovering, s.phase.tail + 1))
  }

  function DoPowerFail(s: State): State {
    s.(cache := map[], lh := [], ops := map[], committing := false, phase := Booting)
  }

  predicate Enabled(s: State, a: Step) {
    match a
    case Fetch(p, b, victim) => CanFetch(s, p, b, victim)
    case Lock(p, b) => CanLock(s, p, b)
    case Fill(p, b) => CanFill(s, p, b)
    case Modify(p, b, v) => CanModify(s, p, b, v)
    case LogWrite(p, b) => CanLogWrite(s, p, b)
    case Unlock(p, b) => CanUnlock(s, p, b)
    case Put(p, b) => CanPut(s, p, b)
    case BeginOp(p) => CanBegin(s, p)
    case EndOp(p) => CanEnd(s, p)
    case CopyToLog(p) => CanCopy(s, p)
    case WriteHead(p) => s.phase.WritingLog? && s.phase.k == |s.lh| && HoldsHeader(s, p)
    case InstallOne(p) => CanInstall(s, p)
    case ClearHead => s.phase.Installing? && s.phase.tail == |s.lh|
    case EraseHead(p) => s.phase.Erasing? && HoldsHeader(s, p)
    case EndCommit => s.phase.Finishing?
    case ReadHead(p) => s.phase.Booting? && Holds(s, p, s.start)
    case PowerFail => true
  }

  function Apply(s: State, a: Step): State
    requires Enabled(s, a)
  {
    match a
    case Fetch(p, b, victim) => DoFetch(s, p, b, victim)
    case Lock(p, b) => SetEntry(s, b, s.cache[b].(lock := Some(p)))
    case Fill(p, b) => SetEntry(s, b, s.cache[b].(valid := true, data := s.disk[b]))
    case Modify(p, b, v) => SetEntry(s, b, s.cache[b].(data := v, dirty := true))
    case LogWrite(p, b) => DoLogWrite(s, p, b)
    case Unlock(p, b) => SetEntry(s, b, s.cache[b].(lock := None))
    case Put(p, b) =>
      SetEntry(s, b, s.cache[b].(refcnt := s.cache[b].refcnt - 1, waiters := s.cache[b].waiters - {p}))
    case BeginOp(p) => s.(ops := s.ops[p := 0])
    case EndOp(p) => DoEnd(s, p)
    case CopyToLog(p) => DoCopy(s)
    case WriteHead(p) => DoWriteHead(s, Installing(false, 0))
    case InstallOne(p) => DoInstall(s)
    case ClearHead => s.(lh := [], phase := Erasing(s.phase.recovering))
    case EraseHead(p) => DoWriteHead(s, if s.phase.rec then Running else Finishing)
    case EndCommit => s.(committing := false, phase := Running)
    case ReadHead(p) => s.(lh := Listed(s.cache[s.start].data), phase := Installing(true, 0))
    case PowerFail => DoPowerFail(s)
  }

  // ----- the invariant -----

  /** A list of logged blocks: distinct home blocks, no more than the header has room for. */
  predicate HomeList(s: State, l: seq<nat>) {
    && Distinct(l)
    && |l| <= LOGBLOCKS
    && forall i :: 0 <= i < |l| ==> Home(s, l[i])
  }

  /** A list whose blocks all have a slot in the log area. */
  predicate GoodList(s: State, l: seq<nat>) {
    HomeList(s, l) && |l| < s.nlog
  }

  predicate Shape(s: State) {
    && LOGBLOCKS <= s.nlog && s.start + s.nlog <= |s.disk|
    && (forall b :: 0 <= b < |s.disk| ==> |s.disk[b]| == BLOCKWORDS)
    && (forall b :: b in s.cache ==>
          b < |s.disk| && (s.cache[b].valid ==> |s.cache[b].data| == BLOCKWORDS))
    && HomeList(s, s.lh) && GoodList(s, OnDisk(s)) && s.disk[s.start][0] < BLOCKWORDS
    && |s.cache| <= NBUF
  }

  /** The entries of the in-memory header that still hold a pin: all of them before install_trans
      reaches them, none during recovery. */
  function Unpinned(s: State): nat {
    if s.phase.Installing? then (if s.phase.recovering then |s.lh| else s.phase.tail) else 0
  }

  predicate Pinned(s: State, b: nat) {
    exists i :: Unpinned(s) <= i < |s.lh| && s.lh[i] == b
  }

  predicate CacheInv(s: State) {
    && (forall b :: b in s.cache ==>
          && s.cache[b].refcnt == |s.cache[b].waiters| + (if Pinned(s, b) then 1 else 0)
          && (s.cache[b].lock.Some? ==> s.cache[b].lock.value in s.cache[b].waiters)
          && (s.cache[b].dirty ==> s.cache[b].valid && Home(s, b)
                                   && s.cache[b].lock.Some? && s.cache[b].lock.value in s.ops))
    && (forall i :: Unpinned(s) <= i < |s.lh| ==> s.lh[i] in s.cache && s.cache[s.lh[i]].valid)
  }

  /** The write-ahead rule: a cached copy that is neither pinned by the log nor being changed under
      its sleep lock equals the block on disk. */
  predicate CleanInv(s: State) {
    forall b :: b in s.cache && s.cache[b].valid && !s.cache[b].dirty && !Pinned(s, b)
      ==> b < |s.disk| && s.cache[b].data == s.disk[b]
  }

  /** The slots from lo to hi hold what the cache holds for the blocks listed in lh. */
  predicate Staged(s: State, lo: nat, hi: nat) {
    forall i :: lo <= i < hi && i < |s.lh| && s.lh[i] in s.cache && Slot(s, i) < |s.disk|
      ==> s.disk[Slot(s, i)] == s.cache[s.lh[i]].data
  }

  /** The first k blocks of l equal their slots. */
  predicate Installed(s: State, l: seq<nat>, k: nat) {
    forall i :: 0 <= i < k && i < |l| && l[i] < |s.disk| && Slot(s, i) < |s.disk|
      ==> s.disk[l[i]] == s.disk[Slot(s, i)]
  }

  predicate PhaseInv(s: State)
    requires s.start < |s.disk|
  {
    && (!s.phase.Running? ==> s.ops == map[])
    && (s.committing <==> !s.phase.Running? && !Recovers(s))
    && match s.phase
       case Booting => s.lh == []
       case Running => OnDisk(s) == [] && (s.ops == map[] ==> s.lh == [])
       case WritingLog(k) =>
         && k <= |s.lh| && OnDisk(s) == [] && Staged(s, 0, k)
         && (k > 0 ==> |s.lh| < NBUF)
       case Installing(r, k) =>
         && k <= |s.lh| && OnDisk(s) == s.lh && Installed(s, s.lh, k)
         && (!r ==> Staged(s, k, |s.lh|))
       case Erasing(r) => s.lh == [] && Installed(s, OnDisk(s), |OnDisk(s)|)
       case Finishing => s.lh == [] && OnDisk(s) == []
  }

  // ----- admission -----

  /** The log entries the outstanding operations may still add. */
  ghost function Unspent(ops: map<Pid, nat>): nat {
    if ops == map[] then 0
    else
      var p :| p in ops;
      (if ops[p] < MAXOPBLOCKS then MAXOPBLOCKS - ops[p] else 0) + Unspent(ops - {p})
  }

  ghost predicate Admitted(s: State) {
    && (forall p :: p in s.ops ==> s.ops[p] <= MAXOPBLOCKS)
    && |s.lh| + Unspent(s.ops) <= LOGBLOCKS
  }

  ghost predicate Inv(s: State) {
    Shape(s) && CacheInv(s) && CleanInv(s) && PhaseInv(s) && Admitted(s)
  }

  /** Power-on of a disk whose header lists a complete transaction or none: nothing in memory. */
  predicate Init(s: State) {
    && LOGBLOCKS <= s.nlog && s.start + s.nlog <= |s.disk|
    && (forall b :: 0 <= b < |s.disk| ==> |s.disk[b]| == BLOCKWORDS)
    && GoodList(s, OnDisk(s)) && s.disk[s.start][0] < BLOCKWORDS
    && s.cache == map[] && s.lh == [] && s.ops == map[] && !s.committing && s.phase.Booting?
  }
}
