/** Every step of the log machine keeps the invariant, whatever the interleaving. */
module LogInvariant {
  import opened Sequences
  import opened AtomicStore
  import opened Options
  import opened LogMachine

  // ----- unspent credit -----

  ghost function Credit(used: nat): nat { if used < MAXOPBLOCKS then MAXOPBLOCKS - used else 0 }

  /** The sum may be taken apart at any operation. */
  lemma {:induction false} UnspentSplit(ops: map<Pid, nat>, p: Pid)
    requires p in ops
    ensures Unspent(ops) == Credit(ops[p]) + Unspent(ops - {p})
    decreases |ops|
  {
    var q :| q in ops && Unspent(ops) == Credit(ops[q]) + Unspent(ops - {q});
    if q != p {
      UnspentSplit(ops - {q}, p);
      UnspentSplit(ops - {p}, q);
      assert ops - {q} - {p} == ops - {p} - {q};
    }
  }

  lemma UnspentSet(ops: map<Pid, nat>, p: Pid, used: nat)
    ensures Unspent(ops[p := used]) == Credit(used) + Unspent(ops - {p})
  {
    UnspentSplit(ops[p := used], p);
    assert ops[p := used] - {p} == ops - {p};
  }

  lemma {:induction false} UnspentBound(ops: map<Pid, nat>)
    ensures Unspent(ops) <= |ops| * MAXOPBLOCKS
    decreases |ops|
  {
    if ops != map[] {
      var p :| p in ops;
      UnspentSplit(ops, p);
      UnspentBound(ops - {p});
      assert |ops - {p}| == |ops| - 1;
    }
  }

  lemma BeginKeepsAdmission(s: State, p: Pid)
    requires Admitted(s) && CanBegin(s, p)
    ensures Admitted(s.(ops := s.ops[p := 0]))
  {
    UnspentSet(s.ops, p, 0);
    assert s.ops - {p} == s.ops;
    UnspentBound(s.ops);
  }

  lemma LogWriteKeepsAdmission(s: State, p: Pid, b: nat)
    requires Admitted(s) && CanLogWrite(s, p, b)
    ensures Admitted(DoLogWrite(s, p, b))
  {
    if b !in s.lh {
      UnspentSplit(s.ops, p);
      UnspentSet(s.ops, p, s.ops[p] + 1);
    }
  }

  // ----- changing one cached entry -----

  /** What a new value of a cached entry has to satisfy for the invariant to survive. */
  predicate EntryFits(s: State, b: nat, e: Entry) {
    && b in s.cache && b < |s.disk|
    && (e.valid ==> |e.data| == BLOCKWORDS)
    && e.refcnt == |e.waiters| + (if Pinned(s, b) then 1 else 0)
    && (e.lock.Some? ==> e.lock.value in e.waiters)
    && (e.dirty ==> e.valid && Home(s, b) && e.lock.Some? && e.lock.value in s.ops)
    && (Pinned(s, b) ==> e.valid && (s.phase.Running? || e.data == s.cache[b].data))
    && (!Pinned(s, b) && e.valid && !e.dirty ==> e.data == s.disk[b])
  }

  lemma SamePins(s: State, s': State)
    requires s'.lh == s.lh && Unpinned(s') == Unpinned(s)
    ensures forall c :: Pinned(s', c) == Pinned(s, c)
  {
  }

  lemma EntryKeepsCache(s: State, b: nat, e: Entry)
    requires CacheInv(s) && CleanInv(s) && EntryFits(s, b, e)
    ensures CacheInv(SetEntry(s, b, e)) && CleanInv(SetEntry(s, b, e))
  {
    SamePins(s, SetEntry(s, b, e));
  }

  lemma EntryKeepsStaged(s: State, b: nat, e: Entry, lo: nat, hi: nat)
    requires EntryFits(s, b, e) && !s.phase.Running? && Unpinned(s) <= lo && Staged(s, lo, hi)
    ensures Staged(SetEntry(s, b, e), lo, hi)
  {
    var s' := SetEntry(s, b, e);
    forall i | lo <= i < hi && i < |s.lh| && s.lh[i] in s'.cache && Slot(s, i) < |s.disk|
      ensures s.disk[Slot(s, i)] == s'.cache[s.lh[i]].data
    {
      assert Pinned(s, s.lh[i]);
    }
  }

  lemma EntryKeepsPhase(s: State, b: nat, e: Entry)
    requires s.start < |s.disk| && PhaseInv(s) && EntryFits(s, b, e)
    ensures PhaseInv(SetEntry(s, b, e))
  {
    if s.phase.WritingLog? {
      EntryKeepsStaged(s, b, e, 0, s.phase.k);
    } else if s.phase.Installing? && !s.phase.recovering {
      EntryKeepsStaged(s, b, e, s.phase.tail, |s.lh|);
    }
  }

  lemma EntryKeeps(s: State, b: nat, e: Entry)
    requires Inv(s) && EntryFits(s, b, e)
    ensures Inv(SetEntry(s, b, e))
  {
    EntryKeepsCache(s, b, e);
    EntryKeepsPhase(s, b, e);
    assert SetEntry(s, b, e).cache.Keys == s.cache.Keys;
  }

  // ----- recycling a buffer -----

  /** Only a buffer that no process and no pin refers to is recycled. */
  lemma RecycledIsUnpinned(s: State, p: Pid, b: nat, victim: Option<nat>)
    requires CacheInv(s) && CanFetch(s, p, b, victim) && b !in s.cache
    ensures !Pinned(s, b)
    ensures victim.Some? ==> !Pinned(s, victim.value) && s.cache[victim.value].waiters == {}
  {
  }

  lemma RecycleKeepsCache(s: State, p: Pid, b: nat, victim: Option<nat>)
    requires CacheInv(s) && CleanInv(s) && CanFetch(s, p, b, victim) && b !in s.cache
    ensures CacheInv(DoFetch(s, p, b, victim)) && CleanInv(DoFetch(s, p, b, victim))
  {
    var s' := DoFetch(s, p, b, victim);
    SamePins(s, s');
    RecycledIsUnpinned(s, p, b, victim);
    forall i | Unpinned(s') <= i < |s'.lh| ensures s'.lh[i] in s'.cache && s'.cache[s'.lh[i]].valid {
      assert Pinned(s, s.lh[i]);
    }
  }

  lemma RecycleKeepsCount(s: State, p: Pid, b: nat, victim: Option<nat>)
    requires |s.cache| <= NBUF && CanFetch(s, p, b, victim) && b !in s.cache
    ensures |DoFetch(s, p, b, victim).cache| <= NBUF
  {
    var s' := DoFetch(s, p, b, victim);
    if victim.Some? {
      assert s'.cache.Keys == s.cache.Keys - {victim.value} + {b};
    } else {
      assert s'.cache.Keys == s.cache.Keys + {b};
    }
  }

  lemma RecycleKeepsShape(s: State, p: Pid, b: nat, victim: Option<nat>)
    requires Shape(s) && CanFetch(s, p, b, victim) && b !in s.cache
    ensures Shape(DoFetch(s, p, b, victim))
  {
    RecycleKeepsCount(s, p, b, victim);
  }

  lemma RecycleKeepsStaged(s: State, p: Pid, b: nat, victim: Option<nat>, lo: nat, hi: nat)
    requires CacheInv(s) && CanFetch(s, p, b, victim) && b !in s.cache
    requires Unpinned(s) <= lo && Staged(s, lo, hi)
    ensures Staged(DoFetch(s, p, b, victim), lo, hi)
  {
    var s' := DoFetch(s, p, b, victim);
    forall i | lo <= i < hi && i < |s.lh| && s.lh[i] in s'.cache && Slot(s, i) < |s.disk|
      ensures s.disk[Slot(s, i)] == s'.cache[s.lh[i]].data
    {
      assert Pinned(s, s.lh[i]);
    }
  }

  lemma RecycleKeepsPhase(s: State, p: Pid, b: nat, victim: Option<nat>)
    requires s.start < |s.disk| && CacheInv(s) && PhaseInv(s) && CanFetch(s, p, b, victim) && b !in s.cache
    ensures PhaseInv(DoFetch(s, p, b, victim))
  {
    if s.phase.WritingLog? {
      RecycleKeepsStaged(s, p, b, victim, 0, s.phase.k);
    } else if s.phase.Installing? && !s.phase.recovering {
      RecycleKeepsStaged(s, p, b, victim, s.phase.tail, |s.lh|);
    }
  }

  lemma FetchKeeps(s: State, p: Pid, b: nat, victim: Option<nat>)
    requires Inv(s) && CanFetch(s, p, b, victim)
    ensures Inv(DoFetch(s, p, b, victim))
  {
    if b in s.cache {
      EntryKeeps(s, b, s.cache[b].(refcnt := s.cache[b].refcnt + 1, waiters := s.cache[b].waiters + {p}));
    } else {
      RecycleKeepsShape(s, p, b, victim);
      RecycleKeepsCache(s, p, b, victim);
      RecycleKeepsPhase(s, p, b, victim);
    }
  }

  // ----- steps of an operation -----

  lemma LogWriteKeeps(s: State, p: Pid, b: nat)
    requires Inv(s) && CanLogWrite(s, p, b)
    ensures Inv(DoLogWrite(s, p, b))
  {
    LogWriteKeepsAdmission(s, p, b);
    if b in s.lh {
      assert s.lh[IndexOf(s.lh, b)] == b;
      EntryKeeps(s, b, s.cache[b].(dirty := false));
    } else {
      NewLogEntryKeeps(s, p, b);
      NewLogEntryKeepsCache(s, p, b);
    }
  }

  lemma NewLogEntryPins(s: State, p: Pid, b: nat)
    requires CanLogWrite(s, p, b) && b !in s.lh && s.phase.Running?
    ensures forall c :: Pinned(DoLogWrite(s, p, b), c) == (Pinned(s, c) || c == b)
    ensures !Pinned(s, b)
  {
    var s' := DoLogWrite(s, p, b);
    assert s'.lh[|s.lh|] == b;
    assert forall i :: 0 <= i < |s.lh| ==> s'.lh[i] == s.lh[i];
  }

  lemma NewLogEntryKeepsCache(s: State, p: Pid, b: nat)
    requires CacheInv(s) && CleanInv(s) && CanLogWrite(s, p, b) && b !in s.lh && s.phase.Running?
    ensures CacheInv(DoLogWrite(s, p, b)) && CleanInv(DoLogWrite(s, p, b))
  {
    NewLogEntryPins(s, p, b);
  }

  lemma NewLogEntryKeeps(s: State, p: Pid, b: nat)
    requires Shape(s) && PhaseInv(s) && CanLogWrite(s, p, b) && b !in s.lh
    ensures s.phase.Running? && Shape(DoLogWrite(s, p, b)) && PhaseInv(DoLogWrite(s, p, b))
  {
    var s' := DoLogWrite(s, p, b);
    assert s'.cache.Keys == s.cache.Keys;
  }

  lemma EndKeepsCache(s: State, p: Pid)
    requires CacheInv(s) && CleanInv(s) && CanEnd(s, p)
    ensures CacheInv(DoEnd(s, p)) && CleanInv(DoEnd(s, p))
  {
    SamePins(s, DoEnd(s, p));
  }

  lemma EndKeepsPhase(s: State, p: Pid)
    requires Shape(s) && PhaseInv(s) && CanEnd(s, p)
    ensures Shape(DoEnd(s, p)) && PhaseInv(DoEnd(s, p))
  {
    assert OnDisk(DoEnd(s, p)) == OnDisk(s);
  }

  lemma EndKeeps(s: State, p: Pid)
    requires Inv(s) && CanEnd(s, p)
    ensures Inv(DoEnd(s, p))
  {
    UnspentSplit(s.ops, p);
    EndKeepsCache(s, p);
    EndKeepsPhase(s, p);
  }

  // ----- steps of commit and recovery -----

  /** A block written to the cached copy and to the disk at once. */
  function WriteThrough(s: State, b: nat, v: Block, next: Phase): State
    requires b in s.cache && b < |s.disk|
  {
    s.(disk := s.disk[b := v], cache := s.cache[b := s.cache[b].(data := v)], phase := next)
  }

  lemma WriteThroughKeepsCache(s: State, b: nat, v: Block, next: Phase)
    requires CacheInv(s) && CleanInv(s) && b in s.cache && b < |s.disk|
    requires Unpinned(s.(phase := next)) == Unpinned(s)
    ensures CacheInv(WriteThrough(s, b, v, next)) && CleanInv(WriteThrough(s, b, v, next))
  {
    SamePins(s, WriteThrough(s, b, v, next));
  }

  lemma WriteThroughKeepsShape(s: State, b: nat, v: Block, next: Phase)
    requires Shape(s) && b in s.cache && b < |s.disk| && |v| == BLOCKWORDS
    requires b != s.start || (GoodList(s, Listed(v)) && v[0] < BLOCKWORDS)
    ensures Shape(WriteThrough(s, b, v, next))
    ensures b != s.start ==> OnDisk(WriteThrough(s, b, v, next)) == OnDisk(s)
  {
    var s' := WriteThrough(s, b, v, next);
    assert s'.cache.Keys == s.cache.Keys;
    assert OnDisk(s') == if b == s.start then Listed(v) else OnDisk(s);
  }

  lemma SlotIsReserved(s: State, k: nat)
    requires Shape(s) && k + 1 < s.nlog
    ensures !Home(s, Slot(s, k)) && Slot(s, k) < |s.disk|
    ensures forall i :: 0 <= i < |s.lh| ==> s.lh[i] != Slot(s, k) && s.lh[i] != s.start
    ensures !Pinned(s, Slot(s, k))
  {
  }

  // The blocks whose buffers the log pins.
  function PinnedSet(s: State, k: nat): set<nat> {
    set i | k <= i < |s.lh| :: s.lh[i]
  }

  lemma {:induction false} PinnedCount(s: State, k: nat)
    requires Distinct(s.lh) && k <= |s.lh|
    ensures |PinnedSet(s, k)| == |s.lh| - k
    decreases |s.lh| - k
  {
    if k < |s.lh| {
      PinnedCount(s, k + 1);
      assert PinnedSet(s, k) == {s.lh[k]} + PinnedSet(s, k + 1);
    } else {
      assert PinnedSet(s, k) == {};
    }
  }

  lemma SubsetCount(a: set<nat>, b: set<nat>)
    requires a <= b
    ensures |a| <= |b| && (|a| == |b| ==> a == b)
  {
    assert b == a + (b - a);
  }

  /** A transaction as large as the cache pins every buffer. */
  lemma FullCacheIsPinned(s: State)
    requires Distinct(s.lh) && CacheInv(s) && |s.cache| <= NBUF && Unpinned(s) == 0 && |s.lh| == NBUF
    ensures forall c :: c in s.cache ==> c in s.lh && s.cache[c].refcnt > 0
  {
    PinnedCount(s, 0);
    SubsetCount(PinnedSet(s, 0), s.cache.Keys);
    forall c | c in s.cache ensures c in s.lh && s.cache[c].refcnt > 0 {
      assert c in PinnedSet(s, 0);
      assert Pinned(s, c);
    }
  }

  /** So no slot of it is ever written: bget finds no buffer for the first slot. */
  lemma CopyNeedsBuffer(s: State, p: Pid)
    requires Shape(s) && CacheInv(s) && PhaseInv(s) && CanCopy(s, p)
    ensures |s.lh| < NBUF
  {
    SlotIsReserved(s, 0);
    if |s.lh| >= NBUF {
      FullCacheIsPinned(s);
    }
  }

  lemma CopyKeepsPhase(s: State, p: Pid)
    requires Shape(s) && PhaseInv(s) && CanCopy(s, p) && |s.lh| < NBUF
    requires OnDisk(DoCopy(s)) == OnDisk(s)
    ensures PhaseInv(DoCopy(s))
  {
    SlotIsReserved(s, s.phase.k);
  }

  lemma CopyKeeps(s: State, p: Pid)
    requires Inv(s) && CanCopy(s, p)
    ensures Inv(DoCopy(s))
  {
    var from, to, next := s.cache[s.lh[s.phase.k]].data, Slot(s, s.phase.k), WritingLog(s.phase.k + 1);
    CopyNeedsBuffer(s, p);
    WriteThroughKeepsShape(s, to, from, next);
    WriteThroughKeepsCache(s, to, from, next);
    CopyKeepsPhase(s, p);
  }

  lemma HeaderKeepsStaged(s: State, h: Block, next: Phase)
    requires Shape(s) && s.start in s.cache && Staged(s, 0, |s.lh|)
    ensures Staged(WriteThrough(s, s.start, h, next), 0, |s.lh|)
  {
    assert !Home(s, s.start);
  }

  lemma WriteHeadKeeps(s: State, p: Pid)
    requires Inv(s) && s.phase.WritingLog? && s.phase.k == |s.lh| && HoldsHeader(s, p)
    ensures Inv(DoWriteHead(s, Installing(false, 0)))
  {
    var h, next := WithList(s.cache[s.start].data, s.lh), Installing(false, 0);
    WriteThroughKeepsShape(s, s.start, h, next);
    WriteThroughKeepsCache(s, s.start, h, next);
    HeaderKeepsStaged(s, h, next);
  }

  lemma InstallPins(s: State, p: Pid)
    requires Distinct(s.lh) && CanInstall(s, p)
    ensures forall c :: Pinned(DoInstall(s), c) == (Pinned(s, c) && c != s.lh[s.phase.tail])
    ensures Pinned(s, s.lh[s.phase.tail]) == !s.phase.recovering
  {
    var s' := DoInstall(s);
    if s.phase.recovering {
      assert forall c :: !Pinned(s', c) && !Pinned(s, c);
    } else {
      assert s.lh[s.phase.tail] == s.lh[s.phase.tail];
    }
  }

  lemma InstallKeepsCache(s: State, p: Pid)
    requires Shape(s) && CacheInv(s) && CleanInv(s) && CanInstall(s, p)
    ensures CacheInv(DoInstall(s)) && CleanInv(DoInstall(s))
  {
    InstallPins(s, p);
  }

  lemma InstallKeepsShape(s: State, p: Pid)
    requires Shape(s) && CanInstall(s, p)
    ensures Shape(DoInstall(s)) && OnDisk(DoInstall(s)) == OnDisk(s)
  {
    var dst, from := s.lh[s.phase.tail], s.cache[Slot(s, s.phase.tail)].data;
    assert Home(s, dst);
    WriteThroughKeepsShape(s, dst, from, s.phase);
    assert DoInstall(s).cache.Keys == s.cache.Keys;
  }

  lemma InstallKeepsSlots(s: State, p: Pid)
    requires Shape(s) && CanInstall(s, p) && |s.lh| < s.nlog
    ensures forall i :: 0 <= i < |s.lh| ==> DoInstall(s).disk[Slot(s, i)] == s.disk[Slot(s, i)]
  {
    forall i | 0 <= i < |s.lh| ensures DoInstall(s).disk[Slot(s, i)] == s.disk[Slot(s, i)] {
      SlotIsReserved(s, i);
    }
  }

  lemma InstallKeepsStaged(s: State, p: Pid)
    requires Shape(s) && CanInstall(s, p) && |s.lh| < s.nlog && Staged(s, s.phase.tail, |s.lh|)
    ensures Staged(DoInstall(s), s.phase.tail + 1, |s.lh|)
  {
    InstallKeepsSlots(s, p);
    var s' := DoInstall(s);
    forall i | s.phase.tail + 1 <= i < |s.lh| && s.lh[i] in s'.cache && Slot(s, i) < |s.disk|
      ensures s'.disk[Slot(s, i)] == s'.cache[s.lh[i]].data
    {
      assert s.lh[i] != s.lh[s.phase.tail];
    }
  }

  lemma InstallExtends(s: State, p: Pid)
    requires Shape(s) && CanInstall(s, p) && |s.lh| < s.nlog && Installed(s, s.lh, s.phase.tail)
    requires s.cache[Slot(s, s.phase.tail)].data == s.disk[Slot(s, s.phase.tail)]
    ensures Installed(DoInstall(s), s.lh, s.phase.tail + 1)
  {
    InstallKeepsSlots(s, p);
    SlotIsReserved(s, s.phase.tail);
    var s' := DoInstall(s);
    forall i | 0 <= i < s.phase.tail + 1 && i < |s.lh| && s.lh[i] < |s.disk| && Slot(s, i) < |s.disk|
      ensures s'.disk[s.lh[i]] == s'.disk[Slot(s, i)]
    {
      assert i < s.phase.tail ==> s.lh[i] != s.lh[s.phase.tail];
    }
  }

  lemma InstallKeepsPhase(s: State, p: Pid)
    requires Shape(s) && CleanInv(s) && PhaseInv(s) && CanInstall(s, p)
    requires OnDisk(DoInstall(s)) == OnDisk(s)
    requires !s.cache[Slot(s, s.phase.tail)].dirty
    ensures PhaseInv(DoInstall(s))
  {
    SlotIsReserved(s, s.phase.tail);
    assert s.cache[Slot(s, s.phase.tail)].data == s.disk[Slot(s, s.phase.tail)];
    InstallExtends(s, p);
    if !s.phase.recovering {
      InstallKeepsStaged(s, p);
    }
  }

  lemma InstallKeeps(s: State, p: Pid)
    requires Inv(s) && CanInstall(s, p)
    ensures Inv(DoInstall(s))
  {
    SlotIsReserved(s, s.phase.tail);
    InstallKeepsShape(s, p);
    InstallKeepsCache(s, p);
    InstallKeepsPhase(s, p);
  }

  lemma ClearKeepsCache(s: State)
    requires CacheInv(s) && CleanInv(s) && s.phase.Installing? && s.phase.tail == |s.lh|
    ensures var s' := s.(lh := [], phase := Erasing(s.phase.recovering));
            CacheInv(s') && CleanInv(s')
  {
    var s' := s.(lh := [], phase := Erasing(s.phase.recovering));
    assert forall c :: !Pinned(s', c) && !Pinned(s, c);
  }

  lemma ClearKeepsPhase(s: State)
    requires Shape(s) && PhaseInv(s) && s.phase.Installing? && s.phase.tail == |s.lh|
    ensures var s' := s.(lh := [], phase := Erasing(s.phase.recovering));
            Shape(s') && PhaseInv(s')
  {
    var s' := s.(lh := [], phase := Erasing(s.phase.recovering));
    assert OnDisk(s') == OnDisk(s);
  }

  lemma ClearKeeps(s: State)
    requires Inv(s) && s.phase.Installing? && s.phase.tail == |s.lh|
    ensures Inv(s.(lh := [], phase := Erasing(s.phase.recovering)))
  {
    ClearKeepsCache(s);
    ClearKeepsPhase(s);
  }

  lemma EraseKeeps(s: State, p: Pid)
    requires Inv(s) && s.phase.Erasing? && HoldsHeader(s, p)
    ensures Inv(DoWriteHead(s, if s.phase.rec then Running else Finishing))
  {
    var h, next := WithList(s.cache[s.start].data, s.lh), if s.phase.rec then Running else Finishing;
    WriteThroughKeepsShape(s, s.start, h, next);
    WriteThroughKeepsCache(s, s.start, h, next);
  }

  lemma ReadHeadKeeps(s: State, p: Pid)
    requires Inv(s) && s.phase.Booting? && Holds(s, p, s.start)
    ensures Inv(s.(lh := Listed(s.cache[s.start].data), phase := Installing(true, 0)))
  {
    var s' := s.(lh := Listed(s.cache[s.start].data), phase := Installing(true, 0));
    assert forall c :: !Pinned(s', c) && !Pinned(s, c);
    assert !Home(s, s.start);
  }

  // ----- all steps -----

  /** The steps that change one cached entry in place. */
  lemma EntryStepKeeps(s: State, a: Step)
    requires Inv(s) && Enabled(s, a)
    requires a.Lock? || a.Fill? || a.Modify? || a.Unlock? || a.Put?
    ensures Inv(Apply(s, a))
  {
    EntryStepFits(s, a);
    EntryKeeps(s, a.b, Apply(s, a).cache[a.b]);
    assert Apply(s, a) == SetEntry(s, a.b, Apply(s, a).cache[a.b]);
  }

  lemma EntryStepFits(s: State, a: Step)
    requires Shape(s) && CacheInv(s) && CleanInv(s) && PhaseInv(s) && Enabled(s, a)
    requires a.Lock? || a.Fill? || a.Modify? || a.Unlock? || a.Put?
    ensures a.b in Apply(s, a).cache && EntryFits(s, a.b, Apply(s, a).cache[a.b])
  {
  }

  lemma CommitStepKeeps(s: State, a: Step)
    requires Inv(s) && Enabled(s, a)
    requires a.CopyToLog? || a.WriteHead? || a.InstallOne? || a.EraseHead?
    ensures Inv(Apply(s, a))
  {
    match a
    case CopyToLog(p) => CopyKeeps(s, p);
    case WriteHead(p) => WriteHeadKeeps(s, p);
    case InstallOne(p) => InstallKeeps(s, p);
    case EraseHead(p) => EraseKeeps(s, p);
  }

  lemma BeginKeeps(s: State, p: Pid)
    requires Inv(s) && CanBegin(s, p)
    ensures Inv(s.(ops := s.ops[p := 0]))
  {
    BeginKeepsAdmission(s, p);
    SamePins(s, s.(ops := s.ops[p := 0]));
  }

  lemma EndCommitKeeps(s: State)
    requires Inv(s) && s.phase.Finishing?
    ensures Inv(s.(committing := false, phase := Running))
  {
    SamePins(s, s.(committing := false, phase := Running));
  }

  lemma PowerFailKeeps(s: State)
    requires Inv(s)
    ensures Inv(DoPowerFail(s))
  {
  }

  lemma OperationStepKeeps(s: State, a: Step)
    requires Inv(s) && Enabled(s, a)
    requires a.Fetch? || a.LogWrite? || a.BeginOp? || a.EndOp?
    ensures Inv(Apply(s, a))
  {
    match a
    case Fetch(p, b, victim) => FetchKeeps(s, p, b, victim);
    case LogWrite(p, b) => LogWriteKeeps(s, p, b);
    case BeginOp(p) => BeginKeeps(s, p);
    case EndOp(p) => EndKeeps(s, p);
  }

  lemma PhaseStepKeeps(s: State, a: Step)
    requires Inv(s) && Enabled(s, a)
    requires a.ClearHead? || a.EndCommit? || a.ReadHead? || a.PowerFail?
    ensures Inv(Apply(s, a))
  {
    match a
    case ClearHead => ClearKeeps(s);
    case EndCommit => EndCommitKeeps(s);
    case ReadHead(p) => ReadHeadKeeps(s, p);
    case PowerFail => PowerFailKeeps(s);
  }

  /** The invariant is inductive. */
  lemma StepKeepsInv(s: State, a: Step)
    requires Inv(s) && Enabled(s, a)
    ensures Inv(Apply(s, a))
  {
    if a.Lock? || a.Fill? || a.Modify? || a.Unlock? || a.Put? {
      EntryStepKeeps(s, a);
    } else if a.Fetch? || a.LogWrite? || a.BeginOp? || a.EndOp? {
      OperationStepKeeps(s, a);
    } else if a.CopyToLog? || a.WriteHead? || a.InstallOne? || a.EraseHead? {
      CommitStepKeeps(s, a);
    } else {
      PhaseStepKeeps(s, a);
    }
  }

  lemma InitHolds(s: State)
    requires Init(s)
    ensures Inv(s)
  {
  }
}
