/**
 The log machine refines the atomic store: recovery of the disk gives the durable blocks, the cache
 over it gives the current blocks, and every step of every interleaving is one move of the store.
 */
module LogRefinement {
  import opened AtomicStore
  import opened Options
  import opened LogMachine
  import opened LogInvariant

  /** What recovery makes of home block b: its slot if the header on disk lists it. */
  function DurableAt(s: State, b: nat): Block
    requires Shape(s) && Home(s, b)
  {
    if b in OnDisk(s) then s.disk[Slot(s, IndexOf(OnDisk(s), b))] else s.disk[b]
  }

  /** What a reader of home block b sees. */
  function CurrentAt(s: State, b: nat): Block
    requires Shape(s) && Home(s, b)
  {
    if !Recovers(s) && b in s.cache && s.cache[b].valid then s.cache[b].data else DurableAt(s, b)
  }

  function Durable(s: State): (d: seq<Block>)
    requires Shape(s)
    ensures |d| == |s.disk|
    ensures forall b :: 0 <= b < |d| ==> d[b] == if Home(s, b) then DurableAt(s, b) else []
  {
    seq(|s.disk|, b requires 0 <= b < |s.disk| => if Home(s, b) then DurableAt(s, b) else [])
  }

  function Current(s: State): (d: seq<Block>)
    requires Shape(s)
    ensures |d| == |s.disk|
    ensures forall b :: 0 <= b < |d| ==> d[b] == if Home(s, b) then CurrentAt(s, b) else []
  {
    seq(|s.disk|, b requires 0 <= b < |s.disk| => if Home(s, b) then CurrentAt(s, b) else [])
  }

  function Abstract(s: State): Store
    requires Shape(s)
  {
    Store(Durable(s), Current(s), s.ops.Keys)
  }

  /** The move of the store that a step stands for. */
  function EventOf(a: Step): Event {
    if a.Modify? then Write(a.p, a.b, a.v)
    else if a.BeginOp? then Begin(a.p)
    else if a.EndOp? then End(a.p)
    else if a.WriteHead? then GroupCommit
    else if a.PowerFail? then Crash
    else Silent
  }

  // ----- small facts -----

  /** Between operations, without a log, the cache agrees with the disk. */
  lemma QuietCache(s: State, b: nat)
    requires Inv(s) && s.ops == map[] && s.lh == [] && b in s.cache && s.cache[b].valid
    ensures s.cache[b].data == s.disk[b]
  {
    assert !Pinned(s, b);
  }

  lemma InstalledIsDurable(s: State, b: nat)
    requires Shape(s) && Home(s, b) && Installed(s, OnDisk(s), |OnDisk(s)|)
    ensures DurableAt(s, b) == s.disk[b]
  {
    if b in OnDisk(s) {
      var i := IndexOf(OnDisk(s), b);
      assert Slot(s, i) < |s.disk|;
    }
  }

  /** A step that leaves the disk alone leaves the durable blocks alone. */
  lemma SameDisk(s: State, s': State)
    requires Shape(s) && Shape(s') && s'.disk == s.disk && s'.start == s.start && s'.nlog == s.nlog
    ensures Durable(s') == Durable(s)
  {
    forall b | 0 <= b < |s.disk| ensures Durable(s')[b] == Durable(s)[b] {
      assert Home(s', b) == Home(s, b);
    }
  }

  /** The current blocks agree where the cache and the durable blocks do. */
  lemma SameCurrent(s: State, s': State)
    requires Shape(s) && Shape(s') && |s'.disk| == |s.disk| && s'.start == s.start && s'.nlog == s.nlog
    requires forall b :: 0 <= b < |s.disk| && Home(s, b) ==> CurrentAt(s', b) == CurrentAt(s, b)
    ensures Current(s') == Current(s)
  {
    forall b | 0 <= b < |s.disk| ensures Current(s')[b] == Current(s)[b] {
      assert Home(s', b) == Home(s, b);
    }
  }

  // ----- steps that do not write the disk -----

  lemma EntryRefines(s: State, b: nat, e: Entry)
    requires Inv(s) && EntryFits(s, b, e) && Shape(SetEntry(s, b, e))
    requires if s.cache[b].valid then e.valid && e.data == s.cache[b].data
             else e.valid ==> e.data == s.disk[b]
    ensures Abstract(SetEntry(s, b, e)) == Abstract(s)
  {
    var s' := SetEntry(s, b, e);
    SameDisk(s, s');
    forall c | 0 <= c < |s.disk| && Home(s, c) ensures CurrentAt(s', c) == CurrentAt(s, c) {
      assert DurableAt(s', c) == DurableAt(s, c);
      if c == b && !s.cache[b].valid && e.valid && !Recovers(s) {
        UnpinnedIsDurable(s, b);
      }
    }
    SameCurrent(s, s');
  }

  /** Outside recovery, the disk holds the durable value of every block that is not pinned. */
  lemma UnpinnedIsDurable(s: State, b: nat)
    requires Inv(s) && Home(s, b) && !Recovers(s) && !Pinned(s, b)
    ensures DurableAt(s, b) == s.disk[b]
  {
    if b in OnDisk(s) {
      var i := IndexOf(OnDisk(s), b);
      assert Slot(s, i) < |s.disk|;
      assert s.phase.Installing? ==> i < s.phase.tail;
    }
  }

  lemma VictimIsDurable(s: State, b: nat)
    requires Inv(s) && Home(s, b) && !Recovers(s) && !Pinned(s, b)
    requires b in s.cache && s.cache[b].valid && s.cache[b].waiters == {}
    ensures s.cache[b].data == DurableAt(s, b)
  {
    UnpinnedIsDurable(s, b);
    assert !s.cache[b].dirty;
  }

  lemma SameDurableAt(s: State, s': State, b: nat)
    requires Shape(s) && Shape(s') && Home(s, b) && s'.disk == s.disk && s'.start == s.start && s'.nlog == s.nlog
    ensures DurableAt(s', b) == DurableAt(s, b)
  {
  }

  lemma OtherStays(s: State, s': State, b: nat, c: nat)
    requires Shape(s) && Shape(s') && Home(s, c) && s'.disk == s.disk && s'.start == s.start && s'.nlog == s.nlog
    requires s'.phase == s.phase && (c == b || c in s'.cache <==> c == b || c in s.cache)
    requires if c == b then b !in s.cache && b in s'.cache && !s'.cache[b].valid
             else c in s.cache ==> s'.cache[c] == s.cache[c]
    ensures CurrentAt(s', c) == CurrentAt(s, c)
  {
    SameDurableAt(s, s', c);
  }

  lemma RecycleAt(s: State, p: Pid, b: nat, victim: Option<nat>, c: nat)
    requires Inv(s) && CanFetch(s, p, b, victim) && b !in s.cache && Shape(DoFetch(s, p, b, victim))
    requires Home(s, c)
    ensures CurrentAt(DoFetch(s, p, b, victim), c) == CurrentAt(s, c)
  {
    var s' := DoFetch(s, p, b, victim);
    if victim == Some(c) {
      SameDurableAt(s, s', c);
      if !Recovers(s) && s.cache[c].valid {
        RecycledIsUnpinned(s, p, b, victim);
        VictimIsDurable(s, c);
      }
    } else {
      OtherStays(s, s', b, c);
    }
  }

  lemma RecycleRefines(s: State, p: Pid, b: nat, victim: Option<nat>)
    requires Inv(s) && CanFetch(s, p, b, victim) && b !in s.cache && Shape(DoFetch(s, p, b, victim))
    ensures Abstract(DoFetch(s, p, b, victim)) == Abstract(s)
  {
    var s' := DoFetch(s, p, b, victim);
    SameDisk(s, s');
    forall c | 0 <= c < |s.disk| && Home(s, c) ensures CurrentAt(s', c) == CurrentAt(s, c) {
      RecycleAt(s, p, b, victim, c);
    }
    SameCurrent(s, s');
  }

  lemma ModifyRefines(s: State, p: Pid, b: nat, v: Block)
    requires Inv(s) && CanModify(s, p, b, v)
    requires Shape(SetEntry(s, b, s.cache[b].(data := v, dirty := true)))
    ensures var s' := SetEntry(s, b, s.cache[b].(data := v, dirty := true));
            Abstract(s') == Abstract(s).(current := Current(s)[b := v])
  {
    var s' := SetEntry(s, b, s.cache[b].(data := v, dirty := true));
    SameDisk(s, s');
    forall c | 0 <= c < |s.disk| ensures Current(s')[c] == Current(s)[b := v][c] {
      assert Home(s', c) == Home(s, c);
      if Home(s, c) {
        assert DurableAt(s', c) == DurableAt(s, c);
      }
    }
  }

  /** Steps that change neither the disk, nor any cached data, nor whether recovery is going on. */
  lemma BookkeepingRefines(s: State, s': State)
    requires Shape(s) && Shape(s')
    requires s'.disk == s.disk && s'.start == s.start && s'.nlog == s.nlog && Recovers(s') == Recovers(s)
    requires s'.cache.Keys == s.cache.Keys
    requires forall b :: b in s.cache ==> s'.cache[b].valid == s.cache[b].valid && s'.cache[b].data == s.cache[b].data
    ensures Durable(s') == Durable(s) && Current(s') == Current(s)
  {
    SameDisk(s, s');
    forall c | 0 <= c < |s.disk| && Home(s, c) ensures CurrentAt(s', c) == CurrentAt(s, c) {
      assert DurableAt(s', c) == DurableAt(s, c);
    }
    SameCurrent(s, s');
  }

  lemma CrashRefines(s: State)
    requires Inv(s) && Shape(DoPowerFail(s))
    ensures var t := Abstract(s);
            Abstract(DoPowerFail(s)) == t.(current := t.durable, open := {})
  {
    var s' := DoPowerFail(s);
    SameDisk(s, s');
    forall c | 0 <= c < |s.disk| ensures Current(s')[c] == Durable(s)[c] {
      assert Home(s', c) == Home(s, c);
      if Home(s, c) {
        assert DurableAt(s', c) == DurableAt(s, c);
      }
    }
  }

  // ----- steps that write the disk -----

  lemma CopyRefines(s: State, p: Pid)
    requires Inv(s) && CanCopy(s, p) && Inv(DoCopy(s))
    ensures Abstract(DoCopy(s)) == Abstract(s)
  {
    var s' := DoCopy(s);
    CopyNeedsBuffer(s, p);
    SlotIsReserved(s, s.phase.k);
    forall c | 0 <= c < |s.disk| && Home(s, c)
      ensures Home(s', c) && DurableAt(s', c) == DurableAt(s, c) && CurrentAt(s', c) == CurrentAt(s, c)
    {
    }
    SameAbstract(s, s');
  }

  lemma SameAbstract(s: State, s': State)
    requires Shape(s) && Shape(s') && |s'.disk| == |s.disk| && s'.ops == s.ops
    requires s'.start == s.start && s'.nlog == s.nlog
    requires forall c :: 0 <= c < |s.disk| && Home(s, c) ==>
               Home(s', c) && DurableAt(s', c) == DurableAt(s, c) && CurrentAt(s', c) == CurrentAt(s, c)
    ensures Abstract(s') == Abstract(s)
  {
    forall c | 0 <= c < |s.disk|
      ensures Durable(s')[c] == Durable(s)[c] && Current(s')[c] == Current(s)[c]
    {
      assert Home(s', c) == Home(s, c);
    }
  }

  /** The commit point: one block write makes every current block durable. */
  lemma WriteHeadCommitsAt(s: State, p: Pid, b: nat)
    requires Inv(s) && s.phase.WritingLog? && s.phase.k == |s.lh| && HoldsHeader(s, p)
    requires Inv(DoWriteHead(s, Installing(false, 0))) && Home(s, b)
    ensures var s' := DoWriteHead(s, Installing(false, 0));
            && Home(s', b)
            && DurableAt(s', b) == CurrentAt(s, b) && CurrentAt(s', b) == CurrentAt(s, b)
  {
    var s' := DoWriteHead(s, Installing(false, 0));
    assert OnDisk(s') == s.lh && b != s.start;
    if b in s.lh {
      var i := IndexOf(s.lh, b);
      assert Pinned(s, s.lh[i]);
      assert s'.disk[Slot(s, i)] == s.disk[Slot(s, i)] == s.cache[b].data;
    } else {
      assert !Pinned(s, b);
    }
  }

  lemma WriteHeadRefines(s: State, p: Pid)
    requires Inv(s) && s.phase.WritingLog? && s.phase.k == |s.lh| && HoldsHeader(s, p)
    requires Inv(DoWriteHead(s, Installing(false, 0)))
    ensures var t := Abstract(s);
            t.open == {} && Abstract(DoWriteHead(s, Installing(false, 0))) == t.(durable := t.current)
  {
    var s' := DoWriteHead(s, Installing(false, 0));
    forall c | 0 <= c < |s.disk|
      ensures Durable(s')[c] == Current(s)[c] && Current(s')[c] == Current(s)[c]
    {
      if Home(s, c) {
        WriteHeadCommitsAt(s, p, c);
      }
    }
  }

  lemma InstallKeepsDurable(s: State, p: Pid, b: nat)
    requires Shape(s) && CanInstall(s, p) && Shape(DoInstall(s)) && Home(s, b) && Home(DoInstall(s), b)
    requires OnDisk(s) == s.lh && OnDisk(DoInstall(s)) == OnDisk(s)
    ensures DurableAt(DoInstall(s), b) == DurableAt(s, b)
  {
    InstallKeepsSlots(s, p);
    if b in s.lh {
      assert IndexOf(OnDisk(s), b) < |s.lh|;
    }
  }

  lemma InstallKeepsData(s: State, p: Pid)
    requires Inv(s) && CanInstall(s, p) && !s.phase.recovering
    ensures s.cache[Slot(s, s.phase.tail)].data == s.cache[s.lh[s.phase.tail]].data
  {
    SlotIsReserved(s, s.phase.tail);
  }

  lemma InstallAt(s: State, p: Pid, b: nat)
    requires Inv(s) && CanInstall(s, p) && Inv(DoInstall(s)) && Home(s, b)
    ensures var s' := DoInstall(s);
            Home(s', b) && DurableAt(s', b) == DurableAt(s, b) && CurrentAt(s', b) == CurrentAt(s, b)
  {
    InstallKeepsShape(s, p);
    InstallKeepsDurable(s, p, b);
    if !s.phase.recovering {
      InstallKeepsData(s, p);
    }
  }

  lemma InstallRefines(s: State, p: Pid)
    requires Inv(s) && CanInstall(s, p) && Inv(DoInstall(s))
    ensures Abstract(DoInstall(s)) == Abstract(s)
  {
    forall c | 0 <= c < |s.disk| && Home(s, c)
      ensures var s' := DoInstall(s);
              Home(s', c) && DurableAt(s', c) == DurableAt(s, c) && CurrentAt(s', c) == CurrentAt(s, c)
    {
      InstallAt(s, p, c);
    }
    SameAbstract(s, DoInstall(s));
  }

  lemma EraseAt(s: State, p: Pid, b: nat)
    requires Inv(s) && s.phase.Erasing? && HoldsHeader(s, p) && Home(s, b)
    requires Inv(DoWriteHead(s, if s.phase.rec then Running else Finishing))
    ensures var s' := DoWriteHead(s, if s.phase.rec then Running else Finishing);
            Home(s', b) && DurableAt(s', b) == DurableAt(s, b) && CurrentAt(s', b) == CurrentAt(s, b)
  {
    InstalledIsDurable(s, b);
    if b in s.cache && s.cache[b].valid {
      QuietCache(s, b);
    }
  }

  lemma EraseRefines(s: State, p: Pid)
    requires Inv(s) && s.phase.Erasing? && HoldsHeader(s, p)
    requires Inv(DoWriteHead(s, if s.phase.rec then Running else Finishing))
    ensures Abstract(DoWriteHead(s, if s.phase.rec then Running else Finishing)) == Abstract(s)
  {
    var s' := DoWriteHead(s, if s.phase.rec then Running else Finishing);
    forall c | 0 <= c < |s.disk| && Home(s, c)
      ensures Home(s', c) && DurableAt(s', c) == DurableAt(s, c) && CurrentAt(s', c) == CurrentAt(s, c)
    {
      EraseAt(s, p, c);
    }
    SameAbstract(s, s');
  }

  // ----- the refinement -----

  lemma EntryStepRefines(s: State, a: Step)
    requires Inv(s) && Enabled(s, a) && Inv(Apply(s, a))
    requires a.Lock? || a.Fill? || a.Unlock? || a.Put?
    ensures Abstract(Apply(s, a)) == Abstract(s)
  {
    EntryStepFits(s, a);
    EntryRefines(s, a.b, Apply(s, a).cache[a.b]);
    assert Apply(s, a) == SetEntry(s, a.b, Apply(s, a).cache[a.b]);
  }

  lemma FetchRefines(s: State, p: Pid, b: nat, victim: Option<nat>)
    requires Inv(s) && CanFetch(s, p, b, victim) && Inv(DoFetch(s, p, b, victim))
    ensures Abstract(DoFetch(s, p, b, victim)) == Abstract(s)
  {
    if b in s.cache {
      BookkeepingRefines(s, DoFetch(s, p, b, victim));
    } else {
      RecycleRefines(s, p, b, victim);
    }
  }

  lemma LogWriteRefines(s: State, p: Pid, b: nat)
    requires Inv(s) && CanLogWrite(s, p, b) && Inv(DoLogWrite(s, p, b))
    ensures Abstract(DoLogWrite(s, p, b)) == Abstract(s)
  {
    BookkeepingRefines(s, DoLogWrite(s, p, b));
    assert DoLogWrite(s, p, b).ops.Keys == s.ops.Keys;
  }

  lemma BeginRefines(s: State, p: Pid)
    requires Inv(s) && CanBegin(s, p) && Inv(s.(ops := s.ops[p := 0]))
    ensures Abstract(s.(ops := s.ops[p := 0])) == Abstract(s).(open := Abstract(s).open + {p})
  {
    BookkeepingRefines(s, s.(ops := s.ops[p := 0]));
    assert s.(ops := s.ops[p := 0]).ops.Keys == s.ops.Keys + {p};
  }

  lemma EndRefines(s: State, p: Pid)
    requires Inv(s) && CanEnd(s, p) && Inv(DoEnd(s, p))
    ensures Abstract(DoEnd(s, p)) == Abstract(s).(open := Abstract(s).open - {p})
  {
    BookkeepingRefines(s, DoEnd(s, p));
    assert DoEnd(s, p).ops.Keys == s.ops.Keys - {p};
  }

  lemma QuietStepRefines(s: State, a: Step)
    requires Inv(s) && Enabled(s, a) && Inv(Apply(s, a))
    requires a.ClearHead? || a.EndCommit? || a.ReadHead?
    ensures Abstract(Apply(s, a)) == Abstract(s)
  {
    BookkeepingRefines(s, Apply(s, a));
  }

  lemma DiskStepRefines(s: State, a: Step)
    requires Inv(s) && Enabled(s, a) && Inv(Apply(s, a))
    requires a.CopyToLog? || a.InstallOne? || a.EraseHead?
    ensures Abstract(Apply(s, a)) == Abstract(s)
  {
    if a.CopyToLog? {
      CopyRefines(s, a.p);
    } else if a.InstallOne? {
      InstallRefines(s, a.p);
    } else {
      EraseRefines(s, a.p);
    }
  }

  lemma CacheStepRefines(s: State, a: Step)
    requires Inv(s) && Enabled(s, a) && Inv(Apply(s, a))
    requires a.Fetch? || a.LogWrite?
    ensures Abstract(Apply(s, a)) == Abstract(s)
  {
    if a.Fetch? {
      FetchRefines(s, a.p, a.b, a.victim);
    } else {
      LogWriteRefines(s, a.p, a.b);
    }
  }

  lemma SilentStepRefines(s: State, a: Step)
    requires Inv(s) && Enabled(s, a) && Inv(Apply(s, a)) && EventOf(a).Silent?
    ensures Abstract(Apply(s, a)) == Abstract(s)
  {
    if a.Fetch? || a.LogWrite? {
      CacheStepRefines(s, a);
    } else if a.CopyToLog? || a.InstallOne? || a.EraseHead? {
      DiskStepRefines(s, a);
    } else if a.ClearHead? || a.EndCommit? || a.ReadHead? {
      QuietStepRefines(s, a);
    } else {
      EntryStepRefines(s, a);
    }
  }

  lemma VisibleStepRefines(s: State, a: Step)
    requires Inv(s) && Enabled(s, a) && Inv(Apply(s, a)) && (a.Modify? || a.WriteHead? || a.PowerFail?)
    ensures Moves(Abstract(s), EventOf(a), Abstract(Apply(s, a)))
  {
    if a.Modify? {
      ModifyRefines(s, a.p, a.b, a.v);
    } else if a.WriteHead? {
      WriteHeadRefines(s, a.p);
    } else {
      CrashRefines(s);
    }
  }

  lemma BoundaryStepRefines(s: State, a: Step)
    requires Inv(s) && Enabled(s, a) && Inv(Apply(s, a)) && (a.BeginOp? || a.EndOp?)
    ensures Moves(Abstract(s), EventOf(a), Abstract(Apply(s, a)))
  {
    if a.BeginOp? {
      BeginRefines(s, a.p);
    } else {
      EndRefines(s, a.p);
    }
  }

  /** Every step of the machine is a move of the atomic store. */
  lemma StepRefines(s: State, a: Step)
    requires Inv(s) && Enabled(s, a) && Inv(Apply(s, a))
    ensures Moves(Abstract(s), EventOf(a), Abstract(Apply(s, a)))
  {
    if a.Modify? || a.WriteHead? || a.PowerFail? {
      VisibleStepRefines(s, a);
    } else if a.BeginOp? || a.EndOp? {
      BoundaryStepRefines(s, a);
    } else {
      SilentStepRefines(s, a);
    }
  }
}
