/** What the log promises over whole runs: crash atomicity, write-ahead, admission. */
module LogTheorems {
  import opened AtomicStore
  import opened Options
  import opened LogMachine
  import opened LogInvariant
  import opened LogRefinement

  /** Names a position of a run; the steps of a run are looked at only where it is mentioned. */
  predicate At(i: int) { true }

  /** A run from power-on: any interleaving of enabled steps, with power failures anywhere. */
  ghost predicate Run(states: seq<State>, steps: seq<Step>) {
    && |states| == |steps| + 1
    && Init(states[0])
    && forall i {:trigger At(i)} :: 0 <= i < |steps| ==>
         Enabled(states[i], steps[i]) && states[i + 1] == Apply(states[i], steps[i])
  }

  lemma RunStep(states: seq<State>, steps: seq<Step>, i: nat)
    requires Run(states, steps) && i < |steps|
    ensures Enabled(states[i], steps[i]) && states[i + 1] == Apply(states[i], steps[i])
  {
    assert At(i);
  }

  lemma RunExtends(states: seq<State>, steps: seq<Step>, a: Step)
    requires Run(states, steps) && Enabled(states[|steps|], a)
    ensures Run(states + [Apply(states[|steps|], a)], steps + [a])
  {
    var s' := Apply(states[|steps|], a);
    forall i | 0 <= i < |steps + [a]|
      ensures Enabled((states + [s'])[i], (steps + [a])[i])
      ensures (states + [s'])[i + 1] == Apply((states + [s'])[i], (steps + [a])[i])
    {
      if i < |steps| {
        RunStep(states, steps, i);
      }
    }
  }

  lemma {:induction false} RunKeepsInv(states: seq<State>, steps: seq<Step>, n: nat)
    requires Run(states, steps) && n <= |steps|
    ensures Inv(states[n])
  {
    if n == 0 {
      InitHolds(states[0]);
    } else {
      RunKeepsInv(states, steps, n - 1);
      assert At(n - 1);
      StepKeepsInv(states[n - 1], steps[n - 1]);
    }
  }

  lemma StepKeepsLayout(s: State, a: Step)
    requires Enabled(s, a)
    ensures Apply(s, a).start == s.start && Apply(s, a).nlog == s.nlog && |Apply(s, a).disk| == |s.disk|
  {
  }

  lemma {:induction false} LayoutIsFixed(states: seq<State>, steps: seq<Step>, n: nat)
    requires Run(states, steps) && n <= |steps|
    ensures states[n].start == states[0].start && states[n].nlog == states[0].nlog
    ensures |states[n].disk| == |states[0].disk|
  {
    if n > 0 {
      LayoutIsFixed(states, steps, n - 1);
      assert At(n - 1);
      StepKeepsLayout(states[n - 1], steps[n - 1]);
    }
  }

  ghost predicate AllShaped(states: seq<State>) {
    forall i :: 0 <= i < |states| ==> Shape(states[i])
  }

  ghost function AbstractRun(states: seq<State>): (r: seq<Store>)
    requires AllShaped(states)
    ensures |r| == |states| && forall i :: 0 <= i < |r| ==> r[i] == Abstract(states[i])
  {
    seq(|states|, i requires 0 <= i < |states| => Abstract(states[i]))
  }

  ghost function Events(steps: seq<Step>): (r: seq<Event>)
    ensures |r| == |steps| && forall i :: 0 <= i < |r| ==> r[i] == EventOf(steps[i])
  {
    seq(|steps|, i requires 0 <= i < |steps| => EventOf(steps[i]))
  }

  lemma RunIsShaped(states: seq<State>, steps: seq<Step>)
    requires Run(states, steps)
    ensures AllShaped(states)
  {
    forall i | 0 <= i < |states| ensures Shape(states[i]) {
      RunKeepsInv(states, steps, i);
    }
  }

  lemma RunMoves(states: seq<State>, steps: seq<Step>, i: nat)
    requires Run(states, steps) && i < |steps|
    ensures Shape(states[i]) && Shape(states[i + 1])
    ensures Moves(Abstract(states[i]), EventOf(steps[i]), Abstract(states[i + 1]))
  {
    RunKeepsInv(states, steps, i);
    RunKeepsInv(states, steps, i + 1);
    assert At(i);
    StepRefines(states[i], steps[i]);
  }

  /** Every run is a history of the atomic store. */
  lemma RunRefinesStore(states: seq<State>, steps: seq<Step>)
    requires Run(states, steps)
    ensures AllShaped(states) && History(AbstractRun(states), Events(steps))
  {
    RunIsShaped(states, steps);
    forall i | 0 <= i < |steps|
      ensures Moves(AbstractRun(states)[i], Events(steps)[i], AbstractRun(states)[i + 1])
    {
      RunMoves(states, steps, i);
    }
  }

  lemma RunningDiskIsDurable(states: seq<State>, steps: seq<Step>, n: nat, b: nat)
    requires Run(states, steps) && n <= |steps| && states[n].phase.Running? && Home(states[n], b)
    ensures Shape(states[n]) && states[n].disk[b] == Durable(states[n])[b]
  {
    RunKeepsInv(states, steps, n);
  }

  /** What is durable at n, in terms of the last commit before it. */
  lemma DurableInRun(states: seq<State>, t: seq<Store>, events: seq<Event>, n: nat)
    requires AllShaped(states) && t == AbstractRun(states) && History(t, events) && n <= |events|
    ensures var k := LastCommit(events, n);
            && Durable(states[n]) == Durable(states[k])
            && (k > 0 ==> states[k - 1].ops.Keys == {} && Durable(states[n]) == Current(states[k - 1]))
  {
    DurableIsLastCommit(t, events, n);
  }

  /** The blocks as they were current at the last completed header write before n, or as recovery
      reads them from the initial disk when there was none. */
  ghost function AtLastCommit(states: seq<State>, steps: seq<Step>, n: nat): seq<Block>
    requires AllShaped(states) && |states| == |steps| + 1 && n <= |steps|
  {
    var k := LastCommit(Events(steps), n);
    if k == 0 then Durable(states[0]) else Current(states[k - 1])
  }

  /** Crash atomicity.  Whenever the machine runs, however many power failures there were and
      wherever they fell, recovery included, every home block on disk holds what was current at the
      last completed header write. */
  lemma CrashAtomicity(states: seq<State>, steps: seq<Step>, n: nat, b: nat)
    requires Run(states, steps) && n <= |steps| && states[n].phase.Running? && Home(states[n], b)
    ensures AllShaped(states) && b < |AtLastCommit(states, steps, n)|
    ensures states[n].disk[b] == AtLastCommit(states, steps, n)[b]
  {
    RunRefinesStore(states, steps);
    DurableInRun(states, AbstractRun(states), Events(steps), n);
    RunningDiskIsDurable(states, steps, n, b);
    assert Durable(states[n]) == AtLastCommit(states, steps, n);
  }

  lemma LastCommitIsQuiet(states: seq<State>, steps: seq<Step>, n: nat) returns (j: nat)
    requires Run(states, steps) && AllShaped(states) && n <= |steps|
    ensures j <= n && states[j].ops.Keys == {} && AtLastCommit(states, steps, n) == Current(states[j])
  {
    var k := LastCommit(Events(steps), n);
    j := if k == 0 then 0 else k - 1;
    QuietAt(states, steps, n, k, j);
  }

  lemma QuietAt(states: seq<State>, steps: seq<Step>, n: nat, k: nat, j: nat)
    requires Run(states, steps) && AllShaped(states) && n <= |steps| && k == LastCommit(Events(steps), n)
    requires j == if k == 0 then 0 else k - 1
    ensures j <= n && states[j].ops.Keys == {} && AtLastCommit(states, steps, n) == Current(states[j])
  {
    if k == 0 {
      NeverCommitted(states, steps, n);
    } else {
      CommitIsQuiet(states, steps, n, k);
    }
  }

  lemma NeverCommitted(states: seq<State>, steps: seq<Step>, n: nat)
    requires Run(states, steps) && AllShaped(states) && n <= |steps| && LastCommit(Events(steps), n) == 0
    ensures states[0].ops.Keys == {} && AtLastCommit(states, steps, n) == Current(states[0])
  {
    StartIsQuiet(states, steps);
  }

  lemma CommitIsQuiet(states: seq<State>, steps: seq<Step>, n: nat, k: nat)
    requires Run(states, steps) && AllShaped(states) && n <= |steps| && k == LastCommit(Events(steps), n) && k > 0
    ensures k <= n && states[k - 1].ops.Keys == {} && AtLastCommit(states, steps, n) == Current(states[k - 1])
  {
    RunRefinesStore(states, steps);
    DurableInRun(states, AbstractRun(states), Events(steps), n);
  }

  lemma StartIsQuiet(states: seq<State>, steps: seq<Step>)
    requires Run(states, steps) && AllShaped(states)
    ensures states[0].ops.Keys == {} && Current(states[0]) == Durable(states[0])
  {
    StartIsClean(states, steps);
    assert AbstractRun(states)[0] == Abstract(states[0]);
  }

  /** What a crash leaves is what was current at some earlier moment between operations. */
  lemma RecoversToQuiet(states: seq<State>, steps: seq<Step>, n: nat) returns (j: nat)
    requires Run(states, steps) && AllShaped(states) && n <= |steps| && states[n].phase.Running?
    ensures j <= n && states[j].ops.Keys == {}
    ensures forall b :: 0 <= b < |states[n].disk| && Home(states[n], b) ==>
              b < |Current(states[j])| && states[n].disk[b] == Current(states[j])[b]
  {
    j := LastCommitIsQuiet(states, steps, n);
    forall b | 0 <= b < |states[n].disk| && Home(states[n], b)
      ensures b < |Current(states[j])| && states[n].disk[b] == Current(states[j])[b]
    {
      CrashAtomicity(states, steps, n, b);
    }
  }

  /** No operation is in progress at a header write, so none is committed in part. */
  lemma CommitIsQuiescent(states: seq<State>, steps: seq<Step>, k: nat)
    requires Run(states, steps) && k < |steps| && steps[k].WriteHead?
    ensures states[k].ops == map[]
  {
    assert At(k);
    RunKeepsInv(states, steps, k);
  }

  lemma StartIsClean(states: seq<State>, steps: seq<Step>)
    requires Run(states, steps) && AllShaped(states)
    ensures AbstractRun(states)[0].current == AbstractRun(states)[0].durable
  {
    var s := states[0];
    assert Recovers(s);
    assert Current(s) == Durable(s);
  }

  lemma HeaderWriteCommits(a: Step)
    requires a.WriteHead?
    ensures EventOf(a) == GroupCommit
  {
  }

  /** A group is all there is: a commit makes durable the blocks of the previous commit with exactly
      the writes since then, or since the last crash, replayed in order. */
  lemma CommittedGroup(states: seq<State>, steps: seq<Step>, k: nat)
    requires Run(states, steps) && k < |steps| && steps[k].WriteHead?
    ensures AllShaped(states)
    ensures var t, events := AbstractRun(states), Events(steps);
            t[k + 1].durable == Replayed(t[k].durable, t[k].durable, events[LastCommit(events, k)..k])
  {
    RunRefinesStore(states, steps);
    StartIsClean(states, steps);
    HeaderWriteCommits(steps[k]);
    assert Events(steps)[k] == EventOf(steps[k]);
    GroupInHistory(AbstractRun(states), Events(steps), k);
  }

  lemma GroupInHistory(t: seq<Store>, events: seq<Event>, k: nat)
    requires History(t, events) && k < |events| && events[k].GroupCommit? && t[0].current == t[0].durable
    ensures t[k + 1].durable == Replayed(t[k].durable, t[k].durable, events[LastCommit(events, k)..k])
  {
    CurrentIsDurablePlusWrites(t, events, k);
    assert Moves(t[k], events[k], t[k + 1]);
  }

  // ----- the write-ahead rule -----

  /** A home block on disk changes only in install_trans, after a header naming it is on disk. */
  lemma HomeChangesOnlyWhenListed(s: State, a: Step, b: nat)
    requires Inv(s) && Enabled(s, a) && Home(s, b)
    requires Apply(s, a).disk[b] != s.disk[b]
    ensures a.InstallOne? && b in OnDisk(s)
  {
    assert b != s.start;
    if a.CopyToLog? {
      CopyNeedsBuffer(s, a.p);
    }
  }

  /** Outside recovery, a cached copy that nobody has locked and that differs from the disk is
      listed exactly once, is referenced, and cannot be recycled. */
  lemma UnwrittenIsPinned(s: State, b: nat)
    requires Inv(s) && b in s.cache && s.cache[b].valid && s.cache[b].lock.None?
    requires s.cache[b].data != s.disk[b]
    ensures b in s.lh && s.cache[b].refcnt >= 1
    ensures forall i, j :: 0 <= i < |s.lh| && 0 <= j < |s.lh| && s.lh[i] == b && s.lh[j] == b ==> i == j
    ensures forall p, c :: c !in s.cache ==> !CanFetch(s, p, c, Some(b))
  {
    assert Pinned(s, b);
  }

  // ----- admission -----

  /** An operation with credit left finds room in the log: log_write does not panic. */
  lemma CreditNeverPanics(s: State, p: Pid)
    requires Inv(s) && p in s.ops && s.ops[p] < MAXOPBLOCKS
    ensures |s.lh| < LOGBLOCKS
  {
    UnspentSplit(s.ops, p);
  }

  function Handed(a: Step, p: Pid): set<nat> { if a.LogWrite? && a.p == p then {a.b} else {} }

  /** The blocks that process p hands to log_write between two positions of a run. */
  ghost function LoggedIn(steps: seq<Step>, p: Pid, m: nat, n: nat): set<nat>
    requires m <= n <= |steps|
  {
    if m == n then {} else LoggedIn(steps, p, m, n - 1) + Handed(steps[n - 1], p)
  }

  /** Process p is inside one operation, which began before position m, until n. */
  ghost predicate InOperation(states: seq<State>, p: Pid, m: nat, n: nat) {
    m <= n < |states| && forall i :: m <= i <= n ==> p in states[i].ops
  }

  /** While an operation is open the log only grows, and it spends credit only on new entries. */
  lemma OpenStep(s: State, a: Step, p: Pid)
    requires Inv(s) && Enabled(s, a) && p in s.ops && p in Apply(s, a).ops
    ensures var s' := Apply(s, a);
            && (forall b :: b in s.lh ==> b in s'.lh)
            && (a.LogWrite? && a.p == p ==> a.b in s'.lh)
            && s'.ops[p] == if a.LogWrite? && a.p == p && a.b !in s.lh then s.ops[p] + 1 else s.ops[p]
  {
  }

  lemma OpenRunStep(states: seq<State>, steps: seq<Step>, p: Pid, i: nat, j: nat)
    requires Run(states, steps) && i < |steps| && j == i + 1 && p in states[i].ops && p in states[j].ops
    ensures forall b :: b in states[i].lh ==> b in states[j].lh
    ensures var a := steps[i];
            && (a.LogWrite? && a.p == p ==> a.b in states[j].lh)
            && states[j].ops[p] == if a.LogWrite? && a.p == p && a.b !in states[i].lh then states[i].ops[p] + 1
                                   else states[i].ops[p]
  {
    RunKeepsInv(states, steps, i);
    RunStep(states, steps, i);
    OpenStep(states[i], steps[i], p);
  }

  /** An operation has spent no more credit than it has logged distinct blocks. */
  lemma {:induction false} SpentIsLogged(states: seq<State>, steps: seq<Step>, p: Pid, m: nat, n: nat)
    requires Run(states, steps) && m <= n <= |steps| && InOperation(states, p, m, n) && states[m].ops[p] == 0
    ensures states[n].ops[p] <= |LoggedIn(steps, p, m, n)|
    ensures forall b :: b in LoggedIn(steps, p, m, n) ==> b in states[n].lh
    decreases n - m
  {
    if m < n {
      SpentIsLogged(states, steps, p, m, n - 1);
      OpenRunStep(states, steps, p, n - 1, n);
      SpentMore(steps, p, m, n);
    }
  }

  lemma SpentMore(steps: seq<Step>, p: Pid, m: nat, n: nat)
    requires m < n <= |steps|
    ensures var was, more := LoggedIn(steps, p, m, n - 1), Handed(steps[n - 1], p);
            |LoggedIn(steps, p, m, n)| == |was| + if more <= was then 0 else 1
  {
    var was, more := LoggedIn(steps, p, m, n - 1), Handed(steps[n - 1], p);
    assert more <= was ==> was + more == was;
  }

  /** An operation that has logged fewer than MAXOPBLOCKS distinct blocks finds room for one more, whatever
      the other operations do. */
  lemma OperationFindsRoom(states: seq<State>, steps: seq<Step>, p: Pid, m: nat, n: nat, b: nat)
    requires Run(states, steps) && m <= n <= |steps| && InOperation(states, p, m, n) && states[m].ops[p] == 0
    requires |LoggedIn(steps, p, m, n)| < MAXOPBLOCKS && Holds(states[n], p, b) && Home(states[n], b)
    ensures Enabled(states[n], LogWrite(p, b))
  {
    SpentIsLogged(states, steps, p, m, n);
    RunKeepsInv(states, steps, n);
    CreditNeverPanics(states[n], p);
  }

  /** log_write refuses a full log before it looks for absorption: with the log full, every
      outstanding operation has used up its credit, and re-logging a listed block panics. */
  lemma FullLogPanicsOnAbsorption(s: State, p: Pid, b: nat)
    requires Inv(s) && p in s.ops && Holds(s, p, b) && b in s.lh
    ensures CanLogWrite(s, p, b) <==> |s.lh| < LOGBLOCKS
    ensures |s.lh| == LOGBLOCKS ==> forall q :: q in s.ops ==> s.ops[q] == MAXOPBLOCKS
  {
    assert Home(s, s.lh[IndexOf(s.lh, b)]);
    if |s.lh| == LOGBLOCKS {
      forall q | q in s.ops ensures s.ops[q] == MAXOPBLOCKS {
        UnspentSplit(s.ops, q);
      }
    }
  }

  /** begin_op waits only while some operation or a commit is in progress. */
  lemma BeginWaitsForSomeone(s: State, p: Pid)
    requires Inv(s) && !Recovers(s) && p !in s.ops && !CanBegin(s, p)
    ensures s.committing || s.ops != map[]
  {
  }

  /** Outside a commit begin_op admits an operation exactly when every open operation and the new one could each add
      MAXOPBLOCKS entries to the log as it is. */
  lemma AdmissionIsExact(s: State, p: Pid)
    requires Inv(s) && !Recovers(s) && p !in s.ops
    ensures Enabled(s, BeginOp(p)) <==>
            (!s.committing && forall n: nat :: n <= (|s.ops| + 1) * MAXOPBLOCKS ==> RoomFor(s, n))
  {
    assert Enabled(s, BeginOp(p)) ==> !s.committing && RoomFor(s, (|s.ops| + 1) * MAXOPBLOCKS);
    assert !s.committing && RoomFor(s, (|s.ops| + 1) * MAXOPBLOCKS) ==> Enabled(s, BeginOp(p));
  }

  /** An operation can end as soon as it has handed over every buffer that it changed; the last one starts the commit,
      which skips an empty transaction, and nobody else's credit, no buffer and no block changes. */
  lemma OperationCanEnd(s: State, p: Pid)
    requires Inv(s) && p in s.ops && forall b :: b in s.cache && s.cache[b].lock == Some(p) ==> !s.cache[b].dirty
    ensures Enabled(s, EndOp(p))
    ensures var s', last := Apply(s, EndOp(p)), s.ops.Keys == {p};
            && s'.ops == s.ops - {p} && s'.lh == s.lh && s'.cache == s.cache && s'.disk == s.disk
            && s'.committing == last
            && s'.phase == if last then (if s.lh == [] then Finishing else WritingLog(0)) else Running
  {
    assert s.ops - {p} == map[] <==> s.ops.Keys == {p} by {
      assert (s.ops - {p}).Keys == s.ops.Keys - {p};
    }
  }

  /** A commit runs only with no operation outstanding, and an idle log is empty. */
  lemma CommitIsExclusive(s: State)
    requires Inv(s)
    ensures s.committing ==> s.ops == map[]
    ensures s.phase.Running? && s.ops == map[] ==> s.lh == [] && Current(s) == Durable(s)
  {
    if s.phase.Running? && s.ops == map[] {
      forall b | 0 <= b < |s.disk| ensures Current(s)[b] == Durable(s)[b] {
        if Home(s, b) && b in s.cache && s.cache[b].valid {
          QuietCache(s, b);
        }
      }
    }
  }

  // ----- the size of the log area -----

  /** The slots of a transaction of n blocks lie in the log area exactly when n is below nlog: the
      header takes one of the nlog blocks. */
  lemma SlotsFitIff(s: State, n: nat)
    requires 1 <= s.nlog && s.start + s.nlog <= |s.disk| && s.start + n < |s.disk|
    ensures (forall i :: 0 <= i < n ==> !Home(s, Slot(s, i))) <==> n < s.nlog
  {
    if n >= s.nlog {
      assert Home(s, Slot(s, s.nlog - 1));
    }
  }

  // ----- when commit finds no buffer -----

  ghost function Referenced(s: State): set<nat> {
    set b | b in s.cache && s.cache[b].refcnt > 0
  }

  /** bget of a block that is not cached succeeds exactly when some buffer is not referenced. */
  lemma MissIff(s: State, p: Pid, b: nat)
    requires Inv(s) && b < |s.disk| && b !in s.cache
    ensures (exists victim :: CanFetch(s, p, b, victim)) <==> |Referenced(s)| < NBUF
  {
    var used := Referenced(s);
    SubsetCount(used, s.cache.Keys);
    if |s.cache| < NBUF {
      assert CanFetch(s, p, b, None);
    } else if |used| < NBUF {
      if s.cache.Keys <= used {
        SubsetCount(s.cache.Keys, used);
      }
      var v :| v in s.cache.Keys && v !in used;
      assert CanFetch(s, p, b, Some(v));
    } else {
      assert used == s.cache.Keys;
    }
  }

  /** The buffers that processes hold besides those of the transaction. */
  ghost function Readers(s: State): set<nat> {
    set b | b in s.cache && b !in s.lh && s.cache[b].waiters != {}
  }

  lemma ReferencedCount(s: State)
    requires Inv(s) && s.phase.WritingLog?
    ensures |Referenced(s)| == |s.lh| + |Readers(s)|
  {
    var pins, rest := PinnedSet(s, 0), Readers(s);
    PinnedCount(s, 0);
    forall b ensures b in Referenced(s) <==> b in pins + rest {
      if b in pins {
        assert Pinned(s, b);
      } else if b in s.cache {
        assert !Pinned(s, b);
        assert |s.cache[b].waiters| > 0 <==> s.cache[b].waiters != {};
      }
    }
    assert Referenced(s) == pins + rest && pins * rest == {};
  }

  /** In every reachable state of write_log, whatever the other processes do: bget finds a buffer for the next
      slot exactly when the transaction and the other buffers in use are fewer than the buffers.  Otherwise it
      panics. */
  lemma SlotHasBufferIff(s: State, k: nat, p: Pid)
    requires Inv(s) && s.phase == WritingLog(k) && k < |s.lh| && Slot(s, k) !in s.cache
    ensures (exists victim :: CanFetch(s, p, Slot(s, k), victim)) <==> |s.lh| + |Readers(s)| < NBUF
  {
    SlotIsReserved(s, k);
    MissIff(s, p, Slot(s, k));
    ReferencedCount(s);
  }

  /** A transaction as large as the cache is never written to the log, whatever the other processes do: its
      commit stays in front of the first slot. */
  lemma FullTransactionWritesNoSlot(s: State)
    requires Inv(s) && s.phase.WritingLog? && |s.lh| == NBUF
    ensures s.phase.k == 0 && OnDisk(s) == [] && forall p :: !CanCopy(s, p)
    ensures forall p, victim :: !CanFetch(s, p, Slot(s, 0), victim)
  {
    forall p ensures !CanCopy(s, p) {
      if CanCopy(s, p) {
        CopyNeedsBuffer(s, p);
      }
    }
    FullCacheIsPinned(s);
    SlotIsReserved(s, 0);
    assert |s.cache| >= NBUF by {
      PinnedCount(s, 0);
      SubsetCount(PinnedSet(s, 0), s.cache.Keys);
    }
  }
}
