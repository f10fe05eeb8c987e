/**
 The procedures of the log as imperative code.  Every atomic step they take is recorded in a ghost
 trace, and the trace is always a legal run of the log machine, so what is proved of all runs holds
 at every point of these procedures, every intermediate disk included.
 */
module LogCode {
  import opened AtomicStore
  import opened Options
  import opened LogMachine
  import opened LogInvariant
  import opened LogRefinement
  import opened LogTheorems

  /** What the other processes do with a buffer: who is between bget and the end of brelse, and who has its
      sleep lock. */
  datatype Hold = Hold(waiters: set<Pid>, lock: Option<Pid>)

  /** The buffers that other processes hold while a procedure runs. */
  type Others = map<nat, Hold>

  function WaitersOf(rs: Others, b: nat): set<Pid> { if b in rs then rs[b].waiters else {} }

  function LockOf(rs: Others, b: nat): Option<Pid> { if b in rs then rs[b].lock else None }

  /** Held is looked into only where this is mentioned. */
  predicate Grip(n: int, s: State) { true }

  /** Process p holds exactly the buffers of the blocks in bs, and the other processes hold rs. */
  ghost predicate Held(s: State, p: Pid, bs: set<nat>, rs: Others) {
    match s
    case State(_, _, _, _, _, _, _, _) =>
      && bs <= s.cache.Keys
      && forall n: int {:trigger Grip(n, s)} :: 0 <= n ==> HeldIn(s.cache, p, bs, rs)
  }

  ghost predicate HeldIn(cache: map<nat, Entry>, p: Pid, bs: set<nat>, rs: Others) {
    && bs <= cache.Keys && rs.Keys <= cache.Keys
    && (forall b :: b in rs ==> rs[b].waiters != {} && p !in rs[b].waiters)
    && forall b :: b in cache ==>
         if b in bs then
           && cache[b].waiters == WaitersOf(rs, b) + {p} && LockOf(rs, b).None?
           && cache[b].lock == Some(p) && cache[b].valid
         else cache[b].waiters == WaitersOf(rs, b) && cache[b].lock == LockOf(rs, b)
  }

  /** Other processes use home blocks only: the log area is read by commit and recovery alone. */
  predicate AtHome(s: State, rs: Others) {
    forall b :: b in rs ==> Home(s, b)
  }

  /** How a procedure ends: it is done, bget panics for lack of buffers, or it sleeps for a buffer that another
      process has locked. */
  datatype Outcome = Done | NoBuffer | Sleeps

  /** The buffers that the log pins and those that other processes hold. */
  ghost function Taken(s: State, rs: Others): set<nat> {
    PinnedSet(s, Unpinned(s)) + rs.Keys
  }

  /** Room is looked into only where this is mentioned. */
  predicate Spare(n: int, s: State) { true }

  /** They are fewer than the buffers. */
  ghost predicate Room(s: State, rs: Others) {
    match s
    case State(_, _, _, _, _, _, _, _) =>
      forall n: int {:trigger Spare(n, s)} :: 0 <= n ==> |Taken(s, rs)| < NBUF
  }

  /** Another process has locked one of the blocks. */
  predicate Contended(l: seq<nat>, rs: Others) {
    exists b :: b in l && LockOf(rs, b).Some?
  }

  /** SilentSince is looked into only where this is mentioned. */
  predicate Since(n: int, steps: seq<Step>) { true }

  /** A later trace adds only steps that the store does not see. */
  ghost predicate SilentSince(states0: seq<State>, steps0: seq<Step>, states: seq<State>, steps: seq<Step>) {
    forall n: int {:trigger Since(n, steps)} :: 0 <= n ==> OnlySilent(states0, steps0, states, steps)
  }

  ghost predicate OnlySilent(states0: seq<State>, steps0: seq<Step>, states: seq<State>, steps: seq<Step>) {
    && steps0 <= steps && states0 <= states
    && forall i :: |steps0| <= i < |steps| ==> EventOf(steps[i]).Silent?
  }

  lemma SilentNone(states: seq<State>, steps: seq<Step>)
    ensures SilentSince(states, steps, states, steps)
  {
    assert OnlySilent(states, steps, states, steps);
  }

  lemma SilentOne(states: seq<State>, steps: seq<Step>, s: State, a: Step)
    requires EventOf(a).Silent?
    ensures SilentSince(states, steps, states + [s], steps + [a])
  {
    assert OnlySilent(states, steps, states + [s], steps + [a]);
  }

  lemma SilentTwice(states0: seq<State>, steps0: seq<Step>, states1: seq<State>, steps1: seq<Step>,
                    states: seq<State>, steps: seq<Step>)
    requires SilentSince(states0, steps0, states1, steps1) && SilentSince(states1, steps1, states, steps)
    ensures SilentSince(states0, steps0, states, steps)
  {
    assert Since(0, steps1) && Since(0, steps);
    assert OnlySilent(states0, steps0, states, steps);
  }

  /** A later trace adds one header write, at g, and otherwise only silent steps. */
  ghost predicate OneCommit(states0: seq<State>, steps0: seq<Step>, states: seq<State>, steps: seq<Step>, g: nat) {
    && steps0 <= steps && states0 <= states
    && |steps0| <= g < |steps| && steps[g].WriteHead?
    && forall i :: |steps0| <= i < |steps| && i != g ==> EventOf(steps[i]).Silent?
  }

  lemma CommitBetween(states0: seq<State>, steps0: seq<Step>, states1: seq<State>, steps1: seq<Step>,
                      states2: seq<State>, steps2: seq<Step>, states: seq<State>, steps: seq<Step>)
    requires SilentSince(states0, steps0, states1, steps1) && SilentSince(states2, steps2, states, steps)
    requires states1 <= states2 && steps1 <= steps2 && |steps2| == |steps1| + 1 && steps2[|steps1|].WriteHead?
    ensures OneCommit(states0, steps0, states, steps, |steps1|)
  {
    assert Since(0, steps1) && Since(0, steps);
  }

  lemma CommitAround(states0: seq<State>, steps0: seq<Step>, states1: seq<State>, steps1: seq<Step>,
                     states2: seq<State>, steps2: seq<Step>, states: seq<State>, steps: seq<Step>, g: nat)
    requires SilentSince(states0, steps0, states1, steps1) && OneCommit(states1, steps1, states2, steps2, g)
    requires SilentSince(states2, steps2, states, steps)
    ensures OneCommit(states0, steps0, states, steps, g)
  {
    assert Since(0, steps1) && Since(0, steps);
  }

  /** The data of cached blocks is only dropped together with an unreferenced buffer. */
  predicate OnlyRecycled(s: State, s': State) {
    && (forall c :: c in s.cache && c !in s'.cache ==> s.cache[c].refcnt == 0)
    && (forall c :: c in s.cache && s.cache[c].valid && c in s'.cache ==>
          s'.cache[c].valid && s'.cache[c].data == s.cache[c].data)
  }

  /** Only the cache may differ. */
  predicate SameLog(s: State, s': State) {
    && s'.start == s.start && s'.nlog == s.nlog && s'.disk == s.disk && s'.lh == s.lh
    && s'.ops == s.ops && s'.committing == s.committing && s'.phase == s.phase
  }

  /** Legal is looked into only where this is mentioned. */
  predicate Trace(n: int, steps: seq<Step>) { true }

  ghost predicate Legal(states: seq<State>, steps: seq<Step>) {
    && |states| == |steps| + 1
    && forall n: int {:trigger Trace(n, steps)} :: 0 <= n ==> Run(states, steps)
  }

  /** bget finds a buffer for b: a hit, a spare one, or one that nobody refers to. */
  predicate CanGet(s: State, b: nat) {
    b in s.cache || |s.cache| < NBUF || exists v :: v in s.cache && s.cache[v].refcnt == 0
  }

  /** The state after bget and the read of an invalid buffer. */
  function Got(s: State, p: Pid, b: nat, victim: Option<nat>): State
    requires CanFetch(s, p, b, victim)
  {
    var s' := DoFetch(s, p, b, victim);
    var e := s'.cache[b];
    SetEntry(s', b, e.(lock := Some(p), valid := true, data := if e.valid then e.data else s.disk[b]))
  }

  class FileLog {
    const start: nat
    const nlog: nat
    var disk: seq<Block>
    var cache: map<nat, Entry>
    var lh: seq<nat>
    var ops: map<Pid, nat>
    var committing: bool
    var phase: Phase
    ghost var states: seq<State>
    ghost var steps: seq<Step>

    function Now(): State
      reads this
    {
      State(start, nlog, disk, cache, lh, ops, committing, phase)
    }

    ghost predicate Valid()
      reads this
    {
      Legal(states, steps) && states[|steps|] == Now()
    }

    lemma NowIsInv()
      requires Valid()
      ensures Inv(Now())
    {
      assert Trace(0, steps);
      RunKeepsInv(states, steps, |steps|);
    }

    /** Power-on. */
    constructor (start: nat, nlog: nat, disk: seq<Block>)
      requires Init(State(start, nlog, disk, map[], [], map[], false, Booting))
      ensures Valid() && this.start == start && this.nlog == nlog
      ensures Now() == State(start, nlog, disk, map[], [], map[], false, Booting) && steps == []
    {
      this.start, this.nlog, this.disk := start, nlog, disk;
      cache, lh, ops, committing, phase := map[], [], map[], false, Booting;
      states, steps := [State(start, nlog, disk, map[], [], map[], false, Booting)], [];
      new;
      assert Run(states, steps);
    }

    /** Note a step that has just been taken. */
    ghost method Record(before: State, a: Step)
      requires Legal(states, steps) && states[|steps|] == before
      requires Enabled(before, a) && Now() == Apply(before, a)
      modifies this`states, this`steps
      ensures Valid() && steps == old(steps) + [a] && states == old(states) + [Now()]
      ensures EventOf(a).Silent? ==> SilentSince(old(states), old(steps), states, steps)
    {
      assert Trace(0, steps);
      RunExtends(states, steps, a);
      if EventOf(a).Silent? {
        SilentOne(states, steps, Now(), a);
      }
      states, steps := states + [Now()], steps + [a];
    }

    // ----- bio.c -----

    /** bget up to the release of bcache.lock. */
    method Bget(p: Pid, b: nat, victim: Option<nat>)
      requires Valid() && CanFetch(Now(), p, b, victim)
      modifies this
      ensures Valid() && Now() == DoFetch(old(Now()), p, b, victim)
      ensures SilentSince(old(states), old(steps), states, steps)
    {
      ghost var s := Now();
      if b in cache {
        cache := cache[b := cache[b].(refcnt := cache[b].refcnt + 1, waiters := cache[b].waiters + {p})];
      } else {
        var kept := if victim.None? then cache else cache - {victim.value};
        cache := kept[b := Entry(false, [], 1, {p}, None, false)];
      }
      Record(s, Fetch(p, b, victim));
    }

    method AcquireSleep(p: Pid, b: nat)
      requires Valid() && CanLock(Now(), p, b)
      modifies this
      ensures Valid() && Now() == SetEntry(old(Now()), b, old(cache)[b].(lock := Some(p)))
      ensures SilentSince(old(states), old(steps), states, steps)
    {
      ghost var s := Now();
      cache := cache[b := cache[b].(lock := Some(p))];
      Record(s, Lock(p, b));
    }

    method ReadDisk(p: Pid, b: nat)
      requires Valid() && CanFill(Now(), p, b)
      modifies this
      ensures Valid() && Now() == SetEntry(old(Now()), b, old(cache)[b].(valid := true, data := old(disk)[b]))
      ensures SilentSince(old(states), old(steps), states, steps)
    {
      ghost var s := Now();
      cache := cache[b := cache[b].(valid := true, data := disk[b])];
      Record(s, Fill(p, b));
    }

    method ReleaseSleep(p: Pid, b: nat)
      requires Valid() && CanUnlock(Now(), p, b)
      modifies this
      ensures Valid() && Now() == SetEntry(old(Now()), b, old(cache)[b].(lock := None))
      ensures SilentSince(old(states), old(steps), states, steps)
    {
      ghost var s := Now();
      cache := cache[b := cache[b].(lock := None)];
      Record(s, Unlock(p, b));
    }

    method DropRef(p: Pid, b: nat)
      requires Valid() && CanPut(Now(), p, b)
      modifies this
      ensures Valid()
      ensures var e := old(cache)[b];
              Now() == SetEntry(old(Now()), b, e.(refcnt := e.refcnt - 1, waiters := e.waiters - {p}))
      ensures SilentSince(old(states), old(steps), states, steps)
    {
      ghost var s := Now();
      cache := cache[b := cache[b].(refcnt := cache[b].refcnt - 1, waiters := cache[b].waiters - {p})];
      Record(s, Put(p, b));
    }

    /** bget to its return, then the read of an invalid buffer. */
    method GetLocked(p: Pid, b: nat, victim: Option<nat>)
      requires Valid() && CanFetch(Now(), p, b, victim) && (b in cache ==> cache[b].lock.None?)
      modifies this
      ensures Valid() && Now() == Got(old(Now()), p, b, victim)
      ensures SilentSince(old(states), old(steps), states, steps)
    {
      Bget(p, b, victim);
      label Got:
      AcquireSleep(p, b);
      SilentTwice(old(states), old(steps), old@Got(states), old@Got(steps), states, steps);
      if !cache[b].valid {
        label Locked:
        ReadDisk(p, b);
        SilentTwice(old(states), old(steps), old@Locked(states), old@Locked(steps), states, steps);
      }
    }

    /** bread: find or recycle a buffer, lock it, and read it if it is not valid. */
    method Bread(p: Pid, b: nat, ghost bs: set<nat>, ghost rs: Others) returns (out: Outcome)
      requires Valid() && b < |disk| && b !in bs && Held(Now(), p, bs, rs)
      modifies this
      ensures Valid() && SilentSince(old(states), old(steps), states, steps)
      ensures out.NoBuffer? <==> !CanGet(old(Now()), b)
      ensures out.Sleeps? <==> LockOf(rs, b).Some?
      ensures SameLog(old(Now()), Now()) && OnlyRecycled(old(Now()), Now())
      ensures out.Done? ==> Held(Now(), p, bs + {b}, rs)
      ensures out.NoBuffer? ==> Now() == old(Now())
      ensures out.Sleeps? ==> CanFetch(old(Now()), p, b, None) && Now() == DoFetch(old(Now()), p, b, None)
    {
      assert Grip(0, Now());
      var victim := None;
      if b !in cache && |cache| >= NBUF {
        if v :| v in cache && cache[v].refcnt == 0 {
          victim := Some(v);
        } else {
          SilentNone(states, steps);
          return NoBuffer;
        }
      }
      if b in cache && cache[b].lock.Some? {
        Bget(p, b, None);
        return Sleeps;
      }
      GotIsHeld(p, b, bs, rs, victim);
      GetLocked(p, b, victim);
      return Done;
    }

    lemma GotIsHeld(p: Pid, b: nat, bs: set<nat>, rs: Others, victim: Option<nat>)
      requires Valid() && Held(Now(), p, bs, rs) && b !in bs && CanFetch(Now(), p, b, victim)
      requires b in cache ==> cache[b].lock.None?
      ensures Held(Got(Now(), p, b, victim), p, bs + {b}, rs)
      ensures OnlyRecycled(Now(), Got(Now(), p, b, victim))
    {
      NowIsInv();
      GotEffect(Now(), p, b, bs, rs, victim);
    }

    /** brelse. */
    method Brelse(p: Pid, b: nat, ghost bs: set<nat>, ghost rs: Others)
      requires Valid() && b in bs && Held(Now(), p, bs, rs) && !cache[b].dirty
      modifies this
      ensures Valid() && SilentSince(old(states), old(steps), states, steps)
      ensures SameLog(old(Now()), Now()) && cache.Keys == old(cache.Keys)
      ensures OnlyRecycled(old(Now()), Now())
      ensures Held(Now(), p, bs - {b}, rs)
    {
      HeldIsReferenced(p, b, bs, rs);
      assert Grip(0, Now());
      assert WaitersOf(rs, b) + {p} - {p} == WaitersOf(rs, b);
      ReleaseSleep(p, b);
      label Released:
      DropRef(p, b);
      SilentTwice(old(states), old(steps), old@Released(states), old@Released(steps), states, steps);
      assert HeldIn(cache, p, bs - {b}, rs);
    }

    lemma HeldIsReferenced(p: Pid, b: nat, bs: set<nat>, rs: Others)
      requires Valid() && Held(Now(), p, bs, rs) && b in bs
      ensures cache[b].refcnt > 0
    {
      NowIsInv();
      assert Grip(0, Now());
      assert p in cache[b].waiters;
    }

    // ----- log.c: operations -----

    /** One turn of begin_op's loop: admit the operation, or sleep (false). */
    method BeginOnce(p: Pid) returns (admitted: bool)
      requires Valid() && p !in ops && !Recovers(Now())
      modifies this
      ensures Valid()
      ensures admitted <==> CanBegin(old(Now()), p)
      ensures admitted <==>
                (!old(committing) && forall n: nat :: n <= (|old(ops)| + 1) * MAXOPBLOCKS ==> RoomFor(old(Now()), n))
      ensures !admitted ==> committing || ops != map[]
      ensures Now() == if admitted then old(Now()).(ops := old(ops)[p := 0]) else old(Now())
    {
      AdmissionFacts(p);
      if committing || |lh| + (|ops| + 1) * MAXOPBLOCKS > LOGBLOCKS {
        return false;
      }
      ghost var s := Now();
      ops := ops[p := 0];
      Record(s, BeginOp(p));
      return true;
    }

    lemma AdmissionFacts(p: Pid)
      requires Valid() && p !in ops && !Recovers(Now())
      ensures !committing ==> phase.Running?
      ensures !CanBegin(Now(), p) ==> committing || ops != map[]
      ensures CanBegin(Now(), p) <==>
                (!committing && forall n: nat :: n <= (|ops| + 1) * MAXOPBLOCKS ==> RoomFor(Now(), n))
    {
      NowIsInv();
      AdmissionIsExact(Now(), p);
      if !CanBegin(Now(), p) {
        BeginWaitsForSomeone(Now(), p);
      }
    }

    /** end_op up to the release of log.lock; true when the caller has to commit. */
    method LeaveOp(p: Pid) returns (doCommit: bool)
      requires Valid() && CanEnd(Now(), p)
      modifies this
      ensures Valid() && Now() == DoEnd(old(Now()), p)
      ensures doCommit <==> |old(ops)| == 1
      ensures doCommit ==> phase == if lh == [] then Finishing else WritingLog(0)
    {
      ghost var s := Now();
      ops := ops - {p};
      assert ops.Keys == s.ops.Keys - {p};
      if |ops| == 0 {
        committing, phase := true, if lh == [] then Finishing else WritingLog(0);
      }
      assert |ops| == 0 <==> ops == map[];
      Record(s, EndOp(p));
      doCommit := committing;
      LeaveFacts(s);
    }

    lemma LeaveFacts(s: State)
      requires Valid() && |steps| > 0 && states[|steps| - 1] == s && s.phase.Running?
      ensures !s.committing
    {
      assert Trace(0, steps);
      RunKeepsInv(states, steps, |steps| - 1);
    }

    /** log_write: absorb a block that is already listed, or list and pin it.  The result is false
        where log_write panics because the log is full. */
    method LogBlock(p: Pid, b: nat) returns (ok: bool)
      requires Valid() && Holds(Now(), p, b) && Home(Now(), b) && p in ops
      requires b !in lh ==> ops[p] < MAXOPBLOCKS
      modifies this
      ensures Valid()
      ensures ok <==> |old(lh)| < LOGBLOCKS
      ensures if ok then CanLogWrite(old(Now()), p, b) && Now() == DoLogWrite(old(Now()), p, b) else Now() == old(Now())
      ensures ok && b in old(lh) ==>
                lh == old(lh) && ops == old(ops) && cache == old(cache)[b := old(cache)[b].(dirty := false)]
      ensures ok && b !in old(lh) ==>
                && lh == old(lh) + [b] && ops == old(ops)[p := old(ops)[p] + 1]
                && cache == old(cache)[b := old(cache)[b].(dirty := false, refcnt := old(cache)[b].refcnt + 1)]
    {
      if |lh| >= LOGBLOCKS {
        return false;
      }
      ghost var s := Now();
      var i := 0;
      while i < |lh| && lh[i] != b
        invariant 0 <= i <= |lh|
        invariant forall j :: 0 <= j < i ==> lh[j] != b
      {
        i := i + 1;
      }
      cache := cache[b := cache[b].(dirty := false)];
      if i == |lh| {
        lh := lh + [b];
        cache := cache[b := cache[b].(refcnt := cache[b].refcnt + 1)];
        ops := ops[p := ops[p] + 1];
      }
      assert Now() == DoLogWrite(s, p, b);
      Record(s, LogWrite(p, b));
      return true;
    }

    // ----- log.c: the parts of a commit -----

    /** memmove and bwrite of one turn of write_log. */
    method CopyToSlot(p: Pid, ghost bs: set<nat>, ghost rs: Others)
      requires Valid() && CanCopy(Now(), p) && Held(Now(), p, bs, rs)
      modifies this
      ensures Valid() && Now() == DoCopy(old(Now())) && Held(Now(), p, bs, rs)
      ensures SilentSince(old(states), old(steps), states, steps)
    {
      ghost var s := Now();
      var to, from := start + 1 + phase.k, cache[lh[phase.k]].data;
      cache := cache[to := cache[to].(data := from)];
      disk := disk[to := cache[to].data];
      phase := WritingLog(phase.k + 1);
      DataKeepsHeld(s, Now(), p, bs, rs, to);
      Record(s, CopyToLog(p));
    }

    /** memmove, bwrite and bunpin of one turn of install_trans. */
    method CopyHome(p: Pid, ghost bs: set<nat>, ghost rs: Others)
      requires Valid() && CanInstall(Now(), p) && Held(Now(), p, bs, rs)
      modifies this
      ensures Valid() && Now() == DoInstall(old(Now())) && Held(Now(), p, bs, rs)
      ensures SilentSince(old(states), old(steps), states, steps)
    {
      ghost var s := Now();
      var dst, from := lh[phase.tail], cache[start + 1 + phase.tail].data;
      cache := cache[dst := cache[dst].(data := from)];
      disk := disk[dst := cache[dst].data];
      if !phase.recovering {
        cache := cache[dst := cache[dst].(refcnt := cache[dst].refcnt - 1)];
      }
      phase := Installing(phase.recovering, phase.tail + 1);
      assert Now() == DoInstall(s);
      DataKeepsHeld(s, Now(), p, bs, rs, dst);
      Record(s, InstallOne(p));
    }


    /** The header buffer as write_head fills it in. */
    method FillHeader() returns (hb: Block)
      requires start in cache && |cache[start].data| == BLOCKWORDS && |lh| < BLOCKWORDS
      ensures hb == WithList(cache[start].data, lh)
    {
      hb := cache[start].data[0 := |lh|];
      var i := 0;
      while i < |lh|
        invariant 0 <= i <= |lh|
        invariant hb == [|lh|] + lh[..i] + cache[start].data[1 + i..]
      {
        hb := hb[1 + i := lh[i]];
        i := i + 1;
      }
    }

    /** write_head of a transaction: the commit point. */
    method CommitHeader(p: Pid)
      requires Valid() && Enabled(Now(), WriteHead(p))
      modifies this
      ensures Valid() && Now() == DoWriteHead(old(Now()), Installing(false, 0))
      ensures steps == old(steps) + [WriteHead(p)] && states == old(states) + [Now()]
    {
      ghost var s := Now();
      var hb := FillHeader();
      cache := cache[start := cache[start].(data := hb)];
      disk := disk[start := hb];
      phase := Installing(false, 0);
      Record(s, WriteHead(p));
    }

    /** write_head after log.lh.n = 0. */
    method EraseHeader(p: Pid)
      requires Valid() && Enabled(Now(), EraseHead(p))
      modifies this
      ensures Valid() && Now() == DoWriteHead(old(Now()), if old(phase).rec then Running else Finishing)
      ensures SilentSince(old(states), old(steps), states, steps)
    {
      ghost var s := Now();
      var hb := FillHeader();
      cache := cache[start := cache[start].(data := hb)];
      disk := disk[start := hb];
      phase := if phase.rec then Running else Finishing;
      Record(s, EraseHead(p));
    }

    /** log.lh.n = 0. */
    method ClearLh()
      requires Valid() && Enabled(Now(), ClearHead)
      modifies this
      ensures Valid() && Now() == old(Now()).(lh := [], phase := Erasing(old(phase).recovering))
      ensures SilentSince(old(states), old(steps), states, steps)
    {
      ghost var s := Now();
      lh, phase := [], Erasing(phase.recovering);
      Record(s, ClearHead);
    }

    /** read_head's loop. */
    method LoadLh(p: Pid)
      requires Valid() && Enabled(Now(), ReadHead(p))
      requires |cache[start].data| == BLOCKWORDS && cache[start].data[0] < BLOCKWORDS
      modifies this
      ensures Valid()
      ensures Now() == old(Now()).(lh := Listed(old(cache)[start].data), phase := Installing(true, 0))
      ensures SilentSince(old(states), old(steps), states, steps)
    {
      ghost var s := Now();
      var header := cache[start].data;
      var list, i := [], 0;
      while i < header[0]
        invariant 0 <= i <= header[0]
        invariant list == header[1..1 + i]
      {
        list := list + [header[1 + i]];
        i := i + 1;
      }
      lh, phase := list, Installing(true, 0);
      Record(s, ReadHead(p));
    }

    // ----- log.c: write_log and install_trans -----

    /** The two bread calls of a turn: the log block, then a home block that is pinned or for which a
        buffer is left. */
    method BreadPair(p: Pid, slot: nat, home: nat, ghost rs: Others) returns (out: Outcome)
      requires Valid() && slot < |disk| && home < |disk| && slot != home && Held(Now(), p, {}, rs)
      requires slot !in rs && (Pinned(Now(), home) || (Unpinned(Now()) == |lh| && rs == map[]))
      modifies this
      ensures Valid() && SilentSince(old(states), old(steps), states, steps)
      ensures out.NoBuffer? <==> !CanGet(old(Now()), slot)
      ensures out.Sleeps? <==> CanGet(old(Now()), slot) && LockOf(rs, home).Some?
      ensures SameLog(old(Now()), Now())
      ensures out.Done? ==> Held(Now(), p, {slot, home}, rs)
    {
      out := Bread(p, slot, {}, rs);
      if out.Done? {
        SecondBuffer(p, slot, home, rs);
        label First:
        out := Bread(p, home, {} + {slot}, rs);
        SilentTwice(old(states), old(steps), old@First(states), old@First(steps), states, steps);
        assert {} + {slot} + {home} == {slot, home};
      }
    }

    lemma SecondBuffer(p: Pid, slot: nat, home: nat, rs: Others)
      requires Valid() && Held(Now(), p, {} + {slot}, rs)
      requires Pinned(Now(), home) || (Unpinned(Now()) == |lh| && rs == map[])
      ensures CanGet(Now(), home)
    {
      NowIsInv();
      if !Pinned(Now(), home) {
        BufferLeft(Now(), p, {} + {slot}, rs, home);
        assert Taken(Now(), rs) + ({} + {slot}) == {slot};
      }
    }

    method BrelsePair(p: Pid, slot: nat, home: nat, ghost rs: Others)
      requires Valid() && Held(Now(), p, {slot, home}, rs) && slot != home && !phase.Running?
      modifies this
      ensures Valid() && SilentSince(old(states), old(steps), states, steps)
      ensures SameLog(old(Now()), Now()) && Held(Now(), p, {}, rs)
    {
      NothingDirty();
      Brelse(p, home, {slot, home}, rs);
      NothingDirty();
      label First:
      Brelse(p, slot, {slot, home} - {home}, rs);
      SilentTwice(old(states), old(steps), old@First(states), old@First(steps), states, steps);
      assert {slot, home} - {home} - {slot} == {};
    }

    lemma TurnFacts(p: Pid, rs: Others)
      requires Valid() && phase.WritingLog? && phase.k < |lh| && Held(Now(), p, {}, rs) && AtHome(Now(), rs)
      ensures Slot(Now(), phase.k) < |disk| && lh[phase.k] != Slot(Now(), phase.k) && lh[phase.k] < |disk|
      ensures Slot(Now(), phase.k) !in rs && Pinned(Now(), lh[phase.k])
      ensures CanGet(Now(), Slot(Now(), phase.k)) <==> Room(Now(), rs)
    {
      NowIsInv();
      LoggedIsCached(Now(), phase.k);
      BufferForSlot(Now(), p, phase.k, rs);
    }

    /** One turn of write_log. */
    method WriteLogTurn(p: Pid, ghost rs: Others) returns (out: Outcome)
      requires Valid() && phase.WritingLog? && phase.k < |lh| && Held(Now(), p, {}, rs) && AtHome(Now(), rs)
      modifies this
      ensures Valid() && SilentSince(old(states), old(steps), states, steps)
      ensures out.NoBuffer? <==> !Room(old(Now()), rs)
      ensures out.Sleeps? <==> Room(old(Now()), rs) && LockOf(rs, old(lh)[old(phase).k]).Some?
      ensures lh == old(lh) && AtHome(Now(), rs)
      ensures out.Done? ==> Held(Now(), p, {}, rs) && phase == WritingLog(old(phase).k + 1)
    {
      TurnFacts(p, rs);
      var slot, home := start + 1 + phase.k, lh[phase.k];
      out := BreadPair(p, slot, home, rs);
      if out.Done? {
        PairIsHeld(Now(), p, slot, home, rs);
        label Locked:
        CopyToSlot(p, {slot, home}, rs);
        assert phase == WritingLog(old(phase).k + 1) && lh == old(lh);
        SilentTwice(old(states), old(steps), old@Locked(states), old@Locked(steps), states, steps);
        label Copied:
        BrelsePair(p, slot, home, rs);
        SilentTwice(old(states), old(steps), old@Copied(states), old@Copied(steps), states, steps);
      }
    }

    /** Outside a transaction no buffer holds an unlogged change. */
    lemma NothingDirty()
      requires Valid() && !phase.Running?
      ensures forall b :: b in cache ==> !cache[b].dirty
    {
      NowIsInv();
    }

    /** write_log, while the other processes keep the buffers rs.  bget panics exactly when the blocks of the
        transaction and these buffers are as many as there are buffers; otherwise it sleeps exactly when one of
        its blocks is locked. */
    method WriteLog(p: Pid, ghost rs: Others) returns (out: Outcome)
      requires Valid() && phase == WritingLog(0) && lh != [] && Held(Now(), p, {}, rs) && AtHome(Now(), rs)
      modifies this
      ensures Valid() && SilentSince(old(states), old(steps), states, steps)
      ensures out.NoBuffer? <==> !Room(old(Now()), rs)
      ensures out.Sleeps? <==> Room(old(Now()), rs) && Contended(old(lh), rs)
      ensures lh == old(lh) && AtHome(Now(), rs)
      ensures out.Done? ==> phase == WritingLog(|lh|) && Held(Now(), p, {}, rs)
    {
      var tail := 0;
      ghost var s := Now();
      SilentNone(states, steps);
      while tail < |lh|
        invariant Valid() && SilentSince(old(states), old(steps), states, steps)
        invariant tail <= |lh| && phase == WritingLog(tail) && lh == s.lh && Held(Now(), p, {}, rs)
        invariant AtHome(Now(), rs) && (tail > 0 ==> Room(s, rs))
        invariant forall j :: 0 <= j < tail ==> LockOf(rs, lh[j]).None?
      {
        SameRoom(s, Now(), rs);
        label Turn:
        out := WriteLogTurn(p, rs);
        SilentTwice(old(states), old(steps), old@Turn(states), old@Turn(steps), states, steps);
        if !out.Done? {
          return;
        }
        tail := tail + 1;
      }
      return Done;
    }

    lemma InstallFacts(p: Pid, rs: Others)
      requires Valid() && phase.Installing? && phase.tail < |lh| && Held(Now(), p, {}, rs) && AtHome(Now(), rs)
      requires Room(Now(), rs) && (phase.recovering ==> rs == map[])
      ensures Slot(Now(), phase.tail) < |disk| && lh[phase.tail] != Slot(Now(), phase.tail) && lh[phase.tail] < |disk|
      ensures Slot(Now(), phase.tail) !in rs && CanGet(Now(), Slot(Now(), phase.tail))
      ensures if phase.recovering then Unpinned(Now()) == |lh| else Pinned(Now(), lh[phase.tail])
    {
      NowIsInv();
      assert Spare(0, Now());
      assert Taken(Now(), rs) + {} == Taken(Now(), rs);
      SlotIsReserved(Now(), phase.tail);
      BufferLeft(Now(), p, {}, rs, Slot(Now(), phase.tail));
    }

    /** One turn of install_trans. */
    method InstallTurn(p: Pid, ghost rs: Others) returns (out: Outcome)
      requires Valid() && phase.Installing? && phase.tail < |lh| && Held(Now(), p, {}, rs) && AtHome(Now(), rs)
      requires Room(Now(), rs) && (phase.recovering ==> rs == map[])
      modifies this
      ensures Valid() && SilentSince(old(states), old(steps), states, steps)
      ensures !out.NoBuffer? && (out.Sleeps? <==> LockOf(rs, old(lh)[old(phase).tail]).Some?)
      ensures lh == old(lh) && AtHome(Now(), rs)
      ensures out.Done? ==> Held(Now(), p, {}, rs) && Room(Now(), rs)
      ensures out.Done? ==> phase == Installing(old(phase).recovering, old(phase).tail + 1)
    {
      InstallFacts(p, rs);
      ghost var s := Now();
      var slot, home := start + 1 + phase.tail, lh[phase.tail];
      out := BreadPair(p, slot, home, rs);
      if out.Done? {
        PairIsHeld(Now(), p, slot, home, rs);
        HeldIsReferenced(p, home, {slot, home}, rs);
        label Locked:
        CopyHome(p, {slot, home}, rs);
        assert phase == Installing(old(phase).recovering, old(phase).tail + 1) && lh == old(lh);
        SilentTwice(old(states), old(steps), old@Locked(states), old@Locked(steps), states, steps);
        label Copied:
        BrelsePair(p, slot, home, rs);
        SilentTwice(old(states), old(steps), old@Copied(states), old@Copied(steps), states, steps);
        SameRoom(s, Now(), rs);
      }
    }

    /** install_trans. */
    method InstallTrans(p: Pid, ghost rs: Others) returns (out: Outcome)
      requires Valid() && phase.Installing? && phase.tail == 0 && Held(Now(), p, {}, rs) && AtHome(Now(), rs)
      requires Room(Now(), rs) && (phase.recovering ==> rs == map[])
      modifies this
      ensures Valid() && SilentSince(old(states), old(steps), states, steps)
      ensures !out.NoBuffer? && (out.Sleeps? <==> Contended(old(lh), rs))
      ensures lh == old(lh) && AtHome(Now(), rs)
      ensures out.Done? ==> Held(Now(), p, {}, rs) && Room(Now(), rs)
      ensures out.Done? ==> phase == Installing(old(phase).recovering, |lh|)
    {
      var tail := 0;
      SilentNone(states, steps);
      while tail < |lh|
        invariant Valid() && SilentSince(old(states), old(steps), states, steps)
        invariant tail <= |lh| && phase == Installing(old(phase).recovering, tail)
        invariant lh == old(lh) && Held(Now(), p, {}, rs) && Room(Now(), rs) && AtHome(Now(), rs)
        invariant forall j :: 0 <= j < tail ==> LockOf(rs, lh[j]).None?
      {
        label Turn:
        out := InstallTurn(p, rs);
        SilentTwice(old(states), old(steps), old@Turn(states), old@Turn(steps), states, steps);
        if !out.Done? {
          return;
        }
        tail := tail + 1;
      }
      return Done;
    }

    lemma HeaderFacts(p: Pid, rs: Others)
      requires Valid() && Held(Now(), p, {}, rs) && AtHome(Now(), rs) && Room(Now(), rs)
      ensures start < |disk| && CanGet(Now(), start) && start !in rs
    {
      NowIsInv();
      assert !Home(Now(), start) && Spare(0, Now());
      assert Taken(Now(), rs) + {} == Taken(Now(), rs);
      BufferLeft(Now(), p, {}, rs, start);
    }

    /** The header is read and locked. */
    method BreadHeader(p: Pid, ghost rs: Others)
      requires Valid() && Held(Now(), p, {}, rs) && AtHome(Now(), rs) && Room(Now(), rs)
      modifies this
      ensures Valid() && SilentSince(old(states), old(steps), states, steps)
      ensures SameLog(old(Now()), Now()) && Held(Now(), p, {start}, rs)
      ensures HoldsHeader(Now(), p) && cache[start].data == disk[start] && disk[start][0] < BLOCKWORDS
    {
      HeaderFacts(p, rs);
      var out := Bread(p, start, {}, rs);
      assert {} + {start} == {start};
      HeaderIsClean(p, rs);
    }

    lemma HeaderIsClean(p: Pid, rs: Others)
      requires Valid() && Held(Now(), p, {start}, rs)
      ensures HoldsHeader(Now(), p) && cache[start].data == disk[start] && disk[start][0] < BLOCKWORDS
    {
      NowIsInv();
      HeaderMatchesDisk(Now(), p, rs);
    }

    // ----- log.c: commit and recovery -----

    /** install_trans, log.lh.n = 0, write_head. */
    method InstallAndErase(p: Pid, ghost rs: Others)
      requires Valid() && phase.Installing? && phase.tail == 0 && Held(Now(), p, {}, rs) && AtHome(Now(), rs)
      requires Room(Now(), rs) && !Contended(lh, rs) && (phase.recovering ==> rs == map[])
      modifies this
      ensures Valid() && SilentSince(old(states), old(steps), states, steps)
      ensures lh == [] && phase == if old(phase).recovering then Running else Finishing
      ensures Held(Now(), p, {}, rs)
    {
      var out := InstallTrans(p, rs);
      ghost var s := Now();
      label Installed:
      ClearLh();
      SilentTwice(old(states), old(steps), old@Installed(states), old@Installed(steps), states, steps);
      SameHeld(s, Now(), p, {}, rs);
      SameRoom(s, Now(), rs);
      label Cleared:
      EraseLog(p, rs);
      SilentTwice(old(states), old(steps), old@Cleared(states), old@Cleared(steps), states, steps);
    }

    /** write_head of the empty log, with its bread and brelse. */
    method EraseLog(p: Pid, ghost rs: Others)
      requires Valid() && phase.Erasing? && lh == [] && Held(Now(), p, {}, rs) && AtHome(Now(), rs) && Room(Now(), rs)
      modifies this
      ensures Valid() && SilentSince(old(states), old(steps), states, steps)
      ensures lh == [] && phase == (if old(phase).rec then Running else Finishing) && Held(Now(), p, {}, rs)
    {
      BreadHeader(p, rs);
      ghost var s := Now();
      label Locked:
      EraseHeader(p);
      SilentTwice(old(states), old(steps), old@Locked(states), old@Locked(steps), states, steps);
      DataKeepsHeld(s, Now(), p, {start}, rs, start);
      label Erased:
      BrelseHeader(p, rs);
      SilentTwice(old(states), old(steps), old@Erased(states), old@Erased(steps), states, steps);
    }

    method BrelseHeader(p: Pid, ghost rs: Others)
      requires Valid() && Held(Now(), p, {start}, rs)
      modifies this
      ensures Valid() && SilentSince(old(states), old(steps), states, steps)
      ensures SameLog(old(Now()), Now()) && Held(Now(), p, {}, rs)
    {
      HeaderNotDirty(p, rs);
      Brelse(p, start, {start}, rs);
      assert {start} - {start} == {};
    }

    lemma HeaderNotDirty(p: Pid, rs: Others)
      requires Valid() && Held(Now(), p, {start}, rs)
      ensures !cache[start].dirty
    {
      NowIsInv();
      assert !Home(Now(), start);
    }

    /** write_head of a transaction, with its bread and brelse. */
    method WriteHeadBlock(p: Pid, ghost rs: Others) returns (ghost g: nat)
      requires Valid() && Held(Now(), p, {}, rs) && AtHome(Now(), rs) && Room(Now(), rs) && phase == WritingLog(|lh|)
      modifies this
      ensures Valid() && OneCommit(old(states), old(steps), states, steps, g)
      ensures lh == old(lh) && phase == Installing(false, 0) && Held(Now(), p, {}, rs)
      ensures AtHome(Now(), rs) && Room(Now(), rs)
    {
      ghost var s := Now();
      BreadHeader(p, rs);
      g := |steps|;
      ghost var s1 := Now();
      label Locked:
      CommitHeader(p);
      DataKeepsHeld(s1, Now(), p, {start}, rs, start);
      label Written:
      BrelseHeader(p, rs);
      CommitBetween(old(states), old(steps), old@Locked(states), old@Locked(steps), old@Written(states),
                    old@Written(steps), states, steps);
      SameRoom(s, Now(), rs);
    }

    /** commit of a transaction that is not empty. */
    method CommitBlocks(p: Pid, ghost rs: Others) returns (out: Outcome, ghost g: nat)
      requires Valid() && Held(Now(), p, {}, rs) && AtHome(Now(), rs) && lh != [] && phase == WritingLog(0)
      modifies this
      ensures Valid()
      ensures out.NoBuffer? <==> !Room(old(Now()), rs)
      ensures out.Sleeps? <==> Room(old(Now()), rs) && Contended(old(lh), rs)
      ensures out.Done? ==> phase == Finishing && lh == [] && Held(Now(), p, {}, rs)
      ensures if out.Done? then OneCommit(old(states), old(steps), states, steps, g)
              else SilentSince(old(states), old(steps), states, steps) && g == |steps|
    {
      ghost var s := Now();
      out := WriteLog(p, rs);
      g := |steps|;
      if out.Done? {
        SameRoom(s, Now(), rs);
        label Logged:
        g := WriteHeadBlock(p, rs);
        label Written:
        InstallAndErase(p, rs);
        CommitAround(old(states), old(steps), old@Logged(states), old@Logged(steps), old@Written(states),
                     old@Written(steps), states, steps, g);
      }
    }

    /** commit, while the other processes keep the buffers rs.  A failure anywhere inside leaves a disk that
        recovers to the blocks before the transaction or to the blocks after it; when commit returns it is the
        blocks after it.  bget panics exactly when the blocks of the transaction and the buffers of the others
        are as many as there are buffers. */
    method Commit(p: Pid, ghost rs: Others) returns (out: Outcome)
      requires Valid() && Held(Now(), p, {}, rs) && AtHome(Now(), rs)
      requires phase == if lh == [] then Finishing else WritingLog(0)
      modifies this
      ensures Valid() && old(states) <= states && AllShaped(states)
      ensures out.NoBuffer? <==> old(lh) != [] && !Room(old(Now()), rs)
      ensures out.Sleeps? <==> Room(old(Now()), rs) && Contended(old(lh), rs)
      ensures out.Done? ==> phase == Finishing && lh == [] && Held(Now(), p, {}, rs)
      ensures BeforeOrAfter(states, |old(steps)|)
      ensures out.Done? ==> Committed(states, |old(steps)|)
    {
      ghost var m := |steps|;
      if lh == [] {
        assert Trace(0, steps);
        RunIsShaped(states, steps);
        EmptyCommit();
        return Done;
      }
      ghost var g: nat;
      out, g := CommitBlocks(p, rs);
      assert Since(0, steps) && Trace(0, steps);
      RunIsShaped(states, steps);
      CommitTrace(states, steps, m, g);
    }

    lemma EmptyCommit()
      requires Valid() && phase.Finishing? && AllShaped(states)
      ensures BeforeOrAfter(states, |steps|) && Committed(states, |steps|)
    {
      NowIsInv();
      forall b | 0 <= b < |disk| ensures Durable(Now())[b] == Current(Now())[b] {
        if Home(Now(), b) && b in cache && cache[b].valid {
          QuietCache(Now(), b);
        }
      }
    }

    /** recover_from_log, before any other process runs.  Wherever it is interrupted, the disk still recovers to
        the same blocks, and when it returns they are in their home locations. */
    method RecoverFromLog(p: Pid)
      requires Valid() && phase.Booting? && Held(Now(), p, {}, map[])
      modifies this
      ensures Valid() && SilentSince(old(states), old(steps), states, steps)
      ensures phase == Running && lh == [] && Held(Now(), p, {}, map[]) && AllShaped(states)
      ensures |old(steps)| < |states| && KeepsDurable(states, |old(steps)|) && HomesInstalled(states, |old(steps)|)
    {
      ghost var m := |steps|;
      BootFacts();
      NothingTaken(Now());
      BreadHeader(p, map[]);
      ghost var s := Now();
      label Locked:
      LoadLh(p);
      SilentTwice(old(states), old(steps), old@Locked(states), old@Locked(steps), states, steps);
      SameHeld(s, Now(), p, {start}, map[]);
      label Loaded:
      BrelseHeader(p, map[]);
      SilentTwice(old(states), old(steps), old@Loaded(states), old@Loaded(steps), states, steps);
      NothingTaken(Now());
      label Released:
      InstallAndErase(p, map[]);
      SilentTwice(old(states), old(steps), old@Released(states), old@Released(steps), states, steps);
      assert Since(0, steps) && Trace(0, steps);
      RunIsShaped(states, steps);
      SilentTrace(states, steps, m);
      RunningInstalled(states, steps, m);
    }

    lemma BootFacts()
      requires Valid() && phase.Booting?
      ensures lh == []
    {
      NowIsInv();
    }
  }

  // ----- what a crash finds during commit and recovery -----

  /** After position m, every disk recovers to the same blocks. */
  ghost predicate KeepsDurable(states: seq<State>, m: nat)
    requires AllShaped(states) && m < |states|
  {
    forall i :: m < i < |states| ==> Durable(states[i]) == Durable(states[m])
  }

  /** After position m, every disk recovers to the blocks durable at m or to those current at m. */
  ghost predicate BeforeOrAfter(states: seq<State>, m: nat)
    requires AllShaped(states) && m < |states|
  {
    forall i :: m < i < |states| ==>
      Durable(states[i]) == Durable(states[m]) || Durable(states[i]) == Current(states[m])
  }

  /** In the end, what was current at m is durable and still current. */
  ghost predicate Committed(states: seq<State>, m: nat)
    requires AllShaped(states) && m < |states|
  {
    var last := states[|states| - 1];
    Durable(last) == Current(states[m]) && Current(last) == Current(states[m])
  }

  /** In the end, every home block on disk is what recovery makes of the disk at m. */
  ghost predicate HomesInstalled(states: seq<State>, m: nat)
    requires AllShaped(states) && m < |states|
  {
    var last := states[|states| - 1];
    forall b :: 0 <= b < |last.disk| && Home(last, b) ==>
      b < |Durable(states[m])| && last.disk[b] == Durable(states[m])[b]
  }

  lemma SilentMove(states: seq<State>, steps: seq<Step>, i: nat)
    requires Run(states, steps) && i < |steps| && EventOf(steps[i]).Silent?
    ensures Shape(states[i]) && Shape(states[i + 1])
    ensures Durable(states[i + 1]) == Durable(states[i]) && Current(states[i + 1]) == Current(states[i])
  {
    RunMoves(states, steps, i);
  }

  /** A silent stretch of a run leaves the store as it was. */
  lemma {:induction false} SilentStretch(states: seq<State>, steps: seq<Step>, m: nat, n: nat)
    requires Run(states, steps) && AllShaped(states) && m <= n <= |steps|
    requires forall i :: m <= i < n ==> EventOf(steps[i]).Silent?
    ensures Durable(states[n]) == Durable(states[m]) && Current(states[n]) == Current(states[m])
    decreases n - m
  {
    if m < n {
      var i := n - 1;
      assert EventOf(steps[i]).Silent?;
      SilentStretch(states, steps, m, i);
      SilentMove(states, steps, i);
    }
  }

  lemma SilentTrace(states: seq<State>, steps: seq<Step>, m: nat)
    requires Run(states, steps) && AllShaped(states) && m <= |steps|
    requires forall i :: m <= i < |steps| ==> EventOf(steps[i]).Silent?
    ensures KeepsDurable(states, m)
  {
    forall i | m < i < |states| ensures Durable(states[i]) == Durable(states[m]) {
      SilentStretch(states, steps, m, i);
    }
  }

  lemma RunningInstalled(states: seq<State>, steps: seq<Step>, m: nat)
    requires Run(states, steps) && AllShaped(states) && m <= |steps| && states[|steps|].phase.Running?
    requires KeepsDurable(states, m)
    ensures HomesInstalled(states, m)
  {
    forall b | 0 <= b < |states[|steps|].disk| && Home(states[|steps|], b)
      ensures b < |Durable(states[m])| && states[|steps|].disk[b] == Durable(states[m])[b]
    {
      RunningDiskIsDurable(states, steps, |steps|, b);
    }
  }

  /** A trace that is silent but for a header write at g, if it gets that far. */
  lemma CommitTrace(states: seq<State>, steps: seq<Step>, m: nat, g: nat)
    requires Run(states, steps) && AllShaped(states) && m <= g <= |steps|
    requires forall i :: m <= i < |steps| && i != g ==> EventOf(steps[i]).Silent?
    requires g < |steps| ==> steps[g].WriteHead?
    ensures BeforeOrAfter(states, m)
    ensures g < |steps| ==> Committed(states, m)
  {
    forall i | m < i < |states|
      ensures Durable(states[i]) == Durable(states[m]) || Durable(states[i]) == Current(states[m])
    {
      CommitTraceAt(states, steps, m, g, i);
    }
    CommitTraceAt(states, steps, m, g, |steps|);
  }

  lemma CommitTraceAt(states: seq<State>, steps: seq<Step>, m: nat, g: nat, i: nat)
    requires Run(states, steps) && AllShaped(states) && m <= g <= |steps| && m <= i <= |steps|
    requires forall i :: m <= i < |steps| && i != g ==> EventOf(steps[i]).Silent?
    requires g < |steps| ==> steps[g].WriteHead?
    ensures Durable(states[i]) == if i <= g then Durable(states[m]) else Current(states[m])
    ensures Current(states[i]) == Current(states[m])
  {
    if i <= g {
      SilentStretch(states, steps, m, i);
    } else {
      SilentStretch(states, steps, m, g);
      RunMoves(states, steps, g);
      HeaderWriteCommits(steps[g]);
      SilentStretch(states, steps, g + 1, i);
    }
  }

  lemma HeaderMatchesDisk(s: State, p: Pid, rs: Others)
    requires Inv(s) && Held(s, p, {s.start}, rs)
    ensures HoldsHeader(s, p) && s.cache[s.start].data == s.disk[s.start] && s.disk[s.start][0] < BLOCKWORDS
  {
    assert Grip(0, s);
    assert !Home(s, s.start) && !Pinned(s, s.start);
    assert s.start in {s.start};
  }

  lemma PairIsHeld(s: State, p: Pid, slot: nat, home: nat, rs: Others)
    requires Held(s, p, {slot, home}, rs)
    ensures Holds(s, p, slot) && Holds(s, p, home)
  {
    assert Grip(0, s);
    assert slot in {slot, home} && home in {slot, home};
  }

  /** The blocks of a transaction that is being written to the log are cached and referenced, and
      apart from their slots. */
  lemma LoggedIsCached(s: State, k: nat)
    requires Inv(s) && s.phase == WritingLog(k) && k < |s.lh|
    ensures Slot(s, k) < |s.disk| && s.lh[k] != Slot(s, k) && s.lh[k] < |s.disk|
    ensures Pinned(s, s.lh[k]) && !Home(s, Slot(s, k))
  {
    SlotIsReserved(s, k);
    assert Pinned(s, s.lh[k]);
  }

  // ----- how many buffers a commit needs -----

  lemma TakenIsReferenced(s: State, p: Pid, bs: set<nat>, rs: Others, c: nat)
    requires CacheInv(s) && Held(s, p, bs, rs) && Unpinned(s) <= |s.lh| && c in s.cache
    ensures s.cache[c].refcnt > 0 <==> c in Taken(s, rs) + bs
  {
    assert Grip(0, s);
    assert Pinned(s, c) <==> c in PinnedSet(s, Unpinned(s));
    assert c in rs ==> |s.cache[c].waiters| > 0;
    assert c in bs ==> p in s.cache[c].waiters;
  }

  lemma TakenIsCached(s: State, p: Pid, bs: set<nat>, rs: Others)
    requires CacheInv(s) && Held(s, p, bs, rs) && Unpinned(s) <= |s.lh|
    ensures Taken(s, rs) + bs <= s.cache.Keys
  {
    assert Grip(0, s);
  }

  /** bget succeeds exactly for a cached block or with fewer buffers referenced than there are. */
  lemma BufferLeft(s: State, p: Pid, bs: set<nat>, rs: Others, b: nat)
    requires Inv(s) && Held(s, p, bs, rs) && Unpinned(s) <= |s.lh|
    ensures CanGet(s, b) <==> b in s.cache || |Taken(s, rs) + bs| < NBUF
  {
    TakenIsCached(s, p, bs, rs);
    forall c | c in s.cache ensures s.cache[c].refcnt > 0 <==> c in Taken(s, rs) + bs {
      TakenIsReferenced(s, p, bs, rs, c);
    }
    FreeIff(s, Taken(s, rs) + bs, b);
  }

  lemma FreeIff(s: State, used: set<nat>, b: nat)
    requires used <= s.cache.Keys && |s.cache| <= NBUF
    requires forall c :: c in s.cache ==> (s.cache[c].refcnt > 0 <==> c in used)
    ensures CanGet(s, b) <==> b in s.cache || |used| < NBUF
  {
    SubsetCount(used, s.cache.Keys);
    if |used| < NBUF && |s.cache| >= NBUF {
      if s.cache.Keys <= used {
        SubsetCount(s.cache.Keys, used);
      }
      var v :| v in s.cache.Keys && v !in used;
      assert s.cache[v].refcnt == 0;
    }
  }

  /** A transaction as large as the cache leaves no buffer: nothing else can be read. */
  lemma NoBufferLeft(s: State, b: nat)
    requires Inv(s) && Unpinned(s) == 0 && |s.lh| == NBUF && b !in s.lh
    ensures !CanGet(s, b)
  {
    FullCacheIsPinned(s);
    PinnedCount(s, 0);
    SubsetCount(PinnedSet(s, 0), s.cache.Keys);
  }

  /** Fewer pins, and the same buffers of others, leave as much room. */
  lemma SameRoom(s: State, s': State, rs: Others)
    requires s'.lh == [] || (s'.lh == s.lh && Unpinned(s) <= Unpinned(s'))
    ensures Room(s, rs) ==> Room(s', rs)
    ensures s'.lh == s.lh && Unpinned(s') == Unpinned(s) ==> (Room(s', rs) <==> Room(s, rs))
  {
    assert Spare(0, s) && Spare(0, s');
    assert PinnedSet(s', Unpinned(s')) <= PinnedSet(s, Unpinned(s));
    SubsetCount(Taken(s', rs), Taken(s, rs));
  }

  /** Who holds what does not depend on the data and the pins of a buffer. */
  lemma DataKeepsHeld(s: State, s': State, p: Pid, bs: set<nat>, rs: Others, b: nat)
    requires Held(s, p, bs, rs) && b in s.cache && b in s'.cache
    requires s'.cache == s.cache[b := s.cache[b].(data := s'.cache[b].data, refcnt := s'.cache[b].refcnt)]
    ensures Held(s', p, bs, rs)
  {
    assert Grip(0, s);
    assert HeldIn(s'.cache, p, bs, rs);
  }

  lemma SameHeld(s: State, s': State, p: Pid, bs: set<nat>, rs: Others)
    requires Held(s, p, bs, rs) && s'.cache == s.cache
    ensures Held(s', p, bs, rs)
  {
    assert Grip(0, s);
  }

  /** In terms of the machine: the transaction and the other buffers in use are fewer than the buffers. */
  lemma RoomIff(s: State, p: Pid, rs: Others)
    requires Inv(s) && s.phase.WritingLog? && Held(s, p, {}, rs)
    ensures Room(s, rs) <==> |s.lh| + |Readers(s)| < NBUF
  {
    assert Spare(0, s);
    TakenIsCached(s, p, {}, rs);
    forall c ensures c in Referenced(s) <==> c in Taken(s, rs) {
      if c in s.cache {
        TakenIsReferenced(s, p, {}, rs, c);
      }
    }
    assert Referenced(s) == Taken(s, rs);
    ReferencedCount(s);
  }

  lemma NothingTaken(s: State)
    requires Unpinned(s) == |s.lh|
    ensures Room(s, map[]) && AtHome(s, map[]) && !Contended(s.lh, map[])
  {
    assert Taken(s, map[]) == {};
  }

  /** All buffers are taken by home blocks, so a slot is not among them. */
  lemma BufferForSlot(s: State, p: Pid, k: nat, rs: Others)
    requires Inv(s) && s.phase == WritingLog(k) && k < |s.lh| && Held(s, p, {}, rs) && AtHome(s, rs)
    ensures CanGet(s, Slot(s, k)) <==> Room(s, rs)
  {
    assert Grip(0, s);
    SlotIsReserved(s, k);
    BufferLeft(s, p, {}, rs, Slot(s, k));
    assert Taken(s, rs) + {} == Taken(s, rs);
    assert Spare(0, s);
    if !Room(s, rs) {
      assert Taken(s, rs) <= s.cache.Keys;
      SubsetCount(Taken(s, rs), s.cache.Keys);
    }
  }

  lemma GotHit(s: State, p: Pid, b: nat, bs: set<nat>, rs: Others, victim: Option<nat>)
    requires Held(s, p, bs, rs) && b !in bs && CanFetch(s, p, b, victim) && b in s.cache && s.cache[b].lock.None?
    ensures Held(Got(s, p, b, victim), p, bs + {b}, rs) && OnlyRecycled(s, Got(s, p, b, victim))
  {
    assert Grip(0, s);
    assert HeldIn(Got(s, p, b, victim).cache, p, bs + {b}, rs);
  }

  lemma HeldAfterMiss(cache: map<nat, Entry>, cache': map<nat, Entry>, p: Pid, b: nat, bs: set<nat>, rs: Others)
    requires HeldIn(cache, p, bs, rs) && b !in cache && b in cache' && bs <= cache'.Keys && rs.Keys <= cache'.Keys
    requires cache'[b].waiters == {p} && cache'[b].lock == Some(p) && cache'[b].valid
    requires forall c :: c in cache' && c != b ==> c in cache && cache'[c] == cache[c]
    ensures HeldIn(cache', p, bs + {b}, rs)
  {
    assert WaitersOf(rs, b) + {p} == {p};
  }

  function Missed(s: State, p: Pid, b: nat, victim: Option<nat>): map<nat, Entry>
    requires b < |s.disk|
  {
    var kept := if victim.None? then s.cache else s.cache - {victim.value};
    kept[b := Entry(true, s.disk[b], 1, {p}, Some(p), false)]
  }

  lemma GotIsMissed(s: State, p: Pid, b: nat, victim: Option<nat>)
    requires CanFetch(s, p, b, victim) && b !in s.cache
    ensures Got(s, p, b, victim).cache == Missed(s, p, b, victim)
  {
  }

  lemma MissRecycles(s: State, p: Pid, b: nat, victim: Option<nat>)
    requires CanFetch(s, p, b, victim) && b !in s.cache
    ensures OnlyRecycled(s, Got(s, p, b, victim))
  {
    GotIsMissed(s, p, b, victim);
  }

  lemma GotMiss(s: State, p: Pid, b: nat, bs: set<nat>, rs: Others, victim: Option<nat>)
    requires Held(s, p, bs, rs) && b !in bs && CanFetch(s, p, b, victim) && b !in s.cache
    requires victim.Some? ==> victim.value in s.cache && s.cache[victim.value].waiters == {}
    ensures Held(Got(s, p, b, victim), p, bs + {b}, rs)
  {
    assert Grip(0, s);
    assert victim.Some? ==> victim.value !in bs && victim.value !in rs;
    HeldAfterMiss(s.cache, Missed(s, p, b, victim), p, b, bs, rs);
    GotIsMissed(s, p, b, victim);
  }

  lemma GotEffect(s: State, p: Pid, b: nat, bs: set<nat>, rs: Others, victim: Option<nat>)
    requires CacheInv(s) && Held(s, p, bs, rs) && b !in bs && CanFetch(s, p, b, victim)
    requires b in s.cache ==> s.cache[b].lock.None?
    ensures Held(Got(s, p, b, victim), p, bs + {b}, rs) && OnlyRecycled(s, Got(s, p, b, victim))
  {
    if b in s.cache {
      GotHit(s, p, b, bs, rs, victim);
    } else {
      RecycledIsUnpinned(s, p, b, victim);
      MissRecycles(s, p, b, victim);
      GotMiss(s, p, b, bs, rs, victim);
    }
  }
}
