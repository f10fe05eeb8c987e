/** Runs that fill the log: what the theorems say of a full log is about states that are reached. */
module LogRuns {
  import opened Sequences
  import opened AtomicStore
  import opened Options
  import opened LogMachine
  import opened LogInvariant
  import opened LogTheorems

  /** Reaches is looked into only where this is mentioned. */
  ghost predicate Look(n: int, s: State) { true }

  /** Some run from power-on in s0 ends in s. */
  ghost predicate Reaches(s0: State, s: State) {
    forall n: int {:trigger Look(n, s)} :: 0 <= n ==>
      exists states, steps :: Run(states, steps) && states[0] == s0 && states[|steps|] == s
  }

  lemma ReachesStart(s0: State)
    requires Init(s0)
    ensures Reaches(s0, s0)
  {
    assert Run([s0], []);
  }

  lemma RunTo(s0: State, s: State) returns (states: seq<State>, steps: seq<Step>)
    requires Reaches(s0, s)
    ensures Run(states, steps) && states[0] == s0 && states[|steps|] == s
  {
    assert Look(0, s);
    states, steps :| Run(states, steps) && states[0] == s0 && states[|steps|] == s;
  }

  lemma ReachesNext(s0: State, s: State, a: Step, s': State)
    requires Reaches(s0, s) && Enabled(s, a) && s' == Apply(s, a)
    ensures Reaches(s0, s')
  {
    var states, steps := RunTo(s0, s);
    RunExtends(states, steps, a);
    var states', steps' := states + [s'], steps + [a];
    assert Run(states', steps') && states'[0] == s0 && states'[|steps'|] == s';
  }

  lemma ReachedIsInv(s0: State, s: State)
    requires Reaches(s0, s)
    ensures Inv(s)
  {
    var states, steps := RunTo(s0, s);
    RunKeepsInv(states, steps, |steps|);
  }

  // ----- bread and brelse -----

  /** The buffer of a block that process p has read and locked. */
  function LockedBy(p: Pid, v: Block): Entry { Entry(true, v, 1, {p}, Some(p), false) }

  function Kept(s: State, victim: Option<nat>): map<nat, Entry> {
    if victim.None? then s.cache else s.cache - {victim.value}
  }

  /** bread of a block that is not cached. */
  lemma ReachesBread(s0: State, s: State, p: Pid, b: nat, victim: Option<nat>)
    requires Reaches(s0, s) && b !in s.cache && CanFetch(s, p, b, victim)
    ensures Reaches(s0, s.(cache := Kept(s, victim)[b := LockedBy(p, s.disk[b])]))
  {
    var kept := Kept(s, victim);
    var s1 := s.(cache := kept[b := Entry(false, [], 1, {p}, None, false)]);
    ReachesNext(s0, s, Fetch(p, b, victim), s1);
    var s2 := s.(cache := kept[b := Entry(false, [], 1, {p}, Some(p), false)]);
    assert s2.cache == s1.cache[b := Entry(false, [], 1, {p}, Some(p), false)];
    ReachesNext(s0, s1, Lock(p, b), s2);
    var s3 := s.(cache := kept[b := LockedBy(p, s.disk[b])]);
    assert s3.cache == s2.cache[b := LockedBy(p, s.disk[b])];
    ReachesNext(s0, s2, Fill(p, b), s3);
  }

  /** brelse of a buffer that only p holds. */
  lemma ReachesBrelse(s0: State, s: State, p: Pid, b: nat, v: Block, pins: nat)
    requires Reaches(s0, s) && b in s.cache && s.cache[b] == Entry(true, v, 1 + pins, {p}, Some(p), false)
    ensures Reaches(s0, s.(cache := s.cache[b := Entry(true, v, pins, {}, None, false)]))
  {
    var s1 := s.(cache := s.cache[b := Entry(true, v, 1 + pins, {p}, None, false)]);
    ReachesNext(s0, s, Unlock(p, b), s1);
    var s2 := s.(cache := s.cache[b := Entry(true, v, pins, {}, None, false)]);
    assert {p} - {p} == {};
    assert s2.cache == s1.cache[b := Entry(true, v, pins, {}, None, false)];
    ReachesNext(s0, s1, Put(p, b), s2);
  }

  // ----- from power-on to three operations -----

  /** What recovery leaves when the header on disk lists nothing. */
  function Booted(s0: State): State
    requires s0.start < |s0.disk|
  {
    s0.(cache := map[s0.start := Entry(true, s0.disk[s0.start], 0, {}, None, false)], phase := Running)
  }

  lemma EmptyHeader(h: Block)
    requires |h| == BLOCKWORDS && h[0] < BLOCKWORDS && Listed(h) == []
    ensures WithList(h, []) == h
  {
    assert |Listed(h)| == h[0];
  }

  lemma ReachesBooted(s0: State)
    requires Init(s0) && OnDisk(s0) == []
    ensures Reaches(s0, Booted(s0))
  {
    var b, h := s0.start, s0.disk[s0.start];
    ReachesStart(s0);
    ReachesBread(s0, s0, 0, b, None);
    var s1 := s0.(cache := map[b := LockedBy(0, h)]);
    assert s0.cache[b := LockedBy(0, h)] == s1.cache;
    var s2 := s1.(phase := Installing(true, 0));
    ReachesNext(s0, s1, ReadHead(0), s2);
    var s3 := s1.(phase := Erasing(true));
    ReachesNext(s0, s2, ClearHead, s3);
    var s4 := s1.(phase := Running);
    EmptyHeader(h);
    assert s3.disk[b := h] == s3.disk && s3.cache[b := s3.cache[b].(data := h)] == s3.cache;
    ReachesNext(s0, s3, EraseHead(0), s4);
    ReachesBrelse(s0, s4, 0, b, h, 0);
    assert s4.cache[b := Entry(true, h, 0, {}, None, false)] == Booted(s0).cache;
  }

  /** The entries that operation p has added when k blocks are listed: ten at a time. */
  function Share(k: nat, p: nat): nat {
    if k <= p * MAXOPBLOCKS then 0
    else if k >= (p + 1) * MAXOPBLOCKS then MAXOPBLOCKS
    else k - p * MAXOPBLOCKS
  }

  function Shares(k: nat): map<Pid, nat> { map[0 := Share(k, 0), 1 := Share(k, 1), 2 := Share(k, 2)] }

  lemma ReachesBegun(s0: State)
    requires Init(s0) && OnDisk(s0) == []
    ensures Reaches(s0, Booted(s0).(ops := Shares(0)))
  {
    var s := Booted(s0);
    ReachesBooted(s0);
    var s1, s2, s3 := s.(ops := map[0 := 0]), s.(ops := map[0 := 0, 1 := 0]), s.(ops := map[0 := 0, 1 := 0, 2 := 0]);
    assert |s1.ops| == 1 && |s2.ops| == 2;
    ReachesNext(s0, s, BeginOp(0), s1);
    ReachesNext(s0, s1, BeginOp(1), s2);
    ReachesNext(s0, s2, BeginOp(2), s3);
    assert s3.ops == Shares(0);
  }

  // ----- filling the log -----

  /** The buffers of a log that lists l: the listed blocks, each pinned once, and the header until its
      buffer is needed. */
  predicate Buffers(s: State, l: seq<nat>) {
    && (forall b :: b in s.cache ==> (b in l || b == s.start) && !s.cache[b].dirty)
    && (forall i :: 0 <= i < |l| ==> l[i] in s.cache && l[i] < |s.disk|
                                     && s.cache[l[i]] == Entry(true, s.disk[l[i]], 1, {}, None, false))
    && (s.start in s.cache ==> s.cache[s.start].refcnt == 0)
  }

  /** Three operations have listed l between them. */
  predicate Listing(s0: State, s: State, l: seq<nat>) {
    && s.start == s0.start && s.nlog == s0.nlog && s.disk == s0.disk
    && s.lh == l && s.ops == Shares(|l|) && !s.committing && s.phase.Running? && Buffers(s, l)
  }

  /** bget finds a buffer: a spare one, or the header's. */
  function Spare(s: State): Option<nat> { if |s.cache| < NBUF then None else Some(s.start) }

  lemma SpareIsThere(s: State, l: seq<nat>)
    requires Buffers(s, l) && |l| < NBUF
    ensures |s.cache| >= NBUF ==> s.start in s.cache
  {
    if |s.cache| >= NBUF && s.start !in s.cache {
      FirstCount(l, |l|);
      assert s.cache.Keys <= First(l, |l|);
      SubsetCount(s.cache.Keys, First(l, |l|));
    }
  }

  function First(l: seq<nat>, k: nat): set<nat> {
    set i | 0 <= i < k && i < |l| :: l[i]
  }

  lemma {:induction false} FirstCount(l: seq<nat>, k: nat)
    requires k <= |l|
    ensures |First(l, k)| <= k
  {
    if k > 0 {
      FirstCount(l, k - 1);
      assert First(l, k) == First(l, k - 1) + {l[k - 1]};
    } else {
      assert First(l, k) == {};
    }
  }

  /** The state when process p has read, logged and released block b. */
  function LoggedBy(s: State, p: Pid, b: nat, victim: Option<nat>): State
    requires p in s.ops && b < |s.disk|
  {
    s.(cache := Kept(s, victim)[b := Entry(true, s.disk[b], 1, {}, None, false)],
       lh := s.lh + [b], ops := s.ops[p := s.ops[p] + 1])
  }

  lemma ReachesLogged(s0: State, s: State, p: Pid, b: nat, victim: Option<nat>)
    requires Reaches(s0, s) && b !in s.cache && CanFetch(s, p, b, victim) && Home(s, b)
    requires p in s.ops && s.ops[p] < MAXOPBLOCKS && |s.lh| < LOGBLOCKS && b !in s.lh
    ensures Reaches(s0, LoggedBy(s, p, b, victim))
  {
    ReachesBread(s0, s, p, b, victim);
    var kept := Kept(s, victim);
    var s1 := s.(cache := kept[b := LockedBy(p, s.disk[b])]);
    var s2 := s.(cache := kept[b := Entry(true, s.disk[b], 1 + 1, {p}, Some(p), false)],
                 lh := s.lh + [b], ops := s.ops[p := s.ops[p] + 1]);
    assert s2.cache == s1.cache[b := Entry(true, s.disk[b], 1 + 1, {p}, Some(p), false)];
    ReachesNext(s0, s1, LogWrite(p, b), s2);
    ReachesBrelse(s0, s2, p, b, s.disk[b], 1);
    assert s2.cache[b := Entry(true, s.disk[b], 1, {}, None, false)] == LoggedBy(s, p, b, victim).cache;
  }

  lemma NextShare(k: nat)
    requires k < LOGBLOCKS
    ensures k / MAXOPBLOCKS in Shares(k) && Share(k, k / MAXOPBLOCKS) < MAXOPBLOCKS
    ensures var p := k / MAXOPBLOCKS; Shares(k)[p := Shares(k)[p] + 1] == Shares(k + 1)
  {
  }

  lemma MoreBuffers(s: State, s': State, l: seq<nat>, b: nat)
    requires Buffers(s, l) && b !in l && b != s.start && b < |s.disk| && s'.disk == s.disk && s'.start == s.start
    requires s'.cache == Kept(s, Spare(s))[b := Entry(true, s.disk[b], 1, {}, None, false)] && s.start !in l
    ensures Buffers(s', l + [b])
  {
    forall i | 0 <= i < |l + [b]|
      ensures (l + [b])[i] in s'.cache && (l + [b])[i] < |s'.disk|
      ensures s'.cache[(l + [b])[i]] == Entry(true, s.disk[(l + [b])[i]], 1, {}, None, false)
    {
      if i < |l| {
        assert (l + [b])[i] == l[i] && l[i] in s.cache;
      }
    }
    forall c | c in s'.cache ensures c in l + [b] || c == s'.start {
      assert (l + [b])[|l|] == b;
    }
  }

  lemma LoggedIsListing(s0: State, s: State, l: seq<nat>, b: nat)
    requires Listing(s0, s, l) && |l| < LOGBLOCKS && b !in l && b != s.start && b < |s.disk| && s.start !in l
    ensures |l| / MAXOPBLOCKS in s.ops && Listing(s0, LoggedBy(s, |l| / MAXOPBLOCKS, b, Spare(s)), l + [b])
  {
    NextShare(|l|);
    MoreBuffers(s, LoggedBy(s, |l| / MAXOPBLOCKS, b, Spare(s)), l, b);
  }

  lemma SpareIsFetched(s: State, l: seq<nat>, p: Pid, b: nat)
    requires Buffers(s, l) && |l| < NBUF && b !in l && b != s.start && b < |s.disk|
    ensures b !in s.cache && CanFetch(s, p, b, Spare(s))
  {
    SpareIsThere(s, l);
  }

  lemma OneMore(s0: State, s: State, l: seq<nat>, b: nat) returns (s': State)
    requires Reaches(s0, s) && Listing(s0, s, l) && |l| < LOGBLOCKS && s.start !in l && Home(s, b) && b !in l
    requires b != s.start
    ensures Reaches(s0, s') && Listing(s0, s', l + [b])
  {
    var p := |l| / MAXOPBLOCKS;
    NextShare(|l|);
    SpareIsFetched(s, l, p, b);
    LoggedIsListing(s0, s, l, b);
    ReachesLogged(s0, s, p, b, Spare(s));
    s' := LoggedBy(s, p, b, Spare(s));
  }

  lemma SplitList(s: State, l: seq<nat>)
    requires LOGBLOCKS <= s.nlog && HomeList(s, l) && l != []
    ensures var most, b := l[..|l| - 1], l[|l| - 1];
            HomeList(s, most) && Home(s, b) && b !in most && b != s.start && s.start !in most && most + [b] == l
  {
  }

  /** For every list of at most LOGBLOCKS distinct home blocks there is a run in which the log lists it. */
  lemma {:induction false} EveryListIsReached(s0: State, l: seq<nat>) returns (s: State)
    requires Init(s0) && OnDisk(s0) == [] && HomeList(s0, l)
    ensures Reaches(s0, s) && Listing(s0, s, l)
    decreases |l|
  {
    if l == [] {
      ReachesBegun(s0);
      s := Booted(s0).(ops := Shares(0));
    } else {
      SplitList(s0, l);
      var most := l[..|l| - 1];
      var t := EveryListIsReached(s0, most);
      s := OneMore(s0, t, most, l[|l| - 1]);
    }
  }

  // ----- one operation that writes -----

  /** The state when process 0 has written and logged block b. */
  function Wrote(s: State, b: nat, v: Block): State
    requires 0 in s.ops
  {
    s.(cache := s.cache[b := Entry(true, v, 1, {}, None, false)], lh := s.lh + [b], ops := s.ops[0 := s.ops[0] + 1])
  }

  predicate CanWrite(s: State, b: nat, v: Block) {
    && b !in s.cache && |s.cache| < NBUF && Home(s, b) && |v| == BLOCKWORDS && b !in s.lh
    && 0 in s.ops && s.ops[0] < MAXOPBLOCKS && |s.lh| < LOGBLOCKS
  }

  /** Process 0 has written and logged the blocks of l. */
  predicate Working(s0: State, s: State, l: seq<nat>) {
    && s.start == s0.start && s.nlog == s0.nlog && s.disk == s0.disk && s.lh == l && s.ops == map[0 := |l|]
    && !s.committing && s.phase.Running? && |s.cache| <= |l| + 1
    && forall b :: b in s.cache ==> (b in l || b == s.start) && !s.cache[b].dirty
  }

  lemma WroteIsWorking(s0: State, s: State, l: seq<nat>, b: nat, v: Block)
    requires Working(s0, s, l) && |l| < MAXOPBLOCKS && Home(s0, b) && b !in l && b != s0.start && |v| == BLOCKWORDS
    ensures CanWrite(s, b, v) && Working(s0, Wrote(s, b, v), l + [b])
  {
    var s' := Wrote(s, b, v);
    assert s'.cache.Keys == s.cache.Keys + {b};
    assert s'.ops == map[0 := |l| + 1];
    forall c | c in s'.cache ensures (c in l + [b] || c == s'.start) && !s'.cache[c].dirty {
      assert (l + [b])[|l|] == b;
    }
  }

  /** For every list of at most MAXOPBLOCKS distinct home blocks there is a run in which one operation, alone, has
      logged it. */
  lemma {:induction false} EveryWriterIsReached(s0: State, l: seq<nat>) returns (s: State)
    requires Init(s0) && OnDisk(s0) == [] && HomeList(s0, l) && |l| <= MAXOPBLOCKS && LOGBLOCKS <= s0.nlog
    ensures Reaches(s0, s) && Working(s0, s, l)
    decreases |l|
  {
    if l == [] {
      ReachesBooted(s0);
      s := Booted(s0).(ops := map[0 := 0]);
      assert s.cache.Keys == {s0.start};
      ReachesNext(s0, Booted(s0), BeginOp(0), s);
    } else {
      SplitList(s0, l);
      var most, b := l[..|l| - 1], l[|l| - 1];
      var t := EveryWriterIsReached(s0, most);
      WroteIsWorking(s0, t, most, b, s0.disk[b]);
      ReachesLogged(s0, t, 0, b, None);
      s := Wrote(t, b, t.disk[b]);
      assert LoggedBy(t, 0, b, None) == s;
    }
  }

  /** An operation that has logged any blocks does not keep a second one out; it keeps a third one out if and only if
      it has logged any. */
  lemma BeginsBesideWriter(s0: State, l: seq<nat>) returns (s: State, s': State)
    requires Init(s0) && OnDisk(s0) == [] && HomeList(s0, l) && |l| <= MAXOPBLOCKS && LOGBLOCKS <= s0.nlog
    ensures Reaches(s0, s) && s.lh == l && s.ops == map[0 := |l|]
    ensures Enabled(s, BeginOp(1)) && s' == Apply(s, BeginOp(1)) && Reaches(s0, s')
    ensures s'.lh == l && s'.ops == map[0 := |l|, 1 := 0] && (Enabled(s', BeginOp(2)) <==> l == [])
  {
    s := EveryWriterIsReached(s0, l);
    assert |s.ops| == 1;
    s' := s.(ops := s.ops[1 := 0]);
    assert s'.ops == map[0 := |l|, 1 := 0] && |s'.ops| == 2;
    ReachesNext(s0, s, BeginOp(1), s');
  }

  // ----- readers beside the log -----

  /** The buffers of a log that lists l while the processes from 3 on hold the blocks rs. */
  predicate ReadBuffers(s: State, l: seq<nat>, rs: seq<nat>) {
    && (forall b :: b in s.cache ==> (b in l || b in rs || b == s.start) && !s.cache[b].dirty)
    && (forall i :: 0 <= i < |rs| ==> rs[i] in s.cache && rs[i] < |s.disk|
                                      && s.cache[rs[i]] == LockedBy(3 + i, s.disk[rs[i]]))
    && (s.start in s.cache ==> s.cache[s.start].refcnt == 0)
  }

  /** Three operations have listed l, and processes without an operation hold rs. */
  predicate Reading(s0: State, s: State, l: seq<nat>, rs: seq<nat>) {
    && s.start == s0.start && s.nlog == s0.nlog && s.disk == s0.disk
    && s.lh == l && s.ops.Keys == {0, 1, 2} && s.phase.Running? && ReadBuffers(s, l, rs)
  }

  lemma SpareForReader(s: State, l: seq<nat>, rs: seq<nat>)
    requires ReadBuffers(s, l, rs) && |l| + |rs| < NBUF
    ensures |s.cache| >= NBUF ==> s.start in s.cache
  {
    if |s.cache| >= NBUF && s.start !in s.cache {
      FirstCount(l, |l|);
      FirstCount(rs, |rs|);
      var all := First(l, |l|) + First(rs, |rs|);
      assert |all| + |First(l, |l|) * First(rs, |rs|)| == |First(l, |l|)| + |First(rs, |rs|)|;
      assert s.cache.Keys <= all;
      SubsetCount(s.cache.Keys, all);
    }
  }

  /** The state when process p has read block b. */
  function ReadBy(s: State, p: Pid, b: nat, victim: Option<nat>): State
    requires b < |s.disk|
  {
    s.(cache := Kept(s, victim)[b := LockedBy(p, s.disk[b])])
  }

  lemma MoreReadBuffers(s: State, l: seq<nat>, rs: seq<nat>, b: nat)
    requires ReadBuffers(s, l, rs) && b < |s.disk| && b !in l && b !in rs && b != s.start && s.start !in rs
    ensures ReadBuffers(ReadBy(s, 3 + |rs|, b, Spare(s)), l, rs + [b])
  {
    var s' := ReadBy(s, 3 + |rs|, b, Spare(s));
    forall i | 0 <= i < |rs + [b]|
      ensures (rs + [b])[i] in s'.cache && s'.cache[(rs + [b])[i]] == LockedBy(3 + i, s.disk[(rs + [b])[i]])
    {
      if i < |rs| {
        assert (rs + [b])[i] == rs[i] && rs[i] in s.cache;
      }
    }
    forall c | c in s'.cache ensures c in l || c in rs + [b] || c == s'.start {
      assert (rs + [b])[|rs|] == b;
    }
  }

  lemma OneMoreReader(s0: State, s: State, l: seq<nat>, rs: seq<nat>, b: nat) returns (s': State)
    requires Reaches(s0, s) && Reading(s0, s, l, rs) && |l| + |rs| < NBUF && b < |s.disk| && b !in l && b !in rs
    requires b != s.start && s.start !in rs
    ensures Reaches(s0, s') && Reading(s0, s', l, rs + [b])
  {
    SpareForReader(s, l, rs);
    MoreReadBuffers(s, l, rs, b);
    ReachesBread(s0, s, 3 + |rs|, b, Spare(s));
    s' := ReadBy(s, 3 + |rs|, b, Spare(s));
  }

  lemma SplitReads(s: State, l: seq<nat>, rs: seq<nat>)
    requires LOGBLOCKS <= s.nlog && HomeList(s, l + rs) && rs != []
    ensures var most, b := rs[..|rs| - 1], rs[|rs| - 1];
            && HomeList(s, l + most) && Home(s, b) && b !in l && b !in most && b != s.start && s.start !in most
            && most + [b] == rs
  {
    var most, b := rs[..|rs| - 1], rs[|rs| - 1];
    SplitList(s, l + rs);
    assert (l + rs)[..|l + rs| - 1] == l + most && (l + rs)[|l + rs| - 1] == b;
  }

  /** However many of the buffers a transaction needs, there is a run in which readers hold the others. */
  lemma {:induction false} EveryReadIsReached(s0: State, l: seq<nat>, rs: seq<nat>) returns (s: State)
    requires Init(s0) && OnDisk(s0) == [] && HomeList(s0, l + rs) && |l| + |rs| <= NBUF
    ensures Reaches(s0, s) && Reading(s0, s, l, rs)
    decreases |rs|
  {
    if rs == [] {
      assert l + rs == l;
      s := EveryListIsReached(s0, l);
    } else {
      var most, b := rs[..|rs| - 1], rs[|rs| - 1];
      SplitReads(s0, l, rs);
      var t := EveryReadIsReached(s0, l, most);
      s := OneMoreReader(s0, t, l, most, b);
    }
  }

  // ----- what a full log does -----

  /** bread of a block that is cached and that nobody holds. */
  lemma ReachesHit(s0: State, s: State, p: Pid, b: nat, e: Entry)
    requires Reaches(s0, s) && b in s.cache && b < |s.disk| && s.cache[b] == e && e.waiters == {} && e.lock.None?
    ensures Reaches(s0, SetEntry(s, b, e.(refcnt := e.refcnt + 1, waiters := {p}, lock := Some(p))))
  {
    assert {} + {p} == {p};
    var s1 := SetEntry(s, b, e.(refcnt := e.refcnt + 1, waiters := {p}));
    ReachesNext(s0, s, Fetch(p, b, None), s1);
    var s2 := SetEntry(s, b, e.(refcnt := e.refcnt + 1, waiters := {p}, lock := Some(p)));
    assert s2.cache == s1.cache[b := s1.cache[b].(lock := Some(p))];
    ReachesNext(s0, s1, Lock(p, b), s2);
  }

  /** A run in which an operation holds a listed block and log_write panics, although it would only absorb it. */
  lemma AbsorptionPanics(s0: State, l: seq<nat>) returns (s: State)
    requires Init(s0) && OnDisk(s0) == [] && HomeList(s0, l) && |l| == LOGBLOCKS
    ensures Reaches(s0, s) && s.lh == l && 2 in s.ops && Holds(s, 2, l[0]) && !CanLogWrite(s, 2, l[0])
  {
    var t := EveryListIsReached(s0, l);
    var b := l[0];
    var e := t.cache[b];
    ReachesHit(s0, t, 2, b, e);
    s := SetEntry(t, b, e.(refcnt := e.refcnt + 1, waiters := {2}, lock := Some(2)));
  }

  lemma ReachesEnd(s0: State, s: State, p: Pid)
    requires Reaches(s0, s) && s.phase.Running? && p in s.ops && forall b :: b in s.cache ==> !s.cache[b].dirty
    ensures Reaches(s0, DoEnd(s, p))
  {
    ReachesNext(s0, s, EndOp(p), DoEnd(s, p));
  }

  lemma ReachesEnds(s0: State, s: State)
    requires Reaches(s0, s) && s.phase.Running? && s.lh != [] && s.ops.Keys == {0, 1, 2}
    requires forall b :: b in s.cache ==> !s.cache[b].dirty
    ensures Reaches(s0, s.(ops := map[], committing := true, phase := WritingLog(0)))
  {
    var t1, t2 := s.(ops := s.ops - {0}), s.(ops := s.ops - {0} - {1});
    assert 1 in t1.ops && 2 in t2.ops;
    ReachesEnd(s0, s, 0);
    ReachesEnd(s0, t1, 1);
    assert t2.ops - {2} == map[];
    ReachesEnd(s0, t2, 2);
  }

  /** A run in which commit begins with a full log: it writes nothing to the disk. */
  lemma FullCommitStalls(s0: State, l: seq<nat>) returns (s: State)
    requires Init(s0) && OnDisk(s0) == [] && HomeList(s0, l) && |l| == LOGBLOCKS
    ensures Reaches(s0, s) && s.lh == l && s.phase == WritingLog(0)
    ensures forall p, victim :: !CanFetch(s, p, Slot(s, 0), victim)
  {
    var t := EveryListIsReached(s0, l);
    assert t.ops.Keys == {0, 1, 2};
    ReachesEnds(s0, t);
    s := t.(ops := map[], committing := true, phase := WritingLog(0));
    ReachedIsInv(s0, s);
    FullTransactionWritesNoSlot(s);
  }

  /** A run in which commit begins with a transaction of any size while readers hold all other buffers: bget
      panics at the first slot. */
  lemma ReadersStallCommit(s0: State, l: seq<nat>, rs: seq<nat>) returns (s: State)
    requires Init(s0) && OnDisk(s0) == [] && HomeList(s0, l + rs) && l != [] && |l| + |rs| == NBUF
    ensures Reaches(s0, s) && s.lh == l && s.phase == WritingLog(0)
    ensures forall p, victim :: !CanFetch(s, p, Slot(s, 0), victim)
  {
    var t := EveryReadIsReached(s0, l, rs);
    ReachesEnds(s0, t);
    s := t.(ops := map[], committing := true, phase := WritingLog(0));
    ReachedIsInv(s0, s);
    SlotNotRead(s, l, rs);
    ReadersAreCounted(s, l, rs);
    forall p, victim ensures !CanFetch(s, p, Slot(s, 0), victim) {
      SlotHasBufferIff(s, 0, p);
    }
  }

  lemma ReadersAreCounted(s: State, l: seq<nat>, rs: seq<nat>)
    requires ReadBuffers(s, l, rs) && s.lh == l && HomeList(s, l + rs)
    ensures |Readers(s)| >= |rs|
  {
    forall i | 0 <= i < |rs| ensures rs[i] in Readers(s) {
      DistinctParts(l, rs, i);
      assert 3 + i in s.cache[rs[i]].waiters;
    }
    DistinctTail(l, rs);
    FirstIsAll(rs, |rs|);
    SubsetCount(First(rs, |rs|), Readers(s));
  }

  lemma DistinctParts(l: seq<nat>, rs: seq<nat>, i: nat)
    requires Distinct(l + rs) && i < |rs|
    ensures rs[i] !in l
  {
    assert (l + rs)[|l| + i] == rs[i];
    assert forall j :: 0 <= j < |l| ==> (l + rs)[j] == l[j];
  }

  lemma SlotNotRead(s: State, l: seq<nat>, rs: seq<nat>)
    requires LOGBLOCKS <= s.nlog && ReadBuffers(s, l, rs) && HomeList(s, l + rs)
    ensures Slot(s, 0) !in s.cache
  {
    assert !Home(s, Slot(s, 0));
    assert forall i :: 0 <= i < |l| ==> (l + rs)[i] == l[i];
    assert forall i :: 0 <= i < |rs| ==> (l + rs)[|l| + i] == rs[i];
  }

  lemma DistinctTail(l: seq<nat>, rs: seq<nat>)
    requires Distinct(l + rs)
    ensures Distinct(rs)
  {
    forall i, j | 0 <= i < j < |rs| ensures rs[i] != rs[j] {
      assert (l + rs)[|l| + i] == rs[i] && (l + rs)[|l| + j] == rs[j];
    }
  }

  lemma {:induction false} FirstIsAll(l: seq<nat>, k: nat)
    requires Distinct(l) && k <= |l|
    ensures |First(l, k)| == k
  {
    if k > 0 {
      FirstIsAll(l, k - 1);
      assert First(l, k) == First(l, k - 1) + {l[k - 1]};
      assert l[k - 1] !in First(l, k - 1);
    } else {
      assert First(l, k) == {};
    }
  }

  // ----- a disk to start from -----

  /** A disk of zeros in the layout of mkfs: the log begins at block 2. */
  function ZeroDisk(n: nat): State {
    var zero: Block := seq(BLOCKWORDS, _ => 0);
    State(2, LOGBLOCKS, seq(n, _ => zero), map[], [], map[], false, Booting)
  }

  /** k blocks from the first inode block on. */
  function Inodes(k: nat): (l: seq<nat>)
    ensures |l| == k && forall i :: 0 <= i < k ==> l[i] == 2 + LOGBLOCKS + i
  {
    seq(k, i requires 0 <= i < k => 2 + LOGBLOCKS + i)
  }

  lemma ZeroDiskIsEmpty(n: nat, k: nat)
    requires 2 + LOGBLOCKS + k <= n && k <= LOGBLOCKS
    ensures Init(ZeroDisk(n)) && OnDisk(ZeroDisk(n)) == [] && HomeList(ZeroDisk(n), Inodes(k))
  {
    var s := ZeroDisk(n);
    assert s.disk[2][0] == 0;
  }

  /** From a disk of zeros, both panics of a full log are reached, and for every size of a transaction the panic
      of a commit beside readers. */
  lemma PanicsAreReached(n: nat, k: nat) returns (s1: State, s2: State, s3: State)
    requires 2 + 2 * LOGBLOCKS <= n && 0 < k <= NBUF
    ensures Reaches(ZeroDisk(n), s1) && |s1.lh| == LOGBLOCKS && 2 in s1.ops
    ensures Holds(s1, 2, s1.lh[0]) && !CanLogWrite(s1, 2, s1.lh[0])
    ensures Reaches(ZeroDisk(n), s2) && |s2.lh| == LOGBLOCKS && s2.phase == WritingLog(0)
    ensures forall p, victim :: !CanFetch(s2, p, Slot(s2, 0), victim)
    ensures Reaches(ZeroDisk(n), s3) && |s3.lh| == k && s3.phase == WritingLog(0)
    ensures forall p, victim :: !CanFetch(s3, p, Slot(s3, 0), victim)
  {
    var l := Inodes(LOGBLOCKS);
    ZeroDiskIsEmpty(n, LOGBLOCKS);
    s1 := AbsorptionPanics(ZeroDisk(n), l);
    s2 := FullCommitStalls(ZeroDisk(n), l);
    assert l[..k] + l[k..] == l;
    s3 := ReadersStallCommit(ZeroDisk(n), l[..k], l[k..]);
  }
}
