/** filewrite over the log: what a crash leaves of a write in several transactions. */
module FileCrash {
  import opened AtomicStore
  import Log = LogMachine
  import opened LogRefinement
  import opened LogTheorems
  import opened Options
  import opened FsModel
  import FsBytes
  import opened FsLayout
  import FsCode
  import FW = FileWrite

  // ----- the operations of a process -----

  /** The operations that process p has ended among the first j events. */
  ghost function Ended(events: seq<Event>, p: Pid, j: nat): nat
    requires j <= |events|
  {
    if j == 0 then 0 else Ended(events, p, j - 1) + if events[j - 1] == End(p) then 1 else 0
  }

  /** Where the last operation of process p among the first j events began. */
  ghost function Begun(events: seq<Event>, p: Pid, j: nat): (lo: nat)
    requires j <= |events|
    ensures lo <= j
  {
    if j == 0 then 0 else if events[j - 1] == Begin(p) then j - 1 else Begun(events, p, j - 1)
  }

  /** What was last written to block x between two positions. */
  ghost function LastValue(events: seq<Event>, lo: nat, hi: nat, x: nat): Option<Block>
    requires lo <= hi <= |events|
  {
    if lo == hi then None
    else if events[hi - 1].Write? && events[hi - 1].b == x then Some(events[hi - 1].v)
    else LastValue(events, lo, hi - 1, x)
  }

  /** An operation writes exactly the blocks that a transaction logs, and leaves in them what the transaction does. */
  ghost predicate CarriesOut(events: seq<Event>, lo: nat, hi: nat, c: FW.Commit, area: LogArea)
    requires lo <= hi <= |events|
  {
    Shape(c.fs) && forall x: nat ::
      match LastValue(events, lo, hi, x)
      case None => x !in c.log
      case Some(v) => x in c.log && x < |c.fs.blocks| && v == BlockWords(c.fs, area, x)
  }

  /** Before position c, process p alone writes blocks, and its operations carry out the transactions in order. */
  ghost predicate Performs(events: seq<Event>, c: nat, p: Pid, commits: seq<FW.Commit>, area: LogArea)
    requires c <= |events|
  {
    && (forall j :: 0 <= j < c && events[j].Write? ==> events[j].p == p)
    && (forall e :: 0 <= e < c && events[e] == End(p) ==>
          && Ended(events, p, e) < |commits|
          && CarriesOut(events, Begun(events, p, e), e, commits[Ended(events, p, e)], area))
  }

  /** Every transaction starts from the file system that the one before it left, and changes only blocks that it
      logs. */
  ghost predicate Linked(fs: Fs, commits: seq<FW.Commit>, area: LogArea) {
    && Shape(fs)
    && forall t :: 0 <= t < |commits| ==>
         var before, c := FW.After(fs, commits, t), commits[t];
         && Shape(before) && Shape(c.fs) && |c.fs.blocks| == |before.blocks|
         && forall x :: 0 <= x < |before.blocks| && x !in c.log ==>
              BlockWords(c.fs, area, x) == BlockWords(before, area, x)
  }

  lemma ChainIsLinked(fs: Fs, commits: seq<FW.Commit>, area: LogArea, i: nat, off: nat, src: seq<FsBytes.byte>, n: nat)
    requires Shape(fs) && FW.Chain(fs, commits, i, off, src, n)
    ensures Linked(fs, commits, area)
  {
    forall t | 0 <= t < |commits|
      ensures var before, c := FW.After(fs, commits, t), commits[t];
              && Shape(before) && Shape(c.fs) && |c.fs.blocks| == |before.blocks|
              && forall x :: 0 <= x < |before.blocks| && x !in c.log ==>
                   BlockWords(c.fs, area, x) == BlockWords(before, area, x)
    {
      ChunkIsLinked(fs, commits, area, i, off, src, n, t);
    }
  }

  lemma ChunkIsLinked(fs: Fs, commits: seq<FW.Commit>, area: LogArea, i: nat, off: nat, src: seq<FsBytes.byte>, n: nat,
                      t: nat)
    requires FW.Chain(fs, commits, i, off, src, n) && t < |commits|
    ensures var before, c := FW.After(fs, commits, t), commits[t];
            && Shape(before) && Shape(c.fs) && |c.fs.blocks| == |before.blocks|
            && forall x :: 0 <= x < |before.blocks| && x !in c.log ==>
                 BlockWords(c.fs, area, x) == BlockWords(before, area, x)
  {
    var before, c := FW.After(fs, commits, t), commits[t];
    assert FW.Part(t) && FW.Saw(0, c);
    forall x | 0 <= x < |before.blocks| && x !in c.log
      ensures BlockWords(c.fs, area, x) == BlockWords(before, area, x)
    {
      OnlyLoggedChange(before, c.fs, area, i, c.log, x);
    }
  }

  // ----- between operations the blocks are those of a file system -----

  /** The blocks while an operation is open: those before it, with what it has written. */
  ghost predicate Mixed(current: seq<Block>, before: seq<Block>, events: seq<Event>, lo: nat, j: nat)
    requires lo <= j <= |events|
  {
    && |current| == |before|
    && forall x: nat :: x < |current| ==>
         current[x] == match LastValue(events, lo, j, x) case None => before[x] case Some(v) => v
  }

  /** What process p has made of the blocks by position j. */
  ghost predicate OnTrack(t: Store, events: seq<Event>, j: nat, p: Pid, fs: Fs, commits: seq<FW.Commit>, area: LogArea)
    requires j <= |events| && Linked(fs, commits, area)
  {
    && Ended(events, p, j) <= |commits|
    && var before := FW.After(fs, commits, Ended(events, p, j));
       && Shape(before)
       && if p !in t.open then t.current == Layout(before, area)
          else Mixed(t.current, Layout(before, area), events, Begun(events, p, j), j)
  }

  lemma MixedStarts(current: seq<Block>, events: seq<Event>, j: nat, j': nat)
    requires j < |events| && j' == j + 1 && !events[j].Write?
    ensures Mixed(current, current, events, j, j')
  {
    forall x: nat ensures LastValue(events, j, j', x).None? {
      assert LastValue(events, j, j, x).None?;
    }
  }

  lemma MixedMore(current: seq<Block>, before: seq<Block>, events: seq<Event>, lo: nat, j: nat)
    requires lo <= j < |events| && Mixed(current, before, events, lo, j)
    requires events[j].Write? ==> events[j].b < |current|
    ensures Mixed(if events[j].Write? then current[events[j].b := events[j].v] else current, before, events, lo, j + 1)
  {
  }

  lemma MixedEnds(current: seq<Block>, before: Fs, events: seq<Event>, lo: nat, j: nat, c: FW.Commit, area: LogArea)
    requires lo <= j <= |events| && Shape(before) && Shape(c.fs) && |c.fs.blocks| == |before.blocks|
    requires Mixed(current, Layout(before, area), events, lo, j) && CarriesOut(events, lo, j, c, area)
    requires forall x :: 0 <= x < |before.blocks| && x !in c.log ==>
               BlockWords(c.fs, area, x) == BlockWords(before, area, x)
    ensures current == Layout(c.fs, area)
  {
    forall x | 0 <= x < |current| ensures current[x] == Layout(c.fs, area)[x] {
      assert LastValue(events, lo, j, x).None? <==> x !in c.log;
    }
  }

  lemma TrackBegin(t: Store, t': Store, events: seq<Event>, j: nat, p: Pid, fs: Fs, commits: seq<FW.Commit>,
                   area: LogArea)
    requires j < |events| && Linked(fs, commits, area) && events[j] == Begin(p)
    requires OnTrack(t, events, j, p, fs, commits, area) && Moves(t, events[j], t')
    ensures OnTrack(t', events, j + 1, p, fs, commits, area)
  {
    MixedStarts(t.current, events, j, j + 1);
  }

  lemma TrackEnd(t: Store, t': Store, events: seq<Event>, j: nat, p: Pid, fs: Fs, commits: seq<FW.Commit>,
                 area: LogArea)
    requires j < |events| && Linked(fs, commits, area) && events[j] == End(p) && Ended(events, p, j) < |commits|
    requires CarriesOut(events, Begun(events, p, j), j, commits[Ended(events, p, j)], area)
    requires OnTrack(t, events, j, p, fs, commits, area) && Moves(t, events[j], t')
    ensures OnTrack(t', events, j + 1, p, fs, commits, area)
  {
    var k := Ended(events, p, j);
    MixedEnds(t.current, FW.After(fs, commits, k), events, Begun(events, p, j), j, commits[k], area);
    assert FW.After(fs, commits, k + 1) == commits[k].fs;
  }

  lemma TrackOther(t: Store, t': Store, events: seq<Event>, j: nat, p: Pid, fs: Fs, commits: seq<FW.Commit>,
                   area: LogArea)
    requires j < |events| && Linked(fs, commits, area) && events[j] != Begin(p) && events[j] != End(p)
    requires !events[j].Crash? && (events[j].Write? ==> events[j].p == p)
    requires OnTrack(t, events, j, p, fs, commits, area) && Moves(t, events[j], t')
    ensures OnTrack(t', events, j + 1, p, fs, commits, area)
  {
    assert Ended(events, p, j + 1) == Ended(events, p, j) && Begun(events, p, j + 1) == Begun(events, p, j);
    assert p in t'.open <==> p in t.open;
    if p in t.open {
      var before := FW.After(fs, commits, Ended(events, p, j));
      MixedMore(t.current, Layout(before, area), events, Begun(events, p, j), j);
    }
  }

  lemma TrackStep(t: Store, t': Store, events: seq<Event>, j: nat, c: nat, p: Pid, fs: Fs, commits: seq<FW.Commit>,
                  area: LogArea)
    requires j < c <= |events| && Linked(fs, commits, area) && Performs(events, c, p, commits, area)
    requires OnTrack(t, events, j, p, fs, commits, area) && Moves(t, events[j], t') && !events[j].Crash?
    ensures OnTrack(t', events, j + 1, p, fs, commits, area)
  {
    if events[j] == Begin(p) {
      TrackBegin(t, t', events, j, p, fs, commits, area);
    } else if events[j] == End(p) {
      TrackEnd(t, t', events, j, p, fs, commits, area);
    } else {
      TrackOther(t, t', events, j, p, fs, commits, area);
    }
  }

  lemma {:induction false} StaysOnTrack(t: seq<Store>, events: seq<Event>, j: nat, c: nat, p: Pid, fs: Fs,
                                        commits: seq<FW.Commit>, area: LogArea)
    requires History(t, events) && j <= c <= |events| && Linked(fs, commits, area)
    requires Performs(events, c, p, commits, area) && (forall k :: 0 <= k < c ==> !events[k].Crash?)
    requires t[0].open == {} && t[0].current == Layout(fs, area)
    ensures OnTrack(t[j], events, j, p, fs, commits, area)
  {
    if j > 0 {
      StaysOnTrack(t, events, j - 1, c, p, fs, commits, area);
      assert Moves(t[j - 1], events[j - 1], t[j]);
      TrackStep(t[j - 1], t[j], events, j - 1, c, p, fs, commits, area);
    }
  }

  // ----- after the crash -----

  /** The first power failure is at c, no operation begins after it, and at n the machine runs again; there may be
      further power failures, during recovery or after it. */
  ghost predicate Interrupted(states: seq<Log.State>, steps: seq<Log.Step>, c: nat, n: nat) {
    && c < n <= |steps| && |states| == |steps| + 1 && steps[c].PowerFail? && states[n].phase.Running?
    && (forall j :: 0 <= j < c ==> !steps[j].PowerFail?)
    && (forall j :: c < j < n ==> !steps[j].BeginOp?)
  }

  lemma IdleStep(s: Log.State, a: Log.Step)
    requires Log.Enabled(s, a) && s.ops == map[] && !s.phase.WritingLog? && !a.BeginOp?
    ensures Log.Apply(s, a).ops == map[] && !Log.Apply(s, a).phase.WritingLog? && !a.WriteHead?
  {
  }

  lemma {:induction false} IdleAfter(states: seq<Log.State>, steps: seq<Log.Step>, c: nat, n: nat, j: nat)
    requires Run(states, steps) && Interrupted(states, steps, c, n) && c < j <= n
    ensures states[j].ops == map[] && !states[j].phase.WritingLog?
    decreases j
  {
    RunStep(states, steps, j - 1);
    if j > c + 1 {
      IdleAfter(states, steps, c, n, j - 1);
      IdleStep(states[j - 1], steps[j - 1]);
    }
  }

  /** Nothing is committed after the crash. */
  lemma NoCommitAfter(states: seq<Log.State>, steps: seq<Log.Step>, c: nat, n: nat, j: nat)
    requires Run(states, steps) && Interrupted(states, steps, c, n) && c <= j < n
    ensures !EventOf(steps[j]).GroupCommit?
  {
    RunStep(states, steps, j);
    if j > c {
      IdleAfter(states, steps, c, n, j);
      IdleStep(states[j], steps[j]);
    }
  }

  lemma {:induction false} SameLastCommit(events: seq<Event>, c: nat, n: nat)
    requires c <= n <= |events| && forall j :: c <= j < n ==> !events[j].GroupCommit?
    ensures LastCommit(events, n) == LastCommit(events, c)
    decreases n
  {
    if c < n {
      SameLastCommit(events, c, n - 1);
    }
  }

  lemma CrashIsLast(states: seq<Log.State>, steps: seq<Log.Step>, c: nat, n: nat)
    requires Run(states, steps) && Interrupted(states, steps, c, n)
    ensures LastCommit(Events(steps), n) == LastCommit(Events(steps), c)
  {
    forall j | c <= j < n ensures !Events(steps)[j].GroupCommit? {
      NoCommitAfter(states, steps, c, n, j);
    }
    SameLastCommit(Events(steps), c, n);
  }

  /** When no operation is open, the current blocks are those of the file system after the operations ended. */
  lemma QuietIsLayout(t: seq<Store>, events: seq<Event>, j: nat, c: nat, p: Pid, fs: Fs, commits: seq<FW.Commit>,
                      area: LogArea)
    requires History(t, events) && j <= c <= |events| && Linked(fs, commits, area)
    requires Performs(events, c, p, commits, area) && (forall k :: 0 <= k < c ==> !events[k].Crash?)
    requires t[0].open == {} && t[0].current == Layout(fs, area) && t[j].open == {}
    ensures Ended(events, p, j) <= |commits| && Shape(FW.After(fs, commits, Ended(events, p, j)))
    ensures t[j].current == Layout(FW.After(fs, commits, Ended(events, p, j)), area)
  {
    StaysOnTrack(t, events, j, c, p, fs, commits, area);
  }

  lemma QuietInRun(states: seq<Log.State>, steps: seq<Log.Step>, j: nat, c: nat, p: Pid, fs: Fs,
                   commits: seq<FW.Commit>, area: LogArea)
    requires Run(states, steps) && AllShaped(states) && j <= c <= |steps| && Linked(fs, commits, area)
    requires Performs(Events(steps), c, p, commits, area) && (forall k :: 0 <= k < c ==> !Events(steps)[k].Crash?)
    requires Current(states[0]) == Layout(fs, area) && states[j].ops.Keys == {}
    ensures var t := Ended(Events(steps), p, j);
            && t <= |commits| && Shape(FW.After(fs, commits, t))
            && Current(states[j]) == Layout(FW.After(fs, commits, t), area)
  {
    RunRefinesStore(states, steps);
    StartIsQuiet(states, steps);
    var t := AbstractRun(states);
    assert t[0] == Abstract(states[0]) && t[j] == Abstract(states[j]);
    QuietIsLayout(t, Events(steps), j, c, p, fs, commits, area);
  }

  lemma EndedAtCommit(events: seq<Event>, p: Pid, n: nat, k: nat)
    requires n <= |events| && k == LastCommit(events, n) && k > 0
    ensures k <= n && Ended(events, p, k - 1) == Ended(events, p, k)
  {
  }

  lemma CommittedThere(states: seq<Log.State>, steps: seq<Log.Step>, n: nat, k: nat, j: nat, p: Pid)
    requires Run(states, steps) && AllShaped(states) && n <= |steps| && k == LastCommit(Events(steps), n)
    requires j == if k == 0 then 0 else k - 1
    ensures j <= n && states[j].ops.Keys == {} && AtLastCommit(states, steps, n) == Current(states[j])
    ensures Ended(Events(steps), p, j) == Ended(Events(steps), p, k)
  {
    QuietAt(states, steps, n, k, j);
    if k > 0 {
      EndedAtCommit(Events(steps), p, n, k);
    }
  }

  /** The blocks at the last commit are those of the file system after the operations that had ended then. */
  lemma CommittedIsOnTrack(states: seq<Log.State>, steps: seq<Log.Step>, c: nat, n: nat, k: nat, p: Pid, fs: Fs,
                           commits: seq<FW.Commit>, area: LogArea)
    requires Run(states, steps) && AllShaped(states) && c <= n <= |steps| && Linked(fs, commits, area)
    requires Performs(Events(steps), c, p, commits, area) && (forall k :: 0 <= k < c ==> !Events(steps)[k].Crash?)
    requires Current(states[0]) == Layout(fs, area) && k == LastCommit(Events(steps), n) <= c
    ensures var t := Ended(Events(steps), p, k);
            && t <= |commits| && Shape(FW.After(fs, commits, t))
            && AtLastCommit(states, steps, n) == Layout(FW.After(fs, commits, t), area)
  {
    var j := if k == 0 then 0 else k - 1;
    CommittedThere(states, steps, n, k, j, p);
    QuietInRun(states, steps, j, c, p, fs, commits, area);
  }

  /** Every home block on disk holds what is in the sequence. */
  ghost predicate Holds(s: Log.State, blocks: seq<Block>) {
    forall b :: 0 <= b < |s.disk| && Log.Home(s, b) ==> b < |blocks| && s.disk[b] == blocks[b]
  }

  lemma HoldsLastCommit(states: seq<Log.State>, steps: seq<Log.Step>, n: nat)
    requires Run(states, steps) && AllShaped(states) && n <= |steps| && states[n].phase.Running?
    ensures Holds(states[n], AtLastCommit(states, steps, n))
  {
    var blocks := AtLastCommit(states, steps, n);
    forall b | 0 <= b < |states[n].disk| && Log.Home(states[n], b)
      ensures b < |blocks| && states[n].disk[b] == blocks[b] {
      CrashAtomicity(states, steps, n, b);
    }
  }

  lemma NoCrashBefore(states: seq<Log.State>, steps: seq<Log.Step>, c: nat, n: nat)
    requires Interrupted(states, steps, c, n)
    ensures forall k :: 0 <= k < c ==> !Events(steps)[k].Crash?
  {
  }

  /** After a crash anywhere in filewrite, recovery included, the disk holds exactly the file system after the
      chunks whose operations had ended at the last header write, and the file has these whole chunks. */
  lemma CrashLeavesWholeChunks(states: seq<Log.State>, steps: seq<Log.Step>, c: nat, n: nat, p: Pid, fs: Fs,
                               commits: seq<FW.Commit>, area: LogArea, i: nat, off: nat, src: seq<FsBytes.byte>,
                               len: nat) returns (t: nat)
    requires Run(states, steps) && AllShaped(states) && Interrupted(states, steps, c, n)
    requires Shape(fs) && Current(states[0]) == Layout(fs, area) && FW.Chain(fs, commits, i, off, src, len)
    requires Performs(Events(steps), c, p, commits, area)
    ensures t == Ended(Events(steps), p, LastCommit(Events(steps), c)) && t <= |commits|
    ensures Shape(FW.After(fs, commits, t)) && Holds(states[n], Layout(FW.After(fs, commits, t), area))
    ensures t == 0 ==> FW.After(fs, commits, t) == fs
    ensures t > 0 ==>
              && FW.BytesIn(len, t) <= |src|
              && FsCode.FileWritten(fs, FW.After(fs, commits, t), i, off, src[..FW.BytesIn(len, t)], FW.BytesIn(len, t))
  {
    ChainIsLinked(fs, commits, area, i, off, src, len);
    CrashIsLast(states, steps, c, n);
    NoCrashBefore(states, steps, c, n);
    var k := LastCommit(Events(steps), c);
    CommittedIsOnTrack(states, steps, c, n, k, p, fs, commits, area);
    t := Ended(Events(steps), p, k);
    HoldsLastCommit(states, steps, n);
    if t > 0 {
      FW.ChainIsPrefix(fs, commits, i, off, src, len, t);
    }
  }
}
