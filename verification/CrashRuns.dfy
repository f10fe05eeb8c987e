/** For every chunk of filewrite, a run in which its operation has ended and a power failure loses it. */
module CrashRuns {
  import opened Sequences
  import opened AtomicStore
  import opened Options
  import opened LogMachine
  import opened LogInvariant
  import opened LogRefinement
  import opened LogTheorems
  import Runs = LogRuns
  import FsModel
  import FsBytes
  import opened FsLayout
  import FW = FileWrite
  import FC = FileCrash

  // ----- runs with their steps -----

  /** By is looked into only where this is mentioned. */
  ghost predicate Look(n: int, s: State) { true }

  /** A run from power-on in s0 that takes these steps ends in s. */
  ghost predicate By(s0: State, s: State, steps: seq<Step>) {
    forall n: int {:trigger Look(n, s)} :: 0 <= n ==>
      exists states :: Run(states, steps) && states[0] == s0 && states[|steps|] == s
  }

  lemma ByStart(s0: State)
    requires Init(s0)
    ensures By(s0, s0, [])
  {
    assert Run([s0], []);
  }

  lemma RunBy(s0: State, s: State, steps: seq<Step>) returns (states: seq<State>)
    requires By(s0, s, steps)
    ensures Run(states, steps) && states[0] == s0 && states[|steps|] == s
  {
    assert Look(0, s);
    states :| Run(states, steps) && states[0] == s0 && states[|steps|] == s;
  }

  lemma ByNext(s0: State, s: State, steps: seq<Step>, a: Step, s': State, steps': seq<Step>)
    requires By(s0, s, steps) && Enabled(s, a) && s' == Apply(s, a) && steps' == steps + [a]
    ensures By(s0, s', steps')
  {
    var states := RunBy(s0, s, steps);
    RunExtends(states, steps, a);
    var states' := states + [s'];
    assert Run(states', steps') && states'[0] == s0 && states'[|steps'|] == s';
  }

  // ----- bread and brelse by process 0 -----

  function Got(v: Block): Entry { Entry(true, v, 1, {0}, Some(0), false) }

  function GetSteps(b: nat): seq<Step> { [Fetch(0, b, None), Lock(0, b), Fill(0, b)] }

  lemma ByGet(s0: State, s: State, steps: seq<Step>, b: nat)
    requires By(s0, s, steps) && b !in s.cache && b < |s.disk| && |s.cache| < NBUF
    ensures By(s0, s.(cache := s.cache[b := Got(s.disk[b])]), steps + GetSteps(b))
  {
    var t1, t2 := steps + [Fetch(0, b, None)], steps + [Fetch(0, b, None), Lock(0, b)];
    var s1 := s.(cache := s.cache[b := Entry(false, [], 1, {0}, None, false)]);
    ByNext(s0, s, steps, Fetch(0, b, None), s1, t1);
    var s2 := s.(cache := s.cache[b := Entry(false, [], 1, {0}, Some(0), false)]);
    assert s2.cache == s1.cache[b := Entry(false, [], 1, {0}, Some(0), false)];
    ByNext(s0, s1, t1, Lock(0, b), s2, t2);
    var s3 := s.(cache := s.cache[b := Got(s.disk[b])]);
    assert s3.cache == s2.cache[b := Got(s.disk[b])];
    ByNext(s0, s2, t2, Fill(0, b), s3, steps + GetSteps(b));
  }

  function PutSteps(b: nat): seq<Step> { [Unlock(0, b), Put(0, b)] }

  lemma ByPut(s0: State, s: State, steps: seq<Step>, b: nat, v: Block, pins: nat)
    requires By(s0, s, steps) && b in s.cache && s.cache[b] == Entry(true, v, 1 + pins, {0}, Some(0), false)
    ensures By(s0, s.(cache := s.cache[b := Entry(true, v, pins, {}, None, false)]), steps + PutSteps(b))
  {
    var s1 := s.(cache := s.cache[b := Entry(true, v, 1 + pins, {0}, None, false)]);
    ByNext(s0, s, steps, Unlock(0, b), s1, steps + [Unlock(0, b)]);
    var s2 := s.(cache := s.cache[b := Entry(true, v, pins, {}, None, false)]);
    assert {0} - {0} == {};
    assert s2.cache == s1.cache[b := Entry(true, v, pins, {}, None, false)];
    ByNext(s0, s1, steps + [Unlock(0, b)], Put(0, b), s2, steps + PutSteps(b));
  }

  // ----- recovery of an empty log -----

  function BootSteps(b: nat): seq<Step> { GetSteps(b) + [ReadHead(0), ClearHead, EraseHead(0)] + PutSteps(b) }

  lemma ByRecover(s0: State, s: State, steps: seq<Step>, h: Block)
    requires By(s0, s, steps) && Init(s.(cache := map[])) && OnDisk(s) == [] && h == s.disk[s.start]
    requires s.cache == map[s.start := Got(h)]
    ensures By(s0, s.(phase := Running), steps + [ReadHead(0), ClearHead, EraseHead(0)])
  {
    var t1, t2 := steps + [ReadHead(0)], steps + [ReadHead(0), ClearHead];
    var s1 := s.(phase := Installing(true, 0));
    ByNext(s0, s, steps, ReadHead(0), s1, t1);
    var s2 := s.(phase := Erasing(true));
    ByNext(s0, s1, t1, ClearHead, s2, t2);
    Runs.EmptyHeader(h);
    assert s2.disk[s.start := h] == s2.disk && s2.cache[s.start := s2.cache[s.start].(data := h)] == s2.cache;
    ByNext(s0, s2, t2, EraseHead(0), s.(phase := Running), steps + [ReadHead(0), ClearHead, EraseHead(0)]);
  }

  lemma ByBoot(s0: State, s: State, steps: seq<Step>)
    requires By(s0, s, steps) && Init(s) && OnDisk(s) == []
    ensures By(s0, Runs.Booted(s), steps + BootSteps(s.start))
  {
    var b, h := s.start, s.disk[s.start];
    ByGet(s0, s, steps, b);
    var s1 := s.(cache := map[b := Got(h)]);
    assert s.cache[b := Got(h)] == s1.cache;
    ByRecover(s0, s1, steps + GetSteps(b), h);
    var s2, t2 := s1.(phase := Running), steps + GetSteps(b) + [ReadHead(0), ClearHead, EraseHead(0)];
    ByPut(s0, s2, t2, b, h, 0);
    assert s2.cache[b := Entry(true, h, 0, {}, None, false)] == Runs.Booted(s).cache;
    assert t2 + PutSteps(b) == steps + BootSteps(b);
  }

  // ----- an operation that writes a list of blocks -----

  function WriteSteps(b: nat, v: Block): seq<Step> {
    GetSteps(b) + [Modify(0, b, v), LogWrite(0, b)] + PutSteps(b)
  }

  lemma ByChange(s0: State, s: State, steps: seq<Step>, b: nat, v: Block, kept: map<nat, Entry>)
    requires By(s0, s, steps) && Home(s, b) && |v| == BLOCKWORDS && b !in s.lh && |s.lh| < LOGBLOCKS
    requires 0 in s.ops && s.ops[0] < MAXOPBLOCKS && s.cache == kept[b := Got(s.disk[b])]
    ensures By(s0, s.(cache := kept[b := Entry(true, v, 1 + 1, {0}, Some(0), false)], lh := s.lh + [b],
                      ops := s.ops[0 := s.ops[0] + 1]), steps + [Modify(0, b, v), LogWrite(0, b)])
  {
    var s1 := s.(cache := kept[b := Entry(true, v, 1, {0}, Some(0), true)]);
    assert s1.cache == s.cache[b := Entry(true, v, 1, {0}, Some(0), true)];
    ByNext(s0, s, steps, Modify(0, b, v), s1, steps + [Modify(0, b, v)]);
    var s2 := s.(cache := kept[b := Entry(true, v, 1 + 1, {0}, Some(0), false)], lh := s.lh + [b],
                 ops := s.ops[0 := s.ops[0] + 1]);
    assert s2.cache == s1.cache[b := Entry(true, v, 1 + 1, {0}, Some(0), false)];
    ByNext(s0, s1, steps + [Modify(0, b, v)], LogWrite(0, b), s2, steps + [Modify(0, b, v), LogWrite(0, b)]);
  }

  lemma ByWrite(s0: State, s: State, steps: seq<Step>, b: nat, v: Block)
    requires By(s0, s, steps) && Runs.CanWrite(s, b, v)
    ensures By(s0, Runs.Wrote(s, b, v), steps + WriteSteps(b, v))
  {
    ByGet(s0, s, steps, b);
    var s1, t1 := s.(cache := s.cache[b := Got(s.disk[b])]), steps + GetSteps(b);
    ByChange(s0, s1, t1, b, v, s.cache);
    var s2 := s.(cache := s.cache[b := Entry(true, v, 1 + 1, {0}, Some(0), false)], lh := s.lh + [b],
                 ops := s.ops[0 := s.ops[0] + 1]);
    var t2 := t1 + [Modify(0, b, v), LogWrite(0, b)];
    ByPut(s0, s2, t2, b, v, 1);
    assert s2.cache[b := Entry(true, v, 1, {}, None, false)] == Runs.Wrote(s, b, v).cache;
    assert t2 + PutSteps(b) == steps + WriteSteps(b, v);
  }

  /** The new contents of the blocks of a list. */
  predicate Values(l: seq<nat>, vals: map<nat, Block>) {
    forall i :: 0 <= i < |l| ==> l[i] in vals && |vals[l[i]]| == BLOCKWORDS
  }

  function WorkSteps(l: seq<nat>, vals: map<nat, Block>): seq<Step>
    requires Values(l, vals)
  {
    if l == [] then []
    else
      var most, b := l[..|l| - 1], l[|l| - 1];
      WorkSteps(most, vals) + WriteSteps(b, vals[b])
  }

  lemma ByOneMore(s0: State, s: State, steps: seq<Step>, l: seq<nat>, b: nat, v: Block)
    requires By(s0, s, steps) && Runs.Working(s0, s, l) && |l| < MAXOPBLOCKS
    requires Home(s0, b) && b !in l && b != s0.start && |v| == BLOCKWORDS
    ensures By(s0, Runs.Wrote(s, b, v), steps + WriteSteps(b, v)) && Runs.Working(s0, Runs.Wrote(s, b, v), l + [b])
  {
    Runs.WroteIsWorking(s0, s, l, b, v);
    ByWrite(s0, s, steps, b, v);
  }

  lemma LastOfList(s0: State, l: seq<nat>, vals: map<nat, Block>, steps: seq<Step>)
    requires Values(l, vals) && HomeList(s0, l) && l != [] && LOGBLOCKS <= s0.nlog
    ensures var most, b := l[..|l| - 1], l[|l| - 1];
            && Values(most, vals) && HomeList(s0, most) && Home(s0, b) && b !in most && b != s0.start
            && most + [b] == l && b in vals && |vals[b]| == BLOCKWORDS
            && steps + WorkSteps(most, vals) + WriteSteps(b, vals[b]) == steps + WorkSteps(l, vals)
  {
    Runs.SplitList(s0, l);
  }

  lemma {:induction false} ByWork(s0: State, s: State, steps: seq<Step>, l: seq<nat>, vals: map<nat, Block>)
    returns (s': State)
    requires By(s0, s, steps) && Runs.Working(s0, s, []) && LOGBLOCKS <= s0.nlog
    requires Values(l, vals) && HomeList(s0, l) && |l| <= MAXOPBLOCKS
    ensures By(s0, s', steps + WorkSteps(l, vals)) && Runs.Working(s0, s', l)
    decreases |l|
  {
    if l == [] {
      assert steps + WorkSteps(l, vals) == steps;
      s' := s;
    } else {
      var most, b := l[..|l| - 1], l[|l| - 1];
      LastOfList(s0, l, vals, steps);
      var t := ByWork(s0, s, steps, most, vals);
      ByOneMore(s0, t, steps + WorkSteps(most, vals), most, b, vals[b]);
      s' := Runs.Wrote(t, b, vals[b]);
    }
  }

  // ----- the whole run -----

  /** Boot, one operation, a power failure before its commit, and recovery. */
  function LostSteps(start: nat, l: seq<nat>, vals: map<nat, Block>): seq<Step>
    requires Values(l, vals)
  {
    BootSteps(start) + [BeginOp(0)] + WorkSteps(l, vals) + [EndOp(0), PowerFail] + BootSteps(start)
  }

  lemma BegunIsWorking(s0: State)
    requires Init(s0)
    ensures Runs.Working(s0, Runs.Booted(s0).(ops := map[0 := 0]), [])
  {
    assert Runs.Booted(s0).cache.Keys == {s0.start};
  }

  lemma ByBegin(s0: State, steps: seq<Step>)
    requires Init(s0) && By(s0, Runs.Booted(s0), steps)
    ensures By(s0, Runs.Booted(s0).(ops := map[0 := 0]), steps + [BeginOp(0)])
  {
    var s := Runs.Booted(s0);
    ByNext(s0, s, steps, BeginOp(0), s.(ops := map[0 := 0]), steps + [BeginOp(0)]);
  }

  /** The operation ends and the power fails before write_log has done anything. */
  lemma ByLoss(s0: State, s: State, steps: seq<Step>, l: seq<nat>)
    requires Init(s0) && By(s0, s, steps) && Runs.Working(s0, s, l) && l != []
    ensures By(s0, s0, steps + [EndOp(0), PowerFail])
  {
    assert s.ops - {0} == map[];
    var s1 := s.(ops := map[], committing := true, phase := WritingLog(0));
    ByNext(s0, s, steps, EndOp(0), s1, steps + [EndOp(0)]);
    assert DoPowerFail(s1) == s0;
    ByNext(s0, s1, steps + [EndOp(0)], PowerFail, s0, steps + [EndOp(0), PowerFail]);
  }

  lemma ByLost(s0: State, l: seq<nat>, vals: map<nat, Block>)
    requires Init(s0) && OnDisk(s0) == [] && Values(l, vals) && HomeList(s0, l) && 0 < |l| <= MAXOPBLOCKS
    ensures By(s0, Runs.Booted(s0), LostSteps(s0.start, l, vals))
  {
    var boot := BootSteps(s0.start);
    ByStart(s0);
    ByBoot(s0, s0, []);
    assert [] + boot == boot;
    ByBegin(s0, boot);
    BegunIsWorking(s0);
    var s := ByWork(s0, Runs.Booted(s0).(ops := map[0 := 0]), boot + [BeginOp(0)], l, vals);
    var t := boot + [BeginOp(0)] + WorkSteps(l, vals);
    ByLoss(s0, s, t, l);
    ByBoot(s0, s0, t + [EndOp(0), PowerFail]);
  }

  // ----- its events -----

  /** Silent up to lo, an operation of process 0 from lo to e, a crash at c, and silent again. */
  ghost predicate Pattern(events: seq<Event>, lo: nat, e: nat, c: nat) {
    && lo < e && c == e + 1 && c < |events| && events[lo] == Begin(0) && events[e] == End(0) && events[c] == Crash
    && (forall j :: 0 <= j < lo ==> events[j].Silent?)
    && (forall j :: lo < j < e ==> events[j].Silent? || (events[j].Write? && events[j].p == 0))
    && (forall j :: c < j < |events| ==> events[j].Silent?)
  }

  lemma {:induction false} NoneEnded(events: seq<Event>, lo: nat, e: nat, c: nat, j: nat)
    requires Pattern(events, lo, e, c) && j <= e
    ensures FC.Ended(events, 0, j) == 0
  {
    if j > 0 {
      NoneEnded(events, lo, e, c, j - 1);
    }
  }

  lemma {:induction false} BegunThere(events: seq<Event>, lo: nat, e: nat, c: nat, j: nat)
    requires Pattern(events, lo, e, c) && lo < j <= e
    ensures FC.Begun(events, 0, j) == lo
    decreases j
  {
    if j > lo + 1 {
      BegunThere(events, lo, e, c, j - 1);
    }
  }

  lemma {:induction false} Skipped(events: seq<Event>, lo: nat, h: nat, h': nat, x: nat)
    requires lo <= h <= h' <= |events| && forall j :: h <= j < h' ==> !events[j].Write?
    ensures FC.LastValue(events, lo, h', x) == FC.LastValue(events, lo, h, x)
    decreases h'
  {
    if h < h' {
      Skipped(events, lo, h, h' - 1, x);
    }
  }

  /** One block written. */
  lemma SegmentValue(events: seq<Event>, lo: nat, h: nat, x: nat, b: nat, v: Block)
    requires lo <= h && h + 7 <= |events| && events[h + 3] == Write(0, b, v)
    requires forall j :: h <= j < h + 7 && j != h + 3 ==> !events[j].Write?
    ensures FC.LastValue(events, lo, h + 7, x) == if x == b then Some(v) else FC.LastValue(events, lo, h, x)
  {
    Skipped(events, lo, h, h + 3, x);
    Skipped(events, lo, h + 4, h + 7, x);
  }

  lemma WriteEvents(b: nat, v: Block)
    ensures |WriteSteps(b, v)| == 7 && EventOf(WriteSteps(b, v)[3]) == Write(0, b, v)
    ensures forall j :: 0 <= j < 7 && j != 3 ==> EventOf(WriteSteps(b, v)[j]).Silent?
  {
  }

  lemma BootEvents(b: nat)
    ensures |BootSteps(b)| == 8 && forall j :: 0 <= j < 8 ==> EventOf(BootSteps(b)[j]).Silent?
  {
  }

  lemma {:induction false} WorkEvents(l: seq<nat>, vals: map<nat, Block>, j: nat)
    requires Values(l, vals) && j < |WorkSteps(l, vals)|
    ensures var a := EventOf(WorkSteps(l, vals)[j]); a.Silent? || (a.Write? && a.p == 0)
  {
    var most, b := l[..|l| - 1], l[|l| - 1];
    WriteEvents(b, vals[b]);
    if j < |WorkSteps(most, vals)| {
      WorkEvents(most, vals, j);
    }
  }

  /** The events from h on are those of the steps. */
  ghost predicate Matches(events: seq<Event>, h: nat, steps: seq<Step>) {
    h + |steps| <= |events| && forall j, k :: 0 <= j < |steps| && k == h + j ==> events[k] == EventOf(steps[j])
  }

  lemma {:induction false} WorkValue(events: seq<Event>, lo: nat, h: nat, l: seq<nat>, vals: map<nat, Block>, x: nat)
    requires Values(l, vals) && lo <= h && Matches(events, h, WorkSteps(l, vals))
    requires FC.LastValue(events, lo, h, x).None?
    ensures FC.LastValue(events, lo, h + |WorkSteps(l, vals)|, x) == if x in l then Some(vals[x]) else None
    decreases |l|
  {
    if l != [] {
      var most, b := l[..|l| - 1], l[|l| - 1];
      var part := WorkSteps(most, vals);
      MatchesPart(events, h, part, WriteSteps(b, vals[b]));
      WorkValue(events, lo, h, most, vals, x);
      WriteEvents(b, vals[b]);
      LastSegment(events, lo, h + |part|, x, b, vals[b]);
      assert x in l <==> x in most || x == b;
    }
  }

  lemma MatchesPart(events: seq<Event>, h: nat, a: seq<Step>, b: seq<Step>)
    requires Matches(events, h, a + b)
    ensures Matches(events, h, a) && Matches(events, h + |a|, b)
  {
    forall j, k | 0 <= j < |a| && k == h + j ensures events[k] == EventOf(a[j]) {
      assert (a + b)[j] == a[j];
    }
    forall j, k | 0 <= j < |b| && k == h + |a| + j ensures events[k] == EventOf(b[j]) {
      var i := |a| + j;
      assert (a + b)[i] == b[j] && k == h + i;
    }
  }

  lemma LastSegment(events: seq<Event>, lo: nat, h: nat, x: nat, b: nat, v: Block)
    requires lo <= h && Matches(events, h, WriteSteps(b, v))
    ensures h + 7 <= |events|
    ensures FC.LastValue(events, lo, h + 7, x) == if x == b then Some(v) else FC.LastValue(events, lo, h, x)
  {
    WriteEvents(b, v);
    forall j | h <= j < h + 7 && j != h + 3 ensures !events[j].Write? {
      var i := j - h;
      assert events[j] == EventOf(WriteSteps(b, v)[i]);
    }
    var three := 3;
    assert events[h + 3] == EventOf(WriteSteps(b, v)[three]);
    SegmentValue(events, lo, h, x, b, v);
  }

  lemma LostPattern(start: nat, l: seq<nat>, vals: map<nat, Block>, lo: nat, e: nat)
    requires Values(l, vals) && lo == |BootSteps(start)| && e == lo + 1 + |WorkSteps(l, vals)|
    ensures Pattern(Events(LostSteps(start, l, vals)), lo, e, e + 1)
    ensures Matches(Events(LostSteps(start, l, vals)), lo + 1, WorkSteps(l, vals))
  {
    var boot, work := BootSteps(start), WorkSteps(l, vals);
    var steps := LostSteps(start, l, vals);
    var events := Events(steps);
    BootEvents(start);
    forall j | 0 <= j < lo ensures events[j].Silent? {
      assert steps[j] == boot[j];
    }
    forall j, k | 0 <= j < |work| && k == lo + 1 + j ensures events[k] == EventOf(work[j]) {
      assert steps[k] == work[j];
    }
    forall j | lo < j < e ensures events[j].Silent? || (events[j].Write? && events[j].p == 0) {
      var i := j - lo - 1;
      assert steps[j] == work[i];
      WorkEvents(l, vals, i);
    }
    forall j | e + 1 < j < |events| ensures events[j].Silent? {
      var i := j - e - 2;
      assert steps[j] == boot[i];
    }
    assert steps[lo] == BeginOp(0) && steps[e] == EndOp(0) && steps[e + 1] == PowerFail;
  }

  /** The list holds exactly the blocks of the set, each once. */
  lemma {:induction false} ListOf(log: set<nat>) returns (l: seq<nat>)
    ensures Distinct(l) && |l| == |log| && forall b :: b in log <==> b in l
    decreases |log|
  {
    if log == {} {
      l := [];
    } else {
      var b :| b in log;
      var most := ListOf(log - {b});
      l := most + [b];
      forall x ensures x in log <==> x in l {
        assert x in log - {b} <==> x in most;
      }
      assert forall i :: 0 <= i < |most| ==> most[i] in most;
    }
  }

  ghost function Contents(c: FW.Commit, area: LogArea): (vals: map<nat, Block>)
    requires FsModel.Shape(c.fs)
    ensures forall b :: b in c.log && b < |c.fs.blocks| ==> b in vals && vals[b] == BlockWords(c.fs, area, b)
  {
    map b | b in c.log && b < |c.fs.blocks| :: BlockWords(c.fs, area, b)
  }

  lemma CarriesOutLog(events: seq<Event>, lo: nat, e: nat, l: seq<nat>, vals: map<nat, Block>, c: FW.Commit,
                      area: LogArea)
    requires FsModel.Shape(c.fs) && Values(l, vals) && lo < |events| && events[lo] == Begin(0)
    requires Matches(events, lo + 1, WorkSteps(l, vals)) && e == lo + 1 + |WorkSteps(l, vals)|
    requires (forall b :: b in c.log <==> b in l) && vals == Contents(c, area)
    requires forall b :: b in c.log ==> b < |c.fs.blocks|
    ensures FC.CarriesOut(events, lo, e, c, area)
  {
    forall x: nat
      ensures match FC.LastValue(events, lo, e, x)
              case None => x !in c.log
              case Some(v) => x in c.log && x < |c.fs.blocks| && v == BlockWords(c.fs, area, x)
    {
      Skipped(events, lo, lo, lo + 1, x);
      WorkValue(events, lo, lo + 1, l, vals, x);
    }
  }

  lemma LostPerforms(events: seq<Event>, lo: nat, e: nat, c: FW.Commit, area: LogArea)
    requires Pattern(events, lo, e, e + 1) && FC.CarriesOut(events, lo, e, c, area)
    ensures FC.Performs(events, e + 1, 0, [c], area)
    ensures FC.Ended(events, 0, e + 1) == 1 && LastCommit(events, e + 1) == 0
  {
    NoneEnded(events, lo, e, e + 1, e);
    BegunThere(events, lo, e, e + 1, e);
    assert forall j :: 0 <= j < e + 1 ==> !events[j].GroupCommit?;
  }

  lemma LostIsInterrupted(states: seq<State>, steps: seq<Step>, lo: nat, e: nat)
    requires |states| == |steps| + 1 && Pattern(Events(steps), lo, e, e + 1) && e + 2 < |steps|
    requires states[|steps|].phase.Running?
    ensures FC.Interrupted(states, steps, e + 1, |steps|)
  {
    var events := Events(steps);
    forall j | 0 <= j < e + 1 ensures !steps[j].PowerFail? {
      assert events[j] != Crash;
    }
    forall j | e + 1 < j < |steps| ensures !steps[j].BeginOp? {
      assert events[j].Silent?;
    }
    assert events[e + 1] == Crash;
  }

  /** The disk of s0 holds the file system. */
  ghost predicate OnDiskIs(s0: State, fs: FsModel.Fs, area: LogArea) {
    && FsModel.Shape(fs) && |fs.blocks| == |s0.disk| && area == LogArea(s0.start, s0.nlog)
    && FC.Holds(s0, Layout(fs, area))
  }

  lemma StartsWith(s0: State, fs: FsModel.Fs, area: LogArea)
    requires Init(s0) && OnDisk(s0) == [] && OnDiskIs(s0, fs, area)
    ensures Shape(s0) && Current(s0) == Layout(fs, area)
  {
    InitHolds(s0);
    forall b | 0 <= b < |s0.disk| ensures Current(s0)[b] == Layout(fs, area)[b] {
      assert Home(s0, b) <==> !InLog(area, b);
    }
  }

  lemma LogIsHome(s0: State, c: FW.Commit, l: seq<nat>, area: LogArea)
    requires FsModel.Shape(c.fs) && |c.fs.blocks| == |s0.disk| && area == LogArea(s0.start, s0.nlog)
    requires Distinct(l) && |l| <= MAXOPBLOCKS && (forall b :: b in c.log <==> b in l)
    requires forall b :: b in c.log ==> Home(s0, b)
    ensures HomeList(s0, l) && Values(l, Contents(c, area))
  {
    forall i | 0 <= i < |l| ensures Home(s0, l[i]) && l[i] in Contents(c, area)
      && |Contents(c, area)[l[i]]| == BLOCKWORDS {
      assert l[i] in c.log;
    }
  }

  /** Every chunk can be lost: a run in which its operation has ended, the power fails before the header is written,
      and after recovery the disk holds the file system without the chunk. */
  lemma ChunkCanBeLost(s0: State, fs: FsModel.Fs, c: FW.Commit, area: LogArea, i: nat, off: nat,
                       src: seq<FsBytes.byte>, len: nat)
    returns (states: seq<State>, steps: seq<Step>, at: nat)
    requires Init(s0) && OnDisk(s0) == [] && OnDiskIs(s0, fs, area) && FW.Chain(fs, [c], i, off, src, len)
    requires forall b :: b in c.log ==> Home(s0, b)
    ensures Run(states, steps) && states[0] == s0 && AllShaped(states) && FC.Interrupted(states, steps, at, |steps|)
    ensures Current(states[0]) == Layout(fs, area) && FC.Performs(Events(steps), at, 0, [c], area)
    ensures FC.Ended(Events(steps), 0, at) == 1 && LastCommit(Events(steps), at) == 0
    ensures FC.Holds(states[|steps|], Layout(fs, area))
  {
    StartsWith(s0, fs, area);
    OneCommit(fs, c, area, i, off, src, len);
    var l := ListOf(c.log);
    LogIsHome(s0, c, l, area);
    var vals := Contents(c, area);
    steps := LostSteps(s0.start, l, vals);
    ByLost(s0, l, vals);
    states := RunBy(s0, Runs.Booted(s0), steps);
    var lo := |BootSteps(s0.start)|;
    var e := lo + 1 + |WorkSteps(l, vals)|;
    at := e + 1;
    LostPattern(s0.start, l, vals, lo, e);
    CarriesOutLog(Events(steps), lo, e, l, vals, c, area);
    LostPerforms(Events(steps), lo, e, c, area);
    LostIsInterrupted(states, steps, lo, e);
    RunIsShaped(states, steps);
  }

  lemma OneCommit(fs: FsModel.Fs, c: FW.Commit, area: LogArea, i: nat, off: nat, src: seq<FsBytes.byte>, len: nat)
    requires FsModel.Shape(fs) && FW.Chain(fs, [c], i, off, src, len)
    ensures FsModel.Shape(c.fs) && |c.fs.blocks| == |fs.blocks| && 0 < |c.log| <= MAXOPBLOCKS
  {
    assert FW.Part(0) && FW.Saw(0, c) && [c][0] == c;
  }
}
