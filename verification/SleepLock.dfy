/**
 sleep, wakeup and the sleep lock as a transition system of n processes.

 A step is what a process does between two acquisitions of a spin lock: `lk` is the lock inside the
 sleep lock, `plock` are the locks of the processes.  A process that has called sched keeps its lock
 until the scheduler has switched away from it.
 */
module SleepLock {
  import opened Options

  datatype Pc =
    | Idle
    | Want            // acquire(&lk->lk) in acquiresleep, or at the end of sleep
    | Check           // while (lk->locked)
    | Enter           // in sleep, holding lk and p->lock
    | Left            // has released lk, still holds p->lock
    | Marked          // chan and SLEEPING set, on the way into the scheduler with p->lock
    | Asleep          // SLEEPING, p->lock released by the scheduler
    | Ready           // RUNNABLE
    | Back            // dispatched, holding p->lock
    | Critical        // after acquiresleep
    | WantBack        // acquire(&lk->lk) in releasesleep
    | Waking(i: nat)  // locked = 0 done, wakeup looks at process i next

  datatype State = State(pc: seq<Pc>, lk: Option<nat>, plock: seq<Option<nat>>, locked: bool, owner: nat)

  datatype Step =
    | Begin(p: nat) | TakeLk(p: nat) | Pass(p: nat) | GoSleep(p: nat) | LeaveLk(p: nat) | Mark(p: nat)
    | Switch(p: nat) | Dispatch(p: nat) | Tidy(p: nat) | Leave(p: nat) | Unlock(p: nat) | WakeOne(p: nat)
    | EndWake(p: nat) | Kill(p: nat)

  predicate Shape(s: State) { |s.pc| == |s.plock| }

  predicate Enabled(s: State, a: Step)
    requires Shape(s)
  {
    && a.p < |s.pc|
    && var c := s.pc[a.p];
       match a
       case Begin(p) => c.Idle?
       case TakeLk(p) => c.Want? && s.lk.None?
       case Pass(p) => c.Check? && !s.locked
       case GoSleep(p) => c.Check? && s.locked && s.plock[p].None?
       case LeaveLk(p) => c.Enter?
       case Mark(p) => c.Left?
       case Switch(p) => c.Marked?
       case Dispatch(p) => c.Ready? && s.plock[p].None?
       case Tidy(p) => c.Back?
       case Leave(p) => c.Critical?
       case Unlock(p) => c.WantBack? && s.lk.None?
       case WakeOne(p) => c.Waking? && c.i < |s.pc| && (c.i == p || s.plock[c.i].None?)
       case EndWake(p) => c.Waking? && c.i == |s.pc|
       case Kill(p) => c.Asleep? && s.plock[p].None?
  }

  function At(s: State, p: nat, c: Pc): State
    requires p < |s.pc|
  {
    s.(pc := s.pc[p := c])
  }

  /** A turn of the loop of wakeup: a process other than the caller that sleeps on the channel becomes
      runnable. */
  function Woken(s: State, p: nat, i: nat): State
    requires p < |s.pc| && i < |s.pc|
  {
    var s' := At(s, p, Waking(i + 1));
    if i != p && s.pc[i].Asleep? then At(s', i, Ready) else s'
  }

  function Apply(s: State, a: Step): State
    requires Shape(s) && Enabled(s, a)
  {
    match a
    case Begin(p) => At(s, p, Want)
    case TakeLk(p) => At(s, p, Check).(lk := Some(p))
    case Pass(p) => At(s, p, Critical).(lk := None, locked := true, owner := p)
    case GoSleep(p) => At(s, p, Enter).(plock := s.plock[p := Some(p)])
    case LeaveLk(p) => At(s, p, Left).(lk := None)
    case Mark(p) => At(s, p, Marked)
    case Switch(p) => At(s, p, Asleep).(plock := s.plock[p := None])
    case Dispatch(p) => At(s, p, Back).(plock := s.plock[p := Some(p)])
    case Tidy(p) => At(s, p, Want).(plock := s.plock[p := None])
    case Leave(p) => At(s, p, WantBack)
    case Unlock(p) => At(s, p, Waking(0)).(lk := Some(p), locked := false, owner := 0)
    case WakeOne(p) => Woken(s, p, s.pc[p].i)
    case EndWake(p) => At(s, p, Idle).(lk := None)
    case Kill(p) => At(s, p, Ready)
  }

  // ----- the invariant -----

  predicate HoldsLk(c: Pc) { c.Check? || c.Enter? || c.Waking? }

  predicate HoldsOwn(c: Pc) { c.Enter? || c.Left? || c.Marked? || c.Back? }

  predicate InSection(c: Pc) { c.Critical? || c.WantBack? }

  /** Has seen the lock taken and released lk, and is not yet runnable again. */
  predicate Decided(c: Pc) { c.Left? || c.Marked? || c.Asleep? }

  ghost predicate LkOk(s: State) {
    && Shape(s) && (s.lk.Some? ==> s.lk.value < |s.pc|)
    && (forall p :: 0 <= p < |s.pc| ==> (HoldsLk(s.pc[p]) <==> s.lk == Some(p)))
  }

  ghost predicate PlocksOk(s: State) {
    && Shape(s)
    && (forall p :: 0 <= p < |s.pc| ==> s.plock[p] == if HoldsOwn(s.pc[p]) then Some(p) else None)
  }

  ghost predicate LocksOk(s: State) { LkOk(s) && PlocksOk(s) }

  ghost predicate SectionOk(s: State) {
    && (forall p :: 0 <= p < |s.pc| && InSection(s.pc[p]) ==> s.locked && s.owner == p)
    && (s.locked ==> s.owner < |s.pc| && InSection(s.pc[s.owner]))
    && (forall p :: 0 <= p < |s.pc| ==> (s.pc[p].Enter? ==> s.locked) && (s.pc[p].Waking? ==> !s.locked))
  }

  /** The process that holds lk is in wakeup and has not yet looked at q. */
  predicate WillLookAt(s: State, q: nat) {
    s.lk.Some? && s.lk.value < |s.pc| && s.pc[s.lk.value].Waking? && s.pc[s.lk.value].i <= q
  }

  ghost predicate WakeupsOk(s: State) {
    forall q :: 0 <= q < |s.pc| && Decided(s.pc[q]) && !s.locked ==> WillLookAt(s, q)
  }

  ghost predicate Inv(s: State) { LocksOk(s) && SectionOk(s) && WakeupsOk(s) }

  predicate Init(s: State) {
    Shape(s) && s.lk.None? && !s.locked && forall p :: 0 <= p < |s.pc| ==> s.pc[p].Idle? && s.plock[p].None?
  }

  // ----- every step keeps it -----

  /** Other processes stay where they are, except that wakeup makes one ready. */
  lemma OthersStay(s: State, a: Step, q: nat)
    requires Shape(s) && Enabled(s, a) && q < |s.pc| && q != a.p
    ensures |Apply(s, a).pc| == |Apply(s, a).plock| == |s.pc| && Apply(s, a).plock[q] == s.plock[q]
    ensures Apply(s, a).pc[q] == s.pc[q] || (a.WakeOne? && s.pc[q].Asleep? && Apply(s, a).pc[q].Ready?)
  {
  }

  lemma LkKept(s: State, a: Step)
    requires LkOk(s) && Enabled(s, a)
    ensures LkOk(Apply(s, a))
  {
    var s' := Apply(s, a);
    assert HoldsLk(s'.pc[a.p]) <==> s'.lk == Some(a.p);
    forall q | 0 <= q < |s'.pc| ensures HoldsLk(s'.pc[q]) <==> s'.lk == Some(q) {
      if q != a.p {
        OthersStay(s, a, q);
      }
    }
  }

  lemma PlocksKept(s: State, a: Step)
    requires PlocksOk(s) && Enabled(s, a)
    ensures PlocksOk(Apply(s, a))
  {
    var s' := Apply(s, a);
    assert s'.plock[a.p] == if HoldsOwn(s'.pc[a.p]) then Some(a.p) else None;
    forall q | 0 <= q < |s'.pc| ensures s'.plock[q] == if HoldsOwn(s'.pc[q]) then Some(q) else None {
      if q != a.p {
        OthersStay(s, a, q);
      }
    }
  }

  /** The process that takes the step fits the new state of the lock. */
  lemma SectionOfOne(s: State, a: Step)
    requires LocksOk(s) && SectionOk(s) && Enabled(s, a)
    ensures var s' := Apply(s, a);
            && (InSection(s'.pc[a.p]) ==> s'.locked && s'.owner == a.p)
            && (s'.locked && s'.owner == a.p ==> InSection(s'.pc[a.p]))
            && (s'.pc[a.p].Enter? ==> s'.locked) && (s'.pc[a.p].Waking? ==> !s'.locked)
  {
    assert s.locked ==> InSection(s.pc[s.owner]);
  }

  lemma SectionOfOther(s: State, a: Step, q: nat)
    requires LocksOk(s) && SectionOk(s) && Enabled(s, a) && q < |s.pc| && q != a.p
    ensures var s' := Apply(s, a);
            && (InSection(s'.pc[q]) ==> s'.locked && s'.owner == q)
            && (s'.locked && s'.owner == q ==> InSection(s'.pc[q]))
            && (s'.pc[q].Enter? ==> s'.locked) && (s'.pc[q].Waking? ==> !s'.locked)
  {
    OthersStay(s, a, q);
    assert HoldsLk(s.pc[q]) <==> s.lk == Some(q);
    assert HoldsLk(s.pc[a.p]) <==> s.lk == Some(a.p);
  }

  lemma SectionKept(s: State, a: Step)
    requires LocksOk(s) && SectionOk(s) && Enabled(s, a)
    ensures SectionOk(Apply(s, a))
  {
    var s' := Apply(s, a);
    SectionOfOne(s, a);
    assert s'.locked ==> s'.owner < |s.pc|;
    forall q | 0 <= q < |s.pc|
      ensures InSection(s'.pc[q]) ==> s'.locked && s'.owner == q
      ensures s'.locked && s'.owner == q ==> InSection(s'.pc[q])
      ensures (s'.pc[q].Enter? ==> s'.locked) && (s'.pc[q].Waking? ==> !s'.locked)
    {
      if q != a.p {
        SectionOfOther(s, a, q);
      }
    }
  }

  /** A step of a process that changes neither lock nor wakers keeps the promise of a wakeup. */
  lemma WakeupsKept(s: State, a: Step)
    requires Inv(s) && Enabled(s, a)
    ensures WakeupsOk(Apply(s, a))
  {
    var s' := Apply(s, a);
    forall q | 0 <= q < |s'.pc| && Decided(s'.pc[q]) && !s'.locked ensures WillLookAt(s', q) {
      if a.WakeOne? {
        assert q != s.pc[a.p].i;
      }
    }
  }

  lemma StepKeepsInv(s: State, a: Step)
    requires Inv(s) && Enabled(s, a)
    ensures Inv(Apply(s, a))
  {
    LkKept(s, a);
    PlocksKept(s, a);
    SectionKept(s, a);
    WakeupsKept(s, a);
  }

  // ----- runs -----

  /** Names a position of a run; the steps of a run are looked at only where it is mentioned. */
  predicate Here(i: int) { true }

  ghost predicate Run(states: seq<State>, steps: seq<Step>) {
    && |states| == |steps| + 1 && Init(states[0])
    && forall i {:trigger Here(i)} :: 0 <= i < |steps| ==>
         Shape(states[i]) && Enabled(states[i], steps[i]) && states[i + 1] == Apply(states[i], steps[i])
  }

  lemma {:induction false} RunKeepsInv(states: seq<State>, steps: seq<Step>, n: nat)
    requires Run(states, steps) && n <= |steps|
    ensures Inv(states[n])
  {
    if n > 0 {
      RunKeepsInv(states, steps, n - 1);
      assert Here(n - 1);
      StepKeepsInv(states[n - 1], steps[n - 1]);
    }
  }

  /** Sleep locks are exclusive. */
  lemma MutualExclusion(states: seq<State>, steps: seq<Step>, n: nat, p: nat, q: nat)
    requires Run(states, steps) && n <= |steps| && p < |states[n].pc| && q < |states[n].pc|
    requires states[n].pc[p].Critical? && states[n].pc[q].Critical?
    ensures p == q && states[n].locked && states[n].owner == p
  {
    RunKeepsInv(states, steps, n);
  }

  /** No lost wakeup: whenever lk is free, a process that sleeps, or is about to, sleeps for a lock that is
      taken. */
  lemma NoLostWakeup(states: seq<State>, steps: seq<Step>, n: nat, q: nat)
    requires Run(states, steps) && n <= |steps| && q < |states[n].pc| && Decided(states[n].pc[q]) && states[n].lk.None?
    ensures states[n].locked
  {
    RunKeepsInv(states, steps, n);
  }

  /** A sleeper is woken before releasesleep returns: while its lock is free, the releasing process is on
      its way to it. */
  lemma WakerIsComing(states: seq<State>, steps: seq<Step>, n: nat, q: nat)
    requires Run(states, steps) && n <= |steps| && q < |states[n].pc| && Decided(states[n].pc[q]) && !states[n].locked
    ensures WillLookAt(states[n], q)
  {
    RunKeepsInv(states, steps, n);
  }

  /** The spin lock and the process locks cannot deadlock: a process in wakeup waits for a process lock
      only while its holder can run on and release it. */
  lemma WakerIsNotStuck(s: State, w: nat)
    requires Inv(s) && w < |s.pc| && s.pc[w].Waking? && s.pc[w].i < |s.pc|
    ensures Enabled(s, WakeOne(w)) || Enabled(s, Mark(s.pc[w].i)) || Enabled(s, Switch(s.pc[w].i))
            || Enabled(s, Tidy(s.pc[w].i))
  {
    var i := s.pc[w].i;
    assert s.pc[i].Enter? ==> s.lk == Some(i);
  }

  // ----- the ways out of acquiresleep and of a wait -----

  /** In acquiresleep, asleep or not. */
  predicate Acquiring(c: Pc) {
    c.Want? || c.Check? || c.Enter? || c.Left? || c.Marked? || c.Asleep? || c.Ready? || c.Back?
  }

  /** acquiresleep returns only with the lock, which was free; in particular, a process that was woken looks at the
      lock again. */
  lemma AcquireTakesLock(states: seq<State>, steps: seq<Step>, n: nat, p: nat)
    requires Run(states, steps) && n < |steps| && p < |states[n].pc| && Acquiring(states[n].pc[p])
    requires p < |states[n + 1].pc| && !Acquiring(states[n + 1].pc[p])
    ensures steps[n] == Pass(p) && states[n + 1].pc[p].Critical? && !states[n].locked
    ensures states[n + 1].locked && states[n + 1].owner == p
  {
    assert Here(n);
    AcquireStep(states[n], steps[n], p);
  }

  lemma AcquireStep(s: State, a: Step, p: nat)
    requires Shape(s) && Enabled(s, a) && p < |s.pc| && Acquiring(s.pc[p])
    requires p < |Apply(s, a).pc| && !Acquiring(Apply(s, a).pc[p])
    ensures a == Pass(p) && Apply(s, a).pc[p].Critical? && !s.locked
    ensures Apply(s, a).locked && Apply(s, a).owner == p
  {
    if a.p != p {
      OthersStay(s, a, p);
    }
  }

  /** Process p neither sleeps nor is outside of acquiresleep and releasesleep. */
  predicate Busy(c: Pc) { !c.Idle? && !c.Critical? && !c.Asleep? }

  /** The holder of lk can go on, or waits for a process that can. */
  lemma HolderGoesOn(s: State) returns (a: Step)
    requires Inv(s) && s.lk.Some? && (s.pc[s.lk.value].Waking? ==> s.pc[s.lk.value].i <= |s.pc|)
    ensures Shape(s) && Enabled(s, a) && Busy(s.pc[a.p])
  {
    var w := s.lk.value;
    assert HoldsLk(s.pc[w]);
    assert s.plock[w] == if HoldsOwn(s.pc[w]) then Some(w) else None;
    if s.pc[w].Check? {
      a := if s.locked then GoSleep(w) else Pass(w);
    } else if s.pc[w].Enter? {
      a := LeaveLk(w);
    } else if s.pc[w].i == |s.pc| {
      a := EndWake(w);
    } else {
      WakerIsNotStuck(s, w);
      var i := s.pc[w].i;
      a := if Enabled(s, WakeOne(w)) then WakeOne(w)
           else if s.pc[i].Left? then Mark(i) else if s.pc[i].Marked? then Switch(i) else Tidy(i);
    }
  }

  /** How far wakeup has come. */
  ghost predicate Bounded(s: State) {
    forall p :: 0 <= p < |s.pc| && s.pc[p].Waking? ==> s.pc[p].i <= |s.pc|
  }

  lemma {:induction false} RunIsBounded(states: seq<State>, steps: seq<Step>, n: nat)
    requires Run(states, steps) && n <= |steps|
    ensures Bounded(states[n])
  {
    if n > 0 {
      RunIsBounded(states, steps, n - 1);
      assert Here(n - 1);
      BoundedStep(states[n - 1], steps[n - 1]);
    }
  }

  lemma BoundedStep(s: State, a: Step)
    requires Shape(s) && Enabled(s, a) && Bounded(s)
    ensures Bounded(Apply(s, a))
  {
    var s' := Apply(s, a);
    forall q | 0 <= q < |s'.pc| && s'.pc[q].Waking? ensures s'.pc[q].i <= |s'.pc| {
      if q != a.p {
        OthersStay(s, a, q);
      }
    }
  }

  /** No deadlock: in every run, while some process is in acquiresleep or releasesleep and not asleep, one of these
      processes can take a step. */
  lemma NeverStuck(states: seq<State>, steps: seq<Step>, n: nat, p: nat) returns (a: Step)
    requires Run(states, steps) && n <= |steps| && p < |states[n].pc| && Busy(states[n].pc[p])
    ensures Shape(states[n]) && Enabled(states[n], a) && Busy(states[n].pc[a.p])
  {
    var s := states[n];
    RunKeepsInv(states, steps, n);
    RunIsBounded(states, steps, n);
    assert HoldsLk(s.pc[p]) <==> s.lk == Some(p);
    assert s.plock[p] == if HoldsOwn(s.pc[p]) then Some(p) else None;
    if s.lk.Some? {
      a := HolderGoesOn(s);
    } else if s.pc[p].Want? {
      a := TakeLk(p);
    } else if s.pc[p].WantBack? {
      a := Unlock(p);
    } else if s.pc[p].Left? {
      a := Mark(p);
    } else if s.pc[p].Marked? {
      a := Switch(p);
    } else if s.pc[p].Ready? {
      a := Dispatch(p);
    } else {
      a := Tidy(p);
    }
  }
}
