/**
 kexit, reparent and kwait as a transition system of the process table.

 A step is what a process does between two acquisitions of a spin lock: `wl` is wait_lock, `plock` are
 the locks of the processes.  Only the sleep in kwait is modelled, whose channel is the process itself.
 */
module ExitWait {
  import opened Options

  datatype Life = Unused | Live | Zombie

  datatype Pc =
    | User
    | ExitWant                  // acquire(&wait_lock) in kexit
    | Reparent(i: nat)          // reparent looks at process i next
    | WakeInit(i: nat, j: nat)  // process i has been given to init; wakeup(initproc) looks at j next
    | WakeParent(j: nat)        // wakeup(p->parent) looks at j next
    | Dying                     // acquire(&p->lock) next
    | Dead                      // ZOMBIE, in sched with p->lock
    | Gone                      // ZOMBIE, switched away from
    | WaitWant                  // acquire(&wait_lock) in kwait, or at the end of sleep
    | Scan(i: nat, kids: bool)  // kwait looks at process i next
    | Enter | Left | Marked | Asleep | Ready | Back   // in sleep

  datatype State = State(init: nat, life: seq<Life>, parent: seq<Option<nat>>, pc: seq<Pc>, wl: Option<nat>,
                         plock: seq<Option<nat>>)

  datatype Step =
    | Fork(p: nat, c: nat) | StartExit(p: nat) | TakeExit(p: nat) | ReparentOne(p: nat) | WakeInitOne(p: nat)
    | WakeInitEnd(p: nat) | ReparentEnd(p: nat) | WakeParentOne(p: nat) | WakeParentEnd(p: nat) | Die(p: nat)
    | SwitchDead(p: nat) | StartWait(p: nat) | TakeWait(p: nat) | ScanOne(p: nat) | ScanSleep(p: nat)
    | ScanReturn(p: nat)   // no children, or killed, or copyout of the status fails
    | LeaveWl(p: nat) | Mark(p: nat) | Switch(p: nat) | Dispatch(p: nat) | Tidy(p: nat) | Kill(p: nat)

  predicate Shape(s: State) {
    |s.life| == |s.parent| == |s.pc| == |s.plock| && s.init < |s.pc|
  }

  predicate CanLook(s: State, p: nat, j: nat)
    requires Shape(s)
  {
    j < |s.pc| && (j == p || s.plock[j].None?)
  }

  /** kwait finds zombie i among the children of p, and has its lock. */
  predicate FoundZombie(s: State, p: nat, i: nat)
    requires Shape(s)
  {
    i < |s.pc| && s.parent[i] == Some(p) && s.life[i].Zombie? && s.plock[i].None?
  }

  predicate Enabled(s: State, a: Step)
    requires Shape(s)
  {
    && a.p < |s.pc| && !s.life[a.p].Unused?
    && var c, n := s.pc[a.p], |s.pc|;
       match a
       case Fork(p, k) => c.User? && k < n && s.life[k].Unused? && s.wl.None?
       case StartExit(p) => c.User? && p != s.init
       case TakeExit(p) => c.ExitWant? && s.wl.None?
       case ReparentOne(p) => c.Reparent? && c.i < n
       case WakeInitOne(p) => c.WakeInit? && CanLook(s, p, c.j)
       case WakeInitEnd(p) => c.WakeInit? && c.j == n
       case ReparentEnd(p) => c.Reparent? && c.i == n
       case WakeParentOne(p) => c.WakeParent? && CanLook(s, p, c.j)
       case WakeParentEnd(p) => c.WakeParent? && c.j == n
       case Die(p) => c.Dying? && s.plock[p].None?
       case SwitchDead(p) => c.Dead?
       case StartWait(p) => c.User?
       case TakeWait(p) => c.WaitWant? && s.wl.None?
       case ScanOne(p) => c.Scan? && c.i < n && (s.parent[c.i] == Some(p) ==> s.plock[c.i].None?)
       case ScanSleep(p) => c.Scan? && c.i == n && c.kids && s.plock[p].None?
       case ScanReturn(p) => c.Scan? && (c.i == n || FoundZombie(s, p, c.i))
       case LeaveWl(p) => c.Enter?
       case Mark(p) => c.Left?
       case Switch(p) => c.Marked?
       case Dispatch(p) => c.Ready? && s.plock[p].None?
       case Tidy(p) => c.Back?
       case Kill(p) => c.Asleep? && s.plock[p].None?
  }

  function At(s: State, p: nat, c: Pc): State
    requires p < |s.pc|
  {
    s.(pc := s.pc[p := c])
  }

  /** A turn of wakeup(target): a process other than the caller that sleeps on the target, which in kwait
      is the target itself, becomes runnable. */
  function Woken(s: State, p: nat, j: nat, target: Option<nat>, c: Pc): State
    requires p < |s.pc| && j < |s.pc|
  {
    var s' := At(s, p, c);
    if j != p && s.pc[j].Asleep? && target == Some(j) then At(s', j, Ready) else s'
  }

  function DoReparent(s: State, p: nat, i: nat): State
    requires Shape(s) && p < |s.pc| && i < |s.pc|
  {
    if s.parent[i] == Some(p) then At(s, p, WakeInit(i, 0)).(parent := s.parent[i := Some(s.init)])
    else At(s, p, Reparent(i + 1))
  }

  /** kwait looks at process i: a zombie child is freed, and kwait returns. */
  function DoScan(s: State, p: nat, i: nat, kids: bool): State
    requires Shape(s) && p < |s.pc| && i < |s.pc|
  {
    if s.parent[i] != Some(p) then At(s, p, Scan(i + 1, kids))
    else if !s.life[i].Zombie? then At(s, p, Scan(i + 1, true))
    else State(s.init, s.life[i := Unused], s.parent[i := None], s.pc[i := User][p := User], None, s.plock)
  }

  function Apply(s: State, a: Step): State
    requires Shape(s) && Enabled(s, a)
  {
    var c := s.pc[a.p];
    match a
    case Fork(p, k) => State(s.init, s.life[k := Live], s.parent[k := Some(p)], s.pc[k := User], s.wl, s.plock)
    case StartExit(p) => At(s, p, ExitWant)
    case TakeExit(p) => At(s, p, Reparent(0)).(wl := Some(p))
    case ReparentOne(p) => DoReparent(s, p, c.i)
    case WakeInitOne(p) => Woken(s, p, c.j, Some(s.init), WakeInit(c.i, c.j + 1))
    case WakeInitEnd(p) => At(s, p, Reparent(c.i + 1))
    case ReparentEnd(p) => At(s, p, WakeParent(0))
    case WakeParentOne(p) => Woken(s, p, c.j, s.parent[p], WakeParent(c.j + 1))
    case WakeParentEnd(p) => At(s, p, Dying)
    case Die(p) => At(s, p, Dead).(life := s.life[p := Zombie], wl := None, plock := s.plock[p := Some(p)])
    case SwitchDead(p) => At(s, p, Gone).(plock := s.plock[p := None])
    case StartWait(p) => At(s, p, WaitWant)
    case TakeWait(p) => At(s, p, Scan(0, false)).(wl := Some(p))
    case ScanOne(p) => DoScan(s, p, c.i, c.kids)
    case ScanSleep(p) => At(s, p, Enter).(plock := s.plock[p := Some(p)])
    case ScanReturn(p) => At(s, p, User).(wl := None)
    case LeaveWl(p) => At(s, p, Left).(wl := None)
    case Mark(p) => At(s, p, Marked)
    case Switch(p) => At(s, p, Asleep).(plock := s.plock[p := None])
    case Dispatch(p) => At(s, p, Back).(plock := s.plock[p := Some(p)])
    case Tidy(p) => At(s, p, WaitWant).(plock := s.plock[p := None])
    case Kill(p) => At(s, p, Ready)
  }

  // ----- the invariant -----

  predicate HoldsWl(c: Pc) {
    c.Reparent? || c.WakeInit? || c.WakeParent? || c.Dying? || c.Scan? || c.Enter?
  }

  predicate HoldsOwn(c: Pc) { c.Dead? || c.Enter? || c.Left? || c.Marked? || c.Back? }

  /** Has scanned its children and released wait_lock, and is not yet runnable again. */
  predicate Decided(c: Pc) { c.Left? || c.Marked? || c.Asleep? }

  /** The locks and the states of one process. */
  predicate ProcOk(s: State, p: nat)
    requires Shape(s) && p < |s.pc|
  {
    && (HoldsWl(s.pc[p]) <==> s.wl == Some(p))
    && s.plock[p] == (if HoldsOwn(s.pc[p]) then Some(p) else None)
    && (s.life[p].Zombie? <==> s.pc[p].Dead? || s.pc[p].Gone?)
    && (s.life[p].Unused? ==> s.pc[p].User?) && (s.life[p].Unused? || p == s.init <==> s.parent[p].None?)
  }

  ghost predicate ProcsOk(s: State) {
    && Shape(s) && (s.wl.Some? ==> s.wl.value < |s.pc|)
    && s.life[s.init].Live? && s.parent[s.init].None? && !Exiting(s.pc[s.init])
    && forall p :: 0 <= p < |s.pc| ==> ProcOk(s, p)
  }

  predicate Exiting(c: Pc) {
    c.ExitWant? || c.Reparent? || c.WakeInit? || c.WakeParent? || c.Dying? || c.Dead? || c.Gone?
  }

  /** How many processes reparent has dealt with. */
  function Given(c: Pc, n: nat): nat {
    if c.Reparent? then c.i else if c.WakeInit? then c.i + 1
    else if c.WakeParent? || c.Dying? || c.Dead? || c.Gone? then n else 0
  }

  /** A child has a live parent, unless the parent is about to give it away. */
  predicate ParentOk(s: State, c: nat)
    requires Shape(s) && c < |s.pc|
  {
    s.parent[c].Some? ==>
      && s.parent[c].value < |s.pc| && s.parent[c].value != c && !s.life[s.parent[c].value].Unused?
      && Given(s.pc[s.parent[c].value], |s.pc|) <= c
  }

  ghost predicate ParentsOk(s: State) {
    Shape(s) && forall c :: 0 <= c < |s.pc| ==> ParentOk(s, c)
  }

  /** Process e holds wait_lock and its wakeup of process q is still to come. */
  predicate WillWake(s: State, q: nat) {
    && Shape(s) && s.wl.Some? && s.wl.value < |s.pc|
    && s.pc[s.wl.value].WakeInit? && q == s.init && s.pc[s.wl.value].j <= q
  }

  /** A process that sleeps in kwait has a zombie child only while its wakeup is on the way. */
  predicate SleeperOk(s: State, q: nat, c: nat)
    requires Shape(s) && q < |s.pc| && c < |s.pc|
  {
    Decided(s.pc[q]) && s.life[c].Zombie? && s.parent[c] == Some(q) ==> WillWake(s, q)
  }

  predicate Scanned(c: Pc, i: nat) { (c.Scan? && i < c.i) || c.Enter? }

  /** A scan has found no zombie so far. */
  predicate ScanOk(s: State, q: nat, c: nat)
    requires Shape(s) && q < |s.pc| && c < |s.pc|
  {
    s.parent[c] == Some(q) && Scanned(s.pc[q], c) ==> !s.life[c].Zombie?
  }

  /** A wakeup by e that has passed its target q leaves it awake. */
  predicate WakerOk(s: State, q: nat, e: nat)
    requires Shape(s) && q < |s.pc| && e < |s.pc|
  {
    Decided(s.pc[q]) ==>
      && (s.pc[e].WakeInit? && q == s.init ==> s.pc[e].j <= q)
      && (s.parent[e] == Some(q) ==> !s.pc[e].Dying? && (s.pc[e].WakeParent? ==> s.pc[e].j <= q))
  }

  predicate PairOk(s: State, q: nat, c: nat)
    requires Shape(s) && q < |s.pc| && c < |s.pc|
  {
    SleeperOk(s, q, c) && ScanOk(s, q, c) && WakerOk(s, q, c)
  }

  ghost predicate PairsOk(s: State) {
    Shape(s) && forall q, c :: 0 <= q < |s.pc| && 0 <= c < |s.pc| ==> PairOk(s, q, c)
  }

  ghost predicate Inv(s: State) {
    ProcsOk(s) && ParentsOk(s) && PairsOk(s)
  }

  predicate Init(s: State) {
    && Shape(s) && s.wl.None? && s.life[s.init].Live?
    && forall p :: 0 <= p < |s.pc| ==>
         s.pc[p].User? && s.plock[p].None? && s.parent[p].None? && (p != s.init ==> s.life[p].Unused?)
  }

  // ----- every step keeps it -----

  /** Steps that concern other processes. */
  predicate Loud(a: Step) { a.Fork? || a.ReparentOne? || a.ScanOne? || a.WakeInitOne? || a.WakeParentOne? }

  lemma QuietFrame(s: State, a: Step, q: nat)
    requires Shape(s) && Enabled(s, a) && !Loud(a) && q < |s.pc| && q != a.p
    ensures var s' := Apply(s, a);
            && Shape(s') && |s'.pc| == |s.pc| && s'.init == s.init && s'.plock[q] == s.plock[q] && s'.pc[q] == s.pc[q]
            && s'.life[q] == s.life[q] && s'.parent == s.parent
  {
  }

  /** What a step does to a process other than the one that takes it. */
  lemma Frame(s: State, a: Step, q: nat)
    requires ProcsOk(s) && Enabled(s, a) && q < |s.pc| && q != a.p
    ensures var s' := Apply(s, a);
            && Shape(s') && |s'.pc| == |s.pc| && s'.init == s.init && s'.plock[q] == s.plock[q]
            && (s'.pc[q] == s.pc[q] || (s.pc[q].Asleep? && s'.pc[q].Ready?) || (s.pc[q].Gone? && s'.pc[q].User?))
            && (s'.life[q] == s.life[q] || (a.Fork? && s.life[q].Unused? && s'.life[q].Live?)
                || (a.ScanOne? && s.life[q].Zombie? && s'.life[q].Unused? && s'.parent[q].None? && s'.pc[q].User?))
            && (s'.parent[q] == s.parent[q] || (a.Fork? && s'.parent[q] == Some(a.p) && s'.life[q].Live?)
                || (a.ReparentOne? && s.parent[q] == Some(a.p) && s'.parent[q] == Some(s.init)
                   && s'.pc[a.p] == WakeInit(q, 0))
                || (a.ScanOne? && s'.parent[q].None? && s'.life[q].Unused?))
            && (s'.life[q].Zombie? ==> s.life[q].Zombie?) && (s.pc[q].Gone? && s'.pc[q].User? ==> s'.life[q].Unused?)
  {
    assert ProcOk(s, q) && ProcOk(s, a.p);
    if !Loud(a) {
      QuietFrame(s, a, q);
    } else if a.ScanOne? && s.pc[a.p].i == q {
      assert s.life[q].Zombie? ==> s.pc[q].Dead? || s.pc[q].Gone?;
    }
  }

  /** What a step does to the process that takes it. */
  lemma FrameOwn(s: State, a: Step)
    requires ProcsOk(s) && ParentsOk(s) && Enabled(s, a)
    ensures var s' := Apply(s, a);
            && Shape(s') && |s'.pc| == |s.pc| && s'.init == s.init && s'.parent[a.p] == s.parent[a.p]
            && (s'.life[a.p] == s.life[a.p] || (a.Die? && s'.life[a.p].Zombie?)) && !s'.life[a.p].Unused?
  {
    assert ProcOk(s, a.p);
    assert ParentOk(s, a.p);
  }

  lemma OwnProcOk(s: State, a: Step)
    requires ProcsOk(s) && ParentsOk(s) && Enabled(s, a)
    ensures Shape(Apply(s, a)) && a.p < |Apply(s, a).pc| && ProcOk(Apply(s, a), a.p)
  {
    FrameOwn(s, a);
    assert ProcOk(s, a.p);
  }

  lemma OtherProcOk(s: State, a: Step, q: nat)
    requires ProcsOk(s) && ParentsOk(s) && Enabled(s, a) && q < |s.pc| && q != a.p
    ensures Shape(Apply(s, a)) && q < |Apply(s, a).pc| && ProcOk(Apply(s, a), q)
  {
    assert ProcOk(s, q) && ProcOk(s, a.p);
    Frame(s, a, q);
    OtherHoldsWl(s, a, q);
  }

  /** A step of another process does not make q the holder of wait_lock, nor take it away. */
  lemma OtherHoldsWl(s: State, a: Step, q: nat)
    requires ProcsOk(s) && Enabled(s, a) && q < |s.pc| && q != a.p
    ensures s.wl == Some(q) <==> Apply(s, a).wl == Some(q)
  {
    assert ProcOk(s, q) && ProcOk(s, a.p);
  }

  lemma ProcsKept(s: State, a: Step)
    requires ProcsOk(s) && ParentsOk(s) && Enabled(s, a)
    ensures ProcsOk(Apply(s, a))
  {
    var s' := Apply(s, a);
    OwnProcOk(s, a);
    FrameOwn(s, a);
    forall q | 0 <= q < |s.pc| ensures ProcOk(s', q) {
      if q != a.p {
        OtherProcOk(s, a, q);
      }
    }
    if s.init != a.p {
      Frame(s, a, s.init);
    }
    assert ProcOk(s, s.init);
  }

  /** reparent goes on only past processes that are not children. */
  lemma GivenOn(s: State, a: Step, c: nat)
    requires ProcsOk(s) && ParentsOk(s) && Enabled(s, a) && c < |s.pc| && c != a.p && s.parent[c] == Some(a.p)
             && Apply(s, a).parent[c] == Some(a.p)
    ensures Given(Apply(s, a).pc[a.p], |s.pc|) <= c
  {
    assert ParentOk(s, c) && ProcOk(s, a.p);
  }

  lemma ParentKept(s: State, a: Step, c: nat)
    requires ProcsOk(s) && ParentsOk(s) && Enabled(s, a) && c < |s.pc|
    ensures Shape(Apply(s, a)) && c < |Apply(s, a).pc| && ParentOk(Apply(s, a), c)
  {
    var s' := Apply(s, a);
    FrameOwn(s, a);
    assert ProcOk(s, a.p) && ProcOk(s, c) && ParentOk(s, c);
    if c != a.p {
      Frame(s, a, c);
    }
    if s'.parent[c].Some? && s'.parent[c].value < |s.pc| {
      var q := s'.parent[c].value;
      if q != a.p {
        Frame(s, a, q);
        assert ProcOk(s, q);
      } else if s.parent[c] == Some(a.p) {
        GivenOn(s, a, c);
      }
    }
  }

  lemma ParentsKept(s: State, a: Step)
    requires ProcsOk(s) && ParentsOk(s) && Enabled(s, a)
    ensures ParentsOk(Apply(s, a))
  {
    FrameOwn(s, a);
    forall c | 0 <= c < |s.pc| ensures ParentOk(Apply(s, a), c) {
      ParentKept(s, a, c);
    }
  }

  // ----- pairs of processes -----

  lemma ScanKept(s: State, a: Step, q: nat, c: nat)
    requires ProcsOk(s) && ParentsOk(s) && PairsOk(s) && Enabled(s, a) && q < |s.pc| && c < |s.pc|
    ensures Shape(Apply(s, a)) && |Apply(s, a).pc| == |s.pc| && ScanOk(Apply(s, a), q, c)
  {
    var s' := Apply(s, a);
    FrameOwn(s, a);
    assert PairOk(s, q, c) && ProcOk(s, a.p) && ProcOk(s, q) && ParentOk(s, c);
    if c != a.p {
      Frame(s, a, c);
    }
    if q != a.p {
      Frame(s, a, q);
    }
  }

  lemma QuietWl(s: State, a: Step)
    requires ProcsOk(s) && ParentsOk(s) && Enabled(s, a) && !Loud(a) && s.wl.Some? && s.wl.value != a.p
    ensures s.wl.value < |s.pc| && ProcOk(s, s.wl.value)
    ensures var s' := Apply(s, a); Shape(s') && |s'.pc| == |s.pc| && s'.pc[s.wl.value] == s.pc[s.wl.value]
  {
    QuietFrame(s, a, s.wl.value);
  }

  /** The step is that of the process that sleeps. */
  lemma QuietOwnSleeper(s: State, a: Step, c: nat)
    requires ProcsOk(s) && ParentsOk(s) && PairsOk(s) && Enabled(s, a) && !Loud(a) && c < |s.pc| && c != a.p
    ensures Shape(Apply(s, a)) && |Apply(s, a).pc| == |s.pc| && SleeperOk(Apply(s, a), a.p, c)
  {
    FrameOwn(s, a);
    assert PairOk(s, a.p, c) && ProcOk(s, a.p) && ProcOk(s, c) && ParentOk(s, c);
    QuietFrame(s, a, c);
    if s.wl.Some? && s.wl.value != a.p {
      QuietWl(s, a);
    }
  }

  /** The step is that of another process. */
  lemma QuietOtherSleeper(s: State, a: Step, q: nat, c: nat)
    requires ProcsOk(s) && ParentsOk(s) && PairsOk(s) && Enabled(s, a) && !Loud(a) && q < |s.pc| && c < |s.pc|
    requires q != a.p
    ensures Shape(Apply(s, a)) && |Apply(s, a).pc| == |s.pc| && SleeperOk(Apply(s, a), q, c)
  {
    FrameOwn(s, a);
    assert PairOk(s, q, c) && ProcOk(s, a.p) && ProcOk(s, c);
    QuietFrame(s, a, q);
    if c != a.p {
      QuietFrame(s, a, c);
    }
    if s.wl.Some? && s.wl.value != a.p {
      QuietWl(s, a);
    }
  }

  lemma QuietSleeper(s: State, a: Step, q: nat, c: nat)
    requires ProcsOk(s) && ParentsOk(s) && PairsOk(s) && Enabled(s, a) && !Loud(a) && q < |s.pc| && c < |s.pc|
    ensures Shape(Apply(s, a)) && |Apply(s, a).pc| == |s.pc| && SleeperOk(Apply(s, a), q, c)
  {
    if q != a.p {
      QuietOtherSleeper(s, a, q, c);
    } else if c != a.p {
      QuietOwnSleeper(s, a, c);
    } else {
      FrameOwn(s, a);
      assert ParentOk(s, c);
    }
  }

  lemma LoudSleeper(s: State, a: Step, q: nat, c: nat)
    requires ProcsOk(s) && ParentsOk(s) && PairsOk(s) && Enabled(s, a) && Loud(a) && q < |s.pc| && c < |s.pc|
    ensures Shape(Apply(s, a)) && |Apply(s, a).pc| == |s.pc| && SleeperOk(Apply(s, a), q, c)
  {
    FrameOwn(s, a);
    assert PairOk(s, q, c) && ProcOk(s, a.p) && ProcOk(s, q) && ProcOk(s, c) && ParentOk(s, c);
    if c != a.p {
      Frame(s, a, c);
    }
    if q != a.p {
      Frame(s, a, q);
    }
    assert PairOk(s, s.init, a.p) && PairOk(s, q, a.p);
  }

  lemma QuietWaker(s: State, a: Step, q: nat, c: nat)
    requires ProcsOk(s) && ParentsOk(s) && PairsOk(s) && Enabled(s, a) && !Loud(a) && q < |s.pc| && c < |s.pc|
    ensures Shape(Apply(s, a)) && |Apply(s, a).pc| == |s.pc| && WakerOk(Apply(s, a), q, c)
  {
    FrameOwn(s, a);
    assert PairOk(s, q, c) && ProcOk(s, a.p) && ProcOk(s, q) && ProcOk(s, c) && ParentOk(s, c);
    if c != a.p {
      QuietFrame(s, a, c);
    }
    if q != a.p {
      QuietFrame(s, a, q);
    }
  }

  lemma LoudWaker(s: State, a: Step, q: nat, c: nat)
    requires ProcsOk(s) && ParentsOk(s) && PairsOk(s) && Enabled(s, a) && Loud(a) && q < |s.pc| && c < |s.pc|
    ensures Shape(Apply(s, a)) && |Apply(s, a).pc| == |s.pc| && WakerOk(Apply(s, a), q, c)
  {
    FrameOwn(s, a);
    assert PairOk(s, q, c) && ProcOk(s, a.p) && ProcOk(s, q) && ProcOk(s, c) && ParentOk(s, c);
    if c != a.p {
      Frame(s, a, c);
    }
    if q != a.p {
      Frame(s, a, q);
    }
  }

  lemma PairsKept(s: State, a: Step)
    requires ProcsOk(s) && ParentsOk(s) && PairsOk(s) && Enabled(s, a)
    ensures PairsOk(Apply(s, a))
  {
    FrameOwn(s, a);
    forall q, c | 0 <= q < |s.pc| && 0 <= c < |s.pc| ensures PairOk(Apply(s, a), q, c) {
      ScanKept(s, a, q, c);
      if Loud(a) {
        LoudSleeper(s, a, q, c);
        LoudWaker(s, a, q, c);
      } else {
        QuietSleeper(s, a, q, c);
        QuietWaker(s, a, q, c);
      }
    }
  }

  lemma StepKeepsInv(s: State, a: Step)
    requires Inv(s) && Enabled(s, a)
    ensures Inv(Apply(s, a))
  {
    ProcsKept(s, a);
    ParentsKept(s, a);
    PairsKept(s, a);
  }

  // ----- runs -----

  /** Names a position of a run; the steps of a run are looked at only where it is mentioned. */
  predicate Here(i: int) { true }

  ghost predicate Run(states: seq<State>, steps: seq<Step>) {
    && |states| == |steps| + 1 && Init(states[0])
    && forall i {:trigger Here(i)} :: 0 <= i < |steps| ==>
         Shape(states[i]) && Enabled(states[i], steps[i]) && states[i + 1] == Apply(states[i], steps[i])
  }

  lemma {:induction false} RunKeepsInv(states: seq<State>, steps: seq<Step>, n: nat)
    requires Run(states, steps) && n <= |steps|
    ensures Inv(states[n])
  {
    if n == 0 {
      assert ProcsOk(states[0]) && ParentsOk(states[0]) && PairsOk(states[0]);
    } else {
      RunKeepsInv(states, steps, n - 1);
      assert Here(n - 1);
      StepKeepsInv(states[n - 1], steps[n - 1]);
    }
  }

  /** No process sleeps in kwait, or is about to, with a zombie child while wait_lock is free; zombies that
      have been given to init included. */
  lemma NoSleepWithZombie(states: seq<State>, steps: seq<Step>, n: nat, q: nat, c: nat)
    requires Run(states, steps) && n <= |steps| && q < |states[n].pc| && c < |states[n].pc|
    requires Shape(states[n]) && states[n].wl.None? && states[n].life[c].Zombie? && states[n].parent[c] == Some(q)
    ensures !Decided(states[n].pc[q])
  {
    RunKeepsInv(states, steps, n);
    assert PairOk(states[n], q, c);
  }

  /** The parent of a zombie is not a zombie itself: it can still reap it, or, if it is exiting, has yet to
      give it to init. */
  lemma ZombieHasLiveParent(states: seq<State>, steps: seq<Step>, n: nat, c: nat)
    requires Run(states, steps) && n <= |steps| && c < |states[n].pc|
    requires Shape(states[n]) && states[n].life[c].Zombie?
    ensures states[n].parent[c].Some? && states[n].parent[c].value < |states[n].pc|
            && states[n].life[states[n].parent[c].value].Live?
  {
    RunKeepsInv(states, steps, n);
    assert ProcOk(states[n], c) && ParentOk(states[n], c);
    assert ProcOk(states[n], states[n].parent[c].value);
  }

  /** A process that exits has no children left when it becomes a zombie. */
  lemma ZombieHasNoChildren(states: seq<State>, steps: seq<Step>, n: nat, p: nat, c: nat)
    requires Run(states, steps) && n <= |steps| && p < |states[n].pc| && c < |states[n].pc|
    requires Shape(states[n]) && states[n].life[p].Zombie?
    ensures states[n].parent[c] != Some(p)
  {
    RunKeepsInv(states, steps, n);
    assert ProcOk(states[n], p) && ParentOk(states[n], c);
  }

  // ----- each exit is collected once -----

  /** Step n of a run is that of a kwait that finds its child i a zombie. */
  ghost predicate Collects(states: seq<State>, steps: seq<Step>, n: nat, i: nat) {
    && |states| == |steps| + 1 && n < |steps| && steps[n].ScanOne? && Shape(states[n])
    && var s, p := states[n], steps[n].p;
       && p < |s.pc| && i < |s.pc| && s.pc[p].Scan? && s.pc[p].i == i
       && s.parent[i] == Some(p) && s.life[i].Zombie?
  }

  lemma FreeStep(s: State, p: nat, i: nat)
    requires ProcsOk(s) && ParentsOk(s) && Enabled(s, ScanOne(p)) && s.pc[p].i == i
    requires s.parent[i] == Some(p) && s.life[i].Zombie?
    ensures var s' := Apply(s, ScanOne(p));
            && Shape(s') && |s'.pc| == |s.pc| && p != i && s'.wl.None?
            && s'.life[i].Unused? && s'.parent[i].None? && s'.pc[i].User? && s'.pc[p].User?
            && s'.life[p] == s.life[p] && s'.parent[p] == s.parent[p]
            && forall q :: 0 <= q < |s.pc| && q != p && q != i ==>
                 s'.life[q] == s.life[q] && s'.parent[q] == s.parent[q] && s'.pc[q] == s.pc[q]
  {
    assert ParentOk(s, i);
  }

  /** kwait frees the zombie that it finds, and returns; all other processes stay as they are. */
  lemma ZombieIsFreed(states: seq<State>, steps: seq<Step>, n: nat, i: nat)
    requires Run(states, steps) && Collects(states, steps, n, i)
    ensures var s, s', p := states[n], states[n + 1], steps[n].p;
            && Shape(s') && |s'.pc| == |s.pc| && p != i && s'.wl.None?
            && s'.life[i].Unused? && s'.parent[i].None? && s'.pc[i].User? && s'.pc[p].User?
            && s'.life[p] == s.life[p] && s'.parent[p] == s.parent[p]
            && forall q :: 0 <= q < |s.pc| && q != p && q != i ==>
                 s'.life[q] == s.life[q] && s'.parent[q] == s.parent[q] && s'.pc[q] == s.pc[q]
  {
    RunKeepsInv(states, steps, n);
    assert Here(n);
    FreeStep(states[n], steps[n].p, i);
  }

  /** A process that no step forks stays unused. */
  lemma {:induction false} StaysUnused(states: seq<State>, steps: seq<Step>, m: nat, n: nat, i: nat)
    requires Run(states, steps) && m <= n <= |steps| && Shape(states[m]) && i < |states[m].pc|
    requires states[m].life[i].Unused? && forall k :: m <= k < n ==> !(steps[k].Fork? && steps[k].c == i)
    ensures Shape(states[n]) && i < |states[n].pc| && states[n].life[i].Unused?
    decreases n
  {
    if m < n {
      StaysUnused(states, steps, m, n - 1, i);
      RunKeepsInv(states, steps, n - 1);
      assert Here(n - 1);
      Frame(states[n - 1], steps[n - 1], i);
    }
  }

  /** Between two collections of the same process it has been forked again. */
  lemma CollectedOnce(states: seq<State>, steps: seq<Step>, m: nat, n: nat, i: nat) returns (k: nat)
    requires Run(states, steps) && m < n && Collects(states, steps, m, i) && Collects(states, steps, n, i)
    ensures m < k < n && steps[k].Fork? && steps[k].c == i
  {
    ZombieIsFreed(states, steps, m, i);
    if forall j :: m + 1 <= j < n ==> !(steps[j].Fork? && steps[j].c == i) {
      StaysUnused(states, steps, m + 1, n, i);
      assert false;
    }
    k :| m + 1 <= k < n && steps[k].Fork? && steps[k].c == i;
  }

  /** A process that no kwait collects stays in use. */
  lemma {:induction false} StaysUsed(states: seq<State>, steps: seq<Step>, m: nat, n: nat, i: nat)
    requires Run(states, steps) && m <= n <= |steps| && Shape(states[m]) && i < |states[m].pc|
    requires !states[m].life[i].Unused? && forall k :: m <= k < n ==> !Collects(states, steps, k, i)
    ensures Shape(states[n]) && i < |states[n].pc| && !states[n].life[i].Unused?
    decreases n
  {
    if m < n {
      StaysUsed(states, steps, m, n - 1, i);
      RunKeepsInv(states, steps, n - 1);
      assert Here(n - 1);
      var s, a := states[n - 1], steps[n - 1];
      if a.p == i {
        FrameOwn(s, a);
      } else {
        Frame(s, a, i);
        assert !Collects(states, steps, n - 1, i);
        if Apply(s, a).life[i].Unused? {
          UnusedIsCollected(s, a, i);
        }
      }
    }
  }

  lemma UnusedIsCollected(s: State, a: Step, i: nat)
    requires ProcsOk(s) && Enabled(s, a) && i < |s.pc| && i != a.p && !s.life[i].Unused?
    requires Shape(Apply(s, a)) && |Apply(s, a).pc| == |s.pc| && Apply(s, a).life[i].Unused?
    ensures a.ScanOne? && s.pc[a.p].Scan? && s.pc[a.p].i == i && s.parent[i] == Some(a.p) && s.life[i].Zombie?
  {
    if !Loud(a) {
      QuietFrame(s, a, i);
    }
  }

  lemma ForkStep(s: State, p: nat, i: nat)
    requires Shape(s) && Enabled(s, Fork(p, i))
    ensures Shape(Apply(s, Fork(p, i))) && |Apply(s, Fork(p, i)).pc| == |s.pc| && Apply(s, Fork(p, i)).life[i].Live?
  {
  }

  /** Between two forks of the same process it has been collected. */
  lemma ForkedOnce(states: seq<State>, steps: seq<Step>, m: nat, n: nat, i: nat) returns (k: nat)
    requires Run(states, steps) && m < n < |steps| && steps[m].Fork? && steps[m].c == i
    requires steps[n].Fork? && steps[n].c == i
    ensures m < k < n && Collects(states, steps, k, i)
  {
    assert Here(m) && Here(n);
    ForkStep(states[m], steps[m].p, i);
    if forall j :: m + 1 <= j < n ==> !Collects(states, steps, j, i) {
      StaysUsed(states, steps, m + 1, n, i);
      assert false;
    }
    k :| m + 1 <= k < n && Collects(states, steps, k, i);
  }

  // ----- the children that kwait counts -----

  /** kwait has found a child exactly if there is one among the processes it has looked at. */
  ghost predicate KidsOk(s: State, p: nat)
    requires Shape(s) && p < |s.pc|
  {
    s.pc[p].Scan? ==>
      s.pc[p].i <= |s.pc| && (s.pc[p].kids <==> exists c :: 0 <= c < s.pc[p].i && s.parent[c] == Some(p))
  }

  /** While kwait scans, nobody else changes a parent. */
  lemma ScanKeepsParents(s: State, a: Step, p: nat)
    requires ProcsOk(s) && Enabled(s, a) && p < |s.pc| && p != a.p && s.pc[p].Scan?
    ensures Apply(s, a).parent == s.parent
  {
    assert ProcOk(s, p) && ProcOk(s, a.p);
    if !Loud(a) {
      QuietFrame(s, a, p);
    }
  }

  lemma OthersKids(s: State, a: Step, p: nat)
    requires ProcsOk(s) && ParentsOk(s) && Enabled(s, a) && p < |s.pc| && p != a.p && KidsOk(s, p)
    ensures Shape(Apply(s, a)) && |Apply(s, a).pc| == |s.pc| && KidsOk(Apply(s, a), p)
  {
    Frame(s, a, p);
    if s.pc[p].Scan? {
      ScanKeepsParents(s, a, p);
    }
  }

  lemma OwnKids(s: State, a: Step)
    requires ProcsOk(s) && ParentsOk(s) && Enabled(s, a) && KidsOk(s, a.p)
    ensures Shape(Apply(s, a)) && |Apply(s, a).pc| == |s.pc| && KidsOk(Apply(s, a), a.p)
  {
    FrameOwn(s, a);
  }

  lemma {:induction false} KidsAreCounted(states: seq<State>, steps: seq<Step>, n: nat, p: nat)
    requires Run(states, steps) && n <= |steps| && Shape(states[n]) && p < |states[n].pc|
    ensures KidsOk(states[n], p)
  {
    if n > 0 {
      RunKeepsInv(states, steps, n - 1);
      assert Here(n - 1);
      var s, a := states[n - 1], steps[n - 1];
      FrameOwn(s, a);
      KidsAreCounted(states, steps, n - 1, p);
      if p == a.p {
        OwnKids(s, a);
      } else {
        OthersKids(s, a, p);
      }
    }
  }

  /** kwait goes to sleep exactly when it has children and none of them is a zombie. */
  lemma SleepsWithChild(states: seq<State>, steps: seq<Step>, n: nat)
    requires Run(states, steps) && n < |steps| && steps[n].ScanSleep?
    ensures var s, p := states[n], steps[n].p;
            && Shape(s) && p < |s.pc| && (exists c :: 0 <= c < |s.pc| && s.parent[c] == Some(p))
            && forall c :: 0 <= c < |s.pc| && s.parent[c] == Some(p) ==> !s.life[c].Zombie?
  {
    RunKeepsInv(states, steps, n);
    assert Here(n);
    var s, p := states[n], steps[n].p;
    KidsAreCounted(states, steps, n, p);
    forall c | 0 <= c < |s.pc| && s.parent[c] == Some(p) ensures !s.life[c].Zombie? {
      assert PairOk(s, p, c);
    }
  }

  // ----- the ways out of kwait and of kexit -----

  predicate Waiting(c: Pc) {
    c.WaitWant? || c.Scan? || c.Enter? || c.Left? || c.Marked? || c.Asleep? || c.Ready? || c.Back?
  }

  lemma WaitStep(s: State, a: Step, p: nat)
    requires ProcsOk(s) && Enabled(s, a) && p < |s.pc| && Waiting(s.pc[p])
    requires Shape(Apply(s, a)) && |Apply(s, a).pc| == |s.pc| && !Waiting(Apply(s, a).pc[p])
    ensures a.p == p && s.pc[p].Scan? && Apply(s, a).pc[p].User?
    ensures a.ScanReturn? || (a.ScanOne? && s.pc[p].i < |s.pc| && s.parent[s.pc[p].i] == Some(p)
            && s.life[s.pc[p].i].Zombie?)
  {
    assert ProcOk(s, p) && ProcOk(s, a.p);
    if a.p != p {
      Frame(s, a, p);
    }
  }

  /** kwait returns only by collecting a zombie child or with -1, and to its caller; in particular, a process that
      was woken scans the table again. */
  lemma KwaitReturns(states: seq<State>, steps: seq<Step>, n: nat, p: nat)
    requires Run(states, steps) && n < |steps| && Shape(states[n]) && p < |states[n].pc| && Waiting(states[n].pc[p])
    requires Shape(states[n + 1]) && p < |states[n + 1].pc| && !Waiting(states[n + 1].pc[p])
    ensures steps[n].p == p && states[n + 1].pc[p].User?
    ensures steps[n].ScanReturn? || exists i :: Collects(states, steps, n, i)
  {
    RunKeepsInv(states, steps, n);
    assert Here(n);
    FrameOwn(states[n], steps[n]);
    WaitStep(states[n], steps[n], p);
    if steps[n].ScanOne? {
      assert Collects(states, steps, n, states[n].pc[p].i);
    }
  }

  lemma ExitStep(s: State, a: Step, p: nat)
    requires ProcsOk(s) && ParentsOk(s) && Enabled(s, a) && p < |s.pc| && Exiting(s.pc[p])
    ensures Shape(Apply(s, a)) && |Apply(s, a).pc| == |s.pc|
    ensures Exiting(Apply(s, a).pc[p])
            || (a.ScanOne? && a.p != p && s.pc[a.p].i == p && s.parent[p] == Some(a.p) && s.life[p].Zombie?)
  {
    FrameOwn(s, a);
    assert ProcOk(s, p) && ProcOk(s, a.p);
    if a.p != p {
      Frame(s, a, p);
    }
  }

  /** A process that has called kexit never runs user code again, until it has been collected as a zombie. */
  lemma {:induction false} ExitIsFinal(states: seq<State>, steps: seq<Step>, m: nat, n: nat, p: nat)
    requires Run(states, steps) && m <= n <= |steps| && Shape(states[m]) && p < |states[m].pc|
    requires Exiting(states[m].pc[p]) && forall k :: m <= k < n ==> !Collects(states, steps, k, p)
    ensures Shape(states[n]) && p < |states[n].pc| && Exiting(states[n].pc[p])
    decreases n
  {
    if m < n {
      ExitIsFinal(states, steps, m, n - 1, p);
      RunKeepsInv(states, steps, n - 1);
      assert Here(n - 1);
      ExitStep(states[n - 1], steps[n - 1], p);
      assert !Collects(states, steps, n - 1, p);
    }
  }

  // ----- parents -----

  /** Step k forked process c, for the last time before n, and q is the one who did it or init. */
  ghost predicate ForkedBy(states: seq<State>, steps: seq<Step>, k: nat, n: nat, c: nat, q: nat) {
    && |states| == |steps| + 1 && k < n <= |steps| && steps[k].Fork? && steps[k].c == c
    && (q == steps[k].p || q == states[0].init)
    && forall j :: k < j < n ==> !(steps[j].Fork? && steps[j].c == c)
  }

  lemma ParentStep(s: State, a: Step, c: nat)
    requires ProcsOk(s) && ParentsOk(s) && Enabled(s, a) && c < |s.pc|
    ensures Shape(Apply(s, a)) && |Apply(s, a).pc| == |s.pc| && Apply(s, a).init == s.init
    ensures var r := Apply(s, a).parent[c];
            if a.Fork? && a.c == c then r == Some(a.p) else r == s.parent[c] || r == Some(s.init) || r.None?
    ensures Apply(s, a).parent[c].Some? && !(a.Fork? && a.c == c) ==> s.parent[c].Some?
  {
    FrameOwn(s, a);
    assert ProcOk(s, c) && ProcOk(s, a.p) && ParentOk(s, c);
    if c != a.p {
      Frame(s, a, c);
    }
  }

  /** The parent of a process is the one that forked it last, or init. */
  lemma {:induction false} ParentIsForker(states: seq<State>, steps: seq<Step>, n: nat, c: nat) returns (k: nat)
    requires Run(states, steps) && n <= |steps| && Shape(states[n]) && c < |states[n].pc|
    requires states[n].parent[c].Some?
    ensures states[n].init == states[0].init && ForkedBy(states, steps, k, n, c, states[n].parent[c].value)
  {
    SameInit(states, steps, n);
    if n == 0 {
      assert false;
    } else {
      RunKeepsInv(states, steps, n - 1);
      assert Here(n - 1);
      SameInit(states, steps, n - 1);
      FrameOwn(states[n - 1], steps[n - 1]);
      ParentStep(states[n - 1], steps[n - 1], c);
      if steps[n - 1].Fork? && steps[n - 1].c == c {
        k := n - 1;
      } else {
        k := ParentIsForker(states, steps, n - 1, c);
      }
    }
  }

  lemma {:induction false} SameInit(states: seq<State>, steps: seq<Step>, n: nat)
    requires Run(states, steps) && n <= |steps|
    ensures states[n].init == states[0].init
  {
    if n > 0 {
      SameInit(states, steps, n - 1);
      RunKeepsInv(states, steps, n - 1);
      assert Here(n - 1);
      FrameOwn(states[n - 1], steps[n - 1]);
    }
  }

  // ----- no deadlock -----

  /** How far the loops of reparent, wakeup and kwait have come. */
  predicate BoundedPc(c: Pc, n: nat) {
    && (c.Reparent? ==> c.i <= n) && (c.WakeInit? ==> c.i < n && c.j <= n) && (c.WakeParent? ==> c.j <= n)
    && (c.Scan? ==> c.i <= n)
  }

  lemma BoundedStep(s: State, a: Step, p: nat)
    requires ProcsOk(s) && ParentsOk(s) && Enabled(s, a) && p < |s.pc| && BoundedPc(s.pc[p], |s.pc|)
    ensures Shape(Apply(s, a)) && |Apply(s, a).pc| == |s.pc| && BoundedPc(Apply(s, a).pc[p], |s.pc|)
  {
    FrameOwn(s, a);
    if p != a.p {
      Frame(s, a, p);
    }
  }

  lemma {:induction false} RunIsBounded(states: seq<State>, steps: seq<Step>, n: nat, p: nat)
    requires Run(states, steps) && n <= |steps| && p < |states[n].pc|
    ensures BoundedPc(states[n].pc[p], |states[n].pc|)
  {
    if n > 0 {
      RunKeepsInv(states, steps, n - 1);
      assert Here(n - 1);
      FrameOwn(states[n - 1], steps[n - 1]);
      RunIsBounded(states, steps, n - 1, p);
      BoundedStep(states[n - 1], steps[n - 1], p);
    }
  }

  /** In kexit or kwait, and not asleep. */
  predicate Busy(c: Pc) { !c.User? && !c.Asleep? && !c.Gone? }

  /** A process that another one waits for, because it holds its own lock, can go on. */
  lemma OwnerGoesOn(s: State, q: nat) returns (a: Step)
    requires Inv(s) && q < |s.pc| && s.plock[q].Some? && s.wl != Some(q)
    ensures Enabled(s, a) && Busy(s.pc[a.p])
  {
    assert ProcOk(s, q);
    a := if s.pc[q].Dead? then SwitchDead(q) else if s.pc[q].Left? then Mark(q)
         else if s.pc[q].Marked? then Switch(q) else Tidy(q);
  }

  /** The holder of wait_lock can go on, or waits for a process that can. */
  lemma HolderGoesOn(s: State, w: nat) returns (a: Step)
    requires Inv(s) && s.wl == Some(w) && w < |s.pc| && BoundedPc(s.pc[w], |s.pc|)
    ensures Enabled(s, a) && Busy(s.pc[a.p])
  {
    assert ProcOk(s, w);
    var c := s.pc[w];
    if c.WakeInit? && c.j < |s.pc| && !CanLook(s, w, c.j) {
      a := OwnerGoesOn(s, c.j);
    } else if c.WakeParent? && c.j < |s.pc| && !CanLook(s, w, c.j) {
      a := OwnerGoesOn(s, c.j);
    } else if c.Scan? && c.i < |s.pc| && s.parent[c.i] == Some(w) && s.plock[c.i].Some? {
      assert ParentOk(s, c.i);
      a := OwnerGoesOn(s, c.i);
    } else {
      a := HolderStep(c, w, |s.pc|);
    }
  }

  /** The next step of the holder of wait_lock, when nobody is in its way. */
  function HolderStep(c: Pc, w: nat, n: nat): Step {
    if c.Reparent? then (if c.i < n then ReparentOne(w) else ReparentEnd(w))
    else if c.WakeInit? then (if c.j < n then WakeInitOne(w) else WakeInitEnd(w))
    else if c.WakeParent? then (if c.j < n then WakeParentOne(w) else WakeParentEnd(w))
    else if c.Dying? then Die(w)
    else if c.Scan? then (if c.i < n then ScanOne(w) else ScanReturnOrSleep(c, w))
    else LeaveWl(w)
  }

  function ScanReturnOrSleep(c: Pc, w: nat): Step
    requires c.Scan?
  {
    if c.kids then ScanSleep(w) else ScanReturn(w)
  }

  /** No deadlock: in every run, while some process is in kexit or kwait and not asleep, one of these processes can
      take a step. */
  lemma NeverStuck(states: seq<State>, steps: seq<Step>, n: nat, p: nat) returns (a: Step)
    requires Run(states, steps) && n <= |steps| && p < |states[n].pc| && Busy(states[n].pc[p])
    ensures Shape(states[n]) && Enabled(states[n], a) && Busy(states[n].pc[a.p])
  {
    var s := states[n];
    RunKeepsInv(states, steps, n);
    assert ProcOk(s, p);
    if s.wl.Some? {
      RunIsBounded(states, steps, n, s.wl.value);
      a := HolderGoesOn(s, s.wl.value);
    } else {
      a := FreeLockStep(s, p);
    }
  }

  /** While wait_lock is free nobody waits for anybody. */
  lemma FreeLockStep(s: State, p: nat) returns (a: Step)
    requires Inv(s) && s.wl.None? && p < |s.pc| && Busy(s.pc[p])
    ensures Enabled(s, a) && Busy(s.pc[a.p])
  {
    assert ProcOk(s, p);
    var c := s.pc[p];
    if c.ExitWant? {
      a := TakeExit(p);
    } else if c.WaitWant? {
      a := TakeWait(p);
    } else if c.Ready? {
      a := Dispatch(p);
    } else {
      a := OwnerGoesOn(s, p);
    }
  }
}
