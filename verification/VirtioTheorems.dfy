/** What the driver promises in every run, whatever the interleaving and the order of completions. */
module VirtioTheorems {
  import opened VirtioMachine
  import opened VirtioInvariant

  /** Names a position of a run; the steps of a run are looked at only where it is mentioned. */
  predicate At(i: int) { true }

  /** A run of driver, device and interrupts from virtio_disk_init. */
  ghost predicate Run(states: seq<State>, steps: seq<Step>) {
    && |states| == |steps| + 1 && Init(states[0])
    && forall i {:trigger At(i)} :: 0 <= i < |steps| ==>
         Shape(states[i]) && Enabled(states[i], steps[i]) && states[i + 1] == Apply(states[i], steps[i])
  }

  lemma {:induction false} RunKeepsInv(states: seq<State>, steps: seq<Step>, n: nat)
    requires Run(states, steps) && n <= |steps|
    ensures Inv(states[n])
  {
    if n == 0 {
      InitHolds(states[0]);
    } else {
      RunKeepsInv(states, steps, n - 1);
      assert At(n - 1);
      StepKeepsInv(states[n - 1], steps[n - 1]);
    }
  }

  /** Every taken descriptor is in the chain of exactly one request, and every chain has three. */
  lemma ChainsArePartition(s: State, i: nat)
    requires Inv(s) && i < NUM && !s.free[i]
    ensures exists h :: h in s.reqs && InChain(h, s.reqs[h], i)
    ensures forall g, h :: g in s.reqs && h in s.reqs && InChain(g, s.reqs[g], i) && InChain(h, s.reqs[h], i) ==> g == h
    ensures forall h :: h in s.reqs ==> Indices(h, s.reqs[h])
  {
    assert Open(0, s);
    assert !Untaken(s.reqs, i);
  }

  /** free_desc does not panic: the chain of a finished request is three taken descriptors. */
  lemma FreeDescNeverPanics(s: State, f: nat)
    requires Inv(s) && f in s.reqs
    ensures var r := s.reqs[f]; Indices(f, r) && !s.free[f] && !s.free[r.i1] && !s.free[r.i2]
    ensures var r := s.reqs[f];
            && s.desc[f].more && s.desc[f].next == r.i1
            && s.desc[r.i1].more && s.desc[r.i1].next == r.i2 && !s.desc[r.i2].more
  {
    assert Open(0, s);
    var r := s.reqs[f];
    assert InChain(f, r, f) && InChain(f, r, r.i1) && InChain(f, r, r.i2);
  }

  /** Writing the available ring hits no entry that the device has yet to read, and writing the used ring
      none that the driver has yet to read. */
  lemma RingsAreNotOverrun(s: State, x: nat, k: nat)
    requires Inv(s)
    ensures x < NUM && s.free[x] && k < |Pending(s)| ==> (s.fetched + k) % NUM != s.availIdx % NUM
    ensures x in s.served && k < |Posted(s)| ==> (s.seen + k) % NUM != s.usedIdx % NUM
  {
    if x < NUM && s.free[x] && k < |Pending(s)| {
      PendingIsShort(s, x);
      SlotsDiffer(s.fetched, s.availIdx, k);
    }
    if x in s.served && k < |Posted(s)| {
      PostedIsShort(s, x);
      SlotsDiffer(s.seen, s.usedIdx, k);
    }
  }

  /** The entries the device has yet to read are heads of requests, each once. */
  lemma DeviceReadsRequests(s: State, c: nat)
    requires Inv(s) && (c in Pending(s) || c in s.work)
    ensures c in s.reqs && s.reqs[c].b in s.busy && Sound(s, c)
  {
    assert Open(0, s);
    InPlaces(s, c);
    ChainIsSound(s, c);
  }

  // ----- a requester proceeds only after its own chain -----

  lemma DoneAfterSubmit(s: State, h: nat, r: Request, f: nat)
    requires Inv(s) && CanSubmit(s, h, r) && f in s.reqs && f in DoSubmit(s, h, r).reqs
    ensures Done(DoSubmit(s, h, r), f) ==> Done(s, f)
  {
    PendingIsShort(s, h);
    assert Open(0, s);
    FreeIsNoHead(s, h);
    SubmitPlaces(s, DoSubmit(s, h, r), h, r);
  }

  lemma DoneAfterFetch(s: State, f: nat)
    requires Inv(s) && s.fetched != s.availIdx && f in s.reqs
    ensures Done(DoFetch(s), f) ==> Done(s, f)
  {
    assert Open(0, s);
    FetchPlaces(s, DoFetch(s));
  }

  lemma DoneAfterServe(s: State, c: nat, status: nat, junk: Data, f: nat)
    requires Inv(s) && c in s.work && Sound(s, c) && f in s.reqs && f != c
    ensures Done(DoServe(s, c, status, junk), f) ==> Done(s, f)
  {
    assert Open(0, s);
    ServePlaces(s, DoServe(s, c, status, junk), c, status, junk);
  }

  lemma DoneAfterComplete(s: State, u: nat, f: nat)
    requires Inv(s) && u in s.served && f in s.reqs
    ensures Done(DoComplete(s, u), f) ==> Done(s, f)
  {
    PostedIsShort(s, u);
    assert Open(0, s);
    CompletePlaces(s, DoComplete(s, u), u);
  }

  lemma DoneAfterInterrupt(s: State, f: nat)
    requires Inv(s) && CanInterrupt(s) && f in s.reqs
    ensures Done(DoInterrupt(s), f) ==> Done(s, f)
  {
    NextIsServed(s);
    assert Open(0, s);
    var id := s.used[s.seen % NUM];
    InterruptPlaces(s, DoInterrupt(s), id);
  }

  lemma DoneAfterFinish(s: State, g: nat, f: nat)
    requires Inv(s) && g in s.reqs && Indices(g, s.reqs[g]) && f in s.reqs && f in DoFinish(s, g).reqs
    ensures Done(DoFinish(s, g), f) ==> Done(s, f)
  {
    assert Posted(DoFinish(s, g)) == Posted(s);
  }

  lemma DoneAfterChange(s: State, b: nat, v: Data, f: nat)
    requires Shape(s) && f in s.reqs
    ensures Done(DoChange(s, b, v), f) ==> Done(s, f)
  {
    assert Posted(DoChange(s, b, v)) == Posted(s);
  }

  /** Only the device's service of a request makes it done. */
  lemma DoneOnlyByServe(s: State, a: Step, f: nat)
    requires Inv(s) && Enabled(s, a) && f in s.reqs && f in Apply(s, a).reqs && Shape(Apply(s, a))
    requires !Done(s, f) && Done(Apply(s, a), f)
    ensures a.Serve? && a.c == f
  {
    if a.Submit? {
      DoneAfterSubmit(s, a.h, a.r, f);
    } else if a.Fetch? {
      DoneAfterFetch(s, f);
    } else if a.Serve? {
      if a.c != f {
        DoneAfterServe(s, a.c, a.status, a.junk, f);
      }
    } else if a.Complete? {
      DoneAfterComplete(s, a.u, f);
    } else if a.Interrupt? {
      DoneAfterInterrupt(s, f);
    } else if a.Finish? {
      DoneAfterFinish(s, a.f, f);
    } else {
      DoneAfterChange(s, a.b, a.v, f);
    }
  }

  /** Request f is in flight from i to n. */
  ghost predicate InFlight(states: seq<State>, f: nat, i: nat, n: nat) {
    i <= n < |states| && forall k :: i <= k <= n ==> f in states[k].reqs
  }

  lemma {:induction false} ServedBetween(states: seq<State>, steps: seq<Step>, f: nat, i: nat, n: nat) returns (j: nat)
    requires Run(states, steps) && n <= |steps| && InFlight(states, f, i, n)
    requires |states[i].used| == NUM && |states[n].used| == NUM && !Done(states[i], f) && Done(states[n], f)
    ensures i <= j < n && steps[j].Serve? && steps[j].c == f
    decreases n - i
  {
    RunKeepsInv(states, steps, n - 1);
    RunKeepsInv(states, steps, n);
    assert At(n - 1);
    if Done(states[n - 1], f) {
      j := ServedBetween(states, steps, f, i, n - 1);
    } else {
      DoneOnlyByServe(states[n - 1], steps[n - 1], f);
      j := n - 1;
    }
  }

  lemma SubmittedIsNotDone(s: State, h: nat, r: Request)
    requires Inv(s) && CanSubmit(s, h, r)
    ensures h in DoSubmit(s, h, r).reqs && Inv(DoSubmit(s, h, r)) && !Done(DoSubmit(s, h, r), h)
  {
    assert Open(0, s);
    SubmitKeeps(s, h, r);
    FreeIsNoHead(s, h);
    PendingIsShort(s, h);
    InPlaces(s, h);
    SubmitPlaces(s, DoSubmit(s, h, r), h, r);
  }

  lemma SubmitStep(s: State, a: Step, f: nat, r: Request)
    requires Shape(s) && a == Submit(f, r) && Enabled(s, a)
    ensures CanSubmit(s, f, r) && Apply(s, a) == DoSubmit(s, f, r)
    ensures f in Apply(s, a).reqs && Apply(s, a).reqs[f] == r && KeepsSource(s, Apply(s, a), r)
  {
  }

  lemma DoneMeansAgreed(s: State, f: nat)
    requires Inv(s) && f in s.reqs && s.reqs[f].b !in s.busy
    ensures Done(s, f) && Get(s.data, s.reqs[f].b) == Get(s.disk, s.reqs[f].block * 2)
  {
    assert Open(0, s);
    assert Indices(f, s.reqs[f]);
    assert Settled(s, f);
  }

  /** What a request must not lose while it is in flight: a write its data, a read the block on the disk. */
  ghost predicate KeepsSource(s: State, s': State, r: Request) {
    if r.write then Get(s'.data, r.b) == Get(s.data, r.b) else Get(s'.disk, r.block * 2) == Get(s.disk, r.block * 2)
  }

  lemma ServeKeepsSource(s: State, c: nat, status: nat, junk: Data, f: nat)
    requires Inv(s) && c in s.work && Sound(s, c) && f in s.reqs
    ensures KeepsSource(s, DoServe(s, c, status, junk), s.reqs[f])
  {
    assert Open(0, s);
    InPlaces(s, c);
    ServeTransfers(s, DoServe(s, c, status, junk), c, status, junk);
    ChainIsSound(s, c);
    assert f != c ==> s.reqs[f].b != s.reqs[c].b && s.reqs[f].block * 2 != s.reqs[c].block * 2;
  }

  /** No step of anybody changes a request in flight, or what it is to transfer. */
  lemma StepKeepsRequest(s: State, a: Step, f: nat)
    requires Inv(s) && Enabled(s, a) && f in s.reqs && f in Apply(s, a).reqs
    ensures Apply(s, a).reqs[f] == s.reqs[f] && KeepsSource(s, Apply(s, a), s.reqs[f])
  {
    if a.Submit? {
      assert Open(0, s);
      FreeIsNoHead(s, a.h);
    } else if a.Serve? {
      ServeKeepsSource(s, a.c, a.status, a.junk, f);
    }
  }

  lemma {:induction false} RequestStays(states: seq<State>, steps: seq<Step>, f: nat, i: nat, n: nat)
    requires Run(states, steps) && n <= |steps| && InFlight(states, f, i, n)
    ensures states[n].reqs[f] == states[i].reqs[f] && KeepsSource(states[i], states[n], states[i].reqs[f])
    decreases n - i
  {
    if i < n {
      RequestStays(states, steps, f, i, n - 1);
      RunKeepsInv(states, steps, n - 1);
      assert At(n - 1);
      StepKeepsRequest(states[n - 1], steps[n - 1], f);
    }
  }

  /** A requester that proceeds has been served in the meantime: between queueing its request and freeing its
      chain, the device has served that very chain; after a write the disk holds the data as they were when
      the request was queued, after a read the buffer holds the block as it was then. */
  lemma FinishAfterService(states: seq<State>, steps: seq<Step>, f: nat, r: Request, i: nat, n: nat) returns (j: nat)
    requires Run(states, steps) && i < n < |steps| && steps[i] == Submit(f, r) && steps[n] == Finish(f)
    requires InFlight(states, f, i + 1, n)
    ensures i < j < n && steps[j].Serve? && steps[j].c == f && states[n].reqs[f] == r
    ensures r.write ==> Get(states[n].disk, r.block * 2) == Get(states[i].data, r.b)
    ensures !r.write ==> Get(states[n].data, r.b) == Get(states[i].disk, r.block * 2)
  {
    RunKeepsInv(states, steps, i);
    RunKeepsInv(states, steps, i + 1);
    RunKeepsInv(states, steps, n);
    assert At(i) && At(n);
    SubmitStep(states[i], steps[i], f, r);
    SubmittedIsNotDone(states[i], f, r);
    RequestStays(states, steps, f, i + 1, n);
    DoneMeansAgreed(states[n], f);
    j := ServedBetween(states, steps, f, i + 1, n);
  }

  /** No request is stranded: the next step of each is always possible, whatever the others do.  A completion that the
      device has posted waits at most for those posted before it, each handled by an interrupt or ending in the
      driver's panic. */
  lemma RequestMovesOn(s: State, f: nat)
    requires Inv(s) && f in s.reqs
    ensures s.reqs[f].b !in s.busy ==> Shape(s) && Enabled(s, Finish(f))
    ensures s.reqs[f].b in s.busy ==>
              || (f in Pending(s) && Enabled(s, Fetch))
              || (f in s.work && forall status, junk :: Enabled(s, Serve(f, status, junk)))
              || (f in s.served && Enabled(s, Complete(f)))
              || (f in Posted(s) && s.seen != s.usedIdx && s.used[s.seen % NUM] < NUM
                  && (Enabled(s, Interrupt) <==> s.info[s.used[s.seen % NUM]].status == 0))
  {
    assert Open(0, s);
    InPlaces(s, f);
    assert Indices(f, s.reqs[f]);
    if f in s.work {
      ChainIsSound(s, f);
    }
    if f in Posted(s) {
      assert |Posted(s)| > 0;
      AheadOfSelf(s.seen);
      NextIsServed(s);
    }
    if f in Pending(s) {
      assert |Pending(s)| > 0;
      AheadOfSelf(s.fetched);
    }
  }

  lemma AheadOfSelf(lo: nat)
    requires lo < WRAP
    ensures Ahead(lo, lo) == 0
  {
  }

  /** Descriptors run out only while requests are in flight. */
  lemma TakenByRequests(s: State, i: nat)
    requires Inv(s) && i < NUM && !s.free[i]
    ensures s.reqs != map[]
  {
    assert Open(0, s);
    assert !Untaken(s.reqs, i);
  }
}
