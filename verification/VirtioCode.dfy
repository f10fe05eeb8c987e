/** alloc_desc, alloc3_desc, free_chain, virtio_disk_rw and virtio_disk_intr as imperative code. */
module VirtioCode {
  import opened VirtioMachine
  import opened VirtioInvariant
  import opened VirtioTheorems

  function Zero(): Desc { Desc(Nowhere, 0, false, false) }

  /** The number of free descriptors among the first n. */
  function FreeCount(free: seq<bool>, n: nat): nat
    requires n <= |free|
  {
    if n == 0 then 0 else FreeCount(free, n - 1) + One(free[n - 1])
  }

  lemma {:induction false} FreeCountTake(free: seq<bool>, i: nat, n: nat)
    requires i < |free| && free[i] && n <= |free|
    ensures FreeCount(free[i := false], n) == FreeCount(free, n) - One(i < n)
    ensures i < n ==> FreeCount(free, n) > 0
  {
    if n > 0 {
      FreeCountTake(free, i, n - 1);
    }
  }

  lemma {:induction false} NoneFree(free: seq<bool>, n: nat)
    requires n <= |free| && forall i :: 0 <= i < n ==> !free[i]
    ensures FreeCount(free, n) == 0
  {
    if n > 0 {
      NoneFree(free, n - 1);
    }
  }

  lemma {:induction false} AllFree(free: seq<bool>, n: nat)
    requires n <= |free| && forall i :: 0 <= i < n ==> free[i]
    ensures FreeCount(free, n) == n
  {
    if n > 0 {
      AllFree(free, n - 1);
    }
  }

  class Driver {
    var s: State

    /** alloc_desc: the first free descriptor, taken; -1 when there is none. */
    method AllocDesc() returns (i: int)
      requires Shape(s)
      modifies this
      ensures i == -1 ==> s == old(s) && FreeCount(s.free, NUM) == 0
      ensures i != -1 ==> 0 <= i < NUM && old(s).free[i] && (forall j :: 0 <= j < i ==> !old(s).free[j])
      ensures i != -1 ==> s == old(s).(free := old(s).free[i := false]) && Shape(s)
    {
      i := 0;
      while i < NUM
        invariant 0 <= i <= NUM && s == old(s) && forall j :: 0 <= j < i ==> !s.free[j]
      {
        if s.free[i] {
          s := s.(free := s.free[i := false]);
          return;
        }
        i := i + 1;
      }
      NoneFree(s.free, NUM);
      return -1;
    }

    /** free_desc; false where the code panics. */
    method FreeDesc(i: nat) returns (ok: bool)
      requires Shape(s)
      modifies this
      ensures ok <==> i < NUM && !old(s).free[i]
      ensures !ok ==> s == old(s)
      ensures ok ==> s == old(s).(desc := old(s).desc[i := Zero()], free := old(s).free[i := true]) && Shape(s)
    {
      if i >= NUM {
        return false;
      }
      if s.free[i] {
        return false;
      }
      s := s.(desc := s.desc[i := Zero()]);
      s := s.(free := s.free[i := true]);
      return true;
    }

    /** What alloc3_desc leaves of the descriptors of the free list when it fails: zeros. */
    ghost predicate OnlyFreeDescs(a: State, b: State)
    {
      && |a.free| == |a.desc| == |b.desc| == NUM && b == a.(desc := b.desc)
      && forall i :: 0 <= i < NUM && !a.free[i] ==> b.desc[i] == a.desc[i]
    }

    /** alloc3_desc: three distinct descriptors, or fewer than three are free and all stay free. */
    method Alloc3Desc() returns (ok: bool, i0: nat, i1: nat, i2: nat)
      requires Shape(s)
      modifies this
      ensures Shape(s) && (ok <==> FreeCount(old(s).free, NUM) >= 3)
      ensures !ok ==> OnlyFreeDescs(old(s), s)
      ensures ok ==> i0 < i1 < i2 < NUM && old(s).free[i0] && old(s).free[i1] && old(s).free[i2]
      ensures ok ==> s == old(s).(free := old(s).free[i0 := false][i1 := false][i2 := false])
    {
      i0, i1, i2 := 0, 0, 0;
      var a := AllocDesc();
      if a < 0 {
        return false, 0, 0, 0;
      }
      FreeCountTake(old(s).free, a, NUM);
      var b := AllocDesc();
      if b < 0 {
        var freed := FreeDesc(a);
        return false, 0, 0, 0;
      }
      FreeCountTake(old(s).free[a := false], b, NUM);
      var c := AllocDesc();
      if c < 0 {
        var freed := FreeDesc(a);
        freed := FreeDesc(b);
        return false, 0, 0, 0;
      }
      FreeCountTake(old(s).free[a := false][b := false], c, NUM);
      return true, a, b, c;
    }

    // ----- virtio_disk_rw -----

    /** The assignments that format the chain and hand it to the device. */
    method QueueRequest(h: nat, r: Request)
      requires Shape(s) && Indices(h, r)
      modifies this
      ensures Shape(s)
      ensures s == old(s).(ops := old(s).ops[h := Op(r.write, r.block * 2)], desc := Formatted(old(s).desc, h, r),
                           info := old(s).info[h := Info(r.b, 0xff)], busy := old(s).busy + {r.b},
                           avail := old(s).avail[old(s).availIdx % NUM := h], availIdx := (old(s).availIdx + 1) % WRAP)
    {
      s := s.(ops := s.ops[h := Op(r.write, r.block * 2)]);
      s := s.(desc := s.desc[h := Desc(Header(h), r.i1, true, false)]);
      s := s.(desc := s.desc[r.i1 := Desc(Buffer(r.b), r.i2, true, !r.write)]);
      s := s.(info := s.info[h := Info(s.info[h].b, 0xff)]);
      s := s.(desc := s.desc[r.i2 := Desc(Status(h), 0, false, true)]);
      s := s.(busy := s.busy + {r.b});
      s := s.(info := s.info[h := Info(r.b, s.info[h].status)]);
      s := s.(avail := s.avail[s.availIdx % NUM := h]);
      s := s.(availIdx := (s.availIdx + 1) % WRAP);
    }

    /** virtio_disk_rw up to its wait for the device: the request is queued as one step of the machine, or
        fewer than three descriptors are free and the process sleeps. */
    method StartRw(pid: nat, b: nat, block: nat, write: bool) returns (queued: bool, h: nat)
      requires Inv(s) && b !in s.busy && forall g :: g in s.reqs ==> s.reqs[g].b != b && s.reqs[g].block != block
      modifies this
      ensures Inv(s) && (queued <==> FreeCount(old(s).free, NUM) >= 3)
      ensures queued ==> h in s.reqs && CanSubmit(old(s), h, s.reqs[h]) && s == DoSubmit(old(s), h, s.reqs[h])
      ensures queued ==>
                && s.reqs[h].pid == pid && s.reqs[h].b == b && s.reqs[h].block == block
                && s.reqs[h].write == write
      ensures !queued ==> OnlyFreeDescs(old(s), s) && s.reqs != map[]
    {
      var i1, i2;
      queued, h, i1, i2 := Alloc3Desc();
      if !queued {
        SparesDoNotMatter(old(s), s);
        SomeoneIsInFlight(old(s));
        return;
      }
      var r := Request(pid, b, block, write, i1, i2);
      SubmitKeeps(old(s), h, r);
      QueueRequest(h, r);
      s := s.(reqs := s.reqs[h := r]);
      assert s == DoSubmit(old(s), h, r);
    }

    lemma SomeoneIsInFlight(a: State)
      requires Inv(a) && FreeCount(a.free, NUM) < 3
      ensures a.reqs != map[]
    {
      if forall i :: 0 <= i < NUM ==> a.free[i] {
        AllFree(a.free, NUM);
      } else {
        var i :| 0 <= i < NUM && !a.free[i];
        TakenByRequests(a, i);
      }
    }

    lemma SparesDoNotMatter(a: State, b: State)
      requires Inv(a) && Shape(b) && OnlyFreeDescs(a, b)
      ensures Inv(b)
    {
      assert Open(0, a);
      SameChains(a, b);
      SameBuffers(a, b);
      SpareFormat(a, b);
      assert Pending(b) == Pending(a) && Posted(b) == Posted(a);
      SamePlaces(a, b);
      SameData(a, b);
    }

    lemma SpareFormat(a: State, b: State)
      requires FormatOk(a) && ChainsOk(a) && Shape(b) && OnlyFreeDescs(a, b)
      ensures FormatOk(b)
    {
      forall g | g in b.reqs
        ensures var q := b.reqs[g];
                && Indices(g, q) && b.desc[g] == a.desc[g]
                && b.desc[q.i1] == a.desc[q.i1] && b.desc[q.i2] == a.desc[q.i2]
      {
        var q := a.reqs[g];
        assert InChain(g, q, g) && InChain(g, q, q.i1) && InChain(g, q, q.i2);
        assert !Untaken(a.reqs, g) && !Untaken(a.reqs, q.i1) && !Untaken(a.reqs, q.i2);
      }
    }

    lemma SamePlaces(a: State, b: State)
      requires PlacesOk(a) && Shape(b) && Pending(b) == Pending(a) && Posted(b) == Posted(a)
      requires b.work == a.work && b.served == a.served && b.reqs == a.reqs && b.busy == a.busy
      ensures PlacesOk(b)
    {
      forall g: nat ensures Places(b, g) == One(g in b.reqs && b.reqs[g].b in b.busy) {
        assert Places(a, g) == One(g in a.reqs && a.reqs[g].b in a.busy);
      }
    }

    lemma SameData(a: State, b: State)
      requires DataOk(a) && Shape(b) && Posted(b) == Posted(a) && b.info == a.info && b.data == a.data
               && b.disk == a.disk
      requires b.served == a.served && b.reqs == a.reqs && b.busy == a.busy
      ensures DataOk(b)
    {
      forall h | h in b.reqs && h < NUM ensures Settled(b, h) {
        assert Settled(a, h);
      }
    }

    /** free_chain of the chain of a request: three turns, none of which panics. */
    method FreeChain(h: nat, ghost r: Request) returns (ok: bool)
      requires Shape(s) && Indices(h, r) && !s.free[h] && !s.free[r.i1] && !s.free[r.i2]
      requires s.desc[h].more && s.desc[h].next == r.i1 && s.desc[r.i1].more && s.desc[r.i1].next == r.i2
               && !s.desc[r.i2].more
      modifies this
      ensures ok && Shape(s)
      ensures s == old(s).(desc := old(s).desc[h := Zero()][r.i1 := Zero()][r.i2 := Zero()],
                           free := old(s).free[h := true][r.i1 := true][r.i2 := true])
    {
      var i := h;
      ghost var turn := 0;
      ok := true;
      while true
        invariant ok && Shape(s) && 0 <= turn < 3 && i == (if turn == 0 then h else if turn == 1 then r.i1 else r.i2)
        invariant s == (if turn == 0 then old(s)
                        else if turn == 1 then old(s).(desc := old(s).desc[h := Zero()], free := old(s).free[h := true])
                        else old(s).(desc := old(s).desc[h := Zero()][r.i1 := Zero()],
                             free := old(s).free[h := true][r.i1 := true]))
        decreases 3 - turn
      {
        var flag, nxt := s.desc[i].more, s.desc[i].next;
        ok := FreeDesc(i);
        if !flag {
          return;
        }
        i := nxt;
        turn := turn + 1;
      }
    }

    /** virtio_disk_rw after its wait: the chain is freed without a panic, as one step of the machine, and
        buffer and disk agree. */
    method FinishRw(h: nat) returns (ok: bool)
      requires Inv(s) && h in s.reqs && s.reqs[h].b !in s.busy
      modifies this
      ensures ok && Inv(s) && Indices(h, old(s).reqs[h]) && s == DoFinish(old(s), h)
      ensures Get(s.data, old(s).reqs[h].b) == Get(s.disk, old(s).reqs[h].block * 2)
    {
      ghost var r := s.reqs[h];
      FreeDescNeverPanics(s, h);
      DoneMeansAgreed(s, h);
      FinishKeeps(s, h);
      s := s.(info := s.info[h := Info(0, s.info[h].status)]);
      ok := FreeChain(h, r);
      s := s.(reqs := s.reqs - {h});
    }

    // ----- virtio_disk_intr -----

    /** The machine after n turns of the interrupt loop. */
    static ghost function Interrupted(a: State, n: nat): State
      requires Shape(a)
    {
      if n == 0 then a
      else var b := Interrupted(a, n - 1);
           if Shape(b) && CanInterrupt(b) then DoInterrupt(b) else b
    }

    /** One turn of the loop of virtio_disk_intr; false where it panics because the status is not 0. */
    method IntrTurn() returns (ok: bool)
      requires Inv(s) && s.seen != s.usedIdx
      modifies this
      ensures ok <==> CanInterrupt(old(s))
      ensures ok ==>
                && Inv(s) && s == DoInterrupt(old(s))
                && Ahead(s.seen, s.usedIdx) == Ahead(old(s).seen, old(s).usedIdx) - 1
      ensures !ok ==> s == old(s)
    {
      NextIsServed(s);
      PopRing(s.used, s.seen, s.usedIdx);
      var id := s.used[s.seen % NUM];
      if s.info[id].status != 0 {
        return false;
      }
      InterruptKeeps(s);
      s := s.(busy := s.busy - {s.info[id].b});
      s := s.(seen := (s.seen + 1) % WRAP);
      return true;
    }

    /** virtio_disk_intr: every completion in the used ring is handled, as steps of the machine, unless the
        device reports an error: then the driver panics at that completion (false). */
    method Intr() returns (ok: bool, ghost n: nat)
      requires Inv(s)
      modifies this
      ensures Inv(s) && s == Interrupted(old(s), n) && s.usedIdx == old(s).usedIdx && s.reqs == old(s).reqs
      ensures n + Ahead(s.seen, s.usedIdx) == Ahead(old(s).seen, old(s).usedIdx)
      ensures if ok then s.seen == s.usedIdx else s.seen != s.usedIdx && !CanInterrupt(s)
    {
      n := 0;
      while s.seen != s.usedIdx
        invariant Inv(s) && s == Interrupted(old(s), n) && s.usedIdx == old(s).usedIdx && s.reqs == old(s).reqs
        invariant n + Ahead(s.seen, s.usedIdx) == Ahead(old(s).seen, old(s).usedIdx)
        decreases Ahead(s.seen, s.usedIdx)
      {
        ok := IntrTurn();
        if !ok {
          return;
        }
        n := n + 1;
      }
      return true, n;
    }
  }
}
