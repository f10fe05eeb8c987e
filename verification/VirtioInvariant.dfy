/** Every step of the driver and of the device keeps the invariant. */
module VirtioInvariant {
  import opened Sequences
  import opened VirtioMachine

  // ----- lists of heads -----

  lemma {:induction false} CountsGiveDistinct(w: seq<nat>)
    requires forall h: nat :: multiset(w)[h] <= 1
    ensures Distinct(w)
  {
    forall i, j | 0 <= i < j < |w| ensures w[i] != w[j] {
      if w[i] == w[j] {
        TwiceCounted(w, i, j);
      }
    }
  }

  lemma TwiceCounted(w: seq<nat>, i: nat, j: nat)
    requires i < j < |w| && w[i] == w[j]
    ensures multiset(w)[w[i]] >= 2
  {
    var a, b := w[..j], w[j..];
    assert w == a + b;
    assert a[i] == w[i] && b[0] == w[i];
    assert w[i] in multiset(a) && w[i] in multiset(b);
  }

  function Elements(w: seq<nat>): set<nat> { set x | x in w }

  lemma {:induction false} ElementsCount(w: seq<nat>)
    requires Distinct(w)
    ensures |Elements(w)| == |w|
  {
    if |w| > 0 {
      var last := |w| - 1;
      var v := w[..last];
      ElementsCount(v);
      assert w == v + [w[last]];
      assert Elements(w) == Elements(v) + {w[last]};
      assert w[last] !in v;
    }
  }

  /** A list of distinct heads that misses one is shorter than the ring. */
  lemma ShortList(w: seq<nat>, x: nat)
    requires Distinct(w) && x < NUM && forall i :: 0 <= i < |w| ==> w[i] < NUM && w[i] != x
    ensures |w| < NUM
  {
    ElementsCount(w);
    var all: set<nat> := {0, 1, 2, 3, 4, 5, 6, 7};
    assert x in all && |all| == 8;
    assert |all - {x}| == 7;
    assert Elements(w) <= all - {x};
    SubsetSize(Elements(w), all - {x});
  }

  lemma SubsetSize(a: set<nat>, b: set<nat>)
    requires a <= b
    ensures |a| <= |b|
  {
    assert b == a + (b - a);
  }

  lemma InPlaces(s: State, h: nat)
    requires PlacesOk(s)
    ensures h in Pending(s) ==> multiset(Pending(s))[h] == 1 && h !in s.work && h !in s.served && h !in Posted(s)
    ensures h in s.work ==> h !in s.served && h !in Pending(s) && h !in Posted(s)
    ensures h in s.served ==> h !in Pending(s) && h !in Posted(s)
    ensures h in Posted(s) ==> multiset(Posted(s))[h] == 1 && h !in Pending(s)
    ensures h in Pending(s) || h in s.work || h in s.served || h in Posted(s) <==> h in s.reqs && s.reqs[h].b in s.busy
  {
    assert Places(s, h) == One(h in s.reqs && s.reqs[h].b in s.busy);
    assert h in Pending(s) <==> multiset(Pending(s))[h] > 0;
    assert h in Posted(s) <==> multiset(Posted(s))[h] > 0;
  }

  lemma PendingIsShort(s: State, x: nat)
    requires Inv(s) && x < NUM && s.free[x]
    ensures Ahead(s.fetched, s.availIdx) < NUM
  {
    assert Open(0, s);
    var w: seq<nat> := Pending(s);
    forall h: nat ensures multiset(w)[h] <= 1 {
      assert Places(s, h) == One(h in s.reqs && s.reqs[h].b in s.busy);
    }
    CountsGiveDistinct(w);
    forall i | 0 <= i < |w| ensures w[i] < NUM && w[i] != x {
      InPlaces(s, w[i]);
      assert InChain(w[i], s.reqs[w[i]], w[i]);
    }
    ShortList(w, x);
  }

  lemma PostedIsShort(s: State, x: nat)
    requires Inv(s) && x in s.served
    ensures Ahead(s.seen, s.usedIdx) < NUM
  {
    assert Open(0, s);
    var w: seq<nat> := Posted(s);
    forall h: nat ensures multiset(w)[h] <= 1 {
      assert Places(s, h) == One(h in s.reqs && s.reqs[h].b in s.busy);
    }
    CountsGiveDistinct(w);
    InPlaces(s, x);
    forall i | 0 <= i < |w| ensures w[i] < NUM && w[i] != x {
      InPlaces(s, w[i]);
      assert Indices(w[i], s.reqs[w[i]]);
    }
    assert Indices(x, s.reqs[x]);
    ShortList(w, x);
  }

  lemma CountPush(w: seq<nat>, x: nat, g: nat)
    ensures multiset(w + [x])[g] == multiset(w)[g] + One(x == g)
  {
  }

  lemma CountPop(w: seq<nat>, x: nat, g: nat)
    ensures multiset([x] + w)[g] == One(x == g) + multiset(w)[g]
  {
  }

  // ----- Submit -----

  lemma FreeIsNoHead(s: State, i: nat)
    requires ChainsOk(s) && i < NUM && s.free[i]
    ensures i !in s.reqs && Untaken(s.reqs, i)
  {
    if i in s.reqs {
      assert InChain(i, s.reqs[i], i);
    }
  }

  lemma UntakenAfterSubmit(reqs: map<nat, Request>, h: nat, r: Request, i: nat)
    requires h !in reqs
    ensures Untaken(reqs[h := r], i) <==> Untaken(reqs, i) && !InChain(h, r, i)
  {
    var reqs' := reqs[h := r];
    if Untaken(reqs', i) {
      assert reqs'[h] == r;
      forall g | g in reqs ensures !InChain(g, reqs[g], i) {
        assert reqs'[g] == reqs[g];
      }
    }
  }

  lemma SubmitChains(s: State, s': State, h: nat, r: Request)
    requires Shape(s) && ChainsOk(s) && CanSubmit(s, h, r) && s' == DoSubmit(s, h, r)
    ensures ChainsOk(s')
  {
    FreeIsNoHead(s, h);
    FreeIsNoHead(s, r.i1);
    FreeIsNoHead(s, r.i2);
    forall i: nat | i < NUM ensures s'.free[i] == Untaken(s'.reqs, i) {
      UntakenAfterSubmit(s.reqs, h, r, i);
    }
    forall f, g, i: nat | f in s'.reqs && g in s'.reqs && InChain(f, s'.reqs[f], i) && InChain(g, s'.reqs[g], i)
      ensures f == g
    {
      assert f != h ==> s'.reqs[f] == s.reqs[f];
      assert g != h ==> s'.reqs[g] == s.reqs[g];
    }
  }

  lemma SubmitFormat(s: State, s': State, h: nat, r: Request)
    requires Shape(s) && ChainsOk(s) && FormatOk(s) && CanSubmit(s, h, r) && s' == DoSubmit(s, h, r)
    ensures FormatOk(s')
  {
    FreeIsNoHead(s, h);
    FreeIsNoHead(s, r.i1);
    FreeIsNoHead(s, r.i2);
    forall g | g in s'.reqs
      ensures var q := s'.reqs[g];
              && Indices(g, q)
              && s'.desc[g] == Desc(Header(g), q.i1, true, false)
                 && s'.desc[q.i1] == Desc(Buffer(q.b), q.i2, true, !q.write)
              && s'.desc[q.i2] == Desc(Status(g), 0, false, true)
              && s'.ops[g] == Op(q.write, q.block * 2) && s'.info[g].b == q.b
    {
      if g != h {
        assert InChain(g, s.reqs[g], g) && InChain(g, s.reqs[g], s.reqs[g].i1) && InChain(g, s.reqs[g], s.reqs[g].i2);
      }
    }
  }

  lemma SubmitPlaces(s: State, s': State, h: nat, r: Request)
    requires Shape(s) && PlacesOk(s) && CanSubmit(s, h, r) && s' == DoSubmit(s, h, r) && h !in s.reqs
    requires Ahead(s.fetched, s.availIdx) < NUM
    ensures PlacesOk(s') && Pending(s') == Pending(s) + [h] && Posted(s') == Posted(s)
  {
    PushRing(s.avail, s.fetched, s.availIdx, h);
    forall g: nat ensures Places(s', g) == One(g in s'.reqs && s'.reqs[g].b in s'.busy) {
      assert Places(s, g) == One(g in s.reqs && s.reqs[g].b in s.busy);
      CountPush(Pending(s), h, g);
    }
  }

  lemma SubmitBuffers(s: State, s': State, h: nat, r: Request)
    requires Shape(s) && BuffersOk(s) && CanSubmit(s, h, r) && s' == DoSubmit(s, h, r) && h !in s.reqs
    ensures BuffersOk(s')
  {
    forall b | b in s'.busy ensures exists g :: g in s'.reqs && s'.reqs[g].b == b {
      if b == r.b {
        assert s'.reqs[h].b == b;
      } else {
        var g :| g in s.reqs && s.reqs[g].b == b;
        assert s'.reqs[g].b == b;
      }
    }
  }

  lemma SubmitData(s: State, s': State, h: nat, r: Request)
    requires Shape(s) && DataOk(s) && CanSubmit(s, h, r) && s' == DoSubmit(s, h, r) && h !in s.reqs
    requires h !in s.served && h !in Posted(s) && Posted(s') == Posted(s)
    ensures DataOk(s')
  {
    forall g | g in s'.reqs && g < NUM ensures Settled(s', g) {
      if g != h {
        assert Settled(s, g) && s'.reqs[g] == s.reqs[g];
      }
    }
  }

  lemma SubmitKeeps(s: State, h: nat, r: Request)
    requires Inv(s) && CanSubmit(s, h, r)
    ensures Inv(DoSubmit(s, h, r))
  {
    assert Open(0, s);
    var s' := DoSubmit(s, h, r);
    FreeIsNoHead(s, h);
    PendingIsShort(s, h);
    InPlaces(s, h);
    SubmitChains(s, s', h, r);
    SubmitFormat(s, s', h, r);
    SubmitPlaces(s, s', h, r);
    SubmitBuffers(s, s', h, r);
    SubmitData(s, s', h, r);
  }

  // ----- the device -----

  /** Nothing that the driver relies on has changed. */
  predicate SameDriver(s: State, s': State) {
    && s'.free == s.free && s'.desc == s.desc && s'.ops == s.ops && s'.info == s.info && s'.reqs == s.reqs
       && s'.busy == s.busy
    && s'.data == s.data && s'.disk == s.disk
  }

  lemma FetchPlaces(s: State, s': State)
    requires Shape(s) && PlacesOk(s) && s.fetched != s.availIdx && s' == DoFetch(s)
    ensures PlacesOk(s') && Posted(s') == Posted(s)
  {
    var x := s.avail[s.fetched % NUM];
    PopRing(s.avail, s.fetched, s.availIdx);
    assert Pending(s) == [x] + Pending(s');
    InPlaces(s, x);
    forall g: nat ensures Places(s', g) == One(g in s'.reqs && s'.reqs[g].b in s'.busy) {
      assert Places(s, g) == One(g in s.reqs && s.reqs[g].b in s.busy);
      CountPop(Pending(s'), x, g);
    }
  }

  lemma SameDone(s: State, s': State)
    requires Shape(s) && Shape(s') && SameDriver(s, s') && DataOk(s)
    requires forall h: nat :: (h in s'.served || h in Posted(s')) ==> h in s.served || h in Posted(s)
    ensures DataOk(s')
  {
    forall h | h in s'.reqs && h < NUM ensures Settled(s', h) {
      assert Settled(s, h);
    }
  }

  lemma SameChains(s: State, s': State)
    requires ChainsOk(s) && s'.free == s.free && s'.reqs == s.reqs
    ensures ChainsOk(s')
  {
  }

  lemma SameFormat(s: State, s': State)
    requires FormatOk(s) && Shape(s') && s'.reqs == s.reqs && s'.desc == s.desc && s'.ops == s.ops && s'.info == s.info
    ensures FormatOk(s')
  {
  }

  lemma SameBuffers(s: State, s': State)
    requires BuffersOk(s) && s'.reqs == s.reqs && s'.busy <= s.busy
    ensures BuffersOk(s')
  {
  }

  lemma FetchKeeps(s: State)
    requires Inv(s) && s.fetched != s.availIdx
    ensures Inv(DoFetch(s))
  {
    assert Open(0, s);
    FetchPlaces(s, DoFetch(s));
    SameDone(s, DoFetch(s));
    SameChains(s, DoFetch(s));
    SameFormat(s, DoFetch(s));
    SameBuffers(s, DoFetch(s));
  }

  /** The device can serve every chain it has taken, and does what the request asks for. */
  lemma ChainIsSound(s: State, c: nat)
    requires Shape(s) && FormatOk(s) && c in s.reqs
    ensures Sound(s, c) && s.ops[s.desc[c].addr.i] == Op(s.reqs[c].write, s.reqs[c].block * 2)
    ensures s.desc[s.desc[c].next].addr == Buffer(s.reqs[c].b) && s.desc[s.desc[s.desc[c].next].next].addr == Status(c)
  {
  }

  lemma ServePlaces(s: State, s': State, c: nat, status: nat, junk: Data)
    requires Shape(s) && PlacesOk(s) && c in s.work && Sound(s, c) && s' == DoServe(s, c, status, junk)
    ensures PlacesOk(s') && Posted(s') == Posted(s)
  {
    InPlaces(s, c);
    assert Pending(s') == Pending(s);
    forall g: nat ensures Places(s', g) == One(g in s'.reqs && s'.reqs[g].b in s'.busy) {
      assert Places(s, g) == One(g in s.reqs && s.reqs[g].b in s.busy);
    }
  }

  lemma ServeFormat(s: State, s': State, c: nat, status: nat, junk: Data)
    requires Shape(s) && FormatOk(s) && c in s.reqs && Sound(s, c) && s' == DoServe(s, c, status, junk)
    ensures FormatOk(s')
  {
    ChainIsSound(s, c);
  }

  lemma ServeTransfers(s: State, s': State, c: nat, status: nat, junk: Data)
    requires Shape(s) && FormatOk(s) && c in s.reqs && Sound(s, c) && s' == DoServe(s, c, status, junk)
    ensures status == 0 ==> Get(s'.data, s.reqs[c].b) == Get(s'.disk, s.reqs[c].block * 2)
    ensures s'.info == s.info[c := Info(s.info[c].b, status)]
    ensures forall b :: b != s.reqs[c].b ==> Get(s'.data, b) == Get(s.data, b)
    ensures forall k :: k != s.reqs[c].block * 2 ==> Get(s'.disk, k) == Get(s.disk, k)
  {
    ChainIsSound(s, c);
  }

  lemma ServeData(s: State, s': State, c: nat, status: nat, junk: Data)
    requires Shape(s) && FormatOk(s) && BuffersOk(s) && DataOk(s) && c in s.reqs && Sound(s, c)
             && s' == DoServe(s, c, status, junk)
    requires Posted(s') == Posted(s) && s.reqs[c].b in s.busy
    ensures DataOk(s')
  {
    ServeTransfers(s, s', c, status, junk);
    forall h | h in s'.reqs && h < NUM ensures Settled(s', h) {
      if h != c {
        assert Settled(s, h);
        assert s.reqs[h].b != s.reqs[c].b && s.reqs[h].block * 2 != s.reqs[c].block * 2;
      }
    }
  }

  lemma ServeKeeps(s: State, c: nat, status: nat, junk: Data)
    requires Inv(s) && c in s.work && Sound(s, c)
    ensures Inv(DoServe(s, c, status, junk))
  {
    assert Open(0, s);
    var s' := DoServe(s, c, status, junk);
    InPlaces(s, c);
    ServePlaces(s, s', c, status, junk);
    ServeFormat(s, s', c, status, junk);
    ServeData(s, s', c, status, junk);
    SameChains(s, s');
    SameBuffers(s, s');
  }

  lemma CompletePlaces(s: State, s': State, u: nat)
    requires Shape(s) && PlacesOk(s) && u in s.served && s' == DoComplete(s, u) && Ahead(s.seen, s.usedIdx) < NUM
    ensures PlacesOk(s') && Posted(s') == Posted(s) + [u]
  {
    PushRing(s.used, s.seen, s.usedIdx, u);
    assert Pending(s') == Pending(s);
    InPlaces(s, u);
    forall g: nat ensures Places(s', g) == One(g in s'.reqs && s'.reqs[g].b in s'.busy) {
      assert Places(s, g) == One(g in s.reqs && s.reqs[g].b in s.busy);
      CountPush(Posted(s), u, g);
    }
  }

  lemma CompleteKeeps(s: State, u: nat)
    requires Inv(s) && u in s.served
    ensures Inv(DoComplete(s, u))
  {
    assert Open(0, s);
    PostedIsShort(s, u);
    CompletePlaces(s, DoComplete(s, u), u);
    SameDone(s, DoComplete(s, u));
    SameChains(s, DoComplete(s, u));
    SameFormat(s, DoComplete(s, u));
    SameBuffers(s, DoComplete(s, u));
  }

  // ----- the interrupt -----

  /** The next entry of the used ring is the head of a request that has been served. */
  lemma NextIsServed(s: State)
    requires Inv(s) && s.seen != s.usedIdx
    ensures var id := s.used[s.seen % NUM];
            id in s.reqs && id < NUM && s.info[id].b == s.reqs[id].b && s.reqs[id].b in s.busy && id in Posted(s)
  {
    assert Open(0, s);
    var id := s.used[s.seen % NUM];
    PopRing(s.used, s.seen, s.usedIdx);
    assert Posted(s)[0] == id;
    InPlaces(s, id);
    assert Indices(id, s.reqs[id]);
  }

  lemma InterruptPlaces(s: State, s': State, id: nat)
    requires Shape(s) && PlacesOk(s) && BuffersOk(s) && s.seen != s.usedIdx && id == s.used[s.seen % NUM] < NUM
    requires id in s.reqs && s.info[id].b == s.reqs[id].b && s.reqs[id].b in s.busy && s' == DoInterrupt(s)
    ensures PlacesOk(s') && Posted(s) == [id] + Posted(s')
  {
    PopRing(s.used, s.seen, s.usedIdx);
    assert Posted(s) == [id] + Posted(s');
    assert Pending(s') == Pending(s);
    forall g: nat ensures Places(s', g) == One(g in s'.reqs && s'.reqs[g].b in s'.busy) {
      assert Places(s, g) == One(g in s.reqs && s.reqs[g].b in s.busy);
      CountPop(Posted(s'), id, g);
    }
  }

  lemma InterruptData(s: State, s': State, id: nat)
    requires Shape(s) && Shape(s') && DataOk(s) && id in s.reqs && id in Posted(s) && Posted(s) == [id] + Posted(s')
             && id < NUM
    requires s.info[id].status == 0
    requires s'.reqs == s.reqs && s'.info == s.info && s'.data == s.data && s'.disk == s.disk && s'.served == s.served
    requires s'.busy == s.busy - {s.reqs[id].b} && (forall h :: h in s.reqs && h != id ==> s.reqs[h].b != s.reqs[id].b)
    ensures DataOk(s')
  {
    forall h | h in s'.reqs && h < NUM ensures Settled(s', h) {
      assert Settled(s, h);
    }
  }

  lemma InterruptKeeps(s: State)
    requires Inv(s) && CanInterrupt(s)
    ensures Inv(DoInterrupt(s))
  {
    assert Open(0, s);
    var id := s.used[s.seen % NUM];
    NextIsServed(s);
    InterruptPlaces(s, DoInterrupt(s), id);
    InterruptData(s, DoInterrupt(s), id);
    SameChains(s, DoInterrupt(s));
    SameFormat(s, DoInterrupt(s));
    SameBuffers(s, DoInterrupt(s));
  }

  // ----- Finish -----

  lemma UntakenAfterFinish(reqs: map<nat, Request>, f: nat, i: nat)
    requires f in reqs
    requires forall g, h, j: nat ::
               g in reqs && h in reqs && InChain(g, reqs[g], j) && InChain(h, reqs[h], j) ==> g == h
    ensures Untaken(reqs - {f}, i) <==> Untaken(reqs, i) || InChain(f, reqs[f], i)
  {
    var reqs' := reqs - {f};
    if Untaken(reqs', i) && !InChain(f, reqs[f], i) {
      forall g | g in reqs ensures !InChain(g, reqs[g], i) {
        assert g != f ==> g in reqs' && reqs'[g] == reqs[g];
      }
    }
    if InChain(f, reqs[f], i) {
      forall g | g in reqs' ensures !InChain(g, reqs'[g], i) {
        assert reqs'[g] == reqs[g];
      }
    }
  }

  lemma FinishChains(s: State, s': State, f: nat)
    requires Shape(s) && ChainsOk(s) && f in s.reqs && s' == DoFinish(s, f)
    ensures ChainsOk(s')
  {
    forall i: nat | i < NUM ensures s'.free[i] == Untaken(s'.reqs, i) {
      UntakenAfterFinish(s.reqs, f, i);
      assert s.free[i] == Untaken(s.reqs, i);
    }
  }

  lemma FinishFormat(s: State, s': State, f: nat)
    requires Shape(s) && ChainsOk(s) && FormatOk(s) && f in s.reqs && s' == DoFinish(s, f)
    ensures FormatOk(s')
  {
    forall g | g in s'.reqs
      ensures var q := s'.reqs[g];
              && Indices(g, q)
              && s'.desc[g] == Desc(Header(g), q.i1, true, false)
                 && s'.desc[q.i1] == Desc(Buffer(q.b), q.i2, true, !q.write)
              && s'.desc[q.i2] == Desc(Status(g), 0, false, true)
              && s'.ops[g] == Op(q.write, q.block * 2) && s'.info[g].b == q.b
    {
      var q := s.reqs[g];
      assert !InChain(f, s.reqs[f], g) by { assert InChain(g, q, g); }
      assert !InChain(f, s.reqs[f], q.i1) by { assert InChain(g, q, q.i1); }
      assert !InChain(f, s.reqs[f], q.i2) by { assert InChain(g, q, q.i2); }
    }
  }

  lemma FinishPlaces(s: State, s': State, f: nat)
    requires Shape(s) && PlacesOk(s) && f in s.reqs && Indices(f, s.reqs[f]) && s.reqs[f].b !in s.busy
    requires s' == DoFinish(s, f)
    ensures PlacesOk(s') && Posted(s') == Posted(s)
  {
    assert Pending(s') == Pending(s) && Posted(s') == Posted(s);
    forall g: nat ensures Places(s', g) == One(g in s'.reqs && s'.reqs[g].b in s'.busy) {
      assert Places(s, g) == One(g in s.reqs && s.reqs[g].b in s.busy);
    }
  }

  lemma FinishRest(s: State, s': State, f: nat)
    requires Shape(s) && BuffersOk(s) && PlacesOk(s) && DataOk(s) && f in s.reqs && Indices(f, s.reqs[f])
             && s.reqs[f].b !in s.busy && s' == DoFinish(s, f)
    ensures BuffersOk(s') && PlacesOk(s') && DataOk(s')
  {
    FinishPlaces(s, s', f);
    forall b | b in s'.busy ensures exists g :: g in s'.reqs && s'.reqs[g].b == b {
      var g :| g in s.reqs && s.reqs[g].b == b;
      assert s'.reqs[g].b == b;
    }
    forall h | h in s'.reqs && h < NUM ensures Settled(s', h) {
      assert Settled(s, h);
    }
  }

  lemma FinishKeeps(s: State, f: nat)
    requires Inv(s) && f in s.reqs && Indices(f, s.reqs[f]) && s.reqs[f].b !in s.busy
    ensures Inv(DoFinish(s, f))
  {
    assert Open(0, s);
    FinishChains(s, DoFinish(s, f), f);
    FinishFormat(s, DoFinish(s, f), f);
    FinishRest(s, DoFinish(s, f), f);
  }

  // ----- buffers that are not in flight -----

  lemma ChangePlaces(s: State, s': State, b: nat, v: Data)
    requires Shape(s) && PlacesOk(s) && s' == DoChange(s, b, v)
    ensures PlacesOk(s') && Posted(s') == Posted(s)
  {
    assert Pending(s') == Pending(s) && Posted(s') == Posted(s);
    forall g: nat ensures Places(s', g) == One(g in s'.reqs && s'.reqs[g].b in s'.busy) {
      assert Places(s, g) == One(g in s.reqs && s.reqs[g].b in s.busy);
    }
  }

  lemma ChangeData(s: State, s': State, b: nat, v: Data)
    requires Shape(s) && DataOk(s) && CanChange(s, b) && s' == DoChange(s, b, v) && Posted(s') == Posted(s)
    ensures DataOk(s')
  {
    forall h | h in s'.reqs && h < NUM ensures Settled(s', h) {
      assert Settled(s, h);
    }
  }

  lemma ChangeKeeps(s: State, b: nat, v: Data)
    requires Inv(s) && CanChange(s, b)
    ensures Inv(DoChange(s, b, v))
  {
    assert Open(0, s);
    ChangePlaces(s, DoChange(s, b, v), b, v);
    ChangeData(s, DoChange(s, b, v), b, v);
    SameChains(s, DoChange(s, b, v));
    SameFormat(s, DoChange(s, b, v));
    SameBuffers(s, DoChange(s, b, v));
  }

  // ----- all steps -----

  lemma StepKeepsInv(s: State, a: Step)
    requires Inv(s) && Enabled(s, a)
    ensures Inv(Apply(s, a))
  {
    match a
    case Submit(h, r) => SubmitKeeps(s, h, r);
    case Fetch => FetchKeeps(s);
    case Serve(c, status, junk) => ServeKeeps(s, c, status, junk);
    case Complete(u) => CompleteKeeps(s, u);
    case Interrupt => InterruptKeeps(s);
    case Finish(f) => FinishKeeps(s, f);
    case Change(b, v) => ChangeKeeps(s, b, v);
  }

  lemma InitHolds(s: State)
    requires Init(s)
    ensures Inv(s)
  {
    assert Pending(s) == [] && Posted(s) == [];
    assert ChainsOk(s) && FormatOk(s) && BuffersOk(s) && PlacesOk(s) && DataOk(s);
  }
}
