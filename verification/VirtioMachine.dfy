/**
 The virtio disk driver and its device as a transition system.

 A driver step is a region under vdisk_lock; the device runs beside it, takes requests from the
 available ring in order, serves and completes them in any order.  The device knows a request only by
 the descriptor chain in memory.
 */
module VirtioMachine {

  const NUM: nat := 8
  const WRAP: nat := 0x1_0000   // ring indices are 16-bit numbers

  type Data = seq<int>

  /** What a descriptor points to. */
  datatype Addr = Nowhere | Header(i: nat) | Buffer(b: nat) | Status(i: nat)

  datatype Desc = Desc(addr: Addr, next: nat, more: bool, write: bool)   // VRING_DESC_F_NEXT, VRING_DESC_F_WRITE

  datatype Op = Op(write: bool, sector: nat)

  datatype Info = Info(b: nat, status: nat)

  /** A process in virtio_disk_rw after it has queued its request. */
  datatype Request = Request(pid: nat, b: nat, block: nat, write: bool, i1: nat, i2: nat)

  /** `reqs` is keyed by the head of the chain; `busy` are the buffers with b->disk set; `seen` is the
      driver's used_idx; `fetched` is how far the device has read the available ring, `work` and
      `served` are the chains it is working on and has served. */
  datatype State = State(
    free: seq<bool>, desc: seq<Desc>, ops: seq<Op>, info: seq<Info>,
    avail: seq<nat>, availIdx: nat, used: seq<nat>, usedIdx: nat, seen: nat,
    fetched: nat, work: set<nat>, served: set<nat>,
    reqs: map<nat, Request>, busy: set<nat>, data: map<nat, Data>, disk: map<nat, Data>)

  datatype Step =
    | Submit(h: nat, r: Request)   // alloc3_desc has found h, r.i1, r.i2
    | Fetch                        // the device reads the available ring
    | Serve(c: nat, status: nat, junk: Data)   // the device does the transfer, or fails, and writes the status
    | Complete(u: nat)             // the device writes the used ring
    | Interrupt                    // one turn of the loop of virtio_disk_intr
    | Finish(f: nat)               // virtio_disk_rw has found b->disk == 0
    | Change(b: nat, v: Data)      // a process changes a buffer that is not in flight

  function Get(m: map<nat, Data>, k: nat): Data { if k in m then m[k] else [] }

  // ----- rings -----

  /** How far hi is ahead of lo, as 16-bit numbers. */
  function Ahead(lo: nat, hi: nat): nat { (hi + WRAP - lo % WRAP) % WRAP }

  /** n entries of a ring from index lo on. */
  function Window(ring: seq<nat>, lo: nat, n: nat): (w: seq<nat>)
    requires |ring| == NUM
    ensures |w| == n && forall k :: 0 <= k < n ==> w[k] == ring[(lo + k) % NUM]
  {
    seq(n, k requires 0 <= k < n => ring[(lo + k) % NUM])
  }

  lemma AheadOfNext(lo: nat, hi: nat)
    requires lo < WRAP && hi < WRAP && Ahead(lo, hi) < NUM
    ensures Ahead(lo, (hi + 1) % WRAP) == Ahead(lo, hi) + 1
  {
  }

  lemma PushRing(ring: seq<nat>, lo: nat, hi: nat, x: nat)
    requires |ring| == NUM && lo < WRAP && hi < WRAP && Ahead(lo, hi) < NUM
    ensures Ahead(lo, (hi + 1) % WRAP) == Ahead(lo, hi) + 1
    ensures Window(ring[hi % NUM := x], lo, Ahead(lo, hi) + 1) == Window(ring, lo, Ahead(lo, hi)) + [x]
  {
    AheadOfNext(lo, hi);
    PushWindow(ring, lo, hi, x, Ahead(lo, hi));
  }

  lemma PushWindow(ring: seq<nat>, lo: nat, hi: nat, x: nat, n: nat)
    requires |ring| == NUM && lo < WRAP && hi < WRAP && n == Ahead(lo, hi) < NUM
    ensures Window(ring[hi % NUM := x], lo, n + 1) == Window(ring, lo, n) + [x]
  {
    var l, r := Window(ring[hi % NUM := x], lo, n + 1), Window(ring, lo, n) + [x];
    forall k | 0 <= k < n + 1 ensures l[k] == r[k] {
      SlotsDiffer(lo, hi, k);
    }
  }

  lemma SlotsDiffer(lo: nat, hi: nat, k: nat)
    requires lo < WRAP && hi < WRAP && k <= Ahead(lo, hi) < NUM
    ensures (lo + k) % NUM == hi % NUM <==> k == Ahead(lo, hi)
  {
    var n := Ahead(lo, hi);
    assert lo + n == hi || lo + n == hi + WRAP;
    assert (hi + WRAP) % NUM == hi % NUM;
  }

  lemma AheadOfLast(lo: nat, hi: nat)
    requires lo < WRAP && hi < WRAP && lo != hi
    ensures Ahead(lo, hi) > 0 && Ahead((lo + 1) % WRAP, hi) == Ahead(lo, hi) - 1
  {
  }

  lemma PopRing(ring: seq<nat>, lo: nat, hi: nat)
    requires |ring| == NUM && lo < WRAP && hi < WRAP && lo != hi
    ensures Ahead(lo, hi) > 0 && Ahead((lo + 1) % WRAP, hi) == Ahead(lo, hi) - 1
    ensures Window(ring, lo, Ahead(lo, hi)) == [ring[lo % NUM]] + Window(ring, (lo + 1) % WRAP, Ahead(lo, hi) - 1)
  {
    AheadOfLast(lo, hi);
    PopWindow(ring, lo, Ahead(lo, hi));
  }

  lemma PopWindow(ring: seq<nat>, lo: nat, n: nat)
    requires |ring| == NUM && lo < WRAP && n > 0
    ensures Window(ring, lo, n) == [ring[lo % NUM]] + Window(ring, (lo + 1) % WRAP, n - 1)
  {
    var l, r := Window(ring, lo, n), [ring[lo % NUM]] + Window(ring, (lo + 1) % WRAP, n - 1);
    forall k | 0 <= k < n ensures l[k] == r[k] {
      if k > 0 {
        NextSlot(lo, k);
      }
    }
  }

  lemma NextSlot(lo: nat, k: nat)
    requires lo < WRAP && k > 0
    ensures ((lo + 1) % WRAP + (k - 1)) % NUM == (lo + k) % NUM
  {
    if lo + 1 == WRAP {
      AddWrap(k - 1);
      assert lo + k == WRAP + (k - 1);
    } else {
      assert (lo + 1) % WRAP == lo + 1;
      assert lo + 1 + (k - 1) == lo + k;
    }
  }

  /** The ring size divides the range of the indices. */
  lemma AddWrap(x: nat)
    ensures (WRAP + x) % NUM == x % NUM
  {
    var q, r := x / 8, x % 8;
    assert WRAP + x == 8 * (8192 + q) + r;
  }

  /** The heads in the available ring that the device has not read. */
  function Pending(s: State): seq<nat>
    requires |s.avail| == NUM
  {
    Window(s.avail, s.fetched, Ahead(s.fetched, s.availIdx))
  }

  /** The heads in the used ring that the driver has not read. */
  function Posted(s: State): seq<nat>
    requires |s.used| == NUM
  {
    Window(s.used, s.seen, Ahead(s.seen, s.usedIdx))
  }

  // ----- steps -----

  predicate Shape(s: State) {
    && |s.free| == NUM && |s.desc| == NUM && |s.ops| == NUM && |s.info| == NUM && |s.avail| == NUM && |s.used| == NUM
    && s.availIdx < WRAP && s.usedIdx < WRAP && s.seen < WRAP && s.fetched < WRAP
  }

  predicate Indices(h: nat, r: Request) {
    h < NUM && r.i1 < NUM && r.i2 < NUM && h != r.i1 && h != r.i2 && r.i1 != r.i2
  }

  /** The caller holds the sleep lock of its buffer, and a block has one buffer. */
  predicate CanSubmit(s: State, h: nat, r: Request)
    requires Shape(s)
  {
    && Indices(h, r) && s.free[h] && s.free[r.i1] && s.free[r.i2]
    && r.b !in s.busy && forall g :: g in s.reqs ==> s.reqs[g].b != r.b && s.reqs[g].block != r.block
  }

  /** The three descriptors of a request. */
  function Formatted(desc: seq<Desc>, h: nat, r: Request): seq<Desc>
    requires |desc| == NUM && Indices(h, r)
  {
    desc[h := Desc(Header(h), r.i1, true, false)]
        [r.i1 := Desc(Buffer(r.b), r.i2, true, !r.write)]
        [r.i2 := Desc(Status(h), 0, false, true)]
  }

  function DoSubmit(s: State, h: nat, r: Request): State
    requires Shape(s) && CanSubmit(s, h, r)
  {
    s.(free := s.free[h := false][r.i1 := false][r.i2 := false],
       desc := Formatted(s.desc, h, r),
       ops := s.ops[h := Op(r.write, r.block * 2)],
       info := s.info[h := Info(r.b, 0xff)],
       busy := s.busy + {r.b},
       avail := s.avail[s.availIdx % NUM := h],
       availIdx := (s.availIdx + 1) % WRAP,
       reqs := s.reqs[h := r])
  }

  function DoFetch(s: State): State
    requires Shape(s)
  {
    s.(work := s.work + {s.avail[s.fetched % NUM]}, fetched := (s.fetched + 1) % WRAP)
  }

  /** The device can make sense of the chain. */
  predicate Sound(s: State, c: nat)
    requires Shape(s)
  {
    && c < NUM && s.desc[c].addr.Header? && s.desc[c].addr.i < NUM && s.desc[c].more && s.desc[c].next < NUM
    && var d1 := s.desc[s.desc[c].next];
       d1.addr.Buffer? && d1.more && d1.next < NUM && d1.write == !s.ops[s.desc[c].addr.i].write
       && s.desc[d1.next].addr.Status? && s.desc[d1.next].addr.i < NUM && s.desc[d1.next].write
  }

  /** The transfer, whose target holds anything when the status is not 0. */
  function DoServe(s: State, c: nat, status: nat, junk: Data): State
    requires Shape(s) && Sound(s, c)
  {
    var op := s.ops[s.desc[c].addr.i];
    var d1 := s.desc[s.desc[c].next];
    var st := s.desc[d1.next].addr.i;
    s.(work := s.work - {c}, served := s.served + {c},
       disk := if op.write then s.disk[op.sector := if status == 0 then Get(s.data, d1.addr.b) else junk] else s.disk,
       data := if op.write then s.data else s.data[d1.addr.b := if status == 0 then Get(s.disk, op.sector) else junk],
       info := s.info[st := Info(s.info[st].b, status)])
  }

  function DoComplete(s: State, u: nat): State
    requires Shape(s)
  {
    s.(served := s.served - {u}, used := s.used[s.usedIdx % NUM := u], usedIdx := (s.usedIdx + 1) % WRAP)
  }

  function DoInterrupt(s: State): State
    requires Shape(s) && s.used[s.seen % NUM] < NUM
  {
    var id := s.used[s.seen % NUM];
    s.(busy := s.busy - {s.info[id].b}, seen := (s.seen + 1) % WRAP)
  }

  /** There is a completion, and its status is 0; for any other the driver panics. */
  predicate CanInterrupt(s: State)
    requires Shape(s)
  {
    s.seen != s.usedIdx && s.used[s.seen % NUM] < NUM && s.info[s.used[s.seen % NUM]].status == 0
  }

  /** free_desc of the three descriptors of a chain. */
  function DoFinish(s: State, f: nat): State
    requires Shape(s) && f in s.reqs && Indices(f, s.reqs[f])
  {
    var r := s.reqs[f];
    var zero := Desc(Nowhere, 0, false, false);
    s.(info := s.info[f := Info(0, s.info[f].status)],
       desc := s.desc[f := zero][r.i1 := zero][r.i2 := zero],
       free := s.free[f := true][r.i1 := true][r.i2 := true],
       reqs := s.reqs - {f})
  }

  /** The sleep lock of a buffer in flight is held by the process that waits for it. */
  predicate CanChange(s: State, b: nat) {
    forall h :: h in s.reqs ==> s.reqs[h].b != b
  }

  function DoChange(s: State, b: nat, v: Data): State {
    s.(data := s.data[b := v])
  }

  predicate Enabled(s: State, a: Step)
    requires Shape(s)
  {
    match a
    case Submit(h, r) => CanSubmit(s, h, r)
    case Fetch => s.fetched != s.availIdx
    case Serve(c, status, junk) => c in s.work && Sound(s, c)
    case Complete(u) => u in s.served
    case Interrupt => CanInterrupt(s)
    case Finish(f) => f in s.reqs && Indices(f, s.reqs[f]) && s.reqs[f].b !in s.busy
    case Change(b, v) => CanChange(s, b)
  }

  function Apply(s: State, a: Step): State
    requires Shape(s) && Enabled(s, a)
  {
    match a
    case Submit(h, r) => DoSubmit(s, h, r)
    case Fetch => DoFetch(s)
    case Serve(c, status, junk) => DoServe(s, c, status, junk)
    case Complete(u) => DoComplete(s, u)
    case Interrupt => DoInterrupt(s)
    case Finish(f) => DoFinish(s, f)
    case Change(b, v) => DoChange(s, b, v)
  }

  // ----- the invariant -----

  predicate InChain(h: nat, r: Request, i: nat) { i == h || i == r.i1 || i == r.i2 }

  /** Descriptor i is in no chain. */
  ghost predicate Untaken(reqs: map<nat, Request>, i: nat) {
    forall h :: h in reqs ==> !InChain(h, reqs[h], i)
  }

  /** The chains of distinct requests are disjoint, and a descriptor is free exactly when it is in none. */
  ghost predicate ChainsOk(s: State) {
    && |s.free| == NUM
    && (forall h :: h in s.reqs ==> Indices(h, s.reqs[h]))
    && (forall g, h, i: nat :: g in s.reqs && h in s.reqs && InChain(g, s.reqs[g], i) && InChain(h, s.reqs[h], i) ==>
       g == h)
    && (forall i: nat :: i < NUM ==> s.free[i] == Untaken(s.reqs, i))
  }

  /** The descriptors, the command and the record of every request are intact. */
  ghost predicate FormatOk(s: State) {
    && Shape(s)
    && forall h :: h in s.reqs ==>
         var r := s.reqs[h];
         && Indices(h, r)
         && s.desc[h] == Desc(Header(h), r.i1, true, false) && s.desc[r.i1] == Desc(Buffer(r.b), r.i2, true, !r.write)
         && s.desc[r.i2] == Desc(Status(h), 0, false, true)
         && s.ops[h] == Op(r.write, r.block * 2) && s.info[h].b == r.b
  }

  /** Requests have their own buffers and blocks; a busy buffer is that of a request. */
  ghost predicate BuffersOk(s: State) {
    && (forall g, h :: g in s.reqs && h in s.reqs && g != h ==>
          s.reqs[g].b != s.reqs[h].b && s.reqs[g].block != s.reqs[h].block)
    && (forall b :: b in s.busy ==> exists h :: h in s.reqs && s.reqs[h].b == b)
  }

  function One(b: bool): nat { if b then 1 else 0 }

  /** Where head h is: how often in each of the four places a request goes through. */
  function Places(s: State, h: nat): nat
    requires |s.avail| == NUM && |s.used| == NUM
  {
    multiset(Pending(s))[h] + One(h in s.work) + One(h in s.served) + multiset(Posted(s))[h]
  }

  /** Every request that is not done is in exactly one place, and nothing else is anywhere. */
  ghost predicate PlacesOk(s: State) {
    && |s.avail| == NUM && |s.used| == NUM
    && forall h: nat :: Places(s, h) == One(h in s.reqs && s.reqs[h].b in s.busy)
  }

  /** The device has done the transfer of request h. */
  ghost predicate Done(s: State, h: nat)
    requires |s.used| == NUM && h in s.reqs
  {
    h in s.served || h in Posted(s) || s.reqs[h].b !in s.busy
  }

  /** When the driver is done with a request its status is 0, and when the device has served it with status
      0 its buffer holds what the disk holds. */
  ghost predicate Settled(s: State, h: nat)
    requires |s.used| == NUM && |s.info| == NUM && h in s.reqs && h < NUM
  {
    && (s.reqs[h].b !in s.busy ==> s.info[h].status == 0)
    && (Done(s, h) && s.info[h].status == 0 ==> Get(s.data, s.reqs[h].b) == Get(s.disk, s.reqs[h].block * 2))
  }

  ghost predicate DataOk(s: State) {
    && |s.used| == NUM && |s.info| == NUM
    && forall h :: h in s.reqs && h < NUM ==> Settled(s, h)
  }

  /** Inv is looked into only where this is mentioned. */
  ghost predicate Open(n: int, s: State) { true }

  ghost predicate Inv(s: State) {
    match s
    case State(_, _, _, _, _, _, _, _, _, _, _, _, _, _, _, _) =>
      && Shape(s)
      && forall n: int {:trigger Open(n, s)} :: 0 <= n ==>
         ChainsOk(s) && FormatOk(s) && BuffersOk(s) && PlacesOk(s) && DataOk(s)
  }

  /** virtio_disk_init. */
  predicate Init(s: State) {
    && Shape(s) && (forall i :: 0 <= i < NUM ==> s.free[i])
    && s.availIdx == 0 && s.usedIdx == 0 && s.seen == 0 && s.fetched == 0
    && s.work == {} && s.served == {} && s.reqs == map[] && s.busy == {}
  }
}
