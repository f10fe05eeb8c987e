/**
 The buffer cache: NBUF buffers on a circular doubly linked list ordered by use.

 The list is modelled as the code has it, with prev and next links that are changed in place; the
 sentinel is number NBUF.  A ghost sequence gives the order of the buffers on the list, and ghost
 stamps record when each was last moved to the front.
 */
module BufferCache {
  import opened Sequences

  const NBUF: nat := 30
  const HEAD: nat := NBUF

  type Block = seq<nat>
  type Key = (nat, nat)   // device, block number

  datatype Buf = Buf(dev: nat, blockno: nat, valid: bool, refcnt: nat, data: Block)

  function KeyOf(b: Buf): Key { (b.dev, b.blockno) }

  // ----- circular lists -----

  /** Position i of the circle: the sentinel, the buffers in order, the sentinel again. */
  function Node(order: seq<nat>, i: nat): nat {
    if 1 <= i <= |order| then order[i - 1] else HEAD
  }

  ghost predicate InRange(order: seq<nat>) {
    forall i :: 0 <= i < |order| ==> order[i] < NBUF
  }

  /** next and prev run through the nodes of order and back to the sentinel. */
  ghost predicate Linked(next: seq<nat>, prev: seq<nat>, order: seq<nat>) {
    && |next| == NBUF + 1 && |prev| == NBUF + 1 && InRange(order)
    && forall i :: 0 <= i <= |order| ==>
         next[Node(order, i)] == Node(order, i + 1) && prev[Node(order, i + 1)] == Node(order, i)
  }

  /** order with its element k moved to the front. */
  function MovedToFront(order: seq<nat>, k: nat): (r: seq<nat>)
    requires k < |order|
    ensures |r| == |order| && r[0] == order[k]
    ensures forall i :: 0 <= i < |r| ==>
              r[i] == if i == 0 then order[k] else if i <= k then order[i - 1] else order[i]
  {
    [order[k]] + order[..k] + order[k + 1..]
  }

  function Without(order: seq<nat>, k: nat): (r: seq<nat>)
    requires k < |order|
    ensures |r| == |order| - 1
    ensures forall i :: 0 <= i < |r| ==> r[i] == if i < k then order[i] else order[i + 1]
  {
    order[..k] + order[k + 1..]
  }

  lemma DistinctWithout(order: seq<nat>, k: nat)
    requires k < |order| && Distinct(order)
    ensures Distinct(Without(order, k)) && order[k] !in Without(order, k)
  {
  }

  lemma DistinctMoved(order: seq<nat>, k: nat)
    requires k < |order| && Distinct(order)
    ensures Distinct(MovedToFront(order, k))
    ensures MovedToFront(order, k) == [order[k]] + Without(order, k)
  {
    var r := MovedToFront(order, k);
    forall i, j | 0 <= i < j < |r| ensures r[i] != r[j] {
    }
  }

  /** Two assignments take node k out of the circle. */
  lemma Unlink(next: seq<nat>, prev: seq<nat>, order: seq<nat>, k: nat)
    requires Linked(next, prev, order) && Distinct(order) && k < |order|
    ensures var b := order[k];
            && prev[b] <= NBUF && next[b] <= NBUF
            && Linked(next[prev[b] := next[b]], prev[next[b] := prev[b]], Without(order, k))
  {
    var b, w := order[k], Without(order, k);
    assert Node(order, k + 1) == b;
    assert prev[b] == Node(order, k) && next[b] == Node(order, k + 2);
    var next', prev' := next[prev[b] := next[b]], prev[next[b] := prev[b]];
    forall i | 0 <= i <= |w| ensures next'[Node(w, i)] == Node(w, i + 1) && prev'[Node(w, i + 1)] == Node(w, i) {
      if i < k {
        assert Node(w, i) == Node(order, i) && Node(w, i + 1) == Node(order, i + 1);
      } else if i == k {
        assert Node(w, i) == Node(order, i) && Node(w, i + 1) == Node(order, i + 2);
      } else {
        assert Node(w, i) == Node(order, i + 1) && Node(w, i + 1) == Node(order, i + 2);
      }
    }
  }

  /** Four assignments put node b behind the sentinel. */
  lemma LinkFirst(next: seq<nat>, prev: seq<nat>, order: seq<nat>, b: nat)
    requires Linked(next, prev, order) && Distinct(order) && b < NBUF && b !in order
    ensures next[HEAD] <= NBUF
    ensures Linked(next[b := next[HEAD]][HEAD := b], prev[b := HEAD][next[HEAD] := b], [b] + order)
  {
    var f := next[HEAD];
    assert Node(order, 0) == HEAD && f == Node(order, 1);
    var next', prev', r := next[b := f][HEAD := b], prev[b := HEAD][f := b], [b] + order;
    forall i | 0 <= i <= |r| ensures next'[Node(r, i)] == Node(r, i + 1) && prev'[Node(r, i + 1)] == Node(r, i) {
      if i > 1 {
        assert Node(r, i) == Node(order, i - 1) && Node(r, i + 1) == Node(order, i);
      } else if i == 1 {
        assert Node(r, 1) == b && Node(r, 2) == Node(order, 1) == f;
      }
    }
  }

  // ----- what the cache stands for -----

  /** No block of a real device has two buffers.  Device 0 is the key of buffers never used. */
  ghost predicate Unique(bufs: seq<Buf>) {
    forall i, j :: 0 <= i < j < |bufs| && bufs[i].dev != 0 ==> KeyOf(bufs[i]) != KeyOf(bufs[j])
  }

  /** A buffer that nobody refers to holds nothing that the disk does not. */
  ghost predicate Clean(bufs: seq<Buf>, disk: map<Key, Block>) {
    forall i :: 0 <= i < |bufs| && bufs[i].refcnt == 0 && bufs[i].valid && KeyOf(bufs[i]) in disk
      ==> bufs[i].data == disk[KeyOf(bufs[i])]
  }

  /** The contents of block k as seen through the cache. */
  function View(bufs: seq<Buf>, disk: map<Key, Block>, k: Key): (v: Block)
    requires k in disk
  {
    if bufs == [] then disk[k]
    else if KeyOf(bufs[|bufs| - 1]) == k && bufs[|bufs| - 1].valid then bufs[|bufs| - 1].data
    else View(bufs[..|bufs| - 1], disk, k)
  }

  lemma {:induction false} ViewOfCached(bufs: seq<Buf>, disk: map<Key, Block>, b: nat)
    requires b < |bufs| && Unique(bufs) && bufs[b].dev != 0 && bufs[b].valid && KeyOf(bufs[b]) in disk
    ensures View(bufs, disk, KeyOf(bufs[b])) == bufs[b].data
  {
    if b < |bufs| - 1 {
      ViewOfCached(bufs[..|bufs| - 1], disk, b);
    }
  }

  lemma {:induction false} ViewOfUncached(bufs: seq<Buf>, disk: map<Key, Block>, k: Key)
    requires k in disk && forall i :: 0 <= i < |bufs| && bufs[i].valid ==> KeyOf(bufs[i]) != k
    ensures View(bufs, disk, k) == disk[k]
  {
    if bufs != [] {
      ViewOfUncached(bufs[..|bufs| - 1], disk, k);
    }
  }

  /** Changing buffer b is seen at most through the keys it has before and after. */
  lemma {:induction false} ViewElsewhere(bufs: seq<Buf>, disk: map<Key, Block>, b: nat, e: Buf, k: Key)
    requires b < |bufs| && k in disk && KeyOf(bufs[b]) != k && KeyOf(e) != k
    ensures View(bufs[b := e], disk, k) == View(bufs, disk, k)
  {
    if b < |bufs| - 1 {
      assert bufs[b := e][..|bufs| - 1] == bufs[..|bufs| - 1][b := e];
      ViewElsewhere(bufs[..|bufs| - 1], disk, b, e, k);
    } else {
      assert bufs[b := e][..|bufs| - 1] == bufs[..|bufs| - 1];
    }
  }

  lemma {:induction false} ViewOtherDisk(bufs: seq<Buf>, disk: map<Key, Block>, k: Key, k': Key, v: Block)
    requires k in disk && k' in disk && k != k'
    ensures View(bufs, disk[k' := v], k) == View(bufs, disk, k)
  {
    if bufs != [] {
      ViewOtherDisk(bufs[..|bufs| - 1], disk, k, k', v);
    }
  }

  /** The same blocks are seen before and after. */
  ghost predicate SameView(bufs: seq<Buf>, disk: map<Key, Block>, bufs': seq<Buf>, disk': map<Key, Block>) {
    && disk'.Keys == disk.Keys
    && forall k :: k in disk && k.0 != 0 ==> View(bufs', disk', k) == View(bufs, disk, k)
  }

  /** A buffer keeps its key and, while valid, its data. */
  lemma CountKeepsView(bufs: seq<Buf>, disk: map<Key, Block>, b: nat, e: Buf)
    requires b < |bufs| && Unique(bufs) && KeyOf(e) == KeyOf(bufs[b])
    requires e.valid == bufs[b].valid && e.data == bufs[b].data
    ensures Unique(bufs[b := e]) && SameView(bufs, disk, bufs[b := e], disk)
  {
    forall k | k in disk && k.0 != 0 ensures View(bufs[b := e], disk, k) == View(bufs, disk, k) {
      if k != KeyOf(e) {
        ViewElsewhere(bufs, disk, b, e, k);
      } else if e.valid {
        ViewOfCached(bufs, disk, b);
        ViewOfCached(bufs[b := e], disk, b);
      } else {
        ViewOfUncached(bufs, disk, k);
        ViewOfUncached(bufs[b := e], disk, k);
      }
    }
  }

  /** Giving an unreferenced buffer to another block loses nothing. */
  lemma RecycleKeepsView(bufs: seq<Buf>, disk: map<Key, Block>, b: nat, e: Buf)
    requires b < |bufs| && Unique(bufs) && Clean(bufs, disk) && bufs[b].refcnt == 0
    requires !e.valid && e.dev != 0 && forall i :: 0 <= i < |bufs| ==> KeyOf(bufs[i]) != KeyOf(e)
    ensures Unique(bufs[b := e]) && SameView(bufs, disk, bufs[b := e], disk)
  {
    forall k | k in disk && k.0 != 0 ensures View(bufs[b := e], disk, k) == View(bufs, disk, k) {
      if k == KeyOf(e) {
        ViewOfUncached(bufs, disk, k);
        ViewOfUncached(bufs[b := e], disk, k);
      } else if k == KeyOf(bufs[b]) {
        ViewOfUncached(bufs[b := e], disk, k);
        if bufs[b].valid {
          ViewOfCached(bufs, disk, b);
        } else {
          ViewOfUncached(bufs, disk, k);
        }
      } else {
        ViewElsewhere(bufs, disk, b, e, k);
      }
    }
  }

  /** Filling an invalid buffer from the disk shows nothing new. */
  lemma FillKeepsView(bufs: seq<Buf>, disk: map<Key, Block>, b: nat)
    requires b < |bufs| && Unique(bufs) && bufs[b].dev != 0 && !bufs[b].valid && KeyOf(bufs[b]) in disk
    ensures var e := bufs[b].(valid := true, data := disk[KeyOf(bufs[b])]);
            && Unique(bufs[b := e]) && SameView(bufs, disk, bufs[b := e], disk)
            && e.data == View(bufs, disk, KeyOf(e))
  {
    var e := bufs[b].(valid := true, data := disk[KeyOf(bufs[b])]);
    ViewOfUncached(bufs, disk, KeyOf(e));
    ViewOfCached(bufs[b := e], disk, b);
    forall k | k in disk && k.0 != 0 ensures View(bufs[b := e], disk, k) == View(bufs, disk, k) {
      if k != KeyOf(e) {
        ViewElsewhere(bufs, disk, b, e, k);
      }
    }
  }

  // ----- the cache -----

  class Cache {
    const bufs: array<Buf>
    const next: array<nat>
    const prev: array<nat>
    var disk: map<Key, Block>
    ghost var order: seq<nat>    // from head.next to head.prev
    ghost var stamp: seq<nat>    // when each buffer was last moved to the front
    ghost var clock: nat

    ghost predicate Arrays()
      reads this
    {
      bufs.Length == NBUF && next.Length == NBUF + 1 && prev.Length == NBUF + 1 && next != prev
    }

    /** The list is a circle through all buffers, most recently moved first. */
    ghost predicate Listed()
      reads this, next, prev
      requires Arrays()
    {
      && |order| == NBUF && Distinct(order) && Linked(next[..], prev[..], order)
      && (forall b :: 0 <= b < NBUF ==> b in order)
      && |stamp| == NBUF && (forall b :: 0 <= b < NBUF ==> stamp[b] < clock)
      && (forall i, j :: 0 <= i < j < NBUF ==> stamp[order[i]] > stamp[order[j]])
    }

    ghost predicate Valid()
      reads this, bufs, next, prev
    {
      Arrays() && Listed() && Unique(bufs[..]) && Clean(bufs[..], disk)
    }

    /** What a reader of block k sees. */
    ghost function Contents(k: Key): Block
      reads this, bufs
      requires k in disk
    {
      View(bufs[..], disk, k)
    }

    /** binit: every buffer is put behind the sentinel in turn. */
    constructor (disk: map<Key, Block>)
      ensures Valid() && fresh(bufs) && fresh(next) && fresh(prev) && this.disk == disk
      ensures forall k :: k in disk && k.0 != 0 ==> Contents(k) == disk[k]
      ensures forall b :: 0 <= b < NBUF ==> bufs[b].refcnt == 0
    {
      bufs := new Buf[NBUF](_ => Buf(0, 0, false, 0, []));
      next := new nat[NBUF + 1](_ => HEAD);
      prev := new nat[NBUF + 1](_ => HEAD);
      this.disk := disk;
      order, clock, stamp := [], NBUF, seq(NBUF, i => i);
      new;
      LinkAll();
      forall k | k in disk && k.0 != 0 ensures View(bufs[..], disk, k) == disk[k] {
        ViewOfUncached(bufs[..], disk, k);
      }
    }

    /** The loop of binit. */
    method LinkAll()
      requires Arrays() && Linked(next[..], prev[..], []) && order == []
      modifies next, prev, this`order
      ensures Linked(next[..], prev[..], order) && |order| == NBUF && Distinct(order)
      ensures forall i :: 0 <= i < NBUF ==> order[i] == NBUF - 1 - i
      ensures forall c :: 0 <= c < NBUF ==> c in order
    {
      var b := 0;
      while b < NBUF
        invariant 0 <= b <= NBUF && Arrays() && Linked(next[..], prev[..], order)
        invariant |order| == b && forall i :: 0 <= i < b ==> order[i] == b - 1 - i
      {
        LinkFirst(next[..], prev[..], order, b);
        var first := next[HEAD];
        next[b] := first;
        prev[b] := HEAD;
        prev[first] := b;
        next[HEAD] := b;
        order := [b] + order;
        b := b + 1;
      }
      forall c | 0 <= c < NBUF ensures c in order {
        assert order[NBUF - 1 - c] == c;
      }
    }

    /** The first loop of bget: the buffer of block k, or HEAD. */
    method Lookup(k: Key) returns (b: nat)
      requires Valid()
      ensures b < NBUF ==> KeyOf(bufs[b]) == k
      ensures b >= NBUF ==> b == HEAD && forall c :: 0 <= c < NBUF ==> KeyOf(bufs[c]) != k
    {
      assert Node(order, 0) == HEAD;
      b := next[HEAD];
      ghost var i := 1;
      while b != HEAD
        invariant 1 <= i <= NBUF + 1 && b == Node(order, i)
        invariant forall j :: 1 <= j < i ==> KeyOf(bufs[Node(order, j)]) != k
        decreases NBUF + 1 - i
      {
        if KeyOf(bufs[b]) == k {
          return;
        }
        b := next[b];
        i := i + 1;
      }
      forall c | 0 <= c < NBUF ensures KeyOf(bufs[c]) != k {
        assert c in order;
        var j :| 0 <= j < |order| && order[j] == c;
        assert Node(order, j + 1) == c;
      }
    }

    /** The second loop of bget: the unreferenced buffer that was moved to the front least recently,
        or HEAD. */
    method LeastRecent() returns (b: nat)
      requires Valid()
      ensures b < NBUF ==>
                bufs[b].refcnt == 0 && forall c :: 0 <= c < NBUF && bufs[c].refcnt == 0 ==> stamp[b] <= stamp[c]
      ensures b >= NBUF ==> b == HEAD && forall c :: 0 <= c < NBUF ==> bufs[c].refcnt > 0
    {
      assert Node(order, NBUF + 1) == HEAD;
      b := prev[HEAD];
      ghost var i := NBUF;
      while b != HEAD
        invariant 0 <= i <= NBUF && b == Node(order, i)
        invariant forall j :: i < j <= NBUF ==> bufs[Node(order, j)].refcnt > 0
        decreases i
      {
        if bufs[b].refcnt == 0 {
          forall c | 0 <= c < NBUF && bufs[c].refcnt == 0 ensures stamp[b] <= stamp[c] {
            assert c in order;
            var j :| 0 <= j < |order| && order[j] == c;
            assert Node(order, j + 1) == c;
          }
          return;
        }
        b := prev[b];
        i := i - 1;
      }
      forall c | 0 <= c < NBUF ensures bufs[c].refcnt > 0 {
        assert c in order;
        var j :| 0 <= j < |order| && order[j] == c;
        assert Node(order, j + 1) == c;
      }
    }

    /** bget: the buffer of the block with one more reference, or the least recently moved
        unreferenced buffer recycled; HEAD where the code panics. */
    method Bget(dev: nat, blockno: nat) returns (b: nat)
      requires Valid() && dev != 0
      modifies bufs
      ensures Valid() && SameView(old(bufs[..]), disk, bufs[..], disk)
      ensures b >= NBUF <==> forall c :: 0 <= c < NBUF ==>
              old(KeyOf(bufs[c])) != (dev, blockno) && old(bufs[c].refcnt) > 0
      ensures b >= NBUF ==> b == HEAD && bufs[..] == old(bufs[..])
      ensures b < NBUF ==>
                var e := old(bufs[b]);
                if KeyOf(e) == (dev, blockno) then
                  bufs[..] == old(bufs[..])[b := e.(refcnt := e.refcnt + 1)]
                else
                  && bufs[..] == old(bufs[..])[b := e.(dev := dev, blockno := blockno, valid := false, refcnt := 1)]
                  && e.refcnt == 0
                  && (forall c :: 0 <= c < NBUF ==> old(KeyOf(bufs[c])) != (dev, blockno))
                  && (forall c :: 0 <= c < NBUF && old(bufs[c].refcnt) == 0 ==> stamp[b] <= stamp[c])
    {
      b := Lookup((dev, blockno));
      if b != HEAD {
        CountKeepsView(bufs[..], disk, b, bufs[b].(refcnt := bufs[b].refcnt + 1));
        bufs[b] := bufs[b].(refcnt := bufs[b].refcnt + 1);
        return;
      }
      b := LeastRecent();
      if b != HEAD {
        RecycleKeepsView(bufs[..], disk, b, bufs[b].(dev := dev, blockno := blockno, valid := false, refcnt := 1));
        bufs[b] := bufs[b].(dev := dev, blockno := blockno, valid := false, refcnt := 1);
      }
    }

    /** bread: a buffer with the contents that an uncached disk would hold. */
    method Bread(dev: nat, blockno: nat) returns (b: nat)
      requires Valid() && dev != 0 && (dev, blockno) in disk
      modifies bufs
      ensures Valid() && SameView(old(bufs[..]), disk, bufs[..], disk)
      ensures b >= NBUF <==> forall c :: 0 <= c < NBUF ==>
              old(KeyOf(bufs[c])) != (dev, blockno) && old(bufs[c].refcnt) > 0
      ensures b < NBUF ==>
                && KeyOf(bufs[b]) == (dev, blockno) && bufs[b].valid && bufs[b].refcnt >= 1
                && bufs[b].data == old(Contents((dev, blockno)))
    {
      b := Bget(dev, blockno);
      if b != HEAD {
        if !bufs[b].valid {
          FillKeepsView(bufs[..], disk, b);
          bufs[b] := bufs[b].(valid := true, data := disk[(dev, blockno)]);
        } else {
          ViewOfCached(bufs[..], disk, b);
        }
      }
    }

    /** The holder of a buffer changes its data. */
    method Modify(b: nat, v: Block)
      requires Valid() && b < NBUF && bufs[b].dev != 0 && bufs[b].valid && bufs[b].refcnt > 0 && KeyOf(bufs[b]) in disk
      modifies bufs
      ensures Valid() && bufs[..] == old(bufs[..])[b := old(bufs[b]).(data := v)]
      ensures forall k :: k in disk && k.0 != 0 ==>
                Contents(k) == if k == KeyOf(bufs[b]) then v else old(Contents(k))
    {
      ghost var was := bufs[..];
      bufs[b] := bufs[b].(data := v);
      assert bufs[..] == was[b := was[b].(data := v)];
      ViewOfCached(bufs[..], disk, b);
      forall k | k in disk && k.0 != 0 && k != KeyOf(bufs[b]) ensures Contents(k) == View(was, disk, k) {
        ViewElsewhere(was, disk, b, was[b].(data := v), k);
      }
    }

    /** bwrite: the disk catches up with the buffer; readers see no difference. */
    method Bwrite(b: nat)
      requires Valid() && b < NBUF && bufs[b].dev != 0 && bufs[b].valid && KeyOf(bufs[b]) in disk
      modifies this`disk
      ensures Valid() && disk == old(disk)[KeyOf(bufs[b]) := bufs[b].data]
      ensures SameView(bufs[..], old(disk), bufs[..], disk)
    {
      ghost var was := disk;
      disk := disk[KeyOf(bufs[b]) := bufs[b].data];
      ViewOfCached(bufs[..], was, b);
      ViewOfCached(bufs[..], disk, b);
      forall k | k in disk && k.0 != 0 ensures View(bufs[..], disk, k) == View(bufs[..], was, k) {
        if k != KeyOf(bufs[b]) {
          ViewOtherDisk(bufs[..], was, k, KeyOf(bufs[b]), bufs[b].data);
        }
      }
    }

    /** One reference less; a buffer that becomes unreferenced must be clean. */
    method DropRef(b: nat)
      requires Valid() && b < NBUF && bufs[b].refcnt > 0
      requires bufs[b].refcnt == 1 && bufs[b].valid && KeyOf(bufs[b]) in disk ==> bufs[b].data == disk[KeyOf(bufs[b])]
      modifies bufs
      ensures Valid() && bufs[..] == old(bufs[..])[b := old(bufs[b]).(refcnt := old(bufs[b]).refcnt - 1)]
      ensures SameView(old(bufs[..]), disk, bufs[..], disk)
    {
      CountKeepsView(bufs[..], disk, b, bufs[b].(refcnt := bufs[b].refcnt - 1));
      bufs[b] := bufs[b].(refcnt := bufs[b].refcnt - 1);
    }

    /** brelse's six assignments. */
    method Relink(b: nat, ghost k: nat)
      requires Arrays() && |order| == NBUF && Distinct(order) && Linked(next[..], prev[..], order) && k < NBUF
               && order[k] == b
      modifies next, prev
      ensures Linked(next[..], prev[..], MovedToFront(order, k))
    {
      DistinctMoved(order, k);
      Unlink(next[..], prev[..], order, k);
      DistinctWithout(order, k);
      var n, p := next[b], prev[b];
      prev[n] := p;
      next[p] := n;
      LinkFirst(next[..], prev[..], Without(order, k), b);
      var first := next[HEAD];
      next[b] := first;
      prev[b] := HEAD;
      prev[first] := b;
      next[HEAD] := b;
    }

    /** Buffer b moves behind the sentinel. */
    method MoveToFront(b: nat, ghost k: nat)
      requires Valid() && k < NBUF && order[k] == b
      modifies next, prev, this`order, this`stamp, this`clock
      ensures Valid() && order == MovedToFront(old(order), k)
      ensures clock == old(clock) + 1 && stamp == old(stamp)[b := old(clock)]
    {
      ghost var was := order;
      Relink(b, k);
      DistinctMoved(order, k);
      order, stamp, clock := MovedToFront(order, k), stamp[b := clock], clock + 1;
      forall c | 0 <= c < NBUF ensures c in order {
        MovedCovers(was, k, c);
      }
    }

    /** brelse: one reference less, and a buffer nobody refers to becomes the most recently moved. */
    method Brelse(b: nat)
      requires Valid() && b < NBUF && bufs[b].refcnt > 0
      requires bufs[b].refcnt == 1 && bufs[b].valid && KeyOf(bufs[b]) in disk ==> bufs[b].data == disk[KeyOf(bufs[b])]
      modifies bufs, next, prev, this`order, this`stamp, this`clock
      ensures Valid() && bufs[..] == old(bufs[..])[b := old(bufs[b]).(refcnt := old(bufs[b]).refcnt - 1)]
      ensures SameView(old(bufs[..]), disk, bufs[..], disk)
      ensures if bufs[b].refcnt > 0 then order == old(order) && stamp == old(stamp)
              else order[0] == b && stamp == old(stamp)[b := old(clock)]
    {
      DropRef(b);
      if bufs[b].refcnt == 0 {
        assert b in order;
        ghost var k :| 0 <= k < |order| && order[k] == b;
        MoveToFront(b, k);
      }
    }

    /** bpin. */
    method Bpin(b: nat)
      requires Valid() && b < NBUF
      modifies bufs
      ensures Valid() && bufs[..] == old(bufs[..])[b := old(bufs[b]).(refcnt := old(bufs[b]).refcnt + 1)]
      ensures SameView(old(bufs[..]), disk, bufs[..], disk)
    {
      CountKeepsView(bufs[..], disk, b, bufs[b].(refcnt := bufs[b].refcnt + 1));
      bufs[b] := bufs[b].(refcnt := bufs[b].refcnt + 1);
    }
  }

  lemma MovedCovers(order: seq<nat>, k: nat, c: nat)
    requires k < |order| && c in order
    ensures c in MovedToFront(order, k)
  {
    var i :| 0 <= i < |order| && order[i] == c;
    var r := MovedToFront(order, k);
    assert r[if i == k then 0 else if i < k then i + 1 else i] == c;
  }
}
