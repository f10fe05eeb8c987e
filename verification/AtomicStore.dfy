/**
 The specification of the logging layer: a store of blocks with group commit.

 Every block has a durable value, which survives a crash, and a current value, which the
 operations in progress read and write.  A commit makes the current values durable, and it may
 happen only while no operation is in progress, so an operation is never half durable.
 */
module AtomicStore {

  type Pid = nat
  type Block = seq<nat>

  datatype Store = Store(durable: seq<Block>, current: seq<Block>, open: set<Pid>)

  datatype Event =
    | Silent
    | Begin(p: Pid)
    | Write(p: Pid, b: nat, v: Block)
    | End(p: Pid)
    | GroupCommit
    | Crash

  /** The moves of the store. */
  ghost predicate Moves(t: Store, e: Event, t': Store) {
    match e
    case Silent => t' == t
    case Begin(p) => p !in t.open && t' == t.(open := t.open + {p})
    case Write(p, b, v) => p in t.open && b < |t.current| && t' == t.(current := t.current[b := v])
    case End(p) => p in t.open && t' == t.(open := t.open - {p})
    case GroupCommit => t.open == {} && t' == t.(durable := t.current)
    case Crash => t' == t.(current := t.durable, open := {})
  }

  /** A history of the store: states.[i] moves by events[i] to states[i + 1]. */
  ghost predicate History(states: seq<Store>, events: seq<Event>) {
    && |states| == |events| + 1
    && forall i {:trigger events[i]} :: 0 <= i < |events| ==> Moves(states[i], events[i], states[i + 1])
  }

  /** The index just after the last commit among the first n events, or 0 if there was none. */
  function LastCommit(events: seq<Event>, n: nat): (k: nat)
    requires n <= |events|
    ensures k <= n
    ensures k > 0 ==> events[k - 1] == GroupCommit
    ensures forall i :: k <= i < n ==> events[i] != GroupCommit
  {
    if n == 0 then 0
    else if events[n - 1] == GroupCommit then n
    else LastCommit(events, n - 1)
  }

  /** The effect of one event on the current blocks, when no commit is involved. */
  ghost function After(current: seq<Block>, durable: seq<Block>, e: Event): seq<Block> {
    match e
    case Write(_, b, v) => if b < |current| then current[b := v] else current
    case Crash => durable
    case _ => current
  }

  /** A stretch of events replayed over a sequence of blocks; a crash goes back to the durable ones. */
  ghost function Replayed(start: seq<Block>, durable: seq<Block>, events: seq<Event>): (r: seq<Block>) {
    if events == [] then start
    else After(Replayed(start, durable, events[..|events| - 1]), durable, events[|events| - 1])
  }

  /** What is durable is exactly what was current at the last commit; no operation was in progress
      then, and nothing that happened since can have reached the durable blocks. */
  lemma {:induction false} DurableIsLastCommit(states: seq<Store>, events: seq<Event>, n: nat)
    requires History(states, events) && n <= |events|
    ensures var k := LastCommit(events, n);
            && states[n].durable == states[k].durable
            && (k > 0 ==> states[n].durable == states[k - 1].current && states[k - 1].open == {})
  {
    if n > 0 {
      assert Moves(states[n - 1], events[n - 1], states[n]);
      if events[n - 1] != GroupCommit {
        DurableIsLastCommit(states, events, n - 1);
      }
    }
  }

  lemma LastOfStretch(events: seq<Event>, k: nat, n: nat)
    requires k < n <= |events|
    ensures events[k..n][..n - k - 1] == events[k..n - 1] && events[k..n][n - k - 1] == events[n - 1]
  {
  }

  /** What is current is the durable state with exactly the writes replayed that came after the
      last commit and after the last crash. */
  lemma {:induction false} CurrentIsDurablePlusWrites(states: seq<Store>, events: seq<Event>, n: nat)
    requires History(states, events) && n <= |events|
    requires states[0].current == states[0].durable
    ensures var k := LastCommit(events, n);
            states[n].current == Replayed(states[n].durable, states[n].durable, events[k..n])
  {
    if n > 0 {
      assert Moves(states[n - 1], events[n - 1], states[n]);
      if events[n - 1] != GroupCommit {
        CurrentIsDurablePlusWrites(states, events, n - 1);
        var k := LastCommit(events, n - 1);
        LastOfStretch(events, k, n);
        assert states[n].current == After(states[n - 1].current, states[n].durable, events[n - 1]);
      }
    }
  }
}
