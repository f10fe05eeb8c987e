/**
 One round of the scheduler on one CPU.

 The process table is what the scheduler sees when it holds the lock of a process: `seen[t]` is the table
 at its t-th look, and may change in any way between looks, by the processes it runs and by other CPUs.
 */
module Scheduler {

  /** setnice sets the priority to 3 - nice, which is from 0 to 3. */
  datatype Proc = Proc(runnable: bool, priority: int)

  type Looks = m: imap<nat, seq<Proc>> | forall t: nat :: t in m ghost witness imap t: nat | true :: []

  ghost predicate Table(seen: Looks, n: nat) {
    forall t: nat :: |seen[t]| == n
  }

  /** A look at process p finds it runnable at the target priority. */
  predicate Chosen(seen: Looks, t: nat, p: nat, target: int) {
    p < |seen[t]| && seen[t][p].runnable && seen[t][p].priority >= target
  }

  /** The first loop: the highest priority among runnable processes, or 0. */
  method MaxPriority(seen: Looks, n: nat) returns (maxprio: int)
    requires Table(seen, n)
    ensures maxprio >= 0 && forall p :: 0 <= p < n && seen[p][p].runnable ==> seen[p][p].priority <= maxprio
    ensures maxprio == 0 || exists p :: 0 <= p < n && seen[p][p].runnable && seen[p][p].priority == maxprio
  {
    maxprio := 0;
    var p := 0;
    while p < n
      invariant 0 <= p <= n && maxprio >= 0
      invariant forall q :: 0 <= q < p && seen[q][q].runnable ==> seen[q][q].priority <= maxprio
      invariant maxprio == 0 || exists q :: 0 <= q < p && seen[q][q].runnable && seen[q][q].priority == maxprio
    {
      if seen[p][p].runnable && seen[p][p].priority > maxprio {
        maxprio := seen[p][p].priority;
      }
      p := p + 1;
    }
  }

  /** The processes among the first k that a pass which starts at look t runs, in order. */
  function PassLog(seen: Looks, t: nat, k: nat, target: int): seq<nat>
  {
    if k == 0 then []
    else PassLog(seen, t, k - 1, target) + if Chosen(seen, t + (k - 1), k - 1, target) then [k - 1] else []
  }

  /** The log of a pass over the first k processes: in the order of the table, none left out and none added. */
  ghost predicate PassOk(seen: Looks, t: nat, k: nat, target: int, log: seq<nat>) {
    && (forall i :: 0 <= i < |log| ==> log[i] < k && Chosen(seen, t + log[i], log[i], target))
    && (forall i, j :: 0 <= i < j < |log| ==> log[i] < log[j])
    && (forall p: nat :: p < k && Chosen(seen, t + p, p, target) ==> p in log)
  }

  lemma {:induction false} PassLogOk(seen: Looks, t: nat, k: nat, target: int)
    ensures PassOk(seen, t, k, target, PassLog(seen, t, k, target))
  {
    if k > 0 {
      PassLogOk(seen, t, k - 1, target);
      var before := PassLog(seen, t, k - 1, target);
      forall p: nat | p < k && Chosen(seen, t + p, p, target) ensures p in PassLog(seen, t, k, target) {
        if p == k - 1 {
          assert (before + [p])[|before|] == p;
        } else {
          assert p in before;
        }
      }
    }
  }

  /** The inner loop: one pass over the table. */
  method Pass(seen: Looks, n: nat, t: nat, target: int) returns (log: seq<nat>)
    requires Table(seen, n)
    ensures log == PassLog(seen, t, n, target) && PassOk(seen, t, n, target, log)
  {
    log := [];
    var p := 0;
    while p < n
      invariant 0 <= p <= n && log == PassLog(seen, t, p, target)
    {
      if seen[t + p][p].runnable && seen[t + p][p].priority >= target {
        log := log + [p];
      }
      p := p + 1;
    }
    PassLogOk(seen, t, n, target);
  }

  /** The passes of a round down from target, of which the first starts at look t. */
  function RoundLog(seen: Looks, n: nat, t: nat, target: int): seq<nat>
    decreases target + 1
  {
    if target < 0 then [] else PassLog(seen, t, n, target) + RoundLog(seen, n, t + n, target - 1)
  }

  // ----- the order of a round -----

  /** The look at process p in pass j of a round; the first loop takes looks 0 to n - 1. */
  function LookAt(n: nat, j: nat, p: nat): nat { if j == 0 then n + p else LookAt(n, j - 1, p) + n }

  /** Dispatch i is of process log[i], which pass turn[i] found runnable with a sufficient priority. */
  ghost predicate Rightly(seen: Looks, n: nat, maxprio: int, log: seq<nat>, turn: seq<nat>) {
    && |turn| == |log|
    && forall i :: 0 <= i < |log| ==>
         && turn[i] <= maxprio && log[i] < n
         && Chosen(seen, LookAt(n, turn[i], log[i]), log[i], maxprio - turn[i])
  }

  /** The dispatches are in the order of their looks. */
  ghost predicate InOrder(n: nat, log: seq<nat>, turn: seq<nat>) {
    && |turn| == |log|
    && forall i, k :: 0 <= i < k < |log| ==> LookAt(n, turn[i], log[i]) < LookAt(n, turn[k], log[k])
  }

  /** A process that pass j finds runnable with a sufficient priority is dispatched in that pass. */
  ghost predicate Serves(seen: Looks, n: nat, maxprio: int, log: seq<nat>, turn: seq<nat>, j: nat, p: nat) {
    Chosen(seen, LookAt(n, j, p), p, maxprio - j) ==>
      |turn| == |log| && exists i :: 0 <= i < |log| && log[i] == p && turn[i] == j
  }

  /** A log with the pass of each dispatch. */
  datatype Work = Work(log: seq<nat>, turn: seq<nat>)

  /** Names a record of work; Dispatched is looked into only where it is mentioned. */
  predicate Open(k: int, w: Work) { true }

  /** What the first m passes of a round dispatch. */
  ghost predicate Dispatched(seen: Looks, n: nat, maxprio: int, m: nat, w: Work) {
    match w
    case Work(_, _) =>
      forall k: int {:trigger Open(k, w)} :: 0 <= k ==> DispatchedAt(seen, n, maxprio, m, w.log, w.turn)
  }

  ghost predicate DispatchedAt(seen: Looks, n: nat, maxprio: int, m: nat, log: seq<nat>, turn: seq<nat>) {
    && Rightly(seen, n, maxprio, log, turn) && InOrder(n, log, turn)
    && (forall i :: 0 <= i < |turn| ==> turn[i] < m)
    && forall j: nat, p: nat :: j < m && p < n ==> Serves(seen, n, maxprio, log, turn, j, p)
  }

  lemma {:induction false} LookFrom(n: nat, j: nat, p: nat)
    ensures LookAt(n, j, p) == LookAt(n, j, 0) + p
  {
    if j > 0 {
      LookFrom(n, j - 1, p);
    }
  }

  /** Pass after pass, and in each the table from its beginning. */
  lemma {:induction false} LookOrder(n: nat, j: nat, p: nat, j': nat, p': nat)
    requires p < n && (j < j' || (j == j' && p < p'))
    ensures LookAt(n, j, p) < LookAt(n, j', p')
  {
    if j > 0 {
      LookOrder(n, j - 1, p, j' - 1, p');
    } else if j' > 1 {
      LookOrder(n, 0, p, j' - 1, p');
    }
  }

  lemma OrderAppended(n: nat, m: nat, log: seq<nat>, turn: seq<nat>, pass: seq<nat>, now: seq<nat>)
    requires InOrder(n, log, turn) && (forall i :: 0 <= i < |log| ==> turn[i] < m && log[i] < n)
    requires (forall i :: 0 <= i < |pass| ==> pass[i] < n) && (forall i, j :: 0 <= i < j < |pass| ==> pass[i] < pass[j])
    requires now == seq(|pass|, _ => m)
    ensures InOrder(n, log + pass, turn + now)
  {
    var log', turn' := log + pass, turn + now;
    forall i, k | 0 <= i < k < |log'|
      ensures LookAt(n, turn'[i], log'[i]) < LookAt(n, turn'[k], log'[k])
    {
      if k >= |log| {
        LookOrder(n, turn'[i], log'[i], turn'[k], log'[k]);
      } else {
        assert turn'[i] == turn[i] && turn'[k] == turn[k] && log'[i] == log[i] && log'[k] == log[k];
      }
    }
  }

  lemma RightlyAppended(seen: Looks, n: nat, maxprio: int, m: nat, log: seq<nat>, turn: seq<nat>, pass: seq<nat>,
                        now: seq<nat>)
    requires Rightly(seen, n, maxprio, log, turn) && m <= maxprio && now == seq(|pass|, _ => m)
    requires PassOk(seen, LookAt(n, m, 0), n, maxprio - m, pass)
    ensures Rightly(seen, n, maxprio, log + pass, turn + now)
  {
    forall i | 0 <= i < |pass| ensures Chosen(seen, LookAt(n, m, pass[i]), pass[i], maxprio - m) {
      LookFrom(n, m, pass[i]);
    }
  }

  lemma ServesMore(seen: Looks, n: nat, maxprio: int, m: nat, log: seq<nat>, turn: seq<nat>, pass: seq<nat>,
                   now: seq<nat>, j: nat, p: nat)
    requires |turn| == |log| && now == seq(|pass|, _ => m) && p < n && j <= m
    requires j < m ==> Serves(seen, n, maxprio, log, turn, j, p)
    requires PassOk(seen, LookAt(n, m, 0), n, maxprio - m, pass)
    ensures Serves(seen, n, maxprio, log + pass, turn + now, j, p)
  {
    if Chosen(seen, LookAt(n, j, p), p, maxprio - j) {
      var i: nat;
      if j < m {
        i :| i < |log| && log[i] == p && turn[i] == j;
      } else {
        LookFrom(n, m, p);
        assert p in pass;
        var k: nat :| k < |pass| && pass[k] == p;
        i := |log| + k;
      }
      assert (log + pass)[i] == p && (turn + now)[i] == j;
    }
  }

  lemma NoneYet(seen: Looks, n: nat, maxprio: int)
    ensures Dispatched(seen, n, maxprio, 0, Work([], []))
  {
    assert DispatchedAt(seen, n, maxprio, 0, [], []);
  }

  lemma PassAppended(seen: Looks, n: nat, maxprio: int, m: nat, log: seq<nat>, turn: seq<nat>, pass: seq<nat>,
                     now: seq<nat>)
    requires Dispatched(seen, n, maxprio, m, Work(log, turn)) && m <= maxprio && now == seq(|pass|, _ => m)
    requires PassOk(seen, LookAt(n, m, 0), n, maxprio - m, pass)
    ensures Dispatched(seen, n, maxprio, m + 1, Work(log + pass, turn + now))
  {
    assert Open(0, Work(log, turn));
    RightlyAppended(seen, n, maxprio, m, log, turn, pass, now);
    OrderAppended(n, m, log, turn, pass, now);
    forall j: nat, p: nat | j < m + 1 && p < n ensures Serves(seen, n, maxprio, log + pass, turn + now, j, p) {
      ServesMore(seen, n, maxprio, m, log, turn, pass, now, j, p);
    }
    assert DispatchedAt(seen, n, maxprio, m + 1, log + pass, turn + now);
  }

  /** A process that the first pass finds runnable at the highest priority is run before any process that is run
      only by a later pass. */
  lemma HighestFirst(seen: Looks, n: nat, maxprio: int, log: seq<nat>, turn: seq<nat>, p: nat, k: nat)
    returns (i: nat)
    requires maxprio >= 0 && Dispatched(seen, n, maxprio, maxprio + 1, Work(log, turn)) && p < n
    requires Chosen(seen, n + p, p, maxprio) && k < |log| == |turn| && turn[k] > 0
    ensures i < k && log[i] == p && turn[i] == 0
  {
    assert Open(0, Work(log, turn));
    assert LookAt(n, 0, p) == n + p;
    assert Serves(seen, n, maxprio, log, turn, 0, p);
    i :| 0 <= i < |log| && log[i] == p && turn[i] == 0;
    LookOrder(n, 0, p, turn[k], log[k]);
  }

  lemma RoundStep(seen: Looks, n: nat, t: nat, target: int, log: seq<nat>)
    requires target >= 0
    ensures log + RoundLog(seen, n, t, target)
         == log + PassLog(seen, t, n, target) + RoundLog(seen, n, t + n, target - 1)
  {
  }

  lemma NextLook(n: nat, m: nat)
    ensures LookAt(n, m + 1, 0) == LookAt(n, m, 0) + n
  {
  }

  /** The body of the scheduler's loop: the processes it runs, in order, and the pass that ran each of them. */
  method Round(seen: Looks, n: nat) returns (log: seq<nat>, maxprio: int, ghost turn: seq<nat>)
    requires Table(seen, n)
    ensures maxprio >= 0 && forall p :: 0 <= p < n && seen[p][p].runnable ==> seen[p][p].priority <= maxprio
    ensures maxprio == 0 || exists p :: 0 <= p < n && seen[p][p].runnable && seen[p][p].priority == maxprio
    ensures log == RoundLog(seen, n, n, maxprio)
    ensures Dispatched(seen, n, maxprio, maxprio + 1, Work(log, turn))
  {
    maxprio := MaxPriority(seen, n);
    log, turn := [], [];
    NoneYet(seen, n, maxprio);
    var target := maxprio;
    var t: nat := n;
    ghost var m: nat := 0;
    while target >= 0
      invariant -1 <= target <= maxprio && log + RoundLog(seen, n, t, target) == RoundLog(seen, n, n, maxprio)
      invariant target == maxprio - m && t == LookAt(n, m, 0) && Dispatched(seen, n, maxprio, m, Work(log, turn))
      decreases target + 1
    {
      var pass := Pass(seen, n, t, target);
      RoundStep(seen, n, t, target, log);
      NextLook(n, m);
      ghost var now := seq(|pass|, _ => m);
      PassAppended(seen, n, maxprio, m, log, turn, pass, now);
      turn, m := turn + now, m + 1;
      log := log + pass;
      target, t := target - 1, t + n;
    }
  }

  // ----- fairness -----

  /** How often p occurs in a log. */
  function Count(log: seq<nat>, p: nat): nat {
    if log == [] then 0 else Count(log[..|log| - 1], p) + if log[|log| - 1] == p then 1 else 0
  }

  lemma CountLast(a: seq<nat>, x: nat, p: nat)
    ensures Count(a + [x], p) == Count(a, p) + if x == p then 1 else 0
  {
    assert (a + [x])[..|a|] == a;
  }

  lemma {:induction false} CountJoin(a: seq<nat>, b: seq<nat>, p: nat)
    ensures Count(a + b, p) == Count(a, p) + Count(b, p)
  {
    if b == [] {
      assert a + b == a;
    } else {
      var c, x := b[..|b| - 1], b[|b| - 1];
      assert a + b == (a + c) + [x];
      CountJoin(a, c, p);
      CountLast(a + c, x, p);
    }
  }

  lemma {:induction false} Counted(log: seq<nat>, p: nat)
    requires Count(log, p) > 0
    ensures p in log
  {
    if log[|log| - 1] != p {
      Counted(log[..|log| - 1], p);
    }
  }

  lemma {:induction false} PassCount(seen: Looks, t: nat, k: nat, target: int, p: nat)
    ensures Count(PassLog(seen, t, k, target), p) == if p < k && Chosen(seen, t + p, p, target) then 1 else 0
  {
    if k > 0 {
      PassCount(seen, t, k - 1, target, p);
      var before := PassLog(seen, t, k - 1, target);
      if Chosen(seen, t + (k - 1), k - 1, target) {
        CountLast(before, k - 1, p);
      } else {
        assert before + [] == before;
      }
    }
  }

  /** The pass for target 0 runs whatever is runnable when it comes to it. */
  lemma LastPass(seen: Looks, n: nat, maxprio: int, log: seq<nat>, turn: seq<nat>, p: nat)
    requires maxprio >= 0 && Dispatched(seen, n, maxprio, maxprio + 1, Work(log, turn)) && p < n
    requires Chosen(seen, LookAt(n, maxprio, p), p, 0)
    ensures p in log
  {
    assert Open(0, Work(log, turn));
    assert Serves(seen, n, maxprio, log, turn, maxprio, p);
  }

  /** A process that is runnable with a priority of 0 or more when the pass for target 0 comes to it is run
      in that round, whatever all other processes do. */
  method RoundServes(seen: Looks, n: nat, p: nat) returns (log: seq<nat>, maxprio: int)
    requires Table(seen, n) && p < n
    ensures maxprio >= 0 && (Chosen(seen, LookAt(n, maxprio, p), p, 0) ==> p in log)
  {
    ghost var turn;
    log, maxprio, turn := Round(seen, n);
    if Chosen(seen, LookAt(n, maxprio, p), p, 0) {
      LastPass(seen, n, maxprio, log, turn, p);
    }
  }

  /** Names a pass; Steady is looked into only where it is mentioned. */
  predicate At(k: nat) { true }

  /** Process p is runnable with priority q whenever the first loop or a pass comes to it. */
  ghost predicate Steady(seen: Looks, n: nat, p: nat, q: int) {
    p < n && Stands(seen, p, p, q) && forall j: nat {:trigger At(j)} :: Stands(seen, LookAt(n, j, p), p, q)
  }

  predicate Stands(seen: Looks, t: nat, p: nat, q: int) { p < |seen[t]| && seen[t][p] == Proc(true, q) }

  lemma OnePassMore(seen: Looks, n: nat, j: nat, target: int, p: nat, q: int)
    requires Steady(seen, n, p, q)
    ensures Count(PassLog(seen, LookAt(n, j, 0), n, target), p) == if q >= target then 1 else 0
  {
    assert At(j);
    LookFrom(n, j, p);
    PassCount(seen, LookAt(n, j, 0), n, target, p);
  }

  lemma RoundSplits(seen: Looks, n: nat, t: nat, target: int, p: nat)
    requires target >= 0
    ensures Count(RoundLog(seen, n, t, target), p)
         == Count(PassLog(seen, t, n, target), p) + Count(RoundLog(seen, n, t + n, target - 1), p)
  {
    CountJoin(PassLog(seen, t, n, target), RoundLog(seen, n, t + n, target - 1), p);
  }

  lemma {:induction false} RoundCount(seen: Looks, n: nat, j: nat, target: int, p: nat, q: int)
    requires Steady(seen, n, p, q) && q >= -1 && target >= -1
    ensures Count(RoundLog(seen, n, LookAt(n, j, 0), target), p) == if q < target then q + 1 else target + 1
    decreases target + 1
  {
    var t := LookAt(n, j, 0);
    if target < 0 {
      assert RoundLog(seen, n, t, target) == [];
    } else {
      OnePassMore(seen, n, j, target, p, q);
      RoundCount(seen, n, j + 1, target - 1, p, q);
      RoundSplits(seen, n, t, target, p);
    }
  }

  /** A process that is runnable with priority q whenever a pass comes to it is run exactly q + 1 times in a
      round, whatever all other processes do. */
  method RoundShares(seen: Looks, n: nat, p: nat, q: int) returns (log: seq<nat>)
    requires Table(seen, n) && Steady(seen, n, p, q) && q >= 0
    ensures Count(log, p) == q + 1
  {
    var maxprio;
    ghost var turn;
    log, maxprio, turn := Round(seen, n);
    RoundCount(seen, n, 0, maxprio, p, q);
  }
}
