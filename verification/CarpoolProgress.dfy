/**
 * The locks alone never stop the interleaved carpool requests: nobody waits in a circle, and every
 * step of a transaction brings it nearer to its end. `CarpoolPool` adds the waits for connections.
 */
module CarpoolProgress {
  import opened Carpools
  import opened CarpoolTransactions
  import opened CarpoolSteps
  import Sums

  /** `t` waits for a lock that `u` holds. */
  ghost predicate WaitsFor(h: Hash, w: World, t: int, u: int) {
    && t in w.txs && Blocked(h, w, t)
    && u == if w.txs[t].pc == LockUser then w.userLocks[LockKey(h, w.txs[t].op)] else w.rowLocks[RowOf(w.txs[t].op)]
  }

  /** How many locks a transaction may still have to wait for. */
  function LocksAhead(tx: Tx): nat {
    if tx.pc == LockUser then 2 else if tx.pc == LockRow then 1 else 0
  }

  /** Whoever waits has more locks ahead than whoever it waits for, because the advisory lock
      always comes before the row lock; and the holder is a live transaction. */
  lemma {:induction false} WaitingDescends(h: Hash, actions: seq<Action>, t: int, u: int)
    requires WaitsFor(h, RunAll(h, actions), t, u)
    ensures u in RunAll(h, actions).txs
    ensures LocksAhead(RunAll(h, actions).txs[u]) < LocksAhead(RunAll(h, actions).txs[t])
  {
    EveryInterleavingIsValid(h, actions);
    var w := RunAll(h, actions);
    assert Shape(w.txs[t]);
  }

  ghost predicate WaitChain(h: Hash, w: World, chain: seq<int>) {
    forall i :: 0 <= i < |chain| - 1 ==> WaitsFor(h, w, chain[i], chain[i + 1])
  }

  lemma {:induction false} ChainDescends(h: Hash, actions: seq<Action>, chain: seq<int>, i: nat)
    requires |chain| > 1 && WaitChain(h, RunAll(h, actions), chain) && i < |chain|
    ensures chain[0] in RunAll(h, actions).txs && chain[i] in RunAll(h, actions).txs
    ensures LocksAhead(RunAll(h, actions).txs[chain[i]]) + i <= LocksAhead(RunAll(h, actions).txs[chain[0]])
  {
    assert WaitsFor(h, RunAll(h, actions), chain[0], chain[1]);
    if i != 0 {
      ChainDescends(h, actions, chain, i - 1);
      assert WaitsFor(h, RunAll(h, actions), chain[i - 1], chain[i - 1 + 1]);
      WaitingDescends(h, actions, chain[i - 1], chain[i]);
    }
  }

  /** The locks do not deadlock: a chain of transactions waiting for locks has at most three members
      and never closes. */
  lemma {:induction false} NoCyclicWait(h: Hash, actions: seq<Action>, chain: seq<int>)
    requires |chain| > 1 && WaitChain(h, RunAll(h, actions), chain)
    ensures |chain| <= 3 && chain[0] != chain[|chain| - 1]
  {
    ChainDescends(h, actions, chain, |chain| - 1);
  }

  /** While a transaction is open, some open transaction waits for no lock. */
  lemma {:induction false} SomeoneCanAdvance(h: Hash, actions: seq<Action>, t: int)
    requires t in RunAll(h, actions).txs
    ensures exists u :: u in RunAll(h, actions).txs && !Blocked(h, RunAll(h, actions), u)
    decreases LocksAhead(RunAll(h, actions).txs[t])
  {
    var w := RunAll(h, actions);
    if Blocked(h, w, t) {
      var u := if w.txs[t].pc == LockUser then w.userLocks[LockKey(h, w.txs[t].op)] else w.rowLocks[RowOf(w.txs[t].op)];
      WaitingDescends(h, actions, t, u);
      SomeoneCanAdvance(h, actions, u);
    }
  }

  // ----- Steps lead to the end -----

  /** More than the statements a transaction still has to execute. */
  function StepsLeft(tx: Tx): nat {
    match tx.pc
    case LockUser => 9
    case LockRow => 8
    case CheckDriver => 7
    case CheckRider => 6
    case CheckJoined => 5
    case TakeSeat => 4
    case CheckRole => 3
    case DeleteSeat => 3
    case CheckEvent => 3
    case InsertCarpool => 2
    case InsertSeat => 2
    case DropCount => 2
    case WriteRow => 2
    case Commit => 1
  }

  /** The transaction ended, or has fewer statements left. */
  ghost predicate Advances(w: World, txs: map<int, Tx>, t: int)
    requires t in w.txs
  {
    || txs == w.txs - {t}
    || (t in txs && txs == w.txs[t := txs[t]] && StepsLeft(txs[t]) < StepsLeft(w.txs[t]))
  }

  lemma {:induction false} LockStepAdvances(h: Hash, w: World, t: int)
    requires t in w.txs && Shape(w.txs[t]) && (w.txs[t].pc == LockUser || w.txs[t].pc == LockRow)
    ensures Advances(w, StepOf(h, w, t).txs, t)
  {
  }

  lemma {:induction false} PlainStepAdvances(h: Hash, w: World, t: int)
    requires t in w.txs && Shape(w.txs[t]) && w.txs[t].pc != LockUser && w.txs[t].pc != LockRow
    ensures Advances(w, StepOf(h, w, t).txs, t)
  {
  }

  /** A step of a transaction that does not wait ends it or brings it nearer to its end. */
  lemma {:induction false} StepAdvances(h: Hash, w: World, t: int)
    requires t in w.txs && Shape(w.txs[t]) && !Blocked(h, w, t)
    ensures Advances(w, StepOf(h, w, t).txs, t)
  {
    if w.txs[t].pc == LockUser || w.txs[t].pc == LockRow { LockStepAdvances(h, w, t); } else { PlainStepAdvances(h, w, t); }
  }

  ghost function StepCounts(txs: map<int, Tx>): map<int, int> {
    map t | t in txs :: StepsLeft(txs[t])
  }

  ghost function Work(w: World): (n: int)
    ensures 0 <= n
  {
    var counts := StepCounts(w.txs);
    assert forall t :: t in counts ==> counts[t] == StepsLeft(w.txs[t]) >= 0;
    Sums.SumNonNegative(counts);
    Sums.Sum(counts)
  }

  lemma {:induction false} WorkDescends(h: Hash, w: World, t: int)
    requires t in w.txs && Shape(w.txs[t]) && !Blocked(h, w, t)
    ensures Work(StepOf(h, w, t)) < Work(w)
  {
    var before, after := StepCounts(w.txs), StepCounts(StepOf(h, w, t).txs);
    StepAdvances(h, w, t);
    Sums.SumSplit(before, t);
    if StepOf(h, w, t).txs == w.txs - {t} {
      assert after == before - {t};
    } else {
      assert after == before[t := after[t]];
      Sums.SumUpdate(before, t, after[t]);
    }
  }
}
