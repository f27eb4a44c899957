/**
 * The interleaved carpool requests on a pool of `n` connections. An open transaction holds one;
 * changing a carpool asks the pool for a second one while it holds the first and the row lock.
 */
module CarpoolPool {
  import opened Options
  import opened Carpools
  import opened CarpoolTransactions
  import opened CarpoolSteps
  import opened CarpoolProgress
  import Sets

  predicate Full(n: nat, w: World) { |w.txs| >= n }

  /** Beginning a transaction takes a connection, and the check of the event borrows one. */
  predicate Borrows(w: World, a: Action) {
    a.Begin? || (a.Advance? && a.t in w.txs && w.txs[a.t].pc == CheckEvent)
  }

  /** Without a free connection an action that needs one waits. */
  function NextIn(h: Hash, n: nat, w: World, a: Action): World {
    if Full(n, w) && Borrows(w, a) then w else Next(h, w, a)
  }

  function RunIn(h: Hash, n: nat, actions: seq<Action>): World {
    if actions == [] then Start
    else NextIn(h, n, RunIn(h, n, actions[..|actions| - 1]), actions[|actions| - 1])
  }

  lemma {:induction false} RunInStep(h: Hash, n: nat, actions: seq<Action>, a: Action)
    ensures RunIn(h, n, actions + [a]) == NextIn(h, n, RunIn(h, n, actions), a)
  {
    assert (actions + [a])[..|actions|] == actions;
  }

  // ----- A run on a pool is a run -----

  lemma {:induction false} NextInSize(h: Hash, n: nat, w: World, a: Action)
    requires |w.txs| <= n
    ensures |NextIn(h, n, w, a).txs| <= n
  {
  }

  /** The pool only delays: every run on it is an interleaving, with at most `n` transactions open. */
  lemma {:induction false} PoolRunIsRun(h: Hash, n: nat, actions: seq<Action>) returns (all: seq<Action>)
    ensures RunIn(h, n, actions) == RunAll(h, all) && |RunIn(h, n, actions).txs| <= n
  {
    if actions == [] {
      all := [];
    } else {
      var before, a := actions[..|actions| - 1], actions[|actions| - 1];
      all := PoolRunIsRun(h, n, before);
      NextInSize(h, n, RunIn(h, n, before), a);
      if RunIn(h, n, actions) != RunIn(h, n, before) {
        assert (all + [a])[..|all|] == all;
        all := all + [a];
      }
    }
  }

  // ----- Who can end without another connection -----

  /** The locks that `t` still has to take are free. */
  predicate LocksFree(h: Hash, w: World, t: int)
    requires t in w.txs
  {
    var tx := w.txs[t];
    && (tx.pc == LockUser && tx.op.Advisory() ==> LockKey(h, tx.op) !in w.userLocks)
    && ((tx.pc == LockUser || tx.pc == LockRow) && !tx.op.CreateOp? ==> RowOf(tx.op) !in w.rowLocks)
  }

  /** `t` is an update that still has to ask about its event. */
  predicate Asks(w: World, t: int)
    requires t in w.txs
  {
    var tx := w.txs[t];
    tx.op.UpdateOp? && (tx.pc == CheckEvent || (tx.pc == LockRow && tx.op.carpool in w.db.carpools))
  }

  predicate CanEnd(h: Hash, w: World, t: int) {
    t in w.txs && LocksFree(h, w, t) && !Asks(w, t)
  }

  /** All connections are taken, and no open transaction can end on its own. */
  predicate Hung(h: Hash, n: nat, w: World) {
    w.txs != map[] && Full(n, w) && forall t :: t in w.txs ==> !CanEnd(h, w, t)
  }

  lemma {:induction false} HungStep(h: Hash, n: nat, w: World, u: int)
    requires Hung(h, n, w) && u in w.txs && Shape(w.txs[u]) && !Blocked(h, w, u) && w.txs[u].pc != CheckEvent
    ensures Hung(h, n, StepOf(h, w, u))
    ensures StepOf(h, w, u).db == w.db && StepOf(h, w, u).txs.Keys == w.txs.Keys
  {
    var w' := StepOf(h, w, u);
    assert !CanEnd(h, w, u);
    assert w.txs[u].pc == LockUser || w.txs[u].pc == LockRow;
    assert w'.txs == w.txs[u := w'.txs[u]] && w'.db == w.db;
    assert w.userLocks.Keys <= w'.userLocks.Keys && w.rowLocks.Keys <= w'.rowLocks.Keys;
    forall t | t in w'.txs ensures !CanEnd(h, w', t) {
      assert !CanEnd(h, w, t);
    }
  }

  /** From `w` to `w'` nobody began, ended or committed, and nobody can end now. */
  ghost predicate StillHung(h: Hash, n: nat, w: World, w': World) {
    Hung(h, n, w') && w'.db == w.db && w'.txs.Keys == w.txs.Keys
  }

  lemma {:induction false} HungNext(h: Hash, n: nat, w: World, a: Action)
    requires Hung(h, n, w) && !a.Rollback? && (a.Advance? && a.t in w.txs ==> Shape(w.txs[a.t]))
    ensures StillHung(h, n, w, NextIn(h, n, w, a))
  {
    if a.Advance? && a.t in w.txs && !Blocked(h, w, a.t) && w.txs[a.t].pc != CheckEvent { HungStep(h, n, w, a.t); }
  }

  lemma {:induction false} ShapeIn(h: Hash, n: nat, actions: seq<Action>, t: int)
    requires t in RunIn(h, n, actions).txs
    ensures Shape(RunIn(h, n, actions).txs[t])
  {
    var all := PoolRunIsRun(h, n, actions);
    EveryInterleavingIsValid(h, all);
    assert Shape(RunAll(h, all).txs[t]);
  }

  ghost predicate NoRollback(more: seq<Action>) {
    forall a :: a in more ==> !a.Rollback?
  }

  /** Nothing but a rollback gets a hung pool moving. */
  lemma {:induction false} HungStays(h: Hash, n: nat, actions: seq<Action>, more: seq<Action>)
    requires Hung(h, n, RunIn(h, n, actions)) && NoRollback(more)
    ensures StillHung(h, n, RunIn(h, n, actions), RunIn(h, n, actions + more))
  {
    if more == [] {
      assert actions + more == actions;
    } else {
      var before, a := more[..|more| - 1], more[|more| - 1];
      assert a in more && NoRollback(before);
      HungStays(h, n, actions, before);
      assert actions + more == actions + before + [a];
      RunInStep(h, n, actions + before, a);
      if a.Advance? && a.t in RunIn(h, n, actions + before).txs { ShapeIn(h, n, actions + before, a.t); }
      HungNext(h, n, RunIn(h, n, actions + before), a);
    }
  }

  // ----- Everybody finishes -----

  ghost predicate OnlySteps(more: seq<Action>) {
    forall a :: a in more ==> a.Advance?
  }

  /** The open transactions can all be brought to their end by their own steps. */
  ghost predicate Drains(h: Hash, n: nat, actions: seq<Action>) {
    exists more :: OnlySteps(more) && RunIn(h, n, actions + more).txs == map[]
  }

  lemma {:induction false} DrainsLater(h: Hash, n: nat, actions: seq<Action>, u: int)
    requires Drains(h, n, actions + [Advance(u)])
    ensures Drains(h, n, actions)
  {
    var rest :| OnlySteps(rest) && RunIn(h, n, actions + [Advance(u)] + rest).txs == map[];
    assert actions + ([Advance(u)] + rest) == actions + [Advance(u)] + rest;
    assert OnlySteps([Advance(u)] + rest);
  }

  /** What a step of a transaction that waits neither for a lock nor for a connection does. */
  lemma {:induction false} Steps(h: Hash, n: nat, actions: seq<Action>, u: int)
    requires var w := RunIn(h, n, actions);
             u in w.txs && !Blocked(h, w, u) && (w.txs[u].pc == CheckEvent ==> !Full(n, w))
    ensures var w, w' := RunIn(h, n, actions), RunIn(h, n, actions + [Advance(u)]);
            Shape(w.txs[u]) && w' == StepOf(h, w, u) && Advances(w, w'.txs, u) && Work(w') < Work(w)
  {
    var w := RunIn(h, n, actions);
    RunInStep(h, n, actions, Advance(u));
    ShapeIn(h, n, actions, u);
    StepAdvances(h, w, u);
    WorkDescends(h, w, u);
  }

  lemma {:induction false} FewerStay(w: World, txs: map<int, Tx>, t: int)
    requires t in w.txs && Advances(w, txs, t)
    ensures |txs| <= |w.txs| && (t !in txs ==> |txs| < |w.txs|)
  {
  }

  /** With a connection to spare nobody has to be rolled back. */
  lemma {:induction false} SpareDrains(h: Hash, n: nat, actions: seq<Action>)
    requires !Full(n, RunIn(h, n, actions))
    ensures Drains(h, n, actions)
    decreases Work(RunIn(h, n, actions))
  {
    var w := RunIn(h, n, actions);
    if w.txs == map[] {
      assert OnlySteps([]) && actions + [] == actions;
    } else {
      assert w.txs.Keys != {};
      var all := PoolRunIsRun(h, n, actions);
      SomeoneCanAdvance(h, all, Sets.Pick(w.txs.Keys));
      var u :| u in w.txs && !Blocked(h, w, u);
      Steps(h, n, actions, u);
      FewerStay(w, RunIn(h, n, actions + [Advance(u)]).txs, u);
      SpareDrains(h, n, actions + [Advance(u)]);
      DrainsLater(h, n, actions, u);
    }
  }

  lemma {:induction false} CanEndStays(h: Hash, w: World, t: int)
    requires CanEnd(h, w, t) && Shape(w.txs[t])
    ensures !Blocked(h, w, t) && w.txs[t].pc != CheckEvent
    ensures t in StepOf(h, w, t).txs ==> CanEnd(h, StepOf(h, w, t), t)
  {
  }

  /** The step of a transaction that can end on its own ends it or leaves it able to. */
  lemma {:induction false} EnderSteps(h: Hash, n: nat, actions: seq<Action>, t: int)
    requires CanEnd(h, RunIn(h, n, actions), t)
    ensures var w, w' := RunIn(h, n, actions), RunIn(h, n, actions + [Advance(t)]);
            Work(w') < Work(w) && (CanEnd(h, w', t) || !Full(n, w'))
  {
    var w := RunIn(h, n, actions);
    ShapeIn(h, n, actions, t);
    CanEndStays(h, w, t);
    Steps(h, n, actions, t);
    FewerStay(w, StepOf(h, w, t).txs, t);
    var all := PoolRunIsRun(h, n, actions);
  }

  /** One transaction that can end on its own frees the connection that the others need. */
  lemma {:induction false} EnderDrains(h: Hash, n: nat, actions: seq<Action>, t: int)
    requires CanEnd(h, RunIn(h, n, actions), t)
    ensures Drains(h, n, actions)
    decreases Work(RunIn(h, n, actions))
  {
    EnderSteps(h, n, actions, t);
    if Full(n, RunIn(h, n, actions + [Advance(t)])) {
      EnderDrains(h, n, actions + [Advance(t)], t);
    } else {
      SpareDrains(h, n, actions + [Advance(t)]);
    }
    DrainsLater(h, n, actions, t);
  }

  /** After every run on the pool, the open transactions can be brought to their end without a
      rollback exactly when the pool is not hung. */
  lemma {:induction false} DrainsIff(h: Hash, n: nat, actions: seq<Action>)
    ensures Drains(h, n, actions) <==> !Hung(h, n, RunIn(h, n, actions))
  {
    var w := RunIn(h, n, actions);
    if Hung(h, n, w) {
      forall more | OnlySteps(more) ensures RunIn(h, n, actions + more).txs != map[] {
        assert NoRollback(more);
        HungStays(h, n, actions, more);
      }
    } else if w.txs == map[] {
      assert OnlySteps([]) && actions + [] == actions;
    } else if !Full(n, w) {
      SpareDrains(h, n, actions);
    } else {
      var t :| t in w.txs && CanEnd(h, w, t);
      EnderDrains(h, n, actions, t);
    }
  }

  /** Rolling back any one open transaction is enough to let all the others end. */
  lemma {:induction false} OneRollbackSuffices(h: Hash, n: nat, actions: seq<Action>, t: int)
    requires t in RunIn(h, n, actions).txs
    ensures Drains(h, n, actions + [Rollback(t)])
  {
    var all := PoolRunIsRun(h, n, actions);
    RunInStep(h, n, actions, Rollback(t));
    SpareDrains(h, n, actions + [Rollback(t)]);
  }

  // ----- A pool that hangs -----

  const Change := UpdateOp(1, None, true)

  /** A carpool is created, an update locks its row, and then more updates of it begin. */
  function Deed(i: nat): Action {
    if i == 0 then Begin(0, CreateOp(1, 1, 1))
    else if i < 5 || i == 6 then Advance(0)
    else if i == 5 then Begin(0, Change)
    else Begin(i - 6, Change)
  }

  function Deeds(k: nat): (actions: seq<Action>)
    ensures |actions| == k
  {
    if k == 0 then [] else Deeds(k - 1) + [Deed(k - 1)]
  }

  const Row := Carpool(1, 1, 1, 0)

  /** The world while the carpool is being created, and after. */
  function Creating(h: Hash, pc: Pc): World {
    var op, held := CreateOp(1, 1, 1), map[h(1, 1) := 0];
    match pc
    case LockUser => World(Start.db, 1, map[0 := Tx(op, LockUser, NoRow, 0)], map[], map[])
    case Commit => World(Start.db, 2, map[0 := Tx(op, Commit, Row, 1)], held, map[])
    case _ => World(Start.db, 1, map[0 := Tx(op, pc, NoRow, 0)], held, map[])
  }

  const Created := World(Db(map[1 := Row], {}), 2, map[], map[], map[])

  /** The first of `k` updates has locked the row and asks; the others wait for the row. */
  ghost predicate Waiting(w: World, k: nat) {
    && w.db == Created.db && |w.txs| == k && w.rowLocks == map[1 := 0]
    && (forall t :: t in w.txs <==> 0 <= t < k)
    && (forall t :: t in w.txs ==> w.txs[t].op == Change && w.txs[t].pc == if t == 0 then CheckEvent else LockRow)
  }

  ghost predicate Reached(h: Hash, w: World, i: nat) {
    if i == 0 then w == Start
    else if i == 1 then w == Creating(h, LockUser)
    else if i == 2 then w == Creating(h, CheckRole)
    else if i == 3 then w == Creating(h, InsertCarpool)
    else if i == 4 then w == Creating(h, Commit)
    else if i == 5 then w == Created
    else if i == 6 then w == Created.(txs := map[0 := Tx(Change, LockRow, NoRow, 0)])
    else Waiting(w, i - 6)
  }

  lemma {:induction false} CreationStarts(h: Hash, n: nat)
    requires 1 <= n
    ensures NextIn(h, n, Start, Deed(0)) == Creating(h, LockUser)
    ensures NextIn(h, n, Creating(h, LockUser), Deed(1)) == Creating(h, CheckRole)
  {
  }

  lemma {:induction false} CreationChecks(h: Hash, n: nat)
    ensures NextIn(h, n, Creating(h, CheckRole), Deed(2)) == Creating(h, InsertCarpool)
    ensures NextIn(h, n, Creating(h, InsertCarpool), Deed(3)) == Creating(h, Commit)
  {
  }

  lemma {:induction false} CreationEnds(h: Hash, n: nat)
    ensures NextIn(h, n, Creating(h, Commit), Deed(4)) == Created
  {
  }

  lemma {:induction false} UpdateLocks(h: Hash, n: nat)
    requires 1 <= n
    ensures Reached(h, NextIn(h, n, Created, Deed(5)), 6)
    ensures Waiting(NextIn(h, n, Created.(txs := map[0 := Tx(Change, LockRow, NoRow, 0)]), Deed(6)), 1)
  {
  }

  lemma {:induction false} UpdateWaits(h: Hash, n: nat, w: World, k: nat)
    requires 1 <= k < n && Waiting(w, k)
    ensures Waiting(NextIn(h, n, w, Begin(k, Change)), k + 1)
  {
  }

  lemma {:induction false} DeedsReach(h: Hash, n: nat, i: nat)
    requires 1 <= n && i <= n + 6
    ensures Reached(h, RunIn(h, n, Deeds(i)), i)
  {
    if i != 0 {
      DeedsReach(h, n, i - 1);
      RunInStep(h, n, Deeds(i - 1), Deed(i - 1));
      if i <= 2 { CreationStarts(h, n); }
      else if i <= 4 { CreationChecks(h, n); }
      else if i == 5 { CreationEnds(h, n); }
      else if i <= 7 { UpdateLocks(h, n); }
      else { UpdateWaits(h, n, RunIn(h, n, Deeds(i - 1)), i - 7); }
    }
  }

  /** Every pool can hang: on as many updates of one carpool as there are connections. */
  lemma {:induction false} UpdatesHang(h: Hash, n: nat)
    requires 1 <= n
    ensures var w := RunIn(h, n, Deeds(n + 6));
            Hung(h, n, w) && forall t :: t in w.txs ==> w.txs[t].op == Change
  {
    DeedsReach(h, n, n + 6);
    assert 0 in RunIn(h, n, Deeds(n + 6)).txs;
  }

  // ----- How many transactions a pool stands -----

  /** At most `m` transactions are open at any moment of the run. */
  ghost predicate OpensAtMost(h: Hash, n: nat, m: nat, actions: seq<Action>) {
    forall k :: 0 <= k <= |actions| ==> |RunIn(h, n, actions[..k]).txs| <= m
  }

  lemma {:induction false} OpensAtMostAll(h: Hash, n: nat, actions: seq<Action>)
    ensures OpensAtMost(h, n, n, actions)
  {
    forall k | 0 <= k <= |actions| ensures |RunIn(h, n, actions[..k]).txs| <= n {
      var all := PoolRunIsRun(h, n, actions[..k]);
    }
  }

  /** Runs with at most `m` transactions open can all be brought to their end without a rollback
      exactly when the pool has more than `m` connections. */
  lemma {:induction false} FewerThanConnectionsIff(h: Hash, n: nat, m: nat)
    requires 1 <= n && 1 <= m
    ensures (forall actions :: OpensAtMost(h, n, m, actions) ==> Drains(h, n, actions)) <==> m < n
  {
    if m < n {
      forall actions | OpensAtMost(h, n, m, actions) ensures Drains(h, n, actions) {
        assert actions[..|actions|] == actions;
        SpareDrains(h, n, actions);
      }
    } else {
      UpdatesHang(h, n);
      DrainsIff(h, n, Deeds(n + 6));
      OpensAtMostAll(h, n, Deeds(n + 6));
      assert OpensAtMost(h, n, m, Deeds(n + 6));
    }
  }
}
