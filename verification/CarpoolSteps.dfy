/** Every statement of every carpool transaction keeps the invariant of the interleaving. */
module CarpoolSteps {
  import opened Carpools
  import opened CarpoolTransactions
  import opened CarpoolCommits

  lemma {:induction false} LockUserLocks(h: Hash, w: World, t: int)
    requires LocksMatch(h, w) && t in w.txs && Shape(w.txs[t]) && w.txs[t].pc == LockUser && !Blocked(h, w, t)
    ensures LocksMatch(h, StepOf(h, w, t))
  {
    var w' := StepOf(h, w, t);
    var key := LockKey(h, w.txs[t].op);
    assert forall u :: u in w.txs && u != t ==> w'.txs[u] == w.txs[u];
    assert forall k :: k in w.userLocks ==> k != key && w'.userLocks[k] == w.userLocks[k] != t;
    assert forall c :: c in w.rowLocks ==> w.rowLocks[c] != t;
  }

  lemma {:induction false} LockUserKeeps(h: Hash, w: World, t: int)
    requires Inv(h, w) && t in w.txs && w.txs[t].pc == LockUser && !Blocked(h, w, t)
    ensures Inv(h, StepOf(h, w, t))
  {
    assert Shape(w.txs[t]) && Knows(w.db, w.txs[t]);
    LockUserLocks(h, w, t);
    var w' := StepOf(h, w, t);
    IdsKept(w, w', t, w'.txs[t]);
    assert Shape(w'.txs[t]) && Knows(w.db, w'.txs[t]);
  }

  lemma {:induction false} LockRowLocks(h: Hash, w: World, t: int)
    requires LocksMatch(h, w) && t in w.txs && Shape(w.txs[t]) && w.txs[t].pc == LockRow && !Blocked(h, w, t)
    requires t in StepOf(h, w, t).txs
    ensures LocksMatch(h, StepOf(h, w, t))
  {
    var w' := StepOf(h, w, t);
    var row := RowOf(w.txs[t].op);
    assert forall u :: u in w.txs && u != t ==> w'.txs[u] == w.txs[u];
    assert HoldsUser(w'.txs[t]) == HoldsUser(w.txs[t]) && w'.txs[t].op == w.txs[t].op && HoldsRow(w'.txs[t]);
    assert forall c :: c in w.rowLocks ==> c != row && w'.rowLocks[c] == w.rowLocks[c] != t;
  }

  lemma {:induction false} LockRowKeeps(h: Hash, w: World, t: int)
    requires Inv(h, w) && t in w.txs && w.txs[t].pc == LockRow && !Blocked(h, w, t)
    ensures Inv(h, StepOf(h, w, t))
  {
    var tx := w.txs[t];
    assert Shape(tx) && Knows(w.db, tx);
    if RowOf(tx.op) !in w.db.carpools || (tx.op.JoinOp? && w.db.carpools[RowOf(tx.op)].driver == tx.op.user) {
      FinishKeeps(h, w, w.db, t);
    } else {
      LockRowLocks(h, w, t);
      var w' := StepOf(h, w, t);
      IdsKept(w, w', t, w'.txs[t]);
      assert Shape(w'.txs[t]) && Knows(w.db, w'.txs[t]);
    }
  }

  /** Drawing the next identifier keeps identifiers apart. */
  lemma {:induction false} DrawnIds(w: World, w': World, t: int, tx: Tx)
    requires FreshIds(w) && t in w.txs && tx.op == w.txs[t].op && tx.op.CreateOp? && tx.id == w.sequence
    requires w'.db == w.db && w'.sequence == w.sequence + 1 && w'.txs == w.txs[t := tx]
    ensures FreshIds(w')
  {
  }

  lemma {:induction false} InsertCarpoolKeeps(h: Hash, w: World, t: int)
    requires Inv(h, w) && t in w.txs && w.txs[t].pc == InsertCarpool
    ensures Inv(h, StepOf(h, w, t))
  {
    assert Shape(w.txs[t]) && Knows(w.db, w.txs[t]);
    var w' := StepOf(h, w, t);
    PutLocks(h, w, w', t, w'.txs[t]);
    DrawnIds(w, w', t, w'.txs[t]);
    assert Shape(w'.txs[t]) && Knows(w.db, w'.txs[t]);
  }

  /** The transaction ended, or learnt something true. */
  ghost predicate Learns(w: World, w': World, t: int)
    requires t in w.txs
  {
    || w' == Finish(w, w.db, t)
    || (t in w'.txs && w' == Put(w, t, w'.txs[t]) && LearntBy(w.db, w.txs[t], w'.txs[t]))
  }

  ghost predicate LearntBy(db: Db, tx: Tx, tx': Tx) {
    && tx'.op == tx.op && tx'.pc != LockUser && tx'.pc != LockRow
    && Shape(tx') && Knows(db, tx') && !Drew(tx')
  }

  predicate Local(tx: Tx) { tx.pc !in {LockUser, LockRow, InsertCarpool, Commit} }

  lemma {:induction false} CreateLearns(h: Hash, w: World, t: int)
    requires Valid(w.db) && t in w.txs && Local(w.txs[t]) && Shape(w.txs[t]) && Knows(w.db, w.txs[t])
    requires w.txs[t].op.CreateOp?
    ensures Learns(w, StepOf(h, w, t), t)
  {
    RoleRows(w.db, w.txs[t].op.event, w.txs[t].op.user);
  }

  lemma {:induction false} JoinLearns(h: Hash, w: World, t: int)
    requires Valid(w.db) && t in w.txs && Local(w.txs[t]) && Shape(w.txs[t]) && Knows(w.db, w.txs[t])
    requires w.txs[t].op.JoinOp?
    ensures Learns(w, StepOf(h, w, t), t)
  {
  }

  lemma {:induction false} LeaveLearns(h: Hash, w: World, t: int)
    requires Valid(w.db) && t in w.txs && Local(w.txs[t]) && Shape(w.txs[t]) && Knows(w.db, w.txs[t])
    requires w.txs[t].op.LeaveOp?
    ensures Learns(w, StepOf(h, w, t), t)
  {
  }

  lemma {:induction false} UpdateLearns(h: Hash, w: World, t: int)
    requires Valid(w.db) && t in w.txs && Local(w.txs[t]) && Shape(w.txs[t]) && Knows(w.db, w.txs[t])
    requires w.txs[t].op.UpdateOp?
    ensures Learns(w, StepOf(h, w, t), t)
  {
  }

  /** A statement without a lock either ends the transaction or teaches it something true. */
  lemma {:induction false} LocalStepLearns(h: Hash, w: World, t: int)
    requires Valid(w.db) && t in w.txs && Local(w.txs[t]) && Shape(w.txs[t]) && Knows(w.db, w.txs[t])
    ensures Learns(w, StepOf(h, w, t), t)
  {
    match w.txs[t].op
    case CreateOp(_, _, _) => CreateLearns(h, w, t);
    case JoinOp(_, _, _) => JoinLearns(h, w, t);
    case LeaveOp(_, _, _) => LeaveLearns(h, w, t);
    case UpdateOp(_, _, _) => UpdateLearns(h, w, t);
    case DeleteOp(_) =>
  }

  lemma {:induction false} LocalStepKeeps(h: Hash, w: World, t: int)
    requires Inv(h, w) && t in w.txs && Local(w.txs[t])
    ensures Inv(h, StepOf(h, w, t))
  {
    assert Shape(w.txs[t]) && Knows(w.db, w.txs[t]);
    var w' := StepOf(h, w, t);
    LocalStepLearns(h, w, t);
    if w' == Finish(w, w.db, t) {
      FinishKeeps(h, w, w.db, t);
    } else {
      PutKeeps(h, w, t, w'.txs[t]);
    }
  }

  lemma {:induction false} BeginKeeps(h: Hash, w: World, t: int, op: Op)
    requires Inv(h, w) && t !in w.txs && CanBegin(w, op)
    ensures Inv(h, Next(h, w, Begin(t, op)))
  {
    var w' := Next(h, w, Begin(t, op));
    assert forall u :: u in w.txs ==> u != t && w'.txs[u] == w.txs[u];
    assert LocksMatch(h, w') by {
      assert !HoldsUser(w'.txs[t]) && !HoldsRow(w'.txs[t]);
    }
    IdsKept(w, w', t, w'.txs[t]);
    assert Shape(w'.txs[t]) && Knows(w.db, w'.txs[t]);
  }

  lemma {:induction false} NextKeeps(h: Hash, w: World, a: Action)
    requires Inv(h, w)
    ensures Inv(h, Next(h, w, a))
  {
    match a
    case Begin(t, op) => if t !in w.txs && CanBegin(w, op) { BeginKeeps(h, w, t, op); }
    case Rollback(t) => if t in w.txs { FinishKeeps(h, w, w.db, t); }
    case Advance(t) =>
      if t in w.txs && !Blocked(h, w, t) {
        match w.txs[t].pc
        case LockUser => LockUserKeeps(h, w, t);
        case LockRow => LockRowKeeps(h, w, t);
        case InsertCarpool => InsertCarpoolKeeps(h, w, t);
        case Commit => CommitKeeps(h, w, t);
        case _ => LocalStepKeeps(h, w, t);
      }
  }

  /** In every state of every interleaving a user holds at most one role per event, the seat
      counters match the passenger rows, and no carpool is overbooked. */
  lemma {:induction false} EveryInterleavingIsValid(h: Hash, actions: seq<Action>)
    ensures Inv(h, RunAll(h, actions))
    ensures Valid(RunAll(h, actions).db)
  {
    if actions != [] {
      EveryInterleavingIsValid(h, actions[..|actions| - 1]);
      NextKeeps(h, RunAll(h, actions[..|actions| - 1]), actions[|actions| - 1]);
    }
  }
}
