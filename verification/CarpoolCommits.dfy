/** A commit or a rollback of one carpool transaction leaves what all the others know true. */
module CarpoolCommits {
  import opened Carpools
  import opened CarpoolTransactions

  /** The carpool row a committing transaction writes. */
  function Target(tx: Tx): int {
    if tx.op.CreateOp? then tx.id else RowOf(tx.op)
  }

  /** From `db` to `db'` only the rows of one carpool change, its event never does, and roles
      are gained by at most one user in one event. */
  ghost predicate Touches(db: Db, db': Db, tx: Tx) {
    && (forall c :: c in db'.carpools && c != Target(tx) ==> c in db.carpools && db'.carpools[c] == db.carpools[c])
    && (forall c :: c in db.carpools && c != Target(tx) ==> c in db'.carpools)
    && (Target(tx) in db'.carpools && !tx.op.CreateOp? ==>
          Target(tx) in db.carpools && db'.carpools[Target(tx)].event == db.carpools[Target(tx)].event)
    && (forall s: Seat :: s.carpool != Target(tx) ==> (s in db'.seats <==> s in db.seats))
    && (forall e, u, r :: Holds(db', e, u, r) && !Holds(db, e, u, r) ==>
          tx.op.Advisory() && e == tx.op.event && u == tx.op.user)
  }

  lemma {:induction false} PublishTouches(db: Db, tx: Tx)
    requires Shape(tx) && Knows(db, tx) && tx.pc == Commit && (tx.op.CreateOp? ==> tx.id !in db.carpools)
    ensures Touches(db, Publish(db, tx), tx)
  {
  }

  /** A transaction that holds its locks is not disturbed by another one's commit. */
  lemma {:induction false} OthersStillKnow(h: Hash, w: World, t: int, u: int)
    requires Inv(h, w) && t in w.txs && u in w.txs && t != u && w.txs[t].pc == Commit
    ensures Knows(Publish(w.db, w.txs[t]), w.txs[u])
  {
    var tx, other := w.txs[t], w.txs[u];
    var db' := Publish(w.db, tx);
    assert Shape(tx) && Knows(w.db, tx) && Shape(other) && Knows(w.db, other);
    assert Drew(tx) <==> tx.op.CreateOp?;
    PublishTouches(w.db, tx);
    SeparateRows(h, w, t, u);
    if HoldsUser(other) { SeparateRoles(h, w, t, u, db'); }
  }

  lemma {:induction false} SeparateRows(h: Hash, w: World, t: int, u: int)
    requires Inv(h, w) && t in w.txs && u in w.txs && t != u && w.txs[t].pc == Commit
    ensures HoldsRow(w.txs[u]) ==> Target(w.txs[t]) != RowOf(w.txs[u].op)
    ensures w.txs[t].op.CreateOp? && (w.txs[u].op.JoinOp? || w.txs[u].op.LeaveOp?) ==> Target(w.txs[t]) != w.txs[u].op.carpool
  {
    assert Shape(w.txs[t]) && Shape(w.txs[u]) && Knows(w.db, w.txs[u]);
    assert Drew(w.txs[t]) <==> w.txs[t].op.CreateOp?;
  }

  lemma {:induction false} SeparateRoles(h: Hash, w: World, t: int, u: int, db': Db)
    requires Inv(h, w) && t in w.txs && u in w.txs && t != u && w.txs[t].pc == Commit
    requires Touches(w.db, db', w.txs[t]) && HoldsUser(w.txs[u])
    ensures forall r :: Holds(db', w.txs[u].op.event, w.txs[u].op.user, r) ==>
                        Holds(w.db, w.txs[u].op.event, w.txs[u].op.user, r)
  {
  }

  /** Ending a transaction keeps the invariant if the published rows suit everyone else. */
  lemma {:induction false} FinishKeeps(h: Hash, w: World, db: Db, t: int)
    requires Inv(h, w) && t in w.txs && Valid(db)
    requires forall u :: u in w.txs && u != t ==> Knows(db, w.txs[u])
    requires forall c :: c in db.carpools ==> c in w.db.carpools || (Drew(w.txs[t]) && c == w.txs[t].id)
    ensures Inv(h, Finish(w, db, t))
  {
    FinishLocks(h, w, db, t);
    FinishIds(w, db, t);
  }

  lemma {:induction false} FinishLocks(h: Hash, w: World, db: Db, t: int)
    requires LocksMatch(h, w) && t in w.txs
    ensures LocksMatch(h, Finish(w, db, t))
  {
  }

  lemma {:induction false} FinishIds(w: World, db: Db, t: int)
    requires FreshIds(w) && t in w.txs
    requires forall c :: c in db.carpools ==> c in w.db.carpools || (Drew(w.txs[t]) && c == w.txs[t].id)
    ensures FreshIds(Finish(w, db, t))
  {
  }

  lemma {:induction false} CommitKeeps(h: Hash, w: World, t: int)
    requires Inv(h, w) && t in w.txs && w.txs[t].pc == Commit
    ensures Inv(h, Finish(w, Publish(w.db, w.txs[t]), t))
  {
    var tx := w.txs[t];
    assert Shape(tx) && Knows(w.db, tx);
    assert Drew(tx) <==> tx.op.CreateOp?;
    CommitIsReady(h, w, t);
    CommitIsSerial(w.db, tx);
    ServeKeeps(w.db, RequestOf(tx));
    forall u | u in w.txs && u != t ensures Knows(Publish(w.db, tx), w.txs[u]) {
      OthersStillKnow(h, w, t, u);
    }
    PublishTouches(w.db, tx);
    FinishKeeps(h, w, Publish(w.db, tx), t);
  }

  /** A statement that takes no lock and draws no identifier. */
  lemma {:induction false} PutKeeps(h: Hash, w: World, t: int, tx: Tx)
    requires Inv(h, w) && t in w.txs && tx.op == w.txs[t].op && Shape(tx) && Knows(w.db, tx)
    requires HoldsUser(tx) == HoldsUser(w.txs[t]) && HoldsRow(tx) == HoldsRow(w.txs[t]) && !Drew(tx)
    ensures Inv(h, Put(w, t, tx))
  {
    PutLocks(h, w, Put(w, t, tx), t, tx);
    IdsKept(w, Put(w, t, tx), t, tx);
  }

  lemma {:induction false} PutLocks(h: Hash, w: World, w': World, t: int, tx: Tx)
    requires LocksMatch(h, w) && t in w.txs && tx.op == w.txs[t].op
    requires HoldsUser(tx) == HoldsUser(w.txs[t]) && HoldsRow(tx) == HoldsRow(w.txs[t])
    requires w'.txs == w.txs[t := tx] && w'.userLocks == w.userLocks && w'.rowLocks == w.rowLocks
    ensures LocksMatch(h, w')
  {
  }

  /** Replacing one transaction by one that has drawn no identifier keeps identifiers apart. */
  lemma {:induction false} IdsKept(w: World, w': World, t: int, tx: Tx)
    requires FreshIds(w) && w'.db == w.db && w'.sequence == w.sequence && w'.txs == w.txs[t := tx] && !Drew(tx)
    requires tx.op.JoinOp? || tx.op.LeaveOp? ==>
               tx.op.carpool in w.db.carpools || (t in w.txs && w.txs[t].op == tx.op)
    ensures FreshIds(w')
  {
  }
}
