/** What the interleaved carpool requests show: only states of serial runs. */
module CarpoolSerial {
  import opened Carpools
  import opened CarpoolTransactions
  import opened CarpoolSteps

  lemma {:induction false} OnlyCommitWrites(h: Hash, w: World, a: Action)
    requires a.Advance? && a.t in w.txs ==> w.txs[a.t].pc != Commit
    ensures Next(h, w, a).db == w.db
  {
  }

  /** The committed rows change only at a commit, and then as one whole request: so the
      interleaved system only ever shows states of serial runs. */
  lemma {:induction false} OnlySerialStates(h: Hash, actions: seq<Action>, a: Action)
    ensures var w, w' := RunAll(h, actions), Next(h, RunAll(h, actions), a);
            || w'.db == w.db
            || (exists r :: Admissible(w.db, r) && w'.db == Serve(w.db, r))
  {
    EveryInterleavingIsValid(h, actions);
    var w := RunAll(h, actions);
    if a.Advance? && a.t in w.txs && w.txs[a.t].pc == Commit {
      CommitIsReady(h, w, a.t);
      CommitIsSerial(w.db, w.txs[a.t]);
    } else {
      OnlyCommitWrites(h, w, a);
    }
  }

  lemma {:induction false} RunGrows(dbs: seq<Db>, requests: seq<Request>, r: Request)
    requires Run(dbs, requests) && Admissible(dbs[|dbs| - 1], r)
    ensures Run(dbs + [Serve(dbs[|dbs| - 1], r)], requests + [r])
  {
  }

  /** The committed rows of every interleaving are those of a serial run from the empty tables. */
  lemma {:induction false} InterleavingIsSerial(h: Hash, actions: seq<Action>) returns (dbs: seq<Db>, requests: seq<Request>)
    ensures Run(dbs, requests) && dbs[|dbs| - 1] == RunAll(h, actions).db
  {
    if actions == [] {
      dbs, requests := [Db(map[], {})], [];
    } else {
      var before, a := actions[..|actions| - 1], actions[|actions| - 1];
      dbs, requests := InterleavingIsSerial(h, before);
      OnlySerialStates(h, before, a);
      if RunAll(h, actions).db != RunAll(h, before).db {
        var r :| Admissible(RunAll(h, before).db, r) && RunAll(h, actions).db == Serve(RunAll(h, before).db, r);
        RunGrows(dbs, requests, r);
        dbs, requests := dbs + [Serve(dbs[|dbs| - 1], r)], requests + [r];
      }
    }
  }

  // ----- Refusals -----

  /** What the whole request, run alone on these rows, would answer. */
  function SerialReply(db: Db, r: Request): Reply
    requires !r.DeclineRequest?
  {
    match r
    case CreateRequest(id, event, user, seatsTotal) => Create(db, id, event, user, seatsTotal).1
    case JoinRequest(carpool, user) => Join(db, carpool, user).1
    case LeaveRequest(carpool, user) => Leave(db, carpool, user).1
    case UpdateRequest(carpool, total) => Update(db, carpool, total).1
    case DeleteRequest(carpool) => Delete(db, carpool).1
  }

  lemma {:induction false} RefusedEarly(h: Hash, w: World, t: int)
    requires t in w.txs && Shape(w.txs[t]) && Knows(w.db, w.txs[t]) && t !in StepOf(h, w, t).txs
    requires w.txs[t].pc == LockRow
    ensures SerialReply(w.db, RequestOf(w.txs[t])).Err?
  {
  }

  lemma {:induction false} RefusedLater(h: Hash, w: World, t: int)
    requires t in w.txs && Shape(w.txs[t]) && Knows(w.db, w.txs[t]) && t !in StepOf(h, w, t).txs
    requires w.txs[t].pc != LockRow && w.txs[t].pc != Commit
    ensures SerialReply(w.db, RequestOf(w.txs[t])).Err? || (w.txs[t].pc == CheckEvent && !w.txs[t].op.writable)
  {
  }

  /** A transaction that ends without a commit, by a check of its own, is refused rightly: its whole
      request, run alone on the rows committed by then, would be refused as well. The one other
      reason is an event that takes no changes any more. */
  lemma {:induction false} RefusalIsSerial(h: Hash, actions: seq<Action>, t: int)
    requires var w := RunAll(h, actions);
             t in w.txs && w.txs[t].pc != Commit && t !in StepOf(h, w, t).txs
    ensures var w := RunAll(h, actions);
            var tx := w.txs[t];
            SerialReply(w.db, RequestOf(tx)).Err? || (tx.op.UpdateOp? && tx.pc == CheckEvent && !tx.op.writable)
  {
    EveryInterleavingIsValid(h, actions);
    var w := RunAll(h, actions);
    assert Shape(w.txs[t]) && Knows(w.db, w.txs[t]);
    if w.txs[t].pc == LockRow { RefusedEarly(h, w, t); } else { RefusedLater(h, w, t); }
  }

  /** The unique indexes never reject an insert and never make one wait: no committed row and no
      other transaction's uncommitted row has the same key. */
  lemma {:induction false} UniqueIndexesNeverFire(h: Hash, actions: seq<Action>, t: int)
    requires t in RunAll(h, actions).txs
    ensures var w := RunAll(h, actions);
            var tx := w.txs[t];
            tx.pc == InsertCarpool || tx.pc == InsertSeat ==>
              && tx.op.Advisory() && NoRole(w.db, tx.op.event, tx.op.user)
              && forall u :: u in w.txs && u != t && HoldsUser(w.txs[u]) ==>
                   (w.txs[u].op.event, w.txs[u].op.user) != (tx.op.event, tx.op.user)
  {
    EveryInterleavingIsValid(h, actions);
    var w := RunAll(h, actions);
    assert Shape(w.txs[t]) && Knows(w.db, w.txs[t]);
    if w.txs[t].op.Advisory() { RoleRows(w.db, w.txs[t].op.event, w.txs[t].op.user); }
  }

  /** When leaving decrements the counter, it is at least one: `GREATEST` never clamps. */
  lemma {:induction false} LeaveNeverClamps(h: Hash, actions: seq<Action>, t: int)
    requires t in RunAll(h, actions).txs
    ensures var tx := RunAll(h, actions).txs[t]; tx.pc == DropCount ==> 1 <= tx.row.seatsTaken
  {
    EveryInterleavingIsValid(h, actions);
    var w := RunAll(h, actions);
    var tx := w.txs[t];
    assert Shape(tx) && Knows(w.db, tx);
    if tx.pc == DropCount { FreesKeeps(w.db, Seat(tx.op.carpool, tx.op.event, tx.op.user)); }
  }
}
