/** A carpool request that runs while no other is open does what the serial request does. */
module CarpoolAlone {
  import opened Options
  import opened Carpools
  import opened CarpoolTransactions
  import opened CarpoolSteps
  import opened CarpoolSerial
  import opened CarpoolProgress

  /** The serial request that an operation amounts to when the next identifier is `id`. */
  function RequestFor(op: Op, id: int): Request {
    match op
    case CreateOp(event, user, seatsTotal) => CreateRequest(id, event, user, seatsTotal)
    case JoinOp(_, user, c) => JoinRequest(c, user)
    case LeaveOp(_, user, c) => LeaveRequest(c, user)
    case UpdateOp(c, total, _) => UpdateRequest(c, total)
    case DeleteOp(c) => DeleteRequest(c)
  }

  /** What the handler read before its transaction: the event of the carpool is the carpool's event, and
      it takes changes. */
  predicate ReadBefore(db: Db, op: Op) {
    match op
    case JoinOp(event, _, c) => c in db.carpools ==> db.carpools[c].event == event
    case LeaveOp(event, _, c) => c in db.carpools ==> db.carpools[c].event == event
    case UpdateOp(_, _, writable) => writable
    case _ => true
  }

  /** Only `t` is open, on the rows `db`, and will do `r`. */
  ghost predicate Alone(w: World, t: int, db: Db, r: Request) {
    && w.db == db && w.txs.Keys == {t}
    && r == RequestFor(w.txs[t].op, if w.txs[t].pc == Commit then w.txs[t].id else w.sequence)
    && (w.txs[t].op.UpdateOp? ==> w.txs[t].op.writable)
  }

  lemma {:induction false} AloneIsFree(h: Hash, w: World, t: int)
    requires LocksMatch(h, w) && w.txs.Keys == {t}
    ensures !Blocked(h, w, t)
  {
  }

  lemma {:induction false} RefusedKeeps(db: Db, r: Request)
    requires !r.DeclineRequest? && SerialReply(db, r).Err?
    ensures Serve(db, r) == db
  {
  }

  lemma {:induction false} RefusedAnyId(db: Db, op: Op, id: int, other: int)
    requires SerialReply(db, RequestFor(op, id)).Err?
    ensures SerialReply(db, RequestFor(op, other)).Err?
  {
  }

  /** One step alone ends with the serial result, or goes on alone. */
  lemma {:induction false} AloneStep(h: Hash, actions: seq<Action>, t: int, db: Db, r: Request)
    requires Alone(RunAll(h, actions), t, db, r)
    ensures var w, w' := RunAll(h, actions), RunAll(h, actions + [Advance(t)]);
            if t in w'.txs then Alone(w', t, db, r) && StepsLeft(w'.txs[t]) < StepsLeft(w.txs[t])
            else w'.txs == map[] && w'.db == Serve(db, r)
  {
    var w := RunAll(h, actions);
    EveryInterleavingIsValid(h, actions);
    assert Shape(w.txs[t]) && Knows(w.db, w.txs[t]);
    AloneIsFree(h, w, t);
    assert (actions + [Advance(t)])[..|actions|] == actions;
    StepAdvances(h, w, t);
    if t !in StepOf(h, w, t).txs {
      AloneEnds(h, actions, t, db, r);
    } else {
      AloneGoesOn(h, w, t, db, r);
    }
  }

  lemma {:induction false} AloneEnds(h: Hash, actions: seq<Action>, t: int, db: Db, r: Request)
    requires Alone(RunAll(h, actions), t, db, r) && t !in StepOf(h, RunAll(h, actions), t).txs
    ensures StepOf(h, RunAll(h, actions), t).db == Serve(db, r)
  {
    var w := RunAll(h, actions);
    var tx := w.txs[t];
    if tx.pc == Commit {
      EveryInterleavingIsValid(h, actions);
      CommitIsReady(h, w, t);
      CommitIsSerial(w.db, tx);
    } else {
      RefusalIsSerial(h, actions, t);
      RefusedAnyId(db, tx.op, tx.id, w.sequence);
      RefusedKeeps(db, r);
      OnlyCommitWrites(h, w, Advance(t));
      EveryInterleavingIsValid(h, actions);
      AloneIsFree(h, w, t);
    }
  }

  lemma {:induction false} AloneGoesOn(h: Hash, w: World, t: int, db: Db, r: Request)
    requires Alone(w, t, db, r) && Shape(w.txs[t]) && t in StepOf(h, w, t).txs && Advances(w, StepOf(h, w, t).txs, t)
    ensures Alone(StepOf(h, w, t), t, db, r)
  {
    if w.txs[t].op.CreateOp? { CreateGoesOn(h, w, t, db, r); }
  }

  lemma {:induction false} CreateGoesOn(h: Hash, w: World, t: int, db: Db, r: Request)
    requires Alone(w, t, db, r) && Shape(w.txs[t]) && t in StepOf(h, w, t).txs && w.txs[t].op.CreateOp?
    ensures Alone(StepOf(h, w, t), t, db, r)
  {
  }

  lemma {:induction false} AloneEndsServed(h: Hash, actions: seq<Action>, t: int, db: Db, r: Request) returns (more: seq<Action>)
    requires Alone(RunAll(h, actions), t, db, r)
    ensures RunAll(h, actions + more).txs == map[] && RunAll(h, actions + more).db == Serve(db, r)
    decreases StepsLeft(RunAll(h, actions).txs[t])
  {
    AloneStep(h, actions, t, db, r);
    if t in RunAll(h, actions + [Advance(t)]).txs {
      var rest := AloneEndsServed(h, actions + [Advance(t)], t, db, r);
      more := [Advance(t)] + rest;
      assert actions + more == actions + [Advance(t)] + rest;
    } else {
      more := [Advance(t)];
    }
  }

  lemma {:induction false} NotBegun(w: World, op: Op)
    requires !CanBegin(w, op) && ReadBefore(w.db, op)
    ensures Serve(w.db, RequestFor(op, w.sequence)) == w.db
  {
  }

  /** When no transaction is open, every request can be run to its end, and leaves the committed rows that
      the serial request leaves: so the checks and locks refuse nothing that they need not. */
  lemma {:induction false} AloneIsServed(h: Hash, actions: seq<Action>, op: Op) returns (more: seq<Action>)
    requires RunAll(h, actions).txs == map[] && ReadBefore(RunAll(h, actions).db, op)
    ensures var w, w' := RunAll(h, actions), RunAll(h, actions + more);
            w'.txs == map[] && w'.db == Serve(w.db, RequestFor(op, w.sequence))
  {
    var w := RunAll(h, actions);
    if CanBegin(w, op) {
      var begun := actions + [Begin(0, op)];
      assert begun[..|actions|] == actions;
      var rest := AloneEndsServed(h, begun, 0, w.db, RequestFor(op, w.sequence));
      more := [Begin(0, op)] + rest;
      assert actions + more == begun + rest;
    } else {
      more := [];
      assert actions + more == actions;
      NotBegun(w, op);
    }
  }
}
