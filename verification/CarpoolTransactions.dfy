/**
 * Any number of carpool requests running at once, statement by statement, under the advisory
 * lock per event and user and the row lock per carpool. Statements read committed rows; a
 * transaction's own writes become visible at commit; locks are held to the end. Database
 * connections are unlimited here; `CarpoolPool` limits them.
 */
module CarpoolTransactions {
  import opened Options
  import opened Carpools

  /** `writable` is what an update will be told when it asks whether the event still takes changes. */
  datatype Op =
    | CreateOp(event: int, user: int, seatsTotal: int)
    | JoinOp(event: int, user: int, carpool: int)
    | LeaveOp(event: int, user: int, carpool: int)
    | UpdateOp(carpool: int, total: Option<int>, writable: bool)
    | DeleteOp(carpool: int)
  {
    /** Create, join and leave take the advisory lock of the event and the user first. */
    predicate Advisory() { CreateOp? || JoinOp? || LeaveOp? }
  }

  /** The statement a transaction executes next. */
  datatype Pc =
    | LockUser | LockRow
    | CheckRole | InsertCarpool
    | CheckDriver | CheckRider | CheckJoined | TakeSeat | InsertSeat
    | DeleteSeat | DropCount
    | CheckEvent | WriteRow
    | Commit

  /** `row` is the transaction's own version of the carpool row, `id` the identifier it drew. */
  datatype Tx = Tx(op: Op, pc: Pc, row: Carpool, id: int)

  datatype World = World(
    db: Db, sequence: int, txs: map<int, Tx>, userLocks: map<int, int>, rowLocks: map<int, int>)

  datatype Action = Begin(t: int, op: Op) | Advance(t: int) | Rollback(t: int)

  /** The 64-bit hash of the lock name; distinct names may collide. */
  type Hash = (int, int) -> int

  function LockKey(h: Hash, op: Op): int
    requires op.Advisory()
  {
    h(op.event, op.user)
  }

  /** The carpool row that this transaction locks. */
  function RowOf(op: Op): int
    requires !op.CreateOp?
  {
    op.carpool
  }

  predicate HoldsUser(tx: Tx) { tx.op.Advisory() && tx.pc != LockUser }

  predicate HoldsRow(tx: Tx) { !tx.op.CreateOp? && tx.pc != LockUser && tx.pc != LockRow }

  // ----- Waiting -----

  /** `t` stands at a lock statement whose lock another transaction holds. */
  predicate Blocked(h: Hash, w: World, t: int)
    requires t in w.txs
  {
    var tx := w.txs[t];
    || (tx.pc == LockUser && tx.op.Advisory() && LockKey(h, tx.op) in w.userLocks)
    || (tx.pc == LockRow && !tx.op.CreateOp? && RowOf(tx.op) in w.rowLocks)
  }

  // ----- Steps -----

  /** Commit or roll back: the transaction ends and its locks go. */
  function Finish(w: World, db: Db, t: int): World {
    World(db, w.sequence, w.txs - {t},
          map k | k in w.userLocks && w.userLocks[k] != t :: w.userLocks[k],
          map c | c in w.rowLocks && w.rowLocks[c] != t :: w.rowLocks[c])
  }

  function Put(w: World, t: int, tx: Tx): World { w.(txs := w.txs[t := tx]) }

  /** What a committing transaction publishes. */
  function Publish(db: Db, tx: Tx): Db
    requires tx.op.LeaveOp? || tx.op.JoinOp? || tx.op.UpdateOp? || tx.op.CreateOp? || tx.op.DeleteOp?
  {
    match tx.op
    case CreateOp(_, _, _) => db.(carpools := db.carpools[tx.id := tx.row])
    case JoinOp(_, user, c) => Db(db.carpools[c := tx.row], db.seats + {Seat(c, tx.row.event, user)})
    case LeaveOp(_, user, c) => Db(db.carpools[c := tx.row], db.seats - {Seat(c, tx.row.event, user)})
    case UpdateOp(c, _, _) => db.(carpools := db.carpools[c := tx.row])
    case DeleteOp(c) => Drops(db, c)
  }

  const NoRow := Carpool(0, 0, 0, 0)

  /** Row reads that precede the transaction: the event of the carpool, or nothing to do. */
  predicate CanBegin(w: World, op: Op) {
    match op
    case CreateOp(_, _, seatsTotal) => 1 <= seatsTotal
    case JoinOp(event, _, c) => c in w.db.carpools && w.db.carpools[c].event == event
    case LeaveOp(event, _, c) => c in w.db.carpools && w.db.carpools[c].event == event
    case UpdateOp(_, _, _) => true
    case DeleteOp(c) => c in w.db.carpools
  }

  function StepOf(h: Hash, w: World, t: int): World
    requires t in w.txs
  {
    var tx := w.txs[t];
    var op := tx.op;
    match tx.pc
    case LockUser =>
      if !op.Advisory() then w
      else Put(w, t, tx.(pc := if op.CreateOp? then CheckRole else LockRow))
             .(userLocks := w.userLocks[LockKey(h, op) := t])
    case LockRow =>
      if op.CreateOp? then w
      else
        var c := RowOf(op);
        if c !in w.db.carpools then Finish(w, w.db, t)
        else
          var row := w.db.carpools[c];
          if op.JoinOp? && row.driver == op.user then Finish(w, w.db, t)
          else
            Put(w, t, tx.(row := row, pc := match op
              case JoinOp(_, _, _) => CheckDriver
              case LeaveOp(_, _, _) => DeleteSeat
              case UpdateOp(_, _, _) => CheckEvent
              case _ => Commit)).(rowLocks := w.rowLocks[c := t])
    case CheckRole =>
      if !op.CreateOp? then w
      else if (exists c :: c in w.db.carpools && Holds(w.db, op.event, op.user, Drives(c))) ||
              (exists s :: s in w.db.seats && s.event == op.event && s.user == op.user)
      then Finish(w, w.db, t)
      else Put(w, t, tx.(pc := InsertCarpool))
    case InsertCarpool =>
      if !op.CreateOp? then w
      else Put(w, t, tx.(pc := Commit, id := w.sequence, row := Carpool(op.event, op.user, op.seatsTotal, 0)))
             .(sequence := w.sequence + 1)
    case CheckDriver =>
      if !op.JoinOp? then w
      else if DrivesElsewhere(w.db, op.carpool, tx.row.event, op.user) then Finish(w, w.db, t)
      else Put(w, t, tx.(pc := CheckRider))
    case CheckRider =>
      if !op.JoinOp? then w
      else if RidesElsewhere(w.db, op.carpool, tx.row.event, op.user) then Finish(w, w.db, t)
      else Put(w, t, tx.(pc := CheckJoined))
    case CheckJoined =>
      if !op.JoinOp? then w
      else if Seat(op.carpool, tx.row.event, op.user) in w.db.seats then Finish(w, w.db, t)
      else Put(w, t, tx.(pc := TakeSeat))
    case TakeSeat =>
      if tx.row.seatsTaken >= tx.row.seatsTotal then Finish(w, w.db, t)
      else Put(w, t, tx.(pc := InsertSeat, row := tx.row.(seatsTaken := tx.row.seatsTaken + 1)))
    case InsertSeat => Put(w, t, tx.(pc := Commit))
    case DeleteSeat =>
      if !op.LeaveOp? then w
      else if Seat(op.carpool, tx.row.event, op.user) !in w.db.seats then Finish(w, w.db, t)
      else Put(w, t, tx.(pc := DropCount))
    case DropCount =>
      Put(w, t, tx.(pc := Commit, row := tx.row.(seatsTaken := Greatest(tx.row.seatsTaken - 1, 0))))
    case CheckEvent =>
      if !op.UpdateOp? then w
      else if !op.writable then Finish(w, w.db, t)
      else Put(w, t, tx.(pc := WriteRow))
    case WriteRow =>
      if !op.UpdateOp? then w
      else
        var total := if op.total.Some? then op.total.value else tx.row.seatsTotal;
        if total < 1 || total < tx.row.seatsTaken then Finish(w, w.db, t)
        else Put(w, t, tx.(pc := Commit, row := tx.row.(seatsTotal := total)))
    case Commit => Finish(w, Publish(w.db, tx), t)
  }

  /** One action of one transaction; an action that is not possible changes nothing. */
  function Next(h: Hash, w: World, a: Action): World {
    match a
    case Begin(t, op) =>
      if t in w.txs || !CanBegin(w, op) then w
      else Put(w, t, Tx(op, if op.Advisory() then LockUser else LockRow, NoRow, 0))
    case Advance(t) => if t !in w.txs || Blocked(h, w, t) then w else StepOf(h, w, t)
    case Rollback(t) => if t !in w.txs then w else Finish(w, w.db, t)
  }

  const Start := World(Db(map[], {}), 1, map[], map[], map[])

  /** Every interleaving is a list of actions. */
  function RunAll(h: Hash, actions: seq<Action>): World {
    if actions == [] then Start
    else Next(h, RunAll(h, actions[..|actions| - 1]), actions[|actions| - 1])
  }

  // ----- What every state satisfies -----

  ghost predicate Shape(tx: Tx) {
    match tx.op
    case CreateOp(_, _, seatsTotal) => 1 <= seatsTotal && tx.pc in {LockUser, CheckRole, InsertCarpool, Commit}
    case JoinOp(_, _, _) => tx.pc in {LockUser, LockRow, CheckDriver, CheckRider, CheckJoined, TakeSeat, InsertSeat, Commit}
    case LeaveOp(_, _, _) => tx.pc in {LockUser, LockRow, DeleteSeat, DropCount, Commit}
    case UpdateOp(_, _, _) => tx.pc in {LockRow, CheckEvent, WriteRow, Commit}
    case DeleteOp(_) => tx.pc in {LockRow, Commit}
  }

  /** The locks are held by exactly the transactions that are past their lock statement. */
  ghost predicate LocksMatch(h: Hash, w: World) {
    && (forall k :: k in w.userLocks ==>
          w.userLocks[k] in w.txs && HoldsUser(w.txs[w.userLocks[k]]) && LockKey(h, w.txs[w.userLocks[k]].op) == k)
    && (forall t :: t in w.txs && HoldsUser(w.txs[t]) ==>
          LockKey(h, w.txs[t].op) in w.userLocks && w.userLocks[LockKey(h, w.txs[t].op)] == t)
    && (forall c :: c in w.rowLocks ==>
          w.rowLocks[c] in w.txs && HoldsRow(w.txs[w.rowLocks[c]]) && RowOf(w.txs[w.rowLocks[c]].op) == c)
    && (forall t :: t in w.txs && HoldsRow(w.txs[t]) ==>
          RowOf(w.txs[t].op) in w.rowLocks && w.rowLocks[RowOf(w.txs[t].op)] == t)
  }

  ghost predicate NoRole(db: Db, event: int, user: int) {
    forall r :: !Holds(db, event, user, r)
  }

  /** What a transaction has learnt still holds of the committed rows. */
  ghost predicate Knows(db: Db, tx: Tx) {
    match tx.op
    case CreateOp(event, user, seatsTotal) =>
      && (tx.pc in {InsertCarpool, Commit} ==> NoRole(db, event, user))
      && (tx.pc == Commit ==> tx.row == Carpool(event, user, seatsTotal, 0))
    case JoinOp(event, user, c) =>
      && (c in db.carpools ==> db.carpools[c].event == event)
      && (HoldsRow(tx) ==> c in db.carpools && db.carpools[c].driver != user)
      && (tx.pc in {CheckDriver, CheckRider, CheckJoined, TakeSeat} ==> tx.row == db.carpools[c])
      && (tx.pc in {InsertSeat, Commit} ==>
            && db.carpools[c].seatsTaken < db.carpools[c].seatsTotal
            && tx.row == db.carpools[c].(seatsTaken := db.carpools[c].seatsTaken + 1))
      && (tx.pc in {CheckRider, CheckJoined, TakeSeat, InsertSeat, Commit} ==> !DrivesElsewhere(db, c, event, user))
      && (tx.pc in {CheckJoined, TakeSeat, InsertSeat, Commit} ==> !RidesElsewhere(db, c, event, user))
      && (tx.pc in {TakeSeat, InsertSeat, Commit} ==> Seat(c, event, user) !in db.seats)
    case LeaveOp(event, user, c) =>
      && (c in db.carpools ==> db.carpools[c].event == event)
      && (HoldsRow(tx) ==> c in db.carpools)
      && (tx.pc in {DeleteSeat, DropCount} ==> tx.row == db.carpools[c])
      && (tx.pc in {DropCount, Commit} ==> Seat(c, event, user) in db.seats)
      && (tx.pc == Commit ==>
            tx.row == db.carpools[c].(seatsTaken := Greatest(db.carpools[c].seatsTaken - 1, 0)))
    case UpdateOp(c, total, writable) =>
      && (HoldsRow(tx) ==> c in db.carpools)
      && (tx.pc in {CheckEvent, WriteRow} ==> tx.row == db.carpools[c])
      && (tx.pc in {WriteRow, Commit} ==> writable)
      && (tx.pc == Commit ==> Update(db, c, total).1.Ok? && tx.row == Update(db, c, total).0.carpools[c])
    case DeleteOp(c) => HoldsRow(tx) ==> c in db.carpools
  }

  ghost predicate Drew(tx: Tx) { tx.op.CreateOp? && tx.pc == Commit }

  /** Identifiers come from the sequence, so none is used twice. */
  ghost predicate FreshIds(w: World) {
    && (forall c :: c in w.db.carpools ==> c < w.sequence)
    && (forall t :: t in w.txs && (w.txs[t].op.JoinOp? || w.txs[t].op.LeaveOp?) ==> w.txs[t].op.carpool < w.sequence)
    && (forall t :: t in w.txs && Drew(w.txs[t]) ==> w.txs[t].id < w.sequence && w.txs[t].id !in w.db.carpools)
    && (forall t, u :: t in w.txs && u in w.txs && Drew(w.txs[t]) && Drew(w.txs[u]) && t != u ==>
          w.txs[t].id != w.txs[u].id)
    && (forall t, u :: t in w.txs && u in w.txs && Drew(w.txs[t]) && (w.txs[u].op.JoinOp? || w.txs[u].op.LeaveOp?) ==>
          w.txs[t].id != w.txs[u].op.carpool)
  }

  ghost predicate Inv(h: Hash, w: World) {
    && Valid(w.db)
    && LocksMatch(h, w)
    && FreshIds(w)
    && (forall t :: t in w.txs ==> Shape(w.txs[t]) && Knows(w.db, w.txs[t]))
  }

  // ----- A commit is the whole request executed at once -----

  /** The serial request that a committing transaction amounts to. */
  function RequestOf(tx: Tx): Request {
    match tx.op
    case CreateOp(event, user, seatsTotal) => CreateRequest(tx.id, event, user, seatsTotal)
    case JoinOp(_, user, c) => JoinRequest(c, user)
    case LeaveOp(_, user, c) => LeaveRequest(c, user)
    case UpdateOp(c, total, _) => UpdateRequest(c, total)
    case DeleteOp(c) => DeleteRequest(c)
  }

  /** What holds of a transaction that stands at its commit. */
  ghost predicate Ready(db: Db, tx: Tx) {
    Valid(db) && tx.pc == Commit && Shape(tx) && Knows(db, tx) && (tx.op.CreateOp? ==> tx.id !in db.carpools)
  }

  lemma {:induction false} CommitIsReady(h: Hash, w: World, t: int)
    requires Inv(h, w) && t in w.txs && w.txs[t].pc == Commit
    ensures Ready(w.db, w.txs[t])
  {
    assert Shape(w.txs[t]) && Knows(w.db, w.txs[t]);
    assert Drew(w.txs[t]) <==> w.txs[t].op.CreateOp?;
  }

  /** What is published at commit is what the whole request, run alone on the rows committed by
      then, would have produced; and that request would have succeeded. A changed carpool's event still
      took changes. */
  lemma {:induction false} CommitIsSerial(db: Db, tx: Tx)
    requires Ready(db, tx)
    ensures Admissible(db, RequestOf(tx)) && Publish(db, tx) == Serve(db, RequestOf(tx))
    ensures match tx.op
            case CreateOp(event, user, seatsTotal) => Create(db, tx.id, event, user, seatsTotal).1.Ok?
            case JoinOp(_, user, c) => Join(db, c, user).1.Ok?
            case LeaveOp(_, user, c) => Leave(db, c, user).1.Ok?
            case UpdateOp(c, total, writable) => Update(db, c, total).1.Ok? && writable
            case DeleteOp(c) => Delete(db, c).1.Ok?
  {
    match tx.op
    case CreateOp(event, user, seatsTotal) => RoleRows(db, event, user);
    case _ =>
  }
}
