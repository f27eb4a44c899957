/** Carpools of events: the driver's row, its passengers' rows and the redundant seat counter. */
module Carpools {
  import opened Options
  import Sets

  datatype Carpool = Carpool(event: int, driver: int, seatsTotal: int, seatsTaken: int)

  /** A row of `carpool_passengers`. */
  datatype Seat = Seat(carpool: int, event: int, user: int)

  datatype Db = Db(carpools: map<int, Carpool>, seats: set<Seat>)

  datatype Error =
    | InvalidPayload | CarpoolNotFound | AlreadyInCarpool | CannotJoinOwn | DrivesAnother
    | RidesAnother | AlreadyJoined | CarpoolFull | NotJoined

  type Reply = Result<int, Error>

  /** How a user takes part in an event. */
  datatype Role = Drives(carpool: int) | Rides(carpool: int)

  predicate Holds(db: Db, event: int, user: int, role: Role) {
    match role
    case Drives(c) => c in db.carpools && db.carpools[c].event == event && db.carpools[c].driver == user
    case Rides(c) => Seat(c, event, user) in db.seats
  }

  function SeatsIn(db: Db, carpool: int): set<Seat> {
    set s | s in db.seats && s.carpool == carpool
  }

  // ----- What every operation keeps -----

  ghost predicate SeatsCounted(db: Db) {
    forall c :: c in db.carpools ==>
      var p := db.carpools[c];
      1 <= p.seatsTotal && p.seatsTaken == |SeatsIn(db, c)| && p.seatsTaken <= p.seatsTotal
  }

  ghost predicate SeatsBelong(db: Db) {
    forall s :: s in db.seats ==>
      s.carpool in db.carpools && db.carpools[s.carpool].event == s.event && db.carpools[s.carpool].driver != s.user
  }

  /** In every event a user drives at most one carpool or rides in at most one, never both. */
  ghost predicate OneRole(db: Db) {
    forall event, user, r1, r2 :: Holds(db, event, user, r1) && Holds(db, event, user, r2) ==> r1 == r2
  }

  ghost predicate Valid(db: Db) {
    SeatsCounted(db) && SeatsBelong(db) && OneRole(db)
  }

  // ----- Row updates -----

  function Takes(db: Db, s: Seat): Db
    requires s.carpool in db.carpools
  {
    var p := db.carpools[s.carpool];
    Db(db.carpools[s.carpool := p.(seatsTaken := p.seatsTaken + 1)], db.seats + {s})
  }

  function Greatest(a: int, b: int): int { if a >= b then a else b }

  function Frees(db: Db, s: Seat): Db
    requires s.carpool in db.carpools
  {
    var p := db.carpools[s.carpool];
    Db(db.carpools[s.carpool := p.(seatsTaken := Greatest(p.seatsTaken - 1, 0))], db.seats - {s})
  }

  /** Deleting a carpool row deletes its passenger rows by cascade. */
  function Drops(db: Db, carpool: int): Db {
    Db(db.carpools - {carpool}, set s | s in db.seats && s.carpool != carpool)
  }

  // ----- The handlers, each as one transaction -----

  /** `id` is the fresh identifier drawn from the sequence. */
  function Create(db: Db, id: int, event: int, user: int, seatsTotal: int): (Db, Reply) {
    if seatsTotal < 1 then (db, Err(InvalidPayload))
    else if exists c :: c in db.carpools && Holds(db, event, user, Drives(c)) then (db, Err(AlreadyInCarpool))
    else if exists s :: s in db.seats && s.event == event && s.user == user then (db, Err(AlreadyInCarpool))
    else (db.(carpools := db.carpools[id := Carpool(event, user, seatsTotal, 0)]), Ok(id))
  }

  predicate DrivesElsewhere(db: Db, carpool: int, event: int, user: int) {
    exists c :: c in db.carpools && c != carpool && Holds(db, event, user, Drives(c))
  }

  predicate RidesElsewhere(db: Db, carpool: int, event: int, user: int) {
    exists s :: s in db.seats && s.event == event && s.user == user && s.carpool != carpool
  }

  function Join(db: Db, carpool: int, user: int): (Db, Reply) {
    if carpool !in db.carpools then (db, Err(CarpoolNotFound))
    else
      var p := db.carpools[carpool];
      if p.driver == user then (db, Err(CannotJoinOwn))
      else if DrivesElsewhere(db, carpool, p.event, user) then (db, Err(DrivesAnother))
      else if RidesElsewhere(db, carpool, p.event, user) then (db, Err(RidesAnother))
      else if Seat(carpool, p.event, user) in db.seats then (db, Err(AlreadyJoined))
      else if p.seatsTaken >= p.seatsTotal then (db, Err(CarpoolFull))
      else (Takes(db, Seat(carpool, p.event, user)), Ok(p.seatsTaken + 1))
  }

  function Leave(db: Db, carpool: int, user: int): (Db, Reply) {
    if carpool !in db.carpools then (db, Err(CarpoolNotFound))
    else
      var s := Seat(carpool, db.carpools[carpool].event, user);
      if s !in db.seats then (db, Err(NotJoined))
      else (Frees(db, s), Ok(Frees(db, s).carpools[carpool].seatsTaken))
  }

  function Update(db: Db, carpool: int, seatsTotal: Option<int>): (Db, Reply) {
    if carpool !in db.carpools then (db, Err(CarpoolNotFound))
    else
      var p := db.carpools[carpool];
      var total := if seatsTotal.Some? then seatsTotal.value else p.seatsTotal;
      if total < 1 || total < p.seatsTaken then (db, Err(InvalidPayload))
      else (db.(carpools := db.carpools[carpool := p.(seatsTotal := total)]), Ok(total))
  }

  function Delete(db: Db, carpool: int): (Db, Reply) {
    if carpool !in db.carpools then (db, Err(CarpoolNotFound)) else (Drops(db, carpool), Ok(carpool))
  }

  /** Declining an invitation: each lookup fetches at most one row, `drives` and `rides`. */
  function Decline(db: Db, event: int, user: int, drives: Option<int>, rides: Option<int>): Db
    requires drives.Some? ==> Holds(db, event, user, Drives(drives.value))
  {
    var db1 := if drives.Some? then Drops(db, drives.value) else db;
    if rides.Some? && rides.value in db1.carpools then Frees(db1, Seat(rides.value, event, user)) else db1
  }

  /** `fetch_optional`: some matching row if there is one. */
  ghost predicate Fetches(db: Db, event: int, user: int, drives: Option<int>, rides: Option<int>) {
    && (match drives
        case Some(c) => Holds(db, event, user, Drives(c))
        case None => forall c :: !Holds(db, event, user, Drives(c)))
    && var db1 := if drives.Some? then Drops(db, drives.value) else db;
       match rides
       case Some(c) => Holds(db1, event, user, Rides(c))
       case None => forall c :: !Holds(db1, event, user, Rides(c))
  }

  // ----- Preservation -----

  lemma {:induction false} TakenSeats(db: Db, s: Seat, c: int)
    requires s.carpool in db.carpools && s !in db.seats
    ensures |SeatsIn(Takes(db, s), c)| == |SeatsIn(db, c)| + if c == s.carpool then 1 else 0
  {
    var db' := Takes(db, s);
    if c == s.carpool {
      assert SeatsIn(db', c) == SeatsIn(db, c) + {s};
    } else {
      assert SeatsIn(db', c) == SeatsIn(db, c);
    }
  }

  lemma {:induction false} TakesCounts(db: Db, s: Seat)
    requires SeatsCounted(db) && s.carpool in db.carpools && s !in db.seats
    requires db.carpools[s.carpool].seatsTaken < db.carpools[s.carpool].seatsTotal
    ensures SeatsCounted(Takes(db, s))
  {
    var db' := Takes(db, s);
    forall c | c in db'.carpools ensures |SeatsIn(db', c)| == |SeatsIn(db, c)| + if c == s.carpool then 1 else 0 {
      TakenSeats(db, s, c);
    }
  }

  lemma {:induction false} TakesKeeps(db: Db, s: Seat)
    requires Valid(db) && s.carpool in db.carpools && s !in db.seats
    requires db.carpools[s.carpool].event == s.event && db.carpools[s.carpool].driver != s.user
    requires db.carpools[s.carpool].seatsTaken < db.carpools[s.carpool].seatsTotal
    requires forall r :: !Holds(db, s.event, s.user, r)
    ensures Valid(Takes(db, s))
  {
    TakesCounts(db, s);
    var db' := Takes(db, s);
    assert forall e, u, r :: Holds(db', e, u, r) ==>
             Holds(db, e, u, r) || (r == Rides(s.carpool) && e == s.event && u == s.user);
  }

  /** Freeing an occupied seat never clamps the counter. */
  lemma {:induction false} FreesKeeps(db: Db, s: Seat)
    requires Valid(db) && s in db.seats
    ensures 1 <= db.carpools[s.carpool].seatsTaken
    ensures Valid(Frees(db, s))
  {
    var db' := Frees(db, s);
    assert s in SeatsIn(db, s.carpool);
    forall c | c in db'.carpools ensures SeatsIn(db', c) == SeatsIn(db, c) - {s} {}
    forall event, user, r1, r2 | Holds(db', event, user, r1) && Holds(db', event, user, r2) ensures r1 == r2 {
      assert Holds(db, event, user, r1) && Holds(db, event, user, r2);
    }
  }

  lemma {:induction false} DropsKeeps(db: Db, carpool: int)
    requires Valid(db)
    ensures Valid(Drops(db, carpool))
  {
    var db' := Drops(db, carpool);
    forall c | c in db'.carpools ensures SeatsIn(db', c) == SeatsIn(db, c) {}
    forall event, user, r1, r2 | Holds(db', event, user, r1) && Holds(db', event, user, r2) ensures r1 == r2 {
      assert Holds(db, event, user, r1) && Holds(db, event, user, r2);
    }
  }

  lemma {:induction false} CreateKeeps(db: Db, id: int, event: int, user: int, seatsTotal: int)
    requires Valid(db) && id !in db.carpools
    ensures Valid(Create(db, id, event, user, seatsTotal).0)
    ensures Create(db, id, event, user, seatsTotal).1.Ok? <==> 1 <= seatsTotal && forall r :: !Holds(db, event, user, r)
  {
    var (db', reply) := Create(db, id, event, user, seatsTotal);
    RoleRows(db, event, user);
    if reply.Ok? {
      assert SeatsIn(db, id) == {};
      forall c | c in db'.carpools ensures SeatsIn(db', c) == SeatsIn(db, c) {}
      assert forall e, u, r :: Holds(db', e, u, r) ==> Holds(db, e, u, r) || (r == Drives(id) && e == event && u == user);
    }
  }

  /** A user without a role is one with neither a carpool row nor a passenger row in the event. */
  lemma {:induction false} RoleRows(db: Db, event: int, user: int)
    ensures (forall r :: !Holds(db, event, user, r)) <==>
            && (forall c :: c in db.carpools ==> !Holds(db, event, user, Drives(c)))
            && (forall s :: s in db.seats ==> !(s.event == event && s.user == user))
  {
    assert forall s :: s in db.seats && s.event == event && s.user == user ==>
             s == Seat(s.carpool, event, user) && Holds(db, event, user, Rides(s.carpool));
    assert forall r :: Holds(db, event, user, r) ==> match r
             case Drives(c) => c in db.carpools && Holds(db, event, user, Drives(c))
             case Rides(c) => Seat(c, event, user) in db.seats;
  }

  /** Joining succeeds exactly for a user without a role when a seat is free. */
  lemma {:induction false} JoinKeeps(db: Db, carpool: int, user: int)
    requires Valid(db)
    ensures Valid(Join(db, carpool, user).0)
    ensures Join(db, carpool, user).1.Ok? <==>
            && carpool in db.carpools
            && (forall r :: !Holds(db, db.carpools[carpool].event, user, r))
            && |SeatsIn(db, carpool)| < db.carpools[carpool].seatsTotal
    ensures Join(db, carpool, user).1.Ok? ==>
            Holds(Join(db, carpool, user).0, db.carpools[carpool].event, user, Rides(carpool))
  {
    if carpool in db.carpools {
      var p := db.carpools[carpool];
      RoleRows(db, p.event, user);
      assert Holds(db, p.event, user, Drives(carpool)) <==> p.driver == user;
      if Join(db, carpool, user).1.Ok? {
        TakesKeeps(db, Seat(carpool, p.event, user));
      }
    }
  }

  lemma {:induction false} LeaveKeeps(db: Db, carpool: int, user: int)
    requires Valid(db)
    ensures Valid(Leave(db, carpool, user).0)
  {
    if Leave(db, carpool, user).1.Ok? {
      FreesKeeps(db, Seat(carpool, db.carpools[carpool].event, user));
    }
  }

  lemma {:induction false} UpdateKeeps(db: Db, carpool: int, seatsTotal: Option<int>)
    requires Valid(db)
    ensures Valid(Update(db, carpool, seatsTotal).0)
  {
    var (db', reply) := Update(db, carpool, seatsTotal);
    if reply.Ok? {
      forall c | c in db'.carpools ensures SeatsIn(db', c) == SeatsIn(db, c) {}
      forall e, u, r1, r2 | Holds(db', e, u, r1) && Holds(db', e, u, r2) ensures r1 == r2 {
        assert Holds(db, e, u, r1) && Holds(db, e, u, r2);
      }
    }
  }

  /** Leaving undoes joining. */
  lemma {:induction false} LeaveUndoesJoin(db: Db, carpool: int, user: int)
    requires Valid(db) && Join(db, carpool, user).1.Ok?
    ensures Leave(Join(db, carpool, user).0, carpool, user).0 == db
  {
    var p := db.carpools[carpool];
    var db1 := Join(db, carpool, user).0;
    var db2 := Leave(db1, carpool, user).0;
    assert db2.carpools == db.carpools;
    assert db2.seats == db.seats;
  }

  /** After a decline the user has no role left in the event, although each lookup returns one
      row; nobody else loses a role except the passengers of the deleted carpool. */
  lemma {:induction false} DeclineReleasesEveryRole(db: Db, event: int, user: int, drives: Option<int>, rides: Option<int>)
    requires Valid(db) && Fetches(db, event, user, drives, rides)
    ensures var db' := Decline(db, event, user, drives, rides);
            && Valid(db')
            && (forall r :: !Holds(db', event, user, r))
            && (forall e, u, r :: (e, u) != (event, user) ==>
                  (Holds(db', e, u, r) <==> Holds(db, e, u, r) && !(drives.Some? && r.carpool == drives.value)))
  {
    var db1 := if drives.Some? then Drops(db, drives.value) else db;
    if drives.Some? { DropsKeeps(db, drives.value); }
    var db' := Decline(db, event, user, drives, rides);
    assert forall e, u, r :: Holds(db1, e, u, r) <==>
             Holds(db, e, u, r) && !(drives.Some? && r.carpool == drives.value);
    if rides.Some? {
      FreesKeeps(db1, Seat(rides.value, event, user));
      assert Holds(db1, event, user, Rides(rides.value));
      assert forall e, u, r :: Holds(db', e, u, r) <==>
               Holds(db1, e, u, r) && !(r == Rides(rides.value) && e == event && u == user);
    }
    assert forall r :: Holds(db', event, user, r) ==>
             Holds(db1, event, user, r) && (r == Drives(r.carpool) || r == Rides(r.carpool));
  }

  // ----- Runs of whole transactions -----

  datatype Request =
    | CreateRequest(id: int, event: int, user: int, seatsTotal: int)
    | JoinRequest(carpool: int, user: int)
    | LeaveRequest(carpool: int, user: int)
    | UpdateRequest(carpool: int, total: Option<int>)
    | DeleteRequest(carpool: int)
    | DeclineRequest(event: int, user: int, drives: Option<int>, rides: Option<int>)

  /** What the database guarantees of a request's parameters at the moment it is served. */
  ghost predicate Admissible(db: Db, r: Request) {
    match r
    case CreateRequest(id, _, _, _) => id !in db.carpools
    case DeclineRequest(event, user, drives, rides) => Fetches(db, event, user, drives, rides)
    case _ => true
  }

  function Serve(db: Db, r: Request): Db
    requires r.DeclineRequest? && r.drives.Some? ==> Holds(db, r.event, r.user, Drives(r.drives.value))
  {
    match r
    case CreateRequest(id, event, user, seatsTotal) => Create(db, id, event, user, seatsTotal).0
    case JoinRequest(carpool, user) => Join(db, carpool, user).0
    case LeaveRequest(carpool, user) => Leave(db, carpool, user).0
    case UpdateRequest(carpool, total) => Update(db, carpool, total).0
    case DeleteRequest(carpool) => Delete(db, carpool).0
    case DeclineRequest(event, user, drives, rides) => Decline(db, event, user, drives, rides)
  }

  lemma {:induction false} ServeKeeps(db: Db, r: Request)
    requires Valid(db) && Admissible(db, r)
    ensures Valid(Serve(db, r))
  {
    match r
    case CreateRequest(id, event, user, seatsTotal) => CreateKeeps(db, id, event, user, seatsTotal);
    case JoinRequest(carpool, user) => JoinKeeps(db, carpool, user);
    case LeaveRequest(carpool, user) => LeaveKeeps(db, carpool, user);
    case UpdateRequest(carpool, total) => UpdateKeeps(db, carpool, total);
    case DeleteRequest(carpool) => DropsKeeps(db, carpool);
    case DeclineRequest(event, user, drives, rides) => DeclineReleasesEveryRole(db, event, user, drives, rides);
  }

  /** A run of transactions from the empty tables. */
  ghost predicate Run(dbs: seq<Db>, requests: seq<Request>) {
    && |dbs| == |requests| + 1 && dbs[0] == Db(map[], {})
    && forall i :: 0 <= i < |requests| ==> Admissible(dbs[i], requests[i]) && dbs[i + 1] == Serve(dbs[i], requests[i])
  }

  /** Seat accounting and the one-role rule hold after every transaction of every serial run. */
  lemma {:induction false} SerialRunsAreValid(dbs: seq<Db>, requests: seq<Request>, n: nat)
    requires Run(dbs, requests) && n < |dbs|
    ensures Valid(dbs[n])
  {
    if n != 0 {
      SerialRunsAreValid(dbs, requests, n - 1);
      ServeKeeps(dbs[n - 1], requests[n - 1]);
    }
  }

  // ----- Account deletion -----

  /** Deleting a user cascades to the carpools the user drives, with their passenger rows, and to
      the user's own passenger rows; the counters of other carpools are not touched. */
  function DropsUser(db: Db, user: int): Db {
    Db(map c | c in db.carpools && db.carpools[c].driver != user :: db.carpools[c],
       set s | s in db.seats && s.user != user && (s.carpool in db.carpools ==> db.carpools[s.carpool].driver != user))
  }

  /** The seats that remain in a carpool are those of the other users. */
  lemma {:induction false} RemainingSeats(db: Db, user: int, c: int)
    requires Valid(db) && c in DropsUser(db, user).carpools
    ensures SeatsIn(DropsUser(db, user), c) == set s | s in SeatsIn(db, c) && s.user != user
  {
  }

  /** So the counters still match after an account is deleted exactly when the user rode nowhere. */
  lemma {:induction false} AccountDeletionCountsIff(db: Db, user: int)
    requires Valid(db)
    ensures SeatsCounted(DropsUser(db, user)) <==> forall s: Seat :: s in db.seats ==> s.user != user
  {
    var db' := DropsUser(db, user);
    if s: Seat :| s in db.seats && s.user == user {
      var c := s.carpool;
      RemainingSeats(db, user, c);
      assert s in SeatsIn(db, c) && s !in SeatsIn(db', c) && SeatsIn(db', c) <= SeatsIn(db, c);
      Sets.SubsetSize(SeatsIn(db', c), SeatsIn(db, c) - {s});
      assert db'.carpools[c].seatsTaken > |SeatsIn(db', c)|;
    } else {
      forall c | c in db'.carpools ensures SeatsIn(db', c) == SeatsIn(db, c) { RemainingSeats(db, user, c); }
    }
  }

  // ----- The tables, updated statement by statement -----

  class Tables {
    var carpools: map<int, Carpool>
    var seats: set<Seat>
    var sequence: int

    function State(): Db
      reads this
    {
      Db(carpools, seats)
    }

    ghost predicate Consistent()
      reads this
    {
      Valid(State()) && forall c :: c in carpools ==> c < sequence
    }

    constructor ()
      ensures Consistent() && State() == Db(map[], {})
    {
      carpools, seats, sequence := map[], {}, 1;
    }

    method CreateCarpool(event: int, user: int, seatsTotal: int) returns (reply: Reply)
      requires Consistent()
      modifies this
      ensures Consistent() && (State(), reply) == Create(old(State()), old(sequence), event, user, seatsTotal)
    {
      CreateKeeps(State(), sequence, event, user, seatsTotal);
      if seatsTotal < 1 {
        return Err(InvalidPayload);
      }
      if (exists c :: c in carpools && carpools[c].event == event && carpools[c].driver == user) ||
         (exists s :: s in seats && s.event == event && s.user == user) {
        return Err(AlreadyInCarpool);
      }
      carpools := carpools[sequence := Carpool(event, user, seatsTotal, 0)];
      reply := Ok(sequence);
      sequence := sequence + 1;
    }

    method JoinCarpool(carpool: int, user: int) returns (reply: Reply)
      requires Consistent()
      modifies this
      ensures Consistent() && (State(), reply) == Join(old(State()), carpool, user)
    {
      JoinKeeps(State(), carpool, user);
      if carpool !in carpools {
        return Err(CarpoolNotFound);
      }
      var row := carpools[carpool];
      if row.driver == user {
        return Err(CannotJoinOwn);
      }
      if DrivesElsewhere(State(), carpool, row.event, user) {
        return Err(DrivesAnother);
      }
      if RidesElsewhere(State(), carpool, row.event, user) {
        return Err(RidesAnother);
      }
      if Seat(carpool, row.event, user) in seats {
        return Err(AlreadyJoined);
      }
      if row.seatsTaken >= row.seatsTotal {
        return Err(CarpoolFull);
      }
      carpools := carpools[carpool := row.(seatsTaken := row.seatsTaken + 1)];
      seats := seats + {Seat(carpool, row.event, user)};
      reply := Ok(row.seatsTaken + 1);
    }

    method LeaveCarpool(carpool: int, user: int) returns (reply: Reply)
      requires Consistent()
      modifies this
      ensures Consistent() && (State(), reply) == Leave(old(State()), carpool, user)
    {
      LeaveKeeps(State(), carpool, user);
      if carpool !in carpools {
        return Err(CarpoolNotFound);
      }
      var row := carpools[carpool];
      if Seat(carpool, row.event, user) !in seats {
        return Err(NotJoined);
      }
      seats := seats - {Seat(carpool, row.event, user)};
      carpools := carpools[carpool := row.(seatsTaken := Greatest(row.seatsTaken - 1, 0))];
      reply := Ok(carpools[carpool].seatsTaken);
    }

    method UpdateCarpool(carpool: int, seatsTotal: Option<int>) returns (reply: Reply)
      requires Consistent()
      modifies this
      ensures Consistent() && (State(), reply) == Update(old(State()), carpool, seatsTotal)
    {
      UpdateKeeps(State(), carpool, seatsTotal);
      if carpool !in carpools {
        return Err(CarpoolNotFound);
      }
      var row := carpools[carpool];
      var total := if seatsTotal.Some? then seatsTotal.value else row.seatsTotal;
      if total < 1 {
        return Err(InvalidPayload);
      }
      if total < row.seatsTaken {
        return Err(InvalidPayload);
      }
      carpools := carpools[carpool := row.(seatsTotal := total)];
      reply := Ok(total);
    }

    method DeleteCarpool(carpool: int) returns (reply: Reply)
      requires Consistent()
      modifies this
      ensures Consistent() && (State(), reply) == Delete(old(State()), carpool)
    {
      DropsKeeps(State(), carpool);
      if carpool !in carpools {
        return Err(CarpoolNotFound);
      }
      carpools := carpools - {carpool};
      seats := set s | s in seats && s.carpool != carpool;
      reply := Ok(carpool);
    }

    /** The carpool half of declining an invitation; each lookup may return any matching row. */
    method DeclineInvitation(event: int, user: int) returns (drives: Option<int>, rides: Option<int>)
      requires Consistent()
      modifies this
      ensures Consistent() && Fetches(old(State()), event, user, drives, rides)
      ensures State() == Decline(old(State()), event, user, drives, rides)
      ensures forall r :: !Holds(State(), event, user, r)
    {
      ghost var before := State();
      drives, rides := None, None;
      if exists c :: c in carpools && carpools[c].event == event && carpools[c].driver == user {
        var c :| c in carpools && carpools[c].event == event && carpools[c].driver == user;
        drives := Some(c);
        seats := set s | s in seats && s.carpool != c;
        carpools := carpools - {c};
      }
      if exists s :: s in seats && s.event == event && s.user == user {
        var s :| s in seats && s.event == event && s.user == user;
        assert s == Seat(s.carpool, event, user);
        rides := Some(s.carpool);
        assert s.carpool in carpools && Fetches(before, event, user, drives, rides);
        var row := carpools[s.carpool];
        seats := seats - {s};
        carpools := carpools[s.carpool := row.(seatsTaken := Greatest(row.seatsTaken - 1, 0))];
      } else {
        assert forall c :: !Holds(State(), event, user, Rides(c));
      }
      DeclineReleasesEveryRole(before, event, user, drives, rides);
    }
  }
}
