/** Carpool runs in which accounts are deleted too: the counter may be too high, but never too low. */
module CarpoolAccounts {
  import opened Options
  import opened Carpools
  import Sets

  /** The counter covers the passengers and stays within the seats. */
  ghost predicate Covers(db: Db, c: int)
    requires c in db.carpools
  {
    var p := db.carpools[c];
    1 <= p.seatsTotal && |SeatsIn(db, c)| <= p.seatsTaken <= p.seatsTotal
  }

  ghost predicate Safe(db: Db) {
    (forall c :: c in db.carpools ==> Covers(db, c)) && SeatsBelong(db) && OneRole(db)
  }

  // ----- What every operation keeps -----

  /** Fewer rows, otherwise unchanged, and no seat without its carpool. */
  lemma {:induction false} FewerKeeps(db: Db, db': Db)
    requires Safe(db) && db'.seats <= db.seats
    requires forall c :: c in db'.carpools ==> c in db.carpools && db'.carpools[c] == db.carpools[c]
    requires forall s :: s in db'.seats ==> s.carpool in db'.carpools
    ensures Safe(db')
  {
    forall c | c in db'.carpools ensures Covers(db', c) {
      assert Covers(db, c) && SeatsIn(db', c) <= SeatsIn(db, c);
      Sets.SubsetSize(SeatsIn(db', c), SeatsIn(db, c));
    }
    forall event, user, r1, r2 | Holds(db', event, user, r1) && Holds(db', event, user, r2) ensures r1 == r2 {
      assert Holds(db, event, user, r1) && Holds(db, event, user, r2);
    }
  }

  lemma {:induction false} FreeingKeeps(db: Db, s: Seat)
    requires Safe(db) && s in db.seats
    ensures 1 <= db.carpools[s.carpool].seatsTaken && Safe(Frees(db, s))
  {
    var db' := Frees(db, s);
    assert s in SeatsIn(db, s.carpool) && Covers(db, s.carpool);
    forall c | c in db'.carpools ensures Covers(db', c) {
      assert Covers(db, c) && SeatsIn(db', c) == SeatsIn(db, c) - {s};
    }
    forall event, user, r1, r2 | Holds(db', event, user, r1) && Holds(db', event, user, r2) ensures r1 == r2 {
      assert Holds(db, event, user, r1) && Holds(db, event, user, r2);
    }
  }

  lemma {:induction false} TakingKeeps(db: Db, s: Seat)
    requires Safe(db) && s.carpool in db.carpools && s !in db.seats
    requires db.carpools[s.carpool].event == s.event && db.carpools[s.carpool].driver != s.user
    requires db.carpools[s.carpool].seatsTaken < db.carpools[s.carpool].seatsTotal
    requires forall r :: !Holds(db, s.event, s.user, r)
    ensures Safe(Takes(db, s))
  {
    var db' := Takes(db, s);
    forall c | c in db'.carpools ensures Covers(db', c) {
      assert Covers(db, c);
      TakenSeats(db, s, c);
    }
    assert forall e, u, r :: Holds(db', e, u, r) ==>
             Holds(db, e, u, r) || (r == Rides(s.carpool) && e == s.event && u == s.user);
  }

  lemma {:induction false} JoiningKeeps(db: Db, carpool: int, user: int)
    requires Safe(db)
    ensures Safe(Join(db, carpool, user).0)
  {
    if Join(db, carpool, user).1.Ok? {
      var p := db.carpools[carpool];
      RoleRows(db, p.event, user);
      assert Holds(db, p.event, user, Drives(carpool)) <==> p.driver == user;
      TakingKeeps(db, Seat(carpool, p.event, user));
    }
  }

  lemma {:induction false} CreatingKeeps(db: Db, id: int, event: int, user: int, seatsTotal: int)
    requires Safe(db) && id !in db.carpools
    ensures Safe(Create(db, id, event, user, seatsTotal).0)
  {
    var (db', reply) := Create(db, id, event, user, seatsTotal);
    RoleRows(db, event, user);
    if reply.Ok? {
      assert SeatsIn(db, id) == {};
      forall c | c in db'.carpools ensures Covers(db', c) {
        assert SeatsIn(db', c) == SeatsIn(db, c);
        assert c in db.carpools ==> Covers(db, c);
      }
      assert forall e, u, r :: Holds(db', e, u, r) ==> Holds(db, e, u, r) || (r == Drives(id) && e == event && u == user);
    }
  }

  lemma {:induction false} UpdatingKeeps(db: Db, carpool: int, seatsTotal: Option<int>)
    requires Safe(db)
    ensures Safe(Update(db, carpool, seatsTotal).0)
  {
    var (db', reply) := Update(db, carpool, seatsTotal);
    if reply.Ok? {
      forall c | c in db'.carpools ensures Covers(db', c) {
        assert Covers(db, c) && SeatsIn(db', c) == SeatsIn(db, c);
      }
      forall e, u, r1, r2 | Holds(db', e, u, r1) && Holds(db', e, u, r2) ensures r1 == r2 {
        assert Holds(db, e, u, r1) && Holds(db, e, u, r2);
      }
    }
  }

  lemma {:induction false} DecliningKeeps(db: Db, event: int, user: int, drives: Option<int>, rides: Option<int>)
    requires Safe(db) && Fetches(db, event, user, drives, rides)
    ensures Safe(Decline(db, event, user, drives, rides))
  {
    var db1 := if drives.Some? then Drops(db, drives.value) else db;
    if drives.Some? { FewerKeeps(db, db1); }
    if rides.Some? { FreeingKeeps(db1, Seat(rides.value, event, user)); }
  }

  lemma {:induction false} ServingKeeps(db: Db, r: Request)
    requires Safe(db) && Admissible(db, r)
    ensures Safe(Serve(db, r))
  {
    match r
    case CreateRequest(id, event, user, seatsTotal) => CreatingKeeps(db, id, event, user, seatsTotal);
    case JoinRequest(carpool, user) => JoiningKeeps(db, carpool, user);
    case LeaveRequest(carpool, user) =>
      if Leave(db, carpool, user).1.Ok? { FreeingKeeps(db, Seat(carpool, db.carpools[carpool].event, user)); }
    case UpdateRequest(carpool, total) => UpdatingKeeps(db, carpool, total);
    case DeleteRequest(carpool) => FewerKeeps(db, Delete(db, carpool).0);
    case DeclineRequest(event, user, drives, rides) => DecliningKeeps(db, event, user, drives, rides);
  }

  // ----- Runs -----

  datatype Step = Request(request: Carpools.Request) | DeleteAccount(user: int)

  ghost predicate Possible(db: Db, step: Step) { step.Request? ==> Admissible(db, step.request) }

  function Next(db: Db, step: Step): Db
    requires step.Request? && step.request.DeclineRequest? && step.request.drives.Some? ==>
               Holds(db, step.request.event, step.request.user, Drives(step.request.drives.value))
  {
    if step.Request? then Serve(db, step.request) else DropsUser(db, step.user)
  }

  ghost predicate Run(dbs: seq<Db>, steps: seq<Step>) {
    && |dbs| == |steps| + 1 && dbs[0] == Db(map[], {})
    && forall i :: 0 <= i < |steps| ==> Possible(dbs[i], steps[i]) && dbs[i + 1] == Next(dbs[i], steps[i])
  }

  /** Over every serial run with account deletions no carpool ever has more passengers than its
      counter says or its counter more than its seats, so none is overbooked; users have at most one
      role per event; and leaving still never clamps. */
  lemma {:induction false} NeverOverbooked(dbs: seq<Db>, steps: seq<Step>, n: nat)
    requires Run(dbs, steps) && n < |dbs|
    ensures Safe(dbs[n])
    ensures forall s: Seat :: s in dbs[n].seats ==> s.carpool in dbs[n].carpools && 1 <= dbs[n].carpools[s.carpool].seatsTaken
  {
    if n != 0 {
      NeverOverbooked(dbs, steps, n - 1);
      if steps[n - 1].Request? {
        ServingKeeps(dbs[n - 1], steps[n - 1].request);
      } else {
        FewerKeeps(dbs[n - 1], DropsUser(dbs[n - 1], steps[n - 1].user));
      }
    }
    forall s: Seat | s in dbs[n].seats ensures s.carpool in dbs[n].carpools && 1 <= dbs[n].carpools[s.carpool].seatsTaken {
      FreeingKeeps(dbs[n], s);
    }
  }

  /** The counter does get too high: the only passenger's account is deleted, and the only seat can
      not be taken again. */
  lemma {:induction false} SeatLost() returns (dbs: seq<Db>, steps: seq<Step>)
    ensures Run(dbs, steps) && var db := dbs[|dbs| - 1];
            && 7 in db.carpools && SeatsIn(db, 7) == {} && db.carpools[7].seatsTaken == db.carpools[7].seatsTotal == 1
            && Join(db, 7, 3).1 == Err(CarpoolFull)
  {
    var full, left := Carpool(1, 1, 1, 1), Seat(7, 1, 2);
    var db0 := Db(map[], {});
    var db1 := Db(map[7 := Carpool(1, 1, 1, 0)], {});
    var db2 := Db(map[7 := full], {left});
    var db3 := Db(map[7 := full], {});
    assert Create(db0, 7, 1, 1, 1).0 == db1;
    assert Join(db1, 7, 2).0 == db2;
    assert DropsUser(db2, 2) == db3;
    dbs := [db0, db1, db2, db3];
    steps := [Request(CreateRequest(7, 1, 1, 1)), Request(JoinRequest(7, 2)), DeleteAccount(2)];
  }
}
