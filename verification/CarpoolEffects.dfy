/**
 * What each carpool request answers and changes, told by the roles and seats that users hold. The
 * refusals exclude each other on valid rows, so the order of the checks does not show.
 */
module CarpoolEffects {
  import opened Options
  import opened Carpools
  import Sets

  /** The user takes part in the event. */
  ghost predicate TakesPart(db: Db, event: int, user: int) {
    exists r :: Holds(db, event, user, r)
  }

  /** All rows but the carpool row `c` are the same, and the seats are `seats`. */
  ghost predicate OnlyRow(db: Db, db': Db, c: int, seats: set<Seat>) {
    && db'.seats == seats
    && (forall k :: k != c ==> (k in db'.carpools <==> k in db.carpools))
    && (forall k :: k in db.carpools && k != c ==> db'.carpools[k] == db.carpools[k])
  }

  /** Creating gives the event a carpool of the user with the requested seats, all free. */
  lemma {:induction false} CreateMeans(db: Db, id: int, event: int, user: int, seatsTotal: int)
    requires Valid(db) && id !in db.carpools
    ensures var (db', reply) := Create(db, id, event, user, seatsTotal);
            && (reply == Err(InvalidPayload) <==> seatsTotal <= 0)
            && (reply == Err(AlreadyInCarpool) <==> 1 <= seatsTotal && TakesPart(db, event, user))
            && (reply == Ok(id) <==> 1 <= seatsTotal && !TakesPart(db, event, user))
            && (reply.Err? ==> db' == db)
            && (reply.Ok? ==>
                  && OnlyRow(db, db', id, db.seats) && id in db'.carpools
                  && Holds(db', event, user, Drives(id)) && SeatsIn(db', id) == {}
                  && db'.carpools[id].seatsTotal == seatsTotal && db'.carpools[id].seatsTaken == 0)
  {
    CreateKeeps(db, id, event, user, seatsTotal);
    assert forall s :: s in db.seats ==> s.carpool in db.carpools;
  }

  /** A user without a role gets the seat if one is free, and is answered the number of seats taken;
      each kind of role has its own refusal. */
  lemma {:induction false} JoinMeans(db: Db, carpool: int, user: int)
    requires Valid(db) && carpool in db.carpools
    ensures var (db', reply) := Join(db, carpool, user);
            var p := db.carpools[carpool];
            && (reply == Err(CannotJoinOwn) <==> Holds(db, p.event, user, Drives(carpool)))
            && (reply == Err(DrivesAnother) <==> exists c :: c != carpool && Holds(db, p.event, user, Drives(c)))
            && (reply == Err(RidesAnother) <==> exists c :: c != carpool && Holds(db, p.event, user, Rides(c)))
            && (reply == Err(AlreadyJoined) <==> Holds(db, p.event, user, Rides(carpool)))
            && (reply == Err(CarpoolFull) <==> !TakesPart(db, p.event, user) && |SeatsIn(db, carpool)| == p.seatsTotal)
            && (reply.Err? ==> db' == db)
            && (reply.Ok? ==>
                  && OnlyRow(db, db', carpool, db.seats + {Seat(carpool, p.event, user)})
                  && carpool in db'.carpools && db'.carpools[carpool] == p.(seatsTaken := |SeatsIn(db', carpool)|)
                  && reply == Ok(|SeatsIn(db', carpool)|) && |SeatsIn(db', carpool)| == |SeatsIn(db, carpool)| + 1)
  {
    var p := db.carpools[carpool];
    JoinKeeps(db, carpool, user);
    RidesRows(db, carpool, p.event, user);
    var s := Seat(carpool, p.event, user);
    if Join(db, carpool, user).1.Ok? { TakenSeats(db, s, carpool); }
    assert forall r, q :: Holds(db, p.event, user, r) && Holds(db, p.event, user, q) ==> r == q;
  }

  lemma {:induction false} RidesRows(db: Db, carpool: int, event: int, user: int)
    ensures RidesElsewhere(db, carpool, event, user) <==> exists c :: c != carpool && Holds(db, event, user, Rides(c))
    ensures DrivesElsewhere(db, carpool, event, user) <==> exists c :: c != carpool && Holds(db, event, user, Drives(c))
  {
    if RidesElsewhere(db, carpool, event, user) {
      var s :| s in db.seats && s.event == event && s.user == user && s.carpool != carpool;
      assert s == Seat(s.carpool, event, user) && Holds(db, event, user, Rides(s.carpool));
    }
    if c :| c != carpool && Holds(db, event, user, Rides(c)) {
      assert Seat(c, event, user) in db.seats;
    }
  }

  lemma {:induction false} NothingToDo(db: Db, carpool: int, user: int, total: Option<int>)
    requires carpool !in db.carpools
    ensures Join(db, carpool, user) == (db, Err(CarpoolNotFound)) && Leave(db, carpool, user) == (db, Err(CarpoolNotFound))
    ensures Update(db, carpool, total) == (db, Err(CarpoolNotFound)) && Delete(db, carpool) == (db, Err(CarpoolNotFound))
  {
  }

  /** Leaving succeeds exactly for a passenger, who loses the seat, and nobody else loses anything. */
  lemma {:induction false} LeaveMeans(db: Db, carpool: int, user: int)
    requires Valid(db) && carpool in db.carpools
    ensures var (db', reply) := Leave(db, carpool, user);
            var p := db.carpools[carpool];
            && (reply.Ok? <==> Holds(db, p.event, user, Rides(carpool)))
            && (reply.Err? ==> db' == db && reply == Err(NotJoined))
            && (reply.Ok? ==>
                  && OnlyRow(db, db', carpool, db.seats - {Seat(carpool, p.event, user)})
                  && carpool in db'.carpools && db'.carpools[carpool] == p.(seatsTaken := |SeatsIn(db', carpool)|)
                  && reply == Ok(|SeatsIn(db', carpool)|) && |SeatsIn(db', carpool)| == |SeatsIn(db, carpool)| - 1)
  {
    if Leave(db, carpool, user).1.Ok? {
      var s := Seat(carpool, db.carpools[carpool].event, user);
      FreesKeeps(db, s);
      assert SeatsIn(Frees(db, s), carpool) == SeatsIn(db, carpool) - {s};
    }
  }

  /** A change is accepted exactly when the seats it asks for, or else the present ones, are at least
      one and enough for the passengers; it stores that number and nothing else. */
  lemma {:induction false} UpdateMeans(db: Db, carpool: int, seatsTotal: Option<int>)
    requires Valid(db) && carpool in db.carpools
    ensures var (db', reply) := Update(db, carpool, seatsTotal);
            var p := db.carpools[carpool];
            var total := match seatsTotal case Some(n) => n case None => p.seatsTotal;
            && (reply.Ok? <==> 1 <= total && |SeatsIn(db, carpool)| <= total)
            && (reply.Err? ==> db' == db && reply == Err(InvalidPayload))
            && (reply.Ok? ==>
                  && reply == Ok(total) && OnlyRow(db, db', carpool, db.seats) && carpool in db'.carpools
                  && db'.carpools[carpool] == Carpool(p.event, p.driver, total, p.seatsTaken))
  {
    assert db.carpools[carpool].seatsTaken == |SeatsIn(db, carpool)|;
  }

  /** Deleting ends the roles in this carpool, the driver's and the passengers', and no others. */
  lemma {:induction false} DeleteMeans(db: Db, carpool: int)
    requires Valid(db) && carpool in db.carpools
    ensures var (db', reply) := Delete(db, carpool);
            && reply.Ok? && OnlyRow(db, db', carpool, db.seats - SeatsIn(db, carpool)) && carpool !in db'.carpools
            && forall e, u, r :: Holds(db', e, u, r) <==> Holds(db, e, u, r) && r.carpool != carpool
  {
  }

  /** Declining changes no row but by the roles it ends: every carpool that is left keeps its event,
      driver and seats, and counts its passengers. */
  lemma {:induction false} DeclineCounts(db: Db, event: int, user: int, drives: Option<int>, rides: Option<int>)
    requires Valid(db) && Fetches(db, event, user, drives, rides)
    ensures var db' := Decline(db, event, user, drives, rides);
            && db'.carpools.Keys == db.carpools.Keys - (if drives.Some? then {drives.value} else {})
            && forall c :: c in db'.carpools ==> db'.carpools[c] == db.carpools[c].(seatsTaken := |SeatsIn(db', c)|)
  {
    DeclineReleasesEveryRole(db, event, user, drives, rides);
  }

  /** With an account go the roles of its user and the carpools that the user drives, with everybody's
      seats in them; all other roles and rows stay. */
  lemma {:induction false} AccountDeletionMeans(db: Db, user: int)
    requires Valid(db)
    ensures var db' := DropsUser(db, user);
            && (forall e, u, r :: Holds(db', e, u, r) <==>
                  (Holds(db, e, u, r) && u != user && r.carpool in db.carpools && db.carpools[r.carpool].driver != user))
            && (forall c :: c in db'.carpools <==> c in db.carpools && db.carpools[c].driver != user)
            && (forall c :: c in db'.carpools ==> db'.carpools[c] == db.carpools[c])
  {
    forall e, u, c | Holds(db, e, u, Rides(c)) ensures c in db.carpools {
      var s := Seat(c, e, u);
      assert s in db.seats && s.carpool in db.carpools;
    }
  }
}
