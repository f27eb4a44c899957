/** The outbox table, updated statement by statement. */
module OutboxStore {
  import opened Options
  import opened Outbox
  import Sets

  /** Claiming first and purging then is the whole statement: no claimed row is purged. */
  lemma {:induction false} ClaimThenPurge(w: World, locked: set<int>, rows: map<int, Row>)
    requires rows.Keys == w.rows.Keys
    requires forall id :: id in rows ==> rows[id] == if id in Picked(w, locked) then Claim(w.rows[id], w.now) else w.rows[id]
    ensures DoBatch(w, locked).rows == map id | id in rows && !Purgeable(rows[id], w.now) :: rows[id]
  {
    var purged := map id | id in rows && !Purgeable(rows[id], w.now) :: rows[id];
    forall id | id in rows
      ensures id in purged <==> id in DoBatch(w, locked).rows
      ensures id in purged ==> purged[id] == DoBatch(w, locked).rows[id]
    {
      assert id in Picked(w, locked) ==> Candidate(w, locked, id);
    }
    assert purged == DoBatch(w, locked).rows;
  }

  /** What is picked depends on the rows and the time alone. */
  lemma {:induction false} PickedAlike(v: World, w: World, locked: set<int>)
    requires v.rows == w.rows && v.now == w.now
    ensures Picked(v, locked) == Picked(w, locked)
  {
    forall id ensures Candidate(v, locked, id) == Candidate(w, locked, id) && Below(v, locked, id) == Below(w, locked, id) {
      assert forall j :: Candidate(v, locked, j) == Candidate(w, locked, j);
    }
  }

  /** The rows and their unique index, with the deliveries that are open and the past of each row. */
  class Table {
    var rows: map<int, Row>
    var index: map<string, int>
    ghost var flights: set<Flight>
    ghost var marks: map<int, seq<Mark>>
    ghost var effective: map<string, seq<Entry>>

    /** The world at `now`. */
    ghost function View(now: int): World
      reads this
    {
      World(now, rows, index, flights, marks, effective)
    }

    constructor ()
      ensures View(0) == EMPTY && Valid(View(0))
    {
      rows, index, flights, marks, effective := map[], map[], {}, map[], map[];
    }

    /** INSERT, or on a conflict of the key an UPDATE of the expired row. */
    method EnqueueNotification(key: Option<string>, ttl: int, newId: int, now: int)
      requires Valid(View(now)) && Enabled(View(now), Enqueue(key, ttl, newId))
      modifies this
      ensures View(now) == DoEnqueue(old(View(now)), key, ttl, newId) && Valid(View(now))
    {
      EnqueueKeeps(View(now), key, ttl, newId);
      var id := newId;
      if key.Some? && key.value in index {
        id := index[key.value];
        if id !in rows || !(rows[id].dedupExpires.None? || rows[id].dedupExpires.value <= now) {
          return;
        }
      }
      marks := marks[id := MarksOf(View(now), id) + [Enqueued(now)]];
      rows := rows[id := NewRow(key, ttl, now)];
      if key.Some? {
        index := index[key.value := id];
        effective := effective[key.value := EntriesOf(View(now), key.value) + [Entry(now, ttl)]];
      }
    }

    /** Claims each picked row and returns the attempts it now counts. */
    method ClaimRows(picked: set<int>, now: int) returns (claimed: map<int, int>)
      requires forall id :: id in picked ==> id in rows
      modifies this`rows
      ensures rows.Keys == old(rows).Keys
      ensures forall id :: id in rows ==> rows[id] == if id in picked then Claim(old(rows)[id], now) else old(rows)[id]
      ensures claimed.Keys == picked && forall id :: id in picked ==> claimed[id] == old(rows)[id].attempts + 1
    {
      claimed := map[];
      var rest := picked;
      while rest != {}
        invariant rest <= picked && rows.Keys == old(rows).Keys
        invariant forall id :: id in rows ==>
          rows[id] == if id in picked && id !in rest then Claim(old(rows)[id], now) else old(rows)[id]
        invariant claimed.Keys == picked - rest && forall id :: id in claimed ==> claimed[id] == old(rows)[id].attempts + 1
        decreases rest
      {
        ghost var some := Sets.Pick(rest);
        var id :| id in rest;
        rows := rows[id := Claim(rows[id], now)];
        claimed := claimed[id := rows[id].attempts];
        rest := rest - {id};
      }
    }

    /** Deletes what ended more than 30 days ago, with its index entries. */
    method Purge(now: int)
      modifies this`rows, this`index
      ensures rows == map id | id in old(rows) && !Purgeable(old(rows)[id], now) :: old(rows)[id]
      ensures index == map k | k in old(index) && old(index)[k] in rows :: old(index)[k]
    {
      rows := map id | id in rows && !Purgeable(rows[id], now) :: rows[id];
      index := map k | k in index && index[k] in rows :: index[k];
    }

    /** One statement: purge, and claim up to 20 rows that are due. Each claim opens a delivery. */
    method ProcessBatch(locked: set<int>, now: int) returns (claimed: map<int, int>)
      requires Valid(View(now))
      modifies this
      ensures View(now) == DoBatch(old(View(now)), locked) && Valid(View(now))
      ensures claimed.Keys == Picked(old(View(now)), locked)
      ensures forall id :: id in claimed ==> id in old(rows) && claimed[id] == old(rows)[id].attempts + 1
    {
      ghost var after := DoBatch(View(now), locked);
      BatchKeeps(View(now), locked);
      var picked := Picked(World(now, rows, index, {}, map[], map[]), locked);
      PickedAlike(World(now, rows, index, {}, map[], map[]), View(now), locked);
      claimed := ClaimRows(picked, now);
      ClaimThenPurge(old(View(now)), locked, rows);
      Purge(now);
      assert index == after.index;
      flights, marks := after.flights, after.marks;
    }

    method CompleteRow(f: Flight, now: int)
      requires Valid(View(now)) && f in flights
      modifies this
      ensures View(now) == DoFinish(old(View(now)), f, Completed) && Valid(View(now))
    {
      ghost var after := DoFinish(View(now), f, Completed);
      FinishKeeps(View(now), f, Completed);
      if f.id in rows {
        rows := rows[f.id := rows[f.id].(status := Sent, sentAt := Some(now), lockedAt := None)];
      }
      flights, marks := after.flights, after.marks;
    }

    /** Writes the row back as a retry after its delay, or as dead. */
    method RetryRow(f: Flight, now: int)
      requires Valid(View(now)) && f in flights
      modifies this
      ensures View(now) == DoFinish(old(View(now)), f, Undelivered) && Valid(View(now))
    {
      ghost var after := DoFinish(View(now), f, Undelivered);
      FinishKeeps(View(now), f, Undelivered);
      var delay := Delay(f.attempts);
      var status := if f.attempts >= MAX_ATTEMPTS then Dead else Retry;
      if f.id in rows {
        rows := rows[f.id := rows[f.id].(status := status, availableAt := now + delay, lockedAt := None)];
      }
      flights, marks := after.flights, after.marks;
    }

    /** The contact check refused the notification: the row is dead, without a delivery. */
    method RefuseRow(f: Flight, now: int)
      requires Valid(View(now)) && f in flights
      modifies this
      ensures View(now) == DoFinish(old(View(now)), f, ContactUnavailable) && Valid(View(now))
    {
      ghost var after := DoFinish(View(now), f, ContactUnavailable);
      FinishKeeps(View(now), f, ContactUnavailable);
      if f.id in rows {
        rows := rows[f.id := rows[f.id].(status := Dead, lockedAt := None)];
      }
      flights, marks := after.flights, after.marks;
    }

    /** A delivery that never writes its row back, because the worker died or the update failed. */
    ghost method AbandonRow(f: Flight, now: int)
      requires Valid(View(now))
      modifies this
      ensures View(now) == Apply(old(View(now)), Abandon(f)) && Valid(View(now))
    {
      StepKeeps(View(now), Abandon(f));
      flights := flights - {f};
    }

    /** Between two statements only time passes. */
    lemma {:induction false} TimePasses(now: int, elapsed: nat)
      requires Valid(View(now))
      ensures View(now + elapsed) == Apply(View(now), Tick(elapsed)) && Valid(View(now + elapsed))
    {
      StepKeeps(View(now), Tick(elapsed));
    }
  }
}
