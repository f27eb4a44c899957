/** What enqueues, batches and completions do to the outbox rows, in the columns' own terms. */
module OutboxEffects {
  import opened Options
  import opened Outbox
  import Sets

  // ----- Completions -----

  /** How a delivery ends a row that is still there: a completed one is sent, a refused one is dead, and
      a failed one is dead after its eighth attempt and otherwise due again after its delay. No other row
      changes. */
  lemma {:induction false} FinishMeans(w: World, f: Flight, outcome: Outcome)
    requires f.id in w.rows
    ensures var w' := DoFinish(w, f, outcome);
            var row, row' := w.rows[f.id], w'.rows[f.id];
            && w'.rows.Keys == w.rows.Keys && (forall id :: id in w.rows && id != f.id ==> w'.rows[id] == w.rows[id])
            && w'.index == w.index && w'.flights == w.flights - {f}
            && row' == row.(status := row'.status, sentAt := row'.sentAt, availableAt := row'.availableAt, lockedAt := None)
            && (row'.status == Sent <==> outcome == Completed)
            && (row'.status == Dead <==> outcome == ContactUnavailable || (outcome == Undelivered && 8 <= f.attempts))
            && (row'.status == Retry <==> outcome == Undelivered && f.attempts < 8)
            && row'.sentAt == (if outcome == Completed then Some(w.now) else row.sentAt)
            && (outcome != Undelivered ==> row'.availableAt == row.availableAt)
            && (outcome == Undelivered && 1 <= f.attempts < 8 ==> row'.availableAt == w.now + Doubled(f.attempts) * 1_000_000)
  {
    if 1 <= f.attempts < 8 { DelayDoubles(f.attempts); }
  }

  /** Two seconds, doubled with each further attempt. */
  function Doubled(attempts: int): int
    requires 1 <= attempts
  {
    if attempts == 1 then 2 else 2 * Doubled(attempts - 1)
  }

  lemma {:induction false} DelayDoubles(attempts: int)
    requires 1 <= attempts <= 10
    ensures Delay(attempts) == Doubled(attempts) * 1_000_000
  {
    DelaysGrow(attempts, attempts);
    PowerDoubles(attempts);
  }

  lemma {:induction false} PowerDoubles(n: nat)
    requires 1 <= n
    ensures Power2(n) == Doubled(n)
  {
    if n > 1 { PowerDoubles(n - 1); }
  }

  /** A purged row is simply not found. */
  lemma {:induction false} FinishFindsNothing(w: World, f: Flight, outcome: Outcome)
    requires f.id !in w.rows
    ensures DoFinish(w, f, outcome) == w.(flights := w.flights - {f})
  {
  }

  predicate SentIn(w: World, id: int) { id in w.rows && w.rows[id].status.Sent? }

  /** The row has been sent in every state since the first `n` events. */
  ghost predicate SentSince(events: seq<Event>, id: int, n: nat)
    requires n <= |events|
    decreases |events|
  {
    SentIn(After(events), id) && (n < |events| ==> SentSince(events[..|events| - 1], id, n))
  }

  lemma {:induction false} BecomesSent(w: World, e: Event, id: int)
    requires Enabled(w, e) && SentIn(Apply(w, e), id)
    ensures SentIn(w, id) || (e.Finish? && e.flight.id == id && e.outcome == Completed)
  {
    match e
    case Batch(locked) => if id in w.rows { BatchMeans(w, locked, id); }
    case _ =>
  }

  /** In every run a row is sent only by the completion of a delivery of that very row, and has stayed
      sent since, so no enqueue has taken effect on it. */
  lemma {:induction false} SentByCompletion(events: seq<Event>, id: int) returns (n: nat)
    requires SentIn(After(events), id)
    ensures n < |events| && SentSince(events, id, n + 1)
    ensures var e := events[n];
            e.Finish? && e.outcome == Completed && e.flight.id == id && e.flight in After(events[..n]).flights
  {
    var before, e := events[..|events| - 1], events[|events| - 1];
    if SentIn(After(before), id) {
      n := SentByCompletion(before, id);
      assert before[..n] == events[..n];
    } else {
      n := |events| - 1;
      BecomesSent(After(before), e, id);
    }
  }

  predicate DeadIn(w: World, id: int) { id in w.rows && w.rows[id].status.Dead? }

  /** And a row dies only by a refused contact or a failed eighth attempt of its own. */
  lemma {:induction false} DeadByFailure(events: seq<Event>, id: int) returns (n: nat)
    requires DeadIn(After(events), id)
    ensures n < |events|
    ensures var e := events[n];
            && e.Finish? && e.flight.id == id && e.flight in After(events[..n]).flights
            && (e.outcome == ContactUnavailable || (e.outcome == Undelivered && 8 <= e.flight.attempts))
  {
    var before, e := events[..|events| - 1], events[|events| - 1];
    if DeadIn(After(before), id) {
      n := DeadByFailure(before, id);
      assert before[..n] == events[..n];
    } else {
      n := |events| - 1;
      BecomesDead(After(before), e, id);
    }
  }

  lemma {:induction false} BecomesDead(w: World, e: Event, id: int)
    requires Enabled(w, e) && DeadIn(Apply(w, e), id)
    ensures DeadIn(w, id) ||
            (e.Finish? && e.flight.id == id &&
             (e.outcome == ContactUnavailable || (e.outcome == Undelivered && 8 <= e.flight.attempts)))
  {
    match e
    case Batch(locked) => if id in w.rows { BatchMeans(w, locked, id); }
    case _ =>
  }

  // ----- Enqueues -----

  /** A row of this key has not expired. */
  ghost predicate Live(w: World, key: Option<string>) {
    key.Some? && exists id :: id in w.rows && w.rows[id].key == key &&
                              w.rows[id].dedupExpires.Some? && w.now < w.rows[id].dedupExpires.value
  }

  lemma {:induction false} TargetIff(w: World, key: Option<string>, newId: int)
    requires Valid(w)
    ensures Target(w, key, newId).None? <==> Live(w, key)
    ensures match Target(w, key, newId)
            case None => true
            case Some(id) => id == newId || (id in w.rows && key.Some? && w.rows[id].key == key)
  {
    if key.Some? && key.value in w.index {
      assert IndexOk(w, key.value);
    }
    forall id | id in w.rows && key.Some? && w.rows[id].key == key ensures key.value in w.index && w.index[key.value] == id {
      assert RowOk(w, id);
    }
  }

  /** An enqueue is refused exactly while a row of the same key has not expired. Otherwise there is a row,
      new or the expired one of the key, that is due now and counts no attempt; with a key it expires
      `ttl` later. No other row changes. */
  lemma {:induction false} EnqueueMeans(w: World, key: Option<string>, ttl: int, newId: int)
    requires Valid(w) && newId !in w.rows
    ensures var w' := DoEnqueue(w, key, ttl, newId);
            && (Live(w, key) ==> w' == w)
            && (!Live(w, key) ==>
                  exists id :: id in w'.rows && Fresh(w'.rows[id], key, ttl, w.now) && OnlyRow(w, w', id) &&
                               (id == newId || (id in w.rows && key.Some? && w.rows[id].key == key)))
  {
    TargetIff(w, key, newId);
    var w', target := DoEnqueue(w, key, ttl, newId), Target(w, key, newId);
    if target.Some? {
      assert target.value in w'.rows && Fresh(w'.rows[target.value], key, ttl, w.now) && OnlyRow(w, w', target.value);
    }
  }

  predicate Fresh(row: Row, key: Option<string>, ttl: int, now: int) {
    && row.key == key && row.status == Pending && row.attempts == 0 && row.availableAt == now && row.createdAt == now
    && row.lockedAt.None? && row.sentAt.None? && row.dedupExpires == match key case Some(_) => Some(now + ttl) case None => None
  }

  ghost predicate OnlyRow(w: World, w': World, id: int) {
    && (forall j :: j != id ==> (j in w'.rows <==> j in w.rows))
    && (forall j :: j in w.rows && j != id ==> w'.rows[j] == w.rows[j])
  }

  // ----- Batches -----

  /** The lowest `n` members of a set, and all of it if there are fewer. */
  function Lower(s: set<int>, x: int): set<int> { set y | y in s && y < x }

  function Lowest(s: set<int>, n: nat): set<int> { set x | x in s && |Lower(s, x)| < n }

  ghost function Greatest(s: set<int>): (m: int)
    requires s != {}
    ensures m in s && forall x :: x in s ==> x <= m
    decreases s
  {
    var x := Sets.Pick(s);
    if s == {x} then x
    else
      assert s - {x} != {} by { assert s - {x} == {} ==> s == {x}; }
      var m := Greatest(s - {x});
      assert forall y :: y in s ==> y == x || y in s - {x};
      if x < m then m else x
  }

  lemma {:induction false} LowestCounts(s: set<int>, n: nat)
    ensures |Lowest(s, n)| == if |s| <= n then |s| else n
    decreases s
  {
    if s == {} {
      assert Lowest(s, n) == {};
    } else {
      var m := Greatest(s);
      var rest := s - {m};
      LowestCounts(rest, n);
      assert Lower(s, m) == rest;
      forall x | x in rest ensures Lower(s, x) == Lower(rest, x) {}
      if |s| <= n {
        assert Lowest(s, n) == Lowest(rest, n) + {m};
      } else {
        assert Lowest(s, n) == Lowest(rest, n);
      }
    }
  }

  lemma {:induction false} LowestAreLower(s: set<int>, n: nat, x: int, y: int)
    requires x in Lowest(s, n) && y in s && y !in Lowest(s, n)
    ensures x < y
  {
    if y < x { Sets.SubsetSize(Lower(s, y), Lower(s, x)); }
  }

  /** A row that is due, or whose delivery was abandoned more than 300 seconds ago, and not locked. */
  predicate Due(w: World, locked: set<int>, id: int) {
    && id in w.rows && id !in locked
    && (match w.rows[id].status
        case Pending => w.rows[id].availableAt <= w.now
        case Retry => w.rows[id].availableAt <= w.now
        case Processing => w.rows[id].lockedAt.Some? && w.rows[id].lockedAt.value + 300_000_000 < w.now
        case _ => false)
  }

  function DueRows(w: World, locked: set<int>): set<int> { set id | id in w.rows && Due(w, locked, id) }

  lemma {:induction false} PickedAreLowest(w: World, locked: set<int>)
    ensures Picked(w, locked) == Lowest(DueRows(w, locked), 20)
  {
    var due := DueRows(w, locked);
    forall id ensures Candidate(w, locked, id) <==> Due(w, locked, id) {}
    forall id ensures Below(w, locked, id) == Lower(due, id) {}
  }

  /** A batch claims the due rows of lowest identifier, 20 of them or all if there are fewer. */
  lemma {:induction false} BatchPicks(w: World, locked: set<int>)
    ensures var due, picked := DueRows(w, locked), Picked(w, locked);
            && picked <= due && |picked| == (if |due| <= 20 then |due| else 20)
            && forall x, y :: x in picked && y in due && y !in picked ==> x < y
  {
    var due := DueRows(w, locked);
    PickedAreLowest(w, locked);
    LowestCounts(due, 20);
    forall x, y | x in Picked(w, locked) && y in due && y !in Picked(w, locked) ensures x < y { LowestAreLower(due, 20, x, y); }
  }

  /** A claimed row is in delivery since now and counts one more attempt; a row that was sent or died
      more than 30 days ago is gone; every other row stays. */
  lemma {:induction false} BatchMeans(w: World, locked: set<int>, id: int)
    requires id in w.rows
    ensures var w', row := DoBatch(w, locked), w.rows[id];
            var ended := if row.sentAt.Some? then row.sentAt.value else row.createdAt;
            && (id in w'.rows <==> !((row.status == Sent || row.status == Dead) && ended + 2_592_000_000_000 < w.now))
            && (id in Picked(w, locked) ==>
                  id in w'.rows && w'.rows[id] == row.(status := Processing, attempts := row.attempts + 1, lockedAt := Some(w.now)))
            && (id !in Picked(w, locked) && id in w'.rows ==> w'.rows[id] == row)
  {
    assert id in Picked(w, locked) ==> Candidate(w, locked, id);
  }
}
