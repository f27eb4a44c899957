/** The notification outbox: claims, leases, backoff and deduplication. Times are microseconds. */
module Outbox {
  import opened Options

  const SECOND: int := 1_000_000
  const LEASE: int := 300 * SECOND
  const RETENTION: int := 2_592_000 * SECOND
  const BATCH: nat := 20
  const MAX_ATTEMPTS: int := 8

  datatype Status = Pending | Processing | Retry | Sent | Dead

  datatype Row = Row(
    key: Option<string>, status: Status, attempts: int, availableAt: int, lockedAt: Option<int>,
    sentAt: Option<int>, createdAt: int, dedupExpires: Option<int>)

  /** What happened to a row: enqueued or enqueued again, claimed, sent back for a retry, ended. */
  datatype Mark =
    | Enqueued(time: int)
    | Claimed(time: int)
    | Failed(time: int, attempts: int)
    | Ended(time: int)

  /** A claimed row being delivered: `serial` is the place of its claim in the row's marks. */
  datatype Flight = Flight(id: int, attempts: int, serial: nat)

  /** An enqueue that took effect, with its time to live. */
  datatype Entry = Entry(time: int, ttl: int)

  /** `index` is the unique index on the deduplication key; `marks` and `effective` record the past. */
  datatype World = World(
    now: int, rows: map<int, Row>, index: map<string, int>, flights: set<Flight>,
    marks: map<int, seq<Mark>>, effective: map<string, seq<Entry>>)

  const EMPTY: World := World(0, map[], map[], {}, map[], map[])

  datatype Outcome = Completed | ContactUnavailable | Undelivered

  datatype Event =
    | Tick(elapsed: nat)
    | Enqueue(key: Option<string>, ttl: int, newId: int)
    | Batch(locked: set<int>)
    | Finish(flight: Flight, outcome: Outcome)
    | Abandon(flight: Flight)

  // ----- Enqueueing -----

  function NewRow(key: Option<string>, ttl: int, now: int): Row {
    Row(key, Pending, 0, now, None, None, now, if key.Some? then Some(now + ttl) else None)
  }

  predicate Expired(row: Row, now: int) {
    row.dedupExpires.None? || row.dedupExpires.value <= now
  }

  /** The row an enqueue writes: a new one, the expired one of the same key, or none. */
  function Target(w: World, key: Option<string>, newId: int): Option<int> {
    if key.None? || key.value !in w.index then Some(newId)
    else if w.index[key.value] in w.rows && Expired(w.rows[w.index[key.value]], w.now) then Some(w.index[key.value])
    else None
  }

  function MarksOf(w: World, id: int): seq<Mark> {
    if id in w.marks then w.marks[id] else []
  }

  function EntriesOf(w: World, key: string): seq<Entry> {
    if key in w.effective then w.effective[key] else []
  }

  function DoEnqueue(w: World, key: Option<string>, ttl: int, newId: int): World {
    match Target(w, key, newId)
    case None => w
    case Some(id) =>
      w.(rows := w.rows[id := NewRow(key, ttl, w.now)],
         index := if key.Some? then w.index[key.value := id] else w.index,
         marks := w.marks[id := MarksOf(w, id) + [Enqueued(w.now)]],
         effective := if key.Some? then w.effective[key.value := EntriesOf(w, key.value) + [Entry(w.now, ttl)]] else w.effective)
  }

  // ----- One batch: purge, then claim -----

  predicate Purgeable(row: Row, now: int) {
    (row.status.Sent? || row.status.Dead?) && (if row.sentAt.Some? then row.sentAt.value else row.createdAt) < now - RETENTION
  }

  predicate Eligible(row: Row, now: int) {
    || ((row.status.Pending? || row.status.Retry?) && row.availableAt <= now)
    || (row.status.Processing? && row.lockedAt.Some? && row.lockedAt.value < now - LEASE)
  }

  predicate Candidate(w: World, locked: set<int>, id: int) {
    id in w.rows && Eligible(w.rows[id], w.now) && id !in locked
  }

  function Below(w: World, locked: set<int>, id: int): set<int> {
    set j | j in w.rows && Candidate(w, locked, j) && j < id
  }

  /** ORDER BY id, SKIP LOCKED, LIMIT 20. */
  function Picked(w: World, locked: set<int>): set<int> {
    set id | id in w.rows && Candidate(w, locked, id) && |Below(w, locked, id)| < BATCH
  }

  function Claim(row: Row, now: int): Row {
    row.(status := Processing, attempts := row.attempts + 1, lockedAt := Some(now))
  }

  function DoBatch(w: World, locked: set<int>): World {
    var picked := Picked(w, locked);
    var rows := map id | id in w.rows && !Purgeable(w.rows[id], w.now) ::
      if id in picked then Claim(w.rows[id], w.now) else w.rows[id];
    w.(rows := rows,
       index := map k | k in w.index && w.index[k] in rows :: w.index[k],
       flights := w.flights + set id | id in picked :: Flight(id, w.rows[id].attempts + 1, |MarksOf(w, id)|),
       marks := map id | id in w.marks :: if id in picked then w.marks[id] + [Claimed(w.now)] else w.marks[id])
  }

  // ----- The end of a delivery -----

  function Power2(n: nat): nat { if n == 0 then 1 else 2 * Power2(n - 1) }

  function Clamp(x: int, low: int, high: int): int {
    if x < low then low else if x > high then high else x
  }

  /** `2^clamp(attempts, 1, 10)` seconds, at most 3600. */
  function DelaySeconds(attempts: int): int {
    var power := Power2(Clamp(attempts, 1, 10));
    if power <= 3600 then power else 3600
  }

  function Delay(attempts: int): int { DelaySeconds(attempts) * SECOND }

  /** `attempts` is the count the claim returned, not the one in the row now. */
  function Finished(row: Row, attempts: int, outcome: Outcome, now: int): Row {
    match outcome
    case Completed => row.(status := Sent, sentAt := Some(now), lockedAt := None)
    case ContactUnavailable => row.(status := Dead, lockedAt := None)
    case Undelivered =>
      row.(status := if attempts >= MAX_ATTEMPTS then Dead else Retry, availableAt := now + Delay(attempts), lockedAt := None)
  }

  function FinishMark(attempts: int, outcome: Outcome, now: int): Mark {
    if outcome.Undelivered? && attempts < MAX_ATTEMPTS then Failed(now, attempts) else Ended(now)
  }

  /** The update goes by identifier alone; a purged row is simply not found. */
  function DoFinish(w: World, f: Flight, outcome: Outcome): World {
    var w1 := w.(flights := w.flights - {f});
    if f.id !in w.rows then w1
    else w1.(rows := w.rows[f.id := Finished(w.rows[f.id], f.attempts, outcome, w.now)],
             marks := w.marks[f.id := MarksOf(w, f.id) + [FinishMark(f.attempts, outcome, w.now)]])
  }

  // ----- Runs -----

  predicate Enabled(w: World, e: Event) {
    match e
    case Enqueue(_, _, newId) => newId !in w.marks && newId !in w.rows
    case Finish(f, _) => f in w.flights
    case _ => true
  }

  function Apply(w: World, e: Event): World {
    match e
    case Tick(elapsed) => w.(now := w.now + elapsed)
    case Enqueue(key, ttl, newId) => DoEnqueue(w, key, ttl, newId)
    case Batch(locked) => DoBatch(w, locked)
    case Finish(f, outcome) => DoFinish(w, f, outcome)
    case Abandon(f) => w.(flights := w.flights - {f})
  }

  /** Events that cannot happen are skipped, so every sequence of events is a run. */
  function After(events: seq<Event>): World {
    if events == [] then EMPTY
    else
      var w, e := After(events[..|events| - 1]), events[|events| - 1];
      if Enabled(w, e) then Apply(w, e) else w
  }

  // ----- What the marks of a row promise -----

  function ClaimsSince(ms: seq<Mark>): nat {
    if ms == [] then 0
    else match ms[|ms| - 1]
      case Enqueued(_) => 0
      case Claimed(_) => ClaimsSince(ms[..|ms| - 1]) + 1
      case _ => ClaimsSince(ms[..|ms| - 1])
  }

  /** What has to lie between a mark and a claim that directly follows it. */
  predicate MayClaim(before: Mark, now: int) {
    match before
    case Enqueued(time) => time <= now
    case Claimed(time) => now - time > 300_000_000
    case Failed(time, attempts) => now >= time + Delay(attempts)
    case Ended(_) => false
  }

  ghost predicate MarksOk(ms: seq<Mark>) {
    && ms != [] && ms[0].Enqueued?
    && forall i :: 1 <= i < |ms| && ms[i].Claimed? ==> MayClaim(ms[i - 1], ms[i].time)
  }

  predicate StatusFits(row: Row, last: Mark) {
    match row.status
    case Pending => last.Enqueued? && row.availableAt == last.time
    case Processing => last.Claimed? && row.lockedAt == Some(last.time)
    case Retry => last.Failed? && row.availableAt == last.time + Delay(last.attempts)
    case _ => last.Ended?
  }

  ghost predicate RowOk(w: World, id: int)
    requires id in w.rows
  {
    var row, ms := w.rows[id], MarksOf(w, id);
    && ms != [] && StatusFits(row, ms[|ms| - 1]) && row.attempts == ClaimsSince(ms)
    && row.createdAt <= w.now && (row.sentAt.Some? ==> row.createdAt <= row.sentAt.value)
    && (row.key.Some? ==> row.key.value in w.index && w.index[row.key.value] == id)
  }

  ghost predicate IndexOk(w: World, k: string)
    requires k in w.index
  {
    w.index[k] in w.rows && w.rows[w.index[k]].key == Some(k) && k in w.effective
  }

  /** An open delivery remembers the claim it came from. */
  ghost predicate FlightFits(w: World, f: Flight) {
    && f.id in w.marks && f.serial < |w.marks[f.id]| && w.marks[f.id][f.serial].Claimed?
    && f.attempts == ClaimsSince(w.marks[f.id][..f.serial + 1])
  }

  ghost predicate Valid(w: World) {
    && (forall f :: f in w.flights ==> FlightFits(w, f))
    && (forall id :: id in w.marks ==> MarksOk(w.marks[id]))
    && (forall id :: id in w.rows ==> RowOk(w, id))
    && (forall k :: k in w.index ==> IndexOk(w, k))
  }

  lemma {:induction false} AppendMark(ms: seq<Mark>, m: Mark)
    requires MarksOk(ms) || (ms == [] && m.Enqueued?)
    requires ms != [] && m.Claimed? ==> MayClaim(ms[|ms| - 1], m.time)
    ensures MarksOk(ms + [m])
    ensures ClaimsSince(ms + [m]) == if m.Enqueued? then 0 else if m.Claimed? then ClaimsSince(ms) + 1 else ClaimsSince(ms)
  {
    assert (ms + [m])[..|ms|] == ms;
    forall i | 1 <= i < |ms| + 1 && (ms + [m])[i].Claimed? ensures MayClaim((ms + [m])[i - 1], (ms + [m])[i].time) {
      assert i < |ms| ==> ms[i].Claimed?;
    }
  }

  /** Appending marks keeps open deliveries. */
  lemma {:induction false} FlightStays(w: World, w': World, f: Flight)
    requires FlightFits(w, f) && f.id in w'.marks && w.marks[f.id] <= w'.marks[f.id]
    ensures FlightFits(w', f)
  {
    assert w'.marks[f.id][..f.serial + 1] == w.marks[f.id][..f.serial + 1];
  }

  lemma {:induction false} EnqueueKeeps(w: World, key: Option<string>, ttl: int, newId: int)
    requires Valid(w) && newId !in w.marks && newId !in w.rows
    ensures Valid(DoEnqueue(w, key, ttl, newId))
  {
    var w', target := DoEnqueue(w, key, ttl, newId), Target(w, key, newId);
    if target.Some? {
      var id := target.value;
      assert id in w.rows ==> RowOk(w, id);
      assert key.Some? && key.value in w.index ==> IndexOk(w, key.value);
      AppendMark(MarksOf(w, id), Enqueued(w.now));
      forall f | f in w'.flights ensures FlightFits(w', f) { FlightStays(w, w', f); }
      forall j | j in w'.rows ensures RowOk(w', j) { assert j in w.rows ==> RowOk(w, j); }
      forall k | k in w'.index ensures IndexOk(w', k) { assert k in w.index ==> IndexOk(w, k); }
    }
  }

  lemma {:induction false} ClaimKeeps(w: World, locked: set<int>, id: int)
    requires Valid(w) && id in Picked(w, locked)
    ensures id in w.marks && MarksOk(w.marks[id] + [Claimed(w.now)])
    ensures RowOk(w, id) && !Purgeable(w.rows[id], w.now)
    ensures ClaimsSince(w.marks[id] + [Claimed(w.now)]) == w.rows[id].attempts + 1
  {
    assert RowOk(w, id);
    AppendMark(w.marks[id], Claimed(w.now));
  }

  lemma {:induction false} NewFlightFits(w: World, locked: set<int>, f: Flight)
    requires Valid(w) && f in DoBatch(w, locked).flights && f !in w.flights
    ensures f.id in Picked(w, locked) && FlightFits(DoBatch(w, locked), f)
    ensures f == Flight(f.id, w.rows[f.id].attempts + 1, |w.marks[f.id]|)
  {
    ClaimKeeps(w, locked, f.id);
    var ms := w.marks[f.id] + [Claimed(w.now)];
    assert ms[..|w.marks[f.id]| + 1] == ms;
  }

  lemma {:induction false} BatchKeeps(w: World, locked: set<int>)
    requires Valid(w)
    ensures Valid(DoBatch(w, locked))
  {
    var w', picked := DoBatch(w, locked), Picked(w, locked);
    forall f | f in w'.flights ensures FlightFits(w', f) {
      if f in w.flights { FlightStays(w, w', f); } else { NewFlightFits(w, locked, f); }
    }
    forall id | id in w'.marks ensures MarksOk(w'.marks[id]) {
      if id in picked { ClaimKeeps(w, locked, id); }
    }
    forall id | id in w'.rows ensures RowOk(w', id) {
      assert RowOk(w, id);
      if id in picked { ClaimKeeps(w, locked, id); }
    }
    forall k | k in w'.index ensures IndexOk(w', k) { assert IndexOk(w, k); }
  }

  lemma {:induction false} FinishKeeps(w: World, f: Flight, outcome: Outcome)
    requires Valid(w)
    ensures Valid(DoFinish(w, f, outcome))
  {
    var w' := DoFinish(w, f, outcome);
    if f.id in w.rows {
      assert RowOk(w, f.id);
      AppendMark(MarksOf(w, f.id), FinishMark(f.attempts, outcome, w.now));
    }
    forall g | g in w'.flights ensures FlightFits(w', g) { FlightStays(w, w', g); }
    forall id | id in w'.rows ensures RowOk(w', id) { assert RowOk(w, id); }
    forall k | k in w'.index ensures IndexOk(w', k) { assert IndexOk(w, k); }
  }

  lemma {:induction false} StepKeeps(w: World, e: Event)
    requires Valid(w) && Enabled(w, e)
    ensures Valid(Apply(w, e))
  {
    match e
    case Enqueue(key, ttl, newId) => EnqueueKeeps(w, key, ttl, newId);
    case Batch(locked) => BatchKeeps(w, locked);
    case Finish(f, outcome) => FinishKeeps(w, f, outcome);
    case _ =>
      forall f | f in Apply(w, e).flights ensures FlightFits(Apply(w, e), f) { assert FlightFits(w, f); }
      forall id | id in w.rows ensures RowOk(Apply(w, e), id) { assert RowOk(w, id); }
      forall k | k in w.index ensures IndexOk(Apply(w, e), k) { assert IndexOk(w, k); }
  }

  lemma {:induction false} Reachable(events: seq<Event>)
    ensures Valid(After(events))
  {
    if events != [] {
      var before, e := events[..|events| - 1], events[|events| - 1];
      Reachable(before);
      if Enabled(After(before), e) { StepKeeps(After(before), e); }
    }
  }

  /** In every run two claims of a row with nothing between them are more than 5 minutes apart: any
      closer pair is separated by a completion or a new enqueue. A claim directly after a failed
      delivery waits out its delay, and none directly follows a row's end. */
  lemma {:induction false} ClaimsAreSeparated(events: seq<Event>, id: int, i: nat)
    requires id in After(events).marks && 1 <= i < |After(events).marks[id]| && After(events).marks[id][i].Claimed?
    ensures MayClaim(After(events).marks[id][i - 1], After(events).marks[id][i].time)
  {
    Reachable(events);
  }

  /** In every run `attempts` is the number of claims since the last effective enqueue. */
  lemma {:induction false} AttemptsCountClaims(events: seq<Event>, id: int)
    requires id in After(events).rows
    ensures id in After(events).marks && After(events).rows[id].attempts == ClaimsSince(After(events).marks[id])
  {
    Reachable(events);
    assert RowOk(After(events), id);
  }

  // ----- Backoff -----

  lemma {:induction false} PowerGrows(m: nat, n: nat)
    requires m <= n
    ensures 1 <= Power2(m) <= Power2(n)
  {
    if m < n {
      PowerGrows(m, n - 1);
    } else if m > 0 {
      PowerGrows(m - 1, m - 1);
    }
  }

  /** Delays never decrease with the attempts, and lie between 2 and 1024 seconds: the limit of an
      hour never applies. */
  lemma {:induction false} DelaysGrow(a: int, b: int)
    requires a <= b
    ensures 2 <= DelaySeconds(a) <= DelaySeconds(b) <= 1024
    ensures DelaySeconds(b) == Power2(Clamp(b, 1, 10))
  {
    PowerGrows(1, Clamp(a, 1, 10));
    PowerGrows(Clamp(a, 1, 10), Clamp(b, 1, 10));
    PowerGrows(Clamp(b, 1, 10), 10);
    TenthPower();
  }

  lemma {:induction false} TenthPower()
    ensures Power2(1) == 2 && Power2(10) == 1024
  {
    assert Power2(4) == 16;
    assert Power2(8) == 256;
  }

  // ----- What a completion acts on -----

  /** The place of the last effective enqueue. */
  function LastEnqueue(ms: seq<Mark>): (i: int)
    ensures -1 <= i < |ms|
    ensures i >= 0 ==> ms[i].Enqueued?
    ensures forall j :: i < j < |ms| ==> !ms[j].Enqueued?
  {
    if ms == [] then -1 else if ms[|ms| - 1].Enqueued? then |ms| - 1 else LastEnqueue(ms[..|ms| - 1])
  }

  /** After place `n` the row was neither enqueued nor claimed. */
  predicate Quiet(ms: seq<Mark>, n: nat) {
    forall i :: n < i < |ms| ==> !ms[i].Enqueued? && !ms[i].Claimed?
  }

  /** Since its claim the row was neither enqueued nor claimed again. */
  predicate Untouched(w: World, f: Flight)
    requires f.id in w.marks
  {
    Quiet(w.marks[f.id], f.serial)
  }

  /** The row was enqueued again after the claim and not claimed since. */
  predicate Replaced(w: World, f: Flight)
    requires f.id in w.marks
  {
    f.serial < LastEnqueue(w.marks[f.id]) && Unclaimed(w.marks[f.id])
  }

  /** No claim since the last enqueue. */
  predicate Unclaimed(ms: seq<Mark>) {
    forall j :: LastEnqueue(ms) < j < |ms| ==> !ms[j].Claimed?
  }

  lemma {:induction false} ClaimsAfter(ms: seq<Mark>, n: nat)
    requires n <= |ms| && forall i :: n <= i < |ms| ==> !ms[i].Enqueued?
    ensures ClaimsSince(ms) >= ClaimsSince(ms[..n])
    ensures ClaimsSince(ms) == ClaimsSince(ms[..n]) <==> forall i :: n <= i < |ms| ==> !ms[i].Claimed?
  {
    if n == |ms| {
      assert ms[..n] == ms;
    } else {
      ClaimsAfter(ms[..|ms| - 1], n);
      assert ms[..|ms| - 1][..n] == ms[..n];
      assert forall i :: n <= i < |ms| - 1 ==> ms[..|ms| - 1][i] == ms[i];
    }
  }

  lemma {:induction false} NoClaimsSince(ms: seq<Mark>)
    requires MarksOk(ms)
    ensures ClaimsSince(ms) == 0 <==> Unclaimed(ms)
  {
    var last := LastEnqueue(ms);
    ClaimsAfter(ms, last + 1);
    assert last >= 0;
    assert ms[..last + 1][last] == ms[last];
  }

  /** In every run a completion reaches the enqueue and the attempt it was claimed for exactly when
      the row was neither enqueued nor claimed again since. */
  lemma {:induction false} FinishServesIff(events: seq<Event>, f: Flight)
    requires var w := After(events); f in w.flights && f.id in w.rows
    ensures var w := After(events);
            && f.id in w.marks && f.serial < |w.marks[f.id]|
            && (Untouched(w, f) <==>
                  LastEnqueue(w.marks[f.id]) == LastEnqueue(w.marks[f.id][..f.serial]) && w.rows[f.id].attempts == f.attempts)
  {
    var w := After(events);
    Reachable(events);
    assert FlightFits(w, f) && RowOk(w, f.id);
    QuietIff(w.marks[f.id], f.serial);
  }

  lemma {:induction false} QuietIff(ms: seq<Mark>, n: nat)
    requires n < |ms| && ms[n].Claimed?
    ensures Quiet(ms, n) <==>
            LastEnqueue(ms) == LastEnqueue(ms[..n]) && ClaimsSince(ms) == ClaimsSince(ms[..n + 1])
  {
    var last := LastEnqueue(ms);
    assert last != n;
    if last < n {
      SameLast(ms, n);
      ClaimsAfter(ms, n + 1);
    }
  }

  lemma {:induction false} SameLast(ms: seq<Mark>, n: nat)
    requires n <= |ms| && LastEnqueue(ms) < n
    ensures LastEnqueue(ms[..n]) == LastEnqueue(ms)
  {
    var i, j := LastEnqueue(ms), LastEnqueue(ms[..n]);
    assert j >= 0 ==> ms[j] == ms[..n][j];
    assert i >= 0 ==> ms[..n][i] == ms[i];
  }

  /** A completed delivery ends a row whose present content was never claimed exactly when the row
      was enqueued again after the delivery's claim, and not claimed since. */
  lemma {:induction false} UnclaimedIsSentIff(events: seq<Event>, f: Flight)
    requires var w := After(events); f in w.flights && f.id in w.rows
    ensures var w := After(events);
            var row := DoFinish(w, f, Completed).rows[f.id];
            row.status.Sent? && f.id in w.marks && (row.attempts == 0 <==> Replaced(w, f))
  {
    var w := After(events);
    Reachable(events);
    assert FlightFits(w, f) && RowOk(w, f.id);
    NoClaimsSince(w.marks[f.id]);
    if Unclaimed(w.marks[f.id]) { UnclaimedIsLater(w.marks[f.id], f.serial); }
  }

  lemma {:induction false} UnclaimedIsLater(ms: seq<Mark>, n: nat)
    requires n < |ms| && ms[n].Claimed? && Unclaimed(ms)
    ensures n < LastEnqueue(ms)
  {
    assert n != LastEnqueue(ms);
  }

  // ----- At most eight attempts -----

  function ClaimTime(w: World, f: Flight): int {
    if f.id in w.marks && f.serial < |w.marks[f.id]| then w.marks[f.id][f.serial].time else 0
  }

  /** Nothing is abandoned, a delivery ends within its lease, and no enqueue hits a row that is being
      delivered. */
  ghost predicate Orderly(w: World, e: Event) {
    match e
    case Abandon(f) => f !in w.flights
    case Tick(elapsed) => forall f :: f in w.flights ==> w.now + elapsed - ClaimTime(w, f) <= LEASE
    case Enqueue(key, _, newId) => forall f :: f in w.flights ==> Target(w, key, newId) != Some(f.id)
    case _ => true
  }

  ghost predicate AllOrderly(events: seq<Event>) {
    events != [] ==>
      var before, e := events[..|events| - 1], events[|events| - 1];
      AllOrderly(before) && (Enabled(After(before), e) ==> Orderly(After(before), e))
  }

  /** An open delivery is the last thing that happened to its row. */
  ghost predicate FlightOk(w: World, f: Flight) {
    && f.id in w.rows && w.rows[f.id].status.Processing? && w.rows[f.id].attempts == f.attempts
    && f.serial == |MarksOf(w, f.id)| - 1 && w.now - ClaimTime(w, f) <= LEASE
  }

  ghost predicate InFlight(w: World, id: int) { exists f :: f in w.flights && f.id == id }

  predicate IsOver(row: Row) { row.status.Sent? || row.status.Dead? }

  /** A row whose delivery is over is ended, or has attempts left. */
  ghost predicate ProgressOk(w: World, id: int)
    requires id in w.rows
  {
    var row := w.rows[id];
    && row.attempts <= MAX_ATTEMPTS
    && (row.status.Pending? || row.status.Retry? ==> row.attempts < MAX_ATTEMPTS)
    && (row.status.Processing? ==> InFlight(w, id))
  }

  ghost predicate Prompted(w: World) {
    && (forall f :: f in w.flights ==> FlightOk(w, f))
    && (forall f, g :: f in w.flights && g in w.flights && f.id == g.id ==> f == g)
    && (forall id :: id in w.rows ==> ProgressOk(w, id))
  }

  /** A row that is being delivered is not picked again. */
  lemma {:induction false} OpenIsNotPicked(w: World, locked: set<int>, f: Flight)
    requires Valid(w) && Prompted(w) && f in w.flights
    ensures f.id !in Picked(w, locked)
  {
    assert FlightOk(w, f) && RowOk(w, f.id);
  }

  lemma {:induction false} BatchPromptsRow(w: World, locked: set<int>, id: int)
    requires Valid(w) && Prompted(w) && id in DoBatch(w, locked).rows
    ensures ProgressOk(DoBatch(w, locked), id)
  {
    assert ProgressOk(w, id);
    if id in Picked(w, locked) {
      if InFlight(w, id) {
        var f :| f in w.flights && f.id == id;
        OpenIsNotPicked(w, locked, f);
      }
      assert Flight(id, w.rows[id].attempts + 1, |MarksOf(w, id)|) in DoBatch(w, locked).flights;
    } else if w.rows[id].status.Processing? {
      var f :| f in w.flights && f.id == id;
      assert f in DoBatch(w, locked).flights;
    }
  }

  lemma {:induction false} BatchPrompts(w: World, locked: set<int>)
    requires Valid(w) && Prompted(w)
    ensures Prompted(DoBatch(w, locked))
  {
    var w' := DoBatch(w, locked);
    forall f | f in w'.flights ensures FlightOk(w', f) {
      if f in w.flights {
        OpenIsNotPicked(w, locked, f);
        assert FlightOk(w, f);
      } else {
        NewFlightFits(w, locked, f);
        ClaimKeeps(w, locked, f.id);
      }
    }
    forall f, g | f in w'.flights && g in w'.flights && f.id == g.id ensures f == g {
      if f !in w.flights { NewFlightFits(w, locked, f); } else { OpenIsNotPicked(w, locked, f); }
      if g !in w.flights { NewFlightFits(w, locked, g); } else { OpenIsNotPicked(w, locked, g); }
    }
    forall id | id in w'.rows ensures ProgressOk(w', id) { BatchPromptsRow(w, locked, id); }
  }

  lemma {:induction false} FinishPrompts(w: World, f: Flight, outcome: Outcome)
    requires Valid(w) && Prompted(w) && f in w.flights
    ensures Prompted(DoFinish(w, f, outcome))
  {
    var w' := DoFinish(w, f, outcome);
    assert FlightOk(w, f);
    forall g | g in w'.flights ensures FlightOk(w', g) { assert FlightOk(w, g); }
    forall id | id in w'.rows ensures ProgressOk(w', id) {
      assert ProgressOk(w, id);
      if id != f.id && w.rows[id].status.Processing? {
        var g :| g in w.flights && g.id == id;
        assert g in w'.flights;
      }
    }
  }

  lemma {:induction false} EnqueuePrompts(w: World, key: Option<string>, ttl: int, newId: int)
    requires Valid(w) && Prompted(w) && Enabled(w, Enqueue(key, ttl, newId)) && Orderly(w, Enqueue(key, ttl, newId))
    ensures Prompted(DoEnqueue(w, key, ttl, newId))
  {
    var w' := DoEnqueue(w, key, ttl, newId);
    forall f | f in w'.flights ensures FlightOk(w', f) { assert FlightOk(w, f); }
    forall id | id in w'.rows ensures ProgressOk(w', id) {
      assert id in w.rows ==> ProgressOk(w, id);
      if w'.rows[id].status.Processing? {
        var f :| f in w.flights && f.id == id;
        assert f in w'.flights;
      }
    }
  }

  lemma {:induction false} TickPrompts(w: World, elapsed: nat)
    requires Prompted(w) && Orderly(w, Tick(elapsed))
    ensures Prompted(Apply(w, Tick(elapsed)))
  {
    var w' := Apply(w, Tick(elapsed));
    forall f | f in w'.flights ensures FlightOk(w', f) { assert FlightOk(w, f) && ClaimTime(w', f) == ClaimTime(w, f); }
    forall id | id in w'.rows ensures ProgressOk(w', id) { assert ProgressOk(w, id); }
  }

  lemma {:induction false} OrderlyStep(w: World, e: Event)
    requires Valid(w) && Prompted(w) && Enabled(w, e) && Orderly(w, e)
    ensures Prompted(Apply(w, e))
  {
    match e
    case Enqueue(key, ttl, newId) => EnqueuePrompts(w, key, ttl, newId);
    case Batch(locked) => BatchPrompts(w, locked);
    case Finish(f, outcome) => FinishPrompts(w, f, outcome);
    case Tick(elapsed) => TickPrompts(w, elapsed);
    case Abandon(f) => assert w.flights - {f} == w.flights;
  }

  lemma {:induction false} OrderlyRun(events: seq<Event>)
    requires AllOrderly(events)
    ensures Prompted(After(events))
  {
    if events != [] {
      var before, e := events[..|events| - 1], events[|events| - 1];
      OrderlyRun(before);
      Reachable(before);
      if Enabled(After(before), e) { OrderlyStep(After(before), e); }
    }
  }

  /** In an orderly run a row never takes more than 8 claims, and one that has used them with no
      delivery open is sent or dead. */
  lemma {:induction false} EndsWithinEight(events: seq<Event>, id: int)
    requires AllOrderly(events) && id in After(events).rows
    ensures After(events).rows[id].attempts <= 8
    ensures After(events).rows[id].attempts == 8 && !InFlight(After(events), id) ==> IsOver(After(events).rows[id])
  {
    OrderlyRun(events);
    assert ProgressOk(After(events), id);
  }

  /** And every completion of an orderly run acts on the enqueue and the attempt it was claimed for. */
  lemma {:induction false} OrderlyServes(events: seq<Event>, f: Flight)
    requires AllOrderly(events) && f in After(events).flights
    ensures f.id in After(events).marks && Untouched(After(events), f)
  {
    OrderlyRun(events);
    Reachable(events);
    assert FlightOk(After(events), f) && FlightFits(After(events), f);
  }

  // ----- Where the order matters -----

  lemma {:induction false} Next(events: seq<Event>, e: Event)
    requires Enabled(After(events), e)
    ensures After(events + [e]) == Apply(After(events), e)
  {
    assert (events + [e])[..|events|] == events;
  }

  lemma {:induction false} FirstEnqueue(ttl: int) returns (events: seq<Event>)
    ensures events == [Enqueue(Some("k"), ttl, 1)]
    ensures After(events) ==
            World(0, map[1 := NewRow(Some("k"), ttl, 0)], map["k" := 1], {}, map[1 := [Enqueued(0)]], map["k" := [Entry(0, ttl)]])
  {
    events := [Enqueue(Some("k"), ttl, 1)];
    assert events[..0] == [];
    assert MarksOf(EMPTY, 1) + [Enqueued(0)] == [Enqueued(0)];
    assert EntriesOf(EMPTY, "k") + [Entry(0, ttl)] == [Entry(0, ttl)];
  }

  /** A batch over a table with one row that is due. */
  lemma {:induction false} BatchOfOne(w: World)
    requires w.rows.Keys == {1} && w.marks.Keys == {1} && (forall k :: k in w.index ==> w.index[k] == 1)
    requires Eligible(w.rows[1], w.now) && !Purgeable(w.rows[1], w.now)
    ensures DoBatch(w, {}) == w.(
              rows := map[1 := Claim(w.rows[1], w.now)],
              flights := w.flights + {Flight(1, w.rows[1].attempts + 1, |w.marks[1]|)},
              marks := map[1 := w.marks[1] + [Claimed(w.now)]])
  {
    var w' := DoBatch(w, {});
    assert Below(w, {}, 1) == {};
    assert Picked(w, {}) == {1};
    assert w'.flights == w.flights + {Flight(1, w.rows[1].attempts + 1, |w.marks[1]|)};
    assert w'.rows == map[1 := Claim(w.rows[1], w.now)];
    assert w'.marks == map[1 := w.marks[1] + [Claimed(w.now)]];
    assert w'.index == w.index;
  }

  lemma {:induction false} ClaimedAtOnce(ttl: int) returns (events: seq<Event>)
    ensures events == [Enqueue(Some("k"), ttl, 1), Batch({})]
    ensures After(events) ==
            World(0, map[1 := Claim(NewRow(Some("k"), ttl, 0), 0)], map["k" := 1], {Flight(1, 1, 1)},
                  map[1 := [Enqueued(0), Claimed(0)]], map["k" := [Entry(0, ttl)]])
  {
    var one := FirstEnqueue(ttl);
    BatchOfOne(After(one));
    Next(one, Batch({}));
    events := one + [Batch({})];
    assert [Enqueued(0)] + [Claimed(0)] == [Enqueued(0), Claimed(0)];
  }

  /** A row that is enqueued again, after its time to live of a second, while it is being delivered. */
  lemma {:induction false} EnqueuedTwice() returns (events: seq<Event>)
    ensures After(events) ==
            World(SECOND, map[1 := NewRow(Some("k"), SECOND, SECOND)], map["k" := 1], {Flight(1, 1, 1)},
                  map[1 := [Enqueued(0), Claimed(0), Enqueued(SECOND)]], map["k" := [Entry(0, SECOND), Entry(SECOND, SECOND)]])
    ensures forall e :: e in events ==> !e.Abandon?
  {
    var again := Enqueue(Some("k"), SECOND, 2);
    var claimed := ClaimedAtOnce(SECOND);
    Next(claimed, Tick(SECOND));
    var later := claimed + [Tick(SECOND)];
    var w := After(later);
    assert Target(w, Some("k"), 2) == Some(1);
    Next(later, again);
    events := later + [again];
    assert MarksOf(w, 1) + [Enqueued(SECOND)] == [Enqueued(0), Claimed(0), Enqueued(SECOND)];
    assert EntriesOf(w, "k") + [Entry(SECOND, SECOND)] == [Entry(0, SECOND), Entry(SECOND, SECOND)];
  }

  /** The delivery ends a second after its claim, and the second enqueue is marked as sent without
      ever being claimed. */
  lemma {:induction false} NeverClaimed() returns (events: seq<Event>)
    ensures var w := After(events);
            && 1 in w.rows && w.rows[1].status.Sent? && w.rows[1].attempts == 0
            && w.effective == map["k" := [Entry(0, SECOND), Entry(SECOND, SECOND)]]
    ensures forall e :: e in events ==> !e.Abandon?
  {
    var twice := EnqueuedTwice();
    Next(twice, Finish(Flight(1, 1, 1), Completed));
    events := twice + [Finish(Flight(1, 1, 1), Completed)];
  }

  /** The second enqueue has failed `n` times and is due again, within its first four minutes, while
      the first delivery is still open. */
  ghost predicate Due(w: World, n: nat) {
    && w.rows.Keys == {1} && w.marks.Keys == {1} && (forall k :: k in w.index ==> w.index[k] == 1)
    && |w.marks[1]| >= 3 && w.flights == {Flight(1, 1, 1)} && w.now == (Power2(n + 1) - 1) * SECOND
    && w.rows[1].attempts == n && w.rows[1].availableAt <= w.now
    && (w.rows[1].status.Pending? || w.rows[1].status.Retry?)
  }

  lemma {:induction false} ClaimDue(before: seq<Event>, n: nat) returns (events: seq<Event>)
    requires Due(After(before), n)
    ensures events == before + [Batch({})]
    ensures var w := After(before);
            After(events) == w.(
              rows := map[1 := Claim(w.rows[1], w.now)],
              flights := {Flight(1, 1, 1), Flight(1, n + 1, |w.marks[1]|)},
              marks := map[1 := w.marks[1] + [Claimed(w.now)]])
  {
    BatchOfOne(After(before));
    Next(before, Batch({}));
    events := before + [Batch({})];
  }

  /** Claiming the row and failing to deliver it. */
  lemma {:induction false} FailOnce(before: seq<Event>, n: nat) returns (events: seq<Event>)
    requires Due(After(before), n) && forall e :: e in before ==> !e.Abandon?
    ensures var w, w' := After(before), After(events);
            && w'.rows == map[1 := Finished(Claim(w.rows[1], w.now), n + 1, Undelivered, w.now)]
            && w'.marks.Keys == {1} && |w'.marks[1]| >= 3 && w'.index == w.index && w'.now == w.now
            && w'.flights == {Flight(1, 1, 1)}
    ensures forall e :: e in events ==> !e.Abandon?
  {
    var w := After(before);
    var g := Flight(1, n + 1, |w.marks[1]|);
    var claimed := ClaimDue(before, n);
    Next(claimed, Finish(g, Undelivered));
    events := claimed + [Finish(g, Undelivered)];
    assert {Flight(1, 1, 1), g} - {g} == {Flight(1, 1, 1)};
  }

  lemma {:induction false} FailAgain(before: seq<Event>, n: nat) returns (events: seq<Event>)
    requires n < 7 && Due(After(before), n) && forall e :: e in before ==> !e.Abandon?
    ensures Due(After(events), n + 1) && forall e :: e in events ==> !e.Abandon?
  {
    var failed := FailOnce(before, n);
    DelaysGrow(n + 1, n + 1);
    Next(failed, Tick(Delay(n + 1)));
    events := failed + [Tick(Delay(n + 1))];
    assert Power2(n + 2) == 2 * Power2(n + 1);
  }

  lemma {:induction false} FailTimes(n: nat) returns (events: seq<Event>)
    requires n <= 7
    ensures Due(After(events), n) && forall e :: e in events ==> !e.Abandon?
  {
    if n == 0 {
      events := EnqueuedTwice();
    } else {
      var before := FailTimes(n - 1);
      events := FailAgain(before, n - 1);
    }
  }

  /** The first seven delays add up to 254 seconds, less than the lease. So the second enqueue can
      use its eight attempts and be dead before the first delivery fails, which revives it for a
      ninth claim; every delivery of the run ends within its lease, and none is abandoned. */
  lemma {:induction false} NinthClaim() returns (events: seq<Event>)
    ensures var w := After(events); 1 in w.rows && w.rows[1].attempts == 9 && w.now <= LEASE
    ensures forall e :: e in events ==> !e.Abandon?
  {
    var seven := FailTimes(7);
    EighthPower();
    var dead := FailOnce(seven, 7);
    var first := Flight(1, 1, 1);
    DelaysGrow(1, 1);
    Next(dead, Finish(first, Undelivered));
    var revived := dead + [Finish(first, Undelivered)];
    Next(revived, Tick(2 * SECOND));
    var due := revived + [Tick(2 * SECOND)];
    TenthPower();
    BatchOfOne(After(due));
    Next(due, Batch({}));
    events := due + [Batch({})];
  }

  /** A row claimed `n` times whose last claim was left behind more than a lease ago. */
  ghost predicate LeftBehind(w: World, n: nat) {
    && w.rows.Keys == {1} && w.marks.Keys == {1} && (forall k :: k in w.index ==> w.index[k] == 1)
    && w.flights == {} && w.rows[1].attempts == n && w.rows[1].status.Processing?
    && w.rows[1].lockedAt.Some? && w.rows[1].lockedAt.value < w.now - LEASE
  }

  lemma {:induction false} LeaveBehind(before: seq<Event>) returns (events: seq<Event>)
    requires var w := After(before);
             && w.rows.Keys == {1} && w.marks.Keys == {1} && (forall k :: k in w.index ==> w.index[k] == 1)
             && w.flights == {} && Eligible(w.rows[1], w.now) && !Purgeable(w.rows[1], w.now)
    ensures After(before).rows[1].attempts >= 0 ==> LeftBehind(After(events), After(before).rows[1].attempts + 1)
  {
    var w := After(before);
    var g := Flight(1, w.rows[1].attempts + 1, |w.marks[1]|);
    BatchOfOne(w);
    Next(before, Batch({}));
    var claimed := before + [Batch({})];
    assert After(claimed).flights == {g};
    Next(claimed, Abandon(g));
    var abandoned := claimed + [Abandon(g)];
    Next(abandoned, Tick(LEASE + 1));
    events := abandoned + [Tick(LEASE + 1)];
  }

  /** Abandoned claims are not limited at all: only a completion looks at the attempts. */
  lemma {:induction false} AbandonedTimes(n: nat) returns (events: seq<Event>)
    requires n >= 1
    ensures LeftBehind(After(events), n)
  {
    var before;
    if n == 1 { before := FirstEnqueue(SECOND); } else { before := AbandonedTimes(n - 1); }
    events := LeaveBehind(before);
  }

  lemma {:induction false} EighthPower()
    ensures Power2(8) == 256
  {
    assert Power2(4) == 16;
  }

  // ----- Deduplication across the purge -----

  /** Effective enqueues of one key are at least the earlier one's time to live apart. */
  ghost predicate Apart(es: seq<Entry>) {
    forall i :: 1 <= i < |es| ==> es[i].time >= es[i - 1].time + es[i - 1].ttl
  }

  /** The last effective enqueue is in its row, or its row was purged a retention time later. */
  ghost predicate KeyOk(w: World, k: string)
    requires k in w.effective
  {
    var es := w.effective[k];
    && es != [] && Apart(es)
    && (if k in w.index && w.index[k] in w.rows
        then w.rows[w.index[k]].createdAt == es[|es| - 1].time &&
             w.rows[w.index[k]].dedupExpires == Some(es[|es| - 1].time + es[|es| - 1].ttl)
        else w.now > es[|es| - 1].time + RETENTION)
  }

  ghost predicate Deduplicated(w: World) { forall k :: k in w.effective ==> KeyOk(w, k) }

  ghost predicate ShortLived(w: World) {
    forall k, i :: k in w.effective && 0 <= i < |w.effective[k]| ==> w.effective[k][i].ttl <= RETENTION
  }

  /** An enqueue takes effect only once the last one's time to live is over. */
  lemma {:induction false} EffectiveIsLate(w: World, k: string, newId: int)
    requires Valid(w) && k in w.effective && KeyOk(w, k) && Target(w, Some(k), newId).Some?
    requires var es := w.effective[k]; es[|es| - 1].ttl <= RETENTION
    ensures var es := w.effective[k]; w.now >= es[|es| - 1].time + es[|es| - 1].ttl
  {
    assert k in w.index ==> IndexOk(w, k);
  }

  lemma {:induction false} EnqueueDedups(w: World, key: Option<string>, ttl: int, newId: int)
    requires Valid(w) && Deduplicated(w) && ShortLived(w) && newId !in w.rows
    ensures Deduplicated(DoEnqueue(w, key, ttl, newId))
  {
    var w' := DoEnqueue(w, key, ttl, newId);
    forall k | k in w'.effective ensures KeyOk(w', k) {
      if key == Some(k) && Target(w, key, newId).Some? {
        EnqueueHere(w, k, ttl, newId);
      } else {
        EnqueueElsewhere(w, key, ttl, newId, k);
      }
    }
  }

  lemma {:induction false} EnqueueHere(w: World, k: string, ttl: int, newId: int)
    requires Valid(w) && (k in w.effective ==> KeyOk(w, k)) && ShortLived(w) && Target(w, Some(k), newId).Some?
    ensures KeyOk(DoEnqueue(w, Some(k), ttl, newId), k)
  {
    if k in w.effective { EffectiveIsLate(w, k, newId); }
    AppendEntry(EntriesOf(w, k), Entry(w.now, ttl));
  }

  lemma {:induction false} EnqueueElsewhere(w: World, key: Option<string>, ttl: int, newId: int, k: string)
    requires Valid(w) && newId !in w.rows && k in w.effective && KeyOk(w, k)
    requires key != Some(k) || Target(w, key, newId).None?
    ensures KeyOk(DoEnqueue(w, key, ttl, newId), k)
  {
    assert k in w.index ==> IndexOk(w, k);
    assert key.Some? && key.value in w.index ==> IndexOk(w, key.value);
  }

  lemma {:induction false} AppendEntry(es: seq<Entry>, e: Entry)
    requires Apart(es) && (es != [] ==> e.time >= es[|es| - 1].time + es[|es| - 1].ttl)
    ensures Apart(es + [e])
  {
  }

  /** A batch purges the row of a key only a retention time after its last enqueue. */
  lemma {:induction false} BatchKey(w: World, locked: set<int>, k: string)
    requires Valid(w) && k in w.index && k in w.effective && KeyOk(w, k)
    ensures var w', row := DoBatch(w, locked), w.rows[w.index[k]];
            if k in w'.index then
              w'.index[k] == w.index[k] && w.index[k] in w'.rows &&
              w'.rows[w.index[k]].createdAt == row.createdAt && w'.rows[w.index[k]].dedupExpires == row.dedupExpires
            else w.now > row.createdAt + RETENTION
  {
    assert IndexOk(w, k) && RowOk(w, w.index[k]);
  }

  lemma {:induction false} BatchKeepsKey(w: World, locked: set<int>, k: string)
    requires Valid(w) && k in w.effective && KeyOk(w, k)
    ensures KeyOk(DoBatch(w, locked), k)
  {
    if k in w.index {
      assert IndexOk(w, k);
      BatchKey(w, locked, k);
    }
  }

  lemma {:induction false} BatchDedups(w: World, locked: set<int>)
    requires Valid(w) && Deduplicated(w)
    ensures Deduplicated(DoBatch(w, locked))
  {
    var w' := DoBatch(w, locked);
    forall k | k in w'.effective ensures KeyOk(w', k) {
      assert KeyOk(w, k);
      BatchKeepsKey(w, locked, k);
    }
  }

  lemma {:induction false} FinishDedups(w: World, f: Flight, outcome: Outcome)
    requires Valid(w) && Deduplicated(w)
    ensures Deduplicated(DoFinish(w, f, outcome))
  {
    var w' := DoFinish(w, f, outcome);
    forall k | k in w'.effective ensures KeyOk(w', k) { assert KeyOk(w, k); }
  }

  /** Every time to live in a run is at most `limit`. */
  ghost predicate TtlsWithin(events: seq<Event>, limit: int) {
    forall i :: 0 <= i < |events| && events[i].Enqueue? ==> events[i].ttl <= limit
  }

  lemma {:induction false} TtlsRecorded(events: seq<Event>)
    requires TtlsWithin(events, RETENTION)
    ensures ShortLived(After(events))
  {
    if events != [] {
      TtlsRecorded(events[..|events| - 1]);
    }
  }

  lemma {:induction false} DedupKept(events: seq<Event>)
    requires TtlsWithin(events, RETENTION)
    ensures Deduplicated(After(events))
  {
    if events != [] {
      var before, e := events[..|events| - 1], events[|events| - 1];
      DedupKept(before);
      Reachable(before);
      TtlsRecorded(before);
      var w := After(before);
      if Enabled(w, e) {
        match e
        case Enqueue(key, ttl, newId) => EnqueueDedups(w, key, ttl, newId);
        case Batch(locked) => BatchDedups(w, locked);
        case Finish(f, outcome) => FinishDedups(w, f, outcome);
        case _ => forall k | k in w.effective ensures KeyOk(Apply(w, e), k) { assert KeyOk(w, k); }
      }
    }
  }

  ghost predicate AlwaysApart(limit: int) {
    forall events, k ::
      TtlsWithin(events, limit) && k in After(events).effective ==> Apart(After(events).effective[k])
  }

  /** A row is enqueued, claimed and sent at once. */
  lemma {:induction false} SentAtOnce(ttl: int) returns (events: seq<Event>)
    ensures TtlsWithin(events, ttl) && var w := After(events);
            && w.now == 0 && w.rows.Keys == {1} && w.rows[1].status.Sent? && w.rows[1].sentAt == Some(0)
            && w.index == map["k" := 1] && w.marks.Keys == {1} && w.effective == map["k" := [Entry(0, ttl)]]
  {
    var claimed := ClaimedAtOnce(ttl);
    Next(claimed, Finish(Flight(1, 1, 1), Completed));
    events := claimed + [Finish(Flight(1, 1, 1), Completed)];
  }

  /** A row with a longer time to live is purged 30 days after it was sent. */
  lemma {:induction false} PurgedTooEarly(ttl: int) returns (events: seq<Event>)
    requires ttl > RETENTION + 1
    ensures TtlsWithin(events, ttl) && var w := After(events);
            && w.now == RETENTION + 1 && w.rows == map[] && w.index == map[] && 2 !in w.marks
            && w.effective == map["k" := [Entry(0, ttl)]]
  {
    var sent := SentAtOnce(ttl);
    Next(sent, Tick(RETENTION + 1));
    var later := sent + [Tick(RETENTION + 1)];
    assert Purgeable(After(later).rows[1], After(later).now);
    Next(later, Batch({}));
    events := later + [Batch({})];
    assert After(events).rows == map[];
  }

  /** Two effective enqueues of a key are always at least the first one's time to live apart, over
      every interleaving with claims, completions and the purge, exactly when no time to live is
      longer than the 30 days for which ended rows are kept. */
  lemma {:induction false} DedupIff(seconds: int)
    ensures AlwaysApart(seconds * SECOND) <==> seconds <= 2_592_000
  {
    var ttl := seconds * SECOND;
    if ttl <= RETENTION {
      forall events, k | TtlsWithin(events, ttl) && k in After(events).effective ensures Apart(After(events).effective[k]) {
        DedupKept(events);
        assert KeyOk(After(events), k);
      }
    } else {
      var events := PurgedTooEarly(ttl);
      Next(events, Enqueue(Some("k"), ttl, 2));
      var again := events + [Enqueue(Some("k"), ttl, 2)];
      var es := After(again).effective["k"];
      assert es == [Entry(0, ttl), Entry(RETENTION + 1, ttl)];
      assert es[1].time < es[0].time + es[0].ttl;
      assert TtlsWithin(again, ttl);
    }
  }

  // ----- One notification to several devices -----

  datatype DeliveryOutcome = ProviderAccepted | InvalidDevice | ProviderRejected

  /** One rejection makes the whole delivery a rejection; else one acceptance is enough. */
  method SendToTokens(results: seq<DeliveryOutcome>) returns (outcome: DeliveryOutcome)
    ensures outcome.ProviderRejected? <==> ProviderRejected in results
    ensures outcome.ProviderAccepted? <==> ProviderAccepted in results && ProviderRejected !in results
  {
    outcome := InvalidDevice;
    for i := 0 to |results|
      invariant outcome.ProviderRejected? <==> ProviderRejected in results[..i]
      invariant outcome.ProviderAccepted? <==> ProviderAccepted in results[..i] && ProviderRejected !in results[..i]
    {
      var next := results[i];
      if next == ProviderRejected || outcome == ProviderRejected {
        outcome := ProviderRejected;
      } else if next == ProviderAccepted {
        outcome := next;
      }
      assert results[..i + 1] == results[..i] + [next];
    }
    assert results[..|results|] == results;
  }
}
