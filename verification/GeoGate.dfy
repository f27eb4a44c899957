/** The gate that all API workers share before calling the geocoding provider. Times are milliseconds. */
module GeoGate {
  import opened Options

  const LEASE: int := 30_000
  const COOLDOWN: int := 1_000
  const CALL_LIMIT: int := 10_000

  /** Each request draws its own token, so the token names the request. */
  datatype Lease = Lease(token: int, expires: int)

  datatype Phase =
    | Holding(acquired: int)
    | Calling(acquired: int, started: int, call: nat)
    | Ended
    | Gone

  /** One provider call; open while in flight. */
  datatype Call = Call(token: int, start: int, end: Option<int>)

  datatype World = World(now: int, gate: Option<Lease>, phases: map<int, Phase>, log: seq<Call>)

  const START: World := World(0, None, map[], [])

  datatype Event =
    | Acquire(token: int)
    | Begin(token: int)
    | End(token: int)
    | Cancel(token: int)
    | Release(token: int)
    | Tick(elapsed: nat)

  // ----- The two commands on the gate key -----

  predicate Held(gate: Option<Lease>, now: int) {
    gate.Some? && now < gate.value.expires
  }

  /** `SET gate token NX PX 30000`. */
  function SetIfAbsent(gate: Option<Lease>, token: int, now: int): Option<Lease> {
    if Held(gate, now) then gate else Some(Lease(token, now + LEASE))
  }

  /** The release script: only the holder shortens its lease to the cooldown. */
  function Shorten(gate: Option<Lease>, token: int, now: int): Option<Lease> {
    if Held(gate, now) && gate.value.token == token then Some(Lease(token, now + COOLDOWN)) else gate
  }

  // ----- Runs -----

  function Close(log: seq<Call>, i: nat, now: int): seq<Call> {
    if i < |log| then log[i := log[i].(end := Some(now))] else log
  }


  /** Whether `e` can happen. A provider call starts at most `delay` after its lease was taken, and
      time cannot pass the end of a call's own limit. A release or a cancellation may come at any time. */
  ghost predicate Enabled(delay: int, s: World, e: Event) {
    match e
    case Acquire(token) => token !in s.phases
    case Begin(token) => token in s.phases && s.phases[token].Holding? && s.now - s.phases[token].acquired <= delay
    case End(token) => token in s.phases && s.phases[token].Calling?
    case Cancel(token) => token in s.phases
    case Release(token) => token in s.phases && s.phases[token].Ended?
    case Tick(elapsed) =>
      forall w :: w in s.phases && s.phases[w].Calling? ==> s.now + elapsed <= s.phases[w].started + CALL_LIMIT
  }

  function Apply(s: World, e: Event): World {
    match e
    case Acquire(token) =>
      // A busy gate answers 429 and the request ends.
      s.(gate := SetIfAbsent(s.gate, token, s.now),
         phases := s.phases[token := if Held(s.gate, s.now) then Gone else Holding(s.now)])
    case Begin(token) =>
      if token in s.phases && s.phases[token].Holding? then
        s.(phases := s.phases[token := Calling(s.phases[token].acquired, s.now, |s.log|)],
           log := s.log + [Call(token, s.now, None)])
      else s
    case End(token) =>
      if token in s.phases && s.phases[token].Calling? then
        s.(phases := s.phases[token := Ended], log := Close(s.log, s.phases[token].call, s.now))
      else s
    case Cancel(token) =>
      // Dropping the request aborts its provider call and leaves the lease as it is.
      s.(phases := s.phases[token := Gone],
         log := if token in s.phases && s.phases[token].Calling? then Close(s.log, s.phases[token].call, s.now) else s.log)
    case Release(token) =>
      s.(phases := s.phases[token := Gone], gate := Shorten(s.gate, token, s.now))
    case Tick(elapsed) => s.(now := s.now + elapsed)
  }

  /** Events that cannot happen are skipped, so every sequence of events is a run. */
  ghost function After(delay: int, events: seq<Event>): World {
    if events == [] then START
    else
      var s, e := After(delay, events[..|events| - 1]), events[|events| - 1];
      if Enabled(delay, s, e) then Apply(s, e) else s
  }

  // ----- The promise -----

  /** One call at a time, each starting a full second after the previous one ended. */
  ghost predicate Spaced(log: seq<Call>) {
    forall i, j :: 0 <= i < j < |log| ==> log[i].end.Some? && log[i].end.value + 1_000 <= log[j].start
  }

  // ----- The invariant -----

  /** Every call is over and its cooldown has passed at `t`. */
  ghost predicate QuietAt(log: seq<Call>, t: int) {
    forall i :: 0 <= i < |log| ==> log[i].end.Some? && log[i].end.value + COOLDOWN <= t
  }

  /** A call that ended is in the past, and the gate covers its cooldown. */
  ghost predicate Covered(s: World, i: nat)
    requires i < |s.log| && s.log[i].end.Some?
  {
    var end := s.log[i].end.value;
    end <= s.now && (end + COOLDOWN <= s.now || (s.gate.Some? && end + COOLDOWN <= s.gate.value.expires))
  }

  ghost predicate PhaseOk(delay: int, s: World, w: int)
    requires w in s.phases
  {
    match s.phases[w]
    case Holding(a) => a <= s.now && (s.now < a + LEASE ==> s.gate == Some(Lease(w, a + LEASE)) && QuietAt(s.log, a))
    case Calling(a, started, call) =>
      && s.gate == Some(Lease(w, a + LEASE)) && a <= started <= a + delay
      && started <= s.now <= started + CALL_LIMIT
      && call == |s.log| - 1 && s.log[call] == Call(w, started, None)
    case _ => true
  }

  ghost predicate OpenOk(s: World, i: nat)
    requires i < |s.log|
  {
    if s.log[i].end.Some? then Covered(s, i)
    else s.log[i].token in s.phases && s.phases[s.log[i].token].Calling? && s.phases[s.log[i].token].call == i
  }

  ghost predicate Inv(delay: int, s: World) {
    && (forall w :: w in s.phases ==> PhaseOk(delay, s, w))
    && (forall i :: 0 <= i < |s.log| ==> OpenOk(s, i))
    && Spaced(s.log)
  }

  predicate Bounded(delay: int) { 0 <= delay && delay + CALL_LIMIT + COOLDOWN <= LEASE }

  /** Once the gate is free every call is over, with its cooldown. */
  lemma {:induction false} FreeMeansQuiet(delay: int, s: World)
    requires Bounded(delay) && Inv(delay, s) && !Held(s.gate, s.now)
    ensures QuietAt(s.log, s.now)
    ensures forall w :: w in s.phases && s.phases[w].Holding? ==> s.phases[w].acquired + LEASE <= s.now
    ensures forall w :: w in s.phases ==> !s.phases[w].Calling?
  {
    forall w | w in s.phases
      ensures !s.phases[w].Calling?
      ensures s.phases[w].Holding? ==> s.phases[w].acquired + LEASE <= s.now
    {
      assert PhaseOk(delay, s, w);
    }
    forall i | 0 <= i < |s.log| ensures s.log[i].end.Some? && s.log[i].end.value + COOLDOWN <= s.now {
      assert OpenOk(s, i);
    }
  }

  lemma {:induction false} AcquireKeeps(delay: int, s: World, token: int)
    requires Bounded(delay) && Inv(delay, s) && token !in s.phases
    ensures Inv(delay, Apply(s, Acquire(token)))
  {
    var s' := Apply(s, Acquire(token));
    if !Held(s.gate, s.now) { FreeMeansQuiet(delay, s); }
    forall w | w in s'.phases ensures PhaseOk(delay, s', w) { assert w != token ==> PhaseOk(delay, s, w); }
    forall i | 0 <= i < |s'.log| ensures OpenOk(s', i) { assert OpenOk(s, i); }
  }

  /** While a lease is current no other request calls, or can still begin to. */
  lemma {:induction false} HolderAlone(delay: int, s: World, token: int, other: int)
    requires Bounded(delay) && Inv(delay, s) && token in s.phases && other in s.phases && token != other
    requires s.phases[token].Holding? || s.phases[token].Calling?
    requires s.now < s.phases[token].acquired + LEASE
    ensures !s.phases[other].Calling?
    ensures s.phases[other].Holding? ==> s.phases[other].acquired + LEASE <= s.now
  {
    assert PhaseOk(delay, s, token) && PhaseOk(delay, s, other);
  }

  lemma {:induction false} BeginKeeps(delay: int, s: World, token: int)
    requires Bounded(delay) && Inv(delay, s) && Enabled(delay, s, Begin(token))
    ensures Inv(delay, Apply(s, Begin(token)))
  {
    var s' := Apply(s, Begin(token));
    assert PhaseOk(delay, s, token);
    forall w | w in s'.phases ensures PhaseOk(delay, s', w) {
      if w != token {
        HolderAlone(delay, s, token, w);
        assert PhaseOk(delay, s, w);
      }
    }
    forall i | 0 <= i < |s'.log| ensures OpenOk(s', i) { assert i < |s.log| ==> OpenOk(s, i); }
  }

  /** The end of a call, by its answer or by cancellation. */
  lemma {:induction false} CloseKeeps(delay: int, s: World, token: int, next: Phase)
    requires Bounded(delay) && Inv(delay, s) && token in s.phases && s.phases[token].Calling?
    requires next.Ended? || next.Gone?
    ensures Inv(delay, s.(phases := s.phases[token := next], log := Close(s.log, s.phases[token].call, s.now)))
  {
    var s' := s.(phases := s.phases[token := next], log := Close(s.log, s.phases[token].call, s.now));
    assert PhaseOk(delay, s, token);
    forall w | w in s'.phases ensures PhaseOk(delay, s', w) {
      if w != token {
        HolderAlone(delay, s, token, w);
        assert PhaseOk(delay, s, w);
      }
    }
    forall i | 0 <= i < |s'.log| ensures OpenOk(s', i) { assert OpenOk(s, i); }
  }

  lemma {:induction false} CancelKeeps(delay: int, s: World, token: int)
    requires Bounded(delay) && Inv(delay, s) && token in s.phases
    ensures Inv(delay, Apply(s, Cancel(token)))
  {
    if s.phases[token].Calling? {
      CloseKeeps(delay, s, token, Gone);
    } else {
      var s' := Apply(s, Cancel(token));
      forall w | w in s'.phases ensures PhaseOk(delay, s', w) { assert PhaseOk(delay, s, w); }
      forall i | 0 <= i < |s'.log| ensures OpenOk(s', i) { assert OpenOk(s, i); }
    }
  }

  /** A release, however late, never opens the gate before the cooldown of any call. */
  lemma {:induction false} ReleaseKeeps(delay: int, s: World, token: int)
    requires Bounded(delay) && Inv(delay, s) && Enabled(delay, s, Release(token))
    ensures Inv(delay, Apply(s, Release(token)))
  {
    var s' := Apply(s, Release(token));
    forall w | w in s'.phases ensures PhaseOk(delay, s', w) { assert PhaseOk(delay, s, w); }
    forall i | 0 <= i < |s'.log| ensures OpenOk(s', i) { assert OpenOk(s, i); }
  }

  lemma {:induction false} TickKeeps(delay: int, s: World, elapsed: nat)
    requires Bounded(delay) && Inv(delay, s) && Enabled(delay, s, Tick(elapsed))
    ensures Inv(delay, Apply(s, Tick(elapsed)))
  {
    var s' := Apply(s, Tick(elapsed));
    forall w | w in s'.phases ensures PhaseOk(delay, s', w) { assert PhaseOk(delay, s, w); }
    forall i | 0 <= i < |s'.log| ensures OpenOk(s', i) { assert OpenOk(s, i); }
  }

  lemma {:induction false} Reachable(delay: int, events: seq<Event>)
    requires Bounded(delay)
    ensures Inv(delay, After(delay, events))
  {
    if events != [] {
      var before, e := events[..|events| - 1], events[|events| - 1];
      Reachable(delay, before);
      var s := After(delay, before);
      if Enabled(delay, s, e) {
        match e
        case Acquire(token) => AcquireKeeps(delay, s, token);
        case Begin(token) => BeginKeeps(delay, s, token);
        case End(token) => CloseKeeps(delay, s, token, Ended);
        case Cancel(token) => CancelKeeps(delay, s, token);
        case Release(token) => ReleaseKeeps(delay, s, token);
        case Tick(elapsed) => TickKeeps(delay, s, elapsed);
      }
    }
  }

  // ----- One call at a time -----

  /** The part of the invariant that concerns the lease alone. */
  ghost predicate LeaseOk(delay: int, s: World, w: int)
    requires w in s.phases
  {
    match s.phases[w]
    case Holding(a) => a <= s.now && (s.now < a + LEASE ==> s.gate == Some(Lease(w, a + LEASE)))
    case Calling(a, started, _) =>
      && s.gate == Some(Lease(w, a + LEASE)) && a <= started <= a + delay
      && started <= s.now <= started + CALL_LIMIT
    case _ => true
  }

  ghost predicate LeasesOk(delay: int, s: World) {
    forall w :: w in s.phases ==> LeaseOk(delay, s, w)
  }

  lemma {:induction false} LeaseStep(delay: int, s: World, e: Event)
    requires 0 <= delay && delay + CALL_LIMIT < LEASE && LeasesOk(delay, s) && Enabled(delay, s, e)
    ensures LeasesOk(delay, Apply(s, e))
  {
    var s' := Apply(s, e);
    forall w | w in s'.phases ensures LeaseOk(delay, s', w) {
      assert w in s.phases ==> LeaseOk(delay, s, w);
      if e.Begin? { assert LeaseOk(delay, s, e.token); }
    }
  }

  lemma {:induction false} LeasesReachable(delay: int, events: seq<Event>)
    requires 0 <= delay && delay + CALL_LIMIT < LEASE
    ensures LeasesOk(delay, After(delay, events))
  {
    if events != [] {
      var before, e := events[..|events| - 1], events[|events| - 1];
      LeasesReachable(delay, before);
      if Enabled(delay, After(delay, before), e) { LeaseStep(delay, After(delay, before), e); }
    }
  }

  /** In every run at most one provider call is in flight, and it belongs to the request that holds
      the gate. */
  lemma {:induction false} OneCallInFlight(delay: int, events: seq<Event>, a: int, b: int)
    requires 0 <= delay && delay + CALL_LIMIT < LEASE
    requires var s := After(delay, events); a in s.phases && b in s.phases && s.phases[a].Calling? && s.phases[b].Calling?
    ensures a == b && Held(After(delay, events).gate, After(delay, events).now) && After(delay, events).gate.value.token == a
  {
    LeasesReachable(delay, events);
    assert LeaseOk(delay, After(delay, events), a) && LeaseOk(delay, After(delay, events), b);
  }

  // ----- How tight the lease is -----

  ghost predicate AlwaysSpaced(delay: int) {
    forall events :: Spaced(After(delay, events).log)
  }

  lemma {:induction false} Next(delay: int, events: seq<Event>, e: Event)
    requires Enabled(delay, After(delay, events), e)
    ensures After(delay, events + [e]) == Apply(After(delay, events), e)
  {
    assert (events + [e])[..|events|] == events;
  }

  /** A first request that begins 19.001 s after taking the lease, calls for 10 s and is cancelled. */
  lemma {:induction false} SlowHolder(delay: int) returns (events: seq<Event>)
    requires delay >= 19_001
    ensures After(delay, events) ==
            World(29_001, Some(Lease(1, 30_000)), map[1 := Gone], [Call(1, 19_001, Some(29_001))])
  {
    events := [];
    Next(delay, events, Acquire(1));
    events := events + [Acquire(1)];
    Next(delay, events, Tick(19_001));
    events := events + [Tick(19_001)];
    assert After(delay, events) == World(19_001, Some(Lease(1, 30_000)), map[1 := Holding(0)], []);
    Next(delay, events, Begin(1));
    events := events + [Begin(1)];
    var log := [Call(1, 19_001, None)];
    assert After(delay, events) == World(19_001, Some(Lease(1, 30_000)), map[1 := Calling(0, 19_001, 0)], log);
    Next(delay, events, Tick(10_000));
    events := events + [Tick(10_000)];
    Next(delay, events, Cancel(1));
    events := events + [Cancel(1)];
  }

  /** Its lease then lets the next call start 999 ms after its own call ended. */
  lemma {:induction false} SlowStart(delay: int) returns (events: seq<Event>)
    requires delay >= 19_001
    ensures !Spaced(After(delay, events).log)
  {
    events := SlowHolder(delay);
    Next(delay, events, Tick(999));
    events := events + [Tick(999)];
    Next(delay, events, Acquire(2));
    events := events + [Acquire(2)];
    var log := [Call(1, 19_001, Some(29_001))];
    assert After(delay, events) == World(30_000, Some(Lease(2, 60_000)), map[1 := Gone, 2 := Holding(30_000)], log);
    Next(delay, events, Begin(2));
    events := events + [Begin(2)];
    var longer := After(delay, events).log;
    assert longer == log + [Call(2, 30_000, None)];
    assert longer[0] == log[0] && longer[1] == Call(2, 30_000, None);
  }

  /** The next call starts at least a second after the previous one ended in every run, with
      cancelled holders and late releases, exactly when calls start within 19 s of their lease. */
  lemma {:induction false} SpacedIff(delay: nat)
    ensures AlwaysSpaced(delay) <==> delay <= 19_000
  {
    if delay <= 19_000 {
      forall events ensures Spaced(After(delay, events).log) { Reachable(delay, events); }
    } else {
      var events := SlowStart(delay);
    }
  }

  ghost predicate OneAtATime(s: World) {
    forall a, b :: a in s.phases && b in s.phases && s.phases[a].Calling? && s.phases[b].Calling? ==> a == b
  }

  /** A holder that begins 20 s after taking the lease is still calling when the lease runs out. */
  lemma {:induction false} TwoCalls(delay: int) returns (events: seq<Event>)
    requires delay >= 20_000
    ensures !OneAtATime(After(delay, events))
  {
    events := [];
    Next(delay, events, Acquire(1));
    events := events + [Acquire(1)];
    Next(delay, events, Tick(20_000));
    events := events + [Tick(20_000)];
    assert After(delay, events) == World(20_000, Some(Lease(1, 30_000)), map[1 := Holding(0)], []);
    Next(delay, events, Begin(1));
    events := events + [Begin(1)];
    var log := [Call(1, 20_000, None)];
    assert After(delay, events) == World(20_000, Some(Lease(1, 30_000)), map[1 := Calling(0, 20_000, 0)], log);
    Next(delay, events, Tick(10_000));
    events := TwoCallsBegin(delay, events + [Tick(10_000)]);
  }

  lemma {:induction false} TwoCallsBegin(delay: int, before: seq<Event>) returns (events: seq<Event>)
    requires delay >= 20_000
    requires After(delay, before) ==
             World(30_000, Some(Lease(1, 30_000)), map[1 := Calling(0, 20_000, 0)], [Call(1, 20_000, None)])
    ensures !OneAtATime(After(delay, events))
  {
    Next(delay, before, Acquire(2));
    events := before + [Acquire(2)];
    var phases := map[1 := Calling(0, 20_000, 0), 2 := Holding(30_000)];
    assert After(delay, events).phases == phases;
    Next(delay, events, Begin(2));
    events := events + [Begin(2)];
    assert After(delay, events).phases[1].Calling? && After(delay, events).phases[2].Calling?;
  }

  /** At most one call is in flight in every run exactly when calls start less than 20 s after their
      lease; the full second of distance needs a second more (`SpacedIff`). */
  lemma {:induction false} OneAtATimeIff(delay: nat)
    ensures (forall events :: OneAtATime(After(delay, events))) <==> delay < 20_000
  {
    if delay < 20_000 {
      forall events ensures OneAtATime(After(delay, events)) {
        var s := After(delay, events);
        forall a, b | a in s.phases && b in s.phases && s.phases[a].Calling? && s.phases[b].Calling? ensures a == b {
          OneCallInFlight(delay, events, a, b);
        }
      }
    } else {
      var events := TwoCalls(delay);
    }
  }

  // ----- When the gate opens -----

  /** A free gate is taken for 30 seconds by whoever asks first; a taken one turns everybody away. */
  lemma {:induction false} AcquireMeans(s: World, token: int)
    ensures var s' := Apply(s, Acquire(token));
            var free := s.gate.None? || s.gate.value.expires <= s.now;
            && s'.phases == s.phases[token := if free then Holding(s.now) else Gone] && s'.log == s.log
            && s'.gate == (if free then Some(Lease(token, s.now + 30_000)) else s.gate)
  {
  }

  /** Without a release the next request gets the gate exactly when 30 seconds have passed, ... */
  lemma {:induction false} LeaseRunsOut(s: World, token: int, elapsed: nat, next: int)
    requires s.gate.None? || s.gate.value.expires <= s.now
    ensures var later := Apply(Apply(s, Acquire(token)), Tick(elapsed));
            Apply(later, Acquire(next)).phases[next].Holding? <==> 30_000 <= elapsed
  {
  }

  /** ... after its holder's release exactly when one second has passed, ... */
  lemma {:induction false} ReleaseFrees(s: World, token: int, elapsed: nat, next: int)
    requires s.gate.Some? && s.gate.value.token == token && s.now < s.gate.value.expires
    ensures var later := Apply(Apply(s, Release(token)), Tick(elapsed));
            Apply(later, Acquire(next)).phases[next].Holding? <==> 1_000 <= elapsed
    ensures Apply(s, Release(token)) == s.(phases := s.phases[token := Gone], gate := Some(Lease(token, s.now + 1_000)))
  {
  }

  /** ... and a release by anybody else, or after the lease ran out, changes nothing for it. */
  lemma {:induction false} LateReleaseIgnored(s: World, token: int)
    requires s.gate.None? || s.gate.value.token != token || s.gate.value.expires <= s.now
    ensures Apply(s, Release(token)) == s.(phases := s.phases[token := Gone])
  {
  }

  /** A call is recorded as open when it begins, and closed, with nothing else, when it ends or its
      request is dropped; neither touches the gate. */
  lemma {:induction false} CallMeans(delay: int, s: World, token: int)
    requires Bounded(delay) && Inv(delay, s) && token in s.phases
    ensures s.phases[token].Holding? ==>
              var s' := Apply(s, Begin(token));
              && s'.log == s.log + [Call(token, s.now, None)] && s'.gate == s.gate && s'.now == s.now
              && s'.phases == s.phases[token := Calling(s.phases[token].acquired, s.now, |s.log|)]
    ensures s.phases[token].Calling? ==>
              var ended, dropped := Apply(s, End(token)), Apply(s, Cancel(token));
              && ended.log == dropped.log == s.log[..|s.log| - 1] + [Call(token, s.phases[token].started, Some(s.now))]
              && ended.gate == dropped.gate == s.gate && ended.now == dropped.now == s.now
              && ended.phases == s.phases[token := Ended] && dropped.phases == s.phases[token := Gone]
  {
    assert PhaseOk(delay, s, token);
  }

  // ----- The key in place -----

  /** The gate key with the requests that use it. */
  class Gate {
    const delay: int
    var lease: Option<Lease>
    ghost var now: int
    ghost var phases: map<int, Phase>
    ghost var log: seq<Call>

    ghost function State(): World
      reads this
    {
      World(now, lease, phases, log)
    }

    ghost predicate Valid()
      reads this
    {
      Bounded(delay) && Inv(delay, State())
    }

    constructor (delay: int)
      requires Bounded(delay)
      ensures this.delay == delay && Valid() && State() == START
    {
      this.delay := delay;
      lease, now, phases, log := None, 0, map[], [];
    }

    /** A new request asks for the lease at `at`; without it the request ends. */
    method TryAcquire(token: int, at: int) returns (acquired: bool)
      requires Valid() && at == now && token !in phases
      modifies this
      ensures Valid() && State() == Apply(old(State()), Acquire(token))
      ensures acquired <==> phases[token].Holding?
      ensures acquired ==> QuietAt(log, at)
    {
      ghost var after := Apply(State(), Acquire(token));
      AcquireKeeps(delay, State(), token);
      acquired := lease.None? || lease.value.expires <= at;
      if acquired {
        FreeMeansQuiet(delay, State());
        lease := Some(Lease(token, at + LEASE));
      }
      phases := after.phases;
    }

    /** The release script of a request whose call has ended; it reports whether the lease was still
        the request's own. */
    method ReleaseGate(token: int, at: int) returns (renewed: bool)
      requires Valid() && at == now && token in phases && phases[token].Ended?
      modifies this
      ensures Valid() && State() == Apply(old(State()), Release(token))
      ensures renewed <==> Held(old(lease), at) && old(lease).value.token == token
    {
      ghost var after := Apply(State(), Release(token));
      ReleaseKeeps(delay, State(), token);
      renewed := lease.Some? && at < lease.value.expires && lease.value.token == token;
      if renewed {
        lease := Some(lease.value.(expires := at + COOLDOWN));
      }
      phases := after.phases;
    }

    // What happens outside the key: the request calls the provider, and time passes.

    ghost method BeginCall(token: int)
      requires Valid() && Enabled(delay, State(), Begin(token))
      modifies this
      ensures Valid() && State() == Apply(old(State()), Begin(token)) && phases[token].Calling?
    {
      var after := Apply(State(), Begin(token));
      BeginKeeps(delay, State(), token);
      phases, log := after.phases, after.log;
    }

    ghost method EndCall(token: int)
      requires Valid() && Enabled(delay, State(), End(token))
      modifies this
      ensures Valid() && State() == Apply(old(State()), End(token)) && phases[token].Ended?
    {
      var after := Apply(State(), End(token));
      CloseKeeps(delay, State(), token, Ended);
      phases, log := after.phases, after.log;
    }

    /** The client goes away: the request is dropped wherever it stands. */
    ghost method CancelRequest(token: int)
      requires Valid() && Enabled(delay, State(), Cancel(token))
      modifies this
      ensures Valid() && State() == Apply(old(State()), Cancel(token)) && phases[token].Gone?
    {
      var after := Apply(State(), Cancel(token));
      CancelKeeps(delay, State(), token);
      phases, log := after.phases, after.log;
    }

    ghost method Wait(elapsed: nat)
      requires Valid() && Enabled(delay, State(), Tick(elapsed))
      modifies this
      ensures Valid() && State() == Apply(old(State()), Tick(elapsed))
    {
      TickKeeps(delay, State(), elapsed);
      now := now + elapsed;
    }
  }
}
