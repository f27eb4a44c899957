/** Limiting attempts per key: the local sliding window with compaction, and the fixed window in Redis. */
module RateLimiter {
  import Sets

  /** At most `max` admitted attempts in a window of `window` milliseconds. */
  datatype Limits = Limits(max: nat, window: nat)

  datatype Ask = Ask(key: string, time: int)

  predicate Ordered(h: seq<Ask>) {
    forall i, j :: 0 <= i <= j < |h| ==> h[i].time <= h[j].time
  }

  predicate Sorted(ts: seq<int>) {
    forall i, j :: 0 <= i <= j < |ts| ==> ts[i] <= ts[j]
  }

  // ----- The naive specification -----

  /** The times still inside the closed window ending at `now`. */
  function Recent(ts: seq<int>, now: int, window: nat): seq<int> {
    if ts == [] then []
    else
      var before := Recent(ts[..|ts| - 1], now, window);
      if now - ts[|ts| - 1] <= window then before + [ts[|ts| - 1]] else before
  }

  predicate Allows(l: Limits, admitted: seq<int>, now: int) {
    |Recent(admitted, now, l.window)| < l.max
  }

  /** The times at which `key` was admitted, keeping every admission for ever. */
  function Admitted(l: Limits, h: seq<Ask>, key: string): seq<int> {
    if h == [] then []
    else
      var before, ask := Admitted(l, h[..|h| - 1], key), h[|h| - 1];
      if ask.key == key && Allows(l, before, ask.time) then before + [ask.time] else before
  }

  // ----- The limiter's own state -----

  datatype Local = Local(attempts: map<string, seq<int>>, lastCompaction: int)

  /** `prune_bucket`: drops expired times from the front and stops at the first live one. */
  function Pruned(ts: seq<int>, now: int, window: nat): seq<int> {
    if ts != [] && now - ts[0] > window then Pruned(ts[1..], now, window) else ts
  }

  function Bucket(s: Local, key: string): seq<int> {
    if key in s.attempts then s.attempts[key] else []
  }

  /** `retain`: prunes every bucket and forgets the empty ones. */
  function Compacted(attempts: map<string, seq<int>>, now: int, window: nat): map<string, seq<int>> {
    map k | k in attempts && Pruned(attempts[k], now, window) != [] :: Pruned(attempts[k], now, window)
  }

  predicate Due(l: Limits, s: Local, now: int) {
    now - s.lastCompaction >= l.window
  }

  /** One call of `allow_local`, with or without compaction. */
  function Step(l: Limits, s: Local, ask: Ask, compact: bool): (Local, bool) {
    var attempts := if compact then Compacted(s.attempts, ask.time, l.window) else s.attempts;
    var s1 := Local(attempts, if compact then ask.time else s.lastCompaction);
    var entry := Pruned(Bucket(s1, ask.key), ask.time, l.window);
    if |entry| >= l.max then (s1.(attempts := attempts[ask.key := entry]), false)
    else (s1.(attempts := attempts[ask.key := entry + [ask.time]]), true)
  }

  /** The state after a history, compacting wherever `compact` says. */
  function After(l: Limits, h: seq<Ask>, compact: seq<bool>): Local
    requires |h| == |compact|
  {
    if h == [] then Local(map[], 0)
    else Step(l, After(l, h[..|h| - 1], compact[..|h| - 1]), h[|h| - 1], compact[|h| - 1]).0
  }

  // ----- Pruning a sorted bucket is filtering -----

  lemma {:induction false} AllRecent(ts: seq<int>, now: int, window: nat)
    requires forall i :: 0 <= i < |ts| ==> now - ts[i] <= window
    ensures Recent(ts, now, window) == ts
  {
    if ts != [] { AllRecent(ts[..|ts| - 1], now, window); }
  }

  lemma {:induction false} RecentDropsFirst(ts: seq<int>, now: int, window: nat)
    requires ts != [] && now - ts[0] > window
    ensures Recent(ts, now, window) == Recent(ts[1..], now, window)
  {
    if |ts| > 1 {
      RecentDropsFirst(ts[..|ts| - 1], now, window);
      assert ts[..|ts| - 1][1..] == ts[1..][..|ts| - 2];
    }
  }

  lemma {:induction false} PrunedIsRecent(ts: seq<int>, now: int, window: nat)
    requires Sorted(ts)
    ensures Pruned(ts, now, window) == Recent(ts, now, window)
  {
    if ts != [] && now - ts[0] > window {
      RecentDropsFirst(ts, now, window);
      PrunedIsRecent(ts[1..], now, window);
    } else {
      AllRecent(ts, now, window);
    }
  }

  /** Times forgotten now would not be in any later window. */
  lemma {:induction false} RecentTwice(ts: seq<int>, now: int, later: int, window: nat)
    requires now <= later
    ensures Recent(Recent(ts, now, window), later, window) == Recent(ts, later, window)
  {
    if ts != [] {
      RecentTwice(ts[..|ts| - 1], now, later, window);
      if now - ts[|ts| - 1] <= window {
        var kept := Recent(ts[..|ts| - 1], now, window);
        assert (kept + [ts[|ts| - 1]])[..|kept|] == kept;
      }
    }
  }

  lemma {:induction false} SortedAppend(ts: seq<int>, last: int)
    requires Sorted(ts) && forall t :: t in ts ==> t <= last
    ensures Sorted(ts + [last])
  {
    forall i, j | 0 <= i <= j < |ts| + 1 ensures (ts + [last])[i] <= (ts + [last])[j] {
      assert i < |ts| ==> ts[i] in ts;
    }
  }

  lemma {:induction false} RecentSorted(ts: seq<int>, now: int, window: nat)
    requires Sorted(ts)
    ensures Sorted(Recent(ts, now, window))
    ensures forall t :: t in Recent(ts, now, window) ==> t in ts && now - t <= window
  {
    if ts != [] {
      RecentSorted(ts[..|ts| - 1], now, window);
      SortedAppend(Recent(ts[..|ts| - 1], now, window), ts[|ts| - 1]);
    }
  }

  // ----- The refinement -----

  /** A bucket answers every question from `now` on as the full list of admissions would. */
  ghost predicate Agrees(bucket: seq<int>, admitted: seq<int>, now: int, window: nat) {
    && Sorted(bucket) && (forall t :: t in bucket ==> t <= now)
    && (forall later :: now <= later ==> Recent(bucket, later, window) == Recent(admitted, later, window))
  }

  ghost predicate Represents(l: Limits, s: Local, h: seq<Ask>) {
    forall key, now :: (h == [] || h[|h| - 1].time <= now) ==> Agrees(Bucket(s, key), Admitted(l, h, key), now, l.window)
  }

  lemma {:induction false} PrunedAgrees(bucket: seq<int>, admitted: seq<int>, now: int, window: nat)
    requires Agrees(bucket, admitted, now, window)
    ensures Agrees(Pruned(bucket, now, window), admitted, now, window)
    ensures Pruned(bucket, now, window) == Recent(admitted, now, window)
  {
    PrunedIsRecent(bucket, now, window);
    RecentSorted(bucket, now, window);
    forall later | now <= later ensures Recent(Recent(bucket, now, window), later, window) == Recent(admitted, later, window) {
      RecentTwice(bucket, now, later, window);
    }
  }

  lemma {:induction false} AppendAgrees(bucket: seq<int>, admitted: seq<int>, now: int, window: nat)
    requires Agrees(bucket, admitted, now, window)
    ensures Agrees(bucket + [now], admitted + [now], now, window)
  {
    SortedAppend(bucket, now);
    assert (bucket + [now])[..|bucket|] == bucket && (admitted + [now])[..|admitted|] == admitted;
  }

  lemma {:induction false} LaterAgrees(bucket: seq<int>, admitted: seq<int>, now: int, later: int, window: nat)
    requires Agrees(bucket, admitted, now, window) && now <= later
    ensures Agrees(bucket, admitted, later, window)
  {
  }

  /** Compacting changes no bucket that a later call could tell apart. */
  lemma {:induction false} CompactedAgrees(l: Limits, s: Local, h: seq<Ask>, now: int, key: string)
    requires Represents(l, s, h) && (h != [] ==> h[|h| - 1].time <= now)
    ensures Agrees(Bucket(Local(Compacted(s.attempts, now, l.window), now), key), Admitted(l, h, key), now, l.window)
  {
    var admitted := Admitted(l, h, key);
    assert Agrees(Bucket(s, key), admitted, now, l.window);
    PrunedAgrees(Bucket(s, key), admitted, now, l.window);
  }

  /** The buckets after compaction, if it runs. */
  function Settled(l: Limits, s: Local, now: int, compact: bool): Local {
    if compact then Local(Compacted(s.attempts, now, l.window), now) else s
  }

  lemma {:induction false} SettledAgrees(l: Limits, s: Local, h: seq<Ask>, now: int, compact: bool, key: string)
    requires Represents(l, s, h) && (h != [] ==> h[|h| - 1].time <= now)
    ensures Agrees(Bucket(Settled(l, s, now, compact), key), Admitted(l, h, key), now, l.window)
  {
    if compact { CompactedAgrees(l, s, h, now, key); }
  }

  /** The answer is the naive one. */
  lemma {:induction false} AnswerRefines(l: Limits, s: Local, h: seq<Ask>, ask: Ask, compact: bool)
    requires Represents(l, s, h) && (h != [] ==> h[|h| - 1].time <= ask.time)
    ensures Step(l, s, ask, compact).1 == Allows(l, Admitted(l, h, ask.key), ask.time)
  {
    SettledAgrees(l, s, h, ask.time, compact, ask.key);
    PrunedAgrees(Bucket(Settled(l, s, ask.time, compact), ask.key), Admitted(l, h, ask.key), ask.time, l.window);
  }

  /** The bucket of the call's own key. */
  lemma {:induction false} OwnBucketAgrees(l: Limits, s: Local, h: seq<Ask>, ask: Ask, compact: bool)
    requires Represents(l, s, h) && (h != [] ==> h[|h| - 1].time <= ask.time)
    ensures Agrees(Bucket(Step(l, s, ask, compact).0, ask.key), Admitted(l, h + [ask], ask.key), ask.time, l.window)
  {
    var now, admitted := ask.time, Admitted(l, h, ask.key);
    AnswerRefines(l, s, h, ask, compact);
    AdmittedStep(l, h, ask, ask.key);
    SettledAgrees(l, s, h, now, compact, ask.key);
    var entry := Pruned(Bucket(Settled(l, s, now, compact), ask.key), now, l.window);
    PrunedAgrees(Bucket(Settled(l, s, now, compact), ask.key), admitted, now, l.window);
    AppendAgrees(entry, admitted, now, l.window);
  }

  /** The answer is the naive one, and the state keeps answering so. */
  lemma {:induction false} StepRefines(l: Limits, s: Local, h: seq<Ask>, ask: Ask, compact: bool)
    requires Represents(l, s, h) && Ordered(h + [ask])
    ensures Step(l, s, ask, compact).1 == Allows(l, Admitted(l, h, ask.key), ask.time)
    ensures Represents(l, Step(l, s, ask, compact).0, h + [ask])
  {
    var s', h' := Step(l, s, ask, compact).0, h + [ask];
    assert h != [] ==> h'[|h| - 1].time <= h'[|h|].time;
    AnswerRefines(l, s, h, ask, compact);
    OwnBucketAgrees(l, s, h, ask, compact);
    forall key, later | ask.time <= later ensures Agrees(Bucket(s', key), Admitted(l, h', key), later, l.window) {
      if key != ask.key {
        SettledAgrees(l, s, h, ask.time, compact, key);
        AdmittedStep(l, h, ask, key);
        assert Bucket(s', key) == Bucket(Settled(l, s, ask.time, compact), key);
      }
      LaterAgrees(Bucket(s', key), Admitted(l, h', key), ask.time, later, l.window);
    }
  }

  lemma {:induction false} Reachable(l: Limits, h: seq<Ask>, compact: seq<bool>)
    requires |h| == |compact| && Ordered(h)
    ensures Represents(l, After(l, h, compact), h)
  {
    if h != [] {
      Reachable(l, h[..|h| - 1], compact[..|h| - 1]);
      assert h[..|h| - 1] + [h[|h| - 1]] == h;
      StepRefines(l, After(l, h[..|h| - 1], compact[..|h| - 1]), h[..|h| - 1], h[|h| - 1], compact[|h| - 1]);
    } else {
      assert forall key :: Admitted(l, h, key) == [];
    }
  }

  /** After any run, wherever compaction ran and whether or not it runs now, a call is admitted
      exactly when fewer than `max` admitted calls of its key lie in the closed window ending now. */
  lemma {:induction false} LocalRefinesNaive(l: Limits, h: seq<Ask>, compact: seq<bool>, ask: Ask, compactNow: bool)
    requires |h| == |compact| && Ordered(h + [ask])
    ensures Step(l, After(l, h, compact), ask, compactNow).1 <==> |Recent(Admitted(l, h, ask.key), ask.time, l.window)| < l.max
  {
    assert forall i :: 0 <= i < |h| ==> h[i] == (h + [ask])[i];
    Reachable(l, h, compact);
    StepRefines(l, After(l, h, compact), h, ask, compactNow);
  }

  /** The called key's bucket keeps no time that has left the window, and after a compaction no other
      bucket does or is empty. */
  lemma {:induction false} CompactionForgets(l: Limits, s: Local, ask: Ask, compact: bool)
    requires forall k :: k in s.attempts ==> Sorted(s.attempts[k])
    ensures var s' := Step(l, s, ask, compact).0;
            && s'.lastCompaction == (if compact then ask.time else s.lastCompaction)
            && ask.key in s'.attempts && (forall t :: t in s'.attempts[ask.key] ==> ask.time - t <= l.window)
            && (compact ==> forall k :: k in s'.attempts && k != ask.key ==>
                  s'.attempts[k] != [] && forall t :: t in s'.attempts[k] ==> ask.time - t <= l.window)
  {
    forall k | k in s.attempts ensures forall t :: t in Pruned(s.attempts[k], ask.time, l.window) ==> ask.time - t <= l.window {
      PrunedIsRecent(s.attempts[k], ask.time, l.window);
      RecentSorted(s.attempts[k], ask.time, l.window);
    }
    if ask.key in s.attempts { PrunedTwice(s.attempts[ask.key], ask.time, l.window); }
  }

  lemma {:induction false} PrunedTwice(ts: seq<int>, now: int, window: nat)
    ensures Pruned(Pruned(ts, now, window), now, window) == Pruned(ts, now, window)
  {
    if ts != [] && now - ts[0] > window { PrunedTwice(ts[1..], now, window); }
  }

  // ----- What the naive specification promises -----

  /** How many of `ts` lie in the closed interval from `a` to `b`. */
  function CountIn(ts: seq<int>, a: int, b: int): nat {
    if ts == [] then 0
    else CountIn(ts[..|ts| - 1], a, b) + if a <= ts[|ts| - 1] <= b then 1 else 0
  }

  lemma {:induction false} CountInRecent(ts: seq<int>, a: int, b: int, now: int, window: nat)
    requires now - a <= window
    ensures CountIn(ts, a, b) <= |Recent(ts, now, window)|
  {
    if ts != [] { CountInRecent(ts[..|ts| - 1], a, b, now, window); }
  }

  lemma {:induction false} RecentCounts(ts: seq<int>, now: int, window: nat)
    requires forall t :: t in ts ==> t <= now
    ensures |Recent(ts, now, window)| == CountIn(ts, now - window, now)
  {
    if ts != [] {
      var before := ts[..|ts| - 1];
      assert ts[|ts| - 1] in ts;
      forall t | t in before ensures t <= now { assert t in ts; }
      RecentCounts(ts[..|ts| - 1], now, window);
    }
  }

  lemma {:induction false} AdmittedBefore(l: Limits, h: seq<Ask>, key: string, now: int)
    requires forall ask :: ask in h ==> ask.time <= now
    ensures forall t :: t in Admitted(l, h, key) ==> t <= now
  {
    if h != [] {
      assert h[|h| - 1] in h && forall ask :: ask in h[..|h| - 1] ==> ask in h;
      AdmittedBefore(l, h[..|h| - 1], key, now);
    }
  }

  /** And the limiter turns away no more than that needs: a call is admitted exactly when the closed
      interval of the window's length that ends now holds fewer than `max` admissions of its key. */
  lemma {:induction false} AdmittedIff(l: Limits, h: seq<Ask>, compact: seq<bool>, ask: Ask, compactNow: bool)
    requires |h| == |compact| && Ordered(h + [ask])
    ensures Step(l, After(l, h, compact), ask, compactNow).1 <==>
              CountIn(Admitted(l, h, ask.key), ask.time - l.window, ask.time) < l.max
  {
    LocalRefinesNaive(l, h, compact, ask, compactNow);
    forall a | a in h ensures a.time <= ask.time {
      var i :| 0 <= i < |h| && h[i] == a;
      assert (h + [ask])[i] == a && (h + [ask])[|h|] == ask;
    }
    AdmittedBefore(l, h, ask.key, ask.time);
    RecentCounts(Admitted(l, h, ask.key), ask.time, l.window);
  }

  /** Any closed interval of the window's length holds at most `max` admissions of a key. */
  lemma {:induction false} WindowBound(l: Limits, h: seq<Ask>, key: string, a: int)
    ensures CountIn(Admitted(l, h, key), a, a + l.window) <= l.max
  {
    if h != [] {
      var before, ask := Admitted(l, h[..|h| - 1], key), h[|h| - 1];
      WindowBound(l, h[..|h| - 1], key, a);
      if ask.key == key && Allows(l, before, ask.time) {
        assert (before + [ask.time])[..|before|] == before;
        if a <= ask.time <= a + l.window { CountInRecent(before, a, a + l.window, ask.time, l.window); }
      }
    }
  }

  /** A denied call leaves no trace: without it every later call of every key is answered alike. */
  lemma {:induction false} DenialsAreFree(l: Limits, h: seq<Ask>, denied: Ask, later: seq<Ask>, key: string)
    requires !Allows(l, Admitted(l, h, denied.key), denied.time)
    ensures Admitted(l, h + [denied] + later, key) == Admitted(l, h + later, key)
  {
    if later == [] {
      assert h + [denied] + later == h + [denied] && h + later == h;
      AdmittedStep(l, h, denied, key);
    } else {
      var shorter, last := later[..|later| - 1], later[|later| - 1];
      DenialsAreFree(l, h, denied, shorter, key);
      assert h + [denied] + later == (h + [denied] + shorter) + [last];
      assert h + later == (h + shorter) + [last];
      AdmittedStep(l, h + [denied] + shorter, last, key);
      AdmittedStep(l, h + shorter, last, key);
    }
  }

  lemma {:induction false} AdmittedStep(l: Limits, h: seq<Ask>, ask: Ask, key: string)
    ensures var before := Admitted(l, h, key);
            Admitted(l, h + [ask], key) == if ask.key == key && Allows(l, before, ask.time) then before + [ask.time] else before
  {
    assert (h + [ask])[..|h|] == h;
  }

  /** For the limiter itself: a call that it denied changes none of its later answers, wherever
      either run compacts. */
  lemma {:induction false} DenialsChangeNoAnswer(l: Limits, h: seq<Ask>, before: seq<bool>, denied: Ask, later: seq<Ask>,
                              with_: seq<bool>, without: seq<bool>, ask: Ask, compactNow: bool)
    requires |before| == |h| && |with_| == |h| + 1 + |later| && |without| == |h| + |later|
    requires Ordered(h + [denied] + later + [ask])
    requires !Step(l, After(l, h, before), denied, compactNow).1
    ensures Step(l, After(l, h + [denied] + later, with_), ask, compactNow).1 ==
            Step(l, After(l, h + later, without), ask, compactNow).1
  {
    var all := h + [denied] + later + [ask];
    OrderedParts(h, denied, later, ask);
    LocalRefinesNaive(l, h, before, denied, compactNow);
    DenialsAreFree(l, h, denied, later, ask.key);
    LocalRefinesNaive(l, h + [denied] + later, with_, ask, compactNow);
    LocalRefinesNaive(l, h + later, without, ask, compactNow);
  }

  lemma {:induction false} OrderedParts(h: seq<Ask>, denied: Ask, later: seq<Ask>, ask: Ask)
    requires Ordered(h + [denied] + later + [ask])
    ensures Ordered(h + [denied]) && Ordered(h + later + [ask])
  {
    var all, n := h + [denied] + later + [ask], |h|;
    assert forall i :: 0 <= i <= n ==> (h + [denied])[i] == all[i];
    assert forall i :: 0 <= i < n ==> (h + later + [ask])[i] == all[i];
    assert forall i :: n <= i <= n + |later| ==> (h + later + [ask])[i] == all[i + 1];
  }

  // ----- The fixed window in Redis -----

  datatype Counter = Counter(count: nat, expires: int)

  function Live(counters: map<string, Counter>, ask: Ask): nat {
    if ask.key in counters && ask.time < counters[ask.key].expires then counters[ask.key].count else 0
  }

  /** A time to live is at least a millisecond. */
  function Length(l: Limits): nat { if l.window == 0 then 1 else l.window }

  /** `INCR`, then `PEXPIRE` on the first count. */
  function Increment(l: Limits, counters: map<string, Counter>, ask: Ask): map<string, Counter> {
    var count := Live(counters, ask) + 1;
    counters[ask.key := Counter(count, if count == 1 then ask.time + Length(l) else counters[ask.key].expires)]
  }

  function Counters(l: Limits, h: seq<Ask>): map<string, Counter> {
    if h == [] then map[] else Increment(l, Counters(l, h[..|h| - 1]), h[|h| - 1])
  }

  predicate RedisAllows(l: Limits, counters: map<string, Counter>, ask: Ask) {
    Live(counters, ask) + 1 <= l.max
  }

  function RedisAdmitted(l: Limits, h: seq<Ask>, key: string): seq<int> {
    if h == [] then []
    else
      var before, ask := RedisAdmitted(l, h[..|h| - 1], key), h[|h| - 1];
      if ask.key == key && RedisAllows(l, Counters(l, h[..|h| - 1]), ask) then before + [ask.time] else before
  }

  /** The call that opened the last fixed window of `key`, or -1: the first call of the key, and then the
      first one when a window's length, at least a millisecond, has passed since the opening. */
  function Opening(h: seq<Ask>, key: string, window: nat): (i: int)
    ensures -1 <= i < |h|
  {
    if h == [] then -1
    else
      var before, ask := Opening(h[..|h| - 1], key, window), h[|h| - 1];
      if ask.key != key then before
      else if before >= 0 && ask.time < h[before].time + (if window == 0 then 1 else window) then before
      else |h| - 1
  }

  /** The calls of `key`, admitted or not, from place `i` on. */
  function CallsFrom(h: seq<Ask>, key: string, i: int): nat {
    if h == [] || |h| - 1 < i then 0 else CallsFrom(h[..|h| - 1], key, i) + if h[|h| - 1].key == key then 1 else 0
  }

  lemma {:induction false} CounterCounts(l: Limits, h: seq<Ask>, key: string)
    ensures var i := Opening(h, key, l.window);
            && (key in Counters(l, h) <==> i >= 0)
            && (i >= 0 ==>
                  && Counters(l, h)[key] == Counter(CallsFrom(h, key, i), h[i].time + if l.window == 0 then 1 else l.window)
                  && 0 < CallsFrom(h, key, i))
  {
    if h != [] {
      var before, ask := h[..|h| - 1], h[|h| - 1];
      CounterCounts(l, before, key);
      NoCallsYet(before, key, |h| - 1);
      var i := Opening(before, key, l.window);
      assert i >= 0 ==> before[i] == h[i];
      assert Counters(l, h) == Increment(l, Counters(l, before), ask);
      if ask.key == key { IncrementMeans(l, Counters(l, before), ask); }
    }
  }

  lemma {:induction false} IncrementMeans(l: Limits, counters: map<string, Counter>, ask: Ask)
    ensures var length := if l.window == 0 then 1 else l.window;
            Increment(l, counters, ask)[ask.key] ==
              if ask.key in counters && ask.time < counters[ask.key].expires && counters[ask.key].count > 0
              then Counter(counters[ask.key].count + 1, counters[ask.key].expires)
              else Counter(1, ask.time + length)
  {
  }

  lemma {:induction false} NoCallsYet(h: seq<Ask>, key: string, i: int)
    requires |h| <= i
    ensures CallsFrom(h, key, i) == 0
  {
  }

  /** A call is admitted exactly when fewer than `max` calls of its key came in the window that is still
      open, counting the ones turned away. */
  lemma {:induction false} RedisAdmitsIff(l: Limits, h: seq<Ask>, ask: Ask)
    ensures var i := Opening(h, ask.key, l.window);
            var open := i >= 0 && ask.time < h[i].time + if l.window == 0 then 1 else l.window;
            RedisAllows(l, Counters(l, h), ask) <==> (if open then CallsFrom(h, ask.key, i) else 0) < l.max
  {
    CounterCounts(l, h, ask.key);
  }

  function Smaller(a: nat, b: nat): nat { if a <= b then a else b }

  function CountFrom(ts: seq<int>, a: int): nat {
    if ts == [] then 0 else CountFrom(ts[..|ts| - 1], a) + if a <= ts[|ts| - 1] then 1 else 0
  }

  function CountBefore(ts: seq<int>, a: int, m: int): nat {
    if ts == [] then 0 else CountBefore(ts[..|ts| - 1], a, m) + if a <= ts[|ts| - 1] < m then 1 else 0
  }

  lemma {:induction false} CountSplits(ts: seq<int>, a: int, m: int, b: int)
    ensures CountIn(ts, a, b) <= CountBefore(ts, a, m) + CountFrom(ts, m)
    ensures m <= a ==> CountIn(ts, a, b) <= CountFrom(ts, m)
  {
    if ts != [] { CountSplits(ts[..|ts| - 1], a, m, b); }
  }

  /** Everything before `t` and from `a` on is from `start` on, and nothing is at `t` or later. */
  lemma {:induction false} CountAcross(ts: seq<int>, start: int, a: int, t: int)
    ensures start <= a ==> CountBefore(ts, a, t) <= CountFrom(ts, start)
    ensures (forall i :: 0 <= i < |ts| ==> ts[i] < t) ==> CountFrom(ts, t) == 0
  {
    if ts != [] { CountAcross(ts[..|ts| - 1], start, a, t); }
  }

  lemma {:induction false} CountAppended(ts: seq<int>, t: int, a: int, b: int)
    ensures CountIn(ts + [t], a, b) == CountIn(ts, a, b) + if a <= t <= b then 1 else 0
    ensures CountBefore(ts + [t], a, b) == CountBefore(ts, a, b) + if a <= t < b then 1 else 0
    ensures CountFrom(ts + [t], a) == CountFrom(ts, a) + if a <= t then 1 else 0
  {
    assert (ts + [t])[..|ts|] == ts;
  }

  function Start(l: Limits, c: Counter): int { c.expires - Length(l) }

  /** The window open at the end of a history has admitted as many as it counted, up to `max`, and
      its own length before it has seen at most `max` more. */
  ghost predicate WindowOk(l: Limits, ts: seq<int>, c: Counter, now: int) {
    && c.count >= 1 && Start(l, c) <= now && (forall i :: 0 <= i < |ts| ==> ts[i] <= now && ts[i] < c.expires)
    && CountFrom(ts, Start(l, c)) == Smaller(c.count, l.max)
    && (forall a :: Start(l, c) - Length(l) <= a ==> CountBefore(ts, a, Start(l, c)) <= l.max)
  }

  ghost predicate RedisInv(l: Limits, h: seq<Ask>, key: string, now: int) {
    var ts, counters := RedisAdmitted(l, h, key), Counters(l, h);
    if key in counters then WindowOk(l, ts, counters[key], now) else ts == []
  }

  /** One more call inside the open window. */
  lemma {:induction false} SameWindow(l: Limits, ts: seq<int>, c: Counter, now: int, t: int)
    requires WindowOk(l, ts, c, now) && now <= t < c.expires
    ensures WindowOk(l, if c.count + 1 <= l.max then ts + [t] else ts, c.(count := c.count + 1), t)
  {
    var c' := c.(count := c.count + 1);
    assert Start(l, c') == Start(l, c);
    CountAppended(ts, t, Start(l, c), t);
    forall a | Start(l, c) - Length(l) <= a ensures CountBefore(ts + [t], a, Start(l, c)) <= l.max {
      CountAppended(ts, t, a, Start(l, c));
    }
  }

  /** The first call after the open window has expired. */
  lemma {:induction false} NewWindow(l: Limits, ts: seq<int>, c: Counter, now: int, t: int)
    requires WindowOk(l, ts, c, now) && now <= t && c.expires <= t
    ensures WindowOk(l, if 1 <= l.max then ts + [t] else ts, Counter(1, t + Length(l)), t)
  {
    assert Start(l, Counter(1, t + Length(l))) == t;
    CountAppended(ts, t, t, t);
    CountAcross(ts, t, t, t);
    forall a | t - Length(l) <= a ensures CountBefore(ts + [t], a, t) == CountBefore(ts, a, t) <= l.max {
      CountAppended(ts, t, a, t);
      CountAcross(ts, Start(l, c), a, t);
    }
  }

  /** The first call of a key. */
  lemma {:induction false} FirstWindow(l: Limits, t: int)
    ensures WindowOk(l, if 1 <= l.max then [t] else [], Counter(1, t + Length(l)), t)
  {
    assert Start(l, Counter(1, t + Length(l))) == t;
    var none: seq<int> := [];
    assert none + [t] == [t];
    CountAppended(none, t, t, t);
    forall a ensures CountBefore([t], a, t) == CountBefore(none, a, t) == 0 { CountAppended(none, t, a, t); }
  }

  /** A call of another key leaves the window of `key` as it is. */
  lemma {:induction false} OtherKeyAdvances(l: Limits, h: seq<Ask>, now: int, ask: Ask, key: string)
    requires RedisInv(l, h, key, now) && now <= ask.time && key != ask.key
    ensures RedisInv(l, h + [ask], key, ask.time)
  {
    assert (h + [ask])[..|h|] == h;
    if key in Counters(l, h) { LaterWindow(l, RedisAdmitted(l, h, key), Counters(l, h)[key], now, ask.time); }
  }

  /** The window of a key after one more call of it. */
  lemma {:induction false} OwnKeyAdvances(l: Limits, ts: seq<int>, counters: map<string, Counter>, now: int, ask: Ask)
    requires if ask.key in counters then WindowOk(l, ts, counters[ask.key], now) else ts == []
    requires now <= ask.time
    ensures WindowOk(l, if RedisAllows(l, counters, ask) then ts + [ask.time] else ts, Increment(l, counters, ask)[ask.key], ask.time)
  {
    var t, count := ask.time, Live(counters, ask) + 1;
    var ts', c' := if count <= l.max then ts + [t] else ts, Increment(l, counters, ask)[ask.key];
    if ask.key !in counters {
      FirstWindow(l, t);
      assert [] + [t] == [t];
      assert c' == Counter(1, t + Length(l));
    } else if t < counters[ask.key].expires {
      SameWindow(l, ts, counters[ask.key], now, t);
      assert c' == counters[ask.key].(count := counters[ask.key].count + 1);
    } else {
      NewWindow(l, ts, counters[ask.key], now, t);
      assert c' == Counter(1, t + Length(l));
    }
    assert WindowOk(l, ts', c', t);
  }

  /** One call, seen from the window of one key. */
  lemma {:induction false} RedisAdvances(l: Limits, h: seq<Ask>, now: int, ask: Ask, key: string)
    requires RedisInv(l, h, key, now) && now <= ask.time
    ensures RedisInv(l, h + [ask], key, ask.time)
  {
    if key != ask.key {
      OtherKeyAdvances(l, h, now, ask, key);
    } else {
      OwnKeyAdvances(l, RedisAdmitted(l, h, key), Counters(l, h), now, ask);
      assert (h + [ask])[..|h|] == h;
    }
  }

  lemma {:induction false} LaterWindow(l: Limits, ts: seq<int>, c: Counter, now: int, later: int)
    requires WindowOk(l, ts, c, now) && now <= later
    ensures WindowOk(l, ts, c, later)
  {
  }

  lemma {:induction false} RedisEmpty(l: Limits, key: string, now: int)
    ensures RedisInv(l, [], key, now)
  {
  }

  lemma {:induction false} RedisReachable(l: Limits, h: seq<Ask>, key: string)
    requires Ordered(h)
    ensures h != [] ==> RedisInv(l, h, key, h[|h| - 1].time)
  {
    if h != [] {
      var before, ask := h[..|h| - 1], h[|h| - 1];
      RedisReachable(l, before, key);
      assert before + [ask] == h;
      if before == [] {
        RedisEmpty(l, key, ask.time);
        RedisAdvances(l, before, ask.time, ask, key);
      } else {
        RedisAdvances(l, before, before[|before| - 1].time, ask, key);
      }
    }
  }

  /** An interval that reaches the present meets the open window and at most one length before it. */
  lemma {:induction false} WindowsCovered(l: Limits, ts: seq<int>, c: Counter, now: int, a: int)
    requires WindowOk(l, ts, c, now) && now <= a + Length(l)
    ensures CountIn(ts, a, a + Length(l)) <= 2 * l.max
  {
    CountSplits(ts, a, Start(l, c), a + Length(l));
  }

  /** With Redis a closed interval of the window's length can straddle two fixed windows: it holds at
      most `2 * max` admissions of a key. */
  lemma {:induction false} RedisBound(l: Limits, h: seq<Ask>, key: string, a: int)
    requires Ordered(h)
    ensures CountIn(RedisAdmitted(l, h, key), a, a + Length(l)) <= 2 * l.max
  {
    if h != [] {
      var before, ask := h[..|h| - 1], h[|h| - 1];
      RedisReachable(l, h, key);
      if ask.time > a + Length(l) {
        RedisBound(l, before, key, a);
        CountAppended(RedisAdmitted(l, before, key), ask.time, a, a + Length(l));
      } else if key in Counters(l, h) {
        WindowsCovered(l, RedisAdmitted(l, h, key), Counters(l, h)[key], ask.time, a);
      }
    }
  }

  /** After `h` the window that opened at `t` has counted `n` calls, and `total` calls of `key` were
      admitted between 0 and one length later. */
  ghost predicate Burst(l: Limits, h: seq<Ask>, key: string, t: int, n: nat, total: nat) {
    && Ordered(h) && (forall ask :: ask in h ==> ask.time <= t)
    && Live(Counters(l, h), Ask(key, t)) == n
    && (n > 0 ==> key in Counters(l, h) && Counters(l, h)[key].expires == t + Length(l))
    && CountIn(RedisAdmitted(l, h, key), 0, Length(l)) == total
  }

  lemma {:induction false} BurstOnce(l: Limits, h: seq<Ask>, key: string, t: int, n: nat, total: nat)
    requires Burst(l, h, key, t, n, total) && n < l.max && 0 <= t <= Length(l)
    ensures Burst(l, h + [Ask(key, t)], key, t, n + 1, total + 1)
  {
    var h' := h + [Ask(key, t)];
    assert h'[..|h|] == h;
    CountAppended(RedisAdmitted(l, h, key), t, 0, Length(l));
    forall i, j | 0 <= i <= j < |h'| ensures h'[i].time <= h'[j].time {
      assert i < |h| ==> h[i] in h;
    }
  }

  lemma {:induction false} BurstMore(l: Limits, before: seq<Ask>, key: string, t: int, n: nat, total: nat) returns (h: seq<Ask>)
    requires Burst(l, before, key, t, n, total) && n < l.max && 0 <= t <= Length(l)
    ensures Burst(l, h, key, t, n + 1, total + 1)
  {
    h := before + [Ask(key, t)];
    BurstOnce(l, before, key, t, n, total);
  }

  lemma {:induction false} BurstTimes(l: Limits, before: seq<Ask>, key: string, t: int, n: nat, total: nat) returns (h: seq<Ask>)
    requires Burst(l, before, key, t, 0, total) && n <= l.max && 0 <= t <= Length(l)
    ensures Burst(l, h, key, t, n, total + n)
  {
    if n == 0 {
      h := before;
    } else {
      var shorter := BurstTimes(l, before, key, t, n - 1, total);
      h := BurstMore(l, shorter, key, t, n - 1, total + n - 1);
    }
  }

  /** That many do occur: the maximum at the start of one window, and again at the start of the next. */
  lemma {:induction false} RedisBoundIsReached(l: Limits, key: string) returns (h: seq<Ask>)
    requires l.max >= 1
    ensures Ordered(h) && CountIn(RedisAdmitted(l, h, key), 0, Length(l)) == 2 * l.max
  {
    NoBurst(l, key);
    var first := BurstTimes(l, [], key, 0, l.max, 0);
    BurstExpires(l, first, key, l.max, l.max);
    h := BurstTimes(l, first, key, Length(l), l.max, l.max);
  }

  lemma {:induction false} NoBurst(l: Limits, key: string)
    ensures Burst(l, [], key, 0, 0, 0)
  {
  }

  lemma {:induction false} BurstExpires(l: Limits, h: seq<Ask>, key: string, n: nat, total: nat)
    requires Burst(l, h, key, 0, n, total) && n > 0
    ensures Burst(l, h, key, Length(l), 0, total)
  {
  }

  /** The bound that the local limiter keeps. */
  predicate RedisWithinMax(l: Limits, h: seq<Ask>, key: string, a: int) {
    CountIn(RedisAdmitted(l, h, key), a, a + Length(l)) <= l.max
  }

  /** For Redis it holds in every run only if nothing is ever admitted. */
  lemma {:induction false} RedisBoundIff(l: Limits)
    ensures (forall h, key, a :: Ordered(h) ==> RedisWithinMax(l, h, key, a)) <==> l.max == 0
  {
    if l.max == 0 {
      forall h, key, a | Ordered(h) ensures RedisWithinMax(l, h, key, a) { RedisBound(l, h, key, a); }
    } else {
      var h := RedisBoundIsReached(l, "login");
      assert !RedisWithinMax(l, h, "login", 0);
    }
  }

  // ----- In place -----

  class Limiter {
    const limits: Limits
    var attempts: map<string, seq<int>>
    var lastCompaction: int

    function State(): Local
      reads this
    {
      Local(attempts, lastCompaction)
    }

    constructor (limits: Limits, now: int)
      ensures this.limits == limits && State() == Local(map[], now)
    {
      this.limits := limits;
      attempts, lastCompaction := map[], now;
    }

    method PruneBucket(entry: seq<int>, now: int) returns (kept: seq<int>)
      ensures kept == Pruned(entry, now, limits.window)
    {
      kept := entry;
      while kept != [] && now - kept[0] > limits.window
        invariant Pruned(kept, now, limits.window) == Pruned(entry, now, limits.window)
        decreases |kept|
      {
        kept := kept[1..];
      }
    }

    method Compact(now: int)
      modifies this`attempts
      ensures attempts == Compacted(old(attempts), now, limits.window)
    {
      var rest, retained: map<string, seq<int>> := attempts.Keys, map[];
      while rest != {}
        invariant rest <= attempts.Keys && attempts == old(attempts)
        invariant forall k :: k in retained <==>
          k in attempts && k !in rest && Pruned(attempts[k], now, limits.window) != []
        invariant forall k :: k in retained ==> retained[k] == Pruned(attempts[k], now, limits.window)
        decreases rest
      {
        ghost var some := Sets.Pick(rest);
        var key :| key in rest;
        var entry := PruneBucket(attempts[key], now);
        if entry != [] {
          retained := retained[key := entry];
        }
        rest := rest - {key};
      }
      attempts := retained;
      assert attempts == Compacted(old(attempts), now, limits.window);
    }

    /** Compaction is due once a window has passed since the last one. */
    method AllowLocal(key: string, now: int) returns (allowed: bool)
      modifies this
      ensures (State(), allowed) == Step(limits, old(State()), Ask(key, now), Due(limits, old(State()), now))
    {
      if now - lastCompaction >= limits.window {
        lastCompaction := now;
        Compact(now);
      }
      var entry := PruneBucket(if key in attempts then attempts[key] else [], now);
      if |entry| >= limits.max {
        attempts := attempts[key := entry];
        return false;
      }
      attempts := attempts[key := entry + [now]];
      allowed := true;
    }
  }
}
