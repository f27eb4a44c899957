/** The shared geocoding cache: entries with a time to live, bounded by a recency order. */
module GeoCache {
  import opened Options
  import Sets

  /** 24 hours, in seconds. */
  const TTL: int := 86_400

  const CAPACITY: nat := 128

  /** A cached answer carries the worker's own creation time. */
  datatype Cached = Cached(createdAt: int, results: string)

  datatype Entry = Entry(cached: Cached, expires: int)

  /** The keys the script touches: the entries, the order set and the sequence counter. */
  datatype Redis = Redis(
    entries: map<string, Entry>, order: map<string, int>, orderExpires: int, sequence: int, sequenceExpires: int)

  const EMPTY: Redis := Redis(map[], map[], 0, 0, 0)

  /** One call of the storing script at Redis time `time`. */
  datatype Write = Write(key: string, cached: Cached, time: int)

  // ----- The script -----

  /** What Redis still holds at `now`: a key is gone once its time to live is over. */
  function Expire(r: Redis, now: int): Redis {
    Redis(map k | k in r.entries && now < r.entries[k].expires :: r.entries[k],
          if now < r.orderExpires then r.order else map[], r.orderExpires,
          if now < r.sequenceExpires then r.sequence else 0, r.sequenceExpires)
  }

  function Above(order: map<string, int>, k: string): set<string>
    requires k in order
  {
    set j | j in order && order[j] > order[k]
  }

  /** `ZRANGE order 0 -129`: everything below the 128 highest scores. */
  function Old(order: map<string, int>): set<string> {
    set k | k in order && |Above(order, k)| >= CAPACITY
  }

  function Store(r: Redis, w: Write): Redis {
    var live := Expire(r, w.time);
    var order := live.order[w.key := live.sequence + 1];
    var old_ := Old(order);
    Redis(live.entries[w.key := Entry(w.cached, w.time + TTL)] - old_, order - old_, w.time + TTL,
          live.sequence + 1, w.time + TTL)
  }

  function Present(r: Redis, k: string, now: int): bool {
    k in r.entries && now < r.entries[k].expires
  }

  /** A lookup also checks the creation time inside the entry. */
  function Lookup(r: Redis, k: string, now: int): Option<string> {
    if k !in r.entries || now >= r.entries[k].expires then None
    else
      var cached := r.entries[k].cached;
      if cached.createdAt <= now && now - cached.createdAt < TTL then Some(cached.results) else None
  }

  // ----- The simple specification, over the history of stores -----

  predicate Ordered(h: seq<Write>) {
    forall i, j :: 0 <= i <= j < |h| ==> h[i].time <= h[j].time
  }

  /** The index of the last store of `k`, or -1. */
  function Last(h: seq<Write>, k: string): (i: int)
    ensures -1 <= i < |h|
    ensures i >= 0 ==> h[i].key == k
    ensures forall j :: i < j < |h| ==> h[j].key != k
  {
    if h == [] then -1 else if h[|h| - 1].key == k then |h| - 1 else Last(h[..|h| - 1], k)
  }

  /** The distinct keys stored after index `i`. */
  function Since(h: seq<Write>, i: int): set<string>
    requires -1 <= i
  {
    set j | i < j < |h| :: h[j].key
  }

  /** Whether fewer than 128 distinct other keys were stored since the last store of `k`. */
  predicate Recent(h: seq<Write>, k: string) {
    Last(h, k) >= 0 && |Since(h, Last(h, k))| < 128
  }

  /** What a simple reading of the cache promises at `now`. */
  predicate ShouldBePresent(h: seq<Write>, k: string, now: int) {
    Recent(h, k) && now - h[Last(h, k)].time < 86_400
  }

  function After(h: seq<Write>): Redis {
    if h == [] then EMPTY else Store(After(h[..|h| - 1]), h[|h| - 1])
  }

  // ----- How Redis represents a history -----

  /** The first store since the order set last expired. */
  function Epoch(h: seq<Write>): (e: nat)
    ensures h != [] ==> e < |h|
    ensures 0 < e < |h| ==> h[e - 1].time + TTL <= h[e].time
  {
    if |h| <= 1 then 0
    else if h[|h| - 2].time + TTL <= h[|h| - 1].time then |h| - 1
    else Epoch(h[..|h| - 1])
  }

  predicate Kept(h: seq<Write>, k: string) {
    Recent(h, k) && Last(h, k) >= Epoch(h)
  }

  ghost predicate OrderFits(r: Redis, h: seq<Write>, k: string) {
    && (k in r.order <==> Kept(h, k))
    && (k in r.order ==> r.order[k] == Last(h, k) - Epoch(h) + 1)
  }

  ghost predicate EntryFits(r: Redis, h: seq<Write>, k: string)
    requires h != []
  {
    && (k in r.entries <==> Kept(h, k) && h[|h| - 1].time < h[Last(h, k)].time + TTL)
    && (k in r.entries ==> r.entries[k] == Entry(h[Last(h, k)].cached, h[Last(h, k)].time + TTL))
  }

  ghost predicate Represents(r: Redis, h: seq<Write>) {
    if h == [] then r == EMPTY
    else
      && r.sequence == |h| - Epoch(h)
      && r.orderExpires == r.sequenceExpires == h[|h| - 1].time + TTL
      && (forall k :: OrderFits(r, h, k)) && (forall k :: EntryFits(r, h, k))
  }

  lemma {:induction false} Extended(h: seq<Write>, w: Write, k: string)
    ensures Last(h + [w], k) == if k == w.key then |h| else Last(h, k)
    ensures k != w.key ==> Since(h + [w], Last(h, k)) == Since(h, Last(h, k)) + {w.key}
  {
    var h' := h + [w];
    assert h'[..|h'| - 1] == h;
    if k != w.key {
      var i := Last(h, k);
      forall x | x in Since(h, i) + {w.key} ensures x in Since(h', i) {
        if x == w.key {
          assert h'[|h|].key == x;
        } else {
          var j :| i < j < |h| && h[j].key == x;
          assert h'[j].key == x;
        }
      }
    }
  }

  lemma {:induction false} SinceLater(h: seq<Write>, i: int, x: string)
    requires -1 <= i
    ensures x in Since(h, i) <==> Last(h, x) > i
  {
    if x in Since(h, i) {
      var j :| i < j < |h| && h[j].key == x;
    }
    if Last(h, x) > i { assert h[Last(h, x)].key == x; }
  }

  lemma {:induction false} SinceShrinks(h: seq<Write>, i: int, x: string)
    requires -1 <= i && x in Since(h, i)
    ensures i < Last(h, x) && |Since(h, Last(h, x))| <= |Since(h, i)|
  {
    SinceLater(h, i, x);
    forall y | y in Since(h, Last(h, x)) ensures y in Since(h, i) {
      SinceLater(h, i, y);
      SinceLater(h, Last(h, x), y);
    }
    Sets.SubsetSize(Since(h, Last(h, x)), Since(h, i));
  }

  /** In the order set, the keys above `k` are exactly the keys stored since. */
  lemma {:induction false} AboveIsSince(r: Redis, h: seq<Write>, k: string)
    requires (forall x :: OrderFits(r, h, x)) && k in r.order
    ensures Above(r.order, k) == Since(h, Last(h, k))
  {
    var i := Last(h, k);
    assert OrderFits(r, h, k);
    forall x ensures x in Above(r.order, k) <==> x in Since(h, i) {
      SinceLater(h, i, x);
      assert OrderFits(r, h, x);
      if x in Since(h, i) { SinceShrinks(h, i, x); }
    }
  }

  /** The order set once the new key is ranked first. */
  function Ranked(r: Redis, h: seq<Write>, key: string): map<string, int> {
    r.order[key := |h| - Epoch(h) + 1]
  }

  lemma {:induction false} NewKeyStays(r: Redis, h: seq<Write>, w: Write)
    requires forall x :: OrderFits(r, h, x)
    ensures w.key !in Old(Ranked(r, h, w.key)) && Since(h + [w], |h|) == {}
  {
    var order := Ranked(r, h, w.key);
    forall j | j in order ensures order[j] <= order[w.key] { assert OrderFits(r, h, j); }
    assert Above(order, w.key) == {};
  }

  lemma {:induction false} RankedKeyStays(r: Redis, h: seq<Write>, w: Write, k: string)
    requires (forall x :: OrderFits(r, h, x)) && k in r.order && k != w.key
    ensures k in Old(Ranked(r, h, w.key)) <==> |Since(h + [w], Last(h, k))| >= CAPACITY
  {
    var order := Ranked(r, h, w.key);
    Extended(h, w, k);
    AboveIsSince(r, h, k);
    assert OrderFits(r, h, k);
    assert order[w.key] > order[k];
    forall x ensures x in Above(order, k) <==> x in Since(h, Last(h, k)) + {w.key} {
      if x != w.key { assert x in Above(order, k) <==> x in Above(r.order, k); }
    }
    assert Above(order, k) == Since(h + [w], Last(h, k));
  }

  lemma {:induction false} ForgottenStays(h: seq<Write>, w: Write, k: string)
    requires k != w.key && Recent(h + [w], k)
    ensures Recent(h, k)
  {
    Extended(h, w, k);
    Sets.SubsetSize(Since(h, Last(h, k)), Since(h + [w], Last(h, k)));
  }

  /** The order after ranking the new key and dropping the old ones. */
  lemma {:induction false} RankingKeeps(r: Redis, h: seq<Write>, w: Write, k: string)
    requires (forall x :: OrderFits(r, h, x)) && h != [] && Epoch(h + [w]) == Epoch(h)
    ensures var order := Ranked(r, h, w.key);
            && (k in order - Old(order) <==> Kept(h + [w], k))
            && (k in order - Old(order) ==> order[k] == Last(h + [w], k) - Epoch(h) + 1)
  {
    Extended(h, w, k);
    assert OrderFits(r, h, k);
    if k == w.key {
      NewKeyStays(r, h, w);
    } else if k in r.order {
      RankedKeyStays(r, h, w, k);
    } else if Recent(h + [w], k) {
      ForgottenStays(h, w, k);
    }
  }

  lemma {:induction false} EpochExtended(h: seq<Write>, w: Write)
    ensures Epoch(h + [w]) ==
            if h == [] then 0 else if h[|h| - 1].time + TTL <= w.time then |h| else Epoch(h)
  {
    var h' := h + [w];
    assert h'[..|h'| - 1] == h;
  }

  lemma {:induction false} ExpiredAll(r: Redis, h: seq<Write>, now: int)
    requires Represents(r, h) && Ordered(h) && (h != [] ==> h[|h| - 1].time + TTL <= now)
    ensures Expire(r, now).entries == map[] && Expire(r, now).order == map[] && Expire(r, now).sequence == 0
  {
    if h != [] {
      forall k | k in r.entries ensures r.entries[k].expires <= now { assert EntryFits(r, h, k); }
    }
  }

  /** Storing after a silence of a day starts from nothing. */
  lemma {:induction false} StoreRestarts(r: Redis, h: seq<Write>, w: Write)
    requires Represents(r, h) && Ordered(h)
    requires h != [] ==> h[|h| - 1].time + TTL <= w.time
    ensures Represents(Store(r, w), h + [w])
  {
    var r' := Store(r, w);
    EpochExtended(h, w);
    ExpiredAll(r, h, w.time);
    var order: map<string, int> := map[w.key := 1];
    assert Above(order, w.key) == {};
    assert Old(order) == {};
    assert r'.order == order && r'.entries == map[w.key := Entry(w.cached, w.time + TTL)];
    assert Since(h + [w], |h|) == {};
    forall k ensures OrderFits(r', h + [w], k) && EntryFits(r', h + [w], k) { Extended(h, w, k); }
  }

  lemma {:induction false} StoreContinues(r: Redis, h: seq<Write>, w: Write)
    requires Represents(r, h) && h != [] && h[|h| - 1].time <= w.time < h[|h| - 1].time + TTL
    ensures Represents(Store(r, w), h + [w])
  {
    var h', r', order := h + [w], Store(r, w), Ranked(r, h, w.key);
    EpochExtended(h, w);
    assert r'.order == order - Old(order);
    forall k ensures OrderFits(r', h', k) && EntryFits(r', h', k) {
      RankingKeeps(r, h, w, k);
      assert OrderFits(r', h', k);
      EntryContinues(r, h, w, k);
    }
  }

  lemma {:induction false} EntryContinues(r: Redis, h: seq<Write>, w: Write, k: string)
    requires Represents(r, h) && h != [] && h[|h| - 1].time <= w.time < h[|h| - 1].time + TTL
    requires OrderFits(Store(r, w), h + [w], k)
    ensures EntryFits(Store(r, w), h + [w], k)
  {
    assert Store(r, w).order == Ranked(r, h, w.key) - Old(Ranked(r, h, w.key));
    Extended(h, w, k);
    if k == w.key {
      NewKeyStays(r, h, w);
    } else {
      OldEntryContinues(r, h, w, k);
    }
  }

  lemma {:induction false} OldEntryContinues(r: Redis, h: seq<Write>, w: Write, k: string)
    requires Represents(r, h) && h != [] && h[|h| - 1].time <= w.time < h[|h| - 1].time + TTL
    requires OrderFits(Store(r, w), h + [w], k) && k != w.key
    ensures EntryFits(Store(r, w), h + [w], k)
  {
    var h' := h + [w];
    EpochExtended(h, w);
    Extended(h, w, k);
    assert OrderFits(r, h, k) && EntryFits(r, h, k);
    assert Last(h, k) >= 0 ==> h'[Last(h, k)] == h[Last(h, k)];
    if Kept(h', k) { ForgottenStays(h, w, k); }
  }

  lemma {:induction false} Reachable(h: seq<Write>)
    requires Ordered(h)
    ensures Represents(After(h), h)
  {
    if h != [] {
      var before, w := h[..|h| - 1], h[|h| - 1];
      Reachable(before);
      assert h == before + [w];
      if before == [] || before[|before| - 1].time + TTL <= w.time {
        StoreRestarts(After(before), before, w);
      } else {
        StoreContinues(After(before), before, w);
      }
    }
  }

  // ----- The promises -----

  /** A key is present exactly when its last store is under 24 hours old and fewer than 128
      distinct other keys were stored since. */
  lemma {:induction false} CacheAgrees(h: seq<Write>, k: string, now: int)
    requires Ordered(h) && (h != [] ==> h[|h| - 1].time <= now)
    ensures Present(After(h), k, now) <==> ShouldBePresent(h, k, now)
    ensures Present(After(h), k, now) ==> After(h).entries[k].cached == h[Last(h, k)].cached
  {
    Reachable(h);
    if h != [] {
      assert EntryFits(After(h), h, k);
    }
  }

  /** A hit returns the results of the last store of the key, and happens exactly when that
      store is still promised and its own creation time is less than a day in the past. */
  lemma {:induction false} LookupAgrees(h: seq<Write>, k: string, now: int, results: string)
    requires Ordered(h) && (h != [] ==> h[|h| - 1].time <= now)
    ensures Lookup(After(h), k, now) == Some(results) <==>
            (ShouldBePresent(h, k, now) && h[Last(h, k)].cached.results == results &&
             0 <= now - h[Last(h, k)].cached.createdAt < 86_400)
  {
    CacheAgrees(h, k, now);
  }

  /** Every live key is in the order set, which never holds more than 128 keys, and a store
      never evicts the key it wrote. */
  lemma {:induction false} OrderBounds(h: seq<Write>, now: int)
    requires Ordered(h) && h != [] && h[|h| - 1].time <= now
    ensures var r := After(h);
            && |r.order| <= 128
            && (forall k :: Present(r, k, now) ==> k in Expire(r, now).order)
            && h[|h| - 1].key in r.order && Present(r, h[|h| - 1].key, h[|h| - 1].time)
  {
    Reachable(h);
    var r, key := After(h), h[|h| - 1].key;
    assert Last(h, key) == |h| - 1 && Since(h, |h| - 1) == {};
    assert Kept(h, key) && OrderFits(r, h, key) && EntryFits(r, h, key);
    forall k | Present(r, k, now) ensures k in r.order && now < r.orderExpires {
      assert EntryFits(r, h, k) && OrderFits(r, h, k);
    }
    OrderIsBounded(r, h);
  }

  lemma {:induction false} OrderIsBounded(r: Redis, h: seq<Write>)
    requires forall x :: OrderFits(r, h, x)
    ensures |r.order| <= CAPACITY
  {
    if r.order != map[] {
      var k := Lowest(r.order);
      AboveIsSince(r, h, k);
      assert OrderFits(r, h, k);
      forall j | j in r.order && j != k ensures j in Above(r.order, k) {
        assert OrderFits(r, h, j) && Last(h, j) != Last(h, k);
      }
      Sets.SubsetSize(r.order.Keys, Above(r.order, k) + {k});
    }
  }

  /** A key with the lowest score. */
  ghost function Lowest(order: map<string, int>): (k: string)
    requires order != map[]
    ensures k in order && forall j :: j in order ==> order[k] <= order[j]
    decreases |order|
  {
    assert order.Keys != {};
    var some := Sets.Pick(order.Keys);
    var rest := order - {some};
    if rest == map[] then
      assert forall j :: j in order ==> j == some by {
        assert forall j :: j in order && j != some ==> j in rest;
      }
      some
    else
      assert forall j :: j in order ==> j == some || j in rest;
      var low := Lowest(rest);
      if order[some] <= order[low] then some else low
  }

  // ----- In place -----

  class Client {
    var entries: map<string, Entry>
    var order: map<string, int>
    var orderExpires: int
    var sequence: int
    var sequenceExpires: int

    function State(): Redis
      reads this
    {
      Redis(entries, order, orderExpires, sequence, sequenceExpires)
    }

    constructor ()
      ensures State() == EMPTY
    {
      entries, order, orderExpires, sequence, sequenceExpires := map[], map[], 0, 0, 0;
    }

    /** The script's loop: each old key leaves the entries and the order set. */
    method Evict(old_: set<string>)
      modifies this`entries, this`order
      ensures entries == old(entries) - old_ && order == old(order) - old_
    {
      var rest := old_;
      while rest != {}
        invariant rest <= old_
        invariant entries == old(entries) - (old_ - rest) && order == old(order) - (old_ - rest)
        decreases rest
      {
        ghost var some := Sets.Pick(rest);
        var field :| field in rest;
        entries := entries - {field};
        order := order - {field};
        rest := rest - {field};
        assert old_ - (rest + {field}) == old_ - rest - {field};
      }
      assert old_ - rest == old_;
    }

    method StoreCache(w: Write)
      modifies this
      ensures State() == Store(old(State()), w)
    {
      var live := Expire(State(), w.time);
      sequence := live.sequence + 1;
      entries := live.entries[w.key := Entry(w.cached, w.time + TTL)];
      order := live.order[w.key := sequence];
      Evict(Old(order));
      orderExpires, sequenceExpires := w.time + TTL, w.time + TTL;
    }
  }
}
