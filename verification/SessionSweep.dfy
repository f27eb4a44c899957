/** Retired sessions stay retired, so the periodic sweep of expired rows can never be noticed. */
module SessionSweep {
  import opened Options
  import opened Sessions

  // ----- Clocks -----

  /** The latest `NOW()` seen after `ops`. */
  function Clock(now: int, ops: seq<Op>): int {
    if ops == [] then now
    else
      var t := Time(ops[|ops| - 1]);
      if t.Some? then t.value else Clock(now, ops[..|ops| - 1])
  }

  /** No operation runs at an earlier time than one before it. */
  ghost predicate Timely(now: int, ops: seq<Op>) {
    forall i :: 0 <= i < |ops| && Time(ops[i]).Some? ==> Clock(now, ops[..i]) <= Time(ops[i]).value
  }

  lemma {:induction false} PrefixFresh(s: State, ops: seq<Op>, i: nat)
    requires AllFresh(s, ops) && i <= |ops|
    ensures AllFresh(s, ops[..i])
  {
    assert forall j :: 0 <= j < i ==> ops[..i][..j] == ops[..j];
  }

  // ----- Retirement -----

  /** A session row that is refused now. */
  ghost predicate Retired(s: State, id: int, now: int) {
    id in s.sessions && !ValidAt(s, s.sessions[id], now)
  }

  lemma {:induction false} RetiredStep(s: State, op: Op, id: int, now: int)
    requires Valid(s) && Fresh(s, op) && Retired(s, id, now)
    requires Time(op).Some? ==> now <= Time(op).value
    ensures id in Step(s, op).0.sessions ==>
              Retired(Step(s, op).0, id, if Time(op).Some? then Time(op).value else now)
  {
    var x := s.sessions[id];
    assert Expired(x, now) || x.version < s.users[x.user].version;
    if op.Refresh? {
      RefreshAnswer(s, op.token, op.next, op.at);
      var s1 := s.(drawn := s.drawn + {op.next});
      assert forall token :: !Accepts(s1, x, token, op.at);
    }
  }

  /** Once a session is refused, because of time, a version bump or a suspension, it is refused
      for ever, even after its user is unsuspended. */
  lemma {:induction false} RetirementIsPermanent(s: State, ops: seq<Op>, id: int, now: int)
    requires Valid(s) && AllFresh(s, ops) && Timely(now, ops) && Retired(s, id, now)
    ensures now <= Clock(now, ops)
    ensures id in After(s, ops).ids
    ensures id in After(s, ops).sessions ==>
              forall token, at :: Clock(now, ops) <= at ==> !Accepts(After(s, ops), After(s, ops).sessions[id], token, at)
    ensures id in After(s, ops).sessions ==> Retired(After(s, ops), id, Clock(now, ops))
  {
    if ops != [] {
      var before, op := ops[..|ops| - 1], ops[|ops| - 1];
      assert forall i :: 0 <= i <= |before| ==> before[..i] == ops[..i];
      RetirementIsPermanent(s, before, id, now);
      RunKeeps(s, before);
      CreatedAtStep(After(s, before), op, id);
      if id in After(s, before).sessions {
        RetiredStep(After(s, before), op, id, Clock(now, before));
      }
    }
    RetiredLater(After(s, ops), id, Clock(now, ops));
    RunKeeps(s, ops);
  }

  lemma {:induction false} RetiredLater(s: State, id: int, now: int)
    ensures Retired(s, id, now) ==> forall at :: now <= at ==> Retired(s, id, at)
  {
  }

  /** The session belongs to an earlier version of its user, or is gone with its user. */
  ghost predicate Outdated(s: State, id: int) {
    && id in s.ids
    && (id in s.sessions ==> s.sessions[id].user in s.users && s.sessions[id].version < s.users[s.sessions[id].user].version)
  }

  lemma {:induction false} OutdatedStep(s: State, op: Op, id: int)
    requires Valid(s) && Fresh(s, op) && Outdated(s, id)
    ensures Outdated(Step(s, op).0, id)
  {
    CreatedAtStep(s, op, id);
  }

  lemma {:induction false} OutdatedForever(s: State, ops: seq<Op>, id: int)
    requires Valid(s) && AllFresh(s, ops) && Outdated(s, id)
    ensures Outdated(After(s, ops), id)
  {
    if ops != [] {
      var before := ops[..|ops| - 1];
      PrefixFresh(s, ops, |ops| - 1);
      OutdatedForever(s, before, id);
      RunKeeps(s, before);
      OutdatedStep(After(s, before), ops[|ops| - 1], id);
    }
  }

  /** A completed password reset, and every suspension or its lifting, ends all sessions that the user
      has at that moment: whatever happens afterwards, and whatever `NOW()` says, no secret is
      accepted for any of them again. */
  lemma {:induction false} RevokedForever(s: State, op: Op, ops: seq<Op>, id: int)
    requires Valid(s) && id in s.sessions && AllFresh(Step(s, op).0, ops)
    requires || (op.SetSuspended? && op.user == s.sessions[id].user)
             || (op.ConfirmReset? && Step(s, op).1 == PasswordChanged && FindReset(s, op.token, op.at) == Some(s.sessions[id].user))
    ensures var s' := After(Step(s, op).0, ops);
            id in s'.sessions ==> forall token, at :: !Accepts(s', s'.sessions[id], token, at)
  {
    StepKeeps(s, op);
    OutdatedForever(Step(s, op).0, ops, id);
  }

  /** No pending reset carries this secret any more. */
  ghost predicate Spent(s: State, token: int) {
    token in s.drawn && forall u :: u in s.resets ==> s.resets[u].hash != Digest(token)
  }

  lemma {:induction false} UsedIsSpent(s: State, token: int, at: int)
    requires Valid(s) && Step(s, ConfirmReset(token, at)).1 == PasswordChanged
    ensures Spent(Step(s, ConfirmReset(token, at)).0, token)
  {
    var user := FindReset(s, token, at).value;
    assert forall u :: u in s.resets && s.resets[u].hash == Digest(token) ==> u == user;
  }

  lemma {:induction false} SpentForever(s: State, token: int, ops: seq<Op>)
    requires Spent(s, token) && AllFresh(s, ops)
    ensures Spent(After(s, ops), token)
  {
    if ops != [] {
      var before := ops[..|ops| - 1];
      assert forall i :: 0 <= i <= |before| ==> before[..i] == ops[..i];
      SpentForever(s, token, before);
      SpentStep(After(s, before), ops[|ops| - 1], token);
    }
  }

  /** A reset secret changes a password at most once. */
  lemma {:induction false} ResetIsSingleUse(s: State, token: int, at: int, ops: seq<Op>, i: nat)
    requires Valid(s) && Step(s, ConfirmReset(token, at)).1 == PasswordChanged
    requires AllFresh(Step(s, ConfirmReset(token, at)).0, ops)
    requires i < |ops| && ops[i].ConfirmReset? && ops[i].token == token
    ensures ReplyAt(Step(s, ConfirmReset(token, at)).0, ops, i) == Refused
  {
    var s0 := Step(s, ConfirmReset(token, at)).0;
    UsedIsSpent(s, token, at);
    PrefixFresh(s0, ops, i);
    SpentForever(s0, token, ops[..i]);
    SpentStep(After(s0, ops[..i]), ops[i], token);
  }

  lemma {:induction false} SpentStep(s: State, op: Op, token: int)
    requires Fresh(s, op) && Spent(s, token)
    ensures Spent(Step(s, op).0, token)
    ensures op.ConfirmReset? && op.token == token ==> Step(s, op).1 == Refused
  {
  }

  // ----- When the sweep is noticed -----

  /** `s` is `t` without some rows, each of which had expired at one of `times`. */
  ghost predicate Swept(s: State, t: State, times: set<int>) {
    && s.users == t.users && s.claims == t.claims && s.drawn == t.drawn && s.ids == t.ids
    && (forall id :: id in s.sessions ==> id in t.sessions && s.sessions[id] == t.sessions[id])
    && (forall id :: id in t.sessions && id !in s.sessions ==> exists at :: at in times && Expired(t.sessions[id], at))
    && (forall u :: u in s.resets ==> u in t.resets && s.resets[u] == t.resets[u])
    && (forall u :: u in t.resets && u !in s.resets ==> exists at :: at in times && t.resets[u].expiresAt <= at)
  }

  /** The user may reset a password. */
  predicate MayReset(s: State, user: int) {
    user in s.users && s.users[user].passwordLogin && !s.users[user].suspended
  }

  /** The row that decides `op` in `t` was swept from `s`, although it is in force at the `NOW()` of `op`. */
  ghost predicate Misses(s: State, t: State, op: Op) {
    match op
    case Refresh(token, _, at) =>
      exists id :: id in t.sessions && id !in s.sessions && Accepts(t, t.sessions[id], token, at)
    case ConfirmReset(token, at) =>
      exists u :: u in t.resets && u !in s.resets && MayReset(t, u) &&
                  t.resets[u].hash == Digest(token) && t.resets[u].expiresAt > at
    case RequestReset(u, _, at) =>
      u in t.resets && u !in s.resets && MayReset(t, u) && t.resets[u].requestedAt >= at - RESET_INTERVAL
    case _ => false
  }

  lemma {:induction false} AcceptedSameAnswer(s: State, t: State, times: set<int>, op: Op, id: int)
    requires op.Refresh? && Valid(s) && Valid(t) && Fresh(s, op) && Swept(s, t, times)
    requires id in s.sessions && Accepts(s, s.sessions[id], op.token, op.at)
    ensures Step(s, op).1 == Step(t, op).1 && Swept(Step(s, op).0, Step(t, op).0, times)
  {
    assert Accepts(t, t.sessions[id], op.token, op.at);
    RefreshAnswer(s, op.token, op.next, op.at);
    RefreshAnswer(t, op.token, op.next, op.at);
    RefreshChanges(s, op);
    RefreshChanges(t, op);
  }

  lemma {:induction false} RefreshChanges(s: State, op: Op)
    requires op.Refresh?
    ensures Step(s, op).0 == s.(drawn := s.drawn + {op.next}, sessions := Step(s, op).0.sessions)
  {
  }

  lemma {:induction false} RefreshRefused(s: State, op: Op)
    requires op.Refresh? && Valid(s) && Fresh(s, op)
    requires forall id :: !(id in s.sessions && Accepts(s, s.sessions[id], op.token, op.at))
    ensures Step(s, op) == (s.(drawn := s.drawn + {op.next}), Refused)
  {
    RefreshAnswer(s, op.token, op.next, op.at);
    RefusedChangesNothing(s, op);
  }

  lemma {:induction false} RefusedChangesNothing(s: State, op: Op)
    requires op.Refresh? && Step(s, op).1 == Refused
    ensures Step(s, op).0 == s.(drawn := s.drawn + {op.next})
  {
  }

  lemma {:induction false} RefreshSameAnswer(s: State, t: State, times: set<int>, op: Op)
    requires op.Refresh? && Valid(s) && Valid(t) && Fresh(s, op) && Swept(s, t, times) && !Misses(s, t, op)
    ensures Step(s, op).1 == Step(t, op).1 && Swept(Step(s, op).0, Step(t, op).0, times)
  {
    if id :| id in s.sessions && Accepts(s, s.sessions[id], op.token, op.at) {
      AcceptedSameAnswer(s, t, times, op, id);
    } else {
      forall id ensures !(id in t.sessions && Accepts(t, t.sessions[id], op.token, op.at)) {
        assert id in s.sessions ==> !Accepts(s, s.sessions[id], op.token, op.at);
      }
      RefreshRefused(s, op);
      RefreshRefused(t, op);
    }
  }

  lemma {:induction false} ConfirmSameAnswer(s: State, t: State, times: set<int>, op: Op)
    requires op.ConfirmReset? && Valid(s) && Valid(t) && Swept(s, t, times) && !Misses(s, t, op)
    ensures Step(s, op).1 == Step(t, op).1 && Swept(Step(s, op).0, Step(t, op).0, times)
  {
    var u, v := FindReset(s, op.token, op.at), FindReset(t, op.token, op.at);
    if v.Some? {
      if v.value in s.resets { assert u == v; } else { assert u == None && !MayReset(t, v.value); }
    } else {
      assert u == None;
    }
  }

  lemma {:induction false} RequestSameAnswer(s: State, t: State, times: set<int>, op: Op)
    requires op.RequestReset? && Swept(s, t, times) && !Misses(s, t, op)
    ensures Step(s, op).1 == Step(t, op).1 && Swept(Step(s, op).0, Step(t, op).0, times)
  {
  }

  lemma {:induction false} UserSameAnswer(s: State, t: State, times: set<int>, op: Op)
    requires Time(op).None? && !op.Logout? && Swept(s, t, times)
    ensures Step(s, op).1 == Step(t, op).1 && Swept(Step(s, op).0, Step(t, op).0, times)
  {
  }

  lemma {:induction false} LogoutSameAnswer(s: State, t: State, times: set<int>, token: int)
    requires Swept(s, t, times)
    ensures Step(s, Logout(token)).1 == Step(t, Logout(token)).1
    ensures Swept(Step(s, Logout(token)).0, Step(t, Logout(token)).0, times)
  {
  }

  lemma {:induction false} IssueSameAnswer(s: State, t: State, times: set<int>, op: Op)
    requires op.Issue? && Valid(s) && Valid(t) && Fresh(s, op) && Swept(s, t, times)
    ensures Step(s, op).1 == Step(t, op).1 && Swept(Step(s, op).0, Step(t, op).0, times)
  {
    assert op.id !in t.sessions;
  }

  lemma {:induction false} SameAnswer(s: State, t: State, times: set<int>, op: Op)
    requires !op.Sweep? && Valid(s) && Valid(t) && Fresh(s, op) && Swept(s, t, times) && !Misses(s, t, op)
    ensures Step(s, op).1 == Step(t, op).1 && Swept(Step(s, op).0, Step(t, op).0, times)
  {
    match op
    case Refresh(_, _, _) => RefreshSameAnswer(s, t, times, op);
    case ConfirmReset(_, _) => ConfirmSameAnswer(s, t, times, op);
    case RequestReset(_, _, _) => RequestSameAnswer(s, t, times, op);
    case Issue(_, _, _, _) => IssueSameAnswer(s, t, times, op);
    case Logout(token) => LogoutSameAnswer(s, t, times, token);
    case _ => UserSameAnswer(s, t, times, op);
  }

  lemma {:induction false} OtherAnswer(s: State, t: State, times: set<int>, op: Op)
    requires Valid(s) && Valid(t) && Fresh(s, op) && Swept(s, t, times) && Misses(s, t, op)
    ensures Step(s, op).1 != Step(t, op).1
  {
    match op
    case Refresh(token, next, at) =>
      var id :| id in t.sessions && id !in s.sessions && Accepts(t, t.sessions[id], token, at);
      RefreshAnswer(t, token, next, at);
      forall i ensures !(i in s.sessions && Accepts(s, s.sessions[i], token, at)) {
        assert i in s.sessions && i != id ==> !(HasToken(t.sessions[i], token) && HasToken(t.sessions[id], token));
      }
      RefreshRefused(s, op);
    case ConfirmReset(token, at) =>
      var u :| u in t.resets && u !in s.resets && MayReset(t, u) &&
               t.resets[u].hash == Digest(token) && t.resets[u].expiresAt > at;
      assert FindReset(t, token, at) == Some(u) && FindReset(s, token, at) == None;
    case _ =>
  }

  /** An operation that misses its row carries a `NOW()` before that of a sweep. */
  lemma {:induction false} MissesIsLate(s: State, t: State, times: set<int>, op: Op)
    requires Valid(t) && Swept(s, t, times) && Misses(s, t, op)
    ensures Late(times, op)
  {
  }

  // ----- Runs with and without sweeps -----

  ghost predicate Late(times: set<int>, op: Op) {
    !op.Sweep? && Time(op).Some? && exists at :: at in times && Time(op).value < at
  }

  /** The times of the sweeps in a run. */
  function SweepTimes(ops: seq<Op>): set<int> {
    if ops == [] then {}
    else SweepTimes(ops[..|ops| - 1]) + if ops[|ops| - 1].Sweep? then {ops[|ops| - 1].at} else {}
  }

  /** The same operations without the sweeps. */
  function Unswept(ops: seq<Op>): seq<Op> {
    if ops == [] then []
    else Unswept(ops[..|ops| - 1]) + if ops[|ops| - 1].Sweep? then [] else [ops[|ops| - 1]]
  }

  /** The answers to everything but the sweeps. */
  ghost function Answers(s: State, ops: seq<Op>): seq<Reply> {
    if ops == [] then []
    else
      var before, op := ops[..|ops| - 1], ops[|ops| - 1];
      Answers(s, before) + if op.Sweep? then [] else [Step(After(s, before), op).1]
  }

  /** No operation comes to a row, still in force at its own `NOW()`, that was swept before it. */
  ghost predicate NeverMisses(s: State, ops: seq<Op>) {
    ops == [] ||
    (var before, op := ops[..|ops| - 1], ops[|ops| - 1];
     NeverMisses(s, before) && !Misses(After(s, before), After(s, Unswept(before)), op))
  }

  /** No operation carries a `NOW()` before that of a sweep that came before it. */
  ghost predicate NeverLate(ops: seq<Op>) {
    ops == [] || (NeverLate(ops[..|ops| - 1]) && !Late(SweepTimes(ops[..|ops| - 1]), ops[|ops| - 1]))
  }

  ghost predicate Alike(s: State, t: State, times: set<int>) {
    Valid(s) && Valid(t) && Swept(s, t, times)
  }

  lemma {:induction false} SweepStays(s: State, t: State, times: set<int>, at: int)
    requires Swept(s, t, times)
    ensures Swept(SweepStep(s, at), t, times + {at})
  {
    var s' := SweepStep(s, at);
    assert at in times + {at};
    forall id | id in t.sessions && id !in s'.sessions ensures exists m :: m in times + {at} && Expired(t.sessions[id], m) {
      if id !in s.sessions {
        var m :| m in times && Expired(t.sessions[id], m);
        assert m in times + {at};
      }
    }
    forall u | u in t.resets && u !in s'.resets ensures exists m :: m in times + {at} && t.resets[u].expiresAt <= m {
      if u !in s.resets {
        var m :| m in times && t.resets[u].expiresAt <= m;
        assert m in times + {at};
      }
    }
  }

  lemma {:induction false} AlikeStep(s: State, t: State, times: set<int>, op: Op)
    requires Alike(s, t, times) && Fresh(s, op) && !Misses(s, t, op)
    ensures if op.Sweep? then Alike(Step(s, op).0, t, times + {op.at})
            else Alike(Step(s, op).0, Step(t, op).0, times) && Step(s, op).1 == Step(t, op).1
  {
    StepKeeps(s, op);
    if op.Sweep? {
      SweepStays(s, t, times, op.at);
    } else {
      SameAnswer(s, t, times, op);
      StepKeeps(t, op);
    }
  }

  /** Running `ops` without its sweeps, one operation more. */
  lemma {:induction false} UnsweptAppend(s: State, ops: seq<Op>)
    requires ops != []
    ensures var before, op := ops[..|ops| - 1], ops[|ops| - 1];
            && After(s, Unswept(ops)) == (if op.Sweep? then After(s, Unswept(before)) else Step(After(s, Unswept(before)), op).0)
            && Answers(s, Unswept(ops)) == Answers(s, Unswept(before)) +
                 if op.Sweep? then [] else [Step(After(s, Unswept(before)), op).1]
  {
    var before, op, all := ops[..|ops| - 1], ops[|ops| - 1], Unswept(ops);
    if op.Sweep? {
      assert all == Unswept(before);
    } else {
      assert all[..|all| - 1] == Unswept(before) && all[|all| - 1] == op;
    }
  }

  lemma {:induction false} AnswersAppend(s: State, ops: seq<Op>)
    requires ops != [] && AllFresh(s, ops)
    ensures var before, op := ops[..|ops| - 1], ops[|ops| - 1];
            && AllFresh(s, before) && Fresh(After(s, before), op) && After(s, ops) == Step(After(s, before), op).0
            && Answers(s, ops) == Answers(s, before) + (if op.Sweep? then [] else [Step(After(s, before), op).1])
            && SweepTimes(ops) == SweepTimes(before) + if op.Sweep? then {op.at} else {}
  {
    PrefixFresh(s, ops, |ops| - 1);
  }

  lemma {:induction false} NeverMissedAlike(s: State, ops: seq<Op>)
    requires Valid(s) && AllFresh(s, ops) && NeverMisses(s, ops)
    ensures Alike(After(s, ops), After(s, Unswept(ops)), SweepTimes(ops))
    ensures Answers(s, ops) == Answers(s, Unswept(ops))
  {
    if ops != [] {
      var before := ops[..|ops| - 1];
      AnswersAppend(s, ops);
      UnsweptAppend(s, ops);
      NeverMissedAlike(s, before);
      AlikeStep(After(s, before), After(s, Unswept(before)), SweepTimes(before), ops[|ops| - 1]);
    }
  }

  lemma {:induction false} AppendDiffers(a: seq<Reply>, b: seq<Reply>, x: seq<Reply>, y: seq<Reply>)
    requires |x| == |y| && (a != b || x != y)
    ensures a + x != b + y
  {
    if |a| == |b| { assert (a + x)[..|a|] == a && (b + y)[..|b|] == b && (a + x)[|a|..] == x && (b + y)[|b|..] == y; }
  }

  lemma {:induction false} MissedIsNoticed(s: State, ops: seq<Op>)
    requires Valid(s) && AllFresh(s, ops) && !NeverMisses(s, ops)
    ensures Answers(s, ops) != Answers(s, Unswept(ops))
  {
    var before, op := ops[..|ops| - 1], ops[|ops| - 1];
    AnswersAppend(s, ops);
    UnsweptAppend(s, ops);
    var one, other := Step(After(s, before), op).1, Step(After(s, Unswept(before)), op).1;
    if NeverMisses(s, before) {
      NeverMissedAlike(s, before);
      OtherAnswer(After(s, before), After(s, Unswept(before)), SweepTimes(before), op);
    } else {
      MissedIsNoticed(s, before);
    }
    AppendDiffers(Answers(s, before), Answers(s, Unswept(before)),
                  if op.Sweep? then [] else [one], if op.Sweep? then [] else [other]);
  }

  /** Sweeping at any times gives every client the answers it gets without any sweep, exactly when no
      operation comes to a row, still in force at its own `NOW()`, that was swept before it. */
  lemma {:induction false} SweepIsInvisibleIff(s: State, ops: seq<Op>)
    requires Valid(s) && AllFresh(s, ops)
    ensures Answers(s, ops) == Answers(s, Unswept(ops)) <==> NeverMisses(s, ops)
  {
    if NeverMisses(s, ops) { NeverMissedAlike(s, ops); } else { MissedIsNoticed(s, ops); }
  }

  /** In particular when no operation carries a `NOW()` before that of a sweep that came before it. */
  lemma {:induction false} SweepIsInvisible(s: State, ops: seq<Op>)
    requires Valid(s) && AllFresh(s, ops) && NeverLate(ops)
    ensures NeverMisses(s, ops) && Answers(s, ops) == Answers(s, Unswept(ops))
  {
    if ops != [] {
      var before, op := ops[..|ops| - 1], ops[|ops| - 1];
      AnswersAppend(s, ops);
      SweepIsInvisible(s, before);
      NeverMissedAlike(s, before);
      if Misses(After(s, before), After(s, Unswept(before)), op) {
        MissesIsLate(After(s, before), After(s, Unswept(before)), SweepTimes(before), op);
      }
    }
    SweepIsInvisibleIff(s, ops);
  }

  // ----- A refresh that the sweep overtakes -----

  const LoggedIn := [AddUser(1, true), ReadClaims(1, 0), Issue(Claims(1, 0), 1, 7, 0)]

  const OneSession := State(map[1 := User(0, false, true)],
                            map[1 := Session(1, 0, Digest(7), 7, None, 0, INACTIVITY)], map[], {Claims(1, 0)}, {7}, {1})

  lemma {:induction false} LoggedInReaches()
    ensures AllFresh(Empty, LoggedIn) && After(Empty, LoggedIn) == OneSession && Valid(OneSession)
  {
    assert LoggedIn[..2][..1] == LoggedIn[..1] && LoggedIn[..1][..0] == [];
    assert After(Empty, LoggedIn[..1]) == Empty.(users := map[1 := User(0, false, true)]);
    assert After(Empty, LoggedIn[..2]) == Empty.(users := map[1 := User(0, false, true)], claims := {Claims(1, 0)});
    RunKeeps(Empty, LoggedIn);
  }

  lemma {:induction false} Overtaken()
    ensures Step(OneSession, Sweep(INACTIVITY)).0 == OneSession.(sessions := map[])
    ensures Step(OneSession.(sessions := map[]), Refresh(7, 8, INACTIVITY - 1)).1 == Refused
    ensures Step(OneSession, Refresh(7, 8, INACTIVITY - 1)).1 == Renewed(8)
  {
    assert Step(OneSession, Sweep(INACTIVITY)).0.sessions == map[];
    assert Accepts(OneSession, OneSession.sessions[1], 7, INACTIVITY - 1);
    RefreshAnswer(OneSession, 7, 8, INACTIVITY - 1);
  }

  /** The refresh began a second before the session expired, and reads its row after a sweep that
      began at the expiry: it is refused, and would have been renewed without the sweep. */
  lemma {:induction false} SweepNoticed()
    ensures var ops := LoggedIn + [Sweep(INACTIVITY), Refresh(7, 8, INACTIVITY - 1)];
            && AllFresh(Empty, ops) && ReplyAt(Empty, ops, 4) == Refused
            && ReplyAt(Empty, LoggedIn + [ops[4]], 3) == Renewed(8)
  {
    var sweep, refresh := Sweep(INACTIVITY), Refresh(7, 8, INACTIVITY - 1);
    var ops := LoggedIn + [sweep, refresh];
    LoggedInReaches();
    Overtaken();
    assert ops[..3] == LoggedIn && ops[..4][..3] == LoggedIn && forall i :: 0 <= i < 3 ==> ops[..i] == LoggedIn[..i];
    assert (LoggedIn + [refresh])[..3] == LoggedIn;
  }
}
