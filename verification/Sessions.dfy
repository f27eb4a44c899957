/**
 * Native sessions: a rotating refresh secret per device with a five-minute retry window for the
 * secret it replaced, password resets, and the version bumps that revoke every session of a user.
 */
module Sessions {
  import opened Options

  const RETRY_WINDOW := 5 * 60
  const INACTIVITY := 90 * 86400
  const LIFETIME := 365 * 86400
  const RESET_LIFETIME := 30 * 60
  const RESET_INTERVAL := 60

  /** SHA-256 of a secret, taken to be injective. */
  datatype Digest = Digest(secret: int)

  datatype Previous = Previous(hash: Digest, validUntil: int)

  datatype Session = Session(
    user: int, version: int, hash: Digest, secret: int, previous: Option<Previous>, createdAt: int, expiresAt: int)

  datatype User = User(version: int, suspended: bool, passwordLogin: bool)

  datatype Reset = Reset(hash: Digest, expiresAt: int, requestedAt: int)

  /** Claims of a login that was checked but whose session is not inserted yet. */
  datatype Claims = Claims(user: int, version: int)

  /** `drawn` are the secrets and `ids` the session identifiers generated so far. */
  datatype State = State(
    users: map<int, User>, sessions: map<int, Session>, resets: map<int, Reset>,
    claims: set<Claims>, drawn: set<int>, ids: set<int>)

  /** Every operation carries the `NOW()` of its transaction and the random values it draws. */
  datatype Op =
    | AddUser(user: int, passwordLogin: bool)
    | DeleteUser(user: int)
    | EnablePasswordLogin(user: int)
    | ReadClaims(user: int, version: int)
    | Issue(claims: Claims, id: int, secret: int, at: int)
    | Refresh(token: int, next: int, at: int)
    | Logout(token: int)
    | SetSuspended(user: int, suspended: bool)
    | RequestReset(user: int, secret: int, at: int)
    | ConfirmReset(token: int, at: int)
    | Sweep(at: int)

  datatype Reply = Done | Refused | Renewed(secret: int) | ResetSent | ResetIgnored | PasswordChanged

  // ----- Lookups -----

  predicate HasToken(x: Session, token: int) {
    x.hash == Digest(token) || (x.previous.Some? && x.previous.value.hash == Digest(token))
  }

  /** The columns `valid` and `previous_valid` of the refresh query. */
  predicate ValidAt(s: State, x: Session, at: int) {
    && x.expiresAt > at && x.createdAt + LIFETIME > at
    && x.user in s.users && x.version == s.users[x.user].version && !s.users[x.user].suspended
  }

  predicate Accepts(s: State, x: Session, token: int, at: int) {
    && ValidAt(s, x, at)
    && (x.hash == Digest(token) ||
        (x.previous.Some? && x.previous.value.hash == Digest(token) && x.previous.value.validUntil > at))
  }

  function Min(a: int, b: int): int { if a <= b then a else b }

  function Rotated(x: Session, next: int, at: int): Session {
    x.(previous := Some(Previous(x.hash, at + RETRY_WINDOW)), hash := Digest(next), secret := next,
       expiresAt := Min(at + INACTIVITY, x.createdAt + LIFETIME))
  }

  predicate Expired(x: Session, at: int) {
    x.expiresAt <= at || x.createdAt + LIFETIME <= at
  }

  // ----- Steps -----

  /** The session row that a token selects, if any. */
  ghost function Find(s: State, token: int): (r: Option<int>)
    ensures r.Some? ==> r.value in s.sessions && HasToken(s.sessions[r.value], token)
    ensures r.None? ==> forall id :: id in s.sessions ==> !HasToken(s.sessions[id], token)
  {
    if exists id :: id in s.sessions && HasToken(s.sessions[id], token) then
      var id :| id in s.sessions && HasToken(s.sessions[id], token);
      Some(id)
    else None
  }

  ghost function FindReset(s: State, token: int, at: int): (r: Option<int>)
    ensures r.Some? ==> r.value in s.resets && s.resets[r.value].hash == Digest(token) && s.resets[r.value].expiresAt > at
    ensures r.None? ==> forall u :: u in s.resets ==> !(s.resets[u].hash == Digest(token) && s.resets[u].expiresAt > at)
  {
    if exists u :: u in s.resets && s.resets[u].hash == Digest(token) && s.resets[u].expiresAt > at then
      var u :| u in s.resets && s.resets[u].hash == Digest(token) && s.resets[u].expiresAt > at;
      Some(u)
    else None
  }

  ghost function RefreshStep(s: State, token: int, next: int, at: int): (State, Reply) {
    match Find(s, token)
    case None => (s, Refused)
    case Some(id) =>
      var x := s.sessions[id];
      if !Accepts(s, x, token, at) then (s, Refused)
      else if x.hash == Digest(token) then (s.(sessions := s.sessions[id := Rotated(x, next, at)]), Renewed(next))
      else (s, Renewed(x.secret))
  }

  function Bump(u: User): User { u.(version := u.version + 1) }

  function RequestStep(s: State, user: int, secret: int, at: int): (State, Reply) {
    if user !in s.users || !s.users[user].passwordLogin || s.users[user].suspended then (s, ResetIgnored)
    else if user in s.resets && s.resets[user].requestedAt >= at - RESET_INTERVAL then (s, ResetIgnored)
    else (s.(resets := s.resets[user := Reset(Digest(secret), at + RESET_LIFETIME, at)]), ResetSent)
  }

  ghost function ConfirmStep(s: State, token: int, at: int): (State, Reply) {
    match FindReset(s, token, at)
    case None => (s, Refused)
    case Some(user) =>
      if user !in s.users || !s.users[user].passwordLogin || s.users[user].suspended then (s, Refused)
      else (s.(resets := s.resets - {user}, users := s.users[user := Bump(s.users[user])]), PasswordChanged)
  }

  function SweepStep(s: State, at: int): State {
    s.(sessions := map id | id in s.sessions && !Expired(s.sessions[id], at) :: s.sessions[id],
       resets := map u | u in s.resets && s.resets[u].expiresAt > at :: s.resets[u])
  }

  ghost function Step(s: State, op: Op): (State, Reply) {
    match op
    case AddUser(user, passwordLogin) =>
      if user in s.users then (s, Refused)
      else (s.(users := s.users[user := User(0, false, passwordLogin)]), Done)
    case DeleteUser(user) =>
      (s.(users := s.users - {user}, resets := s.resets - {user},
          sessions := map id | id in s.sessions && s.sessions[id].user != user :: s.sessions[id]), Done)
    case EnablePasswordLogin(user) =>
      if user !in s.users || s.users[user].suspended then (s, Refused)
      else (s.(users := s.users[user := s.users[user].(passwordLogin := true)]), Done)
    case ReadClaims(user, version) =>
      if user !in s.users || s.users[user].suspended || version > s.users[user].version then (s, Refused)
      else (s.(claims := s.claims + {Claims(user, version)}), Done)
    case Issue(claims, id, secret, at) =>
      var s' := s.(drawn := s.drawn + {secret}, ids := s.ids + {id});
      if claims !in s.claims || claims.user !in s.users then (s', Refused)
      else (s'.(sessions := s.sessions[id := Session(claims.user, claims.version, Digest(secret), secret, None, at, at + INACTIVITY)]),
            Renewed(secret))
    case Refresh(token, next, at) => RefreshStep(s.(drawn := s.drawn + {next}), token, next, at)
    case Logout(token) =>
      (s.(sessions := map id | id in s.sessions && !HasToken(s.sessions[id], token) :: s.sessions[id]), Done)
    case SetSuspended(user, suspended) =>
      if user !in s.users then (s, Done)
      else (s.(users := s.users[user := Bump(s.users[user]).(suspended := suspended)]), Done)
    case RequestReset(user, secret, at) => RequestStep(s.(drawn := s.drawn + {secret}), user, secret, at)
    case ConfirmReset(token, at) => ConfirmStep(s, token, at)
    case Sweep(at) => (SweepStep(s, at), Done)
  }

  /** Generated secrets and session identifiers are new, and user identifiers are not reused. */
  predicate Fresh(s: State, op: Op) {
    match op
    case AddUser(user, _) => forall c :: c in s.claims ==> c.user != user
    case Issue(_, id, secret, _) => id !in s.ids && secret !in s.drawn
    case Refresh(_, next, _) => next !in s.drawn
    case RequestReset(_, secret, _) => secret !in s.drawn
    case _ => true
  }

  // ----- Invariant -----

  ghost predicate SecretsKept(s: State) {
    forall id :: id in s.sessions ==>
      var x := s.sessions[id];
      && id in s.ids
      && x.hash == Digest(x.secret) && x.secret in s.drawn
      && (x.previous.Some? ==> x.previous.value.hash.secret in s.drawn && x.previous.value.hash != x.hash)
  }

  ghost predicate SecretsApart(s: State) {
    forall i, j, t :: i in s.sessions && j in s.sessions && HasToken(s.sessions[i], t) && HasToken(s.sessions[j], t) ==> i == j
  }

  ghost predicate Bounded(s: State) {
    forall id :: id in s.sessions ==> s.sessions[id].expiresAt <= s.sessions[id].createdAt + LIFETIME
  }

  predicate Behind(s: State, user: int, version: int) {
    user in s.users ==> version <= s.users[user].version && (s.users[user].suspended ==> version < s.users[user].version)
  }

  ghost predicate VersionsBehind(s: State) {
    && (forall id :: id in s.sessions ==> s.sessions[id].user in s.users && Behind(s, s.sessions[id].user, s.sessions[id].version))
    && (forall c :: c in s.claims ==> Behind(s, c.user, c.version))
  }

  ghost predicate ResetsKept(s: State) {
    && (forall u :: u in s.resets ==>
          && u in s.users && s.resets[u].hash.secret in s.drawn
          && s.resets[u].expiresAt == s.resets[u].requestedAt + RESET_LIFETIME)
    && (forall u, v :: u in s.resets && v in s.resets && s.resets[u].hash == s.resets[v].hash ==> u == v)
  }

  ghost predicate Valid(s: State) {
    SecretsKept(s) && SecretsApart(s) && Bounded(s) && VersionsBehind(s) && ResetsKept(s)
  }

  lemma {:induction false} RefreshKeeps(s: State, token: int, next: int, at: int)
    requires Valid(s) && next !in s.drawn
    ensures Valid(RefreshStep(s.(drawn := s.drawn + {next}), token, next, at).0)
  {
    var s1 := s.(drawn := s.drawn + {next});
    var s' := RefreshStep(s1, token, next, at).0;
    if s'.sessions != s.sessions {
      var id := Find(s1, token).value;
      var y := s'.sessions[id];
      assert s'.sessions == s.sessions[id := Rotated(s.sessions[id], next, at)];
      assert forall t :: HasToken(y, t) ==> t == next || HasToken(s.sessions[id], t);
      assert forall i :: i in s.sessions ==> !HasToken(s.sessions[i], next);
      assert SecretsApart(s');
    }
  }

  lemma {:induction false} IssueKeeps(s: State, claims: Claims, id: int, secret: int, at: int)
    requires Valid(s) && Fresh(s, Issue(claims, id, secret, at))
    ensures Valid(Step(s, Issue(claims, id, secret, at)).0)
  {
    var s' := Step(s, Issue(claims, id, secret, at)).0;
    assert forall i :: i in s.sessions ==> i != id && !HasToken(s.sessions[i], secret);
    if s'.sessions != s.sessions {
      assert forall t :: HasToken(s'.sessions[id], t) ==> t == secret;
    }
  }

  /** Removing session rows. */
  lemma {:induction false} DropKeeps(s: State, sessions: map<int, Session>)
    requires Valid(s) && forall id :: id in sessions ==> id in s.sessions && sessions[id] == s.sessions[id]
    ensures Valid(s.(sessions := sessions))
  {
  }

  lemma {:induction false} UserOpKeeps(s: State, op: Op)
    requires Valid(s) && Fresh(s, op)
    requires op.AddUser? || op.EnablePasswordLogin? || op.ReadClaims? || op.SetSuspended?
    ensures Valid(Step(s, op).0)
  {
    var s' := Step(s, op).0;
    assert SecretsKept(s') && SecretsApart(s') && Bounded(s') && ResetsKept(s');
  }

  lemma {:induction false} DeleteUserKeeps(s: State, user: int)
    requires Valid(s)
    ensures Valid(Step(s, DeleteUser(user)).0)
  {
    var s' := Step(s, DeleteUser(user)).0;
    DropKeeps(s, s'.sessions);
    assert VersionsBehind(s') && ResetsKept(s');
  }

  lemma {:induction false} RequestKeeps(s: State, user: int, secret: int, at: int)
    requires Valid(s) && secret !in s.drawn
    ensures Valid(Step(s, RequestReset(user, secret, at)).0)
  {
    var s' := Step(s, RequestReset(user, secret, at)).0;
    assert SecretsKept(s') && SecretsApart(s') && Bounded(s') && VersionsBehind(s');
  }

  lemma {:induction false} ConfirmKeeps(s: State, token: int, at: int)
    requires Valid(s)
    ensures Valid(Step(s, ConfirmReset(token, at)).0)
  {
    var s' := Step(s, ConfirmReset(token, at)).0;
    assert SecretsKept(s') && SecretsApart(s') && Bounded(s') && ResetsKept(s');
  }

  lemma {:induction false} SweepKeeps(s: State, at: int)
    requires Valid(s)
    ensures Valid(SweepStep(s, at))
  {
    DropKeeps(s, SweepStep(s, at).sessions);
  }

  lemma {:induction false} StepKeeps(s: State, op: Op)
    requires Valid(s) && Fresh(s, op)
    ensures Valid(Step(s, op).0)
  {
    match op
    case Refresh(token, next, at) => RefreshKeeps(s, token, next, at);
    case Issue(claims, id, secret, at) => IssueKeeps(s, claims, id, secret, at);
    case DeleteUser(user) => DeleteUserKeeps(s, user);
    case Logout(token) => DropKeeps(s, Step(s, op).0.sessions);
    case RequestReset(user, secret, at) => RequestKeeps(s, user, secret, at);
    case ConfirmReset(token, at) => ConfirmKeeps(s, token, at);
    case Sweep(at) => SweepKeeps(s, at);
    case _ => UserOpKeeps(s, op);
  }

  // ----- Runs -----

  function Time(op: Op): Option<int> {
    match op
    case Issue(_, _, _, at) => Some(at)
    case Refresh(_, _, at) => Some(at)
    case RequestReset(_, _, at) => Some(at)
    case ConfirmReset(_, at) => Some(at)
    case Sweep(at) => Some(at)
    case _ => None
  }

  ghost function After(s: State, ops: seq<Op>): State {
    if ops == [] then s else Step(After(s, ops[..|ops| - 1]), ops[|ops| - 1]).0
  }

  ghost function ReplyAt(s: State, ops: seq<Op>, i: nat): Reply
    requires i < |ops|
  {
    Step(After(s, ops[..i]), ops[i]).1
  }

  ghost predicate AllFresh(s: State, ops: seq<Op>) {
    forall i :: 0 <= i < |ops| ==> Fresh(After(s, ops[..i]), ops[i])
  }

  const Empty := State(map[], map[], map[], {}, {}, {})

  lemma {:induction false} RunKeeps(s: State, ops: seq<Op>)
    requires Valid(s) && AllFresh(s, ops)
    ensures Valid(After(s, ops))
  {
    if ops != [] {
      var before := ops[..|ops| - 1];
      assert forall i :: 0 <= i < |before| ==> before[..i] == ops[..i];
      RunKeeps(s, before);
      StepKeeps(After(s, before), ops[|ops| - 1]);
    }
  }

  // ----- Rotation -----

  /** In every run at most two secrets of a session are ever accepted, and never beyond 365 days. */
  lemma {:induction false} OnlyTwoSecretsAccepted(s: State, ops: seq<Op>, id: int, token: int, at: int)
    requires Valid(s) && AllFresh(s, ops) && id in After(s, ops).sessions
    ensures var x := After(s, ops).sessions[id];
            Accepts(After(s, ops), x, token, at) ==>
              && (token == x.secret ||
                  (x.previous.Some? && token == x.previous.value.hash.secret && at < x.previous.value.validUntil))
              && at < x.createdAt + LIFETIME
  {
    RunKeeps(s, ops);
  }

  /** Which requests are answered, with what, and what they change. */
  lemma {:induction false} RefreshAnswer(s: State, token: int, next: int, at: int)
    requires Valid(s) && next !in s.drawn
    ensures var (s', reply) := Step(s, Refresh(token, next, at));
            && (reply == Refused || exists id :: id in s.sessions && Accepts(s, s.sessions[id], token, at))
            && (forall id :: id in s.sessions && Accepts(s, s.sessions[id], token, at) ==>
                  var x := s.sessions[id];
                  if token == x.secret
                  then reply == Renewed(next) && s'.sessions == s.sessions[id := Rotated(x, next, at)]
                  else reply == Renewed(x.secret) && s'.sessions == s.sessions)
  {
    var s1 := s.(drawn := s.drawn + {next});
    forall id | id in s.sessions && Accepts(s, s.sessions[id], token, at)
      ensures Find(s1, token) == Some(id)
    {
      assert HasToken(s.sessions[id], token);
    }
  }

  /** A drawn secret that no session holds any more. */
  ghost predicate Displaced(s: State, token: int) {
    token in s.drawn && forall id :: id in s.sessions ==> !HasToken(s.sessions[id], token)
  }

  /** A rotation displaces the secret that was already the previous one. */
  lemma {:induction false} RotationDisplaces(s: State, id: int, token: int, next: int, at: int)
    requires Valid(s) && next !in s.drawn
    requires id in s.sessions && s.sessions[id].secret == token && Accepts(s, s.sessions[id], token, at)
    requires s.sessions[id].previous.Some?
    ensures Displaced(Step(s, Refresh(token, next, at)).0, s.sessions[id].previous.value.hash.secret)
  {
    RefreshAnswer(s, token, next, at);
    var earlier := s.sessions[id].previous.value.hash.secret;
    assert HasToken(s.sessions[id], earlier);
  }

  lemma {:induction false} DisplacedStep(s: State, op: Op, token: int)
    requires Valid(s) && Fresh(s, op) && Displaced(s, token)
    ensures Displaced(Step(s, op).0, token)
    ensures op.Refresh? && op.token == token ==> Step(s, op).1 == Refused
  {
    var s' := Step(s, op).0;
    forall id | id in s'.sessions ensures !HasToken(s'.sessions[id], token) {
      if id in s.sessions { assert !HasToken(s.sessions[id], token); }
    }
  }

  /** Once displaced, a secret is never accepted again, whatever happens afterwards. */
  lemma {:induction false} DisplacedForever(s: State, ops: seq<Op>, token: int)
    requires Valid(s) && AllFresh(s, ops) && Displaced(s, token)
    ensures Displaced(After(s, ops), token)
    ensures forall i :: 0 <= i < |ops| && ops[i].Refresh? && ops[i].token == token ==> ReplyAt(s, ops, i) == Refused
  {
    if ops != [] {
      var before := ops[..|ops| - 1];
      assert forall i :: 0 <= i <= |before| ==> before[..i] == ops[..i];
      assert forall i :: 0 <= i < |before| ==> ReplyAt(s, before, i) == ReplyAt(s, ops, i);
      DisplacedForever(s, before, token);
      RunKeeps(s, before);
      DisplacedStep(After(s, before), ops[|ops| - 1], token);
    }
  }

  // ----- Retries -----

  /** An operation that neither uses the new secret of session `x` nor ends `x`. */
  predicate LeavesAlone(s: State, x: Session, op: Op) {
    match op
    case DeleteUser(user) => user != x.user
    case Refresh(token, _, at) => token != x.secret
    case Logout(token) => !HasToken(x, token)
    case SetSuspended(user, _) => user != x.user
    case ConfirmReset(token, at) => forall u :: u in s.resets && s.resets[u].hash == Digest(token) ==> u != x.user
    case Sweep(at) => !Expired(x, at)
    case _ => true
  }

  lemma {:induction false} LeftAloneStep(s: State, id: int, op: Op)
    requires Valid(s) && Fresh(s, op) && id in s.sessions && LeavesAlone(s, s.sessions[id], op)
    ensures id in Step(s, op).0.sessions && Step(s, op).0.sessions[id] == s.sessions[id]
    ensures var u := s.sessions[id].user;
            u in Step(s, op).0.users && Step(s, op).0.users[u].version == s.users[u].version &&
            Step(s, op).0.users[u].suspended == s.users[u].suspended
  {
    if op.Refresh? {
      var s1 := s.(drawn := s.drawn + {op.next});
      var found := Find(s1, op.token);
      if found == Some(id) {
        assert s.sessions[id].hash != Digest(op.token);
      }
    }
  }

  /** Session `id` is the row `x`, and its user has not been suspended or revoked since. */
  ghost predicate Holding(s: State, id: int, x: Session) {
    && Valid(s) && id in s.sessions && s.sessions[id] == x
    && x.user in s.users && x.version == s.users[x.user].version && !s.users[x.user].suspended
  }

  /** The answer to a request with the replaced secret of `x`. */
  function RetryAnswer(x: Session, at: int): Reply
    requires x.previous.Some?
  {
    if at < Min(x.previous.value.validUntil, x.expiresAt) then Renewed(x.secret) else Refused
  }

  lemma {:induction false} RetryStep(s: State, id: int, x: Session, op: Op)
    requires Holding(s, id, x) && Fresh(s, op) && LeavesAlone(s, x, op) && x.previous.Some?
    ensures Holding(Step(s, op).0, id, x)
    ensures op.Refresh? && Digest(op.token) == x.previous.value.hash ==> Step(s, op).1 == RetryAnswer(x, op.at)
  {
    LeftAloneStep(s, id, op);
    StepKeeps(s, op);
    if op.Refresh? && Digest(op.token) == x.previous.value.hash {
      RefreshAnswer(s, op.token, op.next, op.at);
      assert HasToken(x, op.token);
      assert forall i :: i in s.sessions && Accepts(s, s.sessions[i], op.token, op.at) ==> HasToken(s.sessions[i], op.token);
    }
  }

  lemma {:induction false} RetryRun(s: State, id: int, x: Session, ops: seq<Op>)
    requires Holding(s, id, x) && x.previous.Some? && AllFresh(s, ops)
    requires forall i :: 0 <= i < |ops| ==> LeavesAlone(After(s, ops[..i]), x, ops[i])
    ensures Holding(After(s, ops), id, x)
    ensures forall i :: 0 <= i < |ops| && ops[i].Refresh? && Digest(ops[i].token) == x.previous.value.hash ==>
              ReplyAt(s, ops, i) == RetryAnswer(x, ops[i].at)
  {
    if ops != [] {
      var before := ops[..|ops| - 1];
      assert forall i :: 0 <= i <= |before| ==> before[..i] == ops[..i];
      assert forall i :: 0 <= i < |before| ==> ReplyAt(s, before, i) == ReplyAt(s, ops, i);
      RetryRun(s, id, x, before);
      RetryStep(After(s, before), id, x, ops[|ops| - 1]);
    }
  }

  /** As long as the new secret is unused, every request with the replaced one within the window
      gets that same new secret, and the session row changes no further. */
  lemma {:induction false} RetriesReturnTheSameSecret(s: State, id: int, token: int, next: int, at: int, ops: seq<Op>)
    requires Valid(s) && next !in s.drawn
    requires id in s.sessions && token == s.sessions[id].secret && Accepts(s, s.sessions[id], token, at)
    requires var x, s0 := Rotated(s.sessions[id], next, at), Step(s, Refresh(token, next, at)).0;
             AllFresh(s0, ops) && forall i :: 0 <= i < |ops| ==> LeavesAlone(After(s0, ops[..i]), x, ops[i])
    ensures var x, s0 := Rotated(s.sessions[id], next, at), Step(s, Refresh(token, next, at)).0;
            && Step(s, Refresh(token, next, at)).1 == Renewed(next)
            && id in After(s0, ops).sessions && After(s0, ops).sessions[id] == x
            && forall i :: 0 <= i < |ops| && ops[i].Refresh? && ops[i].token == token ==>
                 ReplyAt(s0, ops, i) == if ops[i].at < Min(at + RETRY_WINDOW, x.expiresAt) then Renewed(next) else Refused
  {
    RefreshAnswer(s, token, next, at);
    StepKeeps(s, Refresh(token, next, at));
    RetryRun(Step(s, Refresh(token, next, at)).0, id, Rotated(s.sessions[id], next, at), ops);
  }

  lemma {:induction false} CreatedAtStep(s: State, op: Op, id: int)
    requires Valid(s) && Fresh(s, op) && id in s.ids
    ensures id in Step(s, op).0.ids
    ensures id in Step(s, op).0.sessions ==>
              id in s.sessions && Step(s, op).0.sessions[id].createdAt == s.sessions[id].createdAt
  {
  }

  /** The creation time of a session never moves, so its 365 days are absolute. */
  lemma {:induction false} LifetimeIsAbsolute(s: State, id: int, ops: seq<Op>)
    requires Valid(s) && AllFresh(s, ops) && id in s.sessions
    ensures id in After(s, ops).ids
    ensures id in After(s, ops).sessions ==>
              var x := After(s, ops).sessions[id];
              && x.createdAt == s.sessions[id].createdAt
              && forall token, at :: s.sessions[id].createdAt + LIFETIME <= at ==> !Accepts(After(s, ops), x, token, at)
  {
    if ops != [] {
      var before := ops[..|ops| - 1];
      assert forall i :: 0 <= i <= |before| ==> before[..i] == ops[..i];
      LifetimeIsAbsolute(s, id, before);
      RunKeeps(s, before);
      CreatedAtStep(After(s, before), ops[|ops| - 1], id);
    }
  }
}
