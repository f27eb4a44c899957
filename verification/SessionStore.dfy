/** The session, user and reset tables, updated by the handlers' statements. */
module SessionStore {
  import opened Options
  import opened Sessions

  class Store {
    var users: map<int, User>
    var sessions: map<int, Session>
    var resets: map<int, Reset>
    ghost var claims: set<Claims>
    ghost var drawn: set<int>
    ghost var ids: set<int>

    ghost function State(): State
      reads this
    {
      Sessions.State(users, sessions, resets, claims, drawn, ids)
    }

    constructor ()
      ensures State() == Empty && Valid(State())
    {
      users, sessions, resets, claims, drawn, ids := map[], map[], map[], {}, {}, {};
    }

    /** At most one row carries a token, so the row a query returns is the one `Find` names. */
    lemma {:induction false} RowIsUnique(id: int, token: int)
      requires Valid(State()) && id in sessions && HasToken(sessions[id], token)
      ensures Find(State(), token) == Some(id)
    {
    }

    method IssueSession(claim: Claims, id: int, secret: int, at: int) returns (reply: Reply)
      requires Valid(State()) && Fresh(State(), Issue(claim, id, secret, at)) && claim in claims
      modifies this
      ensures (State(), reply) == Step(old(State()), Issue(claim, id, secret, at)) && Valid(State())
    {
      StepKeeps(State(), Issue(claim, id, secret, at));
      drawn, ids := drawn + {secret}, ids + {id};
      if claim.user !in users {
        return Refused;
      }
      sessions := sessions[id := Session(claim.user, claim.version, Digest(secret), secret, None, at, at + INACTIVITY)];
      reply := Renewed(secret);
    }

    /** One renewal under the row lock: rotate the current secret, or repeat the last answer. */
    method RefreshSession(token: int, next: int, at: int) returns (reply: Reply)
      requires Valid(State()) && Fresh(State(), Refresh(token, next, at))
      modifies this
      ensures (State(), reply) == Step(old(State()), Refresh(token, next, at)) && Valid(State())
    {
      StepKeeps(State(), Refresh(token, next, at));
      drawn := drawn + {next};
      if !exists id :: id in sessions && HasToken(sessions[id], token) {
        return Refused;
      }
      var id :| id in sessions && HasToken(sessions[id], token);
      RowIsUnique(id, token);
      var row := sessions[id];
      var previousValid := row.previous.Some? && row.previous.value.validUntil > at;
      if !(row.user in users && row.expiresAt > at && row.createdAt + LIFETIME > at &&
           row.version == users[row.user].version && !users[row.user].suspended) ||
         (row.hash != Digest(token) && !previousValid)
      {
        return Refused;
      }
      if row.hash == Digest(token) {
        sessions := sessions[id := row.(
          previous := Some(Previous(row.hash, at + RETRY_WINDOW)),
          hash := Digest(next),
          secret := next,
          expiresAt := Min(at + INACTIVITY, row.createdAt + LIFETIME))];
        reply := Renewed(next);
      } else {
        reply := Renewed(row.secret);
      }
    }

    method Logout(token: int)
      requires Valid(State())
      modifies this
      ensures State() == Step(old(State()), Op.Logout(token)).0 && Valid(State())
    {
      StepKeeps(State(), Op.Logout(token));
      sessions := map id | id in sessions && !HasToken(sessions[id], token) :: sessions[id];
    }

    /** Moderators cannot suspend or unsuspend themselves. */
    method Moderate(moderator: int, user: int, suspended: bool)
      requires Valid(State())
      modifies this
      ensures State() == (if user == moderator then old(State()) else Step(old(State()), SetSuspended(user, suspended)).0)
      ensures Valid(State())
    {
      StepKeeps(State(), SetSuspended(user, suspended));
      if user in users && user != moderator {
        users := users[user := users[user].(suspended := suspended, version := users[user].version + 1)];
      }
    }

    /** Inserts a reset, or replaces one that was requested more than a minute ago. */
    method RequestReset(user: int, secret: int, at: int) returns (reply: Reply)
      requires Valid(State()) && secret !in drawn
      modifies this
      ensures (State(), reply) == Step(old(State()), Op.RequestReset(user, secret, at)) && Valid(State())
    {
      StepKeeps(State(), Op.RequestReset(user, secret, at));
      drawn := drawn + {secret};
      if user !in users || !users[user].passwordLogin || users[user].suspended {
        return ResetIgnored;
      }
      if user in resets && !(resets[user].requestedAt < at - RESET_INTERVAL) {
        return ResetIgnored;
      }
      resets := resets[user := Reset(Digest(secret), at + RESET_LIFETIME, at)];
      reply := ResetSent;
    }

    /** Deletes the matching reset and bumps the user's version, or rolls both back. */
    method ConfirmReset(token: int, at: int) returns (reply: Reply)
      requires Valid(State())
      modifies this
      ensures (State(), reply) == Step(old(State()), Op.ConfirmReset(token, at)) && Valid(State())
    {
      StepKeeps(State(), Op.ConfirmReset(token, at));
      if !exists u :: u in resets && resets[u].hash == Digest(token) && resets[u].expiresAt > at {
        return Refused;
      }
      var u :| u in resets && resets[u].hash == Digest(token) && resets[u].expiresAt > at;
      assert FindReset(State(), token, at) == Some(u);
      if !users[u].passwordLogin || users[u].suspended {
        return Refused;
      }
      resets := resets - {u};
      users := users[u := users[u].(version := users[u].version + 1)];
      reply := PasswordChanged;
    }

    method CleanupAuthState(at: int)
      requires Valid(State())
      modifies this
      ensures State() == SweepStep(old(State()), at) && Valid(State())
    {
      SweepKeeps(State(), at);
      ghost var swept := SweepStep(State(), at);
      sessions := map id | id in sessions && !Expired(sessions[id], at) :: sessions[id];
      resets := map u | u in resets && !(resets[u].expiresAt <= at) :: resets[u];
      assert sessions == swept.sessions;
      assert resets == swept.resets;
    }
  }
}
