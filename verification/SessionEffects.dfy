/** What each operation on sessions and resets does to the rows, in the columns' own terms. */
module SessionEffects {
  import opened Options
  import opened Sessions
  import opened SessionSweep

  /** The session carries the secret now, or carried it before its last rotation. */
  predicate Carries(x: Session, secret: int) {
    x.hash == Digest(secret) || (x.previous.Some? && x.previous.value.hash == Digest(secret))
  }

  // ----- Logging out -----

  /** Logging out deletes exactly the sessions that carry the secret. */
  lemma {:induction false} LogoutMeans(s: State, token: int)
    ensures var s' := Step(s, Logout(token)).0;
            && (forall id :: id in s'.sessions <==> id in s.sessions && !Carries(s.sessions[id], token))
            && (forall id :: id in s'.sessions ==> s'.sessions[id] == s.sessions[id])
            && s' == s.(sessions := s'.sessions) && Step(s, Logout(token)).1 == Done
  {
  }

  /** Neither secret of a session that was logged out, by one or the other, is accepted ever again. */
  lemma {:induction false} LoggedOutForever(s: State, token: int, id: int, secret: int, ops: seq<Op>)
    requires Valid(s) && id in s.sessions && Carries(s.sessions[id], token) && Carries(s.sessions[id], secret)
    requires AllFresh(Step(s, Logout(token)).0, ops)
    ensures var s' := Step(s, Logout(token)).0;
            forall i :: 0 <= i < |ops| && ops[i].Refresh? && ops[i].token == secret ==> ReplyAt(s', ops, i) == Refused
  {
    var s' := Step(s, Logout(token)).0;
    StepKeeps(s, Logout(token));
    forall j | j in s'.sessions ensures !HasToken(s'.sessions[j], secret) {
      assert HasToken(s.sessions[id], secret) && HasToken(s.sessions[id], token);
    }
    DisplacedForever(s', ops, secret);
  }

  // ----- Refreshing -----

  /** The current secret of an acceptable session is rotated: the new one replaces it, the old one stays
      acceptable for 300 seconds, and the session is extended to 90 days from now but not past 365 days
      from its creation. Any other column and row stays. */
  lemma {:induction false} RotationMeans(s: State, id: int, next: int, at: int)
    requires Valid(s) && next !in s.drawn && id in s.sessions
    requires Accepts(s, s.sessions[id], s.sessions[id].secret, at)
    ensures var (s', reply) := Step(s, Refresh(s.sessions[id].secret, next, at));
            var x, x' := s.sessions[id], s'.sessions[id];
            && reply == Renewed(next) && s'.sessions == s.sessions[id := x']
            && x'.secret == next && x'.hash == Digest(next)
            && x'.previous == Some(Previous(Digest(x.secret), at + 300))
            && (x'.user, x'.version, x'.createdAt) == (x.user, x.version, x.createdAt)
            && x'.expiresAt <= at + 7_776_000 && x'.expiresAt <= x.createdAt + 31_536_000
            && (x'.expiresAt == at + 7_776_000 || x'.expiresAt == x.createdAt + 31_536_000)
            && (s'.users, s'.resets, s'.claims) == (s.users, s.resets, s.claims)
  {
    RefreshAnswer(s, s.sessions[id].secret, next, at);
    RefreshChanges(s, Refresh(s.sessions[id].secret, next, at));
  }

  /** A secret is accepted exactly by a session whose times are not over, whose user is neither
      suspended nor at a later version, and which carries it, as the previous one only in time. */
  lemma {:induction false} AcceptedIff(s: State, id: int, token: int, at: int)
    requires Valid(s) && id in s.sessions
    ensures var x := s.sessions[id];
            Accepts(s, x, token, at) <==>
              (&& at < x.expiresAt && at < x.createdAt + 31_536_000
               && !s.users[x.user].suspended && x.version == s.users[x.user].version
               && (token == x.secret || (x.previous.Some? && Digest(token) == x.previous.value.hash && at < x.previous.value.validUntil)))
  {
    assert s.sessions[id].hash == Digest(s.sessions[id].secret);
  }

  /** A refused request, and a repeated one, change no row. */
  lemma {:induction false} OtherwiseUnchanged(s: State, token: int, next: int, at: int)
    requires Valid(s) && next !in s.drawn
    requires forall id :: id in s.sessions && s.sessions[id].secret == token ==> !Accepts(s, s.sessions[id], token, at)
    ensures Step(s, Refresh(token, next, at)).0 == s.(drawn := s.drawn + {next})
    ensures Step(s, Refresh(token, next, at)).1 == Refused <==>
              forall id :: id in s.sessions ==> !Accepts(s, s.sessions[id], token, at)
  {
    RefreshAnswer(s, token, next, at);
    RefreshChanges(s, Refresh(token, next, at));
  }

  // ----- Logging in -----

  /** A login is let in with the version it read, unless the user is gone or suspended; the session it
      opens later lasts 90 days and carries that version, whatever happened to the user in between. */
  lemma {:induction false} LoginMeans(s: State, user: int, version: int)
    requires user in s.users && version <= s.users[user].version
    ensures var (s', reply) := Step(s, ReadClaims(user, version));
            && (reply == Refused <==> s.users[user].suspended)
            && s' == (if reply == Refused then s else s.(claims := s.claims + {Claims(user, version)}))
  {
  }

  lemma {:induction false} IssueMeans(s: State, c: Claims, id: int, secret: int, at: int)
    requires Valid(s) && Fresh(s, Issue(c, id, secret, at)) && c in s.claims
    ensures var (s', reply) := Step(s, Issue(c, id, secret, at));
            && (reply == Renewed(secret) <==> c.user in s.users) && (reply == Refused <==> c.user !in s.users)
            && (s'.users, s'.resets, s'.claims) == (s.users, s.resets, s.claims)
            && (reply == Refused ==> s'.sessions == s.sessions)
            && (reply != Refused ==>
                  s'.sessions == s.sessions[id := Session(c.user, c.version, Digest(secret), secret, None, at, at + 7_776_000)])
    ensures var s' := Step(s, Issue(c, id, secret, at)).0;
            c.user in s.users ==>
              (Accepts(s', s'.sessions[id], secret, at) <==> !s.users[c.user].suspended && c.version == s.users[c.user].version)
  {
  }

  // ----- Suspending, resetting, deleting -----

  /** Suspending and lifting set the flag and raise the version by one, and touch no other user. */
  lemma {:induction false} SuspensionMeans(s: State, user: int, suspended: bool)
    requires user in s.users
    ensures var s' := Step(s, SetSuspended(user, suspended)).0;
            && s'.users.Keys == s.users.Keys && s'.users[user].suspended == suspended
            && s'.users[user].version == s.users[user].version + 1
            && s'.users[user].passwordLogin == s.users[user].passwordLogin
            && (forall u :: u in s.users && u != user ==> s'.users[u] == s.users[u])
            && s' == s.(users := s'.users)
  {
  }

  /** A reset is written exactly for a user who logs in by password, is not suspended, and asked for none
      in the last 60 seconds. It lasts 1800 seconds and replaces the one before. */
  lemma {:induction false} RequestMeans(s: State, user: int, secret: int, at: int)
    ensures var (s', reply) := Step(s, RequestReset(user, secret, at));
            && (reply == ResetSent <==>
                  (&& user in s.users && s.users[user].passwordLogin && !s.users[user].suspended
                   && (user in s.resets ==> s.resets[user].requestedAt + 60 < at)))
            && (reply != ResetSent ==> reply == ResetIgnored && s'.resets == s.resets)
            && (reply == ResetSent ==> s'.resets == s.resets[user := Reset(Digest(secret), at + 1800, at)])
            && (s'.users, s'.sessions, s'.claims) == (s.users, s.sessions, s.claims)
  {
  }

  /** A confirmation is accepted exactly for the secret of a reset that is not over, of a user who still
      logs in by password and is not suspended. It uses the reset up and raises the version by one. */
  lemma {:induction false} ConfirmMeans(s: State, user: int, at: int)
    requires Valid(s) && user in s.resets
    ensures var (s', reply) := Step(s, ConfirmReset(s.resets[user].hash.secret, at));
            && (reply == PasswordChanged <==> at < s.resets[user].expiresAt && s.users[user].passwordLogin && !s.users[user].suspended)
            && (reply != PasswordChanged ==> reply == Refused && s' == s)
            && (reply == PasswordChanged ==>
                  s' == s.(resets := s.resets - {user}, users := s.users[user := s.users[user].(version := s.users[user].version + 1)]))
  {
    var token := s.resets[user].hash.secret;
    assert s.resets[user].hash == Digest(token);
  }

  lemma {:induction false} ConfirmUnknown(s: State, token: int, at: int)
    requires forall u :: u in s.resets ==> s.resets[u].hash != Digest(token)
    ensures Step(s, ConfirmReset(token, at)) == (s, Refused)
  {
  }

  /** The sweep deletes exactly the sessions that are past their expiry or their 365 days, and exactly
      the resets past their expiry. */
  lemma {:induction false} SweepMeans(s: State, at: int)
    ensures var s' := Step(s, Sweep(at)).0;
            && (forall id :: id in s'.sessions <==>
                  id in s.sessions && at < s.sessions[id].expiresAt && at < s.sessions[id].createdAt + 31_536_000)
            && (forall u :: u in s'.resets <==> u in s.resets && at < s.resets[u].expiresAt)
            && (forall id :: id in s'.sessions ==> s'.sessions[id] == s.sessions[id])
            && (forall u :: u in s'.resets ==> s'.resets[u] == s.resets[u])
            && s' == s.(sessions := s'.sessions, resets := s'.resets)
  {
  }

  /** Deleting a user deletes that user's sessions and reset, and nobody else's. */
  lemma {:induction false} DeleteUserMeans(s: State, user: int)
    ensures var s' := Step(s, DeleteUser(user)).0;
            && s'.users == s.users - {user} && s'.resets == s.resets - {user}
            && (forall id :: id in s'.sessions <==> id in s.sessions && s.sessions[id].user != user)
            && (forall id :: id in s'.sessions ==> s'.sessions[id] == s.sessions[id])
            && (s'.claims, s'.drawn, s'.ids) == (s.claims, s.drawn, s.ids)
  {
  }

  /** New users start unsuspended at version zero; a password login can be enabled unless suspended. */
  lemma {:induction false} UserRowsMean(s: State, user: int, passwordLogin: bool)
    ensures user !in s.users ==> Step(s, AddUser(user, passwordLogin)).0 == s.(users := s.users[user := User(0, false, passwordLogin)])
    ensures user in s.users ==> Step(s, AddUser(user, passwordLogin)) == (s, Refused)
    ensures user in s.users && !s.users[user].suspended ==>
              Step(s, EnablePasswordLogin(user)) == (s.(users := s.users[user := s.users[user].(passwordLogin := true)]), Done)
    ensures user in s.users && s.users[user].suspended ==> Step(s, EnablePasswordLogin(user)) == (s, Refused)
  {
  }
}
