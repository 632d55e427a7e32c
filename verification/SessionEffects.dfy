/**
 What each session call does, spelled out from its parameters: every reply with its condition, in the order of the
 checks, and otherwise the exact rows; and what a user's password is after any run.
 */
module SessionEffects {
  import opened Common
  import opened Sessions

  /** An error that leaves everything as it was. */
  ghost predicate Refused(s: State, c: Call, e: Error) {
    ReplyTo(s, c) == Failed(e) && Next(s, c) == s
  }

  lemma RevokedNothing(sessions: map<Token, Session>)
    ensures Revoked(sessions, {}) == sessions
  {
  }

  /** The table once every session of the user but the kept one is revoked. */
  function WithoutSessions(s: State, user: User, kept: Option<Token>): map<Token, Session> {
    map t | t in s.sessions ::
      Session(s.sessions[t].user, s.sessions[t].family,
              s.sessions[t].revoked || (s.sessions[t].user == user && kept != Some(t)), s.sessions[t].expires)
  }

  lemma RevokedSessionsOf(s: State, user: User, kept: Option<Token>)
    ensures Revoked(s.sessions, if kept.Some? then LiveOf(s, user) - {kept.value} else LiveOf(s, user))
            == WithoutSessions(s, user, kept)
  {
    var dead := if kept.Some? then LiveOf(s, user) - {kept.value} else LiveOf(s, user);
    forall t | t in s.sessions ensures Revoked(s.sessions, dead)[t] == WithoutSessions(s, user, kept)[t] {
      assert t in dead <==> !s.sessions[t].revoked && s.sessions[t].user == user && kept != Some(t);
    }
  }

  lemma LoginExactly(s: State, user: User, drawn: Token, expires: Time, commits: bool)
    ensures var c := Login(user, drawn, expires, commits);
            if drawn in s.sessions || !commits then Refused(s, c, DatabaseError)
            else && ReplyTo(s, c) == Granted(drawn)
                 && Next(s, c) == s.(sessions := s.sessions[drawn := Session(user, s.families, false, expires)],
                                     families := s.families + 1)
  {
    RevokedNothing(s.sessions);
  }

  /** A rotation grants a token for an unrevoked session that expires later than now, and only for such a one. */
  lemma RefreshExactly(s: State, token: Token, now: Time, drawn: Token, expires: Time, sent: bool, commits: bool)
    ensures var c := Refresh(token, now, drawn, expires, sent, commits);
            if !sent then Refused(s, c, DatabaseError)
            else if token !in s.sessions then Refused(s, c, InvalidToken)
            else
              var row := s.sessions[token];
              if row.revoked then
                && ReplyTo(s, c) == Failed(SessionRevoked)
                && Next(s, c) == (if !commits then s else s.(sessions :=
                     map t | t in s.sessions ::
                       Session(s.sessions[t].user, s.sessions[t].family,
                               s.sessions[t].revoked || s.sessions[t].family == row.family, s.sessions[t].expires)))
              else if row.expires <= now then Refused(s, c, InvalidToken)
              else if drawn in s.sessions || !commits then Refused(s, c, DatabaseError)
              else && ReplyTo(s, c) == Granted(drawn)
                   && Next(s, c) == s.(sessions := s.sessions[token := Session(row.user, row.family, true, row.expires)]
                                                             [drawn := Session(row.user, row.family, false, expires)])
  {
    RevokedNothing(s.sessions);
    var c := Refresh(token, now, drawn, expires, sent, commits);
    if token in s.sessions && !s.sessions[token].revoked && s.sessions[token].expires > now && drawn !in s.sessions {
      var row := s.sessions[token];
      assert Revoked(s.sessions, {token}) == s.sessions[token := Session(row.user, row.family, true, row.expires)];
    }
  }

  lemma RedeemsExactly(s: State, c: Call, t: Token)
    ensures Redeems(s, c, t) <==>
            && c.Refresh? && c.token == t && c.sent && c.commits && c.drawn !in s.sessions
            && t in s.sessions && !s.sessions[t].revoked && s.sessions[t].expires > c.now
  {
  }

  /** A logout revokes the presented session exactly if it is unrevoked and expires later than now. */
  lemma LogoutExactly(s: State, token: Token, now: Time, commits: bool)
    ensures var c := Call.Logout(token, now, commits);
            if !commits then Refused(s, c, DatabaseError)
            else
              && ReplyTo(s, c) == Done
              && Next(s, c) ==
                 if token in s.sessions && !s.sessions[token].revoked && s.sessions[token].expires > now
                 then s.(sessions := s.sessions[token := s.sessions[token].(revoked := true)])
                 else s
  {
    RevokedNothing(s.sessions);
    if token in s.sessions {
      assert Revoked(s.sessions, {token}) == s.sessions[token := s.sessions[token].(revoked := true)];
    }
  }

  /** A logout from all devices revokes all sessions of the owner exactly under the same condition. */
  lemma LogoutAllExactly(s: State, token: Token, now: Time, commits: bool)
    ensures var c := LogoutAll(token, now, commits);
            if !commits then Refused(s, c, DatabaseError)
            else
              && ReplyTo(s, c) == Done
              && Next(s, c) ==
                 if token in s.sessions && !s.sessions[token].revoked && s.sessions[token].expires > now
                 then s.(sessions := WithoutSessions(s, s.sessions[token].user, None))
                 else s
  {
    RevokedNothing(s.sessions);
    if token in s.sessions { RevokedSessionsOf(s, s.sessions[token].user, None); }
  }

  /** The errors of a password change in the order of its checks; the new hash is in force before the transaction. */
  lemma ChangePasswordExactly(s: State, user: User, current: Token, was: Secret, next: Secret, hashed: bool, commits: bool)
    ensures var c := Call.ChangePassword(user, current, was, next, hashed, commits);
            if user !in s.passwords then Refused(s, c, UserNotFound)
            else if s.passwords[user] != was then Refused(s, c, InvalidPassword)
            else if was == next then Refused(s, c, WeakPassword)
            else if !hashed then Refused(s, c, DatabaseError)
            else if !commits then
              ReplyTo(s, c) == Failed(DatabaseError) && Next(s, c) == s.(passwords := s.passwords[user := next])
            else
              && ReplyTo(s, c) == Done
              && Next(s, c) == State(WithoutSessions(s, user, Some(current)), s.families, s.gated - {user},
                                     s.passwords[user := next])
  {
    RevokedNothing(s.sessions);
    RevokedSessionsOf(s, user, Some(current));
  }

  /** A reset replaces the password by the drawn one, which must be changed, and ends the user's sessions. */
  lemma ResetCredentialExactly(s: State, user: User, eligible: bool, drawn: Secret, commits: bool)
    ensures var c := Call.ResetCredential(user, eligible, drawn, commits);
            if !eligible then Refused(s, c, ClientNotFound)
            else if !commits then Refused(s, c, DatabaseError)
            else
              && ReplyTo(s, c) == Done
              && Next(s, c) == State(WithoutSessions(s, user, None), s.families, s.gated + {user},
                                     s.passwords[user := drawn])
  {
    RevokedNothing(s.sessions);
    RevokedSessionsOf(s, user, None);
  }

  lemma NewUserExactly(s: State, user: User, secret: Secret, oneTime: bool, commits: bool)
    ensures var c := NewUser(user, secret, oneTime, commits);
            if !commits then Refused(s, c, DatabaseError)
            else
              && ReplyTo(s, c) == Done
              && Next(s, c) == s.(gated := if oneTime then s.gated + {user} else s.gated,
                                  passwords := s.passwords[user := secret])
  {
    RevokedNothing(s.sessions);
  }

  // ---------------------------------------------------------------------------------------------------
  // Passwords
  // ---------------------------------------------------------------------------------------------------

  /** The call puts secret in force as the user's password: a new user, a reset, or an accepted change. */
  predicate SetsPassword(s: State, c: Call, user: User, secret: Secret) {
    || (c.NewUser? && c.user == user && c.secret == secret && c.commits)
    || (c.ResetCredential? && c.user == user && c.drawn == secret && c.eligible && c.commits)
    || (c.ChangePassword? && c.user == user && c.next == secret && c.hashed && c.was != secret
        && user in s.passwords && s.passwords[user] == c.was)
  }

  ghost predicate SetsAny(s: State, c: Call, user: User) {
    exists secret :: SetsPassword(s, c, user, secret)
  }

  lemma PasswordStep(s: State, c: Call, user: User)
    ensures forall secret :: SetsPassword(s, c, user, secret) ==>
                user in Next(s, c).passwords && Next(s, c).passwords[user] == secret
    ensures !SetsAny(s, c, user) ==>
              && (user in Next(s, c).passwords <==> user in s.passwords)
              && (user in s.passwords ==> Next(s, c).passwords[user] == s.passwords[user])
  {
    if !SetsAny(s, c, user) {
      if c.NewUser? { assert !SetsPassword(s, c, user, c.secret); }
      if c.ResetCredential? { assert !SetsPassword(s, c, user, c.drawn); }
      if c.ChangePassword? { assert !SetsPassword(s, c, user, c.next); }
    }
  }

  /** In every run a user's password is the secret of the last call that set it. */
  lemma {:induction false} PasswordIsTheLastOneSet(tr: seq<State>, calls: seq<Call>, n: nat, user: User, secret: Secret)
    requires IsRun(tr, calls) && n < |tr|
    ensures user in tr[n].passwords && tr[n].passwords[user] == secret <==>
            exists i :: 0 <= i < n && SetsPassword(tr[i], calls[i], user, secret)
                        && forall k :: i < k < n ==> !SetsAny(tr[k], calls[k], user)
  {
    hide Next, SetsPassword;
    if n > 0 {
      PasswordIsTheLastOneSet(tr, calls, n - 1, user, secret);
      var s, c := tr[n - 1], calls[n - 1];
      PasswordStep(s, c, user);
      if SetsPassword(s, c, user, secret) {
        assert user in tr[n].passwords && tr[n].passwords[user] == secret;
      } else if SetsAny(s, c, user) {
        assert !(user in tr[n].passwords && tr[n].passwords[user] == secret);
      }
    }
  }
}
