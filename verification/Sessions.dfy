/**
 Refresh-token sessions. A token's fingerprint has a unique index, so the token identifies its session row.
 Tokens, hashes and family identifiers are abstract: equal tokens match, a new login draws an unused family.
 */
module Sessions {
  import opened Common
  import Tenancy

  type Token = int
  type User = int
  type Time = int
  type Secret = int

  datatype Session = Session(user: User, family: nat, revoked: bool, expires: Time)

  /** The sessions table, the first family identifier not drawn yet, who must change the password, and passwords. */
  datatype State = State(sessions: map<Token, Session>, families: nat, gated: set<User>, passwords: map<User, Secret>)

  const EMPTY: State := State(map[], 0, {}, map[])

  /** A call with its clock reading and the random token it draws; the commit itself may fail. */
  datatype Call =
    | Login(user: User, drawn: Token, expires: Time, commits: bool)
      // sent: every statement before the commit went through
    | Refresh(token: Token, now: Time, drawn: Token, expires: Time, sent: bool, commits: bool)
    | Logout(token: Token, now: Time, commits: bool)
    | LogoutAll(token: Token, now: Time, commits: bool)
      // hashed: the update of the hash, outside the transaction, went through
    | ChangePassword(user: User, current: Token, was: Secret, next: Secret, hashed: bool, commits: bool)
      // eligible: the user is an active client of the organization
    | ResetCredential(user: User, eligible: bool, drawn: Secret, commits: bool)
      // an account with a password of its own, or a client's with a one-time credential
    | NewUser(user: User, secret: Secret, oneTime: bool, commits: bool)

  datatype Reply = Granted(token: Token) | Done | Failed(error: Error)

  // ---------------------------------------------------------------------------------------------------
  // The specification of a call
  // ---------------------------------------------------------------------------------------------------

  /** Revoking the sessions in dead. */
  function Revoked(sessions: map<Token, Session>, dead: set<Token>): map<Token, Session> {
    map t | t in sessions :: if t in dead then sessions[t].(revoked := true) else sessions[t]
  }

  predicate Live(s: State, t: Token) {
    t in s.sessions && !s.sessions[t].revoked
  }

  predicate Usable(s: State, t: Token, now: Time) {
    Live(s, t) && s.sessions[t].expires > now
  }

  function LiveInFamily(s: State, family: nat): set<Token> {
    set t | t in s.sessions && Live(s, t) && s.sessions[t].family == family
  }

  function LiveOf(s: State, user: User): set<Token> {
    set t | t in s.sessions && Live(s, t) && s.sessions[t].user == user
  }

  /** The password change passes its checks and replaces the hash. */
  predicate Accepted(s: State, c: Call)
    requires c.ChangePassword?
  {
    c.user in s.passwords && s.passwords[c.user] == c.was && c.was != c.next && c.hashed
  }

  /** The tokens that a call revokes when it commits. */
  function Dead(s: State, c: Call): set<Token> {
    match c
    case Login(_, _, _, _) => {}
    case Refresh(t, now, drawn, _, _, _) =>
      if t !in s.sessions then {}
      else if s.sessions[t].revoked then LiveInFamily(s, s.sessions[t].family)
      else if Usable(s, t, now) && drawn !in s.sessions then {t}
      else {}
    case Logout(t, now, _) => if Usable(s, t, now) then {t} else {}
    case LogoutAll(t, now, _) => if Usable(s, t, now) then LiveOf(s, s.sessions[t].user) else {}
    case ChangePassword(user, current, _, _, _, _) => if Accepted(s, c) then LiveOf(s, user) - {current} else {}
    case ResetCredential(user, eligible, _, _) => if eligible then LiveOf(s, user) else {}
    case NewUser(_, _, _, _) => {}
  }

  /** The session that a call creates when it commits. */
  function Created(s: State, c: Call): Option<Session> {
    match c
    case Login(user, drawn, expires, _) =>
      if drawn in s.sessions then None else Some(Session(user, s.families, false, expires))
    case Refresh(t, now, drawn, expires, _, _) =>
      if Usable(s, t, now) && drawn !in s.sessions
      then Some(Session(s.sessions[t].user, s.sessions[t].family, false, expires))
      else None
    case _ => None
  }

  /** The call hands out a one-time credential when it commits. */
  predicate IssuesCredential(c: Call) {
    (c.NewUser? && c.oneTime) || (c.ResetCredential? && c.eligible)
  }

  /** An accepted password change replaces the hash even when its transaction is rolled back. */
  function NewPasswords(s: State, c: Call): map<User, Secret> {
    match c
    case ChangePassword(user, _, _, next, _, _) => if Accepted(s, c) then s.passwords[user := next] else s.passwords
    case ResetCredential(user, eligible, drawn, commits) =>
      if eligible && commits then s.passwords[user := drawn] else s.passwords
    case NewUser(user, secret, _, commits) => if commits then s.passwords[user := secret] else s.passwords
    case _ => s.passwords
  }

  function Next(s: State, c: Call): State {
    if !c.commits || (c.Refresh? && !c.sent) then s.(passwords := NewPasswords(s, c))
    else
      var sessions := Revoked(s.sessions, Dead(s, c));
      State(if Created(s, c).Some? then sessions[c.drawn := Created(s, c).value] else sessions,
            if c.Login? && Created(s, c).Some? then s.families + 1 else s.families,
            if c.ChangePassword? && Accepted(s, c) then s.gated - {c.user}
            else if IssuesCredential(c) then s.gated + {c.user}
            else s.gated,
            NewPasswords(s, c))
  }

  /** A replay is reported as such even when its commit failed. */
  function ReplyTo(s: State, c: Call): Reply {
    if c.Refresh? && !c.sent then Failed(DatabaseError)
    else if c.Refresh? && c.token !in s.sessions then Failed(InvalidToken)
    else if c.Refresh? && s.sessions[c.token].revoked then Failed(SessionRevoked)
    else if c.Refresh? && !Usable(s, c.token, c.now) then Failed(InvalidToken)
    else if (c.Login? || c.Refresh?) && Created(s, c).None? then Failed(DatabaseError)
    else if c.ResetCredential? && !c.eligible then Failed(ClientNotFound)
    else if c.ChangePassword? && c.user !in s.passwords then Failed(UserNotFound)
    else if c.ChangePassword? && s.passwords[c.user] != c.was then Failed(InvalidPassword)
    else if c.ChangePassword? && c.was == c.next then Failed(WeakPassword)
    else if c.ChangePassword? && !c.hashed then Failed(DatabaseError)
    else if !c.commits then Failed(DatabaseError)
    else if c.Login? || c.Refresh? then Granted(c.drawn)
    else Done
  }

  /** The call redeems the refresh token t: its caller gets a new token for it. */
  predicate Redeems(s: State, c: Call, t: Token) {
    c.Refresh? && c.token == t && ReplyTo(s, c).Granted?
  }

  /** The call is a replay of a revoked token, and its revocations are committed. */
  predicate Replays(s: State, c: Call, t: Token) {
    c.Refresh? && c.token == t && c.commits && ReplyTo(s, c) == Failed(SessionRevoked)
  }

  // ---------------------------------------------------------------------------------------------------
  // The service
  // ---------------------------------------------------------------------------------------------------

  class Service {
    var sessions: map<Token, Session>
    var families: nat
    var gated: set<User>
    var passwords: map<User, Secret>

    function Rows(): State
      reads this
    {
      State(sessions, families, gated, passwords)
    }

    constructor ()
      ensures Rows() == EMPTY
    {
      sessions, families, gated, passwords := map[], 0, {}, map[];
    }

    /** createSession, in the transaction of the login. */
    method CreateSession(user: User, drawn: Token, expires: Time, commits: bool) returns (r: Reply)
      modifies this
      ensures var c := Login(user, drawn, expires, commits);
              Rows() == Next(old(Rows()), c) && r == ReplyTo(old(Rows()), c)
    {
      var family := families;
      if drawn in sessions { return Failed(DatabaseError); }
      if !commits { return Failed(DatabaseError); }
      sessions, families := sessions[drawn := Session(user, family, false, expires)], families + 1;
      assert sessions == Revoked(old(sessions), {})[drawn := Session(user, family, false, expires)];
      r := Granted(drawn);
    }

    /** Rotation; a replay of a revoked token revokes its whole family. */
    method RefreshToken(token: Token, now: Time, drawn: Token, expires: Time, sent: bool, commits: bool)
      returns (r: Reply)
      modifies this
      ensures var c := Refresh(token, now, drawn, expires, sent, commits);
              Rows() == Next(old(Rows()), c) && r == ReplyTo(old(Rows()), c)
      ensures r.Granted? ==>
                && token in old(sessions) && !old(sessions)[token].revoked && old(sessions)[token].expires > now
                && drawn !in old(sessions)
                && sessions == old(sessions)[token := old(sessions)[token].(revoked := true)]
                                            [drawn := old(sessions)[token].(expires := expires)]
    {
      var rows := sessions;
      var reuseDetected, newRefreshToken := false, None;
      var error := None;
      if token !in rows {
        error := Some(InvalidToken);
      } else {
        var session := rows[token];
        if session.revoked {
          rows := map t | t in rows ::
            if rows[t].family == session.family && !rows[t].revoked then rows[t].(revoked := true) else rows[t];
          if sent { reuseDetected := true; }
        } else if session.expires <= now {
          error := Some(InvalidToken);
        } else {
          rows := rows[token := session.(revoked := true)];
          newRefreshToken := Some(drawn);
          if drawn in rows {
            error := Some(DatabaseError);
          } else {
            rows := rows[drawn := Session(session.user, session.family, false, expires)];
          }
        }
      }
      if !sent { error := Some(DatabaseError); }
      if error.None? && !commits { error := Some(DatabaseError); }
      if error.None? { sessions := rows; }
      if reuseDetected { return Failed(SessionRevoked); }
      if error.Some? { return Failed(error.value); }
      r := Granted(newRefreshToken.value);
    }

    method Logout(token: Token, now: Time, commits: bool) returns (r: Reply)
      modifies this
      ensures var c := Call.Logout(token, now, commits);
              Rows() == Next(old(Rows()), c) && r == ReplyTo(old(Rows()), c)
      ensures commits && token in old(sessions) && !old(sessions)[token].revoked && old(sessions)[token].expires > now
              ==> sessions == old(sessions)[token := old(sessions)[token].(revoked := true)]
      ensures !commits || token !in old(sessions) || old(sessions)[token].revoked || old(sessions)[token].expires <= now
              ==> sessions == old(sessions)
    {
      var rows := sessions;
      if token in rows && !rows[token].revoked && rows[token].expires > now {
        rows := rows[token := rows[token].(revoked := true)];
      }
      if !commits { return Failed(DatabaseError); }
      sessions := rows;
      r := Done;
    }

    method LogoutAllDevices(token: Token, now: Time, commits: bool) returns (r: Reply)
      modifies this
      ensures var c := LogoutAll(token, now, commits);
              Rows() == Next(old(Rows()), c) && r == ReplyTo(old(Rows()), c)
      ensures commits && token in old(sessions) && !old(sessions)[token].revoked && old(sessions)[token].expires > now
              ==> forall t :: t in sessions && sessions[t].user == old(sessions)[token].user ==> sessions[t].revoked
      ensures !commits || token !in old(sessions) || old(sessions)[token].revoked || old(sessions)[token].expires <= now
              ==> sessions == old(sessions)
    {
      var rows := sessions;
      if token in rows && !rows[token].revoked && rows[token].expires > now {
        var user := rows[token].user;
        rows := map t | t in rows :: if rows[t].user == user && !rows[t].revoked then rows[t].(revoked := true) else rows[t];
      }
      if !commits { return Failed(DatabaseError); }
      sessions := rows;
      r := Done;
    }

    /** Checks the current password; the hash is replaced through the pool, the rest in a transaction. */
    method ChangePassword(user: User, current: Token, was: Secret, next: Secret, hashed: bool, commits: bool)
      returns (r: Reply)
      modifies this
      ensures var c := Call.ChangePassword(user, current, was, next, hashed, commits);
              Rows() == Next(old(Rows()), c) && r == ReplyTo(old(Rows()), c)
    {
      assert sessions == Revoked(sessions, {});
      if user !in passwords { return Failed(UserNotFound); }
      if passwords[user] != was { return Failed(InvalidPassword); }
      if was == next { return Failed(WeakPassword); }
      if !hashed { return Failed(DatabaseError); }
      passwords := passwords[user := next];
      if !commits { return Failed(DatabaseError); }
      gated := gated - {user};
      sessions := map t | t in sessions ::
        if sessions[t].user == user && t != current && !sessions[t].revoked then sessions[t].(revoked := true)
        else sessions[t];
      r := Done;
    }

    method ResetCredential(members: map<Tenancy.Key, Tenancy.Membership>, org: int, user: User, drawn: Secret, commits: bool)
      returns (r: Reply)
      modifies this
      ensures var k := Tenancy.Key(org, user);
              var isClient := k in members && members[k] == Tenancy.Membership(Tenancy.Client, Tenancy.MemberStatus.Active);
              var c := Call.ResetCredential(user, isClient, drawn, commits);
              && Rows() == Next(old(Rows()), c) && r == ReplyTo(old(Rows()), c)
              && (r == Done ==> passwords == old(passwords)[user := drawn] && user in gated
                                && forall t :: t in sessions && sessions[t].user == user ==> sessions[t].revoked)
    {
      var key := Tenancy.Key(org, user);
      if key !in members || members[key].role != Tenancy.Client || members[key].status != Tenancy.MemberStatus.Active {
        assert sessions == Revoked(sessions, {});
        return Failed(ClientNotFound);
      }
      if !commits { return Failed(DatabaseError); }
      passwords, gated := passwords[user := drawn], gated + {user};
      RevokeAllSessions(user);
      r := Done;
    }

    /** A users row. */
    method CreateUser(user: User, secret: Secret, oneTime: bool, commits: bool) returns (r: Reply)
      modifies this
      ensures var c := NewUser(user, secret, oneTime, commits);
              Rows() == Next(old(Rows()), c) && r == ReplyTo(old(Rows()), c)
    {
      assert sessions == Revoked(sessions, {});
      if !commits { return Failed(DatabaseError); }
      passwords := passwords[user := secret];
      if oneTime { gated := gated + {user}; }
      r := Done;
    }

    method RevokeAllSessions(user: User)
      modifies this`sessions
      ensures sessions == Revoked(old(sessions), LiveOf(old(Rows()), user))
    {
      sessions := map t | t in sessions ::
        if sessions[t].user == user && !sessions[t].revoked then sessions[t].(revoked := true) else sessions[t];
    }
  }

  // ---------------------------------------------------------------------------------------------------
  // Runs
  // ---------------------------------------------------------------------------------------------------

  /** tr[i] is the state in which calls[i] arrives. */
  ghost predicate IsRun(tr: seq<State>, calls: seq<Call>) {
    && |tr| == |calls| + 1
    && tr[0] == EMPTY
    && forall i :: 0 <= i < |calls| ==> tr[i + 1] == Next(tr[i], calls[i])
  }

  /** Drawn families only; one user and at most one live session a family. */
  ghost predicate Inv(s: State) {
    && (forall t :: t in s.sessions ==> s.sessions[t].family < s.families)
    && (forall t, u :: t in s.sessions && u in s.sessions && s.sessions[t].family == s.sessions[u].family ==>
          s.sessions[t].user == s.sessions[u].user && (Live(s, t) && Live(s, u) ==> t == u))
  }

  lemma NextKeeps(s: State, c: Call)
    requires Inv(s)
    ensures Inv(Next(s, c))
  {
    hide NewPasswords, Accepted;
  }

  lemma {:induction false} RunKeeps(tr: seq<State>, calls: seq<Call>, n: nat)
    requires IsRun(tr, calls) && n < |tr|
    ensures Inv(tr[n])
  {
    hide Next;
    if n > 0 {
      RunKeeps(tr, calls, n - 1);
      NextKeeps(tr[n - 1], calls[n - 1]);
    }
  }

  /** In every state of every run, a token family has at most one unrevoked session, and one user. */
  lemma OneLiveSessionAFamily(tr: seq<State>, calls: seq<Call>, n: nat, t: Token, u: Token)
    requires IsRun(tr, calls) && n < |tr| && t in tr[n].sessions && u in tr[n].sessions
    requires tr[n].sessions[t].family == tr[n].sessions[u].family
    ensures tr[n].sessions[t].user == tr[n].sessions[u].user
    ensures Live(tr[n], t) && Live(tr[n], u) ==> t == u
  {
    RunKeeps(tr, calls, n);
  }

  /** Rows are never deleted, a revoked session stays revoked, and owner, family and expiry never change. */
  lemma {:induction false} RevokedStaysRevoked(tr: seq<State>, calls: seq<Call>, i: nat, j: nat, t: Token)
    requires IsRun(tr, calls) && i <= j < |tr| && t in tr[i].sessions
    ensures t in tr[j].sessions
    ensures tr[j].sessions[t] == tr[i].sessions[t] || tr[j].sessions[t] == tr[i].sessions[t].(revoked := true)
    decreases j
  {
    if i < j { RevokedStaysRevoked(tr, calls, i, j - 1, t); }
  }

  lemma RedeemedIsRevoked(s: State, c: Call, t: Token)
    requires Redeems(s, c, t)
    ensures Live(s, t) && t in Next(s, c).sessions && Next(s, c).sessions[t].revoked
  {
  }

  /** No refresh token is redeemed twice. */
  lemma RedeemedAtMostOnce(tr: seq<State>, calls: seq<Call>, i: nat, j: nat, t: Token)
    requires IsRun(tr, calls) && i < j < |calls| && Redeems(tr[i], calls[i], t)
    ensures !Redeems(tr[j], calls[j], t)
  {
    RedeemedIsRevoked(tr[i], calls[i], t);
    RevokedStaysRevoked(tr, calls, i + 1, j, t);
  }

  /** The family is in use and none of its sessions is live. */
  ghost predicate Extinct(s: State, family: nat) {
    family < s.families && forall t :: t in s.sessions && s.sessions[t].family == family ==> s.sessions[t].revoked
  }

  /** A family without a live session never has one again. */
  lemma {:induction false} ExtinctForEver(tr: seq<State>, calls: seq<Call>, i: nat, j: nat, family: nat)
    requires IsRun(tr, calls) && i <= j < |tr| && Extinct(tr[i], family)
    ensures Extinct(tr[j], family)
    decreases j
  {
    if i < j { ExtinctForEver(tr, calls, i, j - 1, family); }
  }

  /**
   Theft of a token: once a revoked token has been replayed, no token of its family, whoever holds it, is ever
   redeemed again.
   */
  lemma ReplayEndsTheFamily(tr: seq<State>, calls: seq<Call>, i: nat, j: nat, t: Token, u: Token)
    requires IsRun(tr, calls) && i < j < |calls| && Replays(tr[i], calls[i], t)
    requires u in tr[j].sessions && tr[j].sessions[u].family == tr[i].sessions[t].family
    ensures !Live(tr[j], u) && !Redeems(tr[j], calls[j], u)
  {
    var family := tr[i].sessions[t].family;
    RunKeeps(tr, calls, i);
    assert Extinct(tr[i + 1], family);
    ExtinctForEver(tr, calls, i + 1, j, family);
  }

  /** Presenting a token again after its redemption is such a replay. */
  lemma SecondUseIsAReplay(tr: seq<State>, calls: seq<Call>, i: nat, j: nat, t: Token)
    requires IsRun(tr, calls) && i < j < |calls| && Redeems(tr[i], calls[i], t)
    requires calls[j].Refresh? && calls[j].token == t
    ensures ReplyTo(tr[j], calls[j]) == Failed(if calls[j].sent then SessionRevoked else DatabaseError)
    ensures Replays(tr[j], calls[j], t) <==> calls[j].sent && calls[j].commits
  {
    RedeemedIsRevoked(tr[i], calls[i], t);
    RevokedStaysRevoked(tr, calls, i + 1, j, t);
  }

  /**
   A caller that is told its session was revoked can rely on the end of the family exactly when the commit went
   through or there was nothing left to revoke: the reply does not depend on the commit.
   */
  lemma ReplayReplyIsNotProof(s: State, c: Call)
    requires Inv(s) && c.Refresh? && ReplyTo(s, c) == Failed(SessionRevoked)
    ensures Extinct(Next(s, c), s.sessions[c.token].family) <==>
            c.commits || LiveInFamily(s, s.sessions[c.token].family) == {}
  {
    var family := s.sessions[c.token].family;
    if !c.commits && LiveInFamily(s, family) != {} {
      var t :| t in LiveInFamily(s, family);
      assert !Extinct(s, family);
    }
    if !c.commits && LiveInFamily(s, family) == {} {
      forall t | t in s.sessions && s.sessions[t].family == family ensures s.sessions[t].revoked {
        assert t !in LiveInFamily(s, family);
      }
    }
  }

  /** All of the user's earlier tokens are dead but those in kept. */
  ghost predicate Cleared(s: State, user: User, kept: set<Token>) {
    forall t :: t in s.sessions && s.sessions[t].user == user && t !in kept ==> s.sessions[t].revoked
  }

  lemma ClearingCalls(s: State, c: Call)
    requires c.commits && Inv(s)
    ensures c.ResetCredential? && c.eligible ==> Cleared(Next(s, c), c.user, {})
    ensures c.ChangePassword? && Accepted(s, c) ==> Cleared(Next(s, c), c.user, {c.current})
    ensures c.ChangePassword? && Live(s, c.current) ==> Live(Next(s, c), c.current)
    ensures c.LogoutAll? && Usable(s, c.token, c.now) ==> Cleared(Next(s, c), s.sessions[c.token].user, {})
  {
  }

  /**
   After a credential reset, a logout from all devices or a password change, no token that the user held before it
   is ever redeemed, except the one of the session that changed the password.
   */
  lemma OldTokensAreUseless(tr: seq<State>, calls: seq<Call>, i: nat, j: nat, t: Token)
    requires IsRun(tr, calls) && i < j < |calls| && calls[i].commits && t in tr[i].sessions
    requires || (calls[i].ResetCredential? && calls[i].eligible && calls[i].user == tr[i].sessions[t].user)
             || (calls[i].ChangePassword? && Accepted(tr[i], calls[i]) && calls[i].user == tr[i].sessions[t].user
                 && t != calls[i].current)
             || (calls[i].LogoutAll? && Usable(tr[i], calls[i].token, calls[i].now)
                 && tr[i].sessions[calls[i].token].user == tr[i].sessions[t].user)
    ensures !Redeems(tr[j], calls[j], t)
  {
    RunKeeps(tr, calls, i);
    ClearingCalls(tr[i], calls[i]);
    RevokedStaysRevoked(tr, calls, i, i + 1, t);
    RevokedStaysRevoked(tr, calls, i + 1, j, t);
  }

  predicate ChangesPassword(s: State, c: Call, user: User) {
    c.ChangePassword? && c.user == user && c.commits && Accepted(s, c)
  }

  /** A user must change the password exactly from a one-time credential on to the next password change. */
  lemma {:induction false} GatedExactly(tr: seq<State>, calls: seq<Call>, n: nat, user: User)
    requires IsRun(tr, calls) && n < |tr|
    ensures user in tr[n].gated <==>
            exists i :: 0 <= i < n && IssuesCredential(calls[i]) && calls[i].user == user && calls[i].commits
                        && forall k :: i < k < n ==> !ChangesPassword(tr[k], calls[k], user)
  {
    hide Accepted;
    if n > 0 {
      GatedExactly(tr, calls, n - 1, user);
      var c := calls[n - 1];
      if IssuesCredential(c) && c.user == user && c.commits {
        assert user in tr[n].gated;
      } else if ChangesPassword(tr[n - 1], c, user) {
        assert user !in tr[n].gated;
      } else {
        assert user in tr[n].gated <==> user in tr[n - 1].gated;
      }
    }
  }

  /**
   A password change that fails leaves sessions and gates alone, but not always the password: it is replaced exactly if
   the checks and the update of the hash went through, so that the failure is that of the transaction.
   */
  lemma FailedChangeMayStick(s: State, c: Call)
    requires c.ChangePassword? && ReplyTo(s, c).Failed?
    ensures Next(s, c).sessions == s.sessions && Next(s, c).gated == s.gated
    ensures Next(s, c).passwords != s.passwords <==> Accepted(s, c)
    ensures Accepted(s, c) ==> !c.commits && Next(s, c).passwords[c.user] == c.next
  {
    if Accepted(s, c) { assert Next(s, c).passwords[c.user] != s.passwords[c.user]; }
    if c.commits { assert Revoked(s.sessions, {}) == s.sessions; }
  }
}
