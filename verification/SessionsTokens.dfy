/** Every change of a session row in every interleaving of the session transactions, with its exact reason. */
module SessionsTokens {
  import opened Common
  import opened Sessions
  import opened SessionsInterleaved

  /** The rows of a request's token when nobody else holds it: which stage follows, or the end without a write. */
  lemma LockExactly(w: World, t: Tid, pick: Token)
    requires t in w.txs && w.txs[t].stage.Begin?
    requires (w.txs[t].req.Rotate? || w.txs[t].req.Leave? || w.txs[t].req.LeaveAll?) && !HeldByOther(w, t, w.txs[t].req.token)
    ensures var x, k := w.txs[t], w.txs[t].req.token;
            Step(w, t, pick) ==
            if k in w.rows && x.req.Rotate? && w.rows[k].revoked then
              w.(txs := w.txs[t := x.(held := {k}, stage := Select(OfFamily(w.rows[k].family)))])
            else if k in w.rows && !w.rows[k].revoked && w.rows[k].expires > x.req.now then
              (if x.req.Rotate? then w.(txs := w.txs[t := x.(held := {k}, dead := {k}, stage := Insert)])
               else if x.req.Leave? then w.(txs := w.txs[t := x.(held := {k}, dead := {k}, stage := Ready)])
               else w.(txs := w.txs[t := x.(held := {k}, stage := Select(OfUser(w.rows[k].user, None)))]))
            else w.(txs := w.txs - {t})
  {
  }

  // ---------------------------------------------------------------------------------------------------
  // What a transaction knows of its token
  // ---------------------------------------------------------------------------------------------------

  /** The request may revoke row k. */
  ghost predicate MayRevoke(rows: map<Token, Session>, req: Request, k: Token)
    requires k in rows
  {
    match req
    case Enter(_, _, _) => false
    case Rotate(token, now, _, _) =>
      && token in rows
      && (if rows[token].revoked then rows[k].family == rows[token].family
          else k == token && rows[token].expires > now)
    case Leave(token, now) => k == token && rows[k].expires > now
    case LeaveAll(token, now) =>
      token in rows && !rows[token].revoked && rows[token].expires > now && rows[k].user == rows[token].user
    case RevokeAll(user, kept) => rows[k].user == user && kept != Some(k)
  }

  /** The request may create the row; for a login the family is unused. */
  ghost predicate MayCreate(rows: map<Token, Session>, req: Request, row: Session) {
    match req
    case Enter(user, _, expires) =>
      row == Session(user, row.family, false, expires) && forall k :: k in rows ==> rows[k].family != row.family
    case Rotate(token, now, _, expires) =>
      && token in rows && !rows[token].revoked && rows[token].expires > now
      && row == Session(rows[token].user, rows[token].family, false, expires)
    case _ => false
  }

  ghost predicate MayRevokeAll(rows: map<Token, Session>, req: Request, some: set<Token>) {
    forall k :: k in some ==> k in rows && MayRevoke(rows, req, k)
  }

  /** The rows that an UPDATE over many rows is about, from what the first statement found. */
  ghost predicate Scoped(rows: map<Token, Session>, req: Request, scope: Scope) {
    match req
    case Rotate(token, _, _, _) => token in rows && rows[token].revoked && scope == OfFamily(rows[token].family)
    case LeaveAll(token, now) =>
      && token in rows && !rows[token].revoked && rows[token].expires > now
      && scope == OfUser(rows[token].user, None)
    case RevokeAll(user, kept) => scope == OfUser(user, kept)
    case _ => false
  }

  /** What the first statement established, and the row locks and immutable columns preserve. */
  ghost predicate Told(rows: map<Token, Session>, x: Tx) {
    && x.held <= rows.Keys
    && MayRevokeAll(rows, x.req, x.dead)
    && (x.stage.Select? ==> Scoped(rows, x.req, x.stage.scope))
    && (x.stage.Sweep? ==> MayRevokeAll(rows, x.req, x.stage.targets)
                           && (x.req.Rotate? ==> x.req.token in rows && rows[x.req.token].revoked))
    && (x.add.Some? ==> MayCreate(rows, x.req, x.add.value))
    && (x.req.LeaveAll? && !x.stage.Begin? ==> x.req.token in x.held)
  }

  ghost predicate AllTold(w: World) {
    forall t :: t in w.txs ==> Told(w.rows, w.txs[t])
  }

  /** Rows stay, with their user, family and expiry; a revoked one stays revoked, a held one stays as it is. */
  ghost predicate RowsGo(rows: map<Token, Session>, rows': map<Token, Session>, held: set<Token>) {
    forall k :: k in rows ==>
      && k in rows' && (rows'[k] == rows[k] || rows'[k] == rows[k].(revoked := true))
      && (k in held ==> rows'[k] == rows[k])
  }

  lemma ToldStays(w: World, w': World, x: Tx)
    requires Told(w.rows, x) && TxOk(w, x) && TxOk(w', x) && RowsGo(w.rows, w'.rows, x.held)
    ensures Told(w'.rows, x)
  {
    forall k | k in x.held ensures k in w'.rows { assert k in w.rows; }
  }

  lemma CommitMoves(w: World, t: Tid, u: Tid)
    requires SessionsInterleaved.Inv(w) && t in w.txs && w.txs[t].stage.Ready? && u in w.txs && u != t
    ensures RowsGo(w.rows, Commit(w, t).rows, w.txs[u].held)
  {
    assert TxOk(w, w.txs[t]) && Apart(w, t, u);
  }

  /** The own statements of t but the commit leave the rows alone and tell it what they should. */
  lemma OwnStepTold(w: World, t: Tid, pick: Token)
    requires SessionsInterleaved.Inv(w) && AllTold(w) && t in w.txs && !w.txs[t].stage.Ready?
    ensures var w' := Step(w, t, pick); w'.rows == w.rows && (t in w'.txs ==> Told(w.rows, w'.txs[t]))
  {
    assert TxOk(w, w.txs[t]) && Told(w.rows, w.txs[t]);
  }

  lemma OthersStay(w: World, a: Action, u: Tid)
    requires u in Act(w, a).txs
    ensures u in w.txs && u != a.t ==> Act(w, a).txs[u] == w.txs[u]
    ensures u !in w.txs ==> a.Start? && Act(w, a).txs[u] == Tx(a.req, Begin, {}, {}, None)
    ensures u in w.txs && u == a.t ==> Act(w, a).txs[u] == w.txs[u] || (a.Advance? && !w.txs[u].stage.Ready?)
    ensures u in w.txs && u == a.t ==> !a.Advance? || !w.txs[u].stage.Ready?
  {
  }

  lemma ActTold(w: World, a: Action)
    requires SessionsInterleaved.Inv(w) && SessionsInterleaved.Inv(Act(w, a)) && AllTold(w)
    ensures AllTold(Act(w, a))
  {
    hide Step, Told, TxOk, RowsOk, RedeemedOk, Apart;
    var w' := Act(w, a);
    forall u | u in w'.txs ensures Told(w'.rows, w'.txs[u]) {
      OthersStay(w, a, u);
      if u !in w.txs {
        NewTold(w'.rows, a.req);
      } else if u == a.t {
        if a.Advance? { OwnStepTold(w, u, a.pick); }
      } else {
        if a.Advance? && a.t in w.txs {
          StepMoves(w, a.t, a.pick, u);
        }
        ToldStays(w, w', w.txs[u]);
      }
    }
  }

  lemma NewTold(rows: map<Token, Session>, req: Request)
    ensures Told(rows, Tx(req, Begin, {}, {}, None))
  {
  }

  lemma StepMoves(w: World, t: Tid, pick: Token, u: Tid)
    requires SessionsInterleaved.Inv(w) && AllTold(w) && t in w.txs && u in w.txs && u != t
    ensures RowsGo(w.rows, Step(w, t, pick).rows, w.txs[u].held)
  {
    if w.txs[t].stage.Ready? { CommitMoves(w, t, u); } else { OwnStepTold(w, t, pick); }
  }

  lemma {:induction false} TraceTold(tr: seq<World>, acts: seq<Action>, n: nat)
    requires IsTrace(tr, acts) && n < |tr|
    ensures SessionsInterleaved.Inv(tr[n]) && AllTold(tr[n])
  {
    hide Act, Told, TxOk, Apart, RowsOk, RedeemedOk;
    TraceKeeps(tr, acts, n);
    if n > 0 {
      TraceTold(tr, acts, n - 1);
      ActTold(tr[n - 1], acts[n - 1]);
    }
  }

  /**
   Every change of a stored session in every interleaving: it is only ever revoked, by the commit of a transaction that
   may revoke it as the rows are at that moment. A rotation revokes its own session while that is unrevoked and expires
   later than the rotation's clock reading, or, when its token is revoked already, sessions of the token's family; a
   logout and a logout from all devices need such a session too.
   */
  lemma RevokedExactly(tr: seq<World>, acts: seq<Action>, n: nat, k: Token)
    requires IsTrace(tr, acts) && n < |acts| && k in tr[n].rows
    ensures k in tr[n + 1].rows
    ensures tr[n + 1].rows[k] != tr[n].rows[k] ==>
              && tr[n + 1].rows[k] == tr[n].rows[k].(revoked := true)
              && acts[n].Advance? && acts[n].t in tr[n].txs
              && MayRevoke(tr[n].rows, tr[n].txs[acts[n].t].req, k)
  {
    hide Told, TxOk, Apart, RowsOk, RedeemedOk;
    TraceTold(tr, acts, n);
    var w, a := tr[n], acts[n];
    if a.Advance? && a.t in w.txs {
      if w.txs[a.t].stage.Ready? { CommitTold(w, a.t, k); } else { OwnStepTold(w, a.t, a.pick); }
    }
  }

  lemma CommitTold(w: World, t: Tid, k: Token)
    requires SessionsInterleaved.Inv(w) && AllTold(w) && t in w.txs && w.txs[t].stage.Ready? && k in w.rows
    ensures k in Commit(w, t).rows
    ensures Commit(w, t).rows[k] != w.rows[k] ==>
              Commit(w, t).rows[k] == w.rows[k].(revoked := true) && MayRevoke(w.rows, w.txs[t].req, k)
  {
    assert TxOk(w, w.txs[t]) && Told(w.rows, w.txs[t]);
  }

  /**
   Every session that appears: by the commit of a login, in a family that no session had, or of a rotation whose own
   session is unrevoked and unexpired up to this commit, revoked by it, and redeemed with it.
   */
  lemma CreatedExactly(tr: seq<World>, acts: seq<Action>, n: nat, k: Token)
    requires IsTrace(tr, acts) && n < |acts| && k !in tr[n].rows && k in tr[n + 1].rows
    ensures acts[n].Advance? && acts[n].t in tr[n].txs
    ensures var req := tr[n].txs[acts[n].t].req;
            && (req.Enter? || req.Rotate?) && req.drawn == k && MayCreate(tr[n].rows, req, tr[n + 1].rows[k])
            && (req.Rotate? ==> req.token in tr[n + 1].rows && tr[n + 1].rows[req.token].revoked
                                && tr[n + 1].redeemed == tr[n].redeemed + [req.token])
  {
    hide Told, TxOk, Apart, RowsOk, RedeemedOk;
    TraceTold(tr, acts, n);
    var w, a := tr[n], acts[n];
    if a.Advance? && a.t in w.txs {
      if w.txs[a.t].stage.Ready? { CommitCreates(w, a.t, k); } else { OwnStepTold(w, a.t, a.pick); }
    }
  }

  lemma CommitCreates(w: World, t: Tid, k: Token)
    requires SessionsInterleaved.Inv(w) && AllTold(w) && t in w.txs && w.txs[t].stage.Ready? && k !in w.rows && k in Commit(w, t).rows
    ensures var req, w' := w.txs[t].req, Commit(w, t);
            && (req.Enter? || req.Rotate?) && req.drawn == k && MayCreate(w.rows, req, w'.rows[k])
            && (req.Rotate? ==> req.token in w'.rows && w'.rows[req.token].revoked
                                && w'.redeemed == w.redeemed + [req.token])
  {
    assert TxOk(w, w.txs[t]) && Told(w.rows, w.txs[t]);
  }
}
