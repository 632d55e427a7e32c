/**
 The session transactions statement by statement, many at a time, under READ COMMITTED: FOR UPDATE waits for a row
 lock and reads the row again; an UPDATE over many rows picks its targets from what is committed when it starts,
 then locks them one by one and skips those that no longer match.
 */
module SessionsInterleaved {
  import opened Common
  import opened Sessions

  type Tid = int

  /** RevokeAll is the session part of a password change (with the session it keeps) or of a credential reset. */
  datatype Request =
    | Enter(user: User, drawn: Token, expires: Time)
    | Rotate(token: Token, now: Time, drawn: Token, expires: Time)
    | Leave(token: Token, now: Time)
    | LeaveAll(token: Token, now: Time)
    | RevokeAll(user: User, kept: Option<Token>)

  /** The rows that an UPDATE over many rows is about. */
  datatype Scope = OfFamily(family: nat) | OfUser(user: User, kept: Option<Token>)

  datatype Stage = Begin | Insert | Select(scope: Scope) | Sweep(targets: set<Token>) | Ready

  /** A transaction with the rows that it has locked, has revoked and is about to add. */
  datatype Tx = Tx(req: Request, stage: Stage, held: set<Token>, dead: set<Token>, add: Option<Session>)

  /** The committed sessions, the transactions in flight, and the tokens redeemed so far. */
  datatype World = World(rows: map<Token, Session>, families: nat, txs: map<Tid, Tx>, redeemed: seq<Token>)

  const START: World := World(map[], 0, map[], [])

  function Put(w: World, t: Tid, x: Tx): World {
    w.(txs := w.txs[t := x])
  }

  function Fail(w: World, t: Tid): World {
    w.(txs := w.txs - {t})
  }

  predicate LiveRow(rows: map<Token, Session>, k: Token) {
    k in rows && !rows[k].revoked
  }

  predicate InScope(row: Session, k: Token, scope: Scope) {
    match scope
    case OfFamily(family) => row.family == family
    case OfUser(user, kept) => row.user == user && kept != Some(k)
  }

  ghost predicate HeldByOther(w: World, t: Tid, k: Token) {
    exists u :: u in w.txs && u != t && k in w.txs[u].held
  }

  ghost predicate DrawnByOther(w: World, t: Tid, k: Token) {
    exists u :: u in w.txs && u != t && w.txs[u].add.Some? && Drawn(w.txs[u]) == k
  }

  function Drawn(x: Tx): Token {
    if x.req.Enter? || x.req.Rotate? then x.req.drawn else 0
  }

  function Commit(w: World, t: Tid): World
    requires t in w.txs
  {
    var x := w.txs[t];
    var rows := Revoked(w.rows, x.dead);
    w.(rows := if x.add.Some? then rows[Drawn(x) := x.add.value] else rows, txs := w.txs - {t},
       redeemed := if x.req.Rotate? && x.add.Some? then w.redeemed + [x.req.token] else w.redeemed)
  }

  /** The first statement of a transaction on one token: the row FOR UPDATE. */
  function Lock(w: World, t: Tid): World
    requires t in w.txs && (w.txs[t].req.Rotate? || w.txs[t].req.Leave? || w.txs[t].req.LeaveAll?)
  {
    var x := w.txs[t];
    var k := x.req.token;
    if k !in w.rows then Fail(w, t)
    else
      var row, y := w.rows[k], x.(held := {k});
      if x.req.Rotate? && row.revoked then Put(w, t, y.(stage := Select(OfFamily(row.family))))
      else if row.revoked || row.expires <= x.req.now then Fail(w, t)
      else
        match x.req
        case Rotate(_, _, _, _) => Put(w, t, y.(dead := {k}, stage := Insert))
        case Leave(_, _) => Put(w, t, y.(dead := {k}, stage := Ready))
        case LeaveAll(_, _) => Put(w, t, y.(stage := Select(OfUser(row.user, None))))
  }

  /** The next statement of t; pick is the row that an UPDATE over many rows comes to. */
  ghost function Step(w: World, t: Tid, pick: Token): World
    requires t in w.txs
  {
    var x := w.txs[t];
    match x.stage
    case Begin =>
      (match x.req
       case Enter(_, _, _) => Put(w, t, x.(stage := Insert))
       case RevokeAll(user, kept) => Put(w, t, x.(stage := Select(OfUser(user, kept))))
       case _ => if HeldByOther(w, t, x.req.token) then w else Lock(w, t))
    case Insert =>
      if DrawnByOther(w, t, Drawn(x)) then w
      else if Drawn(x) in w.rows then Fail(w, t)
      else
        (match x.req
         case Enter(user, _, expires) =>
           Put(w, t, x.(add := Some(Session(user, w.families, false, expires)), stage := Ready)).(families := w.families + 1)
         case Rotate(k, _, _, expires) =>
           if k !in w.rows then Fail(w, t)
           else Put(w, t, x.(add := Some(Session(w.rows[k].user, w.rows[k].family, false, expires)), stage := Ready))
         case _ => Fail(w, t))
    case Select(scope) =>
      Put(w, t, x.(stage := Sweep(set k | k in w.rows && LiveRow(w.rows, k) && InScope(w.rows[k], k, scope))))
    case Sweep(targets) =>
      if targets == {} then Put(w, t, x.(stage := Ready))
      else if pick !in targets || HeldByOther(w, t, pick) then w
      else if LiveRow(w.rows, pick) then
        Put(w, t, x.(held := x.held + {pick}, dead := x.dead + {pick}, stage := Sweep(targets - {pick})))
      else Put(w, t, x.(stage := Sweep(targets - {pick})))
    case Ready => Commit(w, t)
  }

  datatype Action = Start(t: Tid, req: Request) | Advance(t: Tid, pick: Token) | Abort(t: Tid)

  ghost function Act(w: World, a: Action): World {
    match a
    case Start(t, req) => if t in w.txs then w else Put(w, t, Tx(req, Begin, {}, {}, None))
    case Advance(t, pick) => if t in w.txs then Step(w, t, pick) else w
    case Abort(t) => Fail(w, t)
  }

  /** tr[i] is the world in which acts[i] is taken. */
  ghost predicate IsTrace(tr: seq<World>, acts: seq<Action>) {
    && |tr| == |acts| + 1
    && tr[0] == START
    && forall i :: 0 <= i < |acts| ==> tr[i + 1] == Act(tr[i], acts[i])
  }

  // ---------------------------------------------------------------------------------------------------
  // The invariant
  // ---------------------------------------------------------------------------------------------------

  ghost predicate RowsOk(w: World) {
    && (forall k :: k in w.rows ==> w.rows[k].family < w.families)
    && (forall k, l :: LiveRow(w.rows, k) && LiveRow(w.rows, l) && w.rows[k].family == w.rows[l].family ==> k == l)
  }

  /** What x has locked cannot change; a rotation holds its live row; a login's family is its own. */
  ghost predicate TxOk(w: World, x: Tx) {
    && x.dead <= x.held && (forall k :: k in x.dead ==> LiveRow(w.rows, k))
    && (x.stage.Begin? ==> x.held == {} && x.add.None?)
    && (x.stage.Insert? ==> x.add.None? && (x.req.Enter? || x.req.Rotate?)
                            && (x.req.Enter? ==> x.dead == {}) && (x.req.Rotate? ==> x.dead == {x.req.token}))
    && (x.stage.Select? || x.stage.Sweep? ==> x.add.None?)
    && (x.add.Some? ==>
          && x.stage.Ready? && Drawn(x) !in w.rows && !x.add.value.revoked && x.add.value.family < w.families
          && (x.req.Rotate? || x.req.Enter?)
          && (x.req.Rotate? ==> x.dead == {x.req.token} && x.add.value.family == w.rows[x.req.token].family)
          && (x.req.Enter? ==> x.dead == {} && forall k :: k in w.rows ==> w.rows[k].family != x.add.value.family))
  }

  ghost predicate Apart(w: World, t: Tid, u: Tid)
    requires t in w.txs && u in w.txs
  {
    var x, y := w.txs[t], w.txs[u];
    && x.held !! y.held
    && (x.add.Some? && y.add.Some? ==>
          Drawn(x) != Drawn(y) && (x.req.Enter? ==> x.add.value.family != y.add.value.family))
  }

  ghost predicate RedeemedOk(w: World) {
    && (forall i :: 0 <= i < |w.redeemed| ==> w.redeemed[i] in w.rows && w.rows[w.redeemed[i]].revoked)
    && (forall i, j :: 0 <= i < j < |w.redeemed| ==> w.redeemed[i] != w.redeemed[j])
  }

  ghost predicate Inv(w: World) {
    && RowsOk(w) && RedeemedOk(w)
    && (forall t :: t in w.txs ==> TxOk(w, w.txs[t]))
    && (forall t, u :: t in w.txs && u in w.txs && t != u ==> Apart(w, t, u))
  }

  /** A transition of t that commits nothing. */
  lemma OwnStepKeeps(w: World, t: Tid, x: Tx, families: nat)
    requires Inv(w) && w.families <= families
    requires var w' := Put(w, t, x).(families := families);
             TxOk(w', x) && forall u :: u in w.txs && u != t ==> Apart(w', t, u) && Apart(w', u, t)
    ensures Inv(Put(w, t, x).(families := families))
  {
    var w' := Put(w, t, x).(families := families);
    forall u | u in w'.txs ensures TxOk(w', w'.txs[u]) {
      if u != t { assert TxOk(w, w.txs[u]); }
    }
    forall u, v | u in w'.txs && v in w'.txs && u != v ensures Apart(w', u, v) {
      if u != t && v != t { assert Apart(w, u, v); }
    }
  }

  lemma LockKeeps(w: World, t: Tid)
    requires Inv(w) && t in w.txs && w.txs[t].stage.Begin?
    requires w.txs[t].req.Rotate? || w.txs[t].req.Leave? || w.txs[t].req.LeaveAll?
    requires !HeldByOther(w, t, w.txs[t].req.token)
    ensures Inv(Lock(w, t))
  {
    assert TxOk(w, w.txs[t]);
    var w' := Lock(w, t);
    if t in w'.txs {
      forall u | u in w.txs && u != t ensures Apart(w', t, u) && Apart(w', u, t) {
        assert w.txs[t].req.token !in w.txs[u].held;
      }
      OwnStepKeeps(w, t, w'.txs[t], w.families);
    } else {
      FailKeeps(w, t);
    }
  }

  lemma FailKeeps(w: World, t: Tid)
    requires Inv(w)
    ensures Inv(Fail(w, t))
  {
    var w' := Fail(w, t);
    forall u | u in w'.txs ensures TxOk(w', w'.txs[u]) { assert TxOk(w, w.txs[u]); }
    forall u, v | u in w'.txs && v in w'.txs && u != v ensures Apart(w', u, v) { assert Apart(w, u, v); }
  }

  lemma InsertKeeps(w: World, t: Tid, pick: Token)
    requires Inv(w) && t in w.txs && w.txs[t].stage.Insert?
    ensures Inv(Step(w, t, pick))
  {
    var x, w' := w.txs[t], Step(w, t, pick);
    assert TxOk(w, x);
    if t !in w'.txs {
      FailKeeps(w, t);
    } else if w' != w {
      forall u | u in w.txs && u != t ensures Apart(w', t, u) && Apart(w', u, t) {
        assert Apart(w, t, u) && Apart(w, u, t) && TxOk(w, w.txs[u]);
        assert w.txs[u].add.Some? ==> Drawn(w.txs[u]) != Drawn(x);
      }
      assert w' == Put(w, t, w'.txs[t]).(families := w'.families);
      OwnStepKeeps(w, t, w'.txs[t], w'.families);
    }
  }

  lemma SweepKeeps(w: World, t: Tid, pick: Token)
    requires Inv(w) && t in w.txs && (w.txs[t].stage.Select? || w.txs[t].stage.Sweep?)
    ensures Inv(Step(w, t, pick))
  {
    var x, w' := w.txs[t], Step(w, t, pick);
    assert TxOk(w, x);
    if w' != w {
      forall u | u in w.txs && u != t ensures Apart(w', t, u) && Apart(w', u, t) {
        assert Apart(w, t, u) && Apart(w, u, t);
        assert pick in w'.txs[t].held - x.held ==> pick !in w.txs[u].held;
      }
      OwnStepKeeps(w, t, w'.txs[t], w.families);
    }
  }

  lemma CommitKeepsRows(w: World, t: Tid)
    requires Inv(w) && t in w.txs && w.txs[t].stage.Ready?
    ensures RowsOk(Commit(w, t)) && RedeemedOk(Commit(w, t))
  {
    assert TxOk(w, w.txs[t]);
  }

  lemma CommitKeepsOther(w: World, t: Tid, u: Tid)
    requires Inv(w) && t in w.txs && w.txs[t].stage.Ready? && u in w.txs && u != t
    ensures TxOk(Commit(w, t), w.txs[u])
  {
    assert TxOk(w, w.txs[t]) && TxOk(w, w.txs[u]) && Apart(w, t, u) && Apart(w, u, t);
  }

  lemma StepKeeps(w: World, t: Tid, pick: Token)
    requires Inv(w) && t in w.txs
    ensures Inv(Step(w, t, pick))
  {
    hide TxOk, Apart, RowsOk, RedeemedOk;
    var x := w.txs[t];
    match x.stage
    case Begin =>
      if x.req.Enter? || x.req.RevokeAll? {
        BeginKeeps(w, t, pick);
      } else if !HeldByOther(w, t, x.req.token) {
        LockKeeps(w, t);
      }
    case Insert => InsertKeeps(w, t, pick);
    case Select(_) => SweepKeeps(w, t, pick);
    case Sweep(_) => SweepKeeps(w, t, pick);
    case Ready =>
      CommitKeepsRows(w, t);
      var w' := Commit(w, t);
      forall u | u in w'.txs ensures TxOk(w', w'.txs[u]) { CommitKeepsOther(w, t, u); }
      forall u, v | u in w'.txs && v in w'.txs && u != v ensures Apart(w', u, v) { ApartStays(w, w', u, v); }
  }

  lemma ApartStays(w: World, w': World, u: Tid, v: Tid)
    requires u in w.txs && v in w.txs && u in w'.txs && v in w'.txs && Apart(w, u, v)
    requires w'.txs[u] == w.txs[u] && w'.txs[v] == w.txs[v]
    ensures Apart(w', u, v)
  {
  }

  lemma BeginKeeps(w: World, t: Tid, pick: Token)
    requires Inv(w) && t in w.txs && w.txs[t].stage.Begin? && (w.txs[t].req.Enter? || w.txs[t].req.RevokeAll?)
    ensures Inv(Step(w, t, pick))
  {
    var w' := Step(w, t, pick);
    assert TxOk(w, w.txs[t]);
    OwnStepKeeps(w, t, w'.txs[t], w.families);
  }

  lemma StartKeeps(w: World, t: Tid, req: Request)
    requires Inv(w) && t !in w.txs
    ensures Inv(Act(w, Start(t, req)))
  {
    var w' := Act(w, Start(t, req));
    forall u | u in w'.txs ensures TxOk(w', w'.txs[u]) {
      if u != t { assert TxOk(w, w.txs[u]); }
    }
    forall u, v | u in w'.txs && v in w'.txs && u != v ensures Apart(w', u, v) {
      if u != t && v != t { assert Apart(w, u, v); }
    }
  }

  lemma {:induction false} TraceKeeps(tr: seq<World>, acts: seq<Action>, n: nat)
    requires IsTrace(tr, acts) && n < |tr|
    ensures Inv(tr[n])
  {
    hide Step, TxOk, Apart, RowsOk, RedeemedOk;
    if n == 0 {
      StartIsOk();
    } else {
      TraceKeeps(tr, acts, n - 1);
      match acts[n - 1]
      case Start(t, req) => if t !in tr[n - 1].txs { StartKeeps(tr[n - 1], t, req); }
      case Advance(t, pick) => if t in tr[n - 1].txs { StepKeeps(tr[n - 1], t, pick); }
      case Abort(t) => FailKeeps(tr[n - 1], t);
    }
  }

  lemma StartIsOk()
    ensures Inv(START)
  {
  }

  // ---------------------------------------------------------------------------------------------------
  // What extends to interleavings
  // ---------------------------------------------------------------------------------------------------

  /** However statements interleave, a family has at most one unrevoked session, and no token is redeemed twice. */
  lemma OneLiveAndRedeemedOnce(tr: seq<World>, acts: seq<Action>, n: nat)
    requires IsTrace(tr, acts) && n < |tr|
    ensures var w := tr[n];
            && (forall k, l :: LiveRow(w.rows, k) && LiveRow(w.rows, l) && w.rows[k].family == w.rows[l].family ==> k == l)
            && (forall i, j :: 0 <= i < j < |w.redeemed| ==> w.redeemed[i] != w.redeemed[j])
  {
    TraceKeeps(tr, acts, n);
  }

  // ---------------------------------------------------------------------------------------------------
  // What does not: a replay may miss the session that a rotation is about to commit
  // ---------------------------------------------------------------------------------------------------

  /** x is a rotation that has found its token revoked. */
  predicate Replaying(x: Tx) {
    x.req.Rotate? && x.add.None? && (x.stage.Select? || x.stage.Sweep? || x.stage.Ready?)
  }

  /** An update over a family is that of a replay of one of its tokens. */
  ghost predicate ReplayOk(w: World, x: Tx) {
    x.stage.Select? && x.stage.scope.OfFamily? ==>
      && x.req.Rotate? && x.add.None? && x.req.token in w.rows && w.rows[x.req.token].revoked
      && w.rows[x.req.token].family == x.stage.scope.family
  }

  lemma ReplayStep(w: World, a: Action, u: Tid)
    requires Inv(w) && u in Act(w, a).txs && (u in w.txs ==> ReplayOk(w, w.txs[u]))
    ensures ReplayOk(Act(w, a), Act(w, a).txs[u])
  {
    hide Apart, RowsOk, RedeemedOk;
    if a.Advance? && a.t in w.txs { assert TxOk(w, w.txs[a.t]); }
  }

  lemma {:induction false} TraceReplays(tr: seq<World>, acts: seq<Action>, n: nat, u: Tid)
    requires IsTrace(tr, acts) && n < |tr| && u in tr[n].txs
    ensures ReplayOk(tr[n], tr[n].txs[u])
  {
    hide Act, ReplayOk;
    if n > 0 {
      TraceKeeps(tr, acts, n - 1);
      if u in tr[n - 1].txs { TraceReplays(tr, acts, n - 1, u); }
      ReplayStep(tr[n - 1], acts[n - 1], u);
    }
  }

  /** The family is in use and none of its committed sessions is live. */
  ghost predicate Ended(w: World, family: nat) {
    && (exists k :: k in w.rows && w.rows[k].family == family)
    && (forall k :: k in w.rows && w.rows[k].family == family ==> w.rows[k].revoked)
  }

  /** The action commits a login or a rotation that adds the session k to the scope. */
  ghost predicate SessionCommits(w: World, a: Action, scope: Scope, k: Token) {
    && a.Advance? && a.t in w.txs && w.txs[a.t].stage.Ready? && w.txs[a.t].add.Some?
    && Drawn(w.txs[a.t]) == k && InScope(w.txs[a.t].add.value, k, scope)
  }

  /** Some step from m to n - 1 commits a login or a rotation that adds k to the scope. */
  ghost predicate CreatedBetween(tr: seq<World>, acts: seq<Action>, m: nat, n: nat, scope: Scope, k: Token)
    requires n <= |tr| && n <= |acts|
  {
    exists i :: m <= i < n && SessionCommits(tr[i], acts[i], scope, k)
  }

  predicate LiveInScope(rows: map<Token, Session>, k: Token, scope: Scope) {
    LiveRow(rows, k) && InScope(rows[k], k, scope)
  }

  /** What an update over many rows has revoked or will still look at. */
  ghost function Reach(x: Tx): set<Token> {
    x.dead + (if x.stage.Sweep? then x.stage.targets else {})
  }

  predicate Sweeping(x: Tx) {
    x.add.None? && (x.stage.Sweep? || x.stage.Ready?)
  }

  /** At step m, t selects the live sessions in scope. */
  ghost predicate SelectsAt(tr: seq<World>, acts: seq<Action>, m: nat, t: Tid, scope: Scope)
    requires m < |tr| && m < |acts|
  {
    acts[m].Advance? && acts[m].t == t && t in tr[m].txs && tr[m].txs[t].stage == Select(scope)
  }

  /** At step n, t commits, having been in flight since step m. */
  ghost predicate CommitsAt(tr: seq<World>, acts: seq<Action>, m: nat, n: nat, t: Tid)
    requires n < |tr| && n < |acts|
  {
    && acts[n].Advance? && acts[n].t == t && (forall i :: m <= i <= n ==> t in tr[i].txs)
    && t in tr[n].txs && tr[n].txs[t].stage.Ready?
  }

  lemma SelectReaches(w: World, a: Action, t: Tid, scope: Scope)
    requires Inv(w) && a.Advance? && a.t == t && t in w.txs && w.txs[t].stage == Select(scope)
    ensures var w' := Act(w, a);
            && w'.rows == w.rows && t in w'.txs && Sweeping(w'.txs[t]) && w'.txs[t].req == w.txs[t].req
            && forall k :: LiveInScope(w.rows, k, scope) ==> k in Reach(w'.txs[t])
  {
    hide Apart, RowsOk, RedeemedOk;
    assert TxOk(w, w.txs[t]);
  }

  /** A step keeps the live sessions in scope within reach, unless it commits a session. */
  lemma SweepStep(w: World, a: Action, t: Tid, scope: Scope)
    requires Inv(w) && t in w.txs && Sweeping(w.txs[t]) && t in Act(w, a).txs
    ensures var w' := Act(w, a);
            && Sweeping(w'.txs[t]) && w'.txs[t].req == w.txs[t].req
            && forall k :: LiveInScope(w'.rows, k, scope) ==>
                 || SessionCommits(w, a, scope, k)
                 || (LiveInScope(w.rows, k, scope) && (k in Reach(w.txs[t]) ==> k in Reach(w'.txs[t])))
  {
    hide Apart, RowsOk, RedeemedOk;
    if a.Advance? && a.t in w.txs { assert TxOk(w, w.txs[a.t]); }
  }

  /** Between the selection at m and the commit, a live session in scope is in reach or new. */
  lemma {:induction false} Reached(tr: seq<World>, acts: seq<Action>, m: nat, n: nat, t: Tid, scope: Scope, k: Token)
    requires IsTrace(tr, acts) && m < n < |tr| && SelectsAt(tr, acts, m, t, scope)
    requires forall i :: m <= i <= n ==> t in tr[i].txs
    ensures Sweeping(tr[n].txs[t]) && tr[n].txs[t].req == tr[m].txs[t].req
    ensures LiveInScope(tr[n].rows, k, scope) ==>
              k in Reach(tr[n].txs[t]) || CreatedBetween(tr, acts, m, n, scope, k)
    decreases n
  {
    hide Act, Inv, SessionCommits, Sweeping, Reach, LiveInScope;
    TraceKeeps(tr, acts, n - 1);
    if n - 1 == m {
      SelectReaches(tr[m], acts[m], t, scope);
    } else {
      Reached(tr, acts, m, n - 1, t, scope, k);
      assert tr[n] == Act(tr[n - 1], acts[n - 1]) && t in tr[n].txs;
      SweepStep(tr[n - 1], acts[n - 1], t, scope);
    }
  }

  lemma RowStays(w: World, a: Action, k: Token)
    requires Inv(w) && k in w.rows
    ensures k in Act(w, a).rows
    ensures Act(w, a).rows[k].family == w.rows[k].family && Act(w, a).rows[k].user == w.rows[k].user
  {
    hide Apart, RowsOk, RedeemedOk;
    if a.Advance? && a.t in w.txs { assert TxOk(w, w.txs[a.t]); }
  }

  lemma {:induction false} RowsStay(tr: seq<World>, acts: seq<Action>, i: nat, j: nat, k: Token)
    requires IsTrace(tr, acts) && i <= j < |tr| && k in tr[i].rows
    ensures k in tr[j].rows
    ensures tr[j].rows[k].family == tr[i].rows[k].family && tr[j].rows[k].user == tr[i].rows[k].user
    decreases j
  {
    hide Act, Inv;
    if i < j {
      RowsStay(tr, acts, i, j - 1, k);
      TraceKeeps(tr, acts, j - 1);
      RowStays(tr[j - 1], acts[j - 1], k);
    }
  }

  lemma SweepCommits(w: World, a: Action, t: Tid)
    requires a.Advance? && a.t == t && t in w.txs && Sweeping(w.txs[t]) && w.txs[t].stage.Ready?
    ensures Act(w, a).rows == Revoked(w.rows, Reach(w.txs[t]))
  {
  }

  lemma SessionAdded(w: World, a: Action, scope: Scope, k: Token)
    requires SessionCommits(w, a, scope, k)
    ensures k in Act(w, a).rows && InScope(Act(w, a).rows[k], k, scope)
  {
  }

  /**
   An update over many rows, of a replay, a logout from all devices, a password change or a credential reset, that
   selects at step m and commits at step n. The sessions in its scope that it leaves live are exactly those that a login
   or a rotation created by a commit in between and that are still live.
   */
  lemma SweepMissesExactly(tr: seq<World>, acts: seq<Action>, m: nat, n: nat, t: Tid, scope: Scope, k: Token)
    requires IsTrace(tr, acts) && m < n < |acts| && SelectsAt(tr, acts, m, t, scope) && CommitsAt(tr, acts, m, n, t)
    ensures LiveInScope(tr[n + 1].rows, k, scope) <==>
            CreatedBetween(tr, acts, m, n, scope, k) && LiveRow(tr[n + 1].rows, k)
  {
    hide Act, Inv, SessionCommits;
    Reached(tr, acts, m, n, t, scope, k);
    SweepCommits(tr[n], acts[n], t);
    if CreatedBetween(tr, acts, m, n, scope, k) {
      var i :| m <= i < n && SessionCommits(tr[i], acts[i], scope, k);
      SessionAdded(tr[i], acts[i], scope, k);
      RowsStay(tr, acts, i + 1, n + 1, k);
    }
  }

  /** All sessions of the user but the kept one are revoked. */
  ghost predicate Cleared(w: World, user: User, kept: Option<Token>) {
    forall k :: k in w.rows && w.rows[k].user == user && Some(k) != kept ==> w.rows[k].revoked
  }

  /**
   After a logout from all devices, a password change or a credential reset the user's other sessions are all revoked
   exactly if no session that a login or a rotation of the user created in between is still live.
   */
  lemma ClearsExactly(
      tr: seq<World>, acts: seq<Action>, m: nat, n: nat, t: Tid, user: User, kept: Option<Token>)
    requires IsTrace(tr, acts) && m < n < |acts| && SelectsAt(tr, acts, m, t, OfUser(user, kept))
    requires CommitsAt(tr, acts, m, n, t)
    ensures Cleared(tr[n + 1], user, kept) <==>
            forall k :: CreatedBetween(tr, acts, m, n, OfUser(user, kept), k) ==> !LiveRow(tr[n + 1].rows, k)
  {
    var scope, rows := OfUser(user, kept), tr[n + 1].rows;
    forall k ensures LiveInScope(rows, k, scope) <==> CreatedBetween(tr, acts, m, n, scope, k) && LiveRow(rows, k) {
      SweepMissesExactly(tr, acts, m, n, t, scope, k);
    }
    hide SessionCommits, Act;
    if !Cleared(tr[n + 1], user, kept) {
      var k :| k in rows && rows[k].user == user && Some(k) != kept && !rows[k].revoked;
      assert LiveInScope(rows, k, scope);
    }
    if k :| CreatedBetween(tr, acts, m, n, scope, k) && LiveRow(rows, k) {
      assert LiveInScope(rows, k, scope);
    }
  }

  /** The action commits a rotation that adds the session k to the family. */
  ghost predicate RotationCommits(w: World, a: Action, family: nat, k: Token) {
    SessionCommits(w, a, OfFamily(family), k) && w.txs[a.t].req.Rotate?
  }

  /** Only rotations add to a family that is in use. */
  lemma FamiliesGrowByRotation(w: World, a: Action, family: nat, k: Token)
    requires Inv(w) && exists l :: l in w.rows && w.rows[l].family == family
    ensures SessionCommits(w, a, OfFamily(family), k) <==> RotationCommits(w, a, family, k)
  {
    hide Apart, RowsOk, RedeemedOk;
    if a.Advance? && a.t in w.txs { assert TxOk(w, w.txs[a.t]); }
  }

  /**
   A replay that selects its targets at step m and commits at step n. Its family has not ended exactly if a rotation of
   the family committed in between and a session created that way is still live; without such a rotation it has ended.
   */
  lemma ReplayEndsExactly(tr: seq<World>, acts: seq<Action>, m: nat, n: nat, t: Tid, family: nat)
    requires IsTrace(tr, acts) && m < n < |acts| && SelectsAt(tr, acts, m, t, OfFamily(family))
    requires CommitsAt(tr, acts, m, n, t)
    ensures !Ended(tr[n + 1], family) <==>
            exists i, k :: m <= i < n && RotationCommits(tr[i], acts[i], family, k) && LiveRow(tr[n + 1].rows, k)
    ensures (forall i, k :: m <= i < n ==> !RotationCommits(tr[i], acts[i], family, k)) ==> Ended(tr[n + 1], family)
  {
    hide Act, Inv, SessionCommits, RotationCommits;
    var scope, rows := OfFamily(family), tr[n + 1].rows;
    var token := FamilyInUse(tr, acts, m, t, family);
    RowsStay(tr, acts, m, n + 1, token);
    forall i, k | m <= i < n
      ensures SessionCommits(tr[i], acts[i], scope, k) <==> RotationCommits(tr[i], acts[i], family, k)
    {
      RowsStay(tr, acts, m, i, token);
      TraceKeeps(tr, acts, i);
      FamiliesGrowByRotation(tr[i], acts[i], family, k);
    }
    forall k ensures LiveInScope(rows, k, scope) <==> CreatedBetween(tr, acts, m, n, scope, k) && LiveRow(rows, k) {
      SweepMissesExactly(tr, acts, m, n, t, scope, k);
    }
    if !Ended(tr[n + 1], family) {
      var k :| k in rows && rows[k].family == family && !rows[k].revoked;
      assert LiveInScope(rows, k, scope);
      var i :| m <= i < n && SessionCommits(tr[i], acts[i], scope, k);
      assert RotationCommits(tr[i], acts[i], family, k);
    }
    if i, k :| m <= i < n && RotationCommits(tr[i], acts[i], family, k) && LiveRow(rows, k) {
      assert CreatedBetween(tr, acts, m, n, scope, k);
      assert LiveInScope(rows, k, scope);
    }
  }

  /** An update over a family is a replay's, for a token of the family. */
  lemma FamilyInUse(tr: seq<World>, acts: seq<Action>, m: nat, t: Tid, family: nat) returns (token: Token)
    requires IsTrace(tr, acts) && m < |acts| && m < |tr| && SelectsAt(tr, acts, m, t, OfFamily(family))
    ensures token in tr[m].rows && tr[m].rows[token].family == family
  {
    TraceReplays(tr, acts, m, t);
    token := tr[m].txs[t].req.token;
  }

  lemma EndedStep(w: World, a: Action, family: nat)
    requires Inv(w) && Ended(w, family)
    ensures Ended(Act(w, a), family)
  {
    var k :| k in w.rows && w.rows[k].family == family;
    var w' := Act(w, a);
    assert k in w'.rows && w'.rows[k].family == family;
    forall t | t in w.txs ensures TxOk(w, w.txs[t]) {}
  }

  /** An ended family never has a live session again, whatever was in flight. */
  lemma {:induction false} EndedForEver(tr: seq<World>, acts: seq<Action>, i: nat, j: nat, family: nat)
    requires IsTrace(tr, acts) && i <= j < |tr| && Ended(tr[i], family)
    ensures Ended(tr[j], family)
    decreases j
  {
    hide Act, Ended;
    if i < j {
      EndedForEver(tr, acts, i, j - 1, family);
      TraceKeeps(tr, acts, j - 1);
      EndedStep(tr[j - 1], acts[j - 1], family);
    }
  }

  lemma Extend(tr: seq<World>, acts: seq<Action>, a: Action) returns (tr': seq<World>, acts': seq<Action>)
    requires IsTrace(tr, acts)
    ensures IsTrace(tr', acts') && tr' == tr + [Act(tr[|acts|], a)] && acts' == acts + [a]
  {
    hide Act;
    tr', acts' := tr + [Act(tr[|acts|], a)], acts + [a];
  }

  lemma OneLogin() returns (tr: seq<World>, acts: seq<Action>)
    ensures IsTrace(tr, acts) && tr[|acts|] == World(map[1 := Session(0, 0, false, 9)], 1, map[], [])
  {
    tr, acts := [START], [];
    tr, acts := Extend(tr, acts, Start(1, Enter(0, 1, 9)));
    tr, acts := Extend(tr, acts, Advance(1, 0));
    tr, acts := Extend(tr, acts, Advance(1, 0));
    tr, acts := Extend(tr, acts, Advance(1, 0));
  }

  /** A login and one rotation: token 1 is redeemed, token 2 is live. */
  lemma OneRotation() returns (tr: seq<World>, acts: seq<Action>)
    ensures IsTrace(tr, acts)
    ensures tr[|acts|] == World(map[1 := Session(0, 0, true, 9), 2 := Session(0, 0, false, 9)], 1, map[], [1])
  {
    tr, acts := OneLogin();
    tr, acts := Extend(tr, acts, Start(1, Rotate(1, 5, 2, 9)));
    tr, acts := Extend(tr, acts, Advance(1, 0));
    tr, acts := Extend(tr, acts, Advance(1, 0));
    tr, acts := Extend(tr, acts, Advance(1, 0));
  }

  /** Token 1 is replayed; when its UPDATE has chosen token 2 as its target, a rotation of 2 to 3 commits. */
  lemma RotationOvertakes() returns (tr: seq<World>, acts: seq<Action>)
    ensures IsTrace(tr, acts)
    ensures tr[|acts|].txs == map[1 := Tx(Rotate(1, 5, 9, 9), Sweep({2}), {1}, {}, None)]
    ensures tr[|acts|].rows ==
            map[1 := Session(0, 0, true, 9), 2 := Session(0, 0, true, 9), 3 := Session(0, 0, false, 9)]
  {
    tr, acts := OneRotation();
    tr, acts := Extend(tr, acts, Start(1, Rotate(1, 5, 9, 9)));
    tr, acts := Extend(tr, acts, Advance(1, 0));
    assert tr[|acts|].txs == map[1 := Tx(Rotate(1, 5, 9, 9), Select(OfFamily(0)), {1}, {}, None)];
    tr, acts := Extend(tr, acts, Start(2, Rotate(2, 5, 3, 9)));
    tr, acts := Extend(tr, acts, Advance(2, 0));
    assert tr[|acts|].txs[2] == Tx(Rotate(2, 5, 3, 9), Insert, {2}, {2}, None);
    tr, acts := Extend(tr, acts, Advance(1, 0));
    assert tr[|acts|].txs[1].stage == Sweep({2});
    tr, acts := Extend(tr, acts, Advance(2, 0));
    tr, acts := Extend(tr, acts, Advance(2, 0));
  }

  /** The replay then commits, its caller is told that the session was revoked, and token 3 is live. */
  lemma ReplayCanMiss() returns (tr: seq<World>, acts: seq<Action>, n: nat)
    ensures IsTrace(tr, acts) && n < |acts| && acts[n].Advance? && acts[n].t in tr[n].txs
    ensures var x := tr[n].txs[acts[n].t]; Replaying(x) && x.stage.Ready? && x.req.token == 1 && 1 in tr[n].rows
    ensures !Ended(tr[n + 1], tr[n].rows[1].family) && LiveRow(tr[n + 1].rows, 3)
  {
    tr, acts := RotationOvertakes();
    tr, acts := Extend(tr, acts, Advance(1, 2));
    tr, acts := Extend(tr, acts, Advance(1, 2));
    n := |acts|;
    assert tr[n].txs == map[1 := Tx(Rotate(1, 5, 9, 9), Ready, {1}, {}, None)] && tr[n].rows[1].family == 0;
    tr, acts := Extend(tr, acts, Advance(1, 0));
    assert tr[n + 1].rows[3] == Session(0, 0, false, 9);
  }

  /** A reset selects token 1, a rotation of 1 to 2 commits, the reset commits: token 2 is live. */
  lemma ResetCanMiss() returns (tr: seq<World>, acts: seq<Action>, n: nat)
    ensures IsTrace(tr, acts) && n < |acts| && acts[n].Advance? && acts[n].t in tr[n].txs
    ensures tr[n].txs[acts[n].t].stage.Ready? && tr[n].txs[acts[n].t].req == RevokeAll(0, None)
    ensures !Cleared(tr[n + 1], 0, None) && LiveRow(tr[n + 1].rows, 2)
  {
    tr, acts := OneLogin();
    tr, acts := Extend(tr, acts, Start(1, RevokeAll(0, None)));
    tr, acts := Extend(tr, acts, Advance(1, 0));
    tr, acts := Extend(tr, acts, Advance(1, 0));
    assert tr[|acts|].txs[1].stage.targets == {1};
    tr, acts := Extend(tr, acts, Start(2, Rotate(1, 5, 2, 9)));
    tr, acts := Extend(tr, acts, Advance(2, 0));
    tr, acts := Extend(tr, acts, Advance(2, 0));
    tr, acts := Extend(tr, acts, Advance(2, 0));
    assert tr[|acts|].txs == map[1 := Tx(RevokeAll(0, None), Sweep({1}), {}, {}, None)];
    assert tr[|acts|].rows == map[1 := Session(0, 0, true, 9), 2 := Session(0, 0, false, 9)];
    tr, acts := Extend(tr, acts, Advance(1, 1));
    tr, acts := Extend(tr, acts, Advance(1, 1));
    n := |acts|;
    tr, acts := Extend(tr, acts, Advance(1, 0));
    assert tr[n + 1].rows[2] == Session(0, 0, false, 9);
  }
}
