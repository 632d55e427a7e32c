/** What every statement of every interleaving keeps, and the safety theorems that follow for whole runs. */
module TenancyInvariant {
  import opened Common
  import opened ProjectRules
  import opened Tenancy

  // ---------------------------------------------------------------------------------------------------
  // The invariant
  // ---------------------------------------------------------------------------------------------------

  ghost predicate Live(s: State, org: Org, pid: Pid) {
    pid in s.projects && s.projects[pid].org == org && !s.projects[pid].deleted
  }

  ghost predicate CreatorKey(s: State, k: Key) {
    k.org in s.orgs && s.orgs[k.org].creator == k.user
  }

  ghost predicate OtherThanCreator(s: State, k: Key) {
    k.org in s.orgs && s.orgs[k.org].creator != k.user
  }

  /** Every referrer of k is a project whose own pending row drops k. */
  ghost predicate OnlyReferrer(s: State, x: Tx, k: Key) {
    forall q :: Refers(s, q, k) ==> x.proj == Some(q) && x.row.Some? && x.row.value.client != Some(k.user)
  }

  /** What the held locks of x guarantee about the committed rows, and what its pending writes may be. */
  ghost predicate LocksOk(s: State, x: Tx) {
    && (x.proj.Some? ==>
          !x.req.Remove? && !x.req.Provision? && x.req.pid == x.proj.value
          && Live(s, x.req.org, x.proj.value) && s.projects[x.proj.value].client == x.was)
    && (x.share.Some? ==> ActiveClient(s, x.share.value) && x.share != x.excl)
    && (x.excl.Some? ==> x.excl.value in s.mem)
    && (x.drop.Some? ==> x.drop == x.excl && OnlyReferrer(s, x, x.drop.value) && OtherThanCreator(s, x.drop.value)
                         && (x.req.Assign? || x.req.Remove?))
    && (x.drop.Some? && x.req.Assign? ==> x.drop == Some(Key(x.req.org, x.drop.value.user))
                                          && x.was == Some(x.drop.value.user) && x.row.Some?)
    && (x.add.Some? ==> x.req.Provision? && x.add.value !in s.mem && x.add.value.org in s.orgs)
    && (x.mile.Some? ==> x.proj == Some(x.mile.value.0))
    && (x.row.Some? ==> x.proj.Some? && x.row.value.org == x.req.org && (x.row.value.deleted ==> x.req.Delete?))
    && (x.row.Some? && x.row.value.client != x.was ==> x.req.Assign? && x.row.value.client == x.req.client)
    && (x.row.Some? && x.row.value.client != x.was && x.row.value.client.Some? ==>
          x.share == Some(Key(x.req.org, x.row.value.client.value)))
  }

  ghost predicate Untouched(x: Tx) {
    x.row.None? && x.drop.None? && x.add.None? && x.log == []
  }

  /** The audit entries that x writes, as a function of what it did. */
  ghost function FullLog(x: Tx): seq<Event> {
    var org, actor := x.req.org, x.req.actor;
    match x.req
    case Assign(_, _, pid, client) =>
      (if x.drop.Some? then [Removed(x.drop.value, actor, true)] else [])
      + (if x.row.Some? then [ClientChanged(org, pid, x.was, client, actor)] else [])
    case Remove(_, _, _) => if x.drop.Some? then [Removed(x.drop.value, actor, false)] else []
    case Provision(_, _, _) => if x.add.Some? then [Provisioned(x.add.value, actor)] else []
    case Milestone(_, _, pid, mid, signOff) => if signOff then [SignedOff(org, pid, mid, actor)] else []
    case _ => []
  }

  /** What is known at each program point. */
  ghost predicate PcOk(s: State, x: Tx) {
    match x.pc
    case Begin => x == NewTx(x.req)
    case ShareNew(c) => Untouched(x) && x.req.Assign? && x.proj.Some? && x.share.None? && x.excl.None?
                        && x.req.client == Some(c) && x.was != Some(c) && x.mile.None?
    case WriteClient(after) => Untouched(x) && x.req.Assign? && x.proj.Some? && x.excl.None? && x.mile.None?
                               && x.req.client == after && x.was != after
                               && x.share == (if after.Some? then Some(Key(x.req.org, after.value)) else None)
    case LockOld(d) => x.req.Assign? && x.excl.None? && x.mile.None? && Displacing(x, d)
    case CheckOther(d) => x.req.Assign? && x.excl == Some(Key(x.req.org, d)) && Displacing(x, d)
    case DropOld(d) => x.req.Assign? && x.excl == Some(Key(x.req.org, d)) && Displacing(x, d)
                       && OnlyReferrer(s, x, Key(x.req.org, d))
    case LockMember(u) => x == NewTx(x.req).(pc := LockMember(u)) && x.req.Remove? && x.req.user == u
                          && OtherThanCreator(s, Key(x.req.org, u))
    case CheckProjects(u) => Untouched(x) && x.req.Remove? && x.req.user == u && x.excl == Some(Key(x.req.org, u))
                             && x.proj.None? && OtherThanCreator(s, Key(x.req.org, u))
    case DropMember(u) => Untouched(x) && x.req.Remove? && x.req.user == u && x.excl == Some(Key(x.req.org, u))
                          && x.proj.None? && OtherThanCreator(s, Key(x.req.org, u)) && !Attached(s, Key(x.req.org, u))
    case Insert(u) => x == NewTx(x.req).(pc := Insert(u)) && x.req.Provision? && x.req.user == u
    case WriteRow(row) => Untouched(x) && x.proj.Some? && (x.req.Delete? || x.req.SetStatus?)
                          && row.org == x.req.org && row.client == x.was && (row.deleted ==> x.req.Delete?)
                          && x.share.None? && x.excl.None? && x.mile.None?
    case LockMilestone(m) => Untouched(x) && x.req.Milestone? && x.req.mid == m && x.proj.Some?
                             && x.share.None? && x.excl.None? && x.mile.None?
                             && (x.req.signOff ==> x.was == Some(x.req.actor))
    case LockStaff(u) => Untouched(x) && x.req.Staffing? && x.proj.Some?
                         && x.share.None? && x.excl.None? && x.mile.None?
    case Ready => x.log == FullLog(x)
                  && (x.req.Assign? && x.row.Some? && x.was.Some? ==> x.excl == Some(Key(x.req.org, x.was.value)))
                  && (x.req.Milestone? && x.req.signOff ==> x.was == Some(x.req.actor) && x.proj.Some?)
  }

  /** The pending row of an AssignClient that displaces d and has not decided about d's membership. */
  ghost predicate Displacing(x: Tx, d: User) {
    && x.req.Assign? && x.proj.Some? && x.row.Some? && x.was == Some(d)
    && x.row.value.client == x.req.client && x.req.client != Some(d)
    && x.drop.None? && x.add.None? && x.log == []
    && x.share == (if x.req.client.Some? then Some(Key(x.req.org, x.req.client.value)) else None)
  }

  /** Conflicting locks are never held together, and two inserts of one key never pend together. */
  ghost predicate Compatible(x: Tx, y: Tx) {
    && (x.proj.Some? ==> x.proj != y.proj)
    && (x.excl.Some? ==> x.excl != y.excl && x.excl != y.share)
    && (x.mile.Some? ==> x.mile != y.mile)
    && (x.add.Some? ==> x.add != y.add)
  }

  /** Every live project's client is an active client member of its organization. */
  ghost predicate NoOrphan(s: State) {
    forall q, k :: Refers(s, q, k) ==> ActiveClient(s, k)
  }

  /** The organization's creator reached u through a finite chain of owner grants. */
  ghost predicate Traced(creator: User, org: Org, grants: seq<Grant>, u: User)
    decreases |grants|
  {
    u == creator ||
    exists i :: 0 <= i < |grants| && grants[i].org == org && grants[i].to == u
                && Traced(creator, org, grants[..i], grants[i].granter)
  }

  ghost predicate OwnersOk(s: State) {
    && (forall o :: o in s.orgs ==> ActiveOwner(s, Key(o, s.orgs[o].creator)))
    && (forall k :: k in s.mem ==> k.org in s.orgs)
    && (forall k :: k in s.mem && s.mem[k].role == Owner ==>
          Traced(s.orgs[k.org].creator, k.org, s.grants, k.user))
    && (forall k :: k in s.mem && s.orgs[k.org].personal ==> CreatorKey(s, k) || s.mem[k].role == Client)
  }

  ghost predicate Inv(s: State) {
    && NoOrphan(s)
    && OwnersOk(s)
    && (forall t :: t in s.txs ==> LocksOk(s, s.txs[t]) && PcOk(s, s.txs[t]))
    && (forall t, u :: t in s.txs && u in s.txs && t != u ==> Compatible(s.txs[t], s.txs[u]))
  }

  // ---------------------------------------------------------------------------------------------------
  // Every statement keeps it
  // ---------------------------------------------------------------------------------------------------

  /** A statement before the commit changes only its own transaction record. */
  lemma PutKeeps(s: State, t: Tid, x: Tx)
    requires Inv(s) && t in s.txs
    requires LocksOk(s, x) && PcOk(s, x)
    requires forall u :: u in s.txs && u != t ==> Compatible(x, s.txs[u]) && Compatible(s.txs[u], x)
    ensures Inv(Put(s, t, x))
  {
    var s' := Put(s, t, x);
    forall u | u in s'.txs ensures LocksOk(s', s'.txs[u]) && PcOk(s', s'.txs[u]) {
      var y := s'.txs[u];
      assert LocksOk(s, y) && PcOk(s, y);
      SameTables(s, s', y);
    }
    assert NoOrphan(s') by {
      forall q, k | Refers(s', q, k) ensures ActiveClient(s', k) { assert Refers(s, q, k); }
    }
  }

  lemma SameTables(s: State, s': State, y: Tx)
    requires s'.mem == s.mem && s'.projects == s.projects && s'.orgs == s.orgs
    requires LocksOk(s, y) && PcOk(s, y)
    ensures LocksOk(s', y) && PcOk(s', y)
  {
    forall q, k ensures Refers(s, q, k) == Refers(s', q, k) {}
    if y.drop.Some? { assert OnlyReferrer(s', y, y.drop.value) by {
      forall q | Refers(s', q, y.drop.value)
        ensures y.proj == Some(q) && y.row.Some? && y.row.value.client != Some(y.drop.value.user)
      { assert Refers(s, q, y.drop.value); }
    } }
  }

  lemma FailKeeps(s: State, t: Tid, e: Error)
    requires Inv(s)
    ensures Inv(Fail(s, t, e))
  {
    var s' := Fail(s, t, e);
    forall u | u in s'.txs ensures LocksOk(s', s'.txs[u]) && PcOk(s', s'.txs[u]) { SameTables(s, s', s.txs[u]); }
    forall q, k | Refers(s', q, k) ensures ActiveClient(s', k) { assert Refers(s, q, k); }
  }

  /** A statement takes no lock but the one it asked for. */
  ghost predicate TakesOnlyWanted(x: Tx, y: Tx) {
    && (y.proj == x.proj || (y.proj.Some? && Wants(x) == WantProject(y.proj.value)))
    && (y.share == x.share || (y.share.Some? && Wants(x) == WantShare(y.share.value)))
    && (y.excl == x.excl || (y.excl.Some? && Wants(x) == WantExcl(y.excl.value)))
    && (y.mile == x.mile || (y.mile.Some? && Wants(x) == WantMilestone(y.mile.value)))
    && (y.add == x.add || (y.add.Some? && Wants(x) == WantInsert(y.add.value)))
  }

  /** Taking a free lock leaves all pairs of transactions compatible. */
  lemma AcquireKeeps(s: State, t: Tid, x: Tx)
    requires Inv(s) && t in s.txs && !MustWait(s, t)
    requires LocksOk(s, x) && PcOk(s, x)
    requires TakesOnlyWanted(s.txs[t], x)
    ensures Inv(Put(s, t, x))
  {
    forall u | u in s.txs && u != t ensures Compatible(x, s.txs[u]) && Compatible(s.txs[u], x) {
      assert !WaitsFor(s, t, u);
      assert Compatible(s.txs[t], s.txs[u]) && Compatible(s.txs[u], s.txs[t]);
    }
    PutKeeps(s, t, x);
  }

  /** The client of a live project has a membership row, so a displaced client's row is always found. */
  lemma DisplacedIsMember(s: State, x: Tx, d: User)
    requires NoOrphan(s) && LocksOk(s, x) && x.proj.Some? && x.was == Some(d)
    ensures Refers(s, x.proj.value, Key(x.req.org, d)) && ActiveClient(s, Key(x.req.org, d))
  {
    assert Refers(s, x.proj.value, Key(x.req.org, d));
  }

  ghost predicate EffectGood(s: State, x: Tx, y: Tx) {
    LocksOk(s, y) && PcOk(s, y) && TakesOnlyWanted(x, y)
  }

  lemma LockProjectOk(s: State, req: Request)
    requires !req.Remove? && !req.Provision? && LockProject(s, NewTx(req)).Ok?
    ensures EffectGood(s, NewTx(req), LockProject(s, NewTx(req)).value)
  {
  }

  lemma BeginOk(s: State, req: Request)
    requires OwnersOk(s) && (req.Remove? || req.Provision?) && Effect(s, NewTx(req)).Ok?
    ensures EffectGood(s, NewTx(req), Effect(s, NewTx(req)).value)
  {
  }

  lemma AssignOk(s: State, x: Tx)
    requires NoOrphan(s) && LocksOk(s, x) && PcOk(s, x) && (x.pc.ShareNew? || x.pc.WriteClient? || x.pc.LockOld?)
    requires Effect(s, x).Ok?
    ensures EffectGood(s, x, Effect(s, x).value)
  {
    if x.pc.LockOld? { DisplacedIsMember(s, x, x.pc.displaced); }
  }

  /** Ending without a drop is good for a displacement that holds the displaced row. */
  lemma LogAssignOk(s: State, x: Tx, d: User)
    requires LocksOk(s, x) && Displacing(x, d) && x.excl == Some(Key(x.req.org, d))
    ensures EffectGood(s, x, LogAssign(x))
  {
  }

  lemma CheckOtherOk(s: State, x: Tx)
    requires NoOrphan(s) && LocksOk(s, x) && PcOk(s, x) && x.pc.CheckOther?
    ensures Effect(s, x).Ok? && EffectGood(s, x, Effect(s, x).value)
  {
    hide EffectGood, LocksOk, FullLog;
    if Effect(s, x) == Ok(LogAssign(x)) { LogAssignOk(s, x, x.pc.displaced); } else { DropOldNext(s, x); }
  }

  lemma DropOldNext(s: State, x: Tx)
    requires LocksOk(s, x) && PcOk(s, x) && x.pc.CheckOther?
    requires forall q: Pid :: x.proj != Some(q) ==> !Refers(s, q, Key(x.req.org, x.pc.displaced))
    ensures EffectGood(s, x, x.(pc := DropOld(x.pc.displaced)))
  {
    hide FullLog;
  }

  lemma DropOldOk(s: State, x: Tx)
    requires NoOrphan(s) && OwnersOk(s) && LocksOk(s, x) && PcOk(s, x) && x.pc.DropOld?
    ensures Effect(s, x).Ok? && EffectGood(s, x, Effect(s, x).value)
  {
    DisplacedIsMember(s, x, x.pc.displaced);
  }

  lemma RemovalOk(s: State, x: Tx)
    requires OwnersOk(s) && LocksOk(s, x) && PcOk(s, x)
    requires x.pc.LockMember? || x.pc.CheckProjects? || x.pc.DropMember?
    requires Effect(s, x).Ok?
    ensures EffectGood(s, x, Effect(s, x).value)
  {
  }

  lemma OtherOk(s: State, x: Tx)
    requires OwnersOk(s) && LocksOk(s, x) && PcOk(s, x)
    requires x.pc.Insert? || x.pc.WriteRow? || x.pc.LockMilestone? || x.pc.LockStaff?
    requires Effect(s, x).Ok?
    ensures EffectGood(s, x, Effect(s, x).value)
  {
  }

  lemma EffectOk(s: State, x: Tx)
    requires NoOrphan(s) && OwnersOk(s) && LocksOk(s, x) && PcOk(s, x) && !x.pc.Ready? && Effect(s, x).Ok?
    ensures EffectGood(s, x, Effect(s, x).value)
  {
    match x.pc
    case Begin => if x.req.Remove? || x.req.Provision? { BeginOk(s, x.req); } else { LockProjectOk(s, x.req); }
    case ShareNew(_) => AssignOk(s, x);
    case WriteClient(_) => AssignOk(s, x);
    case LockOld(_) => AssignOk(s, x);
    case CheckOther(_) => CheckOtherOk(s, x);
    case DropOld(_) => DropOldOk(s, x);
    case LockMember(_) => RemovalOk(s, x);
    case CheckProjects(_) => RemovalOk(s, x);
    case DropMember(_) => RemovalOk(s, x);
    case _ => OtherOk(s, x);
  }

  // ---------------------------------------------------------------------------------------------------
  // Commit
  // ---------------------------------------------------------------------------------------------------

  /** A client that a live project refers to after the commit is an active client after the commit. */
  lemma CommitNoOrphan(s: State, t: Tid)
    requires Inv(s) && t in s.txs
    ensures NoOrphan(Commit(s, t))
  {
    var x, s' := s.txs[t], Commit(s, t);
    assert LocksOk(s, x);
    forall q, k | Refers(s', q, k) ensures ActiveClient(s', k) {
      if x.proj == Some(q) && x.row.Some? && x.row.value.client != x.was {
        assert x.share == Some(k);
      } else {
        assert Refers(s, q, k);
      }
    }
  }

  lemma CommitOwners(s: State, t: Tid)
    requires Inv(s) && t in s.txs
    ensures OwnersOk(Commit(s, t))
  {
    var x := s.txs[t];
    assert LocksOk(s, x);
  }

  /** Another transaction's locks and findings survive the commit of t. */
  lemma CommitOthers(s: State, t: Tid, u: Tid)
    requires Inv(s) && t in s.txs && u in s.txs && t != u
    ensures LocksOk(Commit(s, t), s.txs[u]) && PcOk(Commit(s, t), s.txs[u])
  {
    var x, y, s' := s.txs[t], s.txs[u], Commit(s, t);
    assert LocksOk(s, x) && LocksOk(s, y) && PcOk(s, y);
    assert Compatible(x, y) && Compatible(y, x);
    if y.excl.Some? {
      var k := y.excl.value;
      // only a transaction with FOR SHARE on k may start to refer to it
      assert x.share != Some(k);
      forall q: Pid | Refers(s', q, k) ensures Refers(s, q, k) {}
    }
  }

  lemma CommitKeeps(s: State, t: Tid)
    requires Inv(s) && t in s.txs
    ensures Inv(Commit(s, t))
  {
    CommitNoOrphan(s, t);
    CommitOwners(s, t);
    forall u | u in s.txs && u != t ensures LocksOk(Commit(s, t), s.txs[u]) && PcOk(Commit(s, t), s.txs[u]) {
      CommitOthers(s, t, u);
    }
  }

  lemma StatementKeeps(s: State, t: Tid)
    requires Inv(s) && t in s.txs && !MustWait(s, t)
    ensures Inv(Statement(s, t))
  {
    var x := s.txs[t];
    assert LocksOk(s, x) && PcOk(s, x);
    if x.pc.Ready? {
      CommitKeeps(s, t);
    } else {
      match Effect(s, x)
      case Ok(y) => EffectOk(s, x); AcquireKeeps(s, t, y);
      case Err(e) => FailKeeps(s, t, e);
    }
  }

  // ---------------------------------------------------------------------------------------------------
  // The atomic actions
  // ---------------------------------------------------------------------------------------------------

  /** More grants never cut a chain. */
  lemma {:induction false} TracedGrows(creator: User, org: Org, grants: seq<Grant>, g: Grant, u: User)
    requires Traced(creator, org, grants, u)
    ensures Traced(creator, org, grants + [g], u)
  {
    if u != creator {
      var i :| 0 <= i < |grants| && grants[i].org == org && grants[i].to == u
               && Traced(creator, org, grants[..i], grants[i].granter);
      assert (grants + [g])[..i] == grants[..i];
      assert (grants + [g])[i] == grants[i];
    }
  }

  /** A grant by a traced owner makes its receiver traced. */
  lemma GrantTraces(creator: User, org: Org, grants: seq<Grant>, granter: User, to: User)
    requires Traced(creator, org, grants, granter)
    ensures Traced(creator, org, grants + [Grant(org, granter, to)], to)
  {
    var i, more := |grants|, grants + [Grant(org, granter, to)];
    assert more[..i] == grants && more[i].org == org && more[i].to == to;
  }

  predicate StaffAction(a: Action) {
    a.AddMember? || a.RemoveMember? || a.ChangeRole?
  }

  lemma StaffTraced(s: State, a: Action, k: Key)
    requires OwnersOk(s) && StaffAction(a) && StaffChange(s, a).Ok?
    requires k in StaffChange(s, a).value.mem && StaffChange(s, a).value.mem[k].role == Owner
    ensures k.org in s.orgs && Traced(s.orgs[k.org].creator, k.org, StaffChange(s, a).value.grants, k.user)
  {
    hide Traced;
    var creator, grants := s.orgs[k.org].creator, StaffChange(s, a).value.grants;
    if grants != s.grants {
      assert Traced(s.orgs[a.org].creator, a.org, s.grants, a.actor);
      if k == Key(a.org, a.user) {
        GrantTraces(creator, k.org, s.grants, a.actor, a.user);
      } else {
        TracedGrows(creator, k.org, s.grants, Grant(a.org, a.actor, a.user), k.user);
      }
    }
  }

  /** Owners and creators stay, and personal workspaces get no staff. */
  lemma StaffKeepsRoles(s: State, a: Action)
    requires OwnersOk(s) && StaffAction(a) && StaffChange(s, a).Ok?
    ensures var mem := StaffChange(s, a).value.mem;
            && (forall o :: o in s.orgs ==>
                  Key(o, s.orgs[o].creator) in mem && mem[Key(o, s.orgs[o].creator)] == Membership(Owner, MemberStatus.Active))
            && (forall k :: k in mem ==> k.org in s.orgs)
            && (forall k :: k in mem && s.orgs[k.org].personal ==> CreatorKey(s, k) || mem[k].role == Client)
  {
    hide Traced;
    forall o | o in s.orgs ensures ActiveOwner(s, Key(o, s.orgs[o].creator)) {}
  }

  lemma StaffOwners(s: State, a: Action)
    requires Inv(s) && StaffAction(a) && StaffChange(s, a).Ok?
    ensures OwnersOk(s.(mem := StaffChange(s, a).value.mem, grants := StaffChange(s, a).value.grants))
  {
    hide LocksOk, PcOk, Compatible, NoOrphan, StaffChange, Traced;
    var c := StaffChange(s, a).value;
    StaffKeepsRoles(s, a);
    forall k | k in c.mem && c.mem[k].role == Owner
      ensures Traced(s.orgs[k.org].creator, k.org, c.grants, k.user)
    {
      StaffTraced(s, a, k);
    }
  }

  /** A transaction that holds no lock on k does not notice a change of row k. */
  lemma OtherRowsKeep(s: State, s': State, k: Key, y: Tx)
    requires s'.projects == s.projects && (forall o :: o in s.orgs ==> o in s'.orgs && s'.orgs[o] == s.orgs[o])
    requires forall j :: j != k ==> (j in s.mem <==> j in s'.mem) && (j in s.mem ==> s'.mem[j] == s.mem[j])
    requires y.share != Some(k) && y.excl != Some(k) && y.add != Some(k)
    requires LocksOk(s, y) && PcOk(s, y)
    ensures LocksOk(s', y) && PcOk(s', y)
  {
    assert forall q, j :: Refers(s', q, j) ==> Refers(s, q, j);
  }

  /** Changing an unlocked row that is not an active client keeps the invariant, if it keeps the owners. */
  lemma RowChangeKeeps(s: State, s': State, k: Key)
    requires Inv(s) && OwnersOk(s') && !ActiveClient(s, k)
    requires s'.txs == s.txs && s'.projects == s.projects
    requires forall o :: o in s.orgs ==> o in s'.orgs && s'.orgs[o] == s.orgs[o]
    requires forall j :: j != k ==> (j in s.mem <==> j in s'.mem) && (j in s.mem ==> s'.mem[j] == s.mem[j])
    requires forall u :: u in s.txs ==> s.txs[u].share != Some(k) && s.txs[u].excl != Some(k) && s.txs[u].add != Some(k)
    ensures Inv(s')
  {
    forall q, j | Refers(s', q, j) ensures ActiveClient(s', j) { assert Refers(s, q, j); }
    forall u | u in s'.txs ensures LocksOk(s', s'.txs[u]) && PcOk(s', s'.txs[u]) {
      OtherRowsKeep(s, s', k, s.txs[u]);
    }
  }

  /** A staff change touches one row, which is not an active client's. */
  lemma StaffRow(s: State, a: Action)
    requires StaffAction(a) && StaffChange(s, a).Ok?
    ensures !ActiveClient(s, Key(a.org, a.user))
    ensures var mem := StaffChange(s, a).value.mem;
            forall j :: j != Key(a.org, a.user) ==> (j in s.mem <==> j in mem) && (j in s.mem ==> mem[j] == s.mem[j])
  {
  }

  lemma StaffKeeps(s: State, a: Action)
    requires Inv(s) && StaffAction(a) && !RowHeld(s, Key(a.org, a.user)) && StaffChange(s, a).Ok?
    ensures Inv(Next(s, a))
  {
    hide LocksOk, PcOk, NoOrphan, OwnersOk, Compatible, StaffChange;
    StaffOwners(s, a);
    StaffRow(s, a);
    var s', c := Next(s, a), StaffChange(s, a).value;
    OwnersDependOn(s.(mem := c.mem, grants := c.grants), s');
    RowChangeKeeps(s, s', Key(a.org, a.user));
  }

  lemma OwnersDependOn(s: State, s': State)
    requires OwnersOk(s) && s'.orgs == s.orgs && s'.mem == s.mem && s'.grants == s.grants
    ensures OwnersOk(s')
  {
  }

  lemma CreateOrgKeeps(s: State, org: Org, creator: User, personal: bool)
    requires Inv(s) && org !in s.orgs
    ensures Inv(Next(s, CreateOrg(org, creator, personal)))
  {
    hide PcOk, LocksOk, Compatible, NoOrphan, OwnersOk;
    CreateOrgOwners(s, org, creator, personal);
    var k := Key(org, creator);
    forall u | u in s.txs ensures s.txs[u].share != Some(k) && s.txs[u].excl != Some(k) && s.txs[u].add != Some(k) {
      HeldKeys(s, s.txs[u], k);
    }
    RowChangeKeeps(s, Next(s, CreateOrg(org, creator, personal)), k);
  }

  lemma CreateOrgOwners(s: State, org: Org, creator: User, personal: bool)
    requires OwnersOk(s) && org !in s.orgs
    ensures OwnersOk(Next(s, CreateOrg(org, creator, personal))) && Key(org, creator) !in s.mem
  {
    assert Key(org, creator) !in s.mem;
  }

  /** Rows of organizations that do not exist are not held. */
  lemma HeldKeys(s: State, x: Tx, k: Key)
    requires LocksOk(s, x) && k !in s.mem && k.org !in s.orgs
    ensures x.share != Some(k) && x.excl != Some(k) && x.add != Some(k)
  {
  }

  lemma CreateProjectKeeps(s: State, pid: Pid, org: Org)
    requires Inv(s) && pid !in s.projects
    ensures Inv(Next(s, CreateProject(pid, org)))
  {
    hide LocksOk, PcOk, OwnersOk, Compatible;
    var s' := Next(s, CreateProject(pid, org));
    forall q, k | Refers(s', q, k) ensures ActiveClient(s', k) { assert Refers(s, q, k); }
    forall u | u in s'.txs ensures LocksOk(s', s'.txs[u]) && PcOk(s', s'.txs[u]) {
      if org in s.orgs { NewProjectKeeps(s, s', pid, s.txs[u]); }
    }
    OwnersDependOn(s, s');
  }

  lemma NewProjectKeeps(s: State, s': State, pid: Pid, y: Tx)
    requires pid !in s.projects && s'.mem == s.mem && s'.orgs == s.orgs
    requires pid in s'.projects && s'.projects == s.projects[pid := s'.projects[pid]] && s'.projects[pid].client.None?
    requires LocksOk(s, y) && PcOk(s, y)
    ensures LocksOk(s', y) && PcOk(s', y)
  {
    assert forall q, k :: Refers(s', q, k) ==> Refers(s, q, k);
  }

  lemma NextKeeps(s: State, a: Action)
    requires Inv(s)
    ensures Inv(Next(s, a))
  {
    match a
    case Start(t, req) => if t !in s.txs && t !in s.done { StartKeeps(s, t, req); }
    case Step(t) => if t in s.txs && !MustWait(s, t) { StatementKeeps(s, t); }
    case Abort(t) => FailKeeps(s, t, DatabaseError);
    case CreateOrg(org, creator, personal) => if org !in s.orgs { CreateOrgKeeps(s, org, creator, personal); }
    case CreateProject(pid, org) => if pid !in s.projects { CreateProjectKeeps(s, pid, org); }
    case _ => if !RowHeld(s, Key(a.org, a.user)) && StaffChange(s, a).Ok? { StaffKeeps(s, a); }
  }

  lemma NewTxOk(s: State, req: Request)
    ensures LocksOk(s, NewTx(req)) && PcOk(s, NewTx(req))
    ensures forall y: Tx :: Compatible(NewTx(req), y) && Compatible(y, NewTx(req))
  {
  }

  lemma StartKeeps(s: State, t: Tid, req: Request)
    requires Inv(s) && t !in s.txs
    ensures Inv(Put(s, t, NewTx(req)))
  {
    hide LocksOk, PcOk, OwnersOk, Compatible;
    var s' := Put(s, t, NewTx(req));
    NewTxOk(s', req);
    forall u | u in s'.txs ensures LocksOk(s', s'.txs[u]) && PcOk(s', s'.txs[u]) {
      if u != t { SameTables(s, s', s.txs[u]); }
    }
    forall q, k | Refers(s', q, k) ensures ActiveClient(s', k) { assert Refers(s, q, k); }
    OwnersDependOn(s, s');
  }
}
