/**
 AssignClient, client removal, provisioning and the staff-membership operations as their services write them, each
 proved to do what its transaction does in the statement-level machine of the module Tenancy when it runs alone.
 */
module TenancyService {
  import opened Common
  import opened ProjectRules
  import opened Tenancy

  // ---------------------------------------------------------------------------------------------------
  // A transaction that runs alone
  // ---------------------------------------------------------------------------------------------------

  /** How many statements may still follow. */
  function Rank(pc: Pc): nat {
    match pc
    case Begin => 9
    case ShareNew(_) => 8
    case WriteClient(_) => 7
    case LockOld(_) => 6
    case CheckOther(_) => 5
    case DropOld(_) => 4
    case LockMember(_) => 3
    case CheckProjects(_) => 2
    case DropMember(_) => 1
    case Insert(_) => 1
    case WriteRow(_) => 1
    case LockMilestone(_) => 1
    case LockStaff(_) => 1
    case Ready => 0
  }

  lemma EffectAdvances(s: State, x: Tx)
    requires !x.pc.Ready? && Effect(s, x).Ok?
    ensures Rank(Effect(s, x).value.pc) < Rank(x.pc)
  {
  }

  /** The state after the remaining statements of t, none of which has to wait. */
  ghost function Finish(s: State, t: Tid): State
    requires t in s.txs
    decreases Rank(s.txs[t].pc)
  {
    var x := s.txs[t];
    if x.pc.Ready? then Commit(s, t)
    else
      match Effect(s, x)
      case Ok(y) => EffectAdvances(s, x); Finish(Put(s, t, y), t)
      case Err(e) => Fail(s, t, e)
  }

  /** Finish is what the machine does: it takes the steps of t, which alone never waits. */
  lemma {:induction false} FinishIsARun(s: State, t: Tid) returns (tr: seq<State>, acts: seq<Action>)
    requires s.txs.Keys == {t}
    ensures IsRun(s, tr, acts) && tr[|acts|] == Finish(s, t) && forall a :: a in acts ==> a == Step(t)
    decreases Rank(s.txs[t].pc)
  {
    hide Effect, Commit;
    var s' := Next(s, Step(t));
    assert !MustWait(s, t);
    if !s.txs[t].pc.Ready? && Effect(s, s.txs[t]).Ok? {
      EffectAdvances(s, s.txs[t]);
      tr, acts := FinishIsARun(s', t);
      tr, acts := [s] + tr, [Step(t)] + acts;
    } else {
      tr, acts := [s, s'], [Step(t)];
    }
  }

  /** The machine's state for the tables alone, and for one new transaction on them. */
  function Tables(orgs: map<Org, OrgRow>, mem: map<Key, Membership>, projects: map<Pid, ProjectRow>, log: seq<Event>): State
  {
    State(orgs, mem, projects, [], log, map[], map[])
  }

  /** The rest of a transaction that has reached x, on the tables as they are. */
  ghost function Rest(tables: State, x: Tx): State {
    Finish(Put(tables, 0, x), 0)
  }

  lemma Proceed(tables: State, x: Tx, y: Tx)
    requires !x.pc.Ready? && Effect(Put(tables, 0, x), x) == Ok(y)
    ensures Rest(tables, x) == Rest(tables, y)
  {
    hide Effect;
    assert Put(Put(tables, 0, x), 0, y) == Put(tables, 0, y);
  }

  lemma Stop(tables: State, x: Tx, e: Error)
    requires tables.txs == map[] && !x.pc.Ready? && Effect(Put(tables, 0, x), x) == Err(e)
    ensures Rest(tables, x) == tables.(done := tables.done[0 := Failed(e)])
  {
    hide Effect;
  }

  lemma Publish(tables: State, x: Tx)
    requires tables.txs == map[] && x.pc.Ready?
    ensures Rest(tables, x) == Commit(Put(tables, 0, x), 0)
    ensures Rest(tables, x).txs == map[]
  {
  }

  // The next statement of a transaction on its own, case by case.

  lemma FirstStatement(tables: State, x: Tx)
    requires x.pc.Begin? && !x.req.Remove? && !x.req.Provision?
    ensures Effect(Put(tables, 0, x), x) == LockProject(tables, x)
  {
  }

  lemma ShareStatement(tables: State, x: Tx, c: User)
    requires x.pc == ShareNew(c)
    ensures var k := Key(x.req.org, c);
            Effect(Put(tables, 0, x), x) ==
            if ActiveClient(tables, k) then Ok(x.(share := Some(k), pc := WriteClient(Some(c)))) else Err(ClientNotFound)
  {
  }

  lemma WriteStatement(tables: State, x: Tx, after: Option<User>)
    requires x.pc == WriteClient(after) && x.req.Assign? && x.proj.Some? && x.proj.value in tables.projects
    ensures var y := x.(row := Some(tables.projects[x.proj.value].(client := after)));
            Effect(Put(tables, 0, x), x) == Ok(if x.was.Some? then y.(pc := LockOld(x.was.value)) else LogAssign(y))
  {
  }

  lemma PruneStatements(tables: State, x: Tx, d: User)
    requires x.req.Assign? && !x.pc.Ready?
    ensures var e, k := Effect(Put(tables, 0, x), x), Key(x.req.org, d);
            && (x.pc == LockOld(d) ==>
                  e == Ok(if k in tables.mem then x.(excl := Some(k), pc := CheckOther(d)) else LogAssign(x)))
            && (x.pc == CheckOther(d) ==>
                  e == Ok(if exists q :: x.proj != Some(q) && Refers(tables, q, k) then LogAssign(x)
                          else x.(pc := DropOld(d))))
            && (x.pc == DropOld(d) && k in tables.mem ==>
                  e == Ok(LogAssign(x.(drop := Some(k), log := x.log + [Removed(k, x.req.actor, true)]))))
  {
    assert forall q, k :: Refers(Put(tables, 0, x), q, k) <==> Refers(tables, q, k);
  }

  lemma RemovalStatements(tables: State, x: Tx, u: User)
    requires !x.pc.Ready?
    ensures var e, k := Effect(Put(tables, 0, x), x), Key(x.req.org, u);
            && (x.pc.Begin? && x.req.Remove? && x.req.user == u ==>
                  e == if ActiveClient(tables, k) then Ok(x.(pc := LockMember(u))) else Err(ClientNotFound))
            && (x.pc == LockMember(u) && k in tables.mem ==> e == Ok(x.(excl := Some(k), pc := CheckProjects(u))))
            && (x.pc == CheckProjects(u) ==>
                  e == if Attached(tables, k) then Err(ClientAttachedToProject) else Ok(x.(pc := DropMember(u))))
            && (x.pc == DropMember(u) && k in tables.mem ==>
                  e == Ok(x.(drop := Some(k), pc := Ready, log := x.log + [Removed(k, x.req.actor, false)])))
  {
    assert forall q, k :: Refers(Put(tables, 0, x), q, k) <==> Refers(tables, q, k);
  }

  lemma ProvisionStatements(tables: State, x: Tx, u: User)
    requires !x.pc.Ready?
    ensures var e, k := Effect(Put(tables, 0, x), x), Key(x.req.org, u);
            && (x.pc.Begin? && x.req.Provision? && x.req.user == u ==>
                  e == if k in tables.mem then Err(AlreadyMember) else Ok(x.(pc := Insert(u))))
            && (x.pc == Insert(u) && k !in tables.mem ==>
                  e == if k.org !in tables.orgs then Err(DatabaseError)
                       else Ok(x.(add := Some(k), pc := Ready, log := x.log + [Provisioned(k, x.req.actor)])))
  {
  }

  /** A transaction that has reached x and only commits from there. */
  lemma Publishes(tables: State, x: Tx)
    requires tables.txs == map[] && tables.done == map[] && x.pc.Ready? && x.add.None?
    ensures var end := Rest(tables, x);
            && end.txs == map[] && end.done == map[0 := Committed] && end.orgs == tables.orgs
            && end.mem == (if x.drop.Some? then tables.mem - {x.drop.value} else tables.mem)
            && end.projects == (if x.proj.Some? && x.row.Some? then tables.projects[x.proj.value := x.row.value]
                                else tables.projects)
            && end.log == tables.log + x.log
  {
    Publish(tables, x);
  }

  /** A transaction that commits right after its first statement, which writes nothing. */
  lemma Unchanged(tables: State, x: Tx, y: Tx)
    requires tables.txs == map[] && tables.done == map[] && !x.pc.Ready? && Effect(Put(tables, 0, x), x) == Ok(y)
    requires y.pc.Ready? && y.add.None? && y.drop.None? && y.row.None? && y.log == []
    ensures Rest(tables, x) == tables.(done := map[0 := Committed])
  {
    hide Effect;
    Proceed(tables, x, y);
    Publishes(tables, y);
    assert tables.log + y.log == tables.log;
    PublishesGrants(tables, y);
  }

  lemma PublishesGrants(tables: State, x: Tx)
    requires tables.txs == map[] && x.pc.Ready?
    ensures Rest(tables, x).grants == tables.grants
  {
    Publish(tables, x);
  }

  // ---------------------------------------------------------------------------------------------------
  // Users
  // ---------------------------------------------------------------------------------------------------

  /** A users row: identifiers and the forced password change. */
  datatype Identity = Identity(email: Option<string>, phone: Option<string>, mustChange: bool)

  /** The unique indexes and the CHECK constraint on users. */
  ghost predicate UsersOk(users: map<User, Identity>) {
    && (forall u, v :: u in users && v in users && users[u].email.Some? && users[u].email == users[v].email ==> u == v)
    && (forall u, v :: u in users && v in users && users[u].phone.Some? && users[u].phone == users[v].phone ==> u == v)
    && (forall u :: u in users ==> users[u].email.Some? || users[u].phone.Some?)
  }

  predicate HasEmail(users: map<User, Identity>, u: User, email: string) {
    u in users && email != "" && users[u].email == Some(email)
  }

  predicate HasPhone(users: map<User, Identity>, u: User, phone: string) {
    u in users && phone != "" && users[u].phone == Some(phone)
  }

  /** u is the user that the identifiers resolve to: by e-mail, else by phone. */
  ghost predicate Resolves(users: map<User, Identity>, email: string, phone: string, u: User) {
    HasEmail(users, u, email) || (HasPhone(users, u, phone) && forall v :: !HasEmail(users, v, email))
  }

  function Nullable(s: string): Option<string> {
    if s == "" then None else Some(s)
  }

  lemma NewUserOk(users: map<User, Identity>, u: User, email: string, phone: string)
    requires UsersOk(users) && u !in users && (email != "" || phone != "")
    requires forall v :: !HasEmail(users, v, email) && !HasPhone(users, v, phone)
    ensures UsersOk(users[u := Identity(Nullable(email), Nullable(phone), true)])
  {
    forall v | v in users
      ensures users[v].email.Some? ==> users[v].email != Nullable(email)
      ensures users[v].phone.Some? ==> users[v].phone != Nullable(phone)
    {
      assert !HasEmail(users, v, email) && !HasPhone(users, v, phone);
    }
  }

  datatype ProvisionResult = ProvisionResult(client: User, credentialIssued: bool)

  // ---------------------------------------------------------------------------------------------------
  // The services
  // ---------------------------------------------------------------------------------------------------

  class Service {
    var orgs: map<Org, OrgRow>
    var mem: map<Key, Membership>
    var projects: map<Pid, ProjectRow>
    var log: seq<Event>
    var users: map<User, Identity>
    ghost var grants: seq<Grant>

    /** What the schema guarantees about users: unique identifiers, and every member is a user. */
    ghost predicate Valid()
      reads this
    {
      UsersOk(users) && forall k :: k in mem ==> k.user in users
    }

    constructor ()
      ensures Rows() == EMPTY && grants == [] && users == map[] && Valid()
    {
      orgs, mem, projects, log, users, grants := map[], map[], map[], [], map[], [];
    }

    function Rows(): State
      reads this
    {
      Tables(orgs, mem, projects, log)
    }

    /** The transaction of req on the rows before ended with r and left the present rows. */
    ghost predicate Ran<T>(before: State, req: Request, r: Result<T>)
      reads this
    {
      Ended(before, NewTx(req), r)
    }

    ghost predicate Ended<T>(before: State, x: Tx, r: Result<T>)
      reads this
    {
      var end := Rest(before, x);
      && end.txs == map[] && end.done == map[0 := if r.Ok? then Committed else Failed(r.error)]
      && orgs == end.orgs && mem == end.mem && projects == end.projects && log == end.log
    }

    // -------------------------------------------------------------------------------------------------
    // The client of a project
    // -------------------------------------------------------------------------------------------------

    /** Assigns, reassigns or, without a client, unassigns the client of a project. */
    method AssignClient(org: Org, actor: User, pid: Pid, client: Option<User>) returns (r: Result<()>)
      modifies this
      ensures Ran(old(Rows()), Assign(org, actor, pid, client), r) && grants == old(grants)
      ensures users == old(users) && (old(Valid()) ==> Valid())
      ensures r.Err? || (pid in old(projects) && client == old(projects)[pid].client) ==> Rows() == old(Rows())
      ensures if pid !in old(projects) || old(projects)[pid].org != org || old(projects)[pid].deleted then
                r == Err(ProjectNotFound)
              else if old(projects)[pid].status == ProjectStatus.Archived || old(projects)[pid].status == ProjectStatus.Cancelled then
                r == Err(InvalidStatusTransition)
              else if client == old(projects)[pid].client then r == Ok(())
              else if && client.Some?
                      && !(Key(org, client.value) in old(mem)
                           && old(mem)[Key(org, client.value)] == Membership(Client, MemberStatus.Active)) then
                r == Err(ClientNotFound)
              else
                var before := old(projects)[pid].client;
                && r == Ok(()) && orgs == old(orgs)
                && projects == old(projects)[pid := old(projects)[pid].(client := client)]
                && if && before.Some? && Key(org, before.value) in old(mem)
                      && (forall q :: q in old(projects) && q != pid && !old(projects)[q].deleted && old(projects)[q].org == org
                                      ==> old(projects)[q].client != before)
                   then && mem == old(mem) - {Key(org, before.value)}
                        && log == old(log) + [Removed(Key(org, before.value), actor, true),
                                              ClientChanged(org, pid, before, client, actor)]
                   else && mem == old(mem)
                        && log == old(log) + [ClientChanged(org, pid, before, client, actor)]
    {
      hide Rest, Effect;
      ghost var before, x := Rows(), NewTx(Assign(org, actor, pid, client));
      FirstStatement(before, x);
      if pid !in projects || projects[pid].org != org || projects[pid].deleted {
        Stop(before, x, ProjectNotFound);
        return Err(ProjectNotFound);
      }
      var project := projects[pid];
      ghost var y := x.(proj := Some(pid), was := project.client);
      if Frozen(project.status) {
        Stop(before, x, InvalidStatusTransition);
        return Err(InvalidStatusTransition);
      }
      var oldClient := project.client;
      if client == oldClient {
        Unchanged(before, x, y.(pc := Ready));
        return Ok(());
      }
      if client.Some? {
        Proceed(before, x, y.(pc := ShareNew(client.value)));
        x := y.(pc := ShareNew(client.value));
        ShareStatement(before, x, client.value);
        var isClient := IsActiveClientMember(org, client.value);
        if !isClient {
          Stop(before, x, ClientNotFound);
          return Err(ClientNotFound);
        }
        y := y.(share := Some(Key(org, client.value)));
      }
      Proceed(before, x, y.(pc := WriteClient(client)));
      r := SetClient(y.(pc := WriteClient(client)), org, actor, pid, project, client);
    }

    /** The writes of AssignClient; x is the machine's transaction before them. */
    method SetClient(ghost x: Tx, org: Org, actor: User, pid: Pid, project: ProjectRow, client: Option<User>)
      returns (r: Result<()>)
      requires x.req == Assign(org, actor, pid, client) && x.pc == WriteClient(client)
      requires pid in projects && projects[pid] == project && x.proj == Some(pid) && x.was == project.client
      requires x.drop.None? && x.add.None? && x.log == []
      modifies this
      ensures Ended(old(Rows()), x, r) && grants == old(grants)
      ensures users == old(users) && mem.Keys <= old(mem).Keys
      ensures r == Ok(()) && orgs == old(orgs) && projects == old(projects)[pid := project.(client := client)]
      ensures var before := project.client;
              if && before.Some? && Key(org, before.value) in old(mem)
                 && (forall q :: q in old(projects) && q != pid && !old(projects)[q].deleted && old(projects)[q].org == org
                                 ==> old(projects)[q].client != before)
              then && mem == old(mem) - {Key(org, before.value)}
                   && log == old(log) + [Removed(Key(org, before.value), actor, true),
                                         ClientChanged(org, pid, before, client, actor)]
              else && mem == old(mem)
                   && log == old(log) + [ClientChanged(org, pid, before, client, actor)]
    {
      hide Rest, Effect;
      ghost var before := Rows();
      var row := project.(client := client);
      ghost var y := x.(row := Some(row));
      WriteStatement(before, x, client);
      var pruned := None;
      if project.client.Some? {
        y := y.(pc := LockOld(project.client.value));
        Proceed(before, x, y);
        pruned, y := PruneClientMembership(y, org, pid, project.client.value);
      } else {
        y := LogAssign(y);
        Proceed(before, x, y);
      }
      Publishes(before, y);
      projects := projects[pid := row];
      if pruned.Some? {
        mem := mem - {pruned.value};
        log := log + [Removed(pruned.value, actor, true)];
      }
      log := log + [ClientChanged(org, pid, project.client, client, actor)];
      r := Ok(());
    }

    method IsActiveClientMember(org: Org, user: User) returns (found: bool)
      ensures found <==> ActiveClient(Rows(), Key(org, user))
    {
      found := Key(org, user) in mem && mem[Key(org, user)] == Membership(Client, MemberStatus.Active);
    }

    /** Finds out whether the displaced client's membership goes; y is the machine's transaction afterwards. */
    method PruneClientMembership(ghost x: Tx, org: Org, pid: Pid, displaced: User) returns (pruned: Option<Key>, ghost y: Tx)
      requires x.req.Assign? && x.req.org == org && x.req.pid == pid && x.proj == Some(pid)
      requires x.pc == LockOld(displaced) && x.drop.None?
      ensures var key := Key(org, displaced);
              pruned == if && key in mem
                           && (forall q :: q in projects && q != pid && !projects[q].deleted && projects[q].org == org
                                           ==> projects[q].client != Some(displaced))
                        then Some(key) else None
      ensures Rest(Rows(), x) == Rest(Rows(), y)
      ensures y.pc.Ready? && y.proj == x.proj && y.row == x.row && y.add == x.add && y.drop == pruned
      ensures y.log == x.log + (if pruned.Some? then [Removed(pruned.value, x.req.actor, true)] else [])
                       + [ClientChanged(org, pid, x.was, x.req.client, x.req.actor)]
    {
      hide Rest, Effect;
      var key := Key(org, displaced);
      PruneStatements(Rows(), x, displaced);
      if key !in mem {
        y := LogAssign(x);
        Proceed(Rows(), x, y);
        return None, y;
      }
      y := x.(excl := Some(key), pc := CheckOther(displaced));
      Proceed(Rows(), x, y);
      PruneStatements(Rows(), y, displaced);
      var onOther := IsClientOnAnyOtherProject(org, displaced, pid);
      if onOther {
        Proceed(Rows(), y, LogAssign(y));
        return None, LogAssign(y);
      }
      Proceed(Rows(), y, y.(pc := DropOld(displaced)));
      y := y.(pc := DropOld(displaced));
      PruneStatements(Rows(), y, displaced);
      ghost var z := LogAssign(y.(drop := Some(key), log := y.log + [Removed(key, x.req.actor, true)]));
      Proceed(Rows(), y, z);
      return Some(key), z;
    }

    method IsClientOnAnyOtherProject(org: Org, user: User, except: Pid) returns (found: bool)
      ensures found <==> exists q :: q != except && Refers(Rows(), q, Key(org, user))
      ensures found <==> exists q :: q in projects && q != except && !projects[q].deleted && projects[q].org == org
                                     && projects[q].client == Some(user)
    {
      found := exists q <- projects :: q != except && !projects[q].deleted && projects[q].org == org
                                       && projects[q].client == Some(user);
      if found {
        ghost var q :| q in projects && q != except && !projects[q].deleted && projects[q].org == org
                       && projects[q].client == Some(user);
        assert Refers(Rows(), q, Key(org, user));
      } else {
        assert forall q :: q != except && Refers(Rows(), q, Key(org, user)) ==> q in projects;
      }
    }

    // -------------------------------------------------------------------------------------------------
    // Clients of an organization
    // -------------------------------------------------------------------------------------------------

    /** Deletes the membership of a client who has no live project. */
    method Remove(org: Org, actor: User, user: User) returns (r: Result<()>)
      modifies this
      ensures Ran(old(Rows()), Request.Remove(org, actor, user), r) && grants == old(grants)
      ensures users == old(users) && (old(Valid()) ==> Valid())
      ensures orgs == old(orgs) && projects == old(projects)
      ensures var key := Key(org, user);
              if !(key in old(mem) && old(mem)[key] == Membership(Client, MemberStatus.Active)) then
                r == Err(ClientNotFound) && mem == old(mem) && log == old(log)
              else if exists q :: q in projects && !projects[q].deleted && projects[q].org == org
                                  && projects[q].client == Some(user) then
                r == Err(ClientAttachedToProject) && mem == old(mem) && log == old(log)
              else r == Ok(()) && mem == old(mem) - {key} && log == old(log) + [Removed(key, actor, false)]
    {
      hide Rest, Effect;
      ghost var before, x, key := Rows(), NewTx(Request.Remove(org, actor, user)), Key(org, user);
      RemovalStatements(before, x, user);
      var found := IsActiveClientMember(org, user);
      if !found {
        Stop(before, x, ClientNotFound);
        return Err(ClientNotFound);
      }
      ghost var y := x.(pc := LockMember(user));
      Proceed(before, x, y);
      RemovalStatements(before, y, user);
      ghost var z := y.(excl := Some(key), pc := CheckProjects(user));
      Proceed(before, y, z);
      RemovalStatements(before, z, user);
      var hasProjects := ClientHasProjects(org, user);
      if hasProjects {
        Stop(before, z, ClientAttachedToProject);
        return Err(ClientAttachedToProject);
      }
      Proceed(before, z, z.(pc := DropMember(user)));
      z := z.(pc := DropMember(user));
      RemovalStatements(before, z, user);
      ghost var end := z.(drop := Some(key), pc := Ready, log := z.log + [Removed(key, actor, false)]);
      Proceed(before, z, end);
      Publishes(before, end);
      mem := mem - {Key(org, user)};
      log := log + [Removed(Key(org, user), actor, false)];
      r := Ok(());
    }

    method ClientHasProjects(org: Org, user: User) returns (found: bool)
      ensures found <==> Attached(Rows(), Key(org, user))
      ensures found <==> exists q :: q in projects && !projects[q].deleted && projects[q].org == org
                                     && projects[q].client == Some(user)
    {
      found := exists q <- projects :: !projects[q].deleted && projects[q].org == org && projects[q].client == Some(user);
      if found {
        ghost var q :| q in projects && !projects[q].deleted && projects[q].org == org && projects[q].client == Some(user);
        assert Refers(Rows(), q, Key(org, user));
      } else {
        assert forall q :: Refers(Rows(), q, Key(org, user)) ==> q in projects;
      }
    }

    /** The user with the e-mail, else the one with the phone. */
    method FindUserByIdentifier(email: string, phone: string) returns (u: Option<User>)
      ensures u.Some? ==> Resolves(users, email, phone, u.value)
      ensures u.None? ==> forall v :: !HasEmail(users, v, email) && !HasPhone(users, v, phone)
    {
      if v :| v in users && HasEmail(users, v, email) { return Some(v); }
      if v :| v in users && HasPhone(users, v, phone) { return Some(v); }
      u := None;
    }

    /**
     Reuses the user with the given identifiers, or creates one, whose password must be changed, under the fresh
     identifier newId; drawn tells whether a one-time password could be drawn, commits whether the commit goes through.
     */
    method Provision(org: Org, actor: User, email: string, phone: string, firstName: string, lastName: string,
                     newId: User, drawn: bool, commits: bool) returns (r: Result<ProvisionResult>)
      requires Valid() && newId !in users
      modifies this
      ensures Valid() && grants == old(grants)
      ensures !commits ==> r.Err? && Rows() == old(Rows()) && users == old(users)
      ensures commits ==> forall u :: Resolves(old(users), email, phone, u) ==>
                && Ran(old(Rows()), Request.Provision(org, actor, u), r) && users == old(users)
                && (r.Ok? ==> r.value == ProvisionResult(u, false))
      ensures commits && (forall u :: !Resolves(old(users), email, phone, u)) ==>
                if firstName == "" || lastName == "" || !drawn || (email == "" && phone == "") then
                  && Rows() == old(Rows()) && users == old(users)
                  && r == Err(if firstName == "" || lastName == "" then Validation
                              else if !drawn then InternalServer else DatabaseError)
                else
                  && Ran(old(Rows()), Request.Provision(org, actor, newId), r)
                  && (r.Err? ==> users == old(users))
                  && (r.Ok? ==> r.value == ProvisionResult(newId, true)
                                && users == old(users)[newId := Identity(Nullable(email), Nullable(phone), true)])
    {
      hide Rest;
      var committedMem, committedLog, committedUsers := mem, log, users;
      var existing := FindUserByIdentifier(email, phone);
      if existing.Some? {
        assert forall u :: Resolves(users, email, phone, u) ==> u == existing.value;
        var added := ProvisionUser(org, actor, existing.value);
        if added.Err? { return Err(added.error); }
        if !commits {
          mem, log := committedMem, committedLog;
          return Err(DatabaseError);
        }
        return Ok(ProvisionResult(existing.value, false));
      }
      assert forall u :: !Resolves(users, email, phone, u);
      if firstName == "" || lastName == "" { return Err(Validation); }
      if !drawn { return Err(InternalServer); }
      if email == "" && phone == "" { return Err(DatabaseError); }
      NewUserOk(users, newId, email, phone);
      hide UsersOk;
      users := users[newId := Identity(Nullable(email), Nullable(phone), true)];
      var added := ProvisionUser(org, actor, newId);
      if added.Err? || !commits {
        mem, log, users := committedMem, committedLog, committedUsers;
        return Err(if added.Err? then added.error else DatabaseError);
      }
      r := Ok(ProvisionResult(newId, true));
    }

    /** The membership of a user that exists. */
    method ProvisionUser(org: Org, actor: User, user: User) returns (r: Result<()>)
      modifies this
      ensures Ran(old(Rows()), Request.Provision(org, actor, user), r) && grants == old(grants)
      ensures users == old(users) && old(mem).Keys <= mem.Keys <= old(mem).Keys + {Key(org, user)}
      ensures var key := Key(org, user);
              if key in old(mem) then r == Err(AlreadyMember) && mem == old(mem) && log == old(log)
              else if org !in orgs then r == Err(DatabaseError) && mem == old(mem) && log == old(log)
              else && r == Ok(()) && mem == old(mem)[key := Membership(Client, MemberStatus.Active)]
                   && log == old(log) + [Provisioned(key, actor)]
      ensures orgs == old(orgs) && projects == old(projects) && (r.Err? ==> Rows() == old(Rows()))
    {
      hide Rest, Effect;
      ghost var before, x, key := Rows(), NewTx(Request.Provision(org, actor, user)), Key(org, user);
      ProvisionStatements(before, x, user);
      if Key(org, user) in mem {
        Stop(before, x, AlreadyMember);
        return Err(AlreadyMember);
      }
      ghost var y := x.(pc := Insert(user));
      Proceed(before, x, y);
      ProvisionStatements(before, y, user);
      if org !in orgs {
        Stop(before, y, DatabaseError);
        return Err(DatabaseError);
      }
      ghost var end := y.(add := Some(key), pc := Ready, log := y.log + [Provisioned(key, actor)]);
      Proceed(before, y, end);
      Publish(before, end);
      mem := mem[Key(org, user) := Membership(Client, MemberStatus.Active)];
      log := log + [Provisioned(Key(org, user), actor)];
      r := Ok(());
    }

    // -------------------------------------------------------------------------------------------------
    // Staff
    // -------------------------------------------------------------------------------------------------

    ghost function WithGrants(): State
      reads this
    {
      Rows().(grants := grants)
    }

    /** The staff operation a on the tables before ended with r and left the present ones. */
    ghost predicate Changed(before: State, a: Action, r: Result<()>)
      requires a.AddMember? || a.RemoveMember? || a.ChangeRole?
      reads this
    {
      match StaffChange(before, a)
      case Ok(change) =>
        && r == Ok(())
        && WithGrants() == before.(mem := change.mem, grants := change.grants, log := before.log + [change.entry])
      case Err(e) => r == Err(e) && WithGrants() == before
    }

    method RequireNotPersonalWorkspace(org: Org) returns (r: Result<()>)
      ensures r == if org !in orgs then Err(OrganizationNotFound)
                   else if orgs[org].personal then Err(PersonalWorkspace) else Ok(())
    {
      if org !in orgs { return Err(OrganizationNotFound); }
      if orgs[org].personal { return Err(PersonalWorkspace); }
      r := Ok(());
    }

    method RequireOwnerToGrantOwner(org: Org, actor: User, role: Role) returns (r: Result<()>)
      ensures r == if role == Owner && !ActiveOwner(Rows(), Key(org, actor)) then Err(Forbidden) else Ok(())
    {
      if role != Owner { return Ok(()); }
      var key := Key(org, actor);
      if key !in mem || mem[key].status != MemberStatus.Active { return Err(Forbidden); }
      if mem[key].role != Owner { return Err(Forbidden); }
      r := Ok(());
    }

    /** For an unknown user, after the guards: user not found, and nothing changes. */
    ghost predicate RefusedUnknown(before: State, org: Org, actor: User, role: Role, r: Result<()>)
      reads this
    {
      var guard := StaffGuard(before, org, actor, Some(role));
      WithGrants() == before && r == if guard.Err? then guard else Err(UserNotFound)
    }

    method InviteOrgMember(org: Org, actor: User, email: string, role: Role) returns (r: Result<()>)
      requires Valid()
      modifies this
      ensures Valid() && users == old(users)
      ensures forall u :: HasEmail(users, u, email) ==> Changed(old(WithGrants()), AddMember(org, actor, u, role, true), r)
      ensures (forall u :: !HasEmail(users, u, email)) ==> RefusedUnknown(old(WithGrants()), org, actor, role, r)
      ensures r.Ok? ==> exists u :: u in users && users[u].email == Some(email) && u != actor && Key(org, u) !in old(mem)
                                    && mem == old(mem)[Key(org, u) := Membership(role, Invited)]
      ensures r.Err? ==> WithGrants() == old(WithGrants())
    {
      var _ :- RequireNotPersonalWorkspace(org);
      var _ :- RequireOwnerToGrantOwner(org, actor, role);
      var invited := FindUserByIdentifier(email, "");
      if invited.None? { return Err(UserNotFound); }
      var user := invited.value;
      assert forall u :: HasEmail(users, u, email) ==> u == user;
      if user == actor { return Err(AlreadyMember); }
      if Key(org, user) in mem { return Err(InvitationPending); }
      mem := mem[Key(org, user) := Membership(role, Invited)];
      log := log + [Joined(Key(org, user), actor, Membership(role, Invited))];
      grants := grants + GrantOf(role, org, actor, user);
      r := Ok(());
    }

    method AddOrgMember(org: Org, actor: User, user: User, role: Role) returns (r: Result<()>)
      requires Valid()
      modifies this
      ensures Valid() && users == old(users)
      ensures if user in users then Changed(old(WithGrants()), AddMember(org, actor, user, role, false), r)
              else RefusedUnknown(old(WithGrants()), org, actor, role, r)
      ensures r.Ok? ==> user in users && Key(org, user) !in old(mem)
                        && mem == old(mem)[Key(org, user) := Membership(role, MemberStatus.Active)]
      ensures r.Err? ==> WithGrants() == old(WithGrants())
    {
      var _ :- RequireNotPersonalWorkspace(org);
      var _ :- RequireOwnerToGrantOwner(org, actor, role);
      if user !in users { return Err(UserNotFound); }
      if Key(org, user) in mem { return Err(AlreadyMember); }
      mem := mem[Key(org, user) := Membership(role, MemberStatus.Active)];
      log := log + [Joined(Key(org, user), actor, Membership(role, MemberStatus.Active))];
      grants := grants + GrantOf(role, org, actor, user);
      r := Ok(());
    }

    method RemoveOrgMember(org: Org, actor: User, user: User) returns (r: Result<()>)
      modifies this
      ensures Changed(old(WithGrants()), RemoveMember(org, actor, user), r)
      ensures users == old(users) && (old(Valid()) ==> Valid())
    {
      var _ :- RequireNotPersonalWorkspace(org);
      var key := Key(org, user);
      if key !in mem { return Err(MembershipNotFound); }
      if mem[key].role == Owner { return Err(Forbidden); }
      if mem[key].role == Client { return Err(ClientAttachedToProject); }
      mem := mem - {key};
      log := log + [Removed(key, actor, false)];
      r := Ok(());
    }

    method UpdateOrgMemberRole(org: Org, actor: User, user: User, role: Role) returns (r: Result<()>)
      modifies this
      ensures Changed(old(WithGrants()), ChangeRole(org, actor, user, role), r)
      ensures users == old(users) && (old(Valid()) ==> Valid())
    {
      if role == Client { return Err(Forbidden); }
      var _ :- RequireNotPersonalWorkspace(org);
      var _ :- RequireOwnerToGrantOwner(org, actor, role);
      var key := Key(org, user);
      if key !in mem { return Err(MembershipNotFound); }
      if mem[key].role == Owner || mem[key].role == Client { return Err(Forbidden); }
      var currentRole := mem[key].role;
      mem := mem[key := mem[key].(role := role)];
      log := log + [RoleChanged(key, actor, currentRole, role)];
      grants := grants + GrantOf(role, org, actor, user);
      r := Ok(());
    }
  }
}
