/**
 The tenancy tables (organizations, memberships, projects) under READ COMMITTED transactions that run one
 SQL statement at a time. A transaction holds row locks until it ends, sees the committed rows plus its own
 pending writes, and publishes those writes at commit. A statement whose lock conflicts waits.
 */
module Tenancy {
  import opened Common
  import opened ProjectRules

  // row identifiers
  type Org = int
  type User = int
  type Pid = int
  type Mid = int
  type Tid = int

  datatype Role = Owner | Admin | Member | Viewer | Client
  datatype MemberStatus = Active | Invited | Suspended
  datatype Key = Key(org: Org, user: User)
  datatype Membership = Membership(role: Role, status: MemberStatus)
  datatype OrgRow = OrgRow(personal: bool, creator: User)
  datatype ProjectRow = ProjectRow(org: Org, client: Option<User>, status: ProjectStatus, deleted: bool)

  /** One grant of the owner role: history, not a table. */
  datatype Grant = Grant(org: Org, granter: User, to: User)

  /** The audit entries about memberships, clients and sign-offs. */
  datatype Event =
    | OrgCreated(org: Org, creator: User)
    | Joined(key: Key, actor: User, membership: Membership)
    | RoleChanged(key: Key, actor: User, oldRole: Role, newRole: Role)
    | Removed(key: Key, actor: User, pruned: bool)
    | ClientChanged(org: Org, pid: Pid, before: Option<User>, after: Option<User>, actor: User)
    | Provisioned(key: Key, actor: User)
    | SignedOff(org: Org, pid: Pid, mid: Mid, actor: User)

  datatype Request =
    | Assign(org: Org, actor: User, pid: Pid, client: Option<User>)
    | Remove(org: Org, actor: User, user: User)
    | Provision(org: Org, actor: User, user: User)
    | Delete(org: Org, actor: User, pid: Pid)
    | SetStatus(org: Org, actor: User, pid: Pid, next: ProjectStatus)
      // a milestone transaction; a sign-off is one that only the project's client may make
    | Milestone(org: Org, actor: User, pid: Pid, mid: Mid, signOff: bool)
      // an assignment is created for, or moved to, a staff member
    | Staffing(org: Org, actor: User, pid: Pid, assignee: User)

  /** The statement a transaction executes next, with the local variables it needs. */
  datatype Pc =
    | Begin
    | ShareNew(next: User)
    | WriteClient(after: Option<User>)
    | LockOld(displaced: User)
    | CheckOther(displaced: User)
    | DropOld(displaced: User)
    | LockMember(target: User)
    | CheckProjects(target: User)
    | DropMember(target: User)
    | Insert(target: User)
    | WriteRow(row: ProjectRow)
    | LockMilestone(mid: Mid)
    | LockStaff(target: User)
    | Ready

  /** An in-flight transaction: its locks (project, membership FOR SHARE / FOR UPDATE, milestone) and writes. */
  datatype Tx = Tx(
    req: Request,
    pc: Pc,
    was: Option<User>,
    proj: Option<Pid>,
    share: Option<Key>,
    excl: Option<Key>,
    mile: Option<(Pid, Mid)>,
    row: Option<ProjectRow>,
    drop: Option<Key>,
    add: Option<Key>,
    log: seq<Event>)

  datatype Outcome = Committed | Failed(error: Error)

  datatype State = State(
    orgs: map<Org, OrgRow>,
    mem: map<Key, Membership>,
    projects: map<Pid, ProjectRow>,
    grants: seq<Grant>,
    log: seq<Event>,
    txs: map<Tid, Tx>,
    done: map<Tid, Outcome>)

  const EMPTY: State := State(map[], map[], map[], [], [], map[], map[])

  function NewTx(req: Request): Tx {
    Tx(req, Begin, None, None, None, None, None, None, None, None, [])
  }

  predicate ActiveClient(s: State, k: Key) {
    k in s.mem && s.mem[k] == Membership(Client, MemberStatus.Active)
  }

  predicate ActiveOwner(s: State, k: Key) {
    k in s.mem && s.mem[k] == Membership(Owner, MemberStatus.Active)
  }

  /** Project q is live and names k's user as its client, in k's organization. */
  predicate Refers(s: State, q: Pid, k: Key) {
    q in s.projects && !s.projects[q].deleted && s.projects[q].org == k.org && s.projects[q].client == Some(k.user)
  }

  ghost predicate Attached(s: State, k: Key) {
    exists q :: Refers(s, q, k)
  }

  // ---------------------------------------------------------------------------------------------------
  // Locks
  // ---------------------------------------------------------------------------------------------------

  datatype Want =
    | Nothing
    | WantProject(pid: Pid)
    | WantShare(key: Key)
    | WantExcl(key: Key)
    | WantMilestone(row: (Pid, Mid))
    | WantInsert(key: Key)

  /** The lock that the next statement of x needs before it can run. */
  function Wants(x: Tx): Want {
    match x.pc
    case Begin => if x.req.Remove? || x.req.Provision? then Nothing else WantProject(x.req.pid)
    case ShareNew(c) => WantShare(Key(x.req.org, c))
    case LockOld(d) => WantExcl(Key(x.req.org, d))
    case LockMember(u) => WantExcl(Key(x.req.org, u))
    case Insert(u) => WantInsert(Key(x.req.org, u))
    case LockStaff(u) => WantExcl(Key(x.req.org, u))
    case LockMilestone(m) => if x.proj.Some? then WantMilestone((x.proj.value, m)) else Nothing
    case _ => Nothing
  }

  /** y holds something that conflicts with w. */
  predicate Conflicts(w: Want, y: Tx) {
    match w
    case Nothing => false
    case WantProject(p) => y.proj == Some(p)
    case WantShare(k) => y.excl == Some(k)
    case WantExcl(k) => y.share == Some(k) || y.excl == Some(k)
    case WantMilestone(m) => y.mile == Some(m)
    case WantInsert(k) => y.add == Some(k) || y.drop == Some(k)
  }

  predicate WaitsFor(s: State, t: Tid, u: Tid) {
    t != u && t in s.txs && u in s.txs && Conflicts(Wants(s.txs[t]), s.txs[u])
  }

  ghost predicate MustWait(s: State, t: Tid) {
    exists u :: WaitsFor(s, t, u)
  }

  // ---------------------------------------------------------------------------------------------------
  // Statements
  // ---------------------------------------------------------------------------------------------------

  function Put(s: State, t: Tid, x: Tx): State {
    s.(txs := s.txs[t := x])
  }

  /** Rollback: the pending writes and the locks go, nothing else changes. */
  function Fail(s: State, t: Tid, e: Error): State {
    s.(txs := s.txs - {t}, done := s.done[t := Failed(e)])
  }

  function Commit(s: State, t: Tid): State
    requires t in s.txs
  {
    var x := s.txs[t];
    var kept := if x.drop.Some? then s.mem - {x.drop.value} else s.mem;
    s.(mem := if x.add.Some? then kept[x.add.value := Membership(Client, MemberStatus.Active)] else kept,
       projects := if x.proj.Some? && x.row.Some? then s.projects[x.proj.value := x.row.value] else s.projects,
       log := s.log + x.log,
       txs := s.txs - {t},
       done := s.done[t := Committed])
  }

  /** The last statement of AssignClient before the commit: its audit entry. */
  function LogAssign(x: Tx): Tx
    requires x.req.Assign?
  {
    x.(pc := Ready, log := x.log + [ClientChanged(x.req.org, x.req.pid, x.was, x.req.client, x.req.actor)])
  }

  /** The first statement of a project transaction: the row FOR UPDATE, then the guards on it. */
  function LockProject(s: State, x: Tx): Result<Tx>
    requires !x.req.Remove? && !x.req.Provision?
  {
    var pid := x.req.pid;
    if pid !in s.projects || s.projects[pid].org != x.req.org || s.projects[pid].deleted then Err(ProjectNotFound)
    else
      var p := s.projects[pid];
      var y := x.(proj := Some(pid), was := p.client);
      match x.req
      case Assign(_, _, _, c) =>
        if Frozen(p.status) then Err(InvalidStatusTransition)
        else if c == p.client then Ok(y.(pc := Ready))
        else if c.Some? then Ok(y.(pc := ShareNew(c.value)))
        else Ok(y.(pc := WriteClient(None)))
      case Delete(_, _, _) => Ok(y.(pc := WriteRow(p.(deleted := true))))
      case SetStatus(_, _, _, next) =>
        if (Frozen(p.status) && !(p.status == ProjectStatus.Archived && next == ProjectStatus.Active))
           || !ProjectTransition(p.status, next)
        then Err(InvalidStatusTransition)
        else Ok(y.(pc := WriteRow(p.(status := next))))
      case Milestone(_, actor, _, mid, signOff) =>
        if signOff && p.client != Some(actor) then Err(ProjectNotFound)
        else if Frozen(p.status) then Err(InvalidStatusTransition)
        else Ok(y.(pc := LockMilestone(mid)))
      case Staffing(_, _, _, assignee) =>
        if Frozen(p.status) then Err(InvalidStatusTransition) else Ok(y.(pc := LockStaff(assignee)))
  }

  /** What the next statement of x does to its own record, reading the committed rows, or the error it ends in. */
  ghost function Effect(s: State, x: Tx): Result<Tx>
    requires !x.pc.Ready?
  {
    var org := x.req.org;
    match x.pc
    case Begin =>
      (match x.req
       case Remove(_, _, user) =>
         if ActiveClient(s, Key(org, user)) then Ok(x.(pc := LockMember(user))) else Err(ClientNotFound)
       case Provision(_, _, user) =>
         if Key(org, user) in s.mem then Err(AlreadyMember) else Ok(x.(pc := Insert(user)))
       case _ => LockProject(s, x))
    case ShareNew(c) =>
      if ActiveClient(s, Key(org, c)) then Ok(x.(share := Some(Key(org, c)), pc := WriteClient(Some(c))))
      else Err(ClientNotFound)
    case WriteClient(after) =>
      if x.proj.None? || x.proj.value !in s.projects || !x.req.Assign? then Err(ProjectNotFound)
      else
        var y := x.(row := Some(s.projects[x.proj.value].(client := after)));
        Ok(if x.was.Some? then y.(pc := LockOld(x.was.value)) else LogAssign(y))
    case LockOld(d) =>
      if !x.req.Assign? then Err(DatabaseError)
      else if Key(org, d) !in s.mem then Ok(LogAssign(x))
      else Ok(x.(excl := Some(Key(org, d)), pc := CheckOther(d)))
    case CheckOther(d) =>
      if !x.req.Assign? then Err(DatabaseError)
      else if exists q: Pid :: x.proj != Some(q) && Refers(s, q, Key(org, d)) then Ok(LogAssign(x))
      else Ok(x.(pc := DropOld(d)))
    case DropOld(d) =>
      if !x.req.Assign? then Err(DatabaseError)
      else if Key(org, d) !in s.mem then Ok(LogAssign(x))
      else Ok(LogAssign(x.(drop := Some(Key(org, d)), log := x.log + [Removed(Key(org, d), x.req.actor, true)])))
    case LockMember(u) =>
      if Key(org, u) !in s.mem then Err(ClientNotFound)
      else Ok(x.(excl := Some(Key(org, u)), pc := CheckProjects(u)))
    case CheckProjects(u) =>
      if Attached(s, Key(org, u)) then Err(ClientAttachedToProject) else Ok(x.(pc := DropMember(u)))
    case DropMember(u) =>
      if Key(org, u) !in s.mem then Err(ClientNotFound)
      else Ok(x.(drop := Some(Key(org, u)), pc := Ready, log := x.log + [Removed(Key(org, u), x.req.actor, false)]))
    case Insert(u) =>
      if Key(org, u) in s.mem then Err(AlreadyMember)
      else if org !in s.orgs then Err(DatabaseError)
      else Ok(x.(add := Some(Key(org, u)), pc := Ready, log := x.log + [Provisioned(Key(org, u), x.req.actor)]))
    case LockStaff(u) =>
      var k := Key(org, u);
      if k in s.mem && s.mem[k].status == MemberStatus.Active && s.mem[k].role != Client then
        Ok(x.(excl := Some(Key(org, u)), pc := Ready))
      else Err(MembershipNotFound)
    case WriteRow(row) => Ok(x.(row := Some(row), pc := Ready))
    case LockMilestone(m) =>
      if !x.req.Milestone? || x.proj.None? then Err(MilestoneNotFound)
      else Ok(x.(mile := Some((x.proj.value, m)), pc := Ready,
                 log := if x.req.signOff then x.log + [SignedOff(org, x.req.pid, m, x.req.actor)] else x.log))
  }

  /** The next statement of t, when no lock it needs is held by another. */
  ghost function Statement(s: State, t: Tid): State
    requires t in s.txs
  {
    if s.txs[t].pc.Ready? then Commit(s, t)
    else
      match Effect(s, s.txs[t])
      case Ok(y) => Put(s, t, y)
      case Err(e) => Fail(s, t, e)
  }

  // ---------------------------------------------------------------------------------------------------
  // Actions and runs
  // ---------------------------------------------------------------------------------------------------

  datatype Action =
    | Start(t: Tid, req: Request)
    | Step(t: Tid)
    | Abort(t: Tid)  // timeout, lost connection, deadlock victim, failed audit insert
    | CreateOrg(org: Org, creator: User, personal: bool)
    | CreateProject(pid: Pid, org: Org)
      // staff membership changes, each one atomic
    | AddMember(org: Org, actor: User, user: User, role: Role, invite: bool)
    | RemoveMember(org: Org, actor: User, user: User)
    | ChangeRole(org: Org, actor: User, user: User, role: Role)

  /** Another transaction holds the membership row k, or is inserting it. */
  ghost predicate RowHeld(s: State, k: Key) {
    exists u :: u in s.txs && (s.txs[u].share == Some(k) || s.txs[u].excl == Some(k) || s.txs[u].add == Some(k))
  }

  /** requireNotPersonalWorkspace, then requireOwnerToGrantOwner. */
  function StaffGuard(s: State, org: Org, actor: User, role: Option<Role>): Result<()> {
    if org !in s.orgs then Err(OrganizationNotFound)
    else if s.orgs[org].personal then Err(PersonalWorkspace)
    else if role == Some(Owner) && !ActiveOwner(s, Key(org, actor)) then Err(Forbidden)
    else Ok(())
  }

  /** The membership table, the grant history and the audit entry of a staff change. */
  datatype StaffResult = StaffResult(mem: map<Key, Membership>, grants: seq<Grant>, entry: Event)

  function GrantOf(role: Role, org: Org, granter: User, to: User): seq<Grant> {
    if role == Owner then [Grant(org, granter, to)] else []
  }

  /** What a staff change leaves, or the error that changes nothing. */
  function StaffChange(s: State, a: Action): Result<StaffResult>
    requires a.AddMember? || a.RemoveMember? || a.ChangeRole?
  {
    var k := Key(a.org, a.user);
    match a
    case AddMember(org, actor, user, role, invite) =>
      var guard := StaffGuard(s, org, actor, Some(role));
      if guard.Err? then Err(guard.error)
      else if invite && user == actor then Err(AlreadyMember)
      else if k in s.mem then Err(if invite then InvitationPending else AlreadyMember)
      else
        var m := Membership(role, if invite then Invited else MemberStatus.Active);
        Ok(StaffResult(s.mem[k := m], s.grants + GrantOf(role, org, actor, user), Joined(k, actor, m)))
    case RemoveMember(org, actor, user) =>
      var guard := StaffGuard(s, org, actor, None);
      if guard.Err? then Err(guard.error)
      else if k !in s.mem then Err(MembershipNotFound)
      else if s.mem[k].role == Owner then Err(Forbidden)
      else if s.mem[k].role == Client then Err(ClientAttachedToProject)
      else Ok(StaffResult(s.mem - {k}, s.grants, Removed(k, actor, false)))
    case ChangeRole(org, actor, user, role) =>
      if role == Client then Err(Forbidden)
      else
        var guard := StaffGuard(s, org, actor, Some(role));
        if guard.Err? then Err(guard.error)
        else if k !in s.mem then Err(MembershipNotFound)
        else if s.mem[k].role == Owner || s.mem[k].role == Client then Err(Forbidden)
        else Ok(StaffResult(s.mem[k := s.mem[k].(role := role)], s.grants + GrantOf(role, org, actor, user),
                            RoleChanged(k, actor, s.mem[k].role, role)))
  }

  ghost function Next(s: State, a: Action): State {
    match a
    case Start(t, req) => if t in s.txs || t in s.done then s else Put(s, t, NewTx(req))
    case Step(t) => if t !in s.txs || MustWait(s, t) then s else Statement(s, t)
    case Abort(t) => if t !in s.txs then s else Fail(s, t, DatabaseError)
    case CreateOrg(org, creator, personal) =>
      if org in s.orgs then s
      else s.(orgs := s.orgs[org := OrgRow(personal, creator)],
              mem := s.mem[Key(org, creator) := Membership(Owner, MemberStatus.Active)],
              log := s.log + [OrgCreated(org, creator)])
    case CreateProject(pid, org) =>
      if pid in s.projects || org !in s.orgs then s
      else s.(projects := s.projects[pid := ProjectRow(org, None, ProjectStatus.Draft, false)])
    case _ =>
      var change := StaffChange(s, a);
      if RowHeld(s, Key(a.org, a.user)) || change.Err? then s
      else s.(mem := change.value.mem, grants := change.value.grants, log := s.log + [change.value.entry])
  }

  /** States tr of the run that takes the actions acts from s: tr[i] is the state in which acts[i] is taken. */
  ghost predicate IsRun(s: State, tr: seq<State>, acts: seq<Action>) {
    && |tr| == |acts| + 1
    && tr[0] == s
    && forall i :: 0 <= i < |acts| ==> tr[i + 1] == Next(tr[i], acts[i])
  }
}
