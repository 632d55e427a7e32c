/** The guards of the tenancy machine, with every status, role and condition spelled out, over every run. */
module TenancyRules {
  import opened Common
  import opened ProjectRules
  import opened Tenancy
  import opened TenancyInvariant
  import opened TenancyTheorems

  // ---------------------------------------------------------------------------------------------------
  // Projects
  // ---------------------------------------------------------------------------------------------------

  /** The project statuses that a PATCH may set, and from where. */
  predicate Moves(current: ProjectStatus, next: ProjectStatus) {
    (current, next) in {
      (ProjectStatus.Draft, ProjectStatus.Active),
      (ProjectStatus.Draft, ProjectStatus.Archived),
      (ProjectStatus.Draft, ProjectStatus.Cancelled),
      (ProjectStatus.Active, ProjectStatus.Completed),
      (ProjectStatus.Active, ProjectStatus.Archived),
      (ProjectStatus.Active, ProjectStatus.Cancelled),
      (ProjectStatus.Completed, ProjectStatus.Archived),
      (ProjectStatus.Archived, ProjectStatus.Active)}
  }

  /** What may become of the row p. */
  predicate RowMay(p: ProjectRow, req: Request, row: ProjectRow) {
    match req
    case Assign(_, _, _, client) => row == p.(client := client)
    case SetStatus(_, _, _, next) => row == p.(status := next) && (p.status == next || Moves(p.status, next))
    case Delete(_, _, _) => row == p.(deleted := true)
    case _ => false
  }

  /** A transaction that only an open project may serve. */
  predicate NeedsOpen(req: Request) {
    req.Assign? || req.Milestone? || req.Staffing?
  }

  /** What the guards behind the project lock have established, and the lock preserves. */
  ghost predicate Guarded(s: State, x: Tx) {
    x.pc.Begin? || x.req.Remove? || x.req.Provision? ||
    (&& x.proj == Some(x.req.pid) && x.req.pid in s.projects
     && var p := s.projects[x.req.pid];
        && (NeedsOpen(x.req) ==> p.status != ProjectStatus.Archived && p.status != ProjectStatus.Cancelled)
        && (x.row.Some? ==> RowMay(p, x.req, x.row.value))
        && (x.pc.WriteRow? ==> RowMay(p, x.req, x.pc.row)))
  }

  ghost predicate AllGuarded(s: State) {
    forall t :: t in s.txs ==> Guarded(s, s.txs[t])
  }

  lemma LockGuards(s: State, x: Tx)
    requires LocksOk(s, x) && PcOk(s, x) && x.pc.Begin? && !x.req.Remove? && !x.req.Provision? && LockProject(s, x).Ok?
    ensures Guarded(s, LockProject(s, x).value)
  {
  }

  /** Which requests the lock of the project refuses, and with which error. */
  lemma LockRefusesExactly(s: State, x: Tx)
    requires !x.req.Remove? && !x.req.Provision?
    ensures var pid := x.req.pid;
            if pid !in s.projects || s.projects[pid].org != x.req.org || s.projects[pid].deleted
               || (x.req.Milestone? && x.req.signOff && s.projects[pid].client != Some(x.req.actor))
            then LockProject(s, x) == Err(ProjectNotFound)
            else
              var status := s.projects[pid].status;
              var stopped := status == ProjectStatus.Archived || status == ProjectStatus.Cancelled;
              if (NeedsOpen(x.req) && stopped)
                 || (x.req.SetStatus? && !Moves(status, x.req.next) && (stopped || x.req.next != status))
              then LockProject(s, x) == Err(InvalidStatusTransition)
              else LockProject(s, x).Ok?
  {
  }

  lemma StatementGuards(s: State, x: Tx)
    requires LocksOk(s, x) && PcOk(s, x) && Guarded(s, x) && !x.pc.Ready? && Effect(s, x).Ok?
    ensures Guarded(s, Effect(s, x).value)
  {
    hide LockProject;
    if x.pc.Begin? && !x.req.Remove? && !x.req.Provision? { LockGuards(s, x); }
  }

  /** A project row stays, or is replaced by the pending row of a transaction that commits. */
  lemma ProjectStep(s: State, a: Action, pid: Pid)
    requires pid in s.projects
    ensures pid in Next(s, a).projects
    ensures Next(s, a).projects[pid] == s.projects[pid]
            || (&& a.Step? && a.t in s.txs && s.txs[a.t].pc.Ready? && s.txs[a.t].proj == Some(pid)
                && s.txs[a.t].row == Some(Next(s, a).projects[pid]))
  {
    hide Effect, StaffChange, MustWait, RowHeld;
  }

  lemma StepGuards(s: State, a: Action)
    requires Inv(s) && AllGuarded(s)
    ensures AllGuarded(Next(s, a))
  {
    hide Effect, PcOk, LocksOk, RowMay, NeedsOpen;
    var s' := Next(s, a);
    forall t | t in s'.txs ensures Guarded(s', s'.txs[t]) {
      TxStep(s, a, t);
      var y := s'.txs[t];
      hide Next;
      if t in s.txs {
        assert LocksOk(s, s.txs[t]) && PcOk(s, s.txs[t]);
        if y != s.txs[t] { StatementGuards(s, s.txs[t]); }
        assert Guarded(s, y);
        if y.proj.Some? && y.proj.value in s.projects { ProjectStep(s, a, y.proj.value); }
        if a.Step? && a.t in s.txs && a.t != t { assert Compatible(s.txs[t], s.txs[a.t]); }
      }
    }
  }

  lemma {:induction false} RunGuards(tr: seq<State>, acts: seq<Action>, n: nat)
    requires IsRun(EMPTY, tr, acts) && n < |tr|
    ensures Inv(tr[n]) && AllGuarded(tr[n])
  {
    hide Next, Guarded;
    RunKeeps(tr, acts, n);
    if n > 0 {
      RunGuards(tr, acts, n - 1);
      StepGuards(tr[n - 1], acts[n - 1]);
    }
  }

  lemma CommittedWasReady(s: State, a: Action, t: Tid)
    requires t in s.txs && t !in Next(s, a).txs && t in Next(s, a).done && Next(s, a).done[t] == Committed
    ensures s.txs[t].pc.Ready?
  {
    hide Effect, StaffChange, MustWait, RowHeld;
  }

  /**
   In every interleaving, an assignment of a client, a milestone change or a staff assignment commits only while its
   project is live in its organization and neither archived nor cancelled.
   */
  lemma CommitsOnlyOnOpenProjects(tr: seq<State>, acts: seq<Action>, n: nat, t: Tid)
    requires IsRun(EMPTY, tr, acts) && n < |acts| && t in tr[n].txs && t !in tr[n + 1].txs
    requires t in tr[n + 1].done && tr[n + 1].done[t] == Committed
    requires NeedsOpen(tr[n].txs[t].req)
    ensures var s, req := tr[n], tr[n].txs[t].req;
            && req.pid in s.projects && s.projects[req.pid].org == req.org && !s.projects[req.pid].deleted
            && s.projects[req.pid].status != ProjectStatus.Archived && s.projects[req.pid].status != ProjectStatus.Cancelled
  {
    hide Next, PcOk;
    RunGuards(tr, acts, n);
    CommittedWasReady(tr[n], acts[n], t);
    assert LocksOk(tr[n], tr[n].txs[t]) && Guarded(tr[n], tr[n].txs[t]);
  }

  /** Everything that can happen to a project row in a step of a run. */
  lemma ProjectRowsExactly(tr: seq<State>, acts: seq<Action>, n: nat, pid: Pid)
    requires IsRun(EMPTY, tr, acts) && n < |acts| && pid in tr[n].projects
    ensures pid in tr[n + 1].projects
    ensures var p, p' := tr[n].projects[pid], tr[n + 1].projects[pid];
            p' != p ==>
              && !p.deleted && acts[n].Step? && acts[n].t in tr[n].txs
              && var req := tr[n].txs[acts[n].t].req;
                 || (&& req == Assign(p.org, req.actor, pid, p'.client) && p' == p.(client := p'.client)
                     && p.status != ProjectStatus.Archived && p.status != ProjectStatus.Cancelled)
                 || (&& req == SetStatus(p.org, req.actor, pid, p'.status) && p' == p.(status := p'.status)
                     && Moves(p.status, p'.status))
                 || (req == Delete(p.org, req.actor, pid) && p' == p.(deleted := true))
  {
    hide Next, PcOk;
    RunGuards(tr, acts, n);
    ProjectStep(tr[n], acts[n], pid);
    if tr[n + 1].projects[pid] != tr[n].projects[pid] {
      var x := tr[n].txs[acts[n].t];
      assert LocksOk(tr[n], x) && Guarded(tr[n], x);
    }
  }

  /** A step changes a project's client only by an assignment to it while it is live, not archived and not cancelled. */
  lemma FrozenKeepsItsClient(tr: seq<State>, acts: seq<Action>, n: nat, pid: Pid)
    requires IsRun(EMPTY, tr, acts) && n < |acts| && pid in tr[n].projects
    requires pid in tr[n + 1].projects && tr[n + 1].projects[pid].client != tr[n].projects[pid].client
    ensures tr[n].projects[pid].status != ProjectStatus.Archived && tr[n].projects[pid].status != ProjectStatus.Cancelled
    ensures !tr[n].projects[pid].deleted
  {
    hide Next;
    ProjectRowsExactly(tr, acts, n, pid);
  }

  /** Cancelled and deleted project rows stay as they are, but that a cancelled one may be deleted. */
  lemma {:induction false} CancelledRowsStay(tr: seq<State>, acts: seq<Action>, m: nat, n: nat, pid: Pid)
    requires IsRun(EMPTY, tr, acts) && m <= n < |tr| && pid in tr[m].projects
    ensures pid in tr[n].projects
    ensures tr[m].projects[pid].deleted ==> tr[n].projects[pid] == tr[m].projects[pid]
    ensures tr[m].projects[pid].status == ProjectStatus.Cancelled ==>
              tr[n].projects[pid] == tr[m].projects[pid].(deleted := tr[n].projects[pid].deleted)
    decreases n
  {
    hide Next;
    if m < n {
      CancelledRowsStay(tr, acts, m, n - 1, pid);
      ProjectRowsExactly(tr, acts, n - 1, pid);
    }
  }

  /** A project begins as a live draft without a client, in an organization that exists. */
  lemma ProjectsBeginAsDrafts(s: State, a: Action, pid: Pid)
    requires Inv(s) && pid !in s.projects && pid in Next(s, a).projects
    ensures exists org :: a == CreateProject(pid, org) && org in s.orgs
                          && Next(s, a).projects == s.projects[pid := ProjectRow(org, None, ProjectStatus.Draft, false)]
  {
    hide Effect, StaffChange, MustWait, RowHeld, PcOk;
  }

  /** An organization begins with its kind, its creator as the owner, and its entry; an existing one is left alone. */
  lemma OrganizationsBegin(s: State, org: Org, creator: User, personal: bool)
    ensures Next(s, CreateOrg(org, creator, personal)) ==
            if org in s.orgs then s
            else s.(orgs := s.orgs[org := OrgRow(personal, creator)],
                    mem := s.mem[Key(org, creator) := Membership(Owner, MemberStatus.Active)],
                    log := s.log + [OrgCreated(org, creator)])
  {
  }

  // ---------------------------------------------------------------------------------------------------
  // Assignees
  // ---------------------------------------------------------------------------------------------------

  predicate IsActiveStaff(s: State, key: Key) {
    key in s.mem && s.mem[key].status == MemberStatus.Active && s.mem[key].role != Client
  }

  /** The assignee's row, once locked, is that of active staff. */
  ghost predicate HoldsStaff(s: State, x: Tx) {
    x.req.Staffing? && x.pc.Ready? ==>
      x.excl == Some(Key(x.req.org, x.req.assignee)) && IsActiveStaff(s, Key(x.req.org, x.req.assignee))
  }

  /** What a staff assignment knows before its last lock. */
  predicate AimsAtAssignee(x: Tx) {
    x.req.Staffing? ==> x.pc.Begin? || x.pc == LockStaff(x.req.assignee) || x.pc.Ready?
  }

  ghost predicate AllHoldStaff(s: State) {
    forall t :: t in s.txs ==> HoldsStaff(s, s.txs[t]) && AimsAtAssignee(s.txs[t])
  }

  lemma StatementHoldsStaff(s: State, x: Tx)
    requires PcOk(s, x) && AimsAtAssignee(x) && !x.pc.Ready? && Effect(s, x).Ok?
    ensures HoldsStaff(s, Effect(s, x).value) && AimsAtAssignee(Effect(s, x).value)
  {
  }

  /** A row that a transaction holds FOR UPDATE is changed by nobody else. */
  lemma HeldRowStays(s: State, a: Action, t: Tid)
    requires Inv(s) && t in s.txs && t in Next(s, a).txs && s.txs[t].excl.Some?
    ensures var key := s.txs[t].excl.value; key in s.mem && key in Next(s, a).mem && Next(s, a).mem[key] == s.mem[key]
  {
    hide Next, Effect, StaffChange, MustWait, PcOk;
    var key := s.txs[t].excl.value;
    assert LocksOk(s, s.txs[t]);
    TableStep(s, a);
    if a.Step? && a.t in s.txs && a.t != t {
      assert LocksOk(s, s.txs[a.t]) && Compatible(s.txs[t], s.txs[a.t]);
    }
    if a.Step? && a.t == t { OwnStepStays(s, t); }
    if StaffAction(a) && StaffChange(s, a).Ok? {
      if Key(a.org, a.user) == key { assert RowHeld(s, key); } else { StaffTouchesOne(s, a, key); }
    }
  }

  lemma OwnStepStays(s: State, t: Tid)
    requires t in s.txs && t in Next(s, Step(t)).txs
    ensures Next(s, Step(t)).mem == s.mem
  {
    hide Effect, MustWait;
  }

  lemma StaffTouchesOne(s: State, a: Action, key: Key)
    requires StaffAction(a) && StaffChange(s, a).Ok? && Key(a.org, a.user) != key
    ensures key in s.mem ==> key in StaffChange(s, a).value.mem && StaffChange(s, a).value.mem[key] == s.mem[key]
  {
  }

  lemma StepHoldsStaff(s: State, a: Action)
    requires Inv(s) && AllHoldStaff(s)
    ensures AllHoldStaff(Next(s, a))
  {
    hide Effect, PcOk, LocksOk;
    var s' := Next(s, a);
    forall t | t in s'.txs ensures HoldsStaff(s', s'.txs[t]) && AimsAtAssignee(s'.txs[t]) {
      TxStep(s, a, t);
      if t in s.txs {
        assert PcOk(s, s.txs[t]);
        if s'.txs[t] != s.txs[t] {
          StatementHoldsStaff(s, s.txs[t]);
          assert s'.mem == s.mem;
        } else if s.txs[t].excl.Some? {
          HeldRowStays(s, a, t);
        }
      }
    }
  }

  lemma {:induction false} RunHoldsStaff(tr: seq<State>, acts: seq<Action>, n: nat)
    requires IsRun(EMPTY, tr, acts) && n < |tr|
    ensures AllHoldStaff(tr[n])
  {
    hide Next, HoldsStaff;
    if n > 0 {
      RunHoldsStaff(tr, acts, n - 1);
      RunKeeps(tr, acts, n - 1);
      StepHoldsStaff(tr[n - 1], acts[n - 1]);
    }
  }

  /** In every interleaving a staff assignment commits only while the assignee is an active member who is not a client. */
  lemma AssigneesAreStaff(tr: seq<State>, acts: seq<Action>, n: nat, t: Tid)
    requires IsRun(EMPTY, tr, acts) && n < |acts| && t in tr[n].txs && t !in tr[n + 1].txs
    requires t in tr[n + 1].done && tr[n + 1].done[t] == Committed && tr[n].txs[t].req.Staffing?
    ensures var key := Key(tr[n].txs[t].req.org, tr[n].txs[t].req.assignee);
            key in tr[n].mem && tr[n].mem[key].status == MemberStatus.Active && tr[n].mem[key].role != Client
  {
    hide Next;
    RunHoldsStaff(tr, acts, n);
    CommittedWasReady(tr[n], acts[n], t);
    assert HoldsStaff(tr[n], tr[n].txs[t]);
  }

  // ---------------------------------------------------------------------------------------------------
  // Staff
  // ---------------------------------------------------------------------------------------------------

  /** The error of the guards of an addition or a role change; role is the role it gives. */
  function GuardError(s: State, org: Org, actor: User, role: Role): Option<Error> {
    if org !in s.orgs then Some(OrganizationNotFound)
    else if s.orgs[org].personal then Some(PersonalWorkspace)
    else if role == Owner
            && !(Key(org, actor) in s.mem && s.mem[Key(org, actor)] == Membership(Owner, MemberStatus.Active))
    then Some(Forbidden)
    else None
  }

  /** An invitation or an addition: its error, or the one row, the one grant and the one entry that it leaves. */
  lemma AdditionExactly(s: State, org: Org, actor: User, user: User, role: Role, invite: bool)
    ensures var key, status := Key(org, user), if invite then Invited else MemberStatus.Active;
            StaffChange(s, AddMember(org, actor, user, role, invite)) ==
            if GuardError(s, org, actor, role).Some? then Err(GuardError(s, org, actor, role).value)
            else if invite && user == actor then Err(AlreadyMember)
            else if key in s.mem then Err(if invite then InvitationPending else AlreadyMember)
            else Ok(StaffResult(
              s.mem[key := Membership(role, status)],
              if role == Owner then s.grants + [Grant(org, actor, user)] else s.grants,
              Joined(key, actor, Membership(role, status))))
  {
    assert s.grants + [] == s.grants;
  }

  /** A removal spares owners and clients. */
  lemma StaffRemovalExactly(s: State, org: Org, actor: User, user: User)
    ensures var key := Key(org, user);
            StaffChange(s, RemoveMember(org, actor, user)) ==
            if org !in s.orgs then Err(OrganizationNotFound)
            else if s.orgs[org].personal then Err(PersonalWorkspace)
            else if key !in s.mem then Err(MembershipNotFound)
            else if s.mem[key].role == Owner then Err(Forbidden)
            else if s.mem[key].role == Client then Err(ClientAttachedToProject)
            else Ok(StaffResult(s.mem - {key}, s.grants, Removed(key, actor, false)))
  {
  }

  /** A role change is for staff other than owners, and never gives the client role; the status stays. */
  lemma RoleChangeExactly(s: State, org: Org, actor: User, user: User, role: Role)
    ensures var key := Key(org, user);
            StaffChange(s, ChangeRole(org, actor, user, role)) ==
            if role == Client then Err(Forbidden)
            else if GuardError(s, org, actor, role).Some? then Err(GuardError(s, org, actor, role).value)
            else if key !in s.mem then Err(MembershipNotFound)
            else if s.mem[key].role == Owner || s.mem[key].role == Client then Err(Forbidden)
            else Ok(StaffResult(
              s.mem[key := Membership(role, s.mem[key].status)],
              if role == Owner then s.grants + [Grant(org, actor, user)] else s.grants,
              RoleChanged(key, actor, s.mem[key].role, role)))
  {
    assert s.grants + [] == s.grants;
  }

  /** No staff change touches the membership of a client or of an owner. */
  lemma StaffNeverTouchesClients(s: State, a: Action, key: Key)
    requires StaffAction(a) && key in s.mem && (s.mem[key].role == Client || s.mem[key].role == Owner)
    ensures key in Next(s, a).mem && Next(s, a).mem[key] == s.mem[key]
  {
    hide RowHeld;
  }
}
