/** The statements of the project and assignment repositories on the rows that one transaction sees. */
module ProjectRepository {
  import opened Common
  import opened DueDate
  import opened ProjectRules
  import opened Workflow
  import Tenancy

  datatype Key = Key(org: int, project: int)

  type Members = map<Tenancy.Key, Tenancy.Membership>

  predicate IsActive(members: Members, org: int, user: User) {
    var k := Tenancy.Key(org, user);
    k in members && members[k].status == Tenancy.MemberStatus.Active
  }

  predicate ActiveClient(members: Members, org: int, user: User) {
    IsActive(members, org, user) && members[Tenancy.Key(org, user)].role == Tenancy.Client
  }

  predicate ActiveStaff(members: Members, org: int, user: User) {
    IsActive(members, org, user) && members[Tenancy.Key(org, user)].role != Tenancy.Client
  }

  /** A milestone as the service returns it. */
  datatype View = View(row: Milestone, limit: Option<nat>, reached: bool)

  function ReadView(t: Tree, mid: Mid): View
    requires mid in t.milestones
  {
    var limit := EffectiveLimit(t.milestones[mid].limit, t.project.limit);
    View(t.milestones[mid], limit, RevisionLimitReached(t.milestones[mid].count, limit))
  }

  /** The error of a statement on a project that does not exist. */
  function NoProjectRow(s: Stmt): Error
    requires !s.Log? && !s.LogStatus? && !s.LogLimit?
  {
    match s
    case UpdateDetails(_, _, _, _, _) => ProjectNotFound
    case SetProjectLimit(_) => ProjectNotFound
    case AssignClient(_) => ProjectNotFound
    case SoftDelete => ProjectNotFound
    case OnMilestone(_, change) => NoRow(change)
    case UpdateAssignedTo(_, _) => AssignmentNotFound
    case DeleteAssignment(_) => AssignmentNotFound
    case _ => DatabaseError  // foreign keys
  }

  /** The statement s changed the rows of key from before to those of tx and reported r, or the database failed. */
  ghost predicate Executed(tx: Tx, before: map<Key, Tree>, key: Key, s: Stmt, r: Result<()>)
    requires !s.Log? && !s.LogStatus? && !s.LogLimit?
    reads tx
  {
    if tx.Failed(r) then tx.rows == before
    else if key !in before then r == Err(NoProjectRow(s)) && tx.rows == before
    else
      match Execute(before[key], s)
      case Ok(t) => r == Ok(()) && tx.rows == before[key := t]
      case Err(e) => r == Err(e) && tx.rows == before
  }

  /** The same for a statement on one milestone. */
  ghost predicate RowChanged(tx: Tx, before: map<Key, Tree>, key: Key, mid: Mid, c: RowChange, r: Result<()>)
    reads tx
  {
    if tx.Failed(r) then tx.rows == before
    else if key !in before || mid !in before[key].milestones then r == Err(NoRow(c)) && tx.rows == before
    else
      var milestones := before[key].milestones;
      match ChangeRow(milestones[mid], c)
      case Ok(m) => r == Ok(()) && tx.rows == before[key := before[key].(milestones := milestones[mid := m])]
      case Err(e) => r == Err(e) && tx.rows == before
  }

  /**
   A transaction: its own view of the tables, the membership table for reading. A statement whose number is in faults fails.
   */
  class Tx {
    var rows: map<Key, Tree>
    var clock: nat
    const members: Members
    const faults: set<nat>

    constructor (rows: map<Key, Tree>, members: Members, faults: set<nat>)
      ensures this.rows == rows && this.members == members && this.faults == faults
    {
      this.rows, this.members, this.faults, clock := rows, members, faults, 0;
    }

    /** r is a failure of the database itself. */
    predicate Failed<T>(r: Result<T>) {
      faults != {} && r == Err(DatabaseError)
    }

    method Send() returns (r: Result<()>)
      modifies this`clock
      ensures r.Ok? || Failed(r)
    {
      r := if clock in faults then Err(DatabaseError) else Ok(());
      clock := clock + 1;
    }

    // -------------------------------------------------------------------------------------------------
    // Reads
    // -------------------------------------------------------------------------------------------------

    method GetProjectForUpdate(key: Key) returns (r: Result<Project>)
      modifies this`clock
      ensures !Failed(r) ==>
                r == if key in rows && !rows[key].project.deleted then Ok(rows[key].project) else Err(ProjectNotFound)
    {
      var _ :- Send();
      if key in rows && !rows[key].project.deleted { return Ok(rows[key].project); }
      r := Err(ProjectNotFound);
    }

    method GetMilestone(key: Key, mid: Mid) returns (r: Result<View>)
      modifies this`clock
      ensures !Failed(r) ==>
                r == if key in rows && !rows[key].project.deleted && mid in rows[key].milestones
                     then Ok(ReadView(rows[key], mid)) else Err(MilestoneNotFound)
    {
      var _ :- Send();
      if key !in rows || rows[key].project.deleted || mid !in rows[key].milestones { return Err(MilestoneNotFound); }
      r := Ok(ReadView(rows[key], mid));
    }

    method IsActiveClientMember(org: int, user: User) returns (r: Result<bool>)
      modifies this`clock
      ensures !Failed(r) ==> r == Ok(ActiveClient(members, org, user))
    {
      var _ :- Send();
      var k := Tenancy.Key(org, user);
      r := Ok(k in members && members[k] == Tenancy.Membership(Tenancy.Client, Tenancy.MemberStatus.Active));
    }

    method EnsureActiveMember(org: int, user: User) returns (r: Result<()>)
      modifies this`clock
      ensures !Failed(r) ==> r == if ActiveStaff(members, org, user) then Ok(()) else Err(MembershipNotFound)
    {
      var _ :- Send();
      var k := Tenancy.Key(org, user);
      if k !in members || members[k].status != Tenancy.MemberStatus.Active || members[k].role == Tenancy.Client {
        return Err(MembershipNotFound);
      }
      r := Ok(());
    }

    method CountDeliverables(key: Key, mid: Mid) returns (r: Result<nat>)
      modifies this`clock
      ensures !Failed(r) ==>
                r == Ok(if key in rows && mid in rows[key].milestones then |rows[key].milestones[mid].deliverables| else 0)
    {
      var _ :- Send();
      if key !in rows || mid !in rows[key].milestones { return Ok(0); }
      r := Ok(|rows[key].milestones[mid].deliverables|);
    }

    method GetDeliverable(key: Key, mid: Mid, did: Did) returns (r: Result<Deliverable>)
      modifies this`clock
      ensures !Failed(r) ==>
                r == if key in rows && mid in rows[key].milestones && did in rows[key].milestones[mid].deliverables
                     then Ok(rows[key].milestones[mid].deliverables[did]) else Err(DeliverableNotFound)
    {
      var _ :- Send();
      if key !in rows || mid !in rows[key].milestones { return Err(DeliverableNotFound); }
      var found := rows[key].milestones[mid].deliverables;
      if did in found { return Ok(found[did]); }
      r := Err(DeliverableNotFound);
    }

    method GetAssignment(key: Key, aid: Aid) returns (r: Result<Assignment>)
      modifies this`clock
      ensures !Failed(r) ==>
                r == if key in rows && aid in rows[key].assignments then Ok(rows[key].assignments[aid])
                     else Err(AssignmentNotFound)
    {
      var _ :- Send();
      if key in rows && aid in rows[key].assignments { return Ok(rows[key].assignments[aid]); }
      r := Err(AssignmentNotFound);
    }

    // -------------------------------------------------------------------------------------------------
    // The project row
    // -------------------------------------------------------------------------------------------------

    method PutProject(key: Key, project: Project)
      requires key in rows
      modifies this
      ensures rows == old(rows)[key := old(rows)[key].(project := project)]
    {
      rows := rows[key := rows[key].(project := project)];
    }

    method InsertProject(key: Key, project: Project) returns (r: Result<()>)
      requires key !in rows
      modifies this`rows, this`clock
      ensures !Failed(r) ==> (r == if project.name == "" then Err(DatabaseError) else Ok(()))
      ensures rows == if r.Ok? then old(rows)[key := Tree(project, map[], map[], [])] else old(rows)
    {
      var _ :- Send();
      if project.name == "" { return Err(DatabaseError); }
      rows := rows[key := Tree(project, map[], map[], [])];
      r := Ok(());
    }

    method UpdateDetails(key: Key, name: Option<string>, description: Option<string>, priority: Option<Priority>,
                         status: Option<ProjectStatus>, due: DueInput) returns (r: Result<()>)
      modifies this
      ensures Executed(this, old(rows), key, Stmt.UpdateDetails(name, description, priority, status, due), r)
    {
      var _ :- Send();
      if key !in rows { return Err(ProjectNotFound); }
      var p := rows[key].project;
      if name.Some? { p := p.(name := name.value); }
      if description.Some? { p := p.(description := description); }
      if priority.Some? { p := p.(priority := priority.value); }
      if status.Some? { p := p.(status := status.value); }
      if due.Due? { p := p.(due := Some(due.date)); }
      if due.Clear? { p := p.(due := None); }
      PutProject(key, p);
      r := Ok(());
    }

    method SetProjectRevisionLimit(key: Key, limit: Option<int>) returns (r: Result<()>)
      modifies this
      ensures Executed(this, old(rows), key, SetProjectLimit(limit), r)
    {
      var _ :- Send();
      if key !in rows { return Err(ProjectNotFound); }
      if limit.Some? && !(1 <= limit.value <= MAX_INTEGER) { return Err(DatabaseError); }
      PutProject(key, rows[key].project.(limit := limit));
      r := Ok(());
    }

    method AssignClient(key: Key, client: Option<User>) returns (r: Result<()>)
      modifies this
      ensures Executed(this, old(rows), key, Stmt.AssignClient(client), r)
    {
      var _ :- Send();
      if key !in rows { return Err(ProjectNotFound); }
      PutProject(key, rows[key].project.(client := client));
      r := Ok(());
    }

    method SoftDelete(key: Key) returns (r: Result<()>)
      modifies this
      ensures Executed(this, old(rows), key, Stmt.SoftDelete, r)
    {
      var _ :- Send();
      if key !in rows { return Err(ProjectNotFound); }
      if rows[key].project.deleted { return Err(ProjectNotFound); }
      PutProject(key, rows[key].project.(deleted := true));
      r := Ok(());
    }

    // -------------------------------------------------------------------------------------------------
    // Milestones and their rows
    // -------------------------------------------------------------------------------------------------

    method PutMilestone(key: Key, mid: Mid, m: Milestone)
      requires key in rows
      modifies this
      ensures rows == old(rows)[key := old(rows)[key].(milestones := old(rows)[key].milestones[mid := m])]
    {
      rows := rows[key := rows[key].(milestones := rows[key].milestones[mid := m])];
    }

    method CreateMilestone(key: Key, mid: Mid, m: Milestone) returns (r: Result<()>)
      modifies this
      ensures Executed(this, old(rows), key, InsertMilestone(mid, m), r)
    {
      var _ :- Send();
      if key !in rows { return Err(DatabaseError); }
      if mid in rows[key].milestones || m.title == "" { return Err(DatabaseError); }
      PutMilestone(key, mid, m);
      r := Ok(());
    }

    method UpdateMilestoneDetails(key: Key, mid: Mid, title: Option<string>, description: Option<string>, due: DueInput,
                                  position: Option<int>) returns (r: Result<()>)
      modifies this
      ensures RowChanged(this, old(rows), key, mid, SetDetails(title, description, due, position), r)
    {
      var _ :- Send();
      if key !in rows || mid !in rows[key].milestones { return Err(MilestoneNotFound); }
      if position.Some? && !(0 <= position.value <= MAX_INTEGER) { return Err(DatabaseError); }
      var m := rows[key].milestones[mid];
      if title.Some? { m := m.(title := title.value); }
      if description.Some? { m := m.(description := description.value); }
      if due.Due? { m := m.(due := Some(due.date)); }
      if due.Clear? { m := m.(due := None); }
      if position.Some? { m := m.(position := position.value); }
      PutMilestone(key, mid, m);
      r := Ok(());
    }

    method SetMilestoneStatus(key: Key, mid: Mid, current: MilestoneStatus, next: MilestoneStatus, now: Time)
      returns (r: Result<()>)
      modifies this
      ensures RowChanged(this, old(rows), key, mid, SetStatus(current, next, now), r)
    {
      var _ :- Send();
      if key !in rows || mid !in rows[key].milestones || rows[key].milestones[mid].status != current {
        return Err(InvalidStatusTransition);
      }
      var m := rows[key].milestones[mid];
      if next == MilestoneStatus.Completed && m.completedAt.None? { m := m.(completedAt := Some(now)); }
      PutMilestone(key, mid, m.(status := next));
      r := Ok(());
    }

    method SubmitMilestone(key: Key, mid: Mid, current: MilestoneStatus) returns (r: Result<()>)
      modifies this
      ensures RowChanged(this, old(rows), key, mid, SubmitRow(current), r)
    {
      var _ :- Send();
      if key !in rows || mid !in rows[key].milestones || rows[key].milestones[mid].status != current {
        return Err(InvalidStatusTransition);
      }
      var m := rows[key].milestones[mid];
      if m.count >= MAX_INTEGER { return Err(DatabaseError); }
      PutMilestone(key, mid, m.(status := AwaitingApproval, count := m.count + 1));
      r := Ok(());
    }

    method CreateMilestoneRevision(key: Key, mid: Mid, number: nat, actor: User) returns (r: Result<()>)
      modifies this
      ensures RowChanged(this, old(rows), key, mid, InsertRevision(Revision(number, actor)), r)
    {
      var _ :- Send();
      if key !in rows || mid !in rows[key].milestones { return Err(DatabaseError); }
      var m := rows[key].milestones[mid];
      if exists revision <- m.revisions :: revision.number == number { return Err(DatabaseError); }
      PutMilestone(key, mid, m.(revisions := m.revisions + [Revision(number, actor)]));
      r := Ok(());
    }

    method SetMilestonePaymentStatus(key: Key, mid: Mid, current: Payment, next: Payment) returns (r: Result<()>)
      modifies this
      ensures RowChanged(this, old(rows), key, mid, SetPayment(current, next), r)
    {
      var _ :- Send();
      if key !in rows || mid !in rows[key].milestones || rows[key].milestones[mid].payment != current {
        return Err(MilestoneNotFound);
      }
      PutMilestone(key, mid, rows[key].milestones[mid].(payment := next));
      r := Ok(());
    }

    method SetMilestoneRevisionLimit(key: Key, mid: Mid, limit: Option<int>) returns (r: Result<()>)
      modifies this
      ensures RowChanged(this, old(rows), key, mid, SetLimit(limit), r)
    {
      var _ :- Send();
      if key !in rows || mid !in rows[key].milestones { return Err(MilestoneNotFound); }
      if limit.Some? && !(1 <= limit.value <= MAX_INTEGER) { return Err(DatabaseError); }
      PutMilestone(key, mid, rows[key].milestones[mid].(limit := limit));
      r := Ok(());
    }

    method CreateDeliverable(key: Key, mid: Mid, did: Did, d: Deliverable) returns (r: Result<()>)
      modifies this
      ensures RowChanged(this, old(rows), key, mid, InsertDeliverable(did, d), r)
    {
      var _ :- Send();
      if key !in rows || mid !in rows[key].milestones { return Err(DatabaseError); }
      var m := rows[key].milestones[mid];
      if did in m.deliverables || !TextsAllowed(d) { return Err(DatabaseError); }
      PutMilestone(key, mid, m.(deliverables := m.deliverables[did := d]));
      r := Ok(());
    }

    method DeleteDeliverable(key: Key, mid: Mid, did: Did) returns (r: Result<()>)
      modifies this
      ensures RowChanged(this, old(rows), key, mid, RowChange.DeleteDeliverable(did), r)
    {
      var _ :- Send();
      if key !in rows || mid !in rows[key].milestones { return Err(DeliverableNotFound); }
      var m := rows[key].milestones[mid];
      if did !in m.deliverables { return Err(DeliverableNotFound); }
      PutMilestone(key, mid, m.(deliverables := m.deliverables - {did}));
      r := Ok(());
    }

    // -------------------------------------------------------------------------------------------------
    // Assignments and the audit log
    // -------------------------------------------------------------------------------------------------

    method PutAssignments(key: Key, assignments: map<Aid, Assignment>)
      requires key in rows
      modifies this
      ensures rows == old(rows)[key := old(rows)[key].(assignments := assignments)]
    {
      rows := rows[key := rows[key].(assignments := assignments)];
    }

    method CreateAssignment(key: Key, aid: Aid, a: Assignment) returns (r: Result<()>)
      modifies this
      ensures Executed(this, old(rows), key, InsertAssignment(aid, a), r)
    {
      var _ :- Send();
      if key !in rows { return Err(DatabaseError); }
      if rows[key].assignments != map[] { return Err(DatabaseError); }
      PutAssignments(key, map[aid := a]);
      r := Ok(());
    }

    method UpdateAssignedTo(key: Key, aid: Aid, user: User) returns (r: Result<()>)
      modifies this
      ensures Executed(this, old(rows), key, Stmt.UpdateAssignedTo(aid, user), r)
    {
      var _ :- Send();
      if key !in rows { return Err(AssignmentNotFound); }
      if aid !in rows[key].assignments { return Err(AssignmentNotFound); }
      PutAssignments(key, rows[key].assignments[aid := rows[key].assignments[aid].(assignedTo := user)]);
      r := Ok(());
    }

    method DeleteAssignment(key: Key, aid: Aid) returns (r: Result<()>)
      modifies this
      ensures Executed(this, old(rows), key, Stmt.DeleteAssignment(aid), r)
    {
      var _ :- Send();
      if key !in rows { return Err(AssignmentNotFound); }
      if aid !in rows[key].assignments { return Err(AssignmentNotFound); }
      PutAssignments(key, rows[key].assignments - {aid});
      r := Ok(());
    }

    method Log(key: Key, entry: Entry) returns (r: Result<()>)
      requires key in rows
      modifies this
      ensures r.Ok? || Failed(r)
      ensures r.Ok? ==> rows == old(rows)[key := old(rows)[key].(log := old(rows)[key].log + [entry])]
    {
      var _ :- Send();
      rows := rows[key := rows[key].(log := rows[key].log + [entry])];
      r := Ok(());
    }
  }
}
