/**
 The rows of one project (its milestones, deliverables, revisions and assignments, and the audit entries about
 them) and the transactions of the project and assignment services on them. A transaction locks the project row,
 reads what it needs, decides, and then issues SQL statements, each of which may still fail.
 */
module Workflow {
  import opened Common
  import opened ProjectRules
  import opened DueDate

  // row identifiers
  type User = int
  type Mid = int
  type Did = int
  type Aid = int
  type Time = int

  datatype Priority = Low | Medium | High
  datatype Payment = Unpaid | Partial | Paid

  datatype Project = Project(
    name: string,
    description: Option<string>,
    priority: Priority,
    due: Option<Date>,
    status: ProjectStatus,
    client: Option<User>,
    limit: Option<nat>,
    deleted: bool)

  datatype Deliverable = Deliverable(url: string, title: Option<string>, description: Option<string>, submittedBy: User)
  datatype Revision = Revision(number: nat, submittedBy: User)

  datatype Milestone = Milestone(
    title: string,
    description: string,
    due: Option<Date>,
    position: nat,
    status: MilestoneStatus,
    completedAt: Option<Time>,
    count: nat,
    limit: Option<nat>,
    payment: Payment,
    deliverables: map<Did, Deliverable>,
    revisions: seq<Revision>)

  datatype Assignment = Assignment(mid: Mid, assignedTo: User, assignedBy: User)

  /** An audit entry: action, actor and metadata. */
  datatype Entry =
    | ProjectCreated(actor: User, createdName: string)
    | ProjectUpdated(actor: User, name: Option<string>, priority: Option<(Priority, Priority)>,
                     status: Option<(ProjectStatus, ProjectStatus)>, due: DueInput)
    | ProjectRestored(actor: User, was: ProjectStatus, now: ProjectStatus)
    | ProjectDeleted(actor: User, was: ProjectStatus, deletedName: string)
    | ClientChanged(actor: User, from: Option<User>, to: Option<User>)
    | ProjectLimitChanged(actor: User, limitBefore: Option<nat>, limitAfter: Option<nat>)
    | MilestoneCreated(actor: User, mid: Mid, title: string)
    | MilestoneUpdated(actor: User, mid: Mid, retitled: Option<(string, string)>, due: DueInput)
    | Submitted(actor: User, mid: Mid, before: MilestoneStatus, countBefore: nat, countAfter: nat)
    | SignedOff(actor: User, mid: Mid, before: MilestoneStatus)
    | ChangesAsked(actor: User, mid: Mid, before: MilestoneStatus, notes: string)
    | StatusChanged(actor: User, mid: Mid, before: MilestoneStatus, completedBefore: Option<Time>,
                    after: MilestoneStatus, completedAfter: Option<Time>)
    | DeliverableAdded(actor: User, mid: Mid, did: Did, url: string, caption: Option<string>)
    | DeliverableRemoved(actor: User, mid: Mid, did: Did, url: string)
    | PaymentChanged(actor: User, mid: Mid, paymentBefore: Payment, paymentAfter: Payment)
    | MilestoneLimitChanged(actor: User, mid: Mid, limitBefore: Option<nat>, limitAfter: Option<nat>)
    | AssignmentCreated(actor: User, aid: Aid, target: Mid, assignedTo: User)
    | AssignmentUpdated(actor: User, aid: Aid, assignedFrom: User, assignedTo: User)
    | AssignmentRemoved(actor: User, aid: Aid, assignedTo: User)

  datatype Tree = Tree(
    project: Project,
    milestones: map<Mid, Milestone>,
    assignments: map<Aid, Assignment>,
    log: seq<Entry>)

  // ---------------------------------------------------------------------------------------------------
  // SQL statements
  // ---------------------------------------------------------------------------------------------------

  datatype Stmt =
    | UpdateDetails(name: Option<string>, description: Option<string>, priority: Option<Priority>,
                    status: Option<ProjectStatus>, due: DueInput)
    | SetProjectLimit(limit: Option<int>)
    | AssignClient(client: Option<User>)
    | SoftDelete
    | InsertMilestone(mid: Mid, row: Milestone)
    | OnMilestone(mid: Mid, change: RowChange)
    | InsertAssignment(aid: Aid, assignment: Assignment)
    | UpdateAssignedTo(aid: Aid, user: User)
    | DeleteAssignment(aid: Aid)
    | Log(entry: Entry)
      // audit entries that read the row again after the update
    | LogStatus(actor: User, mid: Mid, before: MilestoneStatus, completedBefore: Option<Time>, after: MilestoneStatus)
    | LogLimit(actor: User, mid: Mid, limitBefore: Option<nat>)

  /** The statements on one milestone and on its deliverable and revision rows. */
  datatype RowChange =
    | SetDetails(title: Option<string>, description: Option<string>, due: DueInput, position: Option<int>)
    | SetStatus(current: MilestoneStatus, next: MilestoneStatus, now: Time)
    | SubmitRow(current: MilestoneStatus)
    | InsertRevision(revision: Revision)
    | SetPayment(was: Payment, payment: Payment)
    | SetLimit(limit: Option<int>)
    | InsertDeliverable(did: Did, deliverable: Deliverable)
    | DeleteDeliverable(did: Did)

  function Coalesce<T>(value: Option<T>, default: T): T {
    if value.Some? then value.value else default
  }

  function NewDue(input: DueInput, current: Option<Date>): Option<Date> {
    match input
    case Absent => current
    case Clear => None
    case Due(d) => Some(d)
  }

  /** The largest value of an INTEGER column. */
  const MAX_INTEGER: int := 0x7fff_ffff

  /** The CHECK constraint on revision limits. */
  predicate LimitAllowed(limit: Option<int>) {
    limit.Some? ==> 1 <= limit.value <= MAX_INTEGER
  }

  /** The CHECK constraints on the texts of a deliverable. */
  predicate TextsAllowed(d: Deliverable) {
    (d.title.Some? ==> |d.title.value| <= 200) && (d.description.Some? ==> |d.description.value| <= 2000)
  }

  function AsNat(limit: Option<int>): Option<nat>
    requires LimitAllowed(limit)
  {
    if limit.Some? then Some(limit.value) else None
  }

  /** The milestone row after a statement whose guard it meets. */
  function ChangeRow(m: Milestone, c: RowChange): Result<Milestone> {
    match c
    case SetDetails(title, description, due, position) =>
      if position.Some? && !(0 <= position.value <= MAX_INTEGER) then Err(DatabaseError)
      else Ok(m.(title := Coalesce(title, m.title), description := Coalesce(description, m.description),
                 due := NewDue(due, m.due), position := if position.Some? then position.value else m.position))
    case SetStatus(current, next, now) =>
      if m.status != current then Err(InvalidStatusTransition)
      else Ok(m.(status := next,
                 completedAt := if next == MilestoneStatus.Completed then Some(Coalesce(m.completedAt, now))
                                else m.completedAt))
    case SubmitRow(current) =>
      if m.status != current then Err(InvalidStatusTransition)
      else if m.count >= MAX_INTEGER then Err(DatabaseError)
      else Ok(m.(status := AwaitingApproval, count := m.count + 1))
    case InsertRevision(revision) =>
      if exists r <- m.revisions :: r.number == revision.number then Err(DatabaseError)
      else Ok(m.(revisions := m.revisions + [revision]))
    case SetPayment(was, payment) => if m.payment != was then Err(MilestoneNotFound) else Ok(m.(payment := payment))
    case SetLimit(limit) => if !LimitAllowed(limit) then Err(DatabaseError) else Ok(m.(limit := AsNat(limit)))
    case InsertDeliverable(did, d) =>
      if did in m.deliverables || !TextsAllowed(d) then Err(DatabaseError)
      else Ok(m.(deliverables := m.deliverables[did := d]))
    case DeleteDeliverable(did) =>
      if did !in m.deliverables then Err(DeliverableNotFound) else Ok(m.(deliverables := m.deliverables - {did}))
  }

  /** The error when no milestone row matches. */
  function NoRow(c: RowChange): Error {
    match c
    case SetDetails(_, _, _, _) => MilestoneNotFound
    case SetStatus(_, _, _) => InvalidStatusTransition
    case SubmitRow(_) => InvalidStatusTransition
    case SetPayment(_, _) => MilestoneNotFound
    case SetLimit(_) => MilestoneNotFound
    case DeleteDeliverable(_) => DeliverableNotFound
    case _ => DatabaseError
  }

  /** One SQL statement on the current row versions. */
  function Execute(t: Tree, s: Stmt): Result<Tree> {
    match s
    case UpdateDetails(name, description, priority, status, due) =>
      Ok(t.(project := t.project.(name := Coalesce(name, t.project.name),
                                  description := if description.Some? then description else t.project.description,
                                  priority := Coalesce(priority, t.project.priority),
                                  status := Coalesce(status, t.project.status),
                                  due := NewDue(due, t.project.due))))
    case SetProjectLimit(limit) =>
      if !LimitAllowed(limit) then Err(DatabaseError) else Ok(t.(project := t.project.(limit := AsNat(limit))))
    case AssignClient(client) => Ok(t.(project := t.project.(client := client)))
    case SoftDelete =>
      if t.project.deleted then Err(ProjectNotFound) else Ok(t.(project := t.project.(deleted := true)))
    case InsertMilestone(mid, row) =>
      if mid in t.milestones || row.title == "" then Err(DatabaseError)
      else Ok(t.(milestones := t.milestones[mid := row]))
    case OnMilestone(mid, change) =>
      if mid !in t.milestones then Err(NoRow(change))
      else
        (match ChangeRow(t.milestones[mid], change)
         case Ok(m) => Ok(t.(milestones := t.milestones[mid := m]))
         case Err(e) => Err(e))
    case InsertAssignment(aid, a) =>
      // unique index: one assignment a project
      if t.assignments != map[] then Err(DatabaseError) else Ok(t.(assignments := map[aid := a]))
    case UpdateAssignedTo(aid, user) =>
      if aid !in t.assignments then Err(AssignmentNotFound)
      else Ok(t.(assignments := t.assignments[aid := t.assignments[aid].(assignedTo := user)]))
    case DeleteAssignment(aid) =>
      if aid !in t.assignments then Err(AssignmentNotFound) else Ok(t.(assignments := t.assignments - {aid}))
    case Log(entry) => Ok(t.(log := t.log + [entry]))
    case LogStatus(actor, mid, before, completedBefore, after) =>
      if mid !in t.milestones then Err(MilestoneNotFound)
      else Ok(t.(log := t.log + [StatusChanged(actor, mid, before, completedBefore, after, t.milestones[mid].completedAt)]))
    case LogLimit(actor, mid, limitBefore) =>
      if mid !in t.milestones then Err(MilestoneNotFound)
      else Ok(t.(log := t.log + [MilestoneLimitChanged(actor, mid, limitBefore,
                                                       EffectiveLimit(t.milestones[mid].limit, t.project.limit))]))
  }

  function ExecuteAll(t: Tree, stmts: seq<Stmt>): Result<Tree>
    decreases |stmts|
  {
    if stmts == [] then Ok(t)
    else
      match Execute(t, stmts[0])
      case Ok(u) => ExecuteAll(u, stmts[1..])
      case Err(e) => Err(e)
  }

  // ---------------------------------------------------------------------------------------------------
  // Operations
  // ---------------------------------------------------------------------------------------------------

  /** The priority and status fields of an update request are free text. */
  datatype Field<T> = Missing | Known(value: T) | Unknown

  datatype Op =
    | Update(actor: User, name: string, description: string, newPriority: Field<Priority>,
             newStatus: Field<ProjectStatus>, due: DueInput, today: Date)
    | Delete(actor: User)
      // eligible: the FOR SHARE read found an active client membership
    | Assign(actor: User, client: Option<User>, eligible: bool)
    | LimitProject(actor: User, limit: Option<int>)
    | CreateMilestone(actor: User, mid: Mid, title: string, description: string, due: DueInput, today: Date)
    | UpdateMilestone(actor: User, mid: Mid, title: string, description: string, due: DueInput, position: int, today: Date)
    | Submit(actor: User, mid: Mid)
    | Approve(actor: User, mid: Mid)
    | RequestChanges(actor: User, mid: Mid, notes: string)
    | ChangeStatus(actor: User, mid: Mid, next: MilestoneStatus, now: Time)
    | AddDeliverable(actor: User, mid: Mid, did: Did, url: string, caption: Option<string>, text: Option<string>)
    | RemoveDeliverable(actor: User, mid: Mid, did: Did)
    | ChangePayment(actor: User, mid: Mid, payment: Payment)
    | LimitMilestone(actor: User, mid: Mid, limit: Option<int>)
      // eligible: the assignee is an active staff member
    | CreateAssignment(actor: User, aid: Aid, mid: Mid, assignee: User, eligible: bool)
    | MoveAssignment(actor: User, aid: Aid, assignee: User, eligible: bool)
    | RemoveAssignment(actor: User, aid: Aid)

  /** The milestone row that an operation reads. */
  function Target(op: Op): Option<Mid> {
    match op
    case CreateMilestone(_, _, _, _, _, _) => None
    case UpdateMilestone(_, mid, _, _, _, _, _) => Some(mid)
    case Submit(_, mid) => Some(mid)
    case Approve(_, mid) => Some(mid)
    case RequestChanges(_, mid, _) => Some(mid)
    case ChangeStatus(_, mid, _, _) => Some(mid)
    case AddDeliverable(_, mid, _, _, _, _) => Some(mid)
    case RemoveDeliverable(_, mid, _) => Some(mid)
    case ChangePayment(_, mid, _) => Some(mid)
    case LimitMilestone(_, mid, _) => Some(mid)
    case CreateAssignment(_, _, mid, _, _) => Some(mid)
    case _ => None
  }

  function ReadMilestone(t: Tree, op: Op): Option<Milestone> {
    if Target(op).Some? && Target(op).value in t.milestones then Some(t.milestones[Target(op).value]) else None
  }

  /** The remaining reads: the deliverable count, one deliverable, or one assignment. */
  datatype Children = Children(count: nat, deliverable: Option<Deliverable>, assignment: Option<Assignment>)

  function ReadChildren(t: Tree, op: Op): Children {
    var m := ReadMilestone(t, op);
    Children(
      if m.Some? then |m.value.deliverables| else 0,
      if op.RemoveDeliverable? && m.Some? && op.did in m.value.deliverables then Some(m.value.deliverables[op.did])
      else None,
      if (op.MoveAssignment? || op.RemoveAssignment?) && op.aid in t.assignments then Some(t.assignments[op.aid]) else None)
  }

  function Text(s: string): Option<string> {
    if s == "" then None else Some(s)
  }

  function NewMilestone(title: string, description: string, due: DueInput): Milestone {
    Milestone(title, description, NewDue(due, None), 0, Pending, None, 0, None, Unpaid, map[], [])
  }

  /** The statements of an operation that has read p, m and c, or the error it returns. */
  function Decide(op: Op, p: Project, m: Option<Milestone>, c: Children): Result<seq<Stmt>> {
    if op.AddDeliverable? && !IsHttpUrl(op.url) then Err(Validation)
    else if p.deleted then Err(ProjectNotFound)
    else if op.Update? then DecideUpdate(op, p)
    else if op.Delete? then Ok([SoftDelete, Log(ProjectDeleted(op.actor, p.status, p.name))])
    else if (op.Approve? || op.RequestChanges?) && p.client != Some(op.actor) then Err(ProjectNotFound)
    else if Frozen(p.status) then Err(InvalidStatusTransition)
    else if op.Assign? || op.LimitProject? || op.CreateMilestone? then DecideProject(op, p)
    else if op.MoveAssignment? || op.RemoveAssignment? then DecideAssignment(op, c)
    else if m.None? then Err(MilestoneNotFound)
    else DecideMilestone(op, p, m.value, c)
  }

  function DecideUpdate(op: Op, p: Project): Result<seq<Stmt>>
    requires op.Update?
  {
    var restore := p.status == Archived && op.newStatus == Known(ProjectStatus.Active)
                   && op.name == "" && op.description == "" && op.newPriority.Missing? && op.due.Absent?;
    if Frozen(p.status) && !restore then Err(InvalidStatusTransition)
    else if restore then
      Ok([UpdateDetails(None, None, None, Some(ProjectStatus.Active), Absent),
          Log(ProjectRestored(op.actor, p.status, ProjectStatus.Active))])
    else if InPast(op.due, op.today) then Err(DueDateInPast)
    else if op.newPriority.Unknown? then Err(InvalidProjectPriority)
    else if op.newStatus.Unknown? || (op.newStatus.Known? && !ProjectTransition(p.status, op.newStatus.value)) then
      Err(InvalidStatusTransition)
    else
      Ok([UpdateDetails(Text(op.name), Text(op.description),
                        if op.newPriority.Known? then Some(op.newPriority.value) else None,
                        if op.newStatus.Known? then Some(op.newStatus.value) else None, op.due),
          Log(ProjectUpdated(op.actor, Text(op.name),
                             if op.newPriority.Known? then Some((p.priority, op.newPriority.value)) else None,
                             if op.newStatus.Known? then Some((p.status, op.newStatus.value)) else None, op.due))])
  }

  function DecideProject(op: Op, p: Project): Result<seq<Stmt>>
    requires op.Assign? || op.LimitProject? || op.CreateMilestone?
  {
    match op
    case Assign(actor, client, eligible) =>
      if client == p.client then Ok([])
      else if client.Some? && !eligible then Err(ClientNotFound)
      else Ok([AssignClient(client), Log(ClientChanged(actor, p.client, client))])
    case LimitProject(actor, limit) =>
      if !LimitAllowed(limit) then Err(DatabaseError)
      else Ok([SetProjectLimit(limit), Log(ProjectLimitChanged(actor, p.limit, AsNat(limit)))])
    case CreateMilestone(actor, mid, title, description, due, today) =>
      if InPast(due, today) then Err(DueDateInPast)
      else Ok([InsertMilestone(mid, NewMilestone(title, description, due)), Log(MilestoneCreated(actor, mid, title))])
  }

  function DecideAssignment(op: Op, c: Children): Result<seq<Stmt>>
    requires op.MoveAssignment? || op.RemoveAssignment?
  {
    if c.assignment.None? then Err(AssignmentNotFound)
    else
      match op
      case MoveAssignment(actor, aid, assignee, eligible) =>
        if !eligible then Err(MembershipNotFound)
        else Ok([UpdateAssignedTo(aid, assignee),
                 Log(AssignmentUpdated(actor, aid, c.assignment.value.assignedTo, assignee))])
      case RemoveAssignment(actor, aid) =>
        Ok([DeleteAssignment(aid), Log(AssignmentRemoved(actor, aid, c.assignment.value.assignedTo))])
  }

  function DecideMilestone(op: Op, p: Project, m: Milestone, c: Children): Result<seq<Stmt>>
    requires Target(op).Some?
  {
    match op
    case UpdateMilestone(actor, mid, title, description, due, position, today) =>
      if title == "" && description == "" && due.Absent? && position == 0 then Ok([])
      else if InPast(due, today) then Err(DueDateInPast)
      else Ok([OnMilestone(mid, SetDetails(Text(title), Text(description), due,
                                           if position == 0 then None else Some(position))),
               Log(MilestoneUpdated(actor, mid, if title == "" then None else Some((m.title, title)), due))])
    case Submit(actor, mid) =>
      if m.status == AwaitingApproval then Ok([])
      else if m.status != InProgress && m.status != ChangesRequested then Err(InvalidStatusTransition)
      else if p.client.None? then Err(ProjectHasNoClient)
      else if c.count < 1 then Err(DeliverableRequired)
      else Ok([OnMilestone(mid, SubmitRow(m.status)), OnMilestone(mid, InsertRevision(Revision(m.count + 1, actor))),
               Log(Submitted(actor, mid, m.status, m.count, m.count + 1))])
    case Approve(actor, mid) =>
      if m.status == Approved then Ok([])
      else if m.status != AwaitingApproval then Err(MilestoneNotAwaitingApproval)
      else Ok([OnMilestone(mid, SetStatus(AwaitingApproval, Approved, 0)), Log(SignedOff(actor, mid, m.status))])
    case RequestChanges(actor, mid, notes) =>
      if m.status != AwaitingApproval then Err(MilestoneNotAwaitingApproval)
      else Ok([OnMilestone(mid, SetStatus(AwaitingApproval, ChangesRequested, 0)),
               Log(ChangesAsked(actor, mid, m.status, notes))])
    case ChangeStatus(actor, mid, next, now) =>
      if ActionOnly(next) then Err(InvalidStatusTransition)
      else if m.status == next then Ok([])
      else if !MilestoneTransition(m.status, next) then Err(InvalidStatusTransition)
      else Ok([OnMilestone(mid, SetStatus(m.status, next, now)),
               LogStatus(actor, mid, m.status, m.completedAt, next)])
    case AddDeliverable(actor, mid, did, url, caption, text) =>
      if Closed(m.status) then Err(InvalidStatusTransition)
      else Ok([OnMilestone(mid, InsertDeliverable(did, Deliverable(url, caption, text, actor))),
               Log(DeliverableAdded(actor, mid, did, url, caption))])
    case RemoveDeliverable(actor, mid, did) =>
      if Closed(m.status) then Err(InvalidStatusTransition)
      else if c.deliverable.None? then Err(DeliverableNotFound)
      else Ok([OnMilestone(mid, DeleteDeliverable(did)),
               Log(DeliverableRemoved(actor, mid, did, c.deliverable.value.url))])
    case ChangePayment(actor, mid, payment) =>
      if m.payment == payment then Ok([])
      else Ok([OnMilestone(mid, SetPayment(m.payment, payment)),
               Log(PaymentChanged(actor, mid, m.payment, payment))])
    case LimitMilestone(actor, mid, limit) =>
      Ok([OnMilestone(mid, SetLimit(limit)), LogLimit(actor, mid, EffectiveLimit(m.limit, p.limit))])
    case CreateAssignment(actor, aid, mid, assignee, eligible) =>
      if !eligible then Err(MembershipNotFound)
      else Ok([InsertAssignment(aid, Assignment(mid, assignee, actor)),
               Log(AssignmentCreated(actor, aid, mid, assignee))])
  }

  /** A whole transaction, run alone. */
  function Apply(t: Tree, op: Op): Result<Tree> {
    match Decide(op, t.project, ReadMilestone(t, op), ReadChildren(t, op))
    case Ok(stmts) => ExecuteAll(t, stmts)
    case Err(e) => Err(e)
  }

  /** A transaction that ends in an error is rolled back. */
  function Next(t: Tree, op: Op): Tree {
    match Apply(t, op)
    case Ok(u) => u
    case Err(_) => t
  }

  /** A project as Create leaves it. */
  function NewTree(actor: User, name: string, description: string, priority: Priority, due: DueInput): Tree {
    Tree(Project(name, Text(description), priority, NewDue(due, None), Draft, None, None, false), map[], map[],
         [ProjectCreated(actor, name)])
  }

  /** tr[i] is the tree in which ops[i] is applied, starting from t. */
  ghost predicate IsRun(t: Tree, tr: seq<Tree>, ops: seq<Op>) {
    && |tr| == |ops| + 1
    && tr[0] == t
    && forall i :: 0 <= i < |ops| ==> tr[i + 1] == Next(tr[i], ops[i])
  }
}
