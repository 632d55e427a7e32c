/**
 What each operation of a project does, spelled out from its request: every error with its condition, in the order of
 the checks, and otherwise the exact rows and the exact audit entry.
 */
module WorkflowEffects {
  import opened Common
  import opened DueDate
  import opened ProjectRules
  import opened Workflow
  import opened WorkflowHistory
  import opened WorkflowRuns

  /** Archived and cancelled projects refuse changes. */
  predicate Stopped(t: Tree) {
    t.project.status == ProjectStatus.Archived || t.project.status == ProjectStatus.Cancelled
  }

  /** The error of the checks that precede every change of a milestone. */
  function Refusal(t: Tree, mid: Mid): Option<Error> {
    if t.project.deleted then Some(ProjectNotFound)
    else if Stopped(t) then Some(InvalidStatusTransition)
    else if mid !in t.milestones then Some(MilestoneNotFound)
    else None
  }

  function WithMilestone(t: Tree, mid: Mid, m: Milestone, e: Entry): Tree {
    t.(milestones := t.milestones[mid := m], log := t.log + [e])
  }

  // ---------------------------------------------------------------------------------------------------
  // The project
  // ---------------------------------------------------------------------------------------------------

  /** The PATCH {status: "active"}, alone, on an archived project. */
  predicate Restores(t: Tree, op: Op)
    requires op.Update?
  {
    && t.project.status == ProjectStatus.Archived && op.newStatus == Known(ProjectStatus.Active)
    && op.name == "" && op.description == "" && op.newPriority == Missing && op.due == Absent
  }

  lemma RestoreExactly(t: Tree, op: Op)
    requires op.Update? && !t.project.deleted && Restores(t, op)
    ensures Apply(t, op) == Ok(t.(project := t.project.(status := ProjectStatus.Active),
                                  log := t.log + [ProjectRestored(op.actor, ProjectStatus.Archived, ProjectStatus.Active)]))
  {
    hide DecideProject, DecideMilestone, DecideAssignment;
    var d := Stmts(t, op).value;
    assert d == [d[0], d[1]];
    Two(t, d[0], d[1]);
  }

  lemma UpdateRefusedExactly(t: Tree, op: Op)
    requires op.Update?
    ensures Apply(t, op).Err? <==>
            || t.project.deleted
            || (!Restores(t, op)
                && (|| Stopped(t) || InPast(op.due, op.today) || op.newPriority.Unknown? || op.newStatus.Unknown?
                    || (op.newStatus.Known? && !ProjectTransition(t.project.status, op.newStatus.value))))
    ensures Apply(t, op).Err? ==>
              Apply(t, op).error ==
              if t.project.deleted then ProjectNotFound
              else if Stopped(t) then InvalidStatusTransition
              else if InPast(op.due, op.today) then DueDateInPast
              else if op.newPriority.Unknown? then InvalidProjectPriority
              else InvalidStatusTransition
  {
    hide DecideProject, DecideMilestone, DecideAssignment, InPast, ProjectTransition;
    if Stmts(t, op).Ok? {
      var d := Stmts(t, op).value;
      assert d == [d[0], d[1]];
      Two(t, d[0], d[1]);
    }
  }

  /** A field that the request leaves out keeps its value; the others take the request's. */
  lemma UpdateExactly(t: Tree, op: Op)
    requires op.Update? && Apply(t, op).Ok? && !Restores(t, op)
    ensures var p, u := t.project, Apply(t, op).value;
            && u.project.name == (if op.name != "" then op.name else p.name)
            && u.project.description == (if op.description != "" then Some(op.description) else p.description)
            && u.project.priority == (if op.newPriority.Known? then op.newPriority.value else p.priority)
            && u.project.status == (if op.newStatus.Known? then op.newStatus.value else p.status)
            && (op.due == Absent ==> u.project.due == p.due)
            && (op.due == Clear ==> u.project.due == None)
            && (op.due.Due? ==> u.project.due == Some(op.due.date))
            && u.project.client == p.client && u.project.limit == p.limit && !u.project.deleted
            && u.milestones == t.milestones && u.assignments == t.assignments
            && u.log == t.log + [ProjectUpdated(
                 op.actor, if op.name != "" then Some(op.name) else None,
                 if op.newPriority.Known? then Some((p.priority, op.newPriority.value)) else None,
                 if op.newStatus.Known? then Some((p.status, op.newStatus.value)) else None, op.due)]
  {
    hide DecideProject, DecideMilestone, DecideAssignment, InPast, ProjectTransition;
    var d := Stmts(t, op).value;
    assert d == [d[0], d[1]];
    Two(t, d[0], d[1]);
  }

  lemma DeleteExactly(t: Tree, actor: User)
    ensures Apply(t, Delete(actor)) ==
            if t.project.deleted then Err(ProjectNotFound)
            else Ok(t.(project := t.project.(deleted := true),
                       log := t.log + [ProjectDeleted(actor, t.project.status, t.project.name)]))
  {
    if !t.project.deleted {
      Two(t, SoftDelete, Log(ProjectDeleted(actor, t.project.status, t.project.name)));
    }
  }

  /** eligible: the new client is an active client member. */
  lemma AssignExactly(t: Tree, actor: User, client: Option<User>, eligible: bool)
    ensures Apply(t, Assign(actor, client, eligible)) ==
            if t.project.deleted then Err(ProjectNotFound)
            else if Stopped(t) then Err(InvalidStatusTransition)
            else if client == t.project.client then Ok(t)
            else if client.Some? && !eligible then Err(ClientNotFound)
            else Ok(t.(project := t.project.(client := client),
                       log := t.log + [ClientChanged(actor, t.project.client, client)]))
  {
    hide DecideUpdate, DecideMilestone, DecideAssignment;
    Two(t, AssignClient(client), Log(ClientChanged(actor, t.project.client, client)));
  }

  lemma LimitProjectExactly(t: Tree, actor: User, limit: Option<int>)
    ensures Apply(t, LimitProject(actor, limit)) ==
            if t.project.deleted then Err(ProjectNotFound)
            else if Stopped(t) then Err(InvalidStatusTransition)
            else if limit.Some? && !(1 <= limit.value <= 2147483647) then Err(DatabaseError)
            else Ok(t.(project := t.project.(limit := limit),
                       log := t.log + [ProjectLimitChanged(actor, t.project.limit, limit)]))
  {
    hide DecideUpdate, DecideMilestone, DecideAssignment;
    var op := LimitProject(actor, limit);
    if Stmts(t, op).Ok? {
      var d := Stmts(t, op).value;
      assert d == [d[0], d[1]];
      Two(t, d[0], d[1]);
    }
  }

  /** A project as it is created. */
  lemma NewProjectExactly(actor: User, name: string, description: string, priority: Priority, due: DueInput)
    ensures var t := NewTree(actor, name, description, priority, due);
            && t.project.name == name && t.project.priority == priority && t.project.status == ProjectStatus.Draft
            && t.project.description == (if description == "" then None else Some(description))
            && t.project.due == (if due.Due? then Some(due.date) else None)
            && t.project.client == None && t.project.limit == None && !t.project.deleted
            && t.milestones == map[] && t.assignments == map[] && t.log == [ProjectCreated(actor, name)]
  {
  }

  // ---------------------------------------------------------------------------------------------------
  // Milestones
  // ---------------------------------------------------------------------------------------------------

  lemma CreateMilestoneExactly(t: Tree, op: Op)
    requires op.CreateMilestone?
    ensures Apply(t, op) ==
            if t.project.deleted then Err(ProjectNotFound)
            else if Stopped(t) then Err(InvalidStatusTransition)
            else if InPast(op.due, op.today) then Err(DueDateInPast)
            else if op.mid in t.milestones || op.title == "" then Err(DatabaseError)
            else Ok(WithMilestone(
              t, op.mid,
              Milestone(op.title, op.description, if op.due.Due? then Some(op.due.date) else None, 0,
                        MilestoneStatus.Pending, None, 0, None, Unpaid, map[], []),
              MilestoneCreated(op.actor, op.mid, op.title)))
  {
    hide DecideUpdate, DecideMilestone, DecideAssignment, InPast;
    if Stmts(t, op).Ok? {
      var d := Stmts(t, op).value;
      assert d == [d[0], d[1]];
      Two(t, d[0], d[1]);
    }
  }

  lemma UpdateMilestoneExactly(t: Tree, op: Op)
    requires op.UpdateMilestone?
    ensures Apply(t, op) ==
            if Refusal(t, op.mid).Some? then Err(Refusal(t, op.mid).value)
            else if op.title == "" && op.description == "" && op.due == Absent && op.position == 0 then Ok(t)
            else if InPast(op.due, op.today) then Err(DueDateInPast)
            else if op.position < 0 || op.position > 2147483647 then Err(DatabaseError)
            else
              var m := t.milestones[op.mid];
              Ok(WithMilestone(
                t, op.mid,
                m.(title := if op.title != "" then op.title else m.title,
                   description := if op.description != "" then op.description else m.description,
                   due := if op.due.Due? then Some(op.due.date) else if op.due == Clear then None else m.due,
                   position := if op.position != 0 then op.position else m.position),
                MilestoneUpdated(op.actor, op.mid, if op.title != "" then Some((m.title, op.title)) else None, op.due)))
  {
    hide DecideUpdate, DecideProject, DecideAssignment, InPast;
    if Refusal(t, op.mid).None? && Stmts(t, op).Ok? {
      var d := Stmts(t, op).value;
      if d != [] {
        assert d == [d[0], d[1]];
        Two(t, d[0], d[1]);
      }
    }
  }

  /** The three statements of a submission: the row, its revision row and the entry. */
  lemma SubmissionRows(t: Tree, actor: User, mid: Mid)
    requires mid in t.milestones
    ensures var m := t.milestones[mid];
            ExecuteAll(t, [OnMilestone(mid, SubmitRow(m.status)), OnMilestone(mid, InsertRevision(Revision(m.count + 1, actor))),
                           Log(Entry.Submitted(actor, mid, m.status, m.count, m.count + 1))]) ==
            if m.count >= 2147483647 || exists r <- m.revisions :: r.number == m.count + 1 then Err(DatabaseError)
            else Ok(WithMilestone(
              t, mid,
              m.(status := MilestoneStatus.AwaitingApproval, count := m.count + 1,
                 revisions := m.revisions + [Revision(m.count + 1, actor)]),
              Submitted(actor, mid, m.status, m.count, m.count + 1)))
  {
    var m := t.milestones[mid];
    var a, b := OnMilestone(mid, SubmitRow(m.status)), OnMilestone(mid, InsertRevision(Revision(m.count + 1, actor)));
    var c := Log(Entry.Submitted(actor, mid, m.status, m.count, m.count + 1));
    Three(t, a, b, c);
    if m.count < 2147483647 {
      var n := m.(status := MilestoneStatus.AwaitingApproval, count := m.count + 1);
      var u := t.(milestones := t.milestones[mid := n]);
      assert Execute(t, a) == Ok(u);
      Two(u, b, c);
      var row := n.(revisions := n.revisions + [Revision(m.count + 1, actor)]);
      assert u.milestones[mid := row] == t.milestones[mid := row];
    }
  }

  lemma SubmitExactly(t: Tree, actor: User, mid: Mid)
    ensures Apply(t, Submit(actor, mid)) ==
            if Refusal(t, mid).Some? then Err(Refusal(t, mid).value)
            else
              var m := t.milestones[mid];
              if m.status == MilestoneStatus.AwaitingApproval then Ok(t)
              else if m.status != MilestoneStatus.InProgress && m.status != MilestoneStatus.ChangesRequested then
                Err(InvalidStatusTransition)
              else if t.project.client == None then Err(ProjectHasNoClient)
              else if m.deliverables == map[] then Err(DeliverableRequired)
              else if m.count >= 2147483647 || exists r <- m.revisions :: r.number == m.count + 1 then Err(DatabaseError)
              else Ok(WithMilestone(
                t, mid,
                m.(status := MilestoneStatus.AwaitingApproval, count := m.count + 1,
                   revisions := m.revisions + [Revision(m.count + 1, actor)]),
                Submitted(actor, mid, m.status, m.count, m.count + 1)))
  {
    hide DecideUpdate, DecideProject, DecideAssignment;
    var op := Submit(actor, mid);
    if Refusal(t, mid).None? {
      var m := t.milestones[mid];
      assert m.deliverables == map[] <==> |m.deliverables| == 0;
      if Stmts(t, op).Ok? && Stmts(t, op).value != [] {
        hide ExecuteAll;
        SubmissionRows(t, actor, mid);
      }
    }
  }

  lemma ApproveExactly(t: Tree, actor: User, mid: Mid)
    ensures Apply(t, Approve(actor, mid)) ==
            if t.project.deleted || t.project.client != Some(actor) then Err(ProjectNotFound)
            else if Stopped(t) then Err(InvalidStatusTransition)
            else if mid !in t.milestones then Err(MilestoneNotFound)
            else
              var m := t.milestones[mid];
              if m.status == MilestoneStatus.Approved then Ok(t)
              else if m.status != MilestoneStatus.AwaitingApproval then Err(MilestoneNotAwaitingApproval)
              else Ok(WithMilestone(t, mid, m.(status := MilestoneStatus.Approved),
                                    SignedOff(actor, mid, MilestoneStatus.AwaitingApproval)))
  {
    hide DecideUpdate, DecideProject, DecideAssignment;
    var op := Approve(actor, mid);
    if Stmts(t, op).Ok? && Stmts(t, op).value != [] {
      var d := Stmts(t, op).value;
      assert d == [d[0], d[1]];
      Two(t, d[0], d[1]);
    }
  }

  lemma RequestChangesExactly(t: Tree, actor: User, mid: Mid, notes: string)
    ensures Apply(t, RequestChanges(actor, mid, notes)) ==
            if t.project.deleted || t.project.client != Some(actor) then Err(ProjectNotFound)
            else if Stopped(t) then Err(InvalidStatusTransition)
            else if mid !in t.milestones then Err(MilestoneNotFound)
            else
              var m := t.milestones[mid];
              if m.status != MilestoneStatus.AwaitingApproval then Err(MilestoneNotAwaitingApproval)
              else Ok(WithMilestone(t, mid, m.(status := MilestoneStatus.ChangesRequested),
                                    ChangesAsked(actor, mid, MilestoneStatus.AwaitingApproval, notes)))
  {
    hide DecideUpdate, DecideProject, DecideAssignment;
    var op := RequestChanges(actor, mid, notes);
    if Stmts(t, op).Ok? {
      var d := Stmts(t, op).value;
      assert d == [d[0], d[1]];
      Two(t, d[0], d[1]);
    }
  }

  lemma ChangeStatusExactly(t: Tree, actor: User, mid: Mid, next: MilestoneStatus, now: Time)
    ensures Apply(t, ChangeStatus(actor, mid, next, now)) ==
            if Refusal(t, mid).Some? then Err(Refusal(t, mid).value)
            else if next in {MilestoneStatus.AwaitingApproval, MilestoneStatus.Approved, MilestoneStatus.ChangesRequested} then
              Err(InvalidStatusTransition)
            else
              var m := t.milestones[mid];
              if m.status == next then Ok(t)
              else if !MilestoneTransition(m.status, next) then Err(InvalidStatusTransition)
              else
                var stamp := if next == MilestoneStatus.Completed && m.completedAt == None then Some(now) else m.completedAt;
                Ok(WithMilestone(t, mid, m.(status := next, completedAt := stamp),
                                 StatusChanged(actor, mid, m.status, m.completedAt, next, stamp)))
  {
    hide DecideUpdate, DecideProject, DecideAssignment, MilestoneTransition;
    var op := ChangeStatus(actor, mid, next, now);
    if Refusal(t, mid).None? && Stmts(t, op).Ok? && Stmts(t, op).value != [] {
      var d := Stmts(t, op).value;
      assert d == [d[0], d[1]];
      Two(t, d[0], d[1]);
    }
  }

  lemma ChangePaymentExactly(t: Tree, actor: User, mid: Mid, payment: Payment)
    ensures Apply(t, ChangePayment(actor, mid, payment)) ==
            if Refusal(t, mid).Some? then Err(Refusal(t, mid).value)
            else
              var m := t.milestones[mid];
              if m.payment == payment then Ok(t)
              else Ok(WithMilestone(t, mid, m.(payment := payment), PaymentChanged(actor, mid, m.payment, payment)))
  {
    hide DecideUpdate, DecideProject, DecideAssignment;
    var op := ChangePayment(actor, mid, payment);
    if Refusal(t, mid).None? && Stmts(t, op).Ok? && Stmts(t, op).value != [] {
      var d := Stmts(t, op).value;
      assert d == [d[0], d[1]];
      Two(t, d[0], d[1]);
    }
  }

  lemma LimitMilestoneExactly(t: Tree, actor: User, mid: Mid, limit: Option<int>)
    ensures Apply(t, LimitMilestone(actor, mid, limit)) ==
            if Refusal(t, mid).Some? then Err(Refusal(t, mid).value)
            else if limit.Some? && !(1 <= limit.value <= 2147483647) then Err(DatabaseError)
            else
              var m := t.milestones[mid];
              Ok(WithMilestone(
                t, mid, m.(limit := limit),
                MilestoneLimitChanged(actor, mid, if m.limit != None then m.limit else t.project.limit,
                                      if limit != None then limit else t.project.limit)))
  {
    hide DecideUpdate, DecideProject, DecideAssignment;
    var op := LimitMilestone(actor, mid, limit);
    if Refusal(t, mid).None? && Stmts(t, op).Ok? {
      var d := Stmts(t, op).value;
      assert d == [d[0], d[1]];
      Two(t, d[0], d[1]);
    }
  }

  // ---------------------------------------------------------------------------------------------------
  // Deliverables
  // ---------------------------------------------------------------------------------------------------

  lemma AddDeliverableExactly(t: Tree, op: Op)
    requires op.AddDeliverable?
    ensures Apply(t, op) ==
            if !IsHttpUrl(op.url) then Err(Validation)
            else if Refusal(t, op.mid).Some? then Err(Refusal(t, op.mid).value)
            else
              var m := t.milestones[op.mid];
              if m.status == MilestoneStatus.Completed || m.status == MilestoneStatus.Cancelled then
                Err(InvalidStatusTransition)
              else if || op.did in m.deliverables
                      || (op.caption.Some? && |op.caption.value| > 200) || (op.text.Some? && |op.text.value| > 2000) then
                Err(DatabaseError)
              else Ok(WithMilestone(
                t, op.mid,
                m.(deliverables := m.deliverables[op.did := Deliverable(op.url, op.caption, op.text, op.actor)]),
                DeliverableAdded(op.actor, op.mid, op.did, op.url, op.caption)))
  {
    hide DecideUpdate, DecideProject, DecideAssignment, IsHttpUrl;
    if Refusal(t, op.mid).None? && Stmts(t, op).Ok? {
      var d := Stmts(t, op).value;
      assert d == [d[0], d[1]];
      Two(t, d[0], d[1]);
    }
  }

  lemma RemoveDeliverableExactly(t: Tree, actor: User, mid: Mid, did: Did)
    ensures Apply(t, RemoveDeliverable(actor, mid, did)) ==
            if Refusal(t, mid).Some? then Err(Refusal(t, mid).value)
            else
              var m := t.milestones[mid];
              if m.status == MilestoneStatus.Completed || m.status == MilestoneStatus.Cancelled then
                Err(InvalidStatusTransition)
              else if did !in m.deliverables then Err(DeliverableNotFound)
              else Ok(WithMilestone(t, mid, m.(deliverables := m.deliverables - {did}),
                                    DeliverableRemoved(actor, mid, did, m.deliverables[did].url)))
  {
    hide DecideUpdate, DecideProject, DecideAssignment;
    var op := RemoveDeliverable(actor, mid, did);
    if Refusal(t, mid).None? && Stmts(t, op).Ok? {
      var d := Stmts(t, op).value;
      assert d == [d[0], d[1]];
      Two(t, d[0], d[1]);
    }
  }

  // ---------------------------------------------------------------------------------------------------
  // Assignments
  // ---------------------------------------------------------------------------------------------------

  /** eligible: the assignee is active staff. */
  lemma CreateAssignmentExactly(t: Tree, actor: User, aid: Aid, mid: Mid, assignee: User, eligible: bool)
    ensures Apply(t, CreateAssignment(actor, aid, mid, assignee, eligible)) ==
            if Refusal(t, mid).Some? then Err(Refusal(t, mid).value)
            else if !eligible then Err(MembershipNotFound)
            else if t.assignments != map[] then Err(DatabaseError)
            else Ok(t.(assignments := map[aid := Assignment(mid, assignee, actor)],
                       log := t.log + [AssignmentCreated(actor, aid, mid, assignee)]))
  {
    hide DecideUpdate, DecideProject, DecideAssignment;
    var op := CreateAssignment(actor, aid, mid, assignee, eligible);
    if Refusal(t, mid).None? && Stmts(t, op).Ok? {
      var d := Stmts(t, op).value;
      assert d == [d[0], d[1]];
      Two(t, d[0], d[1]);
    }
  }

  lemma MoveAssignmentExactly(t: Tree, actor: User, aid: Aid, assignee: User, eligible: bool)
    ensures Apply(t, MoveAssignment(actor, aid, assignee, eligible)) ==
            if t.project.deleted then Err(ProjectNotFound)
            else if Stopped(t) then Err(InvalidStatusTransition)
            else if aid !in t.assignments then Err(AssignmentNotFound)
            else if !eligible then Err(MembershipNotFound)
            else Ok(t.(assignments := t.assignments[aid := t.assignments[aid].(assignedTo := assignee)],
                       log := t.log + [AssignmentUpdated(actor, aid, t.assignments[aid].assignedTo, assignee)]))
  {
    hide DecideUpdate, DecideProject, DecideMilestone;
    var op := MoveAssignment(actor, aid, assignee, eligible);
    if Stmts(t, op).Ok? {
      var d := Stmts(t, op).value;
      assert d == [d[0], d[1]];
      Two(t, d[0], d[1]);
    }
  }

  lemma RemoveAssignmentExactly(t: Tree, actor: User, aid: Aid)
    ensures Apply(t, RemoveAssignment(actor, aid)) ==
            if t.project.deleted then Err(ProjectNotFound)
            else if Stopped(t) then Err(InvalidStatusTransition)
            else if aid !in t.assignments then Err(AssignmentNotFound)
            else Ok(t.(assignments := t.assignments - {aid},
                       log := t.log + [AssignmentRemoved(actor, aid, t.assignments[aid].assignedTo)]))
  {
    hide DecideUpdate, DecideProject, DecideMilestone;
    var op := RemoveAssignment(actor, aid);
    if Stmts(t, op).Ok? {
      var d := Stmts(t, op).value;
      assert d == [d[0], d[1]];
      Two(t, d[0], d[1]);
    }
  }

  // ---------------------------------------------------------------------------------------------------
  // Which call sets which status
  // ---------------------------------------------------------------------------------------------------

  /** The status that the call gives to the milestone mid when it changes it. */
  function StatusSetBy(op: Op, mid: Mid): Option<MilestoneStatus> {
    match op
    case Submit(_, m) => if m == mid then Some(MilestoneStatus.AwaitingApproval) else None
    case Approve(_, m) => if m == mid then Some(MilestoneStatus.Approved) else None
    case RequestChanges(_, m, _) => if m == mid then Some(MilestoneStatus.ChangesRequested) else None
    case ChangeStatus(_, m, next, _) =>
      if m == mid && next !in {MilestoneStatus.AwaitingApproval, MilestoneStatus.Approved, MilestoneStatus.ChangesRequested}
      then Some(next) else None
    case _ => None
  }

  /**
   A milestone's status changes only to the one of the call, and only by the calls that have one; it becomes approved
   by an approval of this milestone by the project's client alone.
   */
  lemma EachStatusHasItsCall(t: Tree, op: Op, mid: Mid)
    requires mid in t.milestones && mid in Next(t, op).milestones
    requires Next(t, op).milestones[mid].status != t.milestones[mid].status
    ensures StatusSetBy(op, mid) == Some(Next(t, op).milestones[mid].status)
    ensures Next(t, op).milestones[mid].status == MilestoneStatus.Approved ==>
              exists actor :: op == Approve(actor, mid) && t.project.client == Some(actor)
  {
    hide Decide, ExecuteAll, InPast, IsHttpUrl, MilestoneTransition;
    match op
    case Update(_, _, _, _, _, _, _) => UpdateLeavesMilestones(t, op);
    case Delete(actor) => DeleteExactly(t, actor);
    case Assign(actor, client, eligible) => AssignExactly(t, actor, client, eligible);
    case LimitProject(actor, limit) => LimitProjectExactly(t, actor, limit);
    case CreateMilestone(_, _, _, _, _, _) => CreateMilestoneExactly(t, op);
    case UpdateMilestone(_, _, _, _, _, _, _) => UpdateMilestoneExactly(t, op);
    case Submit(actor, m) => SubmitExactly(t, actor, m);
    case Approve(actor, m) => ApproveExactly(t, actor, m);
    case RequestChanges(actor, m, notes) => RequestChangesExactly(t, actor, m, notes);
    case ChangeStatus(actor, m, next, now) => ChangeStatusExactly(t, actor, m, next, now);
    case AddDeliverable(_, _, _, _, _, _) => AddDeliverableExactly(t, op);
    case RemoveDeliverable(actor, m, did) => RemoveDeliverableExactly(t, actor, m, did);
    case ChangePayment(actor, m, payment) => ChangePaymentExactly(t, actor, m, payment);
    case LimitMilestone(actor, m, limit) => LimitMilestoneExactly(t, actor, m, limit);
    case CreateAssignment(actor, aid, m, assignee, eligible) => CreateAssignmentExactly(t, actor, aid, m, assignee, eligible);
    case MoveAssignment(actor, aid, assignee, eligible) => MoveAssignmentExactly(t, actor, aid, assignee, eligible);
    case RemoveAssignment(actor, aid) => RemoveAssignmentExactly(t, actor, aid);
  }

  lemma UpdateLeavesMilestones(t: Tree, op: Op)
    requires op.Update?
    ensures Next(t, op).milestones == t.milestones
  {
    hide Decide, ExecuteAll, InPast, ProjectTransition;
    if Apply(t, op).Ok? {
      UpdateRefusedExactly(t, op);
      if Restores(t, op) { RestoreExactly(t, op); } else { UpdateExactly(t, op); }
    }
  }
}
