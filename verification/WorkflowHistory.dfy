/**
 Every committed transaction of a project is one audited transition, and what follows for whole runs: the audit
 log replays to the stored state, submissions are conserved, sign-offs are never lost.
 */
module WorkflowHistory {
  import opened Common
  import opened ProjectRules
  import opened Workflow

  // ---------------------------------------------------------------------------------------------------
  // One transaction, one audited transition
  // ---------------------------------------------------------------------------------------------------

  function Row(t: Tree, mid: Mid): Option<Milestone> {
    if mid in t.milestones then Some(t.milestones[mid]) else None
  }

  predicate AboutMilestone(e: Entry) {
    !(e.ProjectCreated? || e.ProjectUpdated? || e.ProjectRestored? || e.ProjectDeleted? || e.ClientChanged?
      || e.ProjectLimitChanged? || e.AssignmentCreated? || e.AssignmentUpdated? || e.AssignmentRemoved?)
  }

  predicate Concerns(e: Entry, mid: Mid) {
    AboutMilestone(e) && e.mid == mid
  }

  /**
   The transitions of a milestone row of the project p that the entry e documents. An edit may also change the
   description and the position, which its entry does not name; a new milestone may have any description and due date,
   and a new deliverable any description. Of the milestone's own limit, an entry tells only the effective limits.
   */
  ghost predicate MilestoneStep(p: Project, m: Option<Milestone>, m': Option<Milestone>, e: Entry, mid: Mid) {
    if !Concerns(e, mid) then m' == m
    else if e.MilestoneCreated? then
      m.None? && m'.Some? && m'.value.status == Pending && m'.value.count == 0 && m'.value.revisions == []
      && m'.value.completedAt.None? && m'.value.deliverables == map[] && m'.value.title == e.title
      && m'.value.payment == Unpaid && m'.value.limit.None? && m'.value.position == 0
    else
      m.Some? && m'.Some? &&
      var a, b := m.value, m'.value;
      match e
      case Submitted(actor, _, before, countBefore, countAfter) =>
        && before == a.status && (before == InProgress || before == ChangesRequested)
        && countBefore == a.count && countAfter == a.count + 1 && a.deliverables != map[]
        && b == a.(status := AwaitingApproval, count := a.count + 1,
                   revisions := a.revisions + [Revision(a.count + 1, actor)])
      case SignedOff(_, _, before) => before == a.status == AwaitingApproval && b == a.(status := Approved)
      case ChangesAsked(_, _, before, _) => before == a.status == AwaitingApproval && b == a.(status := ChangesRequested)
      case StatusChanged(_, _, before, completedBefore, after, completedAfter) =>
        && before == a.status && after == b.status && before != after
        && MilestoneTransition(before, after) && !ActionOnly(after)
        && completedBefore == a.completedAt && completedAfter == b.completedAt
        && (if after == MilestoneStatus.Completed then
              b.completedAt.Some? && (a.completedAt.Some? ==> b.completedAt == a.completedAt)
            else b.completedAt == a.completedAt)
        && b == a.(status := after, completedAt := b.completedAt)
      case MilestoneUpdated(_, _, retitled, due) =>
        && b == a.(title := b.title, description := b.description, due := NewDue(due, a.due), position := b.position)
        && (if retitled.None? then b.title == a.title else retitled.value == (a.title, b.title))
      case DeliverableAdded(actor, _, did, url, caption) =>
        && !Closed(a.status) && IsHttpUrl(url) && did !in a.deliverables && did in b.deliverables
        && b.deliverables[did] == Deliverable(url, caption, b.deliverables[did].description, actor)
        && b == a.(deliverables := a.deliverables[did := b.deliverables[did]])
      case DeliverableRemoved(_, _, did, url) =>
        && !Closed(a.status) && did in a.deliverables && a.deliverables[did].url == url
        && b == a.(deliverables := a.deliverables - {did})
      case PaymentChanged(_, _, before, after) => before == a.payment && before != after && b == a.(payment := after)
      case MilestoneLimitChanged(_, _, before, after) =>
        && before == EffectiveLimit(a.limit, p.limit) && after == EffectiveLimit(b.limit, p.limit)
        && b == a.(limit := b.limit)
  }

  /**
   The transitions of the project row that the entry e documents. An update may also change the description, which
   its entry does not name.
   */
  ghost predicate ProjectStep(p: Project, p': Project, e: Entry) {
    match e
    case ProjectUpdated(_, name, priority, status, due) =>
      && !Frozen(p.status)
      && (priority.Some? ==> priority.value.0 == p.priority)
      && (status.Some? ==> status.value.0 == p.status && ProjectTransition(p.status, status.value.1))
      && p' == p.(name := Coalesce(name, p.name), description := p'.description,
                  priority := if priority.Some? then priority.value.1 else p.priority,
                  status := if status.Some? then status.value.1 else p.status,
                  due := NewDue(due, p.due))
    case ProjectRestored(_, was, now) =>
      was == p.status == Archived && now == ProjectStatus.Active && p' == p.(status := now)
    case ProjectDeleted(_, was, name) => was == p.status && name == p.name && !p.deleted && p' == p.(deleted := true)
    case ClientChanged(_, from, to) => from == p.client && from != to && p' == p.(client := to)
    case ProjectLimitChanged(_, before, after) => before == p.limit && p' == p.(limit := after)
    case ProjectCreated(_, _) => false
    case _ => p' == p
  }

  /** The transitions of the assignment rows that the entry e documents. */
  ghost predicate AssignmentStep(a: map<Aid, Assignment>, a': map<Aid, Assignment>, e: Entry) {
    match e
    case AssignmentCreated(actor, aid, mid, to) => a == map[] && a' == map[aid := Assignment(mid, to, actor)]
    case AssignmentUpdated(_, aid, from, to) =>
      aid in a && a[aid].assignedTo == from && a' == a[aid := a[aid].(assignedTo := to)]
    case AssignmentRemoved(_, aid, to) => aid in a && a[aid].assignedTo == to && a' == a - {aid}
    case _ => a' == a
  }

  /** Sign-offs and change requests come from the project's client; submissions need one. */
  predicate ByTheClient(p: Project, e: Entry) {
    && (e.SignedOff? || e.ChangesAsked? ==> p.client == Some(e.actor))
    && (e.Submitted? ==> p.client.Some?)
  }

  /** t' is t after one transition, documented by the one entry that t' has more. */
  ghost predicate Audited(t: Tree, t': Tree) {
    && |t'.log| == |t.log| + 1 && t'.log[..|t.log|] == t.log
    && ProjectStep(t.project, t'.project, t'.log[|t.log|])
    && AssignmentStep(t.assignments, t'.assignments, t'.log[|t.log|])
    && ByTheClient(t.project, t'.log[|t.log|])
    && forall mid :: MilestoneStep(t.project, Row(t, mid), Row(t', mid), t'.log[|t.log|], mid)
  }

  lemma One(t: Tree, a: Stmt)
    ensures ExecuteAll(t, [a]) == Execute(t, a)
  {
    assert [a][1..] == [];
  }

  lemma Two(t: Tree, a: Stmt, b: Stmt)
    ensures ExecuteAll(t, [a, b]) == if Execute(t, a).Ok? then Execute(Execute(t, a).value, b) else Execute(t, a)
  {
    hide Execute;
    assert [a, b][1..] == [b];
    if Execute(t, a).Ok? { One(Execute(t, a).value, b); }
  }

  lemma Three(t: Tree, a: Stmt, b: Stmt, c: Stmt)
    ensures ExecuteAll(t, [a, b, c]) ==
            if Execute(t, a).Ok? then ExecuteAll(Execute(t, a).value, [b, c]) else Execute(t, a)
  {
    hide Execute;
    assert [a, b, c][1..] == [b, c];
  }

  /** A statement on one milestone row, followed by the entry that documents it. */
  lemma RowAudited(t: Tree, mid: Mid, m': Milestone, e: Entry)
    requires mid in t.milestones && Concerns(e, mid) && ByTheClient(t.project, e)
    requires MilestoneStep(t.project, Some(t.milestones[mid]), Some(m'), e, mid)
    ensures Audited(t, t.(milestones := t.milestones[mid := m'], log := t.log + [e]))
  {
  }

  /** A statement on the project row or on an assignment, followed by the entry that documents it. */
  lemma OtherAudited(t: Tree, p': Project, a': map<Aid, Assignment>, e: Entry)
    requires ProjectStep(t.project, p', e) && AssignmentStep(t.assignments, a', e) && !AboutMilestone(e)
    ensures Audited(t, t.(project := p', assignments := a', log := t.log + [e]))
  {
  }

  ghost function Stmts(t: Tree, op: Op): Result<seq<Stmt>> {
    Decide(op, t.project, ReadMilestone(t, op), ReadChildren(t, op))
  }

  lemma UpdateAudited(t: Tree, op: Op)
    requires op.Update? && Apply(t, op).Ok?
    ensures Audited(t, Apply(t, op).value)
  {
    var d := Stmts(t, op).value;
    assert Stmts(t, op) == DecideUpdate(op, t.project);
    assert d == [d[0], d[1]];
    Two(t, d[0], d[1]);
    OtherAudited(t, Apply(t, op).value.project, t.assignments, d[1].entry);
  }

  lemma ProjectOpAudited(t: Tree, op: Op)
    requires op.Delete? || op.Assign? || op.LimitProject?
    requires Apply(t, op).Ok?
    ensures Apply(t, op).value == t || Audited(t, Apply(t, op).value)
  {
    var d := Stmts(t, op).value;
    if |d| == 2 {
      assert d == [d[0], d[1]];
      Two(t, d[0], d[1]);
      OtherAudited(t, Apply(t, op).value.project, t.assignments, d[1].entry);
    }
  }

  lemma CreateMilestoneAudited(t: Tree, op: Op)
    requires op.CreateMilestone? && Apply(t, op).Ok?
    ensures Audited(t, Apply(t, op).value)
  {
    var d := Stmts(t, op).value;
    assert d == [d[0], d[1]];
    Two(t, d[0], d[1]);
  }

  lemma CreateAssignmentAudited(t: Tree, op: Op)
    requires op.CreateAssignment? && Apply(t, op).Ok?
    ensures Audited(t, Apply(t, op).value)
  {
    hide DecideUpdate, DecideProject, DecideAssignment;
    var d := Stmts(t, op).value;
    assert d == [d[0], d[1]];
    Two(t, d[0], d[1]);
    OtherAudited(t, t.project, Apply(t, op).value.assignments, d[1].entry);
  }

  lemma AssignmentOpAudited(t: Tree, op: Op)
    requires op.MoveAssignment? || op.RemoveAssignment?
    requires Apply(t, op).Ok?
    ensures Audited(t, Apply(t, op).value)
  {
    hide DecideUpdate, DecideProject, DecideMilestone;
    var d := Stmts(t, op).value;
    assert d == [d[0], d[1]];
    Two(t, d[0], d[1]);
    OtherAudited(t, t.project, Apply(t, op).value.assignments, d[1].entry);
  }

  lemma EditAudited(t: Tree, op: Op)
    requires op.UpdateMilestone? || op.ChangePayment?
    requires Apply(t, op).Ok?
    ensures Apply(t, op).value == t || Audited(t, Apply(t, op).value)
  {
    hide DecideUpdate, DecideProject, DecideAssignment;
    var d := Stmts(t, op).value;
    assert Stmts(t, op) == DecideMilestone(op, t.project, t.milestones[op.mid], ReadChildren(t, op));
    if |d| == 2 {
      assert d == [d[0], d[1]];
      Two(t, d[0], d[1]);
      RowAudited(t, op.mid, ChangeRow(t.milestones[op.mid], d[0].change).value, d[1].entry);
    }
  }

  lemma AddingAudited(t: Tree, op: Op)
    requires op.AddDeliverable? && Apply(t, op).Ok?
    ensures Audited(t, Apply(t, op).value)
  {
    hide DecideUpdate, DecideProject, DecideAssignment;
    var d := Stmts(t, op).value;
    assert d == [d[0], d[1]];
    Two(t, d[0], d[1]);
    RowAudited(t, op.mid, ChangeRow(t.milestones[op.mid], d[0].change).value, d[1].entry);
  }

  lemma RemovingAudited(t: Tree, op: Op)
    requires op.RemoveDeliverable? && Apply(t, op).Ok?
    ensures Audited(t, Apply(t, op).value)
  {
    hide DecideUpdate, DecideProject, DecideAssignment;
    var d := Stmts(t, op).value;
    assert d == [d[0], d[1]];
    Two(t, d[0], d[1]);
    RowAudited(t, op.mid, ChangeRow(t.milestones[op.mid], d[0].change).value, d[1].entry);
  }

  lemma ApprovalAudited(t: Tree, op: Op)
    requires op.Approve? && Apply(t, op).Ok?
    ensures Apply(t, op).value == t || Audited(t, Apply(t, op).value)
  {
    hide DecideUpdate, DecideProject, DecideAssignment;
    var d := Stmts(t, op).value;
    if |d| == 2 {
      assert d == [d[0], d[1]];
      Two(t, d[0], d[1]);
      RowAudited(t, op.mid, ChangeRow(t.milestones[op.mid], d[0].change).value, d[1].entry);
    }
  }

  lemma ChangeRequestAudited(t: Tree, op: Op)
    requires op.RequestChanges? && Apply(t, op).Ok?
    ensures Audited(t, Apply(t, op).value)
  {
    hide DecideUpdate, DecideProject, DecideAssignment;
    var d := Stmts(t, op).value;
    assert d == [d[0], d[1]];
    Two(t, d[0], d[1]);
    RowAudited(t, op.mid, ChangeRow(t.milestones[op.mid], d[0].change).value, d[1].entry);
  }

  lemma StatusAudited(t: Tree, op: Op)
    requires op.ChangeStatus? && Apply(t, op).Ok?
    ensures Apply(t, op).value == t || Audited(t, Apply(t, op).value)
  {
    hide DecideUpdate, DecideProject, DecideAssignment;
    var d := Stmts(t, op).value;
    assert Stmts(t, op) == DecideMilestone(op, t.project, t.milestones[op.mid], ReadChildren(t, op));
    if |d| == 2 {
      assert d == [d[0], d[1]];
      Two(t, d[0], d[1]);
      var t' := Apply(t, op).value;
      RowAudited(t, op.mid, t'.milestones[op.mid], t'.log[|t.log|]);
    }
  }

  lemma MilestoneLimitAudited(t: Tree, op: Op)
    requires op.LimitMilestone? && Apply(t, op).Ok?
    ensures Audited(t, Apply(t, op).value)
  {
    hide DecideUpdate, DecideProject, DecideAssignment;
    var d := Stmts(t, op).value;
    assert Stmts(t, op) == DecideMilestone(op, t.project, t.milestones[op.mid], ReadChildren(t, op));
    assert d == [d[0], d[1]];
    Two(t, d[0], d[1]);
    var t' := Apply(t, op).value;
    RowAudited(t, op.mid, t'.milestones[op.mid], t'.log[|t.log|]);
  }

  lemma SubmitAudited(t: Tree, op: Op)
    requires op.Submit? && Apply(t, op).Ok?
    ensures Apply(t, op).value == t || Audited(t, Apply(t, op).value)
  {
    hide DecideUpdate, DecideProject, DecideAssignment;
    var d := Stmts(t, op).value;
    if |d| == 3 {
      assert d == [d[0], d[1], d[2]];
      Three(t, d[0], d[1], d[2]);
      var u := Execute(t, d[0]).value;
      Two(u, d[1], d[2]);
      var m := ChangeRow(u.milestones[op.mid], d[1].change).value;
      assert Apply(t, op).value == t.(milestones := t.milestones[op.mid := m], log := t.log + [d[2].entry]);
      RowAudited(t, op.mid, m, d[2].entry);
    }
  }

  /** A call either changes nothing or makes one transition and adds the one entry that documents it. */
  lemma EachCallIsAudited(t: Tree, op: Op)
    ensures Next(t, op) == t || Audited(t, Next(t, op))
  {
    if Apply(t, op).Ok? {
      match op
      case Update(_, _, _, _, _, _, _) => UpdateAudited(t, op);
      case Delete(_) => ProjectOpAudited(t, op);
      case Assign(_, _, _) => ProjectOpAudited(t, op);
      case LimitProject(_, _) => ProjectOpAudited(t, op);
      case CreateMilestone(_, _, _, _, _, _) => CreateMilestoneAudited(t, op);
      case Submit(_, _) => SubmitAudited(t, op);
      case ChangeStatus(_, _, _, _) => StatusAudited(t, op);
      case LimitMilestone(_, _, _) => MilestoneLimitAudited(t, op);
      case CreateAssignment(_, _, _, _, _) => CreateAssignmentAudited(t, op);
      case MoveAssignment(_, _, _, _) => AssignmentOpAudited(t, op);
      case RemoveAssignment(_, _) => AssignmentOpAudited(t, op);
      case UpdateMilestone(_, _, _, _, _, _, _) => EditAudited(t, op);
      case ChangePayment(_, _, _) => EditAudited(t, op);
      case AddDeliverable(_, _, _, _, _, _) => AddingAudited(t, op);
      case RemoveDeliverable(_, _, _) => RemovingAudited(t, op);
      case Approve(_, _) => ApprovalAudited(t, op);
      case RequestChanges(_, _, _) => ChangeRequestAudited(t, op);
    }
  }

  // ---------------------------------------------------------------------------------------------------
  // Deletion
  // ---------------------------------------------------------------------------------------------------

  lemma {:induction false} OthersKeepLive(t: Tree, stmts: seq<Stmt>)
    requires SoftDelete !in stmts && !t.project.deleted && ExecuteAll(t, stmts).Ok?
    ensures !ExecuteAll(t, stmts).value.project.deleted
    decreases |stmts|
  {
    if stmts != [] {
      KeepsLive(t, stmts[0]);
      OthersKeepLive(Execute(t, stmts[0]).value, stmts[1..]);
    }
  }

  lemma KeepsLive(t: Tree, s: Stmt)
    requires !s.SoftDelete? && !t.project.deleted && Execute(t, s).Ok?
    ensures !Execute(t, s).value.project.deleted
  {
  }

  /** A live project is deleted by the operation Delete and by nothing else. */
  lemma DeletesExactly(t: Tree, op: Op)
    requires !t.project.deleted
    ensures Next(t, op).project.deleted <==> op.Delete?
  {
    if op.Delete? {
      var d := [SoftDelete, Log(ProjectDeleted(op.actor, t.project.status, t.project.name))];
      assert Stmts(t, op) == Ok(d);
      Two(t, d[0], d[1]);
    } else if Apply(t, op).Ok? {
      OnlyDeleteDeletes(t, op);
      OthersKeepLive(t, Stmts(t, op).value);
    }
  }

  lemma OnlyDeleteDeletes(t: Tree, op: Op)
    requires !op.Delete? && Stmts(t, op).Ok?
    ensures SoftDelete !in Stmts(t, op).value
  {
    hide ExecuteAll;
    var d := Stmts(t, op).value;
    assert |d| <= 3 && forall i :: 0 <= i < |d| ==> !d[i].SoftDelete?;
  }

  /** Milestones are never removed. */
  lemma MilestonesStay(t: Tree, op: Op, mid: Mid)
    requires mid in t.milestones
    ensures mid in Next(t, op).milestones
  {
    EachCallIsAudited(t, op);
    var t' := Next(t, op);
    assert t' != t ==> MilestoneStep(t.project, Row(t, mid), Row(t', mid), t'.log[|t.log|], mid);
  }
}
