/** What every run of a project's transactions keeps. */
module WorkflowRuns {
  import opened Common
  import opened ProjectRules
  import opened DueDate
  import opened Workflow
  import opened WorkflowHistory

  // ---------------------------------------------------------------------------------------------------
  // Replaying the audit log
  // ---------------------------------------------------------------------------------------------------

  /** What an auditor knows of a milestone; Corrupt when an entry does not continue the previous ones. */
  datatype Progress =
    | Unseen
    | At(title: string, status: MilestoneStatus, completedAt: Option<Time>, count: nat, payment: Payment,
         deliverables: map<Did, string>)
    | Corrupt

  /** What the log should tell about a milestone row: of the deliverables, the URLs. */
  function Recorded(m: Option<Milestone>): Progress {
    if m.None? then Unseen
    else
      var row := m.value;
      At(row.title, row.status, row.completedAt, row.count, row.payment, Urls(row.deliverables))
  }

  function Urls(deliverables: map<Did, Deliverable>): map<Did, string> {
    map did | did in deliverables :: deliverables[did].url
  }

  function ReplayEntry(r: Progress, e: Entry, mid: Mid): Progress {
    if !Concerns(e, mid) then r
    else
      match e
      case MilestoneCreated(_, _, title) => if r.Unseen? then At(title, Pending, None, 0, Unpaid, map[]) else Corrupt
      case Submitted(_, _, before, countBefore, countAfter) =>
        if r.At? && r.status == before && r.count == countBefore && countAfter == countBefore + 1
        then r.(status := AwaitingApproval, count := countAfter) else Corrupt
      case SignedOff(_, _, before) => if r.At? && r.status == before then r.(status := Approved) else Corrupt
      case ChangesAsked(_, _, before, _) =>
        if r.At? && r.status == before then r.(status := ChangesRequested) else Corrupt
      case StatusChanged(_, _, before, completedBefore, after, completedAfter) =>
        if r.At? && r.status == before && r.completedAt == completedBefore
        then r.(status := after, completedAt := completedAfter) else Corrupt
      case MilestoneUpdated(_, _, retitled, _) =>
        if !r.At? then Corrupt
        else if retitled.None? then r
        else if r.title == retitled.value.0 then r.(title := retitled.value.1) else Corrupt
      case PaymentChanged(_, _, before, after) =>
        if r.At? && r.payment == before then r.(payment := after) else Corrupt
      case DeliverableAdded(_, _, did, url, _) =>
        if r.At? && did !in r.deliverables then r.(deliverables := r.deliverables[did := url]) else Corrupt
      case DeliverableRemoved(_, _, did, url) =>
        if r.At? && did in r.deliverables && r.deliverables[did] == url
        then r.(deliverables := r.deliverables - {did}) else Corrupt
      case MilestoneLimitChanged(_, _, _, _) => if r.At? then r else Corrupt
  }

  function Replay(log: seq<Entry>, mid: Mid): Progress {
    if log == [] then Unseen else ReplayEntry(Replay(log[..|log| - 1], mid), log[|log| - 1], mid)
  }

  datatype ProjectProgress =
    | NoProject
    | Holds(name: string, status: ProjectStatus, client: Option<User>, limit: Option<nat>, deleted: bool,
            assignments: map<Aid, Assignment>)
    | Broken

  function ReplayProjectEntry(r: ProjectProgress, e: Entry): ProjectProgress {
    match e
    case ProjectCreated(_, name) => if r.NoProject? then Holds(name, Draft, None, None, false, map[]) else Broken
    case ProjectUpdated(_, name, _, status, _) =>
      if !r.Holds? || (status.Some? && r.status != status.value.0) then Broken
      else r.(name := Coalesce(name, r.name), status := if status.Some? then status.value.1 else r.status)
    case ProjectRestored(_, was, now) => if r.Holds? && r.status == was then r.(status := now) else Broken
    case ProjectDeleted(_, was, name) =>
      if r.Holds? && r.status == was && r.name == name && !r.deleted then r.(deleted := true) else Broken
    case ClientChanged(_, from, to) => if r.Holds? && r.client == from then r.(client := to) else Broken
    case ProjectLimitChanged(_, before, after) => if r.Holds? && r.limit == before then r.(limit := after) else Broken
    case AssignmentCreated(actor, aid, mid, to) =>
      if r.Holds? && r.assignments == map[] then r.(assignments := map[aid := Assignment(mid, to, actor)]) else Broken
    case AssignmentUpdated(_, aid, from, to) =>
      if r.Holds? && aid in r.assignments && r.assignments[aid].assignedTo == from
      then r.(assignments := r.assignments[aid := r.assignments[aid].(assignedTo := to)]) else Broken
    case AssignmentRemoved(_, aid, to) =>
      if r.Holds? && aid in r.assignments && r.assignments[aid].assignedTo == to
      then r.(assignments := r.assignments - {aid}) else Broken
    case _ => r
  }

  function ReplayProject(log: seq<Entry>): ProjectProgress {
    if log == [] then NoProject else ReplayProjectEntry(ReplayProject(log[..|log| - 1]), log[|log| - 1])
  }

  // ---------------------------------------------------------------------------------------------------
  // Counting audit entries
  // ---------------------------------------------------------------------------------------------------

  datatype Kind = Approval | ChangeRequest | Escape

  /** An approval, a change request, or a staff move out of awaiting_approval. */
  predicate IsKind(e: Entry, mid: Mid, kind: Kind) {
    match kind
    case Approval => e.SignedOff? && e.mid == mid
    case ChangeRequest => e.ChangesAsked? && e.mid == mid
    case Escape => e.StatusChanged? && e.mid == mid && e.before == AwaitingApproval
  }

  function Count(log: seq<Entry>, mid: Mid, kind: Kind): nat {
    if log == [] then 0
    else Count(log[..|log| - 1], mid, kind) + (if IsKind(log[|log| - 1], mid, kind) then 1 else 0)
  }

  // ---------------------------------------------------------------------------------------------------
  // The invariant of one milestone
  // ---------------------------------------------------------------------------------------------------

  predicate SignedOffStatus(status: MilestoneStatus) {
    status == Approved || status == MilestoneStatus.Completed
  }

  /** Submissions are conserved: each one was answered, abandoned, or is the one now awaiting approval. */
  ghost predicate Conserved(log: seq<Entry>, mid: Mid, m: Milestone) {
    && m.count == Count(log, mid, Approval) + Count(log, mid, ChangeRequest) + Count(log, mid, Escape)
                  + (if m.status == AwaitingApproval then 1 else 0)
    && |m.revisions| == m.count
    && (forall i :: 0 <= i < |m.revisions| ==> m.revisions[i].number == i + 1)
    && Count(log, mid, Approval) == (if SignedOffStatus(m.status) then 1 else 0)
    && (m.completedAt.Some? <==> m.status == MilestoneStatus.Completed)
    && (forall did :: did in m.deliverables ==> IsHttpUrl(m.deliverables[did].url))
  }

  ghost predicate Documented(log: seq<Entry>, mid: Mid, m: Option<Milestone>) {
    Replay(log, mid) == Recorded(m)
    && (if m.Some? then Conserved(log, mid, m.value) else forall kind :: Count(log, mid, kind) == 0)
  }

  ghost predicate ProjectDocumented(log: seq<Entry>, p: Project, a: map<Aid, Assignment>) {
    ReplayProject(log) == Holds(p.name, p.status, p.client, p.limit, p.deleted, a)
  }

  lemma StepReplays(log: seq<Entry>, e: Entry, mid: Mid, p: Project, m: Option<Milestone>, m': Option<Milestone>)
    requires Replay(log, mid) == Recorded(m) && MilestoneStep(p, m, m', e, mid)
    ensures Replay(log + [e], mid) == Recorded(m')
  {
    assert (log + [e])[..|log|] == log;
    EntryReplays(e, mid, p, m, m');
  }

  lemma EntryReplays(e: Entry, mid: Mid, p: Project, m: Option<Milestone>, m': Option<Milestone>)
    requires MilestoneStep(p, m, m', e, mid)
    ensures ReplayEntry(Recorded(m), e, mid) == Recorded(m')
  {
    if Concerns(e, mid) && m.Some? && m'.Some? {
      var a, b := m.value.deliverables, m'.value.deliverables;
      if e.DeliverableAdded? { assert Urls(b) == Urls(a)[e.did := e.url]; }
      if e.DeliverableRemoved? { assert Urls(b) == Urls(a) - {e.did}; }
    }
  }

  lemma StepCounts(log: seq<Entry>, e: Entry, mid: Mid)
    ensures forall kind :: Count(log + [e], mid, kind) == Count(log, mid, kind) + (if IsKind(e, mid, kind) then 1 else 0)
  {
    hide IsKind;
    assert (log + [e])[..|log|] == log;
  }

  lemma StepDocumented(log: seq<Entry>, e: Entry, mid: Mid, p: Project, m: Option<Milestone>, m': Option<Milestone>)
    requires Documented(log, mid, m) && MilestoneStep(p, m, m', e, mid)
    ensures Documented(log + [e], mid, m')
  {
    hide Replay, Count, Recorded;
    StepReplays(log, e, mid, p, m, m');
    StepCounts(log, e, mid);
  }

  lemma ProjectStepDocumented(
      log: seq<Entry>, e: Entry, p: Project, p': Project, a: map<Aid, Assignment>, a': map<Aid, Assignment>)
    requires ProjectDocumented(log, p, a) && ProjectStep(p, p', e) && AssignmentStep(a, a', e)
    ensures ProjectDocumented(log + [e], p', a')
  {
    assert (log + [e])[..|log|] == log;
  }

  lemma NewTreeDocumented(actor: User, name: string, text: string, priority: Priority, due: DueInput)
    ensures var t := NewTree(actor, name, text, priority, due);
            ProjectDocumented(t.log, t.project, t.assignments) && forall mid :: Documented(t.log, mid, Row(t, mid))
  {
    var t := NewTree(actor, name, text, priority, due);
    assert t.log[..0] == [];
    forall mid ensures Documented(t.log, mid, Row(t, mid)) {
      forall kind ensures Count(t.log, mid, kind) == 0 {}
    }
  }

  /**
   In every state of every run, the audit log replays without a break to the stored project (name, status, client,
   limit, deletion), its assignments and its milestones (title, status, completion, count, payment, deliverables), and
   every milestone's submissions are conserved.
   */
  lemma {:induction false} LogIsTheHistory(
      tr: seq<Tree>, ops: seq<Op>, n: nat, actor: User, name: string, text: string, priority: Priority, due: DueInput)
    requires IsRun(NewTree(actor, name, text, priority, due), tr, ops) && n < |tr|
    ensures ProjectDocumented(tr[n].log, tr[n].project, tr[n].assignments)
    ensures forall mid :: Documented(tr[n].log, mid, Row(tr[n], mid))
  {
    hide Next;
    if n == 0 {
      NewTreeDocumented(actor, name, text, priority, due);
    } else {
      var t, t' := tr[n - 1], tr[n];
      LogIsTheHistory(tr, ops, n - 1, actor, name, text, priority, due);
      EachCallIsAudited(t, ops[n - 1]);
      if t' != t {
        var e := t'.log[|t.log|];
        assert t'.log == t.log + [e];
        ProjectStepDocumented(t.log, e, t.project, t'.project, t.assignments, t'.assignments);
        forall mid ensures Documented(t'.log, mid, Row(t', mid)) {
          StepDocumented(t.log, e, mid, t.project, Row(t, mid), Row(t', mid));
        }
      }
    }
  }

  /** Whether a submission is possible, by the rows alone. */
  predicate Submittable(t: Tree, mid: Mid) {
    && mid in t.milestones && !t.project.deleted && !Frozen(t.project.status) && t.project.client.Some?
    && (t.milestones[mid].status == InProgress || t.milestones[mid].status == ChangesRequested)
    && t.milestones[mid].deliverables != map[] && t.milestones[mid].count < MAX_INTEGER
  }

  /**
   In every state of every run a submission is recorded exactly when it is possible: its revision number, taken
   from the counter, never collides with a revision row.
   */
  lemma SubmitsExactly(
      tr: seq<Tree>, ops: seq<Op>, n: nat, actor: User, name: string, text: string, priority: Priority, due: DueInput,
      op: Op)
    requires IsRun(NewTree(actor, name, text, priority, due), tr, ops) && n < |tr| && op.Submit?
    ensures Next(tr[n], op) != tr[n] <==> Submittable(tr[n], op.mid)
    ensures Submittable(tr[n], op.mid) ==> Apply(tr[n], op).Ok?
  {
    var t := tr[n];
    LogIsTheHistory(tr, ops, n, actor, name, text, priority, due);
    if Submittable(t, op.mid) {
      assert Documented(t.log, op.mid, Row(t, op.mid));
      SubmitWrites(t, op);
    } else if Stmts(t, op).Ok? && Stmts(t, op).value != [] {
      var d := Stmts(t, op).value;
      assert d == [d[0], d[1], d[2]];
      Three(t, d[0], d[1], d[2]);
      assert Execute(t, d[0]).Err?;
    }
  }

  lemma SubmitWrites(t: Tree, op: Op)
    requires op.Submit? && Submittable(t, op.mid)
    requires forall r <- t.milestones[op.mid].revisions :: r.number <= t.milestones[op.mid].count
    ensures Apply(t, op).Ok? && |Apply(t, op).value.log| == |t.log| + 1
  {
    var m := t.milestones[op.mid];
    assert |m.deliverables| > 0;
    var a := OnMilestone(op.mid, SubmitRow(m.status));
    var b := OnMilestone(op.mid, InsertRevision(Revision(m.count + 1, op.actor)));
    var c := Log(Submitted(op.actor, op.mid, m.status, m.count, m.count + 1));
    assert Stmts(t, op) == Ok([a, b, c]);
    Three(t, a, b, c);
    Two(Execute(t, a).value, b, c);
  }

  /** A project has at most one assignment at a time, whatever its milestones. */
  lemma {:induction false} OneAssignment(
      tr: seq<Tree>, ops: seq<Op>, n: nat, actor: User, name: string, text: string, priority: Priority, due: DueInput)
    requires IsRun(NewTree(actor, name, text, priority, due), tr, ops) && n < |tr|
    ensures forall a, b :: a in tr[n].assignments && b in tr[n].assignments ==> a == b
  {
    hide Next;
    if n > 0 {
      OneAssignment(tr, ops, n - 1, actor, name, text, priority, due);
      EachCallIsAudited(tr[n - 1], ops[n - 1]);
    }
  }

  /** An assignment is created exactly on a live, unfrozen project without one, for a milestone and a staff member. */
  lemma AssignsExactly(t: Tree, op: Op)
    requires op.CreateAssignment?
    ensures Apply(t, op).Ok? <==>
            && !t.project.deleted && !Frozen(t.project.status) && op.mid in t.milestones && op.eligible
            && t.assignments == map[]
    ensures Apply(t, op).Ok? ==> Next(t, op).assignments == map[op.aid := Assignment(op.mid, op.assignee, op.actor)]
  {
    if Stmts(t, op).Ok? {
      var d := Stmts(t, op).value;
      assert d == [d[0], d[1]];
      Two(t, d[0], d[1]);
    }
  }

  // ---------------------------------------------------------------------------------------------------
  // Sign-offs, completion and history are never lost
  // ---------------------------------------------------------------------------------------------------

  /** What the past of a milestone forces on its future. */
  ghost predicate Kept(m: Milestone, m': Milestone) {
    && (SignedOffStatus(m.status) ==> SignedOffStatus(m'.status))
    && (Closed(m.status) ==> m'.status == m.status && m'.deliverables == m.deliverables)
    && (m.completedAt.Some? ==> m'.completedAt == m.completedAt)
    && m.revisions <= m'.revisions
    && m.count <= m'.count
  }

  /**
   Over any segment of any run: a signed-off milestone stays signed off, a completed or cancelled one keeps its
   status, completion time and deliverables, and revision rows are only appended.
   */
  lemma {:induction false} SignOffsAreKept(t: Tree, tr: seq<Tree>, ops: seq<Op>, i: nat, j: nat, mid: Mid)
    requires IsRun(t, tr, ops) && i <= j < |tr| && mid in tr[i].milestones
    ensures mid in tr[j].milestones && Kept(tr[i].milestones[mid], tr[j].milestones[mid])
    decreases j
  {
    hide Next;
    if i < j {
      SignOffsAreKept(t, tr, ops, i, j - 1, mid);
      EachCallIsAudited(tr[j - 1], ops[j - 1]);
      assert tr[j] != tr[j - 1] ==>
          MilestoneStep(tr[j - 1].project, Row(tr[j - 1], mid), Row(tr[j], mid), tr[j].log[|tr[j - 1].log|], mid);
    }
  }

  /** A milestone becomes completed only from approved, and approved only by a sign-off of the project's client. */
  lemma CompletionNeedsApproval(t: Tree, op: Op, mid: Mid)
    requires mid in t.milestones && mid in Next(t, op).milestones
    ensures var m, m', log := t.milestones[mid], Next(t, op).milestones[mid], Next(t, op).log;
            && (m.status != MilestoneStatus.Completed && m'.status == MilestoneStatus.Completed ==> m.status == Approved)
            && (m.status != Approved && m'.status == Approved ==>
                  m.status == AwaitingApproval && t.project.client.Some?
                  && log == t.log + [SignedOff(t.project.client.value, mid, AwaitingApproval)])
  {
    EachCallIsAudited(t, op);
    var t' := Next(t, op);
    if t' != t {
      assert MilestoneStep(t.project, Row(t, mid), Row(t', mid), t'.log[|t.log|], mid);
    }
  }

  /**
   The PATCH to cancelled reaches cancelled exactly from the statuses other than approved and completed: unlike the
   documentation of the transition table says, an approved milestone, which is not final, cannot be cancelled.
   */
  lemma CancellableExactly(t: Tree, op: Op)
    requires !t.project.deleted && !Frozen(t.project.status) && op.ChangeStatus? && op.mid in t.milestones
    requires op.next == MilestoneStatus.Cancelled
    ensures && Apply(t, op).Ok? && op.mid in Next(t, op).milestones
            && Next(t, op).milestones[op.mid].status == MilestoneStatus.Cancelled
            <==>
            t.milestones[op.mid].status != Approved && t.milestones[op.mid].status != MilestoneStatus.Completed
  {
    var m := t.milestones[op.mid];
    assert Stmts(t, op) == DecideMilestone(op, t.project, m, ReadChildren(t, op));
    if Stmts(t, op).Ok? && Stmts(t, op).value != [] {
      var d := Stmts(t, op).value;
      assert d == [d[0], d[1]];
      Two(t, d[0], d[1]);
    }
  }

  /**
   What the log does not tell: edits that set different descriptions and positions leave different rows and the same
   log.
   */
  lemma EditsLeaveNoTrace(t: Tree, actor: User, mid: Mid, today: Date, d: string, d': string, n: int, n': int)
    requires !t.project.deleted && !Frozen(t.project.status) && mid in t.milestones
    requires d != "" && d' != "" && 0 < n <= MAX_INTEGER && 0 < n' <= MAX_INTEGER && (d != d' || n != n')
    ensures var u := Next(t, UpdateMilestone(actor, mid, "", d, Absent, n, today));
            var v := Next(t, UpdateMilestone(actor, mid, "", d', Absent, n', today));
            u.log == v.log && |u.log| == |t.log| + 1 && Row(u, mid) != Row(v, mid)
  {
    EditMade(t, actor, mid, today, d, n);
    EditMade(t, actor, mid, today, d', n');
  }

  /**
   Nor which of two limits with the same effect a milestone has of its own: new limits leave the same log exactly if
   the effective limits are equal, and different rows whenever they differ.
   */
  lemma LimitsLeaveNoTrace(t: Tree, actor: User, mid: Mid, l: Option<int>, l': Option<int>)
    requires !t.project.deleted && !Frozen(t.project.status) && mid in t.milestones
    requires LimitAllowed(l) && LimitAllowed(l')
    ensures var u, v := Next(t, LimitMilestone(actor, mid, l)), Next(t, LimitMilestone(actor, mid, l'));
            && (u.log == v.log <==> EffectiveLimit(AsNat(l), t.project.limit) == EffectiveLimit(AsNat(l'), t.project.limit))
            && (Row(u, mid) == Row(v, mid) <==> l == l')
  {
    LimitMade(t, actor, mid, l);
    LimitMade(t, actor, mid, l');
    var u, v := Next(t, LimitMilestone(actor, mid, l)), Next(t, LimitMilestone(actor, mid, l'));
    assert u.log == v.log <==> u.log[|t.log|] == v.log[|t.log|];
  }

  lemma LimitMade(t: Tree, actor: User, mid: Mid, l: Option<int>)
    requires !t.project.deleted && !Frozen(t.project.status) && mid in t.milestones && LimitAllowed(l)
    ensures Next(t, LimitMilestone(actor, mid, l)) ==
            t.(milestones := t.milestones[mid := t.milestones[mid].(limit := AsNat(l))],
               log := t.log + [MilestoneLimitChanged(actor, mid, EffectiveLimit(t.milestones[mid].limit, t.project.limit),
                                                     EffectiveLimit(AsNat(l), t.project.limit))])
  {
    var op, m := LimitMilestone(actor, mid, l), t.milestones[mid];
    var a, b := OnMilestone(mid, SetLimit(l)), LogLimit(actor, mid, EffectiveLimit(m.limit, t.project.limit));
    assert Stmts(t, op) == DecideMilestone(op, t.project, m, ReadChildren(t, op));
    assert Stmts(t, op) == Ok([a, b]);
    Two(t, a, b);
  }

  lemma EditMade(t: Tree, actor: User, mid: Mid, today: Date, d: string, n: int)
    requires !t.project.deleted && !Frozen(t.project.status) && mid in t.milestones
    requires d != "" && 0 < n <= MAX_INTEGER
    ensures Next(t, UpdateMilestone(actor, mid, "", d, Absent, n, today)) ==
            t.(milestones := t.milestones[mid := t.milestones[mid].(description := d, position := n)],
               log := t.log + [MilestoneUpdated(actor, mid, None, Absent)])
  {
    var op := UpdateMilestone(actor, mid, "", d, Absent, n, today);
    var a := OnMilestone(mid, SetDetails(None, Some(d), Absent, Some(n)));
    var b := Log(MilestoneUpdated(actor, mid, None, Absent));
    assert Stmts(t, op) == DecideMilestone(op, t.project, t.milestones[mid], ReadChildren(t, op));
    assert Stmts(t, op) == Ok([a, b]);
    Two(t, a, b);
  }

  // ---------------------------------------------------------------------------------------------------
  // Freezing
  // ---------------------------------------------------------------------------------------------------

  /** Everything about the project but its deletion mark and its audit entries. */
  ghost function Content(t: Tree): Tree {
    t.(project := t.project.(deleted := false), log := [])
  }

  lemma FrozenStep(t: Tree, op: Op)
    requires Frozen(t.project.status)
    ensures Frozen(Next(t, op).project.status) ==> Content(Next(t, op)) == Content(t)
    ensures t.project.status == ProjectStatus.Cancelled ==> Next(t, op).project.status == ProjectStatus.Cancelled
    ensures t.project.deleted ==> Next(t, op) == t
  {
    if Stmts(t, op).Ok? {
      var d := Stmts(t, op).value;
      assert d == [d[0], d[1]];
      Two(t, d[0], d[1]);
    }
  }

  lemma DeletedStep(t: Tree, op: Op)
    requires t.project.deleted
    ensures Next(t, op) == t
  {
  }

  /** While a project stays archived or cancelled, its fields, client, milestones and assignments stand still. */
  lemma {:induction false} FrozenProjectsStandStill(t: Tree, tr: seq<Tree>, ops: seq<Op>, i: nat, j: nat)
    requires IsRun(t, tr, ops) && i <= j < |tr|
    requires forall n :: i <= n <= j ==> Frozen(tr[n].project.status)
    ensures Content(tr[j]) == Content(tr[i])
    decreases j
  {
    hide Next;
    if i < j {
      FrozenProjectsStandStill(t, tr, ops, i, j - 1);
      FrozenStep(tr[j - 1], ops[j - 1]);
    }
  }

  /** Cancelled is never left, so a cancelled project stands still for the rest of the run. */
  lemma {:induction false} CancelledIsForEver(t: Tree, tr: seq<Tree>, ops: seq<Op>, i: nat, j: nat)
    requires IsRun(t, tr, ops) && i <= j < |tr| && tr[i].project.status == ProjectStatus.Cancelled
    ensures tr[j].project.status == ProjectStatus.Cancelled && Content(tr[j]) == Content(tr[i])
    decreases j
  {
    hide Next;
    if i < j {
      CancelledIsForEver(t, tr, ops, i, j - 1);
      FrozenStep(tr[j - 1], ops[j - 1]);
    }
  }

  /** After its soft delete a project never changes again, not even in the audit log. */
  lemma {:induction false} DeletedIsForEver(t: Tree, tr: seq<Tree>, ops: seq<Op>, i: nat, j: nat)
    requires IsRun(t, tr, ops) && i <= j < |tr| && tr[i].project.deleted
    ensures tr[j] == tr[i]
    decreases j
  {
    hide Next;
    if i < j {
      DeletedIsForEver(t, tr, ops, i, j - 1);
      DeletedStep(tr[j - 1], ops[j - 1]);
    }
  }
}
