/**
 The project and assignment services: each callback locks the project row, reads, decides and writes inside one
 transaction, and is proved to do what the specification Workflow.Apply says; a failed one is rolled back.
 */
module ProjectService {
  import opened Common
  import opened DueDate
  import opened ProjectRules
  import opened Workflow
  import opened WorkflowHistory
  import opened ProjectRepository
  import Tenancy

  /** What an operation on the rows of key yields, the missing project included. */
  function Outcome(rows: map<Key, Tree>, key: Key, op: Op): Result<Tree> {
    if key in rows then Apply(rows[key], op)
    else if op.AddDeliverable? && !IsHttpUrl(op.url) then Err(Validation)
    else Err(ProjectNotFound)
  }

  /** The operation with the membership checks that its transaction makes. */
  function Settled(members: Members, key: Key, op: Op): Op {
    match op
    case Assign(actor, client, _) => Assign(actor, client, client.Some? && ActiveClient(members, key.org, client.value))
    case CreateAssignment(actor, aid, mid, assignee, _) =>
      CreateAssignment(actor, aid, mid, assignee, ActiveStaff(members, key.org, assignee))
    case MoveAssignment(actor, aid, assignee, _) =>
      MoveAssignment(actor, aid, assignee, ActiveStaff(members, key.org, assignee))
    case _ => op
  }

  /** A client must be an active client member, an assignee any other active member. */
  lemma SettledExactly(members: Members, key: Key, op: Op)
    ensures op.Assign? ==>
              Settled(members, key, op) == Assign(op.actor, op.client, exists k ::
                && k in members && op.client == Some(k.user) && k.org == key.org
                && members[k] == Tenancy.Membership(Tenancy.Client, Tenancy.MemberStatus.Active))
    ensures op.CreateAssignment? ==>
              Settled(members, key, op) == CreateAssignment(op.actor, op.aid, op.mid, op.assignee, exists k ::
                && k in members && op.assignee == k.user && k.org == key.org
                && members[k].status == Tenancy.MemberStatus.Active && members[k].role != Tenancy.Client)
    ensures op.MoveAssignment? ==>
              Settled(members, key, op) == MoveAssignment(op.actor, op.aid, op.assignee, exists k ::
                && k in members && op.assignee == k.user && k.org == key.org
                && members[k].status == Tenancy.MemberStatus.Active && members[k].role != Tenancy.Client)
    ensures !op.Assign? && !op.CreateAssignment? && !op.MoveAssignment? ==> Settled(members, key, op) == op
  {
  }

  /** The limit in a response is the milestone's own one, else the project's, and the flag says that it is reached. */
  lemma ViewExactly(t: Tree, mid: Mid)
    requires mid in t.milestones
    ensures var view, m := ReadView(t, mid), t.milestones[mid];
            && view.row == m && view.limit == (if m.limit != None then m.limit else t.project.limit)
            && (view.reached <==> exists limit: nat ::
                  limit <= m.count && (m.limit == Some(limit) || (m.limit == None && t.project.limit == Some(limit))))
  {
  }

  /** A callback that started on the rows before returned r; when it succeeds, it has left the rows of tx. */
  ghost predicate Served<T>(tx: Tx, before: map<Key, Tree>, key: Key, op: Op, r: Result<T>)
    reads tx
  {
    tx.Failed(r) ||
    match Outcome(before, key, op)
    case Ok(t) => r.Ok? && tx.rows == before[key := t]
    case Err(e) => r == Err(e)
  }

  /** The response is the milestone as a new read would find it. */
  ghost predicate Shows(after: map<Key, Tree>, key: Key, mid: Mid, r: Result<View>) {
    r.Ok? ==> MilestoneRead(after, key, mid) == r
  }

  /** A request to edit a milestone that names no field. */
  predicate EditsNothing(title: string, description: string, due: DueInput, position: int) {
    title == "" && description == "" && due.Absent? && position == 0
  }

  // ---------------------------------------------------------------------------------------------------
  // Responses that are read after the commit
  // ---------------------------------------------------------------------------------------------------

  datatype Call = Call(key: Key, op: Op)

  /** The rows after some whole transactions. */
  function AfterAll(rows: map<Key, Tree>, calls: seq<Call>): map<Key, Tree> {
    if calls == [] then rows
    else
      var before, c := AfterAll(rows, calls[..|calls| - 1]), calls[|calls| - 1];
      match Outcome(before, c.key, c.op)
      case Ok(t) => before[c.key := t]
      case Err(_) => before
  }

  function Settle(members: Members, calls: seq<Call>): (settled: seq<Call>)
    ensures |settled| == |calls|
  {
    seq(|calls|, i requires 0 <= i < |calls| => Call(calls[i].key, Settled(members, calls[i].key, calls[i].op)))
  }

  /** One of the calls deletes the project. */
  predicate Deletes(calls: seq<Call>, key: Key) {
    exists c <- calls :: c.key == key && c.op.Delete?
  }

  predicate Found(rows: map<Key, Tree>, key: Key) {
    key in rows && !rows[key].project.deleted
  }

  /** What reads through the pool find. */
  function ProjectRead(rows: map<Key, Tree>, key: Key): Result<Project> {
    if Found(rows, key) then Ok(rows[key].project) else Err(ProjectNotFound)
  }

  function MilestoneRead(rows: map<Key, Tree>, key: Key, mid: Mid): Result<View> {
    if Found(rows, key) && mid in rows[key].milestones then Ok(ReadView(rows[key], mid)) else Err(MilestoneNotFound)
  }

  /** A project and its milestones are found after some transactions exactly if none of those deleted the project. */
  lemma {:induction false} FoundExactly(rows: map<Key, Tree>, calls: seq<Call>, key: Key, mid: Mid)
    requires Found(rows, key)
    ensures var after := AfterAll(rows, calls);
            && (ProjectRead(after, key).Err? <==> Deletes(calls, key))
            && (mid in rows[key].milestones ==> (MilestoneRead(after, key, mid).Err? <==> Deletes(calls, key)))
  {
    FoundUnless(rows, calls, key, mid);
  }

  lemma {:induction false} FoundUnless(rows: map<Key, Tree>, calls: seq<Call>, key: Key, mid: Mid)
    requires Found(rows, key)
    ensures var after := AfterAll(rows, calls);
            && key in after && (after[key].project.deleted <==> Deletes(calls, key))
            && (mid in rows[key].milestones ==> mid in after[key].milestones)
  {
    hide Next, Outcome;
    if calls != [] {
      var earlier, c := calls[..|calls| - 1], calls[|calls| - 1];
      assert calls == earlier + [c];
      FoundUnless(rows, earlier, key, mid);
      OutcomeIsNext(rows, earlier, c);
      var t := AfterAll(rows, earlier)[key];
      if c.key == key {
        FailsOrNext(AfterAll(rows, earlier), key, c.op);
        if t.project.deleted { DeletedIsLeft(t, c.op); } else { DeletesExactly(t, c.op); }
        if mid in t.milestones { MilestonesStay(t, c.op, mid); }
      }
    }
  }

  lemma DeletedIsLeft(t: Tree, op: Op)
    requires t.project.deleted
    ensures Next(t, op) == t
  {
  }

  lemma FailsOrNext(rows: map<Key, Tree>, key: Key, op: Op)
    requires key in rows
    ensures Outcome(rows, key, op).Err? ==> Next(rows[key], op) == rows[key]
  {
    hide Decide, ExecuteAll;
  }

  lemma SettledDeletes(members: Members, calls: seq<Call>, key: Key)
    ensures Deletes(Settle(members, calls), key) <==> Deletes(calls, key)
  {
    var settled := Settle(members, calls);
    forall i | 0 <= i < |calls| ensures settled[i].key == calls[i].key && (settled[i].op.Delete? <==> calls[i].op.Delete?) {}
  }

  /**
   A call whose transaction is op and whose response is read after the commit, while the transactions others commit in
   between and the read may fail. An error without a commit leaves all rows alone. After a commit the specified rows are
   there, and there is an error all the same exactly if the read fails or one of the others deletes the project.
   */
  ghost predicate Answered<T>(before: map<Key, Tree>, after: map<Key, Tree>, members: Members, key: Key, op: Op,
                              faults: set<nat>, others: seq<Call>, committed: bool, readFails: bool, missing: Error,
                              r: Result<T>)
  {
    var done := Outcome(before, key, op);
    && (committed ==> done.Ok?)
    && (faults == {} ==> (committed <==> done.Ok?) && (!committed ==> r == Err(done.error)))
    && (!committed ==> r.Err? && after == before)
    && (committed ==>
          && after == AfterAll(before[key := done.value], Settle(members, others))
          && (r.Err? <==> readFails || Deletes(others, key))
          && (r.Err? ==> r.error == if readFails then DatabaseError else missing))
  }

  /** Such an error after a commit: the edit stands, and the caller is told that the milestone does not exist. */
  lemma EditKeptDespiteError(rows: map<Key, Tree>, key: Key, actor: User, other: User, mid: Mid, title: string, today: Date)
    requires Found(rows, key) && !Frozen(rows[key].project.status) && mid in rows[key].milestones && title != ""
    ensures var op := UpdateMilestone(actor, mid, title, "", DueInput.Absent, 0, today);
            && Outcome(rows, key, op).Ok?
            && var after := AfterAll(rows[key := Outcome(rows, key, op).value], [Call(key, Op.Delete(other))]);
               && MilestoneRead(after, key, mid) == Err(MilestoneNotFound)
               && key in after && mid in after[key].milestones && after[key].milestones[mid].title == title
               && |after[key].log| == |rows[key].log| + 2
               && after[key].log[|rows[key].log|]
                  == MilestoneUpdated(actor, mid, Some((rows[key].milestones[mid].title, title)), DueInput.Absent)
  {
    var t, op := rows[key], UpdateMilestone(actor, mid, title, "", DueInput.Absent, 0, today);
    var change := SetDetails(Some(title), None, DueInput.Absent, None);
    var entry := MilestoneUpdated(actor, mid, Some((t.milestones[mid].title, title)), DueInput.Absent);
    MilestoneOutcome(rows, key, op);
    RowWrites(t, mid, change, Stmt.Log(entry));
    var edited := rows[key := Outcome(rows, key, op).value];
    var u, deletion := edited[key], Op.Delete(other);
    var removal := ProjectDeleted(other, u.project.status, u.project.name);
    DeleteOutcome(edited, key, deletion);
    Two(u, Stmt.SoftDelete, Stmt.Log(removal));
    assert [Call(key, deletion)][..0] == [];
    assert AfterAll(edited, []) == edited;
  }

  /** The writes of a decision. */
  function Transact(t: Tree, d: Result<seq<Stmt>>): Result<Tree> {
    match d
    case Ok(stmts) => ExecuteAll(t, stmts)
    case Err(e) => Err(e)
  }

  lemma Overwrite<K, V>(m: map<K, V>, k: K, u: V, v: V)
    ensures m[k := u][k := v] == m[k := v]
  {
  }

  /** A read of a milestone row that was written. */
  lemma ReadBack(rows: map<Key, Tree>, key: Key, mid: Mid, row: Milestone, log: seq<Entry>)
    requires Found(rows, key)
    ensures var t := rows[key];
            var limit := EffectiveLimit(row.limit, t.project.limit);
            MilestoneRead(rows[key := t.(milestones := t.milestones[mid := row], log := log)], key, mid)
            == Ok(View(row, limit, RevisionLimitReached(row.count, limit)))
  {
  }

  lemma ReadFound(rows: map<Key, Tree>, key: Key, mid: Mid)
    requires Found(rows, key) && mid in rows[key].milestones
    ensures MilestoneRead(rows, key, mid) == Ok(ReadView(rows[key], mid))
  {
  }

  lemma NoWrites(rows: map<Key, Tree>, key: Key)
    requires key in rows
    ensures ExecuteAll(rows[key], []) == Ok(rows[key]) && rows[key := rows[key]] == rows
  {
  }

  lemma NextIsOutcome(rows: map<Key, Tree>, key: Key, op: Op)
    requires key in rows && Outcome(rows, key, op).Ok?
    ensures Next(rows[key], op) == Outcome(rows, key, op).value
  {
    hide Decide, ExecuteAll;
  }

  lemma OutcomeIsNext(rows: map<Key, Tree>, calls: seq<Call>, c: Call)
    ensures var before := AfterAll(rows, calls);
            AfterAll(rows, calls + [c]) ==
            if c.key in before && Outcome(before, c.key, c.op).Ok? then before[c.key := Next(before[c.key], c.op)] else before
  {
    hide Decide, ExecuteAll;
    assert (calls + [c])[..|calls|] == calls;
  }

  /** A call whose response is read after the commit. */
  predicate ReadsLater(op: Op) {
    op.Update? || op.LimitProject? || (op.UpdateMilestone? && !EditsNothing(op.title, op.description, op.due, op.position))
  }

  /** The commit of such a call always shows: its audit entry is there. */
  lemma CommitShows(rows: map<Key, Tree>, key: Key, op: Op)
    requires ReadsLater(op) && Outcome(rows, key, op).Ok?
    ensures key in rows && |Outcome(rows, key, op).value.log| == |rows[key].log| + 1
  {
    hide Outcome, ExecuteAll;
    match op
    case Update(_, _, _, _, _, _, _) =>
      UpdateOutcome(rows, key, op);
      var d := DecideUpdate(op, rows[key].project).value;
      assert d == [d[0], d[1]];
      Two(rows[key], d[0], d[1]);
    case LimitProject(_, _) =>
      ProjectOutcome(rows, key, op);
      var d := DecideProject(op, rows[key].project).value;
      assert d == [d[0], d[1]];
      Two(rows[key], d[0], d[1]);
    case UpdateMilestone(_, mid, _, _, _, _, _) =>
      MilestoneOutcome(rows, key, op);
      var t := rows[key];
      var d := DecideMilestone(op, t.project, t.milestones[mid], ReadChildren(t, op)).value;
      assert d == [d[0], d[1]];
      RowWrites(t, mid, d[0].change, d[1]);
  }

  /** Such a call commits on a project that is found, and leaves it, and the milestone it edits, to be found. */
  lemma CommitFinds(rows: map<Key, Tree>, key: Key, op: Op)
    requires ReadsLater(op) && Outcome(rows, key, op).Ok?
    ensures var after := rows[key := Outcome(rows, key, op).value];
            Found(after, key) && (op.UpdateMilestone? ==> op.mid in after[key].milestones)
  {
    hide Next, ExecuteAll;
    CommitTarget(rows, key, op);
    NextIsOutcome(rows, key, op);
    DeletesExactly(rows[key], op);
    if op.UpdateMilestone? { MilestonesStay(rows[key], op, op.mid); }
  }

  lemma CommitTarget(rows: map<Key, Tree>, key: Key, op: Op)
    requires ReadsLater(op) && Outcome(rows, key, op).Ok?
    ensures Found(rows, key) && (op.UpdateMilestone? ==> op.mid in rows[key].milestones)
  {
    hide ExecuteAll, DecideMilestone, DecideUpdate, DecideProject;
  }

  predicate IsLog(s: Stmt) {
    s.Log? || s.LogStatus? || s.LogLimit?
  }

  /** A statement on a milestone and an audit entry. */
  function RowThenLog(t: Tree, mid: Mid, c: RowChange, log: Stmt): Result<Tree>
    requires mid in t.milestones && IsLog(log)
  {
    var changed := ChangeRow(t.milestones[mid], c);
    if changed.Err? then Err(changed.error)
    else Ok(t.(milestones := t.milestones[mid := changed.value], log := t.log + [EntryOf(t, changed.value, log)]))
  }

  lemma RowWrites(t: Tree, mid: Mid, c: RowChange, log: Stmt)
    requires mid in t.milestones && IsLog(log) && (log.Log? || log.mid == mid)
    ensures ExecuteAll(t, [OnMilestone(mid, c), log]) == RowThenLog(t, mid, c, log)
  {
    hide ChangeRow;
    Two(t, OnMilestone(mid, c), log);
  }

  /** Two statements on a milestone and an audit entry. */
  function RowTwiceThenLog(t: Tree, mid: Mid, c: RowChange, d: RowChange, entry: Entry): Result<Tree>
    requires mid in t.milestones
  {
    var first := ChangeRow(t.milestones[mid], c);
    if first.Err? then Err(first.error)
    else
      var second := ChangeRow(first.value, d);
      if second.Err? then Err(second.error)
      else Ok(t.(milestones := t.milestones[mid := second.value], log := t.log + [entry]))
  }

  lemma RowWritesTwice(t: Tree, mid: Mid, c: RowChange, d: RowChange, entry: Entry)
    requires mid in t.milestones
    ensures ExecuteAll(t, [OnMilestone(mid, c), OnMilestone(mid, d), Stmt.Log(entry)])
            == RowTwiceThenLog(t, mid, c, d, entry)
  {
    hide ChangeRow, ExecuteAll;
    Three(t, OnMilestone(mid, c), OnMilestone(mid, d), Stmt.Log(entry));
    var first := ChangeRow(t.milestones[mid], c);
    if first.Ok? {
      var u := t.(milestones := t.milestones[mid := first.value]);
      assert Execute(t, OnMilestone(mid, c)) == Ok(u);
      RowWrites(u, mid, d, Stmt.Log(entry));
      var second := ChangeRow(first.value, d);
      if second.Ok? { Overwrite(t.milestones, mid, first.value, second.value); }
    }
  }

  /** The entry that log writes when the milestone row is m. */
  function EntryOf(t: Tree, m: Milestone, log: Stmt): Entry
    requires IsLog(log)
  {
    match log
    case Log(entry) => entry
    case LogStatus(actor, mid, before, completedBefore, after) =>
      StatusChanged(actor, mid, before, completedBefore, after, m.completedAt)
    case LogLimit(actor, mid, limitBefore) =>
      MilestoneLimitChanged(actor, mid, limitBefore, EffectiveLimit(m.limit, t.project.limit))
  }

  // The decisions of one kind of operation at a time.

  lemma UpdateOutcome(rows: map<Key, Tree>, key: Key, op: Op)
    requires op.Update?
    ensures Outcome(rows, key, op) ==
            if !Found(rows, key) then Err(ProjectNotFound) else Transact(rows[key], DecideUpdate(op, rows[key].project))
  {
  }

  lemma DeleteOutcome(rows: map<Key, Tree>, key: Key, op: Op)
    requires op.Delete?
    ensures Outcome(rows, key, op) ==
            if !Found(rows, key) then Err(ProjectNotFound)
            else
              var p := rows[key].project;
              ExecuteAll(rows[key], [Stmt.SoftDelete, Stmt.Log(ProjectDeleted(op.actor, p.status, p.name))])
  {
  }

  lemma ProjectOutcome(rows: map<Key, Tree>, key: Key, op: Op)
    requires op.Assign? || op.LimitProject? || op.CreateMilestone?
    ensures Outcome(rows, key, op) ==
            if !Found(rows, key) then Err(ProjectNotFound)
            else if Frozen(rows[key].project.status) then Err(InvalidStatusTransition)
            else Transact(rows[key], DecideProject(op, rows[key].project))
  {
  }

  lemma AssignmentOutcome(rows: map<Key, Tree>, key: Key, op: Op)
    requires op.MoveAssignment? || op.RemoveAssignment?
    ensures Outcome(rows, key, op) ==
            if !Found(rows, key) then Err(ProjectNotFound)
            else if Frozen(rows[key].project.status) then Err(InvalidStatusTransition)
            else Transact(rows[key], DecideAssignment(op, ReadChildren(rows[key], op)))
  {
  }

  lemma MilestoneOutcome(rows: map<Key, Tree>, key: Key, op: Op)
    requires Target(op).Some? && !op.Approve? && !op.RequestChanges?
    ensures Outcome(rows, key, op) ==
            if op.AddDeliverable? && !IsHttpUrl(op.url) then Err(Validation)
            else if !Found(rows, key) then Err(ProjectNotFound)
            else if Frozen(rows[key].project.status) then Err(InvalidStatusTransition)
            else if op.mid !in rows[key].milestones then Err(MilestoneNotFound)
            else
              var t := rows[key];
              Transact(t, DecideMilestone(op, t.project, t.milestones[op.mid], ReadChildren(t, op)))
  {
  }

  lemma SignOffOutcome(rows: map<Key, Tree>, key: Key, op: Op)
    requires op.Approve? || op.RequestChanges?
    ensures Outcome(rows, key, op) ==
            if !Found(rows, key) || rows[key].project.client != Some(op.actor) then Err(ProjectNotFound)
            else if Frozen(rows[key].project.status) then Err(InvalidStatusTransition)
            else if op.mid !in rows[key].milestones then Err(MilestoneNotFound)
            else
              var t := rows[key];
              Transact(t, DecideMilestone(op, t.project, t.milestones[op.mid], ReadChildren(t, op)))
  {
  }

  class Service {
    var rows: map<Key, Tree>
    var members: Members

    constructor (members: Members)
      ensures rows == map[] && this.members == members
    {
      rows, this.members := map[], members;
    }

    // -------------------------------------------------------------------------------------------------
    // Projects
    // -------------------------------------------------------------------------------------------------

    /** The lock and the freeze guard of every operation but Update, Delete and the sign-offs. */
    method LockForMutation(tx: Tx, key: Key) returns (r: Result<Project>)
      modifies tx`clock
      ensures !tx.Failed(r) ==>
                r == if !Found(tx.rows, key) then Err(ProjectNotFound)
                     else if Frozen(tx.rows[key].project.status) then Err(InvalidStatusTransition)
                     else Ok(tx.rows[key].project)
    {
      var project :- tx.GetProjectForUpdate(key);
      if Frozen(project.status) { return Err(InvalidStatusTransition); }
      r := Ok(project);
    }

    method UpdateInTx(tx: Tx, key: Key, actor: User, name: string, description: string, priority: Field<Priority>,
                      status: Field<ProjectStatus>, due: DueInput, today: Date) returns (r: Result<()>)
      modifies tx
      ensures Served(tx, old(tx.rows), key, Op.Update(actor, name, description, priority, status, due, today), r)
    {
      hide Outcome, ExecuteAll;
      UpdateOutcome(tx.rows, key, Op.Update(actor, name, description, priority, status, due, today));
      var project :- tx.GetProjectForUpdate(key);
      var frozen := project.status == Archived || project.status == ProjectStatus.Cancelled;
      var restore := project.status == Archived && status == Known(ProjectStatus.Active)
        && name == "" && description == "" && priority.Missing? && due.Absent?;
      if frozen && !restore { return Err(InvalidStatusTransition); }
      if restore {
        Two(tx.rows[key], Stmt.UpdateDetails(None, None, None, Some(ProjectStatus.Active), Absent),
            Stmt.Log(ProjectRestored(actor, Archived, ProjectStatus.Active)));
        r := RestoreProject(tx, key, actor, project);
        return;
      }
      if InPast(due, today) { return Err(DueDateInPast); }
      var newPriority: Option<Priority> := None;
      var newStatus: Option<ProjectStatus> := None;
      if priority.Unknown? { return Err(InvalidProjectPriority); }
      if priority.Known? { newPriority := Some(priority.value); }
      if status.Unknown? { return Err(InvalidStatusTransition); }
      if status.Known? {
        if !ProjectTransition(project.status, status.value) { return Err(InvalidStatusTransition); }
        newStatus := Some(status.value);
      }
      ghost var write := UpdateDetails(Text(name), Text(description), newPriority, newStatus, due);
      var entry := ProjectUpdated(actor, Text(name),
                                  if newPriority.Some? then Some((project.priority, newPriority.value)) else None,
                                  if newStatus.Some? then Some((project.status, newStatus.value)) else None, due);
      Two(tx.rows[key], write, Stmt.Log(entry));
      var _ :- tx.UpdateDetails(key, Text(name), Text(description), newPriority, newStatus, due);
      var _ :- tx.Log(key, entry);
      r := Ok(());
    }

    method RestoreProject(tx: Tx, key: Key, actor: User, project: Project) returns (r: Result<()>)
      requires key in tx.rows && tx.rows[key].project == project && project.status == Archived && !project.deleted
      modifies tx
      ensures r.Ok? || tx.Failed(r)
      ensures var t := old(tx.rows)[key];
              r.Ok? ==> tx.rows == old(tx.rows)[key :=
                t.(project := t.project.(status := ProjectStatus.Active),
                   log := t.log + [ProjectRestored(actor, Archived, ProjectStatus.Active)])]
    {
      var _ :- tx.UpdateDetails(key, None, None, None, Some(ProjectStatus.Active), Absent);
      var _ :- tx.Log(key, ProjectRestored(actor, project.status, ProjectStatus.Active));
      r := Ok(());
    }

    method Delete(tx: Tx, key: Key, actor: User) returns (r: Result<()>)
      modifies tx
      ensures Served(tx, old(tx.rows), key, Op.Delete(actor), r)
    {
      hide Outcome, ExecuteAll;
      DeleteOutcome(tx.rows, key, Op.Delete(actor));
      var project :- tx.GetProjectForUpdate(key);
      var entry := ProjectDeleted(actor, project.status, project.name);
      Two(tx.rows[key], Stmt.SoftDelete, Stmt.Log(entry));
      var _ :- tx.SoftDelete(key);
      var _ :- tx.Log(key, entry);
      r := Ok(());
    }

    /** The project side of AssignClient; the memberships are in the module Tenancy. */
    method AssignClient(tx: Tx, key: Key, actor: User, client: Option<User>) returns (r: Result<()>)
      modifies tx
      ensures Served(tx, old(tx.rows), key, Settled(tx.members, key, Op.Assign(actor, client, false)), r)
    {
      hide Outcome, ExecuteAll;
      ProjectOutcome(tx.rows, key, Settled(tx.members, key, Op.Assign(actor, client, false)));
      var project :- LockForMutation(tx, key);
      var oldClient := project.client;
      if client == oldClient {
        NoWrites(tx.rows, key);
        return Ok(());
      }
      if client.Some? {
        var isClient :- tx.IsActiveClientMember(key.org, client.value);
        if !isClient { return Err(ClientNotFound); }
      }
      var entry := ClientChanged(actor, oldClient, client);
      Two(tx.rows[key], Stmt.AssignClient(client), Stmt.Log(entry));
      var _ :- tx.AssignClient(key, client);
      var _ :- tx.Log(key, entry);
      r := Ok(());
    }

    method SetProjectRevisionLimitInTx(tx: Tx, key: Key, actor: User, limit: Option<int>) returns (r: Result<()>)
      modifies tx
      ensures Served(tx, old(tx.rows), key, LimitProject(actor, limit), r)
    {
      hide Outcome, ExecuteAll;
      ProjectOutcome(tx.rows, key, LimitProject(actor, limit));
      var project :- LockForMutation(tx, key);
      ghost var before := tx.rows;
      var _ :- tx.SetProjectRevisionLimit(key, limit);
      var entry := ProjectLimitChanged(actor, project.limit, limit);
      Two(before[key], SetProjectLimit(limit), Stmt.Log(entry));
      var _ :- tx.Log(key, entry);
      r := Ok(());
    }

    // -------------------------------------------------------------------------------------------------
    // Milestones
    // -------------------------------------------------------------------------------------------------

    method CreateMilestone(tx: Tx, key: Key, actor: User, mid: Mid, title: string, description: string, due: DueInput,
                           today: Date) returns (r: Result<()>)
      modifies tx
      ensures Served(tx, old(tx.rows), key, Op.CreateMilestone(actor, mid, title, description, due, today), r)
    {
      hide Outcome, ExecuteAll;
      ProjectOutcome(tx.rows, key, Op.CreateMilestone(actor, mid, title, description, due, today));
      var project :- LockForMutation(tx, key);
      if InPast(due, today) { return Err(DueDateInPast); }
      var row, entry := NewMilestone(title, description, due), MilestoneCreated(actor, mid, title);
      Two(tx.rows[key], InsertMilestone(mid, row), Stmt.Log(entry));
      var _ :- tx.CreateMilestone(key, mid, row);
      var _ :- tx.Log(key, entry);
      r := Ok(());
    }

    /** The milestone, if the request edits nothing; else its response is read after the commit. */
    method UpdateMilestoneInTx(tx: Tx, key: Key, actor: User, mid: Mid, title: string, description: string, due: DueInput,
                               position: int, today: Date) returns (r: Result<Option<View>>)
      modifies tx
      ensures Served(tx, old(tx.rows), key, Op.UpdateMilestone(actor, mid, title, description, due, position, today), r)
      ensures r.Ok? ==> (r.value.Some? <==> EditsNothing(title, description, due, position))
      ensures r.Ok? && r.value.Some? ==> tx.rows == old(tx.rows) && Shows(tx.rows, key, mid, Ok(r.value.value))
    {
      hide Outcome, ExecuteAll;
      MilestoneOutcome(tx.rows, key, Op.UpdateMilestone(actor, mid, title, description, due, position, today));
      var project :- LockForMutation(tx, key);
      var milestone :- tx.GetMilestone(key, mid);
      var move := if position == 0 then None else Some(position);
      if title == "" && description == "" && due.Absent? && move.None? {
        NoWrites(tx.rows, key);
        return Ok(Some(milestone));
      }
      if InPast(due, today) { return Err(DueDateInPast); }
      ghost var write := SetDetails(Text(title), Text(description), due, move);
      var entry := MilestoneUpdated(actor, mid, if title == "" then None else Some((milestone.row.title, title)), due);
      RowWrites(tx.rows[key], mid, write, Stmt.Log(entry));
      var _ :- tx.UpdateMilestoneDetails(key, mid, Text(title), Text(description), due, move);
      var _ :- tx.Log(key, entry);
      r := Ok(None);
    }

    method SubmitMilestone(tx: Tx, key: Key, actor: User, mid: Mid) returns (r: Result<View>)
      modifies tx
      ensures Served(tx, old(tx.rows), key, Op.Submit(actor, mid), r) && Shows(tx.rows, key, mid, r)
    {
      hide Outcome, ExecuteAll, MilestoneRead;
      MilestoneOutcome(tx.rows, key, Op.Submit(actor, mid));
      var project :- LockForMutation(tx, key);
      var milestone :- tx.GetMilestone(key, mid);
      if milestone.row.status == AwaitingApproval {
        ReadFound(tx.rows, key, mid);
        NoWrites(tx.rows, key);
        return Ok(milestone);
      }
      if milestone.row.status != InProgress && milestone.row.status != ChangesRequested {
        return Err(InvalidStatusTransition);
      }
      if project.client.None? { return Err(ProjectHasNoClient); }
      var count :- tx.CountDeliverables(key, mid);
      if count < 1 { return Err(DeliverableRequired); }
      var oldStatus, newRevision := milestone.row.status, milestone.row.count + 1;
      var entry := Submitted(actor, mid, oldStatus, milestone.row.count, newRevision);
      RowWritesTwice(tx.rows[key], mid, SubmitRow(oldStatus), InsertRevision(Revision(newRevision, actor)), entry);
      ghost var before, t := tx.rows, tx.rows[key];
      var submitted := milestone.row.(status := AwaitingApproval, count := newRevision);
      var row := submitted.(revisions := submitted.revisions + [Revision(newRevision, actor)]);
      Overwrite(t.milestones, mid, submitted, row);
      var _ :- tx.SubmitMilestone(key, mid, oldStatus);
      assert tx.rows == before[key := t.(milestones := t.milestones[mid := submitted])];
      var _ :- tx.CreateMilestoneRevision(key, mid, newRevision, actor);
      assert tx.rows == before[key := t.(milestones := t.milestones[mid := row])];
      var _ :- tx.Log(key, entry);
      assert tx.rows == before[key := t.(milestones := t.milestones[mid := row], log := t.log + [entry])];
      ReadBack(before, key, mid, row, t.log + [entry]);
      r := Ok(View(row, milestone.limit, RevisionLimitReached(newRevision, milestone.limit)));
    }

    /** Locks the project row; the actor must be its client. */
    method EnsureActorProjectAccess(tx: Tx, key: Key, actor: User) returns (r: Result<()>)
      modifies tx`clock
      ensures !tx.Failed(r) ==>
                r == if !Found(tx.rows, key) || tx.rows[key].project.client != Some(actor) then Err(ProjectNotFound)
                     else if Frozen(tx.rows[key].project.status) then Err(InvalidStatusTransition)
                     else Ok(())
    {
      var project :- tx.GetProjectForUpdate(key);
      if project.client.None? || project.client.value != actor { return Err(ProjectNotFound); }
      if Frozen(project.status) { return Err(InvalidStatusTransition); }
      r := Ok(());
    }

    method ApproveMilestone(tx: Tx, key: Key, actor: User, mid: Mid) returns (r: Result<View>)
      modifies tx
      ensures Served(tx, old(tx.rows), key, Op.Approve(actor, mid), r) && Shows(tx.rows, key, mid, r)
    {
      hide Outcome, ExecuteAll;
      SignOffOutcome(tx.rows, key, Op.Approve(actor, mid));
      var _ :- EnsureActorProjectAccess(tx, key, actor);
      var milestone :- tx.GetMilestone(key, mid);
      if milestone.row.status == Approved {
        NoWrites(tx.rows, key);
        return Ok(milestone);
      }
      if milestone.row.status != AwaitingApproval { return Err(MilestoneNotAwaitingApproval); }
      ghost var write := SetStatus(AwaitingApproval, Approved, 0);
      var entry := SignedOff(actor, mid, milestone.row.status);
      RowWrites(tx.rows[key], mid, write, Stmt.Log(entry));
      var _ :- tx.SetMilestoneStatus(key, mid, AwaitingApproval, Approved, 0);
      var _ :- tx.Log(key, entry);
      r := Ok(milestone.(row := milestone.row.(status := Approved)));
    }

    method RequestMilestoneChanges(tx: Tx, key: Key, actor: User, mid: Mid, notes: string) returns (r: Result<View>)
      modifies tx
      ensures Served(tx, old(tx.rows), key, Op.RequestChanges(actor, mid, notes), r) && Shows(tx.rows, key, mid, r)
    {
      hide Outcome, ExecuteAll;
      SignOffOutcome(tx.rows, key, Op.RequestChanges(actor, mid, notes));
      var _ :- EnsureActorProjectAccess(tx, key, actor);
      var milestone :- tx.GetMilestone(key, mid);
      if milestone.row.status != AwaitingApproval { return Err(MilestoneNotAwaitingApproval); }
      ghost var write := SetStatus(AwaitingApproval, ChangesRequested, 0);
      var entry := ChangesAsked(actor, mid, milestone.row.status, notes);
      RowWrites(tx.rows[key], mid, write, Stmt.Log(entry));
      var _ :- tx.SetMilestoneStatus(key, mid, AwaitingApproval, ChangesRequested, 0);
      var _ :- tx.Log(key, entry);
      r := Ok(milestone.(row := milestone.row.(status := ChangesRequested)));
    }

    method UpdateMilestoneStatus(tx: Tx, key: Key, actor: User, mid: Mid, next: MilestoneStatus, now: Time)
      returns (r: Result<View>)
      modifies tx
      ensures Served(tx, old(tx.rows), key, Op.ChangeStatus(actor, mid, next, now), r) && Shows(tx.rows, key, mid, r)
    {
      hide Outcome, ExecuteAll;
      MilestoneOutcome(tx.rows, key, Op.ChangeStatus(actor, mid, next, now));
      var project :- LockForMutation(tx, key);
      var milestone :- tx.GetMilestone(key, mid);
      if next == AwaitingApproval || next == Approved || next == ChangesRequested { return Err(InvalidStatusTransition); }
      if milestone.row.status == next {
        NoWrites(tx.rows, key);
        return Ok(milestone);
      }
      if !MilestoneTransition(milestone.row.status, next) { return Err(InvalidStatusTransition); }
      ghost var write := SetStatus(milestone.row.status, next, now);
      ghost var log := LogStatus(actor, mid, milestone.row.status, milestone.row.completedAt, next);
      RowWrites(tx.rows[key], mid, write, log);
      var _ :- tx.SetMilestoneStatus(key, mid, milestone.row.status, next, now);
      var updated :- tx.GetMilestone(key, mid);
      var _ :- tx.Log(key, StatusChanged(actor, mid, milestone.row.status, milestone.row.completedAt,
                                         next, updated.row.completedAt));
      r := Ok(updated);
    }

    method UpdateMilestonePaymentStatus(tx: Tx, key: Key, actor: User, mid: Mid, next: Payment) returns (r: Result<View>)
      modifies tx
      ensures Served(tx, old(tx.rows), key, ChangePayment(actor, mid, next), r) && Shows(tx.rows, key, mid, r)
    {
      hide Outcome, ExecuteAll;
      MilestoneOutcome(tx.rows, key, ChangePayment(actor, mid, next));
      var project :- LockForMutation(tx, key);
      var milestone :- tx.GetMilestone(key, mid);
      if milestone.row.payment == next {
        NoWrites(tx.rows, key);
        return Ok(milestone);
      }
      ghost var write := SetPayment(milestone.row.payment, next);
      var entry := PaymentChanged(actor, mid, milestone.row.payment, next);
      RowWrites(tx.rows[key], mid, write, Stmt.Log(entry));
      var _ :- tx.SetMilestonePaymentStatus(key, mid, milestone.row.payment, next);
      var _ :- tx.Log(key, entry);
      r := Ok(milestone.(row := milestone.row.(payment := next)));
    }

    method SetMilestoneRevisionLimit(tx: Tx, key: Key, actor: User, mid: Mid, limit: Option<int>) returns (r: Result<View>)
      modifies tx
      ensures Served(tx, old(tx.rows), key, LimitMilestone(actor, mid, limit), r) && Shows(tx.rows, key, mid, r)
    {
      hide Outcome, ExecuteAll;
      MilestoneOutcome(tx.rows, key, LimitMilestone(actor, mid, limit));
      var project :- LockForMutation(tx, key);
      var milestone :- tx.GetMilestone(key, mid);
      ghost var write, log := SetLimit(limit), LogLimit(actor, mid, milestone.limit);
      RowWrites(tx.rows[key], mid, write, log);
      var _ :- tx.SetMilestoneRevisionLimit(key, mid, limit);
      var updated :- tx.GetMilestone(key, mid);
      var _ :- tx.Log(key, MilestoneLimitChanged(actor, mid, milestone.limit, updated.limit));
      r := Ok(updated);
    }

    // -------------------------------------------------------------------------------------------------
    // Deliverables
    // -------------------------------------------------------------------------------------------------

    method CreateDeliverable(tx: Tx, key: Key, actor: User, mid: Mid, did: Did, url: string, title: Option<string>,
                             description: Option<string>) returns (r: Result<Deliverable>)
      modifies tx
      ensures Served(tx, old(tx.rows), key, AddDeliverable(actor, mid, did, url, title, description), r)
    {
      hide Outcome, ExecuteAll;
      MilestoneOutcome(tx.rows, key, AddDeliverable(actor, mid, did, url, title, description));
      if !IsHttpUrl(url) { return Err(Validation); }
      var project :- LockForMutation(tx, key);
      var milestone :- tx.GetMilestone(key, mid);
      if Closed(milestone.row.status) { return Err(InvalidStatusTransition); }
      var d := Deliverable(url, title, description, actor);
      var entry := DeliverableAdded(actor, mid, did, url, title);
      ghost var write := InsertDeliverable(did, d);
      RowWrites(tx.rows[key], mid, write, Stmt.Log(entry));
      var _ :- tx.CreateDeliverable(key, mid, did, d);
      var _ :- tx.Log(key, entry);
      r := Ok(d);
    }

    method DeleteDeliverable(tx: Tx, key: Key, actor: User, mid: Mid, did: Did) returns (r: Result<()>)
      modifies tx
      ensures Served(tx, old(tx.rows), key, RemoveDeliverable(actor, mid, did), r)
    {
      hide Outcome, ExecuteAll;
      MilestoneOutcome(tx.rows, key, RemoveDeliverable(actor, mid, did));
      var project :- LockForMutation(tx, key);
      var milestone :- tx.GetMilestone(key, mid);
      if Closed(milestone.row.status) { return Err(InvalidStatusTransition); }
      var existing :- tx.GetDeliverable(key, mid, did);
      ghost var write := RowChange.DeleteDeliverable(did);
      var entry := DeliverableRemoved(actor, mid, did, existing.url);
      RowWrites(tx.rows[key], mid, write, Stmt.Log(entry));
      var _ :- tx.DeleteDeliverable(key, mid, did);
      var _ :- tx.Log(key, entry);
      r := Ok(());
    }

    // -------------------------------------------------------------------------------------------------
    // Assignments
    // -------------------------------------------------------------------------------------------------

    method CreateAssignment(tx: Tx, key: Key, actor: User, aid: Aid, mid: Mid, assignee: User)
      returns (r: Result<Assignment>)
      modifies tx
      ensures Served(tx, old(tx.rows), key, Settled(tx.members, key, Op.CreateAssignment(actor, aid, mid, assignee, false)), r)
    {
      hide Outcome, ExecuteAll;
      MilestoneOutcome(tx.rows, key, Settled(tx.members, key, Op.CreateAssignment(actor, aid, mid, assignee, false)));
      var project :- LockForMutation(tx, key);
      var milestone :- tx.GetMilestone(key, mid);
      var _ :- tx.EnsureActiveMember(key.org, assignee);
      var a, entry := Assignment(mid, assignee, actor), AssignmentCreated(actor, aid, mid, assignee);
      Two(tx.rows[key], InsertAssignment(aid, a), Stmt.Log(entry));
      var _ :- tx.CreateAssignment(key, aid, a);
      var _ :- tx.Log(key, entry);
      r := Ok(a);
    }

    method UpdateAssignment(tx: Tx, key: Key, actor: User, aid: Aid, assignee: User)
      returns (r: Result<Assignment>)
      modifies tx
      ensures Served(tx, old(tx.rows), key, Settled(tx.members, key, MoveAssignment(actor, aid, assignee, false)), r)
      ensures r.Ok? ==> aid in tx.rows[key].assignments && r.value == tx.rows[key].assignments[aid]
    {
      hide Outcome, ExecuteAll;
      AssignmentOutcome(tx.rows, key, Settled(tx.members, key, MoveAssignment(actor, aid, assignee, false)));
      var project :- LockForMutation(tx, key);
      var assignment :- tx.GetAssignment(key, aid);
      var _ :- tx.EnsureActiveMember(key.org, assignee);
      var entry := AssignmentUpdated(actor, aid, assignment.assignedTo, assignee);
      Two(tx.rows[key], Stmt.UpdateAssignedTo(aid, assignee), Stmt.Log(entry));
      var _ :- tx.UpdateAssignedTo(key, aid, assignee);
      var _ :- tx.Log(key, entry);
      r := Ok(assignment.(assignedTo := assignee));
    }

    method DeleteAssignment(tx: Tx, key: Key, actor: User, aid: Aid) returns (r: Result<()>)
      modifies tx
      ensures Served(tx, old(tx.rows), key, RemoveAssignment(actor, aid), r)
    {
      hide Outcome, ExecuteAll;
      AssignmentOutcome(tx.rows, key, RemoveAssignment(actor, aid));
      var project :- LockForMutation(tx, key);
      var current :- tx.GetAssignment(key, aid);
      var entry := AssignmentRemoved(actor, aid, current.assignedTo);
      Two(tx.rows[key], Stmt.DeleteAssignment(aid), Stmt.Log(entry));
      var _ :- tx.DeleteAssignment(key, aid);
      var _ :- tx.Log(key, entry);
      r := Ok(());
    }

    // -------------------------------------------------------------------------------------------------
    // Transactions
    // -------------------------------------------------------------------------------------------------

    /** The callback of an operation. */
    method Callback(tx: Tx, key: Key, op: Op) returns (r: Result<()>)
      modifies tx
      ensures Served(tx, old(tx.rows), key, Settled(tx.members, key, op), r)
    {
      hide Outcome;
      match op
      case Update(actor, name, description, priority, status, due, today) =>
        r := UpdateInTx(tx, key, actor, name, description, priority, status, due, today);
      case Delete(actor) => r := Delete(tx, key, actor);
      case Assign(actor, client, _) => r := AssignClient(tx, key, actor, client);
      case LimitProject(actor, limit) => r := SetProjectRevisionLimitInTx(tx, key, actor, limit);
      case CreateMilestone(actor, mid, title, description, due, today) =>
        r := CreateMilestone(tx, key, actor, mid, title, description, due, today);
      case UpdateMilestone(actor, mid, title, description, due, position, today) =>
        var _ :- UpdateMilestoneInTx(tx, key, actor, mid, title, description, due, position, today);
        r := Ok(());
      case Submit(actor, mid) =>
        var _ :- SubmitMilestone(tx, key, actor, mid);
        r := Ok(());
      case Approve(actor, mid) =>
        var _ :- ApproveMilestone(tx, key, actor, mid);
        r := Ok(());
      case RequestChanges(actor, mid, notes) =>
        var _ :- RequestMilestoneChanges(tx, key, actor, mid, notes);
        r := Ok(());
      case ChangeStatus(actor, mid, next, now) =>
        var _ :- UpdateMilestoneStatus(tx, key, actor, mid, next, now);
        r := Ok(());
      case AddDeliverable(actor, mid, did, url, caption, text) =>
        var _ :- CreateDeliverable(tx, key, actor, mid, did, url, caption, text);
        r := Ok(());
      case RemoveDeliverable(actor, mid, did) => r := DeleteDeliverable(tx, key, actor, mid, did);
      case ChangePayment(actor, mid, payment) =>
        var _ :- UpdateMilestonePaymentStatus(tx, key, actor, mid, payment);
        r := Ok(());
      case LimitMilestone(actor, mid, limit) =>
        var _ :- SetMilestoneRevisionLimit(tx, key, actor, mid, limit);
        r := Ok(());
      case CreateAssignment(actor, aid, mid, assignee, _) =>
        var _ :- CreateAssignment(tx, key, actor, aid, mid, assignee);
        r := Ok(());
      case MoveAssignment(actor, aid, assignee, _) =>
        var _ :- UpdateAssignment(tx, key, actor, aid, assignee);
        r := Ok(());
      case RemoveAssignment(actor, aid) => r := DeleteAssignment(tx, key, actor, aid);
    }

    /** Begin, callback, commit; or rollback when the callback or the commit fails. */
    method WithTransaction(key: Key, op: Op, faults: set<nat>) returns (r: Result<()>)
      modifies this`rows
      ensures var settled := Settled(members, key, op);
              && (r.Ok? ==> && key in old(rows) && Outcome(old(rows), key, settled).Ok?
                            && rows == old(rows)[key := Next(old(rows)[key], settled)])
              && (r.Err? ==> rows == old(rows))
              && (faults == {} ==>
                    match Outcome(old(rows), key, settled)
                    case Ok(_) => r.Ok?
                    case Err(e) => r == Err(e))
    {
      var tx := new Tx(rows, members, faults);
      var _ :- Callback(tx, key, op);
      var _ :- tx.Send();
      rows := tx.rows;
      r := Ok(());
    }

    // -------------------------------------------------------------------------------------------------
    // Operations that read their response after the commit
    // -------------------------------------------------------------------------------------------------

    /** Other callers' transactions. */
    method RunAll(calls: seq<Call>)
      modifies this`rows
      ensures rows == AfterAll(old(rows), Settle(members, calls))
    {
      hide Outcome, Apply, Settled;
      ghost var settled := Settle(members, calls);
      for i := 0 to |calls|
        invariant rows == AfterAll(old(rows), settled[..i])
      {
        var r := WithTransaction(calls[i].key, calls[i].op, {});
        OutcomeIsNext(old(rows), settled[..i], settled[i]);
        assert settled[..i + 1] == settled[..i] + [settled[i]];
      }
      assert settled[..|calls|] == settled;
    }

    /** GetMilestoneByID, through the pool. */
    method GetMilestoneByID(key: Key, mid: Mid, fails: bool) returns (r: Result<View>)
      ensures r == if fails then Err(DatabaseError) else MilestoneRead(rows, key, mid)
    {
      if fails { return Err(DatabaseError); }
      var pool := new Tx(rows, members, {});
      r := pool.GetMilestone(key, mid);
    }

    /** GetByID, through the pool. */
    method GetByID(key: Key, fails: bool) returns (r: Result<Project>)
      ensures r == if fails then Err(DatabaseError) else ProjectRead(rows, key)
    {
      if fails { return Err(DatabaseError); }
      if key in rows && !rows[key].project.deleted { return Ok(rows[key].project); }
      r := Err(ProjectNotFound);
    }

    method UpdateMilestone(key: Key, actor: User, mid: Mid, title: string, description: string, due: DueInput,
                           position: int, today: Date, faults: set<nat>, others: seq<Call>, readFails: bool)
      returns (r: Result<View>, ghost committed: bool)
      modifies this`rows
      ensures var op, later := Op.UpdateMilestone(actor, mid, title, description, due, position, today),
                               !EditsNothing(title, description, due, position);
              Answered(old(rows), rows, members, key, op, faults, if later then others else [], committed,
                       later && readFails, MilestoneNotFound, r)
      ensures r.Ok? ==> MilestoneRead(rows, key, mid) == r
      ensures r.Err? && others == [] ==> (rows == old(rows) <==> !committed)
    {
      hide Outcome, ExecuteAll;
      ghost var op := Op.UpdateMilestone(actor, mid, title, description, due, position, today);
      committed := false;
      var tx := new Tx(rows, members, faults);
      var answer := UpdateMilestoneInTx(tx, key, actor, mid, title, description, due, position, today);
      if answer.Err? { return Err(answer.error), false; }
      var sent := tx.Send();
      if sent.Err? { return Err(sent.error), false; }
      rows, committed := tx.rows, true;
      if answer.value.Some? {
        r := Ok(answer.value.value);
      } else {
        CommitShows(old(rows), key, op);
        CommitFinds(old(rows), key, op);
        FoundExactly(rows, Settle(members, others), key, mid);
        SettledDeletes(members, others, key);
        RunAll(others);
        r := GetMilestoneByID(key, mid, readFails);
      }
    }

    method Update(key: Key, actor: User, name: string, description: string, priority: Field<Priority>,
                  status: Field<ProjectStatus>, due: DueInput, today: Date, faults: set<nat>, others: seq<Call>,
                  readFails: bool) returns (r: Result<Project>, ghost committed: bool)
      modifies this`rows
      ensures Answered(old(rows), rows, members, key, Op.Update(actor, name, description, priority, status, due, today),
                       faults, others, committed, readFails, ProjectNotFound, r)
      ensures r.Ok? ==> ProjectRead(rows, key) == r
      ensures r.Err? && others == [] ==> (rows == old(rows) <==> !committed)
    {
      var op := Op.Update(actor, name, description, priority, status, due, today);
      r, committed := CommitAndRead(key, op, faults, others, readFails);
    }

    method SetProjectRevisionLimit(key: Key, actor: User, limit: Option<int>, faults: set<nat>, others: seq<Call>,
                                   readFails: bool) returns (r: Result<Project>, ghost committed: bool)
      modifies this`rows
      ensures Answered(old(rows), rows, members, key, LimitProject(actor, limit), faults, others, committed, readFails,
                       ProjectNotFound, r)
      ensures r.Ok? ==> ProjectRead(rows, key) == r
      ensures r.Err? && others == [] ==> (rows == old(rows) <==> !committed)
    {
      r, committed := CommitAndRead(key, LimitProject(actor, limit), faults, others, readFails);
    }

    /** The transaction of op, then a read of its project. */
    method CommitAndRead(key: Key, op: Op, faults: set<nat>, others: seq<Call>, readFails: bool)
      returns (r: Result<Project>, ghost committed: bool)
      requires ReadsLater(op)
      modifies this`rows
      ensures Answered(old(rows), rows, members, key, op, faults, others, committed, readFails, ProjectNotFound, r)
      ensures r.Ok? ==> ProjectRead(rows, key) == r
      ensures others == [] ==> (rows == old(rows) <==> !committed)
    {
      hide Outcome;
      var done := WithTransaction(key, op, faults);
      if done.Err? { return Err(done.error), false; }
      NextIsOutcome(old(rows), key, op);
      CommitShows(old(rows), key, op);
      CommitFinds(old(rows), key, op);
      FoundExactly(rows, Settle(members, others), key, 0);
      SettledDeletes(members, others, key);
      RunAll(others);
      r := GetByID(key, readFails);
      committed := true;
    }

    /** The project's identifier is fresh. */
    method Create(key: Key, actor: User, name: string, description: string, priority: Field<Priority>, due: DueInput,
                  faults: set<nat>) returns (r: Result<()>)
      requires key !in rows
      modifies this`rows
      ensures r.Ok? ==>
                && !priority.Unknown? && name != ""
                && var chosen := if priority.Known? then priority.value else Medium;
                   rows == old(rows)[key := NewTree(actor, name, description, chosen, due)]
      ensures r.Err? ==> rows == old(rows) && r.error == if priority.Unknown? then Validation else DatabaseError
      ensures faults == {} ==> (r.Ok? <==> !priority.Unknown? && name != "")
    {
      var chosen := Medium;
      if priority.Unknown? { return Err(Validation); }
      if priority.Known? { chosen := priority.value; }
      var tx := new Tx(rows, members, faults);
      var project := Project(name, Text(description), chosen, NewDue(due, None), Draft, None, None, false);
      var _ :- tx.InsertProject(key, project);
      var _ :- tx.Log(key, ProjectCreated(actor, name));
      assert [] + [ProjectCreated(actor, name)] == [ProjectCreated(actor, name)];
      var _ :- tx.Send();
      rows := tx.rows;
      r := Ok(());
    }
  }
}
