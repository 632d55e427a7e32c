/** The pure rules of the project service: status tables, the freeze guard and small checks. */
module ProjectRules {
  import opened Common

  datatype ProjectStatus = Draft | Active | Completed | Archived | Cancelled

  datatype MilestoneStatus =
    | Pending
    | InProgress
    | AwaitingApproval
    | Completed
    | Blocked
    | Cancelled
    | Approved
    | ChangesRequested

  /** Archived and cancelled projects are read-only. */
  predicate Frozen(status: ProjectStatus) {
    status == ProjectStatus.Archived || status == ProjectStatus.Cancelled
  }

  predicate ProjectTransition(current: ProjectStatus, next: ProjectStatus) {
    current == next ||
    match current
    case Draft => next == ProjectStatus.Active || next == Archived || next == ProjectStatus.Cancelled
    case Active => next == ProjectStatus.Completed || next == Archived || next == ProjectStatus.Cancelled
    case Completed => next == Archived
    case Archived => next == ProjectStatus.Active
    case Cancelled => false
  }

  /** The staff status PATCH; submit, approve and changes-requested are separate operations. */
  predicate MilestoneTransition(current: MilestoneStatus, next: MilestoneStatus) {
    current == next ||
    match current
    case Pending => next == InProgress || next == MilestoneStatus.Cancelled
    case InProgress => next == Pending || next == Blocked || next == MilestoneStatus.Cancelled
    case Blocked => next == InProgress || next == MilestoneStatus.Cancelled
    case AwaitingApproval => next == Blocked || next == MilestoneStatus.Cancelled
    case ChangesRequested => next == InProgress || next == Blocked || next == MilestoneStatus.Cancelled
    case Approved => next == MilestoneStatus.Completed
    case Completed => false
    case Cancelled => false
  }

  /** Statuses that only submit, approve and changes-requested may set. */
  predicate ActionOnly(status: MilestoneStatus) {
    status == AwaitingApproval || status == Approved || status == ChangesRequested
  }

  /** Milestones whose deliverables are frozen. */
  predicate Closed(status: MilestoneStatus) {
    status == MilestoneStatus.Completed || status == MilestoneStatus.Cancelled
  }

  predicate IsHttpUrl(url: string) {
    "http://" <= url || "https://" <= url
  }

  /** COALESCE(milestone limit, project limit). */
  function EffectiveLimit(milestone: Option<nat>, project: Option<nat>): Option<nat> {
    if milestone.Some? then milestone else project
  }

  predicate RevisionLimitReached(count: nat, limit: Option<nat>) {
    limit.Some? && count >= limit.value
  }

  // ---------------------------------------------------------------------------------------------------
  // The rules in literals
  // ---------------------------------------------------------------------------------------------------

  /** The status table of projects, edge by edge. */
  lemma ProjectTransitionsExactly(current: ProjectStatus, next: ProjectStatus)
    ensures ProjectTransition(current, next) <==>
            || current == next
            || (current, next) in {
                 (ProjectStatus.Draft, ProjectStatus.Active),
                 (ProjectStatus.Draft, ProjectStatus.Archived),
                 (ProjectStatus.Draft, ProjectStatus.Cancelled),
                 (ProjectStatus.Active, ProjectStatus.Completed),
                 (ProjectStatus.Active, ProjectStatus.Archived),
                 (ProjectStatus.Active, ProjectStatus.Cancelled),
                 (ProjectStatus.Completed, ProjectStatus.Archived),
                 (ProjectStatus.Archived, ProjectStatus.Active)}
  {
  }

  /** The status table of the staff PATCH on milestones, edge by edge. */
  lemma MilestoneTransitionsExactly(current: MilestoneStatus, next: MilestoneStatus)
    ensures MilestoneTransition(current, next) <==>
            || current == next
            || (current, next) in {
                 (MilestoneStatus.Pending, MilestoneStatus.InProgress),
                 (MilestoneStatus.Pending, MilestoneStatus.Cancelled),
                 (MilestoneStatus.InProgress, MilestoneStatus.Pending),
                 (MilestoneStatus.InProgress, MilestoneStatus.Blocked),
                 (MilestoneStatus.InProgress, MilestoneStatus.Cancelled),
                 (MilestoneStatus.Blocked, MilestoneStatus.InProgress),
                 (MilestoneStatus.Blocked, MilestoneStatus.Cancelled),
                 (MilestoneStatus.AwaitingApproval, MilestoneStatus.Blocked),
                 (MilestoneStatus.AwaitingApproval, MilestoneStatus.Cancelled),
                 (MilestoneStatus.ChangesRequested, MilestoneStatus.InProgress),
                 (MilestoneStatus.ChangesRequested, MilestoneStatus.Blocked),
                 (MilestoneStatus.ChangesRequested, MilestoneStatus.Cancelled),
                 (MilestoneStatus.Approved, MilestoneStatus.Completed)}
  {
  }

  /** Every chain of allowed requests, as long as it may be. */
  ghost predicate Leads(path: seq<ProjectStatus>) {
    forall i, j :: 0 <= i < |path| - 1 && j == i + 1 ==> ProjectTransition(path[i], path[j])
  }

  /** Cancelled is never left, and a project that was completed or archived never becomes a draft again. */
  lemma {:induction false} NoWayBack(path: seq<ProjectStatus>)
    requires Leads(path) && |path| > 0
    ensures path[0] == ProjectStatus.Cancelled ==> path[|path| - 1] == ProjectStatus.Cancelled
    ensures path[|path| - 1] == ProjectStatus.Draft ==> path[0] == ProjectStatus.Draft
  {
    if |path| > 1 {
      var n := |path| - 1;
      assert ProjectTransition(path[n - 1], path[n]);
      NoWayBack(path[..n]);
    }
  }

  lemma HttpUrlsExactly(url: string)
    ensures IsHttpUrl(url) <==>
            (|url| >= 7 && url[..7] == "http://") || (|url| >= 8 && url[..8] == "https://")
  {
    assert |"http://"| == 7 && |"https://"| == 8;
  }
}
