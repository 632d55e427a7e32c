# egentop workflow engine: a verified model

egentop is a multi-tenant service in which agencies run projects for clients. An organization has staff and client
memberships; a project has at most one client, who signs off its milestones. State is kept as rows that short SQL
transactions change under READ COMMITTED. This project models those transactions and proves what they keep: one
transaction alone, every run, and every interleaving of their statements.

| file | what it models |
|---|---|
| `Common.dfy`, `ProjectRules.dfy`, `DueDate.dfy` | errors and results; status tables and guards; the due-date comparison of renderings |
| `Tenancy.dfy` | organizations, memberships and project rows under transactions that run one SQL statement at a time, with row locks |
| `TenancyInvariant.dfy`, `TenancyTheorems.dfy`, `TenancyRules.dfy`, `TenancyPrune.dfy`, `TenancyRemoval.dfy`, `TenancyLog.dfy` | the invariant of that machine and its theorems: no orphaned client, sign-offs, owners, personal workspaces, deadlocks, the guards on projects and staff, pruning, client removal, the audit log of memberships |
| `TenancyService.dfy` | the same operations as service methods, each shown to be the machine running alone |
| `Workflow.dfy` | the rows of one project, the SQL statements on them and the decisions of every project and assignment operation |
| `WorkflowEffects.dfy` | what each of those operations does, from its request: every error with its condition, else the exact rows and entry |
| `WorkflowHistory.dfy`, `WorkflowRuns.dfy` | each call is one audited transition; replay, conservation, sign-offs and freezing over every run |
| `Serial.dfy` | the same transactions interleaved statement by statement: serializable in lock order |
| `ProjectRepository.dfy`, `ProjectService.dfy` | the repository and service methods, which update rows in place, with commit, rollback, failing statements and responses read after the commit |
| `Sessions.dfy`, `SessionEffects.dfy`, `SessionsInterleaved.dfy`, `SessionsTokens.dfy` | refresh-token sessions and passwords, whole transactions with what each call does, and statement by statement with the reason of every change of a row (the rotation scheme of section 5.2.2.3 of RFC 6819) |
| `RateLimiter.dfy`, `Password.dfy`, `OrgCreation.dfy` | the in-memory rate limiter, the one-time password generator, the slug retry loop behind savepoints |

Time readings, random bytes, fresh identifiers and failures of single statements are parameters of the methods or
choices of a run. A method is proved against a specification function; the lemmas prove what that function means.
Actions that a run takes in a state in which they are not possible leave the state alone, so a theorem about runs is
about all schedules.

## Findings

Where the code does less than its documentation says, the model follows the code.

- Year 10000: an accepted timestamp with a negative offset can fall into the year 10000 in UTC. Its rendering has
  five digits, and it is rejected as past although it is in the future (`DueDate.RejectsExactly`).
- "Cancellation must exist from every non-terminal state" (internal/project/service.go:1632): an approved milestone
  is not terminal and cannot be cancelled (`WorkflowRuns.CancellableExactly`).
- The two unique indexes on assignments, read with an insert that always fills both columns, allow one assignment a
  project, not one a milestone (`WorkflowRuns.OneAssignment`).
- Two reassignments that exchange the clients of two projects can wait for each other
  (`TenancyTheorems.CrossingReassignmentsCanDeadlock`); no other of the modelled transactions can be part of a wait
  cycle (`TenancyTheorems.CyclesAreCrossingReassignments`).
- A displacement can take away a client's last live project and leave the membership without a prune entry: exactly if
  there was another live project when it checked and all of those were soft-deleted before it committed
  (`TenancyPrune.DisplacementExactly`, with a run of the empty system in `TenancyPrune.StrandingRun`).
- Updating a project, a milestone or a project limit reads its response after the commit, outside the transaction. After
  the commit the caller gets an error exactly if that read fails or the project was deleted in between: project or
  milestone not found, for instance, while the change and its audit entry are committed
  (`ProjectService.Service.UpdateMilestone`, `ProjectService.EditKeptDespiteError`).
- The audit entry of an edit names neither a new description nor a new position, so edits that set different ones leave
  the same log (`WorkflowRuns.EditsLeaveNoTrace`). The entry of a milestone limit names only the effective limits, so it
  does not tell an override from the project's limit of the same value (`WorkflowRuns.LimitsLeaveNoTrace`).
- Client removal checks the client role before it locks the membership and not again. It deletes a staff member's row, an
  owner's for instance, exactly if between check and lock the client's row went and a staff row came
  (`TenancyRemoval.RemovalExactly`, with a run of the empty system in `TenancyRemoval.OwnerRemovingRun`).
- Under interleaving a credential reset, a password change or a logout from all devices leaves a session live exactly if
  a login or a rotation of the user committed between its selection and its commit and that session is still live
  (`SessionsInterleaved.ClearsExactly`, with a schedule in `SessionsInterleaved.ResetCanMiss`).
- A password change whose transaction fails reports an error, but the new password is already in force
  (`Sessions.FailedChangeMayStick`).
- The replay reply does not depend on the commit of the revocation (`Sessions.ReplayReplyIsNotProof`), and under
  interleaving a replay misses a session exactly if a rotation of the family commits between its selection and its
  commit and a session created that way is still live (`SessionsInterleaved.ReplayEndsExactly`, with a schedule in
  `SessionsInterleaved.ReplayCanMiss`).
- A rate-limit window of more than ten minutes makes the cleanup pass forget requests within one window
  (`RateLimiter.CleanupIsInvisibleExactly`); the windows in use are one minute.

## Model

| member | source | states |
|---|---|---|
| `DueDate.RenderingOrderIsCalendarOrder` | internal/project/service.go:1515-1527 | for years 0 to 9999 string order of the YYYY-MM-DD renderings is calendar order, both ways (section 5.1 of RFC 3339) |
| `DueDate.RejectsExactly` | internal/project/service.go:1519-1527 | a due date is rejected exactly when it is before today, or it is in the year 10000 and today is after the year 1000 |
| `ProjectRules.ProjectTransitionsExactly` | internal/project/service.go:1590-1619 | the status table of projects as the set of its eight edges; staying is always allowed |
| `ProjectRules.NoWayBack` | internal/project/service.go:1590-1619 | along any chain of allowed requests cancelled is never left and draft is never reached again |
| `ProjectRules.MilestoneTransitionsExactly` | internal/project/service.go:1621-1674 | the status table of the staff PATCH as the set of its thirteen edges |
| `ProjectRules.HttpUrlsExactly` | internal/project/service.go:1585-1587 | a URL is accepted exactly if it begins with http:// or https:// |
| `TenancyInvariant.NextKeeps` | internal/project/service.go:574-733 | every action of the lock machine (statement, commit, abort, staff change, creation) keeps the invariant that ties held locks and program counters to the rows |
| `TenancyInvariant.CommitKeeps` | pkg/db/dbtx.go:8-23 | publishing one transaction's writes keeps the invariant for all the others in flight |
| `TenancyInvariant.StaffOwners` | internal/membership/service.go:23-51 | a staff change leaves every owner with a chain of owner grants from the creator |
| `TenancyTheorems.ClientsAreMembers` | internal/project/repository.go:882-910 | in every state of every interleaving of assignment, removal, provisioning, archiving and deletion, a live project's client is an active client member of its organization |
| `TenancyTheorems.SignOffsAreByTheClient` | internal/project/service.go:1548-1575 | every committed approval or change request was made by the user who at that commit was the project's client and an active client member, although the membership row is not locked |
| `TenancyTheorems.OwnersDescendFromCreator` | internal/organization/service.go:117-133 | an organization's creator is its active owner for ever, and every other owner descends from the creator through owner grants |
| `TenancyTheorems.GrantsAreByOwners` | internal/membership/service.go:20-51 | each owner grant in a run was added by a step in whose state its granter was an active owner |
| `TenancyTheorems.PersonalWorkspaceHasOneStaffMember` | internal/membership/service.go:53-72 | in every state a personal workspace has exactly one non-client membership, its creator's |
| `TenancyTheorems.CyclesAreCrossingReassignments` | internal/client/service.go:243-254 | in every state of every interleaving the wait cycles are exactly the cyclic sequences of reassignments that hold FOR SHARE on their new client and wait for the displaced one, which the next member has just assigned |
| `TenancyTheorems.CrossingReassignmentsCanDeadlock` | internal/project/service.go:680-699 | from any idle state two reassignments that exchange clients reach a state in which each waits for the other |
| `TenancyRules.FrozenKeepsItsClient` | internal/project/service.go:585-587 | in every interleaving, a step that changes a project's client finds the project live, not archived and not cancelled |
| `TenancyRules.CommitsOnlyOnOpenProjects` | internal/project/service.go:1491-1513 | in every interleaving, an assignment of a client, a milestone change or a staff assignment commits only while its project is live in its organization and neither archived nor cancelled |
| `TenancyRules.ProjectRowsExactly` | internal/project/service.go:1590-1619 | everything a step of a run can do to a project row: the client, by an assignment on an open project; the status, along one of the eight edges; the deletion mark; one column at a time, by a request for this project and this value |
| `TenancyRules.CancelledRowsStay` | internal/project/service.go:1609-1619 | in every interleaving a deleted project row never changes, and of a cancelled one only the deletion mark |
| `TenancyRules.LockRefusesExactly` | internal/project/service.go:1491-1513 | which requests the locked project row refuses, with which error, and that all others go on |
| `TenancyRules.ProjectsBeginAsDrafts` | internal/project/service.go:50-118 | a project row appears as a live draft without a client in an existing organization, and in no other way |
| `TenancyRules.AssigneesAreStaff` | internal/assignment/service.go:45-66 | in every interleaving a staff assignment commits only while the assignee is an active member who is not a client |
| `TenancyRules.AdditionExactly` | internal/membership/service.go:83-236 | an invitation or addition: the error of every case, else one membership with the role, invited or active, one grant for an owner, one entry |
| `TenancyRules.StaffRemovalExactly` | internal/membership/service.go:309-388 | a staff removal: the error of every case, owners and clients spared, else the row goes with its entry |
| `TenancyRules.RoleChangeExactly` | internal/membership/service.go:392-476 | a role change: the error of every case, never to client, never of an owner or a client; else the role and nothing else of the row |
| `TenancyRules.StaffNeverTouchesClients` | internal/membership/service.go:340-360 | no staff change touches the membership of a client or of an owner |
| `TenancyRules.OrganizationsBegin` | internal/organization/service.go:62-149 | an organization begins with its kind, its creator as active owner and its entry |
| `TenancyPrune.DisplacementExactly` | internal/project/repository.go:676-696 | in any run, for a displacement that checks at one step and commits at a later one: it prunes, with one entry, exactly if the client had no other live project at the check; it takes away the last live project without a prune exactly if there was another one and all of those were soft-deleted in between |
| `TenancyPrune.EveryDetachment` | internal/project/service.go:594-629 | in any run a step that takes away a client's last live project is the commit of a soft delete, which keeps the membership, or of a displacement with its check before it |
| `TenancyPrune.PrunesAndStrandings` | internal/project/service.go:604-628 | in any run the prune entries of a client plus the steps that left the membership behind are the steps that took away its last live project |
| `TenancyPrune.PrunedExactlyOnce` | internal/project/service.go:591-629 | in a run without a soft delete of the client's projects, every step that takes away its last live project deletes the membership and writes one prune entry, and nothing else does |
| `TenancyPrune.CommitPrunes` | internal/project/repository.go:674-696 | in every reachable state a commit prunes a client exactly when it takes away the client's last live project and the membership with it |
| `TenancyPrune.SoftDeleteCanStrand` | internal/project/service.go:1380-1391 | from any idle state in which a client has exactly two projects, a schedule that ends with an active client membership, no project and no prune entry |
| `TenancyPrune.StrandingRun` | internal/project/service.go:1380-1391 | such a schedule as a run of the empty system |
| `TenancyRemoval.RemovalExactly` | internal/client/service.go:259-284 | in any run, for a client removal that sees its client, locks and commits at given steps: it deletes the row as it was at the lock, and that is a staff row exactly if between seeing and locking the client's row went and a staff row came that was still there |
| `TenancyRemoval.RemovalSteps` | internal/client/service.go:259-269 | every removal past its lock has seen an active client and then locked the row |
| `TenancyRemoval.OwnerRemovingRun` | internal/client/service.go:259-284 | a run of the empty system in which a client removal deletes an active owner's membership |
| `TenancyLog.MembershipLogIsTheHistory` | internal/membership/service.go:140-160 | in every state of every interleaving the committed audit log replays without a break to the stored role and status of every membership, or to none |
| `TenancyService.FinishIsARun` | pkg/db/dbtx.go:8-23 | a transaction that runs alone is a run of the lock machine: only its own steps, and none of them waits |
| `TenancyService.Service.AssignClient` | internal/project/service.go:574-733 | every error with its condition, an archived or cancelled project among them, and no table changed by it; else the client is written, the displaced client's membership goes exactly if it exists and no other live project of the organization names that client, and the log has the removal, if any, before the assignment; all as the machine's transaction running alone |
| `TenancyService.Service.SetClient` | internal/project/service.go:635-716 | from the write on: the client, the prune exactly without another live project, and the entries, as the machine from the same point |
| `TenancyService.Service.PruneClientMembership` | internal/project/service.go:591-629 | the membership goes exactly if its row exists and no other live project of the organization has the client, as in the machine, with a removal entry before the assignment entry |
| `TenancyService.Service.IsClientOnAnyOtherProject` | internal/project/repository.go:681-696 | true exactly if another live project of the organization has this client |
| `TenancyService.Service.IsActiveClientMember` | internal/project/repository.go:891-910 | true exactly for an active membership with the client role |
| `TenancyService.Service.ClientHasProjects` | internal/client/repository.go:256-271 | true exactly if some live project of the organization has this client |
| `TenancyService.Service.Remove` | internal/client/service.go:255-298 | client not found unless the membership is an active client's, client attached while a live project of the organization names the user, else exactly the row goes, with its entry; as the machine's removal running alone |
| `TenancyService.Service.Provision` | internal/client/service.go:45-135 | a user found by e-mail, else by phone, is reused without a credential; otherwise one is created that must change its password; which error in every other case; without a commit user and membership are rolled back together; identifiers stay unique |
| `TenancyService.Service.ProvisionUser` | internal/client/service.go:58-83 | already a member, or an organization that does not exist; else an active client membership with its entry; as the machine's provisioning running alone |
| `TenancyService.Service.FindUserByIdentifier` | internal/client/repository.go:36-54 | the user with the e-mail, else the one with the phone, else none |
| `TenancyService.Service.RequireOwnerToGrantOwner` | internal/membership/service.go:23-51 | forbidden exactly when the owner role is granted by someone who is not an active owner |
| `TenancyService.Service.InviteOrgMember` | internal/membership/service.go:83-169 | memberships, grants and audit entry after an invitation of the user with that e-mail, user not found after the guards, or another error that changes nothing |
| `TenancyService.Service.AddOrgMember` | internal/membership/service.go:171-236 | memberships, grants and audit entry after an addition, user not found after the guards, or another error that changes nothing |
| `TenancyService.Service.RemoveOrgMember` | internal/membership/service.go:309-388 | owners and clients are never removed here; otherwise the row goes, with its entry |
| `TenancyService.Service.UpdateOrgMemberRole` | internal/membership/service.go:392-476 | the new role, its grant and its entry with both roles, or the error that changes nothing |
| `WorkflowEffects.UpdateRefusedExactly` | internal/project/service.go:169-236 | an update is refused exactly for a deleted project, a frozen one unless it is the restore of an archived one, a past due date, an unknown priority or status, or a move that the table does not have; which error, in this order |
| `WorkflowEffects.UpdateExactly` | internal/project/service.go:203-276 | name, description, priority, status and due date are the request's where it names them and stay where it does not; the entry has the new name, and priority and status before and after, exactly where it names them |
| `WorkflowEffects.RestoreExactly` | internal/project/service.go:293-323 | the PATCH to active alone on an archived project changes the status and writes the restore entry |
| `WorkflowEffects.DeleteExactly` | internal/project/service.go:1387-1427 | a live project, whatever its status, gets the mark and the entry with its status and name |
| `WorkflowEffects.AssignExactly` | internal/project/service.go:580-716 | every error of an assignment, the no-op of the same client, else the new client and the entry with both |
| `WorkflowEffects.LimitProjectExactly` | internal/project/service.go:1262-1297 | every error of a project limit, else the limit or none and the entry with both |
| `WorkflowEffects.NewProjectExactly` | internal/project/service.go:50-118 | a project begins with the request's fields, as a draft without client, limit, milestones or assignments |
| `WorkflowEffects.CreateMilestoneExactly` | internal/project/service.go:326-405 | every error of a new milestone, else the request's title, description and due date, pending, unpaid, at position 0, with its entry |
| `WorkflowEffects.UpdateMilestoneExactly` | internal/project/service.go:470-557 | every error of an edit, the no-op of an empty one, else title, description, due date and position where the request names them, and the entry |
| `WorkflowEffects.SubmitExactly` | internal/project/service.go:739-826 | every error of a submission, the no-op of a second one, else awaiting approval, the count and the revision row with the next number, and the entry |
| `WorkflowEffects.ApproveExactly` | internal/project/service.go:831-898 | an approval by the client of a live unfrozen project makes a milestone awaiting approval approved, with one sign-off entry; an approved one is left as it is; every other case is refused, with which error |
| `WorkflowEffects.RequestChangesExactly` | internal/project/service.go:903-958 | a change request by that client makes a milestone awaiting approval one with changes requested, with one entry that has the notes; every other case is refused, with which error |
| `WorkflowEffects.ChangeStatusExactly` | internal/project/service.go:966-1040 | every error of the staff PATCH, the no-op, else the requested status and, on completion, the first completion time, in the row and the entry |
| `WorkflowEffects.ChangePaymentExactly` | internal/project/service.go:1188-1249 | every error of a payment change, the no-op, else the requested value and the entry with both |
| `WorkflowEffects.LimitMilestoneExactly` | internal/project/service.go:1313-1376 | every error of a milestone limit, else the limit or none, and the entry with the limits in force before and after |
| `WorkflowEffects.AddDeliverableExactly` | internal/project/service.go:1048-1122 | every error of a new deliverable, the URL first; else one row with the request's fields, and its entry |
| `WorkflowEffects.RemoveDeliverableExactly` | internal/project/service.go:1126-1183 | every error of a removal, else one deliverable less and the entry with its URL |
| `WorkflowEffects.CreateAssignmentExactly` | internal/assignment/service.go:33-100 | every error of an assignment, else the only row, with milestone, assignee and assigner, and its entry |
| `WorkflowEffects.MoveAssignmentExactly` | internal/assignment/service.go:147-208 | every error of a move, else the new assignee and the entry with both |
| `WorkflowEffects.RemoveAssignmentExactly` | internal/assignment/service.go:211-255 | every error of a removal, else the row goes with its entry |
| `WorkflowEffects.EachStatusHasItsCall` | internal/project/service.go:1632-1636 | a milestone's status changes only to that of the call: submit, approve, request changes, or the PATCH to another status; it becomes approved only by an approval by the project's client |
| `WorkflowHistory.EachCallIsAudited` | internal/project/service.go:646-711 | every call, whatever its arguments, changes nothing or makes one permitted transition and adds exactly one audit entry, which names every changed field but these: the description of an edited project, the description and position of an edited milestone, the description and due date of a new milestone, the description of a new deliverable, and of a milestone's own limit all but the effective limits |
| `WorkflowHistory.UpdateAudited` | internal/project/service.go:161-290 | an update or restore changes what its entry says and, for an update, possibly the description; the status only by a permitted transition; what it takes from the request is in WorkflowEffects.UpdateExactly |
| `WorkflowHistory.ProjectOpAudited` | internal/project/service.go:1387-1427 | the same for soft delete, assignment of the client and the project limit |
| `WorkflowHistory.CreateMilestoneAudited` | internal/project/service.go:326-405 | a new milestone has the title of its entry and is pending, unpaid, with count 0, no revision, no deliverable |
| `WorkflowHistory.SubmitAudited` | internal/project/service.go:739-826 | a submission moves to awaiting approval, raises the count by one and appends the revision of that number |
| `WorkflowHistory.ApprovalAudited` | internal/project/service.go:831-898 | approval only from awaiting approval, only by the project's client, changing nothing but the status |
| `WorkflowHistory.ChangeRequestAudited` | internal/project/service.go:903-958 | a committed change request is one audited transition, only from awaiting approval and only by the project's client; which one is in WorkflowEffects.RequestChangesExactly |
| `WorkflowHistory.StatusAudited` | internal/project/service.go:966-1040 | the staff PATCH makes only table transitions, stamps the completion time exactly on completion and logs the stamped value |
| `WorkflowHistory.MilestoneLimitAudited` | internal/project/service.go:1313-1376 | a new milestone limit changes only the milestone's own limit, and its entry holds the effective limits before and after |
| `WorkflowHistory.EditAudited` | internal/project/service.go:464-567 | a milestone edit changes the title and due date as its entry says and possibly the description and the position, nothing else; a payment change only the payment, as its entry says |
| `WorkflowHistory.AddingAudited` | internal/project/service.go:1048-1122 | one deliverable with an http URL more, on a milestone that is not closed, as the entry says but for the description |
| `WorkflowHistory.RemovingAudited` | internal/project/service.go:1126-1183 | one deliverable less, on a milestone that is not closed, as the entry says |
| `WorkflowHistory.CreateAssignmentAudited` | internal/assignment/service.go:33-100 | the project's only assignment row, exactly as its entry says |
| `WorkflowHistory.AssignmentOpAudited` | internal/assignment/service.go:147-255 | one assignment row moved or less, as its entry says |
| `WorkflowRuns.LogIsTheHistory` | internal/project/service.go:792-803 | in every state of every run the log replays without a break to the project's name, status, client, limit, deletion and assignments and to every milestone's title, status, completion time, count, payment and deliverable URLs; submissions are conserved, revisions are numbered 1 to the count, at most one is approved |
| `WorkflowRuns.EditsLeaveNoTrace` | internal/project/service.go:516-540 | edits of a milestone that set different descriptions or positions leave different rows and the same log |
| `WorkflowRuns.LimitsLeaveNoTrace` | internal/project/service.go:1329-1350 | two new milestone limits leave the same log exactly if the effective limits are equal, and the same row exactly if they are equal themselves |
| `WorkflowHistory.DeletesExactly` | internal/project/service.go:1380-1391 | a live project is deleted by the operation Delete and by nothing else |
| `WorkflowRuns.SubmitsExactly` | internal/project/service.go:745-790 | in every state of every run a submission is recorded exactly when the project is live and unfrozen with a client and the milestone is in progress or has changes requested, with a deliverable: its revision number never collides |
| `WorkflowRuns.OneAssignment` | migrations/000002_create_projects.up.sql:204-211 | in every state of every run a project has at most one assignment |
| `WorkflowRuns.AssignsExactly` | internal/assignment/service.go:45-66 | an assignment is created exactly for an existing milestone of a live unfrozen project without one, and an active staff member |
| `WorkflowRuns.SignOffsAreKept` | internal/project/service.go:1618-1674 | over any segment of any run: signed off stays signed off; completed and cancelled keep status, completion time and deliverables; revisions are only appended |
| `WorkflowRuns.CompletionNeedsApproval` | internal/project/service.go:1663-1666 | completed is reached only from approved, and approved only from awaiting approval by the project's client, with its entry |
| `WorkflowRuns.CancellableExactly` | internal/project/service.go:1632-1669 | the PATCH to cancelled succeeds exactly from the statuses other than approved and completed |
| `WorkflowRuns.FrozenProjectsStandStill` | internal/project/service.go:1491-1513 | while a project stays archived or cancelled, its fields, client, milestones, deliverables, payments, limits and assignments are identical |
| `WorkflowRuns.CancelledIsForEver` | internal/project/service.go:1609-1619 | cancelled is never left, so a cancelled project stands still for the rest of the run |
| `WorkflowRuns.DeletedIsForEver` | internal/project/repository.go:628-652 | after its soft delete nothing of a project ever changes, not even its log |
| `Serial.InterleavingsAreSerial` | internal/project/repository.go:315-351 | however statements interleave, each project's committed rows are those of its committed transactions run whole, in the order in which they took the project row lock |
| `Serial.CommitApplies` | internal/project/service.go:470-485 | although a milestone is read outside the lock or through the pool, what is committed is the whole transaction applied to the rows as committed |
| `Serial.InterleavedLogIsTheHistory` | internal/project/service.go:866-877 | in every state of every interleaving the committed log replays to the committed rows, and submissions are conserved |
| `Serial.Continues` | internal/project/repository.go:315-351 | between two moments of any interleaving a project's committed rows go through a serial run of whole transactions, each of whose states was committed in between |
| `Serial.InterleavedSignOffsAreKept` | internal/project/service.go:1618-1674 | sign-offs, completion times, closed deliverables and revisions are kept between any two moments of any interleaving |
| `Serial.InterleavedFrozenStandStill` | internal/project/service.go:1491-1513 | while a project is archived or cancelled in every committed state of an interleaving, its content is identical |
| `Serial.InterleavedCancelledIsForEver` | internal/project/service.go:1609-1619 | from a committed cancellation on, a project stays cancelled with its content in every interleaving |
| `Serial.InterleavedDeletedIsForEver` | internal/project/repository.go:628-652 | from a committed soft delete on, nothing of a project changes in any interleaving |
| `ProjectRepository.Tx.UpdateDetails` | internal/project/repository.go:109-143 | absent fields stay, a present due date is set or cleared; project not found without the row |
| `ProjectRepository.Tx.SetProjectRevisionLimit` | internal/project/repository.go:553-574 | the limit, the error of the CHECK constraint or column width, or project not found |
| `ProjectRepository.Tx.SoftDelete` | internal/project/repository.go:633-652 | the deletion mark, once; project not found without a live row |
| `ProjectRepository.Tx.UpdateMilestoneDetails` | internal/project/repository.go:246-277 | absent fields stay; a position that the column refuses is an error; milestone not found without the row |
| `ProjectRepository.Tx.SetMilestoneStatus` | internal/project/repository.go:445-473 | guarded by the current status; the completion time is stamped on completion, once |
| `ProjectRepository.Tx.SubmitMilestone` | internal/project/repository.go:475-500 | guarded by the current status; status and counter move together |
| `ProjectRepository.Tx.CreateMilestoneRevision` | internal/project/repository.go:504-521 | one revision row more, unless the number is taken |
| `ProjectRepository.Tx.SetMilestonePaymentStatus` | internal/project/repository.go:523-547 | guarded by the current value |
| `ProjectRepository.Tx.SetMilestoneRevisionLimit` | internal/project/repository.go:576-601 | the override, the error of the CHECK constraint or column width, or milestone not found |
| `ProjectRepository.Tx.CreateDeliverable` | internal/project/repository.go:738-757 | one row more within the length limits, or an error, also without the milestone |
| `ProjectRepository.Tx.CreateAssignment` | internal/assignment/repository.go:27-46 | the project's only assignment, or the error of the unique index |
| `ProjectService.SettledExactly` | internal/project/repository.go:882-910 | the new client must be an active client member of the organization, an assignee an active member who is not a client |
| `ProjectService.ViewExactly` | internal/project/service.go:1577-1583 | a response has the milestone's own limit, else the project's, and its flag says exactly that the count has reached it |
| `ProjectService.Service.LockForMutation` | internal/project/service.go:1491-1513 | project not found, invalid transition on a frozen project, or the locked row |
| `ProjectService.Service.EnsureActorProjectAccess` | internal/project/service.go:1557-1575 | the client check comes before the freeze check, so strangers learn nothing |
| `ProjectService.Service.UpdateInTx` | internal/project/service.go:169-276 | the transaction of an update, statement by statement: the rows of all projects, or the error, are those that WorkflowEffects.UpdateExactly and UpdateRefusedExactly spell out |
| `ProjectService.Service.Update` | internal/project/service.go:161-287 | an update with its response read after the commit, while other transactions commit: an error without a commit leaves all rows as they were; after the commit the specified rows are there, and there is an error exactly if the read fails or one of the others deletes the project |
| `ProjectService.Service.RestoreProject` | internal/project/service.go:293-323 | archived becomes active with its own entry, and nothing else changes |
| `ProjectService.Service.Delete` | internal/project/service.go:1387-1427 | the same for the soft delete |
| `ProjectService.Service.AssignClient` | internal/project/service.go:580-716 | the project side of the assignment; the new client must be an active client in the membership table |
| `ProjectService.Service.SetProjectRevisionLimitInTx` | internal/project/service.go:1262-1297 | the same for the transaction of a project limit |
| `ProjectService.Service.SetProjectRevisionLimit` | internal/project/service.go:1258-1305 | a project limit with its response read after the commit: errors before and after the commit as for Update |
| `ProjectService.Service.CreateMilestone` | internal/project/service.go:326-405 | the same for a new milestone; freezing is checked before the due date |
| `ProjectService.Service.UpdateMilestoneInTx` | internal/project/service.go:470-557 | the transaction of a milestone edit; a request that names no field returns the milestone and changes nothing |
| `ProjectService.Service.UpdateMilestone` | internal/project/service.go:464-567 | a milestone edit with its response read after the commit: errors before and after the commit as for Update; a request that names no field reads nothing later |
| `ProjectService.FoundExactly` | internal/project/service.go:559-567 | after any transactions a project that was found, and a milestone of it, are found exactly if none of them deleted the project |
| `ProjectService.CommitShows` | internal/project/service.go:246-262 | every committed call of these three leaves exactly one audit entry more, so its commit can be told from the rows |
| `ProjectService.EditKeptDespiteError` | internal/project/service.go:559-567 | for every milestone of a live unfrozen project, an edit followed by another caller's soft delete: the caller is told milestone not found, the new title and its audit entry are there |
| `ProjectService.Service.SubmitMilestone` | internal/project/service.go:739-826 | the same for a submission; the response assembled in memory equals a fresh read, limit flag included |
| `ProjectService.Service.ApproveMilestone` | internal/project/service.go:831-898 | the same for the sign-off; a second approval is a no-op |
| `ProjectService.Service.RequestMilestoneChanges` | internal/project/service.go:903-958 | the same for a change request, as WorkflowEffects.RequestChangesExactly spells it out; a second one fails |
| `ProjectService.Service.UpdateMilestoneStatus` | internal/project/service.go:966-1040 | the same for the staff PATCH |
| `ProjectService.Service.UpdateMilestonePaymentStatus` | internal/project/service.go:1188-1249 | the same for the payment status |
| `ProjectService.Service.SetMilestoneRevisionLimit` | internal/project/service.go:1313-1376 | the same for the milestone limit; the entry has the effective limits |
| `ProjectService.Service.CreateDeliverable` | internal/project/service.go:1048-1122 | the same for a new deliverable; the URL is checked before anything else |
| `ProjectService.Service.DeleteDeliverable` | internal/project/service.go:1126-1183 | the same for the removal of a deliverable |
| `ProjectService.Service.CreateAssignment` | internal/assignment/service.go:33-100 | the same for a new assignment; the assignee must be active staff in the membership table |
| `ProjectService.Service.UpdateAssignment` | internal/assignment/service.go:147-208 | the same for moving an assignment to active staff; the response has the new assignee |
| `ProjectService.Service.DeleteAssignment` | internal/assignment/service.go:211-255 | the same for the removal of an assignment |
| `ProjectService.Service.Callback` | internal/project/service.go:470-473 | for the transaction of every operation and every set of failing statements: the specified rows, the specified error, or a database error when a statement failed |
| `ProjectService.Service.WithTransaction` | pkg/db/dbtx.go:8-23 | for every operation: success commits exactly the specified rows of that one project; an error of the transaction, whatever statement failed, leaves all rows as they were |
| `ProjectService.Service.Create` | internal/project/service.go:50-118 | a new draft project with medium priority by default, or an error, whatever statement or commit fails, that changes nothing |
| `Sessions.Service.CreateSession` | internal/auth/service.go:475-507 | one live session of a family not used before, or an error that changes nothing |
| `Sessions.Service.RefreshToken` | internal/auth/service.go:197-335 | reply and table of every case: unknown, replayed (the whole family is revoked, although the call fails), expired, rotated, failed statement, failed commit; a grant needs an unrevoked session that expires later than now and replaces it by one of its user and family |
| `Sessions.Service.Logout` | internal/auth/service.go:341-379 | revokes the presented session if it is unrevoked and expires later than now, else nothing |
| `Sessions.Service.LogoutAllDevices` | internal/auth/service.go:384-416 | revokes all live sessions of the owner if the presented session is unrevoked and expires later than now, else nothing |
| `Sessions.Service.ChangePassword` | internal/user/service.go:62-122 | reply and state in every case: unknown user, wrong or unchanged password, failed hash update, failed transaction (the password is replaced all the same), success (the user's other live sessions go, the forced change is lifted) |
| `Sessions.FailedChangeMayStick` | internal/user/service.go:84-87 | a failed change leaves sessions and gates alone, and replaces the password exactly if its checks and the hash update went through |
| `Sessions.Service.ResetCredential` | internal/client/service.go:171-241 | a user who is not an active client of the organization in the membership table is refused and nothing changes; otherwise the password is the drawn one and must be changed, and all sessions of the user are revoked |
| `Sessions.Service.RevokeAllSessions` | internal/client/repository.go:211-226 | revokes exactly the live sessions of the user |
| `Sessions.Service.CreateUser` | internal/client/repository.go:72-86 | a new user has the given password and, with a one-time credential, must change it |
| `Sessions.OneLiveSessionAFamily` | internal/auth/service.go:276-311 | in every state of every run a family has one user and at most one unrevoked session |
| `Sessions.RedeemedAtMostOnce` | internal/auth/service.go:276-285 | no refresh token is redeemed twice in a run |
| `Sessions.RevokedStaysRevoked` | internal/auth/service.go:276-285 | rows are never deleted or revived; user, family and expiry never change |
| `Sessions.ReplayEndsTheFamily` | internal/auth/service.go:245-269 | after a committed replay no token of the family, old or new, is ever redeemed again |
| `Sessions.SecondUseIsAReplay` | internal/auth/service.go:245-269 | presenting a redeemed token again is answered as a replay unless a statement fails, and revokes the family if it commits |
| `Sessions.ExtinctForEver` | internal/auth/service.go:302-311 | a family without an unrevoked session never has one again |
| `Sessions.ReplayReplyIsNotProof` | internal/auth/service.go:329-333 | after the reply "session revoked" the family is dead exactly if the commit went through or nothing was left to revoke |
| `Sessions.GatedExactly` | internal/user/service.go:89-98 | in every run a user must change the password exactly from a one-time credential, new or reset, on to the next password change |
| `Sessions.OldTokensAreUseless` | internal/client/service.go:163-171 | after a credential reset, a logout from all devices or a password change, no token the user held before is redeemed, except that of the session that changed the password |
| `SessionEffects.LoginExactly` | internal/auth/service.go:475-507 | a login adds one live session with the user, an unused family and the expiry, or is refused |
| `SessionEffects.RefreshExactly` | internal/auth/service.go:222-335 | each reply of a rotation with its condition, expiry at or before now refused; a replay revokes exactly its family, a grant exactly its token, and adds the drawn one |
| `SessionEffects.RedeemsExactly` | internal/auth/service.go:271-285 | a token is redeemed exactly by a rotation that goes through and commits, on an unrevoked session that expires later than now, with an unused new token |
| `SessionEffects.LogoutExactly` | internal/auth/service.go:341-379 | a committed logout revokes exactly the presented session, exactly if that is unrevoked and expires later than now |
| `SessionEffects.LogoutAllExactly` | internal/auth/service.go:384-416 | a committed logout from all devices revokes exactly the owner's sessions, under the same condition |
| `SessionEffects.ChangePasswordExactly` | internal/user/service.go:62-122 | each error of a password change with its condition, in the order of the checks; else the new password, the gate lifted, and the user's other sessions revoked |
| `SessionEffects.ResetCredentialExactly` | internal/client/service.go:171-241 | refused, or the drawn password, the gate set, and all of the user's sessions revoked |
| `SessionEffects.NewUserExactly` | internal/client/repository.go:72-86 | the given password, and the gate exactly for a one-time credential |
| `SessionEffects.PasswordIsTheLastOneSet` | internal/client/repository.go:191-197 | in every run a user's password is the secret of the last committed creation, committed reset or accepted change: the drawn one replaces the earlier one |
| `SessionsInterleaved.OneLiveAndRedeemedOnce` | internal/auth/service.go:222-285 | in every state of every interleaving a family has at most one unrevoked session and no token was redeemed twice |
| `SessionsInterleaved.SweepMissesExactly` | internal/auth/service.go:245-254 | under interleaving an update over many sessions leaves live, of those in its scope, exactly the sessions that a login or a rotation created by a commit between its selection and its commit and that are still live |
| `SessionsInterleaved.ClearsExactly` | internal/client/repository.go:211-226 | under interleaving a logout from all devices, a password change or a credential reset clears the user's other sessions exactly if no session of the user that was created in between is live |
| `SessionsInterleaved.ResetCanMiss` | internal/client/service.go:163-171 | a schedule in which a credential reset commits and a session that a rotation created meanwhile is live |
| `SessionsInterleaved.ReplayEndsExactly` | internal/auth/service.go:245-269 | under interleaving, from the selection to the commit of a replay: its family has not ended exactly if a rotation of the family committed in between and a session created that way is still live; without such a rotation it has ended |
| `SessionsInterleaved.EndedForEver` | internal/auth/service.go:302-311 | an ended family stays without a live session in every interleaving, whatever was in flight |
| `SessionsInterleaved.ReplayCanMiss` | internal/auth/service.go:245-254 | a schedule in which the replay commits and a session of the family that a rotation created meanwhile is live |
| `SessionsTokens.LockExactly` | internal/auth/service.go:222-285 | how a rotation or a logout goes on from its row: revoked, unrevoked and expiring later than now, or neither |
| `SessionsTokens.RevokedExactly` | internal/auth/service.go:245-285 | in every interleaving a stored session only ever becomes revoked, by a commit whose request may revoke it as the rows are at that moment: its own unexpired session, the family of a revoked token, or the sessions of a user |
| `SessionsTokens.CreatedExactly` | internal/auth/service.go:302-311 | in every interleaving a session appears by a login in an unused family, or by a rotation whose own session is unrevoked and unexpired up to this commit, which revokes and redeems it; user, family and expiry as they should be |
| `RateLimiter.Limiter.Limit` | internal/middleware/ratelimit.go:37-72 | the map after a request is that of the history, and it is served exactly if its counter is within the limit |
| `RateLimiter.Limiter.Cleanup` | internal/middleware/ratelimit.go:74-88 | entries are only dropped, never changed: every dropped one was idle for more than ten minutes, every kept one was not when the pass began |
| `RateLimiter.CountersAreBursts` | internal/middleware/ratelimit.go:53-61 | for windows up to ten minutes and any history, cleanup passes anywhere, a counter is the length of the longest burst at the end of its key's requests |
| `RateLimiter.CleanupIsInvisibleExactly` | internal/middleware/ratelimit.go:80-82 | the counters are bursts in every history exactly when the window is at most ten minutes |
| `RateLimiter.ServedExactly` | internal/middleware/ratelimit.go:65-68 | a request is served exactly when the burst that it ends is no longer than the limit |
| `RateLimiter.AtMostTheLimit` | internal/middleware/ratelimit.go:53-68 | any stretch of time no longer than the window serves at most maxRequests requests of a key |
| `Password.GenerateOneTimePassword` | internal/client/service.go:323-346 | the password has 16 symbols of the alphabet, those of the first 16 accepted bytes of the concatenated reads, from as few reads as possible; it fails exactly when the reads do not hold 16 |
| `Password.Fill` | internal/client/service.go:334-342 | one block adds its accepted bytes and stops at the 16th, within bounds |
| `Password.AlphabetExactly` | internal/client/service.go:314-315 | the 56 symbols in their order |
| `Password.BytesExactly` | internal/client/service.go:334-336 | a byte from 224 on is rejected, another one gives the symbol at its remainder by 56 |
| `Password.PasswordsAreAlphabetStrings` | internal/client/service.go:314-315 | the passwords that are counted are exactly the strings over the alphabet |
| `Password.PositionInverts` | internal/client/service.go:314-315 | each of the 56 positions of the alphabet is recovered from its symbol, so none occurs twice |
| `Password.PreimagesSpell` | internal/client/service.go:335-336 | the counted preimages of a password are exactly the accepted byte strings that spell it |
| `Password.EveryPasswordHasAsManyPreimages` | internal/client/service.go:319-326 | every password of n symbols has exactly 4 to the n preimages: no modulo bias |
| `Password.EveryPasswordIsAsLikely` | internal/client/service.go:319-326 | a bijection between the random streams that spell one password and those that spell another, rejected bytes included |
| `Password.SameRejections` | internal/client/service.go:335 | that bijection keeps which bytes are rejected, and the length |
| `OrgCreation.CreateTx` | internal/organization/service.go:62-149 | whichever statement fails: on success exactly one organization with its owner and its entry, whose slug is the plain one if free, else the base, "org" if the plain slug is empty, with the first drawn suffix that makes it free; with no failing statement and all suffixes drawn, the slug error exactly if the plain slug and all four suffixed ones are taken |
| `OrgCreation.SlugsExactly` | internal/slug/slug.go:18-30 | the search for a slug without its recursion: what it finds, when it gives up, when it cannot |
| `OrgCreation.FirstFreeExactly` | internal/organization/service.go:71-113 | the chosen slug is free and all earlier candidates collide; giving up means that all five collide |
| `OrgCreation.Tx.RollbackTo` | internal/organization/service.go:96-100 | the tables of the latest savepoint of that name come back and the transaction can go on |
| `OrgCreation.Tx.Release` | internal/organization/service.go:110-113 | the savepoint goes, the insert stays |
| `OrgCreation.Tx.InsertOrg` | internal/organization/service.go:91-96 | a unique violation only when the slug is taken, and it aborts the transaction; otherwise a row with a fresh identifier |
| `OrgCreation.Database.Create` | internal/organization/service.go:33-46 | all or nothing, whatever statement or commit fails; the slug is the first free one as for CreateTx, and the slug error comes exactly if all five collide; slugs stay unique and every organization keeps one creation entry that names an owner |

## Left out

- HTTP handlers, request validation, routing, response mapping, permissions, CORS, logging, configuration and health checks.
- Password hashing, token fingerprints, JWT signing and identifiers: equal values match, fresh ones are new; session rows from before the fingerprint column, which no token finds, are absent.
- Errors of the access-token signer during a rotation, which the code overwrites.
- Display names, pagination, list reads, the activity feed, the denied-access decision log, updated_at values and query timeouts (a timeout is an abort or a failing statement).
- The users table but for identifiers, passwords and the forced change: names, status and registration's checks; deleting users never happens.
- Tenancy: staff membership changes are single atomic steps; their row locks, and waits on them, are not modelled.
- Tenancy: waiting transactions have no queue; any of them may go next once its lock is free, so fairness is not modelled.
- Tenancy: an assignment's staff check and a milestone row lock are steps of the machine, but their rows are in Workflow.
- ProjectService.Service.AssignClient: the prune of the displaced client is in Tenancy and TenancyService; here the membership table is only read.
- Workflow: of the column constraints, the lengths, ranges and unique indexes that a request can violate are modelled; the years of due dates are those of accepted timestamps.
- Sessions.ReplayEndsTheFamily: takes calls as whole transactions; statement by statement SessionsInterleaved.ReplayEndsExactly says exactly when the family has ended.
- TenancyService.Service.Provision: the unique violations of two concurrent creations of one user, and the drawn password itself, are not modelled; failing statements between are aborts of the machine in Tenancy.
- RateLimiter: the derivation of the key from a request is left out; the key is a string.
- OrgCreation: the plain slug and the random suffixes are parameters; slug.Make is not part of this model.
- Serial.InterleavingsAreSerial: the eligibility of a new client or assignee is a fixed parameter of the operation, because memberships are in Tenancy.
- A before/after chain of the milestone limit: its entries hold the effective limit, which the project limit also moves.
