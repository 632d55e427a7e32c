/** The theorems about whole runs of the tenancy tables. */
module TenancyTheorems {
  import opened Common
  import opened ProjectRules
  import opened Tenancy
  import opened TenancyInvariant

  lemma {:induction false} RunKeeps(tr: seq<State>, acts: seq<Action>, n: nat)
    requires IsRun(EMPTY, tr, acts) && n < |tr|
    ensures Inv(tr[n])
  {
    hide Next;
    if n == 0 {
      EmptyOk();
    } else {
      RunKeeps(tr, acts, n - 1);
      NextKeeps(tr[n - 1], acts[n - 1]);
    }
  }

  /** The record of a transaction after any step: as it was, new, or after its own next statement. */
  lemma TxStep(s: State, a: Action, t: Tid)
    requires t in Next(s, a).txs
    ensures var y := Next(s, a).txs[t];
            || (t in s.txs && y == s.txs[t])
            || (t !in s.txs && y == NewTx(y.req))
            || (a == Step(t) && t in s.txs && !s.txs[t].pc.Ready? && !MustWait(s, t) && Effect(s, s.txs[t]) == Ok(y))
  {
    hide Effect, StaffChange, MustWait;
  }

  /** The membership table after any step: as it was, or after a commit, a staff change or a new organization. */
  lemma TableStep(s: State, a: Action)
    ensures var mem := Next(s, a).mem;
            || mem == s.mem
            || (a.Step? && a.t in s.txs && s.txs[a.t].pc.Ready? && mem == Commit(s, a.t).mem)
            || (StaffAction(a) && StaffChange(s, a).Ok? && !RowHeld(s, Key(a.org, a.user))
                && mem == StaffChange(s, a).value.mem)
            || (a.CreateOrg? && a.org !in s.orgs
                && mem == s.mem[Key(a.org, a.creator) := Membership(Owner, MemberStatus.Active)])
  {
    hide Effect, StaffChange, MustWait, RowHeld;
  }

  lemma EmptyOk()
    ensures Inv(EMPTY)
  {
  }

  // ---------------------------------------------------------------------------------------------------
  // No orphaned project reference
  // ---------------------------------------------------------------------------------------------------

  /** In every state of every interleaving, a live project's client is an active client member. */
  lemma ClientsAreMembers(tr: seq<State>, acts: seq<Action>, n: nat, pid: Pid, client: User)
    requires IsRun(EMPTY, tr, acts) && n < |tr|
    requires pid in tr[n].projects && !tr[n].projects[pid].deleted && tr[n].projects[pid].client == Some(client)
    ensures ActiveClient(tr[n], Key(tr[n].projects[pid].org, client))
  {
    hide Next;
    RunKeeps(tr, acts, n);
    assert Refers(tr[n], pid, Key(tr[n].projects[pid].org, client));
  }

  // ---------------------------------------------------------------------------------------------------
  // Sign-offs
  // ---------------------------------------------------------------------------------------------------

  /** In s, actor is the client of the live project pid and an active client member. */
  ghost predicate IsTheClient(s: State, org: Org, pid: Pid, actor: User) {
    Refers(s, pid, Key(org, actor)) && ActiveClient(s, Key(org, actor))
  }

  lemma StaffEntry(s: State, a: Action)
    ensures StaffAction(a) && StaffChange(s, a).Ok? ==> !StaffChange(s, a).value.entry.SignedOff?
  {
  }

  lemma SignOffStep(s: State, a: Action, i: nat)
    requires Inv(s)
    ensures s.log <= Next(s, a).log
    ensures |s.log| <= i < |Next(s, a).log| && Next(s, a).log[i].SignedOff? ==>
              var e := Next(s, a).log[i]; IsTheClient(s, e.org, e.pid, e.actor)
  {
    hide Effect, StaffChange;
    StaffEntry(s, a);
    if |s.log| <= i < |Next(s, a).log| && Next(s, a).log[i].SignedOff? {
      var x := s.txs[a.t];
      assert LocksOk(s, x) && PcOk(s, x);
      assert Next(s, a).log[i] == x.log[i - |s.log|];
      assert Refers(s, x.req.pid, Key(x.req.org, x.req.actor));
    }
  }

  /** Every sign-off in the log was committed while its author was the project's client and an active member. */
  lemma {:induction false} SignOffsAreByTheClient(tr: seq<State>, acts: seq<Action>, n: nat, i: nat) returns (j: nat)
    requires IsRun(EMPTY, tr, acts) && n < |tr|
    requires i < |tr[n].log| && tr[n].log[i].SignedOff?
    ensures j < n && |tr[j].log| <= i < |tr[j + 1].log| && tr[j + 1].log[i] == tr[n].log[i]
    ensures var e := tr[n].log[i]; IsTheClient(tr[j], e.org, e.pid, e.actor)
  {
    hide Next;
    assert n > 0;
    RunKeeps(tr, acts, n - 1);
    SignOffStep(tr[n - 1], acts[n - 1], i);
    if i < |tr[n - 1].log| {
      j := SignOffsAreByTheClient(tr, acts, n - 1, i);
    } else {
      j := n - 1;
    }
  }

  // ---------------------------------------------------------------------------------------------------
  // Owners and personal workspaces
  // ---------------------------------------------------------------------------------------------------

  lemma OrgsAreStable(s: State, a: Action, org: Org)
    requires org in s.orgs
    ensures org in Next(s, a).orgs && Next(s, a).orgs[org] == s.orgs[org]
  {
  }

  /**
   From the moment an organization exists its creator is an active owner, for ever, and every other owner
   descends from the creator through owner grants.
   */
  lemma {:induction false} OwnersDescendFromCreator(tr: seq<State>, acts: seq<Action>, m: nat, n: nat, org: Org)
    requires IsRun(EMPTY, tr, acts) && m <= n < |tr| && org in tr[m].orgs
    ensures var s, creator := tr[n], tr[m].orgs[org].creator;
            && org in s.orgs && s.orgs[org] == tr[m].orgs[org] && ActiveOwner(s, Key(org, creator))
            && forall u :: Key(org, u) in s.mem && s.mem[Key(org, u)].role == Owner ==> Traced(creator, org, s.grants, u)
    decreases n
  {
    hide Next;
    RunKeeps(tr, acts, n);
    if m < n {
      OwnersDescendFromCreator(tr, acts, m, n - 1, org);
      OrgsAreStable(tr[n - 1], acts[n - 1], org);
    }
  }

  lemma GrantStep(s: State, a: Action)
    ensures s.grants <= Next(s, a).grants && |Next(s, a).grants| <= |s.grants| + 1
    ensures |Next(s, a).grants| > |s.grants| ==>
              var g := Next(s, a).grants[|s.grants|]; ActiveOwner(s, Key(g.org, g.granter))
  {
  }

  /** Each owner grant was made by a user who was an active owner of the organization at that moment. */
  lemma {:induction false} GrantsAreByOwners(tr: seq<State>, acts: seq<Action>, n: nat, i: nat) returns (j: nat)
    requires IsRun(EMPTY, tr, acts) && n < |tr| && i < |tr[n].grants|
    ensures j < n && |tr[j].grants| == i < |tr[j + 1].grants| && tr[j + 1].grants[i] == tr[n].grants[i]
    ensures var g := tr[n].grants[i]; ActiveOwner(tr[j], Key(g.org, g.granter))
  {
    hide Next;
    assert n > 0;
    GrantStep(tr[n - 1], acts[n - 1]);
    if i < |tr[n - 1].grants| {
      j := GrantsAreByOwners(tr, acts, n - 1, i);
    } else {
      j := n - 1;
    }
  }

  /** A personal workspace has exactly one non-client member: the user who registered it. */
  lemma PersonalWorkspaceHasOneStaffMember(tr: seq<State>, acts: seq<Action>, n: nat, org: Org)
    requires IsRun(EMPTY, tr, acts) && n < |tr| && org in tr[n].orgs && tr[n].orgs[org].personal
    ensures (set k | k in tr[n].mem && k.org == org && tr[n].mem[k].role != Client)
            == {Key(org, tr[n].orgs[org].creator)}
  {
    hide Next;
    RunKeeps(tr, acts, n);
    assert ActiveOwner(tr[n], Key(org, tr[n].orgs[org].creator));
  }

  // ---------------------------------------------------------------------------------------------------
  // Deadlocks
  // ---------------------------------------------------------------------------------------------------

  ghost predicate WaitCycle(s: State, c: seq<Tid>) {
    && |c| > 0
    && (forall i, j :: 0 <= i < |c| && j == After(c, i) ==> WaitsFor(s, c[i], c[j]))
  }

  function After(c: seq<Tid>, i: int): int {
    if i + 1 == |c| then 0 else i + 1
  }

  function Previous(c: seq<Tid>, i: int): int {
    if i == 0 then |c| - 1 else i - 1
  }

  /** A reassignment that holds FOR SHARE on its new client and is about to lock the displaced one. */
  ghost predicate Crossing(x: Tx) {
    && x.req.Assign? && x.req.client.Some? && x.was.Some?
    && x.pc == LockOld(x.was.value)
    && x.share == Some(Key(x.req.org, x.req.client.value))
  }

  /** A transaction whose next statement may wait holds no membership or milestone row, unless it is crossing. */
  lemma WaiterHolds(s: State, x: Tx)
    requires LocksOk(s, x) && PcOk(s, x) && Wants(x) != Nothing
    ensures x.excl.None? && x.mile.None? && x.add.None? && x.drop.None?
    ensures x.share.Some? ==> Crossing(x)
    ensures Wants(x).WantProject? ==> x.proj.None? && x.share.None?
    ensures Crossing(x) ==> Wants(x) == WantExcl(Key(x.req.org, x.was.value))
  {
  }

  /** Three steps along a wait path: b waits for the share lock of a crossing reassignment c. */
  lemma MiddleIsCrossing(s: State, a: Tid, b: Tid, c: Tid, d: Tid)
    requires Inv(s) && WaitsFor(s, a, b) && WaitsFor(s, b, c) && WaitsFor(s, c, d)
    ensures Crossing(s.txs[c])
    ensures Crossing(s.txs[b]) ==> s.txs[c].share == Some(Key(s.txs[b].req.org, s.txs[b].was.value))
  {
    hide PcOk;
    var x, y := s.txs[b], s.txs[c];
    assert LocksOk(s, x) && PcOk(s, x);
    assert LocksOk(s, y) && PcOk(s, y);
    WaiterHolds(s, x);
    WaiterHolds(s, y);
  }

  /** x displaces the client that y assigns. */
  ghost predicate Exchanges(x: Tx, y: Tx) {
    Crossing(x) && Crossing(y) && Key(x.req.org, x.was.value) == Key(y.req.org, y.req.client.value)
  }

  /** A cyclic sequence of crossing reassignments, each displacing the client that the next one assigns. */
  ghost predicate CrossingCycle(s: State, c: seq<Tid>) {
    && |c| > 0
    && (forall t :: t in c ==> t in s.txs)
    && (forall i, j :: 0 <= i < |c| && j == After(c, i) ==>
            c[i] != c[j] && Exchanges(s.txs[c[i]], s.txs[c[j]]))
  }

  /** In every state of every interleaving the wait cycles are exactly the cycles of crossing reassignments. */
  lemma CyclesAreCrossingReassignments(tr: seq<State>, acts: seq<Action>, n: nat, c: seq<Tid>)
    requires IsRun(EMPTY, tr, acts) && n < |tr|
    ensures WaitCycle(tr[n], c) <==> CrossingCycle(tr[n], c)
  {
    hide Next, Exchanges;
    var s := tr[n];
    if WaitCycle(s, c) {
      forall i, j | 0 <= i < |c| && j == After(c, i)
        ensures c[i] in s.txs && c[j] in s.txs && c[i] != c[j] && Exchanges(s.txs[c[i]], s.txs[c[j]])
      {
        CycleMember(tr, acts, n, c, i);
        assert WaitsFor(s, c[i], c[j]);
      }
      forall t | t in c ensures t in s.txs {
        var i :| 0 <= i < |c| && c[i] == t;
        assert WaitsFor(s, c[i], c[After(c, i)]);
      }
    }
    if CrossingCycle(s, c) { CrossingWaits(s, c); }
  }

  lemma CrossingWaits(s: State, c: seq<Tid>)
    requires CrossingCycle(s, c)
    ensures WaitCycle(s, c)
  {
  }

  lemma CycleMember(tr: seq<State>, acts: seq<Action>, n: nat, c: seq<Tid>, i: nat)
    requires IsRun(EMPTY, tr, acts) && n < |tr| && WaitCycle(tr[n], c) && i < |c|
    ensures c[i] in tr[n].txs && c[After(c, i)] in tr[n].txs
    ensures Exchanges(tr[n].txs[c[i]], tr[n].txs[c[After(c, i)]])
  {
    hide Next;
    hide PcOk;
    RunKeeps(tr, acts, n);
    var s, h := tr[n], Previous(c, i);
    var g, j := Previous(c, h), After(c, i);
    assert After(c, g) == h && After(c, h) == i;
    MiddleIsCrossing(s, c[g], c[h], c[i], c[j]);
    MiddleIsCrossing(s, c[h], c[i], c[j], c[After(c, j)]);
  }

  /** The committed states that a sequence of actions leads to from s. */
  ghost function After4(s: State, a: Action, b: Action, c: Action, d: Action): State {
    Next(Next(Next(Next(s, a), b), c), d)
  }

  ghost predicate Assignable(s: State, org: Org, pid: Pid, client: User) {
    Live(s, org, pid) && s.projects[pid].client == Some(client) && !Frozen(s.projects[pid].status)
  }

  /** A reassignment that has run up to its lock on the displaced client. */
  ghost predicate AtLockOld(s: State, t: Tid, org: Org, pid: Pid, before: User, after: User) {
    && t in s.txs && s.txs[t].req.Assign? && s.txs[t].req.org == org && s.txs[t].req.client == Some(after)
    && s.txs[t].was == Some(before) && Crossing(s.txs[t])
  }

  /** An idle reassignment runs alone up to its lock on the displaced client. */
  lemma RunsToLockOld(s: State, t: Tid, org: Org, actor: User, pid: Pid, before: User, after: User) returns (s': State)
    requires t !in s.txs && t !in s.done && before != after
    requires Assignable(s, org, pid, before) && ActiveClient(s, Key(org, after))
    requires forall u :: u in s.txs ==> s.txs[u].proj != Some(pid) && s.txs[u].excl != Some(Key(org, after))
    ensures s' == After4(s, Start(t, Assign(org, actor, pid, Some(after))), Step(t), Step(t), Step(t))
    ensures AtLockOld(s', t, org, pid, before, after)
    ensures s'.txs == s.txs[t := s'.txs[t]] && s'.txs[t].proj == Some(pid) && s'.txs[t].excl == None
    ensures s'.mem == s.mem && s'.projects == s.projects && s'.done == s.done
  {
    var req := Assign(org, actor, pid, Some(after));
    var s1 := Next(s, Start(t, req));
    assert s1.txs[t] == NewTx(req);
    var s2 := Next(s1, Step(t));
    assert s2.txs[t] == NewTx(req).(proj := Some(pid), was := Some(before), pc := ShareNew(after));
    var s3 := Next(s2, Step(t));
    assert s3.txs[t].pc == WriteClient(Some(after));
    s' := Next(s3, Step(t));
  }

  /**
   Such cycles exist: from any idle state, two reassignments that exchange the clients of two projects can reach
   a state in which each waits for the other.
   */
  lemma CrossingReassignmentsCanDeadlock(
      s: State, t: Tid, u: Tid, org: Org, actor: User, p: Pid, q: Pid, a: User, b: User) returns (s': State)
    requires s.txs == map[] && t !in s.done && u !in s.done && t != u && p != q && a != b
    requires Assignable(s, org, p, a) && Assignable(s, org, q, b)
    requires ActiveClient(s, Key(org, a)) && ActiveClient(s, Key(org, b))
    ensures var s1 := After4(s, Start(t, Assign(org, actor, p, Some(b))), Step(t), Step(t), Step(t));
            s' == After4(s1, Start(u, Assign(org, actor, q, Some(a))), Step(u), Step(u), Step(u))
    ensures WaitCycle(s', [t, u])
  {
    hide Next;
    var s1 := RunsToLockOld(s, t, org, actor, p, a, b);
    s' := RunsToLockOld(s1, u, org, actor, q, b, a);
  }
}
