/**
 Client removal checks the client role before it locks the membership row and not again. What it deletes, over all
 interleavings.
 */
module TenancyRemoval {
  import opened Common
  import opened ProjectRules
  import opened Tenancy
  import opened TenancyInvariant
  import opened TenancyTheorems
  import opened TenancyPrune

  // ---------------------------------------------------------------------------------------------------
  // The steps of a removal
  // ---------------------------------------------------------------------------------------------------

  ghost predicate Removes(x: Tx, k: Key) {
    x.req.Remove? && Key(x.req.org, x.req.user) == k
  }

  /** At step b the removal t finds k to be an active client. */
  ghost predicate SeesAt(tr: seq<State>, acts: seq<Action>, b: nat, t: Tid, k: Key)
    requires b < |tr| && b < |acts|
  {
    acts[b] == Step(t) && t in tr[b].txs && tr[b].txs[t].pc.Begin? && Removes(tr[b].txs[t], k) && ActiveClient(tr[b], k)
  }

  /** At step l the removal t locks the row of k. */
  ghost predicate LocksAt(tr: seq<State>, acts: seq<Action>, l: nat, t: Tid, k: Key)
    requires l < |tr| && l < |acts|
  {
    && acts[l] == Step(t) && t in tr[l].txs && tr[l].txs[t].pc == LockMember(k.user) && Removes(tr[l].txs[t], k)
    && !MustWait(tr[l], t) && k in tr[l].mem
  }

  /** The removal has its lock on k. */
  ghost predicate PastLock(x: Tx, k: Key) {
    Removes(x, k) && (x.pc.CheckProjects? || x.pc.DropMember? || x.pc.Ready?)
  }

  /** The removal has seen k and waits for its lock. */
  ghost predicate PastSee(x: Tx, k: Key) {
    Removes(x, k) && x.pc == LockMember(k.user)
  }

  lemma StepBack(s: State, a: Action, t: Tid, k: Key)
    requires Inv(s) && t in Next(s, a).txs
    ensures PastLock(Next(s, a).txs[t], k) ==>
              && t in s.txs
              && (PastLock(s.txs[t], k) || (a == Step(t) && PastSee(s.txs[t], k) && !MustWait(s, t) && k in s.mem))
    ensures PastSee(Next(s, a).txs[t], k) ==>
              && t in s.txs
              && (PastSee(s.txs[t], k)
                  || (a == Step(t) && s.txs[t].pc.Begin? && Removes(s.txs[t], k) && ActiveClient(s, k)))
  {
    hide Next, NoOrphan, OwnersOk, Compatible, LocksOk, MustWait;
    TxStep(s, a, t);
    if t in s.txs { assert PcOk(s, s.txs[t]); }
  }

  /** A removal that has its lock has seen an active client and locked the row, in this order. */
  lemma {:induction false} RemovalSteps(tr: seq<State>, acts: seq<Action>, n: nat, t: Tid, k: Key) returns (b: nat, l: nat)
    requires IsRun(EMPTY, tr, acts) && n < |tr| && t in tr[n].txs && PastLock(tr[n].txs[t], k)
    ensures b < l < n && SeesAt(tr, acts, b, t, k) && LocksAt(tr, acts, l, t, k)
  {
    hide Next, PastLock, PastSee;
    assert n > 0;
    RunKeeps(tr, acts, n - 1);
    StepBack(tr[n - 1], acts[n - 1], t, k);
    if PastLock(tr[n - 1].txs[t], k) {
      b, l := RemovalSteps(tr, acts, n - 1, t, k);
    } else {
      l := n - 1;
      b := SeenBefore(tr, acts, l, t, k);
      Unlocked(tr[l].txs[t], k);
    }
  }

  lemma Unlocked(x: Tx, k: Key)
    requires PastSee(x, k)
    ensures x.pc == LockMember(k.user) && Removes(x, k)
  {
  }

  lemma {:induction false} SeenBefore(tr: seq<State>, acts: seq<Action>, n: nat, t: Tid, k: Key) returns (b: nat)
    requires IsRun(EMPTY, tr, acts) && n < |tr| && t in tr[n].txs && PastSee(tr[n].txs[t], k)
    ensures b < n && SeesAt(tr, acts, b, t, k)
  {
    hide Next, PastSee, PastLock;
    assert n > 0;
    RunKeeps(tr, acts, n - 1);
    StepBack(tr[n - 1], acts[n - 1], t, k);
    if PastSee(tr[n - 1].txs[t], k) { b := SeenBefore(tr, acts, n - 1, t, k); } else { b := n - 1; }
  }

  // ---------------------------------------------------------------------------------------------------
  // From the lock to the commit the row stands still
  // ---------------------------------------------------------------------------------------------------

  /** While t holds k FOR UPDATE, the row of k does not change but by t's own commit. */
  lemma HeldRowStays(s: State, a: Action, t: Tid, k: Key)
    requires Inv(s) && t in s.txs && s.txs[t].excl == Some(k) && t in Next(s, a).txs
    ensures k in s.mem && k in Next(s, a).mem && Next(s, a).mem[k] == s.mem[k]
  {
    hide Next, StaffChange, PcOk, NoOrphan;
    assert LocksOk(s, s.txs[t]);
    TableStep(s, a);
    if a.Step? && a.t in s.txs && s.txs[a.t].pc.Ready? {
      if a.t == t {
        OwnCommitLeaves(s, t);
      } else {
        assert LocksOk(s, s.txs[a.t]) && Compatible(s.txs[t], s.txs[a.t]) && Compatible(s.txs[a.t], s.txs[t]);
      }
    }
    if StaffAction(a) && StaffChange(s, a).Ok? { StaffRow(s, a); }
  }

  lemma OwnCommitLeaves(s: State, t: Tid)
    requires t in s.txs && s.txs[t].pc.Ready?
    ensures t !in Next(s, Step(t)).txs
  {
    ReadyNeverWaits(s, t);
  }

  lemma LockTaken(s: State, t: Tid, k: Key)
    requires Inv(s) && t in s.txs && PastSee(s.txs[t], k) && !MustWait(s, t) && k in s.mem
    ensures var s' := Next(s, Step(t)); t in s'.txs && s'.txs[t].excl == Some(k) && Removes(s'.txs[t], k) && s'.mem == s.mem
  {
  }

  lemma LockHeld(s: State, a: Action, t: Tid, k: Key)
    requires Inv(s) && t in s.txs && s.txs[t].excl == Some(k) && Removes(s.txs[t], k) && t in Next(s, a).txs
    ensures Next(s, a).txs[t].excl == Some(k) && Removes(Next(s, a).txs[t], k)
  {
    hide Next, NoOrphan, OwnersOk, Compatible, LocksOk, MustWait;
    TxStep(s, a, t);
    assert PcOk(s, s.txs[t]);
  }

  lemma {:induction false} RowUnchanged(tr: seq<State>, acts: seq<Action>, l: nat, n: nat, t: Tid, k: Key)
    requires IsRun(EMPTY, tr, acts) && l < n < |tr| && LocksAt(tr, acts, l, t, k) && t in tr[n].txs
    ensures tr[n].txs[t].excl == Some(k) && Removes(tr[n].txs[t], k) && k in tr[n].mem && tr[n].mem[k] == tr[l].mem[k]
    decreases n
  {
    hide Next, Inv, Removes;
    var i := n - 1;
    StaysInFlight(tr, acts, l, i, n, t);
    RunKeeps(tr, acts, i);
    if i == l {
      LockSeen(tr[l].txs[t], k);
      LockTaken(tr[l], t, k);
    } else {
      RowUnchanged(tr, acts, l, i, t, k);
      LockHeld(tr[i], acts[i], t, k);
      HeldRowStays(tr[i], acts[i], t, k);
    }
  }

  lemma LockSeen(x: Tx, k: Key)
    requires x.pc == LockMember(k.user) && Removes(x, k)
    ensures PastSee(x, k)
  {
  }

  // ---------------------------------------------------------------------------------------------------
  // From the check to the lock the row may become another one
  // ---------------------------------------------------------------------------------------------------

  /** The row of k goes with step h. */
  ghost predicate GoesAt(tr: seq<State>, h: nat, k: Key)
    requires h + 1 < |tr|
  {
    k in tr[h].mem && k !in tr[h + 1].mem
  }

  /** A row of k with a staff role comes with step i. */
  ghost predicate StaffComesAt(tr: seq<State>, i: nat, k: Key)
    requires i + 1 < |tr|
  {
    k !in tr[i].mem && k in tr[i + 1].mem && tr[i + 1].mem[k].role != Client
  }

  /** The row of k that came with step i is still there at j. */
  ghost predicate StaysFrom(tr: seq<State>, i: nat, j: nat, k: Key)
    requires j < |tr|
  {
    forall x :: i < x <= j ==> k in tr[x].mem
  }

  /** Between b and j the row of k went, and then a staff row came that stays. */
  ghost predicate Replaced(tr: seq<State>, b: nat, j: nat, k: Key)
    requires j < |tr|
  {
    exists h, i :: b <= h < i < j && GoesAt(tr, h, k) && StaffComesAt(tr, i, k) && StaysFrom(tr, i, j, k)
  }

  /** While a row stays, it stays a client's or stays a staff member's. */
  lemma RoleKindStays(s: State, a: Action, k: Key)
    requires Inv(s) && k in s.mem && k in Next(s, a).mem
    ensures s.mem[k].role == Client <==> Next(s, a).mem[k].role == Client
  {
    hide Next, PcOk, NoOrphan, Compatible, RowHeld;
    TableStep(s, a);
    if a.Step? && a.t in s.txs { assert LocksOk(s, s.txs[a.t]); }
  }

  lemma {:induction false} KindOf(tr: seq<State>, acts: seq<Action>, i: nat, j: nat, k: Key)
    requires IsRun(EMPTY, tr, acts) && i <= j < |tr| && (forall x :: i <= x <= j ==> k in tr[x].mem)
    ensures tr[i].mem[k].role == Client <==> tr[j].mem[k].role == Client
    decreases j
  {
    hide Next;
    if i < j {
      KindOf(tr, acts, i, j - 1, k);
      RunKeeps(tr, acts, j - 1);
      assert tr[j] == Next(tr[j - 1], acts[j - 1]) && k in tr[j].mem;
      RoleKindStays(tr[j - 1], acts[j - 1], k);
    }
  }

  /** From a client's row at b: a staff row at j has replaced it, and an absent one has gone. */
  lemma {:induction false} SinceTheCheck(tr: seq<State>, acts: seq<Action>, b: nat, j: nat, k: Key)
    requires IsRun(EMPTY, tr, acts) && b <= j < |tr| && ActiveClient(tr[b], k)
    ensures k in tr[j].mem && tr[j].mem[k].role != Client ==> Replaced(tr, b, j, k)
    ensures k !in tr[j].mem ==> exists h :: b <= h < j && GoesAt(tr, h, k)
    decreases j
  {
    hide Next;
    if b < j {
      var i := j - 1;
      SinceTheCheck(tr, acts, b, i, k);
      RunKeeps(tr, acts, i);
      assert tr[j] == Next(tr[i], acts[i]);
      if k in tr[j].mem && tr[j].mem[k].role != Client {
        if k in tr[i].mem {
          RoleKindStays(tr[i], acts[i], k);
          var h, c :| b <= h < c < i && GoesAt(tr, h, k) && StaffComesAt(tr, c, k) && StaysFrom(tr, c, i, k);
          assert StaysFrom(tr, c, j, k);
        } else {
          var h :| b <= h < i && GoesAt(tr, h, k);
          assert StaffComesAt(tr, i, k) && StaysFrom(tr, i, j, k);
        }
      } else if k !in tr[j].mem && k in tr[i].mem {
        assert GoesAt(tr, i, k);
      }
    }
  }

  /**
   A client removal that sees its client at step b, locks the row at l and commits at n, in any run. It deletes the row
   as it was at the lock, and that is a staff member's row exactly if between b and l the client's row went and a staff
   row came that was still there.
   */
  lemma RemovalExactly(tr: seq<State>, acts: seq<Action>, b: nat, l: nat, n: nat, t: Tid, k: Key)
    requires IsRun(EMPTY, tr, acts) && b < l < n < |acts| && SeesAt(tr, acts, b, t, k) && LocksAt(tr, acts, l, t, k)
    requires acts[n] == Step(t) && t in tr[n].txs && tr[n].txs[t].pc.Ready?
    ensures k in tr[n].mem && tr[n].mem[k] == tr[l].mem[k] && k !in tr[n + 1].mem
    ensures tr[n].mem[k].role != Client <==> Replaced(tr, b, l, k)
  {
    hide Next, Replaced;
    RowUnchanged(tr, acts, l, n, t, k);
    RunKeeps(tr, acts, n);
    DropsItsRow(tr, acts, n, t, k);
    SinceTheCheck(tr, acts, b, l, k);
    if Replaced(tr, b, l, k) { ReplacedIsStaff(tr, acts, b, l, k); }
  }

  lemma ReplacedIsStaff(tr: seq<State>, acts: seq<Action>, b: nat, l: nat, k: Key)
    requires IsRun(EMPTY, tr, acts) && b <= l < |tr| && Replaced(tr, b, l, k)
    ensures k in tr[l].mem && tr[l].mem[k].role != Client
  {
    hide Next;
    var h, i :| b <= h < i < l && GoesAt(tr, h, k) && StaffComesAt(tr, i, k) && StaysFrom(tr, i, l, k);
    KindOf(tr, acts, i + 1, l, k);
  }

  /** A removal that is ready to commit drops the row that it holds. */
  ghost predicate Dropping(x: Tx, k: Key) {
    Removes(x, k) && x.pc.Ready? ==> x.drop == Some(k)
  }

  lemma DroppingStep(s: State, a: Action, t: Tid, k: Key)
    requires Inv(s) && t in Next(s, a).txs && (t in s.txs ==> Dropping(s.txs[t], k))
    ensures Dropping(Next(s, a).txs[t], k)
  {
    hide Next, NoOrphan, OwnersOk, Compatible, LocksOk, MustWait;
    TxStep(s, a, t);
    if t in s.txs { assert PcOk(s, s.txs[t]); }
  }

  lemma {:induction false} RunDropping(tr: seq<State>, acts: seq<Action>, n: nat, t: Tid, k: Key)
    requires IsRun(EMPTY, tr, acts) && n < |tr| && t in tr[n].txs
    ensures Dropping(tr[n].txs[t], k)
  {
    hide Next, Dropping;
    if n > 0 {
      RunKeeps(tr, acts, n - 1);
      if t in tr[n - 1].txs { RunDropping(tr, acts, n - 1, t, k); }
      DroppingStep(tr[n - 1], acts[n - 1], t, k);
    }
  }

  lemma DropsItsRow(tr: seq<State>, acts: seq<Action>, n: nat, t: Tid, k: Key)
    requires IsRun(EMPTY, tr, acts) && n < |acts| && acts[n] == Step(t) && t in tr[n].txs
    requires tr[n].txs[t].pc.Ready? && Removes(tr[n].txs[t], k)
    ensures k !in tr[n + 1].mem
  {
    hide Next;
    RunDropping(tr, acts, n, t, k);
    RunKeeps(tr, acts, n);
    assert LocksOk(tr[n], tr[n].txs[t]);
    CommitRuns(tr[n], t);
  }

  // ---------------------------------------------------------------------------------------------------
  // A run of the empty system that removes an owner
  // ---------------------------------------------------------------------------------------------------

  /** A removal of a client whose row nobody holds runs alone to its check of projects. */
  lemma RemoveLocks(s: State, t: Tid, org: Org, actor: User, user: User)
    requires t !in s.txs && t !in s.done && ActiveClient(s, Key(org, user))
    requires forall u :: u in s.txs ==> s.txs[u].share.None? && s.txs[u].excl.None?
    ensures var req := Remove(org, actor, user);
            OnlyTx(s, Alone(s, t, req, 2), t, NewTx(req).(excl := Some(Key(org, user)), pc := CheckProjects(user)))
  {
    hide Next;
    var req, k := Remove(org, actor, user), Key(org, user);
    var x0 := NewTx(req);
    var x1 := x0.(pc := LockMember(user));
    StartRuns(s, t, req);
    StepRuns(s, Alone(s, t, req, 0), t, x0, x1);
    StepRuns(s, Alone(s, t, req, 1), t, x1, x1.(excl := Some(k), pc := CheckProjects(user)));
  }

  /** Without projects it runs on until it is ready to commit. */
  lemma RemoveDecides(s: State, t: Tid, org: Org, actor: User, user: User)
    requires t !in s.txs && t !in s.done && ActiveClient(s, Key(org, user)) && !Attached(s, Key(org, user))
    requires forall u :: u in s.txs ==> s.txs[u].share.None? && s.txs[u].excl.None?
    ensures var req, k := Remove(org, actor, user), Key(org, user);
            OnlyTx(s, Alone(s, t, req, 4), t, NewTx(req).(excl := Some(k), drop := Some(k), pc := Ready,
                                                          log := [] + [Removed(k, actor, false)]))
  {
    hide Next;
    var req, k := Remove(org, actor, user), Key(org, user);
    var x2 := NewTx(req).(excl := Some(k), pc := CheckProjects(user));
    var x3 := x2.(pc := DropMember(user));
    RemoveLocks(s, t, org, actor, user);
    var s2 := Alone(s, t, req, 2);
    assert forall q :: Refers(s2, q, k) ==> Refers(s, q, k);
    StepRuns(s, s2, t, x2, x3);
    StepRuns(s, Alone(s, t, req, 3), t, x3, x3.(drop := Some(k), pc := Ready, log := [] + [Removed(k, actor, false)]));
  }

  lemma RemoveRuns(s: State, t: Tid, org: Org, actor: User, user: User)
    requires t !in s.txs && t !in s.done && ActiveClient(s, Key(org, user)) && !Attached(s, Key(org, user))
    requires forall u :: u in s.txs ==> s.txs[u].share.None? && s.txs[u].excl.None?
    ensures Alone(s, t, Remove(org, actor, user), 5) ==
            s.(mem := s.mem - {Key(org, user)}, log := s.log + [Removed(Key(org, user), actor, false)],
               done := s.done[t := Committed])
  {
    hide Next;
    var req, k := Remove(org, actor, user), Key(org, user);
    RemoveDecides(s, t, org, actor, user);
    var s4 := Alone(s, t, req, 4);
    CommitRuns(s4, t);
    assert s4.txs - {t} == s.txs && [] + [Removed(k, actor, false)] == [Removed(k, actor, false)];
  }

  /** Removal 5 has seen client 2; removal 6 has removed it, and it has come back as an owner. */
  lemma ClientComesBackAsOwner() returns (tr: seq<State>, acts: seq<Action>)
    ensures IsRun(EMPTY, tr, acts)
    ensures var s := tr[|acts|];
            && s.txs == map[5 := NewTx(Remove(0, 1, 2)).(pc := LockMember(2))] && s.projects == map[]
            && s.mem == map[Key(0, 1) := Membership(Owner, MemberStatus.Active),
                            Key(0, 2) := Membership(Owner, MemberStatus.Active)]
  {
    hide Alone;
    tr, acts := OneClient();
    var s := tr[|acts|];
    StartRuns(s, 5, Remove(0, 1, 2));
    tr, acts := Extend(tr, acts, Start(5, Remove(0, 1, 2)));
    StepRuns(s, tr[|acts|], 5, NewTx(Remove(0, 1, 2)), NewTx(Remove(0, 1, 2)).(pc := LockMember(2)));
    tr, acts := Extend(tr, acts, Step(5));
    RemoveRuns(tr[|acts|], 6, 0, 1, 2);
    tr, acts := ExtendAlone(tr, acts, 6, Remove(0, 1, 2), 5);
    tr, acts := Extend(tr, acts, AddMember(0, 1, 2, Owner, false));
  }

  /** A client removal whose commit at n deletes the membership of an active owner. */
  lemma OwnerRemovingRun() returns (tr: seq<State>, acts: seq<Action>, n: nat)
    ensures IsRun(EMPTY, tr, acts) && n < |acts| && acts[n] == Step(5)
    ensures 5 in tr[n].txs && tr[n].txs[5].pc.Ready? && Removes(tr[n].txs[5], Key(0, 2))
    ensures ActiveOwner(tr[n], Key(0, 2)) && Key(0, 2) !in tr[n + 1].mem
  {
    tr, acts := ClientComesBackAsOwner();
    var s := tr[|acts|];
    var x1 := NewTx(Remove(0, 1, 2)).(pc := LockMember(2));
    var x2 := x1.(excl := Some(Key(0, 2)), pc := CheckProjects(2));
    var x3 := x2.(pc := DropMember(2));
    var x4 := x3.(drop := Some(Key(0, 2)), pc := Ready, log := [] + [Removed(Key(0, 2), 1, false)]);
    StepRuns(s, s, 5, x1, x2);
    tr, acts := Extend(tr, acts, Step(5));
    assert forall q :: !Refers(tr[|acts|], q, Key(0, 2));
    StepRuns(s, tr[|acts|], 5, x2, x3);
    tr, acts := Extend(tr, acts, Step(5));
    StepRuns(s, tr[|acts|], 5, x3, x4);
    tr, acts := Extend(tr, acts, Step(5));
    n := |acts|;
    CommitRuns(tr[n], 5);
    tr, acts := Extend(tr, acts, Step(5));
  }
}
