/** The prune of a displaced client's membership happens exactly once, however displacements interleave. */
module TenancyPrune {
  import opened Common
  import opened ProjectRules
  import opened Tenancy
  import opened TenancyInvariant
  import opened TenancyTheorems

  /** Audit entries of a prune of k. */
  ghost function Prunes(log: seq<Event>, k: Key): nat {
    if log == [] then 0
    else Prunes(log[..|log| - 1], k)
         + (if log[|log| - 1].Removed? && log[|log| - 1].key == k && log[|log| - 1].pruned then 1 else 0)
  }

  /** The step from s to s' takes away the last live project of k. */
  ghost predicate Detaches(s: State, s': State, k: Key) {
    Attached(s, k) && !Attached(s', k)
  }

  /** How many of the first n steps took away k's last live project. */
  ghost function Detachments(tr: seq<State>, n: nat, k: Key): nat
    requires n < |tr|
  {
    if n == 0 then 0 else Detachments(tr, n - 1, k) + (if Detaches(tr[n - 1], tr[n], k) then 1 else 0)
  }

  /** The action commits the soft delete of project q. */
  ghost predicate SoftDeletesProject(s: State, a: Action, q: Pid) {
    && a.Step? && a.t in s.txs && s.txs[a.t].pc.Ready?
    && s.txs[a.t].row.Some? && s.txs[a.t].row.value.deleted && s.txs[a.t].proj == Some(q)
  }

  /** The action commits the soft delete of a live project whose client is k. */
  ghost predicate SoftDeletes(s: State, a: Action, k: Key) {
    exists q :: SoftDeletesProject(s, a, q) && Refers(s, q, k)
  }

  lemma PrunesOf(log: seq<Event>, more: seq<Event>, k: Key)
    requires |more| <= 2
    ensures Prunes(log + more, k) == Prunes(log, k) + Prunes(more, k)
  {
    if |more| == 1 {
      assert (log + more)[..|log|] == log;
    } else if |more| == 2 {
      assert (log + more)[..|log| + 1] == log + [more[0]];
      assert (log + [more[0]])[..|log|] == log;
      assert more[..1] == [more[0]];
    } else {
      assert log + more == log;
    }
  }

  lemma FullLogPrunes(x: Tx, k: Key)
    ensures |FullLog(x)| <= 2
    ensures Prunes(FullLog(x), k) == if x.req.Assign? && x.drop == Some(k) then 1 else 0
  {
    var log := FullLog(x);
    if |log| == 2 { assert log[..1] == [log[0]]; }
    assert log != [] ==> Prunes([log[0]], k) == (if log[0].Removed? && log[0].key == k && log[0].pruned then 1 else 0);
  }

  // ---------------------------------------------------------------------------------------------------
  // One step
  // ---------------------------------------------------------------------------------------------------

  /** A commit prunes k exactly when it takes away k's last live project and deletes the membership. */
  lemma CommitPrunes(s: State, t: Tid, k: Key)
    requires Inv(s) && t in s.txs && s.txs[t].pc.Ready?
    ensures s.txs[t].req.Assign? && s.txs[t].drop == Some(k) <==>
            Detaches(s, Commit(s, t), k) && k !in Commit(s, t).mem
  {
    var x, s' := s.txs[t], Commit(s, t);
    assert LocksOk(s, x);
    if x.req.Assign? && x.drop == Some(k) {
      assert Refers(s, x.proj.value, k);
      forall q: Pid ensures !Refers(s', q, k) { if Refers(s, q, k) {} }
    }
    if Detaches(s, s', k) && k !in s'.mem {
      var q: Pid :| Refers(s, q, k);
      assert ActiveClient(s, k);
    }
  }

  /** A step that changes no project detaches nobody. */
  lemma QuietStep(s: State, s': State, k: Key)
    requires forall q :: Refers(s, q, k) <==> Refers(s', q, k)
    ensures !Detaches(s, s', k)
  {
  }

  lemma CommitStep(s: State, t: Tid, k: Key)
    requires Inv(s) && t in s.txs && s.txs[t].pc.Ready?
    ensures var s' := Commit(s, t);
            Prunes(s'.log, k) == Prunes(s.log, k) + (if Detaches(s, s', k) && k !in s'.mem then 1 else 0)
  {
    var x := s.txs[t];
    assert LocksOk(s, x) && PcOk(s, x);
    CommitPrunes(s, t, k);
    FullLogPrunes(x, k);
    PrunesOf(s.log, x.log, k);
  }

  /** Every action: one prune entry for each step that takes away the last live project and the membership. */
  lemma PruneStep(s: State, a: Action, k: Key)
    requires Inv(s)
    ensures var s' := Next(s, a);
            Prunes(s'.log, k) == Prunes(s.log, k) + (if Detaches(s, s', k) && k !in s'.mem then 1 else 0)
  {
    if a.Step? && a.t in s.txs && !MustWait(s, a.t) && s.txs[a.t].pc.Ready? {
      CommitStep(s, a.t, k);
    } else {
      QuietStep(s, Next(s, a), k);
      OtherLog(s, a, k);
    }
  }

  lemma OtherLog(s: State, a: Action, k: Key)
    requires !(a.Step? && a.t in s.txs && !MustWait(s, a.t) && s.txs[a.t].pc.Ready?)
    ensures Prunes(Next(s, a).log, k) == Prunes(s.log, k)
  {
    if Next(s, a).log != s.log {
      var e := Next(s, a).log[|s.log|];
      assert Next(s, a).log == s.log + [e] && (s.log + [e])[..|s.log|] == s.log;
    }
  }

  /** How many of the first n steps took away k's last live project and left the membership. */
  ghost function Strandings(tr: seq<State>, n: nat, k: Key): nat
    requires n < |tr|
  {
    if n == 0 then 0
    else Strandings(tr, n - 1, k) + (if Detaches(tr[n - 1], tr[n], k) && k in tr[n].mem then 1 else 0)
  }

  /**
   In every run, each step that takes away k's last live project either deletes the membership and writes one prune
   entry, or leaves the membership without an entry; nothing else writes one.
   */
  lemma {:induction false} PrunesAndStrandings(tr: seq<State>, acts: seq<Action>, n: nat, k: Key)
    requires IsRun(EMPTY, tr, acts) && n < |tr|
    ensures Prunes(tr[n].log, k) + Strandings(tr, n, k) == Detachments(tr, n, k)
  {
    hide Next;
    if n > 0 {
      PrunesAndStrandings(tr, acts, n - 1, k);
      RunKeeps(tr, acts, n - 1);
      PruneStep(tr[n - 1], acts[n - 1], k);
    }
  }

  // ---------------------------------------------------------------------------------------------------
  // From the check to the commit of a displacement
  // ---------------------------------------------------------------------------------------------------

  /** A transaction that has left never comes back. */
  ghost predicate DoneApart(s: State) {
    forall t :: t in s.txs ==> t !in s.done
  }

  lemma {:induction false} RunDone(tr: seq<State>, acts: seq<Action>, n: nat)
    requires IsRun(EMPTY, tr, acts) && n < |tr|
    ensures DoneApart(tr[n])
  {
    hide Effect;
    if n > 0 { RunDone(tr, acts, n - 1); }
  }

  lemma {:induction false} DoneStays(tr: seq<State>, acts: seq<Action>, i: nat, j: nat, t: Tid)
    requires IsRun(EMPTY, tr, acts) && i <= j < |tr| && t in tr[i].done
    ensures t in tr[j].done
    decreases j
  {
    hide Effect, StaffChange;
    if i < j { DoneStays(tr, acts, i, j - 1, t); }
  }

  /** A transaction in flight at two moments was in flight between them. */
  lemma StaysInFlight(tr: seq<State>, acts: seq<Action>, i: nat, l: nat, j: nat, t: Tid)
    requires IsRun(EMPTY, tr, acts) && i <= l <= j < |tr| && t in tr[i].txs && t in tr[j].txs
    ensures t in tr[l].txs
    decreases l
  {
    hide Next;
    if i < l {
      StaysInFlight(tr, acts, i, l - 1, j, t);
      LeavesDone(tr[l - 1], acts[l - 1], t);
      if t !in tr[l].txs {
        DoneStays(tr, acts, l, j, t);
        RunDone(tr, acts, j);
      }
    }
  }

  lemma LeavesDone(s: State, a: Action, t: Tid)
    requires t in s.txs
    ensures t in Next(s, a).txs || t in Next(s, a).done
  {
    hide Effect, StaffChange;
  }

  /** While t holds k FOR UPDATE, the other live projects of k change by their own soft delete only. */
  lemma OthersStable(s: State, a: Action, t: Tid, q: Pid, k: Key)
    requires Inv(s) && t in s.txs && s.txs[t].excl == Some(k) && s.txs[t].proj != Some(q)
    ensures Refers(Next(s, a), q, k) <==> Refers(s, q, k) && !SoftDeletesProject(s, a, q)
  {
    hide OwnersOk, NoOrphan, StaffChange;
    if SoftDeletesProject(s, a, q) { ReadyNeverWaits(s, a.t); }
    var s' := Next(s, a);
    if a.Step? && a.t in s.txs && !MustWait(s, a.t) && s.txs[a.t].pc.Ready? && s.txs[a.t].proj == Some(q) {
      var y := s.txs[a.t];
      assert LocksOk(s, y) && PcOk(s, y) && LocksOk(s, s.txs[t]);
      assert Compatible(s.txs[t], y) && Compatible(y, s.txs[t]);
    }
  }

  /** A transaction that is ready to commit waits for nobody. */
  lemma ReadyNeverWaits(s: State, t: Tid)
    requires t in s.txs && (s.txs[t].pc.Ready? || s.txs[t].pc.CheckOther? || s.txs[t].pc.DropOld?)
    ensures !MustWait(s, t)
  {
  }

  /** Some step from m to n - 1 commits the soft delete of q. */
  ghost predicate DeletedBetween(tr: seq<State>, acts: seq<Action>, m: nat, n: nat, q: Pid)
    requires n <= |acts| && n <= |tr|
  {
    exists i :: m <= i < n && SoftDeletesProject(tr[i], acts[i], q)
  }

  /** At step m, t checks whether its displaced client k has another live project. */
  ghost predicate ChecksAt(tr: seq<State>, acts: seq<Action>, m: nat, t: Tid, k: Key)
    requires m < |acts| && m < |tr|
  {
    && acts[m] == Step(t) && t in tr[m].txs && tr[m].txs[t].pc == CheckOther(k.user) && tr[m].txs[t].req.org == k.org
  }

  /** k has a live project other than that of x. */
  ghost predicate HasOther(s: State, x: Tx, k: Key) {
    exists q: Pid :: x.proj != Some(q) && Refers(s, q, k)
  }

  /** What the record of t is after its check at m. */
  ghost predicate AfterCheck(s: State, x: Tx, y: Tx, k: Key) {
    && y.excl == Some(k) && y.proj == x.proj && y.proj.Some? && y.was == Some(k.user) && y.req == x.req
    && y.req.Assign? && y.req.org == k.org && y.row.Some? && y.row.value.client != Some(k.user)
    && (if HasOther(s, x, k) then y.pc.Ready? && y.drop.None?
        else (y.pc.DropOld? && y.pc.displaced == k.user) || (y.pc.Ready? && y.drop == Some(k)))
  }

  lemma CheckEffect(s: State, t: Tid, k: Key)
    requires Inv(s) && t in s.txs && s.txs[t].pc == CheckOther(k.user) && s.txs[t].req.org == k.org
    ensures t in Next(s, Step(t)).txs && AfterCheck(s, s.txs[t], Next(s, Step(t)).txs[t], k)
  {
    assert PcOk(s, s.txs[t]) && LocksOk(s, s.txs[t]);
    ReadyNeverWaits(s, t);
  }

  lemma LaterStep(s0: State, x: Tx, s: State, a: Action, t: Tid, k: Key)
    requires Inv(s) && t in s.txs && AfterCheck(s0, x, s.txs[t], k) && t in Next(s, a).txs
    ensures AfterCheck(s0, x, Next(s, a).txs[t], k)
  {
    hide HasOther, Next, NoOrphan, OwnersOk, Compatible;
    assert LocksOk(s, s.txs[t]);
    TxStep(s, a, t);
  }

  lemma {:induction false} Watch(tr: seq<State>, acts: seq<Action>, m: nat, n: nat, t: Tid, k: Key, q: Pid)
    requires IsRun(EMPTY, tr, acts) && m < n < |tr| && ChecksAt(tr, acts, m, t, k) && t in tr[n].txs
    ensures AfterCheck(tr[m], tr[m].txs[t], tr[n].txs[t], k)
    ensures tr[m].txs[t].proj != Some(q) ==>
              (Refers(tr[n], q, k) <==> Refers(tr[m], q, k) && !DeletedBetween(tr, acts, m, n, q))
    decreases n
  {
    hide Next, SoftDeletesProject, Refers, AfterCheck, Inv;
    var i := n - 1;
    StaysInFlight(tr, acts, m, i, n, t);
    RunKeeps(tr, acts, i);
    if i == m {
      CheckEffect(tr[m], t, k);
      CheckHolds(tr[m], t, k);
    } else {
      Watch(tr, acts, m, i, t, k, q);
      LaterStep(tr[m], tr[m].txs[t], tr[i], acts[i], t, k);
      WatchHolds(tr[m], tr[m].txs[t], tr[i].txs[t], k);
    }
    if tr[m].txs[t].proj != Some(q) {
      OthersStable(tr[i], acts[i], t, q, k);
    }
  }

  lemma CheckHolds(s: State, t: Tid, k: Key)
    requires Inv(s) && t in s.txs && s.txs[t].pc == CheckOther(k.user) && s.txs[t].req.org == k.org
    ensures s.txs[t].excl == Some(k)
  {
    assert PcOk(s, s.txs[t]);
  }

  lemma WatchHolds(s: State, x: Tx, y: Tx, k: Key)
    requires AfterCheck(s, x, y, k)
    ensures y.excl == Some(k) && y.proj == x.proj
  {
  }

  /** A live project other than t's that k had at the check and that was not soft-deleted before step n. */
  ghost predicate OtherRemains(tr: seq<State>, acts: seq<Action>, m: nat, n: nat, t: Tid, k: Key)
    requires m < n <= |acts| && n <= |tr| && t in tr[m].txs
  {
    exists q: Pid :: tr[m].txs[t].proj != Some(q) && Refers(tr[m], q, k) && !DeletedBetween(tr, acts, m, n, q)
  }

  /**
   A displacement that checks at step m and commits at step n, in any run. It prunes the membership, with its entry,
   exactly if the client had no other live project at m. It takes away the last live project and leaves the
   membership exactly if there was another one at m and all of those were soft-deleted between m and n.
   */
  lemma DisplacementExactly(tr: seq<State>, acts: seq<Action>, m: nat, n: nat, t: Tid, k: Key)
    requires IsRun(EMPTY, tr, acts) && m < n < |acts| && ChecksAt(tr, acts, m, t, k)
    requires acts[n] == Step(t) && t in tr[n].txs && tr[n].txs[t].pc.Ready?
    ensures var others, remains := HasOther(tr[m], tr[m].txs[t], k), OtherRemains(tr, acts, m, n, t, k);
            && Attached(tr[n], k) && k in tr[n].mem
            && (k !in tr[n + 1].mem <==> !others)
            && Prunes(tr[n + 1].log, k) == Prunes(tr[n].log, k) + (if others then 0 else 1)
            && (Detaches(tr[n], tr[n + 1], k) <==> !remains)
            && (Detaches(tr[n], tr[n + 1], k) && k in tr[n + 1].mem <==> others && !remains)
  {
    hide Next;
    var s, x := tr[n], tr[n].txs[t];
    RunKeeps(tr, acts, n);
    Watch(tr, acts, m, n, t, k, 0);
    ReadyNeverWaits(s, t);
    CommitRuns(s, t);
    PruneStep(s, acts[n], k);
    forall q | x.proj != Some(q)
      ensures Refers(s, q, k) <==> Refers(tr[m], q, k) && !DeletedBetween(tr, acts, m, n, q)
    {
      Watch(tr, acts, m, n, t, k, q);
    }
    DisplacementCommit(s, t, k);
  }

  lemma DisplacementCommit(s: State, t: Tid, k: Key)
    requires Inv(s) && t in s.txs && s.txs[t].pc.Ready? && s.txs[t].req.Assign? && s.txs[t].row.Some?
    requires s.txs[t].was == Some(k.user) && s.txs[t].req.org == k.org && s.txs[t].proj.Some?
    requires s.txs[t].row.value.client != Some(k.user)
    ensures Attached(s, k) && k in s.mem
    ensures Detaches(s, Commit(s, t), k) <==> !HasOther(s, s.txs[t], k)
    ensures k !in Commit(s, t).mem <==> s.txs[t].drop == Some(k)
  {
    var x, s' := s.txs[t], Commit(s, t);
    assert LocksOk(s, x);
    assert Refers(s, x.proj.value, k) && ActiveClient(s, k);
    assert forall q: Pid :: x.proj != Some(q) ==> (Refers(s, q, k) <==> Refers(s', q, k));
    assert !Refers(s', x.proj.value, k);
  }

  // ---------------------------------------------------------------------------------------------------
  // Every step that takes away the last live project
  // ---------------------------------------------------------------------------------------------------

  /** x displaces k and has got past its check. */
  ghost predicate PastCheck(x: Tx, k: Key) {
    && x.req.Assign? && x.req.org == k.org && x.was == Some(k.user) && x.row.Some?
    && (x.pc.Ready? || x.pc == DropOld(k.user))
  }

  lemma PastCheckStep(s: State, a: Action, t: Tid, k: Key)
    requires Inv(s) && t in Next(s, a).txs && PastCheck(Next(s, a).txs[t], k)
    ensures t in s.txs
    ensures PastCheck(s.txs[t], k) || (a == Step(t) && s.txs[t].pc == CheckOther(k.user) && s.txs[t].req.org == k.org)
  {
    hide Next, Compatible, OwnersOk, Effect, LocksOk, PcOk, NoOrphan, MustWait;
    TxStep(s, a, t);
    if t in s.txs && Next(s, a).txs[t] != s.txs[t] {
      assert LocksOk(s, s.txs[t]) && PcOk(s, s.txs[t]);
      PastCheckEffect(s, s.txs[t], k);
    }
  }

  lemma PastCheckEffect(s: State, x: Tx, k: Key)
    requires NoOrphan(s) && LocksOk(s, x) && PcOk(s, x) && !x.pc.Ready? && Effect(s, x).Ok?
    requires PastCheck(Effect(s, x).value, k)
    ensures PastCheck(x, k) || (x.pc == CheckOther(k.user) && x.req.org == k.org)
  {
    if x.pc.LockOld? { DisplacedIsMember(s, x, x.pc.displaced); }
  }

  /** A displacement that is past its check has made it. */
  lemma {:induction false} CheckBefore(tr: seq<State>, acts: seq<Action>, n: nat, t: Tid, k: Key) returns (m: nat)
    requires IsRun(EMPTY, tr, acts) && n < |tr| && t in tr[n].txs && PastCheck(tr[n].txs[t], k)
    ensures m < n && ChecksAt(tr, acts, m, t, k)
  {
    hide Next, PastCheck;
    assert n > 0;
    RunKeeps(tr, acts, n - 1);
    PastCheckStep(tr[n - 1], acts[n - 1], t, k);
    if PastCheck(tr[n - 1].txs[t], k) { m := CheckBefore(tr, acts, n - 1, t, k); } else { m := n - 1; }
  }

  lemma DetachingStep(s: State, a: Action, k: Key)
    requires Inv(s) && Detaches(s, Next(s, a), k) && !SoftDeletes(s, a, k)
    ensures a.Step? && a.t in s.txs && s.txs[a.t].pc.Ready? && PastCheck(s.txs[a.t], k)
  {
    hide StaffChange, Effect;
    var s' := Next(s, a);
    var q: Pid :| Refers(s, q, k);
    assert !Refers(s', q, k);
    var x := s.txs[a.t];
    assert LocksOk(s, x) && PcOk(s, x);
  }

  /**
   In any run, a step that takes away k's last live project is the commit of a soft delete, which keeps the membership,
   or the commit of a displacement, whose outcome DisplacementExactly gives from its check at m.
   */
  lemma EveryDetachment(tr: seq<State>, acts: seq<Action>, n: nat, k: Key) returns (m: nat)
    requires IsRun(EMPTY, tr, acts) && n < |acts| && Detaches(tr[n], tr[n + 1], k)
    ensures SoftDeletes(tr[n], acts[n], k) ==> k in tr[n + 1].mem
    ensures !SoftDeletes(tr[n], acts[n], k) ==>
              && acts[n].Step? && acts[n].t in tr[n].txs && tr[n].txs[acts[n].t].pc.Ready?
              && m < n && ChecksAt(tr, acts, m, acts[n].t, k)
  {
    hide Next;
    RunKeeps(tr, acts, n);
    if SoftDeletes(tr[n], acts[n], k) {
      SoftDeleteKeepsMember(tr[n], acts[n], k);
      m := 0;
    } else {
      DetachingStep(tr[n], acts[n], k);
      m := CheckBefore(tr, acts, n, acts[n].t, k);
    }
  }

  lemma SoftDeleteKeepsMember(s: State, a: Action, k: Key)
    requires Inv(s) && SoftDeletes(s, a, k)
    ensures k in Next(s, a).mem
  {
    var q :| SoftDeletesProject(s, a, q) && Refers(s, q, k);
    ReadyNeverWaits(s, a.t);
    assert LocksOk(s, s.txs[a.t]) && ActiveClient(s, k);
  }

  /**
   In a run in which no project of k is soft-deleted, k's membership is pruned, with one audit entry, by each
   displacement that takes away its last live project and by nothing else.
   */
  lemma {:induction false} PrunedExactlyOnce(tr: seq<State>, acts: seq<Action>, n: nat, k: Key)
    requires IsRun(EMPTY, tr, acts) && n < |tr|
    requires forall i :: 0 <= i < n ==> !SoftDeletes(tr[i], acts[i], k)
    ensures Prunes(tr[n].log, k) == Detachments(tr, n, k)
    ensures forall i :: 0 <= i < n && Detaches(tr[i], tr[i + 1], k) ==> k in tr[i].mem && k !in tr[i + 1].mem
  {
    hide Next;
    if n > 0 {
      PrunedExactlyOnce(tr, acts, n - 1, k);
      RunKeeps(tr, acts, n - 1);
      PruneStep(tr[n - 1], acts[n - 1], k);
      if Detaches(tr[n - 1], tr[n], k) {
        var m := EveryDetachment(tr, acts, n - 1, k);
        DisplacementExactly(tr, acts, m, n - 1, acts[n - 1].t, k);
        NoneDeleted(tr, acts, m, n - 1, acts[n - 1].t, k);
      }
    }
  }

  /** Without soft deletes of projects of k, what another live project was at the check it still is at the commit. */
  lemma NoneDeleted(tr: seq<State>, acts: seq<Action>, m: nat, n: nat, t: Tid, k: Key)
    requires IsRun(EMPTY, tr, acts) && m < n < |acts| && ChecksAt(tr, acts, m, t, k) && t in tr[n].txs
    requires forall i :: 0 <= i < n ==> !SoftDeletes(tr[i], acts[i], k)
    ensures HasOther(tr[m], tr[m].txs[t], k) ==> OtherRemains(tr, acts, m, n, t, k)
  {
    hide Next, SoftDeletesProject;
    if q: Pid :| tr[m].txs[t].proj != Some(q) && Refers(tr[m], q, k) {
      NeverDeleted(tr, acts, m, n, t, k, q);
    }
  }

  lemma {:induction false} NeverDeleted(tr: seq<State>, acts: seq<Action>, m: nat, n: nat, t: Tid, k: Key, q: Pid)
    requires IsRun(EMPTY, tr, acts) && m < n < |acts| && ChecksAt(tr, acts, m, t, k) && t in tr[n].txs
    requires forall i :: 0 <= i < n ==> !SoftDeletes(tr[i], acts[i], k)
    requires tr[m].txs[t].proj != Some(q) && Refers(tr[m], q, k)
    ensures !DeletedBetween(tr, acts, m, n, q)
    decreases n
  {
    hide Next, SoftDeletesProject, Refers;
    if n - 1 > m {
      StaysInFlight(tr, acts, m, n - 1, n, t);
      NeverDeleted(tr, acts, m, n - 1, t, k, q);
      Watch(tr, acts, m, n - 1, t, k, q);
    }
    assert Refers(tr[n - 1], q, k) && !SoftDeletes(tr[n - 1], acts[n - 1], k);
  }

  /** The transaction t starts and runs k statements, uninterrupted. */
  ghost function Alone(s: State, t: Tid, req: Request, k: nat): State {
    if k == 0 then Next(s, Start(t, req)) else Next(Alone(s, t, req, k - 1), Step(t))
  }

  /** The only difference between s and s' is the record of t. */
  ghost predicate OnlyTx(s: State, s': State, t: Tid, x: Tx) {
    s' == s.(txs := s.txs[t := x])
  }

  ghost predicate Free(s: State, t: Tid, x: Tx) {
    forall u :: u in s.txs && u != t ==> !Conflicts(Wants(x), s.txs[u])
  }

  lemma StartRuns(s: State, t: Tid, req: Request)
    requires t !in s.txs && t !in s.done
    ensures OnlyTx(s, Next(s, Start(t, req)), t, NewTx(req))
  {
  }

  lemma StepRuns(s: State, s': State, t: Tid, x: Tx, y: Tx)
    requires OnlyTx(s, s', t, x) && Free(s, t, x) && !x.pc.Ready? && Effect(s', x) == Ok(y)
    ensures OnlyTx(s, Next(s', Step(t)), t, y)
  {
    assert forall u :: !WaitsFor(s', t, u);
  }

  /** An unassignment of p runs up to its lock on the displaced client. */
  lemma UnassignWrites(s: State, t: Tid, org: Org, actor: User, p: Pid, client: User)
    requires s.txs == map[] && t !in s.done && Assignable(s, org, p, client)
    ensures var req := Assign(org, actor, p, None);
            OnlyTx(s, Alone(s, t, req, 2), t,
                   NewTx(req).(proj := Some(p), was := Some(client), row := Some(s.projects[p].(client := None)),
                               pc := LockOld(client)))
  {
    hide Next;
    var req := Assign(org, actor, p, None);
    var x0 := NewTx(req);
    var x1 := x0.(proj := Some(p), was := Some(client), pc := WriteClient(None));
    StartRuns(s, t, req);
    StepRuns(s, Alone(s, t, req, 0), t, x0, x1);
    StepRuns(s, Alone(s, t, req, 1), t, x1, x1.(row := Some(s.projects[p].(client := None)), pc := LockOld(client)));
  }

  /** An unassignment of p that sees q keeps the membership and is ready to commit. */
  lemma UnassignKeeps(s: State, t: Tid, org: Org, actor: User, p: Pid, q: Pid, client: User)
    requires s.txs == map[] && t !in s.done && p != q
    requires Assignable(s, org, p, client) && Refers(s, q, Key(org, client)) && ActiveClient(s, Key(org, client))
    ensures var req, k := Assign(org, actor, p, None), Key(org, client);
            OnlyTx(s, Alone(s, t, req, 4), t, LogAssign(
              NewTx(req).(proj := Some(p), was := Some(client), row := Some(s.projects[p].(client := None)),
                          excl := Some(k))))
  {
    hide Next;
    var req, k := Assign(org, actor, p, None), Key(org, client);
    var x2 := NewTx(req).(proj := Some(p), was := Some(client), row := Some(s.projects[p].(client := None)),
                          pc := LockOld(client));
    var x3 := x2.(excl := Some(k), pc := CheckOther(client));
    UnassignWrites(s, t, org, actor, p, client);
    StepRuns(s, Alone(s, t, req, 2), t, x2, x3);
    var s3 := Alone(s, t, req, 3);
    assert Refers(s3, q, k);
    StepRuns(s, s3, t, x3, LogAssign(x3));
  }

  /** The soft delete of a live project that nobody holds. */
  lemma DeleteRuns(s: State, u: Tid, org: Org, actor: User, q: Pid)
    requires u !in s.txs && u !in s.done && Live(s, org, q)
    requires forall v :: v in s.txs ==> s.txs[v].proj != Some(q)
    ensures Alone(s, u, Delete(org, actor, q), 3)
            == s.(projects := s.projects[q := s.projects[q].(deleted := true)], done := s.done[u := Committed])
  {
    hide Next;
    var req := Delete(org, actor, q);
    var x0 := NewTx(req);
    var x1 := x0.(proj := Some(q), was := s.projects[q].client, pc := WriteRow(s.projects[q].(deleted := true)));
    var x2 := x1.(row := Some(s.projects[q].(deleted := true)), pc := Ready);
    StartRuns(s, u, req);
    var s0 := Alone(s, u, req, 0);
    StepRuns(s, s0, u, x0, x1);
    var s1 := Alone(s, u, req, 1);
    StepRuns(s, s1, u, x1, x2);
    var s2 := Alone(s, u, req, 2);
    CommitRuns(s2, u);
    assert s2.txs - {u} == s.txs;
  }

  lemma CommitRuns(s: State, t: Tid)
    requires t in s.txs && s.txs[t].pc.Ready?
    ensures Next(s, Step(t)) == Commit(s, t)
  {
  }

  /**
   The soft-delete condition is needed. An unassignment of p that has seen q as another project of the client,
   followed by a soft delete of q, leaves the membership behind without any project and without a prune.
   */
  lemma SoftDeleteCanStrand(s: State, t: Tid, u: Tid, org: Org, actor: User, p: Pid, q: Pid, client: User)
    returns (s': State)
    requires s.txs == map[] && t !in s.done && u !in s.done && t != u && p != q
    requires Assignable(s, org, p, client) && Assignable(s, org, q, client) && ActiveClient(s, Key(org, client))
    requires forall r :: Refers(s, r, Key(org, client)) ==> r == p || r == q
    ensures s' == Next(Alone(Alone(s, t, Assign(org, actor, p, None), 4), u, Delete(org, actor, q), 3), Step(t))
    ensures Attached(s, Key(org, client)) && !Attached(s', Key(org, client))
    ensures ActiveClient(s', Key(org, client)) && Prunes(s'.log, Key(org, client)) == Prunes(s.log, Key(org, client))
  {
    hide Next;
    var k := Key(org, client);
    assert Refers(s, p, k) && Refers(s, q, k);
    UnassignKeeps(s, t, org, actor, p, q, client);
    var s4 := Alone(s, t, Assign(org, actor, p, None), 4);
    DeleteRuns(s4, u, org, actor, q);
    var s7 := Alone(s4, u, Delete(org, actor, q), 3);
    CommitRuns(s7, t);
    s' := Commit(s7, t);
    assert forall r: Pid :: Refers(s', r, k) ==> Refers(s, r, k) && r != p && r != q;
    PrunesOf(s.log, s7.txs[t].log, k);
  }

  // ---------------------------------------------------------------------------------------------------
  // A run of the empty system that strands a membership
  // ---------------------------------------------------------------------------------------------------

  lemma Extend(tr: seq<State>, acts: seq<Action>, a: Action) returns (tr': seq<State>, acts': seq<Action>)
    requires IsRun(EMPTY, tr, acts)
    ensures IsRun(EMPTY, tr', acts') && tr' == tr + [Next(tr[|acts|], a)] && acts' == acts + [a]
  {
    hide Next;
    tr', acts' := tr + [Next(tr[|acts|], a)], acts + [a];
  }

  lemma {:induction false} ExtendAlone(tr: seq<State>, acts: seq<Action>, t: Tid, req: Request, n: nat)
    returns (tr': seq<State>, acts': seq<Action>)
    requires IsRun(EMPTY, tr, acts)
    ensures IsRun(EMPTY, tr', acts') && tr'[|acts'|] == Alone(tr[|acts|], t, req, n)
  {
    hide Next;
    if n == 0 {
      tr', acts' := Extend(tr, acts, Start(t, req));
    } else {
      tr', acts' := ExtendAlone(tr, acts, t, req, n - 1);
      tr', acts' := Extend(tr', acts', Step(t));
    }
  }

  /** A first assignment runs alone to its commit. */
  lemma AssignRuns(s: State, t: Tid, org: Org, actor: User, p: Pid, client: User)
    requires s.txs == map[] && t !in s.done && Live(s, org, p) && s.projects[p].client.None?
    requires !Frozen(s.projects[p].status) && ActiveClient(s, Key(org, client))
    ensures Alone(s, t, Assign(org, actor, p, Some(client)), 4) ==
            s.(projects := s.projects[p := s.projects[p].(client := Some(client))],
               log := s.log + [ClientChanged(org, p, None, Some(client), actor)], done := s.done[t := Committed])
  {
    hide Next;
    var req := Assign(org, actor, p, Some(client));
    var x0 := NewTx(req);
    var x1 := x0.(proj := Some(p), pc := ShareNew(client));
    var x2 := x1.(share := Some(Key(org, client)), pc := WriteClient(Some(client)));
    var x3 := LogAssign(x2.(row := Some(s.projects[p].(client := Some(client)))));
    StartRuns(s, t, req);
    StepRuns(s, Alone(s, t, req, 0), t, x0, x1);
    StepRuns(s, Alone(s, t, req, 1), t, x1, x2);
    StepRuns(s, Alone(s, t, req, 2), t, x2, x3);
    var s3 := Alone(s, t, req, 3);
    CommitRuns(s3, t);
    assert s3.txs - {t} == s.txs;
  }

  /** A provisioning runs alone to its commit. */
  lemma ProvisionRuns(s: State, t: Tid, org: Org, actor: User, user: User)
    requires s.txs == map[] && t !in s.done && org in s.orgs && Key(org, user) !in s.mem
    ensures Alone(s, t, Provision(org, actor, user), 3) ==
            s.(mem := s.mem[Key(org, user) := Membership(Client, MemberStatus.Active)],
               log := s.log + [Provisioned(Key(org, user), actor)], done := s.done[t := Committed])
  {
    hide Next;
    var req, k := Provision(org, actor, user), Key(org, user);
    var x0 := NewTx(req);
    var x1 := x0.(pc := Insert(user));
    var x2 := x1.(add := Some(k), pc := Ready, log := [] + [Provisioned(k, actor)]);
    StartRuns(s, t, req);
    StepRuns(s, Alone(s, t, req, 0), t, x0, x1);
    StepRuns(s, Alone(s, t, req, 1), t, x1, x2);
    var s2 := Alone(s, t, req, 2);
    CommitRuns(s2, t);
    assert s2.txs - {t} == s.txs && [] + [Provisioned(k, actor)] == [Provisioned(k, actor)];
  }

  /** Organization 0 of user 1 with client 2. */
  lemma OneClient() returns (tr: seq<State>, acts: seq<Action>)
    ensures IsRun(EMPTY, tr, acts)
    ensures var s := tr[|acts|];
            && s.txs == map[] && s.done.Keys == {0} && s.projects == map[] && s.orgs == map[0 := OrgRow(false, 1)]
            && s.mem == map[Key(0, 1) := Membership(Owner, MemberStatus.Active),
                            Key(0, 2) := Membership(Client, MemberStatus.Active)]
  {
    hide Alone;
    tr, acts := [EMPTY], [];
    tr, acts := Extend(tr, acts, CreateOrg(0, 1, false));
    ProvisionRuns(tr[|acts|], 0, 0, 1, 2);
    tr, acts := ExtendAlone(tr, acts, 0, Provision(0, 1, 2), 3);
  }

  /** Organization 0 of user 1 with client 2 and two projects. */
  lemma NewProjects() returns (tr: seq<State>, acts: seq<Action>)
    ensures IsRun(EMPTY, tr, acts)
    ensures var s, p := tr[|acts|], ProjectRow(0, None, ProjectStatus.Draft, false);
            && s.txs == map[] && s.done.Keys == {0} && s.projects == map[10 := p, 11 := p]
            && ActiveClient(s, Key(0, 2))
  {
    tr, acts := OneClient();
    tr, acts := Extend(tr, acts, CreateProject(10, 0));
    tr, acts := Extend(tr, acts, CreateProject(11, 0));
  }

  /** Both projects are the client's. */
  lemma TwoProjects() returns (tr: seq<State>, acts: seq<Action>)
    ensures IsRun(EMPTY, tr, acts)
    ensures var s := tr[|acts|];
            && s.txs == map[] && 3 !in s.done && 4 !in s.done && ActiveClient(s, Key(0, 2))
            && Assignable(s, 0, 10, 2) && Assignable(s, 0, 11, 2) && s.projects.Keys == {10, 11}
  {
    hide Next, Alone;
    tr, acts := NewProjects();
    AssignRuns(tr[|acts|], 1, 0, 1, 10, 2);
    tr, acts := ExtendAlone(tr, acts, 1, Assign(0, 1, 10, Some(2)), 4);
    AssignRuns(tr[|acts|], 2, 0, 1, 11, 2);
    tr, acts := ExtendAlone(tr, acts, 2, Assign(0, 1, 11, Some(2)), 4);
  }

  /**
   A run of the empty system in which a displacement checks at m, the client's other project is soft-deleted, and the
   commit at n takes away the last live project, leaves the active membership and writes no prune entry.
   */
  lemma StrandingRun() returns (tr: seq<State>, acts: seq<Action>, m: nat, n: nat)
    ensures IsRun(EMPTY, tr, acts) && m < n < |acts| && ChecksAt(tr, acts, m, 3, Key(0, 2)) && acts[n] == Step(3)
    ensures Detaches(tr[n], tr[n + 1], Key(0, 2)) && ActiveClient(tr[n + 1], Key(0, 2))
    ensures Prunes(tr[n + 1].log, Key(0, 2)) == Prunes(tr[n].log, Key(0, 2))
  {
    hide Next, Alone;
    tr, acts := TwoProjects();
    ghost var s, k := tr[|acts|], Key(0, 2);
    assert Refers(s, 11, k);
    UnassignKeeps(s, 3, 0, 1, 10, 11, 2);
    var s' := SoftDeleteCanStrand(s, 3, 4, 0, 1, 10, 11, 2);
    tr, acts := ExtendAlone(tr, acts, 3, Assign(0, 1, 10, None), 4);
    DeleteRuns(tr[|acts|], 4, 0, 1, 11);
    tr, acts := ExtendAlone(tr, acts, 4, Delete(0, 1, 11), 3);
    n := |acts|;
    m := CheckBefore(tr, acts, n, 3, k);
    tr, acts := Extend(tr, acts, Step(3));
    DisplacementExactly(tr, acts, m, n, 3, k);
  }
}
