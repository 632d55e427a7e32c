/** The audit log of memberships is a faithful history of the membership table, in every interleaving. */
module TenancyLog {
  import opened Common
  import opened ProjectRules
  import opened Tenancy
  import opened TenancyInvariant
  import opened TenancyTheorems

  /** What an auditor knows of one membership; Corrupt when an entry does not continue the previous ones. */
  datatype Standing = Out | In(membership: Membership) | Corrupt

  function ReplayEvent(r: Standing, e: Event, k: Key): Standing {
    match e
    case OrgCreated(org, creator) =>
      if k != Key(org, creator) then r
      else if r.Out? then In(Membership(Owner, MemberStatus.Active)) else Corrupt
    case Joined(key, _, m) => if key != k then r else if r.Out? then In(m) else Corrupt
    case Provisioned(key, _) =>
      if key != k then r else if r.Out? then In(Membership(Client, MemberStatus.Active)) else Corrupt
    case RoleChanged(key, _, oldRole, newRole) =>
      if key != k then r
      else if r.In? && r.membership.role == oldRole then In(r.membership.(role := newRole)) else Corrupt
    case Removed(key, _, _) => if key != k then r else if r.In? then Out else Corrupt
    case _ => r
  }

  function Replay(log: seq<Event>, k: Key): Standing {
    if log == [] then Out else ReplayEvent(Replay(log[..|log| - 1], k), log[|log| - 1], k)
  }

  function Stored(s: State, k: Key): Standing {
    if k in s.mem then In(s.mem[k]) else Out
  }

  lemma ReplayOne(log: seq<Event>, e: Event, k: Key)
    ensures Replay(log + [e], k) == ReplayEvent(Replay(log, k), e, k)
  {
    hide ReplayEvent;
    assert (log + [e])[..|log|] == log;
  }

  /** The replay after the entries of a transaction. */
  lemma ReplayFull(log: seq<Event>, x: Tx, k: Key)
    ensures var r := Replay(log, k);
            Replay(log + FullLog(x), k) ==
            if (x.req.Assign? || x.req.Remove?) && x.drop == Some(k) then (if r.In? then Out else Corrupt)
            else if x.req.Provision? && x.add == Some(k) then
              (if r.Out? then In(Membership(Client, MemberStatus.Active)) else Corrupt)
            else r
  {
    hide Replay;
    var more := FullLog(x);
    if |more| == 2 {
      assert log + more == (log + [more[0]]) + [more[1]];
      ReplayOne(log, more[0], k);
      ReplayOne(log + [more[0]], more[1], k);
    } else if |more| == 1 {
      assert more == [more[0]];
      ReplayOne(log, more[0], k);
    } else {
      assert log + more == log;
    }
  }

  /** The entries of a transaction change the replay as its commit changes the row. */
  lemma CommitReplays(s: State, t: Tid, k: Key)
    requires Inv(s) && t in s.txs && s.txs[t].pc.Ready? && Replay(s.log, k) == Stored(s, k)
    ensures Replay(Commit(s, t).log, k) == Stored(Commit(s, t), k)
  {
    hide Replay, FullLog, Compatible, NoOrphan, OwnersOk;
    var x := s.txs[t];
    assert LocksOk(s, x) && PcOk(s, x);
    ReplayFull(s.log, x, k);
  }

  lemma StaffReplays(s: State, a: Action, k: Key)
    requires StaffAction(a) && StaffChange(s, a).Ok? && Replay(s.log, k) == Stored(s, k)
    ensures var c := StaffChange(s, a).value; Replay(s.log + [c.entry], k) == Stored(s.(mem := c.mem), k)
  {
    ReplayOne(s.log, StaffChange(s, a).value.entry, k);
  }

  lemma CreationReplays(s: State, org: Org, creator: User, personal: bool, k: Key)
    requires OwnersOk(s) && org !in s.orgs && Replay(s.log, k) == Stored(s, k)
    ensures var s' := Next(s, CreateOrg(org, creator, personal)); Replay(s'.log, k) == Stored(s', k)
  {
    ReplayOne(s.log, OrgCreated(org, creator), k);
  }

  lemma StepReplays(s: State, a: Action, k: Key)
    requires Inv(s) && Replay(s.log, k) == Stored(s, k)
    ensures Replay(Next(s, a).log, k) == Stored(Next(s, a), k)
  {
    hide Effect, Replay, StaffChange, LocksOk, PcOk, Compatible, NoOrphan, OwnersOk;
    match a
    case Step(t) =>
      if t in s.txs && !MustWait(s, t) && s.txs[t].pc.Ready? { CommitReplays(s, t, k); }
    case CreateOrg(org, creator, personal) =>
      if org !in s.orgs { CreationReplays(s, org, creator, personal, k); }
    case AddMember(_, _, _, _, _) => if StaffChange(s, a).Ok? { StaffReplays(s, a, k); }
    case RemoveMember(_, _, _) => if StaffChange(s, a).Ok? { StaffReplays(s, a, k); }
    case ChangeRole(_, _, _, _) => if StaffChange(s, a).Ok? { StaffReplays(s, a, k); }
    case _ =>
  }

  /**
   In every state of every interleaving the committed audit log replays, without a break, to the stored membership of
   every user in every organization: role and status, or none.
   */
  lemma {:induction false} MembershipLogIsTheHistory(tr: seq<State>, acts: seq<Action>, n: nat, k: Key)
    requires IsRun(EMPTY, tr, acts) && n < |tr|
    ensures Replay(tr[n].log, k) == Stored(tr[n], k)
  {
    hide Next;
    if n > 0 {
      MembershipLogIsTheHistory(tr, acts, n - 1, k);
      RunKeeps(tr, acts, n - 1);
      StepReplays(tr[n - 1], acts[n - 1], k);
    }
  }
}
