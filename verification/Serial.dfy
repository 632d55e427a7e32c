/**
 The same transactions statement by statement, many at a time. Each takes its project's row lock with its first
 statement and holds it to the end; every later statement reads the rows committed by then and its own writes.
 */
module Serial {
  import opened Common
  import opened ProjectRules
  import opened DueDate
  import opened Workflow
  import opened WorkflowHistory
  import opened WorkflowRuns

  type Pid = int
  type Tid = int

  /** What a transaction executes next, with the values it has read. */
  datatype Stage =
    | Lock
    | ReadRow(p: Project)
    | ReadRest(p: Project, m: Option<Milestone>)
    | Write(done: seq<Stmt>, todo: seq<Stmt>)

  datatype Tx = Tx(pid: Pid, op: Op, stage: Stage)

  /**
   History: the trees as created, every transaction ever started, which of them committed, and per project the
   order of lock acquisition.
   */
  datatype History = History(
    born: map<Pid, Tree>,
    started: map<Tid, Tx>,
    committed: set<Tid>,
    order: map<Pid, seq<Tid>>)

  /** The committed trees and the transactions in flight. */
  datatype State = State(trees: map<Pid, Tree>, txs: map<Tid, Tx>, h: History)

  const EMPTY: State := State(map[], map[], History(map[], map[], {}, map[]))

  predicate Holds(x: Tx, pid: Pid) {
    x.pid == pid && !x.stage.Lock?
  }

  ghost predicate Locked(s: State, pid: Pid) {
    exists u :: u in s.txs && Holds(s.txs[u], pid)
  }

  /** The transactions that took the lock of pid, in that order. */
  function OrderOf(h: History, pid: Pid): seq<Tid> {
    if pid in h.order then h.order[pid] else []
  }

  function Put(s: State, t: Tid, stage: Stage): State
    requires t in s.txs
  {
    s.(txs := s.txs[t := s.txs[t].(stage := stage)])
  }

  function Fail(s: State, t: Tid): State {
    s.(txs := s.txs - {t})
  }

  /** The next statement of t. */
  ghost function Step(s: State, t: Tid): State
    requires t in s.txs
  {
    var x := s.txs[t];
    if x.pid !in s.trees then Fail(s, t)
    else
      var tree := s.trees[x.pid];
      match x.stage
      case Lock =>
        if Locked(s, x.pid) then s  // waits
        else if tree.project.deleted then Fail(s, t)
        else Put(s, t, ReadRow(tree.project)).(h := s.h.(order := s.h.order[x.pid := OrderOf(s.h, x.pid) + [t]]))
      // FOR UPDATE in the transaction, or a plain read through the pool: nothing is written yet
      case ReadRow(p) => Put(s, t, ReadRest(p, ReadMilestone(tree, x.op)))
      case ReadRest(p, m) =>
        (match Decide(x.op, p, m, ReadChildren(tree, x.op))
         case Ok(stmts) => Put(s, t, Write([], stmts))
         case Err(_) => Fail(s, t))
      case Write(done, todo) =>
        if todo == [] then
          (match ExecuteAll(tree, done)
           case Ok(view) => State(s.trees[x.pid := view], s.txs - {t}, s.h.(committed := s.h.committed + {t}))
           case Err(_) => Fail(s, t))
        else if ExecuteAll(tree, done + [todo[0]]).Err? then Fail(s, t)
        else Put(s, t, Write(done + [todo[0]], todo[1..]))
  }

  datatype Action =
    | Create(pid: Pid, actor: User, name: string, text: string, priority: Priority, due: DueInput)
    | Start(t: Tid, pid: Pid, op: Op)
    | Advance(t: Tid)
    | Abort(t: Tid)

  ghost function Act(s: State, a: Action): State {
    match a
    case Create(pid, actor, name, text, priority, due) =>
      if pid in s.trees then s
      else
        var tree := NewTree(actor, name, text, priority, due);
        s.(trees := s.trees[pid := tree], h := s.h.(born := s.h.born[pid := tree]))
    case Start(t, pid, op) =>
      if t in s.h.started then s
      else s.(txs := s.txs[t := Tx(pid, op, Lock)], h := s.h.(started := s.h.started[t := Tx(pid, op, Lock)]))
    case Advance(t) => if t in s.txs then Step(s, t) else s
    case Abort(t) => Fail(s, t)
  }

  /** tr[i] is the state in which acts[i] is taken. */
  ghost predicate IsTrace(tr: seq<State>, acts: seq<Action>) {
    && |tr| == |acts| + 1
    && tr[0] == EMPTY
    && forall i :: 0 <= i < |acts| ==> tr[i + 1] == Act(tr[i], acts[i])
  }

  // ---------------------------------------------------------------------------------------------------
  // Serializability
  // ---------------------------------------------------------------------------------------------------

  /** The whole transactions of the committed members of order, one after the other. */
  ghost function Serially(tree: Tree, order: seq<Tid>, started: map<Tid, Tx>, committed: set<Tid>): Tree
    requires forall t :: t in order ==> t in started
    decreases |order|
  {
    if order == [] then tree
    else
      var t, before := order[|order| - 1], Serially(tree, order[..|order| - 1], started, committed);
      if t in committed then Next(before, started[t].op) else before
  }

  /** The lock history lists started transactions of the project. */
  ghost predicate HistoryOk(h: History) {
    && (forall pid, t :: t in OrderOf(h, pid) ==> t in h.started && h.started[t].pid == pid && pid in h.born)
    && (forall t :: t in h.committed ==> t in h.started)
  }

  /** A transaction in flight has not committed; the holder of a lock is the last one in its order. */
  ghost predicate QueueOk(h: History, t: Tid, x: Tx) {
    var order := OrderOf(h, x.pid);
    && t in h.started && h.started[t] == x.(stage := Lock) && t !in h.committed
    && (if x.stage.Lock? then t !in order
        else order != [] && order[|order| - 1] == t && t !in order[..|order| - 1])
  }

  /** While t holds the lock, what it read is still what is committed. */
  ghost predicate ReadsOk(trees: map<Pid, Tree>, x: Tx) {
    !x.stage.Lock? ==>
      x.pid in trees &&
      var tree := trees[x.pid];
      match x.stage
      case Lock => true
      case ReadRow(p) => p == tree.project
      case ReadRest(p, m) => p == tree.project && m == ReadMilestone(tree, x.op)
      case Write(done, todo) => Stmts(tree, x.op) == Ok(done + todo) && ExecuteAll(tree, done).Ok?
  }

  ghost predicate Exclusive(txs: map<Tid, Tx>) {
    forall t, u :: t in txs && u in txs && t != u && !txs[t].stage.Lock? ==> !Holds(txs[u], txs[t].pid)
  }

  ghost predicate SerialAt(trees: map<Pid, Tree>, h: History, pid: Pid)
    requires HistoryOk(h) && pid in trees
  {
    pid in h.born && trees[pid] == Serially(h.born[pid], OrderOf(h, pid), h.started, h.committed)
  }

  ghost predicate AllSerial(trees: map<Pid, Tree>, h: History)
    requires HistoryOk(h)
  {
    h.born.Keys <= trees.Keys && forall pid :: pid in trees ==> SerialAt(trees, h, pid)
  }

  ghost predicate Inv(s: State) {
    && HistoryOk(s.h)
    && AllSerial(s.trees, s.h)
    && Exclusive(s.txs)
    && (forall t :: t in s.txs ==> ReadsOk(s.trees, s.txs[t]) && QueueOk(s.h, t, s.txs[t]))
  }

  /** The serial result depends only on the members of order. */
  lemma {:induction false} SeriallySame(
      tree: Tree, order: seq<Tid>, started: map<Tid, Tx>, committed: set<Tid>,
      started': map<Tid, Tx>, committed': set<Tid>)
    requires forall t :: t in order ==> t in started && t in started' && started[t] == started'[t]
    requires forall t :: t in order ==> (t in committed <==> t in committed')
    ensures Serially(tree, order, started, committed) == Serially(tree, order, started', committed')
    decreases |order|
  {
    hide Next, Stmts, ExecuteAll, ReadMilestone, ReadChildren, Decide;
    if order != [] { SeriallySame(tree, order[..|order| - 1], started, committed, started', committed'); }
  }

  lemma HistoryGrows(h: History, h': History)
    requires HistoryOk(h) && h'.order == h.order
    requires forall t :: t in h.started ==> t in h'.started && h'.started[t] == h.started[t]
    requires h.born.Keys <= h'.born.Keys && (forall t :: t in h'.committed ==> t in h'.started)
    ensures HistoryOk(h') && forall pid :: OrderOf(h', pid) == OrderOf(h, pid)
  {
    assert forall pid :: OrderOf(h', pid) == OrderOf(h, pid);
    forall pid, t | t in OrderOf(h', pid) ensures t in h'.started && h'.started[t].pid == pid && pid in h'.born {
      LockedIsStarted(h, pid, t);
    }
  }

  lemma LockedIsStarted(h: History, pid: Pid, t: Tid)
    requires HistoryOk(h) && t in OrderOf(h, pid)
    ensures t in h.started && h.started[t].pid == pid && pid in h.born
  {
  }

  lemma HistoryLocks(h: History, pid: Pid, t: Tid)
    requires HistoryOk(h) && pid in h.born && t in h.started && h.started[t].pid == pid
    ensures HistoryOk(h.(order := h.order[pid := OrderOf(h, pid) + [t]]))
  {
    var h' := h.(order := h.order[pid := OrderOf(h, pid) + [t]]);
    forall p, u | u in OrderOf(h', p) ensures u in h'.started && h'.started[u].pid == p && p in h'.born {
      if p == pid {
        assert OrderOf(h', p) == OrderOf(h, p) + [t];
      } else {
        assert OrderOf(h', p) == OrderOf(h, p);
      }
      if u in OrderOf(h, p) { LockedIsStarted(h, p, u); }
    }
    forall u | u in h'.committed ensures u in h'.started { assert u in h.committed; }
    assert HistoryOk(h');
  }

  lemma Unborn(h: History, pid: Pid)
    requires HistoryOk(h) && pid !in h.born
    ensures OrderOf(h, pid) == []
  {
    if OrderOf(h, pid) != [] { LockedIsStarted(h, pid, OrderOf(h, pid)[0]); }
  }

  lemma StartKeeps(s: State, t: Tid, pid: Pid, op: Op)
    requires Inv(s) && t !in s.h.started
    ensures Inv(Act(s, Start(t, pid, op)))
  {
    hide Next, Stmts, ExecuteAll, ReadMilestone;
    var s' := Act(s, Start(t, pid, op));
    HistoryGrows(s.h, s'.h);
    forall p | p in s'.trees ensures SerialAt(s'.trees, s'.h, p) {
      assert SerialAt(s.trees, s.h, p);
      SeriallySame(s.h.born[p], OrderOf(s.h, p), s.h.started, s.h.committed, s'.h.started, s'.h.committed);
    }
  }

  lemma CreateKeeps(s: State, a: Action)
    requires Inv(s) && a.Create? && a.pid !in s.trees
    ensures Inv(Act(s, a))
  {
    hide Next, Stmts, ExecuteAll, ReadMilestone, NewTree;
    var s' := Act(s, a);
    HistoryGrows(s.h, s'.h);
    forall p | p in s'.trees ensures SerialAt(s'.trees, s'.h, p) {
      if p != a.pid {
        assert SerialAt(s.trees, s.h, p);
      } else {
        Unborn(s.h, p);
      }
    }
  }

  /** A transition that changes only t's own stage, or removes t, keeps the invariant. */
  lemma OwnStageKeeps(s: State, s': State, t: Tid)
    requires Inv(s) && t in s.txs
    requires t in s'.txs ==> s' == Put(s, t, s'.txs[t].stage) && !s.txs[t].stage.Lock? && !s'.txs[t].stage.Lock?
                             && ReadsOk(s.trees, s'.txs[t])
    requires t !in s'.txs ==> s' == Fail(s, t)
    ensures Inv(s')
  {
    hide ReadsOk, AllSerial, HistoryOk;
  }

  lemma LockKeeps(s: State, t: Tid)
    requires Inv(s) && t in s.txs && s.txs[t].stage.Lock? && s.txs[t].pid in s.trees && !Locked(s, s.txs[t].pid)
    requires !s.trees[s.txs[t].pid].project.deleted
    ensures Inv(Step(s, t))
  {
    hide Next, Stmts, ExecuteAll, ReadMilestone, Decide;
    var s', pid := Step(s, t), s.txs[t].pid;
    var order := OrderOf(s.h, pid);
    assert QueueOk(s.h, t, s.txs[t]) && SerialAt(s.trees, s.h, pid);
    assert OrderOf(s'.h, pid) == order + [t] && (order + [t])[..|order|] == order;
    assert forall p :: p != pid ==> OrderOf(s'.h, p) == OrderOf(s.h, p);
    HistoryLocks(s.h, pid, t);
    forall p | p in s'.trees ensures SerialAt(s'.trees, s'.h, p) { assert SerialAt(s.trees, s.h, p); }
    forall u | u in s'.txs ensures ReadsOk(s'.trees, s'.txs[u]) && QueueOk(s'.h, u, s'.txs[u]) {
      assert QueueOk(s.h, u, s.txs[u]) && ReadsOk(s.trees, s.txs[u]);
      assert u != t ==> !Holds(s.txs[u], pid);
    }
  }

  /** The committed view is the result of the whole transaction. */
  lemma CommitApplies(s: State, t: Tid)
    requires Inv(s) && t in s.txs && s.txs[t].stage.Write? && s.txs[t].stage.todo == []
    ensures var x := s.txs[t];
            x.pid in s.trees
            && Step(s, t) == State(s.trees[x.pid := Next(s.trees[x.pid], x.op)], s.txs - {t},
                                   s.h.(committed := s.h.committed + {t}))
  {
    hide HistoryOk, AllSerial, Exclusive, QueueOk, Decide;
    var x := s.txs[t];
    assert ReadsOk(s.trees, x);
    assert x.stage.done + x.stage.todo == x.stage.done;
  }

  lemma CommitKeeps(s: State, t: Tid)
    requires Inv(s) && t in s.txs && s.txs[t].stage.Write? && s.txs[t].stage.todo == []
    ensures Inv(Step(s, t))
  {
    hide Next, Step, Stmts, ExecuteAll, ReadMilestone;
    CommitApplies(s, t);
    var x, s' := s.txs[t], Step(s, t);
    var pid, order := x.pid, OrderOf(s.h, x.pid);
    assert QueueOk(s.h, t, x);
    HistoryGrows(s.h, s'.h);
    forall p | p in s'.trees ensures SerialAt(s'.trees, s'.h, p) {
      assert SerialAt(s.trees, s.h, p);
      var others := if p == pid then order[..|order| - 1] else OrderOf(s.h, p);
      assert forall u :: u in others ==> u in OrderOf(s.h, p);
      SeriallySame(s.h.born[p], others, s.h.started, s.h.committed, s'.h.started, s'.h.committed);
    }
    forall u | u in s'.txs ensures ReadsOk(s'.trees, s'.txs[u]) && QueueOk(s'.h, u, s'.txs[u]) {
      assert QueueOk(s.h, u, s.txs[u]) && ReadsOk(s.trees, s.txs[u]);
    }
  }

  lemma StepKeeps(s: State, t: Tid)
    requires Inv(s) && t in s.txs
    ensures Inv(Step(s, t))
  {
    var x := s.txs[t];
    assert ReadsOk(s.trees, x);
    hide HistoryOk, AllSerial, Exclusive, QueueOk, Next, Decide;
    if x.pid !in s.trees {
      OwnStageKeeps(s, Step(s, t), t);
    } else if x.stage.Lock? {
      if !Locked(s, x.pid) {
        if s.trees[x.pid].project.deleted { OwnStageKeeps(s, Step(s, t), t); } else { LockKeeps(s, t); }
      }
    } else if x.stage.Write? && x.stage.todo == [] {
      CommitKeeps(s, t);
    } else {
      if x.stage.Write? {
        assert (x.stage.done + [x.stage.todo[0]]) + x.stage.todo[1..] == x.stage.done + x.stage.todo;
      } else if x.stage.ReadRest? {
        assert forall stmts: seq<Stmt> :: [] + stmts == stmts;
      }
      OwnStageKeeps(s, Step(s, t), t);
    }
  }

  lemma {:induction false} TraceKeeps(tr: seq<State>, acts: seq<Action>, n: nat)
    requires IsTrace(tr, acts) && n < |tr|
    ensures Inv(tr[n])
  {
    hide Step, NewTree;
    if n > 0 {
      var s, a := tr[n - 1], acts[n - 1];
      TraceKeeps(tr, acts, n - 1);
      match a
      case Create(pid, _, _, _, _, _) => if pid !in s.trees { CreateKeeps(s, a); }
      case Start(t, pid, op) => if t !in s.h.started { StartKeeps(s, t, pid, op); }
      case Advance(t) => if t in s.txs { StepKeeps(s, t); }
      case Abort(t) => if t in s.txs { OwnStageKeeps(s, Fail(s, t), t); } else { assert Fail(s, t) == s; }
    }
  }

  /**
   However statements interleave, each project's committed rows are what its committed transactions produce when
   they run whole, one after the other, in the order in which they took the project row lock.
   */
  lemma InterleavingsAreSerial(tr: seq<State>, acts: seq<Action>, n: nat, pid: Pid)
    requires IsTrace(tr, acts) && n < |tr| && pid in tr[n].trees
    ensures var s := tr[n];
            && pid in s.h.born && (forall t :: t in OrderOf(s.h, pid) ==> t in s.h.started)
            && s.trees[pid] == Serially(s.h.born[pid], OrderOf(s.h, pid), s.h.started, s.h.committed)
  {
    hide Step;
    TraceKeeps(tr, acts, n);
    assert SerialAt(tr[n].trees, tr[n].h, pid);
  }

  // ---------------------------------------------------------------------------------------------------
  // What serial runs keep holds of every interleaving
  // ---------------------------------------------------------------------------------------------------

  /** The serial execution is a run. */
  lemma {:induction false} SerialIsRun(tree: Tree, order: seq<Tid>, started: map<Tid, Tx>, committed: set<Tid>)
    returns (tr: seq<Tree>, ops: seq<Op>)
    requires forall t :: t in order ==> t in started
    ensures Workflow.IsRun(tree, tr, ops) && tr[|ops|] == Serially(tree, order, started, committed)
    decreases |order|
  {
    hide Next;
    if order == [] {
      tr, ops := [tree], [];
    } else {
      var t := order[|order| - 1];
      tr, ops := SerialIsRun(tree, order[..|order| - 1], started, committed);
      if t in committed {
        tr, ops := tr + [Next(tr[|ops|], started[t].op)], ops + [started[t].op];
      }
    }
  }

  ghost predicate BornNew(h: History) {
    forall pid :: pid in h.born ==>
      exists actor, name, text, priority, due :: h.born[pid] == NewTree(actor, name, text, priority, due)
  }

  lemma {:induction false} TraceBorn(tr: seq<State>, acts: seq<Action>, n: nat)
    requires IsTrace(tr, acts) && n < |tr|
    ensures BornNew(tr[n].h)
  {
    if n > 0 {
      TraceBorn(tr, acts, n - 1);
      StepBorn(tr[n - 1], acts[n - 1]);
    }
  }

  lemma StepBorn(s: State, a: Action)
    ensures a.Create? && a.pid !in s.trees ==>
              Act(s, a).h.born == s.h.born[a.pid := NewTree(a.actor, a.name, a.text, a.priority, a.due)]
    ensures !a.Create? || a.pid in s.trees ==> Act(s, a).h.born == s.h.born
  {
  }

  /**
   In every state of every interleaving the committed audit log replays to the committed project and milestone
   rows, and submissions are conserved.
   */
  lemma InterleavedLogIsTheHistory(tr: seq<State>, acts: seq<Action>, n: nat, pid: Pid)
    requires IsTrace(tr, acts) && n < |tr| && pid in tr[n].trees
    ensures ProjectDocumented(tr[n].trees[pid].log, tr[n].trees[pid].project, tr[n].trees[pid].assignments)
    ensures forall mid :: Documented(tr[n].trees[pid].log, mid, Row(tr[n].trees[pid], mid))
  {
    hide Step, Next, NewTree;
    var h := tr[n].h;
    InterleavingsAreSerial(tr, acts, n, pid);
    TraceBorn(tr, acts, n);
    var actor, name, text, priority, due :| h.born[pid] == NewTree(actor, name, text, priority, due);
    var trees, ops := SerialIsRun(h.born[pid], OrderOf(h, pid), h.started, h.committed);
    LogIsTheHistory(trees, ops, |ops|, actor, name, text, priority, due);
  }

  /** A step leaves a project's committed rows alone or applies one whole transaction to them. */
  lemma StepContinues(s: State, a: Action, pid: Pid) returns (op: Option<Op>)
    requires Inv(s) && pid in s.trees
    ensures pid in Act(s, a).trees
    ensures Act(s, a).trees[pid] == if op.Some? then Next(s.trees[pid], op.value) else s.trees[pid]
  {
    hide Next, NewTree, Inv;
    op := None;
    if a.Advance? && a.t in s.txs && s.txs[a.t].stage.Write? && s.txs[a.t].stage.todo == [] {
      CommitApplies(s, a.t);
      if s.txs[a.t].pid == pid { op := Some(s.txs[a.t].op); }
    }
  }

  /** The committed rows of a project at i and at j are the ends of a serial run through committed rows. */
  lemma {:induction false} Continues(tr: seq<State>, acts: seq<Action>, i: nat, j: nat, pid: Pid)
    returns (run: seq<Tree>, ops: seq<Op>)
    requires IsTrace(tr, acts) && i <= j < |tr| && pid in tr[i].trees
    ensures pid in tr[j].trees && Workflow.IsRun(tr[i].trees[pid], run, ops) && run[|ops|] == tr[j].trees[pid]
    ensures forall n :: 0 <= n < |run| ==> exists l :: i <= l <= j && pid in tr[l].trees && run[n] == tr[l].trees[pid]
    decreases j
  {
    hide Next, Act;
    if i == j {
      run, ops := [tr[i].trees[pid]], [];
    } else {
      run, ops := Continues(tr, acts, i, j - 1, pid);
      TraceKeeps(tr, acts, j - 1);
      var op := StepContinues(tr[j - 1], acts[j - 1], pid);
      assert tr[j] == Act(tr[j - 1], acts[j - 1]);
      if op.Some? { run, ops := run + [tr[j].trees[pid]], ops + [op.value]; }
    }
  }

  /** Over any segment of any interleaving sign-offs, completion times and revisions are kept. */
  lemma InterleavedSignOffsAreKept(tr: seq<State>, acts: seq<Action>, i: nat, j: nat, pid: Pid, mid: Mid)
    requires IsTrace(tr, acts) && i <= j < |tr| && pid in tr[i].trees && mid in tr[i].trees[pid].milestones
    ensures pid in tr[j].trees && mid in tr[j].trees[pid].milestones
    ensures Kept(tr[i].trees[pid].milestones[mid], tr[j].trees[pid].milestones[mid])
  {
    hide Next, Act;
    var run, ops := Continues(tr, acts, i, j, pid);
    SignOffsAreKept(tr[i].trees[pid], run, ops, 0, |ops|, mid);
  }

  /** While a project stays archived or cancelled in every committed state, its content stands still. */
  lemma InterleavedFrozenStandStill(tr: seq<State>, acts: seq<Action>, i: nat, j: nat, pid: Pid)
    requires IsTrace(tr, acts) && i <= j < |tr| && pid in tr[i].trees
    requires forall l :: i <= l <= j && pid in tr[l].trees ==> Frozen(tr[l].trees[pid].project.status)
    ensures pid in tr[j].trees && Content(tr[j].trees[pid]) == Content(tr[i].trees[pid])
  {
    hide Next, Act;
    var run, ops := Continues(tr, acts, i, j, pid);
    FrozenProjectsStandStill(tr[i].trees[pid], run, ops, 0, |ops|);
  }

  /** A cancelled project is cancelled, with its content, for the rest of the interleaving. */
  lemma InterleavedCancelledIsForEver(tr: seq<State>, acts: seq<Action>, i: nat, j: nat, pid: Pid)
    requires IsTrace(tr, acts) && i <= j < |tr| && pid in tr[i].trees
    requires tr[i].trees[pid].project.status == ProjectStatus.Cancelled
    ensures pid in tr[j].trees && tr[j].trees[pid].project.status == ProjectStatus.Cancelled
    ensures Content(tr[j].trees[pid]) == Content(tr[i].trees[pid])
  {
    hide Next, Act;
    var run, ops := Continues(tr, acts, i, j, pid);
    CancelledIsForEver(tr[i].trees[pid], run, ops, 0, |ops|);
  }

  /** A soft-deleted project never changes again. */
  lemma InterleavedDeletedIsForEver(tr: seq<State>, acts: seq<Action>, i: nat, j: nat, pid: Pid)
    requires IsTrace(tr, acts) && i <= j < |tr| && pid in tr[i].trees && tr[i].trees[pid].project.deleted
    ensures pid in tr[j].trees && tr[j].trees[pid] == tr[i].trees[pid]
  {
    hide Next, Act;
    var run, ops := Continues(tr, acts, i, j, pid);
    DeletedIsForEver(tr[i].trees[pid], run, ops, 0, |ops|);
  }
}
