/** Task rows under concurrent writers. */
module V3Tasks {
  import opened Basics
  import opened V3Lifecycles

  // Every SQL statement is one atomic step guarded by the row's version; a client may act on any
  // row it has ever read.

  type TaskId = string
  type SessionId = string

  datatype RecoveryCondition =
    | NoCondition | NeedsSupervisorReconciliation | NoLiveProcessAssumed | SessionRecoveryRequired | CorruptStoredState

  datatype WorkflowMode = Manual | AutoIntegrate | DirectEdit

  datatype TaskRow = TaskRow(
    lifecycle: TaskLifecycle,
    condition: RecoveryCondition,
    previous: Option<TaskLifecycle>,
    mode: WorkflowMode,
    version: nat,
    updatedAt: int,
    terminalAt: Option<int>
  )

  datatype SessionRow = SessionRow(
    task: TaskId,
    lifecycle: SessionLifecycle,
    condition: RecoveryCondition,
    version: nat,
    updatedAt: int,
    terminalAt: Option<int>
  )

  datatype Error = InvalidTransition | Conflict | NotFound | Storage | CorruptState

  /** Every committed version of a row, oldest first; the stored row is the last one. */
  type History = h: seq<TaskRow> | h != [] witness [NewRow(0)]

  type Tasks = map<TaskId, History>

  datatype Db = Db(tasks: Tasks, sessions: map<SessionId, SessionRow>)

  /** What `task_from` accepts when it reads a row. */
  predicate RowOk(row: TaskRow) {
    && !(row.lifecycle == Recovering && (row.previous == None || row.condition == NoCondition))
    && Terminal(row.lifecycle) == row.terminalAt.Some?
  }

  function NewRow(at: int): TaskRow {
    TaskRow(Draft, NoCondition, None, Manual, 0, at, None)
  }

  /** The columns an unconditional lifecycle update writes. */
  function Moved(row: TaskRow, next: TaskLifecycle, condition: RecoveryCondition,
                 previous: Option<TaskLifecycle>, at: int): TaskRow {
    row.(lifecycle := next, condition := condition, previous := previous, version := row.version + 1,
         updatedAt := at, terminalAt := if Terminal(next) then Some(at) else None)
  }

  function Remoded(row: TaskRow, mode: WorkflowMode, at: int): TaskRow {
    row.(mode := mode, version := row.version + 1, updatedAt := at)
  }

  function RecoveringRow(row: TaskRow, at: int): TaskRow {
    Moved(row, Recovering, NoLiveProcessAssumed, Some(row.lifecycle), at)
  }

  /** `UPDATE ... WHERE id=? AND version=?`. */
  predicate Matches(tasks: Tasks, id: TaskId, version: nat) {
    id in tasks && Last(tasks[id]).version == version
  }

  function Commit(tasks: Tasks, id: TaskId, row: TaskRow): Tasks
    requires id in tasks
  {
    tasks[id := tasks[id] + [row]]
  }

  // ---------- Interleavings of clients ----------

  /** Steps name the row they act on by its place in the row's history: that is the snapshot
      the client holds, however stale. */
  datatype Action =
    | Create(id: TaskId, at: int)
    | Transition(id: TaskId, snapshot: nat, next: TaskLifecycle, at: int)
    | SetMode(id: TaskId, snapshot: nat, mode: WorkflowMode, at: int)
    | Recover(id: TaskId, snapshot: nat, at: int)

  /** A client can hold a row only if reading it succeeded. */
  predicate Held(tasks: Tasks, id: TaskId, snapshot: nat) {
    id in tasks && snapshot < |tasks[id]| && RowOk(tasks[id][snapshot])
  }

  predicate Recoverable(l: TaskLifecycle) {
    !Terminal(l) && l != Draft && l != Recovering
  }

  function Next(tasks: Tasks, a: Action): Tasks {
    match a
    case Create(id, at) => if id in tasks then tasks else tasks[id := [NewRow(at)]]
    case Transition(id, k, next, at) =>
      if Held(tasks, id, k) && TaskEdge(tasks[id][k].lifecycle, next) && Matches(tasks, id, tasks[id][k].version)
      then Commit(tasks, id, Moved(Last(tasks[id]), next, NoCondition, None, at))
      else tasks
    case SetMode(id, k, mode, at) =>
      if Held(tasks, id, k) && Matches(tasks, id, tasks[id][k].version)
      then Commit(tasks, id, Remoded(Last(tasks[id]), mode, at))
      else tasks
    case Recover(id, k, at) =>
      if Held(tasks, id, k) && Recoverable(tasks[id][k].lifecycle) && Matches(tasks, id, tasks[id][k].version)
      then Commit(tasks, id, Moved(Last(tasks[id]), Recovering, NoLiveProcessAssumed, Some(tasks[id][k].lifecycle), at))
      else tasks
  }

  function Exec(actions: seq<Action>): Tasks {
    if actions == [] then map[] else Next(Exec(actions[..|actions| - 1]), actions[|actions| - 1])
  }

  /** One commit: the mode alone changes, or the lifecycle follows an edge of the table. */
  predicate CommitEdge(row: TaskRow, next: TaskRow) {
    || next == row.(mode := next.mode, version := row.version + 1, updatedAt := next.updatedAt)
    || (TaskEdge(row.lifecycle, next.lifecycle) && next.mode == row.mode)
  }

  /** A row's recovery memory: set only while recovering, and then to where recovery came from. */
  predicate MemoryOk(row: TaskRow) {
    row.previous.Some? ==> row.lifecycle == Recovering && Recoverable(row.previous.value)
  }

  /** Every version is committed exactly once, in order; only the last row can be unreadable. */
  ghost predicate HistoryInv(h: seq<TaskRow>) {
    && h != []
    && (forall k :: 0 <= k < |h| ==> h[k].version == k && MemoryOk(h[k]))
    && (forall k :: 0 <= k < |h| ==> Terminal(h[k].lifecycle) == h[k].terminalAt.Some?)
    && (forall k :: 0 <= k < |h| - 1 ==> RowOk(h[k]) && CommitEdge(h[k], h[k + 1]))
  }

  ghost predicate TasksInv(tasks: Tasks) {
    forall id :: id in tasks ==> HistoryInv(tasks[id])
  }

  lemma {:induction false} CommitKeepsHistory(h: seq<TaskRow>, row: TaskRow)
    requires HistoryInv(h) && RowOk(Last(h)) && CommitEdge(Last(h), row) && MemoryOk(row)
    requires row.version == |h| && Terminal(row.lifecycle) == row.terminalAt.Some?
    ensures HistoryInv(h + [row])
  {
    var g := h + [row];
    forall k | 0 <= k < |g| - 1 ensures RowOk(g[k]) && CommitEdge(g[k], g[k + 1]) {
      assert g[k] == h[k];
      assert k < |h| - 1 ==> g[k + 1] == h[k + 1];
    }
  }

  /** A matching version means that the client's snapshot is the stored row. */
  lemma {:induction false} FreshSnapshot(h: seq<TaskRow>, snapshot: nat)
    requires HistoryInv(h) && snapshot < |h|
    ensures h[snapshot].version == Last(h).version <==> snapshot == |h| - 1
  {
  }

  lemma {:induction false} NextKeepsInv(tasks: Tasks, a: Action)
    requires TasksInv(tasks)
    ensures TasksInv(Next(tasks, a))
  {
    var next := Next(tasks, a);
    if a.id in tasks && next != tasks {
      var h := tasks[a.id];
      FreshSnapshot(h, a.snapshot);
      RecoveryEdges(Last(h).lifecycle);
      CommitKeepsHistory(h, Last(next[a.id]));
    }
  }

  lemma {:induction false} ExecInv(actions: seq<Action>)
    ensures TasksInv(Exec(actions))
  {
    if actions != [] {
      ExecInv(actions[..|actions| - 1]);
      NextKeepsInv(Exec(actions[..|actions| - 1]), actions[|actions| - 1]);
    }
  }

  /** Optimistic concurrency is sound, for any interleaving of clients holding stale rows: each
      version is committed once, a snapshot whose version matches is the stored row, and the
      stored lifecycles only ever follow the table, the edges recovery writes unchecked included. */
  lemma {:induction false} OptimisticConcurrency(actions: seq<Action>, id: TaskId, i: nat, j: nat)
    requires id in Exec(actions) && i < |Exec(actions)[id]| && j < |Exec(actions)[id]|
    ensures var h := Exec(actions)[id];
            && h[i].version == i
            && (Matches(Exec(actions), id, h[i].version) ==> h[i] == Last(h))
            && (j == i + 1 ==> h[j].lifecycle == h[i].lifecycle || TaskEdge(h[i].lifecycle, h[j].lifecycle))
  {
    ExecInv(actions);
    var h := Exec(actions)[id];
    FreshSnapshot(h, i);
    assert j == i + 1 ==> CommitEdge(h[i], h[i + 1]);
  }

  /** The effect of every step on any reachable table: a client's step writes one row exactly if the row it
      holds is the stored one, can be read and may move so; and this is the row. */
  lemma {:induction false} StepExactly(actions: seq<Action>, a: Action)
    ensures var t, u, id := Exec(actions), Exec(actions + [a]), a.id;
            if a.Create? then
              u == if id in t then t else t[id := [TaskRow(Draft, NoCondition, None, Manual, 0, a.at, None)]]
            else if id !in t || a.snapshot != |t[id]| - 1 || !RowOk(Last(t[id])) then u == t
            else
              var h, row := t[id], Last(t[id]);
              match a
              case Transition(_, _, next, at) =>
                u == if !TaskEdge(row.lifecycle, next) then t
                     else t[id := h + [TaskRow(next, NoCondition, None, row.mode, |h|, at, EndOf(next, at))]]
              case SetMode(_, _, mode, at) =>
                u == t[id := h + [TaskRow(row.lifecycle, row.condition, row.previous, mode, |h|, at, row.terminalAt)]]
              case Recover(_, _, at) =>
                u == if row.lifecycle !in EnteredFrom(Recovering) then t
                     else t[id := h + [TaskRow(Recovering, NoLiveProcessAssumed, Some(row.lifecycle), row.mode, |h|, at, None)]]
  {
    assert (actions + [a])[..|actions|] == actions;
    ExecInv(actions);
    var t := Exec(actions);
    if a.id in t && !a.Create? {
      var h := t[a.id];
      if a.snapshot < |h| {
        FreshSnapshot(h, a.snapshot);
      }
      RecoveryEdges(Last(h).lifecycle);
      TaskEdgesExactly(Last(h).lifecycle, Recovering);
    }
  }

  /** A finished task has the time at which it finished. */
  function EndOf(next: TaskLifecycle, at: int): Option<int> {
    if next in {Blocked, Finalized, Integrated, Completed, Cancelled, Failed} then Some(at) else None
  }

  /** A row can be read exactly if it remembers where recovery began and has an end time exactly when finished. */
  lemma {:induction false} ReadableExactly(row: TaskRow)
    ensures RowOk(row) <==>
              && (row.lifecycle == Recovering ==> row.previous.Some? && row.condition != NoCondition)
              && (row.terminalAt.Some? <==> row.lifecycle in {Blocked, Finalized, Integrated, Completed, Cancelled, Failed})
  {
  }

  /** No step ever rewrites or drops a committed row. */
  lemma {:induction false} CommittedRowsStay(actions: seq<Action>, a: Action, id: TaskId)
    requires id in Exec(actions)
    ensures id in Exec(actions + [a]) && Extends(Exec(actions)[id], Exec(actions + [a])[id])
  {
    assert (actions + [a])[..|actions|] == actions;
    var h := Exec(actions)[id];
    assert h[..|h|] == h;
    assert |Exec(actions + [a])[id]| > |h| ==> Exec(actions + [a])[id][..|h|] == h;
  }

  /** A finished task stays where it is; `Blocked` is the one terminal lifecycle that can be left. */
  lemma {:induction false} FinishedStaysFinished(actions: seq<Action>, id: TaskId, i: nat, j: nat)
    requires id in Exec(actions) && i <= j < |Exec(actions)[id]|
    requires Terminal(Exec(actions)[id][i].lifecycle) && Exec(actions)[id][i].lifecycle != Blocked
    ensures Exec(actions)[id][j].lifecycle == Exec(actions)[id][i].lifecycle
  {
    if i < j {
      FinishedStaysFinished(actions, id, i, j - 1);
      OptimisticConcurrency(actions, id, j - 1, j);
      NoWayOut(Exec(actions)[id][i].lifecycle);
    }
  }

  /** `transition_task` leaves a row that can be read again exactly when it does not move to `Recovering`. */
  lemma {:induction false} TransitionReadable(row: TaskRow, next: TaskLifecycle, at: int)
    ensures RowOk(Moved(row, next, NoCondition, None, at)) <==> next != Recovering
    ensures Recoverable(row.lifecycle) ==> RowOk(RecoveringRow(row, at))
  {
  }

  /** An unreadable row is the end of its task: no client can hold it, and every row a client
      can hold is out of date. */
  lemma {:induction false} UnreadableIsFinal(actions: seq<Action>, a: Action, id: TaskId)
    requires id in Exec(actions) && !RowOk(Last(Exec(actions)[id]))
    ensures id in Exec(actions + [a]) && Exec(actions + [a])[id] == Exec(actions)[id]
  {
    assert (actions + [a])[..|actions|] == actions;
    ExecInv(actions);
    if a.id == id && !a.Create? && Held(Exec(actions), id, a.snapshot) {
      FreshSnapshot(Exec(actions)[id], a.snapshot);
    }
  }

  /** If `Recovering` is entered by recovery alone, every stored row can be read back. */
  lemma {:induction false} RecoveryOnlyRunsAreReadable(actions: seq<Action>, id: TaskId, k: nat)
    requires forall i :: 0 <= i < |actions| ==> !(actions[i].Transition? && actions[i].next == Recovering)
    requires id in Exec(actions) && k < |Exec(actions)[id]|
    ensures RowOk(Exec(actions)[id][k])
  {
    var n := |actions| - 1;
    var before := Exec(actions[..n]);
    ExecInv(actions[..n]);
    if id in before && k < |before[id]| {
      RecoveryOnlyRunsAreReadable(actions[..n], id, k);
    } else if id in before {
      RecoveryOnlyRunsAreReadable(actions[..n], id, |before[id]| - 1);
      assert !(actions[n].Transition? && actions[n].next == Recovering);
    }
  }
}
