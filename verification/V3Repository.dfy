/** The repository and its recovery. */
module V3Repository {
  import opened Basics
  import opened V3Lifecycles
  import opened V3Tasks

  datatype Task = Task(id: TaskId, row: TaskRow)

  // ---------- What recovery is specified to leave behind ----------

  predicate Unfinished(row: TaskRow) {
    !Terminal(row.lifecycle) && row.lifecycle != Draft
  }

  function Stored(db: Db, id: TaskId): TaskRow
    requires id in db.tasks
  {
    Last(db.tasks[id])
  }

  predicate AllReadable(db: Db) {
    forall id :: id in db.tasks ==> RowOk(Stored(db, id))
  }

  function ReconciledSession(s: SessionRow, at: int): SessionRow {
    if Live(s.lifecycle) then
      s.(lifecycle := RecoveryRequired, condition := SessionRecoveryRequired, version := s.version + 1, updatedAt := at)
    else s
  }

  function RestoredHistory(h: History, at: int): History {
    if Recoverable(Last(h).lifecycle) then h + [RecoveringRow(Last(h), at)] else h
  }

  function RestoredSession(tasks: Tasks, ids: set<TaskId>, s: SessionRow, at: int): SessionRow {
    if s.task in ids && s.task in tasks && Unfinished(Last(tasks[s.task])) then ReconciledSession(s, at) else s
  }

  /** The tables after the unfinished tasks among `ids`, and their sessions, went into recovery. */
  function Restored(db: Db, ids: set<TaskId>, at: int): Db {
    Db(map id | id in db.tasks :: if id in ids then RestoredHistory(db.tasks[id], at) else db.tasks[id],
       map sid | sid in db.sessions :: RestoredSession(db.tasks, ids, db.sessions[sid], at))
  }

  class V3Repository {
    var tasks: Tasks
    var sessions: map<SessionId, SessionRow>

    function Contents(): Db
      reads this
    {
      Db(tasks, sessions)
    }

    constructor ()
      ensures Contents() == Db(map[], map[])
    {
      tasks, sessions := map[], map[];
    }

    method CreateTask(id: TaskId, at: int) returns (r: Result<Task, Error>)
      modifies this
      ensures sessions == old(sessions)
      ensures tasks == Next(old(tasks), Create(id, at))
      ensures r == if id in old(tasks) then Err(Storage) else Ok(Task(id, NewRow(at)))
    {
      if id in tasks {
        return Err(Storage);
      }
      tasks := tasks[id := [NewRow(at)]];
      return Ok(Task(id, NewRow(at)));
    }

    method GetTask(id: TaskId) returns (r: Result<Task, Error>)
      ensures r == if id !in tasks then Err(NotFound)
                   else if RowOk(Last(tasks[id])) then Ok(Task(id, Last(tasks[id])))
                   else Err(CorruptState)
    {
      if id !in tasks {
        return Err(NotFound);
      }
      var row := Last(tasks[id]);
      r := if RowOk(row) then Ok(Task(id, row)) else Err(CorruptState);
    }

    method UpdateTask(task: Task, next: TaskLifecycle, condition: RecoveryCondition,
                      previous: Option<TaskLifecycle>, at: int)
      returns (r: Result<Task, Error>)
      modifies this
      ensures sessions == old(sessions)
      ensures !Matches(old(tasks), task.id, task.row.version) ==> r == Err(Conflict) && tasks == old(tasks)
      ensures Matches(old(tasks), task.id, task.row.version) ==>
                var row := Moved(Last(old(tasks)[task.id]), next, condition, previous, at);
                && tasks == Commit(old(tasks), task.id, row)
                && r == if RowOk(row) then Ok(Task(task.id, row)) else Err(CorruptState)
    {
      if !Matches(tasks, task.id, task.row.version) {
        return Err(Conflict);
      }
      var row := Moved(Last(tasks[task.id]), next, condition, previous, at);
      tasks := tasks[task.id := tasks[task.id] + [row]];
      r := GetTask(task.id);
    }

    /** On a row some client has read, this is the `Transition` step of the interleaving model. */
    method TransitionTask(task: Task, next: TaskLifecycle, at: int) returns (r: Result<Task, Error>)
      modifies this
      ensures sessions == old(sessions)
      ensures forall k: nat :: Held(old(tasks), task.id, k) && old(tasks)[task.id][k] == task.row ==>
                tasks == Next(old(tasks), Transition(task.id, k, next, at))
      ensures r == Err(InvalidTransition) <==> !TaskEdge(task.row.lifecycle, next)
      ensures r == Err(Conflict) <==>
                TaskEdge(task.row.lifecycle, next) && !Matches(old(tasks), task.id, task.row.version)
      ensures r.Err? && r.error != CorruptState ==> tasks == old(tasks)
    {
      if !TaskEdge(task.row.lifecycle, next) {
        return Err(InvalidTransition);
      }
      r := UpdateTask(task, next, NoCondition, None, at);
    }

    method SetTaskWorkflowMode(task: Task, mode: WorkflowMode, at: int) returns (r: Result<Task, Error>)
      modifies this
      ensures sessions == old(sessions)
      ensures forall k: nat :: Held(old(tasks), task.id, k) && old(tasks)[task.id][k] == task.row ==>
                tasks == Next(old(tasks), SetMode(task.id, k, mode, at))
      ensures r == Err(Conflict) <==> !Matches(old(tasks), task.id, task.row.version)
    {
      if !Matches(tasks, task.id, task.row.version) {
        return Err(Conflict);
      }
      tasks := tasks[task.id := tasks[task.id] + [Remoded(Last(tasks[task.id]), mode, at)]];
      r := GetTask(task.id);
    }

    method TransitionSession(id: SessionId, snapshot: SessionRow, next: SessionLifecycle, at: int)
      returns (r: Result<SessionRow, Error>)
      modifies this
      ensures tasks == old(tasks)
      ensures r.Err? ==> sessions == old(sessions)
      ensures r.Ok? <==> SessionEdge(snapshot.lifecycle, next) && id in old(sessions)
                         && old(sessions)[id].version == snapshot.version
      ensures r.Ok? ==>
                && sessions == old(sessions)[id := r.value]
                && r.value == old(sessions)[id].(lifecycle := next, condition := NoCondition,
                                                 version := snapshot.version + 1, updatedAt := at,
                                                 terminalAt := if SessionTerminal(next) then Some(at) else None)
    {
      if !SessionEdge(snapshot.lifecycle, next) {
        return Err(InvalidTransition);
      }
      if id !in sessions || sessions[id].version != snapshot.version {
        return Err(Conflict);
      }
      var terminalAt := if SessionTerminal(next) then Some(at) else None;
      var row := sessions[id].(lifecycle := next, condition := NoCondition,
                               version := sessions[id].version + 1, updatedAt := at, terminalAt := terminalAt);
      sessions := sessions[id := row];
      r := Ok(row);
    }

    /** One statement over the task's sessions. */
    method ReconcileTaskSessions(id: TaskId, at: int)
      modifies this
      ensures tasks == old(tasks)
      ensures sessions == map sid | sid in old(sessions) ::
                            var s := old(sessions)[sid];
                            if s.task == id then ReconciledSession(s, at) else s
    {
      sessions := map sid | sid in sessions ::
        var s := sessions[sid];
        if s.task == id then ReconciledSession(s, at) else s;
    }

    method RestoreUnfinishedTask(id: TaskId, at: int) returns (r: Result<Task, Error>)
      modifies this
      ensures id in old(tasks) && RowOk(Last(old(tasks)[id])) ==>
                && Contents() == Restored(old(Contents()), {id}, at)
                && r == Ok(Task(id, Last(tasks[id])))
      ensures !(id in old(tasks) && RowOk(Last(old(tasks)[id]))) ==>
                r == Err(if id in old(tasks) then CorruptState else NotFound) && Contents() == old(Contents())
    {
      r := GetTask(id);
      if r.Err? {
        return;
      }
      var task := r.value;
      if Terminal(task.row.lifecycle) || task.row.lifecycle == Draft {
        return;
      }
      if task.row.lifecycle == Recovering {
        ReconcileTaskSessions(id, at);
        return;
      }
      r := UpdateTask(task, Recovering, NoLiveProcessAssumed, Some(task.row.lifecycle), at);
      ReconcileTaskSessions(id, at);
    }

    /** Every stored row, in some order; one unreadable row fails the whole listing. */
    method ListTasks() returns (r: Result<seq<Task>, Error>)
      ensures r.Ok? <==> AllReadable(Contents())
      ensures r.Err? ==> r.error == CorruptState
      ensures r.Ok? ==> Listing(Contents(), r.value) && Ids(r.value) == tasks.Keys
    {
      var listed: seq<Task> := [];
      var todo := tasks.Keys;
      while todo != {}
        invariant todo <= tasks.Keys
        invariant Listing(Contents(), listed) && Ids(listed) == tasks.Keys - todo
        invariant forall id :: id in tasks && id !in todo ==> RowOk(Last(tasks[id]))
        decreases todo
      {
        var id :| id in todo;
        var row := Last(tasks[id]);
        if !RowOk(row) {
          assert !RowOk(Stored(Contents(), id));
          return Err(CorruptState);
        }
        assert (listed + [Task(id, row)])[..|listed|] == listed;
        listed := listed + [Task(id, row)];
        todo := todo - {id};
      }
      return Ok(listed);
    }

    /** Moves every unfinished task into recovery, one task at a time. */
    method RestoreUnfinishedTasks(at: int) returns (r: Result<seq<Task>, Error>)
      modifies this
      ensures r.Ok? <==> AllReadable(old(Contents()))
      ensures r.Err? ==> r.error == CorruptState && Contents() == old(Contents())
      ensures r.Ok? ==> Contents() == Restored(old(Contents()), old(tasks).Keys, at)
      ensures r.Ok? ==> forall task :: task in r.value <==> NewlyRecovering(old(Contents()), task, at)
    {
      var listing := ListTasks();
      if listing.Err? {
        return Err(listing.error);
      }
      var listed := listing.value;
      var restored: seq<Task> := [];
      ghost var before := Contents();
      RestoredNone(before, at);
      for i := 0 to |listed|
        invariant AllReadable(before)
        invariant Contents() == Restored(before, Ids(listed[..i]), at)
        invariant restored == Reported(listed[..i], at)
      {
        var task := listed[i];
        RestoreStep(before, listed, i, at);
        if Unfinished(task.row) {
          var wasRecovering := task.row.lifecycle == Recovering;
          var updated := RestoreUnfinishedTask(task.id, at);
          if !wasRecovering {
            restored := restored + [updated.value];
          }
        }
      }
      assert listed[..|listed|] == listed;
      ReportedExactly(before, listed, at);
      return Ok(restored);
    }
  }

  function Ids(listed: seq<Task>): set<TaskId> {
    if listed == [] then {} else Ids(listed[..|listed| - 1]) + {listed[|listed| - 1].id}
  }

  /** Stored rows, each task once. */
  ghost predicate Listing(db: Db, listed: seq<Task>) {
    listed == [] ||
    var last := listed[|listed| - 1];
    && Listing(db, listed[..|listed| - 1]) && last.id !in Ids(listed[..|listed| - 1])
    && last.id in db.tasks && last.row == Stored(db, last.id)
  }

  lemma {:induction false} ListingStep(db: Db, listed: seq<Task>, i: nat)
    requires Listing(db, listed) && i < |listed|
    ensures listed[i].id in db.tasks && listed[i].row == Stored(db, listed[i].id) && listed[i].id !in Ids(listed[..i])
  {
    var n := |listed| - 1;
    if i < n {
      ListingStep(db, listed[..n], i);
      assert listed[..n][..i] == listed[..i];
    }
  }

  /** What the loop reports: a recovering row for every listed row it moved itself. */
  function Reported(listed: seq<Task>, at: int): seq<Task> {
    if listed == [] then []
    else
      var n := |listed| - 1;
      Reported(listed[..n], at) +
      if Recoverable(listed[n].row.lifecycle) then [Task(listed[n].id, RecoveringRow(listed[n].row, at))] else []
  }

  /** What one round of the loop relies on and has to achieve. */
  lemma {:induction false} RestoreStep(db: Db, listed: seq<Task>, i: nat, at: int)
    requires AllReadable(db) && Listing(db, listed) && i < |listed|
    ensures var some, task := Restored(db, Ids(listed[..i]), at), listed[i];
            && task.id in some.tasks
            && Last(some.tasks[task.id]) == task.row && RowOk(task.row)
            && Restored(some, {task.id}, at) == Restored(db, Ids(listed[..i + 1]), at)
            && (!Unfinished(task.row) ==> some == Restored(db, Ids(listed[..i + 1]), at))
            && Restored(some, {task.id}, at).tasks[task.id] == RestoredHistory(some.tasks[task.id], at)
            && Reported(listed[..i + 1], at) == Reported(listed[..i], at) +
                 if Recoverable(task.row.lifecycle) then [Task(task.id, RecoveringRow(task.row, at))] else []
  {
    assert listed[..i + 1][..i] == listed[..i];
    ListingStep(db, listed, i);
    RestoredMore(db, Ids(listed[..i]), listed[i].id, at);
    assert RowOk(Stored(db, listed[i].id));
  }

  ghost predicate NewlyRecovering(db: Db, task: Task, at: int) {
    && task.id in db.tasks && Recoverable(Stored(db, task.id).lifecycle)
    && task.row == RecoveringRow(Stored(db, task.id), at)
  }

  lemma {:induction false} ReportedExactly(db: Db, listed: seq<Task>, at: int)
    requires Listing(db, listed)
    ensures forall task :: task in Reported(listed, at) <==> task.id in Ids(listed) && NewlyRecovering(db, task, at)
  {
    if listed != [] {
      ReportedExactly(db, listed[..|listed| - 1], at);
    }
  }

  lemma {:induction false} RestoredNone(db: Db, at: int)
    ensures Restored(db, {}, at) == db
  {
  }

  /** Restoring one more readable task, whether or not it is unfinished. */
  lemma {:induction false} RestoredMore(db: Db, done: set<TaskId>, id: TaskId, at: int)
    requires id in db.tasks && id !in done
    ensures Restored(db, done, at).tasks[id] == db.tasks[id]
    ensures Restored(Restored(db, done, at), {id}, at) == Restored(db, done + {id}, at)
    ensures !Unfinished(Stored(db, id)) ==> Restored(db, done + {id}, at) == Restored(db, done, at)
  {
    var some, more := Restored(db, done, at), Restored(db, done + {id}, at);
    var both := Restored(some, {id}, at);
    assert both.tasks == more.tasks;
    forall sid | sid in db.sessions ensures both.sessions[sid] == more.sessions[sid] {
      var s := db.sessions[sid];
      assert some.sessions[sid] == RestoredSession(db.tasks, done, s, at);
    }
    assert both.sessions == more.sessions;
    assert !Unfinished(Stored(db, id)) ==> more.tasks == some.tasks && more.sessions == some.sessions;
  }

  // ---------- What that means ----------

  /** After recovery every unfinished task is recovering and remembers a lifecycle it can go
      back from; finished and draft tasks keep their rows; histories stay sound and readable. */
  lemma {:induction false} RecoveryIsTotal(tasks: Tasks, id: TaskId, at: int)
    requires TasksInv(tasks) && id in tasks && RowOk(Last(tasks[id]))
    ensures var before, after := tasks[id], RestoredHistory(tasks[id], at);
            && HistoryInv(after) && RowOk(Last(after)) && Extends(before, after)
            && (Unfinished(Last(before)) ==>
                  && Last(after).lifecycle == Recovering
                  && Last(after).previous.Some? && Recoverable(Last(after).previous.value))
            && (!Unfinished(Last(before)) ==> after == before)
            && var row := Last(before);
            after == if row.lifecycle !in EnteredFrom(Recovering) then before
                     else before + [TaskRow(Recovering, NoLiveProcessAssumed, Some(row.lifecycle), row.mode,
                                            row.version + 1, at, None)]
  {
    var h := tasks[id];
    TaskEdgesExactly(Last(h).lifecycle, Recovering);
    RecoveryEdges(Last(h).lifecycle);
    assert h[..|h|] == h && (h + [RecoveringRow(Last(h), at)])[..|h|] == h;
    assert MemoryOk(h[|h| - 1]);
    if Recoverable(Last(h).lifecycle) {
      CommitKeepsHistory(h, RecoveringRow(Last(h), at));
    }
  }

  /** ... and no session of an unfinished task is live, while the others are as they were. */
  lemma {:induction false} RecoveryStopsSessions(db: Db, sid: SessionId, at: int)
    requires sid in db.sessions && db.sessions[sid].task in db.tasks
    ensures var s, t := db.sessions[sid], Restored(db, db.tasks.Keys, at).sessions[sid];
            && t.task == s.task
            && (Unfinished(Stored(db, s.task)) ==> !Live(t.lifecycle))
            && (!Unfinished(Stored(db, s.task)) || !Live(s.lifecycle) ==> t == s)
            && (t != s ==> SessionEdge(s.lifecycle, t.lifecycle) && t.version == s.version + 1)
            && var of := Stored(db, s.task).lifecycle;
            t == if (of == Recovering || of in EnteredFrom(Recovering)) && s.lifecycle in {Created, Starting, Active, Cancelling}
                 then SessionRow(s.task, RecoveryRequired, SessionRecoveryRequired, s.version + 1, at, s.terminalAt) else s
  {
    TaskEdgesExactly(Stored(db, db.sessions[sid].task).lifecycle, Recovering);
    RecoveryEdges(Stored(db, db.sessions[sid].task).lifecycle);
  }

  /** Running recovery again changes no row and has nothing to return, whenever it runs. */
  lemma {:induction false} RecoveryIsIdempotent(db: Db, at: int, later: int)
    ensures var after := Restored(db, db.tasks.Keys, at);
            && Restored(after, after.tasks.Keys, later) == after
            && forall id :: id in after.tasks ==> !Recoverable(Stored(after, id).lifecycle)
  {
    var after := Restored(db, db.tasks.Keys, at);
    var again := Restored(after, after.tasks.Keys, later);
    assert forall id :: id in after.tasks ==> again.tasks[id] == after.tasks[id];
    assert again.tasks == after.tasks;
    forall sid | sid in after.sessions ensures again.sessions[sid] == after.sessions[sid] {
      var s := db.sessions[sid];
      assert after.sessions[sid] == RestoredSession(db.tasks, db.tasks.Keys, s, at);
      assert s.task in db.tasks ==> (Unfinished(Last(after.tasks[s.task])) <==> Unfinished(Last(db.tasks[s.task])));
    }
    assert again.sessions == after.sessions;
  }
}
