/** The append-only event log of the V3 store. */
module V3Events {
  import opened Basics
  import opened Text

  type EventId = string
  type TaskId = string

  /** An envelope; `body` stands for the columns that no check looks at. */
  datatype Event = Event(
    id: EventId,
    task: TaskId,
    provider: string,
    unknownKind: Option<string>,
    schemaVersion: nat,
    sequence: nat,
    body: string
  )

  datatype Error = InvalidRecord | Conflict | Storage

  const MAX_SEQUENCE: nat := 0x7FFF_FFFF_FFFF_FFFF

  predicate ValidEvent(e: Event) {
    && NonEmpty(e.provider, 128) && e.schemaVersion != 0 && e.sequence <= MAX_SEQUENCE
    && (e.unknownKind.Some? ==> !IsBlank(e.unknownKind.value))
  }

  /** `SELECT MAX(sequence_number) ... WHERE task_id=?`. */
  function Latest(log: seq<Event>, task: TaskId): Option<nat> {
    if log == [] then None
    else
      var e, earlier := log[|log| - 1], Latest(log[..|log| - 1], task);
      if e.task != task || (earlier.Some? && earlier.value >= e.sequence) then earlier else Some(e.sequence)
  }

  /** The event stored under an id; ids are unique. */
  function Find(log: seq<Event>, id: EventId): Option<Event> {
    if log == [] then None
    else if log[|log| - 1].id == id then Some(log[|log| - 1])
    else Find(log[..|log| - 1], id)
  }

  /** Rows in the order of their insertion, and the tasks they may refer to. */
  class EventTable {
    const tasks: set<TaskId>
    var log: seq<Event>

    constructor (tasks: set<TaskId>)
      ensures this.tasks == tasks && log == []
    {
      this.tasks := tasks;
      log := [];
    }

    method AppendEvent(e: Event) returns (r: Result<(), Error>)
      modifies this
      ensures r == Appended(tasks, old(log), e)
      ensures log == AfterAppend(tasks, old(log), e)
    {
      if !ValidEvent(e) {
        return Err(InvalidRecord);
      }
      var found := Find(log, e.id);
      if found.Some? {
        return if found.value == e then Ok(()) else Err(Conflict);
      }
      var latest := Latest(log, e.task);
      if latest.Some? && e.sequence <= latest.value {
        return Err(Conflict);
      }
      r := InsertEvent(e);
    }

    /** The bare insertion: only the table's own constraints are checked. */
    method InsertEvent(e: Event) returns (r: Result<(), Error>)
      modifies this
      ensures r == if Insertable(tasks, old(log), e) then Ok(()) else Err(Storage)
      ensures r.Ok? <==>
                e.task in tasks
                && forall k :: 0 <= k < |old(log)| ==>
                     old(log)[k].id != e.id && !(old(log)[k].task == e.task && old(log)[k].sequence == e.sequence)
      ensures log == if r.Ok? then old(log) + [e] else old(log)
    {
      var i := 0;
      while i < |log|
        invariant i <= |log|
        invariant forall k :: 0 <= k < i ==> !Clashes(log[k], e)
      {
        if log[i].id == e.id || (log[i].task == e.task && log[i].sequence == e.sequence) {
          return Err(Storage);
        }
        i := i + 1;
      }
      if e.task !in tasks {
        return Err(Storage);
      }
      log := log + [e];
      return Ok(());
    }
  }

  predicate Clashes(d: Event, e: Event) {
    d.id == e.id || (d.task == e.task && d.sequence == e.sequence)
  }

  /** Primary key, unique (task, sequence), foreign key. */
  predicate Insertable(tasks: set<TaskId>, log: seq<Event>, e: Event) {
    e.task in tasks && forall k :: 0 <= k < |log| ==> !Clashes(log[k], e)
  }

  function Appended(tasks: set<TaskId>, log: seq<Event>, e: Event): Result<(), Error> {
    if !ValidEvent(e) then Err(InvalidRecord)
    else if Find(log, e.id).Some? then if Find(log, e.id).value == e then Ok(()) else Err(Conflict)
    else if Latest(log, e.task).Some? && e.sequence <= Latest(log, e.task).value then Err(Conflict)
    else if Insertable(tasks, log, e) then Ok(())
    else Err(Storage)
  }

  function AfterAppend(tasks: set<TaskId>, log: seq<Event>, e: Event): seq<Event> {
    if Appended(tasks, log, e) == Ok(()) && Find(log, e.id) == None then log + [e] else log
  }

  // ---------- The log over whole runs ----------

  /** Ids are unique and each task's numbers grow in insertion order. */
  ghost predicate LogInv(log: seq<Event>) {
    forall i, j :: 0 <= i < j < |log| ==>
      log[i].id != log[j].id && (log[i].task == log[j].task ==> log[i].sequence < log[j].sequence)
  }

  lemma {:induction false} FindExact(log: seq<Event>, id: EventId)
    ensures Find(log, id) == None <==> forall k :: 0 <= k < |log| ==> log[k].id != id
    ensures Find(log, id).Some? ==> exists k :: 0 <= k < |log| && log[k] == Find(log, id).value && log[k].id == id
  {
    if log != [] {
      var n := |log| - 1;
      FindExact(log[..n], id);
      if log[n].id != id && Find(log[..n], id).Some? {
        var k :| 0 <= k < n && log[..n][k] == Find(log[..n], id).value && log[..n][k].id == id;
        assert log[k].id == id;
      } else if log[n].id != id {
        assert forall k :: 0 <= k < n ==> log[..n][k] == log[k];
      }
    }
  }

  lemma {:induction false} LatestExact(log: seq<Event>, task: TaskId)
    ensures Latest(log, task) == None <==> forall k :: 0 <= k < |log| ==> log[k].task != task
    ensures forall k :: 0 <= k < |log| && log[k].task == task ==> log[k].sequence <= Latest(log, task).value
    ensures Latest(log, task).Some? ==>
              exists k :: 0 <= k < |log| && log[k].task == task && log[k].sequence == Latest(log, task).value
  {
    if log != [] {
      var n := |log| - 1;
      LatestExact(log[..n], task);
      assert forall k :: 0 <= k < n ==> log[..n][k] == log[k];
    }
  }

  /** One append keeps the log sound and never rewrites it. */
  lemma {:induction false} AppendKeepsInv(tasks: set<TaskId>, log: seq<Event>, e: Event)
    requires LogInv(log)
    ensures LogInv(AfterAppend(tasks, log, e)) && Extends(log, AfterAppend(tasks, log, e))
    ensures Appended(tasks, log, e).Err? ==> AfterAppend(tasks, log, e) == log
  {
    FindExact(log, e.id);
    LatestExact(log, e.task);
    assert (log + [e])[..|log|] == log && log[..|log|] == log;
  }

  /** Text columns of the right size, and numbers that fit. */
  predicate WellFormed(e: Event) {
    && NonEmpty(e.provider, 128) && e.schemaVersion > 0 && e.sequence <= 9_223_372_036_854_775_807
    && (e.unknownKind.Some? ==> exists i :: 0 <= i < |e.unknownKind.value| && !IsWhitespace(e.unknownKind.value[i]))
  }

  /** Exactly when an append stores its event, when it accepts one that is stored already, and what else it answers. */
  lemma {:induction false} AppendsExactly(tasks: set<TaskId>, log: seq<Event>, e: Event)
    requires LogInv(log)
    ensures var r, after, known := Appended(tasks, log, e), AfterAppend(tasks, log, e), exists k :: 0 <= k < |log| && log[k].id == e.id;
            && (after == log + [e] <==>
                  WellFormed(e) && !known && e.task in tasks
                  && forall k :: 0 <= k < |log| && log[k].task == e.task ==> log[k].sequence < e.sequence)
            && (after == log + [e] ==> r == Ok(())) && (after != log + [e] ==> after == log)
            && (known ==> (r == Ok(()) <==> WellFormed(e) && e in log))
            && (r == Err(InvalidRecord) <==> !WellFormed(e))
            && (r == Err(Storage) ==> e.task !in tasks)
  {
    FindExact(log, e.id);
    LatestExact(log, e.task);
    assert |log + [e]| != |log|;
  }

  function Exec(tasks: set<TaskId>, events: seq<Event>): seq<Event> {
    if events == [] then []
    else AfterAppend(tasks, Exec(tasks, events[..|events| - 1]), events[|events| - 1])
  }

  lemma {:induction false} ExtendsChain(a: seq<Event>, b: seq<Event>, c: seq<Event>)
    requires Extends(a, b) && Extends(b, c)
    ensures Extends(a, c)
  {
    assert c[..|a|] == b[..|a|];
  }

  /** Any appends by any writers: the log is strictly increasing per task and append-only. */
  lemma {:induction false} LogIsOrdered(tasks: set<TaskId>, events: seq<Event>, k: nat)
    requires k <= |events|
    ensures LogInv(Exec(tasks, events)) && Extends(Exec(tasks, events[..k]), Exec(tasks, events))
  {
    var n := |events| - 1;
    var log := Exec(tasks, events);
    if k == |events| {
      assert events[..k] == events && log[..|log|] == log;
    }
    if events != [] {
      var front := events[..n];
      var before := Exec(tasks, front);
      LogIsOrdered(tasks, front, if k <= n then k else n);
      AppendKeepsInv(tasks, before, events[n]);
      assert log == AfterAppend(tasks, before, events[n]);
      if k <= n {
        assert front[..k] == events[..k];
        ExtendsChain(Exec(tasks, events[..k]), before, log);
      }
    }
  }

  /** An accepted event can be sent again at any later time: the answer is yes and nothing changes. */
  lemma {:induction false} RetryChangesNothing(tasks: set<TaskId>, log: seq<Event>, later: seq<Event>, e: Event)
    requires LogInv(log) && LogInv(later) && Extends(AfterAppend(tasks, log, e), later)
    requires Appended(tasks, log, e) == Ok(())
    ensures Appended(tasks, later, e) == Ok(()) && AfterAppend(tasks, later, e) == later
  {
    var after := AfterAppend(tasks, log, e);
    FindExact(log, e.id);
    FindExact(later, e.id);
    var k := if Find(log, e.id) == None then |log|
             else var i :| 0 <= i < |log| && log[i] == Find(log, e.id).value; i;
    assert after[k] == e && later[..|after|][k] == later[k];
  }

  /** Using an id again for anything else is rejected, and nothing changes. */
  lemma {:induction false} ReuseIsRejected(tasks: set<TaskId>, log: seq<Event>, k: nat, e: Event)
    requires LogInv(log) && k < |log| && log[k].id == e.id && log[k] != e && ValidEvent(e)
    ensures Appended(tasks, log, e) == Err(Conflict) && AfterAppend(tasks, log, e) == log
  {
    FindExact(log, e.id);
  }

  /** The insertion inside `transition_task_with_event` skips the sequence check: it keeps the log
      in order exactly when no event of the task has a later number. */
  lemma {:induction false} UncheckedInsertOrder(tasks: set<TaskId>, log: seq<Event>, e: Event)
    requires LogInv(log) && Insertable(tasks, log, e)
    ensures LogInv(log + [e]) <==> (Latest(log, e.task).Some? ==> Latest(log, e.task).value < e.sequence)
  {
    LatestExact(log, e.task);
    var grown := log + [e];
    if Latest(log, e.task).Some? {
      var k :| 0 <= k < |log| && log[k].task == e.task && log[k].sequence == Latest(log, e.task).value;
      assert grown[k] == log[k] && grown[|log|] == e;
      assert !Clashes(log[k], e);
    }
  }

  // ---------- An adapter as the only writer of its task ----------

  /** The adapter counts every attempt, stored or not; other writers append to other tasks. */
  datatype Step = Mine(e: Event, reaches: bool) | Theirs(e: Event)

  datatype Adapter = Adapter(task: TaskId, sequence: nat, log: seq<Event>)

  /** It starts from the last stored number of its task. */
  function Resume(task: TaskId, log: seq<Event>): Adapter {
    Adapter(task, if Latest(log, task).Some? then Latest(log, task).value else 0, log)
  }

  function AdapterStep(tasks: set<TaskId>, a: Adapter, step: Step): Adapter {
    match step
    case Mine(e, reaches) =>
      var numbered := e.(task := a.task, sequence := a.sequence + 1);
      Adapter(a.task, a.sequence + 1, if reaches then AfterAppend(tasks, a.log, numbered) else a.log)
    case Theirs(e) => if e.task == a.task then a else a.(log := AfterAppend(tasks, a.log, e))
  }

  function AdapterRun(tasks: set<TaskId>, a: Adapter, steps: seq<Step>): Adapter {
    if steps == [] then a
    else AdapterStep(tasks, AdapterRun(tasks, a, steps[..|steps| - 1]), steps[|steps| - 1])
  }

  ghost predicate Ahead(a: Adapter) {
    && LogInv(a.log)
    && forall k :: 0 <= k < |a.log| && a.log[k].task == a.task ==> a.log[k].sequence <= a.sequence
  }

  lemma {:induction false} AdapterStepAhead(tasks: set<TaskId>, a: Adapter, step: Step)
    requires Ahead(a)
    ensures Ahead(AdapterStep(tasks, a, step)) && AdapterStep(tasks, a, step).task == a.task
  {
    if step.Mine? {
      AppendKeepsInv(tasks, a.log, step.e.(task := a.task, sequence := a.sequence + 1));
    } else {
      AppendKeepsInv(tasks, a.log, step.e);
    }
  }

  lemma {:induction false} AdapterStaysAhead(tasks: set<TaskId>, task: TaskId, log: seq<Event>, steps: seq<Step>)
    requires LogInv(log)
    ensures Ahead(AdapterRun(tasks, Resume(task, log), steps))
    ensures AdapterRun(tasks, Resume(task, log), steps).task == task
  {
    if steps == [] {
      LatestExact(log, task);
    } else {
      var n := |steps| - 1;
      AdapterStaysAhead(tasks, task, log, steps[..n]);
      AdapterStepAhead(tasks, AdapterRun(tasks, Resume(task, log), steps[..n]), steps[n]);
    }
  }

  /** Its next event is never refused for its number, whatever failed before: a valid event with
      a new id of an existing task is stored. */
  lemma {:induction false} SoleWriterNeverConflicts(tasks: set<TaskId>, task: TaskId, log: seq<Event>, steps: seq<Step>, e: Event)
    requires LogInv(log) && task in tasks
    requires var a := AdapterRun(tasks, Resume(task, log), steps);
             && e.task == task && e.sequence == a.sequence + 1 && ValidEvent(e)
             && forall k :: 0 <= k < |a.log| ==> a.log[k].id != e.id
    ensures var a := AdapterRun(tasks, Resume(task, log), steps);
            Appended(tasks, a.log, e) == Ok(()) && AfterAppend(tasks, a.log, e) == a.log + [e]
  {
    AdapterStaysAhead(tasks, task, log, steps);
    var a := AdapterRun(tasks, Resume(task, log), steps);
    FindExact(a.log, e.id);
    LatestExact(a.log, task);
  }

  function Attempts(steps: seq<Step>): nat {
    if steps == [] then 0 else Attempts(steps[..|steps| - 1]) + if steps[|steps| - 1].Mine? then 1 else 0
  }

  /** It counts from the largest stored number of its task, or from zero, and once for each attempt. */
  lemma {:induction false} AdapterCounts(tasks: set<TaskId>, task: TaskId, log: seq<Event>, steps: seq<Step>)
    ensures AdapterRun(tasks, Resume(task, log), steps).sequence == Resume(task, log).sequence + Attempts(steps)
    ensures (forall k :: 0 <= k < |log| ==> log[k].task != task) ==> Resume(task, log).sequence == 0
    ensures forall k :: 0 <= k < |log| && log[k].task == task ==> log[k].sequence <= Resume(task, log).sequence
    ensures (exists k :: 0 <= k < |log| && log[k].task == task) ==>
              exists k :: 0 <= k < |log| && log[k].task == task && log[k].sequence == Resume(task, log).sequence
  {
    LatestExact(log, task);
    if steps != [] {
      AdapterCounts(tasks, task, log, steps[..|steps| - 1]);
      AdapterTask(tasks, Resume(task, log), steps[..|steps| - 1]);
    }
  }

  lemma {:induction false} AdapterTask(tasks: set<TaskId>, a: Adapter, steps: seq<Step>)
    ensures AdapterRun(tasks, a, steps).task == a.task
  {
    if steps != [] {
      AdapterTask(tasks, a, steps[..|steps| - 1]);
    }
  }

  /** An attempt carries the adapter's task and the next number, and another writer leaves the count alone. */
  lemma {:induction false} AttemptsExactly(tasks: set<TaskId>, a: Adapter, e: Event, reaches: bool)
    ensures AdapterStep(tasks, a, Mine(e, reaches)) ==
              a.(sequence := a.sequence + 1,
                 log := if reaches then AfterAppend(tasks, a.log, e.(task := a.task, sequence := a.sequence + 1)) else a.log)
    ensures e.task != a.task ==> AdapterStep(tasks, a, Theirs(e)) == a.(log := AfterAppend(tasks, a.log, e))
  {
  }
}
