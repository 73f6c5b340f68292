/** Turns over the FIFO command channel. */
module CodexTurns {
  import opened Basics
  import opened CodexWorker

  // Any number of clients start turns, the stdout dispatcher and the child watcher enqueue
  // commands, and one worker dequeues them.

  /** How far `start_turn_with_policy` has come. Positions are indexes into the durable log
      and into the channel's history. */
  datatype Stage =
    | Requested                          // `Activate` sent, `turn/start` in flight
    | Recorded(record: nat)              // the turn's `turn_started` event is durable
    | Flushed(record: nat, flush: nat)   // `Flush` sent
    | Failed

  datatype Turn = Turn(thread: ThreadId, activate: nat, stage: Stage)

  /** `sent` is everything ever put into the channel, `done` how much of it the worker has handled. */
  datatype System = System(sent: seq<Command>, done: nat, worker: Worker, turns: seq<Turn>)

  datatype Action =
    | Begin(thread: ThreadId)      // send `Activate`
    | Fail(turn: nat)              // the request failed: send `Clear`
    | RecordStart(turn: nat)       // the request succeeded: append `turn_started`
    | SendFlush(turn: nat)
    | Enqueue(command: Command)    // dispatcher or watcher
    | Emit(kind: string)           // any other event a client appends
    | Dequeue                      // the worker handles one command

  predicate FromOutside(command: Command) {
    command.Event? || command.Diagnostic? || command.Clear?
  }

  function SetStage(turns: seq<Turn>, k: nat, stage: Stage): seq<Turn> {
    if k < |turns| then turns[k := turns[k].(stage := stage)] else turns
  }

  /** An action that is not possible changes nothing. */
  function Next(store: Store, s: System, a: Action): System {
    match a
    case Begin(thread) =>
      s.(sent := s.sent + [Activate(thread)], turns := s.turns + [Turn(thread, |s.sent|, Requested)])
    case Fail(k) =>
      if k < |s.turns| && s.turns[k].stage == Requested then
        s.(sent := s.sent + [Clear], turns := SetStage(s.turns, k, Failed))
      else s
    case RecordStart(k) =>
      if k < |s.turns| && s.turns[k].stage == Requested then
        var w := CodexWorker.Emit(store, s.worker, TurnStarted(k, s.turns[k].thread, 0));
        var stage := if store(w.sequence) then Recorded(|s.worker.log|) else Failed;
        s.(worker := w, turns := SetStage(s.turns, k, stage))
      else s
    case SendFlush(k) =>
      if k < |s.turns| && s.turns[k].stage.Recorded? then
        var turn := s.turns[k];
        s.(sent := s.sent + [Flush(turn.thread)],
           turns := SetStage(s.turns, k, Flushed(turn.stage.record, |s.sent|)))
      else s
    case Enqueue(command) => if FromOutside(command) then s.(sent := s.sent + [command]) else s
    case Emit(kind) => s.(worker := CodexWorker.Emit(store, s.worker, ClientEvent(kind, 0)))
    case Dequeue =>
      if s.done < |s.sent| then
        s.(done := s.done + 1, worker := Work(store, s.worker, s.sent[s.done]))
      else s
  }

  /** The state after any interleaving of actions, for any pattern of storage failures. */
  function Exec(store: Store, lastSequence: nat, actions: seq<Action>): System {
    if actions == [] then System([], 0, Start(lastSequence), [])
    else Next(store, Exec(store, lastSequence, actions[..|actions| - 1]), actions[|actions| - 1])
  }

  /** Arrival numbers are given to events and diagnostics, in channel order. */
  function Arrivals(commands: seq<Command>): nat {
    if commands == [] then 0
    else
      var last := commands[|commands| - 1];
      Arrivals(commands[..|commands| - 1]) + if last.Event? || last.Diagnostic? then 1 else 0
  }

  /** One past the last channel position that belongs to the turn: its `Flush`, or still open. */
  function End(s: System, turn: Turn): nat {
    if turn.stage.Flushed? then turn.stage.flush else |s.sent|
  }

  /** Nothing between the turn's `Activate` and its `Flush` changes the pending turn. */
  ghost predicate Undisturbed(s: System, turn: Turn) {
    forall i :: turn.activate < i < End(s, turn) && i < |s.sent| ==> Harmless(s.sent[i], turn.thread)
  }

  predicate Harmless(command: Command, thread: ThreadId) {
    command != Clear && command != Flush(thread) && (command.Activate? ==> command.thread == thread)
  }

  /** A durable notification of the turn's thread, other than `turn/started`, that arrived
      after the turn's `Activate` and before its end. */
  ghost predicate Belongs(s: System, turn: Turn, r: Record) {
    && turn.activate < |s.sent| && End(s, turn) <= |s.sent|
    && Ordinary(r) && r.value.thread == Some(turn.thread)
    && Arrivals(s.sent[..turn.activate + 1]) < r.arrival <= Arrivals(s.sent[..End(s, turn)])
  }

  predicate Ordinary(r: Record) {
    r.Notified? && r.value.name != Some(TURN_STARTED)
  }

  /** The turn's own record is durable and stands before position `i` of the log. */
  ghost predicate StartedBefore(s: System, k: nat, i: nat) {
    && k < |s.turns|
    && var stage := s.turns[k].stage;
    && (stage.Recorded? || stage.Flushed?) && stage.record < i
    && stage.record < |s.worker.log|
    && var r := s.worker.log[stage.record]; r.TurnStarted? && r.turn == k && r.thread == s.turns[k].thread
  }

  // ---------- Inductive invariants ----------

  ghost predicate ChannelInv(s: System) {
    && s.done <= |s.sent|
    && s.worker.arrivals == Arrivals(s.sent[..s.done])
    && WorkerInv(s.worker)
  }

  ghost predicate PlaceInv(s: System, k: nat) {
    && k < |s.turns|
    && var turn := s.turns[k];
    && turn.activate < |s.sent| && s.sent[turn.activate] == Activate(turn.thread)
    && (turn.stage.Flushed? ==>
          turn.activate < turn.stage.flush < |s.sent| && s.sent[turn.stage.flush] == Flush(turn.thread))
    && (turn.stage.Recorded? || turn.stage.Flushed? ==> StartedBefore(s, k, |s.worker.log|))
  }

  /** While the worker is between the turn's two commands it holds the turn pending, and
      nothing that belongs to the turn is durable; afterwards everything that is stands behind
      the turn's record. */
  ghost predicate OrderInv(s: System, k: nat) {
    && k < |s.turns|
    && var turn := s.turns[k];
    Undisturbed(s, turn) ==>
      && (turn.activate < s.done <= End(s, turn) ==> s.worker.pendingTurn == Some(turn.thread))
      && (forall i :: 0 <= i < |s.worker.log| && Belongs(s, turn, s.worker.log[i]) ==>
            s.done > End(s, turn) && StartedBefore(s, k, i))
  }

  ghost predicate SystemInv(s: System) {
    ChannelInv(s) && forall k :: 0 <= k < |s.turns| ==> PlaceInv(s, k) && OrderInv(s, k)
  }

  lemma {:induction false} ArrivalsGrow(commands: seq<Command>, i: nat, j: nat)
    requires i <= j <= |commands|
    ensures Arrivals(commands[..i]) <= Arrivals(commands[..j])
  {
    if i < j {
      assert commands[..j][..j - 1] == commands[..j - 1];
      ArrivalsGrow(commands, i, j - 1);
    }
  }

  /** No durable record is newer than what the worker has dequeued. */
  lemma {:induction false} ArrivedBefore(s: System, i: nat)
    requires ChannelInv(s) && i < |s.worker.log| && Ordinary(s.worker.log[i])
    ensures s.worker.log[i].arrival <= Arrivals(s.sent[..s.done])
  {
    assert Timeline(s.worker.log, s.worker.buffered)[i] == ArrivalOf(s.worker.log[i]);
  }

  /** What is durable belonged to the turn before the channel grew. */
  lemma {:induction false} SendBelongs(s: System, t: System, turn: Turn, i: nat)
    requires ChannelInv(s) && turn.activate < |s.sent| && End(s, turn) <= |s.sent|
    requires |t.sent| == |s.sent| + 1 && t.sent[..|s.sent|] == s.sent && i < |s.worker.log|
    ensures Belongs(t, turn, s.worker.log[i]) ==> Belongs(s, turn, s.worker.log[i])
  {
    if Ordinary(s.worker.log[i]) {
      ArrivedBefore(s, i);
    }
    ArrivalsGrow(s.sent, s.done, |s.sent|);
    assert s.sent[..|s.sent|] == s.sent;
    assert t.sent[..turn.activate + 1] == s.sent[..turn.activate + 1];
    assert End(t, turn) <= |s.sent| ==> t.sent[..End(t, turn)] == s.sent[..End(t, turn)];
  }

  /** A command enters the channel. */
  lemma {:induction false} SendKeepsOrder(s: System, t: System, k: nat, command: Command)
    requires SystemInv(s) && k < |s.turns| <= |t.turns| && t.turns[k] == s.turns[k]
    requires t.sent == s.sent + [command] && t.done == s.done && t.worker == s.worker
    ensures PlaceInv(t, k) && OrderInv(t, k)
  {
    var turn := s.turns[k];
    assert PlaceInv(s, k) && OrderInv(s, k);
    assert t.sent[..t.done] == s.sent[..s.done];
    if Undisturbed(t, turn) {
      assert Undisturbed(s, turn) by {
        assert forall i :: 0 <= i < |s.sent| ==> t.sent[i] == s.sent[i];
      }
      forall i | 0 <= i < |t.worker.log| && Belongs(t, turn, t.worker.log[i])
        ensures t.done > End(t, turn) && StartedBefore(t, k, i)
      {
        SendBelongs(s, t, turn, i);
      }
    }
  }

  /** A client appends an event of its own; the turn itself may move from requested to recorded. */
  lemma {:induction false} EmitKeepsOrder(s: System, t: System, k: nat, store: Store, r: Record)
    requires SystemInv(s) && k < |s.turns| == |t.turns| && !r.Notified? && !r.Diagnosed?
    requires t.worker == CodexWorker.Emit(store, s.worker, r) && t.sent == s.sent && t.done == s.done
    requires t.turns[k] == s.turns[k] ||
             (s.turns[k].stage == Requested && t.turns[k] == s.turns[k].(stage := Failed)) ||
             (s.turns[k].stage == Requested && t.turns[k] == s.turns[k].(stage := Recorded(|s.worker.log|))
              && store(s.worker.sequence + 1) && r.TurnStarted? && r.turn == k && r.thread == s.turns[k].thread)
    ensures PlaceInv(t, k) && OrderInv(t, k)
  {
    assert PlaceInv(s, k) && OrderInv(s, k);
    assert End(t, t.turns[k]) == End(s, s.turns[k]);
    if Undisturbed(t, t.turns[k]) {
      assert Undisturbed(s, s.turns[k]);
      forall i | 0 <= i < |t.worker.log| && Belongs(t, t.turns[k], t.worker.log[i])
        ensures t.done > End(t, t.turns[k]) && StartedBefore(t, k, i)
      {
        assert i < |s.worker.log| && Belongs(s, s.turns[k], s.worker.log[i]);
      }
    }
  }

  /** While a turn is pending, a harmless command leaves it pending and writes nothing of it. */
  lemma {:induction false} HarmlessWork(store: Store, w: Worker, command: Command, thread: ThreadId)
    requires LogInv(w) && w.pendingTurn == Some(thread) && Harmless(command, thread)
    ensures var v := Work(store, w, command);
            && v.pendingTurn == Some(thread)
            && forall i :: |w.log| <= i < |v.log| ==> !(Ordinary(v.log[i]) && v.log[i].value.thread == Some(thread))
  {
    if command.Event? {
      HandleLog(store, w.(arrivals := w.arrivals + 1), command.value, w.arrivals + 1);
    }
  }

  lemma {:induction false} DequeueKeepsOrder(s: System, store: Store, k: nat)
    requires SystemInv(s) && s.done < |s.sent| && k < |s.turns|
    requires ChannelInv(Next(store, s, Dequeue))
    ensures PlaceInv(Next(store, s, Dequeue), k) && OrderInv(Next(store, s, Dequeue), k)
  {
    var t, turn, command := Next(store, s, Dequeue), s.turns[k], s.sent[s.done];
    assert PlaceInv(s, k) && OrderInv(s, k);
    WorkKeepsInv(store, s.worker, command);
    assert forall i :: 0 <= i < |s.worker.log| ==> t.worker.log[..|s.worker.log|][i] == s.worker.log[i];
    if Undisturbed(t, turn) {
      assert Undisturbed(s, turn);
      if s.done <= turn.activate {
        DequeueBefore(s, t, turn);
      } else {
        if s.done < End(s, turn) {
          HarmlessWork(store, s.worker, command, turn.thread);
        }
        forall i | 0 <= i < |t.worker.log| && Belongs(t, turn, t.worker.log[i])
          ensures t.done > End(t, turn) && StartedBefore(t, k, i)
        {
          assert i < |s.worker.log| ==> Belongs(s, turn, s.worker.log[i]);
        }
      }
    }
  }

  /** Up to and including the turn's `Activate`, nothing that belongs to it is durable. */
  lemma {:induction false} DequeueBefore(s: System, t: System, turn: Turn)
    requires ChannelInv(t) && t.sent == s.sent && t.done == s.done + 1
    requires s.done <= turn.activate < |t.sent| && End(t, turn) <= |t.sent|
    ensures forall i :: 0 <= i < |t.worker.log| ==> !Belongs(t, turn, t.worker.log[i])
  {
    ArrivalsGrow(t.sent, t.done, turn.activate + 1);
    forall i | 0 <= i < |t.worker.log| ensures !Belongs(t, turn, t.worker.log[i]) {
      if Ordinary(t.worker.log[i]) {
        ArrivedBefore(t, i);
      }
    }
  }

  lemma {:induction false} NextKeepsChannel(store: Store, s: System, a: Action)
    requires SystemInv(s)
    ensures ChannelInv(Next(store, s, a))
  {
    var t := Next(store, s, a);
    if a.Dequeue? && s.done < |s.sent| {
      WorkKeepsInv(store, s.worker, s.sent[s.done]);
      WorkArrivals(store, s.worker, s.sent[s.done]);
      assert s.sent[..s.done + 1][..s.done] == s.sent[..s.done];
    } else {
      assert t.sent[..t.done] == s.sent[..s.done];
      if a.Emit? {
        EmitKeepsInv(store, s.worker, ClientEvent(a.kind, 0), s.worker.arrivals);
      } else if a.RecordStart? && t != s {
        EmitKeepsInv(store, s.worker, TurnStarted(a.turn, s.turns[a.turn].thread, 0), s.worker.arrivals);
      }
    }
  }

  lemma {:induction false} WorkArrivals(store: Store, w: Worker, command: Command)
    requires WorkerInv(w)
    ensures Work(store, w, command).arrivals == w.arrivals + if command.Event? || command.Diagnostic? then 1 else 0
  {
    if command.Event? {
      HandleLog(store, w.(arrivals := w.arrivals + 1), command.value, w.arrivals + 1);
    } else if command.Flush? && w.pendingTurn == Some(command.thread) {
      FlushEmptiesBuffer(store, w, command.thread);
    }
  }

  /** The turn's own `Flush` enters the channel. */
  lemma {:induction false} FlushSentKeepsOrder(s: System, t: System, k: nat)
    requires SystemInv(s) && k < |s.turns| == |t.turns| && s.turns[k].stage.Recorded?
    requires t.sent == s.sent + [Flush(s.turns[k].thread)] && t.done == s.done && t.worker == s.worker
    requires t.turns[k] == s.turns[k].(stage := Flushed(s.turns[k].stage.record, |s.sent|))
    ensures PlaceInv(t, k) && OrderInv(t, k)
  {
    assert PlaceInv(s, k) && OrderInv(s, k);
    var turn := t.turns[k];
    assert t.sent[..End(t, turn)] == s.sent[..End(s, s.turns[k])];
    assert t.sent[..turn.activate + 1] == s.sent[..turn.activate + 1];
    if Undisturbed(t, turn) {
      assert Undisturbed(s, s.turns[k]) by {
        assert forall i :: 0 <= i < |s.sent| ==> t.sent[i] == s.sent[i];
      }
      forall i | 0 <= i < |t.worker.log| ensures !Belongs(t, turn, t.worker.log[i]) {
        assert !Belongs(s, s.turns[k], s.worker.log[i]);
      }
    }
  }

  /** A new turn: nothing durable is newer than its `Activate`. */
  lemma {:induction false} BeginKeepsOrder(s: System, t: System, thread: ThreadId)
    requires SystemInv(s) && t.done == s.done && t.worker == s.worker
    requires t.sent == s.sent + [Activate(thread)] && t.turns == s.turns + [Turn(thread, |s.sent|, Requested)]
    ensures PlaceInv(t, |s.turns|) && OrderInv(t, |s.turns|)
  {
    var turn := t.turns[|s.turns|];
    ArrivalsGrow(t.sent, s.done, turn.activate + 1);
    assert t.sent[..s.done] == s.sent[..s.done];
    forall i | 0 <= i < |t.worker.log| ensures !Belongs(t, turn, t.worker.log[i]) {
      if Ordinary(t.worker.log[i]) {
        ArrivedBefore(s, i);
      }
    }
  }

  /** A failed request sends `Clear`, which disturbs its own still open turn. */
  lemma {:induction false} FailKeepsOrder(s: System, t: System, k: nat)
    requires SystemInv(s) && k < |s.turns| == |t.turns| && s.turns[k].stage == Requested
    requires t.sent == s.sent + [Clear] && t.done == s.done && t.worker == s.worker
    requires t.turns[k] == s.turns[k].(stage := Failed)
    ensures PlaceInv(t, k) && OrderInv(t, k)
  {
    assert PlaceInv(s, k);
    assert !Harmless(t.sent[|s.sent|], t.turns[k].thread);
  }

  lemma {:induction false} NextKeepsInv(store: Store, s: System, a: Action)
    requires SystemInv(s)
    ensures SystemInv(Next(store, s, a))
  {
    var t := Next(store, s, a);
    NextKeepsChannel(store, s, a);
    if t != s {
      forall k | 0 <= k < |t.turns| ensures PlaceInv(t, k) && OrderInv(t, k) {
        if a.Begin? && k == |s.turns| {
          BeginKeepsOrder(s, t, a.thread);
        } else if a.Fail? && k == a.turn {
          FailKeepsOrder(s, t, k);
        } else if a.SendFlush? && k == a.turn {
          FlushSentKeepsOrder(s, t, k);
        } else if a.RecordStart? {
          EmitKeepsOrder(s, t, k, store, TurnStarted(a.turn, s.turns[a.turn].thread, 0));
        } else if a.Emit? {
          EmitKeepsOrder(s, t, k, store, ClientEvent(a.kind, 0));
        } else if a.Dequeue? {
          DequeueKeepsOrder(s, store, k);
        } else {
          SendKeepsOrder(s, t, k, t.sent[|s.sent|]);
        }
      }
    }
  }

  lemma {:induction false} ExecInv(store: Store, lastSequence: nat, actions: seq<Action>)
    ensures SystemInv(Exec(store, lastSequence, actions))
  {
    if actions == [] {
      assert Timeline([], []) == [];
    } else {
      var n := |actions| - 1;
      ExecInv(store, lastSequence, actions[..n]);
      NextKeepsInv(store, Exec(store, lastSequence, actions[..n]), actions[n]);
    }
  }

  // ---------- Main results ----------

  /** In every interleaving of clients, dispatcher and worker, and for any storage failures: if
      nothing between a turn's `Activate` and its `Flush` clears or flushes that turn or activates
      another thread, the durable `turn_started` stands before every notification of its thread (except
      `turn/started`) that was enqueued in between. */
  lemma {:induction false} TurnStartedFirst(store: Store, lastSequence: nat, actions: seq<Action>, k: nat, i: nat)
    requires var s := Exec(store, lastSequence, actions);
             && k < |s.turns| && i < |s.worker.log|
             && Undisturbed(s, s.turns[k]) && Belongs(s, s.turns[k], s.worker.log[i])
    ensures StartedBefore(Exec(store, lastSequence, actions), k, i)
  {
    ExecInv(store, lastSequence, actions);
    assert OrderInv(Exec(store, lastSequence, actions), k);
  }

  /** Every turn's commands are in the channel, where `Belongs` looks for them. */
  lemma {:induction false} TurnsArePlaced(store: Store, lastSequence: nat, actions: seq<Action>, k: nat)
    requires k < |Exec(store, lastSequence, actions).turns|
    ensures var s := Exec(store, lastSequence, actions);
            && s.turns[k].activate < |s.sent| && s.sent[s.turns[k].activate] == Activate(s.turns[k].thread)
            && End(s, s.turns[k]) <= |s.sent|
  {
    ExecInv(store, lastSequence, actions);
    assert PlaceInv(Exec(store, lastSequence, actions), k);
  }

  /** The durable log of any run: numbers grow, each arrival is written at most once, no
      notification twice, and the ordinary notifications of a thread are in arrival order. */
  lemma {:induction false} DurableLogOrder(store: Store, lastSequence: nat, actions: seq<Action>, i: nat, j: nat)
    requires i < j < |Exec(store, lastSequence, actions).worker.log|
    ensures var log := Exec(store, lastSequence, actions).worker.log;
            && log[i].sequence < log[j].sequence
            && !SameNotification(log[i], log[j])
            && (log[i].Notified? && log[j].Notified? ==> log[i].arrival != log[j].arrival)
            && (Ordinary(log[i]) && Ordinary(log[j]) && log[i].value.thread == log[j].value.thread ==>
                  log[i].arrival < log[j].arrival)
  {
    ExecInv(store, lastSequence, actions);
    var w := Exec(store, lastSequence, actions).worker;
    var line := Timeline(w.log, w.buffered);
    assert line[i] == ArrivalOf(w.log[i]) && line[j] == ArrivalOf(w.log[j]);
  }

  /** In every reachable state what is held back is of the pending turn, so flushing that turn
      writes or drops all of it and holds nothing back again. */
  lemma {:induction false} FlushHoldsNothingBack(store: Store, lastSequence: nat, actions: seq<Action>, thread: ThreadId)
    requires Exec(store, lastSequence, actions).worker.pendingTurn == Some(thread)
    ensures var w := Exec(store, lastSequence, actions).worker;
            && (forall i :: 0 <= i < |w.buffered| ==> w.buffered[i].value.thread == Some(thread))
            && Work(store, w, Flush(thread)).buffered == []
  {
    ExecInv(store, lastSequence, actions);
    var w := Exec(store, lastSequence, actions).worker;
    FlushEmptiesBuffer(store, w, thread);
    assert forall i :: 0 <= i < |w.buffered| ==> HeldBack(w, w.buffered[i].value);
  }

  /** What the arrival numbers of the previous lemmas mean: the notification came out of the
      channel at the position that has that number. */
  ghost predicate WasDequeued(s: System, n: Notification, arrival: nat) {
    exists c :: 0 <= c < s.done && c < |s.sent| && s.sent[c] == Event(n) && Arrivals(s.sent[..c + 1]) == arrival
  }

  ghost predicate OriginInv(s: System) {
    && (forall i :: 0 <= i < |s.worker.log| && s.worker.log[i].Notified? ==>
          WasDequeued(s, s.worker.log[i].value, s.worker.log[i].arrival))
    && (forall i :: 0 <= i < |s.worker.buffered| ==>
          WasDequeued(s, s.worker.buffered[i].value, s.worker.buffered[i].arrival))
  }

  lemma {:induction false} DequeuedStays(s: System, t: System, n: Notification, arrival: nat)
    requires Extends(s.sent, t.sent) && s.done <= t.done && WasDequeued(s, n, arrival)
    ensures WasDequeued(t, n, arrival)
  {
    var c :| 0 <= c < s.done && c < |s.sent| && s.sent[c] == Event(n) && Arrivals(s.sent[..c + 1]) == arrival;
    assert t.sent[..c + 1] == s.sent[..c + 1];
    assert t.sent[..|s.sent|][c] == t.sent[c];
  }

  lemma {:induction false} OriginStep(store: Store, s: System, a: Action)
    requires SystemInv(s) && OriginInv(s)
    ensures OriginInv(Next(store, s, a))
  {
    var t := Next(store, s, a);
    assert Extends(s.sent, t.sent) by {
      assert t.sent[..|s.sent|] == s.sent;
    }
    forall n, arrival | WasDequeued(s, n, arrival) ensures WasDequeued(t, n, arrival) {
      DequeuedStays(s, t, n, arrival);
    }
    if a.Dequeue? && s.done < |s.sent| {
      DequeueOrigin(store, s);
    }
  }

  /** The worker writes and holds back only what it already held or has just dequeued. */
  lemma {:induction false} DequeueOrigin(store: Store, s: System)
    requires SystemInv(s) && OriginInv(s) && s.done < |s.sent|
    requires forall n, arrival :: WasDequeued(s, n, arrival) ==> WasDequeued(Next(store, s, Dequeue), n, arrival)
    ensures OriginInv(Next(store, s, Dequeue))
  {
    var command := s.sent[s.done];
    if command.Event? {
      EventOrigin(store, s, command.value);
    } else if command.Flush? && s.worker.pendingTurn == Some(command.thread) {
      FlushOrigin(store, s, command.thread);
    }
  }

  lemma {:induction false} EventOrigin(store: Store, s: System, n: Notification)
    requires SystemInv(s) && OriginInv(s) && s.done < |s.sent| && s.sent[s.done] == Event(n)
    requires forall n, arrival :: WasDequeued(s, n, arrival) ==> WasDequeued(Next(store, s, Dequeue), n, arrival)
    ensures OriginInv(Next(store, s, Dequeue))
  {
    var w, t := s.worker.(arrivals := s.worker.arrivals + 1), Next(store, s, Dequeue);
    assert s.sent[..s.done + 1][..s.done] == s.sent[..s.done];
    assert t.sent[s.done] == Event(n) && Arrivals(t.sent[..s.done + 1]) == w.arrivals;
    assert WasDequeued(t, n, w.arrivals);
  }

  lemma {:induction false} FlushOrigin(store: Store, s: System, thread: ThreadId)
    requires SystemInv(s) && OriginInv(s) && s.done < |s.sent| && s.sent[s.done] == Flush(thread)
    requires s.worker.pendingTurn == Some(thread)
    requires forall n, arrival :: WasDequeued(s, n, arrival) ==> WasDequeued(Next(store, s, Dequeue), n, arrival)
    ensures OriginInv(Next(store, s, Dequeue))
  {
    var w, v := s.worker, Next(store, s, Dequeue).worker;
    FlushEmptiesBuffer(store, w, thread);
    ReplayWrites(store, w.(pendingTurn := None, buffered := []), w.buffered, thread);
    forall i | 0 <= i < |v.log| && v.log[i].Notified?
      ensures WasDequeued(s, v.log[i].value, v.log[i].arrival)
    {
      OldOrHeld(w.log, v.log, w.buffered, i);
      if FromItems(v.log[i], w.buffered) {
        HeldWasDequeued(s, v.log[i]);
      }
    }
  }

  lemma {:induction false} HeldWasDequeued(s: System, r: Record)
    requires OriginInv(s) && FromItems(r, s.worker.buffered)
    ensures WasDequeued(s, r.value, r.arrival)
  {
    var j :| 0 <= j < |s.worker.buffered| && s.worker.buffered[j] == Buffered(r.value, r.arrival);
  }

  lemma {:induction false} OldOrHeld(log: seq<Record>, grown: seq<Record>, items: seq<Buffered>, i: nat)
    requires Extends(log, grown) && i < |grown|
    requires forall j :: |log| <= j < |grown| ==> FromItems(grown[j], items)
    ensures (i < |log| && log[i] == grown[i]) || FromItems(grown[i], items)
  {
    assert i < |log| ==> grown[..|log|][i] == grown[i];
  }

  lemma {:induction false} EveryRecordWasDequeued(store: Store, lastSequence: nat, actions: seq<Action>)
    ensures OriginInv(Exec(store, lastSequence, actions))
  {
    if actions != [] {
      var n := |actions| - 1;
      ExecInv(store, lastSequence, actions[..n]);
      EveryRecordWasDequeued(store, lastSequence, actions[..n]);
      OriginStep(store, Exec(store, lastSequence, actions[..n]), actions[n]);
    }
  }

  // ---------- What is not guaranteed ----------

  predicate AlwaysStores(sequence: nat) {
    true
  }

  /** An earlier turn of the same thread whose `Flush` arrives inside a later turn's window
      releases that window: here the notification is durable and the second turn's record is
      not. Hence the restriction on other flushes in `TurnStartedFirst`. */
  lemma {:induction false} ForeignFlushBreaksOrder(n: Notification) returns (actions: seq<Action>)
    requires n.name == Some("item/updated") && n.thread == Some("t")
    ensures var s := Exec(AlwaysStores, 0, actions);
            && |s.turns| == 2 && |s.worker.log| == 2
            && s.turns[1].stage == Requested && s.turns[1].activate < |s.sent|
            && Belongs(s, s.turns[1], s.worker.log[1]) && !StartedBefore(s, 1, 1)
  {
    var w1 := CodexWorker.Emit(AlwaysStores, Start(0), TurnStarted(0, "t", 0));
    var turns := [Turn("t", 0, Flushed(0, 2)), Turn("t", 1, Requested)];
    var sent := [Activate("t"), Activate("t"), Flush("t"), Event(n)];
    actions := TwoTurnsSent(n, w1, turns, sent);
    actions := AllDequeued(n, w1, turns, sent, actions);
    assert sent[..2][..1] == sent[..1] && sent[..1][..0] == [];
    assert Arrivals(sent[..1]) == 0 && Arrivals(sent[..2]) == 0;
    assert sent[..4][3] == Event(n);
  }

  lemma {:induction false} TwoTurnsSent(n: Notification, w1: Worker, turns: seq<Turn>, sent: seq<Command>)
    returns (actions: seq<Action>)
    requires w1 == CodexWorker.Emit(AlwaysStores, Start(0), TurnStarted(0, "t", 0))
    requires turns == [Turn("t", 0, Flushed(0, 2)), Turn("t", 1, Requested)]
    requires sent == [Activate("t"), Activate("t"), Flush("t"), Event(n)]
    ensures Exec(AlwaysStores, 0, actions) == System(sent, 0, w1, turns)
  {
    var started := Turn("t", 0, Recorded(0));
    actions := Perform([], Begin("t"), System([Activate("t")], 0, Start(0), [Turn("t", 0, Requested)]));
    actions := Perform(actions, RecordStart(0), System([Activate("t")], 0, w1, [started]));
    actions := Perform(actions, Begin("t"), System([Activate("t"), Activate("t")], 0, w1, [started, turns[1]]));
    actions := Perform(actions, SendFlush(0), System(sent[..3], 0, w1, turns));
    actions := Perform(actions, Enqueue(Event(n)), System(sent, 0, w1, turns));
  }

  lemma {:induction false} AllDequeued(n: Notification, w: Worker, turns: seq<Turn>, sent: seq<Command>, before: seq<Action>)
    returns (actions: seq<Action>)
    requires sent == [Activate("t"), Activate("t"), Flush("t"), Event(n)]
    requires w.pendingTurn == None && w.buffered == []
    requires Exec(AlwaysStores, 0, before) == System(sent, 0, w, turns)
    ensures Exec(AlwaysStores, 0, actions) == System(sent, 4, Work(AlwaysStores, w, Event(n)), turns)
  {
    actions := Perform(before, Dequeue, System(sent, 1, w.(pendingTurn := Some("t")), turns));
    actions := Perform(actions, Dequeue, System(sent, 2, w.(pendingTurn := Some("t")), turns));
    actions := Perform(actions, Dequeue, System(sent, 3, w, turns));
    actions := Perform(actions, Dequeue, System(sent, 4, Work(AlwaysStores, w, Event(n)), turns));
  }

  lemma {:induction false} Perform(before: seq<Action>, a: Action, s: System) returns (after: seq<Action>)
    requires s == Next(AlwaysStores, Exec(AlwaysStores, 0, before), a)
    ensures Exec(AlwaysStores, 0, after) == s
  {
    after := before + [a];
    assert after[..|before|] == before;
  }
}
