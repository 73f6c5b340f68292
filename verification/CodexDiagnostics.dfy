/** What the worker writes. */
module CodexDiagnostics {
  import opened Basics
  import opened CodexWorker
  import CodexTurns

  // ---------- What the worker remembers ----------

  /** Some notification seen so far completed the turn. */
  ghost predicate TurnCompleted(seen: set<Notification>, turn: string) {
    exists m :: m in seen && m.name == Some("turn/completed") && m.turn == Some(turn)
  }

  ghost predicate ItemStarted(seen: set<Notification>, turn: string, item: string) {
    exists m :: m in seen && m.name == Some("item/started") && m.turn == Some(turn) && m.item == Some(item)
  }

  /** The two memories are what the notifications seen so far say. */
  ghost predicate Remembers(w: Worker) {
    && (forall turn :: turn in w.completedTurns <==> TurnCompleted(w.seen, turn))
    && (forall turn, item :: (turn, item) in w.startedItems <==> ItemStarted(w.seen, turn, item))
  }

  lemma {:induction false} RememberKeeps(w: Worker, n: Notification)
    requires Remembers(w)
    ensures Remembers(Remember(w, n))
  {
    var v := Remember(w, n);
    forall turn ensures turn in v.completedTurns <==> TurnCompleted(v.seen, turn) {
      if TurnCompleted(w.seen, turn) {
        var m :| m in w.seen && m.name == Some("turn/completed") && m.turn == Some(turn);
        assert m in v.seen;
      }
      assert n in v.seen;
    }
    forall turn, item ensures (turn, item) in v.startedItems <==> ItemStarted(v.seen, turn, item) {
      if ItemStarted(w.seen, turn, item) {
        var m :| m in w.seen && m.name == Some("item/started") && m.turn == Some(turn) && m.item == Some(item);
        assert m in v.seen;
      }
      assert n in v.seen;
    }
  }

  lemma {:induction false} HandleRemembers(store: Store, w: Worker, n: Notification, arrival: nat)
    requires Remembers(w)
    ensures Remembers(Handle(store, w, n, arrival))
  {
    RememberKeeps(w, n);
  }

  lemma {:induction false} ReplayRemembers(store: Store, w: Worker, items: seq<Buffered>)
    requires Remembers(w)
    ensures Remembers(Replay(store, w, items))
    decreases |items|
  {
    if items != [] {
      var next := Handle(store, w, items[0].value, items[0].arrival);
      HandleRemembers(store, w, items[0].value, items[0].arrival);
      ReplayRemembers(store, next, items[1..]);
    }
  }

  lemma {:induction false} WorkRemembers(store: Store, w: Worker, command: Command)
    requires Remembers(w)
    ensures Remembers(Work(store, w, command))
  {
    if command.Event? {
      HandleRemembers(store, w.(arrivals := w.arrivals + 1), command.value, w.arrivals + 1);
    } else if command.Flush? && w.pendingTurn == Some(command.thread) {
      ReplayRemembers(store, w.(pendingTurn := None, buffered := []), w.buffered);
    }
  }

  /** In every run the worker remembers exactly what the notifications it has seen say. */
  lemma {:induction false} RunRemembers(store: Store, lastSequence: nat, actions: seq<CodexTurns.Action>)
    ensures Remembers(CodexTurns.Exec(store, lastSequence, actions).worker)
  {
    if actions != [] {
      var before := actions[..|actions| - 1];
      var s := CodexTurns.Exec(store, lastSequence, before);
      RunRemembers(store, lastSequence, before);
      if actions[|actions| - 1].Dequeue? && s.done < |s.sent| {
        WorkRemembers(store, s.worker, s.sent[s.done]);
      }
    }
  }

  // ---------- What it writes ----------

  /** Anything about a turn after its completion is late; an item that completes without having started is
      out of order. */
  ghost function DiagnosticFor(seen: set<Notification>, n: Notification): Option<string> {
    if n.turn.Some? && n.name != Some("turn/completed") && TurnCompleted(seen, n.turn.value) then Some("late_notification")
    else if n.name == Some("item/completed") && n.turn.Some? && n.item.Some?
            && !ItemStarted(seen, n.turn.value, n.item.value) then Some("out_of_order_item_notification")
    else None
  }

  /** The command after which the worker stands, and what the next notification does to it, in every run:
      it is held back if its thread is the pending one, dropped if it was seen, and else written with the
      next number, its place of arrival and its diagnostic, unless storage refuses. */
  lemma {:induction false} NotificationExactly(
    store: Store, lastSequence: nat, actions: seq<CodexTurns.Action>, n: Notification)
    requires var s := CodexTurns.Exec(store, lastSequence, actions); s.done < |s.sent| && s.sent[s.done] == Event(n)
    ensures var w := CodexTurns.Exec(store, lastSequence, actions).worker;
            var v, at := Work(store, w, Event(n)), w.arrivals + 1;
            && v.arrivals == at && v.pendingTurn == w.pendingTurn
            && (n.name == None ==> v == w.(arrivals := at))
            && (n.name.Some? && w.pendingTurn == n.thread && n.name != Some("turn/started") ==>
                  v == w.(arrivals := at, buffered := w.buffered + [Buffered(n, at)]))
            && (n.name.Some? && !(w.pendingTurn == n.thread && n.name != Some("turn/started")) ==>
                  && v.buffered == w.buffered && v.seen == w.seen + {n}
                  && (n in w.seen ==> v == w.(arrivals := at))
                  && (n !in w.seen ==>
                        && v.sequence == w.sequence + 1
                        && v.log == if store(w.sequence + 1)
                                    then w.log + [Notified(n, at, DiagnosticFor(w.seen, n), w.sequence + 1)] else w.log))
  {
    RunRemembers(store, lastSequence, actions);
  }

  /** What the other commands do, in the worker's own fields. */
  lemma {:induction false} OtherCommands(store: Store, w: Worker, thread: ThreadId, kind: string)
    ensures Work(store, w, Activate(thread)) == w.(pendingTurn := Some(thread), buffered := [])
    ensures Work(store, w, Clear) == w.(pendingTurn := None, buffered := [])
    ensures w.pendingTurn != Some(thread) ==> Work(store, w, Flush(thread)) == w
    ensures var v, next := Work(store, w, Diagnostic(kind)), w.sequence + 1;
            v == w.(arrivals := w.arrivals + 1, sequence := next,
                    log := if store(next) then w.log + [Diagnosed(kind, w.arrivals + 1, next)] else w.log)
  {
  }

  /** The steps of a client that starts a turn, in the system's own fields: it sends `Activate`; then it
      either sends `Clear` or appends its record; and once that is durable it sends `Flush`. */
  lemma {:induction false} ClientSteps(store: Store, s: CodexTurns.System, thread: ThreadId, k: nat)
    ensures CodexTurns.Next(store, s, CodexTurns.Begin(thread)) ==
              s.(sent := s.sent + [Activate(thread)], turns := s.turns + [CodexTurns.Turn(thread, |s.sent|, CodexTurns.Requested)])
    ensures k < |s.turns| && s.turns[k].stage.Requested? ==>
              var turn, next := s.turns[k], s.worker.sequence + 1;
              && CodexTurns.Next(store, s, CodexTurns.Fail(k)) ==
                   s.(sent := s.sent + [Clear], turns := s.turns[k := turn.(stage := CodexTurns.Failed)])
              && CodexTurns.Next(store, s, CodexTurns.RecordStart(k)) ==
                   if store(next) then
                     s.(worker := s.worker.(sequence := next, log := s.worker.log + [TurnStarted(k, turn.thread, next)]),
                        turns := s.turns[k := turn.(stage := CodexTurns.Recorded(|s.worker.log|))])
                   else s.(worker := s.worker.(sequence := next), turns := s.turns[k := turn.(stage := CodexTurns.Failed)])
    ensures k < |s.turns| && s.turns[k].stage.Recorded? ==>
              var turn := s.turns[k];
              CodexTurns.Next(store, s, CodexTurns.SendFlush(k)) ==
                s.(sent := s.sent + [Flush(turn.thread)],
                   turns := s.turns[k := turn.(stage := CodexTurns.Flushed(turn.stage.record, |s.sent|))])
    ensures s.done < |s.sent| ==>
              CodexTurns.Next(store, s, CodexTurns.Dequeue) ==
                s.(done := s.done + 1, worker := Work(store, s.worker, s.sent[s.done]))
  {
  }
}
