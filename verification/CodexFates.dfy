/** What becomes of a notification. */
module CodexFates {
  import opened Basics
  import opened CodexWorker
  import CodexTurns

  /** An event that a client appends itself: no notification and no diagnostic. */
  type ClientRecord = r: Record | !r.Notified? && !r.Diagnosed? witness ClientEvent("", 0)

  /** What happens to the worker's state: it handles a command, or a client appends under the same lock. */
  datatype Move = Do(command: Command) | Append(record: ClientRecord)

  function Moved(store: Store, w: Worker, m: Move): Worker {
    match m
    case Do(command) => Work(store, w, command)
    case Append(record) => Emit(store, w, record)
  }

  function MoveAll(store: Store, w: Worker, moves: seq<Move>): Worker {
    if moves == [] then w
    else Moved(store, MoveAll(store, w, moves[..|moves| - 1]), moves[|moves| - 1])
  }

  lemma {:induction false} MoveKeepsInv(store: Store, w: Worker, m: Move)
    requires WorkerInv(w)
    ensures WorkerInv(Moved(store, w, m)) && Extends(w.log, Moved(store, w, m).log)
  {
    var v := Moved(store, w, m);
    if m.Do? {
      WorkKeepsInv(store, w, m.command);
      assert v == Work(store, w, m.command);
    } else {
      EmitKeepsInv(store, w, m.record, w.arrivals);
      assert v == Emit(store, w.(arrivals := w.arrivals), m.record);
    }
  }

  /** The notification that arrived at this place is durable. */
  ghost predicate Durable(w: Worker, arrival: nat) {
    exists i :: 0 <= i < |w.log| && w.log[i].Notified? && w.log[i].arrival == arrival
  }

  // ---------- What happens to what is held back ----------

  /** Commands that release or drop what is held back for a pending turn. */
  predicate Deciding(pending: Option<ThreadId>, m: Move) {
    && m.Do?
    && (m.command.Activate? || m.command.Clear? || (m.command.Flush? && pending == Some(m.command.thread)))
  }

  /** The position of the first deciding command, or the number of moves. */
  function FirstDeciding(pending: Option<ThreadId>, moves: seq<Move>): (d: nat)
    ensures d <= |moves|
    ensures forall i :: 0 <= i < d ==> !Deciding(pending, moves[i])
    ensures d < |moves| ==> Deciding(pending, moves[d])
  {
    if moves == [] || Deciding(pending, moves[0]) then 0
    else 1 + FirstDeciding(pending, moves[1..])
  }

  function Values(items: seq<Buffered>): set<Notification> {
    set b | b in items :: b.value
  }

  /** What a replay of the items up to position `p` would write: each new value once. */
  function Fresh(w: Worker, items: seq<Buffered>, p: nat): set<Notification>
    requires p < |items|
  {
    Values(items[..p + 1]) - w.seen
  }

  ghost predicate NewAt(w: Worker, items: seq<Buffered>, p: nat)
    requires p < |items|
  {
    items[p].value !in w.seen && items[p].value !in Values(items[..p])
  }

  /** Storage takes the next `count` numbers. */
  ghost predicate Accepts(store: Store, sequence: nat, count: nat) {
    forall q: nat :: sequence < q <= sequence + count ==> store(q)
  }

  /** A replay writes the item at `p`: its value is new there, and storage takes it and everything
      new before it. */
  ghost predicate Reaches(store: Store, w: Worker, items: seq<Buffered>, p: nat)
    requires p < |items|
  {
    NewAt(w, items, p) && Accepts(store, w.sequence, |Fresh(w, items, p)|)
  }

  ghost predicate AllOfThread(items: seq<Buffered>, thread: ThreadId) {
    forall i :: 0 <= i < |items| ==> OfThread(items[i].value, thread)
  }

  lemma {:induction false} NotBoth(log: seq<Record>, items: seq<Buffered>, arrivals: nat, i: nat, p: nat)
    requires Chronological(Timeline(log, items), arrivals) && i < |log| && p < |items|
    ensures log[i].Notified? ==> log[i].arrival != items[p].arrival
  {
    var line := Timeline(log, items);
    assert line[i] == ArrivalOf(log[i]) && line[|log| + p] == Some(Arrival(items[p].arrival, true, items[p].value.thread));
  }

  lemma {:induction false} DistinctItems(log: seq<Record>, items: seq<Buffered>, arrivals: nat, i: nat, j: nat)
    requires Chronological(Timeline(log, items), arrivals) && i < j < |items|
    ensures items[i].arrival != items[j].arrival
  {
    var line := Timeline(log, items);
    assert line[|log| + i] == Some(Arrival(items[i].arrival, true, items[i].value.thread));
    assert line[|log| + j] == Some(Arrival(items[j].arrival, true, items[j].value.thread));
  }

  lemma {:induction false} ValuesCons(items: seq<Buffered>, p: nat)
    requires p < |items|
    ensures Values(items[..p + 1]) == {items[0].value} + Values(items[1..][..p])
  {
    assert items[..p + 1] == [items[0]] + items[1..][..p];
  }

  lemma {:induction false} ValuesNone(items: seq<Buffered>)
    ensures Values(items[..0]) == {}
  {
  }

  lemma {:induction false} FreshStep(w: Worker, v: Worker, items: seq<Buffered>, p: nat)
    requires 0 < p < |items| && v.seen == w.seen + {items[0].value}
    ensures |Fresh(w, items, p)| == |Fresh(v, items[1..], p - 1)| + if items[0].value in w.seen then 0 else 1
  {
    var n := items[0].value;
    ValuesCons(items, p);
    var before, after := Fresh(w, items, p), Fresh(v, items[1..], p - 1);
    if n in w.seen {
      assert before == after;
    } else {
      assert before == {n} + after && n !in after;
    }
  }

  lemma {:induction false} NewStep(w: Worker, v: Worker, items: seq<Buffered>, p: nat)
    requires 0 < p < |items| && v.seen == w.seen + {items[0].value}
    ensures NewAt(w, items, p) <==> NewAt(v, items[1..], p - 1)
  {
    ValuesCons(items, p - 1);
    assert items[1..][p - 1] == items[p];
  }

  lemma {:induction false} AcceptsStep(store: Store, sequence: nat, count: nat)
    ensures Accepts(store, sequence, count + 1) <==> store(sequence + 1) && Accepts(store, sequence + 1, count)
  {
  }

  lemma {:induction false} ReachesNext(store: Store, w: Worker, v: Worker, items: seq<Buffered>, p: nat)
    requires 0 < p < |items| && v.seen == w.seen + {items[0].value}
    requires v.sequence == w.sequence + if items[0].value in w.seen then 0 else 1
    ensures Reaches(store, w, items, p) <==>
              (items[0].value in w.seen || store(w.sequence + 1)) && Reaches(store, v, items[1..], p - 1)
  {
    FreshStep(w, v, items, p);
    NewStep(w, v, items, p);
    AcceptsStep(store, w.sequence, |Fresh(v, items[1..], p - 1)|);
  }

  /** One step of the replay, for what is still to come. */
  lemma {:induction false} ReachesStep(store: Store, w: Worker, items: seq<Buffered>, p: nat)
    requires 0 < p < |items| && items[0].value.name.Some? && !HeldBack(w, items[0].value)
    ensures Reaches(store, w, items, p) <==>
              Handles(store, w, items[0].value)
              && Reaches(store, Handle(store, w, items[0].value, items[0].arrival), items[1..], p - 1)
  {
    ReachesNext(store, w, Handle(store, w, items[0].value, items[0].arrival), items, p);
  }

  /** The replay writes exactly the items it reaches. */
  lemma {:induction false} ReplayReaches(store: Store, w: Worker, items: seq<Buffered>, thread: ThreadId, p: nat)
    requires w.pendingTurn == None && w.buffered == [] && LogInv(w) && AllOfThread(items, thread)
    requires Chronological(Timeline(w.log, items), w.arrivals) && p < |items|
    ensures Durable(Replay(store, w, items), items[p].arrival) <==> Reaches(store, w, items, p)
    decreases |items|
  {
    var n, arrival := items[0].value, items[0].arrival;
    var v := Handle(store, w, n, arrival);
    assert OfThread(n, thread) && AllOfThread(items[1..], thread);
    HandleLog(store, w, n, arrival);
    ReplayOne(w.log, v.log, items, w.arrivals);
    forall i | 0 <= i < |w.log| ensures w.log[i].Notified? ==> w.log[i].arrival != items[p].arrival {
      NotBoth(w.log, items, w.arrivals, i, p);
    }
    if p == 0 {
      ReplayFirst(store, w, items, thread);
      ReachesFirst(store, w, items);
    } else {
      ReachesStep(store, w, items, p);
      if Handles(store, w, n) {
        assert items[1..][p - 1] == items[p];
        ReplayReaches(store, v, items[1..], thread, p - 1);
      }
    }
  }

  lemma {:induction false} ReachesFirst(store: Store, w: Worker, items: seq<Buffered>)
    requires items != []
    ensures Reaches(store, w, items, 0) <==> items[0].value !in w.seen && store(w.sequence + 1)
  {
    ValuesCons(items, 0);
    ValuesNone(items[1..]);
    ValuesNone(items);
    var n := items[0].value;
    assert Fresh(w, items, 0) == {n} - w.seen;
    if n !in w.seen {
      assert {n} - w.seen == {n};
    }
  }

  lemma {:induction false} ReplayFirst(store: Store, w: Worker, items: seq<Buffered>, thread: ThreadId)
    requires w.pendingTurn == None && w.buffered == [] && LogInv(w) && AllOfThread(items, thread)
    requires Chronological(Timeline(w.log, items), w.arrivals) && items != []
    requires !Durable(w, items[0].arrival)
    ensures Durable(Replay(store, w, items), items[0].arrival) <==> items[0].value !in w.seen && store(w.sequence + 1)
  {
    var n, arrival := items[0].value, items[0].arrival;
    var v := Handle(store, w, n, arrival);
    assert OfThread(n, thread) && AllOfThread(items[1..], thread);
    HandleLog(store, w, n, arrival);
    if Handles(store, w, n) {
      ReplayWrites(store, v, items[1..], thread);
      var u := Replay(store, v, items[1..]);
      if n !in w.seen {
        assert u.log[..|v.log|][|w.log|] == u.log[|w.log|];
      } else {
        NotInRest(w.log, u.log, items, w.arrivals);
      }
    }
  }

  lemma {:induction false} NotInRest(log: seq<Record>, grown: seq<Record>, items: seq<Buffered>, arrivals: nat)
    requires Chronological(Timeline(log, items), arrivals) && items != []
    requires Extends(log, grown)
    requires forall i :: |log| <= i < |grown| ==> FromItems(grown[i], items[1..])
    ensures forall i :: 0 <= i < |grown| && grown[i].Notified? ==> grown[i].arrival != items[0].arrival
  {
    forall i | 0 <= i < |grown| && grown[i].Notified? ensures grown[i].arrival != items[0].arrival {
      if i < |log| {
        assert grown[..|log|][i] == grown[i];
        NotBoth(log, items, arrivals, i, 0);
      } else {
        assert FromItems(grown[i], items[1..]);
        var j :| 0 <= j < |items[1..]| && items[1..][j] == Buffered(grown[i].value, grown[i].arrival);
        DistinctItems(log, items, arrivals, 0, j + 1);
      }
    }
  }

  // ---------- What stays as it is ----------

  /** Not durable, and held back at most where no flush releases it. */
  ghost predicate NeverWritten(w: Worker, arrival: nat) {
    && arrival <= w.arrivals && !Durable(w, arrival)
    && (forall i :: 0 <= i < |w.buffered| && w.buffered[i].arrival == arrival ==> w.buffered[i].value.thread == None)
  }

  lemma {:induction false} NeverWrittenStep(store: Store, w: Worker, m: Move, arrival: nat)
    requires WorkerInv(w) && NeverWritten(w, arrival)
    ensures NeverWritten(Moved(store, w, m), arrival)
  {
    if m.Do? && m.command.Flush? && w.pendingTurn == Some(m.command.thread) {
      FlushEmptiesBuffer(store, w, m.command.thread);
      ReplayWrites(store, w.(pendingTurn := None, buffered := []), w.buffered, m.command.thread);
    }
  }

  lemma {:induction false} DurableStep(store: Store, w: Worker, m: Move, arrival: nat)
    requires WorkerInv(w) && Durable(w, arrival)
    ensures Durable(Moved(store, w, m), arrival)
  {
    var v := Moved(store, w, m);
    MoveKeepsInv(store, w, m);
    assert forall i :: 0 <= i < |w.log| ==> v.log[..|w.log|][i] == v.log[i];
  }

  /** What has become durable stays so, and what has been dropped never does. */
  lemma {:induction false} FateStays(store: Store, w: Worker, moves: seq<Move>, k: nat, arrival: nat)
    requires WorkerInv(w) && k <= |moves|
    ensures WorkerInv(MoveAll(store, w, moves))
    ensures Durable(MoveAll(store, w, moves[..k]), arrival) ==> Durable(MoveAll(store, w, moves), arrival)
    ensures NeverWritten(MoveAll(store, w, moves[..k]), arrival) ==> NeverWritten(MoveAll(store, w, moves), arrival)
  {
    if moves == [] {
      assert moves[..k] == moves;
    } else {
      var last := |moves| - 1;
      var before, m := moves[..last], moves[last];
      if k == |moves| {
        assert moves[..k] == moves;
        FateStays(store, w, before, last, arrival);
      } else {
        assert before[..k] == moves[..k];
        FateStays(store, w, before, k, arrival);
      }
      var v := MoveAll(store, w, before);
      MoveKeepsInv(store, v, m);
      if k < |moves| && Durable(v, arrival) {
        DurableStep(store, v, m, arrival);
      }
      if k < |moves| && NeverWritten(v, arrival) {
        NeverWrittenStep(store, v, m, arrival);
      }
    }
  }

  ghost predicate Held(w: Worker, n: Notification, arrival: nat, p: nat) {
    p < |w.buffered| && w.buffered[p] == Buffered(n, arrival)
  }

  lemma {:induction false} HeldIsNotDurable(w: Worker, n: Notification, arrival: nat, p: nat)
    requires WorkerInv(w) && Held(w, n, arrival, p)
    ensures !Durable(w, arrival) && arrival <= w.arrivals
  {
    forall i | 0 <= i < |w.log| ensures w.log[i].Notified? ==> w.log[i].arrival != arrival {
      NotBoth(w.log, w.buffered, w.arrivals, i, p);
    }
    assert Timeline(w.log, w.buffered)[|w.log| + p] == Some(Arrival(arrival, true, n.thread));
  }

  /** Until the first deciding command a notification that is held back stays where it is. */
  lemma {:induction false} HeldUntil(store: Store, w: Worker, n: Notification, arrival: nat, p: nat, moves: seq<Move>)
    requires WorkerInv(w) && Held(w, n, arrival, p)
    requires forall i :: 0 <= i < |moves| ==> !Deciding(w.pendingTurn, moves[i])
    ensures var v := MoveAll(store, w, moves);
            WorkerInv(v) && v.pendingTurn == w.pendingTurn && Held(v, n, arrival, p)
  {
    if moves != [] {
      var last := |moves| - 1;
      HeldUntil(store, w, n, arrival, p, moves[..last]);
      HeldStep(store, MoveAll(store, w, moves[..last]), n, arrival, p, moves[last]);
    }
  }

  lemma {:induction false} HeldStep(store: Store, w: Worker, n: Notification, arrival: nat, p: nat, m: Move)
    requires WorkerInv(w) && Held(w, n, arrival, p) && !Deciding(w.pendingTurn, m)
    ensures var v := Moved(store, w, m);
            WorkerInv(v) && v.pendingTurn == w.pendingTurn && Held(v, n, arrival, p)
  {
    MoveKeepsInv(store, w, m);
    if m.Do? && m.command.Event? {
      HandleLog(store, w.(arrivals := w.arrivals + 1), m.command.value, w.arrivals + 1);
    }
  }

  /** The deciding command writes or drops it. */
  lemma {:induction false} Decided(store: Store, w: Worker, n: Notification, arrival: nat, p: nat, command: Command)
    requires WorkerInv(w) && Held(w, n, arrival, p) && Deciding(w.pendingTurn, Do(command))
    ensures var v := Work(store, w, command);
            && (Durable(v, arrival) <==> command.Flush? && Reaches(store, w, w.buffered, p))
            && (!Durable(v, arrival) ==> NeverWritten(v, arrival))
  {
    HeldIsNotDurable(w, n, arrival, p);
    if command.Flush? {
      FlushDecides(store, w, command.thread, p);
    }
  }

  lemma {:induction false} FlushDecides(store: Store, w: Worker, thread: ThreadId, p: nat)
    requires WorkerInv(w) && w.pendingTurn == Some(thread) && p < |w.buffered|
    ensures var v := Work(store, w, Flush(thread));
            && v.buffered == [] && v.arrivals == w.arrivals
            && (Durable(v, w.buffered[p].arrival) <==> Reaches(store, w, w.buffered, p))
  {
    FlushEmptiesBuffer(store, w, thread);
    var idle, items := w.(pendingTurn := None, buffered := []), w.buffered;
    forall i | 0 <= i < |items| ensures OfThread(items[i].value, thread) {
      assert HeldBack(w, items[i].value);
    }
    ReplayReaches(store, idle, items, thread, p);
    assert Fresh(w, items, p) == Fresh(idle, items, p);
  }

  // ---------- Main results ----------

  /** The condition under which the notification that comes next becomes durable, whatever follows:
      written at once if it is new and storage takes it; if it is held back, released by the flush of
      the pending turn before anything drops it, and reached by that replay. */
  ghost predicate BecomesDurable(store: Store, w: Worker, n: Notification, later: seq<Move>) {
    n.name.Some?
    && if HeldBack(w, n) then
         var d := FirstDeciding(w.pendingTurn, later);
         var v := MoveAll(store, Work(store, w, Event(n)), later[..d]);
         && d < |later| && later[d].command.Flush?
         && |w.buffered| < |v.buffered| && Reaches(store, v, v.buffered, |w.buffered|)
       else n !in w.seen && store(w.sequence + 1)
  }

  /** For any state of the worker, any notification, and any commands and client appends after it. */
  lemma {:induction false} ArrivalFate(store: Store, w: Worker, n: Notification, later: seq<Move>)
    requires WorkerInv(w)
    ensures Durable(MoveAll(store, Work(store, w, Event(n)), later), w.arrivals + 1) <==>
              BecomesDurable(store, w, n, later)
  {
    EventKeepsInv(store, w, n);
    NothingArrivedYet(w);
    if n.name.Some? && HeldBack(w, n) {
      HeldFate(store, w, n, later);
    } else {
      DirectFate(store, w, n, later);
    }
  }

  lemma {:induction false} NothingArrivedYet(w: Worker)
    requires WorkerInv(w)
    ensures !Durable(w, w.arrivals + 1)
    ensures forall i :: 0 <= i < |w.buffered| ==> w.buffered[i].arrival != w.arrivals + 1
  {
    var line := Timeline(w.log, w.buffered);
    assert forall i :: 0 <= i < |w.log| ==> line[i] == ArrivalOf(w.log[i]);
    assert forall i :: 0 <= i < |w.buffered| ==>
        line[|w.log| + i] == Some(Arrival(w.buffered[i].arrival, true, w.buffered[i].value.thread));
  }

  lemma {:induction false} DirectFate(store: Store, w: Worker, n: Notification, later: seq<Move>)
    requires WorkerInv(w) && WorkerInv(Work(store, w, Event(n))) && !Durable(w, w.arrivals + 1)
    requires forall i :: 0 <= i < |w.buffered| ==> w.buffered[i].arrival != w.arrivals + 1
    requires n.name == None || !HeldBack(w, n)
    ensures Durable(MoveAll(store, Work(store, w, Event(n)), later), w.arrivals + 1) <==>
              n.name.Some? && n !in w.seen && store(w.sequence + 1)
  {
    var v := Work(store, w, Event(n));
    FateStays(store, v, later, 0, w.arrivals + 1);
    if n.name.Some? && n !in w.seen && store(w.sequence + 1) {
      assert v.log[|w.log|].Notified? && v.log[|w.log|].arrival == w.arrivals + 1;
    } else {
      assert v.log == w.log && v.buffered == w.buffered;
      assert NeverWritten(v, w.arrivals + 1);
    }
  }

  lemma {:induction false} HeldFate(store: Store, w: Worker, n: Notification, later: seq<Move>)
    requires WorkerInv(w) && WorkerInv(Work(store, w, Event(n)))
    requires n.name.Some? && HeldBack(w, n)
    ensures Durable(MoveAll(store, Work(store, w, Event(n)), later), w.arrivals + 1) <==>
              BecomesDurable(store, w, n, later)
  {
    var u, at, p := Work(store, w, Event(n)), w.arrivals + 1, |w.buffered|;
    var d := FirstDeciding(w.pendingTurn, later);
    HeldUntil(store, u, n, at, p, later[..d]);
    var v := MoveAll(store, u, later[..d]);
    if d == |later| {
      assert later[..d] == later;
      HeldIsNotDurable(v, n, at, p);
    } else {
      Decided(store, v, n, at, p, later[d].command);
      assert later[..d + 1][..d] == later[..d];
      assert MoveAll(store, u, later[..d + 1]) == Moved(store, v, later[d]);
      FateStays(store, u, later, d + 1, at);
    }
  }

  /** A new notification that meets an idle worker becomes durable, whatever the channel brings
      and clients append later, exactly if it names a thread or starts a turn; otherwise it never does. */
  lemma {:induction false} IdleFate(store: Store, w: Worker, n: Notification, later: seq<Move>)
    requires WorkerInv(w) && w.pendingTurn == None
    requires n.name.Some? && n !in w.seen && store(w.sequence + 1)
    ensures Durable(MoveAll(store, Work(store, w, Event(n)), later), w.arrivals + 1) <==>
              n.thread.Some? || n.name == Some(TURN_STARTED)
  {
    ArrivalFate(store, w, n, later);
  }

  /** The losing half without any condition on storage or on what was seen before. */
  lemma {:induction false} IdleThreadlessIsLost(store: Store, w: Worker, n: Notification, later: seq<Move>)
    requires WorkerInv(w) && w.pendingTurn == None
    requires n.thread == None && n.name.Some? && n.name != Some(TURN_STARTED)
    ensures var v := MoveAll(store, Work(store, w, Event(n)), later);
            WorkerInv(v) && NeverWritten(v, w.arrivals + 1)
  {
    EventKeepsInv(store, w, n);
    NothingArrivedYet(w);
    FateStays(store, Work(store, w, Event(n)), later, 0, w.arrivals + 1);
  }

  // ---------- In the whole system ----------

  /** What an action of the system does to the worker's state. */
  function MovesOf(s: CodexTurns.System, a: CodexTurns.Action): seq<Move> {
    match a
    case RecordStart(k) =>
      if k < |s.turns| && s.turns[k].stage.Requested? then [Append(TurnStarted(k, s.turns[k].thread, 0))] else []
    case Emit(kind) => [Append(ClientEvent(kind, 0))]
    case Dequeue => if s.done < |s.sent| then [Do(s.sent[s.done])] else []
    case Begin(_) => []
    case Fail(_) => []
    case SendFlush(_) => []
    case Enqueue(_) => []
  }

  /** The moves of the worker in the part `more` of a run. */
  function RunMoves(store: Store, lastSequence: nat, actions: seq<CodexTurns.Action>, more: seq<CodexTurns.Action>): seq<Move> {
    if more == [] then []
    else
      var before := more[..|more| - 1];
      RunMoves(store, lastSequence, actions, before)
      + MovesOf(CodexTurns.Exec(store, lastSequence, actions + before), more[|more| - 1])
  }

  lemma {:induction false} NextMoves(store: Store, s: CodexTurns.System, a: CodexTurns.Action)
    ensures |MovesOf(s, a)| <= 1
    ensures CodexTurns.Next(store, s, a).worker ==
              if MovesOf(s, a) == [] then s.worker else Moved(store, s.worker, MovesOf(s, a)[0])
  {
  }

  lemma {:induction false} MoveOnce(store: Store, w: Worker, moves: seq<Move>, more: seq<Move>)
    requires |more| <= 1
    ensures MoveAll(store, w, moves + more) ==
              if more == [] then MoveAll(store, w, moves) else Moved(store, MoveAll(store, w, moves), more[0])
  {
    if more == [] {
      assert moves + more == moves;
    } else {
      assert (moves + more)[..|moves|] == moves;
    }
  }

  /** The worker of a run is moved by the run's moves and by nothing else. */
  lemma {:induction false} WorkerOfRun(store: Store, lastSequence: nat, actions: seq<CodexTurns.Action>, more: seq<CodexTurns.Action>)
    ensures CodexTurns.Exec(store, lastSequence, actions + more).worker ==
              MoveAll(store, CodexTurns.Exec(store, lastSequence, actions).worker, RunMoves(store, lastSequence, actions, more))
  {
    if more == [] {
      assert actions + more == actions;
    } else {
      var before, last := more[..|more| - 1], more[|more| - 1];
      WorkerOfRun(store, lastSequence, actions, before);
      LastAction(store, lastSequence, actions, more);
      var s := CodexTurns.Exec(store, lastSequence, actions + before);
      NextMoves(store, s, last);
      var w, moves := CodexTurns.Exec(store, lastSequence, actions).worker, RunMoves(store, lastSequence, actions, before);
      MoveOnce(store, w, moves, MovesOf(s, last));
      assert RunMoves(store, lastSequence, actions, more) == moves + MovesOf(s, last);
    }
  }

  lemma {:induction false} LastAction(store: Store, lastSequence: nat, actions: seq<CodexTurns.Action>, more: seq<CodexTurns.Action>)
    requires more != []
    ensures CodexTurns.Exec(store, lastSequence, actions + more) ==
              CodexTurns.Next(store, CodexTurns.Exec(store, lastSequence, actions + more[..|more| - 1]), more[|more| - 1])
  {
    var whole := actions + more;
    assert whole[..|whole| - 1] == actions + more[..|more| - 1];
  }

  /** In any interleaving of clients, dispatcher and worker, for the notification that is next in the channel. */
  lemma {:induction false} RunFate(
    store: Store, lastSequence: nat, actions: seq<CodexTurns.Action>, n: Notification, more: seq<CodexTurns.Action>)
    requires var s := CodexTurns.Exec(store, lastSequence, actions); s.done < |s.sent| && s.sent[s.done] == Event(n)
    ensures var w := CodexTurns.Exec(store, lastSequence, actions).worker;
            var handled := actions + [CodexTurns.Dequeue];
            Durable(CodexTurns.Exec(store, lastSequence, handled + more).worker, w.arrivals + 1) <==>
              BecomesDurable(store, w, n, RunMoves(store, lastSequence, handled, more))
  {
    var w := CodexTurns.Exec(store, lastSequence, actions).worker;
    var handled := actions + [CodexTurns.Dequeue];
    CodexTurns.ExecInv(store, lastSequence, actions);
    assert handled[..|handled| - 1] == actions;
    WorkerOfRun(store, lastSequence, handled, more);
    ArrivalFate(store, w, n, RunMoves(store, lastSequence, handled, more));
  }

  /** A client's append can decide: the turn's own record takes the number that storage takes, and the
      notification behind it gets the one that storage refuses. */
  lemma {:induction false} AppendDecides(n: Notification)
    requires n.name == Some("item/started") && n.thread == Some("t")
    ensures var store := (m: nat) => m != 2;
            var w := Start(0).(pendingTurn := Some("t"));
            && BecomesDurable(store, w, n, [Do(Flush("t"))])
            && !BecomesDurable(store, w, n, [Append(TurnStarted(0, "t", 0)), Do(Flush("t"))])
  {
    var store := (m: nat) => m != 2;
    var w := Start(0).(pendingTurn := Some("t"));
    var u := Work(store, w, Event(n));
    var none: seq<Move> := [];
    var flush, append := [Do(Flush("t"))], [Append(TurnStarted(0, "t", 0))];
    assert flush[..0] == none && append[..0] == none && MoveAll(store, u, none) == u;
    assert u.buffered == [Buffered(n, 1)];
    OneFresh(u, n);
    assert (append + flush)[..1] == append && (append + flush)[1..] == flush;
    var v := Emit(store, u, TurnStarted(0, "t", 0));
    assert MoveAll(store, u, append) == v;
    OneFresh(v, n);
    assert FirstDeciding(w.pendingTurn, append + flush) == 1;
    assert !store(v.sequence + 1);
  }

  lemma {:induction false} OneFresh(w: Worker, n: Notification)
    requires w.buffered == [Buffered(n, 1)] && n !in w.seen
    ensures NewAt(w, w.buffered, 0) && |Fresh(w, w.buffered, 0)| == 1
  {
    ValuesCons(w.buffered, 0);
    ValuesNone(w.buffered[1..]);
    ValuesNone(w.buffered);
    assert Fresh(w, w.buffered, 0) == {n};
  }
}
