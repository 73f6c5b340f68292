/** The notification worker. */
module CodexWorker {
  import opened Basics

  // Buffering between `Activate` and `Flush`, de-duplication and sequence allocation, specified
  // as functions on the worker's state.

  type ThreadId = string

  /** The fields of a notification that the worker reads. `name` (the JSON `method`) is None when it
      is not a string; `body` stands for the rest, so equality is equality of fingerprints. */
  datatype Notification = Notification(
    name: Option<string>,
    thread: Option<ThreadId>,
    turn: Option<string>,
    item: Option<string>,
    body: string
  )

  datatype Buffered = Buffered(value: Notification, arrival: nat)

  /** One durable event. */
  datatype Record =
    | Notified(value: Notification, arrival: nat, diagnostic: Option<string>, sequence: nat)
    | Diagnosed(kind: string, arrival: nat, sequence: nat)
    | TurnStarted(turn: nat, thread: ThreadId, sequence: nat)
    | ClientEvent(kind: string, sequence: nat)

  datatype Worker = Worker(
    sequence: nat,
    arrivals: nat,
    pendingTurn: Option<ThreadId>,
    buffered: seq<Buffered>,
    seen: set<Notification>,
    completedTurns: set<string>,
    startedItems: set<(string, string)>,
    log: seq<Record>
  )

  datatype Command =
    | Event(value: Notification)
    | Diagnostic(kind: string)
    | Activate(thread: ThreadId)
    | Flush(thread: ThreadId)
    | Clear

  const TURN_STARTED := "turn/started"

  /** A worker that continues a task's event stream after its last stored number. */
  function Start(lastSequence: nat): Worker {
    Worker(lastSequence, 0, None, [], {}, {}, {}, [])
  }

  /** Whether the append numbered `n` reaches storage; any pattern of failures is some `Store`. */
  type Store = nat -> bool

  function Numbered(record: Record, sequence: nat): Record {
    record.(sequence := sequence)
  }

  /** The number is used up whether or not the append succeeds. */
  function Emit(store: Store, w: Worker, record: Record): Worker {
    var next := w.sequence + 1;
    w.(sequence := next, log := if store(next) then w.log + [Numbered(record, next)] else w.log)
  }

  function TransportDiagnostic(w: Worker, n: Notification): Option<string> {
    if n.turn.Some? && n.turn.value in w.completedTurns && n.name != Some("turn/completed") then
      Some("late_notification")
    else if n.name == Some("item/completed") && n.turn.Some? && n.item.Some?
            && (n.turn.value, n.item.value) !in w.startedItems then
      Some("out_of_order_item_notification")
    else None
  }

  function Remember(w: Worker, n: Notification): Worker {
    w.(seen := w.seen + {n},
       startedItems := if n.name == Some("item/started") && n.turn.Some? && n.item.Some?
                       then w.startedItems + {(n.turn.value, n.item.value)} else w.startedItems,
       completedTurns := if n.name == Some("turn/completed") && n.turn.Some?
                         then w.completedTurns + {n.turn.value} else w.completedTurns)
  }

  /** Both sides are options: a notification without a thread matches an idle worker. */
  predicate HeldBack(w: Worker, n: Notification) {
    w.pendingTurn == n.thread && n.name != Some(TURN_STARTED)
  }

  function Handle(store: Store, w: Worker, n: Notification, arrival: nat): Worker {
    if n.name == None then w
    else if HeldBack(w, n) then w.(buffered := w.buffered + [Buffered(n, arrival)])
    else if n in w.seen then w
    else Emit(store, Remember(w, n), Notified(n, arrival, TransportDiagnostic(w, n), 0))
  }

  predicate Handles(store: Store, w: Worker, n: Notification) {
    n.name != None && (HeldBack(w, n) || n in w.seen || store(w.sequence + 1))
  }

  /** Buffered notifications in order; the first one that fails ends the replay. */
  function Replay(store: Store, w: Worker, items: seq<Buffered>): Worker
    decreases |items|
  {
    if items == [] then w
    else
      var next := Handle(store, w, items[0].value, items[0].arrival);
      if Handles(store, w, items[0].value) then Replay(store, next, items[1..]) else next
  }

  function FlushTurn(store: Store, w: Worker, thread: ThreadId): Worker {
    if w.pendingTurn == Some(thread) then Replay(store, w.(pendingTurn := None, buffered := []), w.buffered)
    else w
  }

  function Work(store: Store, w: Worker, command: Command): Worker {
    match command
    case Event(n) => Handle(store, w.(arrivals := w.arrivals + 1), n, w.arrivals + 1)
    case Diagnostic(kind) =>
      Emit(store, w.(arrivals := w.arrivals + 1), Diagnosed(kind, w.arrivals + 1, 0))
    case Activate(thread) => w.(pendingTurn := Some(thread), buffered := [])
    case Flush(thread) => FlushTurn(store, w, thread)
    case Clear => w.(pendingTurn := None, buffered := [])
  }

  /** The worker's state as its tasks update it, under one lock. */
  class EventState {
    const store: Store
    var sequence: nat
    var arrivals: nat
    var pendingTurn: Option<ThreadId>
    var buffered: seq<Buffered>
    var seen: set<Notification>
    var completedTurns: set<string>
    var startedItems: set<(string, string)>
    var log: seq<Record>

    function State(): Worker
      reads this
    {
      Worker(sequence, arrivals, pendingTurn, buffered, seen, completedTurns, startedItems, log)
    }

    constructor (store: Store, lastSequence: nat)
      ensures State() == Start(lastSequence) && this.store == store
    {
      this.store := store;
      sequence, arrivals, pendingTurn, buffered := lastSequence, 0, None, [];
      seen, completedTurns, startedItems, log := {}, {}, {}, [];
    }

    method EmitState(record: Record) returns (ok: bool)
      modifies this
      ensures ok == store(old(sequence) + 1)
      ensures State() == Emit(store, old(State()), record)
    {
      sequence := sequence + 1;
      ok := store(sequence);
      if ok {
        log := log + [Numbered(record, sequence)];
      }
    }

    method HandleNotification(n: Notification, arrival: nat) returns (ok: bool)
      modifies this
      ensures ok == Handles(store, old(State()), n)
      ensures State() == Handle(store, old(State()), n, arrival)
    {
      if n.name == None {
        return false;
      }
      if pendingTurn == n.thread && n.name != Some(TURN_STARTED) {
        buffered := buffered + [Buffered(n, arrival)];
        return true;
      }
      if n in seen {
        return true;
      }
      seen := seen + {n};
      var diagnostic := None;
      if n.turn.Some? && n.turn.value in completedTurns && n.name != Some("turn/completed") {
        diagnostic := Some("late_notification");
      } else if n.name == Some("item/completed") && n.turn.Some? && n.item.Some?
             && (n.turn.value, n.item.value) !in startedItems {
        diagnostic := Some("out_of_order_item_notification");
      }
      if n.name == Some("item/started") && n.turn.Some? && n.item.Some? {
        startedItems := startedItems + {(n.turn.value, n.item.value)};
      }
      if n.name == Some("turn/completed") && n.turn.Some? {
        completedTurns := completedTurns + {n.turn.value};
      }
      ok := EmitState(Notified(n, arrival, diagnostic, 0));
    }

    method FlushNotifications(thread: ThreadId) returns (ok: bool)
      modifies this
      ensures State() == FlushTurn(store, old(State()), thread)
    {
      var items := [];
      if pendingTurn == Some(thread) {
        pendingTurn := None;
        items := buffered;
        buffered := [];
      }
      var i := 0;
      while i < |items|
        invariant i <= |items|
        invariant Replay(store, State(), items[i..]) == FlushTurn(store, old(State()), thread)
      {
        ok := HandleNotification(items[i].value, items[i].arrival);
        if !ok {
          return;
        }
        i := i + 1;
      }
      ok := true;
    }

    /** One command from the channel, handled to the end before the next one is taken. */
    method Perform(command: Command)
      modifies this
      ensures State() == Work(store, old(State()), command)
    {
      match command
      case Event(n) =>
        arrivals := arrivals + 1;
        var _ := HandleNotification(n, arrivals);
      case Diagnostic(kind) =>
        arrivals := arrivals + 1;
        var _ := EmitState(Diagnosed(kind, arrivals, 0));
      case Activate(thread) =>
        pendingTurn := Some(thread);
        buffered := [];
      case Flush(thread) =>
        var _ := FlushNotifications(thread);
      case Clear =>
        pendingTurn := None;
        buffered := [];
    }
  }

  // ---------- Invariants of the worker ----------

  /** Only a notification of the pending turn is ever held back. */
  ghost predicate BufferInv(w: Worker) {
    forall i :: 0 <= i < |w.buffered| ==> w.buffered[i].value.name.Some? && HeldBack(w, w.buffered[i].value)
  }

  /** No notification is written twice, and numbers grow along the log. */
  ghost predicate LogInv(w: Worker) {
    && (forall i :: 0 <= i < |w.log| && w.log[i].Notified? ==> w.log[i].value in w.seen)
    && (forall i, j :: 0 <= i < j < |w.log| ==>
          w.log[i].sequence < w.log[j].sequence && !SameNotification(w.log[i], w.log[j]))
    && (forall i :: 0 <= i < |w.log| ==> w.log[i].sequence <= w.sequence)
  }

  ghost predicate SameNotification(q: Record, r: Record) {
    q.Notified? && r.Notified? && q.value == r.value
  }

  /** What arrival order is about: when something arrived, and for which thread if it is
      an ordinary notification (any but `turn/started`). */
  datatype Arrival = Arrival(at: nat, ordinary: bool, thread: Option<ThreadId>)

  function ArrivalOf(r: Record): Option<Arrival> {
    match r
    case Notified(n, at, _, _) => Some(Arrival(at, n.name != Some(TURN_STARTED), n.thread))
    case Diagnosed(_, at, _) => Some(Arrival(at, false, None))
    case TurnStarted(_, _, _) => None
    case ClientEvent(_, _) => None
  }

  /** The log's arrivals followed by those of the notifications still to be written. */
  function Timeline(log: seq<Record>, rest: seq<Buffered>): seq<Option<Arrival>> {
    seq(|log|, i requires 0 <= i < |log| => ArrivalOf(log[i]))
    + seq(|rest|, i requires 0 <= i < |rest| => Some(Arrival(rest[i].arrival, true, rest[i].value.thread)))
  }

  ghost predicate InOrder(a: Arrival, b: Arrival) {
    a.at != b.at && (a.ordinary && b.ordinary && a.thread == b.thread ==> a.at < b.at)
  }

  /** Every arrival occurs at most once, and the ordinary ones of each thread are in arrival order. */
  ghost predicate Chronological(line: seq<Option<Arrival>>, arrivals: nat) {
    && (forall i :: 0 <= i < |line| && line[i].Some? ==> line[i].value.at <= arrivals)
    && (forall i, j :: 0 <= i < j < |line| && line[i].Some? && line[j].Some? ==>
          InOrder(line[i].value, line[j].value))
  }

  ghost predicate ArrivalInv(w: Worker) {
    Chronological(Timeline(w.log, w.buffered), w.arrivals)
  }

  ghost predicate WorkerInv(w: Worker) {
    BufferInv(w) && LogInv(w) && ArrivalInv(w)
  }

  lemma {:induction false} ChronologicalDelete(line: seq<Option<Arrival>>, k: nat, arrivals: nat)
    requires Chronological(line, arrivals) && k < |line|
    ensures Chronological(line[..k] + line[k + 1..], arrivals)
  {
  }

  lemma {:induction false} ChronologicalPrefix(line: seq<Option<Arrival>>, k: nat, arrivals: nat)
    requires Chronological(line, arrivals) && k <= |line|
    ensures Chronological(line[..k], arrivals)
  {
  }

  lemma {:induction false} ChronologicalInsert(line: seq<Option<Arrival>>, k: nat, a: Option<Arrival>, arrivals: nat, later: nat)
    requires Chronological(line, arrivals) && k <= |line| && arrivals <= later
    requires a.Some? ==> arrivals < a.value.at <= later
    requires a.Some? && a.value.ordinary ==>
               forall j :: k <= j < |line| && line[j].Some? ==> line[j].value.thread != a.value.thread
    ensures Chronological(line[..k] + [a] + line[k..], later)
  {
  }

  /** Handling changes the log by at most one record. */
  lemma {:induction false} HandleLog(store: Store, w: Worker, n: Notification, arrival: nat)
    requires LogInv(w)
    ensures var v := Handle(store, w, n, arrival);
            && LogInv(v) && Extends(w.log, v.log)
            && v.arrivals == w.arrivals && v.pendingTurn == w.pendingTurn
            && (v.log == w.log ||
                (v.log == w.log + [v.log[|v.log| - 1]] && v.buffered == w.buffered
                 && v.log[|v.log| - 1].Notified? && v.log[|v.log| - 1].value == n
                 && v.log[|v.log| - 1].arrival == arrival
                 && ArrivalOf(v.log[|v.log| - 1]) == Some(Arrival(arrival, n.name != Some(TURN_STARTED), n.thread))))
  {
    var v := Handle(store, w, n, arrival);
    assert w.log[..|w.log|] == w.log;
    if n.name.Some? && !HeldBack(w, n) && n !in w.seen {
      var r := Notified(n, arrival, TransportDiagnostic(w, n), 0);
      NewKeepsLog(store, w, Remember(w, n), r);
      assert v == Emit(store, Remember(w, n), r);
    }
  }

  /** A notification not seen before is written. */
  lemma {:induction false} NewKeepsLog(store: Store, w: Worker, v: Worker, r: Record)
    requires LogInv(w) && v.log == w.log && v.sequence == w.sequence
    requires r.Notified? && r.value !in w.seen && v.seen == w.seen + {r.value}
    ensures LogInv(Emit(store, v, r)) && Extends(w.log, Emit(store, v, r).log)
  {
    assert (w.log + [Numbered(r, w.sequence + 1)])[..|w.log|] == w.log;
    assert w.log[..|w.log|] == w.log;
  }

  /** Replaying a flushed buffer re-buffers nothing and keeps every invariant. */
  lemma {:induction false} ReplayKeepsInv(store: Store, w: Worker, items: seq<Buffered>, thread: ThreadId)
    requires w.pendingTurn == None && w.buffered == [] && LogInv(w)
    requires Chronological(Timeline(w.log, items), w.arrivals)
    requires forall i :: 0 <= i < |items| ==> OfThread(items[i].value, thread)
    ensures var v := Replay(store, w, items);
            && LogInv(v) && Chronological(Timeline(v.log, []), v.arrivals)
            && v.pendingTurn == None && v.buffered == []
            && v.arrivals == w.arrivals && Extends(w.log, v.log)
    decreases |items|
  {
    if items == [] {
      assert w.log[..|w.log|] == w.log;
    } else {
      var n, arrival := items[0].value, items[0].arrival;
      var v := Handle(store, w, n, arrival);
      assert OfThread(n, thread);
      HandleLog(store, w, n, arrival);
      ReplayOne(w.log, v.log, items, w.arrivals);
      if Handles(store, w, n) {
        ReplayKeepsInv(store, v, items[1..], thread);
        assert Replay(store, w, items).log[..|w.log|] == v.log[..|w.log|];
      } else {
        var line := Timeline(v.log, items[1..]);
        ChronologicalPrefix(line, |v.log|, w.arrivals);
        assert line[..|v.log|] == Timeline(v.log, []);
      }
    }
  }

  ghost predicate OfThread(n: Notification, thread: ThreadId) {
    n.thread == Some(thread) && n.name.Some? && n.name != Some(TURN_STARTED)
  }

  /** The oldest notification still to be written moves to the end of the log or is dropped. */
  lemma {:induction false} ReplayOne(log: seq<Record>, grown: seq<Record>, items: seq<Buffered>, arrivals: nat)
    requires items != [] && Chronological(Timeline(log, items), arrivals)
    requires grown == log ||
             (|grown| == |log| + 1 && grown[..|log|] == log
              && ArrivalOf(grown[|log|]) == Some(Arrival(items[0].arrival, true, items[0].value.thread)))
    ensures Chronological(Timeline(grown, items[1..]), arrivals)
  {
    var line := Timeline(log, items);
    if grown == log {
      ChronologicalDelete(line, |log|, arrivals);
      assert line[..|log|] + line[|log| + 1..] == Timeline(grown, items[1..]);
    } else {
      assert line == Timeline(grown, items[1..]);
    }
  }

  lemma {:induction false} WriteNew(log: seq<Record>, rest: seq<Buffered>, r: Record, arrivals: nat, later: nat)
    requires Chronological(Timeline(log, rest), arrivals) && arrivals <= later
    requires ArrivalOf(r).Some? ==> arrivals < ArrivalOf(r).value.at <= later
    requires ArrivalOf(r).Some? && ArrivalOf(r).value.ordinary ==>
               forall j :: 0 <= j < |rest| ==> rest[j].value.thread != ArrivalOf(r).value.thread
    ensures Chronological(Timeline(log + [r], rest), later)
  {
    var line := Timeline(log, rest);
    ChronologicalInsert(line, |log|, ArrivalOf(r), arrivals, later);
    assert line[..|log|] + [ArrivalOf(r)] + line[|log|..] == Timeline(log + [r], rest);
  }

  lemma {:induction false} HoldBackNew(log: seq<Record>, rest: seq<Buffered>, n: Notification, arrivals: nat)
    requires Chronological(Timeline(log, rest), arrivals)
    ensures Chronological(Timeline(log, rest + [Buffered(n, arrivals + 1)]), arrivals + 1)
  {
    var line, a := Timeline(log, rest), Some(Arrival(arrivals + 1, true, n.thread));
    ChronologicalInsert(line, |line|, a, arrivals, arrivals + 1);
    assert line[..|line|] + [a] + line[|line|..] == Timeline(log, rest + [Buffered(n, arrivals + 1)]);
  }

  lemma {:induction false} EventKeepsInv(store: Store, w: Worker, n: Notification)
    requires WorkerInv(w)
    ensures WorkerInv(Work(store, w, Event(n)))
    ensures Extends(w.log, Work(store, w, Event(n)).log)
  {
    var a, v := w.(arrivals := w.arrivals + 1), Work(store, w, Event(n));
    HandleLog(store, a, n, w.arrivals + 1);
    assert v == Handle(store, a, n, w.arrivals + 1);
    EventKeepsBuffer(store, w, n);
    EventKeepsArrivals(store, w, n);
  }

  lemma {:induction false} EventKeepsArrivals(store: Store, w: Worker, n: Notification)
    requires BufferInv(w) && ArrivalInv(w)
    ensures ArrivalInv(Work(store, w, Event(n)))
  {
    var at := w.arrivals + 1;
    if n.name.Some? && HeldBack(w, n) {
      HoldBackNew(w.log, w.buffered, n, w.arrivals);
    } else if n.name.Some? && n !in w.seen && store(w.sequence + 1) {
      var r := Notified(n, at, TransportDiagnostic(w, n), w.sequence + 1);
      if n.name != Some(TURN_STARTED) {
        NoneOfThread(w, n);
      }
      WriteNew(w.log, w.buffered, r, w.arrivals, at);
    } else {
      ChronologicalLater(Timeline(w.log, w.buffered), w.arrivals, at);
    }
  }

  /** What is written at once is of another thread than what is held back, unless it is `turn/started`. */
  lemma {:induction false} NoneOfThread(w: Worker, n: Notification)
    requires BufferInv(w) && !HeldBack(w, n) && n.name != Some(TURN_STARTED)
    ensures forall j :: 0 <= j < |w.buffered| ==> w.buffered[j].value.thread != n.thread
  {
    assert forall j :: 0 <= j < |w.buffered| ==> HeldBack(w, w.buffered[j].value);
  }

  lemma {:induction false} EventKeepsBuffer(store: Store, w: Worker, n: Notification)
    requires BufferInv(w)
    ensures BufferInv(Work(store, w, Event(n)))
  {
  }

  /** Every command keeps the worker's invariants and only extends the log. */
  lemma {:induction false} WorkKeepsInv(store: Store, w: Worker, command: Command)
    requires WorkerInv(w)
    ensures WorkerInv(Work(store, w, command))
    ensures Extends(w.log, Work(store, w, command).log)
  {
    var v := Work(store, w, command);
    match command
    case Event(n) => EventKeepsInv(store, w, n);
    case Diagnostic(kind) =>
      EmitKeepsInv(store, w, Diagnosed(kind, w.arrivals + 1, 0), w.arrivals + 1);
      assert v == Emit(store, w.(arrivals := w.arrivals + 1), Diagnosed(kind, w.arrivals + 1, 0));
    case Flush(thread) =>
      FlushKeepsInv(store, w, thread);
      assert v == FlushTurn(store, w, thread);
    case Activate(thread) =>
      ForgetKeepsInv(w, Some(thread));
      assert v == w.(pendingTurn := Some(thread), buffered := []);
    case Clear =>
      ForgetKeepsInv(w, None);
      assert v == w.(pendingTurn := None, buffered := []);
  }

  lemma {:induction false} FlushKeepsInv(store: Store, w: Worker, thread: ThreadId)
    requires WorkerInv(w)
    ensures WorkerInv(FlushTurn(store, w, thread)) && Extends(w.log, FlushTurn(store, w, thread).log)
  {
    if w.pendingTurn == Some(thread) {
      FlushEmptiesBuffer(store, w, thread);
    } else {
      assert w.log[..|w.log|] == w.log;
    }
  }

  lemma {:induction false} ForgetKeepsInv(w: Worker, pending: Option<ThreadId>)
    requires WorkerInv(w)
    ensures WorkerInv(w.(pendingTurn := pending, buffered := [])) && Extends(w.log, w.log)
  {
    assert w.log[..|w.log|] == w.log;
    ForgetBuffer(w.log, w.buffered, w.arrivals);
  }

  lemma {:induction false} ForgetBuffer(log: seq<Record>, buffered: seq<Buffered>, arrivals: nat)
    requires Chronological(Timeline(log, buffered), arrivals)
    ensures Chronological(Timeline(log, []), arrivals)
  {
    var line := Timeline(log, buffered);
    ChronologicalPrefix(line, |log|, arrivals);
    assert line[..|log|] == Timeline(log, []);
  }

  /** A client's or a diagnostic record, which no thread's order is about. */
  lemma {:induction false} EmitKeepsInv(store: Store, w: Worker, r: Record, arrivals: nat)
    requires WorkerInv(w) && !r.Notified?
    requires arrivals == if r.Diagnosed? then w.arrivals + 1 else w.arrivals
    requires r.Diagnosed? ==> r.arrival == arrivals
    ensures WorkerInv(Emit(store, w.(arrivals := arrivals), r))
    ensures Extends(w.log, Emit(store, w.(arrivals := arrivals), r).log)
  {
    EmitKeepsLogInv(store, w.(arrivals := arrivals), r);
    if store(w.sequence + 1) {
      WriteNew(w.log, w.buffered, Numbered(r, w.sequence + 1), w.arrivals, arrivals);
    } else {
      ChronologicalLater(Timeline(w.log, w.buffered), w.arrivals, arrivals);
    }
  }

  lemma {:induction false} ChronologicalLater(line: seq<Option<Arrival>>, arrivals: nat, later: nat)
    requires Chronological(line, arrivals) && arrivals <= later
    ensures Chronological(line, later)
  {
  }

  lemma {:induction false} EmitKeepsLogInv(store: Store, w: Worker, r: Record)
    requires LogInv(w) && !r.Notified?
    ensures LogInv(Emit(store, w, r)) && Extends(w.log, Emit(store, w, r).log)
  {
    assert w.log[..|w.log|] == w.log;
    assert (w.log + [Numbered(r, w.sequence + 1)])[..|w.log|] == w.log;
  }

  /** `Flush` of the pending turn leaves nothing behind. */
  lemma {:induction false} FlushEmptiesBuffer(store: Store, w: Worker, thread: ThreadId)
    requires WorkerInv(w) && w.pendingTurn == Some(thread)
    ensures var v := Work(store, w, Flush(thread));
            && v.buffered == [] && v.pendingTurn == None && v.arrivals == w.arrivals
            && WorkerInv(v) && Extends(w.log, v.log)
  {
    ReplayKeepsInv(store, w.(pendingTurn := None, buffered := []), w.buffered, thread);
  }

  ghost predicate FromItems(r: Record, items: seq<Buffered>) {
    r.Notified? && exists j :: 0 <= j < |items| && items[j] == Buffered(r.value, r.arrival)
  }

  /** A replay writes nothing but what had been held back. */
  lemma {:induction false} ReplayWrites(store: Store, w: Worker, items: seq<Buffered>, thread: ThreadId)
    requires w.pendingTurn == None && LogInv(w)
    requires forall i :: 0 <= i < |items| ==> OfThread(items[i].value, thread)
    ensures var v := Replay(store, w, items);
            && Extends(w.log, v.log)
            && forall i :: |w.log| <= i < |v.log| ==> FromItems(v.log[i], items)
    decreases |items|
  {
    if items == [] {
      assert w.log[..|w.log|] == w.log;
    } else {
      var u := Handle(store, w, items[0].value, items[0].arrival);
      assert OfThread(items[0].value, thread);
      HandleLog(store, w, items[0].value, items[0].arrival);
      if Handles(store, w, items[0].value) {
        ReplayWrites(store, u, items[1..], thread);
        FromItemsChain(w.log, u.log, Replay(store, w, items).log, items);
      }
    }
  }

  lemma {:induction false} FromItemsChain(a: seq<Record>, b: seq<Record>, c: seq<Record>, items: seq<Buffered>)
    requires items != [] && Extends(b, c)
    requires a == b || (|b| == |a| + 1 && b[..|a|] == a && b[|a|].Notified?
                        && items[0] == Buffered(b[|a|].value, b[|a|].arrival))
    requires forall i :: |b| <= i < |c| ==> FromItems(c[i], items[1..])
    ensures Extends(a, c)
    ensures forall i :: |a| <= i < |c| ==> FromItems(c[i], items)
  {
    assert c[..|a|] == b[..|a|];
    forall i | |a| <= i < |c| ensures FromItems(c[i], items) {
      if i < |b| {
        assert c[..|b|][i] == b[i] && items[0] == Buffered(c[i].value, c[i].arrival);
      } else {
        assert FromItems(c[i], items[1..]);
        var j :| 0 <= j < |items[1..]| && items[1..][j] == Buffered(c[i].value, c[i].arrival);
        assert items[j + 1] == Buffered(c[i].value, c[i].arrival);
      }
    }
  }
}
