/** Request/response correlation. */
module CodexRpc {
  import opened Basics

  // Clients, the stdout dispatcher and the child watcher share one table of pending requests.
  // Every action below is one section that the code runs without giving up the table's lock.

  const MAX_PENDING_REQUESTS: nat := 64

  datatype Failure = RpcError | MalformedMessage | UnexpectedExit | Timeout | RequestCapacity | InvalidInput

  /** One response frame that named a request id. */
  datatype Frame = Frame(id: nat, outcome: Result<string, Failure>)

  /** What was put into a request's one-shot channel. */
  datatype Delivery = FromFrame(index: nat) | FromDrain

  /** The shared table, the one-shot channels (`inbox`) and the dispatcher's history: all response
      frames so far, and the positions of those answered with an `unmatched_response` diagnostic. */
  datatype Table = Table(
    nextId: nat,
    pending: set<nat>,
    inbox: map<nat, Delivery>,
    frames: seq<Frame>,
    unmatched: seq<nat>
  )

  predicate Full(t: Table) {
    |t.pending| >= MAX_PENDING_REQUESTS
  }

  function Inserted(t: Table, id: nat): Table {
    t.(pending := t.pending + {id})
  }

  function Removed(t: Table, id: nat): Table {
    t.(pending := t.pending - {id})
  }

  function Responded(t: Table, frame: Frame): Table {
    var logged := t.(frames := t.frames + [frame]);
    if frame.id in t.pending then
      logged.(pending := t.pending - {frame.id}, inbox := t.inbox[frame.id := FromFrame(|t.frames|)])
    else
      logged.(unmatched := t.unmatched + [|t.frames|])
  }

  function Drained(t: Table): Table {
    t.(pending := {}, inbox := t.inbox + map id | id in t.pending :: FromDrain)
  }

  /** The state behind the transport's locks, updated in place by its tasks. */
  class Shared {
    var nextId: nat
    var pending: set<nat>
    var inbox: map<nat, Delivery>
    var frames: seq<Frame>
    var unmatched: seq<nat>

    function Contents(): Table
      reads this
    {
      Table(nextId, pending, inbox, frames, unmatched)
    }

    constructor ()
      ensures Contents() == INITIAL.table
    {
      nextId, pending, inbox, frames, unmatched := 1, {}, map[], [], [];
    }

    method AllocateId() returns (id: nat)
      modifies this
      ensures id == old(nextId)
      ensures Contents() == old(Contents()).(nextId := id + 1)
    {
      id := nextId;
      nextId := nextId + 1;
    }

    method TryInsert(id: nat) returns (inserted: bool)
      modifies this
      ensures inserted == !Full(old(Contents()))
      ensures Contents() == if inserted then Inserted(old(Contents()), id) else old(Contents())
    {
      if |pending| >= MAX_PENDING_REQUESTS {
        return false;
      }
      pending := pending + {id};
      return true;
    }

    method Remove(id: nat)
      modifies this
      ensures Contents() == Removed(old(Contents()), id)
    {
      pending := pending - {id};
    }

    /** The entry is removed before the outcome is sent, so a second response finds nothing. */
    method CompleteFrame(frame: Frame)
      modifies this
      ensures Contents() == Responded(old(Contents()), frame)
    {
      var index := |frames|;
      frames := frames + [frame];
      if frame.id in pending {
        pending := pending - {frame.id};
        inbox := inbox[frame.id := FromFrame(index)];
      } else {
        unmatched := unmatched + [index];
      }
    }

    /** End of output or child exit: take the whole table, then answer every entry. */
    method CompleteAll()
      modifies this
      ensures Contents() == Drained(old(Contents()))
    {
      var drained := pending;
      pending := {};
      ghost var before := inbox;
      while drained != {}
        invariant drained <= old(pending) && pending == {}
        invariant nextId == old(nextId) && frames == old(frames) && unmatched == old(unmatched)
        invariant inbox == before + map id | id in old(pending) - drained :: FromDrain
        decreases drained
      {
        var id :| id in drained;
        inbox := inbox[id := FromDrain];
        drained := drained - {id};
      }
    }
  }

  // ---------- Callers and interleavings ----------

  /** Where a caller of `request` stands. */
  datatype Phase =
    | Numbered                   // has an id, not yet in the table
    | Writing                    // in the table, the request line is being written
    | Waiting                    // written, waiting for the one-shot channel
    | Leaving(error: Failure)    // write failed or timed out, entry not yet taken out
    | Settled(cause: Cause)      // `request` has returned
    | Abandoned                  // the future was dropped by an outer timeout

  datatype Cause = NoCapacity | Delivered(delivery: Delivery) | GaveUp(error: Failure)

  datatype State = State(table: Table, phases: map<nat, Phase>)

  const INITIAL := State(Table(1, {}, map[], [], []), map[])

  datatype Action =
    | Number
    | Insert(id: nat)
    | Written(id: nat)
    | WriteFailed(id: nat, error: Failure)
    | TimedOut(id: nat)
    | TakeOut(id: nat)
    | Receive(id: nat)
    | Abandon(id: nat)
    | Respond(frame: Frame)
    | Drain

  predicate WriteError(error: Failure) {
    error in {InvalidInput, UnexpectedExit, MalformedMessage}
  }

  ghost predicate InPhase(s: State, id: nat, phase: Phase) {
    id in s.phases && s.phases[id] == phase
  }

  ghost predicate Enabled(s: State, a: Action) {
    match a
    case Number => true
    case Insert(id) => InPhase(s, id, Numbered)
    case Written(id) => InPhase(s, id, Writing)
    case WriteFailed(id, error) => InPhase(s, id, Writing) && WriteError(error)
    case TimedOut(id) => InPhase(s, id, Waiting) && id !in s.table.inbox
    case TakeOut(id) => id in s.phases && s.phases[id].Leaving?
    case Receive(id) => InPhase(s, id, Waiting) && id in s.table.inbox
    case Abandon(id) => id in s.phases && !s.phases[id].Settled?
    case Respond(_) => true
    case Drain => true
  }

  ghost function Next(s: State, a: Action): State
    requires Enabled(s, a)
  {
    var t := s.table;
    match a
    case Number => State(t.(nextId := t.nextId + 1), s.phases[t.nextId := Numbered])
    case Insert(id) =>
      if Full(t) then State(t, s.phases[id := Settled(NoCapacity)])
      else State(Inserted(t, id), s.phases[id := Writing])
    case Written(id) => State(t, s.phases[id := Waiting])
    case WriteFailed(id, error) => State(t, s.phases[id := Leaving(error)])
    case TimedOut(id) => State(t, s.phases[id := Leaving(Timeout)])
    case TakeOut(id) => State(Removed(t, id), s.phases[id := Settled(GaveUp(s.phases[id].error))])
    case Receive(id) => State(t, s.phases[id := Settled(Delivered(t.inbox[id]))])
    case Abandon(id) => State(t, s.phases[id := Abandoned])
    case Respond(frame) => State(Responded(t, frame), s.phases)
    case Drain => State(Drained(t), s.phases)
  }

  ghost predicate Step(s: State, t: State) {
    exists a :: Enabled(s, a) && t == Next(s, a)
  }

  /** Any interleaving: each state follows from the one before by some enabled action. */
  ghost predicate Run(trace: seq<State>) {
    && trace != [] && trace[0] == INITIAL
    && forall i :: 0 <= i < |trace| - 1 ==> Step(trace[i], trace[i + 1])
  }

  // ---------- What holds in every reachable state ----------

  ghost predicate Live(phase: Phase) {
    phase.Writing? || phase.Waiting? || phase.Leaving?
  }

  function NumberedIds(nextId: nat): (ids: set<nat>)
    ensures forall id :: id in ids <==> 1 <= id < nextId
  {
    if nextId <= 1 then {} else NumberedIds(nextId - 1) + {nextId - 1}
  }

  /** Everything pending was numbered, at most 64 entries at once, and an entry that is
      still in the table has had nothing sent to it. */
  ghost predicate TableInv(s: State) {
    var t := s.table;
    && t.nextId >= 1
    && s.phases.Keys == NumberedIds(t.nextId)
    && t.pending <= s.phases.Keys && t.inbox.Keys <= s.phases.Keys
    && |t.pending| <= MAX_PENDING_REQUESTS
    && t.pending !! t.inbox.Keys
  }

  /** An entry belongs to a caller still at work or to an abandoned one, and a caller at
      work either has its entry or has its outcome: no wake-up is lost. */
  ghost predicate CallerInv(s: State) {
    forall id :: id in s.phases ==> PhaseInv(s, id, s.phases[id])
  }

  ghost predicate PhaseInv(s: State, id: nat, phase: Phase) {
    var t := s.table;
    && (id in t.pending ==> Live(phase) || phase.Abandoned?)
    && (Live(phase) ==> id in t.pending || id in t.inbox)
    && (phase.Numbered? ==> id !in t.inbox)
    && (phase.Leaving? ==> phase.error == Timeout || WriteError(phase.error))
    && (phase.Settled? ==>
          match phase.cause
          case NoCapacity => id !in t.inbox
          case Delivered(delivery) => id in t.inbox && t.inbox[id] == delivery
          case GaveUp(error) => error == Timeout || WriteError(error))
  }

  /** Each frame was either delivered to the request it names or got exactly one
      diagnostic, never both and never neither. */
  ghost predicate FrameInv(t: Table) {
    && (forall id :: id in t.inbox && t.inbox[id].FromFrame? ==>
          t.inbox[id].index < |t.frames| && t.frames[t.inbox[id].index].id == id)
    && (forall k :: 0 <= k < |t.frames| ==> (Unmatched(t, k) <==> !DeliveredFrame(t, k)))
    && (forall i, j :: 0 <= i < j < |t.unmatched| ==> t.unmatched[i] < t.unmatched[j])
    && (forall i :: 0 <= i < |t.unmatched| ==> t.unmatched[i] < |t.frames|)
  }

  ghost predicate Unmatched(t: Table, k: nat) {
    k in t.unmatched
  }

  ghost predicate DeliveredFrame(t: Table, k: nat) {
    k < |t.frames| && var id := t.frames[k].id; id in t.inbox && t.inbox[id] == FromFrame(k)
  }

  ghost predicate Inv(s: State) {
    TableInv(s) && CallerInv(s) && FrameInv(s.table)
  }

  lemma {:induction false} TableStep(s: State, a: Action)
    requires TableInv(s) && CallerInv(s) && Enabled(s, a)
    ensures TableInv(Next(s, a))
  {
    var n := Next(s, a);
    KeysStep(s, a);
    if a.Insert? {
      assert PhaseInv(s, a.id, Numbered);
      assert n.table == if Full(s.table) then s.table else Inserted(s.table, a.id);
    } else if a.TakeOut? {
      Shrinks(s.table.pending, a.id);
    } else if a.Respond? {
      Shrinks(s.table.pending, a.frame.id);
    }
  }

  lemma {:induction false} KeysStep(s: State, a: Action)
    requires TableInv(s) && Enabled(s, a)
    ensures Next(s, a).phases.Keys == NumberedIds(Next(s, a).table.nextId)
    ensures s.phases.Keys <= Next(s, a).phases.Keys
  {
    if a.Number? {
      assert NumberedIds(s.table.nextId + 1) == NumberedIds(s.table.nextId) + {s.table.nextId};
    } else {
      assert Next(s, a).phases.Keys == s.phases.Keys;
    }
  }

  lemma {:induction false} Shrinks(ids: set<nat>, id: nat)
    ensures |ids - {id}| <= |ids|
  {
    assert ids == ids - {id} + if id in ids then {id} else {};
  }

  lemma {:induction false} CallerStep(s: State, a: Action)
    requires TableInv(s) && CallerInv(s) && Enabled(s, a)
    ensures CallerInv(Next(s, a))
  {
    var n := Next(s, a);
    forall id | id in n.phases ensures PhaseInv(n, id, n.phases[id]) {
      assert id in s.phases ==> PhaseInv(s, id, s.phases[id]);
    }
  }

  lemma {:induction false} FrameStep(t: Table, frame: Frame)
    requires FrameInv(t) && t.pending !! t.inbox.Keys
    ensures FrameInv(Responded(t, frame))
  {
    var u := Responded(t, frame);
    forall k | 0 <= k < |u.frames| ensures Unmatched(u, k) <==> !DeliveredFrame(u, k) {
      if k < |t.frames| {
        assert u.frames[k] == t.frames[k];
        assert Unmatched(t, k) <==> !DeliveredFrame(t, k);
      }
    }
  }

  lemma {:induction false} DrainStep(t: Table)
    requires FrameInv(t) && t.pending !! t.inbox.Keys
    ensures FrameInv(Drained(t))
  {
    forall k | 0 <= k < |t.frames| ensures Unmatched(Drained(t), k) <==> !DeliveredFrame(Drained(t), k) {
      assert Unmatched(t, k) <==> !DeliveredFrame(t, k);
    }
  }

  lemma {:induction false} FrameSame(t: Table, u: Table)
    requires FrameInv(t) && u.inbox == t.inbox && u.frames == t.frames && u.unmatched == t.unmatched
    ensures FrameInv(u)
  {
    forall k | 0 <= k < |u.frames| ensures Unmatched(u, k) <==> !DeliveredFrame(u, k) {
      assert Unmatched(t, k) <==> !DeliveredFrame(t, k);
    }
  }

  lemma {:induction false} InvStep(s: State, a: Action)
    requires Inv(s) && Enabled(s, a)
    ensures Inv(Next(s, a))
  {
    TableStep(s, a);
    CallerStep(s, a);
    if a.Respond? {
      FrameStep(s.table, a.frame);
    } else if a.Drain? {
      DrainStep(s.table);
    } else {
      FrameSame(s.table, Next(s, a).table);
    }
  }

  /** In every interleaving: ids distinct and below the counter, at most 64 entries, no lost
      wake-up, and every response frame accounted for exactly once. */
  lemma {:induction false} InvHolds(trace: seq<State>, i: nat)
    requires Run(trace) && i < |trace|
    ensures Inv(trace[i])
  {
    if i > 0 {
      InvHolds(trace, i - 1);
      assert Step(trace[i - 1], trace[i - 1 + 1]);
      var a :| Enabled(trace[i - 1], a) && trace[i] == Next(trace[i - 1], a);
      InvStep(trace[i - 1], a);
    }
  }

  /** What one request can never lose: its settlement or its abandonment ... */
  ghost predicate KeepsPhases(s: State, t: State) {
    forall id :: id in s.phases && (s.phases[id].Settled? || s.phases[id].Abandoned?) ==>
      id in t.phases && t.phases[id] == s.phases[id]
  }

  /** ... and what was sent to it; and the history is only ever extended. */
  ghost predicate KeepsTable(s: Table, t: Table) {
    && s.nextId <= t.nextId
    && (forall id :: id in s.inbox ==> id in t.inbox && t.inbox[id] == s.inbox[id])
    && Extends(s.frames, t.frames) && Extends(s.unmatched, t.unmatched)
  }

  ghost predicate Keeps(s: State, t: State) {
    KeepsPhases(s, t) && KeepsTable(s.table, t.table)
  }

  /** Each request settles at most once and takes at most one delivery, the first one:
      nothing that happens later changes either. */
  lemma {:induction false} SettlesOnce(trace: seq<State>, i: nat, j: nat)
    requires Run(trace) && i <= j < |trace|
    ensures Keeps(trace[i], trace[j])
  {
    if i == j {
      KeepsItself(trace[i]);
    } else {
      SettlesOnce(trace, i, j - 1);
      KeepsNext(trace, j - 1);
      KeepsChain(trace[i], trace[j - 1], trace[j]);
    }
  }

  lemma {:induction false} KeepsNext(trace: seq<State>, i: nat)
    requires Run(trace) && i + 1 < |trace|
    ensures Keeps(trace[i], trace[i + 1])
  {
    var s, t := trace[i], trace[i + 1];
    InvHolds(trace, i);
    assert Step(s, t);
    var a :| Enabled(s, a) && t == Next(s, a);
    KeepsStep(s, a);
  }

  lemma {:induction false} KeepsStep(s: State, a: Action)
    requires Enabled(s, a)
    requires s.table.nextId !in s.phases && s.table.pending !! s.table.inbox.Keys
    ensures Keeps(s, Next(s, a))
  {
    assert KeepsPhases(s, Next(s, a));
    assert KeepsTable(s.table, Next(s, a).table);
  }

  lemma {:induction false} KeepsItself(s: State)
    ensures Keeps(s, s)
  {
    assert s.table.frames[..|s.table.frames|] == s.table.frames;
    assert s.table.unmatched[..|s.table.unmatched|] == s.table.unmatched;
  }

  lemma {:induction false} KeepsChain(s: State, t: State, u: State)
    requires Keeps(s, t) && Keeps(t, u)
    ensures Keeps(s, u)
  {
    assert u.table.frames[..|s.table.frames|] == t.table.frames[..|s.table.frames|];
    assert u.table.unmatched[..|s.table.unmatched|] == t.table.unmatched[..|s.table.unmatched|];
  }

  /** The value `request` returns, read off its cause. */
  function Returned(t: Table, cause: Cause): Result<string, Failure>
    requires cause.Delivered? && cause.delivery.FromFrame? ==> cause.delivery.index < |t.frames|
  {
    match cause
    case NoCapacity => Err(RequestCapacity)
    case GaveUp(error) => Err(error)
    case Delivered(FromDrain) => Err(UnexpectedExit)
    case Delivered(FromFrame(k)) => t.frames[k].outcome
  }

  /** A request that returns a value returns the outcome of a frame bearing its own id; one
      that fails does so for such a frame, a drain, a timeout, a write failure or a full table. */
  lemma {:induction false} SettlesFromOwnFrame(trace: seq<State>, i: nat, id: nat)
    requires Run(trace) && i < |trace|
    requires id in trace[i].phases && trace[i].phases[id].Settled?
    ensures var t, cause := trace[i].table, trace[i].phases[id].cause;
            && (cause.Delivered? && cause.delivery.FromFrame? ==>
                  cause.delivery.index < |t.frames| && t.frames[cause.delivery.index].id == id)
            && (Returned(t, cause).Ok? ==>
                  exists k :: 0 <= k < |t.frames| && t.frames[k] == Frame(id, Returned(t, cause)) && k !in t.unmatched)
            && (cause == NoCapacity ==> Returned(t, cause) == Err(RequestCapacity))
            && (cause == Delivered(FromDrain) ==> Returned(t, cause) == Err(UnexpectedExit))
            && (cause.GaveUp? ==>
                  && Returned(t, cause) == Err(cause.error)
                  && cause.error in {Timeout, InvalidInput, UnexpectedExit, MalformedMessage})
            && (forall k: nat :: cause == Delivered(FromFrame(k)) ==> Returned(t, cause) == t.frames[k].outcome)
  {
    InvHolds(trace, i);
    var t, cause := trace[i].table, trace[i].phases[id].cause;
    assert PhaseInv(trace[i], id, trace[i].phases[id]);
    if Returned(t, cause).Ok? {
      var k := cause.delivery.index;
      assert DeliveredFrame(t, k) && t.frames[k] == Frame(id, Returned(t, cause));
    }
  }

  /** The branch of `request` for a one-shot sender dropped unsent is dead: a waiting caller's
      entry is in the table or its outcome has arrived, and after a drain it has arrived. */
  lemma {:induction false} WaitingIsAnswerable(trace: seq<State>, i: nat, id: nat)
    requires Run(trace) && i < |trace| && InPhase(trace[i], id, Waiting)
    ensures id in trace[i].table.pending <==> !Enabled(trace[i], Receive(id))
    ensures Enabled(Next(trace[i], Drain), Receive(id))
  {
    InvHolds(trace, i);
    assert PhaseInv(trace[i], id, Waiting);
  }

  /** A response removes exactly its own id or yields one diagnostic, and touches no other request. */
  lemma {:induction false} ResponseIsExact(trace: seq<State>, i: nat, frame: Frame)
    requires Run(trace) && i < |trace|
    ensures var s, t := trace[i].table, Next(trace[i], Respond(frame)).table;
            && t.pending == s.pending - {frame.id}
            && Next(trace[i], Respond(frame)).phases == trace[i].phases
            && (forall id :: id != frame.id ==> (id in t.inbox <==> id in s.inbox))
            && (frame.id in s.pending ==> t.unmatched == s.unmatched && frame.id !in s.inbox && frame.id in t.inbox)
            && (frame.id !in s.pending ==> t.unmatched == s.unmatched + [|s.frames|] && t.inbox == s.inbox)
  {
    InvHolds(trace, i);
  }

  /** Dropping a `request` future leaves its entry behind: it still counts against the
      limit, until a response for it arrives or the table is drained. */
  lemma {:induction false} AbandonedEntriesStay(trace: seq<State>, i: nat, j: nat, id: nat)
    requires Run(trace) && i <= j < |trace|
    requires InPhase(trace[i], id, Abandoned) && id in trace[i].table.pending
    ensures id in trace[j].table.pending || id in trace[j].table.inbox
  {
    if i < j {
      AbandonedEntriesStay(trace, i, j - 1, id);
      SettlesOnce(trace, i, j - 1);
      assert KeepsPhases(trace[i], trace[j - 1]);
      assert InPhase(trace[j - 1], id, Abandoned);
      assert Step(trace[j - 1], trace[j - 1 + 1]);
      var a :| Enabled(trace[j - 1], a) && trace[j] == Next(trace[j - 1], a);
      AbandonedEntryStays(trace[j - 1], a, id);
    }
  }

  lemma {:induction false} AbandonedEntryStays(s: State, a: Action, id: nat)
    requires Enabled(s, a) && InPhase(s, id, Abandoned)
    requires id in s.table.pending || id in s.table.inbox
    ensures id in Next(s, a).table.pending || id in Next(s, a).table.inbox
  {
  }

  lemma {:induction false} Extended(trace: seq<State>, a: Action) returns (longer: seq<State>)
    requires Run(trace) && Enabled(Last(trace), a)
    ensures Run(longer) && Last(longer) == Next(Last(trace), a)
  {
    longer := trace + [Next(Last(trace), a)];
    forall i | 0 <= i < |longer| - 1 ensures Step(longer[i], longer[i + 1]) {
      if i < |trace| - 1 {
        assert Step(trace[i], trace[i + 1]);
      }
    }
  }

  /** The first `n` requests, all abandoned right after their entry was made. */
  function AllAbandoned(n: nat): State {
    var ids := NumberedIds(n + 1);
    State(Table(n + 1, ids, map[], [], []), map id | id in ids :: Abandoned)
  }

  lemma {:induction false} NumberedCount(n: nat)
    ensures |NumberedIds(n + 1)| == n
  {
    if n > 0 {
      NumberedCount(n - 1);
    }
  }

  lemma {:induction false} OneMoreAbandoned(n: nat, trace: seq<State>) returns (longer: seq<State>)
    requires n < MAX_PENDING_REQUESTS && Run(trace) && Last(trace) == AllAbandoned(n)
    ensures Run(longer) && Last(longer) == AllAbandoned(n + 1)
  {
    var id := n + 1;
    NumberedCount(n);
    longer := Extended(trace, Number);
    longer := Extended(longer, Insert(id));
    longer := Extended(longer, Abandon(id));
    assert NumberedIds(n + 2) == NumberedIds(n + 1) + {id};
    assert Last(longer).phases == AllAbandoned(n + 1).phases;
  }

  /** Any number of abandoned requests up to the limit is reachable. */
  lemma {:induction false} AbandonedRun(n: nat) returns (trace: seq<State>)
    requires n <= MAX_PENDING_REQUESTS
    ensures Run(trace) && Last(trace) == AllAbandoned(n)
  {
    if n == 0 {
      assert NumberedIds(1) == {};
      assert AllAbandoned(0).phases == map[];
      trace := [INITIAL];
    } else {
      trace := AbandonedRun(n - 1);
      trace := OneMoreAbandoned(n - 1, trace);
    }
  }

  /** A run in which the table is full although no caller is left, so that the next request is refused. */
  lemma {:induction false} AbandonedRequestsBlock() returns (trace: seq<State>)
    ensures Run(trace) && |Last(trace).table.pending| == MAX_PENDING_REQUESTS
    ensures forall id :: id in Last(trace).phases ==> Last(trace).phases[id] == Abandoned
    ensures var s := Next(Last(trace), Number);
            InPhase(s, 65, Numbered) && Next(s, Insert(65)).phases[65] == Settled(NoCapacity)
  {
    trace := AbandonedRun(MAX_PENDING_REQUESTS);
    NumberedCount(MAX_PENDING_REQUESTS);
  }
}
