/** When the record of a turn comes before the turn's notifications. */
module CodexProtection {
  import opened Basics
  import opened CodexWorker
  import opened CodexTurns

  // ---------- Runs and their prefixes ----------

  /** What an earlier state of a run still says about a later one. */
  ghost predicate Grew(s: System, t: System) {
    && Extends(s.sent, t.sent) && Extends(s.worker.log, t.worker.log) && |s.turns| <= |t.turns|
    && (forall k :: 0 <= k < |s.turns| ==> SameTurn(s.turns[k], t.turns[k]))
  }

  predicate SameTurn(a: Turn, b: Turn) {
    && a.thread == b.thread && a.activate == b.activate
    && (b.stage == Requested ==> a.stage == Requested)
    && (a.stage.Recorded? ==> (b.stage.Recorded? || b.stage.Flushed?) && b.stage.record == a.stage.record)
    && (a.stage.Flushed? ==> b.stage == a.stage)
  }

  lemma {:induction false} NextGrows(store: Store, s: System, a: Action)
    requires SystemInv(s)
    ensures Grew(s, Next(store, s, a)) && |Next(store, s, a).sent| <= |s.sent| + 1
    ensures |Next(store, s, a).turns| > |s.turns| ==> a.Begin?
  {
    var t := Next(store, s, a);
    assert t.sent[..|s.sent|] == s.sent;
    if a.Dequeue? && s.done < |s.sent| {
      WorkKeepsInv(store, s.worker, s.sent[s.done]);
    } else {
      assert t.worker.log[..|s.worker.log|] == s.worker.log;
    }
  }

  lemma {:induction false} GrewFurther(s: System, t: System, u: System)
    requires Grew(s, t) && Grew(t, u)
    ensures Grew(s, u)
  {
    assert u.sent[..|s.sent|] == u.sent[..|t.sent|][..|s.sent|];
    assert u.worker.log[..|s.worker.log|] == u.worker.log[..|t.worker.log|][..|s.worker.log|];
    forall k | 0 <= k < |s.turns| ensures SameTurn(s.turns[k], u.turns[k]) {
      assert SameTurn(s.turns[k], t.turns[k]) && SameTurn(t.turns[k], u.turns[k]);
    }
  }

  lemma {:induction false} RunGrows(store: Store, lastSequence: nat, actions: seq<Action>, q: nat)
    requires q <= |actions|
    ensures Grew(Exec(store, lastSequence, actions[..q]), Exec(store, lastSequence, actions))
  {
    var s := Exec(store, lastSequence, actions[..q]);
    if q == |actions| {
      assert actions[..q] == actions;
      assert s.sent[..|s.sent|] == s.sent && s.worker.log[..|s.worker.log|] == s.worker.log;
    } else {
      var before, last := actions[..|actions| - 1], actions[|actions| - 1];
      var r := Exec(store, lastSequence, before);
      assert before[..q] == actions[..q];
      RunGrows(store, lastSequence, before, q);
      ExecInv(store, lastSequence, before);
      NextGrows(store, r, last);
      GrewFurther(s, r, Next(store, r, last));
    }
  }

  lemma {:induction false} RunContinues(store: Store, lastSequence: nat, actions: seq<Action>, more: seq<Action>)
    ensures Grew(Exec(store, lastSequence, actions), Exec(store, lastSequence, actions + more))
  {
    assert (actions + more)[..|actions|] == actions;
    RunGrows(store, lastSequence, actions + more, |actions|);
  }

  lemma {:induction false} OneNext(store: Store, lastSequence: nat, actions: seq<Action>, a: Action)
    ensures Exec(store, lastSequence, actions + [a]) == Next(store, Exec(store, lastSequence, actions), a)
  {
    var longer := actions + [a];
    assert longer[..|longer| - 1] == actions;
  }

  lemma {:induction false} OneMore(store: Store, lastSequence: nat, actions: seq<Action>, more: seq<Action>, a: Action)
    ensures Exec(store, lastSequence, actions + (more + [a])) == Next(store, Exec(store, lastSequence, actions + more), a)
  {
    var longer := actions + (more + [a]);
    assert longer[..|longer| - 1] == actions + more;
  }

  // ---------- The guarantee ----------

  /** Everything durable that belongs to the turn stands behind the turn's own record. */
  ghost predicate Protected(s: System, k: nat) {
    k < |s.turns| && forall i :: 0 <= i < |s.worker.log| && Belongs(s, s.turns[k], s.worker.log[i]) ==> StartedBefore(s, k, i)
  }

  /** Nothing disturbing was sent between two states before the turn's own `Flush`. */
  ghost predicate Quiet(s: System, t: System, k: nat) {
    k < |t.turns| && forall i :: |s.sent| <= i < End(t, t.turns[k]) && i < |t.sent| ==> Harmless(t.sent[i], t.turns[k].thread)
  }

  /** From a moment of the run at which the turn had begun, a continuation that sends nothing
      disturbing keeps the turn protected. */
  ghost predicate KeptBy(
    store: Store, lastSequence: nat, actions: seq<Action>, q: nat, more: seq<Action>, k: nat)
    requires q <= |actions|
  {
    var s, t := Exec(store, lastSequence, actions[..q]), Exec(store, lastSequence, actions[..q] + more);
    k < |s.turns| && Quiet(s, t, k) ==> Protected(t, k)
  }

  ghost predicate AlwaysKept(store: Store, lastSequence: nat, actions: seq<Action>, k: nat) {
    forall q: nat, more: seq<Action> :: q <= |actions| ==> KeptBy(store, lastSequence, actions, q, more, k)
  }

  lemma {:induction false} UndisturbedIsKept(
    store: Store, lastSequence: nat, actions: seq<Action>, k: nat, q: nat, more: seq<Action>)
    requires q <= |actions|
    requires var s := Exec(store, lastSequence, actions);
             k < |s.turns| && s.turns[k].stage == Requested && Undisturbed(s, s.turns[k])
    ensures KeptBy(store, lastSequence, actions, q, more, k)
  {
    var r, s := Exec(store, lastSequence, actions[..q]), Exec(store, lastSequence, actions);
    var t := Exec(store, lastSequence, actions[..q] + more);
    if k < |r.turns| && Quiet(r, t, k) {
      RunGrows(store, lastSequence, actions, q);
      RunContinues(store, lastSequence, actions[..q], more);
      assert SameTurn(r.turns[k], s.turns[k]) && SameTurn(r.turns[k], t.turns[k]);
      forall i | t.turns[k].activate < i < End(t, t.turns[k]) && i < |t.sent|
        ensures Harmless(t.sent[i], t.turns[k].thread)
      {
        if i < |r.sent| {
          assert s.sent[..|r.sent|][i] == t.sent[..|r.sent|][i];
        }
      }
      forall i | 0 <= i < |t.worker.log| && Belongs(t, t.turns[k], t.worker.log[i]) ensures StartedBefore(t, k, i) {
        TurnStartedFirst(store, lastSequence, actions[..q] + more, k, i);
      }
    }
  }

  // ---------- A disturbing command breaks it ----------

  /** The worker handles `n` commands. */
  function Drain(store: Store, s: System, n: nat): System {
    if n == 0 then s else Next(store, Drain(store, s, n - 1), Dequeue)
  }

  lemma {:induction false} DrainIsRun(store: Store, lastSequence: nat, actions: seq<Action>, n: nat)
    returns (more: seq<Action>)
    ensures Exec(store, lastSequence, actions + more) == Drain(store, Exec(store, lastSequence, actions), n)
  {
    if n == 0 {
      more := [];
      assert actions + more == actions;
    } else {
      var fewer := DrainIsRun(store, lastSequence, actions, n - 1);
      OneMore(store, lastSequence, actions, fewer, Dequeue);
      more := fewer + [Dequeue];
    }
  }

  lemma {:induction false} Drained(store: Store, s: System, n: nat)
    requires SystemInv(s) && s.done + n <= |s.sent|
    ensures var u := Drain(store, s, n);
            SystemInv(u) && u.sent == s.sent && u.turns == s.turns && u.done == s.done + n
  {
    if n > 0 {
      Drained(store, s, n - 1);
      NextKeepsInv(store, Drain(store, s, n - 1), Dequeue);
    }
  }

  /** After a disturbing command the turn's thread is not pending. */
  lemma {:induction false} DisturbedWork(store: Store, w: Worker, command: Command, thread: ThreadId)
    requires WorkerInv(w) && !Harmless(command, thread)
    ensures Work(store, w, command).pendingTurn != Some(thread)
  {
    if command.Flush? && w.pendingTurn == Some(command.thread) {
      FlushEmptiesBuffer(store, w, command.thread);
    }
  }

  lemma {:induction false} LastIsHandled(store: Store, s: System, n: nat, thread: ThreadId)
    requires SystemInv(s) && s.done + n + 1 == |s.sent| && !Harmless(s.sent[s.done + n], thread)
    ensures Drain(store, s, n + 1).worker.pendingTurn != Some(thread)
  {
    Drained(store, s, n);
    var u := Drain(store, s, n);
    DisturbedWork(store, u.worker, u.sent[u.done], thread);
  }

  function Probe(thread: ThreadId, body: string): Notification {
    Notification(Some("item/updated"), Some(thread), None, None, body)
  }

  /** Some notification has not been seen. */
  lemma {:induction false} Unseen(seen: set<Notification>, thread: ThreadId) returns (body: string)
    ensures Probe(thread, body) !in seen
  {
    body := "";
    var rest := seen;
    while rest != {}
      invariant rest <= seen
      invariant forall n :: n in seen && n !in rest ==> |n.body| < |body|
      decreases |rest|
    {
      var n :| n in rest;
      body := body + n.body + "x";
      rest := rest - {n};
    }
  }

  lemma {:induction false} WrittenAtOnce(store: Store, w: Worker, n: Notification)
    requires store(w.sequence + 1) && n.name == Some("item/updated") && n.thread != w.pendingTurn && n !in w.seen
    ensures var v := Work(store, w, Event(n));
            && |v.log| == |w.log| + 1
            && Ordinary(v.log[|w.log|]) && v.log[|w.log|].value == n && v.log[|w.log|].arrival == w.arrivals + 1
  {
  }

  /** The newest arrival belongs to a turn that is in flight. */
  lemma {:induction false} NewestBelongs(t: System, turn: Turn, r: Record)
    requires turn.activate + 1 < |t.sent| && turn.stage == Requested && Last(t.sent).Event?
    requires Ordinary(r) && r.value.thread == Some(turn.thread) && r.arrival == Arrivals(t.sent)
    ensures Belongs(t, turn, r)
  {
    assert t.sent[..|t.sent|] == t.sent;
    var before := |t.sent| - 1;
    ArrivalsGrow(t.sent, turn.activate + 1, before);
  }

  /** One more notification of the thread is written at once and stands before any record of the turn. */
  lemma {:induction false} ProbeIsWritten(store: Store, u: System, k: nat, n: Notification)
    requires store(u.worker.sequence + 1)
    requires SystemInv(u) && u.done == |u.sent| && k < |u.turns| && u.turns[k].stage == Requested
    requires u.worker.pendingTurn != Some(u.turns[k].thread) && n !in u.worker.seen
    requires n.name == Some("item/updated") && n.thread == Some(u.turns[k].thread)
    ensures var t := Next(store, Next(store, u, Enqueue(Event(n))), Dequeue);
            !Protected(t, k) && t.sent == u.sent + [Event(n)] && t.turns == u.turns
  {
    var t := Next(store, Next(store, u, Enqueue(Event(n))), Dequeue);
    var i := |u.worker.log|;
    assert PlaceInv(u, k);
    assert u.sent[..u.done] == u.sent && t.sent[..|u.sent|] == u.sent;
    WrittenAtOnce(store, u.worker, n);
    NewestBelongs(t, u.turns[k], t.worker.log[i]);
  }

  /** The last command sent disturbs the turn, whose request is in flight, and is not handled yet. */
  ghost predicate JustDisturbed(s: System, k: nat) {
    && k < |s.turns| && s.turns[k].stage == Requested && s.done < |s.sent|
    && !Harmless(s.sent[|s.sent| - 1], s.turns[k].thread)
  }

  ghost predicate InFlight(s: System, k: nat) {
    k < |s.turns| && s.turns[k].stage == Requested
  }

  /** The state after everything sent is handled, and then one more notification. */
  function Probed(store: Store, s: System, n: nat, probe: Notification): System {
    Next(store, Next(store, Drain(store, s, n), Enqueue(Event(probe))), Dequeue)
  }

  lemma {:induction false} ProbeShows(store: Store, s: System, k: nat, n: nat) returns (probe: Notification)
    requires forall m: nat :: store(m)
    requires SystemInv(s) && JustDisturbed(s, k) && s.done + n == |s.sent|
    ensures var t := Probed(store, s, n, probe);
            !Protected(t, k) && t.sent == s.sent + [Event(probe)] && t.turns == s.turns
  {
    var thread := s.turns[k].thread;
    var u := Drain(store, s, n);
    Drained(store, s, n);
    LastIsHandled(store, s, n - 1, thread);
    var body := Unseen(u.worker.seen, thread);
    probe := Probe(thread, body);
    ProbeIsWritten(store, u, k, probe);
  }

  /** The continuation that shows a disturbance. */
  lemma {:induction false} DisturbanceShows(store: Store, lastSequence: nat, actions: seq<Action>, k: nat)
    returns (more: seq<Action>)
    requires forall m: nat :: store(m)
    requires JustDisturbed(Exec(store, lastSequence, actions), k)
    ensures !KeptBy(store, lastSequence, actions, |actions|, more, k)
  {
    var s := Exec(store, lastSequence, actions);
    ExecInv(store, lastSequence, actions);
    var n := |s.sent| - s.done;
    var probe := ProbeShows(store, s, k, n);
    more := ProbeIsRun(store, lastSequence, actions, n, probe);
    assert actions[..|actions|] == actions;
  }

  lemma {:induction false} ProbeIsRun(
    store: Store, lastSequence: nat, actions: seq<Action>, n: nat, probe: Notification)
    returns (more: seq<Action>)
    ensures Exec(store, lastSequence, actions + more) == Probed(store, Exec(store, lastSequence, actions), n, probe)
  {
    var drain := DrainIsRun(store, lastSequence, actions, n);
    OneMore(store, lastSequence, actions, drain, Enqueue(Event(probe)));
    more := drain + [Enqueue(Event(probe))];
    OneMore(store, lastSequence, actions, more, Dequeue);
    more := more + [Dequeue];
  }

  /** The moment at which the first disturbing command had just been sent. */
  lemma {:induction false} FindDisturbance(store: Store, lastSequence: nat, actions: seq<Action>, k: nat)
    returns (q: nat)
    requires InFlight(Exec(store, lastSequence, actions), k)
    requires !Undisturbed(Exec(store, lastSequence, actions), Exec(store, lastSequence, actions).turns[k])
    ensures q <= |actions| && JustDisturbed(Exec(store, lastSequence, actions[..q]), k)
  {
    var before := actions[..|actions| - 1];
    var r, last := Exec(store, lastSequence, before), actions[|actions| - 1];
    ExecInv(store, lastSequence, before);
    NowOrBefore(store, r, last, k);
    if JustDisturbed(Next(store, r, last), k) {
      q := |actions|;
      assert actions[..q] == actions;
    } else {
      q := FindDisturbance(store, lastSequence, before, k);
      assert before[..q] == actions[..q];
    }
  }

  lemma {:induction false} NowOrBefore(store: Store, s: System, a: Action, k: nat)
    requires SystemInv(s) && InFlight(Next(store, s, a), k)
    requires !Undisturbed(Next(store, s, a), Next(store, s, a).turns[k])
    ensures JustDisturbed(Next(store, s, a), k) || (InFlight(s, k) && !Undisturbed(s, s.turns[k]))
  {
    var t := Next(store, s, a);
    NextGrows(store, s, a);
    var i :| t.turns[k].activate < i < End(t, t.turns[k]) && i < |t.sent| && !Harmless(t.sent[i], t.turns[k].thread);
    if i < |s.sent| {
      assert k < |s.turns| ==> SameTurn(s.turns[k], t.turns[k]);
      assert t.sent[..|s.sent|][i] == s.sent[i];
    }
  }

  // ---------- Main results ----------

  /** While a turn's request is in flight, its window holds no disturbing command exactly when, at
      every moment since the turn began, whatever happens next without a further disturbance leaves
      the turn protected. */
  lemma {:induction false} TurnProtectedExactly(store: Store, lastSequence: nat, actions: seq<Action>, k: nat)
    requires forall m: nat :: store(m)
    requires var s := Exec(store, lastSequence, actions); k < |s.turns| && s.turns[k].stage == Requested
    ensures var s := Exec(store, lastSequence, actions);
            Undisturbed(s, s.turns[k]) <==> AlwaysKept(store, lastSequence, actions, k)
  {
    var s := Exec(store, lastSequence, actions);
    if Undisturbed(s, s.turns[k]) {
      forall q: nat, more: seq<Action> | q <= |actions|
        ensures KeptBy(store, lastSequence, actions, q, more, k)
      {
        UndisturbedIsKept(store, lastSequence, actions, k, q, more);
      }
    } else {
      var q := FindDisturbance(store, lastSequence, actions, k);
      var more := DisturbanceShows(store, lastSequence, actions[..q], k);
      assert actions[..q][..|actions[..q]|] == actions[..q];
      assert !KeptBy(store, lastSequence, actions, q, more, k);
    }
  }

  /** Once the record of an undisturbed turn is durable, nothing that happens later breaks the order. */
  lemma {:induction false} RecordedInTime(
    store: Store, lastSequence: nat, actions: seq<Action>, k: nat, more: seq<Action>)
    requires InFlight(Exec(store, lastSequence, actions), k)
    requires Undisturbed(Exec(store, lastSequence, actions), Exec(store, lastSequence, actions).turns[k])
    requires store(Exec(store, lastSequence, actions).worker.sequence + 1)
    ensures Protected(Exec(store, lastSequence, actions + [RecordStart(k)] + more), k)
  {
    var recorded := actions + [RecordStart(k)];
    var s, r := Exec(store, lastSequence, actions), Exec(store, lastSequence, recorded);
    var t := Exec(store, lastSequence, recorded + more);
    OneNext(store, lastSequence, actions, RecordStart(k));
    RunContinues(store, lastSequence, recorded, more);
    ExecInv(store, lastSequence, actions);
    ExecInv(store, lastSequence, recorded + more);
    assert r == Next(store, s, RecordStart(k));
    RecordedFirst(store, s, t, k);
  }

  lemma {:induction false} RecordedFirst(store: Store, s: System, t: System, k: nat)
    requires SystemInv(s) && SystemInv(t) && Grew(Next(store, s, RecordStart(k)), t)
    requires InFlight(s, k) && Undisturbed(s, s.turns[k]) && store(s.worker.sequence + 1)
    ensures Protected(t, k)
  {
    var r := Next(store, s, RecordStart(k));
    NextGrows(store, s, RecordStart(k));
    GrewFurther(s, r, t);
    assert SameTurn(r.turns[k], t.turns[k]) && PlaceInv(t, k);
    forall i | 0 <= i < |t.worker.log| && Belongs(t, t.turns[k], t.worker.log[i]) ensures StartedBefore(t, k, i) {
      if i < |s.worker.log| {
        assert t.worker.log[..|s.worker.log|][i] == s.worker.log[i];
        NothingYet(s, t, k, i);
      }
    }
  }

  /** What was durable before the record does not belong to the turn. */
  lemma {:induction false} NothingYet(s: System, t: System, k: nat, i: nat)
    requires SystemInv(s) && Grew(s, t) && k < |s.turns| && s.turns[k].stage == Requested
    requires Undisturbed(s, s.turns[k]) && i < |s.worker.log|
    ensures !Belongs(t, t.turns[k], s.worker.log[i])
  {
    assert OrderInv(s, k);
    BelongedBefore(s, t, k, i);
  }

  lemma {:induction false} BelongedBefore(s: System, t: System, k: nat, i: nat)
    requires SystemInv(s) && Grew(s, t) && k < |s.turns| && s.turns[k].stage == Requested && i < |s.worker.log|
    ensures Belongs(t, t.turns[k], s.worker.log[i]) ==> Belongs(s, s.turns[k], s.worker.log[i])
  {
    assert PlaceInv(s, k) && SameTurn(s.turns[k], t.turns[k]);
    if Ordinary(s.worker.log[i]) {
      ArrivedBefore(s, i);
    }
    ArrivalsGrow(s.sent, s.done, |s.sent|);
    SamePrefix(s.sent, t.sent, s.turns[k].activate + 1);
    SamePrefix(s.sent, t.sent, |s.sent|);
  }

  lemma {:induction false} SamePrefix(sent: seq<Command>, grown: seq<Command>, a: nat)
    requires Extends(sent, grown) && a <= |sent|
    ensures grown[..a] == sent[..a] && sent[..|sent|] == sent
  {
    assert grown[..|sent|][..a] == grown[..a];
  }
}
