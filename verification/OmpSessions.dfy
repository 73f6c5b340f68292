/** Creating the session of an OMP process once. */
module OmpSessions {
  import opened Basics

  // Callers and the reader race to create it, under a double-checked lock.

  type CallId = nat

  type SessionId = nat

  /** Where one call stands. `Made` has stored a session that is not yet recorded in memory; `Recorded`
      still has to announce it. */
  datatype Phase =
    | Fresh
    | Waiting
    | Holding
    | Creating
    | Made(id: SessionId)
    | Recorded(id: SessionId)
    | Returned(result: Result<SessionId, ()>)
    | Gone

  datatype State = State(
    session: Option<SessionId>,
    lock: Option<CallId>,
    calls: map<CallId, Phase>,
    stored: seq<SessionId>,
    lost: nat)

  const START := State(None, None, map[], [], 0)

  function PhaseOf(s: State, c: CallId): Phase {
    if c in s.calls then s.calls[c] else Fresh
  }

  function Move(s: State, c: CallId, phase: Phase): State {
    s.(calls := s.calls[c := phase])
  }

  function Release(s: State): State {
    s.(lock := None)
  }

  predicate Holds(phase: Phase) {
    phase.Holding? || phase.Creating? || phase.Made? || phase.Recorded?
  }

  /** One step of a call. Storing and announcing may fail; a call may be abandoned at any point, which
      lets go of the lock. Disabled steps do nothing. */
  datatype Action =
    | Look(call: CallId)
    | Acquire(call: CallId)
    | LookAgain(call: CallId)
    | Store(call: CallId, ok: bool)
    | Record(call: CallId)
    | Announce(call: CallId, ok: bool)
    | Abandon(call: CallId)

  function Step(s: State, a: Action): State {
    var c := a.call;
    var phase := PhaseOf(s, c);
    match a
    case Look(_) =>
      if !phase.Fresh? then s
      else if s.session.Some? then Move(s, c, Returned(Ok(s.session.value)))
      else Move(s, c, Waiting)
    case Acquire(_) =>
      if phase.Waiting? && s.lock.None? then Move(s, c, Holding).(lock := Some(c)) else s
    case LookAgain(_) =>
      if !phase.Holding? then s
      else if s.session.Some? then Release(Move(s, c, Returned(Ok(s.session.value))))
      else Move(s, c, Creating)
    case Store(_, ok) =>
      if !phase.Creating? then s
      else if ok then Move(s, c, Made(|s.stored|)).(stored := s.stored + [|s.stored|])
      else Release(Move(s, c, Returned(Err(()))))
    case Record(_) =>
      if phase.Made? then Move(s, c, Recorded(phase.id)).(session := Some(phase.id)) else s
    case Announce(_, ok) =>
      if phase.Recorded? then Release(Move(s, c, Returned(if ok then Ok(phase.id) else Err(())))) else s
    case Abandon(_) =>
      var gone := Move(s, c, Gone);
      (if Holds(phase) then Release(gone) else gone).(lost := if phase.Made? then s.lost + 1 else s.lost)
  }

  /** How a call that has not returned comes to return: with the recorded session at either look; with an
      error if storing or announcing fails; and else with the session it recorded. */
  lemma {:induction false} ReturnsExactly(s: State, a: Action, result: Result<SessionId, ()>)
    requires !PhaseOf(s, a.call).Returned?
    ensures PhaseOf(Step(s, a), a.call) == Returned(result) <==>
              var phase := PhaseOf(s, a.call);
              || (((a.Look? && phase == Fresh) || (a.LookAgain? && phase == Holding)) && s.session.Some? && result == Ok(s.session.value))
              || (a.Store? && phase == Creating && !a.ok && result == Err(()))
              || (a.Announce? && phase.Recorded? && result == if a.ok then Ok(phase.id) else Err(()))
  {
  }

  function Steps(s: State, actions: seq<Action>): State {
    if actions == [] then s else Step(Steps(s, actions[..|actions| - 1]), actions[|actions| - 1])
  }

  /** The lock is held by the one call in the middle of the initialization, which has seen that there
      is no session; whoever has returned has returned the session. */
  ghost predicate Inv(s: State) {
    && (forall c: CallId :: Holds(PhaseOf(s, c)) <==> s.lock == Some(c))
    && (forall c: CallId :: CallOk(s, c))
    && |s.stored| == (if s.session.Some? then 1 else 0) + s.lost
                     + (if s.lock.Some? && PhaseOf(s, s.lock.value).Made? then 1 else 0)
  }

  predicate CallOk(s: State, c: CallId) {
    var phase := PhaseOf(s, c);
    && (phase.Creating? || phase.Made? ==> s.session.None?)
    && (phase.Recorded? ==> s.session == Some(phase.id))
    && (phase.Returned? && phase.result.Ok? ==> s.session == Some(phase.result.value))
  }

  lemma {:induction false} StepKeeps(s: State, a: Action)
    requires Inv(s)
    ensures Inv(Step(s, a))
    ensures s.session.Some? ==> Step(s, a).session == s.session
  {
    var t := Step(s, a);
    forall c: CallId ensures (Holds(PhaseOf(t, c)) <==> t.lock == Some(c)) && CallOk(t, c) {
      assert CallOk(s, c) && CallOk(s, a.call);
      assert Holds(PhaseOf(s, c)) <==> s.lock == Some(c);
      assert Holds(PhaseOf(s, a.call)) <==> s.lock == Some(a.call);
    }
    assert CallOk(s, a.call) && (Holds(PhaseOf(s, a.call)) <==> s.lock == Some(a.call));
    assert s.lock.Some? ==> CallOk(s, s.lock.value) && PhaseOf(t, s.lock.value) == PhaseOf(Step(s, a), s.lock.value);
  }

  lemma {:induction false} StepsKeep(s: State, actions: seq<Action>)
    requires Inv(s)
    ensures Inv(Steps(s, actions))
    ensures s.session.Some? ==> Steps(s, actions).session == s.session
  {
    if actions != [] {
      StepsKeep(s, actions[..|actions| - 1]);
      StepKeeps(Steps(s, actions[..|actions| - 1]), actions[|actions| - 1]);
    }
  }

  /** All calls that ever return a session return the same one. */
  lemma {:induction false} OneSession(earlier: seq<Action>, later: seq<Action>, c: CallId, d: CallId)
    ensures var s, t := Steps(START, earlier), Steps(Steps(START, earlier), later);
            var first, second := PhaseOf(s, c), PhaseOf(t, d);
            first.Returned? && first.result.Ok? && second.Returned? && second.result.Ok? ==>
              first.result == second.result
  {
    StepsKeep(START, earlier);
    var s := Steps(START, earlier);
    StepsKeep(s, later);
    assert CallOk(s, c) && CallOk(Steps(s, later), d);
  }

  predicate Abandons(actions: seq<Action>) {
    exists i :: 0 <= i < |actions| && actions[i].Abandon?
  }

  lemma {:induction false} NothingLost(actions: seq<Action>)
    requires !Abandons(actions)
    ensures Steps(START, actions).lost == 0
  {
    if actions != [] {
      var rest := actions[..|actions| - 1];
      assert forall i :: 0 <= i < |rest| ==> rest[i] == actions[i];
      NothingLost(rest);
      assert !actions[|actions| - 1].Abandon?;
    }
  }

  /** Some call has stored a session that is not recorded yet. */
  ghost predicate InHand(s: State) {
    exists c: CallId :: PhaseOf(s, c).Made?
  }

  /** The sessions ever stored: the recorded one, those lost with an abandoned call, and one in hand. */
  lemma {:induction false} StoredExactly(actions: seq<Action>)
    ensures var s := Steps(START, actions);
            |s.stored| == (if s.session.Some? then 1 else 0) + s.lost + (if InHand(s) then 1 else 0)
    ensures Steps(START, actions).session.Some? ==> !InHand(Steps(START, actions))
  {
    StepsKeep(START, actions);
    var s := Steps(START, actions);
    if InHand(s) {
      var c: CallId :| PhaseOf(s, c).Made?;
      assert Holds(PhaseOf(s, c)) <==> s.lock == Some(c);
      assert CallOk(s, c);
    }
  }

  /** Unless a call is abandoned between storing and recording, at most one session is ever stored. */
  lemma {:induction false} StoredOnce(actions: seq<Action>)
    ensures |Steps(START, actions).stored| <= 1 + Steps(START, actions).lost
    ensures !Abandons(actions) ==> |Steps(START, actions).stored| <= 1
  {
    StoredExactly(actions);
    if !Abandons(actions) {
      NothingLost(actions);
    }
  }

  // ---------- A run that stores two ----------

  /** The steps of one call up to storing a session. */
  function Creation(c: CallId): seq<Action> {
    [Look(c), Acquire(c), LookAgain(c), Store(c, true)]
  }

  lemma {:induction false} OneMore(actions: seq<Action>, a: Action)
    ensures Steps(START, actions + [a]) == Step(Steps(START, actions), a)
  {
    assert (actions + [a])[..|actions|] == actions;
  }

  /** Without a session and a holder of the lock, a new call stores one. */
  lemma {:induction false} Created(before: seq<Action>, c: CallId)
    requires var s := Steps(START, before); s.session.None? && s.lock.None? && PhaseOf(s, c).Fresh?
    ensures var s := Steps(START, before);
            Steps(START, before + Creation(c)) ==
              s.(lock := Some(c), calls := s.calls[c := Made(|s.stored|)], stored := s.stored + [|s.stored|])
  {
    var one := before + [Look(c)];
    var two := one + [Acquire(c)];
    var three := two + [LookAgain(c)];
    OneMore(before, Look(c));
    OneMore(one, Acquire(c));
    OneMore(two, LookAgain(c));
    OneMore(three, Store(c, true));
    assert before + Creation(c) == three + [Store(c, true)];
  }

  /** The first call is abandoned after storing its session, so the second call stores another. */
  lemma {:induction false} StoredTwice() returns (actions: seq<Action>)
    ensures var s := Steps(START, actions); s.stored == [0, 1] && s.session == Some(1) && s.lost == 1
  {
    actions := [];
    Created(actions, 0);
    actions := actions + Creation(0);
    OneMore(actions, Abandon(0));
    actions := actions + [Abandon(0)];
    Created(actions, 1);
    actions := actions + Creation(1);
    OneMore(actions, Record(1));
    actions := actions + [Record(1)];
  }
}
