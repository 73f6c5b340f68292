/** The run-context tables. */
module RunContexts {
  import opened Basics
  import opened Text

  datatype Lifecycle = Created | Starting | Running | Cancelling | Cancelled | Succeeded | Failed

  predicate Terminal(l: Lifecycle) {
    l.Cancelled? || l.Succeeded? || l.Failed?
  }

  predicate Edge(from: Lifecycle, to: Lifecycle) {
    match from
    case Created => to.Starting? || to.Cancelled?
    case Starting => to.Running? || to.Cancelling? || to.Cancelled? || to.Failed?
    case Running => to.Cancelling? || to.Succeeded? || to.Failed?
    case Cancelling => to.Cancelled? || to.Failed?
    case Cancelled => false
    case Succeeded => false
    case Failed => false
  }

  /** The table read the other way. */
  function EnteredFrom(to: Lifecycle): set<Lifecycle> {
    match to
    case Created => {}
    case Starting => {Created}
    case Running => {Starting}
    case Cancelling => {Starting, Running}
    case Cancelled => {Created, Starting, Cancelling}
    case Succeeded => {Running}
    case Failed => {Starting, Running, Cancelling}
  }

  /** A run ends exactly where no edge leads on. */
  lemma {:induction false} EdgesExactly(from: Lifecycle, to: Lifecycle)
    ensures Edge(from, to) <==> from in EnteredFrom(to)
    ensures Terminal(from) <==> forall next :: !Edge(from, next)
  {
    assert Terminal(from) || Edge(from, Starting) || Edge(from, Failed);
  }

  /** The states in which a run still accepts decisions. */
  predicate Open(l: Lifecycle) {
    l.Created? || l.Starting? || l.Running?
  }

  datatype Adapter = Codex | Claude

  type Ref = string

  datatype Owner = Owner(project: string, worktree: string, task: string)

  /** The two adapters keep separate tables. */
  datatype RunKey = RunKey(adapter: Adapter, ref: Ref)

  datatype Run = Run(
    owner: Owner,
    lifecycle: Lifecycle,
    cancelRequested: bool,
    version: nat,
    session: Option<string>,
    followups: nat,
    terminalText: Option<string>,
    terminalAt: Option<int>)

  type Runs = map<RunKey, Run>

  /** What a client remembers of a row; nothing says that it is up to date. */
  datatype Seen = Seen(
    key: RunKey, lifecycle: Lifecycle, version: nat, cancelRequested: bool, session: Option<string>)

  /** The WHERE clause of the guarded updates. */
  predicate Current(runs: Runs, seen: Seen) {
    seen.key in runs && runs[seen.key].lifecycle == seen.lifecycle && runs[seen.key].version == seen.version
  }

  predicate ActiveOwner(runs: Runs, adapter: Adapter, owner: Owner) {
    exists key :: key in runs && key.adapter == adapter && runs[key].owner == owner && !Terminal(runs[key].lifecycle)
  }

  predicate TaskKeyOk(task: string) {
    !IsBlank(task) && Utf8Length(task) <= 128
  }

  /** A new context, unless the reference is taken or the owner already has an active one. */
  function CreateRun(runs: Runs, key: RunKey, owner: Owner, ready: bool): Option<Runs> {
    if !TaskKeyOk(owner.task) || !ready || key in runs || ActiveOwner(runs, key.adapter, owner) then None
    else Some(runs[key := Run(owner, Created, false, 0, None, 0, None, None)])
  }

  predicate SessionOk(session: string) {
    |session| <= 128 && forall i :: 0 <= i < |session| ==> SessionChar(session[i])
  }

  predicate SessionChar(c: char) {
    '0' <= c <= '9' || 'A' <= c <= 'Z' || 'a' <= c <= 'z' || c == '-' || c == '_'
  }

  datatype Update = Update(next: Lifecycle, terminalText: Option<string>, session: Option<string>)

  predicate UpdateOk(seen: Seen, u: Update) {
    && Edge(seen.lifecycle, u.next)
    && !(seen.cancelRequested && u.next.Succeeded?)
    && (seen.key.adapter.Codex? && Terminal(u.next) ==> u.terminalText.Some?)
    && (u.session.Some? ==> seen.key.adapter.Claude? && SessionOk(u.session.value))
  }

  function Updated(run: Run, u: Update, t: int): Run {
    run.(lifecycle := u.next,
         version := run.version + 1,
         session := if u.session.Some? then u.session else run.session,
         terminalText := u.terminalText,
         terminalAt := if Terminal(u.next) then Some(t) else None)
  }

  function TransitionRun(runs: Runs, seen: Seen, u: Update, t: int): Option<Runs> {
    if UpdateOk(seen, u) && Current(runs, seen)
    then Some(runs[seen.key := Updated(runs[seen.key], u, t)])
    else None
  }

  function CancelTarget(l: Lifecycle): Lifecycle {
    if l.Created? then Cancelled else Cancelling
  }

  function CancelUpdate(l: Lifecycle): Update {
    var next := CancelTarget(l);
    Update(next, if Terminal(next) then Some("Cancellation confirmed.") else None, None)
  }

  function CodexCancelled(run: Run, next: Lifecycle, t: int): Run {
    run.(lifecycle := next,
         cancelRequested := true,
         version := run.version + 1,
         terminalText := if Terminal(next) then Some("Cancellation confirmed.") else run.terminalText,
         terminalAt := if Terminal(next) then Some(t) else None)
  }

  /** Codex records the request in its own statement; Claude goes through the transition. */
  function CancelRun(runs: Runs, seen: Seen, t: int): Option<Runs> {
    if Terminal(seen.lifecycle) then Some(runs)
    else if seen.key.adapter.Claude? then TransitionRun(runs, seen, CancelUpdate(seen.lifecycle), t)
    else if Current(runs, seen) then
      Some(runs[seen.key := CodexCancelled(runs[seen.key], CancelTarget(seen.lifecycle), t)])
    else None
  }

  function Interrupted(run: Run, t: int): Run {
    run.(lifecycle := Failed,
         version := run.version + 1,
         terminalText := Some("Execution was interrupted before completion."),
         terminalAt := Some(t))
  }

  /** Startup reconciliation of one table: whatever was active has failed. */
  function InterruptRuns(runs: Runs, adapter: Adapter, t: int): Runs {
    map key | key in runs ::
      if key.adapter == adapter && !Terminal(runs[key].lifecycle) then Interrupted(runs[key], t) else runs[key]
  }

  function ReserveFollowup(runs: Runs, seen: Seen): Option<Runs> {
    if seen.key.adapter.Claude? && seen.lifecycle.Running? && seen.session.Some? && Current(runs, seen) then
      var run := runs[seen.key];
      Some(runs[seen.key := run.(followups := run.followups + 1, version := run.version + 1)])
    else None
  }

  datatype RunAction =
    | Create(key: RunKey, owner: Owner, ready: bool)
    | Transition(seen: Seen, update: Update, t: int)
    | Cancel(seen: Seen, t: int)
    | Interrupt(adapter: Adapter, t: int)
    | Followup(seen: Seen)

  function Try(result: Option<Runs>, runs: Runs): Runs {
    if result.Some? then result.value else runs
  }

  function RunStep(runs: Runs, a: RunAction): Runs {
    match a
    case Create(key, owner, ready) => Try(CreateRun(runs, key, owner, ready), runs)
    case Transition(seen, update, t) => Try(TransitionRun(runs, seen, update, t), runs)
    case Cancel(seen, t) => Try(CancelRun(runs, seen, t), runs)
    case Interrupt(adapter, t) => InterruptRuns(runs, adapter, t)
    case Followup(seen) => Try(ReserveFollowup(runs, seen), runs)
  }

  // ---------- What every statement keeps ----------

  /** A run that was asked to stop is stopping, stopped or failed; the end time marks the terminal states. */
  predicate RunOk(run: Run) {
    && (run.cancelRequested ==> run.lifecycle.Cancelling? || run.lifecycle.Cancelled? || run.lifecycle.Failed?)
    && (run.terminalAt.Some? <==> Terminal(run.lifecycle))
  }

  /** How one row may change: not at all, along an edge, by a repeated cancellation, by an interruption,
      or by a follow-up; a new version each time, and never out of a terminal state. */
  predicate RunMoves(before: Run, after: Run) {
    || after == before
    || (&& after.owner == before.owner && after.version == before.version + 1 && !Terminal(before.lifecycle)
        && (before.cancelRequested ==> after.cancelRequested)
        && (|| Edge(before.lifecycle, after.lifecycle)
            || (before.lifecycle.Cancelling? && after.lifecycle.Cancelling?)
            || (after.lifecycle.Running? && before.lifecycle.Running?)
            || after.lifecycle.Failed?))
  }

  /** At most one active run per adapter and owner. */
  ghost predicate OneActive(runs: Runs) {
    forall a, b ::
      (a in runs && b in runs && a.adapter == b.adapter && runs[a].owner == runs[b].owner
       && !Terminal(runs[a].lifecycle) && !Terminal(runs[b].lifecycle)) ==> a == b
  }

  ghost predicate RunsOk(runs: Runs) {
    (forall key :: key in runs ==> RunOk(runs[key])) && OneActive(runs)
  }

  /** No row disappears, and each moves by the rules. */
  ghost predicate RunsMove(before: Runs, after: Runs) {
    forall key :: key in before ==> key in after && RunMoves(before[key], after[key])
  }

  lemma {:induction false} MoveStaysOk(before: Run, after: Run)
    requires RunMoves(before, after)
    ensures Terminal(before.lifecycle) ==> after == before
    ensures !Open(before.lifecycle) ==> !Open(after.lifecycle)
    ensures before.version <= after.version
  {
  }

  lemma {:induction false} RunStepMoves(runs: Runs, a: RunAction)
    requires RunsOk(runs)
    ensures RunsMove(runs, RunStep(runs, a))
  {
  }

  lemma {:induction false} OnlyCreateAdds(runs: Runs, a: RunAction)
    ensures forall key :: key in RunStep(runs, a) && key !in runs ==>
              a.Create? && a.key == key && RunStep(runs, a)[key] == Run(a.owner, Created, false, 0, None, 0, None, None)
    ensures a.Create? ==> forall key :: key in runs ==> RunStep(runs, a)[key] == runs[key]
  {
  }

  lemma {:induction false} RunStepRowsOk(runs: Runs, a: RunAction)
    requires RunsOk(runs)
    ensures forall key :: key in RunStep(runs, a) ==> RunOk(RunStep(runs, a)[key])
  {
  }

  lemma {:induction false} RunStepOneActive(runs: Runs, a: RunAction)
    requires RunsOk(runs)
    ensures OneActive(RunStep(runs, a))
  {
    RunStepMoves(runs, a);
    var after := RunStep(runs, a);
    forall k, l | k in after && l in after && k.adapter == l.adapter && after[k].owner == after[l].owner
      && !Terminal(after[k].lifecycle) && !Terminal(after[l].lifecycle)
      ensures k == l
    {
      if k in runs && l in runs {
        assert RunMoves(runs[k], after[k]) && RunMoves(runs[l], after[l]);
      } else {
        CreatedAlone(runs, a, k, l);
        CreatedAlone(runs, a, l, k);
      }
    }
  }

  /** A new row is the only active one of its owner. */
  lemma {:induction false} CreatedAlone(runs: Runs, a: RunAction, prior: RunKey, added: RunKey)
    requires RunsOk(runs)
    ensures var after := RunStep(runs, a);
            (prior in runs && added in after && added !in runs && prior.adapter == added.adapter
             && after[prior].owner == after[added].owner) ==> Terminal(after[prior].lifecycle)
  {
    OnlyCreateAdds(runs, a);
    var after := RunStep(runs, a);
    if prior in runs && added in after && added !in runs && prior.adapter == added.adapter && after[prior].owner == after[added].owner {
      assert a.Create? && after[prior] == runs[prior];
      assert !ActiveOwner(runs, added.adapter, a.owner);
    }
  }

  ghost function RunSteps(runs: Runs, actions: seq<RunAction>): Runs {
    if actions == [] then runs
    else RunStep(RunSteps(runs, actions[..|actions| - 1]), actions[|actions| - 1])
  }

  /** Every reachable table is well-formed. */
  lemma {:induction false} RunsStayOk(runs: Runs, actions: seq<RunAction>)
    requires RunsOk(runs)
    ensures RunsOk(RunSteps(runs, actions))
  {
    if actions != [] {
      var last := RunSteps(runs, actions[..|actions| - 1]);
      RunsStayOk(runs, actions[..|actions| - 1]);
      RunStepRowsOk(last, actions[|actions| - 1]);
      RunStepOneActive(last, actions[|actions| - 1]);
    }
  }

  /** In every run of the system: a row once asked to stop never succeeds, a terminal row never
      changes again, and a row that has left the open states never returns to them. */
  lemma {:induction false} RunHistory(runs: Runs, actions: seq<RunAction>, key: RunKey)
    requires RunsOk(runs) && key in runs
    ensures var after := RunSteps(runs, actions);
            && key in after && after[key].owner == runs[key].owner && runs[key].version <= after[key].version
            && (runs[key].cancelRequested ==> after[key].cancelRequested && !after[key].lifecycle.Succeeded?)
            && (Terminal(runs[key].lifecycle) ==> after[key] == runs[key])
            && (!Open(runs[key].lifecycle) ==> !Open(after[key].lifecycle))
  {
    if actions != [] {
      var prefix := actions[..|actions| - 1];
      RunHistory(runs, prefix, key);
      RunsStayOk(runs, prefix);
      RunsStayOk(runs, actions);
      var last := RunSteps(runs, prefix);
      RunStepMoves(last, actions[|actions| - 1]);
      assert RunMoves(last[key], RunSteps(runs, actions)[key]);
      MoveStaysOk(last[key], RunSteps(runs, actions)[key]);
      assert RunOk(RunSteps(runs, actions)[key]);
    } else {
      assert RunOk(runs[key]);
    }
  }

  /** Each version of a row is committed at most once: an update that succeeds makes the snapshot stale. */
  lemma {:induction false} VersionsAreSpent(runs: Runs, seen: Seen, u: Update, t: int, actions: seq<RunAction>, again: Update, t': int)
    requires RunsOk(runs) && TransitionRun(runs, seen, u, t).Some?
    ensures TransitionRun(RunSteps(TransitionRun(runs, seen, u, t).value, actions), seen, again, t').None?
    ensures CancelRun(RunSteps(TransitionRun(runs, seen, u, t).value, actions), seen, t').None?
  {
    var next := RunStep(runs, Transition(seen, u, t));
    RunStepRowsOk(runs, Transition(seen, u, t));
    RunStepOneActive(runs, Transition(seen, u, t));
    RunHistory(next, actions, seen.key);
  }

  /** What a client's row and the stored one have in common when an update is let through. */
  predicate SameVersion(runs: Runs, seen: Seen) {
    seen.key in runs && runs[seen.key].lifecycle == seen.lifecycle && runs[seen.key].version == seen.version
  }

  predicate Ended(l: Lifecycle) {
    l in {Cancelled, Succeeded, Failed}
  }

  /** A run is created exactly for a task key of the right size and a ready worktree, under a new reference,
      and when its owner has no run in progress; and this is its row. */
  lemma {:induction false} CreatesExactly(runs: Runs, key: RunKey, owner: Owner, ready: bool)
    ensures RunStep(runs, Create(key, owner, ready)) ==
              if NonEmpty(owner.task, 128) && ready && key !in runs
                 && (forall k :: k in runs && k.adapter == key.adapter && runs[k].owner == owner ==> Ended(runs[k].lifecycle))
              then runs[key := Run(owner, Created, false, 0, None, 0, None, None)] else runs
  {
  }

  /** A transition writes the next lifecycle and version, the session if one is given, and the text, and
      the time exactly if the run ends. */
  lemma {:induction false} TransitionsExactly(runs: Runs, seen: Seen, u: Update, t: int)
    ensures RunStep(runs, Transition(seen, u, t)) ==
              if SameVersion(runs, seen) && seen.lifecycle in EnteredFrom(u.next)
                 && !(seen.cancelRequested && u.next == Succeeded)
                 && (seen.key.adapter == Codex && Ended(u.next) ==> u.terminalText.Some?)
                 && (u.session.Some? ==>
                       seen.key.adapter == Claude && |u.session.value| <= 128
                       && forall c :: c in u.session.value ==> 'a' <= c <= 'z' || 'A' <= c <= 'Z' || '0' <= c <= '9' || c in {'-', '_'})
              then
                var row := runs[seen.key];
                runs[seen.key := Run(row.owner, u.next, row.cancelRequested, row.version + 1,
                                     if u.session.Some? then u.session else row.session, row.followups, u.terminalText,
                                     if Ended(u.next) then Some(t) else None)]
              else runs
  {
    EdgesExactly(seen.lifecycle, u.next);
    assert u.session.Some? ==> forall i :: 0 <= i < |u.session.value| ==> u.session.value[i] in u.session.value;
  }

  /** A cancellation: nothing for a run that has ended; for Codex a recorded request; for Claude a transition. */
  lemma {:induction false} CancelsExactly(runs: Runs, seen: Seen, t: int)
    ensures var next := if seen.lifecycle == Created then Cancelled else Cancelling;
            var text := if next == Cancelled then Some("Cancellation confirmed.") else None;
            RunStep(runs, Cancel(seen, t)) ==
              if Ended(seen.lifecycle) then runs
              else if seen.key.adapter == Claude then RunStep(runs, Transition(seen, Update(next, text, None), t))
              else if !SameVersion(runs, seen) then runs
              else
                var row := runs[seen.key];
                runs[seen.key := Run(row.owner, next, true, row.version + 1, row.session, row.followups,
                                     if text.Some? then text else row.terminalText, if next == Cancelled then Some(t) else None)]
  {
  }

  /** A restart ends every run of the adapter that was in progress, and no other; a follow-up is counted
      exactly on a current running row of Claude with a session. */
  lemma {:induction false} InterruptsExactly(runs: Runs, adapter: Adapter, seen: Seen, t: int)
    ensures var after := RunStep(runs, Interrupt(adapter, t));
            && after.Keys == runs.Keys
            && forall key :: key in runs ==>
                 var row := runs[key];
                 after[key] == if key.adapter != adapter || Ended(row.lifecycle) then row
                               else Run(row.owner, Failed, row.cancelRequested, row.version + 1, row.session, row.followups,
                                        Some("Execution was interrupted before completion."), Some(t))
    ensures RunStep(runs, Followup(seen)) ==
              if seen.key.adapter == Claude && seen.lifecycle == Running && seen.session.Some? && SameVersion(runs, seen) then
                var row := runs[seen.key];
                runs[seen.key := Run(row.owner, row.lifecycle, row.cancelRequested, row.version + 1, row.session,
                                     row.followups + 1, row.terminalText, row.terminalAt)]
              else runs
  {
  }
}
