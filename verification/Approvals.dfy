/** Requests for approval. */
module Approvals {
  import opened Basics
  import opened Text
  import opened RunContexts

  datatype Profile = Safe | Balanced | Autonomous | Custom

  datatype ApprovalState = Pending | AllowedOnce | AllowedForTask | Denied | HardDenied

  datatype Decision = AllowOnce | AllowForTask | Deny

  datatype Source = User | Policy | RestartReconciliation

  /** The run an approval is bound to, if an adapter asked for it. */
  datatype Request = Request(
    owner: Owner, run: Option<RunKey>, profile: Profile, action: string, summary: string, state: ApprovalState, version: nat)

  datatype AuditRow = AuditRow(ref: Ref, owner: Owner, source: Source, profile: Profile, resulting: ApprovalState)

  datatype Db = Db(runs: Runs, requests: map<Ref, Request>, audit: seq<AuditRow>)

  const ALWAYS_DENIED: set<string> := {"merge", "push", "force_push", "install_cli", "unrestricted_permissions"}

  function Outcome(d: Decision): ApprovalState {
    match d
    case AllowOnce => AllowedOnce
    case AllowForTask => AllowedForTask
    case Deny => Denied
  }

  predicate Sized(s: string, max: nat) {
    s != [] && Utf8Length(s) <= max
  }

  /** The audit table admits one row per request; a second insert fails. */
  predicate Audited(audit: seq<AuditRow>, ref: Ref) {
    exists i :: 0 <= i < |audit| && audit[i].ref == ref
  }

  /** The insert and, for a denied action, its audit row: one transaction. */
  function Insert(db: Db, ref: Ref, owner: Owner, run: Option<RunKey>, profile: Profile, action: string, summary: string): Option<Db> {
    if ref in db.requests then None
    else if action in ALWAYS_DENIED then
      if Audited(db.audit, ref) then None
      else
        Some(db.(requests := db.requests[ref := Request(owner, run, profile, action, summary, HardDenied, 0)],
                 audit := db.audit + [AuditRow(ref, owner, Policy, profile, HardDenied)]))
    else Some(db.(requests := db.requests[ref := Request(owner, run, profile, action, summary, Pending, 0)]))
  }

  /** The run still takes decisions. */
  predicate Decidable(runs: Runs, owner: Owner, run: Option<RunKey>) {
    run.Some? ==>
      && run.value in runs && runs[run.value].owner == owner
      && Open(runs[run.value].lifecycle) && !runs[run.value].cancelRequested
  }

  /** The stored row is the pending one the caller saw. */
  predicate SameRow(db: Db, ref: Ref, seen: Request) {
    && ref in db.requests
    && db.requests[ref].state.Pending? && db.requests[ref].version == seen.version
    && db.requests[ref].owner == seen.owner && db.requests[ref].run == seen.run
  }

  /** A decided row and its audit row: one transaction. */
  function Settle(db: Db, ref: Ref, next: ApprovalState, source: Source, profile: Profile): Option<Db>
    requires ref in db.requests
  {
    if Audited(db.audit, ref) then None
    else
      var row := db.requests[ref];
      Some(db.(requests := db.requests[ref := row.(state := next, version := row.version + 1)],
               audit := db.audit + [AuditRow(ref, row.owner, source, profile, next)]))
  }

  function Resolve(db: Db, ref: Ref, seen: Request, d: Decision): Option<Db> {
    if seen.state.Pending? && SameRow(db, ref, seen) && Decidable(db.runs, db.requests[ref].owner, db.requests[ref].run)
    then Settle(db, ref, Outcome(d), User, seen.profile)
    else None
  }

  /** One row of the startup loop; its statement does not compare the adapter again. */
  function Expire(db: Db, ref: Ref, seen: Request): Option<Db> {
    if ref in db.requests && db.requests[ref].state.Pending? && db.requests[ref].version == seen.version
       && db.requests[ref].owner == seen.owner
    then Settle(db, ref, Denied, RestartReconciliation, seen.profile)
    else None
  }

  // ---------- Runs of the system ----------

  /** `InsertApproval` stands for the insert alone: the check that the run is still active is made
      earlier, outside the transaction, so any interleaving may put steps between them. */
  datatype Action =
    | OnRuns(runAction: RunAction)
    | InsertApproval(ref: Ref, owner: Owner, run: Option<RunKey>, profile: Profile, action: string, summary: string)
    | DecideApproval(ref: Ref, seen: Request, decision: Decision)
    | ExpireApproval(ref: Ref, seen: Request)

  function Kept(result: Option<Db>, db: Db): Db {
    if result.Some? then result.value else db
  }

  function Step(db: Db, a: Action): Db {
    match a
    case OnRuns(runAction) => db.(runs := RunStep(db.runs, runAction))
    case InsertApproval(ref, owner, run, profile, action, summary) =>
      Kept(Insert(db, ref, owner, run, profile, action, summary), db)
    case DecideApproval(ref, seen, decision) => Kept(Resolve(db, ref, seen, decision), db)
    case ExpireApproval(ref, seen) => Kept(Expire(db, ref, seen), db)
  }

  function Steps(db: Db, actions: seq<Action>): Db {
    if actions == [] then db else Step(Steps(db, actions[..|actions| - 1]), actions[|actions| - 1])
  }

  // ---------- The audit trail ----------

  /** The outcomes recorded for a request. */
  function Outcomes(audit: seq<AuditRow>, ref: Ref): seq<ApprovalState> {
    if audit == [] then []
    else
      var rest := Outcomes(audit[..|audit| - 1], ref);
      if audit[|audit| - 1].ref == ref then rest + [audit[|audit| - 1].resulting] else rest
  }

  lemma {:induction false} AuditedOutcomes(audit: seq<AuditRow>, ref: Ref)
    ensures Audited(audit, ref) <==> Outcomes(audit, ref) != []
  {
    if audit != [] {
      var rest := audit[..|audit| - 1];
      AuditedOutcomes(rest, ref);
      if Audited(rest, ref) {
        var i :| 0 <= i < |rest| && rest[i].ref == ref;
        assert audit[i].ref == ref;
      }
      if Audited(audit, ref) && audit[|audit| - 1].ref != ref {
        var i :| 0 <= i < |audit| && audit[i].ref == ref;
        assert rest[i].ref == ref;
      }
    }
  }

  lemma {:induction false} OutcomesSnoc(audit: seq<AuditRow>, row: AuditRow, ref: Ref)
    ensures Outcomes(audit + [row], ref) == if row.ref == ref then Outcomes(audit, ref) + [row.resulting] else Outcomes(audit, ref)
  {
    assert (audit + [row])[..|audit|] == audit;
  }

  /** What the audit trail must hold for a request. */
  function Owed(requests: map<Ref, Request>, ref: Ref): seq<ApprovalState> {
    if ref !in requests || requests[ref].state.Pending? then [] else [requests[ref].state]
  }

  /** A pending request has no audit row; every other has exactly one, and it records the state. */
  ghost predicate AuditExact(db: Db) {
    forall ref :: Outcomes(db.audit, ref) == Owed(db.requests, ref)
  }

  /** Exactly the actions no profile may take are denied by policy. */
  ghost predicate PolicyExact(db: Db) {
    forall ref :: ref in db.requests ==>
      (db.requests[ref].state.HardDenied? <==> db.requests[ref].action in ALWAYS_DENIED)
  }

  ghost predicate DbOk(db: Db) {
    RunsOk(db.runs) && AuditExact(db) && PolicyExact(db)
  }

  lemma {:induction false} Written(db: Db, ref: Ref, row: Request, audit: AuditRow)
    requires AuditExact(db) && Owed(db.requests, ref) == [] && audit.ref == ref && audit.resulting == row.state && !row.state.Pending?
    ensures AuditExact(Db(db.runs, db.requests[ref := row], db.audit + [audit]))
  {
    var next := Db(db.runs, db.requests[ref := row], db.audit + [audit]);
    forall r ensures Outcomes(next.audit, r) == Owed(next.requests, r) {
      OutcomesSnoc(db.audit, audit, r);
      assert Outcomes(db.audit, r) == Owed(db.requests, r);
    }
  }

  lemma {:induction false} Filed(db: Db, ref: Ref, row: Request)
    requires AuditExact(db) && ref !in db.requests && row.state.Pending?
    ensures AuditExact(Db(db.runs, db.requests[ref := row], db.audit))
  {
    var next := Db(db.runs, db.requests[ref := row], db.audit);
    forall r ensures Outcomes(next.audit, r) == Owed(next.requests, r) {
      assert Outcomes(db.audit, r) == Owed(db.requests, r);
    }
  }

  /** The uniqueness constraint of the audit table never fires: a pending request has no row yet. */
  lemma {:induction false} NotAudited(db: Db, ref: Ref)
    requires AuditExact(db)
    ensures Audited(db.audit, ref) <==> ref in db.requests && !db.requests[ref].state.Pending?
  {
    AuditedOutcomes(db.audit, ref);
    assert Outcomes(db.audit, ref) == Owed(db.requests, ref);
  }

  lemma {:induction false} SettleKeeps(db: Db, ref: Ref, next: ApprovalState, source: Source, profile: Profile)
    requires DbOk(db) && ref in db.requests && db.requests[ref].state.Pending? && !next.Pending? && !next.HardDenied?
    ensures Settle(db, ref, next, source, profile).Some? && DbOk(Settle(db, ref, next, source, profile).value)
  {
    NotAudited(db, ref);
    var row := db.requests[ref];
    Written(db, ref, row.(state := next, version := row.version + 1), AuditRow(ref, row.owner, source, profile, next));
  }

  lemma {:induction false} InsertKeeps(
    db: Db, ref: Ref, owner: Owner, run: Option<RunKey>, profile: Profile, action: string, summary: string)
    requires DbOk(db)
    ensures DbOk(Kept(Insert(db, ref, owner, run, profile, action, summary), db))
  {
    if ref !in db.requests {
      if action in ALWAYS_DENIED {
        NotAudited(db, ref);
        Written(db, ref, Request(owner, run, profile, action, summary, HardDenied, 0),
                AuditRow(ref, owner, Policy, profile, HardDenied));
      } else {
        Filed(db, ref, Request(owner, run, profile, action, summary, Pending, 0));
      }
    }
  }

  lemma {:induction false} StepKeeps(db: Db, a: Action)
    requires DbOk(db)
    ensures DbOk(Step(db, a))
  {
    if a.OnRuns? {
      RunStepRowsOk(db.runs, a.runAction);
      RunStepOneActive(db.runs, a.runAction);
      assert Step(db, a).requests == db.requests && Step(db, a).audit == db.audit;
      assert forall ref :: Outcomes(db.audit, ref) == Owed(db.requests, ref);
    } else if a.InsertApproval? {
      InsertKeeps(db, a.ref, a.owner, a.run, a.profile, a.action, a.summary);
    } else if a.ref in db.requests && db.requests[a.ref].state.Pending? {
      SettleKeeps(db, a.ref, if a.DecideApproval? then Outcome(a.decision) else Denied,
                  if a.DecideApproval? then User else RestartReconciliation, a.seen.profile);
    }
  }

  /** In every reachable state the audit trail matches the requests row for row. */
  lemma {:induction false} AuditTrail(db: Db, actions: seq<Action>)
    requires DbOk(db)
    ensures DbOk(Steps(db, actions))
  {
    if actions != [] {
      AuditTrail(db, actions[..|actions| - 1]);
      StepKeeps(Steps(db, actions[..|actions| - 1]), actions[|actions| - 1]);
    }
  }

  // ---------- Decisions ----------

  /** A step leaves a decided request alone, and changes a pending one at most to its recorded outcome. */
  lemma {:induction false} StepOnRequest(db: Db, a: Action, ref: Ref)
    requires ref in db.requests
    ensures var after := Step(db, a);
            && ref in after.requests
            && after.requests[ref].owner == db.requests[ref].owner && after.requests[ref].run == db.requests[ref].run
            && after.requests[ref].action == db.requests[ref].action
            && (!db.requests[ref].state.Pending? ==> after.requests[ref] == db.requests[ref])
            && after.audit[..|db.audit|] == db.audit
    ensures |db.audit| <= |Step(db, a).audit|
  {
  }

  /** Decisions are final, and the audit trail only grows. */
  lemma {:induction false} DecisionsAreFinal(db: Db, actions: seq<Action>, ref: Ref)
    requires ref in db.requests
    ensures var after := Steps(db, actions);
            && ref in after.requests
            && after.requests[ref].owner == db.requests[ref].owner && after.requests[ref].run == db.requests[ref].run
            && (!db.requests[ref].state.Pending? ==> after.requests[ref] == db.requests[ref])
            && Extends(db.audit, after.audit)
  {
    if actions != [] {
      var last := Steps(db, actions[..|actions| - 1]);
      DecisionsAreFinal(db, actions[..|actions| - 1], ref);
      StepOnRequest(last, actions[|actions| - 1], ref);
      assert Steps(db, actions).audit[..|last.audit|][..|db.audit|] == db.audit;
    }
  }

  function RunActions(actions: seq<Action>): seq<RunAction> {
    if actions == [] then []
    else
      var rest := RunActions(actions[..|actions| - 1]);
      if actions[|actions| - 1].OnRuns? then rest + [actions[|actions| - 1].runAction] else rest
  }

  lemma {:induction false} StepRuns(db: Db, a: Action)
    ensures Step(db, a).runs == if a.OnRuns? then RunStep(db.runs, a.runAction) else db.runs
  {
  }

  lemma {:induction false} RunStepsSnoc(runs: Runs, actions: seq<RunAction>, a: RunAction)
    ensures RunSteps(runs, actions + [a]) == RunStep(RunSteps(runs, actions), a)
  {
    assert (actions + [a])[..|actions|] == actions;
  }

  /** Nothing but the run statements touches the run tables. */
  lemma {:induction false} RunsAlone(db: Db, actions: seq<Action>)
    ensures Steps(db, actions).runs == RunSteps(db.runs, RunActions(actions))
  {
    if actions != [] {
      var rest, a := actions[..|actions| - 1], actions[|actions| - 1];
      RunsAlone(db, rest);
      StepRuns(Steps(db, rest), a);
      if a.OnRuns? {
        RunStepsSnoc(db.runs, RunActions(rest), a.runAction);
      }
    }
  }

  /** Once an adapter's run has left the open states or has been asked to stop, no later decision on
      its approvals takes effect, whatever the caller remembers, even for a request filed afterwards. */
  lemma {:induction false} ClosedRunsTakeNoDecision(
    db: Db, actions: seq<Action>, key: RunKey, ref: Ref, seen: Request, d: Decision)
    requires DbOk(db) && key in db.runs
    requires !Open(db.runs[key].lifecycle) || db.runs[key].cancelRequested
    ensures var after := Steps(db, actions);
            ref in after.requests && after.requests[ref].run == Some(key) ==> Resolve(after, ref, seen, d).None?
  {
    RunsAlone(db, actions);
    RunHistory(db.runs, RunActions(actions), key);
  }

  /** A successful decision was made on a run that was open and not asked to stop at that moment. */
  lemma {:induction false} DecisionsAreTimely(db: Db, ref: Ref, seen: Request, d: Decision)
    requires DbOk(db)
    ensures Resolve(db, ref, seen, d).Some? <==>
              && seen.state.Pending? && ref in db.requests && db.requests[ref].state.Pending?
              && db.requests[ref].version == seen.version && db.requests[ref].owner == seen.owner
              && db.requests[ref].run == seen.run
              && (seen.run.Some? ==>
                    && seen.run.value in db.runs && db.runs[seen.run.value].owner == seen.owner
                    && db.runs[seen.run.value].lifecycle in {Created, Starting, Running}
                    && !db.runs[seen.run.value].cancelRequested)
    ensures Resolve(db, ref, seen, d).Some? ==>
              var state := Resolve(db, ref, seen, d).value.requests[ref].state;
              && (d.AllowOnce? ==> state == AllowedOnce) && (d.AllowForTask? ==> state == AllowedForTask)
              && (d.Deny? ==> state == Denied)
              && Resolve(db, ref, seen, d).value.requests[ref].action !in ALWAYS_DENIED
  {
    NotAudited(db, ref);
  }

  /** A request is decided at most once: after one decision every snapshot of the pending row is stale. */
  lemma {:induction false} DecidedOnce(
    db: Db, actions: seq<Action>, ref: Ref, seen: Request, d: Decision, again: Request, e: Decision)
    requires Resolve(db, ref, seen, d).Some?
    ensures Resolve(Steps(Resolve(db, ref, seen, d).value, actions), ref, again, e).None?
  {
    DecisionsAreFinal(Resolve(db, ref, seen, d).value, actions, ref);
  }

  // ---------- What a state says about the run ----------

  /** The action decides the request, which was pending. */
  predicate Took(db: Db, a: Action, ref: Ref) {
    && ref in db.requests && db.requests[ref].state.Pending?
    && ref in Step(db, a).requests && !Step(db, a).requests[ref].state.Pending?
  }

  /** The actions that may lead to a state. */
  predicate LeadsTo(a: Action, ref: Ref, state: ApprovalState) {
    match state
    case AllowedOnce => a.DecideApproval? && a.ref == ref && a.decision.AllowOnce?
    case AllowedForTask => a.DecideApproval? && a.ref == ref && a.decision.AllowForTask?
    case Denied => (a.DecideApproval? && a.ref == ref && a.decision.Deny?) || (a.ExpireApproval? && a.ref == ref)
    case HardDenied => false
    case Pending => false
  }

  ghost predicate DecidedAs(db: Db, actions: seq<Action>, ref: Ref, state: ApprovalState, k: nat) {
    k < |actions| && Took(Steps(db, actions[..k]), actions[k], ref) && LeadsTo(actions[k], ref, state)
  }

  predicate IsIn(db: Db, ref: Ref, state: ApprovalState) {
    ref in db.requests && db.requests[ref].state == state
  }

  lemma {:induction false} StepDecides(db: Db, a: Action, ref: Ref, state: ApprovalState)
    requires state in {AllowedOnce, AllowedForTask, Denied}
    ensures IsIn(Step(db, a), ref, state) <==> IsIn(db, ref, state) || (Took(db, a, ref) && LeadsTo(a, ref, state))
  {
  }

  /** A request is allowed, once or for the task, or denied exactly if a decision that says so, or for a
      denial an expiry, took effect on it at some point of the run. */
  lemma {:induction false} StateIsItsDecision(db: Db, actions: seq<Action>, ref: Ref, state: ApprovalState)
    requires state in {AllowedOnce, AllowedForTask, Denied} && !IsIn(db, ref, state)
    ensures IsIn(Steps(db, actions), ref, state) <==> exists k: nat :: DecidedAs(db, actions, ref, state, k)
  {
    if actions != [] {
      var n := |actions| - 1;
      var before := actions[..n];
      StateIsItsDecision(db, before, ref, state);
      StepDecides(Steps(db, before), actions[n], ref, state);
      forall k: nat | k < n ensures DecidedAs(db, actions, ref, state, k) <==> DecidedAs(db, before, ref, state, k) {
        assert before[..k] == actions[..k];
      }
      assert DecidedAs(db, actions, ref, state, n) <==> Took(Steps(db, before), actions[n], ref) && LeadsTo(actions[n], ref, state);
      if exists k: nat :: DecidedAs(db, before, ref, state, k) {
        var k: nat :| DecidedAs(db, before, ref, state, k);
        assert DecidedAs(db, actions, ref, state, k);
      }
    }
  }

  /** The five actions that no profile may take are denied when they are filed, and all others are pending. */
  lemma {:induction false} DeniedWhenFiled(
    db: Db, ref: Ref, owner: Owner, run: Option<RunKey>, profile: Profile, action: string, summary: string)
    requires DbOk(db) && ref !in db.requests
    ensures var after := Step(db, InsertApproval(ref, owner, run, profile, action, summary));
            IsIn(after, ref,
              if action == "merge" || action == "push" || action == "force_push" || action == "install_cli"
                 || action == "unrestricted_permissions" then HardDenied else Pending)
  {
    NotAudited(db, ref);
  }

  /** The effect of every statement on any consistent tables, row by row. */
  lemma {:induction false} StepExactly(db: Db, a: Action)
    requires DbOk(db)
    ensures a.InsertApproval? ==>
              var state := if a.action in {"merge", "push", "force_push", "install_cli", "unrestricted_permissions"}
                           then HardDenied else Pending;
              Step(db, a) ==
                if a.ref in db.requests then db
                else Db(db.runs, db.requests[a.ref := Request(a.owner, a.run, a.profile, a.action, a.summary, state, 0)],
                        db.audit + if state == Pending then [] else [AuditRow(a.ref, a.owner, Policy, a.profile, HardDenied)])
    ensures a.DecideApproval? && Resolve(db, a.ref, a.seen, a.decision).Some? ==>
              var row := db.requests[a.ref];
              var state := if a.decision == AllowOnce then AllowedOnce else if a.decision == Deny then Denied else AllowedForTask;
              Step(db, a) ==
                Db(db.runs, db.requests[a.ref := Request(row.owner, row.run, row.profile, row.action, row.summary, state, row.version + 1)],
                   db.audit + [AuditRow(a.ref, row.owner, User, a.seen.profile, state)])
    ensures a.DecideApproval? && Resolve(db, a.ref, a.seen, a.decision).None? ==> Step(db, a) == db
    ensures a.ExpireApproval? ==>
              Step(db, a) ==
                if a.ref !in db.requests then db
                else
                  var row := db.requests[a.ref];
                  if row.state != Pending || row.version != a.seen.version || row.owner != a.seen.owner then db
                  else
                    Db(db.runs, db.requests[a.ref := Request(row.owner, row.run, row.profile, row.action, row.summary, Denied, row.version + 1)],
                       db.audit + [AuditRow(a.ref, row.owner, RestartReconciliation, a.seen.profile, Denied)])
  {
    if !a.OnRuns? {
      NotAudited(db, a.ref);
    }
  }
}
