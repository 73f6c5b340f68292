/** Run and approval statements. */
module ApprovalTables {
  import opened Basics
  import opened RunContexts
  import opened Approvals
  import opened Utf8

  datatype Failure = InvalidTask | NotFound | Conflict

  predicate InputOk(task: string, action: string, summary: string) {
    Sized(task, 128) && Sized(action, 64) && Sized(summary, 512)
  }

  /** Whether the run an approval is to be bound to exists under this owner and is not over. */
  function BindingFailure(runs: Runs, owner: Owner, run: Option<RunKey>): Option<Failure> {
    if run.None? then None
    else if run.value !in runs || runs[run.value].owner != owner then Some(NotFound)
    else if Terminal(runs[run.value].lifecycle) then Some(Conflict)
    else None
  }

  /** The rows startup reconciliation selects. */
  predicate AdapterPending(row: Request) {
    row.state.Pending? && row.run.Some?
  }

  lemma {:induction false} SizedExactly(s: string, max: nat)
    ensures Sized(s, max) <==> 1 <= |EncodeAll(s)| <= max
  {
    LengthIsEncoded(s);
    if s != "" {
      SizeIsEncoded(s[|s| - 1]);
    }
  }

  class ApprovalStore {
    var runs: Runs
    var requests: map<Ref, Request>
    var audit: seq<AuditRow>

    function State(): Db
      reads this
    {
      Db(runs, requests, audit)
    }

    constructor ()
      ensures State() == Db(map[], map[], []) && DbOk(State())
    {
      runs, requests, audit := map[], map[], [];
      new;
      forall ref ensures Outcomes(audit, ref) == Owed(requests, ref) {
      }
    }

    method CreateRunContext(key: RunKey, owner: Owner, ready: bool) returns (r: Result<Run, Failure>)
      modifies this`runs
      ensures State() == Step(old(State()), OnRuns(Create(key, owner, ready)))
      ensures r.Ok? <==> CreateRun(old(runs), key, owner, ready).Some?
      ensures r.Ok? ==> key in runs && r.value == runs[key]
    {
      if !TaskKeyOk(owner.task) {
        return Err(InvalidTask);
      }
      if !ready {
        return Err(NotFound);
      }
      if key in runs || ActiveOwner(runs, key.adapter, owner) {
        return Err(Conflict);
      }
      var row := Run(owner, Created, false, 0, None, 0, None, None);
      runs := runs[key := row];
      return Ok(row);
    }

    method TransitionRunContext(seen: Seen, u: Update, t: int) returns (r: Result<Run, Failure>)
      modifies this`runs
      ensures State() == Step(old(State()), OnRuns(Transition(seen, u, t)))
      ensures r.Ok? <==> TransitionRun(old(runs), seen, u, t).Some?
      ensures r.Ok? ==> seen.key in runs && r.value == runs[seen.key]
    {
      if !Edge(seen.lifecycle, u.next) || (seen.cancelRequested && u.next.Succeeded?) {
        return Err(Conflict);
      }
      if seen.key.adapter.Codex? && Terminal(u.next) && u.terminalText.None? {
        return Err(InvalidTask);
      }
      if u.session.Some? && !(seen.key.adapter.Claude? && SessionOk(u.session.value)) {
        return Err(InvalidTask);
      }
      if !Current(runs, seen) {
        return Err(Conflict);
      }
      var row := Updated(runs[seen.key], u, t);
      runs := runs[seen.key := row];
      return Ok(row);
    }

    /** A terminal snapshot is returned as it is. */
    method RequestCancellation(seen: Seen, t: int) returns (r: Result<(), Failure>)
      modifies this`runs
      ensures State() == Step(old(State()), OnRuns(Cancel(seen, t)))
      ensures r.Ok? <==> CancelRun(old(runs), seen, t).Some?
      ensures seen.lifecycle in {Cancelled, Succeeded, Failed} ==> r.Ok? && runs == old(runs)
      ensures seen.lifecycle in {Created, Starting, Running} ==> (r.Ok? <==> SameVersion(old(runs), seen))
      ensures seen.lifecycle == Cancelling ==> (r.Ok? <==> seen.key.adapter == Codex && SameVersion(old(runs), seen))
    {
      if Terminal(seen.lifecycle) {
        return Ok(());
      }
      if seen.key.adapter.Claude? {
        var moved := TransitionRunContext(seen, CancelUpdate(seen.lifecycle), t);
        return if moved.Ok? then Ok(()) else Err(moved.error);
      }
      if !Current(runs, seen) {
        return Err(Conflict);
      }
      runs := runs[seen.key := CodexCancelled(runs[seen.key], CancelTarget(seen.lifecycle), t)];
      return Ok(());
    }

    method ReconcileRunContexts(adapter: Adapter, t: int)
      modifies this`runs
      ensures State() == Step(old(State()), OnRuns(Interrupt(adapter, t)))
      ensures forall key :: key in runs && key.adapter == adapter ==> Terminal(runs[key].lifecycle)
    {
      runs := InterruptRuns(runs, adapter, t);
    }

    method ReserveClaudeFollowup(seen: Seen) returns (r: Result<Run, Failure>)
      modifies this`runs
      ensures State() == Step(old(State()), OnRuns(Followup(seen)))
      ensures r.Ok? <==> ReserveFollowup(old(runs), seen).Some?
      ensures r.Ok? ==> seen.key in runs && r.value == runs[seen.key]
    {
      if !seen.key.adapter.Claude? || !seen.lifecycle.Running? || seen.session.None? || !Current(runs, seen) {
        return Err(Conflict);
      }
      var run := runs[seen.key];
      var row := run.(followups := run.followups + 1, version := run.version + 1);
      runs := runs[seen.key := row];
      return Ok(row);
    }

    /** The checks before the transaction. */
    method CheckApproval(owner: Owner, owned: bool, run: Option<RunKey>, action: string, summary: string)
      returns (failure: Option<Failure>)
      ensures failure.None? <==> InputOk(owner.task, action, summary) && owned && BindingFailure(runs, owner, run).None?
      ensures failure ==
                if !(1 <= |EncodeAll(owner.task)| <= 128 && 1 <= |EncodeAll(action)| <= 64 && 1 <= |EncodeAll(summary)| <= 512)
                then Some(InvalidTask)
                else if !owned || (run.Some? && !(run.value in runs && runs[run.value].owner == owner)) then Some(NotFound)
                else if run.Some? && runs[run.value].lifecycle in {Cancelled, Succeeded, Failed} then Some(Conflict)
                else None
    {
      SizedExactly(owner.task, 128);
      SizedExactly(action, 64);
      SizedExactly(summary, 512);
      if !InputOk(owner.task, action, summary) {
        return Some(InvalidTask);
      }
      if !owned {
        return Some(NotFound);
      }
      return BindingFailure(runs, owner, run);
    }

    /** The transaction, whatever became of the run since it was checked. */
    method FileApproval(ref: Ref, owner: Owner, run: Option<RunKey>, profile: Profile, action: string, summary: string)
      returns (row: Request)
      requires DbOk(State()) && ref !in requests
      modifies this`requests, this`audit
      ensures DbOk(State())
      ensures State() == Step(old(State()), InsertApproval(ref, owner, run, profile, action, summary))
      ensures ref in requests && row == requests[ref]
      ensures row.state == if action in ALWAYS_DENIED then HardDenied else Pending
    {
      StepKeeps(State(), InsertApproval(ref, owner, run, profile, action, summary));
      NotAudited(State(), ref);
      var state := if action in ALWAYS_DENIED then HardDenied else Pending;
      row := Request(owner, run, profile, action, summary, state, 0);
      requests := requests[ref := row];
      if state.HardDenied? {
        audit := audit + [AuditRow(ref, owner, Policy, profile, HardDenied)];
      }
    }

    /** Both, when no other client comes between them. */
    method CreateApproval(ref: Ref, owner: Owner, owned: bool, run: Option<RunKey>, profile: Profile, action: string,
                          summary: string, redact: string -> string) returns (r: Result<Request, Failure>)
      requires DbOk(State()) && ref !in requests
      modifies this`requests, this`audit
      ensures DbOk(State())
      ensures r.Ok? <==> InputOk(owner.task, action, summary) && owned && BindingFailure(runs, owner, run).None?
      ensures r.Err? ==> State() == old(State())
      ensures r.Ok? ==> State() == Step(old(State()), InsertApproval(ref, owner, run, profile, action, redact(summary)))
      ensures r.Ok? ==> ref in requests && r.value == requests[ref]
                        && (r.value.state.HardDenied? <==> action in ALWAYS_DENIED)
    {
      var failure := CheckApproval(owner, owned, run, action, summary);
      if failure.Some? {
        return Err(failure.value);
      }
      var row := FileApproval(ref, owner, run, profile, action, redact(summary));
      return Ok(row);
    }

    method ResolveApproval(ref: Ref, seen: Request, d: Decision) returns (r: Result<Request, Failure>)
      requires DbOk(State())
      modifies this`requests, this`audit
      ensures DbOk(State())
      ensures State() == Step(old(State()), DecideApproval(ref, seen, d))
      ensures r.Ok? <==> Resolve(old(State()), ref, seen, d).Some?
      ensures r.Ok? ==> r.value == seen.(state := Outcome(d), version := seen.version + 1)
                        && ref in requests && requests[ref].state == r.value.state && requests[ref].version == r.value.version
      ensures r.Ok? && d.AllowOnce? ==> requests[ref].state == AllowedOnce
      ensures r.Ok? && d.AllowForTask? ==> requests[ref].state == AllowedForTask
      ensures r.Ok? && d.Deny? ==> requests[ref].state == Denied
      ensures r.Ok? ==> audit == old(audit) + [AuditRow(ref, seen.owner, User, seen.profile, requests[ref].state)]
    {
      StepKeeps(State(), DecideApproval(ref, seen, d));
      NotAudited(State(), ref);
      if !seen.state.Pending? {
        return Err(Conflict);
      }
      if !SameRow(State(), ref, seen) || !Decidable(runs, requests[ref].owner, requests[ref].run) {
        return Err(Conflict);
      }
      var row := requests[ref];
      requests := requests[ref := row.(state := Outcome(d), version := row.version + 1)];
      audit := audit + [AuditRow(ref, row.owner, User, seen.profile, Outcome(d))];
      return Ok(seen.(state := Outcome(d), version := seen.version + 1));
    }

    /** One transaction of the startup loop, on a row that is still as it was selected. */
    method ExpireOne(ref: Ref, seen: Request)
      requires DbOk(State()) && ref in requests && requests[ref] == seen && seen.state.Pending?
      modifies this`requests, this`audit
      ensures DbOk(State()) && State() == Step(old(State()), ExpireApproval(ref, seen))
      ensures requests == old(requests)[ref := seen.(state := Denied, version := seen.version + 1)]
      ensures runs == old(runs) && audit == old(audit) + [AuditRow(ref, seen.owner, RestartReconciliation, seen.profile, Denied)]
    {
      StepKeeps(State(), ExpireApproval(ref, seen));
      NotAudited(State(), ref);
      requests := requests[ref := seen.(state := Denied, version := seen.version + 1)];
      audit := audit + [AuditRow(ref, seen.owner, RestartReconciliation, seen.profile, Denied)];
    }

    /** One round of the startup loop. */
    method ExpireSelected(ref: Ref, ghost before: Db, ghost all: set<Ref>, ghost rest: set<Ref>, ghost count: nat)
      requires Reconciling(before, State(), all, rest, count) && ref in rest
      modifies this`requests, this`audit
      ensures Reconciling(before, State(), all, rest - {ref}, count + 1)
    {
      ExpireNext(before, State(), all, rest, count, ref);
      ExpireOne(ref, requests[ref]);
    }

    /** The startup loop over the selected rows: exactly the adapter-bound pending requests are denied. */
    method ReconcileApprovals() returns (reconciled: nat)
      requires DbOk(State())
      modifies this`requests, this`audit
      ensures DbOk(State()) && requests.Keys == old(requests).Keys && Extends(old(audit), audit)
      ensures forall ref :: ref in requests ==> requests[ref] == Expired(old(requests)[ref])
      ensures forall ref :: ref in requests ==>
                var row := old(requests)[ref];
                requests[ref] == if row.state == Pending && row.run.Some? then row.(state := Denied, version := row.version + 1) else row
      ensures forall ref :: ref in requests ==> !AdapterPending(requests[ref])
      ensures reconciled == |set ref | ref in old(requests) && AdapterPending(old(requests)[ref])|
      ensures |audit| == |old(audit)| + reconciled
    {
      ghost var before := State();
      var rest := set ref | ref in requests && AdapterPending(requests[ref]);
      ghost var all := rest;
      reconciled := 0;
      while rest != {}
        invariant Reconciling(before, State(), all, rest, reconciled)
        decreases |rest|
      {
        var ref :| ref in rest;
        ExpireSelected(ref, before, all, rest, reconciled);
        rest := rest - {ref};
        reconciled := reconciled + 1;
      }
    }
  }

  /** The loop's state: the selected rows but those in `rest` have been denied, each with an audit row. */
  ghost predicate Reconciling(before: Db, db: Db, all: set<Ref>, rest: set<Ref>, count: nat) {
    && DbOk(db) && rest <= all && count + |rest| == |all|
    && all == (set ref | ref in before.requests && AdapterPending(before.requests[ref]))
    && db.requests.Keys == before.requests.Keys
    && (forall ref :: ref in before.requests ==>
          db.requests[ref] == if ref in rest then before.requests[ref] else Expired(before.requests[ref]))
    && Extends(before.audit, db.audit) && |db.audit| == |before.audit| + count
  }

  lemma {:induction false} ExpireNext(before: Db, db: Db, all: set<Ref>, rest: set<Ref>, count: nat, ref: Ref)
    requires Reconciling(before, db, all, rest, count) && ref in rest
    ensures ref in db.requests && AdapterPending(db.requests[ref])
    ensures var seen := db.requests[ref];
            var next := Db(db.runs, db.requests[ref := seen.(state := Denied, version := seen.version + 1)],
                           db.audit + [AuditRow(ref, seen.owner, RestartReconciliation, seen.profile, Denied)]);
            DbOk(next) ==> Reconciling(before, next, all, rest - {ref}, count + 1)
  {
    assert ref in before.requests && db.requests[ref] == before.requests[ref];
    var row := AuditRow(ref, db.requests[ref].owner, RestartReconciliation, db.requests[ref].profile, Denied);
    assert (db.audit + [row])[..|before.audit|] == db.audit[..|before.audit|];
  }

  /** What a restart makes of a request. */
  function Expired(row: Request): Request {
    if AdapterPending(row) then row.(state := Denied, version := row.version + 1) else row
  }
}
