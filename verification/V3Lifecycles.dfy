/** The lifecycle tables of the V3 store. */
module V3Lifecycles {
  datatype TaskLifecycle =
    | Draft | Preparing | Implementing | AwaitingApproval | Validating | Reviewing | Repairing
    | ReadyForHuman | DiscardPending | Recovering | Blocked | Finalized | Integrating | Integrated
    | Completed | Cancelled | Failed

  predicate Terminal(l: TaskLifecycle) {
    l in {Blocked, Finalized, Integrated, Completed, Cancelled, Failed}
  }

  /** The edges `TaskLifecycle::transition` accepts. */
  predicate TaskEdge(from: TaskLifecycle, to: TaskLifecycle) {
    match from
    case Draft => to in {Preparing, Cancelled}
    case Preparing => to in {Implementing, Blocked, Failed, Cancelled, Recovering}
    case Implementing => to in {AwaitingApproval, Validating, Completed, Blocked, Failed, Cancelled, Recovering}
    case AwaitingApproval => to in {Implementing, Blocked, Cancelled, Recovering}
    case Validating =>
      to in {Reviewing, Completed, Repairing, ReadyForHuman, Blocked, Failed, Cancelled, Recovering}
    case Reviewing => to in {Repairing, ReadyForHuman, Blocked, Failed, Cancelled, Recovering}
    case Repairing => to in {Validating, AwaitingApproval, Blocked, Failed, Cancelled, Recovering}
    case ReadyForHuman => to in {Finalized, Integrating, DiscardPending, Blocked, Recovering}
    case Integrating => to in {Integrated, Blocked, Recovering}
    case DiscardPending => to in {Finalized, ReadyForHuman, Integrating, Blocked, Cancelled, Recovering}
    case Recovering =>
      to in {Preparing, Implementing, AwaitingApproval, Validating, Reviewing, Repairing, ReadyForHuman,
             Blocked, Cancelled, Failed}
    case Blocked => to == Reviewing
    case Finalized => false
    case Integrated => false
    case Completed => false
    case Cancelled => false
    case Failed => false
  }

  datatype SessionLifecycle =
    | Created | Starting | Active | Cancelling | SessionCancelled | SessionCompleted | SessionFailed
    | RecoveryRequired

  predicate SessionTerminal(l: SessionLifecycle) {
    l in {SessionCancelled, SessionCompleted, SessionFailed}
  }

  predicate SessionEdge(from: SessionLifecycle, to: SessionLifecycle) {
    match from
    case Created => to in {Starting, SessionCancelled, RecoveryRequired}
    case Starting => to in {Active, SessionFailed, SessionCancelled, RecoveryRequired}
    case Active => to in {Cancelling, SessionCompleted, SessionFailed, RecoveryRequired}
    case Cancelling => to in {SessionCancelled, SessionFailed, RecoveryRequired}
    case RecoveryRequired => to in {Starting, Active, SessionCancelled, SessionFailed}
    case SessionCancelled => false
    case SessionCompleted => false
    case SessionFailed => false
  }

  /** A session that may still have a process behind it. */
  predicate Live(l: SessionLifecycle) {
    l in {Created, Starting, Active, Cancelling}
  }

  /** Recovery writes `Recovering` without consulting the table; the table would have agreed,
      for exactly the lifecycles recovery picks. */
  lemma {:induction false} RecoveryEdges(l: TaskLifecycle)
    ensures TaskEdge(l, Recovering) <==> !Terminal(l) && l != Draft && l != Recovering
  {
  }

  /** A lifecycle with no way out is terminal and not `Blocked`, and conversely. */
  lemma {:induction false} NoWayOut(l: TaskLifecycle)
    ensures (Terminal(l) && l != Blocked) <==> forall to :: !TaskEdge(l, to)
  {
    var way := match l
      case Draft => Preparing
      case Blocked => Reviewing
      case Recovering => Failed
      case _ => Recovering;
    assert (Terminal(l) && l != Blocked) || TaskEdge(l, way);
  }

  /** The table read the other way: where each lifecycle can be entered from. */
  function EnteredFrom(to: TaskLifecycle): set<TaskLifecycle> {
    var working := {Preparing, Implementing, AwaitingApproval, Validating, Reviewing, Repairing, ReadyForHuman,
                    Integrating, DiscardPending};
    match to
    case Draft => {}
    case Preparing => {Draft, Recovering}
    case Implementing => {Preparing, AwaitingApproval, Recovering}
    case AwaitingApproval => {Implementing, Repairing, Recovering}
    case Validating => {Implementing, Repairing, Recovering}
    case Reviewing => {Validating, Blocked, Recovering}
    case Repairing => {Validating, Reviewing, Recovering}
    case ReadyForHuman => {Validating, Reviewing, DiscardPending, Recovering}
    case DiscardPending => {ReadyForHuman}
    case Recovering => working
    case Blocked => working + {Recovering}
    case Finalized => {ReadyForHuman, DiscardPending}
    case Integrating => {ReadyForHuman, DiscardPending}
    case Integrated => {Integrating}
    case Completed => {Implementing, Validating}
    case Cancelled => working - {ReadyForHuman, Integrating} + {Draft, Recovering}
    case Failed => {Preparing, Implementing, Validating, Reviewing, Repairing, Recovering}
  }

  lemma {:induction false} TaskEdgesExactly(from: TaskLifecycle, to: TaskLifecycle)
    ensures TaskEdge(from, to) <==> from in EnteredFrom(to)
  {
  }

  function SessionEnteredFrom(to: SessionLifecycle): set<SessionLifecycle> {
    match to
    case Created => {}
    case Starting => {Created, RecoveryRequired}
    case Active => {Starting, RecoveryRequired}
    case Cancelling => {Active}
    case SessionCancelled => {Created, Starting, Cancelling, RecoveryRequired}
    case SessionCompleted => {Active}
    case SessionFailed => {Starting, Active, Cancelling, RecoveryRequired}
    case RecoveryRequired => {Created, Starting, Active, Cancelling}
  }

  /** A session that may still have a process is exactly one that may be marked for recovery. */
  lemma {:induction false} SessionEdgesExactly(from: SessionLifecycle, to: SessionLifecycle)
    ensures SessionEdge(from, to) <==> from in SessionEnteredFrom(to)
    ensures Live(from) <==> SessionEdge(from, RecoveryRequired)
    ensures SessionTerminal(from) <==> forall next :: !SessionEdge(from, next)
  {
    assert SessionTerminal(from) || SessionEdge(from, SessionFailed) || SessionEdge(from, Starting);
  }
}
