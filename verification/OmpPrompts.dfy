/** Settling OMP prompts. */
module OmpPrompts {
  import opened Basics

  // The reader, the callers and their timeouts share the pending table, the accepted set and the
  // late error.

  datatype Outcome = AgentInvoked | LocalCompletion

  datatype Failure = UnexpectedExit | PromptRejected | LatePromptError | PromptLocalCompletion

  type Reply = Result<Outcome, Failure>

  /** What was sent to the caller waiting for a prompt. */
  datatype Settlement = Settlement(id: nat, reply: Reply)

  datatype Rpc = Rpc(
    nextId: nat, pending: set<nat>, accepted: set<nat>, lateError: Option<Failure>, settled: seq<Settlement>)

  const START := Rpc(1, {}, {}, None, [])

  /** A frame the reader acts on: a response to a prompt, or a prompt result. Frames for other commands
      and results that do not say `false` are ignored by the program and are not frames here. */
  datatype Frame =
    | Response(id: nat, success: bool, agentInvoked: Option<bool>)
    | PromptResult(id: nat)

  function Settle(s: Rpc, id: nat, reply: Reply): Rpc {
    s.(pending := s.pending - {id}, settled := s.settled + [Settlement(id, reply)])
  }

  function OnResponse(s: Rpc, id: nat, success: bool, agentInvoked: Option<bool>): Rpc {
    if id in s.pending then
      if !success then Settle(s, id, Err(PromptRejected))
      else if agentInvoked == Some(false) then Settle(s, id, Ok(LocalCompletion))
      else Settle(s, id, Ok(AgentInvoked)).(accepted := s.accepted + {id})
    else if !success && id in s.accepted then s.(lateError := Some(LatePromptError))
    else s
  }

  function OnPromptResult(s: Rpc, id: nat): Rpc {
    if id in s.pending then Settle(s, id, Ok(LocalCompletion))
    else if id in s.accepted then s.(lateError := Some(PromptLocalCompletion))
    else s
  }

  function OnFrame(s: Rpc, f: Frame): Rpc {
    match f
    case Response(id, success, agentInvoked) => OnResponse(s, id, success, agentInvoked)
    case PromptResult(id) => OnPromptResult(s, id)
  }

  /** What a frame tells the prompt that waits for it. */
  function ReplyOf(f: Frame): Reply {
    if f.PromptResult? then Ok(LocalCompletion)
    else if !f.success then Err(PromptRejected)
    else if f.agentInvoked == Some(false) then Ok(LocalCompletion)
    else Ok(AgentInvoked)
  }

  /** `Register` numbers and enters a prompt; a caller found the process healthy some time before.
      `Forget` is a timeout or a missing stdin. A failed write and an abandoned caller change nothing.
      `Drain` is the end of the reader, which empties the table in any order. */
  datatype Action = Register | Forget(id: nat) | Receive(frame: Frame) | Drain(order: seq<nat>)

  predicate IsOrder(order: seq<nat>, ids: set<nat>) {
    && (forall i, j :: 0 <= i < j < |order| ==> order[i] != order[j])
    && (forall i :: 0 <= i < |order| ==> order[i] in ids) && (forall id :: id in ids ==> id in order)
  }

  function DrainAll(s: Rpc, order: seq<nat>): Rpc {
    if order == [] then s
    else Settle(DrainAll(s, order[..|order| - 1]), order[|order| - 1], Err(UnexpectedExit))
  }

  function Step(s: Rpc, a: Action): Rpc {
    match a
    case Register => s.(nextId := s.nextId + 1, pending := s.pending + {s.nextId})
    case Forget(id) => s.(pending := s.pending - {id})
    case Receive(frame) => OnFrame(s, frame)
    case Drain(order) => if IsOrder(order, s.pending) then DrainAll(s, order) else s
  }

  function Steps(s: Rpc, actions: seq<Action>): Rpc {
    if actions == [] then s else Step(Steps(s, actions[..|actions| - 1]), actions[|actions| - 1])
  }

  // ---------- What every step keeps ----------

  /** The replies a prompt has been given. */
  function RepliesTo(settled: seq<Settlement>, id: nat): seq<Reply> {
    if settled == [] then []
    else
      var rest := RepliesTo(settled[..|settled| - 1], id);
      if settled[|settled| - 1].id == id then rest + [settled[|settled| - 1].reply] else rest
  }

  lemma {:induction false} RepliesSnoc(settled: seq<Settlement>, x: Settlement, id: nat)
    ensures RepliesTo(settled + [x], id) == if x.id == id then RepliesTo(settled, id) + [x.reply] else RepliesTo(settled, id)
  {
    assert (settled + [x])[..|settled|] == settled;
  }

  /** A waiting or future prompt has no reply, any other at most one, and the accepted prompts are
      exactly those told that the agent was invoked. */
  predicate PromptOk(s: Rpc, id: nat) {
    && (id >= s.nextId ==> id !in s.pending)
    && (id in s.pending || id >= s.nextId ==> RepliesTo(s.settled, id) == [])
    && |RepliesTo(s.settled, id)| <= 1
    && (id in s.accepted <==> RepliesTo(s.settled, id) == [Ok(AgentInvoked)])
  }

  ghost predicate Inv(s: Rpc) {
    && (forall id: nat :: PromptOk(s, id))
    && (s.lateError.Some? ==> s.accepted != {} && s.lateError.value in {LatePromptError, PromptLocalCompletion})
  }

  lemma {:induction false} SettleKeeps(s: Rpc, id: nat, reply: Reply)
    requires Inv(s) && id in s.pending
    ensures Inv(Settle(s, id, reply).(accepted := if reply == Ok(AgentInvoked) then s.accepted + {id} else s.accepted))
  {
    var t := Settle(s, id, reply).(accepted := if reply == Ok(AgentInvoked) then s.accepted + {id} else s.accepted);
    forall other: nat ensures PromptOk(t, other) {
      assert PromptOk(s, other) && PromptOk(s, id);
      RepliesSnoc(s.settled, Settlement(id, reply), other);
      assert [] + [reply] == [reply];
    }
    if t.lateError.Some? && reply == Ok(AgentInvoked) {
      assert id in t.accepted;
    }
  }

  lemma {:induction false} ReceiveKeeps(s: Rpc, f: Frame)
    requires Inv(s)
    ensures Inv(OnFrame(s, f))
  {
    if f.id in s.pending {
      if f.PromptResult? {
        SettleKeeps(s, f.id, Ok(LocalCompletion));
      } else if !f.success {
        SettleKeeps(s, f.id, Err(PromptRejected));
      } else if f.agentInvoked == Some(false) {
        SettleKeeps(s, f.id, Ok(LocalCompletion));
      } else {
        SettleKeeps(s, f.id, Ok(AgentInvoked));
      }
    } else {
      forall id: nat ensures PromptOk(OnFrame(s, f), id) {
        assert PromptOk(s, id);
      }
    }
  }

  lemma {:induction false} DrainKeeps(s: Rpc, order: seq<nat>)
    requires Inv(s) && (forall i, j :: 0 <= i < j < |order| ==> order[i] != order[j])
    requires forall i :: 0 <= i < |order| ==> order[i] in s.pending
    ensures Inv(DrainAll(s, order))
    ensures DrainAll(s, order).pending == s.pending - (set id | id in order)
    ensures DrainAll(s, order).lateError == s.lateError && DrainAll(s, order).accepted == s.accepted
    ensures DrainAll(s, order).nextId == s.nextId
  {
    if order != [] {
      var rest, last := order[..|order| - 1], order[|order| - 1];
      DrainKeeps(s, rest);
      assert last !in rest;
      SettleKeeps(DrainAll(s, rest), last, Err(UnexpectedExit));
      assert forall id :: id in order <==> id in rest || id == last;
    }
  }

  lemma {:induction false} StepKeeps(s: Rpc, a: Action)
    requires Inv(s)
    ensures Inv(Step(s, a))
  {
    if a.Receive? {
      ReceiveKeeps(s, a.frame);
    } else if a.Drain? {
      if IsOrder(a.order, s.pending) {
        DrainKeeps(s, a.order);
      }
    } else {
      forall id: nat ensures PromptOk(Step(s, a), id) {
        assert PromptOk(s, id);
      }
    }
  }

  /** In every interleaving, prompts are settled at most once and the accepted set is exact. */
  lemma {:induction false} PromptsSettleOnce(actions: seq<Action>)
    ensures Inv(Steps(START, actions))
  {
    if actions == [] {
      forall id: nat ensures PromptOk(START, id) {
      }
    } else {
      PromptsSettleOnce(actions[..|actions| - 1]);
      StepKeeps(Steps(START, actions[..|actions| - 1]), actions[|actions| - 1]);
    }
  }

  /** A frame concerns its own prompt only: it answers a waiting one, and otherwise at most records that
      an accepted one failed after all. */
  lemma {:induction false} FrameIsCorrelated(s: Rpc, f: Frame, other: nat)
    requires Inv(s) && other != f.id
    ensures RepliesTo(OnFrame(s, f).settled, other) == RepliesTo(s.settled, other)
    ensures other in OnFrame(s, f).pending <==> other in s.pending
    ensures other in OnFrame(s, f).accepted <==> other in s.accepted
    ensures OnFrame(s, f).lateError != s.lateError ==> f.id in s.accepted && f.id !in s.pending
    ensures f.id in s.pending ==> RepliesTo(OnFrame(s, f).settled, f.id) == [ReplyOf(f)]
  {
    assert PromptOk(s, f.id);
    var x := Settlement(f.id, ReplyOf(f));
    RepliesSnoc(s.settled, x, other);
    RepliesSnoc(s.settled, x, f.id);
    assert f.id in s.pending ==> OnFrame(s, f).settled == s.settled + [x];
  }

  /** Everything a frame does: a waiting prompt is told that the agent runs, that it was answered locally, or
      that it was rejected; the error of an accepted one is recorded; anything else is ignored. */
  lemma {:induction false} FrameExactly(s: Rpc, f: Frame)
    ensures var t, id := OnFrame(s, f), f.id;
            && t.nextId == s.nextId && t.pending == s.pending - {id}
            && (id in s.pending ==>
                  && t.lateError == s.lateError && |t.settled| == |s.settled| + 1 && t.settled[..|s.settled|] == s.settled
                  && var told := t.settled[|s.settled|];
                  && told.id == id
                  && (told.reply == Err(PromptRejected) <==> f.Response? && !f.success)
                  && (told.reply == Ok(AgentInvoked) <==> f.Response? && f.success && f.agentInvoked != Some(false))
                  && (told.reply == Ok(LocalCompletion) <==> f.PromptResult? || (f.success && f.agentInvoked == Some(false)))
                  && t.accepted == s.accepted + if told.reply == Ok(AgentInvoked) then {id} else {})
            && (id !in s.pending ==>
                  t == if id !in s.accepted || (f.Response? && f.success) then s
                       else s.(lateError := Some(if f.Response? then LatePromptError else PromptLocalCompletion)))
  {
  }

  /** A new prompt waits under the next number; one that times out waits no longer. */
  lemma {:induction false} CallersExactly(s: Rpc, id: nat)
    ensures Step(s, Register) == Rpc(s.nextId + 1, s.pending + {s.nextId}, s.accepted, s.lateError, s.settled)
    ensures Step(s, Forget(id)) == Rpc(s.nextId, s.pending - {id}, s.accepted, s.lateError, s.settled)
  {
  }

  /** Once an accepted prompt has failed, the process stays unhealthy: later prompts are refused. */
  lemma {:induction false} UnhealthyForever(s: Rpc, actions: seq<Action>)
    requires Inv(s) && s.lateError.Some?
    ensures Inv(Steps(s, actions)) && Steps(s, actions).lateError.Some?
  {
    if actions != [] {
      var last := Steps(s, actions[..|actions| - 1]);
      UnhealthyForever(s, actions[..|actions| - 1]);
      StepKeeps(last, actions[|actions| - 1]);
      if actions[|actions| - 1].Drain? && IsOrder(actions[|actions| - 1].order, last.pending) {
        DrainKeeps(last, actions[|actions| - 1].order);
      }
    }
  }

  /** The drain answers everyone who is waiting, each once, with an unexpected exit. */
  lemma {:induction false} DrainAnswersAll(s: Rpc, order: seq<nat>, id: nat)
    requires Inv(s) && IsOrder(order, s.pending)
    ensures DrainAll(s, order).pending == {}
    ensures RepliesTo(DrainAll(s, order).settled, id) ==
              if id in s.pending then [Err(UnexpectedExit)] else RepliesTo(s.settled, id)
  {
    DrainKeeps(s, order);
    assert PromptOk(s, id);
    DrainReplies(s, order, id);
  }

  lemma {:induction false} DrainReplies(s: Rpc, order: seq<nat>, id: nat)
    requires forall i, j :: 0 <= i < j < |order| ==> order[i] != order[j]
    ensures RepliesTo(DrainAll(s, order).settled, id) ==
              if id in order then RepliesTo(s.settled, id) + [Err(UnexpectedExit)] else RepliesTo(s.settled, id)
  {
    if order != [] {
      var rest, last := order[..|order| - 1], order[|order| - 1];
      DrainReplies(s, rest, id);
      RepliesSnoc(DrainAll(s, rest).settled, Settlement(last, Err(UnexpectedExit)), id);
      assert last !in rest;
      assert order == rest + [last];
    }
  }

  // ---------- The state as the program keeps it ----------

  /** The entries taken so far, each once. */
  ghost predicate PartlyDrained(order: seq<nat>, all: set<nat>, left: set<nat>) {
    && (forall i, j :: 0 <= i < j < |order| ==> order[i] != order[j])
    && forall id :: id in order <==> id in all && id !in left
  }

  lemma {:induction false} AllDrained(order: seq<nat>, all: set<nat>)
    requires PartlyDrained(order, all, {})
    ensures IsOrder(order, all)
  {
  }

  lemma {:induction false} DrainOne(s: Rpc, order: seq<nat>, all: set<nat>, left: set<nat>, id: nat)
    requires PartlyDrained(order, all, left) && id in left && id in all
    ensures PartlyDrained(order + [id], all, left - {id})
    ensures DrainAll(s, order + [id]) == Settle(DrainAll(s, order), id, Err(UnexpectedExit))
  {
    assert (order + [id])[..|order|] == order;
  }

  class RpcState {
    var nextId: nat
    var pending: set<nat>
    var accepted: set<nat>
    var lateError: Option<Failure>
    var settled: seq<Settlement>

    function State(): Rpc
      reads this
    {
      Rpc(nextId, pending, accepted, lateError, settled)
    }

    constructor ()
      ensures State() == START
    {
      nextId, pending, accepted, lateError, settled := 1, {}, {}, None, [];
    }

    method EnsureHealthy() returns (r: Result<(), Failure>)
      ensures r == if lateError.Some? then Err(lateError.value) else Ok(())
    {
      return if lateError.Some? then Err(lateError.value) else Ok(());
    }

    method RegisterPrompt() returns (id: nat)
      modifies this`nextId, this`pending
      ensures State() == Step(old(State()), Register) && id == old(nextId)
    {
      id := nextId;
      nextId := nextId + 1;
      pending := pending + {id};
    }

    method ForgetPrompt(id: nat)
      modifies this`pending
      ensures State() == Step(old(State()), Forget(id))
    {
      pending := pending - {id};
    }

    method SettleResponse(id: nat, success: bool, agentInvoked: Option<bool>)
      modifies this
      ensures State() == Step(old(State()), Receive(Response(id, success, agentInvoked)))
    {
      if id in pending {
        pending := pending - {id};
        if !success {
          settled := settled + [Settlement(id, Err(PromptRejected))];
          return;
        }
        var outcome := if agentInvoked == Some(false) then LocalCompletion else AgentInvoked;
        if outcome.AgentInvoked? {
          accepted := accepted + {id};
        }
        settled := settled + [Settlement(id, Ok(outcome))];
      } else if !success && id in accepted {
        lateError := Some(LatePromptError);
      }
    }

    method SettlePromptResult(id: nat)
      modifies this
      ensures State() == Step(old(State()), Receive(PromptResult(id)))
    {
      if id in pending {
        pending := pending - {id};
        settled := settled + [Settlement(id, Ok(LocalCompletion))];
      } else if id in accepted {
        lateError := Some(PromptLocalCompletion);
      }
    }

    /** One entry is answered at the end of the reader. */
    method Fail(id: nat)
      modifies this`pending, this`settled
      ensures State() == Settle(old(State()), id, Err(UnexpectedExit))
    {
      pending := pending - {id};
      settled := settled + [Settlement(id, Err(UnexpectedExit))];
    }

    /** The end of the reader: the table is emptied in an arbitrary order. */
    method DrainPending() returns (ghost order: seq<nat>)
      modifies this`pending, this`settled
      ensures IsOrder(order, old(pending)) && State() == Step(old(State()), Drain(order))
    {
      order := [];
      while pending != {}
        invariant pending <= old(pending) && State() == DrainAll(old(State()), order)
        invariant PartlyDrained(order, old(pending), pending)
        decreases |pending|
      {
        var id :| id in pending;
        DrainOne(old(State()), order, old(pending), pending, id);
        Fail(id);
        order := order + [id];
      }
      AllDrained(order, old(pending));
    }
  }
}
