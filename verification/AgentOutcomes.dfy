/** How an agent loop ends. */
module AgentOutcomes {
  import opened Basics
  import opened Text
  import opened Utf8
  import opened AgentLoop

  // ---------- What a request must be ----------

  /** The limits on a request, in bytes of its encoding. */
  lemma {:induction false} RequestOkExactly(r: LoopRequest)
    ensures RequestOk(r) <==>
              && 6 <= |EncodeAll(r.id)| <= 100 && 1 <= r.maxRounds <= 16
              && |EncodeAll(r.systemPrompt)| <= 262_144 && |EncodeAll(r.userPrompt)| <= 2_097_152
              && r.role == Builder
  {
    LengthIsEncoded(r.id);
    LengthIsEncoded(r.systemPrompt);
    LengthIsEncoded(r.userPrompt);
  }

  /** A round's id is the request's, a hyphen, and the round's number in two digits. */
  lemma {:induction false} RoundIdExactly(r: LoopRequest, round: nat)
    requires 1 <= round <= 16
    ensures exists tens: char, ones: char ::
              && RoundId(r, round) == r.id + ['-', tens, ones]
              && '0' <= tens <= '1' && '0' <= ones <= '9'
              && (tens as int - '0' as int) * 10 + (ones as int - '0' as int) == round
  {
    var text := TwoDigits(round);
    assert RoundId(r, round) == r.id + ['-', text[0], text[1]];
  }

  // ---------- Rounds ----------

  /** A tool's answer that the loop can pass on. */
  predicate Usable(result: Result<string, Failure>) {
    result.Ok? && |EncodeAll(result.value)| <= 524_288
  }

  /** The round calls between 1 and 32 tools, and all of them answer. */
  ghost predicate GoesOn(w: World, round: nat) {
    && !w.cancelledBefore(round) && w.answer(round).Ok?
    && 1 <= |w.answer(round).value.calls| <= 32
    && forall i: nat :: i < |w.answer(round).value.calls| ==> Usable(w.tool(round, i))
  }

  /** How a round that does not go on ends the loop. */
  ghost predicate EndsWith(w: World, round: nat, calls: nat, result: Result<LoopResult, Failure>) {
    if w.cancelledBefore(round) then result == Err(Cancelled)
    else if w.answer(round).Err? then result == Err(w.answer(round).error)
    else
      var c := w.answer(round).value;
      if c.calls == [] then result == Ok(LoopResult(c.text, c.reasoning, round, calls))
      else if |c.calls| > 32 then result == Err(InvalidRequest)
      else
        exists i: nat ::
          && i < |c.calls| && !Usable(w.tool(round, i)) && (forall k: nat :: k < i ==> Usable(w.tool(round, k)))
          && result == Err(if w.tool(round, i).Err? then w.tool(round, i).error else InvalidRequest)
  }

  /** The tool calls of the rounds before one. */
  function CallsBefore(w: World, round: nat): nat {
    if round <= 1 || w.answer(round - 1).Err? then 0
    else CallsBefore(w, round - 1) + |w.answer(round - 1).value.calls|
  }

  lemma {:induction false} UsableExactly(result: Result<string, Failure>)
    ensures Usable(result) <==> result.Ok? && Utf8Length(result.value) <= MAX_TOOL_RESULT_BYTES
  {
    if result.Ok? {
      LengthIsEncoded(result.value);
    }
  }

  lemma {:induction false} FirstFailure(w: World, round: nat, calls: nat, i: nat)
    requires i <= calls
    ensures match ToolFailure(w, round, calls, i)
            case None => forall k: nat :: i <= k < calls ==> Usable(w.tool(round, k))
            case Some(error) =>
              exists f: nat ::
                && i <= f < calls && !Usable(w.tool(round, f)) && (forall k: nat :: i <= k < f ==> Usable(w.tool(round, k)))
                && error == if w.tool(round, f).Err? then w.tool(round, f).error else InvalidRequest
    decreases calls - i
  {
    if i < calls {
      UsableExactly(w.tool(round, i));
      if Usable(w.tool(round, i)) {
        FirstFailure(w, round, calls, i + 1);
      }
    }
  }

  lemma {:induction false} RoundDecides(r: LoopRequest, w: World, round: nat, total: nat)
    requires round <= r.maxRounds
    ensures if GoesOn(w, round) then Play(r, w, round, total) == Play(r, w, round + 1, total + |w.answer(round).value.calls|)
            else EndsWith(w, round, total, Play(r, w, round, total))
  {
    if !w.cancelledBefore(round) && w.answer(round).Ok? {
      FirstFailure(w, round, |w.answer(round).value.calls|, 0);
    }
  }

  lemma {:induction false} PlayReaches(r: LoopRequest, w: World, round: nat)
    requires 1 <= round <= r.maxRounds + 1 && forall k: nat :: 1 <= k < round ==> GoesOn(w, k)
    ensures Play(r, w, 1, 0) == Play(r, w, round, CallsBefore(w, round))
  {
    if round > 1 {
      PlayReaches(r, w, round - 1);
      RoundDecides(r, w, round - 1, CallsBefore(w, round - 1));
      assert GoesOn(w, round - 1);
    }
  }

  /** The loop ends with the first round that does not go on, and fails if all of them do. */
  lemma {:induction false} OutcomeExactly(r: LoopRequest, w: World, round: nat)
    requires 1 <= round <= r.maxRounds + 1 && forall k: nat :: 1 <= k < round ==> GoesOn(w, k)
    ensures round == r.maxRounds + 1 ==> Play(r, w, 1, 0) == Err(Unavailable)
    ensures round <= r.maxRounds && !GoesOn(w, round) ==> EndsWith(w, round, CallsBefore(w, round), Play(r, w, 1, 0))
  {
    PlayReaches(r, w, round);
    if round <= r.maxRounds {
      RoundDecides(r, w, round, CallsBefore(w, round));
    }
  }
}
