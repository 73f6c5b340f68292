/** The bounded tool loop between a provider and a tool executor. */
module AgentLoop {
  import opened Basics
  import opened Text

  const MAX_AGENT_ROUNDS: nat := 16
  const MAX_TOOL_CALLS_PER_ROUND: nat := 32
  const MAX_TOOL_RESULT_BYTES: nat := 512 * 1024

  datatype Call = Call(id: string, name: string, arguments: string)

  datatype Message =
    | System(content: string)
    | User(content: string)
    | Assistant(content: string, calls: seq<Call>)
    | ToolResult(content: string, callId: string, name: string)

  datatype Role = Builder | Reviewer

  datatype LoopRequest = LoopRequest(id: string, role: Role, systemPrompt: string, userPrompt: string, maxRounds: nat)

  datatype Completion = Completion(text: string, reasoning: Option<string>, calls: seq<Call>)

  datatype Failure = InvalidRequest | Cancelled | Unavailable | Provider(code: int)

  /** Everything the loop does not decide itself, by round and by position within the round: whether the
      run was cancelled before the round or while the provider worked, the provider's answer, and each
      tool's result. */
  datatype World = World(
    selectionValid: bool,
    cancelledBefore: nat -> bool,
    answer: nat -> Result<Completion, Failure>,
    tool: (nat, nat) -> Result<string, Failure>)

  datatype LoopResult = LoopResult(finalText: string, reasoning: Option<string>, rounds: nat, toolCalls: nat)

  /** What the provider is asked in one round. */
  datatype Request = Request(id: string, messages: seq<Message>)

  predicate RequestOk(r: LoopRequest) {
    && 6 <= Utf8Length(r.id) <= 100
    && 1 <= r.maxRounds <= MAX_AGENT_ROUNDS
    && Utf8Length(r.systemPrompt) <= 256 * 1024
    && Utf8Length(r.userPrompt) <= 2 * 1024 * 1024
    && !r.role.Reviewer?
  }

  /** Two decimal digits; there are never more than 16 rounds. */
  function TwoDigits(n: nat): string {
    [(n / 10 % 10 + '0' as int) as char, (n % 10 + '0' as int) as char]
  }

  function RoundId(r: LoopRequest, round: nat): string {
    r.id + "-" + TwoDigits(round)
  }

  // ---------- The transcript ----------

  /** One round of tool use: the assistant's calls and one result for each, in call order. */
  datatype Block = Block(text: string, calls: seq<Call>, results: seq<string>)

  /** One message for each call that has a result. */
  function Results(calls: seq<Call>, results: seq<string>): (messages: seq<Message>)
    ensures |messages| == if |results| <= |calls| then |results| else |calls|
  {
    if results == [] then []
    else
      var n := |results| - 1;
      var before := Results(calls, results[..n]);
      if n < |calls| then before + [ToolResult(results[n], calls[n].id, calls[n].name)] else before
  }

  function BlockMessages(b: Block): seq<Message> {
    [Assistant(b.text, b.calls)] + Results(b.calls, b.results)
  }

  /** A finished block: between 1 and 32 calls and exactly one bounded result per call. */
  predicate BlockOk(b: Block) {
    && 1 <= |b.calls| <= MAX_TOOL_CALLS_PER_ROUND && |b.results| == |b.calls|
    && AllBounded(b.results)
  }

  predicate AllBounded(results: seq<string>) {
    forall i :: 0 <= i < |results| ==> Utf8Length(results[i]) <= MAX_TOOL_RESULT_BYTES
  }

  predicate BlocksOk(blocks: seq<Block>) {
    blocks == [] || (BlocksOk(blocks[..|blocks| - 1]) && BlockOk(blocks[|blocks| - 1]))
  }

  /** System, user, and then the blocks. */
  function Transcript(r: LoopRequest, blocks: seq<Block>): seq<Message> {
    if blocks == [] then [System(r.systemPrompt), User(r.userPrompt)]
    else Transcript(r, blocks[..|blocks| - 1]) + BlockMessages(blocks[|blocks| - 1])
  }

  function CallCount(blocks: seq<Block>): nat {
    if blocks == [] then 0 else CallCount(blocks[..|blocks| - 1]) + |blocks[|blocks| - 1].calls|
  }

  /** Each block is the provider's answer of its round and the tools' answers to its calls. */
  ghost predicate BlocksOf(w: World, blocks: seq<Block>) {
    blocks == [] || (BlocksOf(w, blocks[..|blocks| - 1]) && BlockOf(w, |blocks|, blocks[|blocks| - 1]))
  }

  ghost predicate BlockOf(w: World, round: nat, b: Block) {
    && w.answer(round).Ok? && w.answer(round).value.text == b.text && w.answer(round).value.calls == b.calls
    && |b.results| <= |b.calls|
    && forall i: nat :: i < |b.results| ==> w.tool(round, i) == Ok(b.results[i])
  }

  /** The requests so far: the k-th is the transcript of the first k blocks. */
  ghost predicate RequestsOf(r: LoopRequest, blocks: seq<Block>, requests: seq<Request>) {
    requests == []
    || (var k := |requests| - 1;
        && k <= |blocks| && RequestsOf(r, blocks, requests[..k])
        && requests[k] == Request(RoundId(r, k + 1), Transcript(r, blocks[..k])))
  }

  lemma {:induction false} RequestAt(r: LoopRequest, blocks: seq<Block>, requests: seq<Request>, k: nat)
    requires RequestsOf(r, blocks, requests) && k < |requests|
    ensures k <= |blocks| && requests[k] == Request(RoundId(r, k + 1), Transcript(r, blocks[..k]))
  {
    if k < |requests| - 1 {
      RequestAt(r, blocks, requests[..|requests| - 1], k);
    }
  }

  /** Earlier requests do not depend on later blocks. */
  lemma {:induction false} RequestsKept(r: LoopRequest, blocks: seq<Block>, b: Block, requests: seq<Request>)
    requires RequestsOf(r, blocks, requests)
    ensures RequestsOf(r, blocks + [b], requests)
  {
    if requests != [] {
      RequestsKept(r, blocks, b, requests[..|requests| - 1]);
      assert (blocks + [b])[..|requests| - 1] == blocks[..|requests| - 1];
    }
  }

  lemma {:induction false} BlocksSnoc(r: LoopRequest, blocks: seq<Block>, b: Block)
    ensures BlocksOk(blocks + [b]) <==> BlocksOk(blocks) && BlockOk(b)
    ensures CallCount(blocks + [b]) == CallCount(blocks) + |b.calls|
    ensures Transcript(r, blocks + [b]) == Transcript(r, blocks) + BlockMessages(b)
  {
    assert (blocks + [b])[..|blocks|] == blocks;
  }

  lemma {:induction false} CallCountBound(blocks: seq<Block>)
    requires BlocksOk(blocks)
    ensures |blocks| <= CallCount(blocks) <= MAX_TOOL_CALLS_PER_ROUND * |blocks|
  {
    if blocks != [] {
      CallCountBound(blocks[..|blocks| - 1]);
    }
  }

  // ---------- The outcome ----------

  /** The first tool of a round to fail or to answer too much. */
  function ToolFailure(w: World, round: nat, calls: nat, i: nat): Option<Failure>
    decreases calls - i
  {
    if i >= calls then None
    else
      match w.tool(round, i)
      case Err(error) => Some(error)
      case Ok(content) =>
        if Utf8Length(content) > MAX_TOOL_RESULT_BYTES then Some(InvalidRequest) else ToolFailure(w, round, calls, i + 1)
  }

  /** How the loop ends from a round on. */
  function Play(r: LoopRequest, w: World, round: nat, total: nat): Result<LoopResult, Failure>
    decreases r.maxRounds + 1 - round
  {
    if round > r.maxRounds then Err(Unavailable)
    else if w.cancelledBefore(round) then Err(Cancelled)
    else
      match w.answer(round)
      case Err(error) => Err(error)
      case Ok(completion) =>
        if completion.calls == [] then Ok(LoopResult(completion.text, completion.reasoning, round, total))
        else if |completion.calls| > MAX_TOOL_CALLS_PER_ROUND then Err(InvalidRequest)
        else
          var failure := ToolFailure(w, round, |completion.calls|, 0);
          if failure.Some? then Err(failure.value)
          else Play(r, w, round + 1, total + |completion.calls|)
  }

  lemma {:induction false} PlayOn(r: LoopRequest, w: World, round: nat, total: nat)
    requires round <= r.maxRounds && !w.cancelledBefore(round) && w.answer(round).Ok?
    requires 1 <= |w.answer(round).value.calls| <= MAX_TOOL_CALLS_PER_ROUND
    ensures Play(r, w, round, total) ==
              match ToolFailure(w, round, |w.answer(round).value.calls|, 0)
              case None => Play(r, w, round + 1, total + |w.answer(round).value.calls|)
              case Some(error) => Err(error)
  {
  }

  // ---------- The loop ----------

  lemma {:induction false} OneMoreResult(w: World, round: nat, b: Block, content: string, start: seq<Message>)
    requires |b.results| < |b.calls| && w.tool(round, |b.results|) == Ok(content)
    ensures var c := Block(b.text, b.calls, b.results + [content]);
            var call := b.calls[|b.results|];
            && (BlockOf(w, round, b) ==> BlockOf(w, round, c))
            && start + BlockMessages(c) == start + BlockMessages(b) + [ToolResult(content, call.id, call.name)]
  {
    assert (b.results + [content])[..|b.results|] == b.results;
  }

  /** The tools of one round, in call order, until one fails or answers too much. */
  method RunTools(w: World, round: nat, text: string, calls: seq<Call>, start: seq<Message>)
    returns (r: Result<seq<Message>, Failure>, executed: nat, ghost b: Block)
    requires 1 <= |calls| <= MAX_TOOL_CALLS_PER_ROUND
    requires w.answer(round).Ok? && w.answer(round).value.text == text && w.answer(round).value.calls == calls
    ensures executed <= |calls|
    ensures BlockOf(w, round, b) && b.calls == calls
    ensures r.Ok? ==> BlockOk(b) && executed == |calls| && r.value == start + BlockMessages(b)
    ensures r.Ok? ==>
              && |r.value| == |start| + 1 + |calls| && r.value[..|start|] == start && r.value[|start|] == Assistant(text, calls)
              && forall i: nat :: i < |calls| ==>
                   w.tool(round, i).Ok? && r.value[|start| + 1 + i] == ToolResult(w.tool(round, i).value, calls[i].id, calls[i].name)
    ensures r.Err? ==> 1 <= executed
    ensures match ToolFailure(w, round, |calls|, 0) case None => r.Ok? case Some(error) => r == Err(error)
  {
    var messages := start + [Assistant(text, calls)];
    b := Block(text, calls, []);
    executed := 0;
    for i := 0 to |calls|
      invariant executed == i && b.text == text && b.calls == calls && |b.results| == i
      invariant BlockOf(w, round, b) && AllBounded(b.results) && messages == start + BlockMessages(b)
      invariant ToolFailure(w, round, |calls|, i) == ToolFailure(w, round, |calls|, 0)
    {
      var result := w.tool(round, i);
      executed := executed + 1;
      if result.Err? {
        return Err(result.error), executed, b;
      }
      if Utf8Length(result.value) > MAX_TOOL_RESULT_BYTES {
        return Err(InvalidRequest), executed, b;
      }
      OneMoreResult(w, round, b, result.value, start);
      b := Block(text, calls, b.results + [result.value]);
      messages := messages + [ToolResult(result.value, calls[i].id, calls[i].name)];
    }
    AllAnswered(w, round, b, start);
    return Ok(messages), executed, b;
  }

  lemma {:induction false} AllAnswered(w: World, round: nat, b: Block, start: seq<Message>)
    requires BlockOf(w, round, b) && |b.results| == |b.calls|
    ensures var messages := start + BlockMessages(b);
            && |messages| == |start| + 1 + |b.calls| && messages[..|start|] == start && messages[|start|] == Assistant(b.text, b.calls)
            && forall i: nat :: i < |b.calls| ==>
                 w.tool(round, i).Ok? && messages[|start| + 1 + i] == ToolResult(w.tool(round, i).value, b.calls[i].id, b.calls[i].name)
  {
    var messages := start + BlockMessages(b);
    forall i: nat | i < |b.calls|
      ensures w.tool(round, i).Ok? && messages[|start| + 1 + i] == ToolResult(w.tool(round, i).value, b.calls[i].id, b.calls[i].name)
    {
      ResultAt(b.calls, b.results, i);
      assert BlockMessages(b)[1 + i] == Results(b.calls, b.results)[i];
    }
  }

  /** What every run keeps, whatever its result. */
  ghost predicate Faithful(r: LoopRequest, w: World, blocks: seq<Block>, requests: seq<Request>) {
    && BlocksOk(blocks) && BlocksOf(w, blocks)
    && |blocks| <= |requests| <= |blocks| + 1 && |requests| <= r.maxRounds <= MAX_AGENT_ROUNDS
    && RequestsOf(r, blocks, requests)
  }

  datatype Step = Finished(result: Result<LoopResult, Failure>) | Continue(messages: seq<Message>, total: nat)

  /** The provider's answer of one round, and the tools it calls. */
  method Answer(r: LoopRequest, w: World, round: nat, messages: seq<Message>, total: nat)
    returns (step: Step, executed: nat, ghost b: Block)
    requires round <= r.maxRounds && !w.cancelledBefore(round)
    ensures step.Finished? ==> step.result == Play(r, w, round, total)
    ensures step.Finished? && step.result.Ok? ==>
              && w.answer(round).Ok? && w.answer(round).value.calls == [] && executed == 0
              && step.result.value == LoopResult(w.answer(round).value.text, w.answer(round).value.reasoning, round, total)
    ensures step.Continue? ==>
              && Play(r, w, round, total) == Play(r, w, round + 1, step.total)
              && step.total == total + |b.calls| && executed == |b.calls|
              && BlockOk(b) && BlockOf(w, round, b) && step.messages == messages + BlockMessages(b)
  {
    b := Block("", [], []);
    var answer := w.answer(round);
    if answer.Err? {
      return Finished(Err(answer.error)), 0, b;
    }
    var completion := answer.value;
    if completion.calls == [] {
      return Finished(Ok(LoopResult(completion.text, completion.reasoning, round, total))), 0, b;
    }
    if |completion.calls| > MAX_TOOL_CALLS_PER_ROUND {
      return Finished(Err(InvalidRequest)), 0, b;
    }
    PlayOn(r, w, round, total);
    var outcome, done, block := RunTools(w, round, completion.text, completion.calls, messages);
    if outcome.Err? {
      return Finished(Err(outcome.error)), done, b;
    }
    return Continue(outcome.value, total + |completion.calls|), done, block;
  }

  method RunAgentLoop(r: LoopRequest, w: World)
    returns (result: Result<LoopResult, Failure>, requests: seq<Request>, executed: nat, ghost blocks: seq<Block>)
    ensures !RequestOk(r) ==> result == Err(InvalidRequest) && requests == [] && executed == 0
    ensures RequestOk(r) && !w.selectionValid ==> result.Err? && requests == [] && executed == 0
    ensures RequestOk(r) && w.selectionValid ==> result == Play(r, w, 1, 0) && Faithful(r, w, blocks, requests)
    ensures result.Ok? ==>
              && RequestOk(r) && w.selectionValid
              && result.value.rounds == |requests| == |blocks| + 1
              && w.answer(|requests|).Ok? && w.answer(|requests|).value.calls == []
              && result.value.finalText == w.answer(|requests|).value.text
              && result.value.toolCalls == CallCount(blocks) == executed
  {
    requests, executed, blocks := [], 0, [];
    if !RequestOk(r) {
      return Err(InvalidRequest), requests, executed, blocks;
    }
    if !w.selectionValid {
      return Err(Provider(0)), requests, executed, blocks;
    }
    var messages := [System(r.systemPrompt), User(r.userPrompt)];
    var total := 0;
    ghost var expected := Play(r, w, 1, 0);
    for round := 1 to r.maxRounds + 1
      invariant |requests| == |blocks| == round - 1 && Faithful(r, w, blocks, requests)
      invariant messages == Transcript(r, blocks) && total == executed == CallCount(blocks)
      invariant Play(r, w, round, total) == expected
    {
      if w.cancelledBefore(round) {
        return Err(Cancelled), requests, executed, blocks;
      }
      Asked(r, w, blocks, requests);
      requests := requests + [Request(RoundId(r, round), messages)];
      var step, done, b := Answer(r, w, round, messages, total);
      executed := executed + done;
      if step.Finished? {
        return step.result, requests, executed, blocks;
      }
      total := step.total;
      messages := step.messages;
      Answered(r, w, blocks, requests, b);
      blocks := blocks + [b];
    }
    return Err(Unavailable), requests, executed, blocks;
  }

  /** One more request, with the transcript of all blocks so far. */
  lemma {:induction false} Asked(r: LoopRequest, w: World, blocks: seq<Block>, requests: seq<Request>)
    requires Faithful(r, w, blocks, requests) && |requests| == |blocks| && |requests| < r.maxRounds
    ensures Faithful(r, w, blocks, requests + [Request(RoundId(r, |requests| + 1), Transcript(r, blocks))])
  {
    assert blocks[..|blocks|] == blocks;
    var more := requests + [Request(RoundId(r, |requests| + 1), Transcript(r, blocks))];
    assert more[..|more| - 1] == requests;
  }

  /** One more block, answering the last request. */
  lemma {:induction false} Answered(r: LoopRequest, w: World, blocks: seq<Block>, requests: seq<Request>, b: Block)
    requires Faithful(r, w, blocks, requests) && |requests| == |blocks| + 1
    requires BlockOk(b) && BlockOf(w, |blocks| + 1, b)
    ensures Faithful(r, w, blocks + [b], requests)
    ensures Transcript(r, blocks + [b]) == Transcript(r, blocks) + BlockMessages(b)
    ensures CallCount(blocks + [b]) == CallCount(blocks) + |b.calls|
  {
    BlocksSnoc(r, blocks, b);
    RequestsKept(r, blocks, b, requests);
    assert (blocks + [b])[..|blocks|] == blocks;
  }

  // ---------- What the provider sees ----------

  lemma {:induction false} TranscriptGrows(r: LoopRequest, blocks: seq<Block>, k: nat)
    requires k <= |blocks|
    ensures Transcript(r, blocks[..k]) <= Transcript(r, blocks)
  {
    if k < |blocks| {
      assert blocks[..|blocks| - 1][..k] == blocks[..k];
      TranscriptGrows(r, blocks[..|blocks| - 1], k);
    } else {
      assert blocks[..k] == blocks;
    }
  }

  /** Each request extends the one before it. */
  lemma {:induction false} RequestsExtend(r: LoopRequest, w: World, blocks: seq<Block>, requests: seq<Request>, j: nat, k: nat)
    requires Faithful(r, w, blocks, requests) && j <= k < |requests|
    ensures requests[j].messages <= requests[k].messages
  {
    RequestAt(r, blocks, requests, j);
    RequestAt(r, blocks, requests, k);
    TranscriptGrows(r, blocks[..k], j);
    assert blocks[..k][..j] == blocks[..j];
  }

  /** The rounds' request ids are distinct. */
  lemma {:induction false} RoundIdsDistinct(r: LoopRequest, j: nat, k: nat)
    requires j < 100 && k < 100 && RoundId(r, j) == RoundId(r, k)
    ensures j == k
  {
    var n := |r.id| + 1;
    assert RoundId(r, j)[n] == TwoDigits(j)[0] && RoundId(r, k)[n] == TwoDigits(k)[0];
    assert RoundId(r, j)[n + 1] == TwoDigits(j)[1] && RoundId(r, k)[n + 1] == TwoDigits(k)[1];
    assert j == j / 10 * 10 + j % 10 && k == k / 10 * 10 + k % 10;
  }

  lemma {:induction false} ResultAt(calls: seq<Call>, results: seq<string>, i: nat)
    requires i < |results| <= |calls|
    ensures Results(calls, results)[i] == ToolResult(results[i], calls[i].id, calls[i].name)
  {
    if i < |results| - 1 {
      ResultAt(calls, results[..|results| - 1], i);
    }
  }

  /** A position in a transcript: the first two messages, or some message of a block. */
  ghost predicate ShapedAt(messages: seq<Message>, p: nat) {
    if p >= |messages| then false
    else if p == 0 then messages[p].System?
    else if p == 1 then messages[p].User?
    else if messages[p].Assistant? then
      // followed by one result per call, in call order
      && 1 <= |messages[p].calls| <= MAX_TOOL_CALLS_PER_ROUND
      && p + |messages[p].calls| < |messages|
      && forall i: nat :: i < |messages[p].calls| ==> Answers(messages[p + 1 + i], messages[p].calls[i])
    else
      // answers a call of the assistant message before it
      messages[p].ToolResult?
      && exists q: nat :: q < p && messages[q].Assistant? && p - q - 1 < |messages[q].calls|
                          && Answers(messages[p], messages[q].calls[p - q - 1])
  }

  predicate Answers(m: Message, c: Call) {
    m.ToolResult? && m.callId == c.id && m.name == c.name
  }

  /** Read as a flat list, a transcript is one system and one user message and then assistant messages,
      each with 1 to 32 calls and directly followed by exactly one result per call in call order. */
  lemma {:induction false} TranscriptShape(r: LoopRequest, blocks: seq<Block>, p: nat)
    requires BlocksOk(blocks) && p < |Transcript(r, blocks)|
    ensures ShapedAt(Transcript(r, blocks), p)
  {
    if blocks != [] {
      var front, b := blocks[..|blocks| - 1], blocks[|blocks| - 1];
      var before, all := Transcript(r, front), Transcript(r, blocks);
      var n := |before|;
      TranscriptStart(r, front);
      if p < n {
        TranscriptShape(r, front, p);
        ShapeKept(before, BlockMessages(b), p);
      } else if p == n {
        assert all[p] == Assistant(b.text, b.calls);
        forall i: nat | i < |b.calls| ensures Answers(all[p + 1 + i], b.calls[i]) {
          ResultAt(b.calls, b.results, i);
        }
      } else {
        ResultAt(b.calls, b.results, p - n - 1);
        assert all[n].Assistant? && Answers(all[p], all[n].calls[p - n - 1]);
      }
    }
  }

  lemma {:induction false} TranscriptStart(r: LoopRequest, blocks: seq<Block>)
    ensures |Transcript(r, blocks)| >= 2
  {
    if blocks != [] {
      TranscriptStart(r, blocks[..|blocks| - 1]);
    }
  }

  lemma {:induction false} ShapeKept(before: seq<Message>, more: seq<Message>, p: nat)
    requires ShapedAt(before, p)
    ensures ShapedAt(before + more, p)
  {
    var all := before + more;
    if p >= 2 && !before[p].Assistant? {
      var q: nat :| q < p && before[q].Assistant? && p - q - 1 < |before[q].calls|
                    && Answers(before[p], before[q].calls[p - q - 1]);
      assert all[q].Assistant? && Answers(all[p], all[q].calls[p - q - 1]);
    }
  }
}
