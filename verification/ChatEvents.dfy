/** Events and the completion of a streamed request, kept in agreement. */
module ChatEvents {
  import opened Basics
  import opened Segments
  import opened ChatStream
  import opened ChatBody

  // ---------- Lines ----------

  datatype Folded = Folded(acc: Acc) | Malformed(acc: Acc)

  function Fold(decode: Decoder, acc: Acc, lines: seq<seq<byte>>): Folded {
    if lines == [] then Folded(acc)
    else
      match Fold(decode, acc, lines[..|lines| - 1])
      case Malformed(last) => Malformed(last)
      case Folded(last) =>
        match Handle(decode, last, Trim(lines[|lines| - 1]))
        case None => Malformed(last)
        case Some(next) => Folded(next)
  }

  lemma {:induction false} FoldCons(decode: Decoder, acc: Acc, line: seq<byte>, lines: seq<seq<byte>>)
    ensures Fold(decode, acc, [line] + lines) ==
              match Handle(decode, acc, Trim(line))
              case None => Malformed(acc)
              case Some(next) => Fold(decode, next, lines)
    decreases |lines|
  {
    var all := [line] + lines;
    if lines == [] {
      assert all[..|all| - 1] == [];
    } else {
      assert all[..|all| - 1] == [line] + lines[..|lines| - 1];
      FoldCons(decode, acc, line, lines[..|lines| - 1]);
    }
  }

  lemma {:induction false} TrimNewline(piece: seq<byte>)
    ensures Trim(piece + [NEWLINE]) == Trim(piece)
  {
    assert (piece + [NEWLINE])[..|piece|] == piece;
  }

  lemma {:induction false} FeedLine(decode: Decoder, acc: Acc, line: seq<byte>, rest: seq<byte>)
    requires NEWLINE !in line
    ensures Feed(decode, acc, line + [NEWLINE] + rest) ==
              match Handle(decode, acc, Trim(line))
              case None => Stopped(acc)
              case Some(next) => Feed(decode, next, rest)
  {
    var body := line + [NEWLINE] + rest;
    assert body[..|line|] == line;
    FirstIndex(body, NEWLINE, |line|);
    assert body[..|line| + 1] == line + [NEWLINE] && body[|line| + 1..] == rest;
    TrimNewline(line);
  }

  lemma {:induction false} SplitFront(line: seq<byte>, rest: seq<byte>)
    requires NEWLINE !in line
    ensures var pieces: seq<seq<byte>> := Split<byte>(line + [NEWLINE] + rest, NEWLINE);
            var after: seq<seq<byte>> := Split<byte>(rest, NEWLINE);
            pieces[..|pieces| - 1] == [line] + after[..|after| - 1] && pieces[|pieces| - 1] == after[|after| - 1]
  {
    SplitCons(line, NEWLINE, rest);
  }

  /** The newline-terminated lines of a body, and what follows the last newline. */
  function Lines(body: seq<byte>): seq<seq<byte>> {
    var pieces: seq<seq<byte>> := Split<byte>(body, NEWLINE);
    pieces[..|pieces| - 1]
  }

  function Leftover(body: seq<byte>): seq<byte> {
    var pieces: seq<seq<byte>> := Split<byte>(body, NEWLINE);
    pieces[|pieces| - 1]
  }

  /** Feeding a body is handling its newline-terminated lines in order; the last piece is left over. */
  lemma {:induction false} FeedIsFold(decode: Decoder, acc: Acc, body: seq<byte>)
    ensures Feed(decode, acc, body) ==
              match Fold(decode, acc, Lines(body))
              case Malformed(last) => Stopped(last)
              case Folded(last) => Fed(last, Leftover(body))
    decreases |body|
  {
    var first := IndexOf(body, NEWLINE);
    if first.None? {
      SplitPiece(body, NEWLINE);
      assert Lines(body) == [];
    } else {
      var line, rest := body[..first.value], body[first.value + 1..];
      assert body == line + [NEWLINE] + rest;
      SplitFront(line, rest);
      FeedLine(decode, acc, line, rest);
      FoldCons(decode, acc, line, Lines(rest));
      var next := Handle(decode, acc, Trim(line));
      if next.Some? {
        FeedIsFold(decode, next.value, rest);
      }
    }
  }

  // ---------- Events ----------

  /** How often a completion was announced. */
  function Completions(events: seq<Event>): nat {
    if events == [] then 0
    else Completions(events[..|events| - 1]) + if events[|events| - 1].kind.Completed? then 1 else 0
  }

  /** The tool calls announced, in order. */
  function CallsTold(events: seq<Event>): seq<ToolCall> {
    if events == [] then []
    else
      var k := events[|events| - 1].kind;
      CallsTold(events[..|events| - 1]) + if k.ToolCalled? then [k.call] else []
  }

  lemma {:induction false} CompletionsSnoc(events: seq<Event>, e: Event)
    ensures CallsTold(events + [e]) == CallsTold(events) + if e.kind.ToolCalled? then [e.kind.call] else []
    ensures Completions(events + [e]) == Completions(events) + if e.kind.Completed? then 1 else 0
  {
    assert (events + [e])[..|events|] == events;
  }

  /** Neither a call nor a completion was announced between the two. */
  predicate Quiet(before: Acc, after: Acc) {
    Completions(after.events) == Completions(before.events) && CallsTold(after.events) == CallsTold(before.events)
  }

  lemma {:induction false} EmitQuiet(acc: Acc, kind: Kind)
    requires !kind.ToolCalled? && !kind.Completed?
    ensures Quiet(acc, Emit(acc, kind))
  {
    CompletionsSnoc(acc.events, Event(acc.sequence + 1, kind));
  }

  lemma {:induction false} AddToolsQuiet(acc: Acc, deltas: seq<ToolDelta>)
    ensures Quiet(acc, AddTools(acc, deltas))
    decreases deltas
  {
    if deltas != [] {
      EmitQuiet(acc.(tools := Upsert(acc.tools, deltas[0])), ToolCallDelta(deltas[0]));
      AddToolsQuiet(AddTool(acc, deltas[0]), deltas[1..]);
    }
  }

  lemma {:induction false} AddDeltaQuiet(acc: Acc, d: Delta)
    ensures Quiet(acc, AddDelta(acc, d))
  {
    if d.content.Some? {
      EmitQuiet(acc.(text := acc.text + d.content.value), TextDelta(d.content.value));
    }
    var told := AddText(acc, d.content);
    if d.reasoning.Some? {
      EmitQuiet(told.(reasoning := told.reasoning + d.reasoning.value), ReasoningDelta(d.reasoning.value));
    }
    AddToolsQuiet(AddReasoning(told, d.reasoning), d.tools);
  }

  /** No line announces a call or a completion. */
  lemma {:induction false} HandleQuiet(decode: Decoder, acc: Acc, line: seq<byte>)
    requires Handle(decode, acc, line).Some?
    ensures Quiet(acc, Handle(decode, acc, line).value)
  {
    if LineData(line).Some? {
      var p := decode(LineData(line).value).value;
      if p.choice.Some? && p.choice.value.delta.Some? {
        AddDeltaQuiet(SetFinish(SetUsage(acc, p.usage), p.choice.value.finishReason), p.choice.value.delta.value);
      }
    }
  }

  /** A faithful accumulator that has announced no call and no completion. */
  ghost predicate Streaming(acc: Acc, base: nat) {
    Faithful(acc, base) && Completions(acc.events) == 0 && CallsTold(acc.events) == []
  }

  lemma {:induction false} HandleStreaming(decode: Decoder, acc: Acc, line: seq<byte>, base: nat)
    requires Streaming(acc, base) && Handle(decode, acc, line).Some?
    ensures Streaming(Handle(decode, acc, line).value, base)
  {
    HandleFaithful(decode, acc, line, base);
    HandleQuiet(decode, acc, line);
  }

  lemma {:induction false} FeedStreaming(decode: Decoder, acc: Acc, buffer: seq<byte>, base: nat)
    requires Streaming(acc, base)
    ensures Streaming(Feed(decode, acc, buffer).acc, base)
    decreases |buffer|
  {
    var first := IndexOf(buffer, NEWLINE);
    if first.Some? {
      var line := Trim(buffer[..first.value + 1]);
      if Handle(decode, acc, line).Some? {
        HandleStreaming(decode, acc, line, base);
        FeedStreaming(decode, Handle(decode, acc, line).value, buffer[first.value + 1..], base);
      }
    }
  }

  /** The calls are the tools in order, each with its arguments parsed. */
  ghost predicate CallsOf(parse: ArgumentParser, tools: seq<Tool>, calls: seq<ToolCall>) {
    |calls| == |tools|
    && forall i :: 0 <= i < |tools| ==>
         parse(tools[i].arguments).Some? && calls[i] == CallOf(tools[i], parse(tools[i].arguments).value)
  }

  /** The deltas told so far do not change when calls and the completion are announced. */
  ghost predicate SameDeltas(before: seq<Event>, after: seq<Event>) {
    && TextOf(after) == TextOf(before) && ReasoningOf(after) == ReasoningOf(before)
    && forall index :: ToolOf(after, index) == ToolOf(before, index)
  }

  lemma {:induction false} QuietSnoc(before: seq<Event>, events: seq<Event>, e: Event)
    requires SameDeltas(before, events) && (e.kind.ToolCalled? || e.kind.Completed?)
    ensures SameDeltas(before, events + [e])
  {
    EventSnoc(events, e, 0);
    forall index ensures ToolOf(events + [e], index) == ToolOf(before, index) {
      EventSnoc(events, e, index);
    }
  }

  /** Completing: one event per call, then the completion as the last event; if a call's arguments do
      not parse, no completion is announced. */
  lemma {:induction false} CompleteEvents(
    parse: ArgumentParser, before: seq<Event>, acc: Acc, tools: seq<Tool>, calls: seq<ToolCall>, base: nat)
    requires SameDeltas(before, acc.events) && Completions(acc.events) == 0 && CallsTold(acc.events) == calls
    requires acc.sequence == base + |acc.events| && Numbered(acc.events, base + 1)
    ensures var e := Complete(parse, acc, tools, calls);
            && Numbered(e.events, base + 1) && SameDeltas(before, e.events)
            && (e.result.Err? ==> e.result.error == MalformedResponse && Completions(e.events) == 0)
            && (e.result.Ok? ==>
                  && Completions(e.events) == 1 && e.events != [] && CallsTold(e.events) == e.result.value.toolCalls
                  && Last(e.events).kind == Completed(acc.finishReason, acc.usage)
                  && e.result.value.finishReason == acc.finishReason && e.result.value.usage == acc.usage
                  && e.result.value.text == acc.text
                  && e.result.value.reasoning == (if acc.reasoning == "" then None else Some(acc.reasoning)))
    decreases tools
  {
    if tools == [] {
      var e := Event(acc.sequence + 1, Completed(acc.finishReason, acc.usage));
      NumberedSnoc(acc.events, e, base + 1);
      QuietSnoc(before, acc.events, e);
      CompletionsSnoc(acc.events, e);
    } else if parse(tools[0].arguments).Some? {
      var call := CallOf(tools[0], parse(tools[0].arguments).value);
      var e := Event(acc.sequence + 1, ToolCalled(call));
      NumberedSnoc(acc.events, e, base + 1);
      QuietSnoc(before, acc.events, e);
      CompletionsSnoc(acc.events, e);
      CompleteEvents(parse, before, Emit(acc, ToolCalled(call)), tools[1..], calls + [call], base);
    }
  }

  lemma {:induction false} CompleteCalls(
    parse: ArgumentParser, acc: Acc, done: seq<Tool>, tools: seq<Tool>, calls: seq<ToolCall>)
    requires CallsOf(parse, done, calls)
    ensures var e := Complete(parse, acc, tools, calls);
            e.result.Ok? ==> CallsOf(parse, done + tools, e.result.value.toolCalls)
    decreases tools
  {
    if tools == [] {
      assert done + tools == done;
    } else if parse(tools[0].arguments).Some? {
      var call := CallOf(tools[0], parse(tools[0].arguments).value);
      assert done + [tools[0]] + tools[1..] == done + tools;
      CompleteCalls(parse, Emit(acc, ToolCalled(call)), done + [tools[0]], tools[1..], calls + [call]);
    }
  }

  /** What the completion of a decoded body says, and what its events say, agree. */
  ghost predicate Agree(parse: ArgumentParser, c: Completion, events: seq<Event>) {
    && c.text == TextOf(events)
    && c.reasoning == (if ReasoningOf(events) == "" then None else Some(ReasoningOf(events)))
    && events != [] && Last(events).kind == Completed(c.finishReason, c.usage) && Completions(events) == 1
    && CallsTold(events) == c.toolCalls
    && exists tools: seq<Tool> :: ToolsOf(tools, events) && CallsOf(parse, tools, c.toolCalls)
  }

  /** The tools the deltas built, in ascending order of index. */
  ghost predicate ToolsOf(tools: seq<Tool>, events: seq<Event>) {
    Ascending(tools) && forall index :: ToolAt(tools, index) == ToolOf(events, index)
  }

  lemma {:induction false} FinishAgrees(parse: ArgumentParser, acc: Acc, base: nat)
    requires Streaming(acc, base)
    ensures var e := Complete(parse, acc, acc.tools, []);
            && Numbered(e.events, base + 1)
            && (e.result.Ok? ==> Agree(parse, e.result.value, e.events))
            && (e.result.Err? ==> Completions(e.events) == 0)
  {
    CompleteEvents(parse, acc.events, acc, acc.tools, [], base);
    CompleteCalls(parse, acc, [], acc.tools, []);
    assert [] + acc.tools == acc.tools;
    var e := Complete(parse, acc, acc.tools, []);
    assert ToolsOf(acc.tools, e.events) by {
      forall index ensures ToolAt(acc.tools, index) == ToolOf(e.events, index) {
        assert ToolOf(e.events, index) == ToolOf(acc.events, index);
      }
    }
  }

  /** For every body: events are numbered without gaps from the first free number; on success the text,
      the reasoning and each tool's arguments are the concatenation of its deltas in order, the calls
      announced are the completion's calls, and the one completion is the last event; otherwise no completion is announced. */
  lemma {:induction false} OutcomeAgrees(
    decode: Decoder, parse: ArgumentParser, start: nat, body: seq<byte>, broken: Option<Failure>)
    ensures var e := Outcome(decode, parse, start, body, broken);
            && Numbered(e.events, start + 1)
            && (e.result.Ok? ==> broken.None? && Agree(parse, e.result.value, e.events))
            && (e.result.Err? ==> Completions(e.events) == 0)
  {
    assert Streaming(Initial(start), start);
    FeedStreaming(decode, Initial(start), body, start);
    var fed := Feed(decode, Initial(start), body);
    if broken.None? && fed.Fed? {
      if fed.rest == [] {
        FinishAgrees(parse, fed.acc, start);
      } else if Handle(decode, fed.acc, fed.rest).Some? {
        HandleStreaming(decode, fed.acc, fed.rest, start);
        FinishAgrees(parse, Handle(decode, fed.acc, fed.rest).value, start);
      }
    }
  }

  /** A body over the limit ends without a completion, its events numbered as always. */
  lemma {:induction false} TooLongIsUnfinished(decode: Decoder, start: nat, body: seq<byte>)
    ensures var e := TooLong(decode, start, body);
            && e.result == Err(MalformedResponse) && Numbered(e.events, start + 1)
            && Completions(e.events) == 0 && CallsTold(e.events) == []
  {
    assert Streaming(Initial(start), start);
    FeedStreaming(decode, Initial(start), body, start);
  }

  // ---------- A request as a whole ----------

  /** The events before the body is read. */
  function Opening(limited: bool): seq<Event> {
    [Event(1, Started)] + if limited then [Event(2, RateLimits)] else []
  }

  lemma {:induction false} NumberedAppend(a: seq<Event>, b: seq<Event>, first: nat)
    requires Numbered(a, first)
    ensures Numbered(a + b, first) <==> Numbered(b, first + |a|)
  {
    if b == [] {
      assert a + b == a;
    } else {
      assert (a + b)[..|a + b| - 1] == a + b[..|b| - 1];
      NumberedAppend(a, b[..|b| - 1], first);
    }
  }

  /** A streamed request numbers all its events 1, 2, 3 and so on. */
  lemma {:induction false} StreamedNumbers(
    decode: Decoder, parse: ArgumentParser, body: seq<byte>, broken: Option<Failure>, limited: bool)
    ensures Numbered(Opening(limited) + Outcome(decode, parse, if limited then 2 else 1, body, broken).events, 1)
  {
    var start := if limited then 2 else 1;
    OutcomeAgrees(decode, parse, start, body, broken);
    NumberedSnoc([], Event(1, Started), 1);
    assert [] + [Event(1, Started)] == [Event(1, Started)];
    if limited {
      NumberedSnoc([Event(1, Started)], Event(2, RateLimits), 1);
    }
    NumberedAppend(Opening(limited), Outcome(decode, parse, start, body, broken).events, 1);
  }

  /** The events of a body that is not streamed. */
  function WholeEvents(text: string, calls: seq<ToolCall>, finishReason: Option<string>, usage: Usage): seq<Event> {
    var told := if text == "" then [] else [Event(3, TextDelta(text))];
    var called := CallEvents(told, calls);
    called + [Event(3 + |called|, Completed(finishReason, usage))]
  }

  function CallEvents(events: seq<Event>, calls: seq<ToolCall>): seq<Event>
    decreases calls
  {
    if calls == [] then events
    else CallEvents(events + [Event(3 + |events|, ToolCalled(calls[0]))], calls[1..])
  }

  lemma {:induction false} CallEventsNumbered(events: seq<Event>, calls: seq<ToolCall>)
    requires Numbered(events, 3)
    ensures Numbered(CallEvents(events, calls), 3)
    decreases calls
  {
    if calls != [] {
      var e := Event(3 + |events|, ToolCalled(calls[0]));
      NumberedSnoc(events, e, 3);
      CallEventsNumbered(events + [e], calls[1..]);
    }
  }

  /** A body that is not streamed is numbered from 3, so its request has no gap exactly when event 2 was sent. */
  lemma {:induction false} WholeNumbersExactly(
    text: string, calls: seq<ToolCall>, finishReason: Option<string>, usage: Usage, limited: bool)
    ensures Numbered(WholeEvents(text, calls, finishReason, usage), 3)
    ensures Numbered(Opening(limited) + WholeEvents(text, calls, finishReason, usage), 1) <==> limited
  {
    var told := if text == "" then [] else [Event(3, TextDelta(text))];
    if text != "" {
      NumberedSnoc([], Event(3, TextDelta(text)), 3);
      assert [] + [Event(3, TextDelta(text))] == told;
    }
    CallEventsNumbered(told, calls);
    var called := CallEvents(told, calls);
    var whole := WholeEvents(text, calls, finishReason, usage);
    NumberedSnoc(called, Event(3 + |called|, Completed(finishReason, usage)), 3);
    NumberedSnoc([], Event(1, Started), 1);
    assert [] + [Event(1, Started)] == [Event(1, Started)];
    if limited {
      NumberedSnoc([Event(1, Started)], Event(2, RateLimits), 1);
    }
    NumberedAppend(Opening(limited), whole, 1);
    if !limited {
      var last := |whole| - 1;
      assert whole[last].sequence == 3 + last;
    }
  }
}
