/** Decoding a chunked body. */
module ChatBody {
  import opened Basics
  import opened Segments
  import opened ChatStream

  const MAX_RESPONSE_BYTES: nat := 8 * 1024 * 1024

  datatype Failure = MalformedResponse | Cancelled | Transport

  /** A line without its trailing newline and carriage returns. */
  function Trim(line: seq<byte>): seq<byte> {
    if line != [] && (line[|line| - 1] == NEWLINE || line[|line| - 1] == CARRIAGE_RETURN)
    then Trim(line[..|line| - 1]) else line
  }

  function IndexOf(s: seq<byte>, b: byte): (r: Option<nat>)
    ensures r.Some? ==> r.value < |s| && s[r.value] == b && b !in s[..r.value]
    ensures r.None? ==> b !in s
  {
    if s == [] then None
    else if s[0] == b then Some(0)
    else
      match IndexOf(s[1..], b)
      case None => None
      case Some(i) =>
        assert s[..i + 1] == [s[0]] + s[1..][..i];
        Some(i + 1)
  }

  /** The state after the complete lines of some bytes: what is left over, or that a line was malformed. */
  datatype Fed = Fed(acc: Acc, rest: seq<byte>) | Stopped(acc: Acc)

  function Feed(decode: Decoder, acc: Acc, buffer: seq<byte>): Fed
    decreases |buffer|
  {
    match IndexOf(buffer, NEWLINE)
    case None => Fed(acc, buffer)
    case Some(i) =>
      match Handle(decode, acc, Trim(buffer[..i + 1]))
      case None => Stopped(acc)
      case Some(next) => Feed(decode, next, buffer[i + 1..])
  }

  /** Bytes can be fed in one go or one part after the other. */
  lemma {:induction false} FeedAppend(decode: Decoder, acc: Acc, a: seq<byte>, b: seq<byte>)
    ensures Feed(decode, acc, a + b) ==
              match Feed(decode, acc, a)
              case Stopped(s) => Stopped(s)
              case Fed(s, rest) => Feed(decode, s, rest + b)
    decreases |a|
  {
    var first := IndexOf(a, NEWLINE);
    if first.Some? {
      var i := first.value;
      FirstIndex(a + b, NEWLINE, i);
      assert (a + b)[..i + 1] == a[..i + 1] && (a + b)[i + 1..] == a[i + 1..] + b;
      var next := Handle(decode, acc, Trim(a[..i + 1]));
      if next.Some? {
        FeedAppend(decode, next.value, a[i + 1..], b);
      }
    }
  }

  lemma {:induction false} FirstIndex(s: seq<byte>, b: byte, i: nat)
    requires i < |s| && s[i] == b && b !in s[..i]
    ensures IndexOf(s, b) == Some(i)
  {
    if i > 0 {
      assert s[0] in s[..i];
      assert s[1..][..i - 1] == s[..i][1..];
      FirstIndex(s[1..], b, i - 1);
    }
  }

  // ---------- The end of the stream ----------

  datatype Completion = Completion(
    text: string, reasoning: Option<string>, toolCalls: seq<ToolCall>, finishReason: Option<string>, usage: Usage)

  function Digits(n: nat): string {
    if n < 10 then [(n + '0' as int) as char] else Digits(n / 10) + [(n % 10 + '0' as int) as char]
  }

  function CallOf(tool: Tool, arguments: Json): ToolCall {
    ToolCall(if tool.id == "" then "tool-" + Digits(tool.index) else tool.id, tool.name, arguments)
  }

  datatype Ended = Ended(result: Result<Completion, Failure>, events: seq<Event>)

  /** The tools in order of index, then the completion; a tool whose arguments do not parse ends it. */
  function Complete(parse: ArgumentParser, acc: Acc, tools: seq<Tool>, calls: seq<ToolCall>): Ended
    decreases tools
  {
    if tools == [] then
      var done := Emit(acc, Completed(acc.finishReason, acc.usage));
      Ended(
        Ok(Completion(acc.text, if acc.reasoning == "" then None else Some(acc.reasoning), calls, acc.finishReason, acc.usage)),
        done.events)
    else
      match parse(tools[0].arguments)
      case None => Ended(Err(MalformedResponse), acc.events)
      case Some(json) =>
        var call := CallOf(tools[0], json);
        Complete(parse, Emit(acc, ToolCalled(call)), tools[1..], calls + [call])
  }

  /** A last line without a newline is handled as it is. */
  function Finish(decode: Decoder, parse: ArgumentParser, fed: Fed): Ended {
    match fed
    case Stopped(acc) => Ended(Err(MalformedResponse), acc.events)
    case Fed(acc, rest) =>
      if rest == [] then Complete(parse, acc, acc.tools, [])
      else
        match Handle(decode, acc, rest)
        case None => Ended(Err(MalformedResponse), acc.events)
        case Some(last) => Complete(parse, last, last.tools, [])
  }

  /** A stream that breaks off keeps the events of its complete lines. */
  function BreakOff(fed: Fed, failure: Failure): Ended {
    if fed.Stopped? then Ended(Err(MalformedResponse), fed.acc.events) else Ended(Err(failure), fed.acc.events)
  }

  /** What a body amounts to, as one run of bytes. */
  function Outcome(decode: Decoder, parse: ArgumentParser, start: nat, body: seq<byte>, broken: Option<Failure>): Ended {
    var fed := Feed(decode, Initial(start), body);
    if broken.Some? then BreakOff(fed, broken.value) else Finish(decode, parse, fed)
  }

  // ---------- The decoder ----------

  class StreamAccumulator {
    var acc: Acc

    constructor (sequence: nat)
      ensures acc == Initial(sequence)
    {
      acc := Initial(sequence);
    }

    method ProcessLine(decode: Decoder, line: seq<byte>) returns (ok: bool)
      modifies this
      ensures ok <==> Handle(decode, old(acc), line).Some?
      ensures ok ==> Some(acc) == Handle(decode, old(acc), line)
      ensures !ok ==> acc == old(acc)
    {
      if line == [] || line[0] == COMMENT || !(DATA <= line) {
        return true;
      }
      var data := line[|DATA|..];
      if data != [] && data[0] == SPACE {
        data := data[1..];
      }
      if data == DONE {
        return true;
      }
      var payload := decode(data);
      if payload.None? {
        return false;
      }
      ApplyPayload(payload.value);
      return true;
    }

    method ApplyPayload(p: Payload)
      modifies this
      ensures acc == Absorb(old(acc), p)
    {
      acc := SetUsage(acc, p.usage);
      if p.choice.None? {
        return;
      }
      acc := SetFinish(acc, p.choice.value.finishReason);
      if p.choice.value.delta.None? {
        return;
      }
      var d := p.choice.value.delta.value;
      acc := AddText(acc, d.content);
      acc := AddReasoning(acc, d.reasoning);
      ghost var start := acc;
      var i := 0;
      while i < |d.tools|
        invariant 0 <= i <= |d.tools|
        invariant AddTools(acc, d.tools[i..]) == AddTools(start, d.tools)
      {
        acc := AddTool(acc, d.tools[i]);
        assert d.tools[i..][1..] == d.tools[i + 1..];
        i := i + 1;
      }
    }

    /** The line loop over the buffer. */
    method Drain(decode: Decoder, buffer: seq<byte>) returns (ok: bool, rest: seq<byte>)
      modifies this
      ensures Feed(decode, old(acc), buffer) == if ok then Fed(acc, rest) else Stopped(acc)
    {
      rest := buffer;
      var position := IndexOf(rest, NEWLINE);
      while position.Some?
        invariant position == IndexOf(rest, NEWLINE)
        invariant Feed(decode, acc, rest) == Feed(decode, old(acc), buffer)
        decreases |rest|
      {
        var line := Trim(rest[..position.value + 1]);
        ok := ProcessLine(decode, line);
        if !ok {
          return;
        }
        rest := rest[position.value + 1..];
        position := IndexOf(rest, NEWLINE);
      }
      ok := true;
    }

    method EmitToolCalls(parse: ArgumentParser) returns (r: Result<Completion, Failure>)
      modifies this
      ensures Complete(parse, old(acc), old(acc).tools, []) == Ended(r, acc.events)
    {
      var tools := acc.tools;
      var calls: seq<ToolCall> := [];
      for i := 0 to |tools|
        invariant Complete(parse, acc, tools[i..], calls) == Complete(parse, old(acc), tools, [])
      {
        var arguments := parse(tools[i].arguments);
        if arguments.None? {
          return Err(MalformedResponse);
        }
        var call := CallOf(tools[i], arguments.value);
        acc := Emit(acc, ToolCalled(call));
        calls := calls + [call];
        assert tools[i..][1..] == tools[i + 1..];
      }
      r := Ok(Completion(acc.text, if acc.reasoning == "" then None else Some(acc.reasoning), calls, acc.finishReason, acc.usage));
      acc := Emit(acc, Completed(acc.finishReason, acc.usage));
    }
  }

  /** How many chunks arrive before the limit is passed. */
  function Fitting(chunks: seq<seq<byte>>): (n: nat)
    ensures n <= |chunks| && |Flatten(chunks[..n])| <= MAX_RESPONSE_BYTES
  {
    if |Flatten(chunks)| <= MAX_RESPONSE_BYTES then
      assert chunks[..|chunks|] == chunks;
      |chunks|
    else
      var front := chunks[..|chunks| - 1];
      var n := Fitting(front);
      assert front[..n] == chunks[..n];
      n
  }

  /** A body that is too long: the events of the lines in what fits. */
  function TooLong(decode: Decoder, start: nat, body: seq<byte>): Ended {
    Ended(Err(MalformedResponse), Feed(decode, Initial(start), body).acc.events)
  }

  /** The decoder: chunks as they arrive, and whether the stream ended properly. A body of more than
      8 MiB is malformed, after the events of the chunks that fit; any other gives the outcome of its
      bytes, wherever the chunks were cut. */
  method ParseStream(decode: Decoder, parse: ArgumentParser, chunks: seq<seq<byte>>, broken: Option<Failure>, limited: bool)
    returns (r: Result<Completion, Failure>, events: seq<Event>)
    ensures |Flatten(chunks)| <= MAX_RESPONSE_BYTES ==>
              Ended(r, events) == Outcome(decode, parse, if limited then 2 else 1, Flatten(chunks), broken)
    ensures |Flatten(chunks)| > MAX_RESPONSE_BYTES ==>
              Ended(r, events) == TooLong(decode, if limited then 2 else 1, Flatten(chunks[..Fitting(chunks)]))
  {
    var start := if limited then 2 else 1;
    var accumulator := new StreamAccumulator(start);
    var buffer: seq<byte> := [];
    var total := 0;
    for i := 0 to |chunks|
      invariant total == |Flatten(chunks[..i])| <= MAX_RESPONSE_BYTES
      invariant Feed(decode, Initial(start), Flatten(chunks[..i])) == Fed(accumulator.acc, buffer)
    {
      NextChunk(decode, Initial(start), chunks, i);
      total := total + |chunks[i]|;
      if total > MAX_RESPONSE_BYTES {
        FittingIs(chunks, i);
        return Err(MalformedResponse), accumulator.acc.events;
      }
      buffer := buffer + chunks[i];
      var ok, rest := accumulator.Drain(decode, buffer);
      if !ok {
        StoppedFits(decode, Initial(start), chunks, i + 1);
        return Err(MalformedResponse), accumulator.acc.events;
      }
      buffer := rest;
    }
    assert chunks[..|chunks|] == chunks;
    if broken.Some? {
      return Err(broken.value), accumulator.acc.events;
    }
    if buffer != [] {
      var ok := accumulator.ProcessLine(decode, buffer);
      if !ok {
        return Err(MalformedResponse), accumulator.acc.events;
      }
    }
    r := accumulator.EmitToolCalls(parse);
    events := accumulator.acc.events;
  }

  /** What one more chunk adds. */
  lemma {:induction false} NextChunk(decode: Decoder, acc: Acc, chunks: seq<seq<byte>>, i: nat)
    requires i < |chunks|
    ensures |Flatten(chunks[..i + 1])| == |Flatten(chunks[..i])| + |chunks[i]|
    ensures |Flatten(chunks[..i + 1])| <= |Flatten(chunks)|
    ensures Feed(decode, acc, Flatten(chunks[..i + 1])) ==
              match Feed(decode, acc, Flatten(chunks[..i]))
              case Stopped(s) => Stopped(s)
              case Fed(s, rest) => Feed(decode, s, rest + chunks[i])
  {
    assert chunks[..i + 1][..i] == chunks[..i];
    FlattenGrows(chunks, i + 1);
    FeedAppend(decode, acc, Flatten(chunks[..i]), chunks[i]);
  }

  lemma {:induction false} FlattenGrows(chunks: seq<seq<byte>>, n: nat)
    requires n <= |chunks|
    ensures |Flatten(chunks[..n])| <= |Flatten(chunks)|
  {
    if n < |chunks| {
      assert chunks[..|chunks| - 1][..n] == chunks[..n];
      FlattenGrows(chunks[..|chunks| - 1], n);
    } else {
      assert chunks[..n] == chunks;
    }
  }

  /** The limit is passed by exactly one chunk. */
  lemma {:induction false} FittingIs(chunks: seq<seq<byte>>, n: nat)
    requires n < |chunks| && |Flatten(chunks[..n])| <= MAX_RESPONSE_BYTES < |Flatten(chunks[..n + 1])|
    ensures Fitting(chunks) == n
  {
    FlattenGrows(chunks, n + 1);
    var front := chunks[..|chunks| - 1];
    if n + 1 < |chunks| {
      assert front[..n] == chunks[..n] && front[..n + 1] == chunks[..n + 1];
      FittingIs(front, n);
    } else {
      assert front == chunks[..n];
    }
  }

  lemma {:induction false} FittingAtLeast(chunks: seq<seq<byte>>, n: nat)
    requires n <= |chunks| && |Flatten(chunks[..n])| <= MAX_RESPONSE_BYTES
    ensures n <= Fitting(chunks)
  {
    if |Flatten(chunks)| > MAX_RESPONSE_BYTES {
      assert chunks[..|chunks|] == chunks;
      var front := chunks[..|chunks| - 1];
      assert front[..n] == chunks[..n];
      FittingAtLeast(front, n);
    }
  }

  lemma {:induction false} StoppedFits(decode: Decoder, acc: Acc, chunks: seq<seq<byte>>, n: nat)
    requires n <= |chunks| && Feed(decode, acc, Flatten(chunks[..n])).Stopped?
    requires |Flatten(chunks[..n])| <= MAX_RESPONSE_BYTES
    ensures Feed(decode, acc, Flatten(chunks)) == Feed(decode, acc, Flatten(chunks[..n]))
    ensures Feed(decode, acc, Flatten(chunks[..Fitting(chunks)])) == Feed(decode, acc, Flatten(chunks[..n]))
  {
    StoppedStays(decode, acc, chunks, n);
    FittingAtLeast(chunks, n);
    var fits := chunks[..Fitting(chunks)];
    assert fits[..n] == chunks[..n];
    StoppedStays(decode, acc, fits, n);
  }

  /** A malformed line is final, whatever follows. */
  lemma {:induction false} StoppedStays(decode: Decoder, acc: Acc, chunks: seq<seq<byte>>, n: nat)
    requires n <= |chunks| && Feed(decode, acc, Flatten(chunks[..n])).Stopped?
    ensures Feed(decode, acc, Flatten(chunks)) == Feed(decode, acc, Flatten(chunks[..n]))
  {
    if n < |chunks| {
      var front := chunks[..|chunks| - 1];
      assert front[..n] == chunks[..n];
      StoppedStays(decode, acc, front, n);
      FeedAppend(decode, acc, Flatten(front), chunks[|chunks| - 1]);
    } else {
      assert chunks[..n] == chunks;
    }
  }
}
