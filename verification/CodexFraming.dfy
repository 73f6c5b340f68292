/** Framing of the App Server's stdout into lines and diagnostics. */
module CodexFraming {
  import opened Basics
  import opened Segments

  const MAX_JSON_LINE_BYTES: nat := 16 * 1024

  /** What the dispatcher does about one line: hands it on, or reports that it was too long. */
  datatype Output = Frame(bytes: seq<byte>) | Oversized

  function LineOutput(line: seq<byte>): Output {
    if |line| <= MAX_JSON_LINE_BYTES then Frame(line) else Oversized
  }

  function LineOutputs(lines: seq<seq<byte>>): (outputs: seq<Output>) {
    seq(|lines|, i requires 0 <= i < |lines| => LineOutput(lines[i]))
  }

  lemma {:induction false} LineOutputsSnoc(lines: seq<seq<byte>>, line: seq<byte>)
    ensures LineOutputs(lines + [line]) == LineOutputs(lines) + [LineOutput(line)]
  {
  }

  /** Reference reading of a whole stream: split it at newlines, answer each terminated
      line, and answer the unterminated tail only once it is already too long. */
  function Expected(stream: seq<byte>): seq<Output> {
    var lines := Split(stream, NEWLINE);
    var last := |lines| - 1;
    LineOutputs(lines[..last]) + TailOutputs(lines[last])
  }

  function TailOutputs(tail: seq<byte>): seq<Output> {
    if |tail| <= MAX_JSON_LINE_BYTES then [] else [Oversized]
  }

  /** The dispatcher's variables: the line so far, whether it is being discarded, the outputs so far. */
  datatype Dispatcher = Dispatcher(frame: seq<byte>, discarding: bool, outputs: seq<Output>)

  function OnByte(d: Dispatcher, b: byte): Dispatcher {
    if d.discarding then d.(discarding := b != NEWLINE)
    else if b == NEWLINE then Dispatcher([], false, d.outputs + [Frame(d.frame)])
    else if |d.frame| < MAX_JSON_LINE_BYTES then d.(frame := d.frame + [b])
    else Dispatcher([], true, d.outputs + [Oversized])
  }

  function OnBytes(stream: seq<byte>): Dispatcher {
    if stream == [] then Dispatcher([], false, [])
    else OnByte(OnBytes(stream[..|stream| - 1]), stream[|stream| - 1])
  }

  /** How one byte changes the reference reading. */
  lemma {:induction false} ExpectedSnoc(stream: seq<byte>, b: byte)
    ensures var tail := Last(Split(stream, NEWLINE));
            && Last(Split(stream + [b], NEWLINE)) == (if b == NEWLINE then [] else tail + [b])
            && Expected(stream + [b]) == Expected(stream) +
                 (if b == NEWLINE then
                    if |tail| <= MAX_JSON_LINE_BYTES then [Frame(tail)] else []
                  else
                    if |tail| == MAX_JSON_LINE_BYTES then [Oversized] else [])
  {
    SplitSnoc(stream, b, NEWLINE);
    var lines := Split(stream, NEWLINE);
    var n := |lines| - 1;
    var grown := Split(stream + [b], NEWLINE);
    if b == NEWLINE {
      assert grown[..n + 1] == lines[..n] + [lines[n]];
      LineOutputsSnoc(lines[..n], lines[n]);
    } else {
      assert grown[..n] == lines[..n];
    }
  }

  ghost predicate Agrees(d: Dispatcher, tail: seq<byte>, outputs: seq<Output>) {
    && d.discarding == (|tail| > MAX_JSON_LINE_BYTES)
    && d.frame == (if d.discarding then [] else tail)
    && d.outputs == outputs
  }

  /** After any stream the dispatcher's variables are the ones the reference reading calls for. */
  lemma {:induction false} OnBytesExpected(stream: seq<byte>)
    ensures Agrees(OnBytes(stream), Last(Split(stream, NEWLINE)), Expected(stream))
  {
    if stream == [] {
      assert LineOutputs([]) == [];
    } else {
      var n := |stream| - 1;
      OnBytesExpected(stream[..n]);
      assert stream == stream[..n] + [stream[n]];
      OnByteExpected(stream[..n], OnBytes(stream[..n]), stream[n]);
    }
  }

  lemma {:induction false} OnByteExpected(stream: seq<byte>, d: Dispatcher, b: byte)
    requires Agrees(d, Last(Split(stream, NEWLINE)), Expected(stream))
    ensures Agrees(OnByte(d, b), Last(Split(stream + [b], NEWLINE)), Expected(stream + [b]))
  {
    ExpectedSnoc(stream, b);
  }

  /** The dispatcher's read loop. However the bytes are chunked, its outputs are
      the reference reading of the concatenated stream. */
  method DispatchStdout(chunks: seq<seq<byte>>) returns (outputs: seq<Output>)
    ensures outputs == Expected(Flatten(chunks))
  {
    outputs := [];
    var frame: seq<byte> := [];
    var discarding := false;
    for c := 0 to |chunks|
      invariant Dispatcher(frame, discarding, outputs) == OnBytes(Flatten(chunks[..c]))
      invariant |frame| <= MAX_JSON_LINE_BYTES
    {
      var chunk := chunks[c];
      ghost var before := Flatten(chunks[..c]);
      assert before + chunk[..0] == before;
      for i := 0 to |chunk|
        invariant Dispatcher(frame, discarding, outputs) == OnBytes(before + chunk[..i])
        invariant |frame| <= MAX_JSON_LINE_BYTES
      {
        var b := chunk[i];
        assert (before + chunk[..i + 1])[..|before| + i] == before + chunk[..i];
        if discarding {
          if b == NEWLINE {
            discarding := false;
          }
        } else if b == NEWLINE {
          outputs := outputs + [Frame(frame)];
          frame := [];
        } else {
          frame := frame + [b];
          if |frame| > MAX_JSON_LINE_BYTES {
            frame := [];
            discarding := true;
            outputs := outputs + [Oversized];
          }
        }
      }
      assert chunks[..c + 1][..c] == chunks[..c] && chunk[..|chunk|] == chunk;
    }
    assert chunks[..|chunks|] == chunks;
    OnBytesExpected(Flatten(chunks));
  }

  /** The reference reading in the reader's direction: for any newline-free lines and
      any newline-free tail, line i alone decides output i, and the tail is never a frame. */
  lemma {:induction false} ExpectedOfLines(lines: seq<seq<byte>>, tail: seq<byte>)
    requires Free(lines, NEWLINE) && NEWLINE !in tail
    ensures Expected(Terminated(lines, NEWLINE) + tail) == LineOutputs(lines) + TailOutputs(tail)
  {
    SplitLines(lines, tail);
    assert (lines + [tail])[..|lines|] == lines;
  }

  lemma {:induction false} SplitLines(lines: seq<seq<byte>>, tail: seq<byte>)
    requires Free(lines, NEWLINE) && NEWLINE !in tail
    ensures Split(Terminated(lines, NEWLINE) + tail, NEWLINE) == lines + [tail]
  {
    if lines == [] {
      SplitPiece(tail, NEWLINE);
      assert Terminated(lines, NEWLINE) + tail == tail;
    } else {
      var rest := Terminated(lines[1..], NEWLINE) + tail;
      assert Terminated(lines, NEWLINE) + tail == lines[0] + [NEWLINE] + rest;
      SplitCons(lines[0], NEWLINE, rest);
      SplitLines(lines[1..], tail);
    }
  }

  // ---------- One delivered line ----------

  /** The parts of a decoded JSON value that `process_frame` looks at. */
  datatype Json = Json(hasMethod: bool, id: Option<nat>, hasError: bool, result: Option<string>, text: string)

  datatype RpcFailure = RpcError | MalformedMessage

  datatype Delivery =
    | Ignored
    | MalformedFrame(length: nat)
    | Notification(value: Json)
    | InvalidShape(length: nat)
    | Response(id: nat, outcome: Result<string, RpcFailure>)

  function StripCarriageReturn(frame: seq<byte>): seq<byte> {
    if frame != [] && frame[|frame| - 1] == CARRIAGE_RETURN then frame[..|frame| - 1] else frame
  }

  function ParseMessage(decode: seq<byte> -> Option<Json>, bytes: seq<byte>): Option<Json> {
    if bytes == [] || |bytes| > MAX_JSON_LINE_BYTES then None else decode(bytes)
  }

  function Deliver(decode: seq<byte> -> Option<Json>, line: seq<byte>): Delivery {
    var frame := StripCarriageReturn(line);
    if frame == [] then Ignored
    else
      match ParseMessage(decode, frame)
      case None => MalformedFrame(|frame|)
      case Some(value) =>
        if value.hasMethod then Notification(value)
        else
          match value.id
          case None => InvalidShape(|frame|)
          case Some(id) =>
            if value.hasError then Response(id, Err(RpcError))
            else
              match value.result
              case None => Response(id, Err(MalformedMessage))
              case Some(result) => Response(id, Ok(result))
  }

  /** A frame the dispatcher handed on never meets the length guard: whether it is
      reported as malformed is decided by the JSON decoder alone. */
  lemma {:induction false} DeliveredFramesFit(decode: seq<byte> -> Option<Json>, stream: seq<byte>, i: nat)
    requires i < |Expected(stream)| && Expected(stream)[i].Frame?
    ensures var line := Expected(stream)[i].bytes;
            && 10 !in line && |line| <= 16384
            && (Deliver(decode, line).MalformedFrame? <==>
                  StripCarriageReturn(line) != [] && decode(StripCarriageReturn(line)) == None)
  {
    FramesAreLines(stream, i);
    MalformedExactly(decode, Expected(stream)[i].bytes);
  }

  lemma {:induction false} FramesAreLines(stream: seq<byte>, i: nat)
    requires i < |Expected(stream)| && Expected(stream)[i].Frame?
    ensures NEWLINE !in Expected(stream)[i].bytes && |Expected(stream)[i].bytes| <= MAX_JSON_LINE_BYTES
  {
    JoinSplit(stream, NEWLINE);
    var lines := Split(stream, NEWLINE);
    var last := |lines| - 1;
    var outputs, rest := LineOutputs(lines[..last]), TailOutputs(lines[last]);
    assert Expected(stream) == outputs + rest;
    assert |outputs| == last && i < last && outputs[i] == LineOutput(lines[i]);
  }

  lemma {:induction false} MalformedExactly(decode: seq<byte> -> Option<Json>, line: seq<byte>)
    requires |line| <= MAX_JSON_LINE_BYTES
    ensures Deliver(decode, line).MalformedFrame? <==>
              StripCarriageReturn(line) != [] && decode(StripCarriageReturn(line)) == None
  {
  }

  /** What a line within the limit is taken for, said of the JSON value it holds: a response succeeds exactly
      if the value has an id and a result and neither a method nor an error. */
  lemma {:induction false} DeliverExactly(decode: seq<byte> -> Option<Json>, line: seq<byte>, frame: seq<byte>)
    requires |line| <= 16384
    requires line == frame + [13] || (line == frame && (frame == [] || frame[|frame| - 1] != 13))
    ensures Deliver(decode, line) == Ignored <==> frame == []
    ensures frame != [] ==> (Deliver(decode, line) == MalformedFrame(|frame|) <==> decode(frame) == None)
    ensures frame != [] ==> forall v :: decode(frame) == Some(v) ==>
              && (Deliver(decode, line) == Notification(v) <==> v.hasMethod)
              && (Deliver(decode, line) == InvalidShape(|frame|) <==> !v.hasMethod && v.id == None)
              && (forall id: nat, x :: Deliver(decode, line) == Response(id, Ok(x)) <==>
                    !v.hasMethod && v.id == Some(id) && !v.hasError && v.result == Some(x))
              && (forall id: nat :: Deliver(decode, line) == Response(id, Err(RpcError)) <==>
                    !v.hasMethod && v.id == Some(id) && v.hasError)
              && (forall id: nat :: Deliver(decode, line) == Response(id, Err(MalformedMessage)) <==>
                    !v.hasMethod && v.id == Some(id) && !v.hasError && v.result == None)
  {
    if line == frame + [13] {
      assert line[..|line| - 1] == frame;
    }
  }

  /** A line that the child writes (at most the limit, no newline inside) is framed as itself, whatever complete
      lines came before. */
  lemma {:induction false} WrittenLineIsDelivered(before: seq<byte>, message: seq<byte>)
    requires 10 !in message && |message| <= 16384
    requires before == [] || before[|before| - 1] == 10
    ensures Expected(before + message + [10]) == Expected(before) + [Frame(message)]
  {
    var lines: seq<seq<byte>> := [];
    if before != [] {
      SplitTerminated(before, NEWLINE);
      lines := Split<byte>(before[..|before| - 1], NEWLINE);
    }
    OneMoreLine(lines, message);
    assert before + message + [NEWLINE] == before + (message + [NEWLINE]);
  }

  lemma {:induction false} OneMoreLine(lines: seq<seq<byte>>, message: seq<byte>)
    requires Free(lines, NEWLINE) && NEWLINE !in message && |message| <= MAX_JSON_LINE_BYTES
    ensures var before := Terminated(lines, NEWLINE);
            Expected(before + (message + [NEWLINE])) == Expected(before) + [Frame(message)]
  {
    var line := message + [NEWLINE];
    TerminatedAppend(lines, [message], NEWLINE);
    assert Terminated([message], NEWLINE) == line;
    ExpectedOfTerminated(lines);
    ExpectedOfTerminated(lines + [message]);
    LineOutputsSnoc(lines, message);
  }

  lemma {:induction false} ExpectedOfTerminated(lines: seq<seq<byte>>)
    requires Free(lines, NEWLINE)
    ensures Expected(Terminated(lines, NEWLINE)) == LineOutputs(lines)
  {
    var whole, none := Terminated(lines, NEWLINE), [];
    ExpectedOfLines(lines, none);
    assert whole + none == whole;
  }
}
