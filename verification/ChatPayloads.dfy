/** Payloads as decoded. */
module ChatPayloads {
  import opened Basics
  import opened Segments
  import opened ChatStream
  import opened ChatBody
  import ChatEvents

  // ---------- Data lines, by their bytes ----------

  /** The data of a line that begins with `data:`, less one space; the end marker carries none. */
  function DataOf(line: seq<byte>): Option<seq<byte>> {
    if |line| < 5 || line[..5] != [100, 97, 116, 97, 58] then None
    else
      var data := if |line| > 5 && line[5] == 32 then line[6..] else line[5..];
      if data == [91, 68, 79, 78, 69, 93] then None else Some(data)
  }

  lemma {:induction false} DataExactly(line: seq<byte>, data: seq<byte>)
    ensures DataOf(line) == Some(data) <==>
              && data != [91, 68, 79, 78, 69, 93]
              && (|| line == [100, 97, 116, 97, 58, 32] + data
                  || (line == [100, 97, 116, 97, 58] + data && !(data != [] && data[0] == 32)))
  {
    if line == [100, 97, 116, 97, 58, 32] + data {
      assert line[..5] == [100, 97, 116, 97, 58] && line[5] == 32 && line[6..] == data;
    }
    if line == [100, 97, 116, 97, 58] + data {
      assert line[..5] == [100, 97, 116, 97, 58] && line[5..] == data;
    }
    if |line| >= 5 && line[..5] == [100, 97, 116, 97, 58] {
      assert line == line[..5] + line[5..];
      if |line| > 5 && line[5] == 32 {
        assert line == line[..5] + [32] + line[6..];
      }
    }
  }

  /** A line loses exactly its trailing newlines and carriage returns. */
  lemma {:induction false} TrimExactly(line: seq<byte>)
    ensures Trim(line) <= line
    ensures forall i :: |Trim(line)| <= i < |line| ==> line[i] == 10 || line[i] == 13
    ensures Trim(line) != [] ==> Last(Trim(line)) != 10 && Last(Trim(line)) != 13
  {
    if line != [] && (line[|line| - 1] == NEWLINE || line[|line| - 1] == CARRIAGE_RETURN) {
      TrimExactly(line[..|line| - 1]);
    }
  }

  function Trimmed(lines: seq<seq<byte>>): seq<seq<byte>> {
    if lines == [] then [] else Trimmed(lines[..|lines| - 1]) + [Trim(lines[|lines| - 1])]
  }

  /** The lines of a body: those that end in a newline, and what follows the last one. */
  function BodyLines(body: seq<byte>): seq<seq<byte>> {
    Trimmed(ChatEvents.Lines(body)) + if ChatEvents.Leftover(body) == [] then [] else [ChatEvents.Leftover(body)]
  }

  /** The payloads of the data lines in order, or None if one does not decode. */
  function Payloads(decode: Decoder, lines: seq<seq<byte>>): Option<seq<Payload>> {
    if lines == [] then Some([])
    else
      match (Payloads(decode, lines[..|lines| - 1]), DataOf(lines[|lines| - 1]))
      case (None, _) => None
      case (Some(ps), None) => Some(ps)
      case (Some(ps), Some(data)) => if decode(data).Some? then Some(ps + [decode(data).value]) else None
  }

  // ---------- What payloads say ----------

  function DeltaOf(p: Payload): Delta {
    if p.choice.Some? && p.choice.value.delta.Some? then p.choice.value.delta.value else Delta(None, None, [])
  }

  function Contents(ps: seq<Payload>): string {
    if ps == [] then ""
    else
      var content := DeltaOf(ps[|ps| - 1]).content;
      Contents(ps[..|ps| - 1]) + if content.Some? then content.value else ""
  }

  function Reasonings(ps: seq<Payload>): string {
    if ps == [] then ""
    else
      var reasoning := DeltaOf(ps[|ps| - 1]).reasoning;
      Reasonings(ps[..|ps| - 1]) + if reasoning.Some? then reasoning.value else ""
  }

  /** The last finish reason given. */
  function Finish(ps: seq<Payload>): Option<string> {
    if ps == [] then None
    else
      var choice := ps[|ps| - 1].choice;
      if choice.Some? && choice.value.finishReason.Some? then choice.value.finishReason else Finish(ps[..|ps| - 1])
  }

  /** The last usage given. */
  function UsageTold(ps: seq<Payload>): Usage {
    if ps == [] then Usage(None, None, None)
    else if ps[|ps| - 1].usage.Some? then ps[|ps| - 1].usage.value
    else UsageTold(ps[..|ps| - 1])
  }

  function ToolDeltas(ps: seq<Payload>): seq<ToolDelta> {
    if ps == [] then [] else ToolDeltas(ps[..|ps| - 1]) + DeltaOf(ps[|ps| - 1]).tools
  }

  function Ids(ds: seq<ToolDelta>, index: nat): string {
    if ds == [] then ""
    else
      var d := ds[|ds| - 1];
      Ids(ds[..|ds| - 1], index) + if d.index == index && d.id.Some? then d.id.value else ""
  }

  function Names(ds: seq<ToolDelta>, index: nat): string {
    if ds == [] then ""
    else
      var d := ds[|ds| - 1];
      Names(ds[..|ds| - 1], index) + if d.index == index && d.name.Some? then d.name.value else ""
  }

  function Arguments(ds: seq<ToolDelta>, index: nat): string {
    if ds == [] then ""
    else
      var d := ds[|ds| - 1];
      Arguments(ds[..|ds| - 1], index) + if d.index == index then d.arguments else ""
  }

  predicate Mentions(ds: seq<ToolDelta>, index: nat) {
    exists i :: 0 <= i < |ds| && ds[i].index == index
  }

  /** The tool of an index, if a delta mentions it: everything the deltas give it, in order. */
  function ToolTold(ds: seq<ToolDelta>, index: nat): Option<Tool> {
    if Mentions(ds, index) then Some(Tool(index, Ids(ds, index), Names(ds, index), Arguments(ds, index))) else None
  }

  /** The events a payload is worth: its content, its reasoning, and its tool deltas. */
  function KindsOf(p: Payload): seq<Kind> {
    var d := DeltaOf(p);
    (if d.content.Some? then [TextDelta(d.content.value)] else [])
    + (if d.reasoning.Some? then [ReasoningDelta(d.reasoning.value)] else [])
    + ToolKinds(d.tools)
  }

  function ToolKinds(ds: seq<ToolDelta>): seq<Kind> {
    seq(|ds|, i requires 0 <= i < |ds| => ToolCallDelta(ds[i]))
  }

  function KindsTold(ps: seq<Payload>): seq<Kind> {
    if ps == [] then [] else KindsTold(ps[..|ps| - 1]) + KindsOf(ps[|ps| - 1])
  }

  function Kinds(events: seq<Event>): seq<Kind> {
    seq(|events|, i requires 0 <= i < |events| => events[i].kind)
  }

  /** The accumulator is what the payloads so far say. */
  ghost predicate Tracks(acc: Acc, ps: seq<Payload>) {
    && acc.text == Contents(ps) && acc.reasoning == Reasonings(ps)
    && acc.finishReason == Finish(ps) && acc.usage == UsageTold(ps)
    && TracksTools(acc, ToolDeltas(ps)) && Kinds(acc.events) == KindsTold(ps)
  }

  ghost predicate TracksTools(acc: Acc, ds: seq<ToolDelta>) {
    Ascending(acc.tools) && forall index: nat :: ToolAt(acc.tools, index) == ToolTold(ds, index)
  }

  // ---------- One line ----------

  lemma {:induction false} EmitKinds(acc: Acc, kind: Kind)
    ensures Kinds(Emit(acc, kind).events) == Kinds(acc.events) + [kind]
  {
  }

  lemma {:induction false} TellOne(ds: seq<ToolDelta>, d: ToolDelta, index: nat)
    ensures ToolTold(ds + [d], index) ==
              if d.index != index then ToolTold(ds, index)
              else Some(Tool(index, Ids(ds, index) + (if d.id.Some? then d.id.value else ""),
                             Names(ds, index) + (if d.name.Some? then d.name.value else ""), Arguments(ds, index) + d.arguments))
  {
    var all := ds + [d];
    assert all[..|ds|] == ds && all[|ds|] == d;
    assert d.index == index ==> Mentions(all, index);
    if Mentions(ds, index) {
      var i :| 0 <= i < |ds| && ds[i].index == index;
      assert all[i] == ds[i];
    }
    if d.index != index {
      assert Ids(ds, index) + "" == Ids(ds, index) && Names(ds, index) + "" == Names(ds, index);
      assert Arguments(ds, index) + "" == Arguments(ds, index);
      if Mentions(all, index) {
        var i :| 0 <= i < |all| && all[i].index == index;
        assert all[i] == ds[i];
      }
    }
  }

  lemma {:induction false} Unmentioned(ds: seq<ToolDelta>, index: nat)
    requires !Mentions(ds, index)
    ensures Ids(ds, index) == "" && Names(ds, index) == "" && Arguments(ds, index) == ""
  {
    if ds != [] {
      var rest := ds[..|ds| - 1];
      assert forall i :: 0 <= i < |rest| ==> rest[i] == ds[i];
      Unmentioned(rest, index);
    }
  }

  lemma {:induction false} AddToolTracks(acc: Acc, ds: seq<ToolDelta>, d: ToolDelta)
    requires TracksTools(acc, ds)
    ensures TracksTools(AddTool(acc, d), ds + [d])
  {
    UpsertAscending(acc.tools, d);
    forall index: nat ensures ToolAt(Upsert(acc.tools, d), index) == ToolTold(ds + [d], index) {
      UpsertAt(acc.tools, d, index);
      TellOne(ds, d, index);
      if !Mentions(ds, index) {
        Unmentioned(ds, index);
      }
      assert ToolAt(acc.tools, index) == ToolTold(ds, index);
    }
  }

  lemma {:induction false} AddToolsTracks(acc: Acc, ds: seq<ToolDelta>, more: seq<ToolDelta>)
    requires TracksTools(acc, ds)
    ensures var next := AddTools(acc, more);
            && TracksTools(next, ds + more) && Kinds(next.events) == Kinds(acc.events) + ToolKinds(more)
            && next.text == acc.text && next.reasoning == acc.reasoning
            && next.finishReason == acc.finishReason && next.usage == acc.usage
    decreases |more|
  {
    if more == [] {
      assert ds + more == ds;
    } else {
      var d, rest := more[0], more[1..];
      AddToolTracks(acc, ds, d);
      EmitKinds(acc.(tools := Upsert(acc.tools, d)), ToolCallDelta(d));
      AddToolsTracks(AddTool(acc, d), ds + [d], rest);
      assert ds + [d] + rest == ds + more;
      assert ToolKinds(more) == [ToolCallDelta(d)] + ToolKinds(rest);
    }
  }

  lemma {:induction false} AddDeltaTracks(acc: Acc, ds: seq<ToolDelta>, d: Delta)
    requires TracksTools(acc, ds)
    ensures var next := AddDelta(acc, d);
            && TracksTools(next, ds + d.tools)
            && Kinds(next.events) == Kinds(acc.events)
                 + ((if d.content.Some? then [TextDelta(d.content.value)] else [])
                    + (if d.reasoning.Some? then [ReasoningDelta(d.reasoning.value)] else []) + ToolKinds(d.tools))
            && next.text == acc.text + (if d.content.Some? then d.content.value else "")
            && next.reasoning == acc.reasoning + (if d.reasoning.Some? then d.reasoning.value else "")
            && next.finishReason == acc.finishReason && next.usage == acc.usage
  {
    var told := AddText(acc, d.content);
    if d.content.Some? {
      EmitKinds(acc.(text := acc.text + d.content.value), TextDelta(d.content.value));
    }
    var thought := AddReasoning(told, d.reasoning);
    if d.reasoning.Some? {
      EmitKinds(told.(reasoning := told.reasoning + d.reasoning.value), ReasoningDelta(d.reasoning.value));
    }
    AddToolsTracks(thought, ds, d.tools);
  }

  lemma {:induction false} OnePayload(ps: seq<Payload>, p: Payload)
    ensures var all := ps + [p];
            && Contents(all) == Contents(ps) + (if DeltaOf(p).content.Some? then DeltaOf(p).content.value else "")
            && Reasonings(all) == Reasonings(ps) + (if DeltaOf(p).reasoning.Some? then DeltaOf(p).reasoning.value else "")
            && Finish(all) == (if p.choice.Some? && p.choice.value.finishReason.Some? then p.choice.value.finishReason else Finish(ps))
            && UsageTold(all) == (if p.usage.Some? then p.usage.value else UsageTold(ps))
            && ToolDeltas(all) == ToolDeltas(ps) + DeltaOf(p).tools && KindsTold(all) == KindsTold(ps) + KindsOf(p)
  {
    assert (ps + [p])[..|ps|] == ps;
  }

  /** A decoded payload has on the accumulator exactly the effect it spells out. */
  lemma {:induction false} AbsorbTracks(acc: Acc, ps: seq<Payload>, p: Payload)
    requires Tracks(acc, ps)
    ensures Tracks(Absorb(acc, p), ps + [p])
  {
    OnePayload(ps, p);
    var counted := SetUsage(acc, p.usage);
    if p.choice.Some? && p.choice.value.delta.Some? {
      AddDeltaTracks(SetFinish(counted, p.choice.value.finishReason), ToolDeltas(ps), p.choice.value.delta.value);
    } else {
      assert ToolDeltas(ps) + [] == ToolDeltas(ps) && KindsOf(p) == [];
    }
  }

  lemma {:induction false} LineDataOf(line: seq<byte>)
    ensures LineData(line) == DataOf(line)
  {
    if |line| >= 5 {
      assert DATA <= line <==> line[..5] == DATA;
      if |line| > 5 {
        assert line[5..][1..] == line[6..] && line[5..][0] == line[5];
      }
    }
  }

  // ---------- A body ----------

  lemma {:induction false} OneLine(decode: Decoder, lines: seq<seq<byte>>, line: seq<byte>)
    ensures Payloads(decode, lines + [line]) ==
              match (Payloads(decode, lines), DataOf(line))
              case (None, _) => None
              case (Some(ps), None) => Some(ps)
              case (Some(ps), Some(data)) => if decode(data).Some? then Some(ps + [decode(data).value]) else None
  {
    assert (lines + [line])[..|lines|] == lines;
  }

  lemma {:induction false} HandleTracks(decode: Decoder, acc: Acc, ps: seq<Payload>, line: seq<byte>)
    requires Tracks(acc, ps)
    ensures match DataOf(line)
            case None => Handle(decode, acc, line) == Some(acc)
            case Some(data) =>
              if decode(data).None? then Handle(decode, acc, line) == None
              else Handle(decode, acc, line).Some? && Tracks(Handle(decode, acc, line).value, ps + [decode(data).value])
  {
    LineDataOf(line);
    if DataOf(line).Some? && decode(DataOf(line).value).Some? {
      AbsorbTracks(acc, ps, decode(DataOf(line).value).value);
    }
  }

  lemma {:induction false} FoldTracks(decode: Decoder, start: nat, lines: seq<seq<byte>>)
    ensures match Payloads(decode, Trimmed(lines))
            case None => ChatEvents.Fold(decode, Initial(start), lines).Malformed?
            case Some(ps) =>
              var f := ChatEvents.Fold(decode, Initial(start), lines);
              f.Folded? && Tracks(f.acc, ps)
  {
    if lines != [] {
      var before, line := lines[..|lines| - 1], lines[|lines| - 1];
      FoldTracks(decode, start, before);
      OneLine(decode, Trimmed(before), Trim(line));
      if Payloads(decode, Trimmed(before)).Some? {
        var acc := ChatEvents.Fold(decode, Initial(start), before).acc;
        HandleTracks(decode, acc, Payloads(decode, Trimmed(before)).value, Trim(line));
      }
    } else {
      var none: seq<Event> := [];
      assert Kinds(none) == [];
    }
  }

  // ---------- The completion ----------

  /** The decimal number that digits stand for. */
  function Decimal(text: string): int {
    if text == "" then 0 else Decimal(text[..|text| - 1]) * 10 + (text[|text| - 1] as int - '0' as int)
  }

  lemma {:induction false} DigitsAreDecimal(n: nat)
    ensures Decimal(Digits(n)) == n && Digits(n) != "" && (n > 0 ==> Digits(n)[0] != '0')
    ensures forall i :: 0 <= i < |Digits(n)| ==> '0' <= Digits(n)[i] <= '9'
  {
    if n < 10 {
      assert Digits(n)[..0] == "";
    } else {
      DigitsAreDecimal(n / 10);
      assert Digits(n)[..|Digits(n)| - 1] == Digits(n / 10);
    }
  }

  /** The announced call of a tool; without an id it is named after its index. */
  ghost predicate Calls(parse: ArgumentParser, tool: Tool, call: ToolCall) {
    && call.id == (if tool.id == "" then "tool-" + Digits(tool.index) else tool.id)
    && call.name == tool.name && parse(tool.arguments) == Some(call.arguments)
  }

  ghost predicate AllCalls(parse: ArgumentParser, tools: seq<Tool>, calls: seq<ToolCall>) {
    |calls| == |tools| && forall i :: 0 <= i < |tools| ==> Calls(parse, tools[i], calls[i])
  }

  ghost predicate AllParse(parse: ArgumentParser, tools: seq<Tool>) {
    forall i :: 0 <= i < |tools| ==> parse(tools[i].arguments).Some?
  }

  /** A completion that announces the calls of some tools behind those announced already. */
  ghost predicate Announces(
    parse: ArgumentParser, acc: Acc, tools: seq<Tool>, calls: seq<ToolCall>, c: Completion, events: seq<Event>)
  {
    && c.text == acc.text && c.reasoning == (if acc.reasoning == "" then None else Some(acc.reasoning))
    && c.finishReason == acc.finishReason && c.usage == acc.usage
    && |calls| <= |c.toolCalls| && c.toolCalls[..|calls|] == calls
    && AllCalls(parse, tools, c.toolCalls[|calls|..])
    && Kinds(events) == Kinds(acc.events) + CallKinds(c.toolCalls[|calls|..]) + [Completed(c.finishReason, c.usage)]
  }

  ghost predicate EndsAs(parse: ArgumentParser, acc: Acc, tools: seq<Tool>, calls: seq<ToolCall>, e: Ended) {
    && (e.result.Ok? <==> AllParse(parse, tools))
    && (e.result.Err? ==> e.result == Err(MalformedResponse))
    && (e.result.Ok? ==> Announces(parse, acc, tools, calls, e.result.value, e.events))
  }

  lemma {:induction false} CompleteExactly(parse: ArgumentParser, acc: Acc, tools: seq<Tool>, calls: seq<ToolCall>)
    ensures EndsAs(parse, acc, tools, calls, Complete(parse, acc, tools, calls))
    decreases |tools|
  {
    if tools == [] {
      EmitKinds(acc, Completed(acc.finishReason, acc.usage));
      assert calls[|calls|..] == [] && calls[..|calls|] == calls && CallKinds([]) == [];
    } else if parse(tools[0].arguments).Some? {
      var call := CallOf(tools[0], parse(tools[0].arguments).value);
      var next, e := Emit(acc, ToolCalled(call)), Complete(parse, acc, tools, calls);
      CompleteExactly(parse, next, tools[1..], calls + [call]);
      EmitKinds(acc, ToolCalled(call));
      CompleteNext(parse, acc, next, tools, calls, call, e);
    }
  }

  function CallKinds(calls: seq<ToolCall>): seq<Kind> {
    seq(|calls|, i requires 0 <= i < |calls| => ToolCalled(calls[i]))
  }

  /** One call more has been announced. */
  lemma {:induction false} CompleteNext(
    parse: ArgumentParser, acc: Acc, next: Acc, tools: seq<Tool>, calls: seq<ToolCall>, call: ToolCall, e: Ended)
    requires tools != [] && Calls(parse, tools[0], call)
    requires next == acc.(sequence := next.sequence, events := next.events)
    requires Kinds(next.events) == Kinds(acc.events) + [ToolCalled(call)]
    requires EndsAs(parse, next, tools[1..], calls + [call], e)
    ensures EndsAs(parse, acc, tools, calls, e)
  {
    ParseCons(parse, tools);
    if e.result.Ok? {
      NextAnnounces(parse, acc, next, tools, calls, call, e.result.value, e.events);
    }
  }

  lemma {:induction false} NextAnnounces(
    parse: ArgumentParser, acc: Acc, next: Acc, tools: seq<Tool>, calls: seq<ToolCall>, call: ToolCall,
    c: Completion, events: seq<Event>)
    requires tools != [] && Calls(parse, tools[0], call)
    requires next == acc.(sequence := next.sequence, events := next.events)
    requires Kinds(next.events) == Kinds(acc.events) + [ToolCalled(call)]
    requires Announces(parse, next, tools[1..], calls + [call], c, events)
    ensures Announces(parse, acc, tools, calls, c, events)
  {
    var told := c.toolCalls;
    var mine, after := told[|calls|..], told[|calls + [call]|..];
    OneAnnounced(told, calls, call);
    AllCallsCons(parse, tools, call, after);
    CallKindsCons(Kinds(acc.events), call, after, [Completed(c.finishReason, c.usage)]);
  }

  lemma {:induction false} CallKindsCons(before: seq<Kind>, call: ToolCall, calls: seq<ToolCall>, after: seq<Kind>)
    ensures before + [ToolCalled(call)] + CallKinds(calls) + after == before + CallKinds([call] + calls) + after
  {
    assert CallKinds([call] + calls) == [ToolCalled(call)] + CallKinds(calls);
  }

  lemma {:induction false} ParseCons(parse: ArgumentParser, tools: seq<Tool>)
    requires tools != []
    ensures AllParse(parse, tools) <==> parse(tools[0].arguments).Some? && AllParse(parse, tools[1..])
  {
    var rest := tools[1..];
    if AllParse(parse, tools) {
      forall i | 0 <= i < |rest| ensures parse(rest[i].arguments).Some? {
        assert parse(tools[i + 1].arguments).Some?;
      }
    }
    if parse(tools[0].arguments).Some? && AllParse(parse, rest) {
      forall i | 0 <= i < |tools| ensures parse(tools[i].arguments).Some? {
        assert i > 0 ==> parse(rest[i - 1].arguments).Some?;
      }
    }
  }

  lemma {:induction false} OneAnnounced(told: seq<ToolCall>, calls: seq<ToolCall>, call: ToolCall)
    requires |calls + [call]| <= |told| && told[..|calls + [call]|] == calls + [call]
    ensures told[..|calls|] == calls && told[|calls|..] == [call] + told[|calls + [call]|..]
  {
    assert told[..|calls|] == told[..|calls + [call]|][..|calls|];
    assert told[|calls|] == told[..|calls + [call]|][|calls|];
  }

  lemma {:induction false} AllCallsCons(parse: ArgumentParser, tools: seq<Tool>, call: ToolCall, after: seq<ToolCall>)
    requires tools != [] && Calls(parse, tools[0], call) && AllCalls(parse, tools[1..], after)
    ensures AllCalls(parse, tools, [call] + after)
  {
    forall i | 0 <= i < |tools| ensures Calls(parse, tools[i], ([call] + after)[i]) {
      if i > 0 {
        assert Calls(parse, tools[1..][i - 1], after[i - 1]);
      }
    }
  }

  /** The completion of a body is what its payloads say. */
  ghost predicate Says(parse: ArgumentParser, ps: seq<Payload>, c: Completion, events: seq<Event>) {
    && c.text == Contents(ps)
    && c.reasoning == (if Reasonings(ps) == "" then None else Some(Reasonings(ps)))
    && c.finishReason == Finish(ps) && c.usage == UsageTold(ps)
    && Kinds(events) == KindsTold(ps) + CallKinds(c.toolCalls) + [Completed(Finish(ps), UsageTold(ps))]
    && exists tools: seq<Tool> ::
         && Ascending(tools) && (forall index: nat :: ToolAt(tools, index) == ToolTold(ToolDeltas(ps), index))
         && AllCalls(parse, tools, c.toolCalls)
  }

  /** The arguments of every tool that a delta mentions parse. */
  ghost predicate ArgumentsParse(parse: ArgumentParser, ds: seq<ToolDelta>) {
    forall index: nat :: Mentions(ds, index) ==> parse(Arguments(ds, index)).Some?
  }

  lemma {:induction false} FinishSays(parse: ArgumentParser, acc: Acc, ps: seq<Payload>)
    requires Tracks(acc, ps)
    ensures var e := Complete(parse, acc, acc.tools, []);
            && (e.result.Ok? ==> Says(parse, ps, e.result.value, e.events))
            && (e.result.Err? ==> e.result == Err(MalformedResponse))
            && (e.result.Ok? <==> ArgumentsParse(parse, ToolDeltas(ps)))
  {
    var none: seq<ToolCall> := [];
    var e := Complete(parse, acc, acc.tools, none);
    CompleteExactly(parse, acc, acc.tools, none);
    if e.result.Ok? {
      var told := e.result.value.toolCalls;
      assert told[|none|..] == told;
      assert AllCalls(parse, acc.tools, told);
      assert Ascending(acc.tools) && forall index: nat :: ToolAt(acc.tools, index) == ToolTold(ToolDeltas(ps), index);
      assert Kinds(e.events) == KindsTold(ps) + CallKinds(told) + [Completed(Finish(ps), UsageTold(ps))];
    }
    ParsedByIndex(parse, acc, ToolDeltas(ps));
  }

  lemma {:induction false} ParsedByIndex(parse: ArgumentParser, acc: Acc, ds: seq<ToolDelta>)
    requires TracksTools(acc, ds)
    ensures AllParse(parse, acc.tools) <==> ArgumentsParse(parse, ds)
  {
    if AllParse(parse, acc.tools) {
      forall index: nat | Mentions(ds, index) ensures parse(Arguments(ds, index)).Some? {
        assert ToolAt(acc.tools, index) == ToolTold(ds, index);
        var i := PlaceOf(acc.tools, index);
      }
    }
    if ArgumentsParse(parse, ds) {
      forall i | 0 <= i < |acc.tools| ensures parse(acc.tools[i].arguments).Some? {
        AtPlace(acc.tools, i);
        assert ToolAt(acc.tools, acc.tools[i].index) == ToolTold(ds, acc.tools[i].index);
      }
    }
  }

  lemma {:induction false} PlaceOf(tools: seq<Tool>, index: nat) returns (i: nat)
    requires ToolAt(tools, index).Some?
    ensures i < |tools| && tools[i] == ToolAt(tools, index).value
  {
    if tools[0].index == index {
      i := 0;
    } else {
      i := PlaceOf(tools[1..], index);
      i := i + 1;
    }
  }

  lemma {:induction false} AtPlace(tools: seq<Tool>, i: nat)
    requires Ascending(tools) && i < |tools|
    ensures ToolAt(tools, tools[i].index) == Some(tools[i]) && tools[0].index <= tools[i].index
    ensures i > 0 ==> tools[0].index < tools[i].index
  {
    if i > 0 {
      AtPlace(tools[1..], i - 1);
    }
  }

  /** For every body that arrives whole: it is malformed exactly if a data line does not decode or some
      tool's arguments do not parse; otherwise the completion and the events are what its payloads say. */
  lemma {:induction false} CompletionIsDecoded(decode: Decoder, parse: ArgumentParser, start: nat, body: seq<byte>)
    ensures var e := Outcome(decode, parse, start, body, None);
            match Payloads(decode, BodyLines(body))
            case None => e.result == Err(MalformedResponse)
            case Some(ps) =>
              && (e.result.Ok? ==> Says(parse, ps, e.result.value, e.events))
              && (e.result.Err? ==> e.result == Err(MalformedResponse))
              && (e.result.Ok? <==> ArgumentsParse(parse, ToolDeltas(ps)))
  {
    var lines, last := ChatEvents.Lines(body), ChatEvents.Leftover(body);
    ChatEvents.FeedIsFold(decode, Initial(start), body);
    FoldTracks(decode, start, lines);
    var told := Payloads(decode, Trimmed(lines));
    if last == [] {
      assert BodyLines(body) == Trimmed(lines);
    } else {
      OneLine(decode, Trimmed(lines), last);
    }
    if told.Some? {
      var acc := ChatEvents.Fold(decode, Initial(start), lines).acc;
      if last == [] {
        FinishSays(parse, acc, told.value);
      } else {
        HandleTracks(decode, acc, told.value, last);
        if Handle(decode, acc, last).Some? {
          FinishSays(parse, Handle(decode, acc, last).value, Payloads(decode, BodyLines(body)).value);
        }
      }
    }
  }

  /** A body that breaks off fails with what broke it off, unless a line before that does not decode; its
      events are those of the payloads up to there. */
  lemma {:induction false} BrokenIsDecoded(
    decode: Decoder, parse: ArgumentParser, start: nat, body: seq<byte>, failure: Failure)
    ensures var e := Outcome(decode, parse, start, body, Some(failure));
            match Payloads(decode, Trimmed(ChatEvents.Lines(body)))
            case None => e.result == Err(MalformedResponse)
            case Some(ps) => e.result == Err(failure) && Kinds(e.events) == KindsTold(ps)
  {
    ChatEvents.FeedIsFold(decode, Initial(start), body);
    FoldTracks(decode, start, ChatEvents.Lines(body));
  }
}
