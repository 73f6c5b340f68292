/** The streaming decoder, line by line. */
module ChatStream {
  import opened Basics

  const DATA: seq<byte> := [100, 97, 116, 97, 58]
  const DONE: seq<byte> := [91, 68, 79, 78, 69, 93]
  const COMMENT: byte := 58

  // ---------- Payloads and events ----------

  datatype Usage = Usage(input: Option<nat>, output: Option<nat>, total: Option<nat>)

  datatype ToolDelta = ToolDelta(index: nat, id: Option<string>, name: Option<string>, arguments: string)

  /** The tools list is empty if the message has none. */
  datatype Delta = Delta(content: Option<string>, reasoning: Option<string>, tools: seq<ToolDelta>)

  datatype Choice = Choice(finishReason: Option<string>, delta: Option<Delta>)

  /** The parts of a decoded message that the handler reads. */
  datatype Payload = Payload(usage: Option<Usage>, choice: Option<Choice>)

  /** JSON decoding of a message. */
  type Decoder = seq<byte> -> Option<Payload>

  datatype Json = Json(text: string)

  /** JSON parsing of a tool's arguments. */
  type ArgumentParser = string -> Option<Json>

  datatype Tool = Tool(index: nat, id: string, name: string, arguments: string)

  datatype ToolCall = ToolCall(id: string, name: string, arguments: Json)

  datatype Kind =
    | Started
    | RateLimits
    | TextDelta(text: string)
    | ReasoningDelta(text: string)
    | ToolCallDelta(delta: ToolDelta)
    | ToolCalled(call: ToolCall)
    | Completed(finishReason: Option<string>, usage: Usage)

  datatype Event = Event(sequence: nat, kind: Kind)

  /** Everything the handler changes; `events` is what the sink has been given. Tools are kept in
      ascending order of index. */
  datatype Acc = Acc(
    text: string,
    reasoning: string,
    tools: seq<Tool>,
    finishReason: Option<string>,
    usage: Usage,
    sequence: nat,
    events: seq<Event>)

  function Initial(sequence: nat): Acc {
    Acc("", "", [], None, Usage(None, None, None), sequence, [])
  }

  // ---------- One line ----------

  function Emit(acc: Acc, kind: Kind): Acc {
    acc.(sequence := acc.sequence + 1, events := acc.events + [Event(acc.sequence + 1, kind)])
  }

  function Text(o: Option<string>): string {
    if o.Some? then o.value else ""
  }

  function AddText(acc: Acc, text: Option<string>): Acc {
    if text.Some? then Emit(acc.(text := acc.text + text.value), TextDelta(text.value)) else acc
  }

  function AddReasoning(acc: Acc, text: Option<string>): Acc {
    if text.Some? then Emit(acc.(reasoning := acc.reasoning + text.value), ReasoningDelta(text.value)) else acc
  }

  function Extended(tool: Tool, d: ToolDelta): Tool {
    Tool(tool.index, tool.id + Text(d.id), tool.name + Text(d.name), tool.arguments + d.arguments)
  }

  /** The entry of the delta's index, created in its place if need be, with the delta appended. */
  function Upsert(tools: seq<Tool>, d: ToolDelta): seq<Tool> {
    if tools == [] || d.index < tools[0].index then [Extended(Tool(d.index, "", "", ""), d)] + tools
    else if tools[0].index == d.index then [Extended(tools[0], d)] + tools[1..]
    else [tools[0]] + Upsert(tools[1..], d)
  }

  function AddTool(acc: Acc, d: ToolDelta): Acc {
    Emit(acc.(tools := Upsert(acc.tools, d)), ToolCallDelta(d))
  }

  function AddTools(acc: Acc, deltas: seq<ToolDelta>): Acc
    decreases deltas
  {
    if deltas == [] then acc else AddTools(AddTool(acc, deltas[0]), deltas[1..])
  }

  function SetUsage(acc: Acc, usage: Option<Usage>): Acc {
    if usage.Some? then acc.(usage := usage.value) else acc
  }

  function SetFinish(acc: Acc, reason: Option<string>): Acc {
    if reason.Some? then acc.(finishReason := reason) else acc
  }

  function AddDelta(acc: Acc, d: Delta): Acc {
    AddTools(AddReasoning(AddText(acc, d.content), d.reasoning), d.tools)
  }

  function Absorb(acc: Acc, p: Payload): Acc {
    var counted := SetUsage(acc, p.usage);
    if p.choice.None? then counted
    else
      var finished := SetFinish(counted, p.choice.value.finishReason);
      if p.choice.value.delta.None? then finished else AddDelta(finished, p.choice.value.delta.value)
  }

  /** The data of a line, if it is a data line other than the end marker. */
  function LineData(line: seq<byte>): Option<seq<byte>> {
    if line == [] || line[0] == COMMENT || !(DATA <= line) then None
    else
      var rest := line[|DATA|..];
      var data := if rest != [] && rest[0] == SPACE then rest[1..] else rest;
      if data == DONE then None else Some(data)
  }

  /** The accumulator after a line; None if the line's data does not decode. */
  function Handle(decode: Decoder, acc: Acc, line: seq<byte>): Option<Acc> {
    match LineData(line)
    case None => Some(acc)
    case Some(data) =>
      match decode(data)
      case None => None
      case Some(p) => Some(Absorb(acc, p))
  }

  // ---------- What the accumulator says about the events ----------

  function TextOf(events: seq<Event>): string {
    if events == [] then ""
    else
      var k := events[|events| - 1].kind;
      TextOf(events[..|events| - 1]) + if k.TextDelta? then k.text else ""
  }

  function ReasoningOf(events: seq<Event>): string {
    if events == [] then ""
    else
      var k := events[|events| - 1].kind;
      ReasoningOf(events[..|events| - 1]) + if k.ReasoningDelta? then k.text else ""
  }

  /** The tool of an index as its deltas, in order, describe it. */
  function ToolOf(events: seq<Event>, index: nat): Option<Tool> {
    if events == [] then None
    else
      var rest := ToolOf(events[..|events| - 1], index);
      var k := events[|events| - 1].kind;
      if k.ToolCallDelta? && k.delta.index == index
      then Some(Extended(if rest.Some? then rest.value else Tool(index, "", "", ""), k.delta))
      else rest
  }

  function ToolAt(tools: seq<Tool>, index: nat): Option<Tool> {
    if tools == [] then None
    else if tools[0].index == index then Some(tools[0])
    else ToolAt(tools[1..], index)
  }

  predicate Ascending(tools: seq<Tool>) {
    |tools| <= 1 || (tools[0].index < tools[1].index && Ascending(tools[1..]))
  }

  /** Consecutive numbers from `first`. */
  predicate Numbered(events: seq<Event>, first: nat) {
    events == []
    || (Numbered(events[..|events| - 1], first) && events[|events| - 1].sequence == first + |events| - 1)
  }

  /** The accumulator is what its events say, tool by tool, and the events are numbered without gaps. */
  ghost predicate Faithful(acc: Acc, base: nat) {
    && acc.text == TextOf(acc.events)
    && acc.reasoning == ReasoningOf(acc.events)
    && Ascending(acc.tools)
    && (forall index :: ToolAt(acc.tools, index) == ToolOf(acc.events, index))
    && acc.sequence == base + |acc.events|
    && Numbered(acc.events, base + 1)
  }

  lemma {:induction false} NotBefore(tools: seq<Tool>, index: nat)
    requires Ascending(tools) && tools != [] && index < tools[0].index
    ensures ToolAt(tools, index).None?
  {
    if |tools| > 1 {
      NotBefore(tools[1..], index);
    }
  }

  lemma {:induction false} UpsertAt(tools: seq<Tool>, d: ToolDelta, index: nat)
    requires Ascending(tools)
    ensures ToolAt(Upsert(tools, d), index) ==
              if index != d.index then ToolAt(tools, index)
              else Some(Extended(if ToolAt(tools, index).Some? then ToolAt(tools, index).value else Tool(index, "", "", ""), d))
  {
    if tools == [] || d.index < tools[0].index {
      if tools != [] {
        NotBefore(tools, d.index);
      }
      assert Upsert(tools, d)[1..] == tools;
    } else if tools[0].index != d.index {
      UpsertAt(tools[1..], d, index);
      assert Upsert(tools, d)[1..] == Upsert(tools[1..], d);
    } else {
      assert Upsert(tools, d)[1..] == tools[1..];
    }
  }

  lemma {:induction false} UpsertAscending(tools: seq<Tool>, d: ToolDelta)
    requires Ascending(tools)
    ensures Ascending(Upsert(tools, d)) && Upsert(tools, d) != []
    ensures Upsert(tools, d)[0].index == d.index || (tools != [] && Upsert(tools, d)[0].index == tools[0].index)
  {
    if tools == [] || d.index < tools[0].index {
      assert Upsert(tools, d)[1..] == tools;
    } else if tools[0].index != d.index {
      UpsertAscending(tools[1..], d);
      assert Upsert(tools, d)[1..] == Upsert(tools[1..], d);
    } else {
      assert Upsert(tools, d)[1..] == tools[1..];
    }
  }

  lemma {:induction false} EventSnoc(events: seq<Event>, e: Event, index: nat)
    ensures TextOf(events + [e]) == TextOf(events) + if e.kind.TextDelta? then e.kind.text else ""
    ensures ReasoningOf(events + [e]) == ReasoningOf(events) + if e.kind.ReasoningDelta? then e.kind.text else ""
    ensures ToolOf(events + [e], index) ==
              if e.kind.ToolCallDelta? && e.kind.delta.index == index
              then Some(Extended(if ToolOf(events, index).Some? then ToolOf(events, index).value else Tool(index, "", "", ""),
                                 e.kind.delta))
              else ToolOf(events, index)
  {
    assert (events + [e])[..|events|] == events;
  }

  lemma {:induction false} NumberedSnoc(events: seq<Event>, e: Event, first: nat)
    ensures Numbered(events + [e], first) <==> Numbered(events, first) && e.sequence == first + |events|
  {
    assert (events + [e])[..|events|] == events;
  }

  lemma {:induction false} AddTextFaithful(acc: Acc, text: Option<string>, base: nat)
    requires Faithful(acc, base)
    ensures Faithful(AddText(acc, text), base)
  {
    if text.Some? {
      var e := Event(acc.sequence + 1, TextDelta(text.value));
      NumberedSnoc(acc.events, e, base + 1);
      forall index ensures ToolOf(acc.events + [e], index) == ToolAt(acc.tools, index) {
        EventSnoc(acc.events, e, index);
      }
      EventSnoc(acc.events, e, 0);
    }
  }

  lemma {:induction false} AddReasoningFaithful(acc: Acc, text: Option<string>, base: nat)
    requires Faithful(acc, base)
    ensures Faithful(AddReasoning(acc, text), base)
  {
    if text.Some? {
      var e := Event(acc.sequence + 1, ReasoningDelta(text.value));
      NumberedSnoc(acc.events, e, base + 1);
      forall index ensures ToolOf(acc.events + [e], index) == ToolAt(acc.tools, index) {
        EventSnoc(acc.events, e, index);
      }
      EventSnoc(acc.events, e, 0);
    }
  }

  lemma {:induction false} AddToolFaithful(acc: Acc, d: ToolDelta, base: nat)
    requires Faithful(acc, base)
    ensures Faithful(AddTool(acc, d), base)
  {
    var e := Event(acc.sequence + 1, ToolCallDelta(d));
    NumberedSnoc(acc.events, e, base + 1);
    UpsertAscending(acc.tools, d);
    forall index ensures ToolOf(acc.events + [e], index) == ToolAt(Upsert(acc.tools, d), index) {
      EventSnoc(acc.events, e, index);
      UpsertAt(acc.tools, d, index);
      assert ToolAt(acc.tools, index) == ToolOf(acc.events, index);
    }
    EventSnoc(acc.events, e, 0);
  }

  lemma {:induction false} AddToolsFaithful(acc: Acc, deltas: seq<ToolDelta>, base: nat)
    requires Faithful(acc, base)
    ensures Faithful(AddTools(acc, deltas), base)
    decreases deltas
  {
    if deltas != [] {
      AddToolFaithful(acc, deltas[0], base);
      AddToolsFaithful(AddTool(acc, deltas[0]), deltas[1..], base);
    }
  }

  lemma {:induction false} AbsorbFaithful(acc: Acc, p: Payload, base: nat)
    requires Faithful(acc, base)
    ensures Faithful(Absorb(acc, p), base)
  {
    if p.choice.Some? && p.choice.value.delta.Some? {
      var start := SetFinish(SetUsage(acc, p.usage), p.choice.value.finishReason);
      var d := p.choice.value.delta.value;
      AddTextFaithful(start, d.content, base);
      AddReasoningFaithful(AddText(start, d.content), d.reasoning, base);
      AddToolsFaithful(AddReasoning(AddText(start, d.content), d.reasoning), d.tools, base);
    }
  }

  /** Handling a line keeps the accumulator faithful to the events. */
  lemma {:induction false} HandleFaithful(decode: Decoder, acc: Acc, line: seq<byte>, base: nat)
    requires Faithful(acc, base) && Handle(decode, acc, line).Some?
    ensures Faithful(Handle(decode, acc, line).value, base)
  {
    if LineData(line).Some? {
      AbsorbFaithful(acc, decode(LineData(line).value).value, base);
    }
  }
}
