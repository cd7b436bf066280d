/** One Messages API stream event at a time, and the table of blocks its deltas refer to. */
module StreamEvents {
  import opened Wrappers
  import opened Text
  import opened Json

  /** A buffered MCP call's arguments: none written, or the raw text. */
  datatype Arguments = NoArguments | Raw(text: string)

  datatype Content<Details> =
    | Usage(details: Details)
    | FunctionCall(callId: string, name: string, fragment: Option<string>)
    | Text(text: string)
    | Reasoning(thinking: string, signature: Option<string>)
    | McpCall(mcpId: string, tool: string, server: Option<string>, arguments: Arguments)
    | Hosted(block: Value)

  datatype Update<Details> = Update(
    contents: seq<Content<Details>>,
    assistant: bool,
    responseId: Option<string>,
    model: Option<string>,
    finishReason: Option<string>)

  /** The entry of the block table at an index. */
  datatype Block = Tool(callId: string) | Mcp(id: string, name: string, server: Option<string>, input: string)

  /** What the conversion code supplies: usage parsing and accumulation, and whole content blocks. */
  datatype Conversion<!Details, !Usage> = Conversion(
    startUsage: Value -> Option<Details>,
    deltaUsage: Value -> Details,
    increment: (Usage, Details) -> (Usage, Details),
    hostedBlocks: Value -> seq<Value>,
    mapStopReason: string -> string)

  datatype Table<Usage> = Table(blocks: map<int, Block>, usage: Usage)

  // --- what an event says -----------------------------------------------------------

  datatype Event =
    | MessageStart(message: Value)
    | ToolStart(index: int, callId: string, name: string)
    | McpStart(index: int, id: string, name: string, server: Option<string>)
    | HostedBlock(block: Value)
    | InputDelta(index: int, partial: string)
    | TextDelta(text: string)
    | ThinkingDelta(text: string)
    | SignatureDelta(signature: Option<string>)
    | MessageDelta(usage: Option<Value>, stopReason: Option<string>)
    | BlockStop(index: int)
    | Nothing

  function Index(v: Value): int {
    match AsI64(Get(v, "index"))
    case Some(i) => i
    case None => 0
  }

  function DecodeStart(v: Value, block: Value): Event {
    match GetString(block, "type")
    case None => Nothing
    case Some(kind) =>
      if kind == "mcp_tool_use" then
        McpStart(Index(v), StringOr(GetString(block, "id"), ""), StringOr(GetString(block, "name"), ""),
                 GetString(block, "server_name"))
      else if kind == "tool_use" || kind == "server_tool_use" then
        ToolStart(Index(v), StringOr(GetString(block, "id"), ""), StringOr(GetString(block, "name"), ""))
      else if kind == "text" || kind == "thinking" then Nothing
      else HostedBlock(block)
  }

  function DecodeDelta(v: Value, delta: Value): Event {
    match GetString(delta, "type")
    case None => Nothing
    case Some(kind) =>
      if kind == "text_delta" then TextDelta(StringOr(GetString(delta, "text"), ""))
      else if kind == "thinking_delta" then ThinkingDelta(StringOr(GetString(delta, "thinking"), ""))
      else if kind == "signature_delta" then SignatureDelta(GetString(delta, "signature"))
      else if kind == "input_json_delta" then InputDelta(Index(v), StringOr(GetString(delta, "partial_json"), ""))
      else Nothing
  }

  function StopReason(v: Value): Option<string> {
    match Get(v, "delta")
    case Some(delta) => GetString(delta, "stop_reason")
    case None => None
  }

  function DecodeEvent(v: Value): Event {
    match GetString(v, "type")
    case None => Nothing
    case Some(kind) =>
      if kind == "message_start" then
        match Get(v, "message") case Some(message) => MessageStart(message) case None => Nothing
      else if kind == "content_block_start" then
        match Get(v, "content_block") case Some(block) => DecodeStart(v, block) case None => Nothing
      else if kind == "content_block_delta" then
        match Get(v, "delta") case Some(delta) => DecodeDelta(v, delta) case None => Nothing
      else if kind == "message_delta" then MessageDelta(Get(v, "usage"), StopReason(v))
      else if kind == "content_block_stop" then BlockStop(Index(v))
      else Nothing
  }

  // --- how the service writes one ------------------------------------------------------

  /** An object's fields with an optional string. */
  function WithText(fields: map<string, Value>, key: string, text: Option<string>): map<string, Value> {
    match text
    case Some(s) => fields[key := String(s)]
    case None => fields
  }

  function BlockStartJson(index: int, block: map<string, Value>): Value {
    Object(map["type" := String("content_block_start"), "index" := Number(index), "content_block" := Object(block)])
  }

  function DeltaJson(fields: map<string, Value>, delta: map<string, Value>): Value {
    Object(fields["type" := String("content_block_delta")]["delta" := Object(delta)])
  }

  /** An event as the Messages API puts it on the wire. */
  function EventJson(e: Event): Value {
    match e
    case MessageStart(message) => Object(map["type" := String("message_start"), "message" := message])
    case ToolStart(index, id, name) =>
      BlockStartJson(index, map["type" := String("tool_use"), "id" := String(id), "name" := String(name)])
    case McpStart(index, id, name, server) =>
      BlockStartJson(
        index,
        WithText(map["type" := String("mcp_tool_use"), "id" := String(id), "name" := String(name)], "server_name", server))
    case HostedBlock(block) =>
      Object(map["type" := String("content_block_start"), "index" := Number(0), "content_block" := block])
    case InputDelta(index, partial) =>
      DeltaJson(map["index" := Number(index)],
                map["type" := String("input_json_delta"), "partial_json" := String(partial)])
    case TextDelta(text) => DeltaJson(map[], map["type" := String("text_delta"), "text" := String(text)])
    case ThinkingDelta(text) => DeltaJson(map[], map["type" := String("thinking_delta"), "thinking" := String(text)])
    case SignatureDelta(signature) =>
      DeltaJson(map[], WithText(map["type" := String("signature_delta")], "signature", signature))
    case MessageDelta(usage, stopReason) =>
      var fields := map["type" := String("message_delta"), "delta" := Object(WithText(map[], "stop_reason", stopReason))];
      Object(if usage.Some? then fields["usage" := usage.value] else fields)
    case BlockStop(index) => Object(map["type" := String("content_block_stop"), "index" := Number(index)])
    case Nothing => Object(map["type" := String("ping")])
  }

  predicate IsIndex(index: int) {
    I64_MIN <= index <= I64_MAX
  }

  /** An index fits the wire, and a hosted block is of none of the kinds handled here. */
  predicate IsWritable(e: Event) {
    match e
    case ToolStart(index, _, _) => IsIndex(index)
    case McpStart(index, _, _, _) => IsIndex(index)
    case InputDelta(index, _) => IsIndex(index)
    case BlockStop(index) => IsIndex(index)
    case HostedBlock(block) =>
      && GetString(block, "type").Some?
      && GetString(block, "type").value !in {"mcp_tool_use", "tool_use", "server_tool_use", "text", "thinking"}
    case _ => true
  }

  /** What the service writes is what is read. */
  lemma EventJsonDecodes(e: Event)
    requires IsWritable(e)
    ensures DecodeEvent(EventJson(e)) == e
  {
    hide DecodeEvent, EventJson;
    match e
    case MessageStart(_) => PlainDecodes(e);
    case ToolStart(_, _, _) => ToolStartDecodes(e);
    case McpStart(_, _, _, _) => McpStartDecodes(e);
    case HostedBlock(_) => HostedDecodes(e);
    case InputDelta(_, _) => InputDeltaDecodes(e);
    case TextDelta(_) => TextDeltaDecodes(e);
    case ThinkingDelta(_) => ThinkingDeltaDecodes(e);
    case SignatureDelta(_) => SignatureDecodes(e);
    case MessageDelta(_, _) => MessageDeltaDecodes(e);
    case BlockStop(_) => PlainDecodes(e);
    case Nothing => PlainDecodes(e);
  }

  /** The type an event is written with. */
  function TypeOf(e: Event): string {
    match e
    case MessageStart(_) => "message_start"
    case ToolStart(_, _, _) => "content_block_start"
    case McpStart(_, _, _, _) => "content_block_start"
    case HostedBlock(_) => "content_block_start"
    case InputDelta(_, _) => "content_block_delta"
    case TextDelta(_) => "content_block_delta"
    case ThinkingDelta(_) => "content_block_delta"
    case SignatureDelta(_) => "content_block_delta"
    case MessageDelta(_, _) => "message_delta"
    case BlockStop(_) => "content_block_stop"
    case Nothing => "ping"
  }

  lemma WrittenType(e: Event)
    ensures GetString(EventJson(e), "type") == Some(TypeOf(e))
  {
    hide WithText;
  }

  lemma TypeIsNoError(e: Event)
    ensures TypeOf(e) != "error"
  {
  }

  /** Events as the service writes them. */
  function Written(events: seq<Event>): (r: seq<Value>)
    ensures |r| == |events|
    ensures forall k :: 0 <= k < |r| ==> r[k] == EventJson(events[k])
  {
    seq(|events|, k requires 0 <= k < |events| => EventJson(events[k]))
  }

  /** No event the service writes of these kinds is an error event. */
  lemma WrittenIsNoError(e: Event)
    ensures !IsErrorEvent(EventJson(e))
  {
    hide EventJson, TypeOf;
    WrittenType(e);
    TypeIsNoError(e);
  }

  lemma PlainDecodes(e: Event)
    requires (e.MessageStart? || e.BlockStop? || e.Nothing?) && IsWritable(e)
    ensures DecodeEvent(EventJson(e)) == e
  {
    hide DecodeStart, DecodeDelta;
    var v := EventJson(e);
    assert e.MessageStart? ==> GetString(v, "type") == Some("message_start") && Get(v, "message") == Some(e.message);
    assert e.BlockStop? ==> GetString(v, "type") == Some("content_block_stop") && Get(v, "index") == Some(Number(e.index));
    assert e.Nothing? ==> GetString(v, "type") == Some("ping");
  }

  lemma ToolStartDecodes(e: Event)
    requires e.ToolStart? && IsWritable(e)
    ensures DecodeEvent(EventJson(e)) == e
  {
    hide DecodeEvent, Index;
    var block := Object(map["type" := String("tool_use"), "id" := String(e.callId), "name" := String(e.name)]);
    StartDecodes(EventJson(e), block, e.index);
    assert GetString(block, "type") == Some("tool_use");
    assert GetString(block, "id") == Some(e.callId) && GetString(block, "name") == Some(e.name);
  }

  lemma McpStartDecodes(e: Event)
    requires e.McpStart? && IsWritable(e)
    ensures DecodeEvent(EventJson(e)) == e
  {
    hide DecodeEvent, Index, DecodeStart;
    var block := EventJson(e).fields["content_block"];
    StartDecodes(EventJson(e), block, e.index);
    McpBlockReads(e, block);
    McpStartIs(EventJson(e), e, block);
  }

  lemma McpBlockReads(e: Event, block: Value)
    requires e.McpStart? && block == EventJson(e).fields["content_block"]
    ensures GetString(block, "type") == Some("mcp_tool_use") && GetString(block, "server_name") == e.server
    ensures GetString(block, "id") == Some(e.id) && GetString(block, "name") == Some(e.name)
  {
  }

  lemma McpStartIs(v: Value, e: Event, block: Value)
    requires e.McpStart? && Index(v) == e.index
    requires GetString(block, "type") == Some("mcp_tool_use") && GetString(block, "server_name") == e.server
    requires GetString(block, "id") == Some(e.id) && GetString(block, "name") == Some(e.name)
    ensures DecodeStart(v, block) == e
  {
    hide Index, GetString, Get;
  }

  lemma HostedDecodes(e: Event)
    requires e.HostedBlock? && IsWritable(e)
    ensures DecodeEvent(EventJson(e)) == e
  {
    hide DecodeEvent, Index;
    StartDecodes(EventJson(e), e.block, 0);
  }

  lemma InputDeltaDecodes(e: Event)
    requires e.InputDelta? && IsWritable(e)
    ensures DecodeEvent(EventJson(e)) == e
  {
    hide DecodeEvent;
    var v := EventJson(e);
    var delta := v.fields["delta"];
    DeltaDecodes(v, delta);
    assert GetString(delta, "type") == Some("input_json_delta") && GetString(delta, "partial_json") == Some(e.partial);
    assert Get(v, "index") == Some(Number(e.index));
  }

  lemma TextDeltaDecodes(e: Event)
    requires e.TextDelta?
    ensures DecodeEvent(EventJson(e)) == e
  {
    hide DecodeEvent;
    var v := EventJson(e);
    var delta := v.fields["delta"];
    DeltaDecodes(v, delta);
    assert GetString(delta, "type") == Some("text_delta") && GetString(delta, "text") == Some(e.text);
  }

  lemma ThinkingDeltaDecodes(e: Event)
    requires e.ThinkingDelta?
    ensures DecodeEvent(EventJson(e)) == e
  {
    hide DecodeEvent;
    var v := EventJson(e);
    var delta := v.fields["delta"];
    DeltaDecodes(v, delta);
    assert GetString(delta, "type") == Some("thinking_delta") && GetString(delta, "thinking") == Some(e.text);
  }

  lemma SignatureDecodes(e: Event)
    requires e.SignatureDelta?
    ensures DecodeEvent(EventJson(e)) == e
  {
    hide DecodeEvent;
    var v := EventJson(e);
    var delta := v.fields["delta"];
    DeltaDecodes(v, delta);
    assert GetString(delta, "type") == Some("signature_delta") && GetString(delta, "signature") == e.signature;
  }

  lemma MessageDeltaDecodes(e: Event)
    requires e.MessageDelta?
    ensures DecodeEvent(EventJson(e)) == e
  {
    hide DecodeStart, DecodeDelta;
    var v := EventJson(e);
    assert GetString(v, "type") == Some("message_delta") && Get(v, "usage") == e.usage;
    var delta := Object(WithText(map[], "stop_reason", e.stopReason));
    assert Get(v, "delta") == Some(delta) && GetString(delta, "stop_reason") == e.stopReason;
  }

  lemma StartDecodes(v: Value, block: Value, index: int)
    requires GetString(v, "type") == Some("content_block_start") && Get(v, "content_block") == Some(block)
    requires Get(v, "index") == Some(Number(index)) && IsIndex(index)
    ensures DecodeEvent(v) == DecodeStart(v, block) && Index(v) == index
  {
    hide DecodeStart;
  }

  lemma DeltaDecodes(v: Value, delta: Value)
    requires GetString(v, "type") == Some("content_block_delta") && Get(v, "delta") == Some(delta)
    ensures DecodeEvent(v) == DecodeDelta(v, delta)
  {
    hide DecodeDelta;
  }

  // --- what an event does -----------------------------------------------------------

  function FromAssistant<Details>(content: Content<Details>): Update<Details> {
    Update([content], true, None, None, None)
  }

  function Hosteds<Details>(blocks: seq<Value>): seq<Content<Details>> {
    seq(|blocks|, i requires 0 <= i < |blocks| => Hosted(blocks[i]))
  }

  function McpArguments(input: string): Arguments {
    if Trim(input) == "" then NoArguments else Raw(input)
  }

  /** The table after one event, and the update it brings, if any. */
  function Apply<Details, Usage>(c: Conversion<Details, Usage>, t: Table<Usage>, e: Event)
      : (Table<Usage>, Option<Update<Details>>)
  {
    match e
    case MessageStart(message) =>
      var (usage, contents) := StartUsage(c, t.usage, message);
      (t.(usage := usage),
       Some(Update(contents, true, GetString(message, "id"), GetString(message, "model"), None)))
    case ToolStart(index, id, name) =>
      (t.(blocks := t.blocks[index := Tool(id)]), Some(FromAssistant(FunctionCall(id, name, None))))
    case McpStart(index, id, name, server) => (t.(blocks := t.blocks[index := Mcp(id, name, server, "")]), None)
    case HostedBlock(block) =>
      var contents := Hosteds(c.hostedBlocks(block));
      (t, if contents == [] then None else Some(Update(contents, true, None, None, None)))
    case InputDelta(index, partial) =>
      if index in t.blocks then
        match t.blocks[index]
        case Mcp(id, name, server, input) =>
          (t.(blocks := t.blocks[index := Mcp(id, name, server, input + partial)]), None)
        case Tool(id) => (t, Some(FromAssistant(FunctionCall(id, "", Some(partial)))))
      else (t, Some(FromAssistant(FunctionCall("", "", Some(partial)))))
    case TextDelta(text) => (t, Some(FromAssistant(Content.Text(text))))
    case ThinkingDelta(text) => (t, Some(FromAssistant(Reasoning(text, None))))
    case SignatureDelta(signature) => (t, Some(FromAssistant(Reasoning("", signature))))
    case MessageDelta(usage, stopReason) =>
      var (total, contents) := DeltaUsage(c, t.usage, usage);
      (t.(usage := total),
       Some(Update(contents, false, None, None,
                   match stopReason case Some(s) => Some(c.mapStopReason(s)) case None => None)))
    case BlockStop(index) =>
      if index in t.blocks && t.blocks[index].Mcp? then
        var Mcp(id, name, server, input) := t.blocks[index];
        (t.(blocks := t.blocks - {index}), Some(FromAssistant(McpCall(id, name, server, McpArguments(input)))))
      else (t, None)
    case Nothing => (t, None)
  }

  function StartUsage<Details, Usage>(c: Conversion<Details, Usage>, usage: Usage, message: Value)
      : (Usage, seq<Content<Details>>)
  {
    match Get(message, "usage")
    case None => (usage, [])
    case Some(v) =>
      match c.startUsage(v)
      case None => (usage, [])
      case Some(details) =>
        var (total, added) := c.increment(usage, details);
        (total, [Content.Usage(added)])
  }

  function DeltaUsage<Details, Usage>(c: Conversion<Details, Usage>, usage: Usage, v: Option<Value>)
      : (Usage, seq<Content<Details>>)
  {
    match v
    case None => (usage, [])
    case Some(value) =>
      var (total, added) := c.increment(usage, c.deltaUsage(value));
      (total, [Content.Usage(added)])
  }

  // --- a whole stream ---------------------------------------------------------------

  predicate IsErrorEvent(v: Value) {
    GetString(v, "type") == Some("error")
  }

  function ErrorMessage(v: Value): string {
    match Get(v, "error")
    case Some(e) => StringOr(GetString(e, "message"), "unknown Anthropic stream error")
    case None => "unknown Anthropic stream error"
  }

  predicate FlagsPause(v: Value) {
    GetString(v, "type") == Some("message_delta") && StopReason(v) == Some("pause_turn")
  }

  datatype State<Usage> = State(table: Table<Usage>, paused: bool)

  /** One decoded event, whatever transport carried it. */
  function Handle<Details, Usage>(c: Conversion<Details, Usage>, s: State<Usage>, v: Value)
      : (State<Usage>, Result<Option<Update<Details>>, string>)
  {
    if IsErrorEvent(v) then (s, Err(ErrorMessage(v)))
    else
      var (table, update) := Apply(c, s.table, DecodeEvent(v));
      (State(table, s.paused || FlagsPause(v)), Ok(update))
  }

  /** Updates up to the first error, that error, and the state it leaves. */
  datatype Handled<Details, Usage> =
    Handled(updates: seq<Update<Details>>, error: Option<string>, state: State<Usage>)

  function HandleAll<Details, Usage>(c: Conversion<Details, Usage>, s: State<Usage>, values: seq<Value>)
      : Handled<Details, Usage>
    decreases |values|
  {
    if values == [] then Handled([], None, s)
    else
      var (next, r) := Handle(c, s, values[0]);
      match r
      case Err(e) => Handled([], Some(e), next)
      case Ok(update) =>
        var rest := HandleAll(c, next, values[1..]);
        rest.(updates := (if update.Some? then [update.value] else []) + rest.updates)
  }

  lemma {:induction false} HandleAllAppend<Details, Usage>(
      c: Conversion<Details, Usage>, s: State<Usage>, a: seq<Value>, b: seq<Value>)
    ensures HandleAll(c, s, a + b) ==
            var first := HandleAll(c, s, a);
            if first.error.Some? then first
            else
              var rest := HandleAll(c, first.state, b);
              rest.(updates := first.updates + rest.updates)
    decreases |a|
  {
    hide Handle;
    if a == [] {
      assert a + b == b;
    } else {
      assert (a + b)[1..] == a[1..] + b;
      HandleAllAppend(c, Handle(c, s, a[0]).0, a[1..], b);
    }
  }

  /** A stream that ends without an error event was flagged as paused exactly when one of its events said so. */
  lemma {:induction false} PausedExactly<Details, Usage>(c: Conversion<Details, Usage>, s: State<Usage>, values: seq<Value>)
    requires HandleAll(c, s, values).error.None?
    ensures HandleAll(c, s, values).state.paused <==> s.paused || exists v :: v in values && FlagsPause(v)
    decreases |values|
  {
    hide Apply, DecodeEvent, FlagsPause;
    if values != [] {
      PausedExactly(c, Handle(c, s, values[0]).0, values[1..]);
      assert values == [values[0]] + values[1..];
    }
  }

  /** The parser of one stream: the block table, usage and pause flag its events update. */
  class StreamParser<Details, Usage> {
    const c: Conversion<Details, Usage>
    var blocks: map<int, Block>
    var usage: Usage
    var paused: bool

    function Current(): State<Usage>
      reads this
    {
      State(Table(blocks, usage), paused)
    }

    constructor (c: Conversion<Details, Usage>, usage: Usage)
      ensures this.c == c && Current() == State(Table(map[], usage), false)
    {
      this.c, this.usage := c, usage;
      blocks, paused := map[], false;
    }

    method HandleStreamValue(v: Value) returns (r: Result<Option<Update<Details>>, string>)
      modifies this
      ensures (Current(), r) == Handle(c, old(Current()), v)
    {
      hide Apply, DecodeEvent;
      if GetString(v, "type") == Some("error") {
        return Err(ErrorMessage(v));
      }
      if GetString(v, "type") == Some("message_delta") && StopReason(v) == Some("pause_turn") {
        paused := true;
      }
      var update := ParseStreamEvent(DecodeEvent(v));
      r := Ok(update);
    }

    /** Updates the table in place, as the decoded event says. */
    method ParseStreamEvent(e: Event) returns (update: Option<Update<Details>>)
      modifies this`blocks, this`usage
      ensures (Table(blocks, usage), update) == Apply(c, old(Table(blocks, usage)), e)
    {
      update := None;
      match e
      case MessageStart(message) =>
        var (total, contents) := StartUsage(c, usage, message);
        usage := total;
        update := Some(Update(contents, true, GetString(message, "id"), GetString(message, "model"), None));
      case ToolStart(index, id, name) =>
        blocks := blocks[index := Tool(id)];
        update := Some(FromAssistant(FunctionCall(id, name, None)));
      case McpStart(index, id, name, server) =>
        blocks := blocks[index := Mcp(id, name, server, "")];
      case HostedBlock(block) =>
        var contents := Hosteds(c.hostedBlocks(block));
        if contents != [] {
          update := Some(Update(contents, true, None, None, None));
        }
      case InputDelta(index, partial) =>
        if index !in blocks {
          update := Some(FromAssistant(FunctionCall("", "", Some(partial))));
        } else {
          match blocks[index]
          case Mcp(id, name, server, input) =>
            blocks := blocks[index := Mcp(id, name, server, input + partial)];
          case Tool(id) =>
            update := Some(FromAssistant(FunctionCall(id, "", Some(partial))));
        }
      case TextDelta(text) => update := Some(FromAssistant(Content.Text(text)));
      case ThinkingDelta(text) => update := Some(FromAssistant(Reasoning(text, None)));
      case SignatureDelta(signature) => update := Some(FromAssistant(Reasoning("", signature)));
      case MessageDelta(counts, stopReason) =>
        var (total, contents) := DeltaUsage(c, usage, counts);
        usage := total;
        var reason := match stopReason case Some(s) => Some(c.mapStopReason(s)) case None => None;
        update := Some(Update(contents, false, None, None, reason));
      case BlockStop(index) =>
        if index in blocks {
          var block := blocks[index];
          blocks := blocks - {index};
          match block
          case Mcp(id, name, server, input) =>
            update := Some(FromAssistant(McpCall(id, name, server, McpArguments(input))));
          case Tool(_) =>
            // A tool outlives its stop, so that deltas after it find their call.
            blocks := blocks[index := block];
            assert blocks == old(blocks);
        }
      case Nothing =>
    }
  }
}
