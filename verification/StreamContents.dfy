/** Everything a stream of written events tells its reader, and what ends it. */
module StreamContents {
  import opened Wrappers
  import opened Json
  import opened StreamEvents
  import opened BlockStreams

  // --- what an update and an event tell ---------------------------------------------

  /** A fact for the reader; argument fragments, MCP calls and usage are told elsewhere. */
  datatype Fact =
    | Began(responseId: Option<string>, model: Option<string>)
    | Said(text: string)
    | Thought(thinking: string, signature: Option<string>)
    | Called(callId: string, name: string)
    | Included(block: Value)
    | Ended(reason: string)

  function ContentFact<Details>(content: Content<Details>): seq<Fact> {
    match content
    case Text(text) => [Said(text)]
    case Reasoning(thinking, signature) => [Thought(thinking, signature)]
    case FunctionCall(callId, name, None) => [Called(callId, name)]
    case Hosted(block) => [Included(block)]
    case _ => []
  }

  function ContentFacts<Details>(contents: seq<Content<Details>>): seq<Fact> {
    if contents == [] then [] else ContentFact(contents[0]) + ContentFacts(contents[1..])
  }

  /** Contents count as told only when the assistant tells them, an end only when nobody does. */
  function UpdateFacts<Details>(u: Update<Details>): seq<Fact> {
    (if u.responseId.Some? || u.model.Some? then [Began(u.responseId, u.model)] else [])
    + (if u.assistant then ContentFacts(u.contents) else [])
    + (if !u.assistant && u.finishReason.Some? then [Ended(u.finishReason.value)] else [])
  }

  function Facts<Details>(updates: seq<Update<Details>>): seq<Fact> {
    if updates == [] then [] else UpdateFacts(updates[0]) + Facts(updates[1..])
  }

  function Includes(blocks: seq<Value>): seq<Fact> {
    if blocks == [] then [] else [Included(blocks[0])] + Includes(blocks[1..])
  }

  /** What an event is to tell. */
  function EventFacts<Details, Usage>(c: Conversion<Details, Usage>, e: Event): seq<Fact> {
    match e
    case MessageStart(message) =>
      var (id, model) := (GetString(message, "id"), GetString(message, "model"));
      if id.Some? || model.Some? then [Began(id, model)] else []
    case ToolStart(_, callId, name) => [Called(callId, name)]
    case HostedBlock(block) => Includes(c.hostedBlocks(block))
    case TextDelta(text) => [Said(text)]
    case ThinkingDelta(thinking) => [Thought(thinking, None)]
    case SignatureDelta(signature) => [Thought("", signature)]
    case MessageDelta(_, Some(reason)) => [Ended(c.mapStopReason(reason))]
    case _ => []
  }

  function AllFacts<Details, Usage>(c: Conversion<Details, Usage>, events: seq<Event>): seq<Fact> {
    if events == [] then [] else EventFacts(c, events[0]) + AllFacts(c, events[1..])
  }

  // --- the usage an update adds -------------------------------------------------------

  function UsageIn<Details>(contents: seq<Content<Details>>): seq<Details> {
    if contents == [] then []
    else (if contents[0].Usage? then [contents[0].details] else []) + UsageIn(contents[1..])
  }

  function UsageOf<Details>(updates: seq<Update<Details>>): seq<Details> {
    if updates == [] then [] else UsageIn(updates[0].contents) + UsageOf(updates[1..])
  }

  /** The running totals a stream reports. */
  function Snapshots<Details, Usage>(c: Conversion<Details, Usage>, e: Event): seq<Details> {
    match e
    case MessageStart(message) =>
      (match Get(message, "usage")
       case Some(v) => AsList(c.startUsage(v))
       case None => [])
    case MessageDelta(Some(v), _) => [c.deltaUsage(v)]
    case _ => []
  }

  function AllSnapshots<Details, Usage>(c: Conversion<Details, Usage>, events: seq<Event>): seq<Details> {
    if events == [] then [] else Snapshots(c, events[0]) + AllSnapshots(c, events[1..])
  }

  /** What each snapshot adds to the accumulated usage, and what is accumulated in the end. */
  function Increments<Details, Usage>(c: Conversion<Details, Usage>, usage: Usage, snapshots: seq<Details>)
      : (seq<Details>, Usage)
    decreases |snapshots|
  {
    if snapshots == [] then ([], usage)
    else
      var (next, added) := c.increment(usage, snapshots[0]);
      var (more, total) := Increments(c, next, snapshots[1..]);
      ([added] + more, total)
  }

  // --- one event -------------------------------------------------------------------------

  function FactsOf<Details>(update: Option<Update<Details>>): seq<Fact> {
    if update.Some? then UpdateFacts(update.value) else []
  }

  function UsagesOf<Details>(update: Option<Update<Details>>): seq<Details> {
    if update.Some? then UsageIn(update.value.contents) else []
  }

  lemma {:induction false} HostedFacts<Details>(blocks: seq<Value>)
    ensures ContentFacts<Details>(Hosteds(blocks)) == Includes(blocks) && UsageIn<Details>(Hosteds(blocks)) == []
    decreases |blocks|
  {
    if blocks != [] {
      assert Hosteds<Details>(blocks)[1..] == Hosteds(blocks[1..]);
      HostedFacts<Details>(blocks[1..]);
    }
  }

  lemma OneContent<Details>(content: Content<Details>)
    ensures ContentFacts([content]) == ContentFact(content)
    ensures UsageIn([content]) == if content.Usage? then [content.details] else []
  {
    assert [content][1..] == [];
  }

  lemma FactsOfEvent<Details, Usage>(c: Conversion<Details, Usage>, t: Table<Usage>, e: Event)
    ensures FactsOf(Apply(c, t, e).1) == EventFacts(c, e)
  {
    hide FactsOf, Apply, EventFacts;
    if e.MessageStart? {
      StartFacts(c, t, e);
    } else if e.MessageDelta? {
      EndFacts(c, t, e);
    } else if e.HostedBlock? {
      HostedBlockFacts(c, t, e);
    } else {
      BlockFacts(c, t, e);
    }
  }

  lemma StartFacts<Details, Usage>(c: Conversion<Details, Usage>, t: Table<Usage>, e: Event)
    requires e.MessageStart?
    ensures FactsOf(Apply(c, t, e).1) == EventFacts(c, e)
  {
    hide ContentFacts, StartUsage, GetString;
    UsageTellsNothing(c, t.usage, e.message, None);
  }

  lemma EndFacts<Details, Usage>(c: Conversion<Details, Usage>, t: Table<Usage>, e: Event)
    requires e.MessageDelta?
    ensures FactsOf(Apply(c, t, e).1) == EventFacts(c, e)
  {
    hide ContentFacts, DeltaUsage;
  }

  lemma HostedBlockFacts<Details, Usage>(c: Conversion<Details, Usage>, t: Table<Usage>, e: Event)
    requires e.HostedBlock?
    ensures FactsOf(Apply(c, t, e).1) == EventFacts(c, e)
  {
    hide ContentFacts, Hosteds, Includes;
    HostedFacts<Details>(c.hostedBlocks(e.block));
    NoHosteds<Details>(c.hostedBlocks(e.block));
  }

  lemma BlockFacts<Details, Usage>(c: Conversion<Details, Usage>, t: Table<Usage>, e: Event)
    requires !e.MessageStart? && !e.MessageDelta? && !e.HostedBlock?
    ensures FactsOf(Apply(c, t, e).1) == EventFacts(c, e)
  {
    hide ContentFacts, McpArguments;
    var update := Apply(c, t, e).1;
    if update.Some? {
      OneContent(update.value.contents[0]);
    }
  }

  lemma NoHosteds<Details>(blocks: seq<Value>)
    ensures Hosteds<Details>(blocks) == [] ==> Includes(blocks) == []
  {
  }

  lemma UsageTellsNothing<Details, Usage>(c: Conversion<Details, Usage>, usage: Usage, message: Value, v: Option<Value>)
    ensures ContentFacts(StartUsage(c, usage, message).1) == [] && ContentFacts(DeltaUsage(c, usage, v).1) == []
  {
  }

  lemma UsageOfEvent<Details, Usage>(c: Conversion<Details, Usage>, t: Table<Usage>, e: Event)
    ensures (UsagesOf(Apply(c, t, e).1), Apply(c, t, e).0.usage) == Increments(c, t.usage, Snapshots(c, e))
  {
    hide UsageIn, StartUsage, DeltaUsage, Hosteds, McpArguments, Increments, Snapshots;
    var update := Apply(c, t, e).1;
    if e.MessageStart? || e.MessageDelta? {
      UsageCounted(c, t.usage, e);
    } else {
      NoSnapshots(c, t.usage, e);
      if e.HostedBlock? {
        HostedFacts<Details>(c.hostedBlocks(e.block));
      } else if update.Some? {
        OneContent(update.value.contents[0]);
      }
    }
  }

  lemma NoSnapshots<Details, Usage>(c: Conversion<Details, Usage>, usage: Usage, e: Event)
    requires !e.MessageStart? && !e.MessageDelta?
    ensures Increments(c, usage, Snapshots(c, e)) == ([], usage)
  {
  }

  lemma UsageCounted<Details, Usage>(c: Conversion<Details, Usage>, usage: Usage, e: Event)
    ensures e.MessageStart? ==>
              var (total, contents) := StartUsage(c, usage, e.message);
              (UsageIn(contents), total) == Increments(c, usage, Snapshots(c, e))
    ensures e.MessageDelta? ==>
              var (total, contents) := DeltaUsage(c, usage, e.usage);
              (UsageIn(contents), total) == Increments(c, usage, Snapshots(c, e))
  {
  }

  // --- a whole stream ------------------------------------------------------------------

  lemma FactsFirst<Details>(update: Option<Update<Details>>, rest: seq<Update<Details>>)
    ensures Facts((if update.Some? then [update.value] else []) + rest) == FactsOf(update) + Facts(rest)
    ensures UsageOf((if update.Some? then [update.value] else []) + rest) == UsagesOf(update) + UsageOf(rest)
  {
    if update.Some? {
      assert ([update.value] + rest)[1..] == rest;
    } else {
      assert [] + rest == rest;
    }
  }

  lemma {:induction false} IncrementsAppend<Details, Usage>(
      c: Conversion<Details, Usage>, usage: Usage, a: seq<Details>, b: seq<Details>)
    ensures var (first, next) := Increments(c, usage, a);
            var (more, total) := Increments(c, next, b);
            Increments(c, usage, a + b) == (first + more, total)
    decreases |a|
  {
    if a == [] {
      assert a + b == b;
      assert [] + Increments(c, usage, b).0 == Increments(c, usage, b).0;
    } else {
      assert (a + b)[1..] == a[1..] + b;
      var (next, added) := c.increment(usage, a[0]);
      IncrementsAppend(c, next, a[1..], b);
      var (first, then_) := Increments(c, next, a[1..]);
      assert [added] + (first + Increments(c, then_, b).0) == [added] + first + Increments(c, then_, b).0;
    }
  }

  /**
   A stream as it goes over the wire tells exactly what its events say, in their order: how
   it began, its text, its thinking and signatures, its tool calls' names, the blocks it
   includes whole and why it ended. Its usage is what each reported total adds.
   */
  lemma {:induction false} StreamTellsAll<Details, Usage>(c: Conversion<Details, Usage>, s: State<Usage>, events: seq<Event>)
    requires AreWritable(events)
    ensures var h := HandleAll(c, s, Written(events));
            && h.error.None? && Facts(h.updates) == AllFacts(c, events)
            && (UsageOf(h.updates), h.state.table.usage) == Increments(c, s.table.usage, AllSnapshots(c, events))
    decreases |events|
  {
    hide DecodeEvent, EventJson, IsWritable, HandleAll, Apply, Facts, UsageOf, FactsOf, UsagesOf;
    hide EventFacts, Snapshots, Increments, IsErrorEvent;
    if events == [] {
      NothingTold(c, s);
    } else {
      var values := Written(events);
      assert events[0] in events;
      EventJsonDecodes(events[0]);
      WrittenIsNoError(events[0]);
      assert values[1..] == Written(events[1..]);
      HandleFirst(c, s, values);
      var (table, update) := Apply(c, s.table, events[0]);
      var next := State(table, s.paused || FlagsPause(values[0]));
      StreamTellsAll(c, next, events[1..]);
      FactsFirst(update, HandleAll(c, next, values[1..]).updates);
      FactsOfEvent(c, s.table, events[0]);
      UsageOfEvent(c, s.table, events[0]);
      IncrementsAppend(c, s.table.usage, Snapshots(c, events[0]), AllSnapshots(c, events[1..]));
    }
  }

  lemma NothingTold<Details, Usage>(c: Conversion<Details, Usage>, s: State<Usage>)
    ensures HandleAll(c, s, Written([])) == Handled([], None, s)
    ensures Facts<Details>([]) == [] && UsageOf<Details>([]) == []
    ensures Increments(c, s.table.usage, []) == ([], s.table.usage)
  {
  }

  // --- how a stream pauses and how it fails -------------------------------------------

  predicate IsPause(e: Event) {
    e.MessageDelta? && e.stopReason == Some("pause_turn")
  }

  lemma WrittenPause(e: Event)
    ensures FlagsPause(EventJson(e)) <==> IsPause(e)
  {
    hide EventJson, TypeOf;
    WrittenType(e);
    if e.MessageDelta? {
      WrittenReason(e);
    } else {
      OtherType(e);
    }
  }

  lemma WrittenReason(e: Event)
    requires e.MessageDelta?
    ensures StopReason(EventJson(e)) == e.stopReason && TypeOf(e) == "message_delta"
  {
  }

  lemma OtherType(e: Event)
    requires !e.MessageDelta?
    ensures TypeOf(e) != "message_delta"
  {
  }

  /** A written stream is paused exactly when one of its events stops on `pause_turn`. */
  lemma {:induction false} StreamPauses<Details, Usage>(c: Conversion<Details, Usage>, s: State<Usage>, events: seq<Event>)
    requires AreWritable(events)
    ensures HandleAll(c, s, Written(events)).state.paused <==> s.paused || exists e :: e in events && IsPause(e)
  {
    hide HandleAll, FlagsPause, EventJson, IsWritable, IsPause;
    var values := Written(events);
    StreamTellsAll(c, s, events);
    PausedExactly(c, s, values);
    if v :| v in values && FlagsPause(v) {
      var k :| 0 <= k < |values| && values[k] == v;
      WrittenPause(events[k]);
    }
    if e :| e in events && IsPause(e) {
      var k :| 0 <= k < |events| && events[k] == e;
      WrittenPause(e);
      assert values[k] in values;
    }
  }

  function ErrorJson(message: Option<string>): Value {
    Object(map["type" := String("error"), "error" := Object(WithText(map[], "message", message))])
  }

  /** An error event ends a stream with its message; whatever comes after it changes nothing. */
  lemma ErrorEnds<Details, Usage>(
      c: Conversion<Details, Usage>, s: State<Usage>, events: seq<Event>, message: Option<string>, after: seq<Value>)
    requires AreWritable(events)
    ensures var h := HandleAll(c, s, Written(events) + ([ErrorJson(message)] + after));
            && h.updates == HandleAll(c, s, Written(events)).updates
            && h.error == Some(if message.Some? then message.value else "unknown Anthropic stream error")
  {
    hide EventJson, IsWritable, HandleAll, ErrorJson;
    StreamTellsAll(c, s, events);
    HandleAllAppend(c, s, Written(events), [ErrorJson(message)] + after);
    var h := HandleAll(c, s, Written(events));
    ErrorFirst(c, h.state, message, after);
    assert h.updates + [] == h.updates;
  }

  lemma ErrorFirst<Details, Usage>(c: Conversion<Details, Usage>, s: State<Usage>, message: Option<string>, after: seq<Value>)
    ensures HandleAll(c, s, [ErrorJson(message)] + after)
         == Handled([], Some(if message.Some? then message.value else "unknown Anthropic stream error"), s)
  {
    hide Apply, DecodeEvent, ErrorJson, ErrorMessage;
    ErrorReads(message);
  }

  lemma ErrorReads(message: Option<string>)
    ensures IsErrorEvent(ErrorJson(message))
    ensures ErrorMessage(ErrorJson(message)) == if message.Some? then message.value else "unknown Anthropic stream error"
  {
  }

  // --- other ways an event is written -------------------------------------------------

  /** A tool the server runs starts as any tool does. */
  lemma ServerToolStarts(index: int, callId: string, name: string)
    requires IsIndex(index)
    ensures DecodeEvent(BlockStartJson(
              index, map["type" := String("server_tool_use"), "id" := String(callId), "name" := String(name)]))
            == ToolStart(index, callId, name)
  {
    hide DecodeEvent, Index;
    var tool := map["type" := String("server_tool_use"), "id" := String(callId), "name" := String(name)];
    StartDecodes(BlockStartJson(index, tool), Object(tool), index);
    assert GetString(Object(tool), "type") == Some("server_tool_use");
    assert GetString(Object(tool), "id") == Some(callId) && GetString(Object(tool), "name") == Some(name);
  }

  /** A block of text or thinking starts empty. */
  lemma EmptyStarts(index: int, block: map<string, Value>, kind: string)
    requires IsIndex(index) && kind in {"text", "thinking"}
    ensures DecodeEvent(BlockStartJson(index, block["type" := String(kind)])) == Nothing
  {
    hide DecodeEvent, Index;
    var start := block["type" := String(kind)];
    StartDecodes(BlockStartJson(index, start), Object(start), index);
    assert GetString(Object(start), "type") == Some(kind);
  }

  /** An event without an index is for block 0. */
  lemma NoIndexIsZero(f: map<string, Value>)
    ensures DecodeEvent(Object(f - {"index"})) == DecodeEvent(Object(f["index" := Number(0)]))
  {
    hide Index, Get, GetString, DecodeStart, DecodeDelta;
    var (without, zero) := (Object(f - {"index"}), Object(f["index" := Number(0)]));
    ZeroIndex(f);
    forall key | key != "index"
      ensures Get(without, key) == Get(zero, key) && GetString(without, key) == GetString(zero, key)
    {
      OtherFields(f, "index", Number(0), key);
    }
    forall inner: Value
      ensures DecodeStart(without, inner) == DecodeStart(zero, inner) && DecodeDelta(without, inner) == DecodeDelta(zero, inner)
    {
      SameIndex(without, zero, inner);
    }
  }

  lemma SameIndex(v: Value, w: Value, inner: Value)
    requires Index(v) == Index(w)
    ensures DecodeStart(v, inner) == DecodeStart(w, inner) && DecodeDelta(v, inner) == DecodeDelta(w, inner)
  {
    hide Index, GetString;
  }

  lemma ZeroIndex(f: map<string, Value>)
    ensures Index(Object(f - {"index"})) == 0 == Index(Object(f["index" := Number(0)]))
  {
  }

  lemma OtherFields(f: map<string, Value>, key: string, v: Value, other: string)
    requires other != key
    ensures Get(Object(f - {key}), other) == Get(Object(f[key := v]), other) == Get(Object(f), other)
    ensures GetString(Object(f - {key}), other) == GetString(Object(f[key := v]), other) == GetString(Object(f), other)
  {
  }

  lemma EmptyText(f: map<string, Value>, key: string)
    ensures StringOr(GetString(Object(f - {key}), key), "") == "" == StringOr(GetString(Object(f[key := String("")]), key), "")
  {
  }

  /** A text that a tool's start leaves out is empty. */
  lemma NoNameIsEmpty(v: Value, f: map<string, Value>, key: string)
    requires key in {"id", "name"}
    requires GetString(Object(f), "type") in {Some("tool_use"), Some("server_tool_use"), Some("mcp_tool_use")}
    ensures DecodeStart(v, Object(f - {key})) == DecodeStart(v, Object(f[key := String("")]))
  {
    hide Index, GetString, StringOr;
    EmptyText(f, key);
    forall other | other != key
      ensures GetString(Object(f - {key}), other) == GetString(Object(f[key := String("")]), other) == GetString(Object(f), other)
    {
      OtherFields(f, key, String(""), other);
    }
  }

  /** A text that a delta leaves out is empty. */
  lemma NoTextIsEmpty(v: Value, f: map<string, Value>, key: string)
    requires key in {"text", "thinking", "partial_json"}
    ensures DecodeDelta(v, Object(f - {key})) == DecodeDelta(v, Object(f[key := String("")]))
  {
    hide Index, GetString, StringOr;
    EmptyText(f, key);
    forall other | other != key
      ensures GetString(Object(f - {key}), other) == GetString(Object(f[key := String("")]), other)
    {
      OtherFields(f, key, String(""), other);
    }
  }
}
