/** What a whole stream of interleaved block events emits for one tool call or one MCP call. */
module BlockStreams {
  import opened Wrappers
  import opened Text
  import opened Json
  import opened StreamEvents

  // --- what is emitted, and what was streamed --------------------------------------

  function FragmentIn<Details>(contents: seq<Content<Details>>, id: string): string {
    if contents == [] then ""
    else (if contents[0].FunctionCall? && contents[0].callId == id && contents[0].fragment.Some?
          then contents[0].fragment.value else "") + FragmentIn(contents[1..], id)
  }

  /** The argument fragments emitted under a call id, joined. */
  function Fragments<Details>(updates: seq<Update<Details>>, id: string): string {
    if updates == [] then "" else FragmentIn(updates[0].contents, id) + Fragments(updates[1..], id)
  }

  function McpIn<Details>(contents: seq<Content<Details>>, id: string): seq<Content<Details>> {
    if contents == [] then []
    else (if contents[0].McpCall? && contents[0].mcpId == id then [contents[0]] else []) + McpIn(contents[1..], id)
  }

  /** The MCP calls emitted under an id. */
  function McpCalls<Details>(updates: seq<Update<Details>>, id: string): seq<Content<Details>> {
    if updates == [] then [] else McpIn(updates[0].contents, id) + McpCalls(updates[1..], id)
  }

  /** The `partial_json` deltas streamed for a block index, joined. */
  function Deltas(values: seq<Value>, index: int): string {
    if values == [] then ""
    else DeltaOf(DecodeEvent(values[0]), index) + Deltas(values[1..], index)
  }

  function DeltaOf(e: Event, index: int): string {
    if e.InputDelta? && e.index == index then e.partial else ""
  }

  lemma {:induction false} EmittedAppend<Details>(a: seq<Update<Details>>, b: seq<Update<Details>>, id: string)
    ensures Fragments(a + b, id) == Fragments(a, id) + Fragments(b, id)
    ensures McpCalls(a + b, id) == McpCalls(a, id) + McpCalls(b, id)
    decreases |a|
  {
    hide Fragments, McpCalls;
    EmittedStep(a, id);
    if a == [] {
      assert a + b == b;
      assert "" + Fragments(b, id) == Fragments(b, id) && [] + McpCalls(b, id) == McpCalls(b, id);
    } else {
      EmittedStep(a + b, id);
      assert (a + b)[1..] == a[1..] + b && (a + b)[0] == a[0];
      EmittedAppend(a[1..], b, id);
      var (f, m) := (FragmentIn(a[0].contents, id), McpIn(a[0].contents, id));
      assert f + (Fragments(a[1..], id) + Fragments(b, id)) == f + Fragments(a[1..], id) + Fragments(b, id);
      assert m + (McpCalls(a[1..], id) + McpCalls(b, id)) == m + McpCalls(a[1..], id) + McpCalls(b, id);
    }
  }

  lemma EmittedStep<Details>(updates: seq<Update<Details>>, id: string)
    ensures updates == [] ==> Fragments(updates, id) == "" && McpCalls(updates, id) == []
    ensures updates != [] ==>
              && Fragments(updates, id) == FragmentIn(updates[0].contents, id) + Fragments(updates[1..], id)
              && McpCalls(updates, id) == McpIn(updates[0].contents, id) + McpCalls(updates[1..], id)
  {
    hide FragmentIn, McpIn;
  }

  // --- the streams in question --------------------------------------------------------

  predicate HasTool(blocks: map<int, Block>, id: string) {
    exists j :: j in blocks && blocks[j] == Tool(id)
  }

  predicate HasMcp(blocks: map<int, Block>, id: string) {
    exists j :: j in blocks && blocks[j].Mcp? && blocks[j].id == id
  }

  predicate StartsAt(e: Event, index: int) {
    (e.ToolStart? || e.McpStart?) && e.index == index
  }

  predicate StartsTool(e: Event, id: string) {
    e.ToolStart? && e.callId == id
  }

  predicate StartsMcp(e: Event, id: string) {
    e.McpStart? && e.id == id
  }

  /** No error event, and the call id is not used again. */
  predicate ToolIdFree(values: seq<Value>, id: string) {
    forall v :: v in values ==> !IsErrorEvent(v) && !StartsTool(DecodeEvent(v), id)
  }

  predicate McpIdFree(values: seq<Value>, id: string) {
    forall v :: v in values ==> !IsErrorEvent(v) && !StartsMcp(DecodeEvent(v), id)
  }

  predicate IndexFree(values: seq<Value>, index: int) {
    forall v :: v in values ==> !StartsAt(DecodeEvent(v), index)
  }

  predicate NeverStops(values: seq<Value>, index: int) {
    forall v :: v in values ==> DecodeEvent(v) != BlockStop(index)
  }

  // --- one event -----------------------------------------------------------------------

  /** What an optional update emits under an id. */
  function FragmentsOf<Details>(update: Option<Update<Details>>, id: string): string {
    if update.Some? then FragmentIn(update.value.contents, id) else ""
  }

  function McpOf<Details>(update: Option<Update<Details>>, id: string): seq<Content<Details>> {
    if update.Some? then McpIn(update.value.contents, id) else []
  }

  lemma {:induction false} HostedEmitsNothing<Details>(blocks: seq<Value>, id: string)
    ensures FragmentIn<Details>(Hosteds(blocks), id) == "" && McpIn<Details>(Hosteds(blocks), id) == []
    decreases |blocks|
  {
    if blocks != [] {
      assert Hosteds<Details>(blocks)[1..] == Hosteds(blocks[1..]);
      HostedEmitsNothing<Details>(blocks[1..], id);
    }
  }

  lemma EmitsOne<Details>(content: Content<Details>, id: string)
    ensures FragmentIn([content], id)
         == if content.FunctionCall? && content.callId == id && content.fragment.Some? then content.fragment.value else ""
    ensures McpIn([content], id) == if content.McpCall? && content.mcpId == id then [content] else []
  {
    assert [content][1..] == [];
  }

  lemma UsageEmitsNothing<Details, Usage>(c: Conversion<Details, Usage>, usage: Usage, message: Value, v: Option<Value>, id: string)
    ensures FragmentIn(StartUsage(c, usage, message).1, id) == "" && McpIn(StartUsage(c, usage, message).1, id) == []
    ensures FragmentIn(DeltaUsage(c, usage, v).1, id) == "" && McpIn(DeltaUsage(c, usage, v).1, id) == []
  {
  }

  /** An event emits a fragment under `id` only as a delta for a block that is that tool, or under no id. */
  lemma FragmentOfEvent<Details, Usage>(c: Conversion<Details, Usage>, t: Table<Usage>, e: Event, id: string)
    requires id != ""
    ensures FragmentsOf(Apply(c, t, e).1, id)
         == if e.InputDelta? && e.index in t.blocks && t.blocks[e.index] == Tool(id) then e.partial else ""
  {
    hide FragmentIn, McpIn, StartUsage, DeltaUsage, Hosteds;
    var update := Apply(c, t, e).1;
    if e.MessageStart? {
      UsageEmitsNothing(c, t.usage, e.message, None, id);
    } else if e.MessageDelta? {
      UsageEmitsNothing(c, t.usage, Null, e.usage, id);
    } else if e.HostedBlock? {
      HostedEmitsNothing<Details>(c.hostedBlocks(e.block), id);
    } else if update.Some? {
      EmitsOne(update.value.contents[0], id);
    }
  }

  lemma McpOfEvent<Details, Usage>(c: Conversion<Details, Usage>, t: Table<Usage>, e: Event, id: string)
    ensures McpOf(Apply(c, t, e).1, id) ==
            if e.BlockStop? && e.index in t.blocks && t.blocks[e.index].Mcp? && t.blocks[e.index].id == id then
              var block := t.blocks[e.index];
              [McpCall(id, block.name, block.server, McpArguments(block.input))]
            else []
  {
    hide FragmentIn, McpIn, StartUsage, DeltaUsage, Hosteds, McpArguments;
    var update := Apply(c, t, e).1;
    if e.MessageStart? {
      UsageEmitsNothing(c, t.usage, e.message, None, id);
    } else if e.MessageDelta? {
      UsageEmitsNothing(c, t.usage, Null, e.usage, id);
    } else if e.HostedBlock? {
      HostedEmitsNothing<Details>(c.hostedBlocks(e.block), id);
    } else if update.Some? {
      EmitsOne(update.value.contents[0], id);
    }
  }

  // --- a tool call's stream ---------------------------------------------------------

  function Emitting<Details, Usage>(update: Option<Update<Details>>, rest: Handled<Details, Usage>): Handled<Details, Usage> {
    rest.(updates := (if update.Some? then [update.value] else []) + rest.updates)
  }

  /** Updates and table once `values`, which hold no error event, have been handled. */
  lemma HandleFirst<Details, Usage>(c: Conversion<Details, Usage>, s: State<Usage>, values: seq<Value>)
    requires values != [] && !IsErrorEvent(values[0])
    ensures HandleAll(c, s, values) ==
            Emitting(Apply(c, s.table, DecodeEvent(values[0])).1,
                     HandleAll(c, State(Apply(c, s.table, DecodeEvent(values[0])).0, s.paused || FlagsPause(values[0])), values[1..]))
  {
    hide Apply, DecodeEvent;
  }

  lemma EmittedFirst<Details>(update: Option<Update<Details>>, rest: seq<Update<Details>>, id: string)
    ensures Fragments((if update.Some? then [update.value] else []) + rest, id) == FragmentsOf(update, id) + Fragments(rest, id)
    ensures McpCalls((if update.Some? then [update.value] else []) + rest, id) == McpOf(update, id) + McpCalls(rest, id)
  {
    if update.Some? {
      assert ([update.value] + rest)[1..] == rest;
    } else {
      assert [] + rest == rest;
    }
  }

  /** Before its block starts, nothing is emitted under a call id. */
  lemma {:induction false} NothingBeforeStart<Details, Usage>(
      c: Conversion<Details, Usage>, s: State<Usage>, values: seq<Value>, id: string)
    requires id != "" && !HasTool(s.table.blocks, id) && ToolIdFree(values, id)
    ensures var h := HandleAll(c, s, values);
            h.error.None? && Fragments(h.updates, id) == "" && !HasTool(h.state.table.blocks, id)
    decreases |values|
  {
    hide DecodeEvent, HandleAll, Fragments, McpCalls;
    if values == [] {
      HandleNone(c, s, id);
    } else {
      var (table, update) := Apply(c, s.table, DecodeEvent(values[0]));
      assert !IsErrorEvent(values[0]) && !StartsTool(DecodeEvent(values[0]), id);
      HandleFirst(c, s, values);
      FragmentOfEvent(c, s.table, DecodeEvent(values[0]), id);
      var next := State(table, s.paused || FlagsPause(values[0]));
      NothingBeforeStart(c, next, values[1..], id);
      EmittedFirst(update, HandleAll(c, next, values[1..]).updates, id);
    }
  }

  lemma HandleNone<Details, Usage>(c: Conversion<Details, Usage>, s: State<Usage>, id: string)
    ensures HandleAll(c, s, []) == Handled([], None, s)
    ensures Fragments<Details>([], id) == "" && McpCalls<Details>([], id) == []
  {
  }

  /** Index `i` is the tool `id`, and no other index is. */
  predicate IsOnlyTool(blocks: map<int, Block>, i: int, id: string) {
    i in blocks && blocks[i] == Tool(id) && forall j :: j in blocks && j != i ==> blocks[j] != Tool(id)
  }

  /** From its start on, what is emitted under a call id is exactly its index's deltas, its stop included. */
  lemma {:induction false} FragmentsAreDeltas<Details, Usage>(
      c: Conversion<Details, Usage>, s: State<Usage>, values: seq<Value>, i: int, id: string)
    requires id != "" && IsOnlyTool(s.table.blocks, i, id) && ToolIdFree(values, id) && IndexFree(values, i)
    ensures var h := HandleAll(c, s, values);
            h.error.None? && Fragments(h.updates, id) == Deltas(values, i)
    decreases |values|
  {
    hide DecodeEvent, HandleAll, Fragments, McpCalls;
    if values == [] {
      HandleNone(c, s, id);
    } else {
      var (table, update) := Apply(c, s.table, DecodeEvent(values[0]));
      assert !IsErrorEvent(values[0]) && !StartsTool(DecodeEvent(values[0]), id) && !StartsAt(DecodeEvent(values[0]), i);
      HandleFirst(c, s, values);
      FragmentOfEvent(c, s.table, DecodeEvent(values[0]), id);
      var next := State(table, s.paused || FlagsPause(values[0]));
      FragmentsAreDeltas(c, next, values[1..], i, id);
      EmittedFirst(update, HandleAll(c, next, values[1..]).updates, id);
    }
  }

  /**
   In any interleaving of block events, the argument fragments emitted under a tool call's
   id join to exactly the deltas streamed for its index, late ones after its stop included.
   */
  lemma ToolArgumentsComplete<Details, Usage>(
      c: Conversion<Details, Usage>, s: State<Usage>, before: seq<Value>, start: Value, after: seq<Value>,
      i: int, id: string, name: string)
    requires id != "" && !HasTool(s.table.blocks, id)
    requires DecodeEvent(start) == ToolStart(i, id, name) && !IsErrorEvent(start)
    requires ToolIdFree(before, id) && ToolIdFree(after, id) && IndexFree(after, i)
    ensures var h := HandleAll(c, s, before + [start] + after);
            h.error.None? && Fragments(h.updates, id) == Deltas(after, i)
  {
    hide DecodeEvent, Fragments, McpCalls, HandleAll;
    NothingBeforeStart(c, s, before, id);
    var h := HandleAll(c, s, before);
    assert before + [start] + after == before + ([start] + after);
    HandleAllAppend(c, s, before, [start] + after);
    assert ([start] + after)[1..] == after;
    HandleFirst(c, h.state, [start] + after);
    var (table, update) := Apply(c, h.state.table, DecodeEvent(start));
    var next := State(table, h.state.paused || FlagsPause(start));
    FragmentOfEvent(c, h.state.table, DecodeEvent(start), id);
    FragmentsAreDeltas(c, next, after, i, id);
    EmittedFirst(update, HandleAll(c, next, after).updates, id);
    EmittedAppend(h.updates, HandleAll(c, h.state, [start] + after).updates, id);
  }

  // --- an MCP call's stream -----------------------------------------------------------

  lemma {:induction false} NoMcpCalls<Details, Usage>(
      c: Conversion<Details, Usage>, s: State<Usage>, values: seq<Value>, id: string)
    requires !HasMcp(s.table.blocks, id) && McpIdFree(values, id)
    ensures var h := HandleAll(c, s, values);
            h.error.None? && McpCalls(h.updates, id) == [] && !HasMcp(h.state.table.blocks, id)
    decreases |values|
  {
    hide DecodeEvent, HandleAll, Fragments, McpCalls;
    if values == [] {
      HandleNone(c, s, id);
    } else {
      var (table, update) := Apply(c, s.table, DecodeEvent(values[0]));
      assert !IsErrorEvent(values[0]) && !StartsMcp(DecodeEvent(values[0]), id);
      HandleFirst(c, s, values);
      McpOfEvent(c, s.table, DecodeEvent(values[0]), id);
      var next := State(table, s.paused || FlagsPause(values[0]));
      NoMcpCalls(c, next, values[1..], id);
      EmittedFirst(update, HandleAll(c, next, values[1..]).updates, id);
    }
  }

  /** Index `i` buffers the MCP call `block`, and no other index has its id. */
  predicate IsOnlyMcp(blocks: map<int, Block>, i: int, block: Block) {
    && block.Mcp? && i in blocks && blocks[i] == block
    && forall j :: j in blocks && j != i && blocks[j].Mcp? ==> blocks[j].id != block.id
  }

  lemma McpGrows<Details, Usage>(c: Conversion<Details, Usage>, t: Table<Usage>, e: Event, i: int, block: Block)
    requires IsOnlyMcp(t.blocks, i, block)
    requires !StartsMcp(e, block.id) && !StartsAt(e, i) && e != BlockStop(i)
    ensures IsOnlyMcp(Apply(c, t, e).0.blocks, i, block.(input := block.input + DeltaOf(e, i)))
    ensures McpOf(Apply(c, t, e).1, block.id) == []
  {
    StillOnlyMcp(c, t, e, i, block);
    hide Apply, IsOnlyMcp, DeltaOf, McpOf;
    McpOfEvent(c, t, e, block.id);
    OnlyOneStops(t.blocks, e, i, block);
  }

  lemma StillOnlyMcp<Details, Usage>(c: Conversion<Details, Usage>, t: Table<Usage>, e: Event, i: int, block: Block)
    requires IsOnlyMcp(t.blocks, i, block)
    requires !StartsMcp(e, block.id) && !StartsAt(e, i) && e != BlockStop(i)
    ensures IsOnlyMcp(Apply(c, t, e).0.blocks, i, block.(input := block.input + DeltaOf(e, i)))
  {
    hide StartUsage, DeltaUsage, Hosteds, McpArguments;
    assert block.input + "" == block.input;
  }

  lemma OnlyOneStops(blocks: map<int, Block>, e: Event, i: int, block: Block)
    requires IsOnlyMcp(blocks, i, block) && e != BlockStop(i)
    ensures !(e.BlockStop? && e.index in blocks && blocks[e.index].Mcp? && blocks[e.index].id == block.id)
  {
  }

  lemma NoDeltas(i: int, input: string)
    ensures input + Deltas([], i) == input
  {
  }

  lemma DeltasFirst(values: seq<Value>, i: int, input: string)
    requires values != []
    ensures input + DeltaOf(DecodeEvent(values[0]), i) + Deltas(values[1..], i) == input + Deltas(values, i)
  {
    hide DecodeEvent, DeltaOf;
    var (first, rest) := (DeltaOf(DecodeEvent(values[0]), i), Deltas(values[1..], i));
    assert input + first + rest == input + (first + rest);
  }

  /** Until its block stops an MCP call emits nothing, and buffers every delta. */
  lemma {:induction false} McpBuffers<Details, Usage>(
      c: Conversion<Details, Usage>, s: State<Usage>, values: seq<Value>, i: int, block: Block)
    requires block.Mcp? && IsOnlyMcp(s.table.blocks, i, block)
    requires McpIdFree(values, block.id) && IndexFree(values, i) && NeverStops(values, i)
    ensures var h := HandleAll(c, s, values);
            && h.error.None? && McpCalls(h.updates, block.id) == []
            && IsOnlyMcp(h.state.table.blocks, i, block.(input := block.input + Deltas(values, i)))
    decreases |values|
  {
    hide DecodeEvent, HandleAll, Fragments, McpCalls, Apply, IsOnlyMcp, McpOf, IsErrorEvent, Deltas, DeltaOf;
    if values == [] {
      HandleNone(c, s, block.id);
      NoDeltas(i, block.input);
    } else {
      var e := DecodeEvent(values[0]);
      var (table, update) := Apply(c, s.table, e);
      assert !IsErrorEvent(values[0]) && !StartsMcp(e, block.id) && !StartsAt(e, i) && e != BlockStop(i);
      HandleFirst(c, s, values);
      var next := State(table, s.paused || FlagsPause(values[0]));
      var grown := block.(input := block.input + DeltaOf(e, i));
      McpGrows(c, s.table, e, i, block);
      McpBuffers(c, next, values[1..], i, grown);
      var rest := HandleAll(c, next, values[1..]);
      assert HandleAll(c, s, values) == Emitting(update, rest);
      EmittedFirst(update, rest.updates, block.id);
      assert McpCalls(HandleAll(c, s, values).updates, block.id) == [] + [];
      DeltasFirst(values, i, block.input);
      assert grown.(input := grown.input + Deltas(values[1..], i)) == block.(input := block.input + Deltas(values, i));
    }
  }

  predicate IsBlankChar(c: char) {
    c == ' ' || c == '\t' || c == '\n' || c == '\r' || c == '\U{0B}' || c == '\U{0C}'
  }

  predicate IsBlank(s: string) {
    forall c :: c in s ==> IsBlankChar(c)
  }

  lemma ArgumentsAreWhole(input: string)
    ensures McpArguments(input) == if IsBlank(input) then NoArguments else Raw(input)
  {
    hide TrimStart, TrimEnd, IsBlank;
    StartTrims(input);
    EndTrims(TrimStart(input));
  }

  lemma EndTrims(s: string)
    requires s != "" ==> s[0] !in WHITESPACE
    ensures TrimEnd(s) == "" <==> s == ""
  {
  }

  lemma {:induction false} StartTrims(s: string)
    ensures TrimStart(s) == "" <==> IsBlank(s)
    decreases |s|
  {
    hide IsBlank;
    if s == "" {
      BlankStep(s);
    } else {
      BlankStep(s);
      StartTrims(s[1..]);
    }
  }

  lemma BlankCharIs(c: char)
    ensures IsBlankChar(c) <==> c in WHITESPACE
  {
  }

  lemma BlankStep(s: string)
    ensures IsBlank(s) <==> s == "" || (s[0] in WHITESPACE && IsBlank(s[1..]))
  {
    hide IsBlankChar;
    if s != "" {
      assert s == [s[0]] + s[1..];
      BlankCharIs(s[0]);
    }
  }

  /**
   In any interleaving of block events an MCP call emits nothing before its block stops,
   and then exactly one call, whole: its arguments are all the deltas of its index joined,
   or none if those are blank.
   */
  lemma McpCallIsWhole<Details, Usage>(
      c: Conversion<Details, Usage>, s: State<Usage>, before: seq<Value>, start: Value, mid: seq<Value>, stop: Value,
      after: seq<Value>, i: int, id: string, name: string, server: Option<string>)
    requires !HasMcp(s.table.blocks, id)
    requires DecodeEvent(start) == McpStart(i, id, name, server) && !IsErrorEvent(start)
    requires DecodeEvent(stop) == BlockStop(i) && !IsErrorEvent(stop)
    requires McpIdFree(before, id) && McpIdFree(mid, id) && McpIdFree(after, id)
    requires IndexFree(mid, i) && NeverStops(mid, i)
    ensures McpCalls(HandleAll(c, s, before + [start] + mid).updates, id) == []
    ensures var h := HandleAll(c, s, before + [start] + mid + ([stop] + after));
            && h.error.None?
            && McpCalls(h.updates, id)
               == [McpCall(id, name, server, if IsBlank(Deltas(mid, i)) then NoArguments else Raw(Deltas(mid, i)))]
  {
    hide DecodeEvent, Fragments, McpCalls, HandleAll, McpArguments, IsBlank;
    ArgumentsAreWhole(Deltas(mid, i));
    McpOpens(c, s, before, start, mid, i, id, name, server);
    var block := Mcp(id, name, server, Deltas(mid, i));
    var h := HandleAll(c, s, before + [start] + mid);
    HandleAllAppend(c, s, before + [start] + mid, [stop] + after);
    assert ([stop] + after)[1..] == after;
    HandleFirst(c, h.state, [stop] + after);
    var (table, update) := Apply(c, h.state.table, DecodeEvent(stop));
    var next := State(table, h.state.paused || FlagsPause(stop));
    McpOfEvent(c, h.state.table, DecodeEvent(stop), id);
    NoMcpCalls(c, next, after, id);
    EmittedFirst(update, HandleAll(c, next, after).updates, id);
    EmittedAppend(h.updates, HandleAll(c, h.state, [stop] + after).updates, id);
  }

  lemma McpOpens<Details, Usage>(
      c: Conversion<Details, Usage>, s: State<Usage>, before: seq<Value>, start: Value, mid: seq<Value>,
      i: int, id: string, name: string, server: Option<string>)
    requires !HasMcp(s.table.blocks, id)
    requires DecodeEvent(start) == McpStart(i, id, name, server) && !IsErrorEvent(start)
    requires McpIdFree(before, id) && McpIdFree(mid, id) && IndexFree(mid, i) && NeverStops(mid, i)
    ensures var h := HandleAll(c, s, before + [start] + mid);
            && h.error.None? && McpCalls(h.updates, id) == []
            && IsOnlyMcp(h.state.table.blocks, i, Mcp(id, name, server, Deltas(mid, i)))
  {
    hide DecodeEvent, Fragments, McpCalls, HandleAll;
    NoMcpCalls(c, s, before, id);
    var h := HandleAll(c, s, before);
    assert before + [start] + mid == before + ([start] + mid);
    HandleAllAppend(c, s, before, [start] + mid);
    assert ([start] + mid)[1..] == mid;
    HandleFirst(c, h.state, [start] + mid);
    var (table, update) := Apply(c, h.state.table, DecodeEvent(start));
    var next := State(table, h.state.paused || FlagsPause(start));
    var block := Mcp(id, name, server, "");
    assert IsOnlyMcp(table.blocks, i, block);
    McpBuffers(c, next, mid, i, block);
    assert "" + Deltas(mid, i) == Deltas(mid, i);
    EmittedFirst(update, HandleAll(c, next, mid).updates, id);
    EmittedAppend(h.updates, HandleAll(c, h.state, [start] + mid).updates, id);
  }

  // --- the same of the events as the service writes them ---------------------------------

  predicate AreWritable(events: seq<Event>) {
    forall e :: e in events ==> IsWritable(e)
  }

  /** The deltas among some events for an index, joined. */
  function EventDeltas(events: seq<Event>, i: int): string {
    if events == [] then "" else DeltaOf(events[0], i) + EventDeltas(events[1..], i)
  }

  lemma {:induction false} WrittenDeltas(events: seq<Event>, i: int)
    requires AreWritable(events)
    ensures Deltas(Written(events), i) == EventDeltas(events, i)
    decreases |events|
  {
    hide DecodeEvent, EventJson, IsWritable;
    if events != [] {
      assert events[0] in events;
      EventJsonDecodes(events[0]);
      assert Written(events)[1..] == Written(events[1..]);
      WrittenDeltas(events[1..], i);
    }
  }

  lemma WrittenIs(events: seq<Event>, v: Value)
    requires AreWritable(events) && v in Written(events)
    ensures DecodeEvent(v) in events && !IsErrorEvent(v)
  {
    hide DecodeEvent, EventJson, IsWritable;
    var k :| 0 <= k < |events| && Written(events)[k] == v;
    assert events[k] in events;
    EventJsonDecodes(events[k]);
    WrittenIsNoError(events[k]);
  }

  /** A tool call as it goes over the wire, among any other blocks: every fragment of its arguments arrives, in order. */
  lemma WrittenToolCall<Details, Usage>(
      c: Conversion<Details, Usage>, s: State<Usage>, before: seq<Event>, i: int, id: string, name: string, after: seq<Event>)
    requires AreWritable(before) && AreWritable(after) && IsIndex(i) && id != "" && !HasTool(s.table.blocks, id)
    requires forall e :: e in before || e in after ==> !StartsTool(e, id)
    requires forall e :: e in after ==> !StartsAt(e, i)
    ensures var h := HandleAll(c, s, Written(before) + [EventJson(ToolStart(i, id, name))] + Written(after));
            h.error.None? && Fragments(h.updates, id) == EventDeltas(after, i)
  {
    hide DecodeEvent, EventJson, HandleAll, Fragments;
    EventJsonDecodes(ToolStart(i, id, name));
    WrittenIsNoError(ToolStart(i, id, name));
    forall v | v in Written(before)
      ensures !IsErrorEvent(v) && !StartsTool(DecodeEvent(v), id)
    {
      WrittenIs(before, v);
    }
    forall v | v in Written(after)
      ensures !IsErrorEvent(v) && !StartsTool(DecodeEvent(v), id) && !StartsAt(DecodeEvent(v), i)
    {
      WrittenIs(after, v);
    }
    WrittenDeltas(after, i);
    ToolArgumentsComplete(c, s, Written(before), EventJson(ToolStart(i, id, name)), Written(after), i, id, name);
  }

  /** An MCP call as it goes over the wire, among any other blocks: exactly one call, whole. */
  lemma WrittenMcpCall<Details, Usage>(
      c: Conversion<Details, Usage>, s: State<Usage>, before: seq<Event>, i: int, id: string, name: string,
      server: Option<string>, mid: seq<Event>, after: seq<Event>)
    requires AreWritable(before) && AreWritable(mid) && AreWritable(after) && IsIndex(i) && !HasMcp(s.table.blocks, id)
    requires forall e :: e in before || e in mid || e in after ==> !StartsMcp(e, id)
    requires forall e :: e in mid ==> !StartsAt(e, i) && e != BlockStop(i)
    ensures var open := Written(before) + [EventJson(McpStart(i, id, name, server))] + Written(mid);
            var h := HandleAll(c, s, open + ([EventJson(BlockStop(i))] + Written(after)));
            && h.error.None?
            && McpCalls(h.updates, id)
               == [McpCall(id, name, server, if IsBlank(EventDeltas(mid, i)) then NoArguments else Raw(EventDeltas(mid, i)))]
  {
    hide DecodeEvent, EventJson, HandleAll, McpCalls, IsBlank;
    EventJsonDecodes(McpStart(i, id, name, server));
    WrittenIsNoError(McpStart(i, id, name, server));
    EventJsonDecodes(BlockStop(i));
    WrittenIsNoError(BlockStop(i));
    forall v | v in Written(before) || v in Written(after)
      ensures !IsErrorEvent(v) && !StartsMcp(DecodeEvent(v), id)
    {
      if v in Written(before) {
        WrittenIs(before, v);
      } else {
        WrittenIs(after, v);
      }
    }
    forall v | v in Written(mid)
      ensures !IsErrorEvent(v) && !StartsMcp(DecodeEvent(v), id) && !StartsAt(DecodeEvent(v), i) && DecodeEvent(v) != BlockStop(i)
    {
      WrittenIs(mid, v);
    }
    WrittenDeltas(mid, i);
    McpCallIsWhole(c, s, Written(before), EventJson(McpStart(i, id, name, server)), Written(mid),
                   EventJson(BlockStop(i)), Written(after), i, id, name, server);
  }
}
