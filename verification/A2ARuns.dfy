/** One run of a remote A2A agent, answered at once or streamed, and the session it leaves. */
module A2ARuns {
  import opened Wrappers
  import opened Json
  import Utf8
  import opened A2AAgent
  import Wire = A2AWire
  import Frames = SseFrames

  // --- events as updates ------------------------------------------------------------------

  type UpdateItem = Result<Update, Failure>

  function EventSources(e: Wire.Event): seq<Source> {
    match e
    case MessageEvent(m) => [Said(m)]
    case TaskEvent(t) => Shown(t)
    case StatusEvent(u) => if u.status.message.Some? then [Said(u.status.message.value)] else []
    case ArtifactEvent(u) => [Produced(u.artifact)]
  }

  /** The agent's name, where a message carries none of its own. */
  function Named(m: ChatMessage, name: Option<string>): ChatMessage {
    m.(authorName := if m.authorName.Some? then m.authorName else name)
  }

  function NamedAll(messages: seq<ChatMessage>, name: Option<string>): (r: seq<ChatMessage>)
    ensures |r| == |messages|
    ensures forall i :: 0 <= i < |r| ==> r[i] == Named(messages[i], name)
  {
    seq(|messages|, i requires 0 <= i < |messages| => Named(messages[i], name))
  }

  /** A named message as an update of a response. */
  function AsUpdate(m: ChatMessage, responseId: Option<string>): Update {
    Update(m.contents, Some(m.role), m.authorName, m.messageId, responseId)
  }

  function AsUpdates(messages: seq<ChatMessage>, responseId: Option<string>): (r: seq<UpdateItem>)
    ensures |r| == |messages|
    ensures forall i :: 0 <= i < |r| ==> r[i] == Ok(AsUpdate(messages[i], responseId))
  {
    seq(|messages|, i requires 0 <= i < |messages| => Ok(AsUpdate(messages[i], responseId)))
  }

  /** An update that only tells which response, or task, it belongs to. */
  function BareUpdate(responseId: string): Update {
    Update([], None, None, None, Some(responseId))
  }

  /** The updates of one event: one per message it shows, and at least one if it concerns a task. */
  function UpdatesOf(codec: Codec, e: Wire.Event, name: Option<string>): seq<UpdateItem> {
    match AllToChat(codec, EventSources(e))
    case Err(failure) => [Err(failure)]
    case Ok(messages) =>
      if messages == [] && !e.MessageEvent? then [Ok(BareUpdate(ResponseId(e)))]
      else AsUpdates(NamedAll(messages, name), Some(ResponseId(e)))
  }

  function MessageToUpdate(m: ChatMessage, name: Option<string>): Update {
    Update(m.contents, Some(m.role), if m.authorName.Some? then m.authorName else name, m.messageId, None)
  }

  function WrapMessage(r: Result<ChatMessage, Failure>, name: Option<string>): seq<UpdateItem> {
    match r
    case Ok(m) => [Ok(MessageToUpdate(m, name))]
    case Err(e) => [Err(e)]
  }

  function WithResponseId(item: UpdateItem, responseId: Option<string>): UpdateItem {
    match item
    case Ok(update) => Ok(update.(responseId := responseId))
    case Err(e) => Err(e)
  }

  method StreamEventToUpdates(codec: Codec, event: Wire.Event, state: ThreadState, name: Option<string>)
      returns (updates: seq<UpdateItem>, next: ThreadState)
    ensures next == After(state, event)
    ensures updates == UpdatesOf(codec, event, name)
  {
    hide ToChat, AllToChat, Shown;
    next := state;
    var responseId: Option<string>;
    match event {
      case MessageEvent(m) =>
        if m.contextId.Some? {
          next := next.(contextId := m.contextId);
        }
        next := next.(taskId := m.taskId);
        OneToChat(codec, Said(m));
        updates := WrapMessage(ToChat(codec, Said(m)), name);
        responseId := Some(m.messageId);
      case TaskEvent(t) =>
        next := ThreadState(Some(t.contextId), Some(t.id));
        var messages := TaskToChatMessages(codec, t);
        match messages {
          case Ok(ms) => updates := seq(|ms|, i requires 0 <= i < |ms| => Ok(MessageToUpdate(ms[i], name)));
          case Err(e) => updates := [Err(e)];
        }
        responseId := Some(t.id);
      case StatusEvent(u) =>
        next := ThreadState(Some(u.contextId), Some(u.taskId));
        NothingToChat(codec);
        if u.status.message.Some? {
          OneToChat(codec, Said(u.status.message.value));
          updates := WrapMessage(ToChat(codec, Said(u.status.message.value)), name);
        } else {
          updates := [];
        }
        responseId := Some(u.taskId);
      case ArtifactEvent(u) =>
        next := ThreadState(Some(u.contextId), Some(u.taskId));
        OneToChat(codec, Produced(u.artifact));
        updates := WrapMessage(ToChat(codec, Produced(u.artifact)), name);
        responseId := Some(u.taskId);
    }
    updates := seq(|updates|, i requires 0 <= i < |updates| => WithResponseId(updates[i], responseId));
    var isTaskBearing := event.TaskEvent? || event.StatusEvent? || event.ArtifactEvent?;
    if updates == [] && isTaskBearing && responseId.Some? {
      updates := updates + [Ok(Update([], None, None, None, responseId))];
    }
  }

  /** Every event of a task yields an update, and every update names its response. */
  lemma EventsYield(codec: Codec, e: Wire.Event, name: Option<string>)
    ensures !e.MessageEvent? ==> UpdatesOf(codec, e, name) != []
    ensures forall u :: u in UpdatesOf(codec, e, name) && u.Ok? ==> u.value.responseId == Some(ResponseId(e))
  {
    hide AllToChat, EventSources;
  }

  // --- a run answered at once ------------------------------------------------------------------

  datatype Response = Response(messages: seq<ChatMessage>, responseId: Option<string>)

  /** The event that would stream the same answer. */
  function AsEvent(r: Wire.SendResult): Wire.Event {
    match r
    case MessageResult(m) => Wire.MessageEvent(m)
    case TaskResult(t) => Wire.TaskEvent(t)
  }

  type Sender = Wire.Message -> Result<Wire.SendResult, Frames.Failure>

  /** What a run makes of the remote agent's answer: the response, and the continuity to persist. */
  function Answered(codec: Codec, raw: Option<string>, result: Wire.SendResult, name: Option<string>)
      : (Result<Response, Failure>, Option<string>)
  {
    var e := AsEvent(result);
    match AllToChat(codec, EventSources(e))
    case Err(failure) => (Err(failure), raw)
    case Ok(messages) =>
      (Ok(Response(NamedAll(messages, name), Some(ResponseId(e)))), Stored(codec, raw, After(Decode(codec, raw), e)))
  }

  /** A whole run: of the messages the last alone goes out, and a run that fails leaves the session alone. */
  function RunOutcome(
      codec: Codec, raw: Option<string>, messages: seq<ChatMessage>, freshId: string, send: Sender, name: Option<string>)
      : (Result<Response, Failure>, Option<string>)
  {
    if messages == [] then (Err(NoMessages), raw)
    else
      match ToWire(messages[|messages| - 1], Decode(codec, raw), freshId)
      case Err(failure) => (Err(failure), raw)
      case Ok(outgoing) =>
        match send(outgoing)
        case Err(failure) => (Err(Remote(failure)), raw)
        case Ok(result) => Answered(codec, raw, result, name)
  }

  class AgentSession {
    var serviceSessionId: Option<string>

    constructor (serviceSessionId: Option<string>)
      ensures this.serviceSessionId == serviceSessionId
    {
      this.serviceSessionId := serviceSessionId;
    }
  }

  method Run(codec: Codec, session: AgentSession, messages: seq<ChatMessage>, freshId: string, send: Sender, name: Option<string>)
      returns (r: Result<Response, Failure>)
    modifies session
    ensures (r, session.serviceSessionId) == RunOutcome(codec, old(session.serviceSessionId), messages, freshId, send, name)
  {
    hide ToChat, AllToChat, Shown, ToWire, Decode, Encode;
    if messages == [] {
      return Err(NoMessages);
    }
    var state := Decode(codec, session.serviceSessionId);
    var outgoing := ChatMessageToWire(messages[|messages| - 1], state, freshId);
    if outgoing.Err? {
      return Err(outgoing.error);
    }
    var reply := send(outgoing.value);
    if reply.Err? {
      return Err(Remote(reply.error));
    }
    var out: seq<ChatMessage>;
    var responseId: string;
    var next: ThreadState;
    match reply.value {
      case MessageResult(m) =>
        responseId := m.messageId;
        next := ThreadState(if m.contextId.Some? then m.contextId else state.contextId, m.taskId);
        OneToChat(codec, Said(m));
        var message := ToChat(codec, Said(m));
        if message.Err? {
          return Err(message.error);
        }
        out := [message.value];
      case TaskResult(t) =>
        responseId := t.id;
        next := ThreadState(Some(t.contextId), Some(t.id));
        var shown := TaskToChatMessages(codec, t);
        if shown.Err? {
          return Err(shown.error);
        }
        out := shown.value;
    }
    ghost var unnamed := out;
    var encoded := Encode(codec, next);
    if encoded.Some? {
      session.serviceSessionId := encoded;
    }
    out := NameMessages(out, name);
    assert out == NamedAll(unnamed, name);
    r := Ok(Response(out, Some(responseId)));
  }

  /** Names the messages that carry no author yet. */
  method NameMessages(messages: seq<ChatMessage>, name: Option<string>) returns (named: seq<ChatMessage>)
    ensures named == NamedAll(messages, name)
  {
    named := messages;
    if name.Some? {
      for i := 0 to |named|
        invariant |named| == |messages|
        invariant forall k :: 0 <= k < i ==> named[k] == Named(messages[k], name)
        invariant forall k :: i <= k < |named| ==> named[k] == messages[k]
      {
        if named[i].authorName.None? {
          named := named[i := named[i].(authorName := name)];
        }
      }
    }
  }

  // --- a run streamed ------------------------------------------------------------------------------

  /** The updates of an event stream, up to its first error and with it. */
  function Forwarded(codec: Codec, inner: seq<Frames.Item>, name: Option<string>): seq<UpdateItem> {
    if inner == [] then []
    else
      match inner[0]
      case Err(failure) => [Err(Remote(failure))]
      case Ok(e) => UpdatesOf(codec, e, name) + Forwarded(codec, inner[1..], name)
  }

  /** The events before the first error of a stream. */
  function EventsBefore(inner: seq<Frames.Item>): seq<Wire.Event> {
    if inner == [] || inner[0].Err? then [] else [inner[0].value] + EventsBefore(inner[1..])
  }

  /** The state that forwards an event stream, and persists the continuity once the stream is exhausted. */
  class A2AForward {
    const codec: Codec
    const session: AgentSession
    const name: Option<string>
    var inner: seq<Frames.Item>
    var queue: seq<UpdateItem>
    var state: ThreadState
    var held: bool
    var done: bool

    /** The items still to come. */
    function Rest(): seq<UpdateItem>
      reads this
    {
      queue + if done then [] else Forwarded(codec, inner, name)
    }

    /** The continuity once the stream is exhausted. */
    function Final(): ThreadState
      reads this
    {
      if done then state else AfterAll(state, EventsBefore(inner))
    }

    constructor (codec: Codec, session: AgentSession, inner: seq<Frames.Item>, state: ThreadState, name: Option<string>)
      ensures this.codec == codec && this.session == session && held
      ensures Rest() == Forwarded(codec, inner, name) && Final() == AfterAll(state, EventsBefore(inner))
    {
      this.codec, this.session, this.name := codec, session, name;
      this.inner, this.state := inner, state;
      queue, held, done := [], true, false;
      new;
      assert [] + Rest() == Rest();
    }

    /** Writes the continuity onto the session, which is let go. */
    method Persist()
      modifies this`held, session
      ensures !held
      ensures session.serviceSessionId
              == if old(held) then Stored(codec, old(session.serviceSessionId), state) else old(session.serviceSessionId)
    {
      if held {
        held := false;
        var encoded := Encode(codec, state);
        if encoded.Some? {
          session.serviceSessionId := encoded;
        }
      }
    }

    /** Takes one event or error of the inner stream. */
    method PollInner()
      requires queue == [] && !done
      modifies this`inner, this`queue, this`state, this`done
      ensures Rest() == old(Rest()) && Final() == old(Final())
      ensures done || |inner| < |old(inner)|
    {
      hide UpdatesOf, After, Forwarded, AfterAll, EventsBefore;
      ForwardStep(codec, inner, name, state);
      if inner == [] {
        done := true;
        return;
      }
      var polled := inner[0];
      inner := inner[1..];
      match polled {
        case Ok(event) =>
          var updates, next := StreamEventToUpdates(codec, event, state, name);
          state := next;
          queue := queue + updates;
        case Err(failure) =>
          done := true;
          queue := queue + [Err(Remote(failure))];
      }
    }

    /**
     One poll: the next item still to come, or nothing once there is none. The session is
     written when nothing is left, and only the first time.
     */
    method Next() returns (item: Option<UpdateItem>)
      modifies this, session
      ensures item.Some? ==> [item.value] + Rest() == old(Rest()) && Final() == old(Final()) && held == old(held)
      ensures item.None? ==> old(Rest()) == [] && Rest() == [] && !held
      ensures session.serviceSessionId
              == if item.None? && old(held) then Stored(codec, old(session.serviceSessionId), old(Final()))
                 else old(session.serviceSessionId)
    {
      hide UpdatesOf, After, Encode, Stored, Forwarded, AfterAll, EventsBefore;
      ghost var whole, final := Rest(), Final();
      while true
        invariant Rest() == whole && Final() == final
        invariant held == old(held) && session.serviceSessionId == old(session.serviceSessionId)
        decreases !done, |inner|
      {
        if queue != [] {
          item := Some(queue[0]);
          assert queue == [queue[0]] + queue[1..];
          queue := queue[1..];
          return;
        }
        if done {
          Persist();
          return None;
        }
        PollInner();
      }
    }
  }

  lemma ForwardStep(codec: Codec, inner: seq<Frames.Item>, name: Option<string>, s: ThreadState)
    ensures inner == [] ==> Forwarded(codec, inner, name) == [] && AfterAll(s, EventsBefore(inner)) == s
    ensures inner != [] && inner[0].Err? ==>
              Forwarded(codec, inner, name) == [Err(Remote(inner[0].error))] && AfterAll(s, EventsBefore(inner)) == s
    ensures inner != [] && inner[0].Ok? ==>
              && Forwarded(codec, inner, name) == UpdatesOf(codec, inner[0].value, name) + Forwarded(codec, inner[1..], name)
              && AfterAll(s, EventsBefore(inner)) == AfterAll(After(s, inner[0].value), EventsBefore(inner[1..]))
  {
    hide UpdatesOf, After;
    if inner != [] && inner[0].Ok? {
      assert ([inner[0].value] + EventsBefore(inner[1..]))[1..] == EventsBefore(inner[1..]);
    }
  }

  /** Polls a forwarded stream to its end. */
  method Drain(stream: A2AForward) returns (items: seq<UpdateItem>)
    requires stream.held
    modifies stream, stream.session
    ensures items == old(stream.Rest())
    ensures stream.session.serviceSessionId
            == Stored(stream.codec, old(stream.session.serviceSessionId), old(stream.Final()))
  {
    hide *;
    items := [];
    ghost var whole, final := stream.Rest(), stream.Final();
    assert [] + whole == whole;
    while true
      invariant items + stream.Rest() == whole && stream.Final() == final && stream.held
      invariant stream.session.serviceSessionId == old(stream.session.serviceSessionId)
      decreases |stream.Rest()|
    {
      ghost var left := stream.Rest();
      var item := stream.Next();
      if item.None? {
        assert items + left == items;
        return;
      }
      assert items + ([item.value] + stream.Rest()) == items + [item.value] + stream.Rest();
      items := items + [item.value];
    }
  }

  // --- an answer at once and the same answer streamed ---------------------------------------------

  /** A response as updates: one for each message, and a bare one if there is none. */
  function ResponseUpdates(r: Response): seq<UpdateItem>
    requires r.responseId.Some?
  {
    if r.messages == [] then [Ok(BareUpdate(r.responseId.value))] else AsUpdates(r.messages, r.responseId)
  }

  /** The session's text after the stream of one answer. */
  function StoredByStream(codec: Codec, raw: Option<string>, result: Wire.SendResult): Option<string> {
    Stored(codec, raw, AfterAll(Decode(codec, raw), EventsBefore([Ok(AsEvent(result))])))
  }

  /**
   A run and the stream of the same answer give the same messages under one response id, or
   the same failure. A failing run leaves the session alone and the stream does not: they
   store alike exactly when all data converts, or the state it leaves is nothing new.
   */
  lemma RunAndStreamAgree(
      codec: Codec, raw: Option<string>, messages: seq<ChatMessage>, freshId: string, send: Sender, name: Option<string>,
      outgoing: Wire.Message, result: Wire.SendResult)
    requires messages != [] && ToWire(messages[|messages| - 1], Decode(codec, raw), freshId) == Ok(outgoing)
    requires send(outgoing) == Ok(result)
    ensures var (r, stored) := RunOutcome(codec, raw, messages, freshId, send, name);
            && (r.Ok? <==> Converts(codec, EventSources(AsEvent(result))))
            && (r.Ok? ==> r.value.responseId.Some?)
            && Forwarded(codec, [Ok(AsEvent(result))], name) == (if r.Ok? then ResponseUpdates(r.value) else [Err(r.error)])
            && (stored == StoredByStream(codec, raw, result)
                <==> (|| Converts(codec, EventSources(AsEvent(result)))
                      || Encode(codec, After(Decode(codec, raw), AsEvent(result))) in [None, raw]))
  {
    hide AllToChat, Shown, Encode, Decode, ToWire, Converts;
    var e := AsEvent(result);
    ConvertsExactly(codec, EventSources(e));
    OneEvent(codec, e, name, Decode(codec, raw));
    if result.MessageResult? {
      ChatLength(codec, [Said(result.message)]);
    }
  }

  lemma OneEvent(codec: Codec, e: Wire.Event, name: Option<string>, s: ThreadState)
    ensures Forwarded(codec, [Ok(e)], name) == UpdatesOf(codec, e, name)
    ensures AfterAll(s, EventsBefore([Ok(e)])) == After(s, e)
  {
    hide UpdatesOf, After;
    var inner: seq<Frames.Item> := [Ok(e)];
    ForwardStep(codec, inner, name, s);
    assert inner[1..] == [];
    ForwardStep(codec, [], name, After(s, e));
    assert UpdatesOf(codec, e, name) + [] == UpdatesOf(codec, e, name);
  }

  /** Where JSON can always be written, a run and its stream store the same. */
  lemma StoreAlike(
      codec: Codec, raw: Option<string>, messages: seq<ChatMessage>, freshId: string, send: Sender, name: Option<string>,
      outgoing: Wire.Message, result: Wire.SendResult)
    requires Faithful(codec)
    requires messages != [] && ToWire(messages[|messages| - 1], Decode(codec, raw), freshId) == Ok(outgoing)
    requires send(outgoing) == Ok(result)
    ensures RunOutcome(codec, raw, messages, freshId, send, name).1 == StoredByStream(codec, raw, result)
  {
    hide RunOutcome, StoredByStream, ToWire, Decode;
    RunAndStreamAgree(codec, raw, messages, freshId, send, name, outgoing, result);
  }

  /** The error branch for data that cannot be written, which no JSON value takes: the run fails, and the stream stores where the answer was. */
  lemma FailedStreamStores(codec: Codec, raw: Option<string>, data: Value, text: string, name: Option<string>)
    requires codec.write(data).None? && raw != Some(text)
    requires codec.write(Object(StateFields(ThreadState(Some("c"), Some("t"))))) == Some(text)
    ensures var part := Wire.DataPart(data, None);
            var m := Wire.Message(Wire.MESSAGE, Wire.Agent, [part], "m", Some("t"), Some("c"), None);
            && Answered(codec, raw, Wire.MessageResult(m), name) == (Err(Unserializable), raw)
            && StoredByStream(codec, raw, Wire.MessageResult(m)) == Some(text)
  {
    hide Decode, StateFields;
    var m := Wire.Message(Wire.MESSAGE, Wire.Agent, [Wire.DataPart(data, None)], "m", Some("t"), Some("c"), None);
    OneToChat(codec, Said(m));
    OneEvent(codec, Wire.MessageEvent(m), name, Decode(codec, raw));
  }

  // --- the whole way from the connection to the session ----------------------------------------------

  /** What a streamed run yields and persists depends on the bytes received, not on how they were cut. */
  lemma CutsDoNotMatter(
      codec: Codec, parse: Parser, a: seq<Utf8.Chunk>, b: seq<Utf8.Chunk>, s: ThreadState, name: Option<string>)
    requires Utf8.Received(a) == Utf8.Received(b) && Frames.BreakOf(a) == Frames.BreakOf(b)
    ensures var (x, y) := (Frames.FromChunks(parse, "", [], a), Frames.FromChunks(parse, "", [], b));
            && Forwarded(codec, x, name) == Forwarded(codec, y, name)
            && AfterAll(s, EventsBefore(x)) == AfterAll(s, EventsBefore(y))
  {
    hide *;
    Frames.NothingYet();
    Frames.ChunksYieldWhole(parse, "", [], a);
    Frames.ChunksYieldWhole(parse, "", [], b);
  }

  /** What a run yields of a server's replies: the updates of its events, up to a refusal and with it. */
  function Yielded(codec: Codec, replies: seq<Frames.Reply>, name: Option<string>): seq<UpdateItem> {
    if replies == [] then []
    else
      match replies[0]
      case Answer(e) => UpdatesOf(codec, e, name) + Yielded(codec, replies[1..], name)
      case Refusal(code, message) => [Err(Remote(Frames.Service(Wire.Rpc(code, message))))]
  }

  /** The events a server sends before it refuses. */
  function Answers(replies: seq<Frames.Reply>): seq<Wire.Event> {
    if replies == [] || replies[0].Refusal? then [] else [replies[0].event] + Answers(replies[1..])
  }

  predicate IsRefused(replies: seq<Frames.Reply>) {
    exists i :: 0 <= i < |replies| && replies[i].Refusal?
  }

  lemma {:induction false} RepliesForwarded(
      codec: Codec, replies: seq<Frames.Reply>, end: seq<Frames.Item>, name: Option<string>)
    requires forall i :: i in end ==> i.Err?
    ensures Forwarded(codec, Frames.ToldAll(replies) + end, name)
            == Yielded(codec, replies, name) + if IsRefused(replies) then [] else Forwarded(codec, end, name)
    decreases |replies|
  {
    hide UpdatesOf;
    if replies == [] {
      assert Frames.ToldAll(replies) + end == end;
    } else {
      hide Frames.ToldAll, IsRefused;
      FirstTold(replies, end);
      if replies[0].Answer? {
        RepliesForwarded(codec, replies[1..], end, name);
        RefusedLater(replies);
      } else {
        RefusedAt(replies, 0);
      }
    }
  }

  lemma {:induction false} AnswersTold(replies: seq<Frames.Reply>, end: seq<Frames.Item>)
    requires forall i :: i in end ==> i.Err?
    ensures EventsBefore(Frames.ToldAll(replies) + end) == Answers(replies)
    decreases |replies|
  {
    if replies == [] {
      assert Frames.ToldAll(replies) + end == end;
    } else {
      hide Frames.ToldAll;
      FirstTold(replies, end);
      AnswersTold(replies[1..], end);
    }
  }

  lemma FirstTold(replies: seq<Frames.Reply>, end: seq<Frames.Item>)
    requires replies != []
    ensures var inner := Frames.ToldAll(replies) + end;
            && inner != [] && inner[0] == Frames.Told(replies[0])
            && inner[1..] == Frames.ToldAll(replies[1..]) + end
  {
    assert Frames.ToldAll(replies) + end == [Frames.Told(replies[0])] + (Frames.ToldAll(replies[1..]) + end);
  }

  lemma RefusedAt(replies: seq<Frames.Reply>, i: nat)
    requires i < |replies| && replies[i].Refusal?
    ensures IsRefused(replies)
  {
  }

  lemma RefusedLater(replies: seq<Frames.Reply>)
    requires replies != [] && replies[0].Answer?
    ensures IsRefused(replies) == IsRefused(replies[1..])
  {
    if IsRefused(replies[1..]) {
      var i :| 0 <= i < |replies[1..]| && replies[1..][i].Refusal?;
      assert replies[i + 1].Refusal?;
    }
    if IsRefused(replies) {
      var i :| 0 <= i < |replies| && replies[i].Refusal?;
      assert replies[1..][i - 1].Refusal?;
    }
  }

  /**
   What a server writes, whatever chunks it arrives in, comes out as the updates of its
   events in order, ended by its refusal or else by the connection's error, if any; and the
   continuity those events leave, once it names a context, is what the session decodes to.
   */
  lemma ServerRepliesRun(
      codec: Codec, write: Value -> string, id: Value, replies: seq<Frames.Reply>, frames: seq<Frames.Frame>,
      partial: string, chunks: seq<Utf8.Chunk>, raw: Option<string>, name: Option<string>)
    requires Faithful(codec) && Frames.IsWriter(codec.parse, write)
    requires forall r :: r in replies ==> Frames.IsSendable(r)
    requires Frames.AreFrames(frames) && Frames.Carried(frames) == Frames.Texts(write, id, replies)
    requires Frames.NextFrame(partial).None?
    requires Utf8.Decode(Utf8.Received(chunks)).text == Frames.StreamOf(frames) + partial
    ensures var inner := Frames.FromChunks(codec.parse, "", [], chunks);
            && Forwarded(codec, inner, name)
               == Yielded(codec, replies, name)
                + (if IsRefused(replies) || Utf8.BreakError(chunks).None? then []
                   else [Err(Remote(Frames.Transport(Utf8.BreakError(chunks).value)))])
            && AfterAll(Decode(codec, raw), EventsBefore(inner)) == AfterAll(Decode(codec, raw), Answers(replies))
    ensures LastContext(Decode(codec, raw).contextId, Answers(replies)).Some? ==>
              var final := AfterAll(Decode(codec, raw), Answers(replies));
              Decode(codec, Stored(codec, raw, final)) == final
  {
    hide *;
    Frames.RepliesArrive(codec.parse, write, id, replies, frames, partial, chunks);
    BreakIsError(chunks);
    RepliesForwarded(codec, replies, Frames.BreakOf(chunks), name);
    AnswersTold(replies, Frames.BreakOf(chunks));
    BreakForwarded(codec, chunks, name);
    var final := AfterAll(Decode(codec, raw), Answers(replies));
    StateAfterAll(Decode(codec, raw), Answers(replies));
    StoredExactly(codec, raw, final);
    ContextIsSomething(final);
  }

  lemma BreakForwarded(codec: Codec, chunks: seq<Utf8.Chunk>, name: Option<string>)
    ensures Forwarded(codec, Frames.BreakOf(chunks), name)
            == match Utf8.BreakError(chunks)
               case None => []
               case Some(e) => [Err(Remote(Frames.Transport(e)))]
  {
  }

  lemma ContextIsSomething(s: ThreadState)
    ensures s.contextId.Some? ==> s != EMPTY
  {
  }

  lemma BreakIsError(chunks: seq<Utf8.Chunk>)
    ensures forall i :: i in Frames.BreakOf(chunks) ==> i.Err?
  {
  }

  // --- what a run asks -----------------------------------------------------------------------------

  /**
   A run asks the remote agent nothing but the last message as it is sent in the stored
   conversation: senders that answer that message alike make no difference.
   */
  lemma RunAsksOnly(
      codec: Codec, raw: Option<string>, messages: seq<ChatMessage>, freshId: string, send: Sender, other: Sender,
      name: Option<string>)
    requires messages != [] ==>
               forall out :: IsSent(messages[|messages| - 1], Decode(codec, raw), freshId, out) ==> send(out) == other(out)
    ensures RunOutcome(codec, raw, messages, freshId, send, name) == RunOutcome(codec, raw, messages, freshId, other, name)
  {
    hide ToWire, IsSent, Decode, Answered;
    if messages != [] {
      var (last, s) := (messages[|messages| - 1], Decode(codec, raw));
      if ToWire(last, s, freshId).Ok? {
        SentExactly(last, s, freshId, ToWire(last, s, freshId).value);
      }
    }
  }

  ghost predicate IsSendable(m: ChatMessage, s: ThreadState, freshId: string) {
    exists out :: IsSent(m, s, freshId, out)
  }

  /** A run without a message, or whose last message cannot be sent, or that is refused, leaves the session alone. */
  lemma RunFails(
      codec: Codec, raw: Option<string>, messages: seq<ChatMessage>, freshId: string, send: Sender, name: Option<string>,
      out: Wire.Message, refusal: Frames.Failure)
    ensures messages == [] ==> RunOutcome(codec, raw, messages, freshId, send, name) == (Err(NoMessages), raw)
    ensures messages != [] && !IsSendable(messages[|messages| - 1], Decode(codec, raw), freshId) ==>
              RunOutcome(codec, raw, messages, freshId, send, name).0.Err?
              && RunOutcome(codec, raw, messages, freshId, send, name).1 == raw
    ensures messages != [] && IsSent(messages[|messages| - 1], Decode(codec, raw), freshId, out) && send(out) == Err(refusal) ==>
              RunOutcome(codec, raw, messages, freshId, send, name) == (Err(Remote(refusal)), raw)
  {
    hide ToWire, IsSent, Decode, Answered;
    if messages != [] {
      var (last, s) := (messages[|messages| - 1], Decode(codec, raw));
      SentExactly(last, s, freshId, out);
      if ToWire(last, s, freshId).Ok? {
        SentExactly(last, s, freshId, ToWire(last, s, freshId).value);
      }
    }
  }

  /** The conversation an answer continues. */
  function Continuing(s: ThreadState, result: Wire.SendResult): ThreadState {
    match result
    case TaskResult(t) => ThreadState(Some(t.contextId), Some(t.id))
    case MessageResult(m) => ThreadState(if m.contextId.Some? then m.contextId else s.contextId, m.taskId)
  }

  /**
   Across runs: after an answer the next run asks only in the context and the task that the
   answer named, unless it named neither and nothing else was known but a task.
   */
  lemma NextRunContinues(
      codec: Codec, raw: Option<string>, messages: seq<ChatMessage>, freshId: string, out: Wire.Message, send: Sender,
      result: Wire.SendResult, name: Option<string>, later: seq<ChatMessage>, laterId: string, laterSend: Sender, other: Sender)
    requires Faithful(codec) && messages != []
    requires IsSent(messages[|messages| - 1], Decode(codec, raw), freshId, out) && send(out) == Ok(result)
    requires var s := Continuing(Decode(codec, raw), result);
             && (s != EMPTY || Decode(codec, raw) == EMPTY)
             && forall m: Wire.Message :: m.contextId == s.contextId && m.taskId == s.taskId ==> laterSend(m) == other(m)
    ensures var stored := RunOutcome(codec, raw, messages, freshId, send, name).1;
            RunOutcome(codec, raw, messages, freshId, send, name).0.Ok? ==>
              RunOutcome(codec, stored, later, laterId, laterSend, name) == RunOutcome(codec, stored, later, laterId, other, name)
  {
    hide AllToChat, Decode, Stored, ToWire, EventSources, Named, Sends;
    var s := Continuing(Decode(codec, raw), result);
    SentExactly(messages[|messages| - 1], Decode(codec, raw), freshId, out);
    StoredExactly(codec, raw, s);
    assert After(Decode(codec, raw), AsEvent(result)) == s;
    var (r, stored) := RunOutcome(codec, raw, messages, freshId, send, name);
    if r.Ok? {
      assert Decode(codec, stored) == s;
      RunAsksOnly(codec, stored, later, laterId, laterSend, other, name);
    }
  }

  /** After any answers the state names the last one's task, and its context unless it names none. */
  lemma LastAnswerNames(s: ThreadState, events: seq<Wire.Event>)
    requires events != []
    ensures var f := AfterAll(s, events);
            match events[|events| - 1]
            case TaskEvent(t) => f == ThreadState(Some(t.contextId), Some(t.id))
            case StatusEvent(u) => f == ThreadState(Some(u.contextId), Some(u.taskId))
            case ArtifactEvent(u) => f == ThreadState(Some(u.contextId), Some(u.taskId))
            case MessageEvent(m) =>
              f == ThreadState(if m.contextId.Some? then m.contextId else AfterAll(s, events[..|events| - 1]).contextId, m.taskId)
  {
    var front := events[..|events| - 1];
    assert events == front + [events[|events| - 1]];
    AfterAllAppend(s, front, [events[|events| - 1]]);
  }

  // --- what a run tells -----------------------------------------------------------------------------

  lemma {:induction false} AllRead(codec: Codec, sources: seq<Source>, messages: seq<ChatMessage>)
    requires AllToChat(codec, sources) == Ok(messages)
    ensures |messages| == |sources|
    ensures forall i :: 0 <= i < |messages| ==> IsRead(codec, AsMessage(sources[i]), messages[i])
    decreases |sources|
  {
    hide ToChat, IsRead, AsMessage;
    if sources != [] {
      ReadExactly(codec, sources[0], messages[0]);
      assert messages[1..] == AllToChat(codec, sources[1..]).value;
      AllRead(codec, sources[1..], messages[1..]);
      forall i | 1 <= i < |messages|
        ensures IsRead(codec, AsMessage(sources[i]), messages[i])
      {
        assert IsRead(codec, AsMessage(sources[1..][i - 1]), messages[1..][i - 1]);
      }
    }
  }

  /** `chat` is what a source says, under the agent's name. */
  predicate Tells(codec: Codec, s: Source, name: Option<string>, chat: ChatMessage) {
    chat.authorName == name && IsRead(codec, AsMessage(s), chat.(authorName := None))
  }

  predicate AllTell(codec: Codec, sources: seq<Source>, name: Option<string>, messages: seq<ChatMessage>) {
    |messages| == |sources| && forall i :: 0 <= i < |sources| ==> Tells(codec, sources[i], name, messages[i])
  }

  lemma NamedTell(codec: Codec, sources: seq<Source>, name: Option<string>, messages: seq<ChatMessage>)
    requires AllToChat(codec, sources) == Ok(messages)
    ensures AllTell(codec, sources, name, NamedAll(messages, name))
  {
    hide AllToChat, AreRead, AsMessage;
    AllRead(codec, sources, messages);
    forall i | 0 <= i < |sources|
      ensures Tells(codec, sources[i], name, Named(messages[i], name))
    {
      assert IsRead(codec, AsMessage(sources[i]), messages[i]);
      assert Named(messages[i], name).(authorName := None) == messages[i];
    }
  }

  /** An answered run responds with what the answer says, message by message, under the answer's id. */
  lemma RunTells(
      codec: Codec, raw: Option<string>, messages: seq<ChatMessage>, freshId: string, out: Wire.Message, send: Sender,
      result: Wire.SendResult, name: Option<string>)
    requires messages != [] && IsSent(messages[|messages| - 1], Decode(codec, raw), freshId, out) && send(out) == Ok(result)
    ensures var sources := match result case MessageResult(m) => [Said(m)] case TaskResult(t) => Shown(t);
            var id := match result case MessageResult(m) => m.messageId case TaskResult(t) => t.id;
            var r := RunOutcome(codec, raw, messages, freshId, send, name).0;
            && (r.Ok? <==> Converts(codec, sources))
            && (r.Ok? ==> AllTell(codec, sources, name, r.value.messages) && r.value.responseId == Some(id))
  {
    hide AllToChat, Decode, Stored, ToWire, IsSent, Converts, Shown, AllTell, NamedAll;
    SentExactly(messages[|messages| - 1], Decode(codec, raw), freshId, out);
    var sources := EventSources(AsEvent(result));
    ConvertsExactly(codec, sources);
    if AllToChat(codec, sources).Ok? {
      NamedTell(codec, sources, name, AllToChat(codec, sources).value);
    }
  }

  /** `item` is an update that says what `s` says, as part of the response `id`. */
  ghost predicate Updates(codec: Codec, s: Source, name: Option<string>, id: string, item: UpdateItem) {
    && item.Ok? && item.value.role.Some?
    && exists properties: map<string, Value> ::
         Tells(codec, s, name, ChatMessage(item.value.role.value, item.value.contents, item.value.authorName,
                                           item.value.messageId, properties))
         && item.value.responseId == Some(id)
  }

  /**
   An event whose data converts yields an update for each message it shows, in order, under
   the id of its message or task; a task's event that shows none yields one bare update.
   */
  lemma EventTells(codec: Codec, e: Wire.Event, name: Option<string>)
    requires Converts(codec, EventSources(e))
    ensures var sources := match e
              case MessageEvent(m) => [Said(m)]
              case TaskEvent(t) => Shown(t)
              case StatusEvent(u) => if u.status.message.Some? then [Said(u.status.message.value)] else []
              case ArtifactEvent(u) => [Produced(u.artifact)];
            var id := match e
              case MessageEvent(m) => m.messageId
              case TaskEvent(t) => t.id
              case StatusEvent(u) => u.taskId
              case ArtifactEvent(u) => u.taskId;
            var updates := UpdatesOf(codec, e, name);
            if sources == [] then updates == [Ok(Update([], None, None, None, Some(id)))]
            else |updates| == |sources| && forall i :: 0 <= i < |sources| ==> Updates(codec, sources[i], name, id, updates[i])
  {
    hide AllToChat, Converts, Shown, Tells;
    var sources := EventSources(e);
    ConvertsExactly(codec, sources);
    var messages := AllToChat(codec, sources).value;
    NamedTell(codec, sources, name, messages);
    forall i | 0 <= i < |sources|
      ensures Updates(codec, sources[i], name, ResponseId(e), UpdatesOf(codec, e, name)[i])
    {
      var chat := Named(messages[i], name);
      assert Tells(codec, sources[i], name, chat);
      assert chat == ChatMessage(chat.role, chat.contents, chat.authorName, chat.messageId, chat.properties);
    }
  }
}
