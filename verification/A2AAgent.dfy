/** A remote A2A agent run as a local one: conversions, conversation continuity, and the forwarded event stream. */
module A2AAgent {
  import opened Wrappers
  import opened Text
  import opened Json
  import Wire = A2AWire
  import Frames = SseFrames

  // --- framework messages ---------------------------------------------------------------

  datatype Content =
    | Text(text: string)
    | Error(message: Option<string>)
    | Uri(uri: string, mediaType: string)
    | Data(dataUri: string, dataType: Option<string>)
    | HostedFile(fileId: string)
    | Other(kind: string)

  datatype ChatMessage = ChatMessage(
    role: string,
    contents: seq<Content>,
    authorName: Option<string>,
    messageId: Option<string>,
    properties: map<string, Value>)

  datatype Update = Update(
    contents: seq<Content>,
    role: Option<string>,
    authorName: Option<string>,
    messageId: Option<string>,
    responseId: Option<string>)

  datatype Failure =
    | NoMessages
    | NoContents
    | Unsupported(kind: string)
    | NotBase64(uri: string)
    | Unserializable
    | Remote(failure: Frames.Failure)

  /** JSON as text: parsing, which fails on text that is none, and writing. */
  datatype Codec = Codec(parse: string -> Option<Value>, write: Value -> Option<string>)

  ghost predicate Faithful(codec: Codec) {
    forall v :: codec.write(v).Some? && codec.parse(codec.write(v).value) == Some(v)
  }

  // --- conversation continuity ---------------------------------------------------------------

  datatype ThreadState = ThreadState(contextId: Option<string>, taskId: Option<string>)

  const EMPTY: ThreadState := ThreadState(None, None)

  function StateFields(s: ThreadState): Wire.Fields {
    Wire.With(Wire.With(map[], "context_id", Wire.Text(s.contextId)), "task_id", Wire.Text(s.taskId))
  }

  /** Nothing is written when there is nothing worth keeping. */
  function Encode(codec: Codec, s: ThreadState): Option<string> {
    if s.contextId.None? && s.taskId.None? then None else codec.write(Object(StateFields(s)))
  }

  function ReadState(f: Wire.Fields): ThreadState {
    match (Wire.ReadOptionalText(Wire.Look(f, "context_id")), Wire.ReadOptionalText(Wire.Look(f, "task_id")))
    case (Some(contextId), Some(taskId)) => ThreadState(contextId, taskId)
    case _ => EMPTY
  }

  /** Anything absent or unreadable is an empty state. */
  function Decode(codec: Codec, raw: Option<string>): ThreadState {
    if raw.None? then EMPTY
    else
      match codec.parse(raw.value)
      case Some(Object(f)) => ReadState(f)
      case _ => EMPTY
  }

  /** The session's text once a state is persisted: an empty one leaves it alone. */
  function Stored(codec: Codec, raw: Option<string>, s: ThreadState): Option<string> {
    match Encode(codec, s)
    case Some(text) => Some(text)
    case None => raw
  }

  lemma StateReads(s: ThreadState)
    ensures ReadState(StateFields(s)) == s
  {
    var f := StateFields(s);
    assert Wire.Look(f, "context_id") == Wire.Text(s.contextId);
    assert Wire.Look(f, "task_id") == Wire.Text(s.taskId);
  }

  /** A session without a text, or with one from somewhere else, starts a new conversation. */
  lemma UnreadableIsEmpty(codec: Codec, raw: Option<string>)
    requires raw.Some? ==>
               match codec.parse(raw.value)
               case Some(Object(f)) => exists key :: key in {"context_id", "task_id"} && key in f && !(f[key].String? || f[key].Null?)
               case _ => true
    ensures Decode(codec, raw) == ThreadState(None, None)
  {
  }

  /** What is persisted decodes to the state, except that an empty state does not displace what was there. */
  lemma StoredExactly(codec: Codec, raw: Option<string>, s: ThreadState)
    requires Faithful(codec)
    ensures Decode(codec, Stored(codec, raw, s)) == s <==> s != EMPTY || Decode(codec, raw) == EMPTY
  {
    hide ReadState, StateFields;
    StateReads(s);
    assert codec.parse(codec.write(Object(StateFields(s))).value) == Some(Object(StateFields(s)));
  }

  /** A message without a context or a task after one with only a task: the session still names that one. */
  lemma StaleTaskStays(codec: Codec, taskId: string)
    requires Faithful(codec)
    ensures var before := ThreadState(None, Some(taskId));
            Decode(codec, Stored(codec, Stored(codec, None, before), Continued(before, None, None))) == before
  {
    hide Decode;
    StoredExactly(codec, None, ThreadState(None, Some(taskId)));
  }

  /** A context once known is kept until another is named; a task id always is. */
  function Continued(s: ThreadState, contextId: Option<string>, taskId: Option<string>): ThreadState {
    ThreadState(if contextId.Some? then contextId else s.contextId, taskId)
  }

  function ContextOf(e: Wire.Event): Option<string> {
    match e
    case MessageEvent(m) => m.contextId
    case TaskEvent(t) => Some(t.contextId)
    case StatusEvent(u) => Some(u.contextId)
    case ArtifactEvent(u) => Some(u.contextId)
  }

  function TaskOf(e: Wire.Event): Option<string> {
    match e
    case MessageEvent(m) => m.taskId
    case TaskEvent(t) => Some(t.id)
    case StatusEvent(u) => Some(u.taskId)
    case ArtifactEvent(u) => Some(u.taskId)
  }

  function ResponseId(e: Wire.Event): string {
    match e
    case MessageEvent(m) => m.messageId
    case TaskEvent(t) => t.id
    case StatusEvent(u) => u.taskId
    case ArtifactEvent(u) => u.taskId
  }

  function After(s: ThreadState, e: Wire.Event): ThreadState {
    Continued(s, ContextOf(e), TaskOf(e))
  }

  function AfterAll(s: ThreadState, events: seq<Wire.Event>): ThreadState
    decreases |events|
  {
    if events == [] then s else AfterAll(After(s, events[0]), events[1..])
  }

  /** The last context any of the events names, or else `known`. */
  function LastContext(known: Option<string>, events: seq<Wire.Event>): Option<string>
    decreases |events|
  {
    if events == [] then known
    else
      var last := ContextOf(events[|events| - 1]);
      if last.Some? then last else LastContext(known, events[..|events| - 1])
  }

  /** Over any events, the state holds the last context named and the last event's task. */
  lemma {:induction false} StateAfterAll(s: ThreadState, events: seq<Wire.Event>)
    ensures AfterAll(s, events).contextId == LastContext(s.contextId, events)
    ensures AfterAll(s, events).taskId == if events == [] then s.taskId else TaskOf(events[|events| - 1])
    decreases |events|
  {
    if events != [] {
      var front := events[..|events| - 1];
      StateAfterAll(s, front);
      assert events == front + [events[|events| - 1]];
      AfterAllAppend(s, front, [events[|events| - 1]]);
    }
  }

  lemma {:induction false} AfterAllAppend(s: ThreadState, a: seq<Wire.Event>, b: seq<Wire.Event>)
    ensures AfterAll(s, a + b) == AfterAll(AfterAll(s, a), b)
    decreases |a|
  {
    if a == [] {
      assert a + b == b;
    } else {
      assert (a + b)[1..] == a[1..] + b;
      AfterAllAppend(After(s, a[0]), a[1..], b);
    }
  }

  /** A known context is never lost, and once one is known, what is stored decodes to exactly the state. */
  lemma {:induction false} ContextKept(codec: Codec, raw: Option<string>, s: ThreadState, events: seq<Wire.Event>)
    requires Faithful(codec) && s.contextId.Some?
    ensures AfterAll(s, events).contextId.Some?
    ensures Decode(codec, Stored(codec, raw, AfterAll(s, events))) == AfterAll(s, events)
    decreases |events|
  {
    hide Decode, Stored;
    if events == [] {
      StoredExactly(codec, raw, s);
    } else {
      ContextKept(codec, raw, After(s, events[0]), events[1..]);
    }
  }

  // --- content and parts -------------------------------------------------------------------------

  const MARKER: string := ";base64,"
  const OCTETS: string := "application/octet-stream"

  function TypeOr(mediaType: Option<string>): string {
    StringOr(mediaType, OCTETS)
  }

  function DataUri(mediaType: Option<string>, payload: string): string {
    "data:" + TypeOr(mediaType) + MARKER + payload
  }

  /** The base64 payload of a data URI. */
  function Payload(uri: string): Result<string, Failure> {
    var i := Find(uri, MARKER);
    if i < |uri| then
      assert uri[i..i + |MARKER|] == MARKER;
      Ok(uri[i + |MARKER|..])
    else Err(NotBase64(uri))
  }

  const AN_ERROR: string := "An error occurred."

  function ContentToPart(c: Content): Result<Wire.Part, Failure> {
    match c
    case Text(text) => Ok(Wire.TextPart(text, None))
    case Error(message) => Ok(Wire.TextPart(StringOr(message, AN_ERROR), None))
    case Uri(uri, mediaType) => Ok(Wire.FilePart(Wire.Uri(uri, Some(mediaType), None), None))
    case Data(uri, mediaType) =>
      (match Payload(uri)
       case Ok(bytes) => Ok(Wire.FilePart(Wire.Bytes(bytes, mediaType, None), None))
       case Err(e) => Err(e))
    case HostedFile(fileId) => Ok(Wire.FilePart(Wire.Uri(fileId, None, None), None))
    case Other(kind) => Err(Unsupported(kind))
  }

  function PartToContent(codec: Codec, p: Wire.Part): Result<Content, Failure> {
    match p
    case TextPart(text, _) => Ok(Content.Text(text))
    case FilePart(file, _) =>
      (match file
       case Uri(uri, mimeType, _) => Ok(Content.Uri(uri, StringOr(mimeType, "")))
       case Bytes(bytes, mimeType, _) => Ok(Content.Data(DataUri(mimeType, bytes), mimeType)))
    case DataPart(data, _) =>
      match codec.write(data)
      case Some(text) => Ok(Content.Text(text))
      case None => Err(Unserializable)
  }

  predicate Contains(s: string, pat: string)
    requires pat != ""
  {
    Find(s, pat) < |s|
  }

  /** In a data URI the payload follows the media type, unless that itself holds the marker. */
  lemma MarkerAfterType(mediaType: string, payload: string)
    ensures Find("data:" + mediaType + MARKER + payload, MARKER) == 5 + |mediaType| <==> !Contains(mediaType, MARKER)
  {
    hide Find;
    var uri := "data:" + mediaType + MARKER + payload;
    var at := 5 + |mediaType|;
    assert uri[at..at + 8] == MARKER;
    if Contains(mediaType, MARKER) {
      var i := Find(mediaType, MARKER);
      assert mediaType[i..i + 8] == uri[5 + i..5 + i + 8];
      assert OccursAt(uri, MARKER, 5 + i);
    } else {
      forall k: nat | k < at
        ensures !OccursAt(uri, MARKER, k)
      {
        NoMarkerBefore(mediaType, payload, k);
      }
      FindIs(uri, MARKER, at);
    }
  }

  lemma NoMarkerBefore(mediaType: string, payload: string, k: nat)
    requires !Contains(mediaType, MARKER) && k < 5 + |mediaType|
    ensures !OccursAt("data:" + mediaType + MARKER + payload, MARKER, k)
  {
    hide Find;
    var uri := "data:" + mediaType + MARKER + payload;
    var at := 5 + |mediaType|;
    OccursChar(uri, MARKER, k, 0);
    if k >= 5 {
      if k + 8 <= at {
        assert uri[k..k + 8] == mediaType[k - 5..k - 5 + 8];
        assert !OccursAt(mediaType, MARKER, k - 5);
      } else {
        // The marker's own first character would be a later one of the earlier occurrence.
        OccursChar(uri, MARKER, k, at - k);
        assert uri[at] == ';';
      }
    } else {
      assert uri[k] == "data:"[k];
    }
  }

  /** A data URI as the framework builds it from bytes. */
  predicate IsDataUri(uri: string, mediaType: Option<string>) {
    "data:" + TypeOr(mediaType) + MARKER <= uri && !Contains(TypeOr(mediaType), MARKER)
  }

  /** Content that A2A can express. */
  predicate IsExpressible(c: Content) {
    c.Text? || c.Uri? || (c.Data? && IsDataUri(c.dataUri, c.dataType))
  }

  /** Content survives the way to the remote agent and back exactly when A2A can express it. */
  lemma ContentSurvives(codec: Codec, c: Content)
    ensures (ContentToPart(c).Ok? && PartToContent(codec, ContentToPart(c).value) == Ok(c))
            <==> IsExpressible(c)
  {
    if c.Data? {
      DataSurvives(c.dataUri, c.dataType);
    }
  }

  lemma DataSurvives(uri: string, mediaType: Option<string>)
    ensures (Payload(uri).Ok? && DataUri(mediaType, Payload(uri).value) == uri) <==> IsDataUri(uri, mediaType)
  {
    hide Find;
    var head := "data:" + TypeOr(mediaType) + MARKER;
    if head <= uri {
      var rest := uri[|head|..];
      assert uri == head + rest;
      MarkerAfterType(TypeOr(mediaType), rest);
      assert uri == "data:" + TypeOr(mediaType) + MARKER + rest;
      PayloadAt(uri, 5 + |TypeOr(mediaType)|, rest);
    }
  }

  lemma PayloadAt(uri: string, at: nat, rest: string)
    requires at + 8 <= |uri| && uri[at..at + 8] == MARKER && rest == uri[at + 8..]
    ensures Payload(uri).Ok?
    ensures Payload(uri).value == rest <==> Find(uri, MARKER) == at
  {
    hide Find;
    assert OccursAt(uri, MARKER, at);
    var i := Find(uri, MARKER);
    NotLater(uri, at);
    assert |Payload(uri).value| == |uri| - i - 8;
  }

  lemma NotLater(uri: string, at: nat)
    requires OccursAt(uri, MARKER, at)
    ensures Find(uri, MARKER) <= at
  {
  }

  /** What the remote agent's file carries is kept on the way here and back exactly when its media type holds no marker. */
  lemma FileSurvives(codec: Codec, bytes: string, mimeType: Option<string>)
    ensures var back := PartToContent(codec, Wire.FilePart(Wire.Bytes(bytes, mimeType, None), None));
            back.Ok? && (ContentToPart(back.value) == Ok(Wire.FilePart(Wire.Bytes(bytes, mimeType, None), None))
                         <==> !Contains(TypeOr(mimeType), MARKER))
  {
    hide Find;
    var uri := DataUri(mimeType, bytes);
    var at := 5 + |TypeOr(mimeType)|;
    MarkerAfterType(TypeOr(mimeType), bytes);
    assert uri[at..at + 8] == MARKER && uri[at + 8..] == bytes;
    PayloadAt(uri, at, bytes);
  }

  // --- messages -------------------------------------------------------------------------------------

  /** A list before a later one, unless that fails. */
  function Followed<T>(first: seq<T>, later: Result<seq<T>, Failure>): Result<seq<T>, Failure> {
    if later.Err? then later else Ok(first + later.value)
  }

  lemma FollowedTwice<T>(a: seq<T>, b: seq<T>, later: Result<seq<T>, Failure>)
    ensures Followed(a, Followed(b, later)) == Followed(a + b, later)
    ensures Followed([], later) == later
    ensures Followed<T>(a, Ok([])) == Ok(a)
    ensures later.Err? ==> Followed(a, later) == later
  {
    if later.Ok? {
      assert a + (b + later.value) == a + b + later.value;
      assert [] + later.value == later.value;
    }
    assert a + [] == a;
  }

  lemma FollowedOk<T>(a: seq<T>, b: seq<T>)
    ensures Followed(a, Ok(b)) == Ok(a + b)
  {
  }

  function PartsOf(contents: seq<Content>): Result<seq<Wire.Part>, Failure> {
    if contents == [] then Ok([])
    else
      match ContentToPart(contents[0])
      case Err(e) => Err(e)
      case Ok(part) => Followed([part], PartsOf(contents[1..]))
  }

  /** An outgoing message: always the user's, in the conversation so far. */
  function ToWire(m: ChatMessage, s: ThreadState, freshId: string): Result<Wire.Message, Failure> {
    if m.contents == [] then Err(NoContents)
    else
      match PartsOf(m.contents)
      case Err(e) => Err(e)
      case Ok(parts) =>
        Ok(Wire.Message(Wire.MESSAGE, Wire.User, parts, StringOr(m.messageId, freshId), s.taskId, s.contextId,
                        if m.properties == map[] then None else Some(Object(m.properties))))
  }

  method ChatMessageToWire(m: ChatMessage, s: ThreadState, freshId: string) returns (r: Result<Wire.Message, Failure>)
    ensures r == ToWire(m, s, freshId)
  {
    hide ContentToPart, Followed;
    if m.contents == [] {
      return Err(NoContents);
    }
    var parts := [];
    assert m.contents[0..] == m.contents;
    FollowedTwice([], [], PartsOf(m.contents));
    for i := 0 to |m.contents|
      invariant PartsOf(m.contents) == Followed(parts, PartsOf(m.contents[i..]))
    {
      assert m.contents[i..][1..] == m.contents[i + 1..];
      var part := ContentToPart(m.contents[i]);
      if part.Err? {
        FollowedTwice(parts, [], Err(part.error));
        return Err(part.error);
      }
      FollowedTwice(parts, [part.value], PartsOf(m.contents[i + 1..]));
      parts := parts + [part.value];
    }
    FollowedTwice(parts, [], Ok([]));
    r := Ok(Wire.Message(Wire.MESSAGE, Wire.User, parts, StringOr(m.messageId, freshId), s.taskId, s.contextId,
                         if m.properties == map[] then None else Some(Object(m.properties))));
  }

  function ContentsOf(codec: Codec, parts: seq<Wire.Part>): Result<seq<Content>, Failure> {
    if parts == [] then Ok([])
    else
      match PartToContent(codec, parts[0])
      case Err(e) => Err(e)
      case Ok(content) => Followed([content], ContentsOf(codec, parts[1..]))
  }

  const USER: string := "user"
  const ASSISTANT: string := "assistant"

  function Properties(metadata: Option<Value>): map<string, Value> {
    match metadata
    case Some(Object(fields)) => fields
    case _ => map[]
  }

  /** A message or artifact that came from the remote agent. */
  datatype Source = Said(message: Wire.Message) | Produced(artifact: Wire.Artifact)

  function ToChat(codec: Codec, s: Source): Result<ChatMessage, Failure> {
    match s
    case Said(m) =>
      (match ContentsOf(codec, m.parts)
       case Err(e) => Err(e)
       case Ok(contents) =>
         Ok(ChatMessage(if m.role == Wire.Agent then ASSISTANT else USER, contents, None, Some(m.messageId),
                        Properties(m.metadata))))
    case Produced(a) =>
      match ContentsOf(codec, a.parts)
      case Err(e) => Err(e)
      case Ok(contents) => Ok(ChatMessage(ASSISTANT, contents, None, Some(a.artifactId), Properties(a.metadata)))
  }

  /** An artifact speaks as a message of the agent's with the same parts would. */
  lemma ArtifactSpeaks(codec: Codec, a: Wire.Artifact, kind: string, taskId: Option<string>, contextId: Option<string>)
    ensures ToChat(codec, Produced(a))
            == ToChat(codec, Said(Wire.Message(kind, Wire.Agent, a.parts, a.artifactId, taskId, contextId, a.metadata)))
  {
    hide ContentsOf;
  }

  function AllToChat(codec: Codec, sources: seq<Source>): Result<seq<ChatMessage>, Failure> {
    if sources == [] then Ok([])
    else
      match ToChat(codec, sources[0])
      case Err(e) => Err(e)
      case Ok(message) => Followed([message], AllToChat(codec, sources[1..]))
  }

  lemma {:induction false} AllToChatAppend(codec: Codec, a: seq<Source>, b: seq<Source>)
    ensures AllToChat(codec, a + b) ==
            if AllToChat(codec, a).Err? then AllToChat(codec, a) else Followed(AllToChat(codec, a).value, AllToChat(codec, b))
    decreases |a|
  {
    hide ToChat, Followed;
    if a == [] {
      assert a + b == b;
      FollowedTwice([], [], AllToChat(codec, b));
    } else {
      assert (a + b)[1..] == a[1..] + b;
      AllToChatAppend(codec, a[1..], b);
      var first := ToChat(codec, a[0]);
      if first.Ok? {
        var later := AllToChat(codec, a[1..]);
        FollowedTwice([first.value], [], later);
        if later.Ok? {
          FollowedTwice([first.value], later.value, AllToChat(codec, b));
          FollowedOk([first.value], later.value);
        }
      }
    }
  }

  // --- a message on the way to the remote agent and back ---------------------------------------

  lemma {:induction false} ContentsSurvive(codec: Codec, contents: seq<Content>)
    ensures (PartsOf(contents).Ok? && ContentsOf(codec, PartsOf(contents).value) == Ok(contents))
            <==> (forall c :: c in contents ==> IsExpressible(c))
    decreases |contents|
  {
    hide ContentToPart, PartToContent, IsExpressible;
    if contents != [] {
      ContentSurvives(codec, contents[0]);
      ContentsSurvive(codec, contents[1..]);
      if PartsOf(contents).Ok? {
        var parts := PartsOf(contents).value;
        assert parts[1..] == PartsOf(contents[1..]).value;
      }
      assert contents == [contents[0]] + contents[1..];
    }
  }

  /** A message comes back as it went out exactly when it is the user's, has an id and no author, and A2A can express its contents. */
  lemma MessageSurvives(codec: Codec, m: ChatMessage, s: ThreadState, freshId: string)
    ensures var out := ToWire(m, s, freshId);
            (out.Ok? && ToChat(codec, Said(out.value)) == Ok(m))
            <==> (&& m.role == USER && m.authorName.None? && m.messageId.Some?
                  && m.contents != [] && forall c :: c in m.contents ==> IsExpressible(c))
  {
    hide ContentToPart, IsExpressible, PartsOf, ContentsOf;
    ContentsSurvive(codec, m.contents);
  }

  // --- which messages convert --------------------------------------------------------------------

  /** Only structured data can fail to convert, when it cannot be written as text. */
  predicate CanConvert(codec: Codec, p: Wire.Part) {
    p.DataPart? ==> codec.write(p.data).Some?
  }

  function PartsShown(s: Source): seq<Wire.Part> {
    match s
    case Said(m) => m.parts
    case Produced(a) => a.parts
  }

  predicate Converts(codec: Codec, sources: seq<Source>) {
    forall s, p :: s in sources && p in PartsShown(s) ==> CanConvert(codec, p)
  }

  lemma PartConverts(codec: Codec, p: Wire.Part)
    ensures PartToContent(codec, p).Ok? <==> CanConvert(codec, p)
  {
  }

  lemma {:induction false} ContentsConvert(codec: Codec, parts: seq<Wire.Part>)
    ensures ContentsOf(codec, parts).Ok? <==> forall p :: p in parts ==> CanConvert(codec, p)
    decreases |parts|
  {
    hide PartToContent, CanConvert;
    if parts != [] {
      PartConverts(codec, parts[0]);
      ContentsConvert(codec, parts[1..]);
      assert parts == [parts[0]] + parts[1..];
    }
  }

  lemma {:induction false} ConvertsExactly(codec: Codec, sources: seq<Source>)
    ensures AllToChat(codec, sources).Ok? <==> Converts(codec, sources)
    decreases |sources|
  {
    hide ContentsOf, CanConvert;
    if sources != [] {
      ContentsConvert(codec, PartsShown(sources[0]));
      ConvertsExactly(codec, sources[1..]);
      assert sources == [sources[0]] + sources[1..];
    }
  }

  // --- what a task shows -------------------------------------------------------------------------------

  /** Progress and success say nothing the artifacts do not. */
  predicate SurfacesStatus(t: Wire.Task) {
    !(t.status.state.Submitted? || t.status.state.Working? || t.status.state.Completed?)
  }

  function Artifacts(t: Wire.Task): (r: seq<Source>)
    ensures |r| == if t.artifacts.Some? then |t.artifacts.value| else 0
    ensures forall i :: 0 <= i < |r| ==> r[i] == Produced(t.artifacts.value[i])
  {
    match t.artifacts
    case Some(a) => seq(|a|, i requires 0 <= i < |a| => Produced(a[i]))
    case None => []
  }

  function StatusMessage(t: Wire.Task): seq<Source> {
    match t.status.message
    case Some(m) => if SurfacesStatus(t) && m.parts != [] then [Said(m)] else []
    case None => []
  }

  function LastOfHistory(t: Wire.Task): seq<Source> {
    match t.history
    case Some(h) => if h == [] then [] else [Said(h[|h| - 1])]
    case None => []
  }

  /** A task's artifacts, then its status message if it has to be seen, else the end of its history. */
  function Shown(t: Wire.Task): seq<Source> {
    var sources := Artifacts(t) + StatusMessage(t);
    if sources == [] then LastOfHistory(t) else sources
  }

  method TaskToChatMessages(codec: Codec, t: Wire.Task) returns (r: Result<seq<ChatMessage>, Failure>)
    ensures r == AllToChat(codec, Shown(t))
  {
    hide ToChat, AllToChat;
    var artifacts := AllToChat(codec, Artifacts(t));
    ChatLength(codec, Artifacts(t));
    AllToChatAppend(codec, Artifacts(t), StatusMessage(t));
    NothingToChat(codec);
    assert Artifacts(t) + [] == Artifacts(t);
    if artifacts.Err? {
      return artifacts;
    }
    var messages := artifacts.value;
    if SurfacesStatus(t) && t.status.message.Some? && t.status.message.value.parts != [] {
      OneToChat(codec, Said(t.status.message.value));
      var message := ToChat(codec, Said(t.status.message.value));
      if message.Err? {
        return Err(message.error);
      }
      messages := messages + [message.value];
    }
    if messages == [] && t.history.Some? && t.history.value != [] {
      var last := t.history.value[|t.history.value| - 1];
      OneToChat(codec, Said(last));
      var message := ToChat(codec, Said(last));
      if message.Err? {
        return Err(message.error);
      }
      messages := [message.value];
    }
    r := Ok(messages);
  }

  lemma {:induction false} ChatLength(codec: Codec, sources: seq<Source>)
    ensures AllToChat(codec, sources).Ok? ==> |AllToChat(codec, sources).value| == |sources|
    decreases |sources|
  {
    hide ToChat;
    if sources != [] {
      ChatLength(codec, sources[1..]);
    }
  }

  lemma NothingToChat(codec: Codec)
    ensures AllToChat(codec, []) == Ok([])
  {
  }

  lemma OneToChat(codec: Codec, s: Source)
    ensures AllToChat(codec, [s]) ==
            match ToChat(codec, s)
            case Ok(message) => Ok([message])
            case Err(e) => Err(e)
  {
    hide ToChat;
    assert [s][1..] == [];
    if ToChat(codec, s).Ok? {
      FollowedTwice([ToChat(codec, s).value], [], Ok([]));
    }
  }

  // --- what goes out ------------------------------------------------------------------------------

  /** What follows the first `;base64,` of a URI. */
  ghost predicate IsPayload(uri: string, bytes: string) {
    exists before :: IsPayloadAfter(uri, before, bytes)
  }

  predicate IsPayloadAfter(uri: string, before: string, bytes: string) {
    uri == before + ";base64," + bytes && forall k :: 0 <= k < |before| ==> !OccursAt(uri, ";base64,", k)
  }

  /** The part that stands for a content on the wire. */
  ghost predicate Sends(c: Content, p: Wire.Part) {
    match c
    case Text(text) => p == Wire.TextPart(text, None)
    case Error(message) => p == Wire.TextPart(if message.Some? then message.value else "An error occurred.", None)
    case Uri(uri, mediaType) => p == Wire.FilePart(Wire.Uri(uri, Some(mediaType), None), None)
    case Data(uri, mediaType) =>
      && p.FilePart? && p.file.Bytes? && IsPayload(uri, p.file.bytes)
      && p == Wire.FilePart(Wire.Bytes(p.file.bytes, mediaType, None), None)
    case HostedFile(fileId) => p == Wire.FilePart(Wire.Uri(fileId, None, None), None)
    case Other(_) => false
  }

  ghost predicate AreSent(contents: seq<Content>, parts: seq<Wire.Part>) {
    |parts| == |contents| && forall i :: 0 <= i < |contents| ==> Sends(contents[i], parts[i])
  }

  /** The message that stands for the user's in the conversation `s`. */
  ghost predicate IsSent(m: ChatMessage, s: ThreadState, freshId: string, out: Wire.Message) {
    && m.contents != [] && AreSent(m.contents, out.parts)
    && out.kind == "message" && out.role == Wire.User
    && out.contextId == s.contextId && out.taskId == s.taskId
    && out.messageId == (if m.messageId.Some? then m.messageId.value else freshId)
    && out.metadata == if m.properties == map[] then None else Some(Object(m.properties))
  }

  lemma PayloadExactly(uri: string, bytes: string)
    ensures Payload(uri) == Ok(bytes) <==> IsPayload(uri, bytes)
  {
    hide Find;
    var i := Find(uri, MARKER);
    if Payload(uri) == Ok(bytes) {
      assert uri[i..i + 8] == MARKER;
      assert IsPayloadAfter(uri, uri[..i], bytes);
    }
    if before :| IsPayloadAfter(uri, before, bytes) {
      assert uri[|before|..|before| + 8] == MARKER;
      FindIs(uri, MARKER, |before|);
    }
  }

  lemma ContentSent(c: Content, p: Wire.Part)
    ensures ContentToPart(c) == Ok(p) <==> Sends(c, p)
  {
    hide Payload, IsPayload;
    if c.Data? && p.FilePart? && p.file.Bytes? {
      PayloadExactly(c.dataUri, p.file.bytes);
    }
  }

  lemma {:induction false} PartsSent(contents: seq<Content>, parts: seq<Wire.Part>)
    ensures PartsOf(contents) == Ok(parts) <==> AreSent(contents, parts)
    decreases |contents|
  {
    hide ContentToPart, Sends;
    if contents != [] && parts != [] {
      hide AreSent;
      ContentSent(contents[0], parts[0]);
      PartsSent(contents[1..], parts[1..]);
      assert parts == [parts[0]] + parts[1..];
      FirstSent(contents, parts);
    }
  }

  lemma FirstSent(contents: seq<Content>, parts: seq<Wire.Part>)
    requires contents != [] && parts != []
    ensures AreSent(contents, parts) <==> Sends(contents[0], parts[0]) && AreSent(contents[1..], parts[1..])
  {
    hide Sends;
    if Sends(contents[0], parts[0]) && AreSent(contents[1..], parts[1..]) {
      forall i | 1 <= i < |contents|
        ensures Sends(contents[i], parts[i])
      {
        assert Sends(contents[1..][i - 1], parts[1..][i - 1]);
      }
    }
  }

  /** An outgoing message is the one that stands for the user's, and fails to go out when there is none. */
  lemma SentExactly(m: ChatMessage, s: ThreadState, freshId: string, out: Wire.Message)
    ensures ToWire(m, s, freshId) == Ok(out) <==> IsSent(m, s, freshId, out)
  {
    hide PartsOf, AreSent;
    PartsSent(m.contents, out.parts);
  }

  // --- what comes in --------------------------------------------------------------------------------

  /** The content a part on the wire stands for. */
  predicate Reads(codec: Codec, p: Wire.Part, c: Content) {
    match p
    case TextPart(text, _) => c == Content.Text(text)
    case DataPart(data, _) => c.Text? && codec.write(data) == Some(c.text)
    case FilePart(file, _) =>
      match file
      case Uri(uri, mimeType, _) => c == Content.Uri(uri, if mimeType.Some? then mimeType.value else "")
      case Bytes(bytes, mimeType, _) =>
        c == Content.Data(
          "data:" + (if mimeType.Some? then mimeType.value else "application/octet-stream") + ";base64," + bytes, mimeType)
  }

  predicate AreRead(codec: Codec, parts: seq<Wire.Part>, contents: seq<Content>) {
    |contents| == |parts| && forall i :: 0 <= i < |contents| ==> Reads(codec, parts[i], contents[i])
  }

  /** The chat message a message from the remote agent stands for. */
  predicate IsRead(codec: Codec, m: Wire.Message, chat: ChatMessage) {
    && AreRead(codec, m.parts, chat.contents)
    && chat.role == (if m.role.Agent? then "assistant" else "user")
    && chat.authorName.None? && chat.messageId == Some(m.messageId)
    && chat.properties == if m.metadata.Some? && m.metadata.value.Object? then m.metadata.value.fields else map[]
  }

  /** What an artifact says, as a message of the agent's. */
  function AsMessage(s: Source): Wire.Message {
    match s
    case Said(m) => m
    case Produced(a) => Wire.Message("message", Wire.Agent, a.parts, a.artifactId, None, None, a.metadata)
  }

  lemma PartRead(codec: Codec, p: Wire.Part, c: Content)
    ensures PartToContent(codec, p) == Ok(c) <==> Reads(codec, p, c)
  {
  }

  lemma {:induction false} ContentsRead(codec: Codec, parts: seq<Wire.Part>, contents: seq<Content>)
    ensures ContentsOf(codec, parts) == Ok(contents) <==> AreRead(codec, parts, contents)
    decreases |parts|
  {
    hide PartToContent, Reads;
    if parts != [] && contents != [] {
      hide AreRead;
      PartRead(codec, parts[0], contents[0]);
      ContentsRead(codec, parts[1..], contents[1..]);
      assert contents == [contents[0]] + contents[1..];
      FirstRead(codec, parts, contents);
    }
  }

  lemma FirstRead(codec: Codec, parts: seq<Wire.Part>, contents: seq<Content>)
    requires parts != [] && contents != []
    ensures AreRead(codec, parts, contents) <==> Reads(codec, parts[0], contents[0]) && AreRead(codec, parts[1..], contents[1..])
  {
    hide Reads;
    if Reads(codec, parts[0], contents[0]) && AreRead(codec, parts[1..], contents[1..]) {
      forall i | 1 <= i < |contents|
        ensures Reads(codec, parts[i], contents[i])
      {
        assert Reads(codec, parts[1..][i - 1], contents[1..][i - 1]);
      }
    }
  }

  /** A message or artifact converts to the chat message it stands for, and fails when there is none. */
  lemma ReadExactly(codec: Codec, s: Source, chat: ChatMessage)
    ensures ToChat(codec, s) == Ok(chat) <==> IsRead(codec, AsMessage(s), chat)
  {
    hide ContentsOf, AreRead;
    ContentsRead(codec, AsMessage(s).parts, chat.contents);
    match s
    case Said(_) =>
    case Produced(a) => ArtifactSpeaks(codec, a, "message", None, None);
  }

  // --- which messages a task shows --------------------------------------------------------------------

  /** A task that waits for the caller, or that ended without success, or in a state unknown here. */
  predicate NeedsAttention(state: Wire.TaskState) {
    state in {Wire.Failed, Wire.Rejected, Wire.Canceled, Wire.InputRequired, Wire.AuthRequired, Wire.Unknown}
  }

  /**
   A task shows its artifacts in order, and after them its status message exactly in the
   states that need attention; only when that is nothing, the last entry of its history.
   */
  lemma ShownExactly(t: Wire.Task)
    ensures var artifacts := if t.artifacts.Some? then t.artifacts.value else [];
            var n := |artifacts|;
            && n <= |Shown(t)| && (forall i :: 0 <= i < n ==> Shown(t)[i] == Produced(artifacts[i]))
            && (if NeedsAttention(t.status.state) && t.status.message.Some? && t.status.message.value.parts != [] then
                  Shown(t)[n..] == [Said(t.status.message.value)]
                else if n == 0 && t.history.Some? && t.history.value != [] then
                  Shown(t) == [Said(t.history.value[|t.history.value| - 1])]
                else |Shown(t)| == n)
  {
    hide Artifacts, StatusMessage;
    StatusShown(t);
    assert Artifacts(t) + [] == Artifacts(t);
    assert (Artifacts(t) + StatusMessage(t))[|Artifacts(t)|..] == StatusMessage(t);
  }

  lemma StatusShown(t: Wire.Task)
    ensures StatusMessage(t) ==
            if NeedsAttention(t.status.state) && t.status.message.Some? && t.status.message.value.parts != []
            then [Said(t.status.message.value)] else []
  {
  }
}
