/** Printing an A2A value and reading it back, with its discriminator and without. */
module WireRoundTrips {
  import opened Wrappers
  import opened Json
  import opened A2AWire

  // --- what reading back forgets ------------------------------------------------------------

  /** A null metadata value reads back as none. */
  function CleanPart(p: Part): Part {
    p.(metadata := ReadOptional(p.metadata))
  }

  function CleanMessage(m: Message): Message {
    m.(parts := Each(CleanPart, m.parts), metadata := ReadOptional(m.metadata))
  }

  function CleanStatus(s: TaskStatus): TaskStatus {
    s.(message := match s.message case Some(m) => Some(CleanMessage(m)) case None => None)
  }

  function CleanArtifact(a: Artifact): Artifact {
    a.(parts := Each(CleanPart, a.parts), metadata := ReadOptional(a.metadata))
  }

  function CleanTask(t: Task): Task {
    Task(t.id, t.contextId, CleanStatus(t.status),
         match t.artifacts case Some(a) => Some(Each(CleanArtifact, a)) case None => None,
         match t.history case Some(h) => Some(Each(CleanMessage, h)) case None => None,
         ReadOptional(t.metadata))
  }

  function CleanStatusUpdate(u: StatusUpdate): StatusUpdate {
    u.(status := CleanStatus(u.status), metadata := ReadOptional(u.metadata))
  }

  function CleanArtifactUpdate(u: ArtifactUpdate): ArtifactUpdate {
    u.(artifact := CleanArtifact(u.artifact), metadata := ReadOptional(u.metadata))
  }

  function CleanEvent(e: Event): Event {
    match e
    case MessageEvent(m) => MessageEvent(CleanMessage(m))
    case TaskEvent(t) => TaskEvent(CleanTask(t))
    case StatusEvent(u) => StatusEvent(CleanStatusUpdate(u))
    case ArtifactEvent(u) => ArtifactEvent(CleanArtifactUpdate(u))
  }

  function CleanResult(r: SendResult): SendResult {
    match r
    case MessageResult(m) => MessageResult(CleanMessage(m))
    case TaskResult(t) => TaskResult(CleanTask(t))
  }

  // --- parts --------------------------------------------------------------------------------------

  lemma FileReads(file: FileData)
    ensures ReadFile(Some(PrintFile(file))) == Some(file)
  {
    var f := PrintFile(file).fields;
    assert Look(f, "mimeType") == Text(file.mimeType);
    assert Look(f, "name") == Text(file.name);
    if file.Bytes? {
      assert Look(f, "bytes") == Some(String(file.bytes));
    } else {
      assert Look(f, "bytes") == None;
      assert Look(f, "uri") == Some(String(file.uri));
    }
  }

  lemma PartReads(p: Part)
    ensures ReadPart(PrintPart(p)) == Some(CleanPart(p))
  {
    hide ReadFile, PrintFile;
    var f := PrintPart(p).fields;
    assert Look(f, "metadata") == p.metadata;
    match p
    case TextPart(text, _) =>
      assert Look(f, "kind") == Some(String("text")) && Look(f, "text") == Some(String(text));
    case FilePart(file, _) =>
      assert Look(f, "kind") == Some(String("file")) && Look(f, "file") == Some(PrintFile(file));
      FileReads(file);
    case DataPart(data, _) =>
      assert Look(f, "kind") == Some(String("data")) && Look(f, "data") == Some(data);
  }

  lemma PartsRead(parts: seq<Part>)
    ensures ReadArray(ReadPart, Some(Array(PrintAll(PrintPart, parts)))) == Some(Each(CleanPart, parts))
  {
    forall p: Part
      ensures ReadPart(PrintPart(p)) == Some(CleanPart(p))
    {
      PartReads(p);
    }
    ReadAllPrinted(PrintPart, ReadPart, CleanPart, parts);
  }

  // --- messages ---------------------------------------------------------------------------------------

  /** The fields of a message, whatever stands for its kind. */
  predicate CarriesMessage(f: Fields, m: Message) {
    && Look(f, "role") == Some(PrintRole(m.role))
    && Look(f, "parts") == Some(Array(PrintAll(PrintPart, m.parts)))
    && Look(f, "messageId") == Some(String(m.messageId))
    && Look(f, "taskId") == Text(m.taskId)
    && Look(f, "contextId") == Text(m.contextId)
    && Look(f, "metadata") == m.metadata
  }

  lemma MessageCarried(m: Message)
    ensures CarriesMessage(MessageFields(m), m)
    ensures Look(MessageFields(m), "kind") == Some(String(m.kind))
    ensures forall key :: key in {"id", "status", "artifact"} ==> Look(MessageFields(m), key) == None
  {
    hide PrintAll;
  }

  lemma CarriedReads(f: Fields, m: Message, kind: string)
    requires CarriesMessage(f, m) && ReadKind(Look(f, "kind")) == Some(kind)
    ensures ReadMessageFields(f) == Some(CleanMessage(m).(kind := kind))
  {
    hide PrintAll, ReadAll, ReadArray, ReadKind;
    PartsRead(m.parts);
  }

  lemma MessageReads(m: Message)
    ensures ReadMessage(PrintMessage(m)) == Some(CleanMessage(m))
  {
    hide MessageFields, ReadMessageFields, CarriesMessage;
    MessageCarried(m);
    CarriedReads(MessageFields(m), m, m.kind);
  }

  // --- tasks ------------------------------------------------------------------------------------------

  lemma StateReads(state: TaskState)
    ensures ReadState(Some(String(PrintState(state)))) == Some(state)
  {
  }

  /** A state other than unknown is read from its own name only. */
  lemma StateNameIs(name: string)
    ensures ReadState(Some(String(name))).Some?
    ensures var state := ReadState(Some(String(name))).value; state == Unknown || PrintState(state) == name
  {
  }

  lemma StatusReads(s: TaskStatus)
    ensures ReadStatus(Some(PrintStatus(s))) == Some(CleanStatus(s))
  {
    hide PrintMessage, ReadMessage, CleanMessage, PrintState, ReadState;
    var f := PrintStatus(s).fields;
    assert Look(f, "state") == Some(String(PrintState(s.state)));
    StateReads(s.state);
    assert Look(f, "timestamp") == Text(s.timestamp);
    match s.message
    case None => assert Look(f, "message") == None;
    case Some(m) =>
      assert Look(f, "message") == Some(PrintMessage(m));
      MessageReads(m);
      MessageIsObject(m);
  }

  lemma MessageIsObject(m: Message)
    ensures PrintMessage(m).Object?
  {
  }

  lemma ArtifactReads(a: Artifact)
    ensures ReadArtifact(PrintArtifact(a)) == Some(CleanArtifact(a))
  {
    hide PrintArtifact;
    ArtifactCarried(a);
    CarriedArtifactReads(PrintArtifact(a), a);
  }

  predicate CarriesArtifact(f: Fields, a: Artifact) {
    && Look(f, "artifactId") == Some(String(a.artifactId))
    && Look(f, "name") == Text(a.name)
    && Look(f, "description") == Text(a.description)
    && Look(f, "parts") == Some(Array(PrintAll(PrintPart, a.parts)))
    && Look(f, "metadata") == a.metadata
  }

  lemma ArtifactCarried(a: Artifact)
    ensures PrintArtifact(a).Object? && CarriesArtifact(PrintArtifact(a).fields, a)
  {
    hide PrintAll;
  }

  lemma CarriedArtifactReads(v: Value, a: Artifact)
    requires v.Object? && CarriesArtifact(v.fields, a)
    ensures ReadArtifact(v) == Some(CleanArtifact(a))
  {
    hide PrintAll, ReadAll, ReadArray, Look;
    PartsRead(a.parts);
  }

  lemma ArtifactsRead(artifacts: Option<seq<Artifact>>)
    ensures ReadOptionalArray(ReadArtifact, PrintList(PrintArtifact, artifacts))
            == Some(match artifacts case Some(a) => Some(Each(CleanArtifact, a)) case None => None)
  {
    hide ReadArtifact, PrintArtifact, CleanArtifact;
    forall a: Artifact
      ensures ReadArtifact(PrintArtifact(a)) == Some(CleanArtifact(a))
    {
      ArtifactReads(a);
    }
    if artifacts.Some? {
      ReadAllPrinted(PrintArtifact, ReadArtifact, CleanArtifact, artifacts.value);
    }
  }

  lemma HistoryReads(history: Option<seq<Message>>)
    ensures ReadOptionalArray(ReadMessage, PrintList(PrintMessage, history))
            == Some(match history case Some(h) => Some(Each(CleanMessage, h)) case None => None)
  {
    hide ReadMessage, PrintMessage, CleanMessage;
    forall m: Message
      ensures ReadMessage(PrintMessage(m)) == Some(CleanMessage(m))
    {
      MessageReads(m);
    }
    if history.Some? {
      ReadAllPrinted(PrintMessage, ReadMessage, CleanMessage, history.value);
    }
  }

  predicate CarriesTask(f: Fields, t: Task) {
    && Look(f, "id") == Some(String(t.id))
    && Look(f, "contextId") == Some(String(t.contextId))
    && Look(f, "status") == Some(PrintStatus(t.status))
    && Look(f, "artifacts") == PrintList(PrintArtifact, t.artifacts)
    && Look(f, "history") == PrintList(PrintMessage, t.history)
    && Look(f, "metadata") == t.metadata
  }

  lemma TaskCarried(t: Task)
    ensures CarriesTask(TaskFields(t), t)
    ensures Look(TaskFields(t), "kind") == None
    ensures Look(TaskFields(t), "artifact") == None && Look(TaskFields(t), "taskId") == None
  {
    hide PrintStatus, PrintList;
  }

  lemma CarriedTaskReads(f: Fields, t: Task)
    requires CarriesTask(f, t)
    ensures ReadTaskFields(f) == Some(CleanTask(t))
  {
    hide PrintStatus, ReadStatus, CleanStatus, PrintList, ReadOptionalArray;
    StatusReads(t.status);
    ArtifactsRead(t.artifacts);
    HistoryReads(t.history);
  }

  predicate CarriesStatusUpdate(f: Fields, u: StatusUpdate) {
    && Look(f, "taskId") == Some(String(u.taskId))
    && Look(f, "contextId") == Some(String(u.contextId))
    && Look(f, "status") == Some(PrintStatus(u.status))
    && Look(f, "final") == Some(Bool(u.isFinal))
    && Look(f, "metadata") == u.metadata
  }

  lemma StatusUpdateCarried(u: StatusUpdate)
    ensures CarriesStatusUpdate(StatusUpdateFields(u), u)
    ensures Look(StatusUpdateFields(u), "kind") == None && Look(StatusUpdateFields(u), "artifact") == None
  {
    hide PrintStatus;
  }

  lemma CarriedStatusUpdateReads(f: Fields, u: StatusUpdate)
    requires CarriesStatusUpdate(f, u)
    ensures ReadStatusUpdateFields(f) == Some(CleanStatusUpdate(u))
  {
    hide PrintStatus, ReadStatus, CleanStatus;
    StatusReads(u.status);
  }

  predicate CarriesArtifactUpdate(f: Fields, u: ArtifactUpdate) {
    && Look(f, "taskId") == Some(String(u.taskId))
    && Look(f, "contextId") == Some(String(u.contextId))
    && Look(f, "artifact") == Some(PrintArtifact(u.artifact))
    && Look(f, "append") == Some(Bool(u.append))
    && Look(f, "lastChunk") == Some(Bool(u.lastChunk))
    && Look(f, "metadata") == u.metadata
  }

  lemma ArtifactUpdateCarried(u: ArtifactUpdate)
    ensures CarriesArtifactUpdate(ArtifactUpdateFields(u), u)
    ensures Look(ArtifactUpdateFields(u), "kind") == None
  {
    hide PrintArtifact;
  }

  lemma CarriedArtifactUpdateReads(f: Fields, u: ArtifactUpdate)
    requires CarriesArtifactUpdate(f, u)
    ensures ReadArtifactUpdateFields(f) == Some(CleanArtifactUpdate(u))
  {
    hide PrintArtifact, ReadArtifact, CleanArtifact;
    ArtifactReads(u.artifact);
  }

  // --- tags -------------------------------------------------------------------------------------------

  /** The fields of a variant whose own fields name no kind. */
  lemma TagAdded(kind: string, f: Fields)
    requires Look(f, "kind") == None
    ensures Tagged(kind, f) - {"kind"} == f
    ensures Untagged(Tagged(kind, f)) == Some((kind, f))
    ensures Untagged(f) == None
  {
    assert Tagged(kind, f) - {"kind"} == f;
  }

  /** A message's own kind replaces the tag. */
  lemma TagReplaced(kind: string, m: Message)
    ensures Tagged(kind, MessageFields(m)) == MessageFields(m)
    ensures Untagged(MessageFields(m)) == Some((m.kind, MessageFields(m) - {"kind"}))
    ensures Untagged(MessageFields(m) - {"kind"}) == None
    ensures CarriesMessage(MessageFields(m) - {"kind"}, m)
    ensures forall key :: key in {"id", "status", "artifact"} ==> Look(MessageFields(m) - {"kind"}, key) == None
  {
    hide MessageFields, PrintAll;
    MessageCarried(m);
    var f := MessageFields(m);
    assert Tagged(kind, f) == f;
    assert forall key :: key != "kind" ==> Look(f - {"kind"}, key) == Look(f, key);
  }

  /** Fields that lack what the other variants require read as none of them. */
  lemma NotAnother(f: Fields)
    requires Look(f, "id") == None && Look(f, "status") == None && Look(f, "artifact") == None
    ensures ReadTaskFields(f) == None && ReadStatusUpdateFields(f) == None && ReadArtifactUpdateFields(f) == None
  {
  }

  // --- events -----------------------------------------------------------------------------------------

  lemma MessageEventReads(m: Message)
    ensures ParseEvent(Object(MessageFields(m))) == Ok(MessageEvent(CleanMessage(m)))
    ensures ParseEvent(Object(MessageFields(m) - {"kind"})) == Ok(MessageEvent(CleanMessage(m).(kind := MESSAGE)))
  {
    hide MessageFields, ReadMessageFields, ReadTaskFields, ReadStatusUpdateFields, ReadArtifactUpdateFields, CarriesMessage, Untagged;
    var f := MessageFields(m);
    MessageCarried(m);
    TagReplaced(MESSAGE, m);
    NotAnother(f);
    NotAnother(f - {"kind"});
    CarriedReads(f, m, m.kind);
    CarriedReads(f - {"kind"}, m, MESSAGE);
  }

  lemma TaskEventReads(t: Task)
    ensures ParseEvent(Object(Tagged("task", TaskFields(t)))) == Ok(TaskEvent(CleanTask(t)))
    ensures ParseEvent(Object(TaskFields(t))) == Ok(TaskEvent(CleanTask(t)))
  {
    hide TaskFields, ReadTaskFields, CarriesTask, Untagged, Tagged;
    var f := TaskFields(t);
    TaskCarried(t);
    TagAdded("task", f);
    CarriedTaskReads(f, t);
    TaskHasStatus(f, t);
  }

  lemma TaskHasStatus(f: Fields, t: Task)
    requires CarriesTask(f, t)
    ensures "status" in f
  {
    hide PrintStatus, PrintList;
  }

  lemma StatusEventReads(u: StatusUpdate)
    ensures ParseEvent(Object(Tagged("status-update", StatusUpdateFields(u)))) == Ok(StatusEvent(CleanStatusUpdate(u)))
    ensures ParseEvent(Object(StatusUpdateFields(u))) == Ok(StatusEvent(CleanStatusUpdate(u)))
  {
    hide StatusUpdateFields, ReadStatusUpdateFields, CarriesStatusUpdate, Untagged, Tagged;
    var f := StatusUpdateFields(u);
    StatusUpdateCarried(u);
    TagAdded("status-update", f);
    CarriedStatusUpdateReads(f, u);
    UpdateHasStatus(f, u);
  }

  lemma UpdateHasStatus(f: Fields, u: StatusUpdate)
    requires CarriesStatusUpdate(f, u)
    ensures "status" in f && "taskId" in f
  {
    hide PrintStatus;
  }

  lemma ArtifactEventReads(u: ArtifactUpdate)
    ensures ParseEvent(Object(Tagged("artifact-update", ArtifactUpdateFields(u)))) == Ok(ArtifactEvent(CleanArtifactUpdate(u)))
    ensures ParseEvent(Object(ArtifactUpdateFields(u))) == Ok(ArtifactEvent(CleanArtifactUpdate(u)))
  {
    hide ArtifactUpdateFields, ReadArtifactUpdateFields, CarriesArtifactUpdate, Untagged, Tagged;
    var f := ArtifactUpdateFields(u);
    ArtifactUpdateCarried(u);
    TagAdded("artifact-update", f);
    CarriedArtifactUpdateReads(f, u);
    UpdateHasArtifact(f, u);
  }

  lemma UpdateHasArtifact(f: Fields, u: ArtifactUpdate)
    requires CarriesArtifactUpdate(f, u)
    ensures "artifact" in f
  {
    hide PrintArtifact;
  }

  /** What a message reads as without its kind. */
  function DefaultKind(e: Event): Event {
    if e.MessageEvent? then MessageEvent(e.message.(kind := MESSAGE)) else e
  }

  /** Every event reads back as itself but for null metadata; without its tag, its shape still tells its variant. */
  lemma EventReads(e: Event)
    ensures ParseEvent(Object(EventFields(e))) == Ok(CleanEvent(e))
    ensures ParseEvent(Object(EventFields(e) - {"kind"})) == Ok(DefaultKind(CleanEvent(e)))
  {
    hide ParseEvent, TaskFields, StatusUpdateFields, ArtifactUpdateFields, MessageFields, Tagged;
    hide CleanTask, CleanStatusUpdate, CleanArtifactUpdate, CleanMessage;
    match e
    case MessageEvent(m) =>
      TagReplaced(MESSAGE, m);
      MessageEventReads(m);
    case TaskEvent(t) =>
      TaskCarried(t);
      TagAdded("task", TaskFields(t));
      TaskEventReads(t);
    case StatusEvent(u) =>
      StatusUpdateCarried(u);
      TagAdded("status-update", StatusUpdateFields(u));
      StatusEventReads(u);
    case ArtifactEvent(u) =>
      ArtifactUpdateCarried(u);
      TagAdded("artifact-update", ArtifactUpdateFields(u));
      ArtifactEventReads(u);
  }

  lemma MessageResultReads(m: Message)
    ensures ParseSendResult(Object(MessageFields(m))) == Ok(MessageResult(CleanMessage(m)))
    ensures ParseSendResult(Object(MessageFields(m) - {"kind"})) == Ok(MessageResult(CleanMessage(m).(kind := MESSAGE)))
  {
    hide MessageFields, ReadMessageFields, ReadTaskFields, CarriesMessage, Untagged;
    var f := MessageFields(m);
    MessageCarried(m);
    TagReplaced(MESSAGE, m);
    NotAnother(f);
    NotAnother(f - {"kind"});
    CarriedReads(f, m, m.kind);
    CarriedReads(f - {"kind"}, m, MESSAGE);
  }

  lemma TaskResultReads(t: Task)
    ensures ParseSendResult(Object(Tagged("task", TaskFields(t)))) == Ok(TaskResult(CleanTask(t)))
    ensures ParseSendResult(Object(TaskFields(t))) == Ok(TaskResult(CleanTask(t)))
  {
    hide TaskFields, ReadTaskFields, CarriesTask, Untagged, Tagged;
    var f := TaskFields(t);
    TaskCarried(t);
    TagAdded("task", f);
    CarriedTaskReads(f, t);
    TaskHasStatus(f, t);
  }

  function DefaultResultKind(r: SendResult): SendResult {
    if r.MessageResult? then MessageResult(r.message.(kind := MESSAGE)) else r
  }

  lemma ResultReads(r: SendResult)
    ensures ParseSendResult(Object(ResultFields(r))) == Ok(CleanResult(r))
    ensures ParseSendResult(Object(ResultFields(r) - {"kind"})) == Ok(DefaultResultKind(CleanResult(r)))
  {
    hide ParseSendResult, TaskFields, MessageFields, Tagged, CleanTask, CleanMessage;
    match r
    case MessageResult(m) =>
      TagReplaced(MESSAGE, m);
      MessageResultReads(m);
    case TaskResult(t) =>
      TaskCarried(t);
      TagAdded("task", TaskFields(t));
      TaskResultReads(t);
  }

  // --- exactly which values round-trip -------------------------------------------------------------

  predicate NoNullPart(p: Part) {
    p.metadata != Some(Null)
  }

  predicate NoNullMessage(m: Message) {
    m.metadata != Some(Null) && forall p :: p in m.parts ==> NoNullPart(p)
  }

  predicate NoNullStatus(s: TaskStatus) {
    s.message.Some? ==> NoNullMessage(s.message.value)
  }

  predicate NoNullArtifact(a: Artifact) {
    a.metadata != Some(Null) && forall p :: p in a.parts ==> NoNullPart(p)
  }

  predicate NoNullTask(t: Task) {
    && t.metadata != Some(Null) && NoNullStatus(t.status)
    && (t.artifacts.Some? ==> forall a :: a in t.artifacts.value ==> NoNullArtifact(a))
    && (t.history.Some? ==> forall m :: m in t.history.value ==> NoNullMessage(m))
  }

  /** No metadata anywhere in the event is the JSON null. */
  predicate NoNullEvent(e: Event) {
    match e
    case MessageEvent(m) => NoNullMessage(m)
    case TaskEvent(t) => NoNullTask(t)
    case StatusEvent(u) => u.metadata != Some(Null) && NoNullStatus(u.status)
    case ArtifactEvent(u) => u.metadata != Some(Null) && NoNullArtifact(u.artifact)
  }

  predicate NoNullResult(r: SendResult) {
    match r
    case MessageResult(m) => NoNullMessage(m)
    case TaskResult(t) => NoNullTask(t)
  }

  /** Mapping a list changes nothing exactly when it changes no element. */
  lemma EachIs<T>(f: T -> T, xs: seq<T>)
    ensures Each(f, xs) == xs <==> forall x :: x in xs ==> f(x) == x
  {
    if Each(f, xs) == xs {
      assert forall i :: 0 <= i < |xs| ==> f(xs[i]) == xs[i];
    }
  }

  lemma CleanMessageIs(m: Message)
    ensures CleanMessage(m) == m <==> NoNullMessage(m)
  {
    EachIs(CleanPart, m.parts);
    assert forall p: Part :: CleanPart(p) == p <==> NoNullPart(p);
  }

  lemma CleanArtifactIs(a: Artifact)
    ensures CleanArtifact(a) == a <==> NoNullArtifact(a)
  {
    EachIs(CleanPart, a.parts);
    assert forall p: Part :: CleanPart(p) == p <==> NoNullPart(p);
  }

  lemma CleanStatusIs(s: TaskStatus)
    ensures CleanStatus(s) == s <==> NoNullStatus(s)
  {
    hide CleanMessage, NoNullMessage;
    if s.message.Some? {
      CleanMessageIs(s.message.value);
    }
  }

  lemma CleanTaskIs(t: Task)
    ensures CleanTask(t) == t <==> NoNullTask(t)
  {
    hide CleanMessage, NoNullMessage, CleanArtifact, NoNullArtifact, CleanStatus, NoNullStatus, Each;
    CleanStatusIs(t.status);
    if t.artifacts.Some? {
      EachIs(CleanArtifact, t.artifacts.value);
      forall a: Artifact
        ensures CleanArtifact(a) == a <==> NoNullArtifact(a)
      {
        CleanArtifactIs(a);
      }
    }
    if t.history.Some? {
      EachIs(CleanMessage, t.history.value);
      forall m: Message
        ensures CleanMessage(m) == m <==> NoNullMessage(m)
      {
        CleanMessageIs(m);
      }
    }
  }

  lemma CleanEventIs(e: Event)
    ensures CleanEvent(e) == e <==> NoNullEvent(e)
  {
    hide CleanMessage, NoNullMessage, CleanArtifact, NoNullArtifact, CleanStatus, NoNullStatus, CleanTask, NoNullTask;
    match e
    case MessageEvent(m) => CleanMessageIs(m);
    case TaskEvent(t) => CleanTaskIs(t);
    case StatusEvent(u) => CleanStatusIs(u.status);
    case ArtifactEvent(u) => CleanArtifactIs(u.artifact);
  }

  lemma CleanResultIs(r: SendResult)
    ensures CleanResult(r) == r <==> NoNullResult(r)
  {
    hide CleanMessage, NoNullMessage, CleanTask, NoNullTask;
    match r
    case MessageResult(m) => CleanMessageIs(m);
    case TaskResult(t) => CleanTaskIs(t);
  }

  /** An event round-trips exactly when none of its metadata is null; without its tag, a message must also be of the default kind. */
  lemma EventRoundTrips(e: Event)
    ensures ParseEvent(Object(EventFields(e))) == Ok(e) <==> NoNullEvent(e)
    ensures ParseEvent(Object(EventFields(e) - {"kind"})) == Ok(e) <==> NoNullEvent(e) && (e.MessageEvent? ==> e.message.kind == MESSAGE)
  {
    hide ParseEvent, EventFields, NoNullEvent, CleanMessage, CleanTask, CleanStatusUpdate, CleanArtifactUpdate;
    EventReads(e);
    CleanEventIs(e);
    MessageKindKept(e);
  }

  lemma MessageKindKept(e: Event)
    ensures DefaultKind(CleanEvent(e)) == e <==> CleanEvent(e) == e && (e.MessageEvent? ==> e.message.kind == MESSAGE)
  {
    hide CleanTask, CleanStatusUpdate, CleanArtifactUpdate, Each;
  }

  lemma ResultRoundTrips(r: SendResult)
    ensures ParseSendResult(Object(ResultFields(r))) == Ok(r) <==> NoNullResult(r)
    ensures ParseSendResult(Object(ResultFields(r) - {"kind"})) == Ok(r) <==> NoNullResult(r) && (r.MessageResult? ==> r.message.kind == MESSAGE)
  {
    hide ParseSendResult, ResultFields, NoNullResult, CleanTask, Each;
    ResultReads(r);
    CleanResultIs(r);
  }

  /** A message the types can carry and the wire cannot. */
  lemma NullMetadataIsLost()
    ensures var e := MessageEvent(Message(MESSAGE, Agent, [], "m", None, None, Some(Null)));
            ParseEvent(Object(EventFields(e))) != Ok(e)
  {
    hide ParseEvent, EventFields;
    EventRoundTrips(MessageEvent(Message(MESSAGE, Agent, [], "m", None, None, Some(Null))));
  }

  // --- what has been read once reads back for ever ---------------------------------------------------

  lemma {:induction false} AllReadAre<T(!new)>(read: Value -> Option<T>, p: T -> bool, vs: seq<Value>)
    requires forall v :: read(v).Some? ==> p(read(v).value)
    ensures ReadAll(read, vs).Some? ==> forall x :: x in ReadAll(read, vs).value ==> p(x)
    decreases |vs|
  {
    if vs != [] {
      AllReadAre(read, p, vs[1..]);
    }
  }

  lemma ReadPartsAre(v: Option<Value>)
    ensures ReadArray(ReadPart, v).Some? ==> forall p :: p in ReadArray(ReadPart, v).value ==> NoNullPart(p)
  {
    hide ReadFile;
    if v.Some? && v.value.Array? {
      AllReadAre(ReadPart, NoNullPart, v.value.items);
    }
  }

  lemma ReadMessageIs(f: Fields)
    ensures ReadMessageFields(f).Some? ==> NoNullMessage(ReadMessageFields(f).value)
  {
    hide ReadArray, NoNullPart;
    ReadPartsAre(Look(f, "parts"));
  }

  lemma ReadArtifactIs(v: Value)
    ensures ReadArtifact(v).Some? ==> NoNullArtifact(ReadArtifact(v).value)
  {
    hide ReadArray, NoNullPart;
    if v.Object? {
      ReadPartsAre(Look(v.fields, "parts"));
    }
  }

  lemma ReadMessagesAre(v: Option<Value>)
    ensures ReadOptionalArray(ReadMessage, v).Some? && ReadOptionalArray(ReadMessage, v).value.Some? ==>
              forall m :: m in ReadOptionalArray(ReadMessage, v).value.value ==> NoNullMessage(m)
  {
    hide NoNullMessage, ReadMessageFields;
    forall w: Value
      ensures ReadMessage(w).Some? ==> NoNullMessage(ReadMessage(w).value)
    {
      if w.Object? {
        ReadMessageIs(w.fields);
      }
    }
    if v.Some? && v.value.Array? {
      AllReadAre(ReadMessage, NoNullMessage, v.value.items);
    }
  }

  lemma ReadArtifactsAre(v: Option<Value>)
    ensures ReadOptionalArray(ReadArtifact, v).Some? && ReadOptionalArray(ReadArtifact, v).value.Some? ==>
              forall a :: a in ReadOptionalArray(ReadArtifact, v).value.value ==> NoNullArtifact(a)
  {
    hide NoNullArtifact, ReadArtifact;
    forall w: Value
      ensures ReadArtifact(w).Some? ==> NoNullArtifact(ReadArtifact(w).value)
    {
      ReadArtifactIs(w);
    }
    if v.Some? && v.value.Array? {
      AllReadAre(ReadArtifact, NoNullArtifact, v.value.items);
    }
  }

  lemma ReadStatusIs(v: Option<Value>)
    ensures ReadStatus(v).Some? ==> NoNullStatus(ReadStatus(v).value)
  {
    hide ReadState, ReadMessageFields, NoNullMessage;
    if v.Some? && v.value.Object? {
      var m := Look(v.value.fields, "message");
      if m.Some? && m.value.Object? {
        ReadMessageIs(m.value.fields);
      }
    }
  }

  lemma ReadTaskIs(f: Fields)
    ensures ReadTaskFields(f).Some? ==> NoNullTask(ReadTaskFields(f).value)
  {
    hide ReadStatus, NoNullStatus, ReadOptionalArray, NoNullMessage, NoNullArtifact;
    ReadStatusIs(Look(f, "status"));
    ReadArtifactsAre(Look(f, "artifacts"));
    ReadMessagesAre(Look(f, "history"));
  }

  lemma ReadStatusUpdateIs(f: Fields)
    ensures ReadStatusUpdateFields(f).Some? ==> NoNullEvent(StatusEvent(ReadStatusUpdateFields(f).value))
  {
    hide ReadStatus, NoNullStatus;
    ReadStatusIs(Look(f, "status"));
  }

  lemma ReadArtifactUpdateIs(f: Fields)
    ensures ReadArtifactUpdateFields(f).Some? ==> NoNullEvent(ArtifactEvent(ReadArtifactUpdateFields(f).value))
  {
    hide ReadArtifact, NoNullArtifact;
    if "artifact" in f {
      ReadArtifactIs(f["artifact"]);
    }
  }

  /** Whatever JSON an event was read from, printing it and reading it again gives the same event. */
  lemma ParsedEventRoundTrips(v: Value)
    requires ParseEvent(v).Ok?
    ensures ParseEvent(Object(EventFields(ParseEvent(v).value))) == ParseEvent(v)
  {
    hide EventFields, ReadMessageFields, ReadTaskFields, ReadStatusUpdateFields, ReadArtifactUpdateFields;
    hide NoNullMessage, NoNullTask, NoNullStatus, NoNullArtifact;
    var f := v.fields;
    var rest := f - {"kind"};
    ReadMessageIs(f);
    ReadMessageIs(rest);
    ReadTaskIs(f);
    ReadTaskIs(rest);
    ReadStatusUpdateIs(f);
    ReadStatusUpdateIs(rest);
    ReadArtifactUpdateIs(f);
    ReadArtifactUpdateIs(rest);
    EventRoundTrips(ParseEvent(v).value);
  }

  lemma ParsedResultRoundTrips(v: Value)
    requires ParseSendResult(v).Ok?
    ensures ParseSendResult(Object(ResultFields(ParseSendResult(v).value))) == ParseSendResult(v)
  {
    hide ResultFields, ReadMessageFields, ReadTaskFields, NoNullMessage, NoNullTask;
    var f := v.fields;
    var rest := f - {"kind"};
    ReadMessageIs(f);
    ReadMessageIs(rest);
    ReadTaskIs(f);
    ReadTaskIs(rest);
    ResultRoundTrips(ParseSendResult(v).value);
  }

  // --- fields that are left out --------------------------------------------------------------------------

  lemma Without(f: Fields, key: string, v: Value)
    ensures forall other :: other != key ==> Look(f - {key}, other) == Look(f[key := v], other) == Look(f, other)
    ensures Look(f - {key}, key) == None && Look(f[key := v], key) == Some(v)
  {
  }

  lemma NullIsAbsent()
    ensures ReadOptionalText(Some(Null)) == ReadOptionalText(None) == Some(None)
    ensures ReadOptional(Some(Null)) == ReadOptional(None) == None
    ensures ReadOptionalMessage(Some(Null)) == ReadOptionalMessage(None) == Some(None)
    ensures forall read: Value -> Option<Artifact> ::
              ReadOptionalArray(read, Some(Null)) == ReadOptionalArray(read, None) == Some(None)
    ensures forall read: Value -> Option<Message> ::
              ReadOptionalArray(read, Some(Null)) == ReadOptionalArray(read, None) == Some(None)
  {
  }

  /** An optional field of a message that is null reads as one left out. */
  lemma NullInMessage(f: Fields, key: string)
    requires key in {"taskId", "contextId", "metadata"}
    ensures ReadMessageFields(f[key := Null]) == ReadMessageFields(f - {key})
  {
    hide Look, ReadKind, ReadRole, ReadArray, ReadOptionalText, ReadOptional, ReadOptionalMessage, ReadOptionalArray;
    Without(f, key, Null);
    NullIsAbsent();
  }

  lemma NullInStatus(f: Fields, key: string)
    requires key in {"message", "timestamp"}
    ensures ReadStatus(Some(Object(f[key := Null]))) == ReadStatus(Some(Object(f - {key})))
  {
    hide Look, ReadState, ReadOptionalText, ReadOptional, ReadOptionalMessage, ReadOptionalArray;
    Without(f, key, Null);
    NullIsAbsent();
  }

  lemma NullInArtifact(f: Fields, key: string)
    requires key in {"name", "description", "metadata"}
    ensures ReadArtifact(Object(f[key := Null])) == ReadArtifact(Object(f - {key}))
  {
    hide Look, ReadArray, ReadOptionalText, ReadOptional, ReadOptionalMessage, ReadOptionalArray;
    Without(f, key, Null);
    NullIsAbsent();
  }

  lemma NullInTask(f: Fields, key: string)
    requires key in {"artifacts", "history", "metadata"}
    ensures ReadTaskFields(f[key := Null]) == ReadTaskFields(f - {key})
  {
    hide Look, ReadStatus, ReadOptionalText, ReadOptional, ReadOptionalMessage, ReadOptionalArray;
    Without(f, key, Null);
    NullIsAbsent();
  }

  lemma NullInUpdate(f: Fields)
    ensures ReadStatusUpdateFields(f["metadata" := Null]) == ReadStatusUpdateFields(f - {"metadata"})
    ensures ReadArtifactUpdateFields(f["metadata" := Null]) == ReadArtifactUpdateFields(f - {"metadata"})
  {
    hide Look, ReadStatus, ReadArtifact, ReadFlag, ReadOptional;
    Without(f, "metadata", Null);
    NullIsAbsent();
  }

  /** A flag left out is not set, and a message without a kind is of kind `message`. */
  lemma DefaultsAre(f: Fields)
    ensures ReadStatusUpdateFields(f - {"final"}) == ReadStatusUpdateFields(f["final" := Bool(false)])
    ensures ReadMessageFields(f - {"kind"}) == ReadMessageFields(f["kind" := String("message")])
  {
    hide Look, ReadStatus, ReadArray, ReadRole, ReadOptional, ReadOptionalText, ReadFlag, ReadKind;
    Without(f, "final", Bool(false));
    Without(f, "kind", String("message"));
    DefaultValues();
  }

  lemma ArtifactDefaultsAre(f: Fields, key: string)
    requires key in {"append", "lastChunk"}
    ensures ReadArtifactUpdateFields(f - {key}) == ReadArtifactUpdateFields(f[key := Bool(false)])
  {
    hide Look, ReadArtifact, ReadOptional, ReadFlag;
    Without(f, key, Bool(false));
    DefaultValues();
  }

  lemma DefaultValues()
    ensures ReadFlag(None) == ReadFlag(Some(Bool(false))) == Some(false)
    ensures ReadKind(None) == ReadKind(Some(String("message"))) == Some("message")
  {
  }

  // --- responses that are no answer -----------------------------------------------------------------------

  /** An error of another shape is an internal error, whatever else the response holds; one with neither error nor result fails. */
  lemma OddResponses(f: Fields, e: Value)
    ensures (GetString(e, "message").None? || AsI64(Get(e, "code")).None?) ==>
              ExtractResult(Object(f["error" := e])) == Err(Rpc(-32603, "unrecognized A2A error shape"))
    ensures "error" !in f && "result" !in f ==> ExtractResult(Object(f)) == Err(NoResult)
  {
  }
}
