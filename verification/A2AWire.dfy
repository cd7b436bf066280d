/** The A2A wire types: what each is in JSON, and how JSON is read back as one. */
module A2AWire {
  import opened Wrappers
  import opened Json

  // --- the types -----------------------------------------------------------------------

  datatype Role = User | Agent

  datatype FileData =
    | Bytes(bytes: string, mimeType: Option<string>, name: Option<string>)
    | Uri(uri: string, mimeType: Option<string>, name: Option<string>)

  datatype Part =
    | TextPart(text: string, metadata: Option<Value>)
    | FilePart(file: FileData, metadata: Option<Value>)
    | DataPart(data: Value, metadata: Option<Value>)

  datatype Message = Message(
    kind: string,
    role: Role,
    parts: seq<Part>,
    messageId: string,
    taskId: Option<string>,
    contextId: Option<string>,
    metadata: Option<Value>)

  datatype TaskState =
    | Submitted | Working | InputRequired | Completed | Canceled | Failed | Rejected | AuthRequired | Unknown

  datatype TaskStatus = TaskStatus(state: TaskState, message: Option<Message>, timestamp: Option<string>)

  datatype Artifact = Artifact(
    artifactId: string,
    name: Option<string>,
    description: Option<string>,
    parts: seq<Part>,
    metadata: Option<Value>)

  datatype Task = Task(
    id: string,
    contextId: string,
    status: TaskStatus,
    artifacts: Option<seq<Artifact>>,
    history: Option<seq<Message>>,
    metadata: Option<Value>)

  datatype StatusUpdate = StatusUpdate(
    taskId: string, contextId: string, status: TaskStatus, isFinal: bool, metadata: Option<Value>)

  datatype ArtifactUpdate = ArtifactUpdate(
    taskId: string, contextId: string, artifact: Artifact, append: bool, lastChunk: bool, metadata: Option<Value>)

  /** The answer to `message/send`. */
  datatype SendResult = MessageResult(message: Message) | TaskResult(task: Task)

  /** One event of `message/stream`. */
  datatype Event =
    | MessageEvent(message: Message)
    | TaskEvent(task: Task)
    | StatusEvent(statusUpdate: StatusUpdate)
    | ArtifactEvent(artifactUpdate: ArtifactUpdate)

  // --- fields of an object ----------------------------------------------------------------

  type Fields = map<string, Value>

  function Look(f: Fields, key: string): Option<Value> {
    if key in f then Some(f[key]) else None
  }

  /** A field that is left out when it has no value. */
  function With(f: Fields, key: string, v: Option<Value>): Fields {
    match v
    case Some(value) => f[key := value]
    case None => f
  }

  function Text(s: Option<string>): Option<Value> {
    match s
    case Some(text) => Some(String(text))
    case None => None
  }

  /** An optional string: absent and null are the same, anything else fails. */
  function ReadOptionalText(v: Option<Value>): Option<Option<string>> {
    match v
    case None => Some(None)
    case Some(Null) => Some(None)
    case Some(String(s)) => Some(Some(s))
    case _ => None
  }

  /** An optional value of any kind, null meaning none. */
  function ReadOptional(v: Option<Value>): Option<Value> {
    if v == Some(Null) then None else v
  }

  /** A flag, false when absent. */
  function ReadFlag(v: Option<Value>): Option<bool> {
    match v
    case None => Some(false)
    case Some(Bool(b)) => Some(b)
    case _ => None
  }

  function PrintAll<T>(print_: T -> Value, xs: seq<T>): seq<Value> {
    if xs == [] then [] else [print_(xs[0])] + PrintAll(print_, xs[1..])
  }

  function ReadAll<T>(read: Value -> Option<T>, vs: seq<Value>): Option<seq<T>> {
    if vs == [] then Some([])
    else
      match (read(vs[0]), ReadAll(read, vs[1..]))
      case (Some(x), Some(xs)) => Some([x] + xs)
      case _ => None
  }

  function Each<T>(f: T -> T, xs: seq<T>): (r: seq<T>)
    ensures |r| == |xs|
    ensures forall i :: 0 <= i < |xs| ==> r[i] == f(xs[i])
  {
    if xs == [] then [] else [f(xs[0])] + Each(f, xs[1..])
  }

  lemma {:induction false} ReadAllPrinted<T(!new)>(print_: T -> Value, read: Value -> Option<T>, clean: T -> T, xs: seq<T>)
    requires forall x :: read(print_(x)) == Some(clean(x))
    ensures ReadAll(read, PrintAll(print_, xs)) == Some(Each(clean, xs))
    decreases |xs|
  {
    if xs != [] {
      assert PrintAll(print_, xs)[1..] == PrintAll(print_, xs[1..]);
      ReadAllPrinted(print_, read, clean, xs[1..]);
      assert read(print_(xs[0])) == Some(clean(xs[0]));
    }
  }

  /** A required array. */
  function ReadArray<T>(read: Value -> Option<T>, v: Option<Value>): Option<seq<T>> {
    match v
    case Some(Array(items)) => ReadAll(read, items)
    case _ => None
  }

  function ReadOptionalArray<T>(read: Value -> Option<T>, v: Option<Value>): Option<Option<seq<T>>> {
    match v
    case None => Some(None)
    case Some(Null) => Some(None)
    case Some(Array(items)) =>
      (match ReadAll(read, items)
       case Some(xs) => Some(Some(xs))
       case None => None)
    case _ => None
  }

  // --- parts ----------------------------------------------------------------------------------

  function PrintFile(file: FileData): Value {
    match file
    case Bytes(bytes, mimeType, name) =>
      Object(With(With(map["bytes" := String(bytes)], "mimeType", Text(mimeType)), "name", Text(name)))
    case Uri(uri, mimeType, name) =>
      Object(With(With(map["uri" := String(uri)], "mimeType", Text(mimeType)), "name", Text(name)))
  }

  /** A file is told by its fields, inline bytes first. */
  function ReadFile(v: Option<Value>): Option<FileData> {
    match v
    case Some(Object(f)) =>
      (match (ReadOptionalText(Look(f, "mimeType")), ReadOptionalText(Look(f, "name")))
       case (Some(mimeType), Some(name)) =>
         (match (AsString(Look(f, "bytes")), AsString(Look(f, "uri")))
          case (Some(bytes), _) => Some(Bytes(bytes, mimeType, name))
          case (None, Some(uri)) => Some(Uri(uri, mimeType, name))
          case _ => None)
       case _ => None)
    case _ => None
  }

  function PrintPart(p: Part): Value {
    match p
    case TextPart(text, metadata) =>
      Object(With(map["kind" := String("text"), "text" := String(text)], "metadata", metadata))
    case FilePart(file, metadata) =>
      Object(With(map["kind" := String("file"), "file" := PrintFile(file)], "metadata", metadata))
    case DataPart(data, metadata) =>
      Object(With(map["kind" := String("data"), "data" := data], "metadata", metadata))
  }

  function ReadPart(v: Value): Option<Part> {
    if !v.Object? then None
    else
      var f := v.fields;
      var metadata := ReadOptional(Look(f, "metadata"));
      var kind := AsString(Look(f, "kind"));
      if kind == Some("text") then
        match AsString(Look(f, "text"))
        case Some(text) => Some(TextPart(text, metadata))
        case None => None
      else if kind == Some("file") then
        match ReadFile(Look(f, "file"))
        case Some(file) => Some(FilePart(file, metadata))
        case None => None
      else if kind == Some("data") then
        match Look(f, "data")
        case Some(data) => Some(DataPart(data, metadata))
        case None => None
      else None
  }

  // --- messages ---------------------------------------------------------------------------------

  function PrintRole(role: Role): Value {
    match role
    case User => String("user")
    case Agent => String("agent")
  }

  function ReadRole(v: Option<Value>): Option<Role> {
    if v == Some(String("user")) then Some(User)
    else if v == Some(String("agent")) then Some(Agent)
    else None
  }

  const MESSAGE: string := "message"

  function MessageFields(m: Message): Fields {
    With(With(With(
      map["kind" := String(m.kind), "role" := PrintRole(m.role),
          "parts" := Array(PrintAll(PrintPart, m.parts)), "messageId" := String(m.messageId)],
      "taskId", Text(m.taskId)), "contextId", Text(m.contextId)), "metadata", m.metadata)
  }

  function PrintMessage(m: Message): Value {
    Object(MessageFields(m))
  }

  /** The discriminator, which a message may leave out. */
  function ReadKind(v: Option<Value>): Option<string> {
    if v == None then Some(MESSAGE) else AsString(v)
  }

  function ReadMessageFields(f: Fields): Option<Message> {
    var kind := ReadKind(Look(f, "kind"));
    var role := ReadRole(Look(f, "role"));
    var parts := ReadArray(ReadPart, Look(f, "parts"));
    var messageId := AsString(Look(f, "messageId"));
    var taskId := ReadOptionalText(Look(f, "taskId"));
    var contextId := ReadOptionalText(Look(f, "contextId"));
    if kind.None? || role.None? || parts.None? || messageId.None? || taskId.None? || contextId.None? then None
    else
      Some(Message(kind.value, role.value, parts.value, messageId.value, taskId.value, contextId.value,
                   ReadOptional(Look(f, "metadata"))))
  }

  function ReadMessage(v: Value): Option<Message> {
    if v.Object? then ReadMessageFields(v.fields) else None
  }

  // --- tasks ---------------------------------------------------------------------------------------

  function PrintState(state: TaskState): string {
    match state
    case Submitted => "submitted"
    case Working => "working"
    case InputRequired => "input-required"
    case Completed => "completed"
    case Canceled => "canceled"
    case Failed => "failed"
    case Rejected => "rejected"
    case AuthRequired => "auth-required"
    case Unknown => "unknown"
  }

  /** A name that is no other state's reads as unknown. */
  function ReadState(v: Option<Value>): Option<TaskState> {
    match v
    case Some(String(s)) =>
      Some(if s == "submitted" then Submitted
           else if s == "working" then Working
           else if s == "input-required" then InputRequired
           else if s == "completed" then Completed
           else if s == "canceled" then Canceled
           else if s == "failed" then Failed
           else if s == "rejected" then Rejected
           else if s == "auth-required" then AuthRequired
           else Unknown)
    case _ => None
  }

  function PrintStatus(s: TaskStatus): Value {
    Object(With(With(
      map["state" := String(PrintState(s.state))],
      "message", match s.message case Some(m) => Some(PrintMessage(m)) case None => None),
      "timestamp", Text(s.timestamp)))
  }

  function ReadOptionalMessage(v: Option<Value>): Option<Option<Message>> {
    match v
    case None => Some(None)
    case Some(Null) => Some(None)
    case Some(value) =>
      match ReadMessage(value)
      case Some(m) => Some(Some(m))
      case None => None
  }

  function ReadStatus(v: Option<Value>): Option<TaskStatus> {
    match v
    case Some(Object(f)) =>
      (match (ReadState(Look(f, "state")), ReadOptionalMessage(Look(f, "message")), ReadOptionalText(Look(f, "timestamp")))
       case (Some(state), Some(message), Some(timestamp)) => Some(TaskStatus(state, message, timestamp))
       case _ => None)
    case _ => None
  }

  function PrintArtifact(a: Artifact): Value {
    Object(With(With(With(
      map["artifactId" := String(a.artifactId), "parts" := Array(PrintAll(PrintPart, a.parts))],
      "name", Text(a.name)), "description", Text(a.description)), "metadata", a.metadata))
  }

  function ReadArtifact(v: Value): Option<Artifact> {
    if !v.Object? then None
    else
      var f := v.fields;
      var artifactId := AsString(Look(f, "artifactId"));
      var name := ReadOptionalText(Look(f, "name"));
      var description := ReadOptionalText(Look(f, "description"));
      var parts := ReadArray(ReadPart, Look(f, "parts"));
      if artifactId.None? || name.None? || description.None? || parts.None? then None
      else Some(Artifact(artifactId.value, name.value, description.value, parts.value, ReadOptional(Look(f, "metadata"))))
  }

  function PrintList<T>(print_: T -> Value, xs: Option<seq<T>>): Option<Value> {
    match xs
    case Some(items) => Some(Array(PrintAll(print_, items)))
    case None => None
  }

  function TaskFields(t: Task): Fields {
    With(With(With(
      map["id" := String(t.id), "contextId" := String(t.contextId), "status" := PrintStatus(t.status)],
      "artifacts", PrintList(PrintArtifact, t.artifacts)),
      "history", PrintList(PrintMessage, t.history)),
      "metadata", t.metadata)
  }

  function ReadTaskFields(f: Fields): Option<Task> {
    var id := AsString(Look(f, "id"));
    var contextId := AsString(Look(f, "contextId"));
    var status := ReadStatus(Look(f, "status"));
    var artifacts := ReadOptionalArray(ReadArtifact, Look(f, "artifacts"));
    var history := ReadOptionalArray(ReadMessage, Look(f, "history"));
    if id.None? || contextId.None? || status.None? || artifacts.None? || history.None? then None
    else
      Some(Task(id.value, contextId.value, status.value, artifacts.value, history.value,
                ReadOptional(Look(f, "metadata"))))
  }

  function StatusUpdateFields(u: StatusUpdate): Fields {
    With(map["taskId" := String(u.taskId), "contextId" := String(u.contextId),
             "status" := PrintStatus(u.status), "final" := Bool(u.isFinal)],
         "metadata", u.metadata)
  }

  function ReadStatusUpdateFields(f: Fields): Option<StatusUpdate> {
    var taskId := AsString(Look(f, "taskId"));
    var contextId := AsString(Look(f, "contextId"));
    var status := ReadStatus(Look(f, "status"));
    var isFinal := ReadFlag(Look(f, "final"));
    if taskId.None? || contextId.None? || status.None? || isFinal.None? then None
    else Some(StatusUpdate(taskId.value, contextId.value, status.value, isFinal.value, ReadOptional(Look(f, "metadata"))))
  }

  function ArtifactUpdateFields(u: ArtifactUpdate): Fields {
    With(map["taskId" := String(u.taskId), "contextId" := String(u.contextId),
             "artifact" := PrintArtifact(u.artifact), "append" := Bool(u.append), "lastChunk" := Bool(u.lastChunk)],
         "metadata", u.metadata)
  }

  function ReadArtifactUpdateFields(f: Fields): Option<ArtifactUpdate> {
    var taskId := AsString(Look(f, "taskId"));
    var contextId := AsString(Look(f, "contextId"));
    var artifact := match Look(f, "artifact") case Some(v) => ReadArtifact(v) case None => None;
    var append := ReadFlag(Look(f, "append"));
    var lastChunk := ReadFlag(Look(f, "lastChunk"));
    if taskId.None? || contextId.None? || artifact.None? || append.None? || lastChunk.None? then None
    else
      Some(ArtifactUpdate(taskId.value, contextId.value, artifact.value, append.value, lastChunk.value,
                          ReadOptional(Look(f, "metadata"))))
  }

  // --- results and events ------------------------------------------------------------------------------

  /** The fields of a variant, its tag written first so that a field of the same name replaces it. */
  function Tagged(kind: string, f: Fields): Fields {
    map["kind" := String(kind)] + f
  }

  /** The tag of a value, and its other fields. */
  function Untagged(f: Fields): Option<(string, Fields)> {
    match AsString(Look(f, "kind"))
    case Some(kind) => Some((kind, f - {"kind"}))
    case None => None
  }

  function ResultFields(r: SendResult): Fields {
    match r
    case MessageResult(m) => Tagged(MESSAGE, MessageFields(m))
    case TaskResult(t) => Tagged("task", TaskFields(t))
  }

  function EventFields(e: Event): Fields {
    match e
    case MessageEvent(m) => Tagged(MESSAGE, MessageFields(m))
    case TaskEvent(t) => Tagged("task", TaskFields(t))
    case StatusEvent(u) => Tagged("status-update", StatusUpdateFields(u))
    case ArtifactEvent(u) => Tagged("artifact-update", ArtifactUpdateFields(u))
  }

  datatype WireError =
    | InvalidMessage
    | InvalidTask
    | InvalidStatusUpdate
    | InvalidArtifactUpdate
    | Rpc(code: int, message: string)
    | NoResult

  function MessageOr<R>(m: Option<Message>, wrap: Message -> R): Result<R, WireError> {
    match m case Some(message) => Ok(wrap(message)) case None => Err(InvalidMessage)
  }

  function TaskOr<R>(t: Option<Task>, wrap: Task -> R): Result<R, WireError> {
    match t case Some(task) => Ok(wrap(task)) case None => Err(InvalidTask)
  }

  /** The variant its tag names, if the other fields are that variant's. */
  function TaggedResult(f: Fields): Option<SendResult> {
    match Untagged(f)
    case None => None
    case Some((kind, rest)) =>
      if kind == MESSAGE then (match ReadMessageFields(rest) case Some(m) => Some(MessageResult(m)) case None => None)
      else if kind == "task" then (match ReadTaskFields(rest) case Some(t) => Some(TaskResult(t)) case None => None)
      else None
  }

  /** A result by its tag, or else by its shape. */
  function ParseSendResult(v: Value): Result<SendResult, WireError> {
    if !v.Object? then Err(InvalidMessage)
    else
      match TaggedResult(v.fields)
      case Some(r) => Ok(r)
      case None =>
        if "status" in v.fields then TaskOr(ReadTaskFields(v.fields), (t: Task) => TaskResult(t))
        else MessageOr(ReadMessageFields(v.fields), (m: Message) => MessageResult(m))
  }

  function TaggedEvent(f: Fields): Option<Event> {
    match Untagged(f)
    case None => None
    case Some((kind, rest)) =>
      if kind == MESSAGE then (match ReadMessageFields(rest) case Some(m) => Some(MessageEvent(m)) case None => None)
      else if kind == "task" then (match ReadTaskFields(rest) case Some(t) => Some(TaskEvent(t)) case None => None)
      else if kind == "status-update" then
        (match ReadStatusUpdateFields(rest) case Some(u) => Some(StatusEvent(u)) case None => None)
      else if kind == "artifact-update" then
        (match ReadArtifactUpdateFields(rest) case Some(u) => Some(ArtifactEvent(u)) case None => None)
      else None
  }

  /** An event by its tag, or else by its shape. */
  function ParseEvent(v: Value): Result<Event, WireError> {
    if !v.Object? then Err(InvalidMessage)
    else
      var f := v.fields;
      match TaggedEvent(f)
      case Some(e) => Ok(e)
      case None =>
        if "artifact" in f then
          match ReadArtifactUpdateFields(f)
          case Some(u) => Ok(ArtifactEvent(u))
          case None => Err(InvalidArtifactUpdate)
        else if "status" in f then
          if "taskId" in f then
            match ReadStatusUpdateFields(f)
            case Some(u) => Ok(StatusEvent(u))
            case None => Err(InvalidStatusUpdate)
          else TaskOr(ReadTaskFields(f), (t: Task) => TaskEvent(t))
        else MessageOr(ReadMessageFields(f), (m: Message) => MessageEvent(m))
  }

  const UNRECOGNIZED_CODE: int := -32603
  const UNRECOGNIZED: string := "unrecognized A2A error shape"

  /** The payload of a JSON-RPC response, or its error. */
  function ExtractResult(v: Value): Result<Value, WireError> {
    match Get(v, "error")
    case Some(e) =>
      (match (AsI64(Get(e, "code")), GetString(e, "message"))
       case (Some(code), Some(message)) => Err(Rpc(code, message))
       case _ => Err(Rpc(UNRECOGNIZED_CODE, UNRECOGNIZED)))
    case None =>
      match Get(v, "result")
      case Some(result) => Ok(result)
      case None => Err(NoResult)
  }
}
