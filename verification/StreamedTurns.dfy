/** The paused-turn protocol over the event streams of the service: when a streamed call opens another stream. */
module StreamedTurns {
  import opened Wrappers
  import opened Text
  import opened Json
  import opened Utf8
  import opened StreamEvents
  import opened EventLines
  import Turns = PauseTurns

  /** The events the lines received on a connection carry. */
  function Carried(parse: Parser, chunks: seq<Chunk>): seq<Value> {
    Events(parse, SplitLines(Decode(Received(chunks)).text).complete)
  }

  function Fresh<Usage>(usage: Usage): State<Usage> {
    State(Table(map[], usage), false)
  }

  /** What a consumer that stops at the first error sees of some items: the updates, and how they end. */
  function Seen<Details>(items: seq<Item<Details>>, paused: bool): Turns.Stream<Update<Details>, Failure> {
    if items == [] then Turns.Stream([], Turns.Exhausted(paused))
    else if items[0].Err? then Turns.Stream([], Turns.Broken(items[0].error))
    else
      var later := Seen(items[1..], paused);
      later.(updates := [items[0].value] + later.updates)
  }

  /** The stream opened on a connection, its pause flag as the last event leaves it. */
  function Opened<Details, Usage>(c: Conversion<Details, Usage>, parse: Parser, usage: Usage, chunks: seq<Chunk>)
      : Turns.Stream<Update<Details>, Failure>
  {
    Seen(FromChunks(c, parse, Fresh(usage), "", [], chunks), HandleAll(c, Fresh(usage), Carried(parse, chunks)).state.paused)
  }

  lemma {:induction false} SeenUpdates<Details>(updates: seq<Update<Details>>, later: seq<Item<Details>>, paused: bool)
    ensures Seen(Yielded(updates) + later, paused)
         == Seen(later, paused).(updates := updates + Seen(later, paused).updates)
    decreases |updates|
  {
    var items := Yielded(updates) + later;
    if updates == [] {
      assert items == later;
      assert [] + Seen(later, paused).updates == Seen(later, paused).updates;
    } else {
      assert items[1..] == Yielded(updates[1..]) + later;
      SeenUpdates(updates[1..], later, paused);
      assert [updates[0]] + (updates[1..] + Seen(later, paused).updates) == updates + Seen(later, paused).updates;
    }
  }

  /** A stream ends without error exactly when no event was an error and the connection did not break. */
  predicate IsWhole(parse: Parser, chunks: seq<Chunk>) {
    BreakError(chunks).None? && forall v :: v in Carried(parse, chunks) ==> !IsErrorEvent(v)
  }

  predicate HoldsPause(values: seq<Value>) {
    exists v :: v in values && FlagsPause(v)
  }

  lemma {:induction false} WithoutError<Details, Usage>(c: Conversion<Details, Usage>, s: State<Usage>, values: seq<Value>)
    ensures HandleAll(c, s, values).error.None? <==> forall v :: v in values ==> !IsErrorEvent(v)
    decreases |values|
  {
    hide Handle, HandleAll, IsErrorEvent;
    HandleAllStep(c, s, values);
    if values != [] {
      HandleFails(c, s, values[0]);
      WithoutError(c, Handle(c, s, values[0]).0, values[1..]);
      assert values == [values[0]] + values[1..];
    }
  }

  /** However its bytes are cut, a whole stream brings all the updates of its events, and is flagged exactly by a pause among them. */
  lemma OpenedExactly<Details, Usage>(c: Conversion<Details, Usage>, parse: Parser, usage: Usage, chunks: seq<Chunk>)
    ensures Opened(c, parse, usage, chunks).end.Exhausted? <==> IsWhole(parse, chunks)
    ensures IsWhole(parse, chunks) ==>
              Opened(c, parse, usage, chunks)
              == Turns.Stream(HandleAll(c, Fresh(usage), Carried(parse, chunks)).updates,
                              Turns.Exhausted(HoldsPause(Carried(parse, chunks))))
  {
    hide FromChunks, HandleAll, Carried, Seen, Overtaken, IsErrorEvent, FlagsPause, WithError, Ending, Received, BreakError, Yielded;
    var values := Carried(parse, chunks);
    var s := Fresh<Usage>(usage);
    var h := HandleAll(c, s, values);
    WholeOfChunks(c, parse, usage, chunks);
    var overtaken := Overtaken(c, parse, s, "", [], chunks);
    WithoutError(c, s, values);
    EndingIs<Details>(BreakError(chunks));
    SeenWithError(h, overtaken, Ending(BreakError(chunks), h.error.Some?), h.state.paused);
    if h.error.None? {
      PausedExactly(c, s, values);
    }
  }

  lemma WholeOfChunks<Details, Usage>(c: Conversion<Details, Usage>, parse: Parser, usage: Usage, chunks: seq<Chunk>)
    ensures var h := HandleAll(c, Fresh(usage), Carried(parse, chunks));
            var overtaken := Overtaken(c, parse, Fresh(usage), "", [], chunks);
            && overtaken <= |h.updates|
            && FromChunks(c, parse, Fresh(usage), "", [], chunks)
               == WithError(h, overtaken) + Ending(BreakError(chunks), h.error.Some?)
  {
    hide FromChunks, HandleAll, Overtaken, WithError, Ending, Events, SplitLines, Decode, Received;
    NothingBuffered();
    assert [] + Received(chunks) == Received(chunks);
    var text := Decode(Received(chunks)).text;
    assert "" + text == text;
    ChunksYieldWhole(c, parse, Fresh(usage), "", [], chunks);
  }

  lemma SeenWithError<Details, Usage>(h: Handled<Details, Usage>, overtaken: nat, end: seq<Item<Details>>, paused: bool)
    requires overtaken <= |h.updates| && |end| <= 1 && (end != [] ==> end[0].Err?)
    ensures var seen := Seen(WithError(h, overtaken) + end, paused);
            && (seen.end.Exhausted? <==> h.error.None? && end == [])
            && (seen.end.Exhausted? ==> seen == Turns.Stream(h.updates, Turns.Exhausted(paused)))
  {
    hide Seen, Yielded;
    match h.error
    case None =>
      SeenUpdates(h.updates, end, paused);
      SeenFirst(end, paused);
      assert h.updates + [] == h.updates;
    case Some(e) =>
      var first := |h.updates| - overtaken;
      var rest := [Err(Service(e))] + Yielded(h.updates[first..]) + end;
      assert WithError(h, overtaken) + end == Yielded(h.updates[..first]) + rest;
      SeenUpdates(h.updates[..first], rest, paused);
      SeenFirst(rest, paused);
  }

  lemma SeenFirst<Details>(items: seq<Item<Details>>, paused: bool)
    ensures items == [] ==> Seen(items, paused) == Turns.Stream([], Turns.Exhausted(paused))
    ensures items != [] && items[0].Err? ==> Seen(items, paused) == Turns.Stream([], Turns.Broken(items[0].error))
  {
  }

  /** Connections as the protocol opens them, each answering one conversation. */
  type Connector<!Msg> = (nat, seq<Msg>) -> Result<seq<Chunk>, Failure>

  function Opener<Msg, Details, Usage>(c: Conversion<Details, Usage>, parse: Parser, usage: Usage, connect: Connector<Msg>)
      : Turns.Opener<Msg, Update<Details>, Failure>
  {
    (n: nat, conversation: seq<Msg>) =>
      match connect(n, conversation)
      case Ok(chunks) => Ok(Opened(c, parse, usage, chunks))
      case Err(e) => Err(e)
  }

  /** The turn a connection's events amount to. */
  function TurnOf<Msg, Turn, Details, Usage>(
      p: Turns.Conversion<Msg, Turn, Update<Details>>, c: Conversion<Details, Usage>, parse: Parser, usage: Usage,
      chunks: seq<Chunk>): Turn
  {
    p.fromUpdates(HandleAll(c, Fresh(usage), Carried(parse, chunks)).updates)
  }

  /** The rule for opening another stream, read off the bytes of one. */
  predicate Reopens<Msg, Turn, Details, Usage>(
      p: Turns.Conversion<Msg, Turn, Update<Details>>, c: Conversion<Details, Usage>, parse: Parser, usage: Usage,
      chunks: seq<Chunk>, n: nat)
  {
    && IsWhole(parse, chunks) && HoldsPause(Carried(parse, chunks))
    && n < Turns.MAX_CONTINUATIONS && Turns.AllReplayable(p, TurnOf(p, c, parse, usage, chunks))
  }

  /**
   After any stream of a call, another is opened exactly when that stream came whole, an
   event of it stopped on a pause, its turn can be replayed and the limit is not reached;
   and it is asked for the conversation with that turn appended.
   */
  lemma ReopensExactly<Msg, Turn, Details, Usage>(
      p: Turns.Conversion<Msg, Turn, Update<Details>>, c: Conversion<Details, Usage>, parse: Parser, usage: Usage,
      connect: Connector<Msg>, conversation: seq<Msg>, n: nat)
    requires n <= Turns.MAX_CONTINUATIONS
    ensures var b := Turns.BroadcastFrom(p, Opener(c, parse, usage, connect), conversation, n);
            && |b.requests| >= 1 && b.requests[0] == conversation
            && (|b.requests| > 1
                <==> connect(n, conversation).Ok? && Reopens(p, c, parse, usage, connect(n, conversation).value, n))
            && (|b.requests| > 1 ==>
                  b.requests[1] == conversation + p.messages(TurnOf(p, c, parse, usage, connect(n, conversation).value)))
  {
    hide Opened, Carried, HandleAll, IsWhole, HoldsPause, Turns.AllReplayable;
    var open := Opener(c, parse, usage, connect);
    if connect(n, conversation).Ok? {
      var chunks := connect(n, conversation).value;
      OpenedExactly(c, parse, usage, chunks);
      if Reopens(p, c, parse, usage, chunks, n) {
        FirstRequest(p, open, conversation + p.messages(TurnOf(p, c, parse, usage, chunks)), n + 1);
      }
    }
  }

  lemma FirstRequest<Msg, Turn, Update, E>(
      p: Turns.Conversion<Msg, Turn, Update>, open: Turns.Opener<Msg, Update, E>, conversation: seq<Msg>, n: nat)
    requires n <= Turns.MAX_CONTINUATIONS
    ensures var b := Turns.BroadcastFrom(p, open, conversation, n);
            |b.requests| >= 1 && b.requests[0] == conversation
  {
    hide Turns.AfterStream;
  }
}
