/** The event stream of a Messages API response: bytes to lines to events to updates. */
module EventLines {
  import opened Wrappers
  import opened Text
  import opened Json
  import opened Utf8
  import opened StreamEvents

  // --- lines and the events they carry ----------------------------------------------

  /** The event a line carries: `data:` and a JSON text. */
  function LineEvent(parse: Parser, raw: string): Option<Value> {
    var line := Trim(raw);
    if "data:" <= line then
      var data := Trim(line[5..]);
      if data == "" then None else parse(data)
    else None
  }

  /** A data line holds what is parsed, with any blanks around the line and its data. */
  lemma DataLineReads(parse: Parser, before: string, gap: string, json: string, after: string)
    requires AreBlank(before) && AreBlank(gap) && AreBlank(after) && Trimmed(json)
    ensures LineEvent(parse, before + "data:" + gap + json + after) == if json == "" then None else parse(json)
  {
    hide Trim;
    if json == "" {
      var blanks := gap + after;
      TrimmedAway(parse, before, blanks);
      assert before + "data:" + gap + json + after == before + "data:" + blanks;
    } else {
      var rest := gap + json;
      var line := "data:" + rest;
      assert line[|line| - 1] == json[|json| - 1];
      TrimAround(before, line, after);
      assert before + "data:" + gap + json + after == before + line + after;
      assert line[5..] == gap + json + "";
      TrimAround(gap, json, "");
    }
  }

  lemma TrimmedAway(parse: Parser, before: string, blanks: string)
    requires AreBlank(before) && AreBlank(blanks)
    ensures LineEvent(parse, before + "data:" + blanks) == None
  {
    hide Trim;
    TrimAround(before, "data:", blanks);
    assert "data:"[5..] == "";
    OnlyBlanks("");
  }

  /** Any other line, an event's name, a comment or none at all, is passed over. */
  lemma OtherLinePasses(parse: Parser, before: string, text: string, after: string)
    requires AreBlank(before) && AreBlank(after) && Trimmed(text) && !("data:" <= text)
    ensures LineEvent(parse, before + text + after) == None
  {
    hide Trim;
    if text == "" {
      assert before + text + after == before + after;
      OnlyBlanks(before + after);
    } else {
      TrimAround(before, text, after);
    }
  }

  function Events(parse: Parser, lines: seq<string>): seq<Value> {
    if lines == [] then []
    else AsList(LineEvent(parse, lines[0])) + Events(parse, lines[1..])
  }

  lemma {:induction false} EventsAppend(parse: Parser, a: seq<string>, b: seq<string>)
    ensures Events(parse, a + b) == Events(parse, a) + Events(parse, b)
    decreases |a|
  {
    hide LineEvent, AsList;
    if a == [] {
      assert a + b == b;
    } else {
      assert (a + b)[1..] == a[1..] + b;
      EventsAppend(parse, a[1..], b);
      var first := AsList(LineEvent(parse, a[0]));
      assert first + (Events(parse, a[1..]) + Events(parse, b)) == first + Events(parse, a[1..]) + Events(parse, b);
    }
  }

  // --- the stream as a whole ---------------------------------------------------------

  datatype Failure = Service(message: string) | Transport(error: string)

  type Item<Details> = Result<Update<Details>, Failure>

  function Yielded<Details>(updates: seq<Update<Details>>): (r: seq<Item<Details>>)
    ensures |r| == |updates|
    ensures forall i :: 0 <= i < |r| ==> r[i] == Ok(updates[i])
  {
    AllOk(updates)
  }

  lemma YieldedAppend<Details>(a: seq<Update<Details>>, b: seq<Update<Details>>)
    ensures Yielded(a + b) == Yielded(a) + Yielded(b)
  {
  }

  /**
   The items a stream yields from some state on. An error event ends it, but is yielded
   before the updates queued from the same chunk.
   */
  function FromChunks<Details, Usage>(
      c: Conversion<Details, Usage>, parse: Parser, s: State<Usage>, buffer: string, pending: seq<Byte>, chunks: seq<Chunk>)
      : seq<Item<Details>>
    decreases |chunks|
  {
    if chunks == [] then []
    else if chunks[0].Broken? then [Err(Transport(chunks[0].error))]
    else
      var decoded := Decode(pending + chunks[0].bytes);
      var lines := SplitLines(buffer + decoded.text);
      var h := HandleAll(c, s, Events(parse, lines.complete));
      if h.error.Some? then [Err(Service(h.error.value))] + Yielded(h.updates)
      else Yielded(h.updates) + FromChunks(c, parse, h.state, lines.rest, decoded.rest, chunks[1..])
  }

  class SseState<Details, Usage> {
    const c: Conversion<Details, Usage>
    const parse: Parser
    const parser: StreamParser<Details, Usage>
    const utf8: Utf8StreamDecoder
    var chunks: seq<Chunk>
    var buffer: string
    var queued: seq<Update<Details>>
    var done: bool

    ghost predicate Valid()
      reads this
    {
      parser.c == c
    }

    /** The items still to come. */
    function Rest(): seq<Item<Details>>
      reads this, parser, utf8
    {
      Yielded(queued) + if done then [] else FromChunks(c, parse, parser.Current(), buffer, utf8.pending, chunks)
    }

    constructor (c: Conversion<Details, Usage>, parse: Parser, usage: Usage, chunks: seq<Chunk>)
      ensures Valid() && fresh(parser) && fresh(utf8) && this.c == c && this.parse == parse
      ensures Rest() == FromChunks(c, parse, State(Table(map[], usage), false), "", [], chunks)
    {
      this.c, this.parse, this.chunks := c, parse, chunks;
      parser := new StreamParser(c, usage);
      utf8 := new Utf8StreamDecoder();
      buffer, queued, done := "", [], false;
      new;
      hide FromChunks, Yielded;
      NothingQueued<Details>(FromChunks(c, parse, parser.Current(), buffer, utf8.pending, chunks));
    }

    /** One poll: the next item still to come, or nothing once there is none. */
    method Next() returns (item: Option<Item<Details>>)
      requires Valid()
      modifies this, parser, utf8
      ensures Valid()
      ensures item.None? ==> old(Rest()) == []
      ensures item.Some? ==> [item.value] + Rest() == old(Rest())
    {
      hide FromChunks, Decode, HandleAll, SplitLines, Events, Yielded;
      ghost var whole := Rest();
      while true
        invariant Valid()
        invariant Rest() == whole
        decreases |chunks|
      {
        if queued != [] {
          YieldedFront(queued);
          item := Some(Ok(queued[0]));
          queued := queued[1..];
          return;
        }
        NothingQueued(if done then [] else FromChunks(c, parse, parser.Current(), buffer, utf8.pending, chunks));
        if done {
          return None;
        }
        ChunkStep(c, parse, parser.Current(), buffer, utf8.pending, chunks);
        if chunks == [] {
          return None;
        }
        var chunk := chunks[0];
        chunks := chunks[1..];
        if chunk.Broken? {
          done := true;
          NothingQueued<Details>([]);
          return Some(Err(Transport(chunk.error)));
        }
        var text := utf8.Push(chunk.bytes);
        buffer := buffer + text;
        var error := HandleLines();
        if error.Some? {
          done := true;
          assert Yielded(queued) + [] == Yielded(queued);
          return Some(Err(Service(error.value)));
        }
      }
    }

    /** Takes the complete lines off the buffer, queueing their updates up to an error. */
    method HandleLines() returns (error: Option<string>)
      requires Valid() && queued == []
      modifies this`buffer, this`queued, parser
      ensures Valid()
      ensures var lines := SplitLines(old(buffer));
              var h := HandleAll(c, old(parser.Current()), Events(parse, lines.complete));
              && queued == h.updates && error == h.error && parser.Current() == h.state
              && (error.None? ==> buffer == lines.rest)
    {
      hide SplitLines, LineEvent, Handle, SplitOnce;
      ghost var lines := SplitLines(buffer);
      ghost var h := HandleAll(c, parser.Current(), Events(parse, lines.complete));
      while true
        invariant Valid()
        invariant SplitLines(buffer).rest == lines.rest
        invariant h == Queueing(queued, HandleAll(c, parser.Current(), Events(parse, SplitLines(buffer).complete)))
        decreases |buffer|
      {
        LineStep(c, parse, parser.Current(), buffer);
        var split := SplitOnce(buffer, {'\n'});
        if split.None? {
          return None;
        }
        var (line, rest) := split.value;
        buffer := rest;
        var event := LineEvent(parse, line);
        if event.None? {
          continue;
        }
        var r := parser.HandleStreamValue(event.value);
        match r
        case Ok(Some(update)) =>
          QueueingTwice(queued, [update], HandleAll(c, parser.Current(), Events(parse, SplitLines(buffer).complete)));
          queued := queued + [update];
        case Ok(None) =>
          QueueingTwice(queued, [], HandleAll(c, parser.Current(), Events(parse, SplitLines(buffer).complete)));
          assert queued + [] == queued;
        case Err(e) =>
          assert queued + [] == queued;
          return Some(e);
      }
    }
  }

  function Queueing<Details, Usage>(queued: seq<Update<Details>>, h: Handled<Details, Usage>): Handled<Details, Usage> {
    h.(updates := queued + h.updates)
  }

  lemma QueueingTwice<Details, Usage>(a: seq<Update<Details>>, b: seq<Update<Details>>, h: Handled<Details, Usage>)
    ensures Queueing(a, Queueing(b, h)) == Queueing(a + b, h)
    ensures Queueing([], h) == h
  {
    assert a + (b + h.updates) == a + b + h.updates;
    assert [] + h.updates == h.updates;
  }

  lemma YieldedFront<Details>(queued: seq<Update<Details>>)
    requires queued != []
    ensures forall rest: seq<Item<Details>> :: Yielded(queued) + rest == [Ok(queued[0])] + (Yielded(queued[1..]) + rest)
  {
    assert Yielded(queued) == [Ok(queued[0])] + Yielded(queued[1..]);
  }

  lemma NothingQueued<Details>(rest: seq<Item<Details>>)
    ensures Yielded([]) + rest == rest
  {
  }

  lemma ChunkStep<Details, Usage>(
      c: Conversion<Details, Usage>, parse: Parser, s: State<Usage>, buffer: string, pending: seq<Byte>, chunks: seq<Chunk>)
    ensures FromChunks(c, parse, s, buffer, pending, chunks) ==
            if chunks == [] then []
            else if chunks[0].Broken? then [Err(Transport(chunks[0].error))]
            else
              var decoded := Decode(pending + chunks[0].bytes);
              var lines := SplitLines(buffer + decoded.text);
              var h := HandleAll(c, s, Events(parse, lines.complete));
              if h.error.Some? then [Err(Service(h.error.value))] + Yielded(h.updates)
              else Yielded(h.updates) + FromChunks(c, parse, h.state, lines.rest, decoded.rest, chunks[1..])
  {
  }

  /** What taking one line off the buffer makes of the events still to be handled. */
  lemma LineStep<Details, Usage>(c: Conversion<Details, Usage>, parse: Parser, s: State<Usage>, buffer: string)
    ensures SplitOnce(buffer, {'\n'}).None? ==>
              SplitLines(buffer).rest == buffer && HandleAll(c, s, Events(parse, SplitLines(buffer).complete)) == Handled([], None, s)
    ensures SplitOnce(buffer, {'\n'}).Some? ==>
              (var (line, rest) := SplitOnce(buffer, {'\n'}).value;
               var later := Events(parse, SplitLines(rest).complete);
               && SplitLines(buffer).rest == SplitLines(rest).rest
               && HandleAll(c, s, Events(parse, SplitLines(buffer).complete))
                  == (match LineEvent(parse, line)
                      case None => HandleAll(c, s, later)
                      case Some(v) =>
                        match Handle(c, s, v)
                        case (next, Err(e)) => Handled([], Some(e), next)
                        case (next, Ok(Some(update))) => Queueing([update], HandleAll(c, next, later))
                        case (next, Ok(None)) => Queueing([], HandleAll(c, next, later))))
  {
    hide Handle, LineEvent;
    match SplitOnce(buffer, {'\n'})
    case None =>
    case Some((line, rest)) =>
      var more := SplitLines(rest).complete;
      assert ([line] + more)[1..] == more;
      match LineEvent(parse, line)
      case None => assert [] + Events(parse, more) == Events(parse, more);
      case Some(v) => assert ([v] + Events(parse, more))[1..] == Events(parse, more);
  }

  // --- what a stream yields does not depend on how it was cut ------------------------

  /** All that the bytes still to come bring, whatever their chunks. */
  function Whole<Details, Usage>(
      c: Conversion<Details, Usage>, parse: Parser, s: State<Usage>, buffer: string, pending: seq<Byte>, bytes: seq<Byte>)
      : Handled<Details, Usage>
  {
    HandleAll(c, s, Events(parse, SplitLines(buffer + Decode(pending + bytes).text).complete))
  }

  /** How many updates the error that ends the stream overtakes: those queued from its own chunk. */
  function Overtaken<Details, Usage>(
      c: Conversion<Details, Usage>, parse: Parser, s: State<Usage>, buffer: string, pending: seq<Byte>, chunks: seq<Chunk>)
      : nat
    decreases |chunks|
  {
    if chunks == [] || chunks[0].Broken? then 0
    else
      var decoded := Decode(pending + chunks[0].bytes);
      var lines := SplitLines(buffer + decoded.text);
      var h := HandleAll(c, s, Events(parse, lines.complete));
      if h.error.Some? then |h.updates| else Overtaken(c, parse, h.state, lines.rest, decoded.rest, chunks[1..])
  }

  /** The updates and the error of a stream, the error moved ahead of its last `overtaken` updates. */
  function WithError<Details, Usage>(h: Handled<Details, Usage>, overtaken: nat): seq<Item<Details>>
    requires overtaken <= |h.updates|
  {
    match h.error
    case None => Yielded(h.updates)
    case Some(e) =>
      var first := |h.updates| - overtaken;
      Yielded(h.updates[..first]) + [Err(Service(e))] + Yielded(h.updates[first..])
  }

  /** What some events bring and then what later ones do, which an error forestalls. */
  function Followed<Details, Usage>(h: Handled<Details, Usage>, later: Handled<Details, Usage>): Handled<Details, Usage> {
    if h.error.Some? then h else Queueing(h.updates, later)
  }

  lemma WholeSplits<Details, Usage>(
      c: Conversion<Details, Usage>, parse: Parser, s: State<Usage>, buffer: string, pending: seq<Byte>,
      first: seq<Byte>, later: seq<Byte>)
    ensures var decoded := Decode(pending + first);
            var lines := SplitLines(buffer + decoded.text);
            var h := HandleAll(c, s, Events(parse, lines.complete));
            Whole(c, parse, s, buffer, pending, first + later)
            == Followed(h, Whole(c, parse, h.state, lines.rest, decoded.rest, later))
  {
    hide HandleAll, SplitLines, Events, Decode;
    var decoded := Decode(pending + first);
    var lines := SplitLines(buffer + decoded.text);
    assert pending + (first + later) == pending + first + later;
    DecodeAppend(pending + first, later);
    var more := Decode(decoded.rest + later);
    AfterParts(decoded.text, more);
    assert buffer + (decoded.text + more.text) == buffer + decoded.text + more.text;
    SplitLinesAppend(buffer + decoded.text, more.text);
    var tail := SplitLines(lines.rest + more.text);
    EventsAppend(parse, lines.complete, tail.complete);
    HandleAllAppend(c, s, Events(parse, lines.complete), Events(parse, tail.complete));
  }

  /** What ends the items of a stream, unless an event error already did: the connection's error, if it breaks. */
  function Ending<Details>(error: Option<string>, failed: bool): seq<Item<Details>> {
    match error
    case Some(e) => if failed then [] else [Err(Transport(e))]
    case None => []
  }

  /**
   However the bytes are cut, the stream yields the updates of the whole text in order, and
   then the connection's error if it breaks; an error event ends it, yielded ahead of the
   updates queued from its own chunk.
   */
  lemma {:induction false} ChunksYieldWhole<Details, Usage>(
      c: Conversion<Details, Usage>, parse: Parser, s: State<Usage>, buffer: string, pending: seq<Byte>, chunks: seq<Chunk>)
    requires SplitLines(buffer + Decode(pending).text).complete == []
    ensures var h := Whole(c, parse, s, buffer, pending, Received(chunks));
            var overtaken := Overtaken(c, parse, s, buffer, pending, chunks);
            && overtaken <= |h.updates|
            && FromChunks(c, parse, s, buffer, pending, chunks) == WithError(h, overtaken) + Ending(BreakError(chunks), h.error.Some?)
    decreases |chunks|
  {
    hide HandleAll, SplitLines, Events, Decode, Whole, FromChunks, Yielded, WithError, Ending;
    ChunkStep(c, parse, s, buffer, pending, chunks);
    EndingIs<Details>(BreakError(chunks));
    if chunks == [] || chunks[0].Broken? {
      AllYielded<Details, Usage>(Handled([], None, s), 0);
      NothingWhole(c, parse, s, buffer, pending);
      NothingQueued(Ending<Details>(BreakError(chunks), false));
    } else {
      var decoded := Decode(pending + chunks[0].bytes);
      var lines := SplitLines(buffer + decoded.text);
      var h := HandleAll(c, s, Events(parse, lines.complete));
      WholeSplits(c, parse, s, buffer, pending, chunks[0].bytes, Received(chunks[1..]));
      if h.error.Some? {
        ErrorFirst(h);
        assert WithError(h, |h.updates|) + [] == WithError(h, |h.updates|);
      } else {
        RestIsPartial(buffer, pending + chunks[0].bytes);
        ChunksYieldWhole(c, parse, h.state, lines.rest, decoded.rest, chunks[1..]);
        var rest := Whole(c, parse, h.state, lines.rest, decoded.rest, Received(chunks[1..]));
        var overtaken := Overtaken(c, parse, h.state, lines.rest, decoded.rest, chunks[1..]);
        WithErrorAfter(h.updates, rest, overtaken);
        assert Yielded(h.updates) + (WithError(rest, overtaken) + Ending(BreakError(chunks), rest.error.Some?))
            == Yielded(h.updates) + WithError(rest, overtaken) + Ending(BreakError(chunks), rest.error.Some?);
      }
    }
  }

  lemma EndingIs<Details>(error: Option<string>)
    ensures Ending<Details>(error, true) == []
    ensures Ending<Details>(error, false) == if error.Some? then [Err(Transport(error.value))] else []
  {
  }

  lemma NothingBuffered()
    ensures SplitLines("" + Decode([]).text).complete == []
  {
  }

  lemma NothingWhole<Details, Usage>(
      c: Conversion<Details, Usage>, parse: Parser, s: State<Usage>, buffer: string, pending: seq<Byte>)
    requires SplitLines(buffer + Decode(pending).text).complete == []
    ensures Whole(c, parse, s, buffer, pending, []) == Handled([], None, s)
  {
    assert pending + [] == pending;
  }

  /** What is left of the lines and the bytes makes no complete line. */
  lemma RestIsPartial(buffer: string, bytes: seq<Byte>)
    ensures var lines := SplitLines(buffer + Decode(bytes).text);
            SplitLines(lines.rest + Decode(Decode(bytes).rest).text).complete == []
  {
    DecodeRest(bytes);
    SplitRest(buffer + Decode(bytes).text);
    var rest := SplitLines(buffer + Decode(bytes).text).rest;
    assert rest + "" == rest;
  }

  lemma ErrorFirst<Details, Usage>(h: Handled<Details, Usage>)
    requires h.error.Some?
    ensures WithError(h, |h.updates|) == [Err(Service(h.error.value))] + Yielded(h.updates)
  {
    assert h.updates[..0] == [] && h.updates[0..] == h.updates;
    NothingQueued([Err(Service(h.error.value))] + Yielded(h.updates));
  }

  lemma AllYielded<Details, Usage>(h: Handled<Details, Usage>, overtaken: nat)
    requires h.error.None? && overtaken <= |h.updates|
    ensures WithError(h, overtaken) == Yielded(h.updates)
  {
  }

  lemma WithErrorAfter<Details, Usage>(updates: seq<Update<Details>>, h: Handled<Details, Usage>, overtaken: nat)
    requires overtaken <= |h.updates|
    ensures Yielded(updates) + WithError(h, overtaken) == WithError(Queueing(updates, h), overtaken)
  {
    hide Yielded;
    if h.error.None? {
      YieldedAppend(updates, h.updates);
    } else {
      var first := |h.updates| - overtaken;
      PartsLater(updates, h.updates, first);
      YieldedAppend(updates, h.updates[..first]);
      MiddleLater<Item<Details>>(Yielded(updates), Yielded(h.updates[..first]), Err(Service(h.error.value)), Yielded(h.updates[first..]));
    }
  }

  lemma PartsLater<T>(before: seq<T>, s: seq<T>, cut: nat)
    requires cut <= |s|
    ensures (before + s)[..|before + s| - (|s| - cut)] == before + s[..cut]
    ensures (before + s)[|before + s| - (|s| - cut)..] == s[cut..]
  {
  }

  lemma MiddleLater<T>(before: seq<T>, first: seq<T>, middle: T, last: seq<T>)
    ensures before + (first + [middle] + last) == (before + first) + [middle] + last
  {
  }

  // --- the stream of decoded events ----------------------------------------------------

  /** One poll of a transport that delivers events decoded: an event, or the error that breaks it. */
  type Incoming = Result<Value, string>

  /** The items such a transport's events yield, up to the first error and with it. */
  function FromValues<Details, Usage>(c: Conversion<Details, Usage>, s: State<Usage>, incoming: seq<Incoming>)
      : seq<Item<Details>>
    decreases |incoming|
  {
    if incoming == [] then []
    else if incoming[0].Err? then [Err(Transport(incoming[0].error))]
    else
      var (next, r) := Handle(c, s, incoming[0].value);
      if r.Err? then [Err(Service(r.error))]
      else Yielded(AsList(r.value)) + FromValues(c, next, incoming[1..])
  }

  class EventValueStream<Details, Usage> {
    const parser: StreamParser<Details, Usage>
    var incoming: seq<Incoming>
    var done: bool

    function Rest(): seq<Item<Details>>
      reads this, parser
    {
      if done then [] else FromValues(parser.c, parser.Current(), incoming)
    }

    constructor (c: Conversion<Details, Usage>, usage: Usage, incoming: seq<Incoming>)
      ensures fresh(parser)
      ensures Rest() == FromValues(c, State(Table(map[], usage), false), incoming)
    {
      parser := new StreamParser(c, usage);
      this.incoming, done := incoming, false;
    }

    method Next() returns (item: Option<Item<Details>>)
      modifies this, parser
      ensures item.None? ==> old(Rest()) == []
      ensures item.Some? ==> [item.value] + Rest() == old(Rest())
    {
      hide Handle, FromValues, Yielded;
      if done {
        return None;
      }
      ghost var whole := Rest();
      while true
        invariant !done && Rest() == whole
        decreases |incoming|
      {
        ValueStep(parser.c, parser.Current(), incoming);
        if incoming == [] {
          return None;
        }
        var polled := incoming[0];
        incoming := incoming[1..];
        if polled.Err? {
          done := true;
          return Some(Err(Transport(polled.error)));
        }
        var r := parser.HandleStreamValue(polled.value);
        if r.Err? {
          done := true;
          return Some(Err(Service(r.error)));
        }
        if r.value.Some? {
          return Some(Ok(r.value.value));
        }
      }
    }
  }

  lemma ValueStep<Details, Usage>(c: Conversion<Details, Usage>, s: State<Usage>, incoming: seq<Incoming>)
    ensures FromValues(c, s, incoming) ==
            if incoming == [] then []
            else if incoming[0].Err? then [Err(Transport(incoming[0].error))]
            else
              var (next, r) := Handle(c, s, incoming[0].value);
              if r.Err? then [Err(Service(r.error))]
              else if r.value.None? then FromValues(c, next, incoming[1..])
              else [Ok(r.value.value)] + FromValues(c, next, incoming[1..])
  {
    hide Handle;
    if incoming != [] && incoming[0].Ok? && Handle(c, s, incoming[0].value).1.Ok? {
      var (next, r) := Handle(c, s, incoming[0].value);
      NothingQueued(FromValues(c, next, incoming[1..]));
      assert r.value.Some? ==> Yielded([r.value.value]) == [Ok(r.value.value)];
    }
  }

  /** Decoded events, and then the error that breaks their transport, if it does. */
  function Polls(values: seq<Value>, error: Option<string>): seq<Incoming> {
    AllOk(values) + match error case Some(e) => [Err(e)] case None => []
  }

  /** Decoded events yield their updates in order, then the event error that ends them or else the transport's. */
  lemma {:induction false} ValuesYield<Details, Usage>(
      c: Conversion<Details, Usage>, s: State<Usage>, values: seq<Value>, error: Option<string>)
    ensures var h := HandleAll(c, s, values);
            FromValues(c, s, Polls(values, error)) == WithError(h, 0) + Ending(error, h.error.Some?)
    decreases |values|
  {
    hide HandleAll, Handle, FromValues, WithError, Yielded, Ending, AsList;
    HandleAllStep(c, s, values);
    ValueStep(c, s, Polls(values, error));
    EndingIs<Details>(error);
    if values == [] {
      assert Polls(values, error) == match error case Some(e) => [Err(e)] case None => [];
      AllYielded<Details, Usage>(Handled([], None, s), 0);
      NothingQueued<Details>(Ending(error, false));
      assert error.Some? ==> Polls(values, error)[0] == Err(error.value);
    } else {
      var (next, r) := Handle(c, s, values[0]);
      assert Polls(values, error)[1..] == Polls(values[1..], error);
      if r.Err? {
        ErrorOnly<Details, Usage>(r.error, next);
      } else {
        ValuesYield(c, next, values[1..], error);
        var rest := HandleAll(c, next, values[1..]);
        WithErrorAfter(AsList(r.value), rest, 0);
        OneYielded(r.value, WithError(rest, 0), Ending(error, rest.error.Some?));
      }
    }
  }

  lemma ErrorOnly<Details, Usage>(e: string, s: State<Usage>)
    ensures WithError<Details, Usage>(Handled([], Some(e), s), 0) + [] == [Err(Service(e))]
  {
    ErrorFirst<Details, Usage>(Handled([], Some(e), s));
  }

  lemma OneYielded<Details>(update: Option<Update<Details>>, rest: seq<Item<Details>>, end: seq<Item<Details>>)
    ensures Yielded(AsList(update)) + rest + end == if update.Some? then [Ok(update.value)] + (rest + end) else rest + end
  {
    NothingQueued(rest + end);
  }

  lemma HandleAllStep<Details, Usage>(c: Conversion<Details, Usage>, s: State<Usage>, values: seq<Value>)
    ensures values == [] ==> HandleAll(c, s, values) == Handled([], None, s)
    ensures values != [] ==> HandleAll(c, s, values) == AfterValue(Handle(c, s, values[0]), HandleAll(c, Handle(c, s, values[0]).0, values[1..]))
  {
    hide Handle;
  }

  /** What one event brings and then what later ones do, which an error forestalls. */
  function AfterValue<Details, Usage>(
      first: (State<Usage>, Result<Option<Update<Details>>, string>), later: Handled<Details, Usage>): Handled<Details, Usage>
  {
    if first.1.Err? then Handled([], Some(first.1.error), first.0)
    else Queueing(AsList(first.1.value), later)
  }

  lemma HandleFails<Details, Usage>(c: Conversion<Details, Usage>, s: State<Usage>, v: Value)
    ensures Handle(c, s, v).1.Err? <==> IsErrorEvent(v)
  {
    hide Apply, DecodeEvent;
  }
}
