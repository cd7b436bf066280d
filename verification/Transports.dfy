/** The two transports of one event stream, server-sent lines and decoded events, compared. */
module Transports {
  import opened Wrappers
  import opened Text
  import opened Json
  import opened Utf8
  import opened StreamEvents
  import opened EventLines

  // --- framed events -------------------------------------------------------------------------

  /** An event as the service frames it: its type on one line, its JSON on the next, then a blank line. */
  datatype Framed = Framed(kind: string, json: string, value: Value)

  predicate IsFramed(parse: Parser, f: Framed) {
    && '\n' !in f.kind && '\n' !in f.json
    && f.json != "" && Trimmed(f.json) && parse(f.json) == Some(f.value)
  }

  /** Its first two lines: with them the event has come. */
  function DataPart(f: Framed): string {
    "event: " + f.kind + "\n" + ("data: " + f.json + "\n")
  }

  function FrameText(f: Framed): string {
    DataPart(f) + "\n"
  }

  function StreamText(frames: seq<Framed>): string {
    if frames == [] then "" else FrameText(frames[0]) + StreamText(frames[1..])
  }

  function FrameValues(frames: seq<Framed>): (r: seq<Value>)
    ensures |r| == |frames|
  {
    seq(|frames|, i requires 0 <= i < |frames| => frames[i].value)
  }

  lemma FrameLines(parse: Parser, f: Framed, rest: string)
    requires IsFramed(parse, f)
    ensures SplitLines(FrameText(f) + rest) == Preceded(["event: " + f.kind, "data: " + f.json, ""], SplitLines(rest))
  {
    hide SplitLines;
    OneLine("", rest);
    OneLine("data: " + f.json, "" + "\n" + rest);
    OneLine("event: " + f.kind, "data: " + f.json + "\n" + ("" + "\n" + rest));
    assert FrameText(f) + rest == "event: " + f.kind + "\n" + ("data: " + f.json + "\n" + ("" + "\n" + rest));
    var more := SplitLines(rest).complete;
    assert ["event: " + f.kind] + (["data: " + f.json] + ([""] + more))
        == ["event: " + f.kind, "data: " + f.json, ""] + more;
  }

  lemma FrameEvents(parse: Parser, f: Framed)
    requires IsFramed(parse, f)
    ensures Events(parse, ["event: " + f.kind, "data: " + f.json, ""]) == [f.value]
  {
    hide LineEvent, IsFramed;
    NoEvent(parse, f.kind);
    DataEvent(parse, f);
    BlankLine(parse);
    ThreeLines(parse, "event: " + f.kind, "data: " + f.json, "", f.value);
  }

  lemma ThreeLines(parse: Parser, a: string, b: string, d: string, v: Value)
    requires LineEvent(parse, a) == None && LineEvent(parse, b) == Some(v) && LineEvent(parse, d) == None
    ensures Events(parse, [a, b, d]) == [v]
  {
    hide LineEvent, Events;
    EventStep(parse, [a, b, d]);
    assert [a, b, d][1..] == [b, d] && [b, d][1..] == [d] && [d][1..] == [];
    EventStep(parse, [b, d]);
    EventStep(parse, [d]);
    EventStep(parse, []);
  }

  lemma EventStep(parse: Parser, lines: seq<string>)
    ensures lines == [] ==> Events(parse, lines) == []
    ensures lines != [] ==> LineEvent(parse, lines[0]).None? ==> Events(parse, lines) == Events(parse, lines[1..])
    ensures lines != [] ==> LineEvent(parse, lines[0]).Some? ==> Events(parse, lines) == [LineEvent(parse, lines[0]).value] + Events(parse, lines[1..])
  {
    hide LineEvent;
    assert lines != [] ==> [] + Events(parse, lines[1..]) == Events(parse, lines[1..]);
  }

  lemma BlankLine(parse: Parser)
    ensures LineEvent(parse, "") == None
  {
  }

  lemma NoEvent(parse: Parser, kind: string)
    ensures LineEvent(parse, "event: " + kind) == None
  {
    hide Trim;
    TrimFirst("event: " + kind, 'e');
  }

  /** Trimming keeps a first character that is no white space. */
  lemma TrimFirst(line: string, first: char)
    requires line != "" && line[0] == first && first !in WHITESPACE
    ensures Trim(line) != "" && Trim(line)[0] == first
  {
    NotBlank(line);
    assert TrimStart(line) == line;
    assert TrimEnd(line) <= line;
  }

  lemma DataEvent(parse: Parser, f: Framed)
    requires IsFramed(parse, f)
    ensures LineEvent(parse, "data: " + f.json) == Some(f.value)
  {
    hide Trim;
    var line := "data:" + (" " + f.json);
    assert line == "data: " + f.json;
    assert line[0] == 'd' && line[|line| - 1] == f.json[|f.json| - 1];
    TrimPadded("", line);
    assert "" + line == line;
    TrimPadded(" ", f.json);
    AfterPrefix("data:", " " + f.json);
  }

  lemma AfterPrefix(prefix: string, rest: string)
    ensures prefix <= prefix + rest && (prefix + rest)[|prefix|..] == rest
  {
  }

  // --- how much of a stream has arrived ------------------------------------------------------

  /** How many of the events have come with the first `length` characters of their text. */
  function Arrived(frames: seq<Framed>, length: nat): (k: nat)
    ensures k <= |frames|
  {
    if frames == [] || length < |DataPart(frames[0])| then 0
    else if length < |FrameText(frames[0])| then 1
    else 1 + Arrived(frames[1..], length - |FrameText(frames[0])|)
  }

  /** Where in the text the data line of an event ends. */
  function LineEnd(frames: seq<Framed>, j: nat): nat
    requires j < |frames|
  {
    |StreamText(frames[..j])| + |DataPart(frames[j])|
  }

  /** An event has come exactly when its data line has. */
  lemma {:induction false} ArrivedExactly(frames: seq<Framed>, length: nat, j: nat)
    requires j < |frames|
    ensures j < Arrived(frames, length) <==> LineEnd(frames, j) <= length
    decreases j
  {
    hide DataPart;
    if j > 0 {
      assert frames[..j][1..] == frames[1..][..j - 1];
      if length >= |FrameText(frames[0])| {
        ArrivedExactly(frames[1..], length - |FrameText(frames[0])|, j - 1);
      }
    }
  }

  /** The lines of any part of the stream from its start, cut anywhere, carry exactly the events that have come with it. */
  lemma {:induction false} PartCarriesEvents(parse: Parser, frames: seq<Framed>, text: string)
    requires forall f :: f in frames ==> IsFramed(parse, f)
    requires text <= StreamText(frames)
    ensures Events(parse, SplitLines(text).complete) == FrameValues(frames[..Arrived(frames, |text|)])
    decreases |frames|
  {
    hide SplitLines, Events, IsFramed, DataPart;
    if frames == [] {
      NoLines(parse);
    } else {
      var f := frames[0];
      var k := Arrived(frames, |text|);
      if |text| < |DataPart(f)| {
        assert text == DataPart(f)[..|text|];
        PartOfFrame(parse, f, |text|);
      } else if |text| < |FrameText(f)| {
        assert text == DataPart(f);
        DataPartEvents(parse, f);
        assert frames[..1] == [f];
      } else {
        var rest := text[|FrameText(f)|..];
        assert text == FrameText(f) + rest;
        assert rest <= StreamText(frames[1..]);
        PartCarriesEvents(parse, frames[1..], rest);
        FrameLines(parse, f, rest);
        FrameEvents(parse, f);
        EventsAppend(parse, ["event: " + f.kind, "data: " + f.json, ""], SplitLines(rest).complete);
        assert frames[..k] == [f] + frames[1..][..k - 1];
      }
    }
  }

  lemma {:induction false} AllArrive(frames: seq<Framed>)
    ensures Arrived(frames, |StreamText(frames)|) == |frames|
    decreases |frames|
  {
    hide DataPart;
    if frames != [] {
      AllArrive(frames[1..]);
    }
  }

  /** All the lines of some events carry exactly those events. */
  lemma FramesCarryEvents(parse: Parser, frames: seq<Framed>)
    requires forall f :: f in frames ==> IsFramed(parse, f)
    ensures Events(parse, SplitLines(StreamText(frames)).complete) == FrameValues(frames)
  {
    hide SplitLines, Events, StreamText, IsFramed;
    PartCarriesEvents(parse, frames, StreamText(frames));
    AllArrive(frames);
    assert frames[..|frames|] == frames;
  }

  lemma NoLines(parse: Parser)
    ensures Events(parse, SplitLines("").complete) == []
  {
  }

  lemma DataPartEvents(parse: Parser, f: Framed)
    requires IsFramed(parse, f)
    ensures Events(parse, SplitLines(DataPart(f)).complete) == [f.value]
  {
    hide SplitLines, Events, LineEvent;
    NothingSplit();
    OneLine("data: " + f.json, "");
    OneLine("event: " + f.kind, "data: " + f.json + "\n" + "");
    assert DataPart(f) == "event: " + f.kind + "\n" + ("data: " + f.json + "\n" + "");
    var lines := ["event: " + f.kind, "data: " + f.json];
    assert SplitLines(DataPart(f)).complete == lines;
    NoEvent(parse, f.kind);
    DataEvent(parse, f);
    assert lines[1..] == ["data: " + f.json] && lines[1..][1..] == [];
    EventStep(parse, lines);
    EventStep(parse, lines[1..]);
    EventStep(parse, []);
  }

  lemma NothingSplit()
    ensures SplitLines("") == Lines([], "")
  {
  }

  /** Short of its data line, a frame carries nothing. */
  lemma PartOfFrame(parse: Parser, f: Framed, length: nat)
    requires IsFramed(parse, f) && length < |DataPart(f)|
    ensures Events(parse, SplitLines(DataPart(f)[..length]).complete) == []
  {
    hide SplitLines, Events, LineEvent;
    var (first, second) := ("event: " + f.kind, "data: " + f.json);
    assert DataPart(f) == first + "\n" + (second + "\n");
    if length <= |first| {
      assert DataPart(f)[..length] == first[..length];
      NoBreakSplits(first[..length]);
      EventStep(parse, []);
    } else {
      var part := second[..length - |first| - 1];
      assert DataPart(f)[..length] == first + "\n" + part;
      OneLine(first, part);
      NoBreakSplits(part);
      NoEvent(parse, f.kind);
      assert [first] + [] == [first] && [first][1..] == [];
      EventStep(parse, [first]);
      EventStep(parse, []);
    }
  }

  lemma NoBreakSplits(text: string)
    requires '\n' !in text
    ensures SplitLines(text).complete == []
  {
  }

  // --- what each chunk completes -------------------------------------------------------------

  function TextLength(chunks: seq<Chunk>): nat {
    |Decode(Received(chunks)).text|
  }

  /** Chunk `n` brings the text past `at`. */
  predicate Completes(chunks: seq<Chunk>, n: nat, at: nat)
    requires n < |chunks|
  {
    TextLength(chunks[..n]) < at <= TextLength(chunks[..n + 1])
  }

  lemma {:induction false} ReceivedGrows(chunks: seq<Chunk>, n: nat, m: nat)
    requires n <= m <= |chunks|
    ensures Received(chunks[..n]) <= Received(chunks[..m])
    decreases n
  {
    if n > 0 {
      ReceivedGrows(chunks[1..], n - 1, m - 1);
      assert chunks[..n][1..] == chunks[1..][..n - 1];
      assert chunks[..m][1..] == chunks[1..][..m - 1];
    }
  }

  lemma TextGrows(chunks: seq<Chunk>, n: nat, m: nat)
    requires n <= m <= |chunks|
    ensures Decode(Received(chunks[..n])).text <= Decode(Received(chunks[..m])).text
    ensures TextLength(chunks[..n]) <= TextLength(chunks[..m])
  {
    hide Decode;
    ReceivedGrows(chunks, n, m);
    var (a, b) := (Received(chunks[..n]), Received(chunks[..m]));
    assert b == a + b[|a|..];
    DecodeAppend(a, b[|a|..]);
    AfterParts(Decode(a).text, Decode(Decode(a).rest + b[|a|..]));
  }

  lemma {:induction false} SomeChunkCompletes(chunks: seq<Chunk>, at: nat, m: nat) returns (n: nat)
    requires m <= |chunks| && 0 < at <= TextLength(chunks[..m])
    ensures n < m && Completes(chunks, n, at)
    decreases m
  {
    assert chunks[..0] == [];
    NoText();
    if m > 0 && at <= TextLength(chunks[..m - 1]) {
      n := SomeChunkCompletes(chunks, at, m - 1);
    } else {
      n := m - 1;
    }
  }

  lemma NoText()
    ensures TextLength([]) == 0
  {
  }

  lemma OneChunkCompletes(chunks: seq<Chunk>, at: nat, n: nat, m: nat)
    requires n < |chunks| && m < |chunks| && Completes(chunks, n, at) && Completes(chunks, m, at)
    ensures n == m
  {
    hide TextLength;
    if n < m {
      TextGrows(chunks, n + 1, m);
    } else if m < n {
      TextGrows(chunks, m + 1, n);
    }
  }

  // --- which updates an error overtakes --------------------------------------------------------

  /** Event `j` brings an update, after those before it. */
  predicate YieldsUpdate<Details, Usage>(c: Conversion<Details, Usage>, s: State<Usage>, values: seq<Value>, j: nat)
    requires j < |values|
  {
    var r := Handle(c, HandleAll(c, s, values[..j]).state, values[j]).1;
    r.Ok? && r.value.Some?
  }

  lemma HandleOneMore<Details, Usage>(c: Conversion<Details, Usage>, s: State<Usage>, values: seq<Value>, j: nat)
    requires j < |values| && HandleAll(c, s, values[..j]).error.None?
    ensures HandleAll(c, s, values[..j + 1]).error.Some? <==> IsErrorEvent(values[j])
    ensures |HandleAll(c, s, values[..j + 1]).updates|
            == |HandleAll(c, s, values[..j]).updates| + if YieldsUpdate(c, s, values, j) then 1 else 0
  {
    hide Handle, HandleAll;
    var first := HandleAll(c, s, values[..j]);
    assert values[..j + 1] == values[..j] + [values[j]];
    HandleAllAppend(c, s, values[..j], [values[j]]);
    assert [values[j]][1..] == [];
    HandleAllStep(c, first.state, [values[j]]);
    HandleAllStep(c, Handle(c, first.state, values[j]).0, []);
    HandleFails(c, first.state, values[j]);
  }

  /** Events are handled without error exactly when none is an error event. */
  lemma {:induction false} HandledWithoutError<Details, Usage>(c: Conversion<Details, Usage>, s: State<Usage>, values: seq<Value>, n: nat)
    requires n <= |values| && forall i :: 0 <= i < n ==> !IsErrorEvent(values[i])
    ensures HandleAll(c, s, values[..n]).error.None?
    decreases n
  {
    hide HandleAll, IsErrorEvent;
    if n == 0 {
      HandleAllStep(c, s, values[..0]);
    } else {
      HandledWithoutError(c, s, values, n - 1);
      HandleOneMore(c, s, values, n - 1);
    }
  }

  /** Past the first error event, nothing more is handled. */
  lemma HandledToError<Details, Usage>(c: Conversion<Details, Usage>, s: State<Usage>, values: seq<Value>, e: nat, n: nat)
    requires e < n <= |values| && IsErrorEvent(values[e]) && forall i :: 0 <= i < e ==> !IsErrorEvent(values[i])
    ensures HandleAll(c, s, values[..n]).error.Some?
    ensures |HandleAll(c, s, values[..n]).updates| == |HandleAll(c, s, values[..e]).updates|
  {
    hide HandleAll, IsErrorEvent;
    HandledWithoutError(c, s, values, e);
    HandleOneMore(c, s, values, e);
    ErrorYieldsNothing(c, s, values, e);
    assert values[..n] == values[..e + 1] + values[e + 1..n];
    HandleAllAppend(c, s, values[..e + 1], values[e + 1..n]);
  }

  lemma ErrorYieldsNothing<Details, Usage>(c: Conversion<Details, Usage>, s: State<Usage>, values: seq<Value>, e: nat)
    requires e < |values| && IsErrorEvent(values[e])
    ensures !YieldsUpdate(c, s, values, e)
  {
    hide HandleAll;
    HandleFails(c, HandleAll(c, s, values[..e]).state, values[e]);
  }

  /** Some updates come of the events from `a` to `b` exactly when one of them brings one. */
  lemma {:induction false} UpdatesBetween<Details, Usage>(c: Conversion<Details, Usage>, s: State<Usage>, values: seq<Value>, a: nat, b: nat)
    requires a <= b <= |values| && forall i :: 0 <= i < b ==> !IsErrorEvent(values[i])
    ensures |HandleAll(c, s, values[..a]).updates| <= |HandleAll(c, s, values[..b]).updates|
    ensures |HandleAll(c, s, values[..a]).updates| == |HandleAll(c, s, values[..b]).updates|
            <==> forall j :: a <= j < b ==> !YieldsUpdate(c, s, values, j)
    decreases b - a
  {
    hide HandleAll, YieldsUpdate, IsErrorEvent;
    if a < b {
      UpdatesBetween(c, s, values, a, b - 1);
      HandledWithoutError(c, s, values, b - 1);
      HandleOneMore(c, s, values, b - 1);
    }
  }

  /** The error overtakes the updates that its own chunk brings before it. */
  lemma {:induction false} OvertakenBy<Details, Usage>(
      c: Conversion<Details, Usage>, parse: Parser, s: State<Usage>, buffer: string, pending: seq<Byte>, chunks: seq<Chunk>, n: nat)
    requires n < |chunks| && SplitLines(buffer + Decode(pending).text).complete == []
    requires Whole(c, parse, s, buffer, pending, Received(chunks[..n])).error.None?
    requires Whole(c, parse, s, buffer, pending, Received(chunks[..n + 1])).error.Some?
    ensures Overtaken(c, parse, s, buffer, pending, chunks)
            == |Whole(c, parse, s, buffer, pending, Received(chunks[..n + 1])).updates|
               - |Whole(c, parse, s, buffer, pending, Received(chunks[..n])).updates|
    decreases n
  {
    hide HandleAll, SplitLines, Events, Decode, Whole;
    NothingWhole(c, parse, s, buffer, pending);
    BrokenBringsNothing(chunks, n);
    BrokenBringsNothing(chunks, n + 1);
    if chunks[0].Bytes? {
      var first := chunks[0].bytes;
      var decoded := Decode(pending + first);
      var lines := SplitLines(buffer + decoded.text);
      var h := HandleAll(c, s, Events(parse, lines.complete));
      ReceivedFirst(chunks, n + 1);
      WholeSplits(c, parse, s, buffer, pending, first, Received(chunks[1..][..n]));
      RestIsPartial(buffer, pending + first);
      if n == 0 {
        assert Received(chunks[1..][..0]) == [];
        NothingWhole(c, parse, h.state, lines.rest, decoded.rest);
      } else {
        ReceivedFirst(chunks, n);
        WholeSplits(c, parse, s, buffer, pending, first, Received(chunks[1..][..n - 1]));
        OvertakenBy(c, parse, h.state, lines.rest, decoded.rest, chunks[1..], n - 1);
      }
    }
  }

  lemma BrokenBringsNothing(chunks: seq<Chunk>, n: nat)
    requires n <= |chunks|
    ensures chunks != [] && chunks[0].Broken? ==> Received(chunks[..n]) == []
  {
  }

  lemma ReceivedFirst(chunks: seq<Chunk>, n: nat)
    requires 0 < n <= |chunks| && chunks[0].Bytes?
    ensures Received(chunks[..n]) == chunks[0].bytes + Received(chunks[1..][..n - 1])
  {
    assert chunks[..n][1..] == chunks[1..][..n - 1];
  }

  // --- both transports bring the same items ------------------------------------------------------

  predicate IsFirstError(frames: seq<Framed>, e: nat) {
    e < |frames| && IsErrorEvent(frames[e].value) && forall i :: 0 <= i < e ==> !IsErrorEvent(frames[i].value)
  }

  /** Chunk `n` completes the data line of the first error event, and of an earlier event with an update. */
  predicate SharesChunk<Details, Usage>(
      c: Conversion<Details, Usage>, s: State<Usage>, frames: seq<Framed>, chunks: seq<Chunk>, n: nat, j: nat, e: nat)
  {
    && n < |chunks| && j < e && IsFirstError(frames, e)
    && Completes(chunks, n, LineEnd(frames, j)) && Completes(chunks, n, LineEnd(frames, e))
    && YieldsUpdate(c, s, FrameValues(frames), j)
  }

  ghost predicate ErrorSharesChunk<Details, Usage>(
      c: Conversion<Details, Usage>, s: State<Usage>, frames: seq<Framed>, chunks: seq<Chunk>)
  {
    exists n: nat, j: nat, e: nat :: SharesChunk(c, s, frames, chunks, n, j, e)
  }

  /** The events that have come by the end or the break of a connection. */
  function ArrivedValues(frames: seq<Framed>, chunks: seq<Chunk>): seq<Value> {
    FrameValues(frames[..Arrived(frames, TextLength(chunks))])
  }

  /**
   However the text of some events is cut into chunks, and wherever in it the connection
   ends or breaks, both transports yield the same items of the events that came, exactly
   when no chunk completes the first error event together with an earlier update.
   */
  lemma TransportsAgree<Details, Usage>(
      c: Conversion<Details, Usage>, parse: Parser, s: State<Usage>, frames: seq<Framed>, chunks: seq<Chunk>)
    requires forall f :: f in frames ==> IsFramed(parse, f)
    requires Decode(Received(chunks)).text <= StreamText(frames)
    ensures (FromChunks(c, parse, s, "", [], chunks) == FromValues(c, s, Polls(ArrivedValues(frames, chunks), BreakError(chunks))))
            <==> !ErrorSharesChunk(c, s, frames, chunks)
  {
    hide HandleAll, FromChunks, FromValues, WithError, Overtaken, Ending, ErrorSharesChunk, ArrivedValues, Whole, IsFramed;
    var h := HandleAll(c, s, ArrivedValues(frames, chunks));
    WholeIs(c, parse, s, frames, chunks, |chunks|);
    assert chunks[..|chunks|] == chunks;
    NothingBuffered();
    ChunksYieldWhole(c, parse, s, "", [], chunks);
    ValuesYield(c, s, ArrivedValues(frames, chunks), BreakError(chunks));
    ErrorMoves(h, Overtaken(c, parse, s, "", [], chunks), Ending(BreakError(chunks), h.error.Some?));
    SharesExactly(c, parse, s, frames, chunks);
  }

  /** After any number of chunks, what has been handled is the events that have come. */
  lemma WholeIs<Details, Usage>(
      c: Conversion<Details, Usage>, parse: Parser, s: State<Usage>, frames: seq<Framed>, chunks: seq<Chunk>, n: nat)
    requires n <= |chunks| && forall f :: f in frames ==> IsFramed(parse, f)
    requires Decode(Received(chunks)).text <= StreamText(frames)
    ensures Whole(c, parse, s, "", [], Received(chunks[..n])) == HandleAll(c, s, ArrivedValues(frames, chunks[..n]))
  {
    hide HandleAll, Decode, Events, SplitLines, StreamText, Arrived, IsFramed;
    var bytes := Received(chunks[..n]);
    TextGrows(chunks, n, |chunks|);
    assert chunks[..|chunks|] == chunks;
    assert [] + bytes == bytes && "" + Decode(bytes).text == Decode(bytes).text;
    PartCarriesEvents(parse, frames, Decode(bytes).text);
  }

  lemma ArrivedValuesAre(frames: seq<Framed>, chunks: seq<Chunk>)
    ensures ArrivedValues(frames, chunks) == FrameValues(frames)[..Arrived(frames, TextLength(chunks))]
  {
    hide Arrived, TextLength;
  }

  lemma {:induction false} FirstErrorOf(frames: seq<Framed>, k: nat) returns (e: nat)
    requires k <= |frames| && exists i :: 0 <= i < k && IsErrorEvent(frames[i].value)
    ensures e < k && IsFirstError(frames, e)
    decreases k
  {
    if exists i :: 0 <= i < k - 1 && IsErrorEvent(frames[i].value) {
      e := FirstErrorOf(frames, k - 1);
    } else {
      e := k - 1;
    }
  }

  lemma SharesExactly<Details, Usage>(
      c: Conversion<Details, Usage>, parse: Parser, s: State<Usage>, frames: seq<Framed>, chunks: seq<Chunk>)
    requires forall f :: f in frames ==> IsFramed(parse, f)
    requires Decode(Received(chunks)).text <= StreamText(frames)
    ensures HandleAll(c, s, ArrivedValues(frames, chunks)).error.None? || Overtaken(c, parse, s, "", [], chunks) == 0
            <==> !ErrorSharesChunk(c, s, frames, chunks)
  {
    hide HandleAll, Overtaken, Decode, Received, StreamText, Arrived, YieldsUpdate, LineEnd, IsErrorEvent, IsFramed, Whole;
    var k := Arrived(frames, TextLength(chunks));
    var values := FrameValues(frames);
    ArrivedValuesAre(frames, chunks);
    assert chunks[..|chunks|] == chunks;
    if forall i :: 0 <= i < k ==> !IsErrorEvent(frames[i].value) {
      HandledWithoutError(c, s, values, k);
      forall n: nat, j: nat, e: nat
        ensures !SharesChunk(c, s, frames, chunks, n, j, e)
      {
        if SharesChunk(c, s, frames, chunks, n, j, e) {
          TextGrows(chunks, n + 1, |chunks|);
          ArrivedExactly(frames, TextLength(chunks), e);
        }
      }
    } else {
      var e := FirstErrorOf(frames, k);
      ArrivedExactly(frames, TextLength(chunks), e);
      LineEndsLater(frames, e);
      var n := SomeChunkCompletes(chunks, LineEnd(frames, e), |chunks|);
      OvertakenInChunk(c, parse, s, frames, chunks, n, e);
      HandledToError(c, s, values, e, k);
      SharedWith(c, s, frames, chunks, n, e);
    }
  }

  lemma LineEndsLater(frames: seq<Framed>, j: nat)
    requires j < |frames|
    ensures LineEnd(frames, j) > 0
  {
  }

  /** The error event's chunk brings updates before it exactly when one of the events it completes does. */
  lemma OvertakenInChunk<Details, Usage>(
      c: Conversion<Details, Usage>, parse: Parser, s: State<Usage>, frames: seq<Framed>, chunks: seq<Chunk>, n: nat, e: nat)
    requires forall f :: f in frames ==> IsFramed(parse, f)
    requires Decode(Received(chunks)).text <= StreamText(frames)
    requires n < |chunks| && IsFirstError(frames, e) && Completes(chunks, n, LineEnd(frames, e))
    ensures Arrived(frames, TextLength(chunks[..n])) <= e
    ensures Overtaken(c, parse, s, "", [], chunks) == 0
            <==> forall j :: Arrived(frames, TextLength(chunks[..n])) <= j < e ==> !YieldsUpdate(c, s, FrameValues(frames), j)
  {
    hide HandleAll, Overtaken, Decode, Received, StreamText, Arrived, YieldsUpdate, LineEnd, IsErrorEvent, IsFramed, Whole;
    var values := FrameValues(frames);
    var (a, b) := (Arrived(frames, TextLength(chunks[..n])), Arrived(frames, TextLength(chunks[..n + 1])));
    ArrivedExactly(frames, TextLength(chunks[..n]), e);
    ArrivedExactly(frames, TextLength(chunks[..n + 1]), e);
    ArrivedValuesAre(frames, chunks[..n]);
    ArrivedValuesAre(frames, chunks[..n + 1]);
    WholeIs(c, parse, s, frames, chunks, n);
    WholeIs(c, parse, s, frames, chunks, n + 1);
    HandledWithoutError(c, s, values, a);
    HandledToError(c, s, values, e, b);
    NothingBuffered();
    OvertakenBy(c, parse, s, "", [], chunks, n);
    UpdatesBetween(c, s, values, a, e);
  }

  lemma SharedWith<Details, Usage>(
      c: Conversion<Details, Usage>, s: State<Usage>, frames: seq<Framed>, chunks: seq<Chunk>, n: nat, e: nat)
    requires n < |chunks| && IsFirstError(frames, e) && Completes(chunks, n, LineEnd(frames, e))
    ensures ErrorSharesChunk(c, s, frames, chunks)
            <==> exists j :: Arrived(frames, TextLength(chunks[..n])) <= j < e && YieldsUpdate(c, s, FrameValues(frames), j)
  {
    hide YieldsUpdate, Arrived, LineEnd, TextLength, IsErrorEvent;
    var a := Arrived(frames, TextLength(chunks[..n]));
    if ErrorSharesChunk(c, s, frames, chunks) {
      var m: nat, j: nat, d: nat :| SharesChunk(c, s, frames, chunks, m, j, d);
      assert d == e;
      OneChunkCompletes(chunks, LineEnd(frames, e), n, m);
      ArrivedExactly(frames, TextLength(chunks[..n]), j);
    }
    if exists j :: a <= j < e && YieldsUpdate(c, s, FrameValues(frames), j) {
      var j :| a <= j < e && YieldsUpdate(c, s, FrameValues(frames), j);
      ArrivedExactly(frames, TextLength(chunks[..n]), j);
      ArrivedExactly(frames, TextLength(chunks[..n + 1]), e);
      ArrivedExactly(frames, TextLength(chunks[..n + 1]), j);
      assert SharesChunk(c, s, frames, chunks, n, j, e);
    }
  }

  lemma ErrorMoves<Details, Usage>(h: Handled<Details, Usage>, overtaken: nat, end: seq<Item<Details>>)
    requires overtaken <= |h.updates|
    ensures WithError(h, overtaken) + end == WithError(h, 0) + end <==> h.error.None? || overtaken == 0
  {
    if h.error.Some? && overtaken > 0 {
      var first := |h.updates| - overtaken;
      assert (WithError(h, overtaken) + end)[first] == Err(Service(h.error.value));
      assert (WithError(h, 0) + end)[first] == Ok(h.updates[first]);
    }
  }

  /**
   The same two events, an update and then an error, by both transports: in one chunk the
   error comes first.
   */
  lemma ErrorOvertakes<Details, Usage>(
      c: Conversion<Details, Usage>, parse: Parser, s: State<Usage>, first: Framed, second: Framed, update: Update<Details>)
    requires IsFramed(parse, first) && IsFramed(parse, second)
    requires Handle(c, s, first.value).1 == Ok(Some(update)) && IsErrorEvent(second.value)
    ensures FromChunks(c, parse, s, "", [], [Bytes(Encode(StreamText([first, second])))])
            == [Err(Service(ErrorMessage(second.value))), Ok(update)]
    ensures FromValues(c, s, Polls([first.value, second.value], None))
            == [Ok(update), Err(Service(ErrorMessage(second.value)))]
  {
    hide HandleAll, Handle, FromChunks, FromValues, Decode, SplitLines, Events, StreamText, IsFramed, Encode;
    var text := StreamText([first, second]);
    var chunks := [Bytes(Encode(text))];
    UpdateThenError(c, s, first.value, second.value, update);
    FramesCarryEvents(parse, [first, second]);
    assert FrameValues([first, second]) == [first.value, second.value];
    EncodedDecodes(text);
    assert [] + Encode(text) == Encode(text) && "" + text == text;
    ChunkStep(c, parse, s, "", [], chunks);
    ValuesYield(c, s, [first.value, second.value], None);
    assert Yielded([update]) == [Ok(update)];
  }

  lemma UpdateThenError<Details, Usage>(
      c: Conversion<Details, Usage>, s: State<Usage>, first: Value, second: Value, update: Update<Details>)
    requires Handle(c, s, first).1 == Ok(Some(update)) && IsErrorEvent(second)
    ensures var h := HandleAll(c, s, [first, second]);
            h.updates == [update] && h.error == Some(ErrorMessage(second))
    ensures WithError(HandleAll(c, s, [first, second]), 0) == [Ok(update), Err(Service(ErrorMessage(second)))]
  {
    hide Handle, HandleAll;
    var next := Handle(c, s, first).0;
    HandleAllStep(c, s, [first, second]);
    assert [first, second][1..] == [second] && [second][1..] == [];
    HandleAllStep(c, next, [second]);
    HandlesError(c, next, second);
    var h := HandleAll(c, s, [first, second]);
    assert h.updates == [update];
    assert h.updates[..1] == [update] && h.updates[1..] == [];
  }

  lemma HandlesError<Details, Usage>(c: Conversion<Details, Usage>, s: State<Usage>, v: Value)
    requires IsErrorEvent(v)
    ensures Handle(c, s, v) == (s, Err(ErrorMessage(v)))
  {
  }
}
