/** The event stream of an A2A `message/stream` response: bytes to frames to events. */
module SseFrames {
  import opened Wrappers
  import opened Text
  import opened Json
  import opened Utf8
  import Wire = A2AWire
  import WireRoundTrips

  datatype Failure = Service(error: Wire.WireError) | Transport(message: string)

  type Item = Result<Wire.Event, Failure>

  // --- frames -------------------------------------------------------------------------------

  const BLANK_LINE: string := "\n\n"

  /** The first frame of a text, and what follows the blank line that ends it. */
  function NextFrame(text: string): (r: Option<(string, string)>)
    ensures r.Some? ==> |r.value.1| < |text|
    ensures r.Some? ==> text == r.value.0 + BLANK_LINE + r.value.1
  {
    var i := Find(text, BLANK_LINE);
    if i < |text| then
      assert text[i..i + 2] == BLANK_LINE;
      Some((text[..i], text[i + 2..]))
    else None
  }

  /** The complete frames of a text, and the partial one after them. */
  function SplitFrames(text: string): Lines
    decreases |text|
  {
    match NextFrame(text)
    case None => Lines([], text)
    case Some((frame, rest)) => Preceded([frame], SplitFrames(rest))
  }

  function AllLines(text: string): seq<string> {
    SplitLines(text).complete + [SplitLines(text).rest]
  }

  /** `trim_end_matches('\r')`. */
  function TrimReturns(line: string): (r: string)
    ensures r <= line && (r == "" || r[|r| - 1] != '\r')
    ensures forall k :: |r| <= k < |line| ==> line[k] == '\r'
  {
    if line != "" && line[|line| - 1] == '\r' then TrimReturns(line[..|line| - 1]) else line
  }

  const DATA: string := "data:"

  /** What a `data:` line carries, less one leading space. */
  function PieceIn(line: string): Option<string> {
    if DATA <= line then
      var rest := line[|DATA|..];
      Some(if rest != "" && rest[0] == ' ' then rest[1..] else rest)
    else None
  }

  function PieceOf(raw: string): Option<string> {
    PieceIn(TrimReturns(raw))
  }

  function Pieces(lines: seq<string>): seq<string> {
    if lines == [] then []
    else
      match PieceOf(lines[0])
      case Some(piece) => [piece] + Pieces(lines[1..])
      case None => Pieces(lines[1..])
  }

  /** Pieces before the first that is not empty are lost. */
  function DropEmpty(pieces: seq<string>): seq<string> {
    if pieces != [] && pieces[0] == "" then DropEmpty(pieces[1..]) else pieces
  }

  /** The data of a frame: the pieces of its data lines, joined by line breaks. */
  function DataOf(frame: string): string {
    Join(DropEmpty(Pieces(AllLines(frame))), "\n")
  }

  /** The data gathered piece by piece, each after a line break unless nothing was gathered yet. */
  function Gather(data: string, pieces: seq<string>): string
    decreases |pieces|
  {
    if pieces == [] then data
    else Gather((if data != "" then data + "\n" else data) + pieces[0], pieces[1..])
  }

  lemma JoinMerge(a: string, b: string, rest: seq<string>)
    ensures Join([a + "\n" + b] + rest, "\n") == a + "\n" + Join([b] + rest, "\n")
  {
    var s := [a + "\n" + b] + rest;
    var t := [b] + rest;
    assert s[1..] == rest && t[1..] == rest;
    if rest != [] {
      assert a + "\n" + b + "\n" + Join(rest, "\n") == a + "\n" + (b + "\n" + Join(rest, "\n"));
    }
  }

  lemma {:induction false} GatherJoins(data: string, pieces: seq<string>)
    ensures Gather(data, pieces) == Join(if data == "" then DropEmpty(pieces) else [data] + pieces, "\n")
    decreases |pieces|
  {
    if pieces == [] {
      assert [data] + pieces == [data];
    } else if data == "" {
      assert "" + pieces[0] == pieces[0];
      GatherJoins(pieces[0], pieces[1..]);
      assert [pieces[0]] + pieces[1..] == pieces;
    } else {
      var more := data + "\n" + pieces[0];
      GatherJoins(more, pieces[1..]);
      JoinMerge(data, pieces[0], pieces[1..]);
      assert [pieces[0]] + pieces[1..] == pieces;
      assert ([data] + pieces)[1..] == pieces;
    }
  }

  method FrameData(frame: string) returns (data: string)
    ensures data == DataOf(frame)
  {
    hide SplitLines, PieceOf, Join;
    var lines := AllLines(frame);
    data := "";
    assert lines[0..] == lines;
    for i := 0 to |lines|
      invariant Gather(data, Pieces(lines[i..])) == Gather("", Pieces(lines))
    {
      assert lines[i..][1..] == lines[i + 1..];
      var piece := PieceOf(lines[i]);
      if piece.Some? {
        GatherFirst(data, piece.value, Pieces(lines[i + 1..]));
        if data != "" {
          data := data + "\n";
        }
        data := data + piece.value;
      }
    }
    GatherJoins("", Pieces(lines));
  }

  lemma GatherFirst(data: string, piece: string, rest: seq<string>)
    ensures Gather(data, [piece] + rest) == Gather((if data != "" then data + "\n" else data) + piece, rest)
  {
    assert ([piece] + rest)[1..] == rest;
  }

  /** The event or error a frame carries: none without data that parses as JSON. */
  function FrameItem(parse: Parser, frame: string): Option<Item> {
    var data := DataOf(frame);
    if data == "" then None
    else
      match parse(data)
      case None => None
      case Some(v) =>
        match Wire.ExtractResult(v)
        case Err(e) => Some(Err(Service(e)))
        case Ok(result) =>
          match Wire.ParseEvent(result)
          case Ok(event) => Some(Ok(event))
          case Err(e) => Some(Err(Service(e)))
  }

  method ParseFrame(parse: Parser, frame: string) returns (item: Option<Item>)
    ensures item == FrameItem(parse, frame)
  {
    hide DataOf;
    var data := FrameData(frame);
    if data == "" {
      return None;
    }
    var v := parse(data);
    if v.None? {
      return None;
    }
    var result := Wire.ExtractResult(v.value);
    if result.Err? {
      return Some(Err(Service(result.error)));
    }
    var event := Wire.ParseEvent(result.value);
    item := Some(if event.Ok? then Ok(event.value) else Err(Service(event.error)));
  }

  function Items(parse: Parser, frames: seq<string>): seq<Item> {
    if frames == [] then [] else AsList(FrameItem(parse, frames[0])) + Items(parse, frames[1..])
  }

  // --- frames do not depend on the cuts ---------------------------------------------------------

  lemma OccursInFront(a: string, b: string, k: nat)
    requires k + 2 <= |a|
    ensures OccursAt(a + b, BLANK_LINE, k) == OccursAt(a, BLANK_LINE, k)
  {
    assert (a + b)[k..k + 2] == a[k..k + 2];
  }

  /** A blank line found stays where it is when more text comes. */
  lemma FrameStays(a: string, b: string)
    requires NextFrame(a).Some?
    ensures NextFrame(a + b) == Some((NextFrame(a).value.0, NextFrame(a).value.1 + b))
  {
    hide Find, OccursAt;
    var i := Find(a, BLANK_LINE);
    forall k | 0 <= k <= i
      ensures OccursAt(a + b, BLANK_LINE, k) == OccursAt(a, BLANK_LINE, k)
    {
      OccursInFront(a, b, k);
    }
    FindIs(a + b, BLANK_LINE, i);
    assert (a + b)[..i] == a[..i];
    assert (a + b)[i + 2..] == a[i + 2..] + b;
  }

  lemma {:induction false} SplitFramesAppend(a: string, b: string)
    ensures SplitFrames(a + b) == Preceded(SplitFrames(a).complete, SplitFrames(SplitFrames(a).rest + b))
    decreases |a|
  {
    hide NextFrame;
    match NextFrame(a)
    case None => assert [] + SplitFrames(a + b).complete == SplitFrames(a + b).complete;
    case Some((frame, rest)) =>
      FrameStays(a, b);
      FrameShorter(a);
      SplitFramesAppend(rest, b);
      var tail := SplitFrames(rest);
      PrecededTwice([frame], tail.complete, SplitFrames(tail.rest + b));
  }

  lemma FrameShorter(text: string)
    ensures NextFrame(text).Some? ==> |NextFrame(text).value.1| < |text|
  {
  }

  lemma {:induction false} RestIsPartial(text: string)
    ensures SplitFrames(SplitFrames(text).rest) == Lines([], SplitFrames(text).rest)
    decreases |text|
  {
    match NextFrame(text)
    case None =>
    case Some((_, rest)) => RestIsPartial(rest);
  }

  lemma {:induction false} ItemsAppend(parse: Parser, a: seq<string>, b: seq<string>)
    ensures Items(parse, a + b) == Items(parse, a) + Items(parse, b)
    decreases |a|
  {
    hide FrameItem, AsList;
    if a == [] {
      assert a + b == b;
    } else {
      assert (a + b)[1..] == a[1..] + b;
      ItemsAppend(parse, a[1..], b);
      var first := AsList(FrameItem(parse, a[0]));
      assert first + (Items(parse, a[1..]) + Items(parse, b)) == first + Items(parse, a[1..]) + Items(parse, b);
    }
  }

  // --- the client's stream -----------------------------------------------------------------------------

  /** The items a stream yields from some state on. */
  function FromChunks(parse: Parser, buffer: string, pending: seq<Byte>, chunks: seq<Chunk>): seq<Item>
    decreases |chunks|
  {
    if chunks == [] then []
    else if chunks[0].Broken? then [Err(Transport(chunks[0].error))]
    else
      var decoded := Decode(pending + chunks[0].bytes);
      var frames := SplitFrames(buffer + decoded.text);
      Items(parse, frames.complete) + FromChunks(parse, frames.rest, decoded.rest, chunks[1..])
  }

  lemma ChunkStep(parse: Parser, buffer: string, pending: seq<Byte>, chunks: seq<Chunk>)
    ensures FromChunks(parse, buffer, pending, chunks) ==
            if chunks == [] then []
            else if chunks[0].Broken? then [Err(Transport(chunks[0].error))]
            else
              var decoded := Decode(pending + chunks[0].bytes);
              var frames := SplitFrames(buffer + decoded.text);
              Items(parse, frames.complete) + FromChunks(parse, frames.rest, decoded.rest, chunks[1..])
  {
  }

  class SseState {
    const parse: Parser
    const utf8: Utf8StreamDecoder
    var chunks: seq<Chunk>
    var buffer: string
    var queued: seq<Item>
    var done: bool

    /** The items still to come. */
    function Rest(): seq<Item>
      reads this, utf8
    {
      queued + if done then [] else FromChunks(parse, buffer, utf8.pending, chunks)
    }

    constructor (parse: Parser, chunks: seq<Chunk>)
      ensures fresh(utf8) && this.parse == parse
      ensures Rest() == FromChunks(parse, "", [], chunks)
    {
      this.parse, this.chunks := parse, chunks;
      utf8 := new Utf8StreamDecoder();
      buffer, queued, done := "", [], false;
      new;
      assert [] + Rest() == Rest();
    }

    /** Takes the complete frames off the buffer. */
    method DrainSseEvents() returns (out: seq<Item>)
      modifies this`buffer
      ensures out == Items(parse, SplitFrames(old(buffer)).complete) && buffer == SplitFrames(old(buffer)).rest
    {
      hide SplitFrames, NextFrame, Items, FrameItem, AsList;
      out := [];
      ghost var whole := SplitFrames(buffer);
      while true
        invariant SplitFrames(buffer).rest == whole.rest
        invariant out + Items(parse, SplitFrames(buffer).complete) == Items(parse, whole.complete)
        decreases |buffer|
      {
        DrainStep(parse, buffer);
        FrameShorter(buffer);
        var next := NextFrame(buffer);
        if next.None? {
          break;
        }
        var (frame, rest) := next.value;
        buffer := rest;
        var item := ParseFrame(parse, frame);
        Pushed(out, item, Items(parse, SplitFrames(buffer).complete));
        if item.Some? {
          out := out + [item.value];
        }
      }
    }

    /** One poll: the next item still to come, or nothing once there is none. */
    method Next() returns (item: Option<Item>)
      modifies this, utf8
      ensures item.None? ==> old(Rest()) == []
      ensures item.Some? ==> [item.value] + Rest() == old(Rest())
    {
      hide FromChunks, Decode, SplitFrames, Items;
      ghost var whole := Rest();
      while true
        invariant Rest() == whole
        decreases |chunks|
      {
        if queued != [] {
          item := Some(queued[0]);
          assert queued == [queued[0]] + queued[1..];
          queued := queued[1..];
          return;
        }
        if done {
          return None;
        }
        ChunkStep(parse, buffer, utf8.pending, chunks);
        if chunks == [] {
          return None;
        }
        var chunk := chunks[0];
        chunks := chunks[1..];
        if chunk.Broken? {
          done := true;
          return Some(Err(Transport(chunk.error)));
        }
        var text := utf8.Push(chunk.bytes);
        buffer := buffer + text;
        var events := DrainSseEvents();
        queued := queued + events;
      }
    }
  }

  lemma DrainStep(parse: Parser, buffer: string)
    ensures NextFrame(buffer).None? ==> SplitFrames(buffer) == Lines([], buffer) && Items(parse, []) == []
    ensures NextFrame(buffer).Some? ==>
              (var (frame, rest) := NextFrame(buffer).value;
               && SplitFrames(buffer).rest == SplitFrames(rest).rest
               && Items(parse, SplitFrames(buffer).complete)
                  == AsList(FrameItem(parse, frame)) + Items(parse, SplitFrames(rest).complete))
  {
    hide NextFrame, FrameItem;
    match NextFrame(buffer)
    case None =>
    case Some((frame, rest)) =>
      FrameShorter(buffer);
      var more := SplitFrames(rest).complete;
      assert ([frame] + more)[1..] == more;
  }

  lemma Pushed(out: seq<Item>, item: Option<Item>, more: seq<Item>)
    ensures (if item.Some? then out + [item.value] else out) + more == out + (AsList(item) + more)
  {
  }

  /** The item for the error the connection breaks with, if it does. */
  function BreakOf(chunks: seq<Chunk>): seq<Item> {
    match BreakError(chunks)
    case Some(e) => [Err(Transport(e))]
    case None => []
  }

  /**
   However the bytes are cut, the client yields the items of the frames of the whole text,
   in order, then the error of the connection, if it breaks.
   */
  lemma {:induction false} ChunksYieldWhole(parse: Parser, buffer: string, pending: seq<Byte>, chunks: seq<Chunk>)
    requires SplitFrames(buffer) == Lines([], buffer) && Decode(pending).text == ""
    ensures FromChunks(parse, buffer, pending, chunks)
            == Items(parse, SplitFrames(buffer + Decode(pending + Received(chunks)).text).complete) + BreakOf(chunks)
    decreases |chunks|
  {
    hide FromChunks, Decode, SplitFrames, Items;
    ChunkStep(parse, buffer, pending, chunks);
    if chunks == [] || chunks[0].Broken? {
      assert pending + [] == pending && buffer + "" == buffer;
      NoItems(parse);
    } else {
      var decoded := Decode(pending + chunks[0].bytes);
      var frames := SplitFrames(buffer + decoded.text);
      RestIsPartial(buffer + decoded.text);
      DecodeRest(pending + chunks[0].bytes);
      ChunksYieldWhole(parse, frames.rest, decoded.rest, chunks[1..]);
      TextSplits(buffer, pending, chunks[0].bytes, Received(chunks[1..]));
      assert pending + (chunks[0].bytes + Received(chunks[1..])) == pending + chunks[0].bytes + Received(chunks[1..]);
      ItemsAppend(parse, frames.complete, SplitFrames(frames.rest + Decode(decoded.rest + Received(chunks[1..])).text).complete);
    }
  }

  lemma NoItems(parse: Parser)
    ensures Items(parse, []) == []
  {
  }

  lemma TextSplits(buffer: string, pending: seq<Byte>, first: seq<Byte>, later: seq<Byte>)
    ensures var decoded := Decode(pending + first);
            var frames := SplitFrames(buffer + decoded.text);
            SplitFrames(buffer + Decode(pending + first + later).text)
            == Preceded(frames.complete, SplitFrames(frames.rest + Decode(decoded.rest + later).text))
  {
    hide Decode, SplitFrames;
    var decoded := Decode(pending + first);
    DecodeAppend(pending + first, later);
    var more := Decode(decoded.rest + later);
    AfterParts(decoded.text, more);
    assert buffer + (decoded.text + more.text) == buffer + decoded.text + more.text;
    SplitFramesAppend(buffer + decoded.text, more.text);
  }

  // --- frames as a server writes them ---------------------------------------------------------------

  /** A line of a frame: data, with or without a space after the colon, or any other field or comment. */
  datatype Line = DataLine(piece: string, spaced: bool) | OtherLine(text: string)

  type Frame = seq<Line>

  predicate IsLine(l: Line) {
    match l
    case DataLine(piece, spaced) => NoBreak(piece) && (spaced || piece == "" || piece[0] != ' ')
    case OtherLine(text) => NoBreak(text) && text != "" && !("data:" <= text)
  }

  predicate IsFrame(frame: Frame) {
    frame != [] && forall l :: l in frame ==> IsLine(l)
  }

  predicate AreFrames(frames: seq<Frame>) {
    forall frame :: frame in frames ==> IsFrame(frame)
  }

  function LineText(l: Line): string {
    match l
    case DataLine(piece, spaced) => (if spaced then "data: " else "data:") + piece
    case OtherLine(text) => text
  }

  function LineTexts(frame: Frame): (r: seq<string>)
    ensures |r| == |frame|
    ensures forall i :: 0 <= i < |r| ==> r[i] == LineText(frame[i])
  {
    if frame == [] then [] else [LineText(frame[0])] + LineTexts(frame[1..])
  }

  /** The text of a frame without the blank line that ends it. */
  function Body(frame: Frame): string {
    Join(LineTexts(frame), "\n")
  }

  function StreamOf(frames: seq<Frame>): string {
    if frames == [] then "" else Body(frames[0]) + "\n\n" + StreamOf(frames[1..])
  }

  /** What the data lines of a frame hold. */
  function DataPieces(frame: Frame): seq<string> {
    if frame == [] then []
    else (if frame[0].DataLine? then [frame[0].piece] else []) + DataPieces(frame[1..])
  }

  /** The texts some frames carry, one for each that has data lines at all. */
  function Carried(frames: seq<Frame>): seq<string> {
    if frames == [] then []
    else
      (if DataPieces(frames[0]) != [] then [Join(DataPieces(frames[0]), "\n")] else []) + Carried(frames[1..])
  }

  predicate NoBreak(line: string) {
    '\n' !in line
  }

  lemma {:induction false} LinesHaveNoBreak(text: string)
    ensures forall line :: line in AllLines(text) ==> NoBreak(line)
    ensures Join(AllLines(text), "\n") == text
    decreases |text|
  {
    match SplitOnce(text, {'\n'})
    case None =>
    case Some((line, rest)) =>
      LinesHaveNoBreak(rest);
      AllLinesStep(text, line, rest);
      assert ([line] + AllLines(rest))[1..] == AllLines(rest);
      JoinedLine(text, line, rest);
  }

  lemma AllLinesStep(text: string, line: string, rest: string)
    requires SplitOnce(text, {'\n'}) == Some((line, rest))
    ensures AllLines(text) == [line] + AllLines(rest)
  {
    hide SplitOnce;
    var more := SplitLines(rest);
    assert [line] + more.complete + [more.rest] == [line] + (more.complete + [more.rest]);
  }

  lemma JoinedLine(text: string, line: string, rest: string)
    requires SplitOnce(text, {'\n'}) == Some((line, rest))
    ensures text == line + "\n" + rest && NoBreak(line)
  {
  }

  /** Lines without line breaks are found again in their join. */
  lemma {:induction false} LinesOfJoin(lines: seq<string>)
    requires lines != [] && forall line :: line in lines ==> NoBreak(line)
    ensures AllLines(Join(lines, "\n")) == lines
    decreases |lines|
  {
    hide SplitOnce, SplitLines;
    if |lines| == 1 {
      OnlyLine(lines[0]);
    } else {
      LinesOfJoin(lines[1..]);
      assert NoBreak(lines[0]);
      var rest := Join(lines[1..], "\n");
      OneLine(lines[0], rest);
      assert AllLines(lines[0] + "\n" + rest) == [lines[0]] + AllLines(rest);
      assert lines == [lines[0]] + lines[1..];
    }
  }

  lemma OnlyLine(line: string)
    requires NoBreak(line)
    ensures AllLines(line) == [line]
  {
  }

  /** The first blank line after lines that are not empty is the one that follows them. */
  lemma {:induction false} FirstBlank(lines: seq<string>, rest: string)
    requires lines != [] && forall line :: line in lines ==> line != "" && NoBreak(line)
    ensures Find(Join(lines, "\n") + BLANK_LINE + rest, BLANK_LINE) == |Join(lines, "\n")|
    decreases |lines|
  {
    hide Find;
    var body := Join(lines, "\n");
    var s := body + BLANK_LINE + rest;
    assert s[|body|..|body| + 2] == BLANK_LINE;
    var first := lines[0];
    assert first in lines && NoBreak(first);
    forall k: nat | k < |body|
      ensures !OccursAt(s, BLANK_LINE, k)
    {
      OccursChar(s, BLANK_LINE, k, 0);
      OccursChar(s, BLANK_LINE, k, 1);
      if k < |first| {
        assert s[k] == first[k];
        assert first[k] in first;
      } else {
        LaterLine(lines, rest, k);
      }
    }
    FindIs(s, BLANK_LINE, |body|);
  }

  lemma {:induction false} LaterLine(lines: seq<string>, rest: string, k: nat)
    requires lines != [] && forall line :: line in lines ==> line != "" && NoBreak(line)
    requires |lines[0]| <= k < |Join(lines, "\n")|
    ensures !OccursAt(Join(lines, "\n") + BLANK_LINE + rest, BLANK_LINE, k)
    decreases |lines|, 0
  {
    hide Find, OccursAt;
    var first := lines[0];
    var more := Join(lines[1..], "\n");
    var tail := more + BLANK_LINE + rest;
    assert Join(lines, "\n") + BLANK_LINE + rest == first + "\n" + tail;
    assert forall line :: line in lines[1..] ==> line in lines;
    FirstBlank(lines[1..], rest);
    assert lines[1] in lines && NoBreak(lines[1]) && lines[1][0] in lines[1];
    FirstOfJoin(lines[1..]);
    assert tail[0] == more[0];
    if k > |first| {
      NotBefore(tail, k - |first| - 1);
    }
    NotAcross(first, tail, k);
  }

  lemma NotAcross(first: string, tail: string, k: nat)
    requires |first| <= k && tail != "" && tail[0] != '\n'
    requires k == |first| || !OccursAt(tail, BLANK_LINE, k - |first| - 1)
    ensures !OccursAt(first + "\n" + tail, BLANK_LINE, k)
  {
    var s := first + "\n" + tail;
    if k == |first| {
      OccursChar(s, BLANK_LINE, k, 1);
      assert s[k + 1] == tail[0];
    } else if k + 2 <= |s| {
      var j := k - |first| - 1;
      assert s[k..k + 2] == tail[j..j + 2];
    }
  }

  lemma NotBefore(s: string, j: nat)
    requires j < Find(s, BLANK_LINE)
    ensures !OccursAt(s, BLANK_LINE, j)
  {
  }

  lemma FirstOfJoin(lines: seq<string>)
    requires lines != [] && lines[0] != ""
    ensures Join(lines, "\n") != "" && Join(lines, "\n")[0] == lines[0][0]
  {
  }

  lemma BodyEnds(frame: Frame, rest: string)
    requires IsFrame(frame)
    ensures NextFrame(Body(frame) + "\n\n" + rest) == Some((Body(frame), rest))
  {
    hide Find, Join;
    var body := Body(frame);
    var s := body + BLANK_LINE + rest;
    LinesNotBlank(frame);
    FirstBlank(LineTexts(frame), rest);
    assert s[..|body|] == body && s[|body| + 2..] == rest;
  }

  lemma LinesNotBlank(frame: Frame)
    requires IsFrame(frame)
    ensures forall line :: line in LineTexts(frame) ==> line != "" && NoBreak(line)
  {
    hide LineText, IsLine;
    forall line | line in LineTexts(frame)
      ensures line != "" && NoBreak(line)
    {
      var i :| 0 <= i < |frame| && LineTexts(frame)[i] == line;
      assert IsLine(frame[i]);
      LineNotBlank(frame[i]);
    }
  }

  lemma LineNotBlank(l: Line)
    requires IsLine(l)
    ensures LineText(l) != "" && NoBreak(LineText(l))
  {
  }

  function Bodies(frames: seq<Frame>): (r: seq<string>)
    ensures |r| == |frames|
    ensures forall i :: 0 <= i < |r| ==> r[i] == Body(frames[i])
  {
    if frames == [] then [] else [Body(frames[0])] + Bodies(frames[1..])
  }

  /** Frames written one after another are found again, and any partial frame after them is left. */
  lemma {:induction false} StreamSplits(frames: seq<Frame>, partial: string)
    requires AreFrames(frames) && NextFrame(partial).None?
    ensures SplitFrames(StreamOf(frames) + partial) == Lines(Bodies(frames), partial)
    decreases |frames|
  {
    hide NextFrame, Body, IsFrame;
    if frames == [] {
      assert "" + partial == partial;
    } else {
      var later := StreamOf(frames[1..]) + partial;
      assert StreamOf(frames) + partial == Body(frames[0]) + "\n\n" + later;
      assert frames[0] in frames;
      BodyEnds(frames[0], later);
      StreamSplits(frames[1..], partial);
    }
  }

  // --- which texts arrive unchanged -----------------------------------------------------------------

  function TrimmedLines(lines: seq<string>): (r: seq<string>)
    ensures |r| == |lines|
    ensures forall i :: 0 <= i < |r| ==> r[i] == TrimReturns(lines[i])
  {
    if lines == [] then [] else [TrimReturns(lines[0])] + TrimmedLines(lines[1..])
  }

  lemma {:induction false} TrimKeepsPrefix(prefix: string, line: string)
    requires prefix != "" && prefix[|prefix| - 1] != '\r'
    ensures TrimReturns(prefix + line) == prefix + TrimReturns(line)
    decreases |line|
  {
    var s := prefix + line;
    if line == "" {
      assert s == prefix;
    } else {
      var shorter := line[..|line| - 1];
      assert s[..|s| - 1] == prefix + shorter;
      assert s[|s| - 1] == line[|line| - 1];
      if line[|line| - 1] == '\r' {
        TrimKeepsPrefix(prefix, shorter);
      }
    }
  }

  lemma PieceOfLine(l: Line)
    requires IsLine(l)
    ensures PieceOf(LineText(l)) == if l.DataLine? then Some(TrimReturns(l.piece)) else None
  {
    hide TrimReturns;
    match l
    case DataLine(piece, spaced) =>
      var prefix := if spaced then "data: " else "data:";
      TrimKeepsPrefix(prefix, piece);
      DataPiece(TrimReturns(piece), spaced);
    case OtherLine(text) => NoData(TrimReturns(text), text);
  }

  lemma NoData(trimmed: string, text: string)
    requires trimmed <= text && !("data:" <= text)
    ensures PieceIn(trimmed) == None
  {
    assert |trimmed| >= 5 ==> trimmed[..5] == text[..5];
  }

  lemma DataPiece(piece: string, spaced: bool)
    requires spaced || piece == "" || piece[0] != ' '
    ensures PieceIn((if spaced then "data: " else "data:") + piece) == Some(piece)
  {
    var rest := (if spaced then " " else "") + piece;
    var line := DATA + rest;
    assert line == (if spaced then "data: " else "data:") + piece;
    assert line[..|DATA|] == DATA && line[|DATA|..] == rest;
    assert spaced ==> rest[1..] == piece;
    assert !spaced ==> rest == piece;
  }

  lemma {:induction false} PiecesOfFrame(frame: Frame)
    requires forall l :: l in frame ==> IsLine(l)
    ensures Pieces(LineTexts(frame)) == TrimmedLines(DataPieces(frame))
    decreases |frame|
  {
    hide PieceOf, TrimReturns, IsLine, LineText;
    if frame != [] {
      assert frame[0] in frame;
      PieceOfLine(frame[0]);
      PiecesOfFrame(frame[1..]);
      assert LineTexts(frame)[1..] == LineTexts(frame[1..]);
      TrimmedCons(frame);
    }
  }

  lemma TrimmedCons(frame: Frame)
    requires frame != []
    ensures TrimmedLines(DataPieces(frame))
         == (if frame[0].DataLine? then [TrimReturns(frame[0].piece)] else []) + TrimmedLines(DataPieces(frame[1..]))
  {
    hide TrimReturns;
    var rest := DataPieces(frame[1..]);
    if frame[0].DataLine? {
      assert ([frame[0].piece] + rest)[1..] == rest;
    } else {
      assert [] + rest == rest;
    }
  }

  /**
   A frame's data is that of its data lines alone, whatever other lines stand before, between
   or after them: their contents trimmed, and leading empty ones lost.
   */
  lemma DataOfFrame(frame: Frame)
    requires IsFrame(frame)
    ensures DataOf(Body(frame)) == Join(DropEmpty(TrimmedLines(DataPieces(frame))), "\n")
  {
    hide AllLines, Pieces, Join, DropEmpty, IsLine;
    LinesNotBlank(frame);
    LinesOfJoin(LineTexts(frame));
    PiecesOfFrame(frame);
  }

  /** A frame without data lines, such as a comment to keep the connection alive, yields nothing. */
  lemma SilentFrame(parse: Parser, frame: Frame)
    requires IsFrame(frame) && DataPieces(frame) == []
    ensures FrameItem(parse, Body(frame)) == None
  {
    hide Body, IsFrame;
    DataOfFrame(frame);
  }

  predicate EndsInReturn(line: string) {
    line != "" && line[|line| - 1] == '\r'
  }

  /** A text without a leading line break and without carriage returns at the ends of its lines. */
  predicate Arrives(text: string) {
    (text == "" || text[0] != '\n') && forall line :: line in AllLines(text) ==> !EndsInReturn(line)
  }

  lemma {:induction false} TrimmedLength(lines: seq<string>)
    requires lines != []
    ensures |Join(TrimmedLines(lines), "\n")| <= |Join(lines, "\n")|
    ensures (exists line :: line in lines && EndsInReturn(line)) ==> |Join(TrimmedLines(lines), "\n")| < |Join(lines, "\n")|
    ensures (forall line :: line in lines ==> !EndsInReturn(line)) ==> TrimmedLines(lines) == lines
    decreases |lines|
  {
    hide TrimReturns, EndsInReturn, Join;
    var trimmed := TrimmedLines(lines);
    TrimShortens(lines[0]);
    JoinLength(lines);
    JoinLength(trimmed);
    if |lines| == 1 {
      assert trimmed == [TrimReturns(lines[0])];
    } else {
      TrimmedLength(lines[1..]);
      assert trimmed[1..] == TrimmedLines(lines[1..]);
      assert lines == [lines[0]] + lines[1..] && trimmed == [trimmed[0]] + trimmed[1..];
    }
  }

  lemma JoinLength(lines: seq<string>)
    requires lines != []
    ensures |Join(lines, "\n")| == |lines[0]| + if |lines| == 1 then 0 else 1 + |Join(lines[1..], "\n")|
  {
  }

  lemma TrimShortens(line: string)
    ensures EndsInReturn(line) ==> |TrimReturns(line)| < |line|
    ensures !EndsInReturn(line) ==> TrimReturns(line) == line
  {
  }

  lemma {:induction false} DroppedLength(lines: seq<string>)
    ensures |Join(DropEmpty(lines), "\n")| <= |Join(lines, "\n")|
    ensures |lines| > 1 && lines[0] == "" ==> |Join(DropEmpty(lines), "\n")| < |Join(lines, "\n")|
    ensures |lines| == 1 && lines[0] == "" ==> Join(DropEmpty(lines), "\n") == Join(lines, "\n")
    ensures lines == [] || lines[0] != "" ==> DropEmpty(lines) == lines
    decreases |lines|
  {
    if lines != [] && lines[0] == "" {
      DroppedLength(lines[1..]);
    }
  }

  /** A frame whose text is no JSON is skipped. */
  lemma UnparsedFrame(parse: Parser, frame: Frame)
    requires IsFrame(frame) && DataPieces(frame) != []
    requires var text := Join(DataPieces(frame), "\n"); Arrives(text) && parse(text) == None
    ensures FrameItem(parse, Body(frame)) == None
  {
    hide DataOf, Body, IsFrame, Arrives;
    ArrivesExactly(frame);
  }

  lemma {:induction false} PiecesHaveNoBreak(frame: Frame)
    requires forall l :: l in frame ==> IsLine(l)
    ensures forall piece :: piece in DataPieces(frame) ==> NoBreak(piece)
  {
    if frame != [] {
      assert IsLine(frame[0]);
      PiecesHaveNoBreak(frame[1..]);
    }
  }

  /** The text a frame carries arrives unchanged exactly when it can. */
  lemma ArrivesExactly(frame: Frame)
    requires IsFrame(frame) && DataPieces(frame) != []
    ensures var text := Join(DataPieces(frame), "\n"); DataOf(Body(frame)) == text <==> Arrives(text)
  {
    hide AllLines, Join, DropEmpty, TrimmedLines, EndsInReturn, DataOf, Body, IsLine;
    var lines := DataPieces(frame);
    PiecesHaveNoBreak(frame);
    LinesOfJoin(lines);
    DataOfFrame(frame);
    TrimmedLength(lines);
    DroppedLength(TrimmedLines(lines));
    LeadingBreak(Join(lines, "\n"));
  }

  lemma LeadingBreak(text: string)
    ensures text != "" && text[0] == '\n' <==> |AllLines(text)| > 1 && AllLines(text)[0] == ""
    ensures |AllLines(text)| == 1 ==> AllLines(text)[0] == text
  {
    match SplitOnce(text, {'\n'})
    case None =>
    case Some((line, rest)) => AllLinesStep(text, line, rest);
  }

  /** A text that starts with a line break arrives without it. */
  lemma LeadingBreakIsLost(frame: Frame)
    requires IsFrame(frame) && |DataPieces(frame)| > 1 && DataPieces(frame)[0] == ""
    ensures DataOf(Body(frame)) != Join(DataPieces(frame), "\n")
  {
    hide DataOf, Body, AllLines;
    ArrivesExactly(frame);
    assert Join(DataPieces(frame), "\n")[0] == '\n';
  }

  // --- from the server's events to the client's -------------------------------------------------------

  /** Writing JSON as text that parses back and can be framed. */
  ghost predicate IsWriter(parse: Parser, write: Value -> string) {
    forall v :: parse(write(v)) == Some(v) && Arrives(write(v)) && write(v) != ""
  }

  /** What a server answers on a stream: an event, or a JSON-RPC error. */
  datatype Reply = Answer(event: Wire.Event) | Refusal(code: int, message: string)

  predicate IsSendable(r: Reply) {
    match r
    case Answer(e) => WireRoundTrips.NoNullEvent(e)
    case Refusal(code, _) => I64_MIN <= code <= I64_MAX
  }

  /** A reply as a JSON-RPC response. */
  function Response(id: Value, r: Reply): Value {
    match r
    case Answer(e) =>
      Object(map["jsonrpc" := String("2.0"), "id" := id, "result" := Object(Wire.EventFields(e))])
    case Refusal(code, message) =>
      Object(map["jsonrpc" := String("2.0"), "id" := id,
                 "error" := Object(map["code" := Number(code), "message" := String(message)])])
  }

  function Texts(write: Value -> string, id: Value, replies: seq<Reply>): seq<string> {
    if replies == [] then [] else [write(Response(id, replies[0]))] + Texts(write, id, replies[1..])
  }

  /** A reply as the client yields it. */
  function Told(r: Reply): Item {
    match r
    case Answer(e) => Ok(e)
    case Refusal(code, message) => Err(Service(Wire.Rpc(code, message)))
  }

  function ToldAll(replies: seq<Reply>): seq<Item> {
    if replies == [] then [] else [Told(replies[0])] + ToldAll(replies[1..])
  }

  lemma ReplyArrives(parse: Parser, write: Value -> string, id: Value, r: Reply, frame: Frame)
    requires IsWriter(parse, write) && IsSendable(r)
    requires IsFrame(frame) && DataPieces(frame) != [] && Join(DataPieces(frame), "\n") == write(Response(id, r))
    ensures FrameItem(parse, Body(frame)) == Some(Told(r))
  {
    hide DataOf, Body, Arrives, WireRoundTrips.NoNullEvent, Wire.ParseEvent, Wire.EventFields, Wire.ExtractResult, Response;
    hide IsFrame, DataPieces, Join;
    ArrivesExactly(frame);
    match r
    case Answer(e) =>
      AnswerResult(id, e);
      WireRoundTrips.EventRoundTrips(e);
    case Refusal(code, message) => RefusalResult(id, code, message);
  }

  lemma AnswerResult(id: Value, e: Wire.Event)
    ensures Wire.ExtractResult(Response(id, Answer(e))) == Ok(Object(Wire.EventFields(e)))
  {
    hide Wire.EventFields;
  }

  lemma RefusalResult(id: Value, code: int, message: string)
    requires I64_MIN <= code <= I64_MAX
    ensures Wire.ExtractResult(Response(id, Refusal(code, message))) == Err(Wire.Rpc(code, message))
  {
    var v := Response(id, Refusal(code, message));
    var e := Object(map["code" := Number(code), "message" := String(message)]);
    assert Get(v, "error") == Some(e);
    assert Get(e, "code") == Some(Number(code)) && GetString(e, "message") == Some(message);
  }

  lemma {:induction false} RepliesInFrames(parse: Parser, write: Value -> string, id: Value, replies: seq<Reply>, frames: seq<Frame>)
    requires IsWriter(parse, write) && forall r :: r in replies ==> IsSendable(r)
    requires AreFrames(frames) && Carried(frames) == Texts(write, id, replies)
    ensures Items(parse, Bodies(frames)) == ToldAll(replies)
    decreases |frames|
  {
    hide FrameItem, Body, IsSendable, Response, IsWriter, Told, IsFrame, DataPieces, Join;
    if frames != [] {
      assert frames[0] in frames && Bodies(frames)[1..] == Bodies(frames[1..]);
      CarriedStep(frames);
      if DataPieces(frames[0]) == [] {
        SilentFrame(parse, frames[0]);
        RepliesInFrames(parse, write, id, replies, frames[1..]);
      } else {
        ReplyArrives(parse, write, id, replies[0], frames[0]);
        RepliesInFrames(parse, write, id, replies[1..], frames[1..]);
      }
    }
  }

  lemma CarriedStep(frames: seq<Frame>)
    requires frames != []
    ensures DataPieces(frames[0]) == [] ==> Carried(frames) == Carried(frames[1..])
    ensures DataPieces(frames[0]) != [] ==>
              Carried(frames) != [] && Carried(frames)[0] == Join(DataPieces(frames[0]), "\n")
              && Carried(frames)[1..] == Carried(frames[1..])
  {
    hide DataPieces, Join;
  }

  /**
   The replies a server writes as frames, with any other lines and silent frames among them
   and whatever chunks the bytes come in, are what the client yields, then the error of the
   connection if it breaks; a frame cut short yields nothing.
   */
  lemma RepliesArrive(
      parse: Parser, write: Value -> string, id: Value, replies: seq<Reply>, frames: seq<Frame>, partial: string,
      chunks: seq<Chunk>)
    requires IsWriter(parse, write) && forall r :: r in replies ==> IsSendable(r)
    requires AreFrames(frames) && Carried(frames) == Texts(write, id, replies)
    requires NextFrame(partial).None?
    requires Decode(Received(chunks)).text == StreamOf(frames) + partial
    ensures FromChunks(parse, "", [], chunks) == ToldAll(replies) + BreakOf(chunks)
  {
    hide FromChunks, Decode, Items, StreamOf, NextFrame, IsWriter, IsSendable, Texts, Bodies, Carried, AreFrames;
    StreamSplits(frames, partial);
    RepliesInFrames(parse, write, id, replies, frames);
    assert [] + Received(chunks) == Received(chunks);
    assert "" + Decode(Received(chunks)).text == Decode(Received(chunks)).text;
    NothingYet();
    ChunksYieldWhole(parse, "", [], chunks);
  }

  lemma NothingYet()
    ensures SplitFrames("") == Lines([], "") && Decode([]).text == ""
  {
  }
}
