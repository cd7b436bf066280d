/** An incremental decoder of HTTP/1.1 chunked bodies, section 7.1 of RFC 9112. */
module ChunkedBody {
  import opened Wrappers
  import opened Text
  import opened Utf8

  const CR: Byte := 13
  const LF: Byte := 10
  const CRLF: seq<Byte> := [CR, LF]
  const SEMICOLON: Byte := 0x3B

  predicate StandsAt(needle: seq<Byte>, haystack: seq<Byte>, k: nat) {
    k + |needle| <= |haystack| && haystack[k..k + |needle|] == needle
  }

  function FindSubslice(haystack: seq<Byte>, needle: seq<Byte>): (pos: Option<nat>)
    requires needle != []
    ensures pos.Some? ==> StandsAt(needle, haystack, pos.value)
    ensures forall k: nat :: StandsAt(needle, haystack, k) ==> pos.Some? && pos.value <= k
  {
    FirstFrom(haystack, needle, 0)
  }

  function FirstFrom(haystack: seq<Byte>, needle: seq<Byte>, from: nat): (pos: Option<nat>)
    requires needle != []
    ensures pos.Some? ==> from <= pos.value && StandsAt(needle, haystack, pos.value)
    ensures forall k: nat :: from <= k && StandsAt(needle, haystack, k) ==> pos.Some? && pos.value <= k
    decreases |haystack| - from
  {
    if |haystack| < from + |needle| then None
    else if StandsAt(needle, haystack, from) then Some(from)
    else FirstFrom(haystack, needle, from + 1)
  }

  // --- the size line of a chunk -------------------------------------------------------

  /** `String::from_utf8_lossy`. */
  function Lossy(bytes: seq<Byte>): string {
    var d := Decode(bytes);
    if d.rest == [] then d.text else d.text + [REPLACEMENT]
  }

  predicate IsHexDigit(c: char) {
    IsDigit(c) || 'a' <= c <= 'f' || 'A' <= c <= 'F'
  }

  function HexDigit(c: char): nat
    requires IsHexDigit(c)
  {
    if IsDigit(c) then c as int - '0' as int
    else if 'a' <= c then c as int - 'a' as int + 10
    else c as int - 'A' as int + 10
  }

  function HexValue(digits: string): nat
    requires forall c :: c in digits ==> IsHexDigit(c)
  {
    if digits == "" then 0
    else
      assert digits[|digits| - 1] in digits;
      16 * HexValue(digits[..|digits| - 1]) + HexDigit(digits[|digits| - 1])
  }

  /** `usize::from_str_radix(s, 16)`: an optional `+`, then at least one digit, within the machine word. */
  function ParseHex(s: string): Option<nat> {
    var digits := if s != "" && s[0] == '+' then s[1..] else s;
    if digits != "" && (forall c :: c in digits ==> IsHexDigit(c)) && HexValue(digits) <= USIZE_MAX
    then Some(HexValue(digits)) else None
  }

  /** The size a line announces, zero for one that announces none. */
  function SizeOf(line: seq<Byte>): nat {
    var text := Lossy(line);
    var size := match SplitOnce(text, {';'}) case Some((before, _)) => before case None => text;
    match ParseHex(Trim(size))
    case Some(n) => n
    case None => 0
  }

  // --- the decoder ---------------------------------------------------------------------

  /** The largest size to which the decoder can add the two bytes of a line end. */
  const MAX_SIZE: nat := USIZE_MAX - 2

  /** Why decoding stops: for more bytes, at the end of the last size line, or because that addition overflows. */
  datatype Stop = Waiting | AtEnd(at: nat) | Overflow

  /** What bytes decode to, and the state they leave. */
  datatype Fed = Fed(out: seq<Byte>, carry: seq<Byte>, remaining: nat, stop: Stop)

  /** The result of decoding after `n` bytes that decode to `out`. */
  function Later(out: seq<Byte>, n: nat, fed: Fed): Fed {
    Fed(out + fed.out, fed.carry, fed.remaining, if fed.stop.AtEnd? then AtEnd(n + fed.stop.at) else fed.stop)
  }

  /** Everything the bytes at hand allow to decode. */
  function Run(carry: seq<Byte>, remaining: nat): (fed: Fed)
    ensures fed.stop.AtEnd? ==> fed.stop.at <= |carry|
    ensures |fed.carry| <= |carry|
    decreases |carry|
  {
    if remaining == 0 then
      match FindSubslice(carry, CRLF)
      case None => Fed([], carry, 0, Waiting)
      case Some(pos) =>
        var size := SizeOf(carry[..pos]);
        if size == 0 then Fed([], [], 0, AtEnd(pos + 2))
        else Later([], pos + 2, Run(carry[pos + 2..], size))
    else if remaining > MAX_SIZE then Fed([], [], 0, Overflow)
    else if |carry| < remaining + 2 then Fed([], carry, remaining, Waiting)
    else Later(carry[..remaining], remaining + 2, Run(carry[remaining + 2..], 0))
  }

  /** Too little is at hand to decode any further. */
  predicate IsStuck(carry: seq<Byte>, remaining: nat) {
    if remaining == 0 then FindSubslice(carry, CRLF).None? else remaining <= MAX_SIZE && |carry| < remaining + 2
  }

  class ChunkDecoder {
    var carry: seq<Byte>
    var remaining: nat

    constructor ()
      ensures carry == [] && remaining == 0
    {
      carry, remaining := [], 0;
    }

    /** None stands for the overflow, which ends the program. */
    method Feed(bytes: seq<Byte>) returns (r: Option<seq<Byte>>)
      modifies this
      ensures r.None? <==> Run(old(carry) + bytes, old(remaining)).stop.Overflow?
      ensures r.Some? ==>
                && IsStuck(carry, remaining)
                && Fed(r.value, carry, remaining, Run(old(carry) + bytes, old(remaining)).stop)
                   == Run(old(carry) + bytes, old(remaining))
    {
      hide SizeOf, FindSubslice, Run, Later;
      carry := carry + bytes;
      ghost var whole := Run(carry, remaining);
      ghost var used: nat := 0;
      var out := [];
      LaterTwice([], 0, [], 0, whole);
      while true
        invariant whole == Later(out, used, Run(carry, remaining))
        decreases |carry|
      {
        RunStep(carry, remaining);
        LaterParts(out, used, Run(carry, remaining));
        if remaining == 0 {
          var pos := FindSubslice(carry, CRLF);
          if pos.None? {
            break;
          }
          FoundFits(carry, pos.value);
          var size := SizeOf(carry[..pos.value]);
          LaterTwice(out, used, [], pos.value + 2, Run(carry[pos.value + 2..], size));
          used := used + pos.value + 2;
          carry := carry[pos.value + 2..];
          if size == 0 {
            carry := [];
            NothingStuck();
            break;
          }
          remaining := size;
        } else {
          if remaining > MAX_SIZE {
            return None;
          }
          if |carry| < remaining + 2 {
            break;
          }
          LaterTwice(out, used, carry[..remaining], remaining + 2, Run(carry[remaining + 2..], 0));
          used := used + remaining + 2;
          out := out + carry[..remaining];
          carry := carry[remaining + 2..];
          remaining := 0;
        }
      }
      r := Some(out);
    }
  }

  lemma FoundFits(carry: seq<Byte>, pos: nat)
    requires FindSubslice(carry, CRLF) == Some(pos)
    ensures pos + 2 <= |carry|
  {
  }

  lemma NothingStuck()
    ensures IsStuck([], 0)
  {
  }

  lemma LaterParts(out: seq<Byte>, n: nat, fed: Fed)
    ensures var l := Later(out, n, fed);
            && l.out == out + fed.out && l.carry == fed.carry && l.remaining == fed.remaining
            && l.stop == if fed.stop.AtEnd? then AtEnd(n + fed.stop.at) else fed.stop
    ensures fed.out == [] ==> Later(out, n, fed).out == out
  {
  }

  lemma LaterTwice(a: seq<Byte>, m: nat, b: seq<Byte>, n: nat, fed: Fed)
    ensures Later(a, m, Later(b, n, fed)) == Later(a + b, m + n, fed)
    ensures Later([], 0, fed) == fed
    ensures a + [] == a
  {
    assert a + (b + fed.out) == a + b + fed.out;
    assert [] + fed.out == fed.out;
  }

  lemma RunStep(carry: seq<Byte>, remaining: nat)
    ensures Run(carry, remaining) ==
            if remaining == 0 then
              match FindSubslice(carry, CRLF)
              case None => Fed([], carry, 0, Waiting)
              case Some(pos) =>
                var size := SizeOf(carry[..pos]);
                if size == 0 then Fed([], [], 0, AtEnd(pos + 2))
                else Later([], pos + 2, Run(carry[pos + 2..], size))
            else if remaining > MAX_SIZE then Fed([], [], 0, Overflow)
            else if |carry| < remaining + 2 then Fed([], carry, remaining, Waiting)
            else Later(carry[..remaining], remaining + 2, Run(carry[remaining + 2..], 0))
  {
  }

  // --- decoding does not depend on the cuts -----------------------------------------------

  /** More bytes do not move a line end already found. */
  lemma FoundStays(a: seq<Byte>, b: seq<Byte>)
    requires FindSubslice(a, CRLF).Some?
    ensures FindSubslice(a + b, CRLF) == FindSubslice(a, CRLF)
  {
    var pos := FindSubslice(a, CRLF).value;
    assert (a + b)[pos..pos + 2] == a[pos..pos + 2];
    assert StandsAt(CRLF, a + b, pos);
    var q := FindSubslice(a + b, CRLF).value;
    assert (a + b)[q..q + 2] == a[q..q + 2];
    assert StandsAt(CRLF, a, q);
  }

  /** Until decoding stops, decoding what came so far and then the rest is decoding all; from there on, nothing counts. */
  lemma {:induction false} RunAppend(a: seq<Byte>, b: seq<Byte>, remaining: nat)
    ensures var first := Run(a, remaining);
            Run(a + b, remaining)
            == if !first.stop.Waiting? then first else Later(first.out, |a| - |first.carry|, Run(first.carry + b, first.remaining))
    ensures var first := Run(a, remaining);
            first.stop.Waiting? ==> |first.carry| <= |a| && IsStuck(first.carry, first.remaining)
    decreases |a|
  {
    hide SizeOf, FindSubslice, Run, Later;
    RunStep(a, remaining);
    RunStep(a + b, remaining);
    if remaining == 0 {
      if FindSubslice(a, CRLF).None? {
        LaterTwice([], 0, [], 0, Run(a + b, 0));
      } else {
        var pos := FindSubslice(a, CRLF).value;
        FoundFits(a, pos);
        FoundStays(a, b);
        assert (a + b)[..pos] == a[..pos];
        assert (a + b)[pos + 2..] == a[pos + 2..] + b;
        var size := SizeOf(a[..pos]);
        if size != 0 {
          RunAppend(a[pos + 2..], b, size);
          AfterPart([], pos + 2, Run(a[pos + 2..], size), b, |a|);
        }
      }
    } else if |a| < remaining + 2 {
      LaterTwice([], 0, [], 0, Run(a + b, remaining));
    } else if remaining <= MAX_SIZE {
      assert (a + b)[..remaining] == a[..remaining];
      assert (a + b)[remaining + 2..] == a[remaining + 2..] + b;
      RunAppend(a[remaining + 2..], b, 0);
      AfterPart(a[..remaining], remaining + 2, Run(a[remaining + 2..], 0), b, |a|);
    }
  }

  lemma AfterPart(out: seq<Byte>, n: nat, first: Fed, b: seq<Byte>, length: nat)
    requires |first.carry| + n <= length
    ensures var all := Later(out, n, first);
            && all.stop.Waiting? == first.stop.Waiting? && all.carry == first.carry && all.remaining == first.remaining
            && Later(all.out, length - |first.carry|, Run(first.carry + b, first.remaining))
               == Later(out, n, Later(first.out, length - n - |first.carry|, Run(first.carry + b, first.remaining)))
  {
    hide Run;
    LaterTwice(out, n, first.out, length - n - |first.carry|, Run(first.carry + b, first.remaining));
  }

  // --- well-formed bodies ------------------------------------------------------------------

  /** A size line: hexadecimal digits, blanks, and an extension, which the decoder drops. */
  datatype SizeLine = SizeLine(digits: string, blanks: string, extension: seq<Byte>)

  datatype Chunk = Chunk(line: SizeLine, data: seq<Byte>)

  predicate IsSizeLine(l: SizeLine, size: nat) {
    && l.digits != "" && (forall c :: c in l.digits ==> IsHexDigit(c)) && HexValue(l.digits) == size <= USIZE_MAX
    && (forall c :: c in l.blanks ==> c == ' ' || c == '\t')
    && (l.extension != [] ==> l.extension[0] == SEMICOLON && CR !in l.extension)
  }

  /** A chunk that any memory holds, well within the machine word. */
  predicate IsChunk(c: Chunk) {
    c.data != [] && IsSizeLine(c.line, |c.data|) && |c.data| <= MAX_SIZE
  }

  /** The bytes of an ASCII text. */
  function Ascii(text: string): (r: seq<Byte>)
    requires forall c :: c in text ==> c < '\U{80}'
    ensures |r| == |text|
    ensures forall i :: 0 <= i < |r| ==> r[i] == text[i] as int
  {
    seq(|text|, i requires 0 <= i < |text| => CodeOf(text[i], text))
  }

  function CodeOf(c: char, text: string): (b: Byte)
    requires c in text && forall c :: c in text ==> c < '\U{80}'
    ensures b == c as int
  {
    c as int
  }

  function LineBytes(l: SizeLine, size: nat): seq<Byte>
    requires IsSizeLine(l, size)
  {
    Ascii(l.digits + l.blanks) + l.extension
  }

  function ChunkBytes(c: Chunk): seq<Byte>
    requires IsChunk(c)
  {
    LineBytes(c.line, |c.data|) + CRLF + c.data + CRLF
  }

  function BodyBytes(chunks: seq<Chunk>): seq<Byte>
    requires forall c :: c in chunks ==> IsChunk(c)
  {
    if chunks == [] then [] else ChunkBytes(chunks[0]) + BodyBytes(chunks[1..])
  }

  function Payload(chunks: seq<Chunk>): seq<Byte> {
    if chunks == [] then [] else chunks[0].data + Payload(chunks[1..])
  }

  /** A whole body: its chunks, the last one of size zero, and no trailers. */
  function Encoded(chunks: seq<Chunk>, last: SizeLine): seq<Byte>
    requires forall c :: c in chunks ==> IsChunk(c)
    requires IsSizeLine(last, 0)
  {
    BodyBytes(chunks) + (LineBytes(last, 0) + CRLF + CRLF)
  }

  lemma DecodeAscii(text: string)
    requires forall c :: c in text ==> c < '\U{80}'
    ensures Decode(Ascii(text)) == Decoded(text, [])
  {
    hide Decode;
    AsciiIsUtf8(text);
    EncodedDecodes(text);
  }

  lemma {:induction false} AsciiIsUtf8(text: string)
    requires forall c :: c in text ==> c < '\U{80}'
    ensures Ascii(text) == Encode(text)
    decreases |text|
  {
    if text != "" {
      assert forall c :: c in text[1..] ==> c in text;
      AsciiIsUtf8(text[1..]);
      assert Ascii(text)[1..] == Ascii(text[1..]);
      assert text[0] in text;
    }
  }

  lemma TrimBlanks(s: string, blanks: string)
    requires forall c :: c in blanks ==> c == ' ' || c == '\t'
    requires s != "" && s[0] !in WHITESPACE && s[|s| - 1] !in WHITESPACE
    ensures Trim(s + blanks) == s
  {
    assert TrimStart(s + blanks) == s + blanks;
    TrimEndBlanks(s, blanks);
  }

  lemma {:induction false} TrimEndBlanks(s: string, blanks: string)
    requires forall c :: c in blanks ==> c == ' ' || c == '\t'
    requires s != "" && s[|s| - 1] !in WHITESPACE
    ensures TrimEnd(s + blanks) == s
    decreases |blanks|
  {
    if blanks == "" {
      assert s + blanks == s;
    } else {
      var all := s + blanks;
      var shorter := blanks[..|blanks| - 1];
      assert forall c :: c in shorter ==> c in blanks;
      assert all[|all| - 1] == blanks[|blanks| - 1];
      assert blanks[|blanks| - 1] in blanks;
      assert all[..|all| - 1] == s + shorter;
      TrimEndBlanks(s, shorter);
    }
  }

  /** The text of a size line begins with its ASCII part, and goes on with a semicolon if at all. */
  lemma LossyLine(sized: string, extension: seq<Byte>)
    requires (forall c :: c in sized ==> c < '\U{80}') && (extension != [] ==> extension[0] == SEMICOLON)
    ensures var text := Lossy(Ascii(sized) + extension);
            text == sized || (sized < text && text[|sized|] == ';')
  {
    hide Decode, FrontOf;
    DecodeAscii(sized);
    DecodeAppend(Ascii(sized), extension);
    assert [] + extension == extension;
    if extension == [] {
      NoBytes();
      assert sized + "" == sized;
    } else {
      SemicolonFirst(extension);
      var d := Decode(extension);
      AfterParts(sized, d);
    }
  }

  /** What stands before the semicolon of a size line. */
  lemma SizedPart(sized: string, extension: seq<Byte>)
    requires (forall c :: c in sized ==> c < '\U{80}' && c != ';') && (extension != [] ==> extension[0] == SEMICOLON)
    ensures SizeOf(Ascii(sized) + extension) == match ParseHex(Trim(sized)) case Some(n) => n case None => 0
  {
    hide Lossy, Trim, Ascii, ParseHex;
    var text := Lossy(Ascii(sized) + extension);
    LossyLine(sized, extension);
    if sized < text {
      assert text == sized + [';'] + text[|sized| + 1..];
      SplitOnceAt(sized, ';', text[|sized| + 1..], {';'});
    }
  }

  /** A size line without digits, or with anything but digits, blanks and a plus sign, announces no size and so the end. */
  lemma OddSizeEnds(sized: string, extension: seq<Byte>)
    requires (forall c :: c in sized ==> c < '\U{80}' && c != ';') && (extension != [] ==> extension[0] == SEMICOLON)
    requires (forall c :: c in sized ==> c == ' ') || exists c :: c in sized && !IsHexDigit(c) && c !in WHITESPACE && c != '+'
    ensures SizeOf(Ascii(sized) + extension) == 0
  {
    hide Trim, SizeOf, Ascii;
    SizedPart(sized, extension);
    if c :| c in sized && !IsHexDigit(c) && c !in WHITESPACE && c != '+' {
      KeptInTrim(sized, c);
      NoHex(Trim(sized), c);
    } else {
      BlankLine(sized);
    }
  }

  /** A plus sign before the digits counts for nothing. */
  lemma SignedSize(l: SizeLine, size: nat)
    requires IsSizeLine(l, size)
    ensures SizeOf(Ascii("+" + l.digits + l.blanks) + l.extension) == size
  {
    hide Trim, SizeOf, Ascii, HexValue;
    var sized := "+" + l.digits + l.blanks;
    forall c | c in sized
      ensures c != ';' && c < '\U{80}'
    {
    }
    SizedPart(sized, l.extension);
    var signed := "+" + l.digits;
    assert signed[|signed| - 1] == l.digits[|l.digits| - 1] && l.digits[|l.digits| - 1] in l.digits;
    TrimBlanks(signed, l.blanks);
    assert signed[1..] == l.digits;
  }

  /** A byte that is no ASCII makes no size. */
  lemma ForeignSizeEnds(sized: string, b: Byte)
    requires (forall c :: c in sized ==> c < '\U{80}' && c != ';') && b >= 0x80
    ensures SizeOf(Ascii(sized) + [b]) == 0
  {
    hide Decode, Trim, Ascii;
    DecodeAscii(sized);
    DecodeAppend(Ascii(sized), [b]);
    assert [] + [b] == [b];
    ForeignByte(b);
    AfterParts(sized, Decode([b]));
    var text := Lossy(Ascii(sized) + [b]);
    assert sized + "" == sized && text == sized + [REPLACEMENT];
    assert SplitOnce(text, {';'}).None?;
    KeptInTrim(text, REPLACEMENT);
    NoHex(Trim(text), REPLACEMENT);
  }

  lemma NoHex(s: string, c: char)
    requires c in s && !IsHexDigit(c) && c != '+'
    ensures ParseHex(s).None?
  {
    var digits := if s[0] == '+' then s[1..] else s;
    assert s == [s[0]] + s[1..];
    assert c in digits;
  }

  lemma ForeignByte(b: Byte)
    requires b >= 0x80
    ensures Decode([b]) in {Decoded([REPLACEMENT], []), Decoded("", [b])}
  {
    NoBytes();
    assert [b][1..] == [];
    if FrontOf([b]).Invalid? {
      AfterParts([REPLACEMENT], Decode([]));
      assert [REPLACEMENT] + "" == [REPLACEMENT];
    }
  }

  /** A number in hexadecimal, in lower or upper case. */
  function ShowHex(n: nat, upper: bool): (s: string)
    ensures s != "" && forall c :: c in s ==> IsHexDigit(c)
  {
    if n < 16 then [HexChar(n, upper)] else ShowHex(n / 16, upper) + [HexChar(n % 16, upper)]
  }

  function HexChar(d: nat, upper: bool): (c: char)
    requires d < 16
    ensures IsHexDigit(c) && HexDigit(c) == d
  {
    if d < 10 then ['0', '1', '2', '3', '4', '5', '6', '7', '8', '9'][d]
    else if upper then ['A', 'B', 'C', 'D', 'E', 'F'][d - 10]
    else ['a', 'b', 'c', 'd', 'e', 'f'][d - 10]
  }

  lemma {:induction false} ShownHexIs(n: nat, upper: bool)
    ensures HexValue(ShowHex(n, upper)) == n
  {
    hide HexChar, HexDigit;
    var s := ShowHex(n, upper);
    assert s[..0] == "";
    if n >= 16 {
      ShownHexIs(n / 16, upper);
      assert s[..|s| - 1] == ShowHex(n / 16, upper);
    }
  }

  /** A size line with the size printed in hexadecimal announces it. */
  lemma PrintedSizeParses(size: nat, upper: bool, blanks: string, extension: seq<Byte>)
    requires size <= USIZE_MAX && IsSizeLine(SizeLine("0", blanks, extension), 0)
    ensures SizeOf(Ascii(ShowHex(size, upper) + blanks) + extension) == size
  {
    hide SizeOf, ShowHex, Ascii;
    ShownHexIs(size, upper);
    SizeLineParses(SizeLine(ShowHex(size, upper), blanks, extension), size);
  }

  lemma {:induction false} BlankLine(s: string)
    requires forall c :: c in s ==> c == ' '
    ensures Trim(s) == ""
    decreases |s|
  {
    if s != "" {
      assert s[0] in s && forall c :: c in s[1..] ==> c in s;
      BlankLine(s[1..]);
    }
  }

  lemma KeptInTrim(s: string, c: char)
    requires c in s && c !in WHITESPACE
    ensures c in Trim(s)
  {
    KeptInStart(s, c);
    KeptInEnd(TrimStart(s), c);
  }

  lemma {:induction false} KeptInStart(s: string, c: char)
    requires c in s && c !in WHITESPACE
    ensures c in TrimStart(s)
    decreases |s|
  {
    if s[0] in WHITESPACE {
      assert s == [s[0]] + s[1..];
      KeptInStart(s[1..], c);
    }
  }

  lemma {:induction false} KeptInEnd(s: string, c: char)
    requires c in s && c !in WHITESPACE
    ensures c in TrimEnd(s)
    decreases |s|
  {
    if s[|s| - 1] in WHITESPACE {
      assert s == s[..|s| - 1] + [s[|s| - 1]];
      KeptInEnd(s[..|s| - 1], c);
    }
  }

  lemma NoBytes()
    ensures Decode([]) == Decoded("", [])
  {
  }

  lemma SemicolonFirst(bytes: seq<Byte>)
    requires bytes != [] && bytes[0] == SEMICOLON
    ensures Decode(bytes).text != "" && Decode(bytes).text[0] == ';'
  {
    assert FrontOf(bytes) == Character(1, ';');
  }

  lemma SizeLineParses(l: SizeLine, size: nat)
    requires IsSizeLine(l, size)
    ensures SizeOf(LineBytes(l, size)) == size
  {
    hide Lossy, Trim, SizeOf, Ascii, HexValue;
    var sized := l.digits + l.blanks;
    forall c | c in sized
      ensures c != ';'
    {
    }
    SizedPart(sized, l.extension);
    assert l.digits[0] in l.digits && l.digits[|l.digits| - 1] in l.digits;
    TrimBlanks(l.digits, l.blanks);
  }

  /** No line ends before its own end. */
  lemma LineEnds(l: SizeLine, size: nat, rest: seq<Byte>)
    requires IsSizeLine(l, size)
    ensures FindSubslice(LineBytes(l, size) + CRLF + rest, CRLF) == Some(|LineBytes(l, size)|)
  {
    var line := LineBytes(l, size);
    var all := line + CRLF + rest;
    assert all[|line|..|line| + 2] == CRLF;
    assert StandsAt(CRLF, all, |line|);
    var pos := FindSubslice(all, CRLF).value;
    assert all[pos..pos + 2][0] == CR;
    if pos < |line| {
      NoReturn(l, size, pos);
    }
  }

  lemma NoReturn(l: SizeLine, size: nat, k: nat)
    requires IsSizeLine(l, size) && k < |LineBytes(l, size)|
    ensures LineBytes(l, size)[k] != CR
  {
    var sized := l.digits + l.blanks;
    if k < |sized| {
      assert sized[k] in sized;
    } else {
      assert l.extension[k - |sized|] in l.extension;
    }
  }

  lemma OneChunk(c: Chunk, rest: seq<Byte>)
    requires IsChunk(c)
    ensures Run(ChunkBytes(c) + rest, 0) == Later(c.data, |ChunkBytes(c)|, Run(rest, 0))
  {
    hide Run, SizeOf, FindSubslice, LineBytes, Later, IsSizeLine;
    var line := LineBytes(c.line, |c.data|);
    var all := ChunkBytes(c) + rest;
    var tail := c.data + CRLF + rest;
    assert all == line + CRLF + tail;
    LineEnds(c.line, |c.data|, tail);
    SizeLineParses(c.line, |c.data|);
    RunStep(all, 0);
    assert all[..|line|] == line && all[|line| + 2..] == tail;
    RunStep(tail, |c.data|);
    assert tail[..|c.data|] == c.data && tail[|c.data| + 2..] == rest;
    LaterTwice([], |line| + 2, c.data, |c.data| + 2, Run(rest, 0));
    assert [] + c.data == c.data;
  }

  lemma NoChunks()
    ensures BodyBytes([]) == [] && Payload([]) == []
  {
  }

  lemma BodyStep(chunks: seq<Chunk>, rest: seq<Byte>)
    requires chunks != [] && forall c :: c in chunks ==> IsChunk(c)
    ensures BodyBytes(chunks) + rest == ChunkBytes(chunks[0]) + (BodyBytes(chunks[1..]) + rest)
    ensures |BodyBytes(chunks)| == |ChunkBytes(chunks[0])| + |BodyBytes(chunks[1..])|
    ensures Payload(chunks) == chunks[0].data + Payload(chunks[1..])
  {
    hide ChunkBytes, IsChunk;
  }

  lemma {:induction false} ManyChunks(chunks: seq<Chunk>, rest: seq<Byte>)
    requires forall c :: c in chunks ==> IsChunk(c)
    ensures Run(BodyBytes(chunks) + rest, 0) == Later(Payload(chunks), |BodyBytes(chunks)|, Run(rest, 0))
    decreases |chunks|
  {
    hide Run, Later, ChunkBytes, IsChunk, BodyBytes, Payload;
    if chunks == [] {
      NoChunks();
      assert [] + rest == rest;
      LaterTwice([], 0, [], 0, Run(rest, 0));
    } else {
      var more := BodyBytes(chunks[1..]);
      BodyStep(chunks, rest);
      OneChunk(chunks[0], more + rest);
      ManyChunks(chunks[1..], rest);
      LaterTwice(chunks[0].data, |ChunkBytes(chunks[0])|, Payload(chunks[1..]), |more|, Run(rest, 0));
    }
  }

  /** The bytes of a body up to the end of its last size line. */
  function Ended(chunks: seq<Chunk>, last: SizeLine): seq<Byte>
    requires forall c :: c in chunks ==> IsChunk(c)
    requires IsSizeLine(last, 0)
  {
    BodyBytes(chunks) + (LineBytes(last, 0) + CRLF)
  }

  /** A body decodes to its payload, ends at its last size line, and no byte after that in the same feed counts. */
  lemma WholeBody(chunks: seq<Chunk>, last: SizeLine, rest: seq<Byte>)
    requires forall c :: c in chunks ==> IsChunk(c)
    requires IsSizeLine(last, 0)
    ensures Run(Ended(chunks, last) + rest, 0) == Fed(Payload(chunks), [], 0, AtEnd(|Ended(chunks, last)|))
  {
    hide Run, SizeOf, FindSubslice, LineBytes, IsSizeLine, IsChunk, BodyBytes, Payload;
    var line := LineBytes(last, 0);
    var end := line + CRLF + rest;
    assert Ended(chunks, last) + rest == BodyBytes(chunks) + end;
    ManyChunks(chunks, end);
    LineEnds(last, 0, rest);
    SizeLineParses(last, 0);
    RunStep(end, 0);
    assert end[..|line|] == line;
  }

  predicate IsSuffix(end: seq<Byte>, bytes: seq<Byte>) {
    |end| <= |bytes| && bytes[|bytes| - |end|..] == end
  }

  /** `out` is all that decodes, and what waits for more bytes is the end of `part`. */
  predicate Waits(fed: Fed, out: seq<Byte>, part: seq<Byte>) {
    fed.out == out && fed.stop.Waiting? && IsStuck(fed.carry, fed.remaining) && IsSuffix(fed.carry, part)
  }

  /**
   Short of a whole chunk, the output is exactly the chunks already complete, and the next
   one, however much of it has come, waits until it is complete.
   */
  lemma PartialBody(chunks: seq<Chunk>, next: Chunk, part: seq<Byte>)
    requires (forall c :: c in chunks ==> IsChunk(c)) && IsChunk(next)
    requires part < ChunkBytes(next)
    ensures Waits(Run(BodyBytes(chunks) + part, 0), Payload(chunks), part)
  {
    hide Run, BodyBytes, Payload, IsChunk, ChunkBytes, IsStuck, FindSubslice;
    ManyChunks(chunks, part);
    PartialChunk(next, part);
    LaterParts(Payload(chunks), |BodyBytes(chunks)|, Run(part, 0));
  }

  lemma PartialChunk(next: Chunk, part: seq<Byte>)
    requires IsChunk(next) && part < ChunkBytes(next)
    ensures Waits(Run(part, 0), [], part)
  {
    hide Run, SizeOf, LineBytes, IsSizeLine, FindSubslice;
    var line := LineBytes(next.line, |next.data|);
    RunStep(part, 0);
    if |part| < |line| + 2 {
      assert part == (line + CRLF)[..|part|];
      PartialLine(next.line, |next.data|, part);
    } else {
      var tail := part[|line| + 2..];
      assert part == line + CRLF + tail;
      LineEnds(next.line, |next.data|, tail);
      SizeLineParses(next.line, |next.data|);
      assert part[..|line|] == line;
      RunStep(tail, |next.data|);
    }
  }

  lemma PartialLine(l: SizeLine, size: nat, part: seq<Byte>)
    requires IsSizeLine(l, size)
    requires |part| < |LineBytes(l, size)| + 2 && part <= LineBytes(l, size) + CRLF
    ensures FindSubslice(part, CRLF).None?
  {
    hide LineBytes;
    var line := LineBytes(l, size);
    forall k: nat | k + 2 <= |part|
      ensures !StandsAt(CRLF, part, k)
    {
      NoReturn(l, size, k);
      assert part[k] == (line + CRLF)[k];
      assert part[k..k + 2][0] == part[k];
    }
  }

  // --- any sequence of feeds ------------------------------------------------------------------

  function Concat(feeds: seq<seq<Byte>>): seq<Byte> {
    if feeds == [] then [] else feeds[0] + Concat(feeds[1..])
  }

  /** The concatenated outputs of one feed after another, and the state the last one leaves, unless one crashes. */
  datatype Outputs = Outputs(out: seq<Byte>, carry: seq<Byte>, remaining: nat, crashed: bool)

  function FeedEach(carry: seq<Byte>, remaining: nat, feeds: seq<seq<Byte>>): Outputs
    decreases |feeds|
  {
    if feeds == [] then Outputs([], carry, remaining, false)
    else
      var fed := Run(carry + feeds[0], remaining);
      if fed.stop.Overflow? then Outputs([], [], 0, true)
      else Onwards(fed.out, FeedEach(fed.carry, fed.remaining, feeds[1..]))
  }

  function Onwards(out: seq<Byte>, r: Outputs): Outputs {
    r.(out := out + r.out)
  }

  lemma OnwardsTwice(a: seq<Byte>, b: seq<Byte>, r: Outputs)
    ensures Onwards(a, Onwards(b, r)) == Onwards(a + b, r)
    ensures Onwards([], r) == r
    ensures r.out == [] ==> Onwards(a, r) == r.(out := a)
  {
    assert a + (b + r.out) == a + b + r.out;
    assert [] + r.out == r.out;
  }

  lemma OnwardsParts(out: seq<Byte>, r: Outputs)
    ensures Onwards(out, r).out == out + r.out && Onwards(out, r).crashed == r.crashed
  {
  }

  lemma FeedStep(carry: seq<Byte>, remaining: nat, feeds: seq<seq<Byte>>)
    ensures feeds == [] ==> FeedEach(carry, remaining, feeds) == Outputs([], carry, remaining, false)
    ensures feeds != [] ==>
              var fed := Run(carry + feeds[0], remaining);
              FeedEach(carry, remaining, feeds)
              == if fed.stop.Overflow? then Outputs([], [], 0, true)
                 else Onwards(fed.out, FeedEach(fed.carry, fed.remaining, feeds[1..]))
  {
    hide Run;
  }

  /** Feeds the decoder each piece of a body in turn. */
  method DecodeFeeds(decoder: ChunkDecoder, feeds: seq<seq<Byte>>) returns (body: seq<Byte>, crashed: bool)
    modifies decoder
    ensures var r := FeedEach(old(decoder.carry), old(decoder.remaining), feeds);
            && body == r.out && crashed == r.crashed
            && (!crashed ==> decoder.carry == r.carry && decoder.remaining == r.remaining)
  {
    hide Run, IsStuck, FeedEach, Onwards;
    body, crashed := [], false;
    ghost var whole := FeedEach(decoder.carry, decoder.remaining, feeds);
    assert feeds[0..] == feeds;
    OnwardsTwice([], [], whole);
    for i := 0 to |feeds|
      invariant Onwards(body, FeedEach(decoder.carry, decoder.remaining, feeds[i..])) == whole
    {
      assert feeds[i..][1..] == feeds[i + 1..];
      FeedStep(decoder.carry, decoder.remaining, feeds[i..]);
      var more := decoder.Feed(feeds[i]);
      if more.None? {
        OnwardsTwice(body, [], Outputs([], [], 0, true));
        return body, true;
      }
      OnwardsTwice(body, more.value, FeedEach(decoder.carry, decoder.remaining, feeds[i + 1..]));
      body := body + more.value;
    }
    assert feeds[|feeds|..] == [];
    FeedStep(decoder.carry, decoder.remaining, []);
    OnwardsTwice(body, [], Outputs([], decoder.carry, decoder.remaining, false));
  }

  /** Until decoding stops, feeds decode to what all their bytes at once do. */
  lemma {:induction false} FeedsBeforeEnd(carry: seq<Byte>, remaining: nat, feeds: seq<seq<Byte>>)
    requires Run(carry + Concat(feeds), remaining).stop.Waiting? && IsStuck(carry, remaining)
    ensures var fed := Run(carry + Concat(feeds), remaining);
            FeedEach(carry, remaining, feeds) == Outputs(fed.out, fed.carry, fed.remaining, false)
    decreases |feeds|
  {
    hide Run, Onwards;
    FeedStep(carry, remaining, feeds);
    if feeds == [] {
      RunStep(carry, remaining);
      assert carry + [] == carry;
    } else {
      var fed := Run(carry + feeds[0], remaining);
      assert carry + Concat(feeds) == carry + feeds[0] + Concat(feeds[1..]);
      RunAppend(carry + feeds[0], Concat(feeds[1..]), remaining);
      FeedsBeforeEnd(fed.carry, fed.remaining, feeds[1..]);
      var left := Run(fed.carry + Concat(feeds[1..]), fed.remaining);
      OnwardsIs(fed.out, left);
      LaterParts(fed.out, |carry + feeds[0]| - |fed.carry|, left);
    }
  }

  lemma OnwardsIs(out: seq<Byte>, fed: Fed)
    ensures Onwards(out, Outputs(fed.out, fed.carry, fed.remaining, false)) == Outputs(out + fed.out, fed.carry, fed.remaining, false)
  {
  }

  /** What may follow the end of the last size line decodes to nothing, however it is fed. */
  lemma {:induction false} NothingAfterEnd(carry: seq<Byte>, feeds: seq<seq<Byte>>)
    requires IsSuffix(carry + Concat(feeds), CRLF)
    ensures FeedEach(carry, 0, feeds).out == [] && !FeedEach(carry, 0, feeds).crashed
    decreases |feeds|
  {
    hide Run, FeedEach, FindSubslice;
    FeedStep(carry, 0, feeds);
    if feeds != [] {
      var now := carry + feeds[0];
      var later := Concat(feeds[1..]);
      assert carry + Concat(feeds) == now + later;
      SuffixParts(now, later);
      if now == CRLF {
        assert later == [] && [] + later == [];
        LineBreakEnds();
        NothingAfterEnd([], feeds[1..]);
      } else {
        RunStep(now, 0);
        NoLineBreak(now);
        NothingAfterEnd(now, feeds[1..]);
      }
    }
  }

  lemma SuffixParts(now: seq<Byte>, later: seq<Byte>)
    requires IsSuffix(now + later, CRLF)
    ensures |now| + |later| <= 2 && (|now| == 2 ==> now == CRLF && later == [])
  {
  }

  lemma LineBreakEnds()
    ensures Run(CRLF, 0) == Fed([], [], 0, AtEnd(2))
  {
    hide SizeOf, Run;
    assert StandsAt(CRLF, CRLF, 0);
    assert CRLF[..0] == [];
    EmptyLine();
    RunStep(CRLF, 0);
  }

  lemma EmptyLine()
    ensures SizeOf([]) == 0
  {
    hide Lossy, Trim, ParseHex, SplitOnce;
    NoText();
    TrimPadded("", "");
    assert "" + "" == "";
    NoDigits();
    assert SplitOnce("", {';'}) == None;
  }

  lemma NoText()
    ensures Lossy([]) == ""
  {
  }

  lemma NoDigits()
    ensures ParseHex("") == None
  {
    hide HexValue;
  }

  lemma NoLineBreak(bytes: seq<Byte>)
    requires |bytes| <= 2 && bytes != CRLF
    ensures FindSubslice(bytes, CRLF).None?
  {
  }

  lemma {:induction false} EndClears(carry: seq<Byte>, remaining: nat)
    ensures Run(carry, remaining).stop.AtEnd? ==> Run(carry, remaining).carry == [] && Run(carry, remaining).remaining == 0
    decreases |carry|
  {
    hide SizeOf, FindSubslice, Run;
    RunStep(carry, remaining);
    if remaining == 0 {
      if FindSubslice(carry, CRLF).Some? {
        var pos := FindSubslice(carry, CRLF).value;
        FoundFits(carry, pos);
        EndClears(carry[pos + 2..], SizeOf(carry[..pos]));
      }
    } else if remaining <= MAX_SIZE && |carry| >= remaining + 2 {
      EndClears(carry[remaining + 2..], 0);
    }
  }

  lemma ConcatStep(carry: seq<Byte>, feeds: seq<seq<Byte>>, k: nat)
    requires k < |feeds|
    ensures carry + Concat(feeds[..k + 1]) == carry + feeds[0] + Concat(feeds[1..][..k])
    ensures carry + Concat(feeds[..0]) == carry
  {
    assert feeds[..k + 1][1..] == feeds[1..][..k];
  }

  /** Where the end falls in feed `k`, the outputs are those up to it, and then the later feeds decode from nothing. */
  lemma {:induction false} FeedsPastEnd(carry: seq<Byte>, remaining: nat, feeds: seq<seq<Byte>>, k: nat)
    requires k < |feeds|
    requires Run(carry + Concat(feeds[..k]), remaining).stop.Waiting?
    requires Run(carry + Concat(feeds[..k + 1]), remaining).stop.AtEnd?
    ensures FeedEach(carry, remaining, feeds)
            == Onwards(Run(carry + Concat(feeds[..k + 1]), remaining).out, FeedEach([], 0, feeds[k + 1..]))
    decreases k
  {
    hide Run, FeedEach, Onwards, Concat;
    FeedStep(carry, remaining, feeds);
    var now := carry + feeds[0];
    var fed := Run(now, remaining);
    ConcatStep(carry, feeds, k);
    if k == 0 {
      ConcatStep(now, feeds[1..] + [[]], 0);
      assert feeds[1..][..0] == (feeds[1..] + [[]])[..0];
      EndClears(now, remaining);
    } else {
      ConcatStep(carry, feeds, k - 1);
      RunAppend(now, Concat(feeds[1..][..k - 1]), remaining);
      RunAppend(now, Concat(feeds[1..][..k]), remaining);
      var left := Run(fed.carry + Concat(feeds[1..][..k]), fed.remaining);
      LaterParts(fed.out, |now| - |fed.carry|, left);
      LaterParts(fed.out, |now| - |fed.carry|, Run(fed.carry + Concat(feeds[1..][..k - 1]), fed.remaining));
      FeedsPastEnd(fed.carry, fed.remaining, feeds[1..], k - 1);
      assert feeds[1..][k..] == feeds[k + 1..];
      OnwardsTwice(fed.out, left.out, FeedEach([], 0, feeds[k + 1..]));
    }
  }

  // --- the overflow -----------------------------------------------------------------------------

  /** Chunk after chunk, a size line is reached that announces more than the decoder can count. */
  predicate IsOversized(bytes: seq<Byte>)
    decreases |bytes|
  {
    match FindSubslice(bytes, CRLF)
    case None => false
    case Some(pos) =>
      var size := SizeOf(bytes[..pos]);
      || size + 2 > 0xFFFF_FFFF_FFFF_FFFF
      || (0 < size && pos + 2 + size + 2 <= |bytes| && IsOversized(bytes[pos + 2 + size + 2..]))
  }

  /** Chunk after chunk, a size line is reached that announces the end. */
  predicate HasEnd(bytes: seq<Byte>)
    decreases |bytes|
  {
    match FindSubslice(bytes, CRLF)
    case None => false
    case Some(pos) =>
      var size := SizeOf(bytes[..pos]);
      size == 0 || (size <= MAX_SIZE && pos + 2 + size + 2 <= |bytes| && HasEnd(bytes[pos + 2 + size + 2..]))
  }

  /** Decoding overflows exactly when an oversized size line is reached, and ends exactly when the end is. */
  lemma {:induction false} StopsExactly(bytes: seq<Byte>)
    ensures Run(bytes, 0).stop.Overflow? <==> IsOversized(bytes)
    ensures Run(bytes, 0).stop.AtEnd? <==> HasEnd(bytes)
    decreases |bytes|
  {
    hide SizeOf, FindSubslice, Run, Later;
    RunStep(bytes, 0);
    if FindSubslice(bytes, CRLF).Some? {
      var pos := FindSubslice(bytes, CRLF).value;
      FoundFits(bytes, pos);
      var size := SizeOf(bytes[..pos]);
      var rest := bytes[pos + 2..];
      if size != 0 {
        RunStep(rest, size);
        LaterParts([], pos + 2, Run(rest, size));
        if size <= MAX_SIZE && |rest| >= size + 2 {
          assert rest[size + 2..] == bytes[pos + 2 + size + 2..];
          StopsExactly(rest[size + 2..]);
          LaterParts(rest[..size], size + 2, Run(rest[size + 2..], 0));
        }
      }
    }
  }

  /** Some feed, with what came since the last end, reaches an oversized size line. */
  predicate MeetsOversized(since: seq<Byte>, feeds: seq<seq<Byte>>)
    decreases |feeds|
  {
    if feeds == [] then false
    else
      var now := since + feeds[0];
      IsOversized(now) || MeetsOversized(if HasEnd(now) then [] else now, feeds[1..])
  }

  /** Feeding crashes exactly when a size line it reaches is oversized. */
  lemma {:induction false} CrashesExactly(since: seq<Byte>, feeds: seq<seq<Byte>>)
    requires Run(since, 0).stop.Waiting?
    ensures FeedEach(Run(since, 0).carry, Run(since, 0).remaining, feeds).crashed <==> MeetsOversized(since, feeds)
    decreases |feeds|
  {
    hide Run, FeedEach, Onwards, IsOversized, HasEnd, Later;
    var fed := Run(since, 0);
    FeedStep(fed.carry, fed.remaining, feeds);
    if feeds != [] {
      var now := since + feeds[0];
      RunAppend(since, feeds[0], 0);
      StopsExactly(now);
      var next := Run(fed.carry + feeds[0], fed.remaining);
      LaterParts(fed.out, |since| - |fed.carry|, next);
      OnwardsParts(next.out, FeedEach(next.carry, next.remaining, feeds[1..]));
      if next.stop.AtEnd? {
        EndClears(fed.carry + feeds[0], fed.remaining);
        NothingRun();
        CrashesExactly([], feeds[1..]);
      } else if next.stop.Waiting? {
        CrashesExactly(now, feeds[1..]);
      }
    }
  }

  lemma NothingRun()
    ensures Run([], 0) == Fed([], [], 0, Waiting)
  {
  }

  // --- what follows the end -----------------------------------------------------------------------

  /** The first feed by whose end at least `n` bytes have come. */
  function FeedReaching(feeds: seq<seq<Byte>>, n: nat): (k: nat)
    requires 0 < n <= |Concat(feeds)|
    ensures k < |feeds|
    decreases |feeds|
  {
    if n <= |feeds[0]| then 0 else 1 + FeedReaching(feeds[1..], n - |feeds[0]|)
  }

  lemma {:induction false} FeedReachingIs(feeds: seq<seq<Byte>>, n: nat)
    requires 0 < n <= |Concat(feeds)|
    ensures var k := FeedReaching(feeds, n);
            |Concat(feeds[..k])| < n <= |Concat(feeds[..k + 1])|
    decreases |feeds|
  {
    var k := FeedReaching(feeds, n);
    assert feeds[..k + 1][1..] == feeds[1..][..k];
    if n > |feeds[0]| {
      FeedReachingIs(feeds[1..], n - |feeds[0]|);
      assert feeds[..k][1..] == feeds[1..][..k - 1];
    }
  }

  lemma {:induction false} ConcatSplits(feeds: seq<seq<Byte>>, k: nat)
    requires k <= |feeds|
    ensures Concat(feeds) == Concat(feeds[..k]) + Concat(feeds[k..])
    decreases k
  {
    if k == 0 {
      assert feeds[0..] == feeds;
    } else {
      ConcatSplits(feeds[1..], k - 1);
      assert feeds[..k][1..] == feeds[1..][..k - 1];
      assert feeds[1..][k - 1..] == feeds[k..];
    }
  }

  /**
   No chunk completes among these feeds, from `carry` on: each size line announces an end,
   which drops the rest of its feed, or more than is still to come.
   */
  predicate IsSilent(carry: seq<Byte>, feeds: seq<seq<Byte>>)
    decreases |feeds|
  {
    if feeds == [] then true
    else
      var now := carry + feeds[0];
      match FindSubslice(now, CRLF)
      case None => IsSilent(now, feeds[1..])
      case Some(pos) =>
        var size := SizeOf(now[..pos]);
        if size == 0 then IsSilent([], feeds[1..])
        else |now[pos + 2..] + Concat(feeds[1..])| < size + 2
  }

  /** Feeds that do not crash decode to nothing exactly when they are silent. */
  lemma {:induction false} SilentExactly(carry: seq<Byte>, feeds: seq<seq<Byte>>)
    requires !FeedEach(carry, 0, feeds).crashed
    ensures FeedEach(carry, 0, feeds).out == [] <==> IsSilent(carry, feeds)
    decreases |feeds|
  {
    hide Run, FeedEach, FindSubslice, SizeOf, Onwards, Concat;
    FeedStep(carry, 0, feeds);
    if feeds != [] {
      var now := carry + feeds[0];
      var fed := Run(now, 0);
      OnwardsParts(fed.out, FeedEach(fed.carry, fed.remaining, feeds[1..]));
      RunStep(now, 0);
      match FindSubslice(now, CRLF)
      case None => SilentExactly(now, feeds[1..]);
      case Some(pos) =>
        FoundFits(now, pos);
        var size := SizeOf(now[..pos]);
        if size == 0 {
          SilentExactly([], feeds[1..]);
        } else {
          var rest := now[pos + 2..];
          LaterParts([], pos + 2, Run(rest, size));
          assert [] + Run(rest, size).out == Run(rest, size).out;
          FirstChunk(rest, size);
          if size <= MAX_SIZE && |rest| < size + 2 {
            WaitingExactly(rest, size, feeds[1..]);
          }
        }
    }
  }

  lemma FirstChunk(carry: seq<Byte>, size: nat)
    requires size > 0
    ensures size > MAX_SIZE ==> Run(carry, size).stop.Overflow?
    ensures size <= MAX_SIZE && |carry| < size + 2 ==> Run(carry, size) == Fed([], carry, size, Waiting)
    ensures size <= MAX_SIZE && |carry| >= size + 2 ==> Run(carry, size).out != []
  {
    hide Run;
    RunStep(carry, size);
    if size <= MAX_SIZE && |carry| >= size + 2 {
      LaterParts(carry[..size], size + 2, Run(carry[size + 2..], 0));
    }
  }

  /** A chunk under way is given out exactly when all of it comes. */
  lemma {:induction false} WaitingExactly(carry: seq<Byte>, size: nat, feeds: seq<seq<Byte>>)
    requires 0 < size <= MAX_SIZE && |carry| < size + 2 && !FeedEach(carry, size, feeds).crashed
    ensures FeedEach(carry, size, feeds).out == [] <==> |carry + Concat(feeds)| < size + 2
    decreases |feeds|
  {
    hide Run, FeedEach, Onwards;
    FeedStep(carry, size, feeds);
    if feeds != [] {
      var now := carry + feeds[0];
      var fed := Run(now, size);
      OnwardsParts(fed.out, FeedEach(fed.carry, fed.remaining, feeds[1..]));
      FirstChunk(now, size);
      assert carry + Concat(feeds) == now + Concat(feeds[1..]);
      if |now| < size + 2 {
        WaitingExactly(now, size, feeds[1..]);
      }
    }
  }

  lemma EndedIsSome(chunks: seq<Chunk>, last: SizeLine)
    requires forall c :: c in chunks ==> IsChunk(c)
    requires IsSizeLine(last, 0)
    ensures |Ended(chunks, last)| > 0
  {
    hide IsChunk, IsSizeLine, BodyBytes, LineBytes;
  }

  lemma Begun(prefix: seq<Byte>, bytes: seq<Byte>)
    requires prefix <= bytes
    ensures bytes == prefix + bytes[|prefix|..]
  {
  }

  /**
   A body followed by any bytes, in any feeds: the payload, and then whatever the feeds
   after the one with the body's end decode to from nothing. Feeding crashes exactly when
   these reach an oversized size line; otherwise the output stays the payload exactly when
   no chunk completes among them.
   */
  lemma EndKeptExactly(chunks: seq<Chunk>, last: SizeLine, feeds: seq<seq<Byte>>)
    requires forall c :: c in chunks ==> IsChunk(c)
    requires IsSizeLine(last, 0)
    requires Ended(chunks, last) <= Concat(feeds)
    ensures |Ended(chunks, last)| > 0
    ensures var later := feeds[FeedReaching(feeds, |Ended(chunks, last)|) + 1..];
            var r := FeedEach([], 0, feeds);
            && r == Onwards(Payload(chunks), FeedEach([], 0, later))
            && (r.crashed <==> MeetsOversized([], later))
            && (!r.crashed ==> (r.out == Payload(chunks) <==> IsSilent([], later)))
  {
    hide Run, FeedEach, IsSizeLine, Payload, IsChunk, IsSilent, MeetsOversized, Ended, Concat, FeedReaching, Onwards;
    var body := Ended(chunks, last);
    EndedIsSome(chunks, last);
    var k := FeedReaching(feeds, |body|);
    FeedReachingIs(feeds, |body|);
    var (before, upTo) := (Concat(feeds[..k]), Concat(feeds[..k + 1]));
    var all := Concat(feeds);
    ConcatSplits(feeds, k);
    ConcatSplits(feeds, k + 1);
    Begun(body, all);
    Begun(body, upTo);
    WholeBody(chunks, last, all[|body|..]);
    WholeBody(chunks, last, upTo[|body|..]);
    RunAppend(before, Concat(feeds[k..]), 0);
    assert [] + before == before && [] + upTo == upTo;
    FeedsPastEnd([], 0, feeds, k);
    var rest := FeedEach([], 0, feeds[k + 1..]);
    OnwardsParts(Payload(chunks), rest);
    NothingRun();
    CrashesExactly([], feeds[k + 1..]);
    if !rest.crashed {
      SilentExactly([], feeds[k + 1..]);
    }
  }

  /** The whole decoder on a whole body, fed in any pieces. */
  lemma BodyInAnyFeeds(chunks: seq<Chunk>, last: SizeLine, feeds: seq<seq<Byte>>)
    requires forall c :: c in chunks ==> IsChunk(c)
    requires IsSizeLine(last, 0)
    requires Concat(feeds) == Encoded(chunks, last)
    ensures FeedEach([], 0, feeds).out == Payload(chunks) && !FeedEach([], 0, feeds).crashed
  {
    hide Run, FeedEach, BodyBytes, Payload, IsChunk, LineBytes, IsSizeLine, IsSilent, MeetsOversized, Concat;
    var body := Ended(chunks, last);
    assert Concat(feeds) == body + CRLF;
    EndKeptExactly(chunks, last, feeds);
    var k := FeedReaching(feeds, |body|);
    FeedReachingIs(feeds, |body|);
    ConcatSplits(feeds, k + 1);
    var later := Concat(feeds[k + 1..]);
    assert later == (body + CRLF)[|Concat(feeds[..k + 1])|..];
    assert [] + later == later && IsSuffix(later, CRLF);
    NothingAfterEnd([], feeds[k + 1..]);
    assert Payload(chunks) + [] == Payload(chunks);
  }

  /** Bytes that begin a next chunk, or the last one's size line, and do not complete it. */
  ghost predicate Begins(part: seq<Byte>) {
    || (exists c: Chunk :: IsChunk(c) && part < ChunkBytes(c))
    || (exists l: SizeLine :: IsSizeLine(l, 0) && part < LineBytes(l, 0) + CRLF)
  }

  /** At every moment before the end, the output so far is exactly the complete chunks, and the decoder holds only bytes of the next. */
  lemma OutputSoFar(chunks: seq<Chunk>, part: seq<Byte>, feeds: seq<seq<Byte>>)
    requires (forall c :: c in chunks ==> IsChunk(c)) && Begins(part)
    requires Concat(feeds) == BodyBytes(chunks) + part
    ensures var r := FeedEach([], 0, feeds);
            !r.crashed && r.out == Payload(chunks) && IsStuck(r.carry, r.remaining) && IsSuffix(r.carry, part)
  {
    hide Run, FeedEach, BodyBytes, Payload, IsChunk, ChunkBytes, LineBytes, IsSizeLine, IsStuck, FindSubslice;
    if c: Chunk :| IsChunk(c) && part < ChunkBytes(c) {
      PartialBody(chunks, c, part);
    } else {
      var l: SizeLine :| IsSizeLine(l, 0) && part < LineBytes(l, 0) + CRLF;
      PartialEnd(chunks, l, part);
    }
    assert [] + Concat(feeds) == Concat(feeds);
    NothingStuck();
    FeedsBeforeEnd([], 0, feeds);
  }

  lemma PartialEnd(chunks: seq<Chunk>, last: SizeLine, part: seq<Byte>)
    requires (forall c :: c in chunks ==> IsChunk(c)) && IsSizeLine(last, 0)
    requires part < LineBytes(last, 0) + CRLF
    ensures Waits(Run(BodyBytes(chunks) + part, 0), Payload(chunks), part)
  {
    hide Run, BodyBytes, Payload, IsChunk, LineBytes, FindSubslice, IsSizeLine;
    ManyChunks(chunks, part);
    PartialLine(last, 0, part);
    RunStep(part, 0);
    LaterParts(Payload(chunks), |BodyBytes(chunks)|, Run(part, 0));
  }

  /** The case that fails: a second body in the same feed counts for nothing, and in the next feed it is decoded. */
  lemma EndIsForgotten(chunks: seq<Chunk>, last: SizeLine, more: seq<Chunk>, lastMore: SizeLine)
    requires forall c :: c in chunks || c in more ==> IsChunk(c)
    requires IsSizeLine(last, 0) && IsSizeLine(lastMore, 0)
    ensures FeedEach([], 0, [Encoded(chunks, last) + Encoded(more, lastMore)]).out == Payload(chunks)
    ensures FeedEach([], 0, [Encoded(chunks, last), Encoded(more, lastMore)]).out == Payload(chunks) + Payload(more)
  {
    hide Run, FeedEach, IsSizeLine, Payload, IsChunk, BodyBytes, LineBytes, IsSilent, MeetsOversized;
    var (a, b) := (Encoded(chunks, last), Encoded(more, lastMore));
    var body := Ended(chunks, last);
    assert a == body + CRLF;
    assert Concat([a + b]) == a + b == body + (CRLF + b);
    EndKeptExactly(chunks, last, [a + b]);
    NoFeeds();
    assert Payload(chunks) + [] == Payload(chunks);
    assert [a, b][1..] == [b] && Concat([a, b]) == a + Concat([b]) && Concat([b]) == b;
    assert Concat([a, b]) == body + (CRLF + b);
    EndKeptExactly(chunks, last, [a, b]);
    BodyInAnyFeeds(more, lastMore, [b]);
  }

  lemma NoFeeds()
    ensures FeedEach([], 0, []).out == []
  {
  }
}
