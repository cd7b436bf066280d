/** The incremental UTF-8 decoder under both event streams. */
module Utf8 {
  import opened Wrappers

  type Byte = b: int | 0 <= b < 256

  const REPLACEMENT: char := '\U{FFFD}'

  /** How a byte sequence begins: a character, an invalid sequence, or the start of one. */
  datatype Front = Character(length: nat, c: char) | Invalid(length: nat) | Incomplete

  predicate IsContinuation(b: Byte) {
    0x80 <= b < 0xC0
  }

  /** The bytes that may follow the first of a longer sequence. */
  predicate IsSecond(first: Byte, second: Byte) {
    if first == 0xE0 then 0xA0 <= second < 0xC0
    else if first == 0xED then 0x80 <= second < 0xA0
    else if first == 0xF0 then 0x90 <= second < 0xC0
    else if first == 0xF4 then 0x80 <= second < 0x90
    else IsContinuation(second)
  }

  /** The length of the sequence a byte starts, zero if none starts with it. */
  function Width(first: Byte): nat {
    if first < 0x80 then 1
    else if 0xC2 <= first < 0xE0 then 2
    else if 0xE0 <= first < 0xF0 then 3
    else if 0xF0 <= first < 0xF5 then 4
    else 0
  }

  /** A byte's value above `base`. */
  function Above(b: Byte, base: int): int {
    b - base
  }

  /** What `std::str::from_utf8` finds at the front of `bytes`. */
  function FrontOf(bytes: seq<Byte>): (f: Front)
    requires bytes != []
    ensures !f.Incomplete? ==> 0 < f.length <= |bytes|
  {
    var first := bytes[0];
    var width := Width(first);
    if width == 0 then Invalid(1)
    else if width == 1 then Character(1, first as char)
    else if |bytes| < 2 then Incomplete
    else if !IsSecond(first, bytes[1]) then Invalid(1)
    else if width == 2 then Character(2, (Above(first, 0xC0) * 0x40 + Above(bytes[1], 0x80)) as char)
    else if |bytes| < 3 then Incomplete
    else if !IsContinuation(bytes[2]) then Invalid(2)
    else if width == 3 then
      Character(3, (Above(first, 0xE0) * 0x1000 + Above(bytes[1], 0x80) * 0x40 + Above(bytes[2], 0x80)) as char)
    else if |bytes| < 4 then Incomplete
    else if !IsContinuation(bytes[3]) then Invalid(3)
    else
      Character(4, (Above(first, 0xF0) * 0x40000 + Above(bytes[1], 0x80) * 0x1000
                    + Above(bytes[2], 0x80) * 0x40 + Above(bytes[3], 0x80)) as char)
  }

  /** All the text that can be decoded, and the incomplete sequence left over. */
  datatype Decoded = Decoded(text: string, rest: seq<Byte>)

  function After(text: string, d: Decoded): Decoded {
    Decoded(text + d.text, d.rest)
  }

  function Decode(bytes: seq<Byte>): Decoded
    decreases |bytes|
  {
    if bytes == [] then Decoded("", [])
    else
      match FrontOf(bytes)
      case Incomplete => Decoded("", bytes)
      case Character(n, c) => After([c], Decode(bytes[n..]))
      case Invalid(n) => After([REPLACEMENT], Decode(bytes[n..]))
  }

  /** How many leading bytes are valid, and the text they spell. */
  function ValidPrefix(bytes: seq<Byte>): (r: (nat, string))
    ensures r.0 <= |bytes|
    decreases |bytes|
  {
    if bytes == [] || !FrontOf(bytes).Character? then (0, "")
    else
      var Character(n, c) := FrontOf(bytes);
      var (m, text) := ValidPrefix(bytes[n..]);
      (n + m, [c] + text)
  }

  lemma AfterAfter(a: string, b: string, d: Decoded)
    ensures After(a, After(b, d)) == After(a + b, d)
    ensures After("", d) == d
  {
    assert a + (b + d.text) == a + b + d.text;
    assert "" + d.text == d.text;
  }

  lemma {:induction false} ValidPrefixDecodes(bytes: seq<Byte>)
    ensures var (n, text) := ValidPrefix(bytes);
            && Decode(bytes) == After(text, Decode(bytes[n..]))
            && (n < |bytes| ==> !FrontOf(bytes[n..]).Character?)
    decreases |bytes|
  {
    hide FrontOf, After;
    var (n, text) := ValidPrefix(bytes);
    if bytes == [] || !FrontOf(bytes).Character? {
      AfterAfter("", "", Decode(bytes));
      assert bytes[0..] == bytes;
    } else {
      var Character(m, c) := FrontOf(bytes);
      ValidPrefixDecodes(bytes[m..]);
      var (k, more) := ValidPrefix(bytes[m..]);
      assert bytes[m..][k..] == bytes[n..];
      AfterAfter([c], more, Decode(bytes[n..]));
    }
  }

  /** What is decided about the front of a sequence stays so when more arrives. */
  lemma FrontIsStable(a: seq<Byte>, b: seq<Byte>)
    requires a != [] && !FrontOf(a).Incomplete?
    ensures FrontOf(a + b) == FrontOf(a)
  {
  }

  /** Decoding does not depend on where the bytes are cut. */
  lemma {:induction false} DecodeAppend(a: seq<Byte>, b: seq<Byte>)
    ensures Decode(a + b) == After(Decode(a).text, Decode(Decode(a).rest + b))
    decreases |a|
  {
    hide FrontOf, After;
    if a == [] {
      assert a + b == b;
      AfterAfter("", "", Decode(b));
    } else if FrontOf(a).Incomplete? {
      AfterAfter("", "", Decode(a + b));
    } else {
      var n := FrontOf(a).length;
      var c := if FrontOf(a).Character? then FrontOf(a).c else REPLACEMENT;
      FrontIsStable(a, b);
      FrontFits(a);
      DecodeAppend(a[n..], b);
      assert (a + b)[n..] == a[n..] + b;
      var rest := Decode(a[n..]);
      AfterParts([c], rest);
      AfterAfter([c], rest.text, Decode(rest.rest + b));
    }
  }

  lemma FrontFits(bytes: seq<Byte>)
    requires bytes != [] && !FrontOf(bytes).Incomplete?
    ensures 0 < FrontOf(bytes).length <= |bytes|
  {
  }

  lemma AfterParts(text: string, d: Decoded)
    ensures After(text, d) == Decoded(text + d.text, d.rest)
  {
  }

  lemma {:induction false} DecodeRest(bytes: seq<Byte>)
    ensures Decode(Decode(bytes).rest).text == ""
    decreases |bytes|
  {
    if bytes != [] && !FrontOf(bytes).Incomplete? {
      DecodeRest(bytes[FrontOf(bytes).length..]);
    }
  }

  class Utf8StreamDecoder {
    var pending: seq<Byte>

    constructor ()
      ensures pending == []
    {
      pending := [];
    }

    method Push(bytes: seq<Byte>) returns (out: string)
      modifies this
      ensures Decoded(out, pending) == Decode(old(pending) + bytes)
    {
      hide FrontOf, After, ValidPrefix, Decode;
      pending := pending + bytes;
      ghost var all := pending;
      out := "";
      AfterAfter("", "", Decode(all));
      while true
        invariant Decode(all) == After(out, Decode(pending))
        decreases |pending|
      {
        var (valid, text) := ValidPrefix(pending);
        ValidPrefixDecodes(pending);
        AfterAfter(out, text, Decode(pending[valid..]));
        out := out + text;
        if valid == |pending| {
          DecodeEnds(out, pending[valid..]);
          pending := [];
          break;
        }
        DecodeEnds(out, pending[valid..]);
        match FrontOf(pending[valid..])
        case Invalid(n) =>
          assert pending[valid..][n..] == pending[valid + n..];
          AfterAfter(out, [REPLACEMENT], Decode(pending[valid + n..]));
          out := out + [REPLACEMENT];
          pending := pending[valid + n..];
        case Incomplete =>
          pending := pending[valid..];
          break;
      }
    }
  }

  lemma DecodeEnds(out: string, bytes: seq<Byte>)
    ensures bytes == [] ==> After(out, Decode(bytes)) == Decoded(out, [])
    ensures bytes != [] && FrontOf(bytes).Incomplete? ==> After(out, Decode(bytes)) == Decoded(out, bytes)
    ensures bytes != [] && FrontOf(bytes).Invalid? ==> Decode(bytes) == After([REPLACEMENT], Decode(bytes[FrontOf(bytes).length..]))
  {
    assert out + "" == out;
  }

  // --- the text a peer encodes is the text decoded -----------------------------------

  /** The six low bits of a number, as a continuation byte. */
  function Continuation(n: nat): Byte {
    0x80 + n % 0x40
  }

  /** The UTF-8 bytes of a character. */
  function EncodeChar(c: char): seq<Byte> {
    var n := c as int;
    if n < 0x80 then [n]
    else if n < 0x800 then [0xC0 + n / 0x40, Continuation(n)]
    else if n < 0x10000 then [0xE0 + n / 0x40 / 0x40, Continuation(n / 0x40), Continuation(n)]
    else [0xF0 + n / 0x40 / 0x40 / 0x40, Continuation(n / 0x40 / 0x40), Continuation(n / 0x40), Continuation(n)]
  }

  function Encode(text: string): seq<Byte> {
    if text == "" then [] else EncodeChar(text[0]) + Encode(text[1..])
  }

  lemma FrontOfEncoded(c: char, rest: seq<Byte>)
    ensures FrontOf(EncodeChar(c) + rest) == Character(|EncodeChar(c)|, c)
  {
    hide FrontOf;
    var n := c as int;
    if n < 0x80 {
      ShortFront(c, rest);
    } else if n < 0x800 {
      TwoByteFront(c, n / 0x40, n % 0x40, rest);
    } else if n < 0x10000 {
      ThreeByteFront(c, n / 0x40 / 0x40, n / 0x40 % 0x40, n % 0x40, rest);
    } else {
      FourByteFront(c, n / 0x40 / 0x40 / 0x40, n / 0x40 / 0x40 % 0x40, n / 0x40 % 0x40, n % 0x40, rest);
    }
  }

  lemma ShortFront(c: char, rest: seq<Byte>)
    requires c as int < 0x80
    ensures FrontOf([c as int] + rest) == Character(1, c)
  {
  }

  lemma TwoByteFront(c: char, a: nat, b: nat, rest: seq<Byte>)
    requires c as int == a * 0x40 + b && b < 0x40 && 2 <= a < 0x20
    ensures FrontOf([0xC0 + a, 0x80 + b] + rest) == Character(2, c)
  {
  }

  lemma ThreeByteFront(c: char, a: nat, b: nat, d: nat, rest: seq<Byte>)
    requires c as int == a * 0x1000 + b * 0x40 + d && b < 0x40 && d < 0x40 && a < 0x10 && 0x800 <= c as int
    ensures FrontOf([0xE0 + a, 0x80 + b, 0x80 + d] + rest) == Character(3, c)
  {
  }

  lemma FourByteFront(c: char, a: nat, b: nat, d: nat, e: nat, rest: seq<Byte>)
    requires c as int == a * 0x40000 + b * 0x1000 + d * 0x40 + e && b < 0x40 && d < 0x40 && e < 0x40 && a < 5
    requires 0x10000 <= c as int
    ensures FrontOf([0xF0 + a, 0x80 + b, 0x80 + d, 0x80 + e] + rest) == Character(4, c)
  {
  }

  lemma {:induction false} EncodedDecodes(text: string)
    ensures Decode(Encode(text)) == Decoded(text, [])
    decreases |text|
  {
    hide FrontOf, EncodeChar;
    if text != "" {
      var later := Encode(text[1..]);
      FrontOfEncoded(text[0], later);
      FrontFits(EncodeChar(text[0]) + later);
      EncodedDecodes(text[1..]);
      assert (EncodeChar(text[0]) + later)[|EncodeChar(text[0])|..] == later;
      assert [text[0]] + text[1..] == text;
    }
  }

  // --- what any bytes decode to ------------------------------------------------------

  /** Some character's bytes begin with `p`. */
  ghost predicate Begins(p: seq<Byte>) {
    exists c :: p <= EncodeChar(c)
  }

  ghost predicate HoldsCharacter(bytes: seq<Byte>) {
    exists c :: EncodeChar(c) <= bytes
  }

  lemma CharacterIsEncoded(bytes: seq<Byte>)
    requires bytes != [] && FrontOf(bytes).Character?
    ensures EncodeChar(FrontOf(bytes).c) == bytes[..FrontOf(bytes).length]
  {
    match FrontOf(bytes).length
    case 2 => TwoBytes(bytes[0], bytes[1]);
    case 3 => ThreeBytes(bytes[0], bytes[1], bytes[2]);
    case 4 => FourBytes(bytes[0], bytes[1], bytes[2], bytes[3]);
    case _ =>
  }

  lemma TwoBytes(a: Byte, b: Byte)
    requires Width(a) == 2 && IsSecond(a, b)
    ensures EncodeChar((Above(a, 0xC0) * 0x40 + Above(b, 0x80)) as char) == [a, b]
  {
    Low(Above(a, 0xC0), Above(b, 0x80));
  }

  lemma ThreeBytes(a: Byte, b: Byte, d: Byte)
    requires Width(a) == 3 && IsSecond(a, b) && IsContinuation(d)
    ensures EncodeChar((Above(a, 0xE0) * 0x1000 + Above(b, 0x80) * 0x40 + Above(d, 0x80)) as char) == [a, b, d]
  {
    Low(Above(a, 0xE0) * 0x40 + Above(b, 0x80), Above(d, 0x80));
    Low(Above(a, 0xE0), Above(b, 0x80));
  }

  lemma FourBytes(a: Byte, b: Byte, d: Byte, e: Byte)
    requires Width(a) == 4 && IsSecond(a, b) && IsContinuation(d) && IsContinuation(e)
    ensures EncodeChar((Above(a, 0xF0) * 0x40000 + Above(b, 0x80) * 0x1000 + Above(d, 0x80) * 0x40 + Above(e, 0x80)) as char)
            == [a, b, d, e]
  {
    Low(Above(a, 0xF0) * 0x1000 + Above(b, 0x80) * 0x40 + Above(d, 0x80), Above(e, 0x80));
    Low(Above(a, 0xF0) * 0x40 + Above(b, 0x80), Above(d, 0x80));
    Low(Above(a, 0xF0), Above(b, 0x80));
  }

  lemma Low(high: nat, low: nat)
    requires low < 0x40
    ensures (high * 0x40 + low) / 0x40 == high && (high * 0x40 + low) % 0x40 == low
  {
  }

  /** A continuation that completes what `bytes` begin. */
  function Completion(bytes: seq<Byte>): seq<Byte>
    requires bytes != []
  {
    var second := if bytes[0] == 0xE0 then 0xA0 else if bytes[0] == 0xF0 then 0x90 else 0x80;
    var width := Width(bytes[0]);
    if |bytes| == 1 then
      if width == 2 then [second] else if width == 3 then [second, 0x80] else [second, 0x80, 0x80]
    else if |bytes| == 2 && width == 4 then [0x80, 0x80]
    else [0x80]
  }

  lemma IncompleteBegins(bytes: seq<Byte>)
    requires bytes != [] && FrontOf(bytes).Incomplete?
    ensures Begins(bytes)
  {
    var whole := bytes + Completion(bytes);
    assert FrontOf(whole).Character? && FrontOf(whole).length == |whole|;
    CharacterIsEncoded(whole);
    assert whole[..|whole|] == whole;
    assert bytes <= EncodeChar(FrontOf(whole).c);
  }

  lemma PartIsNotInvalid(p: seq<Byte>)
    requires p != [] && Begins(p)
    ensures !FrontOf(p).Invalid?
  {
    hide EncodeChar;
    var c :| p <= EncodeChar(c);
    var whole := EncodeChar(c);
    FrontOfEncoded(c, []);
    assert whole + [] == whole;
    assert p == whole[..|p|];
  }

  lemma InvalidStays(bytes: seq<Byte>, m: nat)
    requires bytes != [] && FrontOf(bytes).Invalid? && FrontOf(bytes).length < m <= |bytes|
    ensures FrontOf(bytes[..m]).Invalid?
  {
  }

  lemma InvalidBegins(bytes: seq<Byte>)
    requires bytes != [] && FrontOf(bytes).Invalid? && FrontOf(bytes).length > 1
    ensures Begins(bytes[..FrontOf(bytes).length])
  {
    IncompleteBegins(bytes[..FrontOf(bytes).length]);
  }

  lemma NoCharacter(bytes: seq<Byte>)
    requires bytes != []
    ensures HoldsCharacter(bytes) ==> FrontOf(bytes).Character?
  {
    hide EncodeChar, FrontOf;
    if c :| EncodeChar(c) <= bytes {
      var rest := bytes[|EncodeChar(c)|..];
      FrontOfEncoded(c, rest);
      assert bytes == EncodeChar(c) + rest;
    }
  }

  /** How many bytes one replacement character stands for: the longest beginning of a character, or one byte. */
  ghost predicate IsReplaced(bytes: seq<Byte>, n: nat) {
    && 0 < n <= |bytes| && (n == 1 || Begins(bytes[..n]))
    && forall m :: n < m <= |bytes| ==> !Begins(bytes[..m])
  }

  /**
   Any bytes decode character by character; where none stands, the longest beginning of one
   is replaced, unless that is all there is and waits for more.
   */
  lemma DecodeExactly(bytes: seq<Byte>)
    requires bytes != []
    ensures forall c :: EncodeChar(c) <= bytes ==>
              var later := Decode(bytes[|EncodeChar(c)|..]);
              Decode(bytes) == Decoded([c] + later.text, later.rest)
    ensures !HoldsCharacter(bytes) && Begins(bytes) ==> Decode(bytes) == Decoded("", bytes)
    ensures !HoldsCharacter(bytes) && !Begins(bytes) ==>
              exists n: nat :: IsReplaced(bytes, n)
                && Decode(bytes) == Decoded("\U{FFFD}" + Decode(bytes[n..]).text, Decode(bytes[n..]).rest)
  {
    hide EncodeChar, FrontOf, Begins, HoldsCharacter;
    forall c | EncodeChar(c) <= bytes
      ensures FrontOf(bytes) == Character(|EncodeChar(c)|, c)
    {
      FrontOfEncoded(c, bytes[|EncodeChar(c)|..]);
      assert bytes == EncodeChar(c) + bytes[|EncodeChar(c)|..];
    }
    match FrontOf(bytes)
    case Character(n, c) =>
      CharacterIsEncoded(bytes);
      CharacterHeld(bytes, c);
    case Incomplete =>
      NoCharacter(bytes);
      IncompleteBegins(bytes);
    case Invalid(n) =>
      NoCharacter(bytes);
      InvalidReplaced(bytes);
      if Begins(bytes) {
        PartIsNotInvalid(bytes);
      }
  }

  lemma CharacterHeld(bytes: seq<Byte>, c: char)
    requires EncodeChar(c) <= bytes
    ensures HoldsCharacter(bytes)
  {
  }

  lemma InvalidReplaced(bytes: seq<Byte>)
    requires bytes != [] && FrontOf(bytes).Invalid?
    ensures IsReplaced(bytes, FrontOf(bytes).length)
  {
    hide EncodeChar, FrontOf, Begins;
    var n := FrontOf(bytes).length;
    if n > 1 {
      InvalidBegins(bytes);
    }
    forall m | n < m <= |bytes|
      ensures !Begins(bytes[..m])
    {
      InvalidStays(bytes, m);
      if Begins(bytes[..m]) {
        PartIsNotInvalid(bytes[..m]);
      }
    }
  }

  // --- bytes as a connection delivers them ------------------------------------------

  /** One poll of the connection: some bytes, or the error that breaks it. */
  datatype Chunk = Bytes(bytes: seq<Byte>) | Broken(error: string)

  /** The bytes received before the connection ends or breaks. */
  function Received(chunks: seq<Chunk>): seq<Byte> {
    if chunks == [] || chunks[0].Broken? then [] else chunks[0].bytes + Received(chunks[1..])
  }

  /** The error the connection breaks with, if it does. */
  function BreakError(chunks: seq<Chunk>): Option<string> {
    if chunks == [] then None
    else if chunks[0].Broken? then Some(chunks[0].error)
    else BreakError(chunks[1..])
  }
}
