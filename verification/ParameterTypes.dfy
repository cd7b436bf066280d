/**
 A parameter's type brought to one token list from either of its spellings: the C#
 source text or the CLR signature.
 */
module ParameterTypes {
  import opened Text

  /** Stands first in the tokens of a by-reference parameter. */
  const BY_REF := "&"

  // --- the normaliser ---------------------------------------------------------

  predicate IsNameStart(c: char) {
    IsAlphanumeric(c) || c == '_'
  }

  predicate IsNameChar(c: char) {
    IsNameStart(c) || c == '.' || c == '+' || c == '`'
  }

  predicate IsPlaceholderChar(c: char) {
    c == '!' || IsDigit(c)
  }

  /** What the CLR calls a C# keyword type; other names are their own. */
  function ClrAlias(name: string): string {
    if name == "string" then "String"
    else if name == "bool" then "Boolean"
    else if name == "int" then "Int32"
    else if name == "long" then "Int64"
    else if name == "short" then "Int16"
    else if name == "byte" then "Byte"
    else if name == "sbyte" then "SByte"
    else if name == "uint" then "UInt32"
    else if name == "ulong" then "UInt64"
    else if name == "ushort" then "UInt16"
    else if name == "float" then "Single"
    else if name == "double" then "Double"
    else if name == "decimal" then "Decimal"
    else if name == "char" then "Char"
    else if name == "object" then "Object"
    else if name == "void" then "Void"
    else if name == "nint" then "IntPtr"
    else if name == "nuint" then "UIntPtr"
    else name
  }

  predicate PassesByReference(word: string) {
    word in ["ref", "out", "in"]
  }

  predicate IsDroppedModifier(word: string) {
    word in ["this", "params", "scoped", "readonly"]
  }

  /** Whether the leading modifiers pass by reference, and the text after them. */
  function StripModifiers(text: string): (bool, string)
    decreases |text|
  {
    match SplitOnce(text, WHITESPACE)
    case None => (false, text)
    case Some((word, tail)) =>
      if PassesByReference(word) then (true, StripModifiers(TrimStart(tail)).1)
      else if IsDroppedModifier(word) then StripModifiers(TrimStart(tail))
      else (false, text)
  }

  function NameLength(s: string): (n: nat)
    ensures n <= |s|
    ensures forall k :: 0 <= k < n ==> IsNameChar(s[k])
    ensures n < |s| ==> !IsNameChar(s[n])
  {
    if s == [] || !IsNameChar(s[0]) then 0 else 1 + NameLength(s[1..])
  }

  function PlaceholderLength(s: string): (n: nat)
    ensures n <= |s|
    ensures forall k :: 0 <= k < n ==> IsPlaceholderChar(s[k])
    ensures n < |s| ==> !IsPlaceholderChar(s[n])
  {
    if s == [] || !IsPlaceholderChar(s[0]) then 0 else 1 + PlaceholderLength(s[1..])
  }

  /** What follows the last `.` or `+`. */
  function LastSegment(word: string): string {
    var i := IndexOf(word, {'.', '+'});
    if i < |word| then LastSegment(word[i + 1..]) else word
  }

  /** A qualified name without its namespace, enclosing types and generic arity. */
  function NameToken(word: string): string {
    var name := LastSegment(word);
    ClrAlias(name[..IndexOf(name, {'`'})])
  }

  /** What the scanner emits at the front of `s`, and how much it consumes. */
  function NextToken(s: string): (r: (seq<string>, nat))
    requires s != []
    ensures 0 < r.1 <= |s|
  {
    if IsNameStart(s[0]) then
      var n := NameLength(s);
      ([NameToken(s[..n])], n)
    else if s[0] == '!' then
      var n := PlaceholderLength(s);
      ([s[..n]], n)
    else if s[0] in WHITESPACE || s[0] == '?' || s[0] == '&' then ([], 1)
    else ([[s[0]]], 1)
  }

  function Tokenize(s: string): seq<string>
    decreases |s|
  {
    if s == [] then []
    else
      var (emitted, n) := NextToken(s);
      emitted + Tokenize(s[n..])
  }

  /**
   Drops each `Nullable <` and the `>` that closes it. `open` holds one flag for each
   bracket still open, innermost last: whether that bracket is kept.
   */
  function EraseNullable(tokens: seq<string>, open: seq<bool>): seq<string> {
    if tokens == [] then []
    else if tokens[0] == "Nullable" && |tokens| > 1 && tokens[1] == "<" then
      EraseNullable(tokens[2..], open + [false])
    else if tokens[0] == "<" then
      [tokens[0]] + EraseNullable(tokens[1..], open + [true])
    else if tokens[0] == ">" && open != [] then
      (if open[|open| - 1] then [tokens[0]] else [])
      + EraseNullable(tokens[1..], open[..|open| - 1])
    else [tokens[0]] + EraseNullable(tokens[1..], open)
  }

  function ByRefMark(byRef: bool): seq<string> {
    if byRef then [BY_REF] else []
  }

  /** The normal form of a spelling; `ParameterType` computes it with loops. */
  function ParameterTokens(spelling: string): seq<string> {
    var (byRef, rest) := StripModifiers(Trim(spelling));
    EraseNullable(ByRefMark(byRef || '&' in rest) + Tokenize(rest), [])
  }

  method ParameterType(spelling: string) returns (out: seq<string>)
    ensures out == ParameterTokens(spelling)
  {
    var rest := Trim(spelling);
    var byRef := false;
    ghost var stripped := StripModifiers(rest);
    while true
      invariant stripped.0 == (byRef || StripModifiers(rest).0)
      invariant stripped.1 == StripModifiers(rest).1
      decreases |rest|
    {
      var split := SplitOnce(rest, WHITESPACE);
      if split.None? {
        break;
      }
      var (word, tail) := split.value;
      if PassesByReference(word) {
        byRef := true;
      } else if !IsDroppedModifier(word) {
        break;
      }
      rest := TrimStart(tail);
    }
    assert (byRef, rest) == stripped;
    var tokens := ScanTokens(byRef || '&' in rest, rest);
    out := DropNullable(tokens);
  }

  /** The scanning loop of `ParameterType`. */
  method ScanTokens(byRef: bool, rest: string) returns (tokens: seq<string>)
    ensures tokens == ByRefMark(byRef) + Tokenize(rest)
  {
    hide Tokenize, NextToken;
    tokens := [];
    if byRef {
      tokens := tokens + [BY_REF];
    }
    var i := 0;
    TokenizeEnds(rest);
    while i < |rest|
      invariant i <= |rest|
      invariant tokens + Tokenize(rest[i..]) == ByRefMark(byRef) + Tokenize(rest)
    {
      var emitted, next := ScanToken(rest, i);
      TokenizeStep(rest, i, next);
      assert tokens + emitted + Tokenize(rest[next..]) == tokens + (emitted + Tokenize(rest[next..]));
      tokens := tokens + emitted;
      i := next;
    }
  }

  lemma TokenizeEnds(rest: string)
    ensures rest[0..] == rest && Tokenize(rest[|rest|..]) == []
  {
  }

  lemma TokenizeStep(rest: string, i: nat, next: nat)
    requires i < |rest| && next == i + NextToken(rest[i..]).1
    ensures next <= |rest|
    ensures Tokenize(rest[i..]) == NextToken(rest[i..]).0 + Tokenize(rest[next..])
  {
    assert rest[i..][next - i..] == rest[next..];
  }

  lemma NextTokenAt(rest: string, start: nat)
    requires start < |rest|
    ensures var (c, n, m) := (rest[start], NameLength(rest[start..]), PlaceholderLength(rest[start..]));
            NextToken(rest[start..]) ==
            if IsNameStart(c) then ([NameToken(rest[start..][..n])], n)
            else if c == '!' then ([rest[start..][..m]], m)
            else if c in WHITESPACE || c == '?' || c == '&' then ([], 1)
            else ([[c]], 1)
  {
    hide NameLength, PlaceholderLength, NameToken, IsNameStart;
  }

  method ScanToken(rest: string, start: nat) returns (emitted: seq<string>, i: nat)
    requires start < |rest|
    ensures start < i <= |rest|
    ensures (emitted, i - start) == NextToken(rest[start..])
  {
    hide NameLength, PlaceholderLength, NameToken, NextToken, IsNameStart;
    NextTokenAt(rest, start);
    var c := rest[start];
    if IsNameStart(c) {
      i := ScanName(rest, start);
      emitted := [NameToken(rest[start..i])];
    } else if c == '!' {
      i := ScanPlaceholder(rest, start);
      emitted := [rest[start..i]];
    } else if c in WHITESPACE || c == '?' || c == '&' {
      i, emitted := start + 1, [];
    } else {
      i, emitted := start + 1, [[c]];
    }
  }

  /** Where the name that starts at `start` ends. */
  method ScanName(rest: string, start: nat) returns (i: nat)
    requires start < |rest| && IsNameStart(rest[start])
    ensures start < i <= |rest|
    ensures i == start + NameLength(rest[start..])
    ensures rest[start..][..i - start] == rest[start..i] && rest[start..][i - start..] == rest[i..]
  {
    i := start + 1;
    while i < |rest| && IsNameChar(rest[i])
      invariant start < i <= |rest|
      invariant start + NameLength(rest[start..]) == i + NameLength(rest[i..])
    {
      i := i + 1;
    }
  }

  /** Where the placeholder that starts at `start` ends. */
  method ScanPlaceholder(rest: string, start: nat) returns (i: nat)
    requires start < |rest| && rest[start] == '!'
    ensures start < i <= |rest|
    ensures i == start + PlaceholderLength(rest[start..])
    ensures rest[start..][..i - start] == rest[start..i] && rest[start..][i - start..] == rest[i..]
  {
    i := start + 1;
    while i < |rest| && IsPlaceholderChar(rest[i])
      invariant start < i <= |rest|
      invariant start + PlaceholderLength(rest[start..]) == i + PlaceholderLength(rest[i..])
    {
      i := i + 1;
    }
  }

  /** All the tokens kept, once `out` has been emitted and the scan is at `i`. */
  function Kept(tokens: seq<string>, out: seq<string>, i: nat, open: seq<bool>): seq<string>
    requires i <= |tokens|
  {
    out + EraseNullable(tokens[i..], open)
  }

  /** One step of the bracket-stack loop at index `i`. */
  lemma KeptStep(tokens: seq<string>, out: seq<string>, i: nat, open: seq<bool>)
    requires i < |tokens|
    ensures Kept(tokens, out, i, open) ==
            if tokens[i] == "Nullable" && i + 1 < |tokens| && tokens[i + 1] == "<" then
              Kept(tokens, out, i + 2, open + [false])
            else if tokens[i] == "<" then Kept(tokens, out + [tokens[i]], i + 1, open + [true])
            else if tokens[i] == ">" && open != [] then
              Kept(tokens, if open[|open| - 1] then out + [tokens[i]] else out, i + 1, open[..|open| - 1])
            else Kept(tokens, out + [tokens[i]], i + 1, open)
  {
    assert tokens[i..][1..] == tokens[i + 1..];
    assert i + 1 < |tokens| ==> tokens[i..][2..] == tokens[i + 2..];
    forall rest: seq<string>
      ensures out + [tokens[i]] + rest == out + ([tokens[i]] + rest) && out + ([] + rest) == out + rest
    {
      assert [] + rest == rest;
    }
  }

  lemma KeptEnds(tokens: seq<string>)
    ensures Kept(tokens, [], 0, []) == EraseNullable(tokens, [])
    ensures forall out, open :: Kept(tokens, out, |tokens|, open) == out
  {
    assert tokens[0..] == tokens;
  }

  /** The bracket-stack loop of `ParameterType`. */
  method DropNullable(tokens: seq<string>) returns (out: seq<string>)
    ensures out == EraseNullable(tokens, [])
  {
    hide EraseNullable, Kept;
    out := [];
    var open: seq<bool> := [];
    var i := 0;
    KeptEnds(tokens);
    while i < |tokens|
      invariant i <= |tokens|
      invariant Kept(tokens, out, i, open) == EraseNullable(tokens, [])
    {
      KeptStep(tokens, out, i, open);
      if tokens[i] == "Nullable" && i + 1 < |tokens| && tokens[i + 1] == "<" {
        open := open + [false];
        i := i + 2;
        continue;
      }
      if tokens[i] == "<" {
        open := open + [true];
      } else if tokens[i] == ">" && open != [] {
        var kept := open[|open| - 1];
        open := open[..|open| - 1];
        if !kept {
          i := i + 1;
          continue;
        }
      }
      out := out + [tokens[i]];
      i := i + 1;
    }
  }
}
