/** Option and Result, the source's optional and fallible values. */
module Wrappers {
  datatype Option<+T> = None | Some(value: T)

  datatype Result<+T, +E> = Ok(value: T) | Err(error: E)

  /** An optional item as a list of at most one. */
  function AsList<T>(item: Option<T>): seq<T> {
    match item
    case Some(v) => [v]
    case None => []
  }

  /** Values, each a success. */
  function AllOk<T, E>(values: seq<T>): (r: seq<Result<T, E>>)
    ensures |r| == |values|
    ensures forall i :: 0 <= i < |r| ==> r[i] == Ok(values[i])
  {
    seq(|values|, i requires 0 <= i < |values| => Ok(values[i]))
  }
}

/** The few standard string operations the source relies on, over ASCII text. */
module Text {
  import opened Wrappers

  const WHITESPACE: set<char> := {' ', '\t', '\n', '\r', '\U{0B}', '\U{0C}'}

  predicate IsDigit(c: char) {
    '0' <= c <= '9'
  }

  predicate IsAlphanumeric(c: char) {
    IsDigit(c) || 'a' <= c <= 'z' || 'A' <= c <= 'Z'
  }

  /** The position of the first character of `s` in `cs`, or `|s|`. */
  function IndexOf(s: string, cs: set<char>): (i: nat)
    ensures i <= |s|
    ensures forall k :: 0 <= k < i ==> s[k] !in cs
    ensures i < |s| ==> s[i] in cs
  {
    if s == [] || s[0] in cs then 0 else 1 + IndexOf(s[1..], cs)
  }

  lemma IndexOfIs(s: string, cs: set<char>, i: nat)
    requires i <= |s|
    requires forall k :: 0 <= k < i ==> s[k] !in cs
    requires i < |s| ==> s[i] in cs
    ensures IndexOf(s, cs) == i
  {
  }

  lemma IndexAfter(a: string, b: string, cs: set<char>)
    requires forall c :: c in a ==> c !in cs
    requires b != "" ==> b[0] in cs
    ensures IndexOf(a + b, cs) == |a|
  {
    assert forall k :: 0 <= k < |a| ==> (a + b)[k] in a;
    IndexOfIs(a + b, cs, |a|);
  }

  /** The text before and after the first character in `cs`, which is dropped. */
  function SplitOnce(s: string, cs: set<char>): (r: Option<(string, string)>)
    ensures r.None? <==> forall c :: c in s ==> c !in cs
    ensures r.Some? ==> |r.value.0| + 1 + |r.value.1| == |s|
  {
    var i := IndexOf(s, cs);
    if i < |s| then Some((s[..i], s[i + 1..])) else None
  }

  lemma SplitOnceAt(a: string, c: char, b: string, cs: set<char>)
    requires forall x :: x in a ==> x !in cs
    requires c in cs
    ensures SplitOnce(a + [c] + b, cs) == Some((a, b))
  {
    var s := a + [c] + b;
    assert s == a + ([c] + b);
    IndexAfter(a, [c] + b, cs);
    assert s[..|a|] == a && s[|a| + 1..] == b;
  }

  /** The text before and after the last `c`, which is dropped. */
  function RSplitOnce(s: string, c: char): (r: Option<(string, string)>)
    ensures r.None? <==> c !in s
    ensures r.Some? ==> s == r.value.0 + [c] + r.value.1 && c !in r.value.1
  {
    if s == [] then None
    else if s[|s| - 1] == c then
      assert s == s[..|s| - 1] + [c] + [];
      Some((s[..|s| - 1], []))
    else
      var r := RSplitOnce(s[..|s| - 1], c);
      assert s == s[..|s| - 1] + [s[|s| - 1]];
      match r
      case None => None
      case Some((a, b)) => Some((a, b + [s[|s| - 1]]))
  }

  function TrimStart(s: string): (r: string)
    ensures |r| <= |s| && r == s[|s| - |r|..]
    ensures r != [] ==> r[0] !in WHITESPACE
  {
    if s != [] && s[0] in WHITESPACE then TrimStart(s[1..]) else s
  }

  function TrimEnd(s: string): (r: string)
    ensures r <= s
    ensures r != [] ==> r[|r| - 1] !in WHITESPACE
    ensures r == [] ==> forall c :: c in s ==> c in WHITESPACE
  {
    if s != [] && s[|s| - 1] in WHITESPACE then TrimEnd(s[..|s| - 1]) else s
  }

  function Trim(s: string): string {
    TrimEnd(TrimStart(s))
  }

  /** `s` carries no surrounding white space for a trim to remove. */
  predicate Trimmed(s: string) {
    s != [] ==> s[0] !in WHITESPACE && s[|s| - 1] !in WHITESPACE
  }

  lemma TrimPadded(pad: string, s: string)
    requires Trimmed(s) && pad in {"", " "}
    ensures Trim(pad + s) == s
  {
    assert (pad + s)[|pad|..] == s;
    if pad == " " && s != [] {
      assert TrimStart(pad + s) == TrimStart((pad + s)[1..]);
    }
  }

  predicate AreBlank(s: string) {
    forall c :: c in s ==> c == ' ' || c == '\t' || c == '\r'
  }

  /** Blanks around a text are trimmed. */
  lemma TrimAround(before: string, s: string, after: string)
    requires AreBlank(before) && AreBlank(after) && Trimmed(s) && s != ""
    ensures Trim(before + s + after) == s
  {
    hide TrimStart, TrimEnd;
    BlanksBefore(before, s + after);
    assert before + s + after == before + (s + after);
    BlanksAfter(s, after);
  }

  lemma {:induction false} BlanksBefore(before: string, s: string)
    requires AreBlank(before) && s != "" && s[0] !in WHITESPACE
    ensures TrimStart(before + s) == s
    decreases |before|
  {
    if before == "" {
      assert before + s == s;
    } else {
      assert before[0] in before && forall c :: c in before[1..] ==> c in before;
      assert (before + s)[1..] == before[1..] + s;
      BlanksBefore(before[1..], s);
    }
  }

  lemma {:induction false} BlanksAfter(s: string, after: string)
    requires AreBlank(after) && s != "" && s[|s| - 1] !in WHITESPACE
    ensures TrimEnd(s + after) == s
    decreases |after|
  {
    if after == "" {
      assert s + after == s;
    } else {
      var front := after[..|after| - 1];
      assert after[|after| - 1] in after && forall c :: c in front ==> c in after;
      assert (s + after)[..|s + after| - 1] == s + front;
      BlanksAfter(s, front);
    }
  }

  lemma {:induction false} OnlyBlanks(s: string)
    requires AreBlank(s)
    ensures Trim(s) == ""
    decreases |s|
  {
    if s != "" {
      assert s[0] in s && forall c :: c in s[1..] ==> c in s;
      OnlyBlanks(s[1..]);
    }
  }

  lemma NotBlank(s: string)
    requires s != "" && s[0] !in WHITESPACE
    ensures Trim(s) != ""
  {
    assert TrimStart(s) == s;
    assert s[0] in s;
  }

  // --- lines ------------------------------------------------------------------

  /** The complete lines of a text, and what follows the last of them. */
  datatype Lines = Lines(complete: seq<string>, rest: string)

  function SplitLines(text: string): Lines
    decreases |text|
  {
    match SplitOnce(text, {'\n'})
    case None => Lines([], text)
    case Some((line, rest)) =>
      var more := SplitLines(rest);
      Lines([line] + more.complete, more.rest)
  }

  /** A list of lines before a later split. */
  function Preceded(complete: seq<string>, later: Lines): Lines {
    Lines(complete + later.complete, later.rest)
  }

  lemma PrecededTwice(a: seq<string>, b: seq<string>, later: Lines)
    ensures Preceded(a, Preceded(b, later)) == Preceded(a + b, later)
    ensures Preceded([], later) == later
  {
    assert a + (b + later.complete) == a + b + later.complete;
    assert [] + later.complete == later.complete;
  }

  lemma SplitLinesStep(text: string)
    ensures SplitLines(text)
         == match SplitOnce(text, {'\n'})
            case None => Lines([], text)
            case Some((line, rest)) => Preceded([line], SplitLines(rest))
  {
    hide SplitOnce;
  }

  lemma {:induction false} SplitLinesAppend(a: string, b: string)
    ensures SplitLines(a + b) == Preceded(SplitLines(a).complete, SplitLines(SplitLines(a).rest + b))
    decreases |a|
  {
    hide SplitOnce, SplitLines, Preceded;
    SplitLinesStep(a);
    match SplitOnce(a, {'\n'})
    case None => PrecededTwice([], [], SplitLines(a + b));
    case Some((line, rest)) =>
      SplitLinesAppend(rest, b);
      LineAt(a, b, line, rest);
      SplitLinesStep(a + b);
      var tail := SplitLines(rest);
      PrecededParts([line], tail);
      PrecededTwice([line], tail.complete, SplitLines(tail.rest + b));
  }

  lemma PrecededParts(complete: seq<string>, later: Lines)
    ensures Preceded(complete, later).complete == complete + later.complete && Preceded(complete, later).rest == later.rest
  {
  }

  lemma LineAt(a: string, b: string, line: string, rest: string)
    requires SplitOnce(a, {'\n'}) == Some((line, rest))
    ensures SplitOnce(a + b, {'\n'}) == Some((line, rest + b))
  {
    var i := IndexOf(a, {'\n'});
    assert a == line + ['\n'] + rest;
    assert a + b == line + ['\n'] + (rest + b);
    SplitOnceAt(line, '\n', rest + b, {'\n'});
  }

  lemma OneLine(line: string, rest: string)
    requires '\n' !in line
    ensures SplitLines(line + "\n" + rest) == Preceded([line], SplitLines(rest))
  {
    hide SplitOnce;
    assert line + "\n" + rest == line + ['\n'] + rest;
    SplitOnceAt(line, '\n', rest, {'\n'});
  }

  lemma {:induction false} SplitRest(text: string)
    ensures SplitLines(SplitLines(text).rest).complete == []
    decreases |text|
  {
    match SplitOnce(text, {'\n'})
    case None =>
    case Some((_, rest)) => SplitRest(rest);
  }

  function Join(parts: seq<string>, sep: string): string {
    if parts == [] then []
    else if |parts| == 1 then parts[0]
    else parts[0] + sep + Join(parts[1..], sep)
  }

  /** Where `pat` first occurs in `s`, or `|s|` when it does not. */
  function Find(s: string, pat: string): (i: nat)
    requires pat != []
    ensures i <= |s|
    ensures forall k :: 0 <= k < i ==> !OccursAt(s, pat, k)
    ensures i < |s| ==> OccursAt(s, pat, i)
  {
    if s == [] then 0
    else if pat <= s then
      assert s[0..0 + |pat|] == pat;
      0
    else
      var i := 1 + Find(s[1..], pat);
      assert forall k :: 0 < k <= |s| ==> OccursAt(s, pat, k) == OccursAt(s[1..], pat, k - 1) by {
        forall k | 0 < k <= |s|
          ensures OccursAt(s, pat, k) == OccursAt(s[1..], pat, k - 1)
        {
          OccursAtTail(s, pat, k);
        }
      }
      i
  }

  lemma OccursAtTail(s: string, pat: string, k: nat)
    requires 0 < k <= |s|
    ensures OccursAt(s, pat, k) == OccursAt(s[1..], pat, k - 1)
  {
    if k + |pat| <= |s| {
      assert s[k..k + |pat|] == s[1..][k - 1..k - 1 + |pat|];
    }
  }

  predicate OccursAt(s: string, pat: string, k: nat) {
    k + |pat| <= |s| && s[k..k + |pat|] == pat
  }

  lemma FindIs(s: string, pat: string, i: nat)
    requires pat != [] && i <= |s|
    requires forall k :: 0 <= k < i ==> !OccursAt(s, pat, k)
    requires i < |s| ==> OccursAt(s, pat, i)
    ensures Find(s, pat) == i
  {
    var j := Find(s, pat);
    assert j < |s| ==> OccursAt(s, pat, j);
  }

  lemma OccursChar(s: string, pat: string, k: nat, j: nat)
    requires j < |pat|
    ensures OccursAt(s, pat, k) ==> k + j < |s| && s[k + j] == pat[j]
  {
    if OccursAt(s, pat, k) {
      assert s[k..k + |pat|][j] == s[k + j];
    }
  }

  /** A pattern whose first character is not in `a` first occurs right after it. */
  lemma FindAfter(a: string, b: string, pat: string)
    requires pat != "" && pat[0] !in a
    requires b == "" || pat <= b
    ensures Find(a + b, pat) == |a|
  {
    forall k | 0 <= k < |a|
      ensures !OccursAt(a + b, pat, k)
    {
      OccursChar(a + b, pat, k, 0);
      assert (a + b)[k] in a;
    }
    assert b != "" ==> (a + b)[|a|..|a| + |pat|] == pat;
    FindIs(a + b, pat, |a|);
  }

  // --- decimal numbers ------------------------------------------------------

  /** The machine word: a longer number does not parse. */
  const USIZE_MAX: nat := 0xFFFF_FFFF_FFFF_FFFF

  function DigitChar(d: nat): char
    requires d < 10
  {
    '0' + d as char
  }

  /** Canonical decimal. */
  function Show(n: nat): (s: string)
    ensures s != [] && forall c :: c in s ==> IsDigit(c)
  {
    if n < 10 then [DigitChar(n)] else Show(n / 10) + [DigitChar(n % 10)]
  }

  function DigitsValue(s: string): nat
    requires forall c :: c in s ==> IsDigit(c)
  {
    if s == [] then 0
    else
      assert IsDigit(s[|s| - 1]);
      10 * DigitsValue(s[..|s| - 1]) + (s[|s| - 1] as int - '0' as int)
  }

  /** `str::parse::<usize>`: an optional `+`, then at least one digit, within the machine word. */
  function ParseNat(s: string): Option<nat> {
    var digits := if s != [] && s[0] == '+' then s[1..] else s;
    if digits != [] && (forall c :: c in digits ==> IsDigit(c)) && DigitsValue(digits) <= USIZE_MAX
    then Some(DigitsValue(digits)) else None
  }

  lemma {:induction false} ShowValue(n: nat)
    ensures DigitsValue(Show(n)) == n
  {
    if n < 10 {
      assert DigitsValue(Show(n)[..0]) == 0;
    } else {
      ShowValue(n / 10);
      var s := Show(n);
      assert s[..|s| - 1] == Show(n / 10);
      assert s[|s| - 1] == DigitChar(n % 10);
    }
  }

  lemma ParseShow(n: nat)
    requires n <= USIZE_MAX
    ensures ParseNat(Show(n)) == Some(n)
  {
    ShowValue(n);
    assert Show(n)[0] in Show(n);
  }
}
