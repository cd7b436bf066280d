/** Splitting a list at the commas no bracket encloses. */
module TopLevel {
  import opened Wrappers
  import opened Text

  predicate Opens(c: char) {
    c == '<' || c == '(' || c == '['
  }

  predicate Closes(c: char) {
    c == '>' || c == ')' || c == ']'
  }

  /** The bracket depth after `c`. */
  function Deeper(c: char, depth: int): int {
    if Opens(c) then depth + 1 else if Closes(c) then depth - 1 else depth
  }

  /** The entries of `s`, whose scan starts at bracket depth `depth`. */
  function Pieces(s: string, depth: int): (r: seq<string>)
    ensures r != []
  {
    if s == "" then [""]
    else if s[0] == ',' && depth == 0 then [""] + Pieces(s[1..], depth)
    else Prepend([s[0]], Pieces(s[1..], Deeper(s[0], depth)))
  }

  function Prepend(text: string, pieces: seq<string>): (r: seq<string>)
    requires pieces != []
    ensures |r| == |pieces|
  {
    [text + pieces[0]] + pieces[1..]
  }

  function SplitTopLevel(list: string): seq<string> {
    if Trim(list) == "" then [] else Pieces(list, 0)
  }

  /** All the pieces, once `out` has been emitted and the scan is at `i` of the piece from `start`. */
  function Outcome(list: string, out: seq<string>, start: nat, i: nat, depth: int): seq<string>
    requires start <= i <= |list|
  {
    out + Prepend(list[start..i], Pieces(list[i..], depth))
  }

  method SplitList(list: string) returns (out: seq<string>)
    ensures out == SplitTopLevel(list)
  {
    hide Pieces, Outcome, Trim;
    if Trim(list) == "" {
      return [];
    }
    var depth: int := 0;
    var start := 0;
    out := [];
    var i := 0;
    OutcomeStart(list);
    while i < |list|
      invariant start <= i <= |list|
      invariant Outcome(list, out, start, i, depth) == Pieces(list, 0)
    {
      var c := list[i];
      OutcomeStep(list, out, start, i, depth);
      if Opens(c) {
        depth := depth + 1;
      } else if Closes(c) {
        depth := depth - 1;
      } else if c == ',' && depth == 0 {
        out := out + [list[start..i]];
        start := i + 1;
      }
      i := i + 1;
    }
    OutcomeEnd(list, out, start, depth);
    out := out + [list[start..]];
  }

  lemma PiecesStep(list: string, i: nat, depth: int)
    requires i < |list|
    ensures Pieces(list[i..], depth) ==
            if list[i] == ',' && depth == 0 then [""] + Pieces(list[i + 1..], depth)
            else Prepend([list[i]], Pieces(list[i + 1..], Deeper(list[i], depth)))
  {
    assert list[i..][1..] == list[i + 1..];
  }

  lemma PrependNothing(pieces: seq<string>)
    requires pieces != []
    ensures Prepend("", pieces) == pieces
  {
    assert "" + pieces[0] == pieces[0];
  }

  lemma OutcomeStart(list: string)
    ensures Outcome(list, [], 0, 0, 0) == Pieces(list, 0)
  {
    assert list[0..] == list && list[0..0] == "";
    PrependNothing(Pieces(list, 0));
  }

  lemma OutcomeStep(list: string, out: seq<string>, start: nat, i: nat, depth: int)
    requires start <= i < |list|
    ensures Outcome(list, out, start, i, depth) ==
            if list[i] == ',' && depth == 0 then Outcome(list, out + [list[start..i]], i + 1, i + 1, depth)
            else Outcome(list, out, start, i + 1, Deeper(list[i], depth))
  {
    PiecesStep(list, i, depth);
    hide Pieces, Prepend;
    if list[i] == ',' && depth == 0 {
      var rest := Pieces(list[i + 1..], depth);
      PrependNothing(rest);
      PrependBreak(out, list[start..i], rest);
      assert list[i + 1..i + 1] == "";
    } else {
      PrependTwice(list[start..i], list[i], Pieces(list[i + 1..], Deeper(list[i], depth)));
      assert list[start..i] + [list[i]] == list[start..i + 1];
    }
  }

  lemma PrependBreak(out: seq<string>, text: string, rest: seq<string>)
    ensures out + Prepend(text, [""] + rest) == out + [text] + rest
  {
    assert text + "" == text && ([""] + rest)[1..] == rest;
  }

  lemma PrependTwice(text: string, c: char, rest: seq<string>)
    requires rest != []
    ensures Prepend(text, Prepend([c], rest)) == Prepend(text + [c], rest)
  {
    assert text + ([c] + rest[0]) == text + [c] + rest[0];
  }

  lemma OutcomeEnd(list: string, out: seq<string>, start: nat, depth: int)
    requires start <= |list|
    ensures Outcome(list, out, start, |list|, depth) == out + [list[start..]]
  {
    assert list[start..|list|] + "" == list[start..];
  }

  // --- splitting inverts joining ----------------------------------------------

  /** The depth a scan of `s` from `depth` ends at, unless it meets a top-level comma. */
  function Nest(s: string, depth: int): Option<int> {
    if s == "" then Some(depth)
    else if s[0] == ',' && depth == 0 then None
    else Nest(s[1..], Deeper(s[0], depth))
  }

  /** An entry a list can hold: brackets balance and no comma lies outside them. */
  predicate IsEntry(s: string) {
    Nest(s, 0) == Some(0)
  }

  lemma {:induction false} NestAppend(a: string, b: string, depth: int)
    ensures Nest(a + b, depth) == match Nest(a, depth) case None => None case Some(d) => Nest(b, d)
  {
    if a == "" {
      assert a + b == b;
    } else {
      assert (a + b)[1..] == a[1..] + b;
      NestAppend(a[1..], b, Deeper(a[0], depth));
    }
  }

  predicate IsPlainChar(c: char) {
    c != '<' && c != '>' && c != '(' && c != ')' && c != '[' && c != ']' && c != ','
  }

  /** Text without brackets or commas leaves the depth alone. */
  lemma {:induction false} NestPlain(s: string, depth: int)
    requires forall c :: c in s ==> IsPlainChar(c)
    ensures Nest(s, depth) == Some(depth)
  {
    if s != "" {
      assert IsPlainChar(s[0]);
      NestPlain(s[1..], depth);
    }
  }

  lemma {:induction false} PiecesOfEntry(a: string, rest: string, depth: int)
    requires Nest(a, depth) == Some(0)
    ensures Pieces(a, depth) == [a]
    ensures Pieces(a + "," + rest, depth) == [a] + Pieces(rest, 0)
  {
    if a == "" {
      assert a + "," + rest == "," + rest;
      assert ("," + rest)[1..] == rest;
    } else {
      PiecesOfEntry(a[1..], rest, Deeper(a[0], depth));
      assert (a + "," + rest)[1..] == a[1..] + "," + rest;
      assert [a[0]] + a[1..] == a;
    }
  }

  /** Splitting loses nothing: the pieces joined again are the text. */
  lemma {:induction false} PiecesRejoin(s: string, depth: int)
    ensures Join(Pieces(s, depth), ",") == s
    decreases |s|
  {
    if s != "" {
      var rest := Pieces(s[1..], if s[0] == ',' && depth == 0 then depth else Deeper(s[0], depth));
      PiecesRejoin(s[1..], if s[0] == ',' && depth == 0 then depth else Deeper(s[0], depth));
      assert [s[0]] + s[1..] == s;
      if s[0] == ',' && depth == 0 {
        assert ([""] + rest)[1..] == rest;
      } else {
        PrependJoins([s[0]], rest);
      }
    }
  }

  lemma PrependJoins(text: string, pieces: seq<string>)
    requires pieces != []
    ensures Join(Prepend(text, pieces), ",") == text + Join(pieces, ",")
  {
    if |pieces| > 1 {
      var rest := Join(pieces[1..], ",");
      assert text + pieces[0] + "," + rest == text + (pieces[0] + "," + rest);
    }
  }

  /** A list that is not blank is its entries, joined. */
  lemma SplitRejoins(list: string)
    ensures Trim(list) != "" ==> Join(SplitTopLevel(list), ",") == list
    ensures Trim(list) == "" <==> SplitTopLevel(list) == []
  {
    PiecesRejoin(list, 0);
  }

  function Padded(pad: string, entries: seq<string>): (r: seq<string>)
    ensures |r| == |entries|
    ensures forall i :: 0 <= i < |entries| ==> r[i] == pad + entries[i]
  {
    seq(|entries|, i requires 0 <= i < |entries| => pad + entries[i])
  }

  /** Splitting a joined list gives back its entries, each but the first behind the padding. */
  lemma SplitJoin(entries: seq<string>, pad: string)
    requires entries != [] && forall e :: e in entries ==> IsEntry(e)
    requires pad in {"", " "}
    requires Trim(Join(entries, "," + pad)) != ""
    ensures SplitTopLevel(Join(entries, "," + pad)) == [entries[0]] + Padded(pad, entries[1..])
  {
    PiecesJoin(entries, pad);
  }

  lemma {:induction false} PiecesJoin(entries: seq<string>, pad: string)
    requires entries != [] && forall e :: e in entries ==> IsEntry(e)
    requires pad in {"", " "}
    ensures Pieces(Join(entries, "," + pad), 0) == [entries[0]] + Padded(pad, entries[1..])
    decreases |entries|
  {
    hide Pieces, Nest;
    assert IsEntry(entries[0]);
    if |entries| == 1 {
      PiecesOfEntry(entries[0], "", 0);
    } else {
      var rest := Join(entries[1..], "," + pad);
      PiecesJoin(entries[1..], pad);
      PiecesOfEntry(entries[0], pad + rest, 0);
      assert Join(entries, "," + pad) == entries[0] + "," + (pad + rest);
      PiecesPadded(pad, rest);
      PrependPadded(pad, entries[1..]);
    }
  }

  lemma PrependPadded(pad: string, entries: seq<string>)
    requires entries != []
    ensures Prepend(pad, [entries[0]] + Padded(pad, entries[1..])) == Padded(pad, entries)
  {
  }

  lemma PiecesPadded(pad: string, rest: string)
    requires pad in {"", " "}
    ensures Pieces(pad + rest, 0) == Prepend(pad, Pieces(rest, 0))
  {
    if pad == " " {
      assert (pad + rest)[1..] == rest;
    } else {
      assert pad + rest == rest;
      PrependNothing(Pieces(rest, 0));
    }
  }
}
