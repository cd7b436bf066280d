/**
 The two spellings of a .NET type name, the catalog's `Outer<K>.Inner<V>` beside its
 namespace and the CLR's ``N.Outer`1+Inner`1``, and the printers between them.
 */
module TypeKeys {
  import opened Wrappers
  import opened Text
  import opened TopLevel

  // --- from the CLR spelling to the catalog's -----------------------------------

  function SplitAll(s: string, c: char): (r: seq<string>)
    ensures r != []
    decreases |s|
  {
    match SplitOnce(s, {c})
    case None => [s]
    case Some((a, b)) => [a] + SplitAll(b, c)
  }

  /** A written arity, zero when it is not a number. */
  function ArityOf(text: string): nat {
    match ParseNat(text)
    case Some(n) => n
    case None => 0
  }

  /** A text that is no number counts as zero, a plus sign before one counts for nothing. */
  lemma OddArity(text: string, n: nat)
    ensures (exists i :: 0 <= i < |text| && !IsDigit(text[i]) && !(i == 0 && text[i] == '+')) ==> ArityOf(text) == 0
    ensures ArityOf("") == 0 == ArityOf("+")
    ensures n <= USIZE_MAX ==> ArityOf(Show(n)) == n == ArityOf("+" + Show(n))
    ensures n > USIZE_MAX ==> ArityOf(Show(n)) == 0
  {
    hide Show, DigitsValue;
    ShowValue(n);
    assert ("+" + Show(n))[1..] == Show(n) && Show(n)[0] in Show(n);
    var digits := if text != "" && text[0] == '+' then text[1..] else text;
    if i :| 0 <= i < |text| && !IsDigit(text[i]) && !(i == 0 && text[i] == '+') {
      assert text[i] in digits by {
        assert text[i] == if digits == text then digits[i] else digits[i - 1];
      }
    }
  }

  lemma {:induction false} ParamNamesAre(names: seq<string>, from: nat, count: nat)
    ensures var r := ParamNames(names, from, count);
            && |r| == count
            && forall i :: 0 <= i < count ==> r[i] == if from + i < |names| then names[from + i] else "T" + Show(from + i)
    decreases count
  {
    hide Show;
    if count > 0 {
      ParamNamesAre(names, from + 1, count - 1);
      var (r, later) := (ParamNames(names, from, count), ParamNames(names, from + 1, count - 1));
      forall i | 1 <= i < count
        ensures r[i] == if from + i < |names| then names[from + i] else "T" + Show(from + i)
      {
        assert r[i] == later[i - 1];
      }
    }
  }

  /** The `count` parameter names from index `from`, `T{i}` for those not listed. */
  function ParamNames(names: seq<string>, from: nat, count: nat): (r: seq<string>)
    ensures |r| == count
    decreases count
  {
    if count == 0 then []
    else [if from < |names| then names[from] else "T" + Show(from)] + ParamNames(names, from + 1, count - 1)
  }

  function SegmentArity(segment: string): nat {
    match SplitOnce(segment, {'`'})
    case None => 0
    case Some((_, arity)) => ArityOf(arity)
  }

  function CatalogSegment(segment: string, names: seq<string>, next: nat): string {
    match SplitOnce(segment, {'`'})
    case None => segment
    case Some((name, arity)) => name + "<" + Join(ParamNames(names, next, ArityOf(arity)), ", ") + ">"
  }

  /** The segments printed in turn, each taking the next parameter names. */
  function CatalogSegments(segments: seq<string>, names: seq<string>, next: nat): (r: seq<string>)
    ensures |r| == |segments|
  {
    if segments == [] then []
    else [CatalogSegment(segments[0], names, next)]
         + CatalogSegments(segments[1..], names, next + SegmentArity(segments[0]))
  }

  /** The namespace of a CLR name, and its type segments outermost first. */
  function ClrParts(clr: string): (r: (string, seq<string>))
    ensures r.1 != []
  {
    var segments := SplitAll(clr, '+');
    var (ns, first) := match RSplitOnce(segments[0], '.')
      case Some(split) => split
      case None => ("", segments[0]);
    (ns, [first] + segments[1..])
  }

  function CatalogTypeKey(clr: string, names: seq<string>): (string, string) {
    var (ns, segments) := ClrParts(clr);
    (ns, Join(CatalogSegments(segments, names, 0), "."))
  }

  // --- from the catalog's spelling to the CLR's ---------------------------------

  function AngleDepth(c: char, depth: nat): nat {
    if c == '<' then depth + 1 else if c == '>' && depth > 0 then depth - 1 else depth
  }

  /** `s` split at the dots no angle bracket encloses, from bracket depth `depth`. */
  function Segments(s: string, depth: nat): (r: seq<string>)
    ensures r != []
  {
    if s == "" then [""]
    else if s[0] == '.' && depth == 0 then [""] + Segments(s[1..], depth)
    else Prepend([s[0]], Segments(s[1..], AngleDepth(s[0], depth)))
  }

  function TrimEndAngles(s: string): (r: string)
    ensures r <= s
  {
    if s != "" && s[|s| - 1] == '>' then TrimEndAngles(s[..|s| - 1]) else s
  }

  function ClrSegment(segment: string): string {
    match SplitOnce(segment, {'<'})
    case Some((name, args)) => name + "`" + Show(|SplitTopLevel(TrimEndAngles(args))|)
    case None => segment
  }

  function ClrSegments(segments: seq<string>): (r: seq<string>)
    ensures |r| == |segments|
    ensures forall i :: 0 <= i < |r| ==> r[i] == ClrSegment(segments[i])
  {
    seq(|segments|, i requires 0 <= i < |segments| => ClrSegment(segments[i]))
  }

  function ClrTypeKey(ns: string, ty: string): string {
    ns + "." + Join(ClrSegments(Segments(ty, 0)), "+")
  }

  /** All the segments, once `segments` is complete, `current` is open and the scan is at `i`. */
  function Pending(ty: string, segments: seq<string>, current: string, i: nat, depth: nat): seq<string>
    requires i <= |ty|
  {
    segments + Prepend(current, Segments(ty[i..], depth))
  }

  method ComputeClrTypeKey(ns: string, ty: string) returns (clr: string)
    ensures clr == ClrTypeKey(ns, ty)
  {
    hide Segments, Pending;
    var segments: seq<string> := [];
    var depth: nat := 0;
    var current := "";
    PendingStart(ty);
    for i := 0 to |ty|
      invariant Pending(ty, segments, current, i, depth) == Segments(ty, 0)
    {
      var c := ty[i];
      PendingStep(ty, segments, current, i, depth);
      if c == '<' {
        depth := depth + 1;
        current := current + [c];
      } else if c == '>' {
        depth := if depth > 0 then depth - 1 else 0;
        current := current + [c];
      } else if c == '.' && depth == 0 {
        segments := segments + [current];
        current := "";
      } else {
        current := current + [c];
      }
    }
    PendingEnd(ty, segments, current, depth);
    segments := segments + [current];
    clr := ns + "." + Join(ClrSegments(segments), "+");
  }

  lemma PendingStart(ty: string)
    ensures Pending(ty, [], "", 0, 0) == Segments(ty, 0)
  {
    assert ty[0..] == ty;
    PrependNothing(Segments(ty, 0));
  }

  lemma PendingStep(ty: string, segments: seq<string>, current: string, i: nat, depth: nat)
    requires i < |ty|
    ensures Pending(ty, segments, current, i, depth) ==
            if ty[i] == '.' && depth == 0 then Pending(ty, segments + [current], "", i + 1, depth)
            else Pending(ty, segments, current + [ty[i]], i + 1, AngleDepth(ty[i], depth))
  {
    assert ty[i..][1..] == ty[i + 1..];
    var rest := Segments(ty[i + 1..], if ty[i] == '.' && depth == 0 then depth else AngleDepth(ty[i], depth));
    if ty[i] == '.' && depth == 0 {
      PrependNothing(rest);
      assert current + "" == current && ([""] + rest)[1..] == rest;
    } else {
      assert current + ([ty[i]] + rest[0]) == current + [ty[i]] + rest[0];
    }
  }

  lemma PendingEnd(ty: string, segments: seq<string>, current: string, depth: nat)
    ensures Pending(ty, segments, current, |ty|, depth) == segments + [current]
  {
    assert current + "" == current;
  }

  // --- the printers are inverse ---------------------------------------------------

  /** A generic parameter's name: not blank, and neither a bracket nor a comma in it. */
  predicate IsParamName(s: string) {
    s != "" && forall c :: c in s ==> !Opens(c) && !Closes(c) && c != ',' && c !in WHITESPACE
  }

  predicate AreParamNames(names: seq<string>) {
    forall n :: n in names ==> IsParamName(n)
  }

  /** A segment both spellings can carry: no dot, no `<`, and any arity in canonical decimal. */
  predicate IsCanonicalSegment(segment: string) {
    '.' !in segment && '<' !in segment && NormalSegment(segment) == segment
  }

  /** A segment with its arity, if it writes one, in canonical decimal. */
  function NormalSegment(segment: string): string {
    match SplitOnce(segment, {'`'})
    case None => segment
    case Some((name, arity)) => name + "`" + Show(ArityOf(arity))
  }

  function NormalSegments(segments: seq<string>): (r: seq<string>)
    ensures |r| == |segments|
    ensures forall i :: 0 <= i < |r| ==> r[i] == NormalSegment(segments[i])
  {
    seq(|segments|, i requires 0 <= i < |segments| => NormalSegment(segments[i]))
  }

  /** A CLR name with a namespace, each of whose segments is canonical. */
  predicate IsCanonicalClr(clr: string) {
    && '.' in SplitAll(clr, '+')[0]
    && forall s :: s in ClrParts(clr).1 ==> IsCanonicalSegment(s)
  }

  lemma {:induction false} SplitAllJoins(s: string, c: char)
    ensures Join(SplitAll(s, c), [c]) == s
    ensures forall p :: p in SplitAll(s, c) ==> c !in p
    decreases |s|
  {
    match SplitOnce(s, {c})
    case None =>
    case Some((a, b)) =>
      SplitAllJoins(b, c);
      assert SplitAll(s, c)[1..] == SplitAll(b, c);
      assert s == a + [c] + b;
  }

  lemma {:induction false} JoinInjective(a: seq<string>, b: seq<string>, c: char)
    requires a != [] && b != []
    requires forall p :: p in a ==> c !in p
    requires forall p :: p in b ==> c !in p
    requires Join(a, [c]) == Join(b, [c])
    ensures a == b
    decreases |a|
  {
    JoinSplits(a, c);
    JoinSplits(b, c);
    assert a == [a[0]] + a[1..] && b == [b[0]] + b[1..];
    if |a| > 1 {
      JoinInjective(a[1..], b[1..], c);
    }
  }

  lemma JoinSplits(parts: seq<string>, c: char)
    requires parts != []
    requires forall p :: p in parts ==> c !in p
    ensures SplitOnce(Join(parts, [c]), {c}) ==
            if |parts| == 1 then None else Some((parts[0], Join(parts[1..], [c])))
  {
    assert c !in parts[0];
    if |parts| > 1 {
      SplitOnceAt(parts[0], c, Join(parts[1..], [c]), {c});
    }
  }

  /** A canonical decimal's own name is a plain parameter name. */
  lemma {:induction false} ParamNamesAreNames(names: seq<string>, from: nat, count: nat)
    requires AreParamNames(names)
    ensures AreParamNames(ParamNames(names, from, count))
    decreases count
  {
    if count > 0 {
      ParamNamesAreNames(names, from + 1, count - 1);
    }
  }

  /** The depth a scan for dots ends at, unless it meets one outside every bracket. */
  function AngleNest(s: string, depth: nat): Option<nat> {
    if s == "" then Some(depth)
    else if s[0] == '.' && depth == 0 then None
    else AngleNest(s[1..], AngleDepth(s[0], depth))
  }

  lemma {:induction false} AngleNestAppend(a: string, b: string, depth: nat)
    ensures AngleNest(a + b, depth) ==
            match AngleNest(a, depth) case None => None case Some(d) => AngleNest(b, d)
  {
    if a == "" {
      assert a + b == b;
    } else {
      assert (a + b)[1..] == a[1..] + b;
      AngleNestAppend(a[1..], b, AngleDepth(a[0], depth));
    }
  }

  lemma {:induction false} AngleNestPlain(s: string, depth: nat)
    requires depth == 0 ==> '.' !in s
    requires depth > 0 ==> '>' !in s
    requires '<' !in s
    ensures AngleNest(s, depth) == Some(depth)
  {
    if s != "" {
      assert s[0] in s;
      AngleNestPlain(s[1..], depth);
    }
  }

  lemma {:induction false} SegmentsOfClosed(a: string, rest: string, depth: nat)
    requires AngleNest(a, depth) == Some(0)
    ensures Segments(a, depth) == [a]
    ensures Segments(a + "." + rest, depth) == [a] + Segments(rest, 0)
  {
    if a == "" {
      assert a + "." + rest == "." + rest;
      assert ("." + rest)[1..] == rest;
    } else {
      SegmentsOfClosed(a[1..], rest, AngleDepth(a[0], depth));
      assert (a + "." + rest)[1..] == a[1..] + "." + rest;
      assert [a[0]] + a[1..] == a;
    }
  }

  lemma {:induction false} SegmentsJoin(parts: seq<string>)
    requires parts != [] && forall p :: p in parts ==> AngleNest(p, 0) == Some(0)
    ensures Segments(Join(parts, "."), 0) == parts
    decreases |parts|
  {
    hide Segments;
    assert AngleNest(parts[0], 0) == Some(0);
    if |parts| == 1 {
      SegmentsOfClosed(parts[0], "", 0);
    } else {
      SegmentsJoin(parts[1..]);
      SegmentsOfClosed(parts[0], Join(parts[1..], "."), 0);
    }
  }

  lemma JoinedNames(names: seq<string>)
    requires AreParamNames(names)
    ensures '<' !in Join(names, ", ") && '>' !in Join(names, ", ")
    ensures |SplitTopLevel(Join(names, ", "))| == |names|
    ensures names != [] ==> SplitTopLevel(Join(names, ", ")) == [names[0]] + Padded(" ", names[1..])
  {
    JoinedNamesChars(names);
    if names != [] {
      hide SplitTopLevel, Trim, IsEntry, Join;
      forall n | n in names
        ensures IsEntry(n)
      {
        NameIsEntry(n);
      }
      assert "," + " " == ", ";
      JoinedNotBlank(names);
      SplitJoin(names, " ");
    }
  }

  lemma NameIsEntry(name: string)
    requires IsParamName(name)
    ensures IsEntry(name)
  {
    NestPlain(name, 0);
  }

  lemma JoinedNotBlank(names: seq<string>)
    requires AreParamNames(names) && names != []
    ensures Trim(Join(names, ", ")) != ""
  {
    hide Trim;
    assert names[0] in names && names[0][0] in names[0];
    var rest := if |names| == 1 then "" else ", " + Join(names[1..], ", ");
    assert Join(names, ", ") == names[0] + rest;
    NotBlank(names[0] + rest);
  }

  lemma {:induction false} JoinedNamesChars(names: seq<string>)
    requires AreParamNames(names)
    ensures '<' !in Join(names, ", ") && '>' !in Join(names, ", ")
  {
    if names != [] {
      assert names[0] in names;
      JoinedNamesChars(names[1..]);
    }
  }

  /** A printed segment is closed, and reading it back gives the segment, its arity normalised. */
  lemma SegmentReadsBack(segment: string, names: seq<string>, next: nat)
    requires AreParamNames(names)
    requires '.' !in segment && '<' !in segment
    ensures AngleNest(CatalogSegment(segment, names, next), 0) == Some(0)
    ensures ClrSegment(CatalogSegment(segment, names, next)) == NormalSegment(segment)
  {
    match SplitOnce(segment, {'`'})
    case None => AngleNestPlain(segment, 0);
    case Some((name, arity)) =>
      var params := ParamNames(names, next, ArityOf(arity));
      var joined := Join(params, ", ");
      ParamNamesAreNames(names, next, ArityOf(arity));
      JoinedNames(params);
      BracketedNames(name, joined);
      TrimAngle(joined);
  }

  lemma BracketedNames(name: string, joined: string)
    requires '.' !in name && '<' !in name && '<' !in joined && '>' !in joined
    ensures AngleNest(name + "<" + joined + ">", 0) == Some(0)
    ensures SplitOnce(name + "<" + joined + ">", {'<'}) == Some((name, joined + ">"))
  {
    hide AngleNest;
    assert name + "<" + joined + ">" == name + ['<'] + (joined + ">");
    SplitOnceAt(name, '<', joined + ">", {'<'});
    AngleSteps();
    AngleNestPlain(name, 0);
    AngleNestPlain(joined, 1);
    AngleNestAppend(name, "<" + (joined + ">"), 0);
    AngleNestAppend("<", joined + ">", 0);
    AngleNestAppend(joined, ">", 1);
    assert name + "<" + joined + ">" == name + ("<" + (joined + ">"));
  }

  lemma AngleSteps()
    ensures AngleNest("<", 0) == Some(1) && AngleNest(">", 1) == Some(0)
  {
    assert "<"[1..] == "" && ">"[1..] == "";
  }

  lemma TrimAngle(joined: string)
    requires '>' !in joined
    ensures TrimEndAngles(joined + ">") == joined
  {
    assert (joined + ">")[..|joined|] == joined;
  }

  lemma CatalogStep(segments: seq<string>, names: seq<string>, next: nat)
    requires segments != []
    ensures var rest := CatalogSegments(segments[1..], names, next + SegmentArity(segments[0]));
            CatalogSegments(segments, names, next) == [CatalogSegment(segments[0], names, next)] + rest
  {
  }

  lemma NoSegments(names: seq<string>, next: nat)
    ensures CatalogSegments([], names, next) == [] && ClrSegments([]) == NormalSegments([])
  {
  }

  lemma ReadStep(first: string, rest: seq<string>, segments: seq<string>)
    requires segments != [] && ClrSegment(first) == NormalSegment(segments[0])
    requires ClrSegments(rest) == NormalSegments(segments[1..])
    ensures ClrSegments([first] + rest) == NormalSegments(segments)
  {
    hide ClrSegments, NormalSegments, ClrSegment, NormalSegment;
    FirstClr(first, rest);
    FirstNormal(segments);
  }

  lemma FirstClr(first: string, rest: seq<string>)
    ensures ClrSegments([first] + rest) == [ClrSegment(first)] + ClrSegments(rest)
  {
    hide ClrSegment;
  }

  lemma FirstNormal(segments: seq<string>)
    requires segments != []
    ensures NormalSegments(segments) == [NormalSegment(segments[0])] + NormalSegments(segments[1..])
  {
    hide NormalSegment;
  }

  lemma {:induction false} SegmentsReadBack(segments: seq<string>, names: seq<string>, next: nat)
    requires AreParamNames(names)
    requires forall s :: s in segments ==> '.' !in s && '<' !in s
    ensures forall p :: p in CatalogSegments(segments, names, next) ==> AngleNest(p, 0) == Some(0)
    ensures ClrSegments(CatalogSegments(segments, names, next)) == NormalSegments(segments)
    decreases |segments|
  {
    hide CatalogSegments, CatalogSegment, ClrSegments, NormalSegments, ClrSegment, NormalSegment, AngleNest, AreParamNames;
    if segments == [] {
      NoSegments(names, next);
    } else {
      assert segments[0] in segments;
      SegmentReadsBack(segments[0], names, next);
      var later := next + SegmentArity(segments[0]);
      SegmentsReadBack(segments[1..], names, later);
      CatalogStep(segments, names, next);
      ReadStep(CatalogSegment(segments[0], names, next), CatalogSegments(segments[1..], names, later), segments);
    }
  }

  lemma KeyReadsBack(clr: string, names: seq<string>)
    requires AreParamNames(names)
    requires forall s :: s in ClrParts(clr).1 ==> '.' !in s && '<' !in s
    ensures var (ns, ty) := CatalogTypeKey(clr, names);
            ClrTypeKey(ns, ty) == ns + "." + Join(NormalSegments(ClrParts(clr).1), "+")
  {
    var segments := ClrParts(clr).1;
    SegmentsReadBack(segments, names, 0);
    SegmentsJoin(CatalogSegments(segments, names, 0));
  }

  /** A namespaced name is its namespace, a dot and its segments. */
  lemma ClrRebuilt(clr: string)
    ensures var (ns, segments) := ClrParts(clr);
            && (forall s :: s in segments ==> '+' !in s)
            && '.' !in segments[0]
            && clr == (if '.' in SplitAll(clr, '+')[0] then ns + "." else "") + Join(segments, "+")
  {
    var raw := SplitAll(clr, '+');
    var (ns, segments) := ClrParts(clr);
    SplitAllJoins(clr, '+');
    assert raw[0] in raw;
    hide SplitAll, Join;
    if '.' in raw[0] {
      assert raw[1..] == segments[1..];
      JoinRegroup(ns + ".", raw, segments);
    } else {
      assert segments == raw;
      assert "" + Join(segments, "+") == Join(segments, "+");
    }
  }

  lemma JoinRegroup(front: string, whole: seq<string>, parts: seq<string>)
    requires whole != [] && parts != []
    requires whole[0] == front + parts[0] && whole[1..] == parts[1..]
    ensures Join(whole, "+") == front + Join(parts, "+")
  {
  }

  /** The text of a segment before its first bracket. */
  predicate DotFreeHead(segment: string) {
    '.' !in segment[..IndexOf(segment, {'<'})]
  }

  lemma {:induction false} SegmentHeads(s: string, depth: nat)
    ensures forall k :: 1 <= k < |Segments(s, depth)| ==> DotFreeHead(Segments(s, depth)[k])
    ensures depth == 0 ==> DotFreeHead(Segments(s, depth)[0])
    decreases |s|
  {
    if s != "" {
      if s[0] == '.' && depth == 0 {
        SegmentHeads(s[1..], depth);
        assert Segments(s, depth) == [""] + Segments(s[1..], depth);
      } else {
        var d := AngleDepth(s[0], depth);
        SegmentHeads(s[1..], d);
        var rest := Segments(s[1..], d);
        assert Segments(s, depth) == Prepend([s[0]], rest);
        if depth == 0 {
          HeadGrows(s[0], rest[0]);
        }
      }
    }
  }

  lemma HeadGrows(c: char, rest: string)
    requires c != '.' && (c != '<' ==> DotFreeHead(rest))
    ensures DotFreeHead([c] + rest)
  {
    assert ([c] + rest)[1..] == rest;
    if c != '<' {
      var i := IndexOf(rest, {'<'});
      assert ([c] + rest)[..i + 1] == [c] + rest[..i];
    }
  }

  lemma ClrSegmentIsClean(segment: string)
    requires DotFreeHead(segment)
    ensures '.' !in ClrSegment(segment) && '<' !in ClrSegment(segment)
  {
    hide SplitTopLevel, TrimEndAngles, Show;
    var i := IndexOf(segment, {'<'});
    HeadStopsAtLess(segment);
    if i < |segment| {
      WithArityIsClean(segment[..i], |SplitTopLevel(TrimEndAngles(segment[i + 1..]))|);
    }
  }

  lemma HeadStopsAtLess(segment: string)
    ensures var i := IndexOf(segment, {'<'});
            '<' !in segment[..i] && (i == |segment| ==> segment[..i] == segment)
  {
  }

  lemma WithArityIsClean(name: string, n: nat)
    requires '.' !in name && '<' !in name
    ensures '.' !in name + "`" + Show(n) && '<' !in name + "`" + Show(n)
  {
  }

  lemma JoinMembers(parts: seq<string>, sep: string, c: char)
    requires c !in sep
    ensures c in Join(parts, sep) <==> exists p :: p in parts && c in p
  {
    if parts != [] {
      JoinMembers(parts[1..], sep, c);
      assert parts == [parts[0]] + parts[1..];
    }
  }

  /** What follows the namespace in a printed CLR name has no dot and no angle bracket. */
  lemma PrintedBodyIsClean(ty: string)
    ensures '.' !in Join(ClrSegments(Segments(ty, 0)), "+")
    ensures '<' !in Join(ClrSegments(Segments(ty, 0)), "+")
  {
    hide Segments, ClrSegment, DotFreeHead;
    SegmentHeads(ty, 0);
    var printed := ClrSegments(Segments(ty, 0));
    forall p | p in printed
      ensures '.' !in p && '<' !in p
    {
      var k :| 0 <= k < |printed| && printed[k] == p;
      ClrSegmentIsClean(Segments(ty, 0)[k]);
    }
    JoinMembers(printed, "+", '.');
    JoinMembers(printed, "+", '<');
  }

  /**
   The CLR spelling comes back from the catalog's exactly when it is canonical: it has a
   namespace, no dot in a nested name, no `<`, and its arities are plain decimals.
   */
  lemma RoundTripExactly(clr: string, names: seq<string>)
    requires AreParamNames(names)
    ensures var (ns, ty) := CatalogTypeKey(clr, names);
            ClrTypeKey(ns, ty) == clr <==> IsCanonicalClr(clr)
  {
    if IsCanonicalClr(clr) {
      FromCanonical(clr, names);
    } else if ClrTypeKey(CatalogTypeKey(clr, names).0, CatalogTypeKey(clr, names).1) == clr {
      OnlyCanonical(clr, names);
    }
  }

  lemma FromCanonical(clr: string, names: seq<string>)
    requires AreParamNames(names) && IsCanonicalClr(clr)
    ensures var (ns, ty) := CatalogTypeKey(clr, names); ClrTypeKey(ns, ty) == clr
  {
    hide CatalogTypeKey, ClrTypeKey;
    var (ns, segments) := ClrParts(clr);
    assert ns == CatalogTypeKey(clr, names).0 by {
      NamespaceOf(clr, names);
    }
    hide ClrParts, SplitAll;
    forall s | s in segments
      ensures '.' !in s && '<' !in s && NormalSegment(s) == s
    {
      assert IsCanonicalSegment(s);
    }
    hide NormalSegment;
    ClrRebuilt(clr);
    KeyReadsBack(clr, names);
    NormalIsSame(segments);
  }

  lemma NamespaceOf(clr: string, names: seq<string>)
    ensures CatalogTypeKey(clr, names).0 == ClrParts(clr).0
  {
  }

  lemma NormalIsSame(segments: seq<string>)
    requires forall s :: s in segments ==> NormalSegment(s) == s
    ensures NormalSegments(segments) == segments
  {
    assert forall i :: 0 <= i < |segments| ==> segments[i] in segments;
  }

  lemma OnlyCanonical(clr: string, names: seq<string>)
    requires AreParamNames(names)
    requires var (ns, ty) := CatalogTypeKey(clr, names); ClrTypeKey(ns, ty) == clr
    ensures IsCanonicalClr(clr)
  {
    var ty := CatalogTypeKey(clr, names).1;
    var body := Join(ClrSegments(Segments(ty, 0)), "+");
    var (ns, segments) := ClrParts(clr);
    NamespaceOf(clr, names);
    assert clr == ns + "." + body;
    DotStaysOutside(clr, body);
    hide ClrParts, CatalogTypeKey, ClrTypeKey, Segments, ClrSegments;
    ClrRebuilt(clr);
    PrintedBodyIsClean(ty);
    assert body == Join(segments, "+") by {
      assert clr[|ns| + 1..] == body;
    }
    SegmentsAreClean(segments);
    KeyReadsBack(clr, names);
    assert body == Join(NormalSegments(segments), "+") by {
      assert clr[|ns| + 1..] == body;
    }
    SameSegments(segments);
  }

  lemma SegmentsAreClean(segments: seq<string>)
    requires '.' !in Join(segments, "+") && '<' !in Join(segments, "+")
    ensures forall s :: s in segments ==> '.' !in s && '<' !in s
  {
    JoinMembers(segments, "+", '.');
    JoinMembers(segments, "+", '<');
  }

  lemma SameSegments(segments: seq<string>)
    requires segments != []
    requires forall s :: s in segments ==> '+' !in s && '.' !in s && '<' !in s
    requires Join(segments, "+") == Join(NormalSegments(segments), "+")
    ensures forall s :: s in segments ==> IsCanonicalSegment(s)
  {
    hide Join;
    forall s | s in NormalSegments(segments)
      ensures '+' !in s
    {
      var i :| 0 <= i < |segments| && NormalSegments(segments)[i] == s;
      assert segments[i] in segments;
      NoPlus(segments[i]);
    }
    JoinInjective(segments, NormalSegments(segments), '+');
    forall s | s in segments
      ensures IsCanonicalSegment(s)
    {
      var i :| 0 <= i < |segments| && segments[i] == s;
      assert NormalSegments(segments)[i] == s;
    }
  }

  lemma NoPlus(segment: string)
    requires '+' !in segment
    ensures '+' !in NormalSegment(segment)
  {
  }

  /** A name that comes back has its namespace dot before any nested type. */
  lemma DotStaysOutside(clr: string, body: string)
    requires clr == ClrParts(clr).0 + "." + body
    ensures '.' in SplitAll(clr, '+')[0]
  {
    FirstPiece(clr);
  }

  lemma FirstPiece(clr: string)
    ensures clr != "" && clr[0] != '+' ==> SplitAll(clr, '+')[0] != "" && clr[0] in SplitAll(clr, '+')[0]
  {
    var split := SplitOnce(clr, {'+'});
    assert split.Some? && clr[0] != '+' ==> split.value.0[0] == clr[0];
  }

  /** Two CLR names with one catalog key are the same name. */
  lemma CatalogKeyInjective(a: string, b: string, namesA: seq<string>, namesB: seq<string>)
    requires AreParamNames(namesA) && AreParamNames(namesB)
    requires IsCanonicalClr(a) && IsCanonicalClr(b)
    requires CatalogTypeKey(a, namesA) == CatalogTypeKey(b, namesB)
    ensures a == b
  {
    RoundTripExactly(a, namesA);
    RoundTripExactly(b, namesB);
  }

  lemma EmptyNamespace(clr: string)
    requires '.' !in clr
    ensures CatalogTypeKey(clr, []).0 == ""
  {
    assert '.' !in SplitAll(clr, '+')[0];
  }

  /** A name without a namespace comes back with an empty one. */
  lemma NoNamespaceIsLost(clr: string)
    requires '.' !in clr
    ensures var (ns, ty) := CatalogTypeKey(clr, []); ns == "" && ClrTypeKey(ns, ty) != clr
  {
    EmptyNamespace(clr);
    hide CatalogTypeKey, ClrTypeKey;
    RoundTripExactly(clr, []);
    assert '.' !in SplitAll(clr, '+')[0];
  }
}
