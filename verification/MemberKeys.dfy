/** Telling overloads apart: the shape of a member key, and the search for one like it in the .NET inventory. */
module MemberKeys {
  import opened Wrappers
  import opened Text
  import opened TopLevel
  import opened ParameterTypes
  import opened TypeKeys

  /** The wildcard token, for a generic parameter without a known name. */
  const ANY := "!?"

  type Tokens = seq<string>

  datatype Shape = Shape(name: string, generics: seq<string>, params: Option<seq<Tokens>>)

  function StripSuffix(s: string, c: char): string {
    if s != "" && s[|s| - 1] == c then s[..|s| - 1] else s
  }

  function TrimAll(parts: seq<string>): (r: seq<string>)
    ensures |r| == |parts|
    ensures forall i :: 0 <= i < |r| ==> r[i] == Trim(parts[i])
  {
    seq(|parts|, i requires 0 <= i < |parts| => Trim(parts[i]))
  }

  function AllParameterTokens(parts: seq<string>): (r: seq<Tokens>)
    ensures |r| == |parts|
    ensures forall i :: 0 <= i < |r| ==> r[i] == ParameterTokens(parts[i])
  {
    seq(|parts|, i requires 0 <= i < |parts| => ParameterTokens(parts[i]))
  }

  /** `!!0`, `!!1`, … */
  function MethodPlaceholders(arity: nat): (r: seq<string>)
    ensures |r| == arity
    ensures forall i :: 0 <= i < arity ==> r[i] == "!!" + Show(i)
  {
    if arity == 0 then [] else MethodPlaceholders(arity - 1) + ["!!" + Show(arity - 1)]
  }

  function ParameterList(rest: string): seq<Tokens> {
    AllParameterTokens(SplitTopLevel(StripSuffix(rest, ')')))
  }

  /** A member's name without its generic parameters, and those parameters. */
  function NameAndGenerics(name: string): (string, seq<string>) {
    var i := Find(name, "``");
    if i < |name| then (name[..i], MethodPlaceholders(ArityOf(name[i + 2..])))
    else
      match SplitOnce(name, {'<'})
      case Some((base, args)) => (base, TrimAll(SplitTopLevel(StripSuffix(args, '>'))))
      case None => (name, [])
  }

  function MemberShape(key: string): Shape {
    var head := key[..Find(key, " -> ")];
    var (name, params) := match SplitOnce(head, {'('})
      case Some((name, rest)) => (name, Some(ParameterList(rest)))
      case None => (head, None);
    var (base, generics) := NameAndGenerics(Trim(name));
    Shape(Trim(base), generics, params)
  }

  // --- a type key's generic parameters ----------------------------------------

  /** Where the bracket group that `s` continues from depth `depth` closes, or `|s|`. */
  function GroupEnd(s: string, depth: int): (i: nat)
    ensures i <= |s|
  {
    if s == "" then 0
    else
      var d := if s[0] == '<' then depth + 1 else if s[0] == '>' then depth - 1 else depth;
      if d == 0 then 0 else 1 + GroupEnd(s[1..], d)
  }

  /** The names in every bracket group of a type key, in the order they stand. */
  function TypeGenerics(ty: string): seq<string>
    decreases |ty|
  {
    match SplitOnce(ty, {'<'})
    case None => []
    case Some((_, after)) =>
      var end := GroupEnd(after, 1);
      TrimAll(SplitTopLevel(after[..end])) + TypeGenerics(after[end..])
  }

  method ComputeTypeGenerics(ty: string) returns (out: seq<string>)
    ensures out == TypeGenerics(ty)
  {
    hide TypeGenerics, SplitTopLevel, TrimAll;
    out := [];
    var rest := ty;
    while true
      invariant out + TypeGenerics(rest) == TypeGenerics(ty)
      decreases |rest|
    {
      TypeGenericsStep(rest);
      var split := SplitOnce(rest, {'<'});
      if split.None? {
        break;
      }
      var after := split.value.1;
      var end := FindGroupEnd(after);
      var names := SplitList(after[..end]);
      out := out + TrimAll(names);
      rest := after[end..];
    }
  }

  lemma TypeGenericsStep(ty: string)
    ensures TypeGenerics(ty) ==
            match SplitOnce(ty, {'<'})
            case None => []
            case Some((_, after)) =>
              TrimAll(SplitTopLevel(after[..GroupEnd(after, 1)])) + TypeGenerics(after[GroupEnd(after, 1)..])
  {
  }

  method FindGroupEnd(after: string) returns (end: nat)
    ensures end == GroupEnd(after, 1)
  {
    var depth: int := 1;
    end := 0;
    assert after[0..] == after;
    while end < |after|
      invariant end <= |after|
      invariant end + GroupEnd(after[end..], depth) == GroupEnd(after, 1)
    {
      if after[end] == '<' {
        depth := depth + 1;
      } else if after[end] == '>' {
        depth := depth - 1;
      }
      if depth == 0 {
        return;
      }
      assert after[end..][1..] == after[end + 1..];
      end := end + 1;
    }
  }

  // --- binding placeholders -----------------------------------------------------

  /** What one token of a CLR parameter becomes once its placeholder is named. */
  function BindToken(token: string, ofMethod: seq<string>, ofType: seq<string>): Tokens {
    if "!!" <= token then
      match ParseNat(token[2..])
      case Some(n) => if n < |ofMethod| then ParameterTokens(ofMethod[n]) else [token]
      case None => [token]
    else if "!" <= token then
      match ParseNat(token[1..])
      case Some(n) => if n < |ofType| then ParameterTokens(ofType[n]) else [ANY]
      case None => [ANY]
    else [token]
  }

  function BindTokens(tokens: Tokens, ofMethod: seq<string>, ofType: seq<string>): Tokens {
    if tokens == [] then []
    else BindToken(tokens[0], ofMethod, ofType) + BindTokens(tokens[1..], ofMethod, ofType)
  }

  function BindPlaceholders(params: seq<Tokens>, ofMethod: seq<string>, ofType: seq<string>): (r: seq<Tokens>)
    ensures |r| == |params|
    ensures forall i :: 0 <= i < |r| ==> r[i] == BindTokens(params[i], ofMethod, ofType)
  {
    seq(|params|, i requires 0 <= i < |params| => BindTokens(params[i], ofMethod, ofType))
  }

  predicate SameToken(s: string, t: string) {
    s == t || s == ANY || t == ANY
  }

  predicate SameType(x: Tokens, y: Tokens) {
    |x| == |y| && forall i :: 0 <= i < |x| ==> SameToken(x[i], y[i])
  }

  predicate SameParameters(a: seq<Tokens>, b: seq<Tokens>) {
    |a| == |b| && forall i :: 0 <= i < |a| ==> SameType(a[i], b[i])
  }

  // --- the lookup -----------------------------------------------------------------

  /** Member keys by CLR type and group. */
  type Inventory = map<string, map<string, set<string>>>

  predicate Matches(want: Shape, key: string, ofType: seq<string>) {
    var have := MemberShape(key);
    && have.name == want.name
    && |have.generics| == |want.generics|
    && (want.params.Some? && have.params.Some? ==>
          SameParameters(want.params.value, BindPlaceholders(have.params.value, want.generics, ofType)))
  }

  function WantedShape(group: string, member: string): Shape {
    var want := MemberShape(member);
    if group == "constructors" then want.(name := ".ctor") else want
  }

  predicate ResolvesInInventory(inventory: Inventory, ns: string, ty: string, group: string, member: string) {
    var clr := ClrTypeKey(ns, ty);
    && clr in inventory
    && (group == "type" ||
        (group in inventory[clr] &&
         exists k :: k in inventory[clr][group] && Matches(WantedShape(group, member), k, TypeGenerics(ty))))
  }
}
