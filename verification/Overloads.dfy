/**
 What a member lookup means: a source key resolves exactly when the inventory holds a
 member of the same name and generic arity and, where both list parameters, of the same
 erased parameter types.
 */
module Overloads {
  import opened Wrappers
  import opened Text
  import opened TopLevel
  import opened ParameterTypes
  import opened ParameterSpellings
  import opened TypeKeys
  import opened MemberKeys

  /** A method as the ledger's key spells it. */
  datatype Signature = Signature(name: string, generics: seq<string>, params: seq<Param>)

  /** A method of the inventory; `result` is empty or ` -> ` and the return type. */
  datatype Declaration = Declaration(name: string, arity: nat, params: seq<Param>, result: string)

  predicate IsMemberName(s: string) {
    s != "" && forall c :: c in s ==> IsWordChar(c) || c == '.'
  }

  /** The generic names a source key binds: its own and its type's. */
  function Names(s: Signature, ofType: seq<string>): Generics {
    Generics(s.generics, ofType)
  }

  predicate ValidParams(params: seq<Param>, g: Generics) {
    forall p :: p in params ==> ValidParam(p, g)
  }

  predicate PlainGenerics(g: Generics) {
    && |g.ofMethod| <= USIZE_MAX && |g.ofType| <= USIZE_MAX
    && (forall n :: n in g.ofMethod ==> IsPlainName(n))
    && (forall n :: n in g.ofType ==> IsPlainName(n))
  }

  predicate ValidSignature(s: Signature, ofType: seq<string>) {
    IsMemberName(s.name) && PlainGenerics(Names(s, ofType)) && ValidParams(s.params, Names(s, ofType))
  }

  predicate ValidDeclaration(d: Declaration, typeArity: nat) {
    && IsMemberName(d.name) && d.arity <= USIZE_MAX
    && ValidParams(d.params, Placeholders(d.arity, typeArity))
    && (d.result == "" || " -> " <= d.result)
  }

  function SpellParams(params: seq<Param>, style: Style, g: Generics): (r: seq<string>)
    requires ValidParams(params, g)
    ensures |r| == |params|
    ensures forall i :: 0 <= i < |r| ==> r[i] == SpellParam(params[i], style, g)
  {
    seq(|params|, i requires 0 <= i < |params| => SpellParam(params[i], style, g))
  }

  function ParamsTokens(params: seq<Param>, g: Generics): (r: seq<Tokens>)
    requires ValidParams(params, g)
    ensures |r| == |params|
    ensures forall i :: 0 <= i < |r| ==> r[i] == ParamTokens(params[i], g)
  {
    seq(|params|, i requires 0 <= i < |params| => ParamTokens(params[i], g))
  }

  function SourceName(s: Signature): string {
    s.name + if s.generics == [] then "" else "<" + Join(s.generics, ", ") + ">"
  }

  /** `RunAsync<T>(string, AgentSession)` */
  function SourceKey(s: Signature, ofType: seq<string>): string
    requires ValidSignature(s, ofType)
  {
    SourceName(s) + "(" + Join(SpellParams(s.params, Source, Names(s, ofType)), ", ") + ")"
  }

  function ClrName(d: Declaration): string {
    d.name + if d.arity == 0 then "" else "``" + Show(d.arity)
  }

  /** ``RunAsync`1(System.String,N.AgentSession) -> !!0``, with two backticks. */
  function ClrKey(d: Declaration, typeArity: nat): string
    requires ValidDeclaration(d, typeArity)
  {
    ClrName(d) + "(" + Join(SpellParams(d.params, Clr, Placeholders(d.arity, typeArity)), ",") + ")" + d.result
  }

  // --- a printed list of parameters reads back ----------------------------------

  lemma {:induction false} SpellNests(t: Type, style: Style, g: Generics, depth: nat)
    requires ValidType(t, g) && ValidGenerics(g)
    ensures Nest(Spell(t, style, g), depth) == Some(depth)
    decreases t
  {
    hide Nest, CSharpWord, RuntimeName;
    match t
    case Named(_, _, _, args) =>
      if args != [] {
        SpellAllNests(args, style, g, depth + 1);
      }
      NamedNests(t, style, g, depth);
    case Keyword(p) =>
      KeywordNames(p);
      HeadNests(CSharpWord(p), depth);
      HeadNests(RuntimeName(p), depth);
      NestPlain("System.", depth);
      NestAppend("System.", RuntimeName(p), depth);
    case MethodParam(i) => HeadNests(g.ofMethod[i], depth);
    case TypeParam(i) => HeadNests(g.ofType[i], depth);
    case Nullable(elem, form) =>
      SpellNests(elem, style, g, if Wraps(form, style) then depth + 1 else depth);
      NullableNests(t, style, g, depth);
    case ArrayOf(elem) =>
      SpellNests(elem, style, g, depth);
      ArrayNests(Spell(elem, style, g), depth);
  }

  lemma HeadNests(head: string, depth: nat)
    requires IsHead(head) || IsIdentifier(head)
    ensures Nest(head, depth) == Some(depth)
  {
    hide Nest, CSharpWord, RuntimeName;
    NestPlain(head, depth);
  }

  lemma NamedNests(t: Type, style: Style, g: Generics, depth: nat)
    requires t.Named? && ValidType(t, g)
    requires t.args != [] ==> Nest(SpellAll(t.args, style, g), depth + 1) == Some(depth + 1)
    ensures Nest(Spell(t, style, g), depth) == Some(depth)
  {
    hide Nest, CSharpWord, RuntimeName, Spell;
    var before := (if style == Source then t.sourceQualifier else t.clrQualifier) + t.name
      + if style == Clr && t.args != [] then "`" + Show(|t.args|) else "";
    SpellNamed(t, style, g, before);
    NestPlain(before, depth);
    if t.args != [] {
      NestBrackets(before, '<', SpellAll(t.args, style, g), '>', depth);
    }
  }

  lemma NullableNests(t: Type, style: Style, g: Generics, depth: nat)
    requires t.Nullable? && ValidType(t, g)
    requires var inside := if Wraps(t.form, style) then depth + 1 else depth;
             Nest(Spell(t.elem, style, g), inside) == Some(inside)
    ensures Nest(Spell(t, style, g), depth) == Some(depth)
  {
    hide Nest, Spell;
    SpellNullable(t, style, g);
    var s := Spell(t.elem, style, g);
    if Wraps(t.form, style) {
      NestPlain(WrapperName(style), depth);
      NestBrackets(WrapperName(style), '<', s, '>', depth);
    } else {
      var mark := if style == Source then "?" else "";
      NestPlain(mark, depth);
      NestAppend(s, mark, depth);
    }
  }

  lemma ArrayNests(elem: string, depth: nat)
    requires Nest(elem, depth) == Some(depth)
    ensures Nest(elem + "[]", depth) == Some(depth)
  {
    hide Nest;
    NestPlain("", depth + 1);
    NestBrackets(elem, '[', "", ']', depth);
    assert elem + ['['] + "" + [']'] == elem + "[]";
  }

  lemma {:induction false} SpellAllNests(ts: seq<Type>, style: Style, g: Generics, depth: nat)
    requires (forall t :: t in ts ==> ValidType(t, g)) && ValidGenerics(g) && depth > 0
    ensures Nest(SpellAll(ts, style, g), depth) == Some(depth)
    decreases ts
  {
    hide Nest;
    if ts == [] {
      NestPlain("", depth);
    } else {
      SpellNests(ts[0], style, g, depth);
      if |ts| > 1 {
        SpellAllNests(ts[1..], style, g, depth);
        NestAppend(Spell(ts[0], style, g), Comma(style), depth);
        NestAppend(Spell(ts[0], style, g) + Comma(style), SpellAll(ts[1..], style, g), depth);
        NestComma(style, depth);
      }
    }
  }

  lemma NestComma(style: Style, depth: nat)
    requires depth > 0
    ensures Nest(Comma(style), depth) == Some(depth)
  {
    assert Comma(style)[1..] == if style == Source then " " else "";
    NestPlain(Comma(style)[1..], depth);
  }

  lemma NestBrackets(before: string, open: char, inside: string, close: char, depth: nat)
    requires (open, close) in {('<', '>'), ('(', ')'), ('[', ']')}
    requires Nest(before, depth) == Some(depth)
    requires Nest(inside, depth + 1) == Some(depth + 1)
    ensures Nest(before + [open] + inside + [close], depth) == Some(depth)
  {
    NestOne(open, depth);
    NestOne(close, depth + 1);
    hide Nest;
    NestAppend(before, [open], depth);
    NestAppend(before + [open], inside, depth);
    NestAppend(before + [open] + inside, [close], depth);
  }

  lemma NestOne(c: char, depth: nat)
    requires c != ','
    ensures Nest([c], depth) == Some(Deeper(c, depth))
  {
    assert [c][1..] == "";
  }

  lemma ParamIsEntry(p: Param, style: Style, g: Generics)
    requires ValidParam(p, g) && ValidGenerics(g)
    ensures IsEntry(SpellParam(p, style, g))
  {
    hide Nest;
    SpellNests(p.ty, style, g, 0);
    if style == Source {
      ModifiersNest(p.modifiers);
      NestAppend(SpellModifiers(p.modifiers), Spell(p.ty, style, g), 0);
    } else {
      var mark := if IsByRef(p) then "&" else "";
      NestPlain(mark, 0);
      NestAppend(Spell(p.ty, style, g), mark, 0);
    }
  }

  lemma {:induction false} ModifiersNest(ms: seq<Modifier>)
    ensures Nest(SpellModifiers(ms), 0) == Some(0)
  {
    hide Nest, ModifierWord;
    if ms == [] {
      NestPlain("", 0);
    } else {
      ModifiersNest(ms[1..]);
      WordNests(ms[0]);
      NestAppend(ModifierWord(ms[0]) + " ", SpellModifiers(ms[1..]), 0);
    }
  }

  lemma WordNests(m: Modifier)
    ensures Nest(ModifierWord(m) + " ", 0) == Some(0)
  {
    NestPlain(ModifierWord(m) + " ", 0);
  }

  lemma PaddedTokens(p: Param, style: Style, g: Generics, pad: string)
    requires ValidParam(p, g) && ValidGenerics(g) && pad in {"", " "}
    ensures ParameterTokens(pad + SpellParam(p, style, g)) == ParamTokens(p, g)
  {
    hide SpellParam, ParamTokens;
    SpellingTokens(p, style, g);
    SameTrim(pad, SpellParam(p, style, g));
  }

  lemma SameTrim(pad: string, s: string)
    requires Trimmed(s) && pad in {"", " "}
    ensures ParameterTokens(pad + s) == ParameterTokens(s)
  {
    hide Trim, Trimmed, StripModifiers, Tokenize, EraseNullable;
    TrimPadded(pad, s);
    TrimPadded("", s);
    assert "" + s == s;
  }

  lemma ListReadsBack(params: seq<Param>, style: Style, g: Generics)
    requires ValidParams(params, g) && ValidGenerics(g)
    ensures ParameterList(Join(SpellParams(params, style, g), Comma(style)) + ")") == ParamsTokens(params, g)
  {
    hide ParameterTokens, SpellParam, ParamTokens, SplitTopLevel, IsEntry, Join, Trim;
    var entries := SpellParams(params, style, g);
    var list := Join(entries, Comma(style));
    var pad := if style == Source then " " else "";
    assert Comma(style) == "," + pad;
    StripClose(list);
    if params == [] {
      EmptyList(Comma(style));
    } else {
      ListNotBlank(params, style, g);
      forall e | e in entries
        ensures IsEntry(e)
      {
        var i :| 0 <= i < |entries| && entries[i] == e;
        assert params[i] in params;
        ParamIsEntry(params[i], style, g);
      }
      SplitJoin(entries, pad);
      PiecesTokens(params, style, g, pad);
    }
  }

  lemma EmptyList(sep: string)
    ensures SplitTopLevel(Join([], sep)) == []
  {
  }

  lemma StripClose(list: string)
    ensures StripSuffix(list + ")", ')') == list
  {
    assert (list + ")")[..|list|] == list;
  }

  lemma ListNotBlank(params: seq<Param>, style: Style, g: Generics)
    requires params != [] && ValidParams(params, g) && ValidGenerics(g)
    ensures Trim(Join(SpellParams(params, style, g), Comma(style))) != ""
  {
    hide Trim, SpellParam, Trimmed, Join;
    var entries := SpellParams(params, style, g);
    assert params[0] in params;
    SpellingTokens(params[0], style, g);
    FirstNotBlank(entries[0], JoinFirst(entries, Comma(style)));
  }

  /** What joining puts after the first entry. */
  function JoinFirst(entries: seq<string>, sep: string): (rest: string)
    requires entries != []
    ensures Join(entries, sep) == entries[0] + rest
  {
    if |entries| == 1 then "" else sep + Join(entries[1..], sep)
  }

  lemma FirstNotBlank(first: string, rest: string)
    requires Trimmed(first) && first != ""
    ensures Trim(first + rest) != ""
  {
    NotBlank(first + rest);
  }

  lemma PiecesTokens(params: seq<Param>, style: Style, g: Generics, pad: string)
    requires params != [] && ValidParams(params, g) && ValidGenerics(g) && pad in {"", " "}
    ensures var entries := SpellParams(params, style, g);
            AllParameterTokens([entries[0]] + Padded(pad, entries[1..])) == ParamsTokens(params, g)
  {
    hide ParameterTokens, SpellParam, ParamTokens, ValidParam, ValidGenerics;
    var entries := SpellParams(params, style, g);
    var pieces := [entries[0]] + Padded(pad, entries[1..]);
    forall i | 0 <= i < |params|
      ensures ParameterTokens(pieces[i]) == ParamTokens(params[i], g)
    {
      assert params[i] in params;
      if i == 0 {
        PaddedTokens(params[0], style, g, "");
        assert "" + entries[0] == entries[0];
      } else {
        assert pieces[i] == pad + entries[i];
        PaddedTokens(params[i], style, g, pad);
      }
    }
  }

  // --- a printed key reads back ---------------------------------------------------

  lemma NoDash(params: seq<Param>, style: Style, g: Generics)
    requires ValidParams(params, g) && ValidGenerics(g)
    ensures '-' !in Join(SpellParams(params, style, g), Comma(style))
  {
    var entries := SpellParams(params, style, g);
    forall e | e in entries
      ensures '-' !in e
    {
      var i :| 0 <= i < |entries| && entries[i] == e;
      assert params[i] in params;
      ParamNoDash(params[i], style, g);
    }
    JoinMembers(entries, Comma(style), '-');
  }

  lemma ParamNoDash(p: Param, style: Style, g: Generics)
    requires ValidParam(p, g) && ValidGenerics(g)
    ensures '-' !in SpellParam(p, style, g)
  {
    hide Spell;
    SpellingChars(p.ty, style, g);
    ModifiersNoDash(p.modifiers);
  }

  lemma WordNoDash(m: Modifier)
    ensures '-' !in ModifierWord(m)
  {
  }

  lemma {:induction false} ModifiersNoDash(ms: seq<Modifier>)
    ensures '-' !in SpellModifiers(ms)
  {
    if ms != [] {
      hide ModifierWord;
      WordNoDash(ms[0]);
      ModifiersNoDash(ms[1..]);
    }
  }

  /** Everything before ` -> ` is the key's head. */
  lemma HeadOf(head: string, result: string)
    requires '-' !in head && (result == "" || " -> " <= result)
    ensures (head + result)[..Find(head + result, " -> ")] == head
  {
    var key := head + result;
    forall k | 0 <= k < |head|
      ensures !OccursAt(key, " -> ", k)
    {
      OccursChar(key, " -> ", k, 1);
      assert k + 1 < |head| ==> key[k + 1] in head;
      assert result != "" ==> key[|head|] == result[0] == ' ';
    }
    assert result != "" ==> key[|head|..|head| + 4] == result[..4] == " -> ";
    FindIs(key, " -> ", |head|);
  }

  lemma ShapeOf(name: string, list: string, result: string)
    requires '-' !in name && '(' !in name && '-' !in list
    requires result == "" || " -> " <= result
    ensures MemberShape(name + "(" + list + ")" + result)
         == Shape(Trim(NameAndGenerics(Trim(name)).0), NameAndGenerics(Trim(name)).1, Some(ParameterList(list + ")")))
  {
    hide NameAndGenerics, ParameterList, Trim;
    var head := name + "(" + list + ")";
    HeadOf(head, result);
    assert head == name + ['('] + (list + ")");
    SplitOnceAt(name, '(', list + ")", {'('});
  }

  lemma TrimmedName(name: string)
    requires IsMemberName(name)
    ensures Trim(name) == name
  {
    assert name[0] in name && name[|name| - 1] in name;
    TrimPadded("", name);
    assert "" + name == name;
  }

  lemma SourceShape(s: Signature, ofType: seq<string>)
    requires ValidSignature(s, ofType)
    ensures MemberShape(SourceKey(s, ofType))
         == Shape(s.name, s.generics, Some(ParamsTokens(s.params, Names(s, ofType))))
  {
    var g := Names(s, ofType);
    var list := Join(SpellParams(s.params, Source, g), ", ");
    SourceNameChars(s);
    NoDash(s.params, Source, g);
    ListReadsBack(s.params, Source, g);
    SourceNameReadsBack(s);
    hide MemberShape, SourceName, ParameterList, Join, NameAndGenerics, Trim;
    ShapeOf(SourceName(s), list, "");
    TrimmedName(s.name);
    assert SourceName(s) + "(" + list + ")" + "" == SourceKey(s, ofType);
  }

  lemma SourceNameChars(s: Signature)
    requires IsMemberName(s.name) && forall n :: n in s.generics ==> IsPlainName(n)
    ensures '-' !in SourceName(s) && '(' !in SourceName(s) && '`' !in SourceName(s)
  {
    JoinMembers(s.generics, ", ", '-');
    JoinMembers(s.generics, ", ", '(');
    JoinMembers(s.generics, ", ", '`');
  }

  lemma PlainNamesAreParamNames(names: seq<string>)
    requires forall n :: n in names ==> IsPlainName(n)
    ensures AreParamNames(names)
  {
    hide CSharpWord, RuntimeName;
  }

  lemma SourceNameReadsBack(s: Signature)
    requires IsMemberName(s.name) && forall n :: n in s.generics ==> IsPlainName(n)
    ensures NameAndGenerics(Trim(SourceName(s))) == (s.name, s.generics)
  {
    hide Join, CSharpWord, RuntimeName, Trim, TrimAll, StripSuffix, SplitTopLevel, Find, SplitOnce, NameAndGenerics, IsPlainName;
    SourceNameChars(s);
    SourceNameTrims(s);
    if s.generics == [] {
      assert s.name + "" == s.name;
      PlainNameReads(s.name);
    } else {
      GenericsReadBack(s.generics);
      var args := Join(s.generics, ", ");
      assert SourceName(s) == s.name + ['<'] + (args + ">");
      BracketedNameReads(s.name, args + ">");
    }
  }

  lemma PlainNameReads(name: string)
    requires '`' !in name && forall c :: c in name ==> c != '<'
    ensures NameAndGenerics(name) == (name, [])
  {
    hide Find, SplitOnce;
    FindAfter(name, "", "``");
    assert name + "" == name;
  }

  lemma BracketedNameReads(name: string, args: string)
    requires '`' !in name + ['<'] + args && '<' !in name
    ensures NameAndGenerics(name + ['<'] + args) == (name, TrimAll(SplitTopLevel(StripSuffix(args, '>'))))
  {
    hide Find, SplitOnce, TrimAll, SplitTopLevel, StripSuffix;
    var all := name + ['<'] + args;
    FindAfter(all, "", "``");
    assert all + "" == all;
    SplitOnceAt(name, '<', args, {'<'});
  }

  lemma SourceNameTrims(s: Signature)
    requires IsMemberName(s.name)
    ensures Trim(SourceName(s)) == SourceName(s)
  {
    hide Trim, Join;
    assert s.name[0] in s.name && s.name[|s.name| - 1] in s.name;
    TrimPadded("", SourceName(s));
    assert "" + SourceName(s) == SourceName(s);
  }

  lemma GenericsReadBack(generics: seq<string>)
    requires generics != [] && forall n :: n in generics ==> IsPlainName(n)
    ensures TrimAll(SplitTopLevel(StripSuffix(Join(generics, ", ") + ">", '>'))) == generics
  {
    PlainNamesAreParamNames(generics);
    TrimmedNames(generics);
    hide Join, SplitTopLevel;
    var args := Join(generics, ", ");
    assert (args + ">")[..|args|] == args;
  }

  /** Splitting joined parameter names and trimming each gives the names back. */
  lemma TrimmedNames(names: seq<string>)
    requires AreParamNames(names)
    ensures TrimAll(SplitTopLevel(Join(names, ", "))) == names
  {
    hide Join, SplitTopLevel, Trim;
    JoinedNames(names);
    if names == [] {
      assert TrimAll([]) == [];
    } else {
      var pieces := [names[0]] + Padded(" ", names[1..]);
      forall i | 0 <= i < |names|
        ensures Trim(pieces[i]) == names[i]
      {
        assert names[i] in names;
        assert pieces[i] == (if i == 0 then "" else " ") + names[i];
        TrimmedParamName(names[i], if i == 0 then "" else " ");
      }
    }
  }

  lemma TrimmedParamName(name: string, pad: string)
    requires IsParamName(name) && pad in {"", " "}
    ensures Trim(pad + name) == name
  {
    assert name[0] in name && name[|name| - 1] in name;
    TrimPadded(pad, name);
  }

  lemma ClrShape(d: Declaration, typeArity: nat)
    requires ValidDeclaration(d, typeArity)
    ensures MemberShape(ClrKey(d, typeArity)) == Shape(d.name, MethodPlaceholders(d.arity),
              Some(ParamsTokens(d.params, Placeholders(d.arity, typeArity))))
  {
    var g := Placeholders(d.arity, typeArity);
    var list := Join(SpellParams(d.params, Clr, g), ",");
    NoDash(d.params, Clr, g);
    ListReadsBack(d.params, Clr, g);
    ClrNameReadsBack(d);
    ClrNameChars(d);
    hide MemberShape, ParameterList, Join, NameAndGenerics, Trim;
    ShapeOf(ClrName(d), list, d.result);
    TrimmedName(d.name);
  }

  lemma ClrNameChars(d: Declaration)
    requires IsMemberName(d.name)
    ensures '-' !in ClrName(d) && '(' !in ClrName(d) && '<' !in ClrName(d)
  {
  }

  lemma ClrNameReadsBack(d: Declaration)
    requires IsMemberName(d.name) && d.arity <= USIZE_MAX
    ensures NameAndGenerics(Trim(ClrName(d))) == (d.name, MethodPlaceholders(d.arity))
  {
    hide Trim, MethodPlaceholders, ArityOf, NameAndGenerics, Show;
    ClrNameChars(d);
    ClrNameTrims(d);
    if d.arity == 0 {
      assert d.name + "" == d.name;
      NameAlone(d.name);
    } else {
      NameWithArity(d.name, Show(d.arity));
      assert ClrName(d) == d.name + "``" + Show(d.arity);
      ArityShown(d.arity);
    }
  }

  lemma NameAlone(name: string)
    requires '`' !in name && '<' !in name
    ensures NameAndGenerics(name) == (name, MethodPlaceholders(0))
  {
    FindAfter(name, "", "``");
    assert name + "" == name;
  }

  lemma NameWithArity(name: string, digits: string)
    requires '`' !in name
    ensures NameAndGenerics(name + "``" + digits) == (name, MethodPlaceholders(ArityOf(digits)))
  {
    hide MethodPlaceholders, ArityOf;
    var whole := name + "``" + digits;
    assert whole == name + ("``" + digits);
    FindAfter(name, "``" + digits, "``");
    assert whole[..|name|] == name && whole[|name| + 2..] == digits;
  }

  lemma ArityShown(n: nat)
    requires n <= USIZE_MAX
    ensures ArityOf(Show(n)) == n
  {
    ParseShow(n);
  }

  lemma ClrNameTrims(d: Declaration)
    requires IsMemberName(d.name)
    ensures Trim(ClrName(d)) == ClrName(d)
  {
    hide Trim;
    var arity := Show(d.arity);
    assert d.name[0] in d.name && d.name[|d.name| - 1] in d.name && arity[|arity| - 1] in arity;
    TrimPadded("", ClrName(d));
    assert "" + ClrName(d) == ClrName(d);
  }

  // --- binding placeholders --------------------------------------------------------

  lemma {:induction false} BindAppend(a: Tokens, b: Tokens, ofMethod: seq<string>, ofType: seq<string>)
    ensures BindTokens(a + b, ofMethod, ofType) == BindTokens(a, ofMethod, ofType) + BindTokens(b, ofMethod, ofType)
    decreases |a|
  {
    if a == [] {
      assert a + b == b;
    } else {
      assert (a + b)[1..] == a[1..] + b;
      BindAppend(a[1..], b, ofMethod, ofType);
    }
  }

  predicate IsBound(token: string) {
    token != "" && token[0] != '!'
  }

  lemma BindOther(token: string, ofMethod: seq<string>, ofType: seq<string>)
    requires IsBound(token)
    ensures BindToken(token, ofMethod, ofType) == [token]
  {
  }

  /** Tokens that are no placeholder stay as they are. */
  lemma {:induction false} BindOthers(tokens: Tokens, ofMethod: seq<string>, ofType: seq<string>)
    requires forall t :: t in tokens ==> IsBound(t)
    ensures BindTokens(tokens, ofMethod, ofType) == tokens
  {
    hide BindToken, IsBound;
    if tokens != [] {
      BindOther(tokens[0], ofMethod, ofType);
      BindOthers(tokens[1..], ofMethod, ofType);
    }
  }

  lemma PlainNameTokens(name: string)
    requires IsPlainName(name)
    ensures ParameterTokens(name) == [name]
  {
    hide ParameterTokens, PlainTokens, CSharpWord, RuntimeName;
    var g := Generics([name], []);
    var p := Param([], MethodParam(0));
    SpellingTokens(p, Source, g);
    HeadTokens(name);
    assert SpellParam(p, Source, g) == "" + name == name;
    assert ParamTokens(p, g) == [] + [name] == [name];
  }

  /** A placeholder becomes the name it stands for. */
  lemma BindHead(i: nat, g: Generics)
    requires PlainGenerics(g)
    ensures i < |g.ofMethod| ==> BindToken("!!" + Show(i), g.ofMethod, g.ofType) == [g.ofMethod[i]]
    ensures i < |g.ofType| ==> BindToken("!" + Show(i), g.ofMethod, g.ofType) == [g.ofType[i]]
  {
    hide ParameterTokens;
    var digits := Show(i);
    assert ("!!" + digits)[2..] == digits && ("!" + digits)[1..] == digits;
    assert digits[0] in digits && ("!" + digits)[1] == digits[0];
    if i < |g.ofMethod| {
      ParseShow(i);
      assert g.ofMethod[i] in g.ofMethod;
      PlainNameTokens(g.ofMethod[i]);
    }
    if i < |g.ofType| {
      ParseShow(i);
      assert g.ofType[i] in g.ofType;
      PlainNameTokens(g.ofType[i]);
    }
  }

  lemma {:induction false} BindPlain(t: Type, g: Generics)
    requires PlainGenerics(g)
    requires ValidType(t, g) && ValidType(t, Placeholders(|g.ofMethod|, |g.ofType|))
    ensures BindTokens(PlainTokens(Erase(t, Placeholders(|g.ofMethod|, |g.ofType|))), g.ofMethod, g.ofType)
         == PlainTokens(Erase(t, g))
    decreases t
  {
    hide PlainTokens, BindTokens, CSharpWord, RuntimeName;
    var holes := Placeholders(|g.ofMethod|, |g.ofType|);
    match t
    case Named(_, _, name, args) =>
      BindAll(args, g);
      NamedTokens(name, EraseAll(args, holes));
      NamedTokens(name, EraseAll(args, g));
      BindNamed(name, PlainList(EraseAll(args, holes)), args != [], g);
    case Keyword(p) =>
      KeywordNames(p);
      BindName(RuntimeName(p), g);
      HeadTokens(RuntimeName(p));
    case MethodParam(i) =>
      BindHead(i, g);
      BindOne("!!" + Show(i), g);
      HeadTokens("!!" + Show(i));
      HeadTokens(g.ofMethod[i]);
    case TypeParam(i) =>
      BindHead(i, g);
      BindOne("!" + Show(i), g);
      HeadTokens("!" + Show(i));
      HeadTokens(g.ofType[i]);
    case Nullable(elem, _) => BindPlain(elem, g);
    case ArrayOf(elem) =>
      BindPlain(elem, g);
      ArrayTokens(Erase(elem, holes));
      ArrayTokens(Erase(elem, g));
      BindAppend(PlainTokens(Erase(elem, holes)), ["[", "]"], g.ofMethod, g.ofType);
      BindOthers(["[", "]"], g.ofMethod, g.ofType);
  }

  lemma {:induction false} BindAll(ts: seq<Type>, g: Generics)
    requires PlainGenerics(g)
    requires forall t :: t in ts ==> ValidType(t, g) && ValidType(t, Placeholders(|g.ofMethod|, |g.ofType|))
    ensures BindTokens(PlainList(EraseAll(ts, Placeholders(|g.ofMethod|, |g.ofType|))), g.ofMethod, g.ofType)
         == PlainList(EraseAll(ts, g))
    decreases ts
  {
    hide PlainTokens, BindTokens;
    var holes := Placeholders(|g.ofMethod|, |g.ofType|);
    if ts == [] {
      BindOthers([], g.ofMethod, g.ofType);
    } else {
      BindPlain(ts[0], g);
      if |ts| == 1 {
        assert EraseAll(ts, holes) == [Erase(ts[0], holes)] && EraseAll(ts, g) == [Erase(ts[0], g)];
      } else {
        BindAll(ts[1..], g);
        var first, rest := PlainTokens(Erase(ts[0], holes)), PlainList(EraseAll(ts[1..], holes));
        assert EraseAll(ts, holes)[1..] == EraseAll(ts[1..], holes) && EraseAll(ts, g)[1..] == EraseAll(ts[1..], g);
        BindAppend(first + [","], rest, g.ofMethod, g.ofType);
        BindAppend(first, [","], g.ofMethod, g.ofType);
        BindOthers([","], g.ofMethod, g.ofType);
      }
    }
  }

  lemma HeadTokens(head: string)
    ensures PlainTokens(Plain(head, [], 0)) == [head]
  {
  }

  lemma NamedTokens(name: string, args: seq<Plain>)
    ensures PlainTokens(Plain(name, args, 0)) == [name] + if args == [] then [] else ["<"] + PlainList(args) + [">"]
  {
  }

  lemma BindOne(token: string, g: Generics)
    ensures BindTokens([token], g.ofMethod, g.ofType) == BindToken(token, g.ofMethod, g.ofType)
  {
    assert [token][1..] == [];
  }

  lemma BindName(name: string, g: Generics)
    requires IsPlainName(name)
    ensures BindTokens([name], g.ofMethod, g.ofType) == [name]
  {
    assert name[0] in name;
    BindOthers([name], g.ofMethod, g.ofType);
  }

  lemma BindNamed(name: string, list: Tokens, bracketed: bool, g: Generics)
    requires IsPlainName(name)
    ensures BindTokens([name] + if bracketed then ["<"] + list + [">"] else [], g.ofMethod, g.ofType)
         == [name] + if bracketed then ["<"] + BindTokens(list, g.ofMethod, g.ofType) + [">"] else []
  {
    hide BindTokens;
    BindName(name, g);
    if bracketed {
      BindOthers(["<"], g.ofMethod, g.ofType);
      BindOthers([">"], g.ofMethod, g.ofType);
      BindAppend(["<"], list, g.ofMethod, g.ofType);
      BindAppend(["<"] + list, [">"], g.ofMethod, g.ofType);
      BindAppend([name], ["<"] + list + [">"], g.ofMethod, g.ofType);
    } else {
      assert [name] + [] == [name];
    }
  }

  // --- the lookup is exact --------------------------------------------------------

  lemma {:induction false} TypeTokensBound(t: Type, g: Generics)
    requires PlainGenerics(g) && ValidType(t, g)
    ensures forall token :: token in PlainTokens(Erase(t, g)) ==> IsBound(token)
    decreases t
  {
    hide PlainTokens, CSharpWord, RuntimeName;
    match t
    case Named(_, _, name, args) =>
      TypesTokensBound(args, g);
      NamedTokens(name, EraseAll(args, g));
      assert IsBound(name) by {
        assert name[0] in name;
      }
    case Keyword(p) =>
      KeywordNames(p);
      HeadTokens(RuntimeName(p));
      assert RuntimeName(p)[0] in RuntimeName(p);
    case MethodParam(i) =>
      HeadTokens(g.ofMethod[i]);
      assert g.ofMethod[i] in g.ofMethod && g.ofMethod[i][0] in g.ofMethod[i];
    case TypeParam(i) =>
      HeadTokens(g.ofType[i]);
      assert g.ofType[i] in g.ofType && g.ofType[i][0] in g.ofType[i];
    case Nullable(elem, _) => TypeTokensBound(elem, g);
    case ArrayOf(elem) =>
      TypeTokensBound(elem, g);
      ArrayTokens(Erase(elem, g));
  }

  lemma {:induction false} TypesTokensBound(ts: seq<Type>, g: Generics)
    requires PlainGenerics(g) && forall t :: t in ts ==> ValidType(t, g)
    ensures forall token :: token in PlainList(EraseAll(ts, g)) ==> IsBound(token)
    decreases ts
  {
    hide PlainTokens;
    if ts != [] {
      TypeTokensBound(ts[0], g);
      TypesTokensBound(ts[1..], g);
      assert EraseAll(ts, g)[1..] == EraseAll(ts[1..], g);
    }
  }

  /** A type valid for the CLR's placeholders is valid for as many names. */
  lemma {:induction false} ValidForNames(t: Type, g: Generics)
    requires ValidType(t, Placeholders(|g.ofMethod|, |g.ofType|))
    ensures ValidType(t, g)
    decreases t
  {
    match t
    case Named(_, _, _, args) =>
      forall a | a in args
        ensures ValidType(a, g)
      {
        ValidForNames(a, g);
      }
    case Keyword(_) =>
    case MethodParam(_) =>
    case TypeParam(_) =>
    case Nullable(elem, _) => ValidForNames(elem, g);
    case ArrayOf(elem) => ValidForNames(elem, g);
  }

  lemma BindParam(p: Param, g: Generics)
    requires PlainGenerics(g) && ValidParam(p, Placeholders(|g.ofMethod|, |g.ofType|))
    ensures ValidParam(p, g)
    ensures BindTokens(ParamTokens(p, Placeholders(|g.ofMethod|, |g.ofType|)), g.ofMethod, g.ofType)
         == ParamTokens(p, g)
  {
    hide PlainTokens, BindTokens, Erase;
    var holes := Placeholders(|g.ofMethod|, |g.ofType|);
    ValidForNames(p.ty, g);
    BindPlain(p.ty, g);
    BindOthers(ByRefMark(IsByRef(p)), g.ofMethod, g.ofType);
    BindAppend(ByRefMark(IsByRef(p)), PlainTokens(Erase(p.ty, holes)), g.ofMethod, g.ofType);
  }

  /** `d` declares the overload `s` names, once `d`'s placeholders take the names `s` gives them. */
  predicate SameOverload(s: Signature, d: Declaration, group: string, ofType: seq<string>)
    requires ValidSignature(s, ofType) && ValidDeclaration(d, |ofType|)
  {
    && d.name == (if group == "constructors" then ".ctor" else s.name)
    && d.arity == |s.generics|
    && |d.params| == |s.params|
    && forall i :: 0 <= i < |s.params| ==> SameParam(s.params[i], d.params[i], Names(s, ofType))
  }

  predicate SameParam(p: Param, q: Param, g: Generics) {
    && ValidParam(p, g) && ValidParam(q, g)
    && IsByRef(p) == IsByRef(q) && Erase(p.ty, g) == Erase(q.ty, g)
  }

  lemma ParamMatches(p: Param, q: Param, g: Generics)
    requires PlainGenerics(g) && ValidParam(p, g) && ValidParam(q, Placeholders(|g.ofMethod|, |g.ofType|))
    ensures ValidParam(q, g)
    ensures SameType(ParamTokens(p, g),
                     BindTokens(ParamTokens(q, Placeholders(|g.ofMethod|, |g.ofType|)), g.ofMethod, g.ofType))
       <==> SameParam(p, q, g)
  {
    hide PlainTokens, BindTokens, Erase, IsPlainName;
    BindParam(q, g);
    ParamTokensInjective(p, q, g, g);
    NoWildcard(p, g);
    NoWildcard(q, g);
    hide ParamTokens;
    WithoutWildcards(ParamTokens(p, g), ParamTokens(q, g));
  }

  lemma NoWildcard(p: Param, g: Generics)
    requires PlainGenerics(g) && ValidParam(p, g)
    ensures ANY !in ParamTokens(p, g)
  {
    hide PlainTokens;
    TypeTokensBound(p.ty, g);
  }

  /**
   A type parameter beyond those the source key names stands for any one token, and so matches
   exactly the parameters of one token; a method parameter beyond the key's stays as it is.
   */
  lemma UnspelledParameter(i: nat, ofMethod: seq<string>, ofType: seq<string>, tokens: Tokens)
    requires |ofType| <= i
    ensures SameType(tokens, BindToken("!" + Show(i), ofMethod, ofType)) <==> |tokens| == 1
    ensures |ofMethod| <= i ==> BindToken("!!" + Show(i), ofMethod, ofType) == ["!!" + Show(i)]
  {
    hide Show, DigitsValue;
    var digits := Show(i);
    assert ("!!" + digits)[2..] == digits && ("!" + digits)[1..] == digits;
    assert digits[0] in digits && ("!" + digits)[1] == digits[0];
    ShownIs(i);
  }

  lemma ShownIs(n: nat)
    ensures ParseNat(Show(n)) in {None, Some(n)}
  {
    ShowValue(n);
    assert Show(n)[0] in Show(n);
  }

  lemma WithoutWildcards(x: Tokens, y: Tokens)
    requires ANY !in x && ANY !in y
    ensures SameType(x, y) <==> x == y
  {
    assert forall i :: 0 <= i < |x| ==> x[i] in x;
    assert forall i :: 0 <= i < |y| ==> y[i] in y;
  }

  lemma MatchesExactly(s: Signature, d: Declaration, group: string, ofType: seq<string>)
    requires ValidSignature(s, ofType) && ValidDeclaration(d, |ofType|)
    ensures Matches(WantedShape(group, SourceKey(s, ofType)), ClrKey(d, |ofType|), ofType)
       <==> SameOverload(s, d, group, ofType)
  {
    hide MemberShape, SourceKey, ClrKey, ParamTokens, BindTokens, SameParam, IsPlainName;
    SourceShape(s, ofType);
    ClrShape(d, |ofType|);
    var g := Names(s, ofType);
    if d.arity == |s.generics| && |d.params| == |s.params| {
      forall i | 0 <= i < |s.params|
        ensures SameType(ParamTokens(s.params[i], g),
                  BindTokens(ParamTokens(d.params[i], Placeholders(d.arity, |ofType|)), s.generics, ofType))
           <==> SameParam(s.params[i], d.params[i], g)
      {
        assert s.params[i] in s.params && d.params[i] in d.params;
        ParamMatches(s.params[i], d.params[i], g);
      }
    }
  }

  // --- keys with and without a parameter list ------------------------------------------

  /** A source key, which a property writes without a parameter list. */
  function SourceText(s: Signature, listed: bool, ofType: seq<string>): string
    requires ValidSignature(s, ofType)
  {
    if listed then SourceKey(s, ofType) else SourceName(s)
  }

  function ClrText(d: Declaration, listed: bool, typeArity: nat): string
    requires ValidDeclaration(d, typeArity)
  {
    if listed then ClrKey(d, typeArity) else ClrName(d) + d.result
  }

  predicate SameName(s: Signature, d: Declaration, group: string) {
    d.name == (if group == "constructors" then ".ctor" else s.name) && d.arity == |s.generics|
  }

  /** Parameters tell members apart only where both keys list them. */
  predicate SameMember(s: Signature, sListed: bool, d: Declaration, dListed: bool, group: string, ofType: seq<string>)
    requires ValidSignature(s, ofType) && ValidDeclaration(d, |ofType|)
  {
    if sListed && dListed then SameOverload(s, d, group, ofType) else SameName(s, d, group)
  }

  lemma BareShape(name: string, result: string)
    requires '-' !in name && '(' !in name && (result == "" || " -> " <= result)
    ensures MemberShape(name + result)
         == Shape(Trim(NameAndGenerics(Trim(name)).0), NameAndGenerics(Trim(name)).1, None)
  {
    hide NameAndGenerics, Trim;
    HeadOf(name, result);
  }

  lemma SourceTextShape(s: Signature, listed: bool, ofType: seq<string>)
    requires ValidSignature(s, ofType)
    ensures MemberShape(SourceText(s, listed, ofType))
         == Shape(s.name, s.generics, if listed then Some(ParamsTokens(s.params, Names(s, ofType))) else None)
  {
    hide MemberShape, SourceKey, SourceName, NameAndGenerics, Trim, IsPlainName;
    if listed {
      SourceShape(s, ofType);
    } else {
      SourceNameChars(s);
      SourceNameReadsBack(s);
      TrimmedName(s.name);
      BareShape(SourceName(s), "");
      assert SourceName(s) + "" == SourceName(s);
    }
  }

  lemma ClrTextShape(d: Declaration, listed: bool, typeArity: nat)
    requires ValidDeclaration(d, typeArity)
    ensures MemberShape(ClrText(d, listed, typeArity))
         == Shape(d.name, MethodPlaceholders(d.arity),
                  if listed then Some(ParamsTokens(d.params, Placeholders(d.arity, typeArity))) else None)
  {
    hide MemberShape, ClrKey, ClrName, NameAndGenerics, Trim, MethodPlaceholders, Placeholders, ParamsTokens;
    if listed {
      ClrShape(d, typeArity);
    } else {
      ClrNameChars(d);
      ClrNameReadsBack(d);
      TrimmedName(d.name);
      BareShape(ClrName(d), d.result);
    }
  }

  /** Without a parameter list on one side, name and generic arity decide. */
  lemma MatchesMember(s: Signature, sListed: bool, d: Declaration, dListed: bool, group: string, ofType: seq<string>)
    requires ValidSignature(s, ofType) && ValidDeclaration(d, |ofType|)
    ensures Matches(WantedShape(group, SourceText(s, sListed, ofType)), ClrText(d, dListed, |ofType|), ofType)
       <==> SameMember(s, sListed, d, dListed, group, ofType)
  {
    hide Matches, WantedShape, SourceText, ClrText, SameMember, ValidSignature, ValidDeclaration;
    if sListed && dListed {
      ListedMatchesMember(s, d, group, ofType);
    } else {
      UnlistedMatchesMember(s, sListed, d, dListed, group, ofType);
    }
  }

  lemma ListedMatchesMember(s: Signature, d: Declaration, group: string, ofType: seq<string>)
    requires ValidSignature(s, ofType) && ValidDeclaration(d, |ofType|)
    ensures Matches(WantedShape(group, SourceText(s, true, ofType)), ClrText(d, true, |ofType|), ofType)
       <==> SameMember(s, true, d, true, group, ofType)
  {
    hide Matches, WantedShape, SourceKey, ClrKey, SameOverload, ValidSignature, ValidDeclaration;
    MatchesExactly(s, d, group, ofType);
  }

  lemma UnlistedMatchesMember(s: Signature, sListed: bool, d: Declaration, dListed: bool, group: string, ofType: seq<string>)
    requires ValidSignature(s, ofType) && ValidDeclaration(d, |ofType|) && !(sListed && dListed)
    ensures Matches(WantedShape(group, SourceText(s, sListed, ofType)), ClrText(d, dListed, |ofType|), ofType)
       <==> SameMember(s, sListed, d, dListed, group, ofType)
  {
    hide SourceText, ClrText, MemberShape, ParamsTokens, MethodPlaceholders, Matches, ValidSignature, ValidDeclaration;
    hide SourceKey, ClrKey, SameOverload, SourceName, ClrName;
    SourceTextShape(s, sListed, ofType);
    ClrTextShape(d, dListed, |ofType|);
    var want := WantedShape(group, SourceText(s, sListed, ofType));
    assert want.generics == s.generics && want.name == if group == "constructors" then ".ctor" else s.name;
    UnlistedMatches(want, ClrText(d, dListed, |ofType|), ofType);
  }

  lemma UnlistedMatches(want: Shape, key: string, ofType: seq<string>)
    requires want.params.None? || MemberShape(key).params.None?
    ensures Matches(want, key, ofType) <==> MemberShape(key).name == want.name && |MemberShape(key).generics| == |want.generics|
  {
    hide MemberShape, BindPlaceholders, SameParameters;
  }

  // --- the lookup --------------------------------------------------------------------------

  /** `key` is the printed form of `d`. */
  predicate IsPrinted(key: string, d: Declaration, listed: bool, typeArity: nat) {
    ValidDeclaration(d, typeArity) && ClrText(d, listed, typeArity) == key
  }

  /** `key` declares the member `s` names. */
  ghost predicate DeclaresMember(key: string, s: Signature, sListed: bool, group: string, ofType: seq<string>)
    requires ValidSignature(s, ofType)
  {
    exists d, dListed :: IsPrinted(key, d, dListed, |ofType|) && SameMember(s, sListed, d, dListed, group, ofType)
  }

  /** A key with types of other kinds than those modelled, tuples and pointers say. */
  ghost predicate IsForeign(key: string, typeArity: nat) {
    forall d, dListed :: !IsPrinted(key, d, dListed, typeArity)
  }

  /**
   With every placeholder bound, a member key resolves exactly when its group of the
   inventory's entry holds a key declaring that member, or a foreign one that matches.
   */
  lemma ResolvesExactly(inventory: Inventory, ns: string, ty: string, group: string, s: Signature, listed: bool)
    requires group != "type" && ValidSignature(s, TypeGenerics(ty))
    ensures ResolvesInInventory(inventory, ns, ty, group, SourceText(s, listed, TypeGenerics(ty))) <==>
            (&& ClrTypeKey(ns, ty) in inventory && group in inventory[ClrTypeKey(ns, ty)]
             && exists k :: k in inventory[ClrTypeKey(ns, ty)][group] && Resolves(k, s, listed, group, TypeGenerics(ty)))
  {
    hide ClrTypeKey, TypeGenerics, Matches, WantedShape, Resolves;
    var ofType := TypeGenerics(ty);
    forall k: string
      ensures Matches(WantedShape(group, SourceText(s, listed, ofType)), k, ofType) <==> Resolves(k, s, listed, group, ofType)
    {
      KeyResolves(k, s, listed, group, ofType);
    }
  }

  /** A type key, printed for a canonical CLR name, resolves if and only if the inventory holds that name. */
  lemma TypeResolves(inventory: Inventory, clr: string, names: seq<string>, member: string)
    requires IsCanonicalClr(clr) && AreParamNames(names)
    ensures var (ns, ty) := CatalogTypeKey(clr, names);
            ResolvesInInventory(inventory, ns, ty, "type", member) <==> clr in inventory
  {
    hide IsCanonicalClr, CatalogTypeKey, ClrTypeKey, Matches;
    RoundTripExactly(clr, names);
  }

  ghost predicate Resolves(key: string, s: Signature, listed: bool, group: string, ofType: seq<string>)
    requires ValidSignature(s, ofType)
  {
    || DeclaresMember(key, s, listed, group, ofType)
    || (IsForeign(key, |ofType|) && Matches(WantedShape(group, SourceText(s, listed, ofType)), key, ofType))
  }

  lemma KeyResolves(key: string, s: Signature, listed: bool, group: string, ofType: seq<string>)
    requires ValidSignature(s, ofType)
    ensures Matches(WantedShape(group, SourceText(s, listed, ofType)), key, ofType) <==> Resolves(key, s, listed, group, ofType)
  {
    hide Matches, WantedShape, SourceText, ClrText, SameMember;
    forall d, dListed | IsPrinted(key, d, dListed, |ofType|)
      ensures Matches(WantedShape(group, SourceText(s, listed, ofType)), key, ofType) <==> SameMember(s, listed, d, dListed, group, ofType)
    {
      MatchesMember(s, listed, d, dListed, group, ofType);
    }
  }

  /** Whatever else its group holds, a member declared there resolves. */
  lemma DeclaredResolves(inventory: Inventory, ns: string, ty: string, group: string, s: Signature, listed: bool,
                         d: Declaration, dListed: bool)
    requires group != "type" && ClrTypeKey(ns, ty) in inventory && group in inventory[ClrTypeKey(ns, ty)]
    requires ValidSignature(s, TypeGenerics(ty)) && ValidDeclaration(d, |TypeGenerics(ty)|)
    requires ClrText(d, dListed, |TypeGenerics(ty)|) in inventory[ClrTypeKey(ns, ty)][group]
    requires SameMember(s, listed, d, dListed, group, TypeGenerics(ty))
    ensures ResolvesInInventory(inventory, ns, ty, group, SourceText(s, listed, TypeGenerics(ty)))
  {
    hide ClrTypeKey, TypeGenerics, ResolvesInInventory, SameMember, ClrText, SourceText;
    var key := ClrText(d, dListed, |TypeGenerics(ty)|);
    assert IsPrinted(key, d, dListed, |TypeGenerics(ty)|);
    assert Resolves(key, s, listed, group, TypeGenerics(ty));
    ResolvesExactly(inventory, ns, ty, group, s, listed);
  }

  // --- the parameters a printed type key declares --------------------------------

  function TotalArity(segments: seq<string>): nat {
    if segments == [] then 0 else SegmentArity(segments[0]) + TotalArity(segments[1..])
  }

  /** The text from one printed segment on. */
  function PrintedFrom(segments: seq<string>, names: seq<string>, next: nat): string {
    Join(CatalogSegments(segments, names, next), ".")
  }

  lemma PrintedFront(segments: seq<string>, names: seq<string>, next: nat)
    requires segments != []
    ensures PrintedFrom(segments, names, next) == CatalogSegment(segments[0], names, next)
         + if |segments| == 1 then "" else "." + PrintedFrom(segments[1..], names, next + SegmentArity(segments[0]))
  {
    hide CatalogSegment, SegmentArity;
    assert CatalogSegments(segments, names, next)[1..]
        == CatalogSegments(segments[1..], names, next + SegmentArity(segments[0]));
  }

  lemma {:induction false} GroupEndAt(inside: string, rest: string)
    requires '<' !in inside && '>' !in inside
    ensures GroupEnd(inside + ">" + rest, 1) == |inside|
  {
    if inside != "" {
      assert (inside + ">" + rest)[1..] == inside[1..] + ">" + rest;
      assert inside[0] in inside;
      GroupEndAt(inside[1..], rest);
    }
  }

  lemma {:induction false} ParamNamesAppend(names: seq<string>, from: nat, a: nat, b: nat)
    ensures ParamNames(names, from, a + b) == ParamNames(names, from, a) + ParamNames(names, from + a, b)
    decreases a
  {
    if a > 0 {
      ParamNamesAppend(names, from + 1, a - 1, b);
    }
  }

  lemma NoGroups(text: string)
    requires '<' !in text
    ensures TypeGenerics(text) == []
  {
  }

  lemma OneGroup(before: string, params: seq<string>, rest: string)
    requires '<' !in before && AreParamNames(params)
    ensures TypeGenerics(before + "<" + Join(params, ", ") + ">" + rest) == params + TypeGenerics(">" + rest)
  {
    hide TypeGenerics, Join, SplitTopLevel, TrimAll, GroupEnd, SplitOnce;
    var joined := Join(params, ", ");
    var after := joined + ">" + rest;
    JoinedNames(params);
    TrimmedNames(params);
    GroupEndAt(joined, rest);
    assert before + "<" + joined + ">" + rest == before + ['<'] + after;
    SplitOnceAt(before, '<', after, {'<'});
    assert after[..|joined|] == joined && after[|joined|..] == ">" + rest;
    TypeGenericsStep(before + ['<'] + after);
  }

  lemma GroupBehind(before: string, name: string, params: seq<string>, rest: string)
    requires '<' !in before && '<' !in name && AreParamNames(params)
    ensures TypeGenerics(before + (name + "<" + Join(params, ", ") + ">" + rest)) == params + TypeGenerics(">" + rest)
  {
    hide TypeGenerics, Join;
    OneGroup(before + name, params, rest);
    assert before + (name + "<" + Join(params, ", ") + ">" + rest)
        == before + name + "<" + Join(params, ", ") + ">" + rest;
  }

  lemma {:induction false} PrintedGenerics(before: string, segments: seq<string>, names: seq<string>, next: nat)
    requires AreParamNames(names) && '<' !in before
    requires forall s :: s in segments ==> '<' !in s
    ensures TypeGenerics(before + PrintedFrom(segments, names, next)) == ParamNames(names, next, TotalArity(segments))
    decreases |segments|
  {
    hide TypeGenerics, Join, PrintedFrom, ArityOf, ParamNames, SplitOnce;
    if segments == [] {
      NothingPrinted(names, next);
      assert before + "" == before;
      NoGroups(before);
    } else {
      assert '<' !in segments[0];
      var arity := SegmentArity(segments[0]);
      var rest := PrintedFrom(segments[1..], names, next + arity);
      var more := if |segments| == 1 then "" else ".";
      PrintedMore(segments, names, next, more);
      ParamNamesAppend(names, next, arity, TotalArity(segments[1..]));
      match SplitOnce(segments[0], {'`'})
      case None =>
        PrintedGenerics(before + segments[0] + more, segments[1..], names, next + arity);
        NothingPrinted(names, next);
        Regroup(before, segments[0], more, rest);
      case Some((name, _)) =>
        NamePart(segments[0], name);
        PrintedGenerics(">" + more, segments[1..], names, next + arity);
        PrintedGroup(before, segments[0], name, names, next, more + rest);
        assert ">" + (more + rest) == ">" + more + rest;
    }
  }

  lemma Regroup(a: string, b: string, c: string, d: string)
    ensures a + (b + (c + d)) == a + b + c + d
  {
  }

  lemma PrintedGroup(before: string, segment: string, name: string, names: seq<string>, next: nat, rest: string)
    requires AreParamNames(names) && '<' !in before && '<' !in name
    requires SplitOnce(segment, {'`'}).Some? && SplitOnce(segment, {'`'}).value.0 == name
    ensures TypeGenerics(before + (CatalogSegment(segment, names, next) + rest))
         == ParamNames(names, next, SegmentArity(segment)) + TypeGenerics(">" + rest)
  {
    hide TypeGenerics, Join, ArityOf, ParamNames, SplitOnce;
    var params := ParamNames(names, next, SegmentArity(segment));
    ParamNamesAreNames(names, next, SegmentArity(segment));
    GroupBehind(before, name, params, rest);
  }

  lemma NamePart(segment: string, name: string)
    requires SplitOnce(segment, {'`'}).Some? && SplitOnce(segment, {'`'}).value.0 == name
    ensures '<' !in segment ==> '<' !in name
  {
  }

  lemma PrintedMore(segments: seq<string>, names: seq<string>, next: nat, more: string)
    requires segments != [] && more == if |segments| == 1 then "" else "."
    ensures PrintedFrom(segments, names, next) == CatalogSegment(segments[0], names, next)
         + (more + PrintedFrom(segments[1..], names, next + SegmentArity(segments[0])))
  {
    hide CatalogSegment, SegmentArity, PrintedFrom;
    PrintedFront(segments, names, next);
    if |segments| == 1 {
      NothingPrinted(names, next + SegmentArity(segments[0]));
      assert segments[1..] == [];
      assert more + PrintedFrom(segments[1..], names, next + SegmentArity(segments[0])) == "";
    }
  }

  lemma NothingPrinted(names: seq<string>, next: nat)
    ensures PrintedFrom([], names, next) == "" && ParamNames(names, next, 0) == []
  {
  }

  /**
   A printed type key leads back to its inventory entry, and declares every generic
   parameter of the nested types, outermost first: the order the CLR numbers them in.
   */
  lemma PrintedKeyDeclares(clr: string, names: seq<string>)
    requires AreParamNames(names) && IsCanonicalClr(clr)
    ensures ClrTypeKey(CatalogTypeKey(clr, names).0, CatalogTypeKey(clr, names).1) == clr
    ensures var declared := TypeGenerics(CatalogTypeKey(clr, names).1);
            && |declared| == TotalArity(ClrParts(clr).1)
            && forall i :: 0 <= i < |declared| ==> declared[i] == if i < |names| then names[i] else "T" + Show(i)
  {
    hide CatalogTypeKey, ClrTypeKey, TypeGenerics, ParamNames, IsCanonicalClr, TotalArity, ClrParts;
    RoundTripExactly(clr, names);
    DeclaredParameters(clr, names);
    ParamNamesAre(names, 0, TotalArity(ClrParts(clr).1));
  }

  lemma DeclaredParameters(clr: string, names: seq<string>)
    requires AreParamNames(names) && IsCanonicalClr(clr)
    ensures TypeGenerics(CatalogTypeKey(clr, names).1) == ParamNames(names, 0, TotalArity(ClrParts(clr).1))
  {
    hide TypeGenerics;
    var segments := ClrParts(clr).1;
    assert forall s :: s in segments ==> IsCanonicalSegment(s);
    PrintedGenerics("", segments, names, 0);
    assert "" + PrintedFrom(segments, names, 0) == CatalogTypeKey(clr, names).1;
  }
}
