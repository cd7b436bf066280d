/**
 The two spellings of a parameter type, printed from one abstract type, and the proof
 that the normaliser of `ParameterTypes` brings both to the same tokens.
 */
module ParameterSpellings {
  import opened Wrappers
  import opened Text
  import opened ParameterTypes

  // --- types and their spellings ------------------------------------------------

  /** `string?`, `int?` and `Nullable<int>`: the CLR wraps only the value types. */
  datatype NullableForm = Reference | Value | Written

  /** The types C# writes with a keyword. */
  datatype Primitive =
    | StringType | BoolType | IntType | LongType | ShortType | ByteType | SByteType | UIntType | ULongType
    | UShortType | FloatType | DoubleType | DecimalType | CharType | ObjectType | VoidType | NIntType | NUIntType

  function CSharpWord(p: Primitive): string {
    match p
    case StringType => "string"
    case BoolType => "bool"
    case IntType => "int"
    case LongType => "long"
    case ShortType => "short"
    case ByteType => "byte"
    case SByteType => "sbyte"
    case UIntType => "uint"
    case ULongType => "ulong"
    case UShortType => "ushort"
    case FloatType => "float"
    case DoubleType => "double"
    case DecimalType => "decimal"
    case CharType => "char"
    case ObjectType => "object"
    case VoidType => "void"
    case NIntType => "nint"
    case NUIntType => "nuint"
  }

  /** The name of the type in the namespace `System`. */
  function RuntimeName(p: Primitive): string {
    match p
    case StringType => "String"
    case BoolType => "Boolean"
    case IntType => "Int32"
    case LongType => "Int64"
    case ShortType => "Int16"
    case ByteType => "Byte"
    case SByteType => "SByte"
    case UIntType => "UInt32"
    case ULongType => "UInt64"
    case UShortType => "UInt16"
    case FloatType => "Single"
    case DoubleType => "Double"
    case DecimalType => "Decimal"
    case CharType => "Char"
    case ObjectType => "Object"
    case VoidType => "Void"
    case NIntType => "IntPtr"
    case NUIntType => "UIntPtr"
  }

  predicate IsKeyword(s: string) {
    exists p: Primitive :: CSharpWord(p) == s
  }

  datatype Type =
    | Named(sourceQualifier: string, clrQualifier: string, name: string, args: seq<Type>)
    | Keyword(primitive: Primitive)
    | MethodParam(index: nat)
    | TypeParam(index: nat)
    | Nullable(elem: Type, form: NullableForm)
    | ArrayOf(elem: Type)

  datatype Modifier = This | Params | Scoped | Readonly | Ref | Out | In

  datatype Param = Param(modifiers: seq<Modifier>, ty: Type)

  datatype Style = Source | Clr

  /** The names of a method's and of its type's generic parameters. */
  datatype Generics = Generics(ofMethod: seq<string>, ofType: seq<string>)

  predicate IsWordChar(c: char) {
    'a' <= c <= 'z' || 'A' <= c <= 'Z' || '0' <= c <= '9' || c == '_'
  }

  predicate IsIdentifier(s: string) {
    s != "" && forall c :: c in s ==> IsWordChar(c)
  }

  predicate IsPlaceholder(s: string) {
    s != "" && s[0] == '!' && forall c :: c in s ==> IsPlaceholderChar(c)
  }

  /** A type name the normaliser leaves alone. */
  predicate IsPlainName(s: string) {
    IsIdentifier(s) && !IsKeyword(s) && s != "Nullable"
  }

  predicate IsHead(s: string) {
    IsPlainName(s) || IsPlaceholder(s)
  }

  /** A namespace and enclosing types, each closed by its separator. */
  predicate IsQualifier(q: string) {
    q != "" ==>
      && IsWordChar(q[0])
      && q[|q| - 1] in {'.', '+'}
      && forall c :: c in q ==> IsWordChar(c) || c in {'.', '+', '`'}
  }

  predicate ValidGenerics(g: Generics) {
    && (forall n :: n in g.ofMethod ==> IsHead(n))
    && (forall n :: n in g.ofType ==> IsHead(n))
  }

  predicate ValidType(t: Type, g: Generics) {
    match t
    case Named(source, clr, name, args) =>
      && IsQualifier(source) && IsQualifier(clr) && IsPlainName(name)
      && forall a :: a in args ==> ValidType(a, g)
    case Keyword(_) => true
    case MethodParam(i) => i < |g.ofMethod|
    case TypeParam(i) => i < |g.ofType|
    case Nullable(elem, _) => ValidType(elem, g)
    case ArrayOf(elem) => ValidType(elem, g)
  }

  predicate ValidParam(p: Param, g: Generics) {
    ValidType(p.ty, g)
  }

  /** What the CLR writes for generic parameters: `!!N` and `!N`. */
  function Placeholders(arity: nat, typeArity: nat): (p: Generics)
    ensures |p.ofMethod| == arity && |p.ofType| == typeArity
    ensures forall i :: 0 <= i < arity ==> p.ofMethod[i] == "!!" + Show(i)
    ensures forall i :: 0 <= i < typeArity ==> p.ofType[i] == "!" + Show(i)
    ensures ValidGenerics(p)
  {
    Generics(seq(arity, i requires 0 <= i < arity => "!!" + Show(i)),
             seq(typeArity, i requires 0 <= i < typeArity => "!" + Show(i)))
  }

  function Spell(t: Type, style: Style, g: Generics): string
    requires ValidType(t, g)
    decreases t
  {
    match t
    case Named(source, clr, name, args) =>
      (if style == Source then source else clr) + name
      + if args == [] then "" else
          (if style == Clr then "`" + Show(|args|) else "") + "<" + SpellAll(args, style, g) + ">"
    case Keyword(p) => if style == Source then CSharpWord(p) else "System." + RuntimeName(p)
    case MethodParam(i) => g.ofMethod[i]
    case TypeParam(i) => g.ofType[i]
    case Nullable(elem, form) =>
      if Wraps(form, style) then WrapperName(style) + "<" + Spell(elem, style, g) + ">"
      else Spell(elem, style, g) + if style == Source then "?" else ""
    case ArrayOf(elem) => Spell(elem, style, g) + "[]"
  }

  function WrapperName(style: Style): string {
    if style == Source then "Nullable" else "System." + "Nullable" + "`1"
  }

  /** Whether a nullable type is spelled with an explicit `Nullable<…>`. */
  predicate Wraps(form: NullableForm, style: Style) {
    if style == Source then form == Written else form != Reference
  }

  function SpellAll(ts: seq<Type>, style: Style, g: Generics): string
    requires forall t :: t in ts ==> ValidType(t, g)
    decreases ts
  {
    if ts == [] then ""
    else if |ts| == 1 then Spell(ts[0], style, g)
    else Spell(ts[0], style, g) + Comma(style) + SpellAll(ts[1..], style, g)
  }

  function Comma(style: Style): string {
    if style == Source then ", " else ","
  }

  function ModifierWord(m: Modifier): string {
    match m
    case This => "this"
    case Params => "params"
    case Scoped => "scoped"
    case Readonly => "readonly"
    case Ref => "ref"
    case Out => "out"
    case In => "in"
  }

  function SpellModifiers(ms: seq<Modifier>): string {
    if ms == [] then "" else ModifierWord(ms[0]) + " " + SpellModifiers(ms[1..])
  }

  predicate PassByRef(ms: seq<Modifier>) {
    ms != [] && (ms[0] in {Ref, Out, In} || PassByRef(ms[1..]))
  }

  predicate IsByRef(p: Param) {
    PassByRef(p.modifiers)
  }

  function SpellParam(p: Param, style: Style, g: Generics): string
    requires ValidParam(p, g)
  {
    if style == Source then SpellModifiers(p.modifiers) + Spell(p.ty, style, g)
    else Spell(p.ty, style, g) + if IsByRef(p) then "&" else ""
  }

  // --- what both spellings mean -----------------------------------------------

  /** A type with nullability and qualification erased. */
  datatype Plain = Plain(head: string, args: seq<Plain>, dims: nat)

  function Erase(t: Type, g: Generics): Plain
    requires ValidType(t, g)
    decreases t
  {
    match t
    case Named(_, _, name, args) => Plain(name, EraseAll(args, g), 0)
    case Keyword(p) => Plain(RuntimeName(p), [], 0)
    case MethodParam(i) => Plain(g.ofMethod[i], [], 0)
    case TypeParam(i) => Plain(g.ofType[i], [], 0)
    case Nullable(elem, _) => Erase(elem, g)
    case ArrayOf(elem) => var p := Erase(elem, g); p.(dims := p.dims + 1)
  }

  function EraseAll(ts: seq<Type>, g: Generics): (ps: seq<Plain>)
    requires forall t :: t in ts ==> ValidType(t, g)
    ensures |ps| == |ts|
    decreases ts
  {
    if ts == [] then [] else [Erase(ts[0], g)] + EraseAll(ts[1..], g)
  }

  function PlainTokens(p: Plain): seq<string>
    decreases p
  {
    [p.head] + Bracketed(p.args) + Dims(p.dims)
  }

  function Bracketed(ps: seq<Plain>): seq<string>
    decreases ps, 1
  {
    if ps == [] then [] else ["<"] + PlainList(ps) + [">"]
  }

  function PlainList(ps: seq<Plain>): seq<string>
    decreases ps, 0
  {
    if ps == [] then []
    else if |ps| == 1 then PlainTokens(ps[0])
    else PlainTokens(ps[0]) + [","] + PlainList(ps[1..])
  }

  function Dims(n: nat): seq<string> {
    if n == 0 then [] else ["[", "]"] + Dims(n - 1)
  }

  function ParamTokens(p: Param, g: Generics): seq<string>
    requires ValidParam(p, g)
  {
    ByRefMark(IsByRef(p)) + PlainTokens(Erase(p.ty, g))
  }

  // --- scanning a spelling ------------------------------------------------------

  /** A character that ends a name or placeholder and starts none. */
  predicate IsBreak(c: char) {
    !IsNameChar(c) && !IsPlaceholderChar(c)
  }

  lemma {:induction false} TokenizeAppend(a: string, b: string)
    requires a == "" || b == "" || IsBreak(a[|a| - 1]) || IsBreak(b[0])
    ensures Tokenize(a + b) == Tokenize(a) + Tokenize(b)
    decreases |a|
  {
    hide NextToken;
    hide Tokenize;
    if a == "" {
      assert a + b == b;
      TokenizeEmpty();
    } else if b == "" {
      assert a + b == a;
      TokenizeEmpty();
    } else {
      NextTokenAppend(a, b);
      var n := NextToken(a).1;
      TokenizeAppend(a[n..], b);
      assert (a + b)[n..] == a[n..] + b;
      TokenizeFront(a);
      TokenizeFront(a + b);
    }
  }

  lemma TokenizeEmpty()
    ensures Tokenize("") == []
  {
  }

  lemma TokenizeFront(s: string)
    requires s != ""
    ensures Tokenize(s) == NextToken(s).0 + Tokenize(s[NextToken(s).1..])
  {
  }

  lemma NextTokenAppend(a: string, b: string)
    requires a != "" && b != ""
    requires IsBreak(a[|a| - 1]) || IsBreak(b[0])
    ensures NextToken(a + b) == NextToken(a)
  {
    var s := a + b;
    assert s[0] == a[0];
    if IsNameStart(a[0]) {
      NameLengthIs(s, NameLength(a));
      assert s[..NameLength(a)] == a[..NameLength(a)];
    } else if a[0] == '!' {
      PlaceholderLengthIs(s, PlaceholderLength(a));
      assert s[..PlaceholderLength(a)] == a[..PlaceholderLength(a)];
    }
  }

  lemma NameLengthIs(s: string, n: nat)
    requires n <= |s|
    requires forall k :: 0 <= k < n ==> IsNameChar(s[k])
    requires n < |s| ==> !IsNameChar(s[n])
    ensures NameLength(s) == n
  {
    var m := NameLength(s);
    assert m < |s| ==> !IsNameChar(s[m]);
  }

  lemma PlaceholderLengthIs(s: string, n: nat)
    requires n <= |s|
    requires forall k :: 0 <= k < n ==> IsPlaceholderChar(s[k])
    requires n < |s| ==> !IsPlaceholderChar(s[n])
    ensures PlaceholderLength(s) == n
  {
    var m := PlaceholderLength(s);
    assert m < |s| ==> !IsPlaceholderChar(s[m]);
  }

  lemma {:induction false} LastSegmentAfter(prefix: string, name: string)
    requires prefix == "" || prefix[|prefix| - 1] in {'.', '+'}
    requires forall c :: c in name ==> c !in {'.', '+'}
    ensures LastSegment(prefix + name) == name
    decreases |prefix|
  {
    var s := prefix + name;
    var i := IndexOf(s, {'.', '+'});
    if prefix == "" {
      assert s == name;
      assert name + "" == name;
      IndexAfter(name, "", {'.', '+'});
    } else {
      assert s[|prefix| - 1] == prefix[|prefix| - 1];
      assert i < |prefix|;
      assert s[i + 1..] == prefix[i + 1..] + name;
      LastSegmentAfter(prefix[i + 1..], name);
    }
  }

  lemma NameTokenOf(qualifier: string, name: string, arity: string)
    requires IsQualifier(qualifier) && IsIdentifier(name) && ClrAlias(name) == name
    requires arity == "" || (arity[0] == '`' && forall k :: 0 < k < |arity| ==> IsDigit(arity[k]))
    ensures NameToken(qualifier + name + arity) == name
  {
    hide ClrAlias, LastSegment;
    assert qualifier + name + arity == qualifier + (name + arity);
    LastSegmentAfter(qualifier, name + arity);
    IndexAfter(name, arity, {'`'});
    assert (name + arity)[..|name|] == name;
  }

  /** A name, qualified and with or without a generic arity, is one token. */
  lemma TokenizeName(qualifier: string, name: string, arity: string)
    requires IsQualifier(qualifier) && IsIdentifier(name) && ClrAlias(name) == name
    requires arity == "" || (arity[0] == '`' && forall k :: 0 < k < |arity| ==> IsDigit(arity[k]))
    ensures Tokenize(qualifier + name + arity) == [name]
  {
    hide ClrAlias, NameToken, Tokenize;
    WordChars();
    var s := qualifier + name + arity;
    assert IsNameStart(s[0]);
    NameLengthIs(s, |s|);
    assert s[..|s|] == s && s[|s|..] == "";
    NameTokenOf(qualifier, name, arity);
    OneToken(s, [name]);
  }

  /** The characters of words are those the scanner takes for a name's. */
  lemma WordChars()
    ensures forall c :: IsWordChar(c) <==> IsNameStart(c)
  {
  }

  lemma OneToken(s: string, emitted: seq<string>)
    requires s != "" && NextToken(s) == (emitted, |s|)
    ensures Tokenize(s) == emitted
  {
    assert s[|s|..] == "" && emitted + [] == emitted;
  }

  lemma TokenizeHead(h: string)
    requires IsHead(h)
    ensures Tokenize(h) == [h]
  {
    if IsPlainName(h) {
      OnlyKeywordsAreAliased(h);
      TokenizeName("", h, "");
      assert "" + h + "" == h;
    } else {
      PlaceholderLengthIs(h, |h|);
      assert h[..|h|] == h && h[|h|..] == "";
      assert NextToken(h) == ([h], |h|);
    }
  }

  /** Keywords and their CLR names are names the normaliser handles. */
  lemma KeywordNames(p: Primitive)
    ensures IsIdentifier(CSharpWord(p)) && IsPlainName(RuntimeName(p))
  {
    hide CSharpWord, RuntimeName, IsKeyword;
    KeywordIsIdentifier(p);
    UpperCaseIsUnaliased(RuntimeName(p));
  }

  /** The normaliser's aliases are the runtime's names of the keyword types. */
  lemma AliasIsRuntimeName(p: Primitive)
    ensures ClrAlias(CSharpWord(p)) == RuntimeName(p)
  {
    hide ClrAlias;
    FirstAliases();
    UnsignedAliases();
    FloatAliases();
    WordAliases();
    PointerAliases();
  }

  lemma FirstAliases()
    ensures ClrAlias("string") == "String"
    ensures ClrAlias("bool") == "Boolean"
    ensures ClrAlias("int") == "Int32"
    ensures ClrAlias("long") == "Int64"
    ensures ClrAlias("short") == "Int16"
    ensures ClrAlias("byte") == "Byte"
  {
  }

  lemma UnsignedAliases()
    ensures ClrAlias("sbyte") == "SByte"
    ensures ClrAlias("uint") == "UInt32"
    ensures ClrAlias("ulong") == "UInt64"
    ensures ClrAlias("ushort") == "UInt16"
  {
  }

  lemma FloatAliases()
    ensures ClrAlias("float") == "Single"
    ensures ClrAlias("double") == "Double"
    ensures ClrAlias("decimal") == "Decimal"
  {
  }

  lemma WordAliases()
    ensures ClrAlias("char") == "Char"
    ensures ClrAlias("object") == "Object"
    ensures ClrAlias("void") == "Void"
  {
  }

  lemma PointerAliases()
    ensures ClrAlias("nint") == "IntPtr"
    ensures ClrAlias("nuint") == "UIntPtr"
  {
  }

  /** The normaliser renames no other name. */
  lemma OnlyKeywordsAreAliased(s: string)
    requires !IsKeyword(s)
    ensures ClrAlias(s) == s
  {
    assert CSharpWord(StringType) == "string";
    assert CSharpWord(BoolType) == "bool";
    assert CSharpWord(IntType) == "int";
    assert CSharpWord(LongType) == "long";
    assert CSharpWord(ShortType) == "short";
    assert CSharpWord(ByteType) == "byte";
    assert CSharpWord(SByteType) == "sbyte";
    assert CSharpWord(UIntType) == "uint";
    assert CSharpWord(ULongType) == "ulong";
    assert CSharpWord(UShortType) == "ushort";
    assert CSharpWord(FloatType) == "float";
    assert CSharpWord(DoubleType) == "double";
    assert CSharpWord(DecimalType) == "decimal";
    assert CSharpWord(CharType) == "char";
    assert CSharpWord(ObjectType) == "object";
    assert CSharpWord(VoidType) == "void";
    assert CSharpWord(NIntType) == "nint";
    assert CSharpWord(NUIntType) == "nuint";
  }

  lemma KeywordIsIdentifier(p: Primitive)
    ensures IsIdentifier(CSharpWord(p))
    ensures IsIdentifier(RuntimeName(p))
    ensures 'A' <= RuntimeName(p)[0] <= 'Z' && RuntimeName(p)[0] != 'N'
  {
    hide IsIdentifier;
    TextKeywords();
    SmallKeywords();
    UnsignedKeywords();
    FloatKeywords();
    OtherKeywords();
  }

  lemma TextKeywords()
    ensures IsIdentifier("string") && IsIdentifier("String")
    ensures IsIdentifier("char") && IsIdentifier("Char")
    ensures IsIdentifier("object") && IsIdentifier("Object")
    ensures IsIdentifier("void") && IsIdentifier("Void")
  {
  }

  lemma SmallKeywords()
    ensures IsIdentifier("int") && IsIdentifier("Int32")
    ensures IsIdentifier("long") && IsIdentifier("Int64")
    ensures IsIdentifier("short") && IsIdentifier("Int16")
    ensures IsIdentifier("byte") && IsIdentifier("Byte")
  {
  }

  lemma UnsignedKeywords()
    ensures IsIdentifier("sbyte") && IsIdentifier("SByte")
    ensures IsIdentifier("uint") && IsIdentifier("UInt32")
    ensures IsIdentifier("ulong") && IsIdentifier("UInt64")
    ensures IsIdentifier("ushort") && IsIdentifier("UInt16")
  {
  }

  lemma FloatKeywords()
    ensures IsIdentifier("float") && IsIdentifier("Single")
    ensures IsIdentifier("double") && IsIdentifier("Double")
    ensures IsIdentifier("decimal") && IsIdentifier("Decimal")
  {
  }

  lemma OtherKeywords()
    ensures IsIdentifier("bool") && IsIdentifier("Boolean")
    ensures IsIdentifier("nint") && IsIdentifier("IntPtr")
    ensures IsIdentifier("nuint") && IsIdentifier("UIntPtr")
  {
  }

  lemma UpperCaseIsUnaliased(name: string)
    requires name != "" && 'A' <= name[0] <= 'Z'
    ensures !IsKeyword(name) && ClrAlias(name) == name
  {
    LowerCaseKeywords();
    OnlyKeywordsAreAliased(name);
  }

  lemma LowerCaseKeywords()
    ensures forall p :: CSharpWord(p) != "" && 'a' <= CSharpWord(p)[0] <= 'z'
  {
  }

  /** The tokens of a spelling before `Nullable` is dropped. */
  function Raw(t: Type, style: Style, g: Generics): seq<string>
    requires ValidType(t, g)
    decreases t
  {
    match t
    case Named(_, _, name, args) =>
      [name] + if args == [] then [] else ["<"] + RawAll(args, style, g) + [">"]
    case Keyword(p) => [RuntimeName(p)]
    case MethodParam(i) => [g.ofMethod[i]]
    case TypeParam(i) => [g.ofType[i]]
    case Nullable(elem, form) =>
      if Wraps(form, style) then ["Nullable", "<"] + Raw(elem, style, g) + [">"] else Raw(elem, style, g)
    case ArrayOf(elem) => Raw(elem, style, g) + ["[", "]"]
  }

  function RawAll(ts: seq<Type>, style: Style, g: Generics): seq<string>
    requires forall t :: t in ts ==> ValidType(t, g)
    decreases ts
  {
    if ts == [] then []
    else if |ts| == 1 then Raw(ts[0], style, g)
    else Raw(ts[0], style, g) + [","] + RawAll(ts[1..], style, g)
  }

  lemma TokenizeBreak(c: char)
    requires IsBreak(c)
    ensures Tokenize([c]) == if c in WHITESPACE || c == '?' || c == '&' then [] else [[c]]
  {
    assert [c][1..] == "";
  }

  lemma TokenizeAngle(before: string, inside: string)
    ensures Tokenize(before + "<" + inside + ">") == Tokenize(before) + ["<"] + Tokenize(inside) + [">"]
  {
    hide Tokenize;
    assert before + "<" + inside + ">" == before + ("<" + (inside + ">"));
    TokenizeAppend(before, "<" + (inside + ">"));
    TokenizeAppend("<", inside + ">");
    TokenizeAppend(inside, ">");
    TokenizeBreak('<');
    TokenizeBreak('>');
  }

  lemma TokenizeArray(elem: string)
    ensures Tokenize(elem + "[]") == Tokenize(elem) + ["[", "]"]
  {
    hide Tokenize;
    TokenizeAppend(elem, "[]");
    assert "[]" == "[" + "]";
    TokenizeAppend("[", "]");
    TokenizeBreak('[');
    TokenizeBreak(']');
  }

  lemma TokenizeComma(style: Style, first: string, rest: string)
    ensures Tokenize(first + Comma(style) + rest) == Tokenize(first) + [","] + Tokenize(rest)
  {
    hide Tokenize;
    CommaTokens(style);
    assert first + Comma(style) + rest == first + (Comma(style) + rest);
    TokenizeAppend(first, Comma(style) + rest);
    TokenizeAppend(Comma(style), rest);
  }

  lemma CommaTokens(style: Style)
    ensures Tokenize(Comma(style)) == [","]
    ensures IsBreak(Comma(style)[0]) && IsBreak(Comma(style)[|Comma(style)| - 1])
  {
    hide Tokenize;
    TokenizeBreak(',');
    if style == Source {
      assert ", " == "," + " ";
      TokenizeAppend(",", " ");
      TokenizeBreak(' ');
    }
  }

  lemma {:induction false} TokenizeSpell(t: Type, style: Style, g: Generics)
    requires ValidType(t, g) && ValidGenerics(g)
    ensures Tokenize(Spell(t, style, g)) == Raw(t, style, g)
    decreases t
  {
    hide Tokenize;
    match t
    case Named(source, clr, name, args) =>
      if args != [] {
        TokenizeSpellAll(args, style, g);
      }
      TokenizeNamed(t, style, g);
    case Keyword(p) => TokenizeKeyword(p);
    case MethodParam(i) => TokenizeHead(g.ofMethod[i]);
    case TypeParam(i) => TokenizeHead(g.ofType[i]);
    case Nullable(elem, form) =>
      TokenizeSpell(elem, style, g);
      if Wraps(form, style) {
        TokenizeNullable(style, Spell(elem, style, g));
      } else if style == Source {
        TokenizeAppend(Spell(elem, style, g), "?");
        TokenizeBreak('?');
      } else {
        assert Spell(elem, style, g) + "" == Spell(elem, style, g);
      }
    case ArrayOf(elem) =>
      TokenizeSpell(elem, style, g);
      TokenizeArray(Spell(elem, style, g));
  }

  lemma {:induction false} TokenizeSpellAll(ts: seq<Type>, style: Style, g: Generics)
    requires (forall t :: t in ts ==> ValidType(t, g)) && ValidGenerics(g)
    ensures Tokenize(SpellAll(ts, style, g)) == RawAll(ts, style, g)
    decreases ts
  {
    if ts != [] {
      TokenizeSpell(ts[0], style, g);
      if |ts| > 1 {
        TokenizeSpellAll(ts[1..], style, g);
        TokenizeComma(style, Spell(ts[0], style, g), SpellAll(ts[1..], style, g));
      }
    }
  }

  lemma TokenizeNamed(t: Type, style: Style, g: Generics)
    requires ValidType(t, g) && t.Named?
    requires t.args != [] ==> Tokenize(SpellAll(t.args, style, g)) == RawAll(t.args, style, g)
    ensures Tokenize(Spell(t, style, g)) == Raw(t, style, g)
  {
    hide Tokenize, Spell, CSharpWord;
    OnlyKeywordsAreAliased(t.name);
    var qualifier := if style == Source then t.sourceQualifier else t.clrQualifier;
    var arity := if style == Clr && t.args != [] then "`" + Show(|t.args|) else "";
    var before := qualifier + t.name + arity;
    SpellNamed(t, style, g, before);
    TokenizeName(qualifier, t.name, arity);
    if t.args != [] {
      hide IsQualifier, IsIdentifier, ClrAlias, IsKeyword, ValidType, RawAll;
      TokenizeAngle(before, SpellAll(t.args, style, g));
    }
  }

  lemma SpellNamed(t: Type, style: Style, g: Generics, before: string)
    requires ValidType(t, g) && t.Named?
    requires before == (if style == Source then t.sourceQualifier else t.clrQualifier) + t.name
                       + if style == Clr && t.args != [] then "`" + Show(|t.args|) else ""
    ensures Spell(t, style, g) == if t.args == [] then before else before + "<" + SpellAll(t.args, style, g) + ">"
  {
    if t.args != [] {
      assert Spell(t, style, g) == before + "<" + SpellAll(t.args, style, g) + ">";
    } else {
      assert Spell(t, style, g) == before;
    }
  }

  lemma TokenizeKeyword(p: Primitive)
    ensures Tokenize(CSharpWord(p)) == [RuntimeName(p)] == Tokenize("System." + RuntimeName(p))
  {
    hide ClrAlias, CSharpWord, RuntimeName, IsKeyword;
    KeywordNames(p);
    OnlyKeywordsAreAliased(RuntimeName(p));
    TokenizeName("System.", RuntimeName(p), "");
    assert "System." + RuntimeName(p) + "" == "System." + RuntimeName(p);
    TokenizeWord(CSharpWord(p));
    AliasIsRuntimeName(p);
  }

  lemma TokenizeWord(word: string)
    requires IsIdentifier(word)
    ensures Tokenize(word) == [ClrAlias(word)]
  {
    hide ClrAlias;
    WordChars();
    NameLengthIs(word, |word|);
    assert word[..|word|] == word && word[|word|..] == "" && word + "" == word;
    IndexAfter(word, "", {'.', '+'});
    IndexAfter(word, "", {'`'});
    assert NextToken(word) == ([ClrAlias(word)], |word|);
  }

  lemma TokenizeNullable(style: Style, elem: string)
    ensures Tokenize(WrapperName(style) + "<" + elem + ">") == ["Nullable", "<"] + Tokenize(elem) + [">"]
  {
    hide Tokenize, WrapperName;
    TokenizeWrapper(style);
    TokenizeAngle(WrapperName(style), elem);
  }

  lemma TokenizeWrapper(style: Style)
    ensures Tokenize(WrapperName(style)) == ["Nullable"]
  {
    hide Tokenize;
    UpperCaseIsUnaliased("Nullable");
    if style == Source {
      TokenizeName("", "Nullable", "");
      assert "" + "Nullable" + "" == "Nullable";
    } else {
      TokenizeName("System.", "Nullable", "`1");
    }
  }

  lemma SpellNullable(t: Type, style: Style, g: Generics)
    requires ValidType(t, g) && t.Nullable?
    ensures var elem := Spell(t.elem, style, g);
            Spell(t, style, g) == if Wraps(t.form, style) then WrapperName(style) + "<" + elem + ">"
                                  else elem + if style == Source then "?" else ""
  {
  }

  // --- dropping Nullable ------------------------------------------------------

  /**
   The bracket-stack loop refines recursive erasure: on the tokens of any type, whatever
   brackets are open around it, it keeps exactly the tokens of the erased type.
   */
  lemma {:induction false} EraseRaw(t: Type, style: Style, g: Generics, rest: seq<string>, open: seq<bool>)
    requires ValidType(t, g) && ValidGenerics(g)
    ensures EraseNullable(Raw(t, style, g) + rest, open)
         == PlainTokens(Erase(t, g)) + EraseNullable(rest, open)
    decreases t
  {
    hide PlainTokens, EraseNullable, RawAll, PlainList, EraseAll, IsPlainName, IsQualifier;
    match t
    case Named(_, _, name, args) =>
      NamedParts(t, style, g);
      if args == [] {
        EraseHead(name, rest, open);
      } else {
        EraseRawAll(args, style, g, [">"] + rest, open + [true]);
        EraseBrackets(name, RawAll(args, style, g), PlainList(EraseAll(args, g)), rest, open);
        AngleTokens(name, EraseAll(args, g));
      }
    case Keyword(p) =>
      KeywordNames(p);
      EraseHead(RuntimeName(p), rest, open);
    case MethodParam(i) => EraseHead(g.ofMethod[i], rest, open);
    case TypeParam(i) => EraseHead(g.ofType[i], rest, open);
    case Nullable(elem, form) =>
      if Wraps(form, style) {
        EraseRaw(elem, style, g, [">"] + rest, open + [false]);
        EraseWrapper(Raw(elem, style, g), PlainTokens(Erase(elem, g)), rest, open);
      } else {
        EraseRaw(elem, style, g, rest, open);
      }
    case ArrayOf(elem) =>
      EraseRaw(elem, style, g, ["[", "]"] + rest, open);
      EraseDim(rest, open);
      ArrayTokens(Erase(elem, g));
      assert Raw(t, style, g) + rest == Raw(elem, style, g) + (["[", "]"] + rest);
  }

  lemma NamedParts(t: Type, style: Style, g: Generics)
    requires t.Named? && ValidType(t, g)
    ensures Erase(t, g) == Plain(t.name, EraseAll(t.args, g), 0)
    ensures t.args == [] ==> EraseAll(t.args, g) == [] && Raw(t, style, g) == [t.name]
    ensures t.args != [] ==> Raw(t, style, g) == [t.name] + (["<"] + RawAll(t.args, style, g) + [">"])
    ensures |EraseAll(t.args, g)| == |t.args|
  {
  }

  lemma {:induction false} EraseRawAll(ts: seq<Type>, style: Style, g: Generics, rest: seq<string>, open: seq<bool>)
    requires (forall t :: t in ts ==> ValidType(t, g)) && ValidGenerics(g)
    ensures EraseNullable(RawAll(ts, style, g) + rest, open)
         == PlainList(EraseAll(ts, g)) + EraseNullable(rest, open)
    decreases ts
  {
    hide EraseNullable;
    hide PlainTokens;
    if ts == [] {
      assert RawAll(ts, style, g) + rest == rest;
    } else if |ts| == 1 {
      EraseRaw(ts[0], style, g, rest, open);
      assert EraseAll(ts[1..], g) == [];
    } else {
      var tail := RawAll(ts[1..], style, g) + rest;
      EraseRaw(ts[0], style, g, [","] + tail, open);
      assert RawAll(ts, style, g) + rest == Raw(ts[0], style, g) + ([","] + tail);
      ErasePlain(",", tail, open);
      EraseRawAll(ts[1..], style, g, rest, open);
      assert EraseAll(ts, g)[1..] == EraseAll(ts[1..], g);
    }
  }

  lemma ErasePlain(token: string, rest: seq<string>, open: seq<bool>)
    requires token != "<" && token != ">" && token != "Nullable"
    ensures EraseNullable([token] + rest, open) == [token] + EraseNullable(rest, open)
  {
    assert ([token] + rest)[1..] == rest;
  }

  lemma EraseHead(head: string, rest: seq<string>, open: seq<bool>)
    requires IsHead(head)
    ensures EraseNullable([head] + rest, open) == [head] + EraseNullable(rest, open)
    ensures PlainTokens(Plain(head, [], 0)) == [head]
  {
    assert head[0] in head;
    ErasePlain(head, rest, open);
  }

  lemma EraseBrackets(head: string, raw: seq<string>, kept: seq<string>, rest: seq<string>, open: seq<bool>)
    requires IsHead(head)
    requires EraseNullable(raw + ([">"] + rest), open + [true])
          == kept + EraseNullable([">"] + rest, open + [true])
    ensures EraseNullable([head] + (["<"] + raw + [">"]) + rest, open)
         == [head, "<"] + kept + [">"] + EraseNullable(rest, open)
  {
    hide EraseNullable;
    var inner := raw + ([">"] + rest);
    assert [head] + (["<"] + raw + [">"]) + rest == [head] + (["<"] + inner);
    EraseHead(head, ["<"] + inner, open);
    EraseLess(inner, open);
    EraseClose(rest, open, true);
  }

  lemma EraseWrapper(raw: seq<string>, kept: seq<string>, rest: seq<string>, open: seq<bool>)
    requires EraseNullable(raw + ([">"] + rest), open + [false])
          == kept + EraseNullable([">"] + rest, open + [false])
    ensures EraseNullable(["Nullable", "<"] + raw + [">"] + rest, open) == kept + EraseNullable(rest, open)
  {
    hide EraseNullable;
    var inner := raw + ([">"] + rest);
    assert ["Nullable", "<"] + raw + [">"] + rest == ["Nullable", "<"] + inner;
    EraseOpenNullable(inner, open);
    EraseClose(rest, open, false);
  }

  lemma EraseLess(rest: seq<string>, open: seq<bool>)
    ensures EraseNullable(["<"] + rest, open) == ["<"] + EraseNullable(rest, open + [true])
  {
    assert (["<"] + rest)[1..] == rest;
  }

  lemma EraseOpenNullable(rest: seq<string>, open: seq<bool>)
    ensures EraseNullable(["Nullable", "<"] + rest, open) == EraseNullable(rest, open + [false])
  {
    assert (["Nullable", "<"] + rest)[2..] == rest;
  }

  lemma EraseClose(rest: seq<string>, open: seq<bool>, kept: bool)
    ensures EraseNullable([">"] + rest, open + [kept])
         == (if kept then [">"] else []) + EraseNullable(rest, open)
  {
    assert ([">"] + rest)[1..] == rest && (open + [kept])[..|open|] == open;
  }

  lemma EraseDim(rest: seq<string>, open: seq<bool>)
    ensures EraseNullable(["[", "]"] + rest, open) == ["[", "]"] + EraseNullable(rest, open)
  {
    hide EraseNullable;
    ErasePlain("[", ["]"] + rest, open);
    ErasePlain("]", rest, open);
    assert ["[", "]"] + rest == ["["] + (["]"] + rest);
  }

  lemma AngleTokens(head: string, args: seq<Plain>)
    requires args != []
    ensures PlainTokens(Plain(head, args, 0)) == [head, "<"] + PlainList(args) + [">"]
  {
  }

  lemma ArrayTokens(p: Plain)
    ensures PlainTokens(p.(dims := p.dims + 1)) == PlainTokens(p) + ["[", "]"]
  {
    DimsBack(p.dims);
  }

  lemma {:induction false} DimsBack(n: nat)
    ensures Dims(n + 1) == Dims(n) + ["[", "]"]
  {
    if n > 0 {
      DimsBack(n - 1);
    }
  }

  // --- modifiers and by-reference ------------------------------------------------

  /** A character some spelling of a type may hold: no `&`, `(`, `)` or `-`. */
  predicate IsSpellingChar(c: char) {
    IsNameChar(c) || c in {'!', '<', '>', ',', ' ', '?', '[', ']'}
  }

  lemma {:induction false} SpellingChars(t: Type, style: Style, g: Generics)
    requires ValidType(t, g) && ValidGenerics(g)
    ensures forall c :: c in Spell(t, style, g) ==> IsSpellingChar(c)
    decreases t
  {
    hide CSharpWord, RuntimeName, IsKeyword;
    match t
    case Named(_, _, name, args) =>
      SpellingCharsAll(args, style, g);
      NamedChars(t, style, g);
    case Keyword(p) => KeywordNames(p);
    case MethodParam(i) => assert IsHead(g.ofMethod[i]);
    case TypeParam(i) => assert IsHead(g.ofType[i]);
    case Nullable(elem, _) =>
      SpellingChars(elem, style, g);
      NullableChars(t, style, g);
    case ArrayOf(elem) => SpellingChars(elem, style, g);
  }

  lemma NamedChars(t: Type, style: Style, g: Generics)
    requires ValidType(t, g) && t.Named?
    requires forall c :: c in SpellAll(t.args, style, g) ==> IsSpellingChar(c)
    ensures forall c :: c in Spell(t, style, g) ==> IsSpellingChar(c)
  {
    hide Spell, IsKeyword;
    var before := (if style == Source then t.sourceQualifier else t.clrQualifier) + t.name
      + if style == Clr && t.args != [] then "`" + Show(|t.args|) else "";
    SpellNamed(t, style, g, before);
  }

  lemma NullableChars(t: Type, style: Style, g: Generics)
    requires ValidType(t, g) && t.Nullable?
    requires forall c :: c in Spell(t.elem, style, g) ==> IsSpellingChar(c)
    ensures forall c :: c in Spell(t, style, g) ==> IsSpellingChar(c)
  {
    hide Spell;
    SpellNullable(t, style, g);
  }

  lemma {:induction false} SpellingCharsAll(ts: seq<Type>, style: Style, g: Generics)
    requires (forall t :: t in ts ==> ValidType(t, g)) && ValidGenerics(g)
    ensures forall c :: c in SpellAll(ts, style, g) ==> IsSpellingChar(c)
    decreases ts
  {
    if ts != [] {
      SpellingChars(ts[0], style, g);
      SpellingCharsAll(ts[1..], style, g);
    }
  }

  /** Not blank at either end, and any blank inside follows a `<`. */
  predicate WellSpelled(s: string) {
    && s != "" && Trimmed(s)
    && forall k :: 0 <= k < |s| && s[k] in WHITESPACE ==> '<' in s[..k]
  }

  predicate IsWord(s: string) {
    s != "" && forall c :: c in s ==> IsNameChar(c) || c == '!'
  }

  lemma NullableBlanks(t: Type, style: Style, g: Generics)
    requires ValidType(t, g) && t.Nullable? && WellSpelled(Spell(t.elem, style, g))
    ensures WellSpelled(Spell(t, style, g))
  {
    hide WellSpelled, Spell;
    SpellNullable(t, style, g);
    var s := Spell(t.elem, style, g);
    if Wraps(t.form, style) {
      assert IsWord(WrapperName(style));
      BlanksInBrackets(WrapperName(style), s);
    } else {
      BlanksBeforeSuffix(s, if style == Source then "?" else "");
    }
  }

  lemma {:induction false} SpellingBlanks(t: Type, style: Style, g: Generics)
    requires ValidType(t, g) && ValidGenerics(g)
    ensures WellSpelled(Spell(t, style, g))
    decreases t
  {
    hide WellSpelled, CSharpWord, RuntimeName, IsKeyword;
    match t
    case Named(source, clr, name, args) =>
      NamedBlanks(t, style, g);
    case Keyword(p) =>
      KeywordNames(p);
      WordIsWellSpelled(CSharpWord(p));
      WordIsWellSpelled("System." + RuntimeName(p));
    case MethodParam(i) =>
      assert IsHead(g.ofMethod[i]);
      WordIsWellSpelled(g.ofMethod[i]);
    case TypeParam(i) =>
      assert IsHead(g.ofType[i]);
      WordIsWellSpelled(g.ofType[i]);
    case Nullable(elem, form) =>
      SpellingBlanks(elem, style, g);
      NullableBlanks(t, style, g);
    case ArrayOf(elem) =>
      SpellingBlanks(elem, style, g);
      BlanksBeforeSuffix(Spell(elem, style, g), "[]");
  }

  lemma NamedBlanks(t: Type, style: Style, g: Generics)
    requires ValidType(t, g) && t.Named?
    ensures WellSpelled(Spell(t, style, g))
  {
    hide WellSpelled, IsKeyword, Spell;
    var before := (if style == Source then t.sourceQualifier else t.clrQualifier) + t.name
      + if style == Clr && t.args != [] then "`" + Show(|t.args|) else "";
    assert IsWord(before);
    SpellNamed(t, style, g, before);
    if t.args != [] {
      BlanksInBrackets(before, SpellAll(t.args, style, g));
    } else {
      WordIsWellSpelled(before);
    }
  }

  lemma WordIsWellSpelled(s: string)
    requires IsWord(s)
    ensures WellSpelled(s)
  {
    forall k | 0 <= k < |s|
      ensures s[k] !in WHITESPACE
    {
      assert s[k] in s;
    }
  }

  lemma BlanksInBrackets(before: string, inside: string)
    requires IsWord(before)
    ensures WellSpelled(before + "<" + inside + ">")
  {
    assert forall k :: 0 <= k < |before| ==> before[k] in before;
    var s := before + "<" + inside + ">";
    forall k | 0 <= k < |s| && s[k] in WHITESPACE
      ensures '<' in s[..k]
    {
      assert s[..k][|before|] == '<';
    }
  }

  lemma BlanksBeforeSuffix(s: string, suffix: string)
    requires WellSpelled(s) && suffix in {"", "?", "[]", "&"}
    ensures WellSpelled(s + suffix)
  {
    forall k | 0 <= k < |s + suffix| && (s + suffix)[k] in WHITESPACE
      ensures '<' in (s + suffix)[..k]
    {
      assert (s + suffix)[..k] == s[..k];
    }
  }

  /** A type's first word is no modifier: a word cut short by a blank holds a `<`. */
  lemma NoModifier(s: string)
    requires WellSpelled(s)
    ensures StripModifiers(s) == (false, s)
  {
    var split := SplitOnce(s, WHITESPACE);
    if split.Some? {
      var word := split.value.0;
      assert '<' in word;
      ModifiersAreWords(word);
    }
  }

  lemma ModifiersAreWords(word: string)
    requires '<' in word
    ensures !PassesByReference(word) && !IsDroppedModifier(word)
  {
  }

  lemma {:induction false} StripSpelled(ms: seq<Modifier>, s: string)
    requires StripModifiers(s) == (false, s) && s != "" && Trimmed(s)
    ensures StripModifiers(SpellModifiers(ms) + s) == (PassByRef(ms), s)
    ensures Trimmed(SpellModifiers(ms) + s) && SpellModifiers(ms) + s != ""
  {
    hide ModifierWord, StripModifiers, Trimmed;
    if ms == [] {
      assert SpellModifiers(ms) + s == s;
    } else {
      var rest := SpellModifiers(ms[1..]) + s;
      StripSpelled(ms[1..], s);
      assert SpellModifiers(ms) + s == ModifierWord(ms[0]) + [' '] + rest;
      StripOne(ms[0], rest);
    }
  }

  lemma StripOne(m: Modifier, rest: string)
    requires Trimmed(rest) && rest != ""
    ensures StripModifiers(ModifierWord(m) + [' '] + rest)
         == (m in {Ref, Out, In} || StripModifiers(rest).0, StripModifiers(rest).1)
    ensures Trimmed(ModifierWord(m) + [' '] + rest)
  {
    hide ModifierWord, PassesByReference, IsDroppedModifier, SplitOnce;
    ModifierSplit(m, rest);
    assert TrimStart(rest) == rest;
  }

  lemma ModifierSplit(m: Modifier, rest: string)
    ensures SplitOnce(ModifierWord(m) + [' '] + rest, WHITESPACE) == Some((ModifierWord(m), rest))
    ensures PassesByReference(ModifierWord(m)) <==> m in {Ref, Out, In}
    ensures PassesByReference(ModifierWord(m)) || IsDroppedModifier(ModifierWord(m))
    ensures ModifierWord(m) != "" && ModifierWord(m)[0] !in WHITESPACE
  {
    ModifierIsWord(m);
    SplitOnceAt(ModifierWord(m), ' ', rest, WHITESPACE);
  }

  lemma ModifierIsWord(m: Modifier)
    ensures ModifierWord(m) != ""
    ensures forall c :: c in ModifierWord(m) ==> c !in WHITESPACE
  {
  }

  // --- the main results ---------------------------------------------------------

  /** Either spelling of a parameter normalises to its erased type behind one by-reference mark. */
  lemma SpellingTokens(p: Param, style: Style, g: Generics)
    requires ValidParam(p, g) && ValidGenerics(g)
    ensures ParameterTokens(SpellParam(p, style, g)) == ParamTokens(p, g)
    ensures Trimmed(SpellParam(p, style, g)) && SpellParam(p, style, g) != ""
  {
    hide StripModifiers, Tokenize, EraseNullable, SpellParam, Raw, PlainTokens, Erase, Trimmed, Trim, ValidType;
    var text := SpellParam(p, style, g);
    SpellingRest(p, style, g);
    assert "" + text == text;
    TrimPadded("", text);
    MarkedErase(IsByRef(p), p.ty, style, g);
  }

  /** After its modifiers a spelling is its type, with the CLR's `&` if by reference. */
  lemma SpellingRest(p: Param, style: Style, g: Generics)
    requires ValidParam(p, g) && ValidGenerics(g)
    ensures Trimmed(SpellParam(p, style, g)) && SpellParam(p, style, g) != ""
    ensures var (byRef, rest) := StripModifiers(SpellParam(p, style, g));
            && (byRef || '&' in rest) == IsByRef(p)
            && Tokenize(rest) == Raw(p.ty, style, g)
  {
    hide StripModifiers, Tokenize, Spell;
    var s := Spell(p.ty, style, g);
    SpellingBlanks(p.ty, style, g);
    SpellingChars(p.ty, style, g);
    TokenizeSpell(p.ty, style, g);
    NoModifier(s);
    if style == Source {
      StripSpelled(p.modifiers, s);
    } else if IsByRef(p) {
      BlanksBeforeSuffix(s, "&");
      NoModifier(s + "&");
      TokenizeAppend(s, "&");
      TokenizeBreak('&');
    } else {
      assert s + "" == s;
    }
  }

  lemma MarkedErase(byRef: bool, t: Type, style: Style, g: Generics)
    requires ValidType(t, g) && ValidGenerics(g)
    ensures EraseNullable(ByRefMark(byRef) + Raw(t, style, g), [])
         == ByRefMark(byRef) + PlainTokens(Erase(t, g))
  {
    hide EraseNullable, PlainTokens, Raw;
    EraseRaw(t, style, g, [], []);
    EraseDone([]);
    assert Raw(t, style, g) + [] == Raw(t, style, g);
    if byRef {
      ErasePlain(BY_REF, Raw(t, style, g), []);
    } else {
      assert ByRefMark(byRef) + Raw(t, style, g) == Raw(t, style, g);
    }
  }

  lemma EraseDone(open: seq<bool>)
    ensures EraseNullable([], open) == []
  {
  }

  /**
   A parameter without generic placeholders has one normal form in both spellings,
   and a by-value spelling never shares it with a by-reference one.
   */
  lemma SpellingsAgree(p: Param, q: Param, g: Generics)
    requires ValidParam(p, g) && ValidParam(q, g) && ValidGenerics(g)
    ensures ParameterTokens(SpellParam(p, Source, g)) == ParameterTokens(SpellParam(p, Clr, g))
    ensures forall a: Style, b: Style ::
              ParameterTokens(SpellParam(p, a, g)) == ParameterTokens(SpellParam(q, b, g)) <==>
              IsByRef(p) == IsByRef(q) && Erase(p.ty, g) == Erase(q.ty, g)
  {
    hide ParameterTokens, PlainTokens, SpellParam;
    forall style: Style
      ensures ParameterTokens(SpellParam(p, style, g)) == ParamTokens(p, g)
      ensures ParameterTokens(SpellParam(q, style, g)) == ParamTokens(q, g)
    {
      SpellingTokens(p, style, g);
      SpellingTokens(q, style, g);
    }
    ParamTokensInjective(p, q, g, g);
  }

  /** Normal forms are equal exactly when the erased types and the passing modes are. */
  lemma ParamTokensInjective(p: Param, q: Param, g: Generics, h: Generics)
    requires ValidParam(p, g) && ValidParam(q, h) && ValidGenerics(g) && ValidGenerics(h)
    ensures ParamTokens(p, g) == ParamTokens(q, h) <==>
            IsByRef(p) == IsByRef(q) && Erase(p.ty, g) == Erase(q.ty, h)
  {
    var a, b := Erase(p.ty, g), Erase(q.ty, h);
    ErasedHeads(p.ty, g);
    ErasedHeads(q.ty, h);
    if ParamTokens(p, g) == ParamTokens(q, h) {
      hide PlainTokens, Erase, IsByRef;
      NotMarked(a);
      NotMarked(b);
      assert ParamTokens(p, g)[0] == ParamTokens(q, h)[0];
      var mark := |ByRefMark(IsByRef(p))|;
      assert ParamTokens(p, g)[mark..] == PlainTokens(a) + [];
      assert ParamTokens(q, h)[mark..] == PlainTokens(b) + [];
      PlainInjective(a, b, [], []);
    }
  }

  lemma NotMarked(p: Plain)
    requires ValidPlain(p)
    ensures PlainTokens(p) != [] && PlainTokens(p)[0] != BY_REF
  {
    assert p.head[0] in p.head;
  }

  predicate ValidPlain(p: Plain) {
    IsHead(p.head) && forall a :: a in p.args ==> ValidPlain(a)
  }

  lemma {:induction false} ErasedHeads(t: Type, g: Generics)
    requires ValidType(t, g) && ValidGenerics(g)
    ensures ValidPlain(Erase(t, g))
    decreases t
  {
    match t
    case Named(_, _, _, args) => ErasedHeadsAll(args, g);
    case Keyword(p) => KeywordNames(p);
    case MethodParam(i) => assert g.ofMethod[i] in g.ofMethod;
    case TypeParam(i) => assert g.ofType[i] in g.ofType;
    case Nullable(elem, _) => ErasedHeads(elem, g);
    case ArrayOf(elem) => ErasedHeads(elem, g);
  }

  lemma {:induction false} ErasedHeadsAll(ts: seq<Type>, g: Generics)
    requires (forall t :: t in ts ==> ValidType(t, g)) && ValidGenerics(g)
    ensures forall p :: p in EraseAll(ts, g) ==> ValidPlain(p)
    decreases ts
  {
    if ts != [] {
      ErasedHeads(ts[0], g);
      ErasedHeadsAll(ts[1..], g);
    }
  }

  /** What may follow a complete type: not more of the same type. */
  predicate EndsType(rest: seq<string>) {
    rest != [] ==> rest[0] != "<" && rest[0] != "["
  }

  /** The token list of an erased type can be read back in one way only. */
  lemma {:induction false} PlainInjective(p: Plain, q: Plain, r: seq<string>, s: seq<string>)
    requires ValidPlain(p) && ValidPlain(q)
    requires EndsType(r) && EndsType(s)
    requires PlainTokens(p) + r == PlainTokens(q) + s
    ensures p == q && r == s
    decreases p, 0
  {
    hide PlainTokens, Bracketed, Dims;
    var left, right := Dims(p.dims) + r, Dims(q.dims) + s;
    PlainFront(p, r);
    PlainFront(q, s);
    assert ([p.head] + (Bracketed(p.args) + left))[1..] == Bracketed(p.args) + left;
    assert ([q.head] + (Bracketed(q.args) + right))[1..] == Bracketed(q.args) + right;
    BracketedInjective(p.args, q.args, left, right);
    DimsInjective(p.dims, q.dims, r, s);
  }

  lemma PlainFront(p: Plain, r: seq<string>)
    requires EndsType(r)
    ensures PlainTokens(p) + r == [p.head] + (Bracketed(p.args) + (Dims(p.dims) + r))
    ensures Dims(p.dims) + r != [] ==> (Dims(p.dims) + r)[0] != "<"
  {
    if p.dims == 0 {
      assert Dims(p.dims) + r == r;
    }
  }

  lemma {:induction false} BracketedInjective(ps: seq<Plain>, qs: seq<Plain>, r: seq<string>, s: seq<string>)
    requires forall p :: p in ps ==> ValidPlain(p)
    requires forall q :: q in qs ==> ValidPlain(q)
    requires r != [] ==> r[0] != "<"
    requires s != [] ==> s[0] != "<"
    requires Bracketed(ps) + r == Bracketed(qs) + s
    ensures ps == qs && r == s
    decreases ps, 1
  {
    hide PlainList;
    assert ps != [] ==> (Bracketed(ps) + r)[0] == "<";
    assert qs != [] ==> (Bracketed(qs) + s)[0] == "<";
    if ps != [] && qs != [] {
      assert (Bracketed(ps) + r)[1..] == PlainList(ps) + ([">"] + r);
      assert (Bracketed(qs) + s)[1..] == PlainList(qs) + ([">"] + s);
      PlainListInjective(ps, qs, r, s);
    } else {
      assert Bracketed(ps) + r == r && Bracketed(qs) + s == s;
    }
  }

  /** What follows the first element of a bracketed list. */
  function AfterFirst(ps: seq<Plain>, r: seq<string>): (after: seq<string>)
    requires ps != []
    ensures EndsType(after)
  {
    if |ps| == 1 then [">"] + r else [","] + (PlainList(ps[1..]) + ([">"] + r))
  }

  lemma PlainListFront(ps: seq<Plain>, r: seq<string>)
    requires ps != []
    ensures PlainList(ps) + ([">"] + r) == PlainTokens(ps[0]) + AfterFirst(ps, r)
  {
  }

  lemma AfterFirstParts(ps: seq<Plain>, r: seq<string>)
    requires ps != []
    ensures AfterFirst(ps, r) != [] && AfterFirst(ps, r)[0] == if |ps| == 1 then ">" else ","
    ensures AfterFirst(ps, r)[1..] == if |ps| == 1 then r else PlainList(ps[1..]) + ([">"] + r)
  {
  }

  lemma {:induction false} PlainListInjective(ps: seq<Plain>, qs: seq<Plain>, r: seq<string>, s: seq<string>)
    requires ps != [] && qs != []
    requires forall p :: p in ps ==> ValidPlain(p)
    requires forall q :: q in qs ==> ValidPlain(q)
    requires PlainList(ps) + ([">"] + r) == PlainList(qs) + ([">"] + s)
    ensures ps == qs && r == s
    decreases ps, 0
  {
    hide PlainList, PlainTokens, AfterFirst, ValidPlain, EndsType;
    PlainListFront(ps, r);
    PlainListFront(qs, s);
    PlainInjective(ps[0], qs[0], AfterFirst(ps, r), AfterFirst(qs, s));
    AfterFirstParts(ps, r);
    AfterFirstParts(qs, s);
    if |ps| > 1 {
      PlainListInjective(ps[1..], qs[1..], r, s);
    }
    assert ps == [ps[0]] + ps[1..] && qs == [qs[0]] + qs[1..];
  }

  lemma {:induction false} DimsInjective(m: nat, n: nat, r: seq<string>, s: seq<string>)
    requires EndsType(r) && EndsType(s)
    requires Dims(m) + r == Dims(n) + s
    ensures m == n && r == s
  {
    hide Dims;
    DimsFront(m, r);
    DimsFront(n, s);
    if m > 0 && n > 0 {
      assert (Dims(m) + r)[2..] == (Dims(n) + s)[2..];
      DimsInjective(m - 1, n - 1, r, s);
    }
  }

  lemma DimsFront(n: nat, rest: seq<string>)
    ensures n == 0 ==> Dims(n) + rest == rest
    ensures n > 0 ==> |Dims(n)| >= 2 && (Dims(n) + rest)[0] == "[" && (Dims(n) + rest)[2..] == Dims(n - 1) + rest
  {
  }
}
