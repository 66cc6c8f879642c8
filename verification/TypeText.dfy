/** GraphQL type references, their printed text and the text parsers that read it back. */
module TypeText {
  import opened Common

  /** A type as the finished SDL spells it. */
  datatype Type = Named(name: string, nonNull: bool) | ListOf(item: Type, nonNull: bool) {
    function Base(): string {
      match this
      case Named(name, _) => name
      case ListOf(item, _) => item.Base()
    }
  }

  datatype TypeKind = ScalarKind | EnumKind | ObjectKind

  /** `GraphqlSemanticTypeRef`: the same tree with a kind at the leaf and an optional item bound. */
  datatype TypeRef =
    | NamedRef(name: string, kind: TypeKind, nullable: bool)
    | ListRef(nullable: bool, maximumItems: Option<u32>, item: TypeRef)

  function Erase(t: TypeRef): Type {
    match t
    case NamedRef(name, _, nullable) => Named(name, !nullable)
    case ListRef(nullable, _, item) => ListOf(Erase(item), !nullable)
  }

  /** `render_type_ref`. */
  function RenderTypeRef(t: TypeRef): string {
    match t
    case NamedRef(name, _, nullable) => name + (if nullable then "" else "!")
    case ListRef(nullable, _, item) => "[" + RenderTypeRef(item) + "]" + (if nullable then "" else "!")
  }

  function Print(t: Type): string {
    match t
    case Named(name, nonNull) => name + (if nonNull then "!" else "")
    case ListOf(item, nonNull) => "[" + Print(item) + "]" + (if nonNull then "!" else "")
  }

  // ---------------------------------------------------------------- lexical helpers

  predicate IsWhitespace(c: char) {
    || 9 <= c as int <= 13 || c as int == 32 || c as int == 0x85 || c as int == 0xA0
    || c as int == 0x1680 || 0x2000 <= c as int <= 0x200A || c as int == 0x2028
    || c as int == 0x2029 || c as int == 0x202F || c as int == 0x205F || c as int == 0x3000
  }

  function Trim(s: string): (r: string)
    ensures |r| <= |s|
  {
    if s == "" then s
    else if IsWhitespace(s[0]) then Trim(s[1..])
    else if IsWhitespace(s[|s| - 1]) then Trim(s[..|s| - 1])
    else s
  }

  predicate IsNameStart(c: char) {
    'a' <= c <= 'z' || 'A' <= c <= 'Z' || c == '_'
  }

  predicate IsNamePart(c: char) {
    IsNameStart(c) || '0' <= c <= '9'
  }

  /** `validate_graphql_name`. */
  predicate ValidName(s: string) {
    s != "" && IsNameStart(s[0]) && forall i :: 1 <= i < |s| ==> IsNamePart(s[i])
  }

  function StripBang(text: string): (r: string)
    ensures |r| <= |text|
  {
    var v := Trim(text);
    if v != "" && v[|v| - 1] == '!' then Trim(v[..|v| - 1]) else v
  }

  function BracketBody(v: string): (r: Option<string>)
    ensures r.Some? ==> |r.value| + 2 == |v|
  {
    if |v| >= 2 && v[0] == '[' && v[|v| - 1] == ']' then Some(v[1..|v| - 1]) else None
  }

  // ---------------------------------------------------------------- the parsers

  function NamedAfter(v: string): Option<string>
    decreases |v|
  {
    match BracketBody(v)
    case Some(item) => NamedAfter(StripBang(item))
    case None => if ValidName(v) then Some(v) else None
  }

  /** `named_type`. */
  method NamedType(text: string) returns (r: Option<string>)
    ensures r == NamedAfter(StripBang(text))
  {
    var value := StripBang(text);
    while true
      invariant NamedAfter(value) == NamedAfter(StripBang(text))
      decreases |value|
    {
      var item := BracketBody(value);
      if item.None? {
        break;
      }
      value := StripBang(item.value);
    }
    r := if ValidName(value) then Some(value) else None;
  }

  /** `list_item_type`. */
  function ListItemType(text: string): Option<string> {
    match BracketBody(StripBang(text))
    case Some(item) => Some(Trim(item))
    case None => None
  }

  /** `is_non_null`. */
  predicate IsNonNull(text: string) {
    var v := Trim(text);
    v != "" && v[|v| - 1] == '!'
  }

  // ---------------------------------------------------------------- printing inverts

  ghost predicate WellNamed(t: Type) {
    ValidName(t.Base())
  }

  /** The printed text without its trailing bang. */
  function Body(t: Type): string {
    match t
    case Named(name, _) => name
    case ListOf(item, _) => "[" + Print(item) + "]"
  }

  lemma BodyShape(t: Type)
    requires WellNamed(t)
    ensures Print(t) == Body(t) + (if t.nonNull then "!" else "")
    ensures Body(t) != "" && !IsWhitespace(Body(t)[0])
    ensures Body(t)[|Body(t)| - 1] != '!' && !IsWhitespace(Body(t)[|Body(t)| - 1])
    ensures Trim(Body(t)) == Body(t)
  {
  }

  lemma PrintedText(t: Type)
    requires WellNamed(t)
    ensures Trim(Print(t)) == Print(t)
    ensures StripBang(Print(t)) == Body(t)
    ensures IsNonNull(Print(t)) <==> t.nonNull
  {
    BodyShape(t);
    var p := Print(t);
    assert p[0] == Body(t)[0];
    assert t.nonNull ==> p[|p| - 1] == '!' && p[..|p| - 1] == Body(t);
  }

  lemma BracketBodyOfPrint(t: Type)
    requires WellNamed(t)
    ensures BracketBody(Body(t)) == if t.ListOf? then Some(Print(t.item)) else None
  {
    if t.ListOf? {
      var b := Body(t);
      assert b[1..|b| - 1] == Print(t.item);
    }
  }

  /** The three parsers recover the item text, the base name and the nullability of every printed type. */
  lemma {:induction false} ParsersInvertPrint(t: Type)
    requires WellNamed(t)
    ensures ListItemType(Print(t)) == if t.ListOf? then Some(Print(t.item)) else None
    ensures NamedAfter(StripBang(Print(t))) == Some(t.Base())
    ensures IsNonNull(Print(t)) <==> t.nonNull
  {
    PrintedText(t);
    BracketBodyOfPrint(t);
    if t.ListOf? {
      PrintedText(t.item);
      ParsersInvertPrint(t.item);
    }
  }

  lemma {:induction false} PrintIsInjective(t: Type, u: Type)
    requires WellNamed(t) && WellNamed(u) && Print(t) == Print(u)
    ensures t == u
  {
    ParsersInvertPrint(t);
    ParsersInvertPrint(u);
    if t.ListOf? {
      PrintIsInjective(t.item, u.item);
    }
  }

  lemma {:induction false} RenderIsPrint(t: TypeRef)
    ensures RenderTypeRef(t) == Print(Erase(t))
  {
    if t.ListRef? {
      RenderIsPrint(t.item);
    }
  }

  /** Drift checks compare rendered text: equal text is equality of types up to kind and item bound. */
  lemma RenderedTextDecidesTypes(t: TypeRef, u: TypeRef)
    requires WellNamed(Erase(t)) && WellNamed(Erase(u))
    ensures RenderTypeRef(t) == RenderTypeRef(u) <==> Erase(t) == Erase(u)
  {
    RenderIsPrint(t);
    RenderIsPrint(u);
    if RenderTypeRef(t) == RenderTypeRef(u) {
      PrintIsInjective(Erase(t), Erase(u));
    }
  }
}
