/** Normal forms keep the text: what the reader identifies is exactly what the syntax writes
    alike. */
module HclNormalText {
  import opened Wrappers
  import opened SortedMap
  import opened GraphIr
  import Escaping
  import T = Templates
  import TemplateSafety
  import opened Hcl
  import opened HclReassoc
  import opened HclRoundTrip

  // ----- templates, symbol by symbol -----

  predicate IsBrace<C>(decoded: seq<T.Decoded<C>>) {
    decoded != [] && decoded[0].Chr? && decoded[0].c == '{'
  }

  /** A character, twice when it is a marker before a brace. */
  function WriteChar<C>(c: char, beforeBrace: bool): seq<T.Symbol<C>> {
    if (c == '$' || c == '%') && beforeBrace then [T.Ch(c), T.Ch(c)] else [T.Ch(c)]
  }

  /** The text of a decoded template, each character escaped by what follows it. */
  function Write<C>(decoded: seq<T.Decoded<C>>): seq<T.Symbol<C>> {
    if decoded == [] then []
    else
      var rest := decoded[1..];
      match decoded[0]
      case Chr(c) => WriteChar(c, IsBrace(rest)) + Write(rest)
      case Hole(code) => [T.Ch('$'), T.Ch('{'), T.Code(code), T.Ch('}')] + Write(rest)
      case Raw(code) => [T.Code(code)] + Write(rest)
  }

  lemma BraceApart(c: char, escaped: string)
    ensures [c, c, '{'] + escaped == [c, c] + (['{'] + escaped)
  {
  }

  lemma MarkerStep(c: char, more: string)
    requires Escaping.Marker(c)
    ensures Escaping.Escape([c, '{'] + more) == [c, c] + Escaping.Escape(['{'] + more)
  {
    Escaping.EscapeMarker(c, more);
    Escaping.EscapeOther('{', more);
    BraceApart(c, Escaping.Escape(more));
  }

  lemma EscapeStep(c: char, rest: string)
    ensures Escaping.Escape([c] + rest)
         == (if Escaping.Marker(c) && rest != "" && rest[0] == '{' then [c, c] else [c]) + Escaping.Escape(rest)
  {
    if Escaping.Marker(c) && rest != "" && rest[0] == '{' {
      assert rest == ['{'] + rest[1..];
      assert [c] + (['{'] + rest[1..]) == [c, '{'] + rest[1..];
      MarkerStep(c, rest[1..]);
    } else {
      Escaping.EscapeOther(c, rest);
    }
  }

  lemma EscapeCons<C>(c: char, rest: string)
    ensures T.Chars<C>(Escaping.EscapeTemplate([c] + rest))
         == WriteChar(c, rest != "" && rest[0] == '{') + T.Chars(Escaping.EscapeTemplate(rest))
  {
    Escaping.EscapeIsOnePass([c] + rest);
    Escaping.EscapeIsOnePass(rest);
    EscapeStep(c, rest);
    var head := if Escaping.Marker(c) && rest != "" && rest[0] == '{' then [c, c] else [c];
    T.CharsAppend<C>(head, Escaping.Escape(rest));
    assert T.Chars<C>(head) == WriteChar(c, rest != "" && rest[0] == '{');
  }

  /** Text writes as it is escaped, unless its last character is a marker before a brace. */
  lemma {:induction false} WriteText<C>(text: string, rest: seq<T.Decoded<C>>)
    requires text != "" && Escaping.Marker(text[|text| - 1]) ==> !IsBrace(rest)
    ensures Write(T.Chrs(text) + rest) == T.Chars(Escaping.EscapeTemplate(text)) + Write(rest)
  {
    if text == "" {
      Escaping.EscapeIsOnePass(text);
      assert T.Chrs<C>(text) + rest == rest;
    } else {
      var c, more := text[0], text[1..];
      WriteText(more, rest);
      EscapeCons<C>(c, more);
      assert text == [c] + more;
      WriteCons(c, more, rest);
      T.Associate(
        WriteChar<C>(c, more != "" && more[0] == '{'), T.Chars(Escaping.EscapeTemplate(more)), Write(rest));
    }
  }

  lemma WriteCons<C>(c: char, more: string, rest: seq<T.Decoded<C>>)
    requires more == "" && Escaping.Marker(c) ==> !IsBrace(rest)
    ensures Write(T.Chrs([c] + more) + rest)
         == WriteChar(c, more != "" && more[0] == '{') + Write(T.Chrs(more) + rest)
  {
    var decoded, tail := T.Chrs<C>([c] + more) + rest, T.Chrs<C>(more) + rest;
    assert decoded[0] == T.Chr(c) && decoded[1..] == tail;
    assert more == "" ==> tail == rest;
  }

  /** A safe template is written symbol by symbol. */
  lemma {:induction false} SafeWrites<C>(prev: Option<char>, parts: seq<T.Part<C>>)
    requires TemplateSafety.SafeAfter(prev, parts)
    ensures T.Print(parts) == Write(T.Flatten(parts))
    ensures prev.Some? && Escaping.Marker(prev.value) ==> !IsBrace(T.Flatten(parts))
    decreases |parts|
  {
    if parts != [] {
      var rest := parts[1..];
      match parts[0]
      case Verbatim(text) =>
        SafeWrites(if text == "" then prev else Some(text[|text| - 1]), rest);
        WriteText(text, T.Flatten(rest));
      case Interpolation(code) =>
        SafeWrites(None, rest);
        assert T.Flatten(parts) == [T.Hole(code)] + T.Flatten(rest);
        assert T.Flatten(parts)[1..] == T.Flatten(rest);
    }
  }

  // ----- joining text keeps the text -----

  function RenderDecoded(decoded: seq<T.Decoded<Expr>>): seq<T.Decoded<Snippet>> {
    if decoded == [] then []
    else
      var rest := RenderDecoded(decoded[1..]);
      match decoded[0]
      case Chr(c) => [T.Chr(c)] + rest
      case Hole(code) => [T.Hole(Snippet(Render(code)))] + rest
      case Raw(code) => [T.Raw(Snippet(Render(code)))] + rest
  }

  ghost predicate NoRaw(decoded: seq<T.Decoded<Expr>>) {
    forall d :: d in decoded ==> !d.Raw?
  }

  lemma GroupHead(decoded: seq<T.Decoded<Expr>>)
    ensures var parts := Group(decoded);
            if decoded != [] && decoded[0].Chr?
            then parts != [] && parts[0].Verbatim? && parts[0].text != "" && parts[0].text[0] == decoded[0].c
            else parts == [] || parts[0].Interpolation?
  {
  }

  lemma PrintRendered(first: TemplatePart, rest: seq<TemplatePart>)
    ensures T.Print(RenderParts([first] + rest)) == T.PrintPart(RenderPart(first)) + T.Print(RenderParts(rest))
  {
    assert ([first] + rest)[1..] == rest;
    assert RenderParts([first] + rest)[1..] == RenderParts(rest);
  }

  lemma RenderedBrace(decoded: seq<T.Decoded<Expr>>)
    ensures IsBrace(RenderDecoded(decoded)) == IsBrace(decoded)
  {
  }

  lemma {:induction false} GroupWrites(decoded: seq<T.Decoded<Expr>>)
    requires NoRaw(decoded)
    ensures T.Print(RenderParts(Group(decoded))) == Write(RenderDecoded(decoded))
  {
    if decoded != [] {
      var tail := decoded[1..];
      var rest := Group(tail);
      GroupWrites(tail);
      GroupHead(tail);
      RenderedBrace(tail);
      assert decoded[0] in decoded;
      assert RenderDecoded(decoded)[1..] == RenderDecoded(tail);
      match decoded[0]
      case Chr(c) =>
        var head := WriteChar<Snippet>(c, IsBrace(tail));
        if rest != [] && rest[0].Verbatim? {
          var text, more := rest[0].text, rest[1..];
          assert rest == [rest[0]] + more;
          PrintRendered(rest[0], more);
          PrintRendered(Verbatim([c] + text), more);
          EscapeCons<Snippet>(c, text);
          T.Associate(head, T.Chars(Escaping.EscapeTemplate(text)), T.Print(RenderParts(more)));
        } else {
          PrintRendered(Verbatim([c]), rest);
          EscapeCons<Snippet>(c, "");
          Escaping.EscapeIsOnePass("");
          assert [c] + "" == [c];
          assert T.PrintPart(RenderPart(Verbatim([c]))) == head;
        }
      case Hole(code) => PrintRendered(Interpolation(code), rest);
    }
  }

  lemma {:induction false} RenderDecodedAppend(a: seq<T.Decoded<Expr>>, b: seq<T.Decoded<Expr>>)
    ensures RenderDecoded(a + b) == RenderDecoded(a) + RenderDecoded(b)
  {
    if a == [] {
      assert a + b == b;
    } else {
      assert (a + b)[1..] == a[1..] + b;
      RenderDecodedAppend(a[1..], b);
    }
  }

  lemma {:induction false} RenderedText(text: string)
    ensures RenderDecoded(T.Chrs(text)) == T.Chrs(text)
  {
    if text != "" {
      RenderedText(text[1..]);
      assert T.Chrs<Expr>(text)[1..] == T.Chrs(text[1..]);
      assert T.Chrs<Snippet>(text) == [T.Chr(text[0])] + T.Chrs(text[1..]);
    }
  }

  ghost predicate TextKept(e: Expr) {
    Render(Normal(e)) == Render(e)
  }

  lemma {:induction false} PartsFlattenAlike(parts: seq<TemplatePart>)
    requires forall p :: p in parts && p.Interpolation? ==> TextKept(p.expression)
    ensures RenderDecoded(T.Flatten(NormalParts(parts))) == T.Flatten(RenderParts(parts))
    ensures NoRaw(T.Flatten(NormalParts(parts)))
  {
    if parts != [] {
      var first, rest := parts[0], parts[1..];
      PartsFlattenAlike(rest);
      var head := T.FlattenPart(NormalPart(first));
      assert NormalParts(parts)[1..] == NormalParts(rest);
      assert RenderParts(parts)[1..] == RenderParts(rest);
      RenderDecodedAppend(head, T.Flatten(NormalParts(rest)));
      if first.Verbatim? {
        RenderedText(first.text);
      } else {
        assert first in parts;
        assert RenderDecoded(head) == T.FlattenPart(RenderPart(first)) by {
          assert head[1..] == [];
        }
      }
    }
  }

  lemma QuotedParts(decoded: seq<T.Decoded<Expr>>)
    ensures Render(FromDecoded(decoded)) == [Quoted(T.Print(RenderParts(Group(decoded))))]
  {
    var parts := Group(decoded);
    if parts == [] {
      Escaping.EscapeIsOnePass("");
      assert T.Chars<Snippet>("") == T.Print(RenderParts([]));
    } else if |parts| == 1 && parts[0].Verbatim? {
      var printed := T.PrintPart(RenderPart(parts[0]));
      assert parts == [parts[0]] + [];
      PrintRendered(parts[0], []);
      assert printed + T.Print(RenderParts([])) == printed;
    }
  }

  lemma TemplateTextKept(parts: seq<TemplatePart>)
    requires TemplateSafety.Safe(RenderParts(parts))
    requires forall p :: p in parts && p.Interpolation? ==> TextKept(p.expression)
    ensures Render(FromDecoded(T.Flatten(NormalParts(parts)))) == [Quoted(T.Print(RenderParts(parts)))]
  {
    var decoded := T.Flatten(NormalParts(parts));
    PartsFlattenAlike(parts);
    GroupWrites(decoded);
    PrintedWrites(parts);
    QuotedParts(decoded);
  }

  lemma PrintedWrites(parts: seq<TemplatePart>)
    requires TemplateSafety.Safe(RenderParts(parts))
    ensures T.Print(RenderParts(parts)) == Write(T.Flatten(RenderParts(parts)))
  {
    SafeWrites(None, RenderParts(parts));
  }

  // ----- every other form -----

  lemma {:induction false} UnfoldText(value: Value)
    ensures Render(Unfold(value)) == RenderValue(value)
    decreases value, 0
  {
    match value
    case List(values) => UnfoldAllText(values);
    case Record(members) => UnfoldMembersText(members);
    case _ =>
  }

  lemma {:induction false} UnfoldAllText(values: seq<Value>)
    ensures RenderList(UnfoldAll(values)) == RenderValues(values) && |UnfoldAll(values)| == |values|
    decreases values, 1
  {
    if values != [] {
      UnfoldText(values[0]);
      UnfoldAllText(values[1..]);
      assert UnfoldAll(values)[1..] == UnfoldAll(values[1..]);
    }
  }

  lemma {:induction false} UnfoldMembersText(members: seq<Entry<Value>>)
    ensures RenderFields(UnfoldMembers(members)) == RenderMembers(members) && |UnfoldMembers(members)| == |members|
    decreases members, 1
  {
    if members != [] {
      UnfoldText(members[0].value);
      UnfoldMembersText(members[1..]);
      assert UnfoldMembers(members)[1..] == UnfoldMembers(members[1..]);
    }
  }

  lemma {:induction false} PathSnoc(path: seq<string>, name: string)
    ensures PathTokens(path + [name]) == PathTokens(path) + [Dot, Ident(name)]
  {
    if path == [] {
      assert ([] + [name])[1..] == [];
    } else {
      assert (path + [name])[1..] == path[1..] + [name];
      PathSnoc(path[1..], name);
      T.Associate([Dot, Ident(path[0])], PathTokens(path[1..]), [Dot, Ident(name)]);
    }
  }

  lemma AccessText(base: Expr, name: string)
    ensures Render(Access(base, name)) == Render(base) + [Dot, Ident(name)]
  {
    if base.ResourceAttr? || base.DataSourceAttr? {
      PathSnoc(base.path, name);
      T.Associate(AddressTokens(base.address), PathTokens(base.path), [Dot, Ident(name)]);
    }
  }

  lemma {:induction false} AllTextKept(items: seq<Expr>)
    requires ReadableAll(items)
    ensures RenderList(NormalAll(items)) == RenderList(items) && |NormalAll(items)| == |items|
    decreases items, 1
  {
    if items != [] {
      NormalKeepsText(items[0]);
      AllTextKept(items[1..]);
      assert NormalAll(items)[1..] == NormalAll(items[1..]);
    }
  }

  lemma {:induction false} FieldsTextKept(fields: seq<Entry<Expr>>)
    requires ReadableFields(fields)
    ensures RenderFields(NormalFields(fields)) == RenderFields(fields) && |NormalFields(fields)| == |fields|
    decreases fields, 1
  {
    if fields != [] {
      NormalKeepsText(fields[0].value);
      FieldsTextKept(fields[1..]);
      assert NormalFields(fields)[1..] == NormalFields(fields[1..]);
    }
  }

  lemma {:induction false} PartsTextKept(parts: seq<TemplatePart>)
    requires ReadableParts(parts)
    ensures forall p :: p in parts && p.Interpolation? ==> TextKept(p.expression)
    decreases parts, 1
  {
    if parts != [] {
      PartTextKept(parts[0]);
      PartsTextKept(parts[1..]);
      assert parts == [parts[0]] + parts[1..];
    }
  }

  lemma PartTextKept(part: TemplatePart)
    requires ReadablePart(part)
    ensures part.Interpolation? ==> TextKept(part.expression)
    decreases part, 1
  {
    if part.Interpolation? {
      NormalKeepsText(part.expression);
    }
  }

  /** The normal form of an expression is printed as the expression is. */
  lemma {:induction false} NormalKeepsText(e: Expr)
    requires Readable(e)
    ensures Render(Normal(e)) == Render(e)
    decreases e, 0
  {
    match e
    case Literal(value) => UnfoldText(value);
    case Array(items) => AllTextKept(items);
    case Object(fields) => FieldsTextKept(fields);
    case Index(collection, key) => NormalKeepsText(collection); NormalKeepsText(key);
    case Attribute(of, name) => NormalKeepsText(of); AccessText(Normal(of), name);
    case Splat(of) => NormalKeepsText(of);
    case Conditional(condition, whenTrue, whenFalse) =>
      NormalKeepsText(condition); NormalKeepsText(whenTrue); NormalKeepsText(whenFalse);
    case Function(_, args) => AllTextKept(args);
    case Template(parts) =>
      PartsTextKept(parts);
      TemplateTextKept(parts);
    case _ =>
  }

  /** Two expressions are printed alike if and only if their normal forms, with the conditionals
      where the text puts them, are the same. */
  lemma SameTextIffSameNormal(a: Expr, b: Expr)
    requires Readable(a) && Readable(b)
    ensures Render(a) == Render(b) <==> Normal(Reassoc(a)) == Normal(Reassoc(b))
  {
    ReassocSpec(a);
    ReassocSpec(b);
    ReassocReadable(a);
    ReassocReadable(b);
    NormalKeepsText(Reassoc(a));
    NormalKeepsText(Reassoc(b));
    if Render(a) == Render(b) {
      PrintingSeparates(Reassoc(a), Reassoc(b));
    }
  }
}
