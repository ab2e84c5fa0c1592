/** Reading a printed expression gives the expression back, up to what the syntax writes alike. */
module HclRoundTrip {
  import opened Wrappers
  import opened SortedMap
  import opened GraphIr
  import opened Hcl
  import opened HclParser
  import opened HclReassoc
  import opened HclSteps
  import opened HclForHeads
  import Escaping
  import T = Templates
  import TemplateSafety

  ghost predicate NoCall(rest: seq<Token>) {
    !At(rest, LParen)
  }

  /** Tokens that end an expression. */
  ghost predicate Stops(rest: seq<Token>) {
    !At(rest, LParen) && !At(rest, LBracket) && !At(rest, Dot) && !At(rest, Question)
  }

  ghost predicate Starts(tokens: seq<Token>) {
    && tokens != []
    && (tokens[0].Ident? || tokens[0].Num? || tokens[0].Quoted? || tokens[0].LBracket? || tokens[0].LBrace?)
  }

  lemma {:induction false} RenderStarts(e: Expr)
    requires Readable(e)
    ensures Starts(Render(e))
  {
    match e
    case Index(collection, _) => RenderStarts(collection);
    case Attribute(of, _) => RenderStarts(of);
    case Splat(of) => RenderStarts(of);
    case Conditional(condition, _, _) => RenderStarts(condition);
    case _ =>
  }

  // ----- quoted text -----

  lemma {:induction false} CodesOfChars(strict: bool, s: string)
    ensures ReadCodes(strict, T.Chars(s)) == T.Chars(s)
  {
    var content: Content := T.Chars(s);
    if s != "" {
      CodesOfChars(strict, s[1..]);
      assert content == [T.Ch(s[0])] + T.Chars(s[1..]);
      CodesCons(strict, T.Ch(s[0]), T.Chars(s[1..]));
      assert T.Chars<Option<Expr>>(s) == [T.Ch(s[0])] + T.Chars(s[1..]);
    }
  }

  lemma {:induction false} WholeText(s: string)
    ensures Whole(T.Chrs(s)) == Some(T.Chrs(s))
  {
    var decoded: seq<T.Decoded<Option<Expr>>> := T.Chrs(s);
    if s == "" {
      assert decoded == [];
      assert T.Chrs<Expr>(s) == [];
    } else {
      WholeText(s[1..]);
      assert decoded[1..] == T.Chrs(s[1..]);
      assert T.Chrs<Expr>(s) == [T.Chr(s[0])] + T.Chrs(s[1..]);
    }
  }

  lemma {:induction false} GroupText(s: string)
    ensures Group(T.Chrs(s)) == if s == "" then [] else [Verbatim(s)]
  {
    if s != "" {
      GroupText(s[1..]);
      assert T.Chrs<Expr>(s)[1..] == T.Chrs(s[1..]);
      assert s == [s[0]] + s[1..];
      if s[1..] == "" {
        assert s == [s[0]];
      }
    }
  }

  lemma {:induction false} CharactersOfText<C>(s: string)
    ensures Characters(T.Chrs<C>(s)) == Some(s)
  {
    if s != "" {
      CharactersOfText<C>(s[1..]);
      assert T.Chrs<C>(s)[1..] == T.Chrs(s[1..]);
      assert s == [s[0]] + s[1..];
    }
  }

  lemma TextReads(strict: bool, text: string, rest: seq<Token>)
    ensures ParseTerm(strict, [QuoteText(text)] + rest) == Some((Literal(Text(text)), rest))
  {
    var escaped := Escaping.EscapeTemplate(text);
    Escaping.EscapeIsOnePass(text);
    CodesOfChars(strict, escaped);
    T.EscapeDecodes<Option<Expr>>(text);
    WholeText(text);
    GroupText(text);
    QuotedTerm(strict, T.Chars(escaped), T.Chrs(text), T.Chrs(text), rest);
  }

  lemma KeyReads(text: string)
    ensures TextOf(QuoteText(text).content) == Some(text)
  {
    Escaping.EscapeIsOnePass(text);
    T.EscapeDecodes<Snippet>(text);
    CharactersOfText<Snippet>(text);
  }

  // ----- templates -----

  function ReadParts(parts: seq<TemplatePart>): seq<T.Part<Option<Expr>>> {
    if parts == [] then [] else [ReadPart(parts[0])] + ReadParts(parts[1..])
  }

  function ReadPart(part: TemplatePart): T.Part<Option<Expr>> {
    match part
    case Verbatim(text) => T.Verbatim(text)
    case Interpolation(expression) => T.Interpolation(Some(Normal(expression)))
  }

  lemma CodesOfInterpolation(strict: bool, tokens: seq<Token>, e: Expr)
    requires ParseAll(strict, tokens) == Some(e)
    ensures ReadCodes(strict, T.PrintPart(T.Interpolation(Snippet(tokens)))) == T.PrintPart(T.Interpolation(Some(e)))
  {
    var code := T.Code(Snippet(tokens));
    var none: Content := [];
    CodesCons(strict, T.Ch('}'), none);
    CodesCons(strict, code, [T.Ch('}')]);
    CodesCons(strict, T.Ch('{'), [code, T.Ch('}')]);
    CodesCons(strict, T.Ch('$'), [T.Ch('{'), code, T.Ch('}')]);
    assert [T.Ch('}')] + none == [T.Ch('}')];
    assert [code] + [T.Ch('}')] == [code, T.Ch('}')];
    assert [T.Ch('{')] + [code, T.Ch('}')] == [T.Ch('{'), code, T.Ch('}')];
    assert [T.Ch('$')] + [T.Ch('{'), code, T.Ch('}')] == T.PrintPart(T.Interpolation(Snippet(tokens)));
  }

  lemma {:induction false} CodesOfParts(strict: bool, parts: seq<TemplatePart>)
    requires forall p :: p in parts && p.Interpolation? ==>
                           ParseAll(strict, Render(p.expression)) == Some(Normal(p.expression))
    ensures ReadCodes(strict, T.Print(RenderParts(parts))) == T.Print(ReadParts(parts))
  {
    if parts != [] {
      var first, rest := parts[0], parts[1..];
      assert first in parts && forall p :: p in rest ==> p in parts;
      CodesOfParts(strict, rest);
      match first {
        case Verbatim(text) => CodesOfChars(strict, Escaping.EscapeTemplate(text));
        case Interpolation(e) => CodesOfInterpolation(strict, Render(e), Normal(e));
      }
      CodesAppend(strict, T.PrintPart(RenderPart(first)), T.Print(RenderParts(rest)));
      assert RenderParts(parts)[1..] == RenderParts(rest);
      assert ReadParts(parts)[1..] == ReadParts(rest);
    }
  }

  lemma {:induction false} PartsAlike(parts: seq<TemplatePart>)
    ensures |RenderParts(parts)| == |ReadParts(parts)| == |parts|
    ensures forall i :: 0 <= i < |parts| ==> TemplateSafety.SameText(RenderParts(parts)[i], ReadParts(parts)[i])
  {
    if parts != [] {
      PartsAlike(parts[1..]);
      assert TemplateSafety.SameText(RenderPart(parts[0]), ReadPart(parts[0]));
    }
  }

  function WholeOne(d: T.Decoded<Option<Expr>>): seq<T.Decoded<Expr>> {
    match d
    case Chr(c) => [T.Chr(c)]
    case Hole(code) => if code.Some? then [T.Hole(code.value)] else []
    case Raw(_) => []
  }

  predicate CanRead(d: T.Decoded<Option<Expr>>) {
    !d.Raw? && (d.Hole? ==> d.code.Some?)
  }

  lemma WholeCons(d: T.Decoded<Option<Expr>>, rest: seq<T.Decoded<Option<Expr>>>)
    ensures Whole([d] + rest) ==
            if CanRead(d) && Whole(rest).Some? then Some(WholeOne(d) + Whole(rest).value) else None
  {
    assert ([d] + rest)[1..] == rest;
  }

  lemma {:induction false} WholeAppend(a: seq<T.Decoded<Option<Expr>>>, b: seq<T.Decoded<Option<Expr>>>)
    requires Whole(a).Some? && Whole(b).Some?
    ensures Whole(a + b) == Some(Whole(a).value + Whole(b).value)
  {
    if a == [] {
      assert a + b == b;
      assert Whole(a).value + Whole(b).value == Whole(b).value;
    } else {
      var first, rest := a[0], a[1..];
      assert a == [first] + rest;
      WholeCons(first, rest);
      WholeAppend(rest, b);
      T.Associate([first], rest, b);
      WholeCons(first, rest + b);
      T.Associate(WholeOne(first), Whole(rest).value, Whole(b).value);
    }
  }

  lemma WholeHole(e: Expr)
    ensures Whole([T.Hole(Some(e))]) == Some([T.Hole(e)])
  {
    var decoded := [T.Hole(Some(e))];
    var none: seq<T.Decoded<Expr>> := [];
    assert decoded[1..] == [];
    assert Whole(decoded[1..]) == Some(none);
    assert [T.Hole(e)] + none == [T.Hole(e)];
  }

  lemma {:induction false} WholeParts(parts: seq<TemplatePart>)
    ensures Whole(T.Flatten(ReadParts(parts))) == Some(T.Flatten(NormalParts(parts)))
  {
    if parts != [] {
      var head := T.FlattenPart(ReadPart(parts[0]));
      WholeParts(parts[1..]);
      assert ReadParts(parts)[1..] == ReadParts(parts[1..]);
      assert NormalParts(parts)[1..] == NormalParts(parts[1..]);
      match parts[0] {
        case Verbatim(text) => WholeText(text);
        case Interpolation(e) => WholeHole(Normal(e));
      }
      WholeAppend(head, T.Flatten(ReadParts(parts[1..])));
    }
  }

  lemma TemplateDecodes(strict: bool, parts: seq<TemplatePart>)
    requires TemplateSafety.Safe(RenderParts(parts))
    requires forall p :: p in parts && p.Interpolation? ==>
                           ParseAll(strict, Render(p.expression)) == Some(Normal(p.expression))
    ensures T.Decode(ReadCodes(strict, T.Print(RenderParts(parts)))) == Some(T.Flatten(ReadParts(parts)))
  {
    CodesOfParts(strict, parts);
    PartsAlike(parts);
    TemplateSafety.SafetyOfTexts(None, RenderParts(parts), ReadParts(parts));
    TemplateSafety.TemplateReadsBack(ReadParts(parts));
  }

  lemma TemplateReads(strict: bool, parts: seq<TemplatePart>, content: Content, rest: seq<Token>)
    requires T.Decode(ReadCodes(strict, content)) == Some(T.Flatten(ReadParts(parts)))
    ensures ParseTerm(strict, [Quoted(content)] + rest) == Some((FromDecoded(T.Flatten(NormalParts(parts))), rest))
  {
    WholeParts(parts);
    QuotedTerm(strict, content, T.Flatten(ReadParts(parts)), T.Flatten(NormalParts(parts)), rest);
  }

  // ----- references -----

  function Extend(base: Expr, path: seq<string>): Expr
    requires base.ResourceAttr? || base.DataSourceAttr?
  {
    if base.ResourceAttr? then ResourceAttr(base.address, base.path + path)
    else DataSourceAttr(base.address, base.path + path)
  }

  lemma ExtendOneMore(base: Expr, step: string, path: seq<string>)
    requires base.ResourceAttr? || base.DataSourceAttr?
    ensures Extend(Access(base, step), path) == Extend(base, [step] + path)
  {
    assert (base.path + [step]) + path == base.path + ([step] + path);
  }

  lemma {:induction false} PathReads(strict: bool, base: Expr, path: seq<string>, rest: seq<Token>)
    requires base.ResourceAttr? || base.DataSourceAttr?
    ensures ParseSteps(strict, base, PathTokens(path) + rest) == ParseSteps(strict, Extend(base, path), rest)
    decreases |path|
  {
    if path == [] {
      assert PathTokens(path) + rest == rest;
      assert base.path + path == base.path;
    } else {
      var more := PathTokens(path[1..]) + rest;
      T.Associate([Dot, Ident(path[0])], PathTokens(path[1..]), rest);
      assert PathTokens(path) + rest == [Dot, Ident(path[0])] + more;
      StepsDot(strict, base, path[0], more);
      PathReads(strict, Access(base, path[0]), path[1..], rest);
      ExtendOneMore(base, path[0], path[1..]);
      assert [path[0]] + path[1..] == path;
    }
  }

  lemma ResourceNameReads(kind: string, name: string, rest: seq<Token>)
    requires kind !in RESERVED
    ensures ParseName(kind, [Dot, Ident(name)] + rest) == Some((ResourceAttr(Resource(kind, name), []), rest))
  {
    assert ([Dot, Ident(name)] + rest)[2..] == rest;
  }

  lemma DataSourceNameReads(kind: string, name: string, rest: seq<Token>)
    ensures ParseName("data", [Dot, Ident(kind), Dot, Ident(name)] + rest)
         == Some((DataSourceAttr(DataSource(kind, name), []), rest))
  {
    assert ([Dot, Ident(kind), Dot, Ident(name)] + rest)[4..] == rest;
  }

  lemma SecretNameReads(name: string, rest: seq<Token>)
    ensures ParseName("var", [Dot, Ident(SECRET_PREFIX + name)] + rest) == Some((SecretEnv(name), rest))
  {
    assert ([Dot, Ident(SECRET_PREFIX + name)] + rest)[2..] == rest;
    assert (SECRET_PREFIX + name)[|SECRET_PREFIX|..] == name;
  }

  lemma ReferenceReads(strict: bool, e: Expr, rest: seq<Token>)
    requires Readable(e) && (e.ResourceAttr? || e.DataSourceAttr?)
    ensures ParseOperand(strict, Render(e) + rest) == ParseSteps(strict, e, rest)
  {
    var after := PathTokens(e.path) + rest;
    match e.address {
      case Resource(kind, name) =>
        var tokens := [Dot, Ident(name)] + after;
        assert Render(e) + rest == [Ident(kind)] + tokens;
        NameTerm(strict, kind, tokens);
        ResourceNameReads(kind, name, after);
        OperandOfTerm(strict, [Ident(kind)] + tokens, ResourceAttr(e.address, []), after);
        PathReads(strict, ResourceAttr(e.address, []), e.path, rest);
      case DataSource(kind, name) =>
        var tokens := [Dot, Ident(kind), Dot, Ident(name)] + after;
        assert Render(e) + rest == [Ident("data")] + tokens;
        NameTerm(strict, "data", tokens);
        DataSourceNameReads(kind, name, after);
        OperandOfTerm(strict, [Ident("data")] + tokens, DataSourceAttr(e.address, []), after);
        PathReads(strict, DataSourceAttr(e.address, []), e.path, rest);
    }
    assert [] + e.path == e.path;
  }

  lemma SecretReads(strict: bool, name: string, rest: seq<Token>)
    ensures ParseOperand(strict, Render(SecretEnv(name)) + rest) == ParseSteps(strict, SecretEnv(name), rest)
  {
    var tokens := [Dot, Ident(SECRET_PREFIX + name)] + rest;
    assert Render(SecretEnv(name)) + rest == [Ident("var")] + tokens;
    NameTerm(strict, "var", tokens);
    SecretNameReads(name, rest);
    OperandOfTerm(strict, [Ident("var")] + tokens, SecretEnv(name), rest);
  }

  // ----- literals -----

  lemma AtomReads(strict: bool, value: Value, rest: seq<Token>)
    requires NoCall(rest) && !value.List? && !value.Record?
    ensures ParseTerm(strict, RenderValue(value) + rest) == Some((Literal(value), rest))
  {
    match value
    case Text(text) => TextReads(strict, text, rest);
    case Number(lexeme) => NumberTerm(strict, lexeme, rest);
    case Null => NameTerm(strict, "null", rest);
    case Bool(truth) => NameTerm(strict, if truth then "true" else "false", rest);
  }

  lemma {:induction false} ValueTermReads(strict: bool, value: Value, rest: seq<Token>)
    requires NoCall(rest)
    ensures ParseTerm(strict, RenderValue(value) + rest) == Some((Unfold(value), rest))
    decreases value, 2
  {
    match value {
      case List(values) =>
        ValuesRead(strict, values, rest);
        Regroup([LBracket], RenderValues(values), [RBracket], rest);
        ValuesOpenNoFor(values, [RBracket] + rest);
        ArrayTerm(strict, RenderValues(values) + ([RBracket] + rest), UnfoldAll(values), rest);
      case Record(members) =>
        MembersRead(strict, members, rest);
        Regroup([LBrace], RenderMembers(members), [RBrace], rest);
        ObjectTerm(strict, RenderMembers(members) + ([RBrace] + rest), UnfoldMembers(members), rest);
      case _ => AtomReads(strict, value, rest);
    }
  }

  lemma Regroup(a: seq<Token>, b: seq<Token>, c: seq<Token>, d: seq<Token>)
    ensures a + b + c + d == a + (b + (c + d))
  {
  }

  lemma ValueStarts(value: Value)
    ensures Starts(RenderValue(value))
  {
  }

  lemma {:induction false} ValueExprReads(strict: bool, value: Value, rest: seq<Token>)
    requires Stops(rest)
    ensures ParseExpr(strict, RenderValue(value) + rest) == Some((Unfold(value), rest))
    decreases value, 3
  {
    ValueTermReads(strict, value, rest);
    TermExpr(strict, RenderValue(value) + rest, Unfold(value), rest);
  }

  /** A term that ends is the whole expression. */
  lemma TermExpr(strict: bool, tokens: seq<Token>, term: Expr, rest: seq<Token>)
    requires ParseTerm(strict, tokens) == Some((term, rest)) && Stops(rest)
    ensures ParseExpr(strict, tokens) == Some((term, rest))
  {
    OperandOfTerm(strict, tokens, term, rest);
    StepsEnd(strict, term, rest);
    ExprEnds(strict, tokens, term, rest);
  }

  /** What follows an item of a printed list: the closing token, or a comma and the others. */
  lemma {:induction false} ValuesRead(strict: bool, values: seq<Value>, rest: seq<Token>)
    ensures ParseList(strict, RenderValues(values) + ([RBracket] + rest), RBracket) == Some((UnfoldAll(values), rest))
    ensures values != [] ==>
              var tokens := RenderValues(values) + ([RBracket] + rest);
              ParseItems(strict, tokens, RBracket) == Some((UnfoldAll(values), rest))
    decreases values, 1
  {
    var tokens := RenderValues(values) + ([RBracket] + rest);
    if values == [] {
      assert tokens == [RBracket] + rest;
      ListCloses(strict, RBracket, rest);
    } else {
      var first := RenderValue(values[0]);
      ValueStarts(values[0]);
      if |values| == 1 {
        assert tokens == first + ([RBracket] + rest);
        ValueExprReads(strict, values[0], [RBracket] + rest);
        ItemsEnd(strict, tokens, RBracket, Unfold(values[0]), rest);
        assert UnfoldAll(values) == [Unfold(values[0])];
      } else {
        var more := RenderValues(values[1..]) + ([RBracket] + rest);
        assert tokens == first + ([Comma] + more);
        ValueExprReads(strict, values[0], [Comma] + more);
        ValuesRead(strict, values[1..], rest);
        ItemsMore(strict, tokens, RBracket, Unfold(values[0]), more, UnfoldAll(values[1..]), rest);
      }
      ListOpens(strict, tokens, RBracket);
    }
  }

  /** A list that does not close at once holds items. */
  lemma ListOpens(strict: bool, tokens: seq<Token>, close: Token)
    requires !At(tokens, close)
    ensures ParseList(strict, tokens, close) == ParseItems(strict, tokens, close)
  {
  }

  lemma FieldsOpen(strict: bool, tokens: seq<Token>)
    requires !At(tokens, RBrace)
    ensures ParseFields(strict, tokens) == ParseMembers(strict, tokens)
  {
  }

  lemma {:induction false} MembersRead(strict: bool, members: seq<Entry<Value>>, rest: seq<Token>)
    ensures ParseFields(strict, RenderMembers(members) + ([RBrace] + rest)) == Some((UnfoldMembers(members), rest))
    ensures members != [] ==>
              ParseMembers(strict, RenderMembers(members) + ([RBrace] + rest)) == Some((UnfoldMembers(members), rest))
    decreases members, 1
  {
    var tokens := RenderMembers(members) + ([RBrace] + rest);
    if members == [] {
      assert tokens == [RBrace] + rest;
      FieldsClose(strict, rest);
    } else {
      var key, first := QuoteText(members[0].key), RenderValue(members[0].value);
      KeyReads(members[0].key);
      if |members| == 1 {
        var inner := first + ([RBrace] + rest);
        assert tokens == [key, Equals] + inner;
        ValueExprReads(strict, members[0].value, [RBrace] + rest);
        MembersEnd(strict, key, members[0].key, inner, Unfold(members[0].value), rest);
        assert UnfoldMembers(members) == [Entry(members[0].key, Unfold(members[0].value))];
      } else {
        var more := RenderMembers(members[1..]) + ([RBrace] + rest);
        var inner := first + ([Comma] + more);
        assert tokens == [key, Equals] + inner;
        ValueExprReads(strict, members[0].value, [Comma] + more);
        MembersRead(strict, members[1..], rest);
        MembersMore(
          strict, key, members[0].key, inner, Unfold(members[0].value), more, UnfoldMembers(members[1..]), rest);
      }
      FieldsOpen(strict, tokens);
    }
  }

  // ----- expressions -----

  lemma ListOpensNoFor(items: seq<Expr>, rest: seq<Token>)
    requires ReadableAll(items) && (items == [] || !StartsFor(items[0])) && !At(rest, FOR)
    ensures !At(RenderList(items) + rest, FOR)
  {
    if items != [] {
      RenderStartsFor(items[0]);
    }
  }

  lemma ValuesOpenNoFor(values: seq<Value>, rest: seq<Token>)
    requires !At(rest, FOR)
    ensures !At(RenderValues(values) + rest, FOR)
  {
    if values != [] {
      ValueStartsNoFor(values[0]);
    }
  }

  lemma IndexTokens(collection: Expr, key: Expr, inner: seq<Token>, rest: seq<Token>)
    requires inner == Render(key) + ([RBracket] + rest)
    ensures Render(Index(collection, key)) + rest == Render(collection) + ([LBracket] + inner)
  {
    Regroup(Render(collection) + [LBracket], Render(key), [RBracket], rest);
    T.Associate(Render(collection), [LBracket], inner);
  }

  ghost predicate IsTerm(e: Expr) {
    e.Literal? || e.Array? || e.Object? || e.Function? || e.Template?
  }

  /** Literals, collections, calls and quoted templates are read in one piece. */
  lemma {:induction false} TermReads(strict: bool, e: Expr, rest: seq<Token>)
    requires Readable(e) && Placed(e) && (strict ==> NoForHead(e)) && IsTerm(e) && NoCall(rest)
    ensures ParseTerm(strict, Render(e) + rest) == Some((Normal(e), rest))
    decreases e, 1
  {
    match e {
      case Literal(value) => ValueTermReads(strict, value, rest);
      case Array(items) =>
        ListReads(strict, items, RBracket, rest);
        Regroup([LBracket], RenderList(items), [RBracket], rest);
        if strict { ListOpensNoFor(items, [RBracket] + rest); }
        ArrayTerm(strict, RenderList(items) + ([RBracket] + rest), NormalAll(items), rest);
      case Object(fields) =>
        FieldsRead(strict, fields, rest);
        Regroup([LBrace], RenderFields(fields), [RBrace], rest);
        ObjectTerm(strict, RenderFields(fields) + ([RBrace] + rest), NormalFields(fields), rest);
      case Function(name, args) =>
        ListReads(strict, args, RParen, rest);
        Regroup([Ident(name), LParen], RenderList(args), [RParen], rest);
        CallTerm(strict, name, RenderList(args) + ([RParen] + rest), NormalAll(args), rest);
      case Template(parts) =>
        PartsRead(strict, parts);
        TemplateDecodes(strict, parts);
        TemplateReads(strict, parts, T.Print(RenderParts(parts)), rest);
    }
  }

  /** Reading the text of an operand leaves the reader with its normal form as the base of
      whatever steps follow. */
  lemma {:induction false} OperandReads(strict: bool, e: Expr, rest: seq<Token>)
    requires Readable(e) && Placed(e) && (strict ==> NoForHead(e)) && !e.Conditional? && NoCall(rest)
    ensures ParseOperand(strict, Render(e) + rest) == ParseSteps(strict, Normal(e), rest)
    decreases e, 2
  {
    if IsTerm(e) {
      TermReads(strict, e, rest);
      OperandOfTerm(strict, Render(e) + rest, Normal(e), rest);
      return;
    }
    match e {
      case ResourceAttr(_, _) => ReferenceReads(strict, e, rest);
      case DataSourceAttr(_, _) => ReferenceReads(strict, e, rest);
      case SecretEnv(name) => SecretReads(strict, name, rest);
      case Index(collection, key) =>
        var inner := Render(key) + ([RBracket] + rest);
        RenderStarts(key);
        ExprReads(strict, key, [RBracket] + rest);
        OperandReads(strict, collection, [LBracket] + inner);
        IndexReads(strict, collection, key, rest);
      case Attribute(of, name) =>
        T.Associate(Render(of), [Dot, Ident(name)], rest);
        OperandReads(strict, of, [Dot, Ident(name)] + rest);
        StepsDot(strict, Normal(of), name, rest);
      case Splat(of) =>
        T.Associate(Render(of), [LBracket, Star, RBracket], rest);
        OperandReads(strict, of, [LBracket, Star, RBracket] + rest);
        StepsSplat(strict, Normal(of), rest);
    }
  }

  lemma IndexReads(strict: bool, collection: Expr, key: Expr, rest: seq<Token>)
    requires Starts(Render(key))
    requires var inner := Render(key) + ([RBracket] + rest);
             && ParseExpr(strict, inner) == Some((Normal(key), [RBracket] + rest))
             && ParseOperand(strict, Render(collection) + ([LBracket] + inner))
                == ParseSteps(strict, Normal(collection), [LBracket] + inner)
    ensures ParseOperand(strict, Render(Index(collection, key)) + rest)
         == ParseSteps(strict, Index(Normal(collection), Normal(key)), rest)
  {
    var inner := Render(key) + ([RBracket] + rest);
    IndexTokens(collection, key, inner, rest);
    StepsIndex(strict, Normal(collection), inner, Normal(key), rest);
  }

  lemma ConditionalTokens(c: Expr, t: Expr, f: Expr, rest: seq<Token>)
    ensures Render(Conditional(c, t, f)) + rest
         == Render(c) + ([Question] + (Render(t) + ([Colon] + (Render(f) + rest))))
  {
    var asked, first := Render(c) + [Question], Render(t);
    Regroup(asked + first, [Colon], Render(f), rest);
    T.Associate(asked, first, [Colon] + (Render(f) + rest));
    T.Associate(Render(c), [Question], first + ([Colon] + (Render(f) + rest)));
  }

  lemma {:induction false} ExprReads(strict: bool, e: Expr, rest: seq<Token>)
    requires Readable(e) && Placed(e) && (strict ==> NoForHead(e)) && Stops(rest)
    ensures ParseExpr(strict, Render(e) + rest) == Some((Normal(e), rest))
    decreases e, 3
  {
    match e {
      case Conditional(c, t, f) =>
        var third := Render(f) + rest;
        var second := Render(t) + ([Colon] + third);
        ConditionalTokens(c, t, f, rest);
        OperandReads(strict, c, [Question] + second);
        StepsEnd(strict, Normal(c), [Question] + second);
        ExprReads(strict, t, [Colon] + third);
        ExprReads(strict, f, rest);
        ExprAsks(strict, Render(e) + rest, Normal(c), second, Normal(t), third, Normal(f), rest);
      case _ =>
        OperandReads(strict, e, rest);
        StepsEnd(strict, Normal(e), rest);
        ExprEnds(strict, Render(e) + rest, Normal(e), rest);
    }
  }

  lemma {:induction false} AllReads(strict: bool, e: Expr)
    requires Readable(e) && Placed(e) && (strict ==> NoForHead(e))
    ensures ParseAll(strict, Render(e)) == Some(Normal(e))
    decreases e, 4
  {
    ExprReads(strict, e, []);
    assert Render(e) + [] == Render(e);
  }

  lemma {:induction false} PartsRead(strict: bool, parts: seq<TemplatePart>)
    requires ReadableParts(parts) && PlacedParts(parts) && (strict ==> NoForHeadParts(parts))
    ensures forall p :: p in parts && p.Interpolation? ==>
                          ParseAll(strict, Render(p.expression)) == Some(Normal(p.expression))
    decreases parts, 1
  {
    if parts != [] {
      PartReads(strict, parts[0]);
      PartsRead(strict, parts[1..]);
      assert forall p :: p in parts <==> p == parts[0] || p in parts[1..];
    }
  }

  lemma {:induction false} PartReads(strict: bool, part: TemplatePart)
    requires ReadablePart(part) && PlacedPart(part) && (strict ==> NoForHeadPart(part))
    ensures part.Interpolation? ==> ParseAll(strict, Render(part.expression)) == Some(Normal(part.expression))
    decreases part, 1
  {
    if part.Interpolation? {
      AllReads(strict, part.expression);
    }
  }

  lemma {:induction false} ListReads(strict: bool, items: seq<Expr>, close: Token, rest: seq<Token>)
    requires ReadableAll(items) && PlacedAll(items) && (strict ==> NoForHeadAll(items))
    requires close == RBracket || close == RParen
    ensures ParseList(strict, RenderList(items) + ([close] + rest), close) == Some((NormalAll(items), rest))
    ensures items != [] ==>
              ParseItems(strict, RenderList(items) + ([close] + rest), close) == Some((NormalAll(items), rest))
    decreases items, 1
  {
    var tokens := RenderList(items) + ([close] + rest);
    if items == [] {
      assert tokens == [close] + rest;
      ListCloses(strict, close, rest);
    } else {
      var first := Render(items[0]);
      RenderStarts(items[0]);
      if |items| == 1 {
        assert tokens == first + ([close] + rest);
        ExprReads(strict, items[0], [close] + rest);
        ItemsEnd(strict, tokens, close, Normal(items[0]), rest);
        assert NormalAll(items) == [Normal(items[0])];
      } else {
        var more := RenderList(items[1..]) + ([close] + rest);
        assert tokens == first + ([Comma] + more);
        ExprReads(strict, items[0], [Comma] + more);
        ListReads(strict, items[1..], close, rest);
        ItemsMore(strict, tokens, close, Normal(items[0]), more, NormalAll(items[1..]), rest);
      }
      ListOpens(strict, tokens, close);
    }
  }

  lemma OneFieldTokens(fields: seq<Entry<Expr>>, rest: seq<Token>)
    requires |fields| == 1
    ensures RenderFields(fields) + rest == [QuoteText(fields[0].key), Equals] + (Render(fields[0].value) + rest)
  {
    var head, value := [QuoteText(fields[0].key), Equals], Render(fields[0].value);
    assert RenderFields(fields) == head + value;
    T.Associate(head, value, rest);
  }

  lemma MoreFieldsTokens(fields: seq<Entry<Expr>>, rest: seq<Token>)
    requires |fields| > 1
    ensures RenderFields(fields) + rest
         == [QuoteText(fields[0].key), Equals]
            + (Render(fields[0].value) + ([Comma] + (RenderFields(fields[1..]) + rest)))
  {
    var head, value, more := [QuoteText(fields[0].key), Equals], Render(fields[0].value), RenderFields(fields[1..]);
    assert RenderFields(fields) == (head + value) + ([Comma] + more);
    T.Associate(head + value, [Comma] + more, rest);
    T.Associate([Comma], more, rest);
    T.Associate(head, value, [Comma] + (more + rest));
  }

  lemma {:induction false} FieldsRead(strict: bool, fields: seq<Entry<Expr>>, rest: seq<Token>)
    requires ReadableFields(fields) && PlacedFields(fields) && (strict ==> NoForHeadFields(fields))
    ensures ParseFields(strict, RenderFields(fields) + ([RBrace] + rest)) == Some((NormalFields(fields), rest))
    ensures fields != [] ==>
              ParseMembers(strict, RenderFields(fields) + ([RBrace] + rest)) == Some((NormalFields(fields), rest))
    decreases fields, 1
  {
    var tokens := RenderFields(fields) + ([RBrace] + rest);
    if fields == [] {
      assert tokens == [RBrace] + rest;
      FieldsClose(strict, rest);
    } else {
      var key, first := QuoteText(fields[0].key), Render(fields[0].value);
      KeyReads(fields[0].key);
      if |fields| == 1 {
        var inner := first + ([RBrace] + rest);
        OneFieldTokens(fields, [RBrace] + rest);
        ExprReads(strict, fields[0].value, [RBrace] + rest);
        MembersEnd(strict, key, fields[0].key, inner, Normal(fields[0].value), rest);
        assert NormalFields(fields) == [Entry(fields[0].key, Normal(fields[0].value))];
      } else {
        var more := RenderFields(fields[1..]) + ([RBrace] + rest);
        var inner := first + ([Comma] + more);
        MoreFieldsTokens(fields, [RBrace] + rest);
        ExprReads(strict, fields[0].value, [Comma] + more);
        FieldsRead(strict, fields[1..], rest);
        MembersMore(strict, key, fields[0].key, inner, Normal(fields[0].value), more, NormalFields(fields[1..]), rest);
      }
      FieldsOpen(strict, tokens);
    }
  }

  // ----- the whole printer -----

  /** The reader gives a printed expression back, with its conditionals where the text puts them
      and up to what the syntax writes alike, if and only if no array in it opens a
      for-expression. */
  lemma PrintedReads(e: Expr)
    requires Readable(e)
    ensures ParseAll(true, Render(e)) == Some(Normal(Reassoc(e))) <==> NoForHead(e)
  {
    ReassocSpec(e);
    ReassocHeads(e);
    NormalHeads(Reassoc(e));
    AllHeads(Render(e));
    if NoForHead(e) {
      ReassocReadable(e);
      AllReads(true, Reassoc(e));
    }
  }

  /** It reads back as itself if and only if no conditional is the base of an index, attribute or
      splat or the condition of another conditional, and no array's first item starts with `for`. */
  lemma PrintedReadsBack(e: Expr)
    requires Readable(e)
    ensures ParseAll(true, Render(e)) == Some(Normal(e)) <==> Placed(e) && NoForHead(e)
  {
    NormalHeads(e);
    AllHeads(Render(e));
    if NoForHead(e) {
      PrintedReads(e);
      ReassocSpec(e);
      NormalPlaced(e);
      NormalPlaced(Reassoc(e));
    }
  }

  /** Two readable expressions with the same text are the same up to what the syntax writes
      alike, arrays that open a for-expression included. */
  lemma PrintingSeparates(a: Expr, b: Expr)
    requires Readable(a) && Readable(b) && Placed(a) && Placed(b)
    requires Render(a) == Render(b)
    ensures Normal(a) == Normal(b)
  {
    AllReads(false, a);
    AllReads(false, b);
  }

  /** Written before an attribute, a conditional takes the attribute into its last branch. */
  lemma AttributeMovesIntoBranch(c: Expr, t: Expr, f: Expr, name: string)
    requires var e := Conditional(c, t, f); Readable(e) && Placed(e) && NoForHead(e)
    requires !f.Conditional?
    ensures ParseAll(true, Render(Attribute(Conditional(c, t, f), name)))
         == Some(Normal(Conditional(c, t, Attribute(f, name))))
    ensures ParseAll(true, Render(Attribute(Conditional(c, t, f), name)))
         != Some(Normal(Attribute(Conditional(c, t, f), name)))
  {
    var written := Attribute(Conditional(c, t, f), name);
    ReassocSpec(Conditional(c, t, f));
    assert Reassoc(written) == Push(Conditional(c, t, f), Dotted(name));
    assert Push(Conditional(c, t, f), Dotted(name)) == Conditional(c, t, Attribute(f, name));
    PrintedReads(written);
    PrintedReadsBack(written);
  }

  /** A resource kind the graph accepts, in an array the printer accepts, that no reader takes. */
  lemma ForKindIsNotRead()
    ensures var e := Function("tolist", [Array([ResourceAttr(Resource("for", "x"), ["id"])])]);
            WellFormed(e) && Readable(e) && Placed(e) && ParseAll(true, Render(e)) != Some(Normal(e))
  {
    var item := ResourceAttr(Resource("for", "x"), ["id"]);
    OneItem(item);
    OneItem(Array([item]));
    PrintedReadsBack(Function("tolist", [Array([item])]));
  }

  lemma OneItem(item: Expr)
    ensures ReadableAll([item]) <==> Readable(item)
    ensures PlacedAll([item]) <==> Placed(item)
    ensures NoForHeadAll([item]) <==> NoForHead(item)
  {
    assert [item][1..] == [];
  }

  /** A reference to a resource reads back if and only if its kind is none of five names that mean
      something else. */
  lemma KindReadsBack(kind: string, name: string)
    ensures var e := ResourceAttr(Resource(kind, name), []);
            ParseAll(true, Render(e)) == Some(e) <==> kind !in ["null", "true", "false", "var", "data"]
  {
    var e := ResourceAttr(Resource(kind, name), []);
    if kind in RESERVED {
      ReservedIsNotRead(kind, name);
    } else {
      PrintedReadsBack(e);
    }
  }

  lemma ReservedIsNotRead(kind: string, name: string)
    requires kind in RESERVED
    ensures ParseAll(true, Render(ResourceAttr(Resource(kind, name), [])))
         != Some(ResourceAttr(Resource(kind, name), []))
  {
    var after := [Dot, Ident(name)];
    var tokens := [Ident(kind)] + after;
    assert Render(ResourceAttr(Resource(kind, name), [])) == tokens;
    NameTerm(true, kind, after);
    match ParseName(kind, after)
    case Some((term, rest)) =>
      OperandOfTerm(true, tokens, term, rest);
      if rest == [] {
        StepsEnd(true, term, []);
        ExprEnds(true, tokens, term, []);
      } else {
        assert rest == after + [];
        StepsDot(true, term, name, []);
        StepsEnd(true, Access(term, name), []);
        ExprEnds(true, tokens, Access(term, name), []);
      }
    case None =>
      assert ParseOperand(true, tokens) == None;
      assert ParseExpr(true, tokens) == None;
  }

  /** Nodes are referred to by kind and name, stacks as remote states. */
  lemma NodesAreReferredTo(r: ResourceSpec, d: DataSourceSpec, stack: string)
    ensures Render(ResourceAttr(r.Address(), [])) == [Ident(r.kind), Dot, Ident(r.name)]
    ensures Render(DataSourceAttr(d.Address(), [])) == [Ident("data"), Dot, Ident(d.kind), Dot, Ident(d.name)]
    ensures Render(DataSourceAttr(StackAddress(stack), []))
         == [Ident("data"), Dot, Ident("terraform_remote_state"), Dot, Ident(stack)]
  {
    assert PathTokens([]) == [];
  }

  /** A resource of kind `data` is written like a data source. */
  lemma DataKindIsAmbiguous(name: string, step: string, path: seq<string>)
    ensures Render(ResourceAttr(Resource("data", name), [step] + path))
         == Render(DataSourceAttr(DataSource(name, step), path))
  {
    assert ([step] + path)[1..] == path;
  }
}
