/** Lowering an argument to the JSON syntax, where every string is a template, and reading the
    result the way that syntax is read. */
module Lowering {
  import opened Wrappers
  import opened SortedMap
  import opened OrderedMap
  import opened GraphIr
  import opened Hcl
  import opened HclParser
  import opened HclReassoc
  import opened HclForHeads
  import opened HclRoundTrip
  import Escaping
  import T = Templates
  import TemplateSafety

  datatype Json =
    | JNull
    | JBool(truth: bool)
    | JNumber(lexeme: string)
    | JString(content: Content)
    | JArray(items: seq<Json>)
    | JObject(members: seq<Entry<Json>>)

  // ----- lowering -----

  function EscapeLiteral(value: Value): Json
    decreases value, 0
  {
    match value
    case Null => JNull
    case Bool(truth) => JBool(truth)
    case Number(lexeme) => JNumber(lexeme)
    case Text(text) => JString(T.Chars(Escaping.EscapeTemplate(text)))
    case List(values) => JArray(EscapeAll(values))
    case Record(members) => JObject(FromList(EscapeMembers(members)))
  }

  function EscapeAll(values: seq<Value>): seq<Json>
    decreases values, 1
  {
    if values == [] then [] else [EscapeLiteral(values[0])] + EscapeAll(values[1..])
  }

  function EscapeMembers(members: seq<Entry<Value>>): seq<Entry<Json>>
    decreases members, 1
  {
    if members == [] then []
    else [Entry(Escaping.EscapeTemplate(members[0].key), EscapeLiteral(members[0].value))] + EscapeMembers(members[1..])
  }

  function LowerExpr(e: Expr): Json
    decreases e, 0
  {
    match e
    case Literal(value) => EscapeLiteral(value)
    case Array(items) => JArray(LowerAll(items))
    case Object(fields) => JObject(FromList(LowerFields(fields)))
    case Template(parts) => JString(T.Print(RenderParts(parts)))
    case _ => JString(T.PrintPart(T.Interpolation(Snippet(Render(e)))))
  }

  function LowerAll(items: seq<Expr>): seq<Json>
    decreases items, 1
  {
    if items == [] then [] else [LowerExpr(items[0])] + LowerAll(items[1..])
  }

  function LowerFields(fields: seq<Entry<Expr>>): seq<Entry<Json>>
    decreases fields, 1
  {
    if fields == [] then []
    else [Entry(Escaping.EscapeTemplate(fields[0].key), LowerExpr(fields[0].value))] + LowerFields(fields[1..])
  }

  // ----- reading -----

  /** A template that is one interpolation is the expression itself. */
  function Unwrap(decoded: seq<T.Decoded<Expr>>): Expr {
    if |decoded| == 1 && decoded[0].Hole? then decoded[0].code else FromDecoded(decoded)
  }

  function ReadContent(content: Content): Option<Expr> {
    match T.Decode(ReadCodes(true, content))
    case None => None
    case Some(decoded) =>
      match Whole(decoded)
      case None => None
      case Some(whole) => Some(Unwrap(whole))
  }

  function ReadJson(json: Json): Option<Expr>
    decreases json, 0
  {
    match json
    case JNull => Some(Literal(Null))
    case JBool(truth) => Some(Literal(Bool(truth)))
    case JNumber(lexeme) => Some(Literal(Number(lexeme)))
    case JString(content) => ReadContent(content)
    case JArray(items) =>
      (match ReadAll(items)
       case None => None
       case Some(read) => Some(Array(read)))
    case JObject(members) =>
      (match ReadMembers(members)
       case None => None
       case Some(read) => Some(Object(read)))
  }

  function ReadAll(items: seq<Json>): Option<seq<Expr>>
    decreases items, 1
  {
    if items == [] then Some([])
    else match ReadJson(items[0])
      case None => None
      case Some(first) =>
        match ReadAll(items[1..])
        case None => None
        case Some(rest) => Some([first] + rest)
  }

  function ReadMembers(members: seq<Entry<Json>>): Option<seq<Entry<Expr>>>
    decreases members, 1
  {
    if members == [] then Some([])
    else match TextOf<Snippet>(T.Chars(members[0].key))
      case None => None
      case Some(key) =>
        match ReadJson(members[0].value)
        case None => None
        case Some(first) =>
          match ReadMembers(members[1..])
          case None => None
          case Some(rest) => Some([Entry(key, first)] + rest)
  }

  // ----- what is read back -----

  /** A lowered argument up to what the JSON syntax writes alike. */
  function TopNormal(e: Expr): Expr
    decreases e, 0
  {
    match e
    case Literal(value) => Unfold(value)
    case Array(items) => Array(TopNormalAll(items))
    case Object(fields) => Object(TopNormalFields(fields))
    case Template(parts) => Unwrap(T.Flatten(NormalParts(ReassocParts(parts))))
    case _ => Normal(Reassoc(e))
  }

  function TopNormalAll(items: seq<Expr>): seq<Expr>
    decreases items, 1
  {
    if items == [] then [] else [TopNormal(items[0])] + TopNormalAll(items[1..])
  }

  function TopNormalFields(fields: seq<Entry<Expr>>): seq<Entry<Expr>>
    decreases fields, 1
  {
    if fields == [] then [] else [Entry(fields[0].key, TopNormal(fields[0].value))] + TopNormalFields(fields[1..])
  }

  /** What a reader can tell apart. A template here is a JSON string, quoted by JSON alone, so its
      interpolations may hold quoted text. */
  ghost predicate TopReadable(e: Expr)
    decreases e, 0
  {
    match e
    case Literal(_) => true
    case Array(items) => TopReadableAll(items)
    case Object(fields) => TopReadableFields(fields)
    case Template(parts) => ReadableParts(parts) && TemplateSafety.Safe(RenderParts(parts))
    case _ => Readable(e)
  }

  ghost predicate TopReadableAll(items: seq<Expr>)
    decreases items, 1
  {
    items == [] || (TopReadable(items[0]) && TopReadableAll(items[1..]))
  }

  ghost predicate TopReadableFields(fields: seq<Entry<Expr>>)
    decreases fields, 1
  {
    fields == [] || (TopReadable(fields[0].value) && TopReadableFields(fields[1..]))
  }

  /** No array in the native syntax inside it opens a for-expression. Arrays of the JSON syntax
      cannot. */
  predicate TopNoForHead(e: Expr)
    decreases e, 0
  {
    match e
    case Literal(_) => true
    case Array(items) => TopNoForHeadAll(items)
    case Object(fields) => TopNoForHeadFields(fields)
    case _ => NoForHead(e)
  }

  predicate TopNoForHeadAll(items: seq<Expr>)
    decreases items, 1
  {
    items == [] || (TopNoForHead(items[0]) && TopNoForHeadAll(items[1..]))
  }

  predicate TopNoForHeadFields(fields: seq<Entry<Expr>>)
    decreases fields, 1
  {
    fields == [] || (TopNoForHead(fields[0].value) && TopNoForHeadFields(fields[1..]))
  }

  // ----- proofs -----

  lemma TextContentReads(text: string)
    ensures ReadContent(T.Chars(Escaping.EscapeTemplate(text))) == Some(Literal(Text(text)))
  {
    Escaping.EscapeIsOnePass(text);
    CodesOfChars(true, Escaping.EscapeTemplate(text));
    T.EscapeDecodes<Option<Expr>>(text);
    WholeText(text);
    GroupText(text);
    if |T.Chrs<Expr>(text)| == 1 {
      assert T.Chrs<Expr>(text)[0] == T.Chr(text[0]);
    }
  }

  lemma {:induction false} EscapedKeys(members: seq<Entry<Value>>)
    ensures |EscapeMembers(members)| == |members|
    ensures forall i :: 0 <= i < |members| ==> EscapeMembers(members)[i].key == Escaping.EscapeTemplate(members[i].key)
  {
    if members != [] {
      EscapedKeys(members[1..]);
    }
  }

  lemma {:induction false} LoweredKeys(fields: seq<Entry<Expr>>)
    ensures |LowerFields(fields)| == |fields|
    ensures forall i :: 0 <= i < |fields| ==> LowerFields(fields)[i].key == Escaping.EscapeTemplate(fields[i].key)
  {
    if fields != [] {
      LoweredKeys(fields[1..]);
    }
  }

  /** Escaping keys never merges two entries, at any depth. */
  lemma EscapedMembersStayApart<V(!new)>(entries: seq<Entry<V>>, escaped: seq<Entry<Json>>)
    requires DistinctKeys(entries) && |escaped| == |entries|
    requires forall i :: 0 <= i < |entries| ==> escaped[i].key == Escaping.EscapeTemplate(entries[i].key)
    ensures DistinctKeys(escaped) && FromList(escaped) == escaped
  {
    forall i, j | 0 <= i < j < |escaped|
      ensures escaped[i].key != escaped[j].key
    {
      if escaped[i].key == escaped[j].key {
        T.EscapeInjective(entries[i].key, entries[j].key);
      }
    }
    FromDistinctList(escaped);
  }

  lemma {:induction false} LiteralReads(value: Value)
    requires ValueUnique(value)
    ensures ReadJson(EscapeLiteral(value)) == Some(Unfold(value))
    decreases value, 0
  {
    match value
    case Text(text) => TextContentReads(text);
    case List(values) => LiteralsRead(values);
    case Record(members) =>
      EscapedKeys(members);
      EscapedMembersStayApart(members, EscapeMembers(members));
      MembersReadBack(members);
    case _ =>
  }

  lemma {:induction false} LiteralsRead(values: seq<Value>)
    requires forall v :: v in values ==> ValueUnique(v)
    ensures ReadAll(EscapeAll(values)) == Some(UnfoldAll(values))
    decreases values, 1
  {
    if values != [] {
      LiteralReads(values[0]);
      LiteralsRead(values[1..]);
      assert EscapeAll(values)[1..] == EscapeAll(values[1..]);
    }
  }

  lemma {:induction false} MembersReadBack(members: seq<Entry<Value>>)
    requires forall m :: m in members ==> ValueUnique(m.value)
    ensures ReadMembers(EscapeMembers(members)) == Some(UnfoldMembers(members))
    decreases members, 1
  {
    if members != [] {
      KeyReads(members[0].key);
      LiteralReads(members[0].value);
      MembersReadBack(members[1..]);
      assert EscapeMembers(members)[1..] == EscapeMembers(members[1..]);
    }
  }

  lemma InterpolationContentReads(tokens: seq<Token>, e: Expr)
    requires ParseAll(true, tokens) == Some(e)
    ensures ReadContent(T.PrintPart(T.Interpolation(Snippet(tokens)))) == Some(e)
  {
    CodesOfInterpolation(true, tokens, e);
    var part := T.Interpolation(Some(e));
    var parts := [part];
    assert parts[1..] == [];
    assert T.Print(parts) == T.PrintPart(part) + T.Print(parts[1..]);
    assert T.Flatten(parts) == T.FlattenPart(part) + T.Flatten(parts[1..]);
    assert T.PrintPart(part) == T.Print(parts) && T.Flatten(parts) == [T.Hole(Some(e))];
    TemplateSafety.TemplateReadsBack(parts);
    WholeHole(e);
  }

  lemma UnwrapHeads(decoded: seq<T.Decoded<Expr>>)
    ensures NoForHead(Unwrap(decoded)) <==> DecodedHold(decoded, NoForHead)
  {
    FromDecodedHeads(decoded);
  }

  /** Nothing read from a string holds an array that opens a for-expression. */
  lemma ContentHeads(content: Content)
    ensures ReadContent(content).Some? ==> NoForHead(ReadContent(content).value)
  {
    CodeHeads(content);
    DecodeHeads(ReadCodes(true, content));
    var decoded := T.Decode(ReadCodes(true, content));
    if decoded.Some? && Whole(decoded.value).Some? {
      WholeHeads(decoded.value);
      UnwrapHeads(Whole(decoded.value).value);
    }
  }

  lemma MovedPartsHeads(parts: seq<TemplatePart>)
    ensures NoForHead(Unwrap(T.Flatten(NormalParts(ReassocParts(parts))))) <==> NoForHeadParts(parts)
  {
    var moved := ReassocParts(parts);
    ReassocPartsHeads(parts);
    HeadPartsHold(moved);
    forall p | p in moved && p.Interpolation? { NormalHeads(p.expression); }
    FlattenHolds(moved, NoForHead);
    UnwrapHeads(T.Flatten(NormalParts(moved)));
  }

  lemma TemplateReadsBack(parts: seq<TemplatePart>)
    requires ReadableParts(parts) && TemplateSafety.Safe(RenderParts(parts))
    ensures ReadJson(LowerExpr(Template(parts))) == Some(TopNormal(Template(parts))) <==> NoForHeadParts(parts)
  {
    var content := T.Print(RenderParts(parts));
    assert LowerExpr(Template(parts)) == JString(content);
    MovedPartsHeads(parts);
    ContentHeads(content);
    if NoForHeadParts(parts) {
      TemplateContentReads(parts);
    }
  }

  lemma TemplateContentReads(parts: seq<TemplatePart>)
    requires ReadableParts(parts) && NoForHeadParts(parts) && TemplateSafety.Safe(RenderParts(parts))
    ensures ReadContent(T.Print(RenderParts(parts))) == Some(Unwrap(T.Flatten(NormalParts(ReassocParts(parts)))))
  {
    var moved := ReassocParts(parts);
    ReassocPartsSpec(parts);
    ReassocPartsReadable(parts);
    ReassocPartsHeads(parts);
    PartsRead(true, moved);
    TemplateDecodes(true, moved);
    WholeParts(moved);
  }

  /** Anything else becomes a template of one interpolation. */
  lemma InterpolatedReads(e: Expr)
    requires Readable(e) && !e.Literal? && !e.Array? && !e.Object? && !e.Template?
    ensures ReadJson(LowerExpr(e)) == Some(TopNormal(e)) <==> NoForHead(e)
  {
    var content := T.PrintPart(T.Interpolation(Snippet(Render(e))));
    assert LowerExpr(e) == JString(content);
    ReassocHeads(e);
    NormalHeads(Reassoc(e));
    ContentHeads(content);
    if NoForHead(e) {
      PrintedReads(e);
      InterpolationContentReads(Render(e), Normal(Reassoc(e)));
    }
  }

  /** Reading a lowered argument gives the argument, with its conditionals where the text puts
      them and up to what the syntax writes alike, if and only if no array in the native syntax
      inside it opens a for-expression. */
  lemma {:induction false} LoweredReads(e: Expr)
    requires TopReadable(e) && ExprUnique(e)
    ensures ReadJson(LowerExpr(e)) == Some(TopNormal(e)) <==> TopNoForHead(e)
    decreases e, 0
  {
    match e
    case Literal(value) => LiteralReads(value);
    case Array(items) =>
      AllLoweredRead(items);
      ArrayReadsBack(items);
    case Object(fields) =>
      FieldsLoweredRead(fields);
      ObjectReadsBack(fields);
    case Template(parts) => TemplateReadsBack(parts);
    case _ => InterpolatedReads(e);
  }

  lemma ArrayReadsBack(items: seq<Expr>)
    ensures ReadJson(LowerExpr(Array(items))) == Some(TopNormal(Array(items))) <==>
            ReadAll(LowerAll(items)) == Some(TopNormalAll(items))
  {
  }

  lemma ObjectReadsBack(fields: seq<Entry<Expr>>)
    requires DistinctKeys(fields)
    ensures ReadJson(LowerExpr(Object(fields))) == Some(TopNormal(Object(fields))) <==>
            ReadMembers(LowerFields(fields)) == Some(TopNormalFields(fields))
  {
    ObjectLowers(fields);
    ObjectReads(LowerFields(fields), TopNormalFields(fields));
  }

  lemma ObjectLowers(fields: seq<Entry<Expr>>)
    requires DistinctKeys(fields)
    ensures LowerExpr(Object(fields)) == JObject(LowerFields(fields))
  {
    LoweredKeys(fields);
    EscapedMembersStayApart(fields, LowerFields(fields));
  }

  lemma ObjectReads(members: seq<Entry<Json>>, fields: seq<Entry<Expr>>)
    ensures ReadJson(JObject(members)) == Some(Object(fields)) <==> ReadMembers(members) == Some(fields)
  {
  }

  lemma {:induction false} AllLoweredRead(items: seq<Expr>)
    requires TopReadableAll(items) && forall x :: x in items ==> ExprUnique(x)
    ensures ReadAll(LowerAll(items)) == Some(TopNormalAll(items)) <==> TopNoForHeadAll(items)
    decreases items, 1
  {
    if items != [] {
      LoweredReads(items[0]);
      AllLoweredRead(items[1..]);
      ReadAllCons(LowerExpr(items[0]), LowerAll(items[1..]), TopNormal(items[0]), TopNormalAll(items[1..]));
    }
  }

  lemma ReadAllCons(first: Json, rest: seq<Json>, e: Expr, others: seq<Expr>)
    ensures ReadAll([first] + rest) == Some([e] + others) <==>
            ReadJson(first) == Some(e) && ReadAll(rest) == Some(others)
  {
    assert ([first] + rest)[1..] == rest;
    if ReadJson(first).Some? && ReadAll(rest).Some? {
      ConsApart(ReadJson(first).value, ReadAll(rest).value, e, others);
    }
  }

  lemma ConsApart<X>(a: X, rest: seq<X>, b: X, others: seq<X>)
    ensures [a] + rest == [b] + others <==> a == b && rest == others
  {
    assert ([a] + rest)[0] == a && ([b] + others)[0] == b;
    assert ([a] + rest)[1..] == rest && ([b] + others)[1..] == others;
  }

  lemma {:induction false} FieldsLoweredRead(fields: seq<Entry<Expr>>)
    requires TopReadableFields(fields) && forall f :: f in fields ==> ExprUnique(f.value)
    ensures ReadMembers(LowerFields(fields)) == Some(TopNormalFields(fields)) <==> TopNoForHeadFields(fields)
    decreases fields, 1
  {
    if fields != [] {
      var first, rest := fields[0], fields[1..];
      KeyReads(first.key);
      LoweredReads(first.value);
      FieldsLoweredRead(rest);
      ReadMembersCons(
        first.key, LowerExpr(first.value), LowerFields(rest), TopNormal(first.value), TopNormalFields(rest));
    }
  }

  lemma ReadMembersCons(key: string, first: Json, rest: seq<Entry<Json>>, e: Expr, others: seq<Entry<Expr>>)
    ensures ReadMembers([Entry(Escaping.EscapeTemplate(key), first)] + rest) == Some([Entry(key, e)] + others) <==>
            ReadJson(first) == Some(e) && ReadMembers(rest) == Some(others)
  {
    var all := [Entry(Escaping.EscapeTemplate(key), first)] + rest;
    KeyReads(key);
    assert all[1..] == rest;
    if ReadJson(first).Some? && ReadMembers(rest).Some? {
      ConsApart(Entry(key, ReadJson(first).value), ReadMembers(rest).value, Entry(key, e), others);
    }
  }
}
