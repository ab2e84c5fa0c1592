/** Expressions printed in the native syntax, as tokens, and what a reader of that syntax can be
    expected to get back. A quoted string is one token holding its template. */
module Hcl {
  import opened SortedMap
  import opened GraphIr
  import Escaping
  import T = Templates

  datatype Token =
    | Ident(name: string)
    | Num(lexeme: string)
    | Quoted(content: Content)
    | Dot | Comma | Colon | Question | Equals | Star
    | LBracket | RBracket | LBrace | RBrace | LParen | RParen

  /** The code between the braces of one interpolation. */
  datatype Snippet = Snippet(tokens: seq<Token>)

  type Content = seq<T.Symbol<Snippet>>

  const SECRET_PREFIX := "inframe_secret_"

  // ----- printing -----

  function QuoteText(text: string): Token {
    Quoted(T.Chars(Escaping.EscapeTemplate(text)))
  }

  function AddressTokens(address: Address): seq<Token> {
    match address
    case Resource(kind, name) => [Ident(kind), Dot, Ident(name)]
    case DataSource(kind, name) => [Ident("data"), Dot, Ident(kind), Dot, Ident(name)]
  }

  function PathTokens(path: seq<string>): seq<Token> {
    if path == [] then [] else [Dot, Ident(path[0])] + PathTokens(path[1..])
  }

  function RenderValue(value: Value): seq<Token>
    decreases value, 0
  {
    match value
    case Null => [Ident("null")]
    case Bool(truth) => [Ident(if truth then "true" else "false")]
    case Number(lexeme) => [Num(lexeme)]
    case Text(text) => [QuoteText(text)]
    case List(values) => [LBracket] + RenderValues(values) + [RBracket]
    case Record(members) => [LBrace] + RenderMembers(members) + [RBrace]
  }

  function RenderValues(values: seq<Value>): seq<Token>
    decreases values, 1
  {
    if values == [] then []
    else RenderValue(values[0]) + if |values| == 1 then [] else [Comma] + RenderValues(values[1..])
  }

  function RenderMembers(members: seq<Entry<Value>>): seq<Token>
    decreases members, 1
  {
    if members == [] then []
    else
      [QuoteText(members[0].key), Equals] + RenderValue(members[0].value)
      + if |members| == 1 then [] else [Comma] + RenderMembers(members[1..])
  }

  function Render(e: Expr): seq<Token>
    decreases e, 0
  {
    match e
    case Literal(value) => RenderValue(value)
    case ResourceAttr(address, path) => AddressTokens(address) + PathTokens(path)
    case DataSourceAttr(address, path) => AddressTokens(address) + PathTokens(path)
    case Array(items) => [LBracket] + RenderList(items) + [RBracket]
    case Object(fields) => [LBrace] + RenderFields(fields) + [RBrace]
    case Index(collection, key) => Render(collection) + [LBracket] + Render(key) + [RBracket]
    case Attribute(of, name) => Render(of) + [Dot, Ident(name)]
    case Splat(of) => Render(of) + [LBracket, Star, RBracket]
    case Conditional(condition, whenTrue, whenFalse) =>
      Render(condition) + [Question] + Render(whenTrue) + [Colon] + Render(whenFalse)
    case Function(name, args) => [Ident(name), LParen] + RenderList(args) + [RParen]
    case Template(parts) => [Quoted(T.Print(RenderParts(parts)))]
    case SecretEnv(name) => [Ident("var"), Dot, Ident(SECRET_PREFIX + name)]
    case UnsafeRaw(_) => []
  }

  function RenderList(items: seq<Expr>): seq<Token>
    decreases items, 1
  {
    if items == [] then []
    else Render(items[0]) + if |items| == 1 then [] else [Comma] + RenderList(items[1..])
  }

  function RenderFields(fields: seq<Entry<Expr>>): seq<Token>
    decreases fields, 1
  {
    if fields == [] then []
    else
      [QuoteText(fields[0].key), Equals] + Render(fields[0].value)
      + if |fields| == 1 then [] else [Comma] + RenderFields(fields[1..])
  }

  function RenderParts(parts: seq<TemplatePart>): seq<T.Part<Snippet>>
    decreases parts, 1
  {
    if parts == [] then [] else [RenderPart(parts[0])] + RenderParts(parts[1..])
  }

  function RenderPart(part: TemplatePart): T.Part<Snippet>
    decreases part, 1
  {
    match part
    case Verbatim(text) => T.Verbatim(text)
    case Interpolation(expression) => T.Interpolation(Snippet(Render(expression)))
  }

  // ----- what the syntax keeps apart -----

  /** A literal collection is written like a collection of literals. */
  function Unfold(value: Value): Expr
    decreases value, 0
  {
    match value
    case List(values) => Array(UnfoldAll(values))
    case Record(members) => Object(UnfoldMembers(members))
    case _ => Literal(value)
  }

  function UnfoldAll(values: seq<Value>): seq<Expr>
    decreases values, 1
  {
    if values == [] then [] else [Unfold(values[0])] + UnfoldAll(values[1..])
  }

  function UnfoldMembers(members: seq<Entry<Value>>): seq<Entry<Expr>>
    decreases members, 1
  {
    if members == [] then []
    else [Entry(members[0].key, Unfold(members[0].value))] + UnfoldMembers(members[1..])
  }

  /** An attribute of a plain reference is written like a longer path. */
  function Access(base: Expr, name: string): Expr {
    match base
    case ResourceAttr(address, path) => ResourceAttr(address, path + [name])
    case DataSourceAttr(address, path) => DataSourceAttr(address, path + [name])
    case _ => Attribute(base, name)
  }

  /** The parts of a decoded template, literal text joined. */
  function Group(decoded: seq<T.Decoded<Expr>>): seq<TemplatePart> {
    if decoded == [] then []
    else
      var rest := Group(decoded[1..]);
      match decoded[0]
      case Chr(c) =>
        if rest != [] && rest[0].Verbatim? then [Verbatim([c] + rest[0].text)] + rest[1..]
        else [Verbatim([c])] + rest
      case Hole(code) => [Interpolation(code)] + rest
      case Raw(code) => [Interpolation(code)] + rest
  }

  /** A decoded quoted template: text alone is a string. */
  function FromDecoded(decoded: seq<T.Decoded<Expr>>): Expr {
    var parts := Group(decoded);
    if parts == [] then Literal(Text(""))
    else if |parts| == 1 && parts[0].Verbatim? then Literal(Text(parts[0].text))
    else Template(parts)
  }

  /** An expression up to what the syntax writes alike. */
  function Normal(e: Expr): Expr
    decreases e, 0
  {
    match e
    case Literal(value) => Unfold(value)
    case Array(items) => Array(NormalAll(items))
    case Object(fields) => Object(NormalFields(fields))
    case Index(collection, key) => Index(Normal(collection), Normal(key))
    case Attribute(of, name) => Access(Normal(of), name)
    case Splat(of) => Splat(Normal(of))
    case Conditional(condition, whenTrue, whenFalse) =>
      Conditional(Normal(condition), Normal(whenTrue), Normal(whenFalse))
    case Function(name, args) => Function(name, NormalAll(args))
    case Template(parts) => FromDecoded(T.Flatten(NormalParts(parts)))
    case _ => e
  }

  function NormalAll(items: seq<Expr>): seq<Expr>
    decreases items, 1
  {
    if items == [] then [] else [Normal(items[0])] + NormalAll(items[1..])
  }

  function NormalFields(fields: seq<Entry<Expr>>): seq<Entry<Expr>>
    decreases fields, 1
  {
    if fields == [] then [] else [Entry(fields[0].key, Normal(fields[0].value))] + NormalFields(fields[1..])
  }

  function NormalParts(parts: seq<TemplatePart>): seq<T.Part<Expr>>
    decreases parts, 1
  {
    if parts == [] then [] else [NormalPart(parts[0])] + NormalParts(parts[1..])
  }

  function NormalPart(part: TemplatePart): T.Part<Expr>
    decreases part, 1
  {
    match part
    case Verbatim(text) => T.Verbatim(text)
    case Interpolation(expression) => T.Interpolation(Normal(expression))
  }

  // ----- conditionals print without parentheses -----

  /** What can follow an operand. */
  datatype Step = Dotted(name: string) | Indexed(key: Expr) | Splatted

  function Apply(base: Expr, step: Step): Expr {
    match step
    case Dotted(name) => Attribute(base, name)
    case Indexed(key) => Index(base, key)
    case Splatted => Splat(base)
  }

  /** Written after a conditional, a step belongs to its last branch. */
  function Push(base: Expr, step: Step): Expr {
    match base
    case Conditional(condition, whenTrue, whenFalse) => Conditional(condition, whenTrue, Push(whenFalse, step))
    case _ => Apply(base, step)
  }

  /** Written after a conditional, a question mark asks about its last branch. */
  function PushConditional(condition: Expr, whenTrue: Expr, whenFalse: Expr): Expr {
    match condition
    case Conditional(c, t, f) => Conditional(c, t, PushConditional(f, whenTrue, whenFalse))
    case _ => Conditional(condition, whenTrue, whenFalse)
  }

  /** The expression the printed text says, with every step and question mark where a reader
      takes it to belong. */
  function Reassoc(e: Expr): Expr
    decreases e, 0
  {
    match e
    case Array(items) => Array(ReassocAll(items))
    case Object(fields) => Object(ReassocFields(fields))
    case Index(collection, key) => Push(Reassoc(collection), Indexed(Reassoc(key)))
    case Attribute(of, name) => Push(Reassoc(of), Dotted(name))
    case Splat(of) => Push(Reassoc(of), Splatted)
    case Conditional(condition, whenTrue, whenFalse) =>
      PushConditional(Reassoc(condition), Reassoc(whenTrue), Reassoc(whenFalse))
    case Function(name, args) => Function(name, ReassocAll(args))
    case Template(parts) => Template(ReassocParts(parts))
    case _ => e
  }

  function ReassocAll(items: seq<Expr>): seq<Expr>
    decreases items, 1
  {
    if items == [] then [] else [Reassoc(items[0])] + ReassocAll(items[1..])
  }

  function ReassocFields(fields: seq<Entry<Expr>>): seq<Entry<Expr>>
    decreases fields, 1
  {
    if fields == [] then [] else [Entry(fields[0].key, Reassoc(fields[0].value))] + ReassocFields(fields[1..])
  }

  function ReassocParts(parts: seq<TemplatePart>): seq<TemplatePart>
    decreases parts, 1
  {
    if parts == [] then [] else [ReassocPart(parts[0])] + ReassocParts(parts[1..])
  }

  function ReassocPart(part: TemplatePart): TemplatePart
    decreases part, 1
  {
    match part
    case Verbatim(_) => part
    case Interpolation(expression) => Interpolation(Reassoc(expression))
  }

  /** No conditional is the base of an index, attribute or splat, or the condition of another. */
  predicate Placed(e: Expr)
    decreases e, 0
  {
    match e
    case Array(items) => PlacedAll(items)
    case Object(fields) => PlacedFields(fields)
    case Index(collection, key) => !collection.Conditional? && Placed(collection) && Placed(key)
    case Attribute(of, _) => !of.Conditional? && Placed(of)
    case Splat(of) => !of.Conditional? && Placed(of)
    case Conditional(condition, whenTrue, whenFalse) =>
      !condition.Conditional? && Placed(condition) && Placed(whenTrue) && Placed(whenFalse)
    case Function(_, args) => PlacedAll(args)
    case Template(parts) => PlacedParts(parts)
    case _ => true
  }

  predicate PlacedAll(items: seq<Expr>)
    decreases items, 1
  {
    items == [] || (Placed(items[0]) && PlacedAll(items[1..]))
  }

  predicate PlacedFields(fields: seq<Entry<Expr>>)
    decreases fields, 1
  {
    fields == [] || (Placed(fields[0].value) && PlacedFields(fields[1..]))
  }

  predicate PlacedParts(parts: seq<TemplatePart>)
    decreases parts, 1
  {
    parts == [] || (PlacedPart(parts[0]) && PlacedParts(parts[1..]))
  }

  predicate PlacedPart(part: TemplatePart)
    decreases part, 1
  {
    part.Interpolation? ==> Placed(part.expression)
  }

  // ----- arrays that open a for-expression -----

  /** The text starts with the identifier `for`. */
  predicate StartsFor(e: Expr) {
    match e
    case ResourceAttr(address, _) => address.kind == "for"
    case Function(name, _) => name == "for"
    case Index(collection, _) => StartsFor(collection)
    case Attribute(of, _) => StartsFor(of)
    case Splat(of) => StartsFor(of)
    case Conditional(condition, _, _) => StartsFor(condition)
    case _ => false
  }

  /** No array has a first item whose text starts with `for`. */
  predicate NoForHead(e: Expr)
    decreases e, 0
  {
    match e
    case Array(items) => (items == [] || !StartsFor(items[0])) && NoForHeadAll(items)
    case Object(fields) => NoForHeadFields(fields)
    case Index(collection, key) => NoForHead(collection) && NoForHead(key)
    case Attribute(of, _) => NoForHead(of)
    case Splat(of) => NoForHead(of)
    case Conditional(condition, whenTrue, whenFalse) =>
      NoForHead(condition) && NoForHead(whenTrue) && NoForHead(whenFalse)
    case Function(_, args) => NoForHeadAll(args)
    case Template(parts) => NoForHeadParts(parts)
    case _ => true
  }

  predicate NoForHeadAll(items: seq<Expr>)
    decreases items, 1
  {
    items == [] || (NoForHead(items[0]) && NoForHeadAll(items[1..]))
  }

  predicate NoForHeadFields(fields: seq<Entry<Expr>>)
    decreases fields, 1
  {
    fields == [] || (NoForHead(fields[0].value) && NoForHeadFields(fields[1..]))
  }

  predicate NoForHeadParts(parts: seq<TemplatePart>)
    decreases parts, 1
  {
    parts == [] || (NoForHeadPart(parts[0]) && NoForHeadParts(parts[1..]))
  }

  predicate NoForHeadPart(part: TemplatePart)
    decreases part, 1
  {
    part.Interpolation? ==> NoForHead(part.expression)
  }
}
