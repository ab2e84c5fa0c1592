/** A recursive-descent reader of the native syntax: the conditional, index, attribute-access and
    splat operators, calls, collections, and quoted templates of the HCL Native Syntax
    Specification, as far as the printer uses them. A tuple that starts with the identifier `for`
    is a for-expression there ("Collection Values"), which no printed expression is meant as: a
    strict reader refuses it, a lenient one takes the identifier for a name. */
module HclParser {
  import opened Wrappers
  import opened SortedMap
  import opened GraphIr
  import opened Hcl
  import T = Templates

  type Parsed<+V> = Option<(V, seq<Token>)>

  // ----- sizes, which every reading step makes smaller -----

  function Size(tokens: seq<Token>): nat
    decreases tokens, 1
  {
    if tokens == [] then 0 else TokenSize(tokens[0]) + Size(tokens[1..])
  }

  function TokenSize(token: Token): (size: nat)
    ensures size > 0
    decreases token, 1
  {
    match token
    case Quoted(content) => 1 + ContentSize(content)
    case _ => 1
  }

  function ContentSize(content: Content): nat
    decreases content, 1
  {
    if content == [] then 0 else SymbolSize(content[0]) + ContentSize(content[1..])
  }

  function SymbolSize(symbol: T.Symbol<Snippet>): nat
    decreases symbol, 1
  {
    match symbol
    case Ch(_) => 1
    case Code(snippet) => 1 + Size(snippet.tokens)
  }

  lemma {:induction false} SizeDrop(tokens: seq<Token>, k: nat)
    requires k <= |tokens|
    ensures Size(tokens[k..]) + k <= Size(tokens)
  {
    if k > 0 {
      SizeDrop(tokens[1..], k - 1);
      assert tokens[1..][k - 1..] == tokens[k..];
    }
  }

  predicate Smaller<V>(parsed: Parsed<V>, tokens: seq<Token>) {
    parsed.Some? ==> Size(parsed.value.1) < Size(tokens)
  }

  // ----- reading -----

  predicate At(tokens: seq<Token>, token: Token) {
    tokens != [] && tokens[0] == token
  }

  function ParseExpr(strict: bool, tokens: seq<Token>): (parsed: Parsed<Expr>)
    ensures Smaller(parsed, tokens)
    decreases Size(tokens), 3
  {
    match ParseOperand(strict, tokens)
    case None => None
    case Some((condition, rest)) =>
      if !At(rest, Question) then Some((condition, rest))
      else
        SizeDrop(rest, 1);
        match ParseExpr(strict, rest[1..])
        case None => None
        case Some((whenTrue, rest)) =>
          if !At(rest, Colon) then None
          else
            SizeDrop(rest, 1);
            match ParseExpr(strict, rest[1..])
            case None => None
            case Some((whenFalse, rest)) => Some((Conditional(condition, whenTrue, whenFalse), rest))
  }

  function ParseOperand(strict: bool, tokens: seq<Token>): (parsed: Parsed<Expr>)
    ensures Smaller(parsed, tokens)
    decreases Size(tokens), 2
  {
    match ParseTerm(strict, tokens)
    case None => None
    case Some((term, rest)) => ParseSteps(strict, term, rest)
  }

  /** Attribute accesses, splats and indexes, as many as follow. */
  function ParseSteps(strict: bool, base: Expr, tokens: seq<Token>): (parsed: Parsed<Expr>)
    ensures parsed.Some? ==> Size(parsed.value.1) <= Size(tokens)
    decreases Size(tokens), 0
  {
    if At(tokens, Dot) then
      if |tokens| > 1 && tokens[1].Ident? then
        SizeDrop(tokens, 2);
        ParseSteps(strict, Access(base, tokens[1].name), tokens[2..])
      else None
    else if At(tokens, LBracket) then
      if |tokens| > 2 && tokens[1] == Star && tokens[2] == RBracket then
        SizeDrop(tokens, 3);
        ParseSteps(strict, Splat(base), tokens[3..])
      else
        SizeDrop(tokens, 1);
        match ParseExpr(strict, tokens[1..])
        case None => None
        case Some((key, rest)) =>
          if !At(rest, RBracket) then None
          else
            SizeDrop(rest, 1);
            ParseSteps(strict, Index(base, key), rest[1..])
    else Some((base, tokens))
  }

  function ParseTerm(strict: bool, tokens: seq<Token>): (parsed: Parsed<Expr>)
    ensures Smaller(parsed, tokens)
    decreases Size(tokens), 1
  {
    if tokens == [] then None
    else
      SizeDrop(tokens, 1);
      match tokens[0]
      case Num(lexeme) => Some((Literal(Number(lexeme)), tokens[1..]))
      case Quoted(content) =>
        (match T.Decode(ReadCodes(strict, content))
         case None => None
         case Some(decoded) =>
           match Whole(decoded)
           case None => None
           case Some(whole) => Some((FromDecoded(whole), tokens[1..])))
      case LBracket =>
        if strict && At(tokens[1..], Ident("for")) then None
        else
          (match ParseList(strict, tokens[1..], RBracket)
           case None => None
           case Some((items, rest)) => Some((Array(items), rest)))
      case LBrace =>
        (match ParseFields(strict, tokens[1..])
         case None => None
         case Some((fields, rest)) => Some((Object(fields), rest)))
      case Ident(name) =>
        if At(tokens[1..], LParen) then
          SizeDrop(tokens, 2);
          match ParseList(strict, tokens[2..], RParen)
          case None => None
          case Some((args, rest)) => Some((Function(name, args), rest))
        else ParseName(name, tokens[1..])
      case _ => None
  }

  /** Keywords, secret variables, and references. */
  function ParseName(name: string, tokens: seq<Token>): (parsed: Parsed<Expr>)
    ensures parsed.Some? ==> Size(parsed.value.1) <= Size(tokens)
    decreases Size(tokens), 0
  {
    if name == "null" then Some((Literal(Null), tokens))
    else if name == "true" then Some((Literal(Bool(true)), tokens))
    else if name == "false" then Some((Literal(Bool(false)), tokens))
    else if |tokens| < 2 || tokens[0] != Dot || !tokens[1].Ident? then None
    else
      SizeDrop(tokens, 2);
      if name == "var" then
        if SECRET_PREFIX <= tokens[1].name then
          Some((SecretEnv(tokens[1].name[|SECRET_PREFIX|..]), tokens[2..]))
        else None
      else if name == "data" then
        if |tokens| < 4 || tokens[2] != Dot || !tokens[3].Ident? then None
        else
          SizeDrop(tokens, 4);
          Some((DataSourceAttr(DataSource(tokens[1].name, tokens[3].name), []), tokens[4..]))
      else Some((ResourceAttr(Resource(name, tokens[1].name), []), tokens[2..]))
  }

  /** Expressions separated by commas, up to the closing token. */
  function ParseList(strict: bool, tokens: seq<Token>, close: Token): (parsed: Parsed<seq<Expr>>)
    ensures Smaller(parsed, tokens)
    decreases Size(tokens), 5
  {
    if At(tokens, close) then
      SizeDrop(tokens, 1);
      Some(([], tokens[1..]))
    else ParseItems(strict, tokens, close)
  }

  function ParseItems(strict: bool, tokens: seq<Token>, close: Token): (parsed: Parsed<seq<Expr>>)
    ensures Smaller(parsed, tokens)
    decreases Size(tokens), 4
  {
    match ParseExpr(strict, tokens)
    case None => None
    case Some((item, rest)) =>
      if rest == [] then None
      else
        SizeDrop(rest, 1);
        if rest[0] == close then Some(([item], rest[1..]))
        else if rest[0] != Comma then None
        else match ParseItems(strict, rest[1..], close)
          case None => None
          case Some((items, rest)) => Some(([item] + items, rest))
  }

  function ParseFields(strict: bool, tokens: seq<Token>): (parsed: Parsed<seq<Entry<Expr>>>)
    ensures Smaller(parsed, tokens)
    decreases Size(tokens), 5
  {
    if At(tokens, RBrace) then
      SizeDrop(tokens, 1);
      Some(([], tokens[1..]))
    else ParseMembers(strict, tokens)
  }

  function ParseMembers(strict: bool, tokens: seq<Token>): (parsed: Parsed<seq<Entry<Expr>>>)
    ensures Smaller(parsed, tokens)
    decreases Size(tokens), 4
  {
    if |tokens| < 2 || !tokens[0].Quoted? || tokens[1] != Equals then None
    else
      SizeDrop(tokens, 2);
      match TextOf(tokens[0].content)
      case None => None
      case Some(key) =>
        match ParseExpr(strict, tokens[2..])
        case None => None
        case Some((value, rest)) =>
          if rest == [] then None
          else
            SizeDrop(rest, 1);
            if rest[0] == RBrace then Some(([Entry(key, value)], rest[1..]))
            else if rest[0] != Comma then None
            else match ParseMembers(strict, rest[1..])
              case None => None
              case Some((fields, rest)) => Some(([Entry(key, value)] + fields, rest))
  }

  /** The code of every symbol read on its own; code must be one whole expression. */
  function ReadCodes(strict: bool, content: Content): seq<T.Symbol<Option<Expr>>>
    decreases ContentSize(content), 6
  {
    if content == [] then [] else [ReadSymbol(strict, content[0])] + ReadCodes(strict, content[1..])
  }

  function ReadSymbol(strict: bool, symbol: T.Symbol<Snippet>): T.Symbol<Option<Expr>>
    decreases SymbolSize(symbol), 5
  {
    match symbol
    case Ch(c) => T.Ch(c)
    case Code(snippet) => T.Code(ParseAll(strict, snippet.tokens))
  }

  function ParseAll(strict: bool, tokens: seq<Token>): Option<Expr>
    decreases Size(tokens), 4
  {
    match ParseExpr(strict, tokens)
    case Some((e, rest)) => if rest == [] then Some(e) else None
    case None => None
  }

  /** A decoded template all of whose interpolations were read. */
  function Whole(decoded: seq<T.Decoded<Option<Expr>>>): Option<seq<T.Decoded<Expr>>> {
    if decoded == [] then Some([])
    else match Whole(decoded[1..])
      case None => None
      case Some(rest) =>
        match decoded[0]
        case Chr(c) => Some([T.Chr(c)] + rest)
        case Hole(code) => if code.Some? then Some([T.Hole(code.value)] + rest) else None
        case Raw(_) => None
  }

  /** The text of a template without interpolations. */
  function TextOf<C(==)>(content: seq<T.Symbol<C>>): Option<string> {
    match T.Decode(content)
    case None => None
    case Some(decoded) => Characters(decoded)
  }

  function Characters<C>(decoded: seq<T.Decoded<C>>): Option<string> {
    if decoded == [] then Some("")
    else if !decoded[0].Chr? then None
    else match Characters(decoded[1..])
      case None => None
      case Some(rest) => Some([decoded[0].c] + rest)
  }
}
