/** One reading step at a time: what each parsing function does with the tokens at hand. */
module HclSteps {
  import opened Wrappers
  import opened SortedMap
  import opened GraphIr
  import opened Hcl
  import opened HclParser
  import T = Templates

  lemma ExprEnds(strict: bool, tokens: seq<Token>, e: Expr, rest: seq<Token>)
    requires ParseOperand(strict, tokens) == Some((e, rest)) && !At(rest, Question)
    ensures ParseExpr(strict, tokens) == Some((e, rest))
  {
  }

  lemma ExprAsks(
    strict: bool, tokens: seq<Token>,
    c: Expr, second: seq<Token>, t: Expr, third: seq<Token>, f: Expr, rest: seq<Token>)
    requires ParseOperand(strict, tokens) == Some((c, [Question] + second))
    requires ParseExpr(strict, second) == Some((t, [Colon] + third))
    requires ParseExpr(strict, third) == Some((f, rest))
    ensures ParseExpr(strict, tokens) == Some((Conditional(c, t, f), rest))
  {
    assert ([Question] + second)[1..] == second;
    assert ([Colon] + third)[1..] == third;
  }

  lemma OperandOfTerm(strict: bool, tokens: seq<Token>, term: Expr, rest: seq<Token>)
    requires ParseTerm(strict, tokens) == Some((term, rest))
    ensures ParseOperand(strict, tokens) == ParseSteps(strict, term, rest)
  {
  }

  lemma StepsEnd(strict: bool, base: Expr, rest: seq<Token>)
    requires !At(rest, Dot) && !At(rest, LBracket)
    ensures ParseSteps(strict, base, rest) == Some((base, rest))
  {
  }

  lemma StepsDot(strict: bool, base: Expr, name: string, rest: seq<Token>)
    ensures ParseSteps(strict, base, [Dot, Ident(name)] + rest) == ParseSteps(strict, Access(base, name), rest)
  {
    assert ([Dot, Ident(name)] + rest)[2..] == rest;
  }

  lemma StepsSplat(strict: bool, base: Expr, rest: seq<Token>)
    ensures ParseSteps(strict, base, [LBracket, Star, RBracket] + rest) == ParseSteps(strict, Splat(base), rest)
  {
    assert ([LBracket, Star, RBracket] + rest)[3..] == rest;
  }

  lemma StepsIndex(strict: bool, base: Expr, tokens: seq<Token>, key: Expr, rest: seq<Token>)
    requires ParseExpr(strict, tokens) == Some((key, [RBracket] + rest))
    requires !At(tokens, Star)
    ensures ParseSteps(strict, base, [LBracket] + tokens) == ParseSteps(strict, Index(base, key), rest)
  {
    assert ([LBracket] + tokens)[1..] == tokens;
    assert ([RBracket] + rest)[1..] == rest;
  }

  lemma ItemsEnd(strict: bool, tokens: seq<Token>, close: Token, item: Expr, rest: seq<Token>)
    requires ParseExpr(strict, tokens) == Some((item, [close] + rest))
    ensures ParseItems(strict, tokens, close) == Some(([item], rest))
  {
    assert ([close] + rest)[1..] == rest;
  }

  lemma ItemsMore(
    strict: bool, tokens: seq<Token>,
    close: Token, item: Expr, more: seq<Token>, items: seq<Expr>, rest: seq<Token>)
    requires close != Comma
    requires ParseExpr(strict, tokens) == Some((item, [Comma] + more))
    requires ParseItems(strict, more, close) == Some((items, rest))
    ensures ParseItems(strict, tokens, close) == Some(([item] + items, rest))
  {
    assert ([Comma] + more)[1..] == more;
  }

  lemma MembersEnd(strict: bool, name: Token, key: string, tokens: seq<Token>, value: Expr, rest: seq<Token>)
    requires name.Quoted? && TextOf(name.content) == Some(key)
    requires ParseExpr(strict, tokens) == Some((value, [RBrace] + rest))
    ensures ParseMembers(strict, [name, Equals] + tokens) == Some(([Entry(key, value)], rest))
  {
    assert ([name, Equals] + tokens)[2..] == tokens;
    assert ([RBrace] + rest)[1..] == rest;
  }

  lemma MembersMore(
    strict: bool, name: Token, key: string, tokens: seq<Token>,
    value: Expr, more: seq<Token>, fields: seq<Entry<Expr>>, rest: seq<Token>)
    requires name.Quoted? && TextOf(name.content) == Some(key)
    requires ParseExpr(strict, tokens) == Some((value, [Comma] + more))
    requires ParseMembers(strict, more) == Some((fields, rest))
    ensures ParseMembers(strict, [name, Equals] + tokens) == Some(([Entry(key, value)] + fields, rest))
  {
    assert ([name, Equals] + tokens)[2..] == tokens;
    assert ([Comma] + more)[1..] == more;
  }

  lemma ListCloses(strict: bool, close: Token, rest: seq<Token>)
    ensures ParseList(strict, [close] + rest, close) == Some(([], rest))
  {
    assert ([close] + rest)[1..] == rest;
  }

  lemma FieldsClose(strict: bool, rest: seq<Token>)
    ensures ParseFields(strict, [RBrace] + rest) == Some(([], rest))
  {
    assert ([RBrace] + rest)[1..] == rest;
  }

  lemma ArrayTerm(strict: bool, tokens: seq<Token>, items: seq<Expr>, rest: seq<Token>)
    requires ParseList(strict, tokens, RBracket) == Some((items, rest)) && (strict ==> !At(tokens, Ident("for")))
    ensures ParseTerm(strict, [LBracket] + tokens) == Some((Array(items), rest))
  {
    assert ([LBracket] + tokens)[1..] == tokens;
  }

  lemma ObjectTerm(strict: bool, tokens: seq<Token>, fields: seq<Entry<Expr>>, rest: seq<Token>)
    requires ParseFields(strict, tokens) == Some((fields, rest))
    ensures ParseTerm(strict, [LBrace] + tokens) == Some((Object(fields), rest))
  {
    assert ([LBrace] + tokens)[1..] == tokens;
  }

  lemma CallTerm(strict: bool, name: string, tokens: seq<Token>, args: seq<Expr>, rest: seq<Token>)
    requires ParseList(strict, tokens, RParen) == Some((args, rest))
    ensures ParseTerm(strict, [Ident(name), LParen] + tokens) == Some((Function(name, args), rest))
  {
    var all := [Ident(name), LParen] + tokens;
    assert all[2..] == tokens && all[1..][0] == LParen;
  }

  lemma NumberTerm(strict: bool, lexeme: string, rest: seq<Token>)
    ensures ParseTerm(strict, [Num(lexeme)] + rest) == Some((Literal(Number(lexeme)), rest))
  {
    assert ([Num(lexeme)] + rest)[1..] == rest;
  }

  lemma NameTerm(strict: bool, name: string, rest: seq<Token>)
    requires !At(rest, LParen)
    ensures ParseTerm(strict, [Ident(name)] + rest) == ParseName(name, rest)
  {
    assert ([Ident(name)] + rest)[1..] == rest;
  }

  lemma QuotedTerm(
    strict: bool, content: Content,
    decoded: seq<T.Decoded<Option<Expr>>>, whole: seq<T.Decoded<Expr>>, rest: seq<Token>)
    requires T.Decode(ReadCodes(strict, content)) == Some(decoded) && Whole(decoded) == Some(whole)
    ensures ParseTerm(strict, [Quoted(content)] + rest) == Some((FromDecoded(whole), rest))
  {
    assert ([Quoted(content)] + rest)[1..] == rest;
  }

  lemma {:induction false} CodesAppend(strict: bool, a: Content, b: Content)
    ensures ReadCodes(strict, a + b) == ReadCodes(strict, a) + ReadCodes(strict, b)
  {
    if a == [] {
      assert a + b == b;
    } else {
      CodesAppend(strict, a[1..], b);
      assert (a + b)[1..] == a[1..] + b;
    }
  }

  lemma CodesCons(strict: bool, symbol: T.Symbol<Snippet>, rest: Content)
    ensures ReadCodes(strict, [symbol] + rest) == [ReadSymbol(strict, symbol)] + ReadCodes(strict, rest)
  {
    assert ([symbol] + rest)[1..] == rest;
  }
}
