/** Arrays whose text opens a for-expression: what printing, moving conditionals and normal forms
    keep of them, and that the reader gives none. */
module HclForHeads {
  import opened Wrappers
  import opened SortedMap
  import opened GraphIr
  import opened Hcl
  import opened HclParser
  import opened HclReassoc
  import T = Templates

  const FOR := Ident("for")

  lemma {:induction false} RenderStartsFor(e: Expr)
    requires Readable(e)
    ensures Render(e) != []
    ensures Render(e)[0] == FOR <==> StartsFor(e)
  {
    match e
    case Index(collection, _) => RenderStartsFor(collection);
    case Attribute(of, _) => RenderStartsFor(of);
    case Splat(of) => RenderStartsFor(of);
    case Conditional(condition, _, _) => RenderStartsFor(condition);
    case Literal(value) => ValueStartsNoFor(value);
    case _ =>
  }

  lemma ValueStartsNoFor(value: Value)
    ensures RenderValue(value) != [] && RenderValue(value)[0] != FOR
  {
  }

  // ----- moving conditionals -----

  lemma {:induction false} PushHeads(base: Expr, step: Step)
    ensures StartsFor(Push(base, step)) <==> StartsFor(base)
    ensures NoForHead(Push(base, step)) <==> NoForHead(base) && (step.Indexed? ==> NoForHead(step.key))
  {
    if base.Conditional? {
      PushHeads(base.whenFalse, step);
    }
  }

  lemma ConditionalHeads(c: Expr, t: Expr, f: Expr)
    ensures NoForHead(Conditional(c, t, f)) <==> NoForHead(c) && NoForHead(t) && NoForHead(f)
  {
  }

  lemma PushConditionalStarts(condition: Expr, whenTrue: Expr, whenFalse: Expr)
    ensures StartsFor(PushConditional(condition, whenTrue, whenFalse)) <==> StartsFor(condition)
  {
  }

  lemma {:induction false} PushConditionalHeads(condition: Expr, whenTrue: Expr, whenFalse: Expr)
    ensures NoForHead(PushConditional(condition, whenTrue, whenFalse)) <==>
            NoForHead(condition) && NoForHead(whenTrue) && NoForHead(whenFalse)
  {
    match condition
    case Conditional(c, t, f) =>
      PushConditionalHeads(f, whenTrue, whenFalse);
      ConditionalHeads(c, t, f);
      ConditionalHeads(c, t, PushConditional(f, whenTrue, whenFalse));
    case _ => ConditionalHeads(condition, whenTrue, whenFalse);
  }

  /** Moving conditionals leaves every array headed as it was. */
  lemma {:induction false} ReassocHeads(e: Expr)
    ensures StartsFor(Reassoc(e)) <==> StartsFor(e)
    ensures NoForHead(Reassoc(e)) <==> NoForHead(e)
    decreases e, 0
  {
    match e
    case Array(items) =>
      ReassocAllHeads(items);
      if items != [] { ReassocHeads(items[0]); }
    case Object(fields) => ReassocFieldsHeads(fields);
    case Index(collection, key) =>
      ReassocHeads(collection);
      ReassocHeads(key);
      PushHeads(Reassoc(collection), Indexed(Reassoc(key)));
    case Attribute(of, name) =>
      ReassocHeads(of);
      PushHeads(Reassoc(of), Dotted(name));
    case Splat(of) =>
      ReassocHeads(of);
      PushHeads(Reassoc(of), Splatted);
    case Conditional(condition, whenTrue, whenFalse) =>
      ReassocHeads(condition);
      ReassocHeads(whenTrue);
      ReassocHeads(whenFalse);
      PushConditionalStarts(Reassoc(condition), Reassoc(whenTrue), Reassoc(whenFalse));
      PushConditionalHeads(Reassoc(condition), Reassoc(whenTrue), Reassoc(whenFalse));
    case Function(_, args) => ReassocAllHeads(args);
    case Template(parts) => ReassocPartsHeads(parts);
    case _ =>
  }

  lemma {:induction false} ReassocAllHeads(items: seq<Expr>)
    ensures NoForHeadAll(ReassocAll(items)) <==> NoForHeadAll(items)
    decreases items, 1
  {
    if items != [] {
      ReassocHeads(items[0]);
      ReassocAllHeads(items[1..]);
      assert ReassocAll(items)[1..] == ReassocAll(items[1..]);
    }
  }

  lemma {:induction false} ReassocFieldsHeads(fields: seq<Entry<Expr>>)
    ensures NoForHeadFields(ReassocFields(fields)) <==> NoForHeadFields(fields)
    decreases fields, 1
  {
    if fields != [] {
      ReassocHeads(fields[0].value);
      ReassocFieldsHeads(fields[1..]);
      assert ReassocFields(fields)[1..] == ReassocFields(fields[1..]);
    }
  }

  lemma {:induction false} ReassocPartsHeads(parts: seq<TemplatePart>)
    ensures NoForHeadParts(ReassocParts(parts)) <==> NoForHeadParts(parts)
    decreases parts, 1
  {
    if parts != [] {
      ReassocPartHeads(parts[0]);
      ReassocPartsHeads(parts[1..]);
      assert ReassocParts(parts)[1..] == ReassocParts(parts[1..]);
    }
  }

  lemma {:induction false} ReassocPartHeads(part: TemplatePart)
    ensures NoForHeadPart(ReassocPart(part)) <==> NoForHeadPart(part)
    decreases part, 1
  {
    if part.Interpolation? {
      ReassocHeads(part.expression);
    }
  }

  // ----- normal forms -----

  lemma {:induction false} UnfoldHeads(value: Value)
    ensures NoForHead(Unfold(value)) && !StartsFor(Unfold(value))
    decreases value, 0
  {
    match value
    case List(values) =>
      UnfoldAllHeads(values);
      if values != [] { UnfoldHeads(values[0]); }
    case Record(members) => UnfoldMembersHeads(members);
    case _ =>
  }

  lemma {:induction false} UnfoldAllHeads(values: seq<Value>)
    ensures NoForHeadAll(UnfoldAll(values))
    decreases values, 1
  {
    if values != [] {
      UnfoldHeads(values[0]);
      UnfoldAllHeads(values[1..]);
      assert UnfoldAll(values)[1..] == UnfoldAll(values[1..]);
    }
  }

  lemma {:induction false} UnfoldMembersHeads(members: seq<Entry<Value>>)
    ensures NoForHeadFields(UnfoldMembers(members))
    decreases members, 1
  {
    if members != [] {
      UnfoldHeads(members[0].value);
      UnfoldMembersHeads(members[1..]);
      assert UnfoldMembers(members)[1..] == UnfoldMembers(members[1..]);
    }
  }

  lemma {:induction false} HeadPartsHold(parts: seq<TemplatePart>)
    ensures NoForHeadParts(parts) <==> PartsHold(parts, NoForHead)
  {
    if parts != [] {
      HeadPartsHold(parts[1..]);
      assert forall p :: p in parts <==> p == parts[0] || p in parts[1..];
    }
  }

  lemma FromDecodedHeads(decoded: seq<T.Decoded<Expr>>)
    ensures NoForHead(FromDecoded(decoded)) <==> DecodedHold(decoded, NoForHead)
    ensures !StartsFor(FromDecoded(decoded))
  {
    GroupHolds(decoded, NoForHead);
    HeadPartsHold(Group(decoded));
  }

  lemma {:induction false} NormalStarts(e: Expr)
    ensures StartsFor(Normal(e)) <==> StartsFor(e)
  {
    match e
    case Literal(value) => UnfoldHeads(value);
    case Index(collection, _) => NormalStarts(collection);
    case Attribute(of, _) => NormalStarts(of);
    case Splat(of) => NormalStarts(of);
    case Conditional(condition, _, _) => NormalStarts(condition);
    case Template(parts) => FromDecodedHeads(T.Flatten(NormalParts(parts)));
    case _ =>
  }

  /** An expression and its normal form head their arrays alike. */
  lemma {:induction false} NormalHeads(e: Expr)
    ensures NoForHead(Normal(e)) <==> NoForHead(e)
    decreases e, 0
  {
    match e
    case Literal(value) => UnfoldHeads(value);
    case Array(items) =>
      NormalAllHeads(items);
      if items != [] { NormalStarts(items[0]); }
    case Object(fields) => NormalFieldsHeads(fields);
    case Index(collection, key) => NormalHeads(collection); NormalHeads(key);
    case Attribute(of, _) => NormalHeads(of);
    case Splat(of) => NormalHeads(of);
    case Conditional(condition, whenTrue, whenFalse) =>
      NormalHeads(condition); NormalHeads(whenTrue); NormalHeads(whenFalse);
    case Function(_, args) => NormalAllHeads(args);
    case Template(parts) =>
      forall p | p in parts && p.Interpolation? { NormalHeads(p.expression); }
      HeadPartsHold(parts);
      FlattenHolds(parts, NoForHead);
      FromDecodedHeads(T.Flatten(NormalParts(parts)));
    case _ =>
  }

  lemma {:induction false} NormalAllHeads(items: seq<Expr>)
    ensures NoForHeadAll(NormalAll(items)) <==> NoForHeadAll(items)
    decreases items, 1
  {
    if items != [] {
      NormalHeads(items[0]);
      NormalAllHeads(items[1..]);
      assert NormalAll(items)[1..] == NormalAll(items[1..]);
    }
  }

  lemma {:induction false} NormalFieldsHeads(fields: seq<Entry<Expr>>)
    ensures NoForHeadFields(NormalFields(fields)) <==> NoForHeadFields(fields)
    decreases fields, 1
  {
    if fields != [] {
      NormalHeads(fields[0].value);
      NormalFieldsHeads(fields[1..]);
      assert NormalFields(fields)[1..] == NormalFields(fields[1..]);
    }
  }

  // ----- the reader -----

  /** What was read from these tokens: no array opens a for-expression, and only tokens that start
      with `for` give an expression that does. */
  ghost predicate ReadFrom(tokens: seq<Token>, e: Expr) {
    NoForHead(e) && (StartsFor(e) ==> At(tokens, FOR))
  }

  ghost predicate ListReadFrom(tokens: seq<Token>, items: seq<Expr>) {
    NoForHeadAll(items) && (items != [] && StartsFor(items[0]) ==> At(tokens, FOR))
  }

  /** The reader gives no array that opens a for-expression, whatever it reads. */
  lemma {:induction false} ExprHeads(tokens: seq<Token>)
    ensures ParseExpr(true, tokens).Some? ==> ReadFrom(tokens, ParseExpr(true, tokens).value.0)
    decreases Size(tokens), 3
  {
    OperandHeads(tokens);
    var operand := ParseOperand(true, tokens);
    if operand.Some? && At(operand.value.1, Question) {
      var rest := operand.value.1;
      SizeDrop(rest, 1);
      ExprHeads(rest[1..]);
      var first := ParseExpr(true, rest[1..]);
      if first.Some? && At(first.value.1, Colon) {
        SizeDrop(first.value.1, 1);
        ExprHeads(first.value.1[1..]);
      }
    }
  }

  lemma {:induction false} OperandHeads(tokens: seq<Token>)
    ensures ParseOperand(true, tokens).Some? ==> ReadFrom(tokens, ParseOperand(true, tokens).value.0)
    decreases Size(tokens), 2
  {
    TermHeads(tokens);
    var term := ParseTerm(true, tokens);
    if term.Some? {
      StepsHeads(term.value.0, term.value.1);
    }
  }

  lemma AccessHeads(base: Expr, name: string)
    ensures NoForHead(Access(base, name)) <==> NoForHead(base)
    ensures StartsFor(Access(base, name)) <==> StartsFor(base)
  {
  }

  /** What the steps after a base add. */
  ghost predicate StepsAdd(base: Expr, parsed: Parsed<Expr>) {
    parsed.Some? ==> NoForHead(parsed.value.0) && (StartsFor(parsed.value.0) <==> StartsFor(base))
  }

  lemma IndexHeads(base: Expr, tokens: seq<Token>, key: Expr, rest: seq<Token>)
    requires At(tokens, LBracket) && !(|tokens| > 2 && tokens[1] == Star && tokens[2] == RBracket)
    requires ParseExpr(true, tokens[1..]) == Some((key, rest)) && At(rest, RBracket)
    ensures ParseSteps(true, base, tokens) == ParseSteps(true, Index(base, key), rest[1..])
  {
  }

  lemma {:induction false} StepsHeads(base: Expr, tokens: seq<Token>)
    requires NoForHead(base)
    ensures StepsAdd(base, ParseSteps(true, base, tokens))
    decreases Size(tokens), 1
  {
    if At(tokens, Dot) {
      if |tokens| > 1 && tokens[1].Ident? {
        SizeDrop(tokens, 2);
        AccessHeads(base, tokens[1].name);
        StepsHeads(Access(base, tokens[1].name), tokens[2..]);
      }
    } else if At(tokens, LBracket) {
      if |tokens| > 2 && tokens[1] == Star && tokens[2] == RBracket {
        SizeDrop(tokens, 3);
        StepsHeads(Splat(base), tokens[3..]);
      } else {
        IndexedHeads(base, tokens);
      }
    }
  }

  lemma {:induction false} IndexedHeads(base: Expr, tokens: seq<Token>)
    requires NoForHead(base) && At(tokens, LBracket)
    requires !(|tokens| > 2 && tokens[1] == Star && tokens[2] == RBracket)
    ensures StepsAdd(base, ParseSteps(true, base, tokens))
    decreases Size(tokens), 0
  {
    SizeDrop(tokens, 1);
    ExprHeads(tokens[1..]);
    var key := ParseExpr(true, tokens[1..]);
    if key.Some? && At(key.value.1, RBracket) {
      SizeDrop(key.value.1, 1);
      IndexHeads(base, tokens, key.value.0, key.value.1);
      StepsHeads(Index(base, key.value.0), key.value.1[1..]);
    }
  }

  lemma ArrayHeads(tokens: seq<Token>)
    requires tokens != [] && tokens[0] == LBracket
    requires ParseList(true, tokens[1..], RBracket).Some? ==>
               ListReadFrom(tokens[1..], ParseList(true, tokens[1..], RBracket).value.0)
    ensures ParseTerm(true, tokens).Some? ==> ReadFrom(tokens, ParseTerm(true, tokens).value.0)
  {
  }

  lemma CallHeads(tokens: seq<Token>)
    requires |tokens| > 1 && tokens[0].Ident? && tokens[1] == LParen
    requires ParseList(true, tokens[2..], RParen).Some? ==>
               ListReadFrom(tokens[2..], ParseList(true, tokens[2..], RParen).value.0)
    ensures ParseTerm(true, tokens).Some? ==> ReadFrom(tokens, ParseTerm(true, tokens).value.0)
  {
    assert tokens[1..][0] == LParen;
  }

  lemma {:induction false} TermHeads(tokens: seq<Token>)
    ensures ParseTerm(true, tokens).Some? ==> ReadFrom(tokens, ParseTerm(true, tokens).value.0)
    decreases Size(tokens), 1
  {
    if tokens != [] {
      SizeDrop(tokens, 1);
      match tokens[0]
      case Quoted(content) => QuotedHeads(content);
      case LBracket =>
        ListHeads(tokens[1..], RBracket);
        ArrayHeads(tokens);
      case LBrace => FieldsHeads(tokens[1..]);
      case Ident(name) =>
        if At(tokens[1..], LParen) {
          SizeDrop(tokens, 2);
          ListHeads(tokens[2..], RParen);
          CallHeads(tokens);
        }
      case _ =>
    }
  }

  lemma {:induction false} ListHeads(tokens: seq<Token>, close: Token)
    ensures ParseList(true, tokens, close).Some? ==> ListReadFrom(tokens, ParseList(true, tokens, close).value.0)
    decreases Size(tokens), 5
  {
    if !At(tokens, close) {
      ItemsHeads(tokens, close);
    }
  }

  lemma {:induction false} ItemsHeads(tokens: seq<Token>, close: Token)
    ensures ParseItems(true, tokens, close).Some? ==> ListReadFrom(tokens, ParseItems(true, tokens, close).value.0)
    decreases Size(tokens), 4
  {
    ExprHeads(tokens);
    var item := ParseExpr(true, tokens);
    if item.Some? && item.value.1 != [] {
      var rest := item.value.1;
      SizeDrop(rest, 1);
      if rest[0] != close && rest[0] == Comma {
        ItemsHeads(rest[1..], close);
        var more := ParseItems(true, rest[1..], close);
        if more.Some? {
          assert ([item.value.0] + more.value.0)[1..] == more.value.0;
        }
      }
    }
  }

  lemma {:induction false} FieldsHeads(tokens: seq<Token>)
    ensures ParseFields(true, tokens).Some? ==> NoForHeadFields(ParseFields(true, tokens).value.0)
    decreases Size(tokens), 5
  {
    if !At(tokens, RBrace) {
      MembersHeads(tokens);
    }
  }

  lemma FieldsHeadsCons(first: Entry<Expr>, rest: seq<Entry<Expr>>)
    ensures NoForHeadFields([first] + rest) <==> NoForHead(first.value) && NoForHeadFields(rest)
  {
    assert ([first] + rest)[1..] == rest;
  }

  /** What reading members does once the first value is read. */
  lemma MembersAfterValue(tokens: seq<Token>, key: string, value: Expr, rest: seq<Token>)
    requires |tokens| >= 2 && tokens[0].Quoted? && tokens[1] == Equals
    requires TextOf(tokens[0].content) == Some(key)
    requires ParseExpr(true, tokens[2..]) == Some((value, rest))
    ensures ParseMembers(true, tokens).Some? ==> rest != []
    ensures rest != [] && rest[0] == RBrace ==> ParseMembers(true, tokens) == Some(([Entry(key, value)], rest[1..]))
    ensures rest != [] && rest[0] == Comma ==>
              ParseMembers(true, tokens) == match ParseMembers(true, rest[1..])
                                            case None => None
                                            case Some((fields, after)) => Some(([Entry(key, value)] + fields, after))
    ensures rest != [] && rest[0] != RBrace && rest[0] != Comma ==> ParseMembers(true, tokens) == None
  {
  }

  lemma MembersBeforeValue(tokens: seq<Token>)
    requires ParseMembers(true, tokens).Some?
    ensures |tokens| >= 2 && tokens[0].Quoted? && tokens[1] == Equals
    ensures TextOf(tokens[0].content).Some? && ParseExpr(true, tokens[2..]).Some?
  {
  }

  lemma {:induction false} MembersHeads(tokens: seq<Token>)
    ensures ParseMembers(true, tokens).Some? ==> NoForHeadFields(ParseMembers(true, tokens).value.0)
    decreases Size(tokens), 4
  {
    if ParseMembers(true, tokens).Some? {
      MembersBeforeValue(tokens);
      var key := TextOf(tokens[0].content).value;
      var (value, rest) := ParseExpr(true, tokens[2..]).value;
      SizeDrop(tokens, 2);
      ExprHeads(tokens[2..]);
      MembersAfterValue(tokens, key, value, rest);
      SizeDrop(rest, 1);
      if rest[0] == RBrace {
        FieldsHeadsCons(Entry(key, value), []);
        assert [Entry(key, value)] + [] == [Entry(key, value)];
      } else {
        MembersHeads(rest[1..]);
        FieldsHeadsCons(Entry(key, value), ParseMembers(true, rest[1..]).value.0);
      }
    }
  }

  /** The code read in a template's symbols. */
  ghost predicate CodesHold(content: seq<T.Symbol<Option<Expr>>>) {
    forall s :: s in content && s.Code? && s.code.Some? ==> NoForHead(s.code.value)
  }

  ghost predicate ReadsHold(decoded: seq<T.Decoded<Option<Expr>>>) {
    forall d :: d in decoded && !d.Chr? && d.code.Some? ==> NoForHead(d.code.value)
  }

  lemma {:induction false} CodeHeads(content: Content)
    ensures CodesHold(ReadCodes(true, content))
    decreases ContentSize(content), 6
  {
    if content != [] {
      assert ContentSize(content) == SymbolSize(content[0]) + ContentSize(content[1..]);
      match content[0] {
        case Ch(_) =>
        case Code(snippet) => AllHeads(snippet.tokens);
      }
      CodeHeads(content[1..]);
    }
  }

  lemma {:induction false} AllHeads(tokens: seq<Token>)
    ensures ParseAll(true, tokens).Some? ==> NoForHead(ParseAll(true, tokens).value)
    decreases Size(tokens), 4
  {
    ExprHeads(tokens);
  }

  lemma {:induction false} DecodeHeads(content: seq<T.Symbol<Option<Expr>>>)
    requires CodesHold(content)
    ensures T.Decode(content).Some? ==> ReadsHold(T.Decode(content).value)
    decreases |content|
  {
    if content != [] {
      if T.Escapes(content, '$') || T.Escapes(content, '%') {
        DecodeHeads(content[3..]);
      } else if T.Interpolates(content) {
        assert content[2] in content;
        DecodeHeads(content[4..]);
      } else if !T.Opens(content, '$') && !T.Opens(content, '%') {
        assert content[0] in content;
        DecodeHeads(content[1..]);
      }
    }
  }

  lemma {:induction false} WholeHeads(decoded: seq<T.Decoded<Option<Expr>>>)
    requires ReadsHold(decoded)
    ensures Whole(decoded).Some? ==> DecodedHold(Whole(decoded).value, NoForHead)
  {
    if decoded != [] {
      assert decoded[0] in decoded;
      WholeHeads(decoded[1..]);
    }
  }

  lemma {:induction false} QuotedHeads(content: Content)
    ensures var decoded := T.Decode(ReadCodes(true, content));
            decoded.Some? && Whole(decoded.value).Some? ==>
              DecodedHold(Whole(decoded.value).value, NoForHead)
              && NoForHead(FromDecoded(Whole(decoded.value).value))
              && !StartsFor(FromDecoded(Whole(decoded.value).value))
    decreases ContentSize(content), 7
  {
    CodeHeads(content);
    DecodeHeads(ReadCodes(true, content));
    var decoded := T.Decode(ReadCodes(true, content));
    if decoded.Some? && Whole(decoded.value).Some? {
      WholeHeads(decoded.value);
      FromDecodedHeads(Whole(decoded.value).value);
    }
  }
}
