/** Where a reader puts the steps and question marks written after a conditional. */
module HclReassoc {
  import opened SortedMap
  import opened GraphIr
  import opened Hcl
  import T = Templates
  import TemplateSafety

  const RESERVED := {"null", "true", "false", "var", "data"}

  ghost predicate Unquoted(tokens: seq<Token>) {
    forall t :: t in tokens ==> !t.Quoted?
  }

  /** What a reader of the syntax can tell apart at all. A resource kind that is a keyword or
      opens another form is out, and so is raw text. A template inside an expression is quoted
      as a whole, so the code in it holds no quoted text of its own. */
  ghost predicate Readable(e: Expr)
    decreases e, 0
  {
    match e
    case ResourceAttr(address, _) => address.Resource? && address.kind !in RESERVED
    case DataSourceAttr(address, _) => address.DataSource?
    case Array(items) => ReadableAll(items)
    case Object(fields) => ReadableFields(fields)
    case Index(collection, key) => Readable(collection) && Readable(key)
    case Attribute(of, _) => Readable(of)
    case Splat(of) => Readable(of)
    case Conditional(condition, whenTrue, whenFalse) =>
      Readable(condition) && Readable(whenTrue) && Readable(whenFalse)
    case Function(_, args) => ReadableAll(args)
    case Template(parts) => ReadableParts(parts) && UnquotedParts(parts) && TemplateSafety.Safe(RenderParts(parts))
    case UnsafeRaw(_) => false
    case _ => true
  }

  ghost predicate ReadableAll(items: seq<Expr>)
    decreases items, 1
  {
    items == [] || (Readable(items[0]) && ReadableAll(items[1..]))
  }

  ghost predicate ReadableFields(fields: seq<Entry<Expr>>)
    decreases fields, 1
  {
    fields == [] || (Readable(fields[0].value) && ReadableFields(fields[1..]))
  }

  ghost predicate ReadableParts(parts: seq<TemplatePart>)
    decreases parts, 1
  {
    parts == [] || (ReadablePart(parts[0]) && ReadableParts(parts[1..]))
  }

  ghost predicate ReadablePart(part: TemplatePart)
    decreases part, 1
  {
    part.Interpolation? ==> Readable(part.expression)
  }

  ghost predicate UnquotedParts(parts: seq<TemplatePart>) {
    forall p :: p in parts && p.Interpolation? ==> Unquoted(Render(p.expression))
  }

  function StepTokens(step: Step): seq<Token> {
    match step
    case Dotted(name) => [Dot, Ident(name)]
    case Indexed(key) => [LBracket] + Render(key) + [RBracket]
    case Splatted => [LBracket, Star, RBracket]
  }

  ghost predicate PlacedStep(step: Step) {
    step.Indexed? ==> Placed(step.key)
  }

  ghost predicate ReadableStep(step: Step) {
    step.Indexed? ==> Readable(step.key)
  }

  lemma ApplyRender(base: Expr, step: Step)
    ensures Render(Apply(base, step)) == Render(base) + StepTokens(step)
  {
    if step.Indexed? {
      assert Render(base) + [LBracket] + Render(step.key) + [RBracket] == Render(base) + StepTokens(step);
    }
  }

  lemma ApplyReadable(base: Expr, step: Step)
    ensures Readable(Apply(base, step)) <==> Readable(base) && ReadableStep(step)
  {
  }

  lemma ApplyPlaced(base: Expr, step: Step)
    ensures Placed(Apply(base, step)) <==> !base.Conditional? && Placed(base) && PlacedStep(step)
  {
  }

  function AskTokens(whenTrue: Expr, whenFalse: Expr): seq<Token> {
    [Question] + Render(whenTrue) + [Colon] + Render(whenFalse)
  }

  lemma ConditionalRender(condition: Expr, whenTrue: Expr, whenFalse: Expr)
    ensures Render(Conditional(condition, whenTrue, whenFalse)) == Render(condition) + AskTokens(whenTrue, whenFalse)
  {
  }

  function FrontTokens(condition: Expr, whenTrue: Expr): seq<Token> {
    Render(condition) + [Question] + Render(whenTrue) + [Colon]
  }

  lemma ConditionalFront(condition: Expr, whenTrue: Expr, whenFalse: Expr)
    ensures Render(Conditional(condition, whenTrue, whenFalse)) == FrontTokens(condition, whenTrue) + Render(whenFalse)
  {
  }

  lemma {:induction false} PushRender(base: Expr, step: Step)
    ensures Render(Push(base, step)) == Render(base) + StepTokens(step)
  {
    match base
    case Conditional(c, t, f) =>
      PushRender(f, step);
      ConditionalFront(c, t, f);
      ConditionalFront(c, t, Push(f, step));
      T.Associate(FrontTokens(c, t), Render(f), StepTokens(step));
    case _ => ApplyRender(base, step);
  }

  lemma {:induction false} PushReadable(base: Expr, step: Step)
    requires Readable(base) && ReadableStep(step)
    ensures Readable(Push(base, step))
  {
    match base
    case Conditional(_, _, f) => PushReadable(f, step);
    case _ => ApplyReadable(base, step);
  }

  lemma {:induction false} PushPlaced(base: Expr, step: Step)
    requires Placed(base) && PlacedStep(step)
    ensures Placed(Push(base, step))
  {
    match base
    case Conditional(_, _, f) => PushPlaced(f, step);
    case _ => ApplyPlaced(base, step);
  }

  lemma {:induction false} PushConditionalRender(condition: Expr, whenTrue: Expr, whenFalse: Expr)
    ensures Render(PushConditional(condition, whenTrue, whenFalse))
         == Render(condition) + AskTokens(whenTrue, whenFalse)
  {
    match condition
    case Conditional(c, t, f) =>
      PushConditionalRender(f, whenTrue, whenFalse);
      ConditionalFront(c, t, f);
      ConditionalFront(c, t, PushConditional(f, whenTrue, whenFalse));
      T.Associate(FrontTokens(c, t), Render(f), AskTokens(whenTrue, whenFalse));
    case _ => ConditionalRender(condition, whenTrue, whenFalse);
  }

  lemma ConditionalReadable(c: Expr, t: Expr, f: Expr)
    ensures Readable(Conditional(c, t, f)) <==> Readable(c) && Readable(t) && Readable(f)
  {
  }

  lemma ConditionalPlaced(c: Expr, t: Expr, f: Expr)
    ensures Placed(Conditional(c, t, f)) <==> !c.Conditional? && Placed(c) && Placed(t) && Placed(f)
  {
  }

  lemma {:induction false} PushConditionalReadable(condition: Expr, whenTrue: Expr, whenFalse: Expr)
    requires Readable(condition) && Readable(whenTrue) && Readable(whenFalse)
    ensures Readable(PushConditional(condition, whenTrue, whenFalse))
  {
    match condition
    case Conditional(c, t, f) =>
      ConditionalReadable(c, t, f);
      PushConditionalReadable(f, whenTrue, whenFalse);
      ConditionalReadable(c, t, PushConditional(f, whenTrue, whenFalse));
    case _ => ConditionalReadable(condition, whenTrue, whenFalse);
  }

  lemma {:induction false} PushConditionalPlaced(condition: Expr, whenTrue: Expr, whenFalse: Expr)
    requires Placed(condition) && Placed(whenTrue) && Placed(whenFalse)
    ensures Placed(PushConditional(condition, whenTrue, whenFalse))
  {
    match condition
    case Conditional(c, t, f) =>
      ConditionalPlaced(c, t, f);
      PushConditionalPlaced(f, whenTrue, whenFalse);
      ConditionalPlaced(c, t, PushConditional(f, whenTrue, whenFalse));
    case _ => ConditionalPlaced(condition, whenTrue, whenFalse);
  }

  /** What moving conditionals does to one expression. */
  ghost predicate Moved(before: Expr, after: Expr) {
    && Render(after) == Render(before)
    && Placed(after)
    && (Placed(before) ==> after == before)
  }

  lemma StepMovedPlaced(before: Expr, after: Expr, step: Step, movedStep: Step)
    requires Placed(after) && PlacedStep(movedStep)
    requires Placed(before) ==> after == before
    requires PlacedStep(step) ==> movedStep == step
    ensures Placed(Push(after, movedStep))
    ensures Placed(Apply(before, step)) ==> Push(after, movedStep) == Apply(before, step)
  {
    PushPlaced(after, movedStep);
    ApplyPlaced(before, step);
  }

  lemma StepMoved(before: Expr, after: Expr, step: Step, movedStep: Step)
    requires Moved(before, after)
    requires step.Indexed? <==> movedStep.Indexed?
    requires if step.Indexed? then Moved(step.key, movedStep.key) else step == movedStep
    ensures Moved(Apply(before, step), Push(after, movedStep))
  {
    PushRender(after, movedStep);
    ApplyRender(before, step);
    StepMovedPlaced(before, after, step, movedStep);
  }

  lemma ConditionalMovedRender(c: Expr, c': Expr, t: Expr, t': Expr, f: Expr, f': Expr)
    requires Render(c) == Render(c') && Render(t) == Render(t') && Render(f) == Render(f')
    ensures Render(PushConditional(c', t', f')) == Render(Conditional(c, t, f))
  {
    PushConditionalRender(c', t', f');
    ConditionalRender(c, t, f);
    assert AskTokens(t', f') == AskTokens(t, f);
  }

  lemma ConditionalMovedPlaced(c: Expr, c': Expr, t: Expr, t': Expr, f: Expr, f': Expr)
    requires Placed(c') && Placed(t') && Placed(f')
    requires (Placed(c) ==> c == c') && (Placed(t) ==> t == t') && (Placed(f) ==> f == f')
    ensures Placed(PushConditional(c', t', f'))
    ensures Placed(Conditional(c, t, f)) ==> PushConditional(c', t', f') == Conditional(c, t, f)
  {
    PushConditionalPlaced(c', t', f');
    ConditionalPlaced(c, t, f);
  }

  lemma ConditionalMoved(c: Expr, c': Expr, t: Expr, t': Expr, f: Expr, f': Expr)
    requires Moved(c, c') && Moved(t, t') && Moved(f, f')
    ensures Moved(Conditional(c, t, f), PushConditional(c', t', f'))
  {
    ConditionalMovedRender(c, c', t, t', f, f');
    ConditionalMovedPlaced(c, c', t, t', f, f');
  }

  lemma ArrayMoved(items: seq<Expr>, moved: seq<Expr>)
    requires RenderList(moved) == RenderList(items) && PlacedAll(moved)
    requires PlacedAll(items) ==> moved == items
    ensures Moved(Array(items), Array(moved))
  {
  }

  lemma ObjectMoved(fields: seq<Entry<Expr>>, moved: seq<Entry<Expr>>)
    requires RenderFields(moved) == RenderFields(fields) && PlacedFields(moved)
    requires PlacedFields(fields) ==> moved == fields
    ensures Moved(Object(fields), Object(moved))
  {
  }

  lemma FunctionMoved(name: string, args: seq<Expr>, moved: seq<Expr>)
    requires RenderList(moved) == RenderList(args) && PlacedAll(moved)
    requires PlacedAll(args) ==> moved == args
    ensures Moved(Function(name, args), Function(name, moved))
  {
  }

  lemma TemplateMoved(parts: seq<TemplatePart>, moved: seq<TemplatePart>)
    requires RenderParts(moved) == RenderParts(parts) && PlacedParts(moved)
    requires PlacedParts(parts) ==> moved == parts
    ensures Moved(Template(parts), Template(moved))
  {
  }

  /** The text is unchanged, every conditional is placed where it can be read back, and nothing
      moves when all were. */
  lemma {:induction false} ReassocSpec(e: Expr)
    ensures Moved(e, Reassoc(e))
    decreases e, 0
  {
    match e
    case Array(items) =>
      ReassocAllSpec(items);
      ArrayMoved(items, ReassocAll(items));
    case Object(fields) =>
      ReassocFieldsSpec(fields);
      ObjectMoved(fields, ReassocFields(fields));
    case Index(collection, key) =>
      ReassocSpec(collection);
      ReassocSpec(key);
      StepMoved(collection, Reassoc(collection), Indexed(key), Indexed(Reassoc(key)));
    case Attribute(of, name) =>
      ReassocSpec(of);
      StepMoved(of, Reassoc(of), Dotted(name), Dotted(name));
    case Splat(of) =>
      ReassocSpec(of);
      StepMoved(of, Reassoc(of), Splatted, Splatted);
    case Conditional(condition, whenTrue, whenFalse) =>
      ReassocSpec(condition);
      ReassocSpec(whenTrue);
      ReassocSpec(whenFalse);
      ConditionalMoved(
        condition, Reassoc(condition), whenTrue, Reassoc(whenTrue), whenFalse, Reassoc(whenFalse));
    case Function(name, args) =>
      ReassocAllSpec(args);
      FunctionMoved(name, args, ReassocAll(args));
    case Template(parts) =>
      ReassocPartsSpec(parts);
      TemplateMoved(parts, ReassocParts(parts));
    case _ =>
  }

  lemma {:induction false} ReassocAllSpec(items: seq<Expr>)
    ensures RenderList(ReassocAll(items)) == RenderList(items)
    ensures PlacedAll(ReassocAll(items))
    ensures PlacedAll(items) ==> ReassocAll(items) == items
    ensures |ReassocAll(items)| == |items|
    decreases items, 1
  {
    if items != [] {
      ReassocSpec(items[0]);
      ReassocAllSpec(items[1..]);
      assert ReassocAll(items)[1..] == ReassocAll(items[1..]);
    }
  }

  lemma {:induction false} ReassocFieldsSpec(fields: seq<Entry<Expr>>)
    ensures RenderFields(ReassocFields(fields)) == RenderFields(fields)
    ensures PlacedFields(ReassocFields(fields))
    ensures PlacedFields(fields) ==> ReassocFields(fields) == fields
    ensures |ReassocFields(fields)| == |fields|
    decreases fields, 1
  {
    if fields != [] {
      ReassocSpec(fields[0].value);
      ReassocFieldsSpec(fields[1..]);
      assert ReassocFields(fields)[1..] == ReassocFields(fields[1..]);
    }
  }

  lemma {:induction false} ReassocPartsSpec(parts: seq<TemplatePart>)
    ensures RenderParts(ReassocParts(parts)) == RenderParts(parts)
    ensures PlacedParts(ReassocParts(parts))
    ensures PlacedParts(parts) ==> ReassocParts(parts) == parts
    decreases parts, 1
  {
    if parts != [] {
      var first, rest := parts[0], parts[1..];
      ReassocPartSpec(first);
      ReassocPartsSpec(rest);
      var moved := ReassocParts(parts);
      assert moved == [ReassocPart(first)] + ReassocParts(rest);
      assert moved[1..] == ReassocParts(rest);
    }
  }

  lemma {:induction false} ReassocPartSpec(part: TemplatePart)
    ensures RenderPart(ReassocPart(part)) == RenderPart(part)
    ensures PlacedPart(ReassocPart(part))
    ensures PlacedPart(part) ==> ReassocPart(part) == part
    decreases part, 1
  {
    if part.Interpolation? {
      ReassocSpec(part.expression);
    }
  }

  // ----- moving conditionals keeps expressions readable -----

  lemma {:induction false} ReassocReadable(e: Expr)
    requires Readable(e)
    ensures Readable(Reassoc(e))
    decreases e, 0
  {
    match e
    case Array(items) => ReassocAllReadable(items);
    case Object(fields) => ReassocFieldsReadable(fields);
    case Index(collection, key) =>
      ReassocReadable(collection);
      ReassocReadable(key);
      PushReadable(Reassoc(collection), Indexed(Reassoc(key)));
    case Attribute(of, name) =>
      ReassocReadable(of);
      PushReadable(Reassoc(of), Dotted(name));
    case Splat(of) =>
      ReassocReadable(of);
      PushReadable(Reassoc(of), Splatted);
    case Conditional(condition, whenTrue, whenFalse) =>
      ReassocReadable(condition);
      ReassocReadable(whenTrue);
      ReassocReadable(whenFalse);
      PushConditionalReadable(Reassoc(condition), Reassoc(whenTrue), Reassoc(whenFalse));
    case Function(_, args) => ReassocAllReadable(args);
    case Template(parts) =>
      ReassocPartsReadable(parts);
      ReassocPartsUnquoted(parts);
      ReassocPartsSpec(parts);
    case _ =>
  }

  lemma {:induction false} ReassocAllReadable(items: seq<Expr>)
    requires ReadableAll(items)
    ensures ReadableAll(ReassocAll(items))
    decreases items, 1
  {
    if items != [] {
      ReassocReadable(items[0]);
      ReassocAllReadable(items[1..]);
      assert ReassocAll(items)[1..] == ReassocAll(items[1..]);
    }
  }

  lemma {:induction false} ReassocFieldsReadable(fields: seq<Entry<Expr>>)
    requires ReadableFields(fields)
    ensures ReadableFields(ReassocFields(fields))
    decreases fields, 1
  {
    if fields != [] {
      ReassocReadable(fields[0].value);
      ReassocFieldsReadable(fields[1..]);
      assert ReassocFields(fields)[1..] == ReassocFields(fields[1..]);
    }
  }

  lemma {:induction false} ReassocPartsReadable(parts: seq<TemplatePart>)
    requires ReadableParts(parts)
    ensures ReadableParts(ReassocParts(parts))
    decreases parts, 1
  {
    if parts != [] {
      ReassocPartReadable(parts[0]);
      ReassocPartsReadable(parts[1..]);
      assert ReassocParts(parts)[1..] == ReassocParts(parts[1..]);
    }
  }

  lemma {:induction false} ReassocPartReadable(part: TemplatePart)
    requires ReadablePart(part)
    ensures ReadablePart(ReassocPart(part))
    decreases part, 1
  {
    if part.Interpolation? {
      ReassocReadable(part.expression);
    }
  }

  lemma {:induction false} ReassocPartsUnquoted(parts: seq<TemplatePart>)
    requires UnquotedParts(parts)
    ensures UnquotedParts(ReassocParts(parts))
  {
    if parts != [] {
      var first, rest := parts[0], parts[1..];
      assert first in parts && forall p :: p in rest ==> p in parts;
      ReassocPartsUnquoted(rest);
      ReassocPartSpec(first);
      assert ReassocParts(parts) == [ReassocPart(first)] + ReassocParts(rest);
      assert forall p :: p in ReassocParts(parts) <==> p == ReassocPart(first) || p in ReassocParts(rest);
    }
  }

  // ----- normal forms keep conditionals where they are -----

  lemma {:induction false} UnfoldPlaced(value: Value)
    ensures Placed(Unfold(value))
    decreases value, 0
  {
    match value
    case List(values) => UnfoldAllPlaced(values);
    case Record(members) => UnfoldMembersPlaced(members);
    case _ =>
  }

  lemma {:induction false} UnfoldAllPlaced(values: seq<Value>)
    ensures PlacedAll(UnfoldAll(values))
    decreases values, 1
  {
    if values != [] {
      UnfoldPlaced(values[0]);
      UnfoldAllPlaced(values[1..]);
      assert UnfoldAll(values)[1..] == UnfoldAll(values[1..]);
    }
  }

  lemma {:induction false} UnfoldMembersPlaced(members: seq<Entry<Value>>)
    ensures PlacedFields(UnfoldMembers(members))
    decreases members, 1
  {
    if members != [] {
      UnfoldPlaced(members[0].value);
      UnfoldMembersPlaced(members[1..]);
      assert UnfoldMembers(members)[1..] == UnfoldMembers(members[1..]);
    }
  }

  ghost predicate PartsHold(parts: seq<TemplatePart>, good: Expr -> bool) {
    forall p :: p in parts && p.Interpolation? ==> good(p.expression)
  }

  ghost predicate DecodedHold(decoded: seq<T.Decoded<Expr>>, good: Expr -> bool) {
    forall d :: d in decoded && !d.Chr? ==> good(d.code)
  }

  lemma {:induction false} PlacedPartsHold(parts: seq<TemplatePart>)
    ensures PlacedParts(parts) <==> PartsHold(parts, Placed)
  {
    if parts != [] {
      PlacedPartsHold(parts[1..]);
      assert forall p :: p in parts <==> p == parts[0] || p in parts[1..];
    }
  }

  lemma PartsHoldCons(first: TemplatePart, rest: seq<TemplatePart>, good: Expr -> bool)
    ensures PartsHold([first] + rest, good) <==>
            (first.Interpolation? ==> good(first.expression)) && PartsHold(rest, good)
  {
    assert forall p :: p in [first] + rest <==> p == first || p in rest;
  }

  /** Joining text keeps the code of a decoded template. */
  lemma {:induction false} GroupHolds(decoded: seq<T.Decoded<Expr>>, good: Expr -> bool)
    ensures PartsHold(Group(decoded), good) <==> DecodedHold(decoded, good)
  {
    if decoded != [] {
      var first, tail := decoded[0], decoded[1..];
      GroupHolds(tail, good);
      assert forall d :: d in decoded <==> d == first || d in tail;
      var rest := Group(tail);
      match first
      case Chr(c) =>
        if rest != [] && rest[0].Verbatim? {
          assert rest == [rest[0]] + rest[1..];
          PartsHoldCons(rest[0], rest[1..], good);
          PartsHoldCons(Verbatim([c] + rest[0].text), rest[1..], good);
        } else {
          PartsHoldCons(Verbatim([c]), rest, good);
        }
      case Hole(code) => PartsHoldCons(Interpolation(code), rest, good);
      case Raw(code) => PartsHoldCons(Interpolation(code), rest, good);
    }
  }

  lemma {:induction false} FlattenHolds(parts: seq<TemplatePart>, good: Expr -> bool)
    requires forall p :: p in parts && p.Interpolation? ==> (good(Normal(p.expression)) <==> good(p.expression))
    ensures DecodedHold(T.Flatten(NormalParts(parts)), good) <==> PartsHold(parts, good)
  {
    if parts != [] {
      var first, rest := parts[0], parts[1..];
      FlattenHolds(rest, good);
      var head, tail := T.FlattenPart(NormalPart(first)), T.Flatten(NormalParts(rest));
      assert NormalParts(parts)[1..] == NormalParts(rest);
      assert T.Flatten(NormalParts(parts)) == head + tail;
      assert forall d :: d in head + tail <==> d in head || d in tail;
      assert parts == [first] + rest && first in parts;
      PartsHoldCons(first, rest, good);
      if first.Interpolation? {
        assert T.Hole(Normal(first.expression)) in head;
      }
    }
  }

  lemma FromDecodedPlaced(decoded: seq<T.Decoded<Expr>>)
    ensures Placed(FromDecoded(decoded)) <==> DecodedHold(decoded, Placed)
    ensures !FromDecoded(decoded).Conditional?
  {
    GroupHolds(decoded, Placed);
    PlacedPartsHold(Group(decoded));
  }

  lemma NormalConditional(e: Expr)
    ensures Normal(e).Conditional? <==> e.Conditional?
  {
  }

  lemma {:induction false} NormalPlaced(e: Expr)
    ensures Placed(Normal(e)) <==> Placed(e)
    decreases e, 0
  {
    match e
    case Literal(value) => UnfoldPlaced(value);
    case Array(items) => NormalAllPlaced(items);
    case Object(fields) => NormalFieldsPlaced(fields);
    case Index(collection, key) =>
      NormalConditional(collection);
      NormalPlaced(collection);
      NormalPlaced(key);
    case Attribute(of, _) =>
      NormalConditional(of);
      NormalPlaced(of);
    case Splat(of) =>
      NormalConditional(of);
      NormalPlaced(of);
    case Conditional(condition, whenTrue, whenFalse) =>
      NormalConditional(condition);
      NormalPlaced(condition);
      NormalPlaced(whenTrue);
      NormalPlaced(whenFalse);
    case Function(_, args) => NormalAllPlaced(args);
    case Template(parts) =>
      forall p | p in parts && p.Interpolation? { NormalPlaced(p.expression); }
      PlacedPartsHold(parts);
      FlattenHolds(parts, Placed);
      FromDecodedPlaced(T.Flatten(NormalParts(parts)));
    case _ =>
  }

  lemma {:induction false} NormalAllPlaced(items: seq<Expr>)
    ensures PlacedAll(NormalAll(items)) <==> PlacedAll(items)
    decreases items, 1
  {
    if items != [] {
      NormalPlaced(items[0]);
      NormalAllPlaced(items[1..]);
      assert NormalAll(items)[1..] == NormalAll(items[1..]);
    }
  }

  lemma {:induction false} NormalFieldsPlaced(fields: seq<Entry<Expr>>)
    ensures PlacedFields(NormalFields(fields)) <==> PlacedFields(fields)
    decreases fields, 1
  {
    if fields != [] {
      NormalPlaced(fields[0].value);
      NormalFieldsPlaced(fields[1..]);
      assert NormalFields(fields)[1..] == NormalFields(fields[1..]);
    }
  }
}
