/** The one-pass normalizer agrees with replacing repeated names first and then stopping at the
    first problem. */
module SinglePass {
  import opened Wrappers
  import opened SortedMap
  import opened RawSchemas
  import opened Schemas
  import opened Normalizing
  import opened Collapsing
  import OrderedMap

  function CtyAt(path: Path): (string, Json) -> Normalized<SchemaType> {
    (name, json) => WalkCty(json, path + [Field(name)])
  }

  function AttributeAt(path: Path): (string, RawAttribute) -> Normalized<AttributeSchema> {
    (name, raw) => WalkAttribute(raw, path + [Field(name)])
  }

  function BlockAt(path: Path): (string, RawNestedBlock) -> Normalized<NestedBlockSchema> {
    (name, raw) => WalkNestedBlock(raw, path + [Field(name)])
  }

  lemma MapValuesUncons<S, T>(entries: seq<Entry<S>>, f: (string, S) -> T)
    requires entries != []
    ensures MapValues(entries, f)[1..] == MapValues(entries[1..], f)
  {
  }

  lemma MapValuesSnoc<S, T>(init: seq<Entry<S>>, last: Entry<S>, f: (string, S) -> T)
    ensures MapValues(init + [last], f) == MapValues(init, f) + [Entry(last.key, f(last.key, last.value))]
  {
  }

  lemma {:induction false} WalkFieldsIsSequenced(members: seq<Entry<Json>>, path: Path)
    ensures WalkFields(members, path) == Sequenced(MapValues(members, CtyAt(path)))
  {
    if members != [] {
      WalkFieldsIsSequenced(members[1..], path);
      MapValuesUncons(members, CtyAt(path));
      SequencedCons(MapValues(members, CtyAt(path)));
    }
  }

  lemma {:induction false} WalkAttributesIsSequenced(entries: seq<Entry<RawAttribute>>, path: Path)
    ensures WalkAttributes(entries, path) == Sequenced(MapValues(entries, AttributeAt(path)))
  {
    if entries != [] {
      WalkAttributesIsSequenced(entries[1..], path);
      MapValuesUncons(entries, AttributeAt(path));
      SequencedCons(MapValues(entries, AttributeAt(path)));
    }
  }

  lemma {:induction false} WalkBlocksIsSequenced(entries: seq<Entry<RawNestedBlock>>, path: Path)
    ensures WalkBlocks(entries, path) == Sequenced(MapValues(entries, BlockAt(path)))
  {
    if entries != [] {
      WalkBlocksIsSequenced(entries[1..], path);
      MapValuesUncons(entries, BlockAt(path));
      SequencedCons(MapValues(entries, BlockAt(path)));
    }
  }

  lemma {:induction false} CollapsedItem(items: seq<Json>, at: nat)
    requires at < |items|
    ensures CollapseItems(items)[at] == CollapseJson(items[at])
    decreases |items|
  {
    if at < |items| - 1 {
      CollapsedItem(items[..|items| - 1], at);
    }
  }

  lemma {:induction false} CollapseKeepsKind(json: Json)
    ensures CollapseJson(json).Str? == json.Str? && CollapseJson(json).Arr? == json.Arr?
    ensures CollapseJson(json).Obj? == json.Obj?
    ensures json.Str? ==> CollapseJson(json) == json
  {
  }

  ghost function AndFirst<T>(first: Normalized<T>, rest: Normalized<seq<T>>): Normalized<seq<T>> {
    match first
    case Err(problem) => Err(problem)
    case Ok(t) =>
      match rest
      case Err(problem) => Err(problem)
      case Ok(types) => Ok([t] + types)
  }

  ghost function AndLast<T>(init: Normalized<seq<T>>, last: Normalized<T>): Normalized<seq<T>> {
    match init
    case Err(problem) => Err(problem)
    case Ok(types) =>
      match last
      case Err(problem) => Err(problem)
      case Ok(t) => Ok(types + [t])
  }

  lemma FirstAndLast<T>(first: Normalized<T>, middle: Normalized<seq<T>>, last: Normalized<T>)
    ensures AndFirst(first, AndLast(middle, last)) == AndLast(AndFirst(first, middle), last)
  {
    if first.Ok? && middle.Ok? && last.Ok? {
      assert [first.value] + (middle.value + [last.value]) == ([first.value] + middle.value) + [last.value];
    }
  }

  lemma OnlyElement<T>(only: Normalized<T>)
    ensures AndFirst(only, Ok([])) == AndLast(Ok([]), only)
  {
    assert only.Ok? ==> [only.value] + [] == [] + [only.value];
  }

  lemma {:induction false} WalkElementsSnoc(init: seq<Json>, last: Json, path: Path, at: nat)
    ensures WalkElements(init + [last], path, at) ==
            AndLast(WalkElements(init, path, at), WalkCty(last, path + [Index(at + |init|)]))
    decreases |init|
  {
    var all := init + [last];
    var end := WalkCty(last, path + [Index(at + |init|)]);
    if init == [] {
      assert all == [last] && all[1..] == [];
      OnlyElement(end);
    } else {
      assert all[1..] == init[1..] + [last];
      WalkElementsSnoc(init[1..], last, path, at + 1);
      FirstAndLast(WalkCty(init[0], path + [Index(at)]), WalkElements(init[1..], path, at + 1), end);
    }
  }

  /** A cty type, its fields and its elements normalize as the collapsed type walks. */
  lemma {:induction false} CtyAgrees(json: Json, path: Path)
    ensures CtyType(json, path) == WalkCty(CollapseJson(json), path)
    decreases json
  {
    if json.Arr? && |json.items| > 0 {
      CollapsedItem(json.items, 0);
      CollapseKeepsKind(json.items[0]);
      if |json.items| > 1 {
        CollapsedItem(json.items, 1);
        CtyParameterAgrees(json.items, path);
      }
    }
  }

  lemma CtyParameterAgrees(items: seq<Json>, path: Path)
    requires |items| > 1
    ensures CtyType(items[1], path) == WalkCty(CollapseJson(items[1]), path)
    ensures items[1].Obj? ==>
              CollapseJson(items[1]).Obj?
              && WalkFields(CollapseJson(items[1]).members, path)
                 == Sequenced(OrderedMap.FromList(CtyFields(items[1].members, path)))
    ensures items[1].Arr? ==>
              CollapseJson(items[1]).Arr?
              && WalkElements(CollapseJson(items[1]).items, path, 0) == CtyElements(items[1].items, path)
    decreases items
  {
    CtyAgrees(items[1], path);
    match items[1] {
      case Obj(members) =>
        FieldsAgree(members, path);
        FromListMaps(CollapseMembers(members), CtyAt(path));
        WalkFieldsIsSequenced(OrderedMap.FromList(CollapseMembers(members)), path);
      case Arr(elements) =>
        ElementsAgree(elements, path);
      case _ =>
    }
  }

  lemma {:induction false} FieldsAgree(members: seq<Entry<Json>>, path: Path)
    ensures CtyFields(members, path) == MapValues(CollapseMembers(members), CtyAt(path))
    decreases members
  {
    if members != [] {
      var init, last := members[..|members| - 1], members[|members| - 1];
      FieldsAgree(init, path);
      CtyAgrees(last.value, path + [Field(last.key)]);
      MapValuesSnoc(CollapseMembers(init), Entry(last.key, CollapseJson(last.value)), CtyAt(path));
    }
  }

  lemma CtyElementsSnoc(init: seq<Json>, last: Json, path: Path)
    ensures CtyElements(init + [last], path) ==
            AndLast(CtyElements(init, path), CtyType(last, path + [Index(|init|)]))
    ensures CollapseItems(init + [last]) == CollapseItems(init) + [CollapseJson(last)]
  {
    assert (init + [last])[..|init|] == init;
  }

  lemma ElementsStep(init: seq<Json>, last: Json, path: Path)
    requires CtyElements(init, path) == WalkElements(CollapseItems(init), path, 0)
    requires CtyType(last, path + [Index(|init|)]) == WalkCty(CollapseJson(last), path + [Index(|init|)])
    ensures CtyElements(init + [last], path) == WalkElements(CollapseItems(init + [last]), path, 0)
  {
    var collapsed, end := CollapseItems(init), CollapseJson(last);
    CtyElementsSnoc(init, last, path);
    WalkElementsSnoc(collapsed, end, path, 0);
    assert WalkElements(collapsed + [end], path, 0)
        == AndLast(WalkElements(collapsed, path, 0), WalkCty(end, path + [Index(|init|)]));
  }

  lemma {:induction false} ElementsAgree(elements: seq<Json>, path: Path)
    ensures CtyElements(elements, path) == WalkElements(CollapseItems(elements), path, 0)
    decreases elements
  {
    if elements != [] {
      var init, last := elements[..|elements| - 1], elements[|elements| - 1];
      ElementsAgree(init, path);
      CtyAgrees(last, path + [Index(|init|)]);
      ElementsStep(init, last, path);
      assert elements == init + [last];
    }
  }

  lemma {:induction false} AttributeAgrees(raw: RawAttribute, path: Path)
    ensures Attribute(raw, path) == WalkAttribute(CollapseAttribute(raw), path)
    decreases raw
  {
    if raw.cty.Some? {
      CtyAgrees(raw.cty.value, path);
      WithTypeKept(raw, WalkCty(CollapseJson(raw.cty.value), path));
    } else if raw.nested.Some? {
      var nested := raw.nested.value;
      AttributesWalk(nested.attributes, path);
      WithTypeKept(raw, NestedType(nested.mode, Attributes(nested.attributes, path), path));
      WalkNested(CollapseAttribute(raw), path);
    }
  }

  lemma WithTypeKept(raw: RawAttribute, t: Normalized<SchemaType>)
    ensures WithType(CollapseAttribute(raw), t) == WithType(raw, t)
  {
  }

  lemma WalkNested(raw: RawAttribute, path: Path)
    requires raw.cty.None? && raw.nested.Some?
    ensures WalkAttribute(raw, path) ==
            WithType(raw, match WalkAttributes(raw.nested.value.attributes, path)
                          case Err(problem) => Err(problem)
                          case Ok(attributes) =>
                            match ModeOf(raw.nested.value.mode, path)
                            case Err(problem) => Err(problem)
                            case Ok(mode) => Ok(Nest(mode, Object(attributes))))
  {
  }

  lemma {:induction false} AttributesAgree(entries: seq<Entry<RawAttribute>>, path: Path)
    ensures Attributes(entries, path) == MapValues(CollapseAttributes(entries), AttributeAt(path))
    decreases entries, 0
  {
    if entries != [] {
      var init, last := entries[..|entries| - 1], entries[|entries| - 1];
      AttributesAgree(init, path);
      AttributeAgrees(last.value, path + [Field(last.key)]);
      MapValuesSnoc(CollapseAttributes(init), Entry(last.key, CollapseAttribute(last.value)), AttributeAt(path));
    }
  }

  lemma AttributesWalk(entries: seq<Entry<RawAttribute>>, path: Path)
    ensures NameMap(Attributes(entries, path)) == WalkAttributes(FromEntries(CollapseAttributes(entries)), path)
    decreases entries, 1
  {
    AttributesAgree(entries, path);
    FromEntriesMaps(CollapseAttributes(entries), AttributeAt(path));
    WalkAttributesIsSequenced(FromEntries(CollapseAttributes(entries)), path);
  }

  /** Whatever the document repeats and wherever it goes wrong: the same schema, or the same first
      problem. */
  lemma {:induction false} BlockAgrees(raw: RawBlock, path: Path)
    ensures Block(raw, path) == WalkBlock(CollapseBlock(raw), path)
    decreases raw
  {
    AttributesWalk(raw.attributes, path);
    BlocksAgree(raw.blocks, path);
    FromEntriesMaps(CollapseBlocks(raw.blocks), BlockAt(path));
    WalkBlocksIsSequenced(FromEntries(CollapseBlocks(raw.blocks)), path);
  }

  lemma {:induction false} BlocksAgree(entries: seq<Entry<RawNestedBlock>>, path: Path)
    ensures NestedBlocks(entries, path) == MapValues(CollapseBlocks(entries), BlockAt(path))
    decreases entries
  {
    if entries != [] {
      var init, last := entries[..|entries| - 1], entries[|entries| - 1];
      BlocksAgree(init, path);
      BlockAgrees(last.value.block, path + [Field(last.key)]);
      var collapsed := last.value.(block := CollapseBlock(last.value.block));
      MapValuesSnoc(CollapseBlocks(init), Entry(last.key, collapsed), BlockAt(path));
    }
  }

  function ResourceAt(root: string): (string, RawBlock) -> Normalized<BlockSchema> {
    (name, raw) => WalkBlock(raw, [Root(root), Field(name)])
  }

  lemma {:induction false} WalkResourcesIsSequenced(entries: seq<Entry<RawBlock>>, root: string)
    ensures WalkResources(entries, root) == Sequenced(MapValues(entries, ResourceAt(root)))
  {
    if entries != [] {
      WalkResourcesIsSequenced(entries[1..], root);
      MapValuesUncons(entries, ResourceAt(root));
      SequencedCons(MapValues(entries, ResourceAt(root)));
    }
  }

  lemma {:induction false} ResourcesAgree(entries: seq<Entry<RawBlock>>, root: string)
    ensures Resources(entries, root) == MapValues(CollapseResources(entries), ResourceAt(root))
  {
    if entries != [] {
      var init, last := entries[..|entries| - 1], entries[|entries| - 1];
      ResourcesAgree(init, root);
      BlockAgrees(last.value, [Root(root), Field(last.key)]);
      MapValuesSnoc(CollapseResources(init), Entry(last.key, CollapseBlock(last.value)), ResourceAt(root));
    }
  }

  lemma ResourcesWalk(entries: seq<Entry<RawBlock>>, root: string)
    ensures FromEntries(Resources(entries, root))
         == MapValues(FromEntries(CollapseResources(entries)), ResourceAt(root))
    ensures Sequenced(FromEntries(Resources(entries, root)))
         == WalkResources(FromEntries(CollapseResources(entries)), root)
  {
    ResourcesAgree(entries, root);
    FromEntriesMaps(CollapseResources(entries), ResourceAt(root));
    WalkResourcesIsSequenced(FromEntries(CollapseResources(entries)), root);
  }

  /** What normalizing every part of a collapsed provider gives. */
  function PartsOf(raw: RawProvider): NormalizedProvider {
    NormalizedProvider(
      WalkBlock(raw.config, [Root("provider")]),
      MapValues(raw.resources, ResourceAt("resource")),
      MapValues(raw.dataSources, ResourceAt("data")))
  }

  function PartsAt(): (string, RawProvider) -> NormalizedProvider {
    (address, raw) => PartsOf(raw)
  }

  lemma ProviderAgrees(raw: RawProvider)
    ensures Provider(raw) == PartsOf(CollapseProvider(raw))
  {
    BlockAgrees(raw.config, [Root("provider")]);
    ResourcesWalk(raw.resources, "resource");
    ResourcesWalk(raw.dataSources, "data");
  }

  lemma {:induction false} MatchingAgrees(entries: seq<Entry<RawProvider>>, request: Request)
    ensures Matching(entries, request) == MapValues(CollapseMatching(entries, request), PartsAt())
  {
    if entries != [] {
      var init, last := entries[..|entries| - 1], entries[|entries| - 1];
      MatchingAgrees(init, request);
      ProviderAgrees(last.value);
      MapValuesSnoc(CollapseMatching(init, request), Entry(last.key, CollapseProvider(last.value)), PartsAt());
    }
  }

  lemma PartsWalk(raw: RawProvider, request: Request)
    ensures ProviderOf(PartsOf(raw), request) == WalkProvider(raw, request)
  {
    WalkResourcesIsSequenced(raw.resources, "resource");
    WalkResourcesIsSequenced(raw.dataSources, "data");
  }

  /** Normalizing everything in one pass gives, for any document and request, exactly what
      collapsing the document first and stopping at the first problem gives. */
  lemma DocumentAgrees(raw: RawDocument, request: Request)
    ensures Document(raw, request) == WalkDocument(raw, request)
  {
    var collapsed := CollapseMatching(raw.providers, request);
    MatchingAgrees(raw.providers, request);
    FromEntriesMaps(collapsed, PartsAt());
    if FromEntries(collapsed) != [] {
      PartsWalk(FromEntries(collapsed)[0].value, request);
    }
  }
}
