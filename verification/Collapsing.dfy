/** The reference for the one-pass normalizer: replace repeated names throughout the document
    first, then walk what is left in order and stop at the first problem. */
module Collapsing {
  import opened Wrappers
  import opened SortedMap
  import opened RawSchemas
  import opened Schemas
  import opened Normalizing
  import OrderedMap

  // Replacing repeated names.

  function CollapseJson(json: Json): Json
    decreases json
  {
    match json
    case Scalar => json
    case Str(_) => json
    case Arr(items) => Arr(CollapseItems(items))
    case Obj(members) => Obj(OrderedMap.FromList(CollapseMembers(members)))
  }

  function CollapseItems(items: seq<Json>): (collapsed: seq<Json>)
    ensures |collapsed| == |items|
    decreases items
  {
    if items == [] then [] else CollapseItems(items[..|items| - 1]) + [CollapseJson(items[|items| - 1])]
  }

  function CollapseMembers(members: seq<Entry<Json>>): (collapsed: seq<Entry<Json>>)
    ensures |collapsed| == |members|
    decreases members
  {
    if members == [] then []
    else
      var last := members[|members| - 1];
      CollapseMembers(members[..|members| - 1]) + [Entry(last.key, CollapseJson(last.value))]
  }

  function CollapseAttribute(raw: RawAttribute): RawAttribute
    decreases raw
  {
    raw.(
    cty := if raw.cty.Some? then Some(CollapseJson(raw.cty.value)) else None,
    nested := if raw.nested.Some? then
      Some(RawNestedType(raw.nested.value.mode, FromEntries(CollapseAttributes(raw.nested.value.attributes))))
    else None)
  }

  function CollapseAttributes(entries: seq<Entry<RawAttribute>>): (collapsed: seq<Entry<RawAttribute>>)
    ensures |collapsed| == |entries|
    decreases entries
  {
    if entries == [] then []
    else
      var last := entries[|entries| - 1];
      CollapseAttributes(entries[..|entries| - 1]) + [Entry(last.key, CollapseAttribute(last.value))]
  }

  function CollapseBlock(raw: RawBlock): RawBlock
    decreases raw
  {
    RawBlock(FromEntries(CollapseAttributes(raw.attributes)), FromEntries(CollapseBlocks(raw.blocks)))
  }

  function CollapseBlocks(entries: seq<Entry<RawNestedBlock>>): (collapsed: seq<Entry<RawNestedBlock>>)
    ensures |collapsed| == |entries|
    decreases entries
  {
    if entries == [] then []
    else
      var last := entries[|entries| - 1];
      CollapseBlocks(entries[..|entries| - 1])
      + [Entry(last.key, last.value.(block := CollapseBlock(last.value.block)))]
  }

  function CollapseResources(entries: seq<Entry<RawBlock>>): (collapsed: seq<Entry<RawBlock>>)
    ensures |collapsed| == |entries|
  {
    if entries == [] then []
    else
      var last := entries[|entries| - 1];
      CollapseResources(entries[..|entries| - 1]) + [Entry(last.key, CollapseBlock(last.value))]
  }

  function CollapseProvider(raw: RawProvider): RawProvider {
    RawProvider(
      CollapseBlock(raw.config),
      FromEntries(CollapseResources(raw.resources)),
      FromEntries(CollapseResources(raw.dataSources)))
  }

  /** The matching providers of a document, collapsed inside. */
  function CollapseMatching(entries: seq<Entry<RawProvider>>, request: Request): seq<Entry<RawProvider>> {
    if entries == [] then []
    else
      var init, last := CollapseMatching(entries[..|entries| - 1], request), entries[|entries| - 1];
      if request.Matches(last.key) then init + [Entry(last.key, CollapseProvider(last.value))] else init
  }

  // Walking to the first problem.

  function WalkCty(json: Json, path: Path): Normalized<SchemaType>
    decreases json
  {
    match json
    case Scalar => Err(InvalidType(path, "expected a primitive or constructor array"))
    case Obj(_) => Err(InvalidType(path, "expected a primitive or constructor array"))
    case Str(name) => Primitive(name, path)
    case Arr(items) =>
      if items == [] || !items[0].Str? then Err(InvalidType(path, "missing constructor"))
      else if |items| < 2 then Err(InvalidType(path, "missing constructor parameter"))
      else
        var name := items[0].text;
        if name in ["list", "set", "map"] then
          match WalkCty(items[1], path)
          case Err(problem) => Err(problem)
          case Ok(item) => Ok(Collection(name, item))
        else if name == "object" then
          match items[1]
          case Obj(members) =>
            (match WalkFields(members, path)
             case Err(problem) => Err(problem)
             case Ok(fields) => Ok(Object(FromEntries(FieldAttributes(fields)))))
          case Scalar | Str(_) | Arr(_) => Err(InvalidType(path, "object parameter is not an object"))
        else if name == "tuple" then
          match items[1]
          case Arr(elements) =>
            (match WalkElements(elements, path, 0)
             case Err(problem) => Err(problem)
             case Ok(types) => Ok(Tuple(types)))
          case Scalar | Str(_) | Obj(_) => Err(InvalidType(path, "tuple parameter is not an array"))
        else Err(InvalidType(path, "unknown constructor `" + name + "`"))
  }

  function WalkFields(members: seq<Entry<Json>>, path: Path): Normalized<seq<Entry<SchemaType>>>
    decreases members
  {
    if members == [] then Ok([])
    else
      match WalkCty(members[0].value, path + [Field(members[0].key)])
      case Err(problem) => Err(problem)
      case Ok(t) =>
        match WalkFields(members[1..], path)
        case Err(problem) => Err(problem)
        case Ok(rest) => Ok([Entry(members[0].key, t)] + rest)
  }

  function WalkElements(elements: seq<Json>, path: Path, at: nat): Normalized<seq<SchemaType>>
    decreases elements
  {
    if elements == [] then Ok([])
    else
      match WalkCty(elements[0], path + [Index(at)])
      case Err(problem) => Err(problem)
      case Ok(t) =>
        match WalkElements(elements[1..], path, at + 1)
        case Err(problem) => Err(problem)
        case Ok(rest) => Ok([t] + rest)
  }

  function WalkAttribute(raw: RawAttribute, path: Path): Normalized<AttributeSchema>
    decreases raw
  {
    if raw.cty.Some? then WithType(raw, WalkCty(raw.cty.value, path))
    else if raw.nested.None? then Err(MissingType(path))
    else
      match WalkAttributes(raw.nested.value.attributes, path)
      case Err(problem) => Err(problem)
      case Ok(attributes) =>
        match ModeOf(raw.nested.value.mode, path)
        case Err(problem) => Err(problem)
        case Ok(mode) => WithType(raw, Ok(Nest(mode, Object(attributes))))
  }

  function WalkAttributes(entries: seq<Entry<RawAttribute>>, path: Path): Normalized<seq<Entry<AttributeSchema>>>
    decreases entries
  {
    if entries == [] then Ok([])
    else
      match WalkAttribute(entries[0].value, path + [Field(entries[0].key)])
      case Err(problem) => Err(problem)
      case Ok(attribute) =>
        match WalkAttributes(entries[1..], path)
        case Err(problem) => Err(problem)
        case Ok(rest) => Ok([Entry(entries[0].key, attribute)] + rest)
  }

  function WalkBlock(raw: RawBlock, path: Path): Normalized<BlockSchema>
    decreases raw
  {
    match WalkAttributes(raw.attributes, path)
    case Err(problem) => Err(problem)
    case Ok(attributes) =>
      match WalkBlocks(raw.blocks, path)
      case Err(problem) => Err(problem)
      case Ok(blocks) => Ok(BlockSchema(attributes, blocks))
  }

  function WalkNestedBlock(raw: RawNestedBlock, path: Path): Normalized<NestedBlockSchema>
    decreases raw
  {
    match ModeOf(raw.mode, path)
    case Err(problem) => Err(problem)
    case Ok(mode) =>
      match WalkBlock(raw.block, path)
      case Err(problem) => Err(problem)
      case Ok(block) => Ok(NestedBlockSchema(mode, raw.minItems, raw.maxItems, block))
  }

  function WalkBlocks(entries: seq<Entry<RawNestedBlock>>, path: Path): Normalized<seq<Entry<NestedBlockSchema>>>
    decreases entries
  {
    if entries == [] then Ok([])
    else
      match WalkNestedBlock(entries[0].value, path + [Field(entries[0].key)])
      case Err(problem) => Err(problem)
      case Ok(block) =>
        match WalkBlocks(entries[1..], path)
        case Err(problem) => Err(problem)
        case Ok(rest) => Ok([Entry(entries[0].key, block)] + rest)
  }

  function WalkResources(entries: seq<Entry<RawBlock>>, root: string): Normalized<seq<Entry<BlockSchema>>> {
    if entries == [] then Ok([])
    else
      match WalkBlock(entries[0].value, [Root(root), Field(entries[0].key)])
      case Err(problem) => Err(problem)
      case Ok(block) =>
        match WalkResources(entries[1..], root)
        case Err(problem) => Err(problem)
        case Ok(rest) => Ok([Entry(entries[0].key, block)] + rest)
  }

  function WalkProvider(raw: RawProvider, request: Request): Normalized<ProviderSchema> {
    match WalkBlock(raw.config, [Root("provider")])
    case Err(problem) => Err(problem)
    case Ok(config) =>
      match WalkResources(raw.resources, "resource")
      case Err(problem) => Err(problem)
      case Ok(resources) =>
        match WalkResources(raw.dataSources, "data")
        case Err(problem) => Err(problem)
        case Ok(dataSources) => Ok(ProviderSchema(request.source, request.version, config, resources, dataSources))
  }

  /** Collapses the matching providers and walks the first by name. */
  function WalkDocument(raw: RawDocument, request: Request): Normalized<ProviderSchema> {
    if Major(raw.formatVersion) != "1" then Err(UnsupportedFormat(raw.formatVersion))
    else
      var providers := FromEntries(CollapseMatching(raw.providers, request));
      if providers == [] then Err(MissingProvider(request.source))
      else WalkProvider(providers[0].value, request)
  }

  // Replacing entries commutes with what is done to each.

  function MapValues<S, T>(entries: seq<Entry<S>>, f: (string, S) -> T): (mapped: seq<Entry<T>>)
    ensures |mapped| == |entries|
    ensures forall i :: 0 <= i < |entries| ==> mapped[i] == Entry(entries[i].key, f(entries[i].key, entries[i].value))
  {
    seq(|entries|, i requires 0 <= i < |entries| => Entry(entries[i].key, f(entries[i].key, entries[i].value)))
  }

  lemma MapValuesCons<S, T>(first: Entry<S>, rest: seq<Entry<S>>, f: (string, S) -> T)
    ensures MapValues([first] + rest, f) == [Entry(first.key, f(first.key, first.value))] + MapValues(rest, f)
  {
  }

  lemma {:induction false} InsertMaps<S, T>(entries: seq<Entry<S>>, key: string, value: S, f: (string, S) -> T)
    ensures Insert(MapValues(entries, f), key, f(key, value)) == MapValues(Insert(entries, key, value), f)
  {
    MapValuesCons(Entry(key, value), entries, f);
    MapValuesCons(Entry(key, value), [], f);
    if entries != [] {
      var first, rest := entries[0], entries[1..];
      assert entries == [first] + rest;
      InsertMaps(rest, key, value, f);
      MapValuesCons(first, rest, f);
      MapValuesCons(Entry(key, value), rest, f);
      MapValuesCons(first, Insert(rest, key, value), f);
    }
  }

  lemma {:induction false} FromEntriesMaps<S, T>(entries: seq<Entry<S>>, f: (string, S) -> T)
    ensures FromEntries(MapValues(entries, f)) == MapValues(FromEntries(entries), f)
  {
    if entries != [] {
      var init, last := entries[..|entries| - 1], entries[|entries| - 1];
      FromEntriesMaps(init, f);
      assert MapValues(entries, f)[..|entries| - 1] == MapValues(init, f);
      InsertMaps(FromEntries(init), last.key, last.value, f);
    }
  }

  lemma {:induction false} PutMaps<S, T>(entries: seq<Entry<S>>, key: string, value: S, f: (string, S) -> T)
    ensures OrderedMap.Put(MapValues(entries, f), key, f(key, value))
         == MapValues(OrderedMap.Put(entries, key, value), f)
  {
    MapValuesCons(Entry(key, value), entries, f);
    MapValuesCons(Entry(key, value), [], f);
    if entries != [] {
      var first, rest := entries[0], entries[1..];
      assert entries == [first] + rest;
      PutMaps(rest, key, value, f);
      MapValuesCons(first, rest, f);
      MapValuesCons(Entry(key, value), rest, f);
      MapValuesCons(first, OrderedMap.Put(rest, key, value), f);
    }
  }

  lemma {:induction false} FromListMaps<S, T>(entries: seq<Entry<S>>, f: (string, S) -> T)
    ensures OrderedMap.FromList(MapValues(entries, f)) == MapValues(OrderedMap.FromList(entries), f)
  {
    if entries != [] {
      var init, last := entries[..|entries| - 1], entries[|entries| - 1];
      FromListMaps(init, f);
      assert MapValues(entries, f)[..|entries| - 1] == MapValues(init, f);
      PutMaps(OrderedMap.FromList(init), last.key, last.value, f);
    }
  }

  /** The first result, then the others. */
  lemma {:induction false} SequencedCons<T>(results: seq<Entry<Normalized<T>>>)
    requires results != []
    ensures Sequenced(results) ==
            match results[0].value
            case Err(problem) => Err(problem)
            case Ok(value) =>
              match Sequenced(results[1..])
              case Err(problem) => Err(problem)
              case Ok(rest) => Ok([Entry(results[0].key, value)] + rest)
  {
    var last := |results| - 1;
    var init, rest := results[..last], results[1..];
    if last > 0 {
      SequencedCons(init);
      assert rest[..last - 1] == init[1..] && rest[last - 1] == results[last];
      if results[0].value.Ok? && Sequenced(init[1..]).Ok? && results[last].value.Ok? {
        var first := Entry(results[0].key, results[0].value.value);
        var end := Entry(results[last].key, results[last].value.value);
        var middle := Sequenced(init[1..]).value;
        assert [first] + (middle + [end]) == ([first] + middle) + [end];
      }
    } else if results[0].value.Ok? {
      var first := Entry(results[0].key, results[0].value.value);
      assert init == [] && rest == [];
      assert [] + [first] == [first] + [];
    }
  }
}
