/** Normalizing a schema in one pass: everything in the document is normalized as it is read,
    problems are carried as values, and only then do later entries replace earlier ones. */
module Normalizing {
  import opened Wrappers
  import opened SortedMap
  import opened RawSchemas
  import opened Schemas
  import OrderedMap

  type Normalized<T> = Result<T, Problem>

  /** The entries without their results, or the first problem among them. */
  function Sequenced<T>(results: seq<Entry<Normalized<T>>>): Normalized<seq<Entry<T>>> {
    if results == [] then Ok([])
    else
      var last := results[|results| - 1];
      match Sequenced(results[..|results| - 1])
      case Err(problem) => Err(problem)
      case Ok(entries) =>
        match last.value
        case Err(problem) => Err(problem)
        case Ok(value) => Ok(entries + [Entry(last.key, value)])
  }

  /** A map by name: of two entries with one name the later is kept, then the first problem by
      name wins. */
  function NameMap<T>(results: seq<Entry<Normalized<T>>>): Normalized<seq<Entry<T>>> {
    Sequenced(FromEntries(results))
  }

  function ModeOf(mode: string, path: Path): Normalized<NestingMode> {
    if mode == "single" then Ok(Single)
    else if mode == "list" then Ok(InList)
    else if mode == "set" then Ok(InSet)
    else if mode == "map" then Ok(InMap)
    else if mode == "group" then Ok(Group)
    else Err(UnknownNesting(path, mode))
  }

  function Primitive(name: string, path: Path): Normalized<SchemaType> {
    if name == "string" then Ok(Text)
    else if name == "bool" then Ok(Boolean)
    else if name == "number" then Ok(Number)
    else if name == "dynamic" then Ok(Dynamic)
    else Err(InvalidType(path, "unknown primitive `" + name + "`"))
  }

  function FieldAttribute(fieldType: SchemaType): AttributeSchema {
    AttributeSchema(fieldType, true, false, false, false, None)
  }

  function FieldAttributes(fields: seq<Entry<SchemaType>>): (attributes: seq<Entry<AttributeSchema>>)
    ensures |attributes| == |fields|
  {
    seq(|fields|, i requires 0 <= i < |fields| => Entry(fields[i].key, FieldAttribute(fields[i].value)))
  }

  /** A cty object type: a repeated field keeps its first position and its last type, and the first
      problem in that order wins. */
  function ObjectType(results: seq<Entry<Normalized<SchemaType>>>): Normalized<SchemaType> {
    match Sequenced(OrderedMap.FromList(results))
    case Err(problem) => Err(problem)
    case Ok(fields) => Ok(Object(FromEntries(FieldAttributes(fields))))
  }

  function Collection(constructor_: string, item: SchemaType): SchemaType {
    if constructor_ == "list" then List(item) else if constructor_ == "set" then Set(item) else Map(item)
  }

  function CtyType(json: Json, path: Path): Normalized<SchemaType>
    decreases json
  {
    match json
    case Scalar => Err(InvalidType(path, "expected a primitive or constructor array"))
    case Obj(_) => Err(InvalidType(path, "expected a primitive or constructor array"))
    case Str(name) => Primitive(name, path)
    case Arr(items) =>
      if items == [] || !items[0].Str? then Err(InvalidType(path, "missing constructor"))
      else if |items| < 2 then Err(InvalidType(path, "missing constructor parameter"))
      else
        var name := items[0].text;
        if name in ["list", "set", "map"] then
          match CtyType(items[1], path)
          case Err(problem) => Err(problem)
          case Ok(item) => Ok(Collection(name, item))
        else if name == "object" then
          match items[1]
          case Obj(members) => ObjectType(CtyFields(members, path))
          case Scalar | Str(_) | Arr(_) => Err(InvalidType(path, "object parameter is not an object"))
        else if name == "tuple" then
          match items[1]
          case Arr(elements) =>
            (match CtyElements(elements, path)
             case Err(problem) => Err(problem)
             case Ok(types) => Ok(Tuple(types)))
          case Scalar | Str(_) | Obj(_) => Err(InvalidType(path, "tuple parameter is not an array"))
        else Err(InvalidType(path, "unknown constructor `" + name + "`"))
  }

  /** Every field's type, good or bad. */
  function CtyFields(members: seq<Entry<Json>>, path: Path): (results: seq<Entry<Normalized<SchemaType>>>)
    ensures |results| == |members|
    decreases members
  {
    if members == [] then []
    else
      var last := members[|members| - 1];
      CtyFields(members[..|members| - 1], path) + [Entry(last.key, CtyType(last.value, path + [Field(last.key)]))]
  }

  /** The element types, or the first problem by position. */
  function CtyElements(elements: seq<Json>, path: Path): Normalized<seq<SchemaType>>
    decreases elements
  {
    if elements == [] then Ok([])
    else
      var last := |elements| - 1;
      match CtyElements(elements[..last], path)
      case Err(problem) => Err(problem)
      case Ok(types) =>
        match CtyType(elements[last], path + [Index(last)])
        case Err(problem) => Err(problem)
        case Ok(elementType) => Ok(types + [elementType])
  }

  function Nest(mode: NestingMode, record: SchemaType): SchemaType {
    match mode
    case Single | Group => record
    case InList => List(record)
    case InSet => Set(record)
    case InMap => Map(record)
  }

  /** The attributes are looked at before the nesting mode. */
  function NestedType(
    mode: string,
    results: seq<Entry<Normalized<AttributeSchema>>>,
    path: Path
  ): Normalized<SchemaType> {
    match NameMap(results)
    case Err(problem) => Err(problem)
    case Ok(attributes) =>
      match ModeOf(mode, path)
      case Err(problem) => Err(problem)
      case Ok(nesting) => Ok(Nest(nesting, Object(attributes)))
  }

  function WithType(raw: RawAttribute, attributeType: Normalized<SchemaType>): Normalized<AttributeSchema> {
    match attributeType
    case Err(problem) => Err(problem)
    case Ok(t) => Ok(AttributeSchema(t, raw.required, raw.optional, raw.computed, raw.sensitive, raw.description))
  }

  /** A cty type wins over a nested type, even when it is a problem. */
  function Attribute(raw: RawAttribute, path: Path): Normalized<AttributeSchema>
    decreases raw
  {
    if raw.cty.Some? then WithType(raw, CtyType(raw.cty.value, path))
    else
      match raw.nested
      case Some(nested) => WithType(raw, NestedType(nested.mode, Attributes(nested.attributes, path), path))
      case None => Err(MissingType(path))
  }

  /** Every attribute, good or bad. */
  function Attributes(entries: seq<Entry<RawAttribute>>, path: Path): (results: seq<Entry<Normalized<AttributeSchema>>>)
    ensures |results| == |entries|
    decreases entries
  {
    if entries == [] then []
    else
      var last := entries[|entries| - 1];
      Attributes(entries[..|entries| - 1], path) + [Entry(last.key, Attribute(last.value, path + [Field(last.key)]))]
  }

  /** Attributes before nested blocks, each by name. */
  function BlockOf(
    attributes: seq<Entry<Normalized<AttributeSchema>>>,
    blocks: seq<Entry<Normalized<NestedBlockSchema>>>
  ): Normalized<BlockSchema> {
    match NameMap(attributes)
    case Err(problem) => Err(problem)
    case Ok(named) =>
      match NameMap(blocks)
      case Err(problem) => Err(problem)
      case Ok(nested) => Ok(BlockSchema(named, nested))
  }

  function Block(raw: RawBlock, path: Path): Normalized<BlockSchema>
    decreases raw
  {
    BlockOf(Attributes(raw.attributes, path), NestedBlocks(raw.blocks, path))
  }

  /** The nesting mode is looked at before anything inside the block. */
  function NestedBlockOf(raw: RawNestedBlock, block: Normalized<BlockSchema>, path: Path)
    : Normalized<NestedBlockSchema>
  {
    match ModeOf(raw.mode, path)
    case Err(problem) => Err(problem)
    case Ok(mode) =>
      match block
      case Err(problem) => Err(problem)
      case Ok(b) => Ok(NestedBlockSchema(mode, raw.minItems, raw.maxItems, b))
  }

  function NestedBlocks(entries: seq<Entry<RawNestedBlock>>, path: Path)
    : (results: seq<Entry<Normalized<NestedBlockSchema>>>)
    ensures |results| == |entries|
    decreases entries
  {
    if entries == [] then []
    else
      var last := entries[|entries| - 1];
      var inner := path + [Field(last.key)];
      NestedBlocks(entries[..|entries| - 1], path)
      + [Entry(last.key, NestedBlockOf(last.value, Block(last.value.block, inner), inner))]
  }

  /** The schemas of a provider's resources, good or bad. */
  function Resources(entries: seq<Entry<RawBlock>>, root: string): (results: seq<Entry<Normalized<BlockSchema>>>)
    ensures |results| == |entries|
  {
    if entries == [] then []
    else
      var last := entries[|entries| - 1];
      Resources(entries[..|entries| - 1], root) + [Entry(last.key, Block(last.value, [Root(root), Field(last.key)]))]
  }

  datatype NormalizedProvider = NormalizedProvider(
    config: Normalized<BlockSchema>,
    resources: seq<Entry<Normalized<BlockSchema>>>,
    dataSources: seq<Entry<Normalized<BlockSchema>>>
  )

  function Provider(raw: RawProvider): NormalizedProvider {
    NormalizedProvider(
      Block(raw.config, [Root("provider")]),
      FromEntries(Resources(raw.resources, "resource")),
      FromEntries(Resources(raw.dataSources, "data")))
  }

  /** The providers whose address matches the request. */
  function Matching(entries: seq<Entry<RawProvider>>, request: Request): seq<Entry<NormalizedProvider>> {
    if entries == [] then []
    else
      var init, last := Matching(entries[..|entries| - 1], request), entries[|entries| - 1];
      if request.Matches(last.key) then init + [Entry(last.key, Provider(last.value))] else init
  }

  /** A version up to its first dot. */
  function Major(version: string): string {
    if version == "" || version[0] == '.' then "" else [version[0]] + Major(version[1..])
  }

  function ProviderOf(provider: NormalizedProvider, request: Request): Normalized<ProviderSchema> {
    match provider.config
    case Err(problem) => Err(problem)
    case Ok(config) =>
      match Sequenced(provider.resources)
      case Err(problem) => Err(problem)
      case Ok(resources) =>
        match Sequenced(provider.dataSources)
        case Err(problem) => Err(problem)
        case Ok(dataSources) => Ok(ProviderSchema(request.source, request.version, config, resources, dataSources))
  }

  /** The requested provider's schema: the first matching address by name, its configuration, its
      resources, its data sources. */
  function Document(raw: RawDocument, request: Request): Normalized<ProviderSchema> {
    if Major(raw.formatVersion) != "1" then Err(UnsupportedFormat(raw.formatVersion))
    else
      var providers := FromEntries(Matching(raw.providers, request));
      if providers == [] then Err(MissingProvider(request.source))
      else ProviderOf(providers[0].value, request)
  }
}
