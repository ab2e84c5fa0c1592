/** Provider schemas as OpenTofu prints them: JSON trees whose objects are entry lists in document
    order, repeated names included. */
module RawSchemas {
  import opened Wrappers
  import opened SortedMap

  /** A JSON value where a cty type is expected. */
  datatype Json =
    | Scalar
    | Str(text: string)
    | Arr(items: seq<Json>)
    | Obj(members: seq<Entry<Json>>)

  /** `cty` and `nested` are absent when the key is missing or its value is null. */
  datatype RawAttribute = RawAttribute(
    cty: Option<Json>,
    nested: Option<RawNestedType>,
    required: bool,
    optional: bool,
    computed: bool,
    sensitive: bool,
    description: Option<string>
  )

  datatype RawNestedType = RawNestedType(mode: string, attributes: seq<Entry<RawAttribute>>)

  datatype RawBlock = RawBlock(attributes: seq<Entry<RawAttribute>>, blocks: seq<Entry<RawNestedBlock>>)

  datatype RawNestedBlock = RawNestedBlock(
    mode: string,
    minItems: Option<nat>,
    maxItems: Option<nat>,
    block: RawBlock
  )

  datatype RawProvider = RawProvider(
    config: RawBlock,
    resources: seq<Entry<RawBlock>>,
    dataSources: seq<Entry<RawBlock>>
  )

  datatype RawDocument = RawDocument(formatVersion: string, providers: seq<Entry<RawProvider>>)

  datatype Segment = Root(name: string) | Field(name: string) | Index(index: nat)

  type Path = seq<Segment>

  datatype Request = Request(source: string, version: string) {
    /** The address is the source, or ends in the source after a slash. */
    predicate Matches(address: string) {
      || address == source
      || (|address| > |source|
          && address[|address| - |source|..] == source
          && address[|address| - |source| - 1] == '/')
    }
  }

  datatype Problem =
    | MissingType(path: Path)
    | InvalidType(path: Path, message: string)
    | UnknownNesting(path: Path, mode: string)
    | UnsupportedFormat(version: string)
    | MissingProvider(source: string)
}
