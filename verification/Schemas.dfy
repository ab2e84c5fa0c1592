/** Normalized provider schemas. */
module Schemas {
  import opened Wrappers
  import opened SortedMap

  datatype SchemaType =
    | Text
    | Boolean
    | Number
    | List(item: SchemaType)
    | Set(item: SchemaType)
    | Map(item: SchemaType)
    | Object(attributes: seq<Entry<AttributeSchema>>)
    | Tuple(items: seq<SchemaType>)
    | Dynamic

  datatype AttributeSchema = AttributeSchema(
    schemaType: SchemaType,
    required: bool,
    optional: bool,
    computed: bool,
    sensitive: bool,
    description: Option<string>
  )

  datatype NestingMode = Single | InList | InSet | InMap | Group

  datatype NestedBlockSchema = NestedBlockSchema(
    nestingMode: NestingMode,
    minItems: Option<nat>,
    maxItems: Option<nat>,
    block: BlockSchema
  )

  datatype BlockSchema = BlockSchema(
    attributes: seq<Entry<AttributeSchema>>,
    blocks: seq<Entry<NestedBlockSchema>>
  )

  datatype ProviderSchema = ProviderSchema(
    source: string,
    version: string,
    providerConfig: BlockSchema,
    resources: seq<Entry<BlockSchema>>,
    dataSources: seq<Entry<BlockSchema>>
  )
}
