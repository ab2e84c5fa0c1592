/** What a raw schema document says, as a relation between the document and a schema: each name's
    last entry counts, and nothing else in it does. */
module SchemaForms {
  import opened Wrappers
  import opened SortedMap
  import opened LastEntries
  import opened RawSchemas
  import opened Schemas

  // ----- cty types -----

  /** The type a cty JSON value names. */
  ghost predicate Names(json: Json, t: SchemaType)
    decreases json, 0
  {
    match json
    case Scalar => false
    case Obj(_) => false
    case Str(name) =>
      || (name == "string" && t == Text)
      || (name == "bool" && t == Boolean)
      || (name == "number" && t == Number)
      || (name == "dynamic" && t == Dynamic)
    case Arr(items) =>
      && |items| >= 2
      && (|| (items[0] == Str("list") && t.List? && Names(items[1], t.item))
          || (items[0] == Str("set") && t.Set? && Names(items[1], t.item))
          || (items[0] == Str("map") && t.Map? && Names(items[1], t.item))
          || (items[0] == Str("object") && items[1].Obj? && t.Object? && NamesFields(items[1].members, t.attributes))
          || (items[0] == Str("tuple") && items[1].Arr? && t.Tuple? && NamesAll(items[1].items, t.items)))
  }

  /** An attribute that only has a type: required and nothing else. */
  ghost predicate OnlyTyped(a: AttributeSchema) {
    a.required && !a.optional && !a.computed && !a.sensitive && a.description == None
  }

  ghost predicate NamesFields(members: seq<Entry<Json>>, attributes: seq<Entry<AttributeSchema>>)
    decreases members, 1
  {
    && SameKeys(members, attributes)
    && forall i: nat, j: nat :: Counts(members, attributes, i, j) ==>
                                  OnlyTyped(attributes[j].value)
                                  && Names(members[i].value, attributes[j].value.schemaType)
  }

  ghost predicate NamesAll(items: seq<Json>, types: seq<SchemaType>)
    decreases items, 1
  {
    |types| == |items| && forall i :: 0 <= i < |items| ==> Names(items[i], types[i])
  }

  // ----- attributes and blocks -----

  /** The type a record of attributes gets from a nesting mode. */
  ghost predicate Nests(mode: string, record: SchemaType, t: SchemaType) {
    || ((mode == "single" || mode == "group") && t == record)
    || (mode == "list" && t == List(record))
    || (mode == "set" && t == Set(record))
    || (mode == "map" && t == Map(record))
  }

  ghost predicate Describes(raw: RawAttribute, a: AttributeSchema)
    decreases raw, 0
  {
    && a.required == raw.required && a.optional == raw.optional && a.computed == raw.computed
    && a.sensitive == raw.sensitive && a.description == raw.description
    && match raw.cty
       case Some(cty) => Names(cty, a.schemaType)
       case None =>
         match raw.nested
         case Some(nested) => DescribesNested(nested, a.schemaType)
         case None => false
  }

  ghost predicate DescribesNested(nested: RawNestedType, t: SchemaType)
    decreases nested, 0
  {
    exists attributes ::
      Nests(nested.mode, Object(attributes), t) && DescribesAttributes(nested.attributes, attributes)
  }

  ghost predicate DescribesAttributes(entries: seq<Entry<RawAttribute>>, attributes: seq<Entry<AttributeSchema>>)
    decreases entries, 1
  {
    && SameKeys(entries, attributes)
    && forall i: nat, j: nat :: Counts(entries, attributes, i, j) ==> Describes(entries[i].value, attributes[j].value)
  }

  ghost predicate SameMode(mode: string, nesting: NestingMode) {
    || (mode == "single" && nesting == Single)
    || (mode == "list" && nesting == InList)
    || (mode == "set" && nesting == InSet)
    || (mode == "map" && nesting == InMap)
    || (mode == "group" && nesting == Group)
  }

  ghost predicate DescribesBlock(raw: RawBlock, block: BlockSchema)
    decreases raw, 0
  {
    DescribesAttributes(raw.attributes, block.attributes) && DescribesBlocks(raw.blocks, block.blocks)
  }

  ghost predicate DescribesNestedBlock(raw: RawNestedBlock, nested: NestedBlockSchema)
    decreases raw, 0
  {
    && SameMode(raw.mode, nested.nestingMode)
    && nested.minItems == raw.minItems && nested.maxItems == raw.maxItems
    && DescribesBlock(raw.block, nested.block)
  }

  ghost predicate DescribesBlocks(entries: seq<Entry<RawNestedBlock>>, blocks: seq<Entry<NestedBlockSchema>>)
    decreases entries, 1
  {
    && SameKeys(entries, blocks)
    && forall i: nat, j: nat :: Counts(entries, blocks, i, j) ==>
                                  DescribesNestedBlock(entries[i].value, blocks[j].value)
  }

  // ----- documents -----

  ghost predicate DescribesSchemas(entries: seq<Entry<RawBlock>>, schemas: seq<Entry<BlockSchema>>) {
    && SameKeys(entries, schemas)
    && forall i: nat, j: nat :: Counts(entries, schemas, i, j) ==> DescribesBlock(entries[i].value, schemas[j].value)
  }

  ghost predicate DescribesProvider(raw: RawProvider, schema: ProviderSchema) {
    && DescribesBlock(raw.config, schema.providerConfig)
    && DescribesSchemas(raw.resources, schema.resources)
    && DescribesSchemas(raw.dataSources, schema.dataSources)
  }

  /** The source itself, or something, a slash, and the source. */
  ghost predicate IsAddress(address: string, source: string) {
    address == source || exists host :: address == host + "/" + source
  }

  /** Of the matching providers, the last of the first by name. */
  ghost predicate Chosen(providers: seq<Entry<RawProvider>>, source: string, i: nat) {
    && i < |providers| && IsAddress(providers[i].key, source)
    && forall j :: 0 <= j < |providers| && IsAddress(providers[j].key, source) ==>
                     Less(providers[i].key, providers[j].key) || (providers[i].key == providers[j].key && j <= i)
  }

  /** Version 1, or 1 with anything after a dot. */
  ghost predicate IsVersionOne(version: string) {
    version == "1" || "1." <= version
  }

  ghost predicate DescribesRequested(raw: RawDocument, request: Request, schema: ProviderSchema) {
    && IsVersionOne(raw.formatVersion)
    && schema.source == request.source && schema.version == request.version
    && exists i: nat :: Chosen(raw.providers, request.source, i) && DescribesProvider(raw.providers[i].value, schema)
  }
}
