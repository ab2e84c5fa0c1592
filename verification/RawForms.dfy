/** Writing schemas as raw schema documents, and reading them back. */
module RawForms {
  import opened Wrappers
  import opened SortedMap
  import opened LastEntries
  import opened RawSchemas
  import opened Schemas
  import opened Normalizing
  import opened SchemaForms
  import opened SchemaReading

  /** The types cty JSON has a way to write: name-sorted objects of required attributes. */
  ghost predicate Expressible(t: SchemaType) {
    match t
    case List(item) => Expressible(item)
    case Set(item) => Expressible(item)
    case Map(item) => Expressible(item)
    case Object(attributes) =>
      && Sorted(attributes)
      && forall a :: a in attributes ==> OnlyTyped(a.value) && Expressible(a.value.schemaType)
    case Tuple(items) => forall item :: item in items ==> Expressible(item)
    case _ => true
  }

  function CtyJson(t: SchemaType): Json
    decreases t
  {
    match t
    case Text => Str("string")
    case Boolean => Str("bool")
    case Number => Str("number")
    case Dynamic => Str("dynamic")
    case List(item) => Arr([Str("list"), CtyJson(item)])
    case Set(item) => Arr([Str("set"), CtyJson(item)])
    case Map(item) => Arr([Str("map"), CtyJson(item)])
    case Object(attributes) =>
      Arr([Str("object"), Obj(seq(|attributes|, i requires 0 <= i < |attributes| =>
        Entry(attributes[i].key, CtyJson(attributes[i].value.schemaType))))])
    case Tuple(items) =>
      Arr([Str("tuple"), Arr(seq(|items|, i requires 0 <= i < |items| => CtyJson(items[i])))])
  }

  lemma SameKeysSorted<V, W(!new)>(entries: seq<Entry<V>>, sorted: seq<Entry<W>>)
    requires Sorted(sorted) && |entries| == |sorted|
    requires forall i :: 0 <= i < |entries| ==> entries[i].key == sorted[i].key
    ensures SameKeys(entries, sorted)
    ensures forall i: nat, j: nat :: Counts(entries, sorted, i, j) ==> i == j
  {
    SameKeysOf(entries, sorted, sorted);
    forall i: nat, j: nat | Counts(entries, sorted, i, j)
      ensures i == j
    {
      SortedPositions(sorted, i, j);
    }
  }

  lemma {:induction false} CtyJsonNames(t: SchemaType)
    requires Expressible(t)
    ensures Names(CtyJson(t), t)
    decreases t
  {
    match t
    case List(item) => CtyJsonNames(item);
    case Set(item) => CtyJsonNames(item);
    case Map(item) => CtyJsonNames(item);
    case Object(attributes) =>
      var members := CtyJson(t).items[1].members;
      SameKeysSorted(members, attributes);
      forall i | 0 <= i < |attributes|
        ensures OnlyTyped(attributes[i].value)
        ensures Names(members[i].value, attributes[i].value.schemaType)
      {
        CtyJsonNames(attributes[i].value.schemaType);
      }
    case Tuple(items) =>
      forall i | 0 <= i < |items| { CtyJsonNames(items[i]); }
    case _ =>
  }

  /** Every type that cty JSON can write reads back. */
  lemma CtyRoundTrip(t: SchemaType, path: Path)
    requires Expressible(t)
    ensures CtyType(CtyJson(t), path) == Ok(t)
  {
    CtyJsonNames(t);
    CtyTypeSpec(CtyJson(t), path, t);
  }

  lemma {:induction false} NamedIsExpressible(json: Json, t: SchemaType)
    requires Names(json, t)
    ensures Expressible(t)
    decreases json
  {
    if t.Object? {
      var members := json.items[1].members;
      forall a | a in t.attributes
        ensures OnlyTyped(a.value) && Expressible(a.value.schemaType)
      {
        var j: nat :| j < |t.attributes| && t.attributes[j] == a;
        assert HasKey(t.attributes, a.key);
        var i := LastOf(members, a.key);
        assert Counts(members, t.attributes, i, j);
        NamedIsExpressible(members[i].value, a.value.schemaType);
      }
    } else if t.Tuple? {
      forall item | item in t.items
        ensures Expressible(item)
      {
        var i :| 0 <= i < |t.items| && t.items[i] == item;
        NamedIsExpressible(json.items[1].items[i], item);
      }
    } else if t.List? || t.Set? || t.Map? {
      NamedIsExpressible(json.items[1], t.item);
    }
  }

  // ----- attributes and blocks -----

  /** A record, or one collection of records: what a nested attribute type makes. */
  ghost predicate IsRecord(t: SchemaType) {
    t.Object? || ((t.List? || t.Set? || t.Map?) && t.item.Object?)
  }

  ghost function RecordOf(t: SchemaType): (attributes: seq<Entry<AttributeSchema>>)
    requires IsRecord(t)
    ensures t decreases to attributes
  {
    if t.Object? then t.attributes else t.item.attributes
  }

  ghost function ModeText(t: SchemaType): string
    requires IsRecord(t)
  {
    match t
    case List(_) => "list"
    case Set(_) => "set"
    case Map(_) => "map"
    case _ => "single"
  }

  ghost predicate WritableAttribute(a: AttributeSchema)
    decreases a, 0
  {
    Expressible(a.schemaType) || (IsRecord(a.schemaType) && WritableAttributes(RecordOf(a.schemaType)))
  }

  ghost predicate WritableAttributes(attributes: seq<Entry<AttributeSchema>>)
    decreases attributes, 1
  {
    Sorted(attributes) && forall i :: 0 <= i < |attributes| ==> WritableAttribute(attributes[i].value)
  }

  /** Name-sorted throughout, with types that have a way to be written. */
  ghost predicate WritableBlock(block: BlockSchema)
    decreases block, 0
  {
    WritableAttributes(block.attributes) && WritableBlocks(block.blocks)
  }

  ghost predicate WritableBlocks(blocks: seq<Entry<NestedBlockSchema>>)
    decreases blocks, 1
  {
    Sorted(blocks) && forall i :: 0 <= i < |blocks| ==> WritableBlock(blocks[i].value.block)
  }

  ghost function RawAttributeOf(a: AttributeSchema): RawAttribute
    decreases a, 0
  {
    var cty := if Expressible(a.schemaType) then Some(CtyJson(a.schemaType)) else None;
    var nested := if !Expressible(a.schemaType) && IsRecord(a.schemaType)
                  then Some(RawNestedType(ModeText(a.schemaType), RawAttributesOf(RecordOf(a.schemaType))))
                  else None;
    RawAttribute(cty, nested, a.required, a.optional, a.computed, a.sensitive, a.description)
  }

  ghost function RawAttributesOf(attributes: seq<Entry<AttributeSchema>>): seq<Entry<RawAttribute>>
    decreases attributes, 1
  {
    seq(|attributes|, i requires 0 <= i < |attributes| =>
      Entry(attributes[i].key, RawAttributeOf(attributes[i].value)))
  }

  ghost function NestingText(mode: NestingMode): string {
    match mode
    case Single => "single"
    case InList => "list"
    case InSet => "set"
    case InMap => "map"
    case Group => "group"
  }

  ghost function RawBlockOf(block: BlockSchema): RawBlock
    decreases block, 0
  {
    RawBlock(RawAttributesOf(block.attributes), RawBlocksOf(block.blocks))
  }

  ghost function RawBlocksOf(blocks: seq<Entry<NestedBlockSchema>>): seq<Entry<RawNestedBlock>>
    decreases blocks, 1
  {
    seq(|blocks|, i requires 0 <= i < |blocks| =>
      Entry(blocks[i].key, RawNestedBlock(
        NestingText(blocks[i].value.nestingMode), blocks[i].value.minItems, blocks[i].value.maxItems,
        RawBlockOf(blocks[i].value.block))))
  }

  lemma {:induction false} RawAttributeDescribes(a: AttributeSchema)
    requires WritableAttribute(a)
    ensures Describes(RawAttributeOf(a), a)
    decreases a, 0
  {
    if Expressible(a.schemaType) {
      CtyJsonNames(a.schemaType);
    } else {
      var attributes := RecordOf(a.schemaType);
      RawAttributesDescribe(attributes);
      assert Nests(ModeText(a.schemaType), Object(attributes), a.schemaType);
    }
  }

  lemma RawAttributesDescribe(attributes: seq<Entry<AttributeSchema>>)
    requires WritableAttributes(attributes)
    ensures DescribesAttributes(RawAttributesOf(attributes), attributes)
    decreases attributes, 1
  {
    SameKeysSorted(RawAttributesOf(attributes), attributes);
    forall i | 0 <= i < |attributes| { RawAttributeDescribes(attributes[i].value); }
  }

  lemma {:induction false} RawBlockDescribes(block: BlockSchema)
    requires WritableBlock(block)
    ensures DescribesBlock(RawBlockOf(block), block)
    decreases block
  {
    RawAttributesDescribe(block.attributes);
    var entries := RawBlocksOf(block.blocks);
    SameKeysSorted(entries, block.blocks);
    forall i | 0 <= i < |block.blocks|
      ensures DescribesNestedBlock(entries[i].value, block.blocks[i].value)
    {
      RawBlockDescribes(block.blocks[i].value.block);
    }
  }

  /** Every block schema that can be written reads back. */
  lemma BlockRoundTrip(block: BlockSchema, path: Path)
    requires WritableBlock(block)
    ensures Block(RawBlockOf(block), path) == Ok(block)
  {
    RawBlockDescribes(block);
    BlockSpec(RawBlockOf(block), path, block);
  }

  lemma {:induction false} DescribedAttributeIsWritable(raw: RawAttribute, a: AttributeSchema)
    requires Describes(raw, a)
    ensures WritableAttribute(a)
    decreases raw, 0
  {
    if raw.cty.Some? {
      NamedIsExpressible(raw.cty.value, a.schemaType);
    } else {
      var nested := raw.nested.value;
      var attributes :| Nests(nested.mode, Object(attributes), a.schemaType)
                        && DescribesAttributes(nested.attributes, attributes);
      DescribedAttributesAreWritable(nested.attributes, attributes);
      assert RecordOf(a.schemaType) == attributes;
    }
  }

  lemma DescribedAttributesAreWritable(entries: seq<Entry<RawAttribute>>, attributes: seq<Entry<AttributeSchema>>)
    requires DescribesAttributes(entries, attributes)
    ensures WritableAttributes(attributes)
    decreases entries, 1
  {
    forall j | 0 <= j < |attributes|
      ensures WritableAttribute(attributes[j].value)
    {
      assert HasKey(attributes, attributes[j].key);
      var i := LastOf(entries, attributes[j].key);
      assert Counts(entries, attributes, i, j);
      DescribedAttributeIsWritable(entries[i].value, attributes[j].value);
    }
  }

  /** Whatever is read can be written and read back. */
  lemma {:induction false} DescribedBlockIsWritable(raw: RawBlock, block: BlockSchema)
    requires DescribesBlock(raw, block)
    ensures WritableBlock(block)
    decreases raw
  {
    DescribedAttributesAreWritable(raw.attributes, block.attributes);
    forall j | 0 <= j < |block.blocks|
      ensures WritableBlock(block.blocks[j].value.block)
    {
      assert HasKey(block.blocks, block.blocks[j].key);
      var i := LastOf(raw.blocks, block.blocks[j].key);
      assert Counts(raw.blocks, block.blocks, i, j);
      assert DescribesNestedBlock(raw.blocks[i].value, block.blocks[j].value);
      DescribedBlockIsWritable(raw.blocks[i].value.block, block.blocks[j].value.block);
    }
  }

  // ----- documents -----

  ghost predicate WritableSchemas(schemas: seq<Entry<BlockSchema>>) {
    Sorted(schemas) && forall i :: 0 <= i < |schemas| ==> WritableBlock(schemas[i].value)
  }

  ghost function RawSchemasOf(schemas: seq<Entry<BlockSchema>>): seq<Entry<RawBlock>> {
    seq(|schemas|, i requires 0 <= i < |schemas| => Entry(schemas[i].key, RawBlockOf(schemas[i].value)))
  }

  lemma RawSchemasDescribe(schemas: seq<Entry<BlockSchema>>)
    requires WritableSchemas(schemas)
    ensures DescribesSchemas(RawSchemasOf(schemas), schemas)
  {
    SameKeysSorted(RawSchemasOf(schemas), schemas);
    forall i | 0 <= i < |schemas| { RawBlockDescribes(schemas[i].value); }
  }

  ghost function RawDocumentOf(schema: ProviderSchema, host: string): RawDocument {
    RawDocument("1.0", [Entry(host + "/" + schema.source, RawProvider(
      RawBlockOf(schema.providerConfig), RawSchemasOf(schema.resources), RawSchemasOf(schema.dataSources)))])
  }

  /** A provider's whole schema reads back from its document, wherever its address is hosted. */
  lemma DocumentRoundTrip(schema: ProviderSchema, host: string)
    requires WritableBlock(schema.providerConfig)
    requires WritableSchemas(schema.resources) && WritableSchemas(schema.dataSources)
    ensures Document(RawDocumentOf(schema, host), Request(schema.source, schema.version)) == Ok(schema)
  {
    var raw := RawDocumentOf(schema, host);
    RawBlockDescribes(schema.providerConfig);
    RawSchemasDescribe(schema.resources);
    RawSchemasDescribe(schema.dataSources);
    assert IsAddress(raw.providers[0].key, schema.source);
    assert Chosen(raw.providers, schema.source, 0);
    DocumentSpec(raw, Request(schema.source, schema.version), schema);
  }
}
