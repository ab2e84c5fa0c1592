/** The one-pass normalizer succeeds exactly with the schema a document describes. */
module SchemaReading {
  import opened Wrappers
  import opened SortedMap
  import opened LastEntries
  import opened RawSchemas
  import opened Schemas
  import opened Normalizing
  import opened SchemaForms
  import OrderedMap
  import RepeatedKeys

  // ----- results and maps of results -----

  ghost predicate AreResults<T>(results: seq<Entry<Normalized<T>>>, entries: seq<Entry<T>>) {
    && |results| == |entries|
    && forall i :: 0 <= i < |results| ==> results[i] == Entry(entries[i].key, Ok(entries[i].value))
  }

  lemma {:induction false} SequencedSpec<T>(results: seq<Entry<Normalized<T>>>, entries: seq<Entry<T>>)
    ensures Sequenced(results) == Ok(entries) <==> AreResults(results, entries)
    decreases |results|
  {
    if results != [] {
      var last := |results| - 1;
      if Sequenced(results[..last]).Ok? {
        SequencedSpec(results[..last], Sequenced(results[..last]).value);
      }
      if |entries| == |results| {
        SequencedSpec(results[..last], entries[..last]);
        assert entries == entries[..last] + [entries[last]];
      }
    }
  }

  ghost predicate IsNameMap<T>(results: seq<Entry<Normalized<T>>>, named: seq<Entry<T>>) {
    && SameKeys(results, named)
    && forall i: nat, j: nat :: Counts(results, named, i, j) ==> results[i].value == Ok(named[j].value)
  }

  /** A map of results succeeds exactly as the map in which every key has its last entry's value. */
  lemma NameMapSpec<T(!new)>(results: seq<Entry<Normalized<T>>>, named: seq<Entry<T>>)
    ensures NameMap(results) == Ok(named) <==> IsNameMap(results, named)
  {
    var built := FromEntries(results);
    BuiltFromLast(results);
    SequencedSpec(built, named);
    if AreResults(built, named) {
      SameKeysLifted(built, named);
      forall i: nat, j: nat | Counts(results, named, i, j)
        ensures results[i].value == Ok(named[j].value)
      {
        assert Counts(results, built, i, j);
      }
    }
    if IsNameMap(results, named) {
      var lifted := seq(|named|, i requires 0 <= i < |named| => Entry(named[i].key, Ok(named[i].value)));
      SameKeysLifted(lifted, named);
      forall i, j | 0 <= i < |built| && 0 <= j < |lifted| && built[i].key == lifted[j].key
        ensures built[i].value == lifted[j].value
      {
        assert HasKey(built, built[i].key);
        var k := LastOf(results, built[i].key);
        assert Counts(results, built, k, i) && Counts(results, named, k, j);
      }
      OnlyOneMap(built, lifted);
    }
  }

  lemma SameKeysLifted<T(!new)>(results: seq<Entry<Normalized<T>>>, named: seq<Entry<T>>)
    requires AreResults(results, named)
    ensures forall key :: HasKey(results, key) <==> HasKey(named, key)
    ensures Sorted(results) <==> Sorted(named)
  {
    forall key
      ensures HasKey(results, key) <==> HasKey(named, key)
    {
      if i :| 0 <= i < |results| && results[i].key == key {
        assert named[i].key == key;
      }
      if i :| 0 <= i < |named| && named[i].key == key {
        assert results[i].key == key;
      }
    }
    if Sorted(results) {
      forall i, j | 0 <= i < j < |named|
        ensures Less(named[i].key, named[j].key)
      {
        assert Less(results[i].key, results[j].key);
      }
    }
  }

  // ----- object types -----

  /** Merging repeated fields leaves each key once, with its last entry's value. */
  lemma MergedLast<V(!new)>(entries: seq<Entry<V>>)
    ensures var merged := OrderedMap.FromList(entries);
            && DistinctKeys(merged)
            && (forall key :: HasKey(entries, key) <==> HasKey(merged, key))
            && (forall i: nat, k: nat :: IsLast(entries, i) && k < |merged| && merged[k].key == entries[i].key ==>
                                           merged[k].value == entries[i].value)
  {
    var merged := OrderedMap.FromList(entries);
    RepeatedKeys.FromListSpec(entries);
    RepeatedKeys.FirstKeysMembers(Keys(entries));
    RepeatedKeys.DistinctExpected(merged);
    forall key
      ensures HasKey(entries, key) <==> HasKey(merged, key)
    {
      HasKeyIsLookedUp(entries, key);
      HasKeyIsLookedUp(merged, key);
    }
    forall i: nat, k: nat | IsLast(entries, i) && k < |merged| && merged[k].key == entries[i].key
      ensures merged[k].value == entries[i].value
    {
      LastIsLookedUp(entries, i);
      RepeatedKeys.DistinctLookup(merged, k);
    }
  }

  /** What an object type's attributes are of its fields' results. */
  ghost predicate IsObject(results: seq<Entry<Normalized<SchemaType>>>, attributes: seq<Entry<AttributeSchema>>) {
    && SameKeys(results, attributes)
    && forall i: nat, j: nat :: Counts(results, attributes, i, j) ==>
                                  && OnlyTyped(attributes[j].value)
                                  && results[i].value == Ok(attributes[j].value.schemaType)
  }

  lemma DistinctIsLast<V>(entries: seq<Entry<V>>, k: nat)
    requires DistinctKeys(entries) && k < |entries|
    ensures IsLast(entries, k)
  {
  }

  lemma FieldsMakeAttributes(fields: seq<Entry<SchemaType>>)
    requires DistinctKeys(fields)
    ensures var attributes := FromEntries(FieldAttributes(fields));
            && SameKeys(fields, attributes)
            && forall k: nat, j: nat :: k < |fields| && j < |attributes| && attributes[j].key == fields[k].key ==>
                                          OnlyTyped(attributes[j].value)
                                          && attributes[j].value.schemaType == fields[k].value
  {
    var typed := FieldAttributes(fields);
    var attributes := FromEntries(typed);
    BuiltFromLast(typed);
    forall key
      ensures HasKey(fields, key) <==> HasKey(typed, key)
    {
      if k :| 0 <= k < |fields| && fields[k].key == key {
        assert typed[k].key == key;
      }
    }
    forall k: nat, j: nat | k < |fields| && j < |attributes| && attributes[j].key == fields[k].key
      ensures OnlyTyped(attributes[j].value) && attributes[j].value.schemaType == fields[k].value
    {
      DistinctIsLast(typed, k);
      assert Counts(typed, attributes, k, j);
    }
  }

  lemma MergedIsObject(results: seq<Entry<Normalized<SchemaType>>>, fields: seq<Entry<SchemaType>>)
    requires AreResults(OrderedMap.FromList(results), fields)
    ensures IsObject(results, FromEntries(FieldAttributes(fields)))
  {
    var merged, attributes := OrderedMap.FromList(results), FromEntries(FieldAttributes(fields));
    MergedLast(results);
    SameKeysLifted(merged, fields);
    FieldsMakeAttributes(fields);
    forall i: nat, j: nat | Counts(results, attributes, i, j)
      ensures OnlyTyped(attributes[j].value) && results[i].value == Ok(attributes[j].value.schemaType)
    {
      assert HasKey(fields, attributes[j].key);
      var k: nat :| k < |fields| && fields[k].key == attributes[j].key;
      assert merged[k].value == results[i].value;
    }
  }

  lemma ObjectIsOnce(
    results: seq<Entry<Normalized<SchemaType>>>,
    a: seq<Entry<AttributeSchema>>,
    b: seq<Entry<AttributeSchema>>
  )
    requires IsObject(results, a) && IsObject(results, b)
    ensures a == b
  {
    forall i, j | 0 <= i < |a| && 0 <= j < |b| && a[i].key == b[j].key
      ensures a[i].value == b[j].value
    {
      assert HasKey(a, a[i].key);
      var k := LastOf(results, a[i].key);
      assert Counts(results, a, k, i) && Counts(results, b, k, j);
    }
    OnlyOneMap(a, b);
  }

  lemma ObjectTypeSpec(results: seq<Entry<Normalized<SchemaType>>>, t: SchemaType)
    ensures ObjectType(results) == Ok(t) <==> t.Object? && IsObject(results, t.attributes)
  {
    var merged := OrderedMap.FromList(results);
    MergedLast(results);
    if t.Object? && IsObject(results, t.attributes) {
      forall k | 0 <= k < |merged|
        ensures merged[k].value.Ok?
      {
        assert HasKey(merged, merged[k].key);
        var i := LastOf(results, merged[k].key);
        assert HasKey(t.attributes, merged[k].key);
        var j: nat :| j < |t.attributes| && t.attributes[j].key == merged[k].key;
        assert Counts(results, t.attributes, i, j);
      }
      var fields := seq(|merged|, k requires 0 <= k < |merged| => Entry(merged[k].key, merged[k].value.value));
      SequencedSpec(merged, fields);
      MergedIsObject(results, fields);
      ObjectIsOnce(results, t.attributes, FromEntries(FieldAttributes(fields)));
    } else if Sequenced(merged).Ok? {
      SequencedSpec(merged, Sequenced(merged).value);
      MergedIsObject(results, Sequenced(merged).value);
    }
  }

  // ----- cty types -----

  lemma {:induction false} CtyFieldAt(members: seq<Entry<Json>>, path: Path, i: nat)
    requires i < |members|
    ensures CtyFields(members, path)[i]
         == Entry(members[i].key, CtyType(members[i].value, path + [Field(members[i].key)]))
    decreases |members|
  {
    if i < |members| - 1 {
      CtyFieldAt(members[..|members| - 1], path, i);
    }
  }

  ghost predicate ElementReads(elements: seq<Json>, path: Path, types: seq<SchemaType>, i: nat) {
    i < |elements| && i < |types| ==> CtyType(elements[i], path + [Index(i)]) == Ok(types[i])
  }

  ghost predicate ElementsRead(elements: seq<Json>, path: Path, types: seq<SchemaType>) {
    |types| == |elements| && forall i: nat :: ElementReads(elements, path, types, i)
  }

  lemma ElementsReadSnoc(elements: seq<Json>, path: Path, types: seq<SchemaType>, last: nat)
    requires |elements| == last + 1 == |types|
    ensures ElementsRead(elements, path, types) <==>
            && ElementsRead(elements[..last], path, types[..last])
            && CtyType(elements[last], path + [Index(last)]) == Ok(types[last])
  {
    if ElementsRead(elements, path, types) {
      assert ElementReads(elements, path, types, last);
      forall i: nat
        ensures ElementReads(elements[..last], path, types[..last], i)
      {
        assert ElementReads(elements, path, types, i);
      }
    } else if ElementsRead(elements[..last], path, types[..last]) {
      var i: nat :| !ElementReads(elements, path, types, i);
      assert ElementReads(elements[..last], path, types[..last], i);
    }
  }

  lemma CtyElementsSnocSpec(elements: seq<Json>, path: Path, types: seq<SchemaType>, last: nat)
    requires |elements| == last + 1
    requires CtyElements(elements[..last], path).Ok? ==> |CtyElements(elements[..last], path).value| == last
    ensures CtyElements(elements, path) == Ok(types) <==>
            && |types| == last + 1
            && CtyElements(elements[..last], path) == Ok(types[..last])
            && CtyType(elements[last], path + [Index(last)]) == Ok(types[last])
  {
    if |types| == last + 1 {
      assert types == types[..last] + [types[last]];
    }
  }

  lemma {:induction false} CtyElementsSpec(elements: seq<Json>, path: Path, types: seq<SchemaType>)
    ensures CtyElements(elements, path) == Ok(types) <==> ElementsRead(elements, path, types)
    decreases |elements|
  {
    if elements != [] {
      var last := |elements| - 1;
      var init := CtyElements(elements[..last], path);
      if init.Ok? {
        CtyElementsSpec(elements[..last], path, init.value);
      }
      CtyElementsSnocSpec(elements, path, types, last);
      if |types| == |elements| {
        CtyElementsSpec(elements[..last], path, types[..last]);
        ElementsReadSnoc(elements, path, types, last);
      }
    }
  }

  /** A cty value reads as a type if and only if it names the type. */
  lemma {:induction false} CtyTypeSpec(json: Json, path: Path, t: SchemaType)
    ensures CtyType(json, path) == Ok(t) <==> Names(json, t)
    decreases json, 1
  {
    if json.Arr? && |json.items| >= 2 && json.items[0].Str? {
      var name, parameter := json.items[0].text, json.items[1];
      if name in ["list", "set", "map"] {
        CtyCollectionSpec(json.items, path, t);
      } else if name == "object" && parameter.Obj? {
        CtyObjectSpec(json.items, path, t);
      } else if name == "tuple" && parameter.Arr? {
        CtyTupleSpec(json.items, path, t);
      }
    }
  }

  lemma CtyTypesRead(json: Json, path: Path)
    ensures forall t :: CtyType(json, path) == Ok(t) <==> Names(json, t)
  {
    forall t { CtyTypeSpec(json, path, t); }
  }

  lemma CtyCollectionSpec(items: seq<Json>, path: Path, t: SchemaType)
    requires |items| >= 2 && items[0].Str? && items[0].text in ["list", "set", "map"]
    ensures CtyType(Arr(items), path) == Ok(t) <==> Names(Arr(items), t)
    decreases Arr(items), 0
  {
    forall item
      ensures CtyType(items[1], path) == Ok(item) <==> Names(items[1], item)
    {
      CtyTypeSpec(items[1], path, item);
    }
  }

  lemma CtyObjectSpec(items: seq<Json>, path: Path, t: SchemaType)
    requires |items| >= 2 && items[0] == Str("object") && items[1].Obj?
    ensures CtyType(Arr(items), path) == Ok(t) <==> Names(Arr(items), t)
    decreases Arr(items), 0
  {
    ObjectTypeSpec(CtyFields(items[1].members, path), t);
    if t.Object? {
      CtyFieldsSpec(items[1].members, path, t.attributes);
    }
  }

  lemma CtyTupleSpec(items: seq<Json>, path: Path, t: SchemaType)
    requires |items| >= 2 && items[0] == Str("tuple") && items[1].Arr?
    ensures CtyType(Arr(items), path) == Ok(t) <==> Names(Arr(items), t)
    decreases Arr(items), 0
  {
    if t.Tuple? {
      CtyElementsSpec(items[1].items, path, t.items);
      CtyItemsSpec(items[1].items, path, t.items);
    }
  }

  lemma CtyFieldsSpec(members: seq<Entry<Json>>, path: Path, attributes: seq<Entry<AttributeSchema>>)
    ensures IsObject(CtyFields(members, path), attributes) <==> NamesFields(members, attributes)
    decreases members
  {
    var results := CtyFields(members, path);
    forall i | 0 <= i < |members|
      ensures results[i] == Entry(members[i].key, CtyType(members[i].value, path + [Field(members[i].key)]))
    {
      CtyFieldAt(members, path, i);
    }
    SameKeysOf(results, members, attributes);
    forall i: nat, j: nat | i < |members| && j < |attributes|
      ensures results[i].value == Ok(attributes[j].value.schemaType) <==>
              Names(members[i].value, attributes[j].value.schemaType)
    {
      CtyTypeSpec(members[i].value, path + [Field(members[i].key)], attributes[j].value.schemaType);
    }
  }

  lemma CtyItemsSpec(elements: seq<Json>, path: Path, types: seq<SchemaType>)
    ensures ElementsRead(elements, path, types) <==> NamesAll(elements, types)
    decreases elements
  {
    forall i: nat | i < |elements| && i < |types|
      ensures ElementReads(elements, path, types, i) <==> Names(elements[i], types[i])
    {
      CtyTypeSpec(elements[i], path + [Index(i)], types[i]);
    }
    if |types| == |elements| && NamesAll(elements, types) {
      forall i: nat
        ensures ElementReads(elements, path, types, i)
      {
      }
    }
  }

  /** Anything else is a problem that says what was found and where. */
  lemma UnknownNames(name: string, path: Path)
    ensures CtyType(Str(name), path).Err? <==> name !in ["string", "bool", "number", "dynamic"]
    ensures CtyType(Str(name), path).Err? ==>
              CtyType(Str(name), path) == Err(InvalidType(path, "unknown primitive `" + name + "`"))
    ensures ModeOf(name, path).Err? <==> name !in ["single", "list", "set", "map", "group"]
    ensures ModeOf(name, path).Err? ==> ModeOf(name, path) == Err(UnknownNesting(path, name))
  {
  }

  /** Lists with the same keys are the same to a map. */
  lemma SameKeysOf<S, T, U>(a: seq<Entry<S>>, b: seq<Entry<T>>, named: seq<Entry<U>>)
    requires |a| == |b| && forall i :: 0 <= i < |a| ==> a[i].key == b[i].key
    ensures SameKeys(a, named) <==> SameKeys(b, named)
    ensures forall i: nat, j: nat :: Counts(a, named, i, j) <==> Counts(b, named, i, j)
  {
    forall key
      ensures HasKey(a, key) <==> HasKey(b, key)
    {
      if i :| 0 <= i < |a| && a[i].key == key {
        assert b[i].key == key;
      }
      if i :| 0 <= i < |b| && b[i].key == key {
        assert a[i].key == key;
      }
    }
  }

  // ----- attributes and blocks -----

  lemma {:induction false} AttributeResult(entries: seq<Entry<RawAttribute>>, path: Path, i: nat)
    requires i < |entries|
    ensures Attributes(entries, path)[i]
         == Entry(entries[i].key, Attribute(entries[i].value, path + [Field(entries[i].key)]))
    decreases |entries|
  {
    if i < |entries| - 1 {
      AttributeResult(entries[..|entries| - 1], path, i);
    }
  }

  ghost function NestedResult(entry: Entry<RawNestedBlock>, path: Path): Entry<Normalized<NestedBlockSchema>> {
    var inner := path + [Field(entry.key)];
    Entry(entry.key, NestedBlockOf(entry.value, Block(entry.value.block, inner), inner))
  }

  lemma {:induction false} BlockResult(entries: seq<Entry<RawNestedBlock>>, path: Path, i: nat)
    requires i < |entries|
    ensures NestedBlocks(entries, path)[i] == NestedResult(entries[i], path)
    decreases |entries|
  {
    if i < |entries| - 1 {
      BlockResult(entries[..|entries| - 1], path, i);
    }
  }

  /** Modes and what they make of a record, one by one. */
  lemma ModesNest(mode: string, path: Path, record: SchemaType, t: SchemaType)
    ensures ModeOf(mode, path).Ok? && t == Nest(ModeOf(mode, path).value, record) <==> Nests(mode, record, t)
    ensures forall nesting :: ModeOf(mode, path) == Ok(nesting) <==> SameMode(mode, nesting)
  {
  }

  lemma NestedTypeSpec(nested: RawNestedType, path: Path, t: SchemaType)
    requires forall attributes :: NameMap(Attributes(nested.attributes, path)) == Ok(attributes) <==>
                                  DescribesAttributes(nested.attributes, attributes)
    ensures NestedType(nested.mode, Attributes(nested.attributes, path), path) == Ok(t) <==> DescribesNested(nested, t)
  {
    var results := Attributes(nested.attributes, path);
    if NameMap(results).Ok? {
      var attributes := NameMap(results).value;
      ModesNest(nested.mode, path, Object(attributes), t);
      assert DescribesAttributes(nested.attributes, attributes);
    }
  }

  /** An attribute reads as a schema if and only if it describes it. */
  lemma {:induction false} AttributeSpec(raw: RawAttribute, path: Path, a: AttributeSchema)
    ensures Attribute(raw, path) == Ok(a) <==> Describes(raw, a)
    decreases raw
  {
    if raw.cty.Some? {
      CtyTypeSpec(raw.cty.value, path, a.schemaType);
    } else if raw.nested.Some? {
      var nested := raw.nested.value;
      forall attributes
        ensures NameMap(Attributes(nested.attributes, path)) == Ok(attributes) <==>
                DescribesAttributes(nested.attributes, attributes)
      {
        AttributesSpec(nested.attributes, path, attributes);
      }
      NestedTypeSpec(nested, path, a.schemaType);
    }
  }

  lemma AttributesRead(raw: RawAttribute, path: Path)
    ensures forall a :: Attribute(raw, path) == Ok(a) <==> Describes(raw, a)
  {
    forall a { AttributeSpec(raw, path, a); }
  }

  lemma AttributesSpec(entries: seq<Entry<RawAttribute>>, path: Path, attributes: seq<Entry<AttributeSchema>>)
    ensures NameMap(Attributes(entries, path)) == Ok(attributes) <==> DescribesAttributes(entries, attributes)
    decreases entries
  {
    var results := Attributes(entries, path);
    NameMapSpec(results, attributes);
    forall i | 0 <= i < |entries|
      ensures results[i] == Entry(entries[i].key, Attribute(entries[i].value, path + [Field(entries[i].key)]))
    {
      AttributeResult(entries, path, i);
    }
    SameKeysOf(results, entries, attributes);
    forall i: nat, j: nat | i < |entries| && j < |attributes|
      ensures results[i].value == Ok(attributes[j].value) <==> Describes(entries[i].value, attributes[j].value)
    {
      AttributeSpec(entries[i].value, path + [Field(entries[i].key)], attributes[j].value);
    }
  }

  /** A block reads as a schema if and only if it describes it. */
  lemma {:induction false} BlockSpec(raw: RawBlock, path: Path, block: BlockSchema)
    ensures Block(raw, path) == Ok(block) <==> DescribesBlock(raw, block)
    decreases raw
  {
    AttributesSpec(raw.attributes, path, block.attributes);
    BlocksSpec(raw.blocks, path, block.blocks);
  }

  lemma BlocksRead(raw: RawBlock, path: Path)
    ensures forall block :: Block(raw, path) == Ok(block) <==> DescribesBlock(raw, block)
  {
    forall block { BlockSpec(raw, path, block); }
  }

  lemma BlocksSpec(entries: seq<Entry<RawNestedBlock>>, path: Path, blocks: seq<Entry<NestedBlockSchema>>)
    ensures NameMap(NestedBlocks(entries, path)) == Ok(blocks) <==> DescribesBlocks(entries, blocks)
    decreases entries
  {
    var results := NestedBlocks(entries, path);
    NameMapSpec(results, blocks);
    forall i | 0 <= i < |entries|
      ensures results[i] == NestedResult(entries[i], path)
    {
      BlockResult(entries, path, i);
    }
    SameKeysOf(results, entries, blocks);
    forall i: nat, j: nat | i < |entries| && j < |blocks|
      ensures results[i].value == Ok(blocks[j].value) <==> DescribesNestedBlock(entries[i].value, blocks[j].value)
    {
      var inner := path + [Field(entries[i].key)];
      ModesNest(entries[i].value.mode, inner, Text, Text);
      BlockSpec(entries[i].value.block, inner, blocks[j].value.block);
    }
  }

  // ----- documents -----

  lemma {:induction false} ResourceResult(entries: seq<Entry<RawBlock>>, root: string, i: nat)
    requires i < |entries|
    ensures Resources(entries, root)[i]
         == Entry(entries[i].key, Block(entries[i].value, [Root(root), Field(entries[i].key)]))
    decreases |entries|
  {
    if i < |entries| - 1 {
      ResourceResult(entries[..|entries| - 1], root, i);
    }
  }

  lemma SchemasSpec(entries: seq<Entry<RawBlock>>, root: string, schemas: seq<Entry<BlockSchema>>)
    ensures NameMap(Resources(entries, root)) == Ok(schemas) <==> DescribesSchemas(entries, schemas)
  {
    var results := Resources(entries, root);
    NameMapSpec(results, schemas);
    forall i | 0 <= i < |entries|
      ensures results[i] == Entry(entries[i].key, Block(entries[i].value, [Root(root), Field(entries[i].key)]))
    {
      ResourceResult(entries, root, i);
    }
    SameKeysOf(results, entries, schemas);
    forall i: nat, j: nat | i < |entries| && j < |schemas|
      ensures results[i].value == Ok(schemas[j].value) <==> DescribesBlock(entries[i].value, schemas[j].value)
    {
      BlockSpec(entries[i].value, [Root(root), Field(entries[i].key)], schemas[j].value);
    }
  }

  lemma ProviderSpec(raw: RawProvider, request: Request, schema: ProviderSchema)
    ensures ProviderOf(Provider(raw), request) == Ok(schema) <==>
            && schema.source == request.source && schema.version == request.version
            && DescribesProvider(raw, schema)
  {
    BlockSpec(raw.config, [Root("provider")], schema.providerConfig);
    SchemasSpec(raw.resources, "resource", schema.resources);
    SchemasSpec(raw.dataSources, "data", schema.dataSources);
  }

  lemma MatchesIsAddress(request: Request, address: string)
    ensures request.Matches(address) <==> IsAddress(address, request.source)
  {
    var source := request.source;
    if host :| address == host + "/" + source {
      assert address[|address| - |source|..] == source;
      assert address[|address| - |source| - 1] == '/';
    }
    if request.Matches(address) && address != source {
      var cut := |address| - |source|;
      assert address == address[..cut - 1] + "/" + address[cut..];
    }
  }

  lemma {:induction false} MajorIsVersion(version: string)
    ensures Major(version) == "1" <==> IsVersionOne(version)
  {
    if version != "" {
      assert version == [version[0]] + version[1..];
      if |version| > 1 {
        assert "1." <= version <==> version[0] == '1' && version[1] == '.';
      }
    }
  }

  lemma {:induction false} MatchingLast(entries: seq<Entry<RawProvider>>, request: Request, key: string)
    ensures LookupLast(Matching(entries, request), key) ==
            if !IsAddress(key, request.source) then None
            else match LookupLast(entries, key)
                 case None => None
                 case Some(raw) => Some(Provider(raw))
  {
    MatchesIsAddress(request, key);
    if entries != [] {
      var init, last := Matching(entries[..|entries| - 1], request), entries[|entries| - 1];
      MatchingLast(entries[..|entries| - 1], request, key);
      if request.Matches(last.key) {
        assert Matching(entries, request)[..|init|] == init;
      }
    }
  }

  lemma ChosenOnce(providers: seq<Entry<RawProvider>>, source: string, i: nat, j: nat)
    requires Chosen(providers, source, i) && Chosen(providers, source, j)
    ensures i == j
  {
    LessTotal(providers[i].key, providers[j].key);
  }

  /** The first matching provider by name is the chosen one. */
  lemma FirstIsChosen(entries: seq<Entry<RawProvider>>, request: Request) returns (i: nat)
    requires FromEntries(Matching(entries, request)) != []
    ensures Chosen(entries, request.source, i)
    ensures FromEntries(Matching(entries, request))[0].value == Provider(entries[i].value)
  {
    var matching := Matching(entries, request);
    var built := FromEntries(matching);
    var key := built[0].key;
    FromEntriesSpec(matching);
    assert Lookup(built, key) == LookupLast(matching, key) == Some(built[0].value);
    MatchingLast(entries, request, key);
    HasKeyIsLookedUp(entries, key);
    i := LastOf(entries, key);
    LastIsLookedUp(entries, i);
    forall j | 0 <= j < |entries| && IsAddress(entries[j].key, request.source)
      ensures Less(key, entries[j].key) || (key == entries[j].key && j <= i)
    {
      var other := entries[j].key;
      assert HasKey(entries, other);
      HasKeyIsLookedUp(entries, other);
      MatchingLast(entries, request, other);
      LookupMember(built, other);
      var m :| 0 <= m < |built| && built[m].key == other;
    }
  }

  lemma ChosenIsKept(entries: seq<Entry<RawProvider>>, request: Request, i: nat)
    requires Chosen(entries, request.source, i)
    ensures FromEntries(Matching(entries, request)) != []
  {
    var matching, key := Matching(entries, request), entries[i].key;
    FromEntriesSpec(matching);
    assert HasKey(entries, key);
    HasKeyIsLookedUp(entries, key);
    MatchingLast(entries, request, key);
    assert Lookup(FromEntries(matching), key).Some?;
  }

  /** A document reads as a schema if and only if it describes it as the requested one: in every
      other case there is a problem. */
  lemma DocumentSpec(raw: RawDocument, request: Request, schema: ProviderSchema)
    ensures Document(raw, request) == Ok(schema) <==> DescribesRequested(raw, request, schema)
  {
    MajorIsVersion(raw.formatVersion);
    if FromEntries(Matching(raw.providers, request)) != [] {
      var i := FirstIsChosen(raw.providers, request);
      ProviderSpec(raw.providers[i].value, request, schema);
      forall j: nat | Chosen(raw.providers, request.source, j)
        ensures j == i
      {
        ChosenOnce(raw.providers, request.source, i, j);
      }
    } else if i: nat :| Chosen(raw.providers, request.source, i) {
      ChosenIsKept(raw.providers, request, i);
    }
  }

  lemma DocumentsRead(raw: RawDocument, request: Request)
    ensures forall schema :: Document(raw, request) == Ok(schema) <==> DescribesRequested(raw, request, schema)
  {
    forall schema { DocumentSpec(raw, request, schema); }
  }
}
