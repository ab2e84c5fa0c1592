/** The one-pass normalizer as it runs: loops over entries that collect results, and in-place
    reductions of what they collected. */
module Normalizer {
  import opened Wrappers
  import opened SortedMap
  import opened RawSchemas
  import opened Schemas
  import opened Normalizing
  import opened Collapsing
  import opened EntryLists
  import opened SinglePass
  import opened SchemaForms
  import opened SchemaReading
  import RepeatedKeys

  /** The results up to the first problem. */
  method TakeResults<T>(results: array<Entry<Normalized<T>>>, count: nat) returns (entries: Normalized<seq<Entry<T>>>)
    requires count <= results.Length
    ensures entries == Sequenced(results[..count])
  {
    var taken: seq<Entry<T>> := [];
    for i := 0 to count
      invariant Sequenced(results[..i]) == Ok(taken)
    {
      assert results[..i + 1][..i] == results[..i];
      match results[i].value {
        case Err(problem) =>
          LaterResultsDoNotMatter(results[..count], i + 1);
          assert results[..count][..i + 1] == results[..i + 1];
          return Err(problem);
        case Ok(value) =>
          taken := taken + [Entry(results[i].key, value)];
      }
    }
    return Ok(taken);
  }

  lemma {:induction false} LaterResultsDoNotMatter<T>(results: seq<Entry<Normalized<T>>>, count: nat)
    requires count <= |results| && Sequenced(results[..count]).Err?
    ensures Sequenced(results) == Sequenced(results[..count])
    decreases |results|
  {
    if count < |results| {
      var init := results[..|results| - 1];
      assert init[..count] == results[..count];
      LaterResultsDoNotMatter(init, count);
    } else {
      assert results[..count] == results;
    }
  }

  method ReadNameMap<T(!new)>(results: seq<Entry<Normalized<T>>>) returns (entries: Normalized<seq<Entry<T>>>)
    ensures entries == NameMap(results)
  {
    var found := new Entry<Normalized<T>>[|results|](i requires 0 <= i < |results| => results[i]);
    assert found[..] == results;
    var kept := SortUnique(found);
    entries := TakeResults(found, kept);
  }

  method ReadObjectType(results: seq<Entry<Normalized<SchemaType>>>) returns (objectType: Normalized<SchemaType>)
    ensures objectType == ObjectType(results)
  {
    var found := new Entry<Normalized<SchemaType>>[|results|](i requires 0 <= i < |results| => results[i]);
    assert found[..] == results;
    var kept := RepeatedKeys.MergeRepeatedKeys(found);
    var fields := TakeResults(found, kept);
    if fields.Err? {
      return Err(fields.error);
    }
    var attributes := FieldAttributes(fields.value);
    var named := new Entry<AttributeSchema>[|attributes|](i requires 0 <= i < |attributes| => attributes[i]);
    assert named[..] == attributes;
    kept := SortUnique(named);
    return Ok(Object(named[..kept]));
  }

  /** The type the value names, or the problem that walking the collapsed value to its first
      problem finds. */
  method ReadCtyType(json: Json, path: Path) returns (result: Normalized<SchemaType>)
    ensures result == CtyType(json, path)
    ensures result == WalkCty(CollapseJson(json), path)
    ensures forall t :: result == Ok(t) <==> Names(json, t)
    decreases json
  {
    CtyAgrees(json, path);
    CtyTypesRead(json, path);
    match json {
      case Str(name) =>
        result := Primitive(name, path);
      case Scalar =>
        result := Err(InvalidType(path, "expected a primitive or constructor array"));
      case Obj(_) =>
        result := Err(InvalidType(path, "expected a primitive or constructor array"));
      case Arr(items) =>
        if items == [] || !items[0].Str? {
          return Err(InvalidType(path, "missing constructor"));
        }
        if |items| < 2 {
          return Err(InvalidType(path, "missing constructor parameter"));
        }
        var name := items[0].text;
        if name in ["list", "set", "map"] {
          var item := ReadCtyType(items[1], path);
          result := match item case Err(problem) => Err(problem) case Ok(t) => Ok(Collection(name, t));
        } else if name == "object" {
          match items[1] {
            case Obj(members) =>
              result := ReadFields(members, path);
            case _ =>
              result := Err(InvalidType(path, "object parameter is not an object"));
          }
        } else if name == "tuple" {
          match items[1] {
            case Arr(elements) =>
              result := ReadElements(elements, path);
            case _ =>
              result := Err(InvalidType(path, "tuple parameter is not an array"));
          }
        } else {
          result := Err(InvalidType(path, "unknown constructor `" + name + "`"));
        }
    }
  }

  method ReadFields(members: seq<Entry<Json>>, path: Path) returns (result: Normalized<SchemaType>)
    ensures result == ObjectType(CtyFields(members, path))
    decreases members
  {
    var fields: seq<Entry<Normalized<SchemaType>>> := [];
    for i := 0 to |members|
      invariant fields == CtyFields(members[..i], path)
    {
      var field := ReadCtyType(members[i].value, path + [Field(members[i].key)]);
      assert members[..i + 1][..i] == members[..i];
      fields := fields + [Entry(members[i].key, field)];
    }
    assert members[..|members|] == members;
    result := ReadObjectType(fields);
  }

  /** Reads every element, remembering the first problem. */
  method ReadElements(elements: seq<Json>, path: Path) returns (result: Normalized<SchemaType>)
    ensures result == match CtyElements(elements, path)
                      case Err(problem) => Err(problem)
                      case Ok(types) => Ok(Tuple(types))
    decreases elements
  {
    var types: seq<SchemaType> := [];
    var first: Option<Problem> := None;
    for i := 0 to |elements|
      invariant CtyElements(elements[..i], path) == if first.Some? then Err(first.value) else Ok(types)
    {
      var element := ReadCtyType(elements[i], path + [Index(i)]);
      assert elements[..i + 1][..i] == elements[..i];
      match element {
        case Ok(t) =>
          types := types + [t];
        case Err(problem) =>
          first := if first.None? then Some(problem) else first;
      }
    }
    assert elements[..|elements|] == elements;
    result := if first.Some? then Err(first.value) else Ok(Tuple(types));
  }

  /** Both types are read, but what counts is what walking the collapsed attribute finds: the cty
      type, and the nested type only without one. */
  method ReadAttribute(raw: RawAttribute, path: Path) returns (result: Normalized<AttributeSchema>)
    ensures result == Attribute(raw, path)
    ensures result == WalkAttribute(CollapseAttribute(raw), path)
    ensures forall a :: result == Ok(a) <==> Describes(raw, a)
    decreases raw
  {
    AttributeAgrees(raw, path);
    AttributesRead(raw, path);
    var cty, nested: Option<Normalized<SchemaType>> := None, None;
    if raw.cty.Some? {
      var t := ReadCtyType(raw.cty.value, path);
      cty := Some(t);
    }
    if raw.nested.Some? {
      var attributes := ReadAttributes(raw.nested.value.attributes, path);
      var t := ReadNestedType(raw.nested.value.mode, attributes, path);
      nested := Some(t);
    }
    var attributeType := if cty.Some? then cty.value else if nested.Some? then nested.value else Err(MissingType(path));
    result := WithType(raw, attributeType);
  }

  method ReadNestedType(
    mode: string,
    results: seq<Entry<Normalized<AttributeSchema>>>,
    path: Path
  )
    returns (result: Normalized<SchemaType>)
    ensures result == NestedType(mode, results, path)
  {
    var attributes := ReadNameMap(results);
    if attributes.Err? {
      return Err(attributes.error);
    }
    var nesting := ModeOf(mode, path);
    if nesting.Err? {
      return Err(nesting.error);
    }
    return Ok(Nest(nesting.value, Object(attributes.value)));
  }

  method ReadAttributes(entries: seq<Entry<RawAttribute>>, path: Path)
    returns (results: seq<Entry<Normalized<AttributeSchema>>>)
    ensures results == Attributes(entries, path)
    decreases entries
  {
    results := [];
    for i := 0 to |entries|
      invariant results == Attributes(entries[..i], path)
    {
      var attribute := ReadAttribute(entries[i].value, path + [Field(entries[i].key)]);
      assert entries[..i + 1][..i] == entries[..i];
      results := results + [Entry(entries[i].key, attribute)];
    }
    assert entries[..|entries|] == entries;
  }

  /** The block, or the first problem, that walking the collapsed block finds: attributes before
      nested blocks, each by name. */
  method ReadBlock(raw: RawBlock, path: Path) returns (result: Normalized<BlockSchema>)
    ensures result == Block(raw, path)
    ensures result == WalkBlock(CollapseBlock(raw), path)
    ensures forall block :: result == Ok(block) <==> DescribesBlock(raw, block)
    decreases raw
  {
    BlockAgrees(raw, path);
    BlocksRead(raw, path);
    var attributes := ReadAttributes(raw.attributes, path);
    var blocks := ReadNestedBlocks(raw.blocks, path);
    var named := ReadNameMap(attributes);
    if named.Err? {
      return Err(named.error);
    }
    var nested := ReadNameMap(blocks);
    if nested.Err? {
      return Err(nested.error);
    }
    return Ok(BlockSchema(named.value, nested.value));
  }

  method ReadNestedBlocks(entries: seq<Entry<RawNestedBlock>>, path: Path)
    returns (results: seq<Entry<Normalized<NestedBlockSchema>>>)
    ensures results == NestedBlocks(entries, path)
    decreases entries
  {
    results := [];
    for i := 0 to |entries|
      invariant results == NestedBlocks(entries[..i], path)
    {
      var inner := path + [Field(entries[i].key)];
      var block := ReadBlock(entries[i].value.block, inner);
      assert entries[..i + 1][..i] == entries[..i];
      results := results + [Entry(entries[i].key, NestedBlockOf(entries[i].value, block, inner))];
    }
    assert entries[..|entries|] == entries;
  }

  /** Inserts every resource's schema, good or bad, into a map by name. */
  method ReadResources(entries: seq<Entry<RawBlock>>, root: string)
    returns (schemas: seq<Entry<Normalized<BlockSchema>>>)
    ensures schemas == FromEntries(Resources(entries, root))
  {
    schemas := [];
    for i := 0 to |entries|
      invariant schemas == FromEntries(Resources(entries[..i], root))
    {
      var block := ReadBlock(entries[i].value, [Root(root), Field(entries[i].key)]);
      assert entries[..i + 1][..i] == entries[..i];
      ghost var results := Resources(entries[..i], root);
      assert Resources(entries[..i + 1], root) == results + [Entry(entries[i].key, block)];
      assert (results + [Entry(entries[i].key, block)])[..i] == results;
      schemas := Insert(schemas, entries[i].key, block);
    }
    assert entries[..|entries|] == entries;
  }

  method ReadProvider(raw: RawProvider) returns (provider: NormalizedProvider)
    ensures provider == Provider(raw)
  {
    var config := ReadBlock(raw.config, [Root("provider")]);
    var resources := ReadResources(raw.resources, "resource");
    var dataSources := ReadResources(raw.dataSources, "data");
    provider := NormalizedProvider(config, resources, dataSources);
  }

  lemma MatchingStep(entries: seq<Entry<RawProvider>>, request: Request, next: nat)
    requires next < |entries|
    ensures var before, after := Matching(entries[..next], request), Matching(entries[..next + 1], request);
            FromEntries(after) ==
            if request.Matches(entries[next].key)
            then Insert(FromEntries(before), entries[next].key, Provider(entries[next].value))
            else FromEntries(before)
  {
    var before, after := Matching(entries[..next], request), Matching(entries[..next + 1], request);
    assert entries[..next + 1][..next] == entries[..next];
    if request.Matches(entries[next].key) {
      assert after[..|after| - 1] == before;
    }
  }

  /** Normalizes every provider, keeps those that match, and reports what the first has: the
      schema, or the first problem, of the collapsed document. */
  method ReadDocument(raw: RawDocument, request: Request) returns (schema: Normalized<ProviderSchema>)
    ensures schema == Document(raw, request)
    ensures schema == WalkDocument(raw, request)
    ensures forall s :: schema == Ok(s) <==> DescribesRequested(raw, request, s)
  {
    DocumentAgrees(raw, request);
    DocumentsRead(raw, request);
    var providers: seq<Entry<NormalizedProvider>> := [];
    for i := 0 to |raw.providers|
      invariant providers == FromEntries(Matching(raw.providers[..i], request))
    {
      var provider := ReadProvider(raw.providers[i].value);
      MatchingStep(raw.providers, request, i);
      if request.Matches(raw.providers[i].key) {
        providers := Insert(providers, raw.providers[i].key, provider);
      }
    }
    assert raw.providers[..|raw.providers|] == raw.providers;
    if Major(raw.formatVersion) != "1" {
      return Err(UnsupportedFormat(raw.formatVersion));
    }
    if providers == [] {
      return Err(MissingProvider(request.source));
    }
    return ProviderOf(providers[0].value, request);
  }
}
