/** Deriving field lists with every distinct block and object type worked out once. */
module Deriving {
  import opened Wrappers
  import opened SortedMap
  import opened Schemas
  import opened Interning
  import opened Derivation
  import opened DerivedForms
  import opened Walks
  import Bindings

  type Fields = Shared<BindingField>

  class Deriver {
    const naming: Naming
    const interner: Interner<BindingField>
    var blocks: map<BlockSchema, Fields>
    var objects: map<seq<Entry<AttributeSchema>>, Fields>
    var publicNames: map<string, string>

    /** Every cached list is the one the uncached derivation gives, and comes from the interner. */
    ghost predicate Valid()
      reads this, interner
    {
      && interner.Valid()
      && (forall b :: b in blocks ==> blocks[b] in interner.values && blocks[b].items == FieldsOf(naming, b))
      && (forall o :: o in objects ==> objects[o] in interner.values && objects[o].items == AttributeFields(naming, o))
      && (forall n :: n in publicNames ==> publicNames[n] == naming.publicName(n))
    }

    constructor (naming: Naming, hasher: seq<BindingField> -> nat)
      ensures Valid() && fresh(interner) && this.naming == naming
    {
      this.naming := naming;
      interner := new Interner(hasher);
      blocks := map[];
      objects := map[];
      publicNames := map[];
    }

    method PublicName(name: string) returns (publicName: string)
      requires Valid()
      modifies this`publicNames
      ensures Valid() && publicName == naming.publicName(name)
    {
      if name in publicNames {
        return publicNames[name];
      }
      publicName := naming.publicName(name);
      publicNames := publicNames[name := publicName];
    }

    /** The list of a block: cached, or derived from its attributes and nested blocks. */
    method FieldsFor(block: BlockSchema) returns (fields: Fields)
      requires Valid()
      modifies this, interner
      ensures Valid() && old(interner.values) <= interner.values && fields in interner.values
      ensures fields.items == FieldsOf(naming, block)
      ensures NameSorted(block) ==> BlockOf(fields.items) == Simplified(block)
      ensures forall f :: f in fields.items ==> Follows(naming, f)
      decreases block
    {
      FieldsReadBack(naming, block);
      if block in blocks {
        return blocks[block];
      }
      var items := Attributes(block.attributes);
      for i := 0 to |block.blocks|
        invariant Valid() && old(interner.values) <= interner.values
        invariant items == AttributeFields(naming, block.attributes) + BlockFields(naming, block.blocks[..i])
      {
        var field := NestedBlock(block.blocks[i].key, block.blocks[i].value);
        OneMoreBlock(naming, AttributeFields(naming, block.attributes), items, block.blocks, i);
        items := items + [field];
      }
      assert block.blocks[..|block.blocks|] == block.blocks;
      fields := interner.Intern(ByProviderName(items));
      blocks := blocks[block := fields];
    }

    method NestedBlock(name: string, nested: NestedBlockSchema) returns (field: BindingField)
      requires Valid()
      modifies this, interner
      ensures Valid() && old(interner.values) <= interner.values
      ensures field == BlockField(naming, name, nested)
      decreases nested
    {
      var fields := FieldsFor(nested.block);
      var nestedType := NestedType(nested.nestingMode, Bindings.Object(fields.items));
      var publicName := PublicName(name);
      field := Bindings.BindingField(
        name, publicName, nestedType,
        nested.minItems.Some? && nested.minItems.value > 0,
        nested.minItems.None? || nested.minItems.value == 0,
        false, false, true, naming.reserved(publicName), None,
        if nested.minItems.Some? && nested.minItems.value > 0 then nested.minItems else None,
        nested.maxItems);
    }

    method Attribute(name: string, attribute: AttributeSchema) returns (field: BindingField)
      requires Valid()
      modifies this, interner
      ensures Valid() && old(interner.values) <= interner.values
      ensures field == AttributeField(naming, name, attribute)
      decreases attribute
    {
      var publicName := PublicName(name);
      var fieldType := BindingTypeOf(attribute.schemaType);
      field := Bindings.BindingField(
        name, publicName, fieldType, attribute.required, attribute.optional, attribute.computed,
        attribute.sensitive, false, naming.reserved(publicName), attribute.description, None, None);
    }

    method BindingTypeOf(schemaType: SchemaType) returns (fieldType: BindingType)
      requires Valid()
      modifies this, interner
      ensures Valid() && old(interner.values) <= interner.values
      ensures fieldType == TypeOf(naming, schemaType)
      ensures SchemaTypeOf(fieldType) == schemaType
      decreases schemaType
    {
      TypeReadsBack(naming, schemaType);
      match schemaType
      case Text => fieldType := Bindings.Text;
      case Boolean => fieldType := Bindings.Boolean;
      case Number => fieldType := Bindings.Number;
      case List(item) =>
        var inner := BindingTypeOf(item);
        fieldType := Bindings.List(inner);
      case Set(item) =>
        var inner := BindingTypeOf(item);
        fieldType := Bindings.Set(inner);
      case Map(item) =>
        var inner := BindingTypeOf(item);
        fieldType := Bindings.Map(inner);
      case Object(attributes) =>
        var fields := ObjectFor(attributes);
        fieldType := Bindings.Object(fields.items);
      case Tuple(items) =>
        var inner: seq<BindingType> := [];
        for i := 0 to |items|
          invariant Valid() && old(interner.values) <= interner.values
          invariant inner == TypesOf(naming, items[..i])
        {
          var itemType := BindingTypeOf(items[i]);
          assert items[..i + 1][..i] == items[..i];
          inner := inner + [itemType];
        }
        assert items[..|items|] == items;
        fieldType := Bindings.Tuple(inner);
      case Dynamic => fieldType := Bindings.Dynamic;
    }

    /** The list of an object type: cached, or derived from its attributes. */
    method ObjectFor(attributes: seq<Entry<AttributeSchema>>) returns (fields: Fields)
      requires Valid()
      modifies this, interner
      ensures Valid() && old(interner.values) <= interner.values && fields in interner.values
      ensures fields.items == AttributeFields(naming, attributes)
      ensures SchemaTypeOf(Bindings.Object(fields.items)) == Schemas.Object(attributes)
      decreases attributes, 1
    {
      TypeReadsBack(naming, Schemas.Object(attributes));
      if attributes in objects {
        return objects[attributes];
      }
      var items := Attributes(attributes);
      fields := interner.Intern(items);
      objects := objects[attributes := fields];
    }

    method Attributes(attributes: seq<Entry<AttributeSchema>>) returns (items: seq<BindingField>)
      requires Valid()
      modifies this, interner
      ensures Valid() && old(interner.values) <= interner.values
      ensures items == AttributeFields(naming, attributes)
      decreases attributes, 0
    {
      items := [];
      for i := 0 to |attributes|
        invariant Valid() && old(interner.values) <= interner.values
        invariant items == AttributeFields(naming, attributes[..i])
      {
        var field := Attribute(attributes[i].key, attributes[i].value);
        assert attributes[..i + 1][..i] == attributes[..i];
        items := items + [field];
      }
      assert attributes[..|attributes|] == attributes;
    }

    /** Derives every resource or data source, unless two of them get one public name. */
    method Items(schemas: seq<Entry<BlockSchema>>, itemName: string -> string)
      returns (result: Result<seq<BindingItem>, Collision>)
      requires Valid()
      modifies this, interner
      ensures Valid() && old(interner.values) <= interner.values
      ensures result.Ok? <==> Distinct(PublicNames(schemas, itemName))
      ensures result.Ok? ==> AreItems(naming, itemName, schemas, result.value)
      ensures result.Err? ==> IsFirstCollision(schemas, itemName, result.error)
    {
      ghost var names := PublicNames(schemas, itemName);
      var seen: map<string, string> := map[];
      var items: seq<BindingItem> := [];
      for i := 0 to |schemas|
        invariant Valid() && old(interner.values) <= interner.values
        invariant AreItems(naming, itemName, schemas[..i], items)
        invariant AreSeen(schemas, itemName, i, seen)
      {
        var name := itemName(schemas[i].key);
        if name in seen {
          FirstCollision(schemas, itemName, i, seen);
          return Err(Collision(name, seen[name], schemas[i].key));
        }
        OneMoreSeen(schemas, itemName, i, seen);
        seen := seen[name := schemas[i].key];
        var fields := FieldsFor(schemas[i].value);
        OneMoreItem(naming, itemName, schemas, i, items, BindingItem(schemas[i].key, name, fields));
        items := items + [BindingItem(schemas[i].key, name, fields)];
      }
      assert names[..|schemas|] == names && schemas[..|schemas|] == schemas;
      return Ok(items);
    }
  }

  lemma OneMoreBlock(
    naming: Naming,
    attributes: seq<BindingField>,
    items: seq<BindingField>,
    blocks: seq<Entry<NestedBlockSchema>>,
    i: nat
  )
    requires i < |blocks| && items == attributes + BlockFields(naming, blocks[..i])
    ensures items + [BlockField(naming, blocks[i].key, blocks[i].value)]
         == attributes + BlockFields(naming, blocks[..i + 1])
  {
    assert blocks[..i + 1][..i] == blocks[..i];
  }

  datatype BindingItem = BindingItem(providerType: string, publicName: string, fields: Fields)

  datatype Collision = Collision(publicName: string, first: string, second: string)

  function PublicNames(schemas: seq<Entry<BlockSchema>>, itemName: string -> string): (names: seq<string>)
    ensures |names| == |schemas| && forall i :: 0 <= i < |names| ==> names[i] == itemName(schemas[i].key)
  {
    seq(|schemas|, i requires 0 <= i < |schemas| => itemName(schemas[i].key))
  }

  ghost predicate IsItem(naming: Naming, itemName: string -> string, schema: Entry<BlockSchema>, item: BindingItem) {
    && item.providerType == schema.key
    && item.publicName == itemName(schema.key)
    && item.fields.items == FieldsOf(naming, schema.value)
  }

  ghost predicate AreItems(
    naming: Naming,
    itemName: string -> string,
    schemas: seq<Entry<BlockSchema>>,
    items: seq<BindingItem>
  ) {
    |items| == |schemas| && forall i :: 0 <= i < |schemas| ==> IsItem(naming, itemName, schemas[i], items[i])
  }

  lemma OneMoreItem(
    naming: Naming,
    itemName: string -> string,
    schemas: seq<Entry<BlockSchema>>,
    i: nat,
    items: seq<BindingItem>,
    item: BindingItem
  )
    requires i < |schemas| && AreItems(naming, itemName, schemas[..i], items)
    requires IsItem(naming, itemName, schemas[i], item)
    ensures AreItems(naming, itemName, schemas[..i + 1], items + [item])
  {
    assert schemas[..i + 1] == schemas[..i] + [schemas[i]];
  }

  /** The names of the first schemas, all different, each with the type it came from. */
  ghost predicate AreSeen(
    schemas: seq<Entry<BlockSchema>>,
    itemName: string -> string,
    count: nat,
    seen: map<string, string>
  )
    requires count <= |schemas|
  {
    var names := PublicNames(schemas, itemName);
    && Distinct(names[..count])
    && (forall j :: 0 <= j < count ==> names[j] in seen && seen[names[j]] == schemas[j].key)
    && (forall n :: n in seen ==> n in names[..count])
  }

  lemma OneMoreSeen(
    schemas: seq<Entry<BlockSchema>>,
    itemName: string -> string,
    i: nat,
    seen: map<string, string>
  )
    requires i < |schemas| && AreSeen(schemas, itemName, i, seen) && itemName(schemas[i].key) !in seen
    ensures AreSeen(schemas, itemName, i + 1, seen[itemName(schemas[i].key) := schemas[i].key])
  {
    var names := PublicNames(schemas, itemName);
    assert names[..i + 1] == names[..i] + [names[i]];
    DistinctSnoc(names[..i], names[i]);
  }

  lemma FirstCollision(
    schemas: seq<Entry<BlockSchema>>,
    itemName: string -> string,
    j: nat,
    seen: map<string, string>
  )
    requires j < |schemas| && AreSeen(schemas, itemName, j, seen) && itemName(schemas[j].key) in seen
    ensures !Distinct(PublicNames(schemas, itemName))
    ensures var name := itemName(schemas[j].key);
            IsFirstCollision(schemas, itemName, Collision(name, seen[name], schemas[j].key))
  {
    var names := PublicNames(schemas, itemName);
    var i :| 0 <= i < j && names[i] == names[j];
  }

  /** Two schemas whose names collide, the second of them the first to collide with anything. */
  ghost predicate IsFirstCollision(schemas: seq<Entry<BlockSchema>>, itemName: string -> string, collision: Collision) {
    exists i, j :: 0 <= i < j < |schemas|
                   && PublicNames(schemas, itemName)[i] == PublicNames(schemas, itemName)[j] == collision.publicName
                   && schemas[i].key == collision.first && schemas[j].key == collision.second
                   && Distinct(PublicNames(schemas, itemName)[..j])
  }

  /** Schemas with equal derived lists hold one list between them, in every reachable state. */
  lemma EqualBindingsShareAList(deriver: Deriver, a: BlockSchema, b: BlockSchema)
    requires deriver.Valid() && a in deriver.blocks && b in deriver.blocks
    ensures deriver.blocks[a] == deriver.blocks[b] <==> FieldsOf(deriver.naming, a) == FieldsOf(deriver.naming, b)
  {
    EqualListsShareAHandle(deriver.interner, deriver.blocks[a], deriver.blocks[b]);
  }
}
