/** The field list a block schema stands for, worked out afresh for every path. */
module Derivation {
  import opened Wrappers
  import opened SortedMap
  import opened Schemas
  import Bindings
  import opened StableOrder

  type BindingField = Bindings.BindingField
  type BindingType = Bindings.BindingType

  /** How schema names become public names, and which public names a target language reserves. */
  datatype Naming = Naming(publicName: string -> string, reserved: string -> bool)

  function AttributeField(naming: Naming, name: string, attribute: AttributeSchema): BindingField
    decreases attribute
  {
    var publicName := naming.publicName(name);
    Bindings.BindingField(
      name, publicName, TypeOf(naming, attribute.schemaType), attribute.required, attribute.optional,
      attribute.computed, attribute.sensitive, false, naming.reserved(publicName), attribute.description, None, None)
  }

  function TypeOf(naming: Naming, schemaType: SchemaType): BindingType
    decreases schemaType
  {
    match schemaType
    case Text => Bindings.Text
    case Boolean => Bindings.Boolean
    case Number => Bindings.Number
    case List(item) => Bindings.List(TypeOf(naming, item))
    case Set(item) => Bindings.Set(TypeOf(naming, item))
    case Map(item) => Bindings.Map(TypeOf(naming, item))
    case Object(attributes) => Bindings.Object(AttributeFields(naming, attributes))
    case Tuple(items) => Bindings.Tuple(TypesOf(naming, items))
    case Dynamic => Bindings.Dynamic
  }

  function TypesOf(naming: Naming, items: seq<SchemaType>): seq<BindingType>
    decreases items
  {
    if items == [] then []
    else TypesOf(naming, items[..|items| - 1]) + [TypeOf(naming, items[|items| - 1])]
  }

  /** One field for each attribute, in the order of the map. */
  function AttributeFields(naming: Naming, attributes: seq<Entry<AttributeSchema>>): (fields: seq<BindingField>)
    ensures |fields| == |attributes|
    decreases attributes
  {
    if attributes == [] then []
    else
      var last := attributes[|attributes| - 1];
      AttributeFields(naming, attributes[..|attributes| - 1]) + [AttributeField(naming, last.key, last.value)]
  }

  function NestedType(mode: NestingMode, record: BindingType): BindingType {
    match mode
    case Single | Group => record
    case InList => Bindings.List(record)
    case InSet => Bindings.Set(record)
    case InMap => Bindings.Map(record)
  }

  function BlockField(naming: Naming, name: string, nested: NestedBlockSchema): BindingField
    decreases nested
  {
    var publicName := naming.publicName(name);
    Bindings.BindingField(
      name, publicName, NestedType(nested.nestingMode, Bindings.Object(FieldsOf(naming, nested.block))),
      nested.minItems.Some? && nested.minItems.value > 0,
      nested.minItems.None? || nested.minItems.value == 0,
      false, false, true, naming.reserved(publicName), None,
      if nested.minItems.Some? && nested.minItems.value > 0 then nested.minItems else None,
      nested.maxItems)
  }

  function BlockFields(naming: Naming, blocks: seq<Entry<NestedBlockSchema>>): (fields: seq<BindingField>)
    ensures |fields| == |blocks|
    decreases blocks
  {
    if blocks == [] then []
    else
      var last := blocks[|blocks| - 1];
      BlockFields(naming, blocks[..|blocks| - 1]) + [BlockField(naming, last.key, last.value)]
  }

  /** Fields sorted by provider name; an attribute and a block of one name keep that order. */
  function ByProviderName(fields: seq<BindingField>): seq<BindingField> {
    var names := seq(|fields|, i requires 0 <= i < |fields| => fields[i].providerName);
    Gather(fields, SortOrder(names, |fields|))
  }

  function FieldsOf(naming: Naming, block: BlockSchema): seq<BindingField>
    decreases block
  {
    ByProviderName(AttributeFields(naming, block.attributes) + BlockFields(naming, block.blocks))
  }

  lemma {:induction false} FieldKinds(naming: Naming, block: BlockSchema)
    ensures forall f :: f in AttributeFields(naming, block.attributes) ==> !f.block
    ensures forall f :: f in BlockFields(naming, block.blocks) ==> f.block
    decreases |block.attributes| + |block.blocks|
  {
    if block.attributes != [] {
      FieldKinds(naming, block.(attributes := block.attributes[..|block.attributes| - 1]));
    } else if block.blocks != [] {
      FieldKinds(naming, block.(blocks := block.blocks[..|block.blocks| - 1]));
    }
  }

  /** A derived list holds the fields of the attributes and blocks, sorted by provider name, and
      of an attribute and a block with one name the attribute first. */
  lemma FieldsAreSorted(naming: Naming, block: BlockSchema)
    ensures var fields := FieldsOf(naming, block);
            && multiset(fields) ==
               multiset(AttributeFields(naming, block.attributes)) + multiset(BlockFields(naming, block.blocks))
            && (forall i, j :: 0 <= i < j < |fields| ==>
                                 !Less(fields[j].providerName, fields[i].providerName)
                                 && (fields[i].providerName == fields[j].providerName && fields[i].block ==>
                                       fields[j].block))
  {
    var attributes, blocks := AttributeFields(naming, block.attributes), BlockFields(naming, block.blocks);
    var unsorted, fields := attributes + blocks, FieldsOf(naming, block);
    var names := seq(|unsorted|, i requires 0 <= i < |unsorted| => unsorted[i].providerName);
    var order := SortOrder(names, |unsorted|);
    SortOrderSpec(names);
    FieldKinds(naming, block);
    assert forall i :: 0 <= i < |fields| ==> fields[i] == unsorted[order[i]];
    SortOrderGathers(unsorted, names, |unsorted|);
    assert unsorted[..|unsorted|] == unsorted;
    forall i, j | 0 <= i < j < |fields|
      ensures !Less(fields[j].providerName, fields[i].providerName)
      ensures fields[i].providerName == fields[j].providerName && fields[i].block ==> fields[j].block
    {
      assert Before(names, order[i], order[j]);
      LessTotal(names[order[i]], names[order[j]]);
    }
  }
}
