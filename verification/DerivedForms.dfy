/** Reading a schema back from the fields derived from it. */
module DerivedForms {
  import opened Wrappers
  import opened SortedMap
  import opened LastEntries
  import opened Schemas
  import opened StableOrder
  import opened Derivation
  import Bindings

  // ----- types -----

  ghost function SchemaTypeOf(t: BindingType): SchemaType
    decreases t
  {
    match t
    case Text => Text
    case Boolean => Boolean
    case Number => Number
    case Dynamic => Dynamic
    case List(item) => List(SchemaTypeOf(item))
    case Set(item) => Set(SchemaTypeOf(item))
    case Map(item) => Map(SchemaTypeOf(item))
    case Object(fields) =>
      Object(seq(|fields|, i requires 0 <= i < |fields| => Entry(fields[i].providerName, AttributeOf(fields[i]))))
    case Tuple(items) => Tuple(seq(|items|, i requires 0 <= i < |items| => SchemaTypeOf(items[i])))
  }

  ghost function AttributeOf(f: BindingField): AttributeSchema
    decreases f
  {
    AttributeSchema(SchemaTypeOf(f.fieldType), f.required, f.optional, f.computed, f.sensitive, f.description)
  }

  lemma {:induction false} AttributeFieldAt(naming: Naming, attributes: seq<Entry<AttributeSchema>>, i: nat)
    requires i < |attributes|
    ensures AttributeFields(naming, attributes)[i] == AttributeField(naming, attributes[i].key, attributes[i].value)
    decreases |attributes|
  {
    if i < |attributes| - 1 {
      AttributeFieldAt(naming, attributes[..|attributes| - 1], i);
    }
  }

  lemma {:induction false} TypeAt(naming: Naming, items: seq<SchemaType>, i: nat)
    requires i < |items|
    ensures |TypesOf(naming, items)| == |items|
    ensures TypesOf(naming, items)[i] == TypeOf(naming, items[i])
    decreases |items|
  {
    if |items| > 1 {
      TypeAt(naming, items[..|items| - 1], if i < |items| - 1 then i else 0);
    }
  }

  /** A derived type stands for one schema type: the one it was derived from. */
  lemma {:induction false} TypeReadsBack(naming: Naming, t: SchemaType)
    ensures SchemaTypeOf(TypeOf(naming, t)) == t
    decreases t
  {
    match t
    case List(item) => TypeReadsBack(naming, item);
    case Set(item) => TypeReadsBack(naming, item);
    case Map(item) => TypeReadsBack(naming, item);
    case Object(attributes) =>
      forall i | 0 <= i < |attributes|
        ensures AttributeFields(naming, attributes)[i].providerName == attributes[i].key
        ensures AttributeOf(AttributeFields(naming, attributes)[i]) == attributes[i].value
      {
        AttributeFieldAt(naming, attributes, i);
        TypeReadsBack(naming, attributes[i].value.schemaType);
      }
    case Tuple(items) =>
      forall i | 0 <= i < |items|
        ensures |TypesOf(naming, items)| == |items| && SchemaTypeOf(TypesOf(naming, items)[i]) == items[i]
      {
        TypeAt(naming, items, i);
        TypeReadsBack(naming, items[i]);
      }
      if items != [] {
        TypeAt(naming, items, 0);
      }
    case _ =>
  }

  // ----- blocks -----

  ghost function NestingOf(t: BindingType): NestingMode {
    match t
    case List(_) => InList
    case Set(_) => InSet
    case Map(_) => InMap
    case _ => Single
  }

  ghost function InnerFields(t: BindingType): (fields: seq<BindingField>)
    ensures fields == [] || (t decreases to fields)
  {
    match t
    case Object(fields) => fields
    case List(item) => if item.Object? then item.fields else []
    case Set(item) => if item.Object? then item.fields else []
    case Map(item) => if item.Object? then item.fields else []
    case _ => []
  }

  ghost function NestedOf(f: BindingField): NestedBlockSchema
    decreases f, 2
  {
    var inner := InnerFields(f.fieldType);
    NestedBlockSchema(
      NestingOf(f.fieldType), f.minItems, f.maxItems,
      if inner == [] then BlockSchema([], []) else BlockSchema(AttributesIn(inner), BlocksIn(inner)))
  }

  ghost function AttributesIn(fields: seq<BindingField>): seq<Entry<AttributeSchema>> {
    if fields == [] then []
    else if fields[0].block then AttributesIn(fields[1..])
    else [Entry(fields[0].providerName, AttributeOf(fields[0]))] + AttributesIn(fields[1..])
  }

  ghost function BlocksIn(fields: seq<BindingField>): seq<Entry<NestedBlockSchema>>
    decreases fields
  {
    if fields == [] then []
    else if fields[0].block then [Entry(fields[0].providerName, NestedOf(fields[0]))] + BlocksIn(fields[1..])
    else BlocksIn(fields[1..])
  }

  /** The block a field list stands for. */
  ghost function BlockOf(fields: seq<BindingField>): BlockSchema {
    BlockSchema(AttributesIn(fields), BlocksIn(fields))
  }

  /** What a field list does not tell apart: a group and a single block, and a least number of
      blocks that is zero or not given. */
  ghost function Simplified(block: BlockSchema): BlockSchema
    decreases block
  {
    BlockSchema(block.attributes, seq(|block.blocks|, i requires 0 <= i < |block.blocks| =>
      Entry(block.blocks[i].key, SimplifiedNested(block.blocks[i].value))))
  }

  ghost function SimplifiedNested(nested: NestedBlockSchema): NestedBlockSchema
    decreases nested
  {
    NestedBlockSchema(
      if nested.nestingMode == Group then Single else nested.nestingMode,
      if nested.minItems == Some(0) then None else nested.minItems,
      nested.maxItems,
      Simplified(nested.block))
  }

  ghost predicate NameSorted(block: BlockSchema)
    decreases block
  {
    && Sorted(block.attributes) && Sorted(block.blocks)
    && forall i :: 0 <= i < |block.blocks| ==> NameSorted(block.blocks[i].value.block)
  }

  // ----- the two halves of a derived list -----

  /** Fields of one kind are in strict order of their provider names. */
  ghost predicate InNameOrder(fields: seq<BindingField>) {
    forall i, j :: 0 <= i < j < |fields| && fields[i].block == fields[j].block ==>
                     Less(fields[i].providerName, fields[j].providerName)
  }

  ghost predicate IsAttributeEntry(fields: seq<BindingField>, e: Entry<AttributeSchema>, i: nat) {
    i < |fields| && !fields[i].block && e == Entry(fields[i].providerName, AttributeOf(fields[i]))
  }

  ghost predicate IsBlockEntry(fields: seq<BindingField>, e: Entry<NestedBlockSchema>, i: nat) {
    i < |fields| && fields[i].block && e == Entry(fields[i].providerName, NestedOf(fields[i]))
  }

  lemma {:induction false} AttributesInSpec(fields: seq<BindingField>)
    requires InNameOrder(fields)
    ensures Sorted(AttributesIn(fields))
    ensures forall e :: e in AttributesIn(fields) <==> exists i: nat :: IsAttributeEntry(fields, e, i)
  {
    if fields != [] {
      var rest := fields[1..];
      AttributesInSpec(rest);
      forall e
        ensures e in AttributesIn(fields) <==> exists i: nat :: IsAttributeEntry(fields, e, i)
      {
        if i: nat :| IsAttributeEntry(rest, e, i) {
          assert IsAttributeEntry(fields, e, i + 1);
        }
        if i: nat :| IsAttributeEntry(fields, e, i) && i > 0 {
          assert IsAttributeEntry(rest, e, i - 1);
        }
        if !fields[0].block && e == Entry(fields[0].providerName, AttributeOf(fields[0])) {
          assert IsAttributeEntry(fields, e, 0);
        }
      }
      if !fields[0].block {
        SortedCons(Entry(fields[0].providerName, AttributeOf(fields[0])), AttributesIn(rest));
      }
    }
  }

  lemma {:induction false} BlocksInSpec(fields: seq<BindingField>)
    requires InNameOrder(fields)
    ensures Sorted(BlocksIn(fields))
    ensures forall e :: e in BlocksIn(fields) <==> exists i: nat :: IsBlockEntry(fields, e, i)
  {
    if fields != [] {
      var rest := fields[1..];
      BlocksInSpec(rest);
      forall e
        ensures e in BlocksIn(fields) <==> exists i: nat :: IsBlockEntry(fields, e, i)
      {
        if i: nat :| IsBlockEntry(rest, e, i) {
          assert IsBlockEntry(fields, e, i + 1);
        }
        if i: nat :| IsBlockEntry(fields, e, i) && i > 0 {
          assert IsBlockEntry(rest, e, i - 1);
        }
        if fields[0].block && e == Entry(fields[0].providerName, NestedOf(fields[0])) {
          assert IsBlockEntry(fields, e, 0);
        }
      }
      if fields[0].block {
        SortedCons(Entry(fields[0].providerName, NestedOf(fields[0])), BlocksIn(rest));
      }
    }
  }

  lemma {:induction false} BlockFieldAt(naming: Naming, blocks: seq<Entry<NestedBlockSchema>>, i: nat)
    requires i < |blocks|
    ensures BlockFields(naming, blocks)[i] == BlockField(naming, blocks[i].key, blocks[i].value)
    decreases |blocks|
  {
    if i < |blocks| - 1 {
      BlockFieldAt(naming, blocks[..|blocks| - 1], i);
    }
  }

  /** Where a field of the derived list comes from. */
  ghost predicate ComesFrom(naming: Naming, block: BlockSchema, f: BindingField, p: nat) {
    if f.block then
      p < |block.blocks| && f == BlockField(naming, block.blocks[p].key, block.blocks[p].value)
    else
      p < |block.attributes| && f == AttributeField(naming, block.attributes[p].key, block.attributes[p].value)
  }

  lemma UnsortedComesFrom(naming: Naming, block: BlockSchema, p: nat)
    requires p < |block.attributes| + |block.blocks|
    ensures Unsorted(naming, block)[p].block == (p >= |block.attributes|)
    ensures ComesFrom(
              naming, block, Unsorted(naming, block)[p],
              if p < |block.attributes| then p else p - |block.attributes|)
  {
    if p < |block.attributes| {
      AttributeFieldAt(naming, block.attributes, p);
    } else {
      BlockFieldAt(naming, block.blocks, p - |block.attributes|);
    }
  }

  ghost function Unsorted(naming: Naming, block: BlockSchema): seq<BindingField> {
    AttributeFields(naming, block.attributes) + BlockFields(naming, block.blocks)
  }

  ghost function ProviderNames(fields: seq<BindingField>): seq<string> {
    seq(|fields|, i requires 0 <= i < |fields| => fields[i].providerName)
  }

  /** Which field of the unsorted list stands where in the derived one. */
  lemma DerivedOrder(naming: Naming, block: BlockSchema) returns (order: seq<nat>)
    ensures IsStableOrder(ProviderNames(Unsorted(naming, block)), order)
    ensures |order| == |FieldsOf(naming, block)| == |Unsorted(naming, block)|
    ensures forall i :: 0 <= i < |order| ==>
                          order[i] < |order| && FieldsOf(naming, block)[i] == Unsorted(naming, block)[order[i]]
  {
    var names := ProviderNames(Unsorted(naming, block));
    order := SortOrder(names, |names|);
    SortOrderSpec(names);
  }

  lemma FieldComesFrom(naming: Naming, block: BlockSchema, f: BindingField) returns (p: nat)
    requires f in FieldsOf(naming, block)
    ensures ComesFrom(naming, block, f, p)
  {
    var order := DerivedOrder(naming, block);
    var i :| 0 <= i < |order| && FieldsOf(naming, block)[i] == f;
    assert f == Unsorted(naming, block)[order[i]];
    UnsortedComesFrom(naming, block, order[i]);
    p := if order[i] < |block.attributes| then order[i] else order[i] - |block.attributes|;
  }

  lemma UnsortedIsDerived(naming: Naming, block: BlockSchema, p: nat)
    requires p < |Unsorted(naming, block)|
    ensures Unsorted(naming, block)[p] in FieldsOf(naming, block)
  {
    var order := DerivedOrder(naming, block);
    assert p in order;
    var i :| 0 <= i < |order| && order[i] == p;
    assert FieldsOf(naming, block)[i] == Unsorted(naming, block)[p];
  }

  lemma UnsortedName(naming: Naming, block: BlockSchema, p: nat)
    requires p < |Unsorted(naming, block)|
    ensures Unsorted(naming, block)[p].block == (p >= |block.attributes|)
    ensures Unsorted(naming, block)[p].providerName ==
            if p < |block.attributes| then block.attributes[p].key else block.blocks[p - |block.attributes|].key
  {
    UnsortedComesFrom(naming, block, p);
  }

  lemma UnsortedNames(naming: Naming, block: BlockSchema, p: nat, q: nat)
    requires NameSorted(block) && p < |Unsorted(naming, block)| && q < |Unsorted(naming, block)|
    requires Unsorted(naming, block)[p].block == Unsorted(naming, block)[q].block
    requires Unsorted(naming, block)[p].providerName == Unsorted(naming, block)[q].providerName
    ensures p == q
  {
    var names := |block.attributes|;
    UnsortedName(naming, block, p);
    UnsortedName(naming, block, q);
    if p < names {
      SortedPositions(block.attributes, p, q);
    } else {
      SortedPositions(block.blocks, p - names, q - names);
    }
  }

  lemma DerivedInOrder(naming: Naming, block: BlockSchema)
    requires NameSorted(block)
    ensures InNameOrder(FieldsOf(naming, block))
  {
    var fields := FieldsOf(naming, block);
    var order := DerivedOrder(naming, block);
    var names := ProviderNames(Unsorted(naming, block));
    forall i, j | 0 <= i < j < |fields| && fields[i].block == fields[j].block
      ensures Less(fields[i].providerName, fields[j].providerName)
    {
      assert Before(names, order[i], order[j]);
      if names[order[i]] == names[order[j]] {
        UnsortedNames(naming, block, order[i], order[j]);
      }
    }
  }

  lemma FoundAttribute(naming: Naming, block: BlockSchema, f: BindingField)
    requires f in FieldsOf(naming, block) && !f.block
    ensures Entry(f.providerName, AttributeOf(f)) in block.attributes
  {
    var p := FieldComesFrom(naming, block, f);
    TypeReadsBack(naming, block.attributes[p].value.schemaType);
    assert Entry(f.providerName, AttributeOf(f)) == block.attributes[p];
  }

  lemma AttributeIsFound(naming: Naming, block: BlockSchema, p: nat)
    requires p < |block.attributes|
    ensures var f := AttributeField(naming, block.attributes[p].key, block.attributes[p].value);
            f in FieldsOf(naming, block) && Entry(f.providerName, AttributeOf(f)) == block.attributes[p]
  {
    AttributeFieldAt(naming, block.attributes, p);
    UnsortedIsDerived(naming, block, p);
    TypeReadsBack(naming, block.attributes[p].value.schemaType);
  }

  lemma AttributesReadBack(naming: Naming, block: BlockSchema)
    requires NameSorted(block)
    ensures AttributesIn(FieldsOf(naming, block)) == block.attributes
  {
    var fields := FieldsOf(naming, block);
    DerivedInOrder(naming, block);
    AttributesInSpec(fields);
    forall e | e in AttributesIn(fields)
      ensures e in block.attributes
    {
      var i: nat :| IsAttributeEntry(fields, e, i);
      FoundAttribute(naming, block, fields[i]);
    }
    forall e | e in block.attributes
      ensures e in AttributesIn(fields)
    {
      var p :| 0 <= p < |block.attributes| && block.attributes[p] == e;
      AttributeIsFound(naming, block, p);
      var i :| 0 <= i < |fields| && fields[i] == AttributeField(naming, e.key, e.value);
      assert IsAttributeEntry(fields, e, i);
    }
    SameMembers(AttributesIn(fields), block.attributes);
  }

  /** Sorted lists with the same entries are the same list. */
  lemma SameMembers<V(!new)>(a: seq<Entry<V>>, b: seq<Entry<V>>)
    requires Sorted(a) && Sorted(b) && forall e :: e in a <==> e in b
    ensures a == b
  {
    forall key
      ensures HasKey(a, key) <==> HasKey(b, key)
    {
      if i :| 0 <= i < |a| && a[i].key == key {
        assert a[i] in b;
      }
      if i :| 0 <= i < |b| && b[i].key == key {
        assert b[i] in a;
      }
    }
    forall i, j | 0 <= i < |a| && 0 <= j < |b| && a[i].key == b[j].key
      ensures a[i].value == b[j].value
    {
      assert a[i] in b;
      var k :| 0 <= k < |b| && b[k] == a[i];
      SortedPositions(b, j, k);
    }
    OnlyOneMap(a, b);
  }

  lemma NestingReadsBack(mode: NestingMode, inner: seq<BindingField>)
    ensures var t := NestedType(mode, Bindings.Object(inner));
            NestingOf(t) == (if mode == Group then Single else mode) && InnerFields(t) == inner
  {
  }

  lemma NestedIsBlock(f: BindingField)
    ensures NestedOf(f).block == BlockOf(InnerFields(f.fieldType))
    ensures NestedOf(f).nestingMode == NestingOf(f.fieldType)
    ensures NestedOf(f).minItems == f.minItems && NestedOf(f).maxItems == f.maxItems
  {
  }

  lemma NestedReadsBack(naming: Naming, name: string, nested: NestedBlockSchema)
    requires BlockOf(FieldsOf(naming, nested.block)) == Simplified(nested.block)
    ensures NestedOf(BlockField(naming, name, nested)) == SimplifiedNested(nested)
  {
    var f := BlockField(naming, name, nested);
    NestingReadsBack(nested.nestingMode, FieldsOf(naming, nested.block));
    NestedIsBlock(f);
  }

  lemma FoundBlock(naming: Naming, block: BlockSchema, f: BindingField)
    requires f in FieldsOf(naming, block) && f.block
    requires forall p :: 0 <= p < |block.blocks| ==> NestedIsRead(naming, block.blocks[p])
    ensures Entry(f.providerName, NestedOf(f)) in Simplified(block).blocks
  {
    var p := FieldComesFrom(naming, block, f);
    assert NestedIsRead(naming, block.blocks[p]);
    SimplifiedAt(block, p);
    assert Entry(f.providerName, NestedOf(f)) == Simplified(block).blocks[p];
  }

  lemma SimplifiedAt(block: BlockSchema, p: nat)
    requires p < |block.blocks|
    ensures |Simplified(block).blocks| == |block.blocks|
    ensures Simplified(block).blocks[p] == Entry(block.blocks[p].key, SimplifiedNested(block.blocks[p].value))
  {
  }

  lemma BlockIsDerived(naming: Naming, block: BlockSchema, p: nat)
    requires p < |block.blocks|
    ensures BlockField(naming, block.blocks[p].key, block.blocks[p].value) in FieldsOf(naming, block)
  {
    var attributes, blocks := AttributeFields(naming, block.attributes), BlockFields(naming, block.blocks);
    BlockFieldAt(naming, block.blocks, p);
    assert Unsorted(naming, block)[|attributes| + p] == blocks[p];
    UnsortedIsDerived(naming, block, |attributes| + p);
  }

  lemma BlockIsFound(naming: Naming, block: BlockSchema, p: nat)
    requires p < |block.blocks| && NestedIsRead(naming, block.blocks[p])
    ensures var f := BlockField(naming, block.blocks[p].key, block.blocks[p].value);
            f in FieldsOf(naming, block) && Entry(f.providerName, NestedOf(f)) == Simplified(block).blocks[p]
  {
    BlockIsDerived(naming, block, p);
    SimplifiedAt(block, p);
  }

  ghost predicate NestedIsRead(naming: Naming, entry: Entry<NestedBlockSchema>) {
    NestedOf(BlockField(naming, entry.key, entry.value)) == SimplifiedNested(entry.value)
  }

  lemma FoundBlocks(naming: Naming, block: BlockSchema, e: Entry<NestedBlockSchema>)
    requires InNameOrder(FieldsOf(naming, block)) && e in BlocksIn(FieldsOf(naming, block))
    requires forall p :: 0 <= p < |block.blocks| ==> NestedIsRead(naming, block.blocks[p])
    ensures e in Simplified(block).blocks
  {
    var fields := FieldsOf(naming, block);
    BlocksInSpec(fields);
    var i: nat :| IsBlockEntry(fields, e, i);
    FoundBlock(naming, block, fields[i]);
  }

  lemma BlocksAreFound(naming: Naming, block: BlockSchema, p: nat)
    requires InNameOrder(FieldsOf(naming, block)) && p < |block.blocks| && NestedIsRead(naming, block.blocks[p])
    ensures Simplified(block).blocks[p] in BlocksIn(FieldsOf(naming, block))
  {
    var fields, e := FieldsOf(naming, block), Simplified(block).blocks[p];
    BlocksInSpec(fields);
    BlockIsFound(naming, block, p);
    var i :| 0 <= i < |fields| && fields[i] == BlockField(naming, block.blocks[p].key, block.blocks[p].value);
    assert IsBlockEntry(fields, e, i);
  }

  lemma BlocksReadBack(naming: Naming, block: BlockSchema)
    requires NameSorted(block)
    requires forall p :: 0 <= p < |block.blocks| ==> NestedIsRead(naming, block.blocks[p])
    ensures BlocksIn(FieldsOf(naming, block)) == Simplified(block).blocks
  {
    var found, expected := BlocksIn(FieldsOf(naming, block)), Simplified(block).blocks;
    DerivedInOrder(naming, block);
    BlocksInSpec(FieldsOf(naming, block));
    forall e | e in found { FoundBlocks(naming, block, e); }
    forall e | e in expected
      ensures e in found
    {
      var p :| 0 <= p < |expected| && expected[p] == e;
      BlocksAreFound(naming, block, p);
    }
    SameMembers(found, expected);
  }

  /** A derived list stands for one block: the one it was derived from, up to what a field list
      does not tell apart. */
  lemma {:induction false} BlockReadsBack(naming: Naming, block: BlockSchema)
    requires NameSorted(block)
    ensures BlockOf(FieldsOf(naming, block)) == Simplified(block)
    decreases block
  {
    AttributesReadBack(naming, block);
    forall p | 0 <= p < |block.blocks|
      ensures NestedIsRead(naming, block.blocks[p])
    {
      BlockReadsBack(naming, block.blocks[p].value.block);
      NestedReadsBack(naming, block.blocks[p].key, block.blocks[p].value);
    }
    BlocksReadBack(naming, block);
  }

  // ----- names and flags -----

  /** A field's public name and whether a target reserves it follow its provider name, at every
      depth; a block is required or optional by its least number, and nothing else. */
  ghost predicate Follows(naming: Naming, f: BindingField)
    decreases f, 1
  {
    && f.publicName == naming.publicName(f.providerName)
    && f.targetReserved == naming.reserved(f.publicName)
    && (f.block ==>
          && (f.required <==> f.minItems.Some?) && (f.optional <==> f.minItems.None?)
          && !f.computed && !f.sensitive && f.description == None)
    && (!f.block ==> f.minItems == None && f.maxItems == None)
    && (f.minItems.Some? ==> f.minItems.value > 0)
    && TypeFollows(naming, f.fieldType)
  }

  ghost predicate TypeFollows(naming: Naming, t: BindingType)
    decreases t, 0
  {
    match t
    case List(item) => TypeFollows(naming, item)
    case Set(item) => TypeFollows(naming, item)
    case Map(item) => TypeFollows(naming, item)
    case Object(fields) => forall i :: 0 <= i < |fields| ==> Follows(naming, fields[i])
    case Tuple(items) => forall i :: 0 <= i < |items| ==> TypeFollows(naming, items[i])
    case _ => true
  }

  lemma {:induction false} DerivedTypeFollows(naming: Naming, t: SchemaType)
    ensures TypeFollows(naming, TypeOf(naming, t))
    decreases t
  {
    match t
    case List(item) => DerivedTypeFollows(naming, item);
    case Set(item) => DerivedTypeFollows(naming, item);
    case Map(item) => DerivedTypeFollows(naming, item);
    case Object(attributes) =>
      forall i | 0 <= i < |attributes|
        ensures Follows(naming, AttributeFields(naming, attributes)[i])
      {
        AttributeFieldAt(naming, attributes, i);
        DerivedTypeFollows(naming, attributes[i].value.schemaType);
      }
    case Tuple(items) =>
      if items != [] {
        TypeAt(naming, items, 0);
      }
      forall i | 0 <= i < |items|
        ensures TypeFollows(naming, TypesOf(naming, items)[i])
      {
        TypeAt(naming, items, i);
        DerivedTypeFollows(naming, items[i]);
      }
    case _ =>
  }

  /** Every derived field follows the naming and the rule for blocks, and so does everything
      inside it. */
  lemma {:induction false} DerivedFieldFollows(naming: Naming, block: BlockSchema, f: BindingField)
    requires f in FieldsOf(naming, block)
    ensures Follows(naming, f)
    decreases block
  {
    var p := FieldComesFrom(naming, block, f);
    if f.block {
      var inner := block.blocks[p].value.block;
      forall i | 0 <= i < |FieldsOf(naming, inner)| {
        DerivedFieldFollows(naming, inner, FieldsOf(naming, inner)[i]);
      }
      assert TypeFollows(naming, Bindings.Object(FieldsOf(naming, inner)));
    } else {
      DerivedTypeFollows(naming, block.attributes[p].value.schemaType);
    }
  }

  lemma FieldsReadBack(naming: Naming, block: BlockSchema)
    ensures NameSorted(block) ==> BlockOf(FieldsOf(naming, block)) == Simplified(block)
    ensures forall f :: f in FieldsOf(naming, block) ==> Follows(naming, f)
  {
    if NameSorted(block) {
      BlockReadsBack(naming, block);
    }
    forall f | f in FieldsOf(naming, block) { DerivedFieldFollows(naming, block, f); }
  }
}
