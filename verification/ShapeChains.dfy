/** What a walk meets, said by the chain of fields that leads from the item to it. */
module ShapeChains {
  import opened Wrappers
  import opened Bindings
  import opened ShapeWalks

  datatype Layer = OfList | OfSet | OfMap

  /** A record inside layers of collections. */
  ghost function Layered(layers: seq<Layer>, fields: seq<BindingField>): BindingType {
    if layers == [] then Object(fields)
    else
      match layers[0]
      case OfList => List(Layered(layers[1..], fields))
      case OfSet => Set(Layered(layers[1..], fields))
      case OfMap => Map(Layered(layers[1..], fields))
  }

  ghost predicate HoldsRecord(t: BindingType, fields: seq<BindingField>) {
    exists layers :: t == Layered(layers, fields)
  }

  lemma {:induction false} LayeredHolds(layers: seq<Layer>, fields: seq<BindingField>)
    ensures ObjectFields(Layered(layers, fields)) == Some(fields)
  {
    if layers != [] {
      LayeredHolds(layers[1..], fields);
    }
  }

  lemma {:induction false} LayersOf(t: BindingType) returns (layers: seq<Layer>)
    requires ObjectFields(t).Some?
    ensures t == Layered(layers, ObjectFields(t).value)
  {
    match t
    case Object(_) => layers := [];
    case List(item) =>
      var inner := LayersOf(item);
      layers := [OfList] + inner;
    case Set(item) =>
      var inner := LayersOf(item);
      layers := [OfSet] + inner;
    case Map(item) =>
      var inner := LayersOf(item);
      layers := [OfMap] + inner;
  }

  /** The record behind a type is the one inside its collections. */
  lemma ObjectFieldsSpec(t: BindingType, fields: seq<BindingField>)
    ensures ObjectFields(t) == Some(fields) <==> HoldsRecord(t, fields)
  {
    if ObjectFields(t) == Some(fields) {
      var layers := LayersOf(t);
    }
    if layers :| t == Layered(layers, fields) {
      LayeredHolds(layers, fields);
    }
  }

  /** A field that takes arguments of its own: one to be given, of a record or of one list, set or
      map of records. */
  ghost predicate TakesArguments(f: BindingField) {
    && (f.required || f.optional)
    && (f.fieldType.Object?
        || ((f.fieldType.List? || f.fieldType.Set? || f.fieldType.Map?) && f.fieldType.item.Object?))
  }

  /** The fields of `chain`, each of the record the one before holds, lead to the record `inner`. */
  ghost predicate Leads(fields: seq<BindingField>, chain: seq<BindingField>, inner: seq<BindingField>)
    decreases |chain|
  {
    if chain == [] then inner == fields
    else exists middle ::
        chain[0] in fields && HoldsRecord(chain[0].fieldType, middle) && Leads(middle, chain[1..], inner)
  }

  ghost function PublicNames(chain: seq<BindingField>): seq<string> {
    seq(|chain|, i requires 0 <= i < |chain| => chain[i].publicName)
  }

  /** Met at the end of a chain from a record at `path`: its shape has a builder exactly when the
      record has one and every field of the chain takes arguments. */
  ghost predicate MetAlong(
    fields: seq<BindingField>, path: seq<string>, builder: bool, chain: seq<BindingField>, o: Occurrence)
  {
    && chain != [] && Leads(fields, chain, o.shape.fields)
    && o.path == path + PublicNames(chain)
    && (o.shape.builder <==> builder && forall f :: f in chain ==> TakesArguments(f))
  }

  lemma BuilderOf(field: BindingField, builder: bool)
    requires ObjectFields(field.fieldType).Some?
    ensures ShapeOf(field, builder).builder <==> builder && TakesArguments(field)
  {
  }

  lemma LongerChain(
    fields: seq<BindingField>, path: seq<string>, builder: bool, field: BindingField, chain: seq<BindingField>,
    o: Occurrence)
    requires field in fields && ObjectFields(field.fieldType).Some?
    requires var shape := ShapeOf(field, builder);
             MetAlong(shape.fields, path + [field.publicName], shape.builder, chain, o)
    ensures MetAlong(fields, path, builder, [field] + chain, o)
  {
    var longer, middle := [field] + chain, ShapeOf(field, builder).fields;
    ObjectFieldsSpec(field.fieldType, middle);
    BuilderOf(field, builder);
    assert longer[1..] == chain;
    assert Leads(fields, longer, o.shape.fields);
    assert PublicNames(longer) == [field.publicName] + PublicNames(chain);
    assert forall f :: f in longer <==> f == field || f in chain;
  }

  lemma OneFieldChain(fields: seq<BindingField>, path: seq<string>, builder: bool, field: BindingField)
    requires field in fields && ObjectFields(field.fieldType).Some?
    ensures MetAlong(
              fields, path, builder, [field], Occurrence(path + [field.publicName], ShapeOf(field, builder)))
  {
    var shape := ShapeOf(field, builder);
    ObjectFieldsSpec(field.fieldType, shape.fields);
    BuilderOf(field, builder);
    assert [field][1..] == [];
    assert Leads(shape.fields, [], shape.fields);
    assert Leads(fields, [field], shape.fields);
    assert PublicNames([field]) == [field.publicName];
  }

  /** Whatever is met is met along a chain. */
  lemma {:induction false} ChainTo(fields: seq<BindingField>, path: seq<string>, builder: bool, o: Occurrence)
    returns (chain: seq<BindingField>)
    requires o in Walk(fields, path, builder)
    ensures MetAlong(fields, path, builder, chain, o)
    decreases fields
  {
    var last := |fields| - 1;
    var field := fields[last];
    if o in Walk(fields[..last], path, builder) {
      chain := ChainTo(fields[..last], path, builder, o);
      WiderRecord(fields[..last], fields, path, builder, chain, o);
    } else {
      var shape := ShapeOf(field, builder);
      var below := path + [field.publicName];
      if o == Occurrence(below, shape) {
        OneFieldChain(fields, path, builder, field);
        chain := [field];
      } else {
        var rest := ChainTo(shape.fields, below, shape.builder, o);
        LongerChain(fields, path, builder, field, rest, o);
        chain := [field] + rest;
      }
    }
  }

  lemma WiderRecord(
    fields: seq<BindingField>, wider: seq<BindingField>, path: seq<string>, builder: bool,
    chain: seq<BindingField>, o: Occurrence)
    requires MetAlong(fields, path, builder, chain, o) && forall f :: f in fields ==> f in wider
    ensures MetAlong(wider, path, builder, chain, o)
  {
    var middle :| chain[0] in fields && HoldsRecord(chain[0].fieldType, middle)
                  && Leads(middle, chain[1..], o.shape.fields);
    assert Leads(wider, chain, o.shape.fields);
  }

  lemma {:induction false} VisitsAreMet(
    fields: seq<BindingField>, path: seq<string>, builder: bool, field: BindingField, o: Occurrence)
    requires field in fields && o in Visits(field, path, builder)
    ensures o in Walk(fields, path, builder)
    decreases |fields|
  {
    var last := |fields| - 1;
    assert fields == fields[..last] + [fields[last]];
    if field in fields[..last] {
      VisitsAreMet(fields[..last], path, builder, field, o);
    }
  }

  /** The end of every chain is met. */
  lemma {:induction false} ChainIsMet(
    fields: seq<BindingField>, path: seq<string>, builder: bool, chain: seq<BindingField>, o: Occurrence)
    requires MetAlong(fields, path, builder, chain, o)
    ensures o in Walk(fields, path, builder)
    decreases |chain|
  {
    var field, rest := chain[0], chain[1..];
    var middle :| field in fields && HoldsRecord(field.fieldType, middle) && Leads(middle, rest, o.shape.fields);
    ObjectFieldsSpec(field.fieldType, middle);
    BuilderOf(field, builder);
    var shape := ShapeOf(field, builder);
    assert chain == [field] + rest;
    assert PublicNames(chain) == [field.publicName] + PublicNames(rest);
    if rest == [] {
      assert o == Occurrence(path + [field.publicName], shape);
    } else {
      assert MetAlong(middle, path + [field.publicName], shape.builder, rest, o);
      ChainIsMet(middle, path + [field.publicName], shape.builder, rest, o);
    }
    VisitsAreMet(fields, path, builder, field, o);
  }

  /** A walk over a record meets exactly the ends of the chains of fields from it: at the public
      names of the chain, with the record it leads to, and with a builder if and only if the
      record has one and every field of the chain takes arguments. */
  lemma MetIffChain(fields: seq<BindingField>, path: seq<string>, builder: bool, o: Occurrence)
    ensures o in Walk(fields, path, builder) <==> exists chain :: MetAlong(fields, path, builder, chain, o)
  {
    if o in Walk(fields, path, builder) {
      var chain := ChainTo(fields, path, builder, o);
    }
    if chain :| MetAlong(fields, path, builder, chain, o) {
      ChainIsMet(fields, path, builder, chain, o);
    }
  }

  ghost predicate AreTheMet(fields: seq<BindingField>, path: seq<string>, builder: bool, met: seq<Occurrence>) {
    forall o :: o in met <==> exists chain :: MetAlong(fields, path, builder, chain, o)
  }

  lemma WalkIsTheMet(fields: seq<BindingField>, path: seq<string>, builder: bool)
    ensures AreTheMet(fields, path, builder, Walk(fields, path, builder))
  {
    forall o { MetIffChain(fields, path, builder, o); }
  }

  lemma VisitsAreTheMet(field: BindingField, path: seq<string>, builder: bool)
    ensures AreTheMet([field], path, builder, Visits(field, path, builder))
  {
    WalkIsTheMet([field], path, builder);
    assert [field][..0] == [];
    assert Walk([field], path, builder) == Visits(field, path, builder);
  }

  lemma VisitedIsMet(
    before: seq<Occurrence>, after: seq<Occurrence>, field: BindingField, path: seq<string>, builder: bool)
    requires after == before + Visits(field, path, builder)
    ensures AreTheMet([field], path, builder, after[|before|..])
  {
    VisitsAreTheMet(field, path, builder);
  }

  lemma NothingMet(field: BindingField, path: seq<string>, builder: bool)
    requires ObjectFields(field.fieldType).None?
    ensures AreTheMet([field], path, builder, [])
  {
    VisitsAreTheMet(field, path, builder);
  }
}
