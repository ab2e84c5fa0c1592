/** What rendering may rely on once the shapes of an item are collected. */
module ShapeSharing {
  import opened Wrappers
  import opened Bindings
  import opened ShapeWalks
  import opened ShapeLogs
  import opened Shapes

  /** The state `Collect` leaves for a field list. */
  ghost predicate Collected(shapes: Shapes, fields: seq<BindingField>)
    reads shapes
  {
    shapes.Valid() && shapes.log == Walk(fields, [], true)
  }

  /** A record that is rendered: the item itself or one of the shared shapes. */
  ghost predicate IsRecord(shapes: Shapes, fields: seq<BindingField>, node: nat, shape: Shape)
    reads shapes
  {
    || (node == ROOT && shape == Shape(true, fields))
    || (exists i :: 0 <= i < |shapes.entries| && shapes.entries[i].node == node && shapes.entries[i].Key() == shape)
  }

  lemma EntrySeen(shapes: Shapes, fields: seq<BindingField>, i: nat) returns (at: nat)
    requires Collected(shapes, fields) && i < |shapes.entries|
    ensures at < |shapes.log| && |FirstSeen(shapes.log)| == |shapes.entries|
    ensures shapes.log[at] == Occurrence(shapes.entries[i].path, shapes.entries[i].Key())
    ensures FirstSeen(shapes.log[..at]) == FirstSeen(shapes.log)[..i]
  {
    OneEntryEach(shapes.entries, shapes.byFields, shapes.log);
    assert IsEntry(shapes.entries, shapes.log, i);
    at := FirstSeenWhere(shapes.log, i);
  }

  /** The object fields of a rendered record were met one step below the record's node. */
  lemma RecordFieldMet(shapes: Shapes, fields: seq<BindingField>, node: nat, shape: Shape, field: BindingField)
    requires Collected(shapes, fields) && IsRecord(shapes, fields, node, shape)
    requires field in shape.fields && ObjectFields(field.fieldType).Some?
    ensures node < |shapes.paths|
    ensures Occurrence(shapes.paths[node] + [field.publicName], ShapeOf(field, shape.builder)) in shapes.log
  {
    if node == ROOT && shape == Shape(true, fields) {
      var i :| 0 <= i < |fields| && fields[i] == field;
      FieldIsMet(fields, [], true, i);
    } else {
      var i :| 0 <= i < |shapes.entries| && shapes.entries[i].node == node && shapes.entries[i].Key() == shape;
      assert IsNode(shapes.entries, shapes.paths, i);
      var at := EntrySeen(shapes, fields, i);
      ChildIsMetBefore(fields, [], true, at, field);
    }
  }

  /** What a lookup at a path answers: the entry of the shape last met there. */
  lemma FindsLastMet(shapes: Shapes, node: nat, field: BindingField, met: Shape)
    requires shapes.Valid() && node < |shapes.paths|
    requires Occurrence(shapes.paths[node] + [field.publicName], met) in shapes.log
    ensures var last := LastAt(shapes.log, shapes.paths[node] + [field.publicName]);
            last.Some? && last.value in shapes.byFields
            && shapes.byFields[last.value] < |shapes.entries|
            && shapes.entries[shapes.byFields[last.value]].Key() == last.value
            && shapes.Find(node, field) == Some(shapes.byFields[last.value])
  {
    var below := shapes.paths[node] + [field.publicName];
    var edge := Edge(node, field.publicName);
    var i :| 0 <= i < |shapes.log| && shapes.log[i] == Occurrence(below, met);
    assert IsKnown(shapes.log, shapes.paths, i);
    PathHasEdge(shapes.children, shapes.paths, node, field.publicName);
    assert LeadsBelow(shapes.children, shapes.paths, edge);
    assert IsDeclared(shapes.declared, shapes.byFields, shapes.log, shapes.paths, shapes.children[edge]);
    LastAtSpec(shapes.log, below);
    var last := LastAt(shapes.log, below).value;
    var j :| 0 <= j < |shapes.log| && shapes.log[j] == Occurrence(below, last);
    assert HasShape(shapes.log, last);
    assert IsIndexed(shapes.entries, shapes.byFields, shapes.log, last);
  }

  /** The lookup a renderer makes for an object field never fails, whatever the schema. */
  lemma LookupNeverFails(shapes: Shapes, fields: seq<BindingField>, node: nat, shape: Shape, field: BindingField)
    requires Collected(shapes, fields) && IsRecord(shapes, fields, node, shape)
    requires field in shape.fields && ObjectFields(field.fieldType).Some?
    ensures shapes.Find(node, field).Some? && shapes.Find(node, field).value < |shapes.entries|
  {
    RecordFieldMet(shapes, fields, node, shape, field);
    FindsLastMet(shapes, node, field, ShapeOf(field, shape.builder));
  }

  /** Two object fields of one record with the same public name have the same shape. */
  ghost predicate SiblingsAgree(shape: Shape) {
    forall f, g :: f in shape.fields && g in shape.fields
                   && ObjectFields(f.fieldType).Some? && ObjectFields(g.fieldType).Some?
                   && f.publicName == g.publicName ==>
                     ShapeOf(f, shape.builder) == ShapeOf(g, shape.builder)
  }

  /** Siblings agree in the item and in every record below it. */
  ghost predicate Coherent(fields: seq<BindingField>) {
    && SiblingsAgree(Shape(true, fields))
    && (forall o :: o in Walk(fields, [], true) ==> SiblingsAgree(o.shape))
  }

  /** A lookup answers with the field's own field list and builder flag. */
  ghost predicate LookupIsRight(shapes: Shapes, node: nat, shape: Shape, field: BindingField)
    requires ObjectFields(field.fieldType).Some?
    reads shapes
  {
    var found := shapes.Find(node, field);
    found.Some? && found.value < |shapes.entries| && shapes.entries[found.value].Key() == ShapeOf(field, shape.builder)
  }

  ghost predicate LookupsAreRight(shapes: Shapes, fields: seq<BindingField>)
    reads shapes
  {
    forall node, shape, field ::
      IsRecord(shapes, fields, node, shape) && field in shape.fields && ObjectFields(field.fieldType).Some? ==>
        LookupIsRight(shapes, node, shape, field)
  }

  ghost predicate ComesFrom(o: Occurrence, path: seq<string>, shape: Shape) {
    exists f :: f in shape.fields && ObjectFields(f.fieldType).Some?
                && o == Occurrence(path + [f.publicName], ShapeOf(f, shape.builder))
  }

  ghost predicate HasOrigin(log: seq<Occurrence>, o: Occurrence, path: seq<string>, shape: Shape) {
    ComesFrom(o, path, shape) || exists p :: p in log && ComesFrom(o, p.path, p.shape)
  }

  lemma OriginStays(
    a: seq<Occurrence>, b: seq<Occurrence>, o: Occurrence, path: seq<string>, shape: Shape, wider: Shape)
    requires HasOrigin(a, o, path, shape)
    requires forall f :: f in shape.fields ==> f in wider.fields
    requires shape.builder == wider.builder
    requires forall p :: p in a ==> p in b
    ensures HasOrigin(b, o, path, wider)
  {
    if ComesFrom(o, path, shape) {
      assert ComesFrom(o, path, wider);
    }
  }

  /** Everything a walk meets is a field of the walked record or of a shape met. */
  lemma {:induction false} Origins(fields: seq<BindingField>, path: seq<string>, builder: bool, o: Occurrence)
    requires o in Walk(fields, path, builder)
    ensures HasOrigin(Walk(fields, path, builder), o, path, Shape(builder, fields))
    decreases fields
  {
    var last := |fields| - 1;
    var field := fields[last];
    var init, visits := Walk(fields[..last], path, builder), Visits(field, path, builder);
    assert fields == fields[..last] + [field];
    if o in init {
      Origins(fields[..last], path, builder, o);
      OriginStays(init, init + visits, o, path, Shape(builder, fields[..last]), Shape(builder, fields));
    } else {
      var own := Occurrence(path + [field.publicName], ShapeOf(field, builder));
      assert field in fields;
      if o == own {
        assert ComesFrom(o, path, Shape(builder, fields));
      } else {
        var children := Walk(own.shape.fields, own.path, own.shape.builder);
        Origins(own.shape.fields, own.path, own.shape.builder, o);
        assert own in init + visits;
        if !ComesFrom(o, own.path, own.shape) {
          var p :| p in children && ComesFrom(o, p.path, p.shape);
          assert p in init + visits;
        }
      }
    }
  }

  /** When siblings agree, a path determines the shape met there. */
  lemma {:induction false} PathDecidesShape(fields: seq<BindingField>, a: Occurrence, b: Occurrence)
    requires Coherent(fields) && a.path == b.path
    requires a in Walk(fields, [], true) && b in Walk(fields, [], true)
    ensures a.shape == b.shape
    decreases |a.path|
  {
    var root := Occurrence([], Shape(true, fields));
    Origins(fields, [], true, a);
    Origins(fields, [], true, b);
    var parentOfA := if ComesFrom(a, [], root.shape) then root
                     else var p :| p in Walk(fields, [], true) && ComesFrom(a, p.path, p.shape); p;
    var parentOfB := if ComesFrom(b, [], root.shape) then root
                     else var p :| p in Walk(fields, [], true) && ComesFrom(b, p.path, p.shape); p;
    SameParent(a, parentOfA, b, parentOfB);
    if parentOfA != root && parentOfB != root {
      PathDecidesShape(fields, parentOfA, parentOfB);
    } else {
      WalkPaths(fields, parentOfA);
      WalkPaths(fields, parentOfB);
    }
    SameShape(a, b, parentOfA.path, parentOfA.shape);
  }

  lemma SameParent(a: Occurrence, p: Occurrence, b: Occurrence, q: Occurrence)
    requires ComesFrom(a, p.path, p.shape) && ComesFrom(b, q.path, q.shape) && a.path == b.path
    ensures p.path == q.path && |p.path| < |a.path|
  {
    assert a.path[..|a.path| - 1] == p.path;
    assert b.path[..|b.path| - 1] == q.path;
  }

  lemma SameShape(a: Occurrence, b: Occurrence, path: seq<string>, shape: Shape)
    requires ComesFrom(a, path, shape) && ComesFrom(b, path, shape) && a.path == b.path && SiblingsAgree(shape)
    ensures a.shape == b.shape
  {
    var f :| f in shape.fields && ObjectFields(f.fieldType).Some?
             && a == Occurrence(path + [f.publicName], ShapeOf(f, shape.builder));
    var g :| g in shape.fields && ObjectFields(g.fieldType).Some?
             && b == Occurrence(path + [g.publicName], ShapeOf(g, shape.builder));
    assert a.path[|path|] == f.publicName && b.path[|path|] == g.publicName;
  }

  /** Nothing is met at the item's own, empty path. */
  lemma WalkPaths(fields: seq<BindingField>, o: Occurrence)
    ensures o in Walk(fields, [], true) ==> o.path != []
  {
    if o in Walk(fields, [], true) {
      Origins(fields, [], true, o);
    }
  }

  lemma CoherentLookupIsRight(shapes: Shapes, fields: seq<BindingField>, node: nat, shape: Shape, field: BindingField)
    requires Collected(shapes, fields) && IsRecord(shapes, fields, node, shape) && Coherent(fields)
    requires field in shape.fields && ObjectFields(field.fieldType).Some?
    ensures LookupIsRight(shapes, node, shape, field)
  {
    RecordFieldMet(shapes, fields, node, shape, field);
    var own := ShapeOf(field, shape.builder);
    var below := shapes.paths[node] + [field.publicName];
    FindsLastMet(shapes, node, field, own);
    LastAtSpec(shapes.log, below);
    PathDecidesShape(fields, Occurrence(below, own), Occurrence(below, LastAt(shapes.log, below).value));
  }

  /** Every shape met is a record that is rendered. */
  lemma MetIsRecord(shapes: Shapes, fields: seq<BindingField>, o: Occurrence) returns (node: nat)
    requires Collected(shapes, fields) && o in shapes.log
    ensures IsRecord(shapes, fields, node, o.shape)
  {
    var i :| 0 <= i < |shapes.log| && shapes.log[i] == o;
    assert HasShape(shapes.log, o.shape);
    assert IsIndexed(shapes.entries, shapes.byFields, shapes.log, o.shape);
    var index := shapes.byFields[o.shape];
    node := shapes.entries[index].node;
    assert shapes.entries[index].Key() == o.shape;
  }

  lemma RightLookupsAgree(shapes: Shapes, fields: seq<BindingField>, node: nat, shape: Shape)
    requires Collected(shapes, fields) && IsRecord(shapes, fields, node, shape)
    requires LookupsAreRight(shapes, fields)
    ensures SiblingsAgree(shape)
  {
    forall f, g | f in shape.fields && g in shape.fields && f.publicName == g.publicName
                  && ObjectFields(f.fieldType).Some? && ObjectFields(g.fieldType).Some?
      ensures ShapeOf(f, shape.builder) == ShapeOf(g, shape.builder)
    {
      assert LookupIsRight(shapes, node, shape, f) && LookupIsRight(shapes, node, shape, g);
      assert shapes.Find(node, f) == shapes.Find(node, g);
    }
  }

  /** Rendering finds every object field's own field list and builder flag exactly when
      same-named object fields of one record always have the same shape. */
  lemma LookupsAreRightIffCoherent(shapes: Shapes, fields: seq<BindingField>)
    requires Collected(shapes, fields)
    ensures LookupsAreRight(shapes, fields) <==> Coherent(fields)
  {
    if Coherent(fields) {
      forall node, shape, field | IsRecord(shapes, fields, node, shape)
                                  && field in shape.fields && ObjectFields(field.fieldType).Some?
        ensures LookupIsRight(shapes, node, shape, field)
      {
        CoherentLookupIsRight(shapes, fields, node, shape, field);
      }
    }
    if LookupsAreRight(shapes, fields) {
      assert IsRecord(shapes, fields, ROOT, Shape(true, fields));
      RightLookupsAgree(shapes, fields, ROOT, Shape(true, fields));
      forall o | o in shapes.log
        ensures SiblingsAgree(o.shape)
      {
        var node := MetIsRecord(shapes, fields, o);
        RightLookupsAgree(shapes, fields, node, o.shape);
      }
    }
  }

  /** No two object fields of one record share a public name. */
  ghost predicate DistinctNames(shape: Shape) {
    forall i, j :: 0 <= i < j < |shape.fields|
                   && ObjectFields(shape.fields[i].fieldType).Some? && ObjectFields(shape.fields[j].fieldType).Some? ==>
                     shape.fields[i].publicName != shape.fields[j].publicName
  }

  /** Distinct public names throughout are enough. */
  lemma DistinctNamesSuffice(shapes: Shapes, fields: seq<BindingField>)
    requires Collected(shapes, fields)
    requires DistinctNames(Shape(true, fields))
    requires forall o :: o in Walk(fields, [], true) ==> DistinctNames(o.shape)
    ensures LookupsAreRight(shapes, fields)
  {
    DistinctSiblingsAgree(Shape(true, fields));
    forall o | o in Walk(fields, [], true)
      ensures SiblingsAgree(o.shape)
    {
      DistinctSiblingsAgree(o.shape);
    }
    LookupsAreRightIffCoherent(shapes, fields);
  }

  lemma DistinctSiblingsAgree(shape: Shape)
    requires DistinctNames(shape)
    ensures SiblingsAgree(shape)
  {
    forall f, g | f in shape.fields && g in shape.fields && f.publicName == g.publicName
                  && ObjectFields(f.fieldType).Some? && ObjectFields(g.fieldType).Some?
      ensures ShapeOf(f, shape.builder) == ShapeOf(g, shape.builder)
    {
      var i :| 0 <= i < |shape.fields| && shape.fields[i] == f;
      var j :| 0 <= j < |shape.fields| && shape.fields[j] == g;
    }
  }

  /** Two same-named siblings with different field lists: one of them is looked up wrongly. */
  lemma ClashingSiblingsMisread(shapes: Shapes, f: BindingField, g: BindingField)
    requires Collected(shapes, [f, g]) && f.publicName == g.publicName
    requires f.fieldType.Object? && g.fieldType.Object? && f.fieldType.fields != g.fieldType.fields
    ensures !LookupsAreRight(shapes, [f, g])
  {
    LookupsAreRightIffCoherent(shapes, [f, g]);
    var root := Shape(true, [f, g]);
    assert f in root.fields && g in root.fields;
    assert ShapeOf(f, true) != ShapeOf(g, true);
  }

  /** The shapes inside an entry are entries before it, so a parent can refer to its children. */
  lemma ChildrenComeFirst(shapes: Shapes, fields: seq<BindingField>, i: nat, field: BindingField)
    requires Collected(shapes, fields) && i < |shapes.entries|
    requires field in shapes.entries[i].fields && ObjectFields(field.fieldType).Some?
    ensures var child := ShapeOf(field, shapes.entries[i].builder);
            child in shapes.byFields && shapes.byFields[child] < i
            && shapes.entries[shapes.byFields[child]].Key() == child
  {
    var child := ShapeOf(field, shapes.entries[i].builder);
    var at := EntrySeen(shapes, fields, i);
    ChildIsMetBefore(fields, [], true, at, field);
    var k :| 0 <= k < |shapes.log[..at]| && shapes.log[..at][k].shape == child;
    assert HasShape(shapes.log[..at], child) && HasShape(shapes.log, child) by {
      assert shapes.log[k].shape == child;
    }
    FirstSeenShapes(shapes.log[..at]);
    var j :| 0 <= j < |FirstSeen(shapes.log[..at])| && FirstSeen(shapes.log[..at])[j].shape == child;
    assert FirstSeen(shapes.log)[j].shape == child;
    FirstSeenShapes(shapes.log);
    assert IsIndexed(shapes.entries, shapes.byFields, shapes.log, child);
    var index := shapes.byFields[child];
    assert IsEntry(shapes.entries, shapes.log, index);
    assert FirstSeen(shapes.log)[index].shape == child;
  }

  /** No two entries share both builder flag and field list. */
  lemma EntriesAreDistinct(shapes: Shapes, i: nat, j: nat)
    requires shapes.Valid() && i < j < |shapes.entries|
    ensures shapes.entries[i].Key() != shapes.entries[j].Key()
  {
    assert IsEntry(shapes.entries, shapes.log, i) && IsEntry(shapes.entries, shapes.log, j);
    FirstSeenShapes(shapes.log);
    assert FirstSeen(shapes.log)[i].shape != FirstSeen(shapes.log)[j].shape;
  }

  ghost function Occurrences(entries: seq<NestedType>): nat {
    if entries == [] then 0
    else Occurrences(entries[..|entries| - 1]) + entries[|entries| - 1].occurrences
  }

  lemma {:induction false} OccurrencesAreTotal(entries: seq<NestedType>, seen: seq<Occurrence>, log: seq<Occurrence>)
    requires |entries| == |seen|
    requires forall i :: 0 <= i < |entries| ==> entries[i].occurrences == Count(log, seen[i].shape)
    ensures Occurrences(entries) == Total(seen, log)
  {
    if entries != [] {
      OccurrencesAreTotal(entries[..|entries| - 1], seen[..|seen| - 1], log);
    }
  }

  /** Every path of objects is counted by one entry. */
  lemma OccurrencesAreThePaths(shapes: Shapes, fields: seq<BindingField>)
    requires Collected(shapes, fields)
    ensures Occurrences(shapes.entries) == ObjectPaths(fields)
  {
    var seen := FirstSeen(shapes.log);
    OneEntryEach(shapes.entries, shapes.byFields, shapes.log);
    forall i | 0 <= i < |shapes.entries|
      ensures shapes.entries[i].occurrences == Count(shapes.log, seen[i].shape)
    {
      assert IsEntry(shapes.entries, shapes.log, i);
    }
    OccurrencesAreTotal(shapes.entries, seen, shapes.log);
    CountsAddUp(shapes.log);
    WalkLength(fields, [], true);
  }
}
