/** What a walk over an item's object fields meets, in the order it finishes them. */
module ShapeWalks {
  import opened Bindings

  /** What nested types are shared by: the field list, and whether it gets a builder. */
  datatype Shape = Shape(builder: bool, fields: seq<BindingField>)

  datatype Occurrence = Occurrence(path: seq<string>, shape: Shape)

  /** The shape behind an object field of a record. Only an input block reached through input
      blocks gets a builder. */
  function ShapeOf(field: BindingField, builder: bool): (shape: Shape)
    requires ObjectFields(field.fieldType).Some?
    ensures field decreases to shape.fields
  {
    Shape(builder && IsInput(field) && Nested(field.fieldType), ObjectFields(field.fieldType).value)
  }

  /** The occurrences below one field: those of its children, then its own. */
  ghost function Visits(field: BindingField, path: seq<string>, builder: bool): seq<Occurrence>
    decreases field
  {
    match ObjectFields(field.fieldType)
    case None => []
    case Some(fields) =>
      var shape := ShapeOf(field, builder);
      var below := path + [field.publicName];
      Walk(shape.fields, below, shape.builder) + [Occurrence(below, shape)]
  }

  ghost function Walk(fields: seq<BindingField>, path: seq<string>, builder: bool): seq<Occurrence>
    decreases fields
  {
    if fields == [] then []
    else
      var last := |fields| - 1;
      Walk(fields[..last], path, builder) + Visits(fields[last], path, builder)
  }

  /** How many paths of objects there are below a field list. */
  ghost function ObjectPaths(fields: seq<BindingField>): nat
    decreases fields
  {
    if fields == [] then 0
    else
      var field := fields[|fields| - 1];
      ObjectPaths(fields[..|fields| - 1]) +
      match ObjectFields(field.fieldType)
      case None => 0
      case Some(below) => ObjectPaths(below) + 1
  }

  lemma {:induction false} WalkLength(fields: seq<BindingField>, path: seq<string>, builder: bool)
    ensures |Walk(fields, path, builder)| == ObjectPaths(fields)
    decreases fields
  {
    if fields != [] {
      var last := |fields| - 1;
      var field := fields[last];
      WalkLength(fields[..last], path, builder);
      if ObjectFields(field.fieldType).Some? {
        var shape := ShapeOf(field, builder);
        WalkLength(shape.fields, path + [field.publicName], shape.builder);
      }
    }
  }

  /** A log that grew by a walk and then by the next field's visits. */
  lemma WalkStep(
    before: seq<Occurrence>, after: seq<Occurrence>,
    fields: seq<BindingField>, path: seq<string>, builder: bool, next: nat)
    requires next < |fields|
    requires after == before + Walk(fields[..next], path, builder) + Visits(fields[next], path, builder)
    ensures after == before + Walk(fields[..next + 1], path, builder)
  {
    assert fields[..next + 1][..next] == fields[..next];
  }

  /** A log that grew by what is inside a field and then by the field itself. */
  lemma VisitsStep(
    before: seq<Occurrence>, after: seq<Occurrence>, field: BindingField, path: seq<string>, builder: bool)
    requires ObjectFields(field.fieldType).Some?
    requires var shape, below := ShapeOf(field, builder), path + [field.publicName];
             after == before + Walk(shape.fields, below, shape.builder) + [Occurrence(below, shape)]
    ensures after == before + Visits(field, path, builder)
  {
  }

  /** Every object field of a walked list is met. */
  lemma {:induction false} FieldIsMet(fields: seq<BindingField>, path: seq<string>, builder: bool, at: nat)
    requires at < |fields| && ObjectFields(fields[at].fieldType).Some?
    ensures Occurrence(path + [fields[at].publicName], ShapeOf(fields[at], builder)) in Walk(fields, path, builder)
    decreases |fields|
  {
    var last := |fields| - 1;
    if at < last {
      FieldIsMet(fields[..last], path, builder, at);
    }
  }

  /** Just before position `at` of a log come the visits of the children of what is there. */
  ghost predicate ChildrenJustBefore(log: seq<Occurrence>, at: nat)
    requires at < |log|
  {
    var below := Walk(log[at].shape.fields, log[at].path, log[at].shape.builder);
    |below| <= at && log[at - |below|..at] == below
  }

  lemma StaysJustBefore(a: seq<Occurrence>, b: seq<Occurrence>, at: nat)
    ensures at < |a| && ChildrenJustBefore(a, at) ==> ChildrenJustBefore(a + b, at)
    ensures at < |b| && ChildrenJustBefore(b, at) ==> ChildrenJustBefore(a + b, |a| + at)
  {
    if at < |a| && ChildrenJustBefore(a, at) {
      var below := Walk(a[at].shape.fields, a[at].path, a[at].shape.builder);
      assert (a + b)[at - |below|..at] == a[at - |below|..at];
    }
    if at < |b| && ChildrenJustBefore(b, at) {
      var below := Walk(b[at].shape.fields, b[at].path, b[at].shape.builder);
      assert (a + b)[|a| + at - |below|..|a| + at] == b[at - |below|..at];
    }
  }

  lemma {:induction false} VisitsComeJustBefore(field: BindingField, path: seq<string>, builder: bool, at: nat)
    requires at < |Visits(field, path, builder)|
    ensures ChildrenJustBefore(Visits(field, path, builder), at)
    decreases field
  {
    var shape := ShapeOf(field, builder);
    var own := Occurrence(path + [field.publicName], shape);
    var children := Walk(shape.fields, own.path, shape.builder);
    if at < |children| {
      ChildrenComeJustBefore(shape.fields, own.path, shape.builder, at);
      StaysJustBefore(children, [own], at);
    } else {
      assert (children + [own])[..at] == children;
    }
  }

  /** Whatever a walk meets, it met the object fields inside just before. */
  lemma {:induction false} ChildrenComeJustBefore(fields: seq<BindingField>, path: seq<string>, builder: bool, at: nat)
    requires at < |Walk(fields, path, builder)|
    ensures ChildrenJustBefore(Walk(fields, path, builder), at)
    decreases fields
  {
    var last := |fields| - 1;
    var init, visits := Walk(fields[..last], path, builder), Visits(fields[last], path, builder);
    if at < |init| {
      ChildrenComeJustBefore(fields[..last], path, builder, at);
      StaysJustBefore(init, visits, at);
    } else {
      VisitsComeJustBefore(fields[last], path, builder, at - |init|);
      StaysJustBefore(init, visits, at - |init|);
    }
  }

  /** Every object field of a shape is met, one step further, before the shape itself. */
  lemma ChildIsMetBefore(fields: seq<BindingField>, path: seq<string>, builder: bool, at: nat, child: BindingField)
    requires at < |Walk(fields, path, builder)|
    requires child in Walk(fields, path, builder)[at].shape.fields && ObjectFields(child.fieldType).Some?
    ensures var log := Walk(fields, path, builder);
            Occurrence(log[at].path + [child.publicName], ShapeOf(child, log[at].shape.builder)) in log[..at]
  {
    var log := Walk(fields, path, builder);
    var met := log[at];
    var below := Walk(met.shape.fields, met.path, met.shape.builder);
    ChildrenComeJustBefore(fields, path, builder, at);
    var i :| 0 <= i < |met.shape.fields| && met.shape.fields[i] == child;
    FieldIsMet(met.shape.fields, met.path, met.shape.builder, i);
    assert log[..at] == log[..at - |below|] + below;
  }
}
