/** The nested types of one module with structural sharing. */
module Shapes {
  import opened Wrappers
  import opened Bindings
  import opened ShapeWalks
  import opened ShapeLogs
  import opened ShapeChains

  /** One shared nested type: where its shape first occurs and how many paths share it. */
  datatype NestedType = NestedType(
    path: seq<string>,
    node: nat,
    fields: seq<BindingField>,
    builder: bool,
    occurrences: nat
  ) {
    function Key(): Shape {
      Shape(builder, fields)
    }
  }

  /** The trie edge that leads from a node over a field's public name. */
  datatype Edge = Edge(parent: nat, segment: string)

  const ROOT: nat := 0

  /** `paths` says which path each node stands for: the root the empty one, every other node its
      parent's path and one name more, and no two nodes the same. */
  ghost predicate IsTrie(children: map<Edge, nat>, paths: seq<seq<string>>) {
    && |paths| > 0 && paths[ROOT] == []
    && (forall m, n :: Differ(paths, m, n))
    && (forall e :: LeadsBelow(children, paths, e))
    && (forall m :: HasEdge(children, paths, m))
  }

  ghost predicate Differ(paths: seq<seq<string>>, m: nat, n: nat) {
    m < |paths| && n < |paths| && m != n ==> paths[m] != paths[n]
  }

  ghost predicate LeadsBelow(children: map<Edge, nat>, paths: seq<seq<string>>, e: Edge) {
    e in children ==>
      e.parent < |paths| && children[e] < |paths| && paths[children[e]] == paths[e.parent] + [e.segment]
  }

  ghost predicate HasEdge(children: map<Edge, nat>, paths: seq<seq<string>>, m: nat) {
    0 < m < |paths| ==> m in children.Values
  }

  lemma PathHasEdge(children: map<Edge, nat>, paths: seq<seq<string>>, parent: nat, segment: string)
    requires IsTrie(children, paths) && parent < |paths|
    ensures Edge(parent, segment) in children <==> paths[parent] + [segment] in paths
  {
    var below := paths[parent] + [segment];
    assert LeadsBelow(children, paths, Edge(parent, segment));
    if below in paths {
      var m :| 0 <= m < |paths| && paths[m] == below;
      assert HasEdge(children, paths, m);
      var e :| e in children && children[e] == m;
      assert LeadsBelow(children, paths, e);
      assert below[..|below| - 1] == paths[parent] && below[|below| - 1] == segment;
      assert paths[m][..|paths[m]| - 1] == paths[e.parent];
      assert Differ(paths, parent, e.parent);
    }
  }

  lemma TrieGrows(children: map<Edge, nat>, paths: seq<seq<string>>, parent: nat, segment: string)
    requires IsTrie(children, paths) && parent < |paths| && Edge(parent, segment) !in children
    ensures IsTrie(children[Edge(parent, segment) := |paths|], paths + [paths[parent] + [segment]])
  {
    var below := paths[parent] + [segment];
    var grown, longer := children[Edge(parent, segment) := |paths|], paths + [below];
    PathHasEdge(children, paths, parent, segment);
    forall m: nat, n: nat
      ensures Differ(longer, m, n)
    {
      assert Differ(paths, m, n);
    }
    forall e
      ensures LeadsBelow(grown, longer, e)
    {
      assert LeadsBelow(children, paths, e);
    }
    forall m: nat
      ensures HasEdge(grown, longer, m)
    {
      assert HasEdge(children, paths, m);
      if 0 < m < |paths| {
        var e :| e in children && children[e] == m;
        assert e in grown && grown[e] == m;
      } else if m == |paths| {
        assert grown[Edge(parent, segment)] == m;
      }
    }
  }

  /** One entry for each shape met, where it was first met, with its number of occurrences. */
  ghost predicate AreEntries(entries: seq<NestedType>, byFields: map<Shape, nat>, log: seq<Occurrence>) {
    && (forall i :: IsEntry(entries, log, i))
    && (forall shape :: IsIndexed(entries, byFields, log, shape))
  }

  ghost predicate IsEntry(entries: seq<NestedType>, log: seq<Occurrence>, i: nat) {
    && (i < |entries| <==> i < |FirstSeen(log)|)
    && (i < |entries| ==>
          && Occurrence(entries[i].path, entries[i].Key()) == FirstSeen(log)[i]
          && entries[i].occurrences == Count(log, entries[i].Key()))
  }

  lemma OneEntryEach(entries: seq<NestedType>, byFields: map<Shape, nat>, log: seq<Occurrence>)
    requires AreEntries(entries, byFields, log)
    ensures |entries| == |FirstSeen(log)|
  {
    assert IsEntry(entries, log, |entries|) && IsEntry(entries, log, |FirstSeen(log)|);
  }

  ghost predicate IsIndexed(entries: seq<NestedType>, byFields: map<Shape, nat>, log: seq<Occurrence>, shape: Shape) {
    && (shape in byFields <==> HasShape(log, shape))
    && (shape in byFields ==> byFields[shape] < |entries| && entries[byFields[shape]].Key() == shape)
  }

  /** Every entry is kept with the node of its path. */
  ghost predicate AreNodes(entries: seq<NestedType>, paths: seq<seq<string>>) {
    forall i :: IsNode(entries, paths, i)
  }

  ghost predicate IsNode(entries: seq<NestedType>, paths: seq<seq<string>>, i: nat) {
    i < |entries| ==> entries[i].node < |paths| && paths[entries[i].node] == entries[i].path
  }

  /** Each node has the entry of the shape last met at its path, and every path met has a node. */
  ghost predicate AreDeclared(
    declared: seq<Option<nat>>,
    byFields: map<Shape, nat>,
    log: seq<Occurrence>,
    paths: seq<seq<string>>
  ) {
    && |declared| == |paths|
    && (forall n :: IsDeclared(declared, byFields, log, paths, n))
    && (forall i :: IsKnown(log, paths, i))
  }

  ghost function IndexOf(byFields: map<Shape, nat>, shape: Option<Shape>): Option<nat> {
    if shape.Some? && shape.value in byFields then Some(byFields[shape.value]) else None
  }

  ghost predicate IsDeclared(
    declared: seq<Option<nat>>,
    byFields: map<Shape, nat>,
    log: seq<Occurrence>,
    paths: seq<seq<string>>,
    n: nat
  ) {
    n < |declared| && n < |paths| ==> declared[n] == IndexOf(byFields, LastAt(log, paths[n]))
  }

  ghost predicate IsKnown(log: seq<Occurrence>, paths: seq<seq<string>>, i: nat) {
    i < |log| ==> log[i].path in paths
  }

  lemma EntryCounted(entries: seq<NestedType>, log: seq<Occurrence>, last: Occurrence, index: nat, i: nat)
    requires index < |entries| && entries[index].Key() == last.shape
    requires IsEntry(entries, log, index) && IsEntry(entries, log, i)
    ensures IsEntry(entries[index := entries[index].(occurrences := entries[index].occurrences + 1)], log + [last], i)
  {
    LogStep(log, last);
    FirstSeenShapes(log);
    assert FirstSeen(log)[index].shape == last.shape;
    assert HasShape(FirstSeen(log), last.shape);
  }

  lemma EntriesCounted(entries: seq<NestedType>, byFields: map<Shape, nat>, log: seq<Occurrence>, last: Occurrence)
    requires AreEntries(entries, byFields, log) && last.shape in byFields
    ensures byFields[last.shape] < |entries|
    ensures var index := byFields[last.shape];
            AreEntries(entries[index := entries[index].(occurrences := entries[index].occurrences + 1)],
                       byFields, log + [last])
  {
    assert IsIndexed(entries, byFields, log, last.shape);
    var index := byFields[last.shape];
    var counted := entries[index := entries[index].(occurrences := entries[index].occurrences + 1)];
    forall i: nat
      ensures IsEntry(counted, log + [last], i)
    {
      assert IsEntry(entries, log, i) && IsEntry(entries, log, index);
      EntryCounted(entries, log, last, index, i);
    }
    forall shape
      ensures IsIndexed(counted, byFields, log + [last], shape)
    {
      assert IsIndexed(entries, byFields, log, shape);
      HasShapeSnoc(log, last, shape);
    }
    LogStep(log, last);
  }

  lemma EntriesGrow(
    entries: seq<NestedType>, byFields: map<Shape, nat>, log: seq<Occurrence>, last: Occurrence, node: nat)
    requires AreEntries(entries, byFields, log) && last.shape !in byFields
    ensures AreEntries(entries + [NestedType(last.path, node, last.shape.fields, last.shape.builder, 1)],
                       byFields[last.shape := |entries|], log + [last])
  {
    var longer := entries + [NestedType(last.path, node, last.shape.fields, last.shape.builder, 1)];
    var more := byFields[last.shape := |entries|];
    LogStep(log, last);
    assert IsIndexed(entries, byFields, log, last.shape);
    CountUnseen(log, last.shape);
    FirstSeenShapes(log);
    OneEntryEach(entries, byFields, log);
    forall i: nat
      ensures IsEntry(longer, log + [last], i)
    {
      assert IsEntry(entries, log, i);
      if i < |entries| {
        assert FirstSeen(log)[i].shape == entries[i].Key();
        assert HasShape(FirstSeen(log), entries[i].Key());
      }
    }
    forall shape
      ensures IsIndexed(longer, more, log + [last], shape)
    {
      assert IsIndexed(entries, byFields, log, shape);
      HasShapeSnoc(log, last, shape);
    }
  }

  lemma NodesKept(entries: seq<NestedType>, after: seq<NestedType>, paths: seq<seq<string>>, longer: seq<seq<string>>)
    requires AreNodes(entries, paths) && paths <= longer
    requires forall i :: 0 <= i < |after| ==>
                           if i < |entries| then after[i].node == entries[i].node && after[i].path == entries[i].path
                           else after[i].node < |longer| && longer[after[i].node] == after[i].path
    ensures AreNodes(after, longer)
  {
    forall i: nat
      ensures IsNode(after, longer, i)
    {
      assert IsNode(entries, paths, i);
    }
  }

  lemma NodeAdded(
    declared: seq<Option<nat>>,
    byFields: map<Shape, nat>,
    log: seq<Occurrence>,
    paths: seq<seq<string>>,
    below: seq<string>
  )
    requires AreDeclared(declared, byFields, log, paths) && below !in paths
    ensures AreDeclared(declared + [None], byFields, log, paths + [below])
  {
    var more := declared + [None];
    LastAtSpec(log, below);
    forall i | 0 <= i < |log|
      ensures log[i].path != below
    {
      assert IsKnown(log, paths, i);
    }
    forall n: nat
      ensures IsDeclared(more, byFields, log, paths + [below], n)
    {
      assert IsDeclared(declared, byFields, log, paths, n);
    }
    forall i: nat
      ensures IsKnown(log, paths + [below], i)
    {
      assert IsKnown(log, paths, i);
    }
  }

  lemma DeclaredAt(
    declared: seq<Option<nat>>,
    byFields: map<Shape, nat>,
    after: map<Shape, nat>,
    log: seq<Occurrence>,
    paths: seq<seq<string>>,
    last: Occurrence,
    node: nat
  )
    requires AreDeclared(declared, byFields, log, paths)
    requires forall m, n :: Differ(paths, m, n)
    requires node < |paths| && paths[node] == last.path
    requires last.shape in after
    requires after == byFields || (last.shape !in byFields && after == byFields[last.shape := after[last.shape]])
    requires last.shape !in byFields ==> !HasShape(log, last.shape)
    ensures AreDeclared(declared[node := Some(after[last.shape])], after, log + [last], paths)
  {
    var updated := declared[node := Some(after[last.shape])];
    LogStep(log, last);
    forall n: nat
      ensures IsDeclared(updated, after, log + [last], paths, n)
    {
      assert IsDeclared(declared, byFields, log, paths, n);
      assert Differ(paths, n, node);
      if n < |paths| && LastAt(log, paths[n]) == Some(last.shape) {
        LastAtSpec(log, paths[n]);
        assert HasShape(log, last.shape);
      }
    }
    forall i: nat
      ensures IsKnown(log + [last], paths, i)
    {
      assert IsKnown(log, paths, i);
    }
  }

  class Shapes {
    var entries: seq<NestedType>
    /** Entry indices by builder flag and field list. */
    var byFields: map<Shape, nat>
    var children: map<Edge, nat>
    /** For every trie node, the shape last declared at it. */
    var declared: seq<Option<nat>>
    /** The names leading to the field being visited. */
    var path: seq<string>

    /** Everything met so far, in order. */
    ghost var log: seq<Occurrence>
    /** The path each trie node stands for. */
    ghost var paths: seq<seq<string>>

    ghost predicate Valid()
      reads `entries, `byFields, `children, `declared, `log, `paths
    {
      && IsTrie(children, paths)
      && AreEntries(entries, byFields, log)
      && AreNodes(entries, paths)
      && AreDeclared(declared, byFields, log, paths)
    }

    constructor ()
      ensures Valid() && log == [] && path == [] && paths == [[]]
    {
      entries := [];
      byFields := map[];
      children := map[];
      declared := [None];
      path := [];
      log := [];
      paths := [[]];
      new;
      assert FirstSeen(log) == [];
    }

    /** The node one name below `parent`, new when no path led there. */
    method Child(parent: nat, segment: string) returns (node: nat)
      requires Valid() && parent < |paths|
      modifies this`children, this`declared, this`paths
      ensures Valid() && old(paths) <= paths
      ensures var below := old(paths)[parent] + [segment];
              && paths == (if below in old(paths) then old(paths) else old(paths) + [below])
              && node < |paths| && paths[node] == below
    {
      PathHasEdge(children, paths, parent, segment);
      var next := |declared|;
      if Edge(parent, segment) in children {
        node := children[Edge(parent, segment)];
        assert LeadsBelow(children, paths, Edge(parent, segment));
      } else {
        TrieGrows(children, paths, parent, segment);
        NodeAdded(declared, byFields, log, paths, paths[parent] + [segment]);
        NodesKept(entries, entries, paths, paths + [paths[parent] + [segment]]);
        node := next;
        children := children[Edge(parent, segment) := next];
        declared := declared + [None];
        paths := paths + [paths[parent] + [segment]];
      }
    }

    /** Notes one more occurrence of a shape, at the current path. */
    method Declare(node: nat, fields: seq<BindingField>, builder: bool)
      requires Valid() && node < |paths| && paths[node] == path
      modifies this`entries, this`byFields, this`declared, this`log
      ensures Valid()
      ensures log == old(log) + [Occurrence(path, Shape(builder, fields))]
    {
      ghost var before, known := byFields, entries;
      var key := Shape(builder, fields);
      var shape: nat;
      assert IsIndexed(entries, byFields, log, key);
      if key in byFields {
        shape := byFields[key];
        EntriesCounted(entries, byFields, log, Occurrence(path, key));
        entries := entries[shape := entries[shape].(occurrences := entries[shape].occurrences + 1)];
      } else {
        shape := |entries|;
        EntriesGrow(entries, byFields, log, Occurrence(path, key), node);
        byFields := byFields[key := shape];
        entries := entries + [NestedType(path, node, fields, builder, 1)];
      }
      NodesKept(known, entries, paths, paths);
      DeclaredAt(declared, before, byFields, log, paths, Occurrence(path, key), node);
      declared := declared[node := Some(shape)];
      log := log + [Occurrence(path, key)];
    }

    /** Declares the object shape behind a field, if any, after the shapes behind its children: what
        is declared is what chains that start with the field lead to. */
    method Visit(field: BindingField, parent: nat, parentBuilder: bool)
      requires Valid() && parent < |paths| && paths[parent] == path
      modifies this
      ensures Valid() && old(paths) <= paths && path == old(path)
      ensures log == old(log) + Visits(field, path, parentBuilder)
      ensures AreTheMet([field], path, parentBuilder, log[|old(log)|..])
      decreases field
    {
      var below := ObjectFields(field.fieldType);
      if below.None? {
        NothingMet(field, path, parentBuilder);
        return;
      }
      var fields := below.value;
      var builder := parentBuilder && IsInput(field) && Nested(field.fieldType);
      ghost var above := path;
      var node := Child(parent, field.publicName);
      path := path + [field.publicName];
      ghost var known := paths;
      VisitAll(fields, node, builder);
      assert old(paths) <= known <= paths;
      Declare(node, fields, builder);
      VisitsStep(old(log), log, field, above, parentBuilder);
      VisitedIsMet(old(log), log, field, above, parentBuilder);
      path := path[..|path| - 1];
    }

    method VisitAll(fields: seq<BindingField>, parent: nat, builder: bool)
      requires Valid() && parent < |paths| && paths[parent] == path
      modifies this
      ensures Valid() && old(paths) <= paths && path == old(path)
      ensures log == old(log) + Walk(fields, path, builder)
      decreases fields
    {
      for i := 0 to |fields|
        invariant Valid() && old(paths) <= paths && path == old(path)
        invariant log == old(log) + Walk(fields[..i], path, builder)
      {
        Visit(fields[i], parent, builder);
        WalkStep(old(log), log, fields, path, builder, i);
      }
      assert fields[..|fields|] == fields;
    }

    /** The entry a node's declaration names for a field of the record there. */
    function Find(parent: nat, field: BindingField): (index: Option<nat>)
      reads this
    {
      var edge := Edge(parent, field.publicName);
      if edge in children && children[edge] < |declared| then declared[children[edge]] else None
    }
  }

  /** Collects the shapes of an item, which are then looked up while rendering. */
  method Collect(fields: seq<BindingField>) returns (shapes: Shapes)
    ensures fresh(shapes) && shapes.Valid()
    ensures shapes.log == Walk(fields, [], true)
    ensures AreTheMet(fields, [], true, shapes.log)
  {
    WalkIsTheMet(fields, [], true);
    shapes := new Shapes();
    shapes.VisitAll(fields, ROOT, true);
  }
}
