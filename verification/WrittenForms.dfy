/** How a program's graph is written in a document, as a relation between the two: everything in
    its place, and each object a key-sorted map of the last entry of every key. */
module WrittenForms {
  import opened Wrappers
  import opened SortedMap
  import opened LastEntries
  import opened GraphIr

  ghost predicate ValueWritten(value: Value, doc: Value)
    decreases value, 0
  {
    match value
    case Null => doc == Null
    case Bool(truth) => doc == Bool(truth)
    case Number(lexeme) => doc == Number(lexeme)
    case Text(text) => doc == Text(text)
    case List(values) =>
      && doc.List? && |doc.values| == |values|
      && forall i :: 0 <= i < |values| ==> ValueWritten(values[i], doc.values[i])
    case Record(members) => doc.Record? && MembersWritten(members, doc.members)
  }

  ghost predicate MembersWritten(members: seq<Entry<Value>>, doc: seq<Entry<Value>>)
    decreases members, 1
  {
    && SameKeys(members, doc)
    && forall i: nat, j: nat :: Counts(members, doc, i, j) ==> ValueWritten(members[i].value, doc[j].value)
  }

  ghost predicate Written(e: Expr, doc: Expr)
    decreases e, 0
  {
    match e
    case Literal(value) => doc.Literal? && ValueWritten(value, doc.value)
    case ResourceAttr(address, path) => doc == ResourceAttr(address, path)
    case DataSourceAttr(address, path) => doc == DataSourceAttr(address, path)
    case Array(items) => doc.Array? && AllWritten(items, doc.items)
    case Object(fields) => doc.Object? && FieldsWritten(fields, doc.fields)
    case Index(collection, key) => doc.Index? && Written(collection, doc.collection) && Written(key, doc.key)
    case Attribute(of, name) => doc.Attribute? && Written(of, doc.of) && doc.name == name
    case Splat(of) => doc.Splat? && Written(of, doc.of)
    case Conditional(condition, whenTrue, whenFalse) =>
      && doc.Conditional? && Written(condition, doc.condition)
      && Written(whenTrue, doc.whenTrue) && Written(whenFalse, doc.whenFalse)
    case Function(name, args) => doc.Function? && doc.name == name && AllWritten(args, doc.args)
    case Template(parts) =>
      && doc.Template? && |doc.parts| == |parts|
      && forall i :: 0 <= i < |parts| ==> PartWritten(parts[i], doc.parts[i])
    case SecretEnv(name) => doc == SecretEnv(name)
    case UnsafeRaw(raw) => doc == UnsafeRaw(raw)
  }

  ghost predicate AllWritten(items: seq<Expr>, doc: seq<Expr>)
    decreases items, 1
  {
    |doc| == |items| && forall i :: 0 <= i < |items| ==> Written(items[i], doc[i])
  }

  ghost predicate PartWritten(part: TemplatePart, doc: TemplatePart)
    decreases part, 1
  {
    match part
    case Verbatim(text) => doc == Verbatim(text)
    case Interpolation(expression) => doc.Interpolation? && Written(expression, doc.expression)
  }

  ghost predicate FieldsWritten(fields: seq<Entry<Expr>>, doc: seq<Entry<Expr>>)
    decreases fields, 1
  {
    && SameKeys(fields, doc)
    && forall i: nat, j: nat :: Counts(fields, doc, i, j) ==> Written(fields[i].value, doc[j].value)
  }

  ghost predicate OutputsWritten(outputs: seq<Entry<OutputSpec>>, doc: seq<Entry<OutputSpec>>) {
    && SameKeys(outputs, doc)
    && forall i: nat, j: nat :: Counts(outputs, doc, i, j) ==>
                                  && Written(outputs[i].value.value, doc[j].value.value)
                                  && outputs[i].value.sensitive == doc[j].value.sensitive
  }

  ghost predicate RequirementsWritten(
    required: seq<Entry<ProviderRequirement>>, doc: seq<Entry<ProviderRequirement>>)
  {
    && SameKeys(required, doc)
    && forall i: nat, j: nat :: Counts(required, doc, i, j) ==> doc[j].value == required[i].value
  }

  ghost predicate ConfigWritten(c: ProviderConfig, doc: ProviderConfig) {
    doc.provider == c.provider && doc.alias == c.alias && FieldsWritten(c.arguments, doc.arguments)
  }

  ghost predicate ResourceWritten(r: ResourceSpec, doc: ResourceSpec) {
    && doc.kind == r.kind && doc.name == r.name && doc.dependsOn == r.dependsOn
    && doc.provider == r.provider && doc.lifecycle == r.lifecycle
    && FieldsWritten(r.arguments, doc.arguments)
  }

  ghost predicate DataSourceWritten(d: DataSourceSpec, doc: DataSourceSpec) {
    && doc.kind == d.kind && doc.name == d.name && doc.dependsOn == d.dependsOn
    && doc.provider == d.provider && FieldsWritten(d.arguments, doc.arguments)
  }

  ghost predicate NodesWritten(graph: Graph, doc: Graph) {
    && |doc.providerConfigs| == |graph.providerConfigs|
    && (forall i :: 0 <= i < |graph.providerConfigs| ==>
                      ConfigWritten(graph.providerConfigs[i], doc.providerConfigs[i]))
    && |doc.resources| == |graph.resources|
    && (forall i :: 0 <= i < |graph.resources| ==> ResourceWritten(graph.resources[i], doc.resources[i]))
    && |doc.dataSources| == |graph.dataSources|
    && (forall i :: 0 <= i < |graph.dataSources| ==> DataSourceWritten(graph.dataSources[i], doc.dataSources[i]))
  }

  /** The document a graph is written as. */
  ghost predicate GraphWritten(graph: Graph, doc: GraphDocument) {
    && doc.formatVersion == "1.0"
    && RequirementsWritten(graph.requiredProviders, doc.graph.requiredProviders)
    && NodesWritten(graph, doc.graph)
    && OutputsWritten(graph.outputs, doc.graph.outputs)
    && doc.graph.moves == graph.moves
    && doc.graph.imports == graph.imports
    && doc.graph.stackReferences == graph.stackReferences
  }

  // ----- there is only one such document -----

  lemma {:induction false} ValueWrittenOnce(value: Value, a: Value, b: Value)
    requires ValueWritten(value, a) && ValueWritten(value, b)
    ensures a == b
  {
    match value
    case List(values) =>
      forall i | 0 <= i < |values|
        ensures a.values[i] == b.values[i]
      {
        ValueWrittenOnce(values[i], a.values[i], b.values[i]);
      }
    case Record(members) =>
      forall i, j | 0 <= i < |a.members| && 0 <= j < |b.members| && a.members[i].key == b.members[j].key
        ensures a.members[i].value == b.members[j].value
      {
        assert HasKey(a.members, a.members[i].key);
        var k := LastOf(members, a.members[i].key);
        assert Counts(members, a.members, k, i) && Counts(members, b.members, k, j);
        ValueWrittenOnce(members[k].value, a.members[i].value, b.members[j].value);
      }
      OnlyOneMap(a.members, b.members);
    case _ =>
  }

  lemma AllWrittenOnce(items: seq<Expr>, a: seq<Expr>, b: seq<Expr>)
    requires AllWritten(items, a) && AllWritten(items, b)
    ensures a == b
    decreases items, 1
  {
    forall i | 0 <= i < |items|
      ensures a[i] == b[i]
    {
      WrittenOnce(items[i], a[i], b[i]);
    }
  }

  lemma FieldsWrittenOnce(fields: seq<Entry<Expr>>, a: seq<Entry<Expr>>, b: seq<Entry<Expr>>)
    requires FieldsWritten(fields, a) && FieldsWritten(fields, b)
    ensures a == b
    decreases fields, 1
  {
    forall i, j | 0 <= i < |a| && 0 <= j < |b| && a[i].key == b[j].key
      ensures a[i].value == b[j].value
    {
      assert HasKey(a, a[i].key);
      var k := LastOf(fields, a[i].key);
      assert Counts(fields, a, k, i) && Counts(fields, b, k, j);
      WrittenOnce(fields[k].value, a[i].value, b[j].value);
    }
    OnlyOneMap(a, b);
  }

  /** An expression is written in one way. */
  lemma {:induction false} WrittenOnce(e: Expr, a: Expr, b: Expr)
    requires Written(e, a) && Written(e, b)
    ensures a == b
    decreases e, 0
  {
    match e
    case Literal(value) => ValueWrittenOnce(value, a.value, b.value);
    case Array(items) => AllWrittenOnce(items, a.items, b.items);
    case Object(fields) => FieldsWrittenOnce(fields, a.fields, b.fields);
    case Index(collection, key) =>
      WrittenOnce(collection, a.collection, b.collection);
      WrittenOnce(key, a.key, b.key);
    case Attribute(of, _) => WrittenOnce(of, a.of, b.of);
    case Splat(of) => WrittenOnce(of, a.of, b.of);
    case Conditional(condition, whenTrue, whenFalse) =>
      WrittenOnce(condition, a.condition, b.condition);
      WrittenOnce(whenTrue, a.whenTrue, b.whenTrue);
      WrittenOnce(whenFalse, a.whenFalse, b.whenFalse);
    case Function(_, args) => AllWrittenOnce(args, a.args, b.args);
    case Template(parts) =>
      forall i | 0 <= i < |parts|
        ensures a.parts[i] == b.parts[i]
      {
        if parts[i].Interpolation? {
          WrittenOnce(parts[i].expression, a.parts[i].expression, b.parts[i].expression);
        }
      }
    case _ =>
  }

  lemma OutputsWrittenOnce(outputs: seq<Entry<OutputSpec>>, a: seq<Entry<OutputSpec>>, b: seq<Entry<OutputSpec>>)
    requires OutputsWritten(outputs, a) && OutputsWritten(outputs, b)
    ensures a == b
  {
    forall i, j | 0 <= i < |a| && 0 <= j < |b| && a[i].key == b[j].key
      ensures a[i].value == b[j].value
    {
      assert HasKey(a, a[i].key);
      var k := LastOf(outputs, a[i].key);
      assert Counts(outputs, a, k, i) && Counts(outputs, b, k, j);
      WrittenOnce(outputs[k].value.value, a[i].value.value, b[j].value.value);
    }
    OnlyOneMap(a, b);
  }

  lemma RequirementsWrittenOnce(
    required: seq<Entry<ProviderRequirement>>,
    a: seq<Entry<ProviderRequirement>>,
    b: seq<Entry<ProviderRequirement>>
  )
    requires RequirementsWritten(required, a) && RequirementsWritten(required, b)
    ensures a == b
  {
    forall i, j | 0 <= i < |a| && 0 <= j < |b| && a[i].key == b[j].key
      ensures a[i].value == b[j].value
    {
      assert HasKey(a, a[i].key);
      var k := LastOf(required, a[i].key);
      assert Counts(required, a, k, i) && Counts(required, b, k, j);
    }
    OnlyOneMap(a, b);
  }

  lemma NodesWrittenOnce(graph: Graph, a: Graph, b: Graph)
    requires NodesWritten(graph, a) && NodesWritten(graph, b)
    ensures a.providerConfigs == b.providerConfigs && a.resources == b.resources && a.dataSources == b.dataSources
  {
    forall i | 0 <= i < |graph.providerConfigs|
      ensures a.providerConfigs[i] == b.providerConfigs[i]
    {
      FieldsWrittenOnce(
        graph.providerConfigs[i].arguments, a.providerConfigs[i].arguments, b.providerConfigs[i].arguments);
    }
    forall i | 0 <= i < |graph.resources|
      ensures a.resources[i] == b.resources[i]
    {
      FieldsWrittenOnce(graph.resources[i].arguments, a.resources[i].arguments, b.resources[i].arguments);
    }
    forall i | 0 <= i < |graph.dataSources|
      ensures a.dataSources[i] == b.dataSources[i]
    {
      FieldsWrittenOnce(graph.dataSources[i].arguments, a.dataSources[i].arguments, b.dataSources[i].arguments);
    }
  }

  /** A graph is written as one document. */
  lemma GraphWrittenOnce(graph: Graph, a: GraphDocument, b: GraphDocument)
    requires GraphWritten(graph, a) && GraphWritten(graph, b)
    ensures a == b
  {
    RequirementsWrittenOnce(graph.requiredProviders, a.graph.requiredProviders, b.graph.requiredProviders);
    NodesWrittenOnce(graph, a.graph, b.graph);
    OutputsWrittenOnce(graph.outputs, a.graph.outputs, b.graph.outputs);
  }

  // ----- what is sorted already is written as it is -----

  ghost predicate ValueSorted(value: Value) {
    match value
    case List(values) => forall v :: v in values ==> ValueSorted(v)
    case Record(members) => Sorted(members) && forall m :: m in members ==> ValueSorted(m.value)
    case _ => true
  }

  /** Every object in an expression is key-sorted. */
  ghost predicate ExprSorted(e: Expr) {
    match e
    case Literal(value) => ValueSorted(value)
    case Array(items) => forall item :: item in items ==> ExprSorted(item)
    case Object(fields) => Sorted(fields) && forall f :: f in fields ==> ExprSorted(f.value)
    case Index(collection, key) => ExprSorted(collection) && ExprSorted(key)
    case Attribute(of, _) => ExprSorted(of)
    case Splat(of) => ExprSorted(of)
    case Conditional(condition, whenTrue, whenFalse) =>
      ExprSorted(condition) && ExprSorted(whenTrue) && ExprSorted(whenFalse)
    case Function(_, args) => forall arg :: arg in args ==> ExprSorted(arg)
    case Template(parts) => forall part :: part in parts && part.Interpolation? ==> ExprSorted(part.expression)
    case _ => true
  }

  lemma {:induction false} SortedValueWritten(value: Value)
    requires ValueSorted(value)
    ensures ValueWritten(value, value)
  {
    match value
    case List(values) =>
      forall i | 0 <= i < |values| { SortedValueWritten(values[i]); }
    case Record(members) =>
      forall i: nat, j: nat | Counts(members, members, i, j)
        ensures ValueWritten(members[i].value, members[j].value)
      {
        SortedPositions(members, i, j);
        SortedValueWritten(members[i].value);
      }
    case _ =>
  }

  lemma SortedFieldsWritten(fields: seq<Entry<Expr>>)
    requires Sorted(fields) && forall f :: f in fields ==> ExprSorted(f.value)
    ensures FieldsWritten(fields, fields)
    decreases fields, 1
  {
    forall i: nat, j: nat | Counts(fields, fields, i, j)
      ensures Written(fields[i].value, fields[j].value)
    {
      SortedPositions(fields, i, j);
      SortedWritten(fields[i].value);
    }
  }

  lemma {:induction false} SortedWritten(e: Expr)
    requires ExprSorted(e)
    ensures Written(e, e)
    decreases e, 0
  {
    match e
    case Literal(value) => SortedValueWritten(value);
    case Array(items) =>
      forall i | 0 <= i < |items| { SortedWritten(items[i]); }
    case Object(fields) => SortedFieldsWritten(fields);
    case Index(collection, key) => SortedWritten(collection); SortedWritten(key);
    case Attribute(of, _) => SortedWritten(of);
    case Splat(of) => SortedWritten(of);
    case Conditional(condition, whenTrue, whenFalse) =>
      SortedWritten(condition); SortedWritten(whenTrue); SortedWritten(whenFalse);
    case Function(_, args) =>
      forall i | 0 <= i < |args| { SortedWritten(args[i]); }
    case Template(parts) =>
      forall i | 0 <= i < |parts| && parts[i].Interpolation? { SortedWritten(parts[i].expression); }
    case _ =>
  }

  // ----- what a policy reads -----

  /** Position `i` and position `j` are where a first-match lookup of one key ends. */
  ghost predicate BothFound<V, W>(entries: seq<Entry<V>>, doc: seq<Entry<W>>, i: nat, j: nat) {
    IsFirst(entries, i) && IsFirst(doc, j) && entries[i].key == doc[j].key
  }

  ghost predicate KeysAlike<V, W>(entries: seq<Entry<V>>, doc: seq<Entry<W>>) {
    forall key :: HasKey(entries, key) <==> HasKey(doc, key)
  }

  /** Looking through a value and through a document's finds the same things in the same places. */
  ghost predicate ValueRead(value: Value, doc: Value)
    decreases value, 0
  {
    match value
    case List(values) =>
      && doc.List? && |doc.values| == |values|
      && forall i :: 0 <= i < |values| ==> ValueRead(values[i], doc.values[i])
    case Record(members) => doc.Record? && MembersRead(members, doc.members)
    case _ => doc == value
  }

  ghost predicate MembersRead(members: seq<Entry<Value>>, doc: seq<Entry<Value>>)
    decreases members, 1
  {
    && KeysAlike(members, doc)
    && forall i: nat, j: nat :: BothFound(members, doc, i, j) ==> ValueRead(members[i].value, doc[j].value)
  }

  ghost predicate Read(e: Expr, doc: Expr)
    decreases e, 0
  {
    match e
    case Literal(value) => doc.Literal? && ValueRead(value, doc.value)
    case Array(items) => doc.Array? && AllRead(items, doc.items)
    case Object(fields) => doc.Object? && FieldsRead(fields, doc.fields)
    case Index(collection, key) => doc.Index? && Read(collection, doc.collection) && Read(key, doc.key)
    case Attribute(of, name) => doc.Attribute? && Read(of, doc.of) && doc.name == name
    case Splat(of) => doc.Splat? && Read(of, doc.of)
    case Conditional(condition, whenTrue, whenFalse) =>
      && doc.Conditional? && Read(condition, doc.condition)
      && Read(whenTrue, doc.whenTrue) && Read(whenFalse, doc.whenFalse)
    case Function(name, args) => doc.Function? && doc.name == name && AllRead(args, doc.args)
    case Template(parts) =>
      && doc.Template? && |doc.parts| == |parts|
      && forall i :: 0 <= i < |parts| ==> PartRead(parts[i], doc.parts[i])
    case _ => doc == e
  }

  ghost predicate AllRead(items: seq<Expr>, doc: seq<Expr>)
    decreases items, 1
  {
    |doc| == |items| && forall i :: 0 <= i < |items| ==> Read(items[i], doc[i])
  }

  ghost predicate PartRead(part: TemplatePart, doc: TemplatePart)
    decreases part, 1
  {
    match part
    case Verbatim(_) => doc == part
    case Interpolation(expression) => doc.Interpolation? && Read(expression, doc.expression)
  }

  ghost predicate FieldsRead(fields: seq<Entry<Expr>>, doc: seq<Entry<Expr>>)
    decreases fields, 1
  {
    && KeysAlike(fields, doc)
    && forall i: nat, j: nat :: BothFound(fields, doc, i, j) ==> Read(fields[i].value, doc[j].value)
  }

  /** In terms of the lookup itself: every key is found in both or in neither, and what is found
      reads alike. */
  lemma FieldsLookedUp(fields: seq<Entry<Expr>>, doc: seq<Entry<Expr>>, key: string)
    requires FieldsRead(fields, doc)
    ensures match Lookup(fields, key)
            case None => Lookup(doc, key) == None
            case Some(e) => Lookup(doc, key).Some? && Read(e, Lookup(doc, key).value)
  {
    HasKeyIsLookedUp(fields, key);
    HasKeyIsLookedUp(doc, key);
    if HasKey(fields, key) {
      var i := LookedUpIsFirst(fields, key);
      var j := LookedUpIsFirst(doc, key);
      assert BothFound(fields, doc, i, j);
    }
  }

  lemma UniqueFound<V, W>(entries: seq<Entry<V>>, doc: seq<Entry<W>>, i: nat, j: nat)
    requires DistinctKeys(entries) && BothFound(entries, doc, i, j)
    ensures Counts(entries, doc, i, j)
  {
  }

  lemma {:induction false} UniqueValueRead(value: Value, doc: Value)
    requires ValueUnique(value) && ValueWritten(value, doc)
    ensures ValueRead(value, doc)
  {
    match value
    case List(values) =>
      forall i | 0 <= i < |values| { UniqueValueRead(values[i], doc.values[i]); }
    case Record(members) =>
      forall i: nat, j: nat | BothFound(members, doc.members, i, j)
        ensures ValueRead(members[i].value, doc.members[j].value)
      {
        UniqueFound(members, doc.members, i, j);
        UniqueValueRead(members[i].value, doc.members[j].value);
      }
    case _ =>
  }

  lemma UniqueFieldsRead(fields: seq<Entry<Expr>>, doc: seq<Entry<Expr>>)
    requires DistinctKeys(fields) && (forall f :: f in fields ==> ExprUnique(f.value)) && FieldsWritten(fields, doc)
    ensures FieldsRead(fields, doc)
    decreases fields, 1
  {
    forall i: nat, j: nat | BothFound(fields, doc, i, j)
      ensures Read(fields[i].value, doc[j].value)
    {
      UniqueFound(fields, doc, i, j);
      UniqueRead(fields[i].value, doc[j].value);
    }
  }

  /** Without repeated keys, an expression and what it is written as read alike. */
  lemma {:induction false} UniqueRead(e: Expr, doc: Expr)
    requires ExprUnique(e) && Written(e, doc)
    ensures Read(e, doc)
    decreases e, 0
  {
    match e
    case Literal(value) => UniqueValueRead(value, doc.value);
    case Array(items) =>
      forall i | 0 <= i < |items| { UniqueRead(items[i], doc.items[i]); }
    case Object(fields) => UniqueFieldsRead(fields, doc.fields);
    case Index(collection, key) => UniqueRead(collection, doc.collection); UniqueRead(key, doc.key);
    case Attribute(of, _) => UniqueRead(of, doc.of);
    case Splat(of) => UniqueRead(of, doc.of);
    case Conditional(condition, whenTrue, whenFalse) =>
      UniqueRead(condition, doc.condition);
      UniqueRead(whenTrue, doc.whenTrue);
      UniqueRead(whenFalse, doc.whenFalse);
    case Function(_, args) =>
      forall i | 0 <= i < |args| { UniqueRead(args[i], doc.args[i]); }
    case Template(parts) =>
      forall i | 0 <= i < |parts| && parts[i].Interpolation? {
        UniqueRead(parts[i].expression, doc.parts[i].expression);
      }
    case _ =>
  }
}
