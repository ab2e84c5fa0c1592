/** What encoding writes, and what policies read of it. */
module EncodedForms {
  import opened SortedMap
  import opened LastEntries
  import opened GraphIr
  import opened WrittenForms
  import ProgramValidation
  import opened Agreement
  import opened Encoding

  // ----- what encoding writes -----

  lemma {:induction false} ValueEncoded(value: Value)
    ensures ValueWritten(value, EncodeValue(value))
    decreases value, 0
  {
    match value
    case List(values) =>
      forall i | 0 <= i < |values| { ValueEncoded(values[i]); }
    case Record(members) => MembersEncoded(members);
    case _ =>
  }

  lemma MembersEncoded(members: seq<Entry<Value>>)
    ensures MembersWritten(members, FromEntries(EncodeMembers(members)))
    decreases members, 1
  {
    var encoded := EncodeMembers(members);
    var doc := FromEntries(encoded);
    BuiltFromLast(encoded);
    KeysKept(members, encoded, doc);
    forall i: nat, j: nat | Counts(members, doc, i, j)
      ensures ValueWritten(members[i].value, doc[j].value)
    {
      LastByKeys(members, encoded, i);
      assert Counts(encoded, doc, i, j);
      ValueEncoded(members[i].value);
    }
  }

  lemma KeysKept<V, W>(entries: seq<Entry<V>>, encoded: seq<Entry<W>>, doc: seq<Entry<W>>)
    requires |entries| == |encoded| && forall i :: 0 <= i < |entries| ==> entries[i].key == encoded[i].key
    requires SameKeys(encoded, doc)
    ensures SameKeys(entries, doc)
  {
    forall key
      ensures HasKey(entries, key) <==> HasKey(encoded, key)
    {
      if i :| 0 <= i < |entries| && entries[i].key == key {
        assert encoded[i].key == key;
      }
    }
  }

  lemma AllEncoded(items: seq<Expr>)
    ensures AllWritten(items, EncodeAll(items))
    decreases items, 1
  {
    forall i | 0 <= i < |items| { ExprEncoded(items[i]); }
  }

  lemma FieldsEncoded(fields: seq<Entry<Expr>>)
    ensures FieldsWritten(fields, EncodeArguments(fields))
    decreases fields, 1
  {
    var encoded := EncodeFields(fields);
    var doc := FromEntries(encoded);
    BuiltFromLast(encoded);
    KeysKept(fields, encoded, doc);
    forall i: nat, j: nat | Counts(fields, doc, i, j)
      ensures Written(fields[i].value, doc[j].value)
    {
      LastByKeys(fields, encoded, i);
      assert Counts(encoded, doc, i, j);
      ExprEncoded(fields[i].value);
    }
  }

  lemma {:induction false} ExprEncoded(e: Expr)
    ensures Written(e, Encode(e))
    decreases e, 0
  {
    match e
    case Literal(value) => ValueEncoded(value);
    case Array(items) => AllEncoded(items);
    case Object(fields) => FieldsEncoded(fields);
    case Index(collection, key) => ExprEncoded(collection); ExprEncoded(key);
    case Attribute(of, _) => ExprEncoded(of);
    case Splat(of) => ExprEncoded(of);
    case Conditional(condition, whenTrue, whenFalse) =>
      ExprEncoded(condition); ExprEncoded(whenTrue); ExprEncoded(whenFalse);
    case Function(_, args) => AllEncoded(args);
    case Template(parts) =>
      forall i | 0 <= i < |parts|
        ensures PartWritten(parts[i], EncodePart(parts[i]))
      {
        if parts[i].Interpolation? {
          ExprEncoded(parts[i].expression);
        }
      }
    case _ =>
  }

  /** Encoding an expression gives the one document it is written as: everything in its place,
      and each object a key-sorted map of the last entry of every key. */
  lemma EncodeIsWritten(e: Expr, doc: Expr)
    ensures Written(e, doc) <==> doc == Encode(e)
  {
    ExprEncoded(e);
    if Written(e, doc) {
      WrittenOnce(e, doc, Encode(e));
    }
  }

  /** What is key-sorted throughout is encoded as it is. */
  lemma SortedEncodesAsItself(e: Expr)
    requires ExprSorted(e)
    ensures Encode(e) == e
  {
    SortedWritten(e);
    EncodeIsWritten(e, e);
  }

  lemma OutputsEncoded(outputs: seq<Entry<OutputSpec>>)
    ensures OutputsWritten(outputs, FromEntries(EncodeOutputs(outputs)))
  {
    var encoded := EncodeOutputs(outputs);
    var doc := FromEntries(encoded);
    BuiltFromLast(encoded);
    KeysKept(outputs, encoded, doc);
    forall i: nat, j: nat | Counts(outputs, doc, i, j)
      ensures Written(outputs[i].value.value, doc[j].value.value)
      ensures outputs[i].value.sensitive == doc[j].value.sensitive
    {
      LastByKeys(outputs, encoded, i);
      assert Counts(encoded, doc, i, j);
      ExprEncoded(outputs[i].value.value);
    }
  }

  lemma NodesEncoded(graph: Graph)
    ensures NodesWritten(graph, EncodeGraph(graph).graph)
  {
    forall c | c in graph.providerConfigs { FieldsEncoded(c.arguments); }
    forall r | r in graph.resources { FieldsEncoded(r.arguments); }
    forall d | d in graph.dataSources { FieldsEncoded(d.arguments); }
  }

  /** Encoding a graph gives the one document it is written as. */
  lemma EncodeGraphIsWritten(graph: Graph, doc: GraphDocument)
    ensures GraphWritten(graph, doc) <==> doc == EncodeGraph(graph)
  {
    BuiltFromLast(graph.requiredProviders);
    NodesEncoded(graph);
    OutputsEncoded(graph.outputs);
    assert GraphWritten(graph, EncodeGraph(graph));
    if GraphWritten(graph, doc) {
      GraphWrittenOnce(graph, doc, EncodeGraph(graph));
    }
  }

  // ----- policies read what was written -----

  ghost predicate NodesRead(graph: Graph, doc: Graph) {
    && |doc.resources| == |graph.resources|
    && (forall i :: 0 <= i < |graph.resources| ==> FieldsRead(graph.resources[i].arguments, doc.resources[i].arguments))
    && |doc.dataSources| == |graph.dataSources|
    && (forall i :: 0 <= i < |graph.dataSources| ==>
                      FieldsRead(graph.dataSources[i].arguments, doc.dataSources[i].arguments))
    && |doc.providerConfigs| == |graph.providerConfigs|
    && (forall i :: 0 <= i < |graph.providerConfigs| ==>
                      FieldsRead(graph.providerConfigs[i].arguments, doc.providerConfigs[i].arguments))
  }

  ghost predicate OutputsRead(outputs: seq<Entry<OutputSpec>>, doc: seq<Entry<OutputSpec>>) {
    && KeysAlike(outputs, doc)
    && forall i: nat, j: nat :: BothFound(outputs, doc, i, j) ==> Read(outputs[i].value.value, doc[j].value.value)
  }

  lemma NodesReadAlike(graph: Graph, doc: Graph)
    requires GraphUnique(graph) && NodesWritten(graph, doc)
    ensures NodesRead(graph, doc)
  {
    forall i | 0 <= i < |graph.resources| {
      UniqueFieldsRead(graph.resources[i].arguments, doc.resources[i].arguments);
    }
    forall i | 0 <= i < |graph.dataSources| {
      UniqueFieldsRead(graph.dataSources[i].arguments, doc.dataSources[i].arguments);
    }
    forall i | 0 <= i < |graph.providerConfigs| {
      UniqueFieldsRead(graph.providerConfigs[i].arguments, doc.providerConfigs[i].arguments);
    }
  }

  lemma OutputsReadAlike(graph: Graph, doc: Graph)
    requires GraphUnique(graph) && OutputsWritten(graph.outputs, doc.outputs)
    ensures OutputsRead(graph.outputs, doc.outputs)
  {
    forall i: nat, j: nat | BothFound(graph.outputs, doc.outputs, i, j)
      ensures Read(graph.outputs[i].value.value, doc.outputs[j].value.value)
    {
      UniqueFound(graph.outputs, doc.outputs, i, j);
      UniqueRead(graph.outputs[i].value.value, doc.outputs[j].value.value);
    }
  }

  /** In every graph the program-side validator accepts, what a policy finds by first match is
      what the document it is written as holds: at every argument list, object expression and
      nested literal object. */
  lemma PoliciesReadWhatIsEncoded(graph: Graph, doc: GraphDocument, blank: string -> bool)
    requires ProgramValidation.Validate(graph, blank) && GraphWritten(graph, doc)
    ensures NodesRead(graph, doc.graph) && OutputsRead(graph.outputs, doc.graph.outputs)
  {
    ProgramValidateSpec(graph, blank);
    NodesReadAlike(graph, doc.graph);
    OutputsReadAlike(graph, doc.graph);
  }

  /** Without the rule they can differ: a policy finds the first entry of a repeated key and the
      document holds the last. They agree exactly when the two entries read alike. */
  lemma RepeatedKeysReadApart(key: string, first: Expr, last: Expr, doc: seq<Entry<Expr>>)
    requires FieldsWritten([Entry(key, first), Entry(key, last)], doc)
    ensures FieldsRead([Entry(key, first), Entry(key, last)], doc) <==> Read(first, Encode(last))
  {
    var arguments := [Entry(key, first), Entry(key, last)];
    assert HasKey(arguments, key) by {
      assert arguments[0].key == key;
    }
    assert HasKey(doc, key);
    var at: nat :| at < |doc| && doc[at].key == key;
    assert Counts(arguments, doc, 1, at);
    EncodeIsWritten(last, doc[at].value);
    forall i: nat, j: nat | BothFound(arguments, doc, i, j)
      ensures i == 0 && j == at
    {
      assert arguments[i].key == arguments[0].key == key;
      SortedPositions(doc, j, at);
    }
    SortedFirst(doc, at);
    assert BothFound(arguments, doc, 0, at);
  }

  lemma SortedFirst<V(!new)>(entries: seq<Entry<V>>, at: nat)
    requires Sorted(entries) && at < |entries|
    ensures IsFirst(entries, at)
  {
    LessIrreflexive(entries[at].key);
  }
}
