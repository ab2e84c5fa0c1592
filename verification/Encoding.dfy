/** The document a program's graph is encoded as: every association list becomes a key-sorted map
    in which the last entry of a key wins. What encoding keeps of a graph, and when the two
    validators agree on it. */
module Encoding {
  import opened Walks
  import opened SortedMap
  import opened CycleSearch
  import opened GraphIr
  import Documents
  import ProgramValidation
  import opened Agreement

  function EncodeValue(value: Value): Value
    decreases value, 0
  {
    match value
    case List(values) => List(seq(|values|, i requires 0 <= i < |values| => EncodeValue(values[i])))
    case Record(members) => Record(FromEntries(EncodeMembers(members)))
    case _ => value
  }

  function EncodeMembers(members: seq<Entry<Value>>): (encoded: seq<Entry<Value>>)
    ensures |encoded| == |members|
    decreases members, 1
  {
    seq(|members|, i requires 0 <= i < |members| => Entry(members[i].key, EncodeValue(members[i].value)))
  }

  function Encode(e: Expr): Expr
    decreases e, 0
  {
    match e
    case Literal(value) => Literal(EncodeValue(value))
    case Array(items) => Array(EncodeAll(items))
    case Object(fields) => Object(FromEntries(EncodeFields(fields)))
    case Index(collection, key) => Index(Encode(collection), Encode(key))
    case Attribute(of, name) => Attribute(Encode(of), name)
    case Splat(of) => Splat(Encode(of))
    case Conditional(condition, whenTrue, whenFalse) =>
      Conditional(Encode(condition), Encode(whenTrue), Encode(whenFalse))
    case Function(name, args) => Function(name, EncodeAll(args))
    case Template(parts) => Template(EncodeParts(parts))
    case _ => e
  }

  function EncodeAll(items: seq<Expr>): (encoded: seq<Expr>)
    ensures |encoded| == |items|
    decreases items, 1
  {
    seq(|items|, i requires 0 <= i < |items| => Encode(items[i]))
  }

  function EncodeFields(fields: seq<Entry<Expr>>): (encoded: seq<Entry<Expr>>)
    ensures |encoded| == |fields|
    decreases fields, 1
  {
    seq(|fields|, i requires 0 <= i < |fields| => Entry(fields[i].key, Encode(fields[i].value)))
  }

  function EncodeParts(parts: seq<TemplatePart>): (encoded: seq<TemplatePart>)
    ensures |encoded| == |parts|
    decreases parts, 1
  {
    seq(|parts|, i requires 0 <= i < |parts| => EncodePart(parts[i]))
  }

  function EncodePart(part: TemplatePart): TemplatePart
    decreases part, 1
  {
    match part
    case Verbatim(_) => part
    case Interpolation(expression) => Interpolation(Encode(expression))
  }

  function EncodeArguments(arguments: seq<Entry<Expr>>): seq<Entry<Expr>> {
    FromEntries(EncodeFields(arguments))
  }

  function EncodeConfig(c: ProviderConfig): ProviderConfig {
    c.(arguments := EncodeArguments(c.arguments))
  }

  function EncodeResource(r: ResourceSpec): ResourceSpec {
    r.(arguments := EncodeArguments(r.arguments))
  }

  function EncodeDataSource(d: DataSourceSpec): DataSourceSpec {
    d.(arguments := EncodeArguments(d.arguments))
  }

  function EncodeOutputs(outputs: seq<Entry<OutputSpec>>): seq<Entry<OutputSpec>> {
    seq(|outputs|, i requires 0 <= i < |outputs| =>
      Entry(outputs[i].key, outputs[i].value.(value := Encode(outputs[i].value.value))))
  }

  function EncodeGraph(graph: Graph): GraphDocument {
    GraphDocument("1.0", Graph(
      FromEntries(graph.requiredProviders),
      seq(|graph.providerConfigs|, i requires 0 <= i < |graph.providerConfigs| =>
        EncodeConfig(graph.providerConfigs[i])),
      seq(|graph.resources|, i requires 0 <= i < |graph.resources| => EncodeResource(graph.resources[i])),
      seq(|graph.dataSources|, i requires 0 <= i < |graph.dataSources| => EncodeDataSource(graph.dataSources[i])),
      FromEntries(EncodeOutputs(graph.outputs)),
      graph.moves, graph.imports, graph.stackReferences))
  }

  // ----- encoding keeps what the validator looks at -----

  /** Encoded fields are the fields' encodings, in key order. */
  lemma EncodedFields(fields: seq<Entry<Expr>>)
    requires DistinctKeys(fields)
    ensures forall f :: f in fields ==> Entry(f.key, Encode(f.value)) in FromEntries(EncodeFields(fields))
    ensures forall g :: g in FromEntries(EncodeFields(fields)) ==>
                        exists f :: f in fields && g == Entry(f.key, Encode(f.value))
  {
    var encoded := EncodeFields(fields);
    FromDistinctEntries(encoded);
    forall f | f in fields
      ensures Entry(f.key, Encode(f.value)) in encoded
    {
      var i :| 0 <= i < |fields| && fields[i] == f;
      assert encoded[i] == Entry(f.key, Encode(f.value));
    }
    forall g | g in encoded
      ensures exists f :: f in fields && g == Entry(f.key, Encode(f.value))
    {
      var i :| 0 <= i < |encoded| && encoded[i] == g;
      assert fields[i] in fields;
    }
  }

  lemma EncodedItems(items: seq<Expr>)
    ensures forall x :: x in items ==> Encode(x) in EncodeAll(items)
    ensures forall y :: y in EncodeAll(items) ==> exists x :: x in items && y == Encode(x)
  {
    var encoded := EncodeAll(items);
    forall x | x in items
      ensures Encode(x) in encoded
    {
      var i :| 0 <= i < |items| && items[i] == x;
      assert encoded[i] == Encode(x);
    }
    forall y | y in encoded
      ensures exists x :: x in items && y == Encode(x)
    {
      var i :| 0 <= i < |encoded| && encoded[i] == y;
      assert items[i] in items;
    }
  }

  lemma EncodedParts(parts: seq<TemplatePart>)
    ensures forall p :: p in parts ==> EncodePart(p) in EncodeParts(parts)
    ensures forall q :: q in EncodeParts(parts) ==> exists p :: p in parts && q == EncodePart(p)
  {
    var encoded := EncodeParts(parts);
    forall p | p in parts
      ensures EncodePart(p) in encoded
    {
      var i :| 0 <= i < |parts| && parts[i] == p;
      assert encoded[i] == EncodePart(p);
    }
    forall q | q in encoded
      ensures exists p :: p in parts && q == EncodePart(p)
    {
      var i :| 0 <= i < |encoded| && encoded[i] == q;
      assert parts[i] in parts;
    }
  }

  /** What encoding keeps of one expression. */
  ghost predicate Kept(e: Expr) {
    References(Encode(e)) == References(e) && (WellFormed(Encode(e)) <==> WellFormed(e))
  }

  lemma ItemsKept(items: seq<Expr>, name: string)
    requires forall x :: x in items ==> Kept(x)
    ensures Kept(Array(items)) && Kept(Function(name, items))
  {
    EncodedItems(items);
    var encoded := EncodeAll(items);
    assert forall y :: y in encoded ==> exists x :: x in items && y == Encode(x) && Kept(x);
    assert forall x :: x in items ==> Encode(x) in encoded && Kept(x);
  }

  lemma FieldsKept(fields: seq<Entry<Expr>>)
    requires DistinctKeys(fields)
    requires forall f :: f in fields ==> Kept(f.value)
    ensures Kept(Object(fields))
  {
    EncodedFields(fields);
    var encoded := FromEntries(EncodeFields(fields));
    assert forall g :: g in encoded ==> exists f :: f in fields && g == Entry(f.key, Encode(f.value)) && Kept(f.value);
    assert forall f :: f in fields ==> Entry(f.key, Encode(f.value)) in encoded && Kept(f.value);
  }

  lemma PartsKept(parts: seq<TemplatePart>)
    requires forall p :: p in parts && p.Interpolation? ==> Kept(p.expression)
    ensures Kept(Template(parts))
  {
    EncodedParts(parts);
    var encoded := EncodeParts(parts);
    forall q | q in encoded && q.Interpolation?
      ensures exists p :: p in parts && p.Interpolation? && q.expression == Encode(p.expression) && Kept(p.expression)
    {
      var p :| p in parts && q == EncodePart(p);
    }
    forall p | p in parts && p.Interpolation?
      ensures Interpolation(Encode(p.expression)) in encoded
    {
      assert EncodePart(p) in encoded;
    }
  }

  /** Without repeated keys, an encoded expression mentions the same addresses and is well
      formed exactly when the expression is. */
  lemma {:induction false} EncodeKeeps(e: Expr)
    requires ExprUnique(e)
    ensures Kept(e)
  {
    match e
    case Array(items) =>
      forall x | x in items { EncodeKeeps(x); }
      ItemsKept(items, "");
    case Object(fields) =>
      forall f | f in fields { EncodeKeeps(f.value); }
      FieldsKept(fields);
    case Index(collection, key) => EncodeKeeps(collection); EncodeKeeps(key);
    case Attribute(of, _) => EncodeKeeps(of);
    case Splat(of) => EncodeKeeps(of);
    case Conditional(condition, whenTrue, whenFalse) =>
      EncodeKeeps(condition); EncodeKeeps(whenTrue); EncodeKeeps(whenFalse);
    case Function(name, args) =>
      forall x | x in args { EncodeKeeps(x); }
      ItemsKept(args, name);
    case Template(parts) =>
      forall p | p in parts && p.Interpolation? { EncodeKeeps(p.expression); }
      PartsKept(parts);
    case _ =>
  }

  // ----- the encoded graph -----

  /** Every entry of `a` has one in `b` that looks the same to the validator. */
  ghost predicate Covers(a: seq<Entry<Expr>>, b: seq<Entry<Expr>>) {
    forall f :: f in a ==>
      exists g :: g in b && References(f.value) == References(g.value) && (WellFormed(f.value) <==> WellFormed(g.value))
  }

  lemma CoveringValues(a: seq<Entry<Expr>>, b: seq<Entry<Expr>>, addresses: set<Address>)
    requires Covers(a, b) && Documents.ValidValues(b, addresses)
    ensures Documents.ValidValues(a, addresses)
  {
  }

  lemma CoveringEdges(owner: Address, a: seq<Entry<Expr>>, b: seq<Entry<Expr>>, explicit: seq<Address>)
    requires Covers(a, b)
    ensures Documents.EdgesOf(owner, a, explicit) <= Documents.EdgesOf(owner, b, explicit)
  {
    forall f, from | f in a && from in References(f.value)
      ensures Dependency(from, owner, false) in Documents.EdgesOf(owner, b, explicit)
    {
      var g :| g in b && References(f.value) == References(g.value);
    }
  }

  lemma ArgumentsCovered(arguments: seq<Entry<Expr>>)
    requires ArgumentsUnique(arguments)
    ensures Covers(arguments, EncodeArguments(arguments))
  {
    EncodedFields(arguments);
    forall f | f in arguments
      ensures Kept(f.value) && Entry(f.key, Encode(f.value)) in EncodeArguments(arguments)
    {
      EncodeKeeps(f.value);
    }
  }

  lemma EncodedCovered(arguments: seq<Entry<Expr>>)
    requires ArgumentsUnique(arguments)
    ensures Covers(EncodeArguments(arguments), arguments)
  {
    EncodedFields(arguments);
    forall g | g in EncodeArguments(arguments)
      ensures exists f :: f in arguments && References(g.value) == References(f.value)
                          && (WellFormed(g.value) <==> WellFormed(f.value))
    {
      var f :| f in arguments && g == Entry(f.key, Encode(f.value));
      EncodeKeeps(f.value);
    }
  }

  lemma ValuesKept(arguments: seq<Entry<Expr>>, addresses: set<Address>)
    requires ArgumentsUnique(arguments)
    ensures Documents.ValidValues(EncodeArguments(arguments), addresses) <==>
            Documents.ValidValues(arguments, addresses)
  {
    if Documents.ValidValues(arguments, addresses) {
      EncodedCovered(arguments);
      CoveringValues(EncodeArguments(arguments), arguments, addresses);
    } else if Documents.ValidValues(EncodeArguments(arguments), addresses) {
      ArgumentsCovered(arguments);
      CoveringValues(arguments, EncodeArguments(arguments), addresses);
    }
  }

  lemma EdgesKept(owner: Address, arguments: seq<Entry<Expr>>, explicit: seq<Address>)
    requires ArgumentsUnique(arguments)
    ensures Documents.EdgesOf(owner, EncodeArguments(arguments), explicit)
         == Documents.EdgesOf(owner, arguments, explicit)
  {
    assert Documents.EdgesOf(owner, arguments, explicit)
        <= Documents.EdgesOf(owner, EncodeArguments(arguments), explicit) by {
      ArgumentsCovered(arguments);
      CoveringEdges(owner, arguments, EncodeArguments(arguments), explicit);
    }
    EncodedCovered(arguments);
    CoveringEdges(owner, EncodeArguments(arguments), arguments, explicit);
  }

  lemma ConfigsKept(graph: Graph, addresses: set<Address>)
    requires forall c :: c in graph.providerConfigs ==> ArgumentsUnique(c.arguments)
    ensures var before, after := graph.providerConfigs, EncodeGraph(graph).graph.providerConfigs;
            && ConfigAddresses(after) == ConfigAddresses(before)
            && (Documents.ValidConfigNames(after) <==> Documents.ValidConfigNames(before))
            && ((forall c :: c in after ==> Documents.ValidValues(c.arguments, addresses)) <==>
                forall c :: c in before ==> Documents.ValidValues(c.arguments, addresses))
  {
    var before, after := graph.providerConfigs, EncodeGraph(graph).graph.providerConfigs;
    assert forall i :: 0 <= i < |before| ==> after[i] == EncodeConfig(before[i]);
    assert ConfigAddresses(after) == ConfigAddresses(before);
    forall i | 0 <= i < |before|
      ensures after[i] in after && before[i] in before
      ensures Documents.ValidValues(after[i].arguments, addresses) <==>
              Documents.ValidValues(before[i].arguments, addresses)
    {
      ValuesKept(before[i].arguments, addresses);
    }
  }

  lemma ResourcesKept(graph: Graph, addresses: set<Address>, configured: set<string>)
    requires forall r :: r in graph.resources ==> ArgumentsUnique(r.arguments)
    ensures var before, after := graph.resources, EncodeGraph(graph).graph.resources;
            && ResourceAddresses(after) == ResourceAddresses(before)
            && ((forall r :: r in after ==> Documents.ValidResource(r, addresses, configured)) <==>
                forall r :: r in before ==> Documents.ValidResource(r, addresses, configured))
            && Documents.EdgesInto(after, []) == Documents.EdgesInto(before, [])
  {
    var before, after := graph.resources, EncodeGraph(graph).graph.resources;
    forall i | 0 <= i < |before|
      ensures after[i] in after && before[i] in before && after[i].Address() == before[i].Address()
      ensures Documents.ValidResource(after[i], addresses, configured) <==>
              Documents.ValidResource(before[i], addresses, configured)
      ensures Documents.ResourceEdges(after[i]) == Documents.ResourceEdges(before[i])
    {
      var r := before[i];
      ValuesKept(r.arguments, addresses);
      EdgesKept(r.Address(), r.arguments, r.dependsOn + r.Triggers());
    }
    assert ResourceAddresses(after) == ResourceAddresses(before);
    SameEdges(before, after);
    SameEdges(after, before);
  }

  lemma SameEdges(a: seq<ResourceSpec>, b: seq<ResourceSpec>)
    requires |a| == |b|
    requires forall i :: 0 <= i < |a| ==> Documents.ResourceEdges(a[i]) == Documents.ResourceEdges(b[i])
    ensures Documents.EdgesInto(a, []) <= Documents.EdgesInto(b, [])
  {
    forall e | e in Documents.EdgesInto(a, [])
      ensures e in Documents.EdgesInto(b, [])
    {
      var i :| 0 <= i < |a| && e in Documents.ResourceEdges(a[i]);
      assert b[i] in b;
    }
  }

  lemma DataSourcesKept(graph: Graph, addresses: set<Address>, configured: set<string>)
    requires forall d :: d in graph.dataSources ==> ArgumentsUnique(d.arguments)
    ensures var before, after := graph.dataSources, EncodeGraph(graph).graph.dataSources;
            && DataSourceAddresses(after) == DataSourceAddresses(before)
            && ((forall d :: d in after ==> Documents.ValidDataSource(d, addresses, configured)) <==>
                forall d :: d in before ==> Documents.ValidDataSource(d, addresses, configured))
            && Documents.EdgesInto([], after) == Documents.EdgesInto([], before)
  {
    var before, after := graph.dataSources, EncodeGraph(graph).graph.dataSources;
    forall i | 0 <= i < |before|
      ensures after[i] in after && before[i] in before && after[i].Address() == before[i].Address()
      ensures Documents.ValidDataSource(after[i], addresses, configured) <==>
              Documents.ValidDataSource(before[i], addresses, configured)
      ensures Documents.DataSourceEdges(after[i]) == Documents.DataSourceEdges(before[i])
    {
      var d := before[i];
      ValuesKept(d.arguments, addresses);
      EdgesKept(d.Address(), d.arguments, d.dependsOn);
    }
    assert DataSourceAddresses(after) == DataSourceAddresses(before);
    SameDataEdges(before, after);
    SameDataEdges(after, before);
  }

  lemma SameDataEdges(a: seq<DataSourceSpec>, b: seq<DataSourceSpec>)
    requires |a| == |b|
    requires forall i :: 0 <= i < |a| ==> Documents.DataSourceEdges(a[i]) == Documents.DataSourceEdges(b[i])
    ensures Documents.EdgesInto([], a) <= Documents.EdgesInto([], b)
  {
    forall e | e in Documents.EdgesInto([], a)
      ensures e in Documents.EdgesInto([], b)
    {
      var i :| 0 <= i < |a| && e in Documents.DataSourceEdges(a[i]);
      assert b[i] in b;
    }
  }

  lemma OutputsKept(graph: Graph, addresses: set<Address>)
    requires DistinctKeys(graph.outputs)
    requires forall o :: o in graph.outputs ==> ExprUnique(o.value.value)
    ensures (forall o :: o in EncodeGraph(graph).graph.outputs ==> Documents.ValidExpr(o.value.value, addresses)) <==>
            forall o :: o in graph.outputs ==> Documents.ValidExpr(o.value.value, addresses)
  {
    var before, encoded := graph.outputs, EncodeOutputs(graph.outputs);
    FromDistinctEntries(encoded);
    var after := EncodeGraph(graph).graph.outputs;
    forall i | 0 <= i < |before|
      ensures encoded[i] in after && before[i] in before
      ensures Documents.ValidExpr(encoded[i].value.value, addresses) <==>
              Documents.ValidExpr(before[i].value.value, addresses)
    {
      EncodeKeeps(before[i].value.value);
      assert encoded[i] in encoded;
    }
    forall o | o in after
      ensures exists i :: 0 <= i < |before| && o == encoded[i]
    {
      assert o in encoded;
    }
  }

  lemma AddressesKept(graph: Graph)
    requires GraphUnique(graph)
    ensures Addresses(EncodeGraph(graph).graph) == Addresses(graph)
    ensures Documents.Edges(EncodeGraph(graph).graph) == Documents.Edges(graph)
  {
    var encoded := EncodeGraph(graph).graph;
    ResourcesKept(graph, {}, {});
    DataSourcesKept(graph, {}, {});
    EdgesSplit(graph);
    EdgesSplit(encoded);
  }

  lemma EdgesSplit(graph: Graph)
    ensures Documents.Edges(graph)
         == Documents.EdgesInto(graph.resources, []) + Documents.EdgesInto([], graph.dataSources)
  {
  }

  lemma ContentsKept(graph: Graph)
    requires GraphUnique(graph)
    ensures Documents.ValidContents(EncodeGraph(graph).graph) <==> Documents.ValidContents(graph)
  {
    var addresses, configured := Elements(Addresses(graph)), Documents.ConfiguredProviders(graph);
    AddressesKept(graph);
    ConfigsKept(graph, addresses);
    ResourcesKept(graph, addresses, configured);
    DataSourcesKept(graph, addresses, configured);
    OutputsKept(graph, addresses);
  }

  /** Encoding a graph without repeated keys keeps its nodes, its edges, and its validity. */
  lemma EncodedGraphKept(graph: Graph, blank: string -> bool)
    requires GraphUnique(graph)
    ensures var encoded := EncodeGraph(graph).graph;
            && Addresses(encoded) == Addresses(graph)
            && Documents.Edges(encoded) == Documents.Edges(graph)
            && (Documents.ValidParts(encoded, blank) <==> Documents.ValidParts(graph, blank))
  {
    FromDistinctEntries(graph.requiredProviders);
    AddressesKept(graph);
    ConfigsKept(graph, {});
    ContentsKept(graph);
  }

  lemma EncodedIsValid(graph: Graph, blank: string -> bool)
    requires GraphUnique(graph)
    ensures Documents.Valid(EncodeGraph(graph), blank) <==>
            Documents.ValidParts(graph, blank) && Acyclic(Documents.DependsOn(Documents.Edges(graph)))
  {
    EncodedGraphKept(graph, blank);
    assert Documents.FirstComponent("1.0") == "1";
  }

  lemma BlankIdsAgree(graph: Graph, a: string -> bool, b: string -> bool)
    requires forall m :: m in graph.imports ==> a(m.id) == b(m.id)
    ensures Documents.ValidParts(graph, a) <==> Documents.ValidParts(graph, b)
  {
    var addresses := Elements(Addresses(graph));
    assert Documents.ValidImports(graph.imports, addresses, a) <==>
           Documents.ValidImports(graph.imports, addresses, b);
  }

  lemma BlankIdsRefused(graph: Graph, blank: string -> bool)
    requires Documents.ValidParts(graph, _ => false)
    ensures Documents.ValidParts(graph, blank) <==> !exists m :: m in graph.imports && blank(m.id)
  {
  }

  /** The two validators agree: the program-side one accepts a graph exactly when no object in it
      repeats a key, its outputs are named by identifiers, and the reference validator accepts
      the document it is encoded as. Their blank-id tests need only agree on the ids it imports. */
  lemma ValidatorsAgree(graph: Graph, programBlank: string -> bool, documentBlank: string -> bool)
    requires forall m :: m in graph.imports ==> programBlank(m.id) == documentBlank(m.id)
    ensures ProgramValidation.Validate(graph, programBlank) <==>
            GraphUnique(graph) && OutputsNamed(graph) && Documents.Valid(EncodeGraph(graph), documentBlank)
  {
    ProgramValidateSpec(graph, programBlank);
    if GraphUnique(graph) {
      EncodedIsValid(graph, documentBlank);
      BlankIdsAgree(graph, programBlank, documentBlank);
    }
  }

  /** Where the two blank-id tests differ, the validators differ: an otherwise valid graph that
      imports an id only one test calls blank is accepted by the other validator alone. */
  lemma BlankTestsDecide(graph: Graph, programBlank: string -> bool, documentBlank: string -> bool)
    requires GraphUnique(graph) && OutputsNamed(graph)
    requires Documents.ValidParts(graph, _ => false)
    requires Acyclic(Documents.DependsOn(Documents.Edges(graph)))
    ensures (ProgramValidation.Validate(graph, programBlank) <==>
             Documents.Valid(EncodeGraph(graph), documentBlank)) <==>
            ((exists m :: m in graph.imports && programBlank(m.id)) <==>
             (exists m :: m in graph.imports && documentBlank(m.id)))
  {
    ProgramValidateSpec(graph, programBlank);
    EncodedIsValid(graph, documentBlank);
    BlankIdsRefused(graph, programBlank);
    BlankIdsRefused(graph, documentBlank);
  }
}
