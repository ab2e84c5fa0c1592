/** Replacing every stack reference by the remote-state data source that reads the stack. */
module StackReferences {
  import opened Wrappers
  import opened Walks
  import opened SortedMap
  import opened GraphIr
  import opened Documents

  /** A stack's backend type and configuration. */
  datatype Backend = Backend(kind: string, config: seq<Entry<Value>>)

  /** The answer to each call: the backend is asked once for each reference, in order, and may
      answer the same name differently on another call. */
  type Backends<!E> = (nat, string) -> Result<Backend, E>

  function RemoteState(stack: string, backend: Backend): DataSourceSpec {
    DataSourceSpec(
      REMOTE_STATE, stack,
      [Entry("backend", Literal(Text(backend.kind))), Entry("config", Literal(Record(backend.config)))],
      [], None)
  }

  /** The stack a data source reads, and the backend it reads it from: one that has these two
      literal arguments and nothing else. */
  ghost function ReadBack(d: DataSourceSpec): Option<(string, Backend)> {
    var backend, config := Lookup(d.arguments, "backend"), Lookup(d.arguments, "config");
    if && d.kind == "terraform_remote_state" && d.dependsOn == [] && d.provider.None? && |d.arguments| == 2
       && backend.Some? && backend.value.Literal? && backend.value.value.Text?
       && config.Some? && config.value.Literal? && config.value.value.Record?
    then Some((d.name, Backend(backend.value.value.text, config.value.value.members)))
    else None
  }

  lemma RemoteStateReadsBack(stack: string, backend: Backend)
    ensures Sorted(RemoteState(stack, backend).arguments)
    ensures ReadBack(RemoteState(stack, backend)) == Some((stack, backend))
  {
    var arguments := RemoteState(stack, backend).arguments;
    assert "backend"[0] == 'b' && "config"[0] == 'c';
    assert Lookup(arguments, "config") == Lookup(arguments[1..], "config");
    assert arguments[1..][0] == arguments[1];
  }

  /** Key-sorted arguments and what is read from them leave no choice. */
  lemma OnlyRemoteState(d: DataSourceSpec, stack: string, backend: Backend)
    requires Sorted(d.arguments)
    ensures ReadBack(d) == Some((stack, backend)) <==> d == RemoteState(stack, backend)
  {
    RemoteStateReadsBack(stack, backend);
    if ReadBack(d) == Some((stack, backend)) {
      LookupMember(d.arguments, "backend");
      LookupMember(d.arguments, "config");
      assert d.arguments == [d.arguments[0], d.arguments[1]];
    }
  }

  /** The added data sources read back, in order, as the references with their answers, and
      everything else is as it was. */
  ghost predicate ReadsBack<E>(doc: GraphDocument, resolved: GraphDocument, backends: Backends<E>)
    requires Answered(doc.graph.stackReferences, backends)
  {
    var stacks, before, after := doc.graph.stackReferences, doc.graph.dataSources, resolved.graph.dataSources;
    && resolved == doc.(graph := doc.graph.(stackReferences := [], dataSources := after))
    && |after| == |before| + |stacks|
    && after[..|before|] == before
    && forall i :: 0 <= i < |stacks| ==>
                     ReadBack(after[|before| + i]) == Some((stacks[i], backends(i, stacks[i]).value))
  }

  lemma ResolvedReadsBack<E>(doc: GraphDocument, backends: Backends<E>)
    requires Answered(doc.graph.stackReferences, backends)
    ensures ReadsBack(doc, Resolved(doc, backends), backends)
  {
    var stacks := doc.graph.stackReferences;
    forall i | 0 <= i < |stacks| {
      RemoteStateReadsBack(stacks[i], backends(i, stacks[i]).value);
    }
  }

  ghost predicate Answered<E>(stacks: seq<string>, backends: Backends<E>) {
    forall i :: 0 <= i < |stacks| ==> backends(i, stacks[i]).Ok?
  }

  ghost function RemoteStates<E>(stacks: seq<string>, backends: Backends<E>): seq<DataSourceSpec>
    requires Answered(stacks, backends)
  {
    seq(|stacks|, i requires 0 <= i < |stacks| => RemoteState(stacks[i], backends(i, stacks[i]).value))
  }

  /** The document without references, one data source more for each. */
  ghost function Resolved<E>(doc: GraphDocument, backends: Backends<E>): GraphDocument
    requires Answered(doc.graph.stackReferences, backends)
  {
    doc.(graph := doc.graph.(
      stackReferences := [],
      dataSources := doc.graph.dataSources + RemoteStates(doc.graph.stackReferences, backends)))
  }

  /** Fails with the first refusal, and otherwise returns the resolved document. */
  method ResolveStackReferences<E>(doc: GraphDocument, backends: Backends<E>)
    returns (result: Result<GraphDocument, E>)
    ensures result.Ok? <==> Answered(doc.graph.stackReferences, backends)
    ensures result.Ok? ==> result.value == Resolved(doc, backends)
    ensures result.Ok? ==> ReadsBack(doc, result.value, backends)
    ensures result.Err? ==> exists i ::
              && 0 <= i < |doc.graph.stackReferences|
              && Answered(doc.graph.stackReferences[..i], backends)
              && backends(i, doc.graph.stackReferences[i]) == Err(result.error)
  {
    var stacks := doc.graph.stackReferences;
    var dataSources := doc.graph.dataSources;
    for i := 0 to |stacks|
      invariant Answered(stacks[..i], backends)
      invariant dataSources == doc.graph.dataSources + RemoteStates(stacks[..i], backends)
    {
      var answer := backends(i, stacks[i]);
      if answer.Err? {
        return Err(answer.error);
      }
      assert stacks[..i + 1] == stacks[..i] + [stacks[i]];
      dataSources := dataSources + [RemoteState(stacks[i], answer.value)];
    }
    assert stacks[..|stacks|] == stacks;
    ResolvedReadsBack(doc, backends);
    return Ok(doc.(graph := doc.graph.(stackReferences := [], dataSources := dataSources)));
  }

  lemma ResolvedAddresses<E>(doc: GraphDocument, backends: Backends<E>)
    requires Answered(doc.graph.stackReferences, backends)
    ensures Addresses(Resolved(doc, backends).graph) == Addresses(doc.graph)
  {
    var graph, resolved := doc.graph, Resolved(doc, backends).graph;
    assert DataSourceAddresses(resolved.dataSources)
        == DataSourceAddresses(graph.dataSources) + StackAddresses(graph.stackReferences);
    assert StackAddresses(resolved.stackReferences) == [];
  }

  lemma RemoteStateHasNoEdges(stack: string, backend: Backend)
    ensures DataSourceEdges(RemoteState(stack, backend)) == {}
    ensures forall addresses, configured :: ValidDataSource(RemoteState(stack, backend), addresses, configured)
  {
    var added := RemoteState(stack, backend);
    assert forall a :: a in added.arguments ==> a.value.Literal?;
  }

  lemma ResolvedEdges<E>(doc: GraphDocument, backends: Backends<E>)
    requires Answered(doc.graph.stackReferences, backends)
    ensures Edges(Resolved(doc, backends).graph) == Edges(doc.graph)
  {
    var added := RemoteStates(doc.graph.stackReferences, backends);
    forall d | d in added
      ensures DataSourceEdges(d) == {}
    {
      var i :| 0 <= i < |added| && added[i] == d;
      RemoteStateHasNoEdges(doc.graph.stackReferences[i], backends(i, doc.graph.stackReferences[i]).value);
    }
    assert EdgesInto([], added) == {};
    DataSourceEdgesAppend(doc.graph.dataSources, added);
  }

  lemma ResolvedContents<E>(doc: GraphDocument, backends: Backends<E>)
    requires Answered(doc.graph.stackReferences, backends)
    ensures ValidContents(Resolved(doc, backends).graph) <==> ValidContents(doc.graph)
  {
    ResolvedAddresses(doc, backends);
    var before, added := doc.graph.dataSources, RemoteStates(doc.graph.stackReferences, backends);
    var addresses, configured := Elements(Addresses(doc.graph)), ConfiguredProviders(doc.graph);
    forall d | d in added
      ensures ValidDataSource(d, addresses, configured)
    {
      var i :| 0 <= i < |added| && added[i] == d;
      RemoteStateHasNoEdges(doc.graph.stackReferences[i], backends(i, doc.graph.stackReferences[i]).value);
    }
    assert forall d :: d in before + added <==> d in before || d in added;
  }

  /** Resolving keeps the nodes, their order, the edges and validity, whatever the backends
      answer; it leaves no reference. */
  lemma ResolvingKeepsTheGraph<E>(doc: GraphDocument, backends: Backends<E>, blank: string -> bool)
    requires Answered(doc.graph.stackReferences, backends)
    ensures var resolved := Resolved(doc, backends);
            && resolved.graph.stackReferences == []
            && Addresses(resolved.graph) == Addresses(doc.graph)
            && Edges(resolved.graph) == Edges(doc.graph)
            && (Valid(resolved, blank) <==> Valid(doc, blank))
  {
    ResolvedAddresses(doc, backends);
    ResolvedEdges(doc, backends);
    ResolvedContents(doc, backends);
  }
}
