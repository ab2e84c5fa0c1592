/** The two tests of a blank import id, and a graph on which they part the validators. */
module BlankIds {
  import opened Walks
  import opened GraphIr
  import Documents
  import ProgramValidation
  import opened Agreement
  import opened Encoding

  /** The characters `str::trim` strips: those with the Unicode property White_Space. */
  predicate Trimmed(c: char) {
    || '\t' <= c <= '\r' || c == ' ' || c == '\U{85}' || c == '\U{A0}' || c == '\U{1680}'
    || '\U{2000}' <= c <= '\U{200A}' || c == '\U{2028}' || c == '\U{2029}' || c == '\U{202F}'
    || c == '\U{205F}' || c == '\U{3000}'
  }

  /** The characters `Char.isWhitespace` knows. */
  predicate IsWhitespace(c: char) {
    c == ' ' || c == '\t' || c == '\r' || c == '\n'
  }

  predicate TrimsToNothing(id: string) {
    forall i :: 0 <= i < |id| ==> Trimmed(id[i])
  }

  predicate AllWhitespace(id: string) {
    forall i :: 0 <= i < |id| ==> IsWhitespace(id[i])
  }

  /** What the document's validator accepts of a graph without repeated keys and with identifier
      outputs, the program's accepts: its test calls fewer ids blank. */
  lemma ProgramTestIsLaxer(graph: Graph)
    requires GraphUnique(graph) && OutputsNamed(graph)
    requires Documents.Valid(EncodeGraph(graph), TrimsToNothing)
    ensures ProgramValidation.Validate(graph, AllWhitespace)
  {
    EncodedGraphKept(graph, TrimsToNothing);
    forall m | m in graph.imports
      ensures AllWhitespace(m.id) == TrimsToNothing(m.id)
    {
    }
    ValidatorsAgree(graph, AllWhitespace, TrimsToNothing);
  }

  /** A graph with nothing else wrong that imports the id of one no-break space: the program's
      validator accepts it, the document's rejects it. */
  lemma NoBreakSpaceParts(graph: Graph, to: Address)
    requires GraphUnique(graph) && OutputsNamed(graph)
    requires Documents.ValidParts(graph, _ => false)
    requires Acyclic(Documents.DependsOn(Documents.Edges(graph)))
    requires graph.imports == [ImportSpec(to, "\U{A0}")]
    ensures ProgramValidation.Validate(graph, AllWhitespace)
    ensures !Documents.Valid(EncodeGraph(graph), TrimsToNothing)
  {
    var id := "\U{A0}";
    assert graph.imports[0] in graph.imports;
    assert !AllWhitespace(id) by {
      assert !IsWhitespace(id[0]);
    }
    assert TrimsToNothing(id);
    BlankTestsDecide(graph, AllWhitespace, TrimsToNothing);
    ProgramValidateSpec(graph, AllWhitespace);
  }
}
