# Inframe, modelled and proved

Inframe validates a graph of resources, orders it, normalizes provider schemas with sharing and
prints the graph in OpenTofu's syntax. This project models those parts in Dafny and proves what
they are for. `dafny verify dfyconfig.toml` checks everything.

**Graphs, validated twice.** `GraphIr` is the graph. `CycleSearch` is the stateful depth-first
search of the Rust validator, `FuelSearch` the same search as the Lean validator runs it on fuel;
both are proved sound and complete (`Walks` defines walks and cycles). `Documents` is the Rust
validator, as methods proved against a declarative `Valid`; `ProgramValidation` is the Lean one, as
functions; `Agreement` reads every Lean check as a condition on the graph; `Encoding` is the Lean
encoder, whose maps keep the last of two equal keys, and holds the agreement of the two validators.
`WrittenForms` says, as a relation and without the encoder, what document a graph is written as and
what a policy reads of it; `EncodedForms` proves the encoder gives that document and no other.
`LastEntries` says which entry of a repeated key counts.
The two tests of a blank import id (Rust's `trim`, Lean's `Char.isWhitespace`) are parameters
there; `BlankIds` defines them. One finding: an id of one no-break space parts the validators
(`NoBreakSpaceParts`), and `BlankTestsDecide` says exactly when they part.
`StackReferences` replaces stack references by data sources, `StackOrder` orders stacks.

**Printing.** `Escaping` and `Templates` work on characters: escaping, building a template, decoding
it; `TemplateSafety` says when decoding gives back what was built. `Hcl` prints expressions as
tokens and names what the syntax writes alike: a literal collection and the collection of its
literals, an attribute of a reference and a longer path. `HclParser` is a recursive-descent reader
following the HCL Native Syntax Specification ("Collection Values", "Conditional Operator", "Index
Operator", "Attribute Access Operator", "Splat Operators", "Template Literals"). Steps written after
`[*]` belong to the splat's node here, while "Splat Operators" applies them to each element: the two
trees are identified. `HclReassoc` says where a reader puts what is written after a conditional,
`HclForHeads` which arrays open a for-expression, `HclSteps` and `HclRoundTrip` prove the reader
inverts the printer, and `Lowering` does the same for arguments in the JSON syntax. `HclNormalText`
proves that the reader identifies only what is written alike. `Quoting` is the quoting of text on
characters, `Secrets` ties printed secrets to the declared variables. The findings:

- The printer adds no parentheses around conditionals, so the text of a tree with a conditional
  before an index, attribute, splat or another `?` reads as a different tree, as in
  `AttributeMovesIntoBranch`.
- A resource kind or a function may be called `for`, and an array whose first item's text starts
  with it opens a for-expression ("Collection Values" gives that the priority), so the text does not
  read as an array, as in `ForKindIsNotRead`. `PrintedReadsBack` says that these two are all that can
  go wrong in a readable tree, and `PrintedReads` which tree is read.
- A template whose literal part ends in `$` before an interpolation loses the interpolation
  (`DollarLosesInterpolation`). `TemplateReadsBack` gives the exact condition; a `%` there is
  harmless, and a literal that begins with `{` after one that ends in a marker is not.
- A text with a backspace or a form feed is quoted with the JSON escapes `\b` and `\f`, which a
  quoted template does not know; `QuotedReads` says that no other text is affected.

**Lists and maps in place.** `SortedMap` and `OrderedMap` are maps as entry lists, filled one
insertion at a time. `EntryLists` and `RepeatedKeys` are the in-place array algorithms that have to
give the same: a stable sort with a swapping dedup, and an index sort with swaps and a retain
(`StableOrder` is the order a stable sort gives). `Compacting` is the chunked JSON compactor with
its skips over runs of bytes, refining a byte-at-a-time machine; `CompactTokens` compares the
tokens and `KeptBytes` the bytes before and after, with strings and whitespace as in sections 2 and
7 of RFC 8259.

**Sharing.** `Bindings` and `Schemas` are the data. `Interning` hands out one handle for each
distinct list, `Derivation` is the uncached derivation of field lists, `Deriving` the memoizing one,
and `DerivedForms` reads schemas back from derived lists.
`Shapes` is the memoized walk over a trie of paths; `ShapeWalks` and `ShapeLogs` say what such a
walk meets, `ShapeChains` says it by chains of fields, and `ShapeSharing` what rendering may rely on
afterwards. One finding: when two object
fields of one record share a public name but not their shape, lookups still succeed but one is
wrong; `LookupsAreRightIffCoherent` says exactly when all are right.

**Writing in parallel.** `Outputs` is the buffered output, for any buffer size and any write that
fails. `Writer` is the worker pool as interleaved steps over a shared counter and flag, where a
relaxed read of the flag may be stale.

**Normalizing.** `Normalizing` and `Normalizer` are the one-pass normalizer, which carries problems
as values; `Collapsing` is the reference that replaces repeated names first and stops at the first
problem, and `SinglePass` proves they agree on every document. `SchemaForms` says, as a relation,
which schema a document describes; `SchemaReading` proves that reading succeeds exactly with it, and
`RawForms` writes schemas as documents that read back.

## Model

| member | source | states |
|---|---|---|
| `CycleSearch.Search.Visit` | crates/graph-ir/src/lib.rs:946-969 | One descent: without a cycle it puts back the path, and the finished nodes grow to an order in which every node's dependencies come before it; a returned list is a real cycle of dependency edges, closed and of at least one step. It ends because the path never repeats a node. |
| `CycleSearch.Upstream` | crates/graph-ir/src/lib.rs:935-938 | The dependency map holds exactly the edges. |
| `CycleSearch.FindCycle` | crates/graph-ir/src/lib.rs:934-944 | Returns nothing exactly when the edges have no cycle; what it returns is a cycle. |
| `FuelSearch.UpstreamOfSpec` | lean/Inframe/Validate.lean:297-298 | The listed upstream addresses of a node are exactly those its edges name. |
| `FuelSearch.CloseCycleIsCycle` | lean/Inframe/Validate.lean:300-303 | Reaching a node again on the descent closes a real cycle, read back in dependency order. |
| `FuelSearch.SearchCycleSpec` | lean/Inframe/Validate.lean:305-318 | With fuel for the nodes not yet open, a search finishes its node with all its dependencies finished before, or returns a real cycle: the zero case decides nothing. |
| `FuelSearch.FuelNeverRunsOut` | lean/Inframe/Validate.lean:305-323 | One unit of fuel for each node and one more gives what any larger amount gives, when every edge comes from a node. |
| `FuelSearch.FindFromSpec` | lean/Inframe/Validate.lean:320-325 | The whole search succeeds exactly when the edges are acyclic and otherwise returns a real cycle. |
| `StackOrder.Ordering.Visit` | crates/cli/src/project.rs:1108-1133 | Lists a stack after everything it reads among the given stacks, leaving what was listed; or returns a cycle of references. |
| `StackOrder.StackOrder` | crates/cli/src/project.rs:1097-1106 | Succeeds exactly when the references among the given stacks are acyclic, with every stack once, after every listed stack it reads, and seeded by name: up to any stack of the sorted names, only that stack, the ones before it and what they reach are listed ahead of it. Otherwise the reported path is a cycle. |
| `Documents.CheckConfigNames` | crates/graph-ir/src/lib.rs:506-519 | Provider configurations pass exactly when their names are identifiers and their addresses distinct; the addresses collected are those of the configurations. |
| `Documents.Claim` | crates/graph-ir/src/lib.rs:521-544 | Addresses pass exactly when they are named by identifiers, distinct, and not taken yet. |
| `Documents.CheckOwner` | crates/graph-ir/src/lib.rs:713-736 | The expressions of a node are well formed and refer to nodes of the graph, and its explicit dependencies are nodes other than itself: if and only if. |
| `Documents.CheckSelection` | crates/graph-ir/src/lib.rs:871-896 | A selected provider is accepted exactly when it is an identifier, or two identifiers joined by a dot, and configured. |
| `Documents.SelectorDecided` | crates/graph-ir/src/lib.rs:879-883 | Splitting at the first dot and counting dots decides whether a text is an identifier or two joined by a dot. |
| `Documents.SelectionFindsItsConfig` | crates/graph-ir/src/lib.rs:864-869 | In valid configurations, a name selects the configuration without alias and `name.alias` the one with both: exactly when there is one. |
| `Documents.VersionOne` | crates/graph-ir/src/lib.rs:497-501 | The documents of version 1 are those whose version is 1, or 1. and anything. |
| `Documents.CheckTriggers` | crates/graph-ir/src/lib.rs:738-760 | Replacement triggers are resources of the graph: if and only if. |
| `Documents.CheckContents` | crates/graph-ir/src/lib.rs:546-584 | Everything written in resources, data sources, outputs and provider configurations is valid: if and only if. |
| `Documents.CheckMoves` | crates/graph-ir/src/lib.rs:586-594 | Move targets are nodes and no two are the same: if and only if. |
| `Documents.CheckImports` | crates/graph-ir/src/lib.rs:604-626 | Imports adopt resources of the graph, each at most once, with an id that is not blank: if and only if. |
| `Documents.AddDependencies` | crates/graph-ir/src/lib.rs:905-929 | Adds one implicit edge for every address any expression refers to and one explicit edge for every listed address. |
| `Documents.CollectEdges` | crates/graph-ir/src/lib.rs:633-657 | Collects exactly the edges the references, explicit dependencies and triggers of the graph stand for. |
| `Documents.Validate` | crates/graph-ir/src/lib.rs:496-602 | Accepts exactly the valid documents, whose edges have no cycle; reports a cycle exactly when a cycle is all that is wrong, and it is a real one. |
| `ProgramValidation.IdentifierOk` | lean/Inframe/Identifier.lean:13-26 | The recognizer on character lists accepts exactly what the reference validator calls an identifier. |
| `ProgramValidation.EnvironmentNameOk` | lean/Inframe/Identifier.lean:28-36 | The same for names of secrets. |
| `Agreement.SelectorsAgree` | lean/Inframe/Validate.lean:359-372 | The character-by-character selector parser accepts exactly the identifiers and the pairs of identifiers joined by a dot, as the reference validator does. |
| `Agreement.NodeNamesSpec` | lean/Inframe/Validate.lean:409-434 | The three name passes succeed exactly when the node names are valid, and then collect the node addresses in order. |
| `Agreement.StructureOkSpec` | lean/Inframe/Validate.lean:204-259 | An expression passes the structural checks exactly when it is well formed and no object in it repeats a key. |
| `Agreement.ContentsOkSpec` | lean/Inframe/Validate.lean:436-473 | The content passes accept exactly the valid contents with no repeated key and with outputs named by identifiers. |
| `Agreement.EdgesAgree` | lean/Inframe/Validate.lean:272-285 | The edge list, with its repeats, holds exactly the edges of the reference validator. |
| `Agreement.GraphCycleSpec` | lean/Inframe/Validate.lean:320-325 | On a graph whose other checks pass, the fuel search finds a cycle exactly when the edges have one, and then a real one. |
| `Agreement.ProgramValidateSpec` | lean/Inframe/Validate.lean:495-512 | The program-side validator accepts exactly the graphs whose parts are valid, whose edges are acyclic, that repeat no key and whose outputs are named by identifiers. |
| `Encoding.EncodeKeeps` | lean/Inframe/Json.lean:22-56 | Encoding an expression without repeated keys keeps what it refers to and whether it is well formed; `EncodedForms.EncodeIsWritten` says what it is encoded as. |
| `EncodedForms.EncodeIsWritten` | lean/Inframe/Json.lean:22-56 | An expression is encoded as the one document in which every operand, branch, name and scalar is in its own place, arrays match position by position, and each object is a key-sorted map that answers every key with the last entry of that key. |
| `EncodedForms.SortedEncodesAsItself` | lean/Inframe/Json.lean:22-56 | An expression whose objects are all key-sorted is encoded as itself. |
| `EncodedForms.EncodeGraphIsWritten` | lean/Inframe/Json.lean:114-132 | A graph is encoded as the one document that holds every node, requirement, output, move, import and reference in its place, each argument list written as above. |
| `Encoding.EncodedGraphKept` | lean/Inframe/Json.lean:114-132 | Encoding a graph without repeated keys keeps its nodes, its edges and the validity of its parts. |
| `Encoding.ValidatorsAgree` | lean/Inframe/Validate.lean:495-512 | The two validators agree: a graph is accepted on the program side exactly when no object repeats a key, outputs are named by identifiers, and the reference validator accepts the encoded document, given blank-id tests that agree on the imported ids. |
| `Encoding.BlankTestsDecide` | lean/Inframe/Validate.lean:490-490 | For a graph that is otherwise valid, the validators agree exactly when both blank-id tests find a blank import id or neither does. |
| `BlankIds.ProgramTestIsLaxer` | lean/Inframe/Validate.lean:490-490 | With the two tests as they are, whatever encoded document the reference validator accepts, the program-side one accepts, keys and output names given. |
| `BlankIds.NoBreakSpaceParts` | crates/graph-ir/src/lib.rs:615-617 | A graph with nothing else wrong that imports the id of one no-break space is accepted on the program side and rejected by the reference validator. |
| `EncodedForms.PoliciesReadWhatIsEncoded` | lean/Inframe/Validate.lean:164-173 | In every accepted graph, a policy's first-match lookup at every argument list, object expression and nested literal object finds, for every key, what the document the graph is written as holds there, down to the scalars. |
| `WrittenForms.FieldsLookedUp` | lean/Inframe/Validate.lean:164-173 | Reading alike, in terms of the lookup: every key is found in both lists or in neither, and what is found reads alike. |
| `EncodedForms.RepeatedKeysReadApart` | lean/Inframe/Validate.lean:164-166 | Without that rule they differ: of two entries of one key the policy reads the first and the document holds the last, and the two readings agree exactly when those entries read alike. |
| `StackReferences.ResolveStackReferences` | crates/graph-ir/src/lib.rs:685-705 | Answers with the first backend's error, or with the document in which each reference, in order, has become a data source that reads back as the reference's stack with its backend's kind and whole configuration, and everything else is as it was. |
| `StackReferences.OnlyRemoteState` | crates/graph-ir/src/lib.rs:693-702 | A data source with key-sorted arguments reads back as a stack and a backend exactly when it is the one written for them. |
| `StackReferences.ResolvingKeepsTheGraph` | crates/graph-ir/src/lib.rs:685-705 | Resolving leaves no reference and keeps the node addresses and their order, the dependency edges, and validity in both directions. |
| `Escaping.EscapeIsOnePass` | crates/opentofu/src/lib.rs:413-415 | Replacing the two markers one after the other equals one left-to-right pass. |
| `Templates.EscapeDecodes` | crates/opentofu/src/lib.rs:413-415 | Decoding an escaped text gives the text back and no interpolation. |
| `Templates.EscapeLeavesNothingLive` | crates/opentofu/src/lib.rs:413-415 | In an escaped text every `${` and `%{` stands behind a second marker, so none opens anything. |
| `Templates.EscapeInjective` | crates/opentofu/src/lib.rs:413-415 | Different texts escape differently. |
| `Templates.LowerTemplate` | crates/opentofu/src/lib.rs:254-267 | Building the template part by part gives the parts' printed forms in order. |
| `TemplateSafety.TemplateReadsBack` | crates/opentofu/src/lib.rs:254-267 | A built template decodes to exactly its parts, adjacent literals joined, if and only if no literal boundary falls inside a marker and no interpolation follows a `$`. |
| `TemplateSafety.DollarLosesInterpolation` | crates/opentofu/src/lib.rs:257-264 | A `$` before an interpolation makes the reader take the interpolation as text. |
| `HclReassoc.ReassocSpec` | crates/opentofu/src/lib.rs:298-316 | Moving the steps and question marks written after a conditional into its last branch leaves the text unchanged, and changes nothing in a tree where no conditional stands before one. |
| `HclRoundTrip.PrintedReads` | crates/opentofu/src/lib.rs:275-344 | The text of a readable expression parses as the expression with its conditionals where the text puts them, up to unfolded literal collections and folded attribute paths, if and only if no array in it has a first item whose text starts with `for`. |
| `HclRoundTrip.PrintedReadsBack` | crates/opentofu/src/lib.rs:275-344 | It parses as the same tree, up to that, if and only if no conditional is the base of an index, attribute or splat or the condition of another conditional, and no array's first item starts with `for`. |
| `HclRoundTrip.PrintingSeparates` | crates/opentofu/src/lib.rs:275-344 | Two expressions with the same text and no conditional before such a step are the same up to what the syntax writes alike, arrays that open a for-expression included. |
| `HclNormalText.NormalKeepsText` | crates/opentofu/src/lib.rs:275-392 | The form an expression is read as prints the expression's own text, templates with joined literals included. |
| `HclNormalText.SameTextIffSameNormal` | crates/opentofu/src/lib.rs:275-344 | Two expressions print alike if and only if, conditionals moved where the text puts them, their normal forms are the same: the reader identifies nothing the text keeps apart. |
| `HclRoundTrip.AttributeMovesIntoBranch` | crates/opentofu/src/lib.rs:305-316 | An attribute of a conditional reads as the conditional with the attribute in its last branch, which is another tree. |
| `HclRoundTrip.ForKindIsNotRead` | crates/opentofu/src/lib.rs:286-286 | A resource of kind `for`, which validation accepts, first in an array: a well-formed expression whose text does not read as it. |
| `HclForHeads.AllHeads` | crates/opentofu/src/lib.rs:286-286 | Whatever the reader gives back, for any text, no array in it opens a for-expression. |
| `HclRoundTrip.ValueExprReads` | crates/opentofu/src/lib.rs:354-392 | A literal inside an interpolation parses as the array or object expression it spells out, at every depth. |
| `HclRoundTrip.DataKindIsAmbiguous` | crates/graph-ir/src/lib.rs:242-253 | A resource of kind `data` prints like a data source. |
| `HclRoundTrip.KindReadsBack` | crates/opentofu/src/lib.rs:278-285 | A reference to a resource reads back if and only if its kind is not `null`, `true`, `false`, `var` or `data`. |
| `HclRoundTrip.NodesAreReferredTo` | crates/graph-ir/src/lib.rs:242-253 | Nodes are referred to by kind and name, data sources after `data`, stacks as `terraform_remote_state`. |
| `Quoting.QuotedReads` | crates/opentofu/src/lib.rs:409-411 | Quoted text unquotes to itself if and only if it holds neither a backspace nor a form feed, whose JSON escapes the native syntax does not know; otherwise it does not read at all. |
| `Quoting.LiteralTextReads` | crates/opentofu/src/lib.rs:356-358 | A literal text inside an interpolation, escaped and then quoted, reads as the text under the same condition. |
| `Lowering.EscapedMembersStayApart` | crates/opentofu/src/lib.rs:395-407 | Escaping the keys of an object never merges two entries. |
| `Lowering.LiteralReads` | crates/opentofu/src/lib.rs:394-407 | A literal in the JSON syntax reads back as exactly the value written. |
| `Lowering.LoweredReads` | crates/opentofu/src/lib.rs:238-273 | A lowered argument reads back as the expression, with its conditionals where the text puts them, up to what the syntax writes alike, if and only if no array inside an interpolation opens a for-expression. |
| `Secrets.SecretsAreDeclared` | crates/opentofu/src/lib.rs:54-64 | Every secret in an expression is printed as a reference to one of the given variables if and only if these include the variables declared for its secrets. |
| `Compacting.WhitespaceRun` | crates/provider-schema/src/compact.rs:92-108 | Stepping eight spaces at a time finds exactly the leading whitespace. |
| `Compacting.FindStringEnd` | crates/provider-schema/src/compact.rs:56-61 | Finds the first quote or backslash, if there is one. |
| `Compacting.Compacting.PushInString` | crates/provider-schema/src/compact.rs:50-68 | Inside a string, copying through the next quote or backslash does what going byte by byte does. |
| `Compacting.Compacting.PushOutside` | crates/provider-schema/src/compact.rs:69-87 | Outside a string, skipping a run of whitespace or taking one byte does what going byte by byte does. |
| `Compacting.Compacting.Push` | crates/provider-schema/src/compact.rs:47-89 | A chunk changes state and output exactly as its bytes one by one do. |
| `Compacting.RunAppend` | crates/provider-schema/src/compact.rs:47-89 | Two chunks give the state and output of their concatenation, wherever the split falls. |
| `CompactTokens.CompactEmitsTokens` | crates/provider-schema/src/compact.rs:5-11 | The compacted text is the tokens, one space between two atoms and nothing else. |
| `CompactTokens.CompactKeepsTokens` | crates/provider-schema/src/compact.rs:5-11 | Compacting keeps every token of any byte string. |
| `CompactTokens.CompactIsIdempotent` | crates/provider-schema/src/compact.rs:5-11 | Compacting twice is compacting once. |
| `CompactTokens.ReadCompactJson` | crates/provider-schema/src/compact.rs:12-32 | However the source cuts, interrupts or ends its reads, the result has the tokens of everything delivered and its bytes, but for whitespace outside strings; it fails exactly when a read fails. |
| `KeptBytes.CompactKeepsBytes` | crates/provider-schema/src/compact.rs:47-89 | Compacting keeps, in order, every byte but 32, 9, 10 and 13 outside strings, and adds no other. |
| `KeptBytes.LiteralIsOneToken` | crates/provider-schema/src/compact.rs:5-11 | A run of digits, letters, signs and points is one token. |
| `SortedMap.FromEntriesSpec` | crates/provider-schema/src/shared.rs:205-207 | A map built by insertion has strictly increasing keys and answers every key with its last entry. |
| `SortedMap.SortedUnique` | crates/provider-schema/src/shared.rs:141-145 | Two sorted lists that answer every key alike are the same list. |
| `SortedMap.LessSpec` | crates/provider-schema/src/shared.rs:205-207 | One name is before another exactly when it is a proper prefix or has the smaller character at the first difference. |
| `StableOrder.SortOrderSpec` | crates/provider-schema/src/decode.rs:249-251 | The sorted positions are each position once, by key, equal keys in document order. |
| `EntryLists.Take` | crates/provider-schema/src/shared.rs:210-217 | The bucket test keeps the later entry's contents in the earlier place, and leaves what is still to be read. |
| `EntryLists.KeepLast` | crates/provider-schema/src/shared.rs:210-218 | The in-place pass leaves the last entry of each run of equal keys. |
| `EntryLists.SortedRunsAreTheMap` | crates/provider-schema/src/shared.rs:205-219 | The last entries of the runs of a stable sort are the map that inserting the entries one by one builds. |
| `EntryLists.SortUnique` | crates/provider-schema/src/shared.rs:205-219 | In place: the front of the array ends up as the map built by inserting the entries one by one, strictly sorted, later entries winning. |
| `EntryLists.Get` | crates/provider-schema/src/shared.rs:190-196 | Binary search answers every name as the map does. |
| `RepeatedKeys.FindRepeats` | crates/provider-schema/src/decode.rs:252-261 | Marks exactly the positions that are not the first of their key, and notes one move, from last to first, for each repeated key. |
| `RepeatedKeys.SwapAll` | crates/provider-schema/src/decode.rs:262-264 | Exchanging the ends of every move puts each key's last entry at its first position and moves nothing else that is kept. |
| `RepeatedKeys.Retain` | crates/provider-schema/src/decode.rs:265-269 | Keeps the unmarked entries in order. |
| `RepeatedKeys.FromListSpec` | crates/provider-schema/src/decode.rs:244-244 | An insertion-ordered map has each key once, in order of first appearance, with its last value. |
| `RepeatedKeys.MergeRepeatedKeys` | crates/provider-schema/src/decode.rs:244-270 | In place: the front of the array ends up as the insertion-ordered map built by inserting the entries one by one. |
| `ShapeWalks.ChildIsMetBefore` | crates/emit-lean/src/lib.rs:839-862 | Whatever shape a walk meets, it met every object field inside it before, one step further down the path. |
| `ShapeWalks.WalkLength` | crates/emit-lean/src/lib.rs:824-841 | A walk meets as many occurrences as there are paths of objects. |
| `ShapeChains.MetIffChain` | crates/emit-lean/src/lib.rs:820-864 | What a walk meets are exactly the ends of the chains of fields from the record: at the chain's public names, with the record it leads to, and with a builder if and only if the first record has one and every field of the chain is required or optional and an object or one list, set or map directly of objects. |
| `ShapeChains.ObjectFieldsSpec` | crates/emit-lean/src/lib.rs:824-830 | The record behind a type is the one inside any number of lists, sets and maps. |
| `Shapes.Shapes.Child` | crates/emit-lean/src/lib.rs:866-873 | Gives the node one name below another: the one that stands for that path, or one new node when no path led there, and no other node changes. |
| `Shapes.Shapes.Declare` | crates/emit-lean/src/lib.rs:842-862 | Counts one more occurrence of a shape or adds its entry, and makes it the shape last declared at the node. |
| `Shapes.Shapes.Visit` | crates/emit-lean/src/lib.rs:820-864 | Adds exactly what chains of fields that start with the field lead to, children first, with builders as the chains say, and keeps entries, indices, counts, trie and declarations as the log says. |
| `Shapes.Collect` | crates/emit-lean/src/lib.rs:806-818 | Collects exactly the occurrences of a walk over the item's fields: the ends of the chains of fields from the item. |
| `ShapeSharing.LookupNeverFails` | crates/emit-lean/src/lib.rs:875-884 | The lookup a renderer makes for an object field of any rendered record succeeds, for every schema. |
| `ShapeSharing.LookupsAreRightIffCoherent` | crates/emit-lean/src/lib.rs:875-884 | Every lookup answers with the field's own field list and builder flag if and only if same-named object fields of one record always have the same shape. |
| `ShapeSharing.DistinctNamesSuffice` | crates/emit-lean/src/lib.rs:801-802 | Distinct public names among the object fields of every record make every lookup right. |
| `ShapeSharing.ClashingSiblingsMisread` | crates/emit-lean/src/lib.rs:862-862 | Two same-named siblings with different field lists make a lookup wrong, because a node keeps the shape last declared at it. |
| `ShapeSharing.ChildrenComeFirst` | crates/emit-lean/src/lib.rs:788-789 | The shape of every object field of an entry is an entry before it. |
| `ShapeSharing.EntriesAreDistinct` | crates/emit-lean/src/lib.rs:786-792 | No two entries share both builder flag and field list. |
| `ShapeSharing.OccurrencesAreThePaths` | crates/emit-lean/src/lib.rs:774-775 | The entries' occurrences add up to the number of paths of objects. |
| `Interning.Interner.Intern` | crates/provider-schema/src/shared.rs:131-138 | An equal list gets the handle kept for it; only a new list is added. |
| `Interning.EqualsIsEqualLists` | crates/provider-schema/src/shared.rs:85-89 | Comparing handles and hashes first answers as comparing the lists does, for any hash function. |
| `Interning.EqualListsShareAHandle` | crates/provider-schema/src/shared.rs:41-48 | Lists handed out by one interner are equal exactly when they are the same handle. |
| `Derivation.FieldsAreSorted` | crates/binding-model/src/lib.rs:254-255 | A derived list holds exactly the fields of the attributes and blocks, as often as they occur, sorted by provider name, an attribute before a block of the same name. |
| `DerivedForms.TypeReadsBack` | crates/binding-model/src/lib.rs:279-293 | A derived type stands for one schema type: reading it back gives the type it was derived from, flags and descriptions of nested attributes included. |
| `DerivedForms.BlockReadsBack` | crates/binding-model/src/lib.rs:222-259 | The list derived from a name-sorted block reads back as the block, nesting modes, item bounds and inner blocks included, but for group against single and a least number of zero against none. |
| `DerivedForms.DerivedFieldFollows` | crates/binding-model/src/lib.rs:230-250 | At every depth a derived field's public name and reservation follow its provider name, and a block is required exactly with a least number above zero, optional exactly otherwise, and nothing else. |
| `Deriving.Deriver.FieldsFor` | crates/binding-model/src/lib.rs:222-259 | From every reachable memo state the list of a block is what the uncached recursion gives, reads back as the block, and follows the naming; every cached list stays that. |
| `Deriving.Deriver.ObjectFor` | crates/binding-model/src/lib.rs:295-306 | The same for object types: the list reads back as the attributes. |
| `Deriving.Deriver.BindingTypeOf` | crates/binding-model/src/lib.rs:279-293 | The type derived through the memo tables is the uncached one and reads back as the schema type. |
| `Deriving.Deriver.Items` | crates/binding-model/src/lib.rs:194-220 | Succeeds exactly when no two schemas get one public name, with the uncached list of each; otherwise reports the first collision. |
| `Deriving.EqualBindingsShareAList` | crates/binding-model/src/lib.rs:180-184 | In every reachable state two cached blocks hold one handle exactly when their uncached lists are equal. |
| `Outputs.Output.PushStr` | crates/binding-model/src/emit.rs:49-55 | Keeps what reached the file and what is buffered together equal to the text written, across a flush or an error. |
| `Outputs.Output.FlushBuffer` | crates/binding-model/src/emit.rs:62-71 | Hands the buffer on unless a write failed before, keeps the first error, and empties the buffer. |
| `Outputs.Output.Finish` | crates/binding-model/src/emit.rs:73-80 | Reports no error exactly when no write failed, and then the file holds the text; otherwise a part of it. |
| `Outputs.Stream` | crates/binding-model/src/emit.rs:205-210 | Whatever the flush points, a streamed file without an error is the text rendered in memory. |
| `Outputs.Collect` | crates/binding-model/src/emit.rs:160-170 | Rendering in memory gives the pieces' text. |
| `Writer.LargestFirstSpec` | crates/binding-model/src/emit.rs:196-196 | The jobs are reordered by weight, largest first, those of one weight in the order they came, and none is lost or added. |
| `Writer.RunKeepsInvariant` | crates/binding-model/src/emit.rs:198-217 | In every interleaving: numbers are handed out in order, each claimed job is rendered or held by one worker and never both, and workers stop only at a failure or past the last job. |
| `Writer.ClaimsDescend` | crates/binding-model/src/emit.rs:184-202 | No job is claimed twice and claims go in non-increasing weight. |
| `Writer.SuccessIsEveryJobOnce` | crates/binding-model/src/emit.rs:200-231 | When the workers have finished, the result is a success exactly when every job was rendered without an error, each once. |
| `Writer.ErrorsAreRaised` | crates/binding-model/src/emit.rs:200-231 | In every reachable state an error in the result is that of the first failed worker, in order, and the flag is up exactly when there is one. |
| `Writer.SuccessWritesThePackage` | crates/binding-model/src/emit.rs:184-231 | A success leaves files at exactly the paths the package names beside those that were there, every file of no job untouched, and at each path only one job writes the text the in-memory package has. |
| `Writer.DistinctPathsWriteThePackage` | crates/binding-model/src/emit.rs:184-231 | With distinct paths a success leaves exactly the in-memory package over the files that were there. |
| `Writer.RunsEnd` | crates/binding-model/src/emit.rs:198-217 | Every interleaving has boundedly many steps, stale reads of the flag included. |
| `Writer.NothingBlocks` | crates/binding-model/src/emit.rs:198-217 | Until every worker has finished, some step is possible. |
| `Normalizer.ReadNameMap` | crates/provider-schema/src/decode.rs:176-188 | Reports the first problem by name among the entries that later ones do not replace, or the map of them. |
| `Normalizer.ReadObjectType` | crates/provider-schema/src/decode.rs:220-241 | Reports the first problem in document order, each field at its first position with its last type, or the object type. |
| `Normalizer.ReadCtyType` | crates/provider-schema/src/decode.rs:858-917 | In place: reads as a type exactly when the value names it (primitives by name, constructors by theirs, each field with its last type), and otherwise as the first problem that replacing repeated fields first and walking what is left in order finds. |
| `Normalizer.ReadElements` | crates/provider-schema/src/decode.rs:1046-1067 | All elements are read, and the first problem by position wins. |
| `Normalizer.ReadAttribute` | crates/provider-schema/src/decode.rs:778-798 | In place: reads as a schema exactly when the attribute describes it, flags, description and nesting included, and otherwise as the first problem of the collapsed attribute. |
| `Normalizer.ReadBlock` | crates/provider-schema/src/decode.rs:191-200 | In place: reads as a schema exactly when the block describes it, and otherwise as the first problem that collapsing repeated names first and walking attributes before nested blocks by name finds. |
| `Normalizer.ReadDocument` | crates/provider-schema/src/decode.rs:374-393 | In place: reads as a schema exactly when the document is of version 1 and its chosen provider (matching address, first by name, last of equals) describes it, and otherwise as the problem the collapsed document has first. |
| `SchemaReading.CtyTypeSpec` | crates/provider-schema/src/decode.rs:858-917 | A cty value reads as a type if and only if it names the type. |
| `SchemaReading.UnknownNames` | crates/provider-schema/src/decode.rs:858-877 | A name that is none of the four primitives, or of the five nesting modes, is a problem that says the name and where it stands; these names are none. |
| `SchemaReading.BlockSpec` | crates/provider-schema/src/decode.rs:191-200 | A block reads as a schema if and only if it describes it. |
| `SchemaReading.DocumentSpec` | crates/provider-schema/src/decode.rs:374-407 | A document reads as a provider's schema if and only if it describes it. |
| `RawForms.CtyRoundTrip` | crates/provider-schema/src/decode.rs:858-917 | Every type that cty JSON can express, written as cty JSON, reads back. |
| `RawForms.NamedIsExpressible` | crates/provider-schema/src/decode.rs:858-917 | Whatever cty JSON names is such a type. |
| `RawForms.BlockRoundTrip` | crates/provider-schema/src/decode.rs:191-200 | Every name-sorted block schema whose types have a way to be written, written as a raw block, reads back. |
| `RawForms.DescribedBlockIsWritable` | crates/provider-schema/src/decode.rs:191-200 | Whatever a block reads as is such a schema. |
| `RawForms.DocumentRoundTrip` | crates/provider-schema/src/decode.rs:374-407 | A provider's whole schema, written as a document under any host, reads back. |
| `SinglePass.CtyAgrees` | crates/provider-schema/src/decode.rs:220-241 | A cty type read in one pass is the one found by collapsing repeated fields first and stopping at the first problem. |
| `SinglePass.BlockAgrees` | crates/provider-schema/src/decode.rs:176-241 | A block read in one pass, problems carried along, is the same schema or the same first problem as collapsing repeated names first and then walking attributes before blocks by name. |
| `SinglePass.DocumentAgrees` | crates/provider-schema/src/decode.rs:374-407 | The same for whole documents: overwritten duplicates, unmatched providers and everything after the first problem never show. |

## Left out

- Documents.Validate: accepts and rejects, and reports the cycle when that is all that is wrong; which other error comes first and the messages are not modelled.
- Documents.Enumerate: a set is listed in some order, where the program lists it sorted; every result about the search holds for any order, so which of several cycles is reported is not determined.
- StackOrder.StackOrder: which of several cycles is reported, the first the walk by name closes, is not stated.
- Graph parts that validation never looks at: output sensitivity, the other lifecycle options, required provider versions beyond their names.
- Decoding of graph documents: a document is a graph value with a version string, and addresses are values rather than parsed text.
- Canonical JSON (`sort_json`): sorting keys, with nothing further depending on it here.
- HclParser: works on tokens, with every number one non-negative lexeme and every quoted string a list of characters and code; the escapes of quoted text are the subject of `Quoting` alone, and the lexer's layout is not modelled. Names that OpenTofu later gives a meaning of their own (`local`, `module`, `each`) are names like any other.
- HclRoundTrip.PrintedReadsBack: is stated for readable trees: no raw expression text, no resource kind that is `data`, `var`, `null`, `true` or `false`, template texts that decode, and no quoted text inside the code of a template that is itself inside an expression, because the printer quotes such a template as a whole.
- Lowering.LoweredReads: is stated for the same trees, and for objects without repeated keys, which is what the graph document's maps hold.
- Lowering of the whole graph (blocks, lifecycle, imports, moves, variables): assembly of JSON objects around the arguments.
- Shapes.Shapes.Child: trie nodes are unbounded, where the program stops at the 2^32nd path; generated type names and the rendered Lean text are not modelled.
- EntryLists.SortStably: the library's stable sort by its contract, a list of positions in stable order; binary search and hash sets of the library appear the same way.
- Derivation.FieldsOf: public names and reserved words are parameters of the derivation, and the text of names, the prefix they drop and `infer_type_prefix` are not modelled.
- Deriving.Deriver.FieldsFor: handles carry the field lists they stand for, so an object type inside a field holds the list itself; that a nested list is the same allocation is not modelled.
- Writer.SuccessWritesThePackage: which of several jobs of one path leaves its text there, or a mixture, is not described. Creating directories is not modelled, and a worker's panic is not a step.
- Outputs.Sink: the file is a text that each write extends by the given text or, failing, by part of it; bytes are counted for the threshold only.
- Normalizer.ReadDocument: starts from JSON trees as ordered entry lists. Repeated or missing fields of a fixed-shape object fail in the decoder before, stored schemas are decoded by a different path, and the interning of names and maps is the subject of `Interning` alone.
- CompactTokens.ReadCompactJson: the buffer of 65536 bytes is any way of cutting the input.
- Process spawning, workspaces, schema acquisition, gates, the command line, generated PureScript and Lean text: outside tools and presentation.
