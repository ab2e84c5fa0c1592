/** The proof-side validator: the same rules over the graph a program builds, as structurally
    recursive functions on immutable lists, plus the one rule that no object repeats a key. */
module ProgramValidation {
  import opened Wrappers
  import opened SortedMap
  import opened CycleSearch
  import opened FuelSearch
  import opened GraphIr

  // ----- identifiers -----

  predicate IsIdentifierStart(c: char) {
    c == '_' || 'A' <= c <= 'Z' || 'a' <= c <= 'z'
  }

  predicate IsAlphanumeric(c: char) {
    'A' <= c <= 'Z' || 'a' <= c <= 'z' || '0' <= c <= '9'
  }

  predicate AllIdentifierChars(chars: string): (ok: bool)
    ensures ok <==> forall i :: 0 <= i < |chars| ==> chars[i] == '_' || chars[i] == '-' || IsAlphanumeric(chars[i])
  {
    chars == ""
    || ((chars[0] == '_' || chars[0] == '-' || IsAlphanumeric(chars[0])) && AllIdentifierChars(chars[1..]))
  }

  predicate AllEnvironmentChars(chars: string): (ok: bool)
    ensures ok <==> forall i :: 0 <= i < |chars| ==> chars[i] == '_' || IsAlphanumeric(chars[i])
  {
    chars == "" || ((chars[0] == '_' || IsAlphanumeric(chars[0])) && AllEnvironmentChars(chars[1..]))
  }

  /** The recognizer on character lists decides what the reference validator calls an identifier. */
  predicate IdentifierOk(chars: string): (ok: bool)
    ensures ok <==> ValidIdentifier(chars)
  {
    chars != "" && IsIdentifierStart(chars[0]) && AllIdentifierChars(chars[1..])
  }

  predicate EnvironmentNameOk(chars: string): (ok: bool)
    ensures ok <==> ValidEnvironmentName(chars)
  {
    chars != "" && IsIdentifierStart(chars[0]) && AllEnvironmentChars(chars[1..])
  }

  // ----- expressions -----

  /** Every mention of an address, in order and with repeats. */
  function ReferenceList(e: Expr): seq<Address>
    decreases e, 0
  {
    match e
    case ResourceAttr(address, _) => [address]
    case DataSourceAttr(address, _) => [address]
    case Array(items) => ReferencesOfAll(items)
    case Object(fields) => ReferencesOfFields(fields)
    case Index(collection, key) => ReferenceList(collection) + ReferenceList(key)
    case Attribute(of, _) => ReferenceList(of)
    case Splat(of) => ReferenceList(of)
    case Conditional(condition, whenTrue, whenFalse) =>
      ReferenceList(condition) + ReferenceList(whenTrue) + ReferenceList(whenFalse)
    case Function(_, args) => ReferencesOfAll(args)
    case Template(parts) => ReferencesOfParts(parts)
    case _ => []
  }

  function ReferencesOfAll(items: seq<Expr>): seq<Address>
    decreases items, 1
  {
    if items == [] then [] else ReferenceList(items[0]) + ReferencesOfAll(items[1..])
  }

  function ReferencesOfFields(fields: seq<Entry<Expr>>): seq<Address>
    decreases fields, 1
  {
    if fields == [] then [] else ReferenceList(fields[0].value) + ReferencesOfFields(fields[1..])
  }

  function ReferencesOfParts(parts: seq<TemplatePart>): seq<Address>
    decreases parts, 1
  {
    if parts == [] then [] else ReferencesOfPart(parts[0]) + ReferencesOfParts(parts[1..])
  }

  function ReferencesOfPart(part: TemplatePart): seq<Address>
    decreases part, 1
  {
    match part
    case Verbatim(_) => []
    case Interpolation(expression) => ReferenceList(expression)
  }

  predicate UniqueKeys(seen: seq<string>, keys: seq<string>)
    decreases |keys|
  {
    keys == [] || (keys[0] !in seen && UniqueKeys([keys[0]] + seen, keys[1..]))
  }

  predicate ValueKeys(value: Value)
    decreases value, 0
  {
    match value
    case List(values) => ValueKeysOfAll(values)
    case Record(members) => UniqueKeys([], Keys(members)) && ValueKeysOfMembers(members)
    case _ => true
  }

  predicate ValueKeysOfAll(values: seq<Value>)
    decreases values, 1
  {
    values == [] || (ValueKeys(values[0]) && ValueKeysOfAll(values[1..]))
  }

  predicate ValueKeysOfMembers(members: seq<Entry<Value>>)
    decreases members, 1
  {
    members == [] || (ValueKeys(members[0].value) && ValueKeysOfMembers(members[1..]))
  }

  predicate PathOk(path: seq<string>) {
    path == [] || (IdentifierOk(path[0]) && PathOk(path[1..]))
  }

  predicate StructureOk(e: Expr)
    decreases e, 0
  {
    match e
    case Literal(value) => ValueKeys(value)
    case ResourceAttr(address, path) => address.Resource? && PathOk(path)
    case DataSourceAttr(address, path) => !address.Resource? && PathOk(path)
    case Array(items) => StructureOkOfAll(items)
    case Object(fields) => UniqueKeys([], Keys(fields)) && StructureOkOfFields(fields)
    case Index(collection, key) => StructureOk(collection) && StructureOk(key)
    case Attribute(of, name) => IdentifierOk(name) && StructureOk(of)
    case Splat(of) => StructureOk(of)
    case Conditional(condition, whenTrue, whenFalse) =>
      StructureOk(condition) && StructureOk(whenTrue) && StructureOk(whenFalse)
    case Function(name, args) => IdentifierOk(name) && StructureOkOfAll(args)
    case Template(parts) => StructureOkOfParts(parts)
    case SecretEnv(name) => EnvironmentNameOk(name)
    case UnsafeRaw(_) => true
  }

  predicate StructureOkOfAll(items: seq<Expr>)
    decreases items, 1
  {
    items == [] || (StructureOk(items[0]) && StructureOkOfAll(items[1..]))
  }

  predicate StructureOkOfFields(fields: seq<Entry<Expr>>)
    decreases fields, 1
  {
    fields == [] || (StructureOk(fields[0].value) && StructureOkOfFields(fields[1..]))
  }

  predicate StructureOkOfParts(parts: seq<TemplatePart>)
    decreases parts, 1
  {
    parts == [] || (StructureOkOfPart(parts[0]) && StructureOkOfParts(parts[1..]))
  }

  predicate StructureOkOfPart(part: TemplatePart)
    decreases part, 1
  {
    part.Interpolation? ==> StructureOk(part.expression)
  }

  predicate ReferencesOk(addresses: seq<Address>, targets: seq<Address>) {
    targets == [] || (targets[0] in addresses && ReferencesOk(addresses, targets[1..]))
  }

  predicate ExprOk(addresses: seq<Address>, e: Expr) {
    StructureOk(e) && ReferencesOk(addresses, ReferenceList(e))
  }

  predicate ArgumentValuesOk(addresses: seq<Address>, arguments: seq<Entry<Expr>>) {
    arguments == [] || (ExprOk(addresses, arguments[0].value) && ArgumentValuesOk(addresses, arguments[1..]))
  }

  predicate ArgumentsOk(addresses: seq<Address>, arguments: seq<Entry<Expr>>) {
    UniqueKeys([], Keys(arguments)) && ArgumentValuesOk(addresses, arguments)
  }

  predicate ExplicitOk(owner: Address, addresses: seq<Address>, targets: seq<Address>) {
    targets == [] || (targets[0] != owner && targets[0] in addresses && ExplicitOk(owner, addresses, targets[1..]))
  }

  // ----- provider selectors -----

  /** Splits at the first dot, collecting the characters before it in reverse. */
  function SplitProvider(chars: string, reversed: string): Option<(string, string)> {
    if chars == "" then None
    else if chars[0] == '.' then Some((Reverse(reversed), chars[1..]))
    else SplitProvider(chars[1..], [chars[0]] + reversed)
  }

  predicate SelectorOk(provider: string) {
    match SplitProvider(provider, "")
    case None => IdentifierOk(provider)
    case Some(halves) => IdentifierOk(halves.0) && IdentifierOk(halves.1)
  }

  predicate SelectionOk(configured: seq<string>, provider: Option<string>) {
    provider.Some? ==> SelectorOk(provider.value) && provider.value in configured
  }

  predicate TriggersOk(addresses: seq<Address>, targets: seq<Address>) {
    targets == [] || (targets[0].Resource? && targets[0] in addresses && TriggersOk(addresses, targets[1..]))
  }

  // ----- names -----

  predicate ProviderNamesOk(seen: seq<string>, providers: seq<Entry<ProviderRequirement>>)
    decreases |providers|
  {
    providers == []
    || (IdentifierOk(providers[0].key) && providers[0].key !in seen
        && ProviderNamesOk([providers[0].key] + seen, providers[1..]))
  }

  predicate ConfigNamesOk(seen: seq<string>, configs: seq<ProviderConfig>)
    decreases |configs|
  {
    configs == []
    || (IdentifierOk(configs[0].provider)
        && (configs[0].alias.Some? ==> IdentifierOk(configs[0].alias.value))
        && ConfigAddress(configs[0]) !in seen
        && ConfigNamesOk([ConfigAddress(configs[0])] + seen, configs[1..]))
  }

  function ConfigAddress(config: ProviderConfig): (address: string)
    ensures address == ProviderAddress(config)
  {
    match config.alias
    case None => config.provider
    case Some(alias) => config.provider + "." + alias
  }

  function ResourceNames(seen: seq<Address>, resources: seq<ResourceSpec>): Option<seq<Address>>
    decreases |resources|
  {
    if resources == [] then Some(seen)
    else
      var r := resources[0];
      if !IdentifierOk(r.kind) || !IdentifierOk(r.name) || r.Address() in seen then None
      else ResourceNames(seen + [r.Address()], resources[1..])
  }

  function DataSourceNames(seen: seq<Address>, dataSources: seq<DataSourceSpec>): Option<seq<Address>>
    decreases |dataSources|
  {
    if dataSources == [] then Some(seen)
    else
      var d := dataSources[0];
      if !IdentifierOk(d.kind) || !IdentifierOk(d.name) || d.Address() in seen then None
      else DataSourceNames(seen + [d.Address()], dataSources[1..])
  }

  function StackNames(seen: seq<Address>, stacks: seq<string>): Option<seq<Address>>
    decreases |stacks|
  {
    if stacks == [] then Some(seen)
    else if !IdentifierOk(stacks[0]) || StackAddress(stacks[0]) in seen then None
    else StackNames(seen + [StackAddress(stacks[0])], stacks[1..])
  }

  // ----- contents -----

  predicate ResourcesOk(addresses: seq<Address>, configured: seq<string>, resources: seq<ResourceSpec>) {
    resources == []
    || (var r := resources[0];
        && ArgumentsOk(addresses, r.arguments)
        && ExplicitOk(r.Address(), addresses, r.dependsOn)
        && SelectionOk(configured, r.provider)
        && (r.lifecycle.Some? ==> TriggersOk(addresses, r.lifecycle.value.replaceTriggeredBy))
        && ResourcesOk(addresses, configured, resources[1..]))
  }

  predicate DataSourcesOk(addresses: seq<Address>, configured: seq<string>, dataSources: seq<DataSourceSpec>) {
    dataSources == []
    || (var d := dataSources[0];
        && ArgumentsOk(addresses, d.arguments)
        && ExplicitOk(d.Address(), addresses, d.dependsOn)
        && SelectionOk(configured, d.provider)
        && DataSourcesOk(addresses, configured, dataSources[1..]))
  }

  predicate OutputsOk(addresses: seq<Address>, seen: seq<string>, outputs: seq<Entry<OutputSpec>>)
    decreases |outputs|
  {
    outputs == []
    || (IdentifierOk(outputs[0].key) && outputs[0].key !in seen
        && ExprOk(addresses, outputs[0].value.value)
        && OutputsOk(addresses, [outputs[0].key] + seen, outputs[1..]))
  }

  predicate ProviderArgumentsOk(addresses: seq<Address>, configs: seq<ProviderConfig>) {
    configs == [] || (ArgumentsOk(addresses, configs[0].arguments) && ProviderArgumentsOk(addresses, configs[1..]))
  }

  predicate MovesOk(addresses: seq<Address>, targets: seq<Address>, moves: seq<MoveSpec>)
    decreases |moves|
  {
    moves == []
    || (moves[0].to in addresses && moves[0].to !in targets && MovesOk(addresses, [moves[0].to] + targets, moves[1..]))
  }

  predicate ImportsOk(addresses: seq<Address>, targets: seq<Address>, imports: seq<ImportSpec>, blank: string -> bool)
    decreases |imports|
  {
    imports == []
    || (imports[0].to.Resource? && imports[0].to in addresses && !blank(imports[0].id) && imports[0].to !in targets
        && ImportsOk(addresses, [imports[0].to] + targets, imports[1..], blank))
  }

  // ----- edges and acyclicity -----

  function ImplicitEdges(owner: Address, arguments: seq<Entry<Expr>>): seq<Dependency<Address>> {
    if arguments == [] then []
    else EdgeList(owner, ReferenceList(arguments[0].value), false) + ImplicitEdges(owner, arguments[1..])
  }

  function EdgeList(owner: Address, targets: seq<Address>, explicit: bool): seq<Dependency<Address>> {
    seq(|targets|, i requires 0 <= i < |targets| => Dependency(targets[i], owner, explicit))
  }

  function AddDependencies(owner: Address, arguments: seq<Entry<Expr>>, explicit: seq<Address>)
    : seq<Dependency<Address>>
  {
    ImplicitEdges(owner, arguments) + EdgeList(owner, explicit, true)
  }

  function ResourceEdgeList(resources: seq<ResourceSpec>): seq<Dependency<Address>> {
    if resources == [] then []
    else
      var r := resources[0];
      AddDependencies(r.Address(), r.arguments, r.dependsOn + r.Triggers()) + ResourceEdgeList(resources[1..])
  }

  function DataSourceEdgeList(dataSources: seq<DataSourceSpec>): seq<Dependency<Address>> {
    if dataSources == [] then []
    else
      var d := dataSources[0];
      AddDependencies(d.Address(), d.arguments, d.dependsOn) + DataSourceEdgeList(dataSources[1..])
  }

  function EdgesOfGraph(graph: Graph): seq<Dependency<Address>> {
    ResourceEdgeList(graph.resources) + DataSourceEdgeList(graph.dataSources)
  }

  /** The nodes along a dependency cycle, if the search from the graph's nodes meets one. */
  function FindGraphCycle(graph: Graph): Option<seq<Address>> {
    match FindFrom(Addresses(graph), EdgesOfGraph(graph))
    case Ok(_) => None
    case Err(cycle) => Some(cycle)
  }

  /** The nodes, when their names are identifiers and no address repeats. */
  function NodeNames(graph: Graph): Option<seq<Address>> {
    match ResourceNames([], graph.resources)
    case None => None
    case Some(addresses) =>
      match DataSourceNames(addresses, graph.dataSources)
      case None => None
      case Some(addresses) => StackNames(addresses, graph.stackReferences)
  }

  predicate Validate(graph: Graph, blank: string -> bool) {
    && ProviderNamesOk([], graph.requiredProviders)
    && ConfigNamesOk([], graph.providerConfigs)
    && NodeNames(graph).Some?
    && var configured, addresses := ConfigAddresses(graph.providerConfigs), NodeNames(graph).value;
    && ResourcesOk(addresses, configured, graph.resources)
    && DataSourcesOk(addresses, configured, graph.dataSources)
    && OutputsOk(addresses, [], graph.outputs)
    && ProviderArgumentsOk(addresses, graph.providerConfigs)
    && MovesOk(addresses, [], graph.moves)
    && ImportsOk(addresses, [], graph.imports, blank)
    && FindGraphCycle(graph).None?
  }
}
