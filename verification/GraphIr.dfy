/** The desired-infrastructure graph: nodes, their argument expressions, and the identifiers
    and addresses that name them. Objects and argument sets are entry lists; a document's lists
    are key-sorted, a program's are in the order it was written. */
module GraphIr {
  import opened Wrappers
  import opened SortedMap

  datatype Address = Resource(kind: string, name: string) | DataSource(kind: string, name: string)

  datatype Value =
    | Null
    | Bool(truth: bool)
    | Number(lexeme: string)
    | Text(text: string)
    | List(values: seq<Value>)
    | Record(members: seq<Entry<Value>>)

  datatype Expr =
    | Literal(value: Value)
    | ResourceAttr(address: Address, path: seq<string>)
    | DataSourceAttr(address: Address, path: seq<string>)
    | Array(items: seq<Expr>)
    | Object(fields: seq<Entry<Expr>>)
    | Index(collection: Expr, key: Expr)
    | Attribute(of: Expr, name: string)
    | Splat(of: Expr)
    | Conditional(condition: Expr, whenTrue: Expr, whenFalse: Expr)
    | Function(name: string, args: seq<Expr>)
    | Template(parts: seq<TemplatePart>)
    | SecretEnv(name: string)
    | UnsafeRaw(raw: string)

  datatype TemplatePart = Verbatim(text: string) | Interpolation(expression: Expr)

  datatype ProviderRequirement = ProviderRequirement(source: string, version: string)

  datatype ProviderConfig = ProviderConfig(provider: string, alias: Option<string>, arguments: seq<Entry<Expr>>)

  datatype Lifecycle = Lifecycle(
    createBeforeDestroy: bool, preventDestroy: bool, ignoreChanges: seq<string>, replaceTriggeredBy: seq<Address>)

  datatype ResourceSpec = ResourceSpec(
    kind: string, name: string, arguments: seq<Entry<Expr>>, dependsOn: seq<Address>,
    provider: Option<string>, lifecycle: Option<Lifecycle>)
  {
    function Address(): Address {
      Resource(kind, name)
    }

    function Triggers(): seq<Address> {
      if lifecycle.Some? then lifecycle.value.replaceTriggeredBy else []
    }
  }

  datatype DataSourceSpec = DataSourceSpec(
    kind: string, name: string, arguments: seq<Entry<Expr>>, dependsOn: seq<Address>, provider: Option<string>)
  {
    function Address(): Address {
      DataSource(kind, name)
    }
  }

  datatype OutputSpec = OutputSpec(value: Expr, sensitive: bool)

  datatype MoveSpec = MoveSpec(from: Address, to: Address)

  datatype ImportSpec = ImportSpec(to: Address, id: string)

  datatype Graph = Graph(
    requiredProviders: seq<Entry<ProviderRequirement>>,
    providerConfigs: seq<ProviderConfig>,
    resources: seq<ResourceSpec>,
    dataSources: seq<DataSourceSpec>,
    outputs: seq<Entry<OutputSpec>>,
    moves: seq<MoveSpec>,
    imports: seq<ImportSpec>,
    stackReferences: seq<string>)

  datatype GraphDocument = GraphDocument(formatVersion: string, graph: Graph)

  const REMOTE_STATE := "terraform_remote_state"

  function StackAddress(stack: string): Address {
    DataSource(REMOTE_STATE, stack)
  }

  predicate IsLetter(c: char) {
    'a' <= c <= 'z' || 'A' <= c <= 'Z'
  }

  predicate IsDigit(c: char) {
    '0' <= c <= '9'
  }

  predicate ValidIdentifier(s: string) {
    && s != "" && (s[0] == '_' || IsLetter(s[0]))
    && forall i :: 1 <= i < |s| ==> s[i] == '_' || s[i] == '-' || IsLetter(s[i]) || IsDigit(s[i])
  }

  predicate ValidEnvironmentName(s: string) {
    && s != "" && (s[0] == '_' || IsLetter(s[0]))
    && forall i :: 1 <= i < |s| ==> s[i] == '_' || IsLetter(s[i]) || IsDigit(s[i])
  }

  /** `provider` or `provider.alias`. */
  function ProviderAddress(config: ProviderConfig): string {
    if config.alias.Some? then config.provider + "." + config.alias.value else config.provider
  }

  function ConfigAddresses(configs: seq<ProviderConfig>): seq<string> {
    seq(|configs|, i requires 0 <= i < |configs| => ProviderAddress(configs[i]))
  }

  function MoveTargets(moves: seq<MoveSpec>): seq<Address> {
    seq(|moves|, i requires 0 <= i < |moves| => moves[i].to)
  }

  function ImportTargets(imports: seq<ImportSpec>): seq<Address> {
    seq(|imports|, i requires 0 <= i < |imports| => imports[i].to)
  }

  function ResourceAddresses(resources: seq<ResourceSpec>): seq<Address> {
    seq(|resources|, i requires 0 <= i < |resources| => resources[i].Address())
  }

  function DataSourceAddresses(dataSources: seq<DataSourceSpec>): seq<Address> {
    seq(|dataSources|, i requires 0 <= i < |dataSources| => dataSources[i].Address())
  }

  function StackAddresses(stacks: seq<string>): seq<Address> {
    seq(|stacks|, i requires 0 <= i < |stacks| => StackAddress(stacks[i]))
  }

  /** Every node of the graph, in document order. */
  function Addresses(graph: Graph): seq<Address> {
    ResourceAddresses(graph.resources) + DataSourceAddresses(graph.dataSources) + StackAddresses(graph.stackReferences)
  }

  /** Every address an expression mentions, at any depth. */
  function References(e: Expr): set<Address> {
    match e
    case ResourceAttr(address, _) => {address}
    case DataSourceAttr(address, _) => {address}
    case Array(items) => set item, a | item in items && a in References(item) :: a
    case Object(fields) => set f, a | f in fields && a in References(f.value) :: a
    case Index(collection, key) => References(collection) + References(key)
    case Attribute(of, _) => References(of)
    case Splat(of) => References(of)
    case Conditional(condition, whenTrue, whenFalse) =>
      References(condition) + References(whenTrue) + References(whenFalse)
    case Function(_, args) => set arg, a | arg in args && a in References(arg) :: a
    case Template(parts) =>
      set part, a | part in parts && part.Interpolation? && a in References(part.expression) :: a
    case _ => {}
  }

  predicate ValidPath(path: seq<string>) {
    forall step :: step in path ==> ValidIdentifier(step)
  }

  /** Reference kinds, attribute and function names, secret names: what an expression must
      satisfy whatever the rest of the graph is. */
  predicate WellFormed(e: Expr) {
    match e
    case ResourceAttr(address, path) => address.Resource? && ValidPath(path)
    case DataSourceAttr(address, path) => address.DataSource? && ValidPath(path)
    case Array(items) => forall item :: item in items ==> WellFormed(item)
    case Object(fields) => forall f :: f in fields ==> WellFormed(f.value)
    case Index(collection, key) => WellFormed(collection) && WellFormed(key)
    case Attribute(of, name) => ValidIdentifier(name) && WellFormed(of)
    case Splat(of) => WellFormed(of)
    case Conditional(condition, whenTrue, whenFalse) =>
      WellFormed(condition) && WellFormed(whenTrue) && WellFormed(whenFalse)
    case Function(name, args) => ValidIdentifier(name) && forall arg :: arg in args ==> WellFormed(arg)
    case Template(parts) => forall part :: part in parts && part.Interpolation? ==> WellFormed(part.expression)
    case SecretEnv(name) => ValidEnvironmentName(name)
    case _ => true
  }

  /** No object inside a value repeats a key. */
  ghost predicate ValueUnique(value: Value) {
    match value
    case List(values) => forall v :: v in values ==> ValueUnique(v)
    case Record(members) => DistinctKeys(members) && forall m :: m in members ==> ValueUnique(m.value)
    case _ => true
  }

  /** No object inside an expression, its literals included, repeats a key. */
  ghost predicate ExprUnique(e: Expr) {
    match e
    case Literal(value) => ValueUnique(value)
    case Array(items) => forall item :: item in items ==> ExprUnique(item)
    case Object(fields) => DistinctKeys(fields) && forall f :: f in fields ==> ExprUnique(f.value)
    case Index(collection, key) => ExprUnique(collection) && ExprUnique(key)
    case Attribute(of, _) => ExprUnique(of)
    case Splat(of) => ExprUnique(of)
    case Conditional(condition, whenTrue, whenFalse) =>
      ExprUnique(condition) && ExprUnique(whenTrue) && ExprUnique(whenFalse)
    case Function(_, args) => forall arg :: arg in args ==> ExprUnique(arg)
    case Template(parts) => forall part :: part in parts && part.Interpolation? ==> ExprUnique(part.expression)
    case _ => true
  }
}
