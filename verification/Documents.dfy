/** The reference validator of graph documents: what it accepts, stated without its loops, and
    the loops themselves proved to decide exactly that. */
module Documents {
  import opened Wrappers
  import opened Walks
  import opened SortedMap
  import opened CycleSearch
  import opened GraphIr

  // ----- what a valid document is -----

  /** The text before the first dot, or all of it. */
  function FirstComponent(version: string): string {
    if version == "" || version[0] == '.' then "" else [version[0]] + FirstComponent(version[1..])
  }

  /** The text before and after the first dot. */
  function SplitOnce(s: string): Option<(string, string)> {
    if s == "" then None
    else if s[0] == '.' then Some(("", s[1..]))
    else match SplitOnce(s[1..])
      case Some(halves) => Some(([s[0]] + halves.0, halves.1))
      case None => None
  }

  function CountDots(s: string): nat {
    if s == "" then 0 else (if s[0] == '.' then 1 else 0) + CountDots(s[1..])
  }

  ghost predicate IsAlias(provider: string, name: string, alias: string) {
    ValidIdentifier(name) && ValidIdentifier(alias) && provider == name + "." + alias
  }

  /** An identifier, or two joined by a dot. */
  ghost predicate ValidSelector(provider: string) {
    ValidIdentifier(provider) || exists name, alias :: IsAlias(provider, name, alias)
  }

  ghost function ConfiguredProviders(graph: Graph): set<string> {
    Elements(ConfigAddresses(graph.providerConfigs))
  }

  ghost predicate ValidExpr(e: Expr, addresses: set<Address>) {
    WellFormed(e) && References(e) <= addresses
  }

  ghost predicate ValidValues(arguments: seq<Entry<Expr>>, addresses: set<Address>) {
    forall a :: a in arguments ==> ValidExpr(a.value, addresses)
  }

  ghost predicate ValidExplicit(owner: Address, targets: seq<Address>, addresses: set<Address>) {
    forall t :: t in targets ==> t != owner && t in addresses
  }

  ghost predicate ValidSelection(provider: Option<string>, configured: set<string>) {
    provider.Some? ==> ValidSelector(provider.value) && provider.value in configured
  }

  ghost predicate ValidTriggers(targets: seq<Address>, addresses: set<Address>) {
    forall t :: t in targets ==> t.Resource? && t in addresses
  }

  ghost predicate ValidResource(r: ResourceSpec, addresses: set<Address>, configured: set<string>) {
    && ValidValues(r.arguments, addresses)
    && ValidExplicit(r.Address(), r.dependsOn, addresses)
    && ValidSelection(r.provider, configured)
    && ValidTriggers(r.Triggers(), addresses)
  }

  ghost predicate ValidDataSource(d: DataSourceSpec, addresses: set<Address>, configured: set<string>) {
    && ValidValues(d.arguments, addresses)
    && ValidExplicit(d.Address(), d.dependsOn, addresses)
    && ValidSelection(d.provider, configured)
  }

  ghost predicate ValidConfigNames(configs: seq<ProviderConfig>) {
    && (forall c :: c in configs ==>
          ValidIdentifier(c.provider) && (c.alias.Some? ==> ValidIdentifier(c.alias.value)))
    && Distinct(ConfigAddresses(configs))
  }

  predicate Named(addresses: seq<Address>) {
    forall a :: a in addresses ==> ValidIdentifier(a.kind) && ValidIdentifier(a.name)
  }

  /** Nodes are named by identifiers, and no address names two. */
  ghost predicate ValidNodeNames(graph: Graph) {
    Named(Addresses(graph)) && Distinct(Addresses(graph))
  }

  ghost predicate ValidContents(graph: Graph) {
    var addresses, configured := Elements(Addresses(graph)), ConfiguredProviders(graph);
    && (forall r :: r in graph.resources ==> ValidResource(r, addresses, configured))
    && (forall d :: d in graph.dataSources ==> ValidDataSource(d, addresses, configured))
    && (forall o :: o in graph.outputs ==> ValidExpr(o.value.value, addresses))
    && (forall c :: c in graph.providerConfigs ==> ValidValues(c.arguments, addresses))
  }

  ghost predicate ValidMoves(moves: seq<MoveSpec>, addresses: set<Address>) {
    && (forall m :: m in moves ==> m.to in addresses)
    && Distinct(MoveTargets(moves))
  }

  ghost predicate ValidImports(imports: seq<ImportSpec>, addresses: set<Address>, blank: string -> bool) {
    && (forall m :: m in imports ==> m.to.Resource? && m.to in addresses && !blank(m.id))
    && Distinct(ImportTargets(imports))
  }

  /** Everything but acyclicity. */
  ghost predicate ValidParts(graph: Graph, blank: string -> bool) {
    && (forall p :: p in graph.requiredProviders ==> ValidIdentifier(p.key))
    && ValidConfigNames(graph.providerConfigs)
    && ValidNodeNames(graph)
    && ValidContents(graph)
    && ValidMoves(graph.moves, Elements(Addresses(graph)))
    && ValidImports(graph.imports, Elements(Addresses(graph)), blank)
  }

  /** The dependency edges `owner` contributes: one for each address its expressions mention and
      one, marked explicit, for each it names. */
  ghost function EdgesOf(owner: Address, arguments: seq<Entry<Expr>>, explicit: seq<Address>)
    : set<Dependency<Address>>
  {
    (set a, from | a in arguments && from in References(a.value) :: Dependency(from, owner, false))
    + (set from | from in explicit :: Dependency(from, owner, true))
  }

  ghost function ResourceEdges(r: ResourceSpec): set<Dependency<Address>> {
    EdgesOf(r.Address(), r.arguments, r.dependsOn + r.Triggers())
  }

  ghost function DataSourceEdges(d: DataSourceSpec): set<Dependency<Address>> {
    EdgesOf(d.Address(), d.arguments, d.dependsOn)
  }

  ghost function EdgesInto(resources: seq<ResourceSpec>, dataSources: seq<DataSourceSpec>)
    : set<Dependency<Address>>
  {
    (set r, e | r in resources && e in ResourceEdges(r) :: e)
    + (set d, e | d in dataSources && e in DataSourceEdges(d) :: e)
  }

  ghost function Edges(graph: Graph): set<Dependency<Address>> {
    EdgesInto(graph.resources, graph.dataSources)
  }

  /** "Depends on", read off the edges. */
  ghost function DependsOn(edges: set<Dependency<Address>>): set<(Address, Address)> {
    set e | e in edges :: (e.to, e.from)
  }

  ghost predicate Valid(doc: GraphDocument, blank: string -> bool) {
    && FirstComponent(doc.formatVersion) == "1"
    && ValidParts(doc.graph, blank)
    && Acyclic(DependsOn(Edges(doc.graph)))
  }

  // ----- the validator -----

  datatype Verdict = Accepted | Rejected | Cycle(nodes: seq<Address>)

  method CheckConfigNames(configs: seq<ProviderConfig>) returns (ok: bool, configured: set<string>)
    ensures ok <==> ValidConfigNames(configs)
    ensures ok ==> configured == Elements(ConfigAddresses(configs))
  {
    configured := {};
    for i := 0 to |configs|
      invariant ValidConfigNames(configs[..i])
      invariant configured == Elements(ConfigAddresses(configs[..i]))
    {
      var c := configs[i];
      assert configs[..i + 1] == configs[..i] + [c];
      assert ConfigAddresses(configs[..i + 1]) == ConfigAddresses(configs[..i]) + [ProviderAddress(c)];
      DistinctSnoc(ConfigAddresses(configs[..i]), ProviderAddress(c));
      var named := ValidIdentifier(c.provider) && (c.alias.Some? ==> ValidIdentifier(c.alias.value));
      if !named || ProviderAddress(c) in configured {
        PrefixDistinct(ConfigAddresses(configs), i + 1);
        assert ConfigAddresses(configs)[..i + 1] == ConfigAddresses(configs[..i + 1]);
        return false, configured;
      }
      configured := configured + {ProviderAddress(c)};
    }
    assert configs[..|configs|] == configs;
    return true, configured;
  }

  lemma PrefixDistinct<T>(s: seq<T>, n: nat)
    requires n <= |s|
    ensures Distinct(s) ==> Distinct(s[..n])
  {
  }

  /** Adds named nodes to those already taken, one by one, until a name is no identifier or an
      address is taken twice. */
  method Claim(taken: set<Address>, addresses: seq<Address>) returns (ok: bool, claimed: set<Address>)
    ensures ok <==> Named(addresses) && Distinct(addresses) && Elements(addresses) !! taken
    ensures ok ==> claimed == taken + Elements(addresses)
  {
    claimed := taken;
    for i := 0 to |addresses|
      invariant Named(addresses[..i])
      invariant Distinct(addresses[..i]) && Elements(addresses[..i]) !! taken
      invariant claimed == taken + Elements(addresses[..i])
    {
      var address := addresses[i];
      assert addresses[..i + 1] == addresses[..i] + [address];
      assert address in Elements(addresses);
      if !ValidIdentifier(address.kind) || !ValidIdentifier(address.name) || address in claimed {
        return false, claimed;
      }
      claimed := claimed + {address};
    }
    assert addresses[..|addresses|] == addresses;
    return true, claimed;
  }

  lemma NamedAppend(a: seq<Address>, b: seq<Address>)
    ensures Named(a + b) <==> Named(a) && Named(b)
  {
    assert forall x :: x in a + b <==> x in a || x in b;
  }

  method CheckNodeNames(graph: Graph) returns (ok: bool, addresses: set<Address>)
    ensures ok <==> ValidNodeNames(graph)
    ensures ok ==> addresses == Elements(Addresses(graph))
  {
    var resources := ResourceAddresses(graph.resources);
    var dataSources := DataSourceAddresses(graph.dataSources);
    var stacks := StackAddresses(graph.stackReferences);
    DistinctAppend(resources, dataSources);
    DistinctAppend(resources + dataSources, stacks);
    NamedAppend(resources, dataSources);
    NamedAppend(resources + dataSources, stacks);
    ok, addresses := Claim({}, resources);
    if ok {
      ok, addresses := Claim(addresses, dataSources);
    }
    if ok {
      ok, addresses := Claim(addresses, stacks);
    }
  }

  method CheckValues(arguments: seq<Entry<Expr>>, addresses: set<Address>) returns (ok: bool)
    ensures ok <==> ValidValues(arguments, addresses)
  {
    for i := 0 to |arguments|
      invariant forall j :: 0 <= j < i ==> ValidExpr(arguments[j].value, addresses)
    {
      if !WellFormed(arguments[i].value) || !(References(arguments[i].value) <= addresses) {
        assert arguments[i] in arguments;
        return false;
      }
    }
    return true;
  }

  method CheckOwner(owner: Address, arguments: seq<Entry<Expr>>, explicit: seq<Address>, addresses: set<Address>)
    returns (ok: bool)
    ensures ok <==> ValidValues(arguments, addresses) && ValidExplicit(owner, explicit, addresses)
  {
    ok := CheckValues(arguments, addresses);
    if !ok {
      return;
    }
    for i := 0 to |explicit|
      invariant ValidExplicit(owner, explicit[..i], addresses)
    {
      assert explicit[..i + 1] == explicit[..i] + [explicit[i]];
      if explicit[i] == owner || explicit[i] !in addresses {
        assert explicit[i] in explicit;
        return false;
      }
    }
    assert explicit[..|explicit|] == explicit;
  }

  lemma {:induction false} SplitSpec(s: string)
    ensures match SplitOnce(s)
            case None => '.' !in s && CountDots(s) == 0
            case Some(halves) => s == halves.0 + "." + halves.1 && CountDots(s) == 1 + CountDots(halves.1)
  {
    if s != "" {
      assert s == [s[0]] + s[1..];
      if s[0] == '.' {
        assert s == "" + "." + s[1..];
      } else {
        SplitSpec(s[1..]);
      }
    }
  }

  /** The dot after a text without dots is the first. */
  lemma {:induction false} SplitAtFirstDot(name: string, alias: string)
    requires '.' !in name
    ensures SplitOnce(name + "." + alias) == Some((name, alias))
  {
    var s := name + "." + alias;
    if name == "" {
      assert s[1..] == alias;
    } else {
      assert name == [name[0]] + name[1..];
      SplitAtFirstDot(name[1..], alias);
      assert s[1..] == name[1..] + "." + alias;
    }
  }

  lemma {:induction false} NoDotsCounted(s: string)
    requires '.' !in s
    ensures CountDots(s) == 0
  {
    if s != "" {
      assert s == [s[0]] + s[1..];
      NoDotsCounted(s[1..]);
    }
  }

  lemma IdentifierHasNoDot(s: string)
    requires ValidIdentifier(s)
    ensures '.' !in s
  {
  }

  /** Version 1 documents: "1", or "1." and anything. */
  lemma {:induction false} VersionOne(version: string)
    ensures FirstComponent(version) == "1" <==> version == "1" || "1." <= version
  {
    if version != "" {
      assert version == [version[0]] + version[1..];
      if |version| > 1 {
        assert "1." <= version <==> version[0] == '1' && version[1] == '.';
      }
    }
  }

  /** In valid configurations a name alone selects the one without alias, and a name and an alias
      joined by a dot the one with both. */
  lemma SelectionFindsItsConfig(configs: seq<ProviderConfig>, name: string, alias: Option<string>)
    requires ValidConfigNames(configs)
    requires ValidIdentifier(name) && (alias.Some? ==> ValidIdentifier(alias.value))
    ensures (if alias.Some? then name + "." + alias.value else name) in Elements(ConfigAddresses(configs)) <==>
            exists c :: c in configs && c.provider == name && c.alias == alias
  {
    var selector := if alias.Some? then name + "." + alias.value else name;
    if selector in ConfigAddresses(configs) {
      var i :| 0 <= i < |configs| && ConfigAddresses(configs)[i] == selector;
      var c := configs[i];
      assert c in configs;
      SelectorSplits(name, alias);
      SelectorSplits(c.provider, c.alias);
    }
    if c :| c in configs && c.provider == name && c.alias == alias {
      var i :| 0 <= i < |configs| && configs[i] == c;
      assert ConfigAddresses(configs)[i] == selector;
    }
  }

  lemma SelectorSplits(name: string, alias: Option<string>)
    requires ValidIdentifier(name) && (alias.Some? ==> ValidIdentifier(alias.value))
    ensures alias.None? ==> SplitOnce(name) == None
    ensures alias.Some? ==> SplitOnce(name + "." + alias.value) == Some((name, alias.value))
  {
    IdentifierHasNoDot(name);
    SplitSpec(name);
    if alias.Some? {
      SplitAtFirstDot(name, alias.value);
    }
  }

  /** Splitting once and counting dots decides what a selector is. */
  lemma SelectorDecided(provider: string)
    ensures ValidSelector(provider) <==>
            (match SplitOnce(provider)
             case Some(halves) => ValidIdentifier(halves.0) && ValidIdentifier(halves.1)
             case None => ValidIdentifier(provider))
            && CountDots(provider) <= 1
  {
    SplitSpec(provider);
    if ValidIdentifier(provider) {
      IdentifierHasNoDot(provider);
      NoDotsCounted(provider);
    }
    if name, alias :| IsAlias(provider, name, alias) {
      IdentifierHasNoDot(name);
      IdentifierHasNoDot(alias);
      SplitAtFirstDot(name, alias);
      NoDotsCounted(alias);
    }
    match SplitOnce(provider)
    case Some(halves) =>
      if ValidIdentifier(halves.0) && ValidIdentifier(halves.1) {
        assert IsAlias(provider, halves.0, halves.1);
      }
    case None =>
  }

  method CheckSelection(provider: Option<string>, configured: set<string>) returns (ok: bool)
    ensures ok <==> ValidSelection(provider, configured)
  {
    if provider.None? {
      return true;
    }
    SelectorDecided(provider.value);
    var valid := match SplitOnce(provider.value)
      case Some(halves) => ValidIdentifier(halves.0) && ValidIdentifier(halves.1)
      case None => ValidIdentifier(provider.value);
    if !valid || CountDots(provider.value) > 1 {
      return false;
    }
    return provider.value in configured;
  }

  method CheckTriggers(resource: ResourceSpec, addresses: set<Address>) returns (ok: bool)
    ensures ok <==> ValidTriggers(resource.Triggers(), addresses)
  {
    if resource.lifecycle.None? {
      return true;
    }
    var targets := resource.lifecycle.value.replaceTriggeredBy;
    for i := 0 to |targets|
      invariant ValidTriggers(targets[..i], addresses)
    {
      assert targets[..i + 1] == targets[..i] + [targets[i]];
      if !targets[i].Resource? || targets[i] !in addresses {
        return false;
      }
    }
    assert targets[..|targets|] == targets;
    return true;
  }

  method CheckContents(graph: Graph, addresses: set<Address>, configured: set<string>) returns (ok: bool)
    requires addresses == Elements(Addresses(graph)) && configured == ConfiguredProviders(graph)
    ensures ok <==> ValidContents(graph)
  {
    for i := 0 to |graph.resources|
      invariant forall j :: 0 <= j < i ==> ValidResource(graph.resources[j], addresses, configured)
    {
      var r := graph.resources[i];
      assert r in graph.resources;
      var owned := CheckOwner(r.Address(), r.arguments, r.dependsOn, addresses);
      var selected := CheckSelection(r.provider, configured);
      var triggered := CheckTriggers(r, addresses);
      if !owned || !selected || !triggered {
        return false;
      }
    }
    for i := 0 to |graph.dataSources|
      invariant forall j :: 0 <= j < i ==> ValidDataSource(graph.dataSources[j], addresses, configured)
    {
      var d := graph.dataSources[i];
      assert d in graph.dataSources;
      var owned := CheckOwner(d.Address(), d.arguments, d.dependsOn, addresses);
      var selected := CheckSelection(d.provider, configured);
      if !owned || !selected {
        return false;
      }
    }
    for i := 0 to |graph.outputs|
      invariant forall j :: 0 <= j < i ==> ValidExpr(graph.outputs[j].value.value, addresses)
    {
      var o := graph.outputs[i];
      assert o in graph.outputs;
      if !WellFormed(o.value.value) || !(References(o.value.value) <= addresses) {
        return false;
      }
    }
    for i := 0 to |graph.providerConfigs|
      invariant forall j :: 0 <= j < i ==> ValidValues(graph.providerConfigs[j].arguments, addresses)
    {
      assert graph.providerConfigs[i] in graph.providerConfigs;
      ok := CheckValues(graph.providerConfigs[i].arguments, addresses);
      if !ok {
        return;
      }
    }
    return true;
  }

  method CheckMoves(moves: seq<MoveSpec>, addresses: set<Address>) returns (ok: bool)
    ensures ok <==> ValidMoves(moves, addresses)
  {
    var targets := {};
    for i := 0 to |moves|
      invariant ValidMoves(moves[..i], addresses)
      invariant targets == Elements(MoveTargets(moves[..i]))
    {
      var movement := moves[i];
      assert moves[..i + 1] == moves[..i] + [movement];
      assert MoveTargets(moves[..i + 1]) == MoveTargets(moves[..i]) + [movement.to];
      DistinctSnoc(MoveTargets(moves[..i]), movement.to);
      if movement.to !in addresses || movement.to in targets {
        PrefixDistinct(MoveTargets(moves), i + 1);
        assert MoveTargets(moves)[..i + 1] == MoveTargets(moves[..i + 1]);
        return false;
      }
      targets := targets + {movement.to};
    }
    assert moves[..|moves|] == moves;
    return true;
  }

  method CheckImports(imports: seq<ImportSpec>, addresses: set<Address>, blank: string -> bool) returns (ok: bool)
    ensures ok <==> ValidImports(imports, addresses, blank)
  {
    var targets := {};
    for i := 0 to |imports|
      invariant ValidImports(imports[..i], addresses, blank)
      invariant targets == Elements(ImportTargets(imports[..i]))
    {
      var adopted := imports[i];
      assert imports[..i + 1] == imports[..i] + [adopted];
      assert ImportTargets(imports[..i + 1]) == ImportTargets(imports[..i]) + [adopted.to];
      DistinctSnoc(ImportTargets(imports[..i]), adopted.to);
      if !adopted.to.Resource? || adopted.to !in addresses || blank(adopted.id) || adopted.to in targets {
        PrefixDistinct(ImportTargets(imports), i + 1);
        assert ImportTargets(imports)[..i + 1] == ImportTargets(imports[..i + 1]);
        return false;
      }
      targets := targets + {adopted.to};
    }
    assert imports[..|imports|] == imports;
    return true;
  }

  // ----- the edges -----

  method AddDependencies(
    owner: Address, arguments: seq<Entry<Expr>>, explicit: seq<Address>, before: set<Dependency<Address>>)
    returns (edges: set<Dependency<Address>>)
    ensures edges == before + EdgesOf(owner, arguments, explicit)
  {
    edges := before;
    for i := 0 to |arguments|
      invariant edges == before + EdgesOf(owner, arguments[..i], [])
    {
      assert arguments[..i + 1] == arguments[..i] + [arguments[i]];
      edges := edges + set from | from in References(arguments[i].value) :: Dependency(from, owner, false);
    }
    assert arguments[..|arguments|] == arguments;
    for i := 0 to |explicit|
      invariant edges == before + EdgesOf(owner, arguments, explicit[..i])
    {
      assert explicit[..i + 1] == explicit[..i] + [explicit[i]];
      edges := edges + {Dependency(explicit[i], owner, true)};
    }
    assert explicit[..|explicit|] == explicit;
  }

  lemma ResourceEdgesAppend(a: seq<ResourceSpec>, b: seq<ResourceSpec>)
    ensures EdgesInto(a + b, []) == EdgesInto(a, []) + EdgesInto(b, [])
  {
    forall e | e in EdgesInto(a, []) + EdgesInto(b, [])
      ensures e in EdgesInto(a + b, [])
    {
      var r :| (r in a || r in b) && e in ResourceEdges(r);
      assert r in a + b;
    }
  }

  lemma DataSourceEdgesAppend(a: seq<DataSourceSpec>, b: seq<DataSourceSpec>)
    ensures EdgesInto([], a + b) == EdgesInto([], a) + EdgesInto([], b)
  {
    forall e | e in EdgesInto([], a) + EdgesInto([], b)
      ensures e in EdgesInto([], a + b)
    {
      var d :| (d in a || d in b) && e in DataSourceEdges(d);
      assert d in a + b;
    }
  }

  lemma EdgesOfOneResource(r: ResourceSpec)
    ensures EdgesInto([r], []) == ResourceEdges(r)
  {
    assert r in [r];
  }

  lemma EdgesOfOneDataSource(d: DataSourceSpec)
    ensures EdgesInto([], [d]) == DataSourceEdges(d)
  {
    assert d in [d];
  }

  method CollectEdges(graph: Graph) returns (edges: set<Dependency<Address>>)
    ensures edges == Edges(graph)
  {
    var resources, dataSources := graph.resources, graph.dataSources;
    edges := {};
    for i := 0 to |resources|
      invariant edges == EdgesInto(resources[..i], [])
    {
      var r := resources[i];
      ResourceEdgesAppend(resources[..i], [r]);
      EdgesOfOneResource(r);
      assert resources[..i + 1] == resources[..i] + [r];
      edges := AddDependencies(r.Address(), r.arguments, r.dependsOn + r.Triggers(), edges);
    }
    assert resources[..|resources|] == resources;
    for i := 0 to |dataSources|
      invariant edges == EdgesInto(resources, []) + EdgesInto([], dataSources[..i])
    {
      var d := dataSources[i];
      DataSourceEdgesAppend(dataSources[..i], [d]);
      EdgesOfOneDataSource(d);
      assert dataSources[..i + 1] == dataSources[..i] + [d];
      edges := AddDependencies(d.Address(), d.arguments, d.dependsOn, edges);
    }
    assert dataSources[..|dataSources|] == dataSources;
  }

  /** The edges in some order, as iterating over the set gives them. */
  method Enumerate(edges: set<Dependency<Address>>) returns (list: seq<Dependency<Address>>)
    ensures Relation(list) == DependsOn(edges)
  {
    list := [];
    var rest := edges;
    while rest != {}
      invariant Elements(list) == edges - rest && rest <= edges
      decreases rest
    {
      var e :| e in rest;
      rest := rest - {e};
      assert Elements(list + [e]) == Elements(list) + {e};
      list := list + [e];
    }
    forall p | p in DependsOn(edges)
      ensures p in Relation(list)
    {
      var e :| e in edges && p == (e.to, e.from);
      assert e in Elements(list);
    }
    forall p | p in Relation(list)
      ensures p in DependsOn(edges)
    {
      var i :| 0 <= i < |list| && p == (list[i].to, list[i].from);
      assert list[i] in Elements(list);
    }
  }

  /** Accepts exactly the valid documents; a reported cycle is a real one, of a document with
      nothing else wrong. */
  method Validate(doc: GraphDocument, blank: string -> bool) returns (verdict: Verdict)
    ensures verdict.Accepted? <==> Valid(doc, blank)
    ensures verdict.Cycle? ==> IsCycle(DependsOn(Edges(doc.graph)), verdict.nodes)
    ensures verdict.Cycle? <==>
            FirstComponent(doc.formatVersion) == "1" && ValidParts(doc.graph, blank)
            && !Acyclic(DependsOn(Edges(doc.graph)))
  {
    var graph := doc.graph;
    if FirstComponent(doc.formatVersion) != "1" {
      return Rejected;
    }
    if exists p :: p in graph.requiredProviders && !ValidIdentifier(p.key) {
      return Rejected;
    }
    var ok, configured := CheckConfigNames(graph.providerConfigs);
    if !ok {
      return Rejected;
    }
    var addresses;
    ok, addresses := CheckNodeNames(graph);
    if !ok {
      return Rejected;
    }
    ok := CheckContents(graph, addresses, configured);
    if !ok {
      return Rejected;
    }
    ok := CheckMoves(graph.moves, addresses);
    if !ok {
      return Rejected;
    }
    ok := CheckImports(graph.imports, addresses, blank);
    if !ok {
      return Rejected;
    }
    var edges := CollectEdges(graph);
    var list := Enumerate(edges);
    var cycle := FindCycle(list);
    return if cycle.Some? then Cycle(cycle.value) else Accepted;
  }
}
