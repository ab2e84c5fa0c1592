/** What the program-side validator decides: each of its checks as a condition on the graph, in the
    terms the reference validator's rules are stated in. */
module Agreement {
  import opened Wrappers
  import opened Walks
  import opened SortedMap
  import opened CycleSearch
  import opened FuelSearch
  import opened GraphIr
  import Documents
  import opened ProgramValidation

  // ----- no object repeats a key -----

  ghost predicate ArgumentsUnique(arguments: seq<Entry<Expr>>) {
    DistinctKeys(arguments) && forall a :: a in arguments ==> ExprUnique(a.value)
  }

  ghost predicate GraphUnique(graph: Graph) {
    && DistinctKeys(graph.requiredProviders)
    && (forall c :: c in graph.providerConfigs ==> ArgumentsUnique(c.arguments))
    && (forall r :: r in graph.resources ==> ArgumentsUnique(r.arguments))
    && (forall d :: d in graph.dataSources ==> ArgumentsUnique(d.arguments))
    && DistinctKeys(graph.outputs)
    && (forall o :: o in graph.outputs ==> ExprUnique(o.value.value))
  }

  ghost predicate OutputsNamed(graph: Graph) {
    forall o :: o in graph.outputs ==> ValidIdentifier(o.key)
  }

  // ----- what each recursive check decides -----

  lemma {:induction false} ReferenceListSpec(e: Expr)
    ensures Elements(ReferenceList(e)) == References(e)
    decreases e, 0
  {
    match e
    case Array(items) => ReferencesOfAllSpec(items);
    case Object(fields) => ReferencesOfFieldsSpec(fields);
    case Index(collection, key) => ReferenceListSpec(collection); ReferenceListSpec(key);
    case Attribute(of, _) => ReferenceListSpec(of);
    case Splat(of) => ReferenceListSpec(of);
    case Conditional(condition, whenTrue, whenFalse) =>
      ReferenceListSpec(condition); ReferenceListSpec(whenTrue); ReferenceListSpec(whenFalse);
    case Function(_, args) => ReferencesOfAllSpec(args);
    case Template(parts) => ReferencesOfPartsSpec(parts);
    case _ =>
  }

  lemma {:induction false} ReferencesOfAllSpec(items: seq<Expr>)
    ensures forall item, a :: item in items && a in References(item) ==> a in ReferencesOfAll(items)
    ensures forall a :: a in ReferencesOfAll(items) ==> exists item :: item in items && a in References(item)
    decreases items, 1
  {
    if items != [] {
      var first, rest := items[0], items[1..];
      ReferenceListSpec(first);
      ReferencesOfAllSpec(rest);
      assert items == [first] + rest;
      forall a | a in ReferencesOfAll(items)
        ensures exists item :: item in items && a in References(item)
      {
        if a in ReferenceList(first) {
          assert first in items && a in References(first);
        } else {
          assert ReferencesOfAll(items) == ReferenceList(first) + ReferencesOfAll(rest);
          assert a in ReferencesOfAll(rest);
          var item :| item in rest && a in References(item);
          assert item in items;
        }
      }
    }
  }

  lemma {:induction false} ReferencesOfFieldsSpec(fields: seq<Entry<Expr>>)
    ensures forall f, a :: f in fields && a in References(f.value) ==> a in ReferencesOfFields(fields)
    ensures forall a :: a in ReferencesOfFields(fields) ==> exists f :: f in fields && a in References(f.value)
    decreases fields, 1
  {
    if fields != [] {
      var first, rest := fields[0], fields[1..];
      ReferenceListSpec(first.value);
      ReferencesOfFieldsSpec(rest);
      assert fields == [first] + rest;
      forall a | a in ReferencesOfFields(fields)
        ensures exists f :: f in fields && a in References(f.value)
      {
        if a in ReferenceList(first.value) {
          assert first in fields && a in References(first.value);
        } else {
          assert ReferencesOfFields(fields) == ReferenceList(first.value) + ReferencesOfFields(rest);
          assert a in ReferencesOfFields(rest);
          var f :| f in rest && a in References(f.value);
          assert f in fields;
        }
      }
    }
  }

  lemma {:induction false} ReferencesOfPartsSpec(parts: seq<TemplatePart>)
    ensures forall p, a :: p in parts && p.Interpolation? && a in References(p.expression) ==>
                             a in ReferencesOfParts(parts)
    ensures forall a :: a in ReferencesOfParts(parts) ==>
                          exists p :: p in parts && p.Interpolation? && a in References(p.expression)
    decreases parts, 1
  {
    if parts != [] {
      var first, rest := parts[0], parts[1..];
      ReferencesOfPartSpec(first);
      ReferencesOfPartsSpec(rest);
      assert parts == [first] + rest;
      forall a | a in ReferencesOfParts(parts)
        ensures exists p :: p in parts && p.Interpolation? && a in References(p.expression)
      {
        if a in ReferencesOfPart(first) {
          assert first in parts && first.Interpolation? && a in References(first.expression);
        } else {
          assert ReferencesOfParts(parts) == ReferencesOfPart(first) + ReferencesOfParts(rest);
          assert a in ReferencesOfParts(rest);
          var p :| p in rest && p.Interpolation? && a in References(p.expression);
          assert p in parts;
        }
      }
    }
  }

  lemma {:induction false} ReferencesOfPartSpec(part: TemplatePart)
    ensures Elements(ReferencesOfPart(part)) == if part.Interpolation? then References(part.expression) else {}
    decreases part, 1
  {
    if part.Interpolation? {
      ReferenceListSpec(part.expression);
    }
  }

  lemma {:induction false} UniqueKeysSpec(seen: seq<string>, keys: seq<string>)
    ensures UniqueKeys(seen, keys) <==> Distinct(keys) && Elements(keys) !! Elements(seen)
    decreases |keys|
  {
    if keys != [] {
      var first, rest := keys[0], keys[1..];
      UniqueKeysSpec([first] + seen, rest);
      assert keys == [first] + rest;
      DistinctCons(first, rest);
      assert Elements([first] + seen) == {first} + Elements(seen);
    }
  }

  lemma DistinctKeysSpec<V(!new)>(entries: seq<Entry<V>>)
    ensures UniqueKeys([], Keys(entries)) <==> DistinctKeys(entries)
  {
    UniqueKeysSpec([], Keys(entries));
    var keys := Keys(entries);
    assert Elements<string>([]) == {};
    if DistinctKeys(entries) {
      assert Distinct(keys);
    } else {
      var i, j :| 0 <= i < j < |entries| && entries[i].key == entries[j].key;
      assert keys[i] == keys[j];
    }
  }

  lemma ValueKeysSpec(value: Value)
    ensures ValueKeys(value) <==> ValueUnique(value)
    decreases value, 0
  {
    match value
    case List(values) => ValueKeysOfAllSpec(values);
    case Record(members) =>
      DistinctKeysSpec(members);
      ValueKeysOfMembersSpec(members);
    case _ =>
  }

  lemma ValueKeysOfAllSpec(values: seq<Value>)
    ensures ValueKeysOfAll(values) <==> forall v :: v in values ==> ValueUnique(v)
    decreases values, 1
  {
    if values != [] {
      ValueKeysSpec(values[0]);
      ValueKeysOfAllSpec(values[1..]);
      assert values == [values[0]] + values[1..];
    }
  }

  lemma ValueKeysOfMembersSpec(members: seq<Entry<Value>>)
    ensures ValueKeysOfMembers(members) <==> forall m :: m in members ==> ValueUnique(m.value)
    decreases members, 1
  {
    if members != [] {
      ValueKeysSpec(members[0].value);
      ValueKeysOfMembersSpec(members[1..]);
      assert members == [members[0]] + members[1..];
    }
  }

  lemma PathOkSpec(path: seq<string>)
    ensures PathOk(path) <==> ValidPath(path)
  {
    if path != [] {
      PathOkSpec(path[1..]);
      assert path == [path[0]] + path[1..];
    }
  }

  lemma {:induction false} StructureOkSpec(e: Expr)
    ensures StructureOk(e) <==> WellFormed(e) && ExprUnique(e)
    decreases e, 0
  {
    match e
    case Literal(value) => ValueKeysSpec(value);
    case ResourceAttr(_, path) => PathOkSpec(path);
    case DataSourceAttr(_, path) => PathOkSpec(path);
    case Array(items) => StructureOkOfAllSpec(items);
    case Object(fields) => DistinctKeysSpec(fields); StructureOkOfFieldsSpec(fields);
    case Index(collection, key) => StructureOkSpec(collection); StructureOkSpec(key);
    case Attribute(of, _) => StructureOkSpec(of);
    case Splat(of) => StructureOkSpec(of);
    case Conditional(condition, whenTrue, whenFalse) =>
      StructureOkSpec(condition); StructureOkSpec(whenTrue); StructureOkSpec(whenFalse);
    case Function(_, args) => StructureOkOfAllSpec(args);
    case Template(parts) => StructureOkOfPartsSpec(parts);
    case _ =>
  }

  lemma {:induction false} StructureOkOfAllSpec(items: seq<Expr>)
    ensures StructureOkOfAll(items) <==> forall item :: item in items ==> WellFormed(item) && ExprUnique(item)
    decreases items, 1
  {
    if items != [] {
      StructureOkSpec(items[0]);
      StructureOkOfAllSpec(items[1..]);
      assert items == [items[0]] + items[1..];
    }
  }

  lemma {:induction false} StructureOkOfFieldsSpec(fields: seq<Entry<Expr>>)
    ensures StructureOkOfFields(fields) <==> forall f :: f in fields ==> WellFormed(f.value) && ExprUnique(f.value)
    decreases fields, 1
  {
    if fields != [] {
      StructureOkSpec(fields[0].value);
      StructureOkOfFieldsSpec(fields[1..]);
      assert fields == [fields[0]] + fields[1..];
    }
  }

  lemma {:induction false} StructureOkOfPartsSpec(parts: seq<TemplatePart>)
    ensures StructureOkOfParts(parts) <==>
            forall p :: p in parts && p.Interpolation? ==> WellFormed(p.expression) && ExprUnique(p.expression)
    decreases parts, 1
  {
    if parts != [] {
      StructureOkOfPartSpec(parts[0]);
      StructureOkOfPartsSpec(parts[1..]);
      assert parts == [parts[0]] + parts[1..];
    }
  }

  lemma {:induction false} StructureOkOfPartSpec(part: TemplatePart)
    ensures StructureOkOfPart(part) <==>
            (part.Interpolation? ==> WellFormed(part.expression) && ExprUnique(part.expression))
    decreases part, 1
  {
    if part.Interpolation? {
      StructureOkSpec(part.expression);
    }
  }

  lemma ReferencesOkSpec(addresses: seq<Address>, targets: seq<Address>)
    ensures ReferencesOk(addresses, targets) <==> Elements(targets) <= Elements(addresses)
  {
    if targets != [] {
      ReferencesOkSpec(addresses, targets[1..]);
      assert targets == [targets[0]] + targets[1..];
      assert targets[0] in Elements(targets) && Elements(targets[1..]) <= Elements(targets);
    }
  }

  lemma ExprOkSpec(addresses: seq<Address>, e: Expr)
    ensures ExprOk(addresses, e) <==> Documents.ValidExpr(e, Elements(addresses)) && ExprUnique(e)
  {
    StructureOkSpec(e);
    ReferenceListSpec(e);
    ReferencesOkSpec(addresses, ReferenceList(e));
  }

  lemma ArgumentValuesOkSpec(addresses: seq<Address>, arguments: seq<Entry<Expr>>)
    ensures ArgumentValuesOk(addresses, arguments) <==>
            Documents.ValidValues(arguments, Elements(addresses)) && forall a :: a in arguments ==> ExprUnique(a.value)
  {
    if arguments != [] {
      ExprOkSpec(addresses, arguments[0].value);
      ArgumentValuesOkSpec(addresses, arguments[1..]);
      assert arguments == [arguments[0]] + arguments[1..];
    }
  }

  lemma ArgumentsOkSpec(addresses: seq<Address>, arguments: seq<Entry<Expr>>)
    ensures ArgumentsOk(addresses, arguments) <==>
            Documents.ValidValues(arguments, Elements(addresses)) && ArgumentsUnique(arguments)
  {
    DistinctKeysSpec(arguments);
    ArgumentValuesOkSpec(addresses, arguments);
  }

  lemma {:induction false} ExplicitOkSpec(owner: Address, addresses: seq<Address>, targets: seq<Address>)
    ensures ExplicitOk(owner, addresses, targets) <==> Documents.ValidExplicit(owner, targets, Elements(addresses))
  {
    if targets != [] {
      var first, rest := targets[0], targets[1..];
      ExplicitOkSpec(owner, addresses, rest);
      assert targets == [first] + rest;
      if Documents.ValidExplicit(owner, targets, Elements(addresses)) {
        assert first in targets && first in Elements(addresses);
        forall t | t in rest
          ensures t != owner && t in Elements(addresses)
        {
          assert t in targets;
        }
        assert ExplicitOk(owner, addresses, targets);
      } else if ExplicitOk(owner, addresses, targets) {
        assert first in Elements(addresses);
        assert Documents.ValidExplicit(owner, targets, Elements(addresses));
      }
    }
  }

  lemma {:induction false} TriggersOkSpec(addresses: seq<Address>, targets: seq<Address>)
    ensures TriggersOk(addresses, targets) <==> Documents.ValidTriggers(targets, Elements(addresses))
  {
    if targets != [] {
      TriggersOkSpec(addresses, targets[1..]);
      assert targets == [targets[0]] + targets[1..];
      assert targets[0] in targets;
    }
  }

  // ----- the two provider-selector parsers -----

  lemma {:induction false} SplitsAgree(chars: string, reversed: string)
    ensures match Documents.SplitOnce(chars)
            case None => SplitProvider(chars, reversed) == None
            case Some(halves) => SplitProvider(chars, reversed) == Some((Reverse(reversed) + halves.0, halves.1))
    decreases |chars|
  {
    if chars != "" && chars[0] == '.' {
      assert Reverse(reversed) + "" == Reverse(reversed);
    } else if chars != "" {
      var longer := [chars[0]] + reversed;
      SplitsAgree(chars[1..], longer);
      assert longer[1..] == reversed;
      match Documents.SplitOnce(chars[1..])
      case Some(halves) =>
        assert Reverse(longer) + halves.0 == Reverse(reversed) + ([chars[0]] + halves.0);
      case None =>
    }
  }

  /** Splitting at the first dot alone decides what a selector is, without counting dots: an
      identifier holds none. */
  lemma SelectorsAgree(provider: string)
    ensures SelectorOk(provider) <==> Documents.ValidSelector(provider)
  {
    SplitsAgree(provider, "");
    Documents.SplitSpec(provider);
    Documents.SelectorDecided(provider);
    match Documents.SplitOnce(provider)
    case Some(halves) =>
      assert Reverse("") + halves.0 == halves.0;
      if ValidIdentifier(halves.1) {
        Documents.IdentifierHasNoDot(halves.1);
        Documents.NoDotsCounted(halves.1);
      }
    case None =>
  }

  lemma SelectionOkSpec(configured: seq<string>, provider: Option<string>)
    ensures SelectionOk(configured, provider) <==> Documents.ValidSelection(provider, Elements(configured))
  {
    if provider.Some? {
      SelectorsAgree(provider.value);
    }
  }

  // ----- names -----

  lemma {:induction false} ProviderNamesSpec(seen: seq<string>, providers: seq<Entry<ProviderRequirement>>)
    ensures ProviderNamesOk(seen, providers) <==>
            && (forall p :: p in providers ==> ValidIdentifier(p.key) && p.key !in seen)
            && DistinctKeys(providers)
    decreases |providers|
  {
    if providers != [] {
      var first, rest := providers[0], providers[1..];
      ProviderNamesSpec([first.key] + seen, rest);
      assert providers == [first] + rest;
      DistinctKeysCons(first, rest);
    }
  }

  lemma DistinctKeysCons<V(!new)>(first: Entry<V>, rest: seq<Entry<V>>)
    ensures DistinctKeys([first] + rest) <==> DistinctKeys(rest) && forall e :: e in rest ==> e.key != first.key
  {
    var all := [first] + rest;
    if DistinctKeys(all) {
      forall i, j | 0 <= i < j < |rest|
        ensures rest[i].key != rest[j].key
      {
        assert all[i + 1] == rest[i] && all[j + 1] == rest[j];
      }
      forall e | e in rest
        ensures e.key != first.key
      {
        var i :| 0 <= i < |rest| && rest[i] == e;
        assert all[i + 1] == e && all[0] == first;
      }
    } else if DistinctKeys(rest) {
      var i, j :| 0 <= i < j < |all| && all[i].key == all[j].key;
      assert all[j] == rest[j - 1];
      assert all[j] in rest;
    }
  }

  lemma {:induction false} ConfigNamesSpec(seen: seq<string>, configs: seq<ProviderConfig>)
    ensures ConfigNamesOk(seen, configs) <==>
            Documents.ValidConfigNames(configs) && Elements(ConfigAddresses(configs)) !! Elements(seen)
    decreases |configs|
  {
    if configs != [] {
      var first, rest := configs[0], configs[1..];
      var address := ProviderAddress(first);
      ConfigNamesSpec([address] + seen, rest);
      assert configs == [first] + rest;
      assert ConfigAddresses(configs) == [address] + ConfigAddresses(rest);
      DistinctCons(address, ConfigAddresses(rest));
      assert Elements([address] + seen) == {address} + Elements(seen);
    }
  }

  /** New addresses that are named by identifiers and leave the list free of repetition. */
  ghost predicate Claimable(seen: seq<Address>, addresses: seq<Address>) {
    Documents.Named(addresses) && Distinct(seen + addresses)
  }

  lemma {:induction false} ResourceNamesSpec(seen: seq<Address>, resources: seq<ResourceSpec>)
    ensures var addresses := ResourceAddresses(resources);
            && (ResourceNames(seen, resources).Some? ==> ResourceNames(seen, resources).value == seen + addresses)
            && (Distinct(seen) ==> (ResourceNames(seen, resources).Some? <==>
                                    Claimable(seen, addresses)))
    decreases |resources|
  {
    var addresses := ResourceAddresses(resources);
    if resources == [] {
      assert seen + addresses == seen;
    } else {
      var first := resources[0].Address();
      ResourceNamesSpec(seen + [first], resources[1..]);
      ClaimStep(seen, first, ResourceAddresses(resources[1..]));
      assert addresses == [first] + ResourceAddresses(resources[1..]);
    }
  }

  lemma {:induction false} DataSourceNamesSpec(seen: seq<Address>, dataSources: seq<DataSourceSpec>)
    ensures var addresses := DataSourceAddresses(dataSources);
            && (DataSourceNames(seen, dataSources).Some? ==>
                  DataSourceNames(seen, dataSources).value == seen + addresses)
            && (Distinct(seen) ==> (DataSourceNames(seen, dataSources).Some? <==>
                                    Claimable(seen, addresses)))
    decreases |dataSources|
  {
    var addresses := DataSourceAddresses(dataSources);
    if dataSources == [] {
      assert seen + addresses == seen;
    } else {
      var first := dataSources[0].Address();
      DataSourceNamesSpec(seen + [first], dataSources[1..]);
      ClaimStep(seen, first, DataSourceAddresses(dataSources[1..]));
      assert addresses == [first] + DataSourceAddresses(dataSources[1..]);
    }
  }

  lemma {:induction false} StackNamesSpec(seen: seq<Address>, stacks: seq<string>)
    ensures var addresses := StackAddresses(stacks);
            && (StackNames(seen, stacks).Some? ==> StackNames(seen, stacks).value == seen + addresses)
            && (Distinct(seen) ==> (StackNames(seen, stacks).Some? <==>
                                    Claimable(seen, addresses)))
    decreases |stacks|
  {
    var addresses := StackAddresses(stacks);
    if stacks == [] {
      assert seen + addresses == seen;
    } else {
      var first := StackAddress(stacks[0]);
      KindOfStacks();
      StackNamesSpec(seen + [first], stacks[1..]);
      ClaimStep(seen, first, StackAddresses(stacks[1..]));
      assert addresses == [first] + StackAddresses(stacks[1..]);
    }
  }

  lemma KindOfStacks()
    ensures ValidIdentifier(REMOTE_STATE)
  {
  }

  /** Taking one address at a time keeps the whole list free of repetition or not. */
  lemma ClaimStep(seen: seq<Address>, first: Address, rest: seq<Address>)
    ensures seen + ([first] + rest) == (seen + [first]) + rest
    ensures Distinct(seen) ==> (Distinct(seen + [first]) <==> first !in seen)
    ensures Distinct(seen + ([first] + rest)) ==> first !in seen
    ensures Documents.Named([first] + rest) <==>
            Documents.Named(rest) && ValidIdentifier(first.kind) && ValidIdentifier(first.name)
  {
    assert seen + ([first] + rest) == (seen + [first]) + rest;
    DistinctAppend(seen, [first] + rest);
    DistinctSnoc(seen, first);
    assert first in Elements([first] + rest);
    assert forall a :: a in [first] + rest <==> a == first || a in rest;
  }

  lemma ClaimedInTurn(a: seq<Address>, b: seq<Address>, c: seq<Address>)
    ensures Claimable([], a) ==> Distinct(a)
    ensures Claimable(a, b) ==> Distinct(a + b)
    ensures Claimable([], a) && Claimable(a, b) && Claimable(a + b, c) <==>
            Documents.Named(a + b + c) && Distinct(a + b + c)
  {
    assert [] + a == a;
    Documents.NamedAppend(a, b);
    Documents.NamedAppend(a + b, c);
    DistinctAppend(a, b);
    DistinctAppend(a + b, c);
  }

  lemma NodeNamesSpec(graph: Graph)
    ensures NodeNames(graph).Some? <==> Documents.ValidNodeNames(graph)
    ensures NodeNames(graph).Some? ==> NodeNames(graph).value == Addresses(graph)
  {
    var resources := ResourceAddresses(graph.resources);
    var dataSources := DataSourceAddresses(graph.dataSources);
    ResourceNamesSpec([], graph.resources);
    DataSourceNamesSpec(resources, graph.dataSources);
    StackNamesSpec(resources + dataSources, graph.stackReferences);
    assert [] + resources == resources;
    ClaimedInTurn(resources, dataSources, StackAddresses(graph.stackReferences));
  }

  // ----- contents -----

  lemma {:induction false} ResourcesOkSpec(
    addresses: seq<Address>, configured: seq<string>, resources: seq<ResourceSpec>)
    ensures ResourcesOk(addresses, configured, resources) <==>
            forall r :: r in resources ==>
              Documents.ValidResource(r, Elements(addresses), Elements(configured)) && ArgumentsUnique(r.arguments)
  {
    if resources != [] {
      var r := resources[0];
      ArgumentsOkSpec(addresses, r.arguments);
      ExplicitOkSpec(r.Address(), addresses, r.dependsOn);
      SelectionOkSpec(configured, r.provider);
      TriggersOkSpec(addresses, r.Triggers());
      ResourcesOkSpec(addresses, configured, resources[1..]);
      assert resources == [r] + resources[1..];
    }
  }

  lemma {:induction false} DataSourcesOkSpec(
    addresses: seq<Address>, configured: seq<string>, dataSources: seq<DataSourceSpec>)
    ensures DataSourcesOk(addresses, configured, dataSources) <==>
            forall d :: d in dataSources ==>
              Documents.ValidDataSource(d, Elements(addresses), Elements(configured)) && ArgumentsUnique(d.arguments)
  {
    if dataSources != [] {
      var d := dataSources[0];
      ArgumentsOkSpec(addresses, d.arguments);
      ExplicitOkSpec(d.Address(), addresses, d.dependsOn);
      SelectionOkSpec(configured, d.provider);
      DataSourcesOkSpec(addresses, configured, dataSources[1..]);
      assert dataSources == [d] + dataSources[1..];
    }
  }

  lemma {:induction false} OutputsOkSpec(addresses: seq<Address>, seen: seq<string>, outputs: seq<Entry<OutputSpec>>)
    ensures OutputsOk(addresses, seen, outputs) <==>
            && (forall o :: o in outputs ==>
                  && ValidIdentifier(o.key) && o.key !in seen
                  && Documents.ValidExpr(o.value.value, Elements(addresses)) && ExprUnique(o.value.value))
            && DistinctKeys(outputs)
    decreases |outputs|
  {
    if outputs != [] {
      var first, rest := outputs[0], outputs[1..];
      ExprOkSpec(addresses, first.value.value);
      OutputsOkSpec(addresses, [first.key] + seen, rest);
      assert outputs == [first] + rest;
      DistinctKeysCons(first, rest);
    }
  }

  lemma {:induction false} ProviderArgumentsOkSpec(addresses: seq<Address>, configs: seq<ProviderConfig>)
    ensures ProviderArgumentsOk(addresses, configs) <==>
            forall c :: c in configs ==>
              Documents.ValidValues(c.arguments, Elements(addresses)) && ArgumentsUnique(c.arguments)
  {
    if configs != [] {
      ArgumentsOkSpec(addresses, configs[0].arguments);
      ProviderArgumentsOkSpec(addresses, configs[1..]);
      assert configs == [configs[0]] + configs[1..];
    }
  }

  lemma {:induction false} MovesOkSpec(addresses: seq<Address>, targets: seq<Address>, moves: seq<MoveSpec>)
    ensures MovesOk(addresses, targets, moves) <==>
            Documents.ValidMoves(moves, Elements(addresses)) && Elements(MoveTargets(moves)) !! Elements(targets)
    decreases |moves|
  {
    if moves != [] {
      var first, rest := moves[0], moves[1..];
      MovesOkSpec(addresses, [first.to] + targets, rest);
      assert moves == [first] + rest;
      assert MoveTargets(moves) == [first.to] + MoveTargets(rest);
      DistinctCons(first.to, MoveTargets(rest));
      assert Elements([first.to] + targets) == {first.to} + Elements(targets);
    }
  }

  lemma {:induction false} ImportsOkSpec(
    addresses: seq<Address>, targets: seq<Address>, imports: seq<ImportSpec>, blank: string -> bool)
    ensures ImportsOk(addresses, targets, imports, blank) <==>
            && Documents.ValidImports(imports, Elements(addresses), blank)
            && Elements(ImportTargets(imports)) !! Elements(targets)
    decreases |imports|
  {
    if imports != [] {
      var first, rest := imports[0], imports[1..];
      ImportsOkSpec(addresses, [first.to] + targets, rest, blank);
      assert imports == [first] + rest;
      assert ImportTargets(imports) == [first.to] + ImportTargets(rest);
      DistinctCons(first.to, ImportTargets(rest));
      assert Elements([first.to] + targets) == {first.to} + Elements(targets);
    }
  }

  // ----- edges -----

  lemma EdgeListElements(owner: Address, targets: seq<Address>, explicit: bool)
    ensures Elements(EdgeList(owner, targets, explicit))
         == set from | from in Elements(targets) :: Dependency(from, owner, explicit)
  {
    var list := EdgeList(owner, targets, explicit);
    forall from | from in Elements(targets)
      ensures Dependency(from, owner, explicit) in Elements(list)
    {
      var i :| 0 <= i < |targets| && targets[i] == from;
      assert list[i] == Dependency(from, owner, explicit);
    }
  }

  lemma ElementsAppend<T(!new)>(a: seq<T>, b: seq<T>)
    ensures Elements(a + b) == Elements(a) + Elements(b)
  {
  }

  lemma EdgesOfCons(owner: Address, first: Entry<Expr>, rest: seq<Entry<Expr>>)
    ensures Documents.EdgesOf(owner, [first] + rest, [])
         == (set from | from in References(first.value) :: Dependency(from, owner, false))
            + Documents.EdgesOf(owner, rest, [])
  {
    var arguments := [first] + rest;
    assert first in arguments;
    assert forall a :: a in arguments <==> a == first || a in rest;
  }

  lemma {:induction false} ImplicitEdgesSpec(owner: Address, arguments: seq<Entry<Expr>>)
    ensures Elements(ImplicitEdges(owner, arguments)) == Documents.EdgesOf(owner, arguments, [])
  {
    if arguments != [] {
      var first, rest := arguments[0], arguments[1..];
      ImplicitEdgesSpec(owner, rest);
      ReferenceListSpec(first.value);
      EdgeListElements(owner, ReferenceList(first.value), false);
      ElementsAppend(EdgeList(owner, ReferenceList(first.value), false), ImplicitEdges(owner, rest));
      EdgesOfCons(owner, first, rest);
      assert arguments == [first] + rest;
    }
  }

  lemma AddDependenciesSpec(owner: Address, arguments: seq<Entry<Expr>>, explicit: seq<Address>)
    ensures Elements(AddDependencies(owner, arguments, explicit)) == Documents.EdgesOf(owner, arguments, explicit)
  {
    ImplicitEdgesSpec(owner, arguments);
    EdgeListElements(owner, explicit, true);
    ElementsAppend(ImplicitEdges(owner, arguments), EdgeList(owner, explicit, true));
  }

  lemma EdgesOfMoreResources(r: ResourceSpec, rest: seq<ResourceSpec>)
    ensures Documents.EdgesInto([r] + rest, []) == Documents.ResourceEdges(r) + Documents.EdgesInto(rest, [])
  {
    Documents.EdgesOfOneResource(r);
    Documents.ResourceEdgesAppend([r], rest);
  }

  lemma {:induction false} ResourceEdgeListSpec(resources: seq<ResourceSpec>)
    ensures Elements(ResourceEdgeList(resources)) == Documents.EdgesInto(resources, [])
  {
    if resources != [] {
      var r, rest := resources[0], resources[1..];
      var own := AddDependencies(r.Address(), r.arguments, r.dependsOn + r.Triggers());
      ResourceEdgeListSpec(rest);
      AddDependenciesSpec(r.Address(), r.arguments, r.dependsOn + r.Triggers());
      ElementsAppend(own, ResourceEdgeList(rest));
      assert ResourceEdgeList(resources) == own + ResourceEdgeList(rest);
      EdgesOfMoreResources(r, rest);
      assert resources == [r] + rest;
    }
  }

  lemma EdgesOfMoreDataSources(d: DataSourceSpec, rest: seq<DataSourceSpec>)
    ensures Documents.EdgesInto([], [d] + rest) == Documents.DataSourceEdges(d) + Documents.EdgesInto([], rest)
  {
    Documents.EdgesOfOneDataSource(d);
    Documents.DataSourceEdgesAppend([d], rest);
  }

  lemma {:induction false} DataSourceEdgeListSpec(dataSources: seq<DataSourceSpec>)
    ensures Elements(DataSourceEdgeList(dataSources)) == Documents.EdgesInto([], dataSources)
  {
    if dataSources != [] {
      var d, rest := dataSources[0], dataSources[1..];
      var own := AddDependencies(d.Address(), d.arguments, d.dependsOn);
      DataSourceEdgeListSpec(rest);
      AddDependenciesSpec(d.Address(), d.arguments, d.dependsOn);
      ElementsAppend(own, DataSourceEdgeList(rest));
      assert DataSourceEdgeList(dataSources) == own + DataSourceEdgeList(rest);
      EdgesOfMoreDataSources(d, rest);
      assert dataSources == [d] + rest;
    }
  }

  /** The edge list, repeats and all, holds exactly the edges of the document's set. */
  lemma EdgesAgree(graph: Graph)
    ensures Elements(EdgesOfGraph(graph)) == Documents.Edges(graph)
    ensures Relation(EdgesOfGraph(graph)) == Documents.DependsOn(Documents.Edges(graph))
  {
    ResourceEdgeListSpec(graph.resources);
    DataSourceEdgeListSpec(graph.dataSources);
    ElementsAppend(ResourceEdgeList(graph.resources), DataSourceEdgeList(graph.dataSources));
    var list := EdgesOfGraph(graph);
    forall e | e in Documents.Edges(graph)
      ensures (e.to, e.from) in Relation(list)
    {
      var i :| 0 <= i < |list| && list[i] == e;
    }
    forall i | 0 <= i < |list|
      ensures (list[i].to, list[i].from) in Documents.DependsOn(Documents.Edges(graph))
    {
      assert list[i] in Elements(list);
    }
  }

  lemma EdgesOfWithin(owner: Address, arguments: seq<Entry<Expr>>, explicit: seq<Address>, addresses: set<Address>)
    requires Documents.ValidValues(arguments, addresses) && owner in addresses
    requires forall t :: t in explicit ==> t in addresses
    ensures forall e :: e in Documents.EdgesOf(owner, arguments, explicit) ==> e.from in addresses && e.to in addresses
  {
    forall e | e in Documents.EdgesOf(owner, arguments, explicit)
      ensures e.from in addresses && e.to in addresses
    {
      if a, from :| a in arguments && from in References(a.value) && e == Dependency(from, owner, false) {
        assert Documents.ValidExpr(a.value, addresses);
      }
    }
  }

  /** Valid contents leave no edge outside the graph. */
  lemma EdgesWithin(graph: Graph)
    requires Documents.ValidContents(graph)
    ensures forall e :: e in Documents.Edges(graph) ==> e.from in Addresses(graph) && e.to in Addresses(graph)
  {
    var addresses := Elements(Addresses(graph));
    var configured := Documents.ConfiguredProviders(graph);
    forall r | r in graph.resources
      ensures forall e :: e in Documents.ResourceEdges(r) ==> e.from in addresses && e.to in addresses
    {
      assert Documents.ValidResource(r, addresses, configured);
      var i :| 0 <= i < |graph.resources| && graph.resources[i] == r;
      assert Addresses(graph)[i] == r.Address();
      EdgesOfWithin(r.Address(), r.arguments, r.dependsOn + r.Triggers(), addresses);
    }
    forall d | d in graph.dataSources
      ensures forall e :: e in Documents.DataSourceEdges(d) ==> e.from in addresses && e.to in addresses
    {
      assert Documents.ValidDataSource(d, addresses, configured);
      var i :| 0 <= i < |graph.dataSources| && graph.dataSources[i] == d;
      assert Addresses(graph)[|graph.resources| + i] == d.Address();
      EdgesOfWithin(d.Address(), d.arguments, d.dependsOn, addresses);
    }
  }

  // ----- the whole validator -----

  lemma ContentsOkSpec(graph: Graph)
    ensures var addresses, configured := Addresses(graph), ConfigAddresses(graph.providerConfigs);
            && ResourcesOk(addresses, configured, graph.resources)
            && DataSourcesOk(addresses, configured, graph.dataSources)
            && OutputsOk(addresses, [], graph.outputs)
            && ProviderArgumentsOk(addresses, graph.providerConfigs)
            && DistinctKeys(graph.requiredProviders)
            <==> Documents.ValidContents(graph) && GraphUnique(graph) && OutputsNamed(graph)
  {
    var addresses, configured := Addresses(graph), ConfigAddresses(graph.providerConfigs);
    ResourcesOkSpec(addresses, configured, graph.resources);
    DataSourcesOkSpec(addresses, configured, graph.dataSources);
    OutputsOkSpec(addresses, [], graph.outputs);
    ProviderArgumentsOkSpec(addresses, graph.providerConfigs);
  }

  /** The recursive validator accepts a graph exactly when the declarative rules hold of it, its
      edges have no cycle, no object repeats a key and its outputs are named by identifiers. */
  lemma ProgramValidateSpec(graph: Graph, blank: string -> bool)
    ensures Validate(graph, blank) <==>
            && GraphUnique(graph) && OutputsNamed(graph)
            && Documents.ValidParts(graph, blank)
            && Acyclic(Documents.DependsOn(Documents.Edges(graph)))
  {
    ProviderNamesSpec([], graph.requiredProviders);
    ConfigNamesSpec([], graph.providerConfigs);
    NodeNamesSpec(graph);
    ContentsOkSpec(graph);
    MovesOkSpec(Addresses(graph), [], graph.moves);
    ImportsOkSpec(Addresses(graph), [], graph.imports, blank);
    EdgesAgree(graph);
    if Documents.ValidContents(graph) {
      GraphCycleSpec(graph);
    }
  }

  /** In a graph with valid contents the fuelled search reports a cycle exactly when the edges
      have one, and what it reports is one. */
  lemma GraphCycleSpec(graph: Graph)
    requires Documents.ValidContents(graph)
    ensures FindGraphCycle(graph).None? <==> Acyclic(Documents.DependsOn(Documents.Edges(graph)))
    ensures FindGraphCycle(graph).Some? ==>
              IsCycle(Documents.DependsOn(Documents.Edges(graph)), FindGraphCycle(graph).value)
  {
    EdgesAgree(graph);
    EdgesWithin(graph);
    forall e | e in EdgesOfGraph(graph)
      ensures e.from in Addresses(graph) && e.to in Addresses(graph)
    {
      assert e in Elements(EdgesOfGraph(graph));
    }
    FindFromSpec(Addresses(graph), EdgesOfGraph(graph));
  }
}
