/** The same search as the proof-side validator runs it: structurally recursive on fuel, with
    the descent and the finished nodes as immutable lists, nearest first. */
module FuelSearch {
  import opened Walks
  import opened Wrappers
  import opened CycleSearch

  function UpstreamOf<N(==)>(edges: seq<Dependency<N>>, node: N): seq<N> {
    if edges == [] then []
    else if edges[0].to == node then [edges[0].from] + UpstreamOf(edges[1..], node)
    else UpstreamOf(edges[1..], node)
  }

  function TakeUntil<N(==)>(node: N, path: seq<N>): seq<N> {
    if path == [] || path[0] == node then [] else [path[0]] + TakeUntil(node, path[1..])
  }

  function Reverse<N>(s: seq<N>): seq<N> {
    if s == [] then [] else Reverse(s[1..]) + [s[0]]
  }

  /** The cycle closed by reaching `node` while it is already on `path`. */
  function CloseCycle<N(==)>(node: N, path: seq<N>): seq<N> {
    Reverse(TakeUntil(node, path) + [node]) + [node]
  }

  function SearchCycle<N(==)>(edges: seq<Dependency<N>>, fuel: nat, path: seq<N>, done: seq<N>, node: N)
    : Result<seq<N>, seq<N>>
    decreases fuel, 0
  {
    if fuel == 0 then Ok(done)
    else if node in done then Ok(done)
    else if node in path then Err(CloseCycle(node, path))
    else match SearchAll(edges, fuel - 1, [node] + path, done, UpstreamOf(edges, node))
      case Ok(done) => Ok([node] + done)
      case Err(cycle) => Err(cycle)
  }

  function SearchAll<N(==)>(edges: seq<Dependency<N>>, fuel: nat, path: seq<N>, done: seq<N>, nodes: seq<N>)
    : Result<seq<N>, seq<N>>
    decreases fuel, |nodes| + 1
  {
    if nodes == [] then Ok(done)
    else match SearchCycle(edges, fuel, path, done, nodes[0])
      case Ok(done) => SearchAll(edges, fuel, path, done, nodes[1..])
      case Err(cycle) => Err(cycle)
  }

  /** The cycle found from the nodes of a graph, or the finished nodes. */
  function FindFrom<N(==)>(nodes: seq<N>, edges: seq<Dependency<N>>): Result<seq<N>, seq<N>> {
    SearchAll(edges, |nodes| + 1, [], [], nodes)
  }

  lemma {:induction false} UpstreamOfSpec<N(!new)>(edges: seq<Dependency<N>>, node: N)
    ensures forall n :: n in UpstreamOf(edges, node) <==> (node, n) in Relation(edges)
  {
    if edges != [] {
      UpstreamOfSpec(edges[1..], node);
      assert edges == [edges[0]] + edges[1..];
      forall n | (node, n) in Relation(edges)
        ensures n in UpstreamOf(edges, node)
      {
        var i :| 0 <= i < |edges| && edges[i].to == node && edges[i].from == n;
        if i > 0 {
          assert edges[1..][i - 1] == edges[i];
        }
      }
      forall n | n in UpstreamOf(edges, node)
        ensures (node, n) in Relation(edges)
      {
        if n in UpstreamOf(edges[1..], node) {
          assert (node, n) in Relation(edges[1..]);
          var i :| 0 <= i < |edges[1..]| && edges[1..][i].to == node && edges[1..][i].from == n;
          assert edges[i + 1] == edges[1..][i];
        }
      }
    }
  }

  lemma {:induction false} ReverseSpec<N(!new)>(s: seq<N>)
    ensures |Reverse(s)| == |s|
    ensures forall i :: 0 <= i < |s| ==> Reverse(s)[i] == s[|s| - 1 - i]
    ensures forall n :: n in Reverse(s) <==> n in s
  {
    if s != [] {
      ReverseSpec(s[1..]);
      assert forall i :: 0 <= i < |s| - 1 ==> s[1..][i] == s[i + 1];
      assert forall i :: 0 <= i < |s| - 1 ==> Reverse(s)[i] == Reverse(s[1..])[i];
      forall n | n in s
        ensures n in Reverse(s)
      {
        var i :| 0 <= i < |s| && s[i] == n;
        assert Reverse(s)[|s| - 1 - i] == n;
      }
    }
  }

  /** What holds on every descent: `path` read backwards walks the edges, never repeats, and
      stays among the nodes; the finished nodes depend only on finished nodes. */
  ghost predicate Descent<N(!new)>(nodes: seq<N>, edges: seq<Dependency<N>>, path: seq<N>, done: seq<N>) {
    && Distinct(path)
    && (forall n :: n in path ==> n in nodes && n !in done)
    && (path != [] ==> IsWalk(Relation(edges), Reverse(path)))
    && Settled(Relation(edges), Reverse(done))
  }

  lemma {:induction false} TakeUntilSpec<N>(node: N, path: seq<N>)
    requires node in path
    ensures TakeUntil(node, path) + [node] <= path
  {
    if path[0] != node {
      TakeUntilSpec(node, path[1..]);
      assert path == [path[0]] + path[1..];
    }
  }

  lemma {:induction false} ReverseAppend<N>(a: seq<N>, b: seq<N>)
    ensures Reverse(a + b) == Reverse(b) + Reverse(a)
    ensures |Reverse(a)| == |a|
  {
    if a == [] {
      assert a + b == b;
    } else {
      assert (a + b)[1..] == a[1..] + b;
      ReverseAppend(a[1..], b);
    }
  }

  lemma ReversePrefix<N>(taken: seq<N>, path: seq<N>)
    requires taken <= path
    ensures |Reverse(path)| == |path|
    ensures Reverse(path)[|path| - |taken|..] == Reverse(taken)
  {
    var rest := path[|taken|..];
    assert path == taken + rest;
    ReverseAppend(taken, rest);
    ReverseAppend(rest, []);
  }

  lemma CloseCycleIsCycle<N(!new)>(edges: set<(N, N)>, node: N, path: seq<N>)
    requires node in path && IsWalk(edges, Reverse(path)) && (path[0], node) in edges
    ensures IsCycle(edges, CloseCycle(node, path))
  {
    TakeUntilSpec(node, path);
    var taken := TakeUntil(node, path) + [node];
    var start := |path| - |taken|;
    ReversePrefix(taken, path);
    ReverseSpec(path);
    ReverseSpec(taken);
    assert Reverse(path)[start] == Reverse(taken)[0] == node;
    ClosingIsCycle(edges, Reverse(path), start, node);
  }

  lemma StepKeepsDescent<N(!new)>(nodes: seq<N>, edges: seq<Dependency<N>>, path: seq<N>, done: seq<N>, node: N)
    requires Descent(nodes, edges, path, done)
    requires node in nodes && node !in done && node !in path
    requires path != [] ==> (path[0], node) in Relation(edges)
    ensures Descent(nodes, edges, [node] + path, done)
  {
    var longer := [node] + path;
    assert longer[1..] == path;
    ReverseSpec(path);
    var back := Reverse(longer);
    assert back == Reverse(path) + [node];
    WalkSnoc(Relation(edges), Reverse(path), node);
  }

  /** From any descent with fuel for the nodes not yet open, the search either finishes `node`
      (so the zero case never decides anything) or returns a real cycle. */
  lemma {:induction false} SearchCycleSpec<N(!new)>(
    nodes: seq<N>, edges: seq<Dependency<N>>, fuel: nat, path: seq<N>, done: seq<N>, node: N)
    requires forall e :: e in edges ==> e.from in nodes
    requires Descent(nodes, edges, path, done) && node in nodes
    requires path != [] ==> (path[0], node) in Relation(edges)
    requires fuel + |path| >= |nodes| + 1
    ensures match SearchCycle(edges, fuel, path, done, node)
            case Ok(after) =>
              && Descent(nodes, edges, path, after) && node in after
              && (forall n :: n in done ==> n in after)
            case Err(cycle) => IsCycle(Relation(edges), cycle)
    decreases fuel, 0
  {
    DistinctWithin(path, nodes);
    if node in done {
    } else if node in path {
      CloseCycleIsCycle(Relation(edges), node, path);
    } else {
      StepKeepsDescent(nodes, edges, path, done, node);
      UpstreamOfSpec(edges, node);
      SearchAllSpec(nodes, edges, fuel - 1, [node] + path, done, UpstreamOf(edges, node));
      var below := SearchAll(edges, fuel - 1, [node] + path, done, UpstreamOf(edges, node));
      if below.Ok? {
        FinishKeepsDescent(nodes, edges, path, below.value, node);
      }
    }
  }

  lemma FinishKeepsDescent<N(!new)>(nodes: seq<N>, edges: seq<Dependency<N>>, path: seq<N>, done: seq<N>, node: N)
    requires Descent(nodes, edges, [node] + path, done)
    requires forall n :: (node, n) in Relation(edges) ==> n in done
    ensures Descent(nodes, edges, path, [node] + done)
  {
    var longer := [node] + path;
    assert forall i :: 0 <= i < |path| ==> path[i] == longer[i + 1];
    assert longer[1..] == path && ([node] + done)[1..] == done;
    ReverseSpec(path);
    ReverseSpec(done);
    assert Reverse(longer) == Reverse(path) + [node];
    WalkSnoc(Relation(edges), Reverse(path), node);
    SettledExtends(Relation(edges), Reverse(done), node);
    assert Reverse([node] + done) == Reverse(done) + [node];
  }

  lemma {:induction false} SearchAllSpec<N(!new)>(
    nodes: seq<N>, edges: seq<Dependency<N>>, fuel: nat, path: seq<N>, done: seq<N>, next: seq<N>)
    requires forall e :: e in edges ==> e.from in nodes
    requires Descent(nodes, edges, path, done)
    requires forall n :: n in next ==> n in nodes && (path != [] ==> (path[0], n) in Relation(edges))
    requires fuel + |path| >= |nodes| + 1
    ensures match SearchAll(edges, fuel, path, done, next)
            case Ok(after) =>
              && Descent(nodes, edges, path, after)
              && (forall n :: n in done || n in next ==> n in after)
            case Err(cycle) => IsCycle(Relation(edges), cycle)
    decreases fuel, |next| + 1
  {
    if next != [] {
      SearchCycleSpec(nodes, edges, fuel, path, done, next[0]);
      var first := SearchCycle(edges, fuel, path, done, next[0]);
      if first.Ok? {
        SearchAllSpec(nodes, edges, fuel, path, first.value, next[1..]);
        assert next == [next[0]] + next[1..];
      }
    }
  }

  /** Once the fuel covers the nodes not yet open, one more unit changes nothing. */
  lemma {:induction false} MoreFuel<N(!new)>(
    nodes: seq<N>, edges: seq<Dependency<N>>, fuel: nat, path: seq<N>, done: seq<N>, node: N)
    requires forall e :: e in edges ==> e.from in nodes
    requires Descent(nodes, edges, path, done) && node in nodes
    requires path != [] ==> (path[0], node) in Relation(edges)
    requires fuel + |path| >= |nodes| + 1
    ensures SearchCycle(edges, fuel, path, done, node) == SearchCycle(edges, fuel + 1, path, done, node)
    decreases fuel, 0
  {
    DistinctWithin(path, nodes);
    if node !in done && node !in path {
      StepKeepsDescent(nodes, edges, path, done, node);
      UpstreamOfSpec(edges, node);
      MoreFuelAll(nodes, edges, fuel - 1, [node] + path, done, UpstreamOf(edges, node));
    }
  }

  lemma {:induction false} MoreFuelAll<N(!new)>(
    nodes: seq<N>, edges: seq<Dependency<N>>, fuel: nat, path: seq<N>, done: seq<N>, next: seq<N>)
    requires forall e :: e in edges ==> e.from in nodes
    requires Descent(nodes, edges, path, done)
    requires forall n :: n in next ==> n in nodes && (path != [] ==> (path[0], n) in Relation(edges))
    requires fuel + |path| >= |nodes| + 1
    ensures SearchAll(edges, fuel, path, done, next) == SearchAll(edges, fuel + 1, path, done, next)
    decreases fuel, |next| + 1
  {
    if next != [] {
      MoreFuel(nodes, edges, fuel, path, done, next[0]);
      SearchCycleSpec(nodes, edges, fuel, path, done, next[0]);
      var first := SearchCycle(edges, fuel, path, done, next[0]);
      if first.Ok? {
        MoreFuelAll(nodes, edges, fuel, path, first.value, next[1..]);
      }
    }
  }

  /** The fuel the validator passes is enough: any larger amount gives the same answer. */
  lemma {:induction false} FuelNeverRunsOut<N(!new)>(nodes: seq<N>, edges: seq<Dependency<N>>, extra: nat)
    requires forall e :: e in edges ==> e.from in nodes
    ensures SearchAll(edges, |nodes| + 1 + extra, [], [], nodes) == FindFrom(nodes, edges)
  {
    if extra > 0 {
      FuelNeverRunsOut(nodes, edges, extra - 1);
      MoreFuelAll(nodes, edges, |nodes| + extra, [], [], nodes);
    }
  }

  /** With every edge between nodes of the graph, the search succeeds exactly when the edges
      are acyclic, and otherwise returns one of their cycles. */
  lemma FindFromSpec<N(!new)>(nodes: seq<N>, edges: seq<Dependency<N>>)
    requires forall e :: e in edges ==> e.from in nodes && e.to in nodes
    ensures FindFrom(nodes, edges).Ok? <==> Acyclic(Relation(edges))
    ensures FindFrom(nodes, edges).Err? ==> IsCycle(Relation(edges), FindFrom(nodes, edges).error)
  {
    SearchAllSpec(nodes, edges, |nodes| + 1, [], [], nodes);
    var found := FindFrom(nodes, edges);
    if found.Ok? {
      ReverseSpec(found.value);
      SettledIsAcyclic(Relation(edges), Reverse(found.value));
    }
  }
}
