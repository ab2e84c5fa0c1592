/** The dependency-cycle search of the reference validator: one stateful depth-first search
    whose current descent is `path` and whose fully explored nodes are `done`. */
module CycleSearch {
  import opened Walks
  import opened Wrappers

  /** `to` must be created after `from`. */
  datatype Dependency<N> = Dependency(from: N, to: N, explicit: bool)

  ghost function Relation<N>(edges: seq<Dependency<N>>): (r: set<(N, N)>)
  {
    set i | 0 <= i < |edges| :: (edges[i].to, edges[i].from)
  }

  ghost function UpstreamRelation<N>(upstream: map<N, seq<N>>): set<(N, N)> {
    set a, i | a in upstream && 0 <= i < |upstream[a]| :: (a, upstream[a][i])
  }

  class Search<N(==, !new)> {
    const upstream: map<N, seq<N>>
    var path: seq<N>
    var done: set<N>
    /** `done` in the order its nodes were finished. */
    ghost var settled: seq<N>
    ghost const edges: set<(N, N)>
    ghost const universe: set<N>

    /** The edges are those of the map, and the universe holds every node they mention. */
    ghost predicate Closed() {
      && (forall a, i: nat :: LinksOut(a, i))
      && (forall a, b :: IsLink(a, b))
    }

    ghost predicate LinksOut(a: N, i: nat) {
      a in upstream && i < |upstream[a]| ==> (a, upstream[a][i]) in edges && upstream[a][i] in universe
    }

    ghost predicate IsLink(a: N, b: N) {
      (a, b) in edges ==> a in upstream && b in upstream[a]
    }

    /** A descent: a walk of nodes that are not finished, none twice. */
    ghost predicate Descends(path: seq<N>, done: set<N>) {
      && Distinct(path)
      && (path != [] ==> IsWalk(edges, path))
      && Elements(path) <= universe
      && Elements(path) !! done
    }

    /** The finished nodes, in an order where dependencies come first. */
    ghost predicate Finished(done: set<N>, settled: seq<N>) {
      done == Elements(settled) && Settled(edges, settled)
    }

    ghost predicate Valid()
      reads this
    {
      Descends(path, done) && Finished(done, settled)
    }

    constructor (upstream: map<N, seq<N>>)
      ensures Closed() && Valid() && path == [] && settled == []
      ensures this.upstream == upstream && edges == UpstreamRelation(upstream) && upstream.Keys <= universe
    {
      this.upstream := upstream;
      edges := UpstreamRelation(upstream);
      universe := upstream.Keys + set a, i | a in upstream && 0 <= i < |upstream[a]| :: upstream[a][i];
      path, done, settled := [], {}, [];
      new;
      forall a, i: nat
        ensures LinksOut(a, i)
      {
      }
      forall a, b
        ensures IsLink(a, b)
      {
      }
    }

    lemma NextEdge(node: N, i: nat)
      requires Closed() && node in upstream && i < |upstream[node]|
      ensures (node, upstream[node][i]) in edges && upstream[node][i] in universe
    {
      assert LinksOut(node, i);
    }

    lemma EdgesAreNext(node: N, n: N)
      requires Closed() && (node, n) in edges
      ensures node in upstream && n in upstream[node]
    {
      assert IsLink(node, n);
    }

    /** Stepping down to a node that is neither open nor finished. */
    lemma StepDown(path: seq<N>, done: set<N>, node: N)
      requires Descends(path, done) && node in universe && node !in path && node !in done
      requires path != [] ==> (path[|path| - 1], node) in edges
      ensures Descends(path + [node], done)
      ensures Elements(path + [node]) == Elements(path) + {node}
    {
      DistinctSnoc(path, node);
      WalkSnoc(edges, path, node);
    }

    /** Stepping back up from a node whose dependencies are all finished. */
    lemma StepUp(path: seq<N>, done: set<N>, settled: seq<N>, node: N, next: seq<N>)
      requires Closed() && Descends(path + [node], done) && Finished(done, settled)
      requires next == if node in upstream then upstream[node] else []
      requires forall j :: 0 <= j < |next| ==> next[j] in done
      ensures (path + [node])[..|path + [node]| - 1] == path
      ensures Descends(path, done + {node}) && Finished(done + {node}, settled + [node])
    {
      forall n | (node, n) in edges
        ensures n in settled
      {
        EdgesAreNext(node, n);
        assert n in Elements(settled);
      }
      SettledExtends(edges, settled, node);
      DistinctSnoc(path, node);
      DistinctSnoc(settled, node);
      WalkSnoc(edges, path, node);
    }

    /** The first position of `node` on the descent, if it is there. */
    method Position(node: N) returns (start: Option<nat>)
      ensures start.None? ==> node !in path
      ensures start.Some? ==> start.value < |path| && path[start.value] == node
      ensures start.Some? ==> node !in path[..start.value]
    {
      for i := 0 to |path|
        invariant node !in path[..i]
      {
        if path[i] == node {
          return Some(i);
        }
      }
      return None;
    }

    /** Explores everything `node` depends on. Without a cycle, `node` ends up among the
        finished nodes, in an order where dependencies come first, and the descent is as it
        was; a returned list is a real cycle. */
    method Visit(node: N) returns (cycle: Option<seq<N>>)
      requires Closed() && Valid() && node in universe
      requires path != [] ==> (path[|path| - 1], node) in edges
      modifies this
      ensures cycle.None? ==> Valid() && path == old(path) && node in done
      ensures cycle.None? ==> old(settled) <= settled && old(done) <= done
      ensures cycle.Some? ==> IsCycle(edges, cycle.value)
      decreases universe - Elements(path)
    {
      if node in done {
        return None;
      }
      var start := Position(node);
      if start.Some? {
        ClosingIsCycle(edges, path, start.value, node);
        return Some(path[start.value..] + [node]);
      }
      ghost var before := path;
      StepDown(path, done, node);
      path := path + [node];
      var next := if node in upstream then upstream[node] else [];
      for i := 0 to |next|
        invariant Valid() && path == before + [node]
        invariant old(settled) <= settled && old(done) <= done
        invariant forall j :: 0 <= j < i ==> next[j] in done
      {
        NextEdge(node, i);
        var found := Visit(next[i]);
        if found.Some? {
          return found;
        }
      }
      StepUp(before, done, settled, node, next);
      path := path[..|path| - 1];
      done, settled := done + {node}, settled + [node];
      return None;
    }
  }

  /** The dependency map the search walks: for every node, what it depends on, in edge order. */
  method Upstream<N(==, !new)>(edges: seq<Dependency<N>>) returns (upstream: map<N, seq<N>>)
    ensures UpstreamRelation(upstream) == Relation(edges)
    ensures upstream.Keys == set e | e in edges :: e.to
  {
    upstream := map[];
    for k := 0 to |edges|
      invariant UpstreamRelation(upstream) == Relation(edges[..k])
      invariant upstream.Keys == set e | e in edges[..k] :: e.to
    {
      var edge := edges[k];
      var entry := if edge.to in upstream then upstream[edge.to] else [];
      ghost var before := upstream;
      upstream := upstream[edge.to := entry + [edge.from]];
      RelationGrows(edges[..k], edge);
      UpstreamGrows(before, edge.to, edge.from);
      assert edges[..k + 1] == edges[..k] + [edge];
    }
    assert edges[..|edges|] == edges;
  }

  lemma RelationGrows<N>(edges: seq<Dependency<N>>, edge: Dependency<N>)
    ensures Relation(edges + [edge]) == Relation(edges) + {(edge.to, edge.from)}
  {
    var longer := edges + [edge];
    assert longer[|edges|] == edge;
    forall i | 0 <= i < |edges|
      ensures (edges[i].to, edges[i].from) in Relation(longer)
    {
      assert longer[i] == edges[i];
    }
  }

  lemma UpstreamGrows<N>(upstream: map<N, seq<N>>, node: N, from: N)
    ensures var entry := if node in upstream then upstream[node] else [];
            UpstreamRelation(upstream[node := entry + [from]]) == UpstreamRelation(upstream) + {(node, from)}
  {
    var entry := if node in upstream then upstream[node] else [];
    var grown := upstream[node := entry + [from]];
    assert grown[node][|entry|] == from;
    forall a, i | a in upstream && 0 <= i < |upstream[a]|
      ensures (a, upstream[a][i]) in UpstreamRelation(grown)
    {
      assert a in grown && grown[a][i] == upstream[a][i];
    }
    forall a, i | a in grown && 0 <= i < |grown[a]|
      ensures (a, grown[a][i]) in UpstreamRelation(upstream) + {(node, from)}
    {
      if a != node || i < |entry| {
        assert a in upstream && upstream[a][i] == grown[a][i];
      }
    }
  }

  /** Whatever the iteration order of the edges and of the start nodes: a returned list is a
      cycle of the edges, and nothing is returned exactly when they have none. */
  method FindCycle<N(==, !new)>(edges: seq<Dependency<N>>) returns (cycle: Option<seq<N>>)
    ensures cycle.Some? ==> IsCycle(Relation(edges), cycle.value)
    ensures cycle.None? <==> Acyclic(Relation(edges))
  {
    var upstream := Upstream(edges);
    var search := new Search(upstream);
    var starts := upstream.Keys;
    while starts != {}
      invariant search.Closed() && search.Valid() && search.path == [] && search.upstream == upstream
      invariant starts <= upstream.Keys
      invariant upstream.Keys - starts <= search.done
      decreases starts
    {
      var start :| start in starts;
      var found := search.Visit(start);
      if found.Some? {
        return found;
      }
      starts := starts - {start};
    }
    forall a, b | (a, b) in Relation(edges)
      ensures a in search.settled
    {
      assert a in upstream.Keys;
      assert a in search.done;
    }
    SettledIsAcyclic(Relation(edges), search.settled);
    return None;
  }
}
