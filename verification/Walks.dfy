/** Walks over a finite relation. A pair `(a, b)` reads "`a` depends on `b`". */
module Walks {

  ghost predicate IsWalk<N>(edges: set<(N, N)>, walk: seq<N>) {
    |walk| > 0 && forall i: nat :: IsStep(edges, walk, i)
  }

  ghost predicate IsStep<N>(edges: set<(N, N)>, walk: seq<N>, i: nat) {
    i + 1 < |walk| ==> (walk[i], walk[i + 1]) in edges
  }

  /** A closed walk of at least one step, its first node repeated at the end. */
  ghost predicate IsCycle<N>(edges: set<(N, N)>, walk: seq<N>) {
    |walk| > 1 && IsWalk(edges, walk) && walk[0] == walk[|walk| - 1]
  }

  ghost predicate Acyclic<N(!new)>(edges: set<(N, N)>) {
    forall walk: seq<N> :: !IsCycle(edges, walk)
  }

  /** Everything a listed node depends on is listed before it. */
  ghost predicate Settled<N(!new)>(edges: set<(N, N)>, order: seq<N>) {
    forall i: nat :: SettledAt(edges, order, i)
  }

  ghost predicate SettledAt<N(!new)>(edges: set<(N, N)>, order: seq<N>, i: nat) {
    i < |order| ==> forall n :: (order[i], n) in edges ==> n in order[..i]
  }

  ghost predicate Distinct<T>(s: seq<T>) {
    forall i, j :: 0 <= i < j < |s| ==> s[i] != s[j]
  }

  lemma SettledExtends<N(!new)>(edges: set<(N, N)>, order: seq<N>, node: N)
    requires Settled(edges, order)
    requires forall n :: (node, n) in edges ==> n in order
    ensures Settled(edges, order + [node])
  {
    var longer := order + [node];
    forall i: nat
      ensures SettledAt(edges, longer, i)
    {
      assert SettledAt(edges, order, i);
      assert i <= |order| ==> longer[..i] == order[..i];
    }
  }

  lemma {:induction false} WalkDescends<N(!new)>(edges: set<(N, N)>, order: seq<N>, walk: seq<N>, at: nat)
    requires Settled(edges, order) && IsWalk(edges, walk)
    requires at < |order| && order[at] == walk[0]
    ensures |walk| > 1 ==> walk[|walk| - 1] in order[..at]
    decreases |walk|
  {
    if |walk| > 1 {
      assert IsStep(edges, walk, 0);
      assert SettledAt(edges, order, at);
      var next :| 0 <= next < at && order[next] == walk[1];
      var rest := walk[1..];
      WalkDrop(edges, walk, 1);
      WalkDescends(edges, order, rest, next);
      assert rest[|rest| - 1] == walk[|walk| - 1];
      assert order[..next] <= order[..at];
    }
  }

  /** No cycle starts in a settled list: walks only move towards its front. */
  lemma SettledHasNoCycle<N(!new)>(edges: set<(N, N)>, order: seq<N>, walk: seq<N>)
    requires Settled(edges, order) && IsCycle(edges, walk)
    ensures walk[0] !in order
  {
    if walk[0] in order {
      var at :| 0 <= at < |order| && order[at] == walk[0];
      while walk[0] in order[..at]
        invariant 0 <= at < |order| && order[at] == walk[0]
        decreases at
      {
        var earlier :| 0 <= earlier < at && order[earlier] == walk[0];
        at := earlier;
      }
      WalkDescends(edges, order, walk, at);
    }
  }

  ghost predicate Reaches<N(!new)>(edges: set<(N, N)>, a: N, b: N) {
    exists walk: seq<N> :: IsWalk(edges, walk) && walk[0] == a && walk[|walk| - 1] == b
  }

  lemma ReachesItself<N(!new)>(edges: set<(N, N)>, a: N)
    ensures Reaches(edges, a, a)
  {
    assert IsWalk(edges, [a]);
  }

  lemma ReachesOneFurther<N(!new)>(edges: set<(N, N)>, a: N, b: N, c: N)
    requires (a, b) in edges && Reaches(edges, b, c)
    ensures Reaches(edges, a, c)
  {
    var walk :| IsWalk(edges, walk) && walk[0] == b && walk[|walk| - 1] == c;
    var longer := [a] + walk;
    forall i: nat
      ensures IsStep(edges, longer, i)
    {
      if i > 0 {
        assert IsStep(edges, walk, i - 1);
      }
    }
    assert longer[0] == a && longer[|longer| - 1] == c;
  }

  /** A settled list holds whatever its nodes reach. */
  lemma SettledHoldsReached<N(!new)>(edges: set<(N, N)>, order: seq<N>, a: N, b: N)
    requires Settled(edges, order) && a in order && Reaches(edges, a, b)
    ensures b in order
  {
    var walk :| IsWalk(edges, walk) && walk[0] == a && walk[|walk| - 1] == b;
    var at :| 0 <= at < |order| && order[at] == a;
    WalkDescends(edges, order, walk, at);
  }

  /** A settled list holding every node that depends on something rules out all cycles. */
  lemma SettledIsAcyclic<N(!new)>(edges: set<(N, N)>, order: seq<N>)
    requires Settled(edges, order)
    requires forall a, b :: (a, b) in edges ==> a in order
    ensures Acyclic(edges)
  {
    forall walk: seq<N> | IsCycle(edges, walk)
      ensures false
    {
      assert IsStep(edges, walk, 0);
      SettledHasNoCycle(edges, order, walk);
    }
  }

  lemma WalkSnoc<N(!new)>(edges: set<(N, N)>, init: seq<N>, last: N)
    ensures IsWalk(edges, init + [last]) <==>
            init == [] || (IsWalk(edges, init) && (init[|init| - 1], last) in edges)
  {
    var walk := init + [last];
    if IsWalk(edges, walk) && init != [] {
      forall i: nat
        ensures IsStep(edges, init, i)
      {
        assert IsStep(edges, walk, i);
      }
      assert IsStep(edges, walk, |init| - 1);
    } else if init == [] || (IsWalk(edges, init) && (init[|init| - 1], last) in edges) {
      forall i: nat
        ensures IsStep(edges, walk, i)
      {
        assert IsStep(edges, init, i);
      }
    }
  }

  lemma WalkDrop<N(!new)>(edges: set<(N, N)>, walk: seq<N>, start: nat)
    requires IsWalk(edges, walk) && start < |walk|
    ensures IsWalk(edges, walk[start..])
  {
    forall i: nat
      ensures IsStep(edges, walk[start..], i)
    {
      assert IsStep(edges, walk, start + i);
    }
  }

  /** Reaching a node of a walk again closes the part of the walk that starts there. */
  lemma ClosingIsCycle<N(!new)>(edges: set<(N, N)>, path: seq<N>, start: nat, node: N)
    requires start < |path| && path[start] == node
    requires IsWalk(edges, path) && (path[|path| - 1], node) in edges
    ensures IsCycle(edges, path[start..] + [node])
  {
    WalkDrop(edges, path, start);
    WalkSnoc(edges, path[start..], node);
  }

  ghost function Elements<T>(s: seq<T>): set<T> {
    set x | x in s
  }

  lemma {:induction false} DistinctCardinality<T>(s: seq<T>)
    requires Distinct(s)
    ensures |Elements(s)| == |s|
  {
    if s != [] {
      var init, last := s[..|s| - 1], s[|s| - 1];
      DistinctCardinality(init);
      assert s == init + [last];
      assert Elements(s) == Elements(init) + {last};
    }
  }

  lemma {:induction false} ElementsBound<T>(s: seq<T>)
    ensures |Elements(s)| <= |s|
  {
    if s != [] {
      ElementsBound(s[1..]);
      assert s == [s[0]] + s[1..];
      assert Elements(s) == {s[0]} + Elements(s[1..]);
    }
  }

  lemma SubsetCardinality<T>(a: set<T>, b: set<T>)
    requires a <= b
    ensures |a| <= |b|
    decreases a
  {
    if a != {} {
      var x :| x in a;
      SubsetCardinality(a - {x}, b - {x});
    }
  }

  /** A list without repetition is no longer than any list holding all its elements. */
  lemma DistinctWithin<T>(s: seq<T>, t: seq<T>)
    requires Distinct(s)
    requires forall x :: x in s ==> x in t
    ensures |s| <= |t|
  {
    DistinctCardinality(s);
    ElementsBound(t);
    assert Elements(s) <= Elements(t);
    SubsetCardinality(Elements(s), Elements(t));
  }

  lemma DistinctAppend<T(!new)>(a: seq<T>, b: seq<T>)
    ensures Distinct(a + b) <==> Distinct(a) && Distinct(b) && Elements(a) !! Elements(b)
    ensures Elements(a + b) == Elements(a) + Elements(b)
  {
    var both := a + b;
    if Distinct(both) {
      forall i, j | 0 <= i < j < |a|
        ensures a[i] != a[j]
      {
        assert both[i] == a[i] && both[j] == a[j];
      }
      forall i, j | 0 <= i < j < |b|
        ensures b[i] != b[j]
      {
        assert both[|a| + i] == b[i] && both[|a| + j] == b[j];
      }
      forall i, j | 0 <= i < |a| && 0 <= j < |b|
        ensures a[i] != b[j]
      {
        assert both[i] == a[i] && both[|a| + j] == b[j];
      }
    } else if Distinct(a) && Distinct(b) {
      var i, j :| 0 <= i < j < |both| && both[i] == both[j];
      assert i < |a| <= j;
      assert a[i] in Elements(a) && b[j - |a|] in Elements(b);
    }
  }

  lemma DistinctCons<T(!new)>(first: T, rest: seq<T>)
    ensures Distinct([first] + rest) <==> Distinct(rest) && first !in rest
    ensures Elements([first] + rest) == {first} + Elements(rest)
  {
    DistinctAppend([first], rest);
    assert Elements([first]) == {first};
  }

  lemma DistinctSnoc<T(!new)>(init: seq<T>, last: T)
    ensures Distinct(init + [last]) <==> Distinct(init) && last !in init
    ensures Elements(init + [last]) == Elements(init) + {last}
  {
    DistinctAppend(init, [last]);
    assert Elements([last]) == {last};
  }
}
