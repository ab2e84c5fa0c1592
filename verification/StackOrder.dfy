/** The order to apply a project's stacks in: every stack after the stacks it reads. */
module StackOrder {
  import opened Walks
  import opened Wrappers
  import opened SortedMap

  /** `references[stack]` lists the stacks it reads, in graph order; some may be of no graph at
      hand, and those impose no order. */
  type References = map<string, seq<string>>

  ghost function Reads(references: References): set<(string, string)> {
    set a, i | a in references && 0 <= i < |references[a]| && references[a][i] in references
      :: (a, references[a][i])
  }

  /** Every stack once, each after every listed stack it reads. */
  ghost predicate DeploymentOrder(references: References, order: seq<string>) {
    && Distinct(order)
    && Elements(order) == references.Keys
    && Settled(Reads(references), order)
  }

  /** The stacks by name. */
  ghost predicate ByName(references: References, names: seq<string>) {
    && Elements(names) == references.Keys
    && (forall i, j :: 0 <= i < j < |names| ==> Less(names[i], names[j]))
  }

  ghost predicate ReachedFrom(references: References, names: seq<string>, count: nat, stack: string) {
    exists j :: 0 <= j < count && j < |names| && Reaches(Reads(references), names[j], stack)
  }

  /** The first `length` stacks listed are exactly those the first `count` names reach. */
  ghost predicate ListsReached(
    references: References, names: seq<string>, order: seq<string>, count: nat, length: nat) {
    length <= |order| && forall stack :: stack in order[..length] <==> ReachedFrom(references, names, count, stack)
  }

  ghost predicate StartsWithReached(references: References, names: seq<string>, order: seq<string>, count: nat) {
    exists length: nat :: ListsReached(references, names, order, count, length)
  }

  /** Seeded by name: the order starts with what the first stack reaches, then has what the second
      reaches and is not listed yet, and so on. */
  ghost predicate SeededByName(references: References, names: seq<string>, order: seq<string>) {
    forall count: nat :: count <= |names| ==> StartsWithReached(references, names, order, count)
  }

  class Ordering {
    const references: References
    var order: seq<string>
    ghost const links: set<(string, string)>

    ghost predicate Valid()
      reads this
    {
      && links == Reads(references)
      && Distinct(order)
      && Elements(order) <= references.Keys
      && Settled(links, order)
    }

    ghost predicate Open(visiting: seq<string>)
      reads this
    {
      && Distinct(visiting)
      && Elements(visiting) <= references.Keys
      && Elements(visiting) !! Elements(order)
      && (visiting != [] ==> IsWalk(links, visiting))
    }

    constructor (references: References)
      ensures Valid() && order == [] && this.references == references
    {
      this.references := references;
      links := Reads(references);
      order := [];
    }

    lemma ReadsEdge(stack: string, i: nat)
      requires Valid() && stack in references && i < |references[stack]|
      requires references[stack][i] in references
      ensures (stack, references[stack][i]) in links
    {
    }

    lemma EdgesAreRead(stack: string, n: string)
      requires Valid() && (stack, n) in links
      ensures stack in references && n in references[stack] && n in references
    {
    }

    lemma OpenOneMore(visiting: seq<string>, stack: string)
      requires Valid() && Open(visiting)
      requires stack in references && stack !in visiting && stack !in order
      requires visiting != [] ==> (visiting[|visiting| - 1], stack) in links
      ensures Open(visiting + [stack])
      ensures Elements(visiting + [stack]) == Elements(visiting) + {stack}
    {
      DistinctSnoc(visiting, stack);
      WalkSnoc(links, visiting, stack);
    }

    lemma ListOneMore(stack: string)
      requires Valid() && stack in references && stack !in order
      requires forall i :: 0 <= i < |references[stack]| && references[stack][i] in references
                           ==> references[stack][i] in order
      ensures Settled(links, order + [stack]) && Distinct(order + [stack])
      ensures Elements(order + [stack]) == Elements(order) + {stack}
    {
      forall n | (stack, n) in links
        ensures n in order
      {
        EdgesAreRead(stack, n);
      }
      SettledExtends(links, order, stack);
    }

    /** Whatever was listed since, `stack` reaches. */
    ghost predicate AllReached(stack: string, before: seq<string>)
      reads this
    {
      forall s :: s in order && s !in before ==> Reaches(links, stack, s)
    }

    lemma ReachedThrough(stack: string, next: string, first: seq<string>, before: seq<string>)
      requires (stack, next) in links && AllReached(next, before)
      requires forall s :: s in before && s !in first ==> Reaches(links, stack, s)
      ensures AllReached(stack, first)
    {
      forall s | s in order && s !in before
        ensures Reaches(links, stack, s)
      {
        ReachesOneFurther(links, stack, next, s);
      }
    }

    method Position(visiting: seq<string>, stack: string) returns (start: Option<nat>)
      ensures start.None? ==> stack !in visiting
      ensures start.Some? ==> start.value < |visiting| && visiting[start.value] == stack
    {
      for i := 0 to |visiting|
        invariant stack !in visiting[..i]
      {
        if visiting[i] == stack {
          return Some(i);
        }
      }
      return None;
    }

    /** One depth-first step: lists `stack` after everything it reads, keeping what was listed
        before as it was, or returns the cycle of references met. */
    method Visit(stack: string, visiting: seq<string>) returns (cycle: Option<seq<string>>)
      requires Valid() && Open(visiting) && stack in references
      requires visiting != [] ==> (visiting[|visiting| - 1], stack) in links
      modifies this`order
      ensures cycle.None? ==> Valid() && Open(visiting) && stack in order && old(order) <= order
      ensures cycle.None? ==> AllReached(stack, old(order))
      ensures cycle.Some? ==> IsCycle(links, cycle.value)
      decreases references.Keys - Elements(visiting)
    {
      if stack in order {
        return None;
      }
      var start := Position(visiting, stack);
      if start.Some? {
        ClosingIsCycle(links, visiting, start.value, stack);
        return Some(visiting[start.value..] + [stack]);
      }
      OpenOneMore(visiting, stack);
      var deeper := visiting + [stack];
      var read := references[stack];
      for i := 0 to |read|
        invariant Valid() && Open(deeper) && old(order) <= order
        invariant forall j :: 0 <= j < i && read[j] in references ==> read[j] in order
        invariant AllReached(stack, old(order))
      {
        if read[i] in references {
          ReadsEdge(stack, i);
          ghost var before := order;
          var found := Visit(read[i], deeper);
          if found.Some? {
            return found;
          }
          assert before <= order;
          ReachedThrough(stack, read[i], old(order), before);
        }
      }
      assert stack in Elements(deeper);
      ListOneMore(stack);
      ReachesItself(links, stack);
      order := order + [stack];
      assert forall s :: s in visiting ==> s in deeper && s != stack;
      return None;
    }
  }

  lemma ListedSoFar(references: References, names: seq<string>, count: nat, before: seq<string>, order: seq<string>)
    requires count < |names| && before <= order && names[count] in order
    requires Settled(Reads(references), order)
    requires ListsReached(references, names, before, count, |before|)
    requires forall s :: s in order && s !in before ==> Reaches(Reads(references), names[count], s)
    ensures ListsReached(references, names, order, count + 1, |order|)
  {
    assert before[..|before|] == before && order[..|order|] == order;
    forall stack
      ensures stack in order <==> ReachedFrom(references, names, count + 1, stack)
    {
      if stack in before {
        var j :| 0 <= j < count && Reaches(Reads(references), names[j], stack);
      } else if ReachedFrom(references, names, count + 1, stack) {
        var j :| 0 <= j < count + 1 && Reaches(Reads(references), names[j], stack);
        if j < count {
          assert ReachedFrom(references, names, count, stack);
        } else {
          SettledHoldsReached(Reads(references), order, names[count], stack);
        }
      }
    }
  }

  lemma StillListed(references: References, names: seq<string>, before: seq<string>, order: seq<string>, count: nat)
    requires before <= order && StartsWithReached(references, names, before, count)
    ensures StartsWithReached(references, names, order, count)
  {
    var length: nat :| ListsReached(references, names, before, count, length);
    assert order[..length] == before[..length];
    assert ListsReached(references, names, order, count, length);
  }

  lemma EdgesStayWithin(references: References, order: seq<string>)
    requires references.Keys <= Elements(order) && Settled(Reads(references), order)
    ensures Acyclic(Reads(references))
  {
    forall a, b | (a, b) in Reads(references)
      ensures a in order
    {
      assert a in Elements(order);
    }
    SettledIsAcyclic(Reads(references), order);
  }

  /** Succeeds exactly when the references among the given stacks have no cycle. */
  method StackOrder(references: References, names: seq<string>) returns (result: Result<seq<string>, seq<string>>)
    requires ByName(references, names)
    ensures result.Ok? ==> DeploymentOrder(references, result.value)
    ensures result.Ok? ==> SeededByName(references, names, result.value)
    ensures result.Err? ==> IsCycle(Reads(references), result.error)
    ensures result.Ok? <==> Acyclic(Reads(references))
  {
    var ordering := new Ordering(references);
    assert ListsReached(references, names, [], 0, 0);
    for i := 0 to |names|
      invariant ordering.Valid() && ordering.references == references
      invariant forall j :: 0 <= j < i ==> names[j] in ordering.order
      invariant ListsReached(references, names, ordering.order, i, |ordering.order|)
      invariant forall count: nat :: count <= i ==> StartsWithReached(references, names, ordering.order, count)
    {
      ghost var before := ordering.order;
      assert names[i] in Elements(names);
      var found := ordering.Visit(names[i], []);
      if found.Some? {
        return Err(found.value);
      }
      ListedSoFar(references, names, i, before, ordering.order);
      forall count: nat | count <= i
        ensures StartsWithReached(references, names, ordering.order, count)
      {
        StillListed(references, names, before, ordering.order, count);
      }
    }
    forall stack | stack in references
      ensures stack in ordering.order
    {
      assert stack in Elements(names);
    }
    EdgesStayWithin(references, ordering.order);
    return Ok(ordering.order);
  }
}
