/** The order a stable sort by key puts positions in. */
module StableOrder {
  import opened SortedMap

  /** `a` comes before `b`: a smaller key, or the same key earlier in the list. */
  predicate Before(keys: seq<string>, a: nat, b: nat)
    requires a < |keys| && b < |keys|
  {
    Less(keys[a], keys[b]) || (keys[a] == keys[b] && a < b)
  }

  ghost predicate InOrder(keys: seq<string>, order: seq<nat>) {
    && (forall i :: 0 <= i < |order| ==> order[i] < |keys|)
    && (forall i, j :: 0 <= i < j < |order| ==> Before(keys, order[i], order[j]))
  }

  /** Every position once, in the order of a stable sort. */
  ghost predicate IsStableOrder(keys: seq<string>, order: seq<nat>) {
    && |order| == |keys|
    && InOrder(keys, order)
    && (forall p: nat :: p < |keys| ==> p in order)
  }

  /** Puts a position after all that are not above it. */
  function Place(keys: seq<string>, order: seq<nat>, position: nat): (longer: seq<nat>)
    requires position < |keys|
    requires forall i :: 0 <= i < |order| ==> order[i] < |keys|
    ensures |longer| == |order| + 1 && forall i :: 0 <= i < |longer| ==> longer[i] < |keys|
  {
    if order == [] || Less(keys[position], keys[order[0]]) then [position] + order
    else [order[0]] + Place(keys, order[1..], position)
  }

  /** The positions below `count`, sorted by key, equal keys in list order. */
  function SortOrder(keys: seq<string>, count: nat): (order: seq<nat>)
    requires count <= |keys|
    ensures |order| == count && forall i :: 0 <= i < |order| ==> order[i] < |keys|
  {
    if count == 0 then [] else Place(keys, SortOrder(keys, count - 1), count - 1)
  }

  lemma BeforeTransitive(keys: seq<string>, a: nat, b: nat, c: nat)
    requires a < |keys| && b < |keys| && c < |keys|
    requires Before(keys, a, b) && Before(keys, b, c)
    ensures Before(keys, a, c)
  {
    if Less(keys[a], keys[b]) && Less(keys[b], keys[c]) {
      LessTransitive(keys[a], keys[b], keys[c]);
    }
  }

  lemma InOrderCons(keys: seq<string>, first: nat, rest: seq<nat>)
    requires InOrder(keys, rest) && first < |keys|
    requires forall p: nat :: p in rest ==> Before(keys, first, p)
    ensures InOrder(keys, [first] + rest)
  {
    var longer := [first] + rest;
    forall i, j | 0 <= i < j < |longer|
      ensures Before(keys, longer[i], longer[j])
    {
      assert longer[j] == rest[j - 1];
    }
  }

  lemma InOrderRest(keys: seq<string>, order: seq<nat>)
    requires InOrder(keys, order) && order != []
    ensures InOrder(keys, order[1..])
    ensures forall p: nat :: p in order[1..] ==> p < |keys| && Before(keys, order[0], p)
  {
    assert forall i :: 0 <= i < |order| - 1 ==> order[1..][i] == order[i + 1];
  }

  lemma {:induction false} PlaceMembers(keys: seq<string>, order: seq<nat>, position: nat)
    requires position < |keys|
    requires forall i :: 0 <= i < |order| ==> order[i] < |keys|
    ensures forall p: nat :: p in Place(keys, order, position) <==> p == position || p in order
  {
    if order != [] {
      assert order == [order[0]] + order[1..];
      if !Less(keys[position], keys[order[0]]) {
        PlaceMembers(keys, order[1..], position);
      }
    }
  }

  lemma {:induction false} PlaceInOrder(keys: seq<string>, order: seq<nat>, position: nat)
    requires InOrder(keys, order) && position < |keys|
    requires forall p: nat :: p in order ==> p < position
    ensures InOrder(keys, Place(keys, order, position))
  {
    if order != [] {
      var first, rest := order[0], order[1..];
      assert order == [first] + rest && first in order;
      assert forall p: nat :: p in rest ==> p in order;
      InOrderRest(keys, order);
      LessTotal(keys[first], keys[position]);
      if Less(keys[position], keys[first]) {
        forall p: nat | p in order
          ensures Before(keys, position, p)
        {
          if p != first {
            BeforeTransitive(keys, position, first, p);
          }
        }
        InOrderCons(keys, position, order);
      } else {
        PlaceInOrder(keys, rest, position);
        PlaceMembers(keys, rest, position);
        forall p: nat | p in Place(keys, rest, position)
          ensures Before(keys, first, p)
        {
        }
        InOrderCons(keys, first, Place(keys, rest, position));
      }
    }
  }

  lemma {:induction false} SortOrderMembers(keys: seq<string>, count: nat)
    requires count <= |keys|
    ensures forall p: nat :: p in SortOrder(keys, count) <==> p < count
  {
    if count > 0 {
      SortOrderMembers(keys, count - 1);
      PlaceMembers(keys, SortOrder(keys, count - 1), count - 1);
    }
  }

  lemma {:induction false} SortOrderIsInOrder(keys: seq<string>, count: nat)
    requires count <= |keys|
    ensures InOrder(keys, SortOrder(keys, count))
  {
    if count > 0 {
      var order := SortOrder(keys, count - 1);
      SortOrderIsInOrder(keys, count - 1);
      SortOrderMembers(keys, count - 1);
      PlaceInOrder(keys, order, count - 1);
    }
  }

  function Gather<T>(items: seq<T>, order: seq<nat>): (gathered: seq<T>)
    requires forall i :: 0 <= i < |order| ==> order[i] < |items|
    ensures |gathered| == |order|
  {
    seq(|order|, i requires 0 <= i < |order| => items[order[i]])
  }

  lemma GatherCons<T>(items: seq<T>, first: nat, rest: seq<nat>)
    requires first < |items| && forall i :: 0 <= i < |rest| ==> rest[i] < |items|
    ensures multiset(Gather(items, [first] + rest)) == multiset{items[first]} + multiset(Gather(items, rest))
  {
    assert Gather(items, [first] + rest) == [items[first]] + Gather(items, rest);
  }

  lemma {:induction false} PlaceGathers<T>(items: seq<T>, keys: seq<string>, order: seq<nat>, position: nat)
    requires |items| == |keys| && position < |keys|
    requires forall i :: 0 <= i < |order| ==> order[i] < |keys|
    ensures multiset(Gather(items, Place(keys, order, position))) ==
            multiset(Gather(items, order)) + multiset{items[position]}
  {
    if order == [] || Less(keys[position], keys[order[0]]) {
      GatherCons(items, position, order);
    } else {
      var first, rest := order[0], order[1..];
      PlaceGathers(items, keys, rest, position);
      assert order == [first] + rest;
      GatherCons(items, first, rest);
      GatherCons(items, first, Place(keys, rest, position));
    }
  }

  /** Taking items in the sorted order neither loses nor repeats any. */
  lemma {:induction false} SortOrderGathers<T>(items: seq<T>, keys: seq<string>, count: nat)
    requires |items| == |keys| && count <= |keys|
    ensures multiset(Gather(items, SortOrder(keys, count))) == multiset(items[..count])
  {
    if count > 0 {
      SortOrderGathers(items, keys, count - 1);
      PlaceGathers(items, keys, SortOrder(keys, count - 1), count - 1);
      assert items[..count] == items[..count - 1] + [items[count - 1]];
    }
  }

  /** The positions `SortOrder` lists are a stable sort of the keys. */
  lemma SortOrderSpec(keys: seq<string>)
    ensures IsStableOrder(keys, SortOrder(keys, |keys|))
  {
    SortOrderIsInOrder(keys, |keys|);
    SortOrderMembers(keys, |keys|);
  }
}
