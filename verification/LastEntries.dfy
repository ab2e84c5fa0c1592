/** Which entry of a repeated key counts, said by positions: the last one for a map built by
    insertion, the first one for an association list. */
module LastEntries {
  import opened Wrappers
  import opened SortedMap

  ghost predicate HasKey<V>(entries: seq<Entry<V>>, key: string) {
    exists i :: 0 <= i < |entries| && entries[i].key == key
  }

  /** No later entry has this one's key. */
  ghost predicate IsLast<V>(entries: seq<Entry<V>>, i: nat) {
    i < |entries| && forall j :: i < j < |entries| ==> entries[j].key != entries[i].key
  }

  ghost predicate IsFirst<V>(entries: seq<Entry<V>>, i: nat) {
    i < |entries| && forall j :: 0 <= j < i ==> entries[j].key != entries[i].key
  }

  /** Sorted by name, with the keys of the entries. */
  ghost predicate SameKeys<V, W>(entries: seq<Entry<V>>, sorted: seq<Entry<W>>) {
    Sorted(sorted) && forall key :: HasKey(entries, key) <==> HasKey(sorted, key)
  }

  /** Position `j` of the map is where the entry at `i` ends up. */
  ghost predicate Counts<V, W>(entries: seq<Entry<V>>, sorted: seq<Entry<W>>, i: nat, j: nat) {
    IsLast(entries, i) && j < |sorted| && sorted[j].key == entries[i].key
  }

  lemma {:induction false} LastOf<V>(entries: seq<Entry<V>>, key: string) returns (i: nat)
    requires HasKey(entries, key)
    ensures IsLast(entries, i) && entries[i].key == key
  {
    var last := |entries| - 1;
    if entries[last].key == key {
      i := last;
    } else {
      var k :| 0 <= k < |entries| && entries[k].key == key;
      assert entries[..last][k].key == key;
      i := LastOf(entries[..last], key);
      assert forall j :: i < j < last ==> entries[..last][j] == entries[j];
    }
  }

  lemma {:induction false} LastIsLookedUp<V>(entries: seq<Entry<V>>, i: nat)
    requires IsLast(entries, i)
    ensures LookupLast(entries, entries[i].key) == Some(entries[i].value)
  {
    var last := |entries| - 1;
    if i < last {
      assert entries[last].key != entries[i].key;
      LastIsLookedUp(entries[..last], i);
    }
  }

  lemma {:induction false} FirstIsLookedUp<V>(entries: seq<Entry<V>>, i: nat)
    requires IsFirst(entries, i)
    ensures Lookup(entries, entries[i].key) == Some(entries[i].value)
  {
    if i > 0 {
      assert entries[0].key != entries[i].key;
      FirstIsLookedUp(entries[1..], i - 1);
    }
  }

  lemma {:induction false} LookedUpIsFirst<V(!new)>(entries: seq<Entry<V>>, key: string) returns (i: nat)
    requires Lookup(entries, key).Some?
    ensures IsFirst(entries, i) && entries[i].key == key && Lookup(entries, key) == Some(entries[i].value)
  {
    if entries[0].key == key {
      i := 0;
    } else {
      var k := LookedUpIsFirst(entries[1..], key);
      i := k + 1;
      assert forall j :: 1 <= j < i ==> entries[j] == entries[1..][j - 1];
    }
  }

  lemma HasKeyIsLookedUp<V(!new)>(entries: seq<Entry<V>>, key: string)
    ensures HasKey(entries, key) <==> Lookup(entries, key).Some?
    ensures HasKey(entries, key) <==> LookupLast(entries, key).Some?
  {
    LookupMember(entries, key);
    LookupLastMember(entries, key);
  }

  /** The map built by insertion holds, at each key, the last entry of that key. */
  lemma BuiltFromLast<V(!new)>(entries: seq<Entry<V>>)
    ensures SameKeys(entries, FromEntries(entries))
    ensures forall i: nat, j: nat :: Counts(entries, FromEntries(entries), i, j) ==>
                                       FromEntries(entries)[j].value == entries[i].value
  {
    var built := FromEntries(entries);
    FromEntriesSpec(entries);
    forall key
      ensures HasKey(entries, key) <==> HasKey(built, key)
    {
      HasKeyIsLookedUp(entries, key);
      HasKeyIsLookedUp(built, key);
    }
    forall i: nat, j: nat | Counts(entries, built, i, j)
      ensures built[j].value == entries[i].value
    {
      LastIsLookedUp(entries, i);
      SortedLookup(built, built[j]);
    }
  }

  /** A sorted list with the entries' keys and, at each, the last entry's value, is that map. */
  lemma OnlyOneMap<V(!new)>(a: seq<Entry<V>>, b: seq<Entry<V>>)
    requires Sorted(a) && Sorted(b)
    requires forall key :: HasKey(a, key) <==> HasKey(b, key)
    requires forall i, j :: 0 <= i < |a| && 0 <= j < |b| && a[i].key == b[j].key ==> a[i].value == b[j].value
    ensures a == b
  {
    forall key
      ensures Lookup(a, key) == Lookup(b, key)
    {
      HasKeyIsLookedUp(a, key);
      HasKeyIsLookedUp(b, key);
      if HasKey(a, key) {
        var i := LookedUpIsFirst(a, key);
        var j := LookedUpIsFirst(b, key);
      }
    }
    SortedUnique(a, b);
  }

  /** In a sorted list every entry is the only one of its key. */
  lemma SortedPositions<V(!new)>(entries: seq<Entry<V>>, i: nat, j: nat)
    requires Sorted(entries) && i < |entries| && j < |entries| && entries[i].key == entries[j].key
    ensures i == j
  {
    LessIrreflexive(entries[i].key);
  }

  /** Keys decide which entries are last. */
  lemma LastByKeys<V, W>(a: seq<Entry<V>>, b: seq<Entry<W>>, i: nat)
    requires |a| == |b| && forall k :: 0 <= k < |a| ==> a[k].key == b[k].key
    ensures IsLast(a, i) <==> IsLast(b, i)
  {
  }
}
