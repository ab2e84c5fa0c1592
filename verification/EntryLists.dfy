/** The in-place reduction of entry lists to a map by name: a stable sort, then a pass that keeps the
    last entry of each key. */
module EntryLists {
  import opened Wrappers
  import opened SortedMap
  import opened StableOrder

  /** The entries in the order of a stable sort by key. */
  function StablySorted<V>(entries: seq<Entry<V>>): (sorted: seq<Entry<V>>)
    ensures |sorted| == |entries|
  {
    Gather(entries, SortOrder(Keys(entries), |entries|))
  }

  ghost predicate WeaklySorted<V>(entries: seq<Entry<V>>) {
    forall i, j :: 0 <= i < j < |entries| ==> !Less(entries[j].key, entries[i].key)
  }

  ghost function Extend<V>(runs: seq<Entry<V>>, last: Entry<V>): seq<Entry<V>> {
    if runs != [] && runs[|runs| - 1].key == last.key
    then runs[..|runs| - 1] + [last]
    else runs + [last]
  }

  /** One entry for each run of equal keys, the last. */
  ghost function LastOfRuns<V>(entries: seq<Entry<V>>): seq<Entry<V>> {
    if entries == [] then []
    else Extend(LastOfRuns(entries[..|entries| - 1]), entries[|entries| - 1])
  }

  lemma LastOfRunsSnoc<V>(init: seq<Entry<V>>, last: Entry<V>)
    ensures LastOfRuns(init + [last]) == Extend(LastOfRuns(init), last)
  {
    assert (init + [last])[..|init|] == init;
  }

  lemma ExtendMembers<V(!new)>(runs: seq<Entry<V>>, last: Entry<V>)
    ensures forall e :: e in Extend(runs, last) ==> e == last || e in runs
    ensures Extend(runs, last) != [] && Extend(runs, last)[|Extend(runs, last)| - 1] == last
  {
  }

  lemma {:induction false} LastOfRunsMembers<V(!new)>(entries: seq<Entry<V>>)
    ensures forall e :: e in LastOfRuns(entries) ==> e in entries
  {
    if entries != [] {
      var init, last := entries[..|entries| - 1], entries[|entries| - 1];
      assert entries == init + [last];
      LastOfRunsSnoc(init, last);
      LastOfRunsMembers(init);
      ExtendMembers(LastOfRuns(init), last);
    }
  }

  lemma LastOfRunsEnds<V(!new)>(init: seq<Entry<V>>, last: Entry<V>)
    ensures var runs := LastOfRuns(init + [last]); runs != [] && runs[|runs| - 1] == last
  {
    LastOfRunsSnoc(init, last);
    ExtendMembers(LastOfRuns(init), last);
  }

  lemma SortedSnoc<V(!new)>(entries: seq<Entry<V>>, last: Entry<V>)
    requires Sorted(entries)
    requires entries != [] ==> Less(entries[|entries| - 1].key, last.key)
    ensures Sorted(entries + [last])
  {
    var longer := entries + [last];
    forall i, j | 0 <= i < j < |longer|
      ensures Less(longer[i].key, longer[j].key)
    {
      if j == |entries| && i < |entries| - 1 {
        LessTransitive(entries[i].key, entries[|entries| - 1].key, last.key);
      }
    }
  }

  /** A run goes on, or a later one starts. */
  lemma ExtendSorted<V(!new)>(runs: seq<Entry<V>>, last: Entry<V>)
    requires Sorted(runs)
    requires runs != [] ==> !Less(last.key, runs[|runs| - 1].key)
    ensures Sorted(Extend(runs, last))
  {
    if runs != [] {
      LessTotal(runs[|runs| - 1].key, last.key);
      if runs[|runs| - 1].key == last.key {
        SortedSnoc(runs[..|runs| - 1], last);
      } else {
        SortedSnoc(runs, last);
      }
    }
  }

  lemma WeaklySortedInit<V>(init: seq<Entry<V>>, last: Entry<V>)
    requires WeaklySorted(init + [last])
    ensures WeaklySorted(init)
    ensures init != [] ==> !Less(last.key, init[|init| - 1].key)
  {
    var entries := init + [last];
    forall i, j | 0 <= i < j < |init|
      ensures !Less(init[j].key, init[i].key)
    {
      assert entries[i] == init[i] && entries[j] == init[j];
    }
    if init != [] {
      assert entries[|init| - 1] == init[|init| - 1] && entries[|init|] == last;
    }
  }

  lemma {:induction false} LastOfRunsSorted<V(!new)>(entries: seq<Entry<V>>)
    requires WeaklySorted(entries)
    ensures Sorted(LastOfRuns(entries))
  {
    if entries != [] {
      var init, last := entries[..|entries| - 1], entries[|entries| - 1];
      assert entries == init + [last];
      WeaklySortedInit(init, last);
      LastOfRunsSorted(init);
      LastOfRunsSnoc(init, last);
      if init != [] {
        assert init == init[..|init| - 1] + [init[|init| - 1]];
        LastOfRunsEnds(init[..|init| - 1], init[|init| - 1]);
      }
      ExtendSorted(LastOfRuns(init), last);
    }
  }

  /** The entry of a key with no later entry of that key is the one a map keeps. */
  lemma {:induction false} LastIsKept<V>(entries: seq<Entry<V>>, at: nat)
    requires at < |entries|
    requires forall j :: at < j < |entries| ==> entries[j].key != entries[at].key
    ensures LookupLast(entries, entries[at].key) == Some(entries[at].value)
    decreases |entries|
  {
    if at < |entries| - 1 {
      var init := entries[..|entries| - 1];
      LastIsKept(init, at);
    }
  }

  /** In a sorted list every key's last entry ends its run. */
  lemma {:induction false} LastOfRunsLookup<V(!new)>(entries: seq<Entry<V>>, key: string)
    requires WeaklySorted(entries)
    ensures Lookup(LastOfRuns(entries), key) == LookupLast(entries, key)
  {
    if entries != [] {
      var init, last := entries[..|entries| - 1], entries[|entries| - 1];
      assert entries == init + [last];
      WeaklySortedInit(init, last);
      LastOfRunsLookup(init, key);
      LastOfRunsSnoc(init, last);
      if key == last.key {
        LastOfRunsSorted(entries);
        LastOfRunsEnds(init, last);
        SortedLookup(LastOfRuns(entries), last);
      } else {
        OtherKeys(LastOfRuns(init), last, key);
      }
    }
  }

  lemma OtherKeys<V(!new)>(runs: seq<Entry<V>>, last: Entry<V>, key: string)
    requires key != last.key
    ensures Lookup(Extend(runs, last), key) == Lookup(runs, key)
  {
    LookupAppend(runs, [last], key);
    assert Lookup([last], key) == None;
    if runs != [] && runs[|runs| - 1].key == last.key {
      var init, end := runs[..|runs| - 1], runs[|runs| - 1];
      assert runs == init + [end];
      LookupAppend(init, [last], key);
      LookupAppend(init, [end], key);
      assert Lookup([end], key) == None;
    }
  }

  lemma {:induction false} LookupAppend<V>(a: seq<Entry<V>>, b: seq<Entry<V>>, key: string)
    ensures Lookup(a + b, key) == if Lookup(a, key).Some? then Lookup(a, key) else Lookup(b, key)
  {
    if a == [] {
      assert a + b == b;
    } else {
      assert (a + b)[1..] == a[1..] + b;
      LookupAppend(a[1..], b, key);
    }
  }

  /** The position of a key's last entry. */
  lemma {:induction false} LastPosition<V(!new)>(entries: seq<Entry<V>>, key: string) returns (at: nat)
    requires exists e :: e in entries && e.key == key
    ensures at < |entries| && entries[at].key == key
    ensures forall j :: at < j < |entries| ==> entries[j].key != key
  {
    at := |entries| - 1;
    while entries[at].key != key
      invariant at < |entries|
      invariant forall j :: at < j < |entries| ==> entries[j].key != key
      decreases at
    {
      var e :| e in entries && e.key == key;
      at := at - 1;
    }
  }

  /** A stable sort keeps the last entry of each key last. */
  lemma SortingKeepsLast<V(!new)>(entries: seq<Entry<V>>, key: string)
    ensures LookupLast(StablySorted(entries), key) == LookupLast(entries, key)
  {
    var keys, sorted := Keys(entries), StablySorted(entries);
    var order := SortOrder(keys, |entries|);
    SortOrderSpec(keys);
    if exists e :: e in entries && e.key == key {
      var at := LastPosition(entries, key);
      assert at in order;
      var i :| 0 <= i < |order| && order[i] == at;
      forall j | i < j < |sorted|
        ensures sorted[j].key != key
      {
        assert Before(keys, order[i], order[j]);
        LessIrreflexive(key);
      }
      LastIsKept(entries, at);
      LastIsKept(sorted, i);
    } else {
      forall j | 0 <= j < |sorted|
        ensures sorted[j].key != key
      {
        assert entries[order[j]] in entries;
      }
      LookupLastMember(entries, key);
      LookupLastMember(sorted, key);
    }
  }

  lemma SortedIsWeaklySorted<V>(entries: seq<Entry<V>>)
    ensures WeaklySorted(StablySorted(entries))
  {
    var keys, sorted := Keys(entries), StablySorted(entries);
    var order := SortOrder(keys, |entries|);
    SortOrderSpec(keys);
    forall i, j | 0 <= i < j < |sorted|
      ensures !Less(sorted[j].key, sorted[i].key)
    {
      assert Before(keys, order[i], order[j]);
      LessTotal(keys[order[i]], keys[order[j]]);
    }
  }

  /** Keeping the last of each run of a stable sort is inserting the entries one by one. */
  lemma SortedRunsAreTheMap<V(!new)>(entries: seq<Entry<V>>)
    ensures LastOfRuns(StablySorted(entries)) == FromEntries(entries)
  {
    var sorted := StablySorted(entries);
    SortedIsWeaklySorted(entries);
    LastOfRunsSorted(sorted);
    FromEntriesSpec(entries);
    forall key
      ensures Lookup(LastOfRuns(sorted), key) == Lookup(FromEntries(entries), key)
    {
      LastOfRunsLookup(sorted, key);
      SortingKeepsLast(entries, key);
    }
    SortedUnique(LastOfRuns(sorted), FromEntries(entries));
  }

  lemma LastOfRunsStep<V>(sorted: seq<Entry<V>>, next: nat)
    requires next < |sorted|
    ensures LastOfRuns(sorted[..next + 1]) == Extend(LastOfRuns(sorted[..next]), sorted[next])
  {
    var longer := sorted[..next + 1];
    assert longer[..|longer| - 1] == sorted[..next];
  }

  /** The library sort, by its contract. */
  method SortStably<V>(entries: array<Entry<V>>)
    modifies entries
    ensures entries[..] == StablySorted(old(entries[..]))
  {
    var sorted := StablySorted(entries[..]);
    forall i | 0 <= i < entries.Length {
      entries[i] := sorted[i];
    }
  }

  /** Takes the next entry: one equal in key to the last kept swaps its contents into that and
      is dropped, any other is kept. */
  method Take<V>(entries: array<Entry<V>>, kept: nat, next: nat, ghost runs: seq<Entry<V>>) returns (longer: nat)
    requires kept <= next < entries.Length
    requires |runs| == kept && forall i :: 0 <= i < kept ==> entries[i] == runs[i]
    modifies entries
    ensures forall i :: next < i < entries.Length ==> entries[i] == old(entries[i])
    ensures var after := Extend(runs, old(entries[next]));
            longer == |after| <= next + 1 && forall i :: 0 <= i < longer ==> entries[i] == after[i]
  {
    if kept > 0 && entries[next].key == entries[kept - 1].key {
      entries[next], entries[kept - 1] := entries[kept - 1], entries[next];
      longer := kept;
    } else {
      entries[kept] := entries[next];
      longer := kept + 1;
    }
  }

  /** Keeps the last entry of each run of equal keys, at the front of the array. */
  method KeepLast<V>(entries: array<Entry<V>>) returns (kept: nat)
    modifies entries
    ensures kept <= entries.Length
    ensures entries[..kept] == LastOfRuns(old(entries[..]))
  {
    ghost var sorted := entries[..];
    ghost var runs: seq<Entry<V>> := [];
    kept := 0;
    for next := 0 to entries.Length
      invariant kept == |runs| <= next
      invariant forall i :: next <= i < entries.Length ==> entries[i] == sorted[i]
      invariant forall i :: 0 <= i < kept ==> entries[i] == runs[i]
      invariant runs == LastOfRuns(sorted[..next])
    {
      LastOfRunsStep(sorted, next);
      kept := Take(entries, kept, next, runs);
      runs := Extend(runs, sorted[next]);
    }
    assert sorted[..entries.Length] == sorted;
  }

  /** Sorting stably and keeping the last entry of each key, all in place. */
  method SortUnique<V(!new)>(entries: array<Entry<V>>) returns (kept: nat)
    modifies entries
    ensures kept <= entries.Length
    ensures entries[..kept] == FromEntries(old(entries[..]))
  {
    ghost var input := entries[..];
    SortStably(entries);
    kept := KeepLast(entries);
    SortedRunsAreTheMap(input);
  }

  /** Finds a name in a sorted list by halving. */
  method Get<V(!new)>(entries: seq<Entry<V>>, name: string) returns (found: Option<V>)
    requires Sorted(entries)
    ensures found == Lookup(entries, name)
  {
    var low, high := 0, |entries|;
    LookupMember(entries, name);
    while low < high
      invariant 0 <= low <= high <= |entries|
      invariant forall i :: 0 <= i < low ==> Less(entries[i].key, name)
      invariant forall i :: high <= i < |entries| ==> Less(name, entries[i].key)
    {
      var middle := low + (high - low) / 2;
      var key := entries[middle].key;
      if key == name {
        SortedLookup(entries, entries[middle]);
        return Some(entries[middle].value);
      }
      LessTotal(key, name);
      if Less(key, name) {
        forall i | 0 <= i < middle
          ensures Less(entries[i].key, name)
        {
          LessTransitive(entries[i].key, key, name);
        }
        low := middle + 1;
      } else {
        forall i | middle < i < |entries|
          ensures Less(name, entries[i].key)
        {
          LessTransitive(name, key, entries[i].key);
        }
        high := middle;
      }
    }
    LessIrreflexive(name);
    return None;
  }
}
