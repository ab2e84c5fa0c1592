/** Ordered maps as their entry lists: what a `BTreeMap`, a JSON object built by insertion, and
    a name-sorted schema list all are. */
module SortedMap {
  import opened Wrappers

  datatype Entry<+V> = Entry(key: string, value: V)

  /** The order of strings by characters, first difference first. */
  predicate Less(a: string, b: string) {
    b != "" && (a == "" || a[0] < b[0] || (a[0] == b[0] && Less(a[1..], b[1..])))
  }

  lemma {:induction false} LessTransitive(a: string, b: string, c: string)
    requires Less(a, b) && Less(b, c)
    ensures Less(a, c)
  {
    if a != "" && a[0] == b[0] == c[0] {
      LessTransitive(a[1..], b[1..], c[1..]);
    }
  }

  lemma {:induction false} LessTotal(a: string, b: string)
    ensures Less(a, b) || a == b || Less(b, a)
    ensures !(Less(a, b) && Less(b, a))
    ensures !Less(a, a)
  {
    if a != "" && b != "" {
      LessTotal(a[1..], b[1..]);
      LessTotal(a[1..], a[1..]);
      if a[0] == b[0] && a[1..] == b[1..] {
        assert a == [a[0]] + a[1..] && b == [b[0]] + b[1..];
      }
    } else if a != "" {
      LessTotal(a[1..], a[1..]);
    }
  }

  /** At `k` the first string has ended, or has the smaller character; before `k` they are alike. */
  ghost predicate DiffersAt(a: string, b: string, k: nat) {
    k <= |a| && k < |b| && a[..k] == b[..k] && (k == |a| || a[k] < b[k])
  }

  /** Smaller is being a proper prefix, or having the smaller character at the first difference. */
  lemma {:induction false} LessSpec(a: string, b: string)
    ensures Less(a, b) <==> exists k: nat :: DiffersAt(a, b, k)
  {
    if b != "" && a == "" {
      assert DiffersAt(a, b, 0);
    } else if b != "" {
      LessSpec(a[1..], b[1..]);
      if a[0] < b[0] {
        assert DiffersAt(a, b, 0);
      } else if a[0] == b[0] {
        if k: nat :| DiffersAt(a[1..], b[1..], k) {
          LaterDifference(a, b, k);
        }
        if k: nat :| DiffersAt(a, b, k) {
          assert k > 0;
          LaterDifference(a, b, k - 1);
        }
      } else {
        forall k: nat | 0 < k <= |a| && k < |b|
          ensures a[..k] != b[..k]
        {
          assert a[..k][0] == a[0] && b[..k][0] == b[0];
        }
      }
    }
  }

  lemma LaterDifference(a: string, b: string, k: nat)
    requires a != "" && b != "" && a[0] == b[0]
    ensures DiffersAt(a[1..], b[1..], k) <==> DiffersAt(a, b, k + 1)
  {
    if k + 1 <= |a| && k + 1 < |b| {
      assert a[..k + 1] == [a[0]] + a[1..][..k] && b[..k + 1] == [b[0]] + b[1..][..k];
      assert a[1..][..k] == a[..k + 1][1..] && b[1..][..k] == b[..k + 1][1..];
    }
  }

  lemma LessIrreflexive(a: string)
    ensures !Less(a, a)
  {
    LessTotal(a, a);
  }

  ghost predicate Sorted<V>(entries: seq<Entry<V>>) {
    forall i, j :: 0 <= i < j < |entries| ==> Less(entries[i].key, entries[j].key)
  }

  function Keys<V>(entries: seq<Entry<V>>): seq<string> {
    seq(|entries|, i requires 0 <= i < |entries| => entries[i].key)
  }

  /** The value of the first entry with this key, as an association list is read. */
  function Lookup<V>(entries: seq<Entry<V>>, key: string): Option<V> {
    if entries == [] then None
    else if entries[0].key == key then Some(entries[0].value)
    else Lookup(entries[1..], key)
  }

  /** The value of the last entry with this key, as inserting one by one leaves it. */
  function LookupLast<V>(entries: seq<Entry<V>>, key: string): Option<V> {
    if entries == [] then None
    else if entries[|entries| - 1].key == key then Some(entries[|entries| - 1].value)
    else LookupLast(entries[..|entries| - 1], key)
  }

  function Insert<V>(entries: seq<Entry<V>>, key: string, value: V): seq<Entry<V>> {
    if entries == [] then [Entry(key, value)]
    else if entries[0].key == key then [Entry(key, value)] + entries[1..]
    else if Less(key, entries[0].key) then [Entry(key, value)] + entries
    else [entries[0]] + Insert(entries[1..], key, value)
  }

  /** Inserting entries one by one into an empty map. */
  function FromEntries<V>(entries: seq<Entry<V>>): seq<Entry<V>> {
    if entries == [] then []
    else
      var last := entries[|entries| - 1];
      Insert(FromEntries(entries[..|entries| - 1]), last.key, last.value)
  }

  lemma {:induction false} InsertMembers<V(!new)>(entries: seq<Entry<V>>, key: string, value: V)
    requires Sorted(entries)
    ensures Entry(key, value) in Insert(entries, key, value)
    ensures forall e :: e in Insert(entries, key, value) <==>
                        e == Entry(key, value) || (e in entries && e.key != key)
  {
    if entries != [] {
      var first, rest := entries[0], entries[1..];
      assert entries == [first] + rest;
      LessIrreflexive(key);
      if first.key == key {
        forall e | e in rest
          ensures e.key != key
        {
          LessIrreflexive(e.key);
        }
      } else if Less(key, first.key) {
        forall e | e in entries
          ensures e.key != key
        {
          if e.key == key {
            LessTotal(e.key, first.key);
          }
        }
      } else {
        InsertMembers(rest, key, value);
      }
    }
  }

  lemma SortedCons<V(!new)>(head: Entry<V>, tail: seq<Entry<V>>)
    requires Sorted(tail) && forall e :: e in tail ==> Less(head.key, e.key)
    ensures Sorted([head] + tail)
  {
    var longer := [head] + tail;
    forall i, j | 0 <= i < j < |longer|
      ensures Less(longer[i].key, longer[j].key)
    {
      assert longer[j] == tail[j - 1];
    }
  }

  lemma SortedUncons<V(!new)>(entries: seq<Entry<V>>)
    requires Sorted(entries) && entries != []
    ensures Sorted(entries[1..])
    ensures forall e :: e in entries[1..] ==> Less(entries[0].key, e.key)
  {
  }

  lemma SortedPrepend<V(!new)>(entry: Entry<V>, entries: seq<Entry<V>>)
    requires Sorted(entries) && entries != [] && Less(entry.key, entries[0].key)
    ensures Sorted([entry] + entries)
  {
    SortedUncons(entries);
    forall e | e in entries
      ensures Less(entry.key, e.key)
    {
      if e != entries[0] {
        assert e in entries[1..];
        LessTransitive(entry.key, entries[0].key, e.key);
      }
    }
    SortedCons(entry, entries);
  }

  lemma SortedBelow<V(!new)>(first: Entry<V>, rest: seq<Entry<V>>, key: string, value: V)
    requires Sorted(rest) && Sorted(Insert(rest, key, value))
    requires Less(first.key, key) && forall e :: e in rest ==> Less(first.key, e.key)
    ensures Sorted([first] + Insert(rest, key, value))
  {
    InsertMembers(rest, key, value);
    var longer := Insert(rest, key, value);
    forall e | e in longer
      ensures Less(first.key, e.key)
    {
      if e.key != key {
        assert e in rest;
      }
    }
    SortedCons(first, longer);
  }

  lemma {:induction false} InsertSorted<V(!new)>(entries: seq<Entry<V>>, key: string, value: V)
    requires Sorted(entries)
    ensures Sorted(Insert(entries, key, value))
  {
    if entries != [] {
      SortedUncons(entries);
      LessTotal(key, entries[0].key);
      if entries[0].key == key {
        SortedCons(Entry(key, value), entries[1..]);
      } else if Less(key, entries[0].key) {
        SortedPrepend(Entry(key, value), entries);
      } else {
        InsertSorted(entries[1..], key, value);
        var first, rest := entries[0], entries[1..];
        SortedBelow(first, rest, key, value);
      }
    }
  }

  lemma {:induction false} LookupMember<V(!new)>(entries: seq<Entry<V>>, key: string)
    ensures match Lookup(entries, key)
            case Some(v) => Entry(key, v) in entries
            case None => forall e :: e in entries ==> e.key != key
  {
    if entries != [] {
      assert entries == [entries[0]] + entries[1..];
      LookupMember(entries[1..], key);
    }
  }

  /** In a sorted list the entry of a key is the one lookup finds. */
  lemma SortedLookup<V(!new)>(entries: seq<Entry<V>>, entry: Entry<V>)
    requires Sorted(entries) && entry in entries
    ensures Lookup(entries, entry.key) == Some(entry.value)
  {
    LookupMember(entries, entry.key);
    var found := Entry(entry.key, Lookup(entries, entry.key).value);
    LessIrreflexive(entry.key);
    assert found == entry;
  }

  /** A map built by insertion is sorted and answers every key with its last entry. */
  lemma {:induction false} FromEntriesSpec<V(!new)>(entries: seq<Entry<V>>)
    ensures Sorted(FromEntries(entries))
    ensures forall key :: Lookup(FromEntries(entries), key) == LookupLast(entries, key)
  {
    if entries != [] {
      var init, last := entries[..|entries| - 1], entries[|entries| - 1];
      FromEntriesSpec(init);
      var before, after := FromEntries(init), FromEntries(entries);
      InsertSorted(before, last.key, last.value);
      InsertMembers(before, last.key, last.value);
      forall key
        ensures Lookup(after, key) == LookupLast(entries, key)
      {
        if key == last.key {
          SortedLookup(after, last);
        } else {
          LookupMember(before, key);
          LookupMember(after, key);
          if Lookup(before, key).Some? {
            SortedLookup(after, Entry(key, Lookup(before, key).value));
          }
        }
      }
    }
  }

  /** Two sorted lists that answer every key alike are the same list. */
  lemma {:induction false} SortedUnique<V(!new)>(a: seq<Entry<V>>, b: seq<Entry<V>>)
    requires Sorted(a) && Sorted(b)
    requires forall key :: Lookup(a, key) == Lookup(b, key)
    ensures a == b
  {
    var headOfA := if a != [] then Lookup(a, a[0].key) else None;
    var headOfB := if b != [] then Lookup(b, b[0].key) else None;
    if a != [] && b != [] {
      SortedHead(a, b);
      SortedHead(b, a);
      LessTotal(a[0].key, b[0].key);
      assert Lookup(a, a[0].key) == Lookup(b, a[0].key);
      assert a == [a[0]] + a[1..] && b == [b[0]] + b[1..];
      forall key
        ensures Lookup(a[1..], key) == Lookup(b[1..], key)
      {
        if key == a[0].key {
          LookupMember(a[1..], key);
          LookupMember(b[1..], key);
          LessIrreflexive(key);
        } else {
          assert Lookup(a, key) == Lookup(b, key);
        }
      }
      SortedUnique(a[1..], b[1..]);
    }
  }

  /** The first key of one list is not above the first key of a list with the same keys. */
  lemma SortedHead<V(!new)>(a: seq<Entry<V>>, b: seq<Entry<V>>)
    requires Sorted(a) && Sorted(b) && a != [] && b != []
    requires forall key :: Lookup(a, key) == Lookup(b, key)
    ensures !Less(b[0].key, a[0].key)
  {
    LessIrreflexive(b[0].key);
    assert Lookup(b, b[0].key).Some?;
    LookupMember(a, b[0].key);
    var i :| 0 <= i < |a| && a[i].key == b[0].key;
    if Less(b[0].key, a[0].key) && i > 0 {
      LessTotal(a[0].key, a[i].key);
    }
  }

  /** No two entries share a key. */
  ghost predicate DistinctKeys<V>(entries: seq<Entry<V>>) {
    forall i, j :: 0 <= i < j < |entries| ==> entries[i].key != entries[j].key
  }

  lemma {:induction false} LookupLastMember<V(!new)>(entries: seq<Entry<V>>, key: string)
    ensures match LookupLast(entries, key)
            case Some(v) => Entry(key, v) in entries
            case None => forall e :: e in entries ==> e.key != key
  {
    if entries != [] {
      assert entries == entries[..|entries| - 1] + [entries[|entries| - 1]];
      LookupLastMember(entries[..|entries| - 1], key);
    }
  }

  lemma DistinctInit<V(!new)>(init: seq<Entry<V>>, last: Entry<V>)
    requires DistinctKeys(init + [last])
    ensures DistinctKeys(init)
    ensures forall e :: e in init ==> e.key != last.key
  {
    var all := init + [last];
    forall i, j | 0 <= i < j < |init|
      ensures init[i].key != init[j].key
    {
      assert all[i].key != all[j].key;
    }
    forall i | 0 <= i < |init|
      ensures init[i].key != last.key
    {
      assert all[i].key != all[|init|].key;
    }
  }

  /** Without repeated keys, building the map only reorders the entries. */
  lemma {:induction false} FromDistinctEntries<V(!new)>(entries: seq<Entry<V>>)
    requires DistinctKeys(entries)
    ensures Sorted(FromEntries(entries))
    ensures forall e :: e in FromEntries(entries) <==> e in entries
  {
    if entries != [] {
      var init, last := entries[..|entries| - 1], entries[|entries| - 1];
      assert entries == init + [last];
      DistinctInit(init, last);
      FromDistinctEntries(init);
      InsertSorted(FromEntries(init), last.key, last.value);
      InsertMembers(FromEntries(init), last.key, last.value);
      forall e
        ensures e in FromEntries(entries) <==> e in entries
      {
        assert e in entries <==> e in init || e == last;
      }
    }
  }
}
