/** Insertion-ordered maps as entry lists: a key keeps the position of its first insertion and
    takes the value of its last. */
module OrderedMap {
  import opened SortedMap

  function Put<V>(entries: seq<Entry<V>>, key: string, value: V): seq<Entry<V>> {
    if entries == [] then [Entry(key, value)]
    else if entries[0].key == key then [Entry(key, value)] + entries[1..]
    else [entries[0]] + Put(entries[1..], key, value)
  }

  /** Inserting entries one by one. */
  function FromList<V>(entries: seq<Entry<V>>): seq<Entry<V>> {
    if entries == [] then []
    else
      var last := entries[|entries| - 1];
      Put(FromList(entries[..|entries| - 1]), last.key, last.value)
  }

  lemma {:induction false} PutNew<V(!new)>(entries: seq<Entry<V>>, key: string, value: V)
    requires forall e :: e in entries ==> e.key != key
    ensures Put(entries, key, value) == entries + [Entry(key, value)]
  {
    if entries != [] {
      assert entries == [entries[0]] + entries[1..];
      PutNew(entries[1..], key, value);
    }
  }

  /** Entries with distinct keys are the map they make. */
  lemma {:induction false} FromDistinctList<V(!new)>(entries: seq<Entry<V>>)
    requires DistinctKeys(entries)
    ensures FromList(entries) == entries
  {
    if entries != [] {
      var init, last := entries[..|entries| - 1], entries[|entries| - 1];
      FromDistinctList(init);
      assert entries == init + [last];
      forall e | e in init
        ensures e.key != last.key
      {
        var i :| 0 <= i < |init| && init[i] == e;
        assert entries[i] == e;
      }
      PutNew(init, last.key, last.value);
    }
  }
}
