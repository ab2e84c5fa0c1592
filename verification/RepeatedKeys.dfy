/** The in-place merge of repeated keys: it agrees with inserting the entries one by one into an
    insertion-ordered map. */
module RepeatedKeys {
  import opened Wrappers
  import opened SortedMap
  import opened StableOrder
  import opened OrderedMap
  import opened EntryLists

  ghost predicate IsFirst(keys: seq<string>, at: nat) {
    at < |keys| && forall j :: 0 <= j < at ==> keys[j] != keys[at]
  }

  ghost predicate IsLast(keys: seq<string>, at: nat) {
    at < |keys| && forall j :: at < j < |keys| ==> keys[j] != keys[at]
  }

  /** The keys without repetition, in the order they first appear. */
  ghost function FirstKeys(keys: seq<string>): seq<string> {
    if keys == [] then []
    else
      var firsts, last := FirstKeys(keys[..|keys| - 1]), keys[|keys| - 1];
      if last in firsts then firsts else firsts + [last]
  }

  lemma {:induction false} FirstKeysMembers(keys: seq<string>)
    ensures forall k :: k in FirstKeys(keys) <==> k in keys
    ensures forall i, j :: 0 <= i < j < |FirstKeys(keys)| ==> FirstKeys(keys)[i] != FirstKeys(keys)[j]
  {
    if keys != [] {
      var init, last := keys[..|keys| - 1], keys[|keys| - 1];
      FirstKeysMembers(init);
      assert keys == init + [last];
    }
  }

  lemma FirstKeysStep(keys: seq<string>, next: nat)
    requires next < |keys|
    ensures FirstKeys(keys[..next + 1]) ==
            if IsFirst(keys, next) then FirstKeys(keys[..next]) + [keys[next]] else FirstKeys(keys[..next])
  {
    assert keys[..next + 1][..next] == keys[..next];
    FirstKeysMembers(keys[..next]);
  }

  lemma {:induction false} PutLookup<V>(entries: seq<Entry<V>>, key: string, value: V, name: string)
    ensures Lookup(Put(entries, key, value), name) ==
            if name == key then Some(value) else Lookup(entries, name)
  {
    if entries != [] && entries[0].key != key {
      PutLookup(entries[1..], key, value, name);
    }
  }

  lemma KeysCons<V>(first: Entry<V>, rest: seq<Entry<V>>)
    ensures Keys([first] + rest) == [first.key] + Keys(rest)
  {
  }

  lemma {:induction false} PutKeys<V>(entries: seq<Entry<V>>, key: string, value: V)
    ensures Keys(Put(entries, key, value)) ==
            if key in Keys(entries) then Keys(entries) else Keys(entries) + [key]
  {
    if entries != [] {
      var first, rest := entries[0], entries[1..];
      assert entries == [first] + rest;
      KeysCons(first, rest);
      KeysCons(Entry(key, value), rest);
      if first.key != key {
        PutKeys(rest, key, value);
        KeysCons(first, Put(rest, key, value));
      }
    }
  }

  /** Inserting one by one keeps each key at its first position with its last value. */
  lemma {:induction false} FromListSpec<V>(entries: seq<Entry<V>>)
    ensures Keys(FromList(entries)) == FirstKeys(Keys(entries))
    ensures forall name :: Lookup(FromList(entries), name) == LookupLast(entries, name)
  {
    if entries != [] {
      var init, last := entries[..|entries| - 1], entries[|entries| - 1];
      FromListSpec(init);
      assert Keys(entries)[..|entries| - 1] == Keys(init);
      PutKeys(FromList(init), last.key, last.value);
      forall name
        ensures Lookup(FromList(entries), name) == LookupLast(entries, name)
      {
        PutLookup(FromList(init), last.key, last.value, name);
      }
    }
  }

  lemma {:induction false} DistinctLookup<V>(entries: seq<Entry<V>>, at: nat)
    requires DistinctKeys(entries) && at < |entries|
    ensures Lookup(entries, entries[at].key) == Some(entries[at].value)
  {
    if at > 0 {
      assert entries[0].key != entries[at].key;
      DistinctLookup(entries[1..], at - 1);
    }
  }

  /** A list with the right keys in the right order and the last value of each is the map. */
  lemma MergedIsTheMap<V>(entries: seq<Entry<V>>, merged: seq<Entry<V>>)
    requires Keys(merged) == FirstKeys(Keys(entries))
    requires forall i :: 0 <= i < |merged| ==> LookupLast(entries, merged[i].key) == Some(merged[i].value)
    ensures merged == FromList(entries)
  {
    var expected := FromList(entries);
    FromListSpec(entries);
    FirstKeysMembers(Keys(entries));
    assert |merged| == |Keys(merged)| == |Keys(expected)| == |expected|;
    forall i | 0 <= i < |merged|
      ensures merged[i] == expected[i]
    {
      assert merged[i].key == Keys(merged)[i] == Keys(expected)[i] == expected[i].key;
      DistinctExpected(expected);
      DistinctLookup(expected, i);
    }
  }

  lemma DistinctExpected<V>(entries: seq<Entry<V>>)
    requires forall i, j :: 0 <= i < j < |Keys(entries)| ==> Keys(entries)[i] != Keys(entries)[j]
    ensures DistinctKeys(entries)
  {
    forall i, j | 0 <= i < j < |entries|
      ensures entries[i].key != entries[j].key
    {
      assert Keys(entries)[i] != Keys(entries)[j];
    }
  }

  /** Positions next to each other in the stable order share a key exactly when the later one is
      not the first of its key, and when the earlier one is not the last. */
  lemma RunsFollowTheOrder(keys: seq<string>, order: seq<nat>, k: nat)
    requires IsStableOrder(keys, order) && k < |order|
    ensures IsFirst(keys, order[k]) <==> k == 0 || keys[order[k - 1]] != keys[order[k]]
    ensures IsLast(keys, order[k]) <==> k == |order| - 1 || keys[order[k]] != keys[order[k + 1]]
  {
    if k > 0 {
      assert Before(keys, order[k - 1], order[k]);
      LessIrreflexive(keys[order[k]]);
    }
    if k < |order| - 1 {
      assert Before(keys, order[k], order[k + 1]);
      LessIrreflexive(keys[order[k]]);
    }
    forall j | 0 <= j < |keys| && keys[j] == keys[order[k]]
      ensures j < order[k] ==> k > 0 && keys[order[k - 1]] == keys[order[k]]
      ensures j > order[k] ==> k < |order| - 1 && keys[order[k]] == keys[order[k + 1]]
    {
      SameKeyNearby(keys, order, k, j);
    }
  }

  lemma SameKeyNearby(keys: seq<string>, order: seq<nat>, k: nat, j: nat)
    requires IsStableOrder(keys, order) && k < |order|
    requires j < |keys| && keys[j] == keys[order[k]]
    ensures j < order[k] ==> k > 0 && keys[order[k - 1]] == keys[order[k]]
    ensures j > order[k] ==> k < |order| - 1 && keys[order[k]] == keys[order[k + 1]]
  {
    assert j in order;
    var i :| 0 <= i < |order| && order[i] == j;
    LessIrreflexive(keys[j]);
    if i < k {
      assert Before(keys, order[i], order[k]);
      SameKeyBetween(keys, order, i, k - 1, k);
    } else if i > k {
      assert Before(keys, order[k], order[i]);
      SameKeyBetween(keys, order, k, k + 1, i);
    }
  }

  lemma SameKeyBetween(keys: seq<string>, order: seq<nat>, a: nat, b: nat, c: nat)
    requires IsStableOrder(keys, order) && a <= b <= c < |order|
    requires keys[order[a]] == keys[order[c]]
    ensures keys[order[b]] == keys[order[a]]
  {
    if a < b < c {
      assert Before(keys, order[a], order[b]) && Before(keys, order[b], order[c]);
      LessTotal(keys[order[a]], keys[order[b]]);
    }
  }

  datatype Move = Move(first: nat, last: nat)

  /** A move takes the last entry of a repeated key to the key's first position. */
  ghost predicate IsMove(keys: seq<string>, move: Move) {
    && move.first < move.last < |keys|
    && keys[move.first] == keys[move.last]
    && IsFirst(keys, move.first)
    && IsLast(keys, move.last)
  }

  ghost predicate OneMoveEach(moves: seq<Move>) {
    forall i, j :: 0 <= i < j < |moves| ==> moves[i].first != moves[j].first
  }

  ghost predicate HasMove(moves: seq<Move>, first: nat) {
    exists i :: 0 <= i < |moves| && moves[i].first == first
  }

  /** One move for each key that is repeated. */
  ghost predicate AllMoves(keys: seq<string>, moves: seq<Move>) {
    && OneMoveEach(moves)
    && (forall i :: 0 <= i < |moves| ==> IsMove(keys, moves[i]))
    && (forall p: nat :: IsFirst(keys, p) && !IsLast(keys, p) ==> HasMove(moves, p))
  }

  lemma OrderIsInjective(keys: seq<string>, order: seq<nat>)
    requires IsStableOrder(keys, order)
    ensures forall i, j :: 0 <= i < j < |order| ==> order[i] != order[j]
  {
    forall i, j | 0 <= i < j < |order|
      ensures order[i] != order[j]
    {
      assert Before(keys, order[i], order[j]);
      LessIrreflexive(keys[order[i]]);
    }
  }

  method Mark(marks: array<bool>, positions: seq<nat>, from: nat, to: nat)
    requires from <= to <= |positions|
    requires forall i :: 0 <= i < |positions| ==> positions[i] < marks.Length
    requires forall i, j :: 0 <= i < j < |positions| ==> positions[i] != positions[j]
    modifies marks
    ensures forall k :: 0 <= k < |positions| ==>
                          marks[positions[k]] == (from <= k < to || old(marks[positions[k]]))
  {
    for i := from to to
      invariant forall k :: 0 <= k < |positions| ==>
                              marks[positions[k]] == (from <= k < i || old(marks[positions[k]]))
    {
      marks[positions[i]] := true;
    }
  }

  method EndOfRun(keys: seq<string>, order: seq<nat>, at: nat) returns (end: nat)
    requires IsStableOrder(keys, order) && at < |order|
    ensures at < end <= |order|
    ensures forall k :: at <= k < end ==> keys[order[k]] == keys[order[at]]
    ensures end < |order| ==> keys[order[end]] != keys[order[end - 1]]
  {
    end := at + 1;
    while end < |order| && keys[order[end]] == keys[order[at]]
      invariant at < end <= |order|
      invariant forall k :: at <= k < end ==> keys[order[k]] == keys[order[at]]
    {
      end := end + 1;
    }
  }

  lemma RunEnds(keys: seq<string>, order: seq<nat>, at: nat, end: nat)
    requires IsStableOrder(keys, order) && at < end <= |order|
    requires at > 0 ==> keys[order[at]] != keys[order[at - 1]]
    requires forall k :: at <= k < end ==> keys[order[k]] == keys[order[at]]
    requires end < |order| ==> keys[order[end]] != keys[order[end - 1]]
    ensures forall k :: at <= k < end ==> (IsFirst(keys, order[k]) <==> k == at)
    ensures forall k :: at <= k < end ==> (IsLast(keys, order[k]) <==> k == end - 1)
    ensures end - at >= 2 ==> IsMove(keys, Move(order[at], order[end - 1]))
  {
    forall k | at <= k < end
      ensures IsFirst(keys, order[k]) <==> k == at
      ensures IsLast(keys, order[k]) <==> k == end - 1
    {
      RunsFollowTheOrder(keys, order, k);
    }
    if end - at >= 2 {
      assert Before(keys, order[at], order[end - 1]);
      LessIrreflexive(keys[order[at]]);
    }
  }

  ghost predicate MovesUpTo(keys: seq<string>, order: seq<nat>, at: nat, moves: seq<Move>)
    requires IsStableOrder(keys, order) && at <= |order|
  {
    && OneMoveEach(moves)
    && (forall i :: 0 <= i < |moves| ==> IsMove(keys, moves[i]))
    && (forall i, k :: 0 <= i < |moves| && at <= k < |order| ==> moves[i].first != order[k])
    && (forall k :: 0 <= k < at && IsFirst(keys, order[k]) && !IsLast(keys, order[k]) ==> HasMove(moves, order[k]))
  }

  lemma MoveAdded(keys: seq<string>, order: seq<nat>, at: nat, end: nat, moves: seq<Move>)
    requires IsStableOrder(keys, order) && at < end <= |order|
    requires MovesUpTo(keys, order, at, moves)
    requires forall k :: at <= k < end ==> (IsFirst(keys, order[k]) <==> k == at)
    requires IsMove(keys, Move(order[at], order[end - 1]))
    ensures MovesUpTo(keys, order, end, moves + [Move(order[at], order[end - 1])])
  {
    var longer := moves + [Move(order[at], order[end - 1])];
    OrderIsInjective(keys, order);
    forall k | 0 <= k < end && IsFirst(keys, order[k]) && !IsLast(keys, order[k])
      ensures HasMove(longer, order[k])
    {
      if k < at {
        var i :| 0 <= i < |moves| && moves[i].first == order[k];
        assert longer[i].first == order[k];
      } else {
        assert longer[|moves|].first == order[k];
      }
    }
  }

  lemma AllMovesFound(keys: seq<string>, order: seq<nat>, moves: seq<Move>)
    requires IsStableOrder(keys, order) && MovesUpTo(keys, order, |order|, moves)
    ensures AllMoves(keys, moves)
  {
    forall p: nat | IsFirst(keys, p) && !IsLast(keys, p)
      ensures HasMove(moves, p)
    {
      assert p in order;
      var k :| 0 <= k < |order| && order[k] == p;
    }
  }

  /** Walks the sorted positions run by run: marks all but the first of each run, and notes a
      move for each run of two or more. */
  method FindRepeats(keys: seq<string>, order: seq<nat>) returns (repeated: array<bool>, moves: seq<Move>)
    requires IsStableOrder(keys, order)
    ensures fresh(repeated) && repeated.Length == |keys|
    ensures forall p: nat :: p < |keys| ==> (repeated[p] <==> !IsFirst(keys, p))
    ensures AllMoves(keys, moves)
  {
    repeated := new bool[|keys|](_ => false);
    moves := [];
    OrderIsInjective(keys, order);
    var at := 0;
    while at < |order|
      invariant at <= |order|
      invariant 0 < at < |order| ==> keys[order[at]] != keys[order[at - 1]]
      invariant forall k :: 0 <= k < at ==> (repeated[order[k]] <==> !IsFirst(keys, order[k]))
      invariant forall k :: at <= k < |order| ==> !repeated[order[k]]
      invariant MovesUpTo(keys, order, at, moves)
    {
      var end := EndOfRun(keys, order, at);
      RunEnds(keys, order, at, end);
      if end - at >= 2 {
        MoveAdded(keys, order, at, end, moves);
        moves := moves + [Move(order[at], order[end - 1])];
        Mark(repeated, order, at + 1, end);
      }
      at := end;
    }
    AllMovesFound(keys, order, moves);
    forall p: nat | p < |keys|
      ensures repeated[p] <==> !IsFirst(keys, p)
    {
      assert p in order;
    }
  }

  /** The entry a position holds once every move's ends have been exchanged. */
  ghost predicate Swapped<V>(before: seq<Entry<V>>, after: seq<Entry<V>>, moves: seq<Move>, done: nat)
    requires |before| == |after| && done <= |moves|
    requires forall i :: 0 <= i < |moves| ==> moves[i].first < |before| && moves[i].last < |before|
  {
    && Keys(after) == Keys(before)
    && (forall i :: 0 <= i < done ==> after[moves[i].first] == before[moves[i].last])
    && (forall i :: done <= i < |moves| ==>
                      after[moves[i].first] == before[moves[i].first] && after[moves[i].last] == before[moves[i].last])
    && (forall p: nat :: p < |before| && IsFirst(Keys(before), p) && IsLast(Keys(before), p) ==> after[p] == before[p])
  }

  ghost function Unmarked<V>(entries: seq<Entry<V>>, marks: seq<bool>): seq<Entry<V>>
    requires |entries| == |marks|
  {
    if entries == [] then []
    else
      var last := |entries| - 1;
      Unmarked(entries[..last], marks[..last]) + if marks[last] then [] else [entries[last]]
  }

  lemma UnmarkedStep<V>(entries: seq<Entry<V>>, marks: seq<bool>, next: nat)
    requires |entries| == |marks| && next < |entries|
    ensures Unmarked(entries[..next + 1], marks[..next + 1]) ==
            Unmarked(entries[..next], marks[..next]) + if marks[next] then [] else [entries[next]]
  {
    assert entries[..next + 1][..next] == entries[..next];
    assert marks[..next + 1][..next] == marks[..next];
  }

  lemma SwapKeeps<V>(before: seq<Entry<V>>, mid: seq<Entry<V>>, after: seq<Entry<V>>, moves: seq<Move>, done: nat)
    requires |before| == |mid| == |after| && done < |moves|
    requires AllMoves(Keys(before), moves)
    requires Swapped(before, mid, moves, done)
    requires after == mid[moves[done].first := mid[moves[done].last]][moves[done].last := mid[moves[done].first]]
    ensures Swapped(before, after, moves, done + 1)
  {
    var keys := Keys(before);
    var move := moves[done];
    assert IsMove(keys, move);
    forall i | 0 <= i < |moves| && i != done
      ensures after[moves[i].first] == mid[moves[i].first] && after[moves[i].last] == mid[moves[i].last]
    {
      assert IsMove(keys, moves[i]);
      DifferentMoves(keys, move, moves[i]);
    }
    forall p: nat | p < |before|
      ensures Keys(after)[p] == keys[p]
    {
      assert Keys(mid)[p] == keys[p];
      assert Keys(mid)[move.first] == keys[move.first] && Keys(mid)[move.last] == keys[move.last];
    }
  }

  /** Moves of different keys share no position. */
  lemma DifferentMoves(keys: seq<string>, a: Move, b: Move)
    requires IsMove(keys, a) && IsMove(keys, b) && a.first != b.first
    ensures a.first != b.last && a.last != b.first && a.last != b.last
  {
    assert keys[a.first] != keys[b.first];
  }

  lemma SwappedHoldsLast<V>(before: seq<Entry<V>>, after: seq<Entry<V>>, moves: seq<Move>, p: nat)
    requires |before| == |after| && AllMoves(Keys(before), moves)
    requires Swapped(before, after, moves, |moves|)
    requires IsFirst(Keys(before), p)
    ensures LookupLast(before, after[p].key) == Some(after[p].value)
  {
    var keys := Keys(before);
    assert Keys(after)[p] == keys[p];
    if IsLast(keys, p) {
      LastIsKept(before, p);
    } else {
      var i :| 0 <= i < |moves| && moves[i].first == p;
      assert IsMove(keys, moves[i]);
      LastIsKept(before, moves[i].last);
    }
  }

  method SwapAll<V>(entries: array<Entry<V>>, moves: seq<Move>)
    requires AllMoves(Keys(entries[..]), moves)
    modifies entries
    ensures AllMoves(Keys(old(entries[..])), moves)
    ensures Swapped(old(entries[..]), entries[..], moves, |moves|)
  {
    ghost var before := entries[..];
    for i := 0 to |moves|
      invariant Swapped(before, entries[..], moves, i)
    {
      assert IsMove(Keys(before), moves[i]);
      ghost var mid := entries[..];
      var first, last := moves[i].first, moves[i].last;
      entries[first], entries[last] := entries[last], entries[first];
      SwapKeeps(before, mid, entries[..], moves, i);
    }
  }

  /** Keeps the entries not marked, in order, at the front of the array. */
  method Retain<V>(entries: array<Entry<V>>, dropped: array<bool>) returns (kept: nat)
    requires dropped.Length == entries.Length
    modifies entries
    ensures kept <= entries.Length
    ensures entries[..kept] == Unmarked(old(entries[..]), dropped[..])
  {
    ghost var before, marks := entries[..], dropped[..];
    ghost var result: seq<Entry<V>> := [];
    kept := 0;
    for position := 0 to entries.Length
      invariant kept == |result| <= position
      invariant forall i :: position <= i < entries.Length ==> entries[i] == before[i]
      invariant forall i :: 0 <= i < kept ==> entries[i] == result[i]
      invariant result == Unmarked(before[..position], marks[..position])
    {
      UnmarkedStep(before, marks, position);
      if !dropped[position] {
        result := result + [entries[position]];
        entries[kept] := entries[position];
        kept := kept + 1;
      }
    }
    assert before[..entries.Length] == before && marks[..entries.Length] == marks;
  }

  lemma KeysSnoc<V>(init: seq<Entry<V>>, last: Entry<V>)
    ensures Keys(init + [last]) == Keys(init) + [last.key]
  {
  }

  lemma {:induction false} UnmarkedKeys<V>(entries: seq<Entry<V>>, marks: seq<bool>, count: nat)
    requires |entries| == |marks| && count <= |entries|
    requires forall p: nat :: p < |marks| ==> (marks[p] <==> !IsFirst(Keys(entries), p))
    ensures Keys(Unmarked(entries[..count], marks[..count])) == FirstKeys(Keys(entries)[..count])
  {
    if count > 0 {
      var last, kept := entries[count - 1], Unmarked(entries[..count - 1], marks[..count - 1]);
      UnmarkedKeys(entries, marks, count - 1);
      UnmarkedStep(entries, marks, count - 1);
      FirstKeysStep(Keys(entries), count - 1);
      KeysSnoc(kept, last);
      assert kept + [] == kept;
    }
  }

  lemma {:induction false} UnmarkedMembers<V(!new)>(entries: seq<Entry<V>>, marks: seq<bool>)
    requires |entries| == |marks|
    ensures forall e :: e in Unmarked(entries, marks) ==>
                          exists p :: 0 <= p < |entries| && !marks[p] && entries[p] == e
  {
    if entries != [] {
      var last := |entries| - 1;
      UnmarkedMembers(entries[..last], marks[..last]);
      forall e | e in Unmarked(entries, marks)
        ensures exists p :: 0 <= p < |entries| && !marks[p] && entries[p] == e
      {
        if e in Unmarked(entries[..last], marks[..last]) {
          var p :| 0 <= p < last && !marks[..last][p] && entries[..last][p] == e;
          assert !marks[p] && entries[p] == e;
        } else {
          assert !marks[last] && entries[last] == e;
        }
      }
    }
  }

  lemma UnmarkedIsTheMap<V(!new)>(before: seq<Entry<V>>, after: seq<Entry<V>>, moves: seq<Move>, marks: seq<bool>)
    requires |before| == |after| == |marks| && AllMoves(Keys(before), moves)
    requires Swapped(before, after, moves, |moves|)
    requires forall p: nat :: p < |marks| ==> (marks[p] <==> !IsFirst(Keys(before), p))
    ensures Unmarked(after, marks) == FromList(before)
  {
    UnmarkedKeys(after, marks, |after|);
    assert after[..|after|] == after && marks[..|after|] == marks && Keys(after)[..|after|] == Keys(before);
    UnmarkedMembers(after, marks);
    var merged := Unmarked(after, marks);
    forall i | 0 <= i < |merged|
      ensures LookupLast(before, merged[i].key) == Some(merged[i].value)
    {
      assert merged[i] in merged;
      var p :| 0 <= p < |after| && !marks[p] && after[p] == merged[i];
      SwappedHoldsLast(before, after, moves, p);
    }
    MergedIsTheMap(before, merged);
  }

  /** Collapses each repeated key into its first position, holding the last value: the front of
      the array ends up as the insertion-ordered map of all the entries. */
  method MergeRepeatedKeys<V(!new)>(entries: array<Entry<V>>) returns (kept: nat)
    modifies entries
    ensures kept <= entries.Length
    ensures entries[..kept] == FromList(old(entries[..]))
  {
    ghost var before := entries[..];
    if entries.Length < 2 {
      FromDistinctList(before);
      return entries.Length;
    }
    var keys := Keys(entries[..]);
    var order := SortOrder(keys, entries.Length);
    SortOrderSpec(keys);
    var repeated, moves := FindRepeats(keys, order);
    SwapAll(entries, moves);
    ghost var after := entries[..];
    kept := Retain(entries, repeated);
    UnmarkedIsTheMap(before, after, moves, repeated[..]);
  }
}
