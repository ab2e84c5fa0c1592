/** Hash-consed lists: one handle for each distinct list. */
module Interning {

  /** A list behind a handle, hashed once when it is built. */
  class Shared<T(==)> {
    const hash: nat
    const items: seq<T>

    constructor (hasher: seq<T> -> nat, items: seq<T>)
      ensures this.items == items && hash == hasher(items)
    {
      this.items := items;
      hash := hasher(items);
    }

    /** The same handle, or equal hashes and equal lists. */
    predicate Equals(other: Shared<T>) {
      this == other || (hash == other.hash && items == other.items)
    }
  }

  /** Whatever the hash function, comparing hashes first never changes the answer. */
  lemma EqualsIsEqualLists<T>(hasher: seq<T> -> nat, a: Shared<T>, b: Shared<T>)
    requires a.hash == hasher(a.items) && b.hash == hasher(b.items)
    ensures a.Equals(b) <==> a.items == b.items
  {
  }

  class Interner<T(==)> {
    const hasher: seq<T> -> nat
    var values: set<Shared<T>>

    ghost predicate Valid()
      reads this
    {
      && (forall s :: s in values ==> s.hash == hasher(s.items))
      && (forall s, t :: s in values && t in values && s != t ==> s.items != t.items)
    }

    constructor (hasher: seq<T> -> nat)
      ensures Valid() && values == {} && this.hasher == hasher
    {
      this.hasher := hasher;
      values := {};
    }

    /** Hands out the handle kept for an equal list, or keeps a new one. */
    method Intern(items: seq<T>) returns (shared: Shared<T>)
      requires Valid()
      modifies this`values
      ensures Valid() && old(values) <= values && shared in values
      ensures shared.items == items
      ensures (exists s :: s in old(values) && s.items == items) ==> values == old(values)
      ensures !(exists s :: s in old(values) && s.items == items) ==> fresh(shared) && values == old(values) + {shared}
    {
      var candidate := new Shared(hasher, items);
      if exists s :: s in values && s.Equals(candidate) {
        var existing :| existing in values && existing.Equals(candidate);
        return existing;
      }
      assert forall s :: s in values && s.items == items ==> s.Equals(candidate);
      values := values + {candidate};
      return candidate;
    }
  }

  /** Equal lists handed out by one interner, however far apart, are the same handle. */
  lemma EqualListsShareAHandle<T>(interner: Interner<T>, a: Shared<T>, b: Shared<T>)
    requires interner.Valid() && a in interner.values && b in interner.values
    ensures a.items == b.items <==> a == b
  {
  }
}
