/**
 * The sorted, name-keyed collection both core files keep their records in
 * (libgit2's `git_sortedcache`): items ordered by `strcmp` of their key, one
 * item per key. Its internals are not part of this model; it is given here as
 * a strictly sorted sequence with the operations the core uses.
 */
module SortedCaches {
  import opened Wrappers
  import opened CStrings

  datatype Item<V> = Item(key: string, value: V)

  /** Strictly increasing keys in `strcmp` order, hence one item per key. */
  predicate Sorted<V>(s: seq<Item<V>>) {
    forall i, j :: 0 <= i < j < |s| ==> Less(s[i].key, s[j].key)
  }

  /** `git_sortedcache_lookup`: the value stored under `key`, if any. */
  function Find<V>(s: seq<Item<V>>, key: string): (r: Option<V>)
    ensures r.None? <==> forall i :: 0 <= i < |s| ==> s[i].key != key
    decreases |s|
  {
    if |s| == 0 then None
    else if s[0].key == key then Some(s[0].value)
    else Find(s[1..], key)
  }

  /** In a sorted cache, every item is what a lookup of its key finds. */
  lemma {:induction false} FindAt<V>(s: seq<Item<V>>, i: nat)
    requires Sorted(s) && i < |s|
    ensures Find(s, s[i].key) == Some(s[i].value)
  {
    if i > 0 {
      LessIrreflexive(s[i].key);
      assert s[0].key != s[i].key;
      assert s[1..][i - 1] == s[i];
      FindAt(s[1..], i - 1);
    }
  }

  /**
   * `git_sortedcache_upsert` followed by storing `value` in the item: the item
   * for `key` now holds `value`, inserted at its sorted position if it was absent.
   */
  function Upserted<V(==)>(s: seq<Item<V>>, key: string, value: V): (r: seq<Item<V>>)
    ensures forall i :: 0 <= i < |r| ==> r[i] == Item(key, value) || r[i] in s
    ensures Item(key, value) in r
    ensures forall i :: 0 <= i < |s| && s[i].key != key ==> s[i] in r
    ensures |r| == |s| || |r| == |s| + 1
    decreases |s|
  {
    if |s| == 0 then [Item(key, value)]
    else if s[0].key == key then [Item(key, value)] + s[1..]
    else if Less(key, s[0].key) then [Item(key, value)] + s
    else [s[0]] + Upserted(s[1..], key, value)
  }

  /** An item whose key precedes every key of a sorted cache can head it. */
  lemma ConsSorted<V>(x: Item<V>, t: seq<Item<V>>)
    requires Sorted(t)
    requires forall y :: y in t ==> Less(x.key, y.key)
    ensures Sorted([x] + t)
  {
    var r := [x] + t;
    forall i, j | 0 <= i < j < |r| ensures Less(r[i].key, r[j].key) {
      assert r[j] == t[j - 1];
      if i > 0 {
        assert r[i] == t[i - 1];
      }
    }
  }

  /** Upserting keeps the cache sorted. */
  lemma {:induction false} UpsertSorted<V>(s: seq<Item<V>>, key: string, value: V)
    requires Sorted(s)
    ensures Sorted(Upserted(s, key, value))
    decreases |s|
  {
    if |s| > 0 {
      var tail := s[1..];
      assert Sorted(tail);
      assert forall y :: y in tail ==> Less(s[0].key, y.key);
      if s[0].key == key {
        ConsSorted(Item(key, value), tail);
      } else if Less(key, s[0].key) {
        forall y | y in s ensures Less(key, y.key) {
          if y != s[0] {
            LessTransitive(key, s[0].key, y.key);
          }
        }
        ConsSorted(Item(key, value), s);
      } else {
        LessTotal(key, s[0].key);
        UpsertSorted(tail, key, value);
        ConsSorted(s[0], Upserted(tail, key, value));
      }
    }
  }

  /** After an upsert, `key` finds the new value and every other key what it found before. */
  lemma {:induction false} FindUpsert<V>(s: seq<Item<V>>, key: string, value: V)
    ensures forall other :: Find(Upserted(s, key, value), other) == if other == key then Some(value) else Find(s, other)
    decreases |s|
  {
    var r := Upserted(s, key, value);
    if |s| == 0 {
    } else if s[0].key == key {
      assert r[1..] == s[1..];
    } else if Less(key, s[0].key) {
      assert r[1..] == s;
    } else {
      assert r[1..] == Upserted(s[1..], key, value);
      FindUpsert(s[1..], key, value);
    }
  }

  /**
   * The cache object itself: the collection a backend, a retriever or an
   * iterator points at, updated in place by upserts.
   */
  class SortedCache<V(==)> {
    var entries: seq<Item<V>>

    ghost predicate Valid()
      reads this
    {
      Sorted(entries)
    }

    /** `git_sortedcache_new`: an empty cache. */
    constructor ()
      ensures Valid() && entries == []
    {
      entries := [];
    }

    /** `git_sortedcache_lookup`. */
    method Lookup(key: string) returns (r: Option<V>)
      requires Valid()
      ensures r == Find(entries, key)
    {
      var i := 0;
      while i < |entries|
        invariant 0 <= i <= |entries|
        invariant Find(entries[i..], key) == Find(entries, key)
      {
        if entries[i].key == key {
          return Some(entries[i].value);
        }
        assert entries[i..][1..] == entries[i + 1..];
        i := i + 1;
      }
      return None;
    }

    /** `git_sortedcache_upsert`, then the caller's store into the item. */
    method Upsert(key: string, value: V)
      requires Valid()
      modifies this
      ensures Valid()
      ensures entries == Upserted(old(entries), key, value)
    {
      UpsertSorted(entries, key, value);
      entries := Upserted(entries, key, value);
    }

    /** `git_sortedcache_copy`: a new cache object with the same items. */
    method Copy() returns (c: SortedCache<V>)
      requires Valid()
      ensures fresh(c) && c.Valid() && c.entries == entries
    {
      c := new SortedCache();
      c.entries := entries;
    }
  }
}
