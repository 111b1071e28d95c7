/**
 lib/MapCache.h: a hash map with a queue of its keys in insertion order, from which the oldest
 entries can be removed. `View` is the abstract value; the class keeps the two fields of the
 source and its methods are specified by the functions on views.
 */
module MapCaches {

  datatype View<K, V> = View(keys: seq<K>, entries: map<K, V>)

  ghost predicate NoDuplicates<K>(keys: seq<K>) {
    forall i, j | 0 <= i < j < |keys| :: keys[i] != keys[j]
  }

  /** The queue lists exactly the keys of the map, each once. */
  ghost predicate Consistent<K(!new), V>(v: View<K, V>) {
    NoDuplicates(v.keys) && forall k :: k in v.keys <==> k in v.entries
  }

  /** Without its oldest entry. */
  ghost function Tail<K(!new), V>(v: View<K, V>): View<K, V>
    requires v.keys != []
  {
    View(v.keys[1..], v.entries - {v.keys[0]})
  }

  /** Without its `n` oldest entries. */
  ghost function DropOldest<K(!new), V>(v: View<K, V>, n: nat): View<K, V>
    requires n <= |v.keys|
    decreases n
  {
    if n == 0 then v else DropOldest(Tail(v), n - 1)
  }

  /** The `n` oldest entries, oldest first. */
  ghost function Oldest<K(!new), V>(v: View<K, V>, n: nat): seq<(K, V)>
    requires n <= |v.keys| && Consistent(v)
    decreases n
  {
    if n == 0 then []
    else TailConsistent(v); [(v.keys[0], v.entries[v.keys[0]])] + Oldest(Tail(v), n - 1)
  }

  /** How many of the oldest entries satisfy a condition, up to the first that does not. */
  ghost function Matching<K(!new), V>(v: View<K, V>, condition: (K, V) -> bool): (n: nat)
    requires Consistent(v)
    ensures n <= |v.keys|
    decreases |v.keys|
  {
    if v.keys == [] || !condition(v.keys[0], v.entries[v.keys[0]]) then 0
    else TailConsistent(v); 1 + Matching(Tail(v), condition)
  }

  /** A removal in progress: `removed` is gone from `before`, and `m` more entries are to go from `v`. */
  ghost predicate Removing<K(!new), V>(before: View<K, V>, n: nat, v: View<K, V>, m: nat, removed: seq<(K, V)>)
    requires Consistent(before) && n <= |before.keys|
  {
    && Consistent(v) && m <= |v.keys|
    && DropOldest(v, m) == DropOldest(before, n)
    && removed + Oldest(v, m) == Oldest(before, n)
  }

  lemma {:induction false} OldestIsPresent<K(!new), V>(v: View<K, V>)
    requires Consistent(v) && v.keys != []
    ensures v.keys[0] in v.entries
  {
  }

  lemma {:induction false} NothingToDrop<K(!new), V>(v: View<K, V>)
    requires Consistent(v)
    ensures DropOldest(v, 0) == v && Oldest(v, 0) == []
  {
  }

  lemma {:induction false} RemovedOne<K(!new), V>(
    before: View<K, V>, n: nat, v: View<K, V>, m: nat, removed: seq<(K, V)>)
    requires Consistent(before) && n <= |before.keys| && m > 0 && Removing(before, n, v, m, removed)
    ensures Removing(before, n, Tail(v), m - 1, removed + [(v.keys[0], v.entries[v.keys[0]])])
  {
    TailConsistent(v);
  }

  lemma {:induction false} TailConsistent<K(!new), V>(v: View<K, V>)
    requires Consistent(v) && v.keys != []
    ensures Consistent(Tail(v))
  {
    assert v.keys == [v.keys[0]] + v.keys[1..];
  }

  /** Dropping keeps exactly the entries whose keys are past the first `n`, in the same order. */
  lemma {:induction false} DropOldestKeepsTheRest<K(!new), V>(v: View<K, V>, n: nat)
    requires Consistent(v) && n <= |v.keys|
    ensures Consistent(DropOldest(v, n))
    ensures DropOldest(v, n).keys == v.keys[n..]
    ensures forall k | k in DropOldest(v, n).entries :: k in v.entries && DropOldest(v, n).entries[k] == v.entries[k]
    decreases n
  {
    hide Consistent;
    if n > 0 {
      TailConsistent(v);
      DropOldestKeepsTheRest(Tail(v), n - 1);
    }
  }

  /** The matching run is the longest: all its entries satisfy the condition, the next one does not. */
  lemma {:induction false} MatchingIsLongest<K(!new), V>(v: View<K, V>, condition: (K, V) -> bool)
    requires Consistent(v)
    ensures var n := Matching(v, condition);
            && (forall i | 0 <= i < n :: condition(v.keys[i], v.entries[v.keys[i]]))
            && (n < |v.keys| ==> !condition(v.keys[n], v.entries[v.keys[n]]))
    decreases |v.keys|
  {
    if v.keys != [] && condition(v.keys[0], v.entries[v.keys[0]]) {
      TailConsistent(v);
      var rest, n := Tail(v), Matching(v, condition);
      MatchingIsLongest(rest, condition);
      forall i | 0 <= i < n
        ensures condition(v.keys[i], v.entries[v.keys[i]])
      {
        if i > 0 { assert rest.keys[i - 1] == v.keys[i]; }
      }
      if n < |v.keys| { assert rest.keys[n - 1] == v.keys[n]; }
    }
  }

  ghost function Put<K(!new), V>(v: View<K, V>, key: K, value: V): View<K, V> {
    if key in v.entries then v else View(v.keys + [key], v.entries[key := value])
  }

  ghost function RemoveKey<K>(keys: seq<K>, key: K): seq<K> {
    if keys == [] then []
    else if keys[0] == key then keys[1..]
    else [keys[0]] + RemoveKey(keys[1..], key)
  }

  ghost function Without<K(!new), V>(v: View<K, V>, key: K): View<K, V> {
    View(RemoveKey(v.keys, key), v.entries - {key})
  }

  lemma {:induction false} RemoveKeyKeepsOthers<K(!new)>(keys: seq<K>, key: K)
    requires NoDuplicates(keys)
    ensures NoDuplicates(RemoveKey(keys, key))
    ensures forall k :: k in RemoveKey(keys, key) <==> k in keys && k != key
    ensures key in keys ==> |RemoveKey(keys, key)| == |keys| - 1
    ensures key !in keys ==> RemoveKey(keys, key) == keys
  {
    if keys != [] {
      var rest := RemoveKey(keys[1..], key);
      RemoveKeyKeepsOthers(keys[1..], key);
      assert keys == [keys[0]] + keys[1..];
      if keys[0] != key {
        assert keys[0] !in keys[1..];
        assert keys[0] !in rest;
        assert NoDuplicates([keys[0]] + rest);
      }
    }
  }

  /** The other keys keep their order. */
  lemma {:induction false} RemoveKeyCutsOut<K(!new)>(keys: seq<K>, i: nat)
    requires NoDuplicates(keys) && i < |keys|
    ensures RemoveKey(keys, keys[i]) == keys[..i] + keys[i + 1..]
    decreases |keys|
  {
    if i > 0 {
      assert keys[1..][i - 1] == keys[i];
      RemoveKeyCutsOut(keys[1..], i - 1);
      assert keys[..i] == [keys[0]] + keys[1..][..i - 1];
    }
  }

  /** The oldest entries are those of the first keys, in order. */
  lemma {:induction false} OldestInOrder<K(!new), V>(v: View<K, V>, n: nat, i: nat)
    requires Consistent(v) && i < n <= |v.keys|
    ensures |Oldest(v, n)| == n && v.keys[i] in v.entries && Oldest(v, n)[i] == (v.keys[i], v.entries[v.keys[i]])
    decreases n
  {
    hide NoDuplicates;
    TailConsistent(v);
    if i > 0 {
      OldestInOrder(Tail(v), n - 1, i - 1);
    } else if n > 1 {
      OldestInOrder(Tail(v), n - 1, 0);
    }
  }

  lemma {:induction false} PutConsistent<K(!new), V>(v: View<K, V>, key: K, value: V)
    requires Consistent(v)
    ensures Consistent(Put(v, key, value))
  {}

  lemma {:induction false} RemoveConsistent<K(!new), V>(v: View<K, V>, key: K)
    requires Consistent(v)
    ensures Consistent(Without(v, key))
    ensures key !in v.entries ==> Without(v, key) == v
  {
    RemoveKeyKeepsOthers(v.keys, key);
    if key !in v.entries { assert v.entries - {key} == v.entries; }
  }

  class MapCache<K(==,!new), V> {
    var map_: map<K, V>
    var keys_: seq<K>

    ghost function Value(): View<K, V>
      reads this
    {
      View(keys_, map_)
    }

    ghost predicate Valid()
      reads this
    {
      Consistent(Value())
    }

    constructor ()
      ensures Valid() && Value() == View([], map[])
    {
      map_, keys_ := map[], [];
    }

    method PutIfAbsent(key: K, value: V) returns (inserted: bool)
      requires Valid()
      modifies this
      ensures Valid() && Value() == Put(old(Value()), key, value)
      ensures inserted <==> key !in old(map_)
    {
      PutConsistent(Value(), key, value);
      if key !in map_ {
        keys_ := keys_ + [key];
        map_ := map_[key := value];
        return true;
      } else {
        return false;
      }
    }

    /** Writing through the iterator that find or putIfAbsent returned. */
    method Assign(key: K, value: V)
      requires Valid() && key in map_
      modifies this
      ensures Valid() && keys_ == old(keys_) && map_ == old(map_)[key := value]
    {
      map_ := map_[key := value];
    }

    /** The loop bodies of the two removals: the oldest key is always in the map. */
    method EraseFront() returns (entry: (K, V))
      requires Valid() && keys_ != []
      modifies this
      ensures Valid() && Value() == Tail(old(Value()))
      ensures entry == (old(keys_)[0], old(map_)[old(keys_)[0]])
    {
      TailConsistent(Value());
      var key := keys_[0];
      entry := (key, map_[key]);
      map_ := map_ - {key};
      keys_ := keys_[1..];
    }

    /** Returns the removed entries in the order in which the callback saw them. */
    method RemoveOldestValues(numToRemove: nat) returns (removed: seq<(K, V)>)
      requires Valid()
      modifies this
      ensures Valid()
      ensures var n := if numToRemove < |old(keys_)| then numToRemove else |old(keys_)|;
              Value() == DropOldest(old(Value()), n) && removed == Oldest(old(Value()), n)
    {
      hide Consistent, DropOldest, Oldest;
      ghost var before, n := Value(), if numToRemove < |keys_| then numToRemove else |keys_|;
      removed := [];
      var i := 0;
      while keys_ != [] && i < numToRemove
        invariant 0 <= i <= n && n == if numToRemove < i + |keys_| then numToRemove else i + |keys_|
        invariant Removing(before, n, Value(), n - i, removed)
      {
        RemovedOne(before, n, Value(), n - i, removed);
        var entry := EraseFront();
        removed := removed + [entry];
        i := i + 1;
      }
      NothingToDrop(Value());
    }

    /**
     The loop has no exit for a queued key that is missing from the map; consistency makes that
     branch unreachable, so the loop ends and removes the longest matching run of oldest entries.
     */
    method RemoveOldestValuesIf(condition: (K, V) -> bool) returns (removed: seq<(K, V)>)
      requires Valid()
      modifies this
      ensures Valid()
      ensures var n := Matching(old(Value()), condition);
              Value() == DropOldest(old(Value()), n) && removed == Oldest(old(Value()), n)
    {
      hide Consistent, DropOldest, Oldest;
      ghost var before, n := Value(), Matching(Value(), condition);
      ghost var m := n;
      removed := [];
      while keys_ != []
        invariant Removing(before, n, Value(), m, removed)
        invariant m == Matching(Value(), condition)
        decreases |keys_|
      {
        var key := keys_[0];
        OldestIsPresent(Value());
        if condition(key, map_[key]) {
          RemovedOne(before, n, Value(), m, removed);
          var entry := EraseFront();
          removed := removed + [entry];
          m := m - 1;
        } else {
          break;
        }
      }
      NothingToDrop(Value());
    }

    method Remove(key: K)
      requires Valid()
      modifies this
      ensures Valid() && Value() == Without(old(Value()), key)
    {
      RemoveConsistent(Value(), key);
      if key in map_ {
        RemoveKeyFromKeys(key);
        map_ := map_ - {key};
      }
    }

    method RemoveKeyFromKeys(key: K)
      modifies this`keys_
      ensures keys_ == RemoveKey(old(keys_), key)
    {
      var i := 0;
      while i < |keys_|
        invariant 0 <= i <= |keys_| && keys_ == old(keys_)
        invariant RemoveKey(keys_, key) == keys_[..i] + RemoveKey(keys_[i..], key)
      {
        assert keys_[i..][1..] == keys_[i + 1..];
        if keys_[i] == key {
          keys_ := keys_[..i] + keys_[i + 1..];
          return;
        }
        assert keys_[..i + 1] == keys_[..i] + [keys_[i]];
        i := i + 1;
      }
      assert keys_[..i] == keys_;
    }
  }
}
