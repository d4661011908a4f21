/**
The hash map of ebpf_map_hashtable.c (the variant without per-CPU values):
buckets of linked elements, a preallocated pool of elements and one spare
element per CPU. Elements are named by their addresses. The hash function is a
parameter: the map is correct for every one.

This module holds the state as a value, what each operation does to it, and why
the operations keep the invariant; HashMapOps has the operations themselves.
*/
module HashMap {
  import opened Collections

  /** get_hash_elem: the position of the first element with the key, or the length. */
  function Search<Key(==)>(keys: map<nat, Key>, list: seq<nat>, key: Key): (i: nat)
    ensures i <= |list|
  {
    if list == [] then 0
    else if list[0] in keys && keys[list[0]] == key then 0
    else 1 + Search(keys, list[1..], key)
  }

  lemma {:induction false} SearchFinds<Key(!new)>(keys: map<nat, Key>, list: seq<nat>, key: Key)
    ensures var i := Search(keys, list, key);
      && (i < |list| ==> list[i] in keys && keys[list[i]] == key)
      && (i == |list| ==> forall x :: x in list && x in keys ==> keys[x] != key)
  {
    if list != [] && !(list[0] in keys && keys[list[0]] == key) {
      SearchFinds(keys, list[1..], key);
      assert list == [list[0]] + list[1..];
    }
  }

  // ------------------------------------------------------------------ the state

  datatype Table<Key, Value> = Table(
    keys: map<nat, Key>,       // the key bytes of each element
    values: map<nat, Value>,   // the value bytes of each element
    buckets: seq<seq<nat>>,    // each bucket's list, first element first
    spare: seq<nat>,           // pcpu_extra_elems
    free: seq<nat>,            // the allocator's free list
    at: map<Key, nat>          // the linked element of each stored key
  )

  /** Bucket b's list holds only elements that their keys lead back to. */
  ghost predicate BucketOk<Key(!new), Value(!new)>(index: Key -> nat, t: Table<Key, Value>, b: nat)
    requires b < |t.buckets|
  {
    && Distinct(t.buckets[b])
    && forall x :: x in t.buckets[b] ==>
         x in t.keys && t.keys[x] in t.at && t.at[t.keys[x]] == x && index(t.keys[x]) == b
  }

  /** The key's element holds the key and a value, and is linked in the key's bucket. */
  ghost predicate KeyOk<Key(!new), Value(!new)>(index: Key -> nat, t: Table<Key, Value>, k: Key)
    requires k in t.at
  {
    && t.at[k] in t.values && t.at[k] in t.keys && t.keys[t.at[k]] == k
    && index(k) < |t.buckets| && t.at[k] in t.buckets[index(k)]
  }

  /** `at` names exactly the linked elements, each in the bucket of its key. */
  ghost predicate Linked<Key(!new), Value(!new)>(index: Key -> nat, t: Table<Key, Value>) {
    && (forall k :: k in t.at ==> KeyOk(index, t, k))
    && (forall b :: 0 <= b < |t.buckets| ==> BucketOk(index, t, b))
  }

  /** No element is in two of: the free list, the spare slots, the buckets. */
  ghost predicate Disjoint<Key(!new), Value(!new)>(t: Table<Key, Value>) {
    && Distinct(t.free) && Distinct(t.spare)
    && (forall x :: x in t.free ==> x !in t.spare)
    && (forall k :: k in t.at ==> t.at[k] !in t.free && t.at[k] !in t.spare)
  }

  /** The invariant; with the disjointness, the last clause accounts for every element. */
  ghost predicate Ok<Key(!new), Value(!new)>(index: Key -> nat, t: Table<Key, Value>, maxEntries: nat) {
    && Linked(index, t) && Disjoint(t)
    && |t.free| + |t.at| == maxEntries
  }

  /** The finite map that the hash map stands for. */
  ghost function Denotes<Key(!new), Value(!new)>(t: Table<Key, Value>): (m: map<Key, Value>)
    ensures m.Keys <= t.at.Keys
  {
    map k | k in t.at && t.at[k] in t.values :: t.values[t.at[k]]
  }

  lemma SameKeys<Key(!new), Value(!new)>(index: Key -> nat, t: Table<Key, Value>)
    requires Linked(index, t)
    ensures Denotes(t).Keys == t.at.Keys && |Denotes(t)| == |t.at|
  {
  }

  /** Different keys have different elements. */
  lemma DistinctElements<Key(!new), Value(!new)>(index: Key -> nat, t: Table<Key, Value>, key: Key)
    requires Linked(index, t) && key in t.at
    ensures forall k :: k in t.at && k != key ==> t.at[k] != t.at[key]
  {
  }

  /** When every bucket is empty nothing is stored. */
  lemma NothingLinked<Key(!new), Value(!new)>(index: Key -> nat, t: Table<Key, Value>)
    requires Linked(index, t) && forall b :: 0 <= b < |t.buckets| ==> t.buckets[b] == []
    ensures t.at == map[]
  {
  }

  /** Linking at the head and then unlinking behind it, or the other way round. */
  lemma HeadThenWithout(buckets: seq<seq<nat>>, b: nat, i: nat, x: nat)
    requires b < |buckets| && i < |buckets[b]|
    ensures var list := buckets[b];
      buckets[b := [x] + list][b := Without([x] + list, i + 1)]
        == buckets[b := Without(list, i)][b := [x] + Without(list, i)]
  {
    assert [x] + Without(buckets[b], i) == Without([x] + buckets[b], i + 1);
  }

  // ------------------------------------------------------- linking and unlinking

  /** Element x, holding the key and value, goes to the head of bucket b. */
  function Link<Key, Value>(t: Table<Key, Value>, b: nat, key: Key, value: Value, x: nat): Table<Key, Value>
    requires b < |t.buckets|
  {
    t.(keys := t.keys[x := key], values := t.values[x := value],
       buckets := t.buckets[b := [x] + t.buckets[b]], at := t.at[key := x])
  }

  /** The i-th element of bucket b, which holds the key, is unlinked. */
  function Unlink<Key, Value>(t: Table<Key, Value>, b: nat, i: nat, key: Key): Table<Key, Value>
    requires b < |t.buckets| && i < |t.buckets[b]|
  {
    t.(buckets := t.buckets[b := Without(t.buckets[b], i)], at := t.at - {key})
  }

  /** Key is stored, in the i-th element of bucket b. */
  ghost predicate Found<Key(!new), Value(!new)>(index: Key -> nat, t: Table<Key, Value>, b: nat, i: nat, key: Key) {
    b == index(key) < |t.buckets| && key in t.at && i < |t.buckets[b]| && t.buckets[b][i] == t.at[key]
  }

  lemma LinkKeepsLinked<Key(!new), Value(!new)>(index: Key -> nat, t: Table<Key, Value>, key: Key, value: Value, x: nat)
    requires Linked(index, t) && index(key) < |t.buckets|
    requires key !in t.at && forall k :: k in t.at ==> t.at[k] != x
    ensures Linked(index, Link(t, index(key), key, value, x))
  {
    var u := Link(t, index(key), key, value, x);
    forall k | k in u.at
      ensures KeyOk(index, u, k)
    {
      if k == key {
        assert u.buckets[index(key)][0] == x;
      } else {
        assert KeyOk(index, t, k);
      }
    }
    forall c | 0 <= c < |u.buckets|
      ensures BucketOk(index, u, c)
    {
      assert BucketOk(index, t, c);
      assert x !in t.buckets[c];
    }
  }

  lemma UnlinkKeepsLinked<Key(!new), Value(!new)>(index: Key -> nat, t: Table<Key, Value>, i: nat, key: Key)
    requires Linked(index, t) && Found(index, t, index(key), i, key)
    ensures Linked(index, Unlink(t, index(key), i, key))
  {
    var b := index(key);
    var u := Unlink(t, b, i, key);
    assert BucketOk(index, t, b);
    WithoutOne(t.buckets[b], i, t.at[key]);
    forall k | k in u.at
      ensures KeyOk(index, u, k)
    {
      assert KeyOk(index, t, k);
    }
    forall c | 0 <= c < |u.buckets|
      ensures BucketOk(index, u, c)
    {
      assert BucketOk(index, t, c);
    }
  }

  lemma LinkDenotes<Key(!new), Value(!new)>(t: Table<Key, Value>, b: nat, key: Key, value: Value, x: nat)
    requires b < |t.buckets| && forall k :: k in t.at ==> t.at[k] != x
    ensures Denotes(Link(t, b, key, value, x)) == Denotes(t)[key := value]
  {
  }

  lemma UnlinkDenotes<Key(!new), Value(!new)>(t: Table<Key, Value>, b: nat, i: nat, key: Key)
    requires b < |t.buckets| && i < |t.buckets[b]|
    ensures Denotes(Unlink(t, b, i, key)) == Denotes(t) - {key}
  {
  }

  // -------------------------------------------------------------- the operations

  /** A new key takes the first free element. */
  function Inserted<Key, Value>(t: Table<Key, Value>, b: nat, key: Key, value: Value): Table<Key, Value>
    requires b < |t.buckets| && t.free != []
  {
    Link(t.(free := t.free[1..]), b, key, value, t.free[0])
  }

  lemma InsertOk<Key(!new), Value(!new)>(index: Key -> nat, t: Table<Key, Value>, maxEntries: nat, key: Key,
      value: Value)
    requires Ok(index, t, maxEntries) && index(key) < |t.buckets| && key !in t.at && t.free != []
    ensures Ok(index, Inserted(t, index(key), key, value), maxEntries)
    ensures Denotes(Inserted(t, index(key), key, value)) == Denotes(t)[key := value]
  {
    var x, mid := t.free[0], t.(free := t.free[1..]);
    assert x in t.free && x !in t.free[1..];
    assert forall y :: y in t.free[1..] ==> y in t.free;
    UnchangedLinks(index, t, mid);
    LinkKeepsLinked(index, mid, key, value, x);
    LinkDenotes(mid, index(key), key, value, x);
  }

  /** Links depend on neither the free list nor the spare elements. */
  lemma UnchangedLinks<Key(!new), Value(!new)>(index: Key -> nat, t: Table<Key, Value>, u: Table<Key, Value>)
    requires Linked(index, t) && u.(free := t.free, spare := t.spare) == t
    ensures Linked(index, u) && Denotes(u) == Denotes(t)
  {
    forall k | k in u.at
      ensures KeyOk(index, u, k)
    {
      assert KeyOk(index, t, k);
    }
    forall b | 0 <= b < |u.buckets|
      ensures BucketOk(index, u, b)
    {
      assert BucketOk(index, t, b);
    }
  }

  /** An unlinked element returns to the free list. */
  function Removed<Key, Value>(t: Table<Key, Value>, b: nat, i: nat, key: Key): Table<Key, Value>
    requires b < |t.buckets| && i < |t.buckets[b]|
  {
    Unlink(t, b, i, key).(free := [t.buckets[b][i]] + t.free)
  }

  lemma RemoveOk<Key(!new), Value(!new)>(index: Key -> nat, t: Table<Key, Value>, maxEntries: nat, i: nat, key: Key)
    requires Ok(index, t, maxEntries) && Found(index, t, index(key), i, key)
    ensures Ok(index, Removed(t, index(key), i, key), maxEntries)
    ensures Denotes(Removed(t, index(key), i, key)) == Denotes(t) - {key}
  {
    var mid := Unlink(t, index(key), i, key);
    DistinctElements(index, t, key);
    UnlinkKeepsLinked(index, t, i, key);
    UnlinkDenotes(t, index(key), i, key);
    UnchangedLinks(index, mid, Removed(t, index(key), i, key));
    assert mid.at.Keys == t.at.Keys - {key};
  }

  /**
  An update of a stored key: the CPU's spare element goes to the head of the
  bucket with the new value, and the old element, unlinked, is the spare now.
  */
  function Replaced<Key, Value>(t: Table<Key, Value>, b: nat, i: nat, key: Key, value: Value, cpu: nat)
      : Table<Key, Value>
    requires b < |t.buckets| && i < |t.buckets[b]| && cpu < |t.spare|
  {
    Link(Unlink(t, b, i, key), b, key, value, t.spare[cpu]).(spare := t.spare[cpu := t.buckets[b][i]])
  }

  lemma ReplaceKeepsLinked<Key(!new), Value(!new)>(index: Key -> nat, t: Table<Key, Value>, i: nat, key: Key,
      value: Value, x: nat)
    requires Linked(index, t) && Found(index, t, index(key), i, key) && forall k :: k in t.at ==> t.at[k] != x
    ensures Linked(index, Link(Unlink(t, index(key), i, key), index(key), key, value, x))
    ensures Denotes(Link(Unlink(t, index(key), i, key), index(key), key, value, x)) == Denotes(t)[key := value]
  {
    var mid := Unlink(t, index(key), i, key);
    UnlinkKeepsLinked(index, t, i, key);
    LinkKeepsLinked(index, mid, key, value, x);
    LinkDenotes(mid, index(key), key, value, x);
    UnlinkDenotes(t, index(key), i, key);
    PutBack(Denotes(t), key, value);
  }

  lemma ReplaceOk<Key(!new), Value(!new)>(index: Key -> nat, t: Table<Key, Value>, maxEntries: nat, i: nat, key: Key,
      value: Value, cpu: nat)
    requires Ok(index, t, maxEntries) && Found(index, t, index(key), i, key) && cpu < |t.spare|
    ensures Ok(index, Replaced(t, index(key), i, key, value, cpu), maxEntries)
    ensures Denotes(Replaced(t, index(key), i, key, value, cpu)) == Denotes(t)[key := value]
  {
    var u := Replaced(t, index(key), i, key, value, cpu);
    PutBack(t.at, key, t.spare[cpu]);
    DistinctElements(index, t, key);
    SwapKeepsDisjoint(t, u, key, cpu);
    ReplaceKeepsLinked(index, t, i, key, value, t.spare[cpu]);
    UnchangedLinks(index, Link(Unlink(t, index(key), i, key), index(key), key, value, t.spare[cpu]), u);
    assert u.at.Keys == t.at.Keys;
  }

  lemma SwapKeepsDisjoint<Key(!new), Value(!new)>(t: Table<Key, Value>, u: Table<Key, Value>, key: Key, cpu: nat)
    requires Disjoint(t) && key in t.at && cpu < |t.spare|
    requires forall k :: k in t.at && k != key ==> t.at[k] != t.at[key]
    requires u.free == t.free && u.spare == t.spare[cpu := t.at[key]] && u.at == t.at[key := t.spare[cpu]]
    ensures Disjoint(u) && forall k :: k in t.at ==> t.at[k] != t.spare[cpu]
  {
  }
}
