/** The order in which get_next_key walks the hash map. */
module HashMapWalk {
  import opened Collections
  import opened HashMap

  ghost predicate AllKeyed<Key(!new), Value(!new)>(t: Table<Key, Value>) {
    forall b, x :: 0 <= b < |t.buckets| && x in t.buckets[b] ==> x in t.keys
  }

  ghost function KeysIn<Key(!new)>(keys: map<nat, Key>, list: seq<nat>): seq<Key>
    requires forall x :: x in list ==> x in keys
  {
    seq(|list|, i requires 0 <= i < |list| => keys[list[i]])
  }

  /** The stored keys from bucket b on: bucket by bucket, each in list order. */
  ghost function OrderFrom<Key(!new), Value(!new)>(t: Table<Key, Value>, b: nat): seq<Key>
    requires b <= |t.buckets| && AllKeyed(t)
    decreases |t.buckets| - b
  {
    if b == |t.buckets| then [] else KeysIn(t.keys, t.buckets[b]) + OrderFrom(t, b + 1)
  }

  lemma LinkedKeyed<Key(!new), Value(!new)>(index: Key -> nat, t: Table<Key, Value>)
    requires Linked(index, t)
    ensures AllKeyed(t)
  {
    forall b, x | 0 <= b < |t.buckets| && x in t.buckets[b]
      ensures x in t.keys
    {
      assert BucketOk(index, t, b);
    }
  }

  /** From bucket b on come exactly the stored keys of buckets b and later, each once. */
  lemma {:induction false} OrderExact<Key(!new), Value(!new)>(index: Key -> nat, t: Table<Key, Value>, b: nat)
    requires Linked(index, t) && AllKeyed(t) && b <= |t.buckets|
    ensures forall k :: k in OrderFrom(t, b) <==> k in t.at && index(k) >= b
    ensures Distinct(OrderFrom(t, b))
    decreases |t.buckets| - b
  {
    if b == |t.buckets| {
      forall k | k in t.at
        ensures index(k) < b
      {
        assert KeyOk(index, t, k);
      }
    } else {
      OrderExact(index, t, b + 1);
      BucketKeys(index, t, b);
      JoinDistinct(KeysIn(t.keys, t.buckets[b]), OrderFrom(t, b + 1));
    }
  }

  lemma BucketKeys<Key(!new), Value(!new)>(index: Key -> nat, t: Table<Key, Value>, b: nat)
    requires Linked(index, t) && AllKeyed(t) && b < |t.buckets|
    ensures forall k :: k in KeysIn(t.keys, t.buckets[b]) <==> k in t.at && index(k) == b
    ensures Distinct(KeysIn(t.keys, t.buckets[b]))
  {
    var list := t.buckets[b];
    var ks := KeysIn(t.keys, list);
    assert BucketOk(index, t, b);
    forall k | k in t.at && index(k) == b
      ensures k in ks
    {
      assert KeyOk(index, t, k);
      var i :| 0 <= i < |list| && list[i] == t.at[k];
      assert ks[i] == k;
    }
    forall i, j | 0 <= i < j < |ks|
      ensures ks[i] != ks[j]
    {
      assert t.at[ks[i]] == list[i] && t.at[ks[j]] == list[j];
    }
  }

  lemma JoinDistinct<T(!new)>(s: seq<T>, r: seq<T>)
    requires Distinct(s) && Distinct(r) && forall x :: x in s ==> x !in r
    ensures Distinct(s + r)
  {
    forall i, j | 0 <= i < j < |s + r|
      ensures (s + r)[i] != (s + r)[j]
    {
      if i < |s| <= j {
        assert s[i] in s && r[j - |s|] in r;
      }
    }
  }

  /** The keys of the buckets before b come first. */
  lemma {:induction false} OrderSplit<Key(!new), Value(!new)>(t: Table<Key, Value>, b: nat) returns (before: seq<Key>)
    requires AllKeyed(t) && b <= |t.buckets|
    ensures OrderFrom(t, 0) == before + OrderFrom(t, b)
  {
    if b == 0 {
      before := [];
    } else {
      var pre := OrderSplit(t, b - 1);
      before := pre + KeysIn(t.keys, t.buckets[b - 1]);
    }
  }

  // ------------------------------------------------------------------- the walk

  /** The key after the given one; the first one after no key or one that is absent. */
  function NextOf<Key(==)>(order: seq<Key>, key: Option<Key>): Option<Key> {
    var i := if key.Some? && key.value in order then IndexOf(order, key.value) + 1 else 0;
    if i < |order| then Some(order[i]) else None
  }

  /** The result of the n-th call of a walk that starts without a key. */
  function Walk<Key(==)>(order: seq<Key>, n: nat): Option<Key> {
    if n == 0 then None else NextOf(order, Walk(order, n - 1))
  }

  /** Call n returns the n-th key of the order, and the call after the last key returns none. */
  lemma {:induction false} WalkYieldsAll<Key(!new)>(order: seq<Key>, n: nat)
    requires Distinct(order) && n <= |order|
    ensures n > 0 ==> Walk(order, n) == Some(order[n - 1])
    ensures n == |order| ==> Walk(order, n + 1) == None
  {
    if n > 0 {
      WalkYieldsAll(order, n - 1);
      assert n > 1 ==> IndexOf(order, order[n - 2]) == n - 2;
      assert IndexOf(order, order[n - 1]) == n - 1;
    }
  }

  function First<T>(s: seq<T>): Option<T> {
    if s == [] then None else Some(s[0])
  }

  lemma IndexOfOnly<T(!new)>(s: seq<T>, j: nat)
    requires Distinct(s) && j < |s|
    ensures IndexOf(s, s[j]) == j
  {
  }

  lemma NextAt<Key(!new)>(order: seq<Key>, n: nat)
    requires Distinct(order) && n < |order|
    ensures NextOf(order, Some(order[n])) == if n + 1 < |order| then Some(order[n + 1]) else None
  {
    IndexOfOnly(order, n);
  }

  lemma NextInJoin<Key(!new)>(before: seq<Key>, here: seq<Key>, after: seq<Key>, i: nat)
    requires Distinct(before + (here + after)) && i < |here|
    ensures NextOf(before + (here + after), Some(here[i])) == if i + 1 < |here| then Some(here[i + 1]) else First(after)
  {
    assert (before + (here + after))[|before| + i] == here[i];
    IndexOfOnly(before + (here + after), |before| + i);
  }

  /** What follows the i-th element of its bucket: the rest of the bucket, then the later buckets. */
  lemma OrderAfter<Key(!new), Value(!new)>(index: Key -> nat, t: Table<Key, Value>, i: nat, key: Key)
    requires Linked(index, t) && AllKeyed(t) && Found(index, t, index(key), i, key)
    ensures var list := t.buckets[index(key)];
      NextOf(OrderFrom(t, 0), Some(key))
        == if i + 1 < |list| then Some(t.keys[list[i + 1]]) else First(OrderFrom(t, index(key) + 1))
  {
    OrderExact(index, t, 0);
    var here := KeysIn(t.keys, t.buckets[index(key)]);
    var before := OrderSplit(t, index(key));
    assert OrderFrom(t, index(key)) == here + OrderFrom(t, index(key) + 1);
    assert here[i] == key;
    NextInJoin(before, here, OrderFrom(t, index(key) + 1), i);
  }
}
