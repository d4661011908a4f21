/**
The operations of ebpf_map_hashtable.c on the map's own fields, each proved to
do to the finite map `Contents()` what it promises.
*/
module HashMapOps {
  import opened Allocator
  import opened Collections
  import opened HashMap
  import opened HashMapWalk
  import Bits

  datatype Error = OK | EEXIST | ENOENT | EBUSY

  const NOEXIST: bv64 := 1
  const EXIST: bv64 := 2

  predicate NoExistBit(flags: bv64) { flags & NOEXIST != 0 }

  predicate ExistBit(flags: bv64) { flags & EXIST != 0 }

  /** get_hash_bucket, for a 32-bit hash; with no bucket the mask has all bits set. */
  function Slot(hash: nat, nbuckets: nat): nat {
    if nbuckets == 0 then hash else Bits.And(hash, nbuckets - 1)
  }

  /** The bucket of each key. */
  function SlotOf<Key>(hash: Key -> nat, nbuckets: nat): Key -> nat {
    key => Slot(hash(key), nbuckets)
  }

  /** With a power of two of buckets, masking is modulo. */
  lemma SlotIsModulo<Key(!new)>(hash: Key -> nat, k: nat)
    ensures forall key :: Slot(hash(key), Bits.Pow2(k)) == hash(key) % Bits.Pow2(k)
  {
    forall key
      ensures Slot(hash(key), Bits.Pow2(k)) == hash(key) % Bits.Pow2(k)
    {
      Bits.MaskIsModulo(hash(key), k);
    }
  }

  lemma EmptyLinked<Key(!new), Value(!new)>(index: Key -> nat, t: Table<Key, Value>)
    requires t.at == map[] && forall b :: 0 <= b < |t.buckets| ==> t.buckets[b] == []
    ensures Linked(index, t) && Denotes(t) == map[]
  {
  }

  /** The slot of a power of two of buckets; `buckets` is zero when it does not fit in 32 bits. */
  lemma SlotsAre<Key(!new)>(hash: Key -> nat, n: nat, buckets: nat)
    requires n >= 1 && buckets == if n <= 0x8000_0000 then Bits.Pow2(Bits.CeilLog2(n)) else 0
    ensures buckets > 0 <==> n <= 0x8000_0000
    ensures buckets > 0 ==>
      forall key :: SlotOf(hash, buckets)(key) == hash(key) % buckets && SlotOf(hash, buckets)(key) < buckets
  {
    SlotIsModulo(hash, Bits.CeilLog2(n));
  }

  class HashTable<Key(==, !new), Value(!new)> {
    const maxEntries: nat
    const ncpus: nat
    const nbuckets: nat
    const hash: Key -> nat
    const pool: BlockAllocator
    ghost const index: Key -> nat

    var keys: map<nat, Key>
    var values: map<nat, Value>
    var buckets: seq<seq<nat>>
    var spare: seq<nat>
    ghost var at: map<Key, nat>

    ghost function State(): Table<Key, Value>
      reads this, pool
    {
      Table(keys, values, buckets, spare, pool.free, at)
    }

    ghost predicate Valid()
      reads this, pool
    {
      && nbuckets > 0 && |buckets| == nbuckets && |spare| == ncpus
      && index == SlotOf(hash, nbuckets) && (forall k :: index(k) < nbuckets)
      && pool.Valid() && pool.nblocks == maxEntries + ncpus
      && Ok(index, State(), maxEntries)
    }

    /** The finite map that the hash map stands for. */
    ghost function Contents(): map<Key, Value>
      reads this, pool
    {
      Denotes(State())
    }

    /**
    hashtable_map_init. The element size covers the list link, key and value,
    rounded up; calloc and pageSize are the platform's. For more than 2^31 entries
    the rounding gives no bucket at all, and the map is unusable. When the sum of
    entries and CPUs wraps, the pool has too few elements and the source's assertion
    on the spare elements fails: `spare` then ends early.
    */
    constructor (maxEntries: nat, ncpus: nat, hash: Key -> nat, elemSize: nat, calloc: nat -> nat, pageSize: nat)
      requires 1 <= maxEntries < LIMIT && ncpus < 0x1_0000
      requires HEADER <= elemSize < LIMIT && pageSize < LIMIT
      requires Separate(calloc, SegmentSize(pageSize, elemSize))
      ensures Fits(elemSize) ==> (Valid() <==> maxEntries <= 0x8000_0000)
      ensures Contents() == map[] && fresh(pool)
      ensures |spare| == ncpus <==> maxEntries + ncpus < LIMIT
      ensures this.maxEntries == maxEntries && this.ncpus == ncpus && this.hash == hash
      ensures nbuckets == if maxEntries <= 0x8000_0000 then Bits.Pow2(Bits.CeilLog2(maxEntries)) else 0
      ensures nbuckets > 0 ==> forall k :: index(k) == hash(k) % nbuckets
    {
      var n := Bits.RoundUp(maxEntries);
      SlotsAre(hash, maxEntries, n);
      this.maxEntries, this.ncpus, this.nbuckets, this.hash := maxEntries, ncpus, n, hash;
      pool := new BlockAllocator(elemSize, (maxEntries + ncpus) % LIMIT, calloc, pageSize);
      keys, values, buckets, spare, at := map[], map[], seq(n, _ => []), [], map[];
      index := SlotOf(hash, n);
      new;
      assert maxEntries + ncpus < LIMIT ==> (maxEntries + ncpus) % LIMIT == maxEntries + ncpus;
      Reserve();
      EmptyLinked(index, State());
    }

    /** Set one element aside for each CPU; the source asserts that each allocation succeeds. */
    method Reserve()
      requires at == map[] && spare == [] && maxEntries >= 1
      requires pool.count == pool.nblocks == (maxEntries + ncpus) % LIMIT && maxEntries < LIMIT && ncpus < 0x1_0000
      requires pool.nblocks > 0 ==> |pool.free| == pool.nblocks
      modifies this`spare, pool
      ensures |spare| == ncpus <==> maxEntries + ncpus < LIMIT
      ensures maxEntries + ncpus < LIMIT ==> pool.Valid() && |pool.free| == maxEntries
      ensures old(Distinct(pool.free)) ==> Disjoint(State())
    {
      var i := 0;
      while i < ncpus
        invariant i <= ncpus && |spare| == i && pool.count + i == pool.nblocks && pool.count <= |pool.free|
        invariant pool.nblocks > 0 ==> pool.Valid()
        invariant old(Distinct(pool.free)) ==> Disjoint(State())
      {
        ghost var free := pool.free;
        var r := pool.Alloc();
        if r.None? {
          return;
        }
        assert free == [r.value] + pool.free;
        assert old(Distinct(pool.free)) ==> r.value !in spare;
        spare := spare + [r.value];
        i := i + 1;
      }
    }

    /** get_hash_elem: the position of the key's element in its bucket. */
    method Find(key: Key) returns (b: nat, i: nat)
      requires Valid()
      ensures b == index(key) < nbuckets && i <= |buckets[b]|
      ensures i < |buckets[b]| <==> key in Contents()
      ensures i < |buckets[b]| ==> Found(index, State(), b, i, key)
    {
      ghost var t := State();
      SameKeys(index, t);
      b := Slot(hash(key), nbuckets);
      assert b == index(key);
      i := 0;
      var list := buckets[b];
      assert BucketOk(index, t, b);
      assert key in at ==> KeyOk(index, t, key);
      while i < |list|
        invariant i <= |list| && forall j :: 0 <= j < i ==> keys[list[j]] != key
      {
        if keys[list[i]] == key {
          return;
        }
        i := i + 1;
      }
    }

    /** hashtable_map_lookup_elem. */
    method Lookup(key: Key) returns (r: Option<Value>)
      requires Valid()
      ensures r == if key in Contents() then Some(Contents()[key]) else None
    {
      var b, i := Find(key);
      if i < |buckets[b]| {
        r := Some(values[buckets[b][i]]);
      } else {
        r := None;
      }
    }

    /** hashtable_map_update_elem, running on the given CPU. */
    method Update(key: Key, value: Value, flags: bv64, cpu: nat) returns (e: Error)
      requires Valid() && cpu < ncpus
      modifies this`keys, this`values, this`buckets, this`spare, this`at, pool
      ensures Valid()
      ensures e == if key in old(Contents()) then (if NoExistBit(flags) then EEXIST else OK)
                   else if ExistBit(flags) then ENOENT
                   else if |old(Contents())| == maxEntries then EBUSY
                   else OK
      ensures Contents() == if e == OK then old(Contents())[key := value] else old(Contents())
    {
      var b, i := Find(key);
      e := OK;
      if i < |buckets[b]| {
        if NoExistBit(flags) {
          return EEXIST;
        }
        Replace(key, value, cpu, b, i);
      } else {
        if ExistBit(flags) {
          return ENOENT;
        }
        e := Insert(key, value, b);
      }
    }

    /** A new key: an element from the pool goes to the head of the bucket. */
    method Insert(key: Key, value: Value, b: nat) returns (e: Error)
      requires Valid() && key !in Contents() && b == index(key)
      modifies this`keys, this`values, this`buckets, this`at, pool
      ensures Valid()
      ensures e == if |old(Contents())| == maxEntries then EBUSY else OK
      ensures Contents() == if e == OK then old(Contents())[key := value] else old(Contents())
    {
      SameKeys(index, State());
      if pool.free != [] {
        InsertOk(index, State(), maxEntries, key, value);
      }
      e := TakeAndLink(key, value, b);
    }

    method TakeAndLink(key: Key, value: Value, b: nat) returns (e: Error)
      requires b < |buckets| && pool.Valid()
      modifies this`keys, this`values, this`buckets, this`at, pool
      ensures pool.Valid() && e == if old(pool.free) == [] then EBUSY else OK
      ensures State() == if e == OK then Inserted(old(State()), b, key, value) else old(State())
    {
      var r := pool.Alloc();
      if r.None? {
        return EBUSY;
      }
      e := OK;
      var x := r.value;
      keys, values := keys[x := key], values[x := value];
      buckets := buckets[b := [x] + buckets[b]];
      at := at[key := x];
    }

    /** A stored key: an element from the CPU's spare slot replaces the old one. */
    method Replace(key: Key, value: Value, cpu: nat, b: nat, i: nat)
      requires Valid() && cpu < ncpus && Found(index, State(), b, i, key)
      modifies this`keys, this`values, this`buckets, this`spare, this`at
      ensures Valid() && Contents() == old(Contents())[key := value]
    {
      ReplaceOk(index, State(), maxEntries, i, key, value, cpu);
      SwapAndLink(key, value, cpu, b, i);
    }

    /** get_extra_elem: take the CPU's spare element and leave the given one. */
    method SwapSpare(cpu: nat, x: nat) returns (taken: nat)
      requires cpu < |spare|
      modifies this`spare
      ensures taken == old(spare)[cpu] && spare == old(spare)[cpu := x]
    {
      taken := spare[cpu];
      spare := spare[cpu := x];
    }

    /** Swap in the spare element, link it at the head, then unlink the old one behind it. */
    method SwapAndLink(key: Key, value: Value, cpu: nat, b: nat, i: nat)
      requires b < |buckets| && i < |buckets[b]| && cpu < |spare|
      modifies this`keys, this`values, this`buckets, this`spare, this`at
      ensures State() == Replaced(old(State()), b, i, key, value, cpu)
    {
      var list := buckets[b];
      var x := SwapSpare(cpu, list[i]);
      keys, values := keys[x := key], values[x := value];
      buckets := buckets[b := [x] + list];
      buckets := buckets[b := Without(buckets[b], i + 1)];
      at := (at - {key})[key := x];
      HeadThenWithout(old(buckets), b, i, x);
    }

    /** hashtable_map_delete_elem; it returns 0 whether or not the key was stored. */
    method Delete(key: Key)
      requires Valid()
      modifies this`buckets, this`at, pool
      ensures Valid()
      ensures Contents() == old(Contents()) - {key}
    {
      var b, i := Find(key);
      if i < |buckets[b]| {
        Remove(key, b, i);
      }
    }

    /** Unlink the key's element and return it to the pool. */
    method Remove(key: Key, b: nat, i: nat)
      requires Valid() && Found(index, State(), b, i, key)
      modifies this`buckets, this`at, pool
      ensures Valid() && Contents() == old(Contents()) - {key}
      ensures buckets == old(buckets)[b := Without(old(buckets)[b], i)]
    {
      RemoveOk(index, State(), maxEntries, i, key);
      UnlinkAndFree(key, b, i);
    }

    method UnlinkAndFree(ghost key: Key, b: nat, i: nat)
      requires b < |buckets| && i < |buckets[b]| && pool.Valid()
      modifies this`buckets, this`at, pool
      ensures pool.Valid() && State() == Removed(old(State()), b, i, key)
    {
      var x := buckets[b][i];
      buckets := buckets[b := Without(buckets[b], i)];
      at := at - {key};
      pool.Free(x);
    }

    /** The stored keys in the order of the walk. */
    ghost function Order(): seq<Key>
      requires Valid()
      reads this, pool
    {
      LinkedKeyed(index, State());
      OrderFrom(State(), 0)
    }

    /** The walk visits every stored key exactly once. */
    lemma OrderIsContents()
      requires Valid()
      ensures Distinct(Order()) && forall k :: k in Order() <==> k in Contents()
    {
      LinkedKeyed(index, State());
      OrderExact(index, State(), 0);
      SameKeys(index, State());
    }

    /** hashtable_map_get_next_key; None stands for ENOENT. */
    method GetNextKey(key: Option<Key>) returns (next: Option<Key>)
      requires Valid()
      ensures next == NextOf(Order(), key)
    {
      LinkedKeyed(index, State());
      var start := 0;
      if key.Some? {
        var b, i := Find(key.value);
        if i < |buckets[b]| {
          OrderAfter(index, State(), i, key.value);
          if i + 1 < |buckets[b]| {
            return Some(keys[buckets[b][i + 1]]);
          }
          start := b + 1;
        } else {
          OrderIsContents();
        }
      }
      next := FirstFrom(start);
    }

    /** One step of a walk, from the n-th key. */
    method Advance(key: Key, ghost order: seq<Key>, ghost n: nat) returns (next: Option<Key>)
      requires Valid() && order == Order() && n < |order| && key == order[n]
      ensures next == First(order[n + 1..])
    {
      OrderIsContents();
      NextAt(order, n);
      next := GetNextKey(Some(key));
    }

    /** A walk: ask for the first key, then for the one after the last answer, until there is none. */
    method AllKeys() returns (all: seq<Key>)
      requires Valid()
      ensures all == Order()
    {
      ghost var order := Order();
      all := [];
      var next := GetNextKey(None);
      while next.Some?
        invariant |all| <= |order| && all == order[..|all|] && next == First(order[|all|..])
        decreases |order| - |all|
      {
        all := all + [next.value];
        next := Advance(next.value, order, |all| - 1);
      }
    }

    /** The first key from bucket `start` on. */
    method FirstFrom(start: nat) returns (next: Option<Key>)
      requires Valid() && start <= nbuckets && AllKeyed(State())
      ensures next == First(OrderFrom(State(), start))
    {
      var b := start;
      while b < nbuckets
        invariant start <= b <= nbuckets && OrderFrom(State(), b) == OrderFrom(State(), start)
      {
        if buckets[b] != [] {
          return Some(keys[buckets[b][0]]);
        }
        b := b + 1;
      }
      next := None;
    }

    /**
    hashtable_map_deinit: every element goes back to the pool, so the pool's own
    check that nothing is missing passes.
    */
    method Deinit()
      requires Valid()
      modifies this`buckets, this`at, pool
      ensures pool.count == pool.nblocks && at == map[]
    {
      var i := 0;
      while i < ncpus
        invariant i <= ncpus && pool.Valid() && |pool.free| == old(|pool.free|) + i
        invariant buckets == old(buckets) && at == old(at)
      {
        pool.Free(spare[i]);
        i := i + 1;
      }
      UnchangedLinks(index, old(State()), State());
      Drain();
      pool.Deinit();
    }

    /** Unlink and free the first element of each bucket until all are empty. */
    method Drain()
      requires Linked(index, State()) && |buckets| == nbuckets && pool.Valid()
      requires |pool.free| + |at| == pool.nblocks
      modifies this`buckets, this`at, pool
      ensures pool.Valid() && |pool.free| == pool.nblocks && at == map[]
    {
      var b := 0;
      while b < nbuckets
        invariant b <= |buckets| == nbuckets && Linked(index, State()) && pool.Valid()
        invariant |pool.free| + |at| == pool.nblocks
        invariant forall c :: 0 <= c < b ==> buckets[c] == []
      {
        DrainBucket(b);
        b := b + 1;
      }
      NothingLinked(index, State());
    }

    method DrainBucket(b: nat)
      requires Linked(index, State()) && b < |buckets| && pool.Valid()
      modifies this`buckets, this`at, pool
      ensures Linked(index, State()) && pool.Valid() && buckets == old(buckets)[b := []]
      ensures |pool.free| + |at| == old(|pool.free| + |at|)
    {
      while buckets[b] != []
        invariant Linked(index, State()) && pool.Valid()
        invariant |buckets| == old(|buckets|) && buckets == old(buckets)[b := buckets[b]]
        invariant |pool.free| + |at| == old(|pool.free| + |at|)
        decreases |buckets[b]|
      {
        DropFirst(b);
      }
    }

    method DropFirst(b: nat)
      requires Linked(index, State()) && b < |buckets| && buckets[b] != [] && pool.Valid()
      modifies this`buckets, this`at, pool
      ensures Linked(index, State()) && pool.Valid()
      ensures buckets == old(buckets)[b := old(buckets)[b][1..]]
      ensures |pool.free| == old(|pool.free|) + 1 && |at| == old(|at|) - 1
    {
      assert BucketOk(index, State(), b);
      ghost var key := keys[buckets[b][0]];
      UnlinkKeepsLinked(index, State(), 0, key);
      UnchangedLinks(index, Unlink(State(), b, 0, key), Removed(State(), b, 0, key));
      assert Without(buckets[b], 0) == buckets[b][1..];
      assert (at - {key}).Keys == at.Keys - {key};
      UnlinkAndFree(key, b, 0);
    }
  }
}
