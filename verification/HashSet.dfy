/**
ck_hs: an open-addressing hash set of objects that are identified by a key. A
bound per home slot, one byte each, says how far a probe must look for the keys
of that home. Removal leaves a tombstone; a replacement may move to an earlier
slot.

This module holds a table as a value and what each change of it keeps, for any
probe sequence; HashSetProbe has ck_hs's own sequence, HashSetOps the operations.
*/
module HashSet {
  import opened Collections

  const BYTE_MAX: nat := 255      // CK_HS_WORD_MAX

  datatype Slot<T> = Empty | Tombstone | Full(obj: T)

  datatype Table<Key, T> = Table(
    entries: seq<Slot<T>>,
    limit: nat,           // probe_limit
    maximum: nat,         // probe_maximum
    bounds: seq<nat>,     // probe_bound; empty without CK_HS_MODE_DELETE
    count: nat,           // n_entries
    at: map<Key, nat>     // the position of each stored key in its probe sequence
  )

  /** The key of an object, and the slot at each position of a key's probe sequence. */
  datatype Probing<!Key, !T> = Probing(keyOf: T -> Key, slot: (Key, nat) -> nat)

  // ------------------------------------------------------------------ probe bounds

  /** ck_hs_map_bound_get, for the home slot. */
  function BoundGet<Key, T>(t: Table<Key, T>, home: nat): nat {
    if home < |t.bounds| && t.bounds[home] != BYTE_MAX then t.bounds[home] else t.maximum
  }

  /** ck_hs_map_bound_set. */
  function BoundSet<Key, T>(t: Table<Key, T>, home: nat, n: nat): Table<Key, T> {
    t.(maximum := if n > t.maximum then n else t.maximum,
       bounds := if home < |t.bounds| && t.bounds[home] < n
                 then t.bounds[home := if n > BYTE_MAX then BYTE_MAX else n] else t.bounds)
  }

  ghost predicate BoundsOk<Key(!new), T(!new)>(t: Table<Key, T>) {
    && t.maximum <= t.limit && (t.bounds == [] || |t.bounds| == |t.entries|)
    && forall i :: 0 <= i < |t.bounds| ==> t.bounds[i] <= t.maximum && t.bounds[i] <= BYTE_MAX
  }

  /** A saturated byte falls back on the maximum, which is never too small. */
  lemma BoundSetCovers<Key(!new), T(!new)>(t: Table<Key, T>, home: nat, n: nat, other: nat)
    requires BoundsOk(t) && n <= t.limit
    ensures BoundsOk(BoundSet(t, home, n))
    ensures BoundGet(BoundSet(t, home, n), home) >= n
    ensures BoundGet(BoundSet(t, home, n), other) >= BoundGet(t, other)
  {
  }

  // ---------------------------------------------------------------- the invariant

  ghost predicate Fits<Key(!new), T(!new)>(f: Probing<Key, T>, t: Table<Key, T>) {
    forall k, p :: f.slot(k, p) < |t.entries|
  }

  /** No empty slot in the first p positions of the key's probe sequence. */
  ghost predicate NoEmptyBefore<Key(!new), T(!new)>(f: Probing<Key, T>, t: Table<Key, T>, k: Key, p: nat)
    requires Fits(f, t)
  {
    forall q: nat :: q < p ==> t.entries[f.slot(k, q)] != Empty
  }

  /** The key is found within its bound, with no empty slot on the way. */
  ghost predicate KeyOk<Key(!new), T(!new)>(f: Probing<Key, T>, t: Table<Key, T>, k: Key)
    requires Fits(f, t) && k in t.at
  {
    var e := t.entries[f.slot(k, t.at[k])];
    e.Full? && f.keyOf(e.obj) == k && t.at[k] < BoundGet(t, f.slot(k, 0)) && NoEmptyBefore(f, t, k, t.at[k])
  }

  /** A full slot is the slot of its key. */
  ghost predicate SlotOk<Key(!new), T(!new)>(f: Probing<Key, T>, t: Table<Key, T>, x: nat)
    requires x < |t.entries|
  {
    t.entries[x].Full? ==>
      f.keyOf(t.entries[x].obj) in t.at && f.slot(f.keyOf(t.entries[x].obj), t.at[f.keyOf(t.entries[x].obj)]) == x
  }

  ghost predicate Ok<Key(!new), T(!new)>(f: Probing<Key, T>, t: Table<Key, T>) {
    && Fits(f, t) && BoundsOk(t) && t.count == |t.at|
    && (forall k :: k in t.at ==> KeyOk(f, t, k))
    && (forall x: nat :: x < |t.entries| ==> SlotOk(f, t, x))
  }

  /** The object stored under each key. */
  ghost function Contents<Key(!new), T(!new)>(f: Probing<Key, T>, t: Table<Key, T>): map<Key, T>
    requires Fits(f, t)
  {
    map k | k in t.at && t.entries[f.slot(k, t.at[k])].Full? :: t.entries[f.slot(k, t.at[k])].obj
  }

  // ---------------------------------------------------------------------- changes

  /** The table changed at slot x only, and no slot became empty. */
  ghost predicate ChangedAt<Key(!new), T(!new)>(t: Table<Key, T>, u: Table<Key, T>, x: nat) {
    && x < |t.entries| == |u.entries| && u.entries == t.entries[x := u.entries[x]]
    && (u.entries[x] == Empty ==> t.entries[x] == Empty)
  }

  lemma NoEmptyKept<Key(!new), T(!new)>(f: Probing<Key, T>, t: Table<Key, T>, u: Table<Key, T>, x: nat, k: Key, p: nat)
    requires Fits(f, t) && Fits(f, u) && ChangedAt(t, u, x) && NoEmptyBefore(f, t, k, p)
    ensures NoEmptyBefore(f, u, k, p)
  {
  }

  /** A key whose slot is left alone stays in order when bounds grow and no slot becomes empty. */
  lemma KeyStaysOk<Key(!new), T(!new)>(f: Probing<Key, T>, t: Table<Key, T>, u: Table<Key, T>, x: nat, k: Key)
    requires Fits(f, t) && Fits(f, u) && ChangedAt(t, u, x)
    requires k in t.at && KeyOk(f, t, k) && f.slot(k, t.at[k]) != x && k in u.at && u.at[k] == t.at[k]
    requires BoundGet(u, f.slot(k, 0)) >= BoundGet(t, f.slot(k, 0))
    ensures KeyOk(f, u, k)
  {
  }

  /** The object goes into the slot, which is position p of its key's probe sequence. */
  function StoredAt<Key, T>(t: Table<Key, T>, home: nat, slot: nat, p: nat, key: Key, o: T): Table<Key, T>
    requires slot < |t.entries|
  {
    BoundSet(t, home, p + 1).(entries := t.entries[slot := Full(o)], at := t.at[key := p],
                              count := if key in t.at then t.count else t.count + 1)
  }

  function Stored<Key, T>(f: Probing<Key, T>, t: Table<Key, T>, p: nat, o: T): Table<Key, T>
    requires f.slot(f.keyOf(o), p) < |t.entries|
  {
    StoredAt(t, f.slot(f.keyOf(o), 0), f.slot(f.keyOf(o), p), p, f.keyOf(o), o)
  }

  /** Position p can take the object: it is free, within the limit, and no empty slot comes before it. */
  ghost predicate CanStore<Key(!new), T(!new)>(f: Probing<Key, T>, t: Table<Key, T>, p: nat, key: Key) {
    Fits(f, t) && p < t.limit && !t.entries[f.slot(key, p)].Full? && NoEmptyBefore(f, t, key, p)
  }

  lemma StoreKeepsKeys<Key(!new), T(!new)>(f: Probing<Key, T>, t: Table<Key, T>, p: nat, o: T, k: Key)
    requires Ok(f, t) && CanStore(f, t, p, f.keyOf(o)) && k in Stored(f, t, p, o).at
    ensures KeyOk(f, Stored(f, t, p, o), k)
  {
  }

  lemma StoreKeepsSlots<Key(!new), T(!new)>(f: Probing<Key, T>, t: Table<Key, T>, p: nat, o: T, y: nat)
    requires y < |t.entries| && SlotOk(f, t, y) && f.keyOf(o) !in t.at && f.slot(f.keyOf(o), p) < |t.entries|
    ensures SlotOk(f, Stored(f, t, p, o), y)
  {
  }

  lemma StoreDenotes<Key(!new), T(!new)>(f: Probing<Key, T>, t: Table<Key, T>, p: nat, o: T)
    requires Fits(f, t) && !t.entries[f.slot(f.keyOf(o), p)].Full?
    requires forall k :: k in t.at ==> t.entries[f.slot(k, t.at[k])].Full?
    ensures Fits(f, Stored(f, t, p, o)) && Contents(f, Stored(f, t, p, o)) == Contents(f, t)[f.keyOf(o) := o]
  {
  }

  lemma AllFull<Key(!new), T(!new)>(f: Probing<Key, T>, t: Table<Key, T>)
    requires Ok(f, t)
    ensures forall k :: k in t.at ==> t.entries[f.slot(k, t.at[k])].Full?
    ensures Contents(f, t).Keys == t.at.Keys && |Contents(f, t)| == t.count
  {
  }

  lemma StoreOk<Key(!new), T(!new)>(f: Probing<Key, T>, t: Table<Key, T>, p: nat, o: T)
    requires Ok(f, t) && f.keyOf(o) !in t.at && CanStore(f, t, p, f.keyOf(o))
    ensures Ok(f, Stored(f, t, p, o))
  {
    var u := Stored(f, t, p, o);
    BoundSetCovers(t, f.slot(f.keyOf(o), 0), p + 1, 0);
    forall k | k in u.at
      ensures KeyOk(f, u, k)
    {
      StoreKeepsKeys(f, t, p, o, k);
    }
    forall y: nat | y < |u.entries|
      ensures SlotOk(f, u, y)
    {
      StoreKeepsSlots(f, t, p, o, y);
    }
    assert u.at.Keys == t.at.Keys + {f.keyOf(o)};
  }

  lemma StoreContents<Key(!new), T(!new)>(f: Probing<Key, T>, t: Table<Key, T>, p: nat, o: T)
    requires Ok(f, t) && CanStore(f, t, p, f.keyOf(o))
    ensures Fits(f, Stored(f, t, p, o)) && Contents(f, Stored(f, t, p, o)) == Contents(f, t)[f.keyOf(o) := o]
  {
    AllFull(f, t);
    StoreDenotes(f, t, p, o);
  }

  /** The key's object gives way to a tombstone. */
  function Removed<Key, T>(f: Probing<Key, T>, t: Table<Key, T>, key: Key): Table<Key, T>
    requires key in t.at && f.slot(key, t.at[key]) < |t.entries| && t.count > 0
  {
    t.(entries := t.entries[f.slot(key, t.at[key]) := Tombstone], at := t.at - {key}, count := t.count - 1)
  }

  lemma RemoveOk<Key(!new), T(!new)>(f: Probing<Key, T>, t: Table<Key, T>, key: Key)
    requires Ok(f, t) && key in t.at
    ensures t.count > 0 && Ok(f, Removed(f, t, key))
  {
    assert (t.at - {key}).Keys == t.at.Keys - {key};
    assert key in t.at.Keys;
    var u, x := Removed(f, t, key), f.slot(key, t.at[key]);
    assert KeyOk(f, t, key);
    forall k | k in u.at
      ensures KeyOk(f, u, k)
    {
      assert KeyOk(f, t, k);
      KeyStaysOk(f, t, u, x, k);
    }
    forall y: nat | y < |u.entries|
      ensures SlotOk(f, u, y)
    {
      assert SlotOk(f, t, y);
    }
  }

  lemma RemoveContents<Key(!new), T(!new)>(f: Probing<Key, T>, t: Table<Key, T>, key: Key)
    requires Ok(f, t) && key in t.at && t.count > 0
    ensures Fits(f, Removed(f, t, key)) && Contents(f, Removed(f, t, key)) == Contents(f, t) - {key}
  {
    assert KeyOk(f, t, key);
    var c, d := Contents(f, t) - {key}, Contents(f, Removed(f, t, key));
    forall k | k in t.at && k != key
      ensures k in c && k in d && c[k] == d[k]
    {
      assert KeyOk(f, t, k);
    }
    assert c.Keys == d.Keys;
  }

  /** Another object of the same key takes the slot. */
  function Replaced<Key, T>(f: Probing<Key, T>, t: Table<Key, T>, o: T): Table<Key, T>
    requires f.keyOf(o) in t.at && f.slot(f.keyOf(o), t.at[f.keyOf(o)]) < |t.entries|
  {
    t.(entries := t.entries[f.slot(f.keyOf(o), t.at[f.keyOf(o)]) := Full(o)])
  }

  lemma ReplaceOk<Key(!new), T(!new)>(f: Probing<Key, T>, t: Table<Key, T>, o: T)
    requires Ok(f, t) && f.keyOf(o) in t.at
    ensures Ok(f, Replaced(f, t, o))
  {
    var key := f.keyOf(o);
    var u, x := Replaced(f, t, o), f.slot(key, t.at[key]);
    assert KeyOk(f, t, key);
    forall k | k in u.at
      ensures KeyOk(f, u, k)
    {
      assert KeyOk(f, t, k);
      NoEmptyKept(f, t, u, x, k, t.at[k]);
    }
    forall y: nat | y < |u.entries|
      ensures SlotOk(f, u, y)
    {
      assert SlotOk(f, t, y);
    }
  }

  lemma ReplaceContents<Key(!new), T(!new)>(f: Probing<Key, T>, t: Table<Key, T>, o: T)
    requires Ok(f, t) && f.keyOf(o) in t.at
    ensures Fits(f, Replaced(f, t, o)) && Contents(f, Replaced(f, t, o)) == Contents(f, t)[f.keyOf(o) := o]
  {
  }

  /** A bound that already covers n probes is left as it is. */
  lemma BoundAlready<Key(!new), T(!new)>(t: Table<Key, T>, home: nat, n: nat)
    requires BoundsOk(t) && n <= BoundGet(t, home)
    ensures BoundSet(t, home, n) == t
  {
  }

  lemma StillCanStore<Key(!new), T(!new)>(f: Probing<Key, T>, t: Table<Key, T>, p: nat, key: Key)
    requires Ok(f, t) && key in t.at && t.count > 0 && CanStore(f, t, p, key)
    ensures CanStore(f, Removed(f, t, key), p, key)
  {
  }

  /**
  Another object of a stored key goes into an earlier position, and the old slot
  becomes a tombstone: the same as removing the key and storing the object.
  */
  lemma MoveOk<Key(!new), T(!new)>(f: Probing<Key, T>, t: Table<Key, T>, p: nat, o: T)
    requires Ok(f, t) && f.keyOf(o) in t.at && CanStore(f, t, p, f.keyOf(o))
    ensures t.count > 0 && Ok(f, Stored(f, Removed(f, t, f.keyOf(o)), p, o))
  {
    RemoveOk(f, t, f.keyOf(o));
    StillCanStore(f, t, p, f.keyOf(o));
    StoreOk(f, Removed(f, t, f.keyOf(o)), p, o);
  }

  /** A move in one go; the bounds cover the earlier position already. */
  lemma MoveIs<Key(!new), T(!new)>(f: Probing<Key, T>, t: Table<Key, T>, p: nat, o: T)
    requires Ok(f, t) && f.keyOf(o) in t.at && CanStore(f, t, p, f.keyOf(o)) && t.count > 0 && p <= t.at[f.keyOf(o)]
    ensures var key := f.keyOf(o);
      Stored(f, Removed(f, t, key), p, o)
        == t.(entries := t.entries[f.slot(key, p) := Full(o)][f.slot(key, t.at[key]) := Tombstone],
              at := t.at[key := p])
  {
    var key := f.keyOf(o);
    assert KeyOk(f, t, key);
    BoundAlready(t, f.slot(key, 0), p + 1);
    PutBack(t.at, key, p);
    StoresCommute(t.entries, f.slot(key, p), f.slot(key, t.at[key]), Full(o), Tombstone);
  }

  lemma MoveContents<Key(!new), T(!new)>(f: Probing<Key, T>, t: Table<Key, T>, p: nat, o: T)
    requires Ok(f, t) && f.keyOf(o) in t.at && CanStore(f, t, p, f.keyOf(o)) && t.count > 0
    ensures var u := Stored(f, Removed(f, t, f.keyOf(o)), p, o);
      Fits(f, u) && Contents(f, u) == Contents(f, t)[f.keyOf(o) := o]
  {
    RemoveOk(f, t, f.keyOf(o));
    RemoveContents(f, t, f.keyOf(o));
    StillCanStore(f, t, p, f.keyOf(o));
    StoreContents(f, Removed(f, t, f.keyOf(o)), p, o);
    PutBack(Contents(f, t), f.keyOf(o), o);
  }
}
