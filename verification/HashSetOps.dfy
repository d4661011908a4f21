/**
The operations of ck_hs on a set of objects, each proved against the finite map
from keys to objects that the set stands for. There is one writer.
*/
module HashSetOps {
  import opened Collections
  import opened HashSet
  import opened HashSetProbe

  // ------------------------------------------------------------------- what a probe sees

  /** The first p positions hold neither an empty slot nor the key. */
  ghost predicate Passed<Key(!new), T(!new)>(f: Probing<Key, T>, t: Table<Key, T>, key: Key, p: nat)
    requires Fits(f, t)
  {
    forall q: nat :: q < p ==>
      && t.entries[f.slot(key, q)] != Empty
      && (t.entries[f.slot(key, q)].Full? ==> f.keyOf(t.entries[f.slot(key, q)].obj) != key)
  }

  lemma PassedMeans<Key(!new), T(!new)>(f: Probing<Key, T>, t: Table<Key, T>, key: Key, p: nat)
    requires Ok(f, t) && Passed(f, t, key, p)
    ensures NoEmptyBefore(f, t, key, p) && (key in t.at ==> t.at[key] >= p)
  {
  }

  lemma FoundAt<Key(!new), T(!new)>(f: Probing<Key, T>, t: Table<Key, T>, key: Key, p: nat)
    requires Ok(f, t) && Passed(f, t, key, p)
    requires t.entries[f.slot(key, p)].Full? && f.keyOf(t.entries[f.slot(key, p)].obj) == key
    ensures key in Contents(f, t) && Contents(f, t)[key] == t.entries[f.slot(key, p)].obj
    ensures f.slot(key, t.at[key]) == f.slot(key, p) && p <= t.at[key]
  {
    assert SlotOk(f, t, f.slot(key, p));
    PassedMeans(f, t, key, p);
  }

  /** A probe that ends at an empty slot, or beyond the bound, has not missed the key. */
  lemma AbsentAt<Key(!new), T(!new)>(f: Probing<Key, T>, t: Table<Key, T>, key: Key, p: nat)
    requires Ok(f, t) && Passed(f, t, key, p)
    requires t.entries[f.slot(key, p)] == Empty || p >= BoundGet(t, f.slot(key, 0))
    ensures key !in Contents(f, t)
  {
  }

  lemma BoundWithinLimit<Key(!new), T(!new)>(t: Table<Key, T>, home: nat)
    requires BoundsOk(t)
    ensures BoundGet(t, home) <= t.limit
  {
  }

  datatype Behavior = Default | StopAtTombstone | Insert

  /** A way to walk a probe sequence: cursors, the step between them, and the slot under each. */
  datatype Walk<!C> = Walk(start: C, step: C -> C, slotOf: C -> nat)

  /** The walk visits the key's probe sequence; `at` is its cursor at each position. */
  ghost predicate Visits<Key(!new), T(!new), C(!new)>(f: Probing<Key, T>, key: Key, w: Walk<C>, at: nat -> C) {
    && w.start == at(0)
    && (forall p: nat {:trigger w.step(at(p))} :: w.step(at(p)) == at(p + 1))
    && (forall p: nat {:trigger w.slotOf(at(p))} :: w.slotOf(at(p)) == f.slot(key, p))
  }

  function WalkOf(wide: Shift, cap: nat, h: nat): Walk<Cursor>
    requires cap > 0
  {
    Walk(Start(cap, h), c => Step(wide, cap, h, c), SlotOf)
  }

  lemma WalkVisits<Key(!new), T(!new)>(f: Probing<Key, T>, hash: Key -> nat, wide: Shift, cap: nat, key: Key)
      returns (at: nat -> Cursor)
    requires Follows(f, hash, wide, cap)
    ensures Visits(f, key, WalkOf(wide, cap, hash(key)), at)
  {
    at := (p: nat) => Reached(wide, cap, hash(key), p);
  }

  /**
  The loop of ck_hs_map_probe, which ends at position `end`. It reports the slot of
  the key's object, or else the empty slot that ended the probe; the first tombstone
  on the way; and the number of probes up to that tombstone or, without one, up to
  the slot.
  */
  method Scan<Key(==, !new), T(!new), C(!new)>(ghost f: Probing<Key, T>, w: Walk<C>, ghost at: nat -> C,
      keyOf: T -> Key, t: Table<Key, T>, home: nat, key: Key, limit0: nat, behavior: Behavior)
    returns (slot: Option<nat>, first: Option<nat>, found: Option<T>, n: nat, end: nat)
    requires Fits(f, t) && f.keyOf == keyOf && Visits(f, key, w, at) && BoundsOk(t) && home == f.slot(key, 0)
    requires limit0 == if behavior == Default then BoundGet(t, home) else t.limit
    ensures Passed(f, t, key, end)
    ensures found.Some? ==>
      slot == Some(f.slot(key, end)) && t.entries[slot.value] == Full(found.value) && keyOf(found.value) == key
    ensures found.None? && behavior != StopAtTombstone ==>
      t.entries[f.slot(key, end)] == Empty || end >= BoundGet(t, home)
    ensures first.Some? ==>
      1 <= n <= end + 1 && n <= t.limit && first.value == f.slot(key, n - 1) && t.entries[first.value] == Tombstone
    ensures first.None? && slot.Some? ==>
      n == end + 1 <= t.limit && slot.value == f.slot(key, end) && (found.None? ==> t.entries[slot.value] == Empty)
    ensures first.None? && slot.None? ==> Crammed(f, t, key, limit0)
  {
    ghost var bound := BoundGet(t, home);
    BoundWithinLimit(t, home);
    var c, probes := w.start, 0;
    slot, first, found, n := None, None, None, 0;
    var opl := limit0;
    var limit := if behavior == Insert then BoundGet(t, home) else limit0;
    while true
      invariant slot == None && found == None && probes <= limit <= opl <= t.limit
      invariant behavior != StopAtTombstone ==> bound <= opl && (limit == opl || limit == bound)
      invariant behavior == StopAtTombstone ==> limit == opl
      invariant c == at(probes)
      invariant Passed(f, t, key, probes)
      invariant first.Some? ==>
        1 <= n <= probes && first.value == f.slot(key, n - 1) && t.entries[first.value] == Tombstone
      invariant first.None? ==> Crammed(f, t, key, probes)
      decreases opl - probes
    {
      var cursor := w.slotOf(c);
      end := probes;
      if probes == limit {
        if limit == opl || first.Some? {
          return;
        }
        limit := opl;
      }
      probes := probes + 1;
      match t.entries[cursor] {
        case Empty =>
          slot := Some(cursor);
          n := if first.Some? then n else probes;
          return;
        case Tombstone =>
          if first.None? {
            first, n := Some(cursor), probes;
            if behavior == StopAtTombstone {
              slot := Some(cursor);
              return;
            }
          }
        case Full(o) =>
          if keyOf(o) == key {
            slot, found := Some(cursor), Some(o);
            n := if first.Some? then n else probes;
            return;
          }
      }
      c := w.step(c);
    }
  }

  // ------------------------------------------------------------------------- growing

  /** The inner loop of ck_hs_grow: the first empty slot within the limit. */
  method FindEmpty<Key(!new), T(!new), C(!new)>(ghost g: Probing<Key, T>, w: Walk<C>, ghost at: nat -> C,
      t: Table<Key, T>, ghost key: Key) returns (ok: bool, slot: nat, p: nat)
    requires Fits(g, t) && Visits(g, key, w, at)
    ensures if ok then CanStore(g, t, p, key) && slot == g.slot(key, p) else NoEmptyBefore(g, t, key, t.limit)
  {
    var c := w.start;
    p, slot := 0, 0;
    while p < t.limit
      invariant c == at(p) && p <= t.limit && NoEmptyBefore(g, t, key, p)
    {
      slot := w.slotOf(c);
      if t.entries[slot] == Empty {
        return true, slot, p;
      }
      p, c := p + 1, w.step(c);
    }
    ok := false;
  }

  /** The objects in the first n slots. */
  ghost function Part<Key(!new), T(!new)>(f: Probing<Key, T>, t: Table<Key, T>, n: nat): map<Key, T>
    requires Ok(f, t)
  {
    map k | k in Contents(f, t) && f.slot(k, t.at[k]) < n :: Contents(f, t)[k]
  }

  lemma PartStep<Key(!new), T(!new)>(f: Probing<Key, T>, t: Table<Key, T>, n: nat)
    requires Ok(f, t) && n < |t.entries|
    ensures var e := t.entries[n];
      if e.Full? then
        f.keyOf(e.obj) !in Part(f, t, n) && Part(f, t, n + 1) == Part(f, t, n)[f.keyOf(e.obj) := e.obj]
      else Part(f, t, n + 1) == Part(f, t, n)
  {
    assert SlotOk(f, t, n);
    forall k | k in Contents(f, t) && f.slot(k, t.at[k]) == n
      ensures t.entries[n].Full? && f.keyOf(t.entries[n].obj) == k
    {
      assert KeyOk(f, t, k);
    }
  }

  lemma PartAll<Key(!new), T(!new)>(f: Probing<Key, T>, t: Table<Key, T>)
    requires Ok(f, t)
    ensures Part(f, t, 0) == map[] && Part(f, t, |t.entries|) == Contents(f, t)
  {
  }

  /** No tombstones: a table that is being filled. */
  predicate Unburied<Key, T(!new)>(t: Table<Key, T>) {
    forall x :: 0 <= x < |t.entries| ==> !t.entries[x].Tombstone?
  }

  predicate SameShape<Key, T>(t: Table<Key, T>, u: Table<Key, T>) {
    |u.entries| == |t.entries| && u.limit == t.limit
  }

  /** Place one object in the new table, unless every slot within its limit is taken. */
  method Place<Key(==, !new), T(!new)>(ghost g: Probing<Key, T>, keyOf: T -> Key, hash: Key -> nat, wide: Shift,
      t: Table<Key, T>, o: T) returns (ok: bool, r: Table<Key, T>)
    requires Ok(g, t) && g.keyOf == keyOf && Follows(g, hash, wide, |t.entries|) && keyOf(o) !in t.at
    requires Unburied(t)
    ensures ok ==> Ok(g, r) && Contents(g, r) == Contents(g, t)[keyOf(o) := o] && SameShape(t, r) && Unburied(r)
    ensures !ok ==> r == t && Crammed(g, t, keyOf(o), t.limit)
  {
    var key := keyOf(o);
    var h, cap := hash(key), |t.entries|;
    HomeSlot(g, hash, wide, cap, key);
    ghost var at := WalkVisits(g, hash, wide, cap, key);
    var slot, p;
    ok, slot, p := FindEmpty(g, WalkOf(wide, cap, h), at, t, key);
    r := t;
    if ok {
      StoreOk(g, t, p, o);
      StoreContents(g, t, p, o);
      r := StoredAt(t, h % cap, slot, p, key, o);
    }
  }

  method CopySlot<Key(==, !new), T(!new)>(ghost f: Probing<Key, T>, ghost g: Probing<Key, T>, keyOf: T -> Key,
      hash: Key -> nat, wide: Shift, t: Table<Key, T>, u: Table<Key, T>, n: nat) returns (ok: bool, r: Table<Key, T>)
    requires Ok(f, t) && f.keyOf == keyOf && n < |t.entries|
    requires Ok(g, u) && g.keyOf == keyOf && Follows(g, hash, wide, |u.entries|) && Contents(g, u) == Part(f, t, n)
    requires Unburied(u) && u.limit == ProbeLimit(|u.entries|)
    ensures ok ==> Ok(g, r) && Contents(g, r) == Part(f, t, n + 1) && SameShape(u, r) && Unburied(r)
    ensures !ok && |u.entries| == LARGEST ==> Jammed(keyOf, hash, wide, Contents(f, t).Keys, Contents(f, t).Keys)
  {
    PartStep(f, t, n);
    AllFull(g, u);
    ok, r := true, u;
    if t.entries[n].Full? {
      ok, r := Place(g, keyOf, hash, wide, u, t.entries[n].obj);
      if !ok && |u.entries| == LARGEST {
        assert SlotOk(f, t, n);
        AllFull(f, t);
        assert JammedIn(keyOf, hash, wide, Contents(f, t).Keys, g, u, keyOf(t.entries[n].obj));
      }
    }
  }

  /** The loop of ck_hs_grow over the slots of the old table. */
  method CopyAll<Key(==, !new), T(!new)>(ghost f: Probing<Key, T>, ghost g: Probing<Key, T>, keyOf: T -> Key,
      hash: Key -> nat, wide: Shift, t: Table<Key, T>, blank: Table<Key, T>) returns (ok: bool, r: Table<Key, T>)
    requires Ok(f, t) && f.keyOf == keyOf && g.keyOf == keyOf && Follows(g, hash, wide, |blank.entries|)
    requires Ok(g, blank) && Contents(g, blank) == map[]
    requires Unburied(blank) && blank.limit == ProbeLimit(|blank.entries|)
    ensures ok ==> Ok(g, r) && Contents(g, r) == Contents(f, t) && SameShape(blank, r)
    ensures !ok && |blank.entries| == LARGEST ==> Jammed(keyOf, hash, wide, Contents(f, t).Keys, Contents(f, t).Keys)
  {
    PartAll(f, t);
    r := blank;
    var n := 0;
    while n < |t.entries|
      invariant n <= |t.entries| && SameShape(blank, r) && Unburied(r) && Ok(g, r) && Contents(g, r) == Part(f, t, n)
    {
      ok, r := CopySlot(f, g, keyOf, hash, wide, t, r, n);
      if !ok {
        return;
      }
      n := n + 1;
    }
    ok := true;
  }

  class ObjectSet<Key(==, !new), T(!new)> {
    const keyOf: T -> Key
    const hash: Key -> nat
    const wide: Shift
    const deleteMode: bool
    const malloc: nat -> bool      // whether the allocator grants the n-th table asked for
    var requests: nat              // tables asked for so far
    var table: Table<Key, T>
    ghost var f: Probing<Key, T>

    ghost predicate Valid()
      reads this
    {
      && IsSize(|table.entries|) && table.limit == ProbeLimit(|table.entries|) && (forall k :: hash(k) < LONG)
      && f.keyOf == keyOf && Follows(f, hash, wide, |table.entries|)
      && Ok(f, table)
    }

    /** The stored object of each key. */
    ghost function Objects(): map<Key, T>
      requires Valid()
      reads this
    {
      Contents(f, table)
    }

    /** The allocator granted every table asked for since there were n requests. */
    ghost predicate Granted(n: nat)
      reads this
    {
      forall i :: n <= i < requests ==> malloc(i)
    }

    /** 2^31 slots are not enough for these objects, or for one of these keys besides. */
    ghost predicate NoRoom(objects: map<Key, T>, wanting: set<Key>) {
      Jammed(keyOf, hash, wide, objects.Keys, objects.Keys + wanting)
    }

    /** Hundreds of objects are stored then. */
    lemma NoRoomMeansMany(objects: map<Key, T>, wanting: set<Key>)
      requires NoRoom(objects, wanting) && forall k :: hash(k) < LONG
      ensures |objects| >= MANY
    {
      JammedMeansMany(keyOf, hash, wide, objects.Keys, objects.Keys + wanting);
      assert |objects| == |objects.Keys|;
    }

    constructor (keyOf: T -> Key, hash: Key -> nat, wide: Shift, deleteMode: bool, malloc: nat -> bool, size: nat)
      requires IsSize(size) && forall k :: hash(k) < LONG
      ensures Valid() && Objects() == map[] && |table.entries| == size
      ensures this.keyOf == keyOf && this.hash == hash && this.malloc == malloc && requests == 1
    {
      this.keyOf, this.hash, this.wide, this.deleteMode, this.malloc := keyOf, hash, wide, deleteMode, malloc;
      ghost var sequence := SequenceExists(keyOf, hash, wide, size);
      FreshOk(sequence, size, deleteMode);
      table, f, requests := Fresh(size, deleteMode), sequence, 1;
    }

    /** A key that finds no slot in the largest table. */
    lemma NoRoomFor(key: Key)
      requires Valid() && |table.entries| == LARGEST && Crammed(f, table, key, table.limit)
      ensures NoRoom(Objects(), {key})
    {
      AllFull(f, table);
      assert JammedIn(keyOf, hash, wide, Objects().Keys, f, table, key);
    }

    /** ck_hs_map_probe: whether the key is stored, and where it could go. */
    method Probe(key: Key, limit: nat, behavior: Behavior)
      returns (slot: Option<nat>, first: Option<nat>, found: Option<T>, n: nat)
      requires Valid()
      requires limit == if behavior == Default then BoundGet(table, hash(key) % |table.entries|) else table.limit
      ensures found.Some? ==> key in Objects() && found.value == Objects()[key]
      ensures found.Some? ==> slot == Some(f.slot(key, table.at[key])) && n <= table.at[key] + 1
      ensures found.None? && behavior != StopAtTombstone ==> key !in Objects()
      ensures first.Some? || (slot.Some? && found.None?) ==>
        && n >= 1 && CanStore(f, table, n - 1, key)
        && f.slot(key, n - 1) == if first.Some? then first.value else slot.value
      ensures slot.None? && first.None? ==> Crammed(f, table, key, limit)
    {
      var cap, h := |table.entries|, hash(key);
      HomeSlot(f, hash, wide, cap, key);
      ghost var at := WalkVisits(f, hash, wide, cap, key);
      var end;
      slot, first, found, n, end := Scan(f, WalkOf(wide, cap, h), at, keyOf, table, h % cap, key, limit, behavior);
      PassedMeans(f, table, key, end);
      if found.Some? {
        FoundAt(f, table, key, end);
      } else if behavior != StopAtTombstone {
        AbsentAt(f, table, key, end);
      }
    }

    /** ck_hs_get. */
    method Get(key: Key) returns (r: Option<T>)
      requires Valid()
      ensures r == if key in Objects() then Some(Objects()[key]) else None
    {
      HomeSlot(f, hash, wide, |table.entries|, key);
      var slot, first, n;
      slot, first, r, n := Probe(key, BoundGet(table, hash(key) % |table.entries|), Default);
    }

    /** ck_hs_count. */
    method Count() returns (n: nat)
      requires Valid()
      ensures n == |Objects()|
    {
      AllFull(f, table);
      n := table.count;
    }

    /** ck_hs_remove. */
    method Remove(key: Key) returns (r: Option<T>)
      requires Valid()
      modifies this`table
      ensures Valid() && Objects() == old(Objects()) - {key}
      ensures r == if key in old(Objects()) then Some(old(Objects())[key]) else None
    {
      var slot, first, n;
      slot, first, r, n := Probe(key, BoundGet(table, hash(key) % |table.entries|), Default);
      if r.Some? {
        Delete(key, slot.value);
      }
    }

    method Delete(key: Key, slot: nat)
      requires Valid() && key in table.at && slot == f.slot(key, table.at[key])
      modifies this`table
      ensures Valid() && Objects() == old(Objects()) - {key}
    {
      RemoveOk(f, table, key);
      RemoveContents(f, table, key);
      Bury(key, slot);
    }

    method Bury(key: Key, slot: nat)
      requires key in table.at && slot == f.slot(key, table.at[key]) < |table.entries| && table.count > 0
      modifies this`table
      ensures table == Removed(f, old(table), key)
    {
      table := table.(entries := table.entries[slot := Tombstone], count := table.count - 1, at := table.at - {key});
    }

    /** ck_hs_fas. */
    method FetchAndStore(o: T) returns (ok: bool, previous: Option<T>)
      requires Valid()
      modifies this`table
      ensures Valid() && ok == (keyOf(o) in old(Objects()))
      ensures previous == if ok then Some(old(Objects())[keyOf(o)]) else None
      ensures Objects() == if ok then old(Objects())[keyOf(o) := o] else old(Objects())
    {
      var slot, first, n;
      slot, first, previous, n := Probe(keyOf(o), BoundGet(table, hash(keyOf(o)) % |table.entries|), Default);
      ok := previous.Some?;
      if ok {
        StoreFound(o, slot.value, first, n);
      }
    }

    /** Store an object of a stored key: in the first tombstone of its probe sequence, or in the key's slot. */
    method StoreFound(o: T, slot: nat, first: Option<nat>, n: nat)
      requires Valid() && keyOf(o) in table.at && slot == f.slot(keyOf(o), table.at[keyOf(o)])
      requires first.Some? ==>
        && 1 <= n <= table.at[keyOf(o)] + 1
        && CanStore(f, table, n - 1, keyOf(o)) && f.slot(keyOf(o), n - 1) == first.value
      modifies this`table
      ensures Valid() && Objects() == old(Objects())[keyOf(o) := o]
    {
      if first.Some? {
        StoreEarlier(o, slot, first.value, n - 1);
      } else {
        ReplaceOk(f, table, o);
        ReplaceContents(f, table, o);
        Overwrite(o, slot);
      }
    }

    method StoreEarlier(o: T, slot: nat, first: nat, p: nat)
      requires Valid() && keyOf(o) in table.at && p <= table.at[keyOf(o)]
      requires slot == f.slot(keyOf(o), table.at[keyOf(o)])
      requires CanStore(f, table, p, keyOf(o)) && f.slot(keyOf(o), p) == first
      modifies this`table
      ensures Valid() && Objects() == old(Objects())[keyOf(o) := o]
    {
      MoveOk(f, table, p, o);
      MoveContents(f, table, p, o);
      MoveIs(f, table, p, o);
      Move(o, first, slot, p);
    }

    method Move(o: T, first: nat, slot: nat, p: nat)
      requires first < |table.entries| && slot < |table.entries|
      modifies this`table
      ensures table == old(table).(entries := old(table).entries[first := Full(o)][slot := Tombstone],
                                   at := old(table).at[keyOf(o) := p])
    {
      table := table.(entries := table.entries[first := Full(o)]);
      table := table.(entries := table.entries[slot := Tombstone]);
      table := table.(at := table.at[keyOf(o) := p]);
    }

    method Overwrite(o: T, slot: nat)
      requires f.keyOf == keyOf && keyOf(o) in table.at
      requires slot == f.slot(keyOf(o), table.at[keyOf(o)]) < |table.entries|
      modifies this`table
      ensures table == Replaced(f, old(table), o)
    {
      table := table.(entries := table.entries[slot := Full(o)]);
    }

    /**
    ck_hs_grow. The set moves to a table of at least the given capacity, of twice
    that when objects do not find a place within the probe limit, and so on; without
    memory for a table it stays where it is. Capacities of 2^32 and above are cut to
    32 bits, and a multiple of 2^32 becomes a table of eight slots.
    */
    method Grow(capacity: nat) returns (ok: bool)
      requires Valid() && capacity < LONG
      modifies this`table, this`f, this`requests
      ensures Valid() && Objects() == old(Objects()) && requests >= old(requests)
      ensures ok && capacity <= LARGEST && (IsSize(capacity) || !NoRoom(Objects(), {})) ==> |table.entries| >= capacity
      ensures ok && LowZeros(capacity, 32) ==> |Objects()| <= LINE
      ensures |Objects()| <= |table.entries|
      ensures !ok ==> table == old(table)
      ensures !ok && Granted(old(requests)) && old(|table.entries|) <= capacity <= LARGEST ==> NoRoom(Objects(), {})
    {
      ok := GrowFrom(capacity, 0);
      KeysFit(f, table);
      AllFull(f, table);
    }

    /** From its label `restart` on, for the j-th time; every restart doubles the capacity. */
    method GrowFrom(capacity: nat, ghost j: nat) returns (ok: bool)
      requires Valid() && capacity < LONG && LowZeros(capacity, j) && j <= 64
      modifies this`table, this`f, this`requests
      ensures Valid() && Objects() == old(Objects()) && requests >= old(requests)
      ensures Outcome(capacity, old(|table.entries|), |table.entries|, |Objects()|, ok, NoRoom(Objects(), {}),
                      Granted(old(requests)))
      ensures !ok ==> table == old(table)
      decreases 64 - j, 1
    {
      if |table.entries| > capacity {
        return false;
      }
      var available;
      ok, available := Attempt(capacity);
      if !ok && available {
        ok := Restart(capacity, j);
      }
    }

    /** The restart after a table of this capacity turned out too small. */
    method Restart(capacity: nat, ghost j: nat) returns (ok: bool)
      requires Valid() && |table.entries| <= capacity < LONG && LowZeros(capacity, j) && j <= 64
      requires LARGEST < 2 * capacity <= 2 * LARGEST ==> NoRoom(Objects(), {})
      modifies this`table, this`f, this`requests
      ensures Valid() && Objects() == old(Objects()) && requests >= old(requests)
      ensures Outcome(capacity, old(|table.entries|), |table.entries|, |Objects()|, ok, NoRoom(Objects(), {}),
                      Granted(old(requests)))
      ensures !ok ==> table == old(table)
      decreases 64 - j, 0
    {
      ghost var jammed, before, asked := NoRoom(Objects(), {}), |table.entries|, requests;
      SizeFacts(before);
      DoublingEnds(capacity, j);
      if jammed {
        NoRoomMeansMany(Objects(), {});
      }
      ok := GrowFrom(Twice(capacity), j + 1);
      OutcomeRestarted(capacity, before, |table.entries|, |Objects()|, ok, jammed, Granted(asked));
    }

    /** One round of ck_hs_grow, when memory is available. */
    method Attempt(wanted: nat) returns (ok: bool, available: bool)
      requires Valid()
      modifies this`table, this`f, this`requests
      ensures Valid() && Objects() == old(Objects())
      ensures requests == old(requests) + 1 && available == malloc(old(requests))
      ensures ok && wanted <= LARGEST ==> |table.entries| >= wanted
      ensures ok && LowZeros(wanted, 32) ==> |Objects()| <= LINE
      ensures !ok ==> table == old(table) && f == old(f)
      ensures !ok && available && LARGEST < 2 * wanted <= 2 * LARGEST ==> NoRoom(Objects(), {})
    {
      var size := NewSize(wanted);
      SizeFacts(size);
      available := malloc(requests);
      requests := requests + 1;
      ok := false;
      if available {
        ok := Rehash(size);
      }
    }

    /** Move every object to a new table of the given size, unless one of them finds no place. */
    method Rehash(size: nat) returns (ok: bool)
      requires Valid() && IsSize(size)
      modifies this`table, this`f
      ensures Valid() && Objects() == old(Objects())
      ensures if ok then |table.entries| == size else table == old(table) && f == old(f)
      ensures if ok then |Objects()| <= size else size == LARGEST ==> NoRoom(Objects(), {})
    {
      ghost var g := SequenceExists(keyOf, hash, wide, size);
      FreshOk(g, size, deleteMode);
      assert Objects().Keys + {} == Objects().Keys;
      var update;
      ok, update := CopyAll(f, g, keyOf, hash, wide, table, Fresh(size, deleteMode));
      if ok {
        table, f := update, g;
        KeysFit(f, table);
        AllFull(f, table);
      }
    }

    /** ck_hs_map_postinsert: grow when the table is more than half full; a failure to grow is no harm. */
    method PostInsert()
      requires Valid()
      modifies this`table, this`f, this`requests
      ensures Valid() && Objects() == old(Objects()) && requests >= old(requests)
    {
      SizeFacts(|table.entries|);
      if 2 * table.count > |table.entries| {
        var _ := Grow(2 * |table.entries|);
      }
    }

    /** Make room for a key that found no slot: the largest table, which cannot grow, is then crowded. */
    method Enlarge(key: Key) returns (ok: bool)
      requires Valid() && (|table.entries| == LARGEST ==> NoRoom(Objects(), {key}))
      modifies this`table, this`f, this`requests
      ensures Valid() && Objects() == old(Objects()) && requests >= old(requests)
      ensures |table.entries| <= LARGEST && (ok ==> |table.entries| > old(|table.entries|))
      ensures !ok && Granted(old(requests)) ==> NoRoom(Objects(), {key})
    {
      SizeFacts(|table.entries|);
      WordZeros();
      if |table.entries| == LARGEST {
        NoRoomMeansMany(Objects(), {key});
      }
      ok := Grow(2 * |table.entries|);
      SizeFacts(|table.entries|);
      assert NoRoom(Objects(), {}) ==> NoRoom(Objects(), {key});
    }

    /** Store an object of a new key in the slot that the probe found, then grow if need be. */
    method StoreNew(o: T, slot: nat, n: nat)
      requires Valid() && keyOf(o) !in Objects() && n >= 1
      requires CanStore(f, table, n - 1, keyOf(o)) && slot == f.slot(keyOf(o), n - 1)
      modifies this`table, this`f, this`requests
      ensures Valid() && Objects() == old(Objects())[keyOf(o) := o] && requests >= old(requests)
    {
      StoreFree(o, slot, n);
      PostInsert();
    }

    method StoreFree(o: T, slot: nat, n: nat)
      requires Valid() && keyOf(o) !in Objects() && n >= 1
      requires CanStore(f, table, n - 1, keyOf(o)) && slot == f.slot(keyOf(o), n - 1)
      modifies this`table
      ensures Valid() && Objects() == old(Objects())[keyOf(o) := o]
    {
      var key := keyOf(o);
      var home := hash(key) % |table.entries|;
      HomeSlot(f, hash, wide, |table.entries|, key);
      AllFull(f, table);
      StoreOk(f, table, n - 1, o);
      StoreContents(f, table, n - 1, o);
      table := StoredAt(table, home, slot, n - 1, key, o);
    }

    /** The restarts of ck_hs_put and ck_hs_set: probe, and enlarge the table as long as there is no slot. */
    method FindPlace(key: Key, behavior: Behavior)
      returns (ok: bool, slot: Option<nat>, first: Option<nat>, found: Option<T>, n: nat)
      requires Valid() && behavior != Default
      modifies this`table, this`f, this`requests
      ensures Valid() && Objects() == old(Objects()) && requests >= old(requests)
      ensures found.Some? ==> key in Objects() && found.value == Objects()[key]
      ensures found.Some? ==> slot == Some(f.slot(key, table.at[key])) && n <= table.at[key] + 1
      ensures found.None? && behavior != StopAtTombstone ==> key !in Objects()
      ensures ok && (first.Some? || found.None?) ==>
        && n >= 1 && CanStore(f, table, n - 1, key) && (first.Some? || slot.Some?)
        && f.slot(key, n - 1) == if first.Some? then first.value else slot.value
      ensures !ok ==> found.None?
      ensures !ok && Granted(old(requests)) ==> NoRoom(Objects(), {key})
    {
      while true
        invariant Valid() && Objects() == old(Objects()) && requests >= old(requests)
        decreases LARGEST - |table.entries|
      {
        slot, first, found, n := Probe(key, table.limit, behavior);
        ok := slot.Some? || first.Some?;
        if ok {
          return;
        }
        if |table.entries| == LARGEST {
          NoRoomFor(key);
        }
        ok := Enlarge(key);
        if !ok {
          return;
        }
      }
    }

    /**
    ck_hs_put and ck_hs_put_unique. A put fails only when the key is stored already,
    when the allocator refuses a table, or when 2^31 slots are not enough.
    */
    method PutWith(o: T, behavior: Behavior) returns (ok: bool)
      requires Valid() && behavior != Default
      requires behavior == StopAtTombstone ==> keyOf(o) !in Objects()
      modifies this`table, this`f, this`requests
      ensures Valid()
      ensures keyOf(o) in old(Objects()) ==> !ok
      ensures Objects() == if ok then old(Objects())[keyOf(o) := o] else old(Objects())
      ensures !ok && keyOf(o) !in Objects() && Granted(old(requests)) ==> NoRoom(Objects(), {keyOf(o)})
    {
      var slot, first, found, n;
      ok, slot, first, found, n := FindPlace(keyOf(o), behavior);
      if !ok || found.Some? {
        return false;
      }
      StoreNew(o, if first.Some? then first.value else slot.value, n);
    }

    /** The bound of a stored key covers the probes that found it. */
    lemma CoveredAlready(key: Key, n: nat)
      requires Valid() && key in table.at && n <= table.at[key] + 1
      ensures BoundSet(table, hash(key) % |table.entries|, n) == table
    {
      assert KeyOk(f, table, key);
      HomeSlot(f, hash, wide, |table.entries|, key);
      BoundAlready(table, f.slot(key, 0), n);
    }

    /** ck_hs_set: store the object, in place of the one with the same key, if any. */
    method Set(o: T) returns (ok: bool, previous: Option<T>)
      requires Valid()
      modifies this`table, this`f, this`requests
      ensures Valid()
      ensures keyOf(o) in old(Objects()) ==> ok
      ensures previous == if keyOf(o) in old(Objects()) then Some(old(Objects())[keyOf(o)]) else None
      ensures Objects() == if ok then old(Objects())[keyOf(o) := o] else old(Objects())
      ensures !ok && Granted(old(requests)) ==> NoRoom(Objects(), {keyOf(o)})
    {
      var slot, first, found, n;
      ok, slot, first, found, n := FindPlace(keyOf(o), Insert);
      if !ok {
        return false, None;
      }
      if found.Some? {
        CoveredAlready(keyOf(o), n);
        table := BoundSet(table, hash(keyOf(o)) % |table.entries|, n);
        StoreFound(o, slot.value, first, n);
      } else {
        StoreNew(o, if first.Some? then first.value else slot.value, n);
      }
      previous := found;
    }
  }

  /** ck_hs_init: a set, unless there is no memory for its table. */
  method Init<Key(==, !new), T(!new)>(keyOf: T -> Key, hash: Key -> nat, wide: Shift, deleteMode: bool,
      malloc: nat -> bool, entries: nat) returns (r: Option<ObjectSet<Key, T>>)
    requires forall k :: hash(k) < LONG
    ensures r.Some? <==> malloc(0)
    ensures r.Some? ==> r.value.Valid() && r.value.Objects() == map[] && |r.value.table.entries| == SizeFor(entries)
  {
    if !malloc(0) {
      return None;
    }
    var size := NewSize(entries);
    var objects := new ObjectSet(keyOf, hash, wide, deleteMode, malloc, size);
    r := Some(objects);
  }
}
