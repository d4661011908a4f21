/**
Readers walk a bucket's list without a lock while a writer changes it pointer by
pointer. The list macros of ck_queue.h keep every single store harmless: after
each one the forward links still form a list, and an overwritten key is never
missing from it. `trace` records the links after every store.
*/
module ListStores {
  import opened Collections
  import opened HashMap

  /** A location that holds a forward pointer. */
  datatype Place = Head | NextOf(elem: nat)

  datatype Links = Links(
    first: Option<nat>,            // lh_first
    next: map<nat, Option<nat>>,   // le_next
    prev: map<nat, Place>          // le_prev
  )

  function PtrAt(list: seq<nat>, i: nat): Option<nat> {
    if i < |list| then Some(list[i]) else None
  }

  function PlaceBefore(list: seq<nat>, i: nat): Place
    requires i <= |list|
  {
    if i == 0 then Head else NextOf(list[i - 1])
  }

  /** Following the forward pointers from the head visits exactly these elements and ends. */
  ghost predicate Reads(l: Links, list: seq<nat>) {
    && Distinct(list) && l.first == PtrAt(list, 0)
    && forall i :: 0 <= i < |list| ==> list[i] in l.next && l.next[list[i]] == PtrAt(list, i + 1)
  }

  /** The back pointers are in order as well. */
  ghost predicate WellLinked(l: Links, list: seq<nat>) {
    && Reads(l, list)
    && forall i :: 0 <= i < |list| ==> list[i] in l.prev && l.prev[list[i]] == PlaceBefore(list, i)
  }

  function SetNext(l: Links, p: Place, x: Option<nat>): Links {
    if p == Head then l.(first := x) else l.(next := l.next[p.elem := x])
  }

  function SetPrev(l: Links, e: nat, p: Place): Links {
    l.(prev := l.prev[e := p])
  }

  // ------------------------------------------------------------- CK_LIST_INSERT_HEAD

  lemma InsertAimed(l: Links, list: seq<nat>, e: nat)
    requires WellLinked(l, list) && e !in list
    ensures WellLinked(SetNext(l, NextOf(e), l.first), list)
  {
  }

  lemma InsertPublished(l: Links, list: seq<nat>, e: nat)
    requires Reads(l, list) && e !in list && e in l.next && l.next[e] == l.first
    ensures Reads(SetNext(l, Head, Some(e)), [e] + list)
  {
  }

  lemma InsertDone(l: Links, list: seq<nat>, e: nat)
    requires Reads(l, [e] + list)
    requires forall i :: 0 <= i < |list| ==> list[i] in l.prev && l.prev[list[i]] == PlaceBefore([e] + list, i + 1)
    ensures WellLinked(SetPrev(l, e, Head), [e] + list)
  {
  }

  // ------------------------------------------------------------------ CK_LIST_REMOVE

  lemma RemoveReads(l: Links, list: seq<nat>, i: nat)
    requires WellLinked(l, list) && i < |list|
    ensures Reads(SetNext(l, l.prev[list[i]], l.next[list[i]]), Without(list, i))
  {
    WithoutOne(list, i, list[i]);
  }

  lemma RemoveDone(l: Links, list: seq<nat>, i: nat, m: Links)
    requires WellLinked(l, list) && i < |list| && Reads(m, Without(list, i))
    requires m.prev == if i + 1 < |list| then l.prev[list[i + 1] := l.prev[list[i]]] else l.prev
    ensures WellLinked(m, Without(list, i))
  {
  }

  // ------------------------------------------------------------------------- lookups

  /** What a lookup that walks this list returns. */
  function Lookup<Key(==), Value>(keys: map<nat, Key>, values: map<nat, Value>, list: seq<nat>, key: Key): Option<Value>
    requires forall x :: x in list ==> x in values
  {
    var i := Search(keys, list, key);
    if i < |list| then Some(values[list[i]]) else None
  }

  /** Elements with other keys make no difference. */
  lemma {:induction false} LookupSkips<Key(!new), Value>(keys: map<nat, Key>, values: map<nat, Value>, list: seq<nat>,
      i: nat, key: Key)
    requires (forall x :: x in list ==> x in values) && i < |list| && list[i] in keys && keys[list[i]] != key
    ensures Lookup(keys, values, Without(list, i), key) == Lookup(keys, values, list, key)
  {
    if i == 0 {
      assert Without(list, 0) == list[1..];
    } else {
      assert Without(list, i)[1..] == Without(list[1..], i - 1) && Without(list, i)[0] == list[0];
      LookupSkips(keys, values, list[1..], i - 1, key);
    }
  }

  /** The only element with the key is the one that a lookup finds. */
  lemma {:induction false} LookupOnly<Key(!new), Value>(keys: map<nat, Key>, values: map<nat, Value>, list: seq<nat>,
      i: nat)
    requires (forall x :: x in list ==> x in values && x in keys) && i < |list|
    requires forall j :: 0 <= j < |list| && j != i ==> keys[list[j]] != keys[list[i]]
    ensures Lookup(keys, values, list, keys[list[i]]) == Some(values[list[i]])
  {
    SearchFinds(keys, list, keys[list[i]]);
  }

  // What a reader sees after each store.

  function SeenInserting(list: seq<nat>, e: nat): seq<seq<nat>> {
    (if list == [] then [list] else [list, list]) + [[e] + list, [e] + list]
  }

  function SeenRemoving(list: seq<nat>, i: nat): seq<seq<nat>>
    requires i < |list|
  {
    [Without(list, i)] + (if i + 1 < |list| then [Without(list, i)] else [])
  }

  function SeenOverwriting(list: seq<nat>, i: nat, e: nat): seq<seq<nat>>
    requires i < |list|
  {
    SeenInserting(list, e) + SeenRemoving([e] + list, i + 1)
  }

  lemma UnlinkBehindHead(list: seq<nat>, i: nat, e: nat)
    requires i < |list|
    ensures Without([e] + list, i + 1) == [e] + Without(list, i)
  {
  }

  lemma AppendedTwice<T>(s: seq<T>, a: seq<T>, b: seq<T>)
    ensures s + a + b == s + (a + b)
  {
  }

  class Bucket {
    var first: Option<nat>
    var next: map<nat, Option<nat>>
    var prev: map<nat, Place>
    ghost var trace: seq<Links>      // the links after each store
    ghost var seen: seq<seq<nat>>    // what a reader sees in them

    ghost function Now(): Links
      reads this
    {
      Links(first, next, prev)
    }

    ghost predicate Valid()
      reads this
    {
      |trace| == |seen| && forall i :: 0 <= i < |trace| ==> Reads(trace[i], seen[i])
    }

    /** A store to a forward pointer; the list is what a reader sees from then on. */
    method Store(p: Place, x: Option<nat>, ghost list: seq<nat>)
      requires Valid() && Reads(SetNext(Now(), p, x), list)
      modifies this
      ensures Valid() && Now() == SetNext(old(Now()), p, x)
      ensures trace == old(trace) + [Now()] && seen == old(seen) + [list]
    {
      match p {
        case Head => first := x;
        case NextOf(e) => next := next[e := x];
      }
      trace, seen := trace + [Now()], seen + [list];
    }

    /** A store to a back pointer. */
    method StorePrev(e: nat, p: Place, ghost list: seq<nat>)
      requires Valid() && Reads(Now(), list)
      modifies this
      ensures Valid() && Now() == SetPrev(old(Now()), e, p)
      ensures trace == old(trace) + [Now()] && seen == old(seen) + [list]
    {
      prev := prev[e := p];
      trace, seen := trace + [Now()], seen + [list];
    }

    /** CK_LIST_INSERT_HEAD: readers see the old list until the head is stored, then the new one. */
    method InsertHead(e: nat, ghost list: seq<nat>)
      requires Valid() && WellLinked(Now(), list) && e !in list
      modifies this
      ensures Valid() && WellLinked(Now(), [e] + list)
      ensures seen == old(seen) + SeenInserting(list, e)
    {
      InsertAimed(Now(), list, e);
      Store(NextOf(e), first, list);
      if next[e].Some? {
        StorePrev(first.value, NextOf(e), list);
      }
      InsertPublished(Now(), list, e);
      Store(Head, Some(e), [e] + list);
      InsertDone(Now(), list, e);
      StorePrev(e, Head, [e] + list);
    }

    /** CK_LIST_REMOVE: readers see the list without the element from the first store on. */
    method Remove(e: nat, ghost list: seq<nat>, ghost i: nat)
      requires Valid() && WellLinked(Now(), list) && i < |list| && list[i] == e
      modifies this
      ensures Valid() && WellLinked(Now(), Without(list, i))
      ensures seen == old(seen) + SeenRemoving(list, i)
    {
      RemoveReads(Now(), list, i);
      Store(prev[e], next[e], Without(list, i));
      if next[e].Some? {
        StorePrev(next[e].value, prev[e], Without(list, i));
      }
      RemoveDone(old(Now()), list, i, Now());
    }

    /** Remove an element behind a new head. */
    method RemoveBehind(e: nat, x: nat, ghost list: seq<nat>, ghost i: nat)
      requires Valid() && WellLinked(Now(), [e] + list) && i < |list| && list[i] == x
      modifies this
      ensures Valid() && WellLinked(Now(), [e] + Without(list, i))
      ensures seen == old(seen) + SeenRemoving([e] + list, i + 1)
    {
      Remove(x, [e] + list, i + 1);
      UnlinkBehindHead(list, i, e);
    }

    /** The overwrite of hashtable_map_update_elem: link e, which holds the key of x, then unlink x. */
    method Overwrite(e: nat, x: nat, ghost list: seq<nat>, ghost i: nat)
      requires Valid() && WellLinked(Now(), list) && e !in list && i < |list| && list[i] == x
      modifies this
      ensures Valid() && WellLinked(Now(), [e] + Without(list, i))
      ensures seen == old(seen) + SeenOverwriting(list, i, e)
    {
      InsertHead(e, list);
      RemoveBehind(e, x, list, i);
      AppendedTwice(old(seen), SeenInserting(list, e), SeenRemoving([e] + list, i + 1));
    }
  }

  /** The key of a new head is found there. */
  lemma HeadFound<Key(!new), Value>(keys: map<nat, Key>, values: map<nat, Value>, list: seq<nat>, e: nat)
    requires e in keys && forall y :: y in [e] + list ==> y in values
    ensures Lookup(keys, values, [e] + list, keys[e]) == Some(values[e])
  {
  }

  /** Another key is looked up behind it. */
  lemma HeadSkipped<Key(!new), Value>(keys: map<nat, Key>, values: map<nat, Value>, list: seq<nat>, e: nat, k: Key)
    requires e in keys && keys[e] != k && forall y :: y in [e] + list ==> y in values
    ensures (forall y :: y in list ==> y in values)
    ensures Lookup(keys, values, [e] + list, k) == Lookup(keys, values, list, k)
  {
    forall y | y in list
      ensures y in values
    {
      assert y in [e] + list;
    }
    assert Without([e] + list, 0) == list;
    LookupSkips(keys, values, [e] + list, 0, k);
  }

  lemma WithoutKeeps(list: seq<nat>, i: nat, y: nat)
    requires i < |list| && y in Without(list, i)
    ensures y in list
  {
  }

  /** What a reader sees of an overwrite: the old list, then the new head, then the list without the old element. */
  lemma SeenStages(list: seq<nat>, i: nat, e: nat, n: nat)
    requires i < |list| && n < |SeenOverwriting(list, i, e)|
    ensures SeenOverwriting(list, i, e)[n]
      == if n < 2 then list else if n < 4 then [e] + list else [e] + Without(list, i)
  {
    UnlinkBehindHead(list, i, e);
  }

  /**
  After every store of an overwrite a lookup of the key finds the old value or
  the new one, never neither, and never the old one after the new one; lookups of
  other keys find what they found before.
  */
  lemma OverwriteNeverMisses<Key(!new), Value(!new)>(keys: map<nat, Key>, values: map<nat, Value>, list: seq<nat>,
      i: nat, e: nat, n: nat)
    requires i < |list| && forall y :: y in [e] + list ==> y in keys && y in values
    requires keys[e] == keys[list[i]] && forall j :: 0 <= j < |list| && j != i ==> keys[list[j]] != keys[list[i]]
    requires n < |SeenOverwriting(list, i, e)|
    ensures var now := SeenOverwriting(list, i, e)[n];
      && (forall y :: y in now ==> y in values)
      && Lookup(keys, values, now, keys[e]) == Some(if n < 2 then values[list[i]] else values[e])
      && (forall k :: k != keys[e] ==> Lookup(keys, values, now, k) == Lookup(keys, values, list, k))
  {
    var now, rest := SeenOverwriting(list, i, e)[n], Without(list, i);
    SeenStages(list, i, e, n);
    forall y | y in rest
      ensures y in values
    {
      WithoutKeeps(list, i, y);
    }
    if n < 2 {
      LookupOnly(keys, values, list, i);
    } else {
      HeadFound(keys, values, if n < 4 then list else rest, e);
      forall k | k != keys[e]
        ensures Lookup(keys, values, now, k) == Lookup(keys, values, list, k)
      {
        LookupSkips(keys, values, list, i, k);
        HeadSkipped(keys, values, if n < 4 then list else rest, e, k);
      }
    }
  }
}
