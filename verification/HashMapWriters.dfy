/**
Writers of the hash map running at the same time, one per CPU, interleaved at
the granularity of the locks: a bucket's lock covers the search and the list
changes, the allocator's lock covers one allocation or one free, and a CPU's
spare slot is touched by that CPU only. Elements are numbered 0 .. total.
*/
module HashMapWriters {
  import opened Collections
  import opened HashMap

  /** Where an element belongs. */
  datatype Home = InFree | InSpare(cpu: nat) | InBucket(bucket: nat) | InHand(cpu: nat)

  /** What a CPU's writer does next. */
  datatype Pc<Key> =
    | Idle
    | Update(b: nat, key: Key, noExist: bool, exist: bool)   // has the lock, will search
    | Swapped(b: nat, key: Key, hand: nat, prev: nat)        // the old element is in the spare slot, still linked
    | Taken(b: nat, key: Key, hand: nat)                     // has a new element for a new key
    | Inserted(b: nat, key: Key, prev: nat)                  // both elements of the key are linked
    | Delete(b: nat, key: Key)                               // has the lock, will search
    | Unlinked(b: nat, hand: nat)
    | Leaving(b: nat)                                        // will unlock
    | Freeing(hand: nat)                                     // unlocked, will free

  datatype State<Key> = State(
    free: seq<nat>,
    spare: seq<nat>,
    buckets: seq<seq<nat>>,
    lock: seq<Option<nat>>,    // each bucket's holder
    pcs: seq<Pc<Key>>,
    keys: map<nat, Key>,       // the key bytes of each element
    at: map<Key, nat>,         // the current element of each stored key
    home: seq<Home>            // where each element belongs
  )

  datatype Step<Key> =
    | LockUpdate(c: nat, key: Key, noExist: bool, exist: bool)
    | LockDelete(c: nat, key: Key)
    | Act(c: nat)

  // ----------------------------------------------------------------- the steps

  predicate Critical<Key>(pc: Pc<Key>) {
    !pc.Idle? && !pc.Freeing?
  }

  predicate Shape<Key>(s: State<Key>) {
    |s.spare| == |s.pcs| && |s.lock| == |s.buckets|
  }

  predicate Enabled<Key>(index: Key -> nat, s: State<Key>, step: Step<Key>) {
    && Shape(s) && step.c < |s.pcs|
    && match step
       case Act(c) => !s.pcs[c].Idle? && Bounds(s, s.pcs[c])
       case _ => s.pcs[step.c].Idle? && index(step.key) < |s.lock| && s.lock[index(step.key)].None?
  }

  /** The numbers in a program counter are in range. */
  predicate Bounds<Key>(s: State<Key>, pc: Pc<Key>) {
    && (Critical(pc) ==> pc.b < |s.buckets|)
    && (pc.Swapped? ==> pc.hand < |s.home|)
    && (pc.Inserted? ==> pc.prev in s.buckets[pc.b] && pc.prev < |s.home|)
  }

  function Goto<Key>(s: State<Key>, c: nat, pc: Pc<Key>): State<Key>
    requires c < |s.pcs|
  {
    s.(pcs := s.pcs[c := pc])
  }

  function SetHome(home: seq<Home>, x: nat, h: Home): seq<Home> {
    if x < |home| then home[x := h] else home
  }

  function Apply<Key>(index: Key -> nat, s: State<Key>, step: Step<Key>): State<Key>
    requires Enabled(index, s, step)
  {
    match step
    case LockUpdate(c, key, noExist, exist) =>
      Goto(s, c, Update(index(key), key, noExist, exist)).(lock := s.lock[index(key) := Some(c)])
    case LockDelete(c, key) =>
      Goto(s, c, Delete(index(key), key)).(lock := s.lock[index(key) := Some(c)])
    case Act(c) =>
      match s.pcs[c]
      case Update(_, _, _, _) => DoUpdate(s, c)
      case Swapped(b, key, hand, prev) => Goto(LinkHand(s, b, key, hand), c, Inserted(b, key, prev))
      case Taken(b, key, hand) => Goto(LinkHand(s, b, key, hand), c, Leaving(b))
      case Inserted(b, key, prev) => RemoveOld(s, c)
      case Delete(_, _) => DoDelete(s, c)
      case Unlinked(b, hand) => Goto(s, c, Freeing(hand)).(lock := s.lock[b := None])
      case Leaving(b) => Goto(s, c, Idle).(lock := s.lock[b := None])
      case Freeing(hand) => Goto(s, c, Idle).(free := [hand] + s.free, home := SetHome(s.home, hand, InFree))
      case Idle => s
  }

  /** The search, the check of the flags, and the choice of the new element. */
  function DoUpdate<Key>(s: State<Key>, c: nat): State<Key>
    requires Shape(s) && c < |s.pcs| && s.pcs[c].Update? && s.pcs[c].b < |s.buckets|
  {
    var Update(b, key, noExist, exist) := s.pcs[c];
    var i := Search(s.keys, s.buckets[b], key);
    if i < |s.buckets[b]| then
      (if noExist then Goto(s, c, Leaving(b))
       else Goto(s, c, Swapped(b, key, s.spare[c], s.buckets[b][i])).(
              spare := s.spare[c := s.buckets[b][i]], home := SetHome(s.home, s.spare[c], InHand(c))))
    else if exist || s.free == [] then Goto(s, c, Leaving(b))
    else Goto(s, c, Taken(b, key, s.free[0])).(
           free := s.free[1..], home := SetHome(s.home, s.free[0], InHand(c)))
  }

  /** The element in hand gets the key and goes to the head of the bucket. */
  function LinkHand<Key>(s: State<Key>, b: nat, key: Key, hand: nat): State<Key>
    requires b < |s.buckets|
  {
    s.(buckets := s.buckets[b := [hand] + s.buckets[b]], keys := s.keys[hand := key], at := s.at[key := hand],
       home := SetHome(s.home, hand, InBucket(b)))
  }

  /** The old element, in the spare slot already, is unlinked. */
  function RemoveOld<Key>(s: State<Key>, c: nat): State<Key>
    requires c < |s.pcs| && s.pcs[c].Inserted? && Bounds(s, s.pcs[c])
  {
    var Inserted(b, key, prev) := s.pcs[c];
    Goto(s, c, Leaving(b)).(
      buckets := s.buckets[b := Without(s.buckets[b], IndexOf(s.buckets[b], prev))],
      home := s.home[prev := InSpare(c)])
  }

  function DoDelete<Key>(s: State<Key>, c: nat): State<Key>
    requires Shape(s) && c < |s.pcs| && s.pcs[c].Delete? && s.pcs[c].b < |s.buckets|
  {
    var Delete(b, key) := s.pcs[c];
    var i := Search(s.keys, s.buckets[b], key);
    if i == |s.buckets[b]| then Goto(s, c, Leaving(b))
    else
      var x := s.buckets[b][i];
      Goto(s, c, Unlinked(b, x)).(
        buckets := s.buckets[b := Without(s.buckets[b], i)], at := s.at - {key},
        home := SetHome(s.home, x, InHand(c)))
  }

  // ------------------------------------------------------------- the invariant

  /** Mid-swap, the CPU's spare slot names an element that is still linked. */
  predicate MidSwap<Key>(pc: Pc<Key>) { pc.Swapped? || pc.Inserted? }

  predicate HasHand<Key>(pc: Pc<Key>) { pc.Swapped? || pc.Taken? || pc.Unlinked? || pc.Freeing? }

  /** The element is in the named place; a spare slot in the middle of a swap does not count. */
  ghost predicate IsAt<Key(!new)>(s: State<Key>, x: nat, h: Home)
    requires Shape(s)
  {
    match h
    case InFree => x in s.free
    case InSpare(c) => c < |s.pcs| && s.spare[c] == x && !MidSwap(s.pcs[c])
    case InBucket(b) => b < |s.buckets| && x in s.buckets[b]
    case InHand(c) => c < |s.pcs| && HasHand(s.pcs[c]) && s.pcs[c].hand == x
  }

  /** The element is where it belongs. */
  ghost predicate ElementInv<Key(!new)>(s: State<Key>, x: nat)
    requires Shape(s) && x < |s.home|
  {
    IsAt(s, x, s.home[x])
  }

  ghost predicate Is<Key(!new)>(s: State<Key>, x: nat, h: Home) {
    x < |s.home| && s.home[x] == h
  }

  ghost predicate FreeInv<Key(!new)>(s: State<Key>) {
    Distinct(s.free) && forall x :: x in s.free ==> Is(s, x, InFree)
  }

  /** The element that the holder of the bucket's lock is about to unlink, next to its replacement. */
  ghost predicate Doomed<Key(!new)>(s: State<Key>, b: nat, x: nat)
    requires Shape(s) && b < |s.buckets|
  {
    s.lock[b].Some? && s.lock[b].value < |s.pcs| && s.pcs[s.lock[b].value].Inserted? && s.pcs[s.lock[b].value].prev == x
  }

  ghost predicate LinkInv<Key(!new)>(index: Key -> nat, s: State<Key>, b: nat, x: nat)
    requires Shape(s) && b < |s.buckets|
  {
    && Is(s, x, InBucket(b)) && x in s.keys && s.keys[x] in s.at && index(s.keys[x]) == b
    && (s.at[s.keys[x]] == x || Doomed(s, b, x))
  }

  ghost predicate BucketInv<Key(!new)>(index: Key -> nat, s: State<Key>, b: nat)
    requires Shape(s) && b < |s.buckets|
  {
    && Distinct(s.buckets[b])
    && (forall x :: x in s.buckets[b] ==> LinkInv(index, s, b, x))
    && (s.lock[b].Some? ==>
          s.lock[b].value < |s.pcs| && Critical(s.pcs[s.lock[b].value]) && s.pcs[s.lock[b].value].b == b)
  }

  ghost predicate KeyInv<Key(!new)>(index: Key -> nat, s: State<Key>, k: Key)
    requires k in s.at
  {
    s.at[k] in s.keys && s.keys[s.at[k]] == k && Is(s, s.at[k], InBucket(index(k)))
  }

  ghost predicate PcInv<Key(!new)>(index: Key -> nat, s: State<Key>, c: nat)
    requires Shape(s) && c < |s.pcs|
  {
    var pc := s.pcs[c];
    && (Critical(pc) ==> pc.b < |s.lock| && s.lock[pc.b] == Some(c))
    && (!MidSwap(pc) ==> Is(s, s.spare[c], InSpare(c)))
    && (HasHand(pc) ==> Is(s, pc.hand, InHand(c)))
    && (pc.Update? || pc.Delete? || pc.Taken? || MidSwap(pc) ==> pc.b == index(pc.key))
    && (pc.Taken? ==> pc.key !in s.at)
    && (pc.Swapped? ==> pc.key in s.at && s.at[pc.key] == pc.prev == s.spare[c])
    && (pc.Inserted? ==>
          && pc.prev == s.spare[c] && Is(s, pc.prev, InBucket(pc.b))
          && pc.prev in s.keys && s.keys[pc.prev] == pc.key && pc.key in s.at && s.at[pc.key] != pc.prev)
  }

  ghost predicate Places<Key(!new)>(index: Key -> nat, s: State<Key>) {
    && Shape(s) && FreeInv(s)
    && (forall x: nat :: x < |s.home| ==> ElementInv(s, x))
    && (forall b: nat :: b < |s.buckets| ==> BucketInv(index, s, b))
    && (forall k :: k in s.at ==> KeyInv(index, s, k))
    && (forall c: nat :: c < |s.pcs| ==> PcInv(index, s, c))
  }

  // ------------------------------------------------------------ what a search finds

  /** With the lock held and no half-done swap, the search finds the current element of a stored key. */
  lemma SearchExact<Key(!new)>(index: Key -> nat, s: State<Key>, c: nat)
    requires Places(index, s) && c < |s.pcs| && (s.pcs[c].Update? || s.pcs[c].Delete?)
    ensures s.pcs[c].b < |s.buckets|
    ensures var b, key := s.pcs[c].b, s.pcs[c].key;
      var i := Search(s.keys, s.buckets[b], key);
      && (i < |s.buckets[b]| <==> key in s.at)
      && (i < |s.buckets[b]| ==> s.buckets[b][i] == s.at[key])
  {
    var b, key := s.pcs[c].b, s.pcs[c].key;
    assert PcInv(index, s, c) && BucketInv(index, s, b);
    SearchFinds(s.keys, s.buckets[b], key);
    var i := Search(s.keys, s.buckets[b], key);
    if i < |s.buckets[b]| {
      assert LinkInv(index, s, b, s.buckets[b][i]);
    }
    if key in s.at {
      assert KeyInv(index, s, key) && ElementInv(s, s.at[key]);
    }
  }

  // -------------------------------------------------------------- steps keep places

  /** Home h is within reach of writer c, who may hold bucket b. */
  predicate Near(h: Home, c: nat, b: nat) {
    h == InFree || h == InSpare(c) || h == InHand(c) || h == InBucket(b)
  }

  /** From s to t, writer c touched at most element x, bucket b and keys of that bucket. */
  ghost predicate Local<Key(!new)>(index: Key -> nat, s: State<Key>, t: State<Key>, c: nat, b: nat, x: nat) {
    && Shape(s) && Shape(t) && c < |s.pcs| == |t.pcs| && |t.home| == |s.home| && |t.buckets| == |s.buckets|
    && t.pcs == s.pcs[c := t.pcs[c]] && t.spare == s.spare[c := t.spare[c]]
    && (forall a :: 0 <= a < |s.buckets| && a != b ==> t.buckets[a] == s.buckets[a] && t.lock[a] == s.lock[a])
    && (b < |s.buckets| ==> s.lock[b] == None || s.lock[b] == Some(c))
    && (forall y: nat :: y < |s.home| && y != x ==>
          t.home[y] == s.home[y] && (y in t.free <==> y in s.free) && (y in t.keys <==> y in s.keys)
          && (y in s.keys ==> t.keys[y] == s.keys[y]))
    && (x < |s.home| ==> Near(s.home[x], c, b) && Near(t.home[x], c, b))
    && (forall k :: index(k) != b ==> (k in t.at <==> k in s.at) && (k in s.at ==> t.at[k] == s.at[k]))
  }

  /** What a local change can break. */
  ghost predicate Mended<Key(!new)>(index: Key -> nat, t: State<Key>, c: nat, b: nat, x: nat)
    requires Shape(t) && c < |t.pcs|
  {
    && FreeInv(t) && PcInv(index, t, c)
    && (b < |t.buckets| ==> BucketInv(index, t, b))
    && (forall y: nat :: y < |t.home| && (y == x || Near(t.home[y], c, b)) ==> ElementInv(t, y))
    && (forall k :: k in t.at && index(k) == b ==> KeyInv(index, t, k))
  }

  lemma OtherWriters<Key(!new)>(index: Key -> nat, s: State<Key>, t: State<Key>, c: nat, b: nat, x: nat, d: nat)
    requires Places(index, s) && Local(index, s, t, c, b, x) && d < |s.pcs| && d != c
    ensures PcInv(index, t, d)
  {
    assert PcInv(index, s, d);
  }

  lemma OtherBuckets<Key(!new)>(index: Key -> nat, s: State<Key>, t: State<Key>, c: nat, b: nat, x: nat, a: nat)
    requires Places(index, s) && Local(index, s, t, c, b, x) && a < |s.buckets| && a != b
    requires Critical(s.pcs[c]) ==> s.pcs[c].b == b
    ensures BucketInv(index, t, a)
  {
    assert BucketInv(index, s, a);
    forall y | y in t.buckets[a]
      ensures LinkInv(index, t, a, y)
    {
      assert LinkInv(index, s, a, y);
    }
  }

  /** A local change that leaves its own surroundings in order leaves everything in order. */
  lemma LocalKeeps<Key(!new)>(index: Key -> nat, s: State<Key>, t: State<Key>, c: nat, b: nat, x: nat)
    requires Places(index, s) && Local(index, s, t, c, b, x) && Mended(index, t, c, b, x)
    requires Critical(s.pcs[c]) ==> s.pcs[c].b == b
    ensures Places(index, t)
  {
    forall y: nat | y < |t.home|
      ensures ElementInv(t, y)
    {
      assert ElementInv(s, y);
    }
    forall a: nat | a < |t.buckets|
      ensures BucketInv(index, t, a)
    {
      if a != b {
        OtherBuckets(index, s, t, c, b, x, a);
      }
    }
    forall k | k in t.at
      ensures KeyInv(index, t, k)
    {
      assert k in s.at ==> KeyInv(index, s, k);
    }
    forall d: nat | d < |t.pcs|
      ensures PcInv(index, t, d)
    {
      if d != c {
        OtherWriters(index, s, t, c, b, x, d);
      }
    }
  }

  /** Locking, unlocking, and a refused update or a delete of an absent key: no element moves. */
  lemma PcOnlyKeeps<Key(!new)>(index: Key -> nat, s: State<Key>, t: State<Key>, c: nat, b: nat, pc: Pc<Key>,
      l: Option<nat>)
    requires Places(index, s) && c < |s.pcs|
    requires b < |s.buckets| && (s.lock[b] == None || s.lock[b] == Some(c)) && (Critical(s.pcs[c]) ==> s.pcs[c].b == b)
    requires t == Goto(s, c, pc).(lock := s.lock[b := l])
    requires !MidSwap(s.pcs[c]) && !MidSwap(pc) && !pc.Taken?
    requires HasHand(pc) == HasHand(s.pcs[c]) && (HasHand(pc) ==> pc.hand == s.pcs[c].hand)
    requires if Critical(pc) then pc.b == b && l == Some(c) else l == None
    requires pc.Update? || pc.Delete? ==> b == index(pc.key)
    ensures Places(index, t)
  {
    assert PcInv(index, s, c);
    assert BucketInv(index, s, b);
    forall y: nat | y < |t.home|
      ensures ElementInv(t, y)
    {
      assert ElementInv(s, y);
    }
    forall y | y in t.buckets[b]
      ensures LinkInv(index, t, b, y)
    {
      assert y in s.buckets[b] ==> LinkInv(index, s, b, y);
    }
    forall k | k in t.at && index(k) == b
      ensures KeyInv(index, t, k)
    {
      assert k in s.at ==> KeyInv(index, s, k);
    }
    LocalKeeps(index, s, t, c, b, |s.home|);
  }

  /** ebpf_allocator_free. */
  lemma FreeKeeps<Key(!new)>(index: Key -> nat, s: State<Key>, t: State<Key>, c: nat, hand: nat)
    requires Places(index, s) && c < |s.pcs|
    requires s.pcs[c] == Freeing(hand)
    requires t == Goto(s, c, Idle).(free := [hand] + s.free, home := SetHome(s.home, hand, InFree))
    ensures Places(index, t)
  {
    assert PcInv(index, s, c);
    assert hand !in s.free;
    forall y: nat | y < |t.home|
      ensures ElementInv(t, y)
    {
      assert ElementInv(s, y);
    }
    forall k | k in t.at && index(k) == |s.buckets|
      ensures KeyInv(index, t, k)
    {
      assert KeyInv(index, s, k);
    }
    LocalKeeps(index, s, t, c, |s.buckets|, hand);
  }

  /** get_extra_elem. */
  lemma SwapKeeps<Key(!new)>(index: Key -> nat, s: State<Key>, t: State<Key>, c: nat, b: nat, key: Key)
    requires Places(index, s) && c < |s.pcs|
    requires s.pcs[c].Update? && s.pcs[c].b == b && s.pcs[c].key == key && key in s.at
    requires t == Goto(s, c, Swapped(b, key, s.spare[c], s.at[key])).(
                    spare := s.spare[c := s.at[key]], home := SetHome(s.home, s.spare[c], InHand(c)))
    ensures Places(index, t)
  {
    assert PcInv(index, s, c);
    assert BucketInv(index, s, b);
    assert KeyInv(index, s, key);
    forall y: nat | y < |t.home|
      ensures ElementInv(t, y)
    {
      assert ElementInv(s, y);
    }
    forall y | y in t.buckets[b]
      ensures LinkInv(index, t, b, y)
    {
      assert y in s.buckets[b] ==> LinkInv(index, s, b, y);
    }
    forall k | k in t.at && index(k) == b
      ensures KeyInv(index, t, k)
    {
      assert k in s.at ==> KeyInv(index, s, k);
    }
    LocalKeeps(index, s, t, c, b, s.spare[c]);
  }

  /** ebpf_allocator_alloc. */
  lemma TakeKeeps<Key(!new)>(index: Key -> nat, s: State<Key>, t: State<Key>, c: nat, b: nat, key: Key)
    requires Places(index, s) && c < |s.pcs|
    requires s.pcs[c].Update? && s.pcs[c].b == b && s.pcs[c].key == key && key !in s.at && s.free != []
    requires t == Goto(s, c, Taken(b, key, s.free[0])).(
                    free := s.free[1..], home := SetHome(s.home, s.free[0], InHand(c)))
    ensures Places(index, t)
  {
    assert PcInv(index, s, c);
    assert BucketInv(index, s, b);
    assert s.free[0] in s.free && s.free[0] !in s.free[1..] && forall y :: y in s.free[1..] ==> y in s.free;
    forall y: nat | y < |t.home|
      ensures ElementInv(t, y)
    {
      assert ElementInv(s, y);
    }
    forall y | y in t.buckets[b]
      ensures LinkInv(index, t, b, y)
    {
      assert y in s.buckets[b] ==> LinkInv(index, s, b, y);
    }
    forall k | k in t.at && index(k) == b
      ensures KeyInv(index, t, k)
    {
      assert k in s.at ==> KeyInv(index, s, k);
    }
    LocalKeeps(index, s, t, c, b, s.free[0]);
  }

  lemma LinkHandLocal<Key(!new)>(index: Key -> nat, s: State<Key>, c: nat, b: nat, key: Key, hand: nat, pc: Pc<Key>)
    requires Shape(s) && c < |s.pcs| && b < |s.buckets| && s.lock[b] == Some(c)
    requires b == index(key) && Is(s, hand, InHand(c))
    ensures Local(index, s, Goto(LinkHand(s, b, key, hand), c, pc), c, b, hand)
  {
  }

  lemma LinkSwappedBucket<Key(!new)>(index: Key -> nat, s: State<Key>, t: State<Key>, c: nat, b: nat, key: Key,
      hand: nat, prev: nat)
    requires Places(index, s) && c < |s.pcs| && s.pcs[c] == Swapped(b, key, hand, prev) && b < |s.buckets|
    requires t == Goto(LinkHand(s, b, key, hand), c, Inserted(b, key, prev))
    ensures BucketInv(index, t, b)
  {
    assert PcInv(index, s, c) && BucketInv(index, s, b);
    assert hand !in s.buckets[b];
    forall y | y in t.buckets[b]
      ensures LinkInv(index, t, b, y)
    {
      assert y in s.buckets[b] ==> LinkInv(index, s, b, y);
    }
  }

  /** The replacement goes to the head of the bucket, the old element still behind it. */
  lemma LinkSwappedKeeps<Key(!new)>(index: Key -> nat, s: State<Key>, t: State<Key>, c: nat, b: nat, key: Key,
      hand: nat, prev: nat)
    requires Places(index, s) && c < |s.pcs| && s.pcs[c] == Swapped(b, key, hand, prev) && b < |s.buckets|
    requires t == Goto(LinkHand(s, b, key, hand), c, Inserted(b, key, prev))
    ensures Places(index, t)
  {
    assert PcInv(index, s, c) && KeyInv(index, s, key);
    LinkHandLocal(index, s, c, b, key, hand, Inserted(b, key, prev));
    LinkSwappedBucket(index, s, t, c, b, key, hand, prev);
    forall y: nat | y < |t.home|
      ensures ElementInv(t, y)
    {
      assert ElementInv(s, y);
    }
    forall k | k in t.at && index(k) == b
      ensures KeyInv(index, t, k)
    {
      assert KeyInv(index, s, k);
    }
    LocalKeeps(index, s, t, c, b, hand);
  }

  /** A new key goes to the head of the bucket. */
  lemma LinkTakenKeeps<Key(!new)>(index: Key -> nat, s: State<Key>, t: State<Key>, c: nat, b: nat, key: Key, hand: nat)
    requires Places(index, s) && c < |s.pcs|
    requires s.pcs[c] == Taken(b, key, hand) && b < |s.buckets|
    requires t == Goto(LinkHand(s, b, key, hand), c, Leaving(b))
    ensures Places(index, t)
  {
    assert PcInv(index, s, c);
    LinkHandLocal(index, s, c, b, key, hand, Leaving(b));
    assert BucketInv(index, s, b);
    assert hand !in s.buckets[b];
    forall y: nat | y < |t.home|
      ensures ElementInv(t, y)
    {
      assert ElementInv(s, y);
    }
    forall y | y in t.buckets[b]
      ensures LinkInv(index, t, b, y)
    {
      assert y in s.buckets[b] ==> LinkInv(index, s, b, y);
    }
    forall k | k in t.at && index(k) == b
      ensures KeyInv(index, t, k)
    {
      assert k in s.at ==> KeyInv(index, s, k);
    }
    LocalKeeps(index, s, t, c, b, hand);
  }

  /** The old element is unlinked. */
  lemma RemoveOldKeeps<Key(!new)>(index: Key -> nat, s: State<Key>, t: State<Key>, c: nat, b: nat, prev: nat)
    requires Places(index, s) && c < |s.pcs|
    requires s.pcs[c].Inserted? && s.pcs[c].b == b && s.pcs[c].prev == prev && Bounds(s, s.pcs[c])
    requires t == RemoveOld(s, c)
    ensures Places(index, t)
  {
    assert PcInv(index, s, c);
    assert BucketInv(index, s, b);
    WithoutOne(s.buckets[b], IndexOf(s.buckets[b], prev), prev);
    forall y: nat | y < |t.home|
      ensures ElementInv(t, y)
    {
      assert ElementInv(s, y);
    }
    forall y | y in t.buckets[b]
      ensures LinkInv(index, t, b, y)
    {
      assert y in s.buckets[b] ==> LinkInv(index, s, b, y);
    }
    forall k | k in t.at && index(k) == b
      ensures KeyInv(index, t, k)
    {
      assert k in s.at ==> KeyInv(index, s, k);
    }
    LocalKeeps(index, s, t, c, b, prev);
  }

  /** The element of a deleted key is unlinked. */
  lemma UnlinkKeeps<Key(!new)>(index: Key -> nat, s: State<Key>, t: State<Key>, c: nat, b: nat, key: Key, i: nat)
    requires Places(index, s) && c < |s.pcs|
    requires s.pcs[c] == Delete(b, key) && b < |s.buckets| && i < |s.buckets[b]|
    requires key in s.at && s.at[key] == s.buckets[b][i]
    requires t == Goto(s, c, Unlinked(b, s.at[key])).(
                    buckets := s.buckets[b := Without(s.buckets[b], i)], at := s.at - {key},
                    home := SetHome(s.home, s.at[key], InHand(c)))
    ensures Places(index, t)
  {
    assert PcInv(index, s, c);
    assert BucketInv(index, s, b);
    WithoutOne(s.buckets[b], i, s.at[key]);
    forall y: nat | y < |t.home|
      ensures ElementInv(t, y)
    {
      assert ElementInv(s, y);
    }
    forall y | y in t.buckets[b]
      ensures LinkInv(index, t, b, y)
    {
      assert y in s.buckets[b] ==> LinkInv(index, s, b, y);
    }
    forall k | k in t.at && index(k) == b
      ensures KeyInv(index, t, k)
    {
      assert k in s.at ==> KeyInv(index, s, k);
    }
    LocalKeeps(index, s, t, c, b, s.at[key]);
  }

  /** A writer that is not idle can always take its next step. */
  lemma NeverStuck<Key(!new)>(index: Key -> nat, s: State<Key>, c: nat)
    requires Places(index, s) && c < |s.pcs| && !s.pcs[c].Idle?
    ensures Enabled(index, s, Act(c))
  {
    assert PcInv(index, s, c);
    if s.pcs[c].Inserted? {
      assert ElementInv(s, s.pcs[c].prev);
    }
  }

  lemma UpdateKeeps<Key(!new)>(index: Key -> nat, s: State<Key>, c: nat, b: nat, key: Key)
    requires Places(index, s) && Enabled(index, s, Act(c)) && s.pcs[c].Update? && s.pcs[c].b == b && s.pcs[c].key == key
    ensures Places(index, DoUpdate(s, c))
  {
    var t := DoUpdate(s, c);
    assert PcInv(index, s, c);
    SearchExact(index, s, c);
    if t.pcs[c].Swapped? {
      SwapKeeps(index, s, t, c, b, key);
    } else if t.pcs[c].Taken? {
      TakeKeeps(index, s, t, c, b, key);
    } else {
      PcOnlyKeeps(index, s, t, c, b, Leaving(b), Some(c));
    }
  }

  lemma DeleteKeeps<Key(!new)>(index: Key -> nat, s: State<Key>, c: nat, b: nat, key: Key)
    requires Places(index, s) && Enabled(index, s, Act(c)) && s.pcs[c] == Delete(b, key)
    ensures Places(index, DoDelete(s, c))
  {
    var t := DoDelete(s, c);
    assert PcInv(index, s, c);
    SearchExact(index, s, c);
    var i := Search(s.keys, s.buckets[b], key);
    if i < |s.buckets[b]| {
      UnlinkKeeps(index, s, t, c, b, key, i);
    } else {
      PcOnlyKeeps(index, s, t, c, b, Leaving(b), Some(c));
    }
  }

  lemma PlacesKept<Key(!new)>(index: Key -> nat, s: State<Key>, step: Step<Key>)
    requires Places(index, s) && Enabled(index, s, step)
    ensures Places(index, Apply(index, s, step))
  {
    var c, t := step.c, Apply(index, s, step);
    assert PcInv(index, s, c);
    match step
    case LockUpdate(_, key, noExist, exist) =>
      PcOnlyKeeps(index, s, t, c, index(key), Update(index(key), key, noExist, exist), Some(c));
    case LockDelete(_, key) =>
      PcOnlyKeeps(index, s, t, c, index(key), Delete(index(key), key), Some(c));
    case Act(_) =>
      match s.pcs[c]
      case Update(b, key, _, _) => UpdateKeeps(index, s, c, b, key);
      case Swapped(b, key, hand, prev) => LinkSwappedKeeps(index, s, t, c, b, key, hand, prev);
      case Taken(b, key, hand) => LinkTakenKeeps(index, s, t, c, b, key, hand);
      case Inserted(b, key, prev) => RemoveOldKeeps(index, s, t, c, b, prev);
      case Delete(b, key) => DeleteKeeps(index, s, c, b, key);
      case Unlinked(b, hand) => PcOnlyKeeps(index, s, t, c, b, Freeing(hand), None);
      case Leaving(b) => PcOnlyKeeps(index, s, t, c, b, Idle, None);
      case Freeing(hand) => FreeKeeps(index, s, t, c, hand);
  }
}
