/**
No element of the hash map is ever lost: what concurrent writers keep, over
every run from the map's creation to its teardown.
*/
module HashMapConservation {
  import opened Collections
  import opened HashMapWriters
  import HashMap

  // --------------------------------------------------------------------- counting

  function Sum(ns: seq<nat>): nat {
    if ns == [] then 0 else ns[0] + Sum(ns[1..])
  }

  lemma {:induction false} SumUpdate(ns: seq<nat>, i: nat, v: nat)
    requires i < |ns|
    ensures Sum(ns[i := v]) + ns[i] == Sum(ns) + v
  {
    if i == 0 {
      assert ns[0 := v][1..] == ns[1..];
    } else {
      SumUpdate(ns[1..], i - 1, v);
      assert ns[i := v][1..] == ns[1..][i - 1 := v];
    }
  }

  function Lengths(buckets: seq<seq<nat>>): seq<nat> {
    seq(|buckets|, i requires 0 <= i < |buckets| => |buckets[i]|)
  }

  /** The elements a CPU has outside the free list and the buckets: its spare, and one in hand. */
  function Own<Key>(pc: Pc<Key>): nat {
    (if MidSwap(pc) then 0 else 1) + (if HasHand(pc) then 1 else 0)
  }

  /** An element taken from the pool that holds no stored key, or no longer. */
  function Pending<Key>(pc: Pc<Key>): nat {
    if pc.Taken? || pc.Unlinked? || pc.Freeing? then 1 else 0
  }

  function Owns<Key>(pcs: seq<Pc<Key>>): seq<nat> {
    seq(|pcs|, i requires 0 <= i < |pcs| => Own(pcs[i]))
  }

  function Pendings<Key>(pcs: seq<Pc<Key>>): seq<nat> {
    seq(|pcs|, i requires 0 <= i < |pcs| => Pending(pcs[i]))
  }

  lemma PcSums<Key(!new)>(pcs: seq<Pc<Key>>, c: nat, pc: Pc<Key>)
    requires c < |pcs|
    ensures Sum(Owns(pcs[c := pc])) + Own(pcs[c]) == Sum(Owns(pcs)) + Own(pc)
    ensures Sum(Pendings(pcs[c := pc])) + Pending(pcs[c]) == Sum(Pendings(pcs)) + Pending(pc)
  {
    assert Owns(pcs[c := pc]) == Owns(pcs)[c := Own(pc)];
    assert Pendings(pcs[c := pc]) == Pendings(pcs)[c := Pending(pc)];
    SumUpdate(Owns(pcs), c, Own(pc));
    SumUpdate(Pendings(pcs), c, Pending(pc));
  }

  lemma LengthSum(buckets: seq<seq<nat>>, b: nat, list: seq<nat>)
    requires b < |buckets|
    ensures Sum(Lengths(buckets[b := list])) + |buckets[b]| == Sum(Lengths(buckets)) + |list|
  {
    assert Lengths(buckets[b := list]) == Lengths(buckets)[b := |list|];
    SumUpdate(Lengths(buckets), b, |list|);
  }

  ghost predicate Counts<Key(!new)>(s: State<Key>, maxEntries: nat) {
    && |s.home| == maxEntries + |s.pcs|
    && |s.free| + Sum(Lengths(s.buckets)) + Sum(Owns(s.pcs)) == |s.home|
    && |s.free| + |s.at| + Sum(Pendings(s.pcs)) == maxEntries
  }

  /** Elements only move between the free list, bucket b and what writer c has. */
  ghost predicate Balanced<Key(!new)>(s: State<Key>, t: State<Key>, c: nat, b: nat)
    requires Shape(s) && Shape(t) && c < |s.pcs| == |t.pcs| && b < |s.buckets| == |t.buckets|
  {
    && |t.free| + |t.buckets[b]| + Own(t.pcs[c]) == |s.free| + |s.buckets[b]| + Own(s.pcs[c])
    && |t.free| + |t.at| + Pending(t.pcs[c]) == |s.free| + |s.at| + Pending(s.pcs[c])
  }

  lemma BalancedCounts<Key(!new)>(s: State<Key>, t: State<Key>, c: nat, b: nat, maxEntries: nat)
    requires Shape(s) && Shape(t) && c < |s.pcs| == |t.pcs| && b < |s.buckets| == |t.buckets|
    requires t.pcs == s.pcs[c := t.pcs[c]] && t.buckets == s.buckets[b := t.buckets[b]] && |t.home| == |s.home|
    requires Balanced(s, t, c, b) && Counts(s, maxEntries)
    ensures Counts(t, maxEntries)
  {
    PcSums(s.pcs, c, t.pcs[c]);
    LengthSum(s.buckets, b, t.buckets[b]);
  }

  /** What a step's writer knows about its key. */
  ghost predicate Knows<Key(!new)>(s: State<Key>, pc: Pc<Key>) {
    && (Critical(pc) ==> pc.b < |s.buckets|)
    && (pc.Update? || pc.Delete? ==>
          (HashMap.Search(s.keys, s.buckets[pc.b], pc.key) < |s.buckets[pc.b]| <==> pc.key in s.at))
    && (pc.Swapped? ==> pc.key in s.at)
    && (pc.Taken? ==> pc.key !in s.at)
  }

  lemma WritersKnow<Key(!new)>(index: Key -> nat, s: State<Key>, c: nat)
    requires Places(index, s) && c < |s.pcs|
    ensures Knows(s, s.pcs[c])
  {
    assert PcInv(index, s, c);
    if s.pcs[c].Update? || s.pcs[c].Delete? {
      SearchExact(index, s, c);
    }
  }

  lemma UpdateBalances<Key(!new)>(s: State<Key>, c: nat)
    requires Shape(s) && c < |s.pcs| && s.pcs[c].Update? && Knows(s, s.pcs[c])
    ensures var t := DoUpdate(s, c);
      && Shape(t) && |t.pcs| == |s.pcs| && t.buckets == s.buckets && |t.home| == |s.home|
      && t.pcs == s.pcs[c := t.pcs[c]] && Balanced(s, t, c, s.pcs[c].b)
  {
  }

  lemma DeleteBalances<Key(!new)>(s: State<Key>, c: nat)
    requires Shape(s) && c < |s.pcs| && s.pcs[c].Delete? && Knows(s, s.pcs[c])
    ensures var t, b := DoDelete(s, c), s.pcs[c].b;
      && Shape(t) && |t.pcs| == |s.pcs| && |t.buckets| == |s.buckets| && |t.home| == |s.home|
      && t.buckets == s.buckets[b := t.buckets[b]] && t.pcs == s.pcs[c := t.pcs[c]] && Balanced(s, t, c, b)
  {
    if s.pcs[c].key in s.at {
      RemovingKey(s.at, s.pcs[c].key);
    }
  }

  lemma LinksBalance<Key(!new)>(s: State<Key>, c: nat, b: nat, key: Key, hand: nat, pc: Pc<Key>)
    requires Shape(s) && c < |s.pcs| && b < |s.buckets|
    requires Own(pc) + 1 == Own(s.pcs[c]) && Pending(pc) + (if key in s.at then 0 else 1) == Pending(s.pcs[c])
    ensures var t := Goto(LinkHand(s, b, key, hand), c, pc);
      && |t.home| == |s.home| && Balanced(s, t, c, b)
      && t.pcs == s.pcs[c := t.pcs[c]] && t.buckets == s.buckets[b := t.buckets[b]]
  {
  }

  /** Unlinking the old element, unlocking, and freeing. */
  lemma RestBalances<Key(!new)>(index: Key -> nat, s: State<Key>, c: nat, b: nat)
    requires Enabled(index, s, Act(c)) && b < |s.buckets|
    requires s.pcs[c].Inserted? || s.pcs[c].Unlinked? || s.pcs[c].Leaving? || s.pcs[c].Freeing?
    requires Critical(s.pcs[c]) ==> s.pcs[c].b == b
    ensures var t := Apply(index, s, Act(c));
      && Shape(t) && |t.pcs| == |s.pcs| && |t.buckets| == |s.buckets| && |t.home| == |s.home| && Balanced(s, t, c, b)
      && t.pcs == s.pcs[c := t.pcs[c]] && t.buckets == s.buckets[b := t.buckets[b]]
  {
  }

  lemma StepsBalance<Key(!new)>(index: Key -> nat, s: State<Key>, c: nat, b: nat)
    requires Enabled(index, s, Act(c)) && b < |s.buckets| && Knows(s, s.pcs[c])
    requires if Critical(s.pcs[c]) then s.pcs[c].b == b else s.pcs[c].Freeing?
    ensures var t := Apply(index, s, Act(c));
      && Shape(t) && |t.pcs| == |s.pcs| && |t.buckets| == |s.buckets| && |t.home| == |s.home| && Balanced(s, t, c, b)
      && t.pcs == s.pcs[c := t.pcs[c]] && t.buckets == s.buckets[b := t.buckets[b]]
  {
    match s.pcs[c]
    case Update(_, _, _, _) => UpdateBalances(s, c);
    case Delete(_, _) => DeleteBalances(s, c);
    case Swapped(_, key, hand, prev) => LinksBalance(s, c, b, key, hand, Inserted(b, key, prev));
    case Taken(_, key, hand) => LinksBalance(s, c, b, key, hand, Leaving(b));
    case _ => RestBalances(index, s, c, b);
  }

  lemma CountsKept<Key(!new)>(index: Key -> nat, s: State<Key>, step: Step<Key>, maxEntries: nat)
    requires Enabled(index, s, step) && Knows(s, s.pcs[step.c]) && Counts(s, maxEntries) && s.buckets != []
    ensures Counts(Apply(index, s, step), maxEntries)
  {
    var c, t := step.c, Apply(index, s, step);
    var b := if step.Act? && Critical(s.pcs[c]) then s.pcs[c].b else 0;
    if step.Act? {
      StepsBalance(index, s, c, b);
    }
    BalancedCounts(s, t, c, b, maxEntries);
  }

  // -------------------------------------------------------------------------- runs

  /** The map after initialisation: spare elements 0 .. ncpus, the others free. */
  ghost predicate IsInit<Key(!new)>(s: State<Key>, maxEntries: nat) {
    var n := |s.pcs|;
    && s.spare == seq(n, i => i) && s.free == seq(maxEntries, i => n + i)
    && s.buckets != [] && (forall b :: 0 <= b < |s.buckets| ==> s.buckets[b] == [])
    && |s.lock| == |s.buckets| && (forall b :: 0 <= b < |s.lock| ==> s.lock[b] == None)
    && (forall c :: 0 <= c < n ==> s.pcs[c] == Idle)
    && s.at == map[]
    && s.home == seq(n + maxEntries, (i: nat) => if i < n then InSpare(i) else InFree)
  }

  ghost predicate IsRun<Key(!new)>(index: Key -> nat, maxEntries: nat, states: seq<State<Key>>, steps: seq<Step<Key>>) {
    && |states| == |steps| + 1
    && IsInit(states[0], maxEntries)
    && forall k :: 0 <= k < |steps| ==>
         Enabled(index, states[k], steps[k]) && states[k + 1] == Apply(index, states[k], steps[k])
  }

  ghost predicate Inv<Key(!new)>(index: Key -> nat, s: State<Key>, maxEntries: nat) {
    Places(index, s) && Counts(s, maxEntries) && s.buckets != []
  }

  lemma {:induction false} SumOfSame(ns: seq<nat>, v: nat)
    requires forall i :: 0 <= i < |ns| ==> ns[i] == v
    ensures Sum(ns) == |ns| * v
  {
    if ns != [] {
      SumOfSame(ns[1..], v);
    }
  }

  /** An idle CPU has its spare and nothing else. */
  lemma IdleSums<Key(!new)>(pcs: seq<Pc<Key>>)
    requires forall c :: 0 <= c < |pcs| ==> pcs[c] == Idle
    ensures Sum(Owns(pcs)) == |pcs| && Sum(Pendings(pcs)) == 0
  {
    SumOfSame(Owns(pcs), 1);
    SumOfSame(Pendings(pcs), 0);
  }

  lemma InitInv<Key(!new)>(index: Key -> nat, s: State<Key>, maxEntries: nat)
    requires IsInit(s, maxEntries)
    ensures Inv(index, s, maxEntries)
  {
    IdleSums(s.pcs);
    SumOfSame(Lengths(s.buckets), 0);
    forall x: nat | x < |s.home|
      ensures ElementInv(s, x)
    {
      assert x >= |s.pcs| ==> s.free[x - |s.pcs|] == x;
    }
  }

  lemma StepKeeps<Key(!new)>(index: Key -> nat, s: State<Key>, step: Step<Key>, maxEntries: nat)
    requires Inv(index, s, maxEntries) && Enabled(index, s, step)
    ensures Inv(index, Apply(index, s, step), maxEntries)
  {
    PlacesKept(index, s, step);
    WritersKnow(index, s, step.c);
    CountsKept(index, s, step, maxEntries);
  }

  lemma {:induction false} RunInv<Key(!new)>(index: Key -> nat, maxEntries: nat, states: seq<State<Key>>,
      steps: seq<Step<Key>>, k: nat)
    requires IsRun(index, maxEntries, states, steps) && k < |states|
    ensures Inv(index, states[k], maxEntries)
  {
    if k == 0 {
      InitInv(index, states[0], maxEntries);
    } else {
      RunInv(index, maxEntries, states, steps, k - 1);
      StepKeeps(index, states[k - 1], steps[k - 1], maxEntries);
    }
  }

  // ---------------------------------------------------------------------- theorems

  /** Every element is in exactly one place, and no list holds it twice. */
  lemma ExactlyOnePlace<Key(!new)>(index: Key -> nat, maxEntries: nat, states: seq<State<Key>>, steps: seq<Step<Key>>,
      k: nat, x: nat)
    requires IsRun(index, maxEntries, states, steps) && k < |states| && x < maxEntries + |states[k].pcs|
    ensures Shape(states[k])
    ensures exists h :: IsAt(states[k], x, h) && forall g :: IsAt(states[k], x, g) ==> g == h
    ensures Distinct(states[k].free) && forall b :: 0 <= b < |states[k].buckets| ==> Distinct(states[k].buckets[b])
  {
    RunInv(index, maxEntries, states, steps, k);
    var s := states[k];
    assert ElementInv(s, x);
    assert IsAt(s, x, s.home[x]);
    forall g | IsAt(s, x, g)
      ensures g == s.home[x]
    {
      match g
      case InFree =>
      case InSpare(c) => assert PcInv(index, s, c);
      case InBucket(b) => assert BucketInv(index, s, b) && LinkInv(index, s, b, x);
      case InHand(c) => assert PcInv(index, s, c);
    }
    forall b | 0 <= b < |s.buckets|
      ensures Distinct(s.buckets[b])
    {
      assert BucketInv(index, s, b);
    }
  }

  /** In the middle of a swap, the spare slot names the old element, which is still linked. */
  lemma SwapException<Key(!new)>(index: Key -> nat, maxEntries: nat, states: seq<State<Key>>, steps: seq<Step<Key>>,
      k: nat, c: nat)
    requires IsRun(index, maxEntries, states, steps) && k < |states| && c < |states[k].pcs|
    requires MidSwap(states[k].pcs[c])
    ensures var s, pc := states[k], states[k].pcs[c];
      Shape(s) && pc.b < |s.buckets| && s.lock[pc.b] == Some(c) && s.spare[c] in s.buckets[pc.b]
  {
    RunInv(index, maxEntries, states, steps, k);
    var s, pc := states[k], states[k].pcs[c];
    assert PcInv(index, s, c);
    if pc.Swapped? {
      assert KeyInv(index, s, pc.key);
    }
    assert ElementInv(s, s.spare[c]);
  }

  /** An update decides by what is stored at that moment: refuse, replace, or insert. */
  lemma UpdateDecides<Key(!new)>(index: Key -> nat, maxEntries: nat, states: seq<State<Key>>, steps: seq<Step<Key>>,
      k: nat)
    requires IsRun(index, maxEntries, states, steps) && k < |steps|
    requires steps[k].Act? && steps[k].c < |states[k].pcs| && states[k].pcs[steps[k].c].Update?
    ensures var s, t, c := states[k], states[k + 1], steps[k].c;
      var stored, pc := s.pcs[c].key in s.at, s.pcs[c];
      && c < |t.pcs|
      && (t.pcs[c].Swapped? <==> stored && !pc.noExist)
      && (t.pcs[c].Taken? <==> !stored && !pc.exist && s.free != [])
      && (t.pcs[c].Leaving? <==> (stored && pc.noExist) || (!stored && (pc.exist || s.free == [])))
  {
    RunInv(index, maxEntries, states, steps, k);
    assert Enabled(index, states[k], steps[k]) && states[k + 1] == Apply(index, states[k], steps[k]);
    SearchExact(index, states[k], steps[k].c);
  }

  /** The stored keys change when a new key is linked or a deleted one unlinked, and at no other step. */
  lemma KeysChangeOnce<Key(!new)>(index: Key -> nat, maxEntries: nat, states: seq<State<Key>>, steps: seq<Step<Key>>,
      k: nat)
    requires IsRun(index, maxEntries, states, steps) && k < |steps|
    ensures var s, t, step := states[k], states[k + 1], steps[k];
      step.c < |s.pcs| && var pc := s.pcs[step.c];
      if step.Act? && pc.Taken? then pc.key !in s.at && t.at.Keys == s.at.Keys + {pc.key}
      else if step.Act? && pc.Delete? then t.at.Keys == s.at.Keys - {pc.key}
      else t.at.Keys == s.at.Keys
  {
    RunInv(index, maxEntries, states, steps, k);
    assert Enabled(index, states[k], steps[k]) && states[k + 1] == Apply(index, states[k], steps[k]);
    WritersKnow(index, states[k], steps[k].c);
    KeysStep(index, states[k], steps[k]);
  }

  lemma KeysStep<Key(!new)>(index: Key -> nat, s: State<Key>, step: Step<Key>)
    requires Enabled(index, s, step) && Knows(s, s.pcs[step.c])
    ensures var t, pc := Apply(index, s, step), s.pcs[step.c];
      if step.Act? && pc.Taken? then pc.key !in s.at && t.at.Keys == s.at.Keys + {pc.key}
      else if step.Act? && pc.Delete? then t.at.Keys == s.at.Keys - {pc.key}
      else t.at.Keys == s.at.Keys
  {
  }

  /** Outside its critical section a bucket holds no key twice. */
  lemma NoDuplicateKeys<Key(!new)>(index: Key -> nat, maxEntries: nat, states: seq<State<Key>>, steps: seq<Step<Key>>,
      k: nat, b: nat, x: nat, y: nat)
    requires IsRun(index, maxEntries, states, steps) && k < |states|
    requires Shape(states[k]) && b < |states[k].buckets| && states[k].lock[b] == None
    requires x in states[k].buckets[b] && y in states[k].buckets[b]
    ensures x in states[k].keys && y in states[k].keys && (states[k].keys[x] == states[k].keys[y] ==> x == y)
  {
    RunInv(index, maxEntries, states, steps, k);
    assert BucketInv(index, states[k], b);
    assert LinkInv(index, states[k], b, x) && LinkInv(index, states[k], b, y);
  }

  /** The linked keys are those of `at`, and there are at most maxEntries of them. */
  lemma AtMostMaxEntries<Key(!new)>(index: Key -> nat, maxEntries: nat, states: seq<State<Key>>, steps: seq<Step<Key>>,
      k: nat)
    requires IsRun(index, maxEntries, states, steps) && k < |states|
    ensures var s := states[k];
      && (forall b, x :: 0 <= b < |s.buckets| && x in s.buckets[b] ==> x in s.keys && s.keys[x] in s.at)
      && (forall j :: j in s.at ==>
            s.at[j] in s.keys && s.keys[s.at[j]] == j && index(j) < |s.buckets| && s.at[j] in s.buckets[index(j)])
      && |s.at| <= maxEntries
  {
    RunInv(index, maxEntries, states, steps, k);
    var s := states[k];
    forall b, x | 0 <= b < |s.buckets| && x in s.buckets[b]
      ensures x in s.keys && s.keys[x] in s.at
    {
      assert BucketInv(index, s, b) && LinkInv(index, s, b, x);
    }
    forall j | j in s.at
      ensures s.at[j] in s.keys && s.keys[s.at[j]] == j && index(j) < |s.buckets| && s.at[j] in s.buckets[index(j)]
    {
      assert KeyInv(index, s, j) && ElementInv(s, s.at[j]);
    }
  }

  /**
  An insertion finds the pool empty exactly when the stored keys and the elements
  in the hands of other insertions and deletions add up to maxEntries.
  */
  lemma PoolEmptyMeans<Key(!new)>(index: Key -> nat, maxEntries: nat, states: seq<State<Key>>, steps: seq<Step<Key>>,
      k: nat)
    requires IsRun(index, maxEntries, states, steps) && k < |states|
    ensures states[k].free == [] <==> |states[k].at| + Sum(Pendings(states[k].pcs)) == maxEntries
  {
    RunInv(index, maxEntries, states, steps, k);
  }

  /**
  Once the writers are done, returning every spare and every linked element
  brings the allocator's count back to the number of its blocks.
  */
  lemma TeardownCount<Key(!new)>(index: Key -> nat, maxEntries: nat, states: seq<State<Key>>, steps: seq<Step<Key>>,
      k: nat)
    requires IsRun(index, maxEntries, states, steps) && k < |states|
    requires forall c :: 0 <= c < |states[k].pcs| ==> states[k].pcs[c] == Idle
    ensures |states[k].free| + |states[k].spare| + Sum(Lengths(states[k].buckets)) == maxEntries + |states[k].pcs|
  {
    RunInv(index, maxEntries, states, steps, k);
    IdleSums(states[k].pcs);
  }
}
