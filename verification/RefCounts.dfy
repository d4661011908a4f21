/**
Environments, maps and programs of the eBPF runtime keep each other alive
through reference counts. `handles` counts the references that clients hold;
`destroyed` lists the objects whose destructor has run, in order.
*/
module RefCounts {
  import opened Collections

  const MAX_ATTACHED: nat := 64   // EBPF_PROG_MAX_ATTACHED_MAPS

  datatype Object =
    | MapObject(env: nat, refs: nat)
    | ProgObject(env: nat, refs: nat,
                 slots: seq<Option<nat>>,   // dep_maps
                 n: nat,                    // ndep_maps
                 done: nat)                 // how many of them the destructor has released

  datatype State = State(
    envs: map<nat, nat>,        // the count of each environment
    objects: map<nat, Object>,  // live objects
    next: nat,                  // objects are numbered as they are created
    handles: map<nat, nat>,
    destroyed: seq<nat>
  )

  function Handles(s: State, x: nat): nat {
    if x in s.handles then s.handles[x] else 0
  }

  /** The program has attached the map and not released it yet. */
  ghost predicate Lists(o: Object, m: nat) {
    o.ProgObject? && exists i :: o.done <= i < o.n && i < |o.slots| && o.slots[i] == Some(m)
  }

  ghost function Listing(objects: map<nat, Object>, m: nat): set<nat> {
    set p | p in objects && Lists(objects[p], m)
  }

  ghost function Members(objects: map<nat, Object>, e: nat): set<nat> {
    set x | x in objects && objects[x].env == e
  }

  // ------------------------------------------------------------------ the invariant

  /** Attached maps are a duplicate-free prefix of the slots, and the ones not yet released are live. */
  ghost predicate SlotsOk(objects: map<nat, Object>, o: Object) {
    o.ProgObject? ==>
      && |o.slots| == MAX_ATTACHED && o.done <= o.n <= MAX_ATTACHED
      && (forall i :: 0 <= i < o.n ==> o.slots[i].Some?)
      && (forall i :: o.n <= i < MAX_ATTACHED ==> o.slots[i].None?)
      && (forall i, j :: 0 <= i < j < o.n ==> o.slots[i] != o.slots[j])
      && (forall m :: Lists(o, m) ==> m in objects && objects[m].MapObject? && objects[m].env == o.env)
  }

  /**
  The object's count is the number of references to it. `loose` is a reference that
  its owner has given up but not yet taken off the count; `dying` are the objects
  whose destructor is running.
  */
  ghost predicate ObjectOk(s: State, loose: Option<nat>, dying: set<nat>, x: nat)
    requires x in s.objects
  {
    var o := s.objects[x];
    && x < s.next && o.env in s.envs && SlotsOk(s.objects, o)
    && o.refs == Handles(s, x) + |Listing(s.objects, x)| + (if loose == Some(x) then 1 else 0)
    && (o.refs > 0 || x in dying)
    && (o.ProgObject? && x !in dying ==> o.done == 0)
  }

  ghost predicate ObjectsOk(s: State, loose: Option<nat>, dying: set<nat>) {
    forall x {:trigger ObjectOk(s, loose, dying, x)} :: x in s.objects ==> ObjectOk(s, loose, dying, x)
  }

  ghost predicate EnvsOk(s: State) {
    forall e {:trigger s.envs[e]} :: e in s.envs ==> s.envs[e] == |Members(s.objects, e)|
  }

  /** References lead to live objects only. */
  ghost predicate LiveOk(s: State, loose: Option<nat>, dying: set<nat>) {
    && (forall x {:trigger s.handles[x]} :: x in s.handles && s.handles[x] > 0 ==> x in s.objects)
    && (loose.Some? ==> loose.value in s.objects) && (forall x :: x in dying ==> x in s.objects)
  }

  /** Destructors have run for exactly the objects that are gone, once each. */
  ghost predicate LogOk(s: State, dying: set<nat>) {
    && Distinct(s.destroyed)
    && (forall x: nat {:trigger x in s.destroyed} ::
          x in s.destroyed <==> x < s.next && (x !in s.objects || x in dying))
  }

  ghost predicate Inv(s: State, loose: Option<nat>, dying: set<nat>) {
    ObjectsOk(s, loose, dying) && EnvsOk(s) && LiveOk(s, loose, dying) && LogOk(s, dying)
  }

  // --------------------------------------------------------------------- the changes

  function SetRefs(o: Object, refs: nat): Object { o.(refs := refs) }

  /** Take the loose reference off the count. */
  function Dropped(s: State, x: nat): State
    requires x in s.objects && s.objects[x].refs > 0
  {
    s.(objects := s.objects[x := SetRefs(s.objects[x], s.objects[x].refs - 1)])
  }

  /** Changing a count changes neither what programs list nor where objects belong. */
  lemma SameLists(objects: map<nat, Object>, x: nat, refs: nat)
    requires x in objects
    ensures forall m :: Listing(objects[x := SetRefs(objects[x], refs)], m) == Listing(objects, m)
    ensures forall e :: Members(objects[x := SetRefs(objects[x], refs)], e) == Members(objects, e)
  {
  }

  lemma SlotsStay(objects: map<nat, Object>, after: map<nat, Object>, o: Object)
    requires SlotsOk(objects, o)
    requires forall m :: m in objects && objects[m].MapObject? && Lists(o, m) ==>
      m in after && after[m].MapObject? && after[m].env == objects[m].env
    ensures SlotsOk(after, o)
  {
  }

  /** While other references remain, taking one off is all there is to do. */
  lemma DropObject(s: State, x: nat, dying: set<nat>, y: nat)
    requires x in s.objects && s.objects[x].refs > 0 && y in s.objects && ObjectOk(s, Some(x), dying, y)
    requires y == x ==> s.objects[x].refs > 1 || x in dying
    ensures ObjectOk(Dropped(s, x), None, dying, y)
  {
    SameLists(s.objects, x, s.objects[x].refs - 1);
    SlotsStay(s.objects, Dropped(s, x).objects, s.objects[y]);
  }

  lemma DropKeeps(s: State, x: nat, dying: set<nat>)
    requires Inv(s, Some(x), dying) && s.objects[x].refs > 1
    ensures Inv(Dropped(s, x), None, dying)
  {
    var t := Dropped(s, x);
    SameLists(s.objects, x, s.objects[x].refs - 1);
    forall y | y in t.objects
      ensures ObjectOk(t, None, dying, y)
    {
      DropObject(s, x, dying, y);
    }
  }

  // ----------------------------------------------------------- the last reference goes

  /** The object is freed and leaves its environment. */
  function Freed(s: State, x: nat): State
    requires x in s.objects && s.objects[x].env in s.envs && s.envs[s.objects[x].env] > 0
  {
    s.(objects := s.objects - {x}, envs := s.envs[s.objects[x].env := s.envs[s.objects[x].env] - 1])
  }

  /** An object that lists nothing can go without a change to any list. */
  lemma FreedLists(objects: map<nat, Object>, x: nat)
    requires x in objects && forall m :: !Lists(objects[x], m)
    ensures forall m :: Listing(objects - {x}, m) == Listing(objects, m)
    ensures forall e :: Members(objects - {x}, e) == Members(objects, e) - {x}
  {
  }

  /** Nobody refers to an object whose count is zero. */
  lemma NobodyRefers(s: State, x: nat, dying: set<nat>, y: nat)
    requires Inv(s, None, dying) && x in s.objects && s.objects[x].refs == 0 && y in s.objects
    ensures !Lists(s.objects[y], x) && Handles(s, x) == 0
  {
    assert ObjectOk(s, None, dying, x);
    assert y !in Listing(s.objects, x);
  }

  /** The environment of a live object has a positive count. */
  lemma EnvCounts(s: State, x: nat, loose: Option<nat>, dying: set<nat>)
    requires Inv(s, loose, dying) && x in s.objects
    ensures s.objects[x].env in s.envs && s.envs[s.objects[x].env] > 0
  {
    assert ObjectOk(s, loose, dying, x);
    assert x in Members(s.objects, s.objects[x].env);
  }

  lemma FreedEnvs(s: State, x: nat)
    requires x in s.objects && s.objects[x].env in s.envs && s.envs[s.objects[x].env] > 0 && EnvsOk(s)
    requires forall m :: !Lists(s.objects[x], m)
    ensures EnvsOk(Freed(s, x))
  {
    FreedLists(s.objects, x);
    var t := Freed(s, x);
    forall e | e in t.envs
      ensures t.envs[e] == |Members(t.objects, e)|
    {
      assert Members(t.objects, e) == Members(s.objects, e) - {x};
      assert x in Members(s.objects, e) <==> e == s.objects[x].env;
    }
  }

  lemma FreedObject(s: State, x: nat, dying: set<nat>, y: nat)
    requires x in s.objects && s.objects[x].env in s.envs && s.envs[s.objects[x].env] > 0
    requires (forall m :: !Lists(s.objects[x], m)) && y in s.objects && y != x && ObjectOk(s, None, dying, y)
    requires !Lists(s.objects[y], x)
    ensures ObjectOk(Freed(s, x), None, dying - {x}, y)
  {
    FreedLists(s.objects, x);
    SlotsStay(s.objects, Freed(s, x).objects, s.objects[y]);
  }

  /** A dying object that lists nothing any more is freed. */
  lemma FreeKeeps(s: State, x: nat, dying: set<nat>)
    requires Inv(s, None, dying) && x in dying && s.objects[x].refs == 0 && forall m :: !Lists(s.objects[x], m)
    ensures s.objects[x].env in s.envs && s.envs[s.objects[x].env] > 0
    ensures Inv(Freed(s, x), None, dying - {x})
  {
    EnvCounts(s, x, None, dying);
    FreedEnvs(s, x);
    NobodyRefers(s, x, dying, x);
    var t := Freed(s, x);
    forall y | y in t.objects
      ensures ObjectOk(t, None, dying - {x}, y)
    {
      NobodyRefers(s, x, dying, y);
      FreedObject(s, x, dying, y);
    }
  }

  /** The last reference goes, and the destructor starts. */
  function Doomed(s: State, x: nat): State
    requires x in s.objects && s.objects[x].refs > 0
  {
    Dropped(s, x).(destroyed := s.destroyed + [x])
  }

  lemma DoomObject(s: State, x: nat, dying: set<nat>, y: nat)
    requires x in s.objects && s.objects[x].refs == 1 && y in s.objects && ObjectOk(s, Some(x), dying, y)
    ensures ObjectOk(Doomed(s, x), None, dying + {x}, y)
  {
    SameLists(s.objects, x, 0);
    SlotsStay(s.objects, Doomed(s, x).objects, s.objects[y]);
  }

  lemma DoomLog(s: State, x: nat, dying: set<nat>)
    requires LogOk(s, dying) && x in s.objects && s.objects[x].refs > 0 && x < s.next && x !in dying
    ensures LogOk(Doomed(s, x), dying + {x})
  {
    assert x !in s.destroyed;
  }

  lemma DoomKeeps(s: State, x: nat, dying: set<nat>)
    requires Inv(s, Some(x), dying) && s.objects[x].refs == 1 && x !in dying
    ensures Inv(Doomed(s, x), None, dying + {x})
  {
    SameLists(s.objects, x, 0);
    var t := Doomed(s, x);
    assert ObjectOk(s, Some(x), dying, x);
    DoomLog(s, x, dying);
    forall y | y in t.objects
      ensures ObjectOk(t, None, dying + {x}, y)
    {
      DoomObject(s, x, dying, y);
    }
  }

  // ------------------------------------------------------- what programs list changes

  /** From one set of objects to the other, only program p changed, and of it only what it lists. */
  ghost predicate Relisted(objects: map<nat, Object>, after: map<nat, Object>, p: nat) {
    && p in objects && p in after && objects[p].ProgObject? && after[p].ProgObject?
    && after == objects[p := after[p]] && after[p].env == objects[p].env && after[p].refs == objects[p].refs
  }

  lemma RelistedLists(objects: map<nat, Object>, after: map<nat, Object>, p: nat, m: nat)
    requires Relisted(objects, after, p)
    ensures Lists(after[p], m) && !Lists(objects[p], m) ==> Listing(after, m) == Listing(objects, m) + {p}
    ensures !Lists(after[p], m) && Lists(objects[p], m) ==> Listing(after, m) == Listing(objects, m) - {p}
    ensures (Lists(after[p], m) <==> Lists(objects[p], m)) ==> Listing(after, m) == Listing(objects, m)
    ensures p in Listing(objects, m) <==> Lists(objects[p], m)
  {
  }

  lemma RelistedMembers(objects: map<nat, Object>, after: map<nat, Object>, p: nat)
    requires Relisted(objects, after, p)
    ensures forall e :: Members(after, e) == Members(objects, e)
  {
  }

  /** The destructor of a program lets go of its next map. */
  function LetGo(o: Object): Object
    requires o.ProgObject?
  {
    o.(done := o.done + 1)
  }

  lemma LetGoLists(objects: map<nat, Object>, o: Object, x: nat)
    requires o.ProgObject? && SlotsOk(objects, o) && o.done < o.n
    ensures Lists(LetGo(o), x) <==> Lists(o, x) && o.slots[o.done] != Some(x)
    ensures Lists(o, o.slots[o.done].value) && SlotsOk(objects, LetGo(o))
  {
  }

  lemma LetGoObject(s: State, t: State, p: nat, dying: set<nat>, y: nat)
    requires p in s.objects && s.objects[p].ProgObject? && p in dying && ObjectOk(s, None, dying, p)
    requires s.objects[p].done < s.objects[p].n && t == s.(objects := s.objects[p := LetGo(s.objects[p])])
    requires y in s.objects && ObjectOk(s, None, dying, y)
    ensures ObjectOk(t, s.objects[p].slots[s.objects[p].done], dying, y)
  {
    LetGoLists(s.objects, s.objects[p], y);
    RelistedLists(s.objects, t.objects, p, y);
    SlotsStay(s.objects, t.objects, t.objects[y]);
  }

  lemma LetGoKeeps(s: State, t: State, p: nat, dying: set<nat>)
    requires Inv(s, None, dying) && p in dying && s.objects[p].ProgObject?
    requires s.objects[p].done < s.objects[p].n && t == s.(objects := s.objects[p := LetGo(s.objects[p])])
    ensures ObjectOk(s, None, dying, p) && Inv(t, s.objects[p].slots[s.objects[p].done], dying)
  {
    assert ObjectOk(s, None, dying, p);
    LetGoLists(s.objects, s.objects[p], 0);
    RelistedMembers(s.objects, t.objects, p);
    forall y | y in t.objects
      ensures ObjectOk(t, s.objects[p].slots[s.objects[p].done], dying, y)
    {
      LetGoObject(s, t, p, dying, y);
    }
  }

  /** A program attaches one more map. */
  function AttachedTo(o: Object, m: nat): Object
    requires o.ProgObject? && o.n < |o.slots|
  {
    o.(slots := o.slots[o.n := Some(m)], n := o.n + 1)
  }

  lemma AttachLists(objects: map<nat, Object>, o: Object, m: nat, x: nat)
    requires o.ProgObject? && SlotsOk(objects, o) && o.done == 0 && o.n < MAX_ATTACHED && !Lists(o, m)
    requires m in objects && objects[m].MapObject? && objects[m].env == o.env
    ensures Lists(AttachedTo(o, m), x) <==> Lists(o, x) || x == m
    ensures SlotsOk(objects, AttachedTo(o, m))
  {
    var a := AttachedTo(o, m);
    assert a.slots[o.n] == Some(m);
    forall y
      ensures Lists(a, y) <==> Lists(o, y) || y == m
    {
      if Lists(o, y) {
        var i :| o.done <= i < o.n && i < |o.slots| && o.slots[i] == Some(y);
        assert a.slots[i] == Some(y);
      }
    }
    forall i | 0 <= i < o.n
      ensures a.slots[i] != Some(m)
    {
      assert o.slots[i] != Some(m);
    }
  }

  lemma AttachObject(s: State, t: State, p: nat, m: nat, y: nat)
    requires p in s.objects && s.objects[p].ProgObject? && ObjectOk(s, Some(m), {}, p)
    requires s.objects[p].n < MAX_ATTACHED && !Lists(s.objects[p], m)
    requires m in s.objects && s.objects[m].MapObject? && s.objects[m].env == s.objects[p].env
    requires t == s.(objects := s.objects[p := AttachedTo(s.objects[p], m)])
    requires y in s.objects && ObjectOk(s, Some(m), {}, y)
    ensures ObjectOk(t, None, {}, y)
  {
    AttachLists(s.objects, s.objects[p], m, y);
    RelistedLists(s.objects, t.objects, p, y);
    SlotsStay(s.objects, t.objects, t.objects[y]);
  }

  /** A counted reference that nobody owns becomes the program's. */
  lemma AttachKeeps(s: State, t: State, p: nat, m: nat)
    requires Inv(s, Some(m), {}) && p in s.objects && s.objects[p].ProgObject? && s.objects[p].n < MAX_ATTACHED
    requires !Lists(s.objects[p], m) && s.objects[m].MapObject? && s.objects[m].env == s.objects[p].env
    requires ObjectOk(s, Some(m), {}, p) && t == s.(objects := s.objects[p := AttachedTo(s.objects[p], m)])
    ensures Inv(t, None, {})
  {
    RelistedMembers(s.objects, t.objects, p);
    forall y | y in t.objects
      ensures ObjectOk(t, None, {}, y)
    {
      AttachObject(s, t, p, m, y);
    }
  }

  // ------------------------------------------------------------------ clients' handles

  /** One more reference, which nobody owns yet. */
  function Acquired(s: State, x: nat): State
    requires x in s.objects
  {
    s.(objects := s.objects[x := SetRefs(s.objects[x], s.objects[x].refs + 1)])
  }

  lemma AcquireObject(s: State, x: nat, y: nat)
    requires x in s.objects && y in s.objects && ObjectOk(s, None, {}, y)
    ensures ObjectOk(Acquired(s, x), Some(x), {}, y)
  {
    SameLists(s.objects, x, s.objects[x].refs + 1);
    SlotsStay(s.objects, Acquired(s, x).objects, s.objects[y]);
  }

  lemma AcquireEnvs(s: State, x: nat)
    requires EnvsOk(s) && LiveOk(s, None, {}) && LogOk(s, {}) && x in s.objects
    ensures EnvsOk(Acquired(s, x)) && LiveOk(Acquired(s, x), Some(x), {}) && LogOk(Acquired(s, x), {})
  {
    SameLists(s.objects, x, s.objects[x].refs + 1);
  }

  lemma AcquireKeeps(s: State, x: nat)
    requires Inv(s, None, {}) && x in s.objects
    ensures Inv(Acquired(s, x), Some(x), {})
  {
    AcquireEnvs(s, x);
    forall y | y in s.objects
      ensures ObjectOk(Acquired(s, x), Some(x), {}, y)
    {
      AcquireObject(s, x, y);
    }
  }

  /** A reference that nobody owns becomes a client's. */
  function Taken(s: State, x: nat): State {
    s.(handles := s.handles[x := Handles(s, x) + 1])
  }

  lemma TakeKeeps(s: State, x: nat)
    requires Inv(s, Some(x), {})
    ensures Inv(Taken(s, x), None, {})
  {
    forall y | y in s.objects
      ensures ObjectOk(Taken(s, x), None, {}, y)
    {
      assert ObjectOk(s, Some(x), {}, y);
    }
  }

  /** A client gives up a reference. */
  function GivenUp(s: State, x: nat): State
    requires Handles(s, x) > 0
  {
    s.(handles := s.handles[x := Handles(s, x) - 1])
  }

  lemma GiveUpKeeps(s: State, x: nat)
    requires Inv(s, None, {}) && Handles(s, x) > 0
    ensures Inv(GivenUp(s, x), Some(x), {})
  {
    forall y | y in s.objects
      ensures ObjectOk(GivenUp(s, x), Some(x), {}, y)
    {
      assert ObjectOk(s, None, {}, y);
    }
  }

  // ------------------------------------------------------------------------- creation

  /** A new object with one reference joins its environment. */
  function Created(s: State, o: Object): State
    requires o.env in s.envs
  {
    s.(objects := s.objects[s.next := o], next := s.next + 1, envs := s.envs[o.env := s.envs[o.env] + 1])
  }

  /** An object just created: one reference, nothing attached. */
  predicate Blank(o: Object) {
    o.refs == 1 && (o.ProgObject? ==> o.n == 0 && o.done == 0 && o.slots == seq(MAX_ATTACHED, _ => None))
  }

  lemma CreatedLists(s: State, o: Object)
    requires o.env in s.envs && Blank(o) && s.next !in s.objects
    ensures forall m :: Listing(Created(s, o).objects, m) == Listing(s.objects, m)
    ensures forall e ::
      Members(Created(s, o).objects, e) == Members(s.objects, e) + (if e == o.env then {s.next} else {})
  {
  }

  lemma CreateObject(s: State, o: Object, y: nat)
    requires o.env in s.envs && Blank(o) && s.next !in s.objects && y in s.objects && ObjectOk(s, None, {}, y)
    ensures ObjectOk(Created(s, o), Some(s.next), {}, y)
  {
    CreatedLists(s, o);
    SlotsStay(s.objects, Created(s, o).objects, s.objects[y]);
  }

  lemma NobodyListsNew(s: State)
    requires Inv(s, None, {})
    ensures s.next !in s.objects && Listing(s.objects, s.next) == {} && Handles(s, s.next) == 0
  {
    forall x | x in s.objects
      ensures x < s.next
    {
      assert ObjectOk(s, None, {}, x);
    }
    forall p | p in s.objects
      ensures !Lists(s.objects[p], s.next)
    {
      assert ObjectOk(s, None, {}, p);
    }
  }

  lemma CreatedEnvs(s: State, o: Object)
    requires o.env in s.envs && Blank(o) && s.next !in s.objects && EnvsOk(s)
    ensures EnvsOk(Created(s, o))
  {
    CreatedLists(s, o);
  }

  lemma CreateKeeps(s: State, o: Object)
    requires Inv(s, None, {}) && o.env in s.envs && Blank(o)
    ensures Inv(Created(s, o), Some(s.next), {})
  {
    var t := Created(s, o);
    NobodyListsNew(s);
    CreatedLists(s, o);
    CreatedEnvs(s, o);
    forall y | y in t.objects
      ensures ObjectOk(t, Some(s.next), {}, y)
    {
      if y != s.next {
        CreateObject(s, o, y);
      }
    }
  }

  // --------------------------------------------------------------------- environments

  function EnvAdded(s: State, e: nat): State { s.(envs := s.envs[e := 0]) }

  lemma AddEnvKeeps(s: State, e: nat)
    requires Inv(s, None, {}) && e !in s.envs
    ensures Inv(EnvAdded(s, e), None, {})
  {
    forall x | x in s.objects
      ensures s.objects[x].env != e && ObjectOk(EnvAdded(s, e), None, {}, x)
    {
      assert ObjectOk(s, None, {}, x);
    }
    assert Members(s.objects, e) == {};
  }

  function EnvRemoved(s: State, e: nat): State { s.(envs := s.envs - {e}) }

  lemma RemoveEnvKeeps(s: State, e: nat)
    requires Inv(s, None, {}) && e in s.envs && s.envs[e] == 0
    ensures Inv(EnvRemoved(s, e), None, {})
  {
    EmptyEnv(s, e);
    forall x | x in s.objects
      ensures ObjectOk(EnvRemoved(s, e), None, {}, x)
    {
      assert ObjectOk(s, None, {}, x);
    }
  }

  lemma NothingYet()
    ensures Inv(State(map[], map[], 0, map[], []), None, {})
  {
  }

  // --------------------------------------------------------------------- consequences

  /** An object is live exactly as long as a client or a live program refers to it. */
  lemma LiveIffReferenced(s: State, x: nat)
    requires Inv(s, None, {}) && x < s.next
    ensures x in s.objects <==> Handles(s, x) > 0 || Listing(s.objects, x) != {}
    ensures x !in s.objects <==> x in s.destroyed
    ensures multiset(s.destroyed)[x] <= 1
  {
    OnceAtMost(s.destroyed, x);
    if x in s.objects {
      assert ObjectOk(s, None, {}, x);
      assert Handles(s, x) == 0 ==> |Listing(s.objects, x)| > 0;
    } else {
      forall p | p in s.objects
        ensures !Lists(s.objects[p], x)
      {
        assert ObjectOk(s, None, {}, p);
      }
    }
  }

  /** An environment's count is zero exactly when none of its objects is alive. */
  lemma EmptyEnv(s: State, e: nat)
    requires EnvsOk(s) && e in s.envs
    ensures s.envs[e] == 0 <==> forall x :: x in s.objects ==> s.objects[x].env != e
  {
    if s.envs[e] != 0 {
      var x :| x in Members(s.objects, e);
      assert s.objects[x].env == e;
    } else {
      assert forall x :: x in s.objects && s.objects[x].env == e ==> x in Members(s.objects, e);
    }
  }
}
