/** The operations on environments, maps and programs. */
module RefCountsOps {
  import opened Collections
  import opened RefCounts

  datatype Error = OK | EINVAL | EBUSY | EEXIST

  /** Objects disappear and counts change, but nothing else about the objects outside `except`. */
  ghost predicate OnlyCounts(before: State, after: State, except: set<nat>) {
    forall y {:trigger after.objects[y]} :: y in after.objects && y !in except ==>
      y in before.objects && after.objects[y] == SetRefs(before.objects[y], after.objects[y].refs)
  }

  class Runtime {
    var s: State
    var nextEnv: nat

    ghost predicate Valid()
      reads this
    {
      Inv(s, None, {}) && forall e :: e in s.envs ==> e < nextEnv
    }

    constructor ()
      ensures Valid() && s.envs == map[] && s.objects == map[]
    {
      NothingYet();
      s, nextEnv := State(map[], map[], 0, map[], []), 0;
    }

    /** ebpf_env_create. */
    method CreateEnv() returns (e: nat)
      requires Valid()
      modifies this
      ensures Valid() && e !in old(s).envs && s == old(s).(envs := old(s).envs[e := 0])
    {
      e := nextEnv;
      AddEnvKeeps(s, e);
      s, nextEnv := EnvAdded(s, e), nextEnv + 1;
    }

    /** ebpf_env_destroy. */
    method DestroyEnv(e: nat) returns (error: Error)
      requires Valid() && e in s.envs
      modifies this`s
      ensures Valid()
      ensures error == if forall x :: x in s.objects ==> s.objects[x].env != e then OK else EBUSY
      ensures s == if error == OK then old(s).(envs := old(s).envs - {e}) else old(s)
    {
      EmptyEnv(s, e);
      if s.envs[e] != 0 {
        return EBUSY;
      }
      RemoveEnvKeeps(s, e);
      s := EnvRemoved(s, e);
      error := OK;
    }

    /** ebpf_obj_init, with the caller's first handle. */
    method Create(o: Object) returns (x: nat)
      requires Valid() && o.env in s.envs && Blank(o)
      modifies this`s
      ensures Valid() && x !in old(s).objects && s.objects == old(s).objects[x := o]
      ensures Handles(s, x) == 1
    {
      x := s.next;
      NobodyListsNew(s);
      CreateKeeps(s, o);
      TakeKeeps(Created(s, o), x);
      s := Created(s, o);
      s := Taken(s, x);
    }

    /** ebpf_map_create, of a map whose own initialisation succeeds. */
    method CreateMap(e: nat) returns (x: nat)
      requires Valid() && e in s.envs
      modifies this`s
      ensures Valid() && x !in old(s).objects && s.objects == old(s).objects[x := MapObject(e, 1)] && Handles(s, x) == 1
    {
      x := Create(MapObject(e, 1));
    }

    /** ebpf_prog_create: no map is attached. */
    method CreateProg(e: nat) returns (x: nat)
      requires Valid() && e in s.envs
      modifies this`s
      ensures Valid() && x !in old(s).objects && Handles(s, x) == 1
      ensures s.objects == old(s).objects[x := ProgObject(e, 1, seq(MAX_ATTACHED, _ => None), 0, 0)]
    {
      x := Create(ProgObject(e, 1, seq(MAX_ATTACHED, _ => None), 0, 0));
    }

    /** ebpf_obj_acquire, by a client that has a handle. */
    method Acquire(x: nat)
      requires Valid() && Handles(s, x) > 0
      modifies this`s
      ensures Valid() && s.handles == old(s).handles[x := Handles(old(s), x) + 1]
    {
      AcquireKeeps(s, x);
      TakeKeeps(Acquired(s, x), x);
      s := Acquired(s, x);
      s := Taken(s, x);
    }

    /** ebpf_obj_release, by a client: the object goes with its last reference, and only then. */
    method Release(x: nat)
      requires Valid() && Handles(s, x) > 0
      modifies this`s
      ensures Valid() && s.handles == old(s).handles[x := Handles(old(s), x) - 1]
      ensures x in old(s).objects && (x in s.objects <==> old(s).objects[x].refs > 1)
      ensures OnlyCounts(old(s), s, {}) && old(s).destroyed <= s.destroyed
    {
      GiveUpKeeps(s, x);
      s := GivenUp(s, x);
      Drop(x, {});
    }

    /** ebpf_obj_release: take a reference off the count; at zero, run the destructor and free the object. */
    method Drop(x: nat, ghost dying: set<nat>)
      requires Inv(s, Some(x), dying) && x !in dying && (s.objects[x].ProgObject? ==> dying == {})
      modifies this`s
      ensures Inv(s, None, dying) && s.envs.Keys == old(s).envs.Keys && s.handles == old(s).handles
      ensures x in s.objects <==> old(s).objects[x].refs > 1
      ensures forall y :: y in dying ==> y in s.objects && s.objects[y] == old(s).objects[y]
      ensures OnlyCounts(old(s), s, {}) && old(s).destroyed <= s.destroyed
      decreases if s.objects[x].ProgObject? then 2 else 0, 1
    {
      if s.objects[x].refs > 1 {
        DropKeeps(s, x, dying);
        s := Dropped(s, x);
      } else {
        Destroy(x, dying);
      }
    }

    method Destroy(x: nat, ghost dying: set<nat>)
      requires Inv(s, Some(x), dying) && x !in dying && (s.objects[x].ProgObject? ==> dying == {})
      requires s.objects[x].refs <= 1
      modifies this`s
      ensures Inv(s, None, dying) && s.envs.Keys == old(s).envs.Keys && s.handles == old(s).handles
      ensures x !in s.objects
      ensures forall y :: y in dying ==> y in s.objects && s.objects[y] == old(s).objects[y]
      ensures OnlyCounts(old(s), s, {}) && old(s).destroyed <= s.destroyed
      decreases if s.objects[x].ProgObject? then 2 else 0, 0
    {
      assert ObjectOk(s, Some(x), dying, x);
      DoomKeeps(s, x, dying);
      s := Doomed(s, x);
      if s.objects[x].ProgObject? {
        ReleaseMaps(x, dying + {x});
      }
      FreeKeeps(s, x, dying + {x});
      assert dying + {x} - {x} == dying;
      s := Freed(s, x);
    }

    /** ebpf_prog_dtor: release every attached map. */
    method ReleaseMaps(p: nat, ghost dying: set<nat>)
      requires Inv(s, None, dying) && dying == {p} && s.objects[p].ProgObject?
      modifies this`s
      ensures Inv(s, None, dying) && s.envs.Keys == old(s).envs.Keys && s.handles == old(s).handles && p in s.objects
      ensures s.objects[p].refs == old(s).objects[p].refs && forall m :: !Lists(s.objects[p], m)
      ensures OnlyCounts(old(s), s, {p}) && old(s).destroyed <= s.destroyed
      decreases 1, 1
    {
      while s.objects[p].done < s.objects[p].n
        invariant Inv(s, None, dying) && p in s.objects
        invariant s.envs.Keys == old(s).envs.Keys && s.handles == old(s).handles
        invariant s.objects[p].ProgObject? && s.objects[p].refs == old(s).objects[p].refs
        invariant OnlyCounts(old(s), s, {p}) && old(s).destroyed <= s.destroyed
        decreases s.objects[p].n - s.objects[p].done
      {
        ReleaseNext(p, dying);
      }
      assert ObjectOk(s, None, dying, p);
    }

    method ReleaseNext(p: nat, ghost dying: set<nat>)
      requires Inv(s, None, dying) && dying == {p} && s.objects[p].ProgObject? && s.objects[p].done < s.objects[p].n
      modifies this`s
      ensures Inv(s, None, dying) && s.envs.Keys == old(s).envs.Keys && s.handles == old(s).handles
      ensures p in s.objects && s.objects[p] == LetGo(old(s).objects[p])
      ensures OnlyCounts(old(s), s, {p}) && old(s).destroyed <= s.destroyed
      decreases 1, 0
    {
      assert ObjectOk(s, None, dying, p);
      var o := s.objects[p];
      LetGoKeeps(s, s.(objects := s.objects[p := LetGo(o)]), p, dying);
      LetGoLists(s.objects, o, 0);
      s := s.(objects := s.objects[p := LetGo(o)]);
      Drop(o.slots[o.done].value, dying);
    }

    /** ebpf_prog_attach_map. */
    method Attach(p: nat, m: nat) returns (error: Error)
      requires Valid() && Handles(s, p) > 0 && Handles(s, m) > 0
      requires p in s.objects && m in s.objects && s.objects[p].ProgObject? && s.objects[m].MapObject?
      modifies this`s
      ensures Valid() && |old(s).objects[p].slots| == MAX_ATTACHED
      ensures error == if old(s).objects[p].env != old(s).objects[m].env then EINVAL
                       else if old(s).objects[p].n >= MAX_ATTACHED then EBUSY
                       else if Lists(old(s).objects[p], m) then EEXIST
                       else OK
      ensures s.objects == if error != OK then old(s).objects
                           else old(s).objects[m := SetRefs(old(s).objects[m], old(s).objects[m].refs + 1)]
                                              [p := AttachedTo(old(s).objects[p], m)]
    {
      assert ObjectOk(s, None, {}, p);
      error := CanAttach(p, m);
      if error == OK {
        AcquireKeeps(s, m);
        s := Acquired(s, m);
        assert ObjectOk(s, Some(m), {}, p);
        AttachKeeps(s, s.(objects := s.objects[p := AttachedTo(s.objects[p], m)]), p, m);
        s := s.(objects := s.objects[p := AttachedTo(s.objects[p], m)]);
      }
    }

    /** The checks; the program's slots from n on are empty, so the search stops at slot n. */
    method CanAttach(p: nat, m: nat) returns (error: Error)
      requires Valid() && p in s.objects && m in s.objects && s.objects[p].ProgObject?
      ensures error == if s.objects[p].env != s.objects[m].env then EINVAL
                       else if s.objects[p].n >= MAX_ATTACHED then EBUSY
                       else if Lists(s.objects[p], m) then EEXIST
                       else OK
    {
      assert ObjectOk(s, None, {}, p);
      if s.objects[p].env != s.objects[m].env {
        return EINVAL;
      }
      if s.objects[p].n >= MAX_ATTACHED {
        return EBUSY;
      }
      var slots, i := s.objects[p].slots, 0;
      while slots[i].Some?
        invariant i <= s.objects[p].n && forall j :: 0 <= j < i ==> slots[j] != Some(m)
        decreases MAX_ATTACHED - i
      {
        if slots[i] == Some(m) {
          return EEXIST;
        }
        i := i + 1;
      }
      error := OK;
    }
  }
}
