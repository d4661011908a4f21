/**
How many readers and writers the phase-fair lock can take. The reader counts in
rin and rout have 24 bits: with 2^24 readers inside, they are equal again and a
writer does not wait. A writer's ticket has 32 bits: with 2^32 writers queued
behind the first, the last one passes the queue, and its announcement carries
into the bits that readers look at.
*/
module PhaseFairLimit {
  import opened Bits
  import opened PhaseFairLock

  // ------------------------------------------------------------------ reachable states

  /** The last state of some run. */
  ghost predicate Reached(s: State, readers: nat, writers: nat) {
    exists states, steps :: IsRun(states, steps, readers, writers) && states[|states| - 1] == s
  }

  lemma ReachInit(n: nat, readers: nat, writers: nat)
    ensures Reached(InitState(n), readers, writers)
  {
    assert IsRun([InitState(n)], [], readers, writers);
  }

  lemma RunStep(states: seq<State>, steps: seq<Step>, step: Step, readers: nat, writers: nat)
    requires IsRun(states, steps, readers, writers) && Enabled(states[|steps|], step)
    requires Within(states[|steps|], step, readers, writers)
    ensures IsRun(states + [Apply(states[|steps|], step)], steps + [step], readers, writers)
  {
  }

  lemma ReachStep(s: State, step: Step, readers: nat, writers: nat)
    requires Reached(s, readers, writers) && Enabled(s, step) && Within(s, step, readers, writers)
    ensures Reached(Apply(s, step), readers, writers)
  {
    var states, steps :| IsRun(states, steps, readers, writers) && states[|states| - 1] == s;
    RunStep(states, steps, step, readers, writers);
  }

  // -------------------------------------------------------------------- too many readers

  /** The first k threads hold the lock for reading. */
  ghost function Reading(n: nat, k: nat): State {
    InitState(n).(rin := RINC * k % WORD, entered := k, thr := seq(n, (i: nat) => if i < k then ReadHeld(i) else Idle))
  }

  lemma ReadersOnly(k: nat)
    requires k < READERS
    ensures WriterBits(RINC * k % WORD) == 0 && Add32(RINC * k % WORD, RINC) == RINC * (k + 1) % WORD
  {
    DivMod(RINC * k, WORD, 0, RINC * k);
    DivMod(RINC * k, 4, 0x40 * k, 0);
  }

  lemma NextReading(n: nat, k: nat)
    requires k < n && k < READERS
    ensures Enabled(Reading(n, k), ReadLock(k)) && Apply(Reading(n, k), ReadLock(k)) == Reading(n, k + 1)
  {
    ReadersOnly(k);
    var s, s' := Reading(n, k), Reading(n, k + 1);
    assert s'.thr == s.thr[k := ReadHeld(k)];
  }

  lemma {:induction false} ReachReading(n: nat, k: nat, readers: nat, writers: nat)
    requires k <= n && k <= READERS && k <= readers
    ensures Reached(Reading(n, k), readers, writers)
  {
    if k == 0 {
      ReachInit(n, readers, writers);
      assert Reading(n, 0).thr == InitState(n).thr;
      assert Reading(n, 0) == InitState(n);
    } else {
      ReachReading(n, k - 1, readers, writers);
      NextReading(n, k - 1);
      ReachStep(Reading(n, k - 1), ReadLock(k - 1), readers, writers);
    }
  }

  /** The writer t goes all the way: no counter is in its way. */
  lemma WriterPasses(s: State, t: nat, readers: nat, writers: nat) returns (s': State)
    requires Reached(s, readers, writers) && writers >= 1 && t < |s.thr| && s.thr[t].Idle?
    requires s.rin == s.rout == s.win == s.wout == s.arrived == s.left == 0
    ensures Reached(s', readers, writers)
    ensures s' == s.(rin := PRES, win := 1, arrived := 1, phase := Announced(t, s.entered),
                     thr := s.thr[t := WriteHeld(0)])
  {
    var s1 := s.(win := 1, arrived := 1, thr := s.thr[t := WriterQueued(0, 0)]);
    assert s1 == Apply(s, WriteLock(t));
    ReachStep(s, WriteLock(t), readers, writers);
    var s2 := s1.(thr := s.thr[t := WriterTurn(0, 0)]);
    assert s2 == Apply(s1, Run(t));
    ReachStep(s1, Run(t), readers, writers);
    var s3 := s2.(rin := PRES, phase := Announced(t, s.entered), thr := s.thr[t := WriterFlush(0, 0)]);
    assert s3 == Apply(s2, Run(t));
    ReachStep(s2, Run(t), readers, writers);
    s' := s3.(thr := s.thr[t := WriteHeld(0)]);
    assert s' == Apply(s3, Run(t));
    ReachStep(s3, Run(t), readers, writers);
  }

  /** With 2^24 readers inside a writer acquires the lock. */
  lemma TooManyReaders(readers: nat, writers: nat) returns (s: State)
    requires readers >= READERS && writers >= 1
    ensures Reached(s, readers, writers) && |s.thr| == READERS + 1
    ensures s.thr[READERS].WriteHeld? && s.thr[0].ReadHeld?
  {
    var r := Reading(READERS + 1, READERS);
    ReachReading(READERS + 1, READERS, readers, writers);
    s := WriterPasses(r, READERS, readers, writers);
  }

  // -------------------------------------------------------------------- too many writers

  function QueuedPc(k: nat, i: nat): Pc {
    if i == 0 then WriteHeld(0) else if i <= k then WriterQueued(i % WORD, i) else Idle
  }

  /** The first thread holds the lock for writing, and the next k are queued. */
  ghost function Queued(n: nat, k: nat): State {
    InitState(n).(rin := PRES, win := (k + 1) % WORD, arrived := k + 1, phase := Announced(0, 0),
                  thr := seq(n, (i: nat) => QueuedPc(k, i)))
  }

  lemma NextQueued(n: nat, k: nat)
    requires k + 1 < n
    ensures Enabled(Queued(n, k), WriteLock(k + 1)) && Apply(Queued(n, k), WriteLock(k + 1)) == Queued(n, k + 1)
  {
    var s, s' := Queued(n, k), Queued(n, k + 1);
    assert Add32((k + 1) % WORD, 1) == (k + 2) % WORD;
    assert s'.thr == s.thr[k + 1 := WriterQueued((k + 1) % WORD, k + 1)];
  }

  lemma {:induction false} ReachQueued(n: nat, k: nat, readers: nat, writers: nat)
    requires k < n && k < writers
    ensures Reached(Queued(n, k), readers, writers)
  {
    if k == 0 {
      ReachInit(n, readers, writers);
      var s := WriterPasses(InitState(n), 0, readers, writers);
      assert s.thr == Queued(n, 0).thr;
      assert s == Queued(n, 0);
    } else {
      ReachQueued(n, k - 1, readers, writers);
      NextQueued(n, k - 1);
      ReachStep(Queued(n, k - 1), WriteLock(k), readers, writers);
    }
  }

  /** With 2^32 writers behind the holder, the last one announces itself and a reader gets in. */
  lemma TooManyWriters(readers: nat, writers: nat) returns (s: State)
    requires readers >= 1 && writers > WORD
    ensures Reached(s, readers, writers) && |s.thr| == WORD + 2
    ensures s.thr[0].WriteHeld? && s.thr[WORD + 1].ReadHeld?
  {
    var n := WORD + 2;
    var q := Queued(n, WORD);
    ReachQueued(n, WORD, readers, writers);
    s := LastPasses(q, WORD, WORD + 1, readers, writers);
  }

  lemma LastPasses(q: State, t: nat, u: nat, readers: nat, writers: nat) returns (s: State)
    requires Reached(q, readers, writers) && readers >= 1 && t < |q.thr| && u < |q.thr| && t != u
    requires q.thr[t].WriterQueued? && q.thr[t].ticket == q.wout == 0 && q.thr[u].Idle?
    requires q.rin == PRES && q.entered == q.exited
    ensures Reached(s, readers, writers) && |s.thr| == |q.thr| && s.thr[u].ReadHeld?
    ensures forall v: nat :: v < |q.thr| && v != t && v != u ==> s.thr[v] == q.thr[v]
  {
    var q1 := Apply(q, Run(t));
    ReachStep(q, Run(t), readers, writers);
    var q2 := Apply(q1, Run(t));
    ReachStep(q1, Run(t), readers, writers);
    assert q2.rin == 4;
    s := Apply(q2, ReadLock(u));
    ReachStep(q2, ReadLock(u), readers, writers);
  }

  // ------------------------------------------------------------------- the exact bounds

  /** Somebody holds the lock together with a writer. */
  ghost predicate Shared(s: State) {
    exists t: nat, u: nat :: t < |s.thr| && u < |s.thr| && t != u && s.thr[t].WriteHeld? && Holds(s.thr[u])
  }

  /** No run with at most so many concurrent readers and writers shares the lock with a writer. */
  ghost predicate Exclusive(readers: nat, writers: nat) {
    forall states: seq<State>, steps, k: nat ::
      IsRun(states, steps, readers, writers) && k < |states| ==> !Shared(states[k])
  }

  lemma SharedBreaks(s: State, readers: nat, writers: nat)
    requires Reached(s, readers, writers) && Shared(s)
    ensures !Exclusive(readers, writers)
  {
    var states, steps :| IsRun(states, steps, readers, writers) && states[|states| - 1] == s;
    assert Shared(states[|steps|]);
  }

  /** Without a writer nobody holds the lock for writing. */
  lemma {:induction false} NoWriters(states: seq<State>, steps: seq<Step>, readers: nat, k: nat)
    requires IsRun(states, steps, readers, 0) && k < |states|
    ensures states[k].arrived == states[k].left == 0
    ensures forall t: nat :: t < |states[k].thr| ==> !IsWriter(states[k].thr[t])
  {
    if k > 0 {
      NoWriters(states, steps, readers, k - 1);
      assert Within(states[k - 1], steps[k - 1], readers, 0) && Enabled(states[k - 1], steps[k - 1]);
      assert states[k] == Apply(states[k - 1], steps[k - 1]);
    }
  }

  /** Where there are readers at all, the bounds are exact. */
  lemma ExclusiveIff(readers: nat, writers: nat)
    requires readers >= 1
    ensures Exclusive(readers, writers) <==> writers == 0 || (readers < READERS && writers <= WORD)
  {
    if writers == 0 {
      forall states: seq<State>, steps, k: nat | IsRun(states, steps, readers, writers) && k < |states|
        ensures !Shared(states[k])
      {
        NoWriters(states, steps, readers, k);
      }
    } else if readers >= READERS {
      var s := TooManyReaders(readers, writers);
      assert Holds(s.thr[0]);
      SharedBreaks(s, readers, writers);
    } else if writers > WORD {
      var s := TooManyWriters(readers, writers);
      assert Holds(s.thr[WORD + 1]);
      SharedBreaks(s, readers, writers);
    } else {
      WithinBounds(readers, writers);
    }
  }

  lemma WithinBounds(readers: nat, writers: nat)
    requires readers < READERS && writers <= WORD
    ensures Exclusive(readers, writers)
  {
    forall states: seq<State>, steps, k: nat | IsRun(states, steps, readers, writers) && k < |states|
      ensures !Shared(states[k])
    {
      forall t: nat, u: nat | t < |states[k].thr| && u < |states[k].thr| && t != u && states[k].thr[t].WriteHeld?
        ensures !Holds(states[k].thr[u])
      {
        WritersExclude(states, steps, readers, writers, k, t, u);
      }
    }
  }
}
