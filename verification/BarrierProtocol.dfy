/**
Episodes of the dissemination barrier, interleaved store by store and load by
load. With enough rounds no thread leaves an episode before every thread has
entered it, for any number of episodes, and the threads never block each other
for good. Flags are reused through parity and sense reversal and never cleared.

`ep` counts the episodes a thread has left; no step reads it.
*/
module BarrierProtocol {
  import opened Bits
  import opened Barrier

  datatype Flag = Flag(thr: nat, parity: nat, round: nat)

  datatype Pc = Outside | Store(i: nat) | Wait(i: nat)

  /** ck_barrier_dissemination_state, and where the thread is. */
  datatype Thread = Thread(parity: nat, sense: bool, pc: Pc, ep: nat)

  datatype State = State(n: nat, size: nat, thr: seq<Thread>, flags: map<Flag, bool>)

  predicate Shape(s: State) {
    && |s.thr| == s.n >= 1
    && (s.size > 0 ==> Pow2(s.size - 1) < s.n)
  }

  /** The rounds reach every thread. */
  predicate Enough(s: State) {
    s.n <= Pow2(s.size)
  }

  /** All threads subscribed, all flags false. */
  predicate IsInit(s: State) {
    && Shape(s)
    && (forall t :: 0 <= t < s.n ==> s.thr[t] == Thread(0, true, Outside, 0))
    && (forall t: nat, p: nat, k: nat :: t < s.n && p < 2 && k < s.size ==> IsClear(s, Flag(t, p, k)))
  }

  predicate IsClear(s: State, f: Flag) {
    f in s.flags && !s.flags[f]
  }

  function Offset(s: State, k: nat): (o: nat)
    requires Shape(s) && k < s.size
    ensures o < s.n
  {
    OffsetFits(s.n, s.size, k);
    Pow2(k)
  }

  // ------------------------------------------------------------------- steps

  predicate CanStep(s: State, t: nat) {
    && Shape(s) && t < s.n && s.thr[t].parity < 2
    && match s.thr[t].pc
       case Outside => true
       case Store(i) => i <= s.size
       case Wait(i) => i < s.size && Flag(t, s.thr[t].parity, i) in s.flags
                       && s.flags[Flag(t, s.thr[t].parity, i)] == s.thr[t].sense
  }

  /** Enter; signal the partner of round i; see the own flag of round i; leave after the last round. */
  function Step(s: State, t: nat): State
    requires CanStep(s, t)
  {
    var r := s.thr[t];
    match r.pc
    case Outside => s.(thr := s.thr[t := r.(pc := Store(0))])
    case Wait(i) => s.(thr := s.thr[t := r.(pc := Store(i + 1))])
    case Store(i) =>
      if i < s.size then
        var f := Flag(Ahead(s.n, t, Offset(s, i)), r.parity, i);
        s.(thr := s.thr[t := r.(pc := Wait(i))], flags := s.flags[f := r.sense])
      else
        var sense' := if r.parity == 1 then !r.sense else r.sense;
        s.(thr := s.thr[t := Thread(1 - r.parity, sense', Outside, r.ep + 1)])
  }

  ghost predicate IsRun(states: seq<State>, movers: seq<nat>) {
    && |states| == |movers| + 1
    && IsInit(states[0])
    && forall k :: 0 <= k < |movers| ==> CanStep(states[k], movers[k]) && states[k + 1] == Step(states[k], movers[k])
  }

  // --------------------------------------------------------------- invariant

  /** How many episodes a thread has entered. */
  function Entered(r: Thread): nat {
    if r.pc.Outside? then r.ep else r.ep + 1
  }

  /** Episodes among the first e that use parity p. */
  function SameParity(e: nat, p: nat): nat
    requires p < 2
  {
    if p == 0 then (e + 1) / 2 else e / 2
  }

  predicate PastStore(pc: Pc, k: nat) {
    (pc.Wait? && pc.i >= k) || (pc.Store? && pc.i > k)
  }

  /** How often a thread has stored to its partner's flag of parity p and round k. */
  function Writes(r: Thread, p: nat, k: nat): nat
    requires p < 2
  {
    SameParity(r.ep, p) + (if r.ep % 2 == p && PastStore(r.pc, k) then 1 else 0)
  }

  /** Rounds completed in the current episode. */
  function Round(pc: Pc): nat {
    match pc
    case Outside => 0
    case Store(i) => i
    case Wait(i) => i
  }

  predicate Local(s: State, r: Thread) {
    && r.parity == r.ep % 2
    && r.sense == (r.ep / 2 % 2 == 0)
    && Round(r.pc) <= s.size
    && (r.pc.Wait? ==> r.pc.i < s.size)
  }

  /** Having completed r rounds, a thread knows the 2^r threads up to itself have entered. */
  ghost predicate Knows(s: State, t: nat)
    requires Shape(s) && t < s.n
  {
    !s.thr[t].pc.Outside? ==>
      forall u: nat :: u < s.n && Dist(s.n, u, t) < Pow2(Round(s.thr[t].pc)) ==> Entered(s.thr[u]) > s.thr[t].ep
  }

  /** No thread has left an episode that another has not entered. */
  ghost predicate Together(s: State) {
    forall t, u :: 0 <= t < |s.thr| && 0 <= u < |s.thr| ==> s.thr[t].ep <= Entered(s.thr[u])
  }

  /** A flag holds the parity of the number of stores of its only writer. */
  ghost predicate FlagInv(s: State, t: nat, p: nat, k: nat)
    requires Shape(s) && t < s.n && p < 2 && k < s.size
  {
    Flag(t, p, k) in s.flags &&
    s.flags[Flag(t, p, k)] == (Writes(s.thr[Behind(s.n, t, Offset(s, k))], p, k) % 2 == 1)
  }

  ghost predicate Inv(s: State) {
    && Shape(s) && Enough(s)
    && (forall t :: 0 <= t < s.n ==> Local(s, s.thr[t]))
    && (forall t: nat :: t < s.n ==> Knows(s, t))
    && Together(s)
    && (forall t: nat, p: nat, k: nat :: t < s.n && p < 2 && k < s.size ==> FlagInv(s, t, p, k))
  }

  lemma InitInv(s: State)
    requires IsInit(s) && Enough(s)
    ensures Inv(s)
  {
    forall t: nat, p: nat, k: nat | t < s.n && p < 2 && k < s.size
      ensures FlagInv(s, t, p, k)
    {
      assert IsClear(s, Flag(t, p, k));
    }
  }

  lemma BehindAhead(n: nat, i: nat, offset: nat)
    requires i < n && offset < n
    ensures Behind(n, Ahead(n, i, offset), offset) == i && Ahead(n, Behind(n, i, offset), offset) == i
  {
  }

  /** The writer of a waiting thread's flag has stored as often as the thread expects, or once less. */
  lemma WriterClose(s: State, t: nat)
    requires Inv(s) && t < s.n && s.thr[t].pc.Wait?
    ensures var r := s.thr[t]; var w := s.thr[Behind(s.n, t, Offset(s, r.pc.i))];
            var m := r.ep / 2; var c := Writes(w, r.parity, r.pc.i);
            m <= c <= m + 1 && (c == m + 1 <==> (w.ep == r.ep && PastStore(w.pc, r.pc.i)) || w.ep == r.ep + 1)
  {
  }

  /** A waiting thread proceeds exactly when its writer has stored in this episode. */
  lemma WaitMeans(s: State, t: nat)
    requires Inv(s) && t < s.n && s.thr[t].pc.Wait?
    ensures var r := s.thr[t]; var w := s.thr[Behind(s.n, t, Offset(s, r.pc.i))];
            CanStep(s, t) <==> (w.ep == r.ep && PastStore(w.pc, r.pc.i)) || w.ep == r.ep + 1
  {
    var r := s.thr[t];
    assert Local(s, r);
    assert FlagInv(s, t, r.parity, r.pc.i);
    WriterClose(s, t);
  }

  /** Seeing the flag of round k doubles what a thread knows. */
  lemma WaitLearns(s: State, t: nat, u: nat)
    requires Inv(s) && CanStep(s, t) && s.thr[t].pc.Wait? && u < s.n
    requires Dist(s.n, u, t) < Pow2(s.thr[t].pc.i + 1)
    ensures Entered(s.thr[u]) > s.thr[t].ep
  {
    var r := s.thr[t];
    var k := r.pc.i;
    var o := Offset(s, k);
    var w := Behind(s.n, t, o);
    WaitMeans(s, t);
    if Dist(s.n, u, t) < Pow2(k) {
      assert Knows(s, t);
    } else if s.thr[w].ep == r.ep + 1 {
      assert s.thr[w].ep <= Entered(s.thr[u]);
    } else {
      assert Dist(s.n, u, w) == Dist(s.n, u, t) - o;
      Pow2Monotone(k, Round(s.thr[w].pc));
      assert Knows(s, w);
    }
  }

  // ----------------------------------------------------- every step keeps it

  /** What others know survives any step: entered counts never drop. */
  lemma KnowledgeKept(s: State, s': State, t: nat)
    requires Inv(s) && CanStep(s, t) && s' == Step(s, t)
    ensures Shape(s') && s'.n == s.n && s'.size == s.size
    ensures forall u :: 0 <= u < s.n ==> Entered(s'.thr[u]) >= Entered(s.thr[u])
    ensures forall u: nat :: u < s.n && u != t ==> Knows(s', u)
  {
    forall u: nat | u < s.n && u != t
      ensures Knows(s', u)
    {
      assert Knows(s, u);
    }
  }

  /** Entering, seeing a flag and leaving do not change how often a thread has stored. */
  lemma WritesKept(r: Thread, r': Thread, size: nat, p: nat, k: nat)
    requires p < 2 && k < size
    requires || (r.pc.Outside? && r' == r.(pc := Store(0)))
             || (r.pc.Wait? && r' == r.(pc := Store(r.pc.i + 1)))
             || (r.pc == Store(size) && r'.pc.Outside? && r'.ep == r.ep + 1)
    ensures Writes(r', p, k) == Writes(r, p, k)
  {
  }

  lemma FlagKept(s: State, s': State, t: nat, v: nat, p: nat, k: nat)
    requires Inv(s) && CanStep(s, t) && s' == Step(s, t) && Shape(s') && !(s.thr[t].pc.Store? && s.thr[t].pc.i < s.size)
    requires v < s.n && p < 2 && k < s.size
    ensures FlagInv(s', v, p, k)
  {
    assert FlagInv(s, v, p, k);
    assert Local(s, s.thr[t]);
    WritesKept(s.thr[t], s'.thr[t], s.size, p, k);
  }

  /** Storing raises the count of the one flag written, and flips it. */
  lemma WritesRaised(r: Thread, i: nat, p: nat, k: nat)
    requires r.pc == Store(i) && p < 2 && r.parity == r.ep % 2 && r.sense == (r.ep / 2 % 2 == 0)
    ensures Writes(r.(pc := Wait(i)), p, k) == Writes(r, p, k) + (if p == r.parity && k == i then 1 else 0)
    ensures p == r.parity && k == i ==> r.sense == (Writes(r.(pc := Wait(i)), p, k) % 2 == 1)
  {
  }

  lemma StoreKeepsFlag(s: State, s': State, t: nat, v: nat, p: nat, k: nat)
    requires Inv(s) && CanStep(s, t) && s' == Step(s, t) && s.thr[t].pc.Store? && s.thr[t].pc.i < s.size && Shape(s')
    requires v < s.n && p < 2 && k < s.size
    ensures FlagInv(s', v, p, k)
  {
    var r := s.thr[t];
    assert Local(s, r);
    assert FlagInv(s, v, p, k);
    BehindAhead(s.n, t, Offset(s, r.pc.i));
    BehindAhead(s.n, v, Offset(s, k));
    WritesRaised(r, r.pc.i, p, k);
  }

  lemma FlagsStep(s: State, s': State, t: nat)
    requires Inv(s) && CanStep(s, t) && s' == Step(s, t) && Shape(s')
    ensures forall v: nat, p: nat, k: nat :: v < s.n && p < 2 && k < s.size ==> FlagInv(s', v, p, k)
  {
    forall v: nat, p: nat, k: nat | v < s.n && p < 2 && k < s.size
      ensures FlagInv(s', v, p, k)
    {
      if s.thr[t].pc.Store? && s.thr[t].pc.i < s.size {
        StoreKeepsFlag(s, s', t, v, p, k);
      } else {
        FlagKept(s, s', t, v, p, k);
      }
    }
  }

  lemma KnowsStep(s: State, s': State, t: nat)
    requires Inv(s) && CanStep(s, t) && s' == Step(s, t) && Shape(s')
    requires forall u :: 0 <= u < s.n ==> Entered(s'.thr[u]) >= Entered(s.thr[u])
    ensures Knows(s', t)
  {
    var r := s.thr[t];
    assert Knows(s, t);
    if r.pc.Wait? {
      forall u: nat | u < s.n && Dist(s.n, u, t) < Pow2(r.pc.i + 1)
        ensures Entered(s'.thr[u]) > r.ep
      {
        WaitLearns(s, t, u);
      }
    } else if r.pc.Outside? {
      assert forall u: nat :: u < s.n && Dist(s.n, u, t) < 1 ==> u == t;
    }
  }

  lemma TogetherStep(s: State, s': State, t: nat)
    requires Inv(s) && CanStep(s, t) && s' == Step(s, t)
    requires forall u :: 0 <= u < s.n ==> Entered(s'.thr[u]) >= Entered(s.thr[u])
    ensures Together(s')
  {
    assert Local(s, s.thr[t]);
    if s.thr[t].pc == Store(s.size) {
      LastRoundKnowsAll(s, t);
    }
  }

  lemma StepKeeps(s: State, t: nat)
    requires Inv(s) && CanStep(s, t)
    ensures Inv(Step(s, t))
  {
    var s' := Step(s, t);
    KnowledgeKept(s, s', t);
    FlagsStep(s, s', t);
    KnowsStep(s, s', t);
    TogetherStep(s, s', t);
    LocalStep(s, s', t);
  }

  lemma LocalStep(s: State, s': State, t: nat)
    requires Inv(s) && CanStep(s, t) && s' == Step(s, t)
    ensures forall u :: 0 <= u < s.n ==> Local(s', s'.thr[u])
  {
    assert Local(s, s.thr[t]);
  }

  /** After the last round everyone has entered. */
  lemma LastRoundKnowsAll(s: State, t: nat)
    requires Inv(s) && t < s.n && s.thr[t].pc == Store(s.size)
    ensures forall u :: 0 <= u < s.n ==> Entered(s.thr[u]) > s.thr[t].ep
  {
    forall u: nat | u < s.n
      ensures Entered(s.thr[u]) > s.thr[t].ep
    {
      assert Knows(s, t);
      assert Dist(s.n, u, t) < Pow2(s.size);
    }
  }

  lemma {:induction false} RunInv(states: seq<State>, movers: seq<nat>, k: nat)
    requires IsRun(states, movers) && Enough(states[0]) && k < |states|
    ensures Inv(states[k])
  {
    if k == 0 {
      InitInv(states[0]);
    } else {
      RunInv(states, movers, k - 1);
      StepKeeps(states[k - 1], movers[k - 1]);
    }
  }

  /** In every run, a thread that has left e episodes finds every thread in or past its e-th. */
  lemma NobodyLeavesEarly(states: seq<State>, movers: seq<nat>, k: nat, t: nat, u: nat)
    requires IsRun(states, movers) && Enough(states[0])
    requires k < |states| && t < |states[k].thr| && u < |states[k].thr|
    ensures states[k].thr[t].ep <= Entered(states[k].thr[u])
  {
    RunInv(states, movers, k);
  }

  // --------------------------------------------------------------- no deadlock

  /** A thread that is behind no other. */
  predicate Behindmost(s: State, t: nat, upto: nat)
    requires t < |s.thr| && upto <= |s.thr|
  {
    forall u :: 0 <= u < upto ==>
      s.thr[t].ep < s.thr[u].ep || (s.thr[t].ep == s.thr[u].ep && Round(s.thr[t].pc) <= Round(s.thr[u].pc))
  }

  lemma {:induction false} FindBehindmost(s: State, upto: nat) returns (t: nat)
    requires 1 <= upto <= |s.thr|
    ensures t < upto && Behindmost(s, t, upto)
  {
    if upto == 1 {
      t := 0;
    } else {
      t := FindBehindmost(s, upto - 1);
      if !Behindmost(s, t, upto) {
        t := upto - 1;
      }
    }
  }

  /** In every reachable state some thread can take its next step. */
  lemma NoDeadlock(states: seq<State>, movers: seq<nat>, k: nat) returns (t: nat)
    requires IsRun(states, movers) && Enough(states[0]) && k < |states|
    ensures CanStep(states[k], t)
  {
    RunInv(states, movers, k);
    var s := states[k];
    t := FindBehindmost(s, s.n);
    assert Local(s, s.thr[t]);
    if s.thr[t].pc.Wait? {
      WaitMeans(s, t);
      var i := s.thr[t].pc.i;
      var w := Behind(s.n, t, Offset(s, i));
      assert Local(s, s.thr[w]);
      if !CanStep(s, t) {
        // the writer is in the same episode, in the same round, and has not stored yet
        assert s.thr[t].ep <= s.thr[w].ep <= Entered(s.thr[t]);
        assert s.thr[w].ep == s.thr[t].ep && !PastStore(s.thr[w].pc, i);
        t := w;
      }
    }
  }
}
