/**
The ring on its own 32-bit counters: increments wrap, slots and fullness are
taken by mask, and the size is a power of two. A thread can sleep in the middle
of an operation, and its compare-and-swap then looks at the low 32 bits only.
First in first out holds in every run in which the heads move less than 2^32
during one operation, and for no larger bound.
*/
module RingWrapped {
  import opened Bits
  import opened Ring

  // ------------------------------------------------------------------- the steps

  function Next(x: nat): nat { (x + 1) % WORD }

  /** The slot of a counter. */
  function Slot(size: nat, x: nat): (i: nat)
    requires size > 0
    ensures i < size
  {
    AndBound(x, size - 1);
    And(x, size - 1)
  }

  predicate Full32(w: State, p: nat)
    requires w.size > 0
  {
    Slot(w.size, Next(p)) == Slot(w.size, w.cHead)
  }

  function WordWritten32(w: State, t: nat, v: Value, p: nat, done: nat): State
    requires Shape(w) && t < |w.thr| && done < w.words == |v|
  {
    var slot := Slot(w.size, p);
    w.(slots := w.slots[slot := w.slots[slot][done := v[done]]], thr := w.thr[t := Writing(v, p, done + 1)])
  }

  function Apply32(w: State, step: Step): State
    requires Enabled(w, step)
  {
    match step
    case Enqueue(t, v) => w.(thr := w.thr[t := ProducerLoaded(v, w.pHead)])
    case Dequeue(t, retry) => w.(thr := w.thr[t := ConsumerLoaded(retry, w.cHead)])
    case Run(t) =>
      match w.thr[t]
      case Idle => w
      case ProducerLoaded(v, p) =>
        w.(thr := w.thr[t := if Full32(w, p) then Idle else ProducerChecked(v, p, w.cHead)])
      case ProducerChecked(v, p, c) =>
        if w.pHead == p then w.(pHead := Next(p), enq := w.enq + [v], thr := w.thr[t := Writing(v, p, 0)])
        else w.(thr := w.thr[t := ProducerLoaded(v, w.pHead)])
      case Writing(v, p, done) =>
        if done < w.words then WordWritten32(w, t, v, p, done)
        else w.(thr := w.thr[t := Written(p)])
      case Written(p) => w.(thr := w.thr[t := Publishing(p)])
      case Publishing(p) => w.(pTail := Next(p), thr := w.thr[t := Idle])
      case ConsumerLoaded(retry, c) =>
        w.(thr := w.thr[t := if c == w.pTail then Idle else Copying(retry, c, [])])
      case Copying(retry, c, data) =>
        if |data| < w.words then
          w.(thr := w.thr[t := Copying(retry, c, data + [w.slots[Slot(w.size, c)][|data|]])])
        else if w.cHead == c then w.(cHead := Next(c), deq := w.deq + [data], thr := w.thr[t := Idle])
        else w.(thr := w.thr[t := if retry then ConsumerLoaded(retry, w.cHead) else Idle])
  }

  /** A run of a ring of 2^bits slots. */
  ghost predicate IsRun32(states: seq<State>, steps: seq<Step>, bits: nat) {
    && bits < 32 && |states| == |steps| + 1
    && IsInit(states[0]) && states[0].size == Pow2(bits)
    && forall k :: 0 <= k < |steps| ==> Enabled(states[k], steps[k]) && states[k + 1] == Apply32(states[k], steps[k])
  }

  // ------------------------------------------------------------ wrapping the counters

  function WrapPc(pc: Pc): Pc {
    match pc
    case Idle => pc
    case ProducerLoaded(v, p) => ProducerLoaded(v, p % WORD)
    case ProducerChecked(v, p, c) => ProducerChecked(v, p % WORD, c % WORD)
    case Writing(v, p, done) => Writing(v, p % WORD, done)
    case Written(p) => Written(p % WORD)
    case Publishing(p) => Publishing(p % WORD)
    case ConsumerLoaded(retry, c) => ConsumerLoaded(retry, c % WORD)
    case Copying(retry, c, data) => Copying(retry, c % WORD, data)
  }

  function WrapAll(thr: seq<Pc>): seq<Pc> {
    seq(|thr|, i requires 0 <= i < |thr| => WrapPc(thr[i]))
  }

  /** The state with 32-bit counters that an unbounded one stands for. */
  function Wrap(s: State): State {
    s.(pHead := s.pHead % WORD, pTail := s.pTail % WORD, cHead := s.cHead % WORD, thr := WrapAll(s.thr))
  }

  lemma WrapNext(x: nat)
    ensures Next(x % WORD) == (x + 1) % WORD
  {
    var q, r := x / WORD, x % WORD;
    if r + 1 == WORD {
      assert x + 1 == (q + 1) * WORD + 0;
      DivMod(x + 1, WORD, q + 1, 0);
    } else {
      DivMod(x + 1, WORD, q, r + 1);
    }
  }

  /** The slot of a wrapped counter is the slot of the counter. */
  lemma WrapSlot(bits: nat, x: nat)
    requires bits < 32
    ensures Slot(Pow2(bits), x % WORD) == x % Pow2(bits)
  {
    MaskIsModulo(x % WORD, bits);
    Pow2Literals();
    PowerProduct(32 - bits, bits);
    ModuloOfMultiple(x, Pow2(32 - bits), Pow2(bits));
  }

  lemma WrapUpdate(thr: seq<Pc>, t: nat, pc: Pc)
    requires t < |thr|
    ensures WrapAll(thr[t := pc]) == WrapAll(thr)[t := WrapPc(pc)]
  {
  }

  /** A compare-and-swap compares its snapshot with a head less than 2^32 ahead of it. */
  predicate Timely(s: State, pc: Pc) {
    && (pc.ProducerChecked? ==> s.pHead < pc.p + WORD)
    && (pc.Copying? ==> s.cHead < pc.c + WORD)
  }

  /** What the unbounded ring does meanwhile: the same, except that a consumer which
      slept until p_tail came round to its snapshot takes the ring for empty. */
  function Shadow(s: State, step: Step): State
    requires Enabled(s, step)
  {
    if step.Run? && s.thr[step.t].ConsumerLoaded? && s.thr[step.t].c % WORD == s.pTail % WORD then
      s.(thr := s.thr[step.t := Idle])
    else
      Apply(s, step)
  }

  lemma ShadowKeeps(s: State, step: Step)
    requires Inv(s) && Enabled(s, step)
    ensures Inv(Shadow(s, step))
  {
    if Shadow(s, step) == Apply(s, step) {
      StepKeeps(s, step);
    } else {
      OnlyPcKeeps(s, step.t, Idle);
    }
  }

  /** Two counters with the same low 32 bits, less than 2^32 apart, are equal. */
  lemma WrapCompare(x: nat, y: nat)
    requires x <= y < x + WORD
    ensures x % WORD == y % WORD <==> x == y
  {
    if x % WORD == y % WORD {
      SameModulo(x, y, WORD);
    }
  }

  // ----------------------------------------------------- a wrapped step is the step

  lemma InvokeWraps(s: State, step: Step)
    requires Enabled(Wrap(s), step) && !step.Run?
    ensures Enabled(s, step) && Apply32(Wrap(s), step) == Wrap(Apply(s, step))
  {
    WrapUpdate(s.thr, step.t, Apply(s, step).thr[step.t]);
  }

  /** A mask of the wrapped counters decides fullness as the remainders do. */
  lemma FullWraps(s: State, bits: nat, p: nat)
    requires bits < 32 && s.size == Pow2(bits)
    ensures Full32(Wrap(s), p % WORD) <==> Full(s, p)
  {
    WrapNext(p);
    WrapSlot(bits, p + 1);
    WrapSlot(bits, s.cHead);
  }

  lemma CheckWraps(s: State, t: nat, bits: nat)
    requires bits < 32 && s.size == Pow2(bits) && Enabled(Wrap(s), Run(t)) && s.thr[t].ProducerLoaded?
    ensures Enabled(s, Run(t)) && Apply32(Wrap(s), Run(t)) == Wrap(Apply(s, Run(t)))
  {
    FullWraps(s, bits, s.thr[t].p);
    WrapUpdate(s.thr, t, Apply(s, Run(t)).thr[t]);
  }

  lemma ClaimWraps(s: State, t: nat)
    requires Inv(s) && Enabled(Wrap(s), Run(t)) && s.thr[t].ProducerChecked? && Timely(s, s.thr[t])
    ensures Enabled(s, Run(t)) && Apply32(Wrap(s), Run(t)) == Wrap(Apply(s, Run(t)))
  {
    assert PcInv(s, s.thr[t]);
    WrapNext(s.thr[t].p);
    WrapCompare(s.thr[t].p, s.pHead);
    WrapUpdate(s.thr, t, Apply(s, Run(t)).thr[t]);
  }

  lemma WriterWraps(s: State, t: nat, bits: nat)
    requires Inv(s) && bits < 32 && s.size == Pow2(bits) && Enabled(Wrap(s), Run(t))
    requires s.thr[t].Writing? || s.thr[t].Written? || s.thr[t].Publishing?
    ensures Enabled(s, Run(t)) && Apply32(Wrap(s), Run(t)) == Wrap(Apply(s, Run(t)))
  {
    assert PcInv(s, s.thr[t]);
    var p := s.thr[t].p;
    WrapNext(p);
    WrapSlot(bits, p);
    SizeFits(bits);
    WrapCompare(s.pTail, p);
    WrapUpdate(s.thr, t, Apply(s, Run(t)).thr[t]);
  }

  lemma SizeFits(bits: nat)
    requires bits < 32
    ensures Pow2(bits) < WORD
  {
    Pow2Literals();
    Pow2Monotone(bits, 31);
  }

  lemma ConsumerWraps(s: State, t: nat, bits: nat)
    requires Inv(s) && bits < 32 && s.size == Pow2(bits) && Enabled(Wrap(s), Run(t)) && Timely(s, s.thr[t])
    requires s.thr[t].ConsumerLoaded? || s.thr[t].Copying?
    ensures Enabled(s, Run(t)) && Apply32(Wrap(s), Run(t)) == Wrap(Shadow(s, Run(t)))
  {
    assert PcInv(s, s.thr[t]);
    var c := s.thr[t].c;
    WrapNext(c);
    WrapSlot(bits, c);
    if s.thr[t].Copying? {
      WrapCompare(c, s.cHead);
    }
    WrapUpdate(s.thr, t, Shadow(s, Run(t)).thr[t]);
  }

  lemma StepWraps(s: State, step: Step, bits: nat)
    requires Inv(s) && bits < 32 && s.size == Pow2(bits) && Enabled(Wrap(s), step)
    requires Timely(s, s.thr[step.t])
    ensures Enabled(s, step) && Apply32(Wrap(s), step) == Wrap(Shadow(s, step))
  {
    if !step.Run? {
      InvokeWraps(s, step);
    } else if s.thr[step.t].ProducerLoaded? {
      CheckWraps(s, step.t, bits);
    } else if s.thr[step.t].ProducerChecked? {
      ClaimWraps(s, step.t);
    } else if s.thr[step.t].ConsumerLoaded? || s.thr[step.t].Copying? {
      ConsumerWraps(s, step.t, bits);
    } else {
      WriterWraps(s, step.t, bits);
    }
  }

  // ------------------------------------------------------------- runs that stay calm

  /** The last state, up to k, in which thread t was outside the ring: where its operation began. */
  ghost function Begun(states: seq<State>, t: nat, k: nat): (i: nat)
    requires k < |states|
    ensures i <= k
  {
    if k == 0 || (t < |states[k].thr| && states[k].thr[t].Idle?) then k else Begun(states, t, k - 1)
  }

  /** Since thread t entered the ring each head has moved less than `limit`. */
  ghost predicate Moved(states: seq<State>, t: nat, k: nat, limit: nat)
    requires k < |states|
  {
    var i := Begun(states, t, k);
    |states[k].enq| - |states[i].enq| < limit && |states[k].deq| - |states[i].deq| < limit
  }

  /** During no operation does a head move `limit` or more. */
  ghost predicate Calm(states: seq<State>, limit: nat) {
    forall t: nat, k: nat {:trigger Moved(states, t, k, limit)} ::
      k < |states| && t < |states[k].thr| ==> Moved(states, t, k, limit)
  }

  /** Snapshots are no older than `e` claims and `d` dequeues. */
  predicate Since(pc: Pc, e: nat, d: nat) {
    && (pc.ProducerLoaded? || pc.ProducerChecked? ==> e <= pc.p)
    && (pc.ConsumerLoaded? || pc.Copying? ==> d <= pc.c)
  }

  ghost predicate SinceBegun(states: seq<State>, t: nat, k: nat, pc: Pc)
    requires k < |states|
  {
    var i := Begun(states, t, k);
    Since(pc, |states[i].enq|, |states[i].deq|)
  }

  /** The unbounded state s stands for the k-th state of the run. */
  ghost predicate Follows(states: seq<State>, bits: nat, k: nat, s: State)
    requires k < |states|
  {
    && Inv(s) && s.size == Pow2(bits) && Wrap(s) == states[k]
    && forall t: nat {:trigger s.thr[t]} :: t < |s.thr| ==> SinceBegun(states, t, k, s.thr[t])
  }

  lemma {:induction false} Grown(states: seq<State>, steps: seq<Step>, bits: nat, i: nat, k: nat)
    requires IsRun32(states, steps, bits) && i <= k < |states|
    ensures |states[i].enq| <= |states[k].enq| && |states[i].deq| <= |states[k].deq|
  {
    if i < k {
      Grown(states, steps, bits, i, k - 1);
      assert Enabled(states[k - 1], steps[k - 1]) && states[k] == Apply32(states[k - 1], steps[k - 1]);
    }
  }

  lemma CalmIsTimely(states: seq<State>, bits: nat, k: nat, s: State, t: nat)
    requires k < |states| && Follows(states, bits, k, s) && t < |s.thr| && Calm(states, WORD)
    ensures Timely(s, s.thr[t])
  {
    assert Moved(states, t, k, WORD) && SinceBegun(states, t, k, s.thr[t]);
  }

  /** What a step does to the moving thread's snapshots. */
  lemma SinceStep(s: State, step: Step, e: nat, d: nat)
    requires Inv(s) && Enabled(s, step) && e <= s.pHead && d <= s.cHead && Since(s.thr[step.t], e, d)
    ensures Since(Shadow(s, step).thr[step.t], e, d)
  {
  }

  lemma SinceKept(states: seq<State>, steps: seq<Step>, bits: nat, k: nat, s: State, t: nat)
    requires IsRun32(states, steps, bits) && k < |steps| && t < |s.thr|
    requires Inv(s) && Enabled(s, steps[k]) && |states[k].enq| == s.pHead && |states[k].deq| == s.cHead
    requires SinceBegun(states, t, k, s.thr[t]) && states[k + 1].thr == WrapAll(Shadow(s, steps[k]).thr)
    ensures SinceBegun(states, t, k + 1, Shadow(s, steps[k]).thr[t])
  {
    var pc := Shadow(s, steps[k]).thr[t];
    if !pc.Idle? {
      assert states[k + 1].thr[t] == WrapPc(pc);
      var i := Begun(states, t, k);
      assert Begun(states, t, k + 1) == i;
      Grown(states, steps, bits, i, k);
      if t == steps[k].t {
        SinceStep(s, steps[k], |states[i].enq|, |states[i].deq|);
      }
    }
  }

  lemma FollowsStep(states: seq<State>, steps: seq<Step>, bits: nat, k: nat, s: State)
    requires IsRun32(states, steps, bits) && Calm(states, WORD) && k < |steps| && Follows(states, bits, k, s)
    ensures Enabled(s, steps[k]) && Follows(states, bits, k + 1, Shadow(s, steps[k]))
  {
    var step := steps[k];
    assert Enabled(states[k], step) && states[k + 1] == Apply32(states[k], step);
    CalmIsTimely(states, bits, k, s, step.t);
    StepWraps(s, step, bits);
    ShadowKeeps(s, step);
    forall t: nat | t < |s.thr|
      ensures SinceBegun(states, t, k + 1, Shadow(s, step).thr[t])
    {
      SinceKept(states, steps, bits, k, s, t);
    }
  }

  /** The unbounded state that the k-th state of a calm run stands for. */
  ghost function Unwrapped(states: seq<State>, steps: seq<Step>, bits: nat, k: nat): (s: State)
    requires IsRun32(states, steps, bits) && Calm(states, WORD) && k < |states|
    ensures Follows(states, bits, k, s)
  {
    if k == 0 then
      InitFollows(states, steps, bits);
      states[0]
    else
      var s := Unwrapped(states, steps, bits, k - 1);
      FollowsStep(states, steps, bits, k - 1, s);
      Shadow(s, steps[k - 1])
  }

  lemma InitFollows(states: seq<State>, steps: seq<Step>, bits: nat)
    requires IsRun32(states, steps, bits)
    ensures Follows(states, bits, 0, states[0])
  {
    assert WrapAll(states[0].thr) == states[0].thr;
  }

  // ------------------------------------------------------------------ theorems

  /** First in, first out, on 32-bit counters. */
  lemma FirstInFirstOut32(states: seq<State>, steps: seq<Step>, bits: nat, k: nat)
    requires IsRun32(states, steps, bits) && Calm(states, WORD) && k < |states|
    ensures states[k].deq <= states[k].enq
    ensures |states[k].enq| - |states[k].deq| < states[k].size
  {
    var s := Unwrapped(states, steps, bits, k);
  }

  /** The i-th claimed entry lies between c_head and p_tail, as their 32-bit difference counts. */
  predicate Published(w: State, i: nat) {
    |w.deq| <= i && i - |w.deq| < (w.pTail - w.cHead) % WORD
  }

  lemma WrapDifference(x: nat, y: nat)
    requires x <= y < x + WORD
    ensures (y % WORD - x % WORD) % WORD == y - x
  {
  }

  lemma PublishedMeans(s: State, i: nat)
    requires Inv(s) && s.size < WORD
    ensures Published(Wrap(s), i) <==> s.cHead <= i < s.pTail
  {
    WrapDifference(s.cHead, s.pTail);
  }

  /** A published entry stays intact in its slot until the dequeue that returns it. */
  lemma PublishedStays32(states: seq<State>, steps: seq<Step>, bits: nat, k: nat, i: nat)
    requires IsRun32(states, steps, bits) && Calm(states, WORD) && k < |steps| && Published(states[k], i)
    ensures i < |states[k].enq| && states[k].slots[i % states[k].size] == states[k].enq[i]
    ensures |states[k + 1].deq| <= i ==> states[k + 1].slots[i % states[k].size] == states[k].enq[i]
    ensures |states[k + 1].deq| > i ==> states[k + 1].deq == states[k].deq + [states[k].enq[i]]
  {
    var s := Unwrapped(states, steps, bits, k);
    SizeFits(bits);
    PublishedMeans(s, i);
    FollowsStep(states, steps, bits, k, s);
    assert Wrap(s) == states[k] && Wrap(Shadow(s, steps[k])) == states[k + 1];
    PublishedStep(s, steps[k], i);
  }

  lemma CalmMonotone(states: seq<State>, limit: nat, more: nat)
    requires Calm(states, limit) && limit <= more
    ensures Calm(states, more)
  {
    forall t: nat, k: nat | k < |states| && t < |states[k].thr|
      ensures Moved(states, t, k, more)
    {
      assert Moved(states, t, k, limit);
    }
  }

  lemma SnapshotRecent(states: seq<State>, bits: nat, limit: nat, k: nat, s: State, t: nat)
    requires k < |states| && Follows(states, bits, k, s) && Calm(states, limit) && limit + Pow2(bits) <= WORD + 1
    requires t < |s.thr| && s.thr[t].ConsumerLoaded?
    ensures s.pTail < s.thr[t].c + WORD
  {
    assert Moved(states, t, k, limit) && SinceBegun(states, t, k, s.thr[t]);
  }

  lemma NothingPublished(w: State)
    requires w.cHead == w.pTail
    ensures forall i: nat :: !Published(w, i)
  {
  }

  lemma EmptyUnwraps(s: State, t: nat)
    requires Inv(s) && t < |s.thr| && s.thr[t].ConsumerLoaded? && s.pTail < s.thr[t].c + WORD
    requires s.thr[t].c % WORD == s.pTail % WORD
    ensures s.cHead == s.pTail
  {
    assert PcInv(s, s.thr[t]);
    WrapCompare(s.thr[t].c, s.pTail);
    EmptyMeans(s, t);
  }

  /**
  A consumer that reports empty saw no published entry left, if the heads move less
  than 2^32 less the entries that the ring can hold.
  */
  lemma EmptyMeans32(states: seq<State>, steps: seq<Step>, bits: nat, limit: nat, k: nat, t: nat)
    requires IsRun32(states, steps, bits) && Calm(states, limit) && limit + Pow2(bits) <= WORD + 1
    requires k < |states| && t < |states[k].thr|
    requires states[k].thr[t].ConsumerLoaded? && states[k].thr[t].c == states[k].pTail
    ensures states[k].cHead == states[k].pTail && forall i: nat :: !Published(states[k], i)
  {
    CalmMonotone(states, limit, WORD);
    var s := Unwrapped(states, steps, bits, k);
    assert states[k].thr[t] == WrapPc(s.thr[t]);
    SnapshotRecent(states, bits, limit, k, s, t);
    EmptyUnwraps(s, t);
    NothingPublished(states[k]);
  }

  // ------------------------------------------------------- a consumer that slept too long

  /** w is the last state of some run. */
  ghost predicate Reached(w: State, bits: nat) {
    exists states, steps :: IsRun32(states, steps, bits) && states[|states| - 1] == w
  }

  lemma RunStep(states: seq<State>, steps: seq<Step>, step: Step, bits: nat)
    requires IsRun32(states, steps, bits) && Enabled(states[|steps|], step)
    ensures IsRun32(states + [Apply32(states[|steps|], step)], steps + [step], bits)
  {
  }

  lemma ReachStep(w: State, step: Step, bits: nat)
    requires Reached(w, bits) && Enabled(w, step)
    ensures Reached(Apply32(w, step), bits)
  {
    var states, steps :| IsRun32(states, steps, bits) && states[|states| - 1] == w;
    RunStep(states, steps, step, bits);
  }

  /** Entries of one word, no entry in the ring, and thread 1 outside it. */
  predicate Rests(w: State, bits: nat) {
    && Shape(w) && bits < 32 && w.size == Pow2(bits) && w.words == 1
    && w.pHead == w.pTail == w.cHead < WORD
    && |w.thr| == 2 && w.thr[1].Idle?
  }

  /** Thread 1 enqueues v. */
  lemma EnqueueAlone(w: State, bits: nat, v: Value) returns (w': State)
    requires Reached(w, bits) && Rests(w, bits) && bits > 0 && |v| == 1
    ensures Reached(w', bits) && Shape(w')
    ensures w' == w.(pHead := Next(w.pHead), pTail := Next(w.pHead), enq := w.enq + [v], slots := w'.slots)
  {
    var p := w.pHead;
    NotFull(bits, p);
    var w1 := w.(thr := [w.thr[0], ProducerLoaded(v, p)]);
    assert w1 == Apply32(w, Enqueue(1, v));
    ReachStep(w, Enqueue(1, v), bits);
    var w2 := w.(thr := [w.thr[0], ProducerChecked(v, p, p)]);
    assert w2 == Apply32(w1, Run(1));
    ReachStep(w1, Run(1), bits);
    var w3 := w.(pHead := Next(p), enq := w.enq + [v], thr := [w.thr[0], Writing(v, p, 0)]);
    assert w3 == Apply32(w2, Run(1));
    ReachStep(w2, Run(1), bits);
    w' := WriteAlone(w3, bits, v);
  }

  lemma NotFull(bits: nat, p: nat)
    requires 0 < bits < 32 && p < WORD
    ensures Slot(Pow2(bits), Next(p)) != Slot(Pow2(bits), p)
  {
    assert p % WORD == p;
    assert Pow2(bits) >= 2 by {
      Pow2Monotone(1, bits);
    }
    SlotsDiffer(p, p + 1, Pow2(bits));
    WrapSlot(bits, p);
    WrapSlot(bits, p + 1);
  }

  lemma WriteAlone(w: State, bits: nat, v: Value) returns (w': State)
    requires Reached(w, bits) && Shape(w) && w.words == |v| == 1 && |w.thr| == 2
    requires w.pTail < WORD && w.thr[1] == Writing(v, w.pTail, 0)
    ensures Reached(w', bits) && Shape(w')
    ensures w' == w.(pTail := Next(w.pTail), slots := w'.slots, thr := [w.thr[0], Idle])
  {
    var p := w.pTail;
    var w1 := Apply32(w, Run(1));
    ReachStep(w, Run(1), bits);
    var w2 := w1.(thr := [w.thr[0], Written(p)]);
    assert w2 == Apply32(w1, Run(1));
    ReachStep(w1, Run(1), bits);
    var w3 := w1.(thr := [w.thr[0], Publishing(p)]);
    assert w3 == Apply32(w2, Run(1));
    ReachStep(w2, Run(1), bits);
    w' := w1.(pTail := Next(p), thr := [w.thr[0], Idle]);
    assert w' == Apply32(w3, Run(1));
    ReachStep(w3, Run(1), bits);
  }

  /** Thread t starts a dequeue and copies the entry. */
  lemma CopyAlone(w: State, bits: nat, t: nat) returns (w': State)
    requires Reached(w, bits) && Shape(w) && w.words == 1 && t < |w.thr| && w.thr[t].Idle? && w.cHead != w.pTail
    ensures Reached(w', bits) && |w'.thr| == |w.thr|
    ensures w'.thr[t].Copying? && |w'.thr[t].data| == 1 && w'.thr[t].c == w.cHead
    ensures w' == w.(thr := w.thr[t := w'.thr[t]])
  {
    var c := w.cHead;
    var w1 := w.(thr := w.thr[t := ConsumerLoaded(true, c)]);
    assert w1 == Apply32(w, Dequeue(t, true));
    ReachStep(w, Dequeue(t, true), bits);
    var w2 := w.(thr := w.thr[t := Copying(true, c, [])]);
    assert w2 == Apply32(w1, Run(t));
    ReachStep(w1, Run(t), bits);
    w' := w.(thr := w.thr[t := Copying(true, c, [] + [w.slots[Slot(w.size, c)][0]])]);
    assert w' == Apply32(w2, Run(t));
    ReachStep(w2, Run(t), bits);
  }

  /** A thread that has copied the entry at c_head takes it. */
  lemma TakeAlone(w: State, bits: nat, t: nat)
    requires Reached(w, bits) && Shape(w) && w.words == 1 && t < |w.thr|
    requires w.thr[t].Copying? && |w.thr[t].data| == 1 && w.thr[t].c == w.cHead
    ensures Reached(w.(cHead := Next(w.cHead), deq := w.deq + [w.thr[t].data], thr := w.thr[t := Idle]), bits)
  {
    ReachStep(w, Run(t), bits);
  }

  /** Thread 1 enqueues and dequeues n entries. */
  lemma {:induction false} Laps(w: State, bits: nat, n: nat) returns (w': State)
    requires Reached(w, bits) && Rests(w, bits) && bits > 0
    ensures Reached(w', bits) && Rests(w', bits) && w'.thr == w.thr
    ensures w'.pHead == (w.pHead + n) % WORD && |w'.enq| == |w.enq| + n && |w'.deq| == |w.deq| + n
  {
    if n == 0 {
      w' := w;
    } else {
      var w1 := Laps(w, bits, n - 1);
      WrapNext(w.pHead + n - 1);
      var w2 := EnqueueAlone(w1, bits, [0]);
      var w3 := CopyAlone(w2, bits, 1);
      TakeAlone(w3, bits, 1);
      w' := w3.(cHead := Next(w3.cHead), deq := w3.deq + [w3.thr[1].data], thr := w3.thr[1 := Idle]);
      assert w'.thr == w.thr;
    }
  }

  function Empty(bits: nat): State {
    State(Pow2(bits), 1, 0, 0, 0, seq(Pow2(bits), _ => [0]), [Idle, Idle], [], [])
  }

  /** Thread 0 copies the first entry and sleeps while thread 1 moves c_head by 2^32. */
  lemma Overslept(bits: nat) returns (w: State)
    requires 0 < bits < 32
    ensures Reached(w, bits) && Rests(w, bits) && w.cHead == 0 && |w.enq| == |w.deq| == WORD
    ensures w.thr[0].Copying? && |w.thr[0].data| == 1 && w.thr[0].c == 0
  {
    var w0 := Empty(bits);
    assert IsRun32([w0], [], bits) && [w0][|[w0]| - 1] == w0;
    var w1 := EnqueueAlone(w0, bits, [0]);
    var w2 := CopyAlone(w1, bits, 0);
    var w3 := CopyAlone(w2, bits, 1);
    TakeAlone(w3, bits, 1);
    var w4 := w3.(cHead := Next(w3.cHead), deq := w3.deq + [w3.thr[1].data], thr := w3.thr[1 := Idle]);
    w := Laps(w4, bits, WORD - 1);
  }

  /** A run stays calm while the heads stay within the limit, and when it ends with everybody outside. */
  lemma EndsCalm(states: seq<State>, steps: seq<Step>, bits: nat, limit: nat)
    requires IsRun32(states, steps, bits) && |steps| > 0
    requires |states[|steps| - 1].enq| < limit && |states[|steps| - 1].deq| < limit
    requires forall t :: 0 <= t < |states[|steps|].thr| ==> states[|steps|].thr[t].Idle?
    ensures Calm(states, limit)
  {
    forall t: nat, k: nat | k < |states| && t < |states[k].thr|
      ensures Moved(states, t, k, limit)
    {
      if k < |steps| {
        Grown(states, steps, bits, k, |steps| - 1);
      } else {
        assert Begun(states, t, k) == k;
      }
    }
  }

  /** Its compare-and-swap then succeeds and returns the first entry again. */
  lemma StaleDequeue(bits: nat, limit: nat) returns (states: seq<State>, steps: seq<Step>)
    requires 0 < bits < 32 && limit > WORD
    ensures IsRun32(states, steps, bits) && Calm(states, limit)
    ensures |states[|steps|].deq| > |states[|steps|].enq|
  {
    var w := Overslept(bits);
    var a, p :| IsRun32(a, p, bits) && a[|a| - 1] == w;
    RunStep(a, p, Run(0), bits);
    states, steps := a + [Apply32(w, Run(0))], p + [Run(0)];
    assert states[|p|] == w;
    EndsCalm(states, steps, bits, limit);
  }

  // ----------------------------------------------------------------- the exact bound

  /** First in, first out, in every run whose operations see each head move less than `limit`. */
  ghost predicate Fifo(bits: nat, limit: nat) {
    forall states: seq<State>, steps, k: nat | IsRun32(states, steps, bits) && Calm(states, limit) && k < |states| ::
      states[k].deq <= states[k].enq
  }

  /** A ring of one slot is always full: nothing ever goes in or out. */
  lemma {:induction false} OneSlotStaysEmpty(states: seq<State>, steps: seq<Step>, k: nat)
    requires IsRun32(states, steps, 0) && k < |states|
    ensures var w := states[k];
      && w.size == 1 && w.enq == w.deq == [] && w.pTail == w.cHead == 0
      && forall t :: 0 <= t < |w.thr| ==>
           w.thr[t].Idle? || w.thr[t].ProducerLoaded? || (w.thr[t].ConsumerLoaded? && w.thr[t].c == 0)
  {
    if k > 0 {
      OneSlotStaysEmpty(states, steps, k - 1);
      assert Enabled(states[k - 1], steps[k - 1]) && states[k] == Apply32(states[k - 1], steps[k - 1]);
    }
  }

  /** The bound is exact for every ring that can hold an entry. */
  lemma FifoIffBelow32Bits(bits: nat, limit: nat)
    requires bits < 32
    ensures Fifo(bits, limit) <==> bits == 0 || limit <= WORD
  {
    if bits == 0 {
      forall states: seq<State>, steps, k: nat | IsRun32(states, steps, bits) && Calm(states, limit) && k < |states|
        ensures states[k].deq <= states[k].enq
      {
        OneSlotStaysEmpty(states, steps, k);
      }
    } else if limit <= WORD {
      FifoBelow(bits, limit);
    } else {
      var states, steps := StaleDequeue(bits, limit);
    }
  }

  lemma FifoBelow(bits: nat, limit: nat)
    requires bits < 32 && limit <= WORD
    ensures Fifo(bits, limit)
  {
    forall states: seq<State>, steps, k: nat | IsRun32(states, steps, bits) && Calm(states, limit) && k < |states|
      ensures states[k].deq <= states[k].enq
    {
      CalmMonotone(states, limit, WORD);
      FirstInFirstOut32(states, steps, bits, k);
    }
  }
}
