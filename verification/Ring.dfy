/**
The multi-producer multi-consumer ring of Concurrency Kit (_ck_ring_enqueue_mp,
_ck_ring_dequeue_mc, _ck_ring_trydequeue_mc) as a transition system of atomic
accesses. Entries are copied word by word, so a slow consumer can read a slot
while a producer overwrites it; its compare-and-swap then fails.

`enq` and `deq` are history: the values in order of successful compare-and-swap
on p_head, and the values returned in order of successful compare-and-swap on
c_head. The counters are unbounded here and the ring has any size; RingWrapped
carries the results over to 32-bit counters.
*/
module Ring {
  import Bits

  type Value = seq<int>

  datatype Pc =
    | Idle
    | ProducerLoaded(v: Value, p: nat)             // loaded p_head
    | ProducerChecked(v: Value, p: nat, c: nat)    // loaded c_head, ring not full
    | Writing(v: Value, p: nat, done: nat)         // owns slot p, `done` words copied
    | Written(p: nat)                              // waiting for p_tail to reach p
    | Publishing(p: nat)                           // saw p_tail == p
    | ConsumerLoaded(retry: bool, c: nat)          // loaded c_head
    | Copying(retry: bool, c: nat, data: Value)    // loaded p_tail, ring not empty

  datatype State = State(
    size: nat, words: nat,
    pHead: nat, pTail: nat, cHead: nat,
    slots: seq<Value>,
    thr: seq<Pc>,
    enq: seq<Value>, deq: seq<Value>)

  datatype Step = Enqueue(t: nat, v: Value) | Dequeue(t: nat, retry: bool) | Run(t: nat)

  predicate Shape(s: State) {
    && s.size > 0
    && |s.slots| == s.size
    && forall i :: 0 <= i < s.size ==> |s.slots[i]| == s.words
  }

  /** ck_ring_init: an empty ring over an arbitrary buffer. */
  predicate IsInit(s: State) {
    && Shape(s)
    && s.pHead == s.pTail == s.cHead == 0
    && s.enq == s.deq == []
    && forall t :: 0 <= t < |s.thr| ==> s.thr[t] == Idle
  }

  // ------------------------------------------------------------------- steps

  predicate Full(s: State, p: nat)
    requires s.size > 0
  {
    (p + 1) % s.size == s.cHead % s.size
  }

  /** The state after word `done` of entry p has been copied into its slot. */
  function WordWritten(s: State, t: nat, v: Value, p: nat, done: nat): State
    requires Shape(s) && t < |s.thr| && done < s.words == |v|
  {
    var slot := p % s.size;
    s.(slots := s.slots[slot := s.slots[slot][done := v[done]]], thr := s.thr[t := Writing(v, p, done + 1)])
  }

  predicate Enabled(s: State, step: Step) {
    Shape(s) &&
    match step
    case Enqueue(t, v) => t < |s.thr| && s.thr[t].Idle? && |v| == s.words
    case Dequeue(t, _) => t < |s.thr| && s.thr[t].Idle?
    case Run(t) =>
      t < |s.thr| &&
      match s.thr[t]
      case Idle => false
      case Writing(v, p, done) => done <= s.words == |v|
      case Written(p) => s.pTail == p
      case Copying(_, _, data) => |data| <= s.words
      case _ => true
  }

  function Apply(s: State, step: Step): State
    requires Enabled(s, step)
  {
    match step
    case Enqueue(t, v) => s.(thr := s.thr[t := ProducerLoaded(v, s.pHead)])
    case Dequeue(t, retry) => s.(thr := s.thr[t := ConsumerLoaded(retry, s.cHead)])
    case Run(t) =>
      match s.thr[t]
      case Idle => s
      case ProducerLoaded(v, p) =>
        s.(thr := s.thr[t := if Full(s, p) then Idle else ProducerChecked(v, p, s.cHead)])
      case ProducerChecked(v, p, c) =>
        if s.pHead == p then s.(pHead := p + 1, enq := s.enq + [v], thr := s.thr[t := Writing(v, p, 0)])
        else s.(thr := s.thr[t := ProducerLoaded(v, s.pHead)])
      case Writing(v, p, done) =>
        if done < s.words then WordWritten(s, t, v, p, done)
        else s.(thr := s.thr[t := Written(p)])
      case Written(p) => s.(thr := s.thr[t := Publishing(p)])
      case Publishing(p) => s.(pTail := p + 1, thr := s.thr[t := Idle])
      case ConsumerLoaded(retry, c) =>
        s.(thr := s.thr[t := if c == s.pTail then Idle else Copying(retry, c, [])])
      case Copying(retry, c, data) =>
        if |data| < s.words then s.(thr := s.thr[t := Copying(retry, c, data + [s.slots[c % s.size][|data|]])])
        else if s.cHead == c then s.(cHead := c + 1, deq := s.deq + [data], thr := s.thr[t := Idle])
        else s.(thr := s.thr[t := if retry then ConsumerLoaded(retry, s.cHead) else Idle])
  }

  ghost predicate IsRun(states: seq<State>, steps: seq<Step>) {
    && |states| == |steps| + 1
    && IsInit(states[0])
    && forall k :: 0 <= k < |steps| ==> Enabled(states[k], steps[k]) && states[k + 1] == Apply(states[k], steps[k])
  }

  // --------------------------------------------------------------- invariant

  predicate Claimed(pc: Pc) {
    pc.Writing? || pc.Written? || pc.Publishing?
  }

  ghost predicate PcInv(s: State, pc: Pc)
    requires Shape(s)
  {
    match pc
    case Idle => true
    case ProducerLoaded(v, p) => |v| == s.words && p <= s.pHead
    case ProducerChecked(v, p, c) =>
      |v| == s.words && p <= s.pHead && c <= s.cHead && (p == s.pHead ==> p + 2 <= c + s.size)
    case Writing(v, p, done) =>
      && s.pTail <= p < s.pHead == |s.enq| && s.enq[p] == v && done <= s.words == |v|
      && s.slots[p % s.size][..done] == v[..done]
    case Written(p) => s.pTail <= p < s.pHead == |s.enq| && s.slots[p % s.size] == s.enq[p]
    case Publishing(p) => s.pTail == p < s.pHead == |s.enq| && s.slots[p % s.size] == s.enq[p]
    case ConsumerLoaded(_, c) => c <= s.cHead
    case Copying(_, c, data) =>
      && c <= s.cHead && c < s.pTail && |data| <= s.words
      && (c == s.cHead && c < |s.enq| && |s.enq[c]| == s.words ==> data == s.enq[c][..|data|])
  }

  ghost predicate Inv(s: State) {
    && Shape(s)
    && s.cHead <= s.pTail <= s.pHead < s.cHead + s.size
    && |s.enq| == s.pHead && |s.deq| == s.cHead && s.deq == s.enq[..s.cHead]
    && (forall i :: 0 <= i < |s.enq| ==> |s.enq[i]| == s.words)
    && (forall i :: s.cHead <= i < s.pTail ==> s.slots[i % s.size] == s.enq[i])
    && (forall t :: 0 <= t < |s.thr| ==> PcInv(s, s.thr[t]))
    && (forall t, u :: 0 <= t < |s.thr| && 0 <= u < |s.thr| && t != u && Claimed(s.thr[t]) && Claimed(s.thr[u]) ==>
          s.thr[t].p != s.thr[u].p)
  }

  // ------------------------------------------------------------- slot arithmetic

  lemma SlotsDiffer(a: nat, b: nat, size: nat)
    requires size > 0 && a < b < a + size
    ensures a % size != b % size
  {
    if a % size == b % size {
      Bits.SameModulo(a, b, size);
    }
  }

  lemma SlotWraps(a: nat, size: nat)
    requires size > 0
    ensures (a + size) % size == a % size
  {
    assert a + size == (a / size + 1) * size + a % size;
    Bits.DivMod(a + size, size, a / size + 1, a % size);
  }

  /** With an up-to-date p_head snapshot, "full" means size - 1 entries claimed and not dequeued. */
  lemma FullMeans(s: State)
    requires Inv(s)
    ensures Full(s, s.pHead) <==> s.pHead - s.cHead == s.size - 1
  {
    var p, c := s.pHead, s.cHead;
    if p + 1 == c + s.size {
      SlotWraps(c, s.size);
    } else {
      SlotsDiffer(c, p + 1, s.size);
    }
  }

  /** A consumer that reports empty saw no published entry left. */
  lemma EmptyMeans(s: State, t: nat)
    requires Inv(s) && t < |s.thr| && s.thr[t].ConsumerLoaded? && s.thr[t].c == s.pTail
    ensures s.cHead == s.pTail
  {
  }

  // ----------------------------------------------------- every step keeps it

  /** A thread whose facts only mention counters and slots that did not change for it. */
  lemma OthersKept(s: State, s': State, t: nat, u: nat)
    requires Inv(s) && t < |s.thr| && u < |s.thr| && u != t && Shape(s')
    requires s'.size == s.size && s'.words == s.words && s'.slots == s.slots
    requires s.pHead <= s'.pHead && s.cHead <= s'.cHead && s'.pTail == s.pTail
    requires s.enq <= s'.enq && |s'.enq| == s'.pHead
    requires s'.cHead <= s.pTail && forall i :: 0 <= i < |s'.enq| ==> |s'.enq[i]| == s.words
    ensures PcInv(s', s.thr[u])
  {
  }

  /** A step that only moves its own thread, and claims nothing new. */
  lemma OnlyPcKeeps(s: State, t: nat, pc: Pc)
    requires Inv(s) && t < |s.thr| && PcInv(s, pc)
    requires Claimed(pc) ==> Claimed(s.thr[t]) && s.thr[t].p == pc.p
    ensures Inv(s.(thr := s.thr[t := pc]))
  {
  }

  lemma LocalStepKeeps(s: State, t: nat)
    requires Inv(s) && Enabled(s, Run(t)) && (s.thr[t].ProducerLoaded? || s.thr[t].ConsumerLoaded? || s.thr[t].Written?)
    ensures Inv(Apply(s, Run(t)))
  {
    assert PcInv(s, s.thr[t]);
    FullMeans(s);
    OnlyPcKeeps(s, t, Apply(s, Run(t)).thr[t]);
  }

  lemma ClaimKeeps(s: State, t: nat)
    requires Inv(s) && Enabled(s, Run(t)) && s.thr[t].ProducerChecked?
    ensures Inv(Apply(s, Run(t)))
  {
    var s' := Apply(s, Run(t));
    assert PcInv(s, s.thr[t]);
    forall u | 0 <= u < |s.thr|
      ensures PcInv(s', s'.thr[u])
    {
      if u != t {
        OthersKept(s, s', t, u);
      }
    }
    forall u | 0 <= u < |s.thr| && u != t && Claimed(s.thr[u])
      ensures s.thr[u].p < s.pHead
    {
      assert PcInv(s, s.thr[u]);
    }
  }

  /** Slots claimed by other producers are not the one being written. */
  lemma WriteOther(s: State, t: nat, v: Value, p: nat, done: nat, u: nat)
    requires Inv(s) && t < |s.thr| && s.thr[t] == Writing(v, p, done) && done < s.words == |v|
    requires u < |s.thr| && u != t
    ensures PcInv(WordWritten(s, t, v, p, done), s.thr[u])
  {
    assert PcInv(s, s.thr[t]) && PcInv(s, s.thr[u]);
    if Claimed(s.thr[u]) {
      var q := s.thr[u].p;
      if q < p {
        SlotsDiffer(q, p, s.size);
      } else {
        SlotsDiffer(p, q, s.size);
      }
    }
  }

  /** Neither are the slots of published entries. */
  lemma WordKeeps(s: State, t: nat, v: Value, p: nat, done: nat)
    requires Inv(s) && t < |s.thr| && s.thr[t] == Writing(v, p, done) && done < s.words == |v|
    ensures Inv(WordWritten(s, t, v, p, done))
  {
    var s' := WordWritten(s, t, v, p, done);
    assert PcInv(s, s.thr[t]);
    forall i | s.cHead <= i < s.pTail
      ensures s'.slots[i % s.size] == s.enq[i]
    {
      SlotsDiffer(i, p, s.size);
    }
    forall u | 0 <= u < |s.thr|
      ensures PcInv(s', s'.thr[u])
    {
      if u != t {
        WriteOther(s, t, v, p, done, u);
      }
    }
  }

  lemma WriteKeeps(s: State, t: nat)
    requires Inv(s) && Enabled(s, Run(t)) && s.thr[t].Writing?
    ensures Inv(Apply(s, Run(t)))
  {
    var Writing(v, p, done) := s.thr[t];
    assert PcInv(s, s.thr[t]);
    if done < s.words {
      WordKeeps(s, t, v, p, done);
    } else {
      OnlyPcKeeps(s, t, Written(p));
    }
  }

  lemma PublishKeeps(s: State, t: nat)
    requires Inv(s) && Enabled(s, Run(t)) && s.thr[t].Publishing?
    ensures Inv(Apply(s, Run(t)))
  {
    var s' := Apply(s, Run(t));
    assert PcInv(s, s.thr[t]);
    forall u | 0 <= u < |s.thr|
      ensures PcInv(s', s'.thr[u])
    {
      assert PcInv(s, s.thr[u]);
    }
  }

  lemma CopyKeeps(s: State, t: nat)
    requires Inv(s) && Enabled(s, Run(t)) && s.thr[t].Copying?
    ensures Inv(Apply(s, Run(t)))
  {
    var Copying(retry, c, data) := s.thr[t];
    assert PcInv(s, s.thr[t]);
    if |data| == s.words && c == s.cHead {
      TakeKeeps(s, t);
    } else {
      if c == s.cHead {
        assert s.slots[c % s.size] == s.enq[c];
      }
      OnlyPcKeeps(s, t, Apply(s, Run(t)).thr[t]);
    }
  }

  /** A successful compare-and-swap on c_head. */
  lemma TakeKeeps(s: State, t: nat)
    requires Inv(s) && t < |s.thr| && s.thr[t].Copying? && |s.thr[t].data| == s.words && s.thr[t].c == s.cHead
    ensures Inv(s.(cHead := s.cHead + 1, deq := s.deq + [s.thr[t].data], thr := s.thr[t := Idle]))
  {
    var c, data := s.cHead, s.thr[t].data;
    var s' := s.(cHead := c + 1, deq := s.deq + [data], thr := s.thr[t := Idle]);
    assert PcInv(s, s.thr[t]);
    assert data == s.enq[c];
    assert s.enq[..c + 1] == s.enq[..c] + [s.enq[c]];
    forall u | 0 <= u < |s.thr|
      ensures PcInv(s', s'.thr[u])
    {
      if u != t {
        OthersKept(s, s', t, u);
      }
    }
  }

  lemma StepKeeps(s: State, step: Step)
    requires Inv(s) && Enabled(s, step)
    ensures Inv(Apply(s, step))
  {
    match step
    case Enqueue(t, v) => InvokeKeeps(s, step);
    case Dequeue(t, retry) => InvokeKeeps(s, step);
    case Run(t) =>
      match s.thr[t]
      case ProducerLoaded(_, _) => LocalStepKeeps(s, t);
      case ProducerChecked(_, _, _) => ClaimKeeps(s, t);
      case Writing(_, _, _) => WriteKeeps(s, t);
      case Written(_) => LocalStepKeeps(s, t);
      case Publishing(_) => PublishKeeps(s, t);
      case ConsumerLoaded(_, _) => LocalStepKeeps(s, t);
      case Copying(_, _, _) => CopyKeeps(s, t);
  }

  lemma InvokeKeeps(s: State, step: Step)
    requires Inv(s) && Enabled(s, step) && !step.Run?
    ensures Inv(Apply(s, step))
  {
    OnlyPcKeeps(s, step.t, Apply(s, step).thr[step.t]);
  }

  lemma {:induction false} RunInv(states: seq<State>, steps: seq<Step>, k: nat)
    requires IsRun(states, steps) && k < |states|
    ensures Inv(states[k])
  {
    if k > 0 {
      RunInv(states, steps, k - 1);
      StepKeeps(states[k - 1], steps[k - 1]);
    }
  }

  // ------------------------------------------------------------------ theorems

  /** First in, first out: what was returned so far is exactly the first part of what was claimed. */
  lemma FirstInFirstOut(states: seq<State>, steps: seq<Step>, k: nat)
    requires IsRun(states, steps) && k < |states|
    ensures states[k].deq <= states[k].enq
    ensures |states[k].enq| - |states[k].deq| < states[k].size
  {
    RunInv(states, steps, k);
  }

  /** A step leaves a published entry alone, or is the dequeue that returns it. */
  lemma PublishedStep(s: State, step: Step, i: nat)
    requires Inv(s) && Enabled(s, step) && s.cHead <= i < s.pTail
    ensures i < |s.enq| && s.slots[i % s.size] == s.enq[i]
    ensures Apply(s, step).cHead <= i ==> Apply(s, step).slots[i % s.size] == s.enq[i]
    ensures Apply(s, step).cHead > i ==> Apply(s, step).deq == s.deq + [s.enq[i]]
  {
    StepKeeps(s, step);
  }

  /** A published entry stays intact in its slot until the dequeue that returns it. */
  lemma PublishedStays(states: seq<State>, steps: seq<Step>, k: nat, i: nat)
    requires IsRun(states, steps) && k < |steps| && states[k].cHead <= i < states[k].pTail
    ensures i < |states[k].enq| && states[k].slots[i % states[k].size] == states[k].enq[i]
    ensures states[k + 1].cHead <= i ==> states[k + 1].slots[i % states[k].size] == states[k].enq[i]
    ensures states[k + 1].cHead > i ==> states[k + 1].deq == states[k].deq + [states[k].enq[i]]
  {
    RunInv(states, steps, k);
    assert Enabled(states[k], steps[k]) && states[k + 1] == Apply(states[k], steps[k]);
    PublishedStep(states[k], steps[k], i);
  }
}
