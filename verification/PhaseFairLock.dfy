/**
Concurrency Kit's phase-fair reader-writer lock on its four 32-bit counters, as
a transition system of atomic accesses. Counter wrap-around is modelled.

History: how many readers entered and left, how many writers arrived and left,
each reader's entry number and the write phase that blocks it, and how far the
current write phase has come. No step and no guard of a step reads it. `Within`
bounds the concurrent readers and writers of a run; the lock is proved for fewer
than 2^24 readers and at most 2^32 writers, and PhaseFairLimit shows that no
larger bound will do.
*/
module PhaseFairLock {
  import opened Bits

  const READERS: nat := 0x100_0000   // 2^24 values of the reader count
  const RINC: nat := 0x100           // CK_PFLOCK_RINC
  const PRES: nat := 2               // CK_PFLOCK_PRES

  datatype Pc =
    | Idle
    | ReaderWait(w: nat, idx: nat, phase: nat)      // spinning until the writer bits differ from w
    | ReadHeld(idx: nat)
    | WriterQueued(ticket: nat, turn: nat)          // spinning until wout equals the ticket
    | WriterTurn(ticket: nat, turn: nat)            // about to announce itself in rin
    | WriterFlush(rin0: nat, turn: nat)             // spinning until rout equals the old rin
    | WriteHeld(turn: nat)
    | WriterLeaving(turn: nat)                      // cleared the bits, has not advanced wout

  /** Write phase number `left`: not announced, announced by a thread after
      `before` readers had entered, or withdrawn. */
  datatype Phase = NotYet | Announced(owner: nat, before: nat) | Withdrawn(owner: nat)

  datatype State = State(
    rin: nat, rout: nat, win: nat, wout: nat,
    thr: seq<Pc>,
    entered: nat, exited: nat, arrived: nat, left: nat, phase: Phase)

  datatype Step = ReadLock(t: nat) | WriteLock(t: nat) | Unlock(t: nat) | Run(t: nat)

  function InitState(n: nat): State {
    State(0, 0, 0, 0, seq(n, _ => Idle), 0, 0, 0, 0, NotYet)
  }

  // ------------------------------------------------------------------- steps

  function Add32(x: nat, y: nat): nat { (x + y) % WORD }

  /** rin & CK_PFLOCK_WBITS. */
  function WriterBits(rin: nat): nat { rin % 4 }

  predicate Enabled(s: State, step: Step) {
    step.t < |s.thr| &&
    match step
    case ReadLock(t) => s.thr[t].Idle?
    case WriteLock(t) => s.thr[t].Idle?
    case Unlock(t) => s.thr[t].ReadHeld? || s.thr[t].WriteHeld?
    case Run(t) =>
      match s.thr[t]
      case ReaderWait(w, _, _) => WriterBits(s.rin) != w
      case WriterQueued(ticket, _) => s.wout == ticket
      case WriterTurn(_, _) => true
      case WriterFlush(rin0, _) => s.rout == rin0
      case WriterLeaving(_) => true
      case _ => false
  }

  function Apply(s: State, step: Step): State
    requires Enabled(s, step)
  {
    match step
    case ReadLock(t) =>
      var w := WriterBits(s.rin);
      s.(rin := Add32(s.rin, RINC), entered := s.entered + 1,
         thr := s.thr[t := if w == 0 then ReadHeld(s.entered) else ReaderWait(w, s.entered, s.left)])
    case WriteLock(t) =>
      s.(win := Add32(s.win, 1), arrived := s.arrived + 1, thr := s.thr[t := WriterQueued(s.win, s.arrived)])
    case Unlock(t) =>
      if s.thr[t].ReadHeld? then s.(rout := Add32(s.rout, RINC), exited := s.exited + 1, thr := s.thr[t := Idle])
      else s.(rin := s.rin - s.rin % 16, phase := Withdrawn(t), thr := s.thr[t := WriterLeaving(s.thr[t].turn)])
    case Run(t) =>
      match s.thr[t]
      case ReaderWait(_, idx, _) => s.(thr := s.thr[t := ReadHeld(idx)])
      case WriterQueued(ticket, turn) => s.(thr := s.thr[t := WriterTurn(ticket, turn)])
      case WriterTurn(ticket, turn) =>
        s.(rin := Add32(s.rin, ticket % 2 + PRES), phase := Announced(t, s.entered),
           thr := s.thr[t := WriterFlush(s.rin, turn)])
      case WriterFlush(_, turn) => s.(thr := s.thr[t := WriteHeld(turn)])
      case WriterLeaving(_) =>
        s.(wout := Add32(s.wout, 1), left := s.left + 1, phase := NotYet, thr := s.thr[t := Idle])
      case _ => s
  }

  /** The step leaves at most so many readers and writers inside their lock and unlock functions or between them. */
  predicate Within(s: State, step: Step, readers: nat, writers: nat) {
    && (step.ReadLock? ==> s.entered < s.exited + readers)
    && (step.WriteLock? ==> s.arrived < s.left + writers)
  }

  /** A run with at most so many concurrent readers and writers. */
  ghost predicate IsRun(states: seq<State>, steps: seq<Step>, readers: nat, writers: nat) {
    && |states| == |steps| + 1
    && states[0] == InitState(|states[0].thr|)
    && forall k :: 0 <= k < |steps| ==>
         Within(states[k], steps[k], readers, writers) && Enabled(states[k], steps[k]) &&
         states[k + 1] == Apply(states[k], steps[k])
  }

  // --------------------------------------------------------------- invariant

  predicate IsReader(pc: Pc) { pc.ReaderWait? || pc.ReadHeld? }

  predicate IsWriter(pc: Pc) {
    pc.WriterQueued? || pc.WriterTurn? || pc.WriterFlush? || pc.WriteHeld? || pc.WriterLeaving?
  }

  /** Readers present, waiting or holding, that entered before the given count. */
  function Earlier(s: State, before: nat): set<nat> {
    set t: nat | t < |s.thr| && IsReader(s.thr[t]) && s.thr[t].idx < before
  }

  /** The writer bits as the history says they should be. */
  function AnnouncedBits(s: State): nat {
    if s.phase.Announced? then PRES + s.left % 2 else 0
  }

  predicate Counters(s: State) {
    && s.rin == RINC * (s.entered % READERS) + AnnouncedBits(s)
    && s.rout == RINC * (s.exited % READERS)
    && s.win == s.arrived % WORD
    && s.wout == s.left % WORD
    && s.exited <= s.entered < s.exited + READERS
    && s.left <= s.arrived <= s.left + WORD
  }

  predicate ReaderInv(s: State, pc: Pc) {
    match pc
    case ReaderWait(w, idx, phase) =>
      && idx < s.entered && w == PRES + phase % 2 && phase <= s.left <= phase + 1
      && (phase == s.left ==> !s.phase.NotYet?)
      && (s.phase.Announced? ==> (phase == s.left <==> idx >= s.phase.before))
      && (s.phase.Withdrawn? ==> phase == s.left)
    case ReadHeld(idx) =>
      idx < s.entered && (s.phase.Announced? ==> idx < s.phase.before)
    case _ => true
  }

  predicate WriterInv(s: State, t: nat, pc: Pc) {
    match pc
    case WriterQueued(ticket, turn) => s.left <= turn < s.arrived && ticket == turn % WORD
    case WriterTurn(ticket, turn) => turn == s.left < s.arrived && ticket == turn % WORD && s.phase.NotYet?
    case WriterFlush(rin0, turn) =>
      && turn == s.left < s.arrived && s.phase.Announced? && s.phase.owner == t
      && rin0 == RINC * (s.phase.before % READERS)
    case WriteHeld(turn) =>
      && turn == s.left < s.arrived && s.phase.Announced? && s.phase.owner == t
      && s.exited == s.phase.before
    case WriterLeaving(turn) => turn == s.left < s.arrived && s.phase == Withdrawn(t)
    case _ => true
  }

  predicate PhaseInv(s: State) {
    match s.phase
    case NotYet => true
    case Announced(owner, before) =>
      && owner < |s.thr| && (s.thr[owner].WriterFlush? || s.thr[owner].WriteHeld?)
      && s.exited <= before <= s.entered && |Earlier(s, before)| == before - s.exited
    case Withdrawn(owner) => owner < |s.thr| && s.thr[owner].WriterLeaving?
  }

  ghost predicate Inv(s: State) {
    && Counters(s)
    && PhaseInv(s)
    && |Earlier(s, s.entered)| == s.entered - s.exited
    && (forall t: nat :: t < |s.thr| ==> ReaderInv(s, s.thr[t]) && WriterInv(s, t, s.thr[t]))
    && (forall t, u :: 0 <= t < |s.thr| && 0 <= u < |s.thr| && t != u && IsWriter(s.thr[t]) && IsWriter(s.thr[u]) ==>
          s.thr[t].turn != s.thr[u].turn)
  }

  // -------------------------------------------------------- counter arithmetic

  lemma NextModulo(x: nat, m: nat)
    requires m > 1
    ensures (x + 1) % m == if x % m == m - 1 then 0 else x % m + 1
  {
    var q, r := x / m, x % m;
    if r == m - 1 {
      assert x + 1 == (q + 1) * m + 0;
      DivMod(x + 1, m, q + 1, 0);
    } else {
      DivMod(x + 1, m, q, r + 1);
    }
  }

  /** Counting one more reader in the high bits leaves the writer bits alone. */
  lemma ReaderCounted(count: nat, bits: nat)
    requires bits < 4
    ensures Add32(RINC * (count % READERS) + bits, RINC) == RINC * ((count + 1) % READERS) + bits
  {
    NextModulo(count, READERS);
    var x := RINC * (count % READERS) + bits + RINC;
    if count % READERS == READERS - 1 {
      DivMod(x, WORD, 1, bits);
    } else {
      DivMod(x, WORD, 0, x);
    }
  }

  // ----------------------------------------------------- every step keeps it

  /** A step that changes the thread's state but not who counts as an earlier reader. */
  lemma EarlierSame(s: State, s': State, before: nat)
    requires |s'.thr| == |s.thr|
    requires forall u :: 0 <= u < |s.thr| ==>
               (IsReader(s'.thr[u]) && s'.thr[u].idx < before <==> IsReader(s.thr[u]) && s.thr[u].idx < before)
    ensures Earlier(s', before) == Earlier(s, before)
  {
  }

  lemma ReadLockCounts(s: State, t: nat)
    requires Inv(s) && Enabled(s, ReadLock(t))
    ensures var s' := Apply(s, ReadLock(t));
            && |Earlier(s', s'.entered)| == s'.entered - s'.exited
            && (s.phase.Announced? ==> Earlier(s', s.phase.before) == Earlier(s, s.phase.before))
  {
    var s' := Apply(s, ReadLock(t));
    forall u: nat | u < |s.thr| && IsReader(s.thr[u])
      ensures s.thr[u].idx < s.entered
    {
      assert ReaderInv(s, s.thr[u]);
    }
    assert Earlier(s', s'.entered) == Earlier(s, s.entered) + {t};
    if s.phase.Announced? {
      EarlierSame(s, s', s.phase.before);
    }
  }

  /** The low bits of rin are the announced phase. */
  lemma WriterBitsAre(s: State)
    requires Counters(s)
    ensures WriterBits(s.rin) == AnnouncedBits(s)
  {
    DivMod(s.rin, 4, 0x40 * (s.entered % READERS), AnnouncedBits(s));
  }

  lemma ReadLockOther(s: State, t: nat, u: nat)
    requires Inv(s) && Enabled(s, ReadLock(t)) && u < |s.thr|
    ensures var s' := Apply(s, ReadLock(t)); ReaderInv(s', s'.thr[u]) && WriterInv(s', u, s'.thr[u])
  {
    WriterBitsAre(s);
    assert ReaderInv(s, s.thr[u]) && WriterInv(s, u, s.thr[u]);
  }

  lemma ReadLockKeeps(s: State, t: nat)
    requires Inv(s) && Enabled(s, ReadLock(t)) && Within(s, ReadLock(t), READERS - 1, WORD)
    ensures Inv(Apply(s, ReadLock(t)))
  {
    var s' := Apply(s, ReadLock(t));
    ReaderCounted(s.entered, AnnouncedBits(s));
    ReadLockCounts(s, t);
    forall u: nat | u < |s.thr|
      ensures ReaderInv(s', s'.thr[u]) && WriterInv(s', u, s'.thr[u])
    {
      ReadLockOther(s, t, u);
    }
  }

  lemma WriteLockKeeps(s: State, t: nat)
    requires Inv(s) && Enabled(s, WriteLock(t)) && Within(s, WriteLock(t), READERS - 1, WORD)
    ensures Inv(Apply(s, WriteLock(t)))
  {
    var s' := Apply(s, WriteLock(t));
    NextModulo(s.arrived, WORD);
    assert s'.win == s'.arrived % WORD by {
      if s.win == WORD - 1 {
        DivMod(s.win + 1, WORD, 1, 0);
      } else {
        DivMod(s.win + 1, WORD, 0, s.win + 1);
      }
    }
    EarlierSame(s, s', s.entered);
    if s.phase.Announced? {
      EarlierSame(s, s', s.phase.before);
    }
    forall u: nat | u < |s.thr|
      ensures ReaderInv(s', s'.thr[u]) && WriterInv(s', u, s'.thr[u])
    {
      assert ReaderInv(s, s.thr[u]) && WriterInv(s, u, s.thr[u]);
    }
  }

  lemma ReadUnlockKeeps(s: State, t: nat)
    requires Inv(s) && t < |s.thr| && s.thr[t].ReadHeld?
    ensures Inv(Apply(s, Unlock(t)))
  {
    var s' := Apply(s, Unlock(t));
    assert ReaderInv(s, s.thr[t]);
    assert t in Earlier(s, s.entered);
    assert Earlier(s', s.entered) == Earlier(s, s.entered) - {t};
    ReaderCounted(s.exited, 0);
    if s.phase.Announced? {
      assert t in Earlier(s, s.phase.before);
      assert Earlier(s', s.phase.before) == Earlier(s, s.phase.before) - {t};
    }
    forall u: nat | u < |s.thr|
      ensures ReaderInv(s', s'.thr[u]) && WriterInv(s', u, s'.thr[u])
    {
      assert ReaderInv(s, s.thr[u]) && WriterInv(s, u, s.thr[u]);
    }
  }

  /** A holder has seen every earlier reader leave. */
  lemma HolderIsAlone(s: State, t: nat)
    requires Inv(s) && t < |s.thr| && s.thr[t].WriteHeld?
    ensures forall u: nat :: u < |s.thr| && IsReader(s.thr[u]) ==>
      s.thr[u].ReaderWait? && s.thr[u].phase == s.thr[t].turn
  {
    assert WriterInv(s, t, s.thr[t]);
    assert Earlier(s, s.phase.before) == {};
    forall u: nat | u < |s.thr| && IsReader(s.thr[u])
      ensures s.thr[u].ReaderWait? && s.thr[u].phase == s.thr[t].turn
    {
      assert u !in Earlier(s, s.phase.before);
      assert ReaderInv(s, s.thr[u]);
    }
  }

  /** Clearing the low four bits clears the writer bits and no others. */
  lemma WithdrawBits(count: nat, bits: nat)
    requires bits < 4
    ensures (RINC * count + bits) - (RINC * count + bits) % 16 == RINC * count
  {
    DivMod(RINC * count + bits, 16, 16 * count, bits);
  }

  lemma WriteUnlockThread(s: State, t: nat, u: nat)
    requires Inv(s) && t < |s.thr| && s.thr[t].WriteHeld? && u < |s.thr|
    ensures var s' := Apply(s, Unlock(t));
      ReaderInv(s', s'.thr[u]) && WriterInv(s', u, s'.thr[u])
  {
    HolderIsAlone(s, t);
    assert WriterInv(s, t, s.thr[t]);
    assert ReaderInv(s, s.thr[u]) && WriterInv(s, u, s.thr[u]);
  }

  lemma WriteUnlockKeeps(s: State, t: nat)
    requires Inv(s) && t < |s.thr| && s.thr[t].WriteHeld?
    ensures Inv(Apply(s, Unlock(t)))
  {
    var s' := Apply(s, Unlock(t));
    WithdrawBits(s.entered % READERS, AnnouncedBits(s));
    EarlierSame(s, s', s.entered);
    forall u: nat | u < |s.thr|
      ensures ReaderInv(s', s'.thr[u]) && WriterInv(s', u, s'.thr[u])
    {
      WriteUnlockThread(s, t, u);
    }
  }

  lemma ReaderPassesKeeps(s: State, t: nat)
    requires Inv(s) && Enabled(s, Run(t)) && s.thr[t].ReaderWait?
    ensures Inv(Apply(s, Run(t)))
  {
    var s' := Apply(s, Run(t));
    WriterBitsAre(s);
    EarlierSame(s, s', s.entered);
    if s.phase.Announced? {
      EarlierSame(s, s', s.phase.before);
    }
    forall u: nat | u < |s.thr|
      ensures ReaderInv(s', s'.thr[u]) && WriterInv(s', u, s'.thr[u])
    {
      assert ReaderInv(s, s.thr[u]) && WriterInv(s, u, s.thr[u]);
    }
  }

  lemma OwnerHasTurn(s: State)
    requires Inv(s)
    ensures !s.phase.NotYet? ==>
              s.phase.owner < |s.thr| && IsWriter(s.thr[s.phase.owner]) && s.thr[s.phase.owner].turn == s.left
  {
  }

  /** Seeing its ticket in wout, a writer is the next in turn and no phase is under way. */
  lemma TurnKeeps(s: State, t: nat)
    requires Inv(s) && Enabled(s, Run(t)) && s.thr[t].WriterQueued?
    ensures Inv(Apply(s, Run(t)))
  {
    var s' := Apply(s, Run(t));
    assert WriterInv(s, t, s.thr[t]);
    SameModulo(s.left, s.thr[t].turn, WORD);
    OwnerHasTurn(s);
    EarlierSame(s, s', s.entered);
    forall u: nat | u < |s.thr|
      ensures ReaderInv(s', s'.thr[u]) && WriterInv(s', u, s'.thr[u])
    {
      assert ReaderInv(s, s.thr[u]) && WriterInv(s, u, s.thr[u]);
    }
  }

  lemma TicketParity(turn: nat)
    ensures turn % WORD % 2 == turn % 2
  {
  }

  lemma AnnounceKeeps(s: State, t: nat)
    requires Inv(s) && t < |s.thr| && s.thr[t].WriterTurn?
    ensures Inv(Apply(s, Run(t)))
  {
    var s' := Apply(s, Run(t));
    assert WriterInv(s, t, s.thr[t]);
    TicketParity(s.left);
    DivMod(s.rin + s.left % 2 + PRES, WORD, 0, s.rin + s.left % 2 + PRES);
    EarlierSame(s, s', s.entered);
    forall u: nat | u < |s.thr|
      ensures ReaderInv(s', s'.thr[u]) && WriterInv(s', u, s'.thr[u])
    {
      assert ReaderInv(s, s.thr[u]) && WriterInv(s, u, s.thr[u]);
      if u != t && IsWriter(s.thr[u]) {
        assert s.thr[u].turn != s.thr[t].turn;
      }
    }
  }

  lemma AcquireKeeps(s: State, t: nat)
    requires Inv(s) && Enabled(s, Run(t)) && s.thr[t].WriterFlush?
    ensures Inv(Apply(s, Run(t)))
  {
    var s' := Apply(s, Run(t));
    assert WriterInv(s, t, s.thr[t]);
    SameModulo(s.exited, s.phase.before, READERS);
    EarlierSame(s, s', s.entered);
    EarlierSame(s, s', s.phase.before);
    forall u: nat | u < |s.thr|
      ensures ReaderInv(s', s'.thr[u]) && WriterInv(s', u, s'.thr[u])
    {
      assert ReaderInv(s, s.thr[u]) && WriterInv(s, u, s.thr[u]);
    }
  }

  lemma LeaveKeeps(s: State, t: nat)
    requires Inv(s) && t < |s.thr| && s.thr[t].WriterLeaving?
    ensures Inv(Apply(s, Run(t)))
  {
    var s' := Apply(s, Run(t));
    assert WriterInv(s, t, s.thr[t]);
    NextModulo(s.left, WORD);
    assert s'.wout == s'.left % WORD by {
      if s.wout == WORD - 1 {
        DivMod(s.wout + 1, WORD, 1, 0);
      } else {
        DivMod(s.wout + 1, WORD, 0, s.wout + 1);
      }
    }
    EarlierSame(s, s', s.entered);
    forall u: nat | u < |s.thr|
      ensures ReaderInv(s', s'.thr[u]) && WriterInv(s', u, s'.thr[u])
    {
      assert ReaderInv(s, s.thr[u]) && WriterInv(s, u, s.thr[u]);
      if u != t && IsWriter(s.thr[u]) {
        assert s.thr[u].turn != s.thr[t].turn;
      }
    }
  }

  lemma StepKeeps(s: State, step: Step)
    requires Inv(s) && Enabled(s, step) && Within(s, step, READERS - 1, WORD)
    ensures Inv(Apply(s, step))
  {
    match step
    case ReadLock(t) => ReadLockKeeps(s, t);
    case WriteLock(t) => WriteLockKeeps(s, t);
    case Unlock(t) =>
      if s.thr[t].ReadHeld? {
        ReadUnlockKeeps(s, t);
      } else {
        WriteUnlockKeeps(s, t);
      }
    case Run(t) =>
      match s.thr[t]
      case ReaderWait(_, _, _) => ReaderPassesKeeps(s, t);
      case WriterQueued(_, _) => TurnKeeps(s, t);
      case WriterTurn(_, _) => AnnounceKeeps(s, t);
      case WriterFlush(_, _) => AcquireKeeps(s, t);
      case WriterLeaving(_) => LeaveKeeps(s, t);
  }

  lemma {:induction false} RunInv(states: seq<State>, steps: seq<Step>, readers: nat, writers: nat, k: nat)
    requires IsRun(states, steps, readers, writers) && readers < READERS && writers <= WORD && k < |states|
    ensures Inv(states[k])
  {
    if k == 0 {
      assert Earlier(states[0], 0) == {};
    } else {
      RunInv(states, steps, readers, writers, k - 1);
      StepKeeps(states[k - 1], steps[k - 1]);
    }
  }

  // ------------------------------------------------------------------ theorems

  predicate Holds(pc: Pc) { pc.ReadHeld? || pc.WriteHeld? }

  /** A writer never holds the lock together with any other holder. */
  lemma WritersExclude(states: seq<State>, steps: seq<Step>, readers: nat, writers: nat, k: nat, t: nat, u: nat)
    requires IsRun(states, steps, readers, writers) && readers < READERS && writers <= WORD
    requires k < |states| && t < |states[k].thr| && u < |states[k].thr| && t != u
    requires states[k].thr[t].WriteHeld?
    ensures !Holds(states[k].thr[u])
  {
    RunInv(states, steps, readers, writers, k);
    var s := states[k];
    HolderIsAlone(s, t);
    assert WriterInv(s, t, s.thr[t]) && WriterInv(s, u, s.thr[u]);
  }

  /** While a reader that one write phase blocked is still waiting, no writer of another phase holds the lock. */
  lemma BlockedReaderGoesFirst(states: seq<State>, steps: seq<Step>, readers: nat, writers: nat, k: nat, reader: nat,
      writer: nat)
    requires IsRun(states, steps, readers, writers) && readers < READERS && writers <= WORD
    requires k < |states| && reader < |states[k].thr| && writer < |states[k].thr|
    requires states[k].thr[reader].ReaderWait? && states[k].thr[writer].WriteHeld?
    ensures states[k].thr[writer].turn == states[k].thr[reader].phase
  {
    RunInv(states, steps, readers, writers, k);
    HolderIsAlone(states[k], writer);
  }

  /** Once the phase that blocked it is withdrawn, a reader can pass, even if the next writer has announced itself. */
  lemma BlockedReaderReleased(states: seq<State>, steps: seq<Step>, readers: nat, writers: nat, k: nat, reader: nat)
    requires IsRun(states, steps, readers, writers) && readers < READERS && writers <= WORD
    requires k < |states| && reader < |states[k].thr| && states[k].thr[reader].ReaderWait?
    ensures Enabled(states[k], Run(reader)) <==>
            states[k].thr[reader].phase < states[k].left || states[k].phase.Withdrawn?
  {
    RunInv(states, steps, readers, writers, k);
    WriterBitsAre(states[k]);
    assert ReaderInv(states[k], states[k].thr[reader]);
  }
}
