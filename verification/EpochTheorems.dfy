/**
What the epoch invariant means for whole runs: sections trail the global epoch
by at most one, synchronize and barrier wait for every section open when they
started, and a deferred callback runs at most once and only after every section
open at its deferral has ended. Sections and deferrals are told apart by the
history fields `sec` and `called`.
*/
module EpochTheorems {
  import opened Epoch
  import opened EpochSafety

  // ------------------------------------------------------------ grace periods

  /** In every reachable state an open section is at the global epoch or one behind. */
  lemma SectionsTrailByOne(states: seq<State>, steps: seq<Step>, k: nat, i: nat)
    requires IsRun(states, steps, false) && k < |states| && i < |states[k].recs| && InSection(states[k].recs[i])
    ensures SectionEpoch(states[k].recs[i]) == states[k].global
         || SectionEpoch(states[k].recs[i]) + 1 == states[k].global
  {
    RunInv(states, steps, k);
  }

  /** A synchronize, barrier or poll that has not yet made its final store. */
  predicate Waiting(pc: Pc) {
    pc.ScanStart? || pc.Scan? || pc.Blocked? || pc.Cas? || pc.Exit?
  }

  lemma {:induction false} SnapshotKept(states: seq<State>, steps: seq<Step>, i: nat, k: nat, t: nat, kind: Kind)
    requires IsRun(states, steps, false) && i < k < |states| && steps[i] == Invoke(t, Start(kind))
    requires forall m :: i < m <= k ==> t < |states[m].recs| && Waiting(states[m].recs[t].pc)
    ensures Waiting(states[k].recs[t].pc)
    ensures states[k].recs[t].pc.w.kind == kind && states[k].recs[t].pc.w.open == OpenSections(states[i])
  {
    assert Enabled(states[k - 1], steps[k - 1]) && states[k] == Apply(states[k - 1], steps[k - 1]);
    if k > i + 1 {
      SnapshotKept(states, steps, i, k - 1, t, kind);
      assert Waiting(states[k - 1].recs[t].pc) && Waiting(states[k].recs[t].pc);
    }
  }

  /** When synchronize or barrier, called at step i outside a section, has made its
      final store at step j - 1, every section open at the call has ended. */
  lemma SynchronizeWaits(states: seq<State>, steps: seq<Step>, i: nat, j: nat, t: nat, kind: Kind, x: Section)
    requires IsRun(states, steps, false) && i + 1 < j < |states|
    requires steps[i] == Invoke(t, Start(kind)) && kind != Poll
    requires forall m :: i < m < j ==> t < |states[m].recs| && Waiting(states[m].recs[t].pc)
    requires t < |states[j].recs| && !Waiting(states[j].recs[t].pc)
    requires Open(states[i], x)
    ensures !Open(states[j], x)
  {
    SnapshotKept(states, steps, i, j - 1, t, kind);
    RunInv(states, steps, i);
    RunInv(states, steps, j);
    SnapshotBounded(states[i]);
    assert states[j] == Apply(states[j - 1], steps[j - 1]);
    assert Waiting(states[j - 1].recs[t].pc);
    assert RecInv(states[j], states[j].recs[t]);
  }

  // ------------------------------------------------------- the ledger of callbacks

  function Batch(r: Rec): seq<Entry> {
    if r.pc.Dispatch? then r.pc.batch else []
  }

  function Counted(r: Rec): nat {
    if r.pc.Dispatch? then r.pc.ran else 0
  }

  /** How often an entry occurs in the four pending lists together. */
  function Pending(lists: seq<seq<Entry>>, x: Entry): nat
    requires |lists| == LENGTH
  {
    multiset(lists[0])[x] + multiset(lists[1])[x] + multiset(lists[2])[x] + multiset(lists[3])[x]
  }

  function PendingTotal(lists: seq<seq<Entry>>): nat
    requires |lists| == LENGTH
  {
    |lists[0]| + |lists[1]| + |lists[2]| + |lists[3]|
  }

  function Everywhere(r: Rec, x: Entry): nat
    requires |r.pending| == LENGTH
  {
    Pending(r.pending, x) + multiset(Batch(r))[x] + multiset(r.log)[x]
  }

  /** Every callback deferred so far is pending, about to run, or has run: exactly one of them. */
  ghost predicate Ledger(r: Rec) {
    && |r.pending| == LENGTH
    && (forall x :: Everywhere(r, x) == multiset(r.called)[x])
    && (forall m :: 0 <= m < |r.called| ==> r.called[m].id == m)
    && PendingTotal(r.pending) + |Batch(r)| + |r.log| == |r.called|
    && r.nPending == PendingTotal(r.pending) + |Batch(r)| + Counted(r)
    && r.nDispatch + Counted(r) == |r.log|
  }

  lemma ReplaceTotal(lists: seq<seq<Entry>>, l: nat, q: seq<Entry>)
    requires |lists| == LENGTH && l < LENGTH
    ensures PendingTotal(lists[l := q]) + |lists[l]| == PendingTotal(lists) + |q|
  {
  }

  lemma ReplaceList(lists: seq<seq<Entry>>, l: nat, q: seq<Entry>, x: Entry)
    requires |lists| == LENGTH && l < LENGTH
    ensures Pending(lists[l := q], x) + multiset(lists[l])[x] == Pending(lists, x) + multiset(q)[x]
  {
  }

  lemma DispatchEntry(r: Rec, x: Entry)
    requires |r.pending| == LENGTH && r.pc.Dispatch? && forall i :: 0 <= i < |r.pc.lists| ==> r.pc.lists[i] < LENGTH
    ensures |Dispatched(r).pending| == LENGTH && Everywhere(Dispatched(r), x) == Everywhere(r, x)
  {
    var Dispatch(w, lists, batch, ran) := r.pc;
    if batch != [] {
      assert batch == [batch[0]] + batch[1..];
      assert multiset(r.log + [batch[0]])[x] == multiset(r.log)[x] + multiset([batch[0]])[x];
    } else if lists != [] {
      ReplaceList(r.pending, lists[0], [], x);
    }
  }

  lemma DispatchLedger(r: Rec)
    requires Ledger(r) && r.pc.Dispatch? && forall i :: 0 <= i < |r.pc.lists| ==> r.pc.lists[i] < LENGTH
    ensures Ledger(Dispatched(r))
  {
    var r' := Dispatched(r);
    forall x
      ensures Everywhere(r', x) == multiset(r'.called)[x]
    {
      DispatchEntry(r, x);
      assert Everywhere(r, x) == multiset(r.called)[x];
    }
    if r.pc.batch == [] && r.pc.lists != [] {
      ReplaceTotal(r.pending, r.pc.lists[0], []);
    }
  }

  lemma CallEntry(r: Rec, l: nat, y: Entry, x: Entry)
    requires |r.pending| == LENGTH && l < LENGTH
    ensures Pending(r.pending[l := [y] + r.pending[l]], x) == Pending(r.pending, x) + multiset([y])[x]
    ensures multiset(r.called + [y])[x] == multiset(r.called)[x] + multiset([y])[x]
  {
    ReplaceList(r.pending, l, [y] + r.pending[l], x);
    assert multiset([y] + r.pending[l])[x] == multiset([y])[x] + multiset(r.pending[l])[x];
  }

  lemma CallLedger(s: State, t: nat)
    requires CanRun(s, t) && s.recs[t].pc.Calling? && Ledger(s.recs[t])
    ensures Ledger(Ran(s, t))
  {
    var r, r' := s.recs[t], Ran(s, t);
    var y := Entry(|r.called|, r.pc.e, r.pc.snap);
    var l := r.pc.e % LENGTH;
    forall x
      ensures Everywhere(r', x) == multiset(r'.called)[x]
    {
      assert Everywhere(r, x) == multiset(r.called)[x];
      CallEntry(r, l, y, x);
    }
    ReplaceTotal(r.pending, l, [y] + r.pending[l]);
  }

  lemma OtherLedger(s: State, t: nat)
    requires CanRun(s, t) && !s.recs[t].pc.Calling? && !s.recs[t].pc.Dispatch? && Ledger(s.recs[t])
    ensures Ledger(Ran(s, t))
  {
    var r, r' := s.recs[t], Ran(s, t);
    assert r'.pending == r.pending && r'.called == r.called && r'.log == r.log && Batch(r') == Batch(r) == [];
    forall x
      ensures Everywhere(r', x) == multiset(r'.called)[x]
    {
      assert Everywhere(r, x) == multiset(r.called)[x];
    }
  }

  lemma InvokeLedger(s: State, t: nat, op: Op)
    requires CanInvoke(s, t, op) && Ledger(s.recs[t])
    ensures Ledger(Invoked(s, t, op))
  {
  }

  lemma LedgerStep(s: State, step: Step, i: nat)
    requires Enabled(s, step) && forall i :: 0 <= i < |s.recs| ==> Ledger(s.recs[i])
    requires i < |Apply(s, step).recs|
    ensures Ledger(Apply(s, step).recs[i])
  {
    match step
    case Register =>
    case Invoke(t, op) =>
      InvokeLedger(s, t, op);
    case Run(t) =>
      if s.recs[t].pc.Dispatch? {
        DispatchLedger(s.recs[t]);
      } else if s.recs[t].pc.Calling? {
        CallLedger(s, t);
      } else {
        OtherLedger(s, t);
      }
  }

  lemma {:induction false} LedgerInv(states: seq<State>, steps: seq<Step>, lenient: bool, k: nat)
    requires IsRun(states, steps, lenient) && k < |states|
    ensures forall i :: 0 <= i < |states[k].recs| ==> Ledger(states[k].recs[i])
  {
    if k > 0 {
      LedgerInv(states, steps, lenient, k - 1);
      forall i | 0 <= i < |states[k].recs|
        ensures Ledger(states[k].recs[i])
      {
        LedgerStep(states[k - 1], steps[k - 1], i);
      }
    }
  }

  lemma Multiplicity(s: seq<Entry>, i: nat, j: nat)
    requires i < j < |s| && s[i] == s[j]
    ensures multiset(s)[s[i]] >= 2
  {
    assert s == s[..i] + [s[i]] + s[i + 1..j] + [s[j]] + s[j + 1..];
  }

  lemma {:induction false} Distinct(called: seq<Entry>, x: Entry)
    requires forall m :: 0 <= m < |called| ==> called[m].id == m
    ensures multiset(called)[x] <= 1
  {
    if called != [] {
      var n := |called| - 1;
      assert called == called[..n] + [called[n]];
      Distinct(called[..n], x);
      if x in multiset(called[..n]) {
        assert x in called[..n];
      }
    }
  }

  /** No callback runs twice, whatever the callers' discipline. */
  lemma CallbacksRunAtMostOnce(states: seq<State>, steps: seq<Step>, lenient: bool, k: nat, t: nat, i: nat, j: nat)
    requires IsRun(states, steps, lenient) && k < |states| && t < |states[k].recs|
    requires i < j < |states[k].recs[t].log|
    ensures states[k].recs[t].log[i].id != states[k].recs[t].log[j].id
  {
    LedgerInv(states, steps, lenient, k);
    var r := states[k].recs[t];
    assert Ledger(r);
    forall m | 0 <= m < |r.log|
      ensures r.log[m] in r.called
    {
      assert Everywhere(r, r.log[m]) > 0;
    }
    Distinct(r.called, r.log[i]);
    assert Everywhere(r, r.log[i]) <= 1;
    if r.log[i] == r.log[j] {
      Multiplicity(r.log, i, j);
    }
  }

  /** A thread between calls has its statistics right: what was deferred and has
      not run is exactly what is pending. */
  lemma NothingIsLost(states: seq<State>, steps: seq<Step>, lenient: bool, k: nat, t: nat)
    requires IsRun(states, steps, lenient) && k < |states| && t < |states[k].recs|
    requires states[k].recs[t].pc.Idle?
    ensures var r := states[k].recs[t];
            |r.pending| == LENGTH && r.nDispatch == |r.log| && r.nPending == |r.called| - |r.log|
            && r.nPending == PendingTotal(r.pending)
  {
    LedgerInv(states, steps, lenient, k);
    var r := states[k].recs[t];
    assert Ledger(r);
  }

  // ------------------------------------------------------- callbacks are safe

  /** Where a deferral took place: the call that loaded the epoch for entry `id`. */
  ghost predicate DeferredAt(states: seq<State>, steps: seq<Step>, t: nat, id: nat, i: nat)
    requires |states| == |steps| + 1
  {
    i < |steps| && steps[i] == Invoke(t, Call) && t < |states[i].recs| && |states[i].recs[t].called| == id
  }

  /** One step either leaves a record's entries alone, or pushes the one being deferred. */
  lemma CalledStep(s: State, step: Step, t: nat)
    requires Enabled(s, step) && t < |Apply(s, step).recs|
    ensures var r' := Apply(s, step).recs[t];
            if t == |s.recs| then r' == FreshRec()
            else t < |s.recs| && var r := s.recs[t];
                 || r'.called == r.called
                 || (r.pc.Calling? && r'.called == r.called + [Entry(|r.called|, r.pc.e, r.pc.snap)])
  {
  }

  /** A record is in the middle of ck_epoch_call only right after it started it. */
  lemma CallingStep(s: State, step: Step, t: nat)
    requires Enabled(s, step) && t < |Apply(s, step).recs| && Apply(s, step).recs[t].pc.Calling?
    ensures t < |s.recs| && Apply(s, step).recs[t].called == s.recs[t].called
    ensures if step == Invoke(t, Call) then Apply(s, step).recs[t].pc.snap == OpenSections(s)
            else Apply(s, step).recs[t].pc == s.recs[t].pc
  {
  }

  lemma {:induction false} CallOrigin(states: seq<State>, steps: seq<Step>, k: nat, t: nat) returns (i: nat)
    requires IsRun(states, steps, false) && k < |states| && t < |states[k].recs| && states[k].recs[t].pc.Calling?
    ensures i < k && DeferredAt(states, steps, t, |states[k].recs[t].called|, i)
    ensures states[k].recs[t].pc.snap == OpenSections(states[i])
  {
    assert k > 0;
    assert Enabled(states[k - 1], steps[k - 1]) && states[k] == Apply(states[k - 1], steps[k - 1]);
    CallingStep(states[k - 1], steps[k - 1], t);
    if steps[k - 1] == Invoke(t, Call) {
      i := k - 1;
    } else {
      i := CallOrigin(states, steps, k - 1, t);
    }
  }

  lemma {:induction false} EntryOrigin(states: seq<State>, steps: seq<Step>, k: nat, t: nat, m: nat) returns (i: nat)
    requires IsRun(states, steps, false) && k < |states| && t < |states[k].recs| && m < |states[k].recs[t].called|
    ensures i < k && DeferredAt(states, steps, t, m, i)
    ensures states[k].recs[t].called[m].open == OpenSections(states[i])
  {
    assert k > 0;
    assert Enabled(states[k - 1], steps[k - 1]) && states[k] == Apply(states[k - 1], steps[k - 1]);
    CalledStep(states[k - 1], steps[k - 1], t);
    if m < |states[k - 1].recs[t].called| {
      i := EntryOrigin(states, steps, k - 1, t, m);
    } else {
      i := CallOrigin(states, steps, k - 1, t);
    }
  }

  /** When poll or barrier runs a callback, every section open when it was deferred has ended. */
  lemma CallbacksWait(states: seq<State>, steps: seq<Step>, k: nat, t: nat) returns (i: nat)
    requires IsRun(states, steps, false) && k < |steps| && steps[k] == Run(t)
    requires states[k].recs[t].pc.Dispatch? && states[k].recs[t].pc.batch != []
    ensures i < k && DeferredAt(states, steps, t, states[k].recs[t].pc.batch[0].id, i)
    ensures forall x :: Open(states[i], x) ==> !Open(states[k], x)
  {
    RunInv(states, steps, k);
    LedgerInv(states, steps, false, k);
    var r := states[k].recs[t];
    assert RecInv(states[k], r) && Ledger(r);
    var x := r.pc.batch[0];
    assert Everywhere(r, x) > 0;
    i := EntryOrigin(states, steps, k, t, x.id);
    RunInv(states, steps, i);
    SnapshotBounded(states[i]);
    assert EntryEnded(states[k], x);
  }
}
