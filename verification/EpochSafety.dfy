/**
The inductive invariant behind the safety comment of ck_epoch.c, kept by every
step of a run in which polls are made outside read sections.
*/
module EpochSafety {
  import opened Epoch

  // ------------------------------------------------------ facts about sections

  /** Every section of `open` that is still open observed epoch `e` or older. */
  ghost predicate Bounded(s: State, open: set<Section>, e: nat) {
    forall x <- open ::
      x.rec < |s.recs| && x.n <= s.recs[x.rec].sec && (Open(s, x) ==> SectionEpoch(s.recs[x.rec]) <= e)
  }

  /** Every section of `open` on a record above index `above` has ended. */
  ghost predicate Ended(s: State, open: set<Section>, above: int) {
    forall x <- open :: x.rec > above ==> !Open(s, x)
  }

  /** Every open section above index `above` observed exactly `delta`. */
  ghost predicate Settled(s: State, delta: nat, above: int) {
    forall i :: 0 <= i < |s.recs| && i > above && InSection(s.recs[i]) ==> SectionEpoch(s.recs[i]) == delta
  }

  /** Summary point 1 of the design comment: sections are at e_g or e_g - 1. */
  ghost predicate Near(s: State) {
    forall i :: 0 <= i < |s.recs| && InSection(s.recs[i]) ==>
      SectionEpoch(s.recs[i]) <= s.global <= SectionEpoch(s.recs[i]) + 1
  }

  // ----------------------------------------------------------------- invariant

  ghost predicate EntryInv(s: State, x: Entry) {
    x.born <= s.global && Bounded(s, x.open, x.born)
  }

  ghost predicate ListsInv(s: State, r: Rec) {
    && |r.pending| == LENGTH
    && forall l, k :: 0 <= l < LENGTH && 0 <= k < |r.pending[l]| ==>
         r.pending[l][k].born % LENGTH == l && EntryInv(s, r.pending[l][k])
  }

  /** What a running synchronize, barrier or poll knows of its own snapshot. */
  ghost predicate WorkInv(s: State, r: Rec, w: Work) {
    && r.active == 0
    && w.i < GRACE - 1
    && (w.kind == Poll ==> w.i == 0)
    && w.e0 <= s.global
    && Bounded(s, w.open, w.e0)
    && forall l, k :: 0 <= l < |r.pending| && 0 <= k < |r.pending[l]| ==>
         r.pending[l][k].born <= w.e0 && forall y <- r.pending[l][k].open :: Open(s, y) ==> y in w.open
  }

  ghost predicate RoundInv(s: State, r: Rec, w: Work, delta: nat) {
    && WorkInv(s, r, w)
    && w.e0 + w.i <= delta <= s.global
    && (w.kind == Poll ==> delta == w.e0)
  }

  /** A scan at `delta` that has passed every record above `cursor`. */
  ghost predicate ScanInv(s: State, r: Rec, w: Work, delta: nat, cursor: int, af: bool) {
    && RoundInv(s, r, w, delta)
    && -1 <= cursor < |s.recs|
    && (!af ==> Ended(s, w.open, cursor))
    && (delta == s.global ==> Settled(s, delta, cursor))
  }

  ghost predicate EntryEnded(s: State, x: Entry) {
    Ended(s, x.open, -1)
  }

  ghost predicate ListsEnded(s: State, r: Rec, lists: seq<nat>) {
    forall i, k :: 0 <= i < |lists| && lists[i] < |r.pending| && 0 <= k < |r.pending[lists[i]]| ==>
      EntryEnded(s, r.pending[lists[i]][k])
  }

  ghost predicate DoneInv(s: State, r: Rec, w: Work, lists: seq<nat>) {
    && r.active == 0
    && (forall i :: 0 <= i < |lists| ==> lists[i] < LENGTH)
    && Bounded(s, w.open, w.e0)
    && (w.kind != Poll ==> Ended(s, w.open, -1))
    && ListsEnded(s, r, lists)
  }

  ghost predicate PcInv(s: State, r: Rec) {
    match r.pc
    case Idle => true
    case BeginActive => r.active == 1
    case BeginLoaded(g) => r.active == 1 && r.epoch <= g
    case Calling(e, snap) => e <= s.global && Bounded(s, snap, e)
    case ScanStart(w, delta) => RoundInv(s, r, w, delta)
    case Scan(w, delta, cursor, af, sawActive) =>
      ScanInv(s, r, w, delta, cursor, af) && (sawActive ==> af && cursor >= 0)
    case Blocked(w, delta, cursor) => ScanInv(s, r, w, delta, cursor, true) && cursor >= 0
    case Cas(w, delta) => ScanInv(s, r, w, delta, -1, true)
    case Exit(w, v, lists) => v <= s.global && DoneInv(s, r, w, lists)
    case Dispatch(w, lists, batch, ran) =>
      DoneInv(s, r, w, lists) && forall k :: 0 <= k < |batch| ==> EntryInv(s, batch[k]) && EntryEnded(s, batch[k])
  }

  ghost predicate RecInv(s: State, r: Rec) {
    && r.epoch <= s.global
    && ListsInv(s, r)
    && PcInv(s, r)
  }

  ghost predicate Inv(s: State) {
    && Near(s)
    && forall i :: 0 <= i < |s.recs| ==> RecInv(s, s.recs[i])
  }

  // ----------------------------------------------- what a step may do to others

  /** Sections only end, or begin anew at the current epoch. */
  ghost predicate Evolves(s: State, s': State) {
    && |s.recs| <= |s'.recs|
    && s.global <= s'.global
    && (forall i :: 0 <= i < |s.recs| ==> SecEvolves(s.recs[i], s'.recs[i], s.global, s'.global))
    && forall i :: |s.recs| <= i < |s'.recs| ==> !InSection(s'.recs[i])
  }

  ghost predicate SecEvolves(r: Rec, r': Rec, global: nat, global': nat) {
    && r.sec <= r'.sec
    && (InSection(r') ==>
          if r'.sec == r.sec then InSection(r) && SectionEpoch(r') == SectionEpoch(r)
          else SectionEpoch(r') == global == global')
  }

  lemma BoundedEvolves(s: State, s': State, open: set<Section>, e: nat)
    requires Evolves(s, s') && Bounded(s, open, e)
    ensures Bounded(s', open, e)
  {
  }

  lemma EndedEvolves(s: State, s': State, open: set<Section>, e: nat, above: int)
    requires Evolves(s, s') && Bounded(s, open, e) && Ended(s, open, above)
    ensures Ended(s', open, above)
  {
  }

  lemma ListsEvolve(s: State, s': State, r: Rec)
    requires Evolves(s, s') && ListsInv(s, r)
    ensures ListsInv(s', r)
  {
  }

  lemma WorkEvolves(s: State, s': State, r: Rec, w: Work)
    requires Evolves(s, s') && ListsInv(s, r) && WorkInv(s, r, w)
    ensures WorkInv(s', r, w)
  {
  }

  lemma ScanEvolves(s: State, s': State, r: Rec, w: Work, delta: nat, cursor: int, af: bool)
    requires Evolves(s, s') && ListsInv(s, r) && ScanInv(s, r, w, delta, cursor, af)
    ensures ScanInv(s', r, w, delta, cursor, af)
  {
  }

  lemma DoneEvolves(s: State, s': State, r: Rec, w: Work, lists: seq<nat>)
    requires Evolves(s, s') && ListsInv(s, r) && DoneInv(s, r, w, lists)
    ensures DoneInv(s', r, w, lists)
  {
  }

  lemma PcEvolves(s: State, s': State, r: Rec)
    requires Evolves(s, s') && ListsInv(s, r) && PcInv(s, r)
    ensures PcInv(s', r)
  {
    match r.pc
    case Idle =>
    case BeginActive =>
    case BeginLoaded(g) =>
    case Calling(e, snap) => BoundedEvolves(s, s', snap, e);
    case ScanStart(w, delta) => WorkEvolves(s, s', r, w);
    case Scan(w, delta, cursor, af, sawActive) => ScanEvolves(s, s', r, w, delta, cursor, af);
    case Blocked(w, delta, cursor) => ScanEvolves(s, s', r, w, delta, cursor, true);
    case Cas(w, delta) => ScanEvolves(s, s', r, w, delta, -1, true);
    case Exit(w, v, lists) => DoneEvolves(s, s', r, w, lists);
    case Dispatch(w, lists, batch, ran) =>
      DoneEvolves(s, s', r, w, lists);
      forall k | 0 <= k < |batch|
        ensures EntryInv(s', batch[k]) && EntryEnded(s', batch[k])
      {
        BoundedEvolves(s, s', batch[k].open, batch[k].born);
        EndedEvolves(s, s', batch[k].open, batch[k].born, -1);
      }
  }

  /** Records that do not move keep their invariant whatever another one does. */
  lemma RecEvolves(s: State, s': State, r: Rec)
    requires Evolves(s, s') && RecInv(s, r)
    ensures RecInv(s', r)
  {
    ListsEvolve(s, s', r);
    PcEvolves(s, s', r);
  }

  /** It is enough to look at the record that moved. */
  lemma InvAfter(s: State, s': State, t: nat)
    requires Inv(s) && t < |s.recs| == |s'.recs| && s'.recs == s.recs[t := s'.recs[t]]
    requires Evolves(s, s') && Near(s') && RecInv(s', s'.recs[t])
    ensures Inv(s')
  {
    forall i | 0 <= i < |s'.recs|
      ensures RecInv(s', s'.recs[i])
    {
      if i != t {
        RecEvolves(s, s', s.recs[i]);
      }
    }
  }

  /** Two ticks after a snapshot, every section it saw has ended. */
  lemma TwoTicks(s: State, open: set<Section>, e: nat)
    requires Near(s) && Bounded(s, open, e) && s.global >= e + 2
    ensures Ended(s, open, -1)
  {
  }

  /** A snapshot of the open sections is bounded by the current epoch. */
  lemma SnapshotBounded(s: State)
    requires Near(s)
    ensures Bounded(s, OpenSections(s), s.global)
    ensures forall x :: Open(s, x) <==> x in OpenSections(s)
  {
  }

  // --------------------------------------------------------- every step keeps it

  lemma RegisterKeeps(s: State)
    requires Inv(s)
    ensures Inv(Apply(s, Register))
  {
    var s' := Apply(s, Register);
    forall i | 0 <= i < |s'.recs|
      ensures RecInv(s', s'.recs[i])
    {
      if i < |s.recs| {
        RecEvolves(s, s', s.recs[i]);
      }
    }
  }

  lemma InvokeKeeps(s: State, t: nat, op: Op)
    requires Inv(s) && !s.lenient && CanInvoke(s, t, op)
    ensures Inv(Apply(s, Invoke(t, op)))
  {
    var s' := Apply(s, Invoke(t, op));
    var r := s.recs[t];
    assert Evolves(s, s');
    assert RecInv(s, r);
    ListsEvolve(s, s', r);
    SnapshotBounded(s);
    if op.Call? || op.Start? {
      BoundedEvolves(s, s', OpenSections(s), s.global);
    }
    if op.Start? {
      WorkStarts(s, s', r, Work(op.kind, s.global, 0, OpenSections(s)));
    }
    InvAfter(s, s', t);
  }

  lemma WorkStarts(s: State, s': State, r: Rec, w: Work)
    requires Evolves(s, s') && Near(s) && ListsInv(s, r) && r.active == 0
    requires w == Work(w.kind, s.global, 0, OpenSections(s)) && s'.global == s.global
    ensures WorkInv(s', r, w)
  {
  }

  lemma BeginKeeps(s: State, t: nat)
    requires Inv(s) && CanRun(s, t) && (s.recs[t].pc.BeginActive? || s.recs[t].pc.BeginLoaded?)
    ensures Inv(Apply(s, Run(t)))
  {
    var s' := Apply(s, Run(t));
    assert RecInv(s, s.recs[t]);
    assert Evolves(s, s');
    ListsEvolve(s, s', s.recs[t]);
    InvAfter(s, s', t);
  }

  lemma CallKeeps(s: State, t: nat)
    requires Inv(s) && CanRun(s, t) && s.recs[t].pc.Calling?
    ensures Inv(Apply(s, Run(t)))
  {
    var s' := Apply(s, Run(t));
    var r := s.recs[t];
    assert RecInv(s, r);
    assert Evolves(s, s');
    ListsEvolve(s, s', r);
    BoundedEvolves(s, s', r.pc.snap, r.pc.e);
    InvAfter(s, s', t);
  }

  /** Passing a record: it was seen inactive, or active at the scan's epoch. */
  lemma ScanPasses(s: State, r: Rec, w: Work, delta: nat, cursor: int, af: bool)
    requires Near(s) && (forall i :: 0 <= i < |s.recs| ==> RecInv(s, s.recs[i]))
    requires ScanInv(s, r, w, delta, cursor, af) && cursor >= 0
    requires s.recs[cursor].active == 0 || (af && s.recs[cursor].epoch == delta)
    ensures ScanInv(s, r, w, delta, cursor - 1, af)
  {
  }

  lemma ScanStartKeeps(s: State, t: nat)
    requires Inv(s) && CanRun(s, t) && s.recs[t].pc.ScanStart?
    ensures Inv(Apply(s, Run(t)))
  {
    var s' := Apply(s, Run(t));
    assert RecInv(s, s.recs[t]);
    assert RecInv(s, s'.recs[t]);
    OnlyPcMoved(s, s', t);
  }

  /** A step that changes nothing but its own program counter, outside a section. */
  lemma OnlyPcMoved(s: State, s': State, t: nat)
    requires Inv(s) && t < |s.recs| == |s'.recs| && s'.recs == s.recs[t := s'.recs[t]] && s'.global == s.global
    requires s'.recs[t] == s.recs[t].(pc := s'.recs[t].pc) && RecInv(s, s'.recs[t])
    requires !InSection(s.recs[t]) && !InSection(s'.recs[t])
    ensures Inv(s')
  {
    assert Evolves(s, s');
    RecEvolves(s, s', s'.recs[t]);
    InvAfter(s, s', t);
  }

  lemma ScanKeeps(s: State, t: nat)
    requires Inv(s) && CanRun(s, t) && s.recs[t].pc.Scan?
    ensures Inv(Apply(s, Run(t)))
  {
    var s' := Apply(s, Run(t));
    var r := s.recs[t];
    assert RecInv(s, r);
    ScanPcInv(s, r);
    OnlyPcMoved(s, s', t);
  }

  lemma ScanPcInv(s: State, r: Rec)
    requires Inv(s) && RecInv(s, r) && r.pc.Scan?
    ensures RecInv(s, r.(pc := ScanPc(r.pc, s.recs))) && !ScanPc(r.pc, s.recs).BeginLoaded?
  {
    var Scan(w, delta, cursor, af, sawActive) := r.pc;
    if cursor < 0 {
      if !af {
        InactiveExit(s, r, w, delta);
      }
    } else if s.recs[cursor].active == 0 || (sawActive && s.recs[cursor].epoch == delta) {
      ScanPasses(s, r, w, delta, cursor, af);
    }
  }

  /** All records were seen inactive: the snapshot and everything pending is safe. */
  lemma InactiveExit(s: State, r: Rec, w: Work, delta: nat)
    requires ListsInv(s, r) && ScanInv(s, r, w, delta, -1, false)
    ensures DoneInv(s, r, w, AllLists(w.kind))
  {
  }

  /** A synchronize that has nothing open left may leave. */
  lemma GraceExit(s: State, r: Rec, w: Work)
    requires ListsInv(s, r) && WorkInv(s, r, w) && Ended(s, w.open, -1)
    ensures DoneInv(s, r, w, AllLists(w.kind))
  {
  }

  /** The end of a synchronize iteration at a later epoch than it started from. */
  lemma RoundEnds(s: State, r: Rec, w: Work, delta: nat)
    requires Near(s) && ListsInv(s, r) && WorkInv(s, r, w) && w.kind != Poll
    requires w.e0 + w.i < delta <= s.global
    ensures var pc := NextRound(w, delta);
            if pc.ScanStart? then RoundInv(s, r, pc.w, delta) else pc.Exit? && DoneInv(s, r, w, pc.lists)
  {
  }

  lemma BlockedPcInv(s: State, t: nat)
    requires Inv(s) && CanRun(s, t) && s.recs[t].pc.Blocked?
    ensures RecInv(s, Apply(s, Run(t)).recs[t])
  {
    var r := s.recs[t];
    assert RecInv(s, r);
    var Blocked(w, delta, cursor) := r.pc;
    if w.kind != Poll && s.global != delta {
      if s.global >= w.e0 + GRACE {
        TwoTicks(s, w.open, w.e0);
        GraceExit(s, r, w);
      } else {
        RoundEnds(s, r, w, s.global);
      }
    }
  }

  lemma BlockedKeeps(s: State, t: nat)
    requires Inv(s) && CanRun(s, t) && s.recs[t].pc.Blocked?
    ensures Inv(Apply(s, Run(t)))
  {
    var s' := Apply(s, Run(t));
    BlockedPcInv(s, t);
    assert Evolves(s, s');
    RecEvolves(s, s', s'.recs[t]);
    InvAfter(s, s', t);
  }

  /** The compare-and-swap: it ticks only when the whole scan ran at one epoch. */
  lemma TickKeepsNear(s: State, s': State, t: nat, delta: nat)
    requires Near(s) && Settled(s, delta, -1) && delta == s.global
    requires t < |s.recs| == |s'.recs| && !InSection(s.recs[t]) && !InSection(s'.recs[t])
    requires s'.recs == s.recs[t := s'.recs[t]] && s'.global == s.global + 1 && s'.recs[t].sec == s.recs[t].sec
    ensures Near(s') && Evolves(s, s')
  {
  }

  /** Poll's list: an entry in it was deferred at least three epochs ago. */
  lemma PollListEnded(s: State, r: Rec, w: Work)
    requires Near(s) && ListsInv(s, r) && WorkInv(s, r, w)
    ensures ListsEnded(s, r, [(w.e0 + 1) % LENGTH])
  {
    var lists := [(w.e0 + 1) % LENGTH];
    forall i, k | 0 <= i < |lists| && lists[i] < |r.pending| && 0 <= k < |r.pending[lists[i]]|
      ensures EntryEnded(s, r.pending[lists[i]][k])
    {
      var x := r.pending[lists[i]][k];
      assert EntryInv(s, x) && x.born % LENGTH == (w.e0 + 1) % LENGTH && x.born <= w.e0;
      assert x.born + 3 <= w.e0;
      TwoTicks(s, x.open, x.born);
    }
  }

  lemma CasPcInv(s: State, r: Rec, w: Work, delta: nat, latest: nat)
    requires Near(s) && ListsInv(s, r) && WorkInv(s, r, w) && w.e0 + w.i <= delta < latest <= s.global
    ensures var pc := if w.kind == Poll then Exit(w, latest, [(w.e0 + 1) % LENGTH]) else NextRound(w, latest);
            PcInv(s, r.(pc := pc)) && !pc.BeginLoaded?
  {
    if w.kind == Poll {
      PollListEnded(s, r, w);
    } else {
      RoundEnds(s, r, w, latest);
    }
  }

  lemma CasEvolves(s: State, t: nat)
    requires Inv(s) && CanRun(s, t) && s.recs[t].pc.Cas?
    ensures Evolves(s, Apply(s, Run(t))) && Near(Apply(s, Run(t)))
  {
    assert RecInv(s, s.recs[t]);
    if s.recs[t].pc.delta == s.global {
      TickKeepsNear(s, Apply(s, Run(t)), t, s.global);
    }
  }

  lemma CasKeeps(s: State, t: nat)
    requires Inv(s) && CanRun(s, t) && s.recs[t].pc.Cas?
    ensures Inv(Apply(s, Run(t)))
  {
    var s' := Apply(s, Run(t));
    var r := s.recs[t];
    var Cas(w, delta) := r.pc;
    CasEvolves(s, t);
    assert RecInv(s, r);
    ListsEvolve(s, s', r);
    WorkEvolves(s, s', r, w);
    CasPcInv(s', r, w, delta, if s.global == delta then delta + 1 else s.global);
    InvAfter(s, s', t);
  }

  lemma ExitKeeps(s: State, t: nat)
    requires Inv(s) && CanRun(s, t) && s.recs[t].pc.Exit?
    ensures Inv(Apply(s, Run(t)))
  {
    var s' := Apply(s, Run(t));
    var r' := s'.recs[t];
    assert RecInv(s, s.recs[t]);
    assert RecInv(s, r');
    assert Evolves(s, s');
    RecEvolves(s, s', r');
    InvAfter(s, s', t);
  }

  lemma DispatchKeeps(s: State, t: nat)
    requires Inv(s) && CanRun(s, t) && s.recs[t].pc.Dispatch?
    ensures Inv(Apply(s, Run(t)))
  {
    var s' := Apply(s, Run(t));
    var r, r' := s.recs[t], s'.recs[t];
    assert RecInv(s, r);
    var Dispatch(w, lists, batch, ran) := r.pc;
    if batch == [] && lists != [] {
      forall k | 0 <= k < |r.pending[lists[0]]|
        ensures EntryInv(s, r.pending[lists[0]][k]) && EntryEnded(s, r.pending[lists[0]][k])
      {
      }
      assert ListsEnded(s, r', lists[1..]) by {
        forall i, k | 0 <= i < |lists[1..]| && lists[1..][i] < |r'.pending| && 0 <= k < |r'.pending[lists[1..][i]]|
          ensures EntryEnded(s, r'.pending[lists[1..][i]][k])
        {
          assert lists[1..][i] == lists[i + 1];
        }
      }
    }
    assert RecInv(s, r');
    assert Evolves(s, s');
    RecEvolves(s, s', r');
    InvAfter(s, s', t);
  }

  lemma StepKeeps(s: State, step: Step)
    requires Inv(s) && !s.lenient && Enabled(s, step)
    ensures Inv(Apply(s, step))
  {
    match step
    case Register => RegisterKeeps(s);
    case Invoke(t, op) => InvokeKeeps(s, t, op);
    case Run(t) =>
      match s.recs[t].pc
      case BeginActive => BeginKeeps(s, t);
      case BeginLoaded(_) => BeginKeeps(s, t);
      case Calling(_, _) => CallKeeps(s, t);
      case ScanStart(_, _) => ScanStartKeeps(s, t);
      case Scan(_, _, _, _, _) => ScanKeeps(s, t);
      case Blocked(_, _, _) => BlockedKeeps(s, t);
      case Cas(_, _) => CasKeeps(s, t);
      case Exit(_, _, _) => ExitKeeps(s, t);
      case Dispatch(_, _, _, _) => DispatchKeeps(s, t);
  }

  lemma {:induction false} RunInv(states: seq<State>, steps: seq<Step>, k: nat)
    requires IsRun(states, steps, false) && k < |states|
    ensures Inv(states[k]) && !states[k].lenient
  {
    if k > 0 {
      RunInv(states, steps, k - 1);
      StepKeeps(states[k - 1], steps[k - 1]);
    }
  }
}
