/**
Concurrency Kit's epoch reclamation, as a transition system of atomic memory
accesses under sequential consistency.

Every thread owns one record and executes at most one of begin, end, call,
synchronize, barrier and poll at a time. Records are numbered in registration
order; the record list is a stack that only grows at its head, so a scan that
reads the head visits the indices downwards from the newest record it saw.

Fields named `sec`, `called`, `log` and the `open` sets are history: no step
reads them to decide what to do.
*/
module Epoch {

  const GRACE: nat := 3    // CK_EPOCH_GRACE
  const LENGTH: nat := 4   // CK_EPOCH_LENGTH

  /** The n-th outermost read section of a record. */
  datatype Section = Section(rec: nat, n: nat)

  /** A deferred callback: its number on its record, the global epoch loaded by
      ck_epoch_call, and the sections open at that load. */
  datatype Entry = Entry(id: nat, born: nat, open: set<Section>)

  datatype Kind = Synchronize | Barrier | Poll

  /** What a running synchronize, barrier or poll remembers: the epoch it loaded
      first, its loop counter, and the sections open at that first load. */
  datatype Work = Work(kind: Kind, e0: nat, i: nat, open: set<Section>)

  datatype Pc =
    | Idle
    | BeginActive                                     // stored active, has not loaded the epoch
    | BeginLoaded(g: nat)                             // loaded the epoch, has not stored it
    | Calling(e: nat, snap: set<Section>)             // loaded the epoch, has not pushed the entry
    | ScanStart(w: Work, delta: nat)                  // about to read the head of the record list
    | Scan(w: Work, delta: nat, cursor: int, af: bool, sawActive: bool)
    | Blocked(w: Work, delta: nat, cursor: int)       // the scan returned the record at cursor
    | Cas(w: Work, delta: nat)                        // the scan returned NULL with some record active
    | Exit(w: Work, v: nat, lists: seq<nat>)          // about to store record->epoch
    | Dispatch(w: Work, lists: seq<nat>, batch: seq<Entry>, ran: nat)

  datatype Rec = Rec(
    epoch: nat, active: nat,
    pending: seq<seq<Entry>>, nPending: int, nDispatch: nat,
    pc: Pc,
    sec: nat, called: seq<Entry>, log: seq<Entry>)

  /** `lenient` is false when callers keep to polling outside read sections. */
  datatype State = State(global: nat, recs: seq<Rec>, lenient: bool)

  datatype Op = Begin | End | Call | Start(kind: Kind)

  datatype Step = Register | Invoke(t: nat, op: Op) | Run(t: nat)

  // ---------------------------------------------------------------- sections

  predicate InSection(r: Rec) {
    r.pc.BeginLoaded? || (r.active > 0 && !r.pc.BeginActive?)
  }

  /** The epoch a record's open section observed. */
  function SectionEpoch(r: Rec): nat {
    if r.pc.BeginLoaded? then r.pc.g else r.epoch
  }

  predicate Open(s: State, x: Section) {
    x.rec < |s.recs| && s.recs[x.rec].sec == x.n && InSection(s.recs[x.rec])
  }

  function OpenSections(s: State): set<Section> {
    set i | 0 <= i < |s.recs| && InSection(s.recs[i]) :: Section(i, s.recs[i].sec)
  }

  // ------------------------------------------------------------------- steps

  function FreshRec(): Rec {
    Rec(0, 0, [[], [], [], []], 0, 0, Idle, 0, [], [])
  }

  function InitState(lenient: bool): State {
    State(1, [], lenient)
  }

  function AllLists(kind: Kind): seq<nat> {
    if kind == Synchronize then [] else [0, 1, 2, 3]
  }

  predicate CanInvoke(s: State, t: nat, op: Op) {
    && t < |s.recs|
    && s.recs[t].pc.Idle?
    && match op
       case Begin => true
       case End => s.recs[t].active > 0
       case Call => true
       case Start(Poll) => s.lenient || s.recs[t].active == 0
       case Start(_) => s.recs[t].active == 0
  }

  /** The first atomic access of an operation. */
  function Invoked(s: State, t: nat, op: Op): Rec
    requires CanInvoke(s, t, op)
  {
    var r := s.recs[t];
    match op
    case Begin => if r.active == 0 then r.(active := 1, pc := BeginActive) else r.(active := r.active + 1)
    case End => r.(active := r.active - 1)
    case Call => r.(pc := Calling(s.global, OpenSections(s)))
    case Start(kind) => r.(pc := ScanStart(Work(kind, s.global, 0, OpenSections(s)), s.global))
  }

  /** ck_epoch_synchronize's loop end: the next iteration, or the exit. */
  function NextRound(w: Work, delta: nat): Pc {
    if w.i + 1 < GRACE - 1 then ScanStart(w.(i := w.i + 1), delta)
    else Exit(w, delta, AllLists(w.kind))
  }

  function ReloadPc(w: Work, delta: nat, cursor: int, global: nat): Pc {
    if w.kind == Poll then Exit(w, w.e0, [])
    else if global == delta then Scan(w, delta, cursor, true, false)
    else if global >= w.e0 + GRACE then Exit(w, global, AllLists(w.kind))
    else NextRound(w, global)
  }

  function CasPc(w: Work, delta: nat, global: nat): Pc {
    var latest := if global == delta then delta + 1 else global;
    if w.kind == Poll then Exit(w, latest, [(w.e0 + 1) % LENGTH])
    else NextRound(w, latest)
  }

  function ScanPc(pc: Pc, recs: seq<Rec>): Pc
    requires pc.Scan? && -1 <= pc.cursor < |recs|
  {
    var Scan(w, delta, cursor, af, sawActive) := pc;
    if cursor < 0 then
      (if af then Cas(w, delta) else Exit(w, delta, AllLists(w.kind)))
    else if !sawActive then
      (if recs[cursor].active == 0 then Scan(w, delta, cursor - 1, af, false) else Scan(w, delta, cursor, true, true))
    else if recs[cursor].epoch != delta then
      Blocked(w, delta, cursor)
    else
      Scan(w, delta, cursor - 1, af, false)
  }

  /** One step of ck_epoch_dispatch over the lists still to be emptied. */
  function Dispatched(r: Rec): Rec
    requires r.pc.Dispatch? && |r.pending| == LENGTH
    requires forall i :: 0 <= i < |r.pc.lists| ==> r.pc.lists[i] < LENGTH
  {
    var Dispatch(w, lists, batch, ran) := r.pc;
    if batch != [] then
      r.(log := r.log + [batch[0]], pc := Dispatch(w, lists, batch[1..], ran + 1))
    else
      var r1 := r.(nDispatch := r.nDispatch + ran, nPending := r.nPending - ran);
      if lists == [] then r1.(pc := Idle)
      else r1.(pending := r.pending[lists[0] := []], pc := Dispatch(w, lists[1..], r.pending[lists[0]], 0))
  }

  predicate CanRun(s: State, t: nat) {
    && t < |s.recs|
    && !s.recs[t].pc.Idle?
    && |s.recs[t].pending| == LENGTH
    && (s.recs[t].pc.Scan? ==> -1 <= s.recs[t].pc.cursor < |s.recs|)
    && (s.recs[t].pc.Dispatch? ==> forall i :: 0 <= i < |s.recs[t].pc.lists| ==> s.recs[t].pc.lists[i] < LENGTH)
  }

  /** The next atomic access of a running operation, on its own record. */
  function Ran(s: State, t: nat): Rec
    requires CanRun(s, t)
  {
    var r := s.recs[t];
    match r.pc
    case Idle => r
    case BeginActive => r.(pc := BeginLoaded(s.global), sec := r.sec + 1)
    case BeginLoaded(g) => r.(epoch := g, pc := Idle)
    case Calling(e, snap) =>
      var x := Entry(|r.called|, e, snap);
      r.(nPending := r.nPending + 1, called := r.called + [x],
         pending := r.pending[e % LENGTH := [x] + r.pending[e % LENGTH]], pc := Idle)
    case ScanStart(w, delta) => r.(pc := Scan(w, delta, |s.recs| - 1, false, false))
    case Scan(_, _, _, _, _) => r.(pc := ScanPc(r.pc, s.recs))
    case Blocked(w, delta, cursor) => r.(pc := ReloadPc(w, delta, cursor, s.global))
    case Cas(w, delta) => r.(pc := CasPc(w, delta, s.global))
    case Exit(w, v, lists) => r.(epoch := v, pc := Dispatch(w, lists, [], 0))
    case Dispatch(_, _, _, _) => Dispatched(r)
  }

  function RanGlobal(s: State, t: nat): nat
    requires CanRun(s, t)
  {
    if s.recs[t].pc.Cas? && s.recs[t].pc.delta == s.global then s.global + 1 else s.global
  }

  predicate Enabled(s: State, step: Step) {
    match step
    case Register => true
    case Invoke(t, op) => CanInvoke(s, t, op)
    case Run(t) => CanRun(s, t)
  }

  function Apply(s: State, step: Step): State
    requires Enabled(s, step)
  {
    match step
    case Register => s.(recs := s.recs + [FreshRec()])
    case Invoke(t, op) => s.(recs := s.recs[t := Invoked(s, t, op)])
    case Run(t) => s.(recs := s.recs[t := Ran(s, t)], global := RanGlobal(s, t))
  }

  /** A finite run: states, and the step taken between consecutive ones. */
  ghost predicate IsRun(states: seq<State>, steps: seq<Step>, lenient: bool) {
    && |states| == |steps| + 1
    && states[0] == InitState(lenient)
    && forall k :: 0 <= k < |steps| ==> Enabled(states[k], steps[k]) && states[k + 1] == Apply(states[k], steps[k])
  }
}
