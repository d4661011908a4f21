/**
ck_epoch_poll stores record->epoch, and its documentation does not say that it
must be called outside a read section. Called inside one it moves the caller's
own section to a later epoch, and a callback can then run under that section.
Callbacks are safe in every run exactly when polling inside a section is ruled out.
*/
module EpochDiscipline {
  import opened Epoch
  import opened EpochTheorems

  /** At step k thread t runs a callback although section x, open when that
      callback was deferred at step i, is still open. */
  ghost predicate Premature(states: seq<State>, steps: seq<Step>, k: nat, t: nat, i: nat, x: Section) {
    && |states| == |steps| + 1
    && i < k < |steps|
    && steps[k] == Run(t)
    && t < |states[k].recs|
    && states[k].recs[t].pc.Dispatch?
    && states[k].recs[t].pc.batch != []
    && DeferredAt(states, steps, t, states[k].recs[t].pc.batch[0].id, i)
    && Open(states[i], x)
    && Open(states[k], x)
  }

  ghost predicate CallbacksSafe(lenient: bool) {
    forall states, steps, k, t, i, x :: IsRun(states, steps, lenient) ==> !Premature(states, steps, k, t, i, x)
  }

  /** After the call that defers entry `id`, the entry is being pushed or has been. */
  lemma {:induction false} DeferralPassed(states: seq<State>, steps: seq<Step>, lenient: bool, t: nat, id: nat,
      i: nat, k: nat)
    requires IsRun(states, steps, lenient) && DeferredAt(states, steps, t, id, i) && i < k < |states|
    ensures t < |states[k].recs|
    ensures var r := states[k].recs[t]; |r.called| > id || (|r.called| == id && r.pc.Calling?)
  {
    assert Enabled(states[k - 1], steps[k - 1]) && states[k] == Apply(states[k - 1], steps[k - 1]);
    if k > i + 1 {
      DeferralPassed(states, steps, lenient, t, id, i, k - 1);
    }
  }

  lemma DeferralUnique(states: seq<State>, steps: seq<Step>, lenient: bool, t: nat, id: nat, i: nat, j: nat)
    requires IsRun(states, steps, lenient) && DeferredAt(states, steps, t, id, i) && DeferredAt(states, steps, t, id, j)
    ensures i == j
  {
    assert Enabled(states[i], steps[i]) && Enabled(states[j], steps[j]);
    if i < j {
      DeferralPassed(states, steps, lenient, t, id, i, j);
    } else if j < i {
      DeferralPassed(states, steps, lenient, t, id, j, i);
    }
  }

  lemma StrictIsSafe(states: seq<State>, steps: seq<Step>, k: nat, t: nat, i: nat, x: Section)
    requires IsRun(states, steps, false)
    ensures !Premature(states, steps, k, t, i, x)
  {
    if Premature(states, steps, k, t, i, x) {
      var j := CallbacksWait(states, steps, k, t);
      DeferralUnique(states, steps, false, t, states[k].recs[t].pc.batch[0].id, i, j);
    }
  }

  // ------------------------------------------------- the run that goes wrong

  const READER: nat := 0
  const WRITER: nat := 1

  function SectionOfReader(): Section { Section(READER, 1) }

  function Doomed(): Entry { Entry(0, 1, {SectionOfReader()}) }

  function Reader(epoch: nat, active: nat, sec: nat, pc: Pc): Rec {
    Rec(epoch, active, [[], [], [], []], 0, 0, pc, sec, [], [])
  }

  /** The writer before (`pushed` false) and after it deferred its entry. */
  function Writer(pushed: bool, pc: Pc): Rec {
    if pushed then Rec(0, 0, [[], [Doomed()], [], []], 1, 0, pc, 0, [Doomed()], [])
    else Rec(0, 0, [[], [], [], []], 0, 0, pc, 0, [], [])
  }

  function Both(global: nat, r: Rec, w: Rec): State { State(global, [r, w], true) }

  function WriterWork(i: nat): Work { Work(Barrier, 1, i, {SectionOfReader()}) }

  function PollWork(): Work { Work(Poll, 2, 0, {SectionOfReader()}) }

  function InIdle(): Rec { Reader(1, 1, 1, Idle) }

  /** The reader enters, the writer defers and starts its barrier. */
  function Opening(): seq<State> {
    [ InitState(true),
      State(1, [Reader(0, 0, 0, Idle)], true),
      Both(1, Reader(0, 0, 0, Idle), Writer(false, Idle)),
      Both(1, Reader(0, 1, 0, BeginActive), Writer(false, Idle)),
      Both(1, Reader(0, 1, 1, BeginLoaded(1)), Writer(false, Idle)),
      Both(1, InIdle(), Writer(false, Idle)),
      Both(1, InIdle(), Writer(false, Calling(1, {SectionOfReader()}))),
      Both(1, InIdle(), Writer(true, Idle)) ]
  }

  function OpeningSteps(): seq<Step> {
    [ Register, Register, Invoke(READER, Begin), Run(READER), Run(READER), Invoke(WRITER, Call), Run(WRITER) ]
  }

  /** The writer's first full scan ticks the epoch to 2. */
  function FirstScan(): seq<State> {
    [ Both(1, InIdle(), Writer(true, Idle)),
      Both(1, InIdle(), Writer(true, ScanStart(WriterWork(0), 1))),
      Both(1, InIdle(), Writer(true, Scan(WriterWork(0), 1, 1, false, false))),
      Both(1, InIdle(), Writer(true, Scan(WriterWork(0), 1, 0, false, false))),
      Both(1, InIdle(), Writer(true, Scan(WriterWork(0), 1, 0, true, true))),
      Both(1, InIdle(), Writer(true, Scan(WriterWork(0), 1, -1, true, false))),
      Both(1, InIdle(), Writer(true, Cas(WriterWork(0), 1))),
      Both(2, InIdle(), Writer(true, ScanStart(WriterWork(1), 2))) ]
  }

  function FirstScanSteps(): seq<Step> {
    [ Invoke(WRITER, Start(Barrier)), Run(WRITER), Run(WRITER), Run(WRITER), Run(WRITER), Run(WRITER), Run(WRITER) ]
  }

  function Waiter(): Rec { Writer(true, ScanStart(WriterWork(1), 2)) }

  /** The reader polls inside its section, which moves its record to epoch 2. */
  function InnerPoll(): seq<State> {
    [ Both(2, InIdle(), Waiter()),
      Both(2, Reader(1, 1, 1, ScanStart(PollWork(), 2)), Waiter()),
      Both(2, Reader(1, 1, 1, Scan(PollWork(), 2, 1, false, false)), Waiter()),
      Both(2, Reader(1, 1, 1, Scan(PollWork(), 2, 0, false, false)), Waiter()),
      Both(2, Reader(1, 1, 1, Scan(PollWork(), 2, 0, true, true)), Waiter()),
      Both(2, Reader(1, 1, 1, Blocked(PollWork(), 2, 0)), Waiter()),
      Both(2, Reader(1, 1, 1, Exit(PollWork(), 2, [])), Waiter()),
      Both(2, Reader(2, 1, 1, Dispatch(PollWork(), [], [], 0)), Waiter()),
      Both(2, Reader(2, 1, 1, Idle), Waiter()) ]
  }

  function InnerPollSteps(): seq<Step> {
    [ Invoke(READER, Start(Poll)), Run(READER), Run(READER), Run(READER),
      Run(READER), Run(READER), Run(READER), Run(READER) ]
  }

  function Moved(): Rec { Reader(2, 1, 1, Idle) }

  /** The writer's second scan passes the moved record; its dispatch reaches the entry. */
  function SecondScan(): seq<State> {
    [ Both(2, Moved(), Waiter()),
      Both(2, Moved(), Writer(true, Scan(WriterWork(1), 2, 1, false, false))),
      Both(2, Moved(), Writer(true, Scan(WriterWork(1), 2, 0, false, false))),
      Both(2, Moved(), Writer(true, Scan(WriterWork(1), 2, 0, true, true))),
      Both(2, Moved(), Writer(true, Scan(WriterWork(1), 2, -1, true, false))),
      Both(2, Moved(), Writer(true, Cas(WriterWork(1), 2))),
      Both(3, Moved(), Writer(true, Exit(WriterWork(1), 3, [0, 1, 2, 3]))),
      Both(3, Moved(), Writer(true, Dispatch(WriterWork(1), [0, 1, 2, 3], [], 0)).(epoch := 3)),
      Both(3, Moved(), Writer(true, Dispatch(WriterWork(1), [1, 2, 3], [], 0)).(epoch := 3)),
      Both(3, Moved(), Caught()) ]
  }

  function Caught(): Rec {
    Writer(true, Dispatch(WriterWork(1), [2, 3], [Doomed()], 0)).(epoch := 3, pending := [[], [], [], []])
  }

  function Last(): State {
    Both(3, Moved(), Caught().(pc := Dispatch(WriterWork(1), [2, 3], [], 1), log := [Doomed()]))
  }

  function SecondScanSteps(): seq<Step> {
    [ Run(WRITER), Run(WRITER), Run(WRITER), Run(WRITER), Run(WRITER),
      Run(WRITER), Run(WRITER), Run(WRITER), Run(WRITER) ]
  }

  predicate Goes(s: State, step: Step, s': State) {
    Enabled(s, step) && s' == Apply(s, step)
  }

  ghost predicate Linked(states: seq<State>, steps: seq<Step>) {
    && |states| == |steps| + 1
    && forall k :: 0 <= k < |steps| ==> Goes(states[k], steps[k], states[k + 1])
  }

  lemma LinkedIsRun(states: seq<State>, steps: seq<Step>, lenient: bool)
    requires Linked(states, steps) && states[0] == InitState(lenient)
    ensures IsRun(states, steps, lenient)
  {
    forall k | 0 <= k < |steps|
      ensures Enabled(states[k], steps[k]) && states[k + 1] == Apply(states[k], steps[k])
    {
      assert Goes(states[k], steps[k], states[k + 1]);
    }
  }

  lemma Join(a: seq<State>, p: seq<Step>, b: seq<State>, q: seq<Step>)
    requires Linked(a, p) && Linked(b, q) && a[|a| - 1] == b[0]
    ensures Linked(a + b[1..], p + q)
  {
  }

  lemma OnlyReader(global: nat, r: Rec, w: Rec)
    requires InSection(r) && r.sec == 1 && !InSection(w)
    ensures OpenSections(Both(global, r, w)) == {SectionOfReader()}
  {
    var s := Both(global, r, w);
    assert s.recs[READER] == r && s.recs[WRITER] == w;
    assert SectionOfReader() in OpenSections(s);
  }

  lemma WriterRuns(global: nat, global': nat, r: Rec, w: Rec, w': Rec)
    requires CanRun(Both(global, r, w), WRITER)
    requires Ran(Both(global, r, w), WRITER) == w' && RanGlobal(Both(global, r, w), WRITER) == global'
    ensures Goes(Both(global, r, w), Run(WRITER), Both(global', r, w'))
  {
  }

  lemma ReaderRuns(global: nat, r: Rec, r': Rec, w: Rec)
    requires CanRun(Both(global, r, w), READER)
    requires Ran(Both(global, r, w), READER) == r' && RanGlobal(Both(global, r, w), READER) == global
    ensures Goes(Both(global, r, w), Run(READER), Both(global, r', w))
  {
  }

  lemma OpeningLinked()
    ensures Linked(Opening(), OpeningSteps())
  {
    var st, ss := Opening(), OpeningSteps();
    var w := Writer(false, Idle);
    OnlyReader(1, InIdle(), w);
    assert [] + [FreshRec()] == [Reader(0, 0, 0, Idle)];
    assert Goes(st[0], ss[0], st[1]);
    assert [FreshRec()] + [FreshRec()] == [Reader(0, 0, 0, Idle), w];
    assert Goes(st[1], ss[1], st[2]);
    assert [Reader(0, 0, 0, Idle), w][READER := Reader(0, 1, 0, BeginActive)] == [Reader(0, 1, 0, BeginActive), w];
    assert Goes(st[2], ss[2], st[3]);
    ReaderRuns(1, Reader(0, 1, 0, BeginActive), Reader(0, 1, 1, BeginLoaded(1)), w);
    ReaderRuns(1, Reader(0, 1, 1, BeginLoaded(1)), InIdle(), w);
    var calling := Writer(false, Calling(1, {SectionOfReader()}));
    assert [InIdle(), w][WRITER := calling] == [InIdle(), calling];
    assert Goes(st[5], ss[5], st[6]);
    assert [Doomed()] + [] == [Doomed()];
    assert [[], [], [], []][1 := [Doomed()]] == [[], [Doomed()], [], []];
    assert [] + [Doomed()] == [Doomed()];
    WriterRuns(1, 1, InIdle(), calling, Writer(true, Idle));
    assert Goes(st[3], ss[3], st[4]) && Goes(st[4], ss[4], st[5]) && Goes(st[6], ss[6], st[7]);
  }

  lemma BarrierStarts()
    ensures Goes(Both(1, InIdle(), Writer(true, Idle)), Invoke(WRITER, Start(Barrier)),
                 Both(1, InIdle(), Writer(true, ScanStart(WriterWork(0), 1))))
  {
    OnlyReader(1, InIdle(), Writer(true, Idle));
    var started := Writer(true, ScanStart(WriterWork(0), 1));
    assert [InIdle(), Writer(true, Idle)][WRITER := started] == [InIdle(), started];
  }

  lemma PollStarts()
    ensures Goes(Both(2, InIdle(), Waiter()), Invoke(READER, Start(Poll)),
                 Both(2, Reader(1, 1, 1, ScanStart(PollWork(), 2)), Waiter()))
  {
    OnlyReader(2, InIdle(), Waiter());
    var started := Reader(1, 1, 1, ScanStart(PollWork(), 2));
    assert [InIdle(), Waiter()][READER := started] == [started, Waiter()];
  }

  lemma FirstScanPart1()
    ensures forall k :: 0 <= k < 4 ==> Goes(FirstScan()[k], FirstScanSteps()[k], FirstScan()[k + 1])
  {
    var st, ss := FirstScan(), FirstScanSteps();
    BarrierStarts();
    assert Goes(st[0], ss[0], st[1]);
    WriterRuns(1, 1, InIdle(), Writer(true, ScanStart(WriterWork(0), 1)),
               Writer(true, Scan(WriterWork(0), 1, 1, false, false)));
    assert Goes(st[1], ss[1], st[2]);
    WriterRuns(1, 1, InIdle(), Writer(true, Scan(WriterWork(0), 1, 1, false, false)),
               Writer(true, Scan(WriterWork(0), 1, 0, false, false)));
    assert Goes(st[2], ss[2], st[3]);
    WriterRuns(1, 1, InIdle(), Writer(true, Scan(WriterWork(0), 1, 0, false, false)),
               Writer(true, Scan(WriterWork(0), 1, 0, true, true)));
    assert Goes(st[3], ss[3], st[4]);
  }

  lemma FirstScanPart2()
    ensures forall k :: 4 <= k < 7 ==> Goes(FirstScan()[k], FirstScanSteps()[k], FirstScan()[k + 1])
  {
  }

  lemma FirstScanLinked()
    ensures Linked(FirstScan(), FirstScanSteps())
  {
    FirstScanPart1();
    FirstScanPart2();
  }

  lemma InnerPollPart1()
    ensures forall k :: 0 <= k < 3 ==> Goes(InnerPoll()[k], InnerPollSteps()[k], InnerPoll()[k + 1])
  {
    var st, ss := InnerPoll(), InnerPollSteps();
    PollStarts();
    assert Goes(st[0], ss[0], st[1]);
    ReaderRuns(2, Reader(1, 1, 1, ScanStart(PollWork(), 2)),
               Reader(1, 1, 1, Scan(PollWork(), 2, 1, false, false)), Waiter());
    assert Goes(st[1], ss[1], st[2]);
    ReaderRuns(2, Reader(1, 1, 1, Scan(PollWork(), 2, 1, false, false)),
               Reader(1, 1, 1, Scan(PollWork(), 2, 0, false, false)), Waiter());
    assert Goes(st[2], ss[2], st[3]);
  }

  lemma InnerPollPart2()
    ensures forall k :: 3 <= k < 6 ==> Goes(InnerPoll()[k], InnerPollSteps()[k], InnerPoll()[k + 1])
  {
  }

  lemma InnerPollPart3()
    ensures forall k :: 6 <= k < 8 ==> Goes(InnerPoll()[k], InnerPollSteps()[k], InnerPoll()[k + 1])
  {
  }

  lemma InnerPollLinked()
    ensures Linked(InnerPoll(), InnerPollSteps())
  {
    InnerPollPart1();
    InnerPollPart2();
    InnerPollPart3();
  }

  lemma SecondScanPart1()
    ensures forall k :: 0 <= k < 4 ==> Goes(SecondScan()[k], SecondScanSteps()[k], SecondScan()[k + 1])
  {
    var st, ss := SecondScan(), SecondScanSteps();
    WriterRuns(2, 2, Moved(), Writer(true, ScanStart(WriterWork(1), 2)),
               Writer(true, Scan(WriterWork(1), 2, 1, false, false)));
    assert Goes(st[0], ss[0], st[1]);
    WriterRuns(2, 2, Moved(), Writer(true, Scan(WriterWork(1), 2, 1, false, false)),
               Writer(true, Scan(WriterWork(1), 2, 0, false, false)));
    assert Goes(st[1], ss[1], st[2]);
    WriterRuns(2, 2, Moved(), Writer(true, Scan(WriterWork(1), 2, 0, false, false)),
               Writer(true, Scan(WriterWork(1), 2, 0, true, true)));
    assert Goes(st[2], ss[2], st[3]);
    WriterRuns(2, 2, Moved(), Writer(true, Scan(WriterWork(1), 2, 0, true, true)),
               Writer(true, Scan(WriterWork(1), 2, -1, true, false)));
    assert Goes(st[3], ss[3], st[4]);
  }

  lemma SecondScanPart2()
    ensures forall k :: 4 <= k < 7 ==> Goes(SecondScan()[k], SecondScanSteps()[k], SecondScan()[k + 1])
  {
  }

  lemma SecondScanPart3()
    ensures forall k :: 7 <= k < 9 ==> Goes(SecondScan()[k], SecondScanSteps()[k], SecondScan()[k + 1])
  {
    var st, ss := SecondScan(), SecondScanSteps();
    assert [[], [Doomed()], [], []][0 := []] == [[], [Doomed()], [], []];
    assert [0, 1, 2, 3][1..] == [1, 2, 3];
    WriterRuns(3, 3, Moved(), Writer(true, Dispatch(WriterWork(1), [0, 1, 2, 3], [], 0)).(epoch := 3),
               Writer(true, Dispatch(WriterWork(1), [1, 2, 3], [], 0)).(epoch := 3));
    assert Goes(st[7], ss[7], st[8]);
    assert [[], [Doomed()], [], []][1 := []] == [[], [], [], []];
    assert [1, 2, 3][1..] == [2, 3];
    WriterRuns(3, 3, Moved(), Writer(true, Dispatch(WriterWork(1), [1, 2, 3], [], 0)).(epoch := 3), Caught());
    assert Goes(st[8], ss[8], st[9]);
  }

  lemma SecondScanLinked()
    ensures Linked(SecondScan(), SecondScanSteps())
  {
    SecondScanPart1();
    SecondScanPart2();
    SecondScanPart3();
  }

  /** The whole run, ending with the callback. */
  function BadStates(): seq<State> {
    Opening() + FirstScan()[1..] + InnerPoll()[1..] + SecondScan()[1..] + [Last()]
  }

  function BadSteps(): seq<Step> {
    OpeningSteps() + FirstScanSteps() + InnerPollSteps() + SecondScanSteps() + [Run(WRITER)]
  }

  lemma LastGoes()
    ensures Goes(Both(3, Moved(), Caught()), Run(WRITER), Last())
  {
    assert [Doomed()][1..] == [];
    assert [] + [Doomed()] == [Doomed()];
    WriterRuns(3, 3, Moved(), Caught(), Last().recs[WRITER]);
  }

  lemma PollInsideSectionUnsafe()
    ensures IsRun(BadStates(), BadSteps(), true)
    ensures Premature(BadStates(), BadSteps(), 31, WRITER, 5, SectionOfReader())
  {
    OpeningLinked();
    FirstScanLinked();
    InnerPollLinked();
    SecondScanLinked();
    Join(Opening(), OpeningSteps(), FirstScan(), FirstScanSteps());
    var a, p := Opening() + FirstScan()[1..], OpeningSteps() + FirstScanSteps();
    Join(a, p, InnerPoll(), InnerPollSteps());
    a, p := a + InnerPoll()[1..], p + InnerPollSteps();
    Join(a, p, SecondScan(), SecondScanSteps());
    a, p := a + SecondScan()[1..], p + SecondScanSteps();
    var tail := [Both(3, Moved(), Caught()), Last()];
    LastGoes();
    assert Linked(tail, [Run(WRITER)]);
    Join(a, p, tail, [Run(WRITER)]);
    assert BadStates() == a + tail[1..];
    LinkedIsRun(BadStates(), BadSteps(), true);
    assert BadStates()[5] == Opening()[5];
    assert BadStates()[31] == Both(3, Moved(), Caught());
  }

  /** Callbacks are safe in every run iff callers poll outside read sections only. */
  lemma SafeIffPollingOutside(lenient: bool)
    ensures CallbacksSafe(lenient) <==> !lenient
  {
    if lenient {
      PollInsideSectionUnsafe();
    } else {
      forall states, steps, k, t, i, x | IsRun(states, steps, lenient)
        ensures !Premature(states, steps, k, t, i, x)
      {
        StrictIsSafe(states, steps, k, t, i, x);
      }
    }
  }
}
