/**
What the dissemination barrier needs: no thread ever leaves an episode early if
and only if 2 to the number of rounds is no less than the number of threads.
With fewer rounds some threads complete an episode among themselves.
*/
module BarrierLimit {
  import opened Bits
  import opened Barrier
  import opened BarrierProtocol

  // -------------------------------------------------- the table and the protocol

  function AllFlags(n: nat, size: nat): set<Flag> {
    set t: nat, p: nat, k: nat | t < n && p < 2 && k < size :: Flag(t, p, k)
  }

  /** The state after ck_barrier_dissemination_init and all subscriptions. */
  function Subscribed(n: nat, size: nat): State {
    State(n, size, seq(n, _ => Thread(0, true, Outside, 0)), map f | f in AllFlags(n, size) :: false)
  }

  lemma SubscribedIsInit(n: nat, size: nat)
    requires n >= 1 && (size > 0 ==> Pow2(size - 1) < n)
    ensures IsInit(Subscribed(n, size))
  {
  }

  /** The row that initialisation fills in names, for every round, the thread whose flag a step stores to. */
  lemma RowIsStep(s: State, t: nat, row: seq<nat>, flags0: seq<bool>, flags1: seq<bool>)
    requires CanStep(s, t) && s.thr[t].pc.Store? && s.thr[t].pc.i < s.size
    requires |row| == s.size && RowReady(s.n, t, row, flags0, flags1)
    ensures var r := s.thr[t];
      Step(s, t).flags == s.flags[Flag(row[r.pc.i], r.parity, r.pc.i) := r.sense]
  {
  }

  // ------------------------------------------------------------------ finite paths

  ghost predicate IsPath(states: seq<State>, movers: seq<nat>) {
    && |states| == |movers| + 1
    && forall k :: 0 <= k < |movers| ==> Goes(states[k], movers[k], states[k + 1])
  }

  ghost predicate Goes(s: State, t: nat, s': State) {
    CanStep(s, t) && s' == Step(s, t)
  }

  lemma Join(a: seq<State>, p: seq<nat>, b: seq<State>, q: seq<nat>)
    requires IsPath(a, p) && IsPath(b, q) && a[|a| - 1] == b[0]
    ensures IsPath(a + b[1..], p + q)
  {
    var c, r := a + b[1..], p + q;
    forall k | 0 <= k < |r|
      ensures Goes(c[k], r[k], c[k + 1])
    {
      if k < |p| {
        assert c[k] == a[k] && c[k + 1] == a[k + 1];
      } else {
        assert c[k] == b[k - |p|] && c[k + 1] == b[k - |p| + 1];
      }
    }
  }

  /** There is a path from s to s'. */
  ghost predicate Leads(s: State, s': State) {
    exists states, movers :: IsPath(states, movers) && states[0] == s && states[|states| - 1] == s'
  }

  lemma LeadsOn(s: State, s': State, s'': State)
    requires Leads(s, s') && Leads(s', s'')
    ensures Leads(s, s'')
  {
    var a, p :| IsPath(a, p) && a[0] == s && a[|a| - 1] == s';
    var b, q :| IsPath(b, q) && b[0] == s' && b[|b| - 1] == s'';
    Join(a, p, b, q);
    assert (a + b[1..])[|a + b[1..]| - 1] == s'';
  }

  lemma LeadsStep(s: State, s': State, t: nat)
    requires Leads(s, s') && CanStep(s', t)
    ensures Leads(s, Step(s', t))
  {
    var b, q := [s', Step(s', t)], [t];
    assert IsPath(b, q) && b[0] == s' && b[|b| - 1] == Step(s', t);
    LeadsOn(s, s', Step(s', t));
  }

  // --------------------------------------------------- threads that climb by themselves

  predicate IsFresh(r: Thread) { r == Thread(0, true, Outside, 0) }

  /** The d threads up to t are still outside their first episode. */
  ghost predicate Resting(s: State, t: nat, d: nat)
    requires Shape(s) && t < s.n
  {
    forall u: nat {:trigger s.thr[u]} :: u < s.n && Dist(s.n, u, t) < d ==> IsFresh(s.thr[u])
  }

  /** Only the d threads up to t moved from s to s', and flags were only raised. */
  ghost predicate Aside(s: State, s': State, t: nat, d: nat)
    requires t < s.n
  {
    && Shape(s) && Shape(s') && s'.n == s.n && s'.size == s.size && s.flags.Keys <= s'.flags.Keys
    && (forall u: nat {:trigger s'.thr[u]} :: u < s.n && Dist(s.n, u, t) >= d ==> s'.thr[u] == s.thr[u])
    && (forall f {:trigger s'.flags[f]} :: f in s.flags && s.flags[f] ==> s'.flags[f])
  }

  /** How the 2 * o threads up to t divide. */
  lemma Halves(n: nat, t: nat, o: nat, u: nat)
    requires t < n && u < n && 1 <= o && 2 * o <= n
    ensures var w := Behind(n, t, o);
      && w < n && w != t && Ahead(n, w, o) == t && Dist(n, w, t) == o && Dist(n, t, w) >= o
      && (Dist(n, u, w) < o ==> Dist(n, u, t) == Dist(n, u, w) + o)
      && (Dist(n, u, t) < o ==> Dist(n, u, w) >= o && u != w)
      && (Dist(n, u, t) >= 2 * o ==> Dist(n, u, w) >= o && u != w)
  {
  }

  /** Without any other thread, the d threads up to t have brought t through r rounds. */
  ghost predicate Climbed(s: State, s': State, t: nat, r: nat, d: nat)
    requires t < s.n
  {
    Leads(s, s') && Aside(s, s', t, d) && s'.thr[t] == Thread(0, true, Store(r), 0)
  }

  lemma Enter(s: State, t: nat) returns (s': State)
    requires Shape(s) && t < s.n && IsFresh(s.thr[t])
    ensures Climbed(s, s', t, 0, 1)
  {
    assert IsPath([s], []) && [s][|[s]| - 1] == s;
    LeadsStep(s, s, t);
    s' := Step(s, t);
  }

  lemma HalfRests(s: State, t: nat, w: nat, o: nat)
    requires Shape(s) && t < s.n && 1 <= o && 2 * o <= s.n && w == Behind(s.n, t, o) && Resting(s, t, 2 * o)
    ensures w < s.n && Resting(s, w, o)
  {
    forall u: nat | u < s.n && Dist(s.n, u, w) < o
      ensures IsFresh(s.thr[u])
    {
      Halves(s.n, t, o, u);
    }
  }

  /** Thread w, having reached round k by itself, raises the flag of t, which is o = 2^k ahead. */
  lemma Signal(s: State, s1: State, t: nat, w: nat, k: nat, o: nat) returns (s2: State)
    requires Shape(s) && t < s.n && k < s.size && o == Pow2(k) && 2 * o <= s.n && w == Behind(s.n, t, o) && w < s.n
    requires Climbed(s, s1, w, k, o) && Resting(s, t, 2 * o)
    ensures Leads(s, s2) && Aside(s, s2, t, 2 * o) && Resting(s2, t, o)
    ensures Flag(t, 0, k) in s2.flags && s2.flags[Flag(t, 0, k)]
  {
    LeadsStep(s, s1, w);
    s2 := Step(s1, w);
    Halves(s.n, t, o, t);
    forall u: nat | u < s.n && Dist(s.n, u, t) >= 2 * o
      ensures s2.thr[u] == s.thr[u]
    {
      Halves(s.n, t, o, u);
    }
    forall u: nat | u < s.n && Dist(s.n, u, t) < o
      ensures IsFresh(s2.thr[u])
    {
      Halves(s.n, t, o, u);
    }
  }

  /** Thread t, having reached round k with its flag raised, passes the round. */
  lemma Pass(s: State, s2: State, s3: State, t: nat, k: nat, o: nat) returns (s': State)
    requires Shape(s) && t < s.n && k < s.size && o >= 1 && Leads(s, s2) && Aside(s, s2, t, 2 * o)
    requires t < s2.n && Climbed(s2, s3, t, k, o) && Flag(t, 0, k) in s2.flags && s2.flags[Flag(t, 0, k)]
    ensures Climbed(s, s', t, k + 1, 2 * o)
  {
    LeadsOn(s, s2, s3);
    LeadsStep(s, s3, t);
    LeadsStep(s, Step(s3, t), t);
    s' := Step(Step(s3, t), t);
  }

  /** One round more, from what the two halves of the threads can do by themselves. */
  lemma {:induction false} Climb(s: State, t: nat, r: nat, d: nat) returns (s': State)
    requires Shape(s) && t < s.n && r <= s.size && d == Pow2(r) <= s.n && Resting(s, t, d)
    ensures Climbed(s, s', t, r, d)
    decreases r
  {
    if r == 0 {
      s' := Enter(s, t);
    } else {
      var o := Pow2(r - 1);
      var w := Behind(s.n, t, o);
      HalfRests(s, t, w, o);
      var s1 := Climb(s, w, r - 1, o);
      var s2 := Signal(s, s1, t, w, r - 1, o);
      var s3 := Climb(s2, t, r - 1, o);
      s' := Pass(s, s2, s3, t, r - 1, o);
    }
  }

  // ------------------------------------------------------------------ the exact limit

  /** In no run does a thread leave an episode that another has not entered. */
  ghost predicate NeverEarly(n: nat, size: nat) {
    forall states: seq<State>, movers: seq<nat>, k: nat, t: nat, u: nat ::
      IsRun(states, movers) && states[0].n == n && states[0].size == size ==> !LeavesEarly(states, k, t, u)
  }

  ghost predicate LeavesEarly(states: seq<State>, k: nat, t: nat, u: nat) {
    && k < |states| && t < |states[k].thr| && u < |states[k].thr|
    && states[k].thr[t].ep > Entered(states[k].thr[u])
  }

  /** With too few rounds thread 2^size leaves while thread 0 has not entered. */
  lemma TooFewRounds(n: nat, size: nat) returns (states: seq<State>, movers: seq<nat>, k: nat)
    requires n > Pow2(size) && (size > 0 ==> Pow2(size - 1) < n)
    ensures IsRun(states, movers) && states[0] == Subscribed(n, size) && LeavesEarly(states, k, Pow2(size), 0)
  {
    var s, t := Subscribed(n, size), Pow2(size);
    SubscribedIsInit(n, size);
    var s' := Climb(s, t, size, Pow2(size));
    LeadsStep(s, s', t);
    assert Dist(n, 0, t) == Pow2(size);
    states, movers :| IsPath(states, movers) && states[0] == s && states[|states| - 1] == Step(s', t);
    k := |states| - 1;
    forall i | 0 <= i < |movers|
      ensures CanStep(states[i], movers[i]) && states[i + 1] == Step(states[i], movers[i])
    {
      assert Goes(states[i], movers[i], states[i + 1]);
    }
  }

  lemma SafeIffEnoughRounds(n: nat, size: nat)
    requires n >= 1 && (size > 0 ==> Pow2(size - 1) < n)
    ensures NeverEarly(n, size) <==> n <= Pow2(size)
  {
    if n <= Pow2(size) {
      forall states: seq<State>, movers: seq<nat>, k: nat, t: nat, u: nat
        | IsRun(states, movers) && states[0].n == n && states[0].size == size
        ensures !LeavesEarly(states, k, t, u)
      {
        if k < |states| && t < |states[k].thr| && u < |states[k].thr| {
          NobodyLeavesEarly(states, movers, k, t, u);
        }
      }
    } else {
      var states, movers, k := TooFewRounds(n, size);
    }
  }

  /** The barrier as initialised keeps its promise exactly for counts up to 2^31. */
  lemma SafeUpTo31Bits(n: nat)
    requires n >= 1
    ensures NeverEarly(n, RoundCount(n)) <==> n <= 0x8000_0000
  {
    RoundsEnough(n);
    SafeIffEnoughRounds(n, RoundCount(n));
  }
}
