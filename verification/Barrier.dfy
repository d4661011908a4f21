/**
The dissemination barrier of Concurrency Kit: the number of rounds and the table
of partners.
*/
module Barrier {
  import opened Bits

  // ------------------------------------------------------- the partner of a round

  /** barrier->size: the number of rounds. */
  function Rounds(n: nat): nat
    requires n < WORD
  {
    Log(RoundUpPow2(n))
  }

  /** The ceiling of log2 of the count, as far as 32 bits go. */
  function RoundCount(n: nat): nat {
    if 1 <= n <= 0x8000_0000 then CeilLog2(n) else 0
  }

  lemma LogOfRounded(n: nat, p: nat)
    requires n < WORD && p == if 1 <= n <= 0x8000_0000 then Pow2(CeilLog2(n)) else 0
    requires 1 <= n <= 0x8000_0000 ==> CeilLog2(n) < 32
    ensures Log(p) == RoundCount(n)
  {
    if 1 <= n <= 0x8000_0000 {
      LogOfPower(CeilLog2(n));
    }
  }

  lemma RoundsAre(n: nat)
    requires n < WORD
    ensures Rounds(n) == RoundCount(n)
  {
    RoundUpExact(n);
    LogOfRounded(n, RoundUpPow2(n));
  }

  /** There are enough rounds to hear from every thread exactly when the count is at most 2^31. */
  lemma RoundsEnough(n: nat)
    ensures n <= Pow2(RoundCount(n)) <==> n <= 0x8000_0000
    ensures RoundCount(n) > 0 ==> Pow2(RoundCount(n) - 1) < n
  {
    if 1 <= n <= 0x8000_0000 {
      CeilLog2IsLeast(n);
    }
  }

  /** The thread signalled by thread i with distance `offset`. */
  function Ahead(n: nat, i: nat, offset: nat): nat
    requires i < n && offset <= n
  {
    if i + offset < n then i + offset else i + offset - n
  }

  /** The thread that signals thread i over distance `offset`. */
  function Behind(n: nat, i: nat, offset: nat): nat
    requires i < n && offset <= n
  {
    if i >= offset then i - offset else i + n - offset
  }

  /** How far thread u is behind thread t on the ring. */
  function Dist(n: nat, u: nat, t: nat): nat
    requires u < n && t < n
  {
    if u <= t then t - u else t + n - u
  }

  lemma {:induction false} PowerOfTwoTest(n: nat)
    requires n >= 1 && And(n, n - 1) == 0
    ensures n == Pow2(CeilLog2(n))
  {
    if n == 1 {
    } else if n % 2 == 0 {
      assert (n - 1) / 2 == n / 2 - 1;
      PowerOfTwoTest(n / 2);
      assert BitLength(n - 1) == BitLength(n / 2 - 1) + 1;
    } else {
      assert n / 2 == (n - 1) / 2;
      AndSelf(n / 2);
    }
  }

  lemma {:induction false} AndSelf(x: nat)
    ensures And(x, x) == x
  {
    if x > 0 {
      AndSelf(x / 2);
    }
  }

  lemma AheadIsModulo(n: nat, i: nat, offset: nat)
    requires i < n && offset < n
    ensures Ahead(n, i, offset) == (i + offset) % n
  {
    DivMod(i + offset, n, if i + offset < n then 0 else 1, Ahead(n, i, offset));
  }

  /** The partner at distance `offset`: masked when the count is a power of two, else divided. */
  method PartnerOf(nthr: nat, notPower: bool, i: nat, offset: nat) returns (j: nat)
    requires i < nthr && offset < nthr && notPower == (And(nthr, nthr - 1) != 0)
    ensures j == Ahead(nthr, i, offset)
  {
    AheadIsModulo(nthr, i, offset);
    if notPower {
      j := (i + offset) % nthr;
    } else {
      j := And(i + offset, nthr - 1);
      PowerOfTwoTest(nthr);
      MaskIsModulo(i + offset, CeilLog2(nthr));
    }
  }

  /** Partners and cleared flags of thread i for its first |row| rounds. */
  ghost predicate RowReady(n: nat, i: nat, row: seq<nat>, flags0: seq<bool>, flags1: seq<bool>) {
    && i < n && |row| == |flags0| == |flags1|
    && forall k :: 0 <= k < |row| ==>
         Pow2(k) < n && row[k] == Ahead(n, i, Pow2(k)) && !flags0[k] && !flags1[k]
  }

  /** Half of ck_barrier_dissemination_size. */
  method SizeOf(nthr: nat) returns (size: nat)
    requires nthr < WORD
    ensures size == RoundCount(nthr)
  {
    size := Rounds(nthr);
    RoundsAre(nthr);
  }

  /** The inner loop of ck_barrier_dissemination_init. */
  method InitRow(nthr: nat, notPower: bool, i: nat, size: nat)
    returns (row: seq<nat>, flags0: seq<bool>, flags1: seq<bool>)
    requires i < nthr && notPower == (And(nthr, nthr - 1) != 0) && (size > 0 ==> Pow2(size - 1) < nthr)
    ensures |row| == size && RowReady(nthr, i, row, flags0, flags1)
  {
    row, flags0, flags1 := [], [], [];
    var offset := 1;
    for k := 0 to size
      invariant offset == Pow2(k) && |row| == k && RowReady(nthr, i, row, flags0, flags1)
    {
      OffsetFits(nthr, size, k);
      var j := PartnerOf(nthr, notPower, i, offset);
      row, flags0, flags1 := row + [j], flags0 + [false], flags1 + [false];
      offset := offset * 2;
    }
  }

  /** ck_barrier_dissemination_init. */
  method Init(nthr: nat)
    returns (size: nat, partner: array<seq<nat>>, tflag0: array<seq<bool>>, tflag1: array<seq<bool>>)
    requires nthr < WORD
    ensures size == RoundCount(nthr)
    ensures partner.Length == tflag0.Length == tflag1.Length == nthr
    ensures forall i :: 0 <= i < nthr ==> |partner[i]| == size && RowReady(nthr, i, partner[i], tflag0[i], tflag1[i])
  {
    var notPower := And(nthr, (nthr + WORD - 1) % WORD) != 0;
    WrapFacts(nthr, 0);
    size := SizeOf(nthr);
    RoundsEnough(nthr);
    partner := new seq<nat>[nthr];
    tflag0 := new seq<bool>[nthr];
    tflag1 := new seq<bool>[nthr];
    for i := 0 to nthr
      invariant forall a :: 0 <= a < i ==> |partner[a]| == size && RowReady(nthr, a, partner[a], tflag0[a], tflag1[a])
    {
      var row, flags0, flags1 := InitRow(nthr, notPower, i, size);
      partner[i], tflag0[i], tflag1[i] := row, flags0, flags1;
    }
  }

  lemma OffsetFits(n: nat, size: nat, k: nat)
    requires k < size && Pow2(size - 1) < n
    ensures Pow2(k) < n
  {
    Pow2Monotone(k, size - 1);
  }
}
