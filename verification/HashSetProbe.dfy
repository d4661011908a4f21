/**
The probe sequence of ck_hs, which runs through cache lines of eight slots, and
the sizes of its tables. A table has 2^3 to 2^31 slots; at 2^31 the next doubling
wraps to eight slots, but a key that finds no place among 2^31 slots has hundreds
of stored keys in its way, and those do not fit in eight.

From the 65th line on the hash is shifted by 64 bits or more, which C leaves
undefined. `wide` is what the machine makes of such a shift; nothing is assumed of it.
*/
module HashSetProbe {
  import opened Collections
  import opened HashSet
  import Bits

  const LINE: nat := 8                         // CK_HS_PROBE_L1
  const CACHE_LINE: nat := 64                  // CK_MD_CACHELINE
  const UINT_MAX: nat := 0xffff_ffff
  const LONG: nat := 0x1_0000_0000_0000_0000   // 2^64
  const LARGEST: nat := 0x8000_0000            // slots of the largest table
  const MANY: nat := 264                       // slots of 33 cache lines

  type Shift = (nat, nat) -> nat

  // ---------------------------------------------------------------- probe sequence

  /** `stride | CK_HS_PROBE_L1`: the low three bits stay, the others move up one, and bit three is set. */
  function Spread(r: nat): nat {
    2 * (r - r % LINE) + r % LINE + LINE
  }

  function Over(h: nat, d: nat): nat
    requires d > 0
  {
    h / d
  }

  /** x >> level. */
  function Shifted(wide: Shift, x: nat, level: nat): nat {
    if level < 64 then Bits.ShiftRight(x, level) else wide(x, level)
  }

  function Stride(wide: Shift, cap: nat, h: nat, level: nat): nat
    requires cap > 0
  {
    Spread(Shifted(wide, Over(h, 2 * cap), level))
  }

  /**
  ck_hs_map_probe_next, from one cache line to the next. The capacity is a power
  of two and masking is the remainder. The hash is shifted by one more than the
  logarithm of the capacity, which divides it by twice the capacity.
  */
  function NextOffset(wide: Shift, cap: nat, offset: nat, h: nat, level: nat, probes: nat): (o: nat)
    requires cap > 0
    ensures o < cap
  {
    (offset + probes / LINE + Stride(wide, cap, h, level)) % cap
  }

  /** Slot j of the i-th cache line of the sequence, which was entered at the offset. */
  datatype Cursor = Cursor(offset: nat, i: nat, j: nat)

  function Start(cap: nat, h: nat): Cursor
    requires cap > 0
  {
    Cursor(h % cap, 0, 0)
  }

  function Step(wide: Shift, cap: nat, h: nat, c: Cursor): Cursor
    requires cap > 0
  {
    if c.j + 1 < LINE then c.(j := c.j + 1)
    else Cursor(NextOffset(wide, cap, c.offset, h, c.i, LINE * (c.i + 1)), c.i + 1, 0)
  }

  /** The slot under the cursor. */
  function SlotOf(c: Cursor): nat {
    c.offset - c.offset % LINE + (c.j + c.offset) % LINE
  }

  /** Position p of the probe sequence. */
  function Reached(wide: Shift, cap: nat, h: nat, p: nat): (c: Cursor)
    requires cap > 0
    ensures c.offset < cap
  {
    if p == 0 then Start(cap, h) else Step(wide, cap, h, Reached(wide, cap, h, p - 1))
  }

  lemma {:induction false} ShiftDivides(x: nat, k: nat)
    ensures Bits.ShiftRight(x, k) == x / Bits.Pow2(k)
  {
    if k > 0 {
      ShiftDivides(x / 2, k - 1);
      HalfDivided(x, Bits.Pow2(k - 1), x / 2 / Bits.Pow2(k - 1), x / 2 % Bits.Pow2(k - 1));
    }
  }

  lemma HalfDivided(x: nat, p: nat, q: nat, m: nat)
    requires p > 0 && q == x / 2 / p && m == x / 2 % p
    ensures x / (2 * p) == q
  {
    assert x / 2 == q * p + m;
    assert q * (2 * p) == 2 * (q * p);
    Bits.DivMod(x, 2 * p, q, 2 * m + x % 2);
  }

  /**
  The stride in the source's own operators, with r = (h >> step) >> level and
  step = ffs(2^k) = k + 1: it is (r & ~7) << 1 | (r & 7) | 8, and no two terms share a bit.
  */
  lemma StrideIsBits(wide: Shift, h: nat, k: nat, level: nat)
    requires level < 64
    ensures var r := Bits.ShiftRight(Bits.ShiftRight(h, k + 1), level);
      var low := Bits.And(r, 7);
      low <= r && Bits.Or(Bits.Or(Bits.ShiftLeft(r - low, 1), low), 8) == Stride(wide, Bits.Pow2(k), h, level)
  {
    ShiftDivides(h, k + 1);
    var r := Bits.ShiftRight(Bits.ShiftRight(h, k + 1), level);
    LowThree(r);
    StrideBits(r / LINE, r % LINE);
  }

  lemma StrideBits(q: nat, m: nat)
    requires m < LINE
    ensures Bits.Or(Bits.Or(Bits.ShiftLeft(LINE * q, 1), m), 8) == 2 * (LINE * q) + m + LINE
  {
    assert Bits.ShiftLeft(LINE * q, 1) == 2 * Bits.ShiftLeft(LINE * q, 0);
    JoinBits(q, m);
  }

  lemma LowThree(r: nat)
    ensures Bits.And(r, 7) == r % LINE
  {
    Bits.SmallShifts(0);
    Bits.MaskIsModulo(r, 3);
  }

  lemma JoinBits(q: nat, m: nat)
    requires m < LINE
    ensures Bits.Or(16 * q, m) == 16 * q + m && Bits.Or(16 * q + m, 8) == 16 * q + m + 8
  {
    Bits.SmallShifts(q);
    Bits.OrLow(q, m, 4);
    Bits.OrBit(q, m, 3);
  }

  lemma SlotIs(offset: nat, i: nat, j: nat)
    requires j < LINE
    ensures var m := offset % LINE + j;
      SlotOf(Cursor(offset, i, j)) == offset / LINE * LINE + (if m < LINE then m else m - LINE)
  {
    var m := offset % LINE + j;
    if m < LINE {
      Bits.DivMod(j + offset, LINE, offset / LINE, m);
    } else {
      Bits.DivMod(j + offset, LINE, offset / LINE + 1, m - LINE);
    }
  }

  /** The eight cursors of a cache line visit exactly its eight slots. */
  lemma LineCovered(offset: nat, i: nat, x: nat)
    ensures x / LINE == offset / LINE <==> exists j: nat :: j < LINE && SlotOf(Cursor(offset, i, j)) == x
  {
    if x / LINE == offset / LINE {
      var a, b := x % LINE, offset % LINE;
      var j := if a >= b then a - b else a + LINE - b;
      SlotIs(offset, i, j);
      assert SlotOf(Cursor(offset, i, j)) == x;
    }
    forall j: nat | j < LINE && SlotOf(Cursor(offset, i, j)) == x
      ensures x / LINE == offset / LINE
    {
      SlotIs(offset, i, j);
    }
  }

  lemma SlotBound(cap: nat, c: Cursor)
    requires cap % LINE == 0 && c.offset < cap
    ensures SlotOf(c) < cap
  {
  }

  /** Every key's probe sequence is that of its hash. */
  ghost predicate Follows<Key(!new), T(!new)>(f: Probing<Key, T>, hash: Key -> nat, wide: Shift, cap: nat) {
    cap > 0 && forall k, p: nat {:trigger Reached(wide, cap, hash(k), p)} ::
      f.slot(k, p) == SlotOf(Reached(wide, cap, hash(k), p))
  }

  /** There is such a probe sequence, and it stays in the table. */
  lemma SequenceExists<Key(!new), T(!new)>(keyOf: T -> Key, hash: Key -> nat, wide: Shift, cap: nat)
      returns (f: Probing<Key, T>)
    requires IsSize(cap)
    ensures f.keyOf == keyOf && Follows(f, hash, wide, cap) && forall k, p :: f.slot(k, p) < cap
  {
    SizeFacts(cap);
    f := Probing(keyOf, (k, p) => SlotOf(Reached(wide, cap, hash(k), p)));
    forall k, p: nat
      ensures f.slot(k, p) < cap
    {
      SlotBound(cap, Reached(wide, cap, hash(k), p));
    }
  }

  /** It starts at the home slot. */
  lemma HomeSlot<Key(!new), T(!new)>(f: Probing<Key, T>, hash: Key -> nat, wide: Shift, cap: nat, key: Key)
    requires Follows(f, hash, wide, cap)
    ensures f.slot(key, 0) == hash(key) % cap
  {
    assert Reached(wide, cap, hash(key), 0) == Start(cap, hash(key));
  }

  // ------------------------------------------------------------------- low bits of zero

  /** The j lowest bits are zero. */
  predicate LowZeros(x: nat, j: nat) {
    j == 0 || (x % 2 == 0 && LowZeros(x / 2, j - 1))
  }

  lemma {:induction false} FewerZeros(x: nat, i: nat, j: nat)
    requires LowZeros(x, j) && i <= j
    ensures LowZeros(x, i)
  {
    if i > 0 {
      FewerZeros(x / 2, i - 1, j - 1);
    }
  }

  lemma {:induction false} ZerosOfSum(x: nat, n: nat, j: nat)
    requires j <= n
    ensures LowZeros(x + Bits.Pow2(n), j) <==> LowZeros(x, j)
  {
    if j > 0 {
      assert (x + Bits.Pow2(n)) / 2 == x / 2 + Bits.Pow2(n - 1);
      ZerosOfSum(x / 2, n - 1, j - 1);
    }
  }

  lemma {:induction false} ZerosDivide(x: nat, j: nat)
    requires LowZeros(x, j)
    ensures x == Bits.Pow2(j) * (x / Bits.Pow2(j))
  {
    if j > 0 {
      ZerosDivide(x / 2, j - 1);
      HalfDivided(x, Bits.Pow2(j - 1), x / 2 / Bits.Pow2(j - 1), x / 2 % Bits.Pow2(j - 1));
      Twofold(x, Bits.Pow2(j - 1), x / Bits.Pow2(j));
    }
  }

  lemma Twofold(x: nat, p: nat, q: nat)
    requires x % 2 == 0 && x / 2 == p * q
    ensures x == 2 * p * q
  {
  }

  // ---------------------------------------------------------------------- creation

  /** The sizes of tables. */
  ghost predicate IsSize(n: nat) {
    exists k: nat :: 3 <= k <= 31 && n == Bits.Pow2(k)
  }

  lemma SizeFacts(n: nat)
    requires IsSize(n)
    ensures LINE <= n <= LARGEST && n % LINE == 0
    ensures n < LARGEST ==> IsSize(2 * n) && 2 * n <= LARGEST
  {
    var k: nat :| 3 <= k <= 31 && n == Bits.Pow2(k);
    PowerOfLines(k);
    Bits.Pow2Monotone(k, 31);
    Bits.Pow2Literals();
    if k < 31 {
      assert Bits.Pow2(k + 1) == 2 * n;
      Bits.Pow2Monotone(k + 1, 31);
    }
  }

  function AtLeastLine(n: nat): nat {
    if n < LINE then LINE else n
  }

  lemma PowerOfLines(k: nat)
    requires k >= 3
    ensures Bits.Pow2(k) % LINE == 0 && Bits.Pow2(k) >= LINE
  {
    Bits.PowerProduct(k - 3, 3);
    Bits.SmallShifts(0);
  }

  /** The number of slots of a new table; ck_internal_power_2 keeps 32 bits of its argument. */
  function SizeFor(capacity: nat): nat {
    var n := capacity % Bits.WORD;
    AtLeastLine(if 1 <= n <= LARGEST then Bits.Pow2(Bits.CeilLog2(n)) else 0)
  }

  lemma SizeForIs(capacity: nat)
    ensures IsSize(SizeFor(capacity))
    ensures capacity <= LARGEST ==> SizeFor(capacity) >= capacity
    ensures LowZeros(capacity, 32) ==> SizeFor(capacity) == LINE
  {
    if LowZeros(capacity, 32) {
      Bits.Pow2Literals();
      ZerosDivide(capacity, 32);
    }
    RoundedLines(capacity % Bits.WORD);
  }

  lemma RoundedLines(n: nat)
    ensures var r := if 1 <= n <= LARGEST then Bits.Pow2(Bits.CeilLog2(n)) else 0;
      IsSize(AtLeastLine(r)) && (n <= LARGEST ==> AtLeastLine(r) >= n)
  {
    Bits.SmallShifts(0);
    if 1 <= n <= LARGEST {
      var k := Bits.CeilLog2(n);
      Bits.CeilLog2IsLeast(n);
      Bits.Pow2Literals();
      if k < 3 {
        Bits.Pow2Monotone(k, 3);
      } else {
        Bits.Pow2Monotone(3, k);
        if k > 31 {
          Bits.Pow2Monotone(31, k - 1);
        }
      }
    }
  }

  method NewSize(capacity: nat) returns (size: nat)
    ensures size == SizeFor(capacity) && IsSize(size)
    ensures capacity <= LARGEST ==> size >= capacity
    ensures LowZeros(capacity, 32) ==> size == LINE
  {
    SizeForIs(capacity);
    var r := Bits.RoundUp(capacity % Bits.WORD);
    size := AtLeastLine(r);
  }

  function ProbeLimit(cap: nat): nat {
    var limit := if cap / 32 > CACHE_LINE then cap / 32 else CACHE_LINE;
    if limit > UINT_MAX then UINT_MAX else limit
  }

  /** ck_hs_map_create. */
  function Fresh<Key, T>(size: nat, deleteMode: bool): Table<Key, T> {
    Table(seq(size, _ => Empty), ProbeLimit(size), 0, if deleteMode then seq(size, _ => 0) else [], 0, map[])
  }

  lemma FreshOk<Key(!new), T(!new)>(f: Probing<Key, T>, size: nat, deleteMode: bool)
    requires forall k, p :: f.slot(k, p) < size
    ensures Ok(f, Fresh(size, deleteMode))
  {
  }

  // --------------------------------------------------------------- the largest table

  /** Where the i-th cache line of the sequence is entered. */
  function LineOffset(wide: Shift, cap: nat, h: nat, i: nat): nat
    requires cap > 0
  {
    if i == 0 then h % cap else NextOffset(wide, cap, LineOffset(wide, cap, h, i - 1), h, i - 1, LINE * i)
  }

  /** The first slot of a cache line. */
  function LineStart(offset: nat): nat {
    offset / LINE * LINE
  }

  lemma {:induction false} LineAt(wide: Shift, cap: nat, h: nat, i: nat, j: nat)
    requires cap > 0 && j < LINE
    ensures Reached(wide, cap, h, LINE * i + j) == Cursor(LineOffset(wide, cap, h, i), i, j)
    decreases i, j
  {
    if j > 0 {
      LineAt(wide, cap, h, i, j - 1);
    } else if i > 0 {
      LineAt(wide, cap, h, i - 1, LINE - 1);
    }
  }

  /** In the largest table a 64-bit hash is used up after 32 lines; the strides are short from then on. */
  lemma HashUsedUp(wide: Shift, h: nat, level: nat)
    requires h < LONG && 32 <= level < 64
    ensures Stride(wide, LARGEST, h, level) == LINE
  {
    var x := Over(h, 2 * LARGEST);
    Bits.Pow2Literals();
    Bits.Pow2Monotone(32, level);
    Bits.BitLengthFrom(x, level);
    Bits.ShiftOut(x, level);
  }

  lemma ShortStride(wide: Shift, h: nat, i: nat)
    requires h < LONG && 32 <= i < 64
    ensures LineOffset(wide, LARGEST, h, i + 1) == (LineOffset(wide, LARGEST, h, i) + i + 1 + LINE) % LARGEST
  {
    HashUsedUp(wide, h, i);
    assert LINE * (i + 1) / LINE == i + 1;
  }

  lemma {:induction false} LinesAdvance(wide: Shift, h: nat, a: nat, b: nat) returns (d: nat)
    requires h < LONG && 32 <= a <= b <= 64
    ensures LineOffset(wide, LARGEST, h, b) == (LineOffset(wide, LARGEST, h, a) + d) % LARGEST
    ensures 41 * (b - a) <= d <= 72 * (b - a)
  {
    if a == b {
      d := 0;
      OffsetBound(wide, h, a);
    } else {
      var e := LinesAdvance(wide, h, a, b - 1);
      ShortStride(wide, h, b - 1);
      d := e + b + LINE;
      AddOn(LineOffset(wide, LARGEST, h, a), e, LineOffset(wide, LARGEST, h, b - 1), b + LINE);
    }
  }

  lemma AddOn(x: nat, e: nat, y: nat, d: nat)
    requires y == (x + e) % LARGEST
    ensures (y + d) % LARGEST == (x + (e + d)) % LARGEST
  {
  }

  lemma OffsetBound(wide: Shift, h: nat, i: nat)
    ensures LineOffset(wide, LARGEST, h, i) < LARGEST
  {
  }

  /** Lines 32 to 64 are different ones. */
  lemma LinesApart(wide: Shift, h: nat, a: nat, b: nat)
    requires h < LONG && 32 <= a < b <= 64
    ensures var x, y := LineStart(LineOffset(wide, LARGEST, h, a)), LineStart(LineOffset(wide, LARGEST, h, b));
      x + LINE <= y || y + LINE <= x
  {
    var d := LinesAdvance(wide, h, a, b);
    OffsetBound(wide, h, a);
    NotSameLine(LineOffset(wide, LARGEST, h, a), d);
  }

  lemma NotSameLine(o: nat, d: nat)
    requires o < LARGEST && LINE <= d <= LARGEST - LINE
    ensures var x, y := LineStart(o), LineStart((o + d) % LARGEST);
      x + LINE <= y || y + LINE <= x
  {
    if o + d < LARGEST {
      assert (o + d) % LARGEST == o + d;
    } else {
      assert (o + d) % LARGEST == o + d - LARGEST;
    }
  }

  /** The first p positions of the key's sequence hold objects. */
  ghost predicate Crammed<Key(!new), T(!new)>(f: Probing<Key, T>, t: Table<Key, T>, key: Key, p: nat)
    requires Fits(f, t)
  {
    forall q: nat :: q < p ==> t.entries[f.slot(key, q)].Full?
  }

  lemma SlotsOfLines(wide: Shift, h: nat, i: nat, a: nat, j: nat, b: nat)
    requires h < LONG && 32 <= i <= j <= 64 && a < LINE && b < LINE && (i == j ==> a != b)
    ensures SlotOf(Cursor(LineOffset(wide, LARGEST, h, i), i, a))
         != SlotOf(Cursor(LineOffset(wide, LARGEST, h, j), j, b))
  {
    SlotIs(LineOffset(wide, LARGEST, h, i), i, a);
    SlotIs(LineOffset(wide, LARGEST, h, j), j, b);
    if i < j {
      LinesApart(wide, h, i, j);
    }
  }

  /** Two slots of lines 32 to 64 are the same only at the same position. */
  lemma SlotsApart(wide: Shift, h: nat, p: nat, q: nat)
    requires h < LONG && LINE * 32 <= p < q < LINE * 65
    ensures SlotOf(Reached(wide, LARGEST, h, p)) != SlotOf(Reached(wide, LARGEST, h, q))
  {
    var i, j := p / LINE, q / LINE;
    LineAt(wide, LARGEST, h, i, p % LINE);
    LineAt(wide, LARGEST, h, j, q % LINE);
    SlotsOfLines(wide, h, i, p % LINE, j, q % LINE);
  }

  /** Full slots at n positions that are all different have a key each. */
  lemma FullSlotsHaveKeys<Key(!new), T(!new)>(f: Probing<Key, T>, t: Table<Key, T>, key: Key, a: nat, n: nat)
    requires Ok(f, t) && forall p: nat :: a <= p < a + n ==> t.entries[f.slot(key, p)].Full?
    requires forall p: nat, q: nat :: a <= p < q < a + n ==> f.slot(key, p) != f.slot(key, q)
    ensures t.count >= n
  {
    var m := map p | p in Span(a, n) :: f.keyOf(t.entries[f.slot(key, p)].obj);
    forall p, q | p in m && q in m && m[p] == m[q]
      ensures p == q
    {
      assert SlotOk(f, t, f.slot(key, p)) && SlotOk(f, t, f.slot(key, q));
    }
    forall p | p in m
      ensures m[p] in t.at.Keys
    {
      assert SlotOk(f, t, f.slot(key, p));
    }
    InjectiveFits(m, t.at.Keys);
    assert m.Keys == Span(a, n);
  }

  /** And each key a slot of its own. */
  lemma KeysFit<Key(!new), T(!new)>(f: Probing<Key, T>, t: Table<Key, T>)
    requires Ok(f, t)
    ensures t.count <= |t.entries|
  {
    var m := map k | k in t.at :: f.slot(k, t.at[k]);
    forall j, k | j in m && k in m && m[j] == m[k]
      ensures j == k
    {
      assert KeyOk(f, t, j) && KeyOk(f, t, k);
    }
    InjectiveFits(m, Span(0, |t.entries|));
    assert m.Keys == t.at.Keys;
  }

  /** A key whose sequence is crammed for 65 lines in the largest table has many others in its way. */
  lemma Crowded<Key(!new), T(!new)>(f: Probing<Key, T>, hash: Key -> nat, wide: Shift, t: Table<Key, T>, key: Key)
    requires Ok(f, t) && |t.entries| == LARGEST && Follows(f, hash, wide, LARGEST) && hash(key) < LONG
    requires Crammed(f, t, key, LINE * 65)
    ensures t.count >= MANY
  {
    forall p: nat, q: nat | LINE * 32 <= p < q < LINE * 32 + MANY
      ensures f.slot(key, p) != f.slot(key, q)
    {
      SlotsApart(wide, hash(key), p, q);
    }
    FullSlotsHaveKeys(f, t, key, LINE * 32, MANY);
  }

  /** In this table of 2^31 slots, which holds stored keys only, the key finds no slot within the limit. */
  ghost predicate JammedIn<Key(!new), T(!new)>(keyOf: T -> Key, hash: Key -> nat, wide: Shift, stored: set<Key>,
      f: Probing<Key, T>, t: Table<Key, T>, key: Key)
  {
    && f.keyOf == keyOf && |t.entries| == LARGEST && Follows(f, hash, wide, LARGEST)
    && Ok(f, t) && t.at.Keys <= stored && Crammed(f, t, key, ProbeLimit(LARGEST))
  }

  /** 2^31 slots are not enough: some such table has no slot for one of the keys. */
  ghost predicate Jammed<Key(!new), T(!new)>(keyOf: T -> Key, hash: Key -> nat, wide: Shift, stored: set<Key>,
      wanting: set<Key>)
  {
    exists f, t, key :: key in wanting && JammedIn(keyOf, hash, wide, stored, f, t, key)
  }

  /** That takes hundreds of stored keys. */
  lemma JammedMeansMany<Key(!new), T(!new)>(keyOf: T -> Key, hash: Key -> nat, wide: Shift, stored: set<Key>,
      wanting: set<Key>)
    requires Jammed(keyOf, hash, wide, stored, wanting) && forall k :: hash(k) < LONG
    ensures |stored| >= MANY
  {
    var f, t, key :| key in wanting && JammedIn(keyOf, hash, wide, stored, f, t, key);
    Crowded(f, hash, wide, t, key);
    SubsetSize(t.at.Keys, stored);
  }

  // ---------------------------------------------------------------- doubling capacities

  /** A shift to the left by one, in 64 bits. */
  function Twice(x: nat): (y: nat)
    requires x < LONG
    ensures y < LONG
  {
    if 2 * x < LONG then 2 * x else 2 * x - LONG
  }

  lemma TwiceZeros(x: nat, j: nat)
    requires LowZeros(x, j) && j < 64 && x < LONG
    ensures LowZeros(Twice(x), j + 1)
  {
    if 2 * x < LONG {
      ZerosOfDouble(x, j);
    } else {
      LongIsPower();
      ZerosOfSum(x - LONG / 2, 63, j);
      ZerosOfDouble(x - LONG / 2, j);
    }
  }

  lemma ZerosOfDouble(x: nat, j: nat)
    requires LowZeros(x, j)
    ensures LowZeros(2 * x, j + 1)
  {
    assert 2 * x / 2 == x;
  }

  lemma {:induction false} AllZeros(x: nat, j: nat)
    requires LowZeros(x, j) && x < Bits.Pow2(j)
    ensures x == 0
  {
    if j > 0 {
      AllZeros(x / 2, j - 1);
    }
  }

  /** Doubling leads to zero: each time one more low bit is zero. */
  lemma DoublingEnds(wanted: nat, j: nat)
    requires LowZeros(wanted, j) && j <= 64 && 0 < wanted < LONG
    ensures j < 64 && LowZeros(Twice(wanted), j + 1)
  {
    if j == 64 {
      LongIsPower();
      AllZeros(wanted, j);
    } else {
      TwiceZeros(wanted, j);
    }
  }

  /** 2^32 has 32 of them. */
  lemma WordZeros()
    ensures LowZeros(Bits.WORD, 32)
  {
    Bits.Pow2Literals();
    ZerosOfSum(0, 32, 32);
    ZeroHasZeros(32);
  }

  lemma {:induction false} ZeroHasZeros(j: nat)
    ensures LowZeros(0, j)
  {
    if j > 0 {
      ZeroHasZeros(j - 1);
    }
  }

  lemma LongIsPower()
    ensures Bits.Pow2(64) == LONG && Bits.Pow2(63) == LONG / 2
  {
    Bits.Pow2Literals();
    Bits.PowerProduct(32, 32);
  }

  /** Doubling goes through the sizes of tables up to the largest, then on to multiples of 2^32. */
  lemma Restarts(capacity: nat)
    requires capacity < LONG
    ensures IsSize(capacity) && capacity < LARGEST ==> IsSize(Twice(capacity)) && Twice(capacity) <= LARGEST
    ensures IsSize(capacity) && capacity >= LARGEST ==> LowZeros(Twice(capacity), 32)
    ensures LowZeros(capacity, 32) ==> LowZeros(Twice(capacity), 32)
    ensures 2 * capacity <= LARGEST ==> Twice(capacity) == 2 * capacity
  {
    if LowZeros(capacity, 32) {
      TwiceZeros(capacity, 32);
      FewerZeros(Twice(capacity), 32, 33);
    }
    if IsSize(capacity) {
      SizeFacts(capacity);
      WordZeros();
    }
  }

  /** What a growth from `before` to `after` slots promises, with n objects. */
  ghost predicate Outcome(capacity: nat, before: nat, after: nat, n: nat, ok: bool, jammed: bool, granted: bool) {
    && (ok && capacity <= LARGEST && (IsSize(capacity) || !jammed) ==> after >= capacity)
    && (ok && LowZeros(capacity, 32) ==> n <= LINE)
    && (!ok && granted && before <= capacity <= LARGEST ==> jammed)
  }

  /** The promise for the doubled capacity is enough, once this capacity has failed. */
  lemma OutcomeRestarted(capacity: nat, before: nat, after: nat, n: nat, ok: bool, jammed: bool, granted: bool)
    requires capacity < LONG && Outcome(Twice(capacity), before, after, n, ok, jammed, granted)
    requires (jammed ==> n >= MANY) && (LARGEST < 2 * capacity <= 2 * LARGEST ==> jammed)
    ensures Outcome(capacity, before, after, n, ok, jammed, granted)
  {
    Restarts(capacity);
  }

  // ----------------------------------------------------------------- odd capacities

  /** The capacity after n restarts. */
  function AfterRestarts(capacity: nat, n: nat): (c: nat)
    requires capacity < LONG
    ensures c < LONG
  {
    if n == 0 then capacity else Twice(AfterRestarts(capacity, n - 1))
  }

  lemma {:induction false} OddAfterRestarts(c: nat, n: nat)
    requires c == Bits.Pow2(30) + 1 < LONG && n <= 33
    ensures AfterRestarts(c, n) == Bits.Pow2(30 + n) + Bits.Pow2(n)
  {
    if n > 0 {
      OddAfterRestarts(c, n - 1);
      LongIsPower();
      Bits.Pow2Monotone(30 + n, 63);
      Bits.Pow2Monotone(n, 33);
      assert Bits.Pow2(33) == 2 * Bits.Pow2(32);
      Bits.Pow2Literals();
    }
  }

  /**
  A capacity that is no power of two does not go on to multiples of 2^32: when the
  objects do not fit in 2^31 slots, 2^30 + 1 comes down to every smaller size in turn.
  */
  lemma OddCapacityWraps(c: nat, n: nat)
    requires c == Bits.Pow2(30) + 1 < LONG && 3 <= n <= 31
    ensures SizeFor(c) == LARGEST && SizeFor(AfterRestarts(c, n)) == Bits.Pow2(n)
  {
    FirstOdd(c);
    OddAfterRestarts(c, n);
    LowWord(n);
    SizeOfPower(AfterRestarts(c, n), n);
  }

  lemma LowWord(n: nat)
    requires 3 <= n <= 31
    ensures (Bits.Pow2(30 + n) + Bits.Pow2(n)) % Bits.WORD == Bits.Pow2(n)
  {
    Bits.PowerProduct(n - 2, 32);
    Bits.Pow2Literals();
    Bits.Pow2Monotone(n, 31);
    Bits.DivMod(Bits.Pow2(30 + n) + Bits.Pow2(n), Bits.WORD, Bits.Pow2(n - 2), Bits.Pow2(n));
  }

  lemma SizeOfPower(capacity: nat, n: nat)
    requires 3 <= n <= 31 && capacity % Bits.WORD == Bits.Pow2(n)
    ensures SizeFor(capacity) == Bits.Pow2(n)
  {
    Bits.Pow2Literals();
    Bits.Pow2Monotone(n, 31);
    Bits.Pow2Monotone(3, n);
    Bits.SmallShifts(0);
    LogOfPowerIs(n);
  }

  lemma FirstOdd(c: nat)
    requires c == Bits.Pow2(30) + 1
    ensures SizeFor(c) == LARGEST
  {
    Bits.Pow2Literals();
    assert Bits.Pow2(31) == 2 * Bits.Pow2(30);
    LogBetween(c, 31);
    assert c % Bits.WORD == c;
  }

  lemma LogOfPowerIs(n: nat)
    ensures Bits.CeilLog2(Bits.Pow2(n)) == n
  {
    if n > 0 {
      Bits.Pow2Monotone(0, n - 1);
    }
    LogBetween(Bits.Pow2(n), n);
  }

  lemma LogBetween(x: nat, k: nat)
    requires 1 <= x <= Bits.Pow2(k) && (k > 0 ==> Bits.Pow2(k - 1) < x)
    ensures Bits.CeilLog2(x) == k
  {
    Bits.CeilLog2IsLeast(x);
    var l := Bits.CeilLog2(x);
    if l < k {
      Bits.Pow2Monotone(l, k - 1);
    } else if k < l {
      Bits.Pow2Monotone(k, l - 1);
    }
  }
}
