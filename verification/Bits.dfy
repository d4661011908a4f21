/**
Straight-line bit tricks: ebpf_roundup_pow_of_two, ck_internal_power_2 and
ck_internal_log, and masking in place of modulo. Words are their unsigned
values; shifts, `|` and `&` are defined bit by bit, and 32-bit wrap-around is
written out.
*/
module Bits {

  const WORD: nat := 0x1_0000_0000   // 2^32

  function Pow2(k: nat): (p: nat)
    ensures p >= 1
  {
    if k == 0 then 1 else 2 * Pow2(k - 1)
  }

  function Or(a: nat, b: nat): nat {
    if a == 0 && b == 0 then 0
    else 2 * Or(a / 2, b / 2) + (if a % 2 == 1 || b % 2 == 1 then 1 else 0)
  }

  function And(a: nat, b: nat): nat {
    if a == 0 || b == 0 then 0
    else 2 * And(a / 2, b / 2) + (if a % 2 == 1 && b % 2 == 1 then 1 else 0)
  }

  function ShiftRight(x: nat, k: nat): nat {
    if k == 0 then x else ShiftRight(x / 2, k - 1)
  }

  /** x |= x >> k. */
  function Smear(x: nat, k: nat): nat {
    Or(x, ShiftRight(x, k))
  }

  function SmearAll(x: nat): nat {
    Smear(Smear(Smear(Smear(Smear(x, 1), 2), 4), 8), 16)
  }

  /** ebpf_roundup_pow_of_two; ck_internal_power_2 has the same body. */
  function RoundUpPow2(n: nat): nat
    requires n < WORD
  {
    (SmearAll((n + WORD - 1) % WORD) + 1) % WORD
  }

  /** q followed by j one bits. */
  function Fill(q: nat, j: nat): nat {
    if j == 0 then q else 2 * Fill(q, j - 1) + 1
  }

  /** The number of bits of x. */
  function BitLength(x: nat): nat {
    if x == 0 then 0 else BitLength(x / 2) + 1
  }

  // ------------------------------------------------------------------ smearing

  lemma {:induction false} ShiftTwice(x: nat, j: nat, k: nat)
    ensures ShiftRight(ShiftRight(x, j), k) == ShiftRight(x, j + k)
  {
    if j > 0 {
      ShiftTwice(x / 2, j - 1, k);
    }
  }

  lemma {:induction false} FillTwice(q: nat, j: nat, k: nat)
    ensures Fill(Fill(q, j), k) == Fill(q, j + k)
  {
    if k > 0 {
      FillTwice(q, j, k - 1);
    }
  }

  lemma {:induction false} OrShift(a: nat, b: nat, k: nat)
    ensures ShiftRight(Or(a, b), k) == Or(ShiftRight(a, k), ShiftRight(b, k))
  {
    if k > 0 {
      assert Or(a, b) / 2 == Or(a / 2, b / 2);
      OrShift(a / 2, b / 2, k - 1);
    }
  }

  lemma {:induction false} OrZero(z: nat)
    ensures Or(z, 0) == z
  {
    if z > 0 {
      OrZero(z / 2);
    }
  }

  /** Or with j ones keeps the higher bits and sets the lower ones. */
  lemma {:induction false} OrOnes(z: nat, j: nat)
    ensures Or(z, Fill(0, j)) == Fill(ShiftRight(z, j), j)
  {
    if j == 0 {
      OrZero(z);
    } else {
      assert Fill(0, j) / 2 == Fill(0, j - 1) && Fill(0, j) % 2 == 1;
      OrOnes(z / 2, j - 1);
    }
  }

  lemma {:induction false} ShiftOut(x: nat, k: nat)
    requires BitLength(x) <= k
    ensures ShiftRight(x, k) == 0
  {
    if k > 0 {
      ShiftOut(x / 2, k - 1);
    }
  }

  lemma {:induction false} LengthOfShift(x: nat, k: nat)
    requires k <= BitLength(x)
    ensures BitLength(ShiftRight(x, k)) == BitLength(x) - k
  {
    if k > 0 {
      LengthOfShift(x / 2, k - 1);
    }
  }

  lemma {:induction false} LengthOfOr(a: nat, b: nat)
    requires BitLength(b) <= BitLength(a)
    ensures BitLength(Or(a, b)) == BitLength(a)
  {
    if a > 0 {
      LengthOfOr(a / 2, b / 2);
      assert Or(a, b) > 0 by {
        assert a % 2 == 1 || Or(a / 2, b / 2) > 0 by {
          if a % 2 == 0 {
            assert BitLength(a / 2) > 0;
          }
        }
      }
      assert Or(a, b) / 2 == Or(a / 2, b / 2);
    }
  }

  /** The top j bits of x are ones. */
  predicate TopOnes(x: nat, j: nat) {
    var n := BitLength(x);
    if j >= n then x == Fill(0, n) else ShiftRight(x, n - j) == Fill(0, j)
  }

  /** Each smear doubles the run of ones at the top. */
  lemma SmearDoubles(x: nat, j: nat)
    requires j > 0 && TopOnes(x, j)
    ensures BitLength(Smear(x, j)) == BitLength(x) && TopOnes(Smear(x, j), 2 * j)
  {
    var n := BitLength(x);
    var y := ShiftRight(x, j);
    if j >= n {
      ShiftOut(x, j);
      OrZero(x);
    } else {
      LengthOfShift(x, j);
      LengthOfOr(x, y);
      if 2 * j >= n {
        // y is the top n - j bits of x, all ones
        ShiftTwice(x, n - j, 2 * j - n);
        ShiftFill(j, 2 * j - n);
        OrOnes(x, n - j);
        FillTwice(0, j, n - j);
      } else {
        var z := ShiftRight(x, n - 2 * j);
        OrShift(x, y, n - 2 * j);
        ShiftTwice(x, j, n - 2 * j);
        OrOnes(z, j);
        ShiftTwice(x, n - 2 * j, j);
        FillTwice(0, j, j);
      }
    }
  }

  lemma {:induction false} ShiftFill(j: nat, k: nat)
    requires k <= j
    ensures ShiftRight(Fill(0, j), k) == Fill(0, j - k)
  {
    if k > 0 {
      assert Fill(0, j) / 2 == Fill(0, j - 1);
      ShiftFill(j - 1, k - 1);
    }
  }

  lemma TopBitIsOne(x: nat)
    ensures TopOnes(x, 1)
  {
    var n := BitLength(x);
    if n > 1 {
      LengthOfShift(x, n - 1);
      assert BitLength(ShiftRight(x, n - 1)) == 1;
    }
  }

  lemma SmearFills(x: nat)
    requires BitLength(x) <= 32
    ensures SmearAll(x) == Fill(0, BitLength(x))
  {
    TopBitIsOne(x);
    SmearDoubles(x, 1);
    var a := Smear(x, 1);
    SmearDoubles(a, 2);
    var b := Smear(a, 2);
    SmearDoubles(b, 4);
    var c := Smear(b, 4);
    SmearDoubles(c, 8);
    SmearDoubles(Smear(c, 8), 16);
  }

  // -------------------------------------------------------- rounding is rounding

  /** The least k with n <= 2^k. */
  function CeilLog2(n: nat): nat
    requires n >= 1
  {
    BitLength(n - 1)
  }

  lemma {:induction false} OnesAndPower(n: nat)
    ensures Fill(0, n) + 1 == Pow2(n)
  {
    if n > 0 {
      OnesAndPower(n - 1);
    }
  }

  lemma {:induction false} BitLengthBounds(x: nat)
    ensures x < Pow2(BitLength(x)) && (x > 0 ==> Pow2(BitLength(x) - 1) <= x)
  {
    if x > 0 {
      BitLengthBounds(x / 2);
    }
  }

  lemma {:induction false} BitLengthMonotone(x: nat, y: nat)
    requires x <= y
    ensures BitLength(x) <= BitLength(y)
  {
    if x > 0 {
      BitLengthMonotone(x / 2, y / 2);
    }
  }

  lemma CeilLog2IsLeast(n: nat)
    requires n >= 1
    ensures n <= Pow2(CeilLog2(n)) && (CeilLog2(n) > 0 ==> Pow2(CeilLog2(n) - 1) < n)
  {
    BitLengthBounds(n - 1);
  }

  lemma BitLengthFrom(x: nat, k: nat)
    ensures BitLength(x) <= k <==> x < Pow2(k)
  {
  }

  lemma Pow2Literals()
    ensures Pow2(31) == 0x8000_0000 && Pow2(32) == WORD
  {
    assert Pow2(8) == 0x100 && Pow2(16) == 0x1_0000 && Pow2(24) == 0x100_0000;
  }

  lemma RoundUpFrom(x: nat)
    requires x < WORD
    ensures SmearAll(x) + 1 == Pow2(BitLength(x))
  {
    Pow2Literals();
    BitLengthFrom(x, 32);
    SmearFills(x);
    OnesAndPower(BitLength(x));
  }

  lemma InsideRange(x: nat)
    requires x < 0x8000_0000
    ensures BitLength(x) <= 31 && Pow2(BitLength(x)) < WORD
  {
    Pow2Literals();
    BitLengthFrom(x, 31);
    Pow2Monotone(BitLength(x), 31);
  }

  lemma OutsideRange(x: nat)
    requires 0x8000_0000 <= x < WORD
    ensures Pow2(BitLength(x)) == WORD
  {
    Pow2Literals();
    BitLengthFrom(x, 31);
    BitLengthFrom(x, 32);
  }

  /** x is n - 1 on 32 bits, y the rounded result. */
  lemma RoundUpResult(n: nat, x: nat, y: nat)
    requires n < WORD && x == (if n == 0 then WORD - 1 else n - 1)
    requires y == if Pow2(BitLength(x)) == WORD then 0 else Pow2(BitLength(x))
    ensures y == if 1 <= n <= 0x8000_0000 then Pow2(CeilLog2(n)) else 0
    ensures 1 <= n <= 0x8000_0000 ==> CeilLog2(n) <= 31
  {
    if 1 <= n <= 0x8000_0000 {
      InsideRange(x);
    } else {
      OutsideRange(x);
    }
  }

  lemma WrapFacts(n: nat, p: nat)
    requires n < WORD && p <= WORD
    ensures (n + WORD - 1) % WORD == if n == 0 then WORD - 1 else n - 1
    ensures p % WORD == if p == WORD then 0 else p
  {
  }

  lemma PowerFits(x: nat)
    requires x < WORD
    ensures Pow2(BitLength(x)) <= WORD
  {
    Pow2Literals();
    BitLengthFrom(x, 32);
    Pow2Monotone(BitLength(x), 32);
  }

  /** Rounding gives the least power of two not below n exactly when 1 <= n <= 2^31;
      outside that range it gives 0. */
  lemma RoundUpExact(n: nat)
    requires n < WORD
    ensures RoundUpPow2(n) == if 1 <= n <= 0x8000_0000 then Pow2(CeilLog2(n)) else 0
    ensures 1 <= n <= 0x8000_0000 ==> CeilLog2(n) <= 31
  {
    var x := (n + WORD - 1) % WORD;
    RoundUpFrom(x);
    PowerFits(x);
    WrapFacts(n, SmearAll(x) + 1);
    RoundUpResult(n, x, (SmearAll(x) + 1) % WORD);
  }

  lemma OrDouble(a: nat, x: nat, b: nat, y: nat)
    requires x < 2 && y < 2
    ensures Or(2 * a + x, 2 * b + y) == 2 * Or(a, b) + (if x == 1 || y == 1 then 1 else 0)
  {
    assert (2 * a + x) / 2 == a && (2 * b + y) / 2 == b;
  }

  function ShiftLeft(q: nat, k: nat): nat {
    if k == 0 then q else 2 * ShiftLeft(q, k - 1)
  }

  /** Bits below those of a shifted number join it by addition. */
  lemma {:induction false} OrLow(q: nat, m: nat, k: nat)
    requires m < Pow2(k)
    ensures Or(ShiftLeft(q, k), m) == ShiftLeft(q, k) + m
  {
    if k == 0 {
      OrZero(q);
    } else {
      OrLow(q, m / 2, k - 1);
      OrDouble(ShiftLeft(q, k - 1), 0, m / 2, m % 2);
    }
  }

  /** Setting bit k, which is clear, adds 2^k. */
  lemma {:induction false} OrBit(q: nat, m: nat, k: nat)
    requires m < Pow2(k)
    ensures Or(ShiftLeft(q, k + 1) + m, Pow2(k)) == ShiftLeft(q, k + 1) + m + Pow2(k)
  {
    if k == 0 {
      OrZero(q);
      OrDouble(q, 0, 0, 1);
    } else {
      OrBit(q, m / 2, k - 1);
      OrDouble(ShiftLeft(q, k) + m / 2, m % 2, Pow2(k - 1), 0);
    }
  }

  /** The rounding itself: the least power of two that is no smaller, when it fits in 32 bits. */
  method RoundUp(n: nat) returns (r: nat)
    requires n < WORD
    ensures r == if 1 <= n <= 0x8000_0000 then Pow2(CeilLog2(n)) else 0
  {
    r := RoundUpPow2(n);
    RoundUpExact(n);
  }

  lemma {:induction false} Pow2Monotone(j: nat, k: nat)
    requires j <= k
    ensures Pow2(j) <= Pow2(k)
  {
    if j < k {
      Pow2Monotone(j, k - 1);
    }
  }

  // -------------------------------------------------------------------- masking

  lemma DivMod(x: nat, d: nat, q: nat, m: nat)
    requires d > 0 && x == q * d + m && m < d
    ensures x / d == q && x % d == m
  {
    var e := x / d - q;
    assert e * d == m - x % d;
    assert e > 0 ==> e * d >= d;
    assert e < 0 ==> e * d <= -1 * d;
  }

  /** Numbers less than m apart have the same remainder only if they are equal. */
  lemma SameModulo(a: nat, b: nat, m: nat)
    requires m > 0 && a <= b < a + m && a % m == b % m
    ensures a == b
  {
    var q, r, d := a / m, a % m, b - a;
    if r + d < m {
      DivMod(b, m, q, r + d);
    } else {
      assert b == (q + 1) * m + (r + d - m);
      DivMod(b, m, q + 1, r + d - m);
    }
  }

  lemma Regroup(k: nat, r: nat, p: nat, q: nat)
    ensures k * (r * p) + q * p == (k * r + q) * p
  {
    assert k * (r * p) == (k * r) * p;
    assert (k * r) * p + q * p == (k * r + q) * p;
  }

  lemma ModuloRegrouped(x: nat, k: nat, r: nat, p: nat, q: nat, n: nat)
    requires p > 0 && n < p && x == k * (r * p) + (q * p + n)
    ensures x % p == n
  {
    Regroup(k, r, p, q);
    DivMod(x, p, k * r + q, n);
  }

  /** A remainder by a multiple of p keeps the remainder by p. */
  lemma ModuloOfMultiple(x: nat, r: nat, p: nat)
    requires r > 0 && p > 0 && r * p > 0
    ensures (x % (r * p)) % p == x % p
  {
    var m := x % (r * p);
    ModuloRegrouped(x, x / (r * p), r, p, m / p, m % p);
  }

  lemma {:induction false} PowerProduct(i: nat, j: nat)
    ensures Pow2(i + j) == Pow2(i) * Pow2(j)
  {
    if i > 0 {
      PowerProduct(i - 1, j);
    }
  }

  lemma {:induction false} AndBound(a: nat, b: nat)
    ensures And(a, b) <= b
  {
    if a > 0 && b > 0 {
      AndBound(a / 2, b / 2);
    }
  }

  lemma ModuloDouble(h: nat, p: nat)
    requires p > 0
    ensures h % (2 * p) == 2 * (h / 2 % p) + h % 2
  {
    var q, m := h / 2 / p, h / 2 % p;
    assert h == q * (2 * p) + (2 * m + h % 2);
    DivMod(h, 2 * p, q, 2 * m + h % 2);
  }

  lemma MaskStep(h: nat, p: nat)
    requires p > 0
    ensures And(h, 2 * p - 1) == 2 * And(h / 2, p - 1) + h % 2
  {
    assert (2 * p - 1) / 2 == p - 1 && (2 * p - 1) % 2 == 1;
  }

  lemma MaskDouble(h: nat, p: nat)
    requires p > 0 && And(h / 2, p - 1) == h / 2 % p
    ensures And(h, 2 * p - 1) == h % (2 * p)
  {
    MaskStep(h, p);
    ModuloDouble(h, p);
  }

  /** Masking with 2^k - 1 is the remainder by 2^k. */
  lemma {:induction false} MaskIsModulo(h: nat, k: nat)
    ensures And(h, Pow2(k) - 1) == h % Pow2(k)
  {
    if k > 0 {
      MaskIsModulo(h / 2, k - 1);
      MaskDouble(h, Pow2(k - 1));
      assert Pow2(k) == 2 * Pow2(k - 1);
    }
  }

  // ------------------------------------------------------------------ logarithm

  function Flag(on: bool): nat {
    if on then 1 else 0
  }

  /** The number with the given binary digits. */
  function Number(b0: bool, b1: bool, b2: bool, b3: bool, b4: bool): nat {
    Flag(b0) + 2 * Flag(b1) + 4 * Flag(b2) + 8 * Flag(b3) + 16 * Flag(b4)
  }

  /** The flags shifted to their places and joined, in the order of the code. */
  function Joined(b0: bool, b1: bool, b2: bool, b3: bool, b4: bool): nat {
    Or(Or(Or(Or(Flag(b0), 16 * Flag(b4)), 8 * Flag(b3)), 4 * Flag(b2)), 2 * Flag(b1))
  }

  /** ck_internal_log. */
  function Log(v: nat): nat {
    Joined(And(v, 0xAAAA_AAAA) != 0, And(v, 0xCCCC_CCCC) != 0, And(v, 0xF0F0_F0F0) != 0,
           And(v, 0xFF00_FF00) != 0, And(v, 0xFFFF_0000) != 0)
  }

  /** Bit k of x. */
  function BitAt(x: nat, k: nat): nat {
    ShiftRight(x, k) % 2
  }

  lemma {:induction false} PowerTestsBit(k: nat, m: nat)
    ensures And(Pow2(k), m) != 0 <==> BitAt(m, k) == 1
  {
    if k == 0 {
      assert And(0, m / 2) == 0;
    } else if m == 0 {
      ShiftOut(0, k);
    } else {
      assert Pow2(k) / 2 == Pow2(k - 1) && Pow2(k) % 2 == 0;
      PowerTestsBit(k - 1, m / 2);
    }
  }

  lemma HalfOfSum(x: nat, y: nat, p: nat)
    ensures (x + y * (2 * p)) / 2 == x / 2 + y * p
    ensures (x + y * (2 * p)) % 2 == x % 2
  {
    assert y * (2 * p) == 2 * (y * p);
  }

  /** Below bit n, adding a multiple of 2^n changes nothing. */
  lemma {:induction false} LowBits(x: nat, y: nat, k: nat, n: nat)
    requires k < n
    ensures BitAt(x + y * Pow2(n), k) == BitAt(x, k)
  {
    HalfOfSum(x, y, Pow2(n - 1));
    if k > 0 {
      LowBits(x / 2, y, k - 1, n - 1);
    }
  }

  lemma {:induction false} HighBits(x: nat, y: nat, n: nat)
    requires x < Pow2(n)
    ensures ShiftRight(x + y * Pow2(n), n) == y
  {
    if n > 0 {
      HalfOfSum(x, y, Pow2(n - 1));
      HighBits(x / 2, y, n - 1);
    }
  }

  /** The value of a word given by its nibbles, lowest first. */
  function FromNibbles(s: seq<nat>): nat {
    if s == [] then 0 else s[0] + FromNibbles(s[1..]) * 16
  }

  lemma {:induction false} NibbleBit(s: seq<nat>, k: nat)
    requires k < 4 * |s| && forall i :: 0 <= i < |s| ==> s[i] < 16
    ensures BitAt(FromNibbles(s), k) == BitAt(s[k / 4], k % 4)
  {
    assert Pow2(4) == 16;
    var rest := FromNibbles(s[1..]);
    if k < 4 {
      LowBits(s[0], rest, k, 4);
    } else {
      HighBits(s[0], rest, 4);
      ShiftTwice(s[0] + rest * 16, 4, k - 4);
      NibbleBit(s[1..], k - 4);
      assert s[1..][(k - 4) / 4] == s[k / 4];
    }
  }

  lemma EightNibbles(a: nat, b: nat, c: nat, d: nat, e: nat, f: nat, g: nat, h: nat)
    ensures FromNibbles([a, b, c, d, e, f, g, h])
         == a + 16 * (b + 16 * (c + 16 * (d + 16 * (e + 16 * (f + 16 * (g + 16 * h))))))
  {
    assert FromNibbles([h]) == h + FromNibbles([]) * 16;
    assert FromNibbles([g, h]) == g + FromNibbles([g, h][1..]) * 16 && [g, h][1..] == [h];
    assert [f, g, h][1..] == [g, h] && [e, f, g, h][1..] == [f, g, h] && [d, e, f, g, h][1..] == [e, f, g, h];
    assert FromNibbles([f, g, h]) == f + FromNibbles([g, h]) * 16;
    assert FromNibbles([e, f, g, h]) == e + FromNibbles([f, g, h]) * 16;
    assert FromNibbles([d, e, f, g, h]) == d + FromNibbles([e, f, g, h]) * 16;
    assert [c, d, e, f, g, h][1..] == [d, e, f, g, h] && [b, c, d, e, f, g, h][1..] == [c, d, e, f, g, h];
    assert FromNibbles([c, d, e, f, g, h]) == c + FromNibbles([d, e, f, g, h]) * 16;
    assert FromNibbles([b, c, d, e, f, g, h]) == b + FromNibbles([c, d, e, f, g, h]) * 16;
    assert [a, b, c, d, e, f, g, h][1..] == [b, c, d, e, f, g, h];
  }

  lemma NibbleLiterals(j: nat)
    requires j < 4
    ensures BitAt(0, j) == 0 && BitAt(0xF, j) == 1 && BitAt(0xA, j) == j % 2 && BitAt(0xC, j) == j / 2 % 2
  {
    assert BitAt(0, 0) == 0 && BitAt(0, 1) == 0 && BitAt(0, 2) == 0 && BitAt(0, 3) == 0;
    assert BitAt(0xF, 0) == 1 && BitAt(0xF, 1) == 1 && BitAt(0xF, 2) == 1 && BitAt(0xF, 3) == 1;
    assert BitAt(0xA, 0) == 0 && BitAt(0xA, 1) == 1 && BitAt(0xA, 2) == 0 && BitAt(0xA, 3) == 1;
    assert BitAt(0xC, 0) == 0 && BitAt(0xC, 1) == 0 && BitAt(0xC, 2) == 1 && BitAt(0xC, 3) == 1;
  }

  /** Bit 4 * q + j of a 32-bit word given by its eight nibbles. */
  lemma WordBit(s: seq<nat>, q: nat, j: nat)
    requires |s| == 8 && q < 8 && j < 4 && forall i :: 0 <= i < |s| ==> s[i] < 16
    ensures var high := s[4] + 16 * (s[5] + 16 * (s[6] + 16 * s[7]));
      BitAt(s[0] + 16 * (s[1] + 16 * (s[2] + 16 * (s[3] + 16 * high))), 4 * q + j) == BitAt(s[q], j)
  {
    EightNibbles(s[0], s[1], s[2], s[3], s[4], s[5], s[6], s[7]);
    assert s == [s[0], s[1], s[2], s[3], s[4], s[5], s[6], s[7]];
    NibbleBit(s, 4 * q + j);
    assert (4 * q + j) / 4 == q && (4 * q + j) % 4 == j;
  }

  // The five masks single out the five bits of the exponent.

  lemma Mask0Bit(b0: bool, b1: bool, b2: bool, b3: bool, b4: bool)
    ensures BitAt(0xAAAA_AAAA, Number(b0, b1, b2, b3, b4)) == Flag(b0)
  {
    var q, j := Flag(b2) + 2 * Flag(b3) + 4 * Flag(b4), Flag(b0) + 2 * Flag(b1);
    WordBit([0xA, 0xA, 0xA, 0xA, 0xA, 0xA, 0xA, 0xA], q, j);
    NibbleLiterals(j);
    assert Number(b0, b1, b2, b3, b4) == 4 * q + j;
  }

  lemma Mask1Bit(b0: bool, b1: bool, b2: bool, b3: bool, b4: bool)
    ensures BitAt(0xCCCC_CCCC, Number(b0, b1, b2, b3, b4)) == Flag(b1)
  {
    var q, j := Flag(b2) + 2 * Flag(b3) + 4 * Flag(b4), Flag(b0) + 2 * Flag(b1);
    WordBit([0xC, 0xC, 0xC, 0xC, 0xC, 0xC, 0xC, 0xC], q, j);
    NibbleLiterals(j);
    assert Number(b0, b1, b2, b3, b4) == 4 * q + j;
  }

  lemma Mask2Bit(b0: bool, b1: bool, b2: bool, b3: bool, b4: bool)
    ensures BitAt(0xF0F0_F0F0, Number(b0, b1, b2, b3, b4)) == Flag(b2)
  {
    var q, j := Flag(b2) + 2 * Flag(b3) + 4 * Flag(b4), Flag(b0) + 2 * Flag(b1);
    WordBit([0, 0xF, 0, 0xF, 0, 0xF, 0, 0xF], q, j);
    NibbleLiterals(j);
    assert Number(b0, b1, b2, b3, b4) == 4 * q + j;
  }

  lemma Mask3Bit(b0: bool, b1: bool, b2: bool, b3: bool, b4: bool)
    ensures BitAt(0xFF00_FF00, Number(b0, b1, b2, b3, b4)) == Flag(b3)
  {
    var q, j := Flag(b2) + 2 * Flag(b3) + 4 * Flag(b4), Flag(b0) + 2 * Flag(b1);
    WordBit([0, 0, 0xF, 0xF, 0, 0, 0xF, 0xF], q, j);
    NibbleLiterals(j);
    assert Number(b0, b1, b2, b3, b4) == 4 * q + j;
  }

  lemma Mask4Bit(b0: bool, b1: bool, b2: bool, b3: bool, b4: bool)
    ensures BitAt(0xFFFF_0000, Number(b0, b1, b2, b3, b4)) == Flag(b4)
  {
    var q, j := Flag(b2) + 2 * Flag(b3) + 4 * Flag(b4), Flag(b0) + 2 * Flag(b1);
    WordBit([0, 0, 0, 0, 0xF, 0xF, 0xF, 0xF], q, j);
    NibbleLiterals(j);
    assert Number(b0, b1, b2, b3, b4) == 4 * q + j;
  }

  /** Testing a power of two against the five masks gives the bits of its exponent. */
  lemma MaskFlags(b0: bool, b1: bool, b2: bool, b3: bool, b4: bool)
    ensures var v := Pow2(Number(b0, b1, b2, b3, b4));
      && (And(v, 0xAAAA_AAAA) != 0) == b0 && (And(v, 0xCCCC_CCCC) != 0) == b1
      && (And(v, 0xF0F0_F0F0) != 0) == b2 && (And(v, 0xFF00_FF00) != 0) == b3
      && (And(v, 0xFFFF_0000) != 0) == b4
  {
    var k := Number(b0, b1, b2, b3, b4);
    PowerTestsBit(k, 0xAAAA_AAAA);
    Mask0Bit(b0, b1, b2, b3, b4);
    PowerTestsBit(k, 0xCCCC_CCCC);
    Mask1Bit(b0, b1, b2, b3, b4);
    PowerTestsBit(k, 0xF0F0_F0F0);
    Mask2Bit(b0, b1, b2, b3, b4);
    PowerTestsBit(k, 0xFF00_FF00);
    Mask3Bit(b0, b1, b2, b3, b4);
    PowerTestsBit(k, 0xFFFF_0000);
    Mask4Bit(b0, b1, b2, b3, b4);
  }

  lemma Digits(k: nat) returns (b0: bool, b1: bool, b2: bool, b3: bool, b4: bool)
    requires k < 32
    ensures k == Number(b0, b1, b2, b3, b4)
  {
    var h1, h2, h3 := k / 2, k / 4, k / 8;
    b0 := k != 2 * h1;
    b1 := h1 != 2 * h2;
    b2 := h2 != 2 * h3;
    b3 := h3 == 1 || h3 == 3;
    b4 := h3 >= 2;
  }

  lemma SmallShifts(q: nat)
    ensures ShiftLeft(q, 2) == 4 * q && ShiftLeft(q, 3) == 8 * q
    ensures ShiftLeft(q, 4) == 16 * q && ShiftLeft(q, 5) == 32 * q
    ensures Pow2(1) == 2 && Pow2(2) == 4 && Pow2(3) == 8 && Pow2(4) == 16
  {
    assert ShiftLeft(q, 1) == 2 * ShiftLeft(q, 0);
    assert ShiftLeft(q, 2) == 2 * ShiftLeft(q, 1);
    assert ShiftLeft(q, 3) == 2 * ShiftLeft(q, 2);
    assert ShiftLeft(q, 4) == 2 * ShiftLeft(q, 3);
  }

  /** A flag shifted to a clear bit is added. */
  lemma SetBitIf(x: nat, q: nat, m: nat, k: nat, flag: nat)
    requires m < 2 && 1 <= k <= 4 && flag < 2 && x == ShiftLeft(q, k + 1) + m
    ensures Or(x, Pow2(k) * flag) == x + Pow2(k) * flag
  {
    if flag == 1 {
      Pow2Monotone(1, k);
      OrBit(q, m, k);
      assert Pow2(k) * flag == Pow2(k);
    } else {
      OrZero(x);
      assert Pow2(k) * flag == 0;
    }
  }

  lemma SetBit4(x: nat, flag: nat)
    requires x < 2 && flag < 2
    ensures Or(x, 16 * flag) == x + 16 * flag
  {
    SmallShifts(0);
    SetBitIf(x, 0, x, 4, flag);
  }

  lemma SetBit3(x: nat, q: nat, m: nat, flag: nat)
    requires x == m + 16 * q && m < 2 && flag < 2
    ensures Or(x, 8 * flag) == x + 8 * flag
  {
    SmallShifts(q);
    SetBitIf(x, q, m, 3, flag);
  }

  lemma SetBit2(x: nat, q: nat, m: nat, flag: nat)
    requires x == m + 8 * q && m < 2 && flag < 2
    ensures Or(x, 4 * flag) == x + 4 * flag
  {
    SmallShifts(q);
    SetBitIf(x, q, m, 2, flag);
  }

  lemma SetBit1(x: nat, q: nat, m: nat, flag: nat)
    requires x == m + 4 * q && m < 2 && flag < 2
    ensures Or(x, 2 * flag) == x + 2 * flag
  {
    SmallShifts(q);
    SetBitIf(x, q, m, 1, flag);
  }

  lemma JoinHigh(b0: bool, b3: bool, b4: bool)
    ensures Or(Or(Flag(b0), 16 * Flag(b4)), 8 * Flag(b3)) == Flag(b0) + 16 * Flag(b4) + 8 * Flag(b3)
  {
    SetBit4(Flag(b0), Flag(b4));
    SetBit3(Flag(b0) + 16 * Flag(b4), Flag(b4), Flag(b0), Flag(b3));
  }

  lemma JoinLow(x: nat, q: nat, b0: bool, b1: bool, b2: bool)
    requires x == Flag(b0) + 8 * q
    ensures Or(Or(x, 4 * Flag(b2)), 2 * Flag(b1)) == x + 4 * Flag(b2) + 2 * Flag(b1)
  {
    SetBit2(x, q, Flag(b0), Flag(b2));
    SetBit1(x + 4 * Flag(b2), 2 * q + Flag(b2), Flag(b0), Flag(b1));
  }

  /** The shifted flags share no bit, so joining them is adding them. */
  lemma JoinedIsNumber(b0: bool, b1: bool, b2: bool, b3: bool, b4: bool)
    ensures Joined(b0, b1, b2, b3, b4) == Number(b0, b1, b2, b3, b4)
  {
    JoinHigh(b0, b3, b4);
    var x := Flag(b0) + 16 * Flag(b4) + 8 * Flag(b3);
    JoinLow(x, 2 * Flag(b4) + Flag(b3), b0, b1, b2);
  }

  /** ck_internal_log recovers the exponent of a power of two. */
  lemma LogOfPower(k: nat)
    requires k < 32
    ensures Log(Pow2(k)) == k
  {
    var b0, b1, b2, b3, b4 := Digits(k);
    MaskFlags(b0, b1, b2, b3, b4);
    JoinedIsNumber(b0, b1, b2, b3, b4);
  }
}
