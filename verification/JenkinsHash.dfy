/**
jenkins_hash (lookup3): the mixing steps, and the hash of a byte string in both
byte orders.
*/
module JenkinsHash {
  type byte = bv8
  type word = bv32

  /** The internal state (a, b, c). */
  datatype Triple = Triple(a: word, b: word, c: word)

  // ---------------------------------------------------------------- mixing

  function Rot(x: word, k: nat): word
    requires 0 < k < 32
  {
    (x << k) | (x >> (32 - k))
  }

  // 32-bit arithmetic; `+` and `-` wrap.

  function Plus(x: word, y: word): word { x + y }

  function Minus(x: word, y: word): word { x - y }

  function Xor(x: word, y: word): word { x ^ y }

  /** a -= c; a ^= r; where r is a rotation of c. */
  function MixA(a: word, c: word, r: word): word { Xor(Minus(a, c), r) }

  function UnmixA(a: word, c: word, r: word): word { Plus(Xor(a, r), c) }

  function Mix(t: Triple): Triple {
    var Triple(a0, b0, c0) := t;
    var a1 := MixA(a0, c0, Rot(c0, 4));
    var c1 := Plus(c0, b0);
    var b1 := MixA(b0, a1, Rot(a1, 6));
    var a2 := Plus(a1, c1);
    var c2 := MixA(c1, b1, Rot(b1, 8));
    var b2 := Plus(b1, a2);
    var a3 := MixA(a2, c2, Rot(c2, 16));
    var c3 := Plus(c2, b2);
    var b3 := MixA(b2, a3, Rot(a3, 19));
    var a4 := Plus(a3, c3);
    var c4 := MixA(c3, b3, Rot(b3, 4));
    var b4 := Plus(b3, a4);
    Triple(a4, b4, c4)
  }

  function Unmix(t: Triple): Triple {
    var Triple(a4, b4, c4) := t;
    var b3 := Minus(b4, a4);
    var c3 := UnmixA(c4, b3, Rot(b3, 4));
    var a3 := Minus(a4, c3);
    var b2 := UnmixA(b3, a3, Rot(a3, 19));
    var c2 := Minus(c3, b2);
    var a2 := UnmixA(a3, c2, Rot(c2, 16));
    var b1 := Minus(b2, a2);
    var c1 := UnmixA(c2, b1, Rot(b1, 8));
    var a1 := Minus(a2, c1);
    var b0 := UnmixA(b1, a1, Rot(a1, 6));
    var c0 := Minus(c1, b0);
    var a0 := UnmixA(a1, c0, Rot(c0, 4));
    Triple(a0, b0, c0)
  }

  /** x ^= y; x -= r; where r is a rotation of y. */
  function FinA(x: word, y: word, r: word): word { Minus(Xor(x, y), r) }

  function UnfinA(x: word, y: word, r: word): word { Xor(Plus(x, r), y) }

  function Final(t: Triple): Triple {
    var Triple(a0, b0, c0) := t;
    var c1 := FinA(c0, b0, Rot(b0, 14));
    var a1 := FinA(a0, c1, Rot(c1, 11));
    var b1 := FinA(b0, a1, Rot(a1, 25));
    var c2 := FinA(c1, b1, Rot(b1, 16));
    var a2 := FinA(a1, c2, Rot(c2, 4));
    var b2 := FinA(b1, a2, Rot(a2, 14));
    var c3 := FinA(c2, b2, Rot(b2, 24));
    Triple(a2, b2, c3)
  }

  function Unfinal(t: Triple): Triple {
    var Triple(a2, b2, c3) := t;
    var c2 := UnfinA(c3, b2, Rot(b2, 24));
    var b1 := UnfinA(b2, a2, Rot(a2, 14));
    var a1 := UnfinA(a2, c2, Rot(c2, 4));
    var c1 := UnfinA(c2, b1, Rot(b1, 16));
    var b0 := UnfinA(b1, a1, Rot(a1, 25));
    var a0 := UnfinA(a1, c1, Rot(c1, 11));
    var c0 := UnfinA(c1, b0, Rot(b0, 14));
    Triple(a0, b0, c0)
  }

  lemma MinusUndoesPlus(x: word, y: word)
    ensures Minus(Plus(x, y), y) == x
  {
    assert Plus(x, y) == x + y && Minus(x + y, y) == (x + y) - y;
  }

  lemma PlusUndoesMinus(x: word, y: word)
    ensures Plus(Minus(x, y), y) == x
  {
    assert Minus(x, y) == x - y && Plus(x - y, y) == (x - y) + y;
  }

  lemma PlusMinus(x: word, y: word)
    ensures Minus(Plus(x, y), y) == x && Plus(Minus(x, y), y) == x
  {
    MinusUndoesPlus(x, y);
    PlusUndoesMinus(x, y);
  }

  lemma XorXor(x: word, y: word)
    ensures Xor(Xor(x, y), y) == x
  {
  }

  lemma MixARound(x: word, c: word, r: word)
    ensures UnmixA(MixA(x, c, r), c, r) == x && MixA(UnmixA(x, c, r), c, r) == x
  {
    XorXor(Minus(x, c), r);
    PlusMinus(x, c);
    PlusMinus(Xor(x, r), c);
    XorXor(x, r);
  }

  lemma FinARound(x: word, y: word, r: word)
    ensures UnfinA(FinA(x, y, r), y, r) == x && FinA(UnfinA(x, y, r), y, r) == x
  {
    PlusMinus(Xor(x, y), r);
    XorXor(x, y);
    XorXor(Plus(x, r), y);
    PlusMinus(x, r);
  }

  lemma MixReversible(t: Triple)
    ensures Unmix(Mix(t)) == t
  {
    var Triple(a0, b0, c0) := t;
    var a1 := MixA(a0, c0, Rot(c0, 4));
    var c1 := Plus(c0, b0);
    var b1 := MixA(b0, a1, Rot(a1, 6));
    var a2 := Plus(a1, c1);
    var c2 := MixA(c1, b1, Rot(b1, 8));
    var b2 := Plus(b1, a2);
    var a3 := MixA(a2, c2, Rot(c2, 16));
    var c3 := Plus(c2, b2);
    var b3 := MixA(b2, a3, Rot(a3, 19));
    var a4 := Plus(a3, c3);
    MixARound(a0, c0, Rot(c0, 4));
    PlusMinus(c0, b0);
    MixARound(b0, a1, Rot(a1, 6));
    PlusMinus(a1, c1);
    MixARound(c1, b1, Rot(b1, 8));
    PlusMinus(b1, a2);
    MixARound(a2, c2, Rot(c2, 16));
    PlusMinus(c2, b2);
    MixARound(b2, a3, Rot(a3, 19));
    PlusMinus(a3, c3);
    MixARound(c3, b3, Rot(b3, 4));
    PlusMinus(b3, a4);
  }

  lemma FinalReversible(t: Triple)
    ensures Unfinal(Final(t)) == t
  {
    var Triple(a0, b0, c0) := t;
    var c1 := FinA(c0, b0, Rot(b0, 14));
    var a1 := FinA(a0, c1, Rot(c1, 11));
    var b1 := FinA(b0, a1, Rot(a1, 25));
    var c2 := FinA(c1, b1, Rot(b1, 16));
    var a2 := FinA(a1, c2, Rot(c2, 4));
    var b2 := FinA(b1, a2, Rot(a2, 14));
    FinARound(c0, b0, Rot(b0, 14));
    FinARound(a0, c1, Rot(c1, 11));
    FinARound(b0, a1, Rot(a1, 25));
    FinARound(c1, b1, Rot(b1, 16));
    FinARound(a1, c2, Rot(c2, 4));
    FinARound(b1, a2, Rot(a2, 14));
    FinARound(c2, b2, Rot(b2, 24));
  }

  lemma UnmixReversible(t: Triple)
    ensures Mix(Unmix(t)) == t
  {
    var Triple(a4, b4, c4) := t;
    var b3 := Minus(b4, a4);
    var c3 := UnmixA(c4, b3, Rot(b3, 4));
    var a3 := Minus(a4, c3);
    var b2 := UnmixA(b3, a3, Rot(a3, 19));
    var c2 := Minus(c3, b2);
    var a2 := UnmixA(a3, c2, Rot(c2, 16));
    var b1 := Minus(b2, a2);
    var c1 := UnmixA(c2, b1, Rot(b1, 8));
    var a1 := Minus(a2, c1);
    var b0 := UnmixA(b1, a1, Rot(a1, 6));
    var c0 := Minus(c1, b0);
    PlusMinus(b4, a4);
    MixARound(c4, b3, Rot(b3, 4));
    PlusMinus(a4, c3);
    MixARound(b3, a3, Rot(a3, 19));
    PlusMinus(c3, b2);
    MixARound(a3, c2, Rot(c2, 16));
    PlusMinus(b2, a2);
    MixARound(c2, b1, Rot(b1, 8));
    PlusMinus(a2, c1);
    MixARound(b1, a1, Rot(a1, 6));
    PlusMinus(c1, b0);
    MixARound(a1, c0, Rot(c0, 4));
  }

  lemma UnfinalReversible(t: Triple)
    ensures Final(Unfinal(t)) == t
  {
    var Triple(a2, b2, c3) := t;
    var c2 := UnfinA(c3, b2, Rot(b2, 24));
    var b1 := UnfinA(b2, a2, Rot(a2, 14));
    var a1 := UnfinA(a2, c2, Rot(c2, 4));
    var c1 := UnfinA(c2, b1, Rot(b1, 16));
    var b0 := UnfinA(b1, a1, Rot(a1, 25));
    FinARound(c3, b2, Rot(b2, 24));
    FinARound(b2, a2, Rot(a2, 14));
    FinARound(a2, c2, Rot(c2, 4));
    FinARound(c2, b1, Rot(b1, 16));
    FinARound(b1, a1, Rot(a1, 25));
    FinARound(a1, c1, Rot(c1, 11));
    FinARound(c1, b0, Rot(b0, 14));
  }

  // ------------------------------------------------------ the hash of a string

  /** The word a machine reads from four bytes in memory order. */
  function WordOf(big: bool, b0: byte, b1: byte, b2: byte, b3: byte): word {
    if big then LeWord(b3, b2, b1, b0) else LeWord(b0, b1, b2, b3)
  }

  function LeWord(b0: byte, b1: byte, b2: byte, b3: byte): word {
    (b0 as word) | ((b1 as word) << 8) | ((b2 as word) << 16) | ((b3 as word) << 24)
  }

  /** Byte i of a block, zero past its end. */
  function At(s: seq<byte>, i: nat): byte {
    if i < |s| then s[i] else 0
  }

  /** A block of at most 12 bytes as three words, padded with zero bytes. */
  function Words(big: bool, s: seq<byte>): Triple {
    Triple(WordOf(big, At(s, 0), At(s, 1), At(s, 2), At(s, 3)),
           WordOf(big, At(s, 4), At(s, 5), At(s, 6), At(s, 7)),
           WordOf(big, At(s, 8), At(s, 9), At(s, 10), At(s, 11)))
  }

  function AddWords(t: Triple, w: Triple): Triple {
    Triple(Plus(t.a, w.a), Plus(t.b, w.b), Plus(t.c, w.c))
  }

  /** Mix in every block but the last, then the last one with the final mixing. */
  function Absorb(big: bool, t: Triple, s: seq<byte>): Triple
    decreases |s|
  {
    if |s| > 12 then Absorb(big, Mix(AddWords(t, Words(big, s[..12]))), s[12..])
    else if s == [] then t
    else Final(AddWords(t, Words(big, s)))
  }

  function Start(length: nat, initval: word): Triple {
    var x := 0xdeadbeef + ((length % 0x1_0000_0000) as word) + initval;
    Triple(x, x, x)
  }

  /** What jenkins_hash leaves in (a, b, c). */
  function HashTriple(big: bool, key: seq<byte>, initval: word): Triple {
    Absorb(big, Start(|key|, initval), key)
  }

  function Hash(big: bool, key: seq<byte>, initval: word): word {
    HashTriple(big, key, initval).c
  }

  // --------------------------------------------- a difference is never mixed away

  lemma LeWordInjective(b0: byte, b1: byte, b2: byte, b3: byte, c0: byte, c1: byte, c2: byte, c3: byte)
    requires LeWord(b0, b1, b2, b3) == LeWord(c0, c1, c2, c3)
    ensures b0 == c0 && b1 == c1 && b2 == c2 && b3 == c3
  {
  }

  lemma WordOfInjective(big: bool, b0: byte, b1: byte, b2: byte, b3: byte, c0: byte, c1: byte, c2: byte, c3: byte)
    requires WordOf(big, b0, b1, b2, b3) == WordOf(big, c0, c1, c2, c3)
    ensures b0 == c0 && b1 == c1 && b2 == c2 && b3 == c3
  {
    if big {
      LeWordInjective(b3, b2, b1, b0, c3, c2, c1, c0);
    } else {
      LeWordInjective(b0, b1, b2, b3, c0, c1, c2, c3);
    }
  }

  lemma WordsInjective(big: bool, x: seq<byte>, y: seq<byte>)
    requires |x| == |y| <= 12 && Words(big, x) == Words(big, y)
    ensures x == y
  {
    WordOfInjective(big, At(x, 0), At(x, 1), At(x, 2), At(x, 3), At(y, 0), At(y, 1), At(y, 2), At(y, 3));
    WordOfInjective(big, At(x, 4), At(x, 5), At(x, 6), At(x, 7), At(y, 4), At(y, 5), At(y, 6), At(y, 7));
    WordOfInjective(big, At(x, 8), At(x, 9), At(x, 10), At(x, 11), At(y, 8), At(y, 9), At(y, 10), At(y, 11));
    forall i | 0 <= i < |x|
      ensures x[i] == y[i]
    {
      assert x[i] == At(x, i) && y[i] == At(y, i);
    }
  }

  lemma PlusCommutes(x: word, y: word)
    ensures Plus(x, y) == Plus(y, x)
  {
  }

  lemma PlusCancels(x: word, y: word, z: word)
    requires Plus(x, z) == Plus(y, z)
    ensures x == y
  {
    MinusUndoesPlus(x, z);
    MinusUndoesPlus(y, z);
  }

  lemma AddWordsApart(t: Triple, u: Triple, w: Triple)
    requires t != u
    ensures AddWords(t, w) != AddWords(u, w) && AddWords(w, t) != AddWords(w, u)
  {
    PlusCommutes(t.a, w.a);
    PlusCommutes(t.b, w.b);
    PlusCommutes(t.c, w.c);
    PlusCommutes(u.a, w.a);
    PlusCommutes(u.b, w.b);
    PlusCommutes(u.c, w.c);
    if AddWords(t, w) == AddWords(u, w) {
      PlusCancels(t.a, u.a, w.a);
      PlusCancels(t.b, u.b, w.b);
      PlusCancels(t.c, u.c, w.c);
    }
  }

  lemma MixApart(t: Triple, u: Triple)
    requires t != u
    ensures Mix(t) != Mix(u) && Final(t) != Final(u)
  {
    MixReversible(t);
    MixReversible(u);
    FinalReversible(t);
    FinalReversible(u);
  }

  /** Different states absorbing the same bytes stay different. */
  lemma {:induction false} StatesStayApart(big: bool, t: Triple, u: Triple, s: seq<byte>)
    requires t != u
    ensures Absorb(big, t, s) != Absorb(big, u, s)
    decreases |s|
  {
    if |s| > 12 {
      var w := Words(big, s[..12]);
      AddWordsApart(t, u, w);
      MixApart(AddWords(t, w), AddWords(u, w));
      StatesStayApart(big, Mix(AddWords(t, w)), Mix(AddWords(u, w)), s[12..]);
    } else if s != [] {
      var w := Words(big, s);
      AddWordsApart(t, u, w);
      MixApart(AddWords(t, w), AddWords(u, w));
    }
  }

  /** x and y differ, but only inside bytes 12 * i .. 12 * i + 12. */
  ghost predicate DifferInBlock(x: seq<byte>, y: seq<byte>, i: nat) {
    && |x| == |y| && x != y
    && forall j :: 0 <= j < |x| && !(12 * i <= j < 12 * i + 12) ==> x[j] == y[j]
  }

  lemma {:induction false} BlockDifferenceShows(big: bool, t: Triple, x: seq<byte>, y: seq<byte>, i: nat)
    requires DifferInBlock(x, y, i)
    ensures Absorb(big, t, x) != Absorb(big, t, y)
    decreases |x|
  {
    if |x| > 12 {
      if i == 0 {
        assert x[12..] == y[12..];
        assert x[..12] != y[..12] by {
          assert x == x[..12] + x[12..] && y == y[..12] + y[12..];
        }
        WordsApart(big, t, x[..12], y[..12]);
        StatesStayApart(big, Mix(AddWords(t, Words(big, x[..12]))), Mix(AddWords(t, Words(big, y[..12]))), x[12..]);
      } else {
        assert x[..12] == y[..12];
        assert DifferInBlock(x[12..], y[12..], i - 1) by {
          assert x == x[..12] + x[12..] && y == y[..12] + y[12..];
        }
        BlockDifferenceShows(big, Mix(AddWords(t, Words(big, x[..12]))), x[12..], y[12..], i - 1);
      }
    } else {
      WordsApart(big, t, x, y);
    }
  }

  lemma WordsApart(big: bool, t: Triple, x: seq<byte>, y: seq<byte>)
    requires |x| == |y| <= 12 && x != y
    ensures Mix(AddWords(t, Words(big, x))) != Mix(AddWords(t, Words(big, y)))
    ensures Final(AddWords(t, Words(big, x))) != Final(AddWords(t, Words(big, y)))
  {
    if Words(big, x) == Words(big, y) {
      WordsInjective(big, x, y);
    }
    AddWordsApart(Words(big, x), Words(big, y), t);
    MixApart(AddWords(t, Words(big, x)), AddWords(t, Words(big, y)));
  }

  /** Keys of one length that differ inside a single block end in different (a, b, c). */
  lemma OneBlockNeverCollides(big: bool, x: seq<byte>, y: seq<byte>, i: nat, initval: word)
    requires DifferInBlock(x, y, i)
    ensures HashTriple(big, x, initval) != HashTriple(big, y, initval)
  {
    BlockDifferenceShows(big, Start(|x|, initval), x, y, i);
  }
}
