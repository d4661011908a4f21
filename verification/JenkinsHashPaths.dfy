/**
The read paths of jenkins_hash: 32-bit words when the key is 4-aligned, 16-bit
words when it is 2-aligned (little-endian only), bytes otherwise. Each computes
the hash of the key's bytes; the aligned path may read the rest of the last
word, and what it finds there does not matter.

A path gets the memory from the key on; `k` is its read position, in bytes.
*/
module JenkinsHashPaths {
  import opened JenkinsHash

  // --------------------------------------------------------------- reading bytes

  function Shl0(b: byte): word { b as word }

  function Shl8(b: byte): word { (b as word) << 8 }

  function Shl16(b: byte): word { (b as word) << 16 }

  function Shl24(b: byte): word { (b as word) << 24 }

  /** a += b0; a += b1 << 8; a += b2 << 16; a += b3 << 24; */
  function AddUp(a: word, b0: byte, b1: byte, b2: byte, b3: byte): word {
    Plus(Plus(Plus(Plus(a, Shl0(b0)), Shl8(b1)), Shl16(b2)), Shl24(b3))
  }

  /** The same additions, highest byte first. */
  function AddDown(a: word, b0: byte, b1: byte, b2: byte, b3: byte): word {
    Plus(Plus(Plus(Plus(a, Shl24(b3)), Shl16(b2)), Shl8(b1)), Shl0(b0))
  }

  lemma PlusAssociates(x: word, y: word, z: word)
    ensures Plus(Plus(x, y), z) == Plus(x, Plus(y, z))
  {
    assert Plus(x, y) == x + y && Plus(x + y, z) == x + y + z;
    assert Plus(y, z) == y + z && Plus(x, y + z) == x + (y + z);
  }

  /** Shifted bytes do not overlap, so adding them is joining them. */
  lemma BytesSum(b0: byte, b1: byte, b2: byte, b3: byte)
    ensures Plus(Shl0(b0), Plus(Shl8(b1), Plus(Shl16(b2), Shl24(b3)))) == LeWord(b0, b1, b2, b3)
  {
  }

  /** Adding four words one by one, in either order, is adding their sum. */
  lemma AddFour(a: word, w: word, x: word, y: word, z: word)
    ensures Plus(Plus(Plus(Plus(a, w), x), y), z) == Plus(a, Plus(w, Plus(x, Plus(y, z))))
    ensures Plus(Plus(Plus(Plus(a, z), y), x), w) == Plus(a, Plus(w, Plus(x, Plus(y, z))))
  {
    calc {
      Plus(Plus(Plus(Plus(a, w), x), y), z);
      { PlusAssociates(Plus(Plus(a, w), x), y, z); }
      Plus(Plus(Plus(a, w), x), Plus(y, z));
      { PlusAssociates(Plus(a, w), x, Plus(y, z)); }
      Plus(Plus(a, w), Plus(x, Plus(y, z)));
      { PlusAssociates(a, w, Plus(x, Plus(y, z))); }
      Plus(a, Plus(w, Plus(x, Plus(y, z))));
    }
    calc {
      Plus(Plus(Plus(Plus(a, z), y), x), w);
      { PlusAssociates(a, z, y); PlusCommutes(z, y); }
      Plus(Plus(Plus(a, Plus(y, z)), x), w);
      { PlusAssociates(a, Plus(y, z), x); PlusCommutes(Plus(y, z), x); }
      Plus(Plus(a, Plus(x, Plus(y, z))), w);
      { PlusAssociates(a, Plus(x, Plus(y, z)), w); PlusCommutes(Plus(x, Plus(y, z)), w); }
      Plus(a, Plus(w, Plus(x, Plus(y, z))));
    }
  }

  lemma AddingBytes(a: word, b0: byte, b1: byte, b2: byte, b3: byte)
    ensures AddUp(a, b0, b1, b2, b3) == Plus(a, LeWord(b0, b1, b2, b3))
    ensures AddDown(a, b0, b1, b2, b3) == Plus(a, LeWord(b0, b1, b2, b3))
  {
    BytesSum(b0, b1, b2, b3);
    AddFour(a, Shl0(b0), Shl8(b1), Shl16(b2), Shl24(b3));
  }

  // ------------------------------------------------------------- block by block

  lemma NextBlock(big: bool, t: Triple, mem: seq<byte>, k: nat, length: nat)
    requires k + 12 < length <= |mem|
    ensures Absorb(big, t, mem[k..length])
      == Absorb(big, Mix(AddWords(t, Words(big, mem[k..k + 12]))), mem[k + 12..length])
  {
    assert mem[k..length][..12] == mem[k..k + 12];
    assert mem[k..length][12..] == mem[k + 12..length];
  }

  function And(x: word, y: word): word { x & y }

  lemma MaskHigh3(b0: byte, b1: byte, b2: byte, b3: byte)
    ensures And(LeWord(b3, b2, b1, b0), 0xffffff00) == LeWord(0, b2, b1, b0)
  {
  }

  lemma MaskHigh2(b0: byte, b1: byte, b2: byte, b3: byte)
    ensures And(LeWord(b3, b2, b1, b0), 0xffff0000) == LeWord(0, 0, b1, b0)
  {
  }

  lemma MaskHigh1(b0: byte, b1: byte, b2: byte, b3: byte)
    ensures And(LeWord(b3, b2, b1, b0), 0xff000000) == LeWord(0, 0, 0, b0)
  {
  }

  /** The mask that keeps the first n bytes of a word in memory. */
  function Mask(big: bool, n: nat): word {
    if big then MaskHigh(n) else MaskLow(n)
  }

  function MaskLow(n: nat): word { if n == 3 then 0xffffff else if n == 2 then 0xffff else 0xff }

  function MaskHigh(n: nat): word { if n == 3 then 0xffffff00 else if n == 2 then 0xffff0000 else 0xff000000 }

  lemma LittleMasked(n: nat, b0: byte, b1: byte, b2: byte, b3: byte)
    requires 1 <= n <= 3
    ensures And(LeWord(b0, b1, b2, b3), MaskLow(n)) == LeWord(b0, Keep(n > 1, b1), Keep(n > 2, b2), 0)
  {
  }

  lemma BigMasked(n: nat, b0: byte, b1: byte, b2: byte, b3: byte)
    requires 1 <= n <= 3
    ensures And(LeWord(b3, b2, b1, b0), MaskHigh(n)) == LeWord(0, Keep(n > 2, b2), Keep(n > 1, b1), b0)
  {
    if n == 3 {
      MaskHigh3(b0, b1, b2, b3);
    } else if n == 2 {
      MaskHigh2(b0, b1, b2, b3);
    } else {
      MaskHigh1(b0, b1, b2, b3);
    }
  }

  /** Masking with n bytes drops exactly the bytes past the first n. */
  lemma Masked(big: bool, n: nat, b0: byte, b1: byte, b2: byte, b3: byte)
    requires 1 <= n <= 3
    ensures And(WordOf(big, b0, b1, b2, b3), Mask(big, n)) == WordOf(big, b0, Keep(n > 1, b1), Keep(n > 2, b2), 0)
  {
    if big {
      BigMasked(n, b0, b1, b2, b3);
    } else {
      LittleMasked(n, b0, b1, b2, b3);
    }
  }

  function Keep(yes: bool, b: byte): byte { if yes then b else 0 }

  // ------------------------------------------------------------ words of a block

  /** The first n of the four bytes at o as a word, the others zero. */
  function Padded(big: bool, mem: seq<byte>, o: nat, n: int): word {
    WordOf(big, Keep(n > 0, At(mem, o)), Keep(n > 1, At(mem, o + 1)),
           Keep(n > 2, At(mem, o + 2)), Keep(n > 3, At(mem, o + 3)))
  }

  lemma WordsInParts(big: bool, mem: seq<byte>, k: nat, len: nat)
    requires len <= 12 && k + len <= |mem|
    ensures Words(big, mem[k..k + len])
         == Triple(Padded(big, mem, k, len), Padded(big, mem, k + 4, len - 4), Padded(big, mem, k + 8, len - 8))
  {
    var s := mem[k..k + len];
    assert forall i: nat :: At(s, i) == Keep(len > i, At(mem, k + i));
  }

  lemma PlusZero(x: word)
    ensures Plus(x, 0) == x
  {
  }

  lemma NothingToAdd(big: bool, mem: seq<byte>, o: nat, n: int, x: word)
    requires n <= 0
    ensures Plus(x, Padded(big, mem, o, n)) == x
  {
  }

  // ------------------------------------------------------------- the read paths

  datatype Path = Words32 | Words16 | Bytes

  /** What the path may read when n bytes of the key are left at o. */
  predicate Readable(path: Path, mem: seq<byte>, o: nat, n: int) {
    n <= 0 || o + (if path.Words32? || n > 4 then 4 else n) <= |mem|
  }

  function Read32(big: bool, mem: seq<byte>, o: nat): word
    requires o + 4 <= |mem|
  {
    WordOf(big, mem[o], mem[o + 1], mem[o + 2], mem[o + 3])
  }

  /** A little-endian 16-bit read, widened. */
  function Half(b0: byte, b1: byte): word { (b0 as word) | ((b1 as word) << 8) }

  function Up16(x: word): word { x << 16 }

  lemma HalvesJoin(b0: byte, b1: byte, b2: byte, b3: byte)
    ensures Plus(Half(b0, b1), Up16(Half(b2, b3))) == LeWord(b0, b1, b2, b3)
  {
  }

  lemma HalfAndByte(b0: byte, b1: byte, b2: byte)
    ensures Plus(Shl16(b2), Half(b0, b1)) == LeWord(b0, b1, b2, 0)
  {
  }

  lemma HalfAlone(b0: byte, b1: byte)
    ensures Half(b0, b1) == LeWord(b0, b1, 0, 0)
  {
  }

  lemma ByteAlone(b0: byte)
    ensures Shl0(b0) == LeWord(b0, 0, 0, 0)
  {
  }

  /** Add the n > 0 key bytes at o (four at most), reading a 32-bit word. */
  method AddWord(big: bool, mem: seq<byte>, o: nat, n: int, x: word) returns (r: word)
    requires n > 0 && Readable(Words32, mem, o, n)
    ensures r == Plus(x, Padded(big, mem, o, n))
  {
    if n >= 4 {
      r := Plus(x, Read32(big, mem, o));
    } else {
      Masked(big, n, mem[o], mem[o + 1], mem[o + 2], mem[o + 3]);
      r := Plus(x, And(Read32(big, mem, o), Mask(big, n)));
    }
  }

  /** The same with 16-bit reads; the third byte of a word is read on its own. */
  method AddHalves(mem: seq<byte>, o: nat, n: int, x: word) returns (r: word)
    requires n > 0 && o + (if n < 4 then n else 4) <= |mem|
    ensures r == Plus(x, Padded(false, mem, o, n))
  {
    if n >= 4 {
      HalvesJoin(mem[o], mem[o + 1], mem[o + 2], mem[o + 3]);
      r := Plus(x, Plus(Half(mem[o], mem[o + 1]), Up16(Half(mem[o + 2], mem[o + 3]))));
    } else if n == 3 {
      HalfAndByte(mem[o], mem[o + 1], mem[o + 2]);
      PlusAssociates(x, Shl16(mem[o + 2]), Half(mem[o], mem[o + 1]));
      r := Plus(x, Shl16(mem[o + 2]));
      r := Plus(r, Half(mem[o], mem[o + 1]));
    } else if n == 2 {
      HalfAlone(mem[o], mem[o + 1]);
      r := Plus(x, Half(mem[o], mem[o + 1]));
    } else {
      ByteAlone(mem[o]);
      r := Plus(x, Shl0(mem[o]));
    }
  }

  lemma ZeroShifts()
    ensures Shl0(0) == 0 && Shl8(0) == 0 && Shl16(0) == 0 && Shl24(0) == 0
  {
  }

  /** The fall-through cases of one word, little-endian. */
  method AddBytes(mem: seq<byte>, o: nat, n: int, x: word) returns (r: word)
    requires n > 0 && o + (if n < 4 then n else 4) <= |mem|
    ensures r == Plus(x, Padded(false, mem, o, n))
  {
    ghost var b1, b2, b3 := Keep(n > 1, At(mem, o + 1)), Keep(n > 2, At(mem, o + 2)), Keep(n > 3, At(mem, o + 3));
    ZeroShifts();
    r := x;
    PlusZero(r);
    if n >= 4 { r := Plus(r, Shl24(mem[o + 3])); }
    assert r == Plus(x, Shl24(b3));
    PlusZero(r);
    if n >= 3 { r := Plus(r, Shl16(mem[o + 2])); }
    assert r == Plus(Plus(x, Shl24(b3)), Shl16(b2));
    PlusZero(r);
    if n >= 2 { r := Plus(r, Shl8(mem[o + 1])); }
    r := Plus(r, Shl0(mem[o]));
    assert r == AddDown(x, mem[o], b1, b2, b3);
    AddingBytes(x, mem[o], b1, b2, b3);
  }

  /** The fall-through cases of one word, big-endian. */
  method AddBytesBig(mem: seq<byte>, o: nat, n: int, x: word) returns (r: word)
    requires n > 0 && o + (if n < 4 then n else 4) <= |mem|
    ensures r == Plus(x, Padded(true, mem, o, n))
  {
    ghost var b1, b2, b3 := Keep(n > 1, At(mem, o + 1)), Keep(n > 2, At(mem, o + 2)), Keep(n > 3, At(mem, o + 3));
    ZeroShifts();
    r := x;
    PlusZero(r);
    if n >= 4 { r := Plus(r, Shl0(mem[o + 3])); }
    assert r == Plus(x, Shl0(b3));
    PlusZero(r);
    if n >= 3 { r := Plus(r, Shl8(mem[o + 2])); }
    assert r == Plus(Plus(x, Shl0(b3)), Shl8(b2));
    PlusZero(r);
    if n >= 2 { r := Plus(r, Shl16(mem[o + 1])); }
    r := Plus(r, Shl24(mem[o]));
    assert r == AddUp(x, b3, b2, b1, mem[o]);
    AddingBytes(x, b3, b2, b1, mem[o]);
  }

  /** One word of a full block on the byte path: lowest address first. */
  method AddFourBytes(big: bool, mem: seq<byte>, o: nat, x: word) returns (r: word)
    requires o + 4 <= |mem|
    ensures r == Plus(x, Padded(big, mem, o, 4))
  {
    if big {
      r := Plus(x, Shl24(mem[o]));
      r := Plus(r, Shl16(mem[o + 1]));
      r := Plus(r, Shl8(mem[o + 2]));
      r := Plus(r, Shl0(mem[o + 3]));
      AddingBytes(x, mem[o + 3], mem[o + 2], mem[o + 1], mem[o]);
    } else {
      r := Plus(x, Shl0(mem[o]));
      r := Plus(r, Shl8(mem[o + 1]));
      r := Plus(r, Shl16(mem[o + 2]));
      r := Plus(r, Shl24(mem[o + 3]));
      AddingBytes(x, mem[o], mem[o + 1], mem[o + 2], mem[o + 3]);
    }
  }

  /** One word of a block that is not the last. */
  method AddFull(path: Path, big: bool, mem: seq<byte>, o: nat, x: word) returns (r: word)
    requires o + 4 <= |mem| && (big ==> path != Words16)
    ensures r == Plus(x, Padded(big, mem, o, 4))
  {
    match path {
      case Words32 => r := AddWord(big, mem, o, 4, x);
      case Words16 => r := AddHalves(mem, o, 4, x);
      case Bytes => r := AddFourBytes(big, mem, o, x);
    }
  }

  /** One word of the last block, of which n bytes belong to the key. */
  method AddLast(path: Path, big: bool, mem: seq<byte>, o: nat, n: int, x: word) returns (r: word)
    requires Readable(path, mem, o, n) && (big ==> path != Words16)
    ensures r == Plus(x, Padded(big, mem, o, n))
  {
    if n <= 0 {
      NothingToAdd(big, mem, o, n, x);
      r := x;
    } else if path.Words32? {
      r := AddWord(big, mem, o, n, x);
    } else if path.Words16? {
      r := AddHalves(mem, o, n, x);
    } else if big {
      r := AddBytesBig(mem, o, n, x);
    } else {
      r := AddBytes(mem, o, n, x);
    }
  }

  /** The memory a path reads: the key, and on the word path the rest of its last word. */
  predicate KeyReadable(path: Path, mem: seq<byte>, length: nat) {
    |mem| >= (if path.Words32? then (length + 3) / 4 * 4 else length)
  }

  /** Mix in a block that is not the last. */
  method MixBlock(path: Path, big: bool, mem: seq<byte>, k: nat, t: Triple) returns (r: Triple)
    requires k + 12 <= |mem| && (big ==> path != Words16)
    ensures r == Mix(AddWords(t, Words(big, mem[k..k + 12])))
  {
    WordsInParts(big, mem, k, 12);
    var a := AddFull(path, big, mem, k, t.a);
    var b := AddFull(path, big, mem, k + 4, t.b);
    var c := AddFull(path, big, mem, k + 8, t.c);
    r := Mix(Triple(a, b, c));
  }

  /** Mix in the last block, of 1 to 12 bytes. */
  method MixLast(path: Path, big: bool, mem: seq<byte>, k: nat, len: nat, t: Triple) returns (r: Triple)
    requires 1 <= len <= 12 && k + len <= |mem| && (big ==> path != Words16)
    requires path.Words32? ==> k + (len + 3) / 4 * 4 <= |mem|
    ensures r == Final(AddWords(t, Words(big, mem[k..k + len])))
  {
    WordsInParts(big, mem, k, len);
    var c := AddLast(path, big, mem, k + 8, len - 8, t.c);
    var b := AddLast(path, big, mem, k + 4, len - 4, t.b);
    var a := AddLast(path, big, mem, k, len, t.a);
    r := Final(Triple(a, b, c));
  }

  lemma WholeWords(k: nat, len: nat)
    requires k % 4 == 0
    ensures (k + len + 3) / 4 * 4 == k + (len + 3) / 4 * 4
  {
  }

  /** `absorb` is the absorption of bytes in this byte order. */
  ghost predicate Absorbs(big: bool, absorb: (Triple, seq<byte>) -> Triple) {
    forall t, s {:trigger Absorb(big, t, s)} :: absorb(t, s) == Absorb(big, t, s)
  }

  /** Mixing in the next block leaves the same hash to come. */
  method MixNext(path: Path, big: bool, mem: seq<byte>, k: nat, length: nat, t: Triple,
      ghost absorb: (Triple, seq<byte>) -> Triple) returns (r: Triple)
    requires k + 12 < length <= |mem| && (big ==> path != Words16) && Absorbs(big, absorb)
    ensures absorb(r, mem[k + 12..length]) == absorb(t, mem[k..length])
  {
    NextBlock(big, t, mem, k, length);
    r := MixBlock(path, big, mem, k, t);
  }

  /** Mixing in what is left, if anything, completes the hash. */
  method MixRest(path: Path, big: bool, mem: seq<byte>, k: nat, len: nat, t: Triple,
      ghost absorb: (Triple, seq<byte>) -> Triple) returns (r: Triple)
    requires len <= 12 && k + len <= |mem| && (big ==> path != Words16) && Absorbs(big, absorb)
    requires path.Words32? ==> k + (len + 3) / 4 * 4 <= |mem|
    ensures r == absorb(t, mem[k..k + len])
  {
    r := t;
    if len > 0 {
      r := MixLast(path, big, mem, k, len, t);
    }
    assert r == Absorb(big, t, mem[k..k + len]);
  }

  /** The block loop and the last block, with the reads of the given path. */
  method HashLoop(path: Path, big: bool, mem: seq<byte>, length: nat, start: Triple,
      ghost absorb: (Triple, seq<byte>) -> Triple) returns (t: Triple)
    requires KeyReadable(path, mem, length) && (big ==> path != Words16) && Absorbs(big, absorb)
    ensures t == absorb(start, mem[..length])
  {
    t := start;
    var k, len := 0, length;
    assert mem[0..length] == mem[..length];
    while len > 12
      invariant k + len == length && k % 4 == 0
      invariant absorb(t, mem[k..length]) == absorb(start, mem[..length])
    {
      t := MixNext(path, big, mem, k, length, t, absorb);
      k, len := k + 12, len - 12;
    }
    WholeWords(k, len);
    t := MixRest(path, big, mem, k, len, t, absorb);
  }

  /** Every read path computes the hash of the key's bytes. */
  method HashPath(path: Path, big: bool, mem: seq<byte>, length: nat, initval: word) returns (r: word)
    requires KeyReadable(path, mem, length) && (big ==> path != Words16)
    ensures r == Hash(big, mem[..length], initval)
  {
    var t := HashLoop(path, big, mem, length, Start(length, initval), (t, s) => Absorb(big, t, s));
    r := t.c;
  }

  /** The path jenkins_hash takes for a key at this address. */
  function PathFor(big: bool, address: nat): Path {
    if address % 4 == 0 then Words32 else if address % 2 == 0 && !big then Words16 else Bytes
  }

  /**
  jenkins_hash itself: whatever the alignment, and whatever follows the key in
  its last word, the result is the hash of the key's bytes.
  */
  method JenkinsHashOf(big: bool, address: nat, mem: seq<byte>, length: nat, initval: word) returns (r: word)
    requires KeyReadable(PathFor(big, address), mem, length)
    ensures r == Hash(big, mem[..length], initval)
  {
    r := HashPath(PathFor(big, address), big, mem, length, initval);
  }
}
