/**
 The mixing hash: the splitmix64 finalizer on 64-bit words.

 It is a bijection, so the hash of a single-column key is injective in the key word:
 such a table has no collisions in the full hash, only in its masked value.
 */
module Mix {
  import opened Words

  const M1: u64 := 0xbf58476d1ce4e5b9
  const M2: u64 := 0x94d049bb133111eb

  /** The inverses of the two multipliers modulo 2^64. */
  const M1_INVERSE: u64 := 0x96de1b173f119089
  const M2_INVERSE: u64 := 0x319642b2d24d8ec3

  /** `x ^ (x >> k)`. */
  function XorShift(x: u64, k: nat): u64
    requires k <= 64
  {
    ShrBits(x, k);
    Xor(x, Shr(x, k))
  }

  /** `y ^ (y >> k) ^ (y >> 2k)`. */
  function UndoXorShift(y: u64, k: nat): u64
    requires 2 * k <= 64
  {
    ShrBits(y, 2 * k);
    Xor(XorShift(y, k), Shr(y, 2 * k))
  }

  function Mix64(x: u64): u64 {
    XorShift(U64(XorShift(U64(XorShift(x, 30) * M1), 27) * M2), 31)
  }

  function UnMix64(y: u64): u64 {
    UndoXorShift(U64(UndoXorShift(U64(UndoXorShift(y, 31) * M2_INVERSE), 27) * M1_INVERSE), 30)
  }

  lemma XorShiftBits(x: u64, k: nat, i: nat)
    requires k <= 64 && i < 64
    ensures ToBits(XorShift(x, k), 64)[i]
         == (ToBits(x, 64)[i] != (i >= k && ToBits(x, 64)[i - k]))
  {
    hide ToBits, Shr;
    ShrBits(x, k);
    XorBitsOfWord(x, Shr(x, k));
  }

  lemma UndoXorShiftBits(y: u64, k: nat, i: nat)
    requires 2 * k <= 64 && i < 64
    ensures var b := ToBits(y, 64);
      ToBits(UndoXorShift(y, k), 64)[i]
      == (b[i] != ((i >= k && b[i - k]) != (i >= 2 * k && b[i - 2 * k])))
  {
    hide ToBits, Shr;
    ShrBits(y, 2 * k);
    XorBitsOfWord(XorShift(y, k), Shr(y, 2 * k));
    XorShiftBits(y, k, i);
  }

  /** A xor-shift by more than a third of the word is undone by two more terms. */
  lemma XorShiftInverse(x: u64, k: nat)
    requires 22 <= k <= 32
    ensures UndoXorShift(XorShift(x, k), k) == x
    ensures XorShift(UndoXorShift(x, k), k) == x
  {
    hide ToBits, XorShift, UndoXorShift;
    var y, z := XorShift(x, k), UndoXorShift(x, k);
    forall i: nat | i < 64
      ensures ToBits(UndoXorShift(y, k), 64)[i] == ToBits(x, 64)[i]
      ensures ToBits(XorShift(z, k), 64)[i] == ToBits(x, 64)[i]
    {
      UndoXorShiftBits(y, k, i);
      XorShiftBits(x, k, i);
      XorShiftBits(z, k, i);
      UndoXorShiftBits(x, k, i);
      if i >= k {
        XorShiftBits(x, k, i - k);
        UndoXorShiftBits(x, k, i - k);
      }
      if i >= 2 * k { XorShiftBits(x, k, i - 2 * k); }
    }
    WordInjective(UndoXorShift(y, k), x);
    WordInjective(XorShift(z, k), x);
  }

  /** A value below the modulus is the remainder of everything congruent to it. */
  lemma RemainderUnique(x: u64, y: int, a: int)
    requires y == x + TWO_64 * a
    ensures U64(y) == x
  {
  }

  /** Multiplying by `d` undoes multiplying by `c` when `c * d` is 1 modulo 2^64. */
  lemma ProductUndone(x: u64, c: nat, d: nat, q: nat)
    requires c * d == 1 + TWO_64 * q
    ensures U64(U64(x * c) * d) == x
  {
    hide U64;
    var r, a := U64(x * c), x * c / TWO_64;
    assert x * c == TWO_64 * a + r by { CarriedOut(x * c); }
    calc {
      r * d;
      (x * c - TWO_64 * a) * d;
      x * c * d - TWO_64 * a * d;
      { Regroup(x, c, d); Regroup(TWO_64, a, d); }
      x * (c * d) - TWO_64 * (a * d);
      x * (1 + TWO_64 * q) - TWO_64 * (a * d);
      { Spread(x, q, a * d); }
      x + TWO_64 * (x * q - a * d);
    }
    RemainderUnique(x, r * d, x * q - a * d);
  }

  lemma CarriedOut(y: int)
    ensures y == TWO_64 * (y / TWO_64) + U64(y)
  {
  }

  lemma Regroup(x: int, y: int, z: int)
    ensures x * y * z == x * (y * z)
  {
  }

  lemma Spread(x: int, q: int, b: int)
    ensures x * (1 + TWO_64 * q) - TWO_64 * b == x + TWO_64 * (x * q - b)
  {
  }

  lemma MultiplierInverse(x: u64)
    ensures U64(U64(x * M1) * M1_INVERSE) == x && U64(U64(x * M1_INVERSE) * M1) == x
    ensures U64(U64(x * M2) * M2_INVERSE) == x && U64(U64(x * M2_INVERSE) * M2) == x
  {
    hide U64;
    ProductUndone(x, M1, M1_INVERSE, 0x70c3bca78f27f46c);
    ProductUndone(x, M1_INVERSE, M1, 0x70c3bca78f27f46c);
    ProductUndone(x, M2, M2_INVERSE, 0x1cd336eda85f1453);
    ProductUndone(x, M2_INVERSE, M2, 0x1cd336eda85f1453);
  }

  /** The finalizer and its inverse undo each other, so it is a bijection of the words. */
  lemma Mix64Bijective(x: u64)
    ensures UnMix64(Mix64(x)) == x && Mix64(UnMix64(x)) == x
  {
    hide XorShift, UndoXorShift, U64;
    var a := XorShift(x, 30);
    var b := XorShift(U64(a * M1), 27);
    XorShiftInverse(x, 30); XorShiftInverse(U64(a * M1), 27); XorShiftInverse(U64(b * M2), 31);
    MultiplierInverse(a); MultiplierInverse(b);
    var c := UndoXorShift(x, 31);
    var d := UndoXorShift(U64(c * M2_INVERSE), 27);
    XorShiftInverse(x, 31); XorShiftInverse(U64(c * M2_INVERSE), 27); XorShiftInverse(U64(d * M1_INVERSE), 30);
    MultiplierInverse(c); MultiplierInverse(d);
  }

  /** One column of the row hash: fold a word into the running hash. */
  function Combine(acc: u64, word: u64): u64 { Mix64(Xor(acc, Mix64(word))) }

  /** The bulk kernel over one key column. */
  method HashCombine(acc: seq<u64>, words: seq<u64>) returns (out: seq<u64>)
    requires |acc| == |words|
    ensures |out| == |acc| && forall k | 0 <= k < |acc| :: out[k] == Combine(acc[k], words[k])
  {
    hide Mix64;
    out := acc;
    for k := 0 to |acc|
      invariant |out| == |acc|
      invariant forall i | 0 <= i < k :: out[i] == Combine(acc[i], words[i])
      invariant forall i | k <= i < |acc| :: out[i] == acc[i]
    {
      out := out[k := Mix64(Xor(out[k], Mix64(words[k])))];
    }
  }

  lemma XorCancels(seed: u64, a: u64)
    ensures Xor(seed, Xor(seed, a)) == a
  {
    hide ToBits;
    XorBitsOfWord(seed, a);
    XorBitsOfWord(seed, Xor(seed, a));
    assert ToBits(Xor(seed, Xor(seed, a)), 64) == ToBits(a, 64);
    WordInjective(Xor(seed, Xor(seed, a)), a);
  }

  /** From one seed, distinct words never share a hash, and every hash is some word's. */
  lemma SingleColumnHashBijective(seed: u64, v: u64, w: u64)
    ensures Combine(seed, v) == Combine(seed, w) <==> v == w
    ensures Combine(seed, UnMix64(Xor(seed, UnMix64(v)))) == v
  {
    hide Mix64, UnMix64, Xor;
    Mix64Bijective(v); Mix64Bijective(w);
    Mix64Bijective(Xor(seed, Mix64(v))); Mix64Bijective(Xor(seed, Mix64(w)));
    XorCancels(seed, Mix64(v)); XorCancels(seed, Mix64(w));
    Mix64Bijective(Xor(seed, UnMix64(v)));
    XorCancels(seed, UnMix64(v));
  }
}
