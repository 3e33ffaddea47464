/**
 Fixed-width words as numbers, and their bits.

 A 64-bit word is an `int` below 2^64; every wrapping operation of the engine is
 written out with an explicit modulus. `ToBits(v, n)` is the low `n` bits of `v`,
 most significant first, which is the order in which the codecs emit bits.
 */
module Words {

  datatype Option<+T> = None | Some(value: T)

  const TWO_31: int := 0x8000_0000
  const TWO_32: int := 0x1_0000_0000
  const TWO_63: int := 0x8000_0000_0000_0000
  const TWO_64: int := 0x1_0000_0000_0000_0000

  type u64 = x: int | 0 <= x < 0x1_0000_0000_0000_0000
  type i64 = x: int | -0x8000_0000_0000_0000 <= x < 0x8000_0000_0000_0000
  type byte = x: int | 0 <= x < 256

  /** An integer reduced to an unsigned 64-bit word. */
  function U64(x: int): u64 { x % TWO_64 }

  /** An unsigned word reinterpreted as a signed one. */
  function AsSigned64(w: u64): i64 { if w < TWO_63 then w else w - TWO_64 }

  /** A signed integer reinterpreted as an unsigned word. */
  function AsUnsigned64(x: i64): u64 { if x < 0 then x + TWO_64 else x }

  function Pow2(n: nat): (p: nat)
    ensures p >= 1
  {
    if n == 0 then 1 else 2 * Pow2(n - 1)
  }

  /** The logical right shift `v >> k`. */
  function Shr(v: nat, k: nat): nat {
    if k == 0 then v else Shr(v / 2, k - 1)
  }

  /** The left shift `v << k`, before it is cut to a word. */
  function Shl(v: nat, k: nat): nat
    decreases k
  {
    if k == 0 then v else Shl(2 * v, k - 1)
  }

  function Zeros(n: nat): (z: seq<bool>)
    ensures |z| == n && forall i :: 0 <= i < n ==> !z[i]
  {
    seq(n, _ => false)
  }

  /** The low `n` bits of `v`, most significant first. */
  function ToBits(v: nat, n: nat): (bits: seq<bool>)
    ensures |bits| == n
  {
    if n == 0 then [] else ToBits(v / 2, n - 1) + [v % 2 == 1]
  }

  /** The number whose binary digits, most significant first, are `bits`. */
  function FromBits(bits: seq<bool>): nat {
    if bits == [] then 0
    else 2 * FromBits(bits[..|bits| - 1]) + (if bits[|bits| - 1] then 1 else 0)
  }

  lemma Pow2Add(a: nat, b: nat)
    ensures Pow2(a + b) == Pow2(a) * Pow2(b)
  {
    if a > 0 { Pow2Add(a - 1, b); }
  }

  lemma Pow2Constants()
    ensures Pow2(5) == 32 && Pow2(6) == 64 && Pow2(7) == 128 && Pow2(8) == 256
    ensures Pow2(63) == TWO_63 && Pow2(64) == TWO_64
  {
    assert Pow2(8) == 256;
    Pow2Add(8, 8);
    Pow2Add(16, 16);
    Pow2Add(32, 31);
    Pow2Add(16, 15);
    Pow2Add(8, 7);
  }

  lemma Pow2Monotone(a: nat, b: nat)
    requires a <= b
    ensures Pow2(a) <= Pow2(b)
  {
    if a < b { Pow2Monotone(a, b - 1); }
  }

  /** Reading back written bits is the identity. */
  lemma {:induction false} ToBitsFromBits(bits: seq<bool>)
    ensures ToBits(FromBits(bits), |bits|) == bits
  {
    if bits != [] {
      ToBitsFromBits(bits[..|bits| - 1]);
      assert bits == bits[..|bits| - 1] + [bits[|bits| - 1]];
    }
  }

  /** Writing a number that fits and reading it back is the identity. */
  lemma {:induction false} FromBitsToBits(v: nat, n: nat)
    requires v < Pow2(n)
    ensures FromBits(ToBits(v, n)) == v
  {
    if n > 0 {
      FromBitsToBits(v / 2, n - 1);
      var b := ToBits(v, n);
      assert b[..|b| - 1] == ToBits(v / 2, n - 1);
    }
  }

  lemma {:induction false} FromBitsBound(bits: seq<bool>)
    ensures FromBits(bits) < Pow2(|bits|)
  {
    if bits != [] { FromBitsBound(bits[..|bits| - 1]); }
  }

  /** Leading zeros do not change the number read. */
  lemma {:induction false} FromBitsLeadingZeros(n: nat, b: seq<bool>)
    ensures FromBits(Zeros(n) + b) == FromBits(b)
  {
    var s := Zeros(n) + b;
    if b != [] {
      assert s[..|s| - 1] == Zeros(n) + b[..|b| - 1];
      FromBitsLeadingZeros(n, b[..|b| - 1]);
    } else if n > 0 {
      assert s[..|s| - 1] == Zeros(n - 1) + b;
      FromBitsLeadingZeros(n - 1, b);
    }
  }

  /** Trailing zeros are a left shift. */
  lemma {:induction false} FromBitsTrailingZeros(b: seq<bool>, n: nat)
    ensures FromBits(b + Zeros(n)) == Shl(FromBits(b), n)
    decreases n
  {
    if n == 0 {
      assert b + Zeros(0) == b;
    } else {
      var b' := b + [false];
      assert b'[..|b'| - 1] == b;
      assert b + Zeros(n) == b' + Zeros(n - 1);
      FromBitsTrailingZeros(b', n - 1);
    }
  }

  /** A right shift keeps the leading bits. */
  lemma {:induction false} ToBitsShiftRight(v: nat, k: nat, n: nat)
    ensures ToBits(Shr(v, k), n) == ToBits(v, n + k)[..n]
  {
    if k > 0 {
      ToBitsShiftRight(v / 2, k - 1, n);
      var tail := ToBits(v / 2, n + k - 1);
      assert ToBits(v, n + k) == tail + [v % 2 == 1];
      assert (tail + [v % 2 == 1])[..n] == tail[..n];
    }
  }

  /** The bit tested by `(v >> i) & 1`. */
  lemma BitAt(v: nat, n: nat, i: nat)
    requires i < n
    ensures ToBits(v, n)[n - 1 - i] == (Shr(v, i) % 2 == 1)
  {
    ToBitsShiftRight(v, i, n - i);
    assert ToBits(Shr(v, i), n - i)[n - i - 1] == ToBits(v, n)[n - i - 1];
  }

  /** The low bits of a wider image are the narrower image. */
  lemma {:induction false} ToBitsSuffix(v: nat, n: nat, m: nat)
    requires m <= n
    ensures ToBits(v, n)[n - m..] == ToBits(v, m)
  {
    if m > 0 {
      ToBitsSuffix(v / 2, n - 1, m - 1);
    }
  }

  /** A number that fits in `m` bits has zeros above them. */
  lemma {:induction false} ToBitsLeadingZeros(v: nat, n: nat, m: nat)
    requires m <= n && v < Pow2(m)
    ensures ToBits(v, n) == Zeros(n - m) + ToBits(v, m)
  {
    FromBitsToBits(v, m);
    FromBitsLeadingZeros(n - m, ToBits(v, m));
    ToBitsFromBits(Zeros(n - m) + ToBits(v, m));
  }

  lemma {:induction false} ToBitsInjective(v: nat, w: nat, n: nat)
    requires v < Pow2(n) && w < Pow2(n)
    requires ToBits(v, n) == ToBits(w, n)
    ensures v == w
  {
    FromBitsToBits(v, n);
    FromBitsToBits(w, n);
  }

  // ----- 64-bit words as bits -----

  function XorBits(a: seq<bool>, b: seq<bool>): (c: seq<bool>)
    requires |a| == |b|
    ensures |c| == |a|
  {
    seq(|a|, i requires 0 <= i < |a| => a[i] != b[i])
  }

  lemma WordOfBits(bits: seq<bool>)
    requires |bits| == 64
    ensures FromBits(bits) < TWO_64
    ensures ToBits(FromBits(bits), 64) == bits
  {
    FromBitsBound(bits);
    ToBitsFromBits(bits);
    Pow2Constants();
  }

  function Xor(a: u64, b: u64): u64 {
    WordOfBits(XorBits(ToBits(a, 64), ToBits(b, 64)));
    FromBits(XorBits(ToBits(a, 64), ToBits(b, 64)))
  }

  lemma XorBitsOfWord(a: u64, b: u64)
    ensures ToBits(Xor(a, b), 64) == XorBits(ToBits(a, 64), ToBits(b, 64))
  {
    WordOfBits(XorBits(ToBits(a, 64), ToBits(b, 64)));
  }

  lemma WordInjective(a: u64, b: u64)
    requires ToBits(a, 64) == ToBits(b, 64)
    ensures a == b
  {
    Pow2Constants();
    ToBitsInjective(a, b, 64);
  }

  /** XOR with the previous value is undone by XOR with the previous value. */
  lemma XorInverse(prev: u64, v: u64)
    ensures Xor(prev, Xor(v, prev)) == v
    ensures Xor(v, prev) == 0 <==> v == prev
  {
    XorBitsOfWord(v, prev);
    XorBitsOfWord(prev, Xor(v, prev));
    assert ToBits(Xor(prev, Xor(v, prev)), 64) == ToBits(v, 64);
    WordInjective(Xor(prev, Xor(v, prev)), v);
    ZeroWord();
    if Xor(v, prev) == 0 {
      forall i | 0 <= i < 64 ensures ToBits(v, 64)[i] == ToBits(prev, 64)[i] {
        assert !XorBits(ToBits(v, 64), ToBits(prev, 64))[i];
      }
      WordInjective(v, prev);
    } else if v == prev {
      assert ToBits(Xor(v, prev), 64) == Zeros(64);
      WordInjective(Xor(v, prev), 0);
    }
  }

  lemma ZeroWord()
    ensures ToBits(0, 64) == Zeros(64)
  {
    ToBitsLeadingZeros(0, 64, 0);
  }

  lemma ShrBound(v: nat, k: nat)
    ensures Shr(v, k) <= v
    decreases k
  {
    if k > 0 { ShrBound(v / 2, k - 1); }
  }

  /** The bits of `x >> k`: zeros, then the leading bits of `x`. */
  lemma ShrBits(x: u64, k: nat)
    requires k <= 64
    ensures Shr(x, k) < TWO_64
    ensures ToBits(Shr(x, k), 64) == Zeros(k) + ToBits(x, 64)[..64 - k]
  {
    ShrBound(x, k);
    ToBitsShiftRight(x, k, 64 - k);
    Pow2Constants();
    ShrFits(x, k, 64);
    ToBitsLeadingZeros(Shr(x, k), 64, 64 - k);
  }

  lemma {:induction false} ShrFits(x: nat, k: nat, n: nat)
    requires k <= n && x < Pow2(n)
    ensures Shr(x, k) < Pow2(n - k)
    decreases k
  {
    if k > 0 { ShrFits(x / 2, k - 1, n - 1); }
  }

  // ----- shifts and bits as arithmetic -----

  lemma {:induction false} ShlIs(v: nat, k: nat)
    ensures Shl(v, k) == v * Pow2(k)
    decreases k
  {
    if k > 0 { ShlIs(2 * v, k - 1); }
  }

  lemma {:induction false} ShrIs(v: nat, k: nat)
    ensures Shr(v, k) == v / Pow2(k)
    decreases k
  {
    if k > 0 {
      ShrIs(v / 2, k - 1);
      HalveThenDivide(v, Pow2(k - 1));
    }
  }

  lemma HalveThenDivide(v: nat, p: nat)
    requires p > 0
    ensures (v / 2) / p == v / (2 * p)
  {
    var q, r := v / (2 * p), v % (2 * p);
    assert v == 2 * p * q + r;
    assert v / 2 == p * q + r / 2 && r / 2 < p;
    UniqueQuotient(v / 2, p, q, r / 2);
  }

  lemma UniqueQuotient(v: nat, p: nat, q: nat, r: nat)
    requires v == p * q + r && r < p
    ensures v / p == q
  {
    var d := v / p - q;
    assert v == p * (v / p) + v % p;
    assert p * d == r - v % p;
    Multiple(p, d);
  }

  lemma Multiple(p: int, d: int)
    requires p > 0
    ensures (d >= 1 ==> p * d >= p) && (d <= -1 ==> p * d <= -p)
  {
    if d >= 1 { assert p * d == p + p * (d - 1); }
    if d <= -1 { assert p * d == p * (d + 1) - p; }
  }

  /** Bit `i` counted from the low end. */
  lemma BitIs(v: nat, n: nat, i: nat)
    requires i < n
    ensures ToBits(v, n)[n - 1 - i] == (v / Pow2(i) % 2 == 1)
  {
    BitAt(v, n, i);
    ShrIs(v, i);
  }

  /** XOR, bit by bit. */
  lemma XorIs(a: u64, b: u64, i: nat)
    requires i < 64
    ensures (Xor(a, b) / Pow2(i) % 2 == 1) <==> (a / Pow2(i) % 2 != b / Pow2(i) % 2)
  {
    XorBitsOfWord(a, b);
    BitIs(Xor(a, b), 64, i);
    BitIs(a, 64, i);
    BitIs(b, 64, i);
    hide Xor, ToBits, Pow2;
    assert XorBits(ToBits(a, 64), ToBits(b, 64))[63 - i] == (ToBits(a, 64)[63 - i] != ToBits(b, 64)[63 - i]);
  }

  // ----- multisets of sequences -----

  lemma Middle<T>(x: seq<T>, v: T, y: seq<T>)
    ensures multiset(x + ([v] + y)) == multiset(x + y) + multiset{v}
  {
  }

  lemma Uncounted<T>(x: multiset<T>, y: multiset<T>, v: T)
    requires x + multiset{v} == y + multiset{v}
    ensures x == y
  {
    assert x == x + multiset{v} - multiset{v} && y == y + multiset{v} - multiset{v};
  }
}
