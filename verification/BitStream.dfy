/**
 The MSB-first bit writer and reader under the Gorilla and BOOL codecs.

 Both are specified by the sequence of bits they stand for: a writer appends to
 that sequence, a reader consumes it from an absolute position.
 */
module BitStream {
  import opened Words

  /** The bits of a byte vector, each byte most significant bit first. */
  function BitsOfBytes(bytes: seq<byte>): (bits: seq<bool>)
    ensures |bits| == 8 * |bytes|
  {
    seq(8 * |bytes|, i requires 0 <= i < 8 * |bytes| => ToBits(bytes[i / 8], 8)[i % 8])
  }

  /** Bit `i` of a byte vector is in byte `i / 8`, the highest first. */
  lemma BitOfByte(bytes: seq<byte>, i: nat)
    requires i < 8 * |bytes|
    ensures BitsOfBytes(bytes)[i] == (bytes[i / 8] / Pow2(7 - i % 8) % 2 == 1)
  {
    BitIs(bytes[i / 8], 8, 7 - i % 8);
  }

  lemma BitsOfBytesPush(bytes: seq<byte>, b: byte)
    ensures BitsOfBytes(bytes + [b]) == BitsOfBytes(bytes) + ToBits(b, 8)
  {
    var longer := BitsOfBytes(bytes + [b]);
    forall i | 0 <= i < |longer|
      ensures longer[i] == (BitsOfBytes(bytes) + ToBits(b, 8))[i]
    {
      assert longer[i] == ToBits((bytes + [b])[i / 8], 8)[i % 8];
    }
  }

  /** Shifting the partial byte left pads it with zeros. */
  lemma {:induction false} LeftJustify(acc: nat, nbits: nat, k: nat)
    requires acc < Pow2(nbits)
    ensures Shl(acc, k) < Pow2(nbits + k)
    ensures ToBits(Shl(acc, k), nbits + k) == ToBits(acc, nbits) + Zeros(k)
  {
    FromBitsToBits(acc, nbits);
    FromBitsTrailingZeros(ToBits(acc, nbits), k);
    ToBitsFromBits(ToBits(acc, nbits) + Zeros(k));
    FromBitsBound(ToBits(acc, nbits) + Zeros(k));
  }

  lemma PushBit(acc: nat, nbits: nat, b: bool)
    requires acc < Pow2(nbits)
    ensures var acc' := 2 * acc + (if b then 1 else 0);
      acc' < Pow2(nbits + 1) && ToBits(acc', nbits + 1) == ToBits(acc, nbits) + [b]
  {
    assert (2 * acc + (if b then 1 else 0)) / 2 == acc;
  }

  class BitWriter {
    var out: seq<byte>
    var acc: nat     // partial byte, most significant bit first
    var nbits: nat   // bits held in acc

    ghost predicate Valid()
      reads this
    {
      nbits < 8 && acc < Pow2(nbits)
    }

    /** Every bit written so far. */
    ghost function Stream(): seq<bool>
      reads this
    {
      BitsOfBytes(out) + ToBits(acc, nbits)
    }

    constructor ()
      ensures Valid() && Stream() == []
    {
      out, acc, nbits := [], 0, 0;
    }

    method PutBit(b: bool)
      requires Valid()
      modifies this
      ensures Valid() && Stream() == old(Stream()) + [b]
    {
      PushBit(acc, nbits, b);
      acc := 2 * acc + (if b then 1 else 0);
      nbits := nbits + 1;
      if nbits == 8 {
        assert acc < 256 by { Pow2Constants(); }
        BitsOfBytesPush(out, acc);
        out := out + [acc];
        acc, nbits := 0, 0;
      }
    }

    /** Write the low `n` bits of `v`, most significant first. */
    method PutBits(v: nat, n: nat)
      requires Valid()
      modifies this
      ensures Valid() && Stream() == old(Stream()) + ToBits(v, n)
    {
      var i := n;
      while i > 0
        invariant 0 <= i <= n
        invariant Valid() && Stream() == old(Stream()) + ToBits(v, n)[..n - i]
      {
        i := i - 1;
        BitAt(v, n, i);
        assert ToBits(v, n)[..n - i] == ToBits(v, n)[..n - i - 1] + [Shr(v, i) % 2 == 1];
        PutBit(Shr(v, i) % 2 == 1);
      }
    }

    /** Pad the partial byte with zeros and emit it. */
    method Flush()
      requires Valid()
      modifies this
      ensures Valid() && nbits == 0
      ensures |out| == (|old(Stream())| + 7) / 8
      ensures BitsOfBytes(out) == old(Stream()) + Zeros(8 * |out| - |old(Stream())|)
      ensures Stream() == BitsOfBytes(out)
    {
      if nbits != 0 {
        hide ToBits, BitsOfBytes;
        LeftJustify(acc, nbits, 8 - nbits);
        assert Shl(acc, 8 - nbits) < 256 by { Pow2Constants(); }
        acc := Shl(acc, 8 - nbits);
        BitsOfBytesPush(out, acc);
        out := out + [acc];
        acc, nbits := 0, 0;
      }
    }
  }

  /** `(v << 1) | b` on fewer than 64 bits. */
  lemma PushLowBit(bits: seq<bool>, b: bool)
    requires |bits| < 64
    ensures FromBits(bits) < TWO_63
    ensures FromBits(bits + [b]) == U64(2 * FromBits(bits)) + (if b then 1 else 0) < TWO_64
  {
    assert (bits + [b])[..|bits|] == bits;
    FromBitsBound(bits);
    Pow2Monotone(|bits|, 63);
    Pow2Constants();
  }

  /** `v` is the number read from the bits between two positions. */
  ghost predicate IsRead(bits: seq<bool>, from: nat, to: nat, v: u64) {
    from <= to <= |bits| && v == FromBits(bits[from..to])
  }

  lemma NoBits(bits: seq<bool>, at: nat)
    requires at <= |bits|
    ensures IsRead(bits, at, at, 0)
  {
  }

  /** One more bit read. */
  lemma PushRead(bits: seq<bool>, from: nat, to: nat, v: u64)
    requires IsRead(bits, from, to, v) && to < |bits| && to - from < 64
    ensures U64(2 * v) + (if bits[to] then 1 else 0) < TWO_64
    ensures IsRead(bits, from, to + 1, U64(2 * v) + (if bits[to] then 1 else 0))
  {
    hide FromBits, U64;
    PushLowBit(bits[from..to], bits[to]);
    assert bits[from..to + 1] == bits[from..to] + [bits[to]];
  }

  lemma ReadIs(bits: seq<bool>, from: nat, to: nat, v: u64)
    requires IsRead(bits, from, to, v)
    ensures from <= to <= |bits| && v == FromBits(bits[from..to])
  {
  }

  class BitReader {
    const data: seq<byte>
    var bitpos: nat

    constructor (data: seq<byte>, bitpos: nat)
      ensures this.data == data && this.bitpos == bitpos
    {
      this.data, this.bitpos := data, bitpos;
    }

    method GetBit() returns (b: bool)
      requires bitpos < 8 * |data|
      modifies this
      ensures bitpos == old(bitpos) + 1
      ensures b == BitsOfBytes(data)[old(bitpos)]
    {
      BitAt(data[bitpos / 8], 8, 7 - bitpos % 8);
      b := Shr(data[bitpos / 8], 7 - bitpos % 8) % 2 == 1;
      bitpos := bitpos + 1;
    }

    /** Read `n` bits, most significant first, into the low bits of a word. */
    method GetBits(n: nat) returns (v: u64)
      requires n <= 64 && bitpos + n <= 8 * |data|
      modifies this
      ensures bitpos == old(bitpos) + n
      ensures v == FromBits(BitsOfBytes(data)[old(bitpos)..old(bitpos) + n])
    {
      v := 0;
      ghost var bits, start := BitsOfBytes(data), bitpos;
      hide FromBits, BitsOfBytes, IsRead;
      NoBits(bits, start);
      for i := 0 to n
        invariant bitpos == start + i && IsRead(bits, start, bitpos, v)
      {
        PushRead(bits, start, bitpos, v);
        var b := GetBit();
        v := U64(2 * v) + (if b then 1 else 0);
      }
      ReadIs(bits, start, bitpos, v);
    }
  }
}
