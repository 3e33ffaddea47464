/**
 The integer codec: delta-of-delta (I64/TS) or plain (I32) words, zig-zagged and
 written as unsigned LEB128 (section 7.6 of DWARF 5).
 */
module IntCodec {
  import opened Words

  // ----- LEB128 -----

  /** The unsigned LEB128 encoding: seven bits a byte, low group first. */
  function Varint(v: nat): (bytes: seq<byte>)
    ensures |bytes| >= 1
  {
    if v >= 0x80 then [v % 128 + 128] + Varint(v / 128) else [v]
  }

  /** `len` bytes at `pos` form one LEB128 number: only the last has its top bit clear. */
  ghost predicate Terminated(data: seq<byte>, pos: nat, len: nat) {
    && 1 <= len && pos + len <= |data|
    && data[pos + len - 1] < 128
    && forall i :: pos <= i < pos + len - 1 ==> data[i] >= 128
  }

  /** The payload `b & 0x7F` of a byte. */
  function Low7(b: byte): nat { b % 128 }

  /** The number a group of LEB128 bytes stands for, low group first. */
  function LebValue(bytes: seq<byte>): nat {
    if bytes == [] then 0 else Low7(bytes[0]) + 128 * LebValue(bytes[1..])
  }

  lemma {:induction false} ShlDouble(x: nat, k: nat)
    ensures Shl(2 * x, k) == 2 * Shl(x, k)
    decreases k
  {
    if k > 0 { ShlDouble(2 * x, k - 1); }
  }

  lemma ShlSeven(x: nat, k: nat)
    ensures Shl(x, k + 7) == 128 * Shl(x, k)
  {
    ShlDouble(x, k); ShlDouble(2 * x, k); ShlDouble(4 * x, k); ShlDouble(8 * x, k);
    ShlDouble(16 * x, k); ShlDouble(32 * x, k); ShlDouble(64 * x, k);
    calc {
      Shl(x, k + 7);
      Shl(2 * x, k + 6);
      Shl(4 * x, k + 5);
      Shl(8 * x, k + 4);
      Shl(16 * x, k + 3);
      Shl(32 * x, k + 2);
      Shl(64 * x, k + 1);
      Shl(128 * x, k);
    }
  }

  lemma {:induction false} LebValuePush(bytes: seq<byte>, b: byte)
    ensures LebValue(bytes + [b]) == LebValue(bytes) + Shl(Low7(b), 7 * |bytes|)
  {
    if bytes != [] {
      assert (bytes + [b])[1..] == bytes[1..] + [b];
      LebValuePush(bytes[1..], b);
      ShlSeven(Low7(b), 7 * |bytes[1..]|);
    }
  }

  /** An encoded number is one terminated group that reads back as the number. */
  lemma {:induction false} VarintReadsBack(v: nat)
    ensures Terminated(Varint(v), 0, |Varint(v)|)
    ensures LebValue(Varint(v)) == v
  {
    if v >= 0x80 {
      hide Terminated, LebValue;
      VarintReadsBack(v / 128);
      GroupPush(v % 128, Varint(v / 128));
    } else {
      assert LebValue([v]) == v;
    }
  }

  lemma GroupPush(low: nat, rest: seq<byte>)
    requires low < 128 && Terminated(rest, 0, |rest|)
    ensures Terminated([low + 128] + rest, 0, 1 + |rest|)
    ensures LebValue([low + 128] + rest) == low + 128 * LebValue(rest)
  {
    TerminatedPush(low + 128, rest);
    assert Low7(low + 128) == low;
    hide Terminated, Low7;
    assert ([low + 128] + rest)[1..] == rest;
  }

  lemma TerminatedPush(b: byte, rest: seq<byte>)
    requires b >= 128 && Terminated(rest, 0, |rest|)
    ensures Terminated([b] + rest, 0, 1 + |rest|)
  {
    var group := [b] + rest;
    forall i | 0 <= i < |rest| ensures group[i] >= 128 {
      if i > 0 { assert group[i] == rest[i - 1]; }
    }
  }

  /** A number below 2^(7n) takes at most `n` bytes, so a word takes at most ten. */
  lemma {:induction false} VarintLength(v: nat, n: nat)
    requires n >= 1 && v < Shl(1, 7 * n)
    ensures |Varint(v)| <= n
  {
    if v >= 0x80 {
      ShlSeven(1, 7 * (n - 1));
      VarintLength(v / 128, n - 1);
    }
  }

  lemma WordVarintLength(v: u64)
    ensures |Varint(v)| <= 10
  {
    ShlSeven(1, 0); ShlSeven(1, 7); ShlSeven(1, 14); ShlSeven(1, 21); ShlSeven(1, 28);
    ShlSeven(1, 35); ShlSeven(1, 42); ShlSeven(1, 49); ShlSeven(1, 56); ShlSeven(1, 63);
    VarintLength(v, 10);
  }

  /** No byte too many: the last of several is not zero. */
  lemma {:induction false} VarintMinimal(v: nat)
    ensures |Varint(v)| > 1 ==> Varint(v)[|Varint(v)| - 1] != 0
    decreases v
  {
    if v >= 0x80 { VarintMinimal(v / 128); }
  }

  /** LEB128 is self-delimiting: whatever follows, the number and the rest are determined. */
  lemma {:induction false} VarintSelfDelimiting(v: nat, w: nat, s: seq<byte>, t: seq<byte>)
    requires Varint(v) + s == Varint(w) + t
    ensures v == w && s == t
    decreases v
  {
    var a, b := Varint(v), Varint(w);
    assert (a + s)[0] == a[0] && (b + t)[0] == b[0];
    if v < 0x80 {
      assert (a + s)[1..] == s && (b + t)[1..] == t;
    } else {
      assert (a + s)[1..] == Varint(v / 128) + s;
      assert (b + t)[1..] == Varint(w / 128) + t;
      VarintSelfDelimiting(v / 128, w / 128, s, t);
    }
  }

  method PutVarint(out: seq<byte>, v: u64) returns (out': seq<byte>)
    ensures out' == out + Varint(v)
  {
    out' := out;
    var rest: u64 := v;
    while rest >= 0x80
      invariant out' + Varint(rest) == out + Varint(v)
    {
      out' := out' + [rest % 128 + 128];
      rest := rest / 128;
    }
    out' := out' + [rest];
  }

  /** Read the group of `len` bytes at `pos`; the word keeps the low 64 bits of its value. */
  method GetVarint(data: seq<byte>, pos: nat, ghost len: nat) returns (v: u64, pos': nat)
    requires Terminated(data, pos, len) && len <= 10
    ensures pos' == pos + len
    ensures v == U64(LebValue(data[pos..pos + len]))
  {
    v, pos' := 0, pos;
    var shift := 0;
    while true
      invariant pos <= pos' < pos + len
      invariant shift == 7 * (pos' - pos)
      invariant v == U64(LebValue(data[pos..pos']))
      decreases pos + len - pos'
    {
      hide Shl, U64, LebValue, Low7;
      var b := data[pos'];
      LebValueNext(data, pos, pos');
      pos' := pos' + 1;
      // The groups occupy disjoint bits, so the source's `|=` is an addition.
      v := U64(v + Shl(Low7(b), shift));
      if b < 128 { break; }
      shift := shift + 7;
    }
  }

  lemma LebValueNext(data: seq<byte>, pos: nat, i: nat)
    requires pos <= i < |data|
    ensures U64(U64(LebValue(data[pos..i])) + Shl(Low7(data[i]), 7 * (i - pos)))
         == U64(LebValue(data[pos..i + 1]))
  {
    hide Shl, U64, LebValue, Low7;
    LebValuePush(data[pos..i], data[i]);
    assert data[pos..i + 1] == data[pos..i] + [data[i]];
    WrapAdd(LebValue(data[pos..i]), Shl(Low7(data[i]), 7 * (i - pos)));
  }

  lemma WrapAdd(a: int, b: int)
    ensures U64(U64(a) + b) == U64(a + b)
  {
  }

  // ----- zig-zag -----

  /** `x ^ (0 - b)` for a bit `b`: the word, or its complement. */
  function XorMask(x: u64, b: bool): u64 { if b then TWO_64 - 1 - x else x }

  /** `(u << 1) ^ (0 - (u >> 63))`. */
  function ZigZag(u: u64): u64 { XorMask(U64(2 * u), u >= TWO_63) }

  /** `(z >> 1) ^ (0 - (z & 1))`. */
  function UnZigZag(z: u64): u64 { XorMask(z / 2, z % 2 == 1) }

  lemma ZigZagInverse(u: u64)
    ensures UnZigZag(ZigZag(u)) == u && ZigZag(UnZigZag(u)) == u
  {
    assert ZigZag(u) == if u < TWO_63 then 2 * u else 2 * TWO_64 - 1 - 2 * u;
    assert UnZigZag(u) == if u % 2 == 0 then u / 2 else TWO_64 - 1 - u / 2;
    var h, r := u / 2, u % 2;
    assert u == 2 * h + r;
    if r == 1 { assert UnZigZag(u) >= TWO_63; }
  }

  /** Zig-zag sends the integers of magnitude m to the words 2m and 2m - 1. */
  lemma ZigZagMagnitude(i: i64)
    ensures ZigZag(AsUnsigned64(i)) == if i >= 0 then 2 * i else -2 * i - 1
  {
  }

  /** The vector kernel: whole blocks of `lanes` words, then a scalar coda. */
  method UnZigZagVector(zz: seq<u64>, lanes: nat) returns (out: seq<u64>)
    requires lanes >= 1
    ensures |out| == |zz| && forall k :: 0 <= k < |zz| ==> out[k] == UnZigZag(zz[k])
  {
    out := [];
    var i := 0;
    while i + lanes <= |zz|
      invariant 0 <= i <= |zz| && |out| == i
      invariant forall k :: 0 <= k < i ==> out[k] == UnZigZag(zz[k])
    {
      out := out + seq<u64>(lanes, l requires 0 <= l < lanes => UnZigZag(zz[i + l]));
      i := i + lanes;
    }
    while i < |zz|
      invariant 0 <= i <= |zz| && |out| == i
      invariant forall k :: 0 <= k < i ==> out[k] == UnZigZag(zz[k])
    {
      out := out + [UnZigZag(zz[i])];
      i := i + 1;
    }
  }

  method UnZigZagScalar(zz: seq<u64>) returns (out: seq<u64>)
    ensures |out| == |zz| && forall k :: 0 <= k < |zz| ==> out[k] == UnZigZag(zz[k])
  {
    out := [];
    for i := 0 to |zz|
      invariant |out| == i && forall k :: 0 <= k < i ==> out[k] == UnZigZag(zz[k])
    {
      out := out + [UnZigZag(zz[i])];
    }
  }

  // ----- the word stream of a column -----

  /** The running state after `j` values: the previous value and the previous delta. */
  function PrevAt(vals: seq<u64>, j: nat): u64
    requires j <= |vals|
  {
    if j == 0 then 0 else vals[j - 1]
  }

  function DeltaAt(vals: seq<u64>, j: nat): u64
    requires j <= |vals|
  {
    if j == 0 then 0 else U64(vals[j - 1] - PrevAt(vals, j - 1))
  }

  /** The word written for value `j`: its second difference, or the value itself, zig-zagged. */
  function WordAt(dod: bool, vals: seq<u64>, j: nat): u64
    requires j < |vals|
  {
    ZigZag(if dod then U64(U64(vals[j] - PrevAt(vals, j)) - DeltaAt(vals, j)) else vals[j])
  }

  /** The bytes written for the first `j` values. */
  function IntStream(dod: bool, vals: seq<u64>, j: nat): seq<byte>
    requires j <= |vals|
  {
    if j == 0 then [] else IntStream(dod, vals, j - 1) + Varint(WordAt(dod, vals, j - 1))
  }

  lemma WrapInverse(a: u64, b: u64)
    ensures U64(b + U64(a - b)) == a
  {
  }

  /** One decoding step inverts one encoding step, modulo 2^64. */
  lemma SecondDifferenceInverse(vals: seq<u64>, j: nat)
    requires j < |vals|
    ensures var delta := U64(DeltaAt(vals, j) + UnZigZag(WordAt(true, vals, j)));
      delta == DeltaAt(vals, j + 1) && U64(PrevAt(vals, j) + delta) == vals[j]
  {
    hide ZigZag, UnZigZag, U64;
    var delta := U64(vals[j] - PrevAt(vals, j));
    ZigZagInverse(U64(delta - DeltaAt(vals, j)));
    WrapInverse(delta, DeltaAt(vals, j));
    WrapInverse(vals[j], PrevAt(vals, j));
  }

  lemma IntStreamNext(dod: bool, vals: seq<u64>, j: nat)
    requires j < |vals|
    ensures IntStream(dod, vals, j + 1) == IntStream(dod, vals, j) + Varint(WordAt(dod, vals, j))
  {
  }

  lemma {:induction false} IntStreamPrefix(dod: bool, vals: seq<u64>, j: nat, n: nat)
    requires j <= n <= |vals|
    ensures IntStream(dod, vals, j) <= IntStream(dod, vals, n)
  {
    if j < n { IntStreamPrefix(dod, vals, j, n - 1); }
  }

  /** The stream has value `j`'s number at the offset reached after `j` values. */
  lemma IntStreamAt(dod: bool, vals: seq<u64>, j: nat)
    requires j < |vals|
    ensures var all := IntStream(dod, vals, |vals|);
      var pos, len := |IntStream(dod, vals, j)|, |Varint(WordAt(dod, vals, j))|;
      && len <= 10
      && pos + len == |IntStream(dod, vals, j + 1)|
      && Terminated(all, pos, len)
      && LebValue(all[pos..pos + len]) == WordAt(dod, vals, j)
  {
    var all := IntStream(dod, vals, |vals|);
    var w := WordAt(dod, vals, j);
    IntStreamNext(dod, vals, j);
    hide Varint, WordAt, LebValue, Terminated, IntStream;
    IntStreamPrefix(dod, vals, j + 1, |vals|);
    VarintReadsBack(w);
    WordVarintLength(w);
    TerminatedSlice(all, IntStream(dod, vals, j), Varint(w));
  }

  lemma TerminatedSlice(all: seq<byte>, before: seq<byte>, group: seq<byte>)
    requires before + group <= all && Terminated(group, 0, |group|)
    ensures |before| + |group| <= |all|
    ensures Terminated(all, |before|, |group|)
    ensures all[|before|..|before| + |group|] == group
  {
    forall i | 0 <= i < |group| ensures all[|before| + i] == group[i] {
      assert (before + group)[|before| + i] == group[i];
    }
    assert forall i :: |before| <= i < |before| + |group| ==> all[i] == group[i - |before|];
  }

  /** At most ten bytes a value. */
  lemma {:induction false} IntStreamSize(dod: bool, vals: seq<u64>, j: nat)
    requires j <= |vals|
    ensures |IntStream(dod, vals, j)| <= 10 * j
  {
    if j > 0 {
      IntStreamSize(dod, vals, j - 1);
      WordVarintLength(WordAt(dod, vals, j - 1));
    }
  }

  /** The plain words depend on each value alone. */
  lemma {:induction false} PlainConcat(a: seq<u64>, b: seq<u64>, n: nat)
    requires n <= |b|
    ensures IntStream(false, a + b, |a| + n) == IntStream(false, a, |a|) + IntStream(false, b, n)
  {
    if n == 0 {
      PlainPrefix(a, b, |a|);
    } else {
      IntStreamNext(false, a + b, |a| + n - 1);
      IntStreamNext(false, b, n - 1);
      hide IntStream, WordAt, Varint;
      PlainConcat(a, b, n - 1);
      PlainWords(a, b, n - 1);
    }
  }

  lemma PlainWords(a: seq<u64>, b: seq<u64>, j: nat)
    requires j < |b|
    ensures WordAt(false, a + b, |a| + j) == WordAt(false, b, j)
  {
  }

  lemma {:induction false} PlainPrefix(a: seq<u64>, b: seq<u64>, n: nat)
    requires n <= |a|
    ensures IntStream(false, a + b, n) == IntStream(false, a, n)
  {
    if n > 0 { PlainPrefix(a, b, n - 1); }
  }

  method EncodeDod(vals: seq<u64>) returns (out: seq<byte>)
    ensures out == IntStream(true, vals, |vals|)
  {
    out := [];
    var prev: u64, prevDelta: u64 := 0, 0;
    for j := 0 to |vals|
      invariant prev == PrevAt(vals, j) && prevDelta == DeltaAt(vals, j)
      invariant out == IntStream(true, vals, j)
    {
      var delta := U64(vals[j] - prev);
      var dod := U64(delta - prevDelta);
      out := PutVarint(out, ZigZag(dod));
      prevDelta := delta;
      prev := vals[j];
    }
  }

  method EncodeZigZag(vals: seq<u64>) returns (out: seq<byte>)
    ensures out == IntStream(false, vals, |vals|)
  {
    out := [];
    for j := 0 to |vals|
      invariant out == IntStream(false, vals, j)
    {
      out := PutVarint(out, ZigZag(vals[j]));
    }
  }
}
