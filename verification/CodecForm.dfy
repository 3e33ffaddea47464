/**
 The encoded bytes of a column, said outright: which codec its type gets, and what each
 value becomes, in terms of the stored values and of the bits and bytes.
 */
module CodecForms {
  import opened Words
  import opened BitStream
  import opened IntCodec
  import opened Columns
  import Gorilla

  // ----- integers -----

  /** An integer as a natural number, its sign in the lowest bit. */
  function Folded(i: int): nat { if i >= 0 then 2 * i else -2 * i - 1 }

  /** `bytes[from..to]` is the one shortest LEB128 group of `n` (section 7.6 of DWARF 5). */
  ghost predicate IsNumber(bytes: seq<byte>, from: nat, to: nat, n: nat) {
    && from < to && Terminated(bytes, from, to - from)
    && LebValue(bytes[from..to]) == n && (to - from > 1 ==> bytes[to - 1] != 0)
  }

  function ValueAt(v: seq<int>, j: int): int
    requires j < |v|
  {
    if j < 0 then 0 else v[j]
  }

  /** The change of the change, the values before the first taken as 0. */
  function SecondDifference(v: seq<int>, j: nat): int
    requires j < |v|
  {
    v[j] - 2 * ValueAt(v, j - 1) + ValueAt(v, j - 2)
  }

  /** What is written for value `j`: an I32 itself, an I64 or TS by its second difference in 64 bits. */
  ghost predicate Writes(t: Type, v: seq<int>, j: nat, i: int)
    requires j < |v|
  {
    if t.I32? then i == v[j] else Reduced(I64, i, SecondDifference(v, j))
  }

  ghost predicate IsIntAt(t: Type, v: seq<int>, bytes: seq<byte>, ends: seq<nat>, j: nat)
    requires j < |v| && |ends| == |v| + 1
  {
    ends[j] <= ends[j + 1] <= ends[j] + 10 && exists i :: Writes(t, v, j, i) && IsNumber(bytes, ends[j], ends[j + 1], Folded(i))
  }

  ghost predicate IsIntForm(t: Type, v: seq<int>, bytes: seq<byte>, ends: seq<nat>) {
    && |ends| == |v| + 1 && ends[0] == 0 && ends[|v|] == |bytes|
    && forall j | 0 <= j < |v| :: IsIntAt(t, v, bytes, ends, j)
  }

  /** The 64-bit patterns of integers. */
  ghost predicate ArePatterns(vals: seq<u64>, v: seq<int>) {
    |vals| == |v| && forall j | 0 <= j < |v| :: InRange(I64, v[j]) && vals[j] == AsUnsigned64(v[j])
  }

  lemma ZigZagFolds(w: u64)
    ensures ZigZag(w) == Folded(AsSigned64(w))
  {
    ZigZagMagnitude(AsSigned64(w));
  }

  /** The modular second difference is the true one, reduced. */
  lemma DifferenceReduces(a: i64, b: i64, c: i64)
    ensures Reduced(I64, AsSigned64(U64(U64(AsUnsigned64(a) - AsUnsigned64(b)) - U64(AsUnsigned64(b) - AsUnsigned64(c)))), a - 2 * b + c)
  {
    var d, e := U64(AsUnsigned64(a) - AsUnsigned64(b)), U64(AsUnsigned64(b) - AsUnsigned64(c));
    Differs(a, b);
    Differs(b, c);
    Steps(d, e, a - b, b - c);
  }

  lemma Differs(a: i64, b: i64)
    ensures (U64(AsUnsigned64(a) - AsUnsigned64(b)) - (a - b)) % TWO_64 == 0
  {
  }

  lemma Steps(d: u64, e: u64, x: int, y: int)
    requires (d - x) % TWO_64 == 0 && (e - y) % TWO_64 == 0
    ensures Reduced(I64, AsSigned64(U64(d - e)), x - y)
  {
    var k, l, m := (d - x) / TWO_64, (e - y) / TWO_64, (d - e) / TWO_64;
    var w := U64(d - e);
    assert d - e == TWO_64 * m + w;
    MultipleOfWord(w - (x - y), k - l - m);
    MultipleOfWord(w - TWO_64 - (x - y), k - l - m - 1);
  }

  lemma MultipleOfWord(v: int, q: int)
    requires v == TWO_64 * q
    ensures v % TWO_64 == 0
  {
  }

  lemma WordWrites(t: Type, vals: seq<u64>, v: seq<int>, j: nat) returns (i: int)
    requires (t.I32? || t.I64? || t.TS?) && ArePatterns(vals, v) && j < |v|
    ensures Writes(t, v, j, i) && WordAt(!t.I32?, vals, j) == Folded(i)
  {
    hide ZigZag, Reduced, Folded;
    if t.I32? {
      ZigZagFolds(vals[j]);
      i := AsSigned64(vals[j]);
    } else {
      var w := U64(U64(vals[j] - PrevAt(vals, j)) - DeltaAt(vals, j));
      PatternsBefore(vals, v, j);
      DifferenceReduces(v[j], ValueAt(v, j - 1), ValueAt(v, j - 2));
      ZigZagFolds(w);
      i := AsSigned64(w);
    }
  }

  lemma PatternsBefore(vals: seq<u64>, v: seq<int>, j: nat)
    requires ArePatterns(vals, v) && j < |v|
    ensures InRange(I64, ValueAt(v, j - 1)) && InRange(I64, ValueAt(v, j - 2))
    ensures PrevAt(vals, j) == AsUnsigned64(ValueAt(v, j - 1))
    ensures DeltaAt(vals, j) == U64(AsUnsigned64(ValueAt(v, j - 1)) - AsUnsigned64(ValueAt(v, j - 2)))
  {
  }

  lemma NumberAt(dod: bool, vals: seq<u64>, j: nat)
    requires j < |vals|
    ensures var from, to := |IntStream(dod, vals, j)|, |IntStream(dod, vals, j + 1)|;
      from <= to <= from + 10 && IsNumber(IntStream(dod, vals, |vals|), from, to, WordAt(dod, vals, j))
  {
    hide WordAt, Varint, LebValue, Terminated, IntStream;
    IntStreamAt(dod, vals, j);
    MinimalAt(dod, vals, j);
  }

  /** Where each value's number ends. */
  function IntEnds(dod: bool, vals: seq<u64>): (ends: seq<nat>)
    ensures |ends| == |vals| + 1 && forall j | 0 <= j <= |vals| :: ends[j] == |IntStream(dod, vals, j)|
  {
    seq(|vals| + 1, j requires 0 <= j <= |vals| => |IntStream(dod, vals, j)|)
  }

  lemma IntStreamIs(t: Type, vals: seq<u64>, v: seq<int>)
    requires (t.I32? || t.I64? || t.TS?) && ArePatterns(vals, v)
    ensures IsIntForm(t, v, IntStream(!t.I32?, vals, |vals|), IntEnds(!t.I32?, vals))
  {
    assert IntStream(!t.I32?, vals, 0) == [];
    hide Writes, WordAt, IntStream, IntEnds, IsNumber, ArePatterns, Folded;
    var bytes, ends := IntStream(!t.I32?, vals, |vals|), IntEnds(!t.I32?, vals);
    forall j | 0 <= j < |v| ensures IsIntAt(t, v, bytes, ends, j) {
      NumberAt(!t.I32?, vals, j);
      var i := WordWrites(t, vals, v, j);
    }
  }

  lemma MinimalAt(dod: bool, vals: seq<u64>, j: nat)
    requires j < |vals|
    ensures var all, from, to := IntStream(dod, vals, |vals|), |IntStream(dod, vals, j)|, |IntStream(dod, vals, j + 1)|;
      from < to <= |all| && (to - from > 1 ==> all[to - 1] != 0)
  {
    hide WordAt, Varint;
    var w := WordAt(dod, vals, j);
    VarintMinimal(w);
    IntStreamPrefix(dod, vals, j + 1, |vals|);
    var all, next := IntStream(dod, vals, |vals|), IntStream(dod, vals, j + 1);
    assert all[|next| - 1] == next[|next| - 1] == Varint(w)[|Varint(w)| - 1];
  }

  // ----- what that costs -----

  lemma {:induction false} LebPositive(bytes: seq<byte>)
    requires bytes != [] && bytes[|bytes| - 1] % 128 != 0
    ensures LebValue(bytes) > 0
  {
    if |bytes| > 1 { LebPositive(bytes[1..]); }
  }

  /** Zero takes one byte, which is zero. */
  lemma ZeroIsOneByte(bytes: seq<byte>, from: nat, to: nat)
    requires IsNumber(bytes, from, to, 0)
    ensures to == from + 1 && bytes[from] == 0
  {
    var group := bytes[from..to];
    assert group[|group| - 1] == bytes[to - 1];
    if bytes[to - 1] != 0 { LebPositive(group); }
    assert group == [bytes[from]];
  }

  /** Of values in arithmetic progression, every one from the third on takes one byte, zero. */
  lemma {:induction false} ProgressionIsShort(t: Type, v: seq<int>, bytes: seq<byte>, ends: seq<nat>, n: nat)
    requires (t.I64? || t.TS?) && IsIntForm(t, v, bytes, ends) && 2 <= n <= |v|
    requires forall j | 2 <= j < |v| :: v[j] - v[j - 1] == v[1] - v[0]
    ensures ends[n] == ends[2] + (n - 2) && ends[2] <= 20
    ensures forall k | ends[2] <= k < ends[n] :: k < |bytes| && bytes[k] == 0
  {
    assert IsIntAt(t, v, bytes, ends, 0) && IsIntAt(t, v, bytes, ends, 1);
    if n > 2 {
      ProgressionIsShort(t, v, bytes, ends, n - 1);
      SteadyIsZero(t, v, bytes, ends, n - 1);
    }
  }

  lemma SteadyIsZero(t: Type, v: seq<int>, bytes: seq<byte>, ends: seq<nat>, j: nat)
    requires (t.I64? || t.TS?) && |ends| == |v| + 1 && 2 <= j < |v| && IsIntAt(t, v, bytes, ends, j)
    requires forall k | 2 <= k < |v| :: v[k] - v[k - 1] == v[1] - v[0]
    ensures ends[j + 1] == ends[j] + 1 && ends[j] < |bytes| && bytes[ends[j]] == 0
  {
    var i :| Writes(t, v, j, i) && IsNumber(bytes, ends[j], ends[j + 1], Folded(i));
    assert SecondDifference(v, j) == 0 by {
      if j > 2 { assert v[j - 1] - v[j - 2] == v[1] - v[0]; }
    }
    ReducedZero(i);
    ZeroIsOneByte(bytes, ends[j], ends[j + 1]);
  }

  lemma ReducedZero(i: int)
    requires Reduced(I64, i, 0)
    ensures i == 0
  {
  }

  // ----- every type -----

  /** The patterns of doubles. */
  function Doubles(v: seq<int>): (d: seq<u64>)
    ensures |d| == |v|
  {
    seq<u64>(|v|, j requires 0 <= j < |v| => U64(v[j]))
  }

  ghost predicate IsGorillaForm(vals: seq<u64>, bytes: seq<byte>, size: nat, ends: seq<nat>, ws: seq<Gorilla.Window>) {
    && size <= 8 * |bytes| < size + 8
    && Gorilla.IsStream(vals, BitsOfBytes(bytes)[..size], ends, ws)
    && forall k | size <= k < 8 * |bytes| :: !BitsOfBytes(bytes)[k]
  }

  /** Integers by number, doubles by their changes, booleans a bit each; padded with zero bits to whole bytes. */
  ghost predicate IsEncoding(t: Type, v: seq<int>, bytes: seq<byte>) {
    match t
    case F64 => exists size: nat, ends, ws :: IsGorillaForm(Doubles(v), bytes, size, ends, ws)
    case BOOL =>
      |bytes| == (|v| + 7) / 8 && forall k | 0 <= k < 8 * |bytes| :: BitsOfBytes(bytes)[k] == (k < |v| && v[k] != 0)
    case STR => false
    case _ => exists ends :: IsIntForm(t, v, bytes, ends)
  }

  /** A timestamp column with a fixed step: at most 20 bytes, and one zero byte for each value from the third on. */
  lemma ProgressionColumn(t: Type, v: seq<int>, bytes: seq<byte>)
    requires (t.I64? || t.TS?) && IsEncoding(t, v, bytes) && |v| >= 2
    requires forall j | 2 <= j < |v| :: v[j] - v[j - 1] == v[1] - v[0]
    ensures |v| - 2 <= |bytes| <= 20 + (|v| - 2)
    ensures forall k | |bytes| - (|v| - 2) <= k < |bytes| :: bytes[k] == 0
  {
    var ends :| IsIntForm(t, v, bytes, ends);
    ProgressionIsShort(t, v, bytes, ends, |v|);
  }

  /** The bytes hold the bits, and fewer than eight zeros after them. */
  ghost predicate PaddedTo(bytes: seq<byte>, bits: seq<bool>) {
    && |bytes| == (|bits| + 7) / 8
    && BitsOfBytes(bytes) == bits + Zeros(8 * |bytes| - |bits|)
  }

  lemma PaddedBits(bytes: seq<byte>, bits: seq<bool>)
    requires PaddedTo(bytes, bits)
    ensures |bits| <= 8 * |bytes| < |bits| + 8 && BitsOfBytes(bytes)[..|bits|] == bits
    ensures forall k | |bits| <= k < 8 * |bytes| :: !BitsOfBytes(bytes)[k]
  {
    hide BitsOfBytes;
    forall k | |bits| <= k < 8 * |bytes| ensures !BitsOfBytes(bytes)[k] {
      assert BitsOfBytes(bytes)[k] == Zeros(8 * |bytes| - |bits|)[k - |bits|];
    }
  }

  lemma GorillaIs(vals: seq<u64>, bytes: seq<byte>)
    requires PaddedTo(bytes, Gorilla.Stream(vals, |vals|))
    ensures IsGorillaForm(vals, bytes, |Gorilla.Stream(vals, |vals|)|, Gorilla.Ends(vals), Gorilla.Windows(vals))
  {
    hide Gorilla.Stream, Gorilla.IsStream, BitsOfBytes, PaddedTo;
    Gorilla.StreamIs(vals);
    PaddedBits(bytes, Gorilla.Stream(vals, |vals|));
  }

  lemma BitsAre(vals: seq<u64>, v: seq<int>, bytes: seq<byte>)
    requires |vals| == |v| && forall j | 0 <= j < |v| :: vals[j] == if v[j] != 0 then 1 else 0
    requires PaddedTo(bytes, Gorilla.BoolBits(vals))
    ensures IsEncoding(BOOL, v, bytes)
  {
    var bits := Gorilla.BoolBits(vals);
    PaddedBits(bytes, bits);
    hide BitsOfBytes;
    forall k | 0 <= k < 8 * |bytes| ensures BitsOfBytes(bytes)[k] == (k < |v| && v[k] != 0) {
      if k < |v| { assert BitsOfBytes(bytes)[..|bits|][k] == bits[k]; }
    }
  }
}
