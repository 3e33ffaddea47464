/**
 The radix path of Sort: order-preserving byte strings and a stable LSD byte radix.

 Each counting pass distributes the current permutation into 256 buckets; the passes
 run from the least significant byte to the most significant one. The result is the
 stable permutation of the rows, which the comparison path also returns.
 */
module RadixSort {
  import opened Words
  import opened Columns
  import opened SortOrders

  // ----- one counting pass -----

  /** The elements of `perm` whose digit is `b`, in order. */
  function Bucket(perm: seq<nat>, digit: seq<byte>, b: nat): seq<nat>
    requires forall i | 0 <= i < |perm| :: perm[i] < |digit|
  {
    if perm == [] then []
    else
      var last := perm[|perm| - 1];
      Bucket(perm[..|perm| - 1], digit, b) + (if digit[last] == b then [last] else [])
  }

  /** The buckets `0 .. n - 1`, one after another. */
  function Buckets(perm: seq<nat>, digit: seq<byte>, n: nat): seq<nat>
    requires forall i | 0 <= i < |perm| :: perm[i] < |digit|
  {
    if n == 0 then [] else Buckets(perm, digit, n - 1) + Bucket(perm, digit, n - 1)
  }

  lemma {:induction false} BucketMembers(perm: seq<nat>, digit: seq<byte>, b: nat, x: nat)
    requires forall i | 0 <= i < |perm| :: perm[i] < |digit|
    ensures x in Bucket(perm, digit, b) <==> x in perm && digit[x] == b
  {
    if perm != [] {
      var init, last := perm[..|perm| - 1], perm[|perm| - 1];
      BucketMembers(init, digit, b, x);
      assert perm == init + [last];
      assert x in perm <==> x in init || x == last;
    }
  }

  /** A pass loses and invents nothing. */
  lemma {:induction false} BucketsMembers(perm: seq<nat>, digit: seq<byte>, n: nat, x: nat)
    requires forall i | 0 <= i < |perm| :: perm[i] < |digit|
    ensures x in Buckets(perm, digit, n) <==> x in perm && digit[x] < n
  {
    hide Bucket;
    if n > 0 {
      BucketMembers(perm, digit, n - 1, x);
      BucketsMembers(perm, digit, n - 1, x);
    }
  }

  lemma {:induction false} BucketOrdered(less: (nat, nat) -> bool, perm: seq<nat>, digit: seq<byte>, b: nat)
    requires forall i | 0 <= i < |perm| :: perm[i] < |digit|
    requires Ordered(less, perm)
    ensures Ordered(less, Bucket(perm, digit, b))
  {
    if perm != [] {
      var init, last := perm[..|perm| - 1], perm[|perm| - 1];
      BucketOrdered(less, init, digit, b);
      forall x | x in init ensures less(x, last) {
        var i :| 0 <= i < |init| && init[i] == x;
      }
      var r := Bucket(init, digit, b);
      forall i | 0 <= i < |r| ensures less(r[i], last) { BucketMembers(init, digit, b, r[i]); }
    }
  }

  /** A stable pass: ordered by digit, and within a digit as before. */
  lemma {:induction false} BucketsOrdered(less: (nat, nat) -> bool, less': (nat, nat) -> bool,
                                         perm: seq<nat>, digit: seq<byte>, n: nat)
    requires forall i | 0 <= i < |perm| :: perm[i] < |digit|
    requires Ordered(less, perm)
    requires forall x, y | x in perm && y in perm ::
      (digit[x] < digit[y] || (digit[x] == digit[y] && less(x, y))) ==> less'(x, y)
    ensures Ordered(less', Buckets(perm, digit, n))
  {
    hide Bucket;
    if n > 0 {
      BucketsOrdered(less, less', perm, digit, n - 1);
      BucketOrdered(less, perm, digit, n - 1);
      var a, b := Buckets(perm, digit, n - 1), Bucket(perm, digit, n - 1);
      forall i, j | 0 <= i < j < |a + b| ensures less'((a + b)[i], (a + b)[j]) {
        var x, y := (a + b)[i], (a + b)[j];
        if i < |a| && |a| <= j {
          BucketsMembers(perm, digit, n - 1, x);
          BucketMembers(perm, digit, n - 1, y);
        } else if |a| <= i {
          BucketMembers(perm, digit, n - 1, x);
          BucketMembers(perm, digit, n - 1, y);
          assert less(b[i - |a|], b[j - |a|]);
        }
      }
    }
  }

  lemma BucketLast(perm: seq<nat>, digit: seq<byte>, b: nat)
    requires forall i | 0 <= i < |perm| :: perm[i] < |digit|
    requires |perm| > 0
    ensures var last := perm[|perm| - 1];
      Bucket(perm, digit, b) == Bucket(perm[..|perm| - 1], digit, b) + (if digit[last] == b then [last] else [])
  {
  }

  /** The passes lose nothing: all the buckets together have the length of the input. */
  lemma {:induction false} BucketsLength(perm: seq<nat>, digit: seq<byte>, n: nat)
    requires forall i | 0 <= i < |perm| :: perm[i] < |digit|
    requires |perm| > 0
    ensures var last := perm[|perm| - 1];
      |Buckets(perm, digit, n)|
      == |Buckets(perm[..|perm| - 1], digit, n)| + (if digit[last] < n then 1 else 0)
  {
    if n > 0 { BucketLast(perm, digit, n - 1); }
    hide Bucket;
    if n > 0 { BucketsLength(perm, digit, n - 1); }
  }

  lemma {:induction false} BucketsTotal(perm: seq<nat>, digit: seq<byte>)
    requires forall i | 0 <= i < |perm| :: perm[i] < |digit|
    ensures |Buckets(perm, digit, 256)| == |perm|
  {
    if perm == [] {
      BucketsOfNothing(digit, 256);
    } else {
      BucketsLength(perm, digit, 256);
      BucketsTotal(perm[..|perm| - 1], digit);
    }
  }

  lemma {:induction false} BucketsOfNothing(digit: seq<byte>, n: nat)
    ensures Buckets([], digit, n) == []
  {
    if n > 0 { BucketsOfNothing(digit, n - 1); }
  }

  /** Where bucket `b` starts. */
  function Start(perm: seq<nat>, digit: seq<byte>, b: nat): nat
    requires forall i | 0 <= i < |perm| :: perm[i] < |digit|
  {
    |Buckets(perm, digit, b)|
  }

  lemma {:induction false} StartMonotone(perm: seq<nat>, digit: seq<byte>, b: nat, c: nat)
    requires forall i | 0 <= i < |perm| :: perm[i] < |digit|
    requires b <= c
    ensures Start(perm, digit, b) <= Start(perm, digit, c)
    decreases c
  {
    hide Bucket;
    if b < c { StartMonotone(perm, digit, b, c - 1); }
  }

  lemma {:induction false} BucketPrefix(perm: seq<nat>, digit: seq<byte>, b: nat, i: nat)
    requires forall i | 0 <= i < |perm| :: perm[i] < |digit|
    requires i <= |perm|
    ensures Bucket(perm[..i], digit, b) <= Bucket(perm, digit, b)
  {
    if i < |perm| {
      BucketPrefix(perm[..|perm| - 1], digit, b, i);
      assert perm[..|perm| - 1][..i] == perm[..i];
    } else {
      assert perm[..i] == perm;
    }
  }

  lemma BucketNext(perm: seq<nat>, digit: seq<byte>, b: nat, i: nat)
    requires forall i | 0 <= i < |perm| :: perm[i] < |digit|
    requires i < |perm|
    ensures Bucket(perm[..i + 1], digit, b)
         == Bucket(perm[..i], digit, b) + (if digit[perm[i]] == b then [perm[i]] else [])
  {
    BucketLast(perm[..i + 1], digit, b);
    assert perm[..i + 1][..i] == perm[..i];
  }

  /** Bucket `b`'s share of the first `i` elements is in place. */
  ghost predicate Segment(t: seq<nat>, perm: seq<nat>, digit: seq<byte>, i: nat, b: nat)
    requires forall i | 0 <= i < |perm| :: perm[i] < |digit|
    requires i <= |perm|
  {
    var s, k := Start(perm, digit, b), Bucket(perm[..i], digit, b);
    s + |k| <= |t| && t[s..s + |k|] == k
  }

  ghost predicate Distributed(t: seq<nat>, perm: seq<nat>, digit: seq<byte>, i: nat)
    requires forall i | 0 <= i < |perm| :: perm[i] < |digit|
    requires i <= |perm|
  {
    forall b: nat | b < 256 :: Segment(t, perm, digit, i, b)
  }

  /** Placing element `i` at its bucket's offset extends that bucket and leaves the others. */
  lemma PlaceStep(t: seq<nat>, perm: seq<nat>, digit: seq<byte>, i: nat, b: nat)
    requires forall i | 0 <= i < |perm| :: perm[i] < |digit|
    requires i < |perm| == |t| && b < 256 && Segment(t, perm, digit, i, b)
    ensures var bb := digit[perm[i]];
      var at := Start(perm, digit, bb) + |Bucket(perm[..i], digit, bb)|;
      at < |t| && Segment(t[at := perm[i]], perm, digit, i + 1, b)
  {
    hide Bucket;
    var bb := digit[perm[i]];
    BucketNext(perm, digit, bb, i);
    BucketNext(perm, digit, b, i);
    BucketPrefix(perm, digit, bb, i + 1);
    BucketPrefix(perm, digit, b, i);
    BucketsTotal(perm, digit);
    StartMonotone(perm, digit, bb + 1, 256);
    if b < bb { StartMonotone(perm, digit, b + 1, bb); }
    if bb < b { StartMonotone(perm, digit, bb + 1, b); }
  }

  lemma {:induction false} AllPlaced(t: seq<nat>, perm: seq<nat>, digit: seq<byte>, n: nat)
    requires forall i | 0 <= i < |perm| :: perm[i] < |digit|
    requires forall b | 0 <= b < n :: Segment(t, perm, digit, |perm|, b)
    ensures Start(perm, digit, n) <= |t| && t[..Start(perm, digit, n)] == Buckets(perm, digit, n)
  {
    hide Bucket;
    if n > 0 {
      AllPlaced(t, perm, digit, n - 1);
      assert Segment(t, perm, digit, |perm|, n - 1);
      assert perm[..|perm|] == perm;
    }
  }

  /** Count the digits of `perm`. */
  method Count(digit: seq<byte>, perm: array<nat>, cnt: array<nat>)
    requires perm != cnt && cnt.Length == 256
    requires forall i | 0 <= i < perm.Length :: perm[i] < |digit|
    requires forall b | 0 <= b < 256 :: cnt[b] == 0
    modifies cnt
    ensures forall b | 0 <= b < 256 :: cnt[b] == |Bucket(perm[..], digit, b)|
  {
    ghost var p := perm[..];
    assert p[..0] == [];
    for i := 0 to perm.Length
      invariant forall b | 0 <= b < 256 :: cnt[b] == |Bucket(p[..i], digit, b)|
    {
      hide Bucket;
      forall b: nat | b < 256
        ensures |Bucket(p[..i + 1], digit, b)| == |Bucket(p[..i], digit, b)| + (if digit[p[i]] == b then 1 else 0)
      {
        BucketNext(p, digit, b, i);
      }
      cnt[digit[perm[i]]] := cnt[digit[perm[i]]] + 1;
    }
    assert p[..perm.Length] == p;
  }

  /** Exclusive prefix sums: where each bucket starts. */
  method PrefixSums(cnt: array<nat>, off: array<nat>, ghost perm: seq<nat>, ghost digit: seq<byte>)
    requires cnt != off && cnt.Length == off.Length == 256
    requires forall i | 0 <= i < |perm| :: perm[i] < |digit|
    requires forall b | 0 <= b < 256 :: cnt[b] == |Bucket(perm, digit, b)|
    modifies off
    ensures forall b | 0 <= b < 256 :: off[b] == Start(perm, digit, b)
  {
    hide Bucket;
    var s := 0;
    for b := 0 to 256
      invariant s == Start(perm, digit, b)
      invariant forall c | 0 <= c < b :: off[c] == Start(perm, digit, c)
      invariant forall c | 0 <= c < 256 :: cnt[c] == old(cnt[c])
    {
      off[b] := s;
      s := s + cnt[b];
    }
  }

  /** One pass of the byte radix: count, prefix-sum, distribute in order. */
  method CountingPass(digit: seq<byte>, perm: array<nat>, tmp: array<nat>)
    requires perm != tmp && perm.Length == tmp.Length
    requires forall i | 0 <= i < perm.Length :: perm[i] < |digit|
    modifies tmp
    ensures tmp[..] == Buckets(perm[..], digit, 256)
  {
    hide Bucket, Segment, Start, Buckets;
    ghost var p := perm[..];
    var cnt, off := new nat[256](_ => 0), new nat[256](_ => 0);
    Count(digit, perm, cnt);
    PrefixSums(cnt, off, p, digit);
    NothingPlaced(tmp[..], p, digit);
    for i := 0 to perm.Length
      invariant perm[..] == p
      invariant forall b: nat | b < 256 :: off[b] == Start(p, digit, b) + |Bucket(p[..i], digit, b)|
      invariant Distributed(tmp[..], p, digit, i)
    {
      var bb := digit[perm[i]];
      ghost var t := tmp[..];
      AllPlaceStep(t, p, digit, i);
      tmp[off[bb]] := perm[i];
      assert tmp[..] == t[off[bb] := p[i]];
      off[bb] := off[bb] + 1;
    }
    AllPlaced(tmp[..], p, digit, 256);
    BucketsTotal(p, digit);
    StartOfEnd(p, digit);
  }

  lemma StartOfEnd(perm: seq<nat>, digit: seq<byte>)
    requires forall i | 0 <= i < |perm| :: perm[i] < |digit|
    ensures Start(perm, digit, 256) == |Buckets(perm, digit, 256)|
  {
  }

  lemma NothingPlaced(t: seq<nat>, perm: seq<nat>, digit: seq<byte>)
    requires forall i | 0 <= i < |perm| :: perm[i] < |digit|
    requires |t| == |perm|
    ensures forall b: nat | b < 256 ::
      |Bucket(perm[..0], digit, b)| == 0
    ensures Distributed(t, perm, digit, 0)
  {
    hide Buckets;
    forall b: nat | b < 256
      ensures |Bucket(perm[..0], digit, b)| == 0 && Segment(t, perm, digit, 0, b)
    {
      BucketsTotal(perm, digit);
      StartMonotone(perm, digit, b, 256);
    }
  }

  lemma AllPlaceStep(t: seq<nat>, perm: seq<nat>, digit: seq<byte>, i: nat)
    requires forall i | 0 <= i < |perm| :: perm[i] < |digit|
    requires i < |perm| == |t| && Distributed(t, perm, digit, i)
    ensures var bb := digit[perm[i]];
      var at := Start(perm, digit, bb) + |Bucket(perm[..i], digit, bb)|;
      && at < |t|
      && Distributed(t[at := perm[i]], perm, digit, i + 1)
      && (forall b: nat | b < 256 ::
            |Bucket(perm[..i + 1], digit, b)| == |Bucket(perm[..i], digit, b)| + (if bb == b then 1 else 0))
  {
    hide Bucket, Segment, Start, Buckets;
    var bb := digit[perm[i]];
    PlaceStep(t, perm, digit, i, bb);
    var t' := t[Start(perm, digit, bb) + |Bucket(perm[..i], digit, bb)| := perm[i]];
    var next := i + 1;
    forall b: nat | b < 256 ensures Segment(t', perm, digit, next, b) {
      PlaceStep(t, perm, digit, i, b);
    }
    forall b: nat | b < 256
      ensures |Bucket(perm[..i + 1], digit, b)| == |Bucket(perm[..i], digit, b)| + (if bb == b then 1 else 0)
    {
      BucketNext(perm, digit, b, i);
    }
  }

  // ----- the order-preserving encoding -----

  /** Integer and timestamp keys only. */
  predicate RadixType(t: Type) { t.I32? || t.I64? || t.TS? }

  function ValueBytes(t: Type): nat { if t.I32? then 4 else 8 }

  /** The unsigned image with the sign bit flipped. */
  function EncodeValue(t: Type, v: int): u64
    requires RadixType(t) && InRange(t, v)
  {
    if t.I32? then
      var u := v % TWO_32;
      if u >= TWO_31 then u - TWO_31 else u + TWO_31
    else
      var u := AsUnsigned64(v);
      if u >= TWO_63 then u - TWO_63 else u + TWO_63
  }

  /** The flip makes the unsigned order the signed one. */
  lemma EncodeValueShifts(t: Type, v: int)
    requires RadixType(t) && InRange(t, v)
    ensures EncodeValue(t, v) == v + (if t.I32? then TWO_31 else TWO_63)
  {
  }

  function BigEndian(u: nat, n: nat): (bytes: seq<byte>)
    ensures |bytes| == n
  {
    if n == 0 then [] else BigEndian(u / 256, n - 1) + [u % 256]
  }

  function Complement(bytes: seq<byte>): (c: seq<byte>)
    ensures |c| == |bytes|
  {
    seq(|bytes|, i requires 0 <= i < |bytes| => 255 - bytes[i])
  }

  function NullByte(k: SortKey, isNull: bool): byte {
    if k.nulls.First? then (if isNull then 0 else 1) else (if isNull then 1 else 0)
  }

  /** A key's field: the null indicator, then the value bytes, complemented for DESC. */
  function Field(k: SortKey, t: Type, c: Cell): (bytes: seq<byte>)
    requires RadixType(t) && RadixCell(t, c)
    ensures |bytes| == 1 + ValueBytes(t)
  {
    var u := if c.Null? then 0 else EncodeValue(t, c.i);
    var bytes := BigEndian(u, ValueBytes(t));
    [NullByte(k, c.Null?)] + (if k.dir.Desc? then Complement(bytes) else bytes)
  }

  predicate RadixCell(t: Type, c: Cell) { c.Null? || (c.Num? && InRange(t, c.i)) }

  ghost predicate RadixRow(keys: seq<SortKey>, types: seq<Type>, row: Row) {
    && |row| == |types|
    && forall j | 0 <= j < |keys| ::
         keys[j].col < |types| && RadixType(types[keys[j].col]) && RadixCell(types[keys[j].col], row[keys[j].col])
  }

  function Width(keys: seq<SortKey>, types: seq<Type>): nat
    requires KeysFit(keys, |types|)
  {
    if keys == [] then 0 else 1 + ValueBytes(types[keys[0].col]) + Width(keys[1..], types)
  }

  /** The memcmp-able byte string of a row. */
  function EncodeRow(keys: seq<SortKey>, types: seq<Type>, row: Row): (bytes: seq<byte>)
    requires RadixRow(keys, types, row)
    ensures |bytes| == Width(keys, types)
  {
    if keys == [] then []
    else Field(keys[0], types[keys[0].col], row[keys[0].col]) + EncodeRow(keys[1..], types, row)
  }

  lemma {:induction false} LexCmpConcat(a: seq<int>, b: seq<int>, c: seq<int>, d: seq<int>)
    requires |a| == |b|
    ensures LexCmp(a + c, b + d) == if LexCmp(a, b) != 0 then LexCmp(a, b) else LexCmp(c, d)
  {
    if a == [] {
      assert a + c == c && b + d == d;
    } else {
      LexCmpConcat(a[1..], b[1..], c, d);
      assert (a + c)[1..] == a[1..] + c && (b + d)[1..] == b[1..] + d;
    }
  }

  /** `u` has at most `n` base-256 digits. */
  predicate Fits(u: nat, n: nat) { if n == 0 then u == 0 else Fits(u / 256, n - 1) }

  lemma {:induction false} LexCmpBigEndian(u: nat, w: nat, n: nat)
    requires Fits(u, n) && Fits(w, n)
    ensures LexCmp(BigEndian(u, n), BigEndian(w, n)) == IntCmp(u, w)
  {
    if n > 0 {
      LexCmpBigEndian(u / 256, w / 256, n - 1);
      LexCmpConcat(BigEndian(u / 256, n - 1), BigEndian(w / 256, n - 1), [u % 256], [w % 256]);
    }
  }

  lemma {:induction false} LexCmpComplement(a: seq<byte>, b: seq<byte>)
    requires |a| == |b|
    ensures LexCmp(Complement(a), Complement(b)) == -LexCmp(a, b)
  {
    if a != [] {
      assert Complement(a)[1..] == Complement(a[1..]);
      assert Complement(b)[1..] == Complement(b[1..]);
      LexCmpComplement(a[1..], b[1..]);
    }
  }

  lemma EncodedFits(t: Type, v: int)
    requires RadixType(t) && InRange(t, v)
    ensures Fits(EncodeValue(t, v), ValueBytes(t)) && Fits(0, ValueBytes(t))
  {
    EncodeValueShifts(t, v);
    FitsWord(EncodeValue(t, v));
    FitsWord(0);
  }

  lemma FitsWord(u: u64)
    ensures u < TWO_32 ==> Fits(u, 4)
    ensures Fits(u, 8)
  {
    var u1 := u / 256; var u2 := u1 / 256; var u3 := u2 / 256; var u4 := u3 / 256;
    if u < TWO_32 { assert u4 == 0; assert Fits(u4, 0) && Fits(u3, 1) && Fits(u2, 2); }
    var u5 := u4 / 256; var u6 := u5 / 256; var u7 := u6 / 256; var u8 := u7 / 256;
    assert u8 == 0;
    assert Fits(u8, 0) && Fits(u7, 1) && Fits(u6, 2) && Fits(u5, 3) && Fits(u4, 4) && Fits(u3, 5) && Fits(u2, 6);
  }

  /** Byte order of a field is the key's comparison: ASC or DESC, NULLS FIRST or LAST. */
  lemma FieldOrder(k: SortKey, t: Type, a: Cell, b: Cell)
    requires RadixType(t) && RadixCell(t, a) && RadixCell(t, b)
    ensures LexCmp(Field(k, t, a), Field(k, t, b)) == KeyCmp(k, a, b)
  {
    hide BigEndian, LexCmp, Fits, EncodeValue, Complement;
    var u := if a.Null? then 0 else EncodeValue(t, a.i);
    var w := if b.Null? then 0 else EncodeValue(t, b.i);
    EncodedFits(t, if a.Null? then 0 else a.i);
    EncodedFits(t, if b.Null? then 0 else b.i);
    if a.Num? { EncodeValueShifts(t, a.i); }
    if b.Num? { EncodeValueShifts(t, b.i); }
    var x, y := BigEndian(u, ValueBytes(t)), BigEndian(w, ValueBytes(t));
    LexCmpBigEndian(u, w, ValueBytes(t));
    LexCmpComplement(x, y);
    var p, q := NullByte(k, a.Null?), NullByte(k, b.Null?);
    SingleCmp(p, q);
    if k.dir.Desc? {
      LexCmpConcat([p], [q], Complement(x), Complement(y));
    } else {
      LexCmpConcat([p], [q], x, y);
    }
  }

  lemma SingleCmp(p: int, q: int)
    ensures LexCmp([p], [q]) == IntCmp(p, q)
  {
  }

  /** Byte order of the encoded rows is the ORDER BY order. */
  lemma {:induction false} EncodeOrder(keys: seq<SortKey>, types: seq<Type>, a: Row, b: Row)
    requires RadixRow(keys, types, a) && RadixRow(keys, types, b)
    ensures LexCmp(EncodeRow(keys, types, a), EncodeRow(keys, types, b)) == RowCmp(keys, a, b)
  {
    hide KeyCmp, Field;
    if keys != [] {
      var k, t := keys[0], types[keys[0].col];
      FieldOrder(k, t, a[k.col], b[k.col]);
      EncodeOrder(keys[1..], types, a, b);
      LexCmpConcat(Field(k, t, a[k.col]), Field(k, t, b[k.col]),
                   EncodeRow(keys[1..], types, a), EncodeRow(keys[1..], types, b));
    }
  }

  /** Write one field: the indicator byte, then the value bytes from the top. */
  method BuildField(k: SortKey, t: Type, c: Cell) returns (field: seq<byte>)
    requires RadixType(t) && RadixCell(t, c)
    ensures field == Field(k, t, c)
  {
    hide BigEndian, EncodeValue;
    var vb := ValueBytes(t);
    var u := if c.Null? then 0 else EncodeValue(t, c.i);
    field := [NullByte(k, c.Null?)];
    ghost var bytes := if k.dir.Desc? then Complement(BigEndian(u, vb)) else BigEndian(u, vb);
    for b := 0 to vb
      invariant field == [NullByte(k, c.Null?)] + bytes[..b]
    {
      BigEndianByte(u, vb, b);
      var byteval := Shr(u, 8 * (vb - 1 - b)) % 256;
      if k.dir.Desc? { byteval := 255 - byteval; }
      assert bytes[..b + 1] == bytes[..b] + [byteval];
      field := field + [byteval];
    }
    assert bytes[..vb] == bytes;
  }

  /** Encode a row field by field, key 0 first. */
  method BuildKey(keys: seq<SortKey>, types: seq<Type>, row: Row) returns (key: seq<byte>)
    requires RadixRow(keys, types, row)
    ensures key == EncodeRow(keys, types, row)
  {
    hide Field;
    key := [];
    assert keys[0..] == keys;
    for j := 0 to |keys|
      invariant key + EncodeRow(keys[j..], types, row) == EncodeRow(keys, types, row)
    {
      var k, t := keys[j], types[keys[j].col];
      var field := BuildField(k, t, row[k.col]);
      EncodeRowNext(keys[j..], types, row);
      assert keys[j..][1..] == keys[j + 1..];
      assert key + (field + EncodeRow(keys[j + 1..], types, row))
          == key + field + EncodeRow(keys[j + 1..], types, row);
      key := key + field;
    }
    assert keys[|keys|..] == [];
  }

  lemma EncodeRowNext(keys: seq<SortKey>, types: seq<Type>, row: Row)
    requires RadixRow(keys, types, row) && keys != []
    ensures EncodeRow(keys, types, row)
         == Field(keys[0], types[keys[0].col], row[keys[0].col]) + EncodeRow(keys[1..], types, row)
  {
  }

  lemma ShrByte(u: nat, k: nat)
    ensures Shr(u, k + 8) == Shr(u / 256, k)
  {
    assert u / 2 / 2 / 2 / 2 / 2 / 2 / 2 / 2 == u / 256;
    calc {
      Shr(u, k + 8);
      Shr(u / 2, k + 7);
      Shr(u / 2 / 2, k + 6);
      Shr(u / 2 / 2 / 2, k + 5);
      Shr(u / 2 / 2 / 2 / 2, k + 4);
      Shr(u / 2 / 2 / 2 / 2 / 2, k + 3);
      Shr(u / 2 / 2 / 2 / 2 / 2 / 2, k + 2);
      Shr(u / 2 / 2 / 2 / 2 / 2 / 2 / 2, k + 1);
      Shr(u / 2 / 2 / 2 / 2 / 2 / 2 / 2 / 2, k);
    }
  }

  lemma {:induction false} BigEndianByte(u: nat, n: nat, b: nat)
    requires b < n
    ensures BigEndian(u, n)[b] == Shr(u, 8 * (n - 1 - b)) % 256
  {
    if b < n - 1 {
      BigEndianByte(u / 256, n - 1, b);
      ShrByte(u, 8 * (n - 2 - b));
    }
  }

  // ----- the LSD radix -----

  ghost predicate KeyTable(key: seq<seq<byte>>, w: nat) {
    forall r | 0 <= r < |key| :: |key[r]| == w
  }

  /** Order by the bytes from `pos` on, ties by row index. */
  ghost function LessFrom(key: seq<seq<byte>>, w: nat, pos: nat): (nat, nat) -> bool
    requires KeyTable(key, w) && pos <= w
  {
    (i: nat, j: nat) =>
      i < |key| && j < |key|
      && (LexCmp(key[i][pos..], key[j][pos..]) < 0
          || (LexCmp(key[i][pos..], key[j][pos..]) == 0 && i < j))
  }

  function DigitsAt(key: seq<seq<byte>>, w: nat, pos: nat): (digit: seq<byte>)
    requires KeyTable(key, w) && pos < w
    ensures |digit| == |key|
  {
    seq(|key|, r requires 0 <= r < |key| => key[r][pos])
  }

  lemma LexCmpHead(a: seq<byte>, b: seq<byte>, pos: nat)
    requires pos < |a| == |b|
    ensures LexCmp(a[pos..], b[pos..])
         == if a[pos] != b[pos] then IntCmp(a[pos], b[pos]) else LexCmp(a[pos + 1..], b[pos + 1..])
  {
    assert a[pos..][1..] == a[pos + 1..] && b[pos..][1..] == b[pos + 1..];
  }

  /** A pass over byte `pos` extends the order by that byte and permutes the rows. */
  lemma PassStep(key: seq<seq<byte>>, w: nat, pos: nat, perm: seq<nat>)
    requires KeyTable(key, w) && pos < w && |perm| == |key| && Indices(perm, |key|)
    requires Ordered(LessFrom(key, w, pos + 1), perm)
    ensures var out := Buckets(perm, DigitsAt(key, w, pos), 256);
      |out| == |key| && Indices(out, |key|) && Ordered(LessFrom(key, w, pos), out)
  {
    hide Buckets, LexCmp;
    var digit := DigitsAt(key, w, pos);
    var out := Buckets(perm, digit, 256);
    var less, less' := LessFrom(key, w, pos + 1), LessFrom(key, w, pos);
    forall x, y | x in perm && y in perm && (digit[x] < digit[y] || (digit[x] == digit[y] && less(x, y)))
      ensures less'(x, y)
    {
      LexCmpHead(key[x], key[y], pos);
    }
    BucketsOrdered(less, less', perm, digit, 256);
    BucketsTotal(perm, digit);
    forall i | 0 <= i < |out| ensures out[i] < |key| { BucketsMembers(perm, digit, 256, out[i]); }
    forall r: nat | r < |key| ensures r in out { BucketsMembers(perm, digit, 256, r); }
  }

  /** Encode every row, then sort by byte passes from the last byte to the first. */
  method RadixPermutation(keys: seq<SortKey>, types: seq<Type>, rows: seq<Row>) returns (perm: seq<nat>)
    requires KeysFit(keys, |types|) && SameWidth(rows, |types|)
    requires forall r | 0 <= r < |rows| :: RadixRow(keys, types, rows[r])
    ensures StablePermutation(keys, rows, |types|, perm)
  {
    hide EncodeRow, Buckets;
    var n, w := |rows|, Width(keys, types);
    var key: seq<seq<byte>> := [];
    for r := 0 to n
      invariant |key| == r && forall i | 0 <= i < r :: key[i] == EncodeRow(keys, types, rows[i])
    {
      var row := BuildKey(keys, types, rows[r]);
      key := key + [row];
    }
    var cur, tmp := new nat[n](i => i), new nat[n](_ => 0);
    IotaOrdered(key, w, cur[..]);
    var pos := w;
    while pos > 0
      invariant 0 <= pos <= w && cur != tmp && fresh(cur) && fresh(tmp)
      invariant cur.Length == tmp.Length == n
      invariant Indices(cur[..], n) && Ordered(LessFrom(key, w, pos), cur[..])
    {
      hide LessFrom;
      pos := pos - 1;
      PassStep(key, w, pos, cur[..]);
      CountingPass(DigitsAt(key, w, pos), cur, tmp);
      cur, tmp := tmp, cur;
    }
    perm := cur[..];
    RadixIsStable(keys, types, rows, key, perm);
  }

  lemma IotaOrdered(key: seq<seq<byte>>, w: nat, perm: seq<nat>)
    requires KeyTable(key, w) && |perm| == |key| && forall i | 0 <= i < |perm| :: perm[i] == i
    ensures Indices(perm, |key|) && Ordered(LessFrom(key, w, w), perm)
  {
    forall r: nat | r < |key| ensures r in perm { assert perm[r] == r; }
  }

  lemma RadixIsStable(keys: seq<SortKey>, types: seq<Type>, rows: seq<Row>, key: seq<seq<byte>>, perm: seq<nat>)
    requires KeysFit(keys, |types|) && SameWidth(rows, |types|)
    requires forall r | 0 <= r < |rows| :: RadixRow(keys, types, rows[r])
    requires |key| == |rows| && forall r | 0 <= r < |rows| :: key[r] == EncodeRow(keys, types, rows[r])
    requires KeyTable(key, Width(keys, types))
    requires Indices(perm, |rows|) && Ordered(LessFrom(key, Width(keys, types), 0), perm)
    ensures StablePermutation(keys, rows, |types|, perm)
  {
    hide EncodeRow, LexCmp, RowCmp;
    forall i, j | 0 <= i < j < |perm| ensures Precedes(keys, rows, |types|, perm[i], perm[j]) {
      var x, y := perm[i], perm[j];
      EncodeOrder(keys, types, rows[x], rows[y]);
      assert key[x][0..] == key[x] && key[y][0..] == key[y];
      assert LessFrom(key, Width(keys, types), 0)(x, y);
    }
  }
}
