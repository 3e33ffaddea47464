/**
 The log-linear latency histogram: 64 one-to-one buckets, then 64 linear sub-buckets per
 power of two.
 */
module Histograms {
  import opened Words
  import Columns

  const SUB: nat := 64
  const BUCKETS: nat := 3712   // 64 one-to-one, then 57 magnitudes of 64

  // ----- buckets -----

  /** The position of the leading one bit. */
  function Top(v: nat): (t: nat)
    requires v > 0
  {
    if v == 1 then 0 else 1 + Top(v / 2)
  }

  lemma {:induction false} TopBounds(v: nat)
    requires v > 0
    ensures Pow2(Top(v)) <= v < 2 * Pow2(Top(v))
  {
    if v > 1 { TopBounds(v / 2); }
  }

  lemma TopAtLeast(v: nat)
    requires v >= 64
    ensures Top(v) >= 6
  {
    TopBounds(v);
    assert Pow2(6) == 64 && Pow2(Top(v) + 1) == 2 * Pow2(Top(v));
    if Top(v) < 6 { Pow2Monotone(Top(v) + 1, 6); }
  }

  lemma {:induction false} TopMonotone(v: nat, w: nat)
    requires 0 < v <= w
    ensures Top(v) <= Top(w)
  {
    if v > 1 { TopMonotone(v / 2, w / 2); }
  }

  function IndexOf(v: u64): (i: nat)
    ensures i < BUCKETS
  {
    if v < SUB then v
    else
      TopAtLeast(v);
      var top := Top(v);
      var sub := v / Pow2(top - 6) % SUB;
      var idx := (top - 6 + 1) * SUB + sub;
      if idx <= BUCKETS - 1 then idx else BUCKETS - 1
  }

  function UpperEdge(index: nat): nat
  {
    if index < SUB then index
    else
      var top, sub := index / SUB + 5, index % SUB;
      Pow2(top) + (sub + 1) * Pow2(top - 6) - 1
  }

  /** A value of at least 64 in units of a sixty-fourth of its magnitude: its mantissa. */
  lemma Mantissa(v: u64) returns (e: nat, m: nat)
    requires v >= SUB
    ensures Top(v) == e + 6 && 64 <= m < 128 && m * Pow2(e) <= v < (m + 1) * Pow2(e)
    ensures IndexOf(v) == if e * 64 + m <= BUCKETS - 1 then e * 64 + m else BUCKETS - 1
    ensures e <= 57 && (v < TWO_63 <==> e <= 56)
  {
    TopBounds(v);
    TopAtLeast(v);
    assert Pow2(6) == 64;
    e := Top(v) - 6;
    m := v / Pow2(e);
    Pow2Add(e, 6);
    Quotient(v, Pow2(e));
    Exponent(v, e);
  }

  lemma Quotient(v: nat, p: nat)
    requires p > 0 && 64 * p <= v < 128 * p
    ensures 64 <= v / p < 128 && v / p * p <= v < (v / p + 1) * p && v / p % 64 == v / p - 64
  {
    var m := v / p;
    assert m * p <= v < m * p + p;
    if m < 64 { Times(m + 1, 64, p); }
    if m >= 128 { Times(128, m, p); }
  }

  lemma Times(a: nat, b: nat, p: nat)
    requires a <= b
    ensures a * p <= b * p
  {
  }

  lemma Exponent(v: u64, e: nat)
    requires Pow2(e + 6) <= v < 2 * Pow2(e + 6)
    ensures e <= 57 && (v < TWO_63 <==> e <= 56)
  {
    Pow2Constants();
    if e >= 57 { Pow2Monotone(63, e + 6); }
    if e >= 58 { Pow2Monotone(64, e + 6); }
    if e <= 56 {
      Pow2Monotone(e + 7, 63);
      assert Pow2(e + 7) == 2 * Pow2(e + 6);
    }
  }

  /** Larger values never land in lower buckets. */
  lemma IndexMonotone(v: u64, w: u64)
    requires v <= w
    ensures IndexOf(v) <= IndexOf(w)
  {
    if w >= SUB {
      var e, m := Mantissa(w);
      if v >= SUB {
        var f, n := Mantissa(v);
        TopMonotone(v, w);
        hide IndexOf, Pow2, Top;
        if e == f { MantissaMonotone(v, w, m, n, Pow2(e)); }
      }
    }
  }

  lemma MantissaMonotone(v: nat, w: nat, m: nat, n: nat, p: nat)
    requires v <= w && n * p <= v && w < (m + 1) * p
    ensures n <= m
  {
    if n > m { Times(m + 1, n, p); }
  }

  /** A value in range is at most its bucket's upper edge, which is at most a sixty-fourth beyond it. */
  lemma EdgeBounds(v: u64)
    requires v < TWO_63
    ensures v <= UpperEdge(IndexOf(v)) <= v + v / 64
  {
    if v >= SUB {
      var e, m := Mantissa(v);
      var p := Pow2(e);
      Pow2Add(e, 6);
      assert Pow2(6) == 64;
      EdgeOf(e, m);
      Times(64, m, p);
      hide IndexOf, UpperEdge, Pow2;
      assert (m + 1) * p == m * p + p;
    }
  }

  lemma EdgeOf(e: nat, m: nat)
    requires 64 <= m < 128 && e <= 56
    ensures UpperEdge(e * 64 + m) == (m + 1) * Pow2(e) - 1
  {
    hide Pow2, UpperEdge;
    EdgeAt(e, m);
    SixtyFourTimes(e);
    Assemble(Pow2(e), Pow2(e + 6), m);
  }

  lemma EdgeAt(e: nat, m: nat)
    requires 64 <= m < 128
    ensures UpperEdge(e * 64 + m) == Pow2(e + 6) + (m - 63) * Pow2(e) - 1
  {
    hide Pow2;
    Digits(e, m);
    var index := e * 64 + m;
    assert index / SUB + 5 == e + 6 && index % SUB + 1 == m - 63;
  }

  lemma SixtyFourTimes(e: nat)
    ensures Pow2(e + 6) == Pow2(e) * 64
  {
    Pow2Add(e, 6);
    assert Pow2(6) == 64;
  }

  lemma Assemble(p: nat, q: nat, m: nat)
    requires q == p * 64 && m >= 64
    ensures q + (m - 63) * p == (m + 1) * p
  {
    Distribute(64, m - 63, p);
  }

  lemma Digits(e: nat, m: nat)
    requires 64 <= m < 128
    ensures (e * 64 + m) / 64 == e + 1 && (e * 64 + m) % 64 == m - 64
  {
  }

  lemma Distribute(a: nat, b: nat, p: nat)
    ensures a * p + b * p == (a + b) * p
  {
  }

  lemma TopIs(v: nat, t: nat)
    requires Pow2(t) <= v < 2 * Pow2(t)
    ensures Top(v) == t
  {
    TopBounds(v);
    Doubles(Top(v), t);
    Doubles(t, Top(v));
  }

  lemma Doubles(a: nat, b: nat)
    ensures a < b ==> 2 * Pow2(a) <= Pow2(b)
  {
    if a < b { Pow2Monotone(a + 1, b); }
  }

  /** The upper edge of a bucket lies in it. */
  lemma EdgeInBucket(j: nat)
    requires j < BUCKETS
    ensures UpperEdge(j) < TWO_63 && IndexOf(UpperEdge(j)) == j
  {
    if j >= SUB {
      var e, m := j / SUB - 1, j % SUB + SUB;
      assert j == e * 64 + m && e <= 56;
      EdgeOf(e, m);
      EdgeIndex(UpperEdge(j), e, m);
    }
  }

  lemma EdgeIndex(v: nat, e: nat, m: nat)
    requires 64 <= m < 128 && e <= 56 && v == (m + 1) * Pow2(e) - 1
    ensures v < TWO_63 && IndexOf(v) == e * 64 + m
  {
    EdgeRange(v, e, m);
    TopIs(v, e + 6);
    BelowLimit(e, v);
    OneQuotient(v, Pow2(e), m);
    hide Pow2, Top;
    IndexFrom(v, e, m);
  }

  lemma EdgeRange(v: nat, e: nat, m: nat)
    requires 64 <= m < 128 && v == (m + 1) * Pow2(e) - 1
    ensures Pow2(e + 6) <= v < 2 * Pow2(e + 6) && v >= 64
  {
    var p := Pow2(e);
    SixtyFourTimes(e);
    hide Pow2;
    Times(m + 1, 128, p);
    Times(65, m + 1, p);
  }

  lemma IndexFrom(v: u64, e: nat, m: nat)
    requires v >= 64 && Top(v) == e + 6 && v / Pow2(e) == m && 64 <= m < 128 && e <= 56
    ensures IndexOf(v) == e * 64 + m
  {
    hide Pow2, Top;
    assert m % 64 == m - 64;
  }

  lemma BelowLimit(e: nat, v: nat)
    requires e <= 56 && v < 2 * Pow2(e + 6)
    ensures v < TWO_63
  {
    Pow2Constants();
    Pow2Monotone(e + 7, 63);
  }

  lemma OneQuotient(v: nat, p: nat, m: nat)
    requires p > 0 && v == (m + 1) * p - 1
    ensures v / p == m && v >= m * p
  {
    Distribute(m, 1, p);
    var q, r := v / p, v % p;
    assert v == q * p + r;
    if q < m { Times(q + 1, m, p); Distribute(q, 1, p); }
    if q > m { Times(m + 1, q, p); }
  }

  /** Higher buckets have higher edges. */
  lemma EdgesRise(i: nat, j: nat)
    requires i < j < BUCKETS
    ensures UpperEdge(i) < UpperEdge(j)
  {
    EdgeInBucket(i);
    EdgeInBucket(j);
    hide IndexOf, UpperEdge;
    if UpperEdge(j) <= UpperEdge(i) { IndexMonotone(UpperEdge(j), UpperEdge(i)); }
  }

  /** Beyond its range a value lies above the last edge. */
  lemma BeyondRange(v: u64)
    requires v >= TWO_63
    ensures IndexOf(v) == BUCKETS - 1 && UpperEdge(IndexOf(v)) == TWO_63 - 1
  {
    var e, m := Mantissa(v);
    Pow2Constants();
    EdgeOf(56, 127);
    Pow2Add(56, 7);
    assert Pow2(7) == 128;
  }

  // ----- counting -----

  /** How many values land below bucket `i`. */
  function Below(values: seq<u64>, i: nat): (n: nat)
    ensures n <= |values|
  {
    if values == [] then 0
    else Below(values[..|values| - 1], i) + (if IndexOf(values[|values| - 1]) < i then 1 else 0)
  }

  function InBucket(values: seq<u64>, i: nat): (n: nat) {
    if values == [] then 0
    else InBucket(values[..|values| - 1], i) + (if IndexOf(values[|values| - 1]) == i then 1 else 0)
  }

  function SumOf(values: seq<u64>): nat {
    if values == [] then 0 else SumOf(values[..|values| - 1]) + values[|values| - 1]
  }

  function Lower(a: u64, b: u64): u64 { if b < a then b else a }

  function Higher(a: u64, b: u64): u64 { if a < b then b else a }

  function Least(values: seq<u64>): u64 {
    if values == [] then (TWO_64 - 1) as u64 else Lower(Least(values[..|values| - 1]), values[|values| - 1])
  }

  function Greatest(values: seq<u64>): u64 {
    if values == [] then 0 else Higher(Greatest(values[..|values| - 1]), values[|values| - 1])
  }

  lemma {:induction false} BelowNext(values: seq<u64>, i: nat)
    ensures Below(values, i + 1) == Below(values, i) + InBucket(values, i)
  {
    hide IndexOf;
    if values != [] { BelowNext(values[..|values| - 1], i); }
  }

  lemma {:induction false} BelowEnds(values: seq<u64>)
    ensures Below(values, 0) == 0 && Below(values, BUCKETS) == |values|
  {
    hide IndexOf;
    if values != [] { BelowEnds(values[..|values| - 1]); }
  }

  lemma {:induction false} BucketConcat(a: seq<u64>, b: seq<u64>, i: nat)
    ensures InBucket(a + b, i) == InBucket(a, i) + InBucket(b, i)
  {
    hide IndexOf;
    if b == [] {
      assert a + b == a;
    } else {
      assert (a + b)[..|a + b| - 1] == a + b[..|b| - 1];
      BucketConcat(a, b[..|b| - 1], i);
    }
  }

  lemma {:induction false} TotalsConcat(a: seq<u64>, b: seq<u64>)
    ensures SumOf(a + b) == SumOf(a) + SumOf(b)
    ensures Least(a + b) == Lower(Least(a), Least(b)) && Greatest(a + b) == Higher(Greatest(a), Greatest(b))
  {
    if b == [] {
      assert a + b == a;
    } else {
      assert (a + b)[..|a + b| - 1] == a + b[..|b| - 1];
      TotalsConcat(a, b[..|b| - 1]);
    }
  }

  lemma {:induction false} AtMostGreatest(values: seq<u64>, k: nat)
    requires k < |values|
    ensures values[k] <= Greatest(values)
  {
    if k < |values| - 1 { AtMostGreatest(values[..|values| - 1], k); }
  }

  /** The minimum and the maximum are recorded values, and bound them all. */
  lemma {:induction false} ExtremesAre(values: seq<u64>)
    requires values != []
    ensures Least(values) in values && Greatest(values) in values
    ensures forall v | v in values :: Least(values) <= v <= Greatest(values)
  {
    var init, last := values[..|values| - 1], values[|values| - 1];
    assert values == init + [last];
    if init != [] { ExtremesAre(init); }
  }

  lemma BucketsConcat(a: seq<u64>, b: seq<u64>)
    ensures forall i: nat | i < BUCKETS :: InBucket(a + b, i) == InBucket(a, i) + InBucket(b, i)
  {
    hide InBucket;
    forall i: nat | i < BUCKETS ensures InBucket(a + b, i) == InBucket(a, i) + InBucket(b, i) { BucketConcat(a, b, i); }
  }

  lemma OneValue(v: u64)
    ensures forall i: nat :: InBucket([v], i) == if IndexOf(v) == i then 1 else 0
    ensures SumOf([v]) == v && Lower(0xFFFF_FFFF_FFFF_FFFF, v) == Least([v]) == v && Greatest([v]) == v && U64(v) == v
  {
    assert [v][..0] == [];
  }

  lemma SumsWrap(x: nat, y: nat)
    ensures U64(U64(x) + U64(y)) == U64(x + y)
  {
  }

  // ----- the histogram -----

  class LatencyHistogram {
    const counts: array<nat>
    var total: nat
    var sum: u64
    var min: u64
    var max: u64
    ghost var values: seq<u64>   // everything recorded, in order

    ghost predicate Valid()
      reads this, counts
    {
      && counts.Length == BUCKETS && (forall i | 0 <= i < BUCKETS :: counts[i] == InBucket(values, i))
      && total == |values| && sum == U64(SumOf(values)) && min == Least(values) && max == Greatest(values)
    }

    constructor ()
      ensures Valid() && values == [] && fresh(counts)
    {
      counts := new nat[BUCKETS](_ => 0);
      total, sum, min, max, values := 0, 0, (TWO_64 - 1) as u64, 0, [];
    }

    method Record(value: u64)
      requires Valid()
      modifies this, counts
      ensures Valid() && values == old(values) + [value]
    {
      hide IndexOf, InBucket, SumOf, Least, Greatest, U64;
      BucketsConcat(values, [value]);
      TotalsConcat(values, [value]);
      OneValue(value);
      SumsWrap(SumOf(values), value);
      counts[IndexOf(value)] := counts[IndexOf(value)] + 1;
      total, sum, min, max := total + 1, U64(sum + value), Lower(min, value), Higher(max, value);
      values := values + [value];
    }

    method MergeCounts(other: LatencyHistogram)
      requires counts.Length == other.counts.Length == BUCKETS && (other == this || other.counts != counts)
      modifies counts
      ensures forall k | 0 <= k < BUCKETS :: counts[k] == old(counts[k]) + old(other.counts[k])
    {
      for i := 0 to BUCKETS
        invariant forall k | 0 <= k < i :: counts[k] == old(counts[k]) + old(other.counts[k])
        invariant forall k | i <= k < BUCKETS :: counts[k] == old(counts[k]) && other.counts[k] == old(other.counts[k])
      {
        counts[i] := counts[i] + other.counts[i];
      }
    }

    /** Merging is recording the other's values too; a histogram may be merged with itself. */
    method Merge(other: LatencyHistogram)
      requires Valid() && other.Valid() && (other == this || other.counts != counts)
      modifies this, counts
      ensures Valid() && values == old(values) + old(other.values)
    {
      hide InBucket, SumOf, Least, Greatest, U64;
      BucketsConcat(values, other.values);
      TotalsConcat(values, other.values);
      SumsWrap(SumOf(values), SumOf(other.values));
      MergeCounts(other);
      total, sum, min, max, values := total + other.total, U64(sum + other.sum), Lower(min, other.min), Higher(max, other.max),
        values + other.values;
    }

    /** The upper edge of the bucket of the value at rank `floor(q * total)`, counted from 0. */
    method ValueAtQuantile(quantile: real) returns (r: nat)
      requires Valid()
      ensures values == [] ==> r == 0
      ensures values != [] ==> exists i: nat :: HoldsRank(values, Rank(quantile, |values|), i)
      ensures values != [] ==> forall i: nat | HoldsRank(values, Rank(quantile, |values|), i) :: r == AnswerOf(values, i)
    {
      if total == 0 { return 0; }
      var rank := RawRank(quantile, total);
      RankBounds(quantile, total);
      RankIs(quantile, total);
      ghost var k := Rank(quantile, total);
      hide IndexOf, UpperEdge, InBucket, Below, Least, Greatest, SumOf, Rank, RawRank, HoldsRank;
      BelowEnds(values);
      var seen := 0;
      for i := 0 to BUCKETS
        invariant seen == Below(values, i) && seen <= k
      {
        BelowNext(values, i);
        seen := seen + counts[i];
        if seen > rank || (seen == total && seen >= rank) {
          Holding(values, k, i);
          OneBucket(values, k, i);
          return Columns.Min(UpperEdge(i), max);
        }
      }
      assert false;
    }
  }

  /** The rank as the code computes it; the double product is taken exactly. */
  function RawRank(quantile: real, n: nat): int {
    var q := if quantile < 0.0 then 0.0 else if quantile > 1.0 then 1.0 else quantile;
    (q * (n as real)).Floor
  }

  /** The rank of the value whose bucket answers, counted from 0. */
  function Rank(quantile: real, n: nat): nat
    requires n > 0
  {
    RankBounds(quantile, n);
    Columns.Min(RawRank(quantile, n), n - 1)
  }

  lemma RankBounds(quantile: real, n: nat)
    requires n > 0
    ensures 0 <= RawRank(quantile, n) <= n
  {
    ProductBounds(if quantile < 0.0 then 0.0 else if quantile > 1.0 then 1.0 else quantile, n as real);
  }

  lemma RankIs(quantile: real, n: nat)
    requires n > 0
    ensures Rank(quantile, n) == if RawRank(quantile, n) < n then RawRank(quantile, n) else n - 1
  {
  }

  lemma ProductBounds(q: real, n: real)
    requires 0.0 <= q <= 1.0 && n > 0.0
    ensures 0.0 <= q * n <= n
  {
    assert n - q * n == (1.0 - q) * n;
  }

  lemma Holding(values: seq<u64>, k: nat, i: nat)
    requires Below(values, i) <= k < Below(values, i + 1)
    ensures HoldsRank(values, k, i)
  {
  }

  lemma {:induction false} BelowGrows(values: seq<u64>, i: nat, j: nat)
    requires i <= j
    ensures Below(values, i) <= Below(values, j)
  {
    hide IndexOf;
    if values != [] { BelowGrows(values[..|values| - 1], i, j); }
  }

  lemma OneBucket(values: seq<u64>, k: nat, i: nat)
    requires HoldsRank(values, k, i)
    ensures forall j: nat | HoldsRank(values, k, j) :: j == i
  {
    hide Below;
    forall j: nat | HoldsRank(values, k, j) ensures j == i {
      if j < i { BelowGrows(values, j + 1, i); }
      if i < j { BelowGrows(values, i + 1, j); }
    }
  }

  /** Bucket `i` holds the value of rank `k`: at most `k` lie below it, more than `k` below the next. */
  ghost predicate HoldsRank(values: seq<u64>, k: nat, i: nat) { Below(values, i) <= k < Below(values, i + 1) }

  // ----- order statistics -----

  ghost predicate Ascending(s: seq<u64>) { forall i, j | 0 <= i < j < |s| :: s[i] <= s[j] }

  lemma {:induction false} BelowConcat(a: seq<u64>, b: seq<u64>, i: nat)
    ensures Below(a + b, i) == Below(a, i) + Below(b, i)
  {
    hide IndexOf;
    if b == [] {
      assert a + b == a;
    } else {
      assert (a + b)[..|a + b| - 1] == a + b[..|b| - 1];
      BelowConcat(a, b[..|b| - 1], i);
    }
  }

  lemma BelowWithout(s: seq<u64>, at: nat, i: nat)
    requires at < |s|
    ensures multiset(s) == multiset(s[..at] + s[at + 1..]) + multiset{s[at]}
    ensures Below(s, i) == Below(s[..at] + s[at + 1..], i) + Below([s[at]], i)
  {
    hide Below;
    var u, v, w := s[..at], s[at], s[at + 1..];
    assert s == u + ([v] + w);
    Middle(u, v, w);
    BelowConcat(u, [v] + w, i);
    BelowConcat([v], w, i);
    BelowConcat(u, w, i);
  }

  lemma {:induction false} BelowReordered(a: seq<u64>, b: seq<u64>, i: nat)
    requires multiset(a) == multiset(b)
    ensures Below(a, i) == Below(b, i)
  {
    if a == [] {
      assert |multiset(a)| == |multiset(b)|;
    } else {
      hide Below;
      var n := |a| - 1;
      assert a[n] in multiset(b);
      var at :| 0 <= at < |b| && b[at] == a[n];
      BelowWithout(a, n, i);
      BelowWithout(b, at, i);
      assert a[..n] + a[n + 1..] == a[..n];
      Uncounted(multiset(a[..n]), multiset(b[..at] + b[at + 1..]), a[n]);
      BelowReordered(a[..n], b[..at] + b[at + 1..], i);
    }
  }

  /** In ascending values, those below bucket `i` are the ones before the first that is not. */
  lemma {:induction false} BelowSplits(s: seq<u64>, i: nat, k: nat)
    requires Ascending(s) && k < |s|
    ensures IndexOf(s[k]) < i ==> Below(s, i) > k
    ensures IndexOf(s[k]) >= i ==> Below(s, i) <= k
  {
    var n := |s| - 1;
    IndexMonotone(s[k], s[n]);
    hide IndexOf;
    if k < n {
      BelowSplits(s[..n], i, k);
    } else if n > 0 {
      IndexMonotone(s[n - 1], s[n]);
      BelowSplits(s[..n], i, n - 1);
    }
  }

  /** The answering bucket is that of the value at the rank, in ascending order. */
  lemma RankedValue(s: seq<u64>, values: seq<u64>, k: nat, i: nat)
    requires Ascending(s) && multiset(s) == multiset(values) && k < |s| && HoldsRank(values, k, i)
    ensures IndexOf(s[k]) == i
  {
    hide IndexOf, Below;
    BelowReordered(s, values, i);
    BelowReordered(s, values, i + 1);
    BelowSplits(s, i, k);
    BelowSplits(s, i + 1, k);
  }

  /** A quantile answer is at least the value at its rank, and at most a sixty-fourth more. */
  lemma QuantileBounds(s: seq<u64>, values: seq<u64>, k: nat, i: nat)
    requires Ascending(s) && multiset(s) == multiset(values) && k < |s| && HoldsRank(values, k, i) && s[k] < TWO_63
    ensures s[k] <= AnswerOf(values, i) <= s[k] + s[k] / 64
  {
    RankedValue(s, values, k, i);
    EdgeBounds(s[k]);
    hide IndexOf, UpperEdge, Below;
    assert s[k] in multiset(values);
    var j :| 0 <= j < |values| && values[j] == s[k];
    AtMostGreatest(values, j);
  }

  // ----- the documented rank -----

  /** The documented rank: the `ceil(q * n)`-th value, counted from 1. */
  function DocRank(quantile: real, n: nat): nat
    requires 0.0 < quantile <= 1.0 && n > 0
  {
    CeilPositive(quantile * (n as real));
    -(-(quantile * (n as real))).Floor - 1
  }

  lemma CeilPositive(x: real)
    requires x > 0.0
    ensures -(-x).Floor >= 1
  {
  }

  /** The code's rank is the documented one exactly when `q * n` is not a whole number short of `n`. */
  lemma DocRankIff(quantile: real, n: nat)
    requires 0.0 < quantile <= 1.0 && n > 0
    ensures Rank(quantile, n) == DocRank(quantile, n)
      <==> ((RawRank(quantile, n) as real) != quantile * (n as real) || RawRank(quantile, n) == n)
    ensures DocRank(quantile, n) <= Rank(quantile, n)
  {
    RankBounds(quantile, n);
    RankIs(quantile, n);
    var x := quantile * (n as real);
    assert RawRank(quantile, n) == x.Floor;
    CeilIs(x);
  }

  lemma CeilIs(x: real)
    ensures -(-x).Floor == if (x.Floor as real) == x then x.Floor else x.Floor + 1
  {
  }

  /** What is answered when bucket `i` holds the rank. */
  function AnswerOf(values: seq<u64>, i: nat): nat { Columns.Min(UpperEdge(i), Greatest(values)) }

  /** The answers for two ranks are equal exactly when the ranked values share a bucket; the cap hides no difference. */
  lemma SameAnswerIff(s: seq<u64>, values: seq<u64>, d: nat, k: nat, j: nat, i: nat)
    requires Ascending(s) && multiset(s) == multiset(values) && d <= k < |s|
    requires HoldsRank(values, d, j) && HoldsRank(values, k, i)
    ensures AnswerOf(values, i) == AnswerOf(values, j) <==> IndexOf(s[d]) == IndexOf(s[k])
  {
    RankedValue(s, values, d, j);
    RankedValue(s, values, k, i);
    IndexMonotone(s[d], s[k]);
    hide IndexOf, UpperEdge, Below;
    assert s[k] in multiset(values);
    var at :| 0 <= at < |values| && values[at] == s[k];
    AtMostGreatest(values, at);
    if j < i {
      EdgesRise(j, i);
      if Greatest(values) <= UpperEdge(j) {
        IndexMonotone(s[k], Greatest(values));
        EdgeInBucket(j);
        IndexMonotone(Greatest(values), UpperEdge(j));
      }
    }
  }

  /**
   The answer is the one for the documented rank exactly when the value at that rank is in
   the bucket of the value at the code's; where the ranks agree it always is.
   */
  lemma DocAnswerIff(s: seq<u64>, values: seq<u64>, quantile: real, j: nat, i: nat)
    requires Ascending(s) && multiset(s) == multiset(values) && values != [] && 0.0 < quantile <= 1.0
    requires HoldsRank(values, DocRank(quantile, |values|), j) && HoldsRank(values, Rank(quantile, |values|), i)
    ensures |s| == |values| && DocRank(quantile, |values|) <= Rank(quantile, |values|) < |s|
    ensures AnswerOf(values, i) == AnswerOf(values, j)
      <==> IndexOf(s[DocRank(quantile, |values|)]) == IndexOf(s[Rank(quantile, |values|)])
  {
    assert |multiset(s)| == |multiset(values)|;
    var n := |values|;
    DocRankIff(quantile, n);
    RankIs(quantile, n);
    hide IndexOf, UpperEdge, Below, Rank, DocRank, HoldsRank;
    SameAnswerIff(s, values, DocRank(quantile, n), Rank(quantile, n), j, i);
  }

  /** The median of 1 and 1000 is answered with 1000, though the documented first value is 1. */
  lemma MedianOfTwo()
    ensures Rank(0.5, 2) == 1 && DocRank(0.5, 2) == 0
    ensures forall i: nat | HoldsRank([1, 1000], Rank(0.5, 2), i) :: AnswerOf([1, 1000], i) == 1000
  {
    var values: seq<u64> := [1, 1000];
    GreatestOfTwo();
    hide IndexOf, UpperEdge, Below, Greatest;
    forall i: nat | HoldsRank(values, 1, i) ensures AnswerOf(values, i) == 1000 {
      QuantileBounds(values, values, 1, i);
    }
  }

  lemma GreatestOfTwo()
    ensures Greatest([1, 1000]) == 1000
  {
    assert [1, 1000][..1] == [1] && [1][..0] == [];
  }
}
