/**
 Sums of doubles that do not round: where the magnitudes fit, every order and grouping of
 the additions gives the one pattern that stands for the sum.
 */
module ExactSums {
  import opened Words
  import opened Columns
  import opened AggMeaning
  import F64

  lemma {:induction false} GridConcat(grid: Grid, a: seq<u64>, b: seq<u64>)
    ensures GridSum(grid, a + b) == GridSum(grid, a) + GridSum(grid, b)
    ensures Magnitude(grid, a + b) == Magnitude(grid, a) + Magnitude(grid, b)
    ensures OnGrid(grid, a + b) <==> OnGrid(grid, a) && OnGrid(grid, b)
  {
    GridBoth(grid, a, b);
    hide OnGrid;
    if b == [] {
      assert a + b == a;
    } else {
      assert (a + b)[..|a + b| - 1] == a + b[..|b| - 1];
      GridConcat(grid, a, b[..|b| - 1]);
    }
  }

  lemma GridBoth(grid: Grid, a: seq<u64>, b: seq<u64>)
    ensures OnGrid(grid, a + b) <==> OnGrid(grid, a) && OnGrid(grid, b)
  {
    if OnGrid(grid, a + b) {
      forall k | 0 <= k < |b| ensures grid(b[k]).Some? { assert (a + b)[|a| + k] == b[k]; }
      forall k | 0 <= k < |a| ensures grid(a[k]).Some? { assert (a + b)[k] == a[k]; }
    }
  }

  lemma GridSnoc(grid: Grid, v: seq<u64>, b: u64)
    ensures GridSum(grid, v + [b]) == GridSum(grid, v) + Part(grid, b)
    ensures Magnitude(grid, v + [b]) == Magnitude(grid, v) + Abs(Part(grid, b))
    ensures OnGrid(grid, v + [b]) <==> OnGrid(grid, v) && grid(b).Some?
  {
    GridConcat(grid, v, [b]);
    OneOnGrid(grid, b);
  }

  lemma {:induction false} SumWithin(grid: Grid, v: seq<u64>)
    ensures Abs(GridSum(grid, v)) <= Magnitude(grid, v)
  {
    if v != [] { SumWithin(grid, v[..|v| - 1]); }
  }

  lemma AddsTwo(ops: FloatOps, grid: Grid, bound: nat, a: u64, b: u64)
    requires Adds(ops, grid, bound) && grid(a).Some? && grid(b).Some? && Abs(grid(a).value + grid(b).value) <= bound
    ensures grid(ops.add(a, b)) == Some(grid(a).value + grid(b).value)
  {
  }

  lemma OnePattern(ops: FloatOps, grid: Grid, bound: nat, a: u64, b: u64)
    requires Adds(ops, grid, bound) && grid(a).Some? && grid(a) == grid(b)
    ensures a == b
  {
  }

  /** Folding left to right gives the pattern of the sum. */
  lemma {:induction false} TotalOnGrid(ops: FloatOps, grid: Grid, bound: nat, v: seq<u64>)
    requires FitsGrid(ops, grid, bound, v)
    ensures grid(FloatTotal(ops, v)) == Some(GridSum(grid, v))
  {
    hide Adds;
    if v == [] {
      ZeroOnGrid(ops, grid, bound);
    } else {
      var n := |v| - 1;
      GridBoth(grid, v[..n], [v[n]]);
      assert v == v[..n] + [v[n]];
      TotalOnGrid(ops, grid, bound, v[..n]);
      SumWithin(grid, v);
      AddsTwo(ops, grid, bound, FloatTotal(ops, v[..n]), v[n]);
    }
  }

  lemma ZeroOnGrid(ops: FloatOps, grid: Grid, bound: nat)
    requires Adds(ops, grid, bound)
    ensures grid(0) == Some(0)
  {
  }

  /** Two sequences with one sum on the grid have one total. */
  lemma SameTotal(ops: FloatOps, grid: Grid, bound: nat, v: seq<u64>, w: seq<u64>)
    requires FitsGrid(ops, grid, bound, v) && FitsGrid(ops, grid, bound, w) && GridSum(grid, v) == GridSum(grid, w)
    ensures FloatTotal(ops, v) == FloatTotal(ops, w)
  {
    TotalOnGrid(ops, grid, bound, v);
    TotalOnGrid(ops, grid, bound, w);
    OnePattern(ops, grid, bound, FloatTotal(ops, v), FloatTotal(ops, w));
  }

  /** Parts of what does not round do not round, and their totals add up. */
  lemma ExactConcat(ops: FloatOps, a: seq<u64>, b: seq<u64>)
    requires Exact(ops, a + b)
    ensures Exact(ops, a) && Exact(ops, b)
    ensures FloatTotal(ops, a + b) == ops.add(FloatTotal(ops, a), FloatTotal(ops, b))
  {
    hide Adds, OnGrid, GridSum, Magnitude, FloatTotal;
    var grid: Grid, bound: nat :| FitsGrid(ops, grid, bound, a + b);
    GridConcat(grid, a, b);
    assert FitsGrid(ops, grid, bound, a) && FitsGrid(ops, grid, bound, b);
    TotalOnGrid(ops, grid, bound, a);
    TotalOnGrid(ops, grid, bound, b);
    TotalOnGrid(ops, grid, bound, a + b);
    SumWithin(grid, a + b);
    AddsTwo(ops, grid, bound, FloatTotal(ops, a), FloatTotal(ops, b));
    OnePattern(ops, grid, bound, FloatTotal(ops, a + b), ops.add(FloatTotal(ops, a), FloatTotal(ops, b)));
  }

  /** Adding zero on either side changes no total. */
  lemma ZeroAdds(ops: FloatOps, v: seq<u64>)
    requires Exact(ops, v)
    ensures ops.add(FloatTotal(ops, v), 0) == FloatTotal(ops, v) == ops.add(0, FloatTotal(ops, v))
  {
    hide Adds, OnGrid, GridSum, Magnitude, FloatTotal;
    var grid: Grid, bound: nat :| FitsGrid(ops, grid, bound, v);
    TotalOnGrid(ops, grid, bound, v);
    SumWithin(grid, v);
    ZeroOnGrid(ops, grid, bound);
    var t := FloatTotal(ops, v);
    AddsTwo(ops, grid, bound, t, 0);
    AddsTwo(ops, grid, bound, 0, t);
    OnePattern(ops, grid, bound, ops.add(t, 0), t);
    OnePattern(ops, grid, bound, ops.add(0, t), t);
  }

  // ----- order -----

  lemma TakenOut(v: seq<u64>, at: nat)
    requires at < |v|
    ensures v == v[..at] + ([v[at]] + v[at + 1..])
    ensures multiset(v) == multiset(v[..at] + v[at + 1..]) + multiset{v[at]}
  {
    assert v == v[..at] + ([v[at]] + v[at + 1..]);
    Middle(v[..at], v[at], v[at + 1..]);
  }

  lemma GridWithout(grid: Grid, v: seq<u64>, at: nat)
    requires at < |v|
    ensures GridSum(grid, v) == GridSum(grid, v[..at] + v[at + 1..]) + Part(grid, v[at])
    ensures Magnitude(grid, v) == Magnitude(grid, v[..at] + v[at + 1..]) + Abs(Part(grid, v[at]))
    ensures OnGrid(grid, v) <==> OnGrid(grid, v[..at] + v[at + 1..]) && grid(v[at]).Some?
  {
    var x, b, y := v[..at], v[at], v[at + 1..];
    TakenOut(v, at);
    OneOnGrid(grid, b);
    hide OnGrid, GridSum, Magnitude;
    GridConcat(grid, x, [b] + y);
    GridConcat(grid, [b], y);
    GridConcat(grid, x, y);
  }

  lemma OneOnGrid(grid: Grid, b: u64)
    ensures GridSum(grid, [b]) == Part(grid, b) && Magnitude(grid, [b]) == Abs(Part(grid, b))
    ensures OnGrid(grid, [b]) <==> grid(b).Some?
  {
    assert [b][..0] == [];
    assert OnGrid(grid, [b]) ==> grid([b][0]).Some?;
  }

  lemma {:induction false} GridReordered(grid: Grid, v: seq<u64>, w: seq<u64>)
    requires multiset(v) == multiset(w)
    ensures GridSum(grid, v) == GridSum(grid, w) && Magnitude(grid, v) == Magnitude(grid, w)
    ensures OnGrid(grid, v) <==> OnGrid(grid, w)
  {
    assert |multiset(v)| == |multiset(w)|;
    if v != [] {
      hide OnGrid, GridSum, Magnitude;
      var n := |v| - 1;
      assert v[n] in multiset(w);
      var at :| 0 <= at < |w| && w[at] == v[n];
      TakenOut(v, n);
      TakenOut(w, at);
      GridWithout(grid, v, n);
      GridWithout(grid, w, at);
      assert v[..n] + v[n + 1..] == v[..n];
      Uncounted(multiset(v[..n]), multiset(w[..at] + w[at + 1..]), v[n]);
      GridReordered(grid, v[..n], w[..at] + w[at + 1..]);
    }
  }

  /** Without rounding, the order of the addends does not matter. */
  lemma ExactReordered(ops: FloatOps, v: seq<u64>, w: seq<u64>)
    requires Exact(ops, v) && multiset(v) == multiset(w)
    ensures Exact(ops, w) && FloatTotal(ops, v) == FloatTotal(ops, w)
  {
    hide Adds, OnGrid, GridSum, Magnitude, FloatTotal;
    var grid: Grid, bound: nat :| FitsGrid(ops, grid, bound, v);
    GridReordered(grid, v, w);
    assert FitsGrid(ops, grid, bound, w);
    SameTotal(ops, grid, bound, v, w);
  }

  // ----- a group's doubles -----

  lemma {:induction false} DoublesConcat(a: seq<Cell>, b: seq<Cell>)
    ensures Doubles(a + b) == Doubles(a) + Doubles(b)
  {
    if b == [] {
      assert a + b == a;
    } else {
      assert (a + b)[..|a + b| - 1] == a + b[..|b| - 1];
      DoublesConcat(a, b[..|b| - 1]);
    }
  }

  function PatternCount(v: seq<u64>, b: u64): nat { multiset(v)[b] }

  function CellCount(vals: seq<Cell>, c: Cell): nat { multiset(vals)[c] }

  lemma CountsNext(v: seq<u64>, x: u64, b: u64, vals: seq<Cell>, y: Cell, c: Cell)
    ensures PatternCount(v + [x], b) == PatternCount(v, b) + (if x == b then 1 else 0)
    ensures CellCount(vals + [y], c) == CellCount(vals, c) + (if y == c then 1 else 0)
    ensures PatternCount([], b) == 0 && CellCount([], c) == 0
  {
  }

  /** How often a pattern is among the doubles. */
  lemma {:induction false} DoublesCount(vals: seq<Cell>, b: u64)
    ensures PatternCount(Doubles(vals), b) == CellCount(vals, Flt(b))
  {
    hide PatternCount, CellCount;
    if vals == [] {
      CountsNext([], 0, b, [], Null, Flt(b));
    } else {
      var n := |vals| - 1;
      var last := vals[n];
      DoublesCount(vals[..n], b);
      assert vals == vals[..n] + [last];
      CountsNext(Doubles(vals[..n]), if last.Flt? then last.bits else 0, b, vals[..n], last, Flt(b));
      assert Doubles(vals[..n]) + [] == Doubles(vals[..n]);
    }
  }

  lemma DoublesReordered(a: seq<Cell>, b: seq<Cell>)
    requires multiset(a) == multiset(b)
    ensures multiset(Doubles(a)) == multiset(Doubles(b))
  {
    hide Doubles;
    forall d: u64 ensures multiset(Doubles(a))[d] == multiset(Doubles(b))[d] {
      DoublesCount(a, d);
      DoublesCount(b, d);
      assert PatternCount(Doubles(a), d) == PatternCount(Doubles(b), d);
    }
  }

  // ----- integer-valued doubles -----

  /** The integer a double of magnitude below 2^53 is, if it is one; the negative zero is left out. */
  function IntegerValue(b: u64): Option<int> {
    if b == 0 then Some(0)
    else
      var e, m := b % TWO_63 / F64.HIDDEN_BIT, F64.HIDDEN_BIT + b % F64.HIDDEN_BIT;
      if 1023 <= e <= 1075 && m % Pow2(1075 - e) == 0 then
        Some(if b < TWO_63 then m / Pow2(1075 - e) else -(m / Pow2(1075 - e)))
      else None
  }

  /** What IEEE 754 demands of addition: exact wherever the result is representable. */
  ghost predicate RightOnIntegers(ops: FloatOps) {
    forall a: u64, b: u64 ::
      IntegerValue(a).Some? && IntegerValue(b).Some? && Abs(IntegerValue(a).value + IntegerValue(b).value) < 2 * F64.HIDDEN_BIT ==>
        IntegerValue(ops.add(a, b)) == Some(IntegerValue(a).value + IntegerValue(b).value)
  }

  /** A normalized integer has one exponent. */
  lemma OneExponent(v: nat, k: nat, l: nat)
    requires F64.HIDDEN_BIT <= v * Pow2(k) < 2 * F64.HIDDEN_BIT && F64.HIDDEN_BIT <= v * Pow2(l) < 2 * F64.HIDDEN_BIT
    ensures k == l
  {
    if k < l { Doubled(v, k, l); }
    if l < k { Doubled(v, l, k); }
  }

  lemma Doubled(v: nat, k: nat, l: nat)
    requires k < l
    ensures v * Pow2(l) >= 2 * (v * Pow2(k))
  {
    Pow2Monotone(k + 1, l);
    var p, q := Pow2(k), Pow2(l);
    assert q >= 2 * p;
    assert v * q >= v * (2 * p);
  }

  lemma IntegerParts(b: u64) returns (v: nat, k: nat)
    requires b != 0 && IntegerValue(b).Some?
    ensures v > 0 && k <= 52 && v * Pow2(k) == F64.HIDDEN_BIT + b % F64.HIDDEN_BIT && b % TWO_63 / F64.HIDDEN_BIT == 1075 - k
    ensures IntegerValue(b) == Some(if b < TWO_63 then v as int else -(v as int))
  {
    k := 1075 - b % TWO_63 / F64.HIDDEN_BIT;
    var m, p := F64.HIDDEN_BIT + b % F64.HIDDEN_BIT, Pow2(k);
    v := m / p;
    assert m == v * p + m % p;
    assert v == 0 ==> v * p == 0;
  }

  /** It is the number the pattern stands for. */
  lemma IntegerValueIs(b: u64)
    requires IntegerValue(b).Some?
    ensures !F64.IsNaN(b) && F64.NumberOf(b) == IntegerValue(b).value * Pow2(1074)
  {
    if b == 0 {
      hide Pow2;
    } else {
      var v, k := IntegerParts(b);
      hide Pow2, IntegerValue, F64.Units, F64.Signed, F64.IsNaN;
      FieldsOf(b);
      UnitsOfInteger(b % TWO_63, v, k);
      SignedProduct(b, v, Pow2(1074));
    }
  }

  lemma SignedProduct(b: u64, v: nat, p: nat)
    ensures F64.Signed(b, v * p) == (if b < TWO_63 then v as int else -(v as int)) * p
  {
  }

  lemma FieldsOf(b: u64)
    ensures b % TWO_63 % F64.HIDDEN_BIT == b % F64.HIDDEN_BIT
    ensures b % TWO_63 / F64.HIDDEN_BIT < 0x7FF ==> !F64.IsNaN(b)
  {
  }

  lemma UnitsOfInteger(m: nat, v: nat, k: nat)
    requires k <= 52 && m / F64.HIDDEN_BIT == 1075 - k && v * Pow2(k) == F64.HIDDEN_BIT + m % F64.HIDDEN_BIT
    ensures F64.Units(m) == v * Pow2(1074)
  {
    hide Pow2;
    Pow2Add(k, 1074 - k);
    Regroup(v, Pow2(k), Pow2(1074 - k));
  }

  lemma Regroup(v: nat, p: nat, q: nat)
    ensures (v * p) * q == v * (p * q)
  {
  }

  lemma IntegerValueInjective(a: u64, b: u64)
    requires IntegerValue(a).Some? && IntegerValue(a) == IntegerValue(b)
    ensures a == b
  {
    if a != 0 {
      var v, k := IntegerParts(a);
      if b != 0 {
        var w, l := IntegerParts(b);
        hide Pow2, IntegerValue;
        OneExponent(v, k, l);
        Recompose(a);
        Recompose(b);
      }
    } else if b != 0 {
      var w, l := IntegerParts(b);
    }
  }

  lemma Recompose(b: u64)
    ensures b == (if b < TWO_63 then 0 else TWO_63) + (b % TWO_63 / F64.HIDDEN_BIT) * F64.HIDDEN_BIT + b % F64.HIDDEN_BIT
  {
  }

  /** So the integer-valued doubles are a grid, and no sum of them below 2^53 rounds. */
  lemma IntegersAdd(ops: FloatOps)
    requires RightOnIntegers(ops)
    ensures Adds(ops, IntegerValue, 2 * F64.HIDDEN_BIT - 1)
  {
    forall a: u64, b: u64 | IntegerValue(a).Some? && IntegerValue(a) == IntegerValue(b) ensures a == b {
      IntegerValueInjective(a, b);
    }
    hide IntegerValue;
    assert IntegerValue(0) == Some(0) by { ZeroIsInteger(); }
  }

  lemma ZeroIsInteger()
    ensures IntegerValue(0) == Some(0)
  {
  }
}
