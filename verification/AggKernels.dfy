/**
 The bulk reductions behind a global aggregate: one accumulator per SIMD lane, a
 horizontal reduction, a scalar tail. Each equals the sequential reduction for every
 lane count and every length; integer sums are modulo 2^64.
 */
module AggKernels {
  import opened Words
  import opened AggMeaning
  import opened ExactSums
  import F64

  const INFINITY: u64 := 0x7FF0_0000_0000_0000

  function Total(v: seq<int>): int {
    if v == [] then 0 else Total(v[..|v| - 1]) + v[|v| - 1]
  }

  lemma {:induction false} TotalConcat(a: seq<int>, b: seq<int>)
    ensures Total(a + b) == Total(a) + Total(b)
  {
    if b == [] {
      assert a + b == a;
    } else {
      assert (a + b)[..|a + b| - 1] == a + b[..|b| - 1];
      TotalConcat(a, b[..|b| - 1]);
    }
  }

  // ----- sums -----

  function AddLanes(a: seq<i64>, b: seq<i64>): (c: seq<i64>)
    requires |a| == |b|
    ensures |c| == |a|
  {
    seq(|a|, l requires 0 <= l < |a| => Wrap((a[l] as int) + b[l]))
  }

  lemma {:induction false} AddLanesTotal(a: seq<i64>, b: seq<i64>)
    requires |a| == |b|
    ensures Wrap(Total(AddLanes(a, b))) == Wrap(Total(a) + Total(b))
  {
    if a != [] {
      hide Wrap;
      var n := |a| - 1;
      var c := AddLanes(a, b);
      assert c[..n] == AddLanes(a[..n], b[..n]);
      AddLanesTotal(a[..n], b[..n]);
      var last: int := (a[n] as int) + b[n];
      WrapSum(Total(c[..n]), last);
      WrapCongruent(Total(c[..n]), Total(a[..n]) + Total(b[..n]), last);
    }
  }

  lemma WrapSum(x: int, y: int)
    ensures Wrap(x + Wrap(y)) == Wrap(x + y)
  {
  }

  lemma WrapCongruent(x: int, y: int, z: int)
    requires Wrap(x) == Wrap(y)
    ensures Wrap(x + z) == Wrap(y + z)
  {
    WrapAdd(x, z);
    WrapAdd(y, z);
  }

  lemma ZeroTotal(n: nat)
    ensures Total(seq(n, _ => 0)) == 0
  {
    if n > 0 {
      assert seq(n, _ => 0)[..n - 1] == seq(n - 1, _ => 0);
      ZeroTotal(n - 1);
    }
  }

  method SumVector(v: seq<i64>, lanes: nat) returns (s: i64)
    requires lanes >= 1
    ensures s == Wrap(Total(v))
  {
    hide Wrap;
    var acc: seq<i64> := seq(lanes, _ => 0);
    ZeroTotal(lanes);
    var k := 0;
    while k + lanes <= |v|
      invariant 0 <= k <= |v| && |acc| == lanes && Wrap(Total(acc)) == Wrap(Total(v[..k]))
    {
      var next := k + lanes;
      SumBlock(acc, v, k, next);
      acc := AddLanes(acc, v[k..next]);
      k := next;
    }
    s := Wrap(Total(acc));   // the horizontal reduction
    while k < |v|
      invariant 0 <= k <= |v| && s == Wrap(Total(v[..k]))
    {
      SumOne(v, k);
      s := Wrap(s + v[k]);
      k := k + 1;
    }
    assert v[..|v|] == v;
  }

  lemma SumBlock(acc: seq<i64>, v: seq<i64>, k: nat, next: nat)
    requires k + |acc| == next <= |v| && Wrap(Total(acc)) == Wrap(Total(v[..k]))
    ensures Wrap(Total(AddLanes(acc, v[k..next]))) == Wrap(Total(v[..next]))
  {
    hide Wrap, Total;
    Cut(v, k, next);
    TotalConcat(v[..k], v[k..next]);
    AddLanesTotal(acc, v[k..next]);
    WrapCongruent(Total(acc), Total(v[..k]), Total(v[k..next]));
  }

  lemma Cut(v: seq<int>, k: nat, next: nat)
    requires k <= next <= |v|
    ensures v[..k] + v[k..next] == v[..next]
  {
  }

  lemma SumOne(v: seq<i64>, k: nat)
    requires k < |v|
    ensures Wrap(Wrap(Total(v[..k])) + v[k]) == Wrap(Total(v[..k + 1]))
  {
    assert v[..k + 1][..k] == v[..k];
    WrapAdd(Total(v[..k]), v[k]);
  }

  method SumScalar(v: seq<i64>) returns (s: i64)
    ensures s == Wrap(Total(v))
  {
    hide Wrap;
    s := 0;
    ZeroWraps();
    for k := 0 to |v|
      invariant s == Wrap(Total(v[..k]))
    {
      SumOne(v, k);
      s := Wrap(s + v[k]);
    }
    assert v[..|v|] == v;
  }

  lemma ZeroWraps()
    ensures Wrap(0) == 0
  {
  }

  // ----- sums of doubles -----

  function AddFloatLanes(ops: FloatOps, a: seq<u64>, b: seq<u64>): (c: seq<u64>)
    requires |a| == |b|
    ensures |c| == |a|
  {
    seq<u64>(|a|, l requires 0 <= l < |a| => ops.add(a[l], b[l]))
  }

  /** Adding lane by lane adds the sums, and no lane leaves the grid. */
  lemma {:induction false} LanesOnGrid(ops: FloatOps, grid: Grid, bound: nat, a: seq<u64>, b: seq<u64>)
    requires Adds(ops, grid, bound) && OnGrid(grid, a) && OnGrid(grid, b) && |a| == |b|
    requires Magnitude(grid, a) + Magnitude(grid, b) <= bound
    ensures var c := AddFloatLanes(ops, a, b);
      && OnGrid(grid, c) && GridSum(grid, c) == GridSum(grid, a) + GridSum(grid, b)
      && Magnitude(grid, c) <= Magnitude(grid, a) + Magnitude(grid, b)
  {
    if a != [] {
      hide Adds, OnGrid, GridSum, Magnitude, AddFloatLanes;
      var n := |a| - 1;
      LanesSnoc(ops, a, b);
      GridSnoc(grid, a[..n], a[n]);
      GridSnoc(grid, b[..n], b[n]);
      LanesOnGrid(ops, grid, bound, a[..n], b[..n]);
      AddsTwo(ops, grid, bound, a[n], b[n]);
      GridSnoc(grid, AddFloatLanes(ops, a[..n], b[..n]), ops.add(a[n], b[n]));
    }
  }

  lemma LanesSnoc(ops: FloatOps, a: seq<u64>, b: seq<u64>)
    requires |a| == |b| > 0
    ensures var n := |a| - 1;
      && a == a[..n] + [a[n]] && b == b[..n] + [b[n]]
      && AddFloatLanes(ops, a, b) == AddFloatLanes(ops, a[..n], b[..n]) + [ops.add(a[n], b[n])]
  {
  }

  lemma ZerosOnGrid(ops: FloatOps, grid: Grid, bound: nat, n: nat)
    requires Adds(ops, grid, bound)
    ensures var z := seq<u64>(n, _ => 0); OnGrid(grid, z) && GridSum(grid, z) == 0 && Magnitude(grid, z) == 0
  {
    hide Adds;
    ZeroOnGrid(ops, grid, bound);
    if n > 0 {
      ZerosOnGrid(ops, grid, bound, n - 1);
      assert seq<u64>(n, _ => 0)[..n - 1] == seq<u64>(n - 1, _ => 0);
    }
  }

  /** The lanes hold the sum of the first `k` values. */
  ghost predicate LanesSum(ops: FloatOps, grid: Grid, bound: nat, acc: seq<u64>, v: seq<u64>, k: nat)
    requires k <= |v|
  {
    && FitsGrid(ops, grid, bound, v) && OnGrid(grid, acc)
    && GridSum(grid, acc) == GridSum(grid, v[..k]) && Magnitude(grid, acc) <= Magnitude(grid, v[..k])
  }

  lemma FloatBlock(ops: FloatOps, grid: Grid, bound: nat, acc: seq<u64>, v: seq<u64>, k: nat, next: nat)
    requires k + |acc| == next <= |v| && LanesSum(ops, grid, bound, acc, v, k)
    ensures LanesSum(ops, grid, bound, AddFloatLanes(ops, acc, v[k..next]), v, next)
  {
    hide Adds, OnGrid, GridSum, Magnitude;
    Cut(v, k, next);
    Cut(v, next, |v|);
    assert v[..|v|] == v;
    GridConcat(grid, v[..k], v[k..next]);
    GridConcat(grid, v[..next], v[next..|v|]);
    LanesOnGrid(ops, grid, bound, acc, v[k..next]);
  }

  /** Reducing the lanes gives the total of what they hold. */
  lemma LanesReduced(ops: FloatOps, grid: Grid, bound: nat, acc: seq<u64>, v: seq<u64>, k: nat)
    requires k <= |v| && LanesSum(ops, grid, bound, acc, v, k)
    ensures FloatTotal(ops, acc) == FloatTotal(ops, v[..k])
  {
    hide Adds, OnGrid, GridSum, Magnitude, FloatTotal;
    assert v[..k] + v[k..] == v;
    GridConcat(grid, v[..k], v[k..]);
    SameTotal(ops, grid, bound, acc, v[..k]);
  }

  lemma NothingHeld(ops: FloatOps, grid: Grid, bound: nat, v: seq<u64>, lanes: nat)
    requires FitsGrid(ops, grid, bound, v)
    ensures LanesSum(ops, grid, bound, seq<u64>(lanes, _ => 0), v, 0)
  {
    hide Adds, OnGrid;
    ZerosOnGrid(ops, grid, bound, lanes);
  }

  /** The lane-strided sum is the sequential one when no partial sum rounds. */
  method SumF64Vector(ops: FloatOps, v: seq<u64>, lanes: nat) returns (s: u64)
    requires lanes >= 1
    ensures Exact(ops, v) ==> s == FloatTotal(ops, v)
  {
    hide FitsGrid, FloatTotal, LanesSum;
    ghost var grid: Grid, bound: nat := _ => None, 0;
    var acc: seq<u64> := seq(lanes, _ => 0);
    if Exact(ops, v) {
      grid, bound :| FitsGrid(ops, grid, bound, v);
      NothingHeld(ops, grid, bound, v, lanes);
    }
    var k := 0;
    while k + lanes <= |v|
      invariant 0 <= k <= |v| && |acc| == lanes
      invariant Exact(ops, v) ==> LanesSum(ops, grid, bound, acc, v, k)
    {
      var next := k + lanes;
      if Exact(ops, v) { FloatBlock(ops, grid, bound, acc, v, k, next); }
      acc := AddFloatLanes(ops, acc, v[k..next]);
      k := next;
    }
    if Exact(ops, v) { LanesReduced(ops, grid, bound, acc, v, k); }
    s := FloatTotal(ops, acc);   // the horizontal reduction
    while k < |v|
      invariant 0 <= k <= |v| && (Exact(ops, v) ==> s == FloatTotal(ops, v[..k]))
    {
      FloatOne(ops, v, k);
      s := ops.add(s, v[k]);
      k := k + 1;
    }
    assert v[..|v|] == v;
  }

  lemma FloatOne(ops: FloatOps, v: seq<u64>, k: nat)
    requires k < |v|
    ensures ops.add(FloatTotal(ops, v[..k]), v[k]) == FloatTotal(ops, v[..k + 1])
  {
    assert v[..k + 1][..k] == v[..k];
  }

  method SumF64Scalar(ops: FloatOps, v: seq<u64>) returns (s: u64)
    ensures s == FloatTotal(ops, v)
  {
    s := 0;
    for k := 0 to |v|
      invariant s == FloatTotal(ops, v[..k])
    {
      FloatOne(ops, v, k);
      s := ops.add(s, v[k]);
    }
    assert v[..|v|] == v;
  }

  // ----- integer extrema -----

  /** `a` is not after `b` in the search: below it for a minimum, above it for a maximum. */
  predicate Wins(min: bool, a: int, b: int) { if min then a <= b else a >= b }

  /** `m` is an element of `v` that wins against every other. */
  ghost predicate IsExtremum(min: bool, m: int, v: seq<int>) {
    m in v && forall x | x in v :: Wins(min, m, x)
  }

  function Better(min: bool, a: int, b: int): int { if Wins(min, a, b) then a else b }

  method ExtremumScalar(min: bool, v: seq<int>) returns (m: int)
    requires v != []
    ensures IsExtremum(min, m, v)
  {
    m := v[0];
    for k := 1 to |v|
      invariant m in v && forall i | 0 <= i < k :: Wins(min, m, v[i])
    {
      if !Wins(min, m, v[k]) { m := v[k]; }
    }
  }

  /** Some lane wins against `x`. */
  ghost predicate Beaten(min: bool, acc: seq<int>, x: int) {
    exists l :: 0 <= l < |acc| && Wins(min, acc[l], x)
  }

  /** Lanes hold elements, or the value they were seeded with, and beat every element before `k`. */
  ghost predicate LanesHold(min: bool, acc: seq<int>, v: seq<int>, k: nat, seed: Option<int>) {
    && k <= |v|
    && (forall l | 0 <= l < |acc| :: acc[l] in v || seed == Some(acc[l]))
    && (forall i | 0 <= i < k :: Beaten(min, acc, v[i]))
  }

  function BetterLanes(min: bool, acc: seq<int>, block: seq<int>): (r: seq<int>)
    requires |acc| == |block|
    ensures |r| == |acc|
  {
    seq(|acc|, l requires 0 <= l < |acc| => Better(min, acc[l], block[l]))
  }

  lemma BetterBeats(min: bool, acc: seq<int>, block: seq<int>, x: int)
    requires |acc| == |block| && (Beaten(min, acc, x) || x in block)
    ensures Beaten(min, BetterLanes(min, acc, block), x)
  {
    var r := BetterLanes(min, acc, block);
    if Beaten(min, acc, x) {
      var l :| 0 <= l < |acc| && Wins(min, acc[l], x);
      assert Wins(min, r[l], x);
    } else {
      var l :| 0 <= l < |block| && block[l] == x;
      assert Wins(min, r[l], x);
    }
  }

  lemma NextLanes(min: bool, acc: seq<int>, v: seq<int>, k: nat, next: nat, seed: Option<int>)
    requires LanesHold(min, acc, v, k, seed) && k + |acc| == next <= |v|
    ensures LanesHold(min, BetterLanes(min, acc, v[k..next]), v, next, seed)
  {
    hide Beaten;
    var block := v[k..next];
    var r := BetterLanes(min, acc, block);
    forall i | 0 <= i < next ensures Beaten(min, r, v[i]) {
      if i >= k { assert v[i] == block[i - k]; }
      BetterBeats(min, acc, block, v[i]);
    }
    forall l | 0 <= l < |acc| ensures r[l] in v || seed == Some(r[l]) {
      assert block[l] == v[k + l];
    }
  }

  lemma FirstLanes(min: bool, v: seq<int>, lanes: nat)
    requires lanes <= |v|
    ensures LanesHold(min, v[..lanes], v, lanes, None)
  {
    forall i | 0 <= i < lanes ensures Beaten(min, v[..lanes], v[i]) {
      assert Wins(min, v[..lanes][i], v[i]);
    }
  }

  method ExtremumVector(min: bool, v: seq<int>, lanes: nat) returns (m: int)
    requires v != [] && lanes >= 1
    ensures IsExtremum(min, m, v)
  {
    if |v| < lanes {
      m := ExtremumScalar(min, v);
      return;
    }
    var acc := v[..lanes];
    var k := lanes;
    FirstLanes(min, v, lanes);
    while k + lanes <= |v|
      invariant 0 <= k <= |v| && |acc| == lanes && LanesHold(min, acc, v, k, None)
    {
      hide LanesHold;
      var next := k + lanes;
      NextLanes(min, acc, v, k, next, None);
      acc := BetterLanes(min, acc, v[k..next]);
      k := next;
    }
    m := ExtremumScalar(min, acc);   // the horizontal reduction
    Reduced(min, m, acc, v, k, None);
    while k < |v|
      invariant 0 <= k <= |v| && m in v && forall i | 0 <= i < k :: Wins(min, m, v[i])
    {
      if !Wins(min, m, v[k]) { m := v[k]; }
      k := k + 1;
    }
  }

  lemma Reduced(min: bool, m: int, acc: seq<int>, v: seq<int>, k: nat, seed: Option<int>)
    requires IsExtremum(min, m, acc) && LanesHold(min, acc, v, k, seed)
    ensures m in v || seed == Some(m)
    ensures forall i | 0 <= i < k :: Wins(min, m, v[i])
  {
    var at :| 0 <= at < |acc| && acc[at] == m;
    forall i | 0 <= i < k ensures Wins(min, m, v[i]) {
      var l :| 0 <= l < |acc| && Wins(min, acc[l], v[i]);
      assert acc[l] in acc;
    }
  }

  // ----- extrema of doubles: NaN lanes are masked out -----

  /** The minimum is a NaN exactly when every element is; otherwise it ties the least real. */
  ghost predicate IsMinF64(m: u64, v: seq<u64>) {
    && (F64.IsNaN(m) <==> forall x | x in v :: F64.IsNaN(x))
    && (v != [] ==> exists x :: x in v && F64.Rank(x) == F64.Rank(m))
    && forall x | x in v :: F64.Rank(m) <= F64.Rank(x)
  }

  /** The maximum is a NaN exactly when some element is; with none it ties the greatest real. */
  ghost predicate IsMaxF64(m: u64, v: seq<u64>) {
    && (F64.IsNaN(m) <==> exists x :: x in v && F64.IsNaN(x))
    && (v != [] ==> exists x :: x in v && F64.Rank(x) == F64.Rank(m))
    && forall x | x in v :: F64.Rank(x) <= F64.Rank(m)
  }

  function Mask(identity: u64, x: u64): (r: u64)
    requires !F64.IsNaN(identity)
    ensures !F64.IsNaN(r)
  {
    if F64.IsNaN(x) then identity else x
  }

  function Ranks(v: seq<u64>): (r: seq<int>)
    ensures |r| == |v|
  {
    seq(|v|, i requires 0 <= i < |v| => F64.Rank(v[i]))
  }

  function MaskAll(identity: u64, v: seq<u64>): (r: seq<u64>)
    requires !F64.IsNaN(identity)
    ensures |r| == |v|
  {
    seq(|v|, i requires 0 <= i < |v| => Mask(identity, v[i]))
  }

  /** The lane operation on NaN-free lanes. */
  function RawLanes(min: bool, acc: seq<u64>, block: seq<u64>): (r: seq<u64>)
    requires |acc| == |block|
    ensures |r| == |acc|
  {
    seq(|acc|, l requires 0 <= l < |acc| => if min then F64.RawMin(acc[l], block[l]) else F64.RawMax(acc[l], block[l]))
  }

  ghost predicate Reals(v: seq<u64>) { forall i | 0 <= i < |v| :: !F64.IsNaN(v[i]) }

  /** On NaN-free lanes the raw operation is the one on ranks. */
  lemma RawLanesRanks(min: bool, acc: seq<u64>, block: seq<u64>)
    requires |acc| == |block| && Reals(acc) && Reals(block)
    ensures Reals(RawLanes(min, acc, block))
    ensures Ranks(RawLanes(min, acc, block)) == BetterLanes(min, Ranks(acc), Ranks(block))
  {
  }

  method ReduceRaw(min: bool, acc: seq<u64>) returns (m: u64)
    requires acc != [] && Reals(acc)
    ensures !F64.IsNaN(m) && IsExtremum(min, F64.Rank(m), Ranks(acc))
  {
    m := acc[0];
    assert Ranks(acc)[0] == F64.Rank(m);
    for k := 1 to |acc|
      invariant !F64.IsNaN(m) && F64.Rank(m) in Ranks(acc)
      invariant forall i | 0 <= i < k :: Wins(min, F64.Rank(m), F64.Rank(acc[i]))
    {
      assert Ranks(acc)[k] == F64.Rank(acc[k]);
      m := if min then F64.RawMin(m, acc[k]) else F64.RawMax(m, acc[k]);
    }
  }

  lemma NextMasked(min: bool, identity: u64, acc: seq<u64>, v: seq<u64>, k: nat, next: nat)
    requires !F64.IsNaN(identity) && Reals(acc) && k + |acc| == next <= |v|
    requires LanesHold(min, Ranks(acc), Ranks(MaskAll(identity, v)), k, Some(F64.Rank(identity)))
    ensures var block := MaskAll(identity, v[k..next]);
      && Reals(RawLanes(min, acc, block))
      && LanesHold(min, Ranks(RawLanes(min, acc, block)), Ranks(MaskAll(identity, v)), next, Some(F64.Rank(identity)))
  {
    hide LanesHold, F64.Rank, F64.RawMin, F64.RawMax;
    var block, w := MaskAll(identity, v[k..next]), Ranks(MaskAll(identity, v));
    RawLanesRanks(min, acc, block);
    assert w[k..next] == Ranks(block);
    NextLanes(min, Ranks(acc), w, k, next, Some(F64.Rank(identity)));
  }

  lemma FinishMasked(min: bool, identity: u64, m: u64, acc: seq<u64>, v: seq<u64>, k: nat)
    requires !F64.IsNaN(identity) && IsExtremum(min, F64.Rank(m), Ranks(acc))
    requires LanesHold(min, Ranks(acc), Ranks(MaskAll(identity, v)), k, Some(F64.Rank(identity)))
    ensures k <= |v|
    ensures forall i | 0 <= i < k && !F64.IsNaN(v[i]) :: Wins(min, F64.Rank(m), F64.Rank(v[i]))
    ensures F64.Rank(m) == F64.Rank(identity) || exists i :: 0 <= i < |v| && F64.Rank(v[i]) == F64.Rank(m)
  {
    hide F64.Rank, Wins;
    var w := MaskAll(identity, v);
    Reduced(min, F64.Rank(m), Ranks(acc), Ranks(w), k, Some(F64.Rank(identity)));
    forall i | 0 <= i < k && !F64.IsNaN(v[i]) ensures Wins(min, F64.Rank(m), F64.Rank(v[i])) {
      assert Ranks(w)[i] == F64.Rank(v[i]);
    }
    if F64.Rank(m) in Ranks(w) {
      var i :| 0 <= i < |w| && Ranks(w)[i] == F64.Rank(m);
      assert w[i] == Mask(identity, v[i]);
    }
  }

  /** The masked lane loop: every real before the tail is beaten, and NaNs and reals are noticed. */
  method MaskedLanes(min: bool, identity: u64, v: seq<u64>, lanes: nat) returns (m: u64, k: nat, anyReal: bool, anyNaN: bool)
    requires lanes >= 1 && !F64.IsNaN(identity)
    ensures k <= |v| && !F64.IsNaN(m)
    ensures anyReal <==> exists i :: 0 <= i < k && !F64.IsNaN(v[i])
    ensures anyNaN <==> exists i :: 0 <= i < k && F64.IsNaN(v[i])
    ensures forall i | 0 <= i < k && !F64.IsNaN(v[i]) :: Wins(min, F64.Rank(m), F64.Rank(v[i]))
    ensures F64.Rank(m) == F64.Rank(identity) || exists i :: 0 <= i < |v| && F64.Rank(v[i]) == F64.Rank(m)
  {
    var acc: seq<u64> := seq(lanes, _ => identity);
    k, anyReal, anyNaN := 0, false, false;
    ghost var w := Ranks(MaskAll(identity, v));
    while k + lanes <= |v|
      invariant 0 <= k <= |v| && |acc| == lanes && Reals(acc)
      invariant anyReal <==> exists i :: 0 <= i < k && !F64.IsNaN(v[i])
      invariant anyNaN <==> exists i :: 0 <= i < k && F64.IsNaN(v[i])
      invariant LanesHold(min, Ranks(acc), w, k, Some(F64.Rank(identity)))
    {
      hide LanesHold, F64.IsNaN, F64.Rank, Ranks, RawLanes, Reals, MaskAll;
      var next := k + lanes;
      NextMasked(min, identity, acc, v, k, next);
      acc := RawLanes(min, acc, MaskAll(identity, v[k..next]));
      anyReal := anyReal || exists i :: k <= i < next && !F64.IsNaN(v[i]);
      anyNaN := anyNaN || exists i :: k <= i < next && F64.IsNaN(v[i]);
      k := next;
    }
    m := ReduceRaw(min, acc);
    FinishMasked(min, identity, m, acc, v, k);
  }

  /** A minimum over the first `k` elements so far, where `seen` says whether any is real. */
  ghost predicate MinSoFar(m: u64, v: seq<u64>, k: nat, seen: bool) {
    && k <= |v| && (seen <==> exists i :: 0 <= i < k && !F64.IsNaN(v[i]))
    && (seen ==>
          && !F64.IsNaN(m)
          && (forall i | 0 <= i < k && !F64.IsNaN(v[i]) :: F64.Rank(m) <= F64.Rank(v[i]))
          && (F64.Rank(m) == F64.Rank(INFINITY) || exists i :: 0 <= i < |v| && F64.Rank(v[i]) == F64.Rank(m)))
  }

  lemma MinFinishes(m: u64, v: seq<u64>, seen: bool)
    requires MinSoFar(m, v, |v|, seen)
    ensures IsMinF64(if seen then m else F64.CANONICAL_NAN, v)
  {
    if !seen && v != [] { assert F64.Rank(v[0]) == F64.Rank(F64.CANONICAL_NAN); }
    if seen {
      var i :| 0 <= i < |v| && !F64.IsNaN(v[i]);
      assert F64.Rank(v[i]) <= F64.Rank(INFINITY) && F64.Rank(m) <= F64.Rank(v[i]);
      if F64.Rank(m) == F64.Rank(INFINITY) { assert F64.Rank(v[i]) == F64.Rank(m); }
    }
  }

  method MinF64Vector(v: seq<u64>, lanes: nat) returns (r: u64)
    requires lanes >= 1
    ensures IsMinF64(r, v)
  {
    var m: u64, k, seen, _ := MaskedLanes(true, INFINITY, v, lanes);
    while k < |v|
      invariant MinSoFar(m, v, k, seen)
      decreases |v| - k
    {
      if !F64.IsNaN(v[k]) {
        if !seen || F64.Less(v[k], m) { m := v[k]; }
        seen := true;
      }
      k := k + 1;
    }
    MinFinishes(m, v, seen);
    r := if seen then m else F64.CANONICAL_NAN;
  }

  method MinF64Scalar(v: seq<u64>) returns (r: u64)
    ensures IsMinF64(r, v)
  {
    var seen := false;
    r := F64.CANONICAL_NAN;
    for k := 0 to |v|
      invariant MinSoFar(r, v, k, seen) && (!seen ==> r == F64.CANONICAL_NAN)
    {
      if !F64.IsNaN(v[k]) {
        if !seen || F64.Less(v[k], r) { r := v[k]; }
        seen := true;
      }
    }
    MinFinishes(r, v, seen);
  }

  /** A maximum over the first `k` elements so far, where `seen` says whether any is a NaN. */
  ghost predicate MaxSoFar(m: u64, v: seq<u64>, k: nat, seen: bool) {
    && k <= |v| && (seen <==> exists i :: 0 <= i < k && F64.IsNaN(v[i])) && !F64.IsNaN(m)
    && (forall i | 0 <= i < k && !F64.IsNaN(v[i]) :: F64.Rank(m) >= F64.Rank(v[i]))
    && (F64.Rank(m) == F64.Rank(F64.NEG_INF) || exists i :: 0 <= i < |v| && F64.Rank(v[i]) == F64.Rank(m))
  }

  lemma MaxFinishes(m: u64, v: seq<u64>, seen: bool)
    requires MaxSoFar(m, v, |v|, seen)
    ensures IsMaxF64(if seen then F64.CANONICAL_NAN else m, v)
  {
    if seen {
      var i :| 0 <= i < |v| && F64.IsNaN(v[i]);
      assert v[i] in v && F64.Rank(v[i]) == F64.Rank(F64.CANONICAL_NAN);
    } else if v != [] {
      assert F64.Rank(v[0]) >= F64.Rank(F64.NEG_INF);
      if F64.Rank(m) == F64.Rank(F64.NEG_INF) { assert F64.Rank(v[0]) == F64.Rank(m); }
    }
  }

  method MaxF64Vector(v: seq<u64>, lanes: nat) returns (r: u64)
    requires lanes >= 1
    ensures IsMaxF64(r, v)
  {
    var m: u64, k, _, seen := MaskedLanes(false, F64.NEG_INF, v, lanes);
    while k < |v|
      invariant MaxSoFar(m, v, k, seen)
      decreases |v| - k
    {
      if F64.IsNaN(v[k]) {
        seen := true;
      } else if F64.Less(m, v[k]) {
        m := v[k];
      }
      k := k + 1;
    }
    MaxFinishes(m, v, seen);
    r := if seen then F64.CANONICAL_NAN else m;
  }

  method MaxF64Scalar(v: seq<u64>) returns (r: u64)
    ensures IsMaxF64(r, v)
  {
    r := F64.NEG_INF;
    for k := 0 to |v|
      invariant MaxSoFar(r, v, k, false)
    {
      if F64.IsNaN(v[k]) {
        NaNIsMax(v, k);
        return F64.CANONICAL_NAN;
      }
      if F64.Less(r, v[k]) { r := v[k]; }
    }
    MaxFinishes(r, v, false);
  }

  lemma NaNIsMax(v: seq<u64>, k: nat)
    requires k < |v| && F64.IsNaN(v[k])
    ensures IsMaxF64(F64.CANONICAL_NAN, v)
  {
    assert v[k] in v && F64.Rank(v[k]) == F64.Rank(F64.CANONICAL_NAN);
  }
}
