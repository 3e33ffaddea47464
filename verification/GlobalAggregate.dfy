/**
 The aggregate of a whole input, without keys: each batch is copied into a scratch array
 with NULLs replaced by the operation's identity, reduced by a bulk kernel, and the
 partial result folded into one cell.
 */
module GlobalAggregates {
  import opened Words
  import opened Columns
  import opened KeyCodes
  import opened AggMeaning
  import opened AggMerge
  import opened ExactSums
  import opened GroupBy
  import opened Aggregates
  import K = AggKernels
  import SortOrders
  import D = StringDicts
  import F64

  // ----- scratch arrays -----

  function IntOr(c: Cell, id: i64): i64
    requires c.Num? ==> InRange(I64, c.i)
  {
    match c case Num(i) => i case _ => id
  }

  function FloatOr(c: Cell, id: u64): u64 { match c case Flt(b) => b case _ => id }

  function IntsOr(vals: seq<Cell>, id: i64): (v: seq<i64>)
    requires forall k | 0 <= k < |vals| :: vals[k].Num? ==> InRange(I64, vals[k].i)
    ensures |v| == |vals|
  {
    seq<i64>(|vals|, k requires 0 <= k < |vals| => IntOr(vals[k], id))
  }

  function FloatsOr(vals: seq<Cell>, id: u64): (v: seq<u64>)
    ensures |v| == |vals|
  {
    seq<u64>(|vals|, k requires 0 <= k < |vals| => FloatOr(vals[k], id))
  }

  /** A group's values are all of the input type. */
  ghost predicate Typed(t: Type, vals: seq<Cell>) { forall k | 0 <= k < |vals| :: Holds(t, vals[k]) }

  predicate IntType(t: Type) { t.I32? || t.I64? || t.TS? || t.BOOL? }

  lemma IntsInRange(t: Type, vals: seq<Cell>)
    requires IntType(t) && Typed(t, vals)
    ensures forall k | 0 <= k < |vals| :: vals[k].Num? ==> InRange(I64, vals[k].i)
    ensures forall k | 0 <= k < |vals| :: vals[k].Null? || vals[k].Num?
  {
  }

  lemma {:induction false} IntsTotal(vals: seq<Cell>)
    requires forall k | 0 <= k < |vals| :: vals[k].Num? ==> InRange(I64, vals[k].i)
    ensures K.Total(IntsOr(vals, 0)) == SumInts(vals)
  {
    if vals != [] {
      var n := |vals| - 1;
      IntsTotal(vals[..n]);
      assert IntsOr(vals, 0)[..n] == IntsOr(vals[..n], 0);
    }
  }

  /** Zeros for the NULLs change neither the sum nor what it takes to hold it. */
  lemma {:induction false} FloatsOnGrid(ops: FloatOps, grid: Grid, bound: nat, vals: seq<Cell>)
    requires Adds(ops, grid, bound)
    ensures var v, d := FloatsOr(vals, 0), Doubles(vals);
      && (OnGrid(grid, v) <==> OnGrid(grid, d))
      && GridSum(grid, v) == GridSum(grid, d) && Magnitude(grid, v) == Magnitude(grid, d)
  {
    if vals != [] {
      hide Adds, OnGrid, GridSum, Magnitude, FloatsOr, Doubles;
      ZeroOnGrid(ops, grid, bound);
      var n := |vals| - 1;
      FloatsOnGrid(ops, grid, bound, vals[..n]);
      ValuesSnoc(vals);
      DoublesSnoc(vals);
      GridSnoc(grid, FloatsOr(vals[..n], 0), FloatOr(vals[n], 0));
      if vals[n].Flt? { GridSnoc(grid, Doubles(vals[..n]), vals[n].bits); }
    }
  }

  lemma ValuesSnoc(vals: seq<Cell>)
    requires vals != []
    ensures FloatsOr(vals, 0) == FloatsOr(vals[..|vals| - 1], 0) + [FloatOr(vals[|vals| - 1], 0)]
  {
    hide FloatOr;
  }

  lemma DoublesSnoc(vals: seq<Cell>)
    requires vals != []
    ensures var n := |vals| - 1;
      Doubles(vals) == if vals[n].Flt? then Doubles(vals[..n]) + [vals[n].bits] else Doubles(vals[..n])
  {
    var rest := Doubles(vals[..|vals| - 1]);
    assert rest + [] == rest;
  }

  lemma FloatsTotal(ops: FloatOps, vals: seq<Cell>)
    requires Exact(ops, Doubles(vals))
    ensures Exact(ops, FloatsOr(vals, 0)) && FloatTotal(ops, FloatsOr(vals, 0)) == SumFloats(ops, vals)
  {
    hide Adds, OnGrid, GridSum, Magnitude, FloatTotal, Doubles;
    var grid: Grid, bound: nat :| FitsGrid(ops, grid, bound, Doubles(vals));
    FloatsOnGrid(ops, grid, bound, vals);
    assert FitsGrid(ops, grid, bound, FloatsOr(vals, 0));
    SameTotal(ops, grid, bound, FloatsOr(vals, 0), Doubles(vals));
  }

  /** The values of one input column over a batch's live rows. */
  method ReadColumn(spec: AggSpec, b: Batch, ghost types: seq<Type>) returns (vals: seq<Cell>, nonnull: nat)
    requires BatchFits(b, types) && (spec.func.CountStar? || spec.col < |types|)
    ensures vals == InputsOf(spec, b.Rows()) && nonnull == NonNull(vals)
    ensures Typed(InputType(types, spec), vals)
  {
    hide Column.Valid, Batch.Valid;
    ghost var all := InputsOf(spec, b.Rows());
    vals, nonnull := [], 0;
    for k := 0 to b.rowCount
      invariant vals == all[..k] && nonnull == NonNull(vals) && Typed(InputType(types, spec), vals)
    {
      var v := ReadInput(spec, b, k);
      InputHolds(spec, b, types, k);
      Snoc(vals, v);
      vals := vals + [v];
      if !v.Null? { nonnull := nonnull + 1; }
    }
  }

  // ----- folding a batch into a cell -----

  /** The better extremum of a NULL-masked array is that of its values. */
  lemma MaskedExtreme(func: AggFunc, vals: seq<Cell>, id: i64, m: int, min: bool)
    requires (func.Min? && min && id == INT64_MAX) || (func.Max? && !min && id == INT64_MIN)
    requires forall k | 0 <= k < |vals| :: (vals[k].Num? && InRange(I64, vals[k].i)) || vals[k].Null?
    requires K.IsExtremum(min, m, IntsOr(vals, id))
    ensures NonNull(vals) == 0 ==> m == id
    ensures NonNull(vals) > 0 ==> Extreme(func, Num(m), vals)
    ensures InRange(I64, m)
  {
    AllNullIffNone(vals);
    var v := IntsOr(vals, id);
    var at :| 0 <= at < |v| && v[at] == m;
    assert v[at] == IntOr(vals[at], id);
    if NonNull(vals) > 0 {
      var u :| u in vals && !u.Null?;
      var j :| 0 <= j < |vals| && vals[j] == u;
      assert v[j] == u.i && v[j] in v;
      forall w | w in vals && !w.Null?
        ensures if min then SortOrders.ValueCmp(Num(m), w) <= 0 else SortOrders.ValueCmp(Num(m), w) >= 0
      {
        var i :| 0 <= i < |vals| && vals[i] == w;
        assert v[i] == w.i && v[i] in v;
      }
      assert vals[at] in vals;
    }
  }

  /** Two integer partial extrema merge into the cell of both. */
  lemma MergeInt(ops: FloatOps, func: AggFunc, t: Type, cell: AggCell, d: D.Dict, vals: seq<Cell>, more: seq<Cell>, m: int)
    requires (func.Min? || func.Max?) && IntType(t) && CellIs(false, ops, func, t, cell, d, vals) && Typed(t, vals)
    requires NonNull(more) == 0 ==> m == InitCell(func).i
    requires NonNull(more) > 0 ==> Extreme(func, Num(m), more)
    requires InRange(I64, m)
    ensures var i := if func.Min? then (if m < cell.i then m else cell.i) else (if m > cell.i then m else cell.i);
      CellIs(false, ops, func, t, AggCell(i, cell.d, cell.cnt + NonNull(more)), d, vals + more)
  {
    hide Extreme, NonNull, SumInts, SumFloats, FloatSumIs, AggIs;
    NonNullConcat(vals, more);
    if cell.cnt > 0 { HeldFits(func, t, cell, d, vals); }
    var i := if func.Min? then (if m < cell.i then m else cell.i) else (if m > cell.i then m else cell.i);
    if cell.cnt + NonNull(more) > 0 {
      MergedExtreme(func, Num(cell.i), vals, Num(m), more, Num(i));
    }
  }

  /** A NULL-masked array of doubles: NaN for a minimum, minus infinity for a maximum. */
  lemma MaskedFloat(func: AggFunc, vals: seq<Cell>, m: u64)
    requires Typed(Type.F64, vals) && vals != []
    requires func.Min? ==> K.IsMinF64(m, FloatsOr(vals, F64.CANONICAL_NAN))
    requires !func.Min? ==> func.Max? && K.IsMaxF64(m, FloatsOr(vals, F64.NEG_INF))
    ensures NonNull(vals) == 0 ==> F64.Rank(m) == F64.Rank(InitCell(func).d)
    ensures NonNull(vals) > 0 ==> Extreme(func, Flt(m), vals)
  {
    hide F64.Rank, F64.IsNaN;
    AllNullIffNone(vals);
    var id := InitCell(func).d;
    var v := FloatsOr(vals, id);
    var x :| x in v && F64.Rank(x) == F64.Rank(m);
    var at :| 0 <= at < |v| && v[at] == x;
    assert v[at] == FloatOr(vals[at], id);
    if NonNull(vals) > 0 {
      forall w | w in vals && !w.Null?
        ensures if func.Min? then SortOrders.ValueCmp(Flt(m), w) <= 0 else SortOrders.ValueCmp(Flt(m), w) >= 0
      {
        var i :| 0 <= i < |vals| && vals[i] == w;
        assert v[i] == w.bits && v[i] in v;
        F64.TotalOrderIsRank(m, w.bits);
      }
      var u :| u in vals && !u.Null?;
      var j :| 0 <= j < |vals| && vals[j] == u;
      assert v[j] == u.bits && v[j] in v;
      F64.TotalOrderIsRank(m, u.bits);
      F64.TotalOrderIsRank(m, x);
      if vals[at].Null? {
        IdentityLast(func, u.bits);
      } else {
        assert vals[at] in vals && vals[at].bits == x;
      }
    }
  }

  /** Two partial extrema of doubles merge into the cell of both. */
  lemma MergeFloat(ops: FloatOps, func: AggFunc, cell: AggCell, d: D.Dict, vals: seq<Cell>, more: seq<Cell>, m: u64)
    requires (func.Min? || func.Max?) && CellIs(false, ops, func, Type.F64, cell, d, vals)
    requires NonNull(more) == 0 ==> F64.Rank(m) == F64.Rank(InitCell(func).d)
    requires NonNull(more) > 0 ==> Extreme(func, Flt(m), more)
    ensures CellIs(false, ops, func, Type.F64, AggCell(cell.i, BetterF64(func, cell.d, m), cell.cnt + NonNull(more)), d, vals + more)
  {
    hide Extreme, NonNull, SumInts, SumFloats, FloatSumIs, AggIs, F64.Rank, BetterF64, SortOrders.ValueCmp;
    NonNullConcat(vals, more);
    BetterFloat(func, cell.d, m);
    if cell.cnt + NonNull(more) > 0 {
      SameTies(cell.d);
      MergedExtreme(func, Flt(cell.d), vals, Flt(m), more, Flt(BetterF64(func, cell.d, m)));
    }
  }

  /** Which kernels a global reduction uses. */
  datatype KernelPath = Vector(lanes: nat) | Scalar

  /** Fold a batch of integers: NULLs replaced by the identity, then the kernel. */
  method FoldInts(ops: FloatOps, func: AggFunc, t: Type, cell: AggCell, vals: seq<Cell>, nonnull: nat, path: KernelPath,
                  ghost d: D.Dict, ghost before: seq<Cell>)
    returns (cell': AggCell)
    requires IntType(t) && (func.Sum? || func.Avg? || func.Min? || func.Max?) && (path.Vector? ==> path.lanes >= 1)
    requires vals != [] && Typed(t, vals) && Typed(t, before) && nonnull == NonNull(vals)
    requires CellIs(false, ops, func, t, cell, d, before)
    ensures CellIs(false, ops, func, t, cell', d, before + vals)
  {
    hide Wrap, Typed, Extreme, NonNull, SumInts, SumFloats, FloatSumIs, AggIs, K.IsExtremum;
    IntsInRange(t, vals);
    NonNullConcat(before, vals);
    if func.Sum? || func.Avg? {
      var v := IntsOr(vals, 0);
      var s: i64;
      if path.Vector? { s := K.SumVector(v, path.lanes); } else { s := K.SumScalar(v); }
      IntsTotal(vals);
      SumIntsConcat(before, vals);
      WrapBoth(SumInts(before), SumInts(vals));
      cell' := AggCell(Wrap(cell.i + s), cell.d, cell.cnt + nonnull);
    } else {
      var v := IntsOr(vals, if func.Min? then INT64_MAX else INT64_MIN);
      var m;
      if path.Vector? { m := K.ExtremumVector(func.Min?, v, path.lanes); } else { m := K.ExtremumScalar(func.Min?, v); }
      MaskedExtreme(func, vals, if func.Min? then INT64_MAX else INT64_MIN, m, func.Min?);
      MergeInt(ops, func, t, cell, d, before, vals, m);
      cell' := AggCell(if func.Min? then (if m < cell.i then m else cell.i) else (if m > cell.i then m else cell.i),
                       cell.d, cell.cnt + nonnull);
    }
  }

  lemma WrapBoth(x: int, y: int)
    ensures Wrap(Wrap(x) + Wrap(y)) == Wrap(x + y)
  {
    WrapAdd(x, Wrap(y));
    WrapAdd(y, x);
    assert Wrap(y) + x == x + Wrap(y);
  }

  /** Fold a batch of doubles. */
  method FoldFloats(ops: FloatOps, func: AggFunc, cell: AggCell, vals: seq<Cell>, nonnull: nat, path: KernelPath,
                    ghost d: D.Dict, ghost before: seq<Cell>)
    returns (cell': AggCell)
    requires (func.Sum? || func.Avg? || func.Min? || func.Max?) && (path.Vector? ==> path.lanes >= 1)
    requires vals != [] && Typed(Type.F64, vals) && nonnull == NonNull(vals)
    requires CellIs(false, ops, func, Type.F64, cell, d, before)
    ensures CellIs(false, ops, func, Type.F64, cell', d, before + vals)
  {
    hide Exact, Typed, Extreme, NonNull, SumInts, SumFloats, Doubles, FloatTotal, F64.Rank, F64.MinTotal, F64.MaxTotal, K.IsMinF64, K.IsMaxF64;
    NonNullConcat(before, vals);
    if func.Sum? || func.Avg? {
      var v := FloatsOr(vals, 0);
      var s: u64;
      if path.Vector? { s := K.SumF64Vector(ops, v, path.lanes); } else { s := K.SumF64Scalar(ops, v); }
      if Exact(ops, Doubles(before + vals)) {
        SumFloatsConcat(ops, before, vals);
        FloatsTotal(ops, vals);
      }
      cell' := AggCell(cell.i, ops.add(cell.d, s), cell.cnt + nonnull);
    } else if func.Min? {
      var v, m := FloatsOr(vals, F64.CANONICAL_NAN), 0;
      if path.Vector? { m := K.MinF64Vector(v, path.lanes); } else { m := K.MinF64Scalar(v); }
      MaskedFloat(func, vals, m);
      MergeFloat(ops, func, cell, d, before, vals, m);
      cell' := AggCell(cell.i, F64.MinTotal(cell.d, m), cell.cnt + nonnull);
    } else {
      var v, m := FloatsOr(vals, F64.NEG_INF), 0;
      if path.Vector? { m := K.MaxF64Vector(v, path.lanes); } else { m := K.MaxF64Scalar(v); }
      MaskedFloat(func, vals, m);
      MergeFloat(ops, func, cell, d, before, vals, m);
      cell' := AggCell(cell.i, F64.MaxTotal(cell.d, m), cell.cnt + nonnull);
    }
  }

  /** Fold a batch of strings, by value. */
  method FoldStrings(ops: FloatOps, spec: AggSpec, cell: AggCell, d: D.Dict, vals: seq<Cell>, ghost before: seq<Cell>)
    returns (cell': AggCell, d': D.Dict)
    requires (spec.func.Min? || spec.func.Max?) && Typed(STR, vals)
    requires CellIs(false, ops, spec.func, STR, cell, d, before)
    ensures d <= d' && |d'| <= |d| + |vals|
    ensures CellIs(false, ops, spec.func, STR, cell', d', before + vals)
  {
    hide CellIs;
    cell', d' := cell, d;
    PrefixEnds(before, vals);
    for k := 0 to |vals|
      invariant d <= d' && |d'| <= |d| + k
      invariant CellIs(false, ops, spec.func, STR, cell', d', before + vals[..k])
    {
      cell', d' := FoldValue(ops, spec, STR, cell', vals[k], d', false, before + vals[..k]);
      PrefixNext(before, vals, k);
    }
  }

  /** Fold a batch into the one cell of an aggregate. */
  method FoldBatch(ops: FloatOps, spec: AggSpec, types: seq<Type>, cell: AggCell, d: D.Dict, b: Batch, path: KernelPath,
                   ghost before: seq<Cell>)
    returns (cell': AggCell, d': D.Dict)
    requires BatchFits(b, types) && b.rowCount > 0 && (path.Vector? ==> path.lanes >= 1)
    requires spec.func.CountStar? || spec.col < |types|
    requires ResultType(spec.func, InputType(types, spec)).Some? && Typed(InputType(types, spec), before)
    requires CellIs(false, ops, spec.func, InputType(types, spec), cell, d, before)
    ensures d <= d' && |d'| <= |d| + (if StrExtreme(spec, InputType(types, spec)) then b.rowCount else 0)
    ensures CellIs(false, ops, spec.func, InputType(types, spec), cell', d', before + InputsOf(spec, b.Rows()))
    ensures Typed(InputType(types, spec), before + InputsOf(spec, b.Rows()))
  {
    var t := InputType(types, spec);
    hide Typed, InputsOf, Extreme, NonNull, SumInts, SumFloats, Batch.Valid;
    cell', d' := cell, d;
    var vals, nonnull := ReadColumn(spec, b, types);
    TypedConcat(t, before, vals);
    if spec.func.CountStar? {
      cell' := cell.(cnt := cell.cnt + b.rowCount);
    } else if spec.func.Count? {
      NonNullConcat(before, vals);
      cell' := cell.(cnt := cell.cnt + nonnull);
    } else if t.STR? {
      cell', d' := FoldStrings(ops, spec, cell, d, vals, before);
    } else if t.F64? {
      cell' := FoldFloats(ops, spec.func, cell, vals, nonnull, path, d, before);
    } else {
      cell' := FoldInts(ops, spec.func, t, cell, vals, nonnull, path, d, before);
    }
  }

  lemma TypedConcat(t: Type, a: seq<Cell>, b: seq<Cell>)
    requires Typed(t, a) && Typed(t, b)
    ensures Typed(t, a + b)
  {
    hide Holds;
  }
}
