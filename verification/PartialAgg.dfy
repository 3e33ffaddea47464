/**
 Partial aggregates: how an aggregate is split into parts that merge, how parts are folded
 within a worker and merged across workers, and what the result is worth.

 Within a worker the extrema of doubles follow the NaN-greatest order; across workers they
 follow the raw comparison. The two agree exactly when `MergeSafe` says so.
 */
module PartialAggs {
  import opened Words
  import opened Columns
  import opened KeyCodes
  import opened SortOrders
  import opened AggMeaning
  import opened AggMerge
  import opened GroupBy
  import F64

  datatype PartialKind = CountStar | Count | SumI | SumF | MinI | MinF | MaxI | MaxF

  /** One accumulator of a group. */
  datatype Acc = Acc(seen: bool, i: int, f: u64)

  const NOTHING_SEEN: Acc := Acc(false, 0, 0)

  /** How one aggregate is read off the accumulators; `count` is for AVG only. */
  datatype OrigMap = OrigMap(func: AggFunc, val: nat, count: Option<nat>, resultType: Type)

  // ----- splitting the aggregates -----

  function KindOf(func: AggFunc, t: Type): PartialKind {
    match func
    case CountStar => PartialKind.CountStar
    case Count => PartialKind.Count
    case Sum | Avg => if t.F64? then SumF else SumI
    case Min => if t.F64? then MinF else MinI
    case Max => if t.F64? then MaxF else MaxI
  }

  /** An aggregate that is defined on its input and whose partial results carry its value. */
  predicate Mergeable(types: seq<Type>, spec: AggSpec)
    requires spec.func.CountStar? || spec.col < |types|
  {
    var t := InputType(types, spec);
    ResultType(spec.func, t).Some? && !(t.STR? && (spec.func.Min? || spec.func.Max?))
  }

  /** The partial that carries the value of an aggregate: the sum, for an average. */
  function ValuePart(spec: AggSpec): AggSpec {
    match spec.func
    case CountStar => AggSpec(AggFunc.CountStar, 0)
    case Avg => AggSpec(Sum, spec.col)
    case _ => spec
  }

  ghost predicate PartialOk(types: seq<Type>, spec: AggSpec, kind: PartialKind) {
    && !spec.func.Avg? && (spec.func.CountStar? || spec.col < |types|)
    && kind == KindOf(spec.func, InputType(types, spec)) && Mergeable(types, spec)
  }

  ghost predicate OrigOk(types: seq<Type>, agg: AggSpec, om: OrigMap, specs: seq<AggSpec>)
    requires agg.func.CountStar? || agg.col < |types|
  {
    && om.func == agg.func && ResultType(agg.func, InputType(types, agg)) == Some(om.resultType)
    && om.val < |specs| && specs[om.val] == ValuePart(agg)
    && (agg.func.Avg? ==>
          om.count.Some? && om.count.value < |specs| && specs[om.count.value] == AggSpec(AggFunc.Count, agg.col))
  }

  /** Split each aggregate into partials that merge: an average becomes a sum and a count. */
  method BuildPartials(aggs: seq<AggSpec>, types: seq<Type>)
    returns (specs: seq<AggSpec>, kinds: seq<PartialKind>, omap: seq<OrigMap>)
    requires forall a | 0 <= a < |aggs| :: (aggs[a].func.CountStar? || aggs[a].col < |types|) && Mergeable(types, aggs[a])
    ensures |specs| == |kinds| && |omap| == |aggs| && (aggs != [] ==> specs != [])
    ensures forall j | 0 <= j < |specs| :: PartialOk(types, specs[j], kinds[j])
    ensures forall a | 0 <= a < |aggs| :: OrigOk(types, aggs[a], omap[a], specs)
  {
    specs, kinds, omap := [], [], [];
    for a := 0 to |aggs|
      invariant |specs| == |kinds| && |omap| == a && (a > 0 ==> specs != [])
      invariant forall j | 0 <= j < |specs| :: PartialOk(types, specs[j], kinds[j])
      invariant forall i | 0 <= i < a :: OrigOk(types, aggs[i], omap[i], specs)
    {
      var agg, idx := aggs[a], |specs|;
      var t := InputType(types, agg);
      specs, kinds := specs + [ValuePart(agg)], kinds + [KindOf(agg.func, t)];
      match agg.func {
        case CountStar | Count => omap := omap + [OrigMap(agg.func, idx, None, I64)];
        case Sum => omap := omap + [OrigMap(Sum, idx, None, if t.F64? then Type.F64 else I64)];
        case Min | Max => omap := omap + [OrigMap(agg.func, idx, None, t)];
        case Avg =>
          specs, kinds := specs + [AggSpec(AggFunc.Count, agg.col)], kinds + [PartialKind.Count];
          omap := omap + [OrigMap(Avg, idx, Some(idx + 1), Type.F64)];
      }
    }
  }

  // ----- folding within a worker -----

  /** What an accumulator of the values `vals` must hold. */
  ghost predicate AccIs(ops: FloatOps, func: AggFunc, t: Type, acc: Acc, vals: seq<Cell>) {
    match func
    case CountStar => acc.i == |vals|
    case Count => acc.i == NonNull(vals)
    case Sum | Avg =>
      && (acc.seen <==> NonNull(vals) > 0)
      && if t.F64? then FloatSumIs(false, ops, acc.f, vals) else acc.i == Wrap(SumInts(vals))
    case Min | Max =>
      && (acc.seen <==> NonNull(vals) > 0)
      && (acc.seen ==> Extreme(func, if t.F64? then Flt(acc.f) else Num(acc.i), vals))
  }

  /** A partial result is of the kind's representation. */
  predicate CellFits(k: PartialKind, c: Cell) {
    match k
    case CountStar | Count => c.Num?
    case SumI | MinI | MaxI => c.Num? || c.Null?
    case SumF | MinF | MaxF => c.Flt? || c.Null?
  }

  /** Fold a partial result into an accumulator, within a worker. */
  function FoldPlain(ops: FloatOps, a: Acc, c: Cell, k: PartialKind): Acc
    requires CellFits(k, c)
  {
    match k
    case CountStar | Count => Acc(true, a.i + c.i, a.f)
    case SumI => if c.Null? then a else Acc(true, Wrap(a.i + c.i), a.f)
    case SumF => if c.Null? then a else Acc(true, a.i, ops.add(a.f, c.bits))
    case MinI => if c.Null? then a else Acc(true, if a.seen && a.i <= c.i then a.i else c.i, a.f)
    case MaxI => if c.Null? then a else Acc(true, if a.seen && a.i >= c.i then a.i else c.i, a.f)
    case MinF => if c.Null? then a else Acc(true, a.i, if a.seen then F64.MinTotal(a.f, c.bits) else c.bits)
    case MaxF => if c.Null? then a else Acc(true, a.i, if a.seen then F64.MaxTotal(a.f, c.bits) else c.bits)
  }

  /** The values of a group are of the input type. */
  ghost predicate Typed(func: AggFunc, t: Type, vals: seq<Cell>) {
    forall v | v in vals :: func.CountStar? || Holds(t, v)
  }

  lemma FreshAcc(ops: FloatOps, func: AggFunc, t: Type)
    ensures AccIs(ops, func, t, NOTHING_SEEN, [])
  {
  }

  lemma {:induction false} NoDoubles(vals: seq<Cell>)
    requires NonNull(vals) == 0
    ensures Doubles(vals) == []
  {
    if vals != [] { NoDoubles(vals[..|vals| - 1]); }
  }

  lemma {:induction false} NothingToSum(ops: FloatOps, vals: seq<Cell>)
    requires NonNull(vals) == 0
    ensures SumInts(vals) == 0 && SumFloats(ops, vals) == 0
  {
    if vals != [] {
      NothingToSum(ops, vals[..|vals| - 1]);
      NoDoubles(vals);
    }
  }

  /** A partial aggregate is of its kind's representation. */
  lemma PartialFits(ops: FloatOps, func: AggFunc, t: Type, c: Cell, vals: seq<Cell>)
    requires !func.Avg? && !(t.STR? && !func.CountStar? && !func.Count?)
    requires AggIs(false, ops, func, t, c, vals) && Typed(func, t, vals)
    ensures CellFits(KindOf(func, t), c)
    ensures !func.CountStar? && !func.Count? ==> (c.Null? <==> NonNull(vals) == 0)
  {
    hide F64.CmpTotal, FloatSumIs;
    if (func.Min? || func.Max?) && NonNull(vals) > 0 {
      var v :| v in vals && !v.Null? && ValueCmp(c, v) == 0;
    }
  }

  /** Folding the partial aggregate of more values keeps an accumulator true. */
  lemma FoldPlainKeeps(ops: FloatOps, func: AggFunc, t: Type, acc: Acc, a: seq<Cell>, c: Cell, b: seq<Cell>)
    requires !func.Avg? && !(t.STR? && !func.CountStar? && !func.Count?)
    requires AccIs(ops, func, t, acc, a) && AggIs(false, ops, func, t, c, b) && Typed(func, t, b)
    ensures CellFits(KindOf(func, t), c)
    ensures AccIs(ops, func, t, FoldPlain(ops, acc, c, KindOf(func, t)), a + b)
  {
    hide Wrap, NonNull, SumInts, SumFloats, Extreme, ValueCmp, Exact, Typed, F64.MinTotal, F64.MaxTotal;
    PartialFits(ops, func, t, c, b);
    NonNullConcat(a, b);
    match func {
      case CountStar | Count =>
      case Sum => FoldSum(ops, t, acc, a, c, b);
      case _ => FoldExtreme(ops, func, t, acc, a, c, b);
    }
  }

  lemma FoldSum(ops: FloatOps, t: Type, acc: Acc, a: seq<Cell>, c: Cell, b: seq<Cell>)
    requires AccIs(ops, Sum, t, acc, a) && AggIs(false, ops, Sum, t, c, b) && CellFits(KindOf(Sum, t), c)
    requires c.Null? <==> NonNull(b) == 0
    ensures AccIs(ops, Sum, t, FoldPlain(ops, acc, c, KindOf(Sum, t)), a + b)
  {
    hide Wrap, NonNull, SumInts, SumFloats, Exact, Doubles;
    NonNullConcat(a, b);
    SumIntsConcat(a, b);
    if t.F64? {
      if Exact(ops, Doubles(a + b)) {
        SumFloatsConcat(ops, a, b);
        if c.Null? { NothingToSum(ops, b); }
      }
    } else if c.Null? {
      NothingToSum(ops, b);
    } else {
      SumsWrap(SumInts(a), SumInts(b));
    }
  }

  lemma SumsWrap(x: int, y: int)
    ensures Wrap(Wrap(x) + Wrap(y)) == Wrap(x + y)
  {
    WrapAdd(x, Wrap(y));
    WrapAdd(y, x);
    assert Wrap(y) + x == x + Wrap(y);
  }

  lemma FoldExtreme(ops: FloatOps, func: AggFunc, t: Type, acc: Acc, a: seq<Cell>, c: Cell, b: seq<Cell>)
    requires func.Min? || func.Max?
    requires AccIs(ops, func, t, acc, a) && AggIs(false, ops, func, t, c, b) && CellFits(KindOf(func, t), c)
    requires c.Null? <==> NonNull(b) == 0
    ensures AccIs(ops, func, t, FoldPlain(ops, acc, c, KindOf(func, t)), a + b)
  {
    hide NonNull, Extreme, ValueCmp, F64.MinTotal, F64.MaxTotal;
    NonNullConcat(a, b);
    var held := if t.F64? then Flt(acc.f) else Num(acc.i);
    if c.Null? {
      if acc.seen { ExtremeWithNulls(func, held, a, b); }
    } else {
      var acc' := FoldPlain(ops, acc, c, KindOf(func, t));
      var held' := if t.F64? then Flt(acc'.f) else Num(acc'.i);
      PlainWinner(ops, func, t, acc, c);
      MergedExtreme(func, held, a, c, b, held');
    }
  }

  /** The fold keeps the better of what it held and what it is given. */
  lemma PlainWinner(ops: FloatOps, func: AggFunc, t: Type, acc: Acc, c: Cell)
    requires (func.Min? || func.Max?) && CellFits(KindOf(func, t), c) && !c.Null?
    ensures var acc' := FoldPlain(ops, acc, c, KindOf(func, t));
      var held, held' := if t.F64? then Flt(acc.f) else Num(acc.i), if t.F64? then Flt(acc'.f) else Num(acc'.i);
      && (acc.seen ==>
            if (if func.Min? then ValueCmp(c, held) < 0 else ValueCmp(c, held) > 0)
            then ValueCmp(held', c) == 0 else ValueCmp(held', held) == 0)
      && (!acc.seen ==> ValueCmp(held', c) == 0)
  {
    if t.F64? {
      BetterFloat(func, acc.f, c.bits);
      SameTies(c.bits);
      hide F64.Rank, F64.CmpTotal;
    }
  }

  // ----- merging across workers -----

  /** Merge the accumulator of another worker; extrema of doubles by the raw comparison. */
  function MergeAcc(ops: FloatOps, a: Acc, b: Acc, k: PartialKind): Acc {
    match k
    case CountStar | Count => Acc(a.seen || b.seen, a.i + b.i, a.f)
    case SumI => if !b.seen then a else Acc(true, if a.seen then Wrap(a.i + b.i) else b.i, a.f)
    case SumF => if !b.seen then a else Acc(true, a.i, if a.seen then ops.add(a.f, b.f) else b.f)
    case MinI => if !b.seen then a else Acc(true, if a.seen && a.i <= b.i then a.i else b.i, a.f)
    case MaxI => if !b.seen then a else Acc(true, if a.seen && a.i >= b.i then a.i else b.i, a.f)
    case MinF => if !b.seen then a else Acc(true, a.i, if a.seen then F64.RawMin(a.f, b.f) else b.f)
    case MaxF => if !b.seen then a else Acc(true, a.i, if a.seen then F64.RawMax(a.f, b.f) else b.f)
  }

  predicate FloatExtreme(func: AggFunc, t: Type) { t.F64? && (func.Min? || func.Max?) }

  /** What the parts hold, one after another. */
  function Whole(parts: seq<seq<Cell>>): seq<Cell> {
    if parts == [] then [] else Whole(parts[..|parts| - 1]) + parts[|parts| - 1]
  }

  predicate CellNaN(c: Cell) { c.Flt? && F64.IsNaN(c.bits) }

  /** Is the extremum a NaN: of a minimum, only if every value is; of a maximum, if any is. */
  predicate ExtremeNaN(func: AggFunc, vals: seq<Cell>) {
    if func.Min? then forall v | v in vals && !v.Null? :: CellNaN(v)
    else exists v | v in vals :: CellNaN(v)
  }

  /** Is the extremum of the first part that has a value a NaN? */
  predicate FirstNaN(func: AggFunc, parts: seq<seq<Cell>>) {
    if parts == [] then false
    else if NonNull(Whole(parts[..|parts| - 1])) > 0 then FirstNaN(func, parts[..|parts| - 1])
    else NonNull(parts[|parts| - 1]) > 0 && ExtremeNaN(func, parts[|parts| - 1])
  }

  /** The raw comparison never moves off a NaN, nor onto one: whether it ends at one is decided first. */
  predicate MergeSafe(func: AggFunc, parts: seq<seq<Cell>>) {
    NonNull(Whole(parts)) > 0 ==> (FirstNaN(func, parts) <==> ExtremeNaN(func, Whole(parts)))
  }

  lemma WholeNext(parts: seq<seq<Cell>>, b: seq<Cell>)
    ensures Whole(parts + [b]) == Whole(parts) + b
  {
    assert (parts + [b])[..|parts|] == parts;
  }

  /** Without NaNs, no merge goes wrong. */
  lemma {:induction false} NoNaNIsSafe(func: AggFunc, parts: seq<seq<Cell>>)
    requires forall v | v in Whole(parts) :: !CellNaN(v)
    ensures MergeSafe(func, parts)
    ensures NonNull(Whole(parts)) > 0 ==> !FirstNaN(func, parts)
  {
    if parts != [] {
      var n := |parts| - 1;
      NoNaNIsSafe(func, parts[..n]);
      hide CellNaN;
      NonNullConcat(Whole(parts[..n]), parts[n]);
      AllNullIffNone(Whole(parts));
      AllNullIffNone(parts[n]);
    }
  }

  /**
   Merging a minimum of NaN with one of 1.0 leaves NaN, and a maximum of 1.0 with one of NaN
   leaves 1.0: neither is the extremum of both. In the other order both are right.
   */
  lemma NaNsCanBeLost(ops: FloatOps)
    ensures var nan, one := Acc(true, 0, F64.CANONICAL_NAN), Acc(true, 0, ONE);
      && AccIs(ops, Min, Type.F64, nan, [Flt(nan.f)]) && AccIs(ops, Min, Type.F64, one, [Flt(one.f)])
      && AccIs(ops, Max, Type.F64, nan, [Flt(nan.f)]) && AccIs(ops, Max, Type.F64, one, [Flt(one.f)])
      && !AccIs(ops, Min, Type.F64, MergeAcc(ops, nan, one, MinF), [Flt(nan.f), Flt(one.f)])
      && !AccIs(ops, Max, Type.F64, MergeAcc(ops, one, nan, MaxF), [Flt(one.f), Flt(nan.f)])
      && AccIs(ops, Min, Type.F64, MergeAcc(ops, one, nan, MinF), [Flt(one.f), Flt(nan.f)])
      && AccIs(ops, Max, Type.F64, MergeAcc(ops, nan, one, MaxF), [Flt(nan.f), Flt(one.f)])
  {
    var nan, one := Flt(F64.CANONICAL_NAN), Flt(ONE);
    OneValue(nan);
    OneValue(one);
    TwoValues(nan, one);
    TwoValues(one, nan);
  }

  const ONE: u64 := 0x3FF0_0000_0000_0000   // the pattern of 1.0

  lemma OneValue(x: Cell)
    requires x.Flt?
    ensures NonNull([x]) == 1 && x in [x] && forall v | v in [x] :: v == x
  {
    assert [x][..0] == [];
  }

  lemma TwoValues(x: Cell, y: Cell)
    requires x.Flt? && y.Flt?
    ensures NonNull([x, y]) == 2 && x in [x, y] && y in [x, y] && forall v | v in [x, y] :: v == x || v == y
  {
    assert [x, y][..1] == [x] && [x][..0] == [];
  }

  ghost predicate AllFloat(vals: seq<Cell>) { forall v | v in vals :: v.Flt? || v.Null? }

  /** Whether the extremum is a NaN is read off the values. */
  lemma ExtremeIsNaN(func: AggFunc, f: u64, vals: seq<Cell>)
    requires (func.Min? || func.Max?) && Extreme(func, Flt(f), vals) && AllFloat(vals)
    ensures F64.IsNaN(f) <==> ExtremeNaN(func, vals)
  {
    hide F64.IsNaN, F64.Rank;
    var u :| u in vals && !u.Null? && ValueCmp(Flt(f), u) == 0;
    F64.TotalOrderIsRank(f, u.bits);
    F64.TotalOrderIsRank(u.bits, f);
    forall v | v in vals && v.Flt?
      ensures if func.Min? then F64.IsNaN(f) ==> F64.IsNaN(v.bits) else F64.IsNaN(v.bits) ==> F64.IsNaN(f)
    {
      F64.TotalOrderIsRank(f, v.bits);
      F64.TotalOrderIsRank(v.bits, f);
    }
  }

  /** The first part's NaNs are NaNs of the whole: nothing later makes a minimum, or unmakes a maximum, of them. */
  lemma {:induction false} FirstIsPart(func: AggFunc, parts: seq<seq<Cell>>)
    requires func.Min? || func.Max?
    requires NonNull(Whole(parts)) > 0
    ensures func.Min? && !FirstNaN(func, parts) ==> !ExtremeNaN(func, Whole(parts))
    ensures func.Max? && FirstNaN(func, parts) ==> ExtremeNaN(func, Whole(parts))
  {
    hide CellNaN;
    var n := |parts| - 1;
    NonNullConcat(Whole(parts[..n]), parts[n]);
    if NonNull(Whole(parts[..n])) > 0 {
      FirstIsPart(func, parts[..n]);
      assert forall v | v in Whole(parts[..n]) :: v in Whole(parts);
    } else {
      AllNullIffNone(Whole(parts[..n]));
      assert forall v | v in parts[n] :: v in Whole(parts);
    }
  }

  /** What a merged extremum of doubles is: a NaN as the first part decides, the true one if that is safe. */
  ghost predicate RawIs(func: AggFunc, f: u64, parts: seq<seq<Cell>>) {
    && (F64.IsNaN(f) <==> FirstNaN(func, parts))
    && (MergeSafe(func, parts) ==> Extreme(func, Flt(f), Whole(parts)))
  }

  /** An accumulator merged from the accumulators of `parts`. */
  ghost predicate MergedIs(ops: FloatOps, func: AggFunc, t: Type, acc: Acc, parts: seq<seq<Cell>>) {
    if FloatExtreme(func, t) then
      (acc.seen <==> NonNull(Whole(parts)) > 0) && (acc.seen ==> RawIs(func, acc.f, parts))
    else AccIs(ops, func, t, acc, Whole(parts))
  }

  /** The merged extremum is the true one exactly when the merge was safe. */
  lemma RawIffSafe(func: AggFunc, f: u64, parts: seq<seq<Cell>>)
    requires (func.Min? || func.Max?) && RawIs(func, f, parts) && NonNull(Whole(parts)) > 0 && AllFloat(Whole(parts))
    ensures Extreme(func, Flt(f), Whole(parts)) <==> MergeSafe(func, parts)
  {
    hide Extreme, FirstNaN, ExtremeNaN;
    if Extreme(func, Flt(f), Whole(parts)) { ExtremeIsNaN(func, f, Whole(parts)); }
  }

  /** A part without the group changes nothing. */
  lemma MergeNothing(ops: FloatOps, func: AggFunc, t: Type, acc: Acc, parts: seq<seq<Cell>>)
    ensures MergedIs(ops, func, t, acc, parts) <==> MergedIs(ops, func, t, acc, parts + [[]])
  {
    WholeNext(parts, []);
    assert Whole(parts) + [] == Whole(parts);
    assert (parts + [[]])[..|parts|] == parts;
  }

  /** The first part with the group is taken over as it is. */
  lemma MergeFirst(ops: FloatOps, func: AggFunc, t: Type, acc: Acc, parts: seq<seq<Cell>>, b: seq<Cell>)
    requires Whole(parts) == [] && AccIs(ops, func, t, acc, b) && (t.F64? ==> func.CountStar? || AllFloat(b))
    ensures MergedIs(ops, func, t, acc, parts + [b])
  {
    hide Extreme, ExtremeNaN, AllFloat;
    WholeNext(parts, b);
    assert [] + b == b;
    assert (parts + [b])[..|parts|] == parts;
    if FloatExtreme(func, t) && acc.seen { ExtremeIsNaN(func, acc.f, b); }
  }

  /** Merging the accumulator of one more part. */
  lemma MergeKeeps(ops: FloatOps, func: AggFunc, t: Type, acc: Acc, parts: seq<seq<Cell>>, other: Acc, b: seq<Cell>)
    requires !func.Avg? && MergedIs(ops, func, t, acc, parts) && AccIs(ops, func, t, other, b)
    requires t.F64? ==> func.CountStar? || (AllFloat(Whole(parts)) && AllFloat(b))
    ensures MergedIs(ops, func, t, MergeAcc(ops, acc, other, KindOf(func, t)), parts + [b])
  {
    hide RawIs, AccIs, NonNull, AllFloat, Whole, MergeAcc;
    WholeNext(parts, b);
    var a := Whole(parts);
    match func {
      case CountStar | Count => MergeCounts(ops, func, t, acc, a, other, b);
      case Sum => MergeSum(ops, t, acc, a, other, b);
      case _ =>
        if t.F64? {
          MergeFloats(ops, func, acc, parts, other, b);
        } else {
          MergeInts(ops, func, t, acc, a, other, b);
        }
    }
  }

  lemma MergeCounts(ops: FloatOps, func: AggFunc, t: Type, acc: Acc, a: seq<Cell>, other: Acc, b: seq<Cell>)
    requires (func.CountStar? || func.Count?) && AccIs(ops, func, t, acc, a) && AccIs(ops, func, t, other, b)
    ensures AccIs(ops, func, t, MergeAcc(ops, acc, other, KindOf(func, t)), a + b)
  {
    hide NonNull;
    NonNullConcat(a, b);
  }

  lemma MergeSum(ops: FloatOps, t: Type, acc: Acc, a: seq<Cell>, other: Acc, b: seq<Cell>)
    requires AccIs(ops, Sum, t, acc, a) && AccIs(ops, Sum, t, other, b)
    ensures AccIs(ops, Sum, t, MergeAcc(ops, acc, other, KindOf(Sum, t)), a + b)
  {
    hide Wrap, NonNull, SumInts, SumFloats, Exact, Doubles;
    NonNullConcat(a, b);
    SumIntsConcat(a, b);
    if !acc.seen { NothingToSum(ops, a); }
    if !other.seen { NothingToSum(ops, b); }
    if t.F64? {
      if Exact(ops, Doubles(a + b)) { SumFloatsConcat(ops, a, b); }
    } else {
      SumsWrap(SumInts(a), SumInts(b));
    }
  }

  lemma MergeInts(ops: FloatOps, func: AggFunc, t: Type, acc: Acc, a: seq<Cell>, other: Acc, b: seq<Cell>)
    requires (func.Min? || func.Max?) && !t.F64? && AccIs(ops, func, t, acc, a) && AccIs(ops, func, t, other, b)
    ensures AccIs(ops, func, t, MergeAcc(ops, acc, other, KindOf(func, t)), a + b)
  {
    hide NonNull, Extreme;
    NonNullConcat(a, b);
    if acc.seen || other.seen {
      var acc' := MergeAcc(ops, acc, other, KindOf(func, t));
      MergedExtreme(func, Num(acc.i), a, Num(other.i), b, Num(acc'.i));
    }
  }

  lemma MergeFloats(ops: FloatOps, func: AggFunc, acc: Acc, parts: seq<seq<Cell>>, other: Acc, b: seq<Cell>)
    requires (func.Min? || func.Max?) && MergedIs(ops, func, Type.F64, acc, parts) && AccIs(ops, func, Type.F64, other, b)
    requires AllFloat(Whole(parts)) && AllFloat(b)
    ensures MergedIs(ops, func, Type.F64, MergeAcc(ops, acc, other, KindOf(func, Type.F64)), parts + [b])
  {
    hide MergeSafe, NonNull, Extreme, ValueCmp, FirstNaN, ExtremeNaN, F64.RawMin, F64.RawMax, F64.IsNaN, AllFloat;
    var a, next := Whole(parts), parts + [b];
    WholeNext(parts, b);
    NonNullConcat(a, b);
    FirstStays(func, parts, b);
    var acc' := MergeAcc(ops, acc, other, KindOf(func, Type.F64));
    if acc.seen && other.seen {
      RawStays(func, acc.f, other.f);
      if MergeSafe(func, next) {
        SafeBefore(func, parts, b);
        ExtremeIsNaN(func, other.f, b);
        RawWins(func, acc.f, other.f);
        MergedExtreme(func, Flt(acc.f), a, Flt(other.f), b, Flt(acc'.f));
      }
    } else if acc.seen {
      if MergeSafe(func, next) {
        SafeBefore(func, parts, b);
        ExtremeWithNulls(func, Flt(acc.f), a, b);
      }
    } else if other.seen {
      ExtremeIsNaN(func, other.f, b);
      ExtremeWithNulls(func, Flt(other.f), b, a);
    }
  }

  lemma FirstStays(func: AggFunc, parts: seq<seq<Cell>>, b: seq<Cell>)
    ensures NonNull(Whole(parts)) > 0 ==> (FirstNaN(func, parts + [b]) <==> FirstNaN(func, parts))
    ensures NonNull(Whole(parts)) == 0 ==> (FirstNaN(func, parts + [b]) <==> NonNull(b) > 0 && ExtremeNaN(func, b))
  {
    hide ExtremeNaN;
    assert (parts + [b])[..|parts|] == parts;
  }

  lemma RawStays(func: AggFunc, a: u64, b: u64)
    requires func.Min? || func.Max?
    ensures F64.IsNaN(if func.Min? then F64.RawMin(a, b) else F64.RawMax(a, b)) <==> F64.IsNaN(a)
  {
  }

  /** A safe merge was safe before its last part, whose extremum is a NaN only as it may be. */
  lemma SafeBefore(func: AggFunc, parts: seq<seq<Cell>>, b: seq<Cell>)
    requires (func.Min? || func.Max?) && NonNull(Whole(parts)) > 0 && MergeSafe(func, parts + [b])
    ensures MergeSafe(func, parts)
    ensures func.Min? && FirstNaN(func, parts) ==> ExtremeNaN(func, b)
    ensures func.Max? && ExtremeNaN(func, b) ==> FirstNaN(func, parts)
  {
    hide CellNaN, FirstNaN;
    FirstIsPart(func, parts);
    FirstStays(func, parts, b);
    WholeNext(parts, b);
    NonNullConcat(Whole(parts), b);
    assert forall v | v in Whole(parts) || v in b :: v in Whole(parts) + b;
  }

  /** Where it is safe, the raw comparison keeps the better of the two. */
  lemma RawWins(func: AggFunc, a: u64, m: u64)
    requires (func.Min? && (F64.IsNaN(a) ==> F64.IsNaN(m))) || (func.Max? && (F64.IsNaN(m) ==> F64.IsNaN(a)))
    ensures var x := if func.Min? then F64.RawMin(a, m) else F64.RawMax(a, m);
      if (if func.Min? then ValueCmp(Flt(m), Flt(a)) < 0 else ValueCmp(Flt(m), Flt(a)) > 0)
      then ValueCmp(Flt(x), Flt(m)) == 0 else ValueCmp(Flt(x), Flt(a)) == 0
  {
    var x := if func.Min? then F64.RawMin(a, m) else F64.RawMax(a, m);
    F64.RawMinExact(a, m);
    F64.RawMaxExact(a, m);
    F64.TotalOrderIsRank(a, m);
    F64.TotalOrderIsRank(m, a);
    F64.TotalOrderIsRank(x, a);
    F64.TotalOrderIsRank(x, m);
    hide F64.Rank, F64.CmpTotal, F64.LessTotal;
  }

  // ----- reading the result off -----

  /** One aggregate of a merged group. */
  function ReadOff(ops: FloatOps, om: OrigMap, accs: seq<Acc>, kinds: seq<PartialKind>): Cell
    requires om.val < |accs| == |kinds| && (om.func.Avg? ==> om.count.Some? && om.count.value < |accs|)
  {
    var a := accs[om.val];
    match om.func
    case CountStar | Count => Num(a.i)
    case Sum | Min | Max => if !a.seen then Null else if om.resultType.F64? then Flt(a.f) else Num(a.i)
    case Avg =>
      var n := accs[om.count.value].i;
      if n > 0 then Flt(ops.div(if kinds[om.val].SumF? then a.f else ops.fromInt(a.i), ops.fromInt(n))) else Null
  }

  /** What is read off is the aggregate, for the extrema of doubles exactly when the merge was safe. */
  lemma ReadOffIs(ops: FloatOps, agg: AggSpec, t: Type, om: OrigMap, accs: seq<Acc>, kinds: seq<PartialKind>,
                  parts: seq<seq<Cell>>)
    requires om.func == agg.func && ResultType(agg.func, t) == Some(om.resultType) && !(t.STR? && (agg.func.Min? || agg.func.Max?))
    requires om.val < |accs| == |kinds| && kinds[om.val] == KindOf(agg.func, t)
    requires MergedIs(ops, ValuePart(agg).func, t, accs[om.val], parts)
    requires agg.func.Avg? ==>
      om.count.Some? && om.count.value < |accs| && MergedIs(ops, AggFunc.Count, t, accs[om.count.value], parts)
    requires t.F64? ==> agg.func.CountStar? || AllFloat(Whole(parts))
    ensures AggIs(false, ops, agg.func, t, ReadOff(ops, om, accs, kinds), Whole(parts))
      <==> (FloatExtreme(agg.func, t) ==> MergeSafe(agg.func, parts))
  {
    hide Wrap, SumInts, SumFloats, Extreme, Exact, FirstNaN, ExtremeNaN, AllFloat, NonNull, Whole;
    if FloatExtreme(agg.func, t) {
      if accs[om.val].seen {
        RawIffSafe(agg.func, accs[om.val].f, parts);
      }
    }
  }

  /** What is read off is of the result type. */
  lemma ReadOffHolds(ops: FloatOps, agg: AggSpec, t: Type, om: OrigMap, accs: seq<Acc>, kinds: seq<PartialKind>,
                     parts: seq<seq<Cell>>)
    requires om.func == agg.func && ResultType(agg.func, t) == Some(om.resultType) && !(t.STR? && (agg.func.Min? || agg.func.Max?))
    requires om.val < |accs| == |kinds| && kinds[om.val] == KindOf(agg.func, t)
    requires MergedIs(ops, ValuePart(agg).func, t, accs[om.val], parts)
    requires agg.func.Avg? ==>
      om.count.Some? && om.count.value < |accs| && MergedIs(ops, AggFunc.Count, t, accs[om.count.value], parts)
    requires Typed(agg.func, t, Whole(parts)) && |Whole(parts)| < TWO_63
    ensures Holds(om.resultType, ReadOff(ops, om, accs, kinds))
  {
    hide SumInts, SumFloats, Exact, FirstNaN, ExtremeNaN, NonNull, Whole, RawIs, F64.CmpTotal;
    var a := accs[om.val];
    if (agg.func.Min? || agg.func.Max?) && !t.F64? && a.seen {
      var v :| v in Whole(parts) && !v.Null? && ValueCmp(Num(a.i), v) == 0;
    }
  }
}
