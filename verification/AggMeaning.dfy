/**
 What an aggregate of a group is, and the accumulator cells that compute it.

 `AggIs` says it of the group's values, independently of any order of folding: counts,
 the sum modulo 2^64, an extremum under the NaN-greatest and the string order, NULL when
 there is no non-null input. Floating-point addition, division and conversion are
 parameters; a sum of doubles is pinned to the left-to-right fold when `strict`, and
 otherwise where none of the group's partial sums rounds, since then no order of folding
 matters.
 */
module AggMeaning {
  import opened Words
  import opened Columns
  import opened KeyCodes
  import opened SortOrders
  import D = StringDicts
  import F64

  datatype AggFunc = CountStar | Count | Sum | Min | Max | Avg

  datatype AggSpec = AggSpec(func: AggFunc, col: nat)

  datatype FloatOps = FloatOps(add: (u64, u64) -> u64, div: (u64, u64) -> u64, fromInt: int -> u64)

  /** The doubles added left to right, from zero. */
  function FloatTotal(ops: FloatOps, v: seq<u64>): u64 {
    if v == [] then 0 else ops.add(FloatTotal(ops, v[..|v| - 1]), v[|v| - 1])
  }

  // ----- sums without rounding -----

  /** The number some of the doubles stand for, in a unit of one's choice. */
  type Grid = u64 -> Option<int>

  function Abs(x: int): nat { if x < 0 then -x else x }

  /**
   Different patterns on the grid stand for different numbers, and adding two of them adds
   the numbers, as long as the sum stays within the bound. Integer-valued doubles below 2^53,
   without the negative zero, are such a grid for IEEE 754 addition.
   */
  ghost predicate Adds(ops: FloatOps, grid: Grid, bound: nat) {
    && grid(0) == Some(0)
    && (forall a: u64, b: u64 :: grid(a).Some? && grid(a) == grid(b) ==> a == b)
    && (forall a: u64, b: u64 :: grid(a).Some? && grid(b).Some? && Abs(grid(a).value + grid(b).value) <= bound ==>
          grid(ops.add(a, b)) == Some(grid(a).value + grid(b).value))
  }

  ghost predicate OnGrid(grid: Grid, v: seq<u64>) { forall k | 0 <= k < |v| :: grid(v[k]).Some? }

  function Part(grid: Grid, b: u64): int { if grid(b).Some? then grid(b).value else 0 }

  function GridSum(grid: Grid, v: seq<u64>): int {
    if v == [] then 0 else GridSum(grid, v[..|v| - 1]) + Part(grid, v[|v| - 1])
  }

  /** The sum of the magnitudes bounds every partial sum, in any order and grouping. */
  function Magnitude(grid: Grid, v: seq<u64>): nat {
    if v == [] then 0 else Magnitude(grid, v[..|v| - 1]) + Abs(Part(grid, v[|v| - 1]))
  }

  ghost predicate FitsGrid(ops: FloatOps, grid: Grid, bound: nat, v: seq<u64>) {
    Adds(ops, grid, bound) && OnGrid(grid, v) && Magnitude(grid, v) <= bound
  }

  /** No partial sum of these doubles rounds. */
  ghost predicate Exact(ops: FloatOps, v: seq<u64>) {
    exists grid: Grid, bound: nat :: FitsGrid(ops, grid, bound, v)
  }

  /** The result type; SUM and AVG of strings are refused. */
  function ResultType(func: AggFunc, input: Type): Option<Type> {
    match func
    case CountStar | Count => Some(I64)
    case Sum => if input.STR? then None else if input.F64? then Some(Type.F64) else Some(I64)
    case Avg => if input.STR? then None else Some(Type.F64)
    case Min | Max => Some(input)
  }

  // ----- the values of a group -----

  function NonNull(vals: seq<Cell>): (n: nat)
    ensures n <= |vals|
  {
    if vals == [] then 0
    else NonNull(vals[..|vals| - 1]) + (if vals[|vals| - 1].Null? then 0 else 1)
  }

  /** The sum of the integers, unbounded. */
  function SumInts(vals: seq<Cell>): int {
    if vals == [] then 0
    else SumInts(vals[..|vals| - 1]) + (match vals[|vals| - 1] case Num(i) => i case _ => 0)
  }

  /** The doubles among the values. */
  function Doubles(vals: seq<Cell>): seq<u64> {
    if vals == [] then []
    else Doubles(vals[..|vals| - 1]) + (match vals[|vals| - 1] case Flt(b) => [b] case _ => [])
  }

  function SumFloats(ops: FloatOps, vals: seq<Cell>): u64 { FloatTotal(ops, Doubles(vals)) }

  function Wrap(x: int): i64 { AsSigned64(U64(x)) }

  lemma WrapReduces(i: int, v: int)
    ensures Reduced(I64, i, v) <==> i == Wrap(v)
  {
  }

  lemma Int32Reduces(i: int, v: int)
    ensures Reduced(I32, i, v) <==> i == AsInt32(v)
  {
  }

  /** `c` ties a value of the group and none is beyond it. */
  ghost predicate Extreme(func: AggFunc, c: Cell, vals: seq<Cell>) {
    && !c.Null?
    && (exists v | v in vals :: !v.Null? && ValueCmp(c, v) == 0)
    && forall v | v in vals && !v.Null? :: if func.Min? then ValueCmp(c, v) <= 0 else ValueCmp(c, v) >= 0
  }

  ghost predicate FloatSumIs(strict: bool, ops: FloatOps, s: u64, vals: seq<Cell>) {
    strict || Exact(ops, Doubles(vals)) ==> s == SumFloats(ops, vals)
  }

  /** `out` is the aggregate of a group whose input column, of type `t`, holds `vals`. */
  ghost predicate AggIs(strict: bool, ops: FloatOps, func: AggFunc, t: Type, out: Cell, vals: seq<Cell>) {
    match func
    case CountStar => out == Num(|vals|)
    case Count => out == Num(NonNull(vals))
    case Sum =>
      if NonNull(vals) == 0 then out.Null?
      else if t.F64? then out.Flt? && FloatSumIs(strict, ops, out.bits, vals)
      else out == Num(Wrap(SumInts(vals)))
    case Avg =>
      if NonNull(vals) == 0 then out.Null?
      else if t.F64? then
        exists s: u64 :: FloatSumIs(strict, ops, s, vals) && out == Flt(ops.div(s, ops.fromInt(NonNull(vals))))
      else out == Flt(ops.div(ops.fromInt(Wrap(SumInts(vals))), ops.fromInt(NonNull(vals))))
    case _ =>
      if NonNull(vals) == 0 then out.Null? else Extreme(func, out, vals)
  }

  /** An aggregate is determined by the values, up to the two zeros and the NaNs of an extremum. */
  lemma AggIsUnique(strict: bool, ops: FloatOps, func: AggFunc, t: Type, a: Cell, b: Cell, vals: seq<Cell>)
    requires AggIs(strict, ops, func, t, a, vals) && AggIs(strict, ops, func, t, b, vals)
    requires strict || Exact(ops, Doubles(vals)) || !(t.F64? && (func.Sum? || func.Avg?))
    ensures if func.Min? || func.Max? then ValueCmp(a, b) == 0 else a == b
  {
    if (func.Min? || func.Max?) && NonNull(vals) > 0 {
      hide ValueCmp;
      var v :| v in vals && !v.Null? && ValueCmp(a, v) == 0;
      var w :| w in vals && !w.Null? && ValueCmp(b, w) == 0;
      ValueCmpFlip(a, v); ValueCmpFlip(b, w); ValueCmpFlip(a, b);
      ValueCmpFlip(a, w); ValueCmpFlip(b, v);
      ExtremesTie(func, a, b, v, w);
    }
  }

  lemma ExtremesTie(func: AggFunc, a: Cell, b: Cell, v: Cell, w: Cell)
    requires ValueCmp(a, v) == 0 && ValueCmp(v, a) == 0 && ValueCmp(b, w) == 0 && ValueCmp(w, b) == 0
    requires if func.Min? then ValueCmp(a, w) <= 0 && ValueCmp(b, v) <= 0
             else ValueCmp(w, a) <= 0 && ValueCmp(v, b) <= 0
    requires ValueCmp(b, a) == -ValueCmp(a, b)
    ensures ValueCmp(a, b) == 0
  {
    hide ValueCmp;
    if func.Min? {
      ValueCmpTransitive(a, w, b);
      ValueCmpTransitive(b, v, a);
    } else {
      ValueCmpTransitive(b, w, a);
      ValueCmpTransitive(a, v, b);
    }
  }

  // ----- accumulator cells -----

  /** The accumulator: an integer (or a string's code), a double and a count. */
  datatype AggCell = AggCell(i: int, d: u64, cnt: nat)

  const INT64_MAX: int := TWO_63 - 1
  const INT64_MIN: int := -TWO_63

  function InitCell(func: AggFunc): AggCell {
    match func
    case Min => AggCell(INT64_MAX, F64.CANONICAL_NAN, 0)
    case Max => AggCell(INT64_MIN, F64.NEG_INF, 0)
    case _ => AggCell(0, 0, 0)
  }

  /** Fold one value into a cell. String extrema are folded separately. */
  function Scatter(ops: FloatOps, func: AggFunc, cell: AggCell, v: Cell): AggCell {
    match func
    case CountStar => cell.(cnt := cell.cnt + 1)
    case Count => if v.Null? then cell else cell.(cnt := cell.cnt + 1)
    case Sum | Avg =>
      (match v
       case Flt(b) => AggCell(cell.i, ops.add(cell.d, b), cell.cnt + 1)
       case Num(i) => AggCell(Wrap(cell.i + i), cell.d, cell.cnt + 1)
       case _ => cell)
    case Min =>
      (match v
       case Flt(b) => AggCell(cell.i, F64.MinTotal(cell.d, b), cell.cnt + 1)
       case Num(i) => AggCell(if i < cell.i then i else cell.i, cell.d, cell.cnt + 1)
       case _ => cell)
    case Max =>
      (match v
       case Flt(b) => AggCell(cell.i, F64.MaxTotal(cell.d, b), cell.cnt + 1)
       case Num(i) => AggCell(if i > cell.i then i else cell.i, cell.d, cell.cnt + 1)
       case _ => cell)
  }

  /** Fold one string into a MIN or MAX cell, which holds a code of the owned dictionary. */
  function ScatterStr(func: AggFunc, cell: AggCell, s: string, d: D.Dict): (r: (AggCell, D.Dict))
    requires cell.cnt > 0 ==> 0 <= cell.i < |d|
  {
    var take := cell.cnt == 0
      || (if func.Min? then LexCmp(Codes(s), Codes(d[cell.i])) < 0 else LexCmp(Codes(s), Codes(d[cell.i])) > 0);
    if take then
      var (d', code) := D.InternIn(d, s);
      (AggCell(code, cell.d, cell.cnt + 1), d')
    else (cell.(cnt := cell.cnt + 1), d)
  }

  /** The extremum a cell holds. */
  function Held(t: Type, cell: AggCell, d: D.Dict): Cell {
    match t
    case F64 => Flt(cell.d)
    case STR => if 0 <= cell.i < |d| then Str(d[cell.i]) else Null
    case _ => Num(cell.i)
  }

  ghost predicate CellIs(strict: bool, ops: FloatOps, func: AggFunc, t: Type, cell: AggCell, d: D.Dict, vals: seq<Cell>) {
    && cell.cnt == (if func.CountStar? then |vals| else NonNull(vals))
    && match func
       case CountStar | Count => true
       case Sum | Avg => if t.F64? then FloatSumIs(strict, ops, cell.d, vals) else cell.i == Wrap(SumInts(vals))
       case _ => if cell.cnt == 0 then cell == InitCell(func) else Extreme(func, Held(t, cell, d), vals)
  }

  lemma FreshCell(strict: bool, ops: FloatOps, func: AggFunc, t: Type, d: D.Dict)
    ensures CellIs(strict, ops, func, t, InitCell(func), d, [])
  {
  }

  /** A value joins a group: the extremum moves exactly when the value is beyond it. */
  lemma ExtremeNext(func: AggFunc, c: Cell, v: Cell, vals: seq<Cell>, c': Cell)
    requires func.Min? || func.Max?
    requires !v.Null? && (NonNull(vals) > 0 ==> Extreme(func, c, vals)) && !c'.Null?
    requires NonNull(vals) == 0 ==> ValueCmp(c', v) == 0
    requires NonNull(vals) > 0 ==>
      if (if func.Min? then ValueCmp(v, c) < 0 else ValueCmp(v, c) > 0) then ValueCmp(c', v) == 0 else c' == c
    ensures Extreme(func, c', vals + [v])
  {
    hide ValueCmp;
    AllNullIffNone(vals);
    ValueCmpFlip(c', v);
    ValueCmpFlip(v, c);
    assert v in vals + [v];
    if NonNull(vals) > 0 {
      forall w | w in vals && !w.Null?
        ensures if func.Min? then ValueCmp(c', w) <= 0 else ValueCmp(c', w) >= 0
      {
        ValueCmpFlip(c, w); ValueCmpFlip(c', w);
        if c' != c { BeyondAll(func, c, v, c', w); }
      }
      var u :| u in vals && !u.Null? && ValueCmp(c, u) == 0;
      assert u in vals + [v];
    }
  }

  lemma BeyondAll(func: AggFunc, c: Cell, v: Cell, c': Cell, w: Cell)
    requires ValueCmp(c', v) == 0 && ValueCmp(v, c') == 0
    requires ValueCmp(c, v) == -ValueCmp(v, c) && ValueCmp(w, c) == -ValueCmp(c, w) && ValueCmp(w, c') == -ValueCmp(c', w)
    requires if func.Min? then ValueCmp(v, c) < 0 && ValueCmp(c, w) <= 0
             else ValueCmp(v, c) > 0 && ValueCmp(c, w) >= 0
    ensures if func.Min? then ValueCmp(c', w) <= 0 else ValueCmp(c', w) >= 0
  {
    hide ValueCmp;
    if func.Min? {
      ValueCmpTransitive(v, c, w);
      ValueCmpTransitive(c', v, w);
    } else {
      ValueCmpTransitive(w, c, v);
      ValueCmpTransitive(w, v, c');
    }
  }

  lemma {:induction false} AllNullIffNone(vals: seq<Cell>)
    ensures NonNull(vals) == 0 <==> forall v | v in vals :: v.Null?
  {
    if vals != [] {
      AllNullIffNone(vals[..|vals| - 1]);
      assert vals == vals[..|vals| - 1] + [vals[|vals| - 1]];
    }
  }

  lemma Snoc(vals: seq<Cell>, v: Cell)
    ensures (vals + [v])[..|vals + [v]| - 1] == vals
  {
  }

  lemma WrapAdd(x: int, y: int)
    ensures Wrap(Wrap(x) + y) == Wrap(x + y)
  {
  }

  /** What does not round does not round without its last addend. */
  lemma ExactInit(ops: FloatOps, v: seq<u64>, b: u64)
    requires Exact(ops, v + [b])
    ensures Exact(ops, v)
  {
    hide Adds;
    var grid: Grid, bound: nat :| FitsGrid(ops, grid, bound, v + [b]);
    assert (v + [b])[..|v|] == v;
    assert OnGrid(grid, v) by { assert forall k | 0 <= k < |v| :: (v + [b])[k] == v[k]; }
    assert FitsGrid(ops, grid, bound, v);
  }

  lemma FloatSumNext(strict: bool, ops: FloatOps, s: u64, vals: seq<Cell>, b: u64)
    requires FloatSumIs(strict, ops, s, vals)
    ensures FloatSumIs(strict, ops, ops.add(s, b), vals + [Flt(b)])
  {
    hide Exact;
    Snoc(vals, Flt(b));
    assert (Doubles(vals) + [b])[..|Doubles(vals)|] == Doubles(vals);
    if !strict && Exact(ops, Doubles(vals) + [b]) { ExactInit(ops, Doubles(vals), b); }
  }

  /** Folding a value keeps a cell true of the group. */
  lemma ScatterKeeps(strict: bool, ops: FloatOps, func: AggFunc, t: Type, cell: AggCell, d: D.Dict, vals: seq<Cell>, v: Cell)
    requires CellIs(strict, ops, func, t, cell, d, vals) && Holds(t, v)
    requires t.STR? ==> func.CountStar? || func.Count? || v.Null?
    ensures CellIs(strict, ops, func, t, Scatter(ops, func, cell, v), d, vals + [v])
  {
    hide CellIs;
    match func {
      case CountStar | Count => ScatterCounts(strict, ops, func, t, cell, d, vals, v);
      case Sum | Avg => ScatterSums(strict, ops, func, t, cell, d, vals, v);
      case _ => ScatterBest(strict, ops, func, t, cell, d, vals, v);
    }
  }

  lemma ScatterCounts(strict: bool, ops: FloatOps, func: AggFunc, t: Type, cell: AggCell, d: D.Dict, vals: seq<Cell>, v: Cell)
    requires (func.CountStar? || func.Count?) && CellIs(strict, ops, func, t, cell, d, vals)
    ensures CellIs(strict, ops, func, t, Scatter(ops, func, cell, v), d, vals + [v])
  {
    Snoc(vals, v);
  }

  lemma ScatterSums(strict: bool, ops: FloatOps, func: AggFunc, t: Type, cell: AggCell, d: D.Dict, vals: seq<Cell>, v: Cell)
    requires (func.Sum? || func.Avg?) && CellIs(strict, ops, func, t, cell, d, vals) && Holds(t, v) && (t.STR? ==> v.Null?)
    ensures CellIs(strict, ops, func, t, Scatter(ops, func, cell, v), d, vals + [v])
  {
    hide Wrap, Exact, FloatTotal;
    Snoc(vals, v);
    if v.Num? { WrapAdd(SumInts(vals), v.i); }
    if v.Flt? { FloatSumNext(strict, ops, cell.d, vals, v.bits); } else { assert Doubles(vals) + [] == Doubles(vals); }
  }

  lemma ScatterBest(strict: bool, ops: FloatOps, func: AggFunc, t: Type, cell: AggCell, d: D.Dict, vals: seq<Cell>, v: Cell)
    requires (func.Min? || func.Max?) && CellIs(strict, ops, func, t, cell, d, vals) && Holds(t, v) && (t.STR? ==> v.Null?)
    ensures CellIs(strict, ops, func, t, Scatter(ops, func, cell, v), d, vals + [v])
  {
    hide ValueCmp, Extreme;
    Snoc(vals, v);
    if v.Null? {
      if cell.cnt > 0 { ExtremeSkip(func, Held(t, cell, d), vals); }
    } else {
      ScatterExtreme(ops, func, t, cell, d, v);
      ExtremeNext(func, Held(t, cell, d), v, vals, Held(t, Scatter(ops, func, cell, v), d));
    }
  }

  lemma ExtremeSkip(func: AggFunc, c: Cell, vals: seq<Cell>)
    requires Extreme(func, c, vals)
    ensures Extreme(func, c, vals + [Null])
  {
    hide ValueCmp;
    var u :| u in vals && !u.Null? && ValueCmp(c, u) == 0;
    assert u in vals + [Null];
  }

  lemma ScatterExtreme(ops: FloatOps, func: AggFunc, t: Type, cell: AggCell, d: D.Dict, v: Cell)
    requires (func.Min? || func.Max?) && Holds(t, v) && !v.Null? && !t.STR?
    requires cell.cnt == 0 ==> cell == InitCell(func)
    ensures var c, c' := Held(t, cell, d), Held(t, Scatter(ops, func, cell, v), d);
      && (cell.cnt == 0 ==> ValueCmp(c', v) == 0)
      && (cell.cnt > 0 ==>
            if (if func.Min? then ValueCmp(v, c) < 0 else ValueCmp(v, c) > 0) then ValueCmp(c', v) == 0 else c' == c)
  {
  }

  /** Folding a string, by value whatever its code, keeps a cell true of the group. */
  lemma ScatterStrKeeps(strict: bool, ops: FloatOps, func: AggFunc, cell: AggCell, d: D.Dict, vals: seq<Cell>, s: string)
    requires (func.Min? || func.Max?) && CellIs(strict, ops, func, STR, cell, d, vals)
    ensures cell.cnt > 0 ==> 0 <= cell.i < |d|
    ensures var (cell', d') := ScatterStr(func, cell, s, d);
      d <= d' && |d'| <= |d| + 1 && CellIs(strict, ops, func, STR, cell', d', vals + [Str(s)])
  {
    Snoc(vals, Str(s));
    if cell.cnt > 0 { HeldString(func, cell, d, vals); }
    var (cell', d') := ScatterStr(func, cell, s, d);
    var c, c' := Held(STR, cell, d), Held(STR, cell', d');
    LexCmpFlip(Codes(s), Codes(s));
    assert cell'.cnt > 0 && c'.Str?;
    ExtremeNext(func, c, Str(s), vals, c');
  }

  lemma HeldString(func: AggFunc, cell: AggCell, d: D.Dict, vals: seq<Cell>)
    requires Extreme(func, Held(STR, cell, d), vals)
    ensures 0 <= cell.i < |d|
  {
  }

  /** Interning more strings changes no cell's meaning. */
  lemma CellStable(strict: bool, ops: FloatOps, func: AggFunc, t: Type, cell: AggCell, d: D.Dict, d': D.Dict, vals: seq<Cell>)
    requires CellIs(strict, ops, func, t, cell, d, vals) && d <= d'
    ensures CellIs(strict, ops, func, t, cell, d', vals)
  {
    hide Extreme, NonNull, SumInts, SumFloats;
    if (func.Min? || func.Max?) && cell.cnt > 0 && t.STR? {
      HeldString(func, cell, d, vals);
    }
  }

  // ----- finalization -----

  /** The low 32 bits as a signed integer. */
  function AsInt32(x: int): int {
    var w := x % TWO_32;
    if w < TWO_31 then w else w - TWO_32
  }

  /** The value written for a finished cell, at the width of the result type; `None` for NULL. */
  function Finalize(ops: FloatOps, func: AggFunc, t: Type, cell: AggCell): Option<int> {
    match func
    case CountStar | Count => Some(cell.cnt)
    case Sum => if cell.cnt == 0 then None else if t.F64? then Some(cell.d) else Some(cell.i)
    case Avg =>
      if cell.cnt == 0 then None
      else Some(ops.div(if t.F64? then cell.d else ops.fromInt(cell.i), ops.fromInt(cell.cnt)))
    case _ =>
      if cell.cnt == 0 then None
      else match t
        case I32 => Some(AsInt32(cell.i))
        case BOOL => Some(cell.i % 2)
        case F64 => Some(cell.d)
        case _ => Some(cell.i)
  }

  /** A value that may be stored in a column of type `t` over dictionary `d`. */
  predicate ValueFits(t: Type, v: Option<int>, d: seq<string>) {
    v.Some? ==> InRange(t, v.value) && (t.STR? ==> v.value < |d|)
  }

  /** A stored value of type `t` as a cell. */
  function CellOf(t: Type, v: Option<int>, d: seq<string>): Cell
    requires ValueFits(t, v, d)
  {
    match v
    case None => Null
    case Some(x) => (match t case F64 => Flt(x) case STR => Str(d[x]) case _ => Num(x))
  }

  /** What is written is the aggregate, and fits its column. */
  lemma FinalizeIs(strict: bool, ops: FloatOps, func: AggFunc, t: Type, cell: AggCell, d: D.Dict, vals: seq<Cell>)
    requires CellIs(strict, ops, func, t, cell, d, vals) && ResultType(func, t).Some?
    requires forall v | v in vals :: func.CountStar? || Holds(t, v)
    requires |vals| < TWO_63
    ensures var rt, v := ResultType(func, t).value, Finalize(ops, func, t, cell);
      && ValueFits(rt, v, d)
      && AggIs(strict, ops, func, t, CellOf(rt, v, d), vals)
  {
    hide ValueCmp, Extreme, SumInts, SumFloats, NonNull;
    if (func.Min? || func.Max?) && cell.cnt > 0 {
      HeldFits(func, t, cell, d, vals);
    }
  }

  /** An extremum is one of the values, so it fits their type. */
  lemma HeldFits(func: AggFunc, t: Type, cell: AggCell, d: D.Dict, vals: seq<Cell>)
    requires Extreme(func, Held(t, cell, d), vals) && forall v | v in vals :: Holds(t, v)
    ensures t.STR? ==> 0 <= cell.i < |d|
    ensures !t.STR? && !t.F64? ==> InRange(t, cell.i)
  {
    var v :| v in vals && !v.Null? && ValueCmp(Held(t, cell, d), v) == 0;
  }
}
