/**
 The column-at-a-time evaluator: kernels compute a value in every lane, NULL lanes
 included, and the packed validity words are combined separately.

 It refines the row-wise meaning of `Exprs`: the same values, the same NULLs, and an
 `allValid` flag that is true exactly when no row is NULL.
 */
module Eval {
  import opened Words
  import opened Columns
  import opened KeyCodes
  import opened AggMeaning
  import opened Exprs
  import SortOrders
  import F64

  /** The SIMD path with its lane count, or the scalar twin. */
  datatype Backend = Vector(lanes: nat) | Scalar(lanes: nat)
  {
    predicate Valid() { lanes >= 1 }
  }

  /** The 64 bits in a lane, whatever they are. */
  function Bits(x: int): u64 { U64(x) }

  /** A non-null stored value as a cell. */
  function Value(t: Type, x: int): Cell
    requires !t.STR? && InRange(t, x)
  {
    if t.F64? then Flt(x) else Num(x)
  }

  // ----- NULL propagation -----

  predicate Readable(c: Column) { |c.data| == c.len && (!c.allValid ==> |c.validity| >= WordsFor(c.len)) }

  /** `out` starts without NULLs; it gets those of `c`. */
  method CopyValidity(out: OwnedColumn, c: Column, lanes: nat)
    requires out.Valid() && out.Exact() && out.validity == [] && lanes >= 1
    requires Readable(c) && c.len == out.len
    modifies out`validity, out`allValid
    ensures out.Valid() && out.Exact()
    ensures forall i: nat | i < out.len :: BitmapValid(out.validity, i) == c.IsValid(i)
  {
    if c.allValid { return; }
    out.EnsureValidity();
    out.validity := c.validity[..WordsFor(out.len)];
    out.RefreshAllValid(lanes);
  }

  /** The null-if-any rule: a whole-word AND of the operands' bitmaps. */
  method PropagateNullsAnd(out: OwnedColumn, a: Column, b: Column, lanes: nat)
    requires out.Valid() && out.Exact() && out.validity == [] && lanes >= 1
    requires Readable(a) && Readable(b) && a.len == b.len == out.len
    modifies out`validity, out`allValid
    ensures out.Valid() && out.Exact()
    ensures forall i: nat | i < out.len :: BitmapValid(out.validity, i) == (a.IsValid(i) && b.IsValid(i))
  {
    var n := out.len;
    if a.allValid && b.allValid { return; }
    out.EnsureValidity();
    if a.allValid {
      out.validity := b.validity[..WordsFor(n)];
    } else if b.allValid {
      out.validity := a.validity[..WordsFor(n)];
    } else {
      out.validity := BitAnd(a.validity, b.validity, n, lanes);
    }
    out.RefreshAllValid(lanes);
  }

  /** Clear the bit of every lane that `bad` marks. */
  method NullWhere(out: OwnedColumn, bad: seq<bool>, lanes: nat)
    requires out.Valid() && |bad| == out.len && lanes >= 1
    modifies out`validity, out`allValid
    ensures out.Valid() && out.Exact()
    ensures forall i: nat | i < out.len :: BitmapValid(out.validity, i) == (BitmapValid(old(out.validity), i) && !bad[i])
  {
    out.EnsureValidity();
    ghost var before := out.validity;
    var w := out.validity;
    for i := 0 to out.len
      invariant |w| == |before| == WordsFor(out.len)
      invariant forall j: nat | j < out.len :: GetBit(w, j) == (GetBit(before, j) && !(j < i && bad[j]))
    {
      if bad[i] { w := SetBit(w, i, false); }
    }
    out.validity := w;
    out.RefreshAllValid(lanes);
  }

  // ----- value kernels: one defined value per lane -----

  function ArithLane(fl: Floats, op: ArithOp, t: Type, a: int, b: int): int {
    if t.F64? then fl.arith(op, Bits(a), Bits(b))
    else match op
      case Add => WrapTo(t, a + b)
      case Sub => WrapTo(t, a - b)
      case Mul => WrapTo(t, a * b)
      case Div => if b == 0 then 0 else if b == -1 then WrapTo(t, -a) else TruncDiv(a, b)
      case Mod => if b == 0 || b == -1 then 0 else a - b * TruncDiv(a, b)
  }

  method ArithKernel(fl: Floats, op: ArithOp, t: Type, a: seq<int>, b: seq<int>, be: Backend) returns (out: seq<int>)
    requires |a| == |b| && be.Valid()
    ensures |out| == |a| && forall i | 0 <= i < |a| :: out[i] == ArithLane(fl, op, t, a[i], b[i])
  {
    hide ArithLane;
    out := [];
    var k := 0;
    if be.Vector? && (t.F64? || !(op.Div? || op.Mod?)) {
      while k + be.lanes <= |a|
        invariant 0 <= k <= |a| && |out| == k
        invariant forall i | 0 <= i < k :: out[i] == ArithLane(fl, op, t, a[i], b[i])
      {
        out := out + seq<int>(be.lanes, l requires 0 <= l < be.lanes => ArithLane(fl, op, t, a[k + l], b[k + l]));
        k := k + be.lanes;
      }
    }
    while k < |a|
      invariant 0 <= k <= |a| && |out| == k
      invariant forall i | 0 <= i < k :: out[i] == ArithLane(fl, op, t, a[i], b[i])
    {
      out := out + [ArithLane(fl, op, t, a[k], b[k])];
      k := k + 1;
    }
  }

  predicate DivisorIsZero(t: Type, b: int) { if t.F64? then F64.Equal(Bits(b), 0) else b == 0 }

  /** On operands in range the kernel's value is the meaning's, unless the divisor is zero. */
  lemma ArithLaneIs(fl: Floats, op: ArithOp, t: Type, a: int, b: int)
    requires Numeric(t) && InRange(t, a) && InRange(t, b)
    ensures var z := ArithLane(fl, op, t, a, b);
      if (op.Div? || op.Mod?) && DivisorIsZero(t, b) then ArithCell(fl, op, t, Value(t, a), Value(t, b)).Null?
      else InRange(t, z) && ArithCell(fl, op, t, Value(t, a), Value(t, b)) == Value(t, z)
  {
    if !t.F64? {
      match op {
        case Div => DivLaneIs(fl, t, a, b);
        case Mod => ModLaneIs(fl, t, a, b);
        case _ => hide TruncDiv;
      }
    }
  }

  lemma DivLaneIs(fl: Floats, t: Type, a: int, b: int)
    requires (t.I32? || t.I64?) && InRange(t, a) && InRange(t, b)
    ensures var z := ArithLane(fl, Div, t, a, b);
      if b == 0 then ArithCell(fl, Div, t, Num(a), Num(b)).Null?
      else InRange(t, z) && ArithCell(fl, Div, t, Num(a), Num(b)) == Num(z)
  {
    if b != 0 {
      QuotientFits(t, a, b);
      MinusOne(a);
      hide TruncDiv;
    }
  }

  lemma ModLaneIs(fl: Floats, t: Type, a: int, b: int)
    requires (t.I32? || t.I64?) && InRange(t, a) && InRange(t, b)
    ensures var z := ArithLane(fl, Mod, t, a, b);
      if b == 0 then ArithCell(fl, Mod, t, Num(a), Num(b)).Null?
      else InRange(t, z) && ArithCell(fl, Mod, t, Num(a), Num(b)) == Num(z)
  {
    if b != 0 {
      RemainderFits(t, a, b);
      MinusOne(a);
      hide TruncDiv;
    }
  }

  lemma MinusOne(a: int)
    ensures TruncDiv(a, -1) == -a
  {
  }

  /** A quotient by anything but -1 needs no wrapping. */
  lemma QuotientFits(t: Type, a: int, b: int)
    requires b != 0 && InRange(t, a) && (t.I32? || t.I64?)
    ensures b != -1 ==> WrapTo(t, TruncDiv(a, b)) == TruncDiv(a, b)
  {
    QuotientBound(a, b);
    hide TruncDiv, WrapTo;
    if b != -1 { WrapSmall(t, TruncDiv(a, b)); }
  }

  lemma WrapSmall(t: Type, z: int)
    requires InRange(t, z) && (t.I32? || t.I64?)
    ensures WrapTo(t, z) == z
  {
  }

  lemma QuotientBound(a: int, b: int)
    requires b != 0
    ensures var z := TruncDiv(a, b);
      && (b == 1 ==> z == a) && (a == 0 ==> z == 0)
      && (b != 1 && b != -1 && a > 0 ==> -a < z < a)
      && (b != 1 && b != -1 && a < 0 ==> a < z < -a)
  {
    var x, y := if a < 0 then -a else a, if b < 0 then -b else b;
    var q := x / y;
    Shrinks(x, y, q);
    if b == 1 { assert q == x; }
  }

  lemma {:induction false} AtLeast(y: nat, q: nat)
    requires y >= 1
    ensures y * q >= q && (y >= 2 ==> y * q >= 2 * q)
  {
    if q > 0 {
      AtLeast(y, q - 1);
      assert y * q == y * (q - 1) + y;
    }
  }

  lemma Shrinks(x: nat, y: nat, q: int)
    requires y > 0 && q == x / y
    ensures 0 <= q <= x && (y > 1 && x > 0 ==> q < x)
  {
    DivMod(x, y, q);
    AtLeast(y, q);
  }

  lemma DivMod(x: nat, y: nat, q: int)
    requires y > 0 && q == x / y
    ensures 0 <= q && y * q <= x
  {
  }

  function CmpLane(op: CmpOp, t: Type, a: int, b: int): int {
    if (if t.F64? then CmpFloat(op, Bits(a), Bits(b)) else CmpHolds(op, SortOrders.IntCmp(a, b))) then 1 else 0
  }

  method CmpKernel(op: CmpOp, t: Type, a: seq<int>, b: seq<int>, be: Backend) returns (out: seq<int>)
    requires |a| == |b| && be.Valid()
    ensures |out| == |a| && forall i | 0 <= i < |a| :: out[i] == CmpLane(op, t, a[i], b[i])
  {
    hide CmpLane;
    out := [];
    var k := 0;
    if be.Vector? {
      while k + be.lanes <= |a|
        invariant 0 <= k <= |a| && |out| == k
        invariant forall i | 0 <= i < k :: out[i] == CmpLane(op, t, a[i], b[i])
      {
        out := out + seq<int>(be.lanes, l requires 0 <= l < be.lanes => CmpLane(op, t, a[k + l], b[k + l]));
        k := k + be.lanes;
      }
    }
    while k < |a|
      invariant 0 <= k <= |a| && |out| == k
      invariant forall i | 0 <= i < k :: out[i] == CmpLane(op, t, a[i], b[i])
    {
      out := out + [CmpLane(op, t, a[k], b[k])];
      k := k + 1;
    }
  }

  /** Strings compare by their bytes; a NULL lane holds no code and is not looked up. */
  method CmpStr(op: CmpOp, a: Column, b: Column) returns (out: seq<int>)
    requires a.Valid() && b.Valid() && a.len == b.len && a.typ.STR? && b.typ.STR?
    ensures |out| == a.len
    ensures forall i: nat | i < a.len && a.IsValid(i) && b.IsValid(i) ::
      CmpCell(op, a.CellAt(i), b.CellAt(i)) == Num(out[i]) && 0 <= out[i] <= 1
  {
    out := [];
    for i := 0 to a.len
      invariant |out| == i
      invariant forall j: nat | j < i && a.IsValid(j) && b.IsValid(j) ::
        CmpCell(op, a.CellAt(j), b.CellAt(j)) == Num(out[j]) && 0 <= out[j] <= 1
    {
      if !a.IsValid(i) || !b.IsValid(i) {
        out := out + [0];
      } else {
        var c := SortOrders.LexCmp(SortOrders.Codes(a.dict[a.data[i]]), SortOrders.Codes(b.dict[b.data[i]]));
        out := out + [if CmpHolds(op, c) then 1 else 0];
      }
    }
  }

  // ----- three-valued logic over bytes: 0 false, 1 NULL, 2 true -----

  function Tri(c: Cell): int { if c.Null? then 1 else if c == Num(0) then 0 else 2 }

  function FromTri(x: int): Cell { if x == 1 then Null else Num(if x == 2 then 1 else 0) }

  predicate BoolCell(c: Cell) { c.Null? || c == Num(0) || c == Num(1) }

  /** The vector path's minimum and maximum. */
  function LogicMinMax(op: LogicOp, a: int, b: int): int {
    if op.AndOp? then (if a < b then a else b) else (if a > b then a else b)
  }

  /** The scalar twin's truth tables. */
  function LogicTable(op: LogicOp, a: int, b: int): int {
    if op.AndOp? then (if a == 0 || b == 0 then 0 else if a == 1 || b == 1 then 1 else 2)
    else (if a == 2 || b == 2 then 2 else if a == 1 || b == 1 then 1 else 0)
  }

  /** Both encodings are Kleene's connective. */
  lemma LogicIsKleene(op: LogicOp, a: Cell, b: Cell)
    requires BoolCell(a) && BoolCell(b)
    ensures FromTri(LogicMinMax(op, Tri(a), Tri(b))) == FromTri(LogicTable(op, Tri(a), Tri(b))) == LogicCell(op, a, b)
    ensures FromTri(2 - Tri(a)) == NotCell(a)
    ensures FromTri(Tri(a)) == a
  {
  }

  method LogicKernel(op: LogicOp, a: seq<int>, b: seq<int>, be: Backend) returns (out: seq<int>)
    requires |a| == |b| && be.Valid()
    requires forall i | 0 <= i < |a| :: 0 <= a[i] <= 2 && 0 <= b[i] <= 2
    ensures |out| == |a| && forall i | 0 <= i < |a| :: out[i] == LogicMinMax(op, a[i], b[i])
  {
    out := [];
    var k := 0;
    if be.Vector? {
      while k + be.lanes <= |a|
        invariant 0 <= k <= |a| && |out| == k && forall i | 0 <= i < k :: out[i] == LogicMinMax(op, a[i], b[i])
      {
        out := out + seq<int>(be.lanes, l requires 0 <= l < be.lanes => LogicMinMax(op, a[k + l], b[k + l]));
        k := k + be.lanes;
      }
    }
    while k < |a|
      invariant 0 <= k <= |a| && |out| == k && forall i | 0 <= i < k :: out[i] == LogicMinMax(op, a[i], b[i])
    {
      out := out + [if be.Vector? then LogicMinMax(op, a[k], b[k]) else LogicTable(op, a[k], b[k])];
      k := k + 1;
    }
  }

  method NotKernel(a: seq<int>, be: Backend) returns (out: seq<int>)
    requires be.Valid() && forall i | 0 <= i < |a| :: 0 <= a[i] <= 2
    ensures |out| == |a| && forall i | 0 <= i < |a| :: out[i] == 2 - a[i]
  {
    out := [];
    for k := 0 to |a|
      invariant |out| == k && forall i | 0 <= i < k :: out[i] == 2 - a[i]
    {
      out := out + [if be.Vector? then 2 - a[k] else if a[k] == 0 then 2 else if a[k] == 2 then 0 else 1];
    }
  }

  method ToTristate(c: Column) returns (ts: seq<int>)
    requires c.Valid() && c.typ.BOOL?
    ensures |ts| == c.len && forall i: nat | i < c.len :: ts[i] == Tri(c.CellAt(i)) && 0 <= ts[i] <= 2
  {
    ts := [];
    for i := 0 to c.len
      invariant |ts| == i && forall j: nat | j < i :: ts[j] == Tri(c.CellAt(j)) && 0 <= ts[j] <= 2
    {
      ts := ts + [if c.IsValid(i) then (if c.data[i] != 0 then 2 else 0) else 1];
    }
  }

  /** `c` holds exactly these cells, and its flag says exactly whether any is NULL. */
  ghost predicate Holding(c: Column, t: Type, cells: seq<Cell>) {
    && c.Valid() && c.typ == t && c.len == |cells|
    && (forall k: nat | k < c.len :: c.CellAt(k) == cells[k])
    && (c.allValid <==> Null !in cells)
  }

  method FromTristate(ts: seq<int>, lanes: nat, ghost cells: seq<Cell>) returns (c: Column)
    requires lanes >= 1 && |cells| == |ts| && forall i | 0 <= i < |ts| :: cells[i] == FromTri(ts[i])
    ensures Holding(c, BOOL, cells)
  {
    var n := |ts|;
    var out := new OwnedColumn.Make(BOOL, n);
    out.data := seq(n, i requires 0 <= i < n => if ts[i] == 2 then 1 else 0);
    if exists i :: 0 <= i < n && ts[i] == 1 {
      NullWhere(out, seq(n, i requires 0 <= i < n => ts[i] == 1), lanes);
    }
    c := out.View();
    HoldingByLane(c, BOOL, cells);
  }

  lemma HoldingByLane(c: Column, t: Type, cells: seq<Cell>)
    requires c.typ == t && c.len == |cells| && |c.data| == c.len && (!c.allValid ==> |c.validity| >= WordsFor(c.len))
    requires !t.STR? && (c.allValid <==> forall i: nat | i < c.len :: c.IsValid(i))
    requires forall k: nat | k < c.len ::
      if c.IsValid(k) then InRange(t, c.data[k]) && cells[k] == Value(t, c.data[k]) else cells[k].Null?
    ensures Holding(c, t, cells)
  {
    assert c.Valid();
    forall k: nat | k < c.len ensures c.CellAt(k) == cells[k] {}
    if Null in cells {
      var k :| 0 <= k < |cells| && cells[k] == Null;
      assert !c.IsValid(k);
    }
    if !c.allValid {
      var k: nat :| k < c.len && !c.IsValid(k);
      assert cells[k] == Null;
    }
  }

  // ----- casts -----

  function CastLane(fl: Floats, from: Type, to: Type, v: int): int {
    match to
    case F64 => if from.F64? then v else fl.fromInt(v)
    case BOOL => if (if from.F64? then F64.Equal(Bits(v), 0) else v == 0) then 0 else 1
    case _ =>
      if from.F64? then (match fl.toInt(Bits(v), to) case Some(x) => x case None => 0)
      else if to.I32? then AsInt32(v)
      else v
  }

  method CastKernel(fl: Floats, from: Type, to: Type, a: seq<int>) returns (out: seq<int>)
    ensures |out| == |a| && forall i | 0 <= i < |a| :: out[i] == CastLane(fl, from, to, a[i])
  {
    hide CastLane;
    out := [];
    for i := 0 to |a|
      invariant |out| == i && forall j | 0 <= j < i :: out[j] == CastLane(fl, from, to, a[j])
    {
      out := out + [CastLane(fl, from, to, a[i])];
    }
  }

  /** A value the target type cannot hold. */
  predicate CastLaneOor(fl: Floats, from: Type, to: Type, v: int) {
    if from.F64? && (to.I32? || to.I64? || to.TS?) then fl.toInt(Bits(v), to).None?
    else (from.I64? || from.TS?) && to.I32? && !InRange(I32, v)
  }

  /** The casts that can go out of range at all. */
  predicate CanBeOor(from: Type, to: Type) {
    (from.F64? && (to.I32? || to.I64? || to.TS?)) || ((from.I64? || from.TS?) && to.I32?)
  }

  lemma CastLaneIs(fl: Floats, from: Type, to: Type, v: int)
    requires from != to && !from.STR? && !to.STR? && InRange(from, v) && FloatsOk(fl)
    ensures CastLaneOor(fl, from, to, v) ==> CanBeOor(from, to)
    ensures var z := CastLane(fl, from, to, v);
      if CastLaneOor(fl, from, to, v) then CastCell(fl, from, to, Value(from, v)).Null?
      else InRange(to, z) && CastCell(fl, from, to, Value(from, v)) == Value(to, z)
  {
  }

  // ----- nodes -----

  /** The cells an expression denotes on a batch. */
  ghost function EvalCells(fl: Floats, e: Expr, schema: seq<Type>, b: Batch): (cells: seq<Cell>)
    requires WellTyped(e, schema) && BatchFits(b, schema)
    ensures |cells| == b.rowCount
  {
    seq(b.rowCount, k requires 0 <= k < b.rowCount => EvalRow(fl, e, schema, b.Rows()[k]))
  }

  /** Lanes of a column that holds cells. */
  lemma HeldLane(c: Column, t: Type, cells: seq<Cell>, k: nat)
    requires Holding(c, t, cells) && k < c.len && !t.STR?
    ensures if c.IsValid(k) then InRange(t, c.data[k]) && cells[k] == Value(t, c.data[k]) else cells[k].Null?
  {
    assert c.CellAt(k) == cells[k];
  }

  method EvalArith(fl: Floats, op: ArithOp, t: Type, a: Column, b: Column, be: Backend,
                   ghost x: seq<Cell>, ghost y: seq<Cell>, ghost cells: seq<Cell>)
    returns (c: Column)
    requires be.Valid() && Numeric(t) && Holding(a, t, x) && Holding(b, t, y) && |x| == |y| == |cells|
    requires forall k | 0 <= k < |cells| :: cells[k] == ArithCell(fl, op, t, x[k], y[k])
    ensures Holding(c, t, cells)
  {
    var out := new OwnedColumn.Make(t, a.len);
    out.data := ArithKernel(fl, op, t, a.data, b.data, be);
    PropagateNullsAnd(out, a, b, be.lanes);
    ghost var both := out.validity;
    if op.Div? || op.Mod? {
      NullWhere(out, seq(a.len, i requires 0 <= i < a.len => DivisorIsZero(t, b.data[i])), be.lanes);
    }
    c := out.View();
    forall k: nat | k < c.len
      ensures if c.IsValid(k) then InRange(t, c.data[k]) && cells[k] == Value(t, c.data[k]) else cells[k].Null?
    {
      hide ArithLane, ArithCell, Holding, Value;
      ArithRow(fl, op, t, a, b, x, y, k);
    }
    HoldingByLane(c, t, cells);
  }

  lemma ArithRow(fl: Floats, op: ArithOp, t: Type, a: Column, b: Column, x: seq<Cell>, y: seq<Cell>, k: nat)
    requires Numeric(t) && Holding(a, t, x) && Holding(b, t, y) && |x| == |y| && k < |x|
    ensures a.Valid() && b.Valid() && k < a.len == b.len
    ensures var z := ArithLane(fl, op, t, a.data[k], b.data[k]);
      if a.IsValid(k) && b.IsValid(k) && !((op.Div? || op.Mod?) && DivisorIsZero(t, b.data[k]))
      then InRange(t, z) && ArithCell(fl, op, t, x[k], y[k]) == Value(t, z)
      else ArithCell(fl, op, t, x[k], y[k]).Null?
  {
    HeldLane(a, t, x, k);
    HeldLane(b, t, y, k);
    hide ArithLane, DivisorIsZero;
    if a.IsValid(k) && b.IsValid(k) {
      hide ArithCell, Value;
      ArithLaneIs(fl, op, t, a.data[k], b.data[k]);
    }
  }

  method EvalCmp(op: CmpOp, t: Type, a: Column, b: Column, be: Backend,
                 ghost x: seq<Cell>, ghost y: seq<Cell>, ghost cells: seq<Cell>)
    returns (c: Column)
    requires be.Valid() && Holding(a, t, x) && Holding(b, t, y) && |x| == |y| == |cells|
    requires forall k | 0 <= k < |cells| :: cells[k] == CmpCell(op, x[k], y[k])
    ensures Holding(c, BOOL, cells)
  {
    var out := new OwnedColumn.Make(BOOL, a.len);
    var data;
    if t.STR? { data := CmpStr(op, a, b); } else { data := CmpKernel(op, t, a.data, b.data, be); }
    out.data := data;
    PropagateNullsAnd(out, a, b, be.lanes);
    c := out.View();
    forall k: nat | k < c.len
      ensures if c.IsValid(k) then InRange(BOOL, c.data[k]) && cells[k] == Value(BOOL, c.data[k]) else cells[k].Null?
    {
      hide CmpLane, CmpCell, Holding;
      CmpRow(op, t, a, b, x, y, k);
    }
    HoldingByLane(c, BOOL, cells);
  }

  lemma CmpRow(op: CmpOp, t: Type, a: Column, b: Column, x: seq<Cell>, y: seq<Cell>, k: nat)
    requires Holding(a, t, x) && Holding(b, t, y) && |x| == |y| && k < |x|
    ensures a.Valid() && b.Valid() && k < a.len == b.len && a.CellAt(k) == x[k] && b.CellAt(k) == y[k]
    ensures !a.IsValid(k) || !b.IsValid(k) ==> CmpCell(op, x[k], y[k]).Null?
    ensures a.IsValid(k) && b.IsValid(k) && !t.STR? ==>
      (CmpCell(op, x[k], y[k]) == Num(CmpLane(op, t, a.data[k], b.data[k])) && 0 <= CmpLane(op, t, a.data[k], b.data[k]) <= 1)
  {
    hide CmpLane, CmpHolds, CmpFloat, SortOrders.LexCmp, SortOrders.IntCmp;
    if !t.STR? {
      HeldLane(a, t, x, k);
      HeldLane(b, t, y, k);
      if a.IsValid(k) && b.IsValid(k) { CmpLaneIs(op, t, a.data[k], b.data[k]); }
    }
  }

  lemma CmpLaneIs(op: CmpOp, t: Type, u: int, v: int)
    requires !t.STR? && InRange(t, u) && InRange(t, v)
    ensures CmpCell(op, Value(t, u), Value(t, v)) == Num(CmpLane(op, t, u, v)) && 0 <= CmpLane(op, t, u, v) <= 1
  {
    hide CmpHolds, CmpFloat;
  }

  method EvalLogic(op: LogicOp, a: Column, b: Column, be: Backend,
                   ghost x: seq<Cell>, ghost y: seq<Cell>, ghost cells: seq<Cell>)
    returns (c: Column)
    requires be.Valid() && Holding(a, BOOL, x) && Holding(b, BOOL, y) && |x| == |y| == |cells|
    requires forall k | 0 <= k < |cells| :: cells[k] == LogicCell(op, x[k], y[k])
    ensures Holding(c, BOOL, cells)
  {
    var ta := ToTristate(a);
    var tb := ToTristate(b);
    var to := LogicKernel(op, ta, tb, be);
    forall k | 0 <= k < |cells| ensures cells[k] == FromTri(to[k]) {
      HeldLane(a, BOOL, x, k);
      HeldLane(b, BOOL, y, k);
      LogicIsKleene(op, x[k], y[k]);
      assert a.CellAt(k) == x[k] && b.CellAt(k) == y[k];
    }
    c := FromTristate(to, be.lanes, cells);
  }

  method EvalNot(a: Column, be: Backend, ghost x: seq<Cell>, ghost cells: seq<Cell>) returns (c: Column)
    requires be.Valid() && Holding(a, BOOL, x) && |x| == |cells|
    requires forall k | 0 <= k < |cells| :: cells[k] == NotCell(x[k])
    ensures Holding(c, BOOL, cells)
  {
    var ta := ToTristate(a);
    var to := NotKernel(ta, be);
    forall k | 0 <= k < |cells| ensures cells[k] == FromTri(to[k]) {
      HeldLane(a, BOOL, x, k);
      LogicIsKleene(AndOp, x[k], x[k]);
      assert a.CellAt(k) == x[k];
    }
    c := FromTristate(to, be.lanes, cells);
  }

  method EvalCast(fl: Floats, from: Type, to: Type, a: Column, be: Backend, ghost x: seq<Cell>, ghost cells: seq<Cell>)
    returns (c: Column)
    requires be.Valid() && FloatsOk(fl) && from != to && !from.STR? && !to.STR?
    requires Holding(a, from, x) && |x| == |cells|
    requires forall k | 0 <= k < |cells| :: cells[k] == CastCell(fl, from, to, x[k])
    ensures Holding(c, to, cells)
  {
    var out := new OwnedColumn.Make(to, a.len);
    out.data := CastKernel(fl, from, to, a.data);
    CopyValidity(out, a, be.lanes);
    if CanBeOor(from, to) {
      NullWhere(out, seq(a.len, i requires 0 <= i < a.len => CastLaneOor(fl, from, to, a.data[i])), be.lanes);
    }
    c := out.View();
    forall k: nat | k < c.len
      ensures if c.IsValid(k) then InRange(to, c.data[k]) && cells[k] == Value(to, c.data[k]) else cells[k].Null?
    {
      hide CastLane, CastCell, Holding, Value, CastLaneOor, CanBeOor;
      CastRow(fl, from, to, a, x, k);
    }
    HoldingByLane(c, to, cells);
  }

  lemma CastRow(fl: Floats, from: Type, to: Type, a: Column, x: seq<Cell>, k: nat)
    requires FloatsOk(fl) && from != to && !from.STR? && !to.STR? && Holding(a, from, x) && k < |x|
    ensures a.Valid() && k < a.len
    ensures a.IsValid(k) && CastLaneOor(fl, from, to, a.data[k]) ==> CanBeOor(from, to)
    ensures var z := CastLane(fl, from, to, a.data[k]);
      if a.IsValid(k) && !CastLaneOor(fl, from, to, a.data[k])
      then InRange(to, z) && CastCell(fl, from, to, x[k]) == Value(to, z)
      else CastCell(fl, from, to, x[k]).Null?
  {
    HeldLane(a, from, x, k);
    hide CastLane, CastLaneOor;
    if a.IsValid(k) {
      hide CastCell, Value;
      CastLaneIs(fl, from, to, a.data[k]);
    }
  }

  /** A constant in every row. */
  method MaterializeLiteral(t: Type, v: Option<int>, n: nat, lanes: nat, ghost cells: seq<Cell>) returns (c: Column)
    requires !t.STR? && (v.Some? ==> InRange(t, v.value)) && lanes >= 1
    requires |cells| == n && forall k | 0 <= k < n :: cells[k] == LitCell(t, v)
    ensures Holding(c, t, cells)
  {
    var out := new OwnedColumn.Make(t, n);
    if v.Some? {
      out.data := seq(n, _ => v.value);
    } else {
      NullWhere(out, seq(n, _ => true), lanes);
    }
    c := out.View();
    HoldingByLane(c, t, cells);
  }

  /** A leaf column, gathered under the batch's selection. */
  method MaterializeColumn(schema: seq<Type>, b: Batch, i: nat, lanes: nat, ghost cells: seq<Cell>) returns (c: Column)
    requires BatchFits(b, schema) && i < |schema| && lanes >= 1
    requires |cells| == b.rowCount && forall k | 0 <= k < b.rowCount :: cells[k] == b.Rows()[k][i]
    ensures Holding(c, schema[i], cells)
  {
    var out := CompactColumn(b.cols[i], b.sel, b.rowCount, lanes);
    c := out.View();
    assert forall k: nat | k < b.rowCount :: c.CellAt(k) == b.cols[i].CellAt(b.SelAt(k)) == cells[k];
    FlagIsExact(c, cells);
  }

  lemma FlagIsExact(c: Column, cells: seq<Cell>)
    requires c.Valid() && c.len == |cells| && forall k: nat | k < c.len :: c.CellAt(k) == cells[k]
    requires c.allValid <==> forall i: nat | i < c.len :: c.IsValid(i)
    ensures c.allValid <==> Null !in cells
  {
    if Null in cells {
      var k :| 0 <= k < |cells| && cells[k] == Null;
      assert c.CellAt(k) == Null;
      assert !c.IsValid(k);
    }
    if !c.allValid {
      var k: nat :| k < c.len && !c.IsValid(k);
      assert c.CellAt(k) == cells[k];
    }
  }

  /**
   Evaluate a tree over a batch: a dense column holding at each row exactly the row-wise
   value, on either backend and for any lane count.
   */
  method EvalNode(fl: Floats, e: Expr, schema: seq<Type>, b: Batch, be: Backend) returns (c: Column)
    requires WellTyped(e, schema) && BatchFits(b, schema) && be.Valid() && FloatsOk(fl)
    ensures Holding(c, TypeOf(e), EvalCells(fl, e, schema, b))
    decreases e
  {
    hide Holding, Batch.Valid, ArithCell, CmpCell, LogicCell, NotCell, CastCell, FloatsOk;
    ghost var cells := EvalCells(fl, e, schema, b);
    match e {
      case Col(_, i) => c := MaterializeColumn(schema, b, i, be.lanes, cells);
      case Lit(t, v) => c := MaterializeLiteral(t, v, b.rowCount, be.lanes, cells);
      case Arith(op, t, l, r) =>
        var x := EvalNode(fl, l, schema, b, be);
        var y := EvalNode(fl, r, schema, b, be);
        c := EvalArith(fl, op, t, x, y, be, EvalCells(fl, l, schema, b), EvalCells(fl, r, schema, b), cells);
      case Cmp(op, l, r) =>
        var x := EvalNode(fl, l, schema, b, be);
        var y := EvalNode(fl, r, schema, b, be);
        c := EvalCmp(op, TypeOf(l), x, y, be, EvalCells(fl, l, schema, b), EvalCells(fl, r, schema, b), cells);
      case Logic(op, l, r) =>
        var x := EvalNode(fl, l, schema, b, be);
        var y := EvalNode(fl, r, schema, b, be);
        c := EvalLogic(op, x, y, be, EvalCells(fl, l, schema, b), EvalCells(fl, r, schema, b), cells);
      case Not(x) =>
        var a := EvalNode(fl, x, schema, b, be);
        c := EvalNot(a, be, EvalCells(fl, x, schema, b), cells);
      case Cast(t, x) =>
        var a := EvalNode(fl, x, schema, b, be);
        c := EvalCast(fl, TypeOf(x), t, a, be, EvalCells(fl, x, schema, b), cells);
    }
  }
}
