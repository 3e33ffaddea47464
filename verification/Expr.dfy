/**
 Typed expression trees: the builders, and what an expression means on one row.

 The builders check operand types and insert the numeric promotions, so the evaluator
 only ever sees operands of one type. On a row, arithmetic and comparison are NULL if an
 operand is; division by zero and out-of-range casts are NULL; AND, OR and NOT follow
 Kleene's tables. Floating-point arithmetic and conversion are parameters.
 */
module Exprs {
  import opened Words
  import opened Columns
  import opened KeyCodes
  import opened AggMeaning
  import SortOrders
  import F64

  datatype ArithOp = Add | Sub | Mul | Div | Mod
  datatype CmpOp = Lt | Le | Gt | Ge | Eq | Ne
  datatype LogicOp = AndOp | OrOp

  datatype Expr =
    | Col(typ: Type, index: nat)
    | Lit(typ: Type, value: Option<int>)
    | Arith(aop: ArithOp, typ: Type, l: Expr, r: Expr)
    | Cmp(cop: CmpOp, l: Expr, r: Expr)
    | Logic(lop: LogicOp, l: Expr, r: Expr)
    | Not(e: Expr)
    | Cast(typ: Type, e: Expr)

  function TypeOf(e: Expr): Type {
    match e
    case Col(t, _) => t
    case Lit(t, _) => t
    case Arith(_, t, _, _) => t
    case Cast(t, _) => t
    case _ => BOOL
  }

  predicate Numeric(t: Type) { t.I32? || t.I64? || t.F64? }

  /** What the evaluator relies on. */
  predicate WellTyped(e: Expr, schema: seq<Type>) {
    match e
    case Col(t, i) => i < |schema| && schema[i] == t
    case Lit(t, v) => !t.STR? && (v.Some? ==> InRange(t, v.value))
    case Arith(_, t, l, r) =>
      Numeric(t) && TypeOf(l) == TypeOf(r) == t && WellTyped(l, schema) && WellTyped(r, schema)
    case Cmp(_, l, r) => TypeOf(l) == TypeOf(r) && WellTyped(l, schema) && WellTyped(r, schema)
    case Logic(_, l, r) => TypeOf(l).BOOL? && TypeOf(r).BOOL? && WellTyped(l, schema) && WellTyped(r, schema)
    case Not(x) => TypeOf(x).BOOL? && WellTyped(x, schema)
    case Cast(t, x) => t != TypeOf(x) && !t.STR? && !TypeOf(x).STR? && WellTyped(x, schema)
  }

  // ----- the builders -----

  function NumericRank(t: Type): nat {
    match t case I32 => 1 case I64 => 2 case F64 => 3 case _ => 0
  }

  function Promote(a: Type, b: Type): Type { if NumericRank(a) >= NumericRank(b) then a else b }

  /** `None` where the builder refuses. */
  function MakeCast(e: Expr, to: Type): Option<Expr> {
    if TypeOf(e) == to then Some(e)
    else if to.STR? || TypeOf(e).STR? then None
    else Some(Cast(to, e))
  }

  function MakeArith(op: ArithOp, a: Expr, b: Expr): Option<Expr> {
    if !Numeric(TypeOf(a)) || !Numeric(TypeOf(b)) then None
    else
      var t := Promote(TypeOf(a), TypeOf(b));
      match (MakeCast(a, t), MakeCast(b, t))
      case (Some(x), Some(y)) => Some(Arith(op, t, x, y))
      case _ => None
  }

  function MakeCmp(op: CmpOp, a: Expr, b: Expr): Option<Expr> {
    var ta, tb := TypeOf(a), TypeOf(b);
    if !(Numeric(ta) && Numeric(tb)) && ta != tb then None
    else
      var t := if Numeric(ta) && Numeric(tb) then Promote(ta, tb) else ta;
      match (MakeCast(a, t), MakeCast(b, t))
      case (Some(x), Some(y)) => Some(Cmp(op, x, y))
      case _ => None
  }

  function MakeLogic(op: LogicOp, a: Expr, b: Expr): Option<Expr> {
    if TypeOf(a).BOOL? && TypeOf(b).BOOL? then Some(Logic(op, a, b)) else None
  }

  function MakeNot(a: Expr): Option<Expr> { if TypeOf(a).BOOL? then Some(Not(a)) else None }

  // What a builder accepts is well typed, and it refuses only ill-typed operands.

  lemma ArithWellTyped(schema: seq<Type>, op: ArithOp, a: Expr, b: Expr)
    requires WellTyped(a, schema) && WellTyped(b, schema)
    ensures var x := MakeArith(op, a, b);
      && (x.Some? ==> WellTyped(x.value, schema) && TypeOf(x.value) == Promote(TypeOf(a), TypeOf(b)))
      && (x.None? <==> !Numeric(TypeOf(a)) || !Numeric(TypeOf(b)))
  {
    hide MakeCast;
    var t := Promote(TypeOf(a), TypeOf(b));
    CastWellTyped(schema, a, t);
    CastWellTyped(schema, b, t);
  }

  lemma CmpWellTyped(schema: seq<Type>, op: CmpOp, a: Expr, b: Expr)
    requires WellTyped(a, schema) && WellTyped(b, schema)
    ensures var x := MakeCmp(op, a, b);
      && (x.Some? ==> WellTyped(x.value, schema) && TypeOf(x.value).BOOL?)
      && (x.None? <==> TypeOf(a) != TypeOf(b) && !(Numeric(TypeOf(a)) && Numeric(TypeOf(b))))
  {
    hide MakeCast;
    var ta, tb := TypeOf(a), TypeOf(b);
    var t := if Numeric(ta) && Numeric(tb) then Promote(ta, tb) else ta;
    CastWellTyped(schema, a, t);
    CastWellTyped(schema, b, t);
  }

  lemma LogicWellTyped(schema: seq<Type>, op: LogicOp, a: Expr, b: Expr)
    requires WellTyped(a, schema) && WellTyped(b, schema)
    ensures var x := MakeLogic(op, a, b);
      && (x.Some? ==> WellTyped(x.value, schema) && TypeOf(x.value).BOOL?)
      && (x.None? <==> !(TypeOf(a).BOOL? && TypeOf(b).BOOL?))
    ensures var x := MakeNot(a);
      && (x.Some? ==> WellTyped(x.value, schema) && TypeOf(x.value).BOOL?)
      && (x.None? <==> !TypeOf(a).BOOL?)
  {
  }

  lemma CastWellTyped(schema: seq<Type>, a: Expr, to: Type)
    requires WellTyped(a, schema)
    ensures var x := MakeCast(a, to);
      && (x.Some? ==> WellTyped(x.value, schema) && TypeOf(x.value) == to)
      && (x.None? <==> TypeOf(a) != to && (to.STR? || TypeOf(a).STR?))
  {
  }

  // ----- the meaning on one row -----

  /**
   The floating-point functions: the arithmetic operators, the conversion from an integer,
   and the rounding conversion to an integer type, absent when the result does not fit.
   */
  datatype Floats = Floats(arith: (ArithOp, u64, u64) -> u64, fromInt: int -> u64, toInt: (u64, Type) -> Option<int>)

  /** A conversion that succeeds lands in the target's range. */
  ghost predicate FloatsOk(fl: Floats) {
    forall b: u64, t: Type :: fl.toInt(b, t).Some? ==> InRange(t, fl.toInt(b, t).value)
  }

  /** Division toward zero, as the machine divides. */
  function TruncDiv(a: int, b: int): int
    requires b != 0
  {
    var q := (if a < 0 then -a else a) / (if b < 0 then -b else b);
    if (a < 0) == (b < 0) then q else -q
  }

  /** Reduced to the type's width, two's complement. */
  function WrapTo(t: Type, x: int): int { if t.I32? then AsInt32(x) else Wrap(x) }

  function ArithInt(op: ArithOp, t: Type, a: int, b: int): Option<int> {
    match op
    case Add => Some(WrapTo(t, a + b))
    case Sub => Some(WrapTo(t, a - b))
    case Mul => Some(WrapTo(t, a * b))
    case Div => if b == 0 then None else Some(WrapTo(t, TruncDiv(a, b)))
    case Mod => if b == 0 then None else Some(a - b * TruncDiv(a, b))
  }

  function ArithFloat(fl: Floats, op: ArithOp, a: u64, b: u64): Option<int> {
    if (op.Div? || op.Mod?) && F64.Equal(b, 0) then None else Some(fl.arith(op, a, b))
  }

  predicate CmpHolds(op: CmpOp, c: int) {
    match op
    case Lt => c < 0
    case Le => c <= 0
    case Gt => c > 0
    case Ge => c >= 0
    case Eq => c == 0
    case Ne => c != 0
  }

  /** IEEE 754: every comparison with a NaN is false, except inequality. */
  predicate CmpFloat(op: CmpOp, a: u64, b: u64) {
    match op
    case Lt => F64.Less(a, b)
    case Le => F64.Less(a, b) || F64.Equal(a, b)
    case Gt => F64.Less(b, a)
    case Ge => F64.Less(b, a) || F64.Equal(a, b)
    case Eq => F64.Equal(a, b)
    case Ne => !F64.Equal(a, b)
  }

  function Bool(b: bool): Cell { Num(if b then 1 else 0) }

  function ArithCell(fl: Floats, op: ArithOp, t: Type, a: Cell, b: Cell): Cell {
    match (a, b)
    case (Num(x), Num(y)) => (match ArithInt(op, t, x, y) case Some(v) => Num(v) case None => Null)
    case (Flt(x), Flt(y)) => (match ArithFloat(fl, op, x, y) case Some(v) => Flt(U64(v)) case None => Null)
    case _ => Null
  }

  function CmpCell(op: CmpOp, a: Cell, b: Cell): Cell {
    match (a, b)
    case (Num(x), Num(y)) => Bool(CmpHolds(op, SortOrders.IntCmp(x, y)))
    case (Flt(x), Flt(y)) => Bool(CmpFloat(op, x, y))
    case (Str(x), Str(y)) => Bool(CmpHolds(op, SortOrders.LexCmp(SortOrders.Codes(x), SortOrders.Codes(y))))
    case _ => Null
  }

  /** Kleene: a false conjunct decides, then a NULL one. */
  function LogicCell(op: LogicOp, a: Cell, b: Cell): Cell {
    var decides := if op.AndOp? then Num(0) else Num(1);
    if a == decides || b == decides then decides
    else if a.Null? || b.Null? then Null
    else Num(if op.AndOp? then 1 else 0)
  }

  function NotCell(a: Cell): Cell { if a.Null? then Null else Bool(a == Num(0)) }

  function CastCell(fl: Floats, from: Type, to: Type, a: Cell): Cell {
    match a
    case Num(v) =>
      (match to
       case F64 => Flt(fl.fromInt(v))
       case BOOL => Bool(v != 0)
       case I32 => if InRange(I32, v) then Num(v) else Null
       case _ => Num(v))
    case Flt(b) =>
      (match to
       case BOOL => Bool(!F64.Equal(b, 0))
       case F64 => Flt(b)
       case _ => (match fl.toInt(b, to) case Some(v) => Num(v) case None => Null))
    case _ => Null
  }

  function LitCell(t: Type, v: Option<int>): Cell
    requires !t.STR? && (v.Some? ==> InRange(t, v.value))
  {
    match v
    case None => Null
    case Some(x) => if t.F64? then Flt(x) else Num(x)
  }

  /** The value of a well-typed expression on a row. */
  function EvalRow(fl: Floats, e: Expr, schema: seq<Type>, row: Row): Cell
    requires WellTyped(e, schema) && |row| == |schema|
  {
    match e
    case Col(_, i) => row[i]
    case Lit(t, v) => LitCell(t, v)
    case Arith(op, t, l, r) => ArithCell(fl, op, t, EvalRow(fl, l, schema, row), EvalRow(fl, r, schema, row))
    case Cmp(op, l, r) => CmpCell(op, EvalRow(fl, l, schema, row), EvalRow(fl, r, schema, row))
    case Logic(op, l, r) => LogicCell(op, EvalRow(fl, l, schema, row), EvalRow(fl, r, schema, row))
    case Not(x) => NotCell(EvalRow(fl, x, schema, row))
    case Cast(t, x) => CastCell(fl, TypeOf(x), t, EvalRow(fl, x, schema, row))
  }

  /** An expression's value is of its inferred type. */
  lemma {:induction false} EvalHolds(fl: Floats, e: Expr, schema: seq<Type>, row: Row)
    requires WellTyped(e, schema) && |row| == |schema| && FloatsOk(fl)
    requires forall c | 0 <= c < |row| :: Holds(schema[c], row[c])
    ensures Holds(TypeOf(e), EvalRow(fl, e, schema, row))
  {
    match e {
      case Arith(op, t, l, r) =>
        EvalHolds(fl, l, schema, row);
        EvalHolds(fl, r, schema, row);
        ArithHolds(fl, op, t, EvalRow(fl, l, schema, row), EvalRow(fl, r, schema, row));
      case Cast(t, x) =>
        EvalHolds(fl, x, schema, row);
        CastHolds(fl, TypeOf(x), t, EvalRow(fl, x, schema, row));
      case _ =>
    }
  }

  lemma ArithHolds(fl: Floats, op: ArithOp, t: Type, a: Cell, b: Cell)
    requires Numeric(t) && Holds(t, a) && Holds(t, b)
    ensures Holds(t, ArithCell(fl, op, t, a, b))
  {
    if a.Num? && b.Num? && op.Mod? && b.i != 0 { RemainderFits(t, a.i, b.i); }
  }

  lemma CastHolds(fl: Floats, from: Type, to: Type, a: Cell)
    requires Holds(from, a) && !from.STR? && !to.STR? && FloatsOk(fl)
    ensures Holds(to, CastCell(fl, from, to, a))
  {
  }

  /** A remainder takes the dividend's sign and is no larger. */
  lemma RemainderFits(t: Type, a: int, b: int)
    requires b != 0 && InRange(t, a) && (t.I32? || t.I64?)
    ensures InRange(t, a - b * TruncDiv(a, b))
  {
    var x, y := if a < 0 then -a else a, if b < 0 then -b else b;
    var q := x / y;
    Remainder(x, y);
    Signs(y, q);
    assert b * TruncDiv(a, b) == if a < 0 then -(y * q) else y * q;
  }

  lemma Remainder(x: nat, y: nat)
    requires y > 0
    ensures 0 <= x - y * (x / y) <= x
  {
    NonNegative(y, x / y);
  }

  lemma NonNegative(y: nat, q: nat)
    ensures y * q >= 0
  {
  }

  lemma Signs(y: int, q: int)
    ensures (-y) * q == -(y * q) && y * (-q) == -(y * q) && (-y) * (-q) == y * q
  {
  }
}
