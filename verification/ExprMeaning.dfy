/**
 What expressions mean, said outright: in terms of the integers, the strings and the
 numbers that doubles stand for.
 */
module ExprMeanings {
  import opened Words
  import opened Columns
  import opened KeyCodes
  import opened AggMeaning
  import opened Exprs
  import SortOrders
  import F64

  ghost predicate RowTyped(schema: seq<Type>, row: Row) {
    |row| == |schema| && forall c | 0 <= c < |row| :: Holds(schema[c], row[c])
  }

  lemma ValueTyped(fl: Floats, e: Expr, schema: seq<Type>, row: Row)
    requires WellTyped(e, schema) && RowTyped(schema, row) && FloatsOk(fl)
    ensures Holds(TypeOf(e), EvalRow(fl, e, schema, row))
  {
    EvalHolds(fl, e, schema, row);
  }

  // ----- comparison -----

  /** The operator, of two values the first of which may be less, equal or greater. */
  predicate Compares(op: CmpOp, less: bool, equal: bool, greater: bool) {
    match op
    case Lt => less
    case Le => less || equal
    case Gt => greater
    case Ge => greater || equal
    case Eq => equal
    case Ne => !equal
  }

  /** NULL with a NULL; else by size, character by character, or by number; a NaN is not even equal to itself. */
  ghost predicate CmpIs(op: CmpOp, x: Cell, y: Cell, out: Cell) {
    match (x, y)
    case (Num(i), Num(j)) => out == Num(if Compares(op, i < j, i == j, i > j) then 1 else 0)
    case (Str(s), Str(t)) => out == Num(if Compares(op, SortOrders.StrBefore(s, t), s == t, SortOrders.StrBefore(t, s)) then 1 else 0)
    case (Flt(a), Flt(b)) =>
      if F64.IsNaN(a) || F64.IsNaN(b) then out == Num(if op.Ne? then 1 else 0)
      else
        var u, v := F64.NumberOf(a), F64.NumberOf(b);
        out == Num(if Compares(op, u < v, u == v, u > v) then 1 else 0)
    case _ => x.Null? || y.Null? ==> out == Null
  }

  lemma CmpMeans(fl: Floats, op: CmpOp, l: Expr, r: Expr, schema: seq<Type>, row: Row)
    requires WellTyped(Cmp(op, l, r), schema) && |row| == |schema|
    ensures CmpIs(op, EvalRow(fl, l, schema, row), EvalRow(fl, r, schema, row), EvalRow(fl, Cmp(op, l, r), schema, row))
  {
    var x, y := EvalRow(fl, l, schema, row), EvalRow(fl, r, schema, row);
    hide WellTyped, F64.NumberOf, SortOrders.StrBefore, SortOrders.LexCmp, F64.Less, F64.Equal;
    match (x, y) {
      case (Flt(a), Flt(b)) =>
        if F64.IsNaN(a) || F64.IsNaN(b) {
          NaNCompares(op, a, b);
        } else {
          F64.LessIsByNumber(a, b);
          F64.LessIsByNumber(b, a);
        }
      case (Str(s), Str(t)) => SortOrders.StrCmpIs(s, t);
      case _ =>
    }
  }

  lemma NaNCompares(op: CmpOp, a: u64, b: u64)
    requires F64.IsNaN(a) || F64.IsNaN(b)
    ensures CmpFloat(op, a, b) <==> op.Ne?
  {
  }

  // ----- arithmetic -----

  /** Rounding toward zero: the quotient leaves a remainder smaller than the divisor, with the dividend's sign. */
  predicate Quotient(a: int, b: int, q: int) {
    var r := a - b * q;
    Abs(r) < Abs(b) && (a >= 0 ==> r >= 0) && (a <= 0 ==> r <= 0)
  }

  lemma TruncDivIs(a: int, b: int)
    requires b != 0
    ensures Quotient(a, b, TruncDiv(a, b))
  {
    var x, y := if a < 0 then -a else a, if b < 0 then -b else b;
    var q := x / y;
    SmallRemainder(x, y);
    Signs(y, q);
    SignedQuotient(a, b, x, y, q, y * q, TruncDiv(a, b), b * TruncDiv(a, b));
  }

  lemma SignedQuotient(a: int, b: int, x: int, y: int, q: int, p: int, d: int, bd: int)
    requires x == Abs(a) && y == Abs(b) && 0 <= x - p < y && bd == b * d
    requires bd == if a < 0 then -p else p
    ensures Quotient(a, b, d)
  {
  }

  lemma SmallRemainder(x: nat, y: nat)
    requires y > 0
    ensures 0 <= x - y * (x / y) < y
  {
  }

  ghost predicate IntArithIs(op: ArithOp, t: Type, a: int, b: int, out: Cell) {
    match op
    case Add => out.Num? && Reduced(t, out.i, a + b)
    case Sub => out.Num? && Reduced(t, out.i, a - b)
    case Mul => out.Num? && Reduced(t, out.i, a * b)
    case Div => if b == 0 then out == Null else out.Num? && exists q :: Quotient(a, b, q) && Reduced(t, out.i, q)
    case Mod => if b == 0 then out == Null else out.Num? && InRange(t, out.i) && exists q :: Quotient(a, b, q) && out.i == a - b * q
  }

  /** NULL with a NULL or by a zero divisor; on integers the true result, reduced to the type's width. */
  ghost predicate ArithIs(fl: Floats, op: ArithOp, t: Type, x: Cell, y: Cell, out: Cell) {
    match (x, y)
    case (Num(a), Num(b)) => IntArithIs(op, t, a, b, out)
    case (Flt(a), Flt(b)) =>
      if (op.Div? || op.Mod?) && !F64.IsNaN(b) && F64.NumberOf(b) == 0 then out == Null
      else out == Flt(fl.arith(op, a, b))
    case _ => out == Null
  }

  lemma IntArithMeans(fl: Floats, op: ArithOp, t: Type, a: int, b: int)
    requires (t.I32? || t.I64?) && InRange(t, a)
    ensures IntArithIs(op, t, a, b, ArithCell(fl, op, t, Num(a), Num(b)))
  {
    hide Reduced, Quotient, TruncDiv, WrapTo;
    if b != 0 {
      TruncDivIs(a, b);
      WrapToReduces(t, TruncDiv(a, b));
      RemainderFits(t, a, b);
    }
    WrapToReduces(t, a + b);
    WrapToReduces(t, a - b);
    WrapToReduces(t, a * b);
  }

  lemma ArithMeans(fl: Floats, op: ArithOp, t: Type, l: Expr, r: Expr, schema: seq<Type>, row: Row)
    requires WellTyped(Arith(op, t, l, r), schema) && RowTyped(schema, row) && FloatsOk(fl)
    ensures ArithIs(fl, op, t, EvalRow(fl, l, schema, row), EvalRow(fl, r, schema, row), EvalRow(fl, Arith(op, t, l, r), schema, row))
  {
    ValueTyped(fl, l, schema, row);
    ValueTyped(fl, r, schema, row);
    var x, y := EvalRow(fl, l, schema, row), EvalRow(fl, r, schema, row);
    hide WellTyped, RowTyped, FloatsOk, ArithInt, IntArithIs, F64.NumberOf, F64.Equal;
    match (x, y) {
      case (Num(a), Num(b)) => IntArithMeans(fl, op, t, a, b);
      case (Flt(a), Flt(b)) => ZeroIs(b);
      case _ =>
    }
  }

  lemma WrapToReduces(t: Type, v: int)
    requires t.I32? || t.I64?
    ensures Reduced(t, WrapTo(t, v), v)
  {
    WrapReduces(Wrap(v), v);
    Int32Reduces(AsInt32(v), v);
  }

  lemma ZeroIs(b: u64)
    ensures F64.Equal(b, 0) <==> !F64.IsNaN(b) && F64.NumberOf(b) == 0
  {
    if !F64.IsNaN(b) { F64.LessIsByNumber(b, 0); }
  }

  // ----- Kleene's connectives -----

  /** AND is false if an operand is, true if both are, else NULL; OR the other way around. */
  predicate LogicIs(op: LogicOp, x: Cell, y: Cell, out: Cell) {
    var bad, good := if op.AndOp? then Num(0) else Num(1), if op.AndOp? then Num(1) else Num(0);
    && (out == bad <==> x == bad || y == bad)
    && (out == good <==> x == good && y == good)
    && (out == bad || out == good || out == Null)
  }

  lemma LogicMeans(fl: Floats, op: LogicOp, l: Expr, r: Expr, schema: seq<Type>, row: Row)
    requires WellTyped(Logic(op, l, r), schema) && RowTyped(schema, row) && FloatsOk(fl)
    ensures LogicIs(op, EvalRow(fl, l, schema, row), EvalRow(fl, r, schema, row), EvalRow(fl, Logic(op, l, r), schema, row))
  {
    ValueTyped(fl, l, schema, row);
    ValueTyped(fl, r, schema, row);
  }

  lemma NotMeans(fl: Floats, e: Expr, schema: seq<Type>, row: Row)
    requires WellTyped(Not(e), schema) && RowTyped(schema, row) && FloatsOk(fl)
    ensures var x, out := EvalRow(fl, e, schema, row), EvalRow(fl, Not(e), schema, row);
      if x == Num(0) then out == Num(1) else if x == Num(1) then out == Num(0) else out == Null
  {
    ValueTyped(fl, e, schema, row);
  }

  // ----- casts, literals, columns -----

  /** To BOOL, whether it is not zero; to an integer type, the value if it fits, else NULL; to F64, converted. */
  ghost predicate CastIs(fl: Floats, to: Type, x: Cell, out: Cell) {
    match x
    case Num(v) =>
      if to.F64? then out == Flt(fl.fromInt(v))
      else if to.BOOL? then out == Num(if v != 0 then 1 else 0)
      else out == if InRange(to, v) then Num(v) else Null
    case Flt(b) =>
      if to.BOOL? then out == Num(if F64.IsNaN(b) || F64.NumberOf(b) != 0 then 1 else 0)
      else if fl.toInt(b, to).Some? then out == Num(fl.toInt(b, to).value)
      else out == Null
    case _ => out == Null
  }

  lemma CastMeans(fl: Floats, to: Type, e: Expr, schema: seq<Type>, row: Row)
    requires WellTyped(Cast(to, e), schema) && RowTyped(schema, row) && FloatsOk(fl)
    ensures CastIs(fl, to, EvalRow(fl, e, schema, row), EvalRow(fl, Cast(to, e), schema, row))
  {
    ValueTyped(fl, e, schema, row);
    var x := EvalRow(fl, e, schema, row);
    if x.Flt? { ZeroIs(x.bits); }
    hide F64.NumberOf, F64.Equal, WellTyped;
    assert TypeOf(e) != to && !to.STR? && !TypeOf(e).STR?;
  }

  lemma LeafMeans(fl: Floats, t: Type, i: nat, v: Option<int>, schema: seq<Type>, row: Row)
    requires |row| == |schema|
    ensures WellTyped(Col(t, i), schema) <==> i < |schema| && schema[i] == t
    ensures WellTyped(Lit(t, v), schema) <==> !t.STR? && (v.Some? ==> InRange(t, v.value))
    ensures WellTyped(Col(t, i), schema) ==> EvalRow(fl, Col(t, i), schema, row) == row[i]
    ensures WellTyped(Lit(t, v), schema) ==>
      EvalRow(fl, Lit(t, v), schema, row) == (if v.None? then Null else if t.F64? then Flt(v.value) else Num(v.value))
  {
  }

  // ----- the builders -----

  /** F64 if either operand is, else I64 if either is, else I32; refused if one is no number. */
  predicate Promoted(a: Type, b: Type, t: Option<Type>) {
    if !(a in [I32, I64, Type.F64] && b in [I32, I64, Type.F64]) then t.None?
    else t == Some(if a.F64? || b.F64? then Type.F64 else if a.I64? || b.I64? then I64 else I32)
  }

  /** An operand as type `t`: itself, or cast. */
  predicate Converted(e: Expr, t: Type, x: Expr) { x == if TypeOf(e) == t then e else Cast(t, e) }

  lemma ArithBuilt(op: ArithOp, a: Expr, b: Expr)
    ensures var e := MakeArith(op, a, b);
      && Promoted(TypeOf(a), TypeOf(b), if e.Some? then Some(TypeOf(e.value)) else None)
      && (e.Some? ==> e.value.Arith? && e.value.aop == op && Converted(a, e.value.typ, e.value.l) && Converted(b, e.value.typ, e.value.r))
  {
  }

  lemma PromoteIs(a: Type, b: Type)
    ensures Promoted(a, b, if Numeric(a) && Numeric(b) then Some(Promote(a, b)) else None)
    ensures Promoted(a, b, None) <==> !(Numeric(a) && Numeric(b))
    ensures Numeric(a) && Numeric(b) ==> (Promote(a, b) == a || Promote(a, b) == b) && !a.STR? && !b.STR?
  {
  }

  /** Numbers are promoted as for arithmetic; any other operands must be of one type. */
  lemma CmpBuilt(op: CmpOp, a: Expr, b: Expr) returns (t: Type)
    ensures var e := MakeCmp(op, a, b);
      if Promoted(TypeOf(a), TypeOf(b), None) then e == if TypeOf(a) == TypeOf(b) then Some(Cmp(op, a, b)) else None
      else
        && Promoted(TypeOf(a), TypeOf(b), Some(t))
        && e.Some? && e.value.Cmp? && e.value.cop == op && Converted(a, t, e.value.l) && Converted(b, t, e.value.r)
  {
    hide TypeOf, Promoted, Promote, Numeric;
    t := Promote(TypeOf(a), TypeOf(b));
    PromoteIs(TypeOf(a), TypeOf(b));
  }

  lemma LogicBuilt(op: LogicOp, a: Expr, b: Expr)
    ensures MakeLogic(op, a, b) == if TypeOf(a).BOOL? && TypeOf(b).BOOL? then Some(Logic(op, a, b)) else None
    ensures MakeNot(a) == if TypeOf(a).BOOL? then Some(Not(a)) else None
  {
  }
}
