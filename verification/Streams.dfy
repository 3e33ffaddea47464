/**
 The streaming operators: scans of a row range, filter and project. Each maps its child's
 rows one by one and in order, whatever the batches.
 */
module Streams {
  import opened Words
  import opened Columns
  import opened KeyCodes
  import opened RowStores
  import opened Exprs
  import opened Eval

  // ----- the meanings, row by row -----

  /** SQL WHERE: neither false nor NULL. */
  predicate Passes(fl: Floats, pred: Expr, schema: seq<Type>, row: Row)
    requires WellTyped(pred, schema) && |row| == |schema|
  {
    var c := EvalRow(fl, pred, schema, row);
    !c.Null? && c != Num(0)
  }

  function FilterRows(fl: Floats, pred: Expr, schema: seq<Type>, rows: seq<Row>): (out: seq<Row>)
    requires WellTyped(pred, schema) && SameWidth(rows, |schema|)
    ensures SameWidth(out, |schema|)
  {
    if rows == [] then []
    else
      var last := rows[|rows| - 1];
      FilterRows(fl, pred, schema, rows[..|rows| - 1]) + (if Passes(fl, pred, schema, last) then [last] else [])
  }

  /** Row `r` is kept: the predicate is neither NULL nor false on it. */
  ghost predicate Kept(fl: Floats, pred: Expr, schema: seq<Type>, rows: seq<Row>, r: nat)
    requires WellTyped(pred, schema) && SameWidth(rows, |schema|) && r < |rows|
  {
    EvalRow(fl, pred, schema, rows[r]) != Null && EvalRow(fl, pred, schema, rows[r]) != Num(0)
  }

  /** `out` is the rows kept, in order. */
  ghost predicate IsFilter(fl: Floats, pred: Expr, schema: seq<Type>, rows: seq<Row>, out: seq<Row>)
    requires WellTyped(pred, schema)
  {
    SameWidth(rows, |schema|) && exists ks :: AreRows(out, rows, ks) && NumbersKept(fl, pred, schema, rows, ks)
  }

  ghost predicate NumbersKept(fl: Floats, pred: Expr, schema: seq<Type>, rows: seq<Row>, ks: seq<nat>)
    requires WellTyped(pred, schema) && SameWidth(rows, |schema|)
  {
    && Ascending(ks) && (forall r | r in ks :: r < |rows|)
    && forall r: nat | r < |rows| :: r in ks <==> Kept(fl, pred, schema, rows, r)
  }

  lemma KeptNext(fl: Floats, pred: Expr, schema: seq<Type>, rows: seq<Row>, ks: seq<nat>)
    requires WellTyped(pred, schema) && SameWidth(rows, |schema|) && rows != []
    requires NumbersKept(fl, pred, schema, rows[..|rows| - 1], ks)
    ensures NumbersKept(fl, pred, schema, rows, if Kept(fl, pred, schema, rows, |rows| - 1) then ks + [|rows| - 1] else ks)
  {
    hide EvalRow, WellTyped, Ascending;
    var n := |rows| - 1;
    forall r: nat | r < n ensures r in ks <==> Kept(fl, pred, schema, rows, r) {
      assert Kept(fl, pred, schema, rows[..n], r) <==> Kept(fl, pred, schema, rows, r);
    }
    AscendingNext(ks, n);
  }

  lemma FilterRowsNext(fl: Floats, pred: Expr, schema: seq<Type>, rows: seq<Row>)
    requires WellTyped(pred, schema) && SameWidth(rows, |schema|) && rows != []
    ensures var before, n := FilterRows(fl, pred, schema, rows[..|rows| - 1]), |rows| - 1;
      FilterRows(fl, pred, schema, rows) == if Kept(fl, pred, schema, rows, n) then before + [rows[n]] else before
  {
    hide WellTyped, EvalRow;
    var before := FilterRows(fl, pred, schema, rows[..|rows| - 1]);
    assert before + [] == before;
  }

  lemma {:induction false} FilterListed(fl: Floats, pred: Expr, schema: seq<Type>, rows: seq<Row>) returns (ks: seq<nat>)
    requires WellTyped(pred, schema) && SameWidth(rows, |schema|)
    ensures AreRows(FilterRows(fl, pred, schema, rows), rows, ks) && NumbersKept(fl, pred, schema, rows, ks)
  {
    ks := [];
    if rows != [] {
      hide WellTyped, Kept, NumbersKept, AreRows, FilterRows;
      var n := |rows| - 1;
      ks := FilterListed(fl, pred, schema, rows[..n]);
      FilterRowsNext(fl, pred, schema, rows);
      KeptNext(fl, pred, schema, rows, ks);
      AreRowsNext(FilterRows(fl, pred, schema, rows[..n]), rows, ks);
      if Kept(fl, pred, schema, rows, n) { ks := ks + [n]; }
    }
  }

  lemma FilterMeans(fl: Floats, pred: Expr, schema: seq<Type>, rows: seq<Row>)
    requires WellTyped(pred, schema) && SameWidth(rows, |schema|)
    ensures IsFilter(fl, pred, schema, rows, FilterRows(fl, pred, schema, rows))
  {
    hide FilterRows, AreRows, NumbersKept;
    var ks := FilterListed(fl, pred, schema, rows);
  }

  ghost predicate AllWellTyped(exprs: seq<Expr>, schema: seq<Type>) {
    forall j | 0 <= j < |exprs| :: WellTyped(exprs[j], schema)
  }

  function ProjectRow(fl: Floats, exprs: seq<Expr>, schema: seq<Type>, row: Row): (out: Row)
    requires AllWellTyped(exprs, schema) && |row| == |schema|
    ensures |out| == |exprs|
  {
    seq(|exprs|, j requires 0 <= j < |exprs| => EvalRow(fl, exprs[j], schema, row))
  }

  function ProjectRows(fl: Floats, exprs: seq<Expr>, schema: seq<Type>, rows: seq<Row>): (out: seq<Row>)
    requires AllWellTyped(exprs, schema) && SameWidth(rows, |schema|)
    ensures |out| == |rows| && SameWidth(out, |exprs|)
  {
    seq(|rows|, r requires 0 <= r < |rows| => ProjectRow(fl, exprs, schema, rows[r]))
  }

  /** Column `j` of each output row is expression `j` on the input row. */
  ghost predicate IsProjection(fl: Floats, exprs: seq<Expr>, schema: seq<Type>, rows: seq<Row>, out: seq<Row>)
    requires AllWellTyped(exprs, schema)
  {
    && SameWidth(rows, |schema|) && |out| == |rows| && SameWidth(out, |exprs|)
    && forall r, j | 0 <= r < |rows| && 0 <= j < |exprs| :: out[r][j] == EvalRow(fl, exprs[j], schema, rows[r])
  }

  lemma ProjectMeans(fl: Floats, exprs: seq<Expr>, schema: seq<Type>, rows: seq<Row>)
    requires AllWellTyped(exprs, schema) && SameWidth(rows, |schema|)
    ensures IsProjection(fl, exprs, schema, rows, ProjectRows(fl, exprs, schema, rows))
  {
    hide EvalRow, WellTyped;
  }

  function ExprTypes(exprs: seq<Expr>): (ts: seq<Type>)
    ensures |ts| == |exprs|
  {
    seq(|exprs|, j requires 0 <= j < |exprs| => TypeOf(exprs[j]))
  }

  lemma {:induction false} FilterConcat(fl: Floats, pred: Expr, schema: seq<Type>, a: seq<Row>, b: seq<Row>)
    requires WellTyped(pred, schema) && SameWidth(a, |schema|) && SameWidth(b, |schema|)
    ensures FilterRows(fl, pred, schema, a + b) == FilterRows(fl, pred, schema, a) + FilterRows(fl, pred, schema, b)
  {
    hide Passes, WellTyped;
    if b == [] {
      assert a + b == a;
    } else {
      assert (a + b)[..|a + b| - 1] == a + b[..|b| - 1];
      FilterConcat(fl, pred, schema, a, b[..|b| - 1]);
    }
  }

  lemma ProjectConcat(fl: Floats, exprs: seq<Expr>, schema: seq<Type>, a: seq<Row>, b: seq<Row>)
    requires AllWellTyped(exprs, schema) && SameWidth(a, |schema|) && SameWidth(b, |schema|)
    ensures ProjectRows(fl, exprs, schema, a + b) == ProjectRows(fl, exprs, schema, a) + ProjectRows(fl, exprs, schema, b)
  {
    hide ProjectRow;
  }

  // ----- scans -----

  /** Rows `[start, start + n)` of a column, without copying: the bitmap moves by whole words. */
  function Window(c: Column, start: nat, n: nat): (v: Column)
    requires c.Valid() && start + n <= c.len && start % 64 == 0
    ensures IsSlice(v, c, start) && v.len == n && v.typ == c.typ
  {
    var v := Column(c.typ, n, c.data[start..start + n],
                    if c.allValid then [] else c.validity[start / 64..], c.allValid, c.dict);
    WindowValid(c, start, n);
    v
  }

  lemma WindowValid(c: Column, start: nat, n: nat)
    requires c.Valid() && start + n <= c.len && start % 64 == 0
    ensures c.allValid || start / 64 <= |c.validity|
    ensures IsSlice(Column(c.typ, n, c.data[start..start + n],
                           if c.allValid then [] else c.validity[start / 64..], c.allValid, c.dict), c, start)
  {
    var v := Column(c.typ, n, c.data[start..start + n],
                    if c.allValid then [] else c.validity[start / 64..], c.allValid, c.dict);
    hide InRange;
    forall i: nat | i < n ensures v.IsValid(i) == c.IsValid(start + i) {
      if !c.allValid { Rebase(c.validity, start, i); }
    }
  }

  /** A scan of the row range `[rowStart, rowEnd)`; a plain scan covers the whole table. */
  class MorselScan {
    const table: Table
    const rowStart: nat
    const rowEnd: nat
    const batchSize: nat
    var cursor: nat

    ghost predicate Valid()
      reads this
    {
      && table.Valid() && RangeOk(table, rowStart, rowEnd, batchSize)
      && rowStart <= cursor <= rowEnd && (cursor % 64 == 0 || cursor == rowEnd)
    }

    constructor (table: Table, rowStart: nat, rowEnd: nat, batchSize: nat)
      requires table.Valid() && RangeOk(table, rowStart, rowEnd, batchSize)
      ensures Valid() && cursor == rowStart
      ensures this.table == table && this.rowStart == rowStart && this.rowEnd == rowEnd
    {
      this.table, this.rowStart, this.rowEnd, this.batchSize, cursor := table, rowStart, rowEnd, batchSize, rowStart;
    }

    method Next() returns (r: Option<Batch>)
      requires Valid()
      modifies this
      ensures Valid()
      ensures r.None? <==> old(cursor) == rowEnd
      ensures r.None? ==> cursor == old(cursor)
      ensures r.Some? ==>
        && old(cursor) < cursor == Min(old(cursor) + batchSize, rowEnd)
        && BatchFits(r.value, TableTypes(table)) && r.value.rowCount == cursor - old(cursor)
        && r.value.Rows() == table.Rows()[old(cursor)..cursor]
    {
      if cursor >= rowEnd { return None; }
      var start := cursor;
      var n := Min(batchSize, rowEnd - start);
      var b := Batch(seq(|table.cols|, c requires 0 <= c < |table.cols| => Window(table.cols[c], start, n)), None, n);
      hide Window, Column.Valid, Column.CellAt;
      SliceRows(b, table, start);
      cursor := start + n;
      r := Some(b);
    }
  }

  /** The constructor's preconditions, checked in every build. */
  predicate RangeOk(table: Table, rowStart: nat, rowEnd: nat, batchSize: nat) {
    batchSize > 0 && batchSize % 64 == 0 && rowStart % 64 == 0 && rowStart <= rowEnd <= table.nrows
  }

  /** Drain a scan: exactly the range's rows; `None` where the constructor throws. */
  method ScanRange(table: Table, rowStart: nat, rowEnd: nat, batchSize: nat) returns (out: Option<seq<Batch>>)
    requires table.Valid()
    ensures out.Some? <==> RangeOk(table, rowStart, rowEnd, batchSize)
    ensures out.Some? ==>
      Conforms(out.value, TableTypes(table)) && RowsOf(out.value) == table.Rows()[rowStart..rowEnd]
  {
    if !RangeOk(table, rowStart, rowEnd, batchSize) { return None; }
    var scan := new MorselScan(table, rowStart, rowEnd, batchSize);
    var batches: seq<Batch> := [];
    while true
      invariant fresh(scan) && scan.Valid() && scan.rowEnd == rowEnd && scan.table == table
      invariant rowStart <= scan.cursor <= rowEnd <= table.nrows
      invariant Conforms(batches, TableTypes(table)) && RowsOf(batches) == table.Rows()[rowStart..scan.cursor]
      decreases rowEnd - scan.cursor
    {
      hide MorselScan.Valid, Table.Rows, Table.Valid, Batch.Valid, Batch.Rows;
      ghost var at := scan.cursor;
      var b := scan.Next();
      if b.None? { break; }
      PushRowsOf(batches, b.value);
      Adjacent(table.Rows(), rowStart, at, scan.cursor);
      batches := batches + [b.value];
    }
    out := Some(batches);
  }

  lemma PushRowsOf(batches: seq<Batch>, b: Batch)
    requires b.Valid() && forall i | 0 <= i < |batches| :: batches[i].Valid()
    ensures RowsOf(batches + [b]) == RowsOf(batches) + b.Rows()
  {
    assert (batches + [b])[..|batches|] == batches;
  }

  lemma Adjacent(rows: seq<Row>, a: nat, b: nat, c: nat)
    requires a <= b <= c <= |rows|
    ensures rows[a..b] + rows[b..c] == rows[a..c]
  {
  }

  // ----- filter -----

  /** The physical rows of the passing live rows. */
  method PassingRows(pv: Column, b: Batch, ghost cells: seq<Cell>) returns (pass: seq<nat>, ghost which: seq<nat>)
    requires b.Valid() && Holding(pv, BOOL, cells) && |cells| == b.rowCount
    ensures |which| == |pass| && forall i | 0 <= i < |pass| :: which[i] < b.rowCount && pass[i] == b.SelAt(which[i])
    ensures which == PassingIndices(cells)
  {
    hide Column.CellAt, InRange;
    pass, which := [], [];
    for k := 0 to b.rowCount
      invariant |which| == |pass| && which == PassingIndices(cells[..k])
      invariant forall i | 0 <= i < |pass| :: which[i] < b.rowCount && pass[i] == b.SelAt(which[i])
    {
      HeldLane(pv, BOOL, cells, k);
      assert cells[..k + 1][..k] == cells[..k];
      if pv.IsValid(k) && pv.data[k] != 0 {
        pass, which := pass + [b.SelAt(k)], which + [k];
      }
    }
    assert cells[..b.rowCount] == cells;
  }

  function PassingIndices(cells: seq<Cell>): (ks: seq<nat>)
    ensures forall i | 0 <= i < |ks| :: ks[i] < |cells|
  {
    if cells == [] then []
    else
      var c := cells[|cells| - 1];
      PassingIndices(cells[..|cells| - 1]) + (if !c.Null? && c != Num(0) then [|cells| - 1] else [])
  }

  lemma {:induction false} PassingIsFilter(fl: Floats, pred: Expr, schema: seq<Type>, rows: seq<Row>, cells: seq<Cell>)
    requires WellTyped(pred, schema) && SameWidth(rows, |schema|) && |cells| == |rows|
    requires forall k | 0 <= k < |rows| :: cells[k] == EvalRow(fl, pred, schema, rows[k])
    ensures var ks := PassingIndices(cells);
      FilterRows(fl, pred, schema, rows) == seq(|ks|, i requires 0 <= i < |ks| => rows[ks[i]])
  {
    hide WellTyped, EvalRow;
    if rows != [] {
      var n := |rows| - 1;
      assert cells[..n] == cells[..|cells| - 1];
      PassingIsFilter(fl, pred, schema, rows[..n], cells[..n]);
    }
  }

  /** Filter one batch into a dense one; nothing when no row passes. */
  method FilterBatch(fl: Floats, pred: Expr, schema: seq<Type>, b: Batch, be: Backend) returns (out: Option<Batch>)
    requires WellTyped(pred, schema) && TypeOf(pred).BOOL? && BatchFits(b, schema) && be.Valid() && FloatsOk(fl)
    ensures SameWidth(b.Rows(), |schema|)
    ensures out.None? <==> FilterRows(fl, pred, schema, b.Rows()) == []
    ensures out.Some? ==> BatchFits(out.value, schema) && out.value.Rows() == FilterRows(fl, pred, schema, b.Rows())
  {
    hide Holding, FilterRows, PassingIndices, WellTyped, FloatsOk, Column.Valid, GatheredColumn;
    var pv := EvalNode(fl, pred, schema, b, be);
    ghost var cells := EvalCells(fl, pred, schema, b);
    var pass, which := PassingRows(pv, b, cells);
    PassingIsFilter(fl, pred, schema, b.Rows(), cells);
    if pass == [] { return None; }
    PassFits(b, pass, which);
    var cols := GatherColumns(b, pass, be.lanes);
    var r := Batch(cols, None, |pass|);
    GatheredBatch(r, b, schema, pass, which);
    out := Some(r);
  }

  method GatherColumns(b: Batch, pass: seq<nat>, lanes: nat) returns (cols: seq<Column>)
    requires lanes >= 1
    requires forall c | 0 <= c < |b.cols| :: b.cols[c].Valid()
    requires forall c, i | 0 <= c < |b.cols| && 0 <= i < |pass| :: pass[i] < b.cols[c].len
    ensures |cols| == |b.cols| && forall i | 0 <= i < |cols| :: GatheredColumn(cols[i], b.cols[i], pass)
  {
    hide Column.Valid, GatheredColumn;
    cols := [];
    for c := 0 to |b.cols|
      invariant |cols| == c && forall i | 0 <= i < c :: GatheredColumn(cols[i], b.cols[i], pass)
    {
      var oc := CompactColumn(b.cols[c], Some(pass), |pass|, lanes);
      var col := oc.View();
      GatheredFrom(col, b.cols[c], pass);
      cols := cols + [col];
    }
  }

  lemma PassFits(b: Batch, pass: seq<nat>, which: seq<nat>)
    requires b.Valid() && |which| == |pass|
    requires forall i | 0 <= i < |pass| :: which[i] < b.rowCount && pass[i] == b.SelAt(which[i])
    ensures forall c, i | 0 <= c < |b.cols| && 0 <= i < |pass| :: b.cols[c].Valid() && pass[i] < b.cols[c].len
  {
  }

  ghost predicate GatheredColumn(col: Column, src: Column, idx: seq<nat>) {
    && col.Valid() && src.Valid() && col.typ == src.typ && col.len == |idx|
    && forall k: nat | k < |idx| :: idx[k] < src.len && col.CellAt(k) == src.CellAt(idx[k])
  }

  lemma GatheredFrom(col: Column, src: Column, idx: seq<nat>)
    requires col.Valid() && src.Valid() && col.typ == src.typ && col.len == |idx|
    requires forall k | 0 <= k < |idx| :: idx[k] < src.len
    requires forall k: nat | k < |idx| :: col.CellAt(k) == src.CellAt(idx[k])
    ensures GatheredColumn(col, src, idx)
  {
    hide Column.Valid, Column.CellAt;
  }

  lemma GatheredBatch(r: Batch, b: Batch, schema: seq<Type>, pass: seq<nat>, which: seq<nat>)
    requires BatchFits(b, schema) && |which| == |pass|
    requires forall i | 0 <= i < |pass| :: which[i] < b.rowCount && pass[i] == b.SelAt(which[i])
    requires |r.cols| == |b.cols| && r.sel.None? && r.rowCount == |pass|
    requires forall i | 0 <= i < |b.cols| :: GatheredColumn(r.cols[i], b.cols[i], pass)
    ensures BatchFits(r, schema)
    ensures r.Rows() == seq(|which|, i requires 0 <= i < |which| => b.Rows()[which[i]])
  {
    hide Column.Valid, Column.CellAt;
    assert forall c | 0 <= c < |r.cols| :: GatheredColumn(r.cols[c], b.cols[c], pass) ==>
      r.cols[c].Valid() && r.cols[c].typ == schema[c] && r.cols[c].len == |pass|;
    forall k | 0 <= k < |pass| ensures r.Rows()[k] == b.Rows()[which[k]] {
      forall c | 0 <= c < |r.cols| ensures r.RowAt(k)[c] == b.RowAt(which[k])[c] {
        assert GatheredColumn(r.cols[c], b.cols[c], pass);
      }
    }
  }

  /** Drain a filter: the passing rows in order, and never an empty batch. */
  method FilterAll(fl: Floats, pred: Expr, schema: seq<Type>, input: seq<Batch>, be: Backend) returns (out: seq<Batch>)
    requires WellTyped(pred, schema) && TypeOf(pred).BOOL? && Conforms(input, schema) && be.Valid() && FloatsOk(fl)
    ensures SameWidth(RowsOf(input), |schema|)
    ensures Conforms(out, schema) && RowsOf(out) == FilterRows(fl, pred, schema, RowsOf(input))
    ensures IsFilter(fl, pred, schema, RowsOf(input), RowsOf(out))
    ensures forall i | 0 <= i < |out| :: out[i].rowCount >= 1
  {
    hide FilterRows, IsFilter, Batch.Valid, WellTyped, FloatsOk;
    ConformingWidth(input, schema);
    out := [];
    FilterNone(fl, pred, schema);
    for i := 0 to |input|
      invariant Conforms(out, schema) && SameWidth(RowsOf(input[..i]), |schema|)
      invariant RowsOf(out) == FilterRows(fl, pred, schema, RowsOf(input[..i]))
      invariant forall j | 0 <= j < |out| :: out[j].rowCount >= 1
    {
      hide RowsOf;
      var b := FilterBatch(fl, pred, schema, input[i], be);
      FilterNext(fl, pred, schema, input, i);
      if b.Some? {
        PushRowsOf(out, b.value);
        out := out + [b.value];
      } else {
        assert RowsOf(out) + [] == RowsOf(out);
      }
    }
    assert input[..|input|] == input;
    FilterMeans(fl, pred, schema, RowsOf(input));
  }

  lemma FilterNone(fl: Floats, pred: Expr, schema: seq<Type>)
    requires WellTyped(pred, schema)
    ensures FilterRows(fl, pred, schema, []) == []
  {
  }

  lemma FilterNext(fl: Floats, pred: Expr, schema: seq<Type>, input: seq<Batch>, i: nat)
    requires WellTyped(pred, schema) && Conforms(input, schema) && i < |input|
    ensures SameWidth(RowsOf(input[..i]), |schema|) && SameWidth(RowsOf(input[..i + 1]), |schema|)
    ensures SameWidth(input[i].Rows(), |schema|)
    ensures FilterRows(fl, pred, schema, RowsOf(input[..i + 1]))
         == FilterRows(fl, pred, schema, RowsOf(input[..i])) + FilterRows(fl, pred, schema, input[i].Rows())
  {
    hide FilterRows, WellTyped;
    ConformingWidth(input[..i], schema);
    RowsOfNext(input, i);
    FilterConcat(fl, pred, schema, RowsOf(input[..i]), input[i].Rows());
  }

  // ----- project -----

  /** Project one batch: one evaluated column per expression. */
  method ProjectBatch(fl: Floats, exprs: seq<Expr>, schema: seq<Type>, b: Batch, be: Backend) returns (out: Batch)
    requires AllWellTyped(exprs, schema) && BatchFits(b, schema) && be.Valid() && FloatsOk(fl)
    ensures SameWidth(b.Rows(), |schema|)
    ensures BatchFits(out, ExprTypes(exprs)) && out.rowCount == b.rowCount
    ensures out.Rows() == ProjectRows(fl, exprs, schema, b.Rows())
  {
    hide Holding, Batch.Valid, FloatsOk;
    var cols: seq<Column> := [];
    for j := 0 to |exprs|
      invariant |cols| == j
      invariant forall i | 0 <= i < j :: Holding(cols[i], TypeOf(exprs[i]), EvalCells(fl, exprs[i], schema, b))
    {
      var c := EvalNode(fl, exprs[j], schema, b, be);
      cols := cols + [c];
    }
    out := Batch(cols, None, b.rowCount);
    ProjectedBatch(fl, exprs, schema, b, out);
  }

  lemma ProjectedBatch(fl: Floats, exprs: seq<Expr>, schema: seq<Type>, b: Batch, out: Batch)
    requires AllWellTyped(exprs, schema) && BatchFits(b, schema)
    requires |out.cols| == |exprs| && out.sel.None? && out.rowCount == b.rowCount
    requires forall i | 0 <= i < |exprs| :: Holding(out.cols[i], TypeOf(exprs[i]), EvalCells(fl, exprs[i], schema, b))
    ensures BatchFits(out, ExprTypes(exprs)) && SameWidth(b.Rows(), |schema|)
    ensures out.Rows() == ProjectRows(fl, exprs, schema, b.Rows())
  {
    hide Column.Valid, Column.CellAt, EvalRow, WellTyped;
    forall i | 0 <= i < |exprs| ensures out.cols[i].Valid() && out.cols[i].typ == TypeOf(exprs[i]) && out.cols[i].len == b.rowCount {
      assert Holding(out.cols[i], TypeOf(exprs[i]), EvalCells(fl, exprs[i], schema, b));
    }
    forall k | 0 <= k < b.rowCount ensures out.Rows()[k] == ProjectRow(fl, exprs, schema, b.Rows()[k]) {
      forall j | 0 <= j < |exprs| ensures out.RowAt(k)[j] == EvalRow(fl, exprs[j], schema, b.Rows()[k]) {
        assert Holding(out.cols[j], TypeOf(exprs[j]), EvalCells(fl, exprs[j], schema, b));
      }
    }
  }

  /** Drain a project. */
  method ProjectAll(fl: Floats, exprs: seq<Expr>, schema: seq<Type>, input: seq<Batch>, be: Backend) returns (out: seq<Batch>)
    requires AllWellTyped(exprs, schema) && Conforms(input, schema) && be.Valid() && FloatsOk(fl)
    ensures SameWidth(RowsOf(input), |schema|)
    ensures Conforms(out, ExprTypes(exprs)) && RowsOf(out) == ProjectRows(fl, exprs, schema, RowsOf(input))
    ensures IsProjection(fl, exprs, schema, RowsOf(input), RowsOf(out))
  {
    hide ProjectRows, IsProjection, Batch.Valid, AllWellTyped, FloatsOk;
    ConformingWidth(input, schema);
    out := [];
    ProjectNone(fl, exprs, schema);
    for i := 0 to |input|
      invariant Conforms(out, ExprTypes(exprs)) && SameWidth(RowsOf(input[..i]), |schema|)
      invariant RowsOf(out) == ProjectRows(fl, exprs, schema, RowsOf(input[..i]))
    {
      hide RowsOf;
      var b := ProjectBatch(fl, exprs, schema, input[i], be);
      ProjectNext(fl, exprs, schema, input, i);
      PushRowsOf(out, b);
      out := out + [b];
    }
    assert input[..|input|] == input;
    ProjectMeans(fl, exprs, schema, RowsOf(input));
  }

  lemma ProjectNone(fl: Floats, exprs: seq<Expr>, schema: seq<Type>)
    requires AllWellTyped(exprs, schema)
    ensures ProjectRows(fl, exprs, schema, []) == []
  {
  }

  lemma ProjectNext(fl: Floats, exprs: seq<Expr>, schema: seq<Type>, input: seq<Batch>, i: nat)
    requires AllWellTyped(exprs, schema) && Conforms(input, schema) && i < |input|
    ensures SameWidth(RowsOf(input[..i]), |schema|) && SameWidth(RowsOf(input[..i + 1]), |schema|)
    ensures SameWidth(input[i].Rows(), |schema|)
    ensures ProjectRows(fl, exprs, schema, RowsOf(input[..i + 1]))
         == ProjectRows(fl, exprs, schema, RowsOf(input[..i])) + ProjectRows(fl, exprs, schema, input[i].Rows())
  {
    hide ProjectRows, AllWellTyped;
    ConformingWidth(input[..i], schema);
    RowsOfNext(input, i);
    ProjectConcat(fl, exprs, schema, RowsOf(input[..i]), input[i].Rows());
  }
}
