/**
 The Aggregate operator as a whole: open drains the child, next emits.
 */
module AggregateOps {
  import opened Words
  import opened Columns
  import opened GroupIds
  import opened KeyRows
  import opened HashTables
  import opened KeyCodes
  import opened KeyedInputs
  import opened AggMeaning
  import opened GroupBy
  import opened Aggregates
  import opened GlobalAggregates
  import opened AggResults
  import SortOrders
  import D = StringDicts

  lemma ProductSplit(per: nat, a: nat, b: nat)
    ensures Product(per, a + b) == Product(per, a) + Product(per, b)
  {
  }

  /** What the operator may be given: its counters and its string codes must not run out. */
  ghost predicate InputOk(q: AggQuery, input: seq<Batch>) {
    && q.Valid() && Conforms(input, q.types)
    && |RowsOf(input)| < TWO_63 && Product(Interns(q), |RowsOf(input)|) <= TWO_31
  }

  // ----- draining with keys -----

  lemma NothingGrouped(ops: FloatOps, q: AggQuery, ht: HashTable)
    requires q.Valid() && q.keys != [] && ht.Valid() && ht.ncols == |q.keys| && ht.policy.EqualNulls?
    requires ht.Contents() == []
    ensures GroupedOk(ops, q, ht, seq(|q.aggs|, _ => []), [], [])
  {
    hide HashTable.Valid;
  }

  method DrainGrouped(ops: FloatOps, q: AggQuery, input: seq<Batch>, combine: Combine, seed: u64)
    returns (ht: HashTable, cells: seq<seq<AggCell>>, d: D.Dict, ok: bool)
    requires InputOk(q, input) && q.TypesOk() && q.keys != []
    ensures fresh(ht)
    ensures ok ==> Drained(ops, q, ht, cells, d, RowsOf(input))
    ensures !ok ==> |RowsOf(input)| > NO_GROUP
  {
    hide Product, GroupedOk, HashTable.Valid, HashTable.Contents, Batch.Valid, Drained;
    ht := new HashTable(|q.keys|, EqualNulls, DEFAULT_CAPACITY, DEFAULT_LOAD, combine, seed);
    NothingGrouped(ops, q, ht);
    cells, d := seq(|q.aggs|, _ => []), [];
    ghost var left: nat := |RowsOf(input)|;
    for i := 0 to |input|
      invariant fresh(ht) && |RowsOf(input[..i])| + left == |RowsOf(input)|
      invariant |d| + Product(Interns(q), left) <= TWO_31
      invariant GroupedOk(ops, q, ht, cells, d, RowsOf(input[..i]))
    {
      hide RowsOf, Interns;
      NextBatch(input, q.types, i);
      left := left - input[i].rowCount;
      ProductSplit(Interns(q), input[i].rowCount, left);
      if input[i].rowCount == 0 {
        SkipEmpty(input, i);
        continue;
      }
      cells, d, ok := GroupBatch(ops, q, ht, cells, d, input[i], RowsOf(input[..i]));
      if !ok { return; }
    }
    assert input[..|input|] == input;
    ok := true;
    FinishGrouped(ops, q, ht, cells, d, input);
  }

  lemma SkipEmpty(input: seq<Batch>, i: nat)
    requires i < |input| && (forall j | 0 <= j < |input| :: input[j].Valid()) && input[i].rowCount == 0
    ensures RowsOf(input[..i + 1]) == RowsOf(input[..i])
  {
    RowsOfNext(input, i);
  }

  lemma FinishGrouped(ops: FloatOps, q: AggQuery, ht: HashTable, cells: seq<seq<AggCell>>, d: D.Dict, input: seq<Batch>)
    requires InputOk(q, input) && q.TypesOk() && q.keys != []
    requires GroupedOk(ops, q, ht, cells, d, RowsOf(input)) && |d| <= TWO_31
    ensures Drained(ops, q, ht, cells, d, RowsOf(input))
  {
    hide GroupedOk, RowsOf;
    RowsHold(input, q.types);
  }

  // ----- draining without keys -----

  ghost predicate GlobalOk(ops: FloatOps, q: AggQuery, cells: seq<AggCell>, d: D.Dict, rows: seq<Row>)
    requires q.Valid()
  {
    && |cells| == |q.aggs| && SameWidth(rows, |q.types|)
    && forall a | 0 <= a < |q.aggs| :: GlobalCellOk(ops, q, cells[a], d, rows, a)
  }

  ghost predicate GlobalCellOk(ops: FloatOps, q: AggQuery, cell: AggCell, d: D.Dict, rows: seq<Row>, a: nat)
    requires q.Valid() && a < |q.aggs| && SameWidth(rows, |q.types|)
  {
    var spec := q.aggs[a];
    && CellIs(false, ops, spec.func, InputType(q.types, spec), cell, d, InputsOf(spec, rows))
    && Typed(InputType(q.types, spec), InputsOf(spec, rows))
  }

  lemma GlobalCellStable(ops: FloatOps, q: AggQuery, cell: AggCell, d: D.Dict, d': D.Dict, rows: seq<Row>, a: nat)
    requires q.Valid() && a < |q.aggs| && SameWidth(rows, |q.types|)
    requires GlobalCellOk(ops, q, cell, d, rows, a) && d <= d'
    ensures GlobalCellOk(ops, q, cell, d', rows, a)
  {
    var spec := q.aggs[a];
    CellStable(false, ops, spec.func, InputType(q.types, spec), cell, d, d', InputsOf(spec, rows));
  }

  /** Fold a batch into every aggregate's cell. */
  method FoldAll(ops: FloatOps, q: AggQuery, cells: seq<AggCell>, d: D.Dict, b: Batch, path: KernelPath, ghost rows: seq<Row>)
    returns (cells': seq<AggCell>, d': D.Dict)
    requires q.Valid() && q.TypesOk() && BatchFits(b, q.types) && b.rowCount > 0 && (path.Vector? ==> path.lanes >= 1)
    requires GlobalOk(ops, q, cells, d, rows)
    ensures d <= d' && |d'| <= |d| + Product(StrAggs(q.types, q.aggs), b.rowCount)
    ensures GlobalOk(ops, q, cells', d', rows + b.Rows())
  {
    hide GlobalCellOk, StrAggs, Batch.Valid, Product, SameWidth;
    ghost var rows' := rows + b.Rows();
    WiderRows(rows, b, q.types);
    cells', d' := [], d;
    NoAggs(q.types, q.aggs, b.rowCount);
    for a := 0 to |q.aggs|
      invariant |cells'| == a && d <= d' && |d'| <= |d| + Product(StrAggs(q.types, q.aggs[..a]), b.rowCount)
      invariant forall i | 0 <= i < a :: GlobalCellOk(ops, q, cells'[i], d', rows', i)
    {
      AggRoom(q.types, q.aggs, a, b.rowCount);
      GlobalCellStable(ops, q, cells[a], d, d', rows, a);
      var cell, d2 := FoldOne(ops, q, a, cells[a], d', b, path, rows);
      forall i | 0 <= i < a ensures GlobalCellOk(ops, q, cells'[i], d2, rows', i) {
        GlobalCellStable(ops, q, cells'[i], d', d2, rows', i);
      }
      cells', d' := cells' + [cell], d2;
    }
  }

  lemma WiderRows(rows: seq<Row>, b: Batch, types: seq<Type>)
    requires SameWidth(rows, |types|) && BatchFits(b, types)
    ensures SameWidth(rows + b.Rows(), |types|) && SameWidth(b.Rows(), |types|)
  {
  }

  method FoldOne(ops: FloatOps, q: AggQuery, a: nat, cell: AggCell, d: D.Dict, b: Batch, path: KernelPath, ghost rows: seq<Row>)
    returns (cell': AggCell, d': D.Dict)
    requires q.Valid() && q.TypesOk() && BatchFits(b, q.types) && b.rowCount > 0 && (path.Vector? ==> path.lanes >= 1)
    requires a < |q.aggs| && SameWidth(rows, |q.types|) && GlobalCellOk(ops, q, cell, d, rows, a)
    ensures d <= d' && |d'| <= |d| + (if StrExtreme(q.aggs[a], InputType(q.types, q.aggs[a])) then b.rowCount else 0)
    ensures SameWidth(rows + b.Rows(), |q.types|) && GlobalCellOk(ops, q, cell', d', rows + b.Rows(), a)
  {
    hide CellIs, Typed, InputsOf, Batch.Valid;
    var spec := q.aggs[a];
    WiderRows(rows, b, q.types);
    InputsConcat(spec, rows, b.Rows());
    cell', d' := FoldBatch(ops, spec, q.types, cell, d, b, path, InputsOf(spec, rows));
  }

  method DrainGlobal(ops: FloatOps, q: AggQuery, input: seq<Batch>, path: KernelPath)
    returns (cells: seq<AggCell>, d: D.Dict)
    requires InputOk(q, input) && q.TypesOk() && q.keys == [] && (path.Vector? ==> path.lanes >= 1)
    ensures |d| <= TWO_31 && GlobalOk(ops, q, cells, d, RowsOf(input))
  {
    hide Product, GlobalOk, Batch.Valid;
    cells, d := seq(|q.aggs|, a requires 0 <= a < |q.aggs| => InitCell(q.aggs[a].func)), [];
    NothingFolded(ops, q, cells);
    ghost var left: nat := |RowsOf(input)|;
    for i := 0 to |input|
      invariant |RowsOf(input[..i])| + left == |RowsOf(input)|
      invariant |d| + Product(StrAggs(q.types, q.aggs), left) <= TWO_31
      invariant GlobalOk(ops, q, cells, d, RowsOf(input[..i]))
    {
      hide RowsOf, StrAggs;
      NextBatch(input, q.types, i);
      left := left - input[i].rowCount;
      ProductSplit(StrAggs(q.types, q.aggs), input[i].rowCount, left);
      if input[i].rowCount == 0 {
        SkipEmpty(input, i);
        continue;
      }
      cells, d := FoldAll(ops, q, cells, d, input[i], path, RowsOf(input[..i]));
    }
    assert input[..|input|] == input;
  }

  lemma NothingFolded(ops: FloatOps, q: AggQuery, cells: seq<AggCell>)
    requires q.Valid() && |cells| == |q.aggs| && forall a | 0 <= a < |q.aggs| :: cells[a] == InitCell(q.aggs[a].func)
    ensures GlobalOk(ops, q, cells, [], [])
  {
    forall a | 0 <= a < |q.aggs| ensures GlobalCellOk(ops, q, cells[a], [], [], a) {
      FreshCell(false, ops, q.aggs[a].func, InputType(q.types, q.aggs[a]), []);
    }
  }

  /** The one row of a keyless aggregate. */
  method EmitGlobal(ops: FloatOps, q: AggQuery, cells: seq<AggCell>, d: D.Dict, ghost rows: seq<Row>) returns (out: Batch)
    requires q.Valid() && q.TypesOk() && q.keys == [] && GlobalOk(ops, q, cells, d, rows) && |rows| < TWO_63
    ensures BatchFits(out, q.OutTypes()) && out.rowCount == 1
    ensures SameWidth(rows, |q.types|) && GroupRowIs(false, ops, q, out.Rows()[0], [], rows)
  {
    hide GlobalCellOk, Finalize, OneCellOk;
    var cols: seq<Column> := [];
    for a := 0 to |q.aggs|
      invariant |cols| == a && forall i | 0 <= i < a :: OneCellOk(ops, q, cols[i], rows, i)
    {
      var t := InputType(q.types, q.aggs[a]);
      var v := Finalize(ops, q.aggs[a].func, t, cells[a]);
      GlobalReads(ops, q, cells[a], d, rows, a);
      var c := WriteColumn(ResultType(q.aggs[a].func, t).value, [v], d);
      OneCell(ops, q, c, d, rows, a, v);
      cols := cols + [c];
    }
    out := Batch(cols, None, 1);
    OneRow(ops, q, out, rows);
  }

  ghost predicate OneCellOk(ops: FloatOps, q: AggQuery, c: Column, rows: seq<Row>, a: nat)
    requires q.Valid() && q.TypesOk() && a < |q.aggs| && SameWidth(rows, |q.types|)
  {
    var spec := q.aggs[a];
    var t := InputType(q.types, spec);
    && c.Valid() && c.len == 1 && c.typ == ResultType(spec.func, t).value
    && AggIs(false, ops, spec.func, t, c.CellAt(0), InputsOf(spec, rows))
  }

  lemma GlobalReads(ops: FloatOps, q: AggQuery, cell: AggCell, d: D.Dict, rows: seq<Row>, a: nat)
    requires q.Valid() && q.TypesOk() && a < |q.aggs| && SameWidth(rows, |q.types|) && |rows| < TWO_63
    requires GlobalCellOk(ops, q, cell, d, rows, a)
    ensures var spec := q.aggs[a];
      var t := InputType(q.types, spec);
      var rt, v := ResultType(spec.func, t).value, Finalize(ops, spec.func, t, cell);
      ValueFits(rt, v, d) && AggIs(false, ops, spec.func, t, CellOf(rt, v, d), InputsOf(spec, rows))
  {
    hide CellIs, AggIs, Finalize, Holds;
    var spec := q.aggs[a];
    FinalizeIs(false, ops, spec.func, InputType(q.types, spec), cell, d, InputsOf(spec, rows));
  }

  lemma OneCell(ops: FloatOps, q: AggQuery, c: Column, d: D.Dict, rows: seq<Row>, a: nat, v: Option<int>)
    requires q.Valid() && q.TypesOk() && a < |q.aggs| && SameWidth(rows, |q.types|)
    requires var spec := q.aggs[a];
      var t := InputType(q.types, spec);
      var rt := ResultType(spec.func, t).value;
      && ValueFits(rt, v, d) && AggIs(false, ops, spec.func, t, CellOf(rt, v, d), InputsOf(spec, rows))
      && c.Valid() && c.typ == rt && c.len == 1 && forall k: nat | k < 1 :: c.CellAt(k) == CellOf(rt, [v][k], d)
    ensures OneCellOk(ops, q, c, rows, a)
  {
    hide AggIs, CellOf, Column.Valid, Column.CellAt, InputsOf;
  }

  lemma OneRow(ops: FloatOps, q: AggQuery, out: Batch, rows: seq<Row>)
    requires q.Valid() && q.TypesOk() && q.keys == [] && SameWidth(rows, |q.types|)
    requires |out.cols| == |q.aggs| && out.sel.None? && out.rowCount == 1
    requires forall a | 0 <= a < |q.aggs| :: OneCellOk(ops, q, out.cols[a], rows, a)
    ensures BatchFits(out, q.OutTypes()) && GroupRowIs(false, ops, q, out.Rows()[0], [], rows)
  {
    OneRowFits(ops, q, out, rows);
    hide AggIs, Column.Valid, Column.CellAt, InputsOf, ResultType, OneCellOk, AggQuery.TypesOk;
    var row := out.Rows()[0];
    assert row[..0] == [];
    forall a | 0 <= a < |q.aggs|
      ensures AggIs(false, ops, q.aggs[a].func, InputType(q.types, q.aggs[a]), row[a], InputsOf(q.aggs[a], rows))
    {
      OneCellIs(ops, q, out.cols[a], rows, a);
    }
  }

  lemma OneRowFits(ops: FloatOps, q: AggQuery, out: Batch, rows: seq<Row>)
    requires q.Valid() && q.TypesOk() && q.keys == [] && SameWidth(rows, |q.types|)
    requires |out.cols| == |q.aggs| && out.sel.None? && out.rowCount == 1
    requires forall a | 0 <= a < |q.aggs| :: OneCellOk(ops, q, out.cols[a], rows, a)
    ensures BatchFits(out, q.OutTypes())
  {
    hide AggIs, Column.Valid, InputsOf, ResultType, SameWidth;
    forall a | 0 <= a < |q.aggs| ensures out.cols[a].Valid() && out.cols[a].len == 1 && out.cols[a].typ == q.OutTypes()[a] {
      assert OneCellOk(ops, q, out.cols[a], rows, a);
    }
  }

  lemma OneCellIs(ops: FloatOps, q: AggQuery, c: Column, rows: seq<Row>, a: nat)
    requires q.Valid() && q.TypesOk() && a < |q.aggs| && SameWidth(rows, |q.types|) && OneCellOk(ops, q, c, rows, a)
    ensures c.Valid() && c.len == 1
    ensures AggIs(false, ops, q.aggs[a].func, InputType(q.types, q.aggs[a]), c.CellAt(0), InputsOf(q.aggs[a], rows))
  {
  }

  // ----- the operator -----

  /** Batch `b` holds groups `[from, to)`, as many as fit. */
  ghost predicate ChunkIs(ops: FloatOps, q: AggQuery, b: Batch, rows: seq<Row>, from: nat, to: nat)
    requires q.Valid() && q.TypesOk() && SameWidth(rows, |q.types|)
  {
    && from < to == Columns.Min(from + OUT_BATCH, |GroupKeys(rows, q.keys)|)
    && BatchFits(b, q.OutTypes()) && b.rowCount == to - from
    && forall k: nat | k < b.rowCount :: IsGroup(true, ops, q, b.Rows()[k], rows, from + k)
  }

  class Aggregate {
    const ops: FloatOps
    const q: AggQuery
    const input: seq<Batch>     // the child's batches
    const combine: Combine
    const seed: u64
    const path: KernelPath
    var isOpen: bool
    var ht: HashTable?
    var cellsGrp: seq<seq<AggCell>>
    var cellsGlobal: seq<AggCell>
    var strDict: D.Dict
    var emitCursor: nat
    var emittedGlobal: bool

    ghost predicate Valid()
      reads this, ht
    {
      && InputOk(q, input) && q.TypesOk() && (path.Vector? ==> path.lanes >= 1)
      && (isOpen ==>
            if q.keys == [] then GlobalOk(ops, q, cellsGlobal, strDict, RowsOf(input))
            else ht != null && Drained(ops, q, ht, cellsGrp, strDict, RowsOf(input)) && GroupsLeft())
    }

    /** The group ids still to be emitted. */
    ghost predicate GroupsLeft()
      requires InputOk(q, input)
      reads this
    {
      ConformingWidth(input, q.types);
      emitCursor <= |GroupKeys(RowsOf(input), q.keys)|
    }

    constructor (ops: FloatOps, q: AggQuery, input: seq<Batch>, combine: Combine, seed: u64, path: KernelPath)
      requires InputOk(q, input) && q.TypesOk() && (path.Vector? ==> path.lanes >= 1)
      ensures Valid() && !isOpen && this.ops == ops && this.q == q && this.input == input
    {
      this.ops, this.q, this.input, this.combine, this.seed, this.path := ops, q, input, combine, seed, path;
      isOpen, ht, cellsGrp, cellsGlobal, strDict, emitCursor, emittedGlobal := false, null, [], [], [], 0, false;
    }

    /** Drain the child; fails only when the group ids run out. */
    method Open() returns (ok: bool)
      requires Valid() && !isOpen
      modifies this
      ensures Valid() && isOpen == ok && (ok && ht != null ==> fresh(ht))
      ensures ok ==> emitCursor == 0 && !emittedGlobal
      ensures !ok ==> |RowsOf(input)| > NO_GROUP
    {
      hide InputOk, Drained, GlobalOk, RowsOf, GroupKeys;
      ok := true;
      if q.keys == [] {
        ht := null;
        cellsGlobal, strDict := DrainGlobal(ops, q, input, path);
      } else {
        var table;
        table, cellsGrp, strDict, ok := DrainGrouped(ops, q, input, combine, seed);
        ht := table;
      }
      isOpen, emitCursor, emittedGlobal := ok, 0, false;
    }

    /** The next groups, at most `OUT_BATCH`, in first-seen order. */
    method NextGroups() returns (r: Option<Batch>)
      requires Valid() && isOpen && q.keys != []
      modifies this`emitCursor
      ensures Valid() && SameWidth(RowsOf(input), |q.types|)
      ensures r.None? ==> emitCursor == old(emitCursor) == |GroupKeys(RowsOf(input), q.keys)|
      ensures r.Some? ==> ChunkIs(ops, q, r.value, RowsOf(input), old(emitCursor), emitCursor)
    {
      hide Drained, RowsOf, GroupKeys, IsGroup, Batch.Valid;
      ConformingWidth(input, q.types);
      ghost var rows := RowsOf(input);
      DrainedGroups(ops, q, ht, cellsGrp, strDict, rows);
      var groups := ht.NumGroups();
      if emitCursor >= groups { return None; }
      var m := Columns.Min(OUT_BATCH, groups - emitCursor);
      var out := EmitGroups(ops, q, ht, cellsGrp, strDict, emitCursor, m, rows);
      emitCursor := emitCursor + m;
      r := Some(out);
    }

    /** The one row of a keyless aggregate, once. */
    method NextGlobal() returns (r: Option<Batch>)
      requires Valid() && isOpen && q.keys == []
      modifies this`emittedGlobal
      ensures Valid() && SameWidth(RowsOf(input), |q.types|)
      ensures emittedGlobal && (r.None? <==> old(emittedGlobal))
      ensures r.Some? ==>
        && BatchFits(r.value, q.OutTypes()) && r.value.rowCount == 1
        && GroupRowIs(false, ops, q, r.value.Rows()[0], [], RowsOf(input))
    {
      hide GlobalOk, RowsOf, GroupRowIs, Batch.Valid;
      ConformingWidth(input, q.types);
      if emittedGlobal { return None; }
      emittedGlobal := true;
      var out := EmitGlobal(ops, q, cellsGlobal, strDict, RowsOf(input));
      r := Some(out);
    }
  }

  /** `out` is what the aggregate promises of the rows: one row a group, or one row in all. */
  ghost predicate AggregateIs(ops: FloatOps, q: AggQuery, out: seq<Row>, rows: seq<Row>)
    requires q.Valid() && SameWidth(rows, |q.types|)
  {
    if q.keys == [] then |out| == 1 && GroupRowIs(false, ops, q, out[0], [], rows)
    else GroupByIs(true, ops, q, out, rows)
  }

  /** Rows `out` are the groups before `n`. */
  ghost predicate GroupsOut(ops: FloatOps, q: AggQuery, out: seq<Row>, rows: seq<Row>, n: nat)
    requires q.Valid() && SameWidth(rows, |q.types|)
  {
    && n <= |GroupKeys(rows, q.keys)| && |out| == n
    && forall g: nat | g < n :: IsGroup(true, ops, q, out[g], rows, g)
  }

  lemma MoreGroups(ops: FloatOps, q: AggQuery, out: seq<Batch>, rows: seq<Row>, b: Batch, from: nat, to: nat)
    requires q.Valid() && q.TypesOk() && SameWidth(rows, |q.types|) && Conforms(out, q.OutTypes())
    requires GroupsOut(ops, q, RowsOf(out), rows, from) && ChunkIs(ops, q, b, rows, from, to)
    ensures Conforms(out + [b], q.OutTypes()) && GroupsOut(ops, q, RowsOf(out + [b]), rows, to)
    ensures Chunked(out) ==> Chunked(out + [b])
    ensures from < to <= |GroupKeys(rows, q.keys)|
  {
    hide IsGroup, GroupKeys, Batch.Valid;
    assert (out + [b])[..|out|] == out;
    forall g: nat | g < to ensures IsGroup(true, ops, q, RowsOf(out + [b])[g], rows, g) {
      if g >= from {
        var k: nat := g - from;
        assert IsGroup(true, ops, q, b.Rows()[k], rows, from + k);
      }
    }
  }

  /** Batches of the emitted size: never empty, never more than `OUT_BATCH` rows. */
  ghost predicate Chunked(out: seq<Batch>) { forall i | 0 <= i < |out| :: 1 <= out[i].rowCount <= OUT_BATCH }

  /** Drain an open grouped aggregate. */
  method DrainGroups(agg: Aggregate) returns (out: seq<Batch>)
    requires agg.Valid() && agg.isOpen && agg.q.keys != [] && agg.emitCursor == 0
    modifies agg
    ensures SameWidth(RowsOf(agg.input), |agg.q.types|)
    ensures Conforms(out, agg.q.OutTypes()) && Chunked(out)
    ensures AggregateIs(agg.ops, agg.q, RowsOf(out), RowsOf(agg.input))
  {
    ConformingWidth(agg.input, agg.q.types);
    ghost var rows, n := RowsOf(agg.input), |GroupKeys(RowsOf(agg.input), agg.q.keys)|;
    hide Aggregate.Valid, GroupsOut, Chunked, Batch.Valid, GroupKeys, Batch.Rows, RowsOf, AggregateIs, ChunkIs;
    NoGroupsYet(agg.ops, agg.q, rows);
    out := [];
    while true
      invariant agg.Valid() && agg.isOpen && agg.ht == old(agg.ht) && agg.emitCursor <= n
      invariant Conforms(out, agg.q.OutTypes()) && Chunked(out)
      invariant GroupsOut(agg.ops, agg.q, RowsOf(out), rows, agg.emitCursor)
      decreases n - agg.emitCursor
    {
      ghost var at := agg.emitCursor;
      var b := agg.NextGroups();
      if b.None? { break; }
      MoreGroups(agg.ops, agg.q, out, rows, b.value, at, agg.emitCursor);
      out := out + [b.value];
    }
    AllGroups(agg.ops, agg.q, RowsOf(out), rows);
  }

  lemma NoGroupsYet(ops: FloatOps, q: AggQuery, rows: seq<Row>)
    requires q.Valid() && SameWidth(rows, |q.types|)
    ensures GroupsOut(ops, q, RowsOf([]), rows, 0) && Chunked([])
  {
  }

  lemma AllGroups(ops: FloatOps, q: AggQuery, out: seq<Row>, rows: seq<Row>)
    requires q.Valid() && q.keys != [] && SameWidth(rows, |q.types|)
    requires GroupsOut(ops, q, out, rows, |GroupKeys(rows, q.keys)|)
    ensures AggregateIs(ops, q, out, rows)
  {
    hide GroupRowIs, GroupKeys, Members;
    forall g | 0 <= g < |out|
      ensures var key := GroupKeys(rows, q.keys)[g];
        GroupRowIs(true, ops, q, out[g], key, Members(rows, q.keys, key))
    {
      assert IsGroup(true, ops, q, out[g], rows, g);
    }
  }

  datatype AggResult = Batches(batches: seq<Batch>) | BadTypes | OutOfGroups

  /**
   Run a whole aggregate. The result depends on the input's rows alone, however they are
   cut into batches; without keys there is always exactly one row.
   */
  method AggregateAll(ops: FloatOps, q: AggQuery, input: seq<Batch>, combine: Combine, seed: u64, path: KernelPath)
    returns (r: AggResult)
    requires InputOk(q, input) && (path.Vector? ==> path.lanes >= 1)
    ensures SameWidth(RowsOf(input), |q.types|)
    ensures r.BadTypes? <==> !q.TypesOk()
    ensures r.BadTypes? <==> exists a: nat :: AddsStrings(q, a)
    ensures r.OutOfGroups? ==> |RowsOf(input)| > NO_GROUP
    ensures r.Batches? ==>
      && Conforms(r.batches, q.OutTypes()) && ResultTypes(q, q.OutTypes())
      && Chunked(r.batches)
      && AggregateIs(ops, q, RowsOf(r.batches), RowsOf(input))
      && IsResult(ops, q, RowsOf(input), RowsOf(r.batches))
  {
    ConformingWidth(input, q.types);
    RefusedIff(q);
    if !q.TypesOk() { return BadTypes; }
    hide InputOk, Aggregate.Valid, AggregateIs, Batch.Valid, IsResult, AddsStrings, ResultTypes;
    var agg := new Aggregate(ops, q, input, combine, seed, path);
    var ok := agg.Open();
    if !ok { return OutOfGroups; }
    if q.keys == [] {
      var b := agg.NextGlobal();
      OneBatch(ops, q, b.value, RowsOf(input));
      r := Batches([b.value]);
    } else {
      var out := DrainGroups(agg);
      r := Batches(out);
    }
    OutTypesAre(q);
    AggregateMeans(ops, q, RowsOf(r.batches), RowsOf(input));
  }

  lemma AggregateMeans(ops: FloatOps, q: AggQuery, out: seq<Row>, rows: seq<Row>)
    requires q.Valid() && SameWidth(rows, |q.types|) && AggregateIs(ops, q, out, rows)
    ensures IsResult(ops, q, rows, out)
  {
    ResultMeans(ops, q, rows, out);
  }

  lemma OneBatch(ops: FloatOps, q: AggQuery, b: Batch, rows: seq<Row>)
    requires q.Valid() && q.TypesOk() && q.keys == [] && SameWidth(rows, |q.types|)
    requires BatchFits(b, q.OutTypes()) && b.rowCount == 1 && GroupRowIs(false, ops, q, b.Rows()[0], [], rows)
    ensures Conforms([b], q.OutTypes()) && Chunked([b]) && AggregateIs(ops, q, RowsOf([b]), rows)
  {
    assert [b][..0] == [];
    assert RowsOf([b]) == b.Rows();
  }

  /** Two results for the same rows agree: same keys in the same order, and the same values up to ties. */
  lemma ResultUnique(ops: FloatOps, q: AggQuery, rows: seq<Row>, x: seq<Row>, y: seq<Row>, g: nat, a: nat)
    requires q.Valid() && q.keys != [] && SameWidth(rows, |q.types|) && a < |q.aggs|
    requires AggregateIs(ops, q, x, rows) && AggregateIs(ops, q, y, rows) && g < |x|
    ensures |x| == |y| && |x[g]| == |y[g]| == |q.keys| + |q.aggs| && x[g][..|q.keys|] == y[g][..|q.keys|]
    ensures var u, v := x[g][|q.keys| + a], y[g][|q.keys| + a];
      if q.aggs[a].func.Min? || q.aggs[a].func.Max? then SortOrders.ValueCmp(u, v) == 0 else u == v
  {
    hide AggIs, GroupKeys, Members, InputsOf, SortOrders.ValueCmp;
    var spec, key := q.aggs[a], GroupKeys(rows, q.keys)[g];
    var m := Members(rows, q.keys, key);
    AggIsUnique(true, ops, spec.func, InputType(q.types, spec), x[g][|q.keys| + a], y[g][|q.keys| + a], InputsOf(spec, m));
  }
}
