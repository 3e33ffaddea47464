/**
 The Aggregate operator: drain the child once, one accumulator cell per aggregate and
 group, then emit the groups in id order.

 Grouped, rows are scattered into the cells of their group. With no key columns the
 input is one group, reduced batch by batch through the bulk kernels.
 */
module Aggregates {
  import opened Words
  import opened Columns
  import opened GroupIds
  import opened KeyRows
  import opened HashTables
  import opened KeyCodes
  import opened KeyedInputs
  import opened AggMeaning
  import opened AggMerge
  import opened GroupBy
  import AggKernels
  import SortOrders
  import D = StringDicts
  import F64

  // ----- the grouped scatter -----

  /** The cells of one aggregate, one per group, are true of their groups. */
  ghost predicate ColumnOk(ops: FloatOps, spec: AggSpec, t: Type, cells: seq<AggCell>, d: D.Dict,
                           rows: seq<Row>, ids: seq<nat>, width: nat)
  {
    && SameWidth(rows, width) && |ids| == |rows| && (spec.func.CountStar? || spec.col < width)
    && forall g: nat | g < |cells| ::
         CellIs(true, ops, spec.func, t, cells[g], d, InputsOf(spec, Select(rows, ids, g)))
  }

  lemma {:induction false} SelectNone(rows: seq<Row>, ids: seq<nat>, g: nat)
    requires |ids| == |rows| && forall r | 0 <= r < |ids| :: ids[r] < g
    ensures Select(rows, ids, g) == []
  {
    if rows != [] { SelectNone(rows[..|rows| - 1], ids[..|ids| - 1], g); }
  }

  /** New groups start with fresh cells. */
  lemma FreshCells(ops: FloatOps, spec: AggSpec, t: Type, cells: seq<AggCell>, d: D.Dict,
                   rows: seq<Row>, ids: seq<nat>, width: nat, n: nat)
    requires ColumnOk(ops, spec, t, cells, d, rows, ids, width)
    requires forall r | 0 <= r < |ids| :: ids[r] < |cells|
    ensures ColumnOk(ops, spec, t, cells + seq(n, _ => InitCell(spec.func)), d, rows, ids, width)
  {
    hide CellIs;
    var all := cells + seq(n, _ => InitCell(spec.func));
    forall g: nat | g < |all|
      ensures CellIs(true, ops, spec.func, t, all[g], d, InputsOf(spec, Select(rows, ids, g)))
    {
      if g >= |cells| {
        SelectNone(rows, ids, g);
        FreshCell(true, ops, spec.func, t, d);
      }
    }
  }

  lemma ColumnStable(ops: FloatOps, spec: AggSpec, t: Type, cells: seq<AggCell>, d: D.Dict, d': D.Dict,
                     rows: seq<Row>, ids: seq<nat>, width: nat)
    requires ColumnOk(ops, spec, t, cells, d, rows, ids, width) && d <= d'
    ensures ColumnOk(ops, spec, t, cells, d', rows, ids, width)
  {
    hide CellIs;
    forall g: nat | g < |cells|
      ensures CellIs(true, ops, spec.func, t, cells[g], d', InputsOf(spec, Select(rows, ids, g)))
    {
      CellStable(true, ops, spec.func, t, cells[g], d, d', InputsOf(spec, Select(rows, ids, g)));
    }
  }

  predicate StrExtreme(spec: AggSpec, t: Type) { t.STR? && (spec.func.Min? || spec.func.Max?) }

  /** Fold one value into one cell. */
  method FoldValue(ops: FloatOps, spec: AggSpec, t: Type, cell: AggCell, v: Cell, d: D.Dict, ghost strict: bool,
                   ghost vals: seq<Cell>)
    returns (cell': AggCell, d': D.Dict)
    requires Holds(t, v) && ResultType(spec.func, t).Some?
    requires CellIs(strict, ops, spec.func, t, cell, d, vals)
    ensures d <= d' && |d'| <= |d| + (if StrExtreme(spec, t) then 1 else 0)
    ensures CellIs(strict, ops, spec.func, t, cell', d', vals + [v])
  {
    hide Scatter;
    if StrExtreme(spec, t) && v.Str? {
      ScatterStrKeeps(strict, ops, spec.func, cell, d, vals, v.s);
      var r := ScatterStr(spec.func, cell, v.s, d);
      cell', d' := r.0, r.1;
    } else {
      ScatterKeeps(strict, ops, spec.func, t, cell, d, vals, v);
      cell', d' := Scatter(ops, spec.func, cell, v), d;
    }
  }

  /** A row joins a group: only that group's cell changes. */
  lemma ScatterOne(ops: FloatOps, spec: AggSpec, t: Type, cells: seq<AggCell>, d: D.Dict, d': D.Dict, rows: seq<Row>,
                   ids: seq<nat>, width: nat, row: Row, g: nat, cell': AggCell)
    requires ColumnOk(ops, spec, t, cells, d, rows, ids, width) && d <= d' && |row| == width && g < |cells|
    requires CellIs(true, ops, spec.func, t, cell', d', InputsOf(spec, Select(rows, ids, g)) + [InputOf(spec, row)])
    ensures ColumnOk(ops, spec, t, cells[g := cell'], d', rows + [row], ids + [g], width)
  {
    hide CellIs, InputOf, InputsOf, Select;
    ColumnStable(ops, spec, t, cells, d, d', rows, ids, width);
    WidthSnoc(rows, row, width);
    forall h: nat | h < |cells|
      ensures CellIs(true, ops, spec.func, t, cells[g := cell'][h], d', InputsOf(spec, Select(rows + [row], ids + [g], h)))
    {
      SelectNext(rows, ids, row, g, h);
      if h == g {
        InputsSnoc(spec, Select(rows, ids, g), row);
      } else {
        NothingAdded(Select(rows, ids, h));
      }
    }
  }

  lemma WidthSnoc(rows: seq<Row>, row: Row, width: nat)
    requires SameWidth(rows, width) && |row| == width
    ensures SameWidth(rows + [row], width)
  {
  }

  lemma NothingAdded(rows: seq<Row>)
    ensures rows + [] == rows
  {
  }

  lemma InputsSnoc(spec: AggSpec, rows: seq<Row>, row: Row)
    requires forall r | 0 <= r < |rows| :: spec.func.CountStar? || spec.col < |rows[r]|
    requires spec.func.CountStar? || spec.col < |row|
    ensures InputsOf(spec, rows + [row]) == InputsOf(spec, rows) + [InputOf(spec, row)]
  {
  }

  /** The value logical row `k` feeds to an aggregate. */
  function ReadInput(spec: AggSpec, b: Batch, k: nat): (v: Cell)
    requires b.Valid() && k < b.rowCount && (spec.func.CountStar? || spec.col < |b.cols|)
    ensures v == InputOf(spec, b.Rows()[k])
  {
    if spec.func.CountStar? then Null else b.cols[spec.col].CellAt(b.SelAt(k))
  }

  lemma InputHolds(spec: AggSpec, b: Batch, types: seq<Type>, k: nat)
    requires BatchFits(b, types) && k < b.rowCount && (spec.func.CountStar? || spec.col < |types|)
    ensures Holds(InputType(types, spec), ReadInput(spec, b, k))
  {
    if !spec.func.CountStar? { CellHolds(b.cols[spec.col], b.SelAt(k)); }
  }

  /** Scatter one column of a batch into the cells of its rows' groups. */
  method ScatterColumn(ops: FloatOps, spec: AggSpec, types: seq<Type>, cells: seq<AggCell>, d: D.Dict, b: Batch,
                       gids: seq<nat>, ghost rows: seq<Row>, ghost ids: seq<nat>)
    returns (cells': seq<AggCell>, d': D.Dict)
    requires BatchFits(b, types) && |gids| == b.rowCount && (forall k | 0 <= k < |gids| :: gids[k] < |cells|)
    requires spec.func.CountStar? || spec.col < |types|
    requires ResultType(spec.func, InputType(types, spec)).Some?
    requires ColumnOk(ops, spec, InputType(types, spec), cells, d, rows, ids, |types|)
    ensures d <= d' && |cells'| == |cells|
    ensures |d'| <= |d| + (if StrExtreme(spec, InputType(types, spec)) then b.rowCount else 0)
    ensures ColumnOk(ops, spec, InputType(types, spec), cells', d', rows + b.Rows(), ids + gids, |types|)
  {
    hide ColumnOk, CellIs, Column.Valid, Batch.Valid;
    var t := InputType(types, spec);
    cells', d' := cells, d;
    ghost var add := b.Rows();
    PrefixEnds(rows, add);
    PrefixEnds(ids, gids);
    for k := 0 to b.rowCount
      invariant |cells'| == |cells| && d <= d' && |d'| <= |d| + (if StrExtreme(spec, t) then k else 0)
      invariant ColumnOk(ops, spec, t, cells', d', rows + add[..k], ids + gids[..k], |types|)
    {
      var g := gids[k];
      InputHolds(spec, b, types, k);
      var v := ReadInput(spec, b, k);
      ghost var before := GroupCell(ops, spec, t, cells', d', rows + add[..k], ids + gids[..k], |types|, g);
      var cell, d2 := FoldValue(ops, spec, t, cells'[g], v, d', true, before);
      ScatterOne(ops, spec, t, cells', d', d2, rows + add[..k], ids + gids[..k], |types|, add[k], g, cell);
      PrefixNext(rows, add, k);
      PrefixNext(ids, gids, k);
      cells', d' := cells'[g := cell], d2;
    }
  }

  lemma GroupCell(ops: FloatOps, spec: AggSpec, t: Type, cells: seq<AggCell>, d: D.Dict, rows: seq<Row>, ids: seq<nat>,
                  width: nat, g: nat) returns (vals: seq<Cell>)
    requires ColumnOk(ops, spec, t, cells, d, rows, ids, width) && g < |cells|
    ensures SameWidth(rows, width) && |ids| == |rows| && (spec.func.CountStar? || spec.col < width)
    ensures vals == InputsOf(spec, Select(rows, ids, g)) && CellIs(true, ops, spec.func, t, cells[g], d, vals)
  {
    hide CellIs;
    vals := InputsOf(spec, Select(rows, ids, g));
  }

  lemma PrefixEnds<T>(done: seq<T>, add: seq<T>)
    ensures done + add[..0] == done && done + add[..|add|] == done + add
  {
  }

  lemma PrefixNext<T>(done: seq<T>, add: seq<T>, k: nat)
    requires k < |add|
    ensures done + add[..k] + [add[k]] == done + add[..k + 1]
  {
  }

  // ----- all the aggregates of a query -----

  /** Every aggregate's cells are true of the groups. */
  ghost predicate AllOk(ops: FloatOps, q: AggQuery, cells: seq<seq<AggCell>>, d: D.Dict, rows: seq<Row>, ids: seq<nat>,
                        groups: nat)
    requires q.Valid()
  {
    && |cells| == |q.aggs|
    && forall a | 0 <= a < |q.aggs| ::
         |cells[a]| == groups && ColumnOk(ops, q.aggs[a], InputType(q.types, q.aggs[a]), cells[a], d, rows, ids, |q.types|)
  }

  /** How many aggregates keep strings. */
  function StrAggs(types: seq<Type>, aggs: seq<AggSpec>): (n: nat)
    requires forall a | 0 <= a < |aggs| :: aggs[a].func.CountStar? || aggs[a].col < |types|
    ensures n <= |aggs|
  {
    if aggs == [] then 0
    else
      var last := aggs[|aggs| - 1];
      StrAggs(types, aggs[..|aggs| - 1]) + (if StrExtreme(last, InputType(types, last)) then 1 else 0)
  }

  lemma StrAggsNext(types: seq<Type>, aggs: seq<AggSpec>, a: nat)
    requires a < |aggs| && forall i | 0 <= i < |aggs| :: aggs[i].func.CountStar? || aggs[i].col < |types|
    ensures StrAggs(types, aggs[..a + 1])
         == StrAggs(types, aggs[..a]) + (if StrExtreme(aggs[a], InputType(types, aggs[a])) then 1 else 0)
  {
    assert aggs[..a + 1][..a] == aggs[..a];
  }

  lemma AggRoom(types: seq<Type>, aggs: seq<AggSpec>, a: nat, n: nat)
    requires a < |aggs| && forall i | 0 <= i < |aggs| :: aggs[i].func.CountStar? || aggs[i].col < |types|
    ensures Product(StrAggs(types, aggs[..a + 1]), n)
         == Product(StrAggs(types, aggs[..a]), n) + (if StrExtreme(aggs[a], InputType(types, aggs[a])) then n else 0)
  {
    StrAggsNext(types, aggs, a);
    hide StrAggs, Product;
    var bit := if StrExtreme(aggs[a], InputType(types, aggs[a])) then 1 else 0;
    Distribute(StrAggs(types, aggs[..a]), bit, n);
    OneOrNone(bit, n);
  }

  /** The cells of a new group are fresh in every aggregate. */
  method AddGroups(ops: FloatOps, q: AggQuery, cells: seq<seq<AggCell>>, ghost d: D.Dict, ghost rows: seq<Row>,
                   ghost ids: seq<nat>, groups: nat, groups': nat)
    returns (cells': seq<seq<AggCell>>)
    requires q.Valid() && groups <= groups' && AllOk(ops, q, cells, d, rows, ids, groups)
    requires forall r | 0 <= r < |ids| :: ids[r] < groups
    ensures AllOk(ops, q, cells', d, rows, ids, groups')
  {
    hide ColumnOk;
    cells' := [];
    for a := 0 to |q.aggs|
      invariant |cells'| == a
      invariant forall i | 0 <= i < a ::
        |cells'[i]| == groups'
        && ColumnOk(ops, q.aggs[i], InputType(q.types, q.aggs[i]), cells'[i], d, rows, ids, |q.types|)
    {
      var more := groups' - groups;
      FreshCells(ops, q.aggs[a], InputType(q.types, q.aggs[a]), cells[a], d, rows, ids, |q.types|, more);
      cells' := cells' + [cells[a] + seq(more, _ => InitCell(q.aggs[a].func))];
    }
  }

  /** Scatter a batch into every aggregate, one after another. */
  method ScatterAll(ops: FloatOps, q: AggQuery, cells: seq<seq<AggCell>>, d: D.Dict, b: Batch, gids: seq<nat>,
                    ghost rows: seq<Row>, ghost ids: seq<nat>, ghost groups: nat)
    returns (cells': seq<seq<AggCell>>, d': D.Dict)
    requires q.Valid() && q.TypesOk() && BatchFits(b, q.types)
    requires |gids| == b.rowCount && forall k | 0 <= k < |gids| :: gids[k] < groups
    requires AllOk(ops, q, cells, d, rows, ids, groups)
    ensures d <= d' && |d'| <= |d| + Product(StrAggs(q.types, q.aggs), b.rowCount)
    ensures AllOk(ops, q, cells', d', rows + b.Rows(), ids + gids, groups)
  {
    hide ColumnOk, StrAggs, Batch.Valid, Product;
    cells', d' := [], d;
    ghost var rows', ids' := rows + b.Rows(), ids + gids;
    NoAggs(q.types, q.aggs, b.rowCount);
    for a := 0 to |q.aggs|
      invariant |cells'| == a && d <= d' && |d'| <= |d| + Product(StrAggs(q.types, q.aggs[..a]), b.rowCount)
      invariant forall i | 0 <= i < a ::
        |cells'[i]| == groups
        && ColumnOk(ops, q.aggs[i], InputType(q.types, q.aggs[i]), cells'[i], d', rows', ids', |q.types|)
    {
      var spec := q.aggs[a];
      var t := InputType(q.types, spec);
      AggRoom(q.types, q.aggs, a, b.rowCount);
      ColumnStable(ops, spec, t, cells[a], d, d', rows, ids, |q.types|);
      var column, d2 := ScatterColumn(ops, spec, q.types, cells[a], d', b, gids, rows, ids);
      forall i | 0 <= i < a
        ensures ColumnOk(ops, q.aggs[i], InputType(q.types, q.aggs[i]), cells'[i], d2, rows', ids', |q.types|)
      {
        ColumnStable(ops, q.aggs[i], InputType(q.types, q.aggs[i]), cells'[i], d', d2, rows', ids', |q.types|);
      }
      cells', d' := cells' + [column], d2;
    }
  }

  lemma NoAggs(types: seq<Type>, aggs: seq<AggSpec>, n: nat)
    requires forall a | 0 <= a < |aggs| :: aggs[a].func.CountStar? || aggs[a].col < |types|
    ensures Product(StrAggs(types, aggs[..0]), n) == 0 && aggs[..|aggs|] == aggs
  {
  }

  // ----- draining, grouped -----

  /** Strings interned per row: one for each string key and each string extremum. */
  function Interns(q: AggQuery): nat
    requires q.Valid()
  {
    StrKeys(q.types, q.keys) + StrAggs(q.types, q.aggs)
  }

  ghost predicate GroupedOk(ops: FloatOps, q: AggQuery, ht: HashTable, cells: seq<seq<AggCell>>, d: D.Dict, rows: seq<Row>)
    requires q.Valid()
    reads ht
  {
    && ht.policy.EqualNulls? && Fed(ht, q.types, q.keys, Same(d, |q.keys|), rows)
    && AllOk(ops, q, cells, d, rows, IdsOf(EqualNulls, q.types, q.keys, Same(d, |q.keys|), rows), |ht.Contents()|)
  }

  /** Take in one more batch. */
  method GroupBatch(ops: FloatOps, q: AggQuery, ht: HashTable, cells: seq<seq<AggCell>>, d: D.Dict, b: Batch,
                    ghost rows: seq<Row>)
    returns (cells': seq<seq<AggCell>>, d': D.Dict, ok: bool)
    requires q.Valid() && q.TypesOk() && q.keys != [] && BatchFits(b, q.types)
    requires GroupedOk(ops, q, ht, cells, d, rows)
    requires |d| + Product(Interns(q), b.rowCount) <= TWO_31
    modifies ht
    ensures |d'| <= |d| + Product(Interns(q), b.rowCount)
    ensures ok ==> GroupedOk(ops, q, ht, cells', d', rows + b.Rows())
    ensures !ok ==> |rows| + b.rowCount > NO_GROUP
  {
    ghost var was := IdsOf(EqualNulls, q.types, q.keys, Same(d, |q.keys|), rows);
    hide AllOk, AllKnown, TuplesOf, AssignAll, StrAggs, StrKeys, IdsOf, HashTable.Valid, Fed, Interns, GroupedOk, Product;
    InternsSplit(q, b.rowCount);
    GroupedParts(ops, q, ht, cells, d, rows);
    var groups := ht.NumGroups();
    var gids, d1;
    gids, d1, ok := InsertShared(ht, b, q.types, q.keys, d, rows);
    cells', d' := cells, d1;
    if !ok { return; }
    NewIdsBelow(q, ht, d1, rows + b.Rows(), was, gids);
    AllStable(ops, q, cells, d, d1, rows, was, groups);
    var groups' := ht.NumGroups();
    cells' := AddGroups(ops, q, cells, d1, rows, was, groups, groups');
    cells', d' := ScatterAll(ops, q, cells', d1, b, gids, rows, was, groups');
    FedStable(q, ht, d1, d', rows + b.Rows());
    GroupedWhole(ops, q, ht, cells', d', rows + b.Rows());
  }

  lemma InternsSplit(q: AggQuery, n: nat)
    requires q.Valid()
    ensures Product(Interns(q), n) == Product(StrKeys(q.types, q.keys), n) + Product(StrAggs(q.types, q.aggs), n)
  {
    hide StrKeys, StrAggs, Product;
    Distribute(StrKeys(q.types, q.keys), StrAggs(q.types, q.aggs), n);
  }

  lemma GroupedParts(ops: FloatOps, q: AggQuery, ht: HashTable, cells: seq<seq<AggCell>>, d: D.Dict, rows: seq<Row>)
    requires q.Valid() && GroupedOk(ops, q, ht, cells, d, rows)
    ensures ht.Valid() && ht.policy.EqualNulls? && Fed(ht, q.types, q.keys, Same(d, |q.keys|), rows)
    ensures KeysFit(q.types, q.keys) && AllKnown(q.types, q.keys, Same(d, |q.keys|), rows)
    ensures AllOk(ops, q, cells, d, rows, IdsOf(EqualNulls, q.types, q.keys, Same(d, |q.keys|), rows), |ht.Contents()|)
    ensures forall r | 0 <= r < |rows| ::
      IdsOf(EqualNulls, q.types, q.keys, Same(d, |q.keys|), rows)[r] < |ht.Contents()|
  {
    hide AllOk, AssignAll, TuplesOf;
  }

  lemma GroupedWhole(ops: FloatOps, q: AggQuery, ht: HashTable, cells: seq<seq<AggCell>>, d: D.Dict, rows: seq<Row>)
    requires q.Valid() && ht.policy.EqualNulls? && Fed(ht, q.types, q.keys, Same(d, |q.keys|), rows)
    requires ht.Valid()
    requires AllOk(ops, q, cells, d, rows, IdsOf(EqualNulls, q.types, q.keys, Same(d, |q.keys|), rows), |ht.Contents()|)
    ensures GroupedOk(ops, q, ht, cells, d, rows)
  {
    hide AllOk, AssignAll, TuplesOf, AllKnown, IdsOf;
  }

  lemma AllStable(ops: FloatOps, q: AggQuery, cells: seq<seq<AggCell>>, d: D.Dict, d': D.Dict, rows: seq<Row>,
                  ids: seq<nat>, groups: nat)
    requires q.Valid() && AllOk(ops, q, cells, d, rows, ids, groups) && d <= d'
    ensures AllOk(ops, q, cells, d', rows, ids, groups)
  {
    hide ColumnOk;
    forall a | 0 <= a < |q.aggs|
      ensures ColumnOk(ops, q.aggs[a], InputType(q.types, q.aggs[a]), cells[a], d', rows, ids, |q.types|)
    {
      ColumnStable(ops, q.aggs[a], InputType(q.types, q.aggs[a]), cells[a], d, d', rows, ids, |q.types|);
    }
  }

  lemma NewIdsBelow(q: AggQuery, ht: HashTable, d: D.Dict, rows: seq<Row>, before: seq<nat>, gids: seq<nat>)
    requires q.Valid() && ht.policy.EqualNulls? && Fed(ht, q.types, q.keys, Same(d, |q.keys|), rows)
    requires IdsOf(EqualNulls, q.types, q.keys, Same(d, |q.keys|), rows) == before + gids
    ensures ht.Valid() && forall k | 0 <= k < |gids| :: gids[k] < |ht.Contents()|
  {
    hide AllKnown, TuplesOf, AssignAll;
    var all := IdsOf(EqualNulls, q.types, q.keys, Same(d, |q.keys|), rows);
    forall k | 0 <= k < |gids| ensures gids[k] < |ht.Contents()| {
      assert all[|before| + k] == gids[k];
    }
  }

  lemma FedStable(q: AggQuery, ht: HashTable, d: D.Dict, d': D.Dict, rows: seq<Row>)
    requires q.Valid() && ht.policy.EqualNulls? && Fed(ht, q.types, q.keys, Same(d, |q.keys|), rows) && d <= d'
    ensures Fed(ht, q.types, q.keys, Same(d', |q.keys|), rows)
    ensures IdsOf(EqualNulls, q.types, q.keys, Same(d', |q.keys|), rows)
         == IdsOf(EqualNulls, q.types, q.keys, Same(d, |q.keys|), rows)
  {
    hide Known, TuplesOf, GroupsOf, IdsOf, HashTable.Valid;
    TuplesStable(q.types, q.keys, Same(d, |q.keys|), Same(d', |q.keys|), rows);
  }

  // ----- emission -----

  /** Write values, NULL where there is none, into a fresh column. */
  method WriteColumn(t: Type, vals: seq<Option<int>>, d: seq<string>) returns (c: Column)
    requires forall k | 0 <= k < |vals| :: ValueFits(t, vals[k], d)
    ensures c.Valid() && c.typ == t && c.len == |vals|
    ensures forall k: nat | k < |vals| :: c.CellAt(k) == CellOf(t, vals[k], d)
  {
    var out := new OwnedColumn.Make(t, |vals|);
    out.dict := d;
    var data := out.data;
    for k := 0 to |vals|
      invariant out.Valid() && out.Exact() && |data| == |vals| && out.dict == d
      invariant forall i: nat | i < |vals| :: BitmapValid(out.validity, i) == (i < k ==> vals[i].Some?)
      invariant forall i: nat | i < k && vals[i].Some? :: data[i] == vals[i].value
    {
      match vals[k]
      case None => out.SetNull(k);
      case Some(v) => data := data[k := v];
    }
    out.data := data;
    c := out.View();
  }

  /** Group `g` of the table, read back, is the `g`-th distinct key. */
  lemma GroupKeyReads(q: AggQuery, d: D.Dict, rows: seq<Row>, g: nat, j: nat)
    requires q.Valid() && AllKnown(q.types, q.keys, Same(d, |q.keys|), rows) && |d| <= TWO_31
    requires g < |GroupKeys(rows, q.keys)| && j < |q.keys|
    ensures var groups := GroupsOf(EqualNulls, q.types, q.keys, Same(d, |q.keys|), rows);
      && |groups| == |GroupKeys(rows, q.keys)| && |groups[g]| == |q.keys| == |GroupKeys(rows, q.keys)[g]|
      && ValueFits(q.types[q.keys[j]], KeyValue(q.types[q.keys[j]], groups[g][j]), d)
      && CellOf(q.types[q.keys[j]], KeyValue(q.types[q.keys[j]], groups[g][j]), d) == GroupKeys(rows, q.keys)[g][j]
  {
    hide Known, AssignAll, GroupKeys, KeyValue, WordOf;
    var dicts, kts := Same(d, |q.keys|), KeyTypes(q.types, q.keys);
    var groups, ks := GroupsOf(EqualNulls, q.types, q.keys, dicts, rows), TuplesOf(q.types, q.keys, dicts, rows);
    GroupsAreKeys(q.types, q.keys, dicts, rows);
    KeysComeFromRows(EqualNulls, ks);
    assert groups[g] in ks;
    var r :| 0 <= r < |rows| && ks[r] == groups[g];
    var cells := KeyCells(rows[r], q.keys);
    KnownCell(kts, dicts, cells, j);
    DecodeIsKey(kts[j], d, cells[j]);
    assert DecodedGroups(q.types, q.keys, dicts, groups)[g][j] == DecodeWord(kts[j], d, groups[g][j]);
  }

  lemma KnownCell(types: seq<Type>, dicts: seq<D.Dict>, cells: Row, j: nat)
    requires Known(types, dicts, cells) && j < |cells|
    ensures Holds(types[j], cells[j]) && (cells[j].Str? ==> cells[j].s in dicts[j])
  {
  }

  /** A cell of a group, finalized, is the aggregate over the rows of the group's key. */
  lemma GroupAggReads(ops: FloatOps, q: AggQuery, cells: seq<seq<AggCell>>, d: D.Dict, rows: seq<Row>, g: nat, a: nat)
    requires q.Valid() && q.TypesOk() && AllKnown(q.types, q.keys, Same(d, |q.keys|), rows) && |d| <= TWO_31
    requires |rows| < TWO_63 && RowsTyped(q.types, rows)
    requires g < |GroupKeys(rows, q.keys)| && a < |q.aggs|
    requires AllOk(ops, q, cells, d, rows, IdsOf(EqualNulls, q.types, q.keys, Same(d, |q.keys|), rows),
                   |GroupKeys(rows, q.keys)|)
    ensures
      var spec := q.aggs[a];
      var t := InputType(q.types, spec);
      var rt, v := ResultType(spec.func, t).value, Finalize(ops, spec.func, t, cells[a][g]);
      && ValueFits(rt, v, d)
      && AggIs(true, ops, spec.func, t, CellOf(rt, v, d), InputsOf(spec, Members(rows, q.keys, GroupKeys(rows, q.keys)[g])))
  {
    var ids := IdsOf(EqualNulls, q.types, q.keys, Same(d, |q.keys|), rows);
    var spec, key := q.aggs[a], GroupKeys(rows, q.keys)[g];
    var t := InputType(q.types, spec);
    hide AllKnown, IdsOf, CellIs, GroupKeys, RowKey, Finalize, ResultType, AggIs;
    forall r | 0 <= r < |rows| ensures ids[r] == g <==> RowKey(rows[r], q.keys) == key {
      IdIffKey(q.types, q.keys, Same(d, |q.keys|), rows, r, g);
    }
    SelectIsMembers(rows, ids, g, q.keys, key);
    var m := Members(rows, q.keys, key);
    InputsTyped(q.types, spec, rows, m);
    FinalizeIs(true, ops, spec.func, t, cells[a][g], d, InputsOf(spec, m));
  }

  /** Every row's values are of their columns' types. */
  ghost predicate RowsTyped(types: seq<Type>, rows: seq<Row>) {
    SameWidth(rows, |types|) && forall r, c | 0 <= r < |rows| && 0 <= c < |types| :: Holds(types[c], rows[r][c])
  }

  lemma InputsTyped(types: seq<Type>, spec: AggSpec, rows: seq<Row>, m: seq<Row>)
    requires RowsTyped(types, rows) && forall i | 0 <= i < |m| :: m[i] in rows
    requires spec.func.CountStar? || spec.col < |types|
    ensures SameWidth(m, |types|)
    ensures forall v | v in InputsOf(spec, m) :: Holds(InputType(types, spec), v)
  {
    hide Holds;
    forall i | 0 <= i < |m| ensures |m[i]| == |types| && Holds(InputType(types, spec), InputOf(spec, m[i])) {
      var r :| 0 <= r < |rows| && rows[r] == m[i];
      NullHolds(InputType(types, spec));
    }
  }

  lemma NullHolds(t: Type)
    ensures Holds(t, Null)
  {
  }

  /** Output row of group `g`. */
  ghost predicate IsGroup(strict: bool, ops: FloatOps, q: AggQuery, out: Row, rows: seq<Row>, g: nat)
    requires q.Valid() && SameWidth(rows, |q.types|) && g < |GroupKeys(rows, q.keys)|
  {
    var key := GroupKeys(rows, q.keys)[g];
    GroupRowIs(strict, ops, q, out, key, Members(rows, q.keys, key))
  }

  /** Row `k` of a key column that starts at group `from` is its group's key. */
  ghost predicate KeyCellOk(c: Column, k: nat, q: AggQuery, rows: seq<Row>, j: nat, from: nat)
    requires q.Valid() && SameWidth(rows, |q.types|) && j < |q.keys| && c.Valid() && k < c.len
  {
    var g := from + k;
    && g < |GroupKeys(rows, q.keys)| && |GroupKeys(rows, q.keys)[g]| == |q.keys|
    && c.CellAt(k) == GroupKeys(rows, q.keys)[g][j]
  }

  ghost predicate KeyColumnOk(c: Column, q: AggQuery, rows: seq<Row>, j: nat, from: nat, m: nat)
    requires q.Valid() && SameWidth(rows, |q.types|) && j < |q.keys|
  {
    && c.Valid() && c.typ == q.types[q.keys[j]] && c.len == m
    && forall k: nat | k < m :: KeyCellOk(c, k, q, rows, j, from)
  }

  /** Row `k` of an aggregate column that starts at group `from` is its group's aggregate. */
  ghost predicate AggCellOk(ops: FloatOps, c: Column, k: nat, q: AggQuery, rows: seq<Row>, a: nat, from: nat)
    requires q.Valid() && SameWidth(rows, |q.types|) && a < |q.aggs| && c.Valid() && k < c.len
  {
    var g := from + k;
    && g < |GroupKeys(rows, q.keys)|
    && AggIs(true, ops, q.aggs[a].func, InputType(q.types, q.aggs[a]), c.CellAt(k),
         InputsOf(q.aggs[a], Members(rows, q.keys, GroupKeys(rows, q.keys)[g])))
  }

  ghost predicate AggColumnOk(ops: FloatOps, c: Column, q: AggQuery, rows: seq<Row>, a: nat, from: nat, m: nat)
    requires q.Valid() && q.TypesOk() && SameWidth(rows, |q.types|) && a < |q.aggs|
  {
    && c.Valid() && c.typ == ResultType(q.aggs[a].func, InputType(q.types, q.aggs[a])).value && c.len == m
    && forall k: nat | k < m :: AggCellOk(ops, c, k, q, rows, a, from)
  }

  /** What a finished drain has: cells true of every group, and room in the codes and counters. */
  ghost predicate Drained(ops: FloatOps, q: AggQuery, ht: HashTable, cells: seq<seq<AggCell>>, d: D.Dict, rows: seq<Row>)
    requires q.Valid()
    reads ht
  {
    && GroupedOk(ops, q, ht, cells, d, rows) && q.TypesOk() && q.keys != []
    && |d| <= TWO_31 && |rows| < TWO_63 && RowsTyped(q.types, rows)
  }

  lemma DrainedGroups(ops: FloatOps, q: AggQuery, ht: HashTable, cells: seq<seq<AggCell>>, d: D.Dict, rows: seq<Row>)
    requires q.Valid() && Drained(ops, q, ht, cells, d, rows)
    ensures ht.Valid() && ht.ncols == |q.keys| && KeysFit(q.types, q.keys)
    ensures AllKnown(q.types, q.keys, Same(d, |q.keys|), rows)
    ensures ht.Contents() == GroupsOf(EqualNulls, q.types, q.keys, Same(d, |q.keys|), rows)
    ensures ht.NumGroups() == |GroupKeys(rows, q.keys)|
    ensures Wide(ht.Contents(), |q.keys|)
    ensures AllOk(ops, q, cells, d, rows, IdsOf(EqualNulls, q.types, q.keys, Same(d, |q.keys|), rows),
                  |GroupKeys(rows, q.keys)|)
  {
    GroupedParts(ops, q, ht, cells, d, rows);
    hide AllOk, AllKnown, AssignAll, TuplesOf, GroupKeys, HashTable.Contents;
    GroupsAreKeys(q.types, q.keys, Same(d, |q.keys|), rows);
  }

  ghost predicate KeyValueOk(q: AggQuery, d: D.Dict, rows: seq<Row>, j: nat, g: nat, v: Option<int>)
    requires q.Valid() && SameWidth(rows, |q.types|) && j < |q.keys| && g < |GroupKeys(rows, q.keys)|
  {
    && |GroupKeys(rows, q.keys)[g]| == |q.keys| && ValueFits(q.types[q.keys[j]], v, d)
    && CellOf(q.types[q.keys[j]], v, d) == GroupKeys(rows, q.keys)[g][j]
  }

  /** Read group `g`'s `j`-th key back from the table. */
  method ReadKey(ops: FloatOps, q: AggQuery, ht: HashTable, ghost cells: seq<seq<AggCell>>, ghost d: D.Dict, g: nat, j: nat,
                 ghost rows: seq<Row>)
    returns (v: Option<int>)
    requires q.Valid() && Drained(ops, q, ht, cells, d, rows) && j < |q.keys| && g < |GroupKeys(rows, q.keys)|
    ensures KeyValueOk(q, d, rows, j, g, v)
  {
    DrainedGroups(ops, q, ht, cells, d, rows);
    GroupKeyReads(q, d, rows, g, j);
    hide Drained, GroupKeys, AllKnown, GroupsOf, AllOk, HashTable.Valid, HashTable.Contents, IdsOf;
    var t := q.types[q.keys[j]];
    if ht.GroupIsNull(g, j) {
      v := None;
    } else {
      v := KeyValue(t, Some(ht.GroupKeyWord(g, j)));
    }
    assert v == KeyValue(t, ht.Contents()[g][j]);
  }

  method KeyColumn(ops: FloatOps, q: AggQuery, ht: HashTable, ghost cells: seq<seq<AggCell>>, d: D.Dict, from: nat, m: nat,
                   j: nat, ghost rows: seq<Row>)
    returns (c: Column)
    requires q.Valid() && Drained(ops, q, ht, cells, d, rows) && SameWidth(rows, |q.types|) && j < |q.keys|
    requires from + m <= |GroupKeys(rows, q.keys)|
    ensures KeyColumnOk(c, q, rows, j, from, m)
  {
    hide Drained, GroupKeys, KeyValue, KeyColumnOk;
    var vals: seq<Option<int>> := [];
    for k := 0 to m
      invariant |vals| == k && KeyValuesOk(q, d, rows, j, from, vals)
    {
      hide KeyValueOk, KeyValuesOk;
      var v := ReadKey(ops, q, ht, cells, d, from + k, j, rows);
      KeyValuesNext(q, d, rows, j, from, vals, v);
      vals := vals + [v];
    }
    KeyValuesFit(q, d, rows, j, from, vals);
    c := WriteColumn(q.types[q.keys[j]], vals, d);
    KeyColumnMade(c, q, d, rows, j, from, vals);
  }

  ghost predicate KeyValuesOk(q: AggQuery, d: D.Dict, rows: seq<Row>, j: nat, from: nat, vals: seq<Option<int>>)
    requires q.Valid() && SameWidth(rows, |q.types|) && j < |q.keys|
  {
    && from + |vals| <= |GroupKeys(rows, q.keys)|
    && forall i | 0 <= i < |vals| :: KeyValueOk(q, d, rows, j, from + i, vals[i])
  }

  lemma KeyValuesNext(q: AggQuery, d: D.Dict, rows: seq<Row>, j: nat, from: nat, vals: seq<Option<int>>, v: Option<int>)
    requires q.Valid() && SameWidth(rows, |q.types|) && j < |q.keys| && KeyValuesOk(q, d, rows, j, from, vals)
    requires from + |vals| < |GroupKeys(rows, q.keys)| && KeyValueOk(q, d, rows, j, from + |vals|, v)
    ensures KeyValuesOk(q, d, rows, j, from, vals + [v])
  {
    hide KeyValueOk, GroupKeys;
  }

  lemma KeyValuesFit(q: AggQuery, d: D.Dict, rows: seq<Row>, j: nat, from: nat, vals: seq<Option<int>>)
    requires q.Valid() && SameWidth(rows, |q.types|) && j < |q.keys| && KeyValuesOk(q, d, rows, j, from, vals)
    ensures forall i | 0 <= i < |vals| :: ValueFits(q.types[q.keys[j]], vals[i], d)
  {
    hide GroupKeys, ValueFits;
  }

  lemma KeyColumnMade(c: Column, q: AggQuery, d: D.Dict, rows: seq<Row>, j: nat, from: nat, vals: seq<Option<int>>)
    requires q.Valid() && SameWidth(rows, |q.types|) && j < |q.keys| && KeyValuesOk(q, d, rows, j, from, vals)
    requires c.Valid() && c.typ == q.types[q.keys[j]] && c.len == |vals|
    requires forall i | 0 <= i < |vals| :: ValueFits(q.types[q.keys[j]], vals[i], d)
    requires forall k: nat | k < |vals| :: c.CellAt(k) == CellOf(q.types[q.keys[j]], vals[k], d)
    ensures KeyColumnOk(c, q, rows, j, from, |vals|)
  {
    hide GroupKeys, ValueFits, CellOf, Column.Valid, Column.CellAt;
    forall k: nat | k < |vals| ensures KeyCellOk(c, k, q, rows, j, from) {
      assert KeyValueOk(q, d, rows, j, from + k, vals[k]);
    }
  }

  ghost predicate AggValueOk(ops: FloatOps, q: AggQuery, d: D.Dict, rows: seq<Row>, a: nat, g: nat, v: Option<int>)
    requires q.Valid() && q.TypesOk() && SameWidth(rows, |q.types|) && a < |q.aggs| && g < |GroupKeys(rows, q.keys)|
  {
    var spec := q.aggs[a];
    var t := InputType(q.types, spec);
    var rt := ResultType(spec.func, t).value;
    && ValueFits(rt, v, d)
    && AggIs(true, ops, spec.func, t, CellOf(rt, v, d), InputsOf(spec, Members(rows, q.keys, GroupKeys(rows, q.keys)[g])))
  }

  /** Finalize group `g`'s cell of aggregate `a`. */
  method ReadAgg(ops: FloatOps, q: AggQuery, ghost ht: HashTable, cells: seq<seq<AggCell>>, ghost d: D.Dict, g: nat, a: nat,
                 ghost rows: seq<Row>)
    returns (v: Option<int>)
    requires q.Valid() && Drained(ops, q, ht, cells, d, rows) && q.TypesOk() && SameWidth(rows, |q.types|)
    requires a < |q.aggs| && g < |GroupKeys(rows, q.keys)|
    ensures AggValueOk(ops, q, d, rows, a, g, v)
  {
    hide Drained, GroupKeys, AggValueOk, Finalize;
    CellsShape(ops, q, ht, cells, d, rows, a);
    DrainedAgg(ops, q, ht, cells, d, rows, g, a);
    v := Finalize(ops, q.aggs[a].func, InputType(q.types, q.aggs[a]), cells[a][g]);
  }

  method AggColumn(ops: FloatOps, q: AggQuery, ghost ht: HashTable, cells: seq<seq<AggCell>>, d: D.Dict, from: nat, m: nat,
                   a: nat, ghost rows: seq<Row>)
    returns (c: Column)
    requires q.Valid() && Drained(ops, q, ht, cells, d, rows) && q.TypesOk() && SameWidth(rows, |q.types|)
    requires a < |q.aggs| && from + m <= |GroupKeys(rows, q.keys)|
    ensures AggColumnOk(ops, c, q, rows, a, from, m)
  {
    hide Drained, GroupKeys, AggColumnOk, AggValueOk;
    var vals: seq<Option<int>> := [];
    for k := 0 to m
      invariant |vals| == k && AggValuesOk(ops, q, d, rows, a, from, vals)
    {
      hide AggValuesOk;
      var v := ReadAgg(ops, q, ht, cells, d, from + k, a, rows);
      AggValuesNext(ops, q, d, rows, a, from, vals, v);
      vals := vals + [v];
    }
    AggValuesFit(ops, q, d, rows, a, from, vals);
    c := WriteColumn(ResultType(q.aggs[a].func, InputType(q.types, q.aggs[a])).value, vals, d);
    AggColumnMade(ops, c, q, d, rows, a, from, vals);
  }

  ghost predicate AggValuesOk(ops: FloatOps, q: AggQuery, d: D.Dict, rows: seq<Row>, a: nat, from: nat, vals: seq<Option<int>>)
    requires q.Valid() && q.TypesOk() && SameWidth(rows, |q.types|) && a < |q.aggs|
  {
    && from + |vals| <= |GroupKeys(rows, q.keys)|
    && forall i | 0 <= i < |vals| :: AggValueOk(ops, q, d, rows, a, from + i, vals[i])
  }

  lemma AggValuesNext(ops: FloatOps, q: AggQuery, d: D.Dict, rows: seq<Row>, a: nat, from: nat, vals: seq<Option<int>>, v: Option<int>)
    requires q.Valid() && q.TypesOk() && SameWidth(rows, |q.types|) && a < |q.aggs|
    requires AggValuesOk(ops, q, d, rows, a, from, vals)
    requires from + |vals| < |GroupKeys(rows, q.keys)| && AggValueOk(ops, q, d, rows, a, from + |vals|, v)
    ensures AggValuesOk(ops, q, d, rows, a, from, vals + [v])
  {
    hide AggValueOk, GroupKeys;
  }

  lemma AggValuesFit(ops: FloatOps, q: AggQuery, d: D.Dict, rows: seq<Row>, a: nat, from: nat, vals: seq<Option<int>>)
    requires q.Valid() && q.TypesOk() && SameWidth(rows, |q.types|) && a < |q.aggs|
    requires AggValuesOk(ops, q, d, rows, a, from, vals)
    ensures forall i | 0 <= i < |vals| ::
      ValueFits(ResultType(q.aggs[a].func, InputType(q.types, q.aggs[a])).value, vals[i], d)
  {
    hide GroupKeys, ValueFits, AggIs, Members, InputsOf;
  }

  lemma AggColumnMade(ops: FloatOps, c: Column, q: AggQuery, d: D.Dict, rows: seq<Row>, a: nat, from: nat, vals: seq<Option<int>>)
    requires q.Valid() && q.TypesOk() && SameWidth(rows, |q.types|) && a < |q.aggs|
    requires AggValuesOk(ops, q, d, rows, a, from, vals)
    requires var rt := ResultType(q.aggs[a].func, InputType(q.types, q.aggs[a])).value;
      && c.Valid() && c.typ == rt && c.len == |vals|
      && (forall i | 0 <= i < |vals| :: ValueFits(rt, vals[i], d))
      && forall k: nat | k < |vals| :: c.CellAt(k) == CellOf(rt, vals[k], d)
    ensures AggColumnOk(ops, c, q, rows, a, from, |vals|)
  {
    hide GroupKeys, ValueFits, CellOf, Column.Valid, Column.CellAt, AggIs, Members, InputsOf;
    forall k: nat | k < |vals| ensures AggCellOk(ops, c, k, q, rows, a, from) {
      assert AggValueOk(ops, q, d, rows, a, from + k, vals[k]);
    }
  }

  lemma CellsShape(ops: FloatOps, q: AggQuery, ht: HashTable, cells: seq<seq<AggCell>>, d: D.Dict, rows: seq<Row>, a: nat)
    requires q.Valid() && Drained(ops, q, ht, cells, d, rows) && SameWidth(rows, |q.types|) && a < |q.aggs|
    ensures |cells| == |q.aggs| && |cells[a]| == |GroupKeys(rows, q.keys)|
  {
    DrainedGroups(ops, q, ht, cells, d, rows);
    hide GroupKeys, AllKnown, GroupsOf, ColumnOk, HashTable.Valid, HashTable.Contents, IdsOf, Drained;
  }

  lemma DrainedAgg(ops: FloatOps, q: AggQuery, ht: HashTable, cells: seq<seq<AggCell>>, d: D.Dict, rows: seq<Row>,
                   g: nat, a: nat)
    requires q.Valid() && Drained(ops, q, ht, cells, d, rows) && q.TypesOk() && SameWidth(rows, |q.types|)
    requires a < |q.aggs| && g < |GroupKeys(rows, q.keys)|
    requires |cells| == |q.aggs| && |cells[a]| == |GroupKeys(rows, q.keys)|
    ensures AggValueOk(ops, q, d, rows, a, g, Finalize(ops, q.aggs[a].func, InputType(q.types, q.aggs[a]), cells[a][g]))
  {
    DrainedGroups(ops, q, ht, cells, d, rows);
    hide GroupKeys, AllKnown, AllOk, Finalize, AggIs, HashTable.Valid, HashTable.Contents, IdsOf, Members, InputsOf;
    GroupAggReads(ops, q, cells, d, rows, g, a);
  }

  /** Emit groups `[from, from + m)` as one dense batch: the keys, then the aggregates. */
  method EmitGroups(ops: FloatOps, q: AggQuery, ht: HashTable, cells: seq<seq<AggCell>>, d: D.Dict, from: nat, m: nat,
                    ghost rows: seq<Row>)
    returns (out: Batch)
    requires q.Valid() && Drained(ops, q, ht, cells, d, rows) && q.TypesOk() && SameWidth(rows, |q.types|)
    requires from + m <= |GroupKeys(rows, q.keys)|
    ensures BatchFits(out, q.OutTypes()) && out.rowCount == m
    ensures forall k: nat | k < m :: IsGroup(true, ops, q, out.Rows()[k], rows, from + k)
  {
    hide Drained, KeyColumnOk, AggColumnOk, GroupKeys, IsGroup, SameWidth;
    var left: seq<Column> := [];
    for j := 0 to |q.keys|
      invariant |left| == j && forall i | 0 <= i < j :: KeyColumnOk(left[i], q, rows, i, from, m)
    {
      var c := KeyColumn(ops, q, ht, cells, d, from, m, j, rows);
      left := left + [c];
    }
    var right: seq<Column> := [];
    for a := 0 to |q.aggs|
      invariant |right| == a && forall i | 0 <= i < a :: AggColumnOk(ops, right[i], q, rows, i, from, m)
    {
      var c := AggColumn(ops, q, ht, cells, d, from, m, a, rows);
      right := right + [c];
    }
    out := Batch(left + right, None, m);
    EmittedFits(ops, q, out, left, right, from, m, rows);
    forall k: nat | k < m ensures IsGroup(true, ops, q, out.Rows()[k], rows, from + k) {
      EmittedGroup(ops, q, out, left, right, from, m, rows, k);
    }
  }

  lemma EmittedFits(ops: FloatOps, q: AggQuery, out: Batch, left: seq<Column>, right: seq<Column>, from: nat, m: nat, rows: seq<Row>)
    requires q.Valid() && q.TypesOk() && SameWidth(rows, |q.types|) && from + m <= |GroupKeys(rows, q.keys)|
    requires |left| == |q.keys| && |right| == |q.aggs| && out == Batch(left + right, None, m)
    requires forall i | 0 <= i < |left| :: KeyColumnOk(left[i], q, rows, i, from, m)
    requires forall i | 0 <= i < |right| :: AggColumnOk(ops, right[i], q, rows, i, from, m)
    ensures BatchFits(out, q.OutTypes())
  {
    hide Column.Valid, GroupKeys, AggIs, ResultType;
    var n := |left|;
    forall c | 0 <= c < |out.cols|
      ensures out.cols[c].Valid() && out.cols[c].len == m && out.cols[c].typ == q.OutTypes()[c]
    {
      if c < n { assert KeyColumnOk(left[c], q, rows, c, from, m); }
      else { assert AggColumnOk(ops, right[c - n], q, rows, c - n, from, m); }
    }
  }

  lemma EmittedGroup(ops: FloatOps, q: AggQuery, out: Batch, left: seq<Column>, right: seq<Column>, from: nat, m: nat,
                     rows: seq<Row>, k: nat)
    requires q.Valid() && q.TypesOk() && SameWidth(rows, |q.types|) && from + m <= |GroupKeys(rows, q.keys)|
    requires |left| == |q.keys| && |right| == |q.aggs| && out == Batch(left + right, None, m) && k < m
    requires forall i | 0 <= i < |left| :: KeyColumnOk(left[i], q, rows, i, from, m)
    requires forall i | 0 <= i < |right| :: AggColumnOk(ops, right[i], q, rows, i, from, m)
    requires BatchFits(out, q.OutTypes())
    ensures IsGroup(true, ops, q, out.Rows()[k], rows, from + k)
  {
    hide Column.Valid, Column.CellAt, GroupKeys, AggIs, ResultType, Members, InputsOf, InputType;
    var n, row, key := |left|, out.Rows()[k], GroupKeys(rows, q.keys)[from + k];
    GroupKeyWidth(rows, q.keys, from + k);
    forall j | 0 <= j < n ensures row[j] == key[j] {
      assert KeyColumnOk(left[j], q, rows, j, from, m) && KeyCellOk(left[j], k, q, rows, j, from);
      assert row[j] == left[j].CellAt(k);
    }
    assert row[..n] == key;
    forall a | 0 <= a < |q.aggs|
      ensures AggIs(true, ops, q.aggs[a].func, InputType(q.types, q.aggs[a]), row[n + a],
        InputsOf(q.aggs[a], Members(rows, q.keys, key)))
    {
      assert AggColumnOk(ops, right[a], q, rows, a, from, m) && AggCellOk(ops, right[a], k, q, rows, a, from);
      assert row[n + a] == right[a].CellAt(k);
    }
  }

  lemma GroupKeyWidth(rows: seq<Row>, keys: seq<nat>, g: nat)
    requires forall r, j | 0 <= r < |rows| && 0 <= j < |keys| :: keys[j] < |rows[r]|
    requires g < |GroupKeys(rows, keys)|
    ensures |GroupKeys(rows, keys)[g]| == |keys|
  {
    GroupKeysDistinct(rows, keys);
    assert GroupKeys(rows, keys)[g] in GroupKeys(rows, keys);
  }
}
