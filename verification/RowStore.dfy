/**
 Materialized rows: the dense, column-major copy that a pipeline breaker (sort, the
 build side of a join) drains its input into, and the gathers that read it back.

 String values are re-interned by value into a dictionary owned by the store, so
 codes agree across batches that carried different dictionaries. Row indices are
 unbounded here; `None` is the "no build row" sentinel of the joins.
 */
module RowStores {
  import opened Words
  import opened Columns
  import opened StringDicts

  datatype StoreColumn = StoreColumn(typ: Type, data: seq<int>, valid: seq<bool>, dict: Dict)
  {
    ghost predicate Valid() {
      && |data| == |valid|
      && forall r | 0 <= r < |data| && valid[r] ::
           InRange(typ, data[r]) && (typ.STR? ==> data[r] < |dict|)
    }

    function CellAt(r: nat): Cell
      requires Valid() && r < |data|
    {
      if !valid[r] then Null
      else match typ
        case STR => Str(dict[data[r]])
        case F64 => Flt(data[r])
        case _ => Num(data[r])
    }
  }

  /** Append physical row `p` of `col`. */
  method AppendValue(sc: StoreColumn, col: Column, p: nat) returns (sc': StoreColumn)
    requires sc.Valid() && col.Valid() && p < col.len && sc.typ == col.typ
    ensures sc'.Valid() && sc'.typ == sc.typ && |sc'.data| == |sc.data| + 1
    ensures forall r: nat | r < |sc.data| :: sc'.CellAt(r) == sc.CellAt(r)
    ensures sc'.CellAt(|sc.data|) == col.CellAt(p)
  {
    var v := col.IsValid(p);
    if sc.typ.STR? {
      var dict, canon := sc.dict, 0;
      if v {
        var r := InternIn(sc.dict, col.dict[col.data[p]]);
        dict, canon := r.0, r.1;
      }
      sc' := StoreColumn(sc.typ, sc.data + [canon], sc.valid + [v], dict);
    } else {
      sc' := StoreColumn(sc.typ, sc.data + [col.data[p]], sc.valid + [v], sc.dict);
    }
  }

  /**
   Gather rows `idx` of a store column into a fresh dense column, null where there is
   no row; the sentinel is redirected to row 0 before the gather, then masked.
   */
  method EmitStoreColumn(sc: StoreColumn, idx: seq<Option<nat>>) returns (out: Column)
    requires sc.Valid()
    requires forall k | 0 <= k < |idx| && idx[k].Some? :: idx[k].value < |sc.data|
    ensures out.Valid() && out.typ == sc.typ && out.len == |idx|
    ensures forall k: nat | k < |idx| ::
      out.CellAt(k) == if idx[k].Some? then sc.CellAt(idx[k].value) else Null
  {
    var m := |idx|;
    var oc := new OwnedColumn.Make(sc.typ, m);
    oc.dict := sc.dict;
    if |sc.data| != 0 {
      oc.data := seq(m, k requires 0 <= k < m => sc.data[if idx[k].Some? then idx[k].value else 0]);
    }
    ghost var data := oc.data;
    for k := 0 to m
      invariant oc.Valid() && oc.Exact() && oc.data == data && oc.dict == sc.dict
      invariant forall i: nat | i < m ::
        BitmapValid(oc.validity, i) == (i < k ==> idx[i].Some? && sc.valid[idx[i].value])
    {
      if idx[k].None? || !sc.valid[idx[k].value] { oc.SetNull(k); }
    }
    out := oc.View();
  }

  /** Gather physical rows `idx` of a batch column into a fresh dense column. */
  method EmitBatchColumn(src: Column, idx: seq<nat>) returns (out: Column)
    requires src.Valid() && forall k | 0 <= k < |idx| :: idx[k] < src.len
    ensures out.Valid() && out.typ == src.typ && out.len == |idx|
    ensures forall k: nat | k < |idx| :: out.CellAt(k) == src.CellAt(idx[k])
  {
    var m := |idx|;
    var oc := new OwnedColumn.Make(src.typ, m);
    oc.dict := src.dict;
    oc.data := seq(m, k requires 0 <= k < m => src.data[idx[k]]);
    ghost var data := oc.data;
    if !src.allValid {
      for k := 0 to m
        invariant oc.Valid() && oc.Exact() && oc.data == data && oc.dict == src.dict
        invariant forall i: nat | i < m :: BitmapValid(oc.validity, i) == (i < k ==> src.IsValid(idx[i]))
      {
        if !src.IsValid(idx[k]) { oc.SetNull(k); }
      }
    }
    out := oc.View();
  }

  class RowStore {
    const types: seq<Type>
    var cols: seq<StoreColumn>
    var nrows: nat

    ghost predicate Valid()
      reads this
    {
      && |cols| == |types|
      && forall c | 0 <= c < |cols| ::
           cols[c].Valid() && cols[c].typ == types[c] && |cols[c].data| == nrows
    }

    /** Every row appended so far. */
    function Rows(): (r: seq<Row>)
      requires Valid()
      reads this
      ensures |r| == nrows
    {
      StoredRows(cols, nrows)
    }

    constructor (types: seq<Type>)
      ensures Valid() && nrows == 0 && this.types == types
    {
      this.types := types;
      cols := seq(|types|, c requires 0 <= c < |types| => StoreColumn(types[c], [], [], []));
      nrows := 0;
    }

    /** Append physical row `p` of every column of `b`; returns its index. */
    method AppendRow(b: Batch, p: nat) returns (row: nat)
      requires Valid() && |b.cols| == |types|
      requires forall c | 0 <= c < |types| :: b.cols[c].typ == types[c]
      requires forall c | 0 <= c < |types| :: b.cols[c].Valid() && p < b.cols[c].len
      modifies this
      ensures Valid() && row == old(nrows)
      ensures Rows() == old(Rows()) + [b.PhysRow(p)]
    {
      hide StoreColumn.Valid, Column.Valid;
      row := nrows;
      ghost var was := cols;
      var out: seq<StoreColumn> := [];
      for c := 0 to |types|
        invariant cols == was && nrows == row && Valid() && |out| == c
        invariant forall i | 0 <= i < c ::
          out[i].Valid() && out[i].typ == types[i] && |out[i].data| == row + 1
        invariant forall i | 0 <= i < c :: Grown(was[i], out[i], b.cols[i], p)
      {
        hide Grown;
        var sc := AppendValue(cols[c], b.cols[c], p);
        GrownBy(was[c], sc, b.cols[c], p);
        out := out + [sc];
      }
      cols := out;
      nrows := nrows + 1;
      GrownRows(was, out, row, b, p);
    }

    /** Append every live row of `b`. */
    method AppendBatch(b: Batch)
      requires Valid() && b.Valid() && |b.cols| == |types|
      requires forall c | 0 <= c < |types| :: b.cols[c].typ == types[c]
      modifies this
      ensures Valid() && nrows == old(nrows) + b.rowCount
      ensures Rows() == old(Rows()) + b.Rows()
    {
      for k := 0 to b.rowCount
        invariant Valid() && nrows == old(nrows) + k
        invariant Rows() == old(Rows()) + b.Rows()[..k]
      {
        hide RowStore.Valid, RowStore.Rows;
        var _ := AppendRow(b, b.SelAt(k));
        assert b.Rows()[..k + 1] == b.Rows()[..k] + [b.RowAt(k)];
      }
      assert b.Rows()[..b.rowCount] == b.Rows();
    }
  }

  function StoredRows(cols: seq<StoreColumn>, n: nat): (rows: seq<Row>)
    requires forall c | 0 <= c < |cols| :: cols[c].Valid() && |cols[c].data| == n
    ensures |rows| == n
  {
    seq(n, r requires 0 <= r < n => StoredRow(cols, n, r))
  }

  function StoredRow(cols: seq<StoreColumn>, n: nat, r: nat): (row: Row)
    requires r < n && forall c | 0 <= c < |cols| :: cols[c].Valid() && |cols[c].data| == n
    ensures |row| == |cols|
  {
    seq(|cols|, c requires 0 <= c < |cols| => cols[c].CellAt(r))
  }

  /** `sc'` is `sc` with the value at physical row `p` of `col` appended. */
  ghost predicate Grown(sc: StoreColumn, sc': StoreColumn, col: Column, p: nat) {
    && sc.Valid() && sc'.Valid() && col.Valid() && p < col.len
    && sc'.typ == sc.typ && |sc'.data| == |sc.data| + 1
    && (forall r: nat | r < |sc.data| :: sc'.CellAt(r) == sc.CellAt(r))
    && sc'.CellAt(|sc.data|) == col.CellAt(p)
  }

  lemma GrownBy(sc: StoreColumn, sc': StoreColumn, col: Column, p: nat)
    requires sc.Valid() && sc'.Valid() && col.Valid() && p < col.len
    requires sc'.typ == sc.typ && |sc'.data| == |sc.data| + 1
    requires forall r: nat | r < |sc.data| :: sc'.CellAt(r) == sc.CellAt(r)
    requires sc'.CellAt(|sc.data|) == col.CellAt(p)
    ensures Grown(sc, sc', col, p)
  {
  }

  lemma GrownRows(was: seq<StoreColumn>, now: seq<StoreColumn>, n: nat, b: Batch, p: nat)
    requires |was| == |now| == |b.cols|
    requires forall c | 0 <= c < |was| :: was[c].Valid() && |was[c].data| == n
    requires forall c | 0 <= c < |was| :: now[c].Valid() && |now[c].data| == n + 1
    requires forall c | 0 <= c < |was| :: b.cols[c].Valid() && p < b.cols[c].len
    requires forall c | 0 <= c < |was| :: Grown(was[c], now[c], b.cols[c], p)
    ensures StoredRows(now, n + 1) == StoredRows(was, n) + [b.PhysRow(p)]
  {
    forall r | 0 <= r < n + 1
      ensures StoredRows(now, n + 1)[r] == (StoredRows(was, n) + [b.PhysRow(p)])[r]
    {
      forall c | 0 <= c < |was|
        ensures StoredRow(now, n + 1, r)[c] == if r < n then StoredRow(was, n, r)[c] else b.PhysRow(p)[c]
      {
        assert Grown(was[c], now[c], b.cols[c], p);
      }
    }
  }

  /** Drain the child, whose batches are `input`, into dense columns. */
  method Materialize(input: seq<Batch>, types: seq<Type>) returns (cols: seq<StoreColumn>, n: nat)
    requires Conforms(input, types)
    ensures Stored(cols, n, types)
    ensures StoredRows(cols, n) == RowsOf(input)
  {
    var store := new RowStore(types);
    for i := 0 to |input|
      invariant fresh(store) && store.Valid() && store.types == types
      invariant store.Rows() == RowsOf(input[..i])
    {
      hide RowStore.Valid, RowStore.Rows;
      store.AppendBatch(input[i]);
      RowsOfNext(input, i);
    }
    assert input[..|input|] == input;
    cols, n := store.cols, store.nrows;
  }

  ghost predicate Stored(cols: seq<StoreColumn>, n: nat, types: seq<Type>) {
    && |cols| == |types|
    && forall c | 0 <= c < |cols| :: cols[c].Valid() && cols[c].typ == types[c] && |cols[c].data| == n
  }

  // ----- rows by number -----

  ghost predicate Ascending(s: seq<nat>) { forall i, j | 0 <= i < j < |s| :: s[i] < s[j] }

  lemma AscendingNext(ms: seq<nat>, n: nat)
    requires Ascending(ms) && forall r | r in ms :: r < n
    ensures Ascending(ms + [n]) && forall r: nat :: r in ms + [n] <==> r in ms || r == n
  {
    forall i | 0 <= i < |ms| ensures ms[i] < n { assert ms[i] in ms; }
  }

  /** `m` is the rows numbered `ms`. */
  ghost predicate AreRows(m: seq<Row>, rows: seq<Row>, ms: seq<nat>) {
    |m| == |ms| && forall i | 0 <= i < |ms| :: ms[i] < |rows| && m[i] == rows[ms[i]]
  }

  lemma AreRowsNext(m: seq<Row>, rows: seq<Row>, ms: seq<nat>)
    requires rows != [] && AreRows(m, rows[..|rows| - 1], ms)
    ensures AreRows(m, rows, ms) && AreRows(m + [rows[|rows| - 1]], rows, ms + [|rows| - 1])
  {
  }

  /** The rows `idx` names, in that order. */
  function Pick(rows: seq<Row>, idx: seq<nat>): (r: seq<Row>)
    requires forall k | 0 <= k < |idx| :: idx[k] < |rows|
    ensures |r| == |idx|
  {
    seq(|idx|, k requires 0 <= k < |idx| => rows[idx[k]])
  }

  /** Gather whole rows by index into a fresh dense batch. */
  method GatherRows(cols: seq<StoreColumn>, n: nat, ghost types: seq<Type>, idx: seq<nat>) returns (b: Batch)
    requires Stored(cols, n, types) && forall k | 0 <= k < |idx| :: idx[k] < n
    ensures BatchFits(b, types) && b.rowCount == |idx|
    ensures b.Rows() == Pick(StoredRows(cols, n), idx)
  {
    var some := seq(|idx|, k requires 0 <= k < |idx| => Some(idx[k]));
    var out: seq<Column> := [];
    for c := 0 to |cols|
      invariant |out| == c && forall i | 0 <= i < c :: Gathered(out[i], cols[i], idx)
    {
      hide Column.Valid, StoreColumn.Valid, Gathered;
      var col := EmitStoreColumn(cols[c], some);
      GatheredBy(col, cols[c], idx);
      out := out + [col];
    }
    b := Batch(out, None, |idx|);
    GatheredRows(b, cols, n, idx);
  }

  ghost predicate Gathered(col: Column, sc: StoreColumn, idx: seq<nat>) {
    && col.Valid() && sc.Valid() && col.len == |idx| && col.typ == sc.typ
    && forall k: nat | k < |idx| :: idx[k] < |sc.data| && col.CellAt(k) == sc.CellAt(idx[k])
  }

  lemma GatheredBy(col: Column, sc: StoreColumn, idx: seq<nat>)
    requires col.Valid() && sc.Valid() && col.len == |idx| && col.typ == sc.typ
    requires forall k: nat | k < |idx| :: idx[k] < |sc.data| && col.CellAt(k) == sc.CellAt(idx[k])
    ensures Gathered(col, sc, idx)
  {
  }

  lemma GatheredRows(b: Batch, cols: seq<StoreColumn>, n: nat, idx: seq<nat>)
    requires |b.cols| == |cols| && b.sel.None? && b.rowCount == |idx|
    requires forall c | 0 <= c < |cols| :: cols[c].Valid() && |cols[c].data| == n
    requires forall k | 0 <= k < |idx| :: idx[k] < n
    requires forall c | 0 <= c < |cols| :: Gathered(b.cols[c], cols[c], idx)
    ensures b.Valid() && b.Rows() == Pick(StoredRows(cols, n), idx)
    ensures forall c | 0 <= c < |cols| :: b.cols[c].typ == cols[c].typ
  {
    assert forall c | 0 <= c < |cols| :: Gathered(b.cols[c], cols[c], idx) ==>
      b.cols[c].Valid() && b.cols[c].typ == cols[c].typ;
    forall k | 0 <= k < |idx| ensures b.Rows()[k] == StoredRows(cols, n)[idx[k]] {
      forall c | 0 <= c < |cols| ensures b.RowAt(k)[c] == StoredRow(cols, n, idx[k])[c] {
        assert Gathered(b.cols[c], cols[c], idx);
      }
    }
  }
}
