/**
 The final sort of the parallel driver: the merged rows, in whatever order the schedule left
 them, are rebuilt as a table and sorted on one thread.

 The result is the stable sort of the merged rows, so a sort over a sort is sorted by the outer
 keys and then by the inner ones. Which of several rows tied on all of them comes first depends
 on the schedule; what is at each position, up to ties, does not.
 */
module TopSorts {
  import opened Words
  import opened Columns
  import opened KeyCodes
  import opened SortOrders
  import opened RowStores
  import opened Sorts
  import opened Streams
  import D = StringDicts
  import AggMeaning

  // ----- rows to a table -----

  /** The value stored for a cell, at the width of its column; 0 for NULL. */
  function StoredValue(t: Type, c: Cell, d: D.Dict): (r: (int, D.Dict))
    ensures d <= r.1
  {
    match c
    case Null => (0, d)
    case Flt(b) => (b, d)
    case Str(s) => var (d', code) := D.InternIn(d, s); (code, d')
    case Num(i) =>
      (match t
       case I32 => (AggMeaning.AsInt32(i), d)
       case BOOL => (if i != 0 then 1 else 0, d)
       case _ => (i, d))
  }

  /** Row `r` of a column under construction reads as `c`. */
  ghost predicate ReadsAs(t: Type, v: int, valid: bool, d: seq<string>, c: Cell) {
    if c.Null? then !valid
    else
      valid && InRange(t, v)
      && match c
         case Num(i) => !t.STR? && !t.F64? && v == i
         case Flt(b) => t.F64? && v == b
         case Str(s) => t.STR? && v < |d| && d[v] == s
         case _ => false
  }

  lemma StoredReadsAs(t: Type, c: Cell, d: D.Dict)
    requires Holds(t, c)
    ensures var (v, d') := StoredValue(t, c, d); ReadsAs(t, v, !c.Null?, d', c)
  {
  }

  lemma ReadsOn(t: Type, v: int, valid: bool, d: seq<string>, d': seq<string>, c: Cell)
    requires ReadsAs(t, v, valid, d, c) && d <= d'
    ensures ReadsAs(t, v, valid, d', c)
  {
  }

  /** Rebuild column `c` of the rows; strings are interned anew, by value. */
  method CellColumn(t: Type, rows: seq<Row>, c: nat) returns (col: Column)
    requires forall r | 0 <= r < |rows| :: c < |rows[r]| && Holds(t, rows[r][c])
    ensures col.Valid() && col.typ == t && col.len == |rows|
    ensures forall r: nat | r < |rows| :: col.CellAt(r) == rows[r][c]
  {
    hide Holds;
    var oc := new OwnedColumn.Make(t, |rows|);
    var dict: D.Dict := [];
    for r := 0 to |rows|
      invariant fresh(oc) && oc.Valid() && oc.Exact() && oc.typ == t && oc.len == |rows|
      invariant forall k: nat | r <= k < |rows| :: BitmapValid(oc.validity, k)
      invariant forall k: nat | k < r :: ReadsAs(t, oc.data[k], BitmapValid(oc.validity, k), dict, rows[k][c])
    {
      hide ReadsAs, StoredValue, GetBit;
      StoredReadsAs(t, rows[r][c], dict);
      var (v, d') := StoredValue(t, rows[r][c], dict);
      forall k: nat | k < r ensures ReadsAs(t, oc.data[k], BitmapValid(oc.validity, k), d', rows[k][c]) {
        ReadsOn(t, oc.data[k], BitmapValid(oc.validity, k), dict, d', rows[k][c]);
      }
      oc.data := oc.data[r := v];
      dict := d';
      if rows[r][c].Null? { oc.SetNull(r); }
    }
    oc.dict := dict;
    col := oc.View();
    ghost var w := oc.validity;
    assert forall r: nat | r < |rows| :: col.IsValid(r) == BitmapValid(w, r);
    forall r: nat | r < |rows| ensures ReadsAs(t, col.data[r], col.IsValid(r), col.dict, rows[r][c]) {}
    ReadsBack(col, rows, c);
  }

  lemma ReadsBack(col: Column, rows: seq<Row>, c: nat)
    requires |col.data| == col.len == |rows| && (!col.allValid ==> |col.validity| >= WordsFor(col.len))
    requires forall r | 0 <= r < |rows| :: c < |rows[r]|
    requires forall r: nat | r < |rows| :: ReadsAs(col.typ, col.data[r], col.IsValid(r), col.dict, rows[r][c])
    ensures col.Valid() && forall r: nat | r < |rows| :: col.CellAt(r) == rows[r][c]
  {
  }

  /** Rebuild a table from merged rows: it reads back as the same rows. */
  method ResultSetToTable(rows: seq<Row>, types: seq<Type>) returns (t: Table)
    requires RowsFit(types, rows)
    ensures t.Valid() && TableTypes(t) == types && t.Rows() == rows
  {
    FitWidth(types, rows);
    var cols: seq<Column> := [];
    for c := 0 to |types|
      invariant |cols| == c && forall i | 0 <= i < c :: ColumnIs(cols[i], types[i], rows, i)
    {
      hide ColumnIs;
      ColumnHolds(types, rows, c);
      var col := CellColumn(types[c], rows, c);
      IsColumn(col, types[c], rows, c);
      cols := cols + [col];
    }
    t := Table(cols, |rows|);
    RebuiltRows(t, types, rows);
  }

  ghost predicate ColumnIs(col: Column, typ: Type, rows: seq<Row>, c: nat) {
    && col.Valid() && col.typ == typ && col.len == |rows|
    && forall r: nat | r < |rows| :: c < |rows[r]| && col.CellAt(r) == rows[r][c]
  }

  lemma IsColumn(col: Column, typ: Type, rows: seq<Row>, c: nat)
    requires col.Valid() && col.typ == typ && col.len == |rows|
    requires forall r: nat | r < |rows| :: c < |rows[r]| && col.CellAt(r) == rows[r][c]
    ensures ColumnIs(col, typ, rows, c)
  {
  }

  lemma ColumnHolds(types: seq<Type>, rows: seq<Row>, c: nat)
    requires RowsFit(types, rows) && c < |types|
    ensures forall r | 0 <= r < |rows| :: c < |rows[r]| && Holds(types[c], rows[r][c])
  {
    hide Holds;
    assert forall r | 0 <= r < |rows| :: RowFits(types, rows[r]);
  }

  lemma RebuiltRows(t: Table, types: seq<Type>, rows: seq<Row>)
    requires |t.cols| == |types| && t.nrows == |rows| && SameWidth(rows, |types|)
    requires forall c | 0 <= c < |types| :: ColumnIs(t.cols[c], types[c], rows, c)
    ensures t.Valid() && TableTypes(t) == types && t.Rows() == rows
  {
    hide Column.Valid, Column.CellAt;
    forall r | 0 <= r < |rows| ensures t.Rows()[r] == rows[r] {
      forall c | 0 <= c < |types| ensures t.FullBatch().RowAt(r)[c] == rows[r][c] {
        assert ColumnIs(t.cols[c], types[c], rows, c);
      }
    }
  }

  // ----- sorted rows -----

  ghost predicate Sorted(keys: seq<SortKey>, rows: seq<Row>, width: nat)
    requires KeysFit(keys, width) && SameWidth(rows, width)
  {
    forall i, j | 0 <= i < j < |rows| :: RowCmp(keys, rows[i], rows[j]) <= 0
  }

  /** `perm` lists 0 .. n - 1 without repetition. */
  ghost predicate Lists(perm: seq<nat>, n: nat) {
    && |perm| == n && (forall k | 0 <= k < |perm| :: perm[k] < n)
    && (forall i, j | 0 <= i < j < |perm| :: perm[i] != perm[j])
    && (forall r: nat | r < n :: r in perm)
  }

  lemma ListsFewer(perm: seq<nat>, n: nat, at: nat)
    requires Lists(perm, n + 1) && at < |perm| && perm[at] == n
    ensures Lists(perm[..at] + perm[at + 1..], n)
  {
    var q := perm[..at] + perm[at + 1..];
    forall r: nat | r < n ensures r in q {
      assert r in perm;
      var i :| 0 <= i < |perm| && perm[i] == r;
      assert q[if i < at then i else i - 1] == r;
    }
    forall i | 0 <= i < |q| ensures q[i] < n && q[i] == perm[if i < at then i else i + 1] {}
  }

  lemma PickWithout(rows: seq<Row>, perm: seq<nat>, at: nat)
    requires rows != [] && at < |perm| && Lists(perm, |rows|) && perm[at] == |rows| - 1
    requires Lists(perm[..at] + perm[at + 1..], |rows| - 1)
    ensures multiset(Pick(rows, perm))
         == multiset(Pick(rows[..|rows| - 1], perm[..at] + perm[at + 1..])) + multiset{rows[|rows| - 1]}
  {
    var n := |rows| - 1;
    var x, y := perm[..at], perm[at + 1..];
    ListedBelow(x, y, n);
    hide Lists;
    assert perm == x + ([n] + y);
    PickSplit(rows, x, n, y);
    hide Pick;
    Middle(Pick(rows, x), rows[n], Pick(rows, y));
  }

  lemma ListedBelow(x: seq<nat>, y: seq<nat>, n: nat)
    requires Lists(x + y, n)
    ensures (forall i | 0 <= i < |x| :: x[i] < n) && forall i | 0 <= i < |y| :: y[i] < n
  {
    forall i | 0 <= i < |x| ensures x[i] < n { assert x[i] == (x + y)[i]; }
    forall i | 0 <= i < |y| ensures y[i] < n { assert y[i] == (x + y)[|x| + i]; }
  }

  lemma PickSplit(rows: seq<Row>, x: seq<nat>, v: nat, y: seq<nat>)
    requires rows != [] && v < |rows|
    requires (forall k | 0 <= k < |x| :: x[k] < |rows| - 1) && forall k | 0 <= k < |y| :: y[k] < |rows| - 1
    ensures (forall k | 0 <= k < |x + ([v] + y)| :: (x + ([v] + y))[k] < |rows|)
    ensures Pick(rows, x + ([v] + y)) == Pick(rows, x) + ([rows[v]] + Pick(rows, y))
    ensures Pick(rows[..|rows| - 1], x + y) == Pick(rows, x) + Pick(rows, y)
  {
  }

  /** Picking by a permutation gives the rows themselves, reordered. */
  lemma {:induction false} PickIsAll(rows: seq<Row>, perm: seq<nat>)
    requires Lists(perm, |rows|)
    ensures multiset(Pick(rows, perm)) == multiset(rows)
    decreases |rows|
  {
    if rows != [] {
      var n := |rows| - 1;
      var at := Listed(perm, n);
      ListsFewer(perm, n, at);
      PickIsAll(rows[..n], perm[..at] + perm[at + 1..]);
      hide Lists;
      PickWithout(rows, perm, at);
      assert rows == rows[..n] + [rows[n]];
    }
  }

  lemma Listed(perm: seq<nat>, r: nat) returns (at: nat)
    requires Lists(perm, r + 1)
    ensures at < |perm| && perm[at] == r
  {
    assert r in perm;
    at :| 0 <= at < |perm| && perm[at] == r;
  }

  /** What the sort returns is sorted, and has the rows it was given. */
  lemma SortedOutput(keys: seq<SortKey>, rows: seq<Row>, width: nat, perm: seq<nat>)
    requires KeysFit(keys, width) && SameWidth(rows, width) && StablePermutation(keys, rows, width, perm)
    ensures |perm| == |rows| && (forall k | 0 <= k < |perm| :: perm[k] < |rows|)
    ensures SameWidth(Pick(rows, perm), width) && Sorted(keys, Pick(rows, perm), width)
    ensures multiset(Pick(rows, perm)) == multiset(rows)
  {
    PermutationLength(keys, rows, width, perm);
    hide RowCmp;
    forall i, j | 0 <= i < j < |perm| ensures perm[i] != perm[j] {
      PrecedesLaws(keys, rows, width, perm[i], perm[j], perm[i]);
    }
    PickIsAll(rows, perm);
  }

  /** `out` is `rows`, sorted, with tied rows as they came. */
  ghost predicate IsStableSort(keys: seq<SortKey>, rows: seq<Row>, out: seq<Row>, width: nat)
    requires KeysFit(keys, width)
  {
    && SameWidth(rows, width)
    && exists perm ::
      && StablePermutation(keys, rows, width, perm) && (forall k | 0 <= k < |perm| :: perm[k] < |rows|)
      && out == Pick(rows, perm)
  }

  lemma StableSortGives(keys: seq<SortKey>, rows: seq<Row>, out: seq<Row>, width: nat)
    requires KeysFit(keys, width) && IsStableSort(keys, rows, out, width)
    ensures SameWidth(out, width) && Sorted(keys, out, width) && multiset(out) == multiset(rows)
  {
    hide StablePermutation, Sorted, SameWidth;
    var perm :|
      && StablePermutation(keys, rows, width, perm) && (forall k | 0 <= k < |perm| :: perm[k] < |rows|)
      && out == Pick(rows, perm);
    SortedOutput(keys, rows, width, perm);
  }

  // ----- a sort over a sort -----

  lemma {:induction false} RowCmpConcat(outer: seq<SortKey>, inner: seq<SortKey>, a: Row, b: Row)
    requires KeysFit(outer, |a|) && KeysFit(inner, |a|) && |a| == |b|
    ensures KeysFit(outer + inner, |a|)
    ensures RowCmp(outer + inner, a, b) == if RowCmp(outer, a, b) != 0 then RowCmp(outer, a, b) else RowCmp(inner, a, b)
  {
    hide KeyCmp;
    if outer == [] {
      assert outer + inner == inner;
    } else {
      assert (outer + inner)[1..] == outer[1..] + inner;
      RowCmpConcat(outer[1..], inner, a, b);
    }
  }

  /** Sorting rows that were sorted by other keys leaves the ties in their order. */
  lemma StableOverSorted(outer: seq<SortKey>, inner: seq<SortKey>, rows: seq<Row>, out: seq<Row>, width: nat)
    requires KeysFit(outer, width) && KeysFit(inner, width) && IsStableSort(outer, rows, out, width)
    requires Sorted(inner, rows, width)
    ensures KeysFit(outer + inner, width) && SameWidth(out, width) && Sorted(outer + inner, out, width)
  {
    hide RowCmp;
    StableSortGives(outer, rows, out, width);
    var perm :|
      && StablePermutation(outer, rows, width, perm) && (forall k | 0 <= k < |perm| :: perm[k] < |rows|)
      && out == Pick(rows, perm);
    forall i, j | 0 <= i < j < |out| ensures RowCmp(outer + inner, out[i], out[j]) <= 0 {
      assert Precedes(outer, rows, width, perm[i], perm[j]);
      RowCmpConcat(outer, inner, out[i], out[j]);
    }
  }

  // ----- ties -----

  /** How many rows are not after `x`. */
  function NotAfter(keys: seq<SortKey>, rows: seq<Row>, width: nat, x: Row): (n: nat)
    requires KeysFit(keys, width) && SameWidth(rows, width) && |x| == width
    ensures n <= |rows|
  {
    if rows == [] then 0
    else NotAfter(keys, rows[..|rows| - 1], width, x) + (if RowCmp(keys, rows[|rows| - 1], x) <= 0 then 1 else 0)
  }

  lemma {:induction false} NotAfterConcat(keys: seq<SortKey>, a: seq<Row>, b: seq<Row>, width: nat, x: Row)
    requires KeysFit(keys, width) && SameWidth(a, width) && SameWidth(b, width) && |x| == width
    ensures SameWidth(a + b, width)
    ensures NotAfter(keys, a + b, width, x) == NotAfter(keys, a, width, x) + NotAfter(keys, b, width, x)
  {
    hide RowCmp;
    if b == [] {
      assert a + b == a;
    } else {
      assert (a + b)[..|a + b| - 1] == a + b[..|b| - 1];
      NotAfterConcat(keys, a, b[..|b| - 1], width, x);
    }
  }

  lemma NotAfterOne(keys: seq<SortKey>, row: Row, width: nat, x: Row)
    requires KeysFit(keys, width) && |row| == |x| == width
    ensures SameWidth([row], width) && NotAfter(keys, [row], width, x) == if RowCmp(keys, row, x) <= 0 then 1 else 0
  {
    assert [row][..0] == [];
  }

  /** The count depends on the rows only as a multiset. */
  lemma {:induction false} NotAfterReordered(keys: seq<SortKey>, a: seq<Row>, b: seq<Row>, width: nat, x: Row)
    requires KeysFit(keys, width) && SameWidth(a, width) && SameWidth(b, width) && |x| == width
    requires multiset(a) == multiset(b)
    ensures NotAfter(keys, a, width, x) == NotAfter(keys, b, width, x)
  {
    if a == [] {
      assert |multiset(a)| == |multiset(b)|;
    } else {
      hide RowCmp, NotAfter;
      var n := |a| - 1;
      assert a[n] in multiset(b);
      var at :| 0 <= at < |b| && b[at] == a[n];
      var u, v, w := b[..at], b[at], b[at + 1..];
      RowsWithout(a, n);
      RowsWithout(b, at);
      assert a[..n] + a[n + 1..] == a[..n];
      Uncounted(multiset(a[..n]), multiset(u + w), v);
      hide SameWidth;
      NotAfterWithout(keys, a, width, x, n);
      NotAfterWithout(keys, b, width, x, at);
      NotAfterReordered(keys, a[..n], u + w, width, x);
    }
  }

  lemma RowsWithout(rows: seq<Row>, at: nat)
    requires at < |rows|
    ensures rows == rows[..at] + ([rows[at]] + rows[at + 1..])
    ensures multiset(rows) == multiset(rows[..at] + rows[at + 1..]) + multiset{rows[at]}
  {
    assert rows == rows[..at] + ([rows[at]] + rows[at + 1..]);
    Middle(rows[..at], rows[at], rows[at + 1..]);
  }

  lemma NotAfterWithout(keys: seq<SortKey>, rows: seq<Row>, width: nat, x: Row, at: nat)
    requires KeysFit(keys, width) && SameWidth(rows, width) && |x| == width && at < |rows|
    ensures SameWidth(rows[..at] + rows[at + 1..], width) && |rows[at]| == width
    ensures NotAfter(keys, rows, width, x)
         == NotAfter(keys, rows[..at] + rows[at + 1..], width, x) + (if RowCmp(keys, rows[at], x) <= 0 then 1 else 0)
  {
    hide RowCmp, NotAfter;
    var u, v, w := rows[..at], rows[at], rows[at + 1..];
    RowsWithout(rows, at);
    NotAfterOne(keys, v, width, x);
    NotAfterConcat(keys, [v], w, width, x);
    NotAfterConcat(keys, u, [v] + w, width, x);
    NotAfterConcat(keys, u, w, width, x);
  }

  /** In sorted rows, those not after row `i` include all up to it. */
  lemma {:induction false} AtLeast(keys: seq<SortKey>, rows: seq<Row>, width: nat, i: nat, n: nat, x: Row)
    requires KeysFit(keys, width) && SameWidth(rows, width) && |x| == width && n <= |rows|
    requires forall k | 0 <= k < n && k <= i :: RowCmp(keys, rows[k], x) <= 0
    ensures NotAfter(keys, rows[..n], width, x) >= if i < n then i + 1 else n
  {
    if n > 0 {
      hide RowCmp;
      assert rows[..n][..n - 1] == rows[..n - 1];
      AtLeast(keys, rows, width, i, n - 1, x);
    }
  }

  /** If row `i` and all from it on are after `x`, at most `i` rows are not. */
  lemma {:induction false} AtMost(keys: seq<SortKey>, rows: seq<Row>, width: nat, i: nat, n: nat, x: Row)
    requires KeysFit(keys, width) && SameWidth(rows, width) && |x| == width && n <= |rows|
    requires forall k | i <= k < |rows| :: RowCmp(keys, rows[k], x) > 0
    ensures NotAfter(keys, rows[..n], width, x) <= i
  {
    if n > 0 {
      hide RowCmp;
      assert rows[..n][..n - 1] == rows[..n - 1];
      AtMost(keys, rows, width, i, n - 1, x);
      if n <= i { assert NotAfter(keys, rows[..n], width, x) <= n; }
    }
  }

  lemma NotEarlier(keys: seq<SortKey>, a: seq<Row>, b: seq<Row>, width: nat, i: nat)
    requires KeysFit(keys, width) && SameWidth(a, width) && SameWidth(b, width) && multiset(a) == multiset(b)
    requires Sorted(keys, a, width) && Sorted(keys, b, width) && i < |a| && i < |b|
    ensures RowCmp(keys, b[i], a[i]) <= 0
  {
    hide RowCmp;
    RowCmpLaws(keys, a[i], a[i], a[i]);
    assert a[..|a|] == a && b[..|b|] == b;
    if RowCmp(keys, b[i], a[i]) > 0 {
      forall k | i <= k < |b| ensures RowCmp(keys, b[k], a[i]) > 0 {
        RowCmpLaws(keys, b[i], b[k], a[i]);
      }
      NotAfterReordered(keys, a, b, width, a[i]);
      AtLeast(keys, a, width, i, |a|, a[i]);
      AtMost(keys, b, width, i, |b|, a[i]);
    }
  }

  /** Whatever the schedule, the same keys stand at every position: two outcomes differ by ties alone. */
  lemma SchedulesTie(keys: seq<SortKey>, a: seq<Row>, b: seq<Row>, width: nat, i: nat)
    requires KeysFit(keys, width) && SameWidth(a, width) && SameWidth(b, width) && multiset(a) == multiset(b)
    requires Sorted(keys, a, width) && Sorted(keys, b, width) && i < |a|
    ensures |a| == |b| && RowCmp(keys, a[i], b[i]) == 0
  {
    hide RowCmp;
    assert |multiset(a)| == |multiset(b)|;
    NotEarlier(keys, a, b, width, i);
    NotEarlier(keys, b, a, width, i);
    RowCmpLaws(keys, a[i], b[i], a[i]);
  }

  /** The final sort of merged rows. */
  method SortTop(rows: seq<Row>, types: seq<Type>, keys: seq<SortKey>, batchSize: nat) returns (out: seq<Row>)
    requires RowsFit(types, rows) && KeysFit(keys, |types|) && batchSize > 0 && batchSize % 64 == 0
    ensures IsStableSort(keys, rows, out, |types|)
    ensures SameWidth(out, |types|) && Sorted(keys, out, |types|) && multiset(out) == multiset(rows)
  {
    hide RowsFit, StablePermutation, Batch.Valid, Sorted, KeysFit, Table.Rows, Table.Valid;
    var t := ResultSetToTable(rows, types);
    var scanned := ScanRange(t, 0, t.nrows, batchSize);
    var batches, perm := SortRows(scanned.value, types, keys, Auto);
    WholeRange(t);
    SortedOutput(keys, rows, |types|, perm);
    out := RowsOf(batches);
  }

  lemma WholeRange(t: Table)
    requires t.Valid()
    ensures t.Rows()[0..t.nrows] == t.Rows()
  {
  }
}
