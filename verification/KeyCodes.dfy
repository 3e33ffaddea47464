/**
 SQL keys as the hash table sees them.

 STR key columns are replaced by I32 columns of ids from a dictionary that is shared by
 everything that must match by value; the other key columns are passed through. Only
 the live rows of a batch are looked at.
 */
module KeyCodes {
  import opened Words
  import opened Columns
  import opened GroupIds
  import opened KeyRows
  import D = StringDicts
  import F64

  /** A value that a column of type `t` can hold. */
  predicate Holds(t: Type, c: Cell) {
    match c
    case Null => true
    case Num(i) => !t.F64? && !t.STR? && InRange(t, i)
    case Flt(_) => t.F64?
    case Str(_) => t.STR?
  }

  lemma CellHolds(col: Column, p: nat)
    requires col.Valid() && p < col.len
    ensures Holds(col.typ, col.CellAt(p))
  {
  }

  /** Every value of conforming input is of its column's type. */
  lemma {:induction false} RowsHold(batches: seq<Batch>, types: seq<Type>)
    requires Conforms(batches, types)
    ensures SameWidth(RowsOf(batches), |types|)
    ensures forall r, c | 0 <= r < |RowsOf(batches)| && 0 <= c < |types| :: Holds(types[c], RowsOf(batches)[r][c])
  {
    hide Holds, Column.Valid, Column.CellAt;
    if batches != [] {
      var b := batches[|batches| - 1];
      RowsHold(batches[..|batches| - 1], types);
      forall k, c | 0 <= k < b.rowCount && 0 <= c < |types| ensures Holds(types[c], b.Rows()[k][c]) {
        CellHolds(b.cols[c], b.SelAt(k));
      }
    }
  }

  /** Rows of values of a schema's types. */
  ghost predicate RowFits(types: seq<Type>, row: Row) {
    |row| == |types| && forall c | 0 <= c < |types| :: Holds(types[c], row[c])
  }

  ghost predicate RowsFit(types: seq<Type>, rows: seq<Row>) { forall r | 0 <= r < |rows| :: RowFits(types, rows[r]) }

  lemma FitsNone(types: seq<Type>)
    ensures RowsFit(types, [])
  {
  }

  lemma FitWidth(types: seq<Type>, rows: seq<Row>)
    requires RowsFit(types, rows)
    ensures SameWidth(rows, |types|)
  {
    assert forall r | 0 <= r < |rows| :: RowFits(types, rows[r]);
  }

  lemma FitsJoin(types: seq<Type>, a: seq<Row>, b: seq<Row>)
    requires RowsFit(types, a) && RowsFit(types, b)
    ensures RowsFit(types, a + b)
  {
    hide RowFits;
  }

  /** The word of a key value, `None` for NULL; a string's word is its id. */
  function WordOf(t: Type, d: D.Dict, c: Cell): Option<u64>
    requires Holds(t, c) && (c.Str? ==> c.s in d)
  {
    match c
    case Null => None
    case Num(i) => Some(NormalizeValue(t, i))
    case Flt(b) => Some(NormalizeValue(t, b))
    case Str(s) => Some(D.IndexOf(d, s) % TWO_32)
  }

  /** Two values have one word exactly when they are the same key. */
  lemma SameWordIffSameCell(t: Type, d: D.Dict, x: Cell, y: Cell)
    requires Holds(t, x) && Holds(t, y) && (x.Str? ==> x.s in d) && (y.Str? ==> y.s in d)
    requires t.STR? ==> |d| <= TWO_31
    ensures WordOf(t, d, x) == WordOf(t, d, y) <==> KeyCell(x) == KeyCell(y)
    ensures WordOf(t, d, x).None? <==> x.Null?
  {
    if x.Num? && y.Num? { SameWordIffSameKey(t, x.i, y.i); }
  }

  /** The key columns' cells of a row, and the row's key: zeros and NaNs collapsed. */
  function KeyCells(row: Row, keys: seq<nat>): (cells: Row)
    requires forall j | 0 <= j < |keys| :: keys[j] < |row|
    ensures |cells| == |keys|
  {
    seq(|keys|, j requires 0 <= j < |keys| => row[keys[j]])
  }

  function RowKey(row: Row, keys: seq<nat>): (key: Row)
    requires forall j | 0 <= j < |keys| :: keys[j] < |row|
    ensures |key| == |keys|
  {
    seq(|keys|, j requires 0 <= j < |keys| => KeyCell(row[keys[j]]))
  }

  /** Every cell is of its type, and every string has an id. */
  ghost predicate Known(types: seq<Type>, dicts: seq<D.Dict>, cells: Row) {
    && |types| == |dicts| == |cells|
    && forall j | 0 <= j < |cells| ::
         Holds(types[j], cells[j]) && (cells[j].Str? ==> cells[j].s in dicts[j])
  }

  function TupleOf(types: seq<Type>, dicts: seq<D.Dict>, cells: Row): (k: KeyTuple)
    requires Known(types, dicts, cells)
    ensures |k| == |cells|
  {
    seq(|cells|, j requires 0 <= j < |cells| => WordOf(types[j], dicts[j], cells[j]))
  }

  /** No dictionary has more strings than there are codes. */
  ghost predicate Small(types: seq<Type>, dicts: seq<D.Dict>)
    requires |types| == |dicts|
  {
    forall j | 0 <= j < |dicts| && types[j].STR? :: |dicts[j]| <= TWO_31
  }

  /** Two rows, from whatever batches and dictionaries, have one tuple exactly when they have one key. */
  lemma SameTupleIffSameKey(types: seq<Type>, dicts: seq<D.Dict>, a: Row, ka: seq<nat>, b: Row, kb: seq<nat>)
    requires forall j | 0 <= j < |ka| :: ka[j] < |a|
    requires forall j | 0 <= j < |kb| :: kb[j] < |b|
    requires Known(types, dicts, KeyCells(a, ka)) && Known(types, dicts, KeyCells(b, kb)) && Small(types, dicts)
    ensures TupleOf(types, dicts, KeyCells(a, ka)) == TupleOf(types, dicts, KeyCells(b, kb))
       <==> RowKey(a, ka) == RowKey(b, kb)
    ensures HasNull(TupleOf(types, dicts, KeyCells(a, ka))) <==> Null in RowKey(a, ka)
  {
    hide WordOf, KeyCell, Holds;
    var x, y := KeyCells(a, ka), KeyCells(b, kb);
    var tx, ty := TupleOf(types, dicts, x), TupleOf(types, dicts, y);
    forall j | 0 <= j < |x|
      ensures tx[j] == ty[j] <==> RowKey(a, ka)[j] == RowKey(b, kb)[j]
      ensures tx[j] == None <==> RowKey(a, ka)[j] == Null
    {
      SameWordIffSameCell(types[j], dicts[j], x[j], y[j]);
      NullKey(x[j]);
    }
    if HasNull(tx) {
      var j :| 0 <= j < |tx| && tx[j] == None;
      assert RowKey(a, ka)[j] == Null;
    }
    if Null in RowKey(a, ka) {
      var j :| 0 <= j < |x| && RowKey(a, ka)[j] == Null;
      assert tx[j] == None;
    }
  }

  lemma NullKey(c: Cell)
    ensures KeyCell(c) == Null <==> c == Null
  {
  }

  ghost predicate Extends(dicts: seq<D.Dict>, dicts': seq<D.Dict>) {
    |dicts| == |dicts'| && forall j | 0 <= j < |dicts| :: dicts[j] <= dicts'[j]
  }

  /** Interning more strings changes no id. */
  lemma {:induction false} IdStable(d: seq<string>, d': seq<string>, s: string)
    requires d <= d' && s in d
    ensures D.IndexOf(d, s) == D.IndexOf(d', s)
  {
    if d[0] != s { IdStable(d[1..], d'[1..], s); }
  }

  lemma TupleStable(types: seq<Type>, dicts: seq<D.Dict>, dicts': seq<D.Dict>, cells: Row)
    requires Known(types, dicts, cells) && Extends(dicts, dicts')
    ensures Known(types, dicts', cells)
    ensures TupleOf(types, dicts', cells) == TupleOf(types, dicts, cells)
  {
    hide Holds, NormalizeValue;
    forall j | 0 <= j < |cells|
      ensures cells[j].Str? ==> cells[j].s in dicts'[j]
      ensures cells[j].Str? ==> D.IndexOf(dicts'[j], cells[j].s) == D.IndexOf(dicts[j], cells[j].s)
    {
      if cells[j].Str? { IdStable(dicts[j], dicts'[j], cells[j].s); }
    }
  }

  // ----- canonicalization -----

  /** Intern the strings among `cells`, in order. */
  function InternAll(d: D.Dict, cells: seq<Cell>): (d': D.Dict)
    ensures d <= d' && |d'| <= |d| + |cells|
    ensures forall c | c in cells && c.Str? :: c.s in d'
  {
    if cells == [] then d
    else
      var before := InternAll(d, cells[..|cells| - 1]);
      var c := cells[|cells| - 1];
      assert cells == cells[..|cells| - 1] + [c];
      if c.Str? then D.InternIn(before, c.s).0 else before
  }

  /** The cells of column `c` at a batch's live rows. */
  function LiveCells(b: Batch, c: nat): (cells: seq<Cell>)
    requires b.Valid() && c < |b.cols|
    ensures |cells| == b.rowCount
  {
    seq(b.rowCount, k requires 0 <= k < b.rowCount => b.cols[c].CellAt(b.SelAt(k)))
  }

  /** Row `p` of the canonical column: null when the string is, else the string's id. */
  ghost predicate Coded(data: seq<int>, validity: seq<Word>, col: Column, p: nat, d: D.Dict)
    requires col.Valid() && col.typ.STR? && p < col.len == |data|
    requires validity == [] || |validity| == WordsFor(|data|)
  {
    && BitmapValid(validity, p) == col.IsValid(p)
    && (col.IsValid(p) ==> col.CellAt(p).s in d && data[p] == D.IndexOf(d, col.CellAt(p).s))
  }

  /** The canonical column once the first `k` live rows are done: no other row is null. */
  ghost predicate CodedUpTo(data: seq<int>, validity: seq<Word>, b: Batch, c: nat, d: D.Dict, k: nat)
    requires b.Valid() && c < |b.cols| && b.cols[c].typ.STR? && k <= b.rowCount
  {
    && |data| == b.cols[c].len && (validity == [] || |validity| == WordsFor(|data|))
    && (forall p | 0 <= p < |data| :: 0 <= data[p] < TWO_31)
    && (forall p: nat | p < |data| && b.cols[c].IsValid(p) :: BitmapValid(validity, p))
    && forall i: nat | i < k :: Coded(data, validity, b.cols[c], b.SelAt(i), d)
  }

  lemma CodeString(data: seq<int>, validity: seq<Word>, b: Batch, c: nat, d: D.Dict, k: nat)
    requires b.Valid() && c < |b.cols| && b.cols[c].typ.STR? && k < b.rowCount
    requires CodedUpTo(data, validity, b, c, d, k)
    requires b.cols[c].IsValid(b.SelAt(k)) && |d| < TWO_31
    ensures var r := D.InternIn(d, b.cols[c].CellAt(b.SelAt(k)).s);
      CodedUpTo(data[b.SelAt(k) := r.1], validity, b, c, r.0, k + 1)
  {
    var col, p := b.cols[c], b.SelAt(k);
    var r := D.InternIn(d, col.CellAt(p).s);
    FoundAt(r.0, r.1);
    forall i: nat | i < k ensures Coded(data[p := r.1], validity, col, b.SelAt(i), r.0) {
      assert Coded(data, validity, col, b.SelAt(i), d);
      if col.IsValid(b.SelAt(i)) { IdStable(d, r.0, col.CellAt(b.SelAt(i)).s); }
    }
  }

  lemma FoundAt(d: D.Dict, i: nat)
    requires i < |d|
    ensures D.IndexOf(d, d[i]) == i
  {
  }

  lemma CodeNull(data: seq<int>, validity: seq<Word>, validity': seq<Word>, b: Batch, c: nat, d: D.Dict, k: nat)
    requires b.Valid() && c < |b.cols| && b.cols[c].typ.STR? && k < b.rowCount
    requires CodedUpTo(data, validity, b, c, d, k)
    requires |validity'| == WordsFor(|data|) && !b.cols[c].IsValid(b.SelAt(k))
    requires forall p: nat | p < |data| :: BitmapValid(validity', p) == (p != b.SelAt(k) && BitmapValid(validity, p))
    ensures CodedUpTo(data, validity', b, c, d, k + 1)
  {
    hide Column.Valid;
    forall i: nat | i < k ensures Coded(data, validity', b.cols[c], b.SelAt(i), d) {
      assert Coded(data, validity, b.cols[c], b.SelAt(i), d);
    }
  }

  /** Code live row `k`: intern its string, or mark it null. */
  method CodeRow(out: OwnedColumn, ids: seq<int>, b: Batch, c: nat, d: D.Dict, k: nat)
    returns (ids': seq<int>, d': D.Dict)
    requires b.Valid() && c < |b.cols| && b.cols[c].typ.STR? && k < b.rowCount && |d| < TWO_31
    requires out.Valid() && out.Exact() && |ids| == out.len == b.cols[c].len
    requires CodedUpTo(ids, out.validity, b, c, d, k)
    modifies out`validity, out`allValid
    ensures out.Valid() && out.Exact() && |ids'| == out.len
    ensures CodedUpTo(ids', out.validity, b, c, d', k + 1)
    ensures var cell := b.cols[c].CellAt(b.SelAt(k));
      d' == if cell.Str? then D.InternIn(d, cell.s).0 else d
  {
    hide CodedUpTo, InRange;
    var col, p := b.cols[c], b.SelAt(k);
    d', ids' := d, ids;
    if col.IsValid(p) {
      CodeString(ids, out.validity, b, c, d, k);
      var r := D.InternIn(d, StringAt(col, p));
      d', ids' := r.0, ids[p := r.1];
    } else {
      ghost var validity := out.validity;
      out.SetNull(p);
      CodeNull(ids, validity, out.validity, b, c, d, k);
    }
  }

  /** Replace a STR key column by the I32 column of its strings' shared ids. */
  method CanonicalizeStr(b: Batch, c: nat, d: D.Dict) returns (view: Column, d': D.Dict)
    requires b.Valid() && c < |b.cols| && b.cols[c].typ.STR? && |d| + b.rowCount <= TWO_31
    ensures d' == InternAll(d, LiveCells(b, c))
    ensures view.Valid() && view.typ.I32? && view.len == b.cols[c].len
    ensures forall k: nat | k < b.rowCount :: WordAgrees(view, b, c, d', k)
  {
    ghost var cells := LiveCells(b, c);
    var out := new OwnedColumn.Make(I32, b.cols[c].len);
    var ids: seq<int> := seq(out.len, _ => 0);
    d' := d;
    for k := 0 to b.rowCount
      invariant fresh(out) && out.Valid() && out.Exact() && d' == InternAll(d, cells[..k])
      invariant |ids| == out.len == b.cols[c].len && CodedUpTo(ids, out.validity, b, c, d', k)
    {
      hide CodedUpTo, InternAll, InRange;
      NextCell(d, cells, k);
      ids, d' := CodeRow(out, ids, b, c, d', k);
    }
    out.data := ids;
    view := out.View();
    assert cells[..b.rowCount] == cells;
    CodedWords(view, ids, out.validity, b, c, d');
  }

  function StringAt(col: Column, p: nat): (s: string)
    requires col.Valid() && col.typ.STR? && p < col.len && col.IsValid(p)
    ensures s == col.CellAt(p).s
  {
    col.dict[col.data[p]]
  }

  lemma NextCell(d: D.Dict, cells: seq<Cell>, k: nat)
    requires k < |cells|
    ensures InternAll(d, cells[..k + 1])
         == if cells[k].Str? then D.InternIn(InternAll(d, cells[..k]), cells[k].s).0 else InternAll(d, cells[..k])
  {
    assert cells[..k + 1][..k] == cells[..k];
  }

  ghost predicate WordAgrees(view: Column, b: Batch, c: nat, d: D.Dict, k: nat)
    requires b.Valid() && c < |b.cols| && k < b.rowCount
  {
    var cell := b.cols[c].CellAt(b.SelAt(k));
    && view.Valid() && b.SelAt(k) < view.len
    && Holds(b.cols[c].typ, cell) && (cell.Str? ==> cell.s in d)
    && KeyWord(view, b.SelAt(k)) == WordOf(b.cols[c].typ, d, cell)
  }

  lemma CodedWords(view: Column, data: seq<int>, validity: seq<Word>, b: Batch, c: nat, d: D.Dict)
    requires b.Valid() && c < |b.cols| && b.cols[c].typ.STR?
    requires CodedUpTo(data, validity, b, c, d, b.rowCount)
    requires view.typ.I32? && view.data == data && view.len == |data|
    requires !view.allValid ==> |view.validity| >= WordsFor(view.len)
    requires forall p: nat | p < |data| :: view.IsValid(p) == BitmapValid(validity, p)
    ensures view.Valid() && forall k: nat | k < b.rowCount :: WordAgrees(view, b, c, d, k)
  {
    forall k: nat | k < b.rowCount ensures WordAgrees(view, b, c, d, k) {
      assert Coded(data, validity, b.cols[c], b.SelAt(k), d);
    }
  }

  // ----- the key columns of a batch -----

  /** The dictionary of key `c` after a batch: only the strings of its live rows were interned. */
  function DictAfter(d: D.Dict, b: Batch, c: nat): (d': D.Dict)
    requires b.Valid() && c < |b.cols|
    ensures d <= d' && |d'| <= |d| + b.rowCount
  {
    if b.cols[c].typ.STR? then InternAll(d, LiveCells(b, c)) else d
  }

  function KeyTypes(types: seq<Type>, keys: seq<nat>): (kts: seq<Type>)
    requires forall j | 0 <= j < |keys| :: keys[j] < |types|
    ensures |kts| == |keys|
  {
    seq(|keys|, j requires 0 <= j < |keys| => types[keys[j]])
  }

  ghost predicate ViewOf(view: Column, b: Batch, c: nat, d: D.Dict)
    requires b.Valid() && c < |b.cols|
  {
    && view.Valid() && view.len == b.cols[c].len
    && forall k: nat | k < b.rowCount :: WordAgrees(view, b, c, d, k)
  }

  method KeyView(b: Batch, c: nat, d: D.Dict) returns (view: Column, d': D.Dict)
    requires b.Valid() && c < |b.cols| && (b.cols[c].typ.STR? ==> |d| + b.rowCount <= TWO_31)
    ensures d' == DictAfter(d, b, c) && ViewOf(view, b, c, d')
  {
    if b.cols[c].typ.STR? {
      view, d' := CanonicalizeStr(b, c, d);
    } else {
      view, d' := b.cols[c], d;
    }
  }

  /** The columns handed to the hash table; their tuples are the rows' key tuples. */
  method KeyViews(b: Batch, types: seq<Type>, keys: seq<nat>, dicts: seq<D.Dict>)
    returns (kb: Batch, dicts': seq<D.Dict>)
    requires b.Valid() && |b.cols| == |types| && forall c | 0 <= c < |types| :: b.cols[c].typ == types[c]
    requires |dicts| == |keys| && forall j | 0 <= j < |keys| :: keys[j] < |types|
    requires forall j | 0 <= j < |keys| && types[keys[j]].STR? :: |dicts[j]| + b.rowCount <= TWO_31
    ensures kb.Valid() && |kb.cols| == |keys| && kb.rowCount == b.rowCount
    ensures |dicts'| == |dicts| && forall j | 0 <= j < |keys| :: dicts'[j] == DictAfter(dicts[j], b, keys[j])
    ensures forall k: nat | k < b.rowCount :: TupleAgrees(kb, b, types, keys, dicts', k)
  {
    hide ViewOf, Column.Valid;
    var cols: seq<Column> := [];
    dicts' := [];
    for j := 0 to |keys|
      invariant |cols| == |dicts'| == j
      invariant forall i | 0 <= i < j ::
        dicts'[i] == DictAfter(dicts[i], b, keys[i]) && ViewOf(cols[i], b, keys[i], dicts'[i])
    {
      var view, d := KeyView(b, keys[j], dicts[j]);
      cols, dicts' := cols + [view], dicts' + [d];
    }
    kb := Batch(cols, b.sel, b.rowCount);
    ViewsValid(kb, b, keys, dicts');
    forall k: nat | k < b.rowCount ensures TupleAgrees(kb, b, types, keys, dicts', k) {
      ViewsTuple(kb, b, types, keys, dicts', k);
    }
  }

  ghost predicate TupleAgrees(kb: Batch, b: Batch, types: seq<Type>, keys: seq<nat>, dicts: seq<D.Dict>, k: nat)
    requires b.Valid() && kb.Valid() && k < b.rowCount == kb.rowCount
    requires |b.cols| == |types| && forall j | 0 <= j < |keys| :: keys[j] < |types|
  {
    && Known(KeyTypes(types, keys), dicts, KeyCells(b.RowAt(k), keys))
    && TupleAt(kb.cols, kb.SelAt(k)) == TupleOf(KeyTypes(types, keys), dicts, KeyCells(b.RowAt(k), keys))
  }

  lemma ViewsValid(kb: Batch, b: Batch, keys: seq<nat>, dicts: seq<D.Dict>)
    requires b.Valid() && |kb.cols| == |keys| == |dicts| && kb.sel == b.sel && kb.rowCount == b.rowCount
    requires forall j | 0 <= j < |keys| :: keys[j] < |b.cols| && ViewOf(kb.cols[j], b, keys[j], dicts[j])
    ensures kb.Valid()
  {
    hide WordAgrees, Column.Valid;
    forall j | 0 <= j < |keys| ensures kb.cols[j].Valid() && kb.cols[j].len == b.cols[keys[j]].len {
      assert ViewOf(kb.cols[j], b, keys[j], dicts[j]);
    }
  }

  lemma ViewsTuple(kb: Batch, b: Batch, types: seq<Type>, keys: seq<nat>, dicts: seq<D.Dict>, k: nat)
    requires b.Valid() && |b.cols| == |types| && forall c | 0 <= c < |types| :: b.cols[c].typ == types[c]
    requires |kb.cols| == |keys| == |dicts| && kb.sel == b.sel && kb.rowCount == b.rowCount
    requires forall j | 0 <= j < |keys| :: keys[j] < |b.cols| && ViewOf(kb.cols[j], b, keys[j], dicts[j])
    requires kb.Valid() && k < b.rowCount
    ensures TupleAgrees(kb, b, types, keys, dicts, k)
  {
    hide Holds, WordOf, KeyWord, Column.Valid, Column.CellAt;
    forall j | 0 <= j < |keys| ensures WordAgrees(kb.cols[j], b, keys[j], dicts[j], k) {
      assert ViewOf(kb.cols[j], b, keys[j], dicts[j]);
    }
  }

  // ----- one dictionary for all keys -----

  function Same(d: D.Dict, n: nat): (dicts: seq<D.Dict>)
    ensures |dicts| == n && forall j | 0 <= j < n :: dicts[j] == d
  {
    seq(n, _ => d)
  }

  /** Strings interned for `n` rows when each row interns `per`. */
  function Product(per: nat, n: nat): nat { per * n }

  /** How many of the keys are strings. */
  function StrKeys(types: seq<Type>, keys: seq<nat>): (n: nat)
    requires forall j | 0 <= j < |keys| :: keys[j] < |types|
    ensures n <= |keys|
  {
    if keys == [] then 0
    else StrKeys(types, keys[..|keys| - 1]) + (if types[keys[|keys| - 1]].STR? then 1 else 0)
  }

  lemma ViewStable(view: Column, b: Batch, c: nat, d: D.Dict, d': D.Dict)
    requires b.Valid() && c < |b.cols| && ViewOf(view, b, c, d) && d <= d'
    ensures ViewOf(view, b, c, d')
  {
    hide Column.Valid, Column.CellAt, KeyWord, NormalizeValue;
    forall k: nat | k < b.rowCount ensures WordAgrees(view, b, c, d', k) {
      assert WordAgrees(view, b, c, d, k);
      var cell := b.cols[c].CellAt(b.SelAt(k));
      if cell.Str? { IdStable(d, d', cell.s); }
    }
  }

  /** As `KeyViews`, every string interned into one dictionary. */
  method SharedKeyViews(b: Batch, types: seq<Type>, keys: seq<nat>, d: D.Dict) returns (kb: Batch, d': D.Dict)
    requires BatchFits(b, types) && forall j | 0 <= j < |keys| :: keys[j] < |types|
    requires |d| + Product(StrKeys(types, keys), b.rowCount) <= TWO_31
    ensures kb.Valid() && |kb.cols| == |keys| && kb.rowCount == b.rowCount
    ensures d <= d' && |d'| <= |d| + Product(StrKeys(types, keys), b.rowCount)
    ensures forall k: nat | k < b.rowCount :: TupleAgrees(kb, b, types, keys, Same(d', |keys|), k)
  {
    hide ViewOf, Column.Valid, DictAfter, Product;
    var cols: seq<Column> := [];
    d' := d;
    NoKeys(types, keys, b.rowCount);
    for j := 0 to |keys|
      invariant |cols| == j && d <= d' && |d'| <= |d| + Product(StrKeys(types, keys[..j]), b.rowCount)
      invariant forall i | 0 <= i < j :: ViewOf(cols[i], b, keys[i], d')
    {
      KeyRoom(types, keys, j, b.rowCount);
      var view, d2 := KeyView(b, keys[j], d');
      forall i | 0 <= i < j ensures ViewOf(cols[i], b, keys[i], d2) { ViewStable(cols[i], b, keys[i], d', d2); }
      PassThrough(d', b, keys[j]);
      cols, d' := cols + [view], d2;
    }
    kb := Batch(cols, b.sel, b.rowCount);
    ghost var dicts := Same(d', |keys|);
    ViewsValid(kb, b, keys, dicts);
    forall k: nat | k < b.rowCount ensures TupleAgrees(kb, b, types, keys, dicts, k) {
      ViewsTuple(kb, b, types, keys, dicts, k);
    }
  }

  lemma NoKeys(types: seq<Type>, keys: seq<nat>, n: nat)
    requires forall i | 0 <= i < |keys| :: keys[i] < |types|
    ensures Product(StrKeys(types, keys[..0]), n) == 0 && keys[..|keys|] == keys
  {
  }

  lemma PassThrough(d: D.Dict, b: Batch, c: nat)
    requires b.Valid() && c < |b.cols|
    ensures !b.cols[c].typ.STR? ==> DictAfter(d, b, c) == d
  {
  }

  lemma KeyRoom(types: seq<Type>, keys: seq<nat>, j: nat, n: nat)
    requires j < |keys| && forall i | 0 <= i < |keys| :: keys[i] < |types|
    ensures Product(StrKeys(types, keys[..j + 1]), n)
         == Product(StrKeys(types, keys[..j]), n) + (if types[keys[j]].STR? then n else 0)
    ensures Product(StrKeys(types, keys[..j + 1]), n) <= Product(StrKeys(types, keys), n)
  {
    StrKeysNext(types, keys, j);
    StrKeysPrefix(types, keys, j + 1);
    hide StrKeys, Product;
    RoomStep(StrKeys(types, keys[..j]), StrKeys(types, keys[..j + 1]), StrKeys(types, keys),
             if types[keys[j]].STR? then 1 else 0, n);
  }

  lemma RoomStep(a: nat, b: nat, all: nat, bit: nat, n: nat)
    requires b == a + bit && bit <= 1 && b <= all
    ensures Product(b, n) == Product(a, n) + (if bit == 1 then n else 0) && Product(b, n) <= Product(all, n)
  {
    hide Product;
    MulMonotone(b, all, n);
    Distribute(a, bit, n);
    OneOrNone(bit, n);
  }

  lemma OneOrNone(bit: nat, n: nat)
    requires bit <= 1
    ensures Product(bit, n) == if bit == 1 then n else 0
  {
  }

  lemma StrKeysNext(types: seq<Type>, keys: seq<nat>, j: nat)
    requires j < |keys| && forall i | 0 <= i < |keys| :: keys[i] < |types|
    ensures StrKeys(types, keys[..j + 1]) == StrKeys(types, keys[..j]) + (if types[keys[j]].STR? then 1 else 0)
  {
    assert keys[..j + 1][..j] == keys[..j];
  }

  lemma {:induction false} StrKeysPrefix(types: seq<Type>, keys: seq<nat>, j: nat)
    requires j <= |keys| && forall i | 0 <= i < |keys| :: keys[i] < |types|
    ensures StrKeys(types, keys[..j]) <= StrKeys(types, keys)
  {
    if j < |keys| {
      StrKeysPrefix(types, keys[..|keys| - 1], j);
      assert keys[..|keys| - 1][..j] == keys[..j];
    } else {
      assert keys[..j] == keys;
    }
  }

  lemma MulMonotone(a: nat, b: nat, n: nat)
    requires a <= b
    ensures Product(a, n) <= Product(b, n)
  {
  }

  lemma Distribute(a: nat, b: nat, n: nat)
    ensures Product(a + b, n) == Product(a, n) + Product(b, n)
  {
  }
}
