/**
 Typed column batches: values, packed validity words, selection vectors.

 A validity word is the sequence of its 64 bits, least significant first, so value
 `i` of a column lives at bit `i % 64` of word `i / 64`; bits past the column's
 length are padding. Values are held as numbers: the signed value for I32, I64 and
 TS, 0 or 1 for BOOL, the bit pattern for F64, the dictionary code for STR.
 */
module Columns {
  import opened Words

  datatype Type = I32 | I64 | F64 | BOOL | TS | STR

  /** What a stored value of type `t` may be. */
  predicate InRange(t: Type, v: int) {
    match t
    case I32 => -TWO_31 <= v < TWO_31
    case I64 => -TWO_63 <= v < TWO_63
    case TS => -TWO_63 <= v < TWO_63
    case F64 => 0 <= v < TWO_64
    case BOOL => 0 <= v <= 1
    case STR => 0 <= v
  }

  /** `i` is `v` reduced to the width of an integer type, two's complement. */
  predicate Reduced(t: Type, i: int, v: int) {
    InRange(t, i) && (i - v) % (if t.I32? then TWO_32 else TWO_64) == 0
  }

  // ----- packed validity -----

  type Word = w: seq<bool> | |w| == 64 witness seq(64, _ => false)

  const ONES: Word := seq(64, _ => true)

  /** Words needed for `nbits` bits. */
  function WordsFor(nbits: nat): nat { (nbits + 63) / 64 }

  predicate GetBit(w: seq<Word>, i: nat)
    requires i / 64 < |w|
  {
    w[i / 64][i % 64]
  }

  /** Nullness as a possibly absent bitmap has it. */
  predicate BitmapValid(w: seq<Word>, i: nat)
    requires w == [] || i / 64 < |w|
  {
    w == [] || GetBit(w, i)
  }

  function SetBit(w: seq<Word>, i: nat, v: bool): (w': seq<Word>)
    requires i / 64 < |w|
    ensures |w'| == |w|
    ensures forall j: nat | j / 64 < |w| :: GetBit(w', j) == if j == i then v else GetBit(w, j)
  {
    w[i / 64 := w[i / 64][i % 64 := v]]
  }

  /** The meaningful bits of the final word of an `nbits`-wide bitmap. */
  function LastWordMask(nbits: nat): Word {
    if nbits > 0 && nbits % 64 == 0 then ONES
    else seq(64, i => i < nbits % 64)
  }

  function And(a: Word, b: Word): Word {
    seq(64, i requires 0 <= i < 64 => a[i] && b[i])
  }

  /** A whole-word offset re-bases a bitmap: bit `i` of the view is bit `start + i`. */
  lemma Rebase(w: seq<Word>, start: nat, i: nat)
    requires start % 64 == 0 && (start + i) / 64 < |w|
    ensures start / 64 <= |w| && i / 64 < |w[start / 64..]|
    ensures GetBit(w[start / 64..], i) == GetBit(w, start + i)
  {
  }

  /** The bulk all-valid kernel: blocks of `lanes` words, remaining words, masked tail. */
  method AllValid(w: seq<Word>, nbits: nat, lanes: nat) returns (r: bool)
    requires lanes >= 1 && |w| >= WordsFor(nbits)
    ensures r <==> forall i: nat | i < nbits :: GetBit(w, i)
  {
    var full := nbits / 64;
    var i := 0;
    while i + lanes <= full
      invariant 0 <= i <= full
      invariant forall j | 0 <= j < i :: w[j] == ONES
    {
      if exists j | i <= j < i + lanes :: w[j] != ONES {
        ghost var j :| i <= j < i + lanes && w[j] != ONES;
        WordHasNull(w, nbits, j);
        return false;
      }
      i := i + lanes;
    }
    while i < full
      invariant 0 <= i <= full
      invariant forall j | 0 <= j < i :: w[j] == ONES
    {
      if w[i] != ONES {
        WordHasNull(w, nbits, i);
        return false;
      }
      i := i + 1;
    }
    if nbits % 64 != 0 {
      var m := LastWordMask(nbits);
      if And(w[full], m) != m {
        ghost var b :| 0 <= b < 64 && And(w[full], m)[b] != m[b];
        assert !GetBit(w, 64 * full + b);
        return false;
      }
      assert forall b | 0 <= b < nbits % 64 :: And(w[full], m)[b] == w[full][b] && m[b];
    }
    return true;
  }

  lemma WordHasNull(w: seq<Word>, nbits: nat, j: nat)
    requires |w| >= WordsFor(nbits) && j < nbits / 64 && w[j] != ONES
    ensures exists i: nat | i < nbits :: !GetBit(w, i)
  {
    var b :| 0 <= b < 64 && w[j][b] != ONES[b];
    assert !GetBit(w, 64 * j + b);
  }

  /** The bulk AND kernel over all the words of an `nbits`-wide bitmap. */
  method BitAnd(a: seq<Word>, b: seq<Word>, nbits: nat, lanes: nat) returns (out: seq<Word>)
    requires lanes >= 1 && |a| >= WordsFor(nbits) && |b| >= WordsFor(nbits)
    ensures |out| == WordsFor(nbits)
    ensures forall i: nat | i < nbits :: GetBit(out, i) <==> GetBit(a, i) && GetBit(b, i)
  {
    var n := WordsFor(nbits);
    out := [];
    var i := 0;
    while i + lanes <= n
      invariant 0 <= i <= n && |out| == i
      invariant forall j | 0 <= j < i :: out[j] == And(a[j], b[j])
    {
      out := out + seq<Word>(lanes, l requires 0 <= l < lanes => And(a[i + l], b[i + l]));
      i := i + lanes;
    }
    while i < n
      invariant 0 <= i <= n && |out| == i
      invariant forall j | 0 <= j < i :: out[j] == And(a[j], b[j])
    {
      out := out + [And(a[i], b[i])];
      i := i + 1;
    }
  }

  // ----- columns -----

  /**
   A non-owning view of one column. `allValid` is authoritative: the bitmap is
   consulted only when it is false.
   */
  datatype Column = Column(typ: Type, len: nat, data: seq<int>, validity: seq<Word>,
                           allValid: bool, dict: seq<string>)
  {
    ghost predicate Valid() {
      && |data| == len
      && (!allValid ==> |validity| >= WordsFor(len))
      && forall i: nat | i < len ::
           IsValid(i) ==> InRange(typ, data[i]) && (typ.STR? ==> data[i] < |dict|)
    }

    predicate IsValid(i: nat)
      requires i < len && (!allValid ==> |validity| >= WordsFor(len))
    {
      allValid || GetBit(validity, i)
    }

    /** The value at physical row `i`. */
    function CellAt(i: nat): Cell
      requires Valid() && i < len
    {
      if !IsValid(i) then Null
      else match typ
        case STR => Str(dict[data[i]])
        case F64 => Flt(data[i])
        case _ => Num(data[i])
    }
  }

  /** One SQL value; STR by its bytes, never by its code. */
  datatype Cell = Null | Num(i: int) | Flt(bits: u64) | Str(s: string)

  type Row = seq<Cell>

  /** A batch of equal-length columns with an optional selection of live rows. */
  datatype Batch = Batch(cols: seq<Column>, sel: Option<seq<nat>>, rowCount: nat)
  {
    ghost predicate Valid() {
      && (forall c | 0 <= c < |cols| :: cols[c].Valid())
      && (sel.None? ==> forall c | 0 <= c < |cols| :: cols[c].len == rowCount)
      && (sel.Some? ==> |sel.value| == rowCount)
      && (sel.Some? ==> forall c, k | 0 <= c < |cols| && 0 <= k < rowCount :: sel.value[k] < cols[c].len)
    }

    /** The physical row of logical row `k`. */
    function SelAt(k: nat): nat
      requires k < rowCount && (sel.Some? ==> |sel.value| == rowCount)
    {
      if sel.Some? then sel.value[k] else k
    }

    /** The values at physical row `p`. */
    function PhysRow(p: nat): (r: Row)
      requires forall c | 0 <= c < |cols| :: cols[c].Valid() && p < cols[c].len
      ensures |r| == |cols|
    {
      seq(|cols|, c requires 0 <= c < |cols| => cols[c].CellAt(p))
    }

    function RowAt(k: nat): (r: Row)
      requires Valid() && k < rowCount
      ensures |r| == |cols|
    {
      PhysRow(SelAt(k))
    }

    function Rows(): (r: seq<Row>)
      requires Valid()
      ensures |r| == rowCount
    {
      seq(rowCount, k requires 0 <= k < rowCount => RowAt(k))
    }
  }

  function Min(a: nat, b: nat): nat { if a <= b then a else b }

  /** The rows of all the batches, one after another. */
  function RowsOf(batches: seq<Batch>): seq<Row>
    requires forall i | 0 <= i < |batches| :: batches[i].Valid()
  {
    if batches == [] then [] else RowsOf(batches[..|batches| - 1]) + batches[|batches| - 1].Rows()
  }

  /** A well-formed batch of the schema's types. */
  ghost predicate BatchFits(b: Batch, types: seq<Type>) {
    b.Valid() && |b.cols| == |types| && forall c | 0 <= c < |types| :: b.cols[c].typ == types[c]
  }

  /** What an operator may be given. */
  ghost predicate Conforms(batches: seq<Batch>, types: seq<Type>) {
    forall i | 0 <= i < |batches| :: BatchFits(batches[i], types)
  }

  ghost predicate SameWidth(rows: seq<Row>, width: nat) {
    forall r | 0 <= r < |rows| :: |rows[r]| == width
  }

  lemma {:induction false} ConformingWidth(batches: seq<Batch>, types: seq<Type>)
    requires Conforms(batches, types)
    ensures SameWidth(RowsOf(batches), |types|)
  {
    if batches != [] { ConformingWidth(batches[..|batches| - 1], types); }
  }

  lemma RowsOfNext(batches: seq<Batch>, i: nat)
    requires i < |batches| && forall j | 0 <= j < |batches| :: batches[j].Valid()
    ensures RowsOf(batches[..i + 1]) == RowsOf(batches[..i]) + batches[i].Rows()
  {
    assert batches[..i + 1][..i] == batches[..i];
  }

  /** A prefix of the batches holds a prefix of the rows. */
  lemma {:induction false} RowsOfPrefix(batches: seq<Batch>, i: nat)
    requires i <= |batches| && forall j | 0 <= j < |batches| :: batches[j].Valid()
    ensures RowsOf(batches[..i]) <= RowsOf(batches)
  {
    if i < |batches| {
      RowsOfPrefix(batches[..|batches| - 1], i);
      assert batches[..|batches| - 1][..i] == batches[..i];
    } else {
      assert batches[..i] == batches;
    }
  }

  lemma NextBatch(input: seq<Batch>, types: seq<Type>, i: nat)
    requires Conforms(input, types) && i < |input|
    ensures BatchFits(input[i], types)
    ensures RowsOf(input[..i + 1]) == RowsOf(input[..i]) + input[i].Rows()
    ensures |RowsOf(input[..i])| + input[i].rowCount <= |RowsOf(input)|
  {
    RowsOfNext(input, i);
    RowsOfPrefix(input, i + 1);
  }

  lemma PushBatch(out: seq<Batch>, types: seq<Type>, b: Batch, rest: seq<Row>, rest': seq<Row>)
    requires Conforms(out, types) && BatchFits(b, types) && rest == b.Rows() + rest' && b.rowCount >= 1
    ensures Conforms(out + [b], types) && RowsOf(out + [b]) + rest' == RowsOf(out) + rest
    ensures |rest'| < |rest|
  {
    assert (out + [b])[..|out|] == out;
  }

  /** The rows of the batches from `pos` on. */
  function RowsFrom(batches: seq<Batch>, pos: nat): seq<Row>
    requires pos <= |batches| && forall j | 0 <= j < |batches| :: batches[j].Valid()
  {
    RowsOfPrefix(batches, pos);
    RowsOf(batches)[|RowsOf(batches[..pos])|..]
  }

  lemma RowsFromNext(batches: seq<Batch>, pos: nat)
    requires pos < |batches| && forall j | 0 <= j < |batches| :: batches[j].Valid()
    ensures RowsFrom(batches, pos) == batches[pos].Rows() + RowsFrom(batches, pos + 1)
  {
    hide RowsOf, Batch.Valid;
    RowsOfNext(batches, pos);
    RowsOfPrefix(batches, pos + 1);
  }

  lemma RowsFromEnds(batches: seq<Batch>)
    requires forall j | 0 <= j < |batches| :: batches[j].Valid()
    ensures RowsFrom(batches, 0) == RowsOf(batches) && RowsFrom(batches, |batches|) == []
  {
    assert batches[..0] == [] && batches[..|batches|] == batches;
  }

  /** Largest output batch of the pipeline breakers. */
  const OUT_BATCH: nat := 2048

  /** A table: equal-length columns, seen whole as one dense batch. */
  datatype Table = Table(cols: seq<Column>, nrows: nat)
  {
    ghost predicate Valid() {
      forall c | 0 <= c < |cols| :: cols[c].Valid() && cols[c].len == nrows
    }

    function FullBatch(): (b: Batch)
      requires Valid()
      ensures b.Valid()
    {
      Batch(cols, None, nrows)
    }

    function Rows(): (r: seq<Row>)
      requires Valid()
      ensures |r| == nrows
    {
      FullBatch().Rows()
    }
  }

  function TableTypes(t: Table): (ts: seq<Type>)
    ensures |ts| == |t.cols|
  {
    seq(|t.cols|, c requires 0 <= c < |t.cols| => t.cols[c].typ)
  }

  /** `view` is rows `[start, start + view.len)` of `col`, cell by cell. */
  ghost predicate IsSlice(view: Column, col: Column, start: nat)
    requires col.Valid()
  {
    && view.Valid() && start + view.len <= col.len
    && forall k: nat | k < view.len :: view.CellAt(k) == col.CellAt(start + k)
  }

  /** A dense batch of column slices is a slice of the table's rows. */
  lemma SliceRows(b: Batch, t: Table, start: nat)
    requires t.Valid() && |b.cols| == |t.cols| && b.sel.None? && start + b.rowCount <= t.nrows
    requires forall c | 0 <= c < |t.cols| ::
      b.cols[c].len == b.rowCount && IsSlice(b.cols[c], t.cols[c], start)
    ensures b.Valid() && b.Rows() == t.Rows()[start..start + b.rowCount]
  {
    forall k | 0 <= k < b.rowCount ensures b.Rows()[k] == t.Rows()[start + k] {
      forall c | 0 <= c < |t.cols| ensures b.RowAt(k)[c] == t.FullBatch().RowAt(start + k)[c] {
        assert b.cols[c].CellAt(k) == t.cols[c].CellAt(start + k);
      }
    }
  }

  /** A column that owns its storage. `allValid` may be stale between a bulk edit and a refresh. */
  class OwnedColumn {
    const typ: Type
    const len: nat
    var data: seq<int>
    var validity: seq<Word>   // empty: no bitmap allocated
    var allValid: bool
    var dict: seq<string>

    ghost predicate Valid()
      reads this
    {
      |data| == len && (validity == [] || |validity| == WordsFor(len))
    }

    /** The flag says exactly whether some row is null. */
    ghost predicate Exact()
      requires Valid()
      reads this
    {
      allValid <==> forall i: nat | i < len :: BitmapValid(validity, i)
    }

    /** A column of arbitrary values and no nulls. */
    constructor Make(typ: Type, len: nat)
      ensures this.typ == typ && this.len == len
      ensures Valid() && Exact() && validity == [] && allValid && dict == []
    {
      this.typ, this.len := typ, len;
      assert |seq(len, _ => 0)| == len;
      var bytes: seq<int> :| |bytes| == len;
      data := bytes;
      validity, allValid, dict := [], true, [];
    }

    method EnsureValidity()
      requires Valid()
      modifies this`validity
      ensures Valid() && (len > 0 ==> validity != [])
      ensures forall i: nat | i < len :: BitmapValid(validity, i) == BitmapValid(old(validity), i)
    {
      if validity == [] && len > 0 {
        validity := seq(WordsFor(len), _ => ONES);
      }
    }

    method SetNull(i: nat)
      requires Valid() && Exact() && i < len
      modifies this`validity, this`allValid
      ensures Valid() && Exact() && |validity| == WordsFor(len)
      ensures forall j: nat | j < len ::
        BitmapValid(validity, j) == (j != i && BitmapValid(old(validity), j))
    {
      EnsureValidity();
      validity := SetBit(validity, i, false);
      allValid := false;
      assert !BitmapValid(validity, i);
    }

    method RefreshAllValid(lanes: nat)
      requires Valid() && lanes >= 1
      modifies this`allValid
      ensures Valid() && Exact()
    {
      if validity == [] {
        allValid := true;
      } else {
        allValid := AllValid(validity, len, lanes);
        assert forall i: nat | i < len :: BitmapValid(validity, i) == GetBit(validity, i);
      }
    }

    /** The view exposes the bitmap only when there are nulls. */
    function View(): (c: Column)
      requires Valid() && Exact()
      reads this
      ensures c.typ == typ && c.len == len && c.data == data && c.dict == dict
      ensures !c.allValid ==> |c.validity| >= WordsFor(len)
      ensures forall i: nat | i < len :: c.IsValid(i) == BitmapValid(validity, i)
      ensures c.allValid <==> forall i: nat | i < len :: c.IsValid(i)
    {
      Column(typ, len, data, if allValid then [] else validity, allValid, dict)
    }
  }

  /** Gather `column` under a selection into a fresh dense column. */
  method CompactColumn(column: Column, sel: Option<seq<nat>>, n: nat, lanes: nat)
    returns (out: OwnedColumn)
    requires column.Valid() && lanes >= 1
    requires sel.None? ==> n <= column.len
    requires sel.Some? ==> |sel.value| == n && forall k | 0 <= k < n :: sel.value[k] < column.len
    ensures fresh(out) && out.Valid() && out.Exact()
    ensures out.typ == column.typ && out.len == n
    ensures out.View().Valid()
    ensures forall k: nat | k < n ::
      out.View().CellAt(k) == column.CellAt(if sel.Some? then sel.value[k] else k)
  {
    hide GetBit, SetBit;
    out := new OwnedColumn.Make(column.typ, n);
    out.dict := column.dict;
    if n == 0 { return; }
    out.data := seq(n, k requires 0 <= k < n => column.data[if sel.Some? then sel.value[k] else k]);
    if !column.allValid {
      out.validity := GatherValidity(column, sel, n);
      out.RefreshAllValid(lanes);
    }
    assert forall k: nat | k < n ::
      BitmapValid(out.validity, k) == column.IsValid(if sel.Some? then sel.value[k] else k);
  }

  /** The scalar bit-gather of a bitmap under a selection. */
  method GatherValidity(column: Column, sel: Option<seq<nat>>, n: nat) returns (w: seq<Word>)
    requires column.Valid() && n > 0
    requires sel.None? ==> n <= column.len
    requires sel.Some? ==> |sel.value| == n && forall k | 0 <= k < n :: sel.value[k] < column.len
    ensures |w| == WordsFor(n)
    ensures forall k: nat | k < n ::
      GetBit(w, k) == column.IsValid(if sel.Some? then sel.value[k] else k)
  {
    w := seq(WordsFor(n), _ => ONES);
    for k := 0 to n
      invariant |w| == WordsFor(n)
      invariant forall j: nat | j < k ::
        GetBit(w, j) == column.IsValid(if sel.Some? then sel.value[j] else j)
    {
      w := SetBit(w, k, column.IsValid(if sel.Some? then sel.value[k] else k));
    }
  }
}
