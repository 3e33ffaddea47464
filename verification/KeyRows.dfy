/**
 Normalized key rows: canonical 64-bit words, a null mask and a row hash.

 Two rows of the same key types have equal canonical keys exactly when their values
 are equal as SQL keys: the two zeros are one key, all NaNs are one key.
 */
module KeyRows {
  import opened Words
  import opened Columns
  import opened GroupIds
  import F64

  /** The word hashed in for a NULL; the mask, not the word, tells it apart. */
  const NULL_WORD: u64 := 0x9E37_79B9_7F4A_7C15

  const MAX_KEY_COLUMNS: nat := 63

  /** One normalized row; `nulls[j]` is bit `j` of the null mask. */
  datatype KeyRow = KeyRow(words: seq<u64>, nulls: seq<bool>, hash: u64)
  {
    function Tuple(): KeyTuple
      requires |nulls| == |words|
    {
      seq(|words|, j requires 0 <= j < |words| => if nulls[j] then None else Some(words[j]))
    }
  }

  /** The hash step: an arbitrary function of the running hash and the next word. */
  type Combine = (u64, u64) -> u64

  function RowHash(combine: Combine, seed: u64, words: seq<u64>): u64 {
    if words == [] then seed else combine(RowHash(combine, seed, words[..|words| - 1]), words[|words| - 1])
  }

  ghost predicate WellFormed(k: KeyRow, ncols: nat, combine: Combine, seed: u64) {
    && |k.words| == |k.nulls| == ncols
    && (forall j | 0 <= j < ncols && k.nulls[j] :: k.words[j] == NULL_WORD)
    && k.hash == RowHash(combine, seed, k.words)
  }

  /** The mask comparison, then the non-null words. */
  predicate KeyEqual(a: KeyRow, b: KeyRow)
    requires |a.words| == |a.nulls| && |b.words| == |b.nulls| && |a.words| == |b.words|
  {
    a.nulls == b.nulls && forall j | 0 <= j < |a.words| :: a.nulls[j] || a.words[j] == b.words[j]
  }

  lemma KeyEqualIffSameTuple(a: KeyRow, b: KeyRow, ncols: nat, combine: Combine, seed: u64)
    requires WellFormed(a, ncols, combine, seed) && WellFormed(b, ncols, combine, seed)
    ensures KeyEqual(a, b) <==> a.Tuple() == b.Tuple()
    ensures a.Tuple() == b.Tuple() ==> a.hash == b.hash
  {
    if a.Tuple() == b.Tuple() {
      forall j | 0 <= j < ncols ensures a.nulls[j] == b.nulls[j] && a.words[j] == b.words[j] {
        assert a.Tuple()[j] == b.Tuple()[j];
      }
      assert a.words == b.words && a.nulls == b.nulls;
    }
    if KeyEqual(a, b) {
      forall j | 0 <= j < ncols ensures a.Tuple()[j] == b.Tuple()[j] {
        assert a.nulls[j] == b.nulls[j];
      }
    }
  }

  lemma HasNullIffMasked(k: KeyRow)
    requires |k.words| == |k.nulls|
    ensures HasNull(k.Tuple()) <==> true in k.nulls
  {
    if true in k.nulls {
      var j :| 0 <= j < |k.nulls| && k.nulls[j];
      assert k.Tuple()[j] == None;
    }
  }

  // ----- normalization -----

  /** The canonical word of a non-null value: I32 and STR codes zero-extended, F64 canonical. */
  function NormalizeValue(t: Type, v: int): u64
    requires InRange(t, v)
  {
    match t
    case I32 => v % TWO_32
    case I64 | TS => AsUnsigned64(v)
    case BOOL => v
    case F64 => F64.Normalize(v)
    case STR => v % TWO_32
  }

  /** A cell as an equality key: the zeros and the NaNs of F64 each collapse to one. */
  function KeyCell(c: Cell): Cell { if c.Flt? then Flt(F64.Normalize(c.bits)) else c }

  /** Equality of values: a NULL equals nothing, the zeros are equal, and so are any two NaNs. */
  ghost predicate SameValue(x: Cell, y: Cell) {
    match (x, y)
    case (Num(i), Num(j)) => i == j
    case (Str(s), Str(t)) => s == t
    case (Flt(a), Flt(b)) => F64.IsNaN(a) == F64.IsNaN(b) && (F64.IsNaN(a) || F64.NumberOf(a) == F64.NumberOf(b))
    case _ => false
  }

  /** The key of a value is an equal value; of a zero the positive one, of a NaN the canonical one. */
  lemma KeyCellIs(c: Cell)
    ensures KeyCell(c) == c || (c.Flt? && SameValue(KeyCell(c), c) && KeyCell(c) in [Flt(0), Flt(0x7FF8_0000_0000_0000)])
    ensures SameValue(c, c) <==> !c.Null?
  {
    SameValueIs(KeyCell(c), c);
    SameValueIs(c, c);
    if c.Flt? { F64.SameKeyIffTie(F64.Normalize(c.bits), c.bits); }
  }

  /** Keys agree exactly when values are equal, or both NULL. */
  lemma SameValueIs(x: Cell, y: Cell)
    ensures SameValue(x, y) <==> KeyCell(x) == KeyCell(y) && !KeyCell(x).Null?
  {
    hide F64.NumberOf, F64.Normalize, F64.Rank;
    if x.Flt? && y.Flt? {
      F64.SameKeyIffTie(x.bits, y.bits);
      F64.TotalOrderIsRank(x.bits, y.bits);
      F64.TotalOrderIsRank(y.bits, x.bits);
      if !F64.IsNaN(x.bits) && !F64.IsNaN(y.bits) { F64.LessIsByNumber(x.bits, y.bits); }
    }
  }

  /** Words agree exactly when values are the same key; so does the sort order's tie. */
  lemma SameWordIffSameKey(t: Type, v: int, w: int)
    requires InRange(t, v) && InRange(t, w) && !t.STR?
    ensures NormalizeValue(t, v) == NormalizeValue(t, w) <==>
      if t.F64? then F64.Rank(v) == F64.Rank(w) else v == w
  {
    if t.F64? { F64.SameKeyIffTie(v, w); }
  }

  /** The canonical word of physical row `p` of a column, `None` if it is null. */
  function KeyWord(col: Column, p: nat): Option<u64>
    requires col.Valid() && p < col.len
  {
    if col.IsValid(p) then Some(NormalizeValue(col.typ, col.data[p])) else None
  }

  /** The tuple of physical row `p` of the key columns. */
  function TupleAt(cols: seq<Column>, p: nat): (k: KeyTuple)
    requires forall c | 0 <= c < |cols| :: cols[c].Valid() && p < cols[c].len
    ensures |k| == |cols|
  {
    seq(|cols|, j requires 0 <= j < |cols| => KeyWord(cols[j], p))
  }

  /** Rows that have taken in the first `j` columns of `b`. */
  ghost predicate Absorbed(rows: seq<KeyRow>, b: Batch, j: nat, n: nat, combine: Combine, seed: u64)
    requires b.Valid() && j <= |b.cols| && n <= b.rowCount
  {
    |rows| == n && forall k | 0 <= k < n :: AbsorbedRow(rows[k], b, j, k, combine, seed)
  }

  ghost predicate AbsorbedRow(r: KeyRow, b: Batch, j: nat, k: nat, combine: Combine, seed: u64)
    requires b.Valid() && j <= |b.cols| && k < b.rowCount
  {
    WellFormed(r, j, combine, seed) && r.Tuple() == TupleAt(b.cols, b.SelAt(k))[..j]
  }

  lemma AbsorbedNext(r: KeyRow, b: Batch, j: nat, k: nat, combine: Combine, seed: u64)
    requires b.Valid() && j < |b.cols| && k < b.rowCount && AbsorbedRow(r, b, j, k, combine, seed)
    ensures var word := KeyWord(b.cols[j], b.SelAt(k));
      var w := if word.Some? then word.value else NULL_WORD;
      AbsorbedRow(KeyRow(r.words + [w], r.nulls + [word.None?], combine(r.hash, w)), b, j + 1, k, combine, seed)
  {
    hide KeyWord, RowHash, Column.Valid;
    var word := KeyWord(b.cols[j], b.SelAt(k));
    PushWord(r, if word.Some? then word.value else NULL_WORD, word.None?, j, combine, seed);
    var t := TupleAt(b.cols, b.SelAt(k));
    assert t[..j + 1] == t[..j] + [t[j]];
  }

  /** Fold one column into every row's words, mask and running hash. */
  method AbsorbColumn(rows: seq<KeyRow>, b: Batch, j: nat, combine: Combine, ghost seed: u64)
    returns (next: seq<KeyRow>)
    requires b.Valid() && j < |b.cols| && Absorbed(rows, b, j, b.rowCount, combine, seed)
    ensures Absorbed(next, b, j + 1, b.rowCount, combine, seed)
  {
    next := [];
    for k := 0 to b.rowCount
      invariant Absorbed(next, b, j + 1, k, combine, seed)
    {
      hide KeyWord, AbsorbedRow, Batch.Valid;
      CellReadable(b, j, k);
      var word := KeyWord(b.cols[j], b.SelAt(k));
      var w := if word.Some? then word.value else NULL_WORD;
      var r := rows[k];
      AbsorbedNext(r, b, j, k, combine, seed);
      next := next + [KeyRow(r.words + [w], r.nulls + [word.None?], combine(r.hash, w))];
    }
  }

  lemma CellReadable(b: Batch, j: nat, k: nat)
    requires b.Valid() && j < |b.cols| && k < b.rowCount
    ensures (b.sel.Some? ==> |b.sel.value| == b.rowCount) && b.cols[j].Valid() && b.SelAt(k) < b.cols[j].len
  {
    hide Column.Valid;
  }

  /** Normalize and hash a batch, column by column. */
  method NormalizeAndHash(b: Batch, combine: Combine, seed: u64) returns (rows: seq<KeyRow>)
    requires b.Valid()
    ensures |rows| == b.rowCount
    ensures forall k | 0 <= k < b.rowCount ::
      WellFormed(rows[k], |b.cols|, combine, seed) && rows[k].Tuple() == TupleAt(b.cols, b.SelAt(k))
  {
    rows := seq(b.rowCount, _ => KeyRow([], [], seed));
    for j := 0 to |b.cols|
      invariant Absorbed(rows, b, j, b.rowCount, combine, seed)
    {
      hide Absorbed;
      rows := AbsorbColumn(rows, b, j, combine, seed);
    }
  }

  lemma PushWord(r: KeyRow, w: u64, isNull: bool, j: nat, combine: Combine, seed: u64)
    requires WellFormed(r, j, combine, seed) && (isNull ==> w == NULL_WORD)
    ensures var r' := KeyRow(r.words + [w], r.nulls + [isNull], combine(r.hash, w));
      && WellFormed(r', j + 1, combine, seed)
      && r'.Tuple() == r.Tuple() + [if isNull then None else Some(w)]
  {
    assert (r.words + [w])[..j] == r.words;
  }
}
