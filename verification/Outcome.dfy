/**
 When two results of one GROUP BY are the same, up to the ties of doubles: the two zeros, and
 the NaNs. The rows may come in any order; nothing is said of how they were computed.
 */
module Outcomes {
  import opened Words
  import opened Columns
  import opened KeyRows
  import opened KeyCodes
  import opened AggMeaning
  import opened GroupBy
  import opened GroupMerge
  import opened AggregateOps
  import opened PartialAggs
  import opened PartialMaps
  import opened ParallelAggregates
  import opened SortOrders
  import F64

  // ----- rows up to ties -----

  /** A row with one zero and one NaN. */
  function CanonRow(row: Row): (r: Row)
    ensures |r| == |row|
  {
    seq(|row|, c requires 0 <= c < |row| => KeyCell(row[c]))
  }

  function CanonRows(rows: seq<Row>): (r: seq<Row>)
    ensures |r| == |rows|
  {
    seq(|rows|, i requires 0 <= i < |rows| => CanonRow(rows[i]))
  }

  /** Two cells are one canonical cell exactly when the order ties them. */
  lemma TieIffCanon(x: Cell, y: Cell)
    ensures ValueCmp(x, y) == 0 <==> KeyCell(x) == KeyCell(y)
  {
    if x.Flt? && y.Flt? {
      F64.SameKeyIffTie(x.bits, y.bits);
      F64.TotalOrderIsRank(x.bits, y.bits);
      hide F64.Rank, F64.CmpTotal, F64.Normalize;
    } else if x.Str? && y.Str? {
      LexCmpFlip(Codes(x.s), Codes(y.s));
      SameCodes(x.s, y.s);
    }
  }

  lemma SameCodes(s: string, t: string)
    ensures Codes(s) == Codes(t) <==> s == t
  {
    if Codes(s) == Codes(t) {
      forall i | 0 <= i < |s| ensures s[i] == t[i] { assert Codes(s)[i] == Codes(t)[i]; }
    }
  }

  /** The same rows, each up to ties, equally often. */
  ghost predicate SameUpToTies(x: seq<Row>, y: seq<Row>) { multiset(CanonRows(x)) == multiset(CanonRows(y)) }

  // ----- the result of a group-by, in any order -----

  ghost predicate GroupsAre(ops: FloatOps, q: AggQuery, out: seq<Row>, rows: seq<Row>)
    requires q.Valid() && SameWidth(rows, |q.types|)
  {
    && multiset(KeyColumn(q, out)) == multiset(KeysOf(rows, q.keys))
    && forall i | 0 <= i < |out| :: RowIs(ops, q, out[i], rows)
  }

  ghost predicate RowIs(ops: FloatOps, q: AggQuery, row: Row, rows: seq<Row>)
    requires q.Valid() && SameWidth(rows, |q.types|)
  {
    |row| == |q.keys| + |q.aggs| && forall a | 0 <= a < |q.aggs| :: AggCellIs(ops, q, row, rows, a)
  }

  ghost predicate AggCellIs(ops: FloatOps, q: AggQuery, row: Row, rows: seq<Row>, a: nat)
    requires q.Valid() && SameWidth(rows, |q.types|) && a < |q.aggs| && |row| == |q.keys| + |q.aggs|
  {
    var spec := q.aggs[a];
    AggIs(false, ops, spec.func, InputType(q.types, spec), row[|q.keys| + a],
          GroupValues(spec, rows, q.keys, KeyPrefix(q, row), |q.types|))
  }

  /** No sum or average of doubles rounds, in any group. */
  ghost predicate SumsExact(ops: FloatOps, q: AggQuery, rows: seq<Row>)
    requires q.Valid() && SameWidth(rows, |q.types|)
  {
    forall key, a | key in KeysOf(rows, q.keys) && 0 <= a < |q.aggs| :: SumExact(ops, q, rows, key, a)
  }

  ghost predicate SumExact(ops: FloatOps, q: AggQuery, rows: seq<Row>, key: Row, a: nat)
    requires q.Valid() && SameWidth(rows, |q.types|) && a < |q.aggs|
  {
    var spec := q.aggs[a];
    InputType(q.types, spec).F64? && (spec.func.Sum? || spec.func.Avg?) ==>
      Exact(ops, Doubles(GroupValues(spec, rows, q.keys, key, |q.types|)))
  }

  /** No minimum or maximum of doubles is asked for. */
  predicate NoFloatExtremes(q: AggQuery)
    requires forall a | 0 <= a < |q.aggs| :: q.aggs[a].func.CountStar? || q.aggs[a].col < |q.types|
  {
    forall a | 0 <= a < |q.aggs| :: !FloatExtreme(q.aggs[a].func, InputType(q.types, q.aggs[a]))
  }

  // ----- two results agree -----

  /** Two aggregates of the same values tie; where they are no extrema of doubles, they are equal. */
  lemma CellsAgree(ops: FloatOps, func: AggFunc, t: Type, x: Cell, y: Cell, vals: seq<Cell>)
    requires AggIs(false, ops, func, t, x, vals) && AggIs(false, ops, func, t, y, vals)
    requires t.F64? && (func.Sum? || func.Avg?) ==> Exact(ops, Doubles(vals))
    ensures KeyCell(x) == KeyCell(y)
    ensures !FloatExtreme(func, t) && Typed(func, t, vals) ==> x == y
  {
    hide Exact, ValueCmp, SumFloats, SumInts, NonNull, Doubles;
    AggIsUnique(false, ops, func, t, x, y, vals);
    TieIffCanon(x, y);
    if (func.Min? || func.Max?) && !t.F64? && Typed(func, t, vals) {
      NotFloat(ops, func, t, x, vals);
      NotFloat(ops, func, t, y, vals);
    }
  }

  lemma NotFloat(ops: FloatOps, func: AggFunc, t: Type, x: Cell, vals: seq<Cell>)
    requires (func.Min? || func.Max?) && !t.F64? && Typed(func, t, vals) && AggIs(false, ops, func, t, x, vals)
    ensures !x.Flt?
  {
    hide NonNull;
    if NonNull(vals) > 0 { var v :| v in vals && !v.Null? && ValueCmp(x, v) == 0; }
  }

  lemma MembersFit(types: seq<Type>, rows: seq<Row>, keys: seq<nat>, key: Row)
    requires RowsFit(types, rows) && forall j | 0 <= j < |keys| :: keys[j] < |types|
    ensures SameWidth(rows, |types|) && WideRows(rows, keys) && RowsFit(types, Members(rows, keys, key))
  {
    FitWidth(types, rows);
    hide RowFits, Members;
    var m := Members(rows, keys, key);
    forall r | 0 <= r < |m| ensures RowFits(types, m[r]) { assert m[r] in rows; }
  }

  /** A key of the rows is canonical already. */
  lemma KeyIsCanon(q: AggQuery, row: Row, rows: seq<Row>)
    requires q.Valid() && SameWidth(rows, |q.types|) && |row| >= |q.keys| && KeyPrefix(q, row) in KeysOf(rows, q.keys)
    ensures CanonRow(row)[..|q.keys|] == KeyPrefix(q, row)
  {
    GroupKeysDistinct(rows, q.keys);
    hide KeyCell, GroupKeys;
    forall c | 0 <= c < |q.keys| ensures KeyCell(row[c]) == row[c] {
      var r :| 0 <= r < |rows| && RowKey(rows[r], q.keys) == KeyPrefix(q, row);
      assert row[c] == KeyPrefix(q, row)[c] == KeyCell(rows[r][q.keys[c]]);
      CollapsedOnce(rows[r][q.keys[c]]);
    }
  }

  /** Two rows of one key agree. */
  lemma RowsAgree(ops: FloatOps, q: AggQuery, x: Row, y: Row, rows: seq<Row>)
    requires q.Valid() && SameWidth(rows, |q.types|) && RowIs(ops, q, x, rows) && RowIs(ops, q, y, rows)
    requires KeyPrefix(q, x) == KeyPrefix(q, y) && KeyPrefix(q, x) in KeysOf(rows, q.keys) && SumsExact(ops, q, rows)
    ensures CanonRow(x) == CanonRow(y)
    ensures NoFloatExtremes(q) && RowsFit(q.types, rows) ==> x == y
  {
    hide KeyCell, GroupValues, SumExact, KeysOf, RowsFit, CellAgree;
    KeyColumnsAgree(q, x, y);
    forall c | |q.keys| <= c < |x| ensures CellAgree(q, x, y, rows, c) {
      CellOfRowsAgrees(ops, q, x, y, rows, c - |q.keys|);
    }
    AllCellsAgree(q, x, y, rows);
  }

  ghost predicate CellAgree(q: AggQuery, x: Row, y: Row, rows: seq<Row>, c: nat)
    requires q.Valid() && c < |x| == |y|
  {
    KeyCell(x[c]) == KeyCell(y[c]) && (NoFloatExtremes(q) && RowsFit(q.types, rows) ==> x[c] == y[c])
  }

  lemma KeyColumnsAgree(q: AggQuery, x: Row, y: Row)
    requires |x| == |y| >= |q.keys| && KeyPrefix(q, x) == KeyPrefix(q, y)
    ensures forall c | 0 <= c < |q.keys| :: x[c] == y[c]
  {
    forall c | 0 <= c < |q.keys| ensures x[c] == y[c] { assert KeyPrefix(q, x)[c] == x[c] && KeyPrefix(q, y)[c] == y[c]; }
  }

  lemma AllCellsAgree(q: AggQuery, x: Row, y: Row, rows: seq<Row>)
    requires q.Valid() && |x| == |y| >= |q.keys| && (forall c | 0 <= c < |q.keys| :: x[c] == y[c])
    requires forall c | |q.keys| <= c < |x| :: CellAgree(q, x, y, rows, c)
    ensures CanonRow(x) == CanonRow(y)
    ensures NoFloatExtremes(q) && RowsFit(q.types, rows) ==> x == y
  {
    hide KeyCell, NoFloatExtremes, RowsFit;
    forall c | 0 <= c < |x| ensures KeyCell(x[c]) == KeyCell(y[c]) && (NoFloatExtremes(q) && RowsFit(q.types, rows) ==> x[c] == y[c]) {
      if c >= |q.keys| { assert CellAgree(q, x, y, rows, c); }
    }
  }

  lemma CellOfRowsAgrees(ops: FloatOps, q: AggQuery, x: Row, y: Row, rows: seq<Row>, a: nat)
    requires q.Valid() && SameWidth(rows, |q.types|) && RowIs(ops, q, x, rows) && RowIs(ops, q, y, rows) && a < |q.aggs|
    requires KeyPrefix(q, x) == KeyPrefix(q, y) && KeyPrefix(q, x) in KeysOf(rows, q.keys) && SumsExact(ops, q, rows)
    ensures CellAgree(q, x, y, rows, |q.keys| + a)
  {
    var spec, k := q.aggs[a], KeyPrefix(q, x);
    QueryReads(q, a);
    hide KeyCell, GroupValues, KeysOf, RowsFit, AggIs, Exact, SameWidth, KeyPrefix, AggQuery.Valid, Reads;
    assert AggCellIs(ops, q, x, rows, a) && AggCellIs(ops, q, y, rows, a) && SumExact(ops, q, rows, k, a);
    var vals := GroupValues(spec, rows, q.keys, k, |q.types|);
    CellsAgree(ops, spec.func, InputType(q.types, spec), x[|q.keys| + a], y[|q.keys| + a], vals);
    if RowsFit(q.types, rows) { ValuesTyped(q, rows, k, a); }
  }

  lemma ValuesTyped(q: AggQuery, rows: seq<Row>, k: Row, a: nat)
    requires q.Valid() && RowsFit(q.types, rows) && SameWidth(rows, |q.types|) && a < |q.aggs| && Reads(q.aggs[a], q.keys, |q.types|)
    ensures Typed(q.aggs[a].func, InputType(q.types, q.aggs[a]), GroupValues(q.aggs[a], rows, q.keys, k, |q.types|))
  {
    hide RowsFit, InputsOf, Typed, Members;
    MembersFit(q.types, rows, q.keys, k);
    InputsTyped(q.types, q.aggs[a], Members(rows, q.keys, k));
  }

  // ----- whole results -----

  /** A sequence with the elements of one without repetition has none either. */
  lemma NoRepeats(s: seq<Row>, t: seq<Row>, i: nat, j: nat)
    requires multiset(s) == multiset(t) && i < j < |s|
    requires forall a, b | 0 <= a < b < |t| :: t[a] != t[b]
    ensures s[i] != s[j]
  {
    if s[i] == s[j] {
      OncePerKey(t, s[i]);
      Twice(s, i, j);
    }
  }

  lemma Twice(s: seq<Row>, i: nat, j: nat)
    requires i < j < |s| && s[i] == s[j]
    ensures multiset(s)[s[i]] >= 2
  {
    assert s == s[..j] + s[j..];
    assert s[..j][i] == s[i] && s[j..][0] == s[j];
    assert multiset(s[..j])[s[i]] >= 1 && multiset(s[j..])[s[i]] >= 1;
  }

  lemma KeyOfRow(q: AggQuery, out: seq<Row>, rows: seq<Row>, i: nat)
    requires WideRows(rows, q.keys) && multiset(KeyColumn(q, out)) == multiset(KeysOf(rows, q.keys)) && i < |out|
    ensures KeyPrefix(q, out[i]) in KeysOf(rows, q.keys) && |out| == |KeysOf(rows, q.keys)|
  {
    hide KeysOf;
    assert |multiset(KeyColumn(q, out))| == |multiset(KeysOf(rows, q.keys))|;
    assert KeyColumn(q, out)[i] in multiset(KeysOf(rows, q.keys));
  }

  lemma KeysDiffer(q: AggQuery, out: seq<Row>, rows: seq<Row>, i: nat, j: nat)
    requires WideRows(rows, q.keys) && multiset(KeyColumn(q, out)) == multiset(KeysOf(rows, q.keys)) && i < j < |out|
    ensures KeyPrefix(q, out[i]) != KeyPrefix(q, out[j])
  {
    GroupKeysDistinct(rows, q.keys);
    hide GroupKeys;
    NoRepeats(KeyColumn(q, out), KeysOf(rows, q.keys), i, j);
  }

  /** The row of the other result with the same key. */
  lemma Counterpart(q: AggQuery, x: seq<Row>, y: seq<Row>, i: nat) returns (j: nat)
    requires multiset(KeyColumn(q, x)) == multiset(KeyColumn(q, y)) && i < |x|
    ensures j < |y| && KeyPrefix(q, x[i]) == KeyPrefix(q, y[j])
  {
    assert KeyColumn(q, x)[i] in multiset(KeyColumn(q, y));
    j :| 0 <= j < |y| && KeyColumn(q, y)[j] == KeyColumn(q, x)[i];
  }

  lemma CanonDiffer(ops: FloatOps, q: AggQuery, out: seq<Row>, rows: seq<Row>, i: nat, j: nat)
    requires q.Valid() && SameWidth(rows, |q.types|) && GroupsAre(ops, q, out, rows) && i < j < |out|
    ensures CanonRow(out[i]) != CanonRow(out[j]) && out[i] != out[j]
  {
    RowsAreWide(q, rows);
    hide AggCellIs, KeysOf, KeyColumn, KeyCell;
    assert RowIs(ops, q, out[i], rows) && RowIs(ops, q, out[j], rows);
    KeysDiffer(q, out, rows, i, j);
    KeyOfRow(q, out, rows, i);
    KeyOfRow(q, out, rows, j);
    KeyIsCanon(q, out[i], rows);
    KeyIsCanon(q, out[j], rows);
  }

  /** Every row of one result is, up to ties, a row of the other. */
  lemma RowCarries(ops: FloatOps, q: AggQuery, x: seq<Row>, y: seq<Row>, rows: seq<Row>, i: nat)
    requires q.Valid() && SameWidth(rows, |q.types|) && GroupsAre(ops, q, x, rows) && GroupsAre(ops, q, y, rows)
    requires SumsExact(ops, q, rows) && i < |x|
    ensures CanonRow(x[i]) in CanonRows(y)
    ensures NoFloatExtremes(q) && RowsFit(q.types, rows) ==> x[i] in y
  {
    RowsAreWide(q, rows);
    hide RowIs, KeysOf, KeyColumn, KeyCell, SumsExact, CanonRow, RowsFit, NoFloatExtremes, KeyPrefix;
    var j := Counterpart(q, x, y, i);
    KeyOfRow(q, x, rows, i);
    assert RowIs(ops, q, x[i], rows) && RowIs(ops, q, y[j], rows);
    RowsAgree(ops, q, x[i], y[j], rows);
    assert CanonRows(y)[j] == CanonRow(y[j]);
  }

  /**
   Two results of one group-by are the same rows up to ties; where no extremum of doubles is
   asked for they are the same rows.
   */
  lemma ResultsAgree(ops: FloatOps, q: AggQuery, x: seq<Row>, y: seq<Row>, rows: seq<Row>)
    requires q.Valid() && SameWidth(rows, |q.types|) && GroupsAre(ops, q, x, rows) && GroupsAre(ops, q, y, rows)
    requires SumsExact(ops, q, rows)
    ensures SameUpToTies(x, y)
    ensures NoFloatExtremes(q) && RowsFit(q.types, rows) ==> multiset(x) == multiset(y)
  {
    RowsAreWide(q, rows);
    hide GroupsAre, SumsExact, CanonRow, RowsFit, NoFloatExtremes, SameWidth, AggQuery.Valid;
    Carry(ops, q, x, y, rows);
    Carry(ops, q, y, x, rows);
    SameKeys(CanonRows(x), CanonRows(y));
    if NoFloatExtremes(q) && RowsFit(q.types, rows) { SameKeys(x, y); }
  }

  lemma Carry(ops: FloatOps, q: AggQuery, x: seq<Row>, y: seq<Row>, rows: seq<Row>)
    requires q.Valid() && SameWidth(rows, |q.types|) && GroupsAre(ops, q, x, rows) && GroupsAre(ops, q, y, rows)
    requires SumsExact(ops, q, rows)
    ensures forall i, j | 0 <= i < j < |x| :: CanonRows(x)[i] != CanonRows(x)[j] && x[i] != x[j]
    ensures forall r | r in CanonRows(x) :: r in CanonRows(y)
    ensures NoFloatExtremes(q) && RowsFit(q.types, rows) ==> forall r | r in x :: r in y
  {
    RowsAreWide(q, rows);
    hide GroupsAre, SumsExact, CanonRow, RowsFit, SameWidth, AggQuery.Valid, NoFloatExtremes;
    forall i, j | 0 <= i < j < |x| ensures CanonRows(x)[i] != CanonRows(x)[j] && x[i] != x[j] {
      CanonDiffer(ops, q, x, rows, i, j);
    }
    forall r | r in CanonRows(x) ensures r in CanonRows(y) {
      var i :| 0 <= i < |x| && CanonRows(x)[i] == r;
      RowCarries(ops, q, x, y, rows, i);
    }
    if NoFloatExtremes(q) && RowsFit(q.types, rows) {
      forall r | r in x ensures r in y {
        var i :| 0 <= i < |x| && x[i] == r;
        RowCarries(ops, q, x, y, rows, i);
      }
    }
  }

  // ----- the single-threaded result -----

  lemma SingleRowIs(ops: FloatOps, q: AggQuery, single: seq<Row>, rows: seq<Row>, g: nat)
    requires q.Valid() && SameWidth(rows, |q.types|) && WideRows(rows, q.keys) && AggregateIs(ops, q, single, rows) && g < |single|
    ensures |single| == |KeysOf(rows, q.keys)| && KeyPrefix(q, single[g]) == KeysOf(rows, q.keys)[g] && RowIs(ops, q, single[g], rows)
  {
    hide AggIs, InputsOf, GroupKeys, Members;
    if q.keys == [] { NoKeysOneGroup(rows); }
    var k := KeysOf(rows, q.keys)[g];
    assert KeyPrefix(q, single[g]) == k;
    forall a | 0 <= a < |q.aggs| ensures AggCellIs(ops, q, single[g], rows, a) {
      if q.keys != [] {
        AggWeakens(ops, q.aggs[a].func, InputType(q.types, q.aggs[a]), single[g][|q.keys| + a], InputsOf(q.aggs[a], Members(rows, q.keys, k)));
      }
    }
  }

  /** What one thread computes is a result. */
  lemma SingleIsResult(ops: FloatOps, q: AggQuery, single: seq<Row>, rows: seq<Row>)
    requires q.Valid() && SameWidth(rows, |q.types|) && AggregateIs(ops, q, single, rows)
    ensures GroupsAre(ops, q, single, rows)
  {
    RowsAreWide(q, rows);
    SingleSize(ops, q, single, rows);
    hide AggregateIs, RowIs, KeysOf, AggQuery.Valid;
    forall g | 0 <= g < |single|
      ensures KeyColumn(q, single)[g] == KeysOf(rows, q.keys)[g] && RowIs(ops, q, single[g], rows)
    {
      SingleRowIs(ops, q, single, rows, g);
    }
    assert KeyColumn(q, single) == KeysOf(rows, q.keys);
  }

  lemma SingleSize(ops: FloatOps, q: AggQuery, single: seq<Row>, rows: seq<Row>)
    requires q.Valid() && SameWidth(rows, |q.types|) && WideRows(rows, q.keys) && AggregateIs(ops, q, single, rows)
    ensures |single| == |KeysOf(rows, q.keys)|
  {
    hide GroupRowIs, GroupKeys;
  }
}
