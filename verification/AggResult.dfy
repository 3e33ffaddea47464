/**
 The result of an aggregate, said outright: which query is refused, the column types, the
 groups by their first rows, the rows of a group by their numbers, and the value of each
 aggregate by what it is of those rows.
 */
module AggResults {
  import opened Words
  import opened Columns
  import opened KeyRows
  import opened KeyCodes
  import opened SortOrders
  import opened AggMeaning
  import opened AggMerge
  import opened GroupBy
  import opened ExactSums
  import opened RowStores

  // ----- types -----

  /** A sum or an average of strings. */
  predicate AddsStrings(q: AggQuery, a: nat)
    requires forall b | 0 <= b < |q.aggs| :: q.aggs[b].func.CountStar? || q.aggs[b].col < |q.types|
  {
    a < |q.aggs| && (q.aggs[a].func.Sum? || q.aggs[a].func.Avg?) && q.types[q.aggs[a].col].STR?
  }

  /** It is all that is refused. */
  lemma RefusedIff(q: AggQuery)
    requires q.Valid()
    ensures !q.TypesOk() <==> exists a: nat :: AddsStrings(q, a)
  {
    if !q.TypesOk() {
      var a :| 0 <= a < |q.aggs| && ResultType(q.aggs[a].func, InputType(q.types, q.aggs[a])).None?;
      assert AddsStrings(q, a);
    }
    if a: nat :| AddsStrings(q, a) {
      assert ResultType(q.aggs[a].func, InputType(q.types, q.aggs[a])).None?;
    }
  }

  /** The key columns, then the aggregates: counts and integer sums are I64, averages and sums of doubles F64, extrema like their input. */
  ghost predicate ResultTypes(q: AggQuery, ts: seq<Type>)
    requires q.Valid()
  {
    && |ts| == |q.keys| + |q.aggs|
    && (forall j | 0 <= j < |q.keys| :: ts[j] == q.types[q.keys[j]])
    && forall a | 0 <= a < |q.aggs| ::
         match q.aggs[a].func
         case CountStar => ts[|q.keys| + a] == I64
         case Count => ts[|q.keys| + a] == I64
         case Sum => ts[|q.keys| + a] == if q.types[q.aggs[a].col].F64? then Type.F64 else I64
         case Avg => ts[|q.keys| + a] == Type.F64
         case _ => ts[|q.keys| + a] == q.types[q.aggs[a].col]
  }

  lemma OutTypesAre(q: AggQuery)
    requires q.Valid() && q.TypesOk()
    ensures ResultTypes(q, q.OutTypes())
  {
    forall a | 0 <= a < |q.aggs|
      ensures q.OutTypes()[|q.keys| + a] == ResultType(q.aggs[a].func, InputType(q.types, q.aggs[a])).value
    {
    }
  }

  // ----- one aggregate -----

  /** The inputs that are not NULL. */
  ghost function Live(vals: seq<Cell>): set<nat> { set i: nat | i < |vals| && !vals[i].Null? }

  lemma {:induction false} NonNullIs(vals: seq<Cell>)
    ensures NonNull(vals) == |Live(vals)|
  {
    if vals == [] {
      assert Live(vals) == {};
    } else {
      var n := |vals| - 1;
      NonNullIs(vals[..n]);
      assert Live(vals) == Live(vals[..n]) + (if vals[n].Null? then {} else {n});
    }
  }

  /** The sum of a list is that of its parts, and of one cell its integer. */
  lemma SumIntsIs(a: seq<Cell>, b: seq<Cell>, c: Cell)
    ensures SumInts([]) == 0 && SumInts([c]) == (if c.Num? then c.i else 0)
    ensures SumInts(a + b) == SumInts(a) + SumInts(b)
  {
    SumIntsConcat(a, b);
    assert [c][..0] == [];
  }

  /** So it is of the doubles in a list. */
  lemma DoublesIs(a: seq<Cell>, b: seq<Cell>, c: Cell)
    ensures Doubles([]) == [] && Doubles([c]) == (if c.Flt? then [c.bits] else [])
    ensures Doubles(a + b) == Doubles(a) + Doubles(b)
  {
    DoublesConcat(a, b);
    assert [c][..0] == [];
  }

  /** `out` ties an input and no input is before it, for MIN, or after it, for MAX. */
  ghost predicate IsExtreme(min: bool, out: Cell, vals: seq<Cell>) {
    && (exists i :: i in Live(vals) && !ValueBefore(out, vals[i]) && !ValueBefore(vals[i], out))
    && forall i | i in Live(vals) :: if min then !ValueBefore(vals[i], out) else !ValueBefore(out, vals[i])
  }

  ghost predicate ValueIs(strict: bool, ops: FloatOps, func: AggFunc, t: Type, out: Cell, vals: seq<Cell>) {
    if func.CountStar? then out == Num(|vals|)
    else if func.Count? then out == Num(|Live(vals)|)
    else if Live(vals) == {} then out == Null
    else if func.Min? || func.Max? then out != Null && IsExtreme(func.Min?, out, vals)
    else if t.F64? then
      if func.Sum? then out.Flt? && FloatSumIs(strict, ops, out.bits, vals)
      else exists s: u64 :: FloatSumIs(strict, ops, s, vals) && out == Flt(ops.div(s, ops.fromInt(|Live(vals)|)))
    else
      exists s: int :: Reduced(I64, s, SumInts(vals))
        && out == if func.Sum? then Num(s) else Flt(ops.div(ops.fromInt(s), ops.fromInt(|Live(vals)|)))
  }

  lemma ExtremeIs(func: AggFunc, c: Cell, vals: seq<Cell>)
    requires func.Min? || func.Max?
    ensures Extreme(func, c, vals) <==> c != Null && IsExtreme(func.Min?, c, vals)
  {
    forall v | v in vals
      ensures ValueCmp(c, v) < 0 <==> ValueBefore(c, v)
      ensures ValueCmp(c, v) > 0 <==> ValueBefore(v, c)
    {
      ValueCmpIs(c, v);
    }
    hide ValueCmp, ValueBefore;
    if Extreme(func, c, vals) {
      var v :| v in vals && !v.Null? && ValueCmp(c, v) == 0;
      var i: nat :| i < |vals| && vals[i] == v;
      assert i in Live(vals);
    }
    if IsExtreme(func.Min?, c, vals) {
      forall v | v in vals && !v.Null? ensures if func.Min? then ValueCmp(c, v) <= 0 else ValueCmp(c, v) >= 0 {
        var i: nat :| i < |vals| && vals[i] == v;
        assert i in Live(vals);
      }
    }
  }

  lemma AggIsMeans(strict: bool, ops: FloatOps, func: AggFunc, t: Type, out: Cell, vals: seq<Cell>)
    ensures AggIs(strict, ops, func, t, out, vals) <==> ValueIs(strict, ops, func, t, out, vals)
  {
    NonNullIs(vals);
    hide Extreme, IsExtreme, FloatSumIs, Wrap, Reduced, SumInts;
    if func.Min? || func.Max? { ExtremeIs(func, out, vals); }
    WrapReduces(Wrap(SumInts(vals)), SumInts(vals));
    forall s: int | Reduced(I64, s, SumInts(vals)) ensures s == Wrap(SumInts(vals)) { WrapReduces(s, SumInts(vals)); }
  }

  // ----- groups -----

  /** Two rows are of one group: in every key column equal, or both NULL. */
  ghost predicate OneGroup(keys: seq<nat>, a: Row, b: Row)
    requires forall j | 0 <= j < |keys| :: keys[j] < |a| && keys[j] < |b|
  {
    forall j | 0 <= j < |keys| ::
      SameValue(a[keys[j]], b[keys[j]]) || (a[keys[j]].Null? && b[keys[j]].Null?)
  }

  lemma OneGroupIs(keys: seq<nat>, a: Row, b: Row)
    requires forall j | 0 <= j < |keys| :: keys[j] < |a| && keys[j] < |b|
    ensures OneGroup(keys, a, b) <==> RowKey(a, keys) == RowKey(b, keys)
  {
    hide SameValue;
    var x, y := RowKey(a, keys), RowKey(b, keys);
    forall j | 0 <= j < |keys|
      ensures SameValue(a[keys[j]], b[keys[j]]) || (a[keys[j]].Null? && b[keys[j]].Null?) <==> x[j] == y[j]
    {
      SameValueIs(a[keys[j]], b[keys[j]]);
    }
  }

  /** `ms` numbers the rows with the key, in order. */
  ghost predicate NumbersRows(rows: seq<Row>, keys: seq<nat>, key: Row, ms: seq<nat>)
    requires forall r, j | 0 <= r < |rows| && 0 <= j < |keys| :: keys[j] < |rows[r]|
  {
    && Ascending(ms) && (forall r | r in ms :: r < |rows|)
    && forall r: nat | r < |rows| :: r in ms <==> RowKey(rows[r], keys) == key
  }

  lemma NumbersNext(rows: seq<Row>, keys: seq<nat>, key: Row, ms: seq<nat>)
    requires forall r, j | 0 <= r < |rows| && 0 <= j < |keys| :: keys[j] < |rows[r]|
    requires rows != [] && NumbersRows(rows[..|rows| - 1], keys, key, ms)
    ensures NumbersRows(rows, keys, key, if RowKey(rows[|rows| - 1], keys) == key then ms + [|rows| - 1] else ms)
  {
    hide RowKey, Ascending;
    var n := |rows| - 1;
    forall r: nat | r < n ensures r in ms <==> RowKey(rows[r], keys) == key { assert rows[..n][r] == rows[r]; }
    AscendingNext(ms, n);
  }

  lemma MembersNext(rows: seq<Row>, keys: seq<nat>, key: Row)
    requires forall r, j | 0 <= r < |rows| && 0 <= j < |keys| :: keys[j] < |rows[r]|
    requires rows != []
    ensures Members(rows, keys, key)
         == if RowKey(rows[|rows| - 1], keys) == key then Members(rows[..|rows| - 1], keys, key) + [rows[|rows| - 1]]
            else Members(rows[..|rows| - 1], keys, key)
  {
    hide RowKey;
    var before := Members(rows[..|rows| - 1], keys, key);
    assert before + [] == before;
  }

  lemma {:induction false} MembersListed(rows: seq<Row>, keys: seq<nat>, key: Row) returns (ms: seq<nat>)
    requires forall r, j | 0 <= r < |rows| && 0 <= j < |keys| :: keys[j] < |rows[r]|
    ensures NumbersRows(rows, keys, key, ms) && AreRows(Members(rows, keys, key), rows, ms)
  {
    ms := [];
    if rows != [] {
      hide RowKey, NumbersRows, AreRows, Members;
      var n := |rows| - 1;
      ms := MembersListed(rows[..n], keys, key);
      NumbersNext(rows, keys, key, ms);
      AreRowsNext(Members(rows[..n], keys, key), rows, ms);
      MembersNext(rows, keys, key);
      if RowKey(rows[n], keys) == key { ms := ms + [n]; }
    }
  }

  /** No earlier row has the key of row `r`. */
  ghost predicate BringsKey(rows: seq<Row>, keys: seq<nat>, r: nat)
    requires forall r, j | 0 <= r < |rows| && 0 <= j < |keys| :: keys[j] < |rows[r]|
  {
    r < |rows| && forall e: nat | e < r :: RowKey(rows[e], keys) != RowKey(rows[r], keys)
  }

  lemma BringsInPrefix(rows: seq<Row>, keys: seq<nat>, r: nat, n: nat)
    requires forall r, j | 0 <= r < |rows| && 0 <= j < |keys| :: keys[j] < |rows[r]|
    requires r < n <= |rows|
    ensures BringsKey(rows[..n], keys, r) <==> BringsKey(rows, keys, r)
  {
    hide RowKey;
    forall e: nat | e < n ensures rows[..n][e] == rows[e] {}
  }

  lemma LastBrings(rows: seq<Row>, keys: seq<nat>)
    requires forall r, j | 0 <= r < |rows| && 0 <= j < |keys| :: keys[j] < |rows[r]|
    requires rows != []
    ensures BringsKey(rows, keys, |rows| - 1) <==> RowKey(rows[|rows| - 1], keys) !in GroupKeys(rows[..|rows| - 1], keys)
  {
    hide RowKey;
    var n := |rows| - 1;
    GroupKeysDistinct(rows[..n], keys);
    if RowKey(rows[n], keys) in GroupKeys(rows[..n], keys) {
      var e :| 0 <= e < n && RowKey(rows[..n][e], keys) == RowKey(rows[n], keys);
      assert rows[..n][e] == rows[e];
    } else {
      forall e: nat | e < n ensures RowKey(rows[e], keys) != RowKey(rows[n], keys) { assert rows[..n][e] == rows[e]; }
    }
  }

  /** `fs` numbers the rows that bring a key, in order. */
  ghost predicate NumbersFirsts(rows: seq<Row>, keys: seq<nat>, fs: seq<nat>)
    requires forall r, j | 0 <= r < |rows| && 0 <= j < |keys| :: keys[j] < |rows[r]|
  {
    && Ascending(fs) && (forall r | r in fs :: r < |rows|)
    && forall r: nat | r < |rows| :: r in fs <==> BringsKey(rows, keys, r)
  }

  lemma FirstsNext(rows: seq<Row>, keys: seq<nat>, fs: seq<nat>)
    requires forall r, j | 0 <= r < |rows| && 0 <= j < |keys| :: keys[j] < |rows[r]|
    requires rows != [] && NumbersFirsts(rows[..|rows| - 1], keys, fs)
    ensures NumbersFirsts(rows, keys, if BringsKey(rows, keys, |rows| - 1) then fs + [|rows| - 1] else fs)
  {
    hide BringsKey, Ascending;
    var n := |rows| - 1;
    forall r: nat | r < n ensures r in fs <==> BringsKey(rows, keys, r) { BringsInPrefix(rows, keys, r, n); }
    AscendingNext(fs, n);
  }

  /** The keys are those of the rows numbered `fs`. */
  ghost predicate AreKeys(ks: seq<Row>, rows: seq<Row>, keys: seq<nat>, fs: seq<nat>)
    requires forall r, j | 0 <= r < |rows| && 0 <= j < |keys| :: keys[j] < |rows[r]|
  {
    |ks| == |fs| && forall g | 0 <= g < |fs| :: fs[g] < |rows| && ks[g] == RowKey(rows[fs[g]], keys)
  }

  lemma AreKeysNext(ks: seq<Row>, rows: seq<Row>, keys: seq<nat>, fs: seq<nat>)
    requires forall r, j | 0 <= r < |rows| && 0 <= j < |keys| :: keys[j] < |rows[r]|
    requires rows != [] && AreKeys(ks, rows[..|rows| - 1], keys, fs)
    ensures AreKeys(ks, rows, keys, fs) && AreKeys(ks + [RowKey(rows[|rows| - 1], keys)], rows, keys, fs + [|rows| - 1])
  {
    hide RowKey;
    forall g | 0 <= g < |fs| ensures fs[g] < |rows| && ks[g] == RowKey(rows[fs[g]], keys) {
      assert rows[..|rows| - 1][fs[g]] == rows[fs[g]];
    }
  }

  lemma {:induction false} KeysListed(rows: seq<Row>, keys: seq<nat>) returns (fs: seq<nat>)
    requires forall r, j | 0 <= r < |rows| && 0 <= j < |keys| :: keys[j] < |rows[r]|
    ensures NumbersFirsts(rows, keys, fs) && AreKeys(GroupKeys(rows, keys), rows, keys, fs)
  {
    fs := [];
    if rows != [] {
      hide RowKey, BringsKey, NumbersFirsts, AreKeys;
      var n := |rows| - 1;
      fs := KeysListed(rows[..n], keys);
      FirstsNext(rows, keys, fs);
      LastBrings(rows, keys);
      AreKeysNext(GroupKeys(rows[..n], keys), rows, keys, fs);
      if BringsKey(rows, keys, n) { fs := fs + [n]; }
    }
  }

  /** The aggregates of the rows numbered `ms`. */
  ghost predicate AggregatesOf(strict: bool, ops: FloatOps, q: AggQuery, rows: seq<Row>, ms: seq<nat>, out: Row)
    requires q.Valid() && SameWidth(rows, |q.types|) && forall i | 0 <= i < |ms| :: ms[i] < |rows|
  {
    && |out| == |q.keys| + |q.aggs|
    && forall a | 0 <= a < |q.aggs| ::
         if q.aggs[a].func.CountStar? then out[|q.keys| + a] == Num(|ms|)
         else ValueIs(strict, ops, q.aggs[a].func, q.types[q.aggs[a].col], out[|q.keys| + a], ColumnOf(rows, ms, q.aggs[a].col))
  }

  function ColumnOf(rows: seq<Row>, ms: seq<nat>, col: nat): seq<Cell>
    requires forall i | 0 <= i < |ms| :: ms[i] < |rows| && col < |rows[ms[i]]|
  {
    seq(|ms|, i requires 0 <= i < |ms| => rows[ms[i]][col])
  }

  /** `ms` numbers the rows of the group of row `first`, in order. */
  ghost predicate NumbersGroup(rows: seq<Row>, keys: seq<nat>, first: nat, ms: seq<nat>)
    requires forall r, j | 0 <= r < |rows| && 0 <= j < |keys| :: keys[j] < |rows[r]|
    requires first < |rows|
  {
    && Ascending(ms) && (forall r | r in ms :: r < |rows|)
    && forall r: nat | r < |rows| :: r in ms <==> OneGroup(keys, rows[r], rows[first])
  }

  /** No earlier row is of the group of row `r`. */
  ghost predicate BeginsGroup(rows: seq<Row>, keys: seq<nat>, r: nat)
    requires forall r, j | 0 <= r < |rows| && 0 <= j < |keys| :: keys[j] < |rows[r]|
  {
    r < |rows| && forall e: nat | e < r :: !OneGroup(keys, rows[e], rows[r])
  }

  ghost predicate GroupOfRows(ops: FloatOps, q: AggQuery, rows: seq<Row>, first: nat, ms: seq<nat>, out: Row)
    requires q.Valid() && SameWidth(rows, |q.types|) && first < |rows|
  {
    && NumbersGroup(rows, q.keys, first, ms) && (forall i | 0 <= i < |ms| :: ms[i] < |rows|)
    && AggregatesOf(true, ops, q, rows, ms, out)
  }

  /** The group that row `first` begins: its key, and its aggregates over the rows of the group, in order. */
  ghost predicate GroupFrom(ops: FloatOps, q: AggQuery, rows: seq<Row>, first: nat, out: Row)
    requires q.Valid() && SameWidth(rows, |q.types|) && first < |rows|
  {
    && |out| == |q.keys| + |q.aggs|
    && (forall j | 0 <= j < |q.keys| :: out[j] == KeyCell(rows[first][q.keys[j]]))
    && exists ms: seq<nat> :: GroupOfRows(ops, q, rows, first, ms, out)
  }

  /** One row for each row that no earlier one shares a group with, in order; without keys, one row for them all. */
  ghost predicate IsResult(ops: FloatOps, q: AggQuery, rows: seq<Row>, out: seq<Row>)
    requires q.Valid()
  {
    && SameWidth(rows, |q.types|)
    && if q.keys == [] then |out| == 1 && AggregatesOf(false, ops, q, rows, seq(|rows|, r => r), out[0])
       else
         exists firsts: seq<nat> ::
           && Ascending(firsts) && |firsts| == |out| && (forall r: nat :: r in firsts <==> BeginsGroup(rows, q.keys, r))
           && forall g | 0 <= g < |out| :: firsts[g] < |rows| && GroupFrom(ops, q, rows, firsts[g], out[g])
  }

  lemma RowMeans(strict: bool, ops: FloatOps, q: AggQuery, rows: seq<Row>, ms: seq<nat>, members: seq<Row>, out: Row, key: Row)
    requires q.Valid() && SameWidth(rows, |q.types|) && SameWidth(members, |q.types|) && AreRows(members, rows, ms)
    requires GroupRowIs(strict, ops, q, out, key, members)
    ensures AggregatesOf(strict, ops, q, rows, ms, out)
  {
    hide AggIs, ValueIs;
    forall a | 0 <= a < |q.aggs|
      ensures if q.aggs[a].func.CountStar? then out[|q.keys| + a] == Num(|ms|)
        else ValueIs(strict, ops, q.aggs[a].func, q.types[q.aggs[a].col], out[|q.keys| + a], ColumnOf(rows, ms, q.aggs[a].col))
    {
      var spec := q.aggs[a];
      var vals := InputsOf(spec, members);
      AggIsMeans(strict, ops, spec.func, InputType(q.types, spec), out[|q.keys| + a], vals);
      if spec.func.CountStar? {
        CountsAll(strict, ops, InputType(q.types, spec), out[|q.keys| + a], vals);
      } else {
        assert vals == ColumnOf(rows, ms, spec.col);
      }
    }
  }

  lemma CountsAll(strict: bool, ops: FloatOps, t: Type, out: Cell, vals: seq<Cell>)
    ensures ValueIs(strict, ops, AggFunc.CountStar, t, out, vals) <==> out == Num(|vals|)
  {
  }

  lemma GroupListed(rows: seq<Row>, keys: seq<nat>, first: nat, ms: seq<nat>)
    requires forall r, j | 0 <= r < |rows| && 0 <= j < |keys| :: keys[j] < |rows[r]|
    requires first < |rows| && NumbersRows(rows, keys, RowKey(rows[first], keys), ms)
    ensures NumbersGroup(rows, keys, first, ms)
  {
    hide OneGroup, Ascending, RowKey;
    forall r: nat | r < |rows| ensures OneGroup(keys, rows[r], rows[first]) <==> r in ms { OneGroupIs(keys, rows[r], rows[first]); }
  }

  lemma BeginsIs(rows: seq<Row>, keys: seq<nat>, r: nat)
    requires forall r, j | 0 <= r < |rows| && 0 <= j < |keys| :: keys[j] < |rows[r]|
    ensures BeginsGroup(rows, keys, r) <==> BringsKey(rows, keys, r)
  {
    hide OneGroup, RowKey;
    if r < |rows| {
      forall e: nat | e < r ensures OneGroup(keys, rows[e], rows[r]) <==> RowKey(rows[e], keys) == RowKey(rows[r], keys) {
        OneGroupIs(keys, rows[e], rows[r]);
      }
    }
  }

  lemma KeyMeans(strict: bool, ops: FloatOps, q: AggQuery, row: Row, members: seq<Row>, out: Row)
    requires q.Valid() && |row| == |q.types| && SameWidth(members, |q.types|)
    requires GroupRowIs(strict, ops, q, out, RowKey(row, q.keys), members)
    ensures |out| == |q.keys| + |q.aggs| && forall j | 0 <= j < |q.keys| :: out[j] == KeyCell(row[q.keys[j]])
  {
    hide AggIs;
    forall j | 0 <= j < |q.keys| ensures out[j] == KeyCell(row[q.keys[j]]) { assert out[j] == out[..|q.keys|][j]; }
  }

  lemma GroupMeans(ops: FloatOps, q: AggQuery, rows: seq<Row>, first: nat, out: Row)
    requires q.Valid() && SameWidth(rows, |q.types|) && first < |rows|
    requires GroupRowIs(true, ops, q, out, RowKey(rows[first], q.keys), Members(rows, q.keys, RowKey(rows[first], q.keys)))
    ensures GroupFrom(ops, q, rows, first, out)
  {
    var key := RowKey(rows[first], q.keys);
    hide GroupRowIs, AggregatesOf, RowKey, NumbersRows, NumbersGroup, Members, KeyCell;
    KeyMeans(true, ops, q, rows[first], Members(rows, q.keys, key), out);
    var ms := MembersListed(rows, q.keys, key);
    GroupListed(rows, q.keys, first, ms);
    RowMeans(true, ops, q, rows, ms, Members(rows, q.keys, key), out, key);
    assert GroupOfRows(ops, q, rows, first, ms, out);
  }

  lemma ResultMeans(ops: FloatOps, q: AggQuery, rows: seq<Row>, out: seq<Row>)
    requires q.Valid() && SameWidth(rows, |q.types|)
    requires if q.keys == [] then |out| == 1 && GroupRowIs(false, ops, q, out[0], [], rows) else GroupByIs(true, ops, q, out, rows)
    ensures IsResult(ops, q, rows, out)
  {
    hide GroupRowIs, AggregatesOf, GroupFrom, BeginsGroup, BringsKey, RowKey;
    if q.keys == [] {
      RowMeans(false, ops, q, rows, seq(|rows|, r => r), rows, out[0], []);
    } else {
      var firsts := KeysListed(rows, q.keys);
      forall r: nat ensures BeginsGroup(rows, q.keys, r) <==> r in firsts { BeginsIs(rows, q.keys, r); BringsInRange(rows, q.keys, r); }
      forall g | 0 <= g < |out| ensures GroupFrom(ops, q, rows, firsts[g], out[g]) {
        GroupMeans(ops, q, rows, firsts[g], out[g]);
      }
    }
  }

  lemma BringsInRange(rows: seq<Row>, keys: seq<nat>, r: nat)
    requires forall r, j | 0 <= r < |rows| && 0 <= j < |keys| :: keys[j] < |rows[r]|
    ensures BringsKey(rows, keys, r) ==> r < |rows|
  {
  }
}
