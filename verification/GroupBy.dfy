/**
 What GROUP BY means: one row per distinct key in first-seen order, each aggregate taken
 over exactly the rows of that key.
 */
module GroupBy {
  import opened Words
  import opened Columns
  import opened GroupIds
  import opened KeyRows
  import opened KeyCodes
  import opened KeyedInputs
  import opened AggMeaning
  import D = StringDicts

  datatype AggQuery = AggQuery(types: seq<Type>, keys: seq<nat>, aggs: seq<AggSpec>)
  {
    ghost predicate Valid() {
      && |keys| <= MAX_KEY_COLUMNS && (forall j | 0 <= j < |keys| :: keys[j] < |types|)
      && aggs != [] && (forall a | 0 <= a < |aggs| :: aggs[a].func.CountStar? || aggs[a].col < |types|)
    }

    /** Every aggregate is defined on its input type. */
    predicate TypesOk()
      requires forall a | 0 <= a < |aggs| :: aggs[a].func.CountStar? || aggs[a].col < |types|
    {
      forall a | 0 <= a < |aggs| :: ResultType(aggs[a].func, InputType(types, aggs[a])).Some?
    }

    /** The output schema: the keys, then the aggregates. */
    function OutTypes(): (ts: seq<Type>)
      requires Valid() && TypesOk()
      ensures |ts| == |keys| + |aggs|
    {
      KeyTypes(types, keys)
      + seq(|aggs|, a requires 0 <= a < |aggs| => ResultType(aggs[a].func, InputType(types, aggs[a])).value)
    }
  }

  function InputType(types: seq<Type>, spec: AggSpec): Type
    requires spec.func.CountStar? || spec.col < |types|
  {
    if spec.func.CountStar? then I64 else types[spec.col]
  }

  /** The value of a row that an aggregate reads; COUNT(*) reads none. */
  function InputOf(spec: AggSpec, row: Row): Cell
    requires spec.func.CountStar? || spec.col < |row|
  {
    if spec.func.CountStar? then Null else row[spec.col]
  }

  function InputsOf(spec: AggSpec, rows: seq<Row>): (vals: seq<Cell>)
    requires forall r | 0 <= r < |rows| :: spec.func.CountStar? || spec.col < |rows[r]|
    ensures |vals| == |rows|
  {
    seq(|rows|, r requires 0 <= r < |rows| => InputOf(spec, rows[r]))
  }

  lemma InputsConcat(spec: AggSpec, a: seq<Row>, b: seq<Row>)
    requires forall r | 0 <= r < |a| :: spec.func.CountStar? || spec.col < |a[r]|
    requires forall r | 0 <= r < |b| :: spec.func.CountStar? || spec.col < |b[r]|
    ensures InputsOf(spec, a + b) == InputsOf(spec, a) + InputsOf(spec, b)
  {
  }

  // ----- groups -----

  /** The distinct keys in first-seen order. */
  function GroupKeys(rows: seq<Row>, keys: seq<nat>): (ks: seq<Row>)
    requires forall r, j | 0 <= r < |rows| && 0 <= j < |keys| :: keys[j] < |rows[r]|
    ensures |ks| <= |rows|
  {
    if rows == [] then []
    else
      var before := GroupKeys(rows[..|rows| - 1], keys);
      var k := RowKey(rows[|rows| - 1], keys);
      if k in before then before else before + [k]
  }

  /** The rows of one key, in order. */
  function Members(rows: seq<Row>, keys: seq<nat>, key: Row): (m: seq<Row>)
    requires forall r, j | 0 <= r < |rows| && 0 <= j < |keys| :: keys[j] < |rows[r]|
    ensures |m| <= |rows|
    ensures forall i | 0 <= i < |m| :: m[i] in rows
  {
    if rows == [] then []
    else
      var last := rows[|rows| - 1];
      Members(rows[..|rows| - 1], keys, key) + (if RowKey(last, keys) == key then [last] else [])
  }

  /** `out` is the output row of the group `members` with key `key`. */
  ghost predicate GroupRowIs(strict: bool, ops: FloatOps, q: AggQuery, out: Row, key: Row, members: seq<Row>)
    requires q.Valid() && SameWidth(members, |q.types|)
  {
    && |out| == |q.keys| + |q.aggs| && out[..|q.keys|] == key
    && forall a | 0 <= a < |q.aggs| ::
         AggIs(strict, ops, q.aggs[a].func, InputType(q.types, q.aggs[a]), out[|q.keys| + a], InputsOf(q.aggs[a], members))
  }

  /** `out` is the whole result: one row per distinct key, in first-seen order. */
  ghost predicate GroupByIs(strict: bool, ops: FloatOps, q: AggQuery, out: seq<Row>, rows: seq<Row>)
    requires q.Valid() && SameWidth(rows, |q.types|)
  {
    && |out| == |GroupKeys(rows, q.keys)|
    && forall g | 0 <= g < |out| ::
         var key := GroupKeys(rows, q.keys)[g];
         GroupRowIs(strict, ops, q, out[g], key, Members(rows, q.keys, key))
  }

  /** The keys of the groups are exactly the keys of the rows, each once. */
  lemma {:induction false} GroupKeysDistinct(rows: seq<Row>, keys: seq<nat>)
    requires forall r, j | 0 <= r < |rows| && 0 <= j < |keys| :: keys[j] < |rows[r]|
    ensures forall i, j | 0 <= i < j < |GroupKeys(rows, keys)| :: GroupKeys(rows, keys)[i] != GroupKeys(rows, keys)[j]
    ensures forall r | 0 <= r < |rows| :: RowKey(rows[r], keys) in GroupKeys(rows, keys)
    ensures forall k | k in GroupKeys(rows, keys) :: exists r :: 0 <= r < |rows| && RowKey(rows[r], keys) == k
  {
    hide RowKey;
    if rows != [] {
      var init := rows[..|rows| - 1];
      GroupKeysDistinct(init, keys);
      forall k | k in GroupKeys(rows, keys) ensures exists r :: 0 <= r < |rows| && RowKey(rows[r], keys) == k {
        if k in GroupKeys(init, keys) {
          var r :| 0 <= r < |init| && RowKey(init[r], keys) == k;
          assert RowKey(rows[r], keys) == k;
        } else {
          assert RowKey(rows[|rows| - 1], keys) == k;
        }
      }
      forall r | 0 <= r < |rows| ensures RowKey(rows[r], keys) in GroupKeys(rows, keys) {
        if r < |init| { assert RowKey(init[r], keys) in GroupKeys(init, keys); }
      }
    }
  }

  /** With no key columns there is one key, the empty one. */
  lemma {:induction false} NoKeysOneGroup(rows: seq<Row>)
    ensures GroupKeys(rows, []) == if rows == [] then [] else [[]]
    ensures Members(rows, [], []) == rows
  {
    if rows != [] {
      NoKeysOneGroup(rows[..|rows| - 1]);
      assert RowKey(rows[|rows| - 1], []) == [];
      assert rows == rows[..|rows| - 1] + [rows[|rows| - 1]];
    }
  }

  // ----- the table's ids are the groups -----

  /** The rows listed under an id. */
  function Select(rows: seq<Row>, ids: seq<nat>, g: nat): (m: seq<Row>)
    requires |ids| == |rows|
    ensures |m| <= |rows|
    ensures forall i | 0 <= i < |m| :: m[i] in rows
  {
    if rows == [] then []
    else
      Select(rows[..|rows| - 1], ids[..|ids| - 1], g)
      + (if ids[|ids| - 1] == g then [rows[|rows| - 1]] else [])
  }

  lemma {:induction false} SelectIsMembers(rows: seq<Row>, ids: seq<nat>, g: nat, keys: seq<nat>, key: Row)
    requires |ids| == |rows| && forall r, j | 0 <= r < |rows| && 0 <= j < |keys| :: keys[j] < |rows[r]|
    requires forall r | 0 <= r < |rows| :: ids[r] == g <==> RowKey(rows[r], keys) == key
    ensures Select(rows, ids, g) == Members(rows, keys, key)
  {
    hide RowKey;
    if rows != [] {
      var n := |rows| - 1;
      assert ids[..n] == ids[..|ids| - 1];
      SelectIsMembers(rows[..n], ids[..n], g, keys, key);
    }
  }

  lemma SelectNext(rows: seq<Row>, ids: seq<nat>, row: Row, id: nat, g: nat)
    requires |ids| == |rows|
    ensures Select(rows + [row], ids + [id], g) == Select(rows, ids, g) + (if id == g then [row] else [])
  {
    assert (rows + [row])[..|rows + [row]| - 1] == rows && (ids + [id])[..|ids + [id]| - 1] == ids;
  }

  /** A group's key word at the width of its column. */
  function KeyValue(t: Type, w: Option<u64>): Option<int> {
    match w
    case None => None
    case Some(x) =>
      match t
      case I32 | STR => Some(AsInt32(x))
      case I64 | TS => Some(AsSigned64(x))
      case F64 => Some(x)
      case BOOL => Some(x % 2)
  }

  /** And as the value it stands for. */
  function DecodeWord(t: Type, d: D.Dict, w: Option<u64>): Cell {
    if ValueFits(t, KeyValue(t, w), d) then CellOf(t, KeyValue(t, w), d) else Null
  }

  function DecodeTuple(types: seq<Type>, dicts: seq<D.Dict>, k: KeyTuple): (key: Row)
    requires |types| == |dicts| == |k|
    ensures |key| == |k|
  {
    seq(|k|, j requires 0 <= j < |k| => DecodeWord(types[j], dicts[j], k[j]))
  }

  lemma DecodeIsKey(t: Type, d: D.Dict, c: Cell)
    requires Holds(t, c) && (c.Str? ==> c.s in d) && (t.STR? ==> |d| <= TWO_31)
    ensures ValueFits(t, KeyValue(t, WordOf(t, d, c)), d) && DecodeWord(t, d, WordOf(t, d, c)) == KeyCell(c)
  {
  }

  lemma DecodedRowKey(types: seq<Type>, dicts: seq<D.Dict>, row: Row, keys: seq<nat>)
    requires forall j | 0 <= j < |keys| :: keys[j] < |row|
    requires Known(types, dicts, KeyCells(row, keys)) && Small(types, dicts)
    ensures DecodeTuple(types, dicts, TupleOf(types, dicts, KeyCells(row, keys))) == RowKey(row, keys)
  {
    hide Holds, WordOf, DecodeWord, KeyCell;
    forall j | 0 <= j < |keys|
      ensures DecodeTuple(types, dicts, TupleOf(types, dicts, KeyCells(row, keys)))[j] == RowKey(row, keys)[j]
    {
      DecodeIsKey(types[j], dicts[j], KeyCells(row, keys)[j]);
    }
  }

  /** The keys the table's groups stand for. */
  ghost function DecodedGroups(types: seq<Type>, keys: seq<nat>, dicts: seq<D.Dict>, groups: seq<KeyTuple>): (ks: seq<Row>)
    requires KeysFit(types, keys) && |dicts| == |keys| && forall g | 0 <= g < |groups| :: |groups[g]| == |keys|
    ensures |ks| == |groups|
  {
    seq(|groups|, g requires 0 <= g < |groups| => DecodeTuple(KeyTypes(types, keys), dicts, groups[g]))
  }

  ghost predicate Wide(groups: seq<KeyTuple>, n: nat) { forall g | 0 <= g < |groups| :: |groups[g]| == n }

  lemma GroupsWide(types: seq<Type>, keys: seq<nat>, dicts: seq<D.Dict>, rows: seq<Row>)
    requires AllKnown(types, keys, dicts, rows)
    ensures Wide(GroupsOf(EqualNulls, types, keys, dicts, rows), |keys|)
  {
    hide Known, TupleOf, AssignAll;
    var ks := TuplesOf(types, keys, dicts, rows);
    KeysComeFromRows(EqualNulls, ks);
    var groups := GroupsOf(EqualNulls, types, keys, dicts, rows);
    forall g | 0 <= g < |groups| ensures |groups[g]| == |keys| {
      assert groups[g] in ks;
    }
  }

  lemma KnownPrefix(types: seq<Type>, keys: seq<nat>, dicts: seq<D.Dict>, rows: seq<Row>)
    requires AllKnown(types, keys, dicts, rows) && rows != []
    ensures var init := rows[..|rows| - 1];
      && AllKnown(types, keys, dicts, init)
      && TuplesOf(types, keys, dicts, init) == TuplesOf(types, keys, dicts, rows)[..|rows| - 1]
  {
    hide Known, TupleOf;
  }

  /** The table's groups are the distinct keys in first-seen order. */
  lemma {:induction false} GroupsAreKeys(types: seq<Type>, keys: seq<nat>, dicts: seq<D.Dict>, rows: seq<Row>)
    requires AllKnown(types, keys, dicts, rows) && |dicts| == |keys| && Small(KeyTypes(types, keys), dicts)
    ensures var groups := GroupsOf(EqualNulls, types, keys, dicts, rows);
      Wide(groups, |keys|) && DecodedGroups(types, keys, dicts, groups) == GroupKeys(rows, keys)
  {
    GroupsWide(types, keys, dicts, rows);
    if rows != [] {
      hide Known, TupleOf, RowKey, DecodeTuple, Lookup;
      var init, last := rows[..|rows| - 1], rows[|rows| - 1];
      KnownPrefix(types, keys, dicts, rows);
      GroupsAreKeys(types, keys, dicts, init);
      NewGroupIffNewKey(types, keys, dicts, init, last);
      DecodedRowKey(KeyTypes(types, keys), dicts, last, keys);
    }
  }

  lemma NewGroupIffNewKey(types: seq<Type>, keys: seq<nat>, dicts: seq<D.Dict>, init: seq<Row>, last: Row)
    requires AllKnown(types, keys, dicts, init) && AllKnown(types, keys, dicts, [last])
    requires |dicts| == |keys| && Small(KeyTypes(types, keys), dicts)
    requires var groups := GroupsOf(EqualNulls, types, keys, dicts, init);
      Wide(groups, |keys|) && DecodedGroups(types, keys, dicts, groups) == GroupKeys(init, keys)
    ensures var t := TuplesOf(types, keys, dicts, [last])[0];
      Lookup(EqualNulls, GroupsOf(EqualNulls, types, keys, dicts, init), t).Some?
      <==> RowKey(last, keys) in GroupKeys(init, keys)
  {
    hide Known, TupleOf, RowKey, DecodeTuple, AssignAll, GroupKeys;
    var kts := KeyTypes(types, keys);
    var t := TuplesOf(types, keys, dicts, [last])[0];
    var groups, ks := GroupsOf(EqualNulls, types, keys, dicts, init), TuplesOf(types, keys, dicts, init);
    assert [last][0] == last;
    DecodedRowKey(kts, dicts, last, keys);
    if t in groups {
      var g :| 0 <= g < |groups| && groups[g] == t;
      assert DecodedGroups(types, keys, dicts, groups)[g] == RowKey(last, keys);
    }
    if RowKey(last, keys) in GroupKeys(init, keys) {
      var g :| 0 <= g < |groups| && DecodedGroups(types, keys, dicts, groups)[g] == RowKey(last, keys);
      KeysComeFromRows(EqualNulls, ks);
      assert groups[g] in ks;
      var r :| 0 <= r < |init| && ks[r] == groups[g];
      DecodedRowKey(kts, dicts, init[r], keys);
      SameTupleIffSameKey(kts, dicts, init[r], keys, last, keys);
      assert t == groups[g];
    }
  }

  /** A row is listed under exactly its key's group. */
  lemma IdIffKey(types: seq<Type>, keys: seq<nat>, dicts: seq<D.Dict>, rows: seq<Row>, r: nat, g: nat)
    requires AllKnown(types, keys, dicts, rows) && |dicts| == |keys| && Small(KeyTypes(types, keys), dicts)
    requires r < |rows| && g < |GroupKeys(rows, keys)|
    ensures |GroupsOf(EqualNulls, types, keys, dicts, rows)| == |GroupKeys(rows, keys)|
    ensures IdsOf(EqualNulls, types, keys, dicts, rows)[r] == g <==> RowKey(rows[r], keys) == GroupKeys(rows, keys)[g]
  {
    hide Known, TupleOf, RowKey, DecodeTuple, GroupKeys, AssignAll;
    GroupsAreKeys(types, keys, dicts, rows);
    GroupKeysDistinct(rows, keys);
    var groups, ks := GroupsOf(EqualNulls, types, keys, dicts, rows), TuplesOf(types, keys, dicts, rows);
    var id := IdsOf(EqualNulls, types, keys, dicts, rows)[r];
    IdsReadBack(EqualNulls, [], ks);
    assert groups[id] == ks[r];
    DecodedRowKey(KeyTypes(types, keys), dicts, rows[r], keys);
    assert DecodedGroups(types, keys, dicts, groups)[id] == RowKey(rows[r], keys);
  }
}
