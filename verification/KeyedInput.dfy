/**
 Feeding batches to the hash table: the key columns are taken from each batch, strings
 canonicalized, and the rows inserted or looked up. The ids that result are those of
 the whole input at once, however it was cut into batches.
 */
module KeyedInputs {
  import opened Words
  import opened Columns
  import opened GroupIds
  import opened KeyRows
  import opened HashTables
  import opened KeyCodes
  import D = StringDicts

  ghost predicate KeysFit(types: seq<Type>, keys: seq<nat>) {
    && 1 <= |keys| <= MAX_KEY_COLUMNS
    && forall j | 0 <= j < |keys| :: keys[j] < |types|
  }

  /** Every string of every key has an id. */
  ghost predicate AllKnown(types: seq<Type>, keys: seq<nat>, dicts: seq<D.Dict>, rows: seq<Row>) {
    && KeysFit(types, keys)
    && forall r | 0 <= r < |rows| ::
         |rows[r]| == |types| && Known(KeyTypes(types, keys), dicts, KeyCells(rows[r], keys))
  }

  ghost function TuplesOf(types: seq<Type>, keys: seq<nat>, dicts: seq<D.Dict>, rows: seq<Row>): (ks: seq<KeyTuple>)
    requires AllKnown(types, keys, dicts, rows)
    ensures |ks| == |rows|
  {
    seq(|rows|, r requires 0 <= r < |rows| =>
      TupleOf(KeyTypes(types, keys), dicts, KeyCells(rows[r], keys)))
  }

  /** The keys of the groups, in id order. */
  ghost function GroupsOf(policy: NullPolicy, types: seq<Type>, keys: seq<nat>, dicts: seq<D.Dict>, rows: seq<Row>): seq<KeyTuple>
    requires AllKnown(types, keys, dicts, rows)
  {
    AssignAll(policy, [], TuplesOf(types, keys, dicts, rows)).0
  }

  /** The group id of every row. */
  ghost function IdsOf(policy: NullPolicy, types: seq<Type>, keys: seq<nat>, dicts: seq<D.Dict>, rows: seq<Row>): (ids: seq<nat>)
    requires AllKnown(types, keys, dicts, rows)
    ensures |ids| == |rows|
    ensures forall r | 0 <= r < |rows| :: ids[r] < |GroupsOf(policy, types, keys, dicts, rows)|
  {
    AssignAll(policy, [], TuplesOf(types, keys, dicts, rows)).1
  }

  /** The table has taken in the keys of `rows`, in order. */
  ghost predicate Fed(ht: HashTable, types: seq<Type>, keys: seq<nat>, dicts: seq<D.Dict>, rows: seq<Row>)
    reads ht
  {
    && ht.Valid() && ht.ncols == |keys| == |dicts|
    && AllKnown(types, keys, dicts, rows)
    && ht.Contents() == GroupsOf(ht.policy, types, keys, dicts, rows)
  }

  ghost predicate RoomFor(types: seq<Type>, keys: seq<nat>, dicts: seq<D.Dict>, n: nat) {
    && KeysFit(types, keys) && |dicts| == |keys|
    && forall j | 0 <= j < |keys| && types[keys[j]].STR? :: |dicts[j]| + n <= TWO_31
  }

  /** One empty dictionary per key column. */
  function NoStrings(n: nat): (dicts: seq<D.Dict>)
    ensures |dicts| == n && forall j | 0 <= j < n :: dicts[j] == []
  {
    seq(n, _ => [])
  }

  /** Ids already given out, and tuples already made, survive later interning. */
  lemma TuplesStable(types: seq<Type>, keys: seq<nat>, dicts: seq<D.Dict>, dicts': seq<D.Dict>, rows: seq<Row>)
    requires AllKnown(types, keys, dicts, rows) && Extends(dicts, dicts')
    ensures AllKnown(types, keys, dicts', rows)
    ensures TuplesOf(types, keys, dicts', rows) == TuplesOf(types, keys, dicts, rows)
    ensures forall policy: NullPolicy ::
      && GroupsOf(policy, types, keys, dicts', rows) == GroupsOf(policy, types, keys, dicts, rows)
      && IdsOf(policy, types, keys, dicts', rows) == IdsOf(policy, types, keys, dicts, rows)
  {
    hide Known, TupleOf;
    forall r | 0 <= r < |rows|
      ensures Known(KeyTypes(types, keys), dicts', KeyCells(rows[r], keys))
      ensures TupleOf(KeyTypes(types, keys), dicts', KeyCells(rows[r], keys))
           == TupleOf(KeyTypes(types, keys), dicts, KeyCells(rows[r], keys))
    {
      TupleStable(KeyTypes(types, keys), dicts, dicts', KeyCells(rows[r], keys));
    }
  }

  lemma RoomAfter(types: seq<Type>, keys: seq<nat>, dicts: seq<D.Dict>, dicts': seq<D.Dict>, b: Batch, n: nat)
    requires BatchFits(b, types) && RoomFor(types, keys, dicts, b.rowCount + n) && |dicts'| == |dicts|
    requires forall j | 0 <= j < |keys| :: dicts'[j] == DictAfter(dicts[j], b, keys[j])
    ensures RoomFor(types, keys, dicts', n)
  {
  }

  /** Normalize canonical key columns: one key row per live row, carrying that row's tuple. */
  method NormalizeViews(kb: Batch, ghost b: Batch, ghost types: seq<Type>, ghost keys: seq<nat>,
                        ghost dicts: seq<D.Dict>, combine: Combine, seed: u64)
    returns (rows: seq<KeyRow>)
    requires BatchFits(b, types) && KeysFit(types, keys)
    requires kb.Valid() && |kb.cols| == |keys| && kb.rowCount == b.rowCount
    requires forall k: nat | k < b.rowCount :: TupleAgrees(kb, b, types, keys, dicts, k)
    ensures AllWellFormed(rows, |keys|, combine, seed)
    ensures AllKnown(types, keys, dicts, b.Rows())
    ensures Tuples(rows, |keys|) == TuplesOf(types, keys, dicts, b.Rows())
  {
    hide Known, TupleOf, TupleAt, KeyRow.Tuple, RowHash, Column.Valid;
    rows := NormalizeAndHash(kb, combine, seed);
    forall k: nat | k < b.rowCount
      ensures |b.Rows()[k]| == |types| && Known(KeyTypes(types, keys), dicts, KeyCells(b.Rows()[k], keys))
      ensures rows[k].Tuple() == TupleOf(KeyTypes(types, keys), dicts, KeyCells(b.Rows()[k], keys))
    {
      assert TupleAgrees(kb, b, types, keys, dicts, k);
    }
  }

  /** Normalize a batch's keys, each key position with its own dictionary. */
  method KeyRowsOf(b: Batch, types: seq<Type>, keys: seq<nat>, dicts: seq<D.Dict>, combine: Combine, seed: u64)
    returns (rows: seq<KeyRow>, dicts': seq<D.Dict>)
    requires BatchFits(b, types) && RoomFor(types, keys, dicts, b.rowCount)
    ensures AllWellFormed(rows, |keys|, combine, seed)
    ensures Extends(dicts, dicts') && RoomFor(types, keys, dicts', 0)
    ensures forall j | 0 <= j < |keys| :: dicts'[j] == DictAfter(dicts[j], b, keys[j])
    ensures AllKnown(types, keys, dicts', b.Rows())
    ensures Tuples(rows, |keys|) == TuplesOf(types, keys, dicts', b.Rows())
  {
    hide TupleAgrees, DictAfter, Column.Valid;
    var kb;
    kb, dicts' := KeyViews(b, types, keys, dicts);
    rows := NormalizeViews(kb, b, types, keys, dicts', combine, seed);
  }

  /** Insert a normalized batch; `ids` are its rows' group ids. */
  method InsertRows(ht: HashTable, krows: seq<KeyRow>, ghost b: Batch, ghost types: seq<Type>, ghost keys: seq<nat>,
                    ghost dicts: seq<D.Dict>, ghost dicts': seq<D.Dict>, ghost rows: seq<Row>)
    returns (ids: seq<nat>, ok: bool)
    requires Fed(ht, types, keys, dicts, rows) && Extends(dicts, dicts')
    requires BatchFits(b, types) && AllWellFormed(krows, |keys|, ht.combine, ht.seed)
    requires AllKnown(types, keys, dicts', b.Rows())
    requires Tuples(krows, |keys|) == TuplesOf(types, keys, dicts', b.Rows())
    modifies ht
    ensures ok ==> Fed(ht, types, keys, dicts', rows + b.Rows()) && |ids| == b.rowCount
    ensures ok ==>
      (IdsOf(ht.policy, types, keys, dicts', rows + b.Rows()) == IdsOf(ht.policy, types, keys, dicts, rows) + ids)
    ensures ok ==> old(ht.Contents()) <= ht.Contents()
    ensures !ok ==> |rows| + b.rowCount > NO_GROUP
  {
    hide Known, TupleOf, KeyRow.Tuple, AllWellFormed, AssignAll;
    ghost var groups := ht.Contents();
    ids, ok := ht.InsertOrFind(krows);
    TuplesStable(types, keys, dicts, dicts', rows);
    ghost var before, batch := TuplesOf(types, keys, dicts', rows), TuplesOf(types, keys, dicts', b.Rows());
    ghost var done := batch[..|ids|];
    AssignAllConcat(ht.policy, [], before, done);
    AssignAllGrows(ht.policy, groups, done);
    if ok {
      assert done == batch;
      assert before + batch == TuplesOf(types, keys, dicts', rows + b.Rows());
    } else {
      GroupsAtMostRows(ht.policy, before + done);
    }
  }

  /** Insert a batch, each key position with its own dictionary. */
  method InsertBatch(ht: HashTable, b: Batch, types: seq<Type>, keys: seq<nat>, dicts: seq<D.Dict>, ghost rows: seq<Row>)
    returns (ids: seq<nat>, dicts': seq<D.Dict>, ok: bool)
    requires Fed(ht, types, keys, dicts, rows)
    requires BatchFits(b, types) && RoomFor(types, keys, dicts, b.rowCount)
    modifies ht
    ensures Extends(dicts, dicts') && RoomFor(types, keys, dicts', 0)
    ensures forall j | 0 <= j < |keys| :: dicts'[j] == DictAfter(dicts[j], b, keys[j])
    ensures ok ==> Fed(ht, types, keys, dicts', rows + b.Rows()) && |ids| == b.rowCount
    ensures ok ==>
      (IdsOf(ht.policy, types, keys, dicts', rows + b.Rows()) == IdsOf(ht.policy, types, keys, dicts, rows) + ids)
    ensures ok ==> old(ht.Contents()) <= ht.Contents()
    ensures !ok ==> |rows| + b.rowCount > NO_GROUP
  {
    hide Fed, AllKnown, TuplesOf, DictAfter, AllWellFormed, HashTable.Valid;
    var krows;
    krows, dicts' := KeyRowsOf(b, types, keys, dicts, ht.combine, ht.seed);
    ids, ok := InsertRows(ht, krows, b, types, keys, dicts, dicts', rows);
  }

  /** Insert a batch, all its strings interned into one dictionary. */
  method InsertShared(ht: HashTable, b: Batch, types: seq<Type>, keys: seq<nat>, d: D.Dict, ghost rows: seq<Row>)
    returns (ids: seq<nat>, d': D.Dict, ok: bool)
    requires Fed(ht, types, keys, Same(d, |keys|), rows)
    requires BatchFits(b, types) && KeysFit(types, keys) && |d| + Product(StrKeys(types, keys), b.rowCount) <= TWO_31
    modifies ht
    ensures d <= d' && |d'| <= |d| + Product(StrKeys(types, keys), b.rowCount)
    ensures ok ==> Fed(ht, types, keys, Same(d', |keys|), rows + b.Rows()) && |ids| == b.rowCount
    ensures ok ==>
      (IdsOf(ht.policy, types, keys, Same(d', |keys|), rows + b.Rows())
       == IdsOf(ht.policy, types, keys, Same(d, |keys|), rows) + ids)
    ensures ok ==> old(ht.Contents()) <= ht.Contents()
    ensures !ok ==> |rows| + b.rowCount > NO_GROUP
  {
    hide Fed, AllKnown, TuplesOf, TupleAgrees, AllWellFormed, HashTable.Valid, Product;
    var kb;
    kb, d' := SharedKeyViews(b, types, keys, d);
    var krows := NormalizeViews(kb, b, types, keys, Same(d', |keys|), ht.combine, ht.seed);
    ids, ok := InsertRows(ht, krows, b, types, keys, Same(d, |keys|), Same(d', |keys|), rows);
  }

  lemma {:induction false} GroupsAtMostRows(policy: NullPolicy, ks: seq<KeyTuple>)
    ensures |AssignAll(policy, [], ks).0| <= |ks|
  {
    if ks != [] { GroupsAtMostRows(policy, ks[..|ks| - 1]); }
  }

  /** Probe a batch; its strings are interned too, so that they are compared by value. */
  method FindBatch(ht: HashTable, b: Batch, types: seq<Type>, keys: seq<nat>, dicts: seq<D.Dict>)
    returns (ids: seq<nat>, dicts': seq<D.Dict>)
    requires ht.Valid() && ht.ncols == |keys|
    requires BatchFits(b, types) && RoomFor(types, keys, dicts, b.rowCount)
    ensures Extends(dicts, dicts') && RoomFor(types, keys, dicts', 0)
    ensures forall j | 0 <= j < |keys| :: dicts'[j] == DictAfter(dicts[j], b, keys[j])
    ensures AllKnown(types, keys, dicts', b.Rows()) && |ids| == b.rowCount
    ensures forall k: nat | k < b.rowCount ::
      ids[k] == Answer(ht.policy, ht.Contents(), TuplesOf(types, keys, dicts', b.Rows())[k])
  {
    hide Known, TupleOf, KeyRow.Tuple, DictAfter, AllWellFormed;
    var krows;
    krows, dicts' := KeyRowsOf(b, types, keys, dicts, ht.combine, ht.seed);
    ids := ht.Find(krows);
  }

  // ----- multiplicity maps -----

  /** The rows of group `g`, in order. */
  function RowsWith(ids: seq<nat>, g: nat): (rows: seq<nat>)
    ensures forall i | 0 <= i < |rows| :: rows[i] < |ids|
  {
    if ids == [] then []
    else
      RowsWith(ids[..|ids| - 1], g) + (if ids[|ids| - 1] == g then [|ids| - 1] else [])
  }

  /** The multiplicity map lists every row under its group, and a row of no group nowhere. */
  ghost predicate Grouped(groupRows: seq<seq<nat>>, ids: seq<nat>) {
    && |groupRows| <= NO_GROUP
    && (forall r | 0 <= r < |ids| :: ids[r] < |groupRows| || ids[r] == NO_GROUP)
    && forall g: nat | g < |groupRows| :: groupRows[g] == RowsWith(ids, g)
  }

  lemma {:induction false} NoRowsYet(ids: seq<nat>, g: nat)
    requires forall r | 0 <= r < |ids| :: ids[r] != g
    ensures RowsWith(ids, g) == []
  {
    if ids != [] { NoRowsYet(ids[..|ids| - 1], g); }
  }

  lemma GroupedResize(groupRows: seq<seq<nat>>, ids: seq<nat>, n: nat)
    requires Grouped(groupRows, ids) && |groupRows| + n <= NO_GROUP
    ensures Grouped(groupRows + seq(n, _ => []), ids)
  {
    var all := groupRows + seq(n, _ => []);
    forall g: nat | g < |all| ensures all[g] == RowsWith(ids, g) {
      if g >= |groupRows| { NoRowsYet(ids, g); }
    }
  }

  lemma GroupedPush(groupRows: seq<seq<nat>>, ids: seq<nat>, g: nat)
    requires Grouped(groupRows, ids) && g < |groupRows|
    ensures Grouped(groupRows[g := groupRows[g] + [|ids|]], ids + [g])
  {
    var ids' := ids + [g];
    assert ids'[..|ids|] == ids;
  }

  lemma GroupedSkip(groupRows: seq<seq<nat>>, ids: seq<nat>)
    requires Grouped(groupRows, ids)
    ensures Grouped(groupRows, ids + [NO_GROUP])
  {
    assert (ids + [NO_GROUP])[..|ids|] == ids;
  }
}
