/**
 The exchange of partial aggregates: group keys as byte strings, one private map of groups
 per worker, one merged map, and the rows read off it.
 */
module PartialMaps {
  import opened Words
  import opened Columns
  import opened KeyRows
  import opened KeyCodes
  import opened AggMeaning
  import opened GroupBy
  import opened GroupMerge
  import opened PartialAggs
  import F64

  // ----- keys as byte strings -----

  /** The bytes of a number, low byte first. */
  function LittleEndian(v: nat, n: nat): (bytes: seq<byte>)
    ensures |bytes| == n
  {
    if n == 0 then [] else [v % 256] + LittleEndian(v / 256, n - 1)
  }

  lemma {:induction false} LittleEndianInjective(v: nat, w: nat, n: nat)
    requires v < Pow2(8 * n) && w < Pow2(8 * n) && LittleEndian(v, n) == LittleEndian(w, n)
    ensures v == w
  {
    if n > 0 {
      HighBytes(v, n);
      HighBytes(w, n);
      hide LittleEndian, Pow2;
      LittleEndianInjective(v / 256, w / 256, n - 1);
    }
  }

  lemma HighBytes(v: nat, n: nat)
    requires v < Pow2(8 * n) && n > 0
    ensures v / 256 < Pow2(8 * (n - 1))
    ensures LittleEndian(v, n)[0] == v % 256 && LittleEndian(v, n)[1..] == LittleEndian(v / 256, n - 1)
  {
    Pow2Add(8 * (n - 1), 8);
    assert Pow2(8) == 256;
  }

  /** The 64 bits of a key value; zero for NULL, whose flag tells it apart. */
  function KeyBits(t: Type, c: Cell): u64
    requires Holds(t, c)
  {
    match c
    case Num(i) => AsUnsigned64(i)
    case Flt(b) => if F64.Equal(b, 0) then 0 else b
    case _ => 0
  }

  function KeyChunk(t: Type, c: Cell): (bytes: seq<byte>)
    requires CanonCell(t, c)
    ensures |bytes| == 9
  {
    [if c.Null? then 1 else 0] + LittleEndian(KeyBits(t, c), 8)
  }

  /** A key as the aggregate emits it: of its types, with one zero and one NaN, and no strings. */
  ghost predicate CanonKey(types: seq<Type>, key: Row) {
    |key| == |types| && forall j | 0 <= j < |types| :: CanonCell(types[j], key[j])
  }

  predicate CanonCell(t: Type, c: Cell) { !t.STR? && Holds(t, c) && KeyCell(c) == c }

  function KeyBytes(types: seq<Type>, key: Row): (bytes: seq<byte>)
    requires CanonKey(types, key)
    ensures |bytes| == 9 * |key|
  {
    if key == [] then []
    else
      KeyBytes(types[..|key| - 1], key[..|key| - 1]) + KeyChunk(types[|key| - 1], key[|key| - 1])
  }

  method KeyOf(types: seq<Type>, key: Row) returns (bytes: seq<byte>)
    requires CanonKey(types, key)
    ensures bytes == KeyBytes(types, key)
  {
    bytes := [];
    for k := 0 to |types|
      invariant CanonKey(types[..k], key[..k]) && bytes == KeyBytes(types[..k], key[..k])
    {
      hide CanonCell, KeyChunk;
      assert types[..k + 1][..k] == types[..k] && key[..k + 1][..k] == key[..k];
      assert CanonCell(types[k], key[k]);
      bytes := bytes + KeyChunk(types[k], key[k]);
    }
    assert types[..|types|] == types && key[..|types|] == key;
  }

  lemma ChunkInjective(t: Type, x: Cell, y: Cell)
    requires CanonCell(t, x) && CanonCell(t, y) && KeyChunk(t, x) == KeyChunk(t, y)
    ensures x == y
  {
    assert KeyChunk(t, x)[0] == KeyChunk(t, y)[0];
    assert KeyChunk(t, x)[1..] == LittleEndian(KeyBits(t, x), 8) && KeyChunk(t, y)[1..] == LittleEndian(KeyBits(t, y), 8);
    Pow2Constants();
    LittleEndianInjective(KeyBits(t, x), KeyBits(t, y), 8);
  }

  /** No two canonical keys share a byte string. */
  lemma {:induction false} KeyBytesInjective(types: seq<Type>, x: Row, y: Row)
    requires CanonKey(types, x) && CanonKey(types, y) && KeyBytes(types, x) == KeyBytes(types, y)
    ensures x == y
  {
    if x != [] {
      hide CanonCell, KeyChunk;
      var n := |x| - 1;
      var a, b := KeyBytes(types[..n], x[..n]), KeyBytes(types[..n], y[..n]);
      assert CanonCell(types[n], x[n]) && CanonCell(types[n], y[n]);
      assert KeyBytes(types, x)[..9 * n] == a && KeyBytes(types, y)[..9 * n] == b;
      assert KeyBytes(types, x)[9 * n..] == KeyChunk(types[n], x[n]) && KeyBytes(types, y)[9 * n..] == KeyChunk(types[n], y[n]);
      KeyBytesInjective(types[..n], x[..n], y[..n]);
      ChunkInjective(types[n], x[n], y[n]);
      assert x == x[..n] + [x[n]] && y == y[..n] + [y[n]];
    }
  }

  // ----- who has which rows of which group -----

  /** A share of the input: the rows of each group in it. */
  type Share = map<Row, seq<Row>>

  ghost predicate SharesFit(types: seq<Type>, hs: seq<Share>) {
    forall i, k | 0 <= i < |hs| && k in hs[i] :: RowsFit(types, hs[i][k])
  }

  function RowsIn(h: Share, k: Row): seq<Row> { if k in h then h[k] else [] }

  /** The group occurs in some share. */
  ghost predicate Seen(hs: seq<Share>, k: Row) { exists i :: 0 <= i < |hs| && k in hs[i] }

  /** The input values of a group, share by share. */
  ghost function PartsOf(types: seq<Type>, hs: seq<Share>, spec: AggSpec, k: Row): (parts: seq<seq<Cell>>)
    requires SharesFit(types, hs) && (spec.func.CountStar? || spec.col < |types|)
    ensures |parts| == |hs|
  {
    seq(|hs|, i requires 0 <= i < |hs| => InputsOf(spec, RowsIn(hs[i], k)))
  }

  // ----- groups -----

  /** What is exchanged: the input types, the key columns, and the partial aggregates with their kinds. */
  datatype Exchange = Exchange(ops: FloatOps, types: seq<Type>, keys: seq<nat>, specs: seq<AggSpec>, kinds: seq<PartialKind>)
  {
    ghost predicate Valid() {
      && (forall j | 0 <= j < |keys| :: keys[j] < |types| && !types[keys[j]].STR?)
      && |keys| <= MAX_KEY_COLUMNS && specs != [] && |specs| == |kinds| && (forall j | 0 <= j < |specs| :: PartialOk(types, specs[j], kinds[j]))
    }

    /** The query each worker runs over each of its morsels. */
    function Query(): (q: AggQuery)
      requires Valid()
      ensures q.Valid()
    {
      AggQuery(types, keys, specs)
    }

    function KeyTypes(): (ts: seq<Type>)
      requires Valid()
      ensures |ts| == |keys|
    {
      seq(|keys|, j requires 0 <= j < |keys| => types[keys[j]])
    }
  }

  datatype Group = Group(keys: Row, acc: seq<Acc>)

  /** Whether the shares are one worker's morsels, or the workers. */
  datatype Level = Within | Across

  ghost predicate SlotOk(x: Exchange, lv: Level, acc: Acc, hs: seq<Share>, k: Row, j: nat)
    requires x.Valid() && SharesFit(x.types, hs) && j < |x.specs|
  {
    var spec, parts := x.specs[j], PartsOf(x.types, hs, x.specs[j], k);
    var t := InputType(x.types, spec);
    if lv.Within? then AccIs(x.ops, spec.func, t, acc, Whole(parts)) else MergedIs(x.ops, spec.func, t, acc, parts)
  }

  ghost predicate GroupOk(x: Exchange, lv: Level, g: Group, hs: seq<Share>, k: Row)
    requires x.Valid() && SharesFit(x.types, hs)
  {
    && g.keys == k && |g.acc| == |x.specs|
    && forall j | 0 <= j < |x.specs| :: SlotOk(x, lv, g.acc[j], hs, k, j)
  }

  ghost predicate EntryOk(x: Exchange, lv: Level, m: map<seq<byte>, Group>, hs: seq<Share>, k: Row)
    requires x.Valid() && SharesFit(x.types, hs)
  {
    CanonKey(x.KeyTypes(), k) && KeyBytes(x.KeyTypes(), k) in m && GroupOk(x, lv, m[KeyBytes(x.KeyTypes(), k)], hs, k)
  }

  /** The map has exactly the groups of the shares, each under its key's bytes. */
  ghost predicate MapOk(x: Exchange, lv: Level, m: map<seq<byte>, Group>, hs: seq<Share>) {
    && x.Valid() && SharesFit(x.types, hs)
    && (forall k | Seen(hs, k) :: EntryOk(x, lv, m, hs, k))
    && (forall b | b in m :: Seen(hs, m[b].keys) && CanonKey(x.KeyTypes(), m[b].keys) && KeyBytes(x.KeyTypes(), m[b].keys) == b)
  }

  /** The rows of other groups do not matter to a group. */
  lemma OtherGroup(x: Exchange, lv: Level, g: Group, hs: seq<Share>, hs': seq<Share>, k: Row)
    requires x.Valid() && SharesFit(x.types, hs) && SharesFit(x.types, hs') && |hs| == |hs'|
    requires forall i | 0 <= i < |hs| :: RowsIn(hs[i], k) == RowsIn(hs'[i], k)
    requires GroupOk(x, lv, g, hs, k)
    ensures GroupOk(x, lv, g, hs', k)
  {
    hide AccIs, MergedIs, InputsOf;
    forall j | 0 <= j < |x.specs| ensures SlotOk(x, lv, g.acc[j], hs', k, j) {
      assert SlotOk(x, lv, g.acc[j], hs, k, j);
      assert PartsOf(x.types, hs, x.specs[j], k) == PartsOf(x.types, hs', x.specs[j], k);
    }
  }

  lemma SeenNext(hs: seq<Share>, h: Share, k: Row)
    ensures Seen(hs + [h], k) <==> Seen(hs, k) || k in h
  {
    if k in h { assert (hs + [h])[|hs|] == h; }
    if Seen(hs, k) {
      var i :| 0 <= i < |hs| && k in hs[i];
      assert (hs + [h])[i] == hs[i];
    }
  }

  /** One group of the last share is entered; the other entries stay. */
  lemma EnterGroup(x: Exchange, lv: Level, m: map<seq<byte>, Group>, hs: seq<Share>, h: Share, k: Row, rows: seq<Row>, g: Group)
    requires MapOk(x, lv, m, hs + [h]) && k !in h && CanonKey(x.KeyTypes(), k) && RowsFit(x.types, rows)
    requires SharesFit(x.types, hs + [h[k := rows]]) && GroupOk(x, lv, g, hs + [h[k := rows]], k)
    ensures MapOk(x, lv, m[KeyBytes(x.KeyTypes(), k) := g], hs + [h[k := rows]])
  {
    hide GroupOk, CanonKey, KeyBytes, Exchange.Valid, RowsFit, SharesFit, Seen;
    var kt := x.KeyTypes();
    var m', hs' := m[KeyBytes(kt, k) := g], hs + [h[k := rows]];
    forall o | Seen(hs', o) ensures EntryOk(x, lv, m', hs', o) {
      SeenNext(hs, h, o);
      SeenNext(hs, h[k := rows], o);
      if o != k {
        assert EntryOk(x, lv, m, hs + [h], o);
        if KeyBytes(kt, o) == KeyBytes(kt, k) { KeyBytesInjective(kt, o, k); }
        OtherGroup(x, lv, m[KeyBytes(kt, o)], hs + [h], hs', o);
      }
    }
    forall b | b in m' ensures Seen(hs', m'[b].keys) && CanonKey(kt, m'[b].keys) && KeyBytes(kt, m'[b].keys) == b {
      GroupKey(x, lv, g, hs', k);
      SeenNext(hs, h[k := rows], m'[b].keys);
      if b != KeyBytes(kt, k) { SeenNext(hs, h, m[b].keys); }
    }
  }

  lemma GroupKey(x: Exchange, lv: Level, g: Group, hs: seq<Share>, k: Row)
    requires x.Valid() && SharesFit(x.types, hs) && GroupOk(x, lv, g, hs, k)
    ensures g.keys == k && |g.acc| == |x.specs|
  {
  }

  // ----- a worker folds in the groups of a morsel -----

  lemma PartsNext(types: seq<Type>, hs: seq<Share>, h: Share, spec: AggSpec, k: Row)
    requires SharesFit(types, hs + [h]) && (spec.func.CountStar? || spec.col < |types|)
    ensures SharesFit(types, hs) && RowsFit(types, RowsIn(h, k))
    ensures PartsOf(types, hs + [h], spec, k) == PartsOf(types, hs, spec, k) + [InputsOf(spec, RowsIn(h, k))]
  {
    hide RowsFit;
    assert (hs + [h])[|hs|] == h;
    forall i, o | 0 <= i < |hs| && o in hs[i] ensures RowsFit(types, hs[i][o]) {
      assert (hs + [h])[i] == hs[i];
    }
    FitsNone(types);
    RowsInFit(types, hs + [h]);
  }

  lemma RowsInFit(types: seq<Type>, hs: seq<Share>)
    requires SharesFit(types, hs)
    ensures forall i, k | 0 <= i < |hs| :: RowsFit(types, RowsIn(hs[i], k))
  {
    FitsNone(types);
    hide RowsFit;
  }

  /** The values of fitting rows are of the input type. */
  lemma InputsTyped(types: seq<Type>, spec: AggSpec, rows: seq<Row>)
    requires RowsFit(types, rows) && (spec.func.CountStar? || spec.col < |types|)
    ensures Typed(spec.func, InputType(types, spec), InputsOf(spec, rows))
    ensures InputType(types, spec).F64? ==> spec.func.CountStar? || AllFloat(InputsOf(spec, rows))
  {
    var vals := InputsOf(spec, rows);
    forall v | v in vals ensures spec.func.CountStar? || Holds(InputType(types, spec), v) {
      var r :| 0 <= r < |vals| && vals[r] == v;
      assert RowFits(types, rows[r]);
    }
  }

  lemma {:induction false} UnseenIsEmpty(parts: seq<seq<Cell>>)
    requires forall i | 0 <= i < |parts| :: parts[i] == []
    ensures Whole(parts) == []
  {
    if parts != [] { UnseenIsEmpty(parts[..|parts| - 1]); }
  }

  /** A key is in the map exactly when its group was seen. */
  lemma Found(x: Exchange, lv: Level, m: map<seq<byte>, Group>, hs: seq<Share>, k: Row)
    requires MapOk(x, lv, m, hs) && CanonKey(x.KeyTypes(), k)
    ensures KeyBytes(x.KeyTypes(), k) in m <==> Seen(hs, k)
    ensures Seen(hs, k) ==> GroupOk(x, lv, m[KeyBytes(x.KeyTypes(), k)], hs, k)
  {
    hide GroupOk, CanonKey, KeyBytes, Exchange.Valid, SharesFit, Seen;
    var b := KeyBytes(x.KeyTypes(), k);
    if b in m { KeyBytesInjective(x.KeyTypes(), m[b].keys, k); }
    if Seen(hs, k) { assert EntryOk(x, lv, m, hs, k); }
  }

  /** A group not seen before starts from nothing. */
  lemma FreshGroup(x: Exchange, hs: seq<Share>, k: Row)
    requires x.Valid() && SharesFit(x.types, hs) && !Seen(hs, k)
    ensures GroupOk(x, Within, Group(k, seq(|x.specs|, _ => NOTHING_SEEN)), hs, k)
  {
    var g := Group(k, seq(|x.specs|, _ => NOTHING_SEEN));
    forall j | 0 <= j < |x.specs| ensures SlotOk(x, Within, g.acc[j], hs, k, j) {
      var parts := PartsOf(x.types, hs, x.specs[j], k);
      forall i | 0 <= i < |parts| ensures parts[i] == [] { assert RowsIn(hs[i], k) == []; }
      UnseenIsEmpty(parts);
      FreshAcc(x.ops, x.specs[j].func, InputType(x.types, x.specs[j]));
    }
  }

  lemma SlotFolds(x: Exchange, acc: Acc, hs: seq<Share>, h: Share, k: Row, rows: seq<Row>, j: nat, c: Cell)
    requires x.Valid() && j < |x.specs| && SharesFit(x.types, hs + [h]) && k !in h && RowsFit(x.types, rows)
    requires SharesFit(x.types, hs + [h[k := rows]]) && SlotOk(x, Within, acc, hs + [h], k, j)
    requires AggIs(false, x.ops, x.specs[j].func, InputType(x.types, x.specs[j]), c, InputsOf(x.specs[j], rows))
    ensures CellFits(x.kinds[j], c)
    ensures SlotOk(x, Within, FoldPlain(x.ops, acc, c, x.kinds[j]), hs + [h[k := rows]], k, j)
  {
    hide AccIs, AggIs, InputsOf, RowsFit, SharesFit, CellFits, FoldPlain, Whole;
    var spec := x.specs[j];
    assert PartialOk(x.types, spec, x.kinds[j]);
    PartsNext(x.types, hs, h, spec, k);
    PartsNext(x.types, hs, h[k := rows], spec, k);
    var parts := PartsOf(x.types, hs, spec, k);
    FitWidth(x.types, rows);
    WholeNext(parts, InputsOf(spec, rows));
    NoInputs(spec);
    WholeNext(parts, []);
    assert Whole(parts) + [] == Whole(parts);
    InputsTyped(x.types, spec, rows);
    FoldPlainKeeps(x.ops, spec.func, InputType(x.types, spec), acc, Whole(parts), c, InputsOf(spec, rows));
  }

  lemma NoInputs(spec: AggSpec)
    ensures InputsOf(spec, []) == []
  {
  }

  /** Fold one partial row into its group, which is made if it is new. */
  method AbsorbRow(x: Exchange, m: map<seq<byte>, Group>, row: Row, ghost hs: seq<Share>, ghost h: Share, ghost k: Row,
                   ghost rows: seq<Row>)
    returns (m': map<seq<byte>, Group>)
    requires MapOk(x, Within, m, hs + [h]) && k !in h && CanonKey(x.KeyTypes(), k) && RowsFit(x.types, rows)
    requires SharesFit(x.types, hs + [h[k := rows]])
    requires SameWidth(rows, |x.types|) && GroupRowIs(false, x.ops, x.Query(), row, k, rows)
    ensures MapOk(x, Within, m', hs + [h[k := rows]])
  {
    hide CanonKey, SharesFit, RowsFit, SlotOk, AggIs, InputsOf, SameWidth, FoldPlain, CellFits, Seen, PartialOk, KeyBytes, MapOk;
    MapFits(x, Within, m, hs + [h]);
    var key := KeyOf(x.KeyTypes(), row[..|x.keys|]);
    Found(x, Within, m, hs + [h], k);
    var g;
    if key in m {
      g := m[key];
    } else {
      g := Group(row[..|x.keys|], seq(|x.specs|, _ => NOTHING_SEEN));
      FreshGroup(x, hs + [h], k);
    }
    var acc := [];
    for j := 0 to |x.specs|
      invariant |acc| == j && forall i | 0 <= i < j :: SlotOk(x, Within, acc[i], hs + [h[k := rows]], k, i)
    {
      SlotFolds(x, g.acc[j], hs, h, k, rows, j, row[|x.keys| + j]);
      acc := acc + [FoldPlain(x.ops, g.acc[j], row[|x.keys| + j], x.kinds[j])];
    }
    EnterGroup(x, Within, m, hs, h, k, rows, Group(g.keys, acc));
    m' := m[key := Group(g.keys, acc)];
  }

  lemma MapFits(x: Exchange, lv: Level, m: map<seq<byte>, Group>, hs: seq<Share>)
    requires MapOk(x, lv, m, hs)
    ensures x.Valid() && SharesFit(x.types, hs)
  {
  }

  /** The groups of an input; without keys there is one, even of no rows. */
  function KeysOf(rows: seq<Row>, keys: seq<nat>): seq<Row>
    requires WideRows(rows, keys)
  {
    if keys == [] then [[]] else GroupKeys(rows, keys)
  }

  /** The share of an input that its first `n` groups make. */
  function FirstGroups(rows: seq<Row>, keys: seq<nat>, n: nat): Share
    requires WideRows(rows, keys)
    requires n <= |KeysOf(rows, keys)|
  {
    map k | k in KeysOf(rows, keys)[..n] :: Members(rows, keys, k)
  }

  function ShareOf(rows: seq<Row>, keys: seq<nat>): Share
    requires WideRows(rows, keys)
  {
    FirstGroups(rows, keys, |KeysOf(rows, keys)|)
  }

  /** Rows that the exchange may be given. */
  ghost predicate InputFits(x: Exchange, rows: seq<Row>) {
    x.Valid() && RowsFit(x.types, rows) && SameWidth(rows, |x.types|)
  }

  lemma GroupsFit(x: Exchange, rows: seq<Row>)
    requires InputFits(x, rows)
    ensures forall k | k in KeysOf(rows, x.keys) :: CanonKey(x.KeyTypes(), k) && RowsFit(x.types, Members(rows, x.keys, k))
    ensures forall i, j | 0 <= i < j < |KeysOf(rows, x.keys)| :: KeysOf(rows, x.keys)[i] != KeysOf(rows, x.keys)[j]
  {
    hide KeyCell, RowFits;
    GroupKeysDistinct(rows, x.keys);
    forall k | k in KeysOf(rows, x.keys) ensures CanonKey(x.KeyTypes(), k) && RowsFit(x.types, Members(rows, x.keys, k)) {
      if x.keys != [] {
        var r :| 0 <= r < |rows| && RowKey(rows[r], x.keys) == k;
        RowKeyCanon(x, rows[r]);
      }
    }
  }

  lemma RowKeyCanon(x: Exchange, row: Row)
    requires x.Valid() && RowFits(x.types, row)
    ensures CanonKey(x.KeyTypes(), RowKey(row, x.keys))
  {
    hide F64.Equal, F64.IsNaN, PartialOk;
    forall j | 0 <= j < |x.keys| ensures CanonCell(x.KeyTypes()[j], RowKey(row, x.keys)[j]) {
      CollapsedOnce(row[x.keys[j]]);
    }
  }

  lemma CollapsedOnce(c: Cell)
    ensures KeyCell(KeyCell(c)) == KeyCell(c)
  {
  }

  /** A share with no groups adds none. */
  lemma NoShare(x: Exchange, lv: Level, m: map<seq<byte>, Group>, hs: seq<Share>)
    requires MapOk(x, lv, m, hs)
    ensures MapOk(x, lv, m, hs + [map[]])
  {
    var hs' := hs + [map[]];
    NoShareFits(x.types, hs);
    hide CanonKey, KeyBytes, Exchange.Valid, SharesFit, Seen, GroupOk;
    forall k | Seen(hs', k) ensures EntryOk(x, lv, m, hs', k) {
      SeenNext(hs, map[], k);
      assert EntryOk(x, lv, m, hs, k);
      SameGroup(x, lv, m[KeyBytes(x.KeyTypes(), k)], hs, k);
    }
    forall b | b in m ensures Seen(hs', m[b].keys) { SeenNext(hs, map[], m[b].keys); }
  }

  lemma NoShareFits(types: seq<Type>, hs: seq<Share>)
    requires SharesFit(types, hs)
    ensures SharesFit(types, hs + [map[]])
  {
    hide RowsFit;
  }

  lemma SameGroup(x: Exchange, lv: Level, g: Group, hs: seq<Share>, k: Row)
    requires x.Valid() && SharesFit(x.types, hs) && SharesFit(x.types, hs + [map[]]) && GroupOk(x, lv, g, hs, k)
    ensures GroupOk(x, lv, g, hs + [map[]], k)
  {
    hide AccIs, MergedIs, InputsOf, RowsFit, SharesFit, Whole;
    forall j | 0 <= j < |x.specs| ensures SlotOk(x, lv, g.acc[j], hs + [map[]], k, j) {
      var spec := x.specs[j];
      assert SlotOk(x, lv, g.acc[j], hs, k, j) && PartialOk(x.types, spec, x.kinds[j]);
      PartsNext(x.types, hs, map[], spec, k);
      NoInputs(spec);
      var parts := PartsOf(x.types, hs, spec, k);
      WholeNext(parts, []);
      assert Whole(parts) + [] == Whole(parts);
      if lv.Across? { MergeNothing(x.ops, spec.func, InputType(x.types, spec), g.acc[j], parts); }
    }
  }

  /** The partial rows of a morsel, one per group of its rows. */
  ghost predicate PartialRows(x: Exchange, prs: seq<Row>, rows: seq<Row>)
    requires InputFits(x, rows)
  {
    && |prs| == |KeysOf(rows, x.keys)|
    && forall g | 0 <= g < |prs| :: PartialRow(x, prs[g], rows, KeysOf(rows, x.keys)[g])
  }

  ghost predicate PartialRow(x: Exchange, row: Row, rows: seq<Row>, k: Row)
    requires InputFits(x, rows)
  {
    var members := Members(rows, x.keys, k);
    SameWidth(members, |x.types|) && GroupRowIs(false, x.ops, x.Query(), row, k, members)
  }

  /** Fold the partial rows of a morsel into the worker's map. */
  method AbsorbPiece(x: Exchange, m: map<seq<byte>, Group>, prs: seq<Row>, ghost hs: seq<Share>, ghost rows: seq<Row>)
    returns (m': map<seq<byte>, Group>)
    requires MapOk(x, Within, m, hs) && InputFits(x, rows) && PartialRows(x, prs, rows)
    ensures MapOk(x, Within, m', hs + [ShareOf(rows, x.keys)])
  {
    hide MapOk, GroupRowIs, RowsFit, SharesFit, CanonKey, KeysOf, Members, PartialOk;
    m' := m;
    NoShare(x, Within, m, hs);
    NoGroups(rows, x.keys);
    for g := 0 to |prs|
      invariant MapOk(x, Within, m', hs + [FirstGroups(rows, x.keys, g)])
    {
      ghost var k := KeysOf(rows, x.keys)[g];
      NextGroup(x, rows, g, hs);
      MapFits(x, Within, m', hs + [FirstGroups(rows, x.keys, g)]);
      SharesNext(x, rows, g, hs);
      assert PartialRow(x, prs[g], rows, k);
      m' := AbsorbRow(x, m', prs[g], hs, FirstGroups(rows, x.keys, g), k, Members(rows, x.keys, k));
    }
  }

  lemma NoGroups(rows: seq<Row>, keys: seq<nat>)
    requires WideRows(rows, keys)
    ensures FirstGroups(rows, keys, 0) == map[]
  {
  }

  lemma NextGroup(x: Exchange, rows: seq<Row>, g: nat, hs: seq<Share>)
    requires InputFits(x, rows) && g < |KeysOf(rows, x.keys)|
    ensures var k, h := KeysOf(rows, x.keys)[g], FirstGroups(rows, x.keys, g);
      && k !in h && FirstGroups(rows, x.keys, g + 1) == h[k := Members(rows, x.keys, k)]
      && CanonKey(x.KeyTypes(), k) && RowsFit(x.types, Members(rows, x.keys, k))
  {
    hide RowsFit, CanonKey, Members, KeysOf;
    GroupsFit(x, rows);
    var ks := KeysOf(rows, x.keys);
    assert ks[..g + 1] == ks[..g] + [ks[g]];
  }

  lemma SharesNext(x: Exchange, rows: seq<Row>, g: nat, hs: seq<Share>)
    requires InputFits(x, rows) && g < |KeysOf(rows, x.keys)|
    requires SharesFit(x.types, hs + [FirstGroups(rows, x.keys, g)])
    ensures SharesFit(x.types, hs + [FirstGroups(rows, x.keys, g + 1)])
  {
    hide RowsFit, CanonKey, Members, KeysOf;
    NextGroup(x, rows, g, hs);
    var h, h' := FirstGroups(rows, x.keys, g), FirstGroups(rows, x.keys, g + 1);
    forall i, k | 0 <= i < |hs + [h']| && k in (hs + [h'])[i] ensures RowsFit(x.types, (hs + [h'])[i][k]) {
      if i < |hs| {
        assert (hs + [h])[i] == hs[i];
      } else if k in h {
        assert (hs + [h])[i] == h && h'[k] == h[k];
      }
    }
  }

  // ----- several morsels as one -----

  /** The share of a worker: nothing until it has done a morsel. */
  function WorkerShare(began: bool, rows: seq<Row>, keys: seq<nat>): Share
    requires WideRows(rows, keys)
  {
    if began then ShareOf(rows, keys) else map[]
  }

  lemma ShareHas(rows: seq<Row>, keys: seq<nat>, k: Row)
    requires WideRows(rows, keys)
    ensures k in ShareOf(rows, keys) <==> k in KeysOf(rows, keys)
    ensures RowsIn(ShareOf(rows, keys), k) == if k in KeysOf(rows, keys) then Members(rows, keys, k) else []
    ensures keys != [] ==> RowsIn(ShareOf(rows, keys), k) == Members(rows, keys, k)
  {
    hide Members;
    if keys != [] && k !in GroupKeys(rows, keys) { UnseenHasNoMembers(rows, keys, k); }
  }

  /** The shares of two pieces make the share of both. */
  lemma SharesJoin(began: bool, a: seq<Row>, b: seq<Row>, keys: seq<nat>, k: Row)
    requires WideRows(a, keys) && WideRows(b, keys) && (!began ==> a == [])
    ensures k in ShareOf(a + b, keys) <==> k in WorkerShare(began, a, keys) || k in ShareOf(b, keys)
    ensures RowsIn(ShareOf(a + b, keys), k) == RowsIn(WorkerShare(began, a, keys), k) + RowsIn(ShareOf(b, keys), k)
  {
    hide Members, GroupKeys, ShareOf;
    ShareHas(a, keys, k);
    ShareHas(b, keys, k);
    ShareHas(a + b, keys, k);
    GroupsConcat(a, b, keys, k);
    MembersConcat(a, b, keys, k);
    if !began {
      assert a + b == b;
    }
  }

  /** Within a worker only the union of the shares matters. */
  lemma JoinShares(x: Exchange, m: map<seq<byte>, Group>, a: Share, b: Share, c: Share)
    requires MapOk(x, Within, m, [a, b]) && SharesFit(x.types, [c])
    requires forall k :: k in c <==> k in a || k in b
    requires forall k | k in c :: RowsIn(c, k) == RowsIn(a, k) + RowsIn(b, k)
    ensures MapOk(x, Within, m, [c])
  {
    hide CanonKey, KeyBytes, Exchange.Valid, SharesFit, GroupOk;
    forall k ensures Seen([c], k) <==> Seen([a, b], k) {
      SeenOne(c, k);
      SeenTwo(a, b, k);
    }
    forall k | Seen([c], k) ensures EntryOk(x, Within, m, [c], k) {
      SeenOne(c, k);
      assert EntryOk(x, Within, m, [a, b], k);
      JoinedGroup(x, m[KeyBytes(x.KeyTypes(), k)], a, b, c, k);
    }
  }

  lemma SeenOne(c: Share, k: Row)
    ensures Seen([c], k) <==> k in c
  {
    assert [c][0] == c;
  }

  lemma SeenTwo(a: Share, b: Share, k: Row)
    ensures Seen([a, b], k) <==> k in a || k in b
  {
    assert [a, b][0] == a && [a, b][1] == b;
  }

  lemma JoinedGroup(x: Exchange, g: Group, a: Share, b: Share, c: Share, k: Row)
    requires x.Valid() && SharesFit(x.types, [a, b]) && SharesFit(x.types, [c])
    requires RowsIn(c, k) == RowsIn(a, k) + RowsIn(b, k) && GroupOk(x, Within, g, [a, b], k)
    ensures GroupOk(x, Within, g, [c], k)
  {
    hide AccIs, InputsOf, SharesFit, RowsIn;
    forall j | 0 <= j < |x.specs| ensures SlotOk(x, Within, g.acc[j], [c], k, j) {
      var spec := x.specs[j];
      assert SlotOk(x, Within, g.acc[j], [a, b], k, j) && PartialOk(x.types, spec, x.kinds[j]);
      WholeOfTwo(x.types, a, b, spec, k);
      WholeOfOne(x.types, c, spec, k);
    }
  }

  lemma WholeOfOne(types: seq<Type>, c: Share, spec: AggSpec, k: Row)
    requires SharesFit(types, [c]) && (spec.func.CountStar? || spec.col < |types|)
    ensures RowsFit(types, RowsIn(c, k)) && SameWidth(RowsIn(c, k), |types|)
    ensures Whole(PartsOf(types, [c], spec, k)) == InputsOf(spec, RowsIn(c, k))
  {
    hide InputsOf, SharesFit, RowsIn, RowsFit;
    assert [] + [c] == [c];
    PartsNext(types, [], c, spec, k);
    FitWidth(types, RowsIn(c, k));
    var v := InputsOf(spec, RowsIn(c, k));
    WholeNext([], v);
    assert Whole([]) + v == v && PartsOf(types, [], spec, k) + [v] == [v] && [] + [v] == [v];
  }

  lemma WholeOfTwo(types: seq<Type>, a: Share, b: Share, spec: AggSpec, k: Row)
    requires SharesFit(types, [a, b]) && (spec.func.CountStar? || spec.col < |types|)
    ensures SameWidth(RowsIn(a, k) + RowsIn(b, k), |types|)
    ensures Whole(PartsOf(types, [a, b], spec, k)) == InputsOf(spec, RowsIn(a, k) + RowsIn(b, k))
  {
    hide SharesFit, RowsIn, RowsFit, InputsOf;
    assert [a] + [b] == [a, b];
    PartsNext(types, [a], b, spec, k);
    WholeOfOne(types, a, spec, k);
    FitWidth(types, RowsIn(b, k));
    WholeNext(PartsOf(types, [a], spec, k), InputsOf(spec, RowsIn(b, k)));
    InputsConcat(spec, RowsIn(a, k), RowsIn(b, k));
  }
}
