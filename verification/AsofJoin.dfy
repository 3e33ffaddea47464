/**
 The backward as-of join operator: both inputs are sorted by (keys, timestamp); each
 build key keeps its rows in timestamp order; the probe side walks them with one
 advancing cursor that is carried from batch to batch.
 */
module AsofJoins {
  import opened Words
  import opened Columns
  import opened GroupIds
  import opened KeyRows
  import opened HashTables
  import opened KeyCodes
  import opened KeyedInputs
  import opened RowStores
  import opened JoinPairs
  import opened AsofMeaning
  import HashJoins
  import SortOrders
  import Sorts

  predicate TimeType(t: Type) { t.I32? || t.I64? || t.TS? }

  /** The constructor's checks, which every build performs. */
  predicate TypesOk(s: AsofSpec)
    requires s.Valid()
  {
    && TimeType(s.probeTypes[s.probeTime]) && TimeType(s.buildTypes[s.buildTime])
    && forall j | 0 <= j < |s.probeKeys| :: s.probeTypes[s.probeKeys[j]] == s.buildTypes[s.buildKeys[j]]
  }

  /** STR keys are outside what the join supports: it would compare codes. */
  ghost predicate Supported(s: AsofSpec)
    requires s.Valid()
  {
    forall j | 0 <= j < |s.buildKeys| :: !s.buildTypes[s.buildKeys[j]].STR?
  }

  predicate Keyed(s: AsofSpec) { s.buildKeys != [] }

  // ----- groups -----

  /** A build row that can be matched at all. */
  predicate Matchable(s: AsofSpec, b: Row)
    requires s.Valid() && |b| == |s.buildTypes|
  {
    Null !in RowKey(b, s.buildKeys) && TimeOf(b[s.buildTime]).Some?
  }

  /** The ids under which rows are listed: none for a row that cannot be matched. */
  function ListedIds(s: AsofSpec, rows: seq<Row>, ids: seq<nat>): (eids: seq<nat>)
    requires s.Valid() && SameWidth(rows, |s.buildTypes|) && |ids| == |rows|
    ensures |eids| == |rows|
  {
    seq(|rows|, r requires 0 <= r < |rows| => if Matchable(s, rows[r]) then ids[r] else NO_GROUP)
  }

  function Times(rows: seq<Row>, time: nat): (ts: seq<int>)
    requires forall r | 0 <= r < |rows| :: time < |rows[r]|
    ensures |ts| == |rows|
  {
    seq(|rows|, r requires 0 <= r < |rows| => match TimeOf(rows[r][time]) case Some(t) => t case None => 0)
  }

  ghost predicate RowsKnown(s: AsofSpec, rows: seq<Row>)
    requires s.Valid()
  {
    && SameWidth(rows, |s.buildTypes|)
    && (Keyed(s) ==> AllKnown(s.buildTypes, s.buildKeys, NoStrings(|s.buildKeys|), rows))
  }

  /** The group of every build row; with no key columns, one group for all. */
  ghost function BuildIds(s: AsofSpec, rows: seq<Row>): (ids: seq<nat>)
    requires s.Valid() && RowsKnown(s, rows)
    ensures |ids| == |rows|
  {
    if Keyed(s) then IdsOf(NeverMatch, s.buildTypes, s.buildKeys, NoStrings(|s.buildKeys|), rows)
    else seq(|rows|, _ => 0)
  }

  ghost predicate AsofBuilt(s: AsofSpec, ht: HashTable?, groupRows: seq<seq<nat>>, buildTs: seq<int>, rows: seq<Row>)
    requires s.Valid()
    reads ht
  {
    && RowsKnown(s, rows)
    && (Keyed(s) ==>
          ht != null && ht.policy.NeverMatch?
          && Fed(ht, s.buildTypes, s.buildKeys, NoStrings(|s.buildKeys|), rows)
          && |groupRows| == |ht.Contents()|)
    && (!Keyed(s) ==> |groupRows| == 1)
    && Grouped(groupRows, ListedIds(s, rows, BuildIds(s, rows)))
    && buildTs == Times(rows, s.buildTime)
  }

  // ----- reading a batch -----

  /** The timestamp at physical row `p`. */
  function ReadTime(c: Column, p: nat): (t: Option<int>)
    requires c.Valid() && p < c.len && TimeType(c.typ)
    ensures t == TimeOf(c.CellAt(p))
  {
    if c.IsValid(p) then Some(c.data[p]) else None
  }

  predicate IsNull(c: Column, p: nat)
    requires c.Valid() && p < c.len
  {
    !c.IsValid(p)
  }

  /** Is any key of physical row `p` NULL? */
  method AnyKeyNull(cols: seq<Column>, keys: seq<nat>, p: nat) returns (r: bool)
    requires forall j | 0 <= j < |keys| :: keys[j] < |cols|
    requires forall c | 0 <= c < |cols| :: cols[c].Valid() && p < cols[c].len
    ensures r <==> exists j :: 0 <= j < |keys| && IsNull(cols[keys[j]], p)
  {
    hide Column.Valid;
    for j := 0 to |keys|
      invariant forall i | 0 <= i < j :: !IsNull(cols[keys[i]], p)
    {
      if IsNull(cols[keys[j]], p) { return true; }
    }
    r := false;
  }

  lemma KeyNullInRow(b: Batch, types: seq<Type>, keys: seq<nat>, k: nat)
    requires BatchFits(b, types) && k < b.rowCount && forall j | 0 <= j < |keys| :: keys[j] < |types|
    ensures Null in RowKey(b.Rows()[k], keys) <==>
      exists j :: 0 <= j < |keys| && IsNull(b.cols[keys[j]], b.SelAt(k))
  {
    hide Column.Valid, IsNull;
    var key := RowKey(b.Rows()[k], keys);
    forall j | 0 <= j < |keys| ensures key[j] == Null <==> IsNull(b.cols[keys[j]], b.SelAt(k)) {
      assert b.Rows()[k][keys[j]] == b.cols[keys[j]].CellAt(b.SelAt(k));
      NullCell(b.cols[keys[j]], b.SelAt(k));
    }
    if j :| 0 <= j < |keys| && IsNull(b.cols[keys[j]], b.SelAt(k)) { assert key[j] == Null; }
  }

  lemma NullCell(c: Column, p: nat)
    requires c.Valid() && p < c.len
    ensures KeyCell(c.CellAt(p)) == Null <==> IsNull(c, p)
  {
  }

  // ----- the build side -----

  lemma ListedConcat(s: AsofSpec, a: seq<Row>, b: seq<Row>, i: seq<nat>, j: seq<nat>)
    requires s.Valid() && SameWidth(a, |s.buildTypes|) && SameWidth(b, |s.buildTypes|) && |i| == |a| && |j| == |b|
    ensures ListedIds(s, a + b, i + j) == ListedIds(s, a, i) + ListedIds(s, b, j)
    ensures Times(a + b, s.buildTime) == Times(a, s.buildTime) + Times(b, s.buildTime)
  {
    hide Matchable;
  }

  /** List the matchable rows of a batch, numbered from `start`, under their groups; keep every timestamp. */
  method ListRows(s: AsofSpec, groupRows: seq<seq<nat>>, buildTs: seq<int>, b: Batch, ids: seq<nat>, start: nat,
                  groups: nat, ghost listed: seq<nat>)
    returns (groupRows': seq<seq<nat>>, buildTs': seq<int>)
    requires s.Valid() && BatchFits(b, s.buildTypes) && TimeType(s.buildTypes[s.buildTime])
    requires Grouped(groupRows, listed) && |groupRows| <= groups <= NO_GROUP && start == |listed|
    requires |ids| == b.rowCount && forall k | 0 <= k < |ids| :: ids[k] < groups
    ensures |groupRows'| == groups && Grouped(groupRows', listed + ListedIds(s, b.Rows(), ids))
    ensures buildTs' == buildTs + Times(b.Rows(), s.buildTime)
  {
    hide Grouped, Matchable, Column.Valid;
    ghost var more, times := ListedIds(s, b.Rows(), ids), Times(b.Rows(), s.buildTime);
    GroupedResize(groupRows, listed, groups - |groupRows|);
    groupRows', buildTs' := groupRows + seq(groups - |groupRows|, _ => []), buildTs;
    assert listed + more[..0] == listed;
    for k := 0 to b.rowCount
      invariant |groupRows'| == groups && Grouped(groupRows', listed + more[..k])
      invariant buildTs' == buildTs + times[..k]
    {
      ListedAt(s, b, ids, k);
      var p := b.SelAt(k);
      var t := ReadTime(b.cols[s.buildTime], p);
      buildTs' := buildTs' + [match t case Some(v) => v case None => 0];
      var keyNull := AnyKeyNull(b.cols, s.buildKeys, p);
      assert listed + more[..k] + [more[k]] == listed + more[..k + 1];
      if !keyNull && t.Some? {
        GroupedPush(groupRows', listed + more[..k], ids[k]);
        groupRows' := groupRows'[ids[k] := groupRows'[ids[k]] + [start + k]];
      } else {
        GroupedSkip(groupRows', listed + more[..k]);
      }
      assert times[..k + 1] == times[..k] + [times[k]];
    }
    assert more[..b.rowCount] == more && times[..b.rowCount] == times;
  }

  lemma ListedAt(s: AsofSpec, b: Batch, ids: seq<nat>, k: nat)
    requires s.Valid() && BatchFits(b, s.buildTypes) && TimeType(s.buildTypes[s.buildTime])
    requires |ids| == b.rowCount && k < b.rowCount
    ensures forall c | 0 <= c < |b.cols| :: b.cols[c].Valid() && b.SelAt(k) < b.cols[c].len
    ensures var t := ReadTime(b.cols[s.buildTime], b.SelAt(k));
      && ListedIds(s, b.Rows(), ids)[k] == (
           if t.Some? && !(exists j :: 0 <= j < |s.buildKeys| && IsNull(b.cols[s.buildKeys[j]], b.SelAt(k)))
           then ids[k] else NO_GROUP)
      && Times(b.Rows(), s.buildTime)[k] == match t case Some(v) => v case None => 0
  {
    hide IsNull, RowKey;
    KeyNullInRow(b, s.buildTypes, s.buildKeys, k);
  }

  /** Index one more batch of the sorted build side. */
  method IndexBatch(s: AsofSpec, ht: HashTable?, groupRows: seq<seq<nat>>, buildTs: seq<int>, b: Batch, start: nat,
                    ghost rows: seq<Row>)
    returns (groupRows': seq<seq<nat>>, buildTs': seq<int>, ok: bool)
    requires s.Valid() && TypesOk(s) && Supported(s) && BatchFits(b, s.buildTypes)
    requires AsofBuilt(s, ht, groupRows, buildTs, rows) && start == |rows|
    modifies ht
    ensures ok ==> AsofBuilt(s, ht, groupRows', buildTs', rows + b.Rows())
    ensures !ok ==> |rows| + b.rowCount > NO_GROUP
  {
    ghost var was := BuildIds(s, rows);
    var ids, groups;
    hide Known, AssignAll, TuplesOf, Matchable, Column.Valid, Grouped;
    groupRows', buildTs', ok := groupRows, buildTs, true;
    if Keyed(s) {
      NoStringsRoom(s, b.rowCount);
      var dicts;
      ids, dicts, ok := InsertBatch(ht, b, s.buildTypes, s.buildKeys, NoStrings(|s.buildKeys|), rows);
      if !ok { return; }
      NoStringsKept(s, b, dicts);
      groups := ht.NumGroups();
      InsertedBelow(s, ht, rows + b.Rows(), was, ids);
    } else {
      ids, groups := seq(b.rowCount, _ => 0), 1;
      assert BuildIds(s, rows + b.Rows()) == was + ids;
    }
    ListedConcat(s, rows, b.Rows(), was, ids);
    groupRows', buildTs' := ListRows(s, groupRows, buildTs, b, ids, start, groups, ListedIds(s, rows, was));
  }

  lemma NoStringsRoom(s: AsofSpec, n: nat)
    requires s.Valid() && Supported(s) && Keyed(s)
    ensures RoomFor(s.buildTypes, s.buildKeys, NoStrings(|s.buildKeys|), n)
  {
  }

  lemma NoStringsKept(s: AsofSpec, b: Batch, dicts: seq<seq<string>>)
    requires s.Valid() && Supported(s) && BatchFits(b, s.buildTypes) && |dicts| == |s.buildKeys|
    requires forall j | 0 <= j < |s.buildKeys| ::
      dicts[j] == DictAfter(NoStrings(|s.buildKeys|)[j], b, s.buildKeys[j])
    ensures dicts == NoStrings(|s.buildKeys|)
  {
  }

  lemma InsertedBelow(s: AsofSpec, ht: HashTable, rows: seq<Row>, before: seq<nat>, ids: seq<nat>)
    requires s.Valid() && Keyed(s) && ht.policy.NeverMatch?
    requires Fed(ht, s.buildTypes, s.buildKeys, NoStrings(|s.buildKeys|), rows)
    requires IdsOf(NeverMatch, s.buildTypes, s.buildKeys, NoStrings(|s.buildKeys|), rows) == before + ids
    ensures ht.Valid() && |ht.Contents()| <= NO_GROUP
    ensures forall k | 0 <= k < |ids| :: ids[k] < |ht.Contents()|
  {
    hide Known, TuplesOf, AssignAll;
    var all := IdsOf(NeverMatch, s.buildTypes, s.buildKeys, NoStrings(|s.buildKeys|), rows);
    forall k | 0 <= k < |ids| ensures ids[k] < |ht.Contents()| {
      assert all[|before| + k] == ids[k];
    }
  }

  // ----- the probe side -----

  ghost predicate RowKnown(s: AsofSpec, p: Row)
    requires s.Valid()
  {
    && |p| == |s.probeTypes|
    && (Keyed(s) ==>
          Known(KeyTypes(s.probeTypes, s.probeKeys), NoStrings(|s.probeKeys|), KeyCells(p, s.probeKeys)))
  }

  /** The group a probe row's key names: the table's answer, or the only group. */
  ghost function Gid(s: AsofSpec, build: seq<Row>, p: Row): nat
    requires s.Valid() && RowsKnown(s, build) && RowKnown(s, p)
  {
    if Keyed(s) then
      Answer(NeverMatch, GroupsOf(NeverMatch, s.buildTypes, s.buildKeys, NoStrings(|s.buildKeys|), build),
             TupleOf(KeyTypes(s.probeTypes, s.probeKeys), NoStrings(|s.probeKeys|), KeyCells(p, s.probeKeys)))
    else 0
  }

  /** Fewer groups than the miss marker. */
  ghost predicate FewGroups(s: AsofSpec, build: seq<Row>)
    requires s.Valid() && RowsKnown(s, build)
  {
    Keyed(s) ==>
      |GroupsOf(NeverMatch, s.buildTypes, s.buildKeys, NoStrings(|s.buildKeys|), build)| <= NO_GROUP
  }

  /** The rows listed under a probe row's group are exactly the matchable rows of its partition. */
  lemma GroupIsPartition(s: AsofSpec, build: seq<Row>, p: Row, r: nat)
    requires s.Valid() && TypesOk(s) && Supported(s) && RowsKnown(s, build) && RowKnown(s, p)
    requires FewGroups(s, build) && r < |build| && Null !in RowKey(p, s.probeKeys)
    ensures Gid(s, build, p) != NO_GROUP ==>
      (ListedIds(s, build, BuildIds(s, build))[r] == Gid(s, build, p)
       <==> SamePartition(s, p, build[r]) && TimeOf(build[r][s.buildTime]).Some?)
    ensures Gid(s, build, p) == NO_GROUP ==> !SamePartition(s, p, build[r])
  {
    if Keyed(s) {
      hide Known, RowKey, TupleOf, IdsOf, GroupsOf, Lookup;
      var j := HashJoins.JoinSpec(s.probeTypes, s.buildTypes, s.probeKeys, s.buildKeys, Inner);
      var none := NoStrings(|s.buildKeys|);
      NoStringsRoom(s, 0);
      HashJoins.AnswerNamesMatches(j, none, build, p);
      assert HashJoins.Joins(j, p, build[r]) == SamePartition(s, p, build[r]);
    }
  }

  /** One group, one key. */
  lemma SameGroupSameKey(s: AsofSpec, build: seq<Row>, p: Row, q: Row)
    requires s.Valid() && TypesOk(s) && Supported(s) && RowsKnown(s, build)
    requires RowKnown(s, p) && RowKnown(s, q)
    requires Gid(s, build, p) == Gid(s, build, q) != NO_GROUP
    ensures RowKey(p, s.probeKeys) == RowKey(q, s.probeKeys)
  {
    if Keyed(s) {
      hide Known, RowKey, TupleOf, GroupsOf, Lookup;
      var none := NoStrings(|s.probeKeys|);
      var kts := KeyTypes(s.probeTypes, s.probeKeys);
      assert none == NoStrings(|s.buildKeys|) && kts == KeyTypes(s.buildTypes, s.buildKeys);
      SameTupleIffSameKey(kts, none, p, s.probeKeys, q, s.probeKeys);
    } else {
      assert RowKey(p, s.probeKeys) == [] == RowKey(q, s.probeKeys);
    }
  }

  /** Move the cursor past every listed timestamp not after `t`. */
  method Advance(list: seq<nat>, buildTs: seq<int>, from: nat, t: int) returns (cursor: nat)
    requires from <= |list| && forall i | 0 <= i < |list| :: list[i] < |buildTs|
    requires forall i | 0 <= i < from :: buildTs[list[i]] <= t
    ensures from <= cursor <= |list|
    ensures forall i | 0 <= i < cursor :: buildTs[list[i]] <= t
    ensures cursor < |list| ==> buildTs[list[cursor]] > t
  {
    cursor := from;
    while cursor < |list| && buildTs[list[cursor]] <= t
      invariant from <= cursor <= |list|
      invariant forall i | 0 <= i < cursor :: buildTs[list[i]] <= t
    {
      cursor := cursor + 1;
    }
  }

  /** A group's list is ascending and holds exactly the rows of that id. */
  lemma {:induction false} RowsWithAscends(ids: seq<nat>, g: nat)
    ensures var list := RowsWith(ids, g);
      && (forall i, j | 0 <= i < j < |list| :: list[i] < list[j])
      && (forall i | 0 <= i < |list| :: ids[list[i]] == g)
      && (forall r: nat | r < |ids| && ids[r] == g :: r in list)
  {
    if ids != [] {
      RowsWithAscends(ids[..|ids| - 1], g);
      var list, init := RowsWith(ids, g), RowsWith(ids[..|ids| - 1], g);
      forall r: nat | r < |ids| && ids[r] == g ensures r in list {
        if r < |ids| - 1 {
          assert ids[..|ids| - 1][r] == g;
          assert r in init;
        }
      }
    }
  }

  /** Where the cursor stops is the nearest candidate. */
  lemma CursorFindsNearest(s: AsofSpec, p: Row, build: seq<Row>, listed: seq<nat>, g: nat, cursor: nat)
    requires s.Valid() && |p| == |s.probeTypes| && TimeOrdered(build, s.buildKeys, s.buildTime, |s.buildTypes|)
    requires SameWidth(build, |s.buildTypes|) && |listed| == |build| && TimeOf(p[s.probeTime]).Some?
    requires forall r | 0 <= r < |build| :: listed[r] == g <==>
      SamePartition(s, p, build[r]) && TimeOf(build[r][s.buildTime]).Some?
    requires
      var list, ts, t := RowsWith(listed, g), Times(build, s.buildTime), p[s.probeTime].i;
      && cursor <= |list| && (forall i | 0 <= i < cursor :: ts[list[i]] <= t)
      && (cursor < |list| ==> ts[list[cursor]] > t)
    ensures Nearest(s, p, build) == if cursor > 0 then Some(RowsWith(listed, g)[cursor - 1]) else None
  {
    hide SamePartition, RowsWith, TimeOrdered, RowKey;
    var list, t := RowsWith(listed, g), p[s.probeTime].i;
    RowsWithAscends(listed, g);
    forall i | 0 <= i < |list| ensures Candidate(s, p, build[list[i]]) <==> i < cursor {
      if i >= cursor && i != cursor { PartitionOrdered(s, p, build, list[cursor], list[i]); }
    }
    forall r | 0 <= r < |build| && Candidate(s, p, build[r])
      ensures cursor > 0 && r <= list[cursor - 1]
    {
      assert r in list;
      var i :| 0 <= i < |list| && list[i] == r;
      assert i < cursor;
    }
    if cursor > 0 { assert Candidate(s, p, build[list[cursor - 1]]); }
  }

  lemma PartitionOrdered(s: AsofSpec, p: Row, build: seq<Row>, a: nat, b: nat)
    requires s.Valid() && |p| == |s.probeTypes| && TimeOrdered(build, s.buildKeys, s.buildTime, |s.buildTypes|)
    requires a < b < |build| && SamePartition(s, p, build[a]) && SamePartition(s, p, build[b])
    requires TimeOf(build[a][s.buildTime]).Some? && TimeOf(build[b][s.buildTime]).Some?
    ensures build[a][s.buildTime].i <= build[b][s.buildTime].i
  {
  }

  /** The indexed build side, as values. */
  ghost predicate Ready(s: AsofSpec, groupRows: seq<seq<nat>>, buildTs: seq<int>, build: seq<Row>) {
    && s.Valid() && TypesOk(s) && Supported(s) && RowsKnown(s, build)
    && Grouped(groupRows, ListedIds(s, build, BuildIds(s, build)))
    && (if Keyed(s)
        then |groupRows| == |GroupsOf(NeverMatch, s.buildTypes, s.buildKeys, NoStrings(|s.buildKeys|), build)|
        else |groupRows| == 1)
    && buildTs == Times(build, s.buildTime)
    && TimeOrdered(build, s.buildKeys, s.buildTime, |s.buildTypes|)
  }

  /** Probe row `p` left the cursor in group `gid`: every row passed is not after it. */
  ghost predicate LeftBy(s: AsofSpec, groupRows: seq<seq<nat>>, buildTs: seq<int>, build: seq<Row>, p: Row,
                         gid: nat, cursor: nat)
    requires Ready(s, groupRows, buildTs, build) && gid < |groupRows| && cursor <= |groupRows[gid]|
  {
    && RowKnown(s, p) && Gid(s, build, p) == gid && TimeOf(p[s.probeTime]).Some?
    && forall i | 0 <= i < cursor :: buildTs[groupRows[gid][i]] <= p[s.probeTime].i
  }

  /** The carried cursor was left by some earlier probe row of its group. */
  ghost predicate CursorOk(s: AsofSpec, groupRows: seq<seq<nat>>, buildTs: seq<int>, build: seq<Row>, done: seq<Row>,
                           lastGid: nat, cursor: nat)
    requires Ready(s, groupRows, buildTs, build)
  {
    lastGid != NO_GROUP ==>
      && lastGid < |groupRows| && cursor <= |groupRows[lastGid]|
      && exists p :: p in done && LeftBy(s, groupRows, buildTs, build, p, lastGid, cursor)
  }

  /** `p` may follow the rows `done`. */
  ghost predicate Follows(s: AsofSpec, done: seq<Row>, p: Row)
    requires s.Valid() && |p| == |s.probeTypes|
  {
    forall q | q in done && |q| == |p| && RowKey(q, s.probeKeys) == RowKey(p, s.probeKeys) ::
      (var tq, t := TimeOf(q[s.probeTime]), TimeOf(p[s.probeTime]);
       tq.Some? && t.Some? ==> tq.value <= t.value)
  }

  lemma ListIsRows(s: AsofSpec, groupRows: seq<seq<nat>>, buildTs: seq<int>, build: seq<Row>, g: nat)
    requires Ready(s, groupRows, buildTs, build) && g < |groupRows|
    ensures groupRows[g] == RowsWith(ListedIds(s, build, BuildIds(s, build)), g) && g != NO_GROUP
    ensures forall i | 0 <= i < |groupRows[g]| :: groupRows[g][i] < |buildTs|
  {
    hide ListedIds, TimeOrdered, RowsWith;
  }

  /** A carried cursor never has to move back. */
  lemma CursorNotAhead(s: AsofSpec, groupRows: seq<seq<nat>>, buildTs: seq<int>, build: seq<Row>, done: seq<Row>,
                       p: Row, lastGid: nat, cursor: nat)
    requires Ready(s, groupRows, buildTs, build) && CursorOk(s, groupRows, buildTs, build, done, lastGid, cursor)
    requires RowKnown(s, p) && Follows(s, done, p) && TimeOf(p[s.probeTime]).Some?
    requires Gid(s, build, p) == lastGid != NO_GROUP
    ensures lastGid < |groupRows| && cursor <= |groupRows[lastGid]| && |buildTs| == |build|
    ensures forall i | 0 <= i < |groupRows[lastGid]| :: groupRows[lastGid][i] < |build|
    ensures forall i | 0 <= i < cursor :: buildTs[groupRows[lastGid][i]] <= p[s.probeTime].i
  {
    hide Gid, RowKey, TimeOrdered, Grouped;
    ListIsRows(s, groupRows, buildTs, build, lastGid);
    var q :| q in done && LeftBy(s, groupRows, buildTs, build, q, lastGid, cursor);
    SameGroupSameKey(s, build, p, q);
  }

  lemma CursorLeft(s: AsofSpec, groupRows: seq<seq<nat>>, buildTs: seq<int>, build: seq<Row>, done: seq<Row>,
                   p: Row, gid: nat, cursor: nat)
    requires Ready(s, groupRows, buildTs, build) && gid < |groupRows| && cursor <= |groupRows[gid]|
    requires RowKnown(s, p) && Gid(s, build, p) == gid && TimeOf(p[s.probeTime]).Some? && |buildTs| == |build|
    requires forall i | 0 <= i < |groupRows[gid]| :: groupRows[gid][i] < |build|
    requires forall i | 0 <= i < cursor :: buildTs[groupRows[gid][i]] <= p[s.probeTime].i
    ensures CursorOk(s, groupRows, buildTs, build, done + [p], gid, cursor)
  {
    hide Gid, TimeOrdered, Grouped, Ready;
    assert LeftBy(s, groupRows, buildTs, build, p, gid, cursor) && p in done + [p];
  }

  lemma CursorKept(s: AsofSpec, groupRows: seq<seq<nat>>, buildTs: seq<int>, build: seq<Row>, done: seq<Row>,
                   p: Row, lastGid: nat, cursor: nat)
    requires Ready(s, groupRows, buildTs, build) && CursorOk(s, groupRows, buildTs, build, done, lastGid, cursor)
    ensures CursorOk(s, groupRows, buildTs, build, done + [p], lastGid, cursor)
  {
    hide LeftBy, Ready;
    if lastGid != NO_GROUP {
      var q :| q in done && LeftBy(s, groupRows, buildTs, build, q, lastGid, cursor);
      assert q in done + [p];
    }
  }

  /** Match one probe row, moving the cursor on, or starting it over for another group. */
  method MatchOne(s: AsofSpec, groupRows: seq<seq<nat>>, buildTs: seq<int>, gid: nat, t: Option<int>, keyNull: bool,
                  lastGid: nat, cursor: nat, ghost build: seq<Row>, ghost done: seq<Row>, ghost p: Row)
    returns (matched: Option<nat>, lastGid': nat, cursor': nat)
    requires Ready(s, groupRows, buildTs, build) && RowKnown(s, p) && |p| == |s.probeTypes| && Follows(s, done, p)
    requires CursorOk(s, groupRows, buildTs, build, done, lastGid, cursor)
    requires TimesFit(s, p, build)
    requires gid == Gid(s, build, p) && t == TimeOf(p[s.probeTime]) && (keyNull <==> Null in RowKey(p, s.probeKeys))
    ensures matched == Matched(s, p, build)
    ensures CursorOk(s, groupRows, buildTs, build, done + [p], lastGid', cursor')
  {
    hide Gid, RowKey, TimeOrdered, Grouped, Nearest, CursorOk, RowKnown, Follows, ListedIds;
    matched, lastGid', cursor' := None, lastGid, cursor;
    if gid != NO_GROUP && t.Some? && !keyNull {
      GidInRange(s, groupRows, buildTs, build, p);
      ListIsRows(s, groupRows, buildTs, build, gid);
      var list := groupRows[gid];
      if gid != lastGid {
        lastGid', cursor' := gid, 0;
      } else {
        CursorNotAhead(s, groupRows, buildTs, build, done, p, lastGid, cursor);
      }
      cursor' := Advance(list, buildTs, cursor', t.value);
      NearestAt(s, groupRows, buildTs, build, p, gid, cursor');
      if cursor' > 0 {
        var cand := list[cursor' - 1];
        if WithinWords(s.tolerance, t.value, buildTs[cand]) { matched := Some(cand); }
      }
      CursorLeft(s, groupRows, buildTs, build, done, p, gid, cursor');
    } else {
      CursorKept(s, groupRows, buildTs, build, done, p, lastGid, cursor);
      NoCandidate(s, groupRows, buildTs, build, p);
    }
  }

  lemma GidInRange(s: AsofSpec, groupRows: seq<seq<nat>>, buildTs: seq<int>, build: seq<Row>, p: Row)
    requires Ready(s, groupRows, buildTs, build) && RowKnown(s, p)
    ensures Gid(s, build, p) != NO_GROUP ==> Gid(s, build, p) < |groupRows|
  {
    hide GroupsOf, TupleOf, TimeOrdered, ListedIds;
  }

  lemma NearestAt(s: AsofSpec, groupRows: seq<seq<nat>>, buildTs: seq<int>, build: seq<Row>, p: Row, gid: nat, cursor: nat)
    requires Ready(s, groupRows, buildTs, build) && RowKnown(s, p)
    requires gid < |groupRows| && gid == Gid(s, build, p) && Null !in RowKey(p, s.probeKeys)
    requires TimeOf(p[s.probeTime]).Some? && cursor <= |groupRows[gid]| && |buildTs| == |build|
    requires forall i | 0 <= i < |groupRows[gid]| :: groupRows[gid][i] < |build|
    requires forall i | 0 <= i < cursor :: buildTs[groupRows[gid][i]] <= p[s.probeTime].i
    requires cursor < |groupRows[gid]| ==> buildTs[groupRows[gid][cursor]] > p[s.probeTime].i
    ensures Nearest(s, p, build) == if cursor > 0 then Some(groupRows[gid][cursor - 1]) else None
    ensures cursor > 0 ==> buildTs[groupRows[gid][cursor - 1]] == build[groupRows[gid][cursor - 1]][s.buildTime].i
  {
    hide Gid, RowKey, TimeOrdered, Nearest, SamePartition, ListedIds, BuildIds;
    var listed := ListedIds(s, build, BuildIds(s, build));
    ListIsRows(s, groupRows, buildTs, build, gid);
    forall r | 0 <= r < |build|
      ensures listed[r] == gid <==> SamePartition(s, p, build[r]) && TimeOf(build[r][s.buildTime]).Some?
    {
      GroupIsPartition(s, build, p, r);
    }
    CursorFindsNearest(s, p, build, listed, gid, cursor);
  }

  lemma NoCandidate(s: AsofSpec, groupRows: seq<seq<nat>>, buildTs: seq<int>, build: seq<Row>, p: Row)
    requires Ready(s, groupRows, buildTs, build) && RowKnown(s, p)
    requires Gid(s, build, p) == NO_GROUP || TimeOf(p[s.probeTime]).None? || Null in RowKey(p, s.probeKeys)
    ensures Nearest(s, p, build) == None
  {
    hide Gid, RowKey, TimeOrdered, ListedIds;
    var near := Nearest(s, p, build);
    if near.Some? { GroupIsPartition(s, build, p, near.value); }
  }

  lemma BuiltReady(s: AsofSpec, ht: HashTable?, groupRows: seq<seq<nat>>, buildTs: seq<int>, build: seq<Row>)
    requires s.Valid() && TypesOk(s) && Supported(s) && AsofBuilt(s, ht, groupRows, buildTs, build)
    requires TimeOrdered(build, s.buildKeys, s.buildTime, |s.buildTypes|)
    ensures Ready(s, groupRows, buildTs, build)
  {
    hide TimeOrdered, Grouped, GroupsOf, AllKnown, ListedIds;
  }

  /** The group of every live row of a probe batch. */
  method ProbeGids(s: AsofSpec, ht: HashTable?, b: Batch, ghost groupRows: seq<seq<nat>>, ghost buildTs: seq<int>,
                   ghost build: seq<Row>)
    returns (gids: seq<nat>)
    requires s.Valid() && TypesOk(s) && Supported(s) && BatchFits(b, s.probeTypes)
    requires AsofBuilt(s, ht, groupRows, buildTs, build)
    ensures |gids| == b.rowCount
    ensures forall k: nat | k < b.rowCount ::
      RowKnown(s, b.Rows()[k]) && gids[k] == Gid(s, build, b.Rows()[k])
  {
    if Keyed(s) {
      hide Known, TupleOf, GroupsOf, Lookup, Column.Valid, Grouped, ListedIds;
      NoStringsRoom(s, b.rowCount);
      assert forall j | 0 <= j < |s.probeKeys| :: s.probeTypes[s.probeKeys[j]] == s.buildTypes[s.buildKeys[j]];
      var dicts;
      gids, dicts := FindBatch(ht, b, s.probeTypes, s.probeKeys, NoStrings(|s.probeKeys|));
      assert dicts == NoStrings(|s.probeKeys|);
    } else {
      gids := seq(b.rowCount, _ => 0);
    }
  }

  /** The first `k` live rows of `b` are paired. */
  ghost predicate Paired(s: AsofSpec, b: Batch, probeIdx: seq<nat>, buildIdx: seq<Option<nat>>, k: nat, build: seq<Row>)
    requires s.Valid() && BatchFits(b, s.probeTypes) && SameWidth(build, |s.buildTypes|)
  {
    && k <= b.rowCount && AllTimesFit(s, b.Rows()[..k], build) && PairsFit(b, probeIdx, buildIdx, |build|)
    && PairRows(b, probeIdx, buildIdx, build, |s.buildTypes|) == AsofRows(s, b.Rows()[..k], build)
  }

  lemma OneMorePair(s: AsofSpec, b: Batch, probeIdx: seq<nat>, buildIdx: seq<Option<nat>>, k: nat,
                    matched: Option<nat>, build: seq<Row>)
    requires s.Valid() && BatchFits(b, s.probeTypes) && k < b.rowCount && SameWidth(build, |s.buildTypes|)
    requires AllTimesFit(s, b.Rows(), build) && Paired(s, b, probeIdx, buildIdx, k, build)
    requires matched == Matched(s, b.Rows()[k], build)
    ensures var emit := matched.Some? || s.kind.Left?;
      Paired(s, b, if emit then probeIdx + [b.SelAt(k)] else probeIdx,
             if emit then buildIdx + [matched] else buildIdx, k + 1, build)
  {
    var p, rows := b.SelAt(k), b.Rows();
    HashJoins.LiveRow(b, s.probeTypes, k);
    hide Batch.Valid, Column.Valid, Batch.PhysRow, Matched, TimesFit, AsofRows, BuildRow;
    AsofRowsNext(s, rows, k, build);
    if matched.Some? || s.kind.Left? {
      PairRowsConcat(b, probeIdx, [p], buildIdx, [matched], build, |s.buildTypes|);
      OnePair(s, b, k, matched, build);
    } else {
      assert AsofRows(s, rows[..k], build) + [] == AsofRows(s, rows[..k], build);
    }
  }

  lemma OnePair(s: AsofSpec, b: Batch, k: nat, matched: Option<nat>, build: seq<Row>)
    requires s.Valid() && BatchFits(b, s.probeTypes) && k < b.rowCount && SameWidth(build, |s.buildTypes|)
    requires TimesFit(s, b.Rows()[k], build) && matched == Matched(s, b.Rows()[k], build)
    requires matched.Some? || s.kind.Left?
    ensures PairsFit(b, [b.SelAt(k)], [matched], |build|)
    ensures PairRows(b, [b.SelAt(k)], [matched], build, |s.buildTypes|) == AsofRow(s, b.Rows()[k], build)
  {
    HashJoins.LiveRow(b, s.probeTypes, k);
    hide Batch.Valid, Column.Valid, Batch.PhysRow, Matched, TimesFit;
  }

  lemma AsofRowsNext(s: AsofSpec, probe: seq<Row>, k: nat, build: seq<Row>)
    requires s.Valid() && SameWidth(probe, |s.probeTypes|) && SameWidth(build, |s.buildTypes|)
    requires AllTimesFit(s, probe, build) && k < |probe|
    ensures AllTimesFit(s, probe[..k], build) && AllTimesFit(s, probe[..k + 1], build)
    ensures AsofRows(s, probe[..k + 1], build) == AsofRows(s, probe[..k], build) + AsofRow(s, probe[k], build)
  {
    hide AsofRow, TimesFit;
    assert probe[..k + 1][..k] == probe[..k];
  }

  lemma FollowsPrefix(s: AsofSpec, done: seq<Row>, rows: seq<Row>, k: nat)
    requires s.Valid() && TimeOrdered(done + rows, s.probeKeys, s.probeTime, |s.probeTypes|) && k < |rows|
    ensures |rows[k]| == |s.probeTypes| && Follows(s, done + rows[..k], rows[k])
  {
    hide RowKey;
    var all, before := done + rows, done + rows[..k];
    assert all[|done| + k] == rows[k];
    forall q: Row | q in before && |q| == |rows[k]| && RowKey(q, s.probeKeys) == RowKey(rows[k], s.probeKeys)
            && TimeOf(q[s.probeTime]).Some? && TimeOf(rows[k][s.probeTime]).Some?
      ensures q[s.probeTime].i <= rows[k][s.probeTime].i
    {
      var i :| 0 <= i < |before| && before[i] == q;
      assert all[i] == q;
    }
  }

  /** What is read of live row `k` is what its row holds. */
  lemma ProbeCells(s: AsofSpec, b: Batch, k: nat)
    requires s.Valid() && TypesOk(s) && BatchFits(b, s.probeTypes) && k < b.rowCount
    ensures forall c | 0 <= c < |b.cols| :: b.cols[c].Valid() && b.SelAt(k) < b.cols[c].len
    ensures ReadTime(b.cols[s.probeTime], b.SelAt(k)) == TimeOf(b.Rows()[k][s.probeTime])
    ensures Null in RowKey(b.Rows()[k], s.probeKeys) <==>
      exists j :: 0 <= j < |s.probeKeys| && IsNull(b.cols[s.probeKeys[j]], b.SelAt(k))
  {
    KeyNullInRow(b, s.probeTypes, s.probeKeys, k);
    hide Column.Valid, RowKey, IsNull;
  }

  /** Match live row `k` of a probe batch. */
  method MatchRow(s: AsofSpec, groupRows: seq<seq<nat>>, buildTs: seq<int>, b: Batch, k: nat, gid: nat,
                  lastGid: nat, cursor: nat, ghost build: seq<Row>, ghost done: seq<Row>, ghost row: Row)
    returns (matched: Option<nat>, lastGid': nat, cursor': nat)
    requires Ready(s, groupRows, buildTs, build) && s.Valid() && TypesOk(s) && SameWidth(build, |s.buildTypes|)
    requires BatchFits(b, s.probeTypes) && k < b.rowCount && row == b.Rows()[k] && |row| == |s.probeTypes|
    requires TimesFit(s, row, build) && Follows(s, done, row)
    requires RowKnown(s, row) && gid == Gid(s, build, row)
    requires CursorOk(s, groupRows, buildTs, build, done, lastGid, cursor)
    ensures matched == Matched(s, row, build)
    ensures CursorOk(s, groupRows, buildTs, build, done + [row], lastGid', cursor')
  {
    hide Ready, CursorOk, Follows, RowKnown, Gid, Matched, TimesFit, Column.Valid,
      Batch.PhysRow, RowKey, IsNull, ReadTime, Nearest;
    ProbeCells(s, b, k);
    var keyNull := AnyKeyNull(b.cols, s.probeKeys, b.SelAt(k));
    var t := ReadTime(b.cols[s.probeTime], b.SelAt(k));
    matched, lastGid', cursor' := MatchOne(s, groupRows, buildTs, gid, t, keyNull, lastGid, cursor, build, done, row);
  }

  lemma Extend(done: seq<Row>, rows: seq<Row>, k: nat)
    requires k < |rows|
    ensures done + rows[..k] + [rows[k]] == done + rows[..k + 1]
  {
  }

  lemma ExtendEnds(done: seq<Row>, rows: seq<Row>)
    ensures done + rows[..0] == done && done + rows[..|rows|] == done + rows
  {
  }

  /** Match every live row of a probe batch, the cursor carried in and out. */
  method PairsForProbe(s: AsofSpec, ht: HashTable?, groupRows: seq<seq<nat>>, buildTs: seq<int>, b: Batch,
                       lastGid: nat, cursor: nat, ghost build: seq<Row>, ghost done: seq<Row>)
    returns (probeIdx: seq<nat>, buildIdx: seq<Option<nat>>, lastGid': nat, cursor': nat)
    requires s.Valid() && TypesOk(s) && Supported(s) && BatchFits(b, s.probeTypes)
    requires AsofBuilt(s, ht, groupRows, buildTs, build) && Ready(s, groupRows, buildTs, build)
    requires SameWidth(build, |s.buildTypes|)
    requires TimeOrdered(done + b.Rows(), s.probeKeys, s.probeTime, |s.probeTypes|)
    requires AllTimesFit(s, b.Rows(), build)
    requires CursorOk(s, groupRows, buildTs, build, done, lastGid, cursor)
    ensures Paired(s, b, probeIdx, buildIdx, b.rowCount, build)
    ensures CursorOk(s, groupRows, buildTs, build, done + b.Rows(), lastGid', cursor')
  {
    ghost var rows := b.Rows();
    var gids := ProbeGids(s, ht, b, groupRows, buildTs, build);
    hide Ready, AsofBuilt, TimeOrdered, CursorOk, RowKnown, Gid, Matched, Batch.Valid, Follows, TimesFit;
    probeIdx, buildIdx, lastGid', cursor' := [], [], lastGid, cursor;
    ExtendEnds(done, rows);
    for k := 0 to b.rowCount
      invariant Paired(s, b, probeIdx, buildIdx, k, build)
      invariant CursorOk(s, groupRows, buildTs, build, done + rows[..k], lastGid', cursor')
    {
      hide Paired;
      var matched;
      FollowsPrefix(s, done, rows, k);
      matched, lastGid', cursor' :=
        MatchRow(s, groupRows, buildTs, b, k, gids[k], lastGid', cursor', build, done + rows[..k], rows[k]);
      Extend(done, rows, k);
      OneMorePair(s, b, probeIdx, buildIdx, k, matched, build);
      if matched.Some? || s.kind.Left? {
        probeIdx, buildIdx := probeIdx + [b.SelAt(k)], buildIdx + [matched];
      }
    }
  }

  // ----- the operator -----

  /** What the operator is given: both children wrapped in a sort by (keys, timestamp). */
  ghost predicate InputsOk(s: AsofSpec, probe: seq<Batch>, build: seq<Batch>) {
    && s.Valid() && TypesOk(s) && Supported(s)
    && Conforms(probe, s.probeTypes) && Conforms(build, s.buildTypes)
    && TimeOrdered(RowsOf(probe), s.probeKeys, s.probeTime, |s.probeTypes|)
    && TimeOrdered(RowsOf(build), s.buildKeys, s.buildTime, |s.buildTypes|)
  }

  lemma InputTimesFit(s: AsofSpec, probe: seq<Batch>, build: seq<Batch>)
    requires InputsOk(s, probe, build)
    ensures SameWidth(RowsOf(probe), |s.probeTypes|) && SameWidth(RowsOf(build), |s.buildTypes|)
    ensures AllTimesFit(s, RowsOf(probe), RowsOf(build))
  {
    hide RowsOf, TimeOrdered;
    RowsHold(probe, s.probeTypes);
    RowsHold(build, s.buildTypes);
    assert forall r | 0 <= r < |RowsOf(probe)| :: Holds(s.probeTypes[s.probeTime], RowsOf(probe)[r][s.probeTime]);
    assert forall r | 0 <= r < |RowsOf(build)| :: Holds(s.buildTypes[s.buildTime], RowsOf(build)[r][s.buildTime]);
  }

  /** What the operator computes. */
  ghost function Joined(s: AsofSpec, probe: seq<Batch>, build: seq<Batch>): seq<Row>
    requires InputsOk(s, probe, build)
  {
    InputTimesFit(s, probe, build);
    AsofRows(s, RowsOf(probe), RowsOf(build))
  }

  lemma TailFits(s: AsofSpec, probe: seq<Batch>, build: seq<Batch>, pos: nat)
    requires InputsOk(s, probe, build) && pos <= |probe|
    ensures SameWidth(RowsFrom(probe, pos), |s.probeTypes|) && SameWidth(RowsOf(build), |s.buildTypes|)
    ensures AllTimesFit(s, RowsFrom(probe, pos), RowsOf(build))
  {
    hide RowsOf, TimesFit;
    InputTimesFit(s, probe, build);
    RowsOfPrefix(probe, pos);
  }

  /** The output of the probe batches from `pos` on. */
  ghost function JoinedFrom(s: AsofSpec, probe: seq<Batch>, pos: nat, build: seq<Batch>): seq<Row>
    requires InputsOk(s, probe, build) && pos <= |probe|
  {
    TailFits(s, probe, build, pos);
    AsofRows(s, RowsFrom(probe, pos), RowsOf(build))
  }

  lemma JoinedFromEnds(s: AsofSpec, probe: seq<Batch>, build: seq<Batch>)
    requires InputsOk(s, probe, build)
    ensures JoinedFrom(s, probe, 0, build) == Joined(s, probe, build)
    ensures JoinedFrom(s, probe, |probe|, build) == []
  {
    hide RowsOf, Batch.Valid, RowsFrom, TimeOrdered;
    RowsFromEnds(probe);
  }

  lemma JoinedFromNext(s: AsofSpec, probe: seq<Batch>, pos: nat, build: seq<Batch>)
    requires InputsOk(s, probe, build) && pos < |probe|
    ensures SameWidth(RowsOf(build), |s.buildTypes|) && BatchFits(probe[pos], s.probeTypes)
    ensures SameWidth(probe[pos].Rows(), |s.probeTypes|) && AllTimesFit(s, probe[pos].Rows(), RowsOf(build))
    ensures JoinedFrom(s, probe, pos, build)
         == AsofRows(s, probe[pos].Rows(), RowsOf(build)) + JoinedFrom(s, probe, pos + 1, build)
    ensures TimeOrdered(RowsOf(probe[..pos]) + probe[pos].Rows(), s.probeKeys, s.probeTime, |s.probeTypes|)
    ensures RowsOf(probe[..pos + 1]) == RowsOf(probe[..pos]) + probe[pos].Rows()
  {
    hide AsofRows, RowsOf, Batch.Valid, TimesFit, RowKey;
    var rows, rest := probe[pos].Rows(), RowsFrom(probe, pos + 1);
    TailFits(s, probe, build, pos);
    TailFits(s, probe, build, pos + 1);
    RowsFromNext(probe, pos);
    assert forall k | 0 <= k < |rows| :: RowsFrom(probe, pos)[k] == rows[k];
    AsofConcat(s, rows, rest, RowsOf(build));
    RowsOfNext(probe, pos);
    RowsOfPrefix(probe, pos + 1);
    assert forall k | 0 <= k < |RowsOf(probe[..pos + 1])| :: RowsOf(probe)[k] == RowsOf(probe[..pos + 1])[k];
  }

  lemma InputsGive(s: AsofSpec, probe: seq<Batch>, build: seq<Batch>)
    requires InputsOk(s, probe, build)
    ensures s.Valid() && TypesOk(s) && Supported(s) && Conforms(build, s.buildTypes)
    ensures forall i | 0 <= i < |build| :: build[i].Valid()
  {
    hide AsofSpec.Valid, TypesOk, Supported, TimeOrdered, RowsOf;
  }

  lemma CursorStarts(s: AsofSpec, probe: seq<Batch>, groupRows: seq<seq<nat>>, buildTs: seq<int>, build: seq<Row>)
    requires s.Valid() && Conforms(probe, s.probeTypes) && Ready(s, groupRows, buildTs, build)
    ensures SameWidth(RowsOf(probe[..0]), |s.probeTypes|)
    ensures CursorOk(s, groupRows, buildTs, build, RowsOf(probe[..0]), NO_GROUP, 0)
  {
    hide Ready;
  }

  lemma NothingBuilt(s: AsofSpec, ht: HashTable?)
    requires s.Valid()
    requires Keyed(s) ==> ht != null && ht.Valid() && ht.ncols == |s.buildKeys| && ht.policy.NeverMatch?
    requires Keyed(s) ==> ht.Contents() == []
    ensures AsofBuilt(s, ht, if Keyed(s) then [] else [[]], [], [])
  {
    hide HashTable.Valid;
  }

  /** Drain the sorted build child. With no key columns the table is skipped. */
  method DrainBuild(s: AsofSpec, build: seq<Batch>, combine: Combine, seed: u64)
    returns (ht: HashTable?, groupRows: seq<seq<nat>>, buildTs: seq<int>, store: RowStore, ok: bool)
    requires s.Valid() && TypesOk(s) && Supported(s) && Conforms(build, s.buildTypes)
    ensures ht != null ==> fresh(ht)
    ensures store.Valid() && store.types == s.buildTypes
    ensures ok ==> AsofBuilt(s, ht, groupRows, buildTs, RowsOf(build)) && store.Rows() == RowsOf(build)
    ensures !ok ==> |RowsOf(build)| > NO_GROUP
  {
    hide RowStore.Valid, RowStore.Rows, AsofBuilt, Batch.Valid, HashTable.Valid, HashTable.Contents;
    ht := null;
    if Keyed(s) {
      ht := new HashTable(|s.buildKeys|, NeverMatch, DEFAULT_CAPACITY, DEFAULT_LOAD, combine, seed);
    }
    NothingBuilt(s, ht);
    groupRows, buildTs := if Keyed(s) then [] else [[]], [];
    store := new RowStore(s.buildTypes);
    for i := 0 to |build|
      invariant (ht != null ==> fresh(ht)) && fresh(store) && store.Valid() && store.types == s.buildTypes
      invariant store.Rows() == RowsOf(build[..i])
      invariant AsofBuilt(s, ht, groupRows, buildTs, RowsOf(build[..i]))
    {
      hide RowsOf;
      NextBatch(build, s.buildTypes, i);
      groupRows, buildTs, ok := IndexBatch(s, ht, groupRows, buildTs, build[i], store.nrows, RowsOf(build[..i]));
      if !ok { return; }
      store.AppendBatch(build[i]);
    }
    assert build[..|build|] == build;
    ok := true;
  }

  method BuildSide(s: AsofSpec, build: seq<Batch>, combine: Combine, seed: u64)
    returns (ht: HashTable?, groupRows: seq<seq<nat>>, buildTs: seq<int>, cols: seq<StoreColumn>, n: nat, ok: bool)
    requires s.Valid() && TypesOk(s) && Supported(s) && Conforms(build, s.buildTypes)
    ensures ht != null ==> fresh(ht)
    ensures Stored(cols, n, s.buildTypes)
    ensures ok ==> AsofBuilt(s, ht, groupRows, buildTs, RowsOf(build)) && StoredRows(cols, n) == RowsOf(build)
    ensures !ok ==> |RowsOf(build)| > NO_GROUP
  {
    hide AsofBuilt, RowsOf;
    var store;
    ht, groupRows, buildTs, store, ok := DrainBuild(s, build, combine, seed);
    cols, n := store.cols, store.nrows;
  }

  class AsofJoin {
    const s: AsofSpec
    const probe: seq<Batch>     // the sorted children's batches
    const build: seq<Batch>
    const combine: Combine
    const seed: u64
    var isOpen: bool
    var ht: HashTable?
    var groupRows: seq<seq<nat>>
    var buildTs: seq<int>
    var cols: seq<StoreColumn>
    var n: nat
    var probePos: nat
    var probeDone: bool
    var lastGid: nat
    var cursor: nat
    var pairs: Pairs

    ghost predicate Valid()
      reads this, ht
    {
      InputsOk(s, probe, build) && (isOpen ==> BuildOk() && ProbeOk())
    }

    ghost predicate BuildOk()
      requires InputsOk(s, probe, build)
      reads this, ht
    {
      && AsofBuilt(s, ht, groupRows, buildTs, RowsOf(build))
      && Ready(s, groupRows, buildTs, RowsOf(build))
      && Stored(cols, n, s.buildTypes) && StoredRows(cols, n) == RowsOf(build)
    }

    /** The cursor belongs to the probe rows of the batches already taken. */
    ghost predicate ProbeOk()
      requires InputsOk(s, probe, build) && Ready(s, groupRows, buildTs, RowsOf(build))
      reads this
    {
      && probePos <= |probe| && (probeDone ==> probePos == |probe|)
      && pairs.Valid(s.probeTypes, |RowsOf(build)|)
      && CursorOk(s, groupRows, buildTs, RowsOf(build), RowsOf(probe[..probePos]), lastGid, cursor)
    }

    /** All the output still to come. */
    ghost function Remaining(): seq<Row>
      requires Valid() && isOpen
      reads this, ht
    {
      pairs.Rest(s.probeTypes, RowsOf(build), |s.buildTypes|) + JoinedFrom(s, probe, probePos, build)
    }

    constructor (s: AsofSpec, probe: seq<Batch>, build: seq<Batch>, combine: Combine, seed: u64)
      requires InputsOk(s, probe, build)
      ensures Valid() && !isOpen && this.s == s && this.probe == probe && this.build == build
    {
      this.s, this.probe, this.build, this.combine, this.seed := s, probe, build, combine, seed;
      isOpen, ht, groupRows, buildTs, cols, n := false, null, [], [], [], 0;
      probePos, probeDone, lastGid, cursor, pairs := 0, false, NO_GROUP, 0, NO_PAIRS;
    }

    ghost predicate AllToCome()
      requires Valid() && isOpen
      reads this, ht
    {
      Remaining() == Joined(s, probe, build)
    }

    /** Build; fails only when the group ids run out. */
    method Open() returns (ok: bool)
      requires Valid() && !isOpen
      modifies this
      ensures Valid() && isOpen == ok && (ok && ht != null ==> fresh(ht))
      ensures ok ==> AllToCome()
      ensures !ok ==> |RowsOf(build)| > NO_GROUP
    {
      hide AsofBuilt, JoinedFrom, Joined, RowsOf, Stored, StoredRows, TimeOrdered, TypesOk, Supported, AsofSpec.Valid, CursorOk,
        Pairs.Valid, Pairs.Rest, Batch.Valid, BuildOk, ProbeOk, Remaining, AllToCome,
        InputsOk, SameWidth, Conforms, Ready;
      InputsGive(s, probe, build);
      ht, groupRows, buildTs, cols, n, ok := BuildSide(s, build, combine, seed);
      probePos, probeDone, lastGid, cursor, pairs := 0, false, NO_GROUP, 0, NO_PAIRS;
      isOpen := ok;
      if ok { Opened(); }
    }

    /** What `Open` set up is valid, and all the output is to come. */
    lemma Opened()
      requires InputsOk(s, probe, build) && isOpen && AsofBuilt(s, ht, groupRows, buildTs, RowsOf(build))
      requires Stored(cols, n, s.buildTypes) && StoredRows(cols, n) == RowsOf(build)
      requires probePos == 0 && !probeDone && lastGid == NO_GROUP && cursor == 0 && pairs == NO_PAIRS
      ensures Valid() && AllToCome()
    {
      hide AsofBuilt, Ready, JoinedFrom, Joined, RowsOf, Stored, StoredRows, TimeOrdered, TypesOk, Supported, AsofSpec.Valid, CursorOk,
        Pairs.Valid, Pairs.Rest, Batch.Valid;
      NoPairsPending(s.probeTypes, RowsOf(build), |s.buildTypes|);
      JoinedFromEnds(s, probe, build);
      BuiltReady(s, ht, groupRows, buildTs, RowsOf(build));
      CursorStarts(s, probe, groupRows, buildTs, RowsOf(build));
    }

    /** Pull one probe batch and pair it; false, and done, when there is none left. */
    method BuildPairsForProbe() returns (more: bool)
      requires Valid() && isOpen && !probeDone && pairs.cursor >= |pairs.probeIdx|
      modifies this
      ensures Valid() && isOpen && ht == old(ht) && probeDone == !more
      ensures Remaining() == old(Remaining())
      ensures more <==> old(probePos) < |probe|
      ensures probePos == if more then old(probePos) + 1 else old(probePos)
    {
      hide AsofBuilt, Ready, AsofRows, JoinedFrom, RowsOf, Stored, StoredRows, TimeOrdered, CursorOk, AllTimesFit;
      if probePos == |probe| {
        pairs, probeDone := NO_PAIRS, true;
        return false;
      }
      var b := probe[probePos];
      JoinedFromNext(s, probe, probePos, build);
      var probeIdx, buildIdx;
      probeIdx, buildIdx, lastGid, cursor := PairsForProbe(s, ht, groupRows, buildTs, b, lastGid, cursor,
                                                           RowsOf(build), RowsOf(probe[..probePos]));
      PairedBatch(s, b, probeIdx, buildIdx, RowsOf(build));
      pairs, probePos := Pairs(b, probeIdx, buildIdx, 0), probePos + 1;
      more := true;
    }

    /** With no pair pending and no probe batch left, the output is complete. */
    lemma Drained()
      requires Valid() && isOpen && probeDone && pairs.cursor >= |pairs.probeIdx|
      ensures Remaining() == []
    {
      hide AsofBuilt, Ready, TimeOrdered;
      JoinedFromEnds(s, probe, build);
    }

    lemma MorePending()
      requires Valid() && isOpen && pairs.cursor < |pairs.probeIdx|
      ensures Remaining() != []
    {
      hide AsofBuilt, Ready, TimeOrdered;
    }

    /** Go on to a probe batch with a pair to emit, past those without any. */
    method FindPairs() returns (more: bool)
      requires Valid() && isOpen
      modifies this
      ensures Valid() && isOpen && ht == old(ht) && Remaining() == old(Remaining())
      ensures if more then pairs.cursor < |pairs.probeIdx| else Remaining() == []
    {
      hide AsofJoin.Valid, AsofJoin.Remaining;
      while pairs.cursor >= |pairs.probeIdx|
        invariant Valid() && isOpen && ht == old(ht) && Remaining() == old(Remaining())
        decreases |probe| - probePos, !probeDone
      {
        if probeDone {
          Drained();
          return false;
        }
        more := BuildPairsForProbe();
      }
      more := true;
    }

    /** The next rows of the join, at most `OUT_BATCH` of them. */
    method Next() returns (r: Option<Batch>)
      requires Valid() && isOpen
      modifies this
      ensures Valid() && isOpen && ht == old(ht)
      ensures r.None? <==> old(Remaining()) == []
      ensures r.Some? ==>
        && BatchFits(r.value, s.probeTypes + s.buildTypes) && 1 <= r.value.rowCount <= OUT_BATCH
        && old(Remaining()) == r.value.Rows() + Remaining()
    {
      hide AsofBuilt, Ready, JoinedFrom, RowsOf, Stored, StoredRows, TimeOrdered, CursorOk;
      var more := FindPairs();
      if !more { return None; }
      MorePending();
      var out;
      out, pairs := EmitChunk(pairs, cols, n, s.probeTypes, s.buildTypes);
      r := Some(out);
    }
  }

  lemma PairedBatch(s: AsofSpec, b: Batch, probeIdx: seq<nat>, buildIdx: seq<Option<nat>>, build: seq<Row>)
    requires s.Valid() && BatchFits(b, s.probeTypes) && SameWidth(build, |s.buildTypes|)
    requires Paired(s, b, probeIdx, buildIdx, b.rowCount, build)
    ensures SameWidth(b.Rows(), |s.probeTypes|) && AllTimesFit(s, b.Rows(), build)
    ensures PairsFit(b, probeIdx, buildIdx, |build|)
    ensures PairRows(b, probeIdx, buildIdx, build, |s.buildTypes|) == AsofRows(s, b.Rows(), build)
  {
    hide TimesFit, AsofRows, PairRows;
    assert b.Rows()[..b.rowCount] == b.Rows();
  }

  /** Drain an open join. */
  method DrainJoin(join: AsofJoin) returns (out: seq<Batch>)
    requires join.Valid() && join.isOpen
    modifies join
    ensures Conforms(out, join.s.probeTypes + join.s.buildTypes)
    ensures forall i | 0 <= i < |out| :: 1 <= out[i].rowCount <= OUT_BATCH
    ensures RowsOf(out) == old(join.Remaining())
  {
    hide AsofJoin.Valid, AsofJoin.Remaining, Batch.Valid, Batch.Rows;
    out := [];
    ghost var types := join.s.probeTypes + join.s.buildTypes;
    assert RowsOf(out) + join.Remaining() == join.Remaining();
    while true
      invariant join.Valid() && join.isOpen && join.ht == old(join.ht)
      invariant Conforms(out, types) && forall i | 0 <= i < |out| :: 1 <= out[i].rowCount <= OUT_BATCH
      invariant RowsOf(out) + join.Remaining() == old(join.Remaining())
      decreases |join.Remaining()|
    {
      ghost var rest := join.Remaining();
      var b := join.Next();
      if b.None? {
        assert rest == [] && RowsOf(out) + rest == RowsOf(out);
        return;
      }
      PushBatch(out, types, b.value, rest, join.Remaining());
      out := out + [b.value];
    }
  }

  /** Sort one side by (keys, timestamp). */
  method SortSide(input: seq<Batch>, types: seq<Type>, keys: seq<nat>, time: nat)
    returns (sorted: seq<Batch>, ghost perm: seq<nat>)
    requires Conforms(input, types) && time < |types| && forall j | 0 <= j < |keys| :: keys[j] < |types|
    ensures Conforms(sorted, types) && SameWidth(RowsOf(input), |types|)
    ensures SortedBy(RowsOf(input), keys, time, |types|, perm)
    ensures RowsOf(sorted) == Pick(RowsOf(input), perm)
    ensures TimeOrdered(RowsOf(sorted), keys, time, |types|)
  {
    hide RowsOf, TimeOrdered, TimeKeys, Contiguous;
    var sk := TimeKeys(keys, time);
    TimeKeysFit(keys, time, |types|);
    sorted, perm := Sorts.SortRows(input, types, sk, Sorts.Auto);
    Sorts.PermutationLength(sk, RowsOf(input), |types|, perm);
    SortedIsTimeOrdered(RowsOf(input), keys, time, |types|, perm);
  }

  /** `perm` is the stable sort by the keys, then the time; it puts each key's rows together. */
  ghost predicate SortedBy(rows: seq<Row>, keys: seq<nat>, time: nat, width: nat, perm: seq<nat>) {
    && SameWidth(rows, width) && time < width && (forall j | 0 <= j < |keys| :: keys[j] < width)
    && SortOrders.KeysFit(TimeKeys(keys, time), width) && |perm| == |rows|
    && SortOrders.StablePermutation(TimeKeys(keys, time), rows, width, perm)
    && SortOrders.InKeyOrder(TimeKeys(keys, time), rows, perm, Pick(rows, perm), width)
    && Contiguous(Pick(rows, perm), keys, width)
  }

  lemma TimeKeysFit(keys: seq<nat>, time: nat, width: nat)
    requires time < width && forall j | 0 <= j < |keys| :: keys[j] < width
    ensures SortOrders.KeysFit(TimeKeys(keys, time), width)
  {
  }

  predicate TimesAreIntegers(s: AsofSpec)
    requires s.Valid()
  {
    var p, b := s.probeTypes[s.probeTime], s.buildTypes[s.buildTime];
    (p == I32 || p == I64 || p == TS) && (b == I32 || b == I64 || b == TS)
  }

  predicate KeyTypesMatch(s: AsofSpec)
    requires s.Valid()
  {
    forall j | 0 <= j < |s.probeKeys| :: s.probeTypes[s.probeKeys[j]] == s.buildTypes[s.buildKeys[j]]
  }

  lemma TypesOkIs(s: AsofSpec)
    requires s.Valid()
    ensures TypesOk(s) <==> TimesAreIntegers(s) && KeyTypesMatch(s)
  {
  }

  datatype AsofResult = Batches(batches: seq<Batch>) | BadTypes | OutOfGroups

  /**
   Run a whole as-of join. Each probe row, in (key, timestamp) order, is paired with the
   nearest preceding build row; when that row is unambiguous and the tolerance is not
   negative, the output is the brute-force one.
   */
  method AsofAll(s: AsofSpec, probe: seq<Batch>, build: seq<Batch>, combine: Combine, seed: u64)
    returns (r: AsofResult, ghost probePerm: seq<nat>, ghost buildPerm: seq<nat>)
    requires s.Valid() && Supported(s) && Conforms(probe, s.probeTypes) && Conforms(build, s.buildTypes)
    ensures r.BadTypes? <==> !TypesOk(s)
    ensures !r.BadTypes? <==> TimesAreIntegers(s) && KeyTypesMatch(s)
    ensures r.OutOfGroups? ==> |RowsOf(build)| > NO_GROUP
    ensures r.Batches? ==>
      && Conforms(r.batches, s.probeTypes + s.buildTypes)
      && (forall i | 0 <= i < |r.batches| :: 1 <= r.batches[i].rowCount <= OUT_BATCH)
      && AsofOutput(s, RowsOf(probe), RowsOf(build), probePerm, buildPerm, RowsOf(r.batches))
  {
    probePerm, buildPerm := [], [];
    TypesOkIs(s);
    hide TimesAreIntegers, KeyTypesMatch;
    if !TypesOk(s) { return BadTypes, [], []; }
    hide Joined, AsofJoin.Remaining, AsofJoin.Valid, RowsOf, AsofOutput, TimeOrdered, SortedBy;
    var sortedProbe, sortedBuild;
    sortedProbe, probePerm := SortSide(probe, s.probeTypes, s.probeKeys, s.probeTime);
    sortedBuild, buildPerm := SortSide(build, s.buildTypes, s.buildKeys, s.buildTime);
    var join := new AsofJoin(s, sortedProbe, sortedBuild, combine, seed);
    var ok := join.Open();
    if !ok { return OutOfGroups, probePerm, buildPerm; }
    var out := DrainJoin(join);
    r := Batches(out);
    OutputMeaning(s, probe, build, sortedProbe, sortedBuild, probePerm, buildPerm);
  }

  /** The promise of the join: the order of the probe rows, and the match of each. */
  ghost predicate AsofOutput(s: AsofSpec, probe: seq<Row>, build: seq<Row>, probePerm: seq<nat>, buildPerm: seq<nat>,
                             out: seq<Row>)
    requires s.Valid()
  {
    && SameWidth(probe, |s.probeTypes|) && SameWidth(build, |s.buildTypes|)
    && SortedBy(probe, s.probeKeys, s.probeTime, |s.probeTypes|, probePerm)
    && SortedBy(build, s.buildKeys, s.buildTime, |s.buildTypes|, buildPerm)
    && TimeOrdered(Pick(probe, probePerm), s.probeKeys, s.probeTime, |s.probeTypes|)
    && TimeOrdered(Pick(build, buildPerm), s.buildKeys, s.buildTime, |s.buildTypes|)
    && AllTimesFit(s, Pick(probe, probePerm), Pick(build, buildPerm))
    && out == AsofRows(s, Pick(probe, probePerm), Pick(build, buildPerm))
    && IsAsof(s, Pick(probe, probePerm), Pick(build, buildPerm), out)
    && (UniqueTimes(s, build) ==>
          (out == ReferenceRows(s, Pick(probe, probePerm), build)
           <==> forall k | 0 <= k < |probePerm| :: ToleranceHolds(s, Pick(probe, probePerm)[k], build)))
  }

  lemma OutputMeaning(s: AsofSpec, probe: seq<Batch>, build: seq<Batch>, sortedProbe: seq<Batch>,
                      sortedBuild: seq<Batch>, probePerm: seq<nat>, buildPerm: seq<nat>)
    requires InputsOk(s, sortedProbe, sortedBuild)
    requires Conforms(probe, s.probeTypes) && Conforms(build, s.buildTypes)
    requires SameWidth(RowsOf(probe), |s.probeTypes|) && SameWidth(RowsOf(build), |s.buildTypes|)
    requires SortedBy(RowsOf(probe), s.probeKeys, s.probeTime, |s.probeTypes|, probePerm)
    requires SortedBy(RowsOf(build), s.buildKeys, s.buildTime, |s.buildTypes|, buildPerm)
    requires RowsOf(sortedProbe) == Pick(RowsOf(probe), probePerm)
    requires RowsOf(sortedBuild) == Pick(RowsOf(build), buildPerm)
    ensures AsofOutput(s, RowsOf(probe), RowsOf(build), probePerm, buildPerm, Joined(s, sortedProbe, sortedBuild))
  {
    hide RowsOf, TimeOrdered, AsofRows, IsAsof, ReferenceRows, UniqueTimes, Pick, AllTimesFit, Contiguous, ToleranceHolds, TimeKeys;
    InputTimesFit(s, sortedProbe, sortedBuild);
    AsofMeans(s, RowsOf(sortedProbe), RowsOf(sortedBuild));
    if UniqueTimes(s, RowsOf(build)) {
      AsofRowsAreReference(s, RowsOf(sortedProbe), RowsOf(build), buildPerm);
    }
  }
}
