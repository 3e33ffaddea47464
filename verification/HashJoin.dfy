/**
 The hash equi-join: drain and index the build side, then expand each probe batch into
 pairs and emit them in bounded batches.

 The meaning is the nested loop over both inputs: probe rows in order, the matching build
 rows of each in drain order, and in a left join one null-filled row for a probe row
 without a match. Keys match by value, and a key with a NULL matches nothing.
 */
module HashJoins {
  import opened Words
  import opened Columns
  import opened GroupIds
  import opened KeyRows
  import opened HashTables
  import opened KeyCodes
  import opened KeyedInputs
  import opened RowStores
  import opened JoinPairs
  import D = StringDicts

  datatype JoinSpec = JoinSpec(probeTypes: seq<Type>, buildTypes: seq<Type>,
                               probeKeys: seq<nat>, buildKeys: seq<nat>, kind: JoinType)
  {
    /** The keys of the two sides pair up, one or more of them. */
    ghost predicate Valid() {
      && KeysFit(probeTypes, probeKeys) && KeysFit(buildTypes, buildKeys)
      && |probeKeys| == |buildKeys|
    }

    /** The constructor's check, which every build performs. */
    predicate SameKeyTypes()
      requires |probeKeys| == |buildKeys|
      requires forall j | 0 <= j < |probeKeys| :: probeKeys[j] < |probeTypes|
      requires forall j | 0 <= j < |buildKeys| :: buildKeys[j] < |buildTypes|
    {
      forall j | 0 <= j < |probeKeys| :: probeTypes[probeKeys[j]] == buildTypes[buildKeys[j]]
    }
  }

  // ----- the meaning -----

  /** SQL equality of the key lists: equal by value and without NULL. */
  predicate Joins(s: JoinSpec, p: Row, b: Row)
    requires s.Valid() && |p| == |s.probeTypes| && |b| == |s.buildTypes|
  {
    RowKey(p, s.probeKeys) == RowKey(b, s.buildKeys) && Null !in RowKey(p, s.probeKeys)
  }

  /** The inner loop over the build rows. */
  function InnerLoop(s: JoinSpec, p: Row, build: seq<Row>): seq<Row>
    requires s.Valid() && |p| == |s.probeTypes| && SameWidth(build, |s.buildTypes|)
  {
    if build == [] then []
    else
      var b := build[|build| - 1];
      InnerLoop(s, p, build[..|build| - 1]) + (if Joins(s, p, b) then [p + b] else [])
  }

  /** The output of one probe row. */
  function JoinRow(s: JoinSpec, p: Row, build: seq<Row>): seq<Row>
    requires s.Valid() && |p| == |s.probeTypes| && SameWidth(build, |s.buildTypes|)
  {
    var matched := InnerLoop(s, p, build);
    if matched == [] && s.kind.Left? then [p + NullRow(|s.buildTypes|)] else matched
  }

  /** The outer loop over the probe rows. */
  function NestedLoopJoin(s: JoinSpec, probe: seq<Row>, build: seq<Row>): seq<Row>
    requires s.Valid() && SameWidth(probe, |s.probeTypes|) && SameWidth(build, |s.buildTypes|)
  {
    if probe == [] then []
    else
      NestedLoopJoin(s, probe[..|probe| - 1], build) + JoinRow(s, probe[|probe| - 1], build)
  }

  /** The join distributes over cutting the probe side. */
  lemma {:induction false} JoinConcat(s: JoinSpec, a: seq<Row>, b: seq<Row>, build: seq<Row>)
    requires s.Valid() && SameWidth(a, |s.probeTypes|) && SameWidth(b, |s.probeTypes|)
    requires SameWidth(build, |s.buildTypes|)
    ensures NestedLoopJoin(s, a + b, build) == NestedLoopJoin(s, a, build) + NestedLoopJoin(s, b, build)
  {
    hide JoinRow;
    if b == [] {
      assert a + b == a;
    } else {
      assert (a + b)[..|a + b| - 1] == a + b[..|b| - 1];
      JoinConcat(s, a, b[..|b| - 1], build);
    }
  }

  // ----- the meaning, said outright -----

  ghost predicate SameKeys(s: JoinSpec, p: Row, b: Row)
    requires s.Valid() && |p| == |s.probeTypes| && |b| == |s.buildTypes|
  {
    forall j | 0 <= j < |s.probeKeys| :: SameValue(p[s.probeKeys[j]], b[s.buildKeys[j]])
  }

  lemma JoinsIs(s: JoinSpec, p: Row, b: Row)
    requires s.Valid() && |p| == |s.probeTypes| && |b| == |s.buildTypes|
    ensures Joins(s, p, b) <==> SameKeys(s, p, b)
  {
    hide SameValue;
    var x, y := RowKey(p, s.probeKeys), RowKey(b, s.buildKeys);
    forall j | 0 <= j < |s.probeKeys|
      ensures SameValue(p[s.probeKeys[j]], b[s.buildKeys[j]]) <==> x[j] == y[j] && !x[j].Null?
    {
      SameValueIs(p[s.probeKeys[j]], b[s.buildKeys[j]]);
    }
  }

  /** The rows of a join: every pair of rows with the same keys; in a left join, also every probe row without such a build row. */
  ghost predicate IsOutput(s: JoinSpec, probe: seq<Row>, build: seq<Row>, q: Pair)
    requires s.Valid() && SameWidth(probe, |s.probeTypes|) && SameWidth(build, |s.buildTypes|)
  {
    q.probe < |probe|
    && match q.build
       case Some(k) => k < |build| && SameKeys(s, probe[q.probe], build[k])
       case None => s.kind.Left? && forall k | 0 <= k < |build| :: !SameKeys(s, probe[q.probe], build[k])
  }

  /** Each of them once, and nothing else. */
  ghost predicate IsJoin(s: JoinSpec, probe: seq<Row>, build: seq<Row>, out: seq<Row>)
    requires s.Valid()
  {
    && SameWidth(probe, |s.probeTypes|) && SameWidth(build, |s.buildTypes|)
    && exists qs :: PairsOut(out, probe, build, |s.buildTypes|, qs) && forall q :: q in qs <==> IsOutput(s, probe, build, q)
  }

  lemma {:induction false} InnerPairs(s: JoinSpec, probe: seq<Row>, build: seq<Row>, i: nat, n: nat) returns (qs: seq<Pair>)
    requires s.Valid() && SameWidth(probe, |s.probeTypes|) && SameWidth(build, |s.buildTypes|) && i < |probe| && n <= |build|
    ensures PairsOut(InnerLoop(s, probe[i], build[..n]), probe, build, |s.buildTypes|, qs)
    ensures forall q :: q in qs <==>
      q.probe == i && q.build.Some? && q.build.value < n && SameKeys(s, probe[i], build[q.build.value])
  {
    qs := [];
    if n > 0 {
      hide SameKeys;
      qs := InnerPairs(s, probe, build, i, n - 1);
      assert build[..n][..n - 1] == build[..n - 1];
      JoinsIs(s, probe[i], build[n - 1]);
      if Joins(s, probe[i], build[n - 1]) {
        hide Joins;
        var q := Pair(i, Some(n - 1));
        PairsOutConcat(InnerLoop(s, probe[i], build[..n - 1]), qs, [probe[i] + build[n - 1]], [q], probe, build, |s.buildTypes|);
        qs := qs + [q];
      }
    }
  }

  lemma FirstIsIn(qs: seq<Pair>)
    ensures qs != [] ==> qs[0] in qs
  {
  }

  lemma RowPairs(s: JoinSpec, probe: seq<Row>, build: seq<Row>, i: nat) returns (qs: seq<Pair>)
    requires s.Valid() && SameWidth(probe, |s.probeTypes|) && SameWidth(build, |s.buildTypes|) && i < |probe|
    ensures PairsOut(JoinRow(s, probe[i], build), probe, build, |s.buildTypes|, qs)
    ensures forall q :: q in qs <==> q.probe == i && IsOutput(s, probe, build, q)
  {
    hide SameKeys, InnerLoop;
    assert build[..|build|] == build;
    qs := InnerPairs(s, probe, build, i, |build|);
    if k :| 0 <= k < |build| && SameKeys(s, probe[i], build[k]) {
      assert Pair(i, Some(k)) in qs;
    } else if s.kind.Left? {
      FirstIsIn(qs);
      qs := [Pair(i, None)];
    }
  }

  lemma {:induction false} AllPairs(s: JoinSpec, probe: seq<Row>, build: seq<Row>, n: nat) returns (qs: seq<Pair>)
    requires s.Valid() && SameWidth(probe, |s.probeTypes|) && SameWidth(build, |s.buildTypes|) && n <= |probe|
    ensures PairsOut(NestedLoopJoin(s, probe[..n], build), probe, build, |s.buildTypes|, qs)
    ensures forall q :: q in qs <==> q.probe < n && IsOutput(s, probe, build, q)
  {
    qs := [];
    if n > 0 {
      hide IsOutput, JoinRow, PairsOut;
      qs := AllPairs(s, probe, build, n - 1);
      var last := RowPairs(s, probe, build, n - 1);
      assert probe[..n][..n - 1] == probe[..n - 1];
      PairsOutConcat(NestedLoopJoin(s, probe[..n - 1], build), qs, JoinRow(s, probe[n - 1], build), last, probe, build, |s.buildTypes|);
      qs := qs + last;
    }
  }

  /** The nested loops give the join. */
  lemma NestedLoopsJoin(s: JoinSpec, probe: seq<Row>, build: seq<Row>)
    requires s.Valid() && SameWidth(probe, |s.probeTypes|) && SameWidth(build, |s.buildTypes|)
    ensures IsJoin(s, probe, build, NestedLoopJoin(s, probe, build))
  {
    hide NestedLoopJoin, PairsOut;
    assert probe[..|probe|] == probe;
    var qs := AllPairs(s, probe, build, |probe|);
    assert forall q :: IsOutput(s, probe, build, q) ==> q.probe < |probe|;
    hide IsOutput;
  }

  // ----- the build side -----

  /** Append a batch's rows, numbered from `|ids|` on, to their groups' lists. */
  method PushRows(groupRows: seq<seq<nat>>, ghost ids: seq<nat>, start: nat, batchIds: seq<nat>, groups: nat)
    returns (groupRows': seq<seq<nat>>)
    requires Grouped(groupRows, ids) && start == |ids| && |groupRows| <= groups <= NO_GROUP
    requires forall k | 0 <= k < |batchIds| :: batchIds[k] < groups
    ensures Grouped(groupRows', ids + batchIds) && |groupRows'| == groups
  {
    hide Grouped;
    GroupedResize(groupRows, ids, groups - |groupRows|);
    groupRows' := groupRows + seq(groups - |groupRows|, _ => []);
    assert ids + batchIds[..0] == ids;
    for k := 0 to |batchIds|
      invariant |groupRows'| == groups && Grouped(groupRows', ids + batchIds[..k])
    {
      var g := batchIds[k];
      GroupedPush(groupRows', ids + batchIds[..k], g);
      assert ids + batchIds[..k] + [g] == ids + batchIds[..k + 1];
      groupRows' := groupRows'[g := groupRows'[g] + [start + k]];
    }
    assert batchIds[..|batchIds|] == batchIds;
  }

  /** The state left by the build: table, multiplicity map and materialized rows. */
  ghost predicate Built(s: JoinSpec, ht: HashTable, groupRows: seq<seq<nat>>, dicts: seq<D.Dict>, build: seq<Row>)
    requires s.Valid()
    reads ht
  {
    && Fed(ht, s.buildTypes, s.buildKeys, dicts, build) && ht.policy.NeverMatch?
    && |groupRows| == |ht.Contents()|
    && Grouped(groupRows, IdsOf(NeverMatch, s.buildTypes, s.buildKeys, dicts, build))
  }

  /** Dictionary codes are 32-bit: the key strings of both inputs must leave room for one each. */
  ghost predicate CodesFit(s: JoinSpec, probe: seq<Row>, build: seq<Row>)
    requires s.Valid()
  {
    (exists j | 0 <= j < |s.buildKeys| :: s.buildTypes[s.buildKeys[j]].STR?) ==>
      |probe| + |build| <= TWO_31
  }

  /** Index one more batch of the build side, whose rows are numbered from `start`. */
  method IndexBatch(s: JoinSpec, ht: HashTable, groupRows: seq<seq<nat>>, dicts: seq<D.Dict>, b: Batch, start: nat,
                    ghost build: seq<Row>, ghost room: nat)
    returns (groupRows': seq<seq<nat>>, dicts': seq<D.Dict>, ok: bool)
    requires s.Valid() && BatchFits(b, s.buildTypes) && start == |build|
    requires Built(s, ht, groupRows, dicts, build)
    requires RoomFor(s.buildTypes, s.buildKeys, dicts, b.rowCount + room)
    modifies ht
    ensures ok ==> Built(s, ht, groupRows', dicts', build + b.Rows())
    ensures RoomFor(s.buildTypes, s.buildKeys, dicts', room)
    ensures !ok ==> |build| + b.rowCount > NO_GROUP
  {
    ghost var was := IdsOf(NeverMatch, s.buildTypes, s.buildKeys, dicts, build);
    hide Fed, Grouped, AssignAll, Extends, Known;
    var ids;
    ids, dicts', ok := InsertBatch(ht, b, s.buildTypes, s.buildKeys, dicts, build);
    RoomAfter(s.buildTypes, s.buildKeys, dicts, dicts', b, room);
    groupRows' := groupRows;
    if ok {
      NewIdsBelow(s, ht, dicts', build + b.Rows(), was, ids);
      groupRows' := PushRows(groupRows, was, start, ids, ht.NumGroups());
    }
  }

  lemma NewIdsBelow(s: JoinSpec, ht: HashTable, dicts: seq<D.Dict>, build: seq<Row>, before: seq<nat>, ids: seq<nat>)
    requires s.Valid() && Fed(ht, s.buildTypes, s.buildKeys, dicts, build) && ht.policy.NeverMatch?
    requires IdsOf(NeverMatch, s.buildTypes, s.buildKeys, dicts, build) == before + ids
    ensures ht.Valid() && forall k | 0 <= k < |ids| :: ids[k] < |ht.Contents()|
  {
    hide Known, TuplesOf, AssignAll;
    var all := IdsOf(NeverMatch, s.buildTypes, s.buildKeys, dicts, build);
    forall k | 0 <= k < |ids| ensures ids[k] < |ht.Contents()| {
      assert all[|before| + k] == ids[k];
    }
  }

  lemma NothingBuilt(s: JoinSpec, ht: HashTable, dicts: seq<D.Dict>)
    requires s.Valid() && ht.Valid() && ht.ncols == |s.buildKeys| == |dicts| && ht.policy.NeverMatch?
    requires ht.Contents() == []
    ensures Built(s, ht, [], dicts, [])
  {
    hide HashTable.Valid;
  }

  /** Drain the build child into the table, the multiplicity map and the row store. */
  method DrainBuild(s: JoinSpec, build: seq<Batch>, combine: Combine, seed: u64, ghost probeRows: nat)
    returns (ht: HashTable, groupRows: seq<seq<nat>>, store: RowStore, dicts: seq<D.Dict>, ok: bool)
    requires s.Valid() && Conforms(build, s.buildTypes)
    requires RoomFor(s.buildTypes, s.buildKeys, NoStrings(|s.buildKeys|), |RowsOf(build)| + probeRows)
    ensures fresh(ht) && store.Valid() && store.types == s.buildTypes
    ensures ok ==> Built(s, ht, groupRows, dicts, RowsOf(build)) && store.Rows() == RowsOf(build)
    ensures ok ==> RoomFor(s.buildTypes, s.buildKeys, dicts, probeRows)
    ensures !ok ==> |RowsOf(build)| > NO_GROUP
  {
    hide RowStore.Valid, RowStore.Rows, Built, RoomFor, Batch.Valid, HashTable.Valid, HashTable.Contents;
    ghost var room: nat := |RowsOf(build)| + probeRows;
    dicts := NoStrings(|s.buildKeys|);
    ht := new HashTable(|s.buildKeys|, NeverMatch, DEFAULT_CAPACITY, DEFAULT_LOAD, combine, seed);
    NothingBuilt(s, ht, dicts);
    groupRows := [];
    store := new RowStore(s.buildTypes);
    for i := 0 to |build|
      invariant fresh(ht) && fresh(store) && store.Valid() && store.types == s.buildTypes
      invariant store.Rows() == RowsOf(build[..i]) && |RowsOf(build[..i])| + room == |RowsOf(build)| + probeRows
      invariant Built(s, ht, groupRows, dicts, RowsOf(build[..i]))
      invariant RoomFor(s.buildTypes, s.buildKeys, dicts, room)
    {
      hide RowsOf;
      NextBatch(build, s.buildTypes, i);
      room := room - build[i].rowCount;
      groupRows, dicts, ok := IndexBatch(s, ht, groupRows, dicts, build[i], store.nrows, RowsOf(build[..i]), room);
      if !ok { return; }
      store.AppendBatch(build[i]);
    }
    assert build[..|build|] == build;
    ok := true;
  }

  method BuildSide(s: JoinSpec, build: seq<Batch>, combine: Combine, seed: u64, ghost probeRows: nat)
    returns (ht: HashTable, groupRows: seq<seq<nat>>, cols: seq<StoreColumn>, n: nat, dicts: seq<D.Dict>, ok: bool)
    requires s.Valid() && Conforms(build, s.buildTypes)
    requires RoomFor(s.buildTypes, s.buildKeys, NoStrings(|s.buildKeys|), |RowsOf(build)| + probeRows)
    ensures fresh(ht)
    ensures ok ==> Built(s, ht, groupRows, dicts, RowsOf(build))
    ensures Stored(cols, n, s.buildTypes) && (ok ==> StoredRows(cols, n) == RowsOf(build))
    ensures ok ==> RoomFor(s.buildTypes, s.buildKeys, dicts, probeRows)
    ensures !ok ==> |RowsOf(build)| > NO_GROUP
  {
    hide Built, RoomFor, RowsOf;
    var store;
    ht, groupRows, store, dicts, ok := DrainBuild(s, build, combine, seed, probeRows);
    cols, n := store.cols, store.nrows;
  }

  // ----- the probe side -----

  /** The table's answer for a probe row names exactly the build rows it joins with. */
  lemma AnswerNamesMatches(s: JoinSpec, dicts: seq<D.Dict>, build: seq<Row>, p: Row)
    requires s.Valid() && s.SameKeyTypes() && |p| == |s.probeTypes|
    requires AllKnown(s.buildTypes, s.buildKeys, dicts, build) && RoomFor(s.buildTypes, s.buildKeys, dicts, 0)
    requires Known(KeyTypes(s.probeTypes, s.probeKeys), dicts, KeyCells(p, s.probeKeys))
    ensures
      var t := TupleOf(KeyTypes(s.probeTypes, s.probeKeys), dicts, KeyCells(p, s.probeKeys));
      var found := Lookup(NeverMatch, GroupsOf(NeverMatch, s.buildTypes, s.buildKeys, dicts, build), t);
      var ids := IdsOf(NeverMatch, s.buildTypes, s.buildKeys, dicts, build);
      && (forall r | 0 <= r < |build| :: found == Some(ids[r]) <==> Joins(s, p, build[r]))
      && (found.Some? ==> exists r :: 0 <= r < |build| && Joins(s, p, build[r]))
  {
    hide Known, TupleOf, RowKey, AssignAll, Lookup;
    var kts := KeyTypes(s.buildTypes, s.buildKeys);
    assert kts == KeyTypes(s.probeTypes, s.probeKeys);
    var t := TupleOf(kts, dicts, KeyCells(p, s.probeKeys));
    var ks := TuplesOf(s.buildTypes, s.buildKeys, dicts, build);
    forall r | 0 <= r < |build| ensures Joins(s, p, build[r]) <==> t == ks[r] && !HasNull(t) {
      SameTupleIffSameKey(kts, dicts, p, s.probeKeys, build[r], s.buildKeys);
    }
    LookupIsMatch(ks, t);
  }

  lemma LookupIsMatch(ks: seq<KeyTuple>, t: KeyTuple)
    ensures var a := AssignAll(NeverMatch, [], ks);
      && (forall r | 0 <= r < |ks| :: Lookup(NeverMatch, a.0, t) == Some(a.1[r]) <==> t == ks[r] && !HasNull(t))
      && (Lookup(NeverMatch, a.0, t).Some? ==> exists r :: 0 <= r < |ks| && t == ks[r] && !HasNull(t))
  {
    hide AssignAll, HasNull;
    FindAfterBuild(NeverMatch, ks, t);
    IdsReadBack(NeverMatch, [], ks);
    AssignAllGrows(NeverMatch, [], ks);
  }

  lemma {:induction false} MatchedRows(s: JoinSpec, p: Row, build: seq<Row>, ids: seq<nat>, g: nat)
    requires s.Valid() && |p| == |s.probeTypes| && SameWidth(build, |s.buildTypes|) && |ids| == |build|
    requires forall r | 0 <= r < |build| :: ids[r] == g <==> Joins(s, p, build[r])
    ensures var rows := RowsWith(ids, g);
      InnerLoop(s, p, build) == seq(|rows|, i requires 0 <= i < |rows| => p + build[rows[i]])
  {
    hide Joins;
    if build != [] {
      var n := |build| - 1;
      assert ids[..n] == ids[..|ids| - 1];
      MatchedRows(s, p, build[..n], ids[..n], g);
    }
  }

  lemma {:induction false} InnerLoopEmpty(s: JoinSpec, p: Row, build: seq<Row>)
    requires s.Valid() && |p| == |s.probeTypes| && SameWidth(build, |s.buildTypes|)
    ensures InnerLoop(s, p, build) == [] <==> forall r | 0 <= r < |build| :: !Joins(s, p, build[r])
  {
    hide Joins;
    if build != [] {
      var n := |build| - 1;
      InnerLoopEmpty(s, p, build[..n]);
      assert forall r | 0 <= r < n :: build[..n][r] == build[r];
    }
  }

  /** The build rows paired with a probe row of group `id`. */
  function Partners(kind: JoinType, groupRows: seq<seq<nat>>, id: nat): seq<Option<nat>>
    requires id != NO_GROUP ==> id < |groupRows|
  {
    if id != NO_GROUP then seq(|groupRows[id]|, i requires 0 <= i < |groupRows[id]| => Some(groupRows[id][i]))
    else if kind.Left? then [None]
    else []
  }

  /** A probe row's partners, joined to it, are its rows of the nested loop. */
  lemma PartnersAreMatches(s: JoinSpec, groupRows: seq<seq<nat>>, dicts: seq<D.Dict>, build: seq<Row>, p: Row, id: nat)
    requires s.Valid() && s.SameKeyTypes() && |p| == |s.probeTypes|
    requires AllKnown(s.buildTypes, s.buildKeys, dicts, build) && RoomFor(s.buildTypes, s.buildKeys, dicts, 0)
    requires Known(KeyTypes(s.probeTypes, s.probeKeys), dicts, KeyCells(p, s.probeKeys))
    requires |groupRows| == |GroupsOf(NeverMatch, s.buildTypes, s.buildKeys, dicts, build)| <= NO_GROUP
    requires Grouped(groupRows, IdsOf(NeverMatch, s.buildTypes, s.buildKeys, dicts, build))
    requires id == Answer(NeverMatch, GroupsOf(NeverMatch, s.buildTypes, s.buildKeys, dicts, build),
                          TupleOf(KeyTypes(s.probeTypes, s.probeKeys), dicts, KeyCells(p, s.probeKeys)))
    ensures id != NO_GROUP ==> id < |groupRows|
    ensures var bs := Partners(s.kind, groupRows, id);
      && (forall i | 0 <= i < |bs| && bs[i].Some? :: bs[i].value < |build|)
      && JoinRow(s, p, build)
      == seq(|bs|, i requires 0 <= i < |bs| => p + BuildRow(build, bs[i], |s.buildTypes|))
  {
    hide Known, TupleOf, Joins, IdsOf, GroupsOf;
    AnswerNamesMatches(s, dicts, build, p);
    InnerLoopEmpty(s, p, build);
    if id != NO_GROUP {
      MatchedRows(s, p, build, IdsOf(NeverMatch, s.buildTypes, s.buildKeys, dicts, build), id);
    }
  }

  /** Pair every live row of a probe batch with its partners, in order. */
  method PairsForProbe(s: JoinSpec, ht: HashTable, groupRows: seq<seq<nat>>, dicts: seq<D.Dict>, b: Batch,
                       ghost build: seq<Row>, ghost room: nat)
    returns (probeIdx: seq<nat>, buildIdx: seq<Option<nat>>, dicts': seq<D.Dict>)
    requires s.Valid() && s.SameKeyTypes() && BatchFits(b, s.probeTypes)
    requires Built(s, ht, groupRows, dicts, build)
    requires RoomFor(s.buildTypes, s.buildKeys, dicts, b.rowCount + room)
    ensures Built(s, ht, groupRows, dicts', build)
    ensures RoomFor(s.buildTypes, s.buildKeys, dicts', room)
    ensures PairsFit(b, probeIdx, buildIdx, |build|)
    ensures PairRows(b, probeIdx, buildIdx, build, |s.buildTypes|) == NestedLoopJoin(s, b.Rows(), build)
  {
    hide Known, TupleOf, IdsOf, GroupsOf, JoinRow;
    assert KeyTypes(s.buildTypes, s.buildKeys) == KeyTypes(s.probeTypes, s.probeKeys);
    var ids;
    ids, dicts' := FindBatch(ht, b, s.probeTypes, s.probeKeys, dicts);
    RoomAfter(s.probeTypes, s.probeKeys, dicts, dicts', b, room);
    BuiltStable(s, ht, groupRows, dicts, dicts', build);
    probeIdx, buildIdx := [], [];
    for k := 0 to b.rowCount
      invariant PairsFit(b, probeIdx, buildIdx, |build|)
      invariant PairRows(b, probeIdx, buildIdx, build, |s.buildTypes|) == NestedLoopJoin(s, b.Rows()[..k], build)
    {
      var p := b.SelAt(k);
      PartnersAreMatches(s, groupRows, dicts', build, b.Rows()[k], ids[k]);
      var bs := Partners(s.kind, groupRows, ids[k]);
      MorePairs(s, b, probeIdx, buildIdx, k, bs, build);
      probeIdx := probeIdx + seq(|bs|, _ => p);
      buildIdx := buildIdx + bs;
    }
    assert b.Rows()[..b.rowCount] == b.Rows();
  }

  /** Strings interned while probing change nothing that was built. */
  lemma BuiltStable(s: JoinSpec, ht: HashTable, groupRows: seq<seq<nat>>, dicts: seq<D.Dict>, dicts': seq<D.Dict>, build: seq<Row>)
    requires s.Valid() && Built(s, ht, groupRows, dicts, build) && Extends(dicts, dicts')
    ensures Built(s, ht, groupRows, dicts', build)
  {
    hide Known, TuplesOf, GroupsOf, IdsOf, HashTable.Valid;
    TuplesStable(s.buildTypes, s.buildKeys, dicts, dicts', build);
  }

  lemma MorePairs(s: JoinSpec, b: Batch, probeIdx: seq<nat>, buildIdx: seq<Option<nat>>, k: nat,
                  bs: seq<Option<nat>>, build: seq<Row>)
    requires s.Valid() && BatchFits(b, s.probeTypes) && k < b.rowCount && SameWidth(build, |s.buildTypes|)
    requires PairsFit(b, probeIdx, buildIdx, |build|)
    requires PairRows(b, probeIdx, buildIdx, build, |s.buildTypes|) == NestedLoopJoin(s, b.Rows()[..k], build)
    requires forall i | 0 <= i < |bs| && bs[i].Some? :: bs[i].value < |build|
    requires JoinRow(s, b.Rows()[k], build)
          == seq(|bs|, i requires 0 <= i < |bs| => b.Rows()[k] + BuildRow(build, bs[i], |s.buildTypes|))
    ensures var probeIdx', buildIdx' := probeIdx + seq(|bs|, _ => b.SelAt(k)), buildIdx + bs;
      && PairsFit(b, probeIdx', buildIdx', |build|)
      && PairRows(b, probeIdx', buildIdx', build, |s.buildTypes|) == NestedLoopJoin(s, b.Rows()[..k + 1], build)
  {
    var p := b.SelAt(k);
    hide JoinRow, BuildRow, Batch.Valid, Batch.PhysRow, NestedLoopJoin;
    var same := seq(|bs|, _ => p);
    LiveRow(b, s.probeTypes, k);
    PairRowsConcat(b, probeIdx, same, buildIdx, bs, build, |s.buildTypes|);
    assert PairRows(b, same, bs, build, |s.buildTypes|) == JoinRow(s, b.Rows()[k], build);
    NextRow(s, b.Rows(), k, build);
  }

  lemma LiveRow(b: Batch, types: seq<Type>, k: nat)
    requires BatchFits(b, types) && k < b.rowCount
    ensures forall c | 0 <= c < |b.cols| :: b.cols[c].Valid() && b.SelAt(k) < b.cols[c].len
    ensures b.PhysRow(b.SelAt(k)) == b.Rows()[k]
  {
  }

  lemma NextRow(s: JoinSpec, probe: seq<Row>, k: nat, build: seq<Row>)
    requires s.Valid() && SameWidth(probe, |s.probeTypes|) && SameWidth(build, |s.buildTypes|) && k < |probe|
    ensures NestedLoopJoin(s, probe[..k + 1], build)
         == NestedLoopJoin(s, probe[..k], build) + JoinRow(s, probe[k], build)
  {
    hide JoinRow;
    assert probe[..k + 1][..k] == probe[..k];
  }

  // ----- the operator -----

  ghost predicate InputsOk(s: JoinSpec, probe: seq<Batch>, build: seq<Batch>) {
    && s.Valid() && s.SameKeyTypes()
    && Conforms(probe, s.probeTypes) && Conforms(build, s.buildTypes)
  }

  /** What the operator computes. */
  ghost function Joined(s: JoinSpec, probe: seq<Batch>, build: seq<Batch>): seq<Row>
    requires InputsOk(s, probe, build)
  {
    ConformingWidth(probe, s.probeTypes);
    ConformingWidth(build, s.buildTypes);
    NestedLoopJoin(s, RowsOf(probe), RowsOf(build))
  }

  lemma JoinedIsJoin(s: JoinSpec, probe: seq<Batch>, build: seq<Batch>)
    requires InputsOk(s, probe, build)
    ensures SameWidth(RowsOf(probe), |s.probeTypes|) && SameWidth(RowsOf(build), |s.buildTypes|)
    ensures IsJoin(s, RowsOf(probe), RowsOf(build), Joined(s, probe, build))
  {
    hide IsJoin, NestedLoopJoin;
    ConformingWidth(probe, s.probeTypes);
    ConformingWidth(build, s.buildTypes);
    NestedLoopsJoin(s, RowsOf(probe), RowsOf(build));
  }

  /** The output of the probe batches from `pos` on. */
  ghost function JoinedFrom(s: JoinSpec, probe: seq<Batch>, pos: nat, build: seq<Batch>): seq<Row>
    requires InputsOk(s, probe, build) && pos <= |probe|
  {
    ConformingWidth(probe, s.probeTypes);
    ConformingWidth(build, s.buildTypes);
    TailWidth(probe, pos, |s.probeTypes|);
    NestedLoopJoin(s, RowsFrom(probe, pos), RowsOf(build))
  }

  lemma JoinedFromNext(s: JoinSpec, probe: seq<Batch>, pos: nat, build: seq<Batch>)
    requires InputsOk(s, probe, build) && pos < |probe|
    ensures SameWidth(RowsOf(build), |s.buildTypes|) && BatchFits(probe[pos], s.probeTypes)
    ensures JoinedFrom(s, probe, pos, build)
         == NestedLoopJoin(s, probe[pos].Rows(), RowsOf(build)) + JoinedFrom(s, probe, pos + 1, build)
  {
    hide NestedLoopJoin, RowsOf, Batch.Valid, RowsFrom;
    RowsFromNext(probe, pos);
    ConformingWidth(probe, s.probeTypes);
    ConformingWidth(build, s.buildTypes);
    TailWidth(probe, pos + 1, |s.probeTypes|);
    JoinConcat(s, probe[pos].Rows(), RowsFrom(probe, pos + 1), RowsOf(build));
  }

  lemma TailWidth(batches: seq<Batch>, pos: nat, width: nat)
    requires pos <= |batches| && forall j | 0 <= j < |batches| :: batches[j].Valid()
    requires SameWidth(RowsOf(batches), width)
    ensures SameWidth(RowsFrom(batches, pos), width)
  {
    hide RowsOf;
    RowsOfPrefix(batches, pos);
  }

  lemma JoinedFromEnds(s: JoinSpec, probe: seq<Batch>, build: seq<Batch>)
    requires InputsOk(s, probe, build)
    ensures JoinedFrom(s, probe, 0, build) == Joined(s, probe, build)
    ensures JoinedFrom(s, probe, |probe|, build) == []
  {
    hide RowsOf, Batch.Valid, RowsFrom;
    RowsFromEnds(probe);
  }

  class HashJoin {
    const s: JoinSpec
    const probe: seq<Batch>     // the children's batches
    const build: seq<Batch>
    const combine: Combine
    const seed: u64
    var isOpen: bool
    var ht: HashTable?
    var groupRows: seq<seq<nat>>
    var cols: seq<StoreColumn>
    var n: nat
    var dicts: seq<D.Dict>
    var probePos: nat
    var probeDone: bool
    var pairs: Pairs

    ghost predicate Valid()
      reads this, ht
    {
      && InputsOk(s, probe, build)
      && RoomFor(s.buildTypes, s.buildKeys, NoStrings(|s.buildKeys|), |RowsOf(build)| + |RowsOf(probe)|)
      && (isOpen ==> BuildOk() && ProbeOk())
    }

    ghost predicate BuildOk()
      requires InputsOk(s, probe, build)
      reads this, ht
    {
      && ht != null && Built(s, ht, groupRows, dicts, RowsOf(build))
      && Stored(cols, n, s.buildTypes) && StoredRows(cols, n) == RowsOf(build)
    }

    ghost predicate ProbeOk()
      requires InputsOk(s, probe, build)
      reads this
    {
      && probePos <= |probe| && (probeDone ==> probePos == |probe|)
      && RoomFor(s.buildTypes, s.buildKeys, dicts, |RowsFrom(probe, probePos)|)
      && pairs.Valid(s.probeTypes, |RowsOf(build)|)
    }

    /** All the output still to come. */
    ghost function Remaining(): seq<Row>
      requires Valid() && isOpen
      reads this, ht
    {
      pairs.Rest(s.probeTypes, RowsOf(build), |s.buildTypes|) + JoinedFrom(s, probe, probePos, build)
    }

    constructor (s: JoinSpec, probe: seq<Batch>, build: seq<Batch>, combine: Combine, seed: u64)
      requires InputsOk(s, probe, build)
      requires RoomFor(s.buildTypes, s.buildKeys, NoStrings(|s.buildKeys|), |RowsOf(build)| + |RowsOf(probe)|)
      ensures Valid() && !isOpen && this.s == s && this.probe == probe && this.build == build
    {
      this.s, this.probe, this.build, this.combine, this.seed := s, probe, build, combine, seed;
      isOpen, ht, groupRows, cols, n, dicts := false, null, [], [], 0, [];
      probePos, probeDone, pairs := 0, false, NO_PAIRS;
    }

    /** Build; fails only when the group ids run out. */
    method Open() returns (ok: bool)
      requires Valid() && !isOpen
      modifies this
      ensures Valid() && isOpen == ok && (ok ==> fresh(ht))
      ensures ok ==> Remaining() == Joined(s, probe, build)
      ensures !ok ==> |RowsOf(build)| > NO_GROUP
    {
      hide Built, JoinedFrom, Joined, RowsOf, RowsFrom, RoomFor, Stored, StoredRows;
      var table;
      JoinedFromEnds(s, probe, build);
      RowsFromEnds(probe);
      table, groupRows, cols, n, dicts, ok := BuildSide(s, build, combine, seed, |RowsOf(probe)|);
      ht, probePos, probeDone, pairs := table, 0, false, NO_PAIRS;
      isOpen := ok;
    }

    /** Pull one probe batch and pair it; false, and done, when there is none left. */
    method BuildPairsForProbe() returns (more: bool)
      requires Valid() && isOpen && !probeDone && pairs.cursor >= |pairs.probeIdx|
      modifies this
      ensures Valid() && isOpen && ht == old(ht) && probeDone == !more
      ensures Remaining() == old(Remaining())
      ensures more <==> old(probePos) < |probe|
      ensures probePos == if more then old(probePos) + 1 else old(probePos)
    {
      hide Built, NestedLoopJoin, JoinedFrom, RowsOf, RowsFrom, RoomFor, Stored, StoredRows;
      if probePos == |probe| {
        pairs, probeDone := NO_PAIRS, true;
        return false;
      }
      var b := probe[probePos];
      RowsFromNext(probe, probePos);
      JoinedFromNext(s, probe, probePos, build);
      ghost var room := |RowsFrom(probe, probePos + 1)|;
      var probeIdx, buildIdx;
      probeIdx, buildIdx, dicts := PairsForProbe(s, ht, groupRows, dicts, b, RowsOf(build), room);
      pairs, probePos := Pairs(b, probeIdx, buildIdx, 0), probePos + 1;
      more := true;
    }

    /** With no pair pending and no probe batch left, the output is complete. */
    lemma Drained()
      requires Valid() && isOpen && probeDone && pairs.cursor >= |pairs.probeIdx|
      ensures Remaining() == []
    {
      JoinedFromEnds(s, probe, build);
    }

    lemma MorePending()
      requires Valid() && isOpen && pairs.cursor < |pairs.probeIdx|
      ensures Remaining() != []
    {
    }

    /** Go on to a probe batch with a pair to emit, past those without any. */
    method FindPairs() returns (more: bool)
      requires Valid() && isOpen
      modifies this
      ensures Valid() && isOpen && ht == old(ht) && Remaining() == old(Remaining())
      ensures if more then pairs.cursor < |pairs.probeIdx| else Remaining() == []
    {
      hide HashJoin.Valid, HashJoin.Remaining;
      while pairs.cursor >= |pairs.probeIdx|
        invariant Valid() && isOpen && ht == old(ht) && Remaining() == old(Remaining())
        decreases |probe| - probePos, !probeDone
      {
        if probeDone {
          Drained();
          return false;
        }
        more := BuildPairsForProbe();
      }
      more := true;
    }

    /** The next rows of the join, at most `OUT_BATCH` of them; a probe row's matches may be split. */
    method Next() returns (r: Option<Batch>)
      requires Valid() && isOpen
      modifies this
      ensures Valid() && isOpen && ht == old(ht)
      ensures r.None? <==> old(Remaining()) == []
      ensures r.Some? ==>
        && BatchFits(r.value, s.probeTypes + s.buildTypes) && 1 <= r.value.rowCount <= OUT_BATCH
        && old(Remaining()) == r.value.Rows() + Remaining()
    {
      hide Built, JoinedFrom, RowsOf, RowsFrom, RoomFor, Stored, StoredRows;
      var more := FindPairs();
      if !more { return None; }
      MorePending();
      var out;
      out, pairs := EmitChunk(pairs, cols, n, s.probeTypes, s.buildTypes);
      r := Some(out);
    }
  }

  datatype JoinResult = Batches(batches: seq<Batch>) | KeyTypesDiffer | OutOfGroups

  /** Drain an open join. */
  method DrainJoin(join: HashJoin) returns (out: seq<Batch>)
    requires join.Valid() && join.isOpen
    modifies join
    ensures Conforms(out, join.s.probeTypes + join.s.buildTypes)
    ensures forall i | 0 <= i < |out| :: 1 <= out[i].rowCount <= OUT_BATCH
    ensures RowsOf(out) == old(join.Remaining())
  {
    hide HashJoin.Valid, HashJoin.Remaining, Batch.Valid, Batch.Rows;
    out := [];
    ghost var types := join.s.probeTypes + join.s.buildTypes;
    assert RowsOf(out) + join.Remaining() == join.Remaining();
    while true
      invariant join.Valid() && join.isOpen && join.ht == old(join.ht)
      invariant Conforms(out, types) && forall i | 0 <= i < |out| :: 1 <= out[i].rowCount <= OUT_BATCH
      invariant RowsOf(out) + join.Remaining() == old(join.Remaining())
      decreases |join.Remaining()|
    {
      ghost var rest := join.Remaining();
      var b := join.Next();
      if b.None? {
        assert rest == [] && RowsOf(out) + rest == RowsOf(out);
        return;
      }
      PushBatch(out, types, b.value, rest, join.Remaining());
      out := out + [b.value];
    }
  }

  /**
   Run a whole join. Concatenated, its batches are the nested-loop join of the inputs,
   with nothing lost or repeated where they were cut.
   */
  method JoinAll(s: JoinSpec, probe: seq<Batch>, build: seq<Batch>, combine: Combine, seed: u64)
    returns (r: JoinResult)
    requires s.Valid() && Conforms(probe, s.probeTypes) && Conforms(build, s.buildTypes)
    requires CodesFit(s, RowsOf(probe), RowsOf(build))
    ensures r.KeyTypesDiffer? <==> exists j :: 0 <= j < |s.probeKeys| && s.probeTypes[s.probeKeys[j]] != s.buildTypes[s.buildKeys[j]]
    ensures r.OutOfGroups? ==> |RowsOf(build)| > NO_GROUP
    ensures r.Batches? ==>
      && Conforms(r.batches, s.probeTypes + s.buildTypes)
      && (forall i | 0 <= i < |r.batches| :: 1 <= r.batches[i].rowCount <= OUT_BATCH)
      && RowsOf(r.batches) == Joined(s, probe, build)
      && IsJoin(s, RowsOf(probe), RowsOf(build), RowsOf(r.batches))
  {
    ConformingWidth(probe, s.probeTypes);
    ConformingWidth(build, s.buildTypes);
    if !s.SameKeyTypes() { return KeyTypesDiffer; }
    hide Joined, IsJoin, HashJoin.Remaining, HashJoin.Valid;
    var join := new HashJoin(s, probe, build, combine, seed);
    var ok := join.Open();
    if !ok { return OutOfGroups; }
    var out := DrainJoin(join);
    JoinedIsJoin(s, probe, build);
    r := Batches(out);
  }
}
