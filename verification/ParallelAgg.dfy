/**
 The parallel driver over an aggregate: each worker runs a private aggregate over each
 morsel it takes and folds the partial rows into its own map; after the workers have
 joined, the maps are merged and finalized.

 Under every schedule each key has one row, and every aggregate is that of all the rows of
 its group, except that an extremum of doubles is right exactly when the merge was safe.
 */
module ParallelAggregates {
  import opened Words
  import opened Columns
  import opened GroupIds
  import opened HashTables
  import opened KeyRows
  import opened KeyCodes
  import opened AggMeaning
  import opened AggMerge
  import opened GroupBy
  import opened GroupMerge
  import opened Aggregates
  import opened GlobalAggregates
  import opened AggregateOps
  import opened PartialAggs
  import opened PartialMaps
  import opened PartialMerges
  import opened Eval
  import opened Exprs
  import opened Streams
  import opened Plans
  import opened Morsels
  import opened Schedules
  import opened ParallelStreams
  import SortOrders

  /** The group key of an output row. */
  function KeyPrefix(q: AggQuery, row: Row): Row { if |q.keys| <= |row| then row[..|q.keys|] else row }

  function KeyColumn(q: AggQuery, out: seq<Row>): (ks: seq<Row>)
    ensures |ks| == |out|
  {
    seq(|out|, i requires 0 <= i < |out| => KeyPrefix(q, out[i]))
  }

  /** The values of a group that each worker saw. */
  function GroupParts(spec: AggSpec, parts: seq<seq<Row>>, keys: seq<nat>, key: Row, width: nat): (g: seq<seq<Cell>>)
    requires PartsWide(parts, width) && Reads(spec, keys, width)
    ensures |g| == |parts|
  {
    seq(|parts|, w requires 0 <= w < |parts| => GroupValues(spec, parts[w], keys, key, width))
  }

  ghost predicate PartsWide(parts: seq<seq<Row>>, width: nat) {
    forall w | 0 <= w < |parts| :: SameWidth(parts[w], width)
  }

  /** Aggregate `a` of an output row is that of all its group's rows, exactly if its merge was safe. */
  ghost predicate CellRight(ops: FloatOps, q: AggQuery, row: Row, rows: seq<Row>, parts: seq<seq<Row>>, a: nat)
    requires q.Valid() && SameWidth(rows, |q.types|) && PartsWide(parts, |q.types|) && a < |q.aggs| && |row| == |q.keys| + |q.aggs|
  {
    var spec, t, key := q.aggs[a], InputType(q.types, q.aggs[a]), KeyPrefix(q, row);
    AggIs(false, ops, spec.func, t, row[|q.keys| + a], GroupValues(spec, rows, q.keys, key, |q.types|))
    <==> (FloatExtreme(spec.func, t) ==> MergeSafe(spec.func, GroupParts(spec, parts, q.keys, key, |q.types|)))
  }

  /** An output row is of the output types, as long as its counters are. */
  ghost predicate RowTyped(q: AggQuery, row: Row, rows: seq<Row>)
    requires q.Valid() && SameWidth(rows, |q.types|)
  {
    && |row| == |q.keys| + |q.aggs|
    && (forall j | 0 <= j < |q.keys| :: Holds(q.types[q.keys[j]], row[j]))
    && forall a | 0 <= a < |q.aggs| :: CellTyped(q, row, rows, a)
  }

  ghost predicate CellTyped(q: AggQuery, row: Row, rows: seq<Row>, a: nat)
    requires q.Valid() && SameWidth(rows, |q.types|) && a < |q.aggs| && |row| == |q.keys| + |q.aggs|
  {
    var t := ResultType(q.aggs[a].func, InputType(q.types, q.aggs[a]));
    |rows| < TWO_63 ==> t.Some? && Holds(t.value, row[|q.keys| + a])
  }

  ghost predicate RowRight(ops: FloatOps, q: AggQuery, row: Row, rows: seq<Row>, parts: seq<seq<Row>>)
    requires q.Valid() && SameWidth(rows, |q.types|) && PartsWide(parts, |q.types|)
  {
    && RowTyped(q, row, rows)
    && forall a | 0 <= a < |q.aggs| :: CellRight(ops, q, row, rows, parts, a)
  }

  /** What the parallel aggregate of `rows` is, `parts` of which the workers saw. */
  ghost predicate ParallelIs(ops: FloatOps, q: AggQuery, out: seq<Row>, rows: seq<Row>, parts: seq<seq<Row>>)
    requires q.Valid() && SameWidth(rows, |q.types|) && PartsWide(parts, |q.types|)
  {
    && multiset(Concat(parts)) == multiset(rows)
    && multiset(KeyColumn(q, out)) == multiset(KeysOf(rows, q.keys))
    && forall i | 0 <= i < |out| :: RowRight(ops, q, out[i], rows, parts)
  }

  // ----- one morsel -----

  lemma {:induction false} NoStrKeys(types: seq<Type>, keys: seq<nat>)
    requires forall j | 0 <= j < |keys| :: keys[j] < |types| && !types[keys[j]].STR?
    ensures StrKeys(types, keys) == 0
  {
    if keys != [] { NoStrKeys(types, keys[..|keys| - 1]); }
  }

  lemma {:induction false} NoStrAggs(types: seq<Type>, specs: seq<AggSpec>)
    requires forall j | 0 <= j < |specs| :: (specs[j].func.CountStar? || specs[j].col < |types|) && Mergeable(types, specs[j])
    ensures StrAggs(types, specs) == 0
  {
    if specs != [] { NoStrAggs(types, specs[..|specs| - 1]); }
  }

  /** The partial query interns no string, so it always has room. */
  lemma PartialInput(x: Exchange, input: seq<Batch>)
    requires x.Valid() && Conforms(input, x.types) && |RowsOf(input)| < TWO_63
    ensures InputOk(x.Query(), input) && x.Query().TypesOk()
  {
    forall j | 0 <= j < |x.specs|
      ensures (x.specs[j].func.CountStar? || x.specs[j].col < |x.types|) && Mergeable(x.types, x.specs[j])
    {
      assert PartialOk(x.types, x.specs[j], x.kinds[j]);
    }
    NoStrKeys(x.types, x.keys);
    NoStrAggs(x.types, x.specs);
    assert Interns(x.Query()) == 0 && Product(0, |RowsOf(input)|) == 0;
  }

  lemma RowWeakens(ops: FloatOps, q: AggQuery, out: Row, key: Row, members: seq<Row>)
    requires q.Valid() && SameWidth(members, |q.types|) && GroupRowIs(true, ops, q, out, key, members)
    ensures GroupRowIs(false, ops, q, out, key, members)
  {
    hide InputsOf, Extreme, NonNull, SumInts, SumFloats, Exact;
    forall a | 0 <= a < |q.aggs|
      ensures AggIs(false, ops, q.aggs[a].func, InputType(q.types, q.aggs[a]), out[|q.keys| + a], InputsOf(q.aggs[a], members))
    {
      AggWeakens(ops, q.aggs[a].func, InputType(q.types, q.aggs[a]), out[|q.keys| + a], InputsOf(q.aggs[a], members));
    }
  }

  lemma AggWeakens(ops: FloatOps, func: AggFunc, t: Type, c: Cell, vals: seq<Cell>)
    requires AggIs(true, ops, func, t, c, vals)
    ensures AggIs(false, ops, func, t, c, vals)
  {
    hide Extreme, NonNull, SumInts, SumFloats, Exact;
    if func.Avg? && t.F64? && NonNull(vals) > 0 {
      var s: u64 :| FloatSumIs(true, ops, s, vals) && c == Flt(ops.div(s, ops.fromInt(NonNull(vals))));
      assert FloatSumIs(false, ops, s, vals);
    }
  }

  /** What the aggregate operator gives for a morsel are its partial rows. */
  lemma ArePartialRows(x: Exchange, prs: seq<Row>, rows: seq<Row>)
    requires InputFits(x, rows) && AggregateIs(x.ops, x.Query(), prs, rows)
    ensures PartialRows(x, prs, rows)
  {
    hide GroupRowIs, Members, GroupKeys, RowsFit, PartialOk;
    if x.keys == [] {
      NoKeysOneGroup(rows);
    } else {
      forall g | 0 <= g < |prs| ensures PartialRow(x, prs[g], rows, KeysOf(rows, x.keys)[g]) {
        var k := GroupKeys(rows, x.keys)[g];
        RowWeakens(x.ops, x.Query(), prs[g], k, Members(rows, x.keys, k));
      }
    }
  }

  lemma InputIsFit(x: Exchange, input: seq<Batch>)
    requires x.Valid() && Conforms(input, x.types)
    ensures InputFits(x, RowsOf(input))
  {
    hide Exchange.Valid, Holds, Batch.Valid;
    RowsHold(input, x.types);
  }

  /** A worker's map holds exactly the rows of the morsels it has done. */
  ghost predicate WorkerOk(x: Exchange, m: map<seq<byte>, Group>, began: bool, part: seq<Row>) {
    && InputFits(x, part) && (!began ==> part == [])
    && MapOk(x, Within, m, [WorkerShare(began, part, x.keys)])
  }

  lemma WorkerStarts(x: Exchange)
    requires x.Valid()
    ensures WorkerOk(x, map[], false, [])
  {
    hide CanonKey, KeyBytes, GroupOk, PartialOk;
    FitsNone(x.types);
    var none: Share := map[];
    assert [none][0] == map[] && WorkerShare(false, [], x.keys) == none;
  }

  lemma WorkerGoesOn(x: Exchange, m: map<seq<byte>, Group>, began: bool, part: seq<Row>, rows: seq<Row>)
    requires InputFits(x, part) && InputFits(x, rows) && (!began ==> part == [])
    requires MapOk(x, Within, m, [WorkerShare(began, part, x.keys), ShareOf(rows, x.keys)])
    ensures WorkerOk(x, m, true, part + rows)
  {
    var a, b := WorkerShare(began, part, x.keys), ShareOf(rows, x.keys);
    FitsJoin(x.types, part, rows);
    var c := ShareOf(part + rows, x.keys);
    ShareFits(x, part + rows);
    hide MapOk, Exchange.Valid, RowsFit, ShareOf, WorkerShare, SharesFit, RowsIn;
    forall k ensures (k in c <==> k in a || k in b) && RowsIn(c, k) == RowsIn(a, k) + RowsIn(b, k) {
      SharesJoin(began, part, rows, x.keys, k);
    }
    JoinShares(x, m, a, b, c);
    HeldOnce(part + rows, x.keys);
  }

  lemma HeldOnce(rows: seq<Row>, keys: seq<nat>)
    requires WideRows(rows, keys)
    ensures WorkerShare(true, rows, keys) == ShareOf(rows, keys)
  {
  }

  lemma ShareFits(x: Exchange, rows: seq<Row>)
    requires InputFits(x, rows)
    ensures SharesFit(x.types, [ShareOf(rows, x.keys)])
  {
    hide RowsFit, CanonKey, KeysOf, Members;
    GroupsFit(x, rows);
  }

  /** Fold what the aggregate gave for a morsel into the worker's map. */
  method Absorb(x: Exchange, m: map<seq<byte>, Group>, prs: seq<Row>, ghost began: bool, ghost part: seq<Row>, ghost rows: seq<Row>)
    returns (m': map<seq<byte>, Group>)
    requires WorkerOk(x, m, began, part) && InputFits(x, rows) && AggregateIs(x.ops, x.Query(), prs, rows)
    ensures WorkerOk(x, m', true, part + rows)
  {
    hide MapOk, AggregateIs, PartialRows, RowsFit, ShareOf, WorkerShare;
    ArePartialRows(x, prs, rows);
    ghost var h, s := WorkerShare(began, part, x.keys), ShareOf(rows, x.keys);
    m' := AbsorbPiece(x, m, prs, [h], rows);
    assert [h] + [s] == [h, s];
    WorkerGoesOn(x, m', began, part, rows);
  }

  /** Run the partial aggregate over a morsel and fold it in. */
  method RunPartial(x: Exchange, m: map<seq<byte>, Group>, env: Env, p: Plan, morsel: Morsel, be: Backend, combine: Combine, seed: u64,
                    path: KernelPath, ghost began: bool, ghost part: seq<Row>)
    returns (m': Option<map<seq<byte>, Group>>)
    requires StreamOk(env, p) && AllRoom(env, p) && be.Valid() && FloatsOk(env.fl) && (path.Vector? ==> path.lanes >= 1)
    requires morsel.start <= morsel.end <= Driver(env, p).nrows && morsel.start % 64 == 0
    requires x.types == OutputTypes(p) && WorkerOk(x, m, began, part) && |Piece(env, p, morsel)| < TWO_63
    ensures m'.None? ==> TooManyGroups(env, p) || |Piece(env, p, morsel)| > NO_GROUP
    ensures m'.Some? ==> WorkerOk(x, m'.value, true, part + Piece(env, p, morsel))
  {
    CutWidth(Driver(env, p), morsel);
    assert RoomFor(env, p, morsel);
    hide StreamOk, SemOn, Table.Rows, AllRoom, Batch.Valid, WorkerOk, InputOk, AggregateIs, RowsOf, InputFits;
    var r := RunMorsel(env, p, morsel, be, combine, seed);
    if r.None? { return None; }
    WorkerFits(x, m, began, part);
    InputIsFit(x, r.value);
    PartialInput(x, r.value);
    var agg := AggregateAll(x.ops, x.Query(), r.value, combine, seed, path);
    if !agg.Batches? { return None; }
    var next := Absorb(x, m, RowsOf(agg.batches), began, part, RowsOf(r.value));
    m' := Some(next);
  }

  lemma WorkerFits(x: Exchange, m: map<seq<byte>, Group>, began: bool, part: seq<Row>)
    requires WorkerOk(x, m, began, part)
    ensures x.Valid() && InputFits(x, part)
  {
  }

  // ----- the whole run -----

  /** Every worker's map is that of the rows of the morsels it has finished. */
  ghost predicate WorkersOk(x: Exchange, maps: seq<map<seq<byte>, Group>>, workers: seq<Worker>, parts: seq<seq<Row>>) {
    && |maps| == |workers| == |parts|
    && forall w | 0 <= w < |maps| :: WorkerOk(x, maps[w], workers[w].finished != [], parts[w])
  }

  lemma WorkersStart(x: Exchange, threads: nat)
    requires x.Valid()
    ensures WorkersOk(x, seq(threads, _ => map[]), Init(threads).workers, seq(threads, _ => []))
  {
    hide WorkerOk, Exchange.Valid;
    WorkerStarts(x);
  }

  lemma FetchLeaves(x: Exchange, maps: seq<map<seq<byte>, Group>>, s: Pool, n: nat, step: Step, parts: seq<seq<Row>>)
    requires step.Fetch? && Enabled(s, step) && WorkersOk(x, maps, s.workers, parts)
    ensures WorkersOk(x, maps, After(s, n, step).workers, parts)
  {
    hide WorkerOk;
  }

  lemma FinishAdds(x: Exchange, maps: seq<map<seq<byte>, Group>>, s: Pool, n: nat, step: Step, parts: seq<seq<Row>>,
                   m: map<seq<byte>, Group>, rows: seq<Row>)
    requires step.Finish? && Enabled(s, step) && WorkersOk(x, maps, s.workers, parts)
    requires WorkerOk(x, m, true, parts[step.w] + rows)
    ensures WorkersOk(x, maps[step.w := m], After(s, n, step).workers, parts[step.w := parts[step.w] + rows])
  {
    hide WorkerOk;
  }

  /** The shares of the workers. */
  ghost function SharesOf(x: Exchange, workers: seq<Worker>, parts: seq<seq<Row>>): (hs: seq<Share>)
    requires |workers| == |parts| && forall w | 0 <= w < |parts| :: WideRows(parts[w], x.keys)
    ensures |hs| == |parts|
  {
    seq(|parts|, w requires 0 <= w < |parts| && WideRows(parts[w], x.keys) =>
      WorkerShare(workers[w].finished != [], parts[w], x.keys))
  }

  lemma PartsWidth(x: Exchange, maps: seq<map<seq<byte>, Group>>, workers: seq<Worker>, parts: seq<seq<Row>>)
    requires WorkersOk(x, maps, workers, parts)
    ensures forall w | 0 <= w < |parts| :: WideRows(parts[w], x.keys) && SameWidth(parts[w], |x.types|) && InputFits(x, parts[w])
  {
    hide MapOk, RowsFit;
    forall w | 0 <= w < |parts| ensures WideRows(parts[w], x.keys) && SameWidth(parts[w], |x.types|) && InputFits(x, parts[w]) {
      assert WorkerOk(x, maps[w], workers[w].finished != [], parts[w]);
    }
  }

  /** Merge the workers' maps, in the order of the workers. */
  method MergeWorkers(x: Exchange, maps: seq<map<seq<byte>, Group>>, ghost workers: seq<Worker>, ghost parts: seq<seq<Row>>)
    returns (merged: map<seq<byte>, Group>)
    requires x.Valid() && WorkersOk(x, maps, workers, parts)
    ensures forall w | 0 <= w < |parts| :: WideRows(parts[w], x.keys)
    ensures MapOk(x, Across, merged, SharesOf(x, workers, parts))
  {
    PartsWidth(x, maps, workers, parts);
    ghost var hs := SharesOf(x, workers, parts);
    hide Exchange.Valid, WorkerOk, SharesOf, InputFits, WideRows, MapOk;
    NothingMerged(x);
    merged := map[];
    for w := 0 to |maps|
      invariant MapOk(x, Across, merged, hs[..w])
    {
      WorkerMap(x, maps, workers, parts, w);
      merged := MergeWorker(x, merged, maps[w], hs[..w], hs[w]);
      assert hs[..w] + [hs[w]] == hs[..w + 1];
    }
    assert hs[..|maps|] == hs;
  }

  lemma NothingMerged(x: Exchange)
    requires x.Valid()
    ensures MapOk(x, Across, map[], [])
  {
    hide PartialOk;
  }

  lemma WorkerMap(x: Exchange, maps: seq<map<seq<byte>, Group>>, workers: seq<Worker>, parts: seq<seq<Row>>, w: nat)
    requires WorkersOk(x, maps, workers, parts) && w < |maps| && forall i | 0 <= i < |parts| :: WideRows(parts[i], x.keys)
    ensures MapOk(x, Within, maps[w], [SharesOf(x, workers, parts)[w]])
  {
    hide MapOk;
    assert WorkerOk(x, maps[w], workers[w].finished != [], parts[w]);
  }

  // ----- the result, in terms of the rows -----

  lemma PartRows(began: bool, part: seq<Row>, keys: seq<nat>, k: Row)
    requires WideRows(part, keys) && (!began ==> part == []) && (keys == [] ==> k == [])
    ensures RowsIn(WorkerShare(began, part, keys), k) == Members(part, keys, k)
  {
    hide ShareOf;
    ShareHas(part, keys, k);
  }

  lemma PartsAreGroups(x: Exchange, maps: seq<map<seq<byte>, Group>>, workers: seq<Worker>, parts: seq<seq<Row>>, spec: AggSpec, k: Row)
    requires x.Valid() && WorkersOk(x, maps, workers, parts) && (x.keys == [] ==> k == [])
    requires Reads(spec, x.keys, |x.types|)
    ensures AllWide(parts, x.keys) && PartsWide(parts, |x.types|)
    ensures SharesFit(x.types, SharesOf(x, workers, parts)) ==>
      PartsOf(x.types, SharesOf(x, workers, parts), spec, k) == GroupParts(spec, parts, x.keys, k, |x.types|)
  {
    PartsWidth(x, maps, workers, parts);
    var hs := SharesOf(x, workers, parts);
    hide WorkerShare, MapOk, SharesFit, Members, RowsFit, InputsOf, PartialOk, RowsIn;
    if SharesFit(x.types, hs) {
      RowsInFit(x.types, hs);
      forall w | 0 <= w < |parts|
        ensures PartsOf(x.types, hs, spec, k)[w] == GroupParts(spec, parts, x.keys, k, |x.types|)[w]
      {
        assert WorkerOk(x, maps[w], workers[w].finished != [], parts[w]);
        FitWidth(x.types, RowsIn(hs[w], k));
        PartRows(workers[w].finished != [], parts[w], x.keys, k);
      }
    }
  }

  /** A group's values, worker by worker, are those of all the rows. */
  lemma {:induction false} WholeGroup(spec: AggSpec, parts: seq<seq<Row>>, keys: seq<nat>, k: Row, width: nat)
    requires PartsWide(parts, width) && Reads(spec, keys, width)
    ensures SameWidth(Concat(parts), width)
    ensures Whole(GroupParts(spec, parts, keys, k, width)) == GroupValues(spec, Concat(parts), keys, k, width)
  {
    if parts == [] {
      NoValues(spec, keys, k, width);
    } else {
      hide GroupValues, SameWidth, Reads;
      var n := |parts| - 1;
      WholeGroup(spec, parts[..n], keys, k, width);
      GroupValuesConcat(spec, Concat(parts[..n]), parts[n], keys, k, width);
      assert GroupParts(spec, parts, keys, k, width)[..n] == GroupParts(spec, parts[..n], keys, k, width);
    }
  }

  lemma NoValues(spec: AggSpec, keys: seq<nat>, k: Row, width: nat)
    requires Reads(spec, keys, width)
    ensures GroupValues(spec, [], keys, k, width) == []
  {
  }

  ghost predicate AllWide(parts: seq<seq<Row>>, keys: seq<nat>) {
    forall w | 0 <= w < |parts| :: WideRows(parts[w], keys)
  }

  ghost predicate SomePartHas(parts: seq<seq<Row>>, keys: seq<nat>, k: Row) {
    exists w :: 0 <= w < |parts| && HasGroup(parts[w], keys, k)
  }

  lemma {:induction false} ConcatKeys(parts: seq<seq<Row>>, keys: seq<nat>, k: Row)
    requires AllWide(parts, keys)
    ensures WideRows(Concat(parts), keys)
    ensures HasGroup(Concat(parts), keys, k) <==> SomePartHas(parts, keys, k)
  {
    if parts != [] {
      hide HasGroup, WideRows;
      var n := |parts| - 1;
      ConcatKeys(parts[..n], keys, k);
      HasGroupConcat(Concat(parts[..n]), parts[n], keys, k);
      if SomePartHas(parts[..n], keys, k) {
        var w :| 0 <= w < n && HasGroup(parts[..n][w], keys, k);
        assert HasGroup(parts[w], keys, k);
      }
    }
  }

  /** The groups of the shares are the groups of the rows. */
  lemma SeenIffGroup(x: Exchange, maps: seq<map<seq<byte>, Group>>, workers: seq<Worker>, parts: seq<seq<Row>>, k: Row)
    requires x.Valid() && WorkersOk(x, maps, workers, parts)
    requires exists w :: 0 <= w < |workers| && workers[w].finished != []
    ensures AllWide(parts, x.keys) && WideRows(Concat(parts), x.keys)
    ensures Seen(SharesOf(x, workers, parts), k) <==> k in KeysOf(Concat(parts), x.keys)
  {
    PartsWidth(x, maps, workers, parts);
    ConcatKeys(parts, x.keys, k);
    hide MapOk, RowsFit, PartialOk, GroupKeys, ShareOf, InputFits, SomePartHas, WideRows, Concat;
    forall w | 0 <= w < |parts|
      ensures k in SharesOf(x, workers, parts)[w]
        <==> if x.keys == [] then workers[w].finished != [] && k == [] else HasGroup(parts[w], x.keys, k)
    {
      ShareHas(parts[w], x.keys, k);
      NoRowsNoGroups(x.keys);
      assert WorkerOk(x, maps[w], workers[w].finished != [], parts[w]);
    }
    SeenSome(x, SharesOf(x, workers, parts), workers, parts, k);
  }

  lemma SeenSome(x: Exchange, hs: seq<Share>, workers: seq<Worker>, parts: seq<seq<Row>>, k: Row)
    requires |hs| == |workers| == |parts|
    requires forall w | 0 <= w < |hs| ::
      k in hs[w] <==> if x.keys == [] then workers[w].finished != [] && k == [] else HasGroup(parts[w], x.keys, k)
    requires exists w :: 0 <= w < |workers| && workers[w].finished != []
    ensures Seen(hs, k) <==> if x.keys == [] then k == [] else SomePartHas(parts, x.keys, k)
  {
    hide HasGroup;
    if x.keys == [] {
      var w :| 0 <= w < |workers| && workers[w].finished != [];
      assert k in hs[w] <==> k == [];
    } else if SomePartHas(parts, x.keys, k) {
      var w :| 0 <= w < |parts| && HasGroup(parts[w], x.keys, k);
      assert k in hs[w];
    }
  }

  lemma NoRowsNoGroups(keys: seq<nat>)
    ensures GroupKeys([], keys) == []
  {
  }

  /** Each row read off is right about the rows of its group, in whatever order they came. */
  lemma RowIsRight(x: Exchange, q: AggQuery, row: Row, hs: seq<Share>, maps: seq<map<seq<byte>, Group>>, workers: seq<Worker>,
                   parts: seq<seq<Row>>, rows: seq<Row>)
    requires q.Valid() && x.Valid() && x.types == q.types && x.keys == q.keys && WorkersOk(x, maps, workers, parts)
    requires AllWide(parts, x.keys) && hs == SharesOf(x, workers, parts) && SharesFit(x.types, hs) && RowRead(x, q.aggs, row, hs)
    requires x.keys == [] ==> KeyPart(x, row) == []
    requires SameWidth(rows, |q.types|) && multiset(Concat(parts)) == multiset(rows)
    ensures PartsWide(parts, |q.types|) && RowRight(x.ops, q, row, rows, parts)
  {
    PartsWidth(x, maps, workers, parts);
    PartsAllWide(x, parts);
    RowSpans(x, q, row, hs);
    hide KeyPart, RowRead, Holds, AggQuery.Valid, Exchange.Valid, SharesOf, SharesFit, Seen, InputFits, WorkersOk, AggRead, CellRight, CellTyped, AllWide, PartsWide, SameWidth;
    forall a | 0 <= a < |q.aggs| ensures CellRight(x.ops, q, row, rows, parts, a) && CellTyped(q, row, rows, a) {
      CellOfRow(x, q, row, hs, maps, workers, parts, rows, a);
    }
  }

  lemma CellOfRow(x: Exchange, q: AggQuery, row: Row, hs: seq<Share>, maps: seq<map<seq<byte>, Group>>, workers: seq<Worker>,
                  parts: seq<seq<Row>>, rows: seq<Row>, a: nat)
    requires q.Valid() && x.Valid() && x.types == q.types && x.keys == q.keys && WorkersOk(x, maps, workers, parts)
    requires AllWide(parts, x.keys) && hs == SharesOf(x, workers, parts) && SharesFit(x.types, hs) && RowRead(x, q.aggs, row, hs)
    requires |row| == |q.keys| + |q.aggs| && a < |q.aggs| && (x.keys == [] ==> KeyPart(x, row) == [])
    requires SameWidth(rows, |q.types|) && multiset(Concat(parts)) == multiset(rows)
    ensures PartsWide(parts, |q.types|) && CellRight(x.ops, q, row, rows, parts, a) && CellTyped(q, row, rows, a)
  {
    hide KeyPart, RowRead, Holds, AggQuery.Valid, Exchange.Valid, SharesOf, SharesFit, WorkersOk, AggRead, CellRight, CellTyped, AllWide,
      PartsWide, SameWidth, Concat;
    AggReadAt(x, q, row, hs, a);
    CellIsRight(x, q, row, hs, maps, workers, parts, rows, a);
  }

  lemma RowSpans(x: Exchange, q: AggQuery, row: Row, hs: seq<Share>)
    requires q.Valid() && x.types == q.types && x.keys == q.keys && SharesFit(x.types, hs) && RowRead(x, q.aggs, row, hs)
    ensures |row| == |q.keys| + |q.aggs| && forall j | 0 <= j < |q.keys| :: Holds(q.types[q.keys[j]], row[j])
  {
    hide Seen, SharesFit, AggRead, Holds;
  }

  lemma AggReadAt(x: Exchange, q: AggQuery, row: Row, hs: seq<Share>, a: nat)
    requires q.Valid() && x.types == q.types && x.keys == q.keys && SharesFit(x.types, hs) && RowRead(x, q.aggs, row, hs)
    requires a < |q.aggs| && |row| == |q.keys| + |q.aggs|
    ensures AggRead(x, q.aggs[a], row[|q.keys| + a], hs, KeyPart(x, row))
  {
    hide Seen, SharesFit, AggRead, Holds;
  }

  lemma QueryReads(q: AggQuery, a: nat)
    requires q.Valid() && a < |q.aggs|
    ensures Reads(q.aggs[a], q.keys, |q.types|)
  {
  }

  lemma PartsAllWide(x: Exchange, parts: seq<seq<Row>>)
    requires forall w | 0 <= w < |parts| :: SameWidth(parts[w], |x.types|)
    ensures PartsWide(parts, |x.types|)
  {
  }

  lemma CellIsRight(x: Exchange, q: AggQuery, row: Row, hs: seq<Share>, maps: seq<map<seq<byte>, Group>>, workers: seq<Worker>,
                    parts: seq<seq<Row>>, rows: seq<Row>, a: nat)
    requires q.Valid() && x.Valid() && x.types == q.types && x.keys == q.keys && WorkersOk(x, maps, workers, parts)
    requires AllWide(parts, x.keys) && hs == SharesOf(x, workers, parts) && SharesFit(x.types, hs)
    requires |row| == |q.keys| + |q.aggs| && a < |q.aggs| && (x.keys == [] ==> KeyPart(x, row) == [])
    requires AggRead(x, q.aggs[a], row[|q.keys| + a], hs, KeyPart(x, row))
    requires SameWidth(rows, |q.types|) && multiset(Concat(parts)) == multiset(rows)
    ensures PartsWide(parts, |q.types|) && CellRight(x.ops, q, row, rows, parts, a) && CellTyped(q, row, rows, a)
  {
    var spec, k := q.aggs[a], KeyPart(x, row);
    QueryReads(q, a);
    hide Exchange.Valid, AggQuery.Valid, Reads, AllWide, PartsWide, SameWidth, FloatExtreme, AggIs, MergeSafe, SharesOf, SharesFit, PartsOf,
      WorkersOk, GroupParts, GroupValues, Whole, Concat;
    PartsAreGroups(x, maps, workers, parts, spec, k);
    WholeGroup(spec, parts, x.keys, k, |x.types|);
    GroupReordered(x.ops, spec, InputType(q.types, spec), row[|q.keys| + a], Concat(parts), rows, x.keys, k, |q.types|);
    GroupNoLarger(spec, Concat(parts), rows, x.keys, k, |q.types|);
  }

  lemma GroupNoLarger(spec: AggSpec, a: seq<Row>, b: seq<Row>, keys: seq<nat>, k: Row, width: nat)
    requires Reads(spec, keys, width) && SameWidth(a, width) && multiset(a) == multiset(b)
    ensures |GroupValues(spec, a, keys, k, width)| <= |b|
  {
    assert |multiset(a)| == |multiset(b)|;
  }

  lemma GroupReordered(ops: FloatOps, spec: AggSpec, t: Type, c: Cell, a: seq<Row>, b: seq<Row>, keys: seq<nat>, k: Row, width: nat)
    requires Reads(spec, keys, width) && SameWidth(a, width) && SameWidth(b, width) && multiset(a) == multiset(b)
    ensures AggIs(false, ops, spec.func, t, c, GroupValues(spec, a, keys, k, width))
       <==> AggIs(false, ops, spec.func, t, c, GroupValues(spec, b, keys, k, width))
  {
    hide AggIs, GroupValues;
    GroupValuesReordered(spec, a, b, keys, k, width);
    var x, y := GroupValues(spec, a, keys, k, width), GroupValues(spec, b, keys, k, width);
    if AggIs(false, ops, spec.func, t, c, x) { AggIsReordered(ops, spec.func, t, c, x, y); }
    if AggIs(false, ops, spec.func, t, c, y) { AggIsReordered(ops, spec.func, t, c, y, x); }
  }

  /** Sequences without repetition that have the same elements have them equally often. */
  lemma {:induction false} OncePerKey(s: seq<Row>, k: Row)
    requires forall i, j | 0 <= i < j < |s| :: s[i] != s[j]
    ensures multiset(s)[k] == if k in s then 1 else 0
  {
    if s != [] {
      var n := |s| - 1;
      OncePerKey(s[..n], k);
      assert s == s[..n] + [s[n]];
    }
  }

  lemma SameKeys(s: seq<Row>, t: seq<Row>)
    requires forall i, j | 0 <= i < j < |s| :: s[i] != s[j]
    requires forall i, j | 0 <= i < j < |t| :: t[i] != t[j]
    requires forall k :: k in s <==> k in t
    ensures multiset(s) == multiset(t)
  {
    forall k ensures multiset(s)[k] == multiset(t)[k] {
      OncePerKey(s, k);
      OncePerKey(t, k);
    }
  }

  lemma GroupsOfAnyOrder(a: seq<Row>, b: seq<Row>, keys: seq<nat>, k: Row)
    requires WideRows(a, keys) && WideRows(b, keys) && multiset(a) == multiset(b)
    ensures k in KeysOf(a, keys) <==> k in KeysOf(b, keys)
    ensures keys == [] && k in KeysOf(b, keys) ==> k == []
    ensures forall i, j | 0 <= i < j < |KeysOf(b, keys)| :: KeysOf(b, keys)[i] != KeysOf(b, keys)[j]
  {
    GroupsReordered(a, b, keys, k);
    GroupKeysDistinct(b, keys);
    hide GroupKeys, RowKey;
  }

  /** The workers' maps and parts, after a run over the rows. */
  ghost predicate Finished(x: Exchange, q: AggQuery, maps: seq<map<seq<byte>, Group>>, workers: seq<Worker>,
                           parts: seq<seq<Row>>, rows: seq<Row>) {
    && q.Valid() && x.Valid() && x.types == q.types && x.keys == q.keys && WorkersOk(x, maps, workers, parts)
    && AllWide(parts, x.keys) && SharesFit(x.types, SharesOf(x, workers, parts))
    && (exists w :: 0 <= w < |workers| && workers[w].finished != [])
    && SameWidth(rows, |q.types|) && multiset(Concat(parts)) == multiset(rows)
  }

  lemma KeyIffSeen(x: Exchange, q: AggQuery, maps: seq<map<seq<byte>, Group>>, workers: seq<Worker>, parts: seq<seq<Row>>,
                   rows: seq<Row>, k: Row)
    requires Finished(x, q, maps, workers, parts, rows)
    ensures WideRows(rows, q.keys)
    ensures Seen(SharesOf(x, workers, parts), k) <==> k in KeysOf(rows, q.keys)
    ensures q.keys == [] && Seen(SharesOf(x, workers, parts), k) ==> k == []
    ensures forall i, j | 0 <= i < j < |KeysOf(rows, q.keys)| :: KeysOf(rows, q.keys)[i] != KeysOf(rows, q.keys)[j]
  {
    RowsAreWide(q, rows);
    hide Exchange.Valid, AggQuery.Valid, SharesOf, SharesFit, Seen, WorkersOk, AllWide, WideRows, KeysOf, Concat, SameWidth;
    SeenIffGroup(x, maps, workers, parts, k);
    GroupsOfAnyOrder(Concat(parts), rows, q.keys, k);
  }

  lemma KeysAreRight(x: Exchange, q: AggQuery, out: seq<Row>, hs: seq<Share>, ks: seq<Row>)
    requires q.Valid() && x.types == q.types && x.keys == q.keys && SharesFit(x.types, hs) && ResultRead(x, q.aggs, out, hs)
    requires forall k :: Seen(hs, k) <==> k in ks
    requires forall i, j | 0 <= i < j < |ks| :: ks[i] != ks[j]
    ensures multiset(KeyColumn(q, out)) == multiset(ks)
  {
    var column := KeyColumn(q, out);
    hide SharesFit, Seen, AggRead;
    forall k ensures k in column <==> k in ks {
      if k in column {
        var i :| 0 <= i < |column| && column[i] == k;
        assert RowRead(x, q.aggs, out[i], hs);
      }
      if Seen(hs, k) {
        var i :| 0 <= i < |out| && KeyPart(x, out[i]) == k;
        assert column[i] == k;
      }
    }
    SameKeys(column, ks);
  }

  /** What is read off the merged map is the aggregate of the rows. */
  lemma ResultIsRight(x: Exchange, q: AggQuery, out: seq<Row>, maps: seq<map<seq<byte>, Group>>, workers: seq<Worker>,
                      parts: seq<seq<Row>>, rows: seq<Row>)
    requires Finished(x, q, maps, workers, parts, rows)
    requires ResultRead(x, q.aggs, out, SharesOf(x, workers, parts))
    ensures PartsWide(parts, |q.types|) && ParallelIs(x.ops, q, out, rows, parts)
  {
    var hs := SharesOf(x, workers, parts);
    PartsWidth(x, maps, workers, parts);
    PartsAllWide(x, parts);
    RowsAreWide(q, rows);
    hide Exchange.Valid, AggQuery.Valid, SharesOf, SharesFit, Seen, WorkersOk, AllWide, WideRows, KeysOf, Concat, SameWidth,
      RowRead, RowRight, PartsWide, InputFits;
    forall k ensures Seen(hs, k) <==> k in KeysOf(rows, q.keys) { KeyIffSeen(x, q, maps, workers, parts, rows, k); }
    KeyIffSeen(x, q, maps, workers, parts, rows, []);
    KeysAreRight(x, q, out, hs, KeysOf(rows, q.keys));
    forall i | 0 <= i < |out| ensures RowRight(x.ops, q, out[i], rows, parts) {
      KeySeen(x, q.aggs, out[i], hs);
      KeyIffSeen(x, q, maps, workers, parts, rows, KeyPart(x, out[i]));
      RowIsRight(x, q, out[i], hs, maps, workers, parts, rows);
    }
  }

  lemma RowsAreWide(q: AggQuery, rows: seq<Row>)
    requires q.Valid() && SameWidth(rows, |q.types|)
    ensures WideRows(rows, q.keys)
    ensures forall a | 0 <= a < |q.aggs| :: q.aggs[a].func.CountStar? || q.aggs[a].col < |q.types|
  {
  }

  lemma KeySeen(x: Exchange, aggs: seq<AggSpec>, row: Row, hs: seq<Share>)
    requires SharesFit(x.types, hs) && forall a | 0 <= a < |aggs| :: aggs[a].func.CountStar? || aggs[a].col < |x.types|
    requires RowRead(x, aggs, row, hs)
    ensures Seen(hs, KeyPart(x, row))
  {
    hide SharesFit, Seen, AggRead;
  }

  // ----- the driver -----

  /** What each morsel of the table gives the aggregate. */
  function AllPieces(env: Env, p: Plan, v: seq<Morsel>): (pieces: seq<seq<Row>>)
    requires StreamOk(env, p) && Tiles(v, Driver(env, p).nrows)
    ensures |pieces| == |v|
  {
    PiecesJoin(env, p, v, Driver(env, p).nrows);
    Pieces(env, p, v)
  }

  lemma {:induction false} PieceSize<T>(pieces: seq<seq<T>>, n: nat, i: nat)
    requires i < n <= |pieces|
    ensures |pieces[i]| <= |Flat(pieces, Upto(n))|
  {
    assert Upto(n)[..n - 1] == Upto(n - 1);
    if i < n - 1 { PieceSize(pieces, n - 1, i); }
  }

  /** In any order the morsels give the rows of the plan; no morsel gives more. */
  lemma PiecesAreSem(env: Env, p: Plan, v: seq<Morsel>)
    requires StreamOk(env, p) && Tiles(v, Driver(env, p).nrows)
    ensures InTable(v, Driver(env, p).nrows)
    ensures Flat(AllPieces(env, p, v), Upto(|v|)) == Sem(env, p)
    ensures forall i | 0 <= i < |v| :: AllPieces(env, p, v)[i] == Piece(env, p, v[i]) && |Piece(env, p, v[i])| <= |Sem(env, p)|
  {
    PiecesJoin(env, p, v, Driver(env, p).nrows);
    WholeTable(env, p);
    hide StreamOk, Tiles, SemOn, Sem, Flat, Upto, Piece;
    forall i | 0 <= i < |v| ensures |Piece(env, p, v[i])| <= |Sem(env, p)| {
      PieceSize(AllPieces(env, p, v), |v|, i);
    }
  }

  lemma SomeoneWorked(workers: seq<Worker>)
    requires Order(workers) != []
    ensures exists w :: 0 <= w < |workers| && workers[w].finished != []
  {
    if workers != [] && workers[|workers| - 1].finished == [] {
      SomeoneWorked(workers[..|workers| - 1]);
      var w :| 0 <= w < |workers| - 1 && workers[..|workers| - 1][w].finished != [];
      assert workers[w].finished != [];
    }
  }

  /** A typed aggregate that the exchange speaks splits into parts that merge. */
  lemma SplitsWell(q: AggQuery)
    requires q.Valid() && q.TypesOk() && AggregateExchangeSpeaks(q.types, q.keys, q.aggs)
    ensures forall a | 0 <= a < |q.aggs| :: (q.aggs[a].func.CountStar? || q.aggs[a].col < |q.types|) && Mergeable(q.types, q.aggs[a])
    ensures forall j | 0 <= j < |q.keys| :: q.keys[j] < |q.types| && !q.types[q.keys[j]].STR?
    ensures q.aggs != []
  {
  }

  /** After a complete run over the morsels, the workers' parts are the rows, and someone worked. */
  lemma AllDone(env: Env, p: Plan, v: seq<Morsel>, threads: nat, run: seq<Step>, parts: seq<seq<Row>>)
    requires StreamOk(env, p) && Tiles(v, Driver(env, p).nrows) && v != [] && threads > 0
    requires IsRun(Init(threads), |v|, run) && Final(AfterRun(Init(threads), |v|, run))
    requires PartsOk(AllPieces(env, p, v), AfterRun(Init(threads), |v|, run).workers, parts)
    ensures multiset(Concat(parts)) == multiset(Sem(env, p))
    ensures var workers := AfterRun(Init(threads), |v|, run).workers;
      exists w :: 0 <= w < |workers| && workers[w].finished != []
  {
    PiecesAreSem(env, p, v);
    hide StreamOk, Tiles, Sem, AllPieces, PartsOk, Flat, Order, Concat, IsRun, AfterRun, Upto;
    var workers := AfterRun(Init(threads), |v|, run).workers;
    CollectsAll(AllPieces(env, p, v), threads, run);
    ConcatIsFlat(AllPieces(env, p, v), workers, parts);
    assert |multiset(Order(workers))| == |multiset(Upto(|v|))|;
    UptoSize(|v|);
    SomeoneWorked(workers);
  }

  lemma UptoSize(n: nat)
    ensures |Upto(n)| == n
  {
  }

  /**
   Run an aggregate over a streaming plan under a schedule. `None` only when a build side
   or a morsel's groups exhaust the group ids. `parts` is what each worker saw.
   */
  method RunAggregate(ops: FloatOps, q: AggQuery, env: Env, p: Plan, threads: nat, v: seq<Morsel>, run: seq<Step>,
                      be: Backend, combine: Combine, seed: u64, path: KernelPath)
    returns (out: Option<seq<Row>>, ghost parts: seq<seq<Row>>)
    requires StreamOk(env, p) && AllRoom(env, p) && be.Valid() && FloatsOk(env.fl) && (path.Vector? ==> path.lanes >= 1)
    requires q.Valid() && q.TypesOk() && q.types == OutputTypes(p) && AggregateExchangeSpeaks(q.types, q.keys, q.aggs)
    requires threads > 0 && v != [] && Tiles(v, Driver(env, p).nrows) && |Sem(env, p)| < TWO_63
    requires IsRun(Init(threads), |v|, run) && Final(AfterRun(Init(threads), |v|, run))
    ensures out.None? ==> TooManyGroups(env, p) || |Sem(env, p)| > NO_GROUP
    ensures out.Some? ==>
      && PartsOk(AllPieces(env, p, v), AfterRun(Init(threads), |v|, run).workers, parts)
      && PartsWide(parts, |q.types|) && ParallelIs(ops, q, out.value, Sem(env, p), parts)
  {
    hide StreamOk, AllRoom, Tiles, PartOk, FloatsOk, Sem, SemOn, Piece, AllPieces, InTable, WorkerOk, Exchange.Valid, AggQuery.Valid,
      AggregateExchangeSpeaks, AggQuery.TypesOk, ParallelIs, PartsWide, Covers, SharesFit, MapOk, ResultRead;
    PiecesAreSem(env, p, v);
    ghost var pieces := AllPieces(env, p, v);
    SplitsWell(q);
    var specs, kinds, omap := BuildPartials(q.aggs, q.types);
    var x := Exchange(ops, q.types, q.keys, specs, kinds);
    SplitCovers(x, q, omap);
    var s := Init(threads);
    var maps: seq<map<seq<byte>, Group>> := seq(threads, _ => map[]);
    parts := seq(threads, _ => []);
    PartsStart(pieces, threads);
    WorkersStart(x, threads);
    for k := 0 to |run|
      invariant IsRun(Init(threads), |v|, run[..k]) && s == AfterRun(Init(threads), |v|, run[..k])
      invariant PartsOk(pieces, s.workers, parts) && WorkersOk(x, maps, s.workers, parts)
    {
      RunPrefix(Init(threads), |v|, run, k);
      var step := run[k];
      match step
      case Fetch(w) =>
        FetchKeeps(pieces, s, step, parts);
        FetchLeaves(x, maps, s, |v|, step, parts);
        s := After(s, |v|, step);
      case Finish(w) =>
        var at := s.workers[w].morsel;
        BusyBelow(pieces, s, w, parts);
        MorselIn(env, p, v, at);
        WorkerAt(x, maps, s.workers, parts, w);
        var m := RunPartial(x, maps[w], env, p, v[at], be, combine, seed, path, s.workers[w].finished != [], parts[w]);
        if m.None? { return None, parts; }
        FinishKeeps(pieces, s, step, parts);
        FinishAdds(x, maps, s, |v|, step, parts, m.value, pieces[at]);
        maps, parts := maps[w := m.value], parts[w := parts[w] + pieces[at]];
        s := After(s, |v|, step);
    }
    assert run[..|run|] == run;
    out := MergeAndRead(x, q, omap, env, p, threads, v, run, maps, parts);
  }

  method MergeAndRead(x: Exchange, q: AggQuery, omap: seq<OrigMap>, env: Env, p: Plan, threads: nat, v: seq<Morsel>, ghost run: seq<Step>,
                      maps: seq<map<seq<byte>, Group>>, ghost parts: seq<seq<Row>>)
    returns (out: Option<seq<Row>>)
    requires StreamOk(env, p) && threads > 0 && v != [] && Tiles(v, Driver(env, p).nrows)
    requires IsRun(Init(threads), |v|, run) && Final(AfterRun(Init(threads), |v|, run))
    requires q.Valid() && x.Valid() && x.types == q.types == OutputTypes(p) && x.keys == q.keys && Covers(x, q.aggs, omap)
    requires PartsOk(AllPieces(env, p, v), AfterRun(Init(threads), |v|, run).workers, parts)
    requires WorkersOk(x, maps, AfterRun(Init(threads), |v|, run).workers, parts)
    ensures out.Some? && PartsWide(parts, |q.types|) && ParallelIs(x.ops, q, out.value, Sem(env, p), parts)
  {
    hide StreamOk, Tiles, PartOk, Sem, SemOn, AllPieces, WorkerOk, Exchange.Valid, AggQuery.Valid, ParallelIs, PartsWide, Covers,
      SharesFit, MapOk, ResultRead, SharesOf, IsRun, AfterRun, Concat;
    ghost var workers := AfterRun(Init(threads), |v|, run).workers;
    AllDone(env, p, v, threads, run, parts);
    var merged := MergeWorkers(x, maps, workers, parts);
    MapFits(x, Across, merged, SharesOf(x, workers, parts));
    var rows := ReadRows(x, q.aggs, omap, merged, SharesOf(x, workers, parts));
    ResultIsRight(x, q, rows, maps, workers, parts, Sem(env, p));
    out := Some(rows);
  }

  lemma SplitCovers(x: Exchange, q: AggQuery, omap: seq<OrigMap>)
    requires q.Valid() && x.types == q.types && x.keys == q.keys && |x.specs| == |x.kinds| && x.specs != [] && |omap| == |q.aggs|
    requires forall j | 0 <= j < |q.keys| :: q.keys[j] < |q.types| && !q.types[q.keys[j]].STR?
    requires forall a | 0 <= a < |q.aggs| :: (q.aggs[a].func.CountStar? || q.aggs[a].col < |q.types|) && Mergeable(q.types, q.aggs[a])
    requires forall j | 0 <= j < |x.specs| :: PartialOk(x.types, x.specs[j], x.kinds[j])
    requires forall a | 0 <= a < |q.aggs| :: OrigOk(x.types, q.aggs[a], omap[a], x.specs)
    ensures x.Valid() && Covers(x, q.aggs, omap)
  {
    hide PartialOk, Mergeable, OrigOk;
  }

  lemma MorselIn(env: Env, p: Plan, v: seq<Morsel>, at: nat)
    requires StreamOk(env, p) && InTable(v, Driver(env, p).nrows) && at < |v|
    ensures v[at].start <= v[at].end <= Driver(env, p).nrows && v[at].start % 64 == 0
  {
  }

  lemma WorkerAt(x: Exchange, maps: seq<map<seq<byte>, Group>>, workers: seq<Worker>, parts: seq<seq<Row>>, w: nat)
    requires WorkersOk(x, maps, workers, parts) && w < |workers|
    ensures w < |maps| && w < |parts| && WorkerOk(x, maps[w], workers[w].finished != [], parts[w])
  {
  }

  // ----- reading the result -----

  /** Without NaNs in the columns of its extrema, every aggregate is that of its group. */
  lemma NaNFreeIsExact(ops: FloatOps, q: AggQuery, out: seq<Row>, rows: seq<Row>, parts: seq<seq<Row>>, i: nat, a: nat)
    requires q.Valid() && SameWidth(rows, |q.types|) && PartsWide(parts, |q.types|)
    requires ParallelIs(ops, q, out, rows, parts) && i < |out| && a < |q.aggs| && |out[i]| == |q.keys| + |q.aggs|
    requires var spec := q.aggs[a];
      FloatExtreme(spec.func, InputType(q.types, spec)) ==> forall r | r in rows :: spec.col < |r| ==> !CellNaN(r[spec.col])
    ensures var spec := q.aggs[a];
      AggIs(false, ops, spec.func, InputType(q.types, spec), out[i][|q.keys| + a],
            GroupValues(spec, rows, q.keys, KeyPrefix(q, out[i]), |q.types|))
  {
    var spec, k := q.aggs[a], KeyPrefix(q, out[i]);
    QueryReads(q, a);
    hide AggIs, MergeSafe, GroupValues, CellNaN, KeyColumn, KeysOf;
    assert RowRight(ops, q, out[i], rows, parts);
    assert CellRight(ops, q, out[i], rows, parts, a);
    if FloatExtreme(spec.func, InputType(q.types, spec)) {
      WholeGroup(spec, parts, q.keys, k, |q.types|);
      GroupValuesReordered(spec, Concat(parts), rows, q.keys, k, |q.types|);
      NoNaNValues(spec, Concat(parts), rows, q.keys, k, |q.types|);
      NoNaNIsSafe(spec.func, GroupParts(spec, parts, q.keys, k, |q.types|));
    }
  }

  lemma NoNaNValues(spec: AggSpec, all: seq<Row>, rows: seq<Row>, keys: seq<nat>, k: Row, width: nat)
    requires Reads(spec, keys, width) && SameWidth(all, width) && multiset(all) == multiset(rows) && !spec.func.CountStar?
    requires forall r | r in rows :: spec.col < |r| ==> !CellNaN(r[spec.col])
    ensures forall c | c in GroupValues(spec, all, keys, k, width) :: !CellNaN(c)
  {
    hide CellNaN, Members;
    var vals, m := GroupValues(spec, all, keys, k, width), Members(all, keys, k);
    forall c | c in vals ensures !CellNaN(c) {
      var r :| 0 <= r < |vals| && vals[r] == c;
      assert m[r] in all;
      assert m[r] in multiset(all);
      assert m[r] in rows;
    }
  }

  lemma RightAt(ops: FloatOps, q: AggQuery, out: seq<Row>, rows: seq<Row>, parts: seq<seq<Row>>, i: nat, a: nat)
    requires q.Valid() && SameWidth(rows, |q.types|) && PartsWide(parts, |q.types|)
    requires ParallelIs(ops, q, out, rows, parts) && i < |out| && a < |q.aggs|
    ensures |out[i]| == |q.keys| + |q.aggs| && CellRight(ops, q, out[i], rows, parts, a)
  {
    hide CellRight, CellTyped, KeysOf, KeyColumn;
    assert RowRight(ops, q, out[i], rows, parts);
  }
}
