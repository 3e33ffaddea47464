/**
 The parallel driver as a whole: a streaming plan, under at most one aggregate, under any
 number of sorts. The plans it does not support run on one thread.
 */
module ParallelPlans {
  import opened Words
  import opened Columns
  import opened HashTables
  import opened KeyRows
  import opened KeyCodes
  import opened AggMeaning
  import opened GroupBy
  import opened GroupMerge
  import opened GlobalAggregates
  import opened ParallelAggregates
  import opened EverySchedules
  import opened Exprs
  import opened Eval
  import opened Streams
  import opened Plans
  import opened Morsels
  import opened Schedules
  import opened ParallelStreams
  import opened TopSorts
  import opened JoinPairs
  import HashJoins
  import PartialMaps
  import SortOrders

  // ----- rows stay typed -----

  lemma {:induction false} FilterTyped(fl: Floats, pred: Expr, schema: seq<Type>, rows: seq<Row>)
    requires WellTyped(pred, schema) && RowsFit(schema, rows) && SameWidth(rows, |schema|)
    ensures RowsFit(schema, FilterRows(fl, pred, schema, rows))
  {
    if rows != [] {
      hide Passes, RowFits, WellTyped;
      FilterTyped(fl, pred, schema, rows[..|rows| - 1]);
    }
  }

  lemma ProjectTyped(fl: Floats, exprs: seq<Expr>, schema: seq<Type>, rows: seq<Row>)
    requires AllWellTyped(exprs, schema) && RowsFit(schema, rows) && SameWidth(rows, |schema|) && FloatsOk(fl)
    ensures RowsFit(ExprTypes(exprs), ProjectRows(fl, exprs, schema, rows))
  {
    hide FloatsOk, WellTyped, TypeOf, EvalRow, Holds;
    forall r, j | 0 <= r < |rows| && 0 <= j < |exprs|
      ensures Holds(TypeOf(exprs[j]), EvalRow(fl, exprs[j], schema, rows[r]))
    {
      assert RowFits(schema, rows[r]);
      EvalHolds(fl, exprs[j], schema, rows[r]);
    }
  }

  lemma {:induction false} InnerTyped(s: HashJoins.JoinSpec, p: Row, build: seq<Row>)
    requires s.Valid() && RowFits(s.probeTypes, p) && RowsFit(s.buildTypes, build) && SameWidth(build, |s.buildTypes|)
    ensures RowsFit(s.probeTypes + s.buildTypes, HashJoins.InnerLoop(s, p, build))
  {
    hide HashJoins.Joins, Holds;
    if build != [] {
      InnerTyped(s, p, build[..|build| - 1]);
      assert RowFits(s.buildTypes, build[|build| - 1]);
    }
  }

  lemma JoinRowTyped(s: HashJoins.JoinSpec, p: Row, build: seq<Row>)
    requires s.Valid() && RowFits(s.probeTypes, p) && RowsFit(s.buildTypes, build) && SameWidth(build, |s.buildTypes|)
    ensures RowsFit(s.probeTypes + s.buildTypes, HashJoins.JoinRow(s, p, build))
  {
    hide HashJoins.InnerLoop;
    InnerTyped(s, p, build);
    assert RowFits(s.probeTypes + s.buildTypes, p + NullRow(|s.buildTypes|));
  }

  lemma {:induction false} JoinTyped(s: HashJoins.JoinSpec, probe: seq<Row>, build: seq<Row>)
    requires s.Valid() && RowsFit(s.probeTypes, probe) && SameWidth(probe, |s.probeTypes|)
    requires RowsFit(s.buildTypes, build) && SameWidth(build, |s.buildTypes|)
    ensures RowsFit(s.probeTypes + s.buildTypes, HashJoins.NestedLoopJoin(s, probe, build))
  {
    hide HashJoins.JoinRow, RowFits;
    if probe != [] {
      JoinTyped(s, probe[..|probe| - 1], build);
      JoinRowTyped(s, probe[|probe| - 1], build);
    }
  }

  lemma TableTyped(t: Table)
    requires t.Valid()
    ensures RowsFit(TableTypes(t), t.Rows())
  {
    hide Holds, Column.Valid, Column.CellAt;
    forall r, c | 0 <= r < t.nrows && 0 <= c < |t.cols| ensures Holds(t.cols[c].typ, t.Rows()[r][c]) {
      CellHolds(t.cols[c], r);
    }
  }

  lemma BatchesTyped(input: seq<Batch>, types: seq<Type>)
    requires Conforms(input, types)
    ensures RowsFit(types, RowsOf(input))
  {
    RowsHold(input, types);
    hide Holds, Batch.Valid, RowsOf;
  }

  /** Every value a streaming plan outputs is of its column's type. */
  lemma {:induction false} SemTyped(env: Env, p: Plan, driving: seq<Row>)
    requires StreamOk(env, p) && RowsFit(DrivingTypes(env, p), driving) && SameWidth(driving, |DrivingTypes(env, p)|) && FloatsOk(env.fl)
    ensures RowsFit(OutputTypes(p), SemOn(env, p, driving))
    decreases p
  {
    hide FilterRows, ProjectRows, HashJoins.NestedLoopJoin, WellTyped, AllWellTyped, FloatsOk, RowFits;
    match p {
      case Scan(_) =>
      case Filter(c, e) =>
        SemTyped(env, c, driving);
        FilterTyped(env.fl, e, OutputTypes(c), SemOn(env, c, driving));
      case Project(c, es) =>
        SemTyped(env, c, driving);
        ProjectTyped(env.fl, es, OutputTypes(c), SemOn(env, c, driving));
      case Join(l, r, _, _, _) =>
        SemTyped(env, l, driving);
        ConformingWidth(env.lower(r), OutputTypes(r));
        BatchesTyped(env.lower(r), OutputTypes(r));
        JoinTyped(JoinSpecOf(p), SemOn(env, l, driving), RowsOf(env.lower(r)));
    }
  }

  lemma OutputTyped(env: Env, p: Plan, out: seq<Row>)
    requires StreamOk(env, p) && FloatsOk(env.fl) && multiset(out) == multiset(Sem(env, p))
    ensures RowsFit(OutputTypes(p), out)
  {
    var t := Driver(env, p);
    TableTyped(t);
    SemTyped(env, p, t.Rows());
    hide FloatsOk, RowFits, SemOn, Table.Rows, StreamOk;
    FitReordered(OutputTypes(p), Sem(env, p), out);
  }

  lemma FitReordered(types: seq<Type>, a: seq<Row>, b: seq<Row>)
    requires RowsFit(types, a) && multiset(a) == multiset(b)
    ensures RowsFit(types, b)
  {
    hide RowFits;
    forall r | 0 <= r < |b| ensures RowFits(types, b[r]) {
      assert b[r] in multiset(a);
      var i :| 0 <= i < |a| && a[i] == b[r];
    }
  }

  // ----- what a plan gives -----

  function QueryOf(p: Plan): AggQuery
    requires p.Aggregate?
  {
    AggQuery(OutputTypes(p.child), p.keys, p.aggs)
  }

  lemma OutTypesAgree(p: Plan)
    requires p.Aggregate? && QueryOf(p).Valid() && QueryOf(p).TypesOk()
    ensures OutputTypes(p) == QueryOf(p).OutTypes()
  {
    hide OutputTypes;
    var q := QueryOf(p);
    assert KeyTypesOf(q.types, q.keys) == KeyTypes(q.types, q.keys);
    assert AggTypes(q.types, q.aggs)
        == seq(|q.aggs|, a requires 0 <= a < |q.aggs| => ResultType(q.aggs[a].func, InputType(q.types, q.aggs[a])).value);
    PlanTypes(p);
  }

  lemma PlanTypes(p: Plan)
    requires p.Aggregate?
    ensures OutputTypes(p) == KeyTypesOf(OutputTypes(p.child), p.keys) + AggTypes(OutputTypes(p.child), p.aggs)
  {
  }

  /** The streaming part at the bottom of a supported plan. */
  function Body(p: Plan): Plan {
    match p
    case Sort(c, _) => Body(c)
    case Aggregate(c, _, _) => c
    case _ => p
  }

  /** What the driver may be given: typed plans, with room for their codes and counters. */
  ghost predicate NodeOk(env: Env, p: Plan) {
    match p
    case Sort(c, ks) => NodeOk(env, c) && SortOrders.KeysFit(ks, |OutputTypes(c)|)
    case Aggregate(c, keys, aggs) =>
      && StreamOk(env, c) && AllRoom(env, c) && |Sem(env, c)| < TWO_63
      && QueryOf(p).Valid() && QueryOf(p).TypesOk()
    case _ => StreamOk(env, p) && AllRoom(env, p)
  }

  /** What runs a plan's morsels: the workers, how they interleave, and the kernels they use. */
  datatype Run = Run(threads: nat, morsels: seq<Morsel>, steps: seq<Step>, be: Backend, combine: Combine, seed: u64, path: KernelPath)
  {
    /** Complete, over the morsels of a table of `total` rows. */
    ghost predicate Complete(total: nat) {
      && threads > 0 && be.Valid() && (path.Vector? ==> path.lanes >= 1)
      && morsels != [] && Tiles(morsels, total)
      && IsRun(Init(threads), |morsels|, steps) && Final(AfterRun(Init(threads), |morsels|, steps))
    }
  }

  lemma BodyStreams(env: Env, p: Plan)
    requires NodeOk(env, p)
    ensures StreamOk(env, Body(p)) && (p.Sort? ==> NodeOk(env, p.child) && Body(p) == Body(p.child))
  {
    if p.Sort? { BodyStreams(env, p.child); }
  }

  ghost predicate RunOk(env: Env, p: Plan, run: Run)
    requires NodeOk(env, p)
  {
    BodyStreams(env, p);
    run.Complete(Driver(env, Body(p)).nrows)
  }

  lemma RunOfChild(env: Env, p: Plan, run: Run)
    requires NodeOk(env, p) && RunOk(env, p, run)
    ensures p.Sort? ==> NodeOk(env, p.child) && RunOk(env, p.child, run)
    ensures p.Aggregate? ==> StreamOk(env, p.child) && Tiles(run.morsels, Driver(env, p.child).nrows)
  {
    BodyStreams(env, p);
  }

  /** What the morsels of a run give an aggregate. */
  function RunPieces(env: Env, p: Plan, run: Run): (pieces: seq<seq<Row>>)
    requires NodeOk(env, p) && RunOk(env, p, run) && p.Aggregate?
  {
    RunOfChild(env, p, run);
    AllPieces(env, p.child, run.morsels)
  }

  /** What a run gives: a bag of rows for a streaming plan; the groups, for an aggregate; the stable sort of those, for a sort. */
  ghost predicate NodeIs(env: Env, ops: FloatOps, p: Plan, run: Run, out: seq<Row>)
    requires NodeOk(env, p) && RunOk(env, p, run)
    decreases p
  {
    RunOfChild(env, p, run);
    match p
    case Sort(c, ks) =>
      exists rows :: NodeIs(env, ops, c, run, rows) && IsStableSort(ks, rows, out, |OutputTypes(c)|)
    case Aggregate(c, _, _) =>
      exists parts ::
        && Dealt(RunPieces(env, p, run), run.threads, run.steps, parts, |OutputTypes(c)|) && PartsWide(parts, |OutputTypes(c)|)
        && ParallelIs(ops, QueryOf(p), out, Sem(env, c), parts)
    case _ => multiset(out) == multiset(Sem(env, p))
  }

  lemma AggregateTyped(ops: FloatOps, q: AggQuery, out: seq<Row>, rows: seq<Row>, parts: seq<seq<Row>>)
    requires q.Valid() && q.TypesOk() && SameWidth(rows, |q.types|) && PartsWide(parts, |q.types|)
    requires ParallelIs(ops, q, out, rows, parts) && |rows| < TWO_63
    ensures RowsFit(q.OutTypes(), out)
  {
    hide CellRight, PartialMaps.KeysOf, KeyColumn, Holds, ResultType;
    forall i | 0 <= i < |out| ensures RowFits(q.OutTypes(), out[i]) {
      assert RowRight(ops, q, out[i], rows, parts);
      forall c | 0 <= c < |q.OutTypes()| ensures Holds(q.OutTypes()[c], out[i][c]) {
        if c >= |q.keys| {
          assert CellTyped(q, out[i], rows, c - |q.keys|);
        }
      }
    }
  }

  /** The result of a supported plan is of its output types. */
  lemma {:induction false} NodeTyped(env: Env, ops: FloatOps, p: Plan, run: Run, out: seq<Row>)
    requires NodeOk(env, p) && RunOk(env, p, run) && NodeIs(env, ops, p, run, out) && FloatsOk(env.fl)
    ensures RowsFit(OutputTypes(p), out)
    decreases p
  {
    RunOfChild(env, p, run);
    hide FloatsOk, RowsFit, Sorted, IsStableSort, ParallelIs, Sem, StreamOk, AllRoom, AggQuery.Valid, AggQuery.TypesOk, PartsWide, OutputTypes, Dealt,
      RunOk, RunPieces;
    match p {
      case Sort(c, ks) =>
        var rows :| NodeIs(env, ops, c, run, rows) && IsStableSort(ks, rows, out, |OutputTypes(c)|);
        NodeTyped(env, ops, c, run, rows);
        StableSortGives(ks, rows, out, |OutputTypes(c)|);
        FitReordered(OutputTypes(c), rows, out);
        SortTypes(p);
      case Aggregate(c, _, _) =>
        var parts :| PartsWide(parts, |OutputTypes(c)|) && ParallelIs(ops, QueryOf(p), out, Sem(env, c), parts);
        AggregateTyped(ops, QueryOf(p), out, Sem(env, c), parts);
        OutTypesAgree(p);
      case _ => OutputTyped(env, p, out);
    }
  }

  lemma SortTypes(p: Plan)
    requires p.Sort?
    ensures OutputTypes(p) == OutputTypes(p.child)
  {
  }

  // ----- the driver -----

  /** Some morsel, or the aggregate of one, ran out of group ids. */
  ghost predicate OutOfIds(env: Env, p: Plan)
    requires NodeOk(env, p)
    decreases p
  {
    match p
    case Sort(c, _) => OutOfIds(env, c)
    case Aggregate(c, _, _) => TooManyGroups(env, c) || |Sem(env, c)| > NO_GROUP
    case _ => TooManyGroups(env, p)
  }

  /** Run a supported plan, under any schedule. */
  method RunNode(env: Env, ops: FloatOps, p: Plan, run: Run) returns (out: Option<seq<Row>>)
    requires Supported(p) && NodeOk(env, p) && FloatsOk(env.fl) && RunOk(env, p, run)
    ensures out.None? ==> OutOfIds(env, p)
    ensures out.Some? ==> NodeIs(env, ops, p, run, out.value)
    decreases p
  {
    RunOfChild(env, p, run);
    hide FloatsOk, Sorted, IsStableSort, ParallelIs, Sem, StreamOk, AllRoom, AggQuery.Valid, AggQuery.TypesOk, PartsWide, RowsFit, OutputTypes,
      TooManyGroups, Tiles, IsRun, AfterRun, Final, StreamingMorselizable, PartsOk;
    match p {
      case Sort(c, ks) =>
        var rows := RunNode(env, ops, c, run);
        if rows.None? { return None; }
        NodeTyped(env, ops, c, run, rows.value);
        var sorted := SortTop(rows.value, OutputTypes(c), ks, SCAN_BATCH);
        out := Some(sorted);
      case Aggregate(c, keys, aggs) =>
        ghost var parts;
        out, parts := RunAggregate(ops, QueryOf(p), env, c, run.threads, run.morsels, run.steps, run.be, run.combine, run.seed, run.path);
      case _ =>
        out := RunStreaming(env, p, run.threads, run.morsels, run.steps, run.be, run.combine, run.seed);
    }
  }

  /** Any plan: what the driver does not support is run by `lower`, on one thread. */
  method RunPlan(env: Env, ops: FloatOps, p: Plan, run: Run) returns (out: Option<seq<Row>>)
    requires Supported(p) ==> NodeOk(env, p) && RunOk(env, p, run)
    requires !Supported(p) ==> Conforms(env.lower(p), OutputTypes(p))
    requires FloatsOk(env.fl)
    ensures !Supported(p) ==> out == Some(RowsOf(env.lower(p)))
    ensures Supported(p) && out.None? ==> OutOfIds(env, p)
    ensures Supported(p) && out.Some? ==> NodeIs(env, ops, p, run, out.value)
  {
    hide Supported, NodeOk, FloatsOk, RunOk, NodeIs, OutOfIds;
    if !Supported(p) { return Some(RowsOf(env.lower(p))); }
    out := RunNode(env, ops, p, run);
  }
}
