/**
 What a plan means, whoever runs it: one thread, or any number of workers under any schedule.
 Both give such a result, and any two such results are the same up to the ties of doubles.
 */
module PlanMeanings {
  import opened Words
  import opened Columns
  import opened HashTables
  import opened KeyRows
  import opened KeyCodes
  import opened AggMeaning
  import opened GroupBy
  import opened GroupMerge
  import opened Aggregates
  import opened GlobalAggregates
  import opened AggregateOps
  import opened PartialAggs
  import opened PartialMaps
  import opened ParallelStreams
  import opened ParallelAggregates
  import opened EverySchedules
  import opened Outcomes
  import opened Eval
  import opened Exprs
  import opened Plans
  import opened Morsels
  import opened RowStores
  import opened SortOrders
  import opened Sorts
  import opened TopSorts
  import opened ParallelPlans
  import F64

  /** The meaning: a bag of rows; the groups; the stable sort of those. */
  ghost predicate PlanIs(env: Env, ops: FloatOps, p: Plan, out: seq<Row>)
    requires NodeOk(env, p)
    decreases p
  {
    match p
    case Sort(c, ks) =>
      exists rows :: PlanIs(env, ops, c, rows) && IsStableSort(ks, rows, out, |OutputTypes(c)|)
    case Aggregate(c, _, _) => GroupsAre(ops, QueryOf(p), out, Sem(env, c))
    case _ => multiset(out) == multiset(Sem(env, p))
  }

  // ----- one thread -----

  /** What one thread gives: the rows in order, the groups in first-seen order, the stable sort of those. */
  ghost predicate OneThread(env: Env, ops: FloatOps, p: Plan, out: seq<Row>)
    requires NodeOk(env, p)
    decreases p
  {
    match p
    case Sort(c, ks) =>
      exists rows :: OneThread(env, ops, c, rows) && IsStableSort(ks, rows, out, |OutputTypes(c)|)
    case Aggregate(c, _, _) => AggregateIs(ops, QueryOf(p), out, Sem(env, c))
    case _ => out == Sem(env, p)
  }

  /** Run a supported plan on one thread, operator by operator. */
  method RunSingle(env: Env, ops: FloatOps, p: Plan, be: Backend, combine: Combine, seed: u64, path: KernelPath)
    returns (out: Option<seq<Batch>>)
    requires Supported(p) && NodeOk(env, p) && FloatsOk(env.fl) && be.Valid() && (path.Vector? ==> path.lanes >= 1)
    ensures out.None? ==> OutOfIds(env, p)
    ensures out.Some? ==> Conforms(out.value, OutputTypes(p)) && OneThread(env, ops, p, RowsOf(out.value))
    decreases p
  {
    hide FloatsOk, Sem, StreamOk, AllRoom, AggQuery.Valid, AggQuery.TypesOk, AggregateIs, OutputTypes, TooManyGroups, RowsOf,
      StreamingMorselizable, Batch.Valid, StablePermutation;
    match p {
      case Sort(c, ks) =>
        var input := RunSingle(env, ops, c, be, combine, seed, path);
        if input.None? { return None; }
        var sorted, perm := SortRows(input.value, OutputTypes(c), ks, Auto);
        PermutationLength(ks, RowsOf(input.value), |OutputTypes(c)|, perm);
        SortTypes(p);
        out := Some(sorted);
      case Aggregate(c, _, _) =>
        var input := RunWhole(env, c, be, combine, seed);
        if input.None? { return None; }
        SpeakableInput(env, p, input.value);
        var r := AggregateAll(ops, QueryOf(p), input.value, combine, seed, path);
        OutTypesAgree(p);
        out := if r.Batches? then Some(r.batches) else None;
      case _ =>
        out := RunWhole(env, p, be, combine, seed);
    }
  }

  /** A streaming plan over its whole driving table. */
  method RunWhole(env: Env, p: Plan, be: Backend, combine: Combine, seed: u64) returns (out: Option<seq<Batch>>)
    requires StreamOk(env, p) && AllRoom(env, p) && be.Valid() && FloatsOk(env.fl)
    ensures out.None? ==> TooManyGroups(env, p)
    ensures out.Some? ==> Conforms(out.value, OutputTypes(p)) && RowsOf(out.value) == Sem(env, p)
  {
    var m := Morsel(0, Driver(env, p).nrows);
    CutWidth(Driver(env, p), m);
    assert RoomFor(env, p, m);
    WholeTable(env, p);
    assert Cut(Driver(env, p).Rows(), m) == Driver(env, p).Rows()[..Driver(env, p).nrows];
    hide StreamOk, SemOn, Table.Rows, AllRoom, Batch.Valid, Sem;
    out := RunMorsel(env, p, m, be, combine, seed);
  }

  lemma SpeakableInput(env: Env, p: Plan, input: seq<Batch>)
    requires p.Aggregate? && Supported(p) && NodeOk(env, p) && Conforms(input, OutputTypes(p.child))
    requires RowsOf(input) == Sem(env, p.child)
    ensures InputOk(QueryOf(p), input)
  {
    var q := QueryOf(p);
    hide Sem, StreamOk, AllRoom, OutputTypes, RowsOf, StreamingMorselizable;
    SplitsWell(q);
    NoStrKeys(q.types, q.keys);
    NoStrAggs(q.types, q.aggs);
    assert Interns(q) == 0 && Product(0, |RowsOf(input)|) == 0;
  }

  /** One thread gives what the plan means. */
  lemma {:induction false} OneThreadIsPlan(env: Env, ops: FloatOps, p: Plan, out: seq<Row>)
    requires NodeOk(env, p) && OneThread(env, ops, p, out)
    ensures PlanIs(env, ops, p, out)
    decreases p
  {
    hide Sem, StreamOk, AllRoom, AggQuery.Valid, AggQuery.TypesOk, AggregateIs, GroupsAre, OutputTypes, IsStableSort;
    match p {
      case Sort(c, ks) =>
        var rows :| OneThread(env, ops, c, rows) && IsStableSort(ks, rows, out, |OutputTypes(c)|);
        OneThreadIsPlan(env, ops, c, rows);
      case Aggregate(c, _, _) => SingleIsResult(ops, QueryOf(p), out, Sem(env, c));
      case _ =>
    }
  }

  // ----- any schedule -----

  /** The extrema of doubles come out right: one thread, or morsels that agree on NaNs, group by group. */
  ghost predicate Settled(env: Env, p: Plan, run: Run)
    requires NodeOk(env, p) && RunOk(env, p, run)
    decreases p
  {
    RunOfChild(env, p, run);
    match p
    case Sort(c, _) => Settled(env, c, run)
    case Aggregate(c, _, _) => SettledGroups(QueryOf(p), RunPieces(env, p, run), run.threads, Sem(env, c))
    case _ => true
  }

  ghost predicate SettledGroups(q: AggQuery, pieces: seq<seq<Row>>, threads: nat, rows: seq<Row>)
    requires q.Valid() && SameWidth(rows, |q.types|)
  {
    PartsWide(pieces, |q.types|)
    && forall key, a | key in KeysOf(rows, q.keys) && 0 <= a < |q.aggs| :: Steady(q, pieces, threads, key, a)
  }

  /** Every complete schedule of a settled plan gives what the plan means. */
  lemma {:induction false} RunIsPlan(env: Env, ops: FloatOps, p: Plan, run: Run, out: seq<Row>)
    requires NodeOk(env, p) && RunOk(env, p, run) && NodeIs(env, ops, p, run, out) && Settled(env, p, run)
    ensures PlanIs(env, ops, p, out)
    decreases p
  {
    RunOfChild(env, p, run);
    hide Sem, StreamOk, AllRoom, AggQuery.Valid, AggQuery.TypesOk, ParallelIs, GroupsAre, OutputTypes, IsStableSort, Dealt, PartsWide,
      RunOk, RunPieces, SettledGroups;
    match p {
      case Sort(c, ks) =>
        var rows :| NodeIs(env, ops, c, run, rows) && IsStableSort(ks, rows, out, |OutputTypes(c)|);
        RunIsPlan(env, ops, c, run, rows);
      case Aggregate(c, _, _) =>
        var parts :|
          && Dealt(RunPieces(env, p, run), run.threads, run.steps, parts, |OutputTypes(c)|) && PartsWide(parts, |OutputTypes(c)|)
          && ParallelIs(ops, QueryOf(p), out, Sem(env, c), parts);
        ParallelIsResult(ops, QueryOf(p), RunPieces(env, p, run), run.threads, run.steps, parts, out, Sem(env, c));
      case _ =>
    }
  }

  lemma ParallelIsResult(ops: FloatOps, q: AggQuery, pieces: seq<seq<Row>>, threads: nat, steps: seq<Schedules.Step>,
                         parts: seq<seq<Row>>, out: seq<Row>, rows: seq<Row>)
    requires q.Valid() && SameWidth(rows, |q.types|) && SettledGroups(q, pieces, threads, rows)
    requires Dealt(pieces, threads, steps, parts, |q.types|) && PartsWide(parts, |q.types|) && ParallelIs(ops, q, out, rows, parts)
    ensures GroupsAre(ops, q, out, rows)
  {
    RowsAreWide(q, rows);
    hide AggQuery.Valid, Dealt, PartsWide, KeysOf, RowRight, Concat, SameWidth, ParallelAggregates.KeyColumn, RowIs, SettledGroups;
    forall i | 0 <= i < |out| ensures RowIs(ops, q, out[i], rows) {
      ParallelRow(ops, q, pieces, threads, steps, parts, out, rows, i);
    }
  }

  lemma ParallelRow(ops: FloatOps, q: AggQuery, pieces: seq<seq<Row>>, threads: nat, steps: seq<Schedules.Step>,
                    parts: seq<seq<Row>>, out: seq<Row>, rows: seq<Row>, i: nat)
    requires q.Valid() && SameWidth(rows, |q.types|) && SettledGroups(q, pieces, threads, rows) && i < |out|
    requires Dealt(pieces, threads, steps, parts, |q.types|) && PartsWide(parts, |q.types|) && ParallelIs(ops, q, out, rows, parts)
    ensures RowIs(ops, q, out[i], rows)
  {
    RowsAreWide(q, rows);
    KeyOfParallelRow(ops, q, out, rows, parts, i);
    RightWidth(ops, q, out, rows, parts, i);
    hide AggQuery.Valid, Dealt, PartsWide, Steady, KeysOf, ParallelIs, SameWidth, AggCellIs, KeyPrefix;
    forall a | 0 <= a < |q.aggs| ensures AggCellIs(ops, q, out[i], rows, a) {
      ParallelCell(ops, q, pieces, threads, steps, parts, out, rows, i, a);
    }
  }

  lemma KeyOfParallelRow(ops: FloatOps, q: AggQuery, out: seq<Row>, rows: seq<Row>, parts: seq<seq<Row>>, i: nat)
    requires q.Valid() && SameWidth(rows, |q.types|) && WideRows(rows, q.keys) && PartsWide(parts, |q.types|)
    requires ParallelIs(ops, q, out, rows, parts) && i < |out|
    ensures KeyPrefix(q, out[i]) in KeysOf(rows, q.keys)
  {
    hide RowRight, Concat, KeysOf, ParallelAggregates.KeyColumn;
    KeyOfRow(q, out, rows, i);
  }

  lemma ParallelCell(ops: FloatOps, q: AggQuery, pieces: seq<seq<Row>>, threads: nat, steps: seq<Schedules.Step>,
                     parts: seq<seq<Row>>, out: seq<Row>, rows: seq<Row>, i: nat, a: nat)
    requires q.Valid() && SameWidth(rows, |q.types|) && PartsWide(pieces, |q.types|) && i < |out| && a < |q.aggs|
    requires Dealt(pieces, threads, steps, parts, |q.types|) && PartsWide(parts, |q.types|) && ParallelIs(ops, q, out, rows, parts)
    requires |out[i]| == |q.keys| + |q.aggs| && Steady(q, pieces, threads, KeyPrefix(q, out[i]), a)
    ensures AggCellIs(ops, q, out[i], rows, a)
  {
    hide AggQuery.Valid, Dealt, PartsWide, Steady, ParallelIs, SameWidth, AggIs, KeyPrefix, GroupValues;
    SteadyIsRight(ops, q, pieces, threads, steps, parts, out, rows, i, a);
  }

  lemma RightWidth(ops: FloatOps, q: AggQuery, out: seq<Row>, rows: seq<Row>, parts: seq<seq<Row>>, i: nat)
    requires q.Valid() && SameWidth(rows, |q.types|) && PartsWide(parts, |q.types|) && ParallelIs(ops, q, out, rows, parts) && i < |out|
    ensures |out[i]| == |q.keys| + |q.aggs|
  {
    hide KeysOf, ParallelAggregates.KeyColumn, CellRight, CellTyped, Concat;
    assert RowRight(ops, q, out[i], rows, parts);
  }

  // ----- any two results -----

  ghost predicate PlanSumsExact(env: Env, ops: FloatOps, p: Plan)
    requires NodeOk(env, p)
    decreases p
  {
    match p
    case Sort(c, _) => PlanSumsExact(env, ops, c)
    case Aggregate(c, _, _) => SumsExact(ops, QueryOf(p), Sem(env, c))
    case _ => true
  }

  ghost predicate PlanTiesNothing(env: Env, p: Plan)
    requires NodeOk(env, p)
    decreases p
  {
    match p
    case Sort(c, _) => PlanTiesNothing(env, c)
    case Aggregate(_, _, _) => NoFloatExtremes(QueryOf(p))
    case _ => true
  }

  lemma CanonWithout(rows: seq<Row>, at: nat)
    requires at < |rows|
    ensures multiset(rows) == multiset(rows[..at] + rows[at + 1..]) + multiset{rows[at]}
    ensures multiset(CanonRows(rows)) == multiset(CanonRows(rows[..at] + rows[at + 1..])) + multiset{CanonRow(rows[at])}
  {
    hide CanonRow;
    RowsWithout(rows, at);
    var c, x, y := CanonRows(rows), rows[..at], rows[at + 1..];
    assert CanonRows(x + y) == c[..at] + c[at + 1..];
    assert c == c[..at] + ([c[at]] + c[at + 1..]);
    Middle(c[..at], c[at], c[at + 1..]);
  }

  /** Reordered rows are the same up to ties. */
  lemma {:induction false} ReorderedTies(x: seq<Row>, y: seq<Row>)
    requires multiset(x) == multiset(y)
    ensures SameUpToTies(x, y)
  {
    assert |multiset(x)| == |multiset(y)|;
    if x != [] {
      hide CanonRows, CanonRow;
      var n := |x| - 1;
      assert x[n] in multiset(y);
      var at :| 0 <= at < |y| && y[at] == x[n];
      CanonWithout(x, n);
      CanonWithout(y, at);
      assert x[..n] + x[n + 1..] == x[..n];
      Uncounted(multiset(x[..n]), multiset(y[..at] + y[at + 1..]), x[n]);
      ReorderedTies(x[..n], y[..at] + y[at + 1..]);
    }
  }

  /**
   Two results of one plan have the same rows up to the ties of doubles, and exactly the same
   rows where no extremum of doubles is asked for.
   */
  lemma {:induction false} PlanIsUnique(env: Env, ops: FloatOps, p: Plan, x: seq<Row>, y: seq<Row>)
    requires NodeOk(env, p) && FloatsOk(env.fl) && PlanSumsExact(env, ops, p)
    requires PlanIs(env, ops, p, x) && PlanIs(env, ops, p, y)
    ensures SameUpToTies(x, y)
    ensures PlanTiesNothing(env, p) ==> multiset(x) == multiset(y)
    decreases p
  {
    hide Sem, StreamOk, AllRoom, AggQuery.Valid, AggQuery.TypesOk, GroupsAre, OutputTypes, Sorted, IsStableSort, SumsExact, CanonRows, RowsFit,
      NoFloatExtremes, FloatsOk;
    match p {
      case Sort(c, ks) =>
        var a :| PlanIs(env, ops, c, a) && IsStableSort(ks, a, x, |OutputTypes(c)|);
        var b :| PlanIs(env, ops, c, b) && IsStableSort(ks, b, y, |OutputTypes(c)|);
        PlanIsUnique(env, ops, c, a, b);
        StableSortGives(ks, a, x, |OutputTypes(c)|);
        StableSortGives(ks, b, y, |OutputTypes(c)|);
        ReorderedTies(x, a);
        ReorderedTies(y, b);
      case Aggregate(c, _, _) =>
        ResultsAgree(ops, QueryOf(p), x, y, Sem(env, c));
        OutputTyped(env, c, Sem(env, c));
      case _ =>
        ReorderedTies(x, y);
    }
  }

  // ----- sorted results -----

  lemma CanonKeyCmp(k: SortKey, x: Cell, y: Cell)
    ensures KeyCmp(k, KeyCell(x), KeyCell(y)) == KeyCmp(k, x, y)
  {
    if x.Flt? && y.Flt? {
      F64.SameKeyIffTie(x.bits, y.bits);
      F64.TotalOrderIsRank(x.bits, y.bits);
      F64.TotalOrderIsRank(F64.Normalize(x.bits), F64.Normalize(y.bits));
      F64.SameKeyIffTie(y.bits, x.bits);
      hide F64.Rank, F64.CmpTotal, F64.Normalize;
    }
  }

  lemma {:induction false} CanonRowCmp(keys: seq<SortKey>, a: Row, b: Row)
    requires SortOrders.KeysFit(keys, |a|) && |a| == |b|
    ensures RowCmp(keys, CanonRow(a), CanonRow(b)) == RowCmp(keys, a, b)
  {
    hide KeyCmp, KeyCell;
    if keys != [] {
      CanonKeyCmp(keys[0], a[keys[0].col], b[keys[0].col]);
      CanonRowCmp(keys[1..], a, b);
    }
  }

  lemma CanonSorted(keys: seq<SortKey>, rows: seq<Row>, width: nat)
    requires SortOrders.KeysFit(keys, width) && SameWidth(rows, width) && Sorted(keys, rows, width)
    ensures SameWidth(CanonRows(rows), width) && Sorted(keys, CanonRows(rows), width)
  {
    hide RowCmp, CanonRow;
    var c := CanonRows(rows);
    forall i, j | 0 <= i < j < |c| ensures RowCmp(keys, c[i], c[j]) <= 0 { CanonRowCmp(keys, rows[i], rows[j]); }
  }

  /** The keys a plan's rows end up sorted by: the outermost sort's, then those of the sorts below it. */
  function AllKeys(p: Plan): seq<SortKey> {
    match p case Sort(c, ks) => ks + AllKeys(c) case _ => []
  }

  lemma {:induction false} AllKeysFit(env: Env, p: Plan)
    requires NodeOk(env, p)
    ensures SortOrders.KeysFit(AllKeys(p), |OutputTypes(p)|)
    decreases p
  {
    if p.Sort? {
      AllKeysFit(env, p.child);
      SortTypes(p);
    }
  }

  /** Each sort is stable, so what it leaves tied stands as the sorts below it left it. */
  lemma {:induction false} PlanSorted(env: Env, ops: FloatOps, p: Plan, out: seq<Row>)
    requires p.Sort? && NodeOk(env, p) && PlanIs(env, ops, p, out)
    ensures SortOrders.KeysFit(AllKeys(p), |OutputTypes(p)|) && SameWidth(out, |OutputTypes(p)|)
    ensures Sorted(AllKeys(p), out, |OutputTypes(p)|)
    decreases p
  {
    var c := p.child;
    var width := |OutputTypes(c)|;
    var rows :| PlanIs(env, ops, c, rows) && IsStableSort(p.sortKeys, rows, out, width);
    SortTypes(p);
    AllKeysFit(env, c);
    hide OutputTypes;
    if c.Sort? {
      PlanSorted(env, ops, c, rows);
    } else {
      assert Sorted([], rows, width);
    }
    hide Sorted;
    StableOverSorted(p.sortKeys, AllKeys(c), rows, out, width);
  }

  /**
   Two results of one sorted plan, however each was computed, tie at every position: on the
   outermost keys, then on the keys of each sort below.
   */
  lemma SortedResultsTie(env: Env, ops: FloatOps, p: Plan, x: seq<Row>, y: seq<Row>, i: nat)
    requires p.Sort? && NodeOk(env, p) && FloatsOk(env.fl) && PlanSumsExact(env, ops, p)
    requires PlanIs(env, ops, p, x) && PlanIs(env, ops, p, y) && i < |x|
    ensures |x| == |y| && |x[i]| == |y[i]| == |OutputTypes(p)|
    ensures SortOrders.KeysFit(AllKeys(p), |x[i]|) && RowCmp(AllKeys(p), x[i], y[i]) == 0
  {
    PlanIsUnique(env, ops, p, x, y);
    PlanSorted(env, ops, p, x);
    PlanSorted(env, ops, p, y);
    hide NodeOk, PlanIs, RowCmp, OutputTypes, CanonRow, FloatsOk, PlanSumsExact, AllKeys;
    var keys, width := AllKeys(p), |OutputTypes(p)|;
    CanonSorted(keys, x, width);
    CanonSorted(keys, y, width);
    hide Sorted;
    SchedulesTie(keys, CanonRows(x), CanonRows(y), width, i);
    CanonRowCmp(keys, x[i], y[i]);
  }

  /** Two runs of one plan under any two schedules, or one of them on one thread, agree up to ties. */
  lemma RunsAgree(env: Env, ops: FloatOps, p: Plan, run: Run, x: seq<Row>, other: Run, y: seq<Row>, single: seq<Row>)
    requires NodeOk(env, p) && FloatsOk(env.fl) && PlanSumsExact(env, ops, p)
    requires RunOk(env, p, run) && NodeIs(env, ops, p, run, x) && Settled(env, p, run)
    requires RunOk(env, p, other) && NodeIs(env, ops, p, other, y) && Settled(env, p, other)
    requires OneThread(env, ops, p, single)
    ensures SameUpToTies(x, y) && SameUpToTies(x, single)
    ensures PlanTiesNothing(env, p) ==> multiset(x) == multiset(y) == multiset(single)
  {
    hide NodeOk, RunOk, FloatsOk, PlanSumsExact, NodeIs, Settled, OneThread, PlanIs, CanonRows, PlanTiesNothing;
    RunIsPlan(env, ops, p, run, x);
    RunIsPlan(env, ops, p, other, y);
    OneThreadIsPlan(env, ops, p, single);
    PlanIsUnique(env, ops, p, x, y);
    PlanIsUnique(env, ops, p, x, single);
  }

  /** And where the plan sorts, they tie at every position. */
  lemma SortedOutcomesTie(env: Env, ops: FloatOps, p: Plan, run: Run, x: seq<Row>, other: Run, y: seq<Row>, single: seq<Row>, i: nat)
    requires p.Sort? && NodeOk(env, p) && FloatsOk(env.fl) && PlanSumsExact(env, ops, p)
    requires RunOk(env, p, run) && NodeIs(env, ops, p, run, x) && Settled(env, p, run)
    requires RunOk(env, p, other) && NodeIs(env, ops, p, other, y) && Settled(env, p, other)
    requires OneThread(env, ops, p, single) && i < |x|
    ensures |x| == |y| == |single| && |x[i]| == |y[i]| == |single[i]| == |OutputTypes(p)|
    ensures SortOrders.KeysFit(AllKeys(p), |x[i]|)
    ensures RowCmp(AllKeys(p), x[i], y[i]) == 0 && RowCmp(AllKeys(p), x[i], single[i]) == 0
  {
    hide NodeOk, RunOk, FloatsOk, PlanSumsExact, NodeIs, Settled, OneThread, PlanIs, OutputTypes, RowCmp, AllKeys;
    RunIsPlan(env, ops, p, run, x);
    RunIsPlan(env, ops, p, other, y);
    OneThreadIsPlan(env, ops, p, single);
    SortedResultsTie(env, ops, p, x, y, i);
    SortedResultsTie(env, ops, p, x, single, i);
  }
}
