/**
 Morsels: 64-aligned stretches of the driving table, and the private operator tree that
 runs a streaming plan over one of them.
 */
module Morsels {
  import opened Words
  import opened Columns
  import opened KeyRows
  import opened HashTables
  import opened Exprs
  import opened Eval
  import opened Streams
  import opened Plans
  import HashJoins

  datatype Morsel = Morsel(start: nat, end: nat)

  const DEFAULT_MORSEL_ROWS: nat := 1024

  /** The configured granularity; `None` where the driver refuses it. */
  function MorselRows(configured: nat): (r: Option<nat>)
    ensures r.None? <==> configured % 64 != 0
    ensures r.Some? ==> r.value > 0 && r.value % 64 == 0 && (configured != 0 ==> r.value == configured)
  {
    var m := if configured == 0 then DEFAULT_MORSEL_ROWS else configured;
    if m % 64 != 0 then None else Some(m)
  }

  /** The rows of a morsel. */
  function Cut<T>(rows: seq<T>, m: Morsel): seq<T>
    requires m.start <= m.end <= |rows|
  {
    rows[m.start..m.end]
  }

  ghost predicate InTable(morsels: seq<Morsel>, total: nat) {
    forall i | 0 <= i < |morsels| ::
      morsels[i].start <= morsels[i].end <= total && morsels[i].start % 64 == 0
  }

  /** The morsels' rows, one after another. */
  function Joined<T>(rows: seq<T>, morsels: seq<Morsel>): seq<T>
    requires InTable(morsels, |rows|)
  {
    if morsels == [] then []
    else Joined(rows, morsels[..|morsels| - 1]) + Cut(rows, morsels[|morsels| - 1])
  }

  /** Each morsel begins where the last one ended, up to row `n`. */
  ghost predicate Tiles(v: seq<Morsel>, n: nat) {
    if v == [] then n == 0
    else
      var m := v[|v| - 1];
      m.start % 64 == 0 && m.start <= m.end == n && Tiles(v[..|v| - 1], m.start)
  }

  /** Cut a table into morsels; an empty table has one empty morsel. */
  method MakeMorsels(total: nat, morselRows: nat) returns (v: seq<Morsel>)
    requires morselRows > 0 && morselRows % 64 == 0
    ensures v != [] && Tiles(v, total)
    ensures forall i | 0 <= i < |v| - 1 :: v[i].end - v[i].start == morselRows
    ensures v[|v| - 1].end - v[|v| - 1].start <= morselRows && (total > 0 ==> v[|v| - 1].start < total)
  {
    v := [];
    var s := 0;
    while s < total
      invariant s % 64 == 0 && (s > 0 <==> v != []) && Tiles(v, Min(s, total))
      invariant forall i | 0 <= i < |v| && (i < |v| - 1 || s <= total) :: v[i].end - v[i].start == morselRows
      invariant v != [] ==> v[|v| - 1].end - v[|v| - 1].start <= morselRows && v[|v| - 1].start < total
    {
      var m := Morsel(s, Min(s + morselRows, total));
      assert (v + [m])[..|v|] == v;
      v := v + [m];
      s := s + morselRows;
    }
    if v == [] {
      v := [Morsel(0, 0)];
      assert [Morsel(0, 0)][..0] == [];
    }
  }

  /** Tiling morsels partition the rows: every row once, in order. */
  lemma {:induction false} TilesJoin<T>(rows: seq<T>, v: seq<Morsel>, n: nat)
    requires Tiles(v, n) && n <= |rows|
    ensures InTable(v, |rows|) && Joined(rows, v) == rows[..n]
  {
    if v != [] {
      var m, init := v[|v| - 1], v[..|v| - 1];
      TilesJoin(rows, init, m.start);
      forall i | 0 <= i < |v| ensures v[i].start <= v[i].end <= |rows| && v[i].start % 64 == 0 {
        if i < |init| { assert v[i] == init[i]; }
      }
      assert rows[..m.start] + rows[m.start..m.end] == rows[..m.end];
    }
  }

  // ----- running a plan over a morsel -----

  /** Every join has codes enough for its key strings. */
  ghost predicate RoomOk(env: Env, p: Plan, driving: seq<Row>)
    requires StreamOk(env, p) && SameWidth(driving, |DrivingTypes(env, p)|)
    decreases p
  {
    match p
    case Scan(_) => true
    case Filter(c, _) => RoomOk(env, c, driving)
    case Project(c, _) => RoomOk(env, c, driving)
    case Join(l, r, _, _, _) =>
      RoomOk(env, l, driving)
      && HashJoins.CodesFit(JoinSpecOf(p), SemOn(env, l, driving), RowsOf(env.lower(r)))
  }

  /** Some build side has more rows than there are group ids. */
  ghost predicate TooManyGroups(env: Env, p: Plan)
    requires StreamOk(env, p)
    decreases p
  {
    match p
    case Scan(_) => false
    case Filter(c, _) => TooManyGroups(env, c)
    case Project(c, _) => TooManyGroups(env, c)
    case Join(l, r, _, _, _) => TooManyGroups(env, l) || |RowsOf(env.lower(r))| > NO_GROUP
  }

  /** The driving table of a streaming plan. */
  function Driver(env: Env, p: Plan): (t: Table)
    requires StreamOk(env, p)
    ensures t.Valid() && TableTypes(t) == DrivingTypes(env, p)
  {
    DrivingIsLeftmost(env, p);
    LeftmostScanTable(p).value
  }

  lemma DriverOfChild(env: Env, p: Plan)
    requires StreamOk(env, p) && !p.Scan?
    ensures var c := if p.Join? then p.probe else p.child; StreamOk(env, c) && Driver(env, p) == Driver(env, c)
  {
  }

  lemma CutWidth(t: Table, m: Morsel)
    requires t.Valid() && m.start <= m.end <= t.nrows
    ensures SameWidth(Cut(t.Rows(), m), |TableTypes(t)|)
  {
  }

  /**
   Run the private tree of a morsel to the end: its rows are the plan's output for the
   morsel's rows. `None` only when a build side exhausts the group ids.
   */
  method RunMorsel(env: Env, p: Plan, m: Morsel, be: Backend, combine: Combine, seed: u64) returns (out: Option<seq<Batch>>)
    requires StreamOk(env, p) && be.Valid() && FloatsOk(env.fl)
    requires m.start <= m.end <= Driver(env, p).nrows && m.start % 64 == 0
    requires SameWidth(Cut(Driver(env, p).Rows(), m), |DrivingTypes(env, p)|)
    requires RoomOk(env, p, Cut(Driver(env, p).Rows(), m))
    ensures out.None? ==> TooManyGroups(env, p)
    ensures out.Some? ==>
      && Conforms(out.value, OutputTypes(p))
      && RowsOf(out.value) == SemOn(env, p, Cut(Driver(env, p).Rows(), m))
    decreases p
  {
    hide FilterRows, ProjectRows, HashJoins.NestedLoopJoin, WellTyped, AllWellTyped, FloatsOk, RowsOf, Table.Rows, Cut, Batch.Valid;
    match p {
      case Scan(t) =>
        out := RunScan(env, t, m);
      case Filter(c, e) =>
        DriverOfChild(env, p);
        var input := RunMorsel(env, c, m, be, combine, seed);
        if input.None? { return None; }
        var r := FilterAll(env.fl, e, OutputTypes(c), input.value, be);
        out := Some(r);
      case Project(c, es) =>
        DriverOfChild(env, p);
        var input := RunMorsel(env, c, m, be, combine, seed);
        if input.None? { return None; }
        var r := ProjectAll(env.fl, es, OutputTypes(c), input.value, be);
        out := Some(r);
      case Join(l, r, _, _, _) =>
        DriverOfChild(env, p);
        var input := RunMorsel(env, l, m, be, combine, seed);
        if input.None? { return None; }
        var j := HashJoins.JoinAll(JoinSpecOf(p), input.value, env.lower(r), combine, seed);
        if j.Batches? {
          out := Some(j.batches);
          JoinedMeaning(env, p, input.value, m);
        } else {
          out := None;
        }
    }
  }

  method RunScan(env: Env, t: Table, m: Morsel) returns (out: Option<seq<Batch>>)
    requires t.Valid() && m.start <= m.end <= t.nrows && m.start % 64 == 0
    requires SameWidth(Cut(t.Rows(), m), |TableTypes(t)|)
    ensures out.Some? && Conforms(out.value, OutputTypes(Scan(t)))
    ensures RowsOf(out.value) == Cut(t.Rows(), m) == SemOn(env, Scan(t), Cut(t.Rows(), m))
  {
    hide RowsOf, Batch.Valid;
    out := ScanRange(t, m.start, m.end, SCAN_BATCH);
  }

  lemma JoinedMeaning(env: Env, p: Plan, input: seq<Batch>, m: Morsel)
    requires StreamOk(env, p) && p.Join?
    requires m.start <= m.end <= Driver(env, p).nrows
    requires SameWidth(Cut(Driver(env, p).Rows(), m), |DrivingTypes(env, p)|)
    requires Conforms(input, OutputTypes(p.probe))
    requires RowsOf(input) == SemOn(env, p.probe, Cut(Driver(env, p).Rows(), m))
    ensures HashJoins.InputsOk(JoinSpecOf(p), input, env.lower(p.build))
    ensures HashJoins.Joined(JoinSpecOf(p), input, env.lower(p.build))
         == SemOn(env, p, Cut(Driver(env, p).Rows(), m))
  {
    hide HashJoins.NestedLoopJoin, RowsOf, Table.Rows, Cut, Batch.Valid, Conforms;
  }
}
