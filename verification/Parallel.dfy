/**
 The parallel driver over streaming plans: each worker runs the morsels it takes through a
 private tree; the results are concatenated after the workers have joined.

 The schedule is a parameter, any complete run of the dispenser. The output is, as a
 multiset of rows, what one thread would give.
 */
module ParallelStreams {
  import opened Words
  import opened Columns
  import opened KeyRows
  import opened Exprs
  import opened Eval
  import opened Streams
  import opened Plans
  import opened Morsels
  import opened Schedules

  /** Codes enough, whichever stretch of the table a join's probe side runs over. */
  ghost predicate AllRoom(env: Env, p: Plan)
    requires StreamOk(env, p)
  {
    forall m: Morsel | m.start <= m.end <= Driver(env, p).nrows :: RoomFor(env, p, m)
  }

  ghost predicate RoomFor(env: Env, p: Plan, m: Morsel)
    requires StreamOk(env, p) && m.start <= m.end <= Driver(env, p).nrows
  {
    CutWidth(Driver(env, p), m);
    RoomOk(env, p, Cut(Driver(env, p).Rows(), m))
  }

  /** What a morsel gives. */
  function Piece(env: Env, p: Plan, m: Morsel): (out: seq<Row>)
    requires StreamOk(env, p) && m.start <= m.end <= Driver(env, p).nrows
    ensures SameWidth(out, |OutputTypes(p)|)
  {
    CutWidth(Driver(env, p), m);
    SemOn(env, p, Cut(Driver(env, p).Rows(), m))
  }

  function Pieces(env: Env, p: Plan, v: seq<Morsel>): (pieces: seq<seq<Row>>)
    requires StreamOk(env, p) && InTable(v, Driver(env, p).nrows)
    ensures |pieces| == |v|
  {
    seq(|v|, i requires 0 <= i < |v| => Piece(env, p, v[i]))
  }

  /** In table order, the pieces make the single-threaded output. */
  lemma {:induction false} PiecesJoin(env: Env, p: Plan, v: seq<Morsel>, n: nat)
    requires StreamOk(env, p) && Tiles(v, n) && n <= Driver(env, p).nrows
    ensures InTable(v, Driver(env, p).nrows)
    ensures SameWidth(Driver(env, p).Rows()[..n], |DrivingTypes(env, p)|)
    ensures Flat(Pieces(env, p, v), Upto(|v|)) == SemOn(env, p, Driver(env, p).Rows()[..n])
  {
    var t := Driver(env, p);
    TilesJoin(t.Rows(), v, n);
    CutWidth(t, Morsel(0, n));
    CutOfPrefix(t.Rows(), 0, n);
    hide SemOn, Table.Rows, StreamOk, Cut, Joined, Flat, Upto, Pieces;
    if v == [] {
      NoPieces(env, p, t.Rows());
    } else {
      var k := |v| - 1;
      var m := v[k];
      PiecesJoin(env, p, v[..k], m.start);
      CutWidth(t, m);
      CutOfPrefix(t.Rows(), m.start, n);
      SemConcat(env, p, t.Rows()[..m.start], Cut(t.Rows(), m));
      PiecesNext(env, p, v);
    }
  }

  lemma NoPieces(env: Env, p: Plan, rows: seq<Row>)
    requires StreamOk(env, p)
    ensures InTable([], Driver(env, p).nrows) && rows[..0] == []
    ensures Flat(Pieces(env, p, []), Upto(0)) == [] == SemOn(env, p, [])
  {
    SemNone(env, p);
  }

  lemma CutOfPrefix(rows: seq<Row>, a: nat, b: nat)
    requires a <= b <= |rows|
    ensures rows[..a] + Cut(rows, Morsel(a, b)) == rows[..b]
    ensures Cut(rows, Morsel(0, b)) == rows[..b]
  {
  }

  lemma PiecesNext(env: Env, p: Plan, v: seq<Morsel>)
    requires StreamOk(env, p) && InTable(v, Driver(env, p).nrows) && v != []
    ensures var k := |v| - 1;
      && InTable(v[..k], Driver(env, p).nrows)
      && Flat(Pieces(env, p, v), Upto(|v|)) == Flat(Pieces(env, p, v[..k]), Upto(k)) + Piece(env, p, v[k])
  {
    hide StreamOk, Piece;
    var k := |v| - 1;
    var pieces := Pieces(env, p, v);
    assert Upto(k + 1)[..k] == Upto(k);
    FlatPrefix(pieces, Pieces(env, p, v[..k]), Upto(k));
  }

  lemma {:induction false} FlatPrefix<T>(pieces: seq<seq<T>>, init: seq<seq<T>>, order: seq<nat>)
    requires init <= pieces && forall i | 0 <= i < |order| :: order[i] < |init|
    ensures Flat(pieces, order) == Flat(init, order)
  {
    if order != [] { FlatPrefix(pieces, init, order[..|order| - 1]); }
  }

  /** Each worker has exactly the pieces of the morsels it finished. */
  ghost predicate PartsOk(pieces: seq<seq<Row>>, workers: seq<Worker>, parts: seq<seq<Row>>) {
    && |parts| == |workers|
    && forall w | 0 <= w < |workers| :: PartOk(pieces, workers[w], parts[w])
  }

  ghost predicate PartOk(pieces: seq<seq<Row>>, x: Worker, part: seq<Row>) {
    && (forall i | 0 <= i < |x.finished| :: x.finished[i] < |pieces|)
    && (x.Busy? ==> x.morsel < |pieces|)
    && part == Flat(pieces, x.finished)
  }

  lemma PartNext(pieces: seq<seq<Row>>, x: Worker, part: seq<Row>)
    requires PartOk(pieces, x, part) && x.Busy?
    ensures PartOk(pieces, Idle(x.finished + [x.morsel]), part + pieces[x.morsel])
  {
    FlatConcat(pieces, x.finished, [x.morsel]);
    FlatOne(pieces, x.morsel);
  }

  /** The exchange: the workers' parts, concatenated. */
  function Concat(parts: seq<seq<Row>>): seq<Row> {
    if parts == [] then [] else Concat(parts[..|parts| - 1]) + parts[|parts| - 1]
  }

  lemma {:induction false} ConcatIsFlat(pieces: seq<seq<Row>>, workers: seq<Worker>, parts: seq<seq<Row>>)
    requires PartsOk(pieces, workers, parts)
    ensures forall i | 0 <= i < |Order(workers)| :: Order(workers)[i] < |pieces|
    ensures Concat(parts) == Flat(pieces, Order(workers))
  {
    if workers != [] {
      var n := |workers| - 1;
      ConcatIsFlat(pieces, workers[..n], parts[..n]);
      assert PartOk(pieces, workers[n], parts[n]);
      FlatConcat(pieces, Order(workers[..n]), workers[n].finished);
    }
  }

  /**
   Run a streaming plan under a schedule. `None` only when a build side exhausts the
   group ids.
   */
  method RunStreaming(env: Env, p: Plan, threads: nat, v: seq<Morsel>, run: seq<Step>,
                      be: Backend, combine: Combine, seed: u64)
    returns (out: Option<seq<Row>>)
    requires StreamOk(env, p) && AllRoom(env, p) && be.Valid() && FloatsOk(env.fl) && threads > 0
    requires Tiles(v, Driver(env, p).nrows)
    requires IsRun(Init(threads), |v|, run) && Final(AfterRun(Init(threads), |v|, run))
    ensures out.None? ==> TooManyGroups(env, p)
    ensures out.Some? ==> multiset(out.value) == multiset(Sem(env, p))
  {
    PiecesJoin(env, p, v, Driver(env, p).nrows);
    ghost var pieces := Pieces(env, p, v);
    hide StreamOk, AllRoom, Tiles, PartOk, FloatsOk, Flat, Order, Sem, SemOn, Table.Rows, Piece;
    var s := Init(threads);
    var parts: seq<seq<Row>> := seq(threads, _ => []);
    PartsStart(pieces, threads);
    for k := 0 to |run|
      invariant IsRun(Init(threads), |v|, run[..k]) && s == AfterRun(Init(threads), |v|, run[..k])
      invariant PartsOk(pieces, s.workers, parts)
    {
      RunPrefix(Init(threads), |v|, run, k);
      var step := run[k];
      match step
      case Fetch(w) =>
        FetchKeeps(pieces, s, step, parts);
        s := After(s, |v|, step);
      case Finish(w) =>
        var x := s.workers[w];
        BusyBelow(pieces, s, w, parts);
        var rows := RunPiece(env, p, v[x.morsel], be, combine, seed);
        if rows.None? { return None; }
        FinishKeeps(pieces, s, step, parts);
        parts := parts[w := parts[w] + rows.value];
        s := After(s, |v|, step);
    }
    assert run[..|run|] == run;
    CollectsAll(pieces, threads, run);
    ConcatIsFlat(pieces, s.workers, parts);
    WholeTable(env, p);
    out := Some(Concat(parts));
  }

  lemma WholeTable(env: Env, p: Plan)
    requires StreamOk(env, p)
    ensures SameWidth(Driver(env, p).Rows()[..Driver(env, p).nrows], |DrivingTypes(env, p)|)
    ensures SemOn(env, p, Driver(env, p).Rows()[..Driver(env, p).nrows]) == Sem(env, p)
  {
    CutWidth(Driver(env, p), Morsel(0, Driver(env, p).nrows));
    assert Driver(env, p).Rows()[..Driver(env, p).nrows] == Driver(env, p).Rows();
  }

  method RunPiece(env: Env, p: Plan, m: Morsel, be: Backend, combine: Combine, seed: u64) returns (rows: Option<seq<Row>>)
    requires StreamOk(env, p) && AllRoom(env, p) && be.Valid() && FloatsOk(env.fl)
    requires m.start <= m.end <= Driver(env, p).nrows && m.start % 64 == 0
    ensures rows.None? ==> TooManyGroups(env, p)
    ensures rows.Some? ==> rows.value == Piece(env, p, m)
  {
    CutWidth(Driver(env, p), m);
    assert RoomFor(env, p, m);
    hide StreamOk, SemOn, Table.Rows, AllRoom, Batch.Valid;
    var r := RunMorsel(env, p, m, be, combine, seed);
    rows := if r.Some? then Some(RowsOf(r.value)) else None;
  }

  lemma PartsStart(pieces: seq<seq<Row>>, threads: nat)
    ensures PartsOk(pieces, Init(threads).workers, seq(threads, _ => []))
  {
  }

  lemma {:induction false} RunPrefix(s: Pool, n: nat, run: seq<Step>, k: nat)
    requires IsRun(s, n, run) && k < |run|
    ensures IsRun(s, n, run[..k]) && IsRun(s, n, run[..k + 1])
    ensures Enabled(AfterRun(s, n, run[..k]), run[k])
    ensures AfterRun(s, n, run[..k + 1]) == After(AfterRun(s, n, run[..k]), n, run[k])
    decreases |run|
  {
    var init := run[..|run| - 1];
    if k < |run| - 1 {
      RunPrefix(s, n, init, k);
      assert init[..k] == run[..k] && init[..k + 1] == run[..k + 1];
    } else {
      assert run[..k] == init && run[..k + 1] == run;
    }
  }

  lemma FetchKeeps(pieces: seq<seq<Row>>, s: Pool, step: Step, parts: seq<seq<Row>>)
    requires step.Fetch? && Enabled(s, step) && PartsOk(pieces, s.workers, parts)
    ensures PartsOk(pieces, After(s, |pieces|, step).workers, parts)
  {
    assert PartOk(pieces, s.workers[step.w], parts[step.w]);
  }

  lemma BusyBelow(pieces: seq<seq<Row>>, s: Pool, w: nat, parts: seq<seq<Row>>)
    requires w < |s.workers| && s.workers[w].Busy? && PartsOk(pieces, s.workers, parts)
    ensures s.workers[w].morsel < |pieces|
  {
    assert PartOk(pieces, s.workers[w], parts[w]);
  }

  lemma FinishKeeps(pieces: seq<seq<Row>>, s: Pool, step: Step, parts: seq<seq<Row>>)
    requires step.Finish? && Enabled(s, step) && PartsOk(pieces, s.workers, parts)
    requires s.workers[step.w].morsel < |pieces|
    ensures PartsOk(pieces, After(s, |pieces|, step).workers,
                    parts[step.w := parts[step.w] + pieces[s.workers[step.w].morsel]])
  {
    hide PartOk;
    PartNext(pieces, s.workers[step.w], parts[step.w]);
  }
}
