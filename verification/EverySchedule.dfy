/**
 When the extrema of doubles come out right whatever the schedule: a condition on what the
 morsels hold of a group, and nothing else.

 With one thread they always do. With more, some schedule goes wrong as soon as two morsels
 that have a value of the group disagree on whether their extremum is a NaN.
 */
module EverySchedules {
  import opened Words
  import opened Columns
  import opened KeyRows
  import opened KeyCodes
  import opened AggMeaning
  import opened AggMerge
  import opened GroupBy
  import opened GroupMerge
  import opened PartialAggs
  import opened PartialMaps
  import opened Schedules
  import opened Assignments
  import opened ParallelStreams
  import opened ParallelAggregates

  /** What each morsel holds of a group. */
  function PieceValues(spec: AggSpec, pieces: seq<seq<Row>>, keys: seq<nat>, key: Row, width: nat): (pv: seq<seq<Cell>>)
    requires PartsWide(pieces, width) && Reads(spec, keys, width)
    ensures |pv| == |pieces|
  {
    GroupParts(spec, pieces, keys, key, width)
  }

  /** The morsels with a value agree on whether their extremum is a NaN. */
  ghost predicate Uniform(func: AggFunc, pv: seq<seq<Cell>>) {
    forall i, j | 0 <= i < |pv| && 0 <= j < |pv| && NonNull(pv[i]) > 0 && NonNull(pv[j]) > 0 ::
      ExtremeNaN(func, pv[i]) <==> ExtremeNaN(func, pv[j])
  }

  /** In the words of each extremum. */
  lemma UniformMeans(func: AggFunc, pv: seq<seq<Cell>>)
    requires func.Min? || func.Max?
    ensures Uniform(func, pv) <==>
      || (forall i | 0 <= i < |pv| && NonNull(pv[i]) > 0 :: ExtremeNaN(func, pv[i]))
      || (forall i | 0 <= i < |pv| && NonNull(pv[i]) > 0 :: !ExtremeNaN(func, pv[i]))
  {
    hide ExtremeNaN;
  }

  /** Under this complete schedule, `parts` is what the workers saw. */
  ghost predicate Dealt(pieces: seq<seq<Row>>, threads: nat, run: seq<Step>, parts: seq<seq<Row>>, width: nat) {
    && Complete(threads, |pieces|, run)
    && PartsOk(pieces, AfterRun(Init(threads), |pieces|, run).workers, parts) && PartsWide(parts, width)
  }

  // ----- uniform morsels are safe -----

  /** If there is a value, the extremum is a NaN exactly if `u`. */
  ghost predicate Kind(func: AggFunc, vals: seq<Cell>, u: bool) { NonNull(vals) > 0 ==> (ExtremeNaN(func, vals) <==> u) }

  lemma KindConcat(func: AggFunc, a: seq<Cell>, b: seq<Cell>, u: bool)
    requires (func.Min? || func.Max?) && Kind(func, a, u) && Kind(func, b, u)
    ensures Kind(func, a + b, u)
  {
    hide CellNaN;
    NonNullConcat(a, b);
    AllNullIffNone(a);
    AllNullIffNone(b);
    NullsAreNoNaNs(a);
    NullsAreNoNaNs(b);
    assert forall v :: v in a + b <==> v in a || v in b;
  }

  lemma NullsAreNoNaNs(vals: seq<Cell>)
    ensures forall v | v in vals && v.Null? :: !CellNaN(v)
  {
  }

  lemma {:induction false} WholeKind(func: AggFunc, parts: seq<seq<Cell>>, u: bool)
    requires (func.Min? || func.Max?) && forall w | 0 <= w < |parts| :: Kind(func, parts[w], u)
    ensures Kind(func, Whole(parts), u)
    ensures NonNull(Whole(parts)) > 0 ==> (FirstNaN(func, parts) <==> u)
  {
    hide ExtremeNaN;
    if parts != [] {
      var n := |parts| - 1;
      WholeKind(func, parts[..n], u);
      NonNullConcat(Whole(parts[..n]), parts[n]);
      KindConcat(func, Whole(parts[..n]), parts[n], u);
    }
  }

  /** A worker that did only such morsels holds such values. */
  lemma {:induction false} FlatKind(spec: AggSpec, pieces: seq<seq<Row>>, order: seq<nat>, keys: seq<nat>, key: Row, width: nat, u: bool)
    requires (spec.func.Min? || spec.func.Max?) && PartsWide(pieces, width) && Reads(spec, keys, width)
    requires forall i | 0 <= i < |order| :: order[i] < |pieces|
    requires forall i | 0 <= i < |pieces| :: Kind(spec.func, GroupValues(spec, pieces[i], keys, key, width), u)
    ensures SameWidth(Flat(pieces, order), width)
    ensures Kind(spec.func, GroupValues(spec, Flat(pieces, order), keys, key, width), u)
  {
    if order == [] {
      NoValues(spec, keys, key, width);
    } else {
      hide Kind, GroupValues, SameWidth, Reads;
      var n := |order| - 1;
      FlatKind(spec, pieces, order[..n], keys, key, width, u);
      var a, b := Flat(pieces, order[..n]), pieces[order[n]];
      GroupValuesConcat(spec, a, b, keys, key, width);
      KindConcat(spec.func, GroupValues(spec, a, keys, key, width), GroupValues(spec, b, keys, key, width), u);
    }
  }

  /** Uniform morsels merge safely under every schedule. */
  lemma UniformIsSafe(spec: AggSpec, pieces: seq<seq<Row>>, workers: seq<Worker>, parts: seq<seq<Row>>, keys: seq<nat>, key: Row, width: nat)
    requires (spec.func.Min? || spec.func.Max?) && PartsWide(pieces, width) && PartsWide(parts, width) && Reads(spec, keys, width)
    requires PartsOk(pieces, workers, parts) && Uniform(spec.func, PieceValues(spec, pieces, keys, key, width))
    ensures MergeSafe(spec.func, GroupParts(spec, parts, keys, key, width))
  {
    var pv, gp := PieceValues(spec, pieces, keys, key, width), GroupParts(spec, parts, keys, key, width);
    UniformMeans(spec.func, pv);
    hide ExtremeNaN, Uniform, GroupValues, SameWidth, FirstNaN, Reads;
    var u := forall i | 0 <= i < |pv| && NonNull(pv[i]) > 0 :: ExtremeNaN(spec.func, pv[i]);
    forall i | 0 <= i < |pieces| ensures Kind(spec.func, GroupValues(spec, pieces[i], keys, key, width), u) {
      assert pv[i] == GroupValues(spec, pieces[i], keys, key, width);
    }
    forall w | 0 <= w < |gp| ensures Kind(spec.func, gp[w], u) {
      assert PartOk(pieces, workers[w], parts[w]);
      FlatKind(spec, pieces, workers[w].finished, keys, key, width, u);
    }
    WholeKind(spec.func, gp, u);
  }

  // ----- others are not -----

  lemma {:induction false} FirstDecides(func: AggFunc, parts: seq<seq<Cell>>)
    requires parts != [] && NonNull(parts[0]) > 0
    ensures FirstNaN(func, parts) <==> ExtremeNaN(func, parts[0])
    ensures NonNull(Whole(parts)) > 0
  {
    hide ExtremeNaN;
    var n := |parts| - 1;
    NonNullConcat(Whole(parts[..n]), parts[n]);
    if n > 0 { FirstDecides(func, parts[..n]); }
  }

  lemma {:induction false} InWhole(parts: seq<seq<Cell>>, w: nat, v: Cell)
    requires w < |parts| && v in parts[w]
    ensures v in Whole(parts)
  {
    if w < |parts| - 1 { InWhole(parts[..|parts| - 1], w, v); }
  }

  lemma {:induction false} InFlat(spec: AggSpec, pieces: seq<seq<Row>>, order: seq<nat>, d: nat, keys: seq<nat>, key: Row, width: nat, v: Cell)
    requires PartsWide(pieces, width) && Reads(spec, keys, width)
    requires (forall i | 0 <= i < |order| :: order[i] < |pieces|) && d in order
    requires v in GroupValues(spec, pieces[d], keys, key, width)
    ensures SameWidth(Flat(pieces, order), width) && v in GroupValues(spec, Flat(pieces, order), keys, key, width)
  {
    hide GroupValues, SameWidth, Reads;
    var n := |order| - 1;
    FlatWide(pieces, order[..n], width);
    GroupValuesConcat(spec, Flat(pieces, order[..n]), pieces[order[n]], keys, key, width);
    if order[n] != d { InFlat(spec, pieces, order[..n], d, keys, key, width, v); }
  }

  lemma {:induction false} FlatWide(pieces: seq<seq<Row>>, order: seq<nat>, width: nat)
    requires PartsWide(pieces, width) && forall i | 0 <= i < |order| :: order[i] < |pieces|
    ensures SameWidth(Flat(pieces, order), width)
  {
    if order != [] { FlatWide(pieces, order[..|order| - 1], width); }
  }

  /** The parts of the schedule that keeps morsel `c` apart. */
  function ApartParts(pieces: seq<seq<Row>>, threads: nat, c: nat): (parts: seq<seq<Row>>)
    ensures |parts| == threads
  {
    seq(threads, w requires 0 <= w < threads => Flat(pieces, Owned(Apart(|pieces|, c), w)))
  }

  /** Two parts that disagree, the misleading one first. */
  lemma DisagreeingParts(func: AggFunc, parts: seq<seq<Cell>>, w: nat, b: seq<Cell>)
    requires (func.Min? || func.Max?) && w < |parts| && NonNull(parts[0]) > 0 && NonNull(b) > 0
    requires ExtremeNaN(func, parts[0]) == func.Min? && ExtremeNaN(func, b) == func.Max?
    requires forall v | v in b :: v in parts[w]
    ensures !MergeSafe(func, parts)
  {
    hide CellNaN, FirstNaN, Whole, NonNull;
    FirstDecides(func, parts);
    if func.Min? {
      var v :| v in b && !v.Null? && !CellNaN(v);
      InWhole(parts, w, v);
    } else {
      var v :| v in b && CellNaN(v);
      InWhole(parts, w, v);
    }
  }

  /** If two morsels disagree, some schedule of two or more workers merges unsafely. */
  lemma DisagreementIsUnsafe(spec: AggSpec, pieces: seq<seq<Row>>, threads: nat, keys: seq<nat>, key: Row, width: nat)
    returns (run: seq<Step>, parts: seq<seq<Row>>)
    requires (spec.func.Min? || spec.func.Max?) && PartsWide(pieces, width) && Reads(spec, keys, width) && threads >= 2
    requires !Uniform(spec.func, PieceValues(spec, pieces, keys, key, width))
    ensures Dealt(pieces, threads, run, parts, width)
    ensures !MergeSafe(spec.func, GroupParts(spec, parts, keys, key, width))
  {
    hide ExtremeNaN, GroupValues, SameWidth, Reads, MergeSafe;
    var pv := PieceValues(spec, pieces, keys, key, width);
    var c, d := Disagreement(spec.func, pv);
    var n := |pieces|;
    run := EveryAssignment(threads, Apart(n, c));
    parts := ApartParts(pieces, threads, c);
    forall w: nat | w < threads ensures SameWidth(parts[w], width) { FlatWide(pieces, Owned(Apart(n, c), w), width); }
    ApartHolds(spec, pieces, threads, c, d, keys, key, width);
    DisagreeingParts(spec.func, GroupParts(spec, parts, keys, key, width), 1, pv[d]);
  }

  /** A morsel whose extremum misleads when it is first, and one that it misleads about. */
  lemma Disagreement(func: AggFunc, pv: seq<seq<Cell>>) returns (c: nat, d: nat)
    requires (func.Min? || func.Max?) && !Uniform(func, pv)
    ensures c < |pv| && d < |pv| && c != d && NonNull(pv[c]) > 0 && NonNull(pv[d]) > 0
    ensures ExtremeNaN(func, pv[c]) == func.Min? && ExtremeNaN(func, pv[d]) == func.Max?
  {
    hide ExtremeNaN;
    var i, j :| 0 <= i < |pv| && 0 <= j < |pv| && NonNull(pv[i]) > 0 && NonNull(pv[j]) > 0
             && ExtremeNaN(func, pv[i]) != ExtremeNaN(func, pv[j]);
    if ExtremeNaN(func, pv[i]) == func.Min? { c, d := i, j; } else { c, d := j, i; }
  }

  lemma ApartHolds(spec: AggSpec, pieces: seq<seq<Row>>, threads: nat, c: nat, d: nat, keys: seq<nat>, key: Row, width: nat)
    requires PartsWide(pieces, width) && Reads(spec, keys, width) && threads >= 2
    requires c < |pieces| && d < |pieces| && c != d && PartsWide(ApartParts(pieces, threads, c), width)
    ensures var gp, pv := GroupParts(spec, ApartParts(pieces, threads, c), keys, key, width), PieceValues(spec, pieces, keys, key, width);
      gp[0] == pv[c] && forall v | v in pv[d] :: v in gp[1]
  {
    hide GroupValues, SameWidth, Reads, Apart, Owned, Flat;
    var n := |pieces|;
    ApartDealt(pieces, c, d);
    forall v | v in GroupValues(spec, pieces[d], keys, key, width)
      ensures v in GroupParts(spec, ApartParts(pieces, threads, c), keys, key, width)[1]
    {
      InFlat(spec, pieces, Owned(Apart(n, c), 1), d, keys, key, width, v);
    }
  }

  lemma ApartDealt(pieces: seq<seq<Row>>, c: nat, d: nat)
    requires c < |pieces| && d < |pieces| && c != d
    ensures Flat(pieces, Owned(Apart(|pieces|, c), 0)) == pieces[c] && d in Owned(Apart(|pieces|, c), 1)
    ensures forall i | 0 <= i < |Owned(Apart(|pieces|, c), 1)| :: Owned(Apart(|pieces|, c), 1)[i] < |pieces|
  {
    var n := |pieces|;
    ApartAlone(n, c, n);
    ApartRest(n, c, n, d);
    assert Apart(n, c)[..n] == Apart(n, c);
    hide Flat;
    FlatOne(pieces, c);
  }

  // ----- the condition -----

  /** The merge of a group is safe under every complete schedule of the threads. */
  ghost predicate AlwaysSafe(spec: AggSpec, pieces: seq<seq<Row>>, threads: nat, keys: seq<nat>, key: Row, width: nat)
    requires Reads(spec, keys, width)
  {
    forall run: seq<Step>, parts: seq<seq<Row>> | Dealt(pieces, threads, run, parts, width) ::
      MergeSafe(spec.func, GroupParts(spec, parts, keys, key, width))
  }

  /**
   With two or more threads an extremum of doubles is merged safely under every schedule
   exactly if the morsels that have a value of the group agree: for a minimum all of them
   or none hold nothing but NaNs, for a maximum all of them or none hold a NaN.
   */
  lemma AlwaysSafeIffUniform(spec: AggSpec, pieces: seq<seq<Row>>, threads: nat, keys: seq<nat>, key: Row, width: nat)
    requires (spec.func.Min? || spec.func.Max?) && PartsWide(pieces, width) && Reads(spec, keys, width) && threads >= 2
    ensures AlwaysSafe(spec, pieces, threads, keys, key, width) <==> Uniform(spec.func, PieceValues(spec, pieces, keys, key, width))
  {
    hide Uniform, MergeSafe, Dealt, PartsWide, Reads;
    if Uniform(spec.func, PieceValues(spec, pieces, keys, key, width)) {
      forall run: seq<Step>, parts: seq<seq<Row>> | Dealt(pieces, threads, run, parts, width)
        ensures PartsWide(parts, width) && MergeSafe(spec.func, GroupParts(spec, parts, keys, key, width))
      {
        DealtIsSafe(spec, pieces, threads, run, parts, keys, key, width);
      }
    } else {
      var run, parts := DisagreementIsUnsafe(spec, pieces, threads, keys, key, width);
      DealtWide(pieces, threads, run, parts, width);
    }
  }

  lemma DealtWide(pieces: seq<seq<Row>>, threads: nat, run: seq<Step>, parts: seq<seq<Row>>, width: nat)
    requires Dealt(pieces, threads, run, parts, width)
    ensures PartsWide(parts, width) && |parts| == threads
  {
    hide PartsWide, Final, IsRun, AfterRun;
  }

  /** Where one thread runs, or the morsels agree, a schedule merges safely. */
  lemma DealtIsSafe(spec: AggSpec, pieces: seq<seq<Row>>, threads: nat, run: seq<Step>, parts: seq<seq<Row>>,
                    keys: seq<nat>, key: Row, width: nat)
    requires (spec.func.Min? || spec.func.Max?) && PartsWide(pieces, width) && Reads(spec, keys, width)
    requires threads == 1 || Uniform(spec.func, PieceValues(spec, pieces, keys, key, width))
    requires Dealt(pieces, threads, run, parts, width)
    ensures PartsWide(parts, width) && MergeSafe(spec.func, GroupParts(spec, parts, keys, key, width))
  {
    hide Uniform, MergeSafe, PartsOk, PartsWide, Reads, Final, PieceValues;
    DealtWide(pieces, threads, run, parts, width);
    if threads == 1 {
      OnePart(spec.func, GroupParts(spec, parts, keys, key, width));
    } else {
      UniformIsSafe(spec, pieces, AfterRun(Init(threads), |pieces|, run).workers, parts, keys, key, width);
    }
  }

  /** One thread merges nothing, so its extrema are always right. */
  lemma OneThreadIsSafe(spec: AggSpec, pieces: seq<seq<Row>>, keys: seq<nat>, key: Row, width: nat)
    requires (spec.func.Min? || spec.func.Max?) && PartsWide(pieces, width) && Reads(spec, keys, width)
    ensures AlwaysSafe(spec, pieces, 1, keys, key, width)
  {
    hide Uniform, MergeSafe, Dealt, PartsWide, Reads;
    forall run: seq<Step>, parts: seq<seq<Row>> | Dealt(pieces, 1, run, parts, width)
      ensures PartsWide(parts, width) && MergeSafe(spec.func, GroupParts(spec, parts, keys, key, width))
    {
      DealtIsSafe(spec, pieces, 1, run, parts, keys, key, width);
    }
  }

  lemma OnePart(func: AggFunc, parts: seq<seq<Cell>>)
    requires |parts| == 1
    ensures MergeSafe(func, parts)
  {
    hide ExtremeNaN;
    assert parts[..0] == [];
    assert Whole(parts) == parts[0] by { assert [] + parts[0] == parts[0]; }
  }

  // ----- what that means for the result -----

  /** The condition on one aggregate of a group: only an extremum of doubles has any. */
  ghost predicate Steady(q: AggQuery, pieces: seq<seq<Row>>, threads: nat, key: Row, a: nat)
    requires q.Valid() && PartsWide(pieces, |q.types|) && a < |q.aggs|
  {
    var spec := q.aggs[a];
    FloatExtreme(spec.func, InputType(q.types, spec)) && threads != 1 ==>
      Uniform(spec.func, PieceValues(spec, pieces, q.keys, key, |q.types|))
  }

  /** Under the condition, the aggregate is right in the result of every schedule. */
  lemma SteadyIsRight(ops: FloatOps, q: AggQuery, pieces: seq<seq<Row>>, threads: nat, run: seq<Step>, parts: seq<seq<Row>>,
                      out: seq<Row>, rows: seq<Row>, i: nat, a: nat)
    requires q.Valid() && SameWidth(rows, |q.types|) && PartsWide(pieces, |q.types|) && a < |q.aggs| && i < |out|
    requires Dealt(pieces, threads, run, parts, |q.types|)
    requires PartsWide(parts, |q.types|) && ParallelIs(ops, q, out, rows, parts)
    requires Steady(q, pieces, threads, KeyPrefix(q, out[i]), a)
    ensures |out[i]| == |q.keys| + |q.aggs|
    ensures var spec := q.aggs[a];
      AggIs(false, ops, spec.func, InputType(q.types, spec), out[i][|q.keys| + a],
            GroupValues(spec, rows, q.keys, KeyPrefix(q, out[i]), |q.types|))
  {
    var spec, k := q.aggs[a], KeyPrefix(q, out[i]);
    QueryReads(q, a);
    hide AggIs, MergeSafe, GroupValues, Dealt, Uniform, ParallelIs, PartsWide, Reads, PieceValues;
    RightAt(ops, q, out, rows, parts, i, a);
    if FloatExtreme(spec.func, InputType(q.types, spec)) {
      DealtIsSafe(spec, pieces, threads, run, parts, q.keys, k, |q.types|);
    }
  }

  /** Row `i` of the result is the group's, and its aggregate is wrong. */
  ghost predicate WrongAt(ops: FloatOps, q: AggQuery, out: seq<Row>, rows: seq<Row>, key: Row, a: nat, i: nat)
    requires q.Valid() && SameWidth(rows, |q.types|) && a < |q.aggs|
  {
    var spec := q.aggs[a];
    && i < |out| && KeyPrefix(q, out[i]) == key && |out[i]| == |q.keys| + |q.aggs|
    && !AggIs(false, ops, spec.func, InputType(q.types, spec), out[i][|q.keys| + a], GroupValues(spec, rows, q.keys, key, |q.types|))
  }

  /**
   Without it the group exists, and some schedule of two or more workers makes every result
   wrong there.
   */
  lemma UnsteadyIsWrong(ops: FloatOps, q: AggQuery, pieces: seq<seq<Row>>, threads: nat, rows: seq<Row>, key: Row, a: nat)
    returns (run: seq<Step>, parts: seq<seq<Row>>)
    requires q.Valid() && SameWidth(rows, |q.types|) && PartsWide(pieces, |q.types|) && a < |q.aggs| && threads >= 2
    requires multiset(Concat(pieces)) == multiset(rows) && !Steady(q, pieces, threads, key, a)
    ensures WideRows(rows, q.keys) && key in KeysOf(rows, q.keys)
    ensures Dealt(pieces, threads, run, parts, |q.types|) && PartsWide(parts, |q.types|)
    ensures forall out: seq<Row> | ParallelIs(ops, q, out, rows, parts) :: exists i: nat :: WrongAt(ops, q, out, rows, key, a, i)
  {
    var spec := q.aggs[a];
    QueryReads(q, a);
    RowsAreWide(q, rows);
    UnsteadyKey(q, pieces, threads, rows, key, a);
    hide AggIs, MergeSafe, GroupValues, Dealt, Uniform, ParallelIs, PartsWide, Reads, PieceValues, KeyPrefix, GroupParts, SameWidth,
      FloatExtreme, KeysOf, WrongAt, Concat;
    run, parts := DisagreementIsUnsafe(spec, pieces, threads, q.keys, key, |q.types|);
    DealtWide(pieces, threads, run, parts, |q.types|);
    forall out: seq<Row> | ParallelIs(ops, q, out, rows, parts) ensures exists i: nat :: WrongAt(ops, q, out, rows, key, a, i) {
      var i := WrongRow(ops, q, out, rows, parts, key, a);
    }
  }

  /** Morsels that disagree on a group have it. */
  lemma UnsteadyKey(q: AggQuery, pieces: seq<seq<Row>>, threads: nat, rows: seq<Row>, key: Row, a: nat)
    requires q.Valid() && SameWidth(rows, |q.types|) && PartsWide(pieces, |q.types|) && a < |q.aggs|
    requires multiset(Concat(pieces)) == multiset(rows) && WideRows(rows, q.keys) && !Steady(q, pieces, threads, key, a)
    ensures key in KeysOf(rows, q.keys)
  {
    var spec := q.aggs[a];
    QueryReads(q, a);
    AllPiecesWide(pieces, q.keys, |q.types|);
    var pv := PieceValues(spec, pieces, q.keys, key, |q.types|);
    var c, d := Disagreement(spec.func, pv);
    hide Uniform, ExtremeNaN, GroupKeys, Concat, SameWidth, AggQuery.Valid;
    ValueHasGroup(spec, pieces[c], q.keys, key, |q.types|);
    assert SomePartHas(pieces, q.keys, key);
    ConcatKeys(pieces, q.keys, key);
    GroupsReordered(Concat(pieces), rows, q.keys, key);
    if q.keys == [] { NoKeysOneGroup(rows); }
  }

  lemma AllPiecesWide(pieces: seq<seq<Row>>, keys: seq<nat>, width: nat)
    requires PartsWide(pieces, width) && forall j | 0 <= j < |keys| :: keys[j] < width
    ensures AllWide(pieces, keys)
  {
  }

  /** A group with a value is one of the groups. */
  lemma ValueHasGroup(spec: AggSpec, rows: seq<Row>, keys: seq<nat>, key: Row, width: nat)
    requires Reads(spec, keys, width) && SameWidth(rows, width) && NonNull(GroupValues(spec, rows, keys, key, width)) > 0
    ensures HasGroup(rows, keys, key)
  {
    if key !in GroupKeys(rows, keys) { UnseenHasNoMembers(rows, keys, key); }
  }

  /** The row of the group, and that it is wrong. */
  lemma WrongRow(ops: FloatOps, q: AggQuery, out: seq<Row>, rows: seq<Row>, parts: seq<seq<Row>>, key: Row, a: nat)
    returns (i: nat)
    requires q.Valid() && SameWidth(rows, |q.types|) && PartsWide(parts, |q.types|) && a < |q.aggs| && Reads(q.aggs[a], q.keys, |q.types|)
    requires WideRows(rows, q.keys) && key in KeysOf(rows, q.keys) && ParallelIs(ops, q, out, rows, parts)
    requires FloatExtreme(q.aggs[a].func, InputType(q.types, q.aggs[a]))
    requires !MergeSafe(q.aggs[a].func, GroupParts(q.aggs[a], parts, q.keys, key, |q.types|))
    ensures WrongAt(ops, q, out, rows, key, a, i)
  {
    hide AggIs, MergeSafe, GroupValues, ParallelIs, PartsWide, Reads, KeysOf, SameWidth, KeyPrefix, GroupParts, FloatExtreme, AggQuery.Valid;
    i := RowOfKey(ops, q, out, rows, parts, key);
    RightAt(ops, q, out, rows, parts, i, a);
    WrongCell(ops, q, out, rows, parts, i, a);
  }

  lemma RowOfKey(ops: FloatOps, q: AggQuery, out: seq<Row>, rows: seq<Row>, parts: seq<seq<Row>>, key: Row) returns (i: nat)
    requires q.Valid() && SameWidth(rows, |q.types|) && PartsWide(parts, |q.types|) && WideRows(rows, q.keys)
    requires key in KeysOf(rows, q.keys) && ParallelIs(ops, q, out, rows, parts)
    ensures i < |out| && KeyPrefix(q, out[i]) == key
  {
    hide KeysOf, RowRight, Concat;
    assert key in multiset(KeyColumn(q, out));
    i :| 0 <= i < |out| && KeyColumn(q, out)[i] == key;
  }

  lemma WrongCell(ops: FloatOps, q: AggQuery, out: seq<Row>, rows: seq<Row>, parts: seq<seq<Row>>, i: nat, a: nat)
    requires q.Valid() && SameWidth(rows, |q.types|) && PartsWide(parts, |q.types|) && a < |q.aggs| && Reads(q.aggs[a], q.keys, |q.types|)
    requires ParallelIs(ops, q, out, rows, parts) && i < |out| && |out[i]| == |q.keys| + |q.aggs|
    requires FloatExtreme(q.aggs[a].func, InputType(q.types, q.aggs[a]))
    requires !MergeSafe(q.aggs[a].func, GroupParts(q.aggs[a], parts, q.keys, KeyPrefix(q, out[i]), |q.types|))
    ensures !AggIs(false, ops, q.aggs[a].func, InputType(q.types, q.aggs[a]), out[i][|q.keys| + a],
                   GroupValues(q.aggs[a], rows, q.keys, KeyPrefix(q, out[i]), |q.types|))
  {
    hide AggIs, MergeSafe, GroupValues, ParallelIs, PartsWide, Reads;
    RightAt(ops, q, out, rows, parts, i, a);
  }
}
