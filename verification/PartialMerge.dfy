/**
 After the workers have joined: their maps are merged, in the order of the workers, and the
 result is read off. Neither the order in which a map is walked nor the morsels a worker
 happened to take matter, but for the NaNs of extrema.
 */
module PartialMerges {
  import opened Words
  import opened Columns
  import opened KeyRows
  import opened KeyCodes
  import opened AggMeaning
  import opened GroupBy
  import opened PartialAggs
  import opened PartialMaps

  lemma {:induction false} WholeFloat(parts: seq<seq<Cell>>)
    requires forall i | 0 <= i < |parts| :: AllFloat(parts[i])
    ensures AllFloat(Whole(parts))
  {
    if parts != [] { WholeFloat(parts[..|parts| - 1]); }
  }

  lemma PartsFloat(types: seq<Type>, hs: seq<Share>, spec: AggSpec, k: Row)
    requires SharesFit(types, hs) && (spec.func.CountStar? || spec.col < |types|)
    ensures InputType(types, spec).F64? ==> spec.func.CountStar? || AllFloat(Whole(PartsOf(types, hs, spec, k)))
    ensures Typed(spec.func, InputType(types, spec), Whole(PartsOf(types, hs, spec, k)))
  {
    var parts := PartsOf(types, hs, spec, k);
    hide RowsFit, SharesFit, InputsOf, AllFloat, Typed;
    RowsInFit(types, hs);
    forall i | 0 <= i < |hs|
      ensures Typed(spec.func, InputType(types, spec), parts[i])
      ensures InputType(types, spec).F64? ==> spec.func.CountStar? || AllFloat(parts[i])
    {
      FitWidth(types, RowsIn(hs[i], k));
      InputsTyped(types, spec, RowsIn(hs[i], k));
    }
    if InputType(types, spec).F64? && !spec.func.CountStar? { WholeFloat(parts); }
    WholeTyped(spec.func, InputType(types, spec), parts);
  }

  lemma {:induction false} WholeTyped(func: AggFunc, t: Type, parts: seq<seq<Cell>>)
    requires forall i | 0 <= i < |parts| :: Typed(func, t, parts[i])
    ensures Typed(func, t, Whole(parts))
  {
    if parts != [] { WholeTyped(func, t, parts[..|parts| - 1]); }
  }

  // ----- merging one worker's map -----

  /** A worker's accumulator joins one already there, or is the first. */
  lemma SlotMerges(x: Exchange, acc: Acc, other: Acc, hs: seq<Share>, done: Share, h: Share, k: Row, j: nat)
    requires x.Valid() && j < |x.specs| && SharesFit(x.types, hs + [done]) && SharesFit(x.types, [h]) && k !in done && k in h
    requires SharesFit(x.types, hs + [done[k := h[k]]])
    requires SlotOk(x, Within, other, [h], k, j)
    ensures SlotOk(x, Across, acc, hs + [done], k, j) ==>
      SlotOk(x, Across, MergeAcc(x.ops, acc, other, x.kinds[j]), hs + [done[k := h[k]]], k, j)
    ensures !Seen(hs + [done], k) ==> SlotOk(x, Across, other, hs + [done[k := h[k]]], k, j)
  {
    hide AccIs, MergedIs, InputsOf, RowsFit, SharesFit, MergeAcc, Whole, AllFloat;
    var spec := x.specs[j];
    var t := InputType(x.types, spec);
    assert PartialOk(x.types, spec, x.kinds[j]);
    PartsNext(x.types, hs, done, spec, k);
    PartsNext(x.types, hs, done[k := h[k]], spec, k);
    WholeOfOne(x.types, h, spec, k);
    NoInputs(spec);
    var parts, b := PartsOf(x.types, hs, spec, k), InputsOf(spec, h[k]);
    PartsFloat(x.types, hs, spec, k);
    InputsTyped(x.types, spec, h[k]);
    if SlotOk(x, Across, acc, hs + [done], k, j) {
      MergeNothing(x.ops, spec.func, t, acc, parts);
      MergeKeeps(x.ops, spec.func, t, acc, parts, other, b);
    }
    if !Seen(hs + [done], k) {
      SeenNext(hs, done, k);
      NeverSeen(x, hs, spec, k);
      MergeFirst(x.ops, spec.func, t, other, parts, b);
    }
  }

  lemma NeverSeen(x: Exchange, hs: seq<Share>, spec: AggSpec, k: Row)
    requires SharesFit(x.types, hs) && (spec.func.CountStar? || spec.col < |x.types|) && !Seen(hs, k)
    ensures Whole(PartsOf(x.types, hs, spec, k)) == []
  {
    var parts := PartsOf(x.types, hs, spec, k);
    forall i | 0 <= i < |parts| ensures parts[i] == [] { assert RowsIn(hs[i], k) == []; }
    UnseenIsEmpty(parts);
  }

  /** The worker's groups `rest` are still to be merged; `done` is the share of the others. */
  ghost predicate Walked(wm: map<seq<byte>, Group>, rest: set<seq<byte>>, h: Share, done: Share) {
    && (forall b | b in wm :: b !in rest <==> wm[b].keys in done)
    && (forall k | k in done :: k in h && done[k] == h[k])
  }

  /** Merge one group of a worker's map. */
  method MergeGroup(x: Exchange, merged: map<seq<byte>, Group>, b: seq<byte>, g: Group,
                    ghost hs: seq<Share>, ghost done: Share, ghost h: Share)
    returns (merged': map<seq<byte>, Group>)
    requires MapOk(x, Across, merged, hs + [done]) && SharesFit(x.types, [h])
    requires CanonKey(x.KeyTypes(), g.keys) && b == KeyBytes(x.KeyTypes(), g.keys)
    requires g.keys in h && g.keys !in done && GroupOk(x, Within, g, [h], g.keys)
    requires SharesFit(x.types, hs + [done[g.keys := h[g.keys]]])
    ensures MapOk(x, Across, merged', hs + [done[g.keys := h[g.keys]]])
  {
    hide CanonKey, SharesFit, RowsFit, SlotOk, Seen, PartialOk, KeyBytes, MapOk;
    ghost var k, hs' := g.keys, hs + [done[g.keys := h[g.keys]]];
    MapFits(x, Across, merged, hs + [done]);
    Found(x, Across, merged, hs + [done], k);
    ShareRows(x.types, h, k);
    if b in merged {
      var d := merged[b];
      var acc := [];
      for j := 0 to |x.specs|
        invariant |acc| == j && forall i | 0 <= i < j :: SlotOk(x, Across, acc[i], hs', k, i)
      {
        SlotMerges(x, d.acc[j], g.acc[j], hs, done, h, k, j);
        acc := acc + [MergeAcc(x.ops, d.acc[j], g.acc[j], x.kinds[j])];
      }
      EnterGroup(x, Across, merged, hs, done, k, h[k], Group(d.keys, acc));
      merged' := merged[b := Group(d.keys, acc)];
    } else {
      forall j | 0 <= j < |x.specs| ensures SlotOk(x, Across, g.acc[j], hs', k, j) {
        SlotMerges(x, g.acc[j], g.acc[j], hs, done, h, k, j);
      }
      EnterGroup(x, Across, merged, hs, done, k, h[k], g);
      merged' := merged[b := g];
    }
  }

  lemma ShareRows(types: seq<Type>, h: Share, k: Row)
    requires SharesFit(types, [h]) && k in h
    ensures RowsFit(types, h[k])
  {
    assert [h][0] == h;
  }

  /** Merge a worker's map, walking it in any order. */
  method MergeWorker(x: Exchange, merged: map<seq<byte>, Group>, wm: map<seq<byte>, Group>, ghost hs: seq<Share>, ghost h: Share)
    returns (merged': map<seq<byte>, Group>)
    requires MapOk(x, Across, merged, hs) && MapOk(x, Within, wm, [h])
    ensures MapOk(x, Across, merged', hs + [h])
  {
    hide CanonKey, KeyBytes, GroupOk, SharesFit, RowsFit, Seen;
    merged' := merged;
    NoShare(x, Across, merged, hs);
    var rest := wm.Keys;
    ghost var done: Share := map[];
    while rest != {}
      invariant rest <= wm.Keys && MapOk(x, Across, merged', hs + [done]) && Walked(wm, rest, h, done)
      decreases |rest|
    {
      hide MapOk;
      var b :| b in rest;
      WalkOn(x, wm, rest, b, hs, h, done);
      merged' := MergeGroup(x, merged', b, wm[b], hs, done, h);
      done := done[wm[b].keys := h[wm[b].keys]];
      rest := rest - {b};
    }
    AllWalked(x, wm, h, done);
  }

  lemma WalkOn(x: Exchange, wm: map<seq<byte>, Group>, rest: set<seq<byte>>, b: seq<byte>, hs: seq<Share>, h: Share, done: Share)
    requires MapOk(x, Within, wm, [h]) && rest <= wm.Keys && Walked(wm, rest, h, done) && b in rest
    requires SharesFit(x.types, hs + [done])
    ensures var k := wm[b].keys;
      && k in h && k !in done && CanonKey(x.KeyTypes(), k) && b == KeyBytes(x.KeyTypes(), k)
      && GroupOk(x, Within, wm[b], [h], k)
      && SharesFit(x.types, hs + [done[k := h[k]]])
      && Walked(wm, rest - {b}, h, done[k := h[k]])
  {
    hide CanonKey, KeyBytes, GroupOk, RowsFit, SharesFit, Seen;
    var k := wm[b].keys;
    SeenOne(h, k);
    assert EntryOk(x, Within, wm, [h], k);
    ShareRows(x.types, h, k);
    OneMoreFits(x.types, hs, done, k, h[k]);
  }

  lemma OneMoreFits(types: seq<Type>, hs: seq<Share>, done: Share, k: Row, rows: seq<Row>)
    requires SharesFit(types, hs + [done]) && RowsFit(types, rows)
    ensures SharesFit(types, hs + [done[k := rows]])
  {
    hide RowsFit;
    var h' := done[k := rows];
    forall i, o | 0 <= i < |hs + [h']| && o in (hs + [h'])[i] ensures RowsFit(types, (hs + [h'])[i][o]) {
      if i < |hs| {
        assert (hs + [done])[i] == hs[i];
      } else if o != k {
        assert (hs + [done])[i] == done && h'[o] == done[o];
      }
    }
  }

  lemma AllWalked(x: Exchange, wm: map<seq<byte>, Group>, h: Share, done: Share)
    requires MapOk(x, Within, wm, [h]) && Walked(wm, {}, h, done)
    ensures done == h
  {
    hide CanonKey, KeyBytes, SharesFit;
    forall k | k in h ensures k in done {
      SeenOne(h, k);
      assert EntryOk(x, Within, wm, [h], k);
    }
  }

  // ----- reading the result off -----

  /** The key columns of an output row. */
  function KeyPart(x: Exchange, row: Row): Row { if |x.keys| <= |row| then row[..|x.keys|] else row }

  /** An output row: its group's key, then each aggregate, right exactly where the merge was safe. */
  ghost predicate RowRead(x: Exchange, aggs: seq<AggSpec>, row: Row, hs: seq<Share>)
    requires SharesFit(x.types, hs) && forall a | 0 <= a < |aggs| :: aggs[a].func.CountStar? || aggs[a].col < |x.types|
  {
    var n := |x.keys|;
    && |row| == n + |aggs| && Seen(hs, KeyPart(x, row))
    && (forall j | 0 <= j < n :: x.keys[j] < |x.types| && Holds(x.types[x.keys[j]], row[j]))
    && forall a | 0 <= a < |aggs| :: AggRead(x, aggs[a], row[n + a], hs, KeyPart(x, row))
  }

  ghost predicate AggRead(x: Exchange, agg: AggSpec, c: Cell, hs: seq<Share>, k: Row)
    requires SharesFit(x.types, hs) && (agg.func.CountStar? || agg.col < |x.types|)
  {
    var parts, t := PartsOf(x.types, hs, agg, k), InputType(x.types, agg);
    && (AggIs(false, x.ops, agg.func, t, c, Whole(parts)) <==> (FloatExtreme(agg.func, t) ==> MergeSafe(agg.func, parts)))
    && (|Whole(parts)| < TWO_63 ==> ResultType(agg.func, t).Some? && Holds(ResultType(agg.func, t).value, c))
  }

  /** The result: one row per group of the shares. */
  ghost predicate ResultRead(x: Exchange, aggs: seq<AggSpec>, out: seq<Row>, hs: seq<Share>)
    requires SharesFit(x.types, hs) && forall a | 0 <= a < |aggs| :: aggs[a].func.CountStar? || aggs[a].col < |x.types|
  {
    && (forall i | 0 <= i < |out| :: RowRead(x, aggs, out[i], hs))
    && (forall i, j | 0 <= i < j < |out| :: KeyPart(x, out[i]) != KeyPart(x, out[j]))
    && (forall k | Seen(hs, k) :: exists i :: 0 <= i < |out| && KeyPart(x, out[i]) == k)
  }

  /** The split covers the aggregates. */
  ghost predicate Covers(x: Exchange, aggs: seq<AggSpec>, omap: seq<OrigMap>) {
    && |omap| == |aggs|
    && forall a | 0 <= a < |aggs| ::
         (aggs[a].func.CountStar? || aggs[a].col < |x.types|) && Mergeable(x.types, aggs[a])
         && OrigOk(x.types, aggs[a], omap[a], x.specs)
  }

  lemma SameParts(types: seq<Type>, hs: seq<Share>, agg: AggSpec, k: Row)
    requires SharesFit(types, hs) && (agg.func.CountStar? || agg.col < |types|)
    ensures PartsOf(types, hs, ValuePart(agg), k) == PartsOf(types, hs, agg, k)
    ensures agg.func.Avg? ==> PartsOf(types, hs, AggSpec(AggFunc.Count, agg.col), k) == PartsOf(types, hs, agg, k)
  {
    hide RowsFit, SharesFit;
    RowsInFit(types, hs);
    forall i | 0 <= i < |hs|
      ensures PartsOf(types, hs, ValuePart(agg), k)[i] == PartsOf(types, hs, agg, k)[i]
      ensures agg.func.Avg? ==> PartsOf(types, hs, AggSpec(AggFunc.Count, agg.col), k)[i] == PartsOf(types, hs, agg, k)[i]
    {
      FitWidth(types, RowsIn(hs[i], k));
      SameInputs(agg, RowsIn(hs[i], k));
    }
  }

  lemma SameInputs(agg: AggSpec, rows: seq<Row>)
    requires forall r | 0 <= r < |rows| :: agg.func.CountStar? || agg.col < |rows[r]|
    ensures InputsOf(ValuePart(agg), rows) == InputsOf(agg, rows)
    ensures agg.func.Avg? ==> InputsOf(AggSpec(AggFunc.Count, agg.col), rows) == InputsOf(agg, rows)
  {
  }

  lemma AggReads(x: Exchange, agg: AggSpec, om: OrigMap, g: Group, hs: seq<Share>, k: Row)
    requires x.Valid() && SharesFit(x.types, hs) && GroupOk(x, Across, g, hs, k)
    requires (agg.func.CountStar? || agg.col < |x.types|) && Mergeable(x.types, agg) && OrigOk(x.types, agg, om, x.specs)
    ensures AggRead(x, agg, ReadOff(x.ops, om, g.acc, x.kinds), hs, k)
  {
    hide MergedIs, AggIs, MergeSafe, ReadOff, Whole, SharesFit, RowsFit, InputsOf, AllFloat, Typed;
    SameParts(x.types, hs, agg, k);
    PartsFloat(x.types, hs, agg, k);
    assert PartialOk(x.types, x.specs[om.val], x.kinds[om.val]);
    assert SlotOk(x, Across, g.acc[om.val], hs, k, om.val);
    if agg.func.Avg? { assert SlotOk(x, Across, g.acc[om.count.value], hs, k, om.count.value); }
    var parts := PartsOf(x.types, hs, agg, k);
    ReadOffIs(x.ops, agg, InputType(x.types, agg), om, g.acc, x.kinds, parts);
    if |Whole(parts)| < TWO_63 { ReadOffHolds(x.ops, agg, InputType(x.types, agg), om, g.acc, x.kinds, parts); }
  }

  /** One output row. */
  method ReadRow(x: Exchange, aggs: seq<AggSpec>, omap: seq<OrigMap>, g: Group, ghost hs: seq<Share>) returns (row: Row)
    requires x.Valid() && SharesFit(x.types, hs) && GroupOk(x, Across, g, hs, g.keys) && Seen(hs, g.keys)
    requires |g.keys| == |x.keys| && Covers(x, aggs, omap) && CanonKey(x.KeyTypes(), g.keys)
    ensures KeyPart(x, row) == g.keys && RowRead(x, aggs, row, hs)
  {
    hide Seen, SharesFit, SlotOk, Mergeable, AggRead, ReadOff, PartialOk;
    row := g.keys;
    assert forall j | 0 <= j < |g.keys| :: CanonCell(x.KeyTypes()[j], g.keys[j]) ==> Holds(x.types[x.keys[j]], g.keys[j]);
    for a := 0 to |aggs|
      invariant |row| == |g.keys| + a && row[..|g.keys|] == g.keys
      invariant forall i | 0 <= i < a :: AggRead(x, aggs[i], row[|g.keys| + i], hs, g.keys)
    {
      AggReads(x, aggs[a], omap[a], g, hs, g.keys);
      row := row + [ReadOff(x.ops, omap[a], g.acc, x.kinds)];
    }
  }

  /** The groups `rest` are still to be read. */
  ghost predicate PartlyRead(x: Exchange, aggs: seq<AggSpec>, out: seq<Row>, m: map<seq<byte>, Group>, rest: set<seq<byte>>, hs: seq<Share>)
    requires SharesFit(x.types, hs) && forall a | 0 <= a < |aggs| :: aggs[a].func.CountStar? || aggs[a].col < |x.types|
  {
    && (forall i | 0 <= i < |out| :: RowRead(x, aggs, out[i], hs))
    && (forall i, j | 0 <= i < j < |out| :: KeyPart(x, out[i]) != KeyPart(x, out[j]))
    && (forall b | b in m :: b !in rest <==> exists i :: 0 <= i < |out| && KeyPart(x, out[i]) == m[b].keys)
  }

  lemma ReadMore(x: Exchange, aggs: seq<AggSpec>, out: seq<Row>, m: map<seq<byte>, Group>, rest: set<seq<byte>>, hs: seq<Share>,
                 b: seq<byte>, row: Row)
    requires MapOk(x, Across, m, hs) && forall a | 0 <= a < |aggs| :: aggs[a].func.CountStar? || aggs[a].col < |x.types|
    requires PartlyRead(x, aggs, out, m, rest, hs) && b in rest && rest <= m.Keys
    requires RowRead(x, aggs, row, hs) && KeyPart(x, row) == m[b].keys
    ensures PartlyRead(x, aggs, out + [row], m, rest - {b}, hs)
  {
    hide RowRead, EntryOk, SharesFit, CanonKey, KeyBytes, Seen;
    forall i | 0 <= i < |out + [row]| ensures RowRead(x, aggs, (out + [row])[i], hs) {}
    forall o | o in m ensures o !in rest - {b} <==> exists i :: 0 <= i < |out + [row]| && KeyPart(x, (out + [row])[i]) == m[o].keys {
      if o == b { assert (out + [row])[|out|] == row; }
      if o in m && o !in rest {
        var i :| 0 <= i < |out| && KeyPart(x, out[i]) == m[o].keys;
        assert (out + [row])[i] == out[i];
      }
    }
  }

  /** Read the output rows off the merged map, walking it in any order. */
  method ReadRows(x: Exchange, aggs: seq<AggSpec>, omap: seq<OrigMap>, merged: map<seq<byte>, Group>, ghost hs: seq<Share>)
    returns (out: seq<Row>)
    requires MapOk(x, Across, merged, hs) && Covers(x, aggs, omap)
    ensures SharesFit(x.types, hs) && ResultRead(x, aggs, out, hs)
  {
    hide MapOk, PartlyRead, RowRead, GroupOk, Seen, SharesFit, Exchange.Valid, OrigOk, Mergeable, CanonKey;
    MapFits(x, Across, merged, hs);
    out := [];
    var rest := merged.Keys;
    NothingRead(x, aggs, merged, hs);
    while rest != {}
      invariant rest <= merged.Keys && PartlyRead(x, aggs, out, merged, rest, hs)
      decreases |rest|
    {
      var b :| b in rest;
      GroupAt(x, merged, hs, b);
      var row := ReadRow(x, aggs, omap, merged[b], hs);
      ReadMore(x, aggs, out, merged, rest, hs, b, row);
      out, rest := out + [row], rest - {b};
    }
    AllRead(x, aggs, out, merged, hs);
  }

  lemma NothingRead(x: Exchange, aggs: seq<AggSpec>, m: map<seq<byte>, Group>, hs: seq<Share>)
    requires SharesFit(x.types, hs) && forall a | 0 <= a < |aggs| :: aggs[a].func.CountStar? || aggs[a].col < |x.types|
    ensures PartlyRead(x, aggs, [], m, m.Keys, hs)
  {
  }

  lemma GroupAt(x: Exchange, m: map<seq<byte>, Group>, hs: seq<Share>, b: seq<byte>)
    requires MapOk(x, Across, m, hs) && b in m
    ensures x.Valid() && SharesFit(x.types, hs) && GroupOk(x, Across, m[b], hs, m[b].keys) && Seen(hs, m[b].keys)
    ensures |m[b].keys| == |x.keys| && CanonKey(x.KeyTypes(), m[b].keys)
  {
    hide SharesFit, Seen, KeyBytes, GroupOk;
    assert EntryOk(x, Across, m, hs, m[b].keys);
  }

  lemma AllRead(x: Exchange, aggs: seq<AggSpec>, out: seq<Row>, m: map<seq<byte>, Group>, hs: seq<Share>)
    requires MapOk(x, Across, m, hs) && forall a | 0 <= a < |aggs| :: aggs[a].func.CountStar? || aggs[a].col < |x.types|
    requires PartlyRead(x, aggs, out, m, {}, hs)
    ensures ResultRead(x, aggs, out, hs)
  {
    hide RowRead, SharesFit, Seen, KeyBytes, SlotOk, CanonKey;
    forall k | Seen(hs, k) ensures exists i :: 0 <= i < |out| && KeyPart(x, out[i]) == k {
      assert EntryOk(x, Across, m, hs, k);
      assert m[KeyBytes(x.KeyTypes(), k)].keys == k;
    }
  }
}
