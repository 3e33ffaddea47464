/**
 What the two joins share: pairs of a probe row and an optional build row, and their
 emission as dense batches of probe columns followed by build columns.
 */
module JoinPairs {
  import opened Words
  import opened Columns
  import opened RowStores

  datatype JoinType = Inner | Left

  function NullRow(width: nat): (r: Row)
    ensures |r| == width
  {
    seq(width, _ => Null)
  }

  /** The build half of an output row. */
  function BuildRow(build: seq<Row>, r: Option<nat>, width: nat): Row
    requires r.Some? ==> r.value < |build|
  {
    match r case Some(i) => build[i] case None => NullRow(width)
  }

  // ----- an output as a list of pairs -----

  /** What one output row is made of: a probe row with a build row, or with none. */
  datatype Pair = Pair(probe: nat, build: Option<nat>)

  /** Probe rows in order and, for each, its build rows in order. */
  predicate PairBefore(q: Pair, r: Pair) {
    q.probe < r.probe || (q.probe == r.probe && q.build.Some? && r.build.Some? && q.build.value < r.build.value)
  }

  ghost predicate RowIsPair(row: Row, probe: seq<Row>, build: seq<Row>, width: nat, q: Pair) {
    q.probe < |probe|
    && match q.build
       case Some(k) => k < |build| && row == probe[q.probe] + build[k]
       case None => row == probe[q.probe] + seq(width, _ => Null)
  }

  /** The output rows are those of the pairs, in order. */
  ghost predicate PairsOut(out: seq<Row>, probe: seq<Row>, build: seq<Row>, width: nat, qs: seq<Pair>) {
    && |out| == |qs| && (forall m, n | 0 <= m < n < |qs| :: PairBefore(qs[m], qs[n]))
    && forall n | 0 <= n < |qs| :: RowIsPair(out[n], probe, build, width, qs[n])
  }

  lemma PairsOutConcat(out: seq<Row>, qs: seq<Pair>, out': seq<Row>, qs': seq<Pair>, probe: seq<Row>, build: seq<Row>, width: nat)
    requires PairsOut(out, probe, build, width, qs) && PairsOut(out', probe, build, width, qs')
    requires forall q, q' | q in qs && q' in qs' :: PairBefore(q, q')
    ensures PairsOut(out + out', probe, build, width, qs + qs')
  {
    hide RowIsPair, PairBefore;
  }

  lemma PairsOutOnPrefix(out: seq<Row>, qs: seq<Pair>, probe: seq<Row>, build: seq<Row>, width: nat, n: nat)
    requires n <= |probe| && PairsOut(out, probe[..n], build, width, qs)
    ensures PairsOut(out, probe, build, width, qs)
  {
    forall m | 0 <= m < |qs| ensures RowIsPair(out[m], probe, build, width, qs[m]) {
      assert RowIsPair(out[m], probe[..n], build, width, qs[m]);
    }
  }

  // ----- the pairs of a batch -----

  ghost predicate PairsFit(b: Batch, probeIdx: seq<nat>, buildIdx: seq<Option<nat>>, n: nat) {
    && b.Valid() && |probeIdx| == |buildIdx|
    && (forall k, c | 0 <= k < |probeIdx| && 0 <= c < |b.cols| :: probeIdx[k] < b.cols[c].len)
    && (forall k | 0 <= k < |buildIdx| && buildIdx[k].Some? :: buildIdx[k].value < n)
  }

  /** The output row of each pair. */
  function PairRows(b: Batch, probeIdx: seq<nat>, buildIdx: seq<Option<nat>>, build: seq<Row>, width: nat): (r: seq<Row>)
    requires PairsFit(b, probeIdx, buildIdx, |build|)
    ensures |r| == |probeIdx|
  {
    seq(|probeIdx|, k requires 0 <= k < |probeIdx| =>
      b.PhysRow(probeIdx[k]) + BuildRow(build, buildIdx[k], width))
  }

  lemma PairRowsConcat(b: Batch, p: seq<nat>, p': seq<nat>, q: seq<Option<nat>>, q': seq<Option<nat>>,
                       build: seq<Row>, width: nat)
    requires PairsFit(b, p, q, |build|) && PairsFit(b, p', q', |build|)
    ensures PairsFit(b, p + p', q + q', |build|)
    ensures PairRows(b, p + p', q + q', build, width)
         == PairRows(b, p, q, build, width) + PairRows(b, p', q', build, width)
  {
    hide Batch.Valid, Column.Valid, Batch.PhysRow, BuildRow;
  }

  lemma PairRowsSlice(b: Batch, p: seq<nat>, q: seq<Option<nat>>, start: nat, stop: nat, build: seq<Row>, width: nat)
    requires PairsFit(b, p, q, |build|) && start <= stop <= |p|
    ensures PairsFit(b, p[start..stop], q[start..stop], |build|)
    ensures PairRows(b, p[start..stop], q[start..stop], build, width) == PairRows(b, p, q, build, width)[start..stop]
  {
    hide Batch.Valid, Column.Valid, Batch.PhysRow, BuildRow;
  }

  /** Emit pairs as one dense batch. */
  method EmitPairs(b: Batch, probeIdx: seq<nat>, buildIdx: seq<Option<nat>>,
                   cols: seq<StoreColumn>, n: nat, types: seq<Type>) returns (out: Batch)
    requires PairsFit(b, probeIdx, buildIdx, n) && Stored(cols, n, types)
    ensures out.Valid() && out.rowCount == |probeIdx| && |out.cols| == |b.cols| + |types|
    ensures forall c | 0 <= c < |b.cols| :: out.cols[c].typ == b.cols[c].typ
    ensures forall c | 0 <= c < |types| :: out.cols[|b.cols| + c].typ == types[c]
    ensures out.Rows() == PairRows(b, probeIdx, buildIdx, StoredRows(cols, n), |types|)
  {
    hide Column.Valid, StoreColumn.Valid, ProbeEmitted, BuildEmitted;
    var left: seq<Column> := [];
    for c := 0 to |b.cols|
      invariant |left| == c && forall i | 0 <= i < c :: ProbeEmitted(left[i], b.cols[i], probeIdx)
    {
      var col := EmitBatchColumn(b.cols[c], probeIdx);
      ProbeColumn(col, b.cols[c], probeIdx);
      left := left + [col];
    }
    var right: seq<Column> := [];
    for c := 0 to |types|
      invariant |right| == c && forall i | 0 <= i < c :: BuildEmitted(right[i], cols[i], buildIdx)
    {
      var col := EmitStoreColumn(cols[c], buildIdx);
      BuildColumn(col, cols[c], buildIdx);
      right := right + [col];
    }
    out := Batch(left + right, None, |probeIdx|);
    EmittedRows(out, left, right, b, probeIdx, buildIdx, cols, n, types);
  }

  ghost predicate ProbeEmitted(col: Column, src: Column, idx: seq<nat>) {
    && col.Valid() && src.Valid() && col.len == |idx| && col.typ == src.typ
    && forall k: nat | k < |idx| :: idx[k] < src.len && col.CellAt(k) == src.CellAt(idx[k])
  }

  lemma ProbeColumn(col: Column, src: Column, idx: seq<nat>)
    requires col.Valid() && src.Valid() && col.len == |idx| && col.typ == src.typ
    requires forall k: nat | k < |idx| :: idx[k] < src.len && col.CellAt(k) == src.CellAt(idx[k])
    ensures ProbeEmitted(col, src, idx)
  {
  }

  ghost predicate BuildEmitted(col: Column, sc: StoreColumn, idx: seq<Option<nat>>) {
    && col.Valid() && sc.Valid() && col.len == |idx| && col.typ == sc.typ
    && forall k: nat | k < |idx| ::
         && (idx[k].Some? ==> idx[k].value < |sc.data|)
         && col.CellAt(k) == if idx[k].Some? then sc.CellAt(idx[k].value) else Null
  }

  lemma BuildColumn(col: Column, sc: StoreColumn, idx: seq<Option<nat>>)
    requires col.Valid() && sc.Valid() && col.len == |idx| && col.typ == sc.typ
    requires forall k: nat | k < |idx| && idx[k].Some? :: idx[k].value < |sc.data|
    requires forall k: nat | k < |idx| ::
      col.CellAt(k) == if idx[k].Some? then sc.CellAt(idx[k].value) else Null
    ensures BuildEmitted(col, sc, idx)
  {
  }

  lemma EmittedRows(out: Batch, left: seq<Column>, right: seq<Column>, b: Batch, probeIdx: seq<nat>,
                    buildIdx: seq<Option<nat>>, cols: seq<StoreColumn>, n: nat, types: seq<Type>)
    requires PairsFit(b, probeIdx, buildIdx, n) && Stored(cols, n, types)
    requires |left| == |b.cols| && |right| == |types| && out == Batch(left + right, None, |probeIdx|)
    requires forall c | 0 <= c < |left| :: ProbeEmitted(left[c], b.cols[c], probeIdx)
    requires forall c | 0 <= c < |right| :: BuildEmitted(right[c], cols[c], buildIdx)
    ensures out.Valid()
    ensures forall c | 0 <= c < |left| :: out.cols[c].typ == b.cols[c].typ
    ensures forall c | 0 <= c < |types| :: out.cols[|left| + c].typ == types[c]
    ensures out.Rows() == PairRows(b, probeIdx, buildIdx, StoredRows(cols, n), |types|)
  {
    hide Column.Valid, StoreColumn.Valid, Column.CellAt, StoreColumn.CellAt;
    var w := |left|;
    forall c | 0 <= c < |out.cols|
      ensures out.cols[c].Valid() && out.cols[c].len == |probeIdx|
      ensures out.cols[c].typ == if c < w then b.cols[c].typ else types[c - w]
    {
      if c < w { assert ProbeEmitted(left[c], b.cols[c], probeIdx); }
      else { assert BuildEmitted(right[c - w], cols[c - w], buildIdx); }
    }
    forall k | 0 <= k < |probeIdx|
      ensures out.Rows()[k] == PairRows(b, probeIdx, buildIdx, StoredRows(cols, n), |types|)[k]
    {
      EmittedRow(out, left, right, b, probeIdx, buildIdx, cols, n, types, k);
    }
  }

  lemma EmittedRow(out: Batch, left: seq<Column>, right: seq<Column>, b: Batch, probeIdx: seq<nat>,
                   buildIdx: seq<Option<nat>>, cols: seq<StoreColumn>, n: nat, types: seq<Type>, k: nat)
    requires PairsFit(b, probeIdx, buildIdx, n) && Stored(cols, n, types)
    requires |left| == |b.cols| && |right| == |types| && out == Batch(left + right, None, |probeIdx|)
    requires forall c | 0 <= c < |left| :: ProbeEmitted(left[c], b.cols[c], probeIdx)
    requires forall c | 0 <= c < |right| :: BuildEmitted(right[c], cols[c], buildIdx)
    requires out.Valid() && k < |probeIdx|
    ensures out.RowAt(k) == b.PhysRow(probeIdx[k]) + BuildRow(StoredRows(cols, n), buildIdx[k], |types|)
  {
    hide Column.Valid, StoreColumn.Valid, Column.CellAt, StoreColumn.CellAt;
    var w := |left|;
    var row := b.PhysRow(probeIdx[k]) + BuildRow(StoredRows(cols, n), buildIdx[k], |types|);
    forall c | 0 <= c < |out.cols| ensures out.RowAt(k)[c] == row[c] {
      if c < w { assert ProbeEmitted(left[c], b.cols[c], probeIdx); }
      else { assert BuildEmitted(right[c - w], cols[c - w], buildIdx); }
    }
  }

  /** The pairs of the current probe batch, and how many were emitted. */
  datatype Pairs = Pairs(batch: Batch, probeIdx: seq<nat>, buildIdx: seq<Option<nat>>, cursor: nat)
  {
    ghost predicate Valid(types: seq<Type>, n: nat) {
      && (probeIdx != [] ==> BatchFits(batch, types))
      && PairsFit(batch, probeIdx, buildIdx, n) && cursor <= |probeIdx|
    }

    /** The pairs not yet emitted, as rows. */
    ghost function Rest(types: seq<Type>, build: seq<Row>, width: nat): (r: seq<Row>)
      requires Valid(types, |build|)
      ensures |r| == |probeIdx| - cursor
    {
      PairRows(batch, probeIdx, buildIdx, build, width)[cursor..]
    }
  }

  const NO_PAIRS: Pairs := Pairs(Batch([], None, 0), [], [], 0)

  lemma NoPairsPending(types: seq<Type>, build: seq<Row>, width: nat)
    ensures NO_PAIRS.Valid(types, |build|) && NO_PAIRS.Rest(types, build, width) == []
  {
  }

  /** Emit the next pairs, at most `OUT_BATCH`. */
  method EmitChunk(ps: Pairs, cols: seq<StoreColumn>, n: nat, ghost types: seq<Type>, buildTypes: seq<Type>)
    returns (out: Batch, ps': Pairs)
    requires Stored(cols, n, buildTypes) && ps.Valid(types, n) && ps.cursor < |ps.probeIdx|
    ensures BatchFits(out, types + buildTypes) && 1 <= out.rowCount <= OUT_BATCH
    ensures ps'.Valid(types, n)
    ensures ps.Rest(types, StoredRows(cols, n), |buildTypes|)
         == out.Rows() + ps'.Rest(types, StoredRows(cols, n), |buildTypes|)
  {
    hide Batch.Valid, Batch.Rows, Column.Valid, StoredRows, StoreColumn.Valid, BuildRow, PairRows;
    var total := |ps.probeIdx|;
    var m := Min(OUT_BATCH, total - ps.cursor);
    var stop := ps.cursor + m;
    ghost var build := StoredRows(cols, n);
    PairRowsSlice(ps.batch, ps.probeIdx, ps.buildIdx, ps.cursor, stop, build, |buildTypes|);
    out := EmitPairs(ps.batch, ps.probeIdx[ps.cursor..stop], ps.buildIdx[ps.cursor..stop], cols, n, buildTypes);
    ps' := ps.(cursor := stop);
    assert ps.Rest(types, build, |buildTypes|) == PairRows(ps.batch, ps.probeIdx, ps.buildIdx, build, |buildTypes|)[ps.cursor..stop] + ps'.Rest(types, build, |buildTypes|);
  }
}
