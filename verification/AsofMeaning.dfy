/**
 What the backward as-of join means.

 A probe row matches the build row of equal, NULL-free key with the greatest timestamp not
 after its own, unless that lies further back than the tolerance. `AsofRow` states it as
 the last candidate of a build side in (key, timestamp) order, which is what the operator
 computes; `ReferenceRow` is a scan of the build side in any order. The two agree whenever
 the answer is unambiguous.
 */
module AsofMeaning {
  import opened Words
  import opened Columns
  import opened RowStores
  import opened JoinPairs
  import opened KeyRows
  import opened KeyCodes
  import opened SortOrders
  import F64

  datatype AsofSpec = AsofSpec(probeTypes: seq<Type>, buildTypes: seq<Type>,
                               probeKeys: seq<nat>, buildKeys: seq<nat>,
                               probeTime: nat, buildTime: nat,
                               kind: JoinType, tolerance: Option<i64>)
  {
    /** Zero or more partition keys a side, paired up, and a time column. */
    ghost predicate Valid() {
      && |probeKeys| == |buildKeys| <= MAX_KEY_COLUMNS
      && (forall j | 0 <= j < |probeKeys| :: probeKeys[j] < |probeTypes| && buildKeys[j] < |buildTypes|)
      && probeTime < |probeTypes| && buildTime < |buildTypes|
    }
  }

  /** A timestamp; NULL is no timestamp. */
  function TimeOf(c: Cell): Option<int> { if c.Num? then Some(c.i) else None }

  /** Equal keys, none of them NULL. With no key columns, every row is in one partition. */
  predicate SamePartition(s: AsofSpec, p: Row, b: Row)
    requires s.Valid() && |p| == |s.probeTypes| && |b| == |s.buildTypes|
  {
    RowKey(p, s.probeKeys) == RowKey(b, s.buildKeys) && Null !in RowKey(p, s.probeKeys)
  }

  predicate Candidate(s: AsofSpec, p: Row, b: Row)
    requires s.Valid() && |p| == |s.probeTypes| && |b| == |s.buildTypes|
  {
    var t, tb := TimeOf(p[s.probeTime]), TimeOf(b[s.buildTime]);
    SamePartition(s, p, b) && t.Some? && tb.Some? && tb.value <= t.value
  }

  /** The last candidate among the build rows. */
  function Nearest(s: AsofSpec, p: Row, build: seq<Row>): (r: Option<nat>)
    requires s.Valid() && |p| == |s.probeTypes| && SameWidth(build, |s.buildTypes|)
    ensures r.Some? ==> r.value < |build| && Candidate(s, p, build[r.value])
    ensures forall i | 0 <= i < |build| && Candidate(s, p, build[i]) :: r.Some? && i <= r.value
  {
    if build == [] then None
    else if Candidate(s, p, build[|build| - 1]) then Some(|build| - 1)
    else Nearest(s, p, build[..|build| - 1])
  }

  // ----- the tolerance -----

  /** The engine's test: the span and the tolerance as unsigned words. */
  predicate WithinWords(tolerance: Option<i64>, t: i64, tb: i64) {
    tolerance.None? || U64(AsUnsigned64(t) - AsUnsigned64(tb)) <= AsUnsigned64(tolerance.value)
  }

  /** The test meant. */
  predicate Within(tolerance: Option<i64>, t: int, tb: int) {
    tolerance.None? || t - tb <= tolerance.value
  }

  /** For a build row not after the probe row the two agree, for any span, unless the tolerance is negative. */
  lemma ToleranceExact(tolerance: Option<i64>, t: i64, tb: i64)
    requires tb <= t
    ensures WithinWords(tolerance, t, tb) == Within(tolerance, t, tb) <==>
      tolerance.None? || tolerance.value >= 0 || t - tb > TWO_64 + tolerance.value
  {
    assert U64(AsUnsigned64(t) - AsUnsigned64(tb)) == t - tb;
  }

  // ----- the output -----

  function Matched(s: AsofSpec, p: Row, build: seq<Row>): (r: Option<nat>)
    requires s.Valid() && |p| == |s.probeTypes| && SameWidth(build, |s.buildTypes|)
    requires TimesFit(s, p, build)
    ensures r.Some? ==> r.value < |build|
  {
    match Nearest(s, p, build)
    case Some(r) =>
      if WithinWords(s.tolerance, p[s.probeTime].i, build[r][s.buildTime].i) then Some(r) else None
    case None => None
  }

  /** Timestamps are 64-bit. */
  ghost predicate TimesFit(s: AsofSpec, p: Row, build: seq<Row>)
    requires s.Valid() && |p| == |s.probeTypes| && SameWidth(build, |s.buildTypes|)
  {
    && TimeFits(p[s.probeTime])
    && forall r | 0 <= r < |build| :: TimeFits(build[r][s.buildTime])
  }

  predicate TimeFits(c: Cell) { c.Num? ==> -TWO_63 <= c.i < TWO_63 }

  function AsofRow(s: AsofSpec, p: Row, build: seq<Row>): seq<Row>
    requires s.Valid() && |p| == |s.probeTypes| && SameWidth(build, |s.buildTypes|) && TimesFit(s, p, build)
  {
    match Matched(s, p, build)
    case Some(r) => [p + build[r]]
    case None => if s.kind.Left? then [p + NullRow(|s.buildTypes|)] else []
  }

  ghost predicate AllTimesFit(s: AsofSpec, probe: seq<Row>, build: seq<Row>)
    requires s.Valid() && SameWidth(probe, |s.probeTypes|) && SameWidth(build, |s.buildTypes|)
  {
    forall k | 0 <= k < |probe| :: TimesFit(s, probe[k], build)
  }

  function AsofRows(s: AsofSpec, probe: seq<Row>, build: seq<Row>): seq<Row>
    requires s.Valid() && SameWidth(probe, |s.probeTypes|) && SameWidth(build, |s.buildTypes|)
    requires AllTimesFit(s, probe, build)
  {
    if probe == [] then []
    else AsofRows(s, probe[..|probe| - 1], build) + AsofRow(s, probe[|probe| - 1], build)
  }

  lemma {:induction false} AsofConcat(s: AsofSpec, a: seq<Row>, b: seq<Row>, build: seq<Row>)
    requires s.Valid() && SameWidth(a, |s.probeTypes|) && SameWidth(b, |s.probeTypes|)
    requires SameWidth(build, |s.buildTypes|) && AllTimesFit(s, a, build) && AllTimesFit(s, b, build)
    ensures AllTimesFit(s, a + b, build)
    ensures AsofRows(s, a + b, build) == AsofRows(s, a, build) + AsofRows(s, b, build)
  {
    hide AsofRow, TimesFit;
    if b == [] {
      assert a + b == a;
    } else {
      assert (a + b)[..|a + b| - 1] == a + b[..|b| - 1];
      AsofConcat(s, a, b[..|b| - 1], build);
    }
  }

  // ----- the output, said outright -----

  ghost predicate EqualKeys(s: AsofSpec, p: Row, b: Row)
    requires s.Valid() && |p| == |s.probeTypes| && |b| == |s.buildTypes|
  {
    forall j | 0 <= j < |s.probeKeys| :: SameValue(p[s.probeKeys[j]], b[s.buildKeys[j]])
  }

  /** Equal keys, both times known, and the build row not after the probe row. */
  ghost predicate NotAfter(s: AsofSpec, p: Row, b: Row)
    requires s.Valid() && |p| == |s.probeTypes| && |b| == |s.buildTypes|
  {
    EqualKeys(s, p, b) && p[s.probeTime].Num? && b[s.buildTime].Num? && b[s.buildTime].i <= p[s.probeTime].i
  }

  /** At most the tolerance apart, a negative one read as the unsigned word it is. */
  predicate Admits(tolerance: Option<i64>, span: int) {
    tolerance.None? || span <= if tolerance.value < 0 then tolerance.value + TWO_64 else tolerance.value
  }

  /** The last such build row, if the tolerance admits it. */
  ghost predicate IsMatch(s: AsofSpec, p: Row, build: seq<Row>, k: nat)
    requires s.Valid() && |p| == |s.probeTypes| && SameWidth(build, |s.buildTypes|)
  {
    && k < |build| && NotAfter(s, p, build[k]) && (forall e | k < e < |build| :: !NotAfter(s, p, build[e]))
    && Admits(s.tolerance, p[s.probeTime].i - build[k][s.buildTime].i)
  }

  /** Every probe row with its match; in a left join also every probe row without one. */
  ghost predicate IsPair(s: AsofSpec, probe: seq<Row>, build: seq<Row>, q: Pair)
    requires s.Valid() && SameWidth(probe, |s.probeTypes|) && SameWidth(build, |s.buildTypes|)
  {
    q.probe < |probe|
    && match q.build
       case Some(k) => IsMatch(s, probe[q.probe], build, k)
       case None => s.kind.Left? && forall k: nat :: !IsMatch(s, probe[q.probe], build, k)
  }

  /** Each of them once, and nothing else. */
  ghost predicate IsAsof(s: AsofSpec, probe: seq<Row>, build: seq<Row>, out: seq<Row>)
    requires s.Valid()
  {
    && SameWidth(probe, |s.probeTypes|) && SameWidth(build, |s.buildTypes|)
    && exists qs :: PairsOut(out, probe, build, |s.buildTypes|, qs) && forall q :: q in qs <==> IsPair(s, probe, build, q)
  }

  lemma CandidateIs(s: AsofSpec, p: Row, b: Row)
    requires s.Valid() && |p| == |s.probeTypes| && |b| == |s.buildTypes|
    ensures Candidate(s, p, b) <==> NotAfter(s, p, b)
  {
    hide SameValue;
    var x, y := RowKey(p, s.probeKeys), RowKey(b, s.buildKeys);
    forall j | 0 <= j < |s.probeKeys|
      ensures SameValue(p[s.probeKeys[j]], b[s.buildKeys[j]]) <==> x[j] == y[j] && !x[j].Null?
    {
      SameValueIs(p[s.probeKeys[j]], b[s.buildKeys[j]]);
    }
  }

  lemma WithinWordsIs(tolerance: Option<i64>, t: i64, tb: i64)
    requires tb <= t
    ensures WithinWords(tolerance, t, tb) <==> Admits(tolerance, t - tb)
  {
    assert U64(AsUnsigned64(t) - AsUnsigned64(tb)) == t - tb;
  }

  lemma MatchedIs(s: AsofSpec, p: Row, build: seq<Row>, k: nat)
    requires s.Valid() && |p| == |s.probeTypes| && SameWidth(build, |s.buildTypes|) && TimesFit(s, p, build)
    ensures Matched(s, p, build) == Some(k) <==> IsMatch(s, p, build, k)
  {
    hide Admits, WithinWords, Candidate, NotAfter;
    forall e | 0 <= e < |build| ensures Candidate(s, p, build[e]) <==> NotAfter(s, p, build[e]) { CandidateIs(s, p, build[e]); }
    var near := Nearest(s, p, build);
    if near.Some? { NearAdmits(s, p, build, near.value); }
  }

  lemma NearAdmits(s: AsofSpec, p: Row, build: seq<Row>, k: nat)
    requires s.Valid() && |p| == |s.probeTypes| && SameWidth(build, |s.buildTypes|) && TimesFit(s, p, build)
    requires k < |build| && Candidate(s, p, build[k])
    ensures p[s.probeTime].Num? && build[k][s.buildTime].Num?
    ensures WithinWords(s.tolerance, p[s.probeTime].i, build[k][s.buildTime].i)
       <==> Admits(s.tolerance, p[s.probeTime].i - build[k][s.buildTime].i)
  {
    WithinWordsIs(s.tolerance, p[s.probeTime].i, build[k][s.buildTime].i);
  }

  lemma AsofRowPairs(s: AsofSpec, probe: seq<Row>, build: seq<Row>, i: nat) returns (qs: seq<Pair>)
    requires s.Valid() && SameWidth(probe, |s.probeTypes|) && SameWidth(build, |s.buildTypes|)
    requires i < |probe| && TimesFit(s, probe[i], build)
    ensures PairsOut(AsofRow(s, probe[i], build), probe, build, |s.buildTypes|, qs)
    ensures forall q :: q in qs <==> q.probe == i && IsPair(s, probe, build, q)
  {
    hide IsMatch, TimesFit, Matched;
    forall k: nat ensures Matched(s, probe[i], build) == Some(k) <==> IsMatch(s, probe[i], build, k) { MatchedIs(s, probe[i], build, k); }
    var m := Matched(s, probe[i], build);
    qs := if m.Some? || s.kind.Left? then [Pair(i, m)] else [];
  }

  lemma {:induction false} AsofPairs(s: AsofSpec, probe: seq<Row>, build: seq<Row>, n: nat) returns (qs: seq<Pair>)
    requires s.Valid() && SameWidth(probe, |s.probeTypes|) && SameWidth(build, |s.buildTypes|)
    requires n <= |probe| && AllTimesFit(s, probe, build)
    ensures PairsOut(AsofRows(s, probe[..n], build), probe, build, |s.buildTypes|, qs)
    ensures forall q :: q in qs <==> q.probe < n && IsPair(s, probe, build, q)
  {
    qs := [];
    if n > 0 {
      hide IsPair, AsofRow, PairsOut, TimesFit;
      qs := AsofPairs(s, probe, build, n - 1);
      var last := AsofRowPairs(s, probe, build, n - 1);
      assert probe[..n][..n - 1] == probe[..n - 1];
      PairsOutConcat(AsofRows(s, probe[..n - 1], build), qs, AsofRow(s, probe[n - 1], build), last, probe, build, |s.buildTypes|);
      qs := qs + last;
    }
  }

  lemma AsofMeans(s: AsofSpec, probe: seq<Row>, build: seq<Row>)
    requires s.Valid() && SameWidth(probe, |s.probeTypes|) && SameWidth(build, |s.buildTypes|) && AllTimesFit(s, probe, build)
    ensures IsAsof(s, probe, build, AsofRows(s, probe, build))
  {
    hide AsofRows, PairsOut;
    assert probe[..|probe|] == probe;
    var qs := AsofPairs(s, probe, build, |probe|);
    assert forall q :: IsPair(s, probe, build, q) ==> q.probe < |probe|;
    hide IsPair;
  }

  // ----- the sorted inputs -----

  function TimeKeys(keys: seq<nat>, time: nat): (sk: seq<SortKey>)
    ensures |sk| == |keys| + 1
    ensures forall j | 0 <= j < |sk| :: sk[j] == SortKey(if j < |keys| then keys[j] else time, Asc, Last)
  {
    seq(|keys|, j requires 0 <= j < |keys| => SortKey(keys[j], Asc, Last)) + [SortKey(time, Asc, Last)]
  }

  /** Rows of one key are in timestamp order. */
  ghost predicate TimeOrdered(rows: seq<Row>, keys: seq<nat>, time: nat, width: nat) {
    && SameWidth(rows, width) && time < width && (forall j | 0 <= j < |keys| :: keys[j] < width)
    && forall a, b | 0 <= a < b < |rows| && RowKey(rows[a], keys) == RowKey(rows[b], keys) ::
         (var ta, tb := TimeOf(rows[a][time]), TimeOf(rows[b][time]);
          ta.Some? && tb.Some? ==> ta.value <= tb.value)
  }

  lemma SameKeyTies(x: Cell, y: Cell)
    requires KeyCell(x) == KeyCell(y)
    ensures KeyCmp(SortKey(0, Asc, Last), x, y) == 0
  {
    if x.Flt? {
      F64.SameKeyIffTie(x.bits, y.bits);
      F64.TotalOrderIsRank(x.bits, y.bits);
    } else if x.Str? {
      LexCmpFlip(Codes(x.s), Codes(y.s));
    }
  }

  lemma {:induction false} TimeDecides(keys: seq<nat>, time: nat, a: Row, b: Row)
    requires |a| == |b| && time < |a| && forall j | 0 <= j < |keys| :: keys[j] < |a|
    requires RowKey(a, keys) == RowKey(b, keys)
    requires TimeOf(a[time]).Some? && TimeOf(b[time]).Some?
    requires RowCmp(TimeKeys(keys, time), a, b) <= 0
    ensures a[time].i <= b[time].i
    decreases |keys|
  {
    hide KeyCmp;
    var sk := TimeKeys(keys, time);
    if keys == [] {
      assert sk == [SortKey(time, Asc, Last)];
      TimeCmp(a[time], b[time]);
    } else {
      assert sk[1..] == TimeKeys(keys[1..], time);
      assert KeyCell(a[keys[0]]) == RowKey(a, keys)[0];
      assert KeyCell(b[keys[0]]) == RowKey(b, keys)[0];
      SameKeyTies(a[keys[0]], b[keys[0]]);
      KeyCmpAnyColumn(keys[0], 0, a[keys[0]], b[keys[0]]);
      assert RowKey(a, keys)[1..] == RowKey(a, keys[1..]) && RowKey(b, keys)[1..] == RowKey(b, keys[1..]);
      TimeDecides(keys[1..], time, a, b);
    }
  }

  lemma TimeCmp(x: Cell, y: Cell)
    requires x.Num? && y.Num?
    ensures forall time: nat :: KeyCmp(SortKey(time, Asc, Last), x, y) <= 0 ==> x.i <= y.i
  {
  }

  lemma KeyCmpAnyColumn(c: nat, d: nat, x: Cell, y: Cell)
    ensures KeyCmp(SortKey(c, Asc, Last), x, y) == KeyCmp(SortKey(d, Asc, Last), x, y)
  {
  }

  /** The rows of one key stand together. */
  ghost predicate Contiguous(rows: seq<Row>, keys: seq<nat>, width: nat)
    requires SameWidth(rows, width) && forall j | 0 <= j < |keys| :: keys[j] < width
  {
    forall a, b, c | 0 <= a < b < c < |rows| && RowKey(rows[a], keys) == RowKey(rows[c], keys) ::
      RowKey(rows[b], keys) == RowKey(rows[a], keys)
  }

  /** Cells that tie as sort keys are one equality key. */
  lemma TiesAreSameKey(c: nat, x: Cell, y: Cell)
    requires KeyCmp(SortKey(c, Asc, Last), x, y) == 0
    ensures KeyCell(x) == KeyCell(y)
  {
    if x.Flt? && y.Flt? {
      F64.SameKeyIffTie(x.bits, y.bits);
      F64.TotalOrderIsRank(x.bits, y.bits);
    } else if x.Str? && y.Str? {
      LexCmpFlip(Codes(x.s), Codes(y.s));
      forall i | 0 <= i < |x.s| && |x.s| == |y.s| ensures x.s[i] == y.s[i] { assert Codes(x.s)[i] == Codes(y.s)[i]; }
      assert |Codes(x.s)| == |Codes(y.s)|;
    }
  }

  /** A row between two of one key, in the sorted order, is of that key. */
  lemma {:induction false} Between(keys: seq<nat>, time: nat, a: Row, b: Row, c: Row)
    requires |a| == |b| == |c| && time < |a| && forall j | 0 <= j < |keys| :: keys[j] < |a|
    requires RowCmp(TimeKeys(keys, time), a, b) <= 0 && RowCmp(TimeKeys(keys, time), b, c) <= 0
    requires RowKey(a, keys) == RowKey(c, keys)
    ensures RowKey(b, keys) == RowKey(a, keys)
    decreases |keys|
  {
    hide KeyCmp, KeyCell;
    if keys != [] {
      var k := keys[0];
      var x, y, z := a[k], b[k], c[k];
      FirstKey(keys, time, a, b);
      FirstKey(keys, time, b, c);
      RestOfKey(a, keys); RestOfKey(b, keys); RestOfKey(c, keys);
      SameKeyTies(x, z);
      KeyCmpAnyColumn(k, 0, x, z);
      KeyCmpLaws(SortKey(k, Asc, Last), x, y, z);
      KeyCmpLaws(SortKey(k, Asc, Last), y, z, x);
      TiesAreSameKey(k, x, y);
      Between(keys[1..], time, a, b, c);
    }
  }

  lemma FirstKey(keys: seq<nat>, time: nat, a: Row, b: Row)
    requires |a| == |b| && time < |a| && keys != [] && forall j | 0 <= j < |keys| :: keys[j] < |a|
    ensures var cmp := KeyCmp(SortKey(keys[0], Asc, Last), a[keys[0]], b[keys[0]]);
      RowCmp(TimeKeys(keys, time), a, b) == if cmp != 0 then cmp else RowCmp(TimeKeys(keys[1..], time), a, b)
  {
    hide KeyCmp;
    assert TimeKeys(keys, time)[1..] == TimeKeys(keys[1..], time);
  }

  lemma RestOfKey(row: Row, keys: seq<nat>)
    requires keys != [] && forall j | 0 <= j < |keys| :: keys[j] < |row|
    ensures RowKey(row, keys)[0] == KeyCell(row[keys[0]]) && RowKey(row, keys)[1..] == RowKey(row, keys[1..])
    ensures RowKey(row, keys) == [KeyCell(row[keys[0]])] + RowKey(row, keys[1..])
  {
    hide KeyCell;
  }

  /** The wrapped sorts deliver each key's rows together and in timestamp order. */
  lemma SortedIsTimeOrdered(rows: seq<Row>, keys: seq<nat>, time: nat, width: nat, perm: seq<nat>)
    requires SameWidth(rows, width) && time < width && forall j | 0 <= j < |keys| :: keys[j] < width
    requires KeysFit(TimeKeys(keys, time), width)
    requires StablePermutation(TimeKeys(keys, time), rows, width, perm)
    ensures TimeOrdered(Pick(rows, perm), keys, time, width) && Contiguous(Pick(rows, perm), keys, width)
  {
    hide RowCmp, RowKey, TimeKeys;
    var out := Pick(rows, perm);
    forall a, b, c | 0 <= a < b < c < |out| && RowKey(out[a], keys) == RowKey(out[c], keys)
      ensures RowKey(out[b], keys) == RowKey(out[a], keys)
    {
      assert Precedes(TimeKeys(keys, time), rows, width, perm[a], perm[b]);
      assert Precedes(TimeKeys(keys, time), rows, width, perm[b], perm[c]);
      Between(keys, time, out[a], out[b], out[c]);
    }
    forall a, b | 0 <= a < b < |out| && RowKey(out[a], keys) == RowKey(out[b], keys)
               && TimeOf(out[a][time]).Some? && TimeOf(out[b][time]).Some?
      ensures out[a][time].i <= out[b][time].i
    {
      assert Precedes(TimeKeys(keys, time), rows, width, perm[a], perm[b]);
      TimeDecides(keys, time, out[a], out[b]);
    }
  }

  /** In an ordered build side the last candidate is the one with the greatest timestamp. */
  lemma NearestIsGreatest(s: AsofSpec, p: Row, build: seq<Row>, i: nat)
    requires s.Valid() && |p| == |s.probeTypes| && TimeOrdered(build, s.buildKeys, s.buildTime, |s.buildTypes|)
    requires i < |build| && Candidate(s, p, build[i])
    ensures var r := Nearest(s, p, build);
      r.Some? && build[i][s.buildTime].i <= build[r.value][s.buildTime].i
  {
    var r := Nearest(s, p, build);
    hide Nearest;
    assert RowKey(build[i], s.buildKeys) == RowKey(build[r.value], s.buildKeys);
  }

  // ----- the reference -----

  /** Scan the build rows in any order, keeping the first with the greatest timestamp. */
  function ReferenceScan(s: AsofSpec, p: Row, build: seq<Row>): (r: Option<nat>)
    requires s.Valid() && |p| == |s.probeTypes| && SameWidth(build, |s.buildTypes|)
    ensures r.Some? ==> r.value < |build| && Candidate(s, p, build[r.value])
    ensures forall i | 0 <= i < |build| && Candidate(s, p, build[i]) ::
      r.Some? && build[i][s.buildTime].i <= build[r.value][s.buildTime].i
  {
    if build == [] then None
    else
      var b := build[|build| - 1];
      var best := ReferenceScan(s, p, build[..|build| - 1]);
      if !Candidate(s, p, b) then best
      else if best.None? || b[s.buildTime].i > build[best.value][s.buildTime].i then Some(|build| - 1)
      else best
  }

  function ReferenceRow(s: AsofSpec, p: Row, build: seq<Row>): seq<Row>
    requires s.Valid() && |p| == |s.probeTypes| && SameWidth(build, |s.buildTypes|)
  {
    var r := ReferenceScan(s, p, build);
    if r.Some? && Within(s.tolerance, p[s.probeTime].i, build[r.value][s.buildTime].i) then [p + build[r.value]]
    else if s.kind.Left? then [p + NullRow(|s.buildTypes|)]
    else []
  }

  /** No two build rows share a NULL-free key and a timestamp. */
  ghost predicate UniqueTimes(s: AsofSpec, build: seq<Row>)
    requires s.Valid() && SameWidth(build, |s.buildTypes|)
  {
    forall i, j | 0 <= i < j < |build| && RowKey(build[i], s.buildKeys) == RowKey(build[j], s.buildKeys)
               && Null !in RowKey(build[i], s.buildKeys) && build[i][s.buildTime].Num? ::
      build[i][s.buildTime] != build[j][s.buildTime]
  }

  /** Candidates at one timestamp are one row. */
  lemma SameCandidate(s: AsofSpec, p: Row, build: seq<Row>, i: nat, j: nat)
    requires s.Valid() && |p| == |s.probeTypes| && SameWidth(build, |s.buildTypes|) && UniqueTimes(s, build)
    requires i < |build| && j < |build| && Candidate(s, p, build[i]) && Candidate(s, p, build[j])
    requires build[i][s.buildTime].i == build[j][s.buildTime].i
    ensures i == j
  {
  }

  /** The probe row has no candidate, or the engine's tolerance test is right about the best one. */
  predicate ToleranceHolds(s: AsofSpec, p: Row, build: seq<Row>)
    requires s.Valid() && |p| == |s.probeTypes| && SameWidth(build, |s.buildTypes|)
  {
    s.tolerance.None? || s.tolerance.value >= 0
    || match ReferenceScan(s, p, build)
       case None => true
       case Some(r) => p[s.probeTime].i - build[r][s.buildTime].i > TWO_64 + s.tolerance.value
  }

  /**
   With unique build timestamps, the answer over the sorted build side is the brute-force
   answer over the unsorted one exactly when the tolerance test holds; it always does
   for a tolerance that is absent or not negative.
   */
  lemma AsofIsReference(s: AsofSpec, p: Row, build: seq<Row>, perm: seq<nat>)
    requires s.Valid() && |p| == |s.probeTypes| && SameWidth(build, |s.buildTypes|) && UniqueTimes(s, build)
    requires Indices(perm, |build|)
    requires TimeOrdered(Pick(build, perm), s.buildKeys, s.buildTime, |s.buildTypes|)
    requires TimesFit(s, p, Pick(build, perm))
    ensures AsofRow(s, p, Pick(build, perm)) == ReferenceRow(s, p, build) <==> ToleranceHolds(s, p, build)
  {
    hide Candidate, TimeOrdered, ReferenceScan, Nearest;
    var sorted := Pick(build, perm);
    var near, best := Nearest(s, p, sorted), ReferenceScan(s, p, build);
    if best.Some? {
      assert best.value in perm;
      var at :| 0 <= at < |perm| && perm[at] == best.value;
      assert sorted[at] == build[best.value];
      NearestIsGreatest(s, p, sorted, at);
      CandidateTimes(s, p, sorted[near.value]);
      CandidateTimes(s, p, build[best.value]);
      SameCandidate(s, p, build, perm[near.value], best.value);
      ToleranceExact(s.tolerance, p[s.probeTime].i, build[best.value][s.buildTime].i);
      MatchedDiffers(s, p, build[best.value]);
    }
  }

  lemma MatchedDiffers(s: AsofSpec, p: Row, b: Row)
    requires s.Valid() && |b| == |s.buildTypes| && b[s.buildTime].Num?
    ensures p + b != p + NullRow(|s.buildTypes|)
  {
    assert (p + b)[|p| + s.buildTime] != (p + NullRow(|s.buildTypes|))[|p| + s.buildTime];
  }

  lemma CandidateTimes(s: AsofSpec, p: Row, b: Row)
    requires s.Valid() && |p| == |s.probeTypes| && |b| == |s.buildTypes| && Candidate(s, p, b)
    ensures p[s.probeTime].Num? && b[s.buildTime].Num? && b[s.buildTime].i <= p[s.probeTime].i
  {
  }

  function ReferenceRows(s: AsofSpec, probe: seq<Row>, build: seq<Row>): seq<Row>
    requires s.Valid() && SameWidth(probe, |s.probeTypes|) && SameWidth(build, |s.buildTypes|)
  {
    if probe == [] then []
    else ReferenceRows(s, probe[..|probe| - 1], build) + ReferenceRow(s, probe[|probe| - 1], build)
  }

  /** The engine's row is never the shorter one: a wrong tolerance test only ever admits. */
  lemma NeverShorter(s: AsofSpec, p: Row, build: seq<Row>, perm: seq<nat>)
    requires s.Valid() && |p| == |s.probeTypes| && SameWidth(build, |s.buildTypes|) && UniqueTimes(s, build)
    requires Indices(perm, |build|)
    requires TimeOrdered(Pick(build, perm), s.buildKeys, s.buildTime, |s.buildTypes|)
    requires TimesFit(s, p, Pick(build, perm))
    ensures |AsofRow(s, p, Pick(build, perm))| >= |ReferenceRow(s, p, build)|
  {
    AsofIsReference(s, p, build, perm);
    if !ToleranceHolds(s, p, build) {
      var r := ReferenceScan(s, p, build);
      CandidateTimes(s, p, build[r.value]);
    }
  }

  lemma TailsEqual(a: seq<Row>, x: seq<Row>, b: seq<Row>, y: seq<Row>)
    requires |a| >= |b| && |x| >= |y|
    ensures a + x == b + y <==> a == b && x == y
  {
    if a + x == b + y {
      assert |a + x| == |b + y|;
      assert a == (a + x)[..|a|] && b == (b + y)[..|b|];
      assert x == (a + x)[|a|..] && y == (b + y)[|b|..];
    }
  }

  /** The whole output is the reference's exactly when the tolerance test holds for every probe row. */
  lemma {:induction false} AsofRowsAreReference(s: AsofSpec, probe: seq<Row>, build: seq<Row>, perm: seq<nat>)
    requires s.Valid() && SameWidth(probe, |s.probeTypes|) && SameWidth(build, |s.buildTypes|)
    requires UniqueTimes(s, build) && Indices(perm, |build|)
    requires TimeOrdered(Pick(build, perm), s.buildKeys, s.buildTime, |s.buildTypes|)
    requires AllTimesFit(s, probe, Pick(build, perm))
    ensures AsofRows(s, probe, Pick(build, perm)) == ReferenceRows(s, probe, build)
      <==> forall k | 0 <= k < |probe| :: ToleranceHolds(s, probe[k], build)
    ensures |AsofRows(s, probe, Pick(build, perm))| >= |ReferenceRows(s, probe, build)|
  {
    hide AsofRow, ReferenceRow, TimeOrdered, UniqueTimes, TimesFit, ReferenceScan, ToleranceHolds;
    if probe != [] {
      var n := |probe| - 1;
      assert forall k | 0 <= k < n :: probe[..n][k] == probe[k];
      AsofRowsAreReference(s, probe[..n], build, perm);
      AsofIsReference(s, probe[n], build, perm);
      NeverShorter(s, probe[n], build, perm);
      TailsEqual(AsofRows(s, probe[..n], Pick(build, perm)), AsofRow(s, probe[n], Pick(build, perm)),
                 ReferenceRows(s, probe[..n], build), ReferenceRow(s, probe[n], build));
    }
  }

  /** With tolerance -1, a build row at the probe row's own time is matched; the definition leaves it out. */
  lemma NegativeToleranceAdmits()
    ensures var s := AsofSpec([TS], [TS], [], [], 0, 0, Inner, Some(-1));
      var p: Row := [Num(0)];
      && s.Valid() && TimesFit(s, p, [p])
      && AsofRow(s, p, [p]) == [p + p] && ReferenceRow(s, p, [p]) == []
  {
    var s := AsofSpec([TS], [TS], [], [], 0, 0, Inner, Some(-1));
    var p: Row := [Num(0)];
    assert RowKey(p, []) == [];
    assert Candidate(s, p, p);
    assert [p][..0] == [];
    assert Nearest(s, p, [p]) == Some(0);
    assert ReferenceScan(s, p, []).None?;
    assert ReferenceScan(s, p, [p]) == Some(0);
  }
}
