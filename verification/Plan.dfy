/**
 Query plans as the parallel driver sees them: which plans can be cut into morsels along
 the driving scan, and what such a plan computes.

 A join's build side is any plan; it is run single-threaded, privately for each morsel, by
 `lower`, which is a parameter here.
 */
module Plans {
  import opened Words
  import opened Columns
  import opened KeyRows
  import opened KeyCodes
  import opened KeyedInputs
  import opened Exprs
  import opened Eval
  import opened Streams
  import opened JoinPairs
  import opened AggMeaning
  import opened GroupBy
  import HashJoins
  import SortOrders

  datatype Plan =
    | Scan(table: Table)
    | Filter(child: Plan, pred: Expr)
    | Project(child: Plan, exprs: seq<Expr>)
    | Join(probe: Plan, build: Plan, probeKeys: seq<nat>, buildKeys: seq<nat>, kind: JoinType)
    | Aggregate(child: Plan, keys: seq<nat>, aggs: seq<AggSpec>)
    | Sort(child: Plan, sortKeys: seq<SortOrders.SortKey>)
    | Other(types: seq<Type>)

  /** Rows per batch inside a morsel. */
  const SCAN_BATCH: nat := 2048

  // ----- plan shapes -----

  predicate StreamingMorselizable(p: Plan) {
    match p
    case Scan(_) => true
    case Filter(c, _) => StreamingMorselizable(c)
    case Project(c, _) => StreamingMorselizable(c)
    case Join(l, _, _, _, _) => StreamingMorselizable(l)
    case _ => false
  }

  /** The table of the driving scan: down the first children. */
  function LeftmostScanTable(p: Plan): Option<Table> {
    match p
    case Scan(t) => Some(t)
    case Filter(c, _) => LeftmostScanTable(c)
    case Project(c, _) => LeftmostScanTable(c)
    case Join(l, _, _, _, _) => LeftmostScanTable(l)
    case Aggregate(c, _, _) => LeftmostScanTable(c)
    case Sort(c, _) => LeftmostScanTable(c)
    case Other(_) => None
  }

  function AggTypes(types: seq<Type>, aggs: seq<AggSpec>): (ts: seq<Type>)
    ensures |ts| == |aggs|
  {
    seq(|aggs|, a requires 0 <= a < |aggs| =>
      (if aggs[a].func.CountStar? || aggs[a].col >= |types| then I64
       else match ResultType(aggs[a].func, types[aggs[a].col]) case Some(t) => t case None => I64))
  }

  function OutputTypes(p: Plan): seq<Type> {
    match p
    case Scan(t) => TableTypes(t)
    case Filter(c, _) => OutputTypes(c)
    case Project(_, es) => ExprTypes(es)
    case Join(l, r, _, _, _) => OutputTypes(l) + OutputTypes(r)
    case Aggregate(c, ks, aggs) => KeyTypesOf(OutputTypes(c), ks) + AggTypes(OutputTypes(c), aggs)
    case Sort(c, _) => OutputTypes(c)
    case Other(ts) => ts
  }

  function KeyTypesOf(types: seq<Type>, keys: seq<nat>): seq<Type> {
    seq(|keys|, j requires 0 <= j < |keys| => if keys[j] < |types| then types[keys[j]] else I64)
  }

  /** Group keys and extrema of strings cannot pass through the exchange of partial aggregates. */
  predicate AggregateExchangeSpeaks(types: seq<Type>, keys: seq<nat>, aggs: seq<AggSpec>) {
    && (forall j | 0 <= j < |keys| :: keys[j] < |types| ==> !types[keys[j]].STR?)
    && (forall a | 0 <= a < |aggs| && (aggs[a].func.Min? || aggs[a].func.Max?) ::
          aggs[a].col < |types| ==> !types[aggs[a].col].STR?)
  }

  /** The plans the parallel driver takes; the others run on one thread. */
  predicate Supported(p: Plan) {
    match p
    case Sort(c, _) => Supported(c)
    case Aggregate(c, ks, aggs) =>
      AggregateExchangeSpeaks(OutputTypes(c), ks, aggs) && StreamingMorselizable(c)
    case _ => StreamingMorselizable(p)
  }

  /** What is below all the sorts. */
  function BelowSorts(p: Plan): (c: Plan)
    ensures !c.Sort?
  {
    match p case Sort(c, _) => BelowSorts(c) case _ => p
  }

  /** The input a streaming operator passes on batch by batch. */
  predicate Feeds(p: Plan, c: Plan) {
    ((p.Filter? || p.Project?) && p.child == c) || (p.Join? && p.probe == c)
  }

  /** From `p` down to a scan through filters, projections and the probe sides of joins. */
  ghost predicate IsSpine(p: Plan, spine: seq<Plan>) {
    && spine != [] && spine[0] == p && spine[|spine| - 1].Scan?
    && forall i | 0 <= i < |spine| - 1 :: Feeds(spine[i], spine[i + 1])
  }

  lemma {:induction false} StreamingHasSpine(p: Plan) returns (spine: seq<Plan>)
    requires StreamingMorselizable(p)
    ensures IsSpine(p, spine)
    decreases p
  {
    if p.Scan? {
      spine := [p];
    } else {
      var rest := StreamingHasSpine(if p.Join? then p.probe else p.child);
      spine := [p] + rest;
      forall i | 0 <= i < |spine| - 1 ensures Feeds(spine[i], spine[i + 1]) {
        if i > 0 { assert Feeds(rest[i - 1], rest[i]); }
      }
    }
  }

  lemma {:induction false} SpineStreams(p: Plan, spine: seq<Plan>)
    requires IsSpine(p, spine)
    ensures StreamingMorselizable(p)
    decreases |spine|
  {
    if |spine| > 1 {
      var rest := spine[1..];
      assert Feeds(spine[0], spine[1]);
      forall i | 0 <= i < |rest| - 1 ensures Feeds(rest[i], rest[i + 1]) { assert Feeds(spine[i + 1], spine[i + 2]); }
      SpineStreams(spine[1], rest);
    }
  }

  lemma StreamingIs(p: Plan)
    ensures StreamingMorselizable(p) <==> exists spine :: IsSpine(p, spine)
  {
    if StreamingMorselizable(p) { var spine := StreamingHasSpine(p); }
    if spine :| IsSpine(p, spine) { SpineStreams(p, spine); }
  }

  /** No group key is a string, and no MIN or MAX is of strings. */
  ghost predicate NoStringsExchanged(types: seq<Type>, keys: seq<nat>, aggs: seq<AggSpec>) {
    && (forall k | k in keys && k < |types| :: !types[k].STR?)
    && forall a | a in aggs && (a.func.Min? || a.func.Max?) && a.col < |types| :: !types[a.col].STR?
  }

  lemma ExchangeIs(types: seq<Type>, keys: seq<nat>, aggs: seq<AggSpec>)
    ensures AggregateExchangeSpeaks(types, keys, aggs) <==> NoStringsExchanged(types, keys, aggs)
  {
    if AggregateExchangeSpeaks(types, keys, aggs) {
      forall k | k in keys && k < |types| ensures !types[k].STR? {}
      forall a | a in aggs && (a.func.Min? || a.func.Max?) && a.col < |types| ensures !types[a.col].STR? {}
    }
  }

  /**
   The supported plans are exactly those with a spine, and the aggregates over one that
   exchange no strings, under any number of sorts; each has the driving table of its spine.
   */
  lemma {:induction false} SupportedShape(p: Plan)
    ensures Supported(p) <==>
      match BelowSorts(p)
      case Aggregate(c, ks, aggs) => NoStringsExchanged(OutputTypes(c), ks, aggs) && exists spine :: IsSpine(c, spine)
      case c => exists spine :: IsSpine(c, spine)
    ensures Supported(p) ==> LeftmostScanTable(p).Some? && LeftmostScanTable(p) == LeftmostScanTable(BelowSorts(p))
  {
    hide IsSpine, NoStringsExchanged, AggregateExchangeSpeaks;
    match p {
      case Sort(c, _) => SupportedShape(c);
      case Aggregate(c, ks, aggs) =>
        StreamingIs(c);
        ExchangeIs(OutputTypes(c), ks, aggs);
        if StreamingMorselizable(c) { StreamingHasScan(c); }
      case _ =>
        StreamingIs(p);
        if StreamingMorselizable(p) { StreamingHasScan(p); }
    }
  }

  /** The driving table is the one scanned at the end of the spine. */
  lemma {:induction false} SpineDrives(p: Plan, spine: seq<Plan>)
    requires IsSpine(p, spine)
    ensures LeftmostScanTable(p) == Some(spine[|spine| - 1].table)
    decreases |spine|
  {
    if |spine| > 1 {
      var rest := spine[1..];
      assert Feeds(spine[0], spine[1]);
      forall i | 0 <= i < |rest| - 1 ensures Feeds(rest[i], rest[i + 1]) { assert Feeds(spine[i + 1], spine[i + 2]); }
      SpineDrives(spine[1], rest);
    }
  }

  lemma {:induction false} StreamingHasScan(p: Plan)
    requires StreamingMorselizable(p)
    ensures LeftmostScanTable(p).Some?
  {
    match p {
      case Filter(c, _) => StreamingHasScan(c);
      case Project(c, _) => StreamingHasScan(c);
      case Join(l, _, _, _, _) => StreamingHasScan(l);
      case _ =>
    }
  }

  // ----- what a streaming plan computes -----

  /** The functions the plan is run with, and the single-threaded run of a build side. */
  datatype Env = Env(fl: Floats, lower: Plan -> seq<Batch>)

  function JoinSpecOf(p: Plan): HashJoins.JoinSpec
    requires p.Join?
  {
    HashJoins.JoinSpec(OutputTypes(p.probe), OutputTypes(p.build), p.probeKeys, p.buildKeys, p.kind)
  }

  ghost predicate StreamOk(env: Env, p: Plan) {
    match p
    case Scan(t) => t.Valid()
    case Filter(c, e) => StreamOk(env, c) && WellTyped(e, OutputTypes(c)) && TypeOf(e).BOOL?
    case Project(c, es) => StreamOk(env, c) && AllWellTyped(es, OutputTypes(c))
    case Join(l, r, _, _, _) =>
      && StreamOk(env, l) && JoinSpecOf(p).Valid() && JoinSpecOf(p).SameKeyTypes()
      && Conforms(env.lower(r), OutputTypes(r))
    case _ => false
  }

  /** The output for a stretch of the driving table's rows. */
  function SemOn(env: Env, p: Plan, driving: seq<Row>): (out: seq<Row>)
    requires StreamOk(env, p) && SameWidth(driving, |DrivingTypes(env, p)|)
    ensures SameWidth(out, |OutputTypes(p)|)
    decreases p
  {
    match p
    case Scan(t) => driving
    case Filter(c, e) => FilterRows(env.fl, e, OutputTypes(c), SemOn(env, c, driving))
    case Project(c, es) => ProjectRows(env.fl, es, OutputTypes(c), SemOn(env, c, driving))
    case Join(l, r, _, _, _) =>
      ConformingWidth(env.lower(r), OutputTypes(r));
      JoinWidth(JoinSpecOf(p), SemOn(env, l, driving), RowsOf(env.lower(r)));
      HashJoins.NestedLoopJoin(JoinSpecOf(p), SemOn(env, l, driving), RowsOf(env.lower(r)))
  }

  function DrivingTypes(env: Env, p: Plan): seq<Type>
    requires StreamOk(env, p)
    decreases p
  {
    match p
    case Scan(t) => TableTypes(t)
    case Filter(c, _) => DrivingTypes(env, c)
    case Project(c, _) => DrivingTypes(env, c)
    case Join(l, _, _, _, _) => DrivingTypes(env, l)
  }

  lemma {:induction false} InnerWidth(s: HashJoins.JoinSpec, p: Row, build: seq<Row>)
    requires s.Valid() && |p| == |s.probeTypes| && SameWidth(build, |s.buildTypes|)
    ensures SameWidth(HashJoins.InnerLoop(s, p, build), |s.probeTypes| + |s.buildTypes|)
  {
    hide HashJoins.Joins;
    if build != [] { InnerWidth(s, p, build[..|build| - 1]); }
  }

  lemma {:induction false} JoinWidth(s: HashJoins.JoinSpec, probe: seq<Row>, build: seq<Row>)
    requires s.Valid() && SameWidth(probe, |s.probeTypes|) && SameWidth(build, |s.buildTypes|)
    ensures SameWidth(HashJoins.NestedLoopJoin(s, probe, build), |s.probeTypes| + |s.buildTypes|)
  {
    hide HashJoins.InnerLoop;
    if probe != [] {
      JoinWidth(s, probe[..|probe| - 1], build);
      InnerWidth(s, probe[|probe| - 1], build);
    }
  }

  /** A streaming plan distributes over cutting the driving rows. */
  lemma {:induction false} SemConcat(env: Env, p: Plan, a: seq<Row>, b: seq<Row>)
    requires StreamOk(env, p) && SameWidth(a, |DrivingTypes(env, p)|) && SameWidth(b, |DrivingTypes(env, p)|)
    ensures SemOn(env, p, a + b) == SemOn(env, p, a) + SemOn(env, p, b)
    decreases p
  {
    hide FilterRows, ProjectRows, HashJoins.NestedLoopJoin, WellTyped, AllWellTyped;
    match p {
      case Scan(_) =>
      case Filter(c, e) =>
        SemConcat(env, c, a, b);
        FilterConcat(env.fl, e, OutputTypes(c), SemOn(env, c, a), SemOn(env, c, b));
      case Project(c, es) =>
        SemConcat(env, c, a, b);
        ProjectConcat(env.fl, es, OutputTypes(c), SemOn(env, c, a), SemOn(env, c, b));
      case Join(l, r, _, _, _) =>
        SemConcat(env, l, a, b);
        ConformingWidth(env.lower(r), OutputTypes(r));
        HashJoins.JoinConcat(JoinSpecOf(p), SemOn(env, l, a), SemOn(env, l, b), RowsOf(env.lower(r)));
    }
  }

  lemma {:induction false} SemNone(env: Env, p: Plan)
    requires StreamOk(env, p)
    ensures SemOn(env, p, []) == []
    decreases p
  {
    match p {
      case Scan(_) =>
      case Filter(c, _) => SemNone(env, c);
      case Project(c, _) => SemNone(env, c);
      case Join(l, r, _, _, _) =>
        SemNone(env, l);
        ConformingWidth(env.lower(r), OutputTypes(r));
    }
  }

  lemma {:induction false} DrivingIsLeftmost(env: Env, p: Plan)
    requires StreamOk(env, p)
    ensures StreamingMorselizable(p) && LeftmostScanTable(p).Some?
    ensures LeftmostScanTable(p).value.Valid() && TableTypes(LeftmostScanTable(p).value) == DrivingTypes(env, p)
    decreases p
  {
    match p {
      case Scan(_) =>
      case Filter(c, _) => DrivingIsLeftmost(env, c);
      case Project(c, _) => DrivingIsLeftmost(env, c);
      case Join(l, _, _, _, _) => DrivingIsLeftmost(env, l);
    }
  }

  /** What the plan computes on one thread: over all the driving table's rows. */
  function Sem(env: Env, p: Plan): (out: seq<Row>)
    requires StreamOk(env, p)
    ensures SameWidth(out, |OutputTypes(p)|)
  {
    DrivingIsLeftmost(env, p);
    SemOn(env, p, LeftmostScanTable(p).value.Rows())
  }

  /** Node by node: a scan gives its table's rows, and every other node its operator's output for what its child gives. */
  lemma SemMeans(env: Env, p: Plan)
    requires StreamOk(env, p)
    ensures p.Scan? ==> Sem(env, p) == p.table.Rows()
    ensures p.Filter? ==> IsFilter(env.fl, p.pred, OutputTypes(p.child), Sem(env, p.child), Sem(env, p))
    ensures p.Project? ==> IsProjection(env.fl, p.exprs, OutputTypes(p.child), Sem(env, p.child), Sem(env, p))
    ensures p.Join? ==>
      HashJoins.IsJoin(HashJoins.JoinSpec(OutputTypes(p.probe), OutputTypes(p.build), p.probeKeys, p.buildKeys, p.kind),
        Sem(env, p.probe), RowsOf(env.lower(p.build)), Sem(env, p))
  {
    hide FilterRows, ProjectRows, HashJoins.NestedLoopJoin, WellTyped, AllWellTyped, IsFilter, IsProjection, HashJoins.IsJoin;
    match p {
      case Filter(c, e) => FilterMeans(env.fl, e, OutputTypes(c), Sem(env, c));
      case Project(c, es) => ProjectMeans(env.fl, es, OutputTypes(c), Sem(env, c));
      case Join(l, r, _, _, _) =>
        ConformingWidth(env.lower(r), OutputTypes(r));
        HashJoins.NestedLoopsJoin(JoinSpecOf(p), Sem(env, l), RowsOf(env.lower(r)));
      case _ =>
    }
  }
}
