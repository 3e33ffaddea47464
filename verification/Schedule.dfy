/**
 The morsel dispenser as a state machine: workers fetch-and-add one shared cursor, each
 holding at most the morsel it last took. Steps of different workers interleave in any
 order; nothing below depends on which.
 */
module Schedules {
  import opened Words

  datatype Worker = Idle(finished: seq<nat>) | Busy(finished: seq<nat>, morsel: nat) | Stopped(finished: seq<nat>)

  datatype Pool = Pool(cursor: nat, workers: seq<Worker>)

  /** Take the next morsel, or stop for want of one; or finish the one in hand. */
  datatype Step = Fetch(w: nat) | Finish(w: nat)

  function Init(threads: nat): (s: Pool)
    ensures |s.workers| == threads
  {
    Pool(0, seq(threads, _ => Idle([])))
  }

  predicate Enabled(s: Pool, step: Step) {
    match step
    case Fetch(w) => w < |s.workers| && s.workers[w].Idle?
    case Finish(w) => w < |s.workers| && s.workers[w].Busy?
  }

  function After(s: Pool, n: nat, step: Step): (s': Pool)
    requires Enabled(s, step)
    ensures |s'.workers| == |s.workers|
  {
    match step
    case Fetch(w) =>
      var done := s.workers[w].finished;
      Pool(s.cursor + 1, s.workers[w := if s.cursor < n then Busy(done, s.cursor) else Stopped(done)])
    case Finish(w) =>
      var x := s.workers[w];
      Pool(s.cursor, s.workers[w := Idle(x.finished + [x.morsel])])
  }

  /** A run: each step enabled where it is taken. */
  ghost predicate IsRun(s: Pool, n: nat, run: seq<Step>)
    decreases |run|, 0
  {
    run == [] || (IsRun(s, n, run[..|run| - 1]) && Enabled(AfterRun(s, n, run[..|run| - 1]), run[|run| - 1]))
  }

  function AfterRun(s: Pool, n: nat, run: seq<Step>): (s': Pool)
    requires IsRun(s, n, run)
    ensures |s'.workers| == |s.workers|
    decreases |run|, 1
  {
    if run == [] then s else After(AfterRun(s, n, run[..|run| - 1]), n, run[|run| - 1])
  }

  predicate Final(s: Pool) { forall w | 0 <= w < |s.workers| :: s.workers[w].Stopped? }

  // ----- every morsel exactly once -----

  /** The morsels a worker has had. */
  function Had(x: Worker): seq<nat> { if x.Busy? then x.finished + [x.morsel] else x.finished }

  function Times(s: seq<nat>, i: nat): nat { multiset(s)[i] }

  /** How often morsel `i` was taken, by all the workers together. */
  function Taken(workers: seq<Worker>, i: nat): nat {
    if workers == [] then 0
    else Taken(workers[..|workers| - 1], i) + Times(Had(workers[|workers| - 1]), i)
  }

  /** What holds in every reachable state: each morsel before the cursor was taken once, no other at all. */
  ghost predicate Inv(s: Pool, n: nat) {
    && (forall i: nat :: Taken(s.workers, i) == if i < s.cursor && i < n then 1 else 0)
    && forall w | 0 <= w < |s.workers| && s.workers[w].Stopped? :: s.cursor > n
  }

  lemma {:induction false} TakenInit(threads: nat, i: nat)
    ensures Taken(seq(threads, _ => Idle([])), i) == 0
  {
    if threads > 0 {
      assert seq(threads, _ => Idle([]))[..threads - 1] == seq(threads - 1, _ => Idle([]));
      TakenInit(threads - 1, i);
    }
  }

  /** Replacing one worker changes what is taken by that worker's share. */
  lemma {:induction false} TakenUpdate(workers: seq<Worker>, w: nat, x: Worker, i: nat)
    requires w < |workers|
    ensures Taken(workers[w := x], i) == Taken(workers, i) - Times(Had(workers[w]), i) + Times(Had(x), i)
  {
    hide Times, Had;
    var n := |workers| - 1;
    if w == n {
      assert workers[w := x][..n] == workers[..n];
    } else {
      assert workers[w := x][..n] == workers[..n][w := x];
      TakenUpdate(workers[..n], w, x, i);
    }
  }

  lemma StepKeepsInv(s: Pool, n: nat, step: Step)
    requires Inv(s, n) && Enabled(s, step)
    ensures Inv(After(s, n, step), n)
  {
    hide Taken;
    forall i: nat
      ensures Taken(After(s, n, step).workers, i) == if i < After(s, n, step).cursor && i < n then 1 else 0
    {
      TakenAfter(s, n, step, i);
    }
  }

  /** A step takes the morsel at the cursor, or none. */
  lemma TakenAfter(s: Pool, n: nat, step: Step, i: nat)
    requires Enabled(s, step)
    ensures Taken(After(s, n, step).workers, i)
         == Taken(s.workers, i) + (if step.Fetch? && s.cursor < n && i == s.cursor then 1 else 0)
  {
    hide Taken, Times, Had;
    TakenUpdate(s.workers, step.w, After(s, n, step).workers[step.w], i);
    HadAfter(s, n, step, i);
  }

  lemma HadAfter(s: Pool, n: nat, step: Step, i: nat)
    requires Enabled(s, step)
    ensures Times(Had(After(s, n, step).workers[step.w]), i)
         == Times(Had(s.workers[step.w]), i) + (if step.Fetch? && s.cursor < n && i == s.cursor then 1 else 0)
  {
  }

  lemma {:induction false} RunKeepsInv(threads: nat, n: nat, run: seq<Step>)
    requires IsRun(Init(threads), n, run)
    ensures Inv(AfterRun(Init(threads), n, run), n)
    decreases |run|
  {
    hide Taken;
    if run == [] {
      forall i: nat ensures Taken(Init(threads).workers, i) == 0 { TakenInit(threads, i); }
    } else {
      RunKeepsInv(threads, n, run[..|run| - 1]);
      StepKeepsInv(AfterRun(Init(threads), n, run[..|run| - 1]), n, run[|run| - 1]);
    }
  }

  /** No morsel is ever taken twice, on any interleaving. */
  lemma NeverTwice(threads: nat, n: nat, run: seq<Step>, i: nat)
    requires IsRun(Init(threads), n, run)
    ensures Taken(AfterRun(Init(threads), n, run).workers, i) <= 1
  {
    hide Taken;
    RunKeepsInv(threads, n, run);
  }

  /** When every worker has stopped, every morsel was taken exactly once. */
  lemma CompleteRunTakesAll(threads: nat, n: nat, run: seq<Step>, i: nat)
    requires threads > 0 && IsRun(Init(threads), n, run) && Final(AfterRun(Init(threads), n, run))
    ensures Taken(AfterRun(Init(threads), n, run).workers, i) == if i < n then 1 else 0
  {
    hide Taken;
    RunKeepsInv(threads, n, run);
    assert AfterRun(Init(threads), n, run).workers[0].Stopped?;
  }

  // ----- every schedule finishes -----

  function Weight(x: Worker): nat { if x.Busy? then 2 else if x.Idle? then 1 else 0 }

  function Weights(workers: seq<Worker>): nat {
    if workers == [] then 0 else Weights(workers[..|workers| - 1]) + Weight(workers[|workers| - 1])
  }

  /** Steps still possible. */
  function Measure(s: Pool, n: nat): nat { 3 * (if s.cursor < n then n - s.cursor else 0) + Weights(s.workers) }

  lemma {:induction false} WeightsUpdate(workers: seq<Worker>, w: nat, x: Worker)
    requires w < |workers|
    ensures Weights(workers[w := x]) + Weight(workers[w]) == Weights(workers) + Weight(x)
  {
    var n := |workers| - 1;
    if w == n {
      assert workers[w := x][..n] == workers[..n];
    } else {
      assert workers[w := x][..n] == workers[..n][w := x];
      WeightsUpdate(workers[..n], w, x);
    }
  }

  /** Every step brings the end nearer, and short of the end some step is enabled. */
  lemma Progress(s: Pool, n: nat)
    ensures forall step | Enabled(s, step) :: Measure(After(s, n, step), n) < Measure(s, n)
    ensures !Final(s) ==> exists step :: Enabled(s, step)
  {
    forall step | Enabled(s, step) ensures Measure(After(s, n, step), n) < Measure(s, n) {
      WeightsUpdate(s.workers, step.w, After(s, n, step).workers[step.w]);
    }
    if !Final(s) {
      var w :| 0 <= w < |s.workers| && !s.workers[w].Stopped?;
      assert Enabled(s, if s.workers[w].Idle? then Fetch(w) else Finish(w));
    }
  }

  /** So no run is longer than three steps a morsel and one a worker. */
  lemma {:induction false} RunsAreShort(threads: nat, n: nat, run: seq<Step>)
    requires IsRun(Init(threads), n, run)
    ensures |run| + Measure(AfterRun(Init(threads), n, run), n) <= 3 * n + threads
    decreases |run|
  {
    if run == [] {
      IdleWeights(threads);
    } else {
      RunsAreShort(threads, n, run[..|run| - 1]);
      Progress(AfterRun(Init(threads), n, run[..|run| - 1]), n);
    }
  }

  lemma {:induction false} IdleWeights(threads: nat)
    ensures Weights(seq(threads, _ => Idle([]))) == threads
  {
    if threads > 0 {
      assert seq(threads, _ => Idle([]))[..threads - 1] == seq(threads - 1, _ => Idle([]));
      IdleWeights(threads - 1);
    }
  }

  // ----- collecting what the morsels gave -----

  /** The morsels of all workers, worker by worker, each in the order it finished them. */
  function Order(workers: seq<Worker>): seq<nat> {
    if workers == [] then [] else Order(workers[..|workers| - 1]) + workers[|workers| - 1].finished
  }

  lemma {:induction false} OrderIsTaken(workers: seq<Worker>, i: nat)
    requires forall w | 0 <= w < |workers| :: workers[w].Stopped?
    ensures Times(Order(workers), i) == Taken(workers, i)
  {
    if workers != [] { OrderIsTaken(workers[..|workers| - 1], i); }
  }

  /** The pieces `order` names, one after another. */
  function Flat<T>(pieces: seq<seq<T>>, order: seq<nat>): seq<T>
    requires forall i | 0 <= i < |order| :: order[i] < |pieces|
  {
    if order == [] then [] else Flat(pieces, order[..|order| - 1]) + pieces[order[|order| - 1]]
  }

  function Upto(n: nat): (s: seq<nat>)
    ensures |s| == n && forall i | 0 <= i < n :: s[i] == i
  {
    seq(n, i => i)
  }

  lemma {:induction false} UptoOnce(n: nat, i: nat)
    ensures Times(Upto(n), i) == if i < n then 1 else 0
  {
    if n > 0 {
      UptoOnce(n - 1, i);
      assert Upto(n) == Upto(n - 1) + [n - 1];
    }
  }

  lemma {:induction false} FlatConcat<T>(pieces: seq<seq<T>>, a: seq<nat>, b: seq<nat>)
    requires forall i | 0 <= i < |a| :: a[i] < |pieces|
    requires forall i | 0 <= i < |b| :: b[i] < |pieces|
    ensures Flat(pieces, a + b) == Flat(pieces, a) + Flat(pieces, b)
  {
    if b == [] {
      assert a + b == a;
    } else {
      assert (a + b)[..|a + b| - 1] == a + b[..|b| - 1];
      FlatConcat(pieces, a, b[..|b| - 1]);
    }
  }

  /** As a multiset, what is collected depends only on which morsels were done. */
  lemma {:induction false} FlatReordered<T>(pieces: seq<seq<T>>, a: seq<nat>, b: seq<nat>)
    requires multiset(a) == multiset(b)
    requires forall i | 0 <= i < |a| :: a[i] < |pieces|
    requires forall i | 0 <= i < |b| :: b[i] < |pieces|
    ensures multiset(Flat(pieces, a)) == multiset(Flat(pieces, b))
  {
    assert |multiset(a)| == |multiset(b)|;
    if a != [] {
      hide Flat;
      var n := |a| - 1;
      var at := Elsewhere(a, b);
      FlatReordered(pieces, a[..n], b[..at] + b[at + 1..]);
      FlatLast(pieces, a);
      FlatSplit(pieces, b[..at], a[n], b[at + 1..]);
    }
  }

  /** The last of `a` occurs in `b`, and without it the two are still reorderings. */
  lemma Elsewhere(a: seq<nat>, b: seq<nat>) returns (at: nat)
    requires a != [] && multiset(a) == multiset(b)
    ensures at < |b| && b[at] == a[|a| - 1] && b == b[..at] + ([a[|a| - 1]] + b[at + 1..])
    ensures multiset(a[..|a| - 1]) == multiset(b[..at] + b[at + 1..])
  {
    var v := a[|a| - 1];
    InitAndLast(a);
    assert v in multiset(b);
    at :| 0 <= at < |b| && b[at] == v;
    SplitOut(b, at);
    Uncounted(multiset(a[..|a| - 1]), multiset(b[..at] + b[at + 1..]), v);
  }

  lemma FlatLast<T>(pieces: seq<seq<T>>, a: seq<nat>)
    requires a != [] && forall i | 0 <= i < |a| :: a[i] < |pieces|
    ensures multiset(Flat(pieces, a)) == multiset(Flat(pieces, a[..|a| - 1])) + multiset(pieces[a[|a| - 1]])
  {
  }

  lemma InitAndLast(a: seq<nat>)
    requires a != []
    ensures multiset(a) == multiset(a[..|a| - 1]) + multiset{a[|a| - 1]}
  {
    assert a == a[..|a| - 1] + [a[|a| - 1]];
  }

  lemma FlatSplit<T>(pieces: seq<seq<T>>, x: seq<nat>, v: nat, y: seq<nat>)
    requires v < |pieces| && (forall i | 0 <= i < |x| :: x[i] < |pieces|) && forall i | 0 <= i < |y| :: y[i] < |pieces|
    ensures multiset(Flat(pieces, x + ([v] + y))) == multiset(Flat(pieces, x + y)) + multiset(pieces[v])
  {
    hide Flat;
    FlatConcat(pieces, x, y);
    FlatConcat(pieces, x, [v] + y);
    FlatConcat(pieces, [v], y);
    FlatOne(pieces, v);
  }

  lemma SplitOut(b: seq<nat>, at: nat)
    requires at < |b|
    ensures b == b[..at] + ([b[at]] + b[at + 1..])
    ensures multiset(b) == multiset(b[..at] + b[at + 1..]) + multiset{b[at]}
  {
    assert b == b[..at] + ([b[at]] + b[at + 1..]);
  }

  lemma FlatOne<T>(pieces: seq<seq<T>>, v: nat)
    requires v < |pieces|
    ensures Flat(pieces, [v]) == pieces[v]
  {
    assert [v][..0] == [];
  }

  /** After any complete run, what the workers collected is all the pieces, reordered. */
  lemma CollectsAll<T>(pieces: seq<seq<T>>, threads: nat, run: seq<Step>)
    requires threads > 0 && IsRun(Init(threads), |pieces|, run) && Final(AfterRun(Init(threads), |pieces|, run))
    ensures var order := Order(AfterRun(Init(threads), |pieces|, run).workers);
      && (forall i | 0 <= i < |order| :: order[i] < |pieces|)
      && multiset(order) == multiset(Upto(|pieces|))
      && multiset(Flat(pieces, order)) == multiset(Flat(pieces, Upto(|pieces|)))
  {
    var s := AfterRun(Init(threads), |pieces|, run);
    var order := Order(s.workers);
    hide Taken, Order, Flat;
    forall i: nat ensures multiset(order)[i] == multiset(Upto(|pieces|))[i] == if i < |pieces| then 1 else 0 {
      CompleteRunTakesAll(threads, |pieces|, run, i);
      OrderIsTaken(s.workers, i);
      UptoOnce(|pieces|, i);
    }
    forall i | 0 <= i < |order| ensures order[i] < |pieces| {
      assert order[i] in multiset(order);
    }
    FlatReordered(pieces, order, Upto(|pieces|));
  }
}
