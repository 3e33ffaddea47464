/**
 Every way of handing the morsels to the workers is what some complete schedule does.
 */
module Assignments {
  import opened Words
  import opened Schedules

  /** All workers stopped, by enabled steps only. */
  ghost predicate Complete(threads: nat, n: nat, run: seq<Step>) {
    IsRun(Init(threads), n, run) && Final(AfterRun(Init(threads), n, run))
  }

  /** The owner of each morsel takes it and finishes it, one morsel after another. */
  function Turns(owner: seq<nat>): seq<Step> {
    if owner == [] then []
    else
      var w := owner[|owner| - 1];
      Turns(owner[..|owner| - 1]) + [Fetch(w)] + [Finish(w)]
  }

  /** Then the first `k` workers find the cursor at the end, and stop. */
  function Stops(k: nat): seq<Step> { if k == 0 then [] else Stops(k - 1) + [Fetch(k - 1)] }

  /** The morsels of a worker, in order. */
  function Owned(owner: seq<nat>, w: nat): (m: seq<nat>)
    ensures forall i | 0 <= i < |m| :: m[i] < |owner|
  {
    if owner == [] then []
    else Owned(owner[..|owner| - 1], w) + (if owner[|owner| - 1] == w then [|owner| - 1] else [])
  }

  function Idlers(threads: nat, owner: seq<nat>): (ws: seq<Worker>)
    ensures |ws| == threads
  {
    seq(threads, w requires 0 <= w < threads => Idle(Owned(owner, w)))
  }

  function Stoppers(threads: nat, owner: seq<nat>, k: nat): (ws: seq<Worker>)
    ensures |ws| == threads
  {
    seq(threads, w requires 0 <= w < threads => if w < k then Stopped(Owned(owner, w)) else Idle(Owned(owner, w)))
  }

  lemma RunSnoc(s: Pool, n: nat, run: seq<Step>, step: Step)
    requires IsRun(s, n, run) && Enabled(AfterRun(s, n, run), step)
    ensures IsRun(s, n, run + [step]) && AfterRun(s, n, run + [step]) == After(AfterRun(s, n, run), n, step)
  {
    assert (run + [step])[..|run + [step]| - 1] == run;
  }

  lemma TurnWorkers(threads: nat, owner: seq<nat>)
    requires owner != [] && owner[|owner| - 1] < threads
    ensures var k, w := |owner| - 1, owner[|owner| - 1];
      Idlers(threads, owner[..k])[w := Idle(Owned(owner[..k], w) + [k])] == Idlers(threads, owner)
  {
    var k := |owner| - 1;
    forall v: nat | v < threads && v != owner[k] ensures Owned(owner, v) == Owned(owner[..k], v) {
      assert Owned(owner[..k], v) + [] == Owned(owner[..k], v);
    }
  }

  lemma {:induction false} TurnsRun(threads: nat, n: nat, owner: seq<nat>)
    requires |owner| <= n && forall k | 0 <= k < |owner| :: owner[k] < threads
    ensures IsRun(Init(threads), n, Turns(owner))
    ensures AfterRun(Init(threads), n, Turns(owner)) == Pool(|owner|, Idlers(threads, owner))
  {
    if owner == [] {
      assert Init(threads).workers == Idlers(threads, []);
    } else {
      var k, w := |owner| - 1, owner[|owner| - 1];
      var before := Turns(owner[..k]);
      TurnsRun(threads, n, owner[..k]);
      TurnWorkers(threads, owner);
      hide IsRun, AfterRun, Idlers;
      TurnTaken(threads, n, owner[..k], w);
      RunSnoc(Init(threads), n, before, Fetch(w));
      RunSnoc(Init(threads), n, before + [Fetch(w)], Finish(w));
    }
  }

  /** A turn: the next morsel is fetched and finished. */
  lemma TurnTaken(threads: nat, n: nat, owner: seq<nat>, w: nat)
    requires w < threads && |owner| < n
    ensures var s := Pool(|owner|, Idlers(threads, owner));
      && Enabled(s, Fetch(w)) && Enabled(After(s, n, Fetch(w)), Finish(w))
      && After(After(s, n, Fetch(w)), n, Finish(w))
      == Pool(|owner| + 1, Idlers(threads, owner)[w := Idle(Owned(owner, w) + [|owner|])])
  {
  }

  lemma {:induction false} StopsRun(threads: nat, n: nat, owner: seq<nat>, k: nat)
    requires |owner| == n && k <= threads && forall i | 0 <= i < |owner| :: owner[i] < threads
    ensures var run := Turns(owner) + Stops(k);
      && IsRun(Init(threads), n, run)
      && AfterRun(Init(threads), n, run) == Pool(n + k, Stoppers(threads, owner, k))
  {
    if k == 0 {
      TurnsRun(threads, n, owner);
      assert Turns(owner) + Stops(0) == Turns(owner);
      assert Idlers(threads, owner) == Stoppers(threads, owner, 0);
    } else {
      StopsRun(threads, n, owner, k - 1);
      var run := Turns(owner) + Stops(k - 1);
      assert Turns(owner) + Stops(k) == run + [Fetch(k - 1)];
      assert Stoppers(threads, owner, k - 1)[k - 1 := Stopped(Owned(owner, k - 1))] == Stoppers(threads, owner, k);
      hide IsRun, AfterRun;
      RunSnoc(Init(threads), n, run, Fetch(k - 1));
    }
  }

  /** Some complete run gives every worker exactly the morsels assigned to it. */
  lemma EveryAssignment(threads: nat, owner: seq<nat>) returns (run: seq<Step>)
    requires forall i | 0 <= i < |owner| :: owner[i] < threads
    ensures Complete(threads, |owner|, run)
    ensures AfterRun(Init(threads), |owner|, run).workers == Stoppers(threads, owner, threads)
  {
    run := Turns(owner) + Stops(threads);
    StopsRun(threads, |owner|, owner, threads);
  }

  // ----- one morsel apart from the others -----

  /** Morsel `c` to worker 0, the others to worker 1. */
  function Apart(n: nat, c: nat): seq<nat> { seq(n, k => if k == c then 0 else 1) }

  lemma {:induction false} ApartAlone(n: nat, c: nat, m: nat)
    requires m <= n
    ensures Owned(Apart(n, c)[..m], 0) == if c < m then [c] else []
  {
    if m > 0 {
      assert Apart(n, c)[..m][..m - 1] == Apart(n, c)[..m - 1];
      ApartAlone(n, c, m - 1);
    }
  }

  lemma {:induction false} ApartRest(n: nat, c: nat, m: nat, d: nat)
    requires d < m <= n && d != c
    ensures d in Owned(Apart(n, c)[..m], 1)
  {
    assert Apart(n, c)[..m][..m - 1] == Apart(n, c)[..m - 1];
    if d < m - 1 { ApartRest(n, c, m - 1, d); }
  }
}
