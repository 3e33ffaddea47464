/**
 Aggregates of two groups of values make the aggregate of their union, and the order of a
 group's values does not matter. This is what lets an input be aggregated in pieces.
 */
module AggMerge {
  import opened Words
  import opened Columns
  import opened KeyCodes
  import opened SortOrders
  import opened AggMeaning
  import opened ExactSums
  import D = StringDicts
  import F64

  lemma {:induction false} NonNullConcat(a: seq<Cell>, b: seq<Cell>)
    ensures NonNull(a + b) == NonNull(a) + NonNull(b)
  {
    if b == [] {
      assert a + b == a;
    } else {
      assert (a + b)[..|a + b| - 1] == a + b[..|b| - 1];
      NonNullConcat(a, b[..|b| - 1]);
    }
  }

  lemma {:induction false} SumIntsConcat(a: seq<Cell>, b: seq<Cell>)
    ensures SumInts(a + b) == SumInts(a) + SumInts(b)
  {
    if b == [] {
      assert a + b == a;
    } else {
      assert (a + b)[..|a + b| - 1] == a + b[..|b| - 1];
      SumIntsConcat(a, b[..|b| - 1]);
    }
  }

  /** Without rounding, partial sums of doubles add up. */
  lemma SumFloatsConcat(ops: FloatOps, a: seq<Cell>, b: seq<Cell>)
    requires Exact(ops, Doubles(a + b))
    ensures Exact(ops, Doubles(a)) && Exact(ops, Doubles(b))
    ensures SumFloats(ops, a + b) == ops.add(SumFloats(ops, a), SumFloats(ops, b))
    ensures ops.add(SumFloats(ops, a), 0) == SumFloats(ops, a) && ops.add(0, SumFloats(ops, b)) == SumFloats(ops, b)
  {
    hide Exact, FloatTotal, Doubles;
    DoublesConcat(a, b);
    ExactConcat(ops, Doubles(a), Doubles(b));
    ZeroAdds(ops, Doubles(a));
    ZeroAdds(ops, Doubles(b));
  }

  /** The better of two extrema is the extremum of both groups. */
  lemma MergeExtreme(func: AggFunc, c: Cell, a: seq<Cell>, c2: Cell, b: seq<Cell>, c': Cell)
    requires (func.Min? || func.Max?) && Extreme(func, c, a) && Extreme(func, c2, b) && !c'.Null?
    requires if (if func.Min? then ValueCmp(c2, c) < 0 else ValueCmp(c2, c) > 0)
             then ValueCmp(c', c2) == 0 else ValueCmp(c', c) == 0
    ensures Extreme(func, c', a + b)
  {
    hide ValueCmp;
    ValueCmpFlip(c2, c); ValueCmpFlip(c', c2); ValueCmpFlip(c', c);
    var moved := if func.Min? then ValueCmp(c2, c) < 0 else ValueCmp(c2, c) > 0;
    forall w | w in a + b && !w.Null?
      ensures if func.Min? then ValueCmp(c', w) <= 0 else ValueCmp(c', w) >= 0
    {
      ValueCmpFlip(c', w); ValueCmpFlip(c, w); ValueCmpFlip(c2, w);
      if moved { OneWins(func, c2, c, c', w, w in b); } else { OneWins(func, c, c2, c', w, w in a); }
    }
    if moved {
      var u :| u in b && !u.Null? && ValueCmp(c2, u) == 0;
      TieThrough(c', c2, u);
      assert u in a + b;
    } else {
      var u :| u in a && !u.Null? && ValueCmp(c, u) == 0;
      TieThrough(c', c, u);
      assert u in a + b;
    }
  }

  lemma TieThrough(x: Cell, y: Cell, z: Cell)
    requires ValueCmp(x, y) == 0 && ValueCmp(y, z) == 0
    ensures ValueCmp(x, z) == 0
  {
    hide ValueCmp;
    ValueCmpFlip(x, y); ValueCmpFlip(y, z); ValueCmpFlip(x, z);
    ValueCmpTransitive(x, y, z);
    ValueCmpTransitive(z, y, x);
  }

  /** The winner `x` beats what it beat before, and what the loser `y` beat. */
  lemma OneWins(func: AggFunc, x: Cell, y: Cell, c': Cell, w: Cell, own: bool)
    requires ValueCmp(c', x) == 0
    requires ValueCmp(x, c') == 0 && ValueCmp(y, x) == -ValueCmp(x, y)
    requires ValueCmp(w, x) == -ValueCmp(x, w) && ValueCmp(w, y) == -ValueCmp(y, w) && ValueCmp(w, c') == -ValueCmp(c', w)
    requires if func.Min? then ValueCmp(x, y) <= 0 else ValueCmp(x, y) >= 0
    requires if own then (if func.Min? then ValueCmp(x, w) <= 0 else ValueCmp(x, w) >= 0)
             else (if func.Min? then ValueCmp(y, w) <= 0 else ValueCmp(y, w) >= 0)
    ensures if func.Min? then ValueCmp(c', w) <= 0 else ValueCmp(c', w) >= 0
  {
    hide ValueCmp;
    if func.Min? {
      if !own { ValueCmpTransitive(x, y, w); }
      ValueCmpTransitive(c', x, w);
    } else {
      if !own { ValueCmpTransitive(w, y, x); }
      ValueCmpTransitive(w, x, c');
    }
  }

  /** A group without a non-null value adds nothing to an extremum. */
  lemma ExtremeWithNulls(func: AggFunc, c: Cell, a: seq<Cell>, b: seq<Cell>)
    requires Extreme(func, c, a) && NonNull(b) == 0
    ensures Extreme(func, c, a + b) && Extreme(func, c, b + a)
  {
    hide ValueCmp;
    AllNullIffNone(b);
    var u :| u in a && !u.Null? && ValueCmp(c, u) == 0;
    assert u in a + b && u in b + a;
  }

  // ----- order -----

  lemma {:induction false} CountsOfMultiset(a: seq<Cell>, b: seq<Cell>)
    requires multiset(a) == multiset(b)
    ensures |a| == |b| && NonNull(a) == NonNull(b) && SumInts(a) == SumInts(b)
  {
    if a == [] {
      assert |multiset(a)| == |multiset(b)|;
    } else {
      var v, b' := PullOut(a, b);
      CountsOfMultiset(a[..|a| - 1], b');
    }
  }

  /** Remove the last value of `a` from wherever it is in `b`. */
  lemma PullOut(a: seq<Cell>, b: seq<Cell>) returns (v: Cell, b': seq<Cell>)
    requires a != [] && multiset(a) == multiset(b)
    ensures v == a[|a| - 1] && |b'| == |b| - 1 && multiset(a[..|a| - 1]) == multiset(b')
    ensures NonNull(b) == NonNull(b') + (if v.Null? then 0 else 1)
    ensures SumInts(b) == SumInts(b') + (match v case Num(i) => i case _ => 0)
    ensures exists at :: 0 <= at < |b| && b[at] == v && b' == b[..at] + b[at + 1..]
  {
    v := a[|a| - 1];
    LastOf(a);
    assert v in multiset(b);
    var at :| 0 <= at < |b| && b[at] == v;
    b' := b[..at] + b[at + 1..];
    hide NonNull, SumInts;
    Without(b, at);
    Uncounted(multiset(a[..|a| - 1]), multiset(b'), v);
  }

  lemma LastOf(a: seq<Cell>)
    requires a != []
    ensures multiset(a) == multiset(a[..|a| - 1]) + multiset{a[|a| - 1]}
  {
    assert a == a[..|a| - 1] + [a[|a| - 1]];
  }

  lemma Without(b: seq<Cell>, at: nat)
    requires at < |b|
    ensures var b', v := b[..at] + b[at + 1..], b[at];
      && multiset(b) == multiset(b') + multiset{v}
      && NonNull(b) == NonNull(b') + (if v.Null? then 0 else 1)
      && SumInts(b) == SumInts(b') + (match v case Num(i) => i case _ => 0)
  {
    SplitAt(b, at);
    hide NonNull, SumInts;
    var x, y, v := b[..at], b[at + 1..], b[at];
    NonNullConcat(x, [v] + y); NonNullConcat([v], y); NonNullConcat(x, y);
    SumIntsConcat(x, [v] + y); SumIntsConcat([v], y); SumIntsConcat(x, y);
  }

  lemma SplitAt(b: seq<Cell>, at: nat)
    requires at < |b|
    ensures b == b[..at] + ([b[at]] + b[at + 1..])
    ensures multiset(b) == multiset(b[..at] + b[at + 1..]) + multiset{b[at]}
    ensures NonNull([b[at]]) == (if b[at].Null? then 0 else 1)
    ensures SumInts([b[at]]) == (match b[at] case Num(i) => i case _ => 0)
  {
    assert b == b[..at] + ([b[at]] + b[at + 1..]);
    assert [b[at]][..0] == [];
  }

  lemma FloatSumReordered(ops: FloatOps, a: seq<Cell>, b: seq<Cell>)
    requires multiset(a) == multiset(b)
    ensures forall s: u64 :: FloatSumIs(false, ops, s, a) <==> FloatSumIs(false, ops, s, b)
  {
    hide Exact, FloatTotal, Doubles;
    DoublesReordered(a, b);
    if Exact(ops, Doubles(a)) { ExactReordered(ops, Doubles(a), Doubles(b)); }
    if Exact(ops, Doubles(b)) { ExactReordered(ops, Doubles(b), Doubles(a)); }
  }

  /** An aggregate depends on the values only as a multiset. */
  lemma AggIsReordered(ops: FloatOps, func: AggFunc, t: Type, out: Cell, a: seq<Cell>, b: seq<Cell>)
    requires multiset(a) == multiset(b) && AggIs(false, ops, func, t, out, a)
    ensures AggIs(false, ops, func, t, out, b)
  {
    CountsOfMultiset(a, b);
    FloatSumReordered(ops, a, b);
    forall v ensures v in a <==> v in b {
      assert v in multiset(a) <==> v in multiset(b);
    }
    if func.Avg? && t.F64? && NonNull(a) > 0 {
      var s: u64 :| FloatSumIs(false, ops, s, a) && out == Flt(ops.div(s, ops.fromInt(NonNull(a))));
      assert FloatSumIs(false, ops, s, b);
    }
  }

  // ----- merging two parts, either possibly without a value -----

  /** A tie of an extremum is one. */
  lemma TiesKeep(func: AggFunc, c: Cell, c': Cell, vals: seq<Cell>)
    requires (func.Min? || func.Max?) && Extreme(func, c, vals) && ValueCmp(c', c) == 0 && !c'.Null?
    ensures Extreme(func, c', vals)
  {
    hide ValueCmp;
    ValueCmpFlip(c', c);
    var u :| u in vals && !u.Null? && ValueCmp(c, u) == 0;
    TieThrough(c', c, u);
    forall w | w in vals && !w.Null?
      ensures if func.Min? then ValueCmp(c', w) <= 0 else ValueCmp(c', w) >= 0
    {
      ValueCmpFlip(c, w); ValueCmpFlip(c', w);
      if func.Min? { ValueCmpTransitive(c', c, w); } else { ValueCmpTransitive(w, c, c'); }
    }
  }

  /** The extremum of two parts, either of which may have no value. */
  lemma MergedExtreme(func: AggFunc, c: Cell, a: seq<Cell>, c2: Cell, b: seq<Cell>, c': Cell)
    requires (func.Min? || func.Max?) && !c'.Null? && NonNull(a) + NonNull(b) > 0
    requires NonNull(a) > 0 ==> Extreme(func, c, a)
    requires NonNull(b) > 0 ==> Extreme(func, c2, b)
    requires NonNull(a) > 0 && NonNull(b) > 0 ==>
      if (if func.Min? then ValueCmp(c2, c) < 0 else ValueCmp(c2, c) > 0)
      then ValueCmp(c', c2) == 0 else ValueCmp(c', c) == 0
    requires NonNull(b) == 0 ==> ValueCmp(c', c) == 0
    requires NonNull(a) == 0 ==> ValueCmp(c', c2) == 0
    ensures Extreme(func, c', a + b)
  {
    hide ValueCmp, Extreme, NonNull;
    if NonNull(a) > 0 && NonNull(b) > 0 {
      MergeExtreme(func, c, a, c2, b, c');
    } else if NonNull(a) > 0 {
      ExtremeWithNulls(func, c, a, b);
      TiesKeep(func, c, c', a + b);
    } else {
      ExtremeWithNulls(func, c2, b, a);
      TiesKeep(func, c2, c', a + b);
    }
  }

  /** No double is beyond the identity on its losing side. */
  lemma IdentityLast(func: AggFunc, b: u64)
    requires func.Min? || func.Max?
    ensures if func.Min? then F64.Rank(b) <= F64.Rank(InitCell(func).d) else F64.Rank(b) >= F64.Rank(InitCell(func).d)
  {
  }

  lemma SameTies(a: u64)
    ensures ValueCmp(Flt(a), Flt(a)) == 0
  {
  }

  function BetterF64(func: AggFunc, a: u64, b: u64): u64 {
    if func.Min? then F64.MinTotal(a, b) else F64.MaxTotal(a, b)
  }

  lemma BetterFloat(func: AggFunc, a: u64, m: u64)
    requires func.Min? || func.Max?
    ensures var x, id := BetterF64(func, a, m), InitCell(func).d;
      && (if (if func.Min? then ValueCmp(Flt(m), Flt(a)) < 0 else ValueCmp(Flt(m), Flt(a)) > 0)
          then ValueCmp(Flt(x), Flt(m)) == 0 else ValueCmp(Flt(x), Flt(a)) == 0)
      && (F64.Rank(m) == F64.Rank(id) ==> x == a)
      && (F64.Rank(a) == F64.Rank(id) ==> ValueCmp(Flt(x), Flt(m)) == 0)
  {
    var x := BetterF64(func, a, m);
    IdentityLast(func, a);
    IdentityLast(func, m);
    F64.TotalOrderIsRank(a, m);
    F64.TotalOrderIsRank(m, a);
    F64.TotalOrderIsRank(x, a);
    F64.TotalOrderIsRank(x, m);
    hide F64.Rank, F64.CmpTotal, F64.LessTotal;
  }
}
