/**
 The ORDER BY order: a left-to-right tuple comparison with a direction and an
 absolute null placement per key, and what a stable sort under it must return.
 */
module SortOrders {
  import opened Words
  import opened Columns
  import F64

  datatype Dir = Asc | Desc
  datatype NullOrder = First | Last
  datatype SortKey = SortKey(col: nat, dir: Dir, nulls: NullOrder)

  // ----- value comparison -----

  function IntCmp(a: int, b: int): int { if a < b then -1 else if a > b then 1 else 0 }

  /** Lexicographic comparison, a proper prefix first. */
  function LexCmp(a: seq<int>, b: seq<int>): int {
    if a == [] then (if b == [] then 0 else -1)
    else if b == [] then 1
    else if a[0] != b[0] then IntCmp(a[0], b[0])
    else LexCmp(a[1..], b[1..])
  }

  function Codes(s: string): seq<int> { seq(|s|, i requires 0 <= i < |s| => s[i] as int) }

  /** The columns of one key hold one kind of value; kinds order the cases that cannot meet. */
  function Kind(c: Cell): int {
    match c case Null => 0 case Num(_) => 1 case Flt(_) => 2 case Str(_) => 3
  }

  function ValueCmp(a: Cell, b: Cell): int {
    match (a, b)
    case (Num(x), Num(y)) => IntCmp(x, y)
    case (Flt(x), Flt(y)) => F64.CmpTotal(x, y)
    case (Str(x), Str(y)) => LexCmp(Codes(x), Codes(y))
    case _ => IntCmp(Kind(a), Kind(b))
  }

  ghost predicate KeysFit(keys: seq<SortKey>, width: nat) {
    forall j | 0 <= j < |keys| :: keys[j].col < width
  }

  /** Does row `a` come strictly before row `b`? Key by key, as the comparator does. */
  predicate LessRow(keys: seq<SortKey>, a: Row, b: Row)
    requires KeysFit(keys, |a|) && |a| == |b|
  {
    if keys == [] then false
    else
      var k := keys[0];
      var x, y := a[k.col], b[k.col];
      if x.Null? || y.Null? then
        if x.Null? && y.Null? then LessRow(keys[1..], a, b)
        else if k.nulls.First? then x.Null? else !x.Null?
      else
        var cmp := ValueCmp(x, y);
        if cmp != 0 then (if k.dir.Asc? then cmp < 0 else cmp > 0)
        else LessRow(keys[1..], a, b)
  }

  // ----- the same order as a three-way comparison -----

  function KeyCmp(k: SortKey, x: Cell, y: Cell): int {
    if x.Null? && y.Null? then 0
    else if x.Null? then (if k.nulls.First? then -1 else 1)
    else if y.Null? then (if k.nulls.First? then 1 else -1)
    else if k.dir.Asc? then ValueCmp(x, y) else -ValueCmp(x, y)
  }

  function RowCmp(keys: seq<SortKey>, a: Row, b: Row): int
    requires KeysFit(keys, |a|) && |a| == |b|
  {
    if keys == [] then 0
    else
      var c := KeyCmp(keys[0], a[keys[0].col], b[keys[0].col]);
      if c != 0 then c else RowCmp(keys[1..], a, b)
  }

  lemma {:induction false} LessRowIsRowCmp(keys: seq<SortKey>, a: Row, b: Row)
    requires KeysFit(keys, |a|) && |a| == |b|
    ensures LessRow(keys, a, b) <==> RowCmp(keys, a, b) < 0
  {
    if keys != [] { LessRowIsRowCmp(keys[1..], a, b); }
  }

  lemma {:induction false} LexCmpFlip(a: seq<int>, b: seq<int>)
    ensures LexCmp(b, a) == -LexCmp(a, b)
    ensures LexCmp(a, b) == 0 <==> a == b
  {
    if a != [] && b != [] && a[0] == b[0] {
      LexCmpFlip(a[1..], b[1..]);
      assert a == [a[0]] + a[1..] && b == [b[0]] + b[1..];
    }
  }

  lemma {:induction false} LexCmpTransitive(a: seq<int>, b: seq<int>, c: seq<int>)
    requires LexCmp(a, b) <= 0 && LexCmp(b, c) <= 0
    ensures LexCmp(a, c) <= 0
    ensures LexCmp(a, c) == 0 ==> LexCmp(a, b) == 0 && LexCmp(b, c) == 0
  {
    if a != [] && b != [] && c != [] && a[0] == b[0] == c[0] {
      LexCmpTransitive(a[1..], b[1..], c[1..]);
    }
  }

  lemma ValueCmpFlip(x: Cell, y: Cell)
    ensures ValueCmp(y, x) == -ValueCmp(x, y)
  {
    match (x, y) {
      case (Flt(p), Flt(q)) => F64.TotalOrderIsRank(p, q); F64.TotalOrderIsRank(q, p);
      case (Str(p), Str(q)) => LexCmpFlip(Codes(p), Codes(q));
      case _ =>
    }
  }

  lemma ValueCmpTransitive(x: Cell, y: Cell, z: Cell)
    requires ValueCmp(x, y) <= 0 && ValueCmp(y, z) <= 0
    ensures ValueCmp(x, z) <= 0
    ensures ValueCmp(x, z) == 0 ==> ValueCmp(x, y) == 0 && ValueCmp(y, z) == 0
  {
    if x.Flt? && y.Flt? && z.Flt? {
      F64.TotalOrderIsRank(x.bits, y.bits);
      F64.TotalOrderIsRank(y.bits, z.bits);
      F64.TotalOrderIsRank(x.bits, z.bits);
      hide F64.CmpTotal;
    } else if x.Str? && y.Str? && z.Str? {
      LexCmpTransitive(Codes(x.s), Codes(y.s), Codes(z.s));
    } else {
      hide F64.CmpTotal, LexCmp;
    }
  }

  lemma KeyCmpLaws(k: SortKey, x: Cell, y: Cell, z: Cell)
    ensures KeyCmp(k, y, x) == -KeyCmp(k, x, y)
    ensures KeyCmp(k, x, y) <= 0 && KeyCmp(k, y, z) <= 0 ==>
      (KeyCmp(k, x, z) <= 0 && (KeyCmp(k, x, z) == 0 ==> KeyCmp(k, x, y) == 0 && KeyCmp(k, y, z) == 0))
  {
    hide ValueCmp;
    ValueCmpFlip(x, y);
    ValueCmpFlip(y, z);
    ValueCmpFlip(x, z);
    if ValueCmp(x, y) <= 0 && ValueCmp(y, z) <= 0 { ValueCmpTransitive(x, y, z); }
    if ValueCmp(z, y) <= 0 && ValueCmp(y, x) <= 0 { ValueCmpTransitive(z, y, x); }
  }

  /** The comparison is a total preorder, so "strictly before" is a strict weak order. */
  lemma {:induction false} RowCmpLaws(keys: seq<SortKey>, a: Row, b: Row, c: Row)
    requires KeysFit(keys, |a|) && |a| == |b| == |c|
    ensures RowCmp(keys, b, a) == -RowCmp(keys, a, b)
    ensures RowCmp(keys, a, b) <= 0 && RowCmp(keys, b, c) <= 0 ==>
      (RowCmp(keys, a, c) <= 0 && (RowCmp(keys, a, c) == 0 ==> RowCmp(keys, a, b) == 0 && RowCmp(keys, b, c) == 0))
  {
    hide KeyCmp;
    if keys != [] {
      var k := keys[0];
      KeyCmpLaws(k, a[k.col], b[k.col], c[k.col]);
      RowCmpLaws(keys[1..], a, b, c);
    }
  }

  // ----- the order, said outright -----

  /** The first place where two sequences differ, and the first has the lesser element there. */
  ghost predicate LessAt(a: seq<int>, b: seq<int>, k: nat) { k < |a| && k < |b| && a[..k] == b[..k] && a[k] < b[k] }

  lemma {:induction false} LexCmpLess(a: seq<int>, b: seq<int>)
    requires LexCmp(a, b) < 0
    ensures a < b || exists k: nat :: LessAt(a, b, k)
  {
    if a != [] {
      if a[0] == b[0] {
        LexCmpLess(a[1..], b[1..]);
        assert a == [a[0]] + a[1..] && b == [b[0]] + b[1..];
        if !(a[1..] < b[1..]) {
          var k: nat :| LessAt(a[1..], b[1..], k);
          assert a[..k + 1] == [a[0]] + a[1..][..k] && b[..k + 1] == [b[0]] + b[1..][..k];
          assert LessAt(a, b, k + 1);
        }
      } else {
        assert LessAt(a, b, 0);
      }
    }
  }

  lemma {:induction false} LessLexCmp(a: seq<int>, b: seq<int>, k: nat)
    requires k <= |a| && k < |b| && a[..k] == b[..k] && (k < |a| ==> a[k] < b[k])
    ensures LexCmp(a, b) < 0
  {
    if k > 0 {
      assert a[0] == a[..k][0] == b[..k][0] == b[0];
      assert a[1..][..k - 1] == a[..k][1..] && b[1..][..k - 1] == b[..k][1..];
      LessLexCmp(a[1..], b[1..], k - 1);
    }
  }

  /** Lexicographic: a proper prefix is before, else the first difference decides. */
  lemma LexCmpIs(a: seq<int>, b: seq<int>)
    ensures LexCmp(a, b) < 0 <==> a < b || exists k: nat :: LessAt(a, b, k)
  {
    if LexCmp(a, b) < 0 { LexCmpLess(a, b); }
    if a < b { LessLexCmp(a, b, |a|); }
    if k: nat :| LessAt(a, b, k) { LessLexCmp(a, b, k); }
  }

  /** The order of strings, character by character. */
  ghost predicate StrBefore(s: string, t: string) { s < t || exists k: nat :: StrLessAt(s, t, k) }

  ghost predicate StrLessAt(s: string, t: string, k: nat) { k < |s| && k < |t| && s[..k] == t[..k] && s[k] < t[k] }

  lemma CodesAgree(s: string, t: string, k: nat)
    requires k <= |s| && k <= |t|
    ensures Codes(s)[..k] == Codes(t)[..k] <==> s[..k] == t[..k]
  {
    if Codes(s)[..k] == Codes(t)[..k] {
      forall i | 0 <= i < k ensures s[i] == t[i] { assert Codes(s)[..k][i] == Codes(t)[..k][i]; }
    }
    if s[..k] == t[..k] {
      forall i | 0 <= i < k ensures Codes(s)[i] == Codes(t)[i] { assert s[..k][i] == t[..k][i]; }
    }
  }

  lemma StrCmpIs(s: string, t: string)
    ensures LexCmp(Codes(s), Codes(t)) < 0 <==> StrBefore(s, t)
    ensures LexCmp(Codes(s), Codes(t)) == 0 <==> s == t
    ensures LexCmp(Codes(s), Codes(t)) > 0 <==> StrBefore(t, s)
  {
    StrLessIs(s, t);
    StrLessIs(t, s);
    LexCmpFlip(Codes(s), Codes(t));
    if |s| == |t| { CodesAgree(s, t, |s|); }
  }

  lemma StrLessIs(s: string, t: string)
    ensures LexCmp(Codes(s), Codes(t)) < 0 <==> StrBefore(s, t)
  {
    LexCmpIs(Codes(s), Codes(t));
    if |s| <= |t| { CodesAgree(s, t, |s|); }
    if k: nat :| LessAt(Codes(s), Codes(t), k) {
      CodesAgree(s, t, k);
      assert StrLessAt(s, t, k);
    }
    if k: nat :| StrLessAt(s, t, k) {
      CodesAgree(s, t, k);
      assert LessAt(Codes(s), Codes(t), k);
    }
  }

  /** Integers by size, strings character by character, doubles by the numbers they stand for with the NaNs last. */
  ghost predicate ValueBefore(x: Cell, y: Cell) {
    match (x, y)
    case (Num(i), Num(j)) => i < j
    case (Flt(a), Flt(b)) => !F64.IsNaN(a) && (F64.IsNaN(b) || F64.NumberOf(a) < F64.NumberOf(b))
    case (Str(s), Str(t)) => StrBefore(s, t)
    case _ => Kind(x) < Kind(y)
  }

  lemma ValueCmpIs(x: Cell, y: Cell)
    ensures ValueCmp(x, y) < 0 <==> ValueBefore(x, y)
    ensures ValueCmp(x, y) > 0 <==> ValueBefore(y, x)
  {
    hide F64.NumberOf, F64.CmpTotal, F64.Rank, StrBefore, LexCmp;
    match (x, y) {
      case (Flt(a), Flt(b)) =>
        F64.TotalOrderIsRank(a, b);
        F64.TotalOrderIsRank(b, a);
        if !F64.IsNaN(a) && !F64.IsNaN(b) {
          F64.LessIsByNumber(a, b);
          F64.LessIsByNumber(b, a);
        }
      case (Str(s), Str(t)) => StrCmpIs(s, t);
      case _ =>
    }
  }

  /** One key: a NULL goes where the key places it, values in the key's direction. */
  ghost predicate CellBefore(k: SortKey, x: Cell, y: Cell) {
    if x.Null? || y.Null? then x.Null? != y.Null? && (x.Null? <==> k.nulls.First?)
    else if k.dir.Asc? then ValueBefore(x, y)
    else ValueBefore(y, x)
  }

  /** Neither row is before the other on the first `n` keys. */
  ghost predicate TiedOn(keys: seq<SortKey>, a: Row, b: Row, n: nat)
    requires KeysFit(keys, |a|) && |a| == |b| && n <= |keys|
  {
    forall e | 0 <= e < n :: !CellBefore(keys[e], a[keys[e].col], b[keys[e].col]) && !CellBefore(keys[e], b[keys[e].col], a[keys[e].col])
  }

  /** Key `d` is the first to tell the rows apart, and puts `a` first. */
  ghost predicate DecidedAt(keys: seq<SortKey>, a: Row, b: Row, d: nat)
    requires KeysFit(keys, |a|) && |a| == |b|
  {
    d < |keys| && TiedOn(keys, a, b, d) && CellBefore(keys[d], a[keys[d].col], b[keys[d].col])
  }

  lemma KeyCmpIs(k: SortKey, x: Cell, y: Cell)
    ensures KeyCmp(k, x, y) < 0 <==> CellBefore(k, x, y)
    ensures KeyCmp(k, x, y) > 0 <==> CellBefore(k, y, x)
  {
    ValueCmpIs(x, y);
    ValueCmpIs(y, x);
    hide ValueCmp, ValueBefore;
  }

  lemma {:induction false} RowCmpFrom(keys: seq<SortKey>, a: Row, b: Row, n: nat)
    requires KeysFit(keys, |a|) && |a| == |b| && n <= |keys| && TiedOn(keys, a, b, n)
    ensures RowCmp(keys[n..], a, b) < 0 <==> exists d: nat :: n <= d && DecidedAt(keys, a, b, d)
    ensures RowCmp(keys[n..], a, b) == 0 <==> TiedOn(keys, a, b, |keys|)
    decreases |keys| - n
  {
    if n < |keys| {
      var k := keys[n];
      KeyCmpIs(k, a[k.col], b[k.col]);
      assert keys[n..][1..] == keys[n + 1..] && keys[n..][0] == k;
      hide KeyCmp, CellBefore;
      if KeyCmp(k, a[k.col], b[k.col]) == 0 {
        assert TiedOn(keys, a, b, n + 1);
        RowCmpFrom(keys, a, b, n + 1);
      } else if KeyCmp(k, a[k.col], b[k.col]) < 0 {
        assert DecidedAt(keys, a, b, n);
      }
    }
  }

  /** The order of rows: the first key that tells them apart decides, and they tie if none does. */
  lemma RowCmpIs(keys: seq<SortKey>, a: Row, b: Row)
    requires KeysFit(keys, |a|) && |a| == |b|
    ensures RowCmp(keys, a, b) < 0 <==> exists d: nat :: DecidedAt(keys, a, b, d)
    ensures RowCmp(keys, a, b) == 0 <==> TiedOn(keys, a, b, |keys|)
  {
    assert keys[0..] == keys;
    RowCmpFrom(keys, a, b, 0);
  }

  // ----- stable permutations -----

  /** Row index `i` goes before `j`: by the keys, then by position. */
  predicate Precedes(keys: seq<SortKey>, rows: seq<Row>, width: nat, i: nat, j: nat)
    requires KeysFit(keys, width) && SameWidth(rows, width) && i < |rows| && j < |rows|
  {
    RowCmp(keys, rows[i], rows[j]) < 0 || (RowCmp(keys, rows[i], rows[j]) == 0 && i < j)
  }

  ghost predicate Indices(perm: seq<nat>, n: nat) {
    && (forall i | 0 <= i < |perm| :: perm[i] < n)
    && (forall r: nat | r < n :: r in perm)
  }

  /** What `std::stable_sort` promises of the index array: sorted, ties in original order. */
  ghost predicate StablePermutation(keys: seq<SortKey>, rows: seq<Row>, width: nat, perm: seq<nat>)
    requires KeysFit(keys, width) && SameWidth(rows, width)
  {
    && Indices(perm, |rows|)
    && forall i, j | 0 <= i < j < |perm| :: Precedes(keys, rows, width, perm[i], perm[j])
  }

  /** `out` is `rows` rearranged by `perm`, in order, and where the keys do not tell, as the rows came. */
  ghost predicate InKeyOrder(keys: seq<SortKey>, rows: seq<Row>, perm: seq<nat>, out: seq<Row>, width: nat) {
    && KeysFit(keys, width) && SameWidth(out, width) && |perm| == |rows| == |out|
    && (forall k | 0 <= k < |perm| :: perm[k] < |rows| && out[k] == rows[perm[k]])
    && (forall i, j | 0 <= i < j < |perm| :: perm[i] != perm[j])
    && forall i, j | 0 <= i < j < |out| ::
         (exists d: nat :: DecidedAt(keys, out[i], out[j], d)) || (TiedOn(keys, out[i], out[j], |keys|) && perm[i] < perm[j])
  }

  lemma StableMeans(keys: seq<SortKey>, rows: seq<Row>, perm: seq<nat>, out: seq<Row>, width: nat)
    requires KeysFit(keys, width) && SameWidth(rows, width) && StablePermutation(keys, rows, width, perm)
    requires |perm| == |rows| == |out| && forall k | 0 <= k < |perm| :: perm[k] < |rows| && out[k] == rows[perm[k]]
    ensures InKeyOrder(keys, rows, perm, out, width)
  {
    hide RowCmp, DecidedAt, TiedOn;
    forall i, j | 0 <= i < j < |out|
      ensures perm[i] != perm[j]
      ensures (exists d: nat :: DecidedAt(keys, out[i], out[j], d)) || (TiedOn(keys, out[i], out[j], |keys|) && perm[i] < perm[j])
    {
      assert Precedes(keys, rows, width, perm[i], perm[j]);
      PrecedesLaws(keys, rows, width, perm[i], perm[j], perm[i]);
      RowCmpIs(keys, out[i], out[j]);
    }
  }

  lemma PrecedesLaws(keys: seq<SortKey>, rows: seq<Row>, width: nat, i: nat, j: nat, k: nat)
    requires KeysFit(keys, width) && SameWidth(rows, width)
    requires i < |rows| && j < |rows| && k < |rows|
    ensures !(Precedes(keys, rows, width, i, j) && Precedes(keys, rows, width, j, i))
    ensures i != j ==> Precedes(keys, rows, width, i, j) || Precedes(keys, rows, width, j, i)
    ensures Precedes(keys, rows, width, i, j) && Precedes(keys, rows, width, j, k) ==>
      Precedes(keys, rows, width, i, k)
  {
    hide RowCmp;
    RowCmpLaws(keys, rows[i], rows[j], rows[k]);
  }

  /** A sequence of indices is strictly ordered by `less`. */
  ghost predicate Ordered(less: (nat, nat) -> bool, p: seq<nat>) {
    forall i, j | 0 <= i < j < |p| :: less(p[i], p[j])
  }

  lemma SomeMember(q: seq<nat>)
    requires q != []
    ensures exists x :: x in q
  {
    assert q[0] in q;
  }

  /** Strictly ordered sequences with the same elements are equal. */
  lemma {:induction false} OrderedUnique(less: (nat, nat) -> bool, p: seq<nat>, q: seq<nat>)
    requires forall x, y | x in p && y in p :: !(less(x, y) && less(y, x))
    requires Ordered(less, p) && Ordered(less, q)
    requires forall x :: x in p <==> x in q
    ensures p == q
  {
    if p == [] {
      if q != [] { SomeMember(q); }
    } else {
      assert p[0] in q && q != [];
      assert q[0] in p;
      assert p[0] == q[0];
      var p', q' := p[1..], q[1..];
      forall x ensures x in p' <==> x in q' {
        TailMembers(less, p, x);
        TailMembers(less, q, x);
      }
      OrderedUnique(less, p', q');
      assert p == [p[0]] + p' && q == [q[0]] + q';
    }
  }

  lemma TailMembers(less: (nat, nat) -> bool, p: seq<nat>, x: nat)
    requires p != [] && Ordered(less, p)
    requires forall y, z | y in p && z in p :: !(less(y, z) && less(z, y))
    ensures x in p[1..] <==> x in p && x != p[0]
  {
    if x in p[1..] {
      var i :| 0 <= i < |p[1..]| && p[1..][i] == x;
      assert less(p[0], p[i + 1]);
    }
    if x in p && x != p[0] {
      var i :| 0 <= i < |p| && p[i] == x;
      assert p[1..][i - 1] == x;
    }
  }

  /** There is only one stable permutation: any two sort paths that reach one agree. */
  lemma StablePermutationUnique(keys: seq<SortKey>, rows: seq<Row>, width: nat, p: seq<nat>, q: seq<nat>)
    requires KeysFit(keys, width) && SameWidth(rows, width)
    requires StablePermutation(keys, rows, width, p) && StablePermutation(keys, rows, width, q)
    ensures p == q
  {
    var less := (i: nat, j: nat) =>
      i < |rows| && j < |rows| && Precedes(keys, rows, width, i, j);
    forall x, y | x in p && y in p ensures !(less(x, y) && less(y, x)) {
      PrecedesLaws(keys, rows, width, x, y, y);
    }
    OrderedUnique(less, p, q);
  }

  /**
   The comparison path. `std::stable_sort` is a library function; an insertion that
   moves a row left only past strictly greater ones stands for its contract.
   */
  method StableSort(keys: seq<SortKey>, rows: seq<Row>, width: nat) returns (perm: seq<nat>)
    requires KeysFit(keys, width) && SameWidth(rows, width)
    ensures StablePermutation(keys, rows, width, perm)
  {
    perm := [];
    for r := 0 to |rows|
      invariant |perm| == r && Indices(perm, r)
      invariant forall i, j | 0 <= i < j < r :: Precedes(keys, rows, width, perm[i], perm[j])
    {
      hide RowCmp, LessRow;
      var at := r;
      while at > 0 && LessRow(keys, rows[r], rows[perm[at - 1]])
        invariant 0 <= at <= r
        invariant forall i | at <= i < r :: LessRow(keys, rows[r], rows[perm[i]])
      {
        at := at - 1;
      }
      InsertKeepsOrder(keys, rows, width, perm, r, at);
      perm := perm[..at] + [r] + perm[at..];
    }
  }

  lemma InsertKeepsOrder(keys: seq<SortKey>, rows: seq<Row>, width: nat, perm: seq<nat>, r: nat, at: nat)
    requires KeysFit(keys, width) && SameWidth(rows, width) && at <= r < |rows|
    requires |perm| == r && Indices(perm, r)
    requires forall i, j | 0 <= i < j < r :: Precedes(keys, rows, width, perm[i], perm[j])
    requires forall i | at <= i < r :: LessRow(keys, rows[r], rows[perm[i]])
    requires at > 0 ==> !LessRow(keys, rows[r], rows[perm[at - 1]])
    ensures var out := perm[..at] + [r] + perm[at..];
      && Indices(out, r + 1)
      && forall i, j | 0 <= i < j < r + 1 :: Precedes(keys, rows, width, out[i], out[j])
  {
    hide RowCmp, LessRow;
    var out := perm[..at] + [r] + perm[at..];
    forall i | 0 <= i < at ensures Precedes(keys, rows, width, perm[i], r) {
      var last := perm[at - 1];
      LessRowIsRowCmp(keys, rows[r], rows[last]);
      RowCmpLaws(keys, rows[last], rows[r], rows[r]);
      assert Precedes(keys, rows, width, last, r);
      PrecedesLaws(keys, rows, width, perm[i], last, r);
    }
    forall i | at <= i < r ensures Precedes(keys, rows, width, r, perm[i]) {
      LessRowIsRowCmp(keys, rows[r], rows[perm[i]]);
    }
    InsertedIndices(perm, r, at);
    forall i, j | 0 <= i < j < r + 1 ensures Precedes(keys, rows, width, out[i], out[j]) {
      hide Precedes;
    }
  }

  lemma InsertedIndices(perm: seq<nat>, r: nat, at: nat)
    requires at <= r == |perm| && Indices(perm, r)
    ensures Indices(perm[..at] + [r] + perm[at..], r + 1)
  {
    var out := perm[..at] + [r] + perm[at..];
    forall x: nat | x < r + 1 ensures x in out {
      if x == r {
        assert out[at] == r;
      } else {
        assert x in perm;
        var i :| 0 <= i < |perm| && perm[i] == x;
        assert out[if i < at then i else i + 1] == x;
      }
    }
  }
}
