/**
 Doubles as bit patterns, with the comparisons the engine makes on them.

 A pattern is a sign bit over a magnitude; magnitudes above that of infinity are
 NaNs. `<` on non-NaN doubles is the order of the signed magnitudes, in which the two
 zeros tie. No floating-point arithmetic is modelled.
 */
module F64 {
  import opened Words

  const INF_MAGNITUDE: int := 0x7FF0_0000_0000_0000
  const CANONICAL_NAN: u64 := 0x7FF8_0000_0000_0000
  const NEG_INF: u64 := 0xFFF0_0000_0000_0000

  predicate IsNaN(b: u64) { b % TWO_63 > INF_MAGNITUDE }

  /** The signed magnitude of a non-NaN double. */
  function Magnitude(b: u64): int { if b < TWO_63 then b else TWO_63 - b }

  /** IEEE 754 comparison: false as soon as a NaN is involved. */
  predicate Less(a: u64, b: u64) { !IsNaN(a) && !IsNaN(b) && Magnitude(a) < Magnitude(b) }

  predicate Equal(a: u64, b: u64) { !IsNaN(a) && !IsNaN(b) && Magnitude(a) == Magnitude(b) }

  /** The position of a double in the NaN-greatest total preorder. */
  function Rank(b: u64): int { if IsNaN(b) then TWO_63 else Magnitude(b) }

  // ----- the engine's formulations -----

  predicate LessTotal(a: u64, b: u64) {
    if IsNaN(b) then !IsNaN(a) else if IsNaN(a) then false else Less(a, b)
  }

  function MinTotal(a: u64, b: u64): u64 { if LessTotal(b, a) then b else a }

  function MaxTotal(a: u64, b: u64): u64 { if LessTotal(a, b) then b else a }

  function CmpTotal(a: u64, b: u64): int {
    if IsNaN(a) || IsNaN(b) then (if IsNaN(a) == IsNaN(b) then 0 else if IsNaN(a) then 1 else -1)
    else if Less(a, b) then -1 else if Less(b, a) then 1 else 0
  }

  /** `std::min` and `std::max`, which see only the raw comparison. */
  function RawMin(a: u64, b: u64): u64 { if Less(b, a) then b else a }

  function RawMax(a: u64, b: u64): u64 { if Less(a, b) then b else a }

  /** The canonical key pattern: one zero, one NaN. */
  function Normalize(b: u64): u64 {
    if IsNaN(b) then CANONICAL_NAN else if Equal(b, 0) then 0 else b
  }

  /** Every formulation is the order of the ranks. */
  lemma TotalOrderIsRank(a: u64, b: u64)
    ensures LessTotal(a, b) <==> Rank(a) < Rank(b)
    ensures CmpTotal(a, b) == if Rank(a) < Rank(b) then -1 else if Rank(a) > Rank(b) then 1 else 0
    ensures Rank(MinTotal(a, b)) == if Rank(a) <= Rank(b) then Rank(a) else Rank(b)
    ensures Rank(MaxTotal(a, b)) == if Rank(a) >= Rank(b) then Rank(a) else Rank(b)
    ensures Rank(a) == TWO_63 <==> IsNaN(a)
    ensures Rank(a) <= TWO_63
  {
  }

  /** Two doubles are the same hash key exactly when the sort order ties them. */
  lemma SameKeyIffTie(a: u64, b: u64)
    ensures Normalize(a) == Normalize(b) <==> Rank(a) == Rank(b)
    ensures Rank(Normalize(a)) == Rank(a)
  {
  }

  /** The raw minimum is the total one unless its left operand alone is a NaN. */
  lemma RawMinExact(a: u64, b: u64)
    ensures Rank(RawMin(a, b)) == Rank(MinTotal(a, b)) <==> (IsNaN(a) ==> IsNaN(b))
  {
  }

  /** The raw maximum is the total one unless its right operand alone is a NaN. */
  lemma RawMaxExact(a: u64, b: u64)
    ensures Rank(RawMax(a, b)) == Rank(MaxTotal(a, b)) <==> (IsNaN(b) ==> IsNaN(a))
  {
  }

  // ----- the numbers the patterns stand for -----

  const HIDDEN_BIT: int := 0x10_0000_0000_0000   // 2^52

  /** A magnitude below that of a NaN, in units of 2^-1074 (section 3.4 of IEEE 754); infinity is above all finite ones. */
  function Units(m: nat): nat {
    var e, f := m / HIDDEN_BIT, m % HIDDEN_BIT;
    if e == 0 then f else (HIDDEN_BIT + f) * Pow2(e - 1)
  }

  /** The number a non-NaN pattern stands for, in those units. */
  function NumberOf(b: u64): int { Signed(b, Units(b % TWO_63)) }

  /** A magnitude with the sign of pattern `b`. */
  function Signed(b: u64, u: int): int { if b < TWO_63 then u else -u }

  lemma NaNIsByFields(b: u64)
    ensures IsNaN(b) <==> b % TWO_63 / HIDDEN_BIT == 0x7FF && b % HIDDEN_BIT != 0
  {
  }

  lemma UnitsRise(x: nat, y: nat)
    requires x < y
    ensures Units(x) < Units(y)
  {
    var e, f, e', f' := x / HIDDEN_BIT, x % HIDDEN_BIT, y / HIDDEN_BIT, y % HIDDEN_BIT;
    if e == e' {
      if e > 0 { Stretch(HIDDEN_BIT + f, HIDDEN_BIT + f', Pow2(e - 1)); }
    } else {
      Pow2Monotone(e, e' - 1);
      UnitsBelow(x);
      UnitsAtLeast(y);
      Grow(HIDDEN_BIT, Pow2(e), Pow2(e' - 1));
    }
  }

  lemma UnitsBelow(x: nat)
    ensures Units(x) < HIDDEN_BIT * Pow2(x / HIDDEN_BIT)
  {
    var e, f := x / HIDDEN_BIT, x % HIDDEN_BIT;
    if e > 0 { Stretch(HIDDEN_BIT + f, 2 * HIDDEN_BIT, Pow2(e - 1)); }
  }

  lemma UnitsAtLeast(y: nat)
    requires y >= HIDDEN_BIT
    ensures Units(y) >= HIDDEN_BIT * Pow2(y / HIDDEN_BIT - 1)
  {
    Grow(Pow2(y / HIDDEN_BIT - 1), HIDDEN_BIT, HIDDEN_BIT + y % HIDDEN_BIT);
  }

  lemma Stretch(a: nat, b: nat, p: nat)
    requires a < b && p > 0
    ensures a * p < b * p
  {
  }

  lemma Grow(c: nat, p: nat, q: nat)
    requires p <= q
    ensures c * p <= c * q
  {
  }

  lemma UnitsOrder(x: nat, y: nat)
    ensures Units(x) < Units(y) <==> x < y
    ensures Units(x) == 0 <==> x == 0
  {
    if x < y { UnitsRise(x, y); }
    if y < x { UnitsRise(y, x); }
    if x > 0 { UnitsRise(0, x); }
  }

  lemma SignedOrder(a: u64, b: u64, x: nat, y: nat, u: nat, v: nat)
    requires (u < v <==> x < y) && (v < u <==> y < x) && (u == 0 <==> x == 0) && (v == 0 <==> y == 0)
    ensures Signed(a, u) < Signed(b, v) <==> Signed(a, x) < Signed(b, y)
    ensures Signed(a, u) == Signed(b, v) <==> Signed(a, x) == Signed(b, y)
  {
  }

  lemma MagnitudeIs(b: u64)
    ensures Magnitude(b) == Signed(b, b % TWO_63)
  {
  }

  /** The comparison of patterns is the comparison of the numbers they stand for. */
  lemma LessIsByNumber(a: u64, b: u64)
    requires !IsNaN(a) && !IsNaN(b)
    ensures Less(a, b) <==> NumberOf(a) < NumberOf(b)
    ensures Equal(a, b) <==> NumberOf(a) == NumberOf(b)
    ensures Rank(a) < Rank(b) <==> NumberOf(a) < NumberOf(b)
    ensures Rank(a) == Rank(b) <==> NumberOf(a) == NumberOf(b)
  {
    var x, y := a % TWO_63, b % TWO_63;
    UnitsOrder(x, y);
    UnitsOrder(y, x);
    SignedOrder(a, b, x, y, Units(x), Units(y));
    MagnitudeIs(a);
    MagnitudeIs(b);
    hide Units, Magnitude, Signed;
  }
}
