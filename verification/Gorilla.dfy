/**
 The Gorilla XOR codec for 64-bit floating-point patterns.

 The encoder emits, per value, the XOR with the previous value: one bit when it is
 zero, else its meaningful bits inside a reused or a freshly described window.
 `WindowAfter` is the window both sides hold after a number of values, so the
 encoder and the decoder run in lockstep.
 */
module Gorilla {
  import opened Words
  import opened BitStream

  // ----- counting zeros -----

  function LeadingZeros(bits: seq<bool>): (k: nat)
    ensures k <= |bits|
    ensures forall i :: 0 <= i < k ==> !bits[i]
    ensures k < |bits| ==> bits[k]
  {
    if bits == [] || bits[0] then 0 else 1 + LeadingZeros(bits[1..])
  }

  function TrailingZeros(bits: seq<bool>): (k: nat)
    ensures k <= |bits|
    ensures forall i :: |bits| - k <= i < |bits| ==> !bits[i]
    ensures k < |bits| ==> bits[|bits| - 1 - k]
  {
    if bits == [] || bits[|bits| - 1] then 0 else 1 + TrailingZeros(bits[..|bits| - 1])
  }

  function CountlZero(x: u64): nat { LeadingZeros(ToBits(x, 64)) }
  function CountrZero(x: u64): nat { TrailingZeros(ToBits(x, 64)) }

  lemma ZeroCounts(x: u64)
    requires x != 0
    ensures CountlZero(x) + CountrZero(x) < 64
  {
    ZeroWord();
    var bits := ToBits(x, 64);
    if CountlZero(x) == 64 {
      assert bits == Zeros(64);
      WordInjective(x, 0);
    }
  }

  // ----- the window -----

  /** The window of meaningful bits both sides remember: `lead + mean + trail == 64`. */
  datatype Window = NoWindow | Window(lead: nat, trail: nat, mean: nat)

  ghost predicate WindowOk(w: Window) {
    w.Window? ==> w.lead <= 31 && 1 <= w.mean <= 64 && w.lead + w.trail + w.mean == 64
  }

  predicate Reuses(w: Window, x: u64) {
    w.Window? && CountlZero(x) >= w.lead && CountrZero(x) >= w.trail
  }

  /** The window a non-reusing XOR opens, its leading count clamped to five bits. */
  function FreshWindow(x: u64): (w: Window)
    requires x != 0
    ensures w.Window? && WindowOk(w)
    ensures CountlZero(x) >= w.lead && CountrZero(x) == w.trail
  {
    ZeroCounts(x);
    var lead := if CountlZero(x) > 31 then 31 else CountlZero(x);
    Window(lead, CountrZero(x), 64 - lead - CountrZero(x))
  }

  function StepWindow(w: Window, x: u64): (w': Window)
    requires WindowOk(w)
    ensures WindowOk(w')
  {
    if x == 0 || Reuses(w, x) then w else FreshWindow(x)
  }

  /** The bits emitted for one XOR under window `w`. */
  function StepBits(w: Window, x: u64): seq<bool>
    requires WindowOk(w)
  {
    if x == 0 then [false]
    else if Reuses(w, x) then [true, false] + ToBits(Shr(x, w.trail), w.mean)
    else
      var f := FreshWindow(x);
      [true, true] + ToBits(f.lead, 5) + ToBits(f.mean % 64, 6) + ToBits(Shr(x, f.trail), f.mean)
  }

  lemma StepBitsSize(w: Window, x: u64)
    requires WindowOk(w)
    ensures 1 <= |StepBits(w, x)| <= 77
  {
  }

  // ----- the form of a step, said outright -----

  /** `x` has `lead` zeros at its high end and `trail` at its low end, or more. */
  predicate Within(x: u64, lead: nat, trail: nat) { lead <= 64 && x < Pow2(64 - lead) && x % Pow2(trail) == 0 }

  /** The narrowest window around `x`, but with at most 31 bits cut off in front. */
  predicate Opens(x: u64, w: Window) {
    && w.Window? && w.lead + w.trail + w.mean == 64 && w.lead <= 31
    && Within(x, w.lead, w.trail) && !Within(x, w.lead, w.trail + 1) && (w.lead < 31 ==> !Within(x, w.lead + 1, w.trail))
  }

  /** One bit for no change; the bits inside the old window where they suffice; else a new window, described, and the bits inside it. */
  predicate IsStep(w: Window, x: u64, bits: seq<bool>, w': Window) {
    if x == 0 then bits == [false] && w' == w
    else if w.Window? && Within(x, w.lead, w.trail) then
      bits == [true, false] + ToBits(x / Pow2(w.trail), w.mean) && w' == w
    else
      && Opens(x, w')
      && bits == [true, true] + ToBits(w'.lead, 5) + ToBits(w'.mean % 64, 6) + ToBits(x / Pow2(w'.trail), w'.mean)
  }

  lemma LeadingIs(x: u64, k: nat)
    requires k <= 64
    ensures CountlZero(x) >= k <==> x < Pow2(64 - k)
  {
    var bits := ToBits(x, 64);
    if CountlZero(x) >= k {
      assert bits == Zeros(k) + bits[k..];
      hide FromBits, ToBits;
      FromBitsLeadingZeros(k, bits[k..]);
      FromBitsBound(bits[k..]);
      Pow2Constants();
      FromBitsToBits(x, 64);
    }
    if x < Pow2(64 - k) {
      ToBitsLeadingZeros(x, 64, 64 - k);
      assert forall i | 0 <= i < k :: !bits[i];
    }
  }

  lemma TrailingDivides(x: u64, k: nat)
    requires k <= 64 && CountrZero(x) >= k
    ensures x % Pow2(k) == 0
  {
    var bits := ToBits(x, 64);
    var front := bits[..64 - k];
    assert bits == front + Zeros(k);
    Pow2Constants();
    hide Pow2, Shl, FromBits, ToBits;
    FromBitsTrailingZeros(front, k);
    FromBitsToBits(x, 64);
    ShlIs(FromBits(front), k);
    MultipleLeavesNothing(FromBits(front), Pow2(k));
  }

  lemma DividesTrailing(x: u64, k: nat)
    requires k <= 64 && x % Pow2(k) == 0
    ensures CountrZero(x) >= k
  {
    hide Pow2;
    QuotientFits(x, k);
    ShlIs(x / Pow2(k), k);
    ShiftedTail(x / Pow2(k), k);
  }

  lemma ShiftedTail(q: nat, k: nat)
    requires k <= 64 && q < Pow2(64 - k)
    ensures TrailingZeros(ToBits(Shl(q, k), 64)) >= k
  {
    hide Pow2, Shl, ToBits, TrailingZeros;
    LeftJustify(q, 64 - k, k);
    TailIsZero(ToBits(Shl(q, k), 64), ToBits(q, 64 - k), k);
  }

  lemma TailIsZero(bits: seq<bool>, front: seq<bool>, k: nat)
    requires |bits| == 64 && bits == front + Zeros(k)
    ensures TrailingZeros(bits) >= k
  {
    forall i | 64 - k <= i < 64 ensures !bits[i] { assert bits[i] == Zeros(k)[i - (64 - k)]; }
  }

  lemma TrailingIs(x: u64, k: nat)
    requires k <= 64
    ensures CountrZero(x) >= k <==> x % Pow2(k) == 0
  {
    hide CountrZero, Pow2;
    if CountrZero(x) >= k { TrailingDivides(x, k); }
    if x % Pow2(k) == 0 { DividesTrailing(x, k); }
  }

  lemma MultipleLeavesNothing(q: nat, p: nat)
    requires p > 0
    ensures q * p % p == 0
  {
    UniqueQuotient(p * q, p, q, 0);
    assert p * q == p * (p * q / p) + p * q % p;
  }

  lemma QuotientFits(x: u64, k: nat)
    requires k <= 64 && x % Pow2(k) == 0
    ensures x == x / Pow2(k) * Pow2(k) && x / Pow2(k) < Pow2(64 - k)
  {
    Pow2Constants();
    hide Pow2;
    Pow2Add(64 - k, k);
    var p, q := Pow2(k), x / Pow2(k);
    ExactQuotient(x, p);
    if q >= Pow2(64 - k) { TimesAtLeast(q, Pow2(64 - k), p); }
  }

  lemma ExactQuotient(x: nat, p: nat)
    requires p > 0 && x % p == 0
    ensures x == x / p * p
  {
  }

  lemma TimesAtLeast(q: nat, p: nat, c: nat)
    requires q >= p
    ensures q * c >= p * c
  {
  }

  /** The encoder's step is of that form. */
  lemma StepIs(w: Window, x: u64)
    requires WindowOk(w)
    ensures IsStep(w, x, StepBits(w, x), StepWindow(w, x))
  {
    if x != 0 {
      ReusesIs(w, x);
      hide ToBits, Pow2, Within, Reuses;
      if Reuses(w, x) {
        ShrIs(x, w.trail);
      } else {
        hide FreshWindow, Opens, WindowOk;
        FreshOpens(x);
      }
    }
  }

  lemma WithinIs(x: u64, lead: nat, trail: nat)
    requires lead <= 64 && trail <= 64
    ensures Within(x, lead, trail) <==> CountlZero(x) >= lead && CountrZero(x) >= trail
  {
    hide CountlZero, CountrZero, Pow2;
    LeadingIs(x, lead);
    TrailingIs(x, trail);
  }

  lemma ReusesIs(w: Window, x: u64)
    requires WindowOk(w)
    ensures Reuses(w, x) <==> w.Window? && Within(x, w.lead, w.trail)
  {
    hide CountlZero, CountrZero, Within;
    if w.Window? { WithinIs(x, w.lead, w.trail); }
  }

  lemma FreshOpens(x: u64)
    requires x != 0
    ensures Opens(x, FreshWindow(x)) && Shr(x, FreshWindow(x).trail) == x / Pow2(FreshWindow(x).trail)
  {
    var f := FreshWindow(x);
    ZeroCounts(x);
    hide Pow2, CountlZero, CountrZero, Shr, Within;
    WithinIs(x, f.lead, f.trail);
    WithinIs(x, f.lead, f.trail + 1);
    WithinIs(x, f.lead + 1, f.trail);
    ShrIs(x, f.trail);
  }

  // ----- one decoding step -----

  /** The bits `[pos, pos + n)` as a number, if they are there. */
  function Take(bits: seq<bool>, pos: nat, n: nat): (r: Option<nat>)
    ensures r.Some? <==> pos + n <= |bits|
  {
    if pos + n <= |bits| then Some(FromBits(bits[pos..pos + n])) else None
  }

  datatype Decoded = Decoded(x: u64, window: Window, pos: nat)

  /** A block read under the remembered window. */
  function DecodeReuse(w: Window, bits: seq<bool>, pos: nat): Option<Decoded> {
    if w.NoWindow? then None
    else match Take(bits, pos, w.mean)
      case None => None
      case Some(m) => Some(Decoded(U64(Shl(m, w.trail)), w, pos + w.mean))
  }

  /** A block that describes its own window: five bits of lead, six of length (0 is 64). */
  function DecodeFresh(bits: seq<bool>, pos: nat): Option<Decoded> {
    if pos + 11 > |bits| then None
    else
      var lead := FromBits(bits[pos..pos + 5]);
      var m6 := FromBits(bits[pos + 5..pos + 11]);
      var mean := if m6 == 0 then 64 else m6;
      if lead + mean > 64 then None
      else match Take(bits, pos + 11, mean)
        case None => None
        case Some(m) =>
          var trail := 64 - lead - mean;
          Some(Decoded(U64(Shl(m, trail)), Window(lead, trail, mean), pos + 11 + mean))
  }

  /** The XOR read at `pos` under window `w`: what the decoder's branches compute. */
  function DecodeXor(w: Window, bits: seq<bool>, pos: nat): Option<Decoded> {
    if pos >= |bits| then None
    else if !bits[pos] then Some(Decoded(0, w, pos + 1))
    else if pos + 1 >= |bits| then None
    else if !bits[pos + 1] then DecodeReuse(w, bits, pos + 2)
    else DecodeFresh(bits, pos + 2)
  }

  /** The bits of `x` are its window's bits between zeros. */
  lemma WindowBits(w: Window, x: u64)
    requires w.Window? && WindowOk(w)
    requires CountlZero(x) >= w.lead && CountrZero(x) >= w.trail
    ensures ToBits(x, 64)
         == Zeros(w.lead) + (ToBits(Shr(x, w.trail), w.mean) + Zeros(w.trail))
  {
    ToBitsShiftRight(x, w.trail, 64 - w.trail);
    ToBitsSuffix(Shr(x, w.trail), 64 - w.trail, w.mean);
    SplitAt(ToBits(x, 64), w.lead, 64 - w.trail);
  }

  lemma SplitAt(bits: seq<bool>, i: nat, j: nat)
    requires i <= j <= |bits|
    requires forall k :: 0 <= k < i ==> !bits[k]
    requires forall k :: j <= k < |bits| ==> !bits[k]
    ensures bits == Zeros(i) + (bits[..j][i..] + Zeros(|bits| - j))
  {
  }

  /** A window that covers the nonzero bits of `x` loses nothing of it. */
  lemma WindowHolds(w: Window, x: u64)
    requires w.Window? && WindowOk(w)
    requires CountlZero(x) >= w.lead && CountrZero(x) >= w.trail
    ensures U64(Shl(FromBits(ToBits(Shr(x, w.trail), w.mean)), w.trail)) == x
  {
    hide ToBits, FromBits, Shr, Shl, Pow2;
    var mid := ToBits(Shr(x, w.trail), w.mean);
    WindowBits(w, x);
    FromBitsLeadingZeros(w.lead, mid + Zeros(w.trail));
    FromBitsTrailingZeros(mid, w.trail);
    Pow2Constants();
    FromBitsToBits(x, 64);
  }

  /** Where the fields of a fresh window lie in the stream. */
  lemma FieldSlices(before: seq<bool>, lead: seq<bool>, mean: seq<bool>, mid: seq<bool>, after: seq<bool>)
    requires |lead| == 5 && |mean| == 6
    ensures var bits, p := before + ([true, true] + lead + mean + mid) + after, |before|;
      && bits[p] && bits[p + 1]
      && bits[p + 2..p + 7] == lead
      && bits[p + 7..p + 13] == mean
      && bits[p + 13..p + 13 + |mid|] == mid
  {
  }

  lemma ReuseSlices(before: seq<bool>, mid: seq<bool>, after: seq<bool>)
    ensures var bits, p := before + ([true, false] + mid) + after, |before|;
      bits[p] && !bits[p + 1] && bits[p + 2..p + 2 + |mid|] == mid
  {
  }

  lemma LockstepReuse(w: Window, x: u64, before: seq<bool>, after: seq<bool>)
    requires WindowOk(w) && x != 0 && Reuses(w, x)
    ensures DecodeXor(w, before + StepBits(w, x) + after, |before|)
         == Some(Decoded(x, w, |before| + |StepBits(w, x)|))
  {
    hide ToBits, FromBits, Shr, Shl, Pow2, LeadingZeros, TrailingZeros;
    ReuseSlices(before, ToBits(Shr(x, w.trail), w.mean), after);
    WindowHolds(w, x);
  }

  lemma LockstepFresh(w: Window, x: u64, before: seq<bool>, after: seq<bool>)
    requires WindowOk(w) && x != 0 && !Reuses(w, x)
    ensures DecodeXor(w, before + StepBits(w, x) + after, |before|)
         == Some(Decoded(x, FreshWindow(x), |before| + |StepBits(w, x)|))
  {
    hide ToBits, FromBits, Shr, Shl, Pow2, CountlZero, CountrZero, Reuses;
    var f := FreshWindow(x);
    FieldSlices(before, ToBits(f.lead, 5), ToBits(f.mean % 64, 6),
                ToBits(Shr(x, f.trail), f.mean), after);
    Pow2Constants();
    FromBitsToBits(f.lead, 5);
    FromBitsToBits(f.mean % 64, 6);
    WindowHolds(f, x);
  }

  /**
   Decoding inverts encoding, step by step: from equal windows the decoder reads the
   encoder's XOR, ends in the encoder's next window and consumes exactly its bits.
   */
  lemma Lockstep(w: Window, x: u64, before: seq<bool>, after: seq<bool>)
    requires WindowOk(w)
    ensures DecodeXor(w, before + StepBits(w, x) + after, |before|)
         == Some(Decoded(x, StepWindow(w, x), |before| + |StepBits(w, x)|))
  {
    hide ToBits, Shr, DecodeFresh, DecodeReuse, LeadingZeros, TrailingZeros;
    if x == 0 {
      assert StepBits(w, x) == [false];
    } else if Reuses(w, x) {
      LockstepReuse(w, x, before, after);
    } else {
      LockstepFresh(w, x, before, after);
    }
  }

  // ----- whole columns -----

  /** The window both sides hold after `j` values. */
  function WindowAfter(vals: seq<u64>, j: nat): (w: Window)
    requires j <= |vals|
    ensures WindowOk(w)
  {
    if j <= 1 then NoWindow
    else StepWindow(WindowAfter(vals, j - 1), Xor(vals[j - 1], vals[j - 2]))
  }

  /** The bits of value `j`: the first value raw, every other as a step. */
  function ValueBits(vals: seq<u64>, j: nat): seq<bool>
    requires j < |vals|
  {
    if j == 0 then ToBits(vals[0], 64)
    else StepBits(WindowAfter(vals, j), Xor(vals[j], vals[j - 1]))
  }

  function Stream(vals: seq<u64>, j: nat): seq<bool>
    requires j <= |vals|
  {
    if j == 0 then [] else Stream(vals, j - 1) + ValueBits(vals, j - 1)
  }

  lemma {:induction false} StreamPrefix(vals: seq<u64>, j: nat, n: nat)
    requires j <= n <= |vals|
    ensures |Stream(vals, j)| <= |Stream(vals, n)|
    ensures Stream(vals, n)[..|Stream(vals, j)|] == Stream(vals, j)
  {
    hide ValueBits;
    if j < n { StreamPrefix(vals, j, n - 1); }
  }

  /** At most 64 bits for the first value and 77 for every other. */
  lemma {:induction false} StreamSize(vals: seq<u64>, j: nat)
    requires 1 <= j <= |vals|
    ensures |Stream(vals, j)| <= 64 + 77 * (j - 1)
  {
    if j > 1 {
      StreamSize(vals, j - 1);
      StepBitsSize(WindowAfter(vals, j - 1), Xor(vals[j - 1], vals[j - 2]));
    } else {
      assert Stream(vals, 1) == [] + ValueBits(vals, 0);
    }
  }

  /** The first value raw, every other a step from the window the one before it left. */
  ghost predicate IsStream(vals: seq<u64>, bits: seq<bool>, ends: seq<nat>, ws: seq<Window>) {
    && |ends| == |ws| == |vals| + 1 && ends[0] == 0 && ends[|vals|] == |bits|
    && (vals != [] ==> ends[1] == 64 <= |bits| && bits[..64] == ToBits(vals[0], 64) && ws[1] == NoWindow)
    && forall j | 1 <= j < |vals| :: IsStepAt(vals, bits, ends, ws, j)
  }

  ghost predicate IsStepAt(vals: seq<u64>, bits: seq<bool>, ends: seq<nat>, ws: seq<Window>, j: nat)
    requires 1 <= j < |vals| && |ends| == |ws| == |vals| + 1
  {
    ends[j] <= ends[j + 1] <= |bits|
    && IsStep(ws[j], Xor(vals[j], vals[j - 1]), bits[ends[j]..ends[j + 1]], ws[j + 1])
  }

  lemma StreamSlice(vals: seq<u64>, j: nat)
    requires j < |vals|
    ensures |Stream(vals, j)| <= |Stream(vals, j + 1)| <= |Stream(vals, |vals|)|
    ensures Stream(vals, |vals|)[|Stream(vals, j)|..|Stream(vals, j + 1)|] == ValueBits(vals, j)
  {
    hide ValueBits;
    StreamPrefix(vals, j + 1, |vals|);
    var all, before, next := Stream(vals, |vals|), Stream(vals, j), Stream(vals, j + 1);
    assert next == before + ValueBits(vals, j);
    assert all[|before|..|next|] == all[..|next|][|before|..];
  }

  lemma StepAtIs(vals: seq<u64>, ends: seq<nat>, ws: seq<Window>, j: nat)
    requires 1 <= j < |vals| && |ends| == |ws| == |vals| + 1
    requires ends[j] == |Stream(vals, j)| && ends[j + 1] == |Stream(vals, j + 1)|
    requires ws[j] == WindowAfter(vals, j) && ws[j + 1] == WindowAfter(vals, j + 1)
    ensures IsStepAt(vals, Stream(vals, |vals|), ends, ws, j)
  {
    hide Xor, ToBits, IsStep, StepBits, Stream;
    StreamSlice(vals, j);
    StepIs(WindowAfter(vals, j), Xor(vals[j], vals[j - 1]));
  }

  function Ends(vals: seq<u64>): (ends: seq<nat>)
    ensures |ends| == |vals| + 1 && forall j | 0 <= j <= |vals| :: ends[j] == |Stream(vals, j)|
  {
    seq(|vals| + 1, j requires 0 <= j <= |vals| => |Stream(vals, j)|)
  }

  function Windows(vals: seq<u64>): (ws: seq<Window>)
    ensures |ws| == |vals| + 1 && forall j | 0 <= j <= |vals| :: ws[j] == WindowAfter(vals, j)
  {
    seq(|vals| + 1, j requires 0 <= j <= |vals| => WindowAfter(vals, j))
  }

  lemma StreamIs(vals: seq<u64>)
    ensures IsStream(vals, Stream(vals, |vals|), Ends(vals), Windows(vals))
  {
    FirstIs(vals);
    hide ToBits, IsStepAt, Stream, WindowAfter, Ends, Windows;
    var bits, ends, ws := Stream(vals, |vals|), Ends(vals), Windows(vals);
    forall j | 1 <= j < |vals| ensures IsStepAt(vals, bits, ends, ws, j) { StepAtIs(vals, ends, ws, j); }
  }

  lemma FirstIs(vals: seq<u64>)
    ensures Stream(vals, 0) == [] && WindowAfter(vals, 0) == NoWindow
    ensures vals != [] ==>
      |Stream(vals, 1)| == 64 <= |Stream(vals, |vals|)| && Stream(vals, |vals|)[..64] == ToBits(vals[0], 64)
      && WindowAfter(vals, 1) == NoWindow
  {
    if vals != [] {
      StreamPrefix(vals, 1, |vals|);
      assert Stream(vals, 1) == [] + ToBits(vals[0], 64);
    }
  }

  /** The decoder's running state: previous value, window, bit position. */
  datatype State = State(started: bool, prev: u64, window: Window, pos: nat)

  /** The state that corresponds to the encoder's after `j` values. */
  function StateAfter(vals: seq<u64>, j: nat): State
    requires j <= |vals|
  {
    State(j > 0, if j > 0 then vals[j - 1] else 0, WindowAfter(vals, j), |Stream(vals, j)|)
  }

  /** One value decoded from state `s`. */
  function DecodeValue(s: State, bits: seq<bool>): Option<(u64, State)> {
    if !s.started then
      if s.pos + 64 > |bits| then None
      else
        WordOfBits(bits[s.pos..s.pos + 64]);
        var v := FromBits(bits[s.pos..s.pos + 64]);
        Some((v, State(true, v, s.window, s.pos + 64)))
    else match DecodeXor(s.window, bits, s.pos)
      case None => None
      case Some(d) =>
        var v := Xor(s.prev, d.x);
        Some((v, State(true, v, d.window, d.pos)))
  }

  lemma PrefixSplit(bits: seq<bool>, all: seq<bool>, a: seq<bool>, b: seq<bool>) returns (after: seq<bool>)
    requires all <= bits && |a| + |b| <= |all| && all[..|a| + |b|] == a + b
    ensures bits == a + b + after
  {
    after := bits[|a| + |b|..];
  }

  lemma StreamStep(vals: seq<u64>, j: nat)
    requires j < |vals|
    ensures Stream(vals, j + 1) == Stream(vals, j) + ValueBits(vals, j)
  {
    hide ValueBits;
  }

  lemma StreamNext(vals: seq<u64>, j: nat)
    requires 0 < j < |vals|
    ensures var w, x := WindowAfter(vals, j), Xor(vals[j], vals[j - 1]);
      && Stream(vals, j + 1) == Stream(vals, j) + StepBits(w, x)
      && WindowAfter(vals, j + 1) == StepWindow(w, x)
  {
    hide StepBits, Xor, StepWindow;
  }

  /** In lockstep after `j` values, the decoder yields value `j` and stays in lockstep. */
  lemma DecodeInLockstep(vals: seq<u64>, j: nat, bits: seq<bool>)
    requires j < |vals|
    requires Stream(vals, |vals|) <= bits
    ensures DecodeValue(StateAfter(vals, j), bits) == Some((vals[j], StateAfter(vals, j + 1)))
  {
    hide ValueBits, DecodeValue, StateAfter, Stream, WindowAfter;
    var before, mine := Stream(vals, j), ValueBits(vals, j);
    StreamStep(vals, j);
    StreamPrefix(vals, j + 1, |vals|);
    var after := PrefixSplit(bits, Stream(vals, |vals|), before, mine);
    if j == 0 {
      FirstInLockstep(vals, bits, after);
    } else {
      NextInLockstep(vals, j, bits, after);
    }
  }

  lemma NextInLockstep(vals: seq<u64>, j: nat, bits: seq<bool>, after: seq<bool>)
    requires 0 < j < |vals| && bits == Stream(vals, j) + ValueBits(vals, j) + after
    ensures DecodeValue(StateAfter(vals, j), bits) == Some((vals[j], StateAfter(vals, j + 1)))
  {
    hide DecodeXor, StepBits, Xor;
    var w, x := WindowAfter(vals, j), Xor(vals[j], vals[j - 1]);
    Lockstep(w, x, Stream(vals, j), after);
    XorInverse(vals[j - 1], vals[j]);
    StreamNext(vals, j);
  }

  lemma FirstInLockstep(vals: seq<u64>, bits: seq<bool>, after: seq<bool>)
    requires |vals| > 0 && bits == Stream(vals, 0) + ValueBits(vals, 0) + after
    ensures DecodeValue(StateAfter(vals, 0), bits) == Some((vals[0], StateAfter(vals, 1)))
  {
    assert bits[0..64] == ToBits(vals[0], 64);
    assert Stream(vals, 1) == Stream(vals, 0) + ValueBits(vals, 0);
    Pow2Constants();
    FromBitsToBits(vals[0], 64);
  }

  /** `n` values decoded from state `s`. */
  function DecodeValues(s: State, bits: seq<bool>, n: nat): Option<seq<u64>>
    decreases n
  {
    if n == 0 then Some([])
    else match DecodeValue(s, bits)
      case None => None
      case Some((v, s')) =>
        match DecodeValues(s', bits, n - 1)
        case None => None
        case Some(rest) => Some([v] + rest)
  }

  lemma {:induction false} DecodeFrom(vals: seq<u64>, j: nat, bits: seq<bool>)
    requires j <= |vals| && Stream(vals, |vals|) <= bits
    ensures DecodeValues(StateAfter(vals, j), bits, |vals| - j) == Some(vals[j..])
    decreases |vals| - j
  {
    hide DecodeValue, StateAfter, Stream;
    if j == |vals| {
      assert vals[j..] == [];
    } else {
      DecodeInLockstep(vals, j, bits);
      DecodeFrom(vals, j + 1, bits);
      assert vals[j..] == [vals[j]] + vals[j + 1..];
    }
  }

  /** Decoding inverts encoding for every sequence of 64-bit patterns, whatever pads the stream. */
  lemma GorillaRoundTrip(vals: seq<u64>, pad: seq<bool>)
    ensures DecodeValues(State(false, 0, NoWindow, 0), Stream(vals, |vals|) + pad, |vals|)
         == Some(vals)
  {
    DecodeFrom(vals, 0, Stream(vals, |vals|) + pad);
    assert vals[0..] == vals;
  }

  // ----- the encoder and the BOOL packer -----

  lemma StepZero(w: Window)
    requires WindowOk(w)
    ensures StepBits(w, 0) == [false] && StepWindow(w, 0) == w
  {
  }

  lemma AppendReuse(s: seq<bool>, w: Window, x: u64)
    requires WindowOk(w) && x != 0 && Reuses(w, x)
    ensures s + [true] + [false] + ToBits(Shr(x, w.trail), w.mean) == s + StepBits(w, x)
    ensures StepWindow(w, x) == w
  {
    hide ToBits, Shr, LeadingZeros, TrailingZeros;
  }

  lemma FreshBits(s: seq<bool>, w: Window, x: u64)
    requires WindowOk(w) && x != 0 && !Reuses(w, x)
    ensures var f := FreshWindow(x);
      && |StepBits(w, x)| > 0 && StepBits(w, x)[0]
      && s + [true] + ToBits(f.lead, 5) + ToBits(f.mean % 64, 6) + ToBits(Shr(x, f.trail), f.mean)
         == s + StepBits(w, x)[1..]
  {
    hide ToBits, Shr, FreshWindow, Reuses;
    var f := FreshWindow(x);
    DropFirst(s, ToBits(f.lead, 5), ToBits(f.mean % 64, 6), ToBits(Shr(x, f.trail), f.mean));
  }

  lemma DropFirst(s: seq<bool>, a: seq<bool>, b: seq<bool>, c: seq<bool>)
    ensures s + [true] + a + b + c == s + ([true, true] + a + b + c)[1..]
  {
  }

  lemma AppendTail(s: seq<bool>, bits: seq<bool>)
    requires |bits| > 0 && bits[0]
    ensures s + [true] + bits[1..] == s + bits
  {
  }

  /** The new-window branch: control bit, five bits of lead, six of length, the block. */
  method PutFresh(bw: BitWriter, ghost w: Window, x: u64, lead: nat, trail: nat)
    returns (clamped: nat, mean: nat)
    requires bw.Valid() && WindowOk(w) && x != 0 && !Reuses(w, x)
    requires lead == CountlZero(x) && trail == CountrZero(x)
    modifies bw
    ensures bw.Valid() && bw.Stream() == old(bw.Stream()) + StepBits(w, x)[1..]
    ensures StepBits(w, x)[0] && StepWindow(w, x) == Window(clamped, trail, mean)
  {
    hide ToBits, FromBits, Shr, Pow2, CountlZero, CountrZero, StepBits, BitWriter.Stream, BitWriter.Valid;
    ZeroCounts(x);
    clamped := if lead > 31 then 31 else lead;
    mean := 64 - clamped - trail;
    FreshBits(old(bw.Stream()), w, x);
    bw.PutBit(true);
    bw.PutBits(clamped, 5);
    bw.PutBits(mean % 64, 6);
    bw.PutBits(Shr(x, trail), mean);
  }

  method EncodeGorilla(vals: seq<u64>) returns (out: seq<byte>)
    ensures |out| == (|Stream(vals, |vals|)| + 7) / 8
    ensures BitsOfBytes(out) == Stream(vals, |vals|) + Zeros(8 * |out| - |Stream(vals, |vals|)|)
  {
    hide ToBits, FromBits, Shr, Shl, Pow2, LeadingZeros, TrailingZeros, Xor, BitsOfBytes, Zeros, BitWriter.Stream, BitWriter.Valid;
    var bw := new BitWriter();
    if vals == [] {
      bw.Flush();
      return bw.out;
    }
    var prev := vals[0];
    bw.PutBits(prev, 64);
    assert Stream(vals, 1) == [] + ValueBits(vals, 0);
    var prevLead, prevTrail, prevMean, haveWindow := 0, 0, 0, false;
    for i := 1 to |vals|
      invariant fresh(bw) && bw.Valid() && bw.Stream() == Stream(vals, i)
      invariant prev == vals[i - 1]
      invariant WindowAfter(vals, i)
             == if haveWindow then Window(prevLead, prevTrail, prevMean) else NoWindow
    {
      hide ValueBits, WindowAfter, Stream, StepBits, StepWindow;
      var x := Xor(vals[i], prev);
      ghost var s, w := Stream(vals, i), WindowAfter(vals, i);
      prev := vals[i];
      StreamNext(vals, i);
      if x == 0 {
        StepZero(w);
        bw.PutBit(false);
        continue;
      }
      bw.PutBit(true);
      var lead, trail := CountlZero(x), CountrZero(x);
      if haveWindow && lead >= prevLead && trail >= prevTrail {
        AppendReuse(s, w, x);
        bw.PutBit(false);
        bw.PutBits(Shr(x, prevTrail), prevMean);
      } else {
        prevLead, prevMean := PutFresh(bw, w, x, lead, trail);
        AppendTail(s, StepBits(w, x));
        prevTrail, haveWindow := trail, true;
      }
    }
    bw.Flush();
    out := bw.out;
  }

  /** The bits packed for BOOL values: the low bit of each. */
  function BoolBits(vals: seq<u64>): seq<bool> {
    seq(|vals|, i requires 0 <= i < |vals| => vals[i] % 2 == 1)
  }

  method EncodeBool(vals: seq<u64>) returns (out: seq<byte>)
    ensures |out| == (|vals| + 7) / 8
    ensures BitsOfBytes(out) == BoolBits(vals) + Zeros(8 * |out| - |vals|)
  {
    var bw := new BitWriter();
    for i := 0 to |vals|
      invariant fresh(bw) && bw.Valid() && bw.Stream() == BoolBits(vals)[..i]
    {
      bw.PutBit(vals[i] % 2 == 1);
      assert BoolBits(vals)[..i + 1] == BoolBits(vals)[..i] + [vals[i] % 2 == 1];
    }
    bw.Flush();
    out := bw.out;
  }
}
