/**
 Compressed columns and the scan that decodes them batch by batch.

 A column's stream is its validity bitmap, kept as it is, and the codec bytes of its
 non-null values in row order. `InSync` says that a decoder cursor stands exactly
 where the encoder stood at a given row; every window decoded keeps it, which makes
 the decoded rows independent of how the scan is cut into batches.
 */
module CompressedTables {
  import opened Words
  import opened BitStream
  import opened IntCodec
  import opened Columns
  import opened CodecForms
  import Gorilla

  const DEFAULT_BATCH_SIZE: nat := 2048

  datatype EncodedColumn = EncodedColumn(typ: Type, nrows: nat, nonnull: nat, allValid: bool,
                                         validity: seq<Word>, values: seq<byte>)
  {
    predicate ValidBit(row: nat)
      requires row < nrows && (!allValid ==> |validity| >= WordsFor(nrows))
    {
      allValid || GetBit(validity, row)
    }
  }

  /** The 64-bit pattern of a stored value, I32 sign-extended, BOOL as 0 or 1. */
  function ReadBits(t: Type, v: int): u64
    requires InRange(t, v)
  {
    match t
    case I32 | I64 | TS => AsUnsigned64(v)
    case F64 => v
    case BOOL => if v != 0 then 1 else 0
    case STR => 0
  }

  /** The value a decoded pattern is stored as; I32 keeps the low 32 bits. */
  function Restore(t: Type, bits: u64): int {
    match t
    case I32 => var low := bits % TWO_32; if low < TWO_31 then low else low - TWO_32
    case I64 => AsSigned64(bits)
    case TS => AsSigned64(bits)
    case _ => bits
  }

  lemma RestoreReadBits(t: Type, v: int)
    requires InRange(t, v) && !t.STR?
    ensures Restore(t, ReadBits(t, v)) == v
  {
  }

  predicate Compressible(t: Type) { !t.STR? }

  predicate IsDod(t: Type) { t.I64? || t.TS? }

  /** The patterns of the non-null values among the first `n` rows, in row order. */
  function NonNull(col: Column, n: nat): (vals: seq<u64>)
    requires col.Valid() && Compressible(col.typ) && n <= col.len
    ensures |vals| <= n
  {
    if n == 0 then []
    else NonNull(col, n - 1) + (if col.IsValid(n - 1) then [ReadBits(col.typ, col.data[n - 1])] else [])
  }

  /** The stored values of the valid rows among the first `n`, in row order. */
  function ValuesOf(col: Column, n: nat): (v: seq<int>)
    requires |col.data| == col.len && (!col.allValid ==> |col.validity| >= WordsFor(col.len)) && n <= col.len
  {
    if n == 0 then [] else ValuesOf(col, n - 1) + (if col.IsValid(n - 1) then [col.data[n - 1]] else [])
  }

  lemma {:induction false} PatternsOfValues(col: Column, n: nat)
    requires col.Valid() && Compressible(col.typ) && n <= col.len
    ensures var v, vals := ValuesOf(col, n), NonNull(col, n);
      |vals| == |v| && forall j | 0 <= j < |v| :: InRange(col.typ, v[j]) && vals[j] == ReadBits(col.typ, v[j])
  {
    hide ReadBits, InRange;
    if n > 0 { PatternsOfValues(col, n - 1); }
  }

  lemma {:induction false} NonNullPrefix(col: Column, m: nat, n: nat)
    requires col.Valid() && Compressible(col.typ) && m <= n <= col.len
    ensures NonNull(col, m) <= NonNull(col, n)
  {
    if m < n { NonNullPrefix(col, m, n - 1); }
  }

  /** A valid row's value is the next one of the stream. */
  lemma NonNullAt(col: Column, row: nat)
    requires col.Valid() && Compressible(col.typ) && row < col.len && col.IsValid(row)
    ensures var j, vals := |NonNull(col, row)|, NonNull(col, col.len);
      j < |vals| && vals[j] == ReadBits(col.typ, col.data[row]) && |NonNull(col, row + 1)| == j + 1
  {
    NonNullPrefix(col, row + 1, col.len);
  }

  /** The bytes hold exactly the codec's stream for `vals`. */
  ghost predicate HoldsStream(t: Type, values: seq<byte>, vals: seq<u64>) {
    match t
    case F64 => Gorilla.Stream(vals, |vals|) <= BitsOfBytes(values)
    case BOOL => Gorilla.BoolBits(vals) <= BitsOfBytes(values)
    case _ => values == IntStream(IsDod(t), vals, |vals|)
  }

  /** `e` is an encoding of `col`: the same nulls, and the stream of its non-null values. */
  ghost predicate Encodes(e: EncodedColumn, col: Column) {
    && col.Valid() && Compressible(col.typ)
    && e.typ == col.typ && e.nrows == col.len
    && (!e.allValid ==> |e.validity| >= WordsFor(e.nrows))
    && (forall r: nat | r < col.len :: e.ValidBit(r) == col.IsValid(r))
    && e.nonnull == |NonNull(col, col.len)|
    && HoldsStream(e.typ, e.values, NonNull(col, col.len))
  }

  /** The promised size: ten bytes an integer, 64 + 77(n - 1) bits of F64, a bit a BOOL. */
  ghost predicate SizeBound(t: Type, nonnull: nat, size: nat) {
    match t
    case F64 => if nonnull == 0 then size == 0 else size <= (64 + 77 * (nonnull - 1) + 7) / 8
    case BOOL => size == (nonnull + 7) / 8
    case _ => size <= 10 * nonnull
  }

  /** Collect the non-null patterns in row order. */
  method CollectNonNull(col: Column) returns (vals: seq<u64>)
    requires col.Valid() && Compressible(col.typ)
    ensures vals == NonNull(col, col.len)
  {
    hide ReadBits;
    vals := [];
    for r := 0 to col.len
      invariant vals == NonNull(col, r)
    {
      if col.IsValid(r) { vals := vals + [ReadBits(col.typ, col.data[r])]; }
    }
  }

  method EncodeColumn(col: Column) returns (e: EncodedColumn)
    requires col.Valid() && Compressible(col.typ)
    ensures Encodes(e, col)
    ensures SizeBound(e.typ, e.nonnull, |e.values|)
    ensures IsEncoding(e.typ, ValuesOf(col, col.len), e.values)
  {
    hide ReadBits, SizeBound, IntStream, Gorilla.Stream, Gorilla.BoolBits, BitsOfBytes, IsEncoding, ValuesOf, NonNull;
    var validity := if col.allValid then [] else col.validity[..WordsFor(col.len)];
    var vals := CollectNonNull(col);
    var values;
    match col.typ {
      case I64 => values := EncodeDod(vals);
      case TS => values := EncodeDod(vals);
      case I32 => values := EncodeZigZag(vals);
      case F64 => values := Gorilla.EncodeGorilla(vals);
      case BOOL => values := Gorilla.EncodeBool(vals);
    }
    EncodedSize(col.typ, vals, values);
    EncodedForm(col, vals, values);
    e := EncodedColumn(col.typ, col.len, |vals|, col.allValid, validity, values);
  }

  lemma PatternsAre(t: Type, vals: seq<u64>, v: seq<int>)
    requires |vals| == |v| && forall j | 0 <= j < |v| :: InRange(t, v[j]) && vals[j] == ReadBits(t, v[j])
    ensures t.F64? ==> Doubles(v) == vals
    ensures t.BOOL? ==> forall j | 0 <= j < |v| :: vals[j] == if v[j] != 0 then 1 else 0
    ensures t.I32? || t.I64? || t.TS? ==> ArePatterns(vals, v)
  {
  }

  lemma EncodedForm(col: Column, vals: seq<u64>, values: seq<byte>)
    requires col.Valid() && Compressible(col.typ) && vals == NonNull(col, col.len)
    requires col.typ.I32? ==> values == IntStream(false, vals, |vals|)
    requires col.typ.I64? || col.typ.TS? ==> values == IntStream(true, vals, |vals|)
    requires col.typ.F64? ==> PaddedTo(values, Gorilla.Stream(vals, |vals|))
    requires col.typ.BOOL? ==> PaddedTo(values, Gorilla.BoolBits(vals))
    ensures IsEncoding(col.typ, ValuesOf(col, col.len), values)
  {
    var v := ValuesOf(col, col.len);
    PatternsOfValues(col, col.len);
    PatternsAre(col.typ, vals, v);
    hide IntStream, Gorilla.Stream, Gorilla.BoolBits, PaddedTo, IsIntForm, NonNull, ValuesOf, IsGorillaForm, Column.Valid,
      ReadBits, Doubles, ArePatterns, InRange;
    match col.typ {
      case F64 => GorillaIs(vals, values);
      case BOOL => BitsAre(vals, v, values);
      case _ => IntStreamIs(col.typ, vals, v);
    }
  }

  /** An I32 column's bytes are those of its values, each on its own. */
  lemma PlainApart(a: Column, b: Column, c: Column, ea: EncodedColumn, eb: EncodedColumn, ec: EncodedColumn)
    requires a.typ.I32? && b.typ.I32? && c.typ.I32? && Encodes(ea, a) && Encodes(eb, b) && Encodes(ec, c)
    requires ValuesOf(c, c.len) == ValuesOf(a, a.len) + ValuesOf(b, b.len)
    ensures ec.values == ea.values + eb.values
  {
    PatternsConcat(a, b, c);
    PlainValues(ea, a);
    PlainValues(eb, b);
    PlainValues(ec, c);
    hide IntStream, NonNull, ValuesOf, Encodes;
    PlainConcat(NonNull(a, a.len), NonNull(b, b.len), |NonNull(b, b.len)|);
  }

  lemma PlainValues(e: EncodedColumn, col: Column)
    requires col.typ.I32? && Encodes(e, col)
    ensures col.Valid() && e.values == IntStream(false, NonNull(col, col.len), |NonNull(col, col.len)|)
  {
    hide IntStream, NonNull, Column.Valid;
  }

  lemma PatternsConcat(a: Column, b: Column, c: Column)
    requires a.Valid() && b.Valid() && c.Valid() && a.typ == b.typ == c.typ && Compressible(a.typ)
    requires ValuesOf(c, c.len) == ValuesOf(a, a.len) + ValuesOf(b, b.len)
    ensures NonNull(c, c.len) == NonNull(a, a.len) + NonNull(b, b.len)
  {
    PatternsOfValues(a, a.len);
    PatternsOfValues(b, b.len);
    PatternsOfValues(c, c.len);
    var x, y, z := NonNull(a, a.len), NonNull(b, b.len), NonNull(c, c.len);
    hide NonNull, ValuesOf, ReadBits, Column.Valid;
    forall j | 0 <= j < |z| ensures z[j] == (x + y)[j] {}
  }

  lemma EncodedSize(t: Type, vals: seq<u64>, values: seq<byte>)
    requires Compressible(t) && HoldsStream(t, values, vals)
    requires t.F64? ==> |values| == (|Gorilla.Stream(vals, |vals|)| + 7) / 8
    requires t.BOOL? ==> |values| == (|vals| + 7) / 8
    ensures SizeBound(t, |vals|, |values|)
  {
    if t.F64? {
      if vals != [] { Gorilla.StreamSize(vals, |vals|); }
    } else if !t.BOOL? {
      IntStreamSize(IsDod(t), vals, |vals|);
    }
  }

  // ----- the streaming decoder -----

  /** Stream position and running state of one column's decoder, carried across batches. */
  datatype ColCursor = ColCursor(bytePos: nat, bitPos: nat, prev: u64, prevDelta: u64,
                                 gPrev: u64, gLead: nat, gTrail: nat, gMean: nat, gStarted: bool)
  {
    /** A cursor that has not seen a window yet has mean 0. */
    function Window(): Gorilla.Window {
      if gMean == 0 then Gorilla.NoWindow else Gorilla.Window(gLead, gTrail, gMean)
    }

    function GorillaState(pos: nat): Gorilla.State {
      Gorilla.State(gStarted, gPrev, Window(), pos)
    }
  }

  const START: ColCursor := ColCursor(0, 0, 0, 0, 0, 0, 0, 0, false)

  /** The cursor's state is the encoder's after `j` values of `vals`. */
  ghost predicate CursorAt(t: Type, vals: seq<u64>, j: nat, cc: ColCursor)
    requires j <= |vals|
  {
    match t
    case F64 => cc.GorillaState(cc.bitPos) == Gorilla.StateAfter(vals, j)
    case BOOL => cc.bitPos == j
    case _ =>
      && cc.bytePos == |IntStream(IsDod(t), vals, j)|
      && (IsDod(t) ==> cc.prev == PrevAt(vals, j) && cc.prevDelta == DeltaAt(vals, j))
  }

  ghost predicate InSync(col: Column, row: nat, cc: ColCursor)
    requires col.Valid() && Compressible(col.typ) && row <= col.len
  {
    NonNullPrefix(col, row, col.len);
    CursorAt(col.typ, NonNull(col, col.len), |NonNull(col, row)|, cc)
  }

  lemma StartInSync(col: Column)
    requires col.Valid() && Compressible(col.typ)
    ensures InSync(col, 0, START)
  {
  }

  /** A bitmap and flag that have the nullness of the first `done` rows from `start`. */
  ghost predicate NullsDone(validity: seq<Word>, allValid: bool, col: Column, start: nat, n: nat, done: nat)
    requires col.Valid() && start + n <= col.len && done <= n
  {
    && (validity == [] || |validity| == WordsFor(n))
    && (forall k: nat | k < n ::
          BitmapValid(validity, k) == (k < done ==> col.IsValid(start + k)))
    && (allValid <==> forall k: nat | k < n :: BitmapValid(validity, k))
  }

  /** Values that are those of the first `done` rows from `start`, where these are not null. */
  ghost predicate ValuesDone(data: seq<int>, col: Column, start: nat, n: nat, done: nat)
    requires col.Valid() && start + n <= col.len && done <= n
  {
    |data| == n
    && forall k: nat | k < done && col.IsValid(start + k) :: data[k] == col.data[start + k]
  }

  /** `oc` is rows `[start, start + n)` of `col`, with its first `done` rows filled in. */
  ghost predicate Window(oc: OwnedColumn, col: Column, start: nat, n: nat, done: nat)
    requires col.Valid() && start + n <= col.len && done <= n
    reads oc
  {
    && oc.typ == col.typ && oc.len == n
    && NullsDone(oc.validity, oc.allValid, col, start, n, done)
    && ValuesDone(oc.data, col, start, n, done)
  }

  /** Row `k` is null: `oc.set_null(k)`. */
  method MarkNull(oc: OwnedColumn, k: nat, ghost col: Column, ghost start: nat, ghost n: nat)
    requires col.Valid() && start + n <= col.len && k < n
    requires |oc.data| == oc.len == n && !col.IsValid(start + k)
    requires NullsDone(oc.validity, oc.allValid, col, start, n, k)
    modifies oc`validity, oc`allValid
    ensures NullsDone(oc.validity, oc.allValid, col, start, n, k + 1)
  {
    oc.SetNull(k);
  }

  method PutNull(oc: OwnedColumn, k: nat, ghost col: Column, ghost start: nat, ghost n: nat)
    requires col.Valid() && start + n <= col.len && k < n
    requires Window(oc, col, start, n, k) && !col.IsValid(start + k)
    modifies oc
    ensures Window(oc, col, start, n, k + 1)
  {
    MarkNull(oc, k, col, start, n);
  }

  lemma SkipNull(validity: seq<Word>, allValid: bool, k: nat, col: Column, start: nat, n: nat)
    requires col.Valid() && start + n <= col.len && k < n
    requires NullsDone(validity, allValid, col, start, n, k) && col.IsValid(start + k)
    ensures NullsDone(validity, allValid, col, start, n, k + 1)
  {
  }

  /** Row `k` holds `v`: `out[k] = v`. */
  method PutValue(oc: OwnedColumn, k: nat, v: int, ghost col: Column, ghost start: nat, ghost n: nat)
    requires col.Valid() && start + n <= col.len && k < n
    requires Window(oc, col, start, n, k) && col.IsValid(start + k) && v == col.data[start + k]
    modifies oc
    ensures Window(oc, col, start, n, k + 1)
  {
    oc.data := oc.data[k := v];
  }

  /** Decode one window of a bit-packed BOOL column. */
  method DecodeBoolWindow(e: EncodedColumn, cc: ColCursor, oc: OwnedColumn, start: nat, n: nat,
                          ghost col: Column) returns (cc': ColCursor)
    requires Encodes(e, col) && e.typ.BOOL? && start + n <= col.len
    requires InSync(col, start, cc) && Window(oc, col, start, n, 0)
    modifies oc
    ensures Window(oc, col, start, n, n) && InSync(col, start + n, cc')
  {
    hide Window, HoldsStream, NonNull, BitsOfBytes, ReadBits;
    var br := new BitReader(e.values, cc.bitPos);
    for k := 0 to n
      invariant fresh(br) && br.data == e.values && br.bitpos == |NonNull(col, start + k)|
      invariant Window(oc, col, start, n, k)
    {
      if !e.ValidBit(start + k) {
        PutNull(oc, k, col, start, n);
        NonNullSkip(col, start + k);
        continue;
      }
      NonNullAt(col, start + k);
      BoolBitAt(e.values, NonNull(col, col.len), br.bitpos);
      BoolBits01(col.data[start + k]);
      var b := br.GetBit();
      PutValue(oc, k, if b then 1 else 0, col, start, n);
    }
    cc' := cc.(bitPos := br.bitpos);
  }

  lemma BoolBits01(v: int)
    requires InRange(BOOL, v)
    ensures v == if ReadBits(BOOL, v) % 2 == 1 then 1 else 0
  {
  }

  lemma NonNullSkip(col: Column, row: nat)
    requires col.Valid() && Compressible(col.typ) && row < col.len && !col.IsValid(row)
    ensures NonNull(col, row + 1) == NonNull(col, row)
  {
  }

  lemma BoolBitAt(values: seq<byte>, vals: seq<u64>, j: nat)
    requires HoldsStream(BOOL, values, vals) && j < |vals|
    ensures j < 8 * |values| && BitsOfBytes(values)[j] == (vals[j] % 2 == 1)
  {
    assert BitsOfBytes(values)[..|vals|][j] == Gorilla.BoolBits(vals)[j];
  }

  // ----- F64 -----

  /** The decoder's branches for one value; `cc` carries the window and the previous value. */
  method DecodeGorillaValue(br: BitReader, cc: ColCursor) returns (value: u64, cc': ColCursor)
    requires Gorilla.WindowOk(cc.Window())
    requires Gorilla.DecodeValue(cc.GorillaState(br.bitpos), BitsOfBytes(br.data)).Some?
    modifies br
    ensures Gorilla.DecodeValue(cc.GorillaState(old(br.bitpos)), BitsOfBytes(br.data))
         == Some((value, cc'.GorillaState(br.bitpos)))
  {
    hide BitsOfBytes, FromBits, Shl, Xor;
    cc' := cc;
    if !cc.gStarted {
      value := br.GetBits(64);
      cc' := cc'.(gStarted := true, gPrev := value);
      return;
    }
    var x: u64 := 0;
    var b := br.GetBit();
    if b {
      var described := br.GetBit();
      if !described {
        var meaningful := br.GetBits(cc.gMean);
        x := U64(Shl(meaningful, cc.gTrail));
      } else {
        var lead := br.GetBits(5);
        var m6 := br.GetBits(6);
        var mean := if m6 == 0 then 64 else m6;
        var meaningful := br.GetBits(mean);
        var trail := 64 - lead - mean;
        x := U64(Shl(meaningful, trail));
        cc' := cc'.(gLead := lead, gTrail := trail, gMean := mean);
      }
    }
    value := Xor(cc.gPrev, x);
    cc' := cc'.(gPrev := value);
  }

  /** Decode one window of a Gorilla F64 column. */
  method DecodeF64Window(e: EncodedColumn, cc: ColCursor, oc: OwnedColumn, start: nat, n: nat,
                         ghost col: Column) returns (cc': ColCursor)
    requires Encodes(e, col) && e.typ.F64? && start + n <= col.len
    requires InSync(col, start, cc) && Window(oc, col, start, n, 0)
    modifies oc
    ensures Window(oc, col, start, n, n) && InSync(col, start + n, cc')
  {
    hide Window, NonNull, BitsOfBytes, ReadBits;
    hide Gorilla.DecodeValue, Gorilla.StateAfter, Gorilla.Stream, ColCursor.GorillaState;
    var br := new BitReader(e.values, cc.bitPos);
    cc' := cc;
    ghost var vals := NonNull(col, col.len);
    NonNullPrefix(col, start, col.len);
    for k := 0 to n
      invariant fresh(br) && br.data == e.values
      invariant |NonNull(col, start + k)| <= |vals|
      invariant cc'.GorillaState(br.bitpos) == Gorilla.StateAfter(vals, |NonNull(col, start + k)|)
      invariant Window(oc, col, start, n, k)
    {
      if !e.ValidBit(start + k) {
        PutNull(oc, k, col, start, n);
        NonNullSkip(col, start + k);
        continue;
      }
      NonNullAt(col, start + k);
      ghost var j := |NonNull(col, start + k)|;
      Gorilla.DecodeInLockstep(vals, j, BitsOfBytes(e.values));
      GorillaWindowOk(vals, j, cc', br.bitpos);
      var value;
      value, cc' := DecodeGorillaValue(br, cc');
      assert value == ReadBits(F64, col.data[start + k]);
      RestoreReadBits(F64, col.data[start + k]);
      PutValue(oc, k, Restore(F64, value), col, start, n);
    }
    GorillaReposition(cc', br.bitpos);
    cc' := cc'.(bitPos := br.bitpos);
  }

  lemma GorillaWindowOk(vals: seq<u64>, j: nat, cc: ColCursor, pos: nat)
    requires j <= |vals| && cc.GorillaState(pos) == Gorilla.StateAfter(vals, j)
    ensures Gorilla.WindowOk(cc.Window())
  {
  }

  lemma GorillaReposition(cc: ColCursor, pos: nat)
    ensures cc.(bitPos := pos).GorillaState(pos) == cc.GorillaState(pos)
  {
  }

  // ----- I32 / I64 / TS -----

  /** The local indices of the non-null rows among the window's first `n`, in order. */
  function Slots(col: Column, start: nat, n: nat): (slots: seq<nat>)
    requires col.Valid() && start + n <= col.len
    ensures forall i | 0 <= i < |slots| :: slots[i] < n
  {
    if n == 0 then []
    else Slots(col, start, n - 1) + (if col.IsValid(start + n - 1) then [n - 1] else [])
  }

  lemma {:induction false} SlotsCount(col: Column, start: nat, n: nat)
    requires col.Valid() && Compressible(col.typ) && start + n <= col.len
    ensures |NonNull(col, start + n)| == |NonNull(col, start)| + |Slots(col, start, n)|
  {
    if n > 0 { SlotsCount(col, start, n - 1); }
  }

  /** Slot `j` is the local row that follows `j` non-null ones. */
  lemma {:induction false} SlotAt(col: Column, start: nat, n: nat, j: nat)
    requires col.Valid() && start + n <= col.len && j < |Slots(col, start, n)|
    ensures var k := Slots(col, start, n)[j];
      k < n && col.IsValid(start + k) && |Slots(col, start, k)| == j
  {
    if j < |Slots(col, start, n - 1)| { SlotAt(col, start, n - 1, j); }
  }

  /** A non-null row's slot is among the window's. */
  lemma {:induction false} SlotOf(col: Column, start: nat, n: nat, k: nat)
    requires col.Valid() && start + n <= col.len && k < n && col.IsValid(start + k)
    ensures |Slots(col, start, k)| < |Slots(col, start, n)|
  {
    if k < n - 1 { SlotOf(col, start, n - 1, k); }
  }

  /** `zz` is the run of encoded words that starts at row `start`. */
  ghost predicate WordsFrom(zz: seq<u64>, col: Column, start: nat, n: nat)
    requires col.Valid() && Compressible(col.typ) && start + n <= col.len
  {
    var vals, j := NonNull(col, col.len), |NonNull(col, start)|;
    && j + |zz| == |NonNull(col, start + n)| <= |vals|
    && forall i | 0 <= i < |zz| :: zz[i] == WordAt(IsDod(col.typ), vals, j + i)
  }

  /** The byte offset at which a decoder that has passed the first `row` rows stands. */
  ghost function OffsetAt(col: Column, row: nat): nat
    requires col.Valid() && Compressible(col.typ) && row <= col.len
  {
    NonNullPrefix(col, row, col.len);
    |IntStream(IsDod(col.typ), NonNull(col, col.len), |NonNull(col, row)|)|
  }

  /** Read the word of the non-null row `row`. */
  method ReadWord(e: EncodedColumn, bytePos: nat, ghost col: Column, ghost row: nat)
    returns (w: u64, bytePos': nat)
    requires Encodes(e, col) && !e.typ.F64? && !e.typ.BOOL? && row < col.len && col.IsValid(row)
    requires bytePos == OffsetAt(col, row)
    ensures var vals, j := NonNull(col, col.len), |NonNull(col, row)|;
      j < |vals| && w == WordAt(IsDod(col.typ), vals, j)
    ensures bytePos' == OffsetAt(col, row + 1)
  {
    hide NonNull, IntStream, WordAt, Terminated, LebValue, Varint;
    ghost var vals, j, dod := NonNull(col, col.len), |NonNull(col, row)|, IsDod(col.typ);
    NonNullAt(col, row);
    IntStreamAt(dod, vals, j);
    w, bytePos' := GetVarint(e.values, bytePos, |Varint(WordAt(dod, vals, j))|);
  }

  /** What step 1 has gathered after `n` rows of the window. */
  ghost predicate Extracted(slots: seq<nat>, zz: seq<u64>, bytePos: nat, col: Column, start: nat, n: nat)
    requires col.Valid() && Compressible(col.typ) && start + n <= col.len
  {
    slots == Slots(col, start, n) && WordsFrom(zz, col, start, n) && bytePos == OffsetAt(col, start + n)
  }

  lemma ExtractedStart(col: Column, start: nat, cc: ColCursor)
    requires col.Valid() && Compressible(col.typ) && !col.typ.F64? && !col.typ.BOOL?
    requires start <= col.len && InSync(col, start, cc)
    ensures Extracted([], [], cc.bytePos, col, start, 0)
  {
    NonNullPrefix(col, start, col.len);
  }

  lemma ExtractedNull(slots: seq<nat>, zz: seq<u64>, bytePos: nat, col: Column, start: nat, n: nat)
    requires col.Valid() && Compressible(col.typ) && start + n < col.len && !col.IsValid(start + n)
    requires Extracted(slots, zz, bytePos, col, start, n)
    ensures Extracted(slots, zz, bytePos, col, start, n + 1)
  {
    hide NonNull, WordAt, IntStream;
    NonNullSkip(col, start + n);
  }

  lemma ExtractedPush(slots: seq<nat>, zz: seq<u64>, bytePos: nat, w: u64, bytePos': nat,
                      col: Column, start: nat, n: nat)
    requires col.Valid() && Compressible(col.typ) && start + n < col.len && col.IsValid(start + n)
    requires Extracted(slots, zz, bytePos, col, start, n)
    requires var vals, j := NonNull(col, col.len), |NonNull(col, start + n)|;
      j < |vals| && w == WordAt(IsDod(col.typ), vals, j)
    requires bytePos' == OffsetAt(col, start + n + 1)
    ensures Extracted(slots + [n], zz + [w], bytePos', col, start, n + 1)
  {
    hide NonNull, WordAt, OffsetAt;
    NonNullAt(col, start + n);
  }

  /** Step 1: varint-extract the window's non-null words and mark its nulls. */
  method ExtractWords(e: EncodedColumn, cc: ColCursor, oc: OwnedColumn, start: nat, n: nat,
                      ghost col: Column) returns (slots: seq<nat>, zz: seq<u64>, bytePos: nat)
    requires Encodes(e, col) && !e.typ.F64? && !e.typ.BOOL? && start + n <= col.len
    requires InSync(col, start, cc) && |oc.data| == oc.len == n
    requires NullsDone(oc.validity, oc.allValid, col, start, n, 0)
    modifies oc`validity, oc`allValid
    ensures NullsDone(oc.validity, oc.allValid, col, start, n, n)
    ensures Extracted(slots, zz, bytePos, col, start, n)
  {
    hide NullsDone, NonNull, WordAt, OffsetAt, HoldsStream, Column.Valid, Extracted, InSync;
    slots, zz, bytePos := [], [], cc.bytePos;
    ExtractedStart(col, start, cc);
    for k := 0 to n
      invariant NullsDone(oc.validity, oc.allValid, col, start, n, k)
      invariant Extracted(slots, zz, bytePos, col, start, k)
    {
      if !e.ValidBit(start + k) {
        MarkNull(oc, k, col, start, n);
        ExtractedNull(slots, zz, bytePos, col, start, k);
        continue;
      }
      SkipNull(oc.validity, oc.allValid, k, col, start, n);
      ExtractedOffset(slots, zz, bytePos, col, start, k);
      var w, bytePos' := ReadWord(e, bytePos, col, start + k);
      ExtractedPush(slots, zz, bytePos, w, bytePos', col, start, k);
      slots, zz, bytePos := slots + [k], zz + [w], bytePos';
    }
  }

  lemma ExtractedOffset(slots: seq<nat>, zz: seq<u64>, bytePos: nat, col: Column, start: nat, n: nat)
    requires col.Valid() && Compressible(col.typ) && start + n <= col.len
    requires Extracted(slots, zz, bytePos, col, start, n)
    ensures bytePos == OffsetAt(col, start + n)
  {
  }

  /** The non-null rows among the first `j` slots hold their values. */
  ghost predicate Scattered(data: seq<int>, col: Column, start: nat, n: nat, j: nat)
    requires col.Valid() && start + n <= col.len
  {
    |data| == n
    && forall k: nat | k < n && |Slots(col, start, k)| < j && col.IsValid(start + k) ::
         data[k] == col.data[start + k]
  }

  lemma ScatterStep(data: seq<int>, v: int, col: Column, start: nat, n: nat, j: nat)
    requires col.Valid() && start + n <= col.len && j < |Slots(col, start, n)|
    requires Scattered(data, col, start, n, j) && v == col.data[start + Slots(col, start, n)[j]]
    ensures Scattered(data[Slots(col, start, n)[j] := v], col, start, n, j + 1)
  {
    SlotAt(col, start, n, j);
    var s := Slots(col, start, n)[j];
    forall k: nat | k < n && |Slots(col, start, k)| < j + 1 && col.IsValid(start + k)
      ensures data[s := v][k] == col.data[start + k]
    {
      SlotOf(col, start, n, k);
      if k < s { SlotOf(col, start, s, k); }
      if s < k { SlotOf(col, start, k, s); }
    }
  }

  lemma ScatteredAll(data: seq<int>, col: Column, start: nat, n: nat)
    requires col.Valid() && start + n <= col.len
    requires Scattered(data, col, start, n, |Slots(col, start, n)|)
    ensures ValuesDone(data, col, start, n, n)
  {
    forall k: nat | k < n && col.IsValid(start + k) ensures data[k] == col.data[start + k] {
      SlotOf(col, start, n, k);
    }
  }

  /** The value at slot `j` is the window's `j`-th non-null value. */
  lemma SlotValue(col: Column, start: nat, n: nat, j: nat)
    requires col.Valid() && Compressible(col.typ) && start + n <= col.len
    requires j < |Slots(col, start, n)|
    ensures var vals, i := NonNull(col, col.len), |NonNull(col, start)| + j;
      i < |vals| && Restore(col.typ, vals[i]) == col.data[start + Slots(col, start, n)[j]]
  {
    hide NonNull, Restore, ReadBits;
    SlotAt(col, start, n, j);
    var k := Slots(col, start, n)[j];
    SlotsCount(col, start, k);
    hide Slots;
    NonNullAt(col, start + k);
    RestoreReadBits(col.typ, col.data[start + k]);
  }

  /** Step 3, one value: the running double prefix sum, or the un-zig-zagged word itself. */
  method Reconstruct(dod: bool, cc: ColCursor, dec: u64, ghost vals: seq<u64>, ghost i: nat)
    returns (bits: u64, cc': ColCursor)
    requires i < |vals| && dec == UnZigZag(WordAt(dod, vals, i))
    requires dod ==> cc.prev == PrevAt(vals, i) && cc.prevDelta == DeltaAt(vals, i)
    ensures bits == vals[i]
    ensures dod ==> cc' == cc.(prev := PrevAt(vals, i + 1), prevDelta := DeltaAt(vals, i + 1))
    ensures !dod ==> cc' == cc
  {
    hide ZigZag, UnZigZag;
    cc' := cc;
    if dod {
      SecondDifferenceInverse(vals, i);
      var delta := U64(cc.prevDelta + dec);
      bits := U64(cc.prev + delta);
      cc' := cc.(prevDelta := delta, prev := bits);
    } else {
      ZigZagInverse(vals[i]);
      bits := dec;
    }
  }

  /** Decode one window of an integer column; `lanes` is the width of the zig-zag kernel. */
  method DecodeIntWindow(e: EncodedColumn, cc: ColCursor, oc: OwnedColumn, start: nat, n: nat,
                         vectorPath: bool, lanes: nat, ghost col: Column) returns (cc': ColCursor)
    requires Encodes(e, col) && !e.typ.F64? && !e.typ.BOOL? && start + n <= col.len && lanes >= 1
    requires InSync(col, start, cc) && Window(oc, col, start, n, 0)
    modifies oc
    ensures Window(oc, col, start, n, n) && InSync(col, start + n, cc')
  {
    hide NonNull, Scattered, NullsDone, UnZigZag, Restore, ReadBits, Slots, Column.Valid, HoldsStream,
      WordAt, IntStream, DeltaAt, PrevAt;
    var slots, zz, bytePos := ExtractWords(e, cc, oc, start, n, col);
    var dec;
    if vectorPath {
      dec := UnZigZagVector(zz, lanes);
    } else {
      dec := UnZigZagScalar(zz);
    }
    var dod := IsDod(e.typ);
    cc' := cc.(bytePos := bytePos);
    ghost var vals, first := NonNull(col, col.len), |NonNull(col, start)|;
    SlotsCount(col, start, n);
    ScatteredNone(oc.data, col, start, n);
    for j := 0 to |zz|
      invariant |oc.data| == n && Scattered(oc.data, col, start, n, j)
      invariant NullsDone(oc.validity, oc.allValid, col, start, n, n)
      invariant cc'.bytePos == bytePos
      invariant dod ==> cc'.prev == PrevAt(vals, first + j) && cc'.prevDelta == DeltaAt(vals, first + j)
    {
      var bits;
      bits, cc' := Reconstruct(dod, cc', dec[j], vals, first + j);
      SlotValue(col, start, n, j);
      ScatterStep(oc.data, Restore(e.typ, bits), col, start, n, j);
      oc.data := oc.data[slots[j] := Restore(e.typ, bits)];
    }
    ScatteredAll(oc.data, col, start, n);
  }

  lemma ScatteredNone(data: seq<int>, col: Column, start: nat, n: nat)
    requires col.Valid() && start + n <= col.len && |data| == n
    ensures Scattered(data, col, start, n, 0)
  {
  }

  // ----- the table and its scan -----

  datatype CompressedTable = CompressedTable(cols: seq<EncodedColumn>, nrows: nat)

  ghost predicate EncodesTable(ct: CompressedTable, t: Table) {
    && t.Valid() && ct.nrows == t.nrows && |ct.cols| == |t.cols|
    && forall c | 0 <= c < |t.cols| :: Encodes(ct.cols[c], t.cols[c])
  }

  method EncodeTable(t: Table) returns (ct: CompressedTable)
    requires t.Valid() && forall c | 0 <= c < |t.cols| :: Compressible(t.cols[c].typ)
    ensures EncodesTable(ct, t)
  {
    var cols := [];
    for c := 0 to |t.cols|
      invariant |cols| == c && forall i | 0 <= i < c :: Encodes(cols[i], t.cols[i])
    {
      var e := EncodeColumn(t.cols[c]);
      cols := cols + [e];
    }
    ct := CompressedTable(cols, t.nrows);
  }

  lemma WindowIsSlice(oc: OwnedColumn, col: Column, start: nat, n: nat)
    requires col.Valid() && Compressible(col.typ) && start + n <= col.len
    requires Window(oc, col, start, n, n)
    ensures oc.Valid() && oc.Exact() && oc.View().len == n && oc.View().typ == col.typ && IsSlice(oc.View(), col, start)
  {
    assert forall k: nat | k < n :: BitmapValid(oc.validity, k) == col.IsValid(start + k);
    var view := oc.View();
    assert forall k: nat | k < n && view.IsValid(k) :: view.data[k] == col.data[start + k];
  }

  /** Decode the next window of one column into a fresh one. */
  method DecodeColumn(e: EncodedColumn, cc: ColCursor, start: nat, n: nat, vectorPath: bool,
                      lanes: nat, ghost col: Column) returns (view: Column, cc': ColCursor)
    requires Encodes(e, col) && start + n <= col.len && lanes >= 1 && InSync(col, start, cc)
    ensures Decoded(view, cc', col, start, n)
  {
    hide InSync, Encodes, NullsDone, Column.Valid;
    var oc := new OwnedColumn.Make(e.typ, n);
    oc.data := seq(n, _ => 0);
    EncodesType(e, col);
    FreshWindow(oc, col, start, n);
    match e.typ {
      case F64 => cc' := DecodeF64Window(e, cc, oc, start, n, col);
      case BOOL => cc' := DecodeBoolWindow(e, cc, oc, start, n, col);
      case I32 => cc' := DecodeIntWindow(e, cc, oc, start, n, vectorPath, lanes, col);
      case I64 => cc' := DecodeIntWindow(e, cc, oc, start, n, vectorPath, lanes, col);
      case TS => cc' := DecodeIntWindow(e, cc, oc, start, n, vectorPath, lanes, col);
    }
    WindowIsSlice(oc, col, start, n);
    view := oc.View();
  }

  lemma EncodesType(e: EncodedColumn, col: Column)
    requires Encodes(e, col)
    ensures col.Valid() && e.typ == col.typ && Compressible(e.typ)
  {
  }

  lemma FreshWindow(oc: OwnedColumn, col: Column, start: nat, n: nat)
    requires col.Valid() && start + n <= col.len
    requires oc.typ == col.typ && |oc.data| == oc.len == n && oc.validity == [] && oc.allValid
    ensures Window(oc, col, start, n, 0)
  {
  }

  /** Every column's cursor is in sync at `row`. */
  ghost predicate AllInSync(t: Table, row: nat, cur: seq<ColCursor>) {
    && t.Valid() && row <= t.nrows && |cur| == |t.cols|
    && forall c | 0 <= c < |t.cols| :: Compressible(t.cols[c].typ) && InSync(t.cols[c], row, cur[c])
  }

  lemma CursorBound(ct: CompressedTable, t: Table, row: nat, cur: seq<ColCursor>)
    requires EncodesTable(ct, t) && AllInSync(t, row, cur)
    ensures ct.nrows == t.nrows && row <= t.nrows && t.Valid()
  {
    hide Encodes;
  }

  ghost predicate Decoded(view: Column, cc: ColCursor, col: Column, start: nat, n: nat) {
    && col.Valid() && Compressible(col.typ) && start + n <= col.len
    && view.len == n && view.typ == col.typ && IsSlice(view, col, start) && InSync(col, start + n, cc)
  }

  /** Decode rows `[start, start + n)` of every column. */
  method DecodeBatch(ct: CompressedTable, cur: seq<ColCursor>, start: nat, n: nat, vectorPath: bool,
                     lanes: nat, ghost t: Table) returns (b: Batch, cur': seq<ColCursor>)
    requires EncodesTable(ct, t) && AllInSync(t, start, cur) && start + n <= t.nrows && lanes >= 1
    ensures BatchFits(b, TableTypes(t)) && b.rowCount == n && b.Rows() == t.Rows()[start..start + n]
    ensures AllInSync(t, start + n, cur')
  {
    hide InSync, Encodes, IsSlice, Column.Valid, Column.CellAt;
    var out: seq<Column> := [];
    cur' := [];
    for c := 0 to |ct.cols|
      invariant |out| == |cur'| == c
      invariant forall i | 0 <= i < c :: Decoded(out[i], cur'[i], t.cols[i], start, n)
    {
      hide Decoded;
      var view, cc' := DecodeColumn(ct.cols[c], cur[c], start, n, vectorPath, lanes, t.cols[c]);
      out, cur' := out + [view], cur' + [cc'];
    }
    b := Batch(out, None, n);
    SliceRows(b, t, start);
  }

  class CompressedScan {
    const ct: CompressedTable
    const batchSize: nat
    const lanes: nat
    var vectorPath: bool
    var isOpen: bool
    var cursor: nat
    var cur: seq<ColCursor>
    ghost const table: Table   // what `ct` encodes

    ghost predicate Valid()
      reads this
    {
      && EncodesTable(ct, table) && batchSize >= 1 && lanes >= 1
      && (isOpen ==> AllInSync(table, cursor, cur))
    }

    constructor (ct: CompressedTable, batchSize: nat, lanes: nat, ghost table: Table)
      requires EncodesTable(ct, table) && lanes >= 1
      ensures Valid() && !isOpen && this.table == table
      ensures this.batchSize == if batchSize == 0 then DEFAULT_BATCH_SIZE else batchSize
    {
      this.ct, this.lanes, this.table := ct, lanes, table;
      this.batchSize := if batchSize == 0 then DEFAULT_BATCH_SIZE else batchSize;
      vectorPath, isOpen, cursor, cur := true, false, 0, [];
    }

    method Open()
      requires Valid()
      modifies this
      ensures Valid() && isOpen && cursor == 0 && vectorPath == old(vectorPath)
    {
      isOpen, cursor := true, 0;
      cur := seq(|ct.cols|, _ => START);
      forall c | 0 <= c < |ct.cols| ensures InSync(table.cols[c], 0, cur[c]) {
        StartInSync(table.cols[c]);
      }
    }

    /** The next window of every column, decoded where the last one stopped. */
    method Next() returns (r: Option<Batch>)
      requires Valid() && isOpen
      modifies this
      ensures Valid() && isOpen
      ensures r.None? <==> old(cursor) == table.nrows
      ensures r.None? ==> cursor == old(cursor)
      ensures r.Some? ==>
        && cursor == Min(old(cursor) + batchSize, table.nrows)
        && BatchFits(r.value, TableTypes(table)) && r.value.Rows() == table.Rows()[old(cursor)..cursor]
    {
      hide AllInSync, EncodesTable, Table.Rows, Table.Valid, BatchFits;
      CursorBound(ct, table, cursor, cur);
      var total := ct.nrows;
      if cursor >= total { return None; }
      var start := cursor;
      var n := Min(batchSize, total - start);
      var b;
      b, cur := DecodeBatch(ct, cur, start, n, vectorPath, lanes, table);
      cursor := start + n;
      r := Some(b);
    }

    method Close()
      requires Valid()
      modifies this
      ensures Valid() && !isOpen
    {
      cursor, cur, isOpen := ct.nrows, [], false;
    }
  }

  /**
   Encode a table and drain the scan over it: whatever the batch size and the kernel
   path, the batches concatenate to exactly the table's rows, nulls and values alike.
   */
  method RoundTrip(t: Table, batchSize: nat, vectorPath: bool, lanes: nat) returns (batches: seq<Batch>)
    requires t.Valid() && lanes >= 1
    requires forall c | 0 <= c < |t.cols| :: Compressible(t.cols[c].typ)
    ensures Conforms(batches, TableTypes(t)) && forall i | 0 <= i < |batches| :: batches[i].rowCount >= 1
    ensures batchSize >= 1 ==> forall i | 0 <= i < |batches| :: batches[i].rowCount <= batchSize
    ensures RowsOf(batches) == t.Rows()
  {
    var ct := EncodeTable(t);
    var scan := new CompressedScan(ct, batchSize, lanes, t);
    scan.vectorPath := vectorPath;
    scan.Open();
    batches := [];
    while true
      invariant fresh(scan) && scan.Valid() && scan.isOpen
      invariant Conforms(batches, TableTypes(t)) && forall i | 0 <= i < |batches| :: 1 <= batches[i].rowCount <= scan.batchSize
      invariant RowsOf(batches) == t.Rows()[..scan.cursor]
      decreases t.nrows - scan.cursor
    {
      ghost var before := scan.cursor;
      var b := scan.Next();
      if b.None? { break; }
      assert (batches + [b.value])[..|batches|] == batches;
      assert t.Rows()[..before] + t.Rows()[before..scan.cursor] == t.Rows()[..scan.cursor];
      batches := batches + [b.value];
    }
    scan.Close();
  }
}
