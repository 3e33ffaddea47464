/**
 The open-addressing hash table: linear probing over a power-of-two slot array whose
 entries are group ids, a key store indexed by id, growth that re-slots groups from
 their stored hashes.

 `capacity` is a power of two, so `h & mask` is written `h % capacity` (`HomeIsMask`). The
 hash step is an arbitrary function: nothing below depends on what it is.
 */
module HashTables {
  import opened Words
  import opened Columns
  import opened GroupIds
  import opened KeyRows

  /** The empty slot marker, and the probe's answer on a miss. */
  const NO_GROUP: nat := 0xFFFF_FFFF

  const MIN_CAPACITY: nat := 8
  const MAX_LOAD_CEILING: real := 0.95
  const DEFAULT_LOAD: real := 0.7
  const DEFAULT_CAPACITY: nat := 1024

  // ----- slots -----

  function Home(hash: u64, cap: nat): nat
    requires cap > 0
  {
    hash % cap
  }

  ghost predicate PowerOfTwo(c: nat) { exists k: nat :: c == Pow2(k) }

  lemma PowerDoubles(c: nat)
    requires PowerOfTwo(c)
    ensures PowerOfTwo(2 * c)
  {
    var k: nat :| c == Pow2(k);
    assert 2 * c == Pow2(k + 1);
  }

  /** At a capacity of `2^k` the home slot is the low `k` bits of the hash: the mask keeps those. */
  lemma {:induction false} HomeIsMask(hash: u64, k: nat)
    ensures Home(hash, Pow2(k)) == FromBits(ToBits(hash, k))
  {
    LowBits(hash, k);
  }

  lemma {:induction false} LowBits(v: nat, k: nat)
    ensures FromBits(ToBits(v, k)) == v % Pow2(k)
  {
    if k > 0 {
      LowBits(v / 2, k - 1);
      var b := ToBits(v, k);
      assert b[..|b| - 1] == ToBits(v / 2, k - 1);
      HalfRemainder(v, Pow2(k - 1));
    }
  }

  lemma HalfRemainder(v: nat, p: nat)
    requires p > 0
    ensures v % (2 * p) == 2 * (v / 2 % p) + v % 2
  {
    var q, r := v / 2 / p, v / 2 % p;
    assert v / 2 == q * p + r;
    assert v == (2 * p) * q + (2 * r + v % 2);
    OneRemainder(v, 2 * p, q, 2 * r + v % 2);
  }

  lemma OneRemainder(v: nat, d: nat, q: nat, r: nat)
    requires v == d * q + r && r < d
    ensures v % d == r
  {
    DivisionOf(v, d);
    Spread(d, v / d, q);
    MultipleBounds(d, v / d - q);
  }

  lemma DivisionOf(v: nat, d: nat)
    requires d > 0
    ensures v == d * (v / d) + v % d && v % d < d
  {
  }

  lemma Spread(d: int, x: int, y: int)
    ensures d * (x - y) == d * x - d * y
  {
  }

  lemma MultipleBounds(d: int, k: int)
    requires d >= 0
    ensures k >= 1 ==> d * k >= d
    ensures k <= -1 ==> d * k <= -d
  {
    if k >= 1 {
      assert d * (k - 1) >= 0;
    } else if k <= -1 {
      assert d * (-k - 1) >= 0;
    }
  }

  function NextSlot(slot: nat, cap: nat): nat { if slot + 1 == cap then 0 else slot + 1 }

  /** Slot `i` lies on the cyclic walk from `home` up to, not including, `s`. */
  predicate OnWalk(home: nat, i: nat, s: nat) {
    if home <= s then home <= i < s else home <= i || i < s
  }

  /** How far `s` is ahead of `from` on the cycle. */
  function Distance(from: nat, s: nat, cap: nat): int {
    if from <= s then s - from else s + cap - from
  }

  function Filled(slots: seq<nat>): (n: nat)
    ensures n <= |slots|
  {
    if slots == [] then 0
    else Filled(slots[..|slots| - 1]) + (if slots[|slots| - 1] != NO_GROUP then 1 else 0)
  }

  lemma {:induction false} FilledEmpty(n: nat)
    ensures Filled(seq(n, _ => NO_GROUP)) == 0
  {
    if n > 0 {
      assert seq(n, _ => NO_GROUP)[..n - 1] == seq(n - 1, _ => NO_GROUP);
      FilledEmpty(n - 1);
    }
  }

  lemma {:induction false} FilledUpdate(slots: seq<nat>, s: nat, g: nat)
    requires s < |slots| && slots[s] == NO_GROUP && g != NO_GROUP
    ensures Filled(slots[s := g]) == Filled(slots) + 1
  {
    var init := slots[..|slots| - 1];
    if s == |slots| - 1 {
      assert slots[s := g][..|slots| - 1] == init;
    } else {
      assert slots[s := g][..|slots| - 1] == init[s := g];
      FilledUpdate(init, s, g);
    }
  }

  /** Fewer filled slots than slots: some slot is empty. */
  lemma {:induction false} EmptySlot(slots: seq<nat>) returns (e: nat)
    requires Filled(slots) < |slots|
    ensures e < |slots| && slots[e] == NO_GROUP
  {
    if slots[|slots| - 1] == NO_GROUP {
      e := |slots| - 1;
    } else {
      e := EmptySlot(slots[..|slots| - 1]);
    }
  }

  // ----- the table invariant -----

  /** No empty slot on the walk from `home` to `s`. */
  ghost predicate NoGap(slots: seq<nat>, home: nat, s: nat) {
    forall i | 0 <= i < |slots| && OnWalk(home, i, s) :: slots[i] != NO_GROUP
  }

  /** Every slotted group is stored once and is reached from its home slot. */
  ghost predicate Placed(slots: seq<nat>, groups: seq<KeyRow>) {
    && |slots| > 0
    && (forall s | 0 <= s < |slots| && slots[s] != NO_GROUP ::
          slots[s] < |groups| && NoGap(slots, Home(groups[slots[s]].hash, |slots|), s))
    && (forall s, t | 0 <= s < t < |slots| && slots[s] != NO_GROUP :: slots[s] != slots[t])
  }

  ghost predicate AllWellFormed(groups: seq<KeyRow>, ncols: nat, combine: Combine, seed: u64) {
    forall g | 0 <= g < |groups| :: WellFormed(groups[g], ncols, combine, seed)
  }

  /** The keys in id order. */
  ghost function Keys(groups: seq<KeyRow>, ncols: nat): (keys: seq<KeyTuple>)
    requires forall g | 0 <= g < |groups| :: |groups[g].words| == |groups[g].nulls| == ncols
    ensures |keys| == |groups|
  {
    seq(|groups|, g requires 0 <= g < |groups| => groups[g].Tuple())
  }

  /** A group is in the slot array exactly when its key may be found. */
  ghost predicate SlottedIffFindable(slots: seq<nat>, keys: seq<KeyTuple>, policy: NullPolicy) {
    forall g: nat | g < |keys| :: g in slots <==> Findable(policy, keys[g])
  }

  ghost predicate TableOk(slots: seq<nat>, groups: seq<KeyRow>, ncols: nat, policy: NullPolicy,
                          combine: Combine, seed: u64)
  {
    && AllWellFormed(groups, ncols, combine, seed)
    && |groups| <= NO_GROUP
    && Placed(slots, groups)
    && DistinctKeys(policy, Keys(groups, ncols))
    && SlottedIffFindable(slots, Keys(groups, ncols), policy)
  }

  // ----- probing -----

  /** Two slots on the cycle: one is on the walk from `home` to the other. */
  lemma WalkOrder(home: nat, s: nat, t: nat, cap: nat)
    requires home < cap && s < cap && t < cap && s != t
    ensures OnWalk(home, s, t) || OnWalk(home, t, s)
  {
  }

  /** Stepping extends the walk by the slot just left, unless it closes the cycle. */
  lemma WalkStep(home: nat, s: nat, e: nat, cap: nat)
    requires home < cap && s < cap && e < cap && e != s && !OnWalk(home, e, s)
    ensures forall i | 0 <= i < cap :: OnWalk(home, i, NextSlot(s, cap)) <==> OnWalk(home, i, s) || i == s
    ensures Distance(NextSlot(s, cap), e, cap) < Distance(s, e, cap)
  {
  }

  /**
   Walk from the home slot to the row's group or to the first empty slot. The walk
   ends because some slot is empty.
   */
  method Probe(slots: seq<nat>, groups: seq<KeyRow>, row: KeyRow, ghost ncols: nat,
               ghost combine: Combine, ghost seed: u64) returns (slot: nat, found: nat)
    requires Placed(slots, groups) && Filled(slots) < |slots|
    requires AllWellFormed(groups, ncols, combine, seed) && WellFormed(row, ncols, combine, seed)
    requires |groups| <= NO_GROUP
    ensures slot < |slots|
    ensures found != NO_GROUP ==>
      found < |groups| && found in slots && groups[found].Tuple() == row.Tuple()
    ensures found == NO_GROUP ==>
      && slots[slot] == NO_GROUP && NoGap(slots, Home(row.hash, |slots|), slot)
      && forall s | 0 <= s < |slots| && slots[s] != NO_GROUP :: groups[slots[s]].Tuple() != row.Tuple()
  {
    var cap := |slots|;
    var home := Home(row.hash, cap);
    ghost var e := EmptySlot(slots);
    slot, found := home, NO_GROUP;
    while slots[slot] != NO_GROUP
      invariant slot < cap && found == NO_GROUP && !OnWalk(home, e, slot)
      invariant NoGap(slots, home, slot)
      invariant forall i | 0 <= i < cap && OnWalk(home, i, slot) :: groups[slots[i]].Tuple() != row.Tuple()
      decreases Distance(slot, e, cap)
    {
      hide KeyRow.Tuple, Home;
      var g := slots[slot];
      KeyEqualIffSameTuple(groups[g], row, ncols, combine, seed);
      if groups[g].hash == row.hash && KeyEqual(row, groups[g]) {
        found := g;
        KeyEqualIffSameTuple(row, groups[g], ncols, combine, seed);
        return;
      }
      KeyEqualIffSameTuple(row, groups[g], ncols, combine, seed);
      WalkStep(home, slot, e, cap);
      slot := NextSlot(slot, cap);
    }
    MissMeansAbsent(slots, groups, row, slot, ncols, combine, seed);
  }

  /** A walk that reached an empty slot without a match has passed every place the key could be. */
  lemma MissMeansAbsent(slots: seq<nat>, groups: seq<KeyRow>, row: KeyRow, slot: nat, ncols: nat,
                        combine: Combine, seed: u64)
    requires Placed(slots, groups) && slot < |slots| && slots[slot] == NO_GROUP
    requires AllWellFormed(groups, ncols, combine, seed) && WellFormed(row, ncols, combine, seed)
    requires var home := Home(row.hash, |slots|);
      && NoGap(slots, home, slot)
      && forall i | 0 <= i < |slots| && OnWalk(home, i, slot) :: groups[slots[i]].Tuple() != row.Tuple()
    ensures forall s | 0 <= s < |slots| && slots[s] != NO_GROUP :: groups[slots[s]].Tuple() != row.Tuple()
  {
    hide KeyRow.Tuple;
    forall s | 0 <= s < |slots| && slots[s] != NO_GROUP
      ensures groups[slots[s]].Tuple() != row.Tuple()
    {
      WalkOrder(Home(row.hash, |slots|), s, slot, |slots|);
      KeyEqualIffSameTuple(groups[slots[s]], row, ncols, combine, seed);
    }
  }

  // ----- insertion and growth -----

  /** Slotting a new group at the empty slot its probe ended in keeps every walk unbroken. */
  lemma SlotGroup(slots: seq<nat>, groups: seq<KeyRow>, slot: nat, row: KeyRow, g: nat)
    requires Placed(slots, groups) && slot < |slots| && slots[slot] == NO_GROUP
    requires NoGap(slots, Home(row.hash, |slots|), slot)
    requires g != NO_GROUP && g !in slots
    requires g < |groups| && groups[g] == row
    ensures Placed(slots[slot := g], groups)
    ensures Filled(slots[slot := g]) == Filled(slots) + 1
    ensures forall x :: x in slots[slot := g] && x != NO_GROUP <==> x != NO_GROUP && (x in slots || x == g)
  {
    hide Home;
    FilledUpdate(slots, slot, g);
    var slots' := slots[slot := g];
    forall s | 0 <= s < |slots| && slots'[s] != NO_GROUP
      ensures NoGap(slots', Home(groups[slots'[s]].hash, |slots|), s)
    {
      if s != slot { assert NoGap(slots, Home(groups[slots[s]].hash, |slots|), s); }
    }
    UpdateMembers(slots, slot, g);
  }

  lemma UpdateMembers(slots: seq<nat>, slot: nat, g: nat)
    requires slot < |slots| && slots[slot] == NO_GROUP
    ensures forall x :: x in slots[slot := g] && x != NO_GROUP <==> x != NO_GROUP && (x in slots || x == g)
  {
    var slots' := slots[slot := g];
    forall x | x != NO_GROUP ensures x in slots' <==> x in slots || x == g {
      if x in slots {
        var i :| 0 <= i < |slots| && slots[i] == x;
        assert slots'[i] == x;
      }
      assert slots'[slot] == g;
      if x in slots' {
        var i :| 0 <= i < |slots'| && slots'[i] == x;
        assert i == slot || slots[i] == x;
      }
    }
  }

  /** The first empty slot from a group's home. */
  method FreeSlot(slots: seq<nat>, home: nat) returns (slot: nat)
    requires home < |slots| && Filled(slots) < |slots|
    ensures slot < |slots| && slots[slot] == NO_GROUP && NoGap(slots, home, slot)
  {
    var cap := |slots|;
    ghost var e := EmptySlot(slots);
    slot := home;
    while slots[slot] != NO_GROUP
      invariant slot < cap && !OnWalk(home, e, slot) && NoGap(slots, home, slot)
      decreases Distance(slot, e, cap)
    {
      WalkStep(home, slot, e, cap);
      slot := NextSlot(slot, cap);
    }
  }

  /** Re-slot every slotted group from its stored hash into an array twice as long. */
  method Grow(slots: seq<nat>, groups: seq<KeyRow>) returns (ns: seq<nat>)
    requires Placed(slots, groups) && |groups| <= NO_GROUP
    ensures |ns| == 2 * |slots| && Placed(ns, groups) && Filled(ns) == Filled(slots)
    ensures forall x | x != NO_GROUP :: x in ns <==> x in slots
  {
    var cap := |slots|;
    ns := seq(2 * cap, _ => NO_GROUP);
    FilledEmpty(2 * cap);
    for s := 0 to cap
      invariant |ns| == 2 * cap && Placed(ns, groups) && Filled(ns) == Filled(slots[..s])
      invariant forall x | x != NO_GROUP :: x in ns <==> x in slots[..s]
    {
      hide Filled, Home, NoGap;
      var g := slots[s];
      FilledPrefix(slots, s);
      assert slots[..s + 1] == slots[..s] + [g];
      if g == NO_GROUP { continue; }
      assert g !in slots[..s];
      var slot := FreeSlot(ns, Home(groups[g].hash, 2 * cap));
      SlotGroup(ns, groups, slot, groups[g], g);
      ns := ns[slot := g];
    }
    assert slots[..cap] == slots;
  }

  lemma FilledPrefix(slots: seq<nat>, s: nat)
    requires s < |slots|
    ensures Filled(slots[..s + 1]) == Filled(slots[..s]) + (if slots[s] != NO_GROUP then 1 else 0)
    ensures Filled(slots[..s]) <= s
  {
    assert slots[..s + 1][..s] == slots[..s];
  }

  /** A new group owns the next id; it may be slotted if its key may be found. */
  lemma AddGroup(slots: seq<nat>, groups: seq<KeyRow>, row: KeyRow, ncols: nat, policy: NullPolicy,
                 combine: Combine, seed: u64)
    requires TableOk(slots, groups, ncols, policy, combine, seed)
    requires WellFormed(row, ncols, combine, seed) && |groups| < NO_GROUP
    requires Findable(policy, row.Tuple()) ==> row.Tuple() !in Keys(groups, ncols)
    ensures var groups' := groups + [row];
      && AllWellFormed(groups', ncols, combine, seed)
      && Keys(groups', ncols) == Keys(groups, ncols) + [row.Tuple()]
      && DistinctKeys(policy, Keys(groups', ncols))
      && Placed(slots, groups') && |groups| !in slots
  {
    hide KeyRow.Tuple, Home, NoGap;
    assert Keys(groups + [row], ncols) == Keys(groups, ncols) + [row.Tuple()];
  }

  /** The probe's answer is the meaning's answer. */
  lemma ProbeIsLookup(slots: seq<nat>, groups: seq<KeyRow>, k: KeyTuple, found: nat, ncols: nat,
                      policy: NullPolicy, combine: Combine, seed: u64)
    requires TableOk(slots, groups, ncols, policy, combine, seed) && Findable(policy, k)
    requires found != NO_GROUP ==> found < |groups| && found in slots && groups[found].Tuple() == k
    requires found == NO_GROUP ==>
      forall s | 0 <= s < |slots| && slots[s] != NO_GROUP :: groups[slots[s]].Tuple() != k
    ensures Lookup(policy, Keys(groups, ncols), k) == if found == NO_GROUP then None else Some(found)
  {
    hide KeyRow.Tuple;
    var keys := Keys(groups, ncols);
    if k in keys {
      var g :| 0 <= g < |keys| && keys[g] == k;
      assert g in slots;
      var s :| 0 <= s < |slots| && slots[s] == g;
      assert groups[slots[s]].Tuple() == k;
    }
    if found != NO_GROUP { assert keys[found] == k; }
  }

  class HashTable {
    const ncols: nat
    const policy: NullPolicy
    const combine: Combine
    const seed: u64
    const maxLoad: real
    var capacity: nat
    var occupied: nat
    var growThreshold: nat
    var slots: seq<nat>
    var groups: seq<KeyRow>   // the key store: words, null mask and hash by group id

    ghost predicate Valid()
      reads this
    {
      && 0.0 < maxLoad <= MAX_LOAD_CEILING
      && capacity >= MIN_CAPACITY && |slots| == capacity && PowerOfTwo(capacity)
      && growThreshold == Threshold(capacity, maxLoad)
      && TableOk(slots, groups, ncols, policy, combine, seed)
      && occupied == Filled(slots) < capacity
    }

    /** The keys that own an id, in id order. */
    ghost function Contents(): seq<KeyTuple>
      requires Valid()
      reads this
    {
      Keys(groups, ncols)
    }

    constructor (ncols: nat, policy: NullPolicy, initialCapacity: nat, maxLoad: real,
                 combine: Combine, seed: u64)
      requires 1 <= ncols <= MAX_KEY_COLUMNS
      ensures Valid() && Contents() == [] && this.ncols == ncols && this.policy == policy
      ensures this.combine == combine && this.seed == seed
      ensures capacity >= initialCapacity && (capacity == MIN_CAPACITY || capacity < 2 * initialCapacity)
      ensures this.maxLoad == if maxLoad <= 0.0 then DEFAULT_LOAD else if maxLoad > MAX_LOAD_CEILING then MAX_LOAD_CEILING else maxLoad
    {
      this.ncols, this.policy, this.combine, this.seed := ncols, policy, combine, seed;
      var lf := if !(maxLoad > 0.0) then DEFAULT_LOAD else maxLoad;
      if lf > MAX_LOAD_CEILING { lf := MAX_LOAD_CEILING; }
      this.maxLoad := lf;
      assert MIN_CAPACITY == Pow2(3);
      var c := RoundUpPow2(initialCapacity, MIN_CAPACITY);
      capacity := c;
      growThreshold := Threshold(c, lf);
      slots := seq(c, _ => NO_GROUP);
      groups, occupied := [], 0;
      FilledEmpty(c);
    }

    function NumGroups(): (n: nat)
      requires Valid()
      reads this
      ensures n == |Contents()|
    {
      |groups|
    }

    /** Read back a group's key. */
    predicate GroupIsNull(g: nat, j: nat)
      requires Valid() && g < NumGroups() && j < ncols
      reads this
      ensures GroupIsNull(g, j) <==> Contents()[g][j].None?
    {
      groups[g].nulls[j]
    }

    function GroupKeyWord(g: nat, j: nat): (w: u64)
      requires Valid() && g < NumGroups() && j < ncols
      reads this
      ensures Contents()[g][j].Some? ==> w == Contents()[g][j].value
    {
      groups[g].words[j]
    }

    /** Grow after an insert that passed the threshold; a free slot always remains. */
    method GrowIfNeeded()
      requires 0.0 < maxLoad <= MAX_LOAD_CEILING
      requires capacity >= MIN_CAPACITY && |slots| == capacity && PowerOfTwo(capacity)
      requires growThreshold == Threshold(capacity, maxLoad)
      requires TableOk(slots, groups, ncols, policy, combine, seed)
      requires occupied == Filled(slots) <= capacity
      modifies this`slots, this`capacity, this`growThreshold
      ensures Valid()
      ensures capacity == if old(occupied) > old(growThreshold) then 2 * old(capacity) else old(capacity)
      ensures old(occupied) <= old(growThreshold) ==> slots == old(slots)
    {
      hide Placed, Filled, Keys, PowerOfTwo;
      ThresholdBelow(capacity, maxLoad);
      PowerDoubles(capacity);
      if occupied > growThreshold {
        slots := Grow(slots, groups);
        capacity := 2 * capacity;
        growThreshold := Threshold(capacity, maxLoad);
      }
    }

    /** Insert or find one row; `None` when the id space is exhausted. */
    method InsertOne(row: KeyRow) returns (id: Option<nat>)
      requires Valid() && WellFormed(row, ncols, combine, seed)
      modifies this
      ensures Valid()
      ensures id.Some? ==> (Contents(), id.value) == Assign(policy, old(Contents()), row.Tuple())
      ensures id.None? ==> Contents() == old(Contents()) && |Contents()| == NO_GROUP
      ensures id.None? ==> Lookup(policy, Contents(), row.Tuple()).None?
    {
      hide KeyRow.Tuple, Filled, NoGap, Home, PowerOfTwo;
      HasNullIffMasked(row);
      if policy.NeverMatch? && true in row.nulls {
        if |groups| == NO_GROUP { return None; }
        AddGroup(slots, groups, row, ncols, policy, combine, seed);
        id := Some(|groups|);
        groups := groups + [row];
        return;
      }
      var slot, found := Probe(slots, groups, row, ncols, combine, seed);
      ProbeIsLookup(slots, groups, row.Tuple(), found, ncols, policy, combine, seed);
      if found != NO_GROUP { return Some(found); }
      if |groups| == NO_GROUP { return None; }
      var g := |groups|;
      AddGroup(slots, groups, row, ncols, policy, combine, seed);
      groups := groups + [row];
      SlotGroup(slots, groups, slot, row, g);
      slots := slots[slot := g];
      occupied := occupied + 1;
      GrowIfNeeded();
      id := Some(g);
    }

    /**
     Insert or find a batch of normalized rows. `ids` covers every row, or stops before
     the one for which no id was left.
     */
    method InsertOrFind(rows: seq<KeyRow>) returns (ids: seq<nat>, ok: bool)
      requires Valid() && AllWellFormed(rows, ncols, combine, seed)
      modifies this
      ensures Valid() && |ids| <= |rows| && (ok <==> |ids| == |rows|)
      ensures (Contents(), ids) == AssignAll(policy, old(Contents()), Tuples(rows, ncols)[..|ids|])
      ensures !ok ==> |Contents()| == NO_GROUP && Lookup(policy, Contents(), Tuples(rows, ncols)[|ids|]).None?
    {
      hide KeyRow.Tuple, TableOk, Lookup, PowerOfTwo;
      ids, ok := [], true;
      ghost var ks := Tuples(rows, ncols);
      for k := 0 to |rows|
        invariant Valid() && |ids| == k
        invariant (Contents(), ids) == AssignAll(policy, old(Contents()), ks[..k])
      {
        var id := InsertOne(rows[k]);
        if id.None? { return ids, false; }
        assert ks[..k + 1][..k] == ks[..k];
        ids := ids + [id.value];
      }
    }

    /** Probe a batch without inserting. */
    method Find(rows: seq<KeyRow>) returns (ids: seq<nat>)
      requires Valid() && AllWellFormed(rows, ncols, combine, seed)
      ensures |ids| == |rows|
      ensures forall k | 0 <= k < |rows| ::
        ids[k] == Answer(policy, Contents(), Tuples(rows, ncols)[k])
    {
      hide KeyRow.Tuple;
      ids := [];
      for k := 0 to |rows|
        invariant |ids| == k
        invariant forall i | 0 <= i < k ::
          ids[i] == Answer(policy, Contents(), Tuples(rows, ncols)[i])
      {
        var row := rows[k];
        HasNullIffMasked(row);
        var found := NO_GROUP;
        if !(policy.NeverMatch? && true in row.nulls) {
          var slot;
          slot, found := Probe(slots, groups, row, ncols, combine, seed);
          ProbeIsLookup(slots, groups, row.Tuple(), found, ncols, policy, combine, seed);
        }
        ids := ids + [found];
      }
    }
  }

  /** What a probe reports: the id, or the miss marker. */
  ghost function Answer(policy: NullPolicy, keys: seq<KeyTuple>, k: KeyTuple): nat {
    match Lookup(policy, keys, k) case Some(g) => g case None => NO_GROUP
  }

  ghost function Tuples(rows: seq<KeyRow>, ncols: nat): (ks: seq<KeyTuple>)
    requires forall k | 0 <= k < |rows| :: |rows[k].words| == |rows[k].nulls| == ncols
    ensures |ks| == |rows|
  {
    seq(|rows|, k requires 0 <= k < |rows| => rows[k].Tuple())
  }

  /** Slots that may be filled before the next growth; the product with a power of two is exact. */
  function Threshold(capacity: nat, maxLoad: real): (t: nat)
    requires maxLoad > 0.0
    ensures t as real <= capacity as real * maxLoad < t as real + 1.0
  {
    ThresholdNat(capacity, maxLoad);
    (capacity as real * maxLoad).Floor
  }

  lemma ThresholdNat(capacity: nat, maxLoad: real)
    requires maxLoad > 0.0
    ensures capacity as real * maxLoad >= 0.0
  {
  }

  lemma ThresholdBelow(capacity: nat, maxLoad: real)
    requires 0.0 < maxLoad <= MAX_LOAD_CEILING && capacity > 0
    ensures Threshold(capacity, maxLoad) < capacity
  {
    assert capacity as real * maxLoad <= capacity as real * 0.95;
  }

  /** The smallest doubling of `floor` that reaches `v`. */
  method RoundUpPow2(v: nat, floor: nat) returns (c: nat)
    requires PowerOfTwo(floor)
    ensures PowerOfTwo(c) && c >= v && c >= floor && (c == floor || c < 2 * v)
    ensures exists k: nat :: c == Shl(floor, k)
  {
    c := floor;
    ghost var k: nat := 0;
    while c < v
      invariant c >= floor >= 1 && (c == floor || c < 2 * v) && c == Shl(floor, k) && PowerOfTwo(c)
      decreases v - c
    {
      PowerDoubles(c);
      ShlNext(floor, k);
      c := 2 * c;
      k := k + 1;
    }
  }

  lemma {:induction false} ShlNext(x: nat, k: nat)
    ensures Shl(x, k + 1) == 2 * Shl(x, k)
    decreases k
  {
    if k > 0 { ShlNext(2 * x, k - 1); }
  }
}
