/**
 The Sort operator: drain the child, compute the permutation on one of two
 independent paths, emit the rows in that order in dense batches.
 */
module Sorts {
  import opened Words
  import opened Columns
  import opened SortOrders
  import opened RowStores
  import RadixSort

  datatype Path = Auto | Comparison | Radix

  predicate RadixEligible(keys: seq<SortKey>, types: seq<Type>)
    requires KeysFit(keys, |types|)
  {
    forall j | 0 <= j < |keys| :: RadixSort.RadixType(types[keys[j].col])
  }

  lemma EligibleRows(keys: seq<SortKey>, types: seq<Type>, cols: seq<StoreColumn>, n: nat)
    requires KeysFit(keys, |types|) && RadixEligible(keys, types) && Stored(cols, n, types)
    ensures forall r | 0 <= r < n :: RadixSort.RadixRow(keys, types, StoredRows(cols, n)[r])
  {
    forall r, j | 0 <= r < n && 0 <= j < |keys|
      ensures RadixSort.RadixCell(types[keys[j].col], StoredRows(cols, n)[r][keys[j].col])
    {
      var sc := cols[keys[j].col];
      assert StoredRows(cols, n)[r][keys[j].col] == sc.CellAt(r);
    }
  }

  /** Both paths return the stable permutation; by its uniqueness they return the same one. */
  method BuildPermutation(path: Path, keys: seq<SortKey>, types: seq<Type>, cols: seq<StoreColumn>, n: nat)
    returns (perm: seq<nat>)
    requires KeysFit(keys, |types|) && Stored(cols, n, types)
    requires path.Radix? ==> RadixEligible(keys, types)
    ensures SameWidth(StoredRows(cols, n), |types|)
    ensures StablePermutation(keys, StoredRows(cols, n), |types|, perm)
  {
    hide StablePermutation;
    var rows := StoredRows(cols, n);
    var useRadix := match path case Comparison => false case Radix => true case Auto => RadixEligible(keys, types);
    if useRadix {
      EligibleRows(keys, types, cols, n);
      perm := RadixSort.RadixPermutation(keys, types, rows);
    } else {
      perm := StableSort(keys, rows, |types|);
    }
  }

  class Sort {
    const input: seq<Batch>     // the child's batches
    const types: seq<Type>
    const keys: seq<SortKey>
    const path: Path
    var isOpen: bool
    var cols: seq<StoreColumn>
    var n: nat
    var perm: seq<nat>
    var emitCursor: nat

    ghost predicate Valid()
      reads this
    {
      && Conforms(input, types) && KeysFit(keys, |types|)
      && (path.Radix? ==> RadixEligible(keys, types))
      && (isOpen ==> Stored(cols, n, types) && StoredRows(cols, n) == RowsOf(input))
      && (isOpen ==> SameWidth(RowsOf(input), |types|) && emitCursor <= n)
      && (isOpen ==> StablePermutation(keys, RowsOf(input), |types|, perm) && |perm| == n)
    }

    constructor (input: seq<Batch>, types: seq<Type>, keys: seq<SortKey>, path: Path)
      requires Conforms(input, types) && KeysFit(keys, |types|)
      requires path.Radix? ==> RadixEligible(keys, types)
      ensures Valid() && !isOpen
      ensures this.input == input && this.types == types && this.keys == keys
    {
      this.input, this.types, this.keys, this.path := input, types, keys, path;
      isOpen, cols, n, perm, emitCursor := false, [], 0, [], 0;
    }

    method Open()
      requires Valid()
      modifies this
      ensures Valid() && isOpen
      ensures !old(isOpen) ==> emitCursor == 0
    {
      if isOpen { return; }
      hide StablePermutation;
      cols, n := Materialize(input, types);
      perm := BuildPermutation(path, keys, types, cols, n);
      PermutationLength(keys, RowsOf(input), |types|, perm);
      isOpen, emitCursor := true, 0;
    }

    /** The next rows of the sorted order, at most `OUT_BATCH` of them. */
    method Next() returns (r: Option<Batch>)
      requires Valid() && isOpen
      modifies this`emitCursor
      ensures Valid()
      ensures r.None? <==> old(emitCursor) == n
      ensures r.None? ==> emitCursor == old(emitCursor)
      ensures r.Some? ==>
        && emitCursor == Min(old(emitCursor) + OUT_BATCH, n)
        && BatchFits(r.value, types) && r.value.Rows() == Pick(RowsOf(input), perm)[old(emitCursor)..emitCursor]
    {
      hide Stored, StoredRows;
      if emitCursor >= n { return None; }
      var m := Min(OUT_BATCH, n - emitCursor);
      var idx := perm[emitCursor..emitCursor + m];
      var b := GatherRows(cols, n, types, idx);
      assert Pick(RowsOf(input), idx) == Pick(RowsOf(input), perm)[emitCursor..emitCursor + m];
      emitCursor := emitCursor + m;
      r := Some(b);
    }
  }

  /** A sequence over `0 .. n - 1` without repetition and without gaps has length `n`. */
  lemma PermutationLength(keys: seq<SortKey>, rows: seq<Row>, width: nat, perm: seq<nat>)
    requires KeysFit(keys, width) && SameWidth(rows, width)
    requires StablePermutation(keys, rows, width, perm)
    ensures |perm| == |rows| && forall k | 0 <= k < |perm| :: perm[k] < |rows|
  {
    forall i, j | 0 <= i < j < |perm| ensures perm[i] != perm[j] {
      PrecedesLaws(keys, rows, width, perm[i], perm[j], perm[i]);
    }
    DistinctLength(perm, |rows|);
  }

  lemma {:induction false} DistinctLength(p: seq<nat>, n: nat)
    requires forall i, j | 0 <= i < j < |p| :: p[i] != p[j]
    requires forall x | x in p :: x < n
    requires forall r: nat | r < n :: r in p
    ensures |p| == n
  {
    if n > 0 {
      assert (n - 1) as nat in p;
      var at :| 0 <= at < |p| && p[at] == n - 1;
      var q := p[..at] + p[at + 1..];
      forall r: nat | r < n - 1 ensures r in q {
        assert r in p;
        var i :| 0 <= i < |p| && p[i] == r;
        assert q[if i < at then i else i - 1] == r;
      }
      forall i | 0 <= i < |q| ensures q[i] < n - 1 {
        var j := if i < at then i else i + 1;
        assert q[i] == p[j] && p[j] in p;
      }
      DistinctLength(q, n - 1);
    } else if p != [] {
      SomeMember(p);
    }
  }

  /** Drain a sort: the input's rows, in the one stable order of the keys. */
  method SortRows(input: seq<Batch>, types: seq<Type>, keys: seq<SortKey>, path: Path)
    returns (batches: seq<Batch>, ghost perm: seq<nat>)
    requires Conforms(input, types) && KeysFit(keys, |types|)
    requires path.Radix? ==> RadixEligible(keys, types)
    ensures Conforms(batches, types) && forall i | 0 <= i < |batches| :: 1 <= batches[i].rowCount <= OUT_BATCH
    ensures SameWidth(RowsOf(input), |types|) && StablePermutation(keys, RowsOf(input), |types|, perm)
    ensures RowsOf(batches) == Pick(RowsOf(input), perm)
    ensures InKeyOrder(keys, RowsOf(input), perm, RowsOf(batches), |types|)
  {
    hide StablePermutation, InKeyOrder, Precedes, RowCmp, SameWidth, Batch.Rows;
    var sort := new Sort(input, types, keys, path);
    sort.Open();
    batches, perm := [], sort.perm;
    PermutationLength(keys, RowsOf(input), |types|, perm);
    while true
      invariant fresh(sort) && sort.Valid() && sort.isOpen && sort.perm == perm
      invariant Conforms(batches, types) && sort.types == types
      invariant forall i | 0 <= i < |batches| :: 1 <= batches[i].rowCount <= OUT_BATCH
      invariant RowsOf(batches) == Pick(RowsOf(input), perm)[..sort.emitCursor]
      decreases sort.n - sort.emitCursor
    {
      var b := sort.Next();
      if b.None? { break; }
      assert (batches + [b.value])[..|batches|] == batches;
      batches := batches + [b.value];
    }
    StableMeans(keys, RowsOf(input), perm, RowsOf(batches), |types|);
  }
}
