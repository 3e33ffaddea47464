/**
 What the hash table means: keys to dense group ids in first-seen order.

 A key tuple is one canonical word, or NULL, per key column. The abstract state is
 the sequence of keys that own an id, in id order; under `NeverMatch` a tuple with a
 NULL owns a fresh id each time and is never found.
 */
module GroupIds {
  import opened Words

  type KeyTuple = seq<Option<u64>>

  datatype NullPolicy = EqualNulls | NeverMatch

  predicate HasNull(k: KeyTuple) { None in k }

  predicate Findable(policy: NullPolicy, k: KeyTuple) { !(policy.NeverMatch? && HasNull(k)) }

  /** The id of a key, if some group has it and it may be found. */
  function Lookup(policy: NullPolicy, keys: seq<KeyTuple>, k: KeyTuple): (r: Option<nat>)
    ensures r.Some? <==> Findable(policy, k) && k in keys
    ensures r.Some? ==> r.value < |keys| && keys[r.value] == k
  {
    if Findable(policy, k) && k in keys then Some(IndexOf(keys, k)) else None
  }

  function IndexOf(keys: seq<KeyTuple>, k: KeyTuple): (i: nat)
    requires k in keys
    ensures i < |keys| && keys[i] == k
  {
    if keys[0] == k then 0 else 1 + IndexOf(keys[1..], k)
  }

  /** No two groups share a findable key. */
  ghost predicate DistinctKeys(policy: NullPolicy, keys: seq<KeyTuple>) {
    forall i, j | 0 <= i < j < |keys| :: Findable(policy, keys[i]) ==> keys[i] != keys[j]
  }

  /** Insert or find one key: the keys afterwards, and its id. */
  function Assign(policy: NullPolicy, keys: seq<KeyTuple>, k: KeyTuple): (seq<KeyTuple>, nat) {
    match Lookup(policy, keys, k)
    case Some(g) => (keys, g)
    case None => (keys + [k], |keys|)
  }

  /** Insert or find keys in order. */
  function AssignAll(policy: NullPolicy, keys: seq<KeyTuple>, ks: seq<KeyTuple>): (r: (seq<KeyTuple>, seq<nat>))
    ensures |r.1| == |ks| && |keys| <= |r.0|
    ensures forall i | 0 <= i < |ks| :: r.1[i] < |r.0|
  {
    if ks == [] then (keys, [])
    else
      var (before, ids) := AssignAll(policy, keys, ks[..|ks| - 1]);
      var (after, id) := Assign(policy, before, ks[|ks| - 1]);
      (after, ids + [id])
  }

  lemma {:induction false} AssignAllGrows(policy: NullPolicy, keys: seq<KeyTuple>, ks: seq<KeyTuple>)
    requires DistinctKeys(policy, keys)
    ensures keys <= AssignAll(policy, keys, ks).0
    ensures DistinctKeys(policy, AssignAll(policy, keys, ks).0)
  {
    if ks != [] { AssignAllGrows(policy, keys, ks[..|ks| - 1]); }
  }

  /** Cutting the input into batches changes nothing. */
  lemma {:induction false} AssignAllConcat(policy: NullPolicy, keys: seq<KeyTuple>, a: seq<KeyTuple>, b: seq<KeyTuple>)
    ensures var (mid, ids) := AssignAll(policy, keys, a);
      AssignAll(policy, keys, a + b) == (AssignAll(policy, mid, b).0, ids + AssignAll(policy, mid, b).1)
  {
    if b == [] {
      assert a + b == a;
      assert AssignAll(policy, keys, a).1 + [] == AssignAll(policy, keys, a).1;
    } else {
      var b' := b[..|b| - 1];
      assert (a + b)[..|a + b| - 1] == a + b';
      AssignAllConcat(policy, keys, a, b');
      var (mid, ids) := AssignAll(policy, keys, a);
      var (before, ids') := AssignAll(policy, mid, b');
      var id := Assign(policy, before, b[|b| - 1]).1;
      assert ids + (ids' + [id]) == ids + ids' + [id];
    }
  }

  /** Every row's id leads back to its key. */
  lemma {:induction false} IdsReadBack(policy: NullPolicy, keys: seq<KeyTuple>, ks: seq<KeyTuple>)
    requires DistinctKeys(policy, keys)
    ensures var (after, ids) := AssignAll(policy, keys, ks);
      forall i | 0 <= i < |ks| :: ids[i] < |after| && after[ids[i]] == ks[i]
  {
    if ks != [] {
      var ks' := ks[..|ks| - 1];
      IdsReadBack(policy, keys, ks');
      AssignAllGrows(policy, keys, ks');
      var (before, ids) := AssignAll(policy, keys, ks');
      forall i | 0 <= i < |ks'|
        ensures AssignAll(policy, keys, ks).0[ids[i]] == ks[i]
      {
        assert before[ids[i]] == ks'[i] == ks[i];
      }
    }
  }

  /** Two rows share an id exactly when their keys are equal and may be found. */
  lemma SameIdIffSameKey(policy: NullPolicy, ks: seq<KeyTuple>, i: nat, j: nat)
    requires i < j < |ks|
    ensures var ids := AssignAll(policy, [], ks).1;
      ids[i] == ids[j] <==> ks[i] == ks[j] && Findable(policy, ks[i])
  {
    IdAtPrefix(policy, [], ks, j);
    IdAtPrefix(policy, [], ks, i);
    var (before, ids) := AssignAll(policy, [], ks[..j]);
    AssignAllGrows(policy, [], ks[..j]);
    IdsReadBack(policy, [], ks[..j]);
    IdAtPrefix(policy, [], ks[..j], i);
    assert ks[..j][..i] == ks[..i];
    assert ids[i] == AssignAll(policy, [], ks).1[i];
    assert before[ids[i]] == ks[i];
  }

  /** A row's id is decided by the rows before it. */
  lemma {:induction false} IdAtPrefix(policy: NullPolicy, keys: seq<KeyTuple>, ks: seq<KeyTuple>, i: nat)
    requires i < |ks|
    ensures AssignAll(policy, keys, ks).1[i]
         == Assign(policy, AssignAll(policy, keys, ks[..i]).0, ks[i]).1
  {
    if i < |ks| - 1 {
      var ks' := ks[..|ks| - 1];
      IdAtPrefix(policy, keys, ks', i);
      assert ks'[..i] == ks[..i];
    }
  }

  /**
   Ids are dense and in first-seen order: a row either repeats the id of an earlier
   row or takes the next unused one.
   */
  lemma {:induction false} IdsAreDense(policy: NullPolicy, ks: seq<KeyTuple>, i: nat)
    requires i < |ks|
    ensures var ids := AssignAll(policy, [], ks).1;
      if exists j | 0 <= j < i :: ks[j] == ks[i] && Findable(policy, ks[i])
      then exists j | 0 <= j < i :: ids[j] == ids[i]
      else ids[i] == |AssignAll(policy, [], ks[..i]).0|
  {
    IdAtPrefix(policy, [], ks, i);
    if j :| 0 <= j < i && ks[j] == ks[i] && Findable(policy, ks[i]) {
      SameIdIffSameKey(policy, ks, j, i);
    } else {
      KeysComeFromRows(policy, ks[..i]);
      if ks[i] in AssignAll(policy, [], ks[..i]).0 {
        assert ks[i] in ks[..i];
      }
    }
  }

  lemma {:induction false} KeysComeFromRows(policy: NullPolicy, ks: seq<KeyTuple>)
    ensures forall k :: k in AssignAll(policy, [], ks).0 <==> k in ks
  {
    if ks != [] {
      var ks' := ks[..|ks| - 1];
      KeysComeFromRows(policy, ks');
      assert ks == ks' + [ks[|ks| - 1]];
    }
  }

  /** After the build, a probe finds exactly the keys inserted, under the ids they got. */
  lemma FindAfterBuild(policy: NullPolicy, ks: seq<KeyTuple>, k: KeyTuple)
    ensures var (keys, ids) := AssignAll(policy, [], ks);
      && (Lookup(policy, keys, k).Some? <==> Findable(policy, k) && k in ks)
      && forall i | 0 <= i < |ks| && ks[i] == k && Findable(policy, k) ::
           Lookup(policy, keys, k) == Some(ids[i])
  {
    KeysComeFromRows(policy, ks);
    IdsReadBack(policy, [], ks);
    AssignAllGrows(policy, [], ks);
  }
}
