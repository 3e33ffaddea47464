/**
 The dictionary behind a VARCHAR column: codes 0, 1, 2, ... in first-seen order.

 `InternIn` on a sequence of distinct strings is the meaning; the class keeps the
 concatenated bytes, the offsets and the dedup index, and refines it.
 */
module StringDicts {
  import opened Words

  predicate Distinct(d: seq<string>) {
    forall i, j | 0 <= i < j < |d| :: d[i] != d[j]
  }

  type Dict = d: seq<string> | Distinct(d)

  /** The code of `s`, fresh if `s` is new. */
  function InternIn(d: Dict, s: string): (r: (Dict, nat))
    ensures d <= r.0 && |r.0| <= |d| + 1
    ensures r.1 < |r.0| && r.0[r.1] == s
    ensures s in d ==> r.0 == d
    ensures s !in d ==> r == (d + [s], |d|)
  {
    if s in d then (d, IndexOf(d, s)) else (d + [s], |d|)
  }

  function IndexOf(d: seq<string>, s: string): (i: nat)
    requires s in d
    ensures i < |d| && d[i] == s
  {
    if d[0] == s then 0 else 1 + IndexOf(d[1..], s)
  }

  /**
   Two strings interned one after the other, anything in between, share a code
   exactly when they are equal.
   */
  lemma SameCodeIffSameString(d: Dict, s: string, d': Dict, t: string)
    requires InternIn(d, s).0 <= d'
    ensures InternIn(d, s).1 == InternIn(d', t).1 <==> s == t
  {
    var i, j := InternIn(d, s).1, InternIn(d', t).1;
    var last := InternIn(d', t).0;
    assert last[i] == s && last[j] == t;
  }

  /** Offsets that cut `bytes` into consecutive strings. */
  ghost predicate Cuts(bytes: string, offsets: seq<nat>) {
    && |offsets| >= 1 && offsets[0] == 0 && offsets[|offsets| - 1] == |bytes|
    && forall i, j | 0 <= i <= j < |offsets| :: offsets[i] <= offsets[j]
  }

  ghost function Strings(bytes: string, offsets: seq<nat>): (d: seq<string>)
    requires Cuts(bytes, offsets)
    ensures |d| == |offsets| - 1
  {
    seq(|offsets| - 1, i requires 0 <= i < |offsets| - 1 => bytes[offsets[i]..offsets[i + 1]])
  }

  lemma AppendString(bytes: string, offsets: seq<nat>, s: string)
    requires Cuts(bytes, offsets)
    ensures Cuts(bytes + s, offsets + [|bytes + s|])
    ensures Strings(bytes + s, offsets + [|bytes + s|]) == Strings(bytes, offsets) + [s]
  {
    var offsets' := offsets + [|bytes + s|];
    forall i | 0 <= i < |offsets|
      ensures Strings(bytes + s, offsets')[i] == (Strings(bytes, offsets) + [s])[i]
    {
      assert (bytes + s)[offsets'[i]..offsets'[i + 1]]
          == if i < |offsets| - 1 then bytes[offsets[i]..offsets[i + 1]] else s;
    }
  }

  class StringDict {
    var bytes: string
    var offsets: seq<nat>
    var index: map<string, nat>

    ghost predicate Valid()
      reads this
    {
      && Cuts(bytes, offsets)
      && (forall s | s in index :: index[s] < |Contents()| && Contents()[index[s]] == s)
      && (forall i | 0 <= i < |Contents()| :: Contents()[i] in index && index[Contents()[i]] == i)
    }

    /** The strings in code order. */
    ghost function Contents(): seq<string>
      requires Cuts(bytes, offsets)
      reads this
    {
      Strings(bytes, offsets)
    }

    constructor ()
      ensures Valid() && Contents() == []
    {
      bytes, offsets, index := "", [0], map[];
    }

    /** Distinct codes stand for distinct strings. */
    lemma ContentsDistinct()
      requires Valid()
      ensures Distinct(Contents())
    {
    }

    method Intern(s: string) returns (code: nat)
      requires Valid()
      modifies this
      ensures Valid() && Distinct(old(Contents()))
      ensures (Contents(), code) == InternIn(old(Contents()), s)
    {
      hide Strings, Cuts;
      ContentsDistinct();
      ghost var before := Contents();
      if s in index {
        code := index[s];
        return;
      }
      assert s !in before;
      AppendString(bytes, offsets, s);
      code := |offsets| - 1;
      bytes := bytes + s;
      offsets := offsets + [|bytes|];
      assert Contents() == before + [s];
      index := index[s := code];
    }

    function At(code: nat): (s: string)
      requires Valid() && code < |offsets| - 1
      reads this
      ensures s == Contents()[code]
    {
      bytes[offsets[code]..offsets[code + 1]]
    }
  }
}
