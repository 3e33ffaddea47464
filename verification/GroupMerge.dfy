/**
 Groups of an input taken in pieces: the keys of the whole are those of the pieces, and a
 group's rows are the pieces' rows of it. As multisets they do not depend on the order.
 */
module GroupMerge {
  import opened Words
  import opened Columns
  import opened KeyRows
  import opened KeyCodes
  import opened AggMeaning
  import opened GroupBy

  ghost predicate WideRows(rows: seq<Row>, keys: seq<nat>) {
    forall r, j | 0 <= r < |rows| && 0 <= j < |keys| :: keys[j] < |rows[r]|
  }

  lemma {:induction false} MembersConcat(a: seq<Row>, b: seq<Row>, keys: seq<nat>, key: Row)
    requires WideRows(a, keys) && WideRows(b, keys)
    ensures Members(a + b, keys, key) == Members(a, keys, key) + Members(b, keys, key)
  {
    if b == [] {
      assert a + b == a;
    } else {
      hide RowKey;
      assert (a + b)[..|a + b| - 1] == a + b[..|b| - 1];
      MembersConcat(a, b[..|b| - 1], keys, key);
    }
  }

  lemma {:induction false} UnseenHasNoMembers(rows: seq<Row>, keys: seq<nat>, key: Row)
    requires WideRows(rows, keys) && key !in GroupKeys(rows, keys)
    ensures Members(rows, keys, key) == []
  {
    if rows != [] {
      hide RowKey;
      UnseenHasNoMembers(rows[..|rows| - 1], keys, key);
    }
  }

  /** Some row has the key. */
  ghost predicate HasKey(rows: seq<Row>, keys: seq<nat>, key: Row)
    requires WideRows(rows, keys)
  {
    exists r :: 0 <= r < |rows| && RowKey(rows[r], keys) == key
  }

  lemma GroupIffHasKey(rows: seq<Row>, keys: seq<nat>, key: Row)
    requires WideRows(rows, keys)
    ensures key in GroupKeys(rows, keys) <==> HasKey(rows, keys, key)
  {
    hide RowKey;
    GroupKeysDistinct(rows, keys);
  }

  lemma GroupsConcat(a: seq<Row>, b: seq<Row>, keys: seq<nat>, key: Row)
    requires WideRows(a, keys) && WideRows(b, keys)
    ensures key in GroupKeys(a + b, keys) <==> key in GroupKeys(a, keys) || key in GroupKeys(b, keys)
  {
    hide RowKey;
    GroupIffHasKey(a, keys, key);
    GroupIffHasKey(b, keys, key);
    GroupIffHasKey(a + b, keys, key);
    if HasKey(b, keys, key) {
      var r :| 0 <= r < |b| && RowKey(b[r], keys) == key;
      assert (a + b)[|a| + r] == b[r];
    }
    if HasKey(a, keys, key) {
      var r :| 0 <= r < |a| && RowKey(a[r], keys) == key;
      assert (a + b)[r] == a[r];
    }
  }

  ghost predicate HasGroup(rows: seq<Row>, keys: seq<nat>, key: Row) {
    WideRows(rows, keys) && key in GroupKeys(rows, keys)
  }

  lemma HasGroupConcat(a: seq<Row>, b: seq<Row>, keys: seq<nat>, key: Row)
    requires WideRows(a, keys) && WideRows(b, keys)
    ensures WideRows(a + b, keys)
    ensures HasGroup(a + b, keys, key) <==> HasGroup(a, keys, key) || HasGroup(b, keys, key)
  {
    GroupsConcat(a, b, keys, key);
    hide GroupKeys;
  }

  // ----- a group's values -----

  predicate Reads(spec: AggSpec, keys: seq<nat>, width: nat) {
    (spec.func.CountStar? || spec.col < width) && forall j | 0 <= j < |keys| :: keys[j] < width
  }

  /** What an aggregate reads of the rows of one key. */
  function GroupValues(spec: AggSpec, rows: seq<Row>, keys: seq<nat>, key: Row, width: nat): seq<Cell>
    requires Reads(spec, keys, width) && SameWidth(rows, width)
  {
    InputsOf(spec, Members(rows, keys, key))
  }

  lemma GroupValuesConcat(spec: AggSpec, a: seq<Row>, b: seq<Row>, keys: seq<nat>, key: Row, width: nat)
    requires Reads(spec, keys, width) && SameWidth(a, width) && SameWidth(b, width)
    ensures SameWidth(a + b, width)
    ensures GroupValues(spec, a + b, keys, key, width) == GroupValues(spec, a, keys, key, width) + GroupValues(spec, b, keys, key, width)
  {
    MembersConcat(a, b, keys, key);
    InputsConcat(spec, Members(a, keys, key), Members(b, keys, key));
    hide Members, InputsOf;
  }

  // ----- order -----

  lemma GroupsReordered(a: seq<Row>, b: seq<Row>, keys: seq<nat>, key: Row)
    requires WideRows(a, keys) && WideRows(b, keys) && multiset(a) == multiset(b)
    ensures key in GroupKeys(a, keys) <==> key in GroupKeys(b, keys)
  {
    hide RowKey;
    GroupIffHasKey(a, keys, key);
    GroupIffHasKey(b, keys, key);
    if HasKey(a, keys, key) { KeyCarries(a, b, keys, key); }
    if HasKey(b, keys, key) { KeyCarries(b, a, keys, key); }
  }

  lemma KeyCarries(a: seq<Row>, b: seq<Row>, keys: seq<nat>, key: Row)
    requires WideRows(a, keys) && WideRows(b, keys) && multiset(a) == multiset(b) && HasKey(a, keys, key)
    ensures HasKey(b, keys, key)
  {
    hide RowKey;
    var r :| 0 <= r < |a| && RowKey(a[r], keys) == key;
    assert a[r] in multiset(b);
    var s :| 0 <= s < |b| && b[s] == a[r];
    assert RowKey(b[s], keys) == key;
  }

  function Count(rows: seq<Row>, row: Row): nat { multiset(rows)[row] }

  lemma CountNext(rows: seq<Row>, last: Row, row: Row)
    ensures Count(rows + [last], row) == Count(rows, row) + (if last == row then 1 else 0)
  {
  }

  /** A group has its rows as often as the input has them. */
  lemma {:induction false} MembersCount(rows: seq<Row>, keys: seq<nat>, key: Row, row: Row)
    requires WideRows(rows, keys) && forall j | 0 <= j < |keys| :: keys[j] < |row|
    ensures Count(Members(rows, keys, key), row) == if RowKey(row, keys) == key then Count(rows, row) else 0
  {
    hide RowKey, Count;
    if rows == [] {
      CountNone(row);
    } else {
      var init, last := rows[..|rows| - 1], rows[|rows| - 1];
      MembersCount(init, keys, key, row);
      assert rows == init + [last];
      CountNext(init, last, row);
      CountNext(Members(init, keys, key), last, row);
      assert Members(init, keys, key) + [] == Members(init, keys, key);
    }
  }

  lemma CountNone(row: Row)
    ensures Count([], row) == 0
  {
  }

  /** The order of the input reorders the rows of a group, no more. */
  lemma MembersReordered(a: seq<Row>, b: seq<Row>, keys: seq<nat>, key: Row)
    requires WideRows(a, keys) && WideRows(b, keys) && multiset(a) == multiset(b)
    ensures multiset(Members(a, keys, key)) == multiset(Members(b, keys, key))
  {
    hide RowKey, Members;
    var x, y := Members(a, keys, key), Members(b, keys, key);
    forall row ensures multiset(x)[row] == multiset(y)[row] {
      if row in x || row in y {
        assert forall j | 0 <= j < |keys| :: keys[j] < |row|;
        MembersCount(a, keys, key, row);
        MembersCount(b, keys, key, row);
        assert Count(x, row) == Count(y, row);
      } else {
        assert row !in multiset(x) && row !in multiset(y);
      }
    }
  }

  ghost predicate Readable(spec: AggSpec, rows: seq<Row>) {
    forall r | 0 <= r < |rows| :: spec.func.CountStar? || spec.col < |rows[r]|
  }

  lemma InputsSplit(spec: AggSpec, rows: seq<Row>, at: nat)
    requires Readable(spec, rows) && at < |rows|
    ensures Readable(spec, rows[..at] + rows[at + 1..])
    ensures multiset(rows) == multiset(rows[..at] + rows[at + 1..]) + multiset{rows[at]}
    ensures multiset(InputsOf(spec, rows))
         == multiset(InputsOf(spec, rows[..at] + rows[at + 1..])) + multiset{InputOf(spec, rows[at])}
  {
    var x, v, y := rows[..at], rows[at], rows[at + 1..];
    assert rows == x + ([v] + y);
    OneInput(spec, v);
    InputsConcat(spec, x, [v] + y);
    InputsConcat(spec, [v], y);
    InputsConcat(spec, x, y);
    Middle(x, v, y);
    hide InputsOf, InputOf;
    Middle(InputsOf(spec, x), InputOf(spec, v), InputsOf(spec, y));
  }

  lemma OneInput(spec: AggSpec, row: Row)
    requires spec.func.CountStar? || spec.col < |row|
    ensures InputsOf(spec, [row]) == [InputOf(spec, row)]
  {
  }

  lemma {:induction false} InputsReordered(spec: AggSpec, a: seq<Row>, b: seq<Row>)
    requires Readable(spec, a) && Readable(spec, b) && multiset(a) == multiset(b)
    ensures multiset(InputsOf(spec, a)) == multiset(InputsOf(spec, b))
  {
    if a == [] {
      assert |multiset(a)| == |multiset(b)|;
    } else {
      hide InputsOf;
      var n := |a| - 1;
      assert a[n] in multiset(b);
      var at :| 0 <= at < |b| && b[at] == a[n];
      var rest := b[..at] + b[at + 1..];
      InputsSplit(spec, a, n);
      InputsSplit(spec, b, at);
      assert a[..n] + a[n + 1..] == a[..n];
      Uncounted(multiset(a[..n]), multiset(rest), a[n]);
      InputsReordered(spec, a[..n], rest);
    }
  }

  /** The order of the input reorders the values of a group, no more. */
  lemma GroupValuesReordered(spec: AggSpec, a: seq<Row>, b: seq<Row>, keys: seq<nat>, key: Row, width: nat)
    requires Reads(spec, keys, width) && SameWidth(a, width) && SameWidth(b, width) && multiset(a) == multiset(b)
    ensures multiset(GroupValues(spec, a, keys, key, width)) == multiset(GroupValues(spec, b, keys, key, width))
  {
    MembersReordered(a, b, keys, key);
    InputsReordered(spec, Members(a, keys, key), Members(b, keys, key));
  }
}
