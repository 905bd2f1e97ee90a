/**
 * Group-and-sum: `groupby(keys)[metric].sum()` over a sequence of records.
 * The reference meaning of one group's value is GroupTotal, the metric summed
 * over exactly the records carrying that key; GroupSum computes the whole
 * table in one pass and is proved to agree with it on every row.
 */
module Grouping {

  /** One row of a grouped table: a group key and its summed metric. */
  datatype Row<K> = Row(key: K, total: real)

  /** The metric summed over exactly the records of `s` whose key is `k`. */
  function GroupTotal<T, K(==)>(s: seq<T>, key: T -> K, metric: T -> real, k: K): real
    decreases |s|
  {
    if s == [] then 0.0
    else
      var last := s[|s| - 1];
      GroupTotal(s[..|s| - 1], key, metric, k) + (if key(last) == k then metric(last) else 0.0)
  }

  /** The keys that occur in the input. */
  ghost function KeySet<T, K>(s: seq<T>, key: T -> K): set<K>
  {
    set i | 0 <= i < |s| :: key(s[i])
  }

  /** The keys of a table's rows. */
  ghost function KeysOf<K>(rows: seq<Row<K>>): set<K>
  {
    set i | 0 <= i < |rows| :: rows[i].key
  }

  ghost predicate DistinctKeys<K>(rows: seq<Row<K>>)
  {
    forall i, j :: 0 <= i < j < |rows| ==> rows[i].key != rows[j].key
  }

  /** Every row holds the sum of the metric over its own group. */
  ghost predicate RowsAreSums<T, K>(s: seq<T>, key: T -> K, metric: T -> real, rows: seq<Row<K>>)
  {
    forall i :: 0 <= i < |rows| ==> rows[i].total == GroupTotal(s, key, metric, rows[i].key)
  }

  /** `rows` is a grouping of `s`: one row per key that occurs, each holding its group's sum. */
  ghost predicate IsGrouping<T, K>(s: seq<T>, key: T -> K, metric: T -> real, rows: seq<Row<K>>)
  {
    && KeysOf(rows) == KeySet(s, key)
    && DistinctKeys(rows)
    && RowsAreSums(s, key, metric, rows)
  }

  lemma KeysOfCons<K>(r: Row<K>, rows: seq<Row<K>>)
    ensures KeysOf([r] + rows) == {r.key} + KeysOf(rows)
  {
    var t := [r] + rows;
    forall k | k in KeysOf(t) ensures k in {r.key} + KeysOf(rows) {
      var i :| 0 <= i < |t| && t[i].key == k;
      if i > 0 { assert rows[i - 1] == t[i]; }
    }
    forall k | k in KeysOf(rows) ensures k in KeysOf(t) {
      var i :| 0 <= i < |rows| && rows[i].key == k;
      assert t[i + 1] == rows[i];
    }
    assert t[0] == r;
  }

  lemma KeySetSnoc<T, K>(s: seq<T>, key: T -> K, x: T)
    ensures KeySet(s + [x], key) == KeySet(s, key) + {key(x)}
  {
    var t := s + [x];
    forall k | k in KeySet(t, key) ensures k in KeySet(s, key) + {key(x)} {
      var i :| 0 <= i < |t| && key(t[i]) == k;
      if i < |s| { assert t[i] == s[i]; }
    }
    forall k | k in KeySet(s, key) ensures k in KeySet(t, key) {
      var i :| 0 <= i < |s| && key(s[i]) == k;
      assert t[i] == s[i];
    }
    assert t[|s|] == x;
  }

  /** Appending a record adds its metric to its own group and to no other. */
  lemma GroupTotalSnoc<T, K>(s: seq<T>, key: T -> K, metric: T -> real, x: T, k: K)
    ensures GroupTotal(s + [x], key, metric, k)
         == GroupTotal(s, key, metric, k) + (if key(x) == k then metric(x) else 0.0)
  {
    assert (s + [x])[..|s|] == s;
  }

  /** A key that never occurs has an empty group. */
  lemma {:induction false} AbsentKeyTotal<T, K>(s: seq<T>, key: T -> K, metric: T -> real, k: K)
    requires k !in KeySet(s, key)
    ensures GroupTotal(s, key, metric, k) == 0.0
  {
    if s != [] {
      var init := s[..|s| - 1];
      assert s == init + [s[|s| - 1]];
      KeySetSnoc(init, key, s[|s| - 1]);
      AbsentKeyTotal(init, key, metric, k);
    }
  }

  /** Add `v` to the row of `k`, or append a fresh row for `k` holding `v`. */
  function AddTo<K(==)>(rows: seq<Row<K>>, k: K, v: real): (r: seq<Row<K>>)
    ensures KeysOf(r) == KeysOf(rows) + {k}
    ensures DistinctKeys(rows) ==> DistinctKeys(r)
  {
    if rows == [] then
      KeysOfCons(Row(k, v), []);
      [Row(k, v)]
    else if rows[0].key == k then
      KeysOfCons(Row(k, rows[0].total + v), rows[1..]);
      KeysOfCons(rows[0], rows[1..]);
      assert rows == [rows[0]] + rows[1..];
      [Row(k, rows[0].total + v)] + rows[1..]
    else
      var rest := AddTo(rows[1..], k, v);
      KeysOfCons(rows[0], rest);
      KeysOfCons(rows[0], rows[1..]);
      assert rows == [rows[0]] + rows[1..];
      DistinctCons(rows[0], rows[1..]);
      DistinctCons(rows[0], rest);
      [rows[0]] + rest
  }

  lemma DistinctCons<K>(r: Row<K>, rows: seq<Row<K>>)
    ensures DistinctKeys([r] + rows) <==> r.key !in KeysOf(rows) && DistinctKeys(rows)
  {
    var t := [r] + rows;
    if DistinctKeys(t) {
      forall j | 0 <= j < |rows| ensures rows[j].key != r.key {
        assert t[0] == r && t[j + 1] == rows[j];
      }
      forall i, j | 0 <= i < j < |rows| ensures rows[i].key != rows[j].key {
        assert t[i + 1] == rows[i] && t[j + 1] == rows[j];
      }
    }
    if r.key !in KeysOf(rows) && DistinctKeys(rows) {
      forall i, j | 0 <= i < j < |t| ensures t[i].key != t[j].key {
        assert t[j] == rows[j - 1];
        if i > 0 { assert t[i] == rows[i - 1]; }
      }
    }
  }

  /** Adding one record's metric to its row keeps every row the sum of its group. */
  lemma {:induction false} AddToKeepsSums<T, K>(s: seq<T>, key: T -> K, metric: T -> real, x: T, rows: seq<Row<K>>)
    requires RowsAreSums(s, key, metric, rows)
    requires DistinctKeys(rows)
    requires key(x) !in KeysOf(rows) ==> GroupTotal(s, key, metric, key(x)) == 0.0
    ensures RowsAreSums(s + [x], key, metric, AddTo(rows, key(x), metric(x)))
  {
    var r := AddTo(rows, key(x), metric(x));
    if rows == [] {
      GroupTotalSnoc(s, key, metric, x, key(x));
    } else {
      DistinctCons(rows[0], rows[1..]);
      assert rows == [rows[0]] + rows[1..];
      forall k | k in KeysOf(rows[1..]) ensures k in KeysOf(rows) {
        KeysOfCons(rows[0], rows[1..]);
      }
      if rows[0].key == key(x) {
        forall i | 0 <= i < |r| ensures r[i].total == GroupTotal(s + [x], key, metric, r[i].key) {
          GroupTotalSnoc(s, key, metric, x, r[i].key);
          if i > 0 {
            assert r[i] == rows[i];
            assert r[i].key != rows[0].key;
          }
        }
      } else {
        AddToKeepsSums(s, key, metric, x, rows[1..]);
        forall i | 0 <= i < |r| ensures r[i].total == GroupTotal(s + [x], key, metric, r[i].key) {
          if i == 0 {
            GroupTotalSnoc(s, key, metric, x, rows[0].key);
          } else {
            assert r[i] == AddTo(rows[1..], key(x), metric(x))[i - 1];
          }
        }
      }
    }
  }

  /**
   * The grouped table of `s`, built in one pass: each record's metric is
   * added to the row of its key, a new row opening at the key's first
   * occurrence. Every key that occurs gets exactly one row, and that row
   * holds the sum over exactly the records with that key.
   */
  function GroupSum<T, K(==)>(s: seq<T>, key: T -> K, metric: T -> real): (rows: seq<Row<K>>)
    ensures IsGrouping(s, key, metric, rows)
    decreases |s|
  {
    if s == [] then
      []
    else
      var init := s[..|s| - 1];
      var x := s[|s| - 1];
      assert s == init + [x];
      var prev := GroupSum(init, key, metric);
      GroupingStep(init, key, metric, x, prev);
      AddTo(prev, key(x), metric(x))
  }

  /** One step of the pass: a grouping of `s` becomes a grouping of `s + [x]`. */
  lemma GroupingStep<T, K>(s: seq<T>, key: T -> K, metric: T -> real, x: T, rows: seq<Row<K>>)
    requires IsGrouping(s, key, metric, rows)
    ensures IsGrouping(s + [x], key, metric, AddTo(rows, key(x), metric(x)))
  {
    KeySetSnoc(s, key, x);
    if key(x) !in KeysOf(rows) { AbsentKeyTotal(s, key, metric, key(x)); }
    AddToKeepsSums(s, key, metric, x, rows);
  }

  /** A table with distinct keys has exactly as many rows as keys. */
  lemma {:induction false} DistinctKeysCount<K>(rows: seq<Row<K>>)
    requires DistinctKeys(rows)
    ensures |KeysOf(rows)| == |rows|
  {
    if rows != [] {
      assert rows == [rows[0]] + rows[1..];
      DistinctCons(rows[0], rows[1..]);
      KeysOfCons(rows[0], rows[1..]);
      DistinctKeysCount(rows[1..]);
    }
  }

  /** The grouped table has one row per distinct key of the input; none for an empty input. */
  lemma GroupSumSize<T, K>(s: seq<T>, key: T -> K, metric: T -> real)
    ensures |GroupSum(s, key, metric)| == |KeySet(s, key)|
    ensures s == [] <==> GroupSum(s, key, metric) == []
  {
    var rows := GroupSum(s, key, metric);
    DistinctKeysCount(rows);
    if s != [] {
      assert key(s[0]) in KeySet(s, key);
    }
  }

  /**
   * Two inputs whose records agree, position by position, on the key and on
   * the metric give the same table: nothing else about a record is read.
   */
  lemma {:induction false} GroupSumReadsOnlyKeyAndMetric<T, K>(s: seq<T>, t: seq<T>, key: T -> K, metric: T -> real)
    requires |s| == |t|
    requires forall i :: 0 <= i < |s| ==> key(s[i]) == key(t[i]) && metric(s[i]) == metric(t[i])
    ensures GroupSum(s, key, metric) == GroupSum(t, key, metric)
  {
    if s != [] {
      GroupSumReadsOnlyKeyAndMetric(s[..|s| - 1], t[..|t| - 1], key, metric);
    }
  }

  /** Reordering the rows of a grouping, keeping the keys distinct, is still a grouping. */
  lemma PermutedGrouping<T, K>(s: seq<T>, key: T -> K, metric: T -> real, a: seq<Row<K>>, b: seq<Row<K>>)
    requires IsGrouping(s, key, metric, a)
    requires multiset(a) == multiset(b)
    requires DistinctKeys(b)
    ensures IsGrouping(s, key, metric, b)
  {
    forall i | 0 <= i < |b| ensures b[i].total == GroupTotal(s, key, metric, b[i].key) && b[i].key in KeysOf(a) {
      assert b[i] in multiset(b);
      var j :| 0 <= j < |a| && a[j] == b[i];
    }
    forall k | k in KeysOf(a) ensures k in KeysOf(b) {
      var j :| 0 <= j < |a| && a[j].key == k;
      assert a[j] in multiset(a);
      var i :| 0 <= i < |b| && b[i] == a[j];
    }
  }

  /** A table whose keys all occur in the records has no rows when there are no records. */
  lemma NoRecordsNoRows<T, K>(s: seq<T>, key: T -> K, rows: seq<Row<K>>)
    requires KeysOf(rows) <= KeySet(s, key)
    ensures rows != [] ==> s != []
  {
    if rows != [] {
      assert rows[0].key in KeysOf(rows);
    }
  }

  /** A group with a single record holds that record's metric. */
  lemma {:induction false} SingleRecordGroup<T, K>(s: seq<T>, key: T -> K, metric: T -> real, i: nat)
    requires i < |s|
    requires forall j :: 0 <= j < |s| && j != i ==> key(s[j]) != key(s[i])
    ensures GroupTotal(s, key, metric, key(s[i])) == metric(s[i])
  {
    var init := s[..|s| - 1];
    assert s == init + [s[|s| - 1]];
    if i == |s| - 1 {
      assert key(s[i]) !in KeySet(init, key) by {
        forall j | 0 <= j < |init| ensures key(init[j]) != key(s[i]) {
          assert init[j] == s[j];
        }
      }
      AbsentKeyTotal(init, key, metric, key(s[i]));
    } else {
      assert init[i] == s[i];
      forall j | 0 <= j < |init| && j != i ensures key(init[j]) != key(init[i]) {
        assert init[j] == s[j];
      }
      SingleRecordGroup(init, key, metric, i);
    }
  }
}
