/**
 * Ranking a grouped table: `sort_values(ascending=False)` followed by
 * `head(k)`. The sort is an insertion sort on the summed metric; the
 * contracts only say that the result is ordered and a permutation, never
 * which of two equal totals comes first, since the source's sort promises
 * no order among ties.
 */
module Ranking {
  import opened Grouping

  function Min(a: int, b: int): int { if a <= b then a else b }

  /** Rows in non-increasing order of their totals. */
  ghost predicate SortedDesc<K>(rows: seq<Row<K>>)
  {
    forall i, j :: 0 <= i < j < |rows| ==> rows[i].total >= rows[j].total
  }

  /** `x` placed before the first row whose total it is at least. */
  function Insert<K(==)>(x: Row<K>, rows: seq<Row<K>>): (r: seq<Row<K>>)
    requires SortedDesc(rows)
    ensures SortedDesc(r)
    ensures multiset(r) == multiset(rows) + multiset{x}
    ensures DistinctKeys(rows) && x.key !in KeysOf(rows) ==> DistinctKeys(r)
  {
    if rows == [] || x.total >= rows[0].total then
      DistinctCons(x, rows);
      SortedCons(x, rows);
      [x] + rows
    else
      var rest := Insert(x, rows[1..]);
      InsertStep(x, rows, rest);
      [rows[0]] + rest
  }

  lemma SortedCons<K>(h: Row<K>, rows: seq<Row<K>>)
    requires SortedDesc(rows)
    requires forall i :: 0 <= i < |rows| ==> rows[i].total <= h.total
    ensures SortedDesc([h] + rows)
  {
    var t := [h] + rows;
    forall i, j | 0 <= i < j < |t| ensures t[i].total >= t[j].total {
      assert t[j] == rows[j - 1];
      if i > 0 { assert t[i] == rows[i - 1]; }
    }
  }

  /** The rows of a permutation are the rows of the original. */
  lemma PermutedMember<K>(a: seq<Row<K>>, b: seq<Row<K>>, i: int)
    requires multiset(a) == multiset(b)
    requires 0 <= i < |a|
    ensures exists j :: 0 <= j < |b| && b[j] == a[i]
  {
    assert a[i] in multiset(a);
    assert a[i] in b;
  }

  /** Why putting the first row back in front of `rest` keeps Insert's contract. */
  lemma InsertStep<K>(x: Row<K>, rows: seq<Row<K>>, rest: seq<Row<K>>)
    requires rows != [] && x.total < rows[0].total
    requires SortedDesc(rows) && SortedDesc(rest)
    requires multiset(rest) == multiset(rows[1..]) + multiset{x}
    requires DistinctKeys(rows[1..]) && x.key !in KeysOf(rows[1..]) ==> DistinctKeys(rest)
    ensures SortedDesc([rows[0]] + rest)
    ensures multiset([rows[0]] + rest) == multiset(rows) + multiset{x}
    ensures DistinctKeys(rows) && x.key !in KeysOf(rows) ==> DistinctKeys([rows[0]] + rest)
  {
    assert rows == [rows[0]] + rows[1..];
    var tail := rows[1..] + [x];
    assert multiset(tail) == multiset(rest);
    forall i | 0 <= i < |rest| ensures rest[i].total <= rows[0].total && rest[i].key in KeysOf(rows[1..]) + {x.key} {
      PermutedMember(rest, tail, i);
      var j :| 0 <= j < |tail| && tail[j] == rest[i];
      if j < |rows| - 1 {
        assert tail[j] == rows[j + 1];
      }
    }
    SortedCons(rows[0], rest);
    DistinctCons(rows[0], rows[1..]);
    DistinctCons(rows[0], rest);
    KeysOfCons(rows[0], rows[1..]);
  }

  /** The rows reordered by non-increasing total. */
  function SortDesc<K(==)>(rows: seq<Row<K>>): (r: seq<Row<K>>)
    ensures SortedDesc(r)
    ensures multiset(r) == multiset(rows)
    ensures DistinctKeys(rows) ==> DistinctKeys(r)
  {
    if rows == [] then []
    else
      var rest := SortDesc(rows[1..]);
      assert rows == [rows[0]] + rows[1..];
      DistinctCons(rows[0], rows[1..]);
      PermutedKeys(rest, rows[1..]);
      Insert(rows[0], rest)
  }

  /** A permutation has the same keys. */
  lemma PermutedKeys<K>(a: seq<Row<K>>, b: seq<Row<K>>)
    requires multiset(a) == multiset(b)
    ensures KeysOf(a) == KeysOf(b)
  {
    forall i | 0 <= i < |a| ensures a[i].key in KeysOf(b) {
      PermutedMember(a, b, i);
    }
    forall i | 0 <= i < |b| ensures b[i].key in KeysOf(a) {
      PermutedMember(b, a, i);
    }
  }

  /** A grouping of `s` with its rows in non-increasing order of total. */
  function Ranked<T, K(==)>(s: seq<T>, key: T -> K, metric: T -> real): (rows: seq<Row<K>>)
    ensures IsGrouping(s, key, metric, rows)
    ensures SortedDesc(rows)
  {
    var grouped := GroupSum(s, key, metric);
    var sorted := SortDesc(grouped);
    PermutedGrouping(s, key, metric, grouped, sorted);
    sorted
  }

  /**
   * What a top-k report promises: every row holds the sum of a group that
   * occurs, no key appears twice, rows are in non-increasing order, there are
   * exactly min(k, number of groups) of them, and no group left out has a
   * larger total than any group kept.
   */
  ghost predicate IsTopK<T, K>(s: seq<T>, key: T -> K, metric: T -> real, k: nat, rows: seq<Row<K>>)
  {
    && RowsAreSums(s, key, metric, rows)
    && KeysOf(rows) <= KeySet(s, key)
    && DistinctKeys(rows)
    && SortedDesc(rows)
    && |rows| == Min(k, |KeySet(s, key)|)
    && Dominates(s, key, metric, rows)
  }

  /** Every group of `s` that has no row totals at most every row kept. */
  ghost predicate Dominates<T, K>(s: seq<T>, key: T -> K, metric: T -> real, rows: seq<Row<K>>)
  {
    forall i, g :: 0 <= i < |rows| && g in KeySet(s, key) && g !in KeysOf(rows) ==>
      GroupTotal(s, key, metric, g) <= rows[i].total
  }

  /** The first k rows of the ranked grouping. */
  function TopK<T, K(==)>(s: seq<T>, key: T -> K, metric: T -> real, k: nat): (rows: seq<Row<K>>)
    ensures IsTopK(s, key, metric, k, rows)
    ensures |rows| <= k
    ensures s == [] ==> rows == []
  {
    var ranked := Ranked(s, key, metric);
    var n := Min(k, |ranked|);
    GroupSumSize(s, key, metric);
    DistinctKeysCount(ranked);
    TopKFacts(s, key, metric, ranked, n);
    assert s == [] ==> KeySet(s, key) == {};
    ranked[..n]
  }

  /** Cutting a ranked grouping after its first n rows gives a top-n report. */
  lemma TopKFacts<T, K>(s: seq<T>, key: T -> K, metric: T -> real, ranked: seq<Row<K>>, n: nat)
    requires IsGrouping(s, key, metric, ranked)
    requires SortedDesc(ranked)
    requires n <= |ranked|
    ensures IsTopK(s, key, metric, n, ranked[..n])
  {
    var top := ranked[..n];
    DistinctKeysCount(ranked);
    assert KeysOf(top) <= KeysOf(ranked);
    assert forall j :: 0 <= j < n ==> ranked[j].key in KeysOf(top) by {
      forall j | 0 <= j < n ensures ranked[j].key in KeysOf(top) {
        assert top[j] == ranked[j];
      }
    }
    forall i, g | 0 <= i < |top| && g in KeySet(s, key) && g !in KeysOf(top)
      ensures GroupTotal(s, key, metric, g) <= top[i].total
    {
      var j :| 0 <= j < |ranked| && ranked[j].key == g;
      assert top[i] == ranked[i];
    }
  }

  /** When no more groups occur than a top-k report may show, it shows every one of them. */
  lemma TopKKeepsEveryGroup<T, K>(s: seq<T>, key: T -> K, metric: T -> real, k: nat, rows: seq<Row<K>>)
    requires IsTopK(s, key, metric, k, rows)
    requires |KeySet(s, key)| <= k
    ensures IsGrouping(s, key, metric, rows)
  {
    DistinctKeysCount(rows);
    var missing := KeySet(s, key) - KeysOf(rows);
    assert KeySet(s, key) == KeysOf(rows) + missing;
  }

  /** A row whose total no other row exceeds; which one among equals is not promised. */
  function Heaviest<K>(rows: seq<Row<K>>): (r: Row<K>)
    requires rows != []
    ensures r in rows
    ensures forall i :: 0 <= i < |rows| ==> rows[i].total <= r.total
  {
    if |rows| == 1 then rows[0]
    else
      var best := Heaviest(rows[1..]);
      assert forall i :: 1 <= i < |rows| ==> rows[i] == rows[1..][i - 1];
      if rows[0].total >= best.total then rows[0] else best
  }
}
