/**
 * Two small worked reports: the top-products ranking of three sales of two
 * products, and the seasonal report of four sales, one in each season.
 */
module Scenarios {
  import opened Sales
  import opened Grouping
  import opened Ranking
  import opened Reports

  /** A sale in 2024 that only names a product, a quantity, a month and a total price. */
  function Sale(productId: int, productName: string, quantity: nat, month: Month, totalPrice: real): Record
  {
    Record(0, "", productId, productName, 0, "", quantity, 0.0, totalPrice, Date(2024, month, 1))
  }

  function ProductSales(): seq<Record>
  {
    [Sale(1, "A", 5, 1, 0.0), Sale(1, "A", 3, 1, 0.0), Sale(2, "B", 10, 1, 0.0)]
  }

  /** Grouping the three sales by product sums A's two sales into one row. */
  lemma ProductSalesGrouped()
    ensures GroupSum(ProductSales(), ProductOf, QuantityOf)
         == [Row(ProductKey(1, "A"), 8.0), Row(ProductKey(2, "B"), 10.0)]
  {
    var s := ProductSales();
    var a, b := ProductKey(1, "A"), ProductKey(2, "B");
    assert s[..1][..0] == [];
    assert s[..2][..1] == s[..1];
    assert GroupSum(s[..1], ProductOf, QuantityOf) == [Row(a, 5.0)];
    assert GroupSum(s[..2], ProductOf, QuantityOf) == [Row(a, 8.0)];
    assert AddTo([Row(a, 8.0)], b, 10.0) == [Row(a, 8.0)] + AddTo([], b, 10.0);
  }

  /** B (10 units) outranks A (5 + 3 units). */
  lemma TopProductsExample(s: seq<Record>)
    requires s == ProductSales()
    ensures TopProducts(s) == [Row(ProductKey(2, "B"), 10.0), Row(ProductKey(1, "A"), 8.0)]
  {
    var a, b := ProductKey(1, "A"), ProductKey(2, "B");
    ProductSalesGrouped();
    var g := GroupSum(s, ProductOf, QuantityOf);
    assert g[0] == Row(a, 8.0) && g[1] == Row(b, 10.0);
    assert KeysOf(g) == {a, b} by {
      assert KeysOf(g) <= {a, b};
      assert a in KeysOf(g) && b in KeysOf(g);
    }
    TwoGroupsRanked(s, ProductOf, QuantityOf, 10, TopProducts(s), a, b);
  }

  /** With exactly two groups and room for both, the larger comes first. */
  lemma TwoGroupsRanked<T, K>(s: seq<T>, key: T -> K, metric: T -> real, k: nat, rows: seq<Row<K>>, a: K, b: K)
    requires 2 <= k && a != b
    requires KeySet(s, key) == {a, b}
    requires GroupTotal(s, key, metric, a) < GroupTotal(s, key, metric, b)
    requires IsTopK(s, key, metric, k, rows)
    ensures rows == [Row(b, GroupTotal(s, key, metric, b)), Row(a, GroupTotal(s, key, metric, a))]
  {
    assert |rows| == 2;
    assert rows[0].key in KeysOf(rows) && rows[1].key in KeysOf(rows);
  }

  function SeasonSales(): seq<Record>
  {
    [Sale(1, "A", 1, 1, 100.0), Sale(1, "A", 1, 4, 100.0), Sale(1, "A", 1, 7, 100.0), Sale(1, "A", 1, 10, 100.0)]
  }

  /** January, April, July and October sales of 100 each: four rows of 100, one per season. */
  lemma SeasonalTrendExample(s: seq<Record>)
    requires s == SeasonSales()
    ensures var rows := SeasonalTrend(s);
      && |rows| == 4
      && KeysOf(rows) == {Winter, Spring, Summer, Autumn}
      && forall i :: 0 <= i < |rows| ==> rows[i].total == 100.0
  {
    assert forall n :: 0 <= n < |s| ==> SeasonRank(SeasonOf(s[n])) == n && s[n].totalPrice == 100.0;
    OneSalePerSeason(s, SeasonalTrend(s));
  }

  /** Four sales of 100, the n-th in the n-th season, group into the four seasons at 100 each. */
  lemma OneSalePerSeason(s: seq<Record>, rows: seq<Row<Season>>)
    requires |s| == 4
    requires forall n :: 0 <= n < |s| ==> SeasonRank(SeasonOf(s[n])) == n && s[n].totalPrice == 100.0
    requires IsGrouping(s, SeasonOf, TotalPriceOf, rows)
    ensures |rows| == 4
    ensures KeysOf(rows) == {Winter, Spring, Summer, Autumn}
    ensures forall i :: 0 <= i < |rows| ==> rows[i].total == 100.0
  {
    assert SeasonOf(s[0]) == Winter && SeasonOf(s[1]) == Spring && SeasonOf(s[2]) == Summer && SeasonOf(s[3]) == Autumn;
    assert KeySet(s, SeasonOf) == {Winter, Spring, Summer, Autumn} by {
      forall q | q in KeySet(s, SeasonOf) ensures q in {Winter, Spring, Summer, Autumn} {
        assert q.Winter? || q.Spring? || q.Summer? || q.Autumn?;
      }
    }
    DistinctKeysCount(rows);
    forall i | 0 <= i < |rows| ensures rows[i].total == 100.0 {
      var n: nat := SeasonRank(rows[i].key);
      assert SeasonOf(s[n]) == rows[i].key;
      SingleRecordGroup(s, SeasonOf, TotalPriceOf, n);
    }
  }
}
