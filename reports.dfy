/**
 * The eight reports of the dashboard's menu, each a pipeline of grouping,
 * ordering and truncation over the sale records its query returns.
 */
module Reports {
  import opened Sales
  import opened Grouping
  import opened Ranking

  // ---------------------------------------------------------------------
  // Ranked top-N reports: groupby(...).sum(), sorted by total, first N.
  // ---------------------------------------------------------------------

  /** The ten customers who spent the most, by summed TotalPrice. */
  function TopCustomers(sales: seq<Record>): (rows: seq<Row<CustomerKey>>)
    ensures IsTopK(sales, CustomerOf, TotalPriceOf, 10, rows)
    ensures |rows| <= 10
    ensures sales == [] ==> rows == []
  {
    TopK(sales, CustomerOf, TotalPriceOf, 10)
  }

  /** The ten products sold in the largest quantities. */
  function TopProducts(sales: seq<Record>): (rows: seq<Row<ProductKey>>)
    ensures IsTopK(sales, ProductOf, QuantityOf, 10, rows)
    ensures |rows| <= 10
    ensures sales == [] ==> rows == []
  {
    TopK(sales, ProductOf, QuantityOf, 10)
  }

  /** The twenty (branch, product) pairs with the largest quantities sold. */
  function BranchProducts(sales: seq<Record>): (rows: seq<Row<BranchProductKey>>)
    ensures IsTopK(sales, BranchProductOf, QuantityOf, 20, rows)
    ensures |rows| <= 20
    ensures sales == [] ==> rows == []
  {
    TopK(sales, BranchProductOf, QuantityOf, 20)
  }

  /** The twenty branches with the largest revenue, revenue being quantity times price per sale. */
  function TopBranches(sales: seq<Record>): (rows: seq<Row<BranchKey>>)
    ensures IsTopK(sales, BranchOf, RevenueOf, 20, rows)
    ensures |rows| <= 20
    ensures sales == [] ==> rows == []
  {
    TopK(sales, BranchOf, RevenueOf, 20)
  }

  /** The five most demanded products (the default length of `head()`). */
  function MostDemanded(sales: seq<Record>): (rows: seq<Row<ProductKey>>)
    ensures IsTopK(sales, ProductOf, QuantityOf, 5, rows)
    ensures |rows| <= 5
    ensures sales == [] ==> rows == []
  {
    TopK(sales, ProductOf, QuantityOf, 5)
  }

  /**
   * Branch revenue is derived from each sale's quantity and price: changing
   * the stored TotalPrice of any sale leaves the branch report unchanged.
   */
  lemma TopBranchesIgnoresStoredTotal(sales: seq<Record>, totals: seq<real>)
    requires |totals| == |sales|
    ensures TopBranches(sales)
         == TopBranches(seq(|sales|, i requires 0 <= i < |sales| => sales[i].(totalPrice := totals[i])))
  {
    var changed := seq(|sales|, i requires 0 <= i < |sales| => sales[i].(totalPrice := totals[i]));
    GroupSumReadsOnlyKeyAndMetric(sales, changed, BranchOf, RevenueOf);
  }

  // ---------------------------------------------------------------------
  // Monthly trend: one row per calendar month, in date order.
  // ---------------------------------------------------------------------

  /** Strict calendar order of months. */
  predicate Before(a: YearMonth, b: YearMonth)
  {
    a.year < b.year || (a.year == b.year && a.month < b.month)
  }

  /** Rows in strictly ascending calendar order of their months. */
  ghost predicate Chronological(rows: seq<Row<YearMonth>>)
  {
    forall i, j :: 0 <= i < j < |rows| ==> Before(rows[i].key, rows[j].key)
  }

  lemma ChronologicalDistinct(rows: seq<Row<YearMonth>>)
    requires Chronological(rows)
    ensures DistinctKeys(rows)
  {
    forall i, j | 0 <= i < j < |rows| ensures rows[i].key != rows[j].key {
      assert Before(rows[i].key, rows[j].key);
    }
  }

  /** `x`, whose month is not yet in `rows`, placed at its calendar position. */
  function InsertByMonth(x: Row<YearMonth>, rows: seq<Row<YearMonth>>): (r: seq<Row<YearMonth>>)
    requires Chronological(rows)
    requires x.key !in KeysOf(rows)
    ensures Chronological(r)
    ensures multiset(r) == multiset(rows) + multiset{x}
  {
    if rows == [] || Before(x.key, rows[0].key) then
      var r := [x] + rows;
      assert forall j :: 1 <= j < |r| ==> r[j] == rows[j - 1];
      r
    else
      assert rows[0].key != x.key by { assert rows[0].key in KeysOf(rows); }
      assert rows == [rows[0]] + rows[1..];
      KeysOfCons(rows[0], rows[1..]);
      var rest := InsertByMonth(x, rows[1..]);
      InsertByMonthStep(x, rows, rest);
      [rows[0]] + rest
  }

  /** Why a month later than the first row's, inserted into the rest, keeps the calendar order. */
  lemma InsertByMonthStep(x: Row<YearMonth>, rows: seq<Row<YearMonth>>, rest: seq<Row<YearMonth>>)
    requires rows != [] && Chronological(rows)
    requires Before(rows[0].key, x.key)
    requires Chronological(rest)
    requires multiset(rest) == multiset(rows[1..]) + multiset{x}
    ensures Chronological([rows[0]] + rest)
    ensures multiset([rows[0]] + rest) == multiset(rows) + multiset{x}
  {
    assert rows == [rows[0]] + rows[1..];
    var tail := rows[1..] + [x];
    assert multiset(rest) == multiset(tail);
    forall i | 0 <= i < |rest| ensures Before(rows[0].key, rest[i].key) {
      PermutedMember(rest, tail, i);
      var j :| 0 <= j < |tail| && tail[j] == rest[i];
      if j < |rows| - 1 { assert rest[i] == rows[j + 1]; }
    }
    var r := [rows[0]] + rest;
    assert forall j :: 1 <= j < |r| ==> r[j] == rest[j - 1];
  }

  /** Rows with distinct months reordered into calendar order. */
  function SortByMonth(rows: seq<Row<YearMonth>>): (r: seq<Row<YearMonth>>)
    requires DistinctKeys(rows)
    ensures Chronological(r)
    ensures multiset(r) == multiset(rows)
  {
    if rows == [] then []
    else
      assert rows == [rows[0]] + rows[1..];
      DistinctCons(rows[0], rows[1..]);
      var rest := SortByMonth(rows[1..]);
      forall i | 0 <= i < |rest| ensures rest[i].key in KeysOf(rows[1..]) {
        PermutedMember(rest, rows[1..], i);
      }
      InsertByMonth(rows[0], rest)
  }

  /**
   * Total sales per calendar month: exactly one row for each (year, month)
   * that occurs, holding that month's summed TotalPrice, in ascending date order.
   */
  function MonthlyTrend(sales: seq<Record>): (rows: seq<Row<YearMonth>>)
    ensures IsGrouping(sales, MonthOf, TotalPriceOf, rows)
    ensures Chronological(rows)
    ensures |rows| == |KeySet(sales, MonthOf)|
    ensures sales == [] ==> rows == []
  {
    var grouped := GroupSum(sales, MonthOf, TotalPriceOf);
    var sorted := SortByMonth(grouped);
    ChronologicalDistinct(sorted);
    PermutedGrouping(sales, MonthOf, TotalPriceOf, grouped, sorted);
    DistinctKeysCount(sorted);
    NoRecordsNoRows(sales, MonthOf, sorted);
    sorted
  }

  // ---------------------------------------------------------------------
  // Seasonal reports.
  // ---------------------------------------------------------------------

  /** A table keyed by season with distinct keys has at most four rows. */
  lemma AtMostFourSeasons(rows: seq<Row<Season>>)
    requires DistinctKeys(rows)
    ensures |rows| <= 4
  {
    DistinctKeysCount(rows);
    var all := {Winter, Spring, Summer, Autumn};
    assert KeysOf(rows) <= all by {
      forall q | q in KeysOf(rows) ensures q in all { assert q.Winter? || q.Spring? || q.Summer? || q.Autumn?; }
    }
    assert all == KeysOf(rows) + (all - KeysOf(rows));
  }

  /** Total sales per season, largest first; at most one row per season. */
  function SeasonalTrend(sales: seq<Record>): (rows: seq<Row<Season>>)
    ensures IsGrouping(sales, SeasonOf, TotalPriceOf, rows)
    ensures SortedDesc(rows)
    ensures |rows| <= 4
    ensures sales == [] ==> rows == []
  {
    var ranked := Ranked(sales, SeasonOf, TotalPriceOf);
    AtMostFourSeasons(ranked);
    NoRecordsNoRows(sales, SeasonOf, ranked);
    ranked
  }

  /** The seasons of the rows of a (season, product) table. */
  ghost function SeasonsIn(rows: seq<Row<SeasonProduct>>): set<Season>
  {
    set i | 0 <= i < |rows| :: rows[i].key.season
  }

  /** The rows of `groups` that belong to `season`, in their order. */
  function InSeason(groups: seq<Row<SeasonProduct>>, season: Season): (r: seq<Row<SeasonProduct>>)
    ensures forall i :: 0 <= i < |r| ==> r[i] in groups && r[i].key.season == season
    ensures forall j :: 0 <= j < |groups| && groups[j].key.season == season ==> groups[j] in r
  {
    if groups == [] then []
    else
      var rest := InSeason(groups[1..], season);
      assert forall j :: 1 <= j < |groups| ==> groups[j] == groups[1..][j - 1];
      if groups[0].key.season == season then [groups[0]] + rest else rest
  }

  /** The best-selling group of one season, or nothing when the season has no group. */
  function BestIn(groups: seq<Row<SeasonProduct>>, season: Season): (r: seq<Row<SeasonProduct>>)
    ensures |r| <= 1
    ensures forall i :: 0 <= i < |r| ==> r[i] in groups && r[i].key.season == season
    ensures forall i, j :: 0 <= i < |r| && 0 <= j < |groups| && groups[j].key.season == season ==>
              groups[j].total <= r[i].total
    ensures r == [] <==> season !in SeasonsIn(groups)
  {
    var candidates := InSeason(groups, season);
    if candidates == [] then
      assert forall j :: 0 <= j < |groups| ==> groups[j].key.season != season;
      []
    else
      var best := Heaviest(candidates);
      assert season in SeasonsIn(groups) by {
        var j :| 0 <= j < |groups| && groups[j] == candidates[0];
      }
      forall j | 0 <= j < |groups| && groups[j].key.season == season ensures groups[j].total <= best.total {
        var i :| 0 <= i < |candidates| && candidates[i] == groups[j];
      }
      [best]
  }

  ghost predicate StrictlyBySeason(seasons: seq<Season>)
  {
    forall i, j :: 0 <= i < j < |seasons| ==> SeasonRank(seasons[i]) < SeasonRank(seasons[j])
  }

  /** The category order of the season column. */
  const SeasonOrder: seq<Season> := [Winter, Spring, Summer, Autumn]

  lemma SeasonOrderIsStrict()
    ensures StrictlyBySeason(SeasonOrder)
  {
    assert forall i :: 0 <= i < |SeasonOrder| ==> SeasonRank(SeasonOrder[i]) == i;
  }

  /** The best group of each of `seasons` in turn, skipping seasons without groups. */
  function BestFrom(groups: seq<Row<SeasonProduct>>, seasons: seq<Season>): (r: seq<Row<SeasonProduct>>)
    requires StrictlyBySeason(seasons)
    ensures |r| <= |seasons|
    ensures forall i :: 0 <= i < |r| ==> r[i] in groups && r[i].key.season in seasons
    ensures forall i, j :: 0 <= i < j < |r| ==> SeasonRank(r[i].key.season) < SeasonRank(r[j].key.season)
    ensures forall i, j :: 0 <= i < |r| && 0 <= j < |groups| && groups[j].key.season == r[i].key.season ==>
              groups[j].total <= r[i].total
    ensures SeasonsIn(r) <= SeasonsIn(groups)
    ensures forall q :: q in seasons && q in SeasonsIn(groups) ==> q in SeasonsIn(r)
  {
    if seasons == [] then []
    else
      var first := BestIn(groups, seasons[0]);
      var rest := BestFrom(groups, seasons[1..]);
      BestFromStep(groups, seasons, first, rest);
      first + rest
  }

  /** Why the best of the first season, put before the best of the later ones, keeps BestFrom's contract. */
  lemma BestFromStep(groups: seq<Row<SeasonProduct>>, seasons: seq<Season>,
                     first: seq<Row<SeasonProduct>>, rest: seq<Row<SeasonProduct>>)
    requires seasons != [] && StrictlyBySeason(seasons)
    requires |first| <= 1
    requires forall i :: 0 <= i < |first| ==> first[i] in groups && first[i].key.season == seasons[0]
    requires forall i, j :: 0 <= i < |first| && 0 <= j < |groups| && groups[j].key.season == seasons[0] ==>
               groups[j].total <= first[i].total
    requires first == [] <==> seasons[0] !in SeasonsIn(groups)
    requires |rest| <= |seasons| - 1
    requires forall i :: 0 <= i < |rest| ==> rest[i] in groups && rest[i].key.season in seasons[1..]
    requires forall i, j :: 0 <= i < j < |rest| ==> SeasonRank(rest[i].key.season) < SeasonRank(rest[j].key.season)
    requires forall i, j :: 0 <= i < |rest| && 0 <= j < |groups| && groups[j].key.season == rest[i].key.season ==>
               groups[j].total <= rest[i].total
    requires SeasonsIn(rest) <= SeasonsIn(groups)
    requires forall q :: q in seasons[1..] && q in SeasonsIn(groups) ==> q in SeasonsIn(rest)
    ensures var r := first + rest;
      && (forall i :: 0 <= i < |r| ==> r[i] in groups && r[i].key.season in seasons)
      && (forall i, j :: 0 <= i < j < |r| ==> SeasonRank(r[i].key.season) < SeasonRank(r[j].key.season))
      && (forall i, j :: 0 <= i < |r| && 0 <= j < |groups| && groups[j].key.season == r[i].key.season ==>
            groups[j].total <= r[i].total)
      && SeasonsIn(r) <= SeasonsIn(groups)
      && (forall q :: q in seasons && q in SeasonsIn(groups) ==> q in SeasonsIn(r))
  {
    var r := first + rest;
    assert forall k :: 1 <= k < |seasons| ==> seasons[k] == seasons[1..][k - 1];
    assert forall i :: 0 <= i < |first| ==> r[i] == first[i];
    assert forall i :: |first| <= i < |r| ==> r[i] == rest[i - |first|];
    forall i | 0 <= i < |rest| ensures SeasonRank(seasons[0]) < SeasonRank(rest[i].key.season) {
      var k :| 0 <= k < |seasons[1..]| && seasons[1..][k] == rest[i].key.season;
      assert seasons[k + 1] == rest[i].key.season;
    }
    SeasonsInAppend(first, rest);
    if first != [] {
      assert first[0].key.season in SeasonsIn(first);
    }
    forall q | q in seasons && q in SeasonsIn(groups) ensures q in SeasonsIn(r) {
      if q != seasons[0] {
        var k :| 0 <= k < |seasons| && seasons[k] == q;
        assert seasons[1..][k - 1] == q;
      }
    }
  }

  lemma SeasonsInAppend(a: seq<Row<SeasonProduct>>, b: seq<Row<SeasonProduct>>)
    ensures SeasonsIn(a + b) == SeasonsIn(a) + SeasonsIn(b)
  {
    var t := a + b;
    forall q | q in SeasonsIn(t) ensures q in SeasonsIn(a) + SeasonsIn(b) {
      var i :| 0 <= i < |t| && t[i].key.season == q;
      if i < |a| { assert t[i] == a[i]; } else { assert t[i] == b[i - |a|]; }
    }
    forall q | q in SeasonsIn(a) ensures q in SeasonsIn(t) {
      var i :| 0 <= i < |a| && a[i].key.season == q;
      assert t[i] == a[i];
    }
    forall q | q in SeasonsIn(b) ensures q in SeasonsIn(t) {
      var i :| 0 <= i < |b| && b[i].key.season == q;
      assert t[|a| + i] == b[i];
    }
  }

  /**
   * What the best-product-per-season report promises: each row is a
   * (season, product) group that occurs, holding its summed TotalPrice; rows
   * go Winter, Spring, Summer, Autumn with at most one per season; each row's
   * product sold at least as much in its season as any other product; and a
   * season has a row exactly when something was sold in it.
   */
  ghost predicate IsBestPerSeason(sales: seq<Record>, rows: seq<Row<SeasonProduct>>)
  {
    && RowsAreSums(sales, SeasonProductOf, TotalPriceOf, rows)
    && KeysOf(rows) <= KeySet(sales, SeasonProductOf)
    && (forall i, j :: 0 <= i < j < |rows| ==> SeasonRank(rows[i].key.season) < SeasonRank(rows[j].key.season))
    && (forall i, g :: 0 <= i < |rows| && g in KeySet(sales, SeasonProductOf) && g.season == rows[i].key.season ==>
          GroupTotal(sales, SeasonProductOf, TotalPriceOf, g) <= rows[i].total)
    && SeasonsIn(rows) == KeySet(sales, SeasonOf)
  }

  /** The seasons of the (season, product) groups are the seasons in which something sold. */
  lemma GroupSeasons(sales: seq<Record>, groups: seq<Row<SeasonProduct>>)
    requires KeysOf(groups) == KeySet(sales, SeasonProductOf)
    ensures SeasonsIn(groups) == KeySet(sales, SeasonOf)
  {
    forall q | q in SeasonsIn(groups) ensures q in KeySet(sales, SeasonOf) {
      var i :| 0 <= i < |groups| && groups[i].key.season == q;
      assert groups[i].key in KeysOf(groups);
      var n :| 0 <= n < |sales| && SeasonProductOf(sales[n]) == groups[i].key;
    }
    forall q | q in KeySet(sales, SeasonOf) ensures q in SeasonsIn(groups) {
      var n :| 0 <= n < |sales| && SeasonOf(sales[n]) == q;
      assert SeasonProductOf(sales[n]) in KeySet(sales, SeasonProductOf);
      var i :| 0 <= i < |groups| && groups[i].key == SeasonProductOf(sales[n]);
    }
  }

  /** The best-selling product of each season, in the order Winter, Spring, Summer, Autumn. */
  function BestProductPerSeason(sales: seq<Record>): (rows: seq<Row<SeasonProduct>>)
    ensures IsBestPerSeason(sales, rows)
    ensures |rows| <= 4
    ensures sales == [] ==> rows == []
  {
    var groups := GroupSum(sales, SeasonProductOf, TotalPriceOf);
    SeasonOrderIsStrict();
    var best := BestFrom(groups, SeasonOrder);
    BestPerSeasonFacts(sales, groups, best);
    best
  }

  /** Why the best of each of the four seasons, in category order, is the report promised. */
  lemma BestPerSeasonFacts(sales: seq<Record>, groups: seq<Row<SeasonProduct>>, best: seq<Row<SeasonProduct>>)
    requires IsGrouping(sales, SeasonProductOf, TotalPriceOf, groups)
    requires |best| <= 4
    requires forall i :: 0 <= i < |best| ==> best[i] in groups
    requires forall i, j :: 0 <= i < j < |best| ==> SeasonRank(best[i].key.season) < SeasonRank(best[j].key.season)
    requires forall i, j :: 0 <= i < |best| && 0 <= j < |groups| && groups[j].key.season == best[i].key.season ==>
               groups[j].total <= best[i].total
    requires SeasonsIn(best) <= SeasonsIn(groups)
    requires forall q :: q in SeasonOrder && q in SeasonsIn(groups) ==> q in SeasonsIn(best)
    ensures IsBestPerSeason(sales, best)
    ensures sales == [] ==> best == []
  {
    GroupSeasons(sales, groups);
    forall q | q in SeasonsIn(groups) ensures q in SeasonsIn(best) {
      assert q in SeasonOrder by { assert q.Winter? || q.Spring? || q.Summer? || q.Autumn?; }
    }
    BestRowsAreGroups(sales, groups, best);
    NoRecordsNoRows(sales, SeasonProductOf, best);
  }

  /** Rows drawn from a grouping inherit its sums, and a row at least as large as its season's groups beats every group of that season. */
  lemma BestRowsAreGroups(sales: seq<Record>, groups: seq<Row<SeasonProduct>>, best: seq<Row<SeasonProduct>>)
    requires IsGrouping(sales, SeasonProductOf, TotalPriceOf, groups)
    requires forall i :: 0 <= i < |best| ==> best[i] in groups
    requires forall i, j :: 0 <= i < |best| && 0 <= j < |groups| && groups[j].key.season == best[i].key.season ==>
               groups[j].total <= best[i].total
    ensures RowsAreSums(sales, SeasonProductOf, TotalPriceOf, best)
    ensures KeysOf(best) <= KeySet(sales, SeasonProductOf)
    ensures forall i, g :: 0 <= i < |best| && g in KeySet(sales, SeasonProductOf) && g.season == best[i].key.season ==>
              GroupTotal(sales, SeasonProductOf, TotalPriceOf, g) <= best[i].total
  {
    forall i | 0 <= i < |best|
      ensures best[i].total == GroupTotal(sales, SeasonProductOf, TotalPriceOf, best[i].key)
      ensures best[i].key in KeySet(sales, SeasonProductOf)
    {
      var j :| 0 <= j < |groups| && groups[j] == best[i];
      assert groups[j].key in KeysOf(groups);
    }
    forall i, g | 0 <= i < |best| && g in KeySet(sales, SeasonProductOf) && g.season == best[i].key.season
      ensures GroupTotal(sales, SeasonProductOf, TotalPriceOf, g) <= best[i].total
    {
      var j :| 0 <= j < |groups| && groups[j].key == g;
    }
  }
}
