/**
 * The sale records the dashboard reads from its store, the group keys its
 * reports partition them by, the per-record metrics they sum, and the
 * month-to-season mapping of the two seasonal reports.
 */
module Sales {

  /** A calendar month as a parsed timestamp carries it. */
  type Month = m: int | 1 <= m <= 12 witness 1

  /** A sale date, already split into its calendar parts. */
  datatype Date = Date(year: int, month: Month, day: int)

  /** One sale as stored: who bought what, where, how many, and for how much. */
  datatype Record = Record(
    customerId: int, customerName: string,
    productId: int, productName: string,
    branchId: int, branchName: string,
    quantity: nat, price: real, totalPrice: real,
    saleDate: Date)

  datatype CustomerKey = CustomerKey(id: int, name: string)
  datatype ProductKey = ProductKey(id: int, name: string)
  datatype BranchKey = BranchKey(id: int, name: string)
  datatype BranchProductKey = BranchProductKey(branchId: int, branchName: string, productName: string)
  datatype YearMonth = YearMonth(year: int, month: Month)

  datatype Season = Winter | Spring | Summer | Autumn
  datatype SeasonProduct = SeasonProduct(season: Season, product: ProductKey)

  /** Position of a season in the fixed category order Winter < Spring < Summer < Autumn. */
  function SeasonRank(season: Season): (rank: nat)
    ensures rank < 4
  {
    match season
    case Winter => 0
    case Spring => 1
    case Summer => 2
    case Autumn => 3
  }

  /**
   * The season of a month. Every calendar month falls in the quarter
   * (month mod 12) / 3 of the category order, so December opens Winter;
   * anything that is not a calendar month falls through to Autumn.
   */
  function GetSeason(month: int): (season: Season)
    ensures 1 <= month <= 12 ==> SeasonRank(season) == (month % 12) / 3
    ensures !(1 <= month <= 12) ==> season == Autumn
  {
    if month in [12, 1, 2] then Winter
    else if month in [3, 4, 5] then Spring
    else if month in [6, 7, 8] then Summer
    else Autumn
  }

  /** The season table month by month, spelled out. */
  lemma SeasonTable(month: Month)
    ensures GetSeason(month) == Winter <==> month == 12 || month == 1 || month == 2
    ensures GetSeason(month) == Spring <==> month == 3 || month == 4 || month == 5
    ensures GetSeason(month) == Summer <==> month == 6 || month == 7 || month == 8
    ensures GetSeason(month) == Autumn <==> month == 9 || month == 10 || month == 11
  {
  }

  // Group keys of the reports.

  function CustomerOf(x: Record): CustomerKey { CustomerKey(x.customerId, x.customerName) }
  function ProductOf(x: Record): ProductKey { ProductKey(x.productId, x.productName) }
  function BranchOf(x: Record): BranchKey { BranchKey(x.branchId, x.branchName) }
  function BranchProductOf(x: Record): BranchProductKey { BranchProductKey(x.branchId, x.branchName, x.productName) }

  /** The monthly period of a sale: its year and month, with the day dropped. */
  function MonthOf(x: Record): YearMonth
  {
    YearMonth(x.saleDate.year, x.saleDate.month)
  }

  /** Two sales fall in the same monthly period exactly when they share year and month. */
  lemma SameMonthPeriod(x: Record, y: Record)
    ensures MonthOf(x) == MonthOf(y) <==> x.saleDate.year == y.saleDate.year && x.saleDate.month == y.saleDate.month
  {
  }

  /** The season of a sale, from the month of its date. */
  function SeasonOf(x: Record): (season: Season)
    ensures SeasonRank(season) == (x.saleDate.month % 12) / 3
  {
    GetSeason(x.saleDate.month)
  }

  function SeasonProductOf(x: Record): SeasonProduct { SeasonProduct(SeasonOf(x), ProductOf(x)) }

  // Per-record metrics of the reports.

  function TotalPriceOf(x: Record): real { x.totalPrice }
  function QuantityOf(x: Record): real { x.quantity as real }

  /** Branch revenue of one sale: its quantity times its unit price, not the stored total. */
  function RevenueOf(x: Record): real
  {
    x.quantity as real * x.price
  }

  /** Revenue of a sale does not depend on the total stored with it. */
  lemma RevenueIgnoresStoredTotal(x: Record, total: real)
    ensures RevenueOf(x.(totalPrice := total)) == RevenueOf(x)
  {
  }
}
