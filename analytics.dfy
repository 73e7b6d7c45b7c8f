/** The sales analytics and recommendation engine (analytics.py): read-only
    reports derived from a snapshot of the ledger.  The clock is the
    parameter `now`. */
module Analytics {
  import opened Values
  import opened Ledger

  // ---------------------------------------------------------------------
  // Sales trend: the recent per-date totals

  /** The records dated on or after `now - periodDays` days. */
  function Recent(ledger: seq<SalesRecord>, now: Instant, periodDays: int): (w: seq<SalesRecord>)
    ensures forall r :: r in w <==> r in ledger && Midnight(r.date) >= AddDays(now, -periodDays)
  {
    Where(ledger, (r: SalesRecord) => Midnight(r.date) >= AddDays(now, -periodDays))
  }

  /** `get_sales_trends`: per-date sums of quantity sold, revenue and waste
      over the recent records, ascending by date. */
  function SalesTrends(ledger: seq<SalesRecord>, now: Instant, periodDays: int): (rows: seq<DailyRow>)
    ensures forall i, j :: 0 <= i < j < |rows| ==> rows[i].date < rows[j].date
    ensures forall i :: 0 <= i < |rows| ==> rows[i] == DailyRowFor(Recent(ledger, now, periodDays), rows[i].date)
  {
    DailyTotals(Recent(ledger, now, periodDays))
  }

  /** Every recent record's date has its row, and every row's date is the
      date of some recent record; on a day basis the window starts at the
      day `periodDays` before today. */
  lemma SalesTrendsCoverWindow(ledger: seq<SalesRecord>, now: Instant, periodDays: int)
    ensures forall r :: r in ledger && Midnight(r.date) >= AddDays(now, -periodDays) ==>
      exists i :: 0 <= i < |SalesTrends(ledger, now, periodDays)| && SalesTrends(ledger, now, periodDays)[i].date == r.date
    ensures forall i :: 0 <= i < |SalesTrends(ledger, now, periodDays)| ==>
      exists r :: r in ledger && r.date == SalesTrends(ledger, now, periodDays)[i].date
                 && Midnight(r.date) >= AddDays(now, -periodDays)
    ensures forall i :: 0 <= i < |SalesTrends(ledger, now, periodDays)| ==>
      SalesTrends(ledger, now, periodDays)[i].date >= DayOf(now) - periodDays
  {
    var w := Recent(ledger, now, periodDays);
    var rows := SalesTrends(ledger, now, periodDays);
    var ds := Dates(w);
    forall r | r in ledger && Midnight(r.date) >= AddDays(now, -periodDays)
      ensures exists i :: 0 <= i < |rows| && rows[i].date == r.date
    {
      assert r in w;
      assert r.date in ds;
      var i :| 0 <= i < |ds| && ds[i] == r.date;
      assert rows[i].date == r.date;
    }
    forall i | 0 <= i < |rows|
      ensures exists r :: r in ledger && r.date == rows[i].date && Midnight(r.date) >= AddDays(now, -periodDays)
      ensures rows[i].date >= DayOf(now) - periodDays
    {
      assert rows[i].date == ds[i] && ds[i] in ds;
      var r :| r in w && r.date == ds[i];
      WindowByDay(r.date, now, periodDays);
    }
  }

  /** The trend's columns add up to the totals over the recent records. */
  lemma SalesTrendsConserve(ledger: seq<SalesRecord>, now: Instant, periodDays: int, m: Measure)
    requires m != WasteCost
    ensures ColumnTotal(SalesTrends(ledger, now, periodDays), m) == Total(Recent(ledger, now, periodDays), m)
  {
    DailyTotalsConserve(Recent(ledger, now, periodDays), m);
  }

  // ---------------------------------------------------------------------
  // Per-item tables

  function ItemOf(r: SalesRecord): string {
    r.menuItem
  }

  /** The distinct menu items of the ledger. */
  function Items(ledger: seq<SalesRecord>): (items: seq<string>)
    ensures NoDuplicates(items)
    ensures forall x :: x in items <==> exists r :: r in ledger && r.menuItem == x
  {
    var names := seq(|ledger|, i requires 0 <= i < |ledger| => ledger[i].menuItem);
    assert forall x :: x in names <==> exists r :: r in ledger && r.menuItem == x by {
      forall x ensures x in names <==> exists r :: r in ledger && r.menuItem == x {
        if x in names {
          var i :| 0 <= i < |names| && names[i] == x;
          assert ledger[i] in ledger;
        }
        if exists r :: r in ledger && r.menuItem == x {
          var r :| r in ledger && r.menuItem == x;
          var i :| 0 <= i < |ledger| && ledger[i] == r;
          assert names[i] == x;
        }
      }
    }
    Distinct(names)
  }

  /** One row of `get_menu_performance`. */
  datatype PerformanceRow = PerformanceRow(
    menuItem: string,
    totalSold: real,
    avgDailySold: Ratio,
    totalRevenue: real,
    totalWaste: real,
    totalWasteCost: real,
    wastePercentage: Ratio,
    profitability: real)

  function PerformanceRowFor(ledger: seq<SalesRecord>, item: string): (row: PerformanceRow)
    ensures row.menuItem == item
    ensures row.profitability == row.totalRevenue - row.totalWasteCost
    ensures row.wastePercentage == Percentage(row.totalWaste, row.totalSold)
    ensures row.avgDailySold.Finite? <==> exists r :: r in ledger && r.menuItem == item
  {
    var g := Group(ledger, ItemOf, item);
    var sold, revenue := Total(g, QuantitySold), Total(g, Revenue);
    var waste, wasteCost := Total(g, WasteQuantity), Total(g, WasteCost);
    PerformanceRow(item, sold, Mean(sold, |g|), revenue, waste, wasteCost,
                   Percentage(waste, sold), revenue - wasteCost)
  }

  function PerformanceRows(ledger: seq<SalesRecord>, items: seq<string>): (rows: seq<PerformanceRow>)
    ensures |rows| == |items|
    ensures forall k :: 0 <= k < |items| ==> rows[k] == PerformanceRowFor(ledger, items[k])
  {
    if items == [] then [] else [PerformanceRowFor(ledger, items[0])] + PerformanceRows(ledger, items[1..])
  }

  function DescendingProfitability(row: PerformanceRow): real {
    -row.profitability
  }

  function Profitability(row: PerformanceRow): real {
    row.profitability
  }

  /** `get_menu_performance`: the per-item table, highest profitability first. */
  function MenuPerformance(ledger: seq<SalesRecord>): (rows: seq<PerformanceRow>)
    ensures forall i, j :: 0 <= i < j < |rows| ==> rows[i].profitability >= rows[j].profitability
    ensures multiset(rows) == multiset(PerformanceRows(ledger, Items(ledger)))
  {
    SortBy(PerformanceRows(ledger, Items(ledger)), DescendingProfitability)
  }

  /** Every row of the performance table holds the figures of its own item,
      an item that occurs in the ledger. */
  lemma MenuPerformanceRowsAreItemRows(ledger: seq<SalesRecord>, i: int)
    requires 0 <= i < |MenuPerformance(ledger)|
    ensures MenuPerformance(ledger)[i] == PerformanceRowFor(ledger, MenuPerformance(ledger)[i].menuItem)
    ensures exists r :: r in ledger && r.menuItem == MenuPerformance(ledger)[i].menuItem
  {
    var items := Items(ledger);
    var unsorted := PerformanceRows(ledger, items);
    var k := RowOfPermutation(unsorted, MenuPerformance(ledger), i);
    assert items[k] in items;
  }

  /** Every menu item of the ledger has a row in the performance table. */
  lemma MenuPerformanceCoversItems(ledger: seq<SalesRecord>, r: SalesRecord)
    requires r in ledger
    ensures exists i :: 0 <= i < |MenuPerformance(ledger)| && MenuPerformance(ledger)[i].menuItem == r.menuItem
  {
    var items := Items(ledger);
    var unsorted := PerformanceRows(ledger, items);
    var rows := MenuPerformance(ledger);
    PermutedKeyedRows(unsorted, rows, items, MenuItemOf);
    assert r.menuItem in items;
    var k :| 0 <= k < |items| && items[k] == r.menuItem;
    var i :| 0 <= i < |rows| && rows[i] == unsorted[k];
  }

  /** No item has two rows in the performance table. */
  lemma MenuPerformanceItemsDistinct(ledger: seq<SalesRecord>)
    ensures forall i, j :: 0 <= i < j < |MenuPerformance(ledger)| ==>
      MenuPerformance(ledger)[i].menuItem != MenuPerformance(ledger)[j].menuItem
  {
    var items := Items(ledger);
    PermutedKeyedRows(PerformanceRows(ledger, items), MenuPerformance(ledger), items, MenuItemOf);
  }

  function MenuItemOf(row: PerformanceRow): string {
    row.menuItem
  }

  /** What a row means: the item's sums, profitability as revenue less
      waste cost, the waste percentage as waste over sold units, and a
      finite average since a listed item has at least one record. */
  lemma PerformanceRowMeaning(ledger: seq<SalesRecord>, item: string)
    requires exists r :: r in ledger && r.menuItem == item
    ensures var row := PerformanceRowFor(ledger, item);
      var g := Group(ledger, ItemOf, item);
      && row.totalSold == Total(g, QuantitySold)
      && row.totalRevenue == Total(g, Revenue)
      && row.totalWaste == Total(g, WasteQuantity)
      && row.totalWasteCost == Total(g, WasteCost)
      && row.profitability == row.totalRevenue - row.totalWasteCost
      && row.wastePercentage == Percentage(row.totalWaste, row.totalSold)
      && row.avgDailySold.Finite? && row.avgDailySold == Mean(row.totalSold, |g|)
  {
    var r :| r in ledger && r.menuItem == item;
    assert r in Group(ledger, ItemOf, item);
  }

  lemma {:induction false} PerformanceRowsProfit(ledger: seq<SalesRecord>, items: seq<string>)
    ensures SumBy(PerformanceRows(ledger, items), Profitability)
         == GroupsTotal(ledger, ItemOf, items, Revenue) - GroupsTotal(ledger, ItemOf, items, WasteCost)
  {
    if items != [] {
      var rows := PerformanceRows(ledger, items);
      assert rows[1..] == PerformanceRows(ledger, items[1..]);
      PerformanceRowsProfit(ledger, items[1..]);
    }
  }

  /** Summed over the table, profitability is total revenue less total
      waste cost. */
  lemma ProfitabilityAddsUp(ledger: seq<SalesRecord>)
    ensures SumBy(MenuPerformance(ledger), Profitability) == Total(ledger, Revenue) - Total(ledger, WasteCost)
  {
    var items := Items(ledger);
    SortKeepsSum(PerformanceRows(ledger, items), DescendingProfitability, Profitability);
    PerformanceRowsProfit(ledger, items);
    assert forall r :: r in ledger ==> ItemOf(r) in items;
    TotalByGroups(ledger, ItemOf, items, Revenue);
    TotalByGroups(ledger, ItemOf, items, WasteCost);
  }

  /** One row of `get_waste_analysis`. */
  datatype WasteRow = WasteRow(
    menuItem: string,
    wasteQuantity: real,
    wasteCost: real,
    quantitySold: real,
    wastePercentage: Ratio)

  function WasteRowFor(ledger: seq<SalesRecord>, item: string): (row: WasteRow)
    ensures row.menuItem == item
    ensures row.wastePercentage == Percentage(row.wasteQuantity, row.quantitySold)
  {
    var g := Group(ledger, ItemOf, item);
    var waste, sold := Total(g, WasteQuantity), Total(g, QuantitySold);
    WasteRow(item, waste, Total(g, WasteCost), sold, Percentage(waste, sold))
  }

  function WasteRows(ledger: seq<SalesRecord>, items: seq<string>): (rows: seq<WasteRow>)
    ensures |rows| == |items|
    ensures forall k :: 0 <= k < |items| ==> rows[k] == WasteRowFor(ledger, items[k])
  {
    if items == [] then [] else [WasteRowFor(ledger, items[0])] + WasteRows(ledger, items[1..])
  }

  function DescendingWasteCost(row: WasteRow): real {
    -row.wasteCost
  }

  function WasteCostOf(row: WasteRow): real {
    row.wasteCost
  }

  /** `get_waste_analysis`: the per-item waste table, costliest first. */
  function WasteAnalysis(ledger: seq<SalesRecord>): (rows: seq<WasteRow>)
    ensures forall i, j :: 0 <= i < j < |rows| ==> rows[i].wasteCost >= rows[j].wasteCost
    ensures multiset(rows) == multiset(WasteRows(ledger, Items(ledger)))
  {
    SortBy(WasteRows(ledger, Items(ledger)), DescendingWasteCost)
  }

  /** Every row of the waste table holds the figures of its own item,
      an item that occurs in the ledger. */
  lemma WasteAnalysisRowsAreItemRows(ledger: seq<SalesRecord>, i: int)
    requires 0 <= i < |WasteAnalysis(ledger)|
    ensures WasteAnalysis(ledger)[i] == WasteRowFor(ledger, WasteAnalysis(ledger)[i].menuItem)
    ensures exists r :: r in ledger && r.menuItem == WasteAnalysis(ledger)[i].menuItem
  {
    var items := Items(ledger);
    var unsorted := WasteRows(ledger, items);
    var k := RowOfPermutation(unsorted, WasteAnalysis(ledger), i);
    assert items[k] in items;
  }

  /** Every menu item of the ledger has a row in the waste table. */
  lemma WasteAnalysisCoversItems(ledger: seq<SalesRecord>, r: SalesRecord)
    requires r in ledger
    ensures exists i :: 0 <= i < |WasteAnalysis(ledger)| && WasteAnalysis(ledger)[i].menuItem == r.menuItem
  {
    var items := Items(ledger);
    var unsorted := WasteRows(ledger, items);
    var rows := WasteAnalysis(ledger);
    PermutedKeyedRows(unsorted, rows, items, WasteItemOf);
    assert r.menuItem in items;
    var k :| 0 <= k < |items| && items[k] == r.menuItem;
    var i :| 0 <= i < |rows| && rows[i] == unsorted[k];
  }

  /** No item has two rows in the waste table. */
  lemma WasteAnalysisItemsDistinct(ledger: seq<SalesRecord>)
    ensures forall i, j :: 0 <= i < j < |WasteAnalysis(ledger)| ==>
      WasteAnalysis(ledger)[i].menuItem != WasteAnalysis(ledger)[j].menuItem
  {
    var items := Items(ledger);
    PermutedKeyedRows(WasteRows(ledger, items), WasteAnalysis(ledger), items, WasteItemOf);
  }

  function WasteItemOf(row: WasteRow): string {
    row.menuItem
  }

  lemma {:induction false} WasteRowsCost(ledger: seq<SalesRecord>, items: seq<string>)
    ensures SumBy(WasteRows(ledger, items), WasteCostOf) == GroupsTotal(ledger, ItemOf, items, WasteCost)
  {
    if items != [] {
      var rows := WasteRows(ledger, items);
      assert rows[1..] == WasteRows(ledger, items[1..]);
      WasteRowsCost(ledger, items[1..]);
    }
  }

  /** The waste table accounts for all the waste cost of the ledger. */
  lemma WasteCostAddsUp(ledger: seq<SalesRecord>)
    ensures SumBy(WasteAnalysis(ledger), WasteCostOf) == Total(ledger, WasteCost)
  {
    var items := Items(ledger);
    SortKeepsSum(WasteRows(ledger, items), DescendingWasteCost, WasteCostOf);
    WasteRowsCost(ledger, items);
    assert forall r :: r in ledger ==> ItemOf(r) in items;
    TotalByGroups(ledger, ItemOf, items, WasteCost);
  }

  // ---------------------------------------------------------------------
  // Weekday patterns

  /** One row of `get_daily_patterns`: the means over one weekday's records. */
  datatype PatternRow = PatternRow(dayOfWeek: string, quantitySold: Ratio, revenue: Ratio, wasteQuantity: Ratio)

  function DayNameOf(r: SalesRecord): string {
    r.dayOfWeek
  }

  /** The position of a weekday name in the Monday-to-Sunday order (the
      ordered categorical); 7 for any other text. */
  function DayIndex(name: string): (k: nat)
    ensures k <= 7
    ensures k < 7 ==> WeekdayNames[k] == name
  {
    if name == "Monday" then 0
    else if name == "Tuesday" then 1
    else if name == "Wednesday" then 2
    else if name == "Thursday" then 3
    else if name == "Friday" then 4
    else if name == "Saturday" then 5
    else if name == "Sunday" then 6
    else 7
  }

  function PatternRowFor(ledger: seq<SalesRecord>, name: string): (row: PatternRow)
    ensures row.dayOfWeek == name
    ensures row.quantitySold.Finite? <==> exists r :: r in ledger && r.dayOfWeek == name
  {
    var g := Group(ledger, DayNameOf, name);
    PatternRow(name, Mean(Total(g, QuantitySold), |g|), Mean(Total(g, Revenue), |g|),
               Mean(Total(g, WasteQuantity), |g|))
  }

  /** Whether some record carries the name of weekday `d`. */
  predicate DayOccurs(ledger: seq<SalesRecord>, d: nat)
    requires d < 7
  {
    exists r :: r in ledger && r.dayOfWeek == WeekdayNames[d]
  }

  /** The weekdays from `k` on that occur in the data, in calendar order. */
  function OccurringDays(ledger: seq<SalesRecord>, k: nat): (ds: seq<nat>)
    requires k <= 7
    ensures |ds| <= 7 - k
    ensures forall i :: 0 <= i < |ds| ==> k <= ds[i] < 7
    ensures forall i, j :: 0 <= i < j < |ds| ==> ds[i] < ds[j]
    ensures forall d :: k <= d < 7 ==> (d in ds <==> DayOccurs(ledger, d))
    decreases 7 - k
  {
    if k == 7 then [] else (if DayOccurs(ledger, k) then [k] else []) + OccurringDays(ledger, k + 1)
  }

  lemma WeekdayNamesIndexed()
    ensures forall d :: 0 <= d < 7 ==> DayIndex(WeekdayNames[d]) == d
    ensures NoDuplicates(WeekdayNames)
  {
    assert forall d :: 0 <= d < 7 ==> DayIndex(WeekdayNames[d]) == d;
  }

  lemma WeekdayNameAt(d: nat)
    requires d < 7
    ensures DayIndex(WeekdayNames[d]) == d
  {
  }

  lemma DayRowsIndexed(ds: seq<nat>)
    requires forall i :: 0 <= i < |ds| ==> ds[i] < 7
    ensures forall i :: 0 <= i < |ds| ==> WeekdayNames[ds[i]] in WeekdayNames && DayIndex(WeekdayNames[ds[i]]) == ds[i]
  {
    forall i | 0 <= i < |ds| ensures WeekdayNames[ds[i]] in WeekdayNames && DayIndex(WeekdayNames[ds[i]]) == ds[i] {
      WeekdayNameAt(ds[i]);
    }
  }

  /** The rows for the given weekday numbers, in that order. */
  function DayRows(ledger: seq<SalesRecord>, ds: seq<nat>): (rows: seq<PatternRow>)
    requires forall i :: 0 <= i < |ds| ==> ds[i] < 7
    ensures |rows| == |ds|
    ensures forall i :: 0 <= i < |ds| ==> rows[i] == PatternRowFor(ledger, WeekdayNames[ds[i]])
  {
    seq(|ds|, i requires 0 <= i < |ds| => PatternRowFor(ledger, WeekdayNames[ds[i]]))
  }

  /** `get_daily_patterns`: one row of means per weekday that occurs in the
      data, in calendar order (`DailyPatternsOrdered`). */
  function DailyPatterns(ledger: seq<SalesRecord>): (rows: seq<PatternRow>)
    ensures |rows| <= 7
  {
    DayRows(ledger, OccurringDays(ledger, 0))
  }

  /** Every row is for a weekday name, and the rows run Monday first, each
      weekday after the ones before it. */
  lemma DailyPatternsOrdered(ledger: seq<SalesRecord>)
    ensures var rows := DailyPatterns(ledger);
      && (forall i :: 0 <= i < |rows| ==> rows[i].dayOfWeek in WeekdayNames)
      && (forall i, j :: 0 <= i < j < |rows| ==> DayIndex(rows[i].dayOfWeek) < DayIndex(rows[j].dayOfWeek))
  {
    var ds := OccurringDays(ledger, 0);
    var rows := DailyPatterns(ledger);
    assert rows == DayRows(ledger, ds);
    DayRowsIndexed(ds);
    forall i | 0 <= i < |rows| ensures rows[i].dayOfWeek == WeekdayNames[ds[i]] {
    }
  }

  lemma DailyPatternsAt(ledger: seq<SalesRecord>, i: int)
    requires 0 <= i < |DailyPatterns(ledger)|
    ensures |DailyPatterns(ledger)| == |OccurringDays(ledger, 0)|
    ensures DailyPatterns(ledger)[i] == PatternRowFor(ledger, WeekdayNames[OccurringDays(ledger, 0)[i]])
  {
  }

  /** A weekday has a row exactly when some record carries its name, and
      its row holds the means over that weekday's records. */
  lemma DailyPatternsComplete(ledger: seq<SalesRecord>, d: nat)
    requires d < 7
    ensures (exists i :: 0 <= i < |DailyPatterns(ledger)| && DailyPatterns(ledger)[i].dayOfWeek == WeekdayNames[d])
        <==> DayOccurs(ledger, d)
    ensures forall i :: 0 <= i < |DailyPatterns(ledger)| && DailyPatterns(ledger)[i].dayOfWeek == WeekdayNames[d] ==>
      DailyPatterns(ledger)[i] == PatternRowFor(ledger, WeekdayNames[d])
  {
    var rows := DailyPatterns(ledger);
    if DayOccurs(ledger, d) {
      var i := DayRowFor(ledger, d);
    }
    forall i | 0 <= i < |rows| && rows[i].dayOfWeek == WeekdayNames[d]
      ensures DayOccurs(ledger, d) && rows[i] == PatternRowFor(ledger, WeekdayNames[d])
    {
      RowIsForDay(ledger, d, i);
    }
  }

  /** The row of an occurring weekday. */
  lemma DayRowFor(ledger: seq<SalesRecord>, d: nat) returns (i: nat)
    requires d < 7 && DayOccurs(ledger, d)
    ensures i < |DailyPatterns(ledger)| && DailyPatterns(ledger)[i].dayOfWeek == WeekdayNames[d]
  {
    var ds := OccurringDays(ledger, 0);
    i :| 0 <= i < |ds| && ds[i] == d;
    DailyPatternsAt(ledger, i);
  }

  /** A row named after weekday `d` is that weekday's row. */
  lemma RowIsForDay(ledger: seq<SalesRecord>, d: nat, i: int)
    requires d < 7
    requires 0 <= i < |DailyPatterns(ledger)| && DailyPatterns(ledger)[i].dayOfWeek == WeekdayNames[d]
    ensures DayOccurs(ledger, d) && DailyPatterns(ledger)[i] == PatternRowFor(ledger, WeekdayNames[d])
  {
    var ds := OccurringDays(ledger, 0);
    DailyPatternsAt(ledger, i);
    WeekdayNameAt(d);
    WeekdayNameAt(ds[i]);
    assert ds[i] == d;
  }

  // ---------------------------------------------------------------------
  // Demand forecast

  /** How far back `forecast_demand` looks, and the moving-average window. */
  const ForecastHistoryDays: int := 30
  const MovingAverageDays: nat := 7

  function SumOf(xs: seq<real>): real {
    if xs == [] then 0.0 else xs[0] + SumOf(xs[1..])
  }

  /** The quantity column of a per-date table. */
  function Quantities(rows: seq<DailyRow>): (qs: seq<real>)
    ensures |qs| == |rows|
    ensures forall i :: 0 <= i < |rows| ==> qs[i] == rows[i].quantitySold
  {
    seq(|rows|, i requires 0 <= i < |rows| => rows[i].quantitySold)
  }

  /** `tail(7).mean()`: the mean of the last seven values, NaN when there
      are none. */
  function MovingAverage(qs: seq<real>): (m: Ratio)
    ensures m.Finite? <==> qs != []
  {
    var week := Last(qs, MovingAverageDays);
    Mean(SumOf(week), |week|)
  }

  /** The level every forecast day gets: the moving average of the per-date
      quantities sold over the last thirty days. */
  function ForecastLevel(ledger: seq<SalesRecord>, now: Instant): (level: Ratio)
    ensures level.Finite? <==> Recent(ledger, now, ForecastHistoryDays) != []
  {
    var w := Recent(ledger, now, ForecastHistoryDays);
    assert w != [] ==> w[0] in w && w[0].date in Dates(w);
    MovingAverage(Quantities(DailyTotals(Recent(ledger, now, ForecastHistoryDays))))
  }

  /** One row of the forecast table. */
  datatype ForecastEntry = ForecastEntry(date: Instant, forecastedDemand: int, dayOfWeek: string)

  /** `int()` of a NaN level raises. */
  datatype ForecastError = NaNToInteger

  /** The entry for the `i`-th day after `now` (counting from 0). */
  function ForecastEntryAt(now: Instant, i: int, level: real): ForecastEntry {
    var date := AddDays(now, i + 1);
    ForecastEntry(date, TruncateToInt(level), DayName(DayOf(date)))
  }

  /** `forecast_demand(days)`: one entry for each of the next `days` days,
      all with the truncated moving average; converting a NaN level fails
      on the first entry, so an empty history fails only when at least one
      day is asked for. */
  method ForecastDemand(ledger: seq<SalesRecord>, now: Instant, days: int)
    returns (result: Result<seq<ForecastEntry>, ForecastError>)
    ensures days <= 0 ==> result == Success([])
    ensures days > 0 && !ForecastLevel(ledger, now).Finite? ==> result == Failure(NaNToInteger)
    ensures days > 0 && ForecastLevel(ledger, now).Finite? ==>
      result.Success? && |result.value| == days
      && forall i :: 0 <= i < days ==> result.value[i] == ForecastEntryAt(now, i, ForecastLevel(ledger, now).value)
  {
    var level := ForecastLevel(ledger, now);
    result := Project(now, level, days);
  }

  /** The loop of `forecast_demand`: project `level` onto each of the next
      `days` days. */
  method Project(now: Instant, level: Ratio, days: int)
    returns (result: Result<seq<ForecastEntry>, ForecastError>)
    ensures days <= 0 ==> result == Success([])
    ensures days > 0 && !level.Finite? ==> result == Failure(NaNToInteger)
    ensures days > 0 && level.Finite? ==>
      result.Success? && |result.value| == days
      && forall i :: 0 <= i < days ==> result.value[i] == ForecastEntryAt(now, i, level.value)
  {
    var entries: seq<ForecastEntry> := [];
    var i := 0;
    while i < days
      invariant 0 <= i && (days > 0 ==> i <= days) && (days <= 0 ==> i == 0)
      invariant i > 0 ==> level.Finite?
      invariant |entries| == i
      invariant forall k :: 0 <= k < i ==> entries[k] == ForecastEntryAt(now, k, level.value)
    {
      if !level.Finite? {
        return Failure(NaNToInteger);
      }
      entries := entries + [ForecastEntryAt(now, i, level.value)];
      i := i + 1;
    }
    return Success(entries);
  }

  /** Entry `i` falls `i + 1` days after today at the same time of day, and
      is named after that day, so the names cycle through the week. */
  lemma ForecastEntryDay(now: Instant, i: int, level: real)
    ensures DayOf(ForecastEntryAt(now, i, level).date) == DayOf(now) + i + 1
    ensures ForecastEntryAt(now, i, level).date % MicrosPerDay == now % MicrosPerDay
    ensures ForecastEntryAt(now, i, level).dayOfWeek == WeekdayNames[(Weekday(DayOf(now)) + i + 1) % 7]
  {
    DayOfAddDays(now, i + 1);
  }

  /** The forecast level is undefined exactly when no record falls in the
      thirty-day window. */
  lemma ForecastLevelUndefinedIffNoHistory(ledger: seq<SalesRecord>, now: Instant)
    ensures !ForecastLevel(ledger, now).Finite?
        <==> forall r :: r in ledger ==> Midnight(r.date) < AddDays(now, -ForecastHistoryDays)
  {
    var w := Recent(ledger, now, ForecastHistoryDays);
    if w != [] {
      assert w[0] in w;
      assert w[0].date in Dates(w);
    }
    if exists r :: r in ledger && Midnight(r.date) >= AddDays(now, -ForecastHistoryDays) {
      var r :| r in ledger && Midnight(r.date) >= AddDays(now, -ForecastHistoryDays);
      assert r in w;
    }
  }

  lemma {:induction false} SumOfBounds(xs: seq<real>, lo: real, hi: real)
    requires forall i :: 0 <= i < |xs| ==> lo <= xs[i] <= hi
    ensures |xs| as real * lo <= SumOf(xs) <= |xs| as real * hi
  {
    if xs != [] {
      SumOfBounds(xs[1..], lo, hi);
    }
  }

  /** The moving average lies between the smallest and the largest of the
      daily quantities. */
  lemma MovingAverageBounds(qs: seq<real>, lo: real, hi: real)
    requires qs != []
    requires forall i :: 0 <= i < |qs| ==> lo <= qs[i] <= hi
    ensures lo <= MovingAverage(qs).value <= hi
  {
    var week := Last(qs, MovingAverageDays);
    forall i | 0 <= i < |week| ensures lo <= week[i] <= hi {
      assert week[i] == qs[|qs| - |week| + i];
    }
    MeanOfBounded(week, lo, hi);
  }

  lemma MeanOfBounded(xs: seq<real>, lo: real, hi: real)
    requires xs != []
    requires forall i :: 0 <= i < |xs| ==> lo <= xs[i] <= hi
    ensures lo <= Mean(SumOf(xs), |xs|).value <= hi
  {
    SumOfBounds(xs, lo, hi);
    MeanBetween(SumOf(xs), |xs|, lo, hi);
  }

  lemma MeanBetween(total: real, n: nat, lo: real, hi: real)
    requires n > 0
    requires n as real * lo <= total <= n as real * hi
    ensures lo <= Mean(total, n).value <= hi
  {
    var v := Mean(total, n).value;
    MeanTimesCount(total, n);
    var m := n as real;
    assert (v - lo) * m == total - m * lo;
    assert (hi - v) * m == m * hi - total;
    NonNegativeFactor(v - lo, m);
    NonNegativeFactor(hi - v, m);
  }

  lemma NonNegativeFactor(x: real, m: real)
    requires m > 0.0 && x * m >= 0.0
    ensures x >= 0.0
  {
  }

  /** Only the last seven days count: a week rising from 10 to 70 averages
      40, whatever came before it. */
  lemma MovingAverageOfLastWeek()
    ensures MovingAverage([500.0, 10.0, 20.0, 30.0, 40.0, 50.0, 60.0, 70.0]) == Finite(40.0)
  {
    var qs := [500.0, 10.0, 20.0, 30.0, 40.0, 50.0, 60.0, 70.0];
    var week := [10.0, 20.0, 30.0, 40.0, 50.0, 60.0, 70.0];
    assert Last(qs, MovingAverageDays) == week;
    assert SumOf(week[6..]) == 70.0;
    assert SumOf(week[5..]) == 130.0;
    assert SumOf(week[4..]) == 180.0;
    assert SumOf(week[3..]) == 220.0;
    assert SumOf(week[2..]) == 250.0;
    assert SumOf(week[1..]) == 270.0;
    assert SumOf(week) == 280.0;
  }

  // ---------------------------------------------------------------------
  // Recommendations

  /** Item and overall waste above this percentage are flagged. */
  const WasteAlertPercent: real := 15.0
  /** At most this many low-profitability items are reported. */
  const LowProfitLimit: nat := 2

  datatype Severity = Warning | Info | Critical

  /** One recommendation; the message and action texts are fixed templates
      around these fields. */
  datatype Recommendation =
    | HighWaste(menuItem: string, wastePercentage: Ratio)
    | LowProfitability(menuItem: string)
    | HighOverallWaste(wastePercentage: Ratio)

  function SeverityOf(rec: Recommendation): Severity {
    match rec
    case HighWaste(_, _) => Warning
    case LowProfitability(_) => Info
    case HighOverallWaste(_) => Critical
  }

  function Rank(s: Severity): nat {
    match s
    case Warning => 0
    case Info => 1
    case Critical => 2
  }

  /** A warning for each waste row above the threshold, in table order. */
  function WasteWarnings(rows: seq<WasteRow>): (recs: seq<Recommendation>)
    ensures |recs| <= |rows|
    ensures forall i :: 0 <= i < |recs| ==> recs[i].HighWaste?
  {
    if rows == [] then []
    else
      var row := rows[|rows| - 1];
      WasteWarnings(rows[..|rows| - 1])
      + (if Exceeds(row.wastePercentage, WasteAlertPercent) then [HighWaste(row.menuItem, row.wastePercentage)] else [])
  }

  /** A waste row over the alert threshold. */
  predicate Warned(row: WasteRow) {
    Exceeds(row.wastePercentage, WasteAlertPercent)
  }

  /** The warnings follow the waste table: the `i`-th warning is for the
      `i`-th row over the threshold, and there is one per such row. */
  lemma {:induction false} WasteWarningsInOrder(rows: seq<WasteRow>)
    ensures var ks := Positions(rows, Warned);
      && |WasteWarnings(rows)| == |ks|
      && forall i :: 0 <= i < |ks| ==>
           WasteWarnings(rows)[i] == HighWaste(rows[ks[i]].menuItem, rows[ks[i]].wastePercentage)
  {
    if rows != [] {
      var init := rows[..|rows| - 1];
      WasteWarningsInOrder(init);
      var ks := Positions(init, Warned);
      assert forall i :: 0 <= i < |ks| ==> init[ks[i]] == rows[ks[i]];
    }
  }

  /** A warning names exactly the rows over the threshold. */
  lemma {:induction false} WasteWarningsExact(rows: seq<WasteRow>, rec: Recommendation)
    ensures rec in WasteWarnings(rows)
        <==> exists row :: row in rows && rec == HighWaste(row.menuItem, row.wastePercentage)
                           && Exceeds(row.wastePercentage, WasteAlertPercent)
  {
    if rows != [] {
      var init := rows[..|rows| - 1];
      WasteWarningsExact(init, rec);
      assert rows == init + [rows[|rows| - 1]];
      assert forall row :: row in rows <==> row in init || row == rows[|rows| - 1];
    }
  }

  function Itself(x: real): real {
    x
  }

  /** The value a quarter of the way along an ascending list, interpolated
      linearly between the two nearest positions. */
  function QuarterPoint(v: seq<real>): real
    requires v != []
  {
    var k := (|v| - 1) / 4;
    var frac := ((|v| - 1) % 4) as real / 4.0;
    if frac == 0.0 then v[k] else v[k] + frac * (v[k + 1] - v[k])
  }

  /** `Series.quantile(0.25)` with linear interpolation; None stands for
      the NaN of an empty column. */
  function LowerQuartile(values: seq<real>): (q: Option<real>)
    ensures q.Some? <==> values != []
  {
    if values == [] then None
    else
      var v := SortBy(values, Itself);
      assert |v| == |multiset(v)| == |values|;
      Some(QuarterPoint(v))
  }

  lemma QuarterPointBounds(v: seq<real>, lo: real, hi: real)
    requires v != []
    requires forall j :: 0 <= j < |v| ==> lo <= v[j] <= hi
    ensures lo <= QuarterPoint(v) <= hi
  {
    var k := (|v| - 1) / 4;
    var frac := ((|v| - 1) % 4) as real / 4.0;
    if frac != 0.0 {
      Interpolate(v[k], v[k + 1], frac, lo, hi);
    }
  }

  /** The quartile lies between the smallest and largest value. */
  lemma LowerQuartileBounds(values: seq<real>, lo: real, hi: real)
    requires values != []
    requires forall i :: 0 <= i < |values| ==> lo <= values[i] <= hi
    ensures lo <= LowerQuartile(values).value <= hi
  {
    var v := SortBy(values, Itself);
    assert |v| == |multiset(v)| == |values|;
    forall j | 0 <= j < |v| ensures lo <= v[j] <= hi {
      assert v[j] in multiset(values);
    }
    QuarterPointBounds(v, lo, hi);
  }

  lemma Interpolate(a: real, b: real, f: real, lo: real, hi: real)
    requires 0.0 <= f <= 1.0
    requires lo <= a <= hi && lo <= b <= hi
    ensures lo <= a + f * (b - a) <= hi
  {
    if b >= a {
      FractionOf(f, b - a, f * (b - a));
    } else {
      FractionOf(f, a - b, f * (a - b));
      assert f * (a - b) == -(f * (b - a));
    }
  }

  lemma FractionOf(f: real, d: real, p: real)
    requires 0.0 <= f <= 1.0 && d >= 0.0 && p == f * d
    ensures 0.0 <= p <= d
  {
    assert d - p == (1.0 - f) * d;
  }

  function ProfitabilityColumn(perf: seq<PerformanceRow>): (col: seq<real>)
    ensures |col| == |perf|
    ensures forall i :: 0 <= i < |perf| ==> col[i] == perf[i].profitability
  {
    seq(|perf|, i requires 0 <= i < |perf| => perf[i].profitability)
  }

  /** The rows strictly below `q`, in table order. */
  function Below(perf: seq<PerformanceRow>, q: real): seq<PerformanceRow>
  {
    if perf == [] then []
    else (if perf[0].profitability < q then [perf[0]] else []) + Below(perf[1..], q)
  }

  /** `Below` keeps exactly the rows strictly below `q`. */
  lemma {:induction false} BelowExact(perf: seq<PerformanceRow>, q: real)
    ensures forall row :: row in Below(perf, q) <==> row in perf && row.profitability < q
  {
    if perf != [] {
      BelowExact(perf[1..], q);
      assert perf == [perf[0]] + perf[1..];
    }
  }

  /** The mask `profitability < q`. */
  function BelowCut(q: real): PerformanceRow -> bool {
    (row: PerformanceRow) => row.profitability < q
  }

  /** `Below` keeps the table order: its `i`-th row is the `i`-th row of the
      table below `q`. */
  lemma {:induction false} BelowInOrder(perf: seq<PerformanceRow>, q: real)
    ensures var ks := Positions(perf, BelowCut(q));
      && |Below(perf, q)| == |ks|
      && forall i :: 0 <= i < |ks| ==> Below(perf, q)[i] == perf[ks[i]]
  {
    if perf != [] {
      var init := perf[..|perf| - 1];
      BelowInOrder(init, q);
      BelowSnoc(perf, q);
      var ks := Positions(init, BelowCut(q));
      assert forall i :: 0 <= i < |ks| ==> init[ks[i]] == perf[ks[i]];
    }
  }

  /** `Below` read from the back: the rows of all but the last, then the
      last row if it is below `q`. */
  lemma {:induction false} BelowSnoc(perf: seq<PerformanceRow>, q: real)
    requires perf != []
    ensures var n := |perf| - 1;
      Below(perf, q) == Below(perf[..n], q) + (if perf[n].profitability < q then [perf[n]] else [])
  {
    var n := |perf| - 1;
    if n > 0 {
      var rest := perf[1..];
      BelowSnoc(rest, q);
      assert rest[..n - 1] == perf[..n][1..];
      assert rest[n - 1] == perf[n];
    }
  }

  /** The positions of the rows strictly below the lower quartile of the
      profitability column, ascending; none for an empty table. */
  function LowRowPositions(perf: seq<PerformanceRow>): (ks: seq<nat>)
    ensures perf == [] ==> ks == []
    ensures forall i :: 0 <= i < |ks| ==> ks[i] < |perf|
    ensures forall i, j :: 0 <= i < j < |ks| ==> ks[i] < ks[j]
    ensures perf != [] ==> forall k :: 0 <= k < |perf| ==>
      (k in ks <==> perf[k].profitability < LowerQuartile(ProfitabilityColumn(perf)).value)
  {
    match LowerQuartile(ProfitabilityColumn(perf))
    case None => []
    case Some(q) => PositionsExact(perf, BelowCut(q)); Positions(perf, BelowCut(q))
  }

  /** The rows whose profitability is below the lower quartile. */
  function LowPerformers(perf: seq<PerformanceRow>): (low: seq<PerformanceRow>)
    ensures forall row :: row in low ==> row in perf
  {
    match LowerQuartile(ProfitabilityColumn(perf))
    case None => []
    case Some(q) => BelowExact(perf, q); Below(perf, q)
  }

  /** The low performers in table order: the `i`-th is the row at the
      `i`-th position below the quartile. */
  lemma LowPerformersInOrder(perf: seq<PerformanceRow>)
    ensures var low, ks := LowPerformers(perf), LowRowPositions(perf);
      |low| == |ks| && forall i :: 0 <= i < |low| ==> low[i] == perf[ks[i]]
  {
    match LowerQuartile(ProfitabilityColumn(perf))
    case None =>
    case Some(q) => BelowInOrder(perf, q);
  }

  /** An information item for each of the given rows, in order. */
  function LowProfitInfos(rows: seq<PerformanceRow>): (recs: seq<Recommendation>)
    ensures |recs| == |rows|
    ensures forall i :: 0 <= i < |rows| ==> recs[i] == LowProfitability(rows[i].menuItem)
  {
    if rows == [] then [] else LowProfitInfos(rows[..|rows| - 1]) + [LowProfitability(rows[|rows| - 1].menuItem)]
  }

  /** Total waste cost as a percentage of total revenue. */
  function OverallWastePercentage(ledger: seq<SalesRecord>): Ratio {
    Percentage(Total(ledger, WasteCost), Total(ledger, Revenue))
  }

  function OverallAlert(pct: Ratio): (recs: seq<Recommendation>)
    ensures |recs| <= 1
    ensures forall i :: 0 <= i < |recs| ==> recs[i].HighOverallWaste?
  {
    if Exceeds(pct, WasteAlertPercent) then [HighOverallWaste(pct)] else []
  }

  /** The recommendation list built from the waste table, the performance
      table and the overall waste percentage: item warnings, then up to two
      low-profit notes, then the overall alert. */
  function RecommendationsFrom(waste: seq<WasteRow>, perf: seq<PerformanceRow>, overall: Ratio): (recs: seq<Recommendation>)
    ensures |recs| <= |waste| + LowProfitLimit + 1
  {
    WasteWarnings(waste) + LowProfitInfos(Take(LowPerformers(perf), LowProfitLimit)) + OverallAlert(overall)
  }

  /** The whole recommendation list: one warning per waste row over the
      threshold, in table order; then notes for the first rows (at most
      two) below the lower profitability quartile, in table order; then the
      overall alert when the overall percentage is over the threshold. */
  lemma RecommendationsExact(waste: seq<WasteRow>, perf: seq<PerformanceRow>, overall: Ratio)
    ensures var recs := RecommendationsFrom(waste, perf, overall);
      var ws := Positions(waste, Warned);
      var ks := LowRowPositions(perf);
      var m := if |ks| < LowProfitLimit then |ks| else LowProfitLimit;
      var w := |WasteWarnings(waste)|;
      && w == |ws|
      && |recs| == w + m + (if Exceeds(overall, WasteAlertPercent) then 1 else 0)
      && (forall i :: 0 <= i < |ws| ==>
            recs[i] == HighWaste(waste[ws[i]].menuItem, waste[ws[i]].wastePercentage))
      && (forall i :: 0 <= i < m ==> recs[w + i] == LowProfitability(perf[ks[i]].menuItem))
      && (Exceeds(overall, WasteAlertPercent) ==> recs[|recs| - 1] == HighOverallWaste(overall))
  {
    RecommendationSections(waste, perf, overall);
    WarningSection(waste, perf, overall);
    InfoSection(waste, perf, overall);
  }

  /** The sizes of the three sections, and the alert at the end. */
  lemma RecommendationSections(waste: seq<WasteRow>, perf: seq<PerformanceRow>, overall: Ratio)
    ensures var recs := RecommendationsFrom(waste, perf, overall);
      var ks := LowRowPositions(perf);
      && |recs| == |WasteWarnings(waste)| + (if |ks| < LowProfitLimit then |ks| else LowProfitLimit)
                   + (if Exceeds(overall, WasteAlertPercent) then 1 else 0)
      && (Exceeds(overall, WasteAlertPercent) ==> recs[|recs| - 1] == HighOverallWaste(overall))
  {
    var recs := RecommendationsFrom(waste, perf, overall);
    var low := Take(LowPerformers(perf), LowProfitLimit);
    var w, n, a := WasteWarnings(waste), LowProfitInfos(low), OverallAlert(overall);
    assert recs == w + n + a;
    LowProfitNotes(perf);
    if Exceeds(overall, WasteAlertPercent) {
      assert recs[|recs| - 1] == a[0];
    }
  }

  lemma WarningSection(waste: seq<WasteRow>, perf: seq<PerformanceRow>, overall: Ratio)
    ensures var recs, ws := RecommendationsFrom(waste, perf, overall), Positions(waste, Warned);
      && |WasteWarnings(waste)| == |ws| <= |recs|
      && forall i :: 0 <= i < |ws| ==>
           recs[i] == HighWaste(waste[ws[i]].menuItem, waste[ws[i]].wastePercentage)
  {
    var recs, ws := RecommendationsFrom(waste, perf, overall), Positions(waste, Warned);
    var w := WasteWarnings(waste);
    var rest := LowProfitInfos(Take(LowPerformers(perf), LowProfitLimit)) + OverallAlert(overall);
    assert recs == w + rest;
    WasteWarningsInOrder(waste);
    forall i | 0 <= i < |ws|
      ensures recs[i] == HighWaste(waste[ws[i]].menuItem, waste[ws[i]].wastePercentage)
    {
      assert recs[i] == w[i];
    }
  }

  lemma InfoSection(waste: seq<WasteRow>, perf: seq<PerformanceRow>, overall: Ratio)
    ensures var recs, w := RecommendationsFrom(waste, perf, overall), |WasteWarnings(waste)|;
      var ks := LowRowPositions(perf);
      var m := if |ks| < LowProfitLimit then |ks| else LowProfitLimit;
      && w + m <= |recs|
      && forall i :: 0 <= i < m ==> recs[w + i] == LowProfitability(perf[ks[i]].menuItem)
  {
    var w, n := WasteWarnings(waste), LowProfitInfos(Take(LowPerformers(perf), LowProfitLimit));
    LowProfitNotes(perf);
    NotesAfterWarnings(RecommendationsFrom(waste, perf, overall), w, n, OverallAlert(overall),
                       perf, LowRowPositions(perf));
  }

  lemma WarningCount(waste: seq<WasteRow>)
    ensures |WasteWarnings(waste)| == |Positions(waste, Warned)|
  {
    WasteWarningsInOrder(waste);
  }

  lemma NotesAfterWarnings(recs: seq<Recommendation>, w: seq<Recommendation>, n: seq<Recommendation>,
                           a: seq<Recommendation>, perf: seq<PerformanceRow>, ks: seq<nat>)
    requires recs == w + n + a && |n| <= |ks|
    requires forall i :: 0 <= i < |ks| ==> ks[i] < |perf|
    requires forall i :: 0 <= i < |n| ==> n[i] == LowProfitability(perf[ks[i]].menuItem)
    ensures |w| + |n| <= |recs|
    ensures forall i :: 0 <= i < |n| ==> recs[|w| + i] == LowProfitability(perf[ks[i]].menuItem)
  {
    MiddleOf(w, n, a);
  }

  /** The low-profit notes are for the first (at most two) rows below the
      quartile, in table order. */
  lemma LowProfitNotes(perf: seq<PerformanceRow>)
    ensures var n, ks := LowProfitInfos(Take(LowPerformers(perf), LowProfitLimit)), LowRowPositions(perf);
      && |n| == (if |ks| < LowProfitLimit then |ks| else LowProfitLimit)
      && forall i :: 0 <= i < |n| ==> n[i] == LowProfitability(perf[ks[i]].menuItem)
  {
    var lp := LowPerformers(perf);
    var low := Take(lp, LowProfitLimit);
    LowPerformersInOrder(perf);
    forall i | 0 <= i < |low|
      ensures low[i] == perf[LowRowPositions(perf)[i]]
    {
      assert low[i] == lp[i];
    }
  }

  function Recommendations(ledger: seq<SalesRecord>): seq<Recommendation> {
    RecommendationsFrom(WasteAnalysis(ledger), MenuPerformance(ledger), OverallWastePercentage(ledger))
  }

  /** `generate_recommendations`. */
  method GenerateRecommendations(ledger: seq<SalesRecord>) returns (recs: seq<Recommendation>)
    ensures recs == Recommendations(ledger)
  {
    var perf := MenuPerformance(ledger);
    var waste := WasteAnalysis(ledger);
    var pct := OverallWastePercentage(ledger);
    recs := Recommend(waste, perf, pct);
  }

  lemma WasteWarningsStep(waste: seq<WasteRow>, i: int)
    requires 0 <= i < |waste|
    ensures WasteWarnings(waste[..i + 1]) == WasteWarnings(waste[..i])
      + (if Exceeds(waste[i].wastePercentage, WasteAlertPercent)
         then [HighWaste(waste[i].menuItem, waste[i].wastePercentage)] else [])
  {
    assert waste[..i + 1][..i] == waste[..i];
  }

  lemma LowProfitInfosStep(low: seq<PerformanceRow>, j: int)
    requires 0 <= j < |low|
    ensures LowProfitInfos(low[..j + 1]) == LowProfitInfos(low[..j]) + [LowProfitability(low[j].menuItem)]
  {
    assert low[..j + 1][..j] == low[..j];
  }

  /** The first loop of `generate_recommendations`: a warning for each row
      of the waste table above the threshold, in table order. */
  method CollectWasteWarnings(waste: seq<WasteRow>) returns (recs: seq<Recommendation>)
    ensures recs == WasteWarnings(waste)
  {
    recs := [];
    var i := 0;
    while i < |waste|
      invariant 0 <= i <= |waste|
      invariant recs == WasteWarnings(waste[..i])
    {
      WasteWarningsStep(waste, i);
      if Exceeds(waste[i].wastePercentage, WasteAlertPercent) {
        recs := recs + [HighWaste(waste[i].menuItem, waste[i].wastePercentage)];
      }
      i := i + 1;
    }
    assert waste[..|waste|] == waste;
  }

  /** The second loop: a note for each of the low performers kept. */
  method CollectLowProfitInfos(low: seq<PerformanceRow>) returns (recs: seq<Recommendation>)
    ensures recs == LowProfitInfos(low)
  {
    recs := [];
    var j := 0;
    while j < |low|
      invariant 0 <= j <= |low|
      invariant recs == LowProfitInfos(low[..j])
    {
      LowProfitInfosStep(low, j);
      recs := recs + [LowProfitability(low[j].menuItem)];
      j := j + 1;
    }
    assert low[..|low|] == low;
  }

  /** The loops of `generate_recommendations` over the computed tables. */
  method Recommend(waste: seq<WasteRow>, perf: seq<PerformanceRow>, overall: Ratio) returns (recs: seq<Recommendation>)
    ensures recs == RecommendationsFrom(waste, perf, overall)
  {
    var warnings := CollectWasteWarnings(waste);
    var infos := CollectLowProfitInfos(Take(LowPerformers(perf), LowProfitLimit));
    recs := warnings + infos;
    if Exceeds(overall, WasteAlertPercent) {
      recs := recs + [HighOverallWaste(overall)];
    }
  }

  /** Warnings come first, then information items, then the critical alert;
      there are at most two information items and at most one alert. */
  lemma RecommendationsOrdered(waste: seq<WasteRow>, perf: seq<PerformanceRow>, overall: Ratio)
    ensures var recs := RecommendationsFrom(waste, perf, overall);
      && (forall i, j :: 0 <= i < j < |recs| ==> Rank(SeverityOf(recs[i])) <= Rank(SeverityOf(recs[j])))
      && (forall i, j, k :: 0 <= i < j < k < |recs| ==>
            !(recs[i].LowProfitability? && recs[j].LowProfitability? && recs[k].LowProfitability?))
      && (forall i, j :: 0 <= i < j < |recs| ==> !(recs[i].HighOverallWaste? && recs[j].HighOverallWaste?))
  {
    var w := WasteWarnings(waste);
    var n := LowProfitInfos(Take(LowPerformers(perf), LowProfitLimit));
    var a := OverallAlert(overall);
    assert forall i :: 0 <= i < |n| ==> n[i].LowProfitability?;
    SectionsOrdered(w, n, a);
  }

  /** Three sections of one kind each, concatenated. */
  lemma SectionsOrdered(w: seq<Recommendation>, n: seq<Recommendation>, a: seq<Recommendation>)
    requires forall i :: 0 <= i < |w| ==> w[i].HighWaste?
    requires forall i :: 0 <= i < |n| ==> n[i].LowProfitability?
    requires forall i :: 0 <= i < |a| ==> a[i].HighOverallWaste?
    requires |n| <= 2 && |a| <= 1
    ensures var recs := w + n + a;
      && (forall i, j :: 0 <= i < j < |recs| ==> Rank(SeverityOf(recs[i])) <= Rank(SeverityOf(recs[j])))
      && (forall i, j, k :: 0 <= i < j < k < |recs| ==>
            !(recs[i].LowProfitability? && recs[j].LowProfitability? && recs[k].LowProfitability?))
      && (forall i, j :: 0 <= i < j < |recs| ==> !(recs[i].HighOverallWaste? && recs[j].HighOverallWaste?))
  {
    var recs := w + n + a;
    assert forall i :: 0 <= i < |recs| ==>
      (i < |w| ==> recs[i].HighWaste?) && (|w| <= i < |w| + |n| ==> recs[i].LowProfitability?)
      && (|w| + |n| <= i ==> recs[i].HighOverallWaste?);
  }

  /** The critical alert is given exactly when the overall percentage
      exceeds the threshold. */
  lemma OverallAlertExact(waste: seq<WasteRow>, perf: seq<PerformanceRow>, overall: Ratio)
    ensures var recs := RecommendationsFrom(waste, perf, overall);
      (exists i :: 0 <= i < |recs| && recs[i] == HighOverallWaste(overall)) <==> Exceeds(overall, WasteAlertPercent)
    ensures var recs := RecommendationsFrom(waste, perf, overall);
      forall i :: 0 <= i < |recs| && recs[i].HighOverallWaste? ==> recs[i] == HighOverallWaste(overall)
  {
    var w := WasteWarnings(waste);
    var n := LowProfitInfos(Take(LowPerformers(perf), LowProfitLimit));
    var a := OverallAlert(overall);
    var recs := w + n + a;
    if a != [] {
      assert recs[|w| + |n|] == HighOverallWaste(overall);
    }
    assert forall i :: 0 <= i < |w| + |n| ==> !recs[i].HighOverallWaste?;
  }

  /** On the ledger: total waste cost above 15% of total revenue, with a
      positive waste cost and no revenue counting as infinitely above. */
  lemma OverallWasteAlertOnLedger(ledger: seq<SalesRecord>)
    ensures Exceeds(OverallWastePercentage(ledger), WasteAlertPercent)
        <==> var cost, revenue := Total(ledger, WasteCost), Total(ledger, Revenue);
             (revenue > 0.0 && cost * 100.0 > WasteAlertPercent * revenue)
             || (revenue < 0.0 && cost * 100.0 < WasteAlertPercent * revenue)
             || (revenue == 0.0 && cost > 0.0)
  {
    PercentageExceeds(Total(ledger, WasteCost), Total(ledger, Revenue), WasteAlertPercent);
  }

  /** The warnings of the list are exactly those the waste table yields. */
  lemma WarningsOfRecommendations(waste: seq<WasteRow>, perf: seq<PerformanceRow>, overall: Ratio, rec: Recommendation)
    requires rec.HighWaste?
    ensures rec in RecommendationsFrom(waste, perf, overall) <==> rec in WasteWarnings(waste)
  {
    var n := LowProfitInfos(Take(LowPerformers(perf), LowProfitLimit));
    var a := OverallAlert(overall);
    assert RecommendationsFrom(waste, perf, overall) == WasteWarnings(waste) + n + a;
    assert rec !in n && rec !in a;
  }

  /** An item is warned about exactly when it occurs in the ledger and its
      waste percentage exceeds 15; the warning carries that percentage. */
  lemma HighWasteExact(ledger: seq<SalesRecord>, item: string)
    ensures HighWaste(item, WasteRowFor(ledger, item).wastePercentage) in Recommendations(ledger)
        <==> (exists r :: r in ledger && r.menuItem == item)
             && Exceeds(WasteRowFor(ledger, item).wastePercentage, WasteAlertPercent)
    ensures forall rec :: rec in Recommendations(ledger) && rec.HighWaste? && rec.menuItem == item ==>
      rec == HighWaste(item, WasteRowFor(ledger, item).wastePercentage)
  {
    var table := WasteAnalysis(ledger);
    var perf := MenuPerformance(ledger);
    var overall := OverallWastePercentage(ledger);
    var recs := Recommendations(ledger);
    assert recs == RecommendationsFrom(table, perf, overall);
    var pct := WasteRowFor(ledger, item).wastePercentage;
    var target := HighWaste(item, pct);
    assert target in recs ==> (exists r :: r in ledger && r.menuItem == item) && Exceeds(pct, WasteAlertPercent) by {
      if target in recs {
        WarningsOfRecommendations(table, perf, overall, target);
        var k := WarnedRow(table, target);
        WasteAnalysisRowsAreItemRows(ledger, k);
      }
    }
    assert (exists r :: r in ledger && r.menuItem == item) && Exceeds(pct, WasteAlertPercent) ==> target in recs by {
      if (exists r :: r in ledger && r.menuItem == item) && Exceeds(pct, WasteAlertPercent) {
        var r :| r in ledger && r.menuItem == item;
        WasteAnalysisCoversItems(ledger, r);
        var k :| 0 <= k < |table| && table[k].menuItem == item;
        WasteAnalysisRowsAreItemRows(ledger, k);
        WarningForRow(table, k);
        WarningsOfRecommendations(table, perf, overall, target);
      }
    }
    forall rec | rec in recs && rec.HighWaste? && rec.menuItem == item
      ensures rec == target
    {
      WarningsOfRecommendations(table, perf, overall, rec);
      var k := WarnedRow(table, rec);
      WasteAnalysisRowsAreItemRows(ledger, k);
    }
  }

  /** The row a warning comes from. */
  lemma WarnedRow(table: seq<WasteRow>, rec: Recommendation) returns (k: int)
    requires rec in WasteWarnings(table)
    ensures 0 <= k < |table|
    ensures rec == HighWaste(table[k].menuItem, table[k].wastePercentage)
    ensures Exceeds(table[k].wastePercentage, WasteAlertPercent)
  {
    WasteWarningsExact(table, rec);
    var row :| row in table && rec == HighWaste(row.menuItem, row.wastePercentage)
               && Exceeds(row.wastePercentage, WasteAlertPercent);
    k :| 0 <= k < |table| && table[k] == row;
  }

  /** A row over the threshold yields its warning. */
  lemma WarningForRow(table: seq<WasteRow>, k: int)
    requires 0 <= k < |table| && Exceeds(table[k].wastePercentage, WasteAlertPercent)
    ensures HighWaste(table[k].menuItem, table[k].wastePercentage) in WasteWarnings(table)
  {
    WasteWarningsExact(table, HighWaste(table[k].menuItem, table[k].wastePercentage));
    assert table[k] in table;
  }

  /** An item with neither sales nor waste has a NaN waste percentage and is
      never warned about; one with waste but no sales has an infinite
      percentage and always is. */
  lemma UnsoldItemsAndWarnings(ledger: seq<SalesRecord>, item: string)
    requires exists r :: r in ledger && r.menuItem == item
    requires Total(Group(ledger, ItemOf, item), QuantitySold) == 0.0
    ensures Total(Group(ledger, ItemOf, item), WasteQuantity) == 0.0 ==>
      forall rec :: rec in Recommendations(ledger) && rec.HighWaste? ==> rec.menuItem != item
    ensures Total(Group(ledger, ItemOf, item), WasteQuantity) > 0.0 ==>
      HighWaste(item, PosInf) in Recommendations(ledger)
  {
    HighWasteExact(ledger, item);
  }

  /** When every item is equally profitable none is below the lower
      quartile, so no information item is given. */
  lemma UniformProfitabilityHasNoLowPerformers(waste: seq<WasteRow>, perf: seq<PerformanceRow>, overall: Ratio, c: real)
    requires forall row :: row in perf ==> row.profitability == c
    ensures forall rec :: rec in RecommendationsFrom(waste, perf, overall) ==> !rec.LowProfitability?
  {
    assert LowPerformers(perf) == [] by {
      var col := ProfitabilityColumn(perf);
      if col != [] {
        forall i | 0 <= i < |col| ensures c <= col[i] <= c {
          assert perf[i] in perf;
        }
        LowerQuartileBounds(col, c, c);
        NoneBelow(perf, c);
      }
    }
    var n := LowProfitInfos(Take(LowPerformers(perf), LowProfitLimit));
    assert n == [];
    assert RecommendationsFrom(waste, perf, overall) == WasteWarnings(waste) + n + OverallAlert(overall);
  }

  lemma NoneBelow(perf: seq<PerformanceRow>, c: real)
    requires forall row :: row in perf ==> row.profitability == c
    ensures Below(perf, c) == []
  {
    BelowExact(perf, c);
  }

  /** Every information item names a row below the table's lower quartile
      (which rows, and in what order, `RecommendationsExact` states). */
  lemma LowProfitInfosBelowQuartile(waste: seq<WasteRow>, perf: seq<PerformanceRow>, overall: Ratio)
    ensures forall rec :: rec in RecommendationsFrom(waste, perf, overall) && rec.LowProfitability? ==>
      LowerQuartile(ProfitabilityColumn(perf)).Some?
      && exists row :: row in perf && row.menuItem == rec.menuItem
                       && row.profitability < LowerQuartile(ProfitabilityColumn(perf)).value
  {
    var low := Take(LowPerformers(perf), LowProfitLimit);
    var w := WasteWarnings(waste);
    var n := LowProfitInfos(low);
    var a := OverallAlert(overall);
    var recs := RecommendationsFrom(waste, perf, overall);
    assert recs == w + n + a;
    forall rec | rec in recs && rec.LowProfitability?
      ensures LowerQuartile(ProfitabilityColumn(perf)).Some?
      ensures exists row :: row in perf && row.menuItem == rec.menuItem
                            && row.profitability < LowerQuartile(ProfitabilityColumn(perf)).value
    {
      assert rec !in w && rec !in a;
      var k :| 0 <= k < |n| && n[k] == rec;
      var q := LowerQuartile(ProfitabilityColumn(perf)).value;
      BelowExact(perf, q);
      assert low[k] in Below(perf, q);
    }
  }
}
