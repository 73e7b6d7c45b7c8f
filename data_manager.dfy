/** Entering a sale into the ledger and summarising a period of it
    (data_manager.py).  Loading and saving the workbook are left to the
    caller: the ledger comes in and goes out as a sequence. */
module DataManager {
  import opened Values
  import opened Ledger

  /** The menu configuration: item names and their prices, position by
      position. */
  datatype MenuConfig = MenuConfig(menuItems: seq<string>, prices: seq<real>)

  /** The configuration used when no configuration file exists. */
  const DefaultConfig: MenuConfig := MenuConfig(
    ["Chapati & Beans", "Rice & Stew", "Ugali & Sukuma", "Tea & Mandazi",
     "Chips & Chicken", "Fruit Salad", "Juice", "Samosa"],
    [80.0, 120.0, 100.0, 50.0, 150.0, 80.0, 60.0, 40.0])

  /** `prices[menu_items.index(item)]`: None where `index` raises (the item
      is not on the menu) or the price list is too short. */
  function ConfigPrice(config: MenuConfig, item: string): (p: Option<real>)
    ensures p.Some? <==> item in config.menuItems && IndexOf(config.menuItems, item) < |config.prices|
    ensures p.Some? ==> exists i :: 0 <= i < |config.prices| && i < |config.menuItems|
                                    && config.menuItems[i] == item && p.value == config.prices[i]
                                    && item !in config.menuItems[..i]
  {
    if item in config.menuItems && IndexOf(config.menuItems, item) < |config.prices|
    then Some(config.prices[IndexOf(config.menuItems, item)])
    else None
  }

  /** `add_sales_record`: the ledger with the new record appended, or None
      (the call reports failure and saves nothing) when the price lookup
      fails. */
  function AddSalesRecord(ledger: seq<SalesRecord>, config: MenuConfig, date: int, menuItem: string,
                          quantitySold: int, wasteQuantity: int): (r: Option<seq<SalesRecord>>)
    ensures r.None? <==> ConfigPrice(config, menuItem).None?
    ensures r.Some? ==> |r.value| == |ledger| + 1 && r.value[..|ledger|] == ledger
    ensures r.Some? ==>
      var rec := r.value[|ledger|];
      && DatedConsistently(rec) && PricedConsistently(rec)
      && rec.date == date && rec.menuItem == menuItem
      && rec.quantitySold == quantitySold && rec.wasteQuantity == wasteQuantity
      && rec.price == ConfigPrice(config, menuItem).value
  {
    match ConfigPrice(config, menuItem)
    case None => None
    case Some(price) => Some(ledger + [NewRecord(date, menuItem, quantitySold, wasteQuantity, price)])
  }

  /** With the default menu, a plate of rice and stew is priced at 120. */
  lemma DefaultRiceAndStew(ledger: seq<SalesRecord>, date: int)
    ensures AddSalesRecord(ledger, DefaultConfig, date, "Rice & Stew", 10, 2).Some?
    ensures AddSalesRecord(ledger, DefaultConfig, date, "Rice & Stew", 10, 2).value[|ledger|].revenue == 1200.0
    ensures AddSalesRecord(ledger, DefaultConfig, date, "Rice & Stew", 10, 2).value[|ledger|].wasteCost == 72.0
  {
    var names := DefaultConfig.menuItems;
    assert names[1] == "Rice & Stew";
    assert names[0] != "Rice & Stew";
    assert IndexOf(names, "Rice & Stew") == 1;
  }

  /** An item that is not on the menu is refused. */
  lemma UnknownItemRefused(ledger: seq<SalesRecord>, config: MenuConfig, date: int, item: string, q: int, w: int)
    requires item !in config.menuItems
    ensures AddSalesRecord(ledger, config, date, item, q, w) == None
  {
  }

  // ---------------------------------------------------------------------
  // Period summary

  function OnOrAfter(start: int): SalesRecord -> bool {
    (r: SalesRecord) => r.date >= start
  }

  function OnOrBefore(end: int): SalesRecord -> bool {
    (r: SalesRecord) => r.date <= end
  }

  /** The records between the optional bounds, both inclusive; a missing
      bound does not filter. */
  function Period(ledger: seq<SalesRecord>, start: Option<int>, end: Option<int>): (p: seq<SalesRecord>)
    ensures forall r :: r in p <==>
      && r in ledger
      && (start.Some? ==> r.date >= start.value)
      && (end.Some? ==> r.date <= end.value)
  {
    var fromStart := if start.Some? then Where(ledger, OnOrAfter(start.value)) else ledger;
    if end.Some? then Where(fromStart, OnOrBefore(end.value)) else fromStart
  }

  /** The figures `get_sales_summary` reports. */
  datatype SalesSummary = SalesSummary(
    totalRevenue: real,
    totalItemsSold: real,
    totalWasteCost: real,
    averageDailySales: Ratio,
    wastePercentage: Ratio)

  /** `get_sales_summary`: totals over the period, the mean of the per-date
      quantity sums, and waste cost as a percentage of revenue. */
  function SalesSummaryOf(ledger: seq<SalesRecord>, start: Option<int>, end: Option<int>): (s: SalesSummary)
    ensures var p := Period(ledger, start, end);
      && s.totalRevenue == Total(p, Revenue)
      && s.totalItemsSold == Total(p, QuantitySold)
      && s.totalWasteCost == Total(p, WasteCost)
    ensures s.wastePercentage == Percentage(s.totalWasteCost, s.totalRevenue)
  {
    var p := Period(ledger, start, end);
    var daily := DailyTotals(p);
    SalesSummary(Total(p, Revenue), Total(p, QuantitySold), Total(p, WasteCost),
                 Mean(ColumnTotal(daily, QuantitySold), |daily|),
                 Percentage(Total(p, WasteCost), Total(p, Revenue)))
  }

  /** The daily average is the period's units sold spread over the distinct
      dates on which anything was recorded; it is undefined for an empty
      period. */
  lemma AverageDailySalesOverDates(ledger: seq<SalesRecord>, start: Option<int>, end: Option<int>)
    ensures var p := Period(ledger, start, end);
      SalesSummaryOf(ledger, start, end).averageDailySales == Mean(Total(p, QuantitySold), |Dates(p)|)
    ensures SalesSummaryOf(ledger, start, end).averageDailySales.Finite? <==> Period(ledger, start, end) != []
  {
    var p := Period(ledger, start, end);
    DailyTotalsConserve(p, QuantitySold);
    if p != [] {
      assert p[0] in p;
      assert p[0].date in Dates(p);
    }
  }

  /** A defined waste percentage is the waste cost scaled to a revenue of
      one hundred; it is defined exactly when there was revenue.  Every
      summary `SalesSummaryOf` returns meets the requirement. */
  lemma SummaryWastePercentage(s: SalesSummary)
    requires s.wastePercentage == Percentage(s.totalWasteCost, s.totalRevenue)
    ensures s.wastePercentage.Finite? <==> s.totalRevenue != 0.0
    ensures s.wastePercentage.Finite? ==> s.wastePercentage.value * s.totalRevenue == s.totalWasteCost * 100.0
  {
    if s.totalRevenue != 0.0 {
      PercentageScales(s.totalWasteCost, s.totalRevenue);
    }
  }

  /** A period whose start comes after its end is empty: all totals are
      zero and both ratios are undefined. */
  lemma InvertedPeriodIsEmpty(ledger: seq<SalesRecord>, start: int, end: int)
    requires start > end
    ensures SalesSummaryOf(ledger, Some(start), Some(end)) == SalesSummary(0.0, 0.0, 0.0, NaN, NaN)
  {
    WhereNone(Where(ledger, OnOrAfter(start)), OnOrBefore(end));
  }
}
