# Canteen management: a verified model of the analytics and bookkeeping core

This project models the logic of a canteen management application in Dafny.

- **The sales ledger.** One record per menu item and day, holding quantity sold, price, revenue, waste and waste cost.
- **The analytics engine.** It reads the ledger and produces:
  - a daily sales trend;
  - menu-performance and waste tables;
  - a weekday pattern table;
  - a flat moving-average demand forecast;
  - a rule-based list of recommendations.
- **The bookkeeping around the ledger.**
  - Entering a sale, with price lookup and derived columns.
  - A date-range summary.
  - The food-item catalogue: append-only, soft deletion, sales counters, popularity.
  - The sales-sheet upload: column check, price enrichment, and de-duplication on (date, menu item) keeping the last row.
  - The user table with login and administrator rights.
  - Price resolution when a sale is entered by hand.

## How the model is organised

- **Modules.** There is one module per source file:
  - `Analytics` (analytics.py);
  - `DataManager` (data_manager.py);
  - `FoodManager` (food_manager.py);
  - `ExcelUploader` (excel_uploader.py);
  - `SimpleAuth` (simple_auth.py);
  - `App` (app.py).

  Three modules are shared by the others:
  - `Values`: calendar days, instants, IEEE-style ratios, Option/Result;
  - `Text`: `split`, `strip`, ASCII `lower`, code-point string order, `sorted(set(...))`;
  - `Ledger`: the record type, column totals, `groupby`, `sort_values`.
- **Dates.** A date is a day number, with day 0 = 0001-01-01, a Monday, so the weekday is `day % 7`.
- **Now.** "Now" is an instant in microseconds, passed in as a parameter. It keeps a time of day, as `datetime.now()` does.
- **Money and ratios.**
  - Money and ratios are exact `real`s.
  - A division is a `Ratio`: `Finite(v)`, `PosInf`, `NegInf` or `NaN`, following numpy. A positive value over zero is +inf, which passes the `> 15` waste test. Zero over zero is NaN, which passes no test.
- **Pure versus state-changing code.**
  - Pure pandas expressions are functions.
  - Loops that build lists are methods with loop invariants, proved against a specification function:
    - `forecast_demand`;
    - `generate_recommendations`;
    - the upload loops;
    - the search loops.
  - Objects whose fields the source updates are classes with `modifies` clauses:
    - the catalogue, `FoodItemManager.items`;
    - the user table, `Auth.users` and `Auth.currentUser`.
- **Unstable sorts.** `sort_values` is not stable. The model sorts with one insertion sort but states only non-increasing order plus a permutation. No tie order is promised.

In these places the code behaves differently from what its names suggest; the model follows the code:

- The weekday pattern table (analytics.py:49-59) has rows only for the weekdays that occur in the data. Days are ordered Monday to Sunday, and there is no row for an absent day.
- The forecast (analytics.py:66-79) fails (`int(NaN)` raises) when the 30-day window is empty, but only when at least one day is requested. With `days <= 0` it returns an empty table.
- The two low-profitability notes (analytics.py:118-120) are the first two items strictly below the 25th percentile, in the performance table's profitability-descending order. They are not the two least profitable items.
- The sales upload calls `update_item_sales` for each row before the records are enriched. Enrichment reads the catalogue after those calls. `ExcelUploader.SalesAppliedKeepPrices` shows this makes no difference to the prices.

## Model

| member | source | states |
|---|---|---|
| Values.DayName | data_manager.py:97 | `strftime('%A')` of a date is one of the seven weekday names |
| Values.WindowByDay | analytics.py:14 | a day passes `date >= now - timedelta(days=p)` iff it is after the cut-off day, or is the cut-off day and `now` is exactly midnight |
| Values.DayOfAddDays | analytics.py:75 | adding n days moves the calendar day by n and keeps the time of day |
| Values.Percentage | analytics.py:39 | `(part / whole) * 100` is finite iff whole ≠ 0; +inf, -inf or NaN by the sign of the part when whole = 0 |
| Values.PercentageScales | analytics.py:39 | a finite percentage times the whole is 100 × the part |
| Values.PercentageExceeds | analytics.py:108 | the `> bound` test on a percentage, stated on the operands alone; +inf passes, NaN does not |
| Values.Mean | analytics.py:29 | a mean is finite iff the series is nonempty, NaN otherwise |
| Values.MeanTimesCount | analytics.py:29 | a finite mean times the count is the total |
| Values.TruncateToInt | analytics.py:78 | `int(x)` truncates toward zero: the result is within 1 of x, on x's side of zero |
| Values.IndexOf | data_manager.py:93 | `list.index` gives the first position holding the value |
| Values.FirstWhere | food_manager.py:107-108 | a search loop that stops at the first passing entry: the position found passes, none before it does, and no position is found only when none passes |
| Values.Last | analytics.py:71 | `tail(n)` is the last min(n, len) elements |
| Values.Take | analytics.py:120 | `head(n)` is the first min(n, len) elements |
| Text.Split | food_manager.py:78 | `split(',')` gives at least one piece, and no piece holds the separator |
| Text.JoinSplit | food_manager.py:78 | joining the pieces of a split with the separator gives the text back |
| Text.StripLeft | app.py:503 | `strip()` on the left removes exactly the leading white space |
| Text.StripRight | app.py:503 | `strip()` on the right removes exactly the trailing white space |
| Text.StripTrimmed | app.py:503 | a text without white space at either end is unchanged by `strip()` |
| Text.Lower | app.py:503 | `lower()` on ASCII letters: each character is lower-cased in place, the length is kept |
| Text.Strip | app.py:503 | `strip()` gives a slice of the text with white space only before and after it, and none at its own ends |
| Text.BelowTransitive | food_manager.py:99 | the string order `sorted` uses is transitive |
| Text.BelowTotal | food_manager.py:99 | any two different strings are ordered one way or the other |
| Text.SortedSet | food_manager.py:98-99 | `sorted(set(xs))` is strictly ascending and holds exactly the elements of xs |
| Text.AscendingHasNoDuplicates | food_manager.py:98-99 | a strictly ascending list has no repeated string |
| Ledger.NewRecord | data_manager.py:95-105 | a new record's weekday columns come from its date; revenue = qty × price; waste cost = waste × price × 0.3 |
| Ledger.TotalAppend | data_manager.py:107 | the column total of a concatenation is the sum of the totals |
| Ledger.Where | data_manager.py:118-121 | a boolean filter keeps exactly the records that satisfy the condition |
| Ledger.WhereNone | data_manager.py:118-121 | a filter that rejects every record leaves nothing |
| Ledger.WhereAppend | data_manager.py:118-121 | filtering distributes over concatenation, so every passing record is kept as often as it occurs and in ledger order |
| Ledger.WhereSplitsTotal | data_manager.py:118-126 | a filter and its complement split every column total, so the period sums count each passing record exactly once |
| Ledger.Group | analytics.py:28 | a `groupby` group holds exactly the records with that key |
| Ledger.TotalByGroups | analytics.py:28-32 | group totals over the distinct keys add up to the column total: nothing lost, nothing counted twice |
| Ledger.Distinct | analytics.py:28 | the group keys are distinct and are exactly the keys present |
| Ledger.Dates | analytics.py:16 | the distinct dates, ascending, are exactly the dates present |
| Ledger.DailyTotals | analytics.py:16-20 | one row per distinct date, in date order, each holding the sums over that date's records |
| Ledger.DailyTotalsConserve | analytics.py:16-20 | the per-date rows add up to the ledger's column totals |
| Ledger.SortBy | analytics.py:42 | `sort_values` yields an ordered permutation of its input |
| Ledger.SortKeepsSum | analytics.py:42 | sorting keeps the sum of any column |
| Ledger.PermutationKeepsNoDuplicates | analytics.py:42 | a permutation of a duplicate-free list is duplicate-free |
| Ledger.PermutedKeyedRows | analytics.py:42 | after sorting, every row is one of the per-key rows and vice versa, and row keys stay distinct |
| Analytics.Recent | analytics.py:14 | the window keeps exactly the records dated at or after now − period |
| Analytics.SalesTrends | analytics.py:14-20 | trend rows are strictly ascending by date, and each holds the window's sums for its date |
| Analytics.SalesTrendsCoverWindow | analytics.py:14-20 | a trend row exists for exactly the dates with a record in the window, all on or after the cut-off day |
| Analytics.SalesTrendsConserve | analytics.py:16-20 | the trend's columns add up to the window's totals |
| Analytics.Items | analytics.py:28 | the menu items are distinct and are exactly those in the ledger |
| Analytics.PerformanceRowFor | analytics.py:28-40 | the row is for that item; profitability = revenue − waste cost; waste % = waste / sold × 100; the average is defined iff the ledger holds a record for the item |
| Analytics.PerformanceRows | analytics.py:28-40 | one performance row per listed item, in order |
| Analytics.MenuPerformance | analytics.py:28-42 | the table is non-increasing by profitability and is a permutation of the per-item rows |
| Analytics.MenuPerformanceRowsAreItemRows | analytics.py:28-40 | every row is the row computed for its own item, and that item occurs in the ledger |
| Analytics.MenuPerformanceCoversItems | analytics.py:28 | every item in the ledger has a row |
| Analytics.MenuPerformanceItemsDistinct | analytics.py:28 | no item has two rows |
| Analytics.PerformanceRowMeaning | analytics.py:28-40 | totals are the group sums; profitability = revenue − waste cost; waste % = waste / sold × 100; the average is the group mean |
| Analytics.ProfitabilityAddsUp | analytics.py:40-42 | the profitability column sums to total revenue − total waste cost |
| Analytics.WasteRowFor | analytics.py:88-94 | the row is for that item; waste % = waste / sold × 100 |
| Analytics.WasteRows | analytics.py:88-94 | one waste row per listed item, in order |
| Analytics.WasteAnalysis | analytics.py:88-95 | the waste table is non-increasing by waste cost and is a permutation of the per-item rows |
| Analytics.WasteAnalysisRowsAreItemRows | analytics.py:88-94 | every waste row is the row computed for its item, and that item occurs in the ledger |
| Analytics.WasteAnalysisCoversItems | analytics.py:88 | every item in the ledger has a waste row |
| Analytics.WasteAnalysisItemsDistinct | analytics.py:88 | no item has two waste rows |
| Analytics.WasteCostAddsUp | analytics.py:88-95 | the waste-cost column sums to the ledger's total waste cost |
| Analytics.DayIndex | analytics.py:56-58 | the categorical order of a weekday name; index 7 for a name outside the list |
| Analytics.WeekdayNamesIndexed | analytics.py:56 | the seven day names are distinct, and each sits at its own index |
| Analytics.OccurringDays | analytics.py:49 | the weekday indices present, ascending, exactly those with a record |
| Analytics.PatternRowFor | analytics.py:49-59 | the row is for that day name; its mean is defined iff some record carries the name |
| Analytics.DailyPatterns | analytics.py:49-59 | at most seven rows, one per weekday |
| Analytics.DailyPatternsOrdered | analytics.py:55-59 | every row is for one of the seven weekday names, and the rows run Monday→Sunday in the categorical order |
| Analytics.DailyPatternsComplete | analytics.py:49-53 | a weekday has a row iff it occurs in the data, and that row holds its means |
| Analytics.Quantities | analytics.py:68 | the per-date quantity series, one value per date in order |
| Analytics.MovingAverage | analytics.py:71 | the mean of the last ≤ 7 values is defined iff there is at least one value |
| Analytics.MovingAverageBounds | analytics.py:71 | the moving average lies between the smallest and the largest daily total |
| Analytics.MovingAverageOfLastWeek | analytics.py:71 | example: on the daily totals [500, 10, 20, …, 70] the average is 40, so the oldest day is ignored |
| Analytics.ForecastLevel | analytics.py:66-71 | the level is a number iff some record lies in the 30-day window |
| Analytics.ForecastLevelUndefinedIffNoHistory | analytics.py:66-71 | the forecast level is NaN iff no record lies in the 30-day window |
| Analytics.ForecastDemand | analytics.py:63-82 | `days` entries all carrying the truncated moving average; no entries for days ≤ 0; failure when the level is NaN |
| Analytics.Project | analytics.py:73-80 | the forecast loop: entry i is the i-th projected day |
| Analytics.ForecastEntryDay | analytics.py:75-79 | entry i is dated now + (i+1) days at the same time of day, with that date's weekday name |
| Analytics.WasteWarnings | analytics.py:108-115 | warnings are all high-waste notes, at most one per waste row |
| Analytics.WasteWarningsInOrder | analytics.py:108-115 | the i-th warning is for the i-th waste row over 15 %, in table order, one per such row |
| Values.Positions | analytics.py:118 | a boolean mask keeps only in-range positions whose element passes |
| Values.PositionsExact | analytics.py:118 | the kept positions are strictly ascending and include every position whose element passes |
| Analytics.WasteWarningsExact | analytics.py:108-115 | a warning is produced exactly for the rows whose waste percentage exceeds 15 |
| Analytics.LowerQuartile | analytics.py:118 | `quantile(0.25)` is defined iff the column is nonempty |
| Analytics.LowerQuartileBounds | analytics.py:118 | the interpolated quartile lies between the column's minimum and maximum |
| Analytics.BelowExact | analytics.py:118 | the mask keeps exactly the rows strictly below the cut |
| Analytics.BelowInOrder | analytics.py:118 | the masked rows keep table order: the i-th is the row at the i-th position below the cut |
| Analytics.LowRowPositions | analytics.py:118 | the positions below the lower quartile, ascending; a position is listed iff its profitability is below the quartile |
| Analytics.LowPerformers | analytics.py:118 | the low performers are rows of the performance table |
| Analytics.LowPerformersInOrder | analytics.py:118 | the i-th low performer is the row at the i-th position below the quartile |
| Analytics.RecommendationsFrom | analytics.py:105-134 | at most one warning per waste row, two low-profit notes and one overall alert |
| Analytics.RecommendationsExact | analytics.py:105-134 | the whole list: warnings for the rows over 15 % in table order, then notes for the first min(2, n) rows below the quartile in table order, then the overall alert iff overall waste exceeds 15 % |
| Analytics.LowProfitInfos | analytics.py:120-125 | one low-profitability note per listed row, in order |
| Analytics.OverallAlert | analytics.py:128-134 | at most one note, and only a high-overall-waste note |
| Analytics.CollectWasteWarnings | analytics.py:107-115 | the first loop yields exactly the warnings of the waste table, in table order |
| Analytics.CollectLowProfitInfos | analytics.py:117-125 | the second loop yields one low-profitability note per row it is given, in order |
| Analytics.Recommend | analytics.py:105-136 | the recommendation loops build exactly the specified list |
| Analytics.GenerateRecommendations | analytics.py:99-136 | the recommendations of a ledger are those built from its waste table, performance table and overall waste, whose full content RecommendationsExact states |
| Analytics.RecommendationsOrdered | analytics.py:107-134 | warnings come first, then at most two infos, then at most one critical note |
| Analytics.SectionsOrdered | analytics.py:105-136 | three sections of one kind each (warnings, at most two infos, at most one critical note), concatenated, are ordered by severity |
| Analytics.OverallAlertExact | analytics.py:128-134 | the critical note is given iff overall waste exceeds 15 %, and it carries that percentage |
| Analytics.OverallWasteAlertOnLedger | analytics.py:128-129 | the overall test stated on total waste cost and total revenue, covering zero revenue |
| Analytics.WarningsOfRecommendations | analytics.py:107-115 | the high-waste notes in the list are exactly the warnings of the waste table |
| Analytics.HighWasteExact | analytics.py:88-115 | an item is warned about iff it occurs and its waste percentage exceeds 15; its note carries that percentage |
| Analytics.UnsoldItemsAndWarnings | analytics.py:108 | an unsold item with no waste is never warned about (NaN > 15 is false); an unsold item with waste always is (+inf) |
| Analytics.UniformProfitabilityHasNoLowPerformers | analytics.py:118-120 | if every item is equally profitable, no info note is produced |
| Analytics.LowProfitInfosBelowQuartile | analytics.py:118-125 | every info note names an item strictly below the 25th percentile |
| DataManager.ConfigPrice | data_manager.py:93 | the price at the first menu position of the item; none when the item is absent or the price list is too short |
| DataManager.AddSalesRecord | data_manager.py:87-112 | refused iff the price lookup fails; otherwise one consistent record is appended and the earlier ones are unchanged |
| DataManager.DefaultRiceAndStew | data_manager.py:21-28 | with the default menu, 10 plates of rice & stew with 2 wasted give revenue 1200 and waste cost 72 |
| DataManager.UnknownItemRefused | data_manager.py:93-112 | an item not on the menu is refused |
| DataManager.Period | data_manager.py:118-121 | the summary keeps exactly the records within the given bounds; a missing bound does not filter |
| DataManager.SalesSummaryOf | data_manager.py:123-128 | the summary totals are the sums over the period, and the waste percentage is the waste total as a percentage of the revenue total |
| DataManager.AverageDailySalesOverDates | data_manager.py:127 | the daily average is total units over the number of distinct dates, defined iff the period is nonempty |
| DataManager.SummaryWastePercentage | data_manager.py:128 | for a summary whose waste percentage is waste cost over revenue (as every computed summary's is): the percentage is defined iff revenue ≠ 0, and then it scales waste cost to a revenue of 100 |
| DataManager.InvertedPeriodIsEmpty | data_manager.py:118-129 | a start after the end gives zero totals and undefined ratios |
| FoodManager.NewFoodItem | food_manager.py:34-48 | a new item is active and unsold, with popularity 0 and margin = selling − cost, and carries every given field and today's date |
| FoodManager.ListCell | food_manager.py:78-80 | an absent cell gives an empty list; otherwise the pieces join back to the cell |
| FoodManager.RowItem | food_manager.py:71-85 | an uploaded row gives a fresh item with the given id that takes the row's name, category, prices, preparation time and comma-split lists, with the defaults (no name, "general", 0) for missing columns |
| FoodManager.RowItems | food_manager.py:70-88 | an upload adds one fresh item per row, in row order, each taking its row's values, with ids running on from the list |
| FoodManager.ActiveOf | food_manager.py:103 | the active items are exactly the items flagged active |
| FoodManager.ActiveOfAppend | food_manager.py:103 | the active filter keeps list order |
| FoodManager.ActiveCategories | food_manager.py:98 | exactly the categories of active items |
| FoodManager.Popularity | food_manager.py:111 | `min(total / 100, 1.0)` never exceeds 1, is total/100 below 100 sales, and is 1 from 100 sales on |
| FoodManager.Credited | food_manager.py:109-111 | a sale adds to total_sold, sets popularity to min(total_sold / 100, 1), and changes no other field |
| FoodManager.FirstActiveNamed | food_manager.py:107-108 | the first active item with that name, if any (an instance of FirstWhere) |
| FoodManager.FirstWithId | food_manager.py:117-118 | the first item with that id, if any (an instance of FirstWhere) |
| FoodManager.Deactivated | food_manager.py:115-120 | the list keeps its length; exactly the first entry with that id loses its active flag and every other entry is unchanged |
| FoodManager.DeactivateIdempotent | food_manager.py:115-120 | deactivating twice is the same as deactivating once |
| FoodManager.SalesUpdated | food_manager.py:105-112 | exactly the first active item of that name is credited; every other item is unchanged |
| FoodManager.SalesUpdatedTouchesOne | food_manager.py:105-112 | only the first active item of that name is credited; every other item is unchanged, and no id, name or flag changes |
| FoodManager.UploadKeepsIdsConsecutive | food_manager.py:72 | if ids were 1..n, they stay consecutive after an upload |
| FoodManager.UpdatesKeepIds | food_manager.py:105-120 | sales and deactivation keep ids consecutive |
| FoodManager.FoodItemManager.constructor | food_manager.py:7-23 | the catalogue starts from the stored list, or empty when there is no readable file |
| FoodManager.FoodItemManager.AddFoodItem | food_manager.py:31-52 | exactly one fresh item is appended, numbered after the list; absent lists become empty |
| FoodManager.FoodItemManager.UploadFoodItems | food_manager.py:69-91 | the row loop appends the specified items in order; the count reported is the number of rows |
| FoodManager.FoodItemManager.Categories | food_manager.py:96-99 | the categories are strictly ascending, and are exactly those of active items |
| FoodManager.FoodItemManager.ActiveItems | food_manager.py:101-103 | the active items, in list order |
| FoodManager.FoodItemManager.UpdateItemSales | food_manager.py:105-113 | the new list is the specified sales update of the old one |
| FoodManager.FoodItemManager.DeactivateItem | food_manager.py:115-121 | the new list is the specified deactivation of the old one |
| FoodManager.FirstNamed | excel_uploader.py:72-73 | the first entry of the active list with that name, if any (an instance of FirstWhere) |
| FoodManager.FindPrice | excel_uploader.py:72-77 | the search loop returns the price of the first active item of that name |
| FoodManager.ActivePriceIsFirstActive | food_manager.py:101-108 | searching the active items finds the first active item of the whole catalogue |
| FoodManager.SameOfferSamePrices | excel_uploader.py:72-74 | the lookup depends only on names, flags and prices |
| FoodManager.SalesKeepPrices | food_manager.py:105-112 | recording a sale never changes the price a lookup finds |
| ExcelUploader.RawRecord | excel_uploader.py:41-51 | a row's record is dated consistently, has waste 0 when the column is missing, and has price, revenue and waste cost 0 |
| ExcelUploader.Enriched | excel_uploader.py:71-77 | a matched record gets the item's price, revenue = qty × price and waste cost = waste × price × 0.3; an unmatched record is unchanged |
| ExcelUploader.EnrichedByPrice | excel_uploader.py:71-77 | enrichment depends only on the price found |
| ExcelUploader.SalesApplied | excel_uploader.py:54 | crediting every row keeps the catalogue's length |
| ExcelUploader.SalesAppliedKeepPrices | excel_uploader.py:53-77 | crediting the upload's sales does not change any enrichment price |
| ExcelUploader.DedupKeepLast | excel_uploader.py:87 | the merged ledger has no two rows with the same (date, menu item), and every row comes from the input |
| ExcelUploader.KeptPositionsAreTheLast | excel_uploader.py:87 | the kept positions are exactly the rows that no later row shares (date, menu item) with |
| ExcelUploader.DedupKeepsOrder | excel_uploader.py:87 | the kept rows stay in input order: the i-th kept row is the input row at the i-th of strictly ascending positions |
| ExcelUploader.DedupKeepsExactlyTheLast | excel_uploader.py:87 | the last row of each key survives; an earlier row's key survives only through a later row |
| ExcelUploader.DedupKeepsEveryKey | excel_uploader.py:87 | every (date, menu item) of the input survives |
| ExcelUploader.LastIndexOfKey | excel_uploader.py:87 | every row has a last occurrence of its key at or after it |
| ExcelUploader.NewRowsOverride | excel_uploader.py:82-87 | an uploaded row that is the last of its key is the one the merged ledger keeps for that key |
| ExcelUploader.EnrichRecords | excel_uploader.py:71-77 | the nested loop enriches every record as specified |
| ExcelUploader.AppendToMainData | excel_uploader.py:66-88 | the new records are enriched, placed after the stored ledger if there is one, and de-duplicated keeping the last |
| ExcelUploader.CreditRows | excel_uploader.py:33-56 | one raw record per row, in row order, and the catalogue credited with every row's sale in turn |
| ExcelUploader.EnrichedAfterSales | excel_uploader.py:54-58 | records enriched after the upload's sales are credited get the prices of the catalogue as it was before |
| ExcelUploader.UploadSalesData | excel_uploader.py:12-64 | refused without the required columns, changing nothing; otherwise one record and one sales credit per row, the count equal to the number of rows, and the merged ledger |
| SimpleAuth.DisplayRole | simple_auth.py:7-10 | the role label; an unknown role shows as itself |
| SimpleAuth.DefaultAdmin | simple_auth.py:37-51 | the default account is an active administrator "admin" whose password is the hash of "admin" |
| SimpleAuth.FirstActiveUser | simple_auth.py:72-73 | the first active account with that username, if any (an instance of FirstWhere) |
| SimpleAuth.ShadowedAccountUnreachable | simple_auth.py:72-83 | an account behind an earlier active one with the same name can never be logged into |
| SimpleAuth.AppendKeepsLogins | simple_auth.py:121-138 | adding an account under a new name changes no existing login |
| SimpleAuth.NewUser | simple_auth.py:126-136 | a new account is active, has never logged in, and carries the given id |
| SimpleAuth.NewUserCanLogIn | simple_auth.py:126-138 | a freshly added account can log in with its password |
| SimpleAuth.Auth.constructor | simple_auth.py:12-53 | start from the stored table, or from the default administrator alone; nobody is logged in |
| SimpleAuth.Auth.Login | simple_auth.py:67-86 | empty fields fail; only the first active account of the name decides; success stamps last_login and sets the current user, failure changes nothing |
| SimpleAuth.Auth.Logout | simple_auth.py:88-90 | nobody is logged in, so there is no administrator and the user listing is empty |
| SimpleAuth.Auth.AddUser | simple_auth.py:109-142 | not-admin, missing-field and taken-name refusals in that order; added iff an administrator is logged in, all required fields are given and the name is new; appends one active account with the next id; keeps usernames unique |
| SimpleAuth.Auth.GetAllUsers | simple_auth.py:144-148 | the whole table for an administrator, nothing otherwise |
| App.ResolvedPrice | app.py:115-124 | the first active item's price, else the configured price of a menu item, else 0 |
| App.ResolvePrice | app.py:115-124 | the for/else loop computes the resolved price |
| App.AddNewSalesRecord | app.py:109-147 | appends one consistent record at the resolved price and credits the sale; nothing changes when the lookup raises |
| App.CatalogueWins | app.py:116-119 | an active catalogue item's price wins over the configuration |
| App.FallbackAgreesWithDataManager | app.py:120-124 | without a catalogue item, the record is the one the data manager would append |
| App.UnknownItemIsFree | app.py:115 | an item known nowhere is recorded at price 0, so it has no revenue and no waste cost |
| App.IsUserAdmin | app.py:497-504 | a user is an administrator iff the role, stripped of surrounding white space, is "admin" in any letter case |
| App.StrictAdminIsTolerantAdmin | app.py:497-504 | whoever the user table calls an administrator, the settings page does too |
| App.PaddedCapitalAdminAccepted | app.py:503-504 | the role " Admin" is accepted |
| App.AdministratorRefused | app.py:503-504 | the role "administrator" is refused |

## Left out

- The Streamlit pages, forms, charts and session-state wiring are not modelled. They render results and hold no logic of their own.
- Random sample data is not modelled, because it depends on numpy's random generator.
- Persistence is not modelled. This covers reading and writing the Excel and JSON files, backups, templates and storing uploaded files. Ledgers, catalogues and user tables come in and go out as sequences. A missing or unreadable file is `None`.
- SHA-256 is an uninterpreted function given to `SimpleAuth.Auth`.
- `datetime.now()` is a parameter. Timestamps stored as text are opaque strings.
- Analytics.ForecastDemand: the two `datetime.now()` calls (the window and the projected dates) are one instant.
- Message texts, the `:.1f` formatting and `.round(2)` are not modelled. Results carry their values, not their text.
- Floating point is not modelled. Money, means and percentages are exact reals, and divisions follow IEEE only in their infinities and NaN.
- Analytics.MenuPerformance: rows with equal profitability come in one fixed order. The contract promises no tie order, because pandas' sort is not stable.
- Analytics.WasteAnalysis: the same holds for equal waste cost.
- Analytics.DailyPatterns: a stored day name outside the seven English names gets no row. pandas would put such a row last.
- ExcelUploader.UploadSalesData: dates are day numbers, so every two rows for the same day and item match in the de-duplication. In the source, rows stored with a timestamp date fail to match the upload's text dates: every row the data manager has re-saved (data_manager.py:35 and data_manager.py:85), and every row the application writes, whether entered by hand (app.py:127) or generated as sample data (app.py:74). Only rows still stored as text from an earlier upload match. So where the model lets an uploaded row replace a hand-entered record for the same day and item, the source keeps both and counts them twice.
- Conversion failures are not modelled: `int(...)` or `float(...)` of an empty or textual cell, and `strptime` of a malformed date. Rows in the model arrive already typed. An empty name or category cell (NaN) is not modelled either.
- ExcelUploader.UploadSalesData: a failure midway is not modelled. In the source the upload then reports an error and appends nothing to the ledger, but the catalogue credits for the earlier rows have already been saved by `update_item_sales`.
- Text.Lower: only A–Z are lower-cased. Python's `lower()` also maps other letters and can change the length (İ becomes two characters). No such letter lower-cases to a text equal to "admin" except through the ASCII ones, so the administrator test is unaffected.
- FoodManager.FoodItemManager.UploadFoodItems: a failure midway is not modelled. In the source it leaves the rows already appended in memory.
- SimpleAuth.Auth.Login: the current user is a copy of the account, not an alias of the dictionary in the table. Nothing later changes that entry in the modelled operations, so the difference is never visible.
- The application assigning the session's user to the table (`cms.auth.current_user = ...`) is UI wiring and is not modelled.
- A stored account without a role is treated as one with an empty role.
- Main dashboard, debug copies and maintenance scripts are not modelled: they are demo, logging or one-off file scripts.
