/** Merging an uploaded sales sheet into the ledger (excel_uploader.py):
    the required-column check, one raw record per row with a sale credited
    to the catalogue, price enrichment from the active items, and the
    concatenation with the stored ledger de-duplicated on (date, menu item)
    keeping the last occurrence.  Reading and writing the workbooks is left
    to the caller. */
module ExcelUploader {
  import opened Values
  import opened Ledger
  import opened FoodManager

  /** The columns an upload must have. */
  const RequiredColumns: seq<string> := ["date", "menu_item", "quantity_sold"]

  /** One row of the uploaded sheet, its date already read as a day number;
      the waste is None when the sheet has no waste column. */
  datatype SalesRow = SalesRow(date: int, menuItem: string, quantitySold: int, wasteQuantity: Option<int>)

  /** An uploaded sheet: its column headers and its rows. */
  datatype SalesSheet = SalesSheet(columns: seq<string>, rows: seq<SalesRow>)

  datatype UploadError = MissingColumns(required: seq<string>)

  /** A successful upload: how many rows were processed, and the merged
      ledger that is written back. */
  datatype Uploaded = Uploaded(processed: nat, ledger: seq<SalesRecord>)

  predicate HasRequiredColumns(columns: seq<string>) {
    forall i :: 0 <= i < |RequiredColumns| ==> RequiredColumns[i] in columns
  }

  /** The record built from one row before enrichment: dated, unpriced. */
  function RawRecord(row: SalesRow): (r: SalesRecord)
    ensures DatedConsistently(r) && PricedConsistently(r)
    ensures r.price == 0.0 && r.revenue == 0.0 && r.wasteCost == 0.0
    ensures r.date == row.date && r.menuItem == row.menuItem && r.quantitySold == row.quantitySold
    ensures row.wasteQuantity.None? ==> r.wasteQuantity == 0
    ensures row.wasteQuantity.Some? ==> r.wasteQuantity == row.wasteQuantity.value
  {
    NewRecord(row.date, row.menuItem, row.quantitySold, row.wasteQuantity.GetOr(0), 0.0)
  }

  /** A record priced from the first active item of its name; a record
      with no such item keeps its zeros. */
  function Enriched(rec: SalesRecord, active: seq<FoodItem>): (e: SalesRecord)
    ensures FirstNamedPrice(active, rec.menuItem).None? ==> e == rec
    ensures FirstNamedPrice(active, rec.menuItem).Some? ==>
      && e.price == FirstNamedPrice(active, rec.menuItem).value
      && PricedConsistently(e)
      && e.(price := rec.price, revenue := rec.revenue, wasteCost := rec.wasteCost) == rec
  {
    match FirstNamedPrice(active, rec.menuItem)
    case None => rec
    case Some(p) =>
      rec.(price := p, revenue := rec.quantitySold as real * p,
           wasteCost := rec.wasteQuantity as real * p * WasteCostFactor)
  }

  /** Enrichment depends only on the price the lookup finds. */
  lemma EnrichedByPrice(rec: SalesRecord, a: seq<FoodItem>, b: seq<FoodItem>)
    requires FirstNamedPrice(a, rec.menuItem) == FirstNamedPrice(b, rec.menuItem)
    ensures Enriched(rec, a) == Enriched(rec, b)
  {
  }

  /** The catalogue after crediting every row's sale in turn. */
  function SalesApplied(items: seq<FoodItem>, rows: seq<SalesRow>): (r: seq<FoodItem>)
    ensures |r| == |items|
  {
    if rows == [] then items
    else
      var last := rows[|rows| - 1];
      SalesUpdated(SalesApplied(items, rows[..|rows| - 1]), last.menuItem, last.quantitySold)
  }

  lemma SalesAppliedStep(items: seq<FoodItem>, rows: seq<SalesRow>, i: int)
    requires 0 <= i < |rows|
    ensures SalesApplied(items, rows[..i + 1]) ==
      SalesUpdated(SalesApplied(items, rows[..i]), rows[i].menuItem, rows[i].quantitySold)
  {
    assert rows[..i + 1][..i] == rows[..i];
  }

  /** Crediting the sales of an upload does not change the prices its
      records are then enriched with. */
  lemma {:induction false} SalesAppliedKeepPrices(items: seq<FoodItem>, rows: seq<SalesRow>, name: string)
    ensures FirstNamedPrice(ActiveOf(SalesApplied(items, rows)), name) == FirstNamedPrice(ActiveOf(items), name)
  {
    if rows != [] {
      var last := rows[|rows| - 1];
      SalesAppliedKeepPrices(items, rows[..|rows| - 1], name);
      SalesKeepPrices(SalesApplied(items, rows[..|rows| - 1]), last.menuItem, last.quantitySold, name);
    }
  }

  // ---------------------------------------------------------------------
  // De-duplication on (date, menu item), keeping the last occurrence

  function Key(r: SalesRecord): (int, string) {
    (r.date, r.menuItem)
  }

  predicate KeyOccurs(s: seq<SalesRecord>, k: (int, string)) {
    exists j :: 0 <= j < |s| && Key(s[j]) == k
  }

  /** Entry `i` is the last one with its key. */
  predicate LastOfKey(s: seq<SalesRecord>, i: int)
    requires 0 <= i < |s|
  {
    forall j :: i < j < |s| ==> Key(s[j]) != Key(s[i])
  }

  /** `drop_duplicates(subset=['date', 'menu_item'], keep='last')`: the
      entries that no later entry shares a key with, in their order (see `DedupKeepsOrder`). */
  function DedupKeepLast(s: seq<SalesRecord>): (r: seq<SalesRecord>)
    ensures |r| <= |s|
    ensures forall x :: x in r ==> x in s
    ensures forall i, j :: 0 <= i < j < |r| ==> Key(r[i]) != Key(r[j])
  {
    if s == [] then []
    else
      var rest := DedupKeepLast(s[1..]);
      if KeyOccurs(s[1..], Key(s[0])) then rest
      else
        assert forall j :: 0 <= j < |rest| ==> Key(rest[j]) != Key(s[0]) by {
          forall j | 0 <= j < |rest| ensures Key(rest[j]) != Key(s[0]) {
            assert rest[j] in s[1..];
          }
        }
        [s[0]] + rest
  }

  /** The input positions `DedupKeepLast` keeps, ascending: the last of
      each key (`KeptPositionsAreTheLast`). */
  function KeptPositions(s: seq<SalesRecord>): seq<nat>
  {
    if s == [] then []
    else
      var later := KeptPositions(s[1..]);
      var shifted := seq(|later|, i requires 0 <= i < |later| => later[i] + 1);
      if KeyOccurs(s[1..], Key(s[0])) then shifted else [0] + shifted
  }

  /** The kept positions are exactly those that are the last of their key. */
  lemma {:induction false} KeptPositionsAreTheLast(s: seq<SalesRecord>)
    ensures forall i :: i in KeptPositions(s) <==> 0 <= i < |s| && LastOfKey(s, i)
  {
    if s != [] {
      KeptPositionsAreTheLast(s[1..]);
      var later := KeptPositions(s[1..]);
      var shifted := seq(|later|, i requires 0 <= i < |later| => later[i] + 1);
      assert KeptPositions(s) == if KeyOccurs(s[1..], Key(s[0])) then shifted else [0] + shifted;
      assert 0 !in shifted;
      assert KeyOccurs(s[1..], Key(s[0])) <==> !LastOfKey(s, 0) by {
        assert forall j :: 0 < j < |s| ==> s[j] == s[1..][j - 1];
      }
      forall i | 0 < i
        ensures i in shifted <==> i < |s| && LastOfKey(s, i)
      {
        if i in shifted {
          var k :| 0 <= k < |shifted| && shifted[k] == i;
          assert later[k] == i - 1;
        }
        if i - 1 in later {
          var k :| 0 <= k < |later| && later[k] == i - 1;
          assert shifted[k] == i;
        }
        if i < |s| {
          assert LastOfKey(s, i) <==> LastOfKey(s[1..], i - 1) by {
            assert forall j :: i < j < |s| ==> s[j] == s[1..][j - 1];
          }
        }
      }
    }
  }

  /** The kept rows keep their input order: the i-th kept row is the input
      row at the i-th of a strictly ascending list of positions. */
  lemma {:induction false} DedupKeepsOrder(s: seq<SalesRecord>)
    ensures var r, ks := DedupKeepLast(s), KeptPositions(s);
      && |ks| == |r|
      && (forall i, j :: 0 <= i < j < |ks| ==> ks[i] < ks[j])
      && forall i :: 0 <= i < |ks| ==> ks[i] < |s| && r[i] == s[ks[i]]
  {
    if s != [] {
      DedupKeepsOrder(s[1..]);
      var later := KeptPositions(s[1..]);
      var shifted := seq(|later|, i requires 0 <= i < |later| => later[i] + 1);
      ShiftedPositions(s, DedupKeepLast(s[1..]), later, shifted);
    }
  }

  /** Positions into the tail of `s`, moved up by one, are positions into
      `s` itself, with or without the head in front. */
  lemma ShiftedPositions<T>(s: seq<T>, rest: seq<T>, later: seq<nat>, shifted: seq<nat>)
    requires s != [] && |later| == |rest|
    requires forall i, j :: 0 <= i < j < |later| ==> later[i] < later[j]
    requires forall i :: 0 <= i < |later| ==> later[i] < |s| - 1 && rest[i] == s[1..][later[i]]
    requires |shifted| == |later| && forall i :: 0 <= i < |later| ==> shifted[i] == later[i] + 1
    ensures forall i, j :: 0 <= i < j < |shifted| ==> shifted[i] < shifted[j]
    ensures forall i :: 0 <= i < |shifted| ==> shifted[i] < |s| && rest[i] == s[shifted[i]]
    ensures var ks, r := [0] + shifted, [s[0]] + rest;
      && (forall i, j :: 0 <= i < j < |ks| ==> ks[i] < ks[j])
      && forall i :: 0 <= i < |ks| ==> ks[i] < |s| && r[i] == s[ks[i]]
  {
  }

  /** An entry survives when it is the last of its key; otherwise every
      entry kept for its key comes from further on. */
  lemma {:induction false} DedupKeepsExactlyTheLast(s: seq<SalesRecord>, i: int)
    requires 0 <= i < |s|
    ensures LastOfKey(s, i) ==> s[i] in DedupKeepLast(s)
    ensures !LastOfKey(s, i) ==> forall x :: x in DedupKeepLast(s) && Key(x) == Key(s[i]) ==> x in s[i + 1..]
  {
    var rest := DedupKeepLast(s[1..]);
    if i == 0 {
      if LastOfKey(s, 0) {
        assert !KeyOccurs(s[1..], Key(s[0]));
      } else {
        var j :| 0 < j < |s| && Key(s[j]) == Key(s[0]);
        assert Key(s[1..][j - 1]) == Key(s[0]);
        assert DedupKeepLast(s) == rest;
      }
    } else {
      DedupKeepsExactlyTheLast(s[1..], i - 1);
      assert s[1..][i - 1] == s[i];
      assert s[1..][i..] == s[i + 1..];
      assert LastOfKey(s, i) <==> LastOfKey(s[1..], i - 1) by {
        assert forall j :: i < j < |s| ==> s[j] == s[1..][j - 1];
      }
      assert Key(s[1..][i - 1]) == Key(s[i]);
    }
  }

  /** Every key of the input survives, once. */
  lemma {:induction false} DedupKeepsEveryKey(s: seq<SalesRecord>, k: (int, string))
    requires KeyOccurs(s, k)
    ensures exists j :: 0 <= j < |DedupKeepLast(s)| && Key(DedupKeepLast(s)[j]) == k
  {
    var i :| 0 <= i < |s| && Key(s[i]) == k;
    var last := LastIndexOfKey(s, i);
    DedupKeepsExactlyTheLast(s, last);
    var r := DedupKeepLast(s);
    var j :| 0 <= j < |r| && r[j] == s[last];
  }

  /** The last index at or after `i` that carries the key of `s[i]`. */
  function LastIndexOfKey(s: seq<SalesRecord>, i: int): (j: int)
    requires 0 <= i < |s|
    ensures i <= j < |s| && Key(s[j]) == Key(s[i]) && LastOfKey(s, j)
    decreases |s| - i
  {
    if exists j :: i < j < |s| && Key(s[j]) == Key(s[i]) then
      var j :| i < j < |s| && Key(s[j]) == Key(s[i]);
      LastIndexOfKey(s, j)
    else i
  }

  /** New rows override stored ones: when a key's last occurrence is an
      uploaded row, that row is the one the merged ledger holds for it. */
  lemma NewRowsOverride(existing: seq<SalesRecord>, uploaded: seq<SalesRecord>, i: int)
    requires 0 <= i < |uploaded| && LastOfKey(uploaded, i)
    ensures uploaded[i] in DedupKeepLast(existing + uploaded)
    ensures forall x :: x in DedupKeepLast(existing + uploaded) && Key(x) == Key(uploaded[i]) ==> x == uploaded[i]
  {
    var s := existing + uploaded;
    var n := |existing| + i;
    assert s[n] == uploaded[i];
    assert LastOfKey(s, n) by {
      forall j | n < j < |s| ensures Key(s[j]) != Key(s[n]) {
        assert s[j] == uploaded[j - |existing|];
      }
    }
    DedupKeepsExactlyTheLast(s, n);
    var r := DedupKeepLast(s);
    forall x | x in r && Key(x) == Key(uploaded[i]) ensures x == uploaded[i] {
      var a :| 0 <= a < |r| && r[a] == x;
      var b :| 0 <= b < |r| && r[b] == uploaded[i];
      assert a == b;
    }
  }

  // ---------------------------------------------------------------------
  // The upload

  /** The enrichment loop of `_append_to_main_data`: every record searched
      for among the active items, and priced from the first match. */
  method EnrichRecords(data: seq<SalesRecord>, active: seq<FoodItem>) returns (enriched: seq<SalesRecord>)
    ensures |enriched| == |data|
    ensures forall i :: 0 <= i < |data| ==> enriched[i] == Enriched(data[i], active)
  {
    enriched := data;
    var i := 0;
    while i < |enriched|
      invariant 0 <= i <= |enriched| == |data|
      invariant forall k :: 0 <= k < i ==> enriched[k] == Enriched(data[k], active)
      invariant forall k :: i <= k < |data| ==> enriched[k] == data[k]
    {
      var rec := enriched[i];
      var price := FindPrice(active, rec.menuItem);
      if price.Some? {
        var p := price.value;
        enriched := enriched[i := rec.(price := p, revenue := rec.quantitySold as real * p,
                                       wasteCost := rec.wasteQuantity as real * p * WasteCostFactor)];
      }
      i := i + 1;
    }
  }

  /** `_append_to_main_data`: enrich the new records from the catalogue's
      active items, put them after the stored ledger when there is one, and
      keep the last row of every (date, menu item). */
  method AppendToMainData(newData: seq<SalesRecord>, fm: FoodItemManager, stored: Option<seq<SalesRecord>>)
    returns (ledger: seq<SalesRecord>, enriched: seq<SalesRecord>)
    ensures |enriched| == |newData|
    ensures forall i :: 0 <= i < |newData| ==> enriched[i] == Enriched(newData[i], ActiveOf(fm.items))
    ensures ledger == DedupKeepLast(stored.GetOr([]) + enriched)
  {
    var active := fm.ActiveItems();
    enriched := EnrichRecords(newData, active);
    var updated;
    if stored.Some? {
      updated := stored.value + enriched;
    } else {
      updated := enriched;
      assert [] + enriched == enriched;
    }
    ledger := DedupKeepLast(updated);
  }

  /** `processed` holds the raw records of the first `|processed|` rows. */
  predicate RawPrefix(rows: seq<SalesRow>, processed: seq<SalesRecord>) {
    && |processed| <= |rows|
    && forall k :: 0 <= k < |processed| ==> processed[k] == RawRecord(rows[k])
  }

  lemma RawPrefixStep(rows: seq<SalesRow>, processed: seq<SalesRecord>)
    requires RawPrefix(rows, processed) && |processed| < |rows|
    ensures RawPrefix(rows, processed + [RawRecord(rows[|processed|])])
  {
    var next := processed + [RawRecord(rows[|processed|])];
    assert forall k :: 0 <= k < |processed| ==> next[k] == processed[k];
  }

  /** The row loop of `upload_sales_data`: a raw record per row, each
      row's sale credited to the catalogue as it goes. */
  method CreditRows(rows: seq<SalesRow>, fm: FoodItemManager) returns (processed: seq<SalesRecord>)
    modifies fm
    ensures |processed| == |rows|
    ensures forall k :: 0 <= k < |rows| ==> processed[k] == RawRecord(rows[k])
    ensures fm.items == SalesApplied(old(fm.items), rows)
  {
    processed := [];
    var i := 0;
    while i < |rows|
      invariant 0 <= i <= |rows|
      invariant |processed| == i && RawPrefix(rows, processed)
      invariant fm.items == SalesApplied(old(fm.items), rows[..i])
    {
      var row := rows[i];
      RawPrefixStep(rows, processed);
      processed := processed + [RawRecord(row)];
      SalesAppliedStep(old(fm.items), rows, i);
      fm.UpdateItemSales(row.menuItem, row.quantitySold);
      i := i + 1;
    }
    assert rows[..i] == rows;
  }

  /** Records enriched after the sales were credited carry the prices of
      the catalogue as it was before. */
  lemma EnrichedAfterSales(items: seq<FoodItem>, rows: seq<SalesRow>, processed: seq<SalesRecord>,
                           enriched: seq<SalesRecord>)
    requires |processed| == |rows| && |enriched| == |rows|
    requires forall k :: 0 <= k < |rows| ==> processed[k] == RawRecord(rows[k])
    requires forall k :: 0 <= k < |rows| ==> enriched[k] == Enriched(processed[k], ActiveOf(SalesApplied(items, rows)))
    ensures forall k :: 0 <= k < |rows| ==> enriched[k] == Enriched(RawRecord(rows[k]), ActiveOf(items))
  {
    forall k | 0 <= k < |rows| ensures enriched[k] == Enriched(RawRecord(rows[k]), ActiveOf(items)) {
      SalesAppliedKeepPrices(items, rows, processed[k].menuItem);
      EnrichedByPrice(processed[k], ActiveOf(SalesApplied(items, rows)), ActiveOf(items));
    }
  }

  /** `upload_sales_data`: refuse a sheet without the required columns;
      otherwise build one raw record per row, credit each row's sale to the
      catalogue, and merge.  The count reported is the number of rows. */
  method UploadSalesData(sheet: SalesSheet, fm: FoodItemManager, stored: Option<seq<SalesRecord>>)
    returns (r: Result<Uploaded, UploadError>, enriched: seq<SalesRecord>)
    modifies fm
    ensures !HasRequiredColumns(sheet.columns) ==> r == Failure(MissingColumns(RequiredColumns)) && fm.items == old(fm.items)
    ensures HasRequiredColumns(sheet.columns) ==>
      && r.Success? && r.value.processed == |sheet.rows|
      && fm.items == SalesApplied(old(fm.items), sheet.rows)
      && |enriched| == |sheet.rows|
      && (forall i :: 0 <= i < |sheet.rows| ==>
            enriched[i] == Enriched(RawRecord(sheet.rows[i]), ActiveOf(old(fm.items))))
      && r.value.ledger == DedupKeepLast(stored.GetOr([]) + enriched)
  {
    enriched := [];
    if !HasRequiredColumns(sheet.columns) {
      return Failure(MissingColumns(RequiredColumns)), enriched;
    }
    var processed := CreditRows(sheet.rows, fm);
    var ledger;
    ledger, enriched := AppendToMainData(processed, fm, stored);
    EnrichedAfterSales(old(fm.items), sheet.rows, processed, enriched);
    r := Success(Uploaded(|processed|, ledger));
  }
}
