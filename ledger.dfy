/** The sales ledger: one record per menu item per day, the column totals
    the reports are built from, `groupby` on a key, and the ordering used by
    `sort_values`. */
module Ledger {
  import opened Values

  /** Wasted units cost 30% of their selling price to produce. */
  const WasteCostFactor: real := 0.3

  /** One row of the sales table. */
  datatype SalesRecord = SalesRecord(
    date: int,
    dayOfWeek: string,
    menuItem: string,
    quantitySold: int,
    price: real,
    revenue: real,
    wasteQuantity: int,
    wasteCost: real,
    isWeekday: bool)

  /** The two columns derived from the date agree with it. */
  predicate DatedConsistently(r: SalesRecord) {
    r.dayOfWeek == DayName(r.date) && r.isWeekday == IsWeekday(r.date)
  }

  /** The two money columns agree with the quantities and the unit price. */
  predicate PricedConsistently(r: SalesRecord) {
    && r.revenue == r.quantitySold as real * r.price
    && r.wasteCost == r.wasteQuantity as real * r.price * WasteCostFactor
  }

  /** The record dictionary that both ways of entering a sale build. */
  function NewRecord(date: int, menuItem: string, quantitySold: int, wasteQuantity: int, price: real): (r: SalesRecord)
    ensures DatedConsistently(r) && PricedConsistently(r)
    ensures r.date == date && r.menuItem == menuItem && r.price == price
    ensures r.quantitySold == quantitySold && r.wasteQuantity == wasteQuantity
  {
    SalesRecord(date, DayName(date), menuItem, quantitySold, price,
                quantitySold as real * price, wasteQuantity,
                wasteQuantity as real * price * WasteCostFactor, IsWeekday(date))
  }

  // ---------------------------------------------------------------------
  // Column totals

  /** The four summable columns. */
  datatype Measure = QuantitySold | Revenue | WasteQuantity | WasteCost

  function Value(r: SalesRecord, m: Measure): real {
    match m
    case QuantitySold => r.quantitySold as real
    case Revenue => r.revenue
    case WasteQuantity => r.wasteQuantity as real
    case WasteCost => r.wasteCost
  }

  /** `column.sum()`. */
  function Total(s: seq<SalesRecord>, m: Measure): real {
    if s == [] then 0.0 else Value(s[0], m) + Total(s[1..], m)
  }

  lemma {:induction false} TotalAppend(a: seq<SalesRecord>, b: seq<SalesRecord>, m: Measure)
    ensures Total(a + b, m) == Total(a, m) + Total(b, m)
  {
    if a == [] {
      assert a + b == b;
    } else {
      assert (a + b)[1..] == a[1..] + b;
      TotalAppend(a[1..], b, m);
    }
  }

  /** `data[mask]`: the records that satisfy a condition, in ledger order. */
  function Where(s: seq<SalesRecord>, keep: SalesRecord -> bool): (w: seq<SalesRecord>)
    ensures |w| <= |s|
    ensures forall r :: r in w <==> r in s && keep(r)
  {
    if s == [] then []
    else (if keep(s[0]) then [s[0]] else []) + Where(s[1..], keep)
  }

  /** Filtering distributes over concatenation: every passing record is
      kept, as often as it occurs, in ledger order. */
  lemma {:induction false} WhereAppend(a: seq<SalesRecord>, b: seq<SalesRecord>, keep: SalesRecord -> bool)
    ensures Where(a + b, keep) == Where(a, keep) + Where(b, keep)
  {
    if a == [] {
      assert a + b == b;
    } else {
      assert (a + b)[1..] == a[1..] + b;
      WhereAppend(a[1..], b, keep);
    }
  }

  /** A filter and its complement split every column total between them. */
  lemma {:induction false} WhereSplitsTotal(s: seq<SalesRecord>, keep: SalesRecord -> bool, m: Measure)
    ensures Total(Where(s, keep), m) + Total(Where(s, (r: SalesRecord) => !keep(r)), m) == Total(s, m)
  {
    if s != [] {
      WhereSplitsTotal(s[1..], keep, m);
      var head := if keep(s[0]) then [s[0]] else [];
      TotalAppend(head, Where(s[1..], keep), m);
      var other := if keep(s[0]) then [] else [s[0]];
      TotalAppend(other, Where(s[1..], (r: SalesRecord) => !keep(r)), m);
    }
  }

  // ---------------------------------------------------------------------
  // Grouping

  /** A filter that nothing passes leaves nothing. */
  lemma {:induction false} WhereNone(s: seq<SalesRecord>, keep: SalesRecord -> bool)
    requires forall r :: r in s ==> !keep(r)
    ensures Where(s, keep) == []
  {
    if s != [] {
      assert s[0] in s;
      assert forall r :: r in s[1..] ==> r in s;
      WhereNone(s[1..], keep);
    }
  }

  /** The records of one group of `groupby(key)`, in ledger order. */
  function Group<K(==)>(s: seq<SalesRecord>, key: SalesRecord -> K, k: K): (g: seq<SalesRecord>)
    ensures |g| <= |s|
    ensures forall r :: r in g <==> r in s && key(r) == k
  {
    if s == [] then []
    else (if key(s[0]) == k then [s[0]] else []) + Group(s[1..], key, k)
  }

  /** The sum over the listed groups of each group's total. */
  function GroupsTotal<K(==)>(s: seq<SalesRecord>, key: SalesRecord -> K, ks: seq<K>, m: Measure): real {
    if ks == [] then 0.0 else Total(Group(s, key, ks[0]), m) + GroupsTotal(s, key, ks[1..], m)
  }

  lemma {:induction false} GroupsTotalOfEmpty<K>(key: SalesRecord -> K, ks: seq<K>, m: Measure)
    ensures GroupsTotal([], key, ks, m) == 0.0
  {
    if ks != [] {
      GroupsTotalOfEmpty(key, ks[1..], m);
    }
  }

  lemma {:induction false} GroupsTotalCons<K>(x: SalesRecord, t: seq<SalesRecord>, key: SalesRecord -> K, ks: seq<K>, m: Measure)
    requires NoDuplicates(ks)
    ensures GroupsTotal([x] + t, key, ks, m)
         == (if key(x) in ks then Value(x, m) else 0.0) + GroupsTotal(t, key, ks, m)
  {
    if ks != [] {
      var s := [x] + t;
      assert s[0] == x && s[1..] == t;
      var head := if key(x) == ks[0] then [x] else [];
      assert Group(s, key, ks[0]) == head + Group(t, key, ks[0]);
      TotalAppend(head, Group(t, key, ks[0]), m);
      assert Total(head, m) == if key(x) == ks[0] then Value(x, m) else 0.0;
      assert NoDuplicates(ks[1..]);
      GroupsTotalCons(x, t, key, ks[1..], m);
      assert key(x) == ks[0] ==> key(x) !in ks[1..];
      assert key(x) in ks <==> key(x) == ks[0] || key(x) in ks[1..];
    }
  }

  /** Grouping neither loses nor double-counts: the group totals over a
      duplicate-free list of keys that covers every record add up to the
      column total. */
  lemma {:induction false} TotalByGroups<K>(s: seq<SalesRecord>, key: SalesRecord -> K, ks: seq<K>, m: Measure)
    requires NoDuplicates(ks)
    requires forall r :: r in s ==> key(r) in ks
    ensures GroupsTotal(s, key, ks, m) == Total(s, m)
  {
    if s == [] {
      GroupsTotalOfEmpty(key, ks, m);
    } else {
      assert s == [s[0]] + s[1..];
      GroupsTotalCons(s[0], s[1..], key, ks, m);
      TotalByGroups(s[1..], key, ks, m);
    }
  }

  /** The distinct elements of a sequence, each once. */
  function Distinct<K(==,!new)>(xs: seq<K>): (d: seq<K>)
    ensures NoDuplicates(d)
    ensures forall x :: x in d <==> x in xs
  {
    if xs == [] then []
    else
      var rest := Distinct(xs[1..]);
      if xs[0] in rest then rest else [xs[0]] + rest
  }

  // ---------------------------------------------------------------------
  // Per-date totals: groupby('date').sum()

  predicate Ascending(ds: seq<int>) {
    forall i, j :: 0 <= i < j < |ds| ==> ds[i] < ds[j]
  }

  lemma AscendingTail(ds: seq<int>)
    requires Ascending(ds) && ds != []
    ensures Ascending(ds[1..])
    ensures forall e :: e in ds[1..] ==> ds[0] < e
    ensures forall e :: e in ds <==> e == ds[0] || e in ds[1..]
  {
    forall e | e in ds[1..] ensures ds[0] < e {
      var j :| 0 <= j < |ds[1..]| && ds[1..][j] == e;
      assert ds[j + 1] == e;
    }
    assert ds == [ds[0]] + ds[1..];
  }

  lemma ConsAscending(h: int, rest: seq<int>)
    requires Ascending(rest)
    requires forall e :: e in rest ==> h < e
    ensures Ascending([h] + rest)
  {
    forall i, j | 0 <= i < j < |[h] + rest| ensures ([h] + rest)[i] < ([h] + rest)[j] {
      assert ([h] + rest)[j] == rest[j - 1] && rest[j - 1] in rest;
      if i > 0 {
        assert ([h] + rest)[i] == rest[i - 1];
      }
    }
  }

  function InsertDate(d: int, ds: seq<int>): (r: seq<int>)
    requires Ascending(ds)
    ensures Ascending(r)
    ensures forall e :: e in r <==> e == d || e in ds
  {
    if ds == [] then [d]
    else if d < ds[0] then
      AscendingTail(ds);
      ConsAscending(d, ds);
      [d] + ds
    else if d == ds[0] then ds
    else
      AscendingTail(ds);
      var rest := InsertDate(d, ds[1..]);
      ConsAscending(ds[0], rest);
      [ds[0]] + rest
  }

  /** The distinct dates of the records, ascending (the group keys, which
      `groupby` sorts). */
  function Dates(s: seq<SalesRecord>): (ds: seq<int>)
    ensures Ascending(ds) && NoDuplicates(ds)
    ensures forall d :: d in ds <==> exists r :: r in s && r.date == d
  {
    if s == [] then []
    else
      var rest := Dates(s[1..]);
      assert forall r :: r in s <==> r == s[0] || r in s[1..];
      InsertDate(s[0].date, rest)
  }

  function DateOf(r: SalesRecord): int {
    r.date
  }

  /** One row of the per-date table: the date and its three sums. */
  datatype DailyRow = DailyRow(date: int, quantitySold: real, revenue: real, wasteQuantity: real)

  function DailyRowFor(s: seq<SalesRecord>, d: int): DailyRow {
    var g := Group(s, DateOf, d);
    DailyRow(d, Total(g, QuantitySold), Total(g, Revenue), Total(g, WasteQuantity))
  }

  function DailyRowsOver(s: seq<SalesRecord>, ds: seq<int>): (rows: seq<DailyRow>)
    ensures |rows| == |ds|
    ensures forall i :: 0 <= i < |ds| ==> rows[i] == DailyRowFor(s, ds[i]) && rows[i].date == ds[i]
  {
    if ds == [] then [] else [DailyRowFor(s, ds[0])] + DailyRowsOver(s, ds[1..])
  }

  /** `groupby('date').agg(sum of quantity_sold, revenue, waste_quantity)`:
      one row per distinct date (`Dates` lists them ascending), each holding
      the sums over that date's records. */
  function DailyTotals(s: seq<SalesRecord>): (rows: seq<DailyRow>)
    ensures |rows| == |Dates(s)|
    ensures forall i :: 0 <= i < |rows| ==> rows[i].date == Dates(s)[i]
    ensures forall i :: 0 <= i < |rows| ==> rows[i] == DailyRowFor(s, rows[i].date)
  {
    DailyRowsOver(s, Dates(s))
  }

  /** The column of the per-date table that sums measure `m`. */
  function Column(row: DailyRow, m: Measure): real
    requires m != WasteCost
  {
    match m
    case QuantitySold => row.quantitySold
    case Revenue => row.revenue
    case WasteQuantity => row.wasteQuantity
  }

  function ColumnTotal(rows: seq<DailyRow>, m: Measure): real
    requires m != WasteCost
  {
    if rows == [] then 0.0 else Column(rows[0], m) + ColumnTotal(rows[1..], m)
  }

  lemma {:induction false} RowsOverTotal(s: seq<SalesRecord>, ds: seq<int>, m: Measure)
    requires m != WasteCost
    ensures ColumnTotal(DailyRowsOver(s, ds), m) == GroupsTotal(s, DateOf, ds, m)
  {
    if ds != [] {
      var rows := DailyRowsOver(s, ds);
      assert rows[1..] == DailyRowsOver(s, ds[1..]);
      RowsOverTotal(s, ds[1..], m);
    }
  }

  /** Each per-date column adds up to the column total of the ledger. */
  lemma DailyTotalsConserve(s: seq<SalesRecord>, m: Measure)
    requires m != WasteCost
    ensures ColumnTotal(DailyTotals(s), m) == Total(s, m)
  {
    var ds := Dates(s);
    RowsOverTotal(s, ds, m);
    assert forall r :: r in s ==> DateOf(r) in ds;
    TotalByGroups(s, DateOf, ds, m);
  }

  // ---------------------------------------------------------------------
  // Ordering: sort_values

  predicate SortedBy<T>(s: seq<T>, key: T -> real) {
    forall i, j :: 0 <= i < j < |s| ==> key(s[i]) <= key(s[j])
  }

  function InsertBy<T(!new)>(x: T, s: seq<T>, key: T -> real): (r: seq<T>)
    requires SortedBy(s, key)
    ensures forall y :: y in r <==> y == x || y in s
    ensures SortedBy(r, key)
    ensures multiset(r) == multiset(s) + multiset{x}
  {
    if s == [] || key(x) <= key(s[0]) then [x] + s
    else
      var rest := InsertBy(x, s[1..], key);
      HeadBelowTail(s, key);
      assert s == [s[0]] + s[1..];
      ConsSorted(s[0], rest, key);
      [s[0]] + rest
  }

  lemma HeadBelowTail<T>(s: seq<T>, key: T -> real)
    requires SortedBy(s, key) && s != []
    ensures forall y :: y in s[1..] ==> key(s[0]) <= key(y)
  {
    forall y | y in s[1..] ensures key(s[0]) <= key(y) {
      var j :| 0 <= j < |s[1..]| && s[1..][j] == y;
      assert s[j + 1] == y;
    }
  }

  lemma ConsSorted<T>(h: T, rest: seq<T>, key: T -> real)
    requires SortedBy(rest, key)
    requires forall y :: y in rest ==> key(h) <= key(y)
    ensures SortedBy([h] + rest, key)
  {
    forall i, j | 0 <= i < j < |[h] + rest| ensures key(([h] + rest)[i]) <= key(([h] + rest)[j]) {
      assert ([h] + rest)[j] == rest[j - 1] && rest[j - 1] in rest;
      if i > 0 {
        assert ([h] + rest)[i] == rest[i - 1];
      }
    }
  }

  /** An ordering of `s` that is ascending by `key` (which of several equal
      keys comes first is this model's choice: `sort_values` does not fix it). */
  function SortBy<T(!new)>(s: seq<T>, key: T -> real): (r: seq<T>)
    ensures SortedBy(r, key)
    ensures multiset(r) == multiset(s)
  {
    if s == [] then []
    else
      assert s == [s[0]] + s[1..];
      InsertBy(s[0], SortBy(s[1..], key), key)
  }

  function SumBy<T>(s: seq<T>, f: T -> real): real {
    if s == [] then 0.0 else f(s[0]) + SumBy(s[1..], f)
  }

  lemma {:induction false} InsertKeepsSum<T(!new)>(x: T, s: seq<T>, key: T -> real, f: T -> real)
    requires SortedBy(s, key)
    ensures SumBy(InsertBy(x, s, key), f) == f(x) + SumBy(s, f)
  {
    if s != [] && key(x) > key(s[0]) {
      var r := InsertBy(x, s, key);
      assert r[1..] == InsertBy(x, s[1..], key);
      InsertKeepsSum(x, s[1..], key, f);
    }
  }

  /** Reordering keeps every column sum. */
  lemma {:induction false} SortKeepsSum<T(!new)>(s: seq<T>, key: T -> real, f: T -> real)
    ensures SumBy(SortBy(s, key), f) == SumBy(s, f)
  {
    if s != [] {
      SortKeepsSum(s[1..], key, f);
      InsertKeepsSum(s[0], SortBy(s[1..], key), key, f);
    }
  }

  /** A reordering of a duplicate-free sequence is duplicate-free. */
  lemma PermutationKeepsNoDuplicates<T>(a: seq<T>, b: seq<T>)
    requires multiset(a) == multiset(b)
    requires NoDuplicates(a)
    ensures NoDuplicates(b)
  {
    forall i, j | 0 <= i < j < |b| ensures b[i] != b[j] {
      AtMostOnce(a, b[i]);
      CountOfRepeat(b, i, j);
    }
  }

  lemma CountOfRepeat<T>(b: seq<T>, i: int, j: int)
    requires 0 <= i < j < |b|
    ensures multiset(b)[b[i]] >= if b[i] == b[j] then 2 else 1
  {
    assert b == b[..i] + [b[i]] + b[i + 1..j] + [b[j]] + b[j + 1..];
  }

  lemma {:induction false} AtMostOnce<T>(a: seq<T>, x: T)
    requires NoDuplicates(a)
    ensures multiset(a)[x] <= 1
  {
    if a != [] {
      assert a == [a[0]] + a[1..];
      assert NoDuplicates(a[1..]);
      AtMostOnce(a[1..], x);
      if a[0] == x {
        assert x !in a[1..];
      }
    }
  }

  /** Where a row of a reordering came from. */
  lemma RowOfPermutation<R>(unsorted: seq<R>, rows: seq<R>, i: int) returns (k: nat)
    requires multiset(rows) == multiset(unsorted)
    requires 0 <= i < |rows|
    ensures k < |unsorted| && rows[i] == unsorted[k]
  {
    assert rows[i] in multiset(unsorted);
    k :| 0 <= k < |unsorted| && rows[i] == unsorted[k];
  }

  /** Reordering a table that has one row per distinct key keeps one row
      per key: every row is an original row, every original row is still
      there, and no key repeats. */
  lemma PermutedKeyedRows<R>(unsorted: seq<R>, rows: seq<R>, keys: seq<string>, keyOf: R -> string)
    requires multiset(rows) == multiset(unsorted)
    requires |unsorted| == |keys| && NoDuplicates(keys)
    requires forall k :: 0 <= k < |keys| ==> keyOf(unsorted[k]) == keys[k]
    ensures forall i :: 0 <= i < |rows| ==> exists k :: 0 <= k < |keys| && rows[i] == unsorted[k]
    ensures forall k :: 0 <= k < |keys| ==> exists i :: 0 <= i < |rows| && rows[i] == unsorted[k]
    ensures forall i, j :: 0 <= i < j < |rows| ==> keyOf(rows[i]) != keyOf(rows[j])
  {
    forall i | 0 <= i < |rows| ensures exists k :: 0 <= k < |keys| && rows[i] == unsorted[k] {
      assert rows[i] in multiset(unsorted);
    }
    forall k | 0 <= k < |keys| ensures exists i :: 0 <= i < |rows| && rows[i] == unsorted[k] {
      assert unsorted[k] in multiset(rows);
    }
    assert NoDuplicates(unsorted) by {
      forall p, q | 0 <= p < q < |unsorted| ensures unsorted[p] != unsorted[q] {
        assert keyOf(unsorted[p]) != keyOf(unsorted[q]);
      }
    }
    PermutationKeepsNoDuplicates(unsorted, rows);
    forall i, j | 0 <= i < j < |rows| ensures keyOf(rows[i]) != keyOf(rows[j]) {
      var a :| 0 <= a < |keys| && rows[i] == unsorted[a];
      var b :| 0 <= b < |keys| && rows[j] == unsorted[b];
      assert a != b;
    }
  }
}
