/** The food-item catalogue (food_manager.py): an append-only list of menu
    items with soft deletion, per-item sales counters and a popularity
    score.  The JSON file behind it is left to the caller; today's date is
    passed in as the text `strftime` would produce. */
module FoodManager {
  import opened Values
  import opened Text

  /** One catalogue entry. */
  datatype FoodItem = FoodItem(
    itemId: int,
    name: string,
    category: string,
    sellingPrice: real,
    costPrice: real,
    profitMargin: real,
    ingredients: seq<string>,
    preparationTime: int,
    dietaryTags: seq<string>,
    isActive: bool,
    dateAdded: string,
    totalSold: int,
    popularityScore: real)

  /** A newly catalogued item: active, unsold, and with its margin taken
      from its two prices. */
  predicate FreshItem(item: FoodItem) {
    && item.isActive
    && item.totalSold == 0
    && item.popularityScore == 0.0
    && item.profitMargin == item.sellingPrice - item.costPrice
  }

  function NewFoodItem(itemId: int, name: string, category: string, sellingPrice: real, costPrice: real,
                       ingredients: seq<string>, preparationTime: int, dietaryTags: seq<string>,
                       today: string): (item: FoodItem)
    ensures FreshItem(item)
    ensures item.itemId == itemId && item.name == name && item.category == category
    ensures item.sellingPrice == sellingPrice && item.costPrice == costPrice
    ensures item.ingredients == ingredients && item.dietaryTags == dietaryTags
    ensures item.preparationTime == preparationTime && item.dateAdded == today
  {
    FoodItem(itemId, name, category, sellingPrice, costPrice, sellingPrice - costPrice,
             ingredients, preparationTime, dietaryTags, true, today, 0, 0.0)
  }

  /** One spreadsheet row of an upload; None is a missing column (or, for
      the two lists, an empty cell). */
  datatype FoodRow = FoodRow(
    name: Option<string>,
    category: Option<string>,
    sellingPrice: Option<real>,
    costPrice: Option<real>,
    ingredients: Option<string>,
    preparationTime: Option<int>,
    dietaryTags: Option<string>)

  /** A comma-separated cell as a list; an absent cell is the empty list. */
  function ListCell(cell: Option<string>): (parts: seq<string>)
    ensures cell.None? ==> parts == []
    ensures cell.Some? ==> Join(parts, ',') == cell.value
  {
    match cell
    case None => []
    case Some(text) => JoinSplit(text, ','); Split(text, ',')
  }

  /** `item` carries the values of `row`, with the defaults for missing
      columns: no name, category "general", prices and time 0, no lists. */
  predicate TakesRow(item: FoodItem, row: FoodRow, today: string) {
    && item.name == row.name.GetOr("")
    && item.category == row.category.GetOr("general")
    && item.sellingPrice == row.sellingPrice.GetOr(0.0)
    && item.costPrice == row.costPrice.GetOr(0.0)
    && item.ingredients == ListCell(row.ingredients)
    && item.preparationTime == row.preparationTime.GetOr(0)
    && item.dietaryTags == ListCell(row.dietaryTags)
    && item.dateAdded == today
  }

  /** The item built from one uploaded row. */
  function RowItem(itemId: int, row: FoodRow, today: string): (item: FoodItem)
    ensures FreshItem(item) && item.itemId == itemId
    ensures TakesRow(item, row, today)
    ensures row.category.None? ==> item.category == "general"
    ensures row.sellingPrice.None? ==> item.sellingPrice == 0.0
  {
    NewFoodItem(itemId, row.name.GetOr(""), row.category.GetOr("general"),
                row.sellingPrice.GetOr(0.0), row.costPrice.GetOr(0.0),
                ListCell(row.ingredients), row.preparationTime.GetOr(0),
                ListCell(row.dietaryTags), today)
  }

  /** The items an upload of `rows` adds after `count` existing items. */
  function RowItems(count: int, rows: seq<FoodRow>, today: string): (added: seq<FoodItem>)
    ensures |added| == |rows|
    ensures forall k :: 0 <= k < |added| ==> FreshItem(added[k]) && added[k].itemId == count + k + 1
    ensures forall k :: 0 <= k < |added| ==> TakesRow(added[k], rows[k], today)
  {
    seq(|rows|, k requires 0 <= k < |rows| => RowItem(count + k + 1, rows[k], today))
  }

  /** `added` holds the items made from the first `|added|` rows. */
  predicate RowItemsPrefix(count: int, rows: seq<FoodRow>, today: string, added: seq<FoodItem>) {
    && |added| <= |rows|
    && forall k :: 0 <= k < |added| ==> added[k] == RowItem(count + k + 1, rows[k], today)
  }

  lemma RowItemsPrefixStep(count: int, rows: seq<FoodRow>, today: string, added: seq<FoodItem>)
    requires RowItemsPrefix(count, rows, today, added) && |added| < |rows|
    ensures RowItemsPrefix(count, rows, today, added + [RowItem(count + |added| + 1, rows[|added|], today)])
  {
    var next := added + [RowItem(count + |added| + 1, rows[|added|], today)];
    forall k | 0 <= k < |next|
      ensures next[k] == RowItem(count + k + 1, rows[k], today)
    {
      if k < |added| {
        assert next[k] == added[k];
      }
    }
  }

  lemma RowItemsExtension(count: int, rows: seq<FoodRow>, today: string, added: seq<FoodItem>)
    requires RowItemsPrefix(count, rows, today, added) && |added| == |rows|
    ensures added == RowItems(count, rows, today)
  {
  }

  /** Item `i` carries id `i + 1`. */
  predicate ConsecutiveIds(s: seq<FoodItem>) {
    forall i :: 0 <= i < |s| ==> s[i].itemId == i + 1
  }

  /** The active entries, in list order. */
  function ActiveOf(s: seq<FoodItem>): (r: seq<FoodItem>)
    ensures |r| <= |s|
    ensures forall x :: x in r <==> x in s && x.isActive
  {
    if s == [] then [] else (if s[0].isActive then [s[0]] else []) + ActiveOf(s[1..])
  }

  /** Filtering keeps order: it distributes over concatenation. */
  lemma {:induction false} ActiveOfAppend(s: seq<FoodItem>, t: seq<FoodItem>)
    ensures ActiveOf(s + t) == ActiveOf(s) + ActiveOf(t)
  {
    if s == [] {
      assert s + t == t;
    } else {
      var head := if s[0].isActive then [s[0]] else [];
      assert (s + t)[0] == s[0];
      assert (s + t)[1..] == s[1..] + t;
      ActiveOfAppend(s[1..], t);
      calc {
        ActiveOf(s + t);
        head + ActiveOf(s[1..] + t);
        head + (ActiveOf(s[1..]) + ActiveOf(t));
        (head + ActiveOf(s[1..])) + ActiveOf(t);
      }
    }
  }

  /** The categories of the active entries, in list order. */
  function ActiveCategories(s: seq<FoodItem>): (cs: seq<string>)
    ensures forall c :: c in cs <==> exists x :: x in s && x.isActive && x.category == c
  {
    if s == [] then []
    else
      var rest := ActiveCategories(s[1..]);
      assert forall x :: x in s <==> x == s[0] || x in s[1..];
      (if s[0].isActive then [s[0].category] else []) + rest
  }

  /** `min(total_sold / 100, 1.0)`. */
  function Popularity(totalSold: int): (p: real)
    ensures p <= 1.0
    ensures totalSold >= 0 ==> p >= 0.0
    ensures totalSold < 100 ==> p * 100.0 == totalSold as real
    ensures totalSold >= 100 ==> p == 1.0
  {
    if totalSold as real / 100.0 < 1.0 then totalSold as real / 100.0 else 1.0
  }

  /** An entry after a sale of `quantity` units. */
  function Credited(item: FoodItem, quantity: int): (c: FoodItem)
    ensures c.totalSold == item.totalSold + quantity
    ensures c.popularityScore == Popularity(c.totalSold)
    ensures c.popularityScore <= 1.0
    ensures c == item.(totalSold := c.totalSold, popularityScore := c.popularityScore)
  {
    item.(totalSold := item.totalSold + quantity, popularityScore := Popularity(item.totalSold + quantity))
  }

  /** The position of the first active entry named `name`. */
  function FirstActiveNamed(s: seq<FoodItem>, name: string): (k: Option<nat>)
    ensures k.Some? ==> k.value < |s| && s[k.value].name == name && s[k.value].isActive
    ensures k.Some? ==> forall j :: 0 <= j < k.value ==> !(s[j].name == name && s[j].isActive)
    ensures k.None? ==> forall j :: 0 <= j < |s| ==> !(s[j].name == name && s[j].isActive)
  {
    FirstWhere(s, (item: FoodItem) => item.name == name && item.isActive)
  }

  /** The position of the first entry with id `itemId`, active or not. */
  function FirstWithId(s: seq<FoodItem>, itemId: int): (k: Option<nat>)
    ensures k.Some? ==> k.value < |s| && s[k.value].itemId == itemId
    ensures k.Some? ==> forall j :: 0 <= j < k.value ==> s[j].itemId != itemId
    ensures k.None? ==> forall j :: 0 <= j < |s| ==> s[j].itemId != itemId
  {
    FirstWhere(s, (item: FoodItem) => item.itemId == itemId)
  }

  /** The catalogue after `deactivate_item(itemId)`. */
  function Deactivated(s: seq<FoodItem>, itemId: int): (r: seq<FoodItem>)
    ensures |r| == |s|
    ensures forall j :: 0 <= j < |s| ==> r[j] == s[j] || (r[j] == s[j].(isActive := false) && s[j].itemId == itemId)
    // exactly the first item carrying the id is switched off; every other item is kept
    ensures forall j :: 0 <= j < |s| ==>
      r[j] == if s[j].itemId == itemId && forall i :: 0 <= i < j ==> s[i].itemId != itemId
              then s[j].(isActive := false) else s[j]
  {
    match FirstWithId(s, itemId)
    case None => s
    case Some(k) => s[k := s[k].(isActive := false)]
  }

  /** Deactivating twice is the same as deactivating once. */
  lemma DeactivateIdempotent(s: seq<FoodItem>, itemId: int)
    ensures Deactivated(Deactivated(s, itemId), itemId) == Deactivated(s, itemId)
  {
    var once := Deactivated(s, itemId);
    match FirstWithId(s, itemId)
    case None =>
    case Some(k) =>
      assert forall j :: 0 <= j < |s| ==> once[j].itemId == s[j].itemId;
      assert FirstWithId(once, itemId) == Some(k) by {
        FirstWithIdSameIds(s, once, itemId);
      }
  }

  lemma {:induction false} FirstWithIdSameIds(s: seq<FoodItem>, t: seq<FoodItem>, itemId: int)
    requires |s| == |t|
    requires forall j :: 0 <= j < |s| ==> s[j].itemId == t[j].itemId
    ensures FirstWithId(s, itemId) == FirstWithId(t, itemId)
  {
    if s != [] {
      FirstWithIdSameIds(s[1..], t[1..], itemId);
    }
  }

  /** The catalogue after `update_item_sales(name, quantity)`. */
  function SalesUpdated(s: seq<FoodItem>, name: string, quantity: int): (r: seq<FoodItem>)
    ensures |r| == |s|
    // exactly the first active item of that name is credited; every other item is kept
    ensures forall j :: 0 <= j < |s| ==>
      r[j] == if s[j].name == name && s[j].isActive
                 && forall i :: 0 <= i < j ==> !(s[i].name == name && s[i].isActive)
              then Credited(s[j], quantity) else s[j]
  {
    match FirstActiveNamed(s, name)
    case None => s
    case Some(k) => s[k := Credited(s[k], quantity)]
  }

  /** A sale credits only the first active entry of that name; every other
      entry, and every field but the two counters, is left alone. */
  lemma SalesUpdatedTouchesOne(s: seq<FoodItem>, name: string, quantity: int, j: int)
    requires 0 <= j < |s|
    ensures var r := SalesUpdated(s, name, quantity);
      && (FirstActiveNamed(s, name) == Some(j) ==> r[j] == Credited(s[j], quantity))
      && (FirstActiveNamed(s, name) != Some(j) ==> r[j] == s[j])
      && r[j].itemId == s[j].itemId && r[j].name == s[j].name && r[j].isActive == s[j].isActive
  {
  }

  /** The catalogue state of the canteen. */
  class FoodItemManager {
    var items: seq<FoodItem>

    /** Start from the stored list, or from an empty one when there is no
        readable file. */
    constructor(loaded: Option<seq<FoodItem>>)
      ensures items == loaded.GetOr([])
    {
      items := loaded.GetOr([]);
    }

    /** `add_food_item`: append one fresh item numbered after the existing
        ones; absent lists become empty lists. */
    method AddFoodItem(name: string, category: string, sellingPrice: real, costPrice: real,
                       ingredients: Option<seq<string>>, preparationTime: int,
                       dietaryTags: Option<seq<string>>, today: string)
      returns (item: FoodItem)
      modifies this
      ensures items == old(items) + [item]
      ensures item == NewFoodItem(|old(items)| + 1, name, category, sellingPrice, costPrice,
                                  ingredients.GetOr([]), preparationTime, dietaryTags.GetOr([]), today)
      ensures ConsecutiveIds(old(items)) ==> ConsecutiveIds(items)
    {
      item := NewFoodItem(|items| + 1, name, category, sellingPrice, costPrice,
                          ingredients.GetOr([]), preparationTime, dietaryTags.GetOr([]), today);
      items := items + [item];
    }

    /** The row loop of `upload_food_items_from_excel`: each row becomes an
        item numbered after the list as it stands, so the new ids run on
        consecutively. */
    method UploadFoodItems(rows: seq<FoodRow>, today: string) returns (added: seq<FoodItem>)
      modifies this
      ensures added == RowItems(|old(items)|, rows, today)
      ensures items == old(items) + added
    {
      added := [];
      var i := 0;
      while i < |rows|
        invariant 0 <= i <= |rows|
        invariant |added| == i
        invariant RowItemsPrefix(|old(items)|, rows, today, added)
        invariant items == old(items) + added
      {
        var item := RowItem(|items| + 1, rows[i], today);
        RowItemsPrefixStep(|old(items)|, rows, today, added);
        items := items + [item];
        added := added + [item];
        i := i + 1;
      }
      RowItemsExtension(|old(items)|, rows, today, added);
    }

    /** `get_food_categories`: the distinct categories of the active items,
        sorted. */
    function Categories(): (cs: seq<string>)
      reads this
      ensures StrictlyAscending(cs)
      ensures forall c :: c in cs <==> exists x :: x in items && x.isActive && x.category == c
    {
      SortedSet(ActiveCategories(items))
    }

    /** `get_active_items`. */
    function ActiveItems(): (r: seq<FoodItem>)
      reads this
      ensures r == ActiveOf(items)
    {
      ActiveOf(items)
    }

    /** `update_item_sales`: credit the first active item with that name,
        if any. */
    method UpdateItemSales(itemName: string, quantity: int)
      modifies this
      ensures items == SalesUpdated(old(items), itemName, quantity)
    {
      var i := 0;
      while i < |items|
        invariant 0 <= i <= |items|
        invariant items == old(items)
        invariant forall j :: 0 <= j < i ==> !(items[j].name == itemName && items[j].isActive)
      {
        if items[i].name == itemName && items[i].isActive {
          FirstActiveNamedAt(items, itemName, i);
          var item := items[i];
          items := items[i := item.(totalSold := item.totalSold + quantity,
                                    popularityScore := Popularity(item.totalSold + quantity))];
          return;
        }
        i := i + 1;
      }
      assert FirstActiveNamed(items, itemName) == None;
    }

    /** `deactivate_item`: clear the active flag of the first item with
        that id, if any. */
    method DeactivateItem(itemId: int)
      modifies this
      ensures items == Deactivated(old(items), itemId)
    {
      var i := 0;
      while i < |items|
        invariant 0 <= i <= |items|
        invariant items == old(items)
        invariant forall j :: 0 <= j < i ==> items[j].itemId != itemId
      {
        if items[i].itemId == itemId {
          FirstWithIdAt(items, itemId, i);
          items := items[i := items[i].(isActive := false)];
          return;
        }
        i := i + 1;
      }
      assert FirstWithId(items, itemId) == None;
    }
  }

  lemma FirstActiveNamedAt(s: seq<FoodItem>, name: string, i: int)
    requires 0 <= i < |s| && s[i].name == name && s[i].isActive
    requires forall j :: 0 <= j < i ==> !(s[j].name == name && s[j].isActive)
    ensures FirstActiveNamed(s, name) == Some(i)
  {
  }

  lemma FirstWithIdAt(s: seq<FoodItem>, itemId: int, i: int)
    requires 0 <= i < |s| && s[i].itemId == itemId
    requires forall j :: 0 <= j < i ==> s[j].itemId != itemId
    ensures FirstWithId(s, itemId) == Some(i)
  {
  }

  /** The ids of an upload run on from the existing list. */
  lemma UploadKeepsIdsConsecutive(s: seq<FoodItem>, rows: seq<FoodRow>, today: string)
    requires ConsecutiveIds(s)
    ensures ConsecutiveIds(s + RowItems(|s|, rows, today))
  {
  }

  /** Sales and deactivation keep every id in place. */
  lemma UpdatesKeepIds(s: seq<FoodItem>, name: string, quantity: int, itemId: int)
    requires ConsecutiveIds(s)
    ensures ConsecutiveIds(SalesUpdated(s, name, quantity))
    ensures ConsecutiveIds(Deactivated(s, itemId))
  {
  }

  // ---------------------------------------------------------------------
  // Looking up a price among the active items

  /** The position of the first entry of `active` named `name`. */
  function FirstNamed(active: seq<FoodItem>, name: string): (k: Option<nat>)
    ensures k.Some? ==> k.value < |active| && active[k.value].name == name
    ensures k.Some? ==> forall j :: 0 <= j < k.value ==> active[j].name != name
    ensures k.None? ==> forall j :: 0 <= j < |active| ==> active[j].name != name
  {
    FirstWhere(active, (item: FoodItem) => item.name == name)
  }

  /** The selling price of the first entry of `active` named `name`: the
      search loop over `get_active_items()` that both the upload merge and
      the manual record entry run. */
  function FirstNamedPrice(active: seq<FoodItem>, name: string): Option<real> {
    match FirstNamed(active, name)
    case None => None
    case Some(k) => Some(active[k].sellingPrice)
  }

  /** The search loop itself. */
  method FindPrice(active: seq<FoodItem>, name: string) returns (p: Option<real>)
    ensures p == FirstNamedPrice(active, name)
  {
    var i := 0;
    while i < |active|
      invariant 0 <= i <= |active|
      invariant FirstNamedPrice(active[i..], name) == FirstNamedPrice(active, name)
    {
      if active[i].name == name {
        assert FirstNamed(active[i..], name) == Some(0);
        return Some(active[i].sellingPrice);
      }
      assert active[i..][1..] == active[i + 1..];
      i := i + 1;
    }
    return None;
  }

  /** One unfolding step of the filter. */
  lemma ActiveOfCons(s: seq<FoodItem>)
    requires s != []
    ensures ActiveOf(s) == (if s[0].isActive then [s[0]] else []) + ActiveOf(s[1..])
  {
  }

  /** One step of the price search: the head answers when its name
      matches, otherwise the search goes on in the tail. */
  lemma FirstNamedPriceCons(h: FoodItem, rest: seq<FoodItem>, name: string)
    ensures FirstNamedPrice([h] + rest, name) ==
      if h.name == name then Some(h.sellingPrice) else FirstNamedPrice(rest, name)
  {
    assert ([h] + rest)[0] == h;
    assert ([h] + rest)[1..] == rest;
  }

  /** The price search over the active items of `s`, one catalogue entry at
      a time. */
  lemma ActivePriceCons(s: seq<FoodItem>, name: string)
    requires s != []
    ensures FirstNamedPrice(ActiveOf(s), name) ==
      if s[0].isActive && s[0].name == name then Some(s[0].sellingPrice)
      else FirstNamedPrice(ActiveOf(s[1..]), name)
  {
    ActiveOfCons(s);
    if s[0].isActive {
      FirstNamedPriceCons(s[0], ActiveOf(s[1..]), name);
    } else {
      assert ActiveOf(s) == ActiveOf(s[1..]);
    }
  }

  /** Searching the active items is searching the whole catalogue for the
      first active entry of that name. */
  lemma {:induction false} ActivePriceIsFirstActive(s: seq<FoodItem>, name: string)
    ensures FirstNamedPrice(ActiveOf(s), name) ==
      match FirstActiveNamed(s, name)
      case None => None
      case Some(k) => Some(s[k].sellingPrice)
  {
    if s != [] {
      ActivePriceIsFirstActive(s[1..], name);
      ActivePriceCons(s, name);
    }
  }

  /** Two catalogues that offer the same items at the same prices. */
  predicate SameOffer(s: seq<FoodItem>, t: seq<FoodItem>) {
    && |s| == |t|
    && forall i :: 0 <= i < |s| ==>
         s[i].name == t[i].name && s[i].isActive == t[i].isActive && s[i].sellingPrice == t[i].sellingPrice
  }

  lemma {:induction false} SameOfferSamePrices(s: seq<FoodItem>, t: seq<FoodItem>, name: string)
    requires SameOffer(s, t)
    ensures FirstNamedPrice(ActiveOf(s), name) == FirstNamedPrice(ActiveOf(t), name)
  {
    if s != [] {
      assert SameOffer(s[1..], t[1..]);
      SameOfferSamePrices(s[1..], t[1..], name);
      ActivePriceCons(s, name);
      ActivePriceCons(t, name);
    }
  }

  /** Recording a sale never changes which price the lookup finds. */
  lemma SalesKeepPrices(s: seq<FoodItem>, itemName: string, quantity: int, name: string)
    ensures FirstNamedPrice(ActiveOf(SalesUpdated(s, itemName, quantity)), name) == FirstNamedPrice(ActiveOf(s), name)
  {
    var r := SalesUpdated(s, itemName, quantity);
    assert SameOffer(r, s) by {
      forall i | 0 <= i < |s|
        ensures r[i].name == s[i].name && r[i].isActive == s[i].isActive && r[i].sellingPrice == s[i].sellingPrice
      {
        SalesUpdatedTouchesOne(s, itemName, quantity, i);
      }
    }
    SameOfferSamePrices(r, s, name);
  }
}
