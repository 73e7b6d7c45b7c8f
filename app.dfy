/** Entering a sale by hand and the spelling-tolerant administrator check
    of the application (app.py).  The forms, the session state and the
    workbook on disk are left out: the ledger comes in and goes out as a
    sequence. */
module App {
  import opened Values
  import opened Text
  import opened Ledger
  import opened FoodManager
  import opened DataManager
  import opened SimpleAuth

  /** The price a hand-entered sale is recorded at: the first active
      catalogue item of that name, else the configured price of a menu
      item, else 0.  None is the `IndexError` raised when the menu lists
      the item but the price list is too short. */
  function ResolvedPrice(active: seq<FoodItem>, config: MenuConfig, menuItem: string): (p: Option<real>)
    ensures FirstNamedPrice(active, menuItem).Some? ==> p == FirstNamedPrice(active, menuItem)
    ensures FirstNamedPrice(active, menuItem).None? && menuItem !in config.menuItems ==> p == Some(0.0)
    ensures FirstNamedPrice(active, menuItem).None? && menuItem in config.menuItems ==> p == ConfigPrice(config, menuItem)
  {
    match FirstNamedPrice(active, menuItem)
    case Some(price) => Some(price)
    case None => if menuItem in config.menuItems then ConfigPrice(config, menuItem) else Some(0.0)
  }

  /** The for/else loop of `add_new_sales_record`. */
  method ResolvePrice(active: seq<FoodItem>, config: MenuConfig, menuItem: string) returns (p: Option<real>)
    ensures p == ResolvedPrice(active, config, menuItem)
  {
    var price := 0.0;
    var found := FindPrice(active, menuItem);
    if found.Some? {
      price := found.value;
    } else if menuItem in config.menuItems {
      var idx := IndexOf(config.menuItems, menuItem);
      if idx >= |config.prices| {
        return None;
      }
      price := config.prices[idx];
    }
    return Some(price);
  }

  /** `add_new_sales_record`: the ledger with the new record appended and
      the sale credited to the catalogue; None, with nothing changed, when
      the price lookup raises. */
  method AddNewSalesRecord(current: seq<SalesRecord>, fm: FoodItemManager, config: MenuConfig,
                           date: int, menuItem: string, quantitySold: int, wasteQuantity: int)
    returns (updated: Option<seq<SalesRecord>>)
    modifies fm
    ensures ResolvedPrice(ActiveOf(old(fm.items)), config, menuItem).None? ==> updated.None? && fm.items == old(fm.items)
    ensures ResolvedPrice(ActiveOf(old(fm.items)), config, menuItem).Some? ==>
      && updated == Some(current + [NewRecord(date, menuItem, quantitySold, wasteQuantity,
                                              ResolvedPrice(ActiveOf(old(fm.items)), config, menuItem).value)])
      && fm.items == SalesUpdated(old(fm.items), menuItem, quantitySold)
  {
    var active := fm.ActiveItems();
    var price := ResolvePrice(active, config, menuItem);
    if price.None? {
      return None;
    }
    var rec := NewRecord(date, menuItem, quantitySold, wasteQuantity, price.value);
    updated := Some(current + [rec]);
    fm.UpdateItemSales(menuItem, quantitySold);
  }

  /** An active catalogue item sets the price, whatever the configuration
      says. */
  lemma CatalogueWins(items: seq<FoodItem>, config: MenuConfig, menuItem: string, k: nat)
    requires FirstActiveNamed(items, menuItem) == Some(k)
    ensures ResolvedPrice(ActiveOf(items), config, menuItem) == Some(items[k].sellingPrice)
  {
    ActivePriceIsFirstActive(items, menuItem);
  }

  /** With no active catalogue item of that name, a hand-entered sale of a
      priced menu item is the record the data manager would append. */
  lemma FallbackAgreesWithDataManager(items: seq<FoodItem>, current: seq<SalesRecord>, config: MenuConfig,
                                      date: int, menuItem: string, quantitySold: int, wasteQuantity: int)
    requires FirstActiveNamed(items, menuItem).None?
    requires ConfigPrice(config, menuItem).Some?
    ensures var p := ResolvedPrice(ActiveOf(items), config, menuItem);
      && p.Some?
      && AddSalesRecord(current, config, date, menuItem, quantitySold, wasteQuantity)
         == Some(current + [NewRecord(date, menuItem, quantitySold, wasteQuantity, p.value)])
  {
    ActivePriceIsFirstActive(items, menuItem);
  }

  /** An item found neither in the catalogue nor on the menu is recorded
      at price 0, so it brings no revenue and its waste costs nothing. */
  lemma UnknownItemIsFree(items: seq<FoodItem>, config: MenuConfig, date: int, menuItem: string,
                          quantitySold: int, wasteQuantity: int)
    requires FirstActiveNamed(items, menuItem).None?
    requires menuItem !in config.menuItems
    ensures var p := ResolvedPrice(ActiveOf(items), config, menuItem);
      && p == Some(0.0)
      && NewRecord(date, menuItem, quantitySold, wasteQuantity, p.value).revenue == 0.0
      && NewRecord(date, menuItem, quantitySold, wasteQuantity, p.value).wasteCost == 0.0
  {
    ActivePriceIsFirstActive(items, menuItem);
  }

  // ---------------------------------------------------------------------
  // The administrator check of the settings page

  /** `is_user_admin`: nobody, or an empty role, is not an administrator;
      otherwise the role counts once white space around it is stripped
      and it is lower-cased. */
  function IsUserAdmin(user: Option<User>): (admin: bool)
    ensures admin ==> user.Some? && user.value.role != ""
    ensures admin <==> user.Some? && |Strip(user.value.role)| == 5
                       && forall i :: 0 <= i < 5 ==> LowerChar(Strip(user.value.role)[i]) == "admin"[i]
  {
    match user
    case None => false
    case Some(u) => u.role != "" && Lower(Strip(u.role)) == "admin"
  }

  /** Whoever the table calls an administrator, the settings page does
      too. */
  lemma StrictAdminIsTolerantAdmin(auth: Auth)
    requires auth.IsAdmin()
    ensures IsUserAdmin(auth.currentUser)
  {
    var role := auth.currentUser.value.role;
    StripTrimmed(role);
    assert Lower(role) == role;
  }

  /** The settings page forgives case and surrounding blanks, which the
      table's own check does not. */
  lemma PaddedCapitalAdminAccepted(u: User)
    ensures IsUserAdmin(Some(u.(role := " Admin")))
  {
    var padded := " Admin";
    assert !IsSpace('A') && !IsSpace('n');
    assert padded[1..] == "Admin";
    assert StripLeft("Admin") == "Admin";
    assert StripLeft(padded) == "Admin";
    assert StripRight("Admin") == "Admin";
    assert Lower("Admin") == "admin";
  }

  /** A longer role that merely starts with "admin" is refused. */
  lemma AdministratorRefused(u: User)
    ensures !IsUserAdmin(Some(u.(role := "administrator")))
  {
    var long := "administrator";
    assert Strip(long) == long by {
      assert long[0] == 'a' && long[12] == 'r';
      assert !IsSpace('a') && !IsSpace('r');
      StripTrimmed(long);
    }
    assert Lower(long) != "admin" by {
      assert |Lower(long)| == 13;
    }
  }
}
