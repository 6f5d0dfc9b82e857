/**
 * `CafeMenu` (the live id -> item dict the consoles read), its listing in
 * id order, and `summarize_order_items`, the one-line rendering of an
 * order's items.
 */
module Menu {
  import opened Wrappers
  import opened Text
  import opened Models
  import opened Sorting
  import opened Database
  import Constants

  /** For every entry, the key is the item's own identifier. */
  ghost predicate Keyed(items: map<int, MenuItem>) {
    forall k | k in items :: items[k].identifier == k
  }

  /** The items of the menu used when no store is given, in the order the source lists them. */
  const FallbackList: seq<MenuItem> := [
    MenuItem(1, "Black (Hot)"),
    MenuItem(2, "Black (Cold)"),
    MenuItem(3, "White (Hot)"),
    MenuItem(4, "White (Cold)"),
    MenuItem(5, "Mocha (Hot)"),
    MenuItem(6, "Mocha (Cold)"),
    MenuItem(7, "Hot Chocolate"),
    MenuItem(8, "Cold Chocolate"),
    MenuItem(9, "Espresso Tonic"),
    MenuItem(10, "Strawberry Latte"),
    MenuItem(11, "Vanilla Latte"),
    MenuItem(12, "Chocolate Cookies"),
    MenuItem(13, "Strawberry Cookies")
  ]

  /** The fallback dict: key k holds the k-th listed item. */
  const FallbackItems: Dict<MenuItem> := Dict(seq(13, i => i + 1), map k | 1 <= k <= 13 :: FallbackList[k - 1])

  /** Each fallback item is the default row of the same position, as a `MenuItem`. */
  lemma FallbackListIsDefaultItems()
    ensures |FallbackList| == |DefaultItems|
    ensures forall i | 0 <= i < |FallbackList| :: FallbackList[i] == MenuItem(DefaultItems[i].0, DefaultItems[i].1)
  {
  }

  /** Without a store the menu holds ids 1 to 13, keyed by identifier, item 1 being "Black (Hot)". */
  lemma FallbackShape()
    ensures FallbackItems.Valid() && Keyed(FallbackItems.entries)
    ensures forall k :: k in FallbackItems.entries <==> 1 <= k <= 13
    ensures FallbackItems.entries[1].name == "Black (Hot)"
  {
    FallbackListIsDefaultItems();
    DefaultIds();
    var ids := FallbackItems.ids;
    forall k | 1 <= k <= 13 ensures k in ids {
      assert ids[k - 1] == k;
    }
  }

  /** The fallback dict is the seeded menu table, each row read as a `MenuItem`. */
  lemma FallbackNamesAreSeedNames()
    ensures FallbackItems.entries == map k | k in DefaultMenu.entries :: MenuItem(k, DefaultMenu.entries[k])
  {
    var seeded := map k | k in DefaultMenu.entries :: MenuItem(k, DefaultMenu.entries[k]);
    assert forall k :: k in seeded <==> 1 <= k <= 13 by {
      DefaultMenuValid();
    }
    forall k | 1 <= k <= 13 ensures FallbackItems.entries[k] == seeded[k] {
      var i := k - 1;
      assert DefaultMenu.entries[DefaultItems[i].0] == DefaultItems[i].1 by {
        DefaultMenuValid();
      }
      DefaultIds();
      FallbackListIsDefaultItems();
    }
    assert FallbackItems.entries.Keys == seeded.Keys;
  }

  /** The fallback menu is exactly what a freshly seeded store loads. */
  lemma FallbackMatchesSeed(db: CafeDatabase)
    requires db.Valid() && db.menuItems == DefaultMenu
    ensures db.LoadMenuItems() == FallbackItems
  {
    var loaded := db.LoadMenuItems();
    DefaultMenuValid();
    SortIncreasing(DefaultMenu.ids);
    FallbackNamesAreSeedNames();
  }

  /** `menu_item.name if menu_item else f"Item {item_id}"`. */
  function ItemLabel(menu: map<int, MenuItem>, id: int): string {
    if id in menu then menu[id].name else "Item " + IntStr(id)
  }

  /** One summary part: `f"{name} x{qty}"`. */
  function Part(menu: map<int, MenuItem>, id: int, quantity: int): string {
    ItemLabel(menu, id) + " x" + IntStr(quantity)
  }

  /** The parts, one per entry, in the dict's iteration order. */
  function Parts(menu: map<int, MenuItem>, ids: seq<int>, quantities: map<int, int>): (r: seq<string>)
    requires forall i | 0 <= i < |ids| :: ids[i] in quantities
    ensures |r| == |ids|
    ensures forall i | 0 <= i < |r| :: r[i] == Part(menu, ids[i], quantities[ids[i]])
    ensures forall i | 0 <= i < |r| && ids[i] in menu :: r[i] == menu[ids[i]].name + " x" + IntStr(quantities[ids[i]])
    ensures forall i | 0 <= i < |r| && ids[i] !in menu :: r[i] == "Item " + IntStr(ids[i]) + " x" + IntStr(quantities[ids[i]])
  {
    seq(|ids|, i requires 0 <= i < |ids| => Part(menu, ids[i], quantities[ids[i]]))
  }

  lemma PartsAppend(menu: map<int, MenuItem>, ids: seq<int>, quantities: map<int, int>, i: nat)
    requires forall i | 0 <= i < |ids| :: ids[i] in quantities
    requires i < |ids|
    ensures Parts(menu, ids[..i + 1], quantities) == Parts(menu, ids[..i], quantities) + [Part(menu, ids[i], quantities[ids[i]])]
  {
    var front, back := ids[..i + 1], ids[..i];
    var a, b := Parts(menu, front, quantities), Parts(menu, back, quantities);
    var c := b + [Part(menu, ids[i], quantities[ids[i]])];
    assert |a| == |c|;
    forall j | 0 <= j < |a| ensures a[j] == c[j] {
      assert front[j] == ids[j];
      if j < i {
        assert back[j] == ids[j];
      }
    }
  }

  /** What `summarize_order_items` returns, given the menu's mapping. */
  function Summary(menu: map<int, MenuItem>, items: Quantities): string
    requires items.Valid()
  {
    var parts := Parts(menu, items.ids, items.entries);
    if |parts| == 0 then "No items" else Join(", ", parts)
  }

  /**
   * The summary is "No items" exactly for an empty order: every part holds
   * an "x" after its name, and "No items" holds none.
   */
  lemma SummaryIsNoItemsIffEmpty(menu: map<int, MenuItem>, items: Quantities)
    requires items.Valid()
    ensures Summary(menu, items) == "No items" <==> items.IsEmpty()
  {
    if !items.IsEmpty() {
      var parts := Parts(menu, items.ids, items.entries);
      var first := parts[0];
      var name := ItemLabel(menu, items.ids[0]);
      assert first == name + " x" + IntStr(items.entries[items.ids[0]]);
      assert first[|name| + 1] == 'x';
      var s := Join(", ", parts);
      assert s[..|first|] == first;
      assert s[|name| + 1] == 'x';
      assert 'x' !in "No items";
    }
  }

  /** One listing line: `f"  {item.identifier:2d}. {item.name}"`. */
  function ListingLine(item: MenuItem): string {
    "  " + PadTwo(IntStr(item.identifier)) + ". " + item.name
  }

  const MenuTitle := "            CAFE CURSOR MENU"
  const MenuBanner := ["\n" + Constants.Rule, MenuTitle, Constants.Rule]

  /** One listing line per item, in the given order. */
  function ListingLines(all: seq<MenuItem>): (lines: seq<string>)
    ensures |lines| == |all|
    ensures forall i | 0 <= i < |all| :: lines[i] == ListingLine(all[i])
  {
    seq(|all|, i requires 0 <= i < |all| => ListingLine(all[i]))
  }

  lemma ListingLinesAppend(all: seq<MenuItem>, item: MenuItem)
    ensures ListingLines(all + [item]) == ListingLines(all) + [ListingLine(item)]
  {
  }
  const MenuHint := "\nUse `add <item #>` to place things in your cart."

  class CafeMenu {
    const db: CafeDatabase?
    var items: Dict<MenuItem>

    ghost predicate Valid()
      reads this
    {
      items.Valid() && Keyed(items.entries)
    }

    /** The live mapping is as it was. */
    twostate predicate Kept()
      reads this
    {
      items == old(items)
    }

    /** With a store the menu is what the store loads; without one it is the fallback. */
    constructor (db: CafeDatabase?)
      requires db != null ==> db.Valid()
      ensures this.db == db && Valid()
      ensures db != null ==> items == db.LoadMenuItems()
      ensures db == null ==> items == FallbackItems
    {
      this.db := db;
      if db != null {
        items := db.LoadMenuItems();
      } else {
        FallbackShape();
        items := FallbackItems;
      }
    }

    /** `get_item`: the stored item iff the id is a key, otherwise None. */
    function GetItem(identifier: int): (r: Option<MenuItem>)
      reads this
      ensures r.Some? <==> identifier in items.entries
      ensures r.Some? ==> r.value == items.entries[identifier]
      ensures Valid() && r.Some? ==> r.value.identifier == identifier
    {
      if identifier in items.entries then Some(items.entries[identifier]) else None
    }

    /** `all_items`: every item once, in strictly increasing identifier order. */
    function AllItems(): (r: seq<MenuItem>)
      reads this
      requires Valid()
      ensures |r| == |items.ids|
      ensures forall i, j | 0 <= i < j < |r| :: r[i].identifier < r[j].identifier
      ensures forall i | 0 <= i < |r| :: r[i].identifier in items.entries && items.entries[r[i].identifier] == r[i]
      ensures forall k | k in items.entries :: items.entries[k] in r
    {
      var ks := Sort(items.ids);
      assert forall i | 0 <= i < |ks| :: ks[i] in items.entries by {
        assert forall i | 0 <= i < |ks| :: ks[i] in ks;
      }
      ValuesAtCover(ks, items.entries);
      ValuesAt(ks, items.entries)
    }

    /** The lines `display` writes: a framed listing in id order. */
    function DisplayLines(): (lines: seq<string>)
      reads this
      requires Valid()
      ensures |lines| == |items.ids| + 5
      ensures lines[1] == MenuTitle && lines[|lines| - 2] == MenuHint
      ensures lines[3..|lines| - 2] == ListingLines(AllItems())
    {
      var body := ListingLines(AllItems());
      var lines := MenuBanner + body + [MenuHint, Constants.Rule];
      Framed(MenuBanner, body, [MenuHint, Constants.Rule]);
      assert lines[3..|lines| - 2] == body;
      lines
    }

    /**
     * `display`: the banner, then one line per item in increasing id order,
     * then the hint.  The text handed to `write` is returned.
     */
    method Display() returns (lines: seq<string>)
      requires Valid()
      ensures lines == DisplayLines()
    {
      var body := WriteListing(AllItems());
      lines := MenuBanner + body + [MenuHint, Constants.Rule];
    }
  }

  /** The `for` loop of `display`: one listing line per item, in order. */
  method WriteListing(all: seq<MenuItem>) returns (body: seq<string>)
    ensures body == ListingLines(all)
  {
    body := [];
    var i := 0;
    while i < |all|
      invariant 0 <= i <= |all|
      invariant body == ListingLines(all[..i])
    {
      ListingLinesAppend(all[..i], all[i]);
      assert all[..i + 1] == all[..i] + [all[i]];
      body := body + [ListingLine(all[i])];
      i := i + 1;
    }
    assert all[..i] == all;
  }

  /**
   * `summarize_order_items(menu, items)`: walks the dict once, appending one
   * part per entry, then joins them.  It reads the menu and changes nothing.
   */
  method SummarizeOrderItems(menu: CafeMenu, items: Quantities) returns (r: string)
    requires items.Valid()
    ensures r == Summary(menu.items.entries, items)
    ensures r == "No items" <==> items.IsEmpty()
  {
    var parts: seq<string> := [];
    var i := 0;
    while i < |items.ids|
      invariant 0 <= i <= |items.ids|
      invariant parts == Parts(menu.items.entries, items.ids[..i], items.entries)
    {
      var id := items.ids[i];
      var found := menu.GetItem(id);
      var name := if found.Some? then found.value.name else "Item " + IntStr(id);
      assert name == ItemLabel(menu.items.entries, id);
      PartsAppend(menu.items.entries, items.ids, items.entries, i);
      parts := parts + [name + " x" + IntStr(items.entries[id])];
      i := i + 1;
    }
    assert items.ids[..i] == items.ids;
    r := if |parts| > 0 then Join(", ", parts) else "No items";
    SummaryIsNoItemsIffEmpty(menu.items.entries, items);
  }
}
