/**
 * `CafeDatabase` as an in-memory store: the `menu_items` table (id primary
 * key, name UNIQUE), the `orders` table (AUTOINCREMENT id, items as a JSON
 * blob, placed and ready timestamps) and the AUTOINCREMENT counter that
 * SQLite keeps for the orders table.  A table is a `Dict` from primary key
 * to row; its `ids` are the rows in insertion order, and every query with
 * `ORDER BY id` sorts them.
 */
module Database {
  import opened Wrappers
  import opened Models
  import opened ItemsCodec
  import opened Sorting

  /** One row of the orders table, as stored. */
  datatype OrderRow = OrderRow(items: string, placedAt: int, readyAt: Option<int>)

  /** `default_items`: the catalogue seeded into an empty menu table, in insertion order. */
  const DefaultItems: seq<(int, string)> := [
    (1, "Black (Hot)"),
    (2, "Black (Cold)"),
    (3, "White (Hot)"),
    (4, "White (Cold)"),
    (5, "Mocha (Hot)"),
    (6, "Mocha (Cold)"),
    (7, "Hot Chocolate"),
    (8, "Cold Chocolate"),
    (9, "Espresso Tonic"),
    (10, "Strawberry Latte"),
    (11, "Vanilla Latte"),
    (12, "Chocolate Cookies"),
    (13, "Strawberry Cookies")
  ]

  /** The menu table once the default items are inserted: the k-th row has id k. */
  const DefaultMenu: Dict<string> := Dict(seq(13, i => i + 1), map k | 1 <= k <= 13 :: DefaultItems[k - 1].1)

  /** The `UNIQUE` constraint on `menu_items.name`. */
  ghost predicate UniqueNames(menu: map<int, string>) {
    forall a, b | a in menu && b in menu && a != b :: menu[a] != menu[b]
  }

  /**
   * What the orders table and its counter satisfy: every id was handed out
   * by the counter (1, 2, ...), and every items blob reads back.
   */
  ghost predicate RowsWellFormed(orders: map<int, OrderRow>, lastOrderId: nat) {
    forall k | k in orders :: 1 <= k <= lastOrderId && DecodeItems(orders[k].items).Some?
  }

  /** The rows a well-formed store may hold. */
  ghost predicate Tables(menu: Dict<string>, orders: Dict<OrderRow>, lastOrderId: nat) {
    menu.Valid() && UniqueNames(menu.entries) && orders.Valid() && RowsWellFormed(orders.entries, lastOrderId)
  }

  /** `_row_to_order`: decode the items blob and rebuild the order. */
  function RowToOrder(id: int, row: OrderRow): (o: Order)
    requires DecodeItems(row.items).Some?
    ensures o.orderId == id && o.placedAt == row.placedAt && o.readyAt == row.readyAt
    ensures Some(o.items) == DecodeItems(row.items) && o.items.Valid()
  {
    Order(id, DecodeItems(row.items).value, row.placedAt, row.readyAt)
  }

  class CafeDatabase {
    var menuItems: Dict<string>
    var orders: Dict<OrderRow>
    var lastOrderId: nat

    ghost predicate Valid()
      reads this
    {
      Tables(menuItems, orders, lastOrderId)
    }

    /** Both tables and the id counter are as they were. */
    twostate predicate Kept()
      reads this
    {
      menuItems == old(menuItems) && orders == old(orders) && lastOrderId == old(lastOrderId)
    }

    /**
     * Opening the store over the tables found on disk (all empty for a new
     * file): the schema is ensured and the default menu seeded if the menu
     * table has no rows.
     */
    constructor Open(menuRows: Dict<string>, orderRows: Dict<OrderRow>, sequence: nat)
      requires Tables(menuRows, orderRows, sequence)
      ensures Valid()
      ensures menuItems == if menuRows.IsEmpty() then DefaultMenu else menuRows
      ensures orders == orderRows && lastOrderId == sequence
    {
      menuItems, orders, lastOrderId := menuRows, orderRows, sequence;
      new;
      InitializeDefaultMenu();
    }

    /** `_initialize_default_menu`: seed only when `COUNT(*)` of the menu table is 0. */
    method InitializeDefaultMenu()
      requires Valid()
      modifies this
      ensures Valid()
      ensures menuItems == if old(menuItems).IsEmpty() then DefaultMenu else old(menuItems)
      ensures orders == old(orders) && lastOrderId == old(lastOrderId)
    {
      if |menuItems.ids| == 0 {
        DefaultMenuValid();
        menuItems := DefaultMenu;
      }
    }

    /** `load_menu_items`: one `MenuItem` per row, keyed by its id, in increasing id order. */
    function LoadMenuItems(): (items: Dict<MenuItem>)
      reads this
      requires Valid()
      ensures items.Valid() && StrictlyIncreasing(items.ids)
      ensures items.entries.Keys == menuItems.entries.Keys
      ensures forall k | k in items.entries ::
        items.entries[k].identifier == k && items.entries[k].name == menuItems.entries[k]
    {
      var ids := Sort(menuItems.ids);
      var r := Dict(ids, map k | k in menuItems.entries :: MenuItem(k, menuItems.entries[k]));
      assert forall i, j | 0 <= i < j < |ids| :: ids[i] != ids[j];
      assert forall i | 0 <= i < |ids| :: ids[i] in menuItems.ids;
      r
    }

    /**
     * `add_menu_item`: the INSERT fails (False) on a duplicate id (primary
     * key) or a duplicate name (UNIQUE), and then the table is unchanged.
     */
    method AddMenuItem(itemId: int, name: string) returns (ok: bool)
      requires Valid()
      modifies this
      ensures Valid()
      ensures ok <==> itemId !in old(menuItems.entries) && name !in old(menuItems.entries).Values
      ensures menuItems == if ok then old(menuItems).Put(itemId, name) else old(menuItems)
      ensures orders == old(orders) && lastOrderId == old(lastOrderId)
    {
      if itemId in menuItems.entries || name in menuItems.entries.Values {
        return false;
      }
      menuItems := menuItems.Put(itemId, name);
      ok := true;
    }

    /** `remove_menu_item`: True iff a row was deleted. */
    method RemoveMenuItem(itemId: int) returns (ok: bool)
      requires Valid()
      modifies this
      ensures Valid()
      ensures ok <==> itemId in old(menuItems.entries)
      ensures menuItems == old(menuItems).Remove(itemId)
      ensures orders == old(orders) && lastOrderId == old(lastOrderId)
    {
      ok := itemId in menuItems.entries;
      menuItems := menuItems.Remove(itemId);
    }

    /** `load_orders`: every row as an order, keyed by its id, in increasing id order. */
    function LoadOrders(): (r: Dict<Order>)
      reads this
      requires Valid()
      ensures r.Valid() && StrictlyIncreasing(r.ids)
      ensures r.entries.Keys == orders.entries.Keys
      ensures forall k | k in r.entries :: r.entries[k] == RowToOrder(k, orders.entries[k])
    {
      var ids := Sort(orders.ids);
      var r := Dict(ids, map k | k in orders.entries :: RowToOrder(k, orders.entries[k]));
      assert forall i, j | 0 <= i < j < |ids| :: ids[i] != ids[j];
      assert forall i | 0 <= i < |ids| :: ids[i] in orders.ids;
      r
    }

    /** `fetch_order`: the row with that id, or None. */
    function FetchOrder(orderId: int): (r: Option<Order>)
      reads this
      requires Valid()
      ensures r.Some? <==> orderId in orders.entries
      ensures r.Some? ==> r.value == RowToOrder(orderId, orders.entries[orderId])
    {
      if orderId in orders.entries then Some(RowToOrder(orderId, orders.entries[orderId])) else None
    }

    /**
     * `create_order`: store a copy of `items` under the next AUTOINCREMENT id,
     * placed at `now`, not ready.  The id exceeds every id handed out
     * before, so ids are never reused, and the row reads back as the order.
     */
    method CreateOrder(items: Quantities, now: int) returns (order: Order)
      requires Valid() && items.Valid()
      modifies this
      ensures Valid()
      ensures order == NewOrder(old(lastOrderId) + 1, items, now)
      ensures order.orderId > old(lastOrderId) && lastOrderId == order.orderId
      ensures forall k | k in old(orders.entries) :: k < order.orderId
      ensures orders == old(orders).Put(order.orderId, OrderRow(EncodeItems(items), now, None))
      ensures order.orderId !in old(orders.entries) && orders.ids == old(orders.ids) + [order.orderId]
      ensures FetchOrder(order.orderId) == Some(order)
      ensures menuItems == old(menuItems)
    {
      var payload := EncodeItems(items);
      DecodeEncode(items);
      lastOrderId := lastOrderId + 1;
      orders := orders.Put(lastOrderId, OrderRow(payload, now, None));
      order := NewOrder(lastOrderId, items, now);
    }

    /** `update_ready_time`: set `readyAt` of that row only; no row, no change. */
    method UpdateReadyTime(orderId: int, readyAt: int)
      requires Valid()
      modifies this
      ensures Valid()
      ensures orders == if orderId in old(orders.entries)
        then old(orders).Put(orderId, old(orders.entries)[orderId].(readyAt := Some(readyAt)))
        else old(orders)
      ensures orderId in orders.entries ==> FetchOrder(orderId) == Some(old(FetchOrder(orderId)).value.(readyAt := Some(readyAt)))
      ensures menuItems == old(menuItems) && lastOrderId == old(lastOrderId)
    {
      if orderId in orders.entries {
        var row := orders.entries[orderId];
        orders := orders.Put(orderId, row.(readyAt := Some(readyAt)));
        assert RowToOrder(orderId, row.(readyAt := Some(readyAt))) == RowToOrder(orderId, row).(readyAt := Some(readyAt));
      }
    }
  }

  /** The default items carry the ids 1 to 13, in order. */
  lemma DefaultIds()
    ensures |DefaultItems| == 13
    ensures forall i | 0 <= i < 13 :: DefaultItems[i].0 == i + 1
  {
  }

  /** No two default names are equal: no two share both length and first letter. */
  lemma DefaultNamesDistinct()
    ensures forall i, j | 0 <= i < j < |DefaultItems| :: DefaultItems[i].1 != DefaultItems[j].1
  {
    var len := [11, 12, 11, 12, 11, 12, 13, 14, 14, 16, 13, 17, 18];
    var first := "BBWWMMHCESVCS";
    assert forall i | 0 <= i < 13 :: |DefaultItems[i].1| == len[i] && DefaultItems[i].1[0] == first[i];
    assert forall i, j | 0 <= i < j < 13 :: len[i] != len[j] || first[i] != first[j];
  }

  /** The seeded table's ids are 1 to 13 in increasing order, each a key. */
  lemma DefaultMenuShape()
    ensures DefaultMenu.Valid() && StrictlyIncreasing(DefaultMenu.ids)
    ensures forall k :: k in DefaultMenu.entries <==> 1 <= k <= 13
    ensures |DefaultMenu.ids| == 13 && forall i | 0 <= i < 13 :: DefaultMenu.ids[i] == i + 1
  {
    var ids := DefaultMenu.ids;
    forall k | 1 <= k <= 13 ensures k in ids {
      assert ids[k - 1] == k;
    }
  }

  /**
   * The seeded table holds every default item under its own id, in the
   * listed order, and its names satisfy the UNIQUE constraint.
   */
  lemma DefaultMenuValid()
    ensures DefaultMenu.Valid() && UniqueNames(DefaultMenu.entries)
    ensures StrictlyIncreasing(DefaultMenu.ids)
    ensures forall k :: k in DefaultMenu.entries <==> 1 <= k <= 13
    ensures |DefaultMenu.ids| == |DefaultItems|
    ensures forall i | 0 <= i < |DefaultItems| :: DefaultMenu.ids[i] == DefaultItems[i].0 && DefaultMenu.entries[DefaultItems[i].0] == DefaultItems[i].1
  {
    DefaultIds();
    DefaultNamesDistinct();
    DefaultMenuShape();
    NumberedNamesUnique(DefaultItems, DefaultMenu.entries);
  }

  /** A table whose row k holds the k-th of a list of distinct names satisfies UNIQUE. */
  lemma NumberedNamesUnique(items: seq<(int, string)>, m: map<int, string>)
    requires forall k :: k in m <==> 1 <= k <= |items|
    requires forall k | 1 <= k <= |items| :: m[k] == items[k - 1].1
    requires forall i, j | 0 <= i < j < |items| :: items[i].1 != items[j].1
    ensures UniqueNames(m)
  {
    forall a, b | a in m && b in m && a != b ensures m[a] != m[b] {
      if a < b {
        assert items[a - 1].1 != items[b - 1].1;
      } else {
        assert items[b - 1].1 != items[a - 1].1;
      }
    }
  }
}
