/**
 * `CafeOrderSystem`: the facade the consoles talk to.  It owns a cache of
 * orders and the live `CafeMenu`, both over one `CafeDatabase`.  Several
 * facades may share one store (a guest process and a staff process over
 * the same database file), so the cache is a local mirror only: listings
 * re-read the whole store and point reads go to the store.
 */
module OrderSystem {
  import opened Wrappers
  import opened Models
  import opened Sorting
  import opened ItemsCodec
  import opened Database
  import opened Menu

  /** Every cached order sits under its own id. */
  ghost predicate OrdersKeyed(cache: map<int, Order>) {
    forall k | k in cache :: cache[k].orderId == k
  }

  /** `[orders[id] for id in sorted(orders)]`: the cached orders in increasing id order. */
  function ById(cache: Dict<Order>): (r: seq<Order>)
    requires cache.Valid() && OrdersKeyed(cache.entries)
    ensures |r| == |cache.ids|
    ensures forall i, j | 0 <= i < j < |r| :: r[i].orderId < r[j].orderId
    ensures forall i | 0 <= i < |r| :: r[i].orderId in cache.entries && cache.entries[r[i].orderId] == r[i]
    ensures forall k | k in cache.entries :: cache.entries[k] in r
  {
    var ks := Sort(cache.ids);
    assert forall i | 0 <= i < |ks| :: ks[i] in cache.entries by {
      assert forall i | 0 <= i < |ks| :: ks[i] in ks;
    }
    ValuesAtCover(ks, cache.entries);
    ValuesAt(ks, cache.entries)
  }

  /** A full reload of the store is keyed by id. */
  lemma LoadedOrdersKeyed(db: CafeDatabase)
    requires db.Valid()
    ensures OrdersKeyed(db.LoadOrders().entries)
  {
  }

  /** A full reload of the store holds, under each id, what a point read of that id returns. */
  lemma LoadedOrdersFetched(db: CafeDatabase)
    requires db.Valid()
    ensures forall k | k in db.LoadOrders().entries :: db.FetchOrder(k) == Some(db.LoadOrders().entries[k])
  {
  }

  class CafeOrderSystem {
    const db: CafeDatabase
    const menu: CafeMenu
    var orders: Dict<Order>

    ghost predicate Valid()
      reads this, db, menu
    {
      db.Valid() && menu.Valid() && menu.db == db && orders.Valid() && OrdersKeyed(orders.entries)
    }

    /** The cache and the store behind it are as they were. */
    twostate predicate Kept()
      reads this, db
    {
      orders == old(orders) && db.Kept()
    }

    /** The facade over an opened store: the menu and the cache start as full loads. */
    constructor (db: CafeDatabase)
      requires db.Valid()
      ensures Valid() && this.db == db && fresh(menu)
      ensures menu.items == db.LoadMenuItems() && orders == db.LoadOrders()
    {
      this.db := db;
      var live := new CafeMenu(db);
      assert live.Valid() && live.items == db.LoadMenuItems();
      menu := live;
      orders := db.LoadOrders();
      LoadedOrdersKeyed(db);
    }

    /** `refresh_orders`: the cache becomes a full reload of the store. */
    method RefreshOrders()
      requires Valid()
      modifies this
      ensures Valid() && orders == db.LoadOrders()
    {
      orders := db.LoadOrders();
      LoadedOrdersKeyed(db);
    }

    /**
     * `list_orders(refresh)`: with `refresh` the cache is first made equal
     * to the store, so the listing is exactly the stored orders; without it
     * the cache is listed and the store is not read.  Either way the orders
     * come in strictly increasing id order.
     */
    method ListOrders(refresh: bool) returns (r: seq<Order>)
      requires Valid()
      modifies this
      ensures Valid()
      ensures orders == if refresh then db.LoadOrders() else old(orders)
      ensures r == ById(orders)
      ensures forall i, j | 0 <= i < j < |r| :: r[i].orderId < r[j].orderId
      ensures refresh ==> |r| == |db.orders.ids|
      ensures refresh ==> forall i | 0 <= i < |r| :: db.FetchOrder(r[i].orderId) == Some(r[i])
      ensures refresh ==> forall k | k in db.orders.entries :: db.FetchOrder(k).value in r
    {
      if refresh {
        RefreshOrders();
        LoadedOrdersFetched(db);
      }
      r := ById(orders);
    }

    /** `create_order`: the store's new order, also cached under its id. */
    method CreateOrder(snapshot: Quantities, now: int) returns (order: Order)
      requires Valid() && snapshot.Valid()
      modifies this, db
      ensures Valid()
      ensures order == NewOrder(old(db.lastOrderId) + 1, snapshot, now)
      ensures forall k | k in old(db.orders.entries) :: k < order.orderId
      ensures db.orders == old(db.orders).Put(order.orderId, OrderRow(EncodeItems(snapshot), now, None))
      ensures db.lastOrderId == order.orderId && db.menuItems == old(db.menuItems)
      ensures db.FetchOrder(order.orderId) == Some(order)
      ensures orders == old(orders).Put(order.orderId, order)
    {
      order := db.CreateOrder(snapshot, now);
      orders := orders.Put(order.orderId, order);
    }

    /**
     * `get_order`: always the store's answer.  A found order is written to
     * the cache; a missing one leaves the cache alone.
     */
    method GetOrder(orderId: int) returns (r: Option<Order>)
      requires Valid()
      modifies this
      ensures Valid()
      ensures r == db.FetchOrder(orderId)
      ensures r.Some? ==> r.value.orderId == orderId
      ensures orders == if r.Some? then old(orders).Put(orderId, r.value) else old(orders)
      ensures r.None? ==> unchanged(this)
    {
      r := db.FetchOrder(orderId);
      if r.Some? {
        orders := orders.Put(orderId, r.value);
      }
    }

    /**
     * `mark_ready` at clock reading `now`: an unknown id gives None and
     * changes nothing; a known one gets `readyAt := now` in the store, in the
     * returned order and in the cache, its items and placed time untouched.
     */
    method MarkReady(orderId: int, now: int) returns (r: Option<Order>)
      requires Valid()
      modifies this, db
      ensures Valid()
      ensures r.Some? <==> orderId in old(db.orders.entries)
      ensures r.None? ==> unchanged(this, db)
      ensures r.Some? ==> r.value == old(db.FetchOrder(orderId)).value.(readyAt := Some(now))
      ensures r.Some? ==> db.orders == old(db.orders).Put(orderId, old(db.orders.entries[orderId]).(readyAt := Some(now)))
      ensures r.Some? ==> db.FetchOrder(orderId) == r && orders == old(orders).Put(orderId, r.value)
      ensures db.menuItems == old(db.menuItems) && db.lastOrderId == old(db.lastOrderId)
    {
      var found := GetOrder(orderId);
      if found.None? {
        return None;
      }
      var cached := orders;
      db.UpdateReadyTime(orderId, now);
      var order := found.value.(readyAt := Some(now));
      assert db.FetchOrder(orderId) == Some(order);
      PutTwice(old(orders), orderId, found.value, order);
      orders := cached.Put(orderId, order);
      r := Some(order);
    }

    /** `refresh_menu`: the live menu becomes a full reload of the menu table. */
    method RefreshMenu()
      requires Valid()
      modifies menu
      ensures Valid() && menu.items == db.LoadMenuItems()
    {
      menu.items := db.LoadMenuItems();
    }

    /**
     * `add_menu_item`: the store decides; only a success reloads the live
     * menu, which then matches the store, and a failure leaves it as it was.
     */
    method AddMenuItem(itemId: int, name: string) returns (ok: bool)
      requires Valid()
      modifies db, menu
      ensures Valid()
      ensures ok <==> itemId !in old(db.menuItems.entries) && name !in old(db.menuItems.entries).Values
      ensures db.menuItems == if ok then old(db.menuItems).Put(itemId, name) else old(db.menuItems)
      ensures menu.items == if ok then db.LoadMenuItems() else old(menu.items)
      ensures db.orders == old(db.orders) && db.lastOrderId == old(db.lastOrderId)
    {
      ok := db.AddMenuItem(itemId, name);
      if ok {
        RefreshMenu();
      }
    }

    /** `remove_menu_item`: as `add_menu_item`, with the store's delete. */
    method RemoveMenuItem(itemId: int) returns (ok: bool)
      requires Valid()
      modifies db, menu
      ensures Valid()
      ensures ok <==> itemId in old(db.menuItems.entries)
      ensures db.menuItems == old(db.menuItems).Remove(itemId)
      ensures menu.items == if ok then db.LoadMenuItems() else old(menu.items)
      ensures db.orders == old(db.orders) && db.lastOrderId == old(db.lastOrderId)
    {
      ok := db.RemoveMenuItem(itemId);
      if ok {
        RefreshMenu();
      }
    }
  }

  /**
   * Two facades over one store, as a guest process and a staff process
   * share one database file: the staff side marks the guest's new order
   * ready while the guest's cache still holds the copy without a ready
   * time, and the guest's next point read returns the ready order from the
   * store and refreshes its cache with it.
   */
  method SharedStore(guest: CafeOrderSystem, staff: CafeOrderSystem, items: Quantities, placedAt: int, readyAt: int)
    returns (order: Order, stale: Order, seen: Option<Order>)
    requires guest.Valid() && staff.Valid() && guest != staff && guest.db == staff.db && items.Valid()
    modifies guest, staff, guest.db
    ensures order.orderId in guest.orders.entries
    ensures stale.orderId == order.orderId && stale.readyAt == None
    ensures seen == Some(order.(readyAt := Some(readyAt)))
    ensures guest.orders.entries[order.orderId] == seen.value
  {
    order := guest.CreateOrder(items, placedAt);
    stale := guest.orders.entries[order.orderId];
    var marked := staff.MarkReady(order.orderId, readyAt);
    seen := guest.GetOrder(order.orderId);
  }
}
