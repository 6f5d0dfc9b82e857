/**
 * `CafeBackendApp`, the staff console: the same line discipline as the
 * guest console over the shared facade, with commands to list and inspect
 * orders, mark them ready and edit the menu.  What the console writes is
 * kept as a log of messages.
 */
module Backend {
  import opened Wrappers
  import opened Text
  import opened Models
  import opened Database
  import opened Menu
  import opened OrderSystem
  import opened Session
  import Constants

  const Banner := "\nCafe Cursor Backend Console"

  /** `_print_help`. */
  const HelpLines := [
    "\n" + Constants.CafeLogo,
    "Backend Commands:",
    "  list                    Show all orders and status",
    "  status <order id>       Show details for one order",
    "  ready <order id>        Mark order as ready",
    "  menu-list               Show all menu items",
    "  menu-add <id> <name>    Add a new menu item",
    "  menu-remove <id>       Remove a menu item",
    "  help                    Show this message",
    "  exit                    Quit the console"
  ]

  const UnknownCommand := "Unknown backend command. Type `help` for options."

  /** The command words the staff console dispatches on. */
  const StaffCommands := {"list", "status", "ready", "menu-list", "menu-add", "menu-remove", "help", "?", "exit", "quit"}

  /** The branches of the staff console's `if`/`elif` chain. */
  datatype StaffCommand = ListAll | OrderStatus | MarkReady | MenuList | MenuAdd | MenuRemove | Help | Quit | Unknown

  /** Which branch a (lowercased) command word takes. */
  function StaffCommandOf(word: string): (c: StaffCommand)
    ensures c.ListAll? <==> word == "list"
    ensures c.OrderStatus? <==> word == "status"
    ensures c.MarkReady? <==> word == "ready"
    ensures c.MenuList? <==> word == "menu-list"
    ensures c.MenuAdd? <==> word == "menu-add"
    ensures c.MenuRemove? <==> word == "menu-remove"
    ensures c.Help? <==> word == "help" || word == "?"
    ensures c.Quit? <==> Ends(word)
    ensures c.Unknown? <==> word !in StaffCommands
  {
    if word == "list" then ListAll
    else if word == "status" then OrderStatus
    else if word == "ready" then MarkReady
    else if word == "menu-list" then MenuList
    else if word == "menu-add" then MenuAdd
    else if word == "menu-remove" then MenuRemove
    else if word in {"help", "?"} then Help
    else if word in {"exit", "quit"} then Quit
    else Unknown
  }

  /**
   * A timestamp as the console shows it.  The source formats with
   * `strftime("%Y-%m-%d %H:%M:%S")`; calendar formatting is not modelled,
   * so the seconds are shown as a decimal number.
   */
  function Timestamp(t: int): string {
    IntStr(t)
  }

  /** `"READY" if order.ready_at else "PREP"`. */
  function Tag(o: Order): (tag: string)
    ensures tag == "READY" <==> o.readyAt.Some?
    ensures tag == "PREP" <==> o.readyAt.None?
  {
    if o.readyAt.Some? then "READY" else "PREP"
  }

  /** The ready time, or "-" for an order still being prepared. */
  function ReadyText(o: Order): string {
    if o.readyAt.Some? then Timestamp(o.readyAt.value) else "-"
  }

  /** The header line of one order in `list`. */
  function OrderLine(o: Order): string {
    "- " + IntStr(o.orderId) + " [" + Tag(o) + "] placed " + Timestamp(o.placedAt) + " ready " + ReadyText(o)
  }

  /** Every order's items read back as a well-formed dict. */
  ghost predicate ItemsValid(orders: seq<Order>) {
    forall i | 0 <= i < |orders| :: orders[i].items.Valid()
  }

  /** The two lines `list` writes for one order: its header and its item summary. */
  function OrderLines(o: Order, menu: map<int, MenuItem>): seq<string>
    requires o.items.Valid()
  {
    [OrderLine(o), "    " + Summary(menu, o.items)]
  }

  /** The lines of `list` after its heading, order by order. */
  function ListingOf(orders: seq<Order>, menu: map<int, MenuItem>): (lines: seq<string>)
    requires ItemsValid(orders)
    decreases |orders|
  {
    if orders == [] then [] else ListingOf(orders[..|orders| - 1], menu) + OrderLines(orders[|orders| - 1], menu)
  }

  /**
   * The listing has two lines per order, in the given order: the header
   * with its READY/PREP tag, then the item summary.
   */
  lemma {:induction false} ListingOfAt(orders: seq<Order>, menu: map<int, MenuItem>, i: nat)
    requires ItemsValid(orders) && i < |orders|
    ensures |ListingOf(orders, menu)| == 2 * |orders|
    ensures ListingOf(orders, menu)[2 * i] == OrderLine(orders[i])
    ensures ListingOf(orders, menu)[2 * i + 1] == "    " + Summary(menu, orders[i].items)
    decreases |orders|
  {
    var init := orders[..|orders| - 1];
    if i < |init| {
      ListingOfAt(init, menu, i);
    } else if init != [] {
      ListingOfAt(init, menu, 0);
    }
  }

  lemma ListingOfSnoc(orders: seq<Order>, menu: map<int, MenuItem>, i: nat)
    requires ItemsValid(orders) && i < |orders|
    ensures ItemsValid(orders[..i]) && ItemsValid(orders[..i + 1])
    ensures ListingOf(orders[..i + 1], menu) == ListingOf(orders[..i], menu) + OrderLines(orders[i], menu)
  {
    assert orders[..i + 1][..i] == orders[..i];
  }

  /** Every order a full reload lists has items that read back as a dict. */
  lemma ListedItemsValid(db: CafeDatabase)
    requires db.Valid()
    ensures ItemsValid(ById(db.LoadOrders()))
  {
    LoadedOrdersKeyed(db);
    LoadedOrdersFetched(db);
    var listed := ById(db.LoadOrders());
    forall i | 0 <= i < |listed| ensures listed[i].items.Valid() {
      assert db.FetchOrder(listed[i].orderId) == Some(listed[i]);
    }
  }

  /**
   * `list_orders(refresh=True)` and the lines `_handle_list` writes for
   * them: the cache becomes a full reload of the store.
   */
  method ListAllOrders(system: CafeOrderSystem) returns (lines: seq<string>)
    requires system.Valid()
    modifies system
    ensures system.Valid()
    ensures system.orders == system.db.LoadOrders()
    ensures ItemsValid(ById(system.orders))
    ensures lines == ListLines(ById(system.orders), system.menu.items.entries)
  {
    ListedItemsValid(system.db);
    var orders := system.ListOrders(true);
    if |orders| == 0 {
      lines := ["\nNo orders found."];
    } else {
      var body := WriteOrders(system.menu, orders);
      lines := ["\nCurrent Orders:"] + body;
    }
  }

  /** The part of `_handle_status` once the id has parsed: the store's order is reported. */
  method LookUpStatus(system: CafeOrderSystem, orderId: int, now: int) returns (lines: seq<string>)
    requires system.Valid()
    modifies system
    ensures system.Valid()
    ensures var found := system.db.FetchOrder(orderId);
      && system.orders == (if found.Some? then old(system.orders).Put(orderId, found.value) else old(system.orders))
      && lines == if found.None? then [NoOrderMessage(orderId)] else StatusLines(orderId, found.value, system.menu.items.entries, now)
  {
    var order := system.GetOrder(orderId);
    if order.None? {
      lines := [NoOrderMessage(orderId)];
    } else {
      var o := order.value;
      var summary := SummarizeOrderItems(system.menu, o.items);
      lines := [
        "Order " + IntStr(orderId) + ": " + Status(o, now),
        "  Placed: " + Timestamp(o.placedAt),
        "  Ready:  " + ReadyText(o),
        "  Items:  " + summary
      ];
    }
  }

  /** The part of `_handle_menu_remove` after the id has parsed: the line it writes. */
  method RemoveListed(system: CafeOrderSystem, itemId: int) returns (line: string)
    requires system.Valid()
    modifies system.db, system.menu
    ensures system.Valid()
    ensures itemId !in old(system.menu.items.entries) ==>
      && system.db.Kept() && system.menu.Kept()
      && line == "Menu item " + IntStr(itemId) + " not found."
    ensures itemId in old(system.menu.items.entries) ==>
      var ok := itemId in old(system.db.menuItems.entries);
      && system.db.menuItems == old(system.db.menuItems).Remove(itemId)
      && system.menu.items == (if ok then system.db.LoadMenuItems() else old(system.menu.items))
      && line == if ok then "Menu item " + IntStr(itemId) + " '" + old(system.menu.items.entries)[itemId].name + "' removed successfully."
                 else "Failed to remove menu item " + IntStr(itemId) + "."
    ensures system.db.orders == old(system.db.orders) && system.db.lastOrderId == old(system.db.lastOrderId)
  {
    var item := system.menu.GetItem(itemId);
    if item.None? {
      return "Menu item " + IntStr(itemId) + " not found.";
    }
    var ok := system.RemoveMenuItem(itemId);
    line := if ok then "Menu item " + IntStr(itemId) + " '" + item.value.name + "' removed successfully."
            else "Failed to remove menu item " + IntStr(itemId) + ".";
  }

  /** The `for` loop of `_handle_list`: two lines per order. */
  method WriteOrders(menu: CafeMenu, orders: seq<Order>) returns (lines: seq<string>)
    requires ItemsValid(orders)
    ensures lines == ListingOf(orders, menu.items.entries)
  {
    lines := [];
    var i := 0;
    while i < |orders|
      invariant 0 <= i <= |orders|
      invariant lines == ListingOf(orders[..i], menu.items.entries)
    {
      var summary := SummarizeOrderItems(menu, orders[i].items);
      ListingOfSnoc(orders, menu.items.entries, i);
      lines := lines + [OrderLine(orders[i]), "    " + summary];
      i := i + 1;
    }
    assert orders[..i] == orders;
  }

  /** What `list` writes for the orders it lists. */
  function ListLines(orders: seq<Order>, menu: map<int, MenuItem>): seq<string>
    requires ItemsValid(orders)
  {
    if orders == [] then ["\nNo orders found."] else ["\nCurrent Orders:"] + ListingOf(orders, menu)
  }

  /** The four lines of `status` for a found order. */
  function StatusLines(orderId: int, o: Order, menu: map<int, MenuItem>, now: int): seq<string>
    requires o.items.Valid()
  {
    [ "Order " + IntStr(orderId) + ": " + Status(o, now),
      "  Placed: " + Timestamp(o.placedAt),
      "  Ready:  " + ReadyText(o),
      "  Items:  " + Summary(menu, o.items) ]
  }

  /** The line `ready` writes for an order it marked. */
  function ReadyLine(orderId: int, o: Order): string {
    "Order " + IntStr(orderId) + " marked ready at " + (if o.readyAt.Some? then Timestamp(o.readyAt.value) else "unknown") + "."
  }

  /** `menu-add`'s name: the arguments after the id, joined by single spaces. */
  function NameArg(args: seq<string>): (name: string)
    requires |args| >= 2
    ensures |name| >= |args[1]| && name[..|args[1]|] == args[1]
    ensures |args| == 2 ==> name == args[1]
    ensures (forall i | 1 <= i < |args| :: IsWord(args[i])) ==> Words(name) == args[1..]
  {
    assert forall i | 0 <= i < |args| - 1 :: args[1..][i] == args[i + 1];
    Join(" ", args[1..])
  }

  const MenuAddUsage := ["Usage: menu-add <item id> <name>", "Example: menu-add 14 'New Coffee'"]

  /** What `_handle_menu_list` writes: a note for an empty menu, else a header and every item in id order. */
  function MenuListing(menu: CafeMenu): seq<string>
    reads menu
    requires menu.Valid()
  {
    if menu.items.ids == [] then ["\nNo menu items found."] else ["\nMenu Items:"] + ListingLines(menu.AllItems())
  }

  class CafeBackendApp {
    const system: CafeOrderSystem
    /** Every message handed to `io.write`, in order. */
    var log: seq<string>

    ghost predicate Valid()
      reads this, system, system.db, system.menu
    {
      system.Valid()
    }

    constructor (system: CafeOrderSystem)
      requires system.Valid()
      ensures Valid() && this.system == system && log == []
    {
      this.system := system;
      log := [];
    }

    /**
     * What `_handle_list` does: the cache is refreshed from the store and
     * every stored order is listed, in increasing id order.
     */
    twostate predicate ListDone()
      requires old(Valid()) && Valid()
      reads this, system, system.db, system.menu
    {
      && system.orders == system.db.LoadOrders()
      && log == old(log) + ListLines(ById(system.orders), system.menu.items.entries)
    }

    /**
     * What `_handle_status` does: a missing or non-integer argument writes
     * its error and leaves the cache alone; otherwise the store's answer for
     * the id is reported (and a found order cached).
     */
    twostate predicate StatusDone(args: seq<string>, now: int)
      requires old(Valid()) && Valid()
      reads this, system, system.db, system.menu
    {
      if IdArg(args).None? then
        && system.orders == old(system.orders)
        && log == old(log) + [IdArgError(args, "Usage: status <order id>", "Order id must be an integer.")]
      else
        var id := IdArg(args).value;
        var found := system.db.FetchOrder(id);
        && system.orders == (if found.Some? then old(system.orders).Put(id, found.value) else old(system.orders))
        && log == old(log) + if found.None? then [NoOrderMessage(id)] else StatusLines(id, found.value, system.menu.items.entries, now)
    }

    /**
     * What `_handle_ready` does at clock reading `now`: a missing or
     * non-integer argument, or an id the store does not hold, writes its
     * message and changes nothing; a stored order gets `now` as its ready
     * time, in the store and in the cache.  The menu and the id counter
     * are never touched.
     */
    twostate predicate ReadyDone(args: seq<string>, now: int)
      requires old(Valid()) && Valid()
      reads this, system, system.db, system.menu
    {
      && system.db.menuItems == old(system.db.menuItems)
      && system.db.lastOrderId == old(system.db.lastOrderId)
      && if IdArg(args).None? then
        && system.Kept()
        && log == old(log) + [IdArgError(args, "Usage: ready <order id>", "Order id must be an integer.")]
      else if IdArg(args).value !in old(system.db.orders.entries) then
        && system.Kept()
        && log == old(log) + [NoOrderMessage(IdArg(args).value)]
      else
        var id := IdArg(args).value;
        && system.db.FetchOrder(id) == Some(old(system.db.FetchOrder(id)).value.(readyAt := Some(now)))
        && system.db.orders == old(system.db.orders).Put(id, old(system.db.orders.entries[id]).(readyAt := Some(now)))
        && system.orders == old(system.orders).Put(id, system.db.FetchOrder(id).value)
        && log == old(log) + [ReadyLine(id, system.db.FetchOrder(id).value)]
    }

    /**
     * What `_handle_menu_add` does: fewer than two arguments or a
     * non-integer id write usage or an error and change nothing; otherwise
     * the name is the remaining arguments joined by spaces, the store
     * accepts it exactly when neither the id nor the name is taken, and
     * the live menu is reloaded after an accepted add.  Orders are never
     * touched.
     */
    twostate predicate MenuAddDone(args: seq<string>)
      requires old(Valid()) && Valid()
      reads this, system, system.db, system.menu
    {
      && system.db.orders == old(system.db.orders)
      && system.db.lastOrderId == old(system.db.lastOrderId)
      && if |args| < 2 then
        log == old(log) + MenuAddUsage && system.db.Kept() && system.menu.Kept()
      else if ParseInt(args[0]).None? then
        log == old(log) + ["Item id must be an integer."] && system.db.Kept() && system.menu.Kept()
      else
        var id := ParseInt(args[0]).value;
        var name := NameArg(args);
        var ok := id !in old(system.db.menuItems.entries) && name !in old(system.db.menuItems.entries).Values;
        && system.db.menuItems == (if ok then old(system.db.menuItems).Put(id, name) else old(system.db.menuItems))
        && system.menu.items == (if ok then system.db.LoadMenuItems() else old(system.menu.items))
        && log == old(log) + [if ok then "Menu item " + IntStr(id) + " '" + name + "' added successfully."
                              else "Failed to add menu item. Item id " + IntStr(id) + " may already exist."]
    }

    /**
     * What `_handle_menu_remove` does: the id is checked against the live
     * menu first, so an id missing there is reported and the store is not
     * touched; a listed id is deleted from the store and the live menu
     * reloaded when the store held it.  Orders are never touched.
     */
    twostate predicate MenuRemoveDone(args: seq<string>)
      requires old(Valid()) && Valid()
      reads this, system, system.db, system.menu
    {
      && system.db.orders == old(system.db.orders)
      && system.db.lastOrderId == old(system.db.lastOrderId)
      && if IdArg(args).None? then
        && system.db.Kept() && system.menu.Kept()
        && log == old(log) + [IdArgError(args, "Usage: menu-remove <item id>", "Item id must be an integer.")]
      else if IdArg(args).value !in old(system.menu.items.entries) then
        && system.db.Kept() && system.menu.Kept()
        && log == old(log) + ["Menu item " + IntStr(IdArg(args).value) + " not found."]
      else
        var id := IdArg(args).value;
        var ok := id in old(system.db.menuItems.entries);
        && system.db.menuItems == old(system.db.menuItems).Remove(id)
        && system.menu.items == (if ok then system.db.LoadMenuItems() else old(system.menu.items))
        && log == old(log) + [if ok then "Menu item " + IntStr(id) + " '" + old(system.menu.items.entries)[id].name + "' removed successfully."
                              else "Failed to remove menu item " + IntStr(id) + "."]
    }

    /**
     * What one branch of the `if`/`elif` chain of `run` does: `list` and
     * `status` refresh the cache only, `ready` and the two menu edits have
     * their handler's effect, and `menu-list`, `help`, `exit`/`quit` and an
     * unknown word write their text and change nothing.
     */
    twostate predicate Dispatched(command: StaffCommand, args: seq<string>, now: int)
      requires old(Valid()) && Valid()
      reads this, system, system.db, system.menu
    {
      match command
      case ListAll => ListDone() && system.db.Kept() && system.menu.Kept()
      case OrderStatus => StatusDone(args, now) && system.db.Kept() && system.menu.Kept()
      case MarkReady => ReadyDone(args, now) && system.menu.Kept()
      case MenuList => log == old(log) + MenuListing(system.menu) && system.Kept() && system.menu.Kept()
      case MenuAdd => MenuAddDone(args) && system.orders == old(system.orders)
      case MenuRemove => MenuRemoveDone(args) && system.orders == old(system.orders)
      case Help => log == old(log) + HelpLines && system.Kept() && system.menu.Kept()
      case Quit => log == old(log) + [ExitFarewell] && system.Kept() && system.menu.Kept()
      case Unknown => log == old(log) + [UnknownCommand] && system.Kept() && system.menu.Kept()
    }

    /**
     * `_handle_list`: the cache is refreshed from the store and every stored
     * order is listed, in increasing id order.
     */
    method HandleList()
      requires Valid()
      modifies this, system
      ensures Valid()
      ensures ItemsValid(ById(system.orders))
      ensures Extends(log, old(log))
      ensures ListDone()
    {
      var lines := ListAllOrders(system);
      ExtendsBy(log, lines);
      log := log + lines;
    }

    /**
     * `_handle_status`: a missing or non-integer argument writes an error and
     * leaves the cache alone; otherwise the store's order is looked up.
     */
    method HandleStatus(args: seq<string>, now: int)
      requires Valid()
      modifies this, system
      ensures Valid()
      ensures Extends(log, old(log))
      ensures StatusDone(args, now)
    {
      var id := IdArg(args);
      if id.None? {
        var line := IdArgError(args, "Usage: status <order id>", "Order id must be an integer.");
        ExtendsBy(log, [line]);
        log := log + [line];
      } else {
        var lines := LookUpStatus(system, id.value, now);
        ExtendsBy(log, lines);
        log := log + lines;
      }
    }

    /**
     * `_handle_ready` at clock reading `now`: a missing or non-integer
     * argument never reaches `mark_ready`, so store and cache are unchanged;
     * an unknown id is reported and changes nothing; a known one is marked.
     */
    method HandleReady(args: seq<string>, now: int)
      requires Valid()
      modifies this, system, system.db
      ensures Valid()
      ensures Extends(log, old(log))
      ensures ReadyDone(args, now)
    {
      if |args| == 0 {
        log := log + ["Usage: ready <order id>"];
        return;
      }
      var parsed := ParseInt(args[0]);
      if parsed.None? {
        log := log + ["Order id must be an integer."];
        return;
      }
      var orderId := parsed.value;
      var order := system.MarkReady(orderId, now);
      if order.None? {
        log := log + [NoOrderMessage(orderId)];
        return;
      }
      log := log + [ReadyLine(orderId, order.value)];
    }

    /** `_handle_menu_list`: every live menu item, in increasing id order. */
    method HandleMenuList()
      requires Valid()
      modifies this
      ensures Extends(log, old(log))
      ensures log == old(log) + MenuListing(system.menu)
    {
      var items := system.menu.AllItems();
      if |items| == 0 {
        ExtendsBy(log, ["\nNo menu items found."]);
        log := log + ["\nNo menu items found."];
        return;
      }
      var lines := WriteListing(items);
      ExtendsBy(log, ["\nMenu Items:"] + lines);
      log := log + (["\nMenu Items:"] + lines);
    }

    /**
     * `_handle_menu_add`: fewer than two arguments or a non-integer id write
     * usage or an error and leave the menu alone; otherwise the name is the
     * remaining arguments joined by spaces and the store decides.  A
     * rejected item leaves both the store and the live menu unchanged.
     */
    method HandleMenuAdd(args: seq<string>)
      requires Valid()
      modifies this, system.db, system.menu
      ensures Valid()
      ensures Extends(log, old(log))
      ensures MenuAddDone(args)
    {
      if |args| < 2 {
        log := log + MenuAddUsage;
        return;
      }
      var parsed := ParseInt(args[0]);
      if parsed.None? {
        log := log + ["Item id must be an integer."];
        return;
      }
      var itemId := parsed.value;
      var name := Join(" ", args[1..]);
      var ok := system.AddMenuItem(itemId, name);
      if ok {
        log := log + ["Menu item " + IntStr(itemId) + " '" + name + "' added successfully."];
      } else {
        log := log + ["Failed to add menu item. Item id " + IntStr(itemId) + " may already exist."];
      }
    }

    /**
     * `_handle_menu_remove`: the id is checked against the live menu first;
     * an id missing there is reported and the store is not touched.
     */
    method HandleMenuRemove(args: seq<string>)
      requires Valid()
      modifies this, system.db, system.menu
      ensures Valid()
      ensures Extends(log, old(log))
      ensures MenuRemoveDone(args)
    {
      var id := IdArg(args);
      if id.None? {
        var line := IdArgError(args, "Usage: menu-remove <item id>", "Item id must be an integer.");
        ExtendsBy(log, [line]);
        log := log + [line];
        return;
      }
      var line := RemoveListed(system, id.value);
      ExtendsBy(log, [line]);
      log := log + [line];
    }

    /**
     * The `if`/`elif` chain of `run`.  `exit` and `quit` write a farewell
     * and end the loop; an unknown word writes one error line; only `ready`
     * and the two menu edits can change the store.
     */
    method Dispatch(command: StaffCommand, args: seq<string>, now: int) returns (stop: bool)
      requires Valid()
      modifies this, system, system.db, system.menu
      ensures Valid()
      ensures stop <==> command.Quit?
      ensures Extends(log, old(log))
      ensures stop ==> log == old(log) + [ExitFarewell]
      ensures Dispatched(command, args, now)
      ensures system.db.lastOrderId == old(system.db.lastOrderId)
    {
      stop := false;
      match command
      case ListAll =>
        HandleList();
      case OrderStatus =>
        HandleStatus(args, now);
      case MarkReady =>
        HandleReady(args, now);
      case MenuList =>
        HandleMenuList();
      case MenuAdd =>
        HandleMenuAdd(args);
      case MenuRemove =>
        HandleMenuRemove(args);
      case Help =>
        ExtendsBy(log, HelpLines);
        log := log + HelpLines;
      case Quit =>
        ExtendsBy(log, [ExitFarewell]);
        log := log + [ExitFarewell];
        stop := true;
      case Unknown =>
        ExtendsBy(log, [UnknownCommand]);
        log := log + [UnknownCommand];
    }

    /**
     * What the loop of `run` does with a line that is not blank: it takes
     * the branch of the line's lowercased first word, with the words after
     * it as arguments.
     */
    twostate predicate LineHandled(text: string, now: int)
      requires old(Valid()) && Valid()
      reads this, system, system.db, system.menu
    {
      Tokens(text).Some? ==> Dispatched(StaffCommandOf(Tokens(text).value.0), Tokens(text).value.1, now)
    }

    /**
     * What the loop of `run` does with one line: a blank line writes nothing
     * and changes nothing; any other line is dispatched on its lowercased
     * first word, and only `exit`/`quit` ends the loop.
     */
    method HandleLine(text: string, now: int) returns (stop: bool)
      requires Valid()
      modifies this, system, system.db, system.menu
      ensures Valid()
      ensures stop <==> Tokens(text).Some? && Ends(Tokens(text).value.0)
      ensures Extends(log, old(log))
      ensures Blank(text) ==> log == old(log) && system.Kept() && system.menu.Kept()
      ensures stop ==> log == old(log) + [ExitFarewell]
      ensures LineHandled(text, now)
      ensures system.db.lastOrderId == old(system.db.lastOrderId)
    {
      var tokens := Tokens(text);
      if tokens.None? {
        ExtendsSelf(log);
        return false;
      }
      var (word, args) := tokens.value;
      var command := StaffCommandOf(word);
      stop := Dispatch(command, args, now);
      assert stop <==> Ends(word);
    }

    /**
     * One pass of the loop of `run` on one input: an interrupt writes a
     * farewell and ends the loop; a line is handled as above.
     */
    method Step(input: Input) returns (stop: bool)
      requires Valid()
      modifies this, system, system.db, system.menu
      ensures Valid()
      ensures stop <==> Stops(input)
      ensures Extends(log, old(log))
      ensures input.Interrupt? ==> log == old(log) + [InterruptFarewell] && system.Kept() && system.menu.Kept()
      ensures input.Line? && Blank(input.text) ==> log == old(log) && system.Kept() && system.menu.Kept()
      ensures stop ==> |log| > 0 && log[|log| - 1] == Goodbye(input)
      ensures input.Line? ==> LineHandled(input.text, input.now)
      ensures system.db.lastOrderId == old(system.db.lastOrderId)
    {
      if input.Interrupt? {
        ExtendsBy(log, [InterruptFarewell]);
        log := log + [InterruptFarewell];
        return true;
      }
      stop := HandleLine(input.text, input.now);
    }

    /**
     * `run`: the banner and the help, then one step per input until an
     * input ends the session or the inputs run out (EOF, answered with
     * "Goodbye!").  Returns how many inputs were read.
     */
    method Run(inputs: seq<Input>) returns (consumed: nat)
      requires Valid()
      modifies this, system, system.db, system.menu
      ensures Valid()
      ensures consumed == Consumed(inputs)
      ensures Extends(log, old(log) + [Banner] + HelpLines)
      ensures |log| > 0 && log[|log| - 1] == Farewell(inputs)
      ensures system.db.lastOrderId == old(system.db.lastOrderId)
    {
      var greeting := log + [Banner] + HelpLines;
      log := greeting;
      var i := 0;
      ExtendsSelf(log);
      while true
        invariant 0 <= i <= StopAt(inputs)
        invariant Valid()
        invariant Extends(log, greeting)
        invariant system.db.lastOrderId == old(system.db.lastOrderId)
        decreases |inputs| - i
      {
        if i == |inputs| {
          StopAtEnd(inputs);
          ExtendsAppend(log, greeting, [EofFarewell]);
          log := log + [EofFarewell];
          assert log[|log| - 1] == Farewell(inputs);
          return i;
        }
        ghost var before := log;
        var stop := Step(inputs[i]);
        ghost var after := log;
        ExtendsTransitive(greeting, before, log);
        if stop {
          StopAtLast(inputs, i, after);
          return i + 1;
        }
        StopAtSkip(inputs, i);
        i := i + 1;
      }
    }
  }
}
