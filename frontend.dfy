/**
 * `CafeOrderApp`, the guest console: a command loop over the shared
 * facade with a private shopping cart.  What the console writes is kept
 * as a log of messages; the lines it reads are the session's inputs.
 */
module Frontend {
  import opened Wrappers
  import opened Text
  import opened Models
  import opened ItemsCodec
  import opened Database
  import opened Menu
  import opened Cart
  import opened OrderSystem
  import opened Session
  import Constants

  const Welcome := "\nWelcome to Cafe Cursor!"

  /** `_print_help`. */
  const HelpLines := [
    "\n" + Constants.CafeLogo,
    "Commands:",
    "  menu                    Show Cafe Cursor offerings",
    "  add <item #> [qty]      Add menu item to cart",
    "  cart                    Review current cart",
    "  order                   Place the current cart",
    "  status <order id>       Check order status (integers only)",
    "  help                    Show this message",
    "  exit                    Quit the app"
  ]

  const UnknownCommand := "Unknown command. Type `help` for options."

  /** The command words the guest console dispatches on. */
  const GuestCommands := {"menu", "add", "cart", "order", "status", "help", "?", "exit", "quit"}

  /** The branches of the guest console's `if`/`elif` chain. */
  datatype GuestCommand = ShowMenu | AddToCart | ShowCart | PlaceOrder | CheckStatus | Help | Quit | Unknown

  /** Which branch a (lowercased) command word takes. */
  function GuestCommandOf(word: string): (c: GuestCommand)
    ensures c.ShowMenu? <==> word == "menu"
    ensures c.AddToCart? <==> word == "add"
    ensures c.ShowCart? <==> word == "cart"
    ensures c.PlaceOrder? <==> word == "order"
    ensures c.CheckStatus? <==> word == "status"
    ensures c.Help? <==> word == "help" || word == "?"
    ensures c.Quit? <==> Ends(word)
    ensures c.Unknown? <==> word !in GuestCommands
  {
    if word == "menu" then ShowMenu
    else if word == "add" then AddToCart
    else if word == "cart" then ShowCart
    else if word == "order" then PlaceOrder
    else if word == "status" then CheckStatus
    else if word in {"help", "?"} then Help
    else if word in {"exit", "quit"} then Quit
    else Unknown
  }

  /**
   * A line typed in capitals takes the branch of its lowercase word:
   * `MENU` shows the menu.
   */
  lemma MenuInCapitals()
    ensures Tokens("MENU").Some? && GuestCommandOf(Tokens("MENU").value.0) == ShowMenu
  {
    UpperCaseMenu();
  }

  /** How `_handle_add` ends, decided by its arguments and the live menu. */
  datatype AddOutcome =
    | AddUsage
    | IdNotNumeric
    | NotOnMenu(id: int)
    | QuantityNotNumeric
    | QuantityNotPositive
    | AddItem(id: int, item: MenuItem, quantity: int)

  /**
   * The checks of `_handle_add`, in order: an argument is needed, it must
   * parse as an int, the id must be on the menu, an optional second
   * argument must parse (the quantity defaults to 1), and the cart rejects
   * a quantity that is not positive.  Only `AddItem` changes the cart.
   */
  function AddPlan(args: seq<string>, menu: map<int, MenuItem>): (p: AddOutcome)
    ensures p.AddItem? <==>
      && |args| > 0 && ParseInt(args[0]).Some? && ParseInt(args[0]).value in menu
      && (|args| == 1 || (ParseInt(args[1]).Some? && ParseInt(args[1]).value > 0))
    ensures p.AddItem? ==> p.quantity > 0 && p.id == ParseInt(args[0]).value && p.item == menu[p.id]
    ensures p.AddItem? && |args| == 1 ==> p.quantity == 1
    ensures p.AddItem? && |args| > 1 ==> Some(p.quantity) == ParseInt(args[1])
  {
    if |args| == 0 then AddUsage
    else match ParseInt(args[0])
      case None => IdNotNumeric
      case Some(id) =>
        if id !in menu then NotOnMenu(id)
        else if |args| >= 2 && ParseInt(args[1]).None? then QuantityNotNumeric
        else
          var quantity := if |args| >= 2 then ParseInt(args[1]).value else 1;
          if quantity <= 0 then QuantityNotPositive else AddItem(id, menu[id], quantity)
  }

  /** The one line `_handle_add` writes. */
  function AddMessage(p: AddOutcome): string {
    match p
    case AddUsage => "Usage: add <item #> [quantity]"
    case IdNotNumeric => "Item number must be numeric."
    case NotOnMenu(id) => "Item #" + IntStr(id) + " is not on the menu."
    case QuantityNotNumeric => "Quantity must be numeric."
    case QuantityNotPositive => NotPositiveMessage
    case AddItem(_, item, quantity) =>
      "Added " + IntStr(quantity) + " " + item.name + (if quantity > 1 then "s" else "") + " to cart."
  }

  const EmptyOrderMessage := "Cart is empty. Add items first via `add <item #>`."

  /** The confirmation `_handle_order` writes for a new order. */
  function Receipt(orderId: int): (lines: seq<string>)
    ensures |lines| == 6 && lines[2] == "Order ID: " + IntStr(orderId)
  {
    [ "\n" + Constants.Rule,
      "ORDER CONFIRMED",
      "Order ID: " + IntStr(orderId),
      "Use `status " + IntStr(orderId) + "` anytime to check progress.",
      "We'll ping you when everything is ready!",
      Constants.Rule ]
  }

  /** `f"{order_id}: {order.status()}"` at clock reading `now`. */
  function StatusLine(orderId: int, order: Order, now: int): string {
    IntStr(orderId) + ": " + Status(order, now)
  }

  class CafeOrderApp {
    const system: CafeOrderSystem
    const cart: ShoppingCart
    /** Every message handed to `io.write`, in order. */
    var log: seq<string>

    ghost predicate Valid()
      reads this, system, system.db, system.menu, cart
    {
      system.Valid() && cart.Valid()
    }

    constructor (system: CafeOrderSystem)
      requires system.Valid()
      ensures Valid() && this.system == system && fresh(cart)
      ensures cart.items == NoQuantities && log == []
    {
      this.system := system;
      cart := new ShoppingCart();
      log := [];
    }

    /**
     * What `_handle_add` does: it writes the one message of its plan, and
     * only an accepted add changes the cart, by `add`.
     */
    twostate predicate AddDone(args: seq<string>)
      requires old(Valid()) && Valid()
      reads this, system, system.db, system.menu, cart
    {
      var p := AddPlan(args, system.menu.items.entries);
      && log == old(log) + [AddMessage(p)]
      && cart.items == if p.AddItem? then Added(old(cart.items), p.id, p.quantity) else old(cart.items)
    }

    /**
     * What `_handle_order` does: an empty cart writes one message and
     * changes nothing; otherwise the order with the next id is stored and
     * cached with the cart's contents, the cart is emptied and the receipt
     * written.
     */
    twostate predicate OrderDone(now: int)
      requires old(Valid()) && Valid()
      reads this, system, system.db, system.menu, cart
    {
      if old(cart.items).IsEmpty() then
        && log == old(log) + [EmptyOrderMessage]
        && cart.items == old(cart.items)
        && system.db.orders == old(system.db.orders) && system.db.lastOrderId == old(system.db.lastOrderId)
        && system.orders == old(system.orders)
      else
        var id := old(system.db.lastOrderId) + 1;
        && cart.items == NoQuantities
        && system.db.lastOrderId == id
        && system.db.orders == old(system.db.orders).Put(id, OrderRow(EncodeItems(old(cart.items)), now, None))
        && system.orders == old(system.orders).Put(id, NewOrder(id, old(cart.items), now))
        && log == old(log) + Receipt(id)
    }

    /**
     * What `_handle_status` does: a missing or non-integer argument writes
     * its error and leaves the cache alone; otherwise the store's answer for
     * the id is reported (and a found order cached).
     */
    twostate predicate StatusDone(args: seq<string>, now: int)
      requires old(Valid()) && Valid()
      reads this, system, system.db, system.menu, cart
    {
      if IdArg(args).None? then
        && log == old(log) + [IdArgError(args, "Usage: status <order id>", "Order id must be an integer.")]
        && system.orders == old(system.orders)
      else
        var id := IdArg(args).value;
        var found := system.db.FetchOrder(id);
        && log == old(log) + [if found.None? then NoOrderMessage(id) else StatusLine(id, found.value, now)]
        && system.orders == if found.Some? then old(system.orders).Put(id, found.value) else old(system.orders)
    }

    /**
     * What one branch of the `if`/`elif` chain of `run` does: `menu`,
     * `cart` and `help` write their text and change nothing, `add`,
     * `order` and `status` have their handler's effect, `exit`/`quit` and
     * an unknown word write one line and change nothing.
     */
    twostate predicate Dispatched(command: GuestCommand, args: seq<string>, now: int)
      requires old(Valid()) && Valid()
      reads this, system, system.db, system.menu, cart
    {
      match command
      case ShowMenu => log == old(log) + system.menu.DisplayLines() && cart.items == old(cart.items) && system.Kept()
      case AddToCart => AddDone(args) && system.Kept()
      case ShowCart => log == old(log) + CartView(cart.items, system.menu.items.entries) && cart.items == old(cart.items) && system.Kept()
      case PlaceOrder => OrderDone(now)
      case CheckStatus => StatusDone(args, now) && cart.items == old(cart.items) && system.db.Kept()
      case Help => log == old(log) + HelpLines && cart.items == old(cart.items) && system.Kept()
      case Quit => log == old(log) + [ExitFarewell] && cart.items == old(cart.items) && system.Kept()
      case Unknown => log == old(log) + [UnknownCommand] && cart.items == old(cart.items) && system.Kept()
    }

    /** `_handle_add`: every failed check writes its message and leaves the cart alone. */
    method HandleAdd(args: seq<string>)
      requires Valid()
      modifies this, cart
      ensures Valid()
      ensures Extends(log, old(log))
      ensures AddDone(args)
    {
      var line;
      if |args| == 0 {
        line := "Usage: add <item #> [quantity]";
      } else {
        var parsed := ParseInt(args[0]);
        if parsed.None? {
          line := "Item number must be numeric.";
        } else {
          var itemId := parsed.value;
          var item := system.menu.GetItem(itemId);
          if item.None? {
            line := "Item #" + IntStr(itemId) + " is not on the menu.";
          } else {
            AddListed(args, itemId, item.value);
            return;
          }
        }
      }
      ExtendsBy(log, [line]);
      log := log + [line];
    }

    /** The part of `_handle_add` once the item number names a menu item. */
    method AddListed(args: seq<string>, itemId: int, item: MenuItem)
      requires Valid() && |args| > 0 && ParseInt(args[0]) == Some(itemId)
      requires itemId in system.menu.items.entries && system.menu.items.entries[itemId] == item
      modifies this, cart
      ensures Valid()
      ensures Extends(log, old(log))
      ensures AddDone(args)
    {
      var quantity := 1;
      if |args| >= 2 {
        var q := ParseInt(args[1]);
        if q.None? {
          ExtendsBy(log, ["Quantity must be numeric."]);
          log := log + ["Quantity must be numeric."];
          return;
        }
        quantity := q.value;
      }
      var error := cart.Add(itemId, quantity);
      var line := if error.Some? then error.value
                  else "Added " + IntStr(quantity) + " " + item.name + (if quantity > 1 then "s" else "") + " to cart.";
      ExtendsBy(log, [line]);
      log := log + [line];
    }

    /**
     * `_handle_order`: an empty cart creates no order.  Otherwise exactly
     * one order is created, holding the cart's contents, and the cart is
     * emptied.
     */
    method HandleOrder(now: int)
      requires Valid()
      modifies this, cart, system, system.db
      ensures Valid()
      ensures Extends(log, old(log))
      ensures OrderDone(now)
      ensures system.db.menuItems == old(system.db.menuItems)
    {
      if cart.IsEmpty() {
        EmptyIffNoKeys(cart.items);
        ExtendsBy(log, [EmptyOrderMessage]);
        log := log + [EmptyOrderMessage];
      } else {
        PlaceOrder(now);
      }
    }

    /** The part of `_handle_order` for a cart that is not empty. */
    method PlaceOrder(now: int)
      requires Valid() && !cart.items.IsEmpty()
      modifies this, cart, system, system.db
      ensures Valid()
      ensures Extends(log, old(log))
      ensures var id := old(system.db.lastOrderId) + 1;
        && cart.items == NoQuantities
        && system.db.lastOrderId == id
        && system.db.orders == old(system.db.orders).Put(id, OrderRow(EncodeItems(old(cart.items)), now, None))
        && system.orders == old(system.orders).Put(id, NewOrder(id, old(cart.items), now))
        && log == old(log) + Receipt(id)
      ensures system.db.menuItems == old(system.db.menuItems)
    {
      var orderId := SubmitCart(now);
      var lines := Receipt(orderId);
      ExtendsBy(log, lines);
      log := log + lines;
    }

    /**
     * The store side of `_handle_order`: the cart's snapshot is stored as
     * the order with the next id, and then the cart is emptied.
     */
    method SubmitCart(now: int) returns (orderId: int)
      requires Valid() && !cart.items.IsEmpty()
      modifies cart, system, system.db
      ensures Valid()
      ensures orderId == old(system.db.lastOrderId) + 1
      ensures cart.items == NoQuantities && system.db.lastOrderId == orderId
      ensures system.db.orders == old(system.db.orders).Put(orderId, OrderRow(EncodeItems(old(cart.items)), now, None))
      ensures system.orders == old(system.orders).Put(orderId, NewOrder(orderId, old(cart.items), now))
      ensures system.db.menuItems == old(system.db.menuItems)
    {
      var snapshot := cart.Snapshot();
      var order := system.CreateOrder(snapshot, now);
      cart.Clear();
      orderId := order.orderId;
    }

    /**
     * `_handle_status`: a missing or non-integer argument writes an error
     * and does not query the facade (the cache is untouched); otherwise the
     * store's order is looked up and its status at `now` reported.
     */
    method HandleStatus(args: seq<string>, now: int)
      requires Valid()
      modifies this, system
      ensures Valid()
      ensures Extends(log, old(log))
      ensures StatusDone(args, now)
    {
      if |args| == 0 {
        ExtendsBy(log, ["Usage: status <order id>"]);
        log := log + ["Usage: status <order id>"];
        return;
      }
      var parsed := ParseInt(args[0]);
      if parsed.None? {
        ExtendsBy(log, ["Order id must be an integer."]);
        log := log + ["Order id must be an integer."];
        return;
      }
      var orderId := parsed.value;
      var order := system.GetOrder(orderId);
      if order.None? {
        ExtendsBy(log, [NoOrderMessage(orderId)]);
        log := log + [NoOrderMessage(orderId)];
        return;
      }
      ExtendsBy(log, [StatusLine(orderId, order.value, now)]);
      log := log + [StatusLine(orderId, order.value, now)];
    }

    /**
     * The `if`/`elif` chain of `run` on a command word and its arguments.
     * `exit` and `quit` write a farewell and end the loop; an unknown word
     * writes one error line; only `add` touches the cart and only `order`
     * touches the store.
     */
    method Dispatch(command: GuestCommand, args: seq<string>, now: int) returns (stop: bool)
      requires Valid()
      modifies this, cart, system, system.db
      ensures Valid()
      ensures stop <==> command.Quit?
      ensures Extends(log, old(log))
      ensures stop ==> log == old(log) + [ExitFarewell]
      ensures Dispatched(command, args, now)
      ensures system.db.menuItems == old(system.db.menuItems)
    {
      stop := false;
      match command
      case ShowMenu =>
        var lines := system.menu.Display();
        ExtendsBy(log, lines);
        log := log + lines;
      case AddToCart =>
        HandleAdd(args);
      case ShowCart =>
        var lines := cart.DisplayLines(system.menu.items.entries);
        ExtendsBy(log, lines);
        log := log + lines;
      case PlaceOrder =>
        HandleOrder(now);
      case CheckStatus =>
        HandleStatus(args, now);
      case Help =>
        ExtendsBy(log, HelpLines);
        log := log + HelpLines;
      case Quit =>
        ExtendsBy(log, [ExitFarewell]);
        log := log + [ExitFarewell];
        stop := true;
      case Unknown =>
        ExtendsBy(log, [UnknownCommand]);
        log := log + [UnknownCommand];
    }

    /**
     * What the loop of `run` does with a line that is not blank: it takes
     * the branch of the line's lowercased first word, with the words after
     * it as arguments.
     */
    twostate predicate LineHandled(text: string, now: int)
      requires old(Valid()) && Valid()
      reads this, system, system.db, system.menu, cart
    {
      Tokens(text).Some? ==> Dispatched(GuestCommandOf(Tokens(text).value.0), Tokens(text).value.1, now)
    }

    /**
     * What the loop of `run` does with one line: a blank line writes nothing
     * and changes nothing; any other line is dispatched on its lowercased
     * first word, and only `exit`/`quit` ends the loop.
     */
    method HandleLine(text: string, now: int) returns (stop: bool)
      requires Valid()
      modifies this, cart, system, system.db
      ensures Valid()
      ensures stop <==> Tokens(text).Some? && Ends(Tokens(text).value.0)
      ensures Extends(log, old(log))
      ensures Blank(text) ==> log == old(log) && cart.items == old(cart.items) && system.Kept()
      ensures stop ==> log == old(log) + [ExitFarewell]
      ensures LineHandled(text, now)
      ensures system.db.menuItems == old(system.db.menuItems)
    {
      var tokens := Tokens(text);
      if tokens.None? {
        ExtendsSelf(log);
        return false;
      }
      var (word, args) := tokens.value;
      var command := GuestCommandOf(word);
      stop := Dispatch(command, args, now);
      assert stop <==> Ends(word);
    }

    /**
     * One pass of the loop of `run` on one input: an interrupt writes a
     * farewell and ends the loop; a line is handled as above.
     */
    method Step(input: Input) returns (stop: bool)
      requires Valid()
      modifies this, cart, system, system.db
      ensures Valid()
      ensures stop <==> Stops(input)
      ensures Extends(log, old(log))
      ensures input.Interrupt? ==> log == old(log) + [InterruptFarewell] && cart.items == old(cart.items) && system.Kept()
      ensures input.Line? && Blank(input.text) ==> log == old(log) && cart.items == old(cart.items) && system.Kept()
      ensures stop ==> |log| > 0 && log[|log| - 1] == Goodbye(input)
      ensures input.Line? ==> LineHandled(input.text, input.now)
      ensures system.db.menuItems == old(system.db.menuItems)
    {
      if input.Interrupt? {
        ExtendsBy(log, [InterruptFarewell]);
        log := log + [InterruptFarewell];
        return true;
      }
      stop := HandleLine(input.text, input.now);
    }

    /**
     * `run`: the welcome and the help, then one step per input until an
     * input ends the session or the inputs run out (EOF, answered with
     * "Goodbye!").  Returns how many inputs were read.
     */
    method Run(inputs: seq<Input>) returns (consumed: nat)
      requires Valid()
      modifies this, cart, system, system.db
      ensures Valid()
      ensures consumed == Consumed(inputs)
      ensures Extends(log, old(log) + [Welcome] + HelpLines)
      ensures |log| > 0 && log[|log| - 1] == Farewell(inputs)
      ensures system.db.menuItems == old(system.db.menuItems)
    {
      var greeting := log + [Welcome] + HelpLines;
      log := greeting;
      var i := 0;
      ExtendsSelf(log);
      while true
        invariant 0 <= i <= StopAt(inputs)
        invariant Valid()
        invariant Extends(log, greeting)
        invariant system.db.menuItems == old(system.db.menuItems)
        decreases |inputs| - i
      {
        if i == |inputs| {
          StopAtEnd(inputs);
          ExtendsAppend(log, greeting, [EofFarewell]);
          log := log + [EofFarewell];
          assert log[|log| - 1] == Farewell(inputs);
          return i;
        }
        ghost var before := log;
        var stop := Step(inputs[i]);
        ExtendsTransitive(greeting, before, log);
        if stop {
          StopAtLast(inputs, i, log);
          return i + 1;
        }
        StopAtSkip(inputs, i);
        i := i + 1;
      }
    }
  }
}
