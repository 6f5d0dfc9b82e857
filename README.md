# Cafe Cursor ordering core in Dafny

Cafe Cursor is a small coffee-shop ordering system. It has two consoles:

- a guest console (`CafeOrderApp`), where a customer browses the menu,
  fills a shopping cart, places an order and checks its status;
- a staff console (`CafeBackendApp`), which lists orders, marks them ready
  and edits the menu.

Both consoles talk to one `CafeOrderSystem` facade. The facade owns:

- the live `CafeMenu`;
- a cache of orders over a `CafeDatabase`, which holds the `menu_items`
  table, the `orders` table (items stored as a JSON object text) and the
  orders table's AUTOINCREMENT counter.

The model follows the source's structure:

- **Values.** `MenuItem`, `Order`, Python dicts (`Models.Dict`: insertion
  order plus mapping), the JSON items codec (`ItemsCodec`), sorting, text
  handling (`strip`, `split`, `lower`, `int()`, `str(int)`) and the order
  status rule are datatypes and functions.
- **Mutable objects.** The database, menu, cart, facade, both consoles
  and the socket line framing (`SocketIO`) are classes. Their methods
  change their fields. The contract of each method that handles one
  operation or one input line states the new state in terms of the old
  one. The two session loops (`Run`) state less; see "## Left out".
- **Console output.** What a console writes is its `log`: one entry per
  `io.write` message. A session's inputs are a sequence of typed lines
  (each with the clock reading at which it was typed) and keyboard
  interrupts; the end of the sequence is end of file.

Main results:

- Encoding an order's items and decoding them again gives back the same
  dict, insertion order included (`ItemsCodec.DecodeEncode`).
- Order listings are in strictly increasing id order and hold exactly the
  stored orders.
- A placed order gets the next counter value and reads back from the store
  as it was created.
- The menu used without a store is exactly what a freshly seeded store
  loads.
- An order's status never moves backwards as time passes.
- Both consoles only append to their output. A session ends with the
  farewell that matches how it ended: end of file, an interrupt, or
  `exit`/`quit`.
- Line framing on a socket ends every message with "\r\n" and puts a "\r"
  before every "\n".

## Model

| member | source | states |
|---|---|---|
| Text.Trim | cafe_cursor/frontend.py:27 | `strip()` keeps the slice of the line left once a whitespace-only prefix and suffix are cut off; it is empty exactly when the line is all whitespace, and otherwise neither starts nor ends with whitespace |
| Text.TrimStart | cafe_cursor/frontend.py:27 | the leading whitespace removed is blank and the rest is a suffix not starting with whitespace |
| Text.TrimEnd | cafe_cursor/frontend.py:27 | the trailing whitespace removed is blank and the rest is a prefix not ending with whitespace |
| Text.Words | cafe_cursor/frontend.py:38 | `split()` yields non-empty words without whitespace, and no words exactly when the text is blank |
| Text.WordsOfWord | cafe_cursor/frontend.py:38 | a single word splits into just itself |
| Text.WordsFirst | cafe_cursor/frontend.py:38-39 | the first word of `split()` is the first maximal run of non-whitespace after the leading whitespace, and the other words are the split of what follows that run |
| Text.WordsAppendBlank | cafe_cursor/frontend.py:27-38 | trailing whitespace does not change the words |
| Text.WordsOfTrim | cafe_cursor/frontend.py:27-38 | `s.strip().split()` is `s.split()` |
| Text.Lower | cafe_cursor/frontend.py:39 | `lower()` keeps the length and maps each character to its lowercase form |
| Text.IntStr | cafe_cursor/frontend.py:105 | the decimal text of an int is non-empty digits, with a leading '-' for negatives, and has no quote or comma |
| Text.ParseIntOfIntStr | cafe_cursor/frontend.py:66-70 | `int()` reads the decimal text of any int back as that int |
| Text.ParseInt | cafe_cursor/frontend.py:66-70 | `int()` fails on empty text; which texts it accepts, and their value, is `Text.ParseIntGrammar` |
| Text.ParseDigitsGrammar | cafe_cursor/frontend.py:66-70 | the digit part is accepted exactly when it is ASCII digits with an underscore only ever between two digits, and its value is that of its digits in base 10 |
| Text.ParseIntGrammar | cafe_cursor/frontend.py:66-70 | on text without surrounding whitespace, `int()` succeeds exactly on an optional `+` or `-` followed by such a digit part, and returns that literal's value, negated after `-` |
| Text.ParseIntAccepts | cafe_cursor/frontend.py:66-70 | "+5", "-0_7" and "1_0" read as 5, -7 and 10 |
| Text.ParseIntRejects | cafe_cursor/frontend.py:66-70 | "1__0", "_1", "1_", "", "-", "+-1" and "1.0" are refused |
| Text.Join | cafe_cursor/backend.py:142 | the joined text starts with the first part; whitespace-free words joined by single spaces split back into exactly those words |
| Models.Dict.Put | cafe_cursor/cart.py:20 | `d[k] = v` sets the entry; an existing key keeps its place and a new key is appended; the dict stays well formed |
| Models.Dict.Remove | cafe_cursor/database.py:96 | deleting a key removes exactly that entry and keeps the other keys |
| Models.PutTwice | cafe_cursor/order_system.py:43-49 | writing one key twice leaves only the second write |
| Models.EmptyIffNoKeys | cafe_cursor/cart.py:22-23 | `not d` holds exactly when the dict has no keys |
| Models.NewOrder | cafe_cursor/models.py:16-23 | a new order carries the given id, items and placed time, and no ready time |
| Models.Status | cafe_cursor/models.py:25-35 | a ready order is "Ready for pickup!"; otherwise under 2 minutes, under 5 minutes, or later pick the three progress messages |
| Models.StatusNeverMovesBack | cafe_cursor/models.py:25-35 | for one order, a later clock reading never gives an earlier stage |
| Models.StatusExamples | tests/test_models.py:35-59 | orders placed 1, 3 and 6 minutes ago, and a ready one, get the four messages |
| ItemsCodec.EncodeItems | cafe_cursor/database.py:119 | `json.dumps` of an items dict is a text enclosed in braces |
| ItemsCodec.DecodeItems | cafe_cursor/database.py:143 | a successful decode is a well-formed dict |
| ItemsCodec.TakeNumberOfIntStr | cafe_cursor/database.py:143 | any int's text, followed by a non-digit or nothing, reads back as that int and that tail |
| ItemsCodec.TakeEntryOf | cafe_cursor/database.py:143 | one `"id": qty` member reads back as its id, its quantity and what follows it |
| ItemsCodec.DecodeSuffix | cafe_cursor/database.py:143 | decoding the members from position n on, starting from the dict's first n entries, gives the whole dict |
| ItemsCodec.DecodeEncode | cafe_cursor/database.py:115-146 | the stored items blob decodes back to the same dict, keys, quantities and order |
| Sorting.Sort | cafe_cursor/order_system.py:27 | `sorted` of distinct keys is strictly increasing and has the same keys and length |
| Sorting.IncreasingUnique | cafe_cursor/menu.py:54 | two strictly increasing sequences with the same values and length are equal |
| Sorting.SortIncreasing | cafe_cursor/database.py:77-78 | sorting keys already read in increasing order changes nothing |
| Database.RowToOrder | cafe_cursor/database.py:141-146 | a row becomes an order with the row's id, placed and ready times and its decoded items |
| Database.CafeDatabase.Open | cafe_cursor/database.py:15-18 | opening a store seeds an empty menu table with the default items and leaves a non-empty one and the orders as they were |
| Database.CafeDatabase.InitializeDefaultMenu | cafe_cursor/database.py:47-71 | the default items are inserted exactly when the menu table is empty |
| Database.CafeDatabase.LoadMenuItems | cafe_cursor/database.py:74-78 | one item per row, keyed by its id, with the row's name, in increasing id order |
| Database.CafeDatabase.AddMenuItem | cafe_cursor/database.py:80-91 | succeeds exactly when neither the id nor the name is taken (primary key and UNIQUE); only a success inserts the row; orders untouched |
| Database.CafeDatabase.RemoveMenuItem | cafe_cursor/database.py:93-98 | reports success exactly when a row had that id; the row is gone either way; orders untouched |
| Database.CafeDatabase.LoadOrders | cafe_cursor/database.py:101-104 | one order per row, keyed by id, in increasing id order |
| Database.CafeDatabase.FetchOrder | cafe_cursor/database.py:106-113 | None exactly when no row has that id; otherwise the row as an order |
| Database.CafeDatabase.CreateOrder | cafe_cursor/database.py:115-130 | the new order gets the counter plus one, above every existing id; its row holds the encoded items, the placed time and no ready time; it reads back as returned; the menu is untouched |
| Database.CafeDatabase.UpdateReadyTime | cafe_cursor/database.py:132-139 | an existing row gets the ready time and nothing else changes; an unknown id changes nothing |
| Database.DefaultNamesDistinct | cafe_cursor/database.py:52-66 | the thirteen default names are pairwise distinct |
| Database.DefaultMenuValid | cafe_cursor/database.py:52-70 | the seeded table has ids 1 to 13 in order, row k holding the k-th default name, and satisfies UNIQUE |
| Menu.FallbackListIsDefaultItems | cafe_cursor/menu.py:19-33 | the hardcoded menu lists the same ids and names, in the same order, as the default rows |
| Menu.FallbackShape | cafe_cursor/menu.py:19-33 | the fallback menu holds ids 1 to 13, each item under its own identifier |
| Menu.FallbackNamesAreSeedNames | cafe_cursor/menu.py:19-33 | the fallback menu is the seeded menu table with every row read as a `MenuItem` |
| Menu.FallbackMatchesSeed | cafe_cursor/menu.py:12-33 | a freshly seeded store loads exactly the fallback menu |
| Menu.CafeMenu.constructor | cafe_cursor/menu.py:12-33 | with a store the menu is what the store loads; without one it is the fallback menu |
| Menu.CafeMenu.GetItem | cafe_cursor/menu.py:48-50 | `get` returns the item exactly when the id is a key, and that item has that identifier |
| Menu.CafeMenu.AllItems | cafe_cursor/menu.py:52-54 | every item exactly once, in strictly increasing identifier order |
| Menu.CafeMenu.DisplayLines | cafe_cursor/menu.py:35-46 | title, then one listing line per item in id order, then the hint: five lines plus one per item |
| Menu.CafeMenu.Display | cafe_cursor/menu.py:35-46 | the method writes exactly the lines `DisplayLines` specifies |
| Menu.WriteListing | cafe_cursor/menu.py:41-43 | the loop writes `"  {id:2d}. {name}"` for each item, in order |
| Menu.Parts | cafe_cursor/menu.py:59-63 | one part per entry, in the dict's order: the menu name of the id, or "Item {id}" when it is not on the menu, then " x{qty}" |
| Menu.SummaryIsNoItemsIffEmpty | cafe_cursor/menu.py:64 | the summary is "No items" exactly when the order has no items |
| Menu.SummarizeOrderItems | cafe_cursor/menu.py:57-64 | the loop computes the joined summary, which is "No items" exactly for an empty dict |
| Cart.Added | cafe_cursor/cart.py:16-20 | a non-positive quantity changes nothing; otherwise it adds on top of the current count (absent is 0), a new id goes last while an existing one keeps its place, and no other item changes |
| Cart.RepeatedAddsSum | cafe_cursor/cart.py:16-20 | after any sequence of adds, the item's count is its old count plus the sum of the accepted quantities, and other items keep theirs |
| Cart.KnownIds | cafe_cursor/cart.py:40-43 | the cart's ids that are on the menu, and no others |
| Cart.CartLines | cafe_cursor/cart.py:40-44 | one `"name xqty"` line per known item, in cart order |
| Cart.KnownInBoth | cafe_cursor/cart.py:40-43 | every listed id is both in the cart and on the menu |
| Cart.CartView | cafe_cursor/cart.py:32-45 | logo first; an empty cart adds only the empty-cart message; otherwise header, one line per known item, footer |
| Cart.ShoppingCart.constructor | cafe_cursor/cart.py:13-14 | a new cart is empty |
| Cart.ShoppingCart.Add | cafe_cursor/cart.py:16-20 | the cart becomes `Added`, and a non-positive quantity reports "Quantity must be positive." |
| Cart.ShoppingCart.IsEmpty | cafe_cursor/cart.py:22-23 | true exactly when the cart has no items |
| Cart.ShoppingCart.Clear | cafe_cursor/cart.py:25-26 | the cart becomes empty |
| Cart.ShoppingCart.Snapshot | cafe_cursor/cart.py:28-30 | a copy with the same entries in the same order |
| OrderSystem.ById | cafe_cursor/order_system.py:27 | the cached orders in strictly increasing id order, each under its id, and every cached order appears |
| OrderSystem.LoadedOrdersKeyed | cafe_cursor/database.py:101-104 | a full reload keys every order by its own id |
| OrderSystem.LoadedOrdersFetched | cafe_cursor/database.py:101-113 | a full reload holds, under each id, what a point read of that id returns |
| OrderSystem.CafeOrderSystem.constructor | cafe_cursor/order_system.py:14-17 | the menu and the cache start as full loads of the store |
| OrderSystem.CafeOrderSystem.RefreshOrders | cafe_cursor/order_system.py:19-21 | the cache becomes a full reload |
| OrderSystem.CafeOrderSystem.ListOrders | cafe_cursor/order_system.py:23-27 | orders in strictly increasing id order; with refresh, exactly the stored orders as point reads return them, every stored order included |
| OrderSystem.CafeOrderSystem.CreateOrder | cafe_cursor/order_system.py:29-33 | the store's new order, which reads back as returned, is also cached under its id |
| OrderSystem.CafeOrderSystem.GetOrder | cafe_cursor/order_system.py:35-39 | returns the store's answer; a found order is cached and a missing one changes nothing |
| OrderSystem.CafeOrderSystem.MarkReady | cafe_cursor/order_system.py:41-50 | None and no change for an unknown id; otherwise the ready time is set in the store, the returned order and the cache |
| OrderSystem.CafeOrderSystem.RefreshMenu | cafe_cursor/order_system.py:52-54 | the live menu becomes a full reload |
| OrderSystem.CafeOrderSystem.AddMenuItem | cafe_cursor/order_system.py:56-61 | the store's verdict; only a success reloads the menu |
| OrderSystem.CafeOrderSystem.RemoveMenuItem | cafe_cursor/order_system.py:63-68 | the store's verdict; only a success reloads the menu |
| OrderSystem.SharedStore | cafe_cursor/order_system.py:35-50 | with two facades on one store, the guest's cache holds the order without a ready time until the guest's next read returns (and caches) the order staff marked ready |
| Session.Tokens | cafe_cursor/frontend.py:27-40 | nothing exactly for a blank line; otherwise a non-empty lowercase command and whitespace-free arguments |
| Session.TokensSplit | cafe_cursor/frontend.py:27-40 | a line is skipped exactly when `strip()` leaves nothing; otherwise the command is the lowercased first word of the stripped line and the arguments are the words after it |
| Session.SingleWordTokens | cafe_cursor/frontend.py:38-40 | a one-word line is that word lowercased, with no arguments |
| Session.UpperCaseMenu | cafe_cursor/frontend.py:39 | "MENU" is read as the command "menu" |
| Session.IdArg | cafe_cursor/backend.py:77-85 | an id exactly when there is a first argument and `int()` accepts it; the same parse serves `status` in both consoles, `ready` and `menu-remove` |
| Session.BlankLineContinues | cafe_cursor/frontend.py:35-36 | a blank line never ends a session |
| Session.StopAt | cafe_cursor/frontend.py:25-58 | the first interrupt, `exit` or `quit`, or the end of input |
| LineIO.Terminated | cafe_cursor/io.py:33-34 | the message, plus a "\n" unless it already ends with one |
| LineIO.CrLfPlain | cafe_cursor/io.py:35 | text without "\n" is unchanged by the replacement |
| LineIO.CrLfKeepsNewlines | cafe_cursor/io.py:35 | the replacement keeps the number of "\n" |
| LineIO.CrLfPrecedesEveryNewline | cafe_cursor/io.py:35 | after the replacement every "\n" has a "\r" before it |
| LineIO.FrameEndsWithCrLf | cafe_cursor/io.py:32-35 | every written message ends with "\r\n" |
| LineIO.FrameCrBeforeLf | cafe_cursor/io.py:32-35 | every "\n" written is part of a "\r\n" |
| LineIO.FrameNewlineCount | cafe_cursor/io.py:32-35 | the written text has the message's newlines, plus one when the message lacked a final one |
| LineIO.FrameSingleLine | cafe_cursor/io.py:32-35 | a message without newlines goes out as itself plus "\r\n" |
| LineIO.StripTerminators | cafe_cursor/io.py:45 | `rstrip("\r\n")` drops exactly the trailing run of "\r"/"\n" characters |
| LineIO.NextLine | cafe_cursor/io.py:42-44 | `readline` takes through the first "\n", or everything if there is none, and the rest is left unread |
| LineIO.SocketIO.constructor | cafe_cursor/io.py:27-30 | a connection with the peer's text unread and nothing written |
| LineIO.SocketIO.Write | cafe_cursor/io.py:32-37 | the framed message is appended to what was written |
| LineIO.SocketIO.ReadLine | cafe_cursor/io.py:39-45 | the prompt, if any, is written first; EOF exactly when nothing is left; otherwise the next line without its terminators |
| Frontend.GuestCommandOf | cafe_cursor/frontend.py:42-58 | `menu`, `add`, `cart`, `order` and `status` each take their own branch, `help` and `?` the help branch, `exit` and `quit` the stop branch, and exactly the other words are unknown |
| Frontend.MenuInCapitals | cafe_cursor/frontend.py:37-43 | the line "MENU" takes the menu branch |
| Frontend.AddPlan | cafe_cursor/frontend.py:60-92 | an item is added exactly when the id parses and is on the menu and the quantity is absent (1) or parses as positive |
| Frontend.Receipt | cafe_cursor/frontend.py:103-108 | six lines, the third naming the order id |
| Frontend.CafeOrderApp.constructor | cafe_cursor/frontend.py:14-18 | a console over the given facade with an empty cart and nothing written |
| Frontend.CafeOrderApp.HandleAdd | cafe_cursor/frontend.py:60-92 | writes the plan's one message and changes the cart exactly as `add` does when the plan adds |
| Frontend.CafeOrderApp.AddListed | cafe_cursor/frontend.py:72-92 | the same, once the id is known to be on the menu |
| Frontend.CafeOrderApp.HandleOrder | cafe_cursor/frontend.py:94-108 | an empty cart writes one message and changes nothing; otherwise the order with the next id is stored and cached, the cart is emptied and the receipt written |
| Frontend.CafeOrderApp.PlaceOrder | cafe_cursor/frontend.py:100-108 | the non-empty branch of `_handle_order` |
| Frontend.CafeOrderApp.SubmitCart | cafe_cursor/frontend.py:100-101 | the cart's snapshot is stored and cached as the order with the next id, then the cart is emptied; the menu table is untouched |
| Frontend.CafeOrderApp.HandleStatus | cafe_cursor/frontend.py:110-126 | usage or parse error, "No order found", or `"{id}: {status}"` for the store's order, which is then cached |
| Frontend.CafeOrderApp.Dispatch | cafe_cursor/frontend.py:42-58 | stops exactly on exit/quit; `menu`, `cart` and `help` write the menu, the cart view and the help and change nothing; `add`, `order` and `status` have their handler's effect; exit/quit and an unknown word write their one line; the menu table never changes |
| Frontend.CafeOrderApp.HandleLine | cafe_cursor/frontend.py:35-58 | a blank line writes and changes nothing; any other line takes the branch of its lowercased first word, with the other words as arguments; only exit/quit stops |
| Frontend.CafeOrderApp.Step | cafe_cursor/frontend.py:25-58 | stops exactly on an interrupt or exit/quit, and then the last message is the matching farewell; an interrupt changes nothing else; a line is handled as `HandleLine` states |
| Frontend.CafeOrderApp.Run | cafe_cursor/frontend.py:20-58 | welcome and help first; reads through the input that ends the session; the last message is the matching farewell |
| Backend.StaffCommandOf | cafe_cursor/backend.py:41-59 | `list`, `status`, `ready`, `menu-list`, `menu-add` and `menu-remove` each take their own branch, `help` and `?` the help branch, `exit` and `quit` the stop branch, and exactly the other words are unknown |
| Backend.Tag | cafe_cursor/backend.py:69 | "READY" exactly for an order with a ready time, else "PREP" |
| Backend.ListingOfAt | cafe_cursor/backend.py:68-74 | two lines per order: its header and its indented item summary |
| Backend.ListedItemsValid | cafe_cursor/backend.py:62 | every order of a full listing has well-formed items |
| Backend.ListAllOrders | cafe_cursor/backend.py:61-74 | refreshes the cache and produces the listing of all stored orders in id order |
| Backend.WriteOrders | cafe_cursor/backend.py:68-74 | the loop writes exactly the two lines per order |
| Backend.LookUpStatus | cafe_cursor/backend.py:87-97 | "No order found" for an unknown id; otherwise the four status lines for the store's order, which is then cached |
| Backend.RemoveListed | cafe_cursor/backend.py:160-168 | an id not on the live menu writes "not found" and changes nothing; otherwise the store's removal, the reloaded menu and the matching message |
| Backend.NameArg | cafe_cursor/backend.py:142 | the name starts with the second argument and is that argument when it is the only one; `split()` of the name gives back exactly the arguments after the id |
| Backend.CafeBackendApp.constructor | cafe_cursor/backend.py:14-17 | a console over the given facade with nothing written |
| Backend.CafeBackendApp.HandleList | cafe_cursor/backend.py:61-74 | the cache becomes a full reload and the listing of all orders is written |
| Backend.CafeBackendApp.HandleStatus | cafe_cursor/backend.py:76-97 | usage or parse error, "No order found", or the status lines of the store's order, which is then cached |
| Backend.CafeBackendApp.HandleReady | cafe_cursor/backend.py:99-116 | usage or parse error, or "No order found" with no change; otherwise the order is marked ready at `now` in store and cache and the ready line written |
| Backend.CafeBackendApp.HandleMenuList | cafe_cursor/backend.py:118-128 | "No menu items found." for an empty menu; otherwise the header and one line per item in id order |
| Backend.CafeBackendApp.HandleMenuAdd | cafe_cursor/backend.py:130-146 | usage for fewer than two arguments, the parse error, or the store's verdict on the id and joined name with its message |
| Backend.CafeBackendApp.HandleMenuRemove | cafe_cursor/backend.py:148-168 | usage or parse error, "not found" for an id not on the live menu, otherwise the store's verdict with its message |
| Backend.CafeBackendApp.Dispatch | cafe_cursor/backend.py:41-59 | stops exactly on exit/quit; `list` and `status` only refresh the cache; `ready`, `menu-add` and `menu-remove` have their handler's effect; `menu-list`, `help`, exit/quit and an unknown word write their text and change nothing; no order is ever created |
| Backend.CafeBackendApp.HandleLine | cafe_cursor/backend.py:34-59 | a blank line writes and changes nothing; any other line takes the branch of its lowercased first word, with the other words as arguments; only exit/quit stops |
| Backend.CafeBackendApp.Step | cafe_cursor/backend.py:24-59 | stops exactly on an interrupt or exit/quit, and then the last message is the matching farewell; an interrupt changes nothing else; a line is handled as `HandleLine` states |
| Backend.CafeBackendApp.Run | cafe_cursor/backend.py:19-59 | banner and help first; reads through the input that ends the session; the last message is the matching farewell |

## Left out

- SQLite, SQL text, connections and the `threading.Lock` around order creation. The store is an in-memory pair of tables and a counter. Concurrent sessions are not modelled, beyond two facades sharing one store object (`OrderSystem.SharedStore`).
- `datetime`. A time is an integer number of seconds. `datetime.now()` becomes a `now` parameter, carried by each input line. `strftime`/`isoformat` are replaced by the decimal seconds (`Backend.Timestamp`).
- `ConsoleIO` (`print`/`input`), socket creation, `close` and UTF-8 encoding. Prompts written by `readline` are not entered in a console's log. `SocketIO` is modelled on strings: what the peer sent and what was written.
- `KeyboardInterrupt` is an input event (`Session.Input.Interrupt`), not an exception raised at an arbitrary point.
- `CAFE_LOGO` comes from a constants module that is not part of this model. It is a placeholder line.
- JSON: only the shape `json.dumps` gives an int-to-int dict, and its decoding, are modelled. Escapes, floats and whitespace variants are not.
- `int()` is modelled on ASCII text without surrounding whitespace (`Text.ParseIntGrammar`). Python's `int()` also strips surrounding whitespace and accepts Unicode digits; neither is modelled. No call site can pass surrounding whitespace: each passes a `split()` word (cafe_cursor/frontend.py:67, 80 and 117; cafe_cursor/backend.py:82, 105, 137 and 155) or a number `json.dumps` wrote (cafe_cursor/database.py:143). `lower()` covers ASCII letters only. The only non-ASCII character whose lowercase is ASCII is the Kelvin sign, and no command word contains "k".
- The server (`server.py`), the MCP server (`mcp_server.py`) and `__main__` are not part of this model.
- Frontend.CafeOrderApp.HandleOrder: does not restate that the new order reads back from the store. `OrderSystem.CafeOrderSystem.CreateOrder` states that.
- Cart.ShoppingCart.DisplayLines: carries no contract of its own. It is `Cart.CartView` over the cart's items, which states the rendering.
- Text.ParseInt: has no length limit. CPython's `int()` refuses a decimal text of more than 4300 digits with a ValueError. The model reads it as its value.
- Session.IdArg: parses an id of any length, because `Text.ParseInt` does. The source's handlers catch the ValueError for more than 4300 digits and write their "must be an integer"/"must be numeric" message. The model goes on with the parsed id.
- Database.CafeDatabase.FetchOrder: any int is a key. `sqlite3` binds only 64-bit integers, from -2^63 to 2^63 - 1, and raises OverflowError for any other id. `status` in either console and `ready` (through `get_order`, cafe_cursor/order_system.py:35-43) would end the session with a traceback, because only `readline` sits inside a `try`. The model writes "No order found" and carries on.
- Database.CafeDatabase.AddMenuItem: has no 64-bit bound. For an id outside the 64-bit range, `menu-add` would end the staff session with the same OverflowError, because only IntegrityError is caught (cafe_cursor/database.py:84-91). The model adds the item.
- Frontend.CafeOrderApp.Run: states the greeting, how many inputs are read and the farewell that ends the session. It does not state the session as a whole: what is written between the greeting and the farewell, or the final cart, cache and store. The effect of each input is stated only by `Frontend.CafeOrderApp.Step` and `Frontend.CafeOrderApp.HandleLine`.
- Backend.CafeBackendApp.Run: states the banner, how many inputs are read and the farewell that ends the session. It does not state the session as a whole: what is written between the banner and the farewell, or the final cache, menu and store. The effect of each input is stated only by `Backend.CafeBackendApp.Step` and `Backend.CafeBackendApp.HandleLine`.
