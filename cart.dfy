/** `ShoppingCart`: a guest session's item -> quantity dict, changed in place. */
module Cart {
  import opened Wrappers
  import opened Text
  import opened Models
  import Constants

  const NotPositiveMessage := "Quantity must be positive."
  const EmptyCartMessage := "\nCart is empty. Use `add <item #>` to begin."
  const CartHeader := "\n--- Cart ---"
  const CartFooter := "------------"

  /** Every stored quantity is positive: the cart never holds a zero or negative entry. */
  ghost predicate AllPositive(items: Quantities) {
    forall k | k in items.entries :: items.entries[k] > 0
  }

  /**
   * The effect of `add(id, quantity)` on the dict: a non-positive quantity is
   * rejected and changes nothing; otherwise the quantity is added on top of
   * the current one (absent reads as 0) and no other entry changes.
   */
  function Added(items: Quantities, id: int, quantity: int): (r: Quantities)
    requires items.Valid()
    ensures r.Valid()
    ensures quantity <= 0 ==> r == items
    ensures quantity > 0 ==> r.Get(id, 0) == items.Get(id, 0) + quantity && r.entries.Keys == items.entries.Keys + {id}
    ensures quantity > 0 ==> r.ids == if id in items.entries then items.ids else items.ids + [id]
    ensures forall k | k != id :: r.Get(k, 0) == items.Get(k, 0)
    ensures AllPositive(items) ==> AllPositive(r)
  {
    if quantity <= 0 then items else items.Put(id, items.Get(id, 0) + quantity)
  }

  /** A sequence of `add(id, q)` calls for one id, applied in order. */
  function AddedAll(items: Quantities, id: int, quantities: seq<int>): (r: Quantities)
    requires items.Valid()
    ensures r.Valid()
    decreases |quantities|
  {
    if quantities == [] then items
    else AddedAll(Added(items, id, quantities[0]), id, quantities[1..])
  }

  /** The sum of the quantities that `add` accepts (the positive ones). */
  function AcceptedSum(quantities: seq<int>): int
    decreases |quantities|
  {
    if quantities == [] then 0
    else (if quantities[0] > 0 then quantities[0] else 0) + AcceptedSum(quantities[1..])
  }

  /**
   * Repeated adds of one id sum: the final quantity is the starting one plus
   * every accepted quantity, and the rejected calls contribute nothing.
   */
  lemma {:induction false} RepeatedAddsSum(items: Quantities, id: int, quantities: seq<int>)
    requires items.Valid()
    ensures AddedAll(items, id, quantities).Get(id, 0) == items.Get(id, 0) + AcceptedSum(quantities)
    ensures forall k | k != id :: AddedAll(items, id, quantities).Get(k, 0) == items.Get(k, 0)
    decreases |quantities|
  {
    if quantities != [] {
      RepeatedAddsSum(Added(items, id, quantities[0]), id, quantities[1..]);
    }
  }

  /** The ids of `ids`, in order, that the menu knows. */
  function KnownIds(ids: seq<int>, menu: map<int, MenuItem>): (r: seq<int>)
    ensures forall x :: x in r <==> x in ids && x in menu
    ensures |r| <= |ids|
  {
    if ids == [] then []
    else (if ids[0] in menu then [ids[0]] else []) + KnownIds(ids[1..], menu)
  }

  /** One cart line: `f"{menu_item.name} x{quantity}"`. */
  function CartLine(item: MenuItem, quantity: int): string {
    item.name + " x" + IntStr(quantity)
  }

  class ShoppingCart {
    var items: Quantities

    ghost predicate Valid()
      reads this
    {
      items.Valid() && AllPositive(items)
    }

    constructor ()
      ensures Valid() && items == NoQuantities
    {
      items := NoQuantities;
    }

    /** `add`: ValueError (returned here) for a non-positive quantity, else accumulate. */
    method Add(itemId: int, quantity: int) returns (error: Option<string>)
      requires Valid()
      modifies this
      ensures Valid()
      ensures items == Added(old(items), itemId, quantity)
      ensures error == if quantity <= 0 then Some(NotPositiveMessage) else None
    {
      if quantity <= 0 {
        return Some(NotPositiveMessage);
      }
      items := items.Put(itemId, items.Get(itemId, 0) + quantity);
      error := None;
    }

    function IsEmpty(): (r: bool)
      reads this
      requires Valid()
      ensures r <==> items.entries.Keys == {}
    {
      EmptyIffNoKeys(items);
      items.IsEmpty()
    }

    method Clear()
      modifies this
      ensures Valid() && items == NoQuantities
    {
      items := NoQuantities;
    }

    /**
     * `snapshot`: a copy of the current contents.  The result is a value, so
     * no later `Add` or `Clear` on this cart can change it.
     */
    function Snapshot(): (s: Quantities)
      reads this
      requires Valid()
      ensures s.Valid() && s.entries == items.entries && s.ids == items.ids
    {
      items
    }

    /** The lines `display` writes, from the live menu's mapping. */
    function DisplayLines(menu: map<int, MenuItem>): seq<string>
      reads this
      requires Valid()
    {
      CartView(items, menu)
    }
  }

  /** Every id the menu knows is an entry of the cart and a key of the menu. */
  lemma KnownInBoth(items: Quantities, menu: map<int, MenuItem>, known: seq<int>)
    requires items.Valid() && known == KnownIds(items.ids, menu)
    ensures forall i | 0 <= i < |known| :: known[i] in items.entries && known[i] in menu
  {
    forall i | 0 <= i < |known| ensures known[i] in items.entries && known[i] in menu {
      assert known[i] in known;
    }
  }

  /** One cart line per id of `known`, in order. */
  function CartLines(known: seq<int>, qty: map<int, int>, menu: map<int, MenuItem>): (body: seq<string>)
    requires forall i | 0 <= i < |known| :: known[i] in qty && known[i] in menu
    ensures |body| == |known|
    ensures forall i | 0 <= i < |known| :: body[i] == CartLine(menu[known[i]], qty[known[i]])
  {
    seq(|known|, i requires 0 <= i < |known| => CartLine(menu[known[i]], qty[known[i]]))
  }

  /**
   * The lines `display` writes for a cart's dict: the logo, then either the
   * empty-cart hint or a framed list with one line per entry whose id the
   * menu knows (entries the menu does not know are skipped), in the dict's
   * order.
   */
  function CartView(items: Quantities, menu: map<int, MenuItem>): (lines: seq<string>)
    requires items.Valid()
    ensures |lines| >= 2 && lines[0] == "\n" + Constants.CafeLogo
    ensures items.IsEmpty() ==> lines == ["\n" + Constants.CafeLogo, EmptyCartMessage]
    ensures !items.IsEmpty() ==>
      var known := KnownIds(items.ids, menu);
      && (forall i | 0 <= i < |known| :: known[i] in items.entries && known[i] in menu)
      && |lines| == |known| + 3
      && lines[1] == CartHeader && lines[|lines| - 1] == CartFooter
      && lines[2..|lines| - 1] == CartLines(known, items.entries, menu)
  {
    var logo := "\n" + Constants.CafeLogo;
    if items.IsEmpty() then [logo, EmptyCartMessage]
    else
      var known := KnownIds(items.ids, menu);
      KnownInBoth(items, menu, known);
      var body := CartLines(known, items.entries, menu);
      var head, tail := [logo, CartHeader], [CartFooter];
      var lines := head + body + tail;
      assert lines[2..|lines| - 1] == body;
      lines
  }
}
