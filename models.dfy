/**
 * The records of the ordering core: a menu entry, the item -> quantity
 * mapping carried by carts and orders, an order, and the time-derived
 * order status.
 */
module Models {
  import opened Wrappers

  /** A menu entry; a datatype value, so its fields cannot be reassigned. */
  datatype MenuItem = MenuItem(identifier: int, name: string)

  /**
   * A Python dict keyed by int.  `entries` is the mapping itself (Python `==`
   * on dicts compares only this); `ids` is the dict's insertion order, which
   * is the order its iteration visits the keys.
   */
  datatype Dict<V> = Dict(ids: seq<int>, entries: map<int, V>) {

    ghost predicate Valid() {
      && (forall i, j | 0 <= i < j < |ids| :: ids[i] != ids[j])
      && (forall i | 0 <= i < |ids| :: ids[i] in entries)
      && (forall k | k in entries :: k in ids)
    }

    /** `not d`: the dict has no keys. */
    predicate IsEmpty() {
      |ids| == 0
    }

    /** `d.get(id, absent)`. */
    function Get(id: int, absent: V): V {
      if id in entries then entries[id] else absent
    }

    /** `d[id] = v`: an existing key keeps its place, a new key goes last. */
    function Put(id: int, v: V): (r: Dict<V>)
      requires Valid()
      ensures r.Valid()
      ensures r.entries == entries[id := v]
      ensures r.ids == if id in entries then ids else ids + [id]
    {
      if id in entries then Dict(ids, entries[id := v]) else Dict(ids + [id], entries[id := v])
    }

    /** `del d[id]` where present: the key leaves both the mapping and the order. */
    function Remove(id: int): (r: Dict<V>)
      requires Valid()
      ensures r.Valid()
      ensures r.entries == entries - {id}
      ensures forall x :: x in r.ids <==> x in ids && x != id
    {
      var r := Dict(Without(ids, id), entries - {id});
      assert forall i | 0 <= i < |r.ids| :: r.ids[i] in r.ids;
      r
    }
  }

  /** Writing a key twice leaves only the second value, in the place the first write gave it. */
  lemma PutTwice<V>(d: Dict<V>, id: int, first: V, second: V)
    requires d.Valid()
    ensures d.Put(id, first).Put(id, second) == d.Put(id, second)
  {
    assert d.entries[id := first][id := second] == d.entries[id := second];
  }

  /** `s` with every occurrence of `x` dropped, the rest in order. */
  function Without(s: seq<int>, x: int): (r: seq<int>)
    ensures forall y :: y in r <==> y in s && y != x
    ensures (forall i, j | 0 <= i < j < |s| :: s[i] != s[j]) ==> forall i, j | 0 <= i < j < |r| :: r[i] != r[j]
    decreases |s|
  {
    if s == [] then []
    else
      var rest := Without(s[1..], x);
      assert forall y | y in s[1..] :: y in s;
      if s[0] == x then rest
      else
        var r := [s[0]] + rest;
        assert forall j | 0 < j < |r| :: r[j] == rest[j - 1];
        assert (forall i, j | 0 <= i < j < |s| :: s[i] != s[j]) ==> s[0] !in s[1..];
        r
  }

  /** `[m[k] for k in keys]`. */
  function ValuesAt<V>(keys: seq<int>, m: map<int, V>): (r: seq<V>)
    requires forall i | 0 <= i < |keys| :: keys[i] in m
    ensures |r| == |keys|
    ensures forall i | 0 <= i < |r| :: r[i] == m[keys[i]]
  {
    seq(|keys|, i requires 0 <= i < |keys| => m[keys[i]])
  }

  /** Listing the values at every key of `m` lists every value of `m`. */
  lemma ValuesAtCover<V>(keys: seq<int>, m: map<int, V>)
    requires forall i | 0 <= i < |keys| :: keys[i] in m
    requires forall k | k in m :: k in keys
    ensures forall k | k in m :: m[k] in ValuesAt(keys, m)
  {
    var r := ValuesAt(keys, m);
    forall k | k in m ensures m[k] in r {
      var i :| 0 <= i < |keys| && keys[i] == k;
      assert r[i] == m[k];
    }
  }

  /** A `Dict[int, int]` of item id -> quantity, as carts and orders hold. */
  type Quantities = Dict<int>

  /** The empty dict `{}`. */
  const NoQuantities: Quantities := Dict([], map[])

  lemma EmptyIffNoKeys<V>(d: Dict<V>)
    requires d.Valid()
    ensures d.IsEmpty() <==> d.entries.Keys == {}
  {
    if d.IsEmpty() {
      assert forall k :: k !in d.entries;
    } else {
      assert d.ids[0] in d.ids;
    }
  }

  /** A placed order; `readyAt` is None until staff mark it ready. */
  datatype Order = Order(orderId: int, items: Quantities, placedAt: int, readyAt: Option<int>)

  /** `Order(order_id=..., items=..., placed_at=...)`: `ready_at` defaults to None. */
  function NewOrder(orderId: int, items: Quantities, placedAt: int): (o: Order)
    ensures o.readyAt == None
    ensures o.orderId == orderId && o.items == items && o.placedAt == placedAt
  {
    Order(orderId, items, placedAt, None)
  }

  const ReadyMessage := "Ready for pickup!"
  const ReceivedMessage := "Barista received your order."
  const PreparingMessage := "Drinks are being prepared."
  const AlmostReadyMessage := "Almost ready..."

  /** The two thresholds of the status rule, in seconds. */
  const PreparingAfter := 2 * 60
  const AlmostReadyAfter := 5 * 60

  /**
   * `Order.status()` evaluated at clock reading `now` (seconds): a ready
   * order is ready whatever the time; otherwise the elapsed time since
   * `placedAt` picks one of three progress messages.
   */
  function Status(o: Order, now: int): (r: string)
    ensures r in {ReadyMessage, ReceivedMessage, PreparingMessage, AlmostReadyMessage}
    ensures o.readyAt.Some? ==> r == ReadyMessage
    ensures o.readyAt.None? && now - o.placedAt < PreparingAfter ==> r == ReceivedMessage
    ensures o.readyAt.None? && PreparingAfter <= now - o.placedAt < AlmostReadyAfter ==> r == PreparingMessage
    ensures o.readyAt.None? && now - o.placedAt >= AlmostReadyAfter ==> r == AlmostReadyMessage
  {
    if o.readyAt.Some? then ReadyMessage
    else
      var elapsed := now - o.placedAt;
      if elapsed < PreparingAfter then ReceivedMessage
      else if elapsed < AlmostReadyAfter then PreparingMessage
      else AlmostReadyMessage
  }

  /** Position of a status message in the order's progression. */
  function Stage(message: string): nat {
    if message == ReceivedMessage then 0
    else if message == PreparingMessage then 1
    else if message == AlmostReadyMessage then 2
    else 3
  }

  /** For a fixed order, the status never moves backwards as the clock advances. */
  lemma StatusNeverMovesBack(o: Order, earlier: int, later: int)
    requires earlier <= later
    ensures Stage(Status(o, earlier)) <= Stage(Status(o, later))
  {
  }

  /** The scenarios the source's tests pin down: orders placed 1, 3 and 6 minutes ago, and a ready order. */
  lemma StatusExamples(items: Quantities, now: int)
    ensures Status(NewOrder(1, items, now - 60), now) == ReceivedMessage
    ensures Status(NewOrder(1, items, now - 3 * 60), now) == PreparingMessage
    ensures Status(NewOrder(1, items, now - 6 * 60), now) == AlmostReadyMessage
    ensures Status(Order(1, items, now - 10 * 60, Some(now - 5 * 60)), now) == ReadyMessage
  {
  }
}
