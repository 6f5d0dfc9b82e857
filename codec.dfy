/**
 * The `items` column of the orders table: `json.dumps` of the item dict on
 * insert, `json.loads` followed by `{int(k): int(v)}` when a row is read
 * back.  Only the JSON shape this column holds is modelled: an object whose
 * keys are decimal strings and whose values are integers.
 */
module ItemsCodec {
  import opened Wrappers
  import opened Text
  import opened Models

  /** `"<id>": <qty>`, one member of the JSON object. */
  function EntryText(id: int, quantity: int): string {
    "\"" + IntStr(id) + "\": " + IntStr(quantity)
  }

  /** The members for `ids`, separated by `", "` as `json.dumps` does. */
  function BodyText(ids: seq<int>, qty: map<int, int>): string
    requires forall i | 0 <= i < |ids| :: ids[i] in qty
    decreases |ids|
  {
    if |ids| == 0 then ""
    else if |ids| == 1 then EntryText(ids[0], qty[ids[0]])
    else EntryText(ids[0], qty[ids[0]]) + ", " + BodyText(ids[1..], qty)
  }

  /** `json.dumps(items)`: members in the dict's iteration order. */
  function EncodeItems(items: Quantities): (blob: string)
    requires items.Valid()
    ensures |blob| >= 2 && blob[0] == '{' && blob[|blob| - 1] == '}'
  {
    "{" + BodyText(items.ids, items.entries) + "}"
  }

  /** Position of the first `"` in `s`, or `|s|` when there is none. */
  function QuoteIndex(s: string): (n: nat)
    ensures n <= |s|
    ensures n < |s| ==> s[n] == '"'
    ensures forall i | 0 <= i < n :: s[i] != '"'
    decreases |s|
  {
    if |s| == 0 || s[0] == '"' then 0 else 1 + QuoteIndex(s[1..])
  }

  /** Length of the leading run of ASCII digits. */
  function DigitRun(s: string): (n: nat)
    ensures n <= |s| && AllDigits(s[..n])
    ensures n < |s| ==> !IsDigit(s[n])
    decreases |s|
  {
    if |s| == 0 || !IsDigit(s[0]) then 0
    else
      var n := 1 + DigitRun(s[1..]);
      assert s[..n] == [s[0]] + s[1..][..n - 1];
      n
  }

  /** Digits at the front of `s`, their value, and what follows them. */
  function TakeUnsigned(s: string): (r: Option<(nat, string)>)
    ensures r.Some? ==> |r.value.1| < |s|
  {
    var n := DigitRun(s);
    if n == 0 then None
    else
      match ParseDigits(s[..n])
      case None => None
      case Some(v) => Some((v, s[n..]))
  }

  /** A JSON integer at the front of `s` (optional `-`, then digits), and what follows it. */
  function TakeNumber(s: string): (r: Option<(int, string)>)
    ensures r.Some? ==> |r.value.1| < |s|
  {
    if |s| > 0 && s[0] == '-' then
      match TakeUnsigned(s[1..])
      case None => None
      case Some((v, rest)) => Some((-(v as int), rest))
    else
      match TakeUnsigned(s)
      case None => None
      case Some((v, rest)) => Some((v as int, rest))
  }

  /** One member `"<key>": <number>` at the front of `s`, and what follows it. */
  function TakeEntry(s: string): (r: Option<(int, int, string)>)
    ensures r.Some? ==> |r.value.2| < |s|
  {
    if |s| == 0 || s[0] != '"' then None
    else
      var q := QuoteIndex(s[1..]);
      if q == |s| - 1 then None
      else
        var key := s[1..1 + q];
        var rest := s[2 + q..];
        if |rest| < 2 || rest[..2] != ": " then None
        else
          match (ParseInt(key), TakeNumber(rest[2..]))
          case (Some(id), Some((quantity, tail))) => Some((id, quantity, tail))
          case _ => None
  }

  /**
   * Decode the members of a non-empty JSON object body into `acc`.  A later
   * member with an already seen key overwrites the value and keeps the
   * key's first position, as `json.loads` and the dict comprehension do.
   */
  function DecodeEntries(s: string, acc: Quantities): (r: Option<Quantities>)
    requires acc.Valid()
    ensures r.Some? ==> r.value.Valid()
    decreases |s|
  {
    match TakeEntry(s)
    case None => None
    case Some((id, quantity, tail)) =>
      var next := acc.Put(id, quantity);
      if tail == "" then Some(next)
      else if |tail| >= 2 && tail[..2] == ", " then DecodeEntries(tail[2..], next)
      else None
  }

  /** The dict comprehension over `json.loads(blob)`; None where Python would raise. */
  function DecodeItems(blob: string): (r: Option<Quantities>)
    ensures r.Some? ==> r.value.Valid()
  {
    if |blob| < 2 || blob[0] != '{' || blob[|blob| - 1] != '}' then None
    else
      var body := blob[1..|blob| - 1];
      if body == "" then Some(NoQuantities) else DecodeEntries(body, NoQuantities)
  }

  lemma DigitRunOfDigits(a: string, b: string)
    requires AllDigits(a)
    requires b == "" || !IsDigit(b[0])
    ensures DigitRun(a + b) == |a|
    decreases |a|
  {
    if |a| > 0 {
      assert (a + b)[1..] == a[1..] + b;
      DigitRunOfDigits(a[1..], b);
    } else {
      assert a + b == b;
    }
  }

  lemma TakeUnsignedOfDigits(digits: string, tail: string, n: nat)
    requires |digits| > 0 && AllDigits(digits) && ParseDigits(digits) == Some(n)
    requires tail == "" || !IsDigit(tail[0])
    ensures TakeUnsigned(digits + tail) == Some((n, tail))
  {
    var t := digits + tail;
    DigitRunOfDigits(digits, tail);
    assert t[..|digits|] == digits;
    assert t[|digits|..] == tail;
  }

  lemma TakeNumberOfIntStr(v: int, tail: string)
    requires tail == "" || !IsDigit(tail[0])
    ensures TakeNumber(IntStr(v) + tail) == Some((v, tail))
  {
    if v < 0 {
      TakeNegative(-v, tail);
    } else {
      TakeNonNegative(v, tail);
    }
  }

  lemma TakeNegative(n: nat, tail: string)
    requires n > 0
    requires tail == "" || !IsDigit(tail[0])
    ensures TakeNumber(IntStr(-(n as int)) + tail) == Some((-(n as int), tail))
  {
    var digits := NatStr(n);
    NegativeStr(n, tail);
    ParseDigitsNatStr(n);
    TakeUnsignedOfDigits(digits, tail, n);
    TakeNumberMinus(digits + tail, n, tail);
  }

  lemma NegativeStr(n: nat, tail: string)
    requires n > 0
    ensures IntStr(-(n as int)) + tail == "-" + (NatStr(n) + tail)
  {
    assert IntStr(-(n as int)) == "-" + NatStr(n);
  }

  lemma TakeNumberMinus(t: string, n: nat, tail: string)
    requires TakeUnsigned(t) == Some((n, tail))
    ensures TakeNumber("-" + t) == Some((-(n as int), tail))
  {
    assert ("-" + t)[1..] == t;
  }

  lemma TakeNonNegative(n: nat, tail: string)
    requires tail == "" || !IsDigit(tail[0])
    ensures TakeNumber(IntStr(n) + tail) == Some((n as int, tail))
  {
    var digits := NatStr(n);
    ParseDigitsNatStr(n);
    TakeUnsignedOfDigits(digits, tail, n);
    var s := IntStr(n) + tail;
    assert s == digits + tail;
    assert IsDigit(s[0]);
  }

  lemma QuoteIndexOf(a: string, b: string)
    requires '"' !in a
    ensures QuoteIndex(a + "\"" + b) == |a|
    decreases |a|
  {
    if |a| > 0 {
      assert (a + "\"" + b)[1..] == a[1..] + "\"" + b;
      QuoteIndexOf(a[1..], b);
    }
  }

  /** Where the parts of a quoted key followed by more text sit. */
  lemma QuotedKeyParts(key: string, after: string)
    requires '"' !in key
    ensures var s := "\"" + (key + ("\"" + after));
      && s[0] == '"' && QuoteIndex(s[1..]) == |key| < |s| - 1
      && s[1..1 + |key|] == key && s[2 + |key|..] == after
  {
    var s := "\"" + (key + ("\"" + after));
    assert s[1..] == key + "\"" + after;
    QuoteIndexOf(key, after);
  }

  /** A quoted key without quotes inside, `": "`, then a number: the member is read back. */
  lemma TakeEntryParts(key: string, after: string, id: int, quantity: int, tail: string)
    requires '"' !in key && ParseInt(key) == Some(id)
    requires |after| >= 2 && after[..2] == ": " && TakeNumber(after[2..]) == Some((quantity, tail))
    ensures TakeEntry("\"" + (key + ("\"" + after))) == Some((id, quantity, tail))
  {
    QuotedKeyParts(key, after);
  }

  /** Reading a member `EntryText(id, quantity)` gives back that pair and what follows. */
  lemma TakeEntryOf(id: int, quantity: int, tail: string)
    requires tail == "" || !IsDigit(tail[0])
    ensures TakeEntry(EntryText(id, quantity) + tail) == Some((id, quantity, tail))
  {
    var k, v := IntStr(id), IntStr(quantity);
    var after := ": " + (v + tail);
    ParseIntOfIntStr(id);
    TakeNumberOfIntStr(quantity, tail);
    assert after[..2] == ": " && after[2..] == v + tail;
    TakeEntryParts(k, after, id, quantity, tail);
    EntrySplit(k, v, tail);
  }

  lemma EntrySplit(k: string, v: string, tail: string)
    ensures "\"" + k + "\": " + v + tail == "\"" + (k + ("\"" + (": " + (v + tail))))
  {
    assert "\": " == "\"" + ": ";
  }

  /** The first `n` entries of a dict, in order. */
  function Prefix(d: Quantities, n: nat): (p: Quantities)
    requires d.Valid() && n <= |d.ids|
    ensures p.Valid()
  {
    Dict(d.ids[..n], map k | k in d.ids[..n] :: d.entries[k])
  }

  lemma PrefixStep(d: Quantities, n: nat)
    requires d.Valid() && n < |d.ids|
    ensures Prefix(d, n).Put(d.ids[n], d.entries[d.ids[n]]) == Prefix(d, n + 1)
  {
    var k := d.ids[n];
    assert k !in d.ids[..n];
    assert d.ids[..n + 1] == d.ids[..n] + [k];
  }

  lemma PrefixWhole(d: Quantities)
    requires d.Valid()
    ensures Prefix(d, |d.ids|) == d
  {
    assert d.ids[..|d.ids|] == d.ids;
    var p := Prefix(d, |d.ids|);
    assert forall k :: k in p.entries <==> k in d.entries;
  }

  /** The last member of a body ends the decoding. */
  lemma DecodeLast(s: string, acc: Quantities, id: int, quantity: int)
    requires acc.Valid() && TakeEntry(s) == Some((id, quantity, ""))
    ensures DecodeEntries(s, acc) == Some(acc.Put(id, quantity))
  {
  }

  /** A member followed by `", "` is stored and decoding goes on after the separator. */
  lemma DecodeMore(s: string, acc: Quantities, id: int, quantity: int, more: string)
    requires acc.Valid() && TakeEntry(s) == Some((id, quantity, ", " + more))
    ensures DecodeEntries(s, acc) == DecodeEntries(more, acc.Put(id, quantity))
  {
    assert (", " + more)[..2] == ", " && (", " + more)[2..] == more;
  }

  /** A body of one member is that member. */
  lemma BodyTextOne(ids: seq<int>, qty: map<int, int>)
    requires |ids| == 1 && ids[0] in qty
    ensures BodyText(ids, qty) == EntryText(ids[0], qty[ids[0]]) + ""
  {
    assert EntryText(ids[0], qty[ids[0]]) + "" == EntryText(ids[0], qty[ids[0]]);
  }

  /** A body of several members is the first one, `", "`, and the body of the rest. */
  lemma BodyTextCons(ids: seq<int>, qty: map<int, int>)
    requires |ids| > 1 && forall i | 0 <= i < |ids| :: ids[i] in qty
    ensures BodyText(ids, qty) == EntryText(ids[0], qty[ids[0]]) + (", " + BodyText(ids[1..], qty))
  {
  }

  /** Decoding the last member completes the dict. */
  lemma DecodeSuffixLast(d: Quantities)
    requires d.Valid() && |d.ids| > 0
    ensures DecodeEntries(BodyText(d.ids[|d.ids| - 1..], d.entries), Prefix(d, |d.ids| - 1)) == Some(d)
  {
    var n := |d.ids| - 1;
    var ids := d.ids[n..];
    var k := d.ids[n];
    var q := d.entries[k];
    var s := BodyText(ids, d.entries);
    var p := Prefix(d, n);
    assert TakeEntry(s) == Some((k, q, "")) by {
      assert ids[0] == k && |ids| == 1;
      BodyTextOne(ids, d.entries);
      TakeEntryOf(k, q, "");
    }
    assert p.Put(k, q) == d by {
      PrefixStep(d, n);
      PrefixWhole(d);
    }
    DecodeLast(s, p, k, q);
  }

  /** Decoding a member that is not the last one extends the prefix by that member. */
  lemma DecodeSuffixStep(d: Quantities, n: nat)
    requires d.Valid() && n + 1 < |d.ids|
    ensures DecodeEntries(BodyText(d.ids[n..], d.entries), Prefix(d, n))
         == DecodeEntries(BodyText(d.ids[n + 1..], d.entries), Prefix(d, n + 1))
  {
    var ids := d.ids[n..];
    var k := d.ids[n];
    var q := d.entries[k];
    var more := BodyText(d.ids[n + 1..], d.entries);
    assert ids[0] == k && ids[1..] == d.ids[n + 1..];
    BodyTextCons(ids, d.entries);
    TakeEntryOf(k, q, ", " + more);
    DecodeMore(BodyText(ids, d.entries), Prefix(d, n), k, q, more);
    PrefixStep(d, n);
  }

  lemma {:induction false} DecodeSuffix(d: Quantities, n: nat)
    requires d.Valid() && n < |d.ids|
    ensures DecodeEntries(BodyText(d.ids[n..], d.entries), Prefix(d, n)) == Some(d)
    decreases |d.ids| - n
  {
    if n + 1 == |d.ids| {
      DecodeSuffixLast(d);
    } else {
      DecodeSuffixStep(d, n);
      DecodeSuffix(d, n + 1);
    }
  }

  /**
   * The items round trip: what `create_order` writes into the `items` column
   * is read back by `_row_to_order` as the same dict, in the same order.
   */
  lemma DecodeEncode(items: Quantities)
    requires items.Valid()
    ensures DecodeItems(EncodeItems(items)) == Some(items)
  {
    var blob := EncodeItems(items);
    var body := BodyText(items.ids, items.entries);
    assert blob[1..|blob| - 1] == body;
    if |items.ids| == 0 {
      assert forall k :: k !in items.entries;
    } else {
      DecodeSuffix(items, 0);
      assert items.ids[0..] == items.ids;
      assert Prefix(items, 0) == NoQuantities;
      assert body != "" by {
        assert |items.ids| == 1 || |items.ids| > 1;
      }
    }
  }
}
