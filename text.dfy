/**
 * The string operations of the Python runtime that the core relies on:
 * decimal rendering of integers (`str(n)`, f-strings), `int(s)`, the
 * whitespace-driven `str.strip()` and `str.split()`, `str.lower()` on the
 * command word and `", ".join(...)`.
 */
module Text {
  import opened Wrappers

  predicate IsDigit(c: char) {
    '0' <= c <= '9'
  }

  predicate AllDigits(s: string) {
    forall i | 0 <= i < |s| :: IsDigit(s[i])
  }

  function DigitValue(c: char): (d: nat)
    requires IsDigit(c)
    ensures d < 10
  {
    c as int - '0' as int
  }

  function DigitChar(d: nat): (c: char)
    requires d < 10
    ensures IsDigit(c) && DigitValue(c) == d
  {
    ('0' as int + d) as char
  }

  /** Decimal digits of a natural number, most significant first, no leading zeros. */
  function NatStr(n: nat): (s: string)
    ensures |s| > 0 && AllDigits(s)
    ensures n < 10 <==> |s| == 1
    decreases n
  {
    if n < 10 then [DigitChar(n)] else NatStr(n / 10) + [DigitChar(n % 10)]
  }

  /** `str(i)` for a Python int: a minus sign for negatives, then the digits. */
  function IntStr(i: int): (s: string)
    ensures |s| > 0
    ensures i >= 0 ==> AllDigits(s)
    ensures i < 0 ==> |s| > 1 && s[0] == '-' && AllDigits(s[1..])
    ensures '"' !in s && ',' !in s
  {
    if i < 0 then "-" + NatStr(-i) else NatStr(i)
  }

  /**
   * The digit part accepted by Python's `int(s)` in base 10: ASCII digits,
   * optionally separated by single underscores, with a digit at each end.
   */
  function ParseDigits(s: string): (r: Option<nat>)
    ensures r.Some? ==> |s| > 0 && IsDigit(s[0]) && IsDigit(s[|s| - 1])
    decreases |s|
  {
    if |s| == 0 || !IsDigit(s[|s| - 1]) then None
    else if |s| == 1 then Some(DigitValue(s[0]))
    else
      match ParseDigits(DigitsInit(s))
      case None => None
      case Some(n) => Some(10 * n + DigitValue(s[|s| - 1]))
  }

  /** What is left of `s` once its last character, and an underscore before it, are dropped. */
  function DigitsInit(s: string): (init: string)
    requires |s| >= 2
    ensures |s| - 2 <= |init| < |s| && init == s[..|init|]
    ensures |init| == |s| - 2 <==> s[|s| - 2] == '_'
  {
    if s[|s| - 2] == '_' then s[..|s| - 2] else s[..|s| - 1]
  }

  /**
   * Python's `int(s)` on a string without surrounding whitespace: an optional
   * `+` or `-`, then the digit part; anything else is a ValueError (None).
   */
  function ParseInt(s: string): (r: Option<int>)
    ensures r.Some? ==> |s| > 0
  {
    if |s| > 0 && (s[0] == '-' || s[0] == '+') then
      match ParseDigits(s[1..])
      case None => None
      case Some(n) => Some(if s[0] == '-' then -(n as int) else n as int)
    else
      match ParseDigits(s)
      case None => None
      case Some(n) => Some(n as int)
  }

  lemma {:induction false} ParseDigitsNatStr(n: nat)
    ensures ParseDigits(NatStr(n)) == Some(n)
    decreases n
  {
    if n >= 10 {
      var s := NatStr(n);
      ParseDigitsNatStr(n / 10);
      assert s[..|s| - 1] == NatStr(n / 10);
      assert IsDigit(s[|s| - 2]);
      assert DigitsInit(s) == NatStr(n / 10);
    }
  }

  lemma ParseSigned(digits: string, n: nat)
    requires ParseDigits(digits) == Some(n)
    ensures ParseInt("-" + digits) == Some(-(n as int))
  {
    assert ("-" + digits)[1..] == digits;
  }

  lemma ParseUnsigned(digits: string, n: nat)
    requires ParseDigits(digits) == Some(n)
    ensures ParseInt(digits) == Some(n)
  {
  }

  /** `int(str(i)) == i`: rendering an integer and parsing it back is the identity. */
  lemma ParseIntOfIntStr(i: int)
    ensures ParseInt(IntStr(i)) == Some(i)
  {
    if i < 0 {
      ParseDigitsNatStr(-i);
      ParseSigned(NatStr(-i), -i);
    } else {
      ParseDigitsNatStr(i);
      ParseUnsigned(NatStr(i), i);
    }
  }

  /**
   * The digit part of a decimal literal as Python's grammar states it:
   * one or more ASCII digits, where an underscore may stand only between
   * two digits.
   */
  predicate IntDigits(s: string) {
    && |s| > 0 && IsDigit(s[0])
    && forall i | 0 <= i < |s| :: Grouped(s, i)
  }

  /** Position `i` holds a digit, or an underscore with a digit after it. */
  predicate Grouped(s: string, i: int)
    requires 0 <= i < |s|
  {
    IsDigit(s[i]) || (s[i] == '_' && i + 1 < |s| && IsDigit(s[i + 1]))
  }

  /** An integer literal: the digit part, optionally after a `+` or `-`. */
  predicate IntLiteral(s: string) {
    || IntDigits(s)
    || (|s| > 0 && (s[0] == '+' || s[0] == '-') && IntDigits(s[1..]))
  }

  /** The digit part begins and ends with a digit. */
  lemma IntDigitsEnds(s: string)
    ensures IntDigits(s) ==> IsDigit(s[0]) && IsDigit(s[|s| - 1])
  {
    if IntDigits(s) {
      assert Grouped(s, |s| - 1);
    }
  }

  /** The digits of `s`, in order, with everything else dropped. */
  function Digits(s: string): (d: string)
    ensures AllDigits(d)
  {
    if s == [] then []
    else Digits(s[..|s| - 1]) + (if IsDigit(s[|s| - 1]) then [s[|s| - 1]] else [])
  }

  /** The number a string of decimal digits denotes (0 for no digits). */
  function Decimal(d: string): nat
    requires AllDigits(d)
  {
    if d == [] then 0 else 10 * Decimal(d[..|d| - 1]) + DigitValue(d[|d| - 1])
  }

  /** Extending a string does not change the grouping of a position followed by the same character. */
  lemma GroupedPrefix(s: string, p: string, k: int)
    requires |p| <= |s| && p == s[..|p|] && 0 <= k < |p|
    ensures k + 1 < |p| ==> (Grouped(s, k) <==> Grouped(p, k))
    ensures IsDigit(s[k]) ==> Grouped(s, k) && Grouped(p, k)
  {
    assert p[k] == s[k];
    if k + 1 < |p| { assert p[k + 1] == s[k + 1]; }
  }

  /** A string ending in a digit is in the grammar exactly when what `ParseDigits` recurses on is. */
  lemma IntDigitsInit(s: string)
    requires |s| >= 2 && IsDigit(s[|s| - 1])
    ensures IntDigits(s) <==> IntDigits(DigitsInit(s))
  {
    var init := DigitsInit(s);
    IntDigitsEnds(init);
    if IntDigits(s) {
      assert |init| > 0 by { assert IsDigit(s[0]); }
      forall k | 0 <= k < |init| ensures Grouped(init, k) {
        assert Grouped(s, k);
        GroupedPrefix(s, init, k);
        if k + 1 == |init| && s[k] == '_' {
          assert IsDigit(s[k + 1]);
        }
      }
    }
    if IntDigits(init) {
      forall k | 0 <= k < |s| ensures Grouped(s, k) {
        if k < |init| {
          assert Grouped(init, k);
          GroupedPrefix(s, init, k);
        }
      }
    }
  }

  lemma DecimalSnoc(d: string, c: char)
    requires AllDigits(d) && IsDigit(c)
    ensures Decimal(d + [c]) == 10 * Decimal(d) + DigitValue(c)
  {
    assert (d + [c])[..|d|] == d;
  }

  lemma DigitsSnoc(u: string, c: char)
    ensures Digits(u + [c]) == Digits(u) + if IsDigit(c) then [c] else []
  {
    assert (u + [c])[..|u|] == u;
  }

  /** The digits of a string ending in a digit: those of `DigitsInit`, then that digit. */
  lemma DigitsOfInit(s: string)
    requires |s| >= 2 && IsDigit(s[|s| - 1])
    ensures Digits(s) == Digits(DigitsInit(s)) + [s[|s| - 1]]
  {
    var init := DigitsInit(s);
    var c := s[|s| - 1];
    DigitsInitSplit(s);
    if s[|s| - 2] == '_' {
      DigitsSnoc(init, '_');
      DigitsSnoc(init + ['_'], c);
    } else {
      DigitsSnoc(init, c);
    }
  }

  /** `s` is `DigitsInit(s)`, then the underscore it dropped if any, then the last character. */
  lemma DigitsInitSplit(s: string)
    requires |s| >= 2
    ensures s[|s| - 2] == '_' ==> s == DigitsInit(s) + ['_'] + [s[|s| - 1]]
    ensures s[|s| - 2] != '_' ==> s == DigitsInit(s) + [s[|s| - 1]]
  {
  }

  /**
   * `ParseDigits` accepts exactly the strings of the grammar, and the
   * value it returns is that of the digits once the underscores are gone.
   */
  lemma {:induction false} ParseDigitsGrammar(s: string)
    ensures ParseDigits(s).Some? <==> IntDigits(s)
    ensures ParseDigits(s).Some? ==> ParseDigits(s).value == Decimal(Digits(s))
    decreases |s|
  {
    IntDigitsEnds(s);
    if |s| == 1 && IsDigit(s[0]) {
      assert s[..0] == [];
      assert Digits(s) == [s[0]];
      DecimalSnoc([], s[0]);
    } else if |s| >= 2 && IsDigit(s[|s| - 1]) {
      var init := DigitsInit(s);
      ParseDigitsGrammar(init);
      IntDigitsInit(s);
      if ParseDigits(init).Some? {
        DigitsOfInit(s);
        DecimalSnoc(Digits(init), s[|s| - 1]);
      }
    }
  }

  /** The number an integer literal denotes: its digits in base 10, negated after a `-`. */
  function LiteralValue(s: string): int
    requires IntLiteral(s)
  {
    if IntDigits(s) then Decimal(Digits(s))
    else if s[0] == '-' then -(Decimal(Digits(s[1..])) as int)
    else Decimal(Digits(s[1..]))
  }

  /** `int(s)` succeeds exactly on an integer literal, with the literal's value. */
  lemma ParseIntGrammar(s: string)
    ensures ParseInt(s).Some? <==> IntLiteral(s)
    ensures IntLiteral(s) ==> ParseInt(s) == Some(LiteralValue(s))
  {
    if |s| > 0 && (s[0] == '-' || s[0] == '+') {
      ParseDigitsGrammar(s[1..]);
      assert !IntDigits(s);
      if IntDigits(s[1..]) {
        var n := ParseDigits(s[1..]).value;
        assert n == Decimal(Digits(s[1..]));
        assert ParseInt(s) == Some(if s[0] == '-' then -(n as int) else n as int);
      }
    } else {
      ParseDigitsGrammar(s);
      if IntDigits(s) {
        var n := ParseDigits(s).value;
        assert ParseInt(s) == Some(n as int);
      }
    }
  }

  /** A sign, and single underscores between digits, are accepted. */
  lemma ParseIntAccepts()
    ensures ParseInt("+5") == Some(5) && ParseInt("-0_7") == Some(-7) && ParseInt("1_0") == Some(10)
  {
    ParseUnsigned("1_0", 10);
    assert "-0_7" == "-" + "0_7";
    ParseSigned("0_7", 7);
  }

  /** Doubled, leading or trailing underscores, a bare or doubled sign and a point are rejected. */
  lemma ParseIntRejects()
    ensures ParseInt("1__0").None? && ParseInt("_1").None? && ParseInt("1_").None? && ParseInt("").None?
    ensures ParseInt("-").None? && ParseInt("+-1").None? && ParseInt("1.0").None?
  {
    ParseIntGrammar("1__0");
    assert !Grouped("1__0", 1);
    ParseIntGrammar("_1");
    ParseIntGrammar("1_");
    assert !Grouped("1_", 1);
    ParseIntGrammar("+-1");
    assert "+-1"[1..][0] == '-';
    ParseIntGrammar("1.0");
    assert !Grouped("1.0", 1);
  }

  /** The characters for which Python's `str.isspace()` holds. */
  predicate IsSpace(c: char) {
    || ('\t' <= c <= '\r')
    || ('\U{1C}' <= c <= ' ')
    || c == '\U{85}' || c == '\U{A0}' || c == '\U{1680}'
    || ('\U{2000}' <= c <= '\U{200A}')
    || c == '\U{2028}' || c == '\U{2029}' || c == '\U{202F}' || c == '\U{205F}' || c == '\U{3000}'
  }

  predicate Blank(s: string) {
    forall i | 0 <= i < |s| :: IsSpace(s[i])
  }

  /** How many whitespace characters `s` starts with. */
  function LeadingSpace(s: string): (n: nat)
    ensures n <= |s| && Blank(s[..n])
    ensures n < |s| ==> !IsSpace(s[n])
    decreases |s|
  {
    if |s| > 0 && IsSpace(s[0]) then
      var n := 1 + LeadingSpace(s[1..]);
      assert Blank(s[..n]) by {
        forall k | 0 <= k < n ensures IsSpace(s[..n][k]) {
          if k > 0 { assert s[..n][k] == s[1..][..n - 1][k - 1]; }
        }
      }
      n
    else 0
  }

  /** How many whitespace characters `s` ends with. */
  function TrailingSpace(s: string): (n: nat)
    ensures n <= |s| && Blank(s[|s| - n..])
    ensures n < |s| ==> !IsSpace(s[|s| - n - 1])
    decreases |s|
  {
    if |s| > 0 && IsSpace(s[|s| - 1]) then
      var init := s[..|s| - 1];
      var n := 1 + TrailingSpace(init);
      assert Blank(s[|s| - n..]) by {
        forall k | |s| - n <= k < |s| ensures IsSpace(s[k]) {
          if k < |s| - 1 { assert s[k] == init[|init| - (n - 1)..][k - (|s| - n)]; }
        }
      }
      n
    else 0
  }

  /** `s.lstrip()`: the suffix left after dropping leading whitespace. */
  function TrimStart(s: string): (r: string)
    ensures |r| <= |s| && r == s[|s| - |r|..] && Blank(s[..|s| - |r|])
    ensures r != "" ==> !IsSpace(r[0])
  {
    s[LeadingSpace(s)..]
  }

  /** `s.rstrip()`: the prefix left after dropping trailing whitespace. */
  function TrimEnd(s: string): (r: string)
    ensures |r| <= |s| && r == s[..|r|] && Blank(s[|r|..])
    ensures r != "" ==> !IsSpace(r[|r| - 1])
  {
    s[..|s| - TrailingSpace(s)]
  }

  /** `s.strip()`. */
  function Trim(s: string): (r: string)
    ensures r == "" <==> Blank(s)
    ensures r != "" ==> !IsSpace(r[0]) && !IsSpace(r[|r| - 1])
    ensures exists i, j | 0 <= i <= j <= |s| :: r == s[i..j] && Blank(s[..i]) && Blank(s[j..])
  {
    TrimSlice(s);
    TrimEmpty(s);
    TrimEnd(TrimStart(s))
  }

  /** `strip()` keeps a slice of `s` with only whitespace cut off on either side. */
  lemma TrimSlice(s: string)
    ensures var t := TrimStart(s); var r := TrimEnd(t); var i := |s| - |t|;
      && i + |r| <= |s| && r == s[i..i + |r|] && Blank(s[..i]) && Blank(s[i + |r|..])
  {
    var t := TrimStart(s);
    SliceOfSuffix(s, |s| - |t|, t, TrimEnd(t));
  }

  lemma SliceOfSuffix(s: string, i: nat, t: string, r: string)
    requires i <= |s| && t == s[i..] && |r| <= |t| && r == t[..|r|] && Blank(t[|r|..])
    ensures i + |r| <= |s| && r == s[i..i + |r|] && Blank(s[i + |r|..])
  {
    assert t[|r|..] == s[i + |r|..];
  }

  /** A string is blank exactly when both parts of a split of it are. */
  lemma BlankSplit(s: string, i: nat)
    requires i <= |s|
    ensures Blank(s) <==> Blank(s[..i]) && Blank(s[i..])
  {
    if Blank(s[..i]) && Blank(s[i..]) {
      forall k | 0 <= k < |s| ensures IsSpace(s[k]) {
        if k < i { assert s[k] == s[..i][k]; } else { assert s[k] == s[i..][k - i]; }
      }
    }
    if Blank(s) {
      forall k | 0 <= k < i ensures IsSpace(s[..i][k]) { assert s[..i][k] == s[k]; }
      forall k | 0 <= k < |s| - i ensures IsSpace(s[i..][k]) { assert s[i..][k] == s[i + k]; }
    }
  }

  /** `lstrip()` leaves nothing exactly of a blank string. */
  lemma TrimStartEmpty(s: string)
    ensures TrimStart(s) == "" <==> Blank(s)
  {
    var t := TrimStart(s);
    BlankSplit(s, |s| - |t|);
    if t != "" {
      assert !IsSpace(t[0]);
    }
  }

  /** `rstrip()` keeps a string that starts with a non-whitespace character non-empty. */
  lemma TrimEndEmpty(t: string)
    requires t != "" ==> !IsSpace(t[0])
    ensures TrimEnd(t) == "" <==> t == ""
  {
    if t != "" {
      assert t[0..][0] == t[0];
    }
  }

  /** `strip()` leaves nothing exactly of a blank string. */
  lemma TrimEmpty(s: string)
    ensures TrimEnd(TrimStart(s)) == "" <==> Blank(s)
  {
    TrimStartEmpty(s);
    TrimEndEmpty(TrimStart(s));
  }

  /** Length of the leading run of non-whitespace characters. */
  function WordLength(s: string): (n: nat)
    ensures n <= |s|
    ensures forall i | 0 <= i < n :: !IsSpace(s[i])
    ensures n < |s| ==> IsSpace(s[n])
    decreases |s|
  {
    if |s| == 0 || IsSpace(s[0]) then 0 else 1 + WordLength(s[1..])
  }

  predicate IsWord(w: string) {
    |w| > 0 && forall i | 0 <= i < |w| :: !IsSpace(w[i])
  }

  /** `s.split()`: the maximal runs of non-whitespace characters, in order. */
  function Words(s: string): (ws: seq<string>)
    ensures forall i | 0 <= i < |ws| :: IsWord(ws[i])
    ensures ws == [] <==> Blank(s)
    decreases |s|
  {
    if |s| == 0 then []
    else if IsSpace(s[0]) then
      var rest := Words(s[1..]);
      assert Blank(s[1..]) ==> Blank(s) by {
        if Blank(s[1..]) {
          forall i | 0 <= i < |s| ensures IsSpace(s[i]) {
            if i > 0 { assert s[i] == s[1..][i - 1]; }
          }
        }
      }
      rest
    else
      var n := WordLength(s);
      [s[..n]] + Words(s[n..])
  }

  lemma {:induction false} WordLengthOfWord(w: string)
    requires forall i | 0 <= i < |w| :: !IsSpace(w[i])
    ensures WordLength(w) == |w|
    decreases |w|
  {
    if |w| > 0 {
      assert forall i | 0 <= i < |w[1..]| :: w[1..][i] == w[i + 1];
      WordLengthOfWord(w[1..]);
    }
  }

  /** `split()` of a single word gives that word alone. */
  lemma WordsOfWord(w: string)
    requires IsWord(w)
    ensures Words(w) == [w]
  {
    WordLengthOfWord(w);
    assert w[..|w|] == w;
    assert w[|w|..] == [];
  }

  lemma {:induction false} WordLengthAppend(x: string, y: string)
    requires WordLength(x) < |x| || y == [] || IsSpace(y[0])
    ensures WordLength(x + y) == WordLength(x)
    decreases |x|
  {
    if |x| > 0 && !IsSpace(x[0]) {
      assert (x + y)[1..] == x[1..] + y;
      WordLengthAppend(x[1..], y);
    }
  }

  /**
   * The first word of `split()` is the first maximal run of non-whitespace
   * characters, and the remaining words are the split of what follows it.
   */
  lemma WordsFirst(s: string)
    requires !Blank(s)
    ensures var t := TrimStart(s); var n := WordLength(t);
      && 0 < n && (n < |t| ==> IsSpace(t[n]))
      && Words(s) == [t[..n]] + Words(t[n..])
  {
    var t := TrimStart(s);
    WordsOfTrimStart(s);
    BlankSplit(s, |s| - |t|);
    assert t != [] && !IsSpace(t[0]);
  }

  /** Leading whitespace does not change the words. */
  lemma {:induction false} WordsOfTrimStart(s: string)
    ensures Words(TrimStart(s)) == Words(s)
    decreases |s|
  {
    if |s| > 0 && IsSpace(s[0]) {
      WordsOfTrimStart(s[1..]);
    }
  }

  /** Trailing whitespace does not change the words. */
  lemma {:induction false} WordsAppendBlank(x: string, b: string)
    requires Blank(b)
    ensures Words(x + b) == Words(x)
    decreases |x|
  {
    if |x| == 0 {
      assert x + b == b;
    } else if IsSpace(x[0]) {
      assert (x + b)[1..] == x[1..] + b;
      WordsAppendBlank(x[1..], b);
    } else {
      var n := WordLength(x);
      WordLengthAppend(x, b);
      assert (x + b)[..n] == x[..n];
      assert (x + b)[n..] == x[n..] + b;
      WordsAppendBlank(x[n..], b);
    }
  }

  /** `s.strip().split() == s.split()`. */
  lemma WordsOfTrim(s: string)
    ensures Words(Trim(s)) == Words(s)
  {
    var t := TrimStart(s);
    var r := TrimEnd(t);
    var b := t[|r|..];
    assert t == r + b by { assert r == t[..|r|]; }
    WordsAppendBlank(r, b);
    WordsOfTrimStart(s);
    assert Trim(s) == r;
  }

  /** A word, a space and more text split into the word and the split of the rest. */
  lemma WordsCons(w: string, rest: string)
    ensures IsWord(w) ==> Words(w + " " + rest) == [w] + Words(rest)
  {
    if IsWord(w) {
      var x := w + " " + rest;
      WordLengthOfWord(w);
      WordLengthAppend(w, " " + rest);
      assert x == w + (" " + rest);
      assert x[..|w|] == w;
      assert x[|w|..] == " " + rest;
      assert (" " + rest)[1..] == rest;
    }
  }

  /** `str.lower()` on ASCII letters; every other character is kept. */
  function LowerChar(c: char): char {
    if 'A' <= c <= 'Z' then (c as int + 32) as char else c
  }

  function Lower(s: string): (r: string)
    ensures |r| == |s|
    ensures forall i | 0 <= i < |s| :: r[i] == LowerChar(s[i])
  {
    if s == [] then [] else [LowerChar(s[0])] + Lower(s[1..])
  }

  /**
   * `sep.join(parts)`.  Joining words with single spaces is undone by
   * `split()`: the words come back unchanged.
   */
  function Join(sep: string, parts: seq<string>): (r: string)
    ensures |parts| > 0 ==> |r| >= |parts[0]| && r[..|parts[0]|] == parts[0]
    ensures sep == " " && (forall i | 0 <= i < |parts| :: IsWord(parts[i])) ==> Words(r) == parts
  {
    if |parts| == 0 then ""
    else if |parts| == 1 then
      WordsCons(parts[0], "");
      if IsWord(parts[0]) then WordsOfWord(parts[0]); parts[0] else parts[0]
    else
      var rest := Join(sep, parts[1..]);
      assert forall i | 0 <= i < |parts| - 1 :: parts[1..][i] == parts[i + 1];
      WordsCons(parts[0], rest);
      assert parts == [parts[0]] + parts[1..];
      parts[0] + sep + rest
  }

  /** Python's `f"{n:2d}"`: the decimal rendering right-aligned in two columns. */
  function PadTwo(s: string): (r: string)
    ensures |r| >= 2
    ensures |s| >= 2 ==> r == s
  {
    if |s| >= 2 then s else seq(2 - |s|, _ => ' ') + s
  }

  /** Where each part of `head + body + tail` sits. */
  lemma Framed(head: seq<string>, body: seq<string>, tail: seq<string>)
    ensures |head + body + tail| == |head| + |body| + |tail|
    ensures forall i | 0 <= i < |head| :: (head + body + tail)[i] == head[i]
    ensures forall i | 0 <= i < |body| :: (head + body + tail)[|head| + i] == body[i]
    ensures forall i | 0 <= i < |tail| :: (head + body + tail)[|head| + |body| + i] == tail[i]
  {
  }
}
