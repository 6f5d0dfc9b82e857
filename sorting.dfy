/**
 * Python's `sorted` on the keys of a dict: the keys are distinct ints, so
 * the result is strictly increasing and holds each key exactly once.
 */
module Sorting {

  predicate Distinct(s: seq<int>) {
    forall i, j | 0 <= i < j < |s| :: s[i] != s[j]
  }

  predicate StrictlyIncreasing(s: seq<int>) {
    forall i, j | 0 <= i < j < |s| :: s[i] < s[j]
  }

  /** Insert a new key into an increasing sequence at its place. */
  function Insert(x: int, s: seq<int>): (r: seq<int>)
    requires StrictlyIncreasing(s) && x !in s
    ensures StrictlyIncreasing(r)
    ensures forall y :: y in r <==> y == x || y in s
    ensures |r| == |s| + 1
    decreases |s|
  {
    if s == [] || x < s[0] then
      ConsIncreasing(x, s);
      [x] + s
    else
      var tail := Insert(x, s[1..]);
      assert forall y | y in tail :: s[0] < y by {
        assert forall y | y in s[1..] :: s[0] < y;
      }
      assert s == [s[0]] + s[1..];
      ConsIncreasing(s[0], tail);
      [s[0]] + tail
  }

  /** A key below every key of an increasing sequence may go in front of it. */
  lemma ConsIncreasing(x: int, s: seq<int>)
    requires StrictlyIncreasing(s) && forall y | y in s :: x < y
    ensures StrictlyIncreasing([x] + s)
  {
    var r := [x] + s;
    forall i, j | 0 <= i < j < |r| ensures r[i] < r[j] {
      assert r[j] == s[j - 1] && s[j - 1] in s;
      if i > 0 {
        assert r[i] == s[i - 1];
      }
    }
  }

  /** `sorted(keys)` by insertion. */
  function Sort(s: seq<int>): (r: seq<int>)
    requires Distinct(s)
    ensures StrictlyIncreasing(r)
    ensures forall y :: y in r <==> y in s
    ensures |r| == |s|
    decreases |s|
  {
    if s == [] then []
    else
      assert s == [s[0]] + s[1..];
      assert s[0] !in s[1..];
      Insert(s[0], Sort(s[1..]))
  }

  /** Two increasing sequences of one length holding the same values are the same sequence. */
  lemma {:induction false} IncreasingUnique(a: seq<int>, b: seq<int>)
    requires StrictlyIncreasing(a) && StrictlyIncreasing(b)
    requires |a| == |b| && forall y :: y in a <==> y in b
    ensures a == b
    decreases |a|
  {
    if a != [] {
      assert a[0] == b[0] by {
        assert a[0] in a && b[0] in b;
        var i :| 0 <= i < |a| && a[i] == b[0];
        var j :| 0 <= j < |b| && b[j] == a[0];
        assert a[0] <= a[i] && b[0] <= b[j];
      }
      forall y ensures y in a[1..] <==> y in b[1..] {
        if y in a[1..] {
          var i :| 1 <= i < |a| && a[i] == y;
          assert y in b && y != b[0];
        }
        if y in b[1..] {
          var j :| 1 <= j < |b| && b[j] == y;
          assert y in a && y != a[0];
        }
      }
      IncreasingUnique(a[1..], b[1..]);
      assert a == [a[0]] + a[1..] && b == [b[0]] + b[1..];
    }
  }

  /** Sorting keys that are already in increasing order changes nothing. */
  lemma SortIncreasing(s: seq<int>)
    requires StrictlyIncreasing(s)
    ensures Sort(s) == s
  {
    IncreasingUnique(Sort(s), s);
  }
}
