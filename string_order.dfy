/**
 * Python's ordering of `str` values (code point by code point, a proper
 * prefix before its extensions) and `list.sort()` with and without
 * `reverse=True`, on lists of strings.
 */
module StringOrder {

  /** Python's `a < b` on strings. */
  predicate Less(a: string, b: string)
    decreases |a|
  {
    if a == [] then b != []
    else if b == [] then false
    else if a[0] != b[0] then a[0] < b[0]
    else Less(a[1..], b[1..])
  }

  lemma {:induction false} LessIrreflexive(a: string)
    ensures !Less(a, a)
    decreases |a|
  {
    if a != [] {
      LessIrreflexive(a[1..]);
    }
  }

  lemma {:induction false} LessTransitive(a: string, b: string, c: string)
    requires Less(a, b) && Less(b, c)
    ensures Less(a, c)
    decreases |a|
  {
    if a != [] && b != [] && c != [] && a[0] == b[0] && b[0] == c[0] {
      LessTransitive(a[1..], b[1..], c[1..]);
    }
  }

  /** Any two different strings are ordered one way or the other. */
  lemma {:induction false} LessTotal(a: string, b: string)
    requires a != b
    ensures Less(a, b) || Less(b, a)
    decreases |a|
  {
    if a != [] && b != [] && a[0] == b[0] {
      assert a == [a[0]] + a[1..] && b == [b[0]] + b[1..];
      LessTotal(a[1..], b[1..]);
    }
  }

  lemma {:induction false} LessAsymmetric(a: string, b: string)
    requires Less(a, b)
    ensures !Less(b, a)
  {
    if Less(b, a) {
      LessTransitive(a, b, a);
      LessIrreflexive(a);
    }
  }

  /**
   * `a` may stand before `b` in a list sorted ascending (`descending` false)
   * or, with `reverse=True`, descending.
   */
  predicate InOrder(a: string, b: string, descending: bool)
  {
    if descending then !Less(a, b) else !Less(b, a)
  }

  lemma InOrderTransitive(a: string, b: string, c: string, descending: bool)
    requires InOrder(a, b, descending) && InOrder(b, c, descending)
    ensures InOrder(a, c, descending)
  {
    if !descending && Less(c, a) {
      if a != b { LessTotal(a, b); }
      if b != c { LessTotal(b, c); }
      if a != b && b != c { LessTransitive(a, b, c); }
      LessAsymmetric(c, a);
    } else if descending && Less(a, c) {
      if a != b { LessTotal(a, b); }
      if b != c { LessTotal(b, c); }
      if a != b && b != c { LessTransitive(c, b, a); }
      LessAsymmetric(a, c);
    }
  }

  predicate Sorted(s: seq<string>, descending: bool)
  {
    forall i, j :: 0 <= i < j < |s| ==> InOrder(s[i], s[j], descending)
  }

  /** Strictly ascending (or strictly descending) in Python's string order. */
  predicate StrictlySorted(s: seq<string>, descending: bool)
  {
    forall i, j :: 0 <= i < j < |s| ==>
      if descending then Less(s[j], s[i]) else Less(s[i], s[j])
  }

  /** No string occurs twice. */
  ghost predicate NoDuplicates(s: seq<string>)
  {
    forall x :: multiset(s)[x] <= 1
  }

  /** Putting in front of a sorted list an element that may precede all of it keeps it sorted. */
  lemma ConsSorted(h: string, t: seq<string>, descending: bool)
    requires Sorted(t, descending)
    requires forall k :: 0 <= k < |t| ==> InOrder(h, t[k], descending)
    ensures Sorted([h] + t, descending)
  {
    var r := [h] + t;
    forall i, j | 0 <= i < j < |r| ensures InOrder(r[i], r[j], descending) {
      assert r[j] == t[j - 1];
      if i > 0 { assert r[i] == t[i - 1]; }
    }
  }

  /** Inserts `x` before the first element it may precede. */
  function Insert(x: string, s: seq<string>, descending: bool): (r: seq<string>)
    requires Sorted(s, descending)
    ensures multiset(r) == multiset(s) + multiset{x}
    ensures Sorted(r, descending)
  {
    if s == [] || InOrder(x, s[0], descending) then
      forall k | 0 <= k < |s| ensures InOrder(x, s[k], descending) {
        if k > 0 { InOrderTransitive(x, s[0], s[k], descending); }
      }
      ConsSorted(x, s, descending);
      [x] + s
    else
      var tail := Insert(x, s[1..], descending);
      assert InOrder(s[0], x, descending) by {
        if s[0] != x { LessTotal(s[0], x); }
        if descending && Less(s[0], x) { LessAsymmetric(s[0], x); }
        if !descending && Less(x, s[0]) { LessAsymmetric(x, s[0]); }
      }
      assert s == [s[0]] + s[1..];
      forall k | 0 <= k < |tail| ensures InOrder(s[0], tail[k], descending) {
        var y := tail[k];
        assert y in multiset(tail);
        if y != x {
          assert y in multiset(s[1..]);
          var j :| 0 <= j < |s[1..]| && s[1..][j] == y;
          assert s[j + 1] == y;
        }
      }
      ConsSorted(s[0], tail, descending);
      [s[0]] + tail
  }

  /**
   * Python's `list.sort()` (`descending` false) and
   * `list.sort(reverse=True)` (`descending` true) on strings: the result is
   * a permutation of the input in order.
   */
  function Sort(s: seq<string>, descending: bool): (r: seq<string>)
    ensures multiset(r) == multiset(s)
    ensures Sorted(r, descending)
  {
    if s == [] then []
    else
      assert s == [s[0]] + s[1..];
      Insert(s[0], Sort(s[1..], descending), descending)
  }

  /** A sorted list without duplicates is strictly sorted. */
  lemma SortedDistinctIsStrict(s: seq<string>, descending: bool)
    requires Sorted(s, descending) && NoDuplicates(s)
    ensures StrictlySorted(s, descending)
  {
    forall i, j | 0 <= i < j < |s|
      ensures if descending then Less(s[j], s[i]) else Less(s[i], s[j])
    {
      assert s == s[..j] + [s[j]] + s[j + 1..];
      assert s[i] in s[..j];
      var m := multiset(s);
      assert m == multiset(s[..j]) + multiset{s[j]} + multiset(s[j + 1..]);
      assert m[s[i]] >= multiset(s[..j])[s[i]] + multiset{s[j]}[s[i]];
      assert s[i] != s[j];
      LessTotal(s[i], s[j]);
    }
  }
}
