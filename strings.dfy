/**
 * The Python string operations the pay-period parser relies on:
 * `sep in s`, `s.split(sep)` and, as its inverse, `sep.join(fields)`.
 * Strings are sequences of characters.
 */
module Strings {
  import opened Wrappers

  /** `sep` occurs in `s` starting at index `i`. */
  predicate OccursAt(s: string, sep: string, i: nat)
  {
    i + |sep| <= |s| && s[i..i + |sep|] == sep
  }

  /** Index of the first occurrence of `sep` in `s` at or after `from`. */
  function FindFrom(s: string, sep: string, from: nat): (r: Option<nat>)
    requires from <= |s|
    ensures r.Some? ==> from <= r.value && OccursAt(s, sep, r.value)
    ensures r.Some? ==> forall j :: from <= j < r.value ==> !OccursAt(s, sep, j)
    ensures r.None? ==> forall j :: from <= j <= |s| ==> !OccursAt(s, sep, j)
    decreases |s| - from
  {
    if OccursAt(s, sep, from) then Some(from)
    else if from == |s| then None
    else FindFrom(s, sep, from + 1)
  }

  /** Index of the first occurrence of `sep` in `s`, as `s.find(sep)` gives it. */
  function Find(s: string, sep: string): (r: Option<nat>)
    ensures r.Some? ==> OccursAt(s, sep, r.value)
    ensures r.Some? ==> forall j :: 0 <= j < r.value ==> !OccursAt(s, sep, j)
    ensures r.None? ==> forall j :: 0 <= j <= |s| ==> !OccursAt(s, sep, j)
  {
    FindFrom(s, sep, 0)
  }

  /** Python's `sep in s`. */
  predicate Contains(s: string, sep: string)
  {
    Find(s, sep).Some?
  }

  /** Python's `sep.join(fields)`. */
  function Join(fields: seq<string>, sep: string): string
  {
    if |fields| == 0 then ""
    else if |fields| == 1 then fields[0]
    else fields[0] + sep + Join(fields[1..], sep)
  }

  /**
   * Python's `s.split(sep)` for a non-empty separator: the pieces between
   * successive non-overlapping occurrences, scanning left to right.
   * Joining the pieces back with `sep` gives `s` and no piece contains `sep`.
   */
  function Split(s: string, sep: string): (fields: seq<string>)
    requires |sep| > 0
    ensures |fields| >= 1
    ensures Join(fields, sep) == s
    ensures forall k :: 0 <= k < |fields| ==> !Contains(fields[k], sep)
    decreases |s|
  {
    match Find(s, sep)
    case None =>
      assert !Contains(s, sep);
      [s]
    case Some(i) =>
      var head, tail := s[..i], s[i + |sep|..];
      var rest := Split(tail, sep);
      HeadBeforeFirstOccurrence(s, sep, i);
      var fields := [head] + rest;
      assert fields[1..] == rest && |fields| >= 2;
      assert forall k :: 1 <= k < |fields| ==> fields[k] == rest[k - 1];
      assert s == head + sep + tail;
      assert Join(fields, sep) == s;
      fields
  }

  /**
   * There is a single piece exactly when `sep` does not occur, and otherwise
   * the first piece is the text before its first occurrence.
   */
  lemma SplitFirst(s: string, sep: string)
    requires |sep| > 0
    ensures |Split(s, sep)| == 1 <==> !Contains(s, sep)
    ensures Contains(s, sep) ==> Split(s, sep)[0] == s[..Find(s, sep).value]
  {
  }

  /** The text before the first occurrence of `sep` does not contain `sep`. */
  lemma HeadBeforeFirstOccurrence(s: string, sep: string, i: nat)
    requires |sep| > 0 && Find(s, sep) == Some(i)
    ensures !Contains(s[..i], sep)
  {
    var head := s[..i];
    forall j | 0 <= j <= |head| ensures !OccursAt(head, sep, j) {
      if j + |sep| <= |head| {
        assert head[j..j + |sep|] == s[j..j + |sep|];
        assert !OccursAt(s, sep, j);
      }
    }
  }

  /** A string in which the character `c` never appears has no occurrence of `[c]`. */
  lemma {:induction false} AbsentCharNotContained(s: string, c: char)
    requires c !in s
    ensures !Contains(s, [c])
  {
    forall j | 0 <= j <= |s| ensures !OccursAt(s, [c], j) {
      if j + 1 <= |s| {
        assert s[j..j + 1] == [s[j]];
      }
    }
  }

  /**
   * If the first character of `sep` does not appear in `a`, then the first
   * occurrence of `sep` in `a + sep + b` is right after `a`.
   */
  lemma {:induction false} FindAfterClean(a: string, sep: string, b: string)
    requires |sep| > 0 && sep[0] !in a
    ensures Find(a + sep + b, sep) == Some(|a|)
  {
    var s := a + sep + b;
    assert s[|a|..|a| + |sep|] == sep;
    assert OccursAt(s, sep, |a|);
    forall j | 0 <= j < |a| ensures !OccursAt(s, sep, j) {
      if j + |sep| <= |s| {
        assert s[j..j + |sep|][0] == s[j] == a[j];
      }
    }
  }

  /**
   * Splitting on a single character undoes joining on it, provided no
   * field contains that character: `Split` and `Join` are inverses.
   */
  lemma {:induction false} SplitJoinChar(fields: seq<string>, c: char)
    requires |fields| >= 1
    requires forall k :: 0 <= k < |fields| ==> c !in fields[k]
    ensures Split(Join(fields, [c]), [c]) == fields
    decreases |fields|
  {
    if |fields| == 1 {
      AbsentCharNotContained(fields[0], c);
    } else {
      var tail := Join(fields[1..], [c]);
      var s := fields[0] + [c] + tail;
      assert Join(fields, [c]) == s;
      FindAfterClean(fields[0], [c], tail);
      assert s[..|fields[0]|] == fields[0];
      assert s[|fields[0]| + 1..] == tail;
      SplitJoinChar(fields[1..], c);
      assert fields == [fields[0]] + fields[1..];
    }
  }

  /** A joined sequence of at least three fields starts with the first three, separated. */
  lemma {:induction false} JoinThree(fields: seq<string>, sep: string) returns (tail: string)
    requires |fields| >= 3
    ensures Join(fields, sep) == fields[0] + sep + fields[1] + sep + fields[2] + tail
  {
    var rest := fields[2..];
    assert Join(fields, sep) == fields[0] + sep + Join(fields[1..], sep);
    assert fields[1..][1..] == rest;
    assert Join(fields[1..], sep) == fields[1] + sep + Join(rest, sep);
    tail := Join(rest, sep)[|fields[2]|..];
    if |rest| == 1 {
      assert Join(rest, sep) == fields[2] + tail;
    } else {
      assert Join(rest, sep) == fields[2] + sep + Join(rest[1..], sep);
      assert Join(rest, sep) == fields[2] + tail;
    }
    assert Join(fields, sep) == fields[0] + sep + fields[1] + sep + fields[2] + tail;
  }

  /** A string containing `a` as a prefix contains every substring of `a`. */
  lemma SubstringOccurs(s: string, pre: string, mid: string, post: string, rest: string)
    requires s == pre + mid + post + rest
    ensures OccursAt(s, mid, |pre|)
  {
    assert s[|pre|..|pre| + |mid|] == mid;
  }

  /** Every field of a joined sequence occurs in the joined string. */
  lemma {:induction false} JoinHasField(fields: seq<string>, sep: string, k: nat) returns (i: nat)
    requires k < |fields|
    ensures OccursAt(Join(fields, sep), fields[k], i)
    decreases |fields|
  {
    var joined := Join(fields, sep);
    if |fields| == 1 {
      i := 0;
      assert joined[..|fields[0]|] == fields[0];
    } else {
      var rest := Join(fields[1..], sep);
      assert joined == fields[0] + sep + rest;
      if k == 0 {
        i := 0;
        assert joined[..|fields[0]|] == fields[0];
      } else {
        var j := JoinHasField(fields[1..], sep, k - 1);
        i := |fields[0]| + |sep| + j;
        assert joined[i..i + |fields[k]|] == rest[j..j + |fields[k]|];
      }
    }
  }

  /** An occurrence in `s` is still one, shifted, once text is put around `s`. */
  lemma OccursShift(a: string, s: string, c: string, t: string, i: nat)
    requires OccursAt(s, t, i)
    ensures OccursAt(a + s + c, t, |a| + i)
  {
    assert (a + s + c)[|a| + i..|a| + i + |t|] == s[i..i + |t|];
  }

  /** Six joined fields, written out after a leading text. */
  lemma JoinSix(lead: string, fields: seq<string>, sep: string)
    requires |fields| == 6
    ensures lead + Join(fields, sep) ==
      lead + fields[0] + sep + fields[1] + sep + fields[2] + sep + fields[3] + sep + fields[4] + sep + fields[5]
  {
    assert fields[1..][1..] == fields[2..] && fields[2..][1..] == fields[3..];
    assert fields[3..][1..] == fields[4..] && fields[4..][1..] == fields[5..];
    var j4 := fields[4] + sep + fields[5];
    assert Join(fields[4..], sep) == j4;
    var j3 := fields[3] + sep + j4;
    assert Join(fields[3..], sep) == j3;
    var j2 := fields[2] + sep + j3;
    assert Join(fields[2..], sep) == j2;
    var j1 := fields[1] + sep + j2;
    assert Join(fields[1..], sep) == j1;
    assert Join(fields, sep) == fields[0] + sep + j1;
    var l0 := lead + fields[0];
    var l1 := l0 + sep + fields[1];
    var l2 := l1 + sep + fields[2];
    var l3 := l2 + sep + fields[3];
    var l4 := l3 + sep + fields[4];
    assert lead + (fields[0] + sep + j1) == l0 + sep + j1;
    assert l0 + sep + j1 == l1 + sep + j2;
    assert l1 + sep + j2 == l2 + sep + j3;
    assert l2 + sep + j3 == l3 + sep + j4;
    assert l3 + sep + j4 == l4 + sep + fields[5];
  }
}
