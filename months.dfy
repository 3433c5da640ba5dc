/**
 * The two month tables of the payslip list page: the code-to-abbreviation
 * map of the month filter (myapp/views.py:716-720) and the ordered
 * (code, abbreviation) list searched when reading pay periods
 * (myapp/views.py:743-745), with the filter key built from the first.
 */
module Months {
  import opened Wrappers

  /** `month_map`: two-digit month code to English abbreviation. */
  const MonthMap: map<string, string> := map[
    "01" := "Jan", "02" := "Feb", "03" := "Mar", "04" := "Apr",
    "05" := "May", "06" := "Jun", "07" := "Jul", "08" := "Aug",
    "09" := "Sep", "10" := "Oct", "11" := "Nov", "12" := "Dec"]

  /** The (code, abbreviation) pairs in the order the search visits them. */
  const MonthPairs: seq<(string, string)> := [
    ("01", "Jan"), ("02", "Feb"), ("03", "Mar"), ("04", "Apr"),
    ("05", "May"), ("06", "Jun"), ("07", "Jul"), ("08", "Aug"),
    ("09", "Sep"), ("10", "Oct"), ("11", "Nov"), ("12", "Dec")]

  /**
   * `month_map.get(code, '')`, with the empty default as `None`: a name
   * exactly for the twelve codes, and the search finds that code back from it.
   */
  function MonthName(code: string): (name: Option<string>)
    ensures name.Some? <==> code in MonthMap
    ensures name.Some? ==> MonthNumber(name.value) == Some(code)
  {
    if code in MonthMap then
      CodeToNameToCode(code);
      Some(MonthMap[code])
    else None
  }

  /** The code of the first pair at or after index `i` whose abbreviation is `name`. */
  function CodeFrom(name: string, i: nat): Option<string>
    requires i <= |MonthPairs|
    decreases |MonthPairs| - i
  {
    if i == |MonthPairs| then None
    else if MonthPairs[i].1 == name then Some(MonthPairs[i].0)
    else CodeFrom(name, i + 1)
  }

  /**
   * The code the pay-period search assigns to a month abbreviation: the code
   * paired with it in the list, and none when no pair has that abbreviation.
   */
  function MonthNumber(name: string): (code: Option<string>)
    ensures code.Some? ==> (code.value, name) in MonthPairs
    ensures code.None? ==> forall k :: 0 <= k < |MonthPairs| ==> MonthPairs[k].1 != name
  {
    CodeFromNone(name, 0);
    CodeFromPair(name, 0);
    CodeFrom(name, 0)
  }

  /**
   * The search loop of myapp/views.py:742-748: walk the pairs in order and
   * stop at the first whose abbreviation equals `monthName`.
   */
  method LookupMonthNumber(monthName: string) returns (monthNum: Option<string>)
    ensures monthNum == MonthNumber(monthName)
    ensures monthNum.Some? ==> (monthNum.value, monthName) in MonthPairs
    ensures monthNum.None? ==> forall k :: 0 <= k < |MonthPairs| ==> MonthPairs[k].1 != monthName
  {
    monthNum := None;
    var i := 0;
    while i < |MonthPairs|
      invariant 0 <= i <= |MonthPairs|
      invariant CodeFrom(monthName, i) == MonthNumber(monthName)
      invariant forall k :: 0 <= k < i ==> MonthPairs[k].1 != monthName
    {
      if MonthPairs[i].1 == monthName {
        monthNum := Some(MonthPairs[i].0);
        break;
      }
      i := i + 1;
    }
  }

  /** Every code of the filter map is found back from its abbreviation. */
  lemma {:induction false} CodeToNameToCode(code: string)
    requires code in MonthMap
    ensures MonthNumber(MonthMap[code]) == Some(code)
  {
    // the codes are "01" to "12", listed in that order
    var k := (code[0] as int - '0' as int) * 10 + (code[1] as int - '0' as int) - 1;
    assert MonthPairs[k] == (code, MonthMap[code]);
    CodeFromFinds(MonthMap[code], k);
  }

  /** Every abbreviation the search recognises names its code in the filter map. */
  lemma {:induction false} NameToCodeToName(name: string, code: string)
    requires MonthNumber(name) == Some(code)
    ensures MonthName(code) == Some(name)
  {
    var k := CodeFromWitness(name, 0);
    assert MonthPairs[k] in [
      ("01", "Jan"), ("02", "Feb"), ("03", "Mar"), ("04", "Apr"),
      ("05", "May"), ("06", "Jun"), ("07", "Jul"), ("08", "Aug"),
      ("09", "Sep"), ("10", "Oct"), ("11", "Nov"), ("12", "Dec")];
  }

  /**
   * Together with the two lemmas above, the tables are mutual inverses: an
   * abbreviation is recognised exactly when the filter map has it as a value.
   */
  lemma RecognisedNames(name: string)
    ensures MonthNumber(name).Some? <==> name in MonthMap.Values
  {
    if name in MonthMap.Values {
      var code :| code in MonthMap && MonthMap[code] == name;
      CodeToNameToCode(code);
    }
    if MonthNumber(name).Some? {
      NameToCodeToName(name, MonthNumber(name).value);
    }
  }

  /** The abbreviations are all different, so the search stops at the pair of its own abbreviation. */
  lemma {:induction false} CodeFromFinds(name: string, k: nat)
    requires k < |MonthPairs| && MonthPairs[k].1 == name
    ensures MonthNumber(name) == Some(MonthPairs[k].0)
  {
    var i := 0;
    while i < k
      invariant 0 <= i <= k
      invariant CodeFrom(name, i) == CodeFrom(name, 0)
    {
      assert MonthPairs[i].1 != MonthPairs[k].1;
      i := i + 1;
    }
  }

  /** A search that succeeds from index `i` yields the code of a pair with that abbreviation. */
  lemma {:induction false} CodeFromPair(name: string, i: nat)
    requires i <= |MonthPairs|
    ensures CodeFrom(name, i).Some? ==> (CodeFrom(name, i).value, name) in MonthPairs
    decreases |MonthPairs| - i
  {
    if i < |MonthPairs| && MonthPairs[i].1 != name {
      CodeFromPair(name, i + 1);
    }
  }

  /** A search that fails from index `i` has no pair with that abbreviation from `i` on. */
  lemma {:induction false} CodeFromNone(name: string, i: nat)
    requires i <= |MonthPairs|
    ensures CodeFrom(name, i).None? ==> forall k :: i <= k < |MonthPairs| ==> MonthPairs[k].1 != name
    decreases |MonthPairs| - i
  {
    if i < |MonthPairs| && MonthPairs[i].1 != name {
      CodeFromNone(name, i + 1);
    }
  }

  /** A successful search points at a pair with that abbreviation and code. */
  lemma {:induction false} CodeFromWitness(name: string, i: nat) returns (k: nat)
    requires i <= |MonthPairs| && CodeFrom(name, i).Some?
    ensures i <= k < |MonthPairs| && MonthPairs[k] == (CodeFrom(name, i).value, name)
    decreases |MonthPairs| - i
  {
    if MonthPairs[i].1 == name {
      k := i;
    } else {
      k := CodeFromWitness(name, i + 1);
    }
  }

  /**
   * The month filter key of myapp/views.py:714-723: applied only when both
   * the month and the year parameters are non-empty and the month code is
   * in the map; the key is the abbreviation, a hyphen and the year.
   */
  function FilterKey(filterMonth: string, filterYear: string): (key: Option<string>)
    ensures key.Some? <==> filterMonth in MonthMap && filterYear != ""
    ensures key.Some? ==> exists name :: MonthNumber(name) == Some(filterMonth) && key.value == name + "-" + filterYear
  {
    if filterMonth != "" && filterYear != "" then
      match MonthName(filterMonth)
      case Some(name) => Some(name + "-" + filterYear)
      case None => None
    else None
  }
}
