/**
 * The month and year choices of the payslip list page
 * (myapp/views.py:727-758): every stored pay period such as
 * "1-Oct-2025 to 30-Oct-2025" is read for the month and year of its start
 * date; the distinct month codes are offered in ascending order and the
 * distinct years in descending order.
 */
module PayPeriods {
  import opened Wrappers
  import opened Strings
  import opened StringOrder
  import opened Months

  datatype MonthYear = MonthYear(month: string, year: string)

  /**
   * The start date of a period, `pay_period.split(' to ')[0]`: there is one
   * exactly when the period contains " to ", and it is all the text before
   * the first " to ".
   */
  function DatePart(payPeriod: string): (d: Option<string>)
    ensures d.Some? <==> Contains(payPeriod, " to ")
    ensures d.Some? ==> d.value == payPeriod[..Find(payPeriod, " to ").value]
    ensures d.Some? ==> !Contains(d.value, " to ")
  {
    if !Contains(payPeriod, " to ") then None
    else
      SplitFirst(payPeriod, " to ");
      Some(Split(payPeriod, " to ")[0])
  }

  /**
   * The month and year of a start date: split on "-", the second field is
   * the month abbreviation and the third, when there is one, the year; only
   * a known abbreviation and a non-empty year give a result.
   */
  function MonthYearOfDate(datePart: string): (r: Option<MonthYear>)
    ensures r.Some? ==> r.value.month in MonthMap && r.value.year != ""
  {
    if !Contains(datePart, "-") then None
    else
      var parts := Split(datePart, "-");
      if |parts| >= 2 then
        var monthName := parts[1];
        var year := if |parts| > 2 then parts[2] else "";
        match MonthNumber(monthName)
        case Some(num) =>
          NameToCodeToName(monthName, num);
          if year != "" then Some(MonthYear(num, year)) else None
        case None => None
      else None
  }

  /**
   * What one pay period contributes to the choices (myapp/views.py:732-750):
   * the month and year of its start date, when it has one.
   */
  function ExtractMonthYear(payPeriod: string): (r: Option<MonthYear>)
    ensures r.Some? ==> r.value.month in MonthMap && r.value.year != ""
  {
    match DatePart(payPeriod)
    case None => None
    case Some(datePart) => MonthYearOfDate(datePart)
  }

  /** What each pay period contributes, in order. */
  function Contributions(payPeriods: seq<string>): (cs: seq<Option<MonthYear>>)
    ensures |cs| == |payPeriods|
  {
    seq(|payPeriods|, i requires 0 <= i < |payPeriods| => ExtractMonthYear(payPeriods[i]))
  }

  /** The month codes among the contributions. */
  function MonthsOf(cs: seq<Option<MonthYear>>): set<string>
  {
    if cs == [] then {}
    else
      MonthsOf(cs[..|cs| - 1]) +
        match cs[|cs| - 1]
        case Some(my) => {my.month}
        case None => {}
  }

  /** The years among the contributions. */
  function YearsOf(cs: seq<Option<MonthYear>>): set<string>
  {
    if cs == [] then {}
    else
      YearsOf(cs[..|cs| - 1]) +
        match cs[|cs| - 1]
        case Some(my) => {my.year}
        case None => {}
  }

  /** A month code is collected exactly when some contribution carries it. */
  lemma {:induction false} MonthsOfContributed(cs: seq<Option<MonthYear>>, m: string)
    ensures m in MonthsOf(cs) <==> exists i :: 0 <= i < |cs| && cs[i].Some? && cs[i].value.month == m
    decreases |cs|
  {
    if cs != [] {
      var n := |cs| - 1;
      MonthsOfContributed(cs[..n], m);
      assert forall i :: 0 <= i < n ==> cs[..n][i] == cs[i];
    }
  }

  /** A year is collected exactly when some contribution carries it. */
  lemma {:induction false} YearsOfContributed(cs: seq<Option<MonthYear>>, y: string)
    ensures y in YearsOf(cs) <==> exists i :: 0 <= i < |cs| && cs[i].Some? && cs[i].value.year == y
    decreases |cs|
  {
    if cs != [] {
      var n := |cs| - 1;
      YearsOfContributed(cs[..n], y);
      assert forall i :: 0 <= i < n ==> cs[..n][i] == cs[i];
    }
  }

  /**
   * Exactly what a start date yields: the pair (m, y) when its second
   * "-"-field is the abbreviation the search maps to m and its third field
   * is the non-empty y.
   */
  lemma MonthYearOfDateFields(datePart: string, m: string, y: string)
    ensures MonthYearOfDate(datePart) == Some(MonthYear(m, y)) <==>
      var parts := Split(datePart, "-");
      |parts| > 2 && MonthNumber(parts[1]) == Some(m) && parts[2] == y && y != ""
  {
    SplitFirst(datePart, "-");
  }

  /**
   * Exactly what a pay period contributes: the pair (m, y) when the period
   * contains " to " and the text before the first " to ", split on "-", has
   * the abbreviation of m as its second field and the non-empty y as its third.
   */
  lemma ExtractMonthYearFields(payPeriod: string, m: string, y: string)
    ensures ExtractMonthYear(payPeriod) == Some(MonthYear(m, y)) <==>
      && Contains(payPeriod, " to ")
      && var parts := Split(payPeriod[..Find(payPeriod, " to ").value], "-");
         |parts| > 2 && MonthNumber(parts[1]) == Some(m) && parts[2] == y && y != ""
  {
    if Contains(payPeriod, " to ") {
      MonthYearOfDateFields(DatePart(payPeriod).value, m, y);
    }
  }

  /** Every contribution names a month code of the filter map and a non-empty year. */
  predicate Filterable(cs: seq<Option<MonthYear>>)
  {
    forall i :: 0 <= i < |cs| && cs[i].Some? ==> cs[i].value.month in MonthMap && cs[i].value.year != ""
  }

  lemma ContributionsFilterable(payPeriods: seq<string>)
    ensures Filterable(Contributions(payPeriods))
  {
    var cs := Contributions(payPeriods);
    forall i | 0 <= i < |cs| && cs[i].Some?
      ensures cs[i].value.month in MonthMap && cs[i].value.year != ""
    {
      assert cs[i] == ExtractMonthYear(payPeriods[i]);
    }
  }

  /**
   * Every collected month is a code of the filter map and every collected
   * year is non-empty, so any month paired with any year gives a filter key.
   */
  lemma {:induction false} OfferedAreFilterable(cs: seq<Option<MonthYear>>, m: string, y: string)
    requires Filterable(cs)
    requires m in MonthsOf(cs) && y in YearsOf(cs)
    ensures FilterKey(m, y).Some?
  {
    MonthsOfContributed(cs, m);
    YearsOfContributed(cs, y);
    var i :| 0 <= i < |cs| && cs[i].Some? && cs[i].value.month == m;
    var j :| 0 <= j < |cs| && cs[j].Some? && cs[j].value.year == y;
  }

  /**
   * The body of the loop of myapp/views.py:732-750 for one period: split
   * off the start date, split it on "-", search the month table and keep
   * the result only when both the month code and the year were found.
   */
  method ReadPayPeriod(payPeriod: string) returns (contribution: Option<MonthYear>)
    ensures contribution == ExtractMonthYear(payPeriod)
  {
    contribution := None;
    if Contains(payPeriod, " to ") {
      var datePart := Split(payPeriod, " to ")[0];
      if Contains(datePart, "-") {
        var parts := Split(datePart, "-");
        if |parts| >= 2 {
          var monthName := parts[1];
          var year := if |parts| > 2 then parts[2] else "";
          var monthNum := LookupMonthNumber(monthName);
          if monthNum.Some? && year != "" {
            contribution := Some(MonthYear(monthNum.value, year));
          }
        }
      }
    }
  }

  /**
   * The loop of myapp/views.py:730-754 followed by the two sorts of
   * myapp/views.py:757-758: the month list holds each contributed code once,
   * ascending, and the year list each contributed year once, descending in
   * string order.
   */
  method FilterOptions(payPeriods: seq<string>) returns (months: seq<string>, years: seq<string>)
    ensures forall m :: m in months <==> m in MonthsOf(Contributions(payPeriods))
    ensures forall y :: y in years <==> y in YearsOf(Contributions(payPeriods))
    ensures StrictlySorted(months, false)
    ensures StrictlySorted(years, true)
    ensures forall m, y :: m in months && y in years ==> FilterKey(m, y).Some?
  {
    months, years := [], [];
    var i := 0;
    while i < |payPeriods|
      invariant 0 <= i <= |payPeriods|
      invariant forall m :: m in months <==> m in MonthsOf(Contributions(payPeriods)[..i])
      invariant forall y :: y in years <==> y in YearsOf(Contributions(payPeriods)[..i])
      invariant NoDuplicates(months) && NoDuplicates(years)
    {
      var contribution := ReadPayPeriod(payPeriods[i]);
      if contribution.Some? {
        var monthNum, year := contribution.value.month, contribution.value.year;
        if monthNum !in months {
          months := months + [monthNum];
        }
        if year !in years {
          years := years + [year];
        }
      }
      assert Contributions(payPeriods)[..i + 1][..i] == Contributions(payPeriods)[..i];
      i := i + 1;
    }
    assert Contributions(payPeriods)[..i] == Contributions(payPeriods);
    var collectedMonths, collectedYears := months, years;
    months := Sort(collectedMonths, false);
    years := Sort(collectedYears, true);
    assert forall m :: m in months <==> m in multiset(collectedMonths);
    assert forall y :: y in years <==> y in multiset(collectedYears);
    SortedDistinctIsStrict(months, false);
    SortedDistinctIsStrict(years, true);
    ContributionsFilterable(payPeriods);
    forall m, y | m in months && y in years ensures FilterKey(m, y).Some? {
      OfferedAreFilterable(Contributions(payPeriods), m, y);
    }
  }

  /** A start date with no space is the whole text before " to ". */
  lemma DatePartOfWellFormed(datePart: string, rest: string)
    requires ' ' !in datePart
    ensures DatePart(datePart + " to " + rest) == Some(datePart)
  {
    var period := datePart + " to " + rest;
    FindAfterClean(datePart, " to ", rest);
    SplitFirst(period, " to ");
    assert period[..|datePart|] == datePart;
  }

  /** A date "day-Mon-year" gives that month's code and that year. */
  lemma MonthYearOfWellFormed(day: string, name: string, year: string, code: string)
    requires MonthNumber(name) == Some(code) && '-' !in name
    requires '-' !in day && '-' !in year && year != ""
    ensures MonthYearOfDate(day + "-" + name + "-" + year) == Some(MonthYear(code, year))
  {
    var datePart := day + "-" + name + "-" + year;
    assert [day, name, year][1..] == [name, year] && [name, year][1..] == [year];
    assert Join([year], "-") == year;
    assert Join([name, year], "-") == name + "-" + year;
    assert Join([day, name, year], "-") == datePart;
    SplitJoinChar([day, name, year], '-');
    SplitFirst(datePart, "-");
  }

  /**
   * A period written in the documented form "day-Mon-year to ..." contributes
   * that month's code and that year, whatever follows " to ".
   */
  lemma ExtractWellFormed(day: string, name: string, year: string, rest: string, code: string)
    requires MonthNumber(name) == Some(code)
    requires '-' !in day && ' ' !in day && '-' !in year && ' ' !in year && year != ""
    ensures ExtractMonthYear(day + "-" + name + "-" + year + " to " + rest) == Some(MonthYear(code, year))
  {
    NameToCodeToName(name, code);
    assert '-' !in name && ' ' !in name;
    var datePart := day + "-" + name + "-" + year;
    assert ' ' !in datePart;
    DatePartOfWellFormed(datePart, rest);
    MonthYearOfWellFormed(day, name, year, code);
    assert day + "-" + name + "-" + year + " to " + rest == datePart + " to " + rest;
  }

  /** A start date that gives (m, y) contains the abbreviation of m, a hyphen and y. */
  lemma DateContainsKey(datePart: string, m: string, y: string) returns (pre: string, post: string)
    requires MonthYearOfDate(datePart) == Some(MonthYear(m, y))
    ensures m in MonthMap && datePart == pre + (MonthMap[m] + "-" + y) + post
  {
    var parts := Split(datePart, "-");
    var name := parts[1];
    assert |parts| > 2 && parts[2] == y && MonthNumber(name) == Some(m);
    NameToCodeToName(name, m);
    var tail := JoinThree(parts, "-");
    pre, post := parts[0] + "-", tail;
    var key := name + "-" + y;
    assert datePart == parts[0] + "-" + name + "-" + y + tail;
    assert datePart == pre + key + post by {
      assert parts[0] + "-" + name + "-" + y == pre + key;
    }
  }

  /**
   * Every (month, year) read from a period gives a filter key that occurs
   * verbatim in that period, so choosing it finds the payslip it came from.
   */
  lemma ExtractedPeriodMatchesFilter(payPeriod: string, m: string, y: string)
    requires ExtractMonthYear(payPeriod) == Some(MonthYear(m, y))
    ensures FilterKey(m, y).Some? && Contains(payPeriod, FilterKey(m, y).value)
  {
    var datePart := DatePart(payPeriod).value;
    var pre, post := DateContainsKey(datePart, m, y);
    var key := FilterKey(m, y).value;
    assert key == MonthMap[m] + "-" + y;
    assert payPeriod == datePart + payPeriod[|datePart|..];
    SubstringOccurs(payPeriod, pre, key, post, payPeriod[|datePart|..]);
  }

  /** The period format of the example in the payslip list page. */
  lemma ExampleOctober2025()
    ensures ExtractMonthYear("1-Oct-2025 to 30-Oct-2025") == Some(MonthYear("10", "2025"))
  {
    var period := "1-Oct-2025 to 30-Oct-2025";
    assert period == "1" + "-" + "Oct" + "-" + "2025" + " to " + "30-Oct-2025";
    CodeFromFinds("Oct", 9);
    ExtractWellFormed("1", "Oct", "2025", "30-Oct-2025", "10");
  }
}
