/** The next-due-date calculator: a pure function of the current due date and
    the template's recurrence rule. */
module Recurrence {
  import opened Wrappers
  import opened Calendar
  import opened Models

  /** The exceptions the calculator can raise: `First()` on an empty day list,
      and `int.Parse` of a number beyond the 32-bit range. */
  datatype Error = InvalidOperation | Overflow

  // ---------------------------------------------------------------------
  // DaysOfWeek text: Split(',', RemoveEmptyEntries), int.Parse, OrderBy

  /** `s.Split(',', StringSplitOptions.RemoveEmptyEntries)`. */
  function Split(s: string): (tokens: seq<string>)
    ensures forall k :: 0 <= k < |tokens| ==> tokens[k] != [] && ',' !in tokens[k]
    ensures DayListText(s) ==> forall k :: 0 <= k < |tokens| ==> AllDigits(tokens[k])
  {
    SplitFrom(s, [])
  }

  /** Splitting the rest `s` of a text whose current, unfinished piece is `piece`. */
  function SplitFrom(s: string, piece: string): (tokens: seq<string>)
    requires ',' !in piece
    ensures forall k :: 0 <= k < |tokens| ==> tokens[k] != [] && ',' !in tokens[k]
    ensures DayListText(s) && AllDigits(piece) ==> forall k :: 0 <= k < |tokens| ==> AllDigits(tokens[k])
    decreases |s|
  {
    assert s != [] ==> DayListText(s) ==> DayListText(s[1..]);
    if s == [] then (if piece == [] then [] else [piece])
    else if s[0] == ',' then (if piece == [] then [] else [piece]) + SplitFrom(s[1..], [])
    else SplitFrom(s[1..], piece + [s[0]])
  }

  /** `string.Join(",", tokens)`. */
  function Join(tokens: seq<string>): string {
    if tokens == [] then []
    else if |tokens| == 1 then tokens[0]
    else tokens[0] + [','] + Join(tokens[1..])
  }

  /** Characters without a comma only extend the current piece. */
  lemma {:induction false} SplitFromAppend(w: string, rest: string, piece: string)
    requires ',' !in piece && ',' !in w
    ensures SplitFrom(w + rest, piece) == SplitFrom(rest, piece + w)
    decreases |w|
  {
    if w == [] {
      assert w + rest == rest && piece + w == piece;
    } else {
      assert (w + rest)[0] == w[0];
      assert (w + rest)[1..] == w[1..] + rest;
      assert piece + [w[0]] + w[1..] == piece + w;
      SplitFromAppend(w[1..], rest, piece + [w[0]]);
    }
  }

  /** Splitting undoes joining: the comma-free, non-empty tokens come back. */
  lemma {:induction false} SplitJoin(tokens: seq<string>)
    requires forall k :: 0 <= k < |tokens| ==> tokens[k] != [] && ',' !in tokens[k]
    ensures Split(Join(tokens)) == tokens
    decreases |tokens|
  {
    if tokens == [] {
    } else if |tokens| == 1 {
      SplitFromAppend(tokens[0], [], []);
      assert tokens[0] + [] == tokens[0];
      assert [] + tokens[0] == tokens[0];
    } else {
      var rest := Join(tokens[1..]);
      SplitFromAppend(tokens[0], [','] + rest, []);
      assert tokens[0] + [','] + rest == tokens[0] + ([','] + rest);
      assert [] + tokens[0] == tokens[0];
      assert ([','] + rest)[1..] == rest;
      SplitJoin(tokens[1..]);
      assert SplitFrom(rest, []) == tokens[1..];
      assert [tokens[0]] + tokens[1..] == tokens;
    }
  }

  predicate AllDigits(s: string) {
    forall k :: 0 <= k < |s| ==> IsDigit(s[k])
  }

  /** The value of a decimal numeral. */
  function DigitsValue(s: string): nat
    requires AllDigits(s)
  {
    if s == [] then 0 else DigitsValue(s[..|s| - 1]) * 10 + (s[|s| - 1] as int - '0' as int)
  }

  /** `.Select(int.Parse)` over numerals: Overflow when one exceeds int.MaxValue. */
  function ParseDays(tokens: seq<string>): (r: Result<seq<int>, Error>)
    requires forall k :: 0 <= k < |tokens| ==> AllDigits(tokens[k])
    ensures r.Success? <==> forall k :: 0 <= k < |tokens| ==> DigitsValue(tokens[k]) <= IntMax
    ensures r.Failure? ==> r.error == Overflow
    ensures r.Success? ==> |r.value| == |tokens|
    ensures r.Success? ==> forall k :: 0 <= k < |tokens| ==> r.value[k] == DigitsValue(tokens[k])
    ensures r.Success? ==> NonNegative(r.value)
  {
    if tokens == [] then Success([])
    else
      var v := DigitsValue(tokens[0]);
      if v > IntMax then Failure(Overflow)
      else match ParseDays(tokens[1..])
        case Failure(e) => Failure(e)
        case Success(vs) => Success([v] + vs)
  }

  predicate NonNegative(xs: seq<int>) {
    forall k :: 0 <= k < |xs| ==> xs[k] >= 0
  }

  /** Reordering keeps every element non-negative. */
  lemma NonNegativePermutation(xs: seq<int>, ys: seq<int>)
    requires NonNegative(xs) && multiset(xs) == multiset(ys)
    ensures NonNegative(ys)
  {
    forall k | 0 <= k < |ys| ensures ys[k] >= 0 {
      assert ys[k] in multiset(xs);
    }
  }

  predicate Sorted(xs: seq<int>) {
    forall i, j :: 0 <= i < j < |xs| ==> xs[i] <= xs[j]
  }

  predicate AtLeast(b: int, xs: seq<int>) {
    forall k :: 0 <= k < |xs| ==> b <= xs[k]
  }

  /** A lower bound of x and of xs bounds every element of a permutation of them. */
  lemma AtLeastPermutation(b: int, x: int, xs: seq<int>, r: seq<int>)
    requires b <= x && AtLeast(b, xs) && multiset(r) == multiset(xs) + multiset{x}
    ensures AtLeast(b, r)
  {
    forall k | 0 <= k < |r| ensures b <= r[k] {
      assert r[k] in multiset(r);
      if r[k] != x {
        assert r[k] in multiset(xs);
      }
    }
  }

  /** An element no greater than any of an ascending list can head it. */
  lemma SortedCons(a: int, xs: seq<int>)
    requires AtLeast(a, xs) && Sorted(xs)
    ensures Sorted([a] + xs)
  {
    var r := [a] + xs;
    forall i, j | 0 <= i < j < |r| ensures r[i] <= r[j] {
      assert r[j] == xs[j - 1];
      if i > 0 {
        assert r[i] == xs[i - 1];
      }
    }
  }

  function Insert(x: int, xs: seq<int>): (r: seq<int>)
    requires Sorted(xs)
    ensures Sorted(r) && multiset(r) == multiset(xs) + multiset{x}
  {
    if xs == [] || x <= xs[0] then
      SortedCons(x, xs);
      [x] + xs
    else
      assert xs == [xs[0]] + xs[1..];
      var rest := Insert(x, xs[1..]);
      AtLeastPermutation(xs[0], x, xs[1..], rest);
      SortedCons(xs[0], rest);
      [xs[0]] + rest
  }

  /** `.OrderBy(d => d)`: the same numbers in ascending order. */
  function SortAscending(xs: seq<int>): (r: seq<int>)
    ensures Sorted(r) && multiset(r) == multiset(xs)
  {
    if xs == [] then []
    else
      assert xs == [xs[0]] + xs[1..];
      Insert(xs[0], SortAscending(xs[1..]))
  }

  /** Ordering a list that is already ascending leaves it as it is. */
  lemma {:induction false} SortAscendingKeepsSorted(xs: seq<int>)
    requires Sorted(xs)
    ensures SortAscending(xs) == xs
  {
    if xs != [] {
      SortAscendingKeepsSorted(xs[1..]);
      assert [xs[0]] + xs[1..] == xs;
    }
  }

  /** `xs.FirstOrDefault(x => x > d)`: the first element above d, else 0. */
  function FirstAbove(xs: seq<int>, d: int): (r: int)
    ensures (exists k :: 0 <= k < |xs| && xs[k] > d) ==> r > d && r in xs
    ensures (forall k :: 0 <= k < |xs| ==> xs[k] <= d) ==> r == 0
  {
    if xs == [] then 0 else if xs[0] > d then xs[0] else FirstAbove(xs[1..], d)
  }

  /** On an ascending list the first element above d is the least one. */
  lemma {:induction false} FirstAboveIsLeast(xs: seq<int>, d: int)
    requires Sorted(xs)
    ensures forall k :: 0 <= k < |xs| && xs[k] > d ==> FirstAbove(xs, d) <= xs[k]
  {
    if xs != [] && xs[0] <= d {
      FirstAboveIsLeast(xs[1..], d);
      forall k | 0 <= k < |xs| && xs[k] > d ensures FirstAbove(xs, d) <= xs[k] {
        assert xs[k] == xs[1..][k - 1];
      }
    }
  }

  /** The configured weekdays, ascending, when the text parses. */
  function ParsedDays(s: string): (r: Result<seq<int>, Error>)
    requires DayListText(s)
    ensures r.Success? <==> ParseDays(Split(s)).Success?
    ensures r.Failure? ==> r.error == Overflow
    ensures r.Success? ==> Sorted(r.value) && multiset(r.value) == multiset(ParseDays(Split(s)).value)
    ensures r.Success? ==> NonNegative(r.value)
  {
    match ParseDays(Split(s))
    case Failure(e) => Failure(e)
    case Success(parsed) =>
      var days := SortAscending(parsed);
      NonNegativePermutation(parsed, days);
      Success(days)
  }

  // ---------------------------------------------------------------------
  // CalculateNextWeeklyDate and CalculateNextDueDate

  /** The next date of a weekly rule: without configured days, `interval`
      weeks on; otherwise as WeeklyOnDays says for the parsed day list. */
  function CalculateNextWeeklyDate(current: Date, interval: int, daysOfWeek: Option<string>): (r: Result<Date, Error>)
    requires ValidDate(current) && 1 <= interval && 7 * interval <= IntMax
    requires daysOfWeek.Some? ==> DayListText(daysOfWeek.value)
    ensures r.Success? ==> ValidDate(r.value) && DayNumber(r.value) > DayNumber(current)
  {
    if daysOfWeek.None? || daysOfWeek.value == "" then Success(AddDays(current, 7 * interval))
    else match ParsedDays(daysOfWeek.value)
      case Failure(e) => Failure(e)
      case Success(days) => WeeklyOnDays(current, interval, days)
  }

  /** The weekly step over the ascending list of configured weekdays: the
      first configured day after the current weekday, this week; else the
      first configured day, `interval` weeks on; an empty list throws. */
  function WeeklyOnDays(current: Date, interval: int, days: seq<int>): (r: Result<Date, Error>)
    requires ValidDate(current) && 1 <= interval && 7 * interval <= IntMax && NonNegative(days)
    ensures r.Success? ==> ValidDate(r.value) && DayNumber(r.value) > DayNumber(current)
    ensures r.Failure? <==> days == []
    ensures r.Failure? ==> r.error == InvalidOperation
  {
    var d := DayOfWeek(current);
    var nextDay := FirstAbove(days, d);
    if nextDay > 0 then Success(AddDays(current, nextDay - d))
    else if days == [] then Failure(InvalidOperation)
    else
      WeekdayShift(DayNumber(current), 0);
      Success(AddDays(current, 7 * interval - d + days[0]))
  }

  /** The next due date after `current` under the template's rule. */
  function CalculateNextDueDate(current: Date, t: RecurringTaskTemplate): (r: Result<Date, Error>)
    requires ValidDate(current) && WellFormed(t)
    ensures r.Success? ==> ValidDate(r.value) && DayNumber(r.value) > DayNumber(current)
    ensures r.Failure? ==> RecurrenceTypeOf(t.recurrenceType) == Some(Weekly) && t.daysOfWeek.Some?
  {
    var n := t.recurrenceInterval;
    match RecurrenceTypeOf(t.recurrenceType)
    case Some(Daily) => Success(AddDays(current, n))
    case Some(Weekly) => CalculateNextWeeklyDate(current, n, t.daysOfWeek)
    case Some(Monthly) => AddMonthsLater(current, n); Success(AddMonths(current, n))
    case Some(Yearly) => AddYearsLater(current, n); Success(AddYears(current, n))
    case None => Success(AddDays(current, 1))
  }
}

module RecurrenceProperties {
  import opened Wrappers
  import opened Calendar
  import opened Models
  import opened Recurrence

  /** Daily, Monthly and Yearly move by RecurrenceInterval days, months or
      years, Weekly without configured days by as many weeks, and a value
      outside the enumeration by one day. */
  lemma NextDueDateSteps(current: Date, t: RecurringTaskTemplate)
    requires ValidDate(current) && WellFormed(t)
    ensures var r, n := CalculateNextDueDate(current, t), t.recurrenceInterval;
      match RecurrenceTypeOf(t.recurrenceType)
      case Some(Daily) => r.Success? && DayNumber(r.value) == DayNumber(current) + n
      case Some(Weekly) =>
        (t.daysOfWeek.None? || t.daysOfWeek.value == "") ==>
          r.Success? && DayNumber(r.value) == DayNumber(current) + 7 * n &&
          DayOfWeek(r.value) == DayOfWeek(current)
      case Some(Monthly) =>
        r.Success? && r.value.year * 12 + r.value.month == current.year * 12 + current.month + n &&
        r.value.day == Min(current.day, DaysInMonth(r.value.year, r.value.month))
      case Some(Yearly) =>
        r.Success? && r.value.year == current.year + n && r.value.month == current.month &&
        r.value.day == Min(current.day, DaysInMonth(r.value.year, r.value.month))
      case None => r.Success? && DayNumber(r.value) == DayNumber(current) + 1
  {
    if RecurrenceTypeOf(t.recurrenceType) == Some(Weekly) {
      var n, d := t.recurrenceInterval, DayOfWeek(current);
      assert DayOfWeek(AddDays(current, 7 * n)) == d by {
        DayOfWeekWeeksLater(current, n, d);
        assert 7 * n - d + d == 7 * n;
      }
    }
  }

  /** Weekly, some configured day m lies later in the current week than the
      current weekday d, and m is the least such: the result is d + (m - d)
      days, that weekday of the same week. */
  lemma WeeklyLaterThisWeek(current: Date, interval: int, days: seq<int>, m: int)
    requires ValidDate(current) && 1 <= interval && 7 * interval <= IntMax && NonNegative(days) && Sorted(days)
    requires m in days && m > DayOfWeek(current)
    requires forall x :: x in days && x > DayOfWeek(current) ==> m <= x
    ensures WeeklyOnDays(current, interval, days) == Success(AddDays(current, m - DayOfWeek(current)))
    ensures m <= 6 ==> DayOfWeek(AddDays(current, m - DayOfWeek(current))) == m
  {
    var d := DayOfWeek(current);
    assert FirstAbove(days, d) == m by { FirstAboveIsLeast(days, d); }
    if m <= 6 {
      DayOfWeekLaterInWeek(current, m);
    }
  }

  /** Weekly, no configured day lies after the current weekday d: the result
      is 7 * interval - d + (least configured day) days on, which is that
      weekday `interval` weeks later. */
  lemma WeeklyWrapsToLaterWeek(current: Date, interval: int, days: seq<int>, m: int)
    requires ValidDate(current) && 1 <= interval && 7 * interval <= IntMax && NonNegative(days) && Sorted(days)
    requires m in days && m <= DayOfWeek(current)
    requires forall x :: x in days ==> x <= DayOfWeek(current)
    requires forall x :: x in days ==> m <= x
    ensures 1 <= 7 * interval - DayOfWeek(current) + m <= IntMax
    ensures WeeklyOnDays(current, interval, days) ==
      Success(AddDays(current, 7 * interval - DayOfWeek(current) + m))
    ensures DayOfWeek(AddDays(current, 7 * interval - DayOfWeek(current) + m)) == m
  {
    assert days[0] == m by {
      assert days[0] in days;
    }
    assert FirstAbove(days, DayOfWeek(current)) == 0;
    DayOfWeekWeeksLater(current, interval, m);
  }

  /** With every configured day in 0..6, a weekly result falls on a configured day. */
  lemma WeeklyLandsOnConfiguredDay(current: Date, interval: int, days: seq<int>)
    requires ValidDate(current) && 1 <= interval && 7 * interval <= IntMax && NonNegative(days) && Sorted(days)
    requires forall x :: x in days ==> x <= 6
    requires days != []
    ensures WeeklyOnDays(current, interval, days).Success?
    ensures DayOfWeek(WeeklyOnDays(current, interval, days).value) in days
  {
    var d := DayOfWeek(current);
    var nextDay := FirstAbove(days, d);
    if nextDay > 0 {
      FirstAboveIsLeast(days, d);
      WeeklyLaterThisWeek(current, interval, days, nextDay);
    } else {
      assert forall x :: x in days ==> days[0] <= x;
      WeeklyWrapsToLaterWeek(current, interval, days, days[0]);
    }
  }

  /** A configured text reaches the weekly step exactly when it parses. */
  lemma WeeklyUsesParsedDays(current: Date, interval: int, s: string)
    requires ValidDate(current) && 1 <= interval && 7 * interval <= IntMax && DayListText(s) && s != ""
    ensures ParsedDays(s).Failure? ==> CalculateNextWeeklyDate(current, interval, Some(s)) == Failure(Overflow)
    ensures ParsedDays(s).Success? ==>
      CalculateNextWeeklyDate(current, interval, Some(s)) == WeeklyOnDays(current, interval, ParsedDays(s).value)
  {
  }

  /** A piece in progress always becomes a token. */
  lemma {:induction false} SplitFromKeepsPiece(s: string, piece: string)
    requires ',' !in piece && piece != []
    ensures SplitFrom(s, piece) != []
    decreases |s|
  {
    if s != [] && s[0] != ',' {
      SplitFromKeepsPiece(s[1..], piece + [s[0]]);
    }
  }

  /** A comma ends the piece in progress: what comes after it splits on its own. */
  lemma {:induction false} SplitFromAtComma(a: string, b: string, piece: string)
    requires ',' !in piece
    ensures SplitFrom(a + [','] + b, piece) == SplitFrom(a, piece) + SplitFrom(b, [])
    decreases |a|
  {
    var s := a + [','] + b;
    if a == [] {
      assert s == [','] + b && s[1..] == b;
    } else {
      assert s[0] == a[0] && s[1..] == a[1..] + [','] + b;
      if a[0] == ',' {
        SplitFromAtComma(a[1..], b, []);
      } else {
        SplitFromAtComma(a[1..], b, piece + [a[0]]);
      }
    }
  }

  /** RemoveEmptyEntries: splitting at a comma splits the two sides apart, so
      leading, trailing and doubled commas add no entries. */
  lemma SplitAtComma(a: string, b: string)
    ensures Split(a + [','] + b) == Split(a) + Split(b)
  {
    SplitFromAtComma(a, b, []);
  }

  /** A text without a comma is one entry, or none when it is empty. */
  lemma SplitWithoutComma(w: string)
    requires ',' !in w
    ensures Split(w) == if w == [] then [] else [w]
  {
    SplitFromAppend(w, [], []);
    assert w + [] == w && [] + w == w;
  }

  /** Together the two lemmas above fix every split: ",1,,3," gives ["1", "3"]. */
  lemma SplitDropsEmptyEntries()
    ensures Split(",1,,3,") == ["1", "3"]
  {
    SplitWithoutComma([]);
    SplitWithoutComma("1");
    SplitWithoutComma("3");
    assert Split("3,") == ["3"] by {
      assert "3," == "3" + [','] + [];
      SplitAtComma("3", []);
    }
    assert Split(",3,") == ["3"] by {
      assert ",3," == [] + [','] + "3,";
      SplitAtComma([], "3,");
    }
    assert Split("1,,3,") == ["1", "3"] by {
      assert "1,,3," == "1" + [','] + ",3,";
      SplitAtComma("1", ",3,");
    }
    assert ",1,,3," == [] + [','] + "1,,3,";
    SplitAtComma([], "1,,3,");
  }

  /** A text splits into no tokens exactly when it holds nothing but commas. */
  lemma {:induction false} SplitEmptyIffCommas(s: string)
    ensures Split(s) == [] <==> forall k :: 0 <= k < |s| ==> s[k] == ','
    decreases |s|
  {
    if s != [] {
      SplitEmptyIffCommas(s[1..]);
      if s[0] != ',' {
        assert [] + [s[0]] == [s[0]];
        SplitFromKeepsPiece(s[1..], [s[0]]);
      } else {
        assert forall k :: 1 <= k < |s| ==> s[k] == s[1..][k - 1];
      }
    }
  }

  /** A non-empty DaysOfWeek text made only of commas parses to an empty list,
      and the `First()` of the wrap-around branch throws; no other text makes
      the weekly calculator throw InvalidOperation. */
  lemma WeeklyEmptyDayListThrows(current: Date, interval: int, s: string)
    requires ValidDate(current) && 1 <= interval && 7 * interval <= IntMax && DayListText(s) && s != ""
    ensures CalculateNextWeeklyDate(current, interval, Some(s)) == Failure(InvalidOperation) <==>
      forall k :: 0 <= k < |s| ==> s[k] == ','
  {
    SplitEmptyIffCommas(s);
    var r := ParsedDays(s);
    if r.Success? {
      assert |r.value| == |multiset(r.value)| == |ParseDays(Split(s)).value| == |Split(s)|;
    }
  }

  /** The Monday/Wednesday/Friday rule: Monday goes to Wednesday, Friday to
      the following Monday. */
  lemma WeeklyMonWedFri(current: Date)
    requires ValidDate(current)
    ensures DayOfWeek(current) == 1 ==> CalculateNextWeeklyDate(current, 1, Some("1,3,5")) == Success(AddDays(current, 2))
    ensures DayOfWeek(current) == 5 ==> CalculateNextWeeklyDate(current, 1, Some("1,3,5")) == Success(AddDays(current, 3))
  {
    MonWedFriParses();
    WeeklyUsesParsedDays(current, 1, "1,3,5");
    WeeklyOneThreeFive(current);
  }

  lemma WeeklyOneThreeFive(current: Date)
    requires ValidDate(current)
    ensures DayOfWeek(current) == 1 ==> WeeklyOnDays(current, 1, [1, 3, 5]) == Success(AddDays(current, 2))
    ensures DayOfWeek(current) == 5 ==> WeeklyOnDays(current, 1, [1, 3, 5]) == Success(AddDays(current, 3))
  {
    var d := DayOfWeek(current);
    if d == 1 {
      assert FirstAbove([1, 3, 5], d) == 3;
    } else if d == 5 {
      assert FirstAbove([1, 3, 5], d) == 0;
    }
  }

  lemma MonWedFriParses()
    ensures DayListText("1,3,5") && ParsedDays("1,3,5") == Success([1, 3, 5])
  {
    MonWedFriText();
    MonWedFriSplits();
    MonWedFriValues();
    MonWedFriSorted();
  }

  lemma MonWedFriText()
    ensures DayListText("1,3,5")
  {
    var s := "1,3,5";
    assert s[0] == '1' && s[1] == ',' && s[2] == '3' && s[3] == ',' && s[4] == '5';
  }

  lemma MonWedFriSplits()
    ensures Split("1,3,5") == ["1", "3", "5"]
  {
    SplitJoin(["1", "3", "5"]);
    assert Join(["1", "3", "5"]) == "1,3,5";
  }

  lemma MonWedFriValues()
    ensures ParseDays(["1", "3", "5"]) == Success([1, 3, 5])
  {
    var tokens := ["1", "3", "5"];
    assert DigitsValue("1") == 1 && DigitsValue("3") == 3 && DigitsValue("5") == 5;
    assert tokens[2..] == ["5"] && tokens[2..][1..] == [] && [5] + [] == [5];
    assert ParseDays(tokens[2..]) == Success([5]);
    assert tokens[1..][1..] == tokens[2..] && [3] + [5] == [3, 5];
    assert ParseDays(tokens[1..]) == Success([3, 5]);
    assert [1] + [3, 5] == [1, 3, 5];
  }

  lemma MonWedFriSorted()
    ensures SortAscending([1, 3, 5]) == [1, 3, 5]
  {
    SortAscendingKeepsSorted([1, 3, 5]);
  }

  /** Locked-in calendar cases: three days after 2024-01-01, one month after
      2024-01-31 (clamped to the leap February), one year after 2024-02-29. */
  lemma CalendarExamples()
    ensures AddDays(Date(2024, 1, 1), 3) == Date(2024, 1, 4)
    ensures AddMonths(Date(2024, 1, 31), 1) == Date(2024, 2, 29)
    ensures AddMonths(Date(2023, 1, 31), 1) == Date(2023, 2, 28)
    ensures AddYears(Date(2024, 2, 29), 1) == Date(2025, 2, 28)
  {
  }
}
