/** The server's input conversions (server/utils/types.js): `toNumber`, and
    `toDate`, a strict YYYY-MM-DD validator with the Gregorian leap-year rule. */
module Types {
  import opened Js
  import opened Strings

  /** `toNumber(str)`: a falsy input (the empty string, undefined) comes back
      as it is; anything else is converted with unary `+`. */
  function ToNumber(str: Value): (r: Value)
    ensures !Truthy(str) ==> r == str
    ensures Truthy(str) ==> r.Num? || r.NaN?
  {
    if Truthy(str) then Js.ToNumber(str) else str
  }

  /** Decimal text converts to its number; the empty text stays text. */
  lemma ToNumberOfDecimalText(n: nat)
    ensures ToNumber(Str(NatToString(n))) == Num(n)
    ensures ToNumber(Str("")) == Str("") && ToNumber(Undefined) == Undefined
  {
    DecimalOfNatToString(n);
  }

  /** The single message every rejection of a string carries. */
  const DateFormatMessage := "Invalid date format. Date must be in the format YYYY-MM-DD."

  /** A local calendar date: `getFullYear()`, `getMonth()` (0-indexed) and `getDate()`. */
  datatype Date = Date(fullYear: int, monthIndex: int, day: int)

  datatype DateOutcome = Converted(date: Date) | Rejected(error: Value)

  /** The Gregorian leap-year rule. */
  predicate IsLeapYear(y: int)
  {
    (y % 4 == 0 && y % 100 != 0) || y % 400 == 0
  }

  /** Days in month `m` (1-based) of year `y`. */
  function DaysInMonth(m: int, y: int): (d: int)
    requires 1 <= m <= 12
    ensures 28 <= d <= 31
  {
    if m == 2 then (if IsLeapYear(y) then 29 else 28)
    else if m == 4 || m == 6 || m == 9 || m == 11 then 30
    else 31
  }

  /** A segment converted only when it has the required width
      (`parts[i].length === w ? +parts[i] : undefined`). */
  function Segment(part: string, width: nat): (v: Value)
    ensures v.Num? || v.NaN? || v.Undefined?
  {
    if |part| == width then StringToNumber(part) else Undefined
  }

  /** The three checks of the source, as it writes them: the year is a number
      at least 0, the month a number in 1..12, and the day at least 1 and
      within the month's bound (the `switch`, whose default case fails). */
  predicate ValidParts(year: Value, month: Value, day: Value)
  {
    var isValidYear := year.Num? && year.n >= 0;
    var isValidMonth := month.Num? && 1 <= month.n <= 12;
    var isLeapYear := year.Num? && IsLeapYear(year.n);
    var isValidDay :=
      day.Num? && day.n >= 1 &&
      if month == Num(2) then day.n <= (if isLeapYear then 29 else 28)
      else if month in {Num(1), Num(3), Num(5), Num(7), Num(8), Num(10), Num(12)} then day.n <= 31
      else if month in {Num(4), Num(6), Num(9), Num(11)} then day.n <= 30
      else false;
    isValidYear && isValidMonth && isValidDay
  }

  /** The components `toDate` accepts, or the value it throws. */
  datatype Checked = Accepted(year: nat, month: int, day: int) | Failed(error: Value)

  function Check(str: Value): (c: Checked)
    ensures c.Accepted? ==> 1 <= c.month <= 12 && 1 <= c.day <= DaysInMonth(c.month, c.year)
  {
    if !Truthy(str) then Failed(PlainError(DateFormatMessage))
    else if !str.Str? then Failed(Error("TypeError", "str.split is not a function"))
    else
      var parts := Split(str.s, '-');
      if |parts| != 3 then Failed(PlainError(DateFormatMessage))
      else
        var year := Segment(parts[0], 4);
        var month := Segment(parts[1], 2);
        var day := Segment(parts[2], 2);
        if ValidParts(year, month, day) then Accepted(year.n, month.n, day.n)
        else Failed(PlainError(DateFormatMessage))
  }

  /** JavaScript's `new Date(y, mi, d)` for a month index in 0..11 and a day in
      1..31: a year in 0..99 means 1900 + y, and a day past the end of the
      month rolls over into the next month. */
  function NewDate(y: int, mi: int, d: int): (r: Date)
    requires 0 <= mi <= 11 && 1 <= d <= 31
    ensures r.fullYear == if 0 <= y <= 99 then 1900 + y else y
    ensures d <= DaysInMonth(mi + 1, r.fullYear) ==> r == Date(r.fullYear, mi, d)
  {
    var fy := if 0 <= y <= 99 then 1900 + y else y;
    var len := DaysInMonth(mi + 1, fy);
    if d <= len then Date(fy, mi, d)
    else if mi == 11 then Date(fy + 1, 0, d - len)
    else Date(fy, mi + 1, d - len)
  }

  /** `toDate(str)` as written: the date at local midnight, built with
      `new Date(year, month - 1, day)`. */
  function ToDate(str: Value): (r: DateOutcome)
    ensures r.Rejected? <==> Check(str).Failed?
  {
    match Check(str)
    case Accepted(y, m, d) => Converted(NewDate(y, m - 1, d))
    case Failed(e) => Rejected(e)
  }

  /** `toDate` with the year taken literally (as `setFullYear` would). */
  function ToDateFullYear(str: Value): (r: DateOutcome)
    ensures r.Rejected? <==> Check(str).Failed?
  {
    match Check(str)
    case Accepted(y, m, d) => Converted(Date(y, m - 1, d))
    case Failed(e) => Rejected(e)
  }

  /** Y-M-D written as YYYY-MM-DD. */
  function Format(y: nat, m: nat, d: nat): string
  {
    ZeroPad(y, 4) + "-" + ZeroPad(m, 2) + "-" + ZeroPad(d, 2)
  }

  lemma {:induction false} NatToStringLength(n: nat, k: nat)
    requires n < Pow10(k)
    ensures |NatToString(n)| <= if k == 0 then 1 else k
    decreases n
  {
    assert Pow10(0) == 1 && Pow10(1) == 10;
    if n >= 10 {
      NatToStringLength(n / 10, k - 1);
    }
  }

  function Pow10(k: nat): (p: nat)
    ensures p >= 1
  {
    if k == 0 then 1 else 10 * Pow10(k - 1)
  }

  lemma {:induction false} PadWidth(n: nat, w: nat)
    requires 1 <= w && n < Pow10(w)
    ensures |ZeroPad(n, w)| == w
  {
    NatToStringLength(n, w);
  }

  /** A zero-padded number splits out of a Y-M-D text and converts back. */
  lemma {:induction false} SegmentOfPad(n: nat, w: nat)
    requires 1 <= w && n < Pow10(w)
    ensures Segment(ZeroPad(n, w), w) == Num(n)
  {
    PadWidth(n, w);
    DecimalOfZeroPad(n, w);
  }

  lemma DigitsHaveNoDash(s: string)
    requires IsDigits(s)
    ensures '-' !in s
  {
    forall i | 0 <= i < |s| ensures s[i] != '-' { assert IsDigit(s[i]); }
  }

  lemma SplitFormat(y: nat, m: nat, d: nat)
    ensures Split(Format(y, m, d), '-') == [ZeroPad(y, 4), ZeroPad(m, 2), ZeroPad(d, 2)]
  {
    DigitsHaveNoDash(ZeroPad(y, 4));
    DigitsHaveNoDash(ZeroPad(m, 2));
    DigitsHaveNoDash(ZeroPad(d, 2));
    SplitThree(ZeroPad(y, 4), ZeroPad(m, 2), ZeroPad(d, 2), '-');
  }

  /** Round trip: every real calendar date written as YYYY-MM-DD is accepted,
      and toDate builds it from exactly those components. */
  lemma {:induction false} CheckFormat(y: nat, m: nat, d: nat)
    requires y <= 9999 && 1 <= m <= 12 && 1 <= d <= DaysInMonth(m, y)
    ensures Check(Str(Format(y, m, d))) == Accepted(y, m, d)
  {
    SplitFormat(y, m, d);
    assert Pow10(2) == 100 && Pow10(4) == 10000;
    SegmentOfPad(y, 4);
    SegmentOfPad(m, 2);
    SegmentOfPad(d, 2);
    assert Truthy(Str(Format(y, m, d)));
    ValidPartsMeansCalendar(Num(y), Num(m), Num(d));
  }

  /** For years from 100 on, toDate returns the date it was given
      (month 0-indexed). */
  lemma ToDateRoundTrip(y: nat, m: nat, d: nat)
    requires 100 <= y <= 9999 && 1 <= m <= 12 && 1 <= d <= DaysInMonth(m, y)
    ensures ToDate(Str(Format(y, m, d))) == Converted(Date(y, m - 1, d))
  {
    CheckFormat(y, m, d);
  }

  /** With the year taken literally the round trip holds for every year 0..9999. */
  lemma ToDateFullYearRoundTrip(y: nat, m: nat, d: nat)
    requires y <= 9999 && 1 <= m <= 12 && 1 <= d <= DaysInMonth(m, y)
    ensures ToDateFullYear(Str(Format(y, m, d))) == Converted(Date(y, m - 1, d))
  {
    CheckFormat(y, m, d);
  }

  /** As written, a year below 100 is shifted into the 1900s: toDate builds
      the date with year 1900 + y, so its full year never matches the text. */
  lemma ToDateEarlyYears(y: nat, m: nat, d: nat)
    requires y <= 99 && 1 <= m <= 12 && 1 <= d <= DaysInMonth(m, y)
    ensures ToDate(Str(Format(y, m, d))) == Converted(NewDate(y, m - 1, d))
    ensures ToDate(Str(Format(y, m, d))).date.fullYear == 1900 + y
  {
    CheckFormat(y, m, d);
  }

  /** An early leap day whose 1900s counterpart is not one is accepted by the
      validation and then rolls over into March. Year 0 is such a year:
      "0000-02-29" becomes 1 March 1900. */
  lemma ToDateLeapDayShift(y: nat)
    requires y <= 99 && IsLeapYear(y) && !IsLeapYear(1900 + y)
    ensures ToDate(Str(Format(y, 2, 29))) == Converted(Date(1900 + y, 2, 1))
  {
    ToDateEarlyYears(y, 2, 29);
  }

  lemma LeapDayOfYearZeroText()
    ensures Format(0, 2, 29) == "0000-02-29"
    ensures IsLeapYear(0) && !IsLeapYear(1900)
  {
  }

  /** The `switch` on the month agrees with the calendar rule. */
  lemma ValidPartsMeansCalendar(year: Value, month: Value, day: Value)
    ensures ValidParts(year, month, day) <==>
      && year.Num? && month.Num? && day.Num?
      && year.n >= 0 && 1 <= month.n <= 12 && 1 <= day.n <= DaysInMonth(month.n, year.n)
  {
    if year.Num? && month.Num? && day.Num? && 1 <= month.n <= 12 {
      var m := month.n;
      assert m == 1 || m == 2 || m == 3 || m == 4 || m == 5 || m == 6 || m == 7 || m == 8
          || m == 9 || m == 10 || m == 11 || m == 12;
    }
  }

  /** Acceptance, stated with the calendar rule instead of the `switch`: a
      string is accepted exactly when it splits on "-" into three segments of
      widths 4, 2 and 2 that convert to a year of at least 0, a month in 1..12
      and a day in 1..DaysInMonth. */
  lemma CheckAcceptsExactly(s: string)
    ensures Check(Str(s)).Accepted? <==>
      var parts := Split(s, '-');
      && |parts| == 3 && |parts[0]| == 4 && |parts[1]| == 2 && |parts[2]| == 2
      && var y, m, d := StringToNumber(parts[0]), StringToNumber(parts[1]), StringToNumber(parts[2]);
      && y.Num? && m.Num? && d.Num?
      && y.n >= 0 && 1 <= m.n <= 12 && 1 <= d.n <= DaysInMonth(m.n, y.n)
  {
    var parts := Split(s, '-');
    if s == "" {
      assert parts == [""];
      assert !Check(Str(s)).Accepted?;
    } else if |parts| == 3 {
      var year, month, day := Segment(parts[0], 4), Segment(parts[1], 2), Segment(parts[2], 2);
      assert Check(Str(s)).Accepted? <==> ValidParts(year, month, day);
      ValidPartsMeansCalendar(year, month, day);
    } else {
      assert !Check(Str(s)).Accepted?;
    }
  }

  /** Every rejection of a string (or of a falsy value) throws the same plain
      Error: the one message and no `code` property. A truthy value that is
      not a string fails earlier, in `split`, with a TypeError. */
  lemma RejectionIsPlainError(str: Value)
    requires ToDate(str).Rejected?
    ensures str.Str? || !Truthy(str) ==>
      ToDate(str).error == PlainError(DateFormatMessage)
      && Field(ToDate(str).error, "code") == Undefined
    ensures Truthy(str) && !str.Str? ==> Field(ToDate(str).error, "name") == Str("TypeError")
  {
  }

  /** A text with other than two dashes is rejected. */
  lemma RejectsWrongDashCount(s: string)
    requires Count(s, '-') != 2
    ensures ToDate(Str(s)).Rejected?
  {
    SplitPieces(s, '-');
  }

  /** Among YYYY-MM-DD texts, exactly the real calendar dates are accepted:
      a month outside 1..12, a day 0, a day past the month's end, or 29
      February outside a leap year is rejected. */
  lemma {:induction false} CheckFormatted(y: nat, m: nat, d: nat)
    requires y <= 9999 && m <= 99 && d <= 99
    ensures Check(Str(Format(y, m, d))).Accepted? <==> 1 <= m <= 12 && 1 <= d <= DaysInMonth(m, y)
  {
    SplitFormat(y, m, d);
    assert Pow10(2) == 100 && Pow10(4) == 10000;
    SegmentOfPad(y, 4);
    SegmentOfPad(m, 2);
    SegmentOfPad(d, 2);
    assert Truthy(Str(Format(y, m, d)));
    ValidPartsMeansCalendar(Num(y), Num(m), Num(d));
  }
}
