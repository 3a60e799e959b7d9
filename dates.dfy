/** Calendar dates as `datetime.strptime(s, '%Y-%m-%d')` produces them:
    the accepted spellings, calendar validity, and the order in which
    two such datetimes compare (their time of day is always midnight). */
module Dates {
  import opened Outcomes
  import opened Digits

  datatype Date = Date(year: int, month: int, day: int)

  const MinYear := 1
  const MaxYear := 9999

  /** Gregorian leap years. */
  predicate IsLeapYear(y: int) {
    y % 4 == 0 && (y % 100 != 0 || y % 400 == 0)
  }

  function DaysInMonth(y: int, m: int): (n: int)
    requires 1 <= m <= 12
    ensures 28 <= n <= 31
    ensures n == 29 <==> m == 2 && IsLeapYear(y)
  {
    if m == 2 then (if IsLeapYear(y) then 29 else 28)
    else if m == 4 || m == 6 || m == 9 || m == 11 then 30
    else 31
  }

  /** The dates `datetime` can hold. */
  predicate Valid(d: Date) {
    && MinYear <= d.year <= MaxYear
    && 1 <= d.month <= 12
    && 1 <= d.day <= DaysInMonth(d.year, d.month)
  }

  /** `a <= b` on two datetimes at midnight: by year, then month, then day. */
  predicate Le(a: Date, b: Date) {
    a.year < b.year || (a.year == b.year && (a.month < b.month || (a.month == b.month && a.day <= b.day)))
  }

  /** The chained comparison `start <= d <= end`: both ends included. */
  predicate InRange(d: Date, start: Date, end: Date) {
    Le(start, d) && Le(d, end)
  }

  // ---------------------------------------------------------------------
  // Day numbers, as date.toordinal() counts them (0001-01-01 is day 1).

  function DaysInYear(y: int): int {
    if IsLeapYear(y) then 366 else 365
  }

  function DaysBeforeYear(y: int): int
    requires y >= 1
  {
    var p := y - 1;
    p * 365 + p / 4 - p / 100 + p / 400
  }

  function DaysBeforeMonth(y: int, m: int): int
    requires 1 <= m <= 12
  {
    var table := [0, 31, 59, 90, 120, 151, 181, 212, 243, 273, 304, 334];
    table[m - 1] + (if m > 2 && IsLeapYear(y) then 1 else 0)
  }

  function Ordinal(d: Date): int
    requires Valid(d)
  {
    DaysBeforeYear(d.year) + DaysBeforeMonth(d.year, d.month) + d.day
  }

  lemma YearStep(y: int)
    requires y >= 1
    ensures DaysBeforeYear(y + 1) == DaysBeforeYear(y) + DaysInYear(y)
  {
    var p := y - 1;
    assert y / 4 == p / 4 + (if y % 4 == 0 then 1 else 0);
    assert y / 100 == p / 100 + (if y % 100 == 0 then 1 else 0);
    assert y / 400 == p / 400 + (if y % 400 == 0 then 1 else 0);
  }

  /** A whole year separates the start of an earlier year from a later one. */
  lemma {:induction false} YearsAdvance(a: int, b: int)
    requires 1 <= a < b
    ensures DaysBeforeYear(a) + DaysInYear(a) <= DaysBeforeYear(b)
  {
    YearStep(b - 1);
    if a < b - 1 {
      YearsAdvance(a, b - 1);
    }
  }

  /** The cumulative table advances by exactly the length of each month ... */
  lemma MonthStep(y: int, m: int)
    requires 1 <= m < 12
    ensures DaysBeforeMonth(y, m) + DaysInMonth(y, m) == DaysBeforeMonth(y, m + 1)
  {
  }

  /** ... and December ends the year. */
  lemma DecemberEndsYear(y: int)
    ensures DaysBeforeMonth(y, 12) + DaysInMonth(y, 12) == DaysInYear(y)
  {
  }

  lemma {:induction false} MonthsAdvance(y: int, m: int, n: int)
    requires 1 <= m < n <= 12
    ensures DaysBeforeMonth(y, m) + DaysInMonth(y, m) <= DaysBeforeMonth(y, n)
    decreases n
  {
    MonthStep(y, n - 1);
    if m < n - 1 {
      MonthsAdvance(y, m, n - 1);
    }
  }

  lemma YearEnds(y: int, m: int)
    requires 1 <= m <= 12
    ensures DaysBeforeMonth(y, m) + DaysInMonth(y, m) <= DaysInYear(y)
  {
    DecemberEndsYear(y);
    if m < 12 {
      MonthsAdvance(y, m, 12);
    }
  }

  lemma EarlierDayNumber(a: Date, b: Date)
    requires Valid(a) && Valid(b) && Le(a, b) && a != b
    ensures Ordinal(a) < Ordinal(b)
  {
    if a.year < b.year {
      YearEnds(a.year, a.month);
      YearsAdvance(a.year, b.year);
    } else if a.month < b.month {
      MonthsAdvance(a.year, a.month, b.month);
    }
  }

  /** Comparing the (year, month, day) triples is comparing day numbers, so
      the datetime order is the calendar order. */
  lemma OrdinalOrder(a: Date, b: Date)
    requires Valid(a) && Valid(b)
    ensures Le(a, b) <==> Ordinal(a) <= Ordinal(b)
    ensures a == b <==> Ordinal(a) == Ordinal(b)
  {
    if a != b {
      if Le(a, b) {
        EarlierDayNumber(a, b);
      } else {
        EarlierDayNumber(b, a);
      }
    }
  }

  // ---------------------------------------------------------------------
  // Parsing with the format '%Y-%m-%d'.

  /** The `%m` field and the '-' after it at the front of t, as the pattern
      `1[0-2]|0[1-9]|[1-9]` matches it: two digits denoting 1..12, or one
      non-zero digit.  The result is the month and the field's width. */
  function MonthField(t: string): (r: Option<(int, nat)>)
    ensures r.Some? ==>
      && 1 <= r.value.0 <= 12
      && (r.value.1 == 1 || r.value.1 == 2)
      && r.value.1 < |t| && t[r.value.1] == '-'
      && AllDigits(t[..r.value.1]) && FromDigits(t[..r.value.1]) == r.value.0
  {
    if |t| >= 3 && t[2] == '-' && AllDigits(t[..2]) && 1 <= FromDigits(t[..2]) <= 12 then
      Some((FromDigits(t[..2]), 2))
    else if |t| >= 2 && t[1] == '-' && AllDigits(t[..1]) && 1 <= FromDigits(t[..1]) then
      Some((FromDigits(t[..1]), 1))
    else
      None
  }

  /** The `%d` field, which must end the text, as the pattern
      `3[01]|[12]\d|0[1-9]|[1-9]| [1-9]` matches it: two digits denoting
      1..31, one non-zero digit, or a space and one non-zero digit. */
  function DayField(u: string): (r: Option<int>)
    ensures r.Some? ==> 1 <= r.value <= 31 && 1 <= |u| <= 2
    ensures r.Some? && u[0] == ' ' ==> AllDigits(u[1..]) && r.value == FromDigits(u[1..])
    ensures r.Some? && u[0] != ' ' ==> AllDigits(u) && r.value == FromDigits(u)
  {
    if |u| == 2 && AllDigits(u) && 1 <= FromDigits(u) <= 31 then Some(FromDigits(u))
    else if |u| == 1 && AllDigits(u) && 1 <= FromDigits(u) then Some(FromDigits(u))
    else if |u| == 2 && u[0] == ' ' && AllDigits(u[1..]) && 1 <= FromDigits(u[1..]) then Some(FromDigits(u[1..]))
    else None
  }

  /** datetime.strptime(s, '%Y-%m-%d'): four digits of year, '-', the month
      field, '-', the day field and nothing after it; the date must exist. */
  function ParseDate(s: string): (r: Result<Date>)
    ensures r.Success? ==> Valid(r.value)
    ensures r.Failure? ==> r.error == BadDate(s)
  {
    if |s| < 5 || !AllDigits(s[..4]) || s[4] != '-' then Failure(BadDate(s))
    else ParseMonthDay(FromDigits(s[..4]), s[5..], s)
  }

  /** The part of ParseDate after the year and its '-': t is what follows
      them in the whole text s. */
  function ParseMonthDay(year: int, t: string, s: string): (r: Result<Date>)
    ensures r.Success? ==> Valid(r.value) && r.value.year == year
    ensures r.Failure? ==> r.error == BadDate(s)
  {
    match MonthField(t)
    case None => Failure(BadDate(s))
    case Some((month, width)) =>
      match DayField(t[width + 1..])
      case None => Failure(BadDate(s))
      case Some(day) =>
        var d := Date(year, month, day);
        if Valid(d) then Success(d) else Failure(BadDate(s))
  }

  /** A zero-padded YYYY-MM-DD text parses exactly when it names a date
      that exists, and then to that date. */
  lemma ParseIso(s: string)
    requires |s| == 10 && s[4] == '-' && s[7] == '-'
    requires AllDigits(s[..4]) && AllDigits(s[5..7]) && AllDigits(s[8..])
    ensures var d := Date(FromDigits(s[..4]), FromDigits(s[5..7]), FromDigits(s[8..]));
      ParseDate(s) == if Valid(d) then Success(d) else Failure(BadDate(s))
  {
    var t := s[5..];
    assert t[..2] == s[5..7] && t[2] == '-' && t[3..] == s[8..];
    assert t[..1] == s[5..6] && t[1] == s[6];
  }

  /** How the day may be written: "05", "5" or " 5". */
  datatype DayStyle = TwoDigits | OneDigit | SpacePadded

  /** The day field in the given style. */
  function DayText(day: nat, style: DayStyle): string {
    match style
    case TwoDigits => ToDigits(day, 2)
    case OneDigit => ToDigits(day, 1)
    case SpacePadded => " " + ToDigits(day, 1)
  }

  /** One spelling of d: the year in four digits, the month in two digits or
      one, the day in the given style. */
  function Spelling(d: Date, wideMonth: bool, style: DayStyle): string
    requires d.year >= 0 && d.month >= 0 && d.day >= 0
  {
    ToDigits(d.year, 4) + "-" + ToDigits(d.month, if wideMonth then 2 else 1) + "-" + DayText(d.day, style)
  }

  /** The narrow forms exist only for one-digit months and days. */
  predicate Admissible(d: Date, wideMonth: bool, style: DayStyle) {
    (wideMonth || d.month < 10) && (style == TwoDigits || d.day < 10)
  }

  /** The zero-padded YYYY-MM-DD form. */
  function IsoFormat(d: Date): string
    requires d.year >= 0 && d.month >= 0 && d.day >= 0
  {
    Spelling(d, true, TwoDigits)
  }

  lemma MonthFieldOf(month: int, width: nat, rest: string)
    requires 1 <= month <= 12 && (width == 2 || (width == 1 && month < 10))
    ensures MonthField(ToDigits(month, width) + "-" + rest) == Some((month, width))
  {
    var t := ToDigits(month, width) + "-" + rest;
    assert Pow10(2) == 100;
    FromToDigits(month, width);
    assert t[..width] == ToDigits(month, width);
  }

  lemma DayFieldOf(day: int, style: DayStyle)
    requires 1 <= day <= 31 && (style == TwoDigits || day < 10)
    ensures DayField(DayText(day, style)) == Some(day)
  {
    assert Pow10(2) == 100;
    match style {
      case TwoDigits =>
        FromToDigits(day, 2);
      case OneDigit =>
        FromToDigits(day, 1);
      case SpacePadded =>
        FromToDigits(day, 1);
        assert DayText(day, style)[1..] == ToDigits(day, 1);
    }
  }

  lemma ParseMonthDayOf(d: Date, wideMonth: bool, style: DayStyle, s: string)
    requires Valid(d) && Admissible(d, wideMonth, style)
    ensures ParseMonthDay(d.year, ToDigits(d.month, if wideMonth then 2 else 1) + "-" + DayText(d.day, style), s) == Success(d)
  {
    var width := if wideMonth then 2 else 1;
    var ds := DayText(d.day, style);
    var t := ToDigits(d.month, width) + "-" + ds;
    MonthFieldOf(d.month, width, ds);
    assert t[width + 1..] == ds;
    DayFieldOf(d.day, style);
  }

  /** Every spelling of every valid date parses back to that date. */
  lemma ParseSpelling(d: Date, wideMonth: bool, style: DayStyle)
    requires Valid(d) && Admissible(d, wideMonth, style)
    ensures ParseDate(Spelling(d, wideMonth, style)) == Success(d)
  {
    var rest := ToDigits(d.month, if wideMonth then 2 else 1) + "-" + DayText(d.day, style);
    var s := Spelling(d, wideMonth, style);
    assert s == ToDigits(d.year, 4) + "-" + rest;
    assert s[..4] == ToDigits(d.year, 4) && s[4] == '-' && s[5..] == rest;
    assert Pow10(4) == 10000;
    FromToDigits(d.year, 4);
    ParseMonthDayOf(d, wideMonth, style, s);
  }

  lemma DayStyleOf(u: string) returns (style: DayStyle)
    requires DayField(u).Some?
    ensures var day := DayField(u).value;
      u == DayText(day, style) && (style == TwoDigits || day < 10)
  {
    assert Pow10(1) == 10;
    if |u| == 2 && AllDigits(u) && 1 <= FromDigits(u) <= 31 {
      style := TwoDigits;
      ToFromDigits(u);
    } else if |u| == 1 && AllDigits(u) && 1 <= FromDigits(u) {
      style := OneDigit;
      ToFromDigits(u);
    } else {
      style := SpacePadded;
      ToFromDigits(u[1..]);
      assert u == " " + u[1..];
    }
  }

  /** What ParseMonthDay read to produce its date. */
  lemma MonthDayValues(year: int, t: string, s: string)
    requires ParseMonthDay(year, t, s).Success?
    ensures MonthField(t).Some?
    ensures var d := ParseMonthDay(year, t, s).value;
      var width := MonthField(t).value.1;
      && MonthField(t).value.0 == d.month
      && DayField(t[width + 1..]) == Some(d.day)
  {
  }

  /** What ParseMonthDay accepts is the month in `width` digits, '-' and a
      day field u. */
  lemma MonthDayFields(year: int, t: string, s: string) returns (width: nat, u: string)
    requires ParseMonthDay(year, t, s).Success?
    ensures var d := ParseMonthDay(year, t, s).value;
      && (width == 2 || (width == 1 && d.month < 10))
      && DayField(u) == Some(d.day)
      && t == ToDigits(d.month, width) + "-" + u
  {
    MonthDayValues(year, t, s);
    var month := MonthField(t).value.0;
    width := MonthField(t).value.1;
    u := t[width + 1..];
    assert Pow10(1) == 10;
    ToFromDigits(t[..width]);
    assert ToDigits(month, width) == t[..width];
    assert t == t[..width] + "-" + u;
  }

  /** A text that parses is the year in four digits, '-', the month in
      `width` digits, '-' and a day field u. */
  lemma ParsedFields(s: string) returns (width: nat, u: string)
    requires ParseDate(s).Success?
    ensures var d := ParseDate(s).value;
      && (width == 2 || (width == 1 && d.month < 10))
      && DayField(u) == Some(d.day)
      && s == ToDigits(d.year, 4) + "-" + ToDigits(d.month, width) + "-" + u
  {
    width, u := MonthDayFields(FromDigits(s[..4]), s[5..], s);
    ToFromDigits(s[..4]);
    assert s == s[..4] + "-" + s[5..];
  }

  /** Every text that parses is a spelling of the date it parses to, so no
      other text parses: "2023-13-01", "2023-02-30" and "2023-1-5 " fail. */
  lemma ParsedIsSpelling(s: string)
    requires ParseDate(s).Success?
    ensures var d := ParseDate(s).value;
      exists wideMonth, style :: Admissible(d, wideMonth, style) && s == Spelling(d, wideMonth, style)
  {
    var d := ParseDate(s).value;
    var width, u := ParsedFields(s);
    var style := DayStyleOf(u);
    assert Admissible(d, width == 2, style);
    assert s == Spelling(d, width == 2, style);
  }
}
