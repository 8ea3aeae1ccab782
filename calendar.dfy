/** Calendar dates as pandas handles them: proleptic Gregorian dates inside
    the range of a nanosecond `Timestamp`, the string parser behind
    `pd.to_datetime` for "Y-MM-DD" text, and the English month names that
    `strftime("%B")` and `strftime("%b")` produce. */
module Calendar {
  import opened Wrappers
  import opened PyStr

  datatype Date = Date(year: int, month: int, day: int)

  /** Why `pd.to_datetime` raised. */
  datatype DateError =
    | Unparsable(text: string)   // not "Y-MM-DD", or no such calendar day
    | OutOfBounds(text: string)  // a real day outside the Timestamp range

  predicate IsLeapYear(y: int) {
    y % 4 == 0 && (y % 100 != 0 || y % 400 == 0)
  }

  function DaysInMonth(y: int, m: int): int
    requires 1 <= m <= 12
  {
    if m == 2 then (if IsLeapYear(y) then 29 else 28)
    else if m == 4 || m == 6 || m == 9 || m == 11 then 30
    else 31
  }

  predicate IsCalendarDay(d: Date) {
    1 <= d.month <= 12 && 1 <= d.day <= DaysInMonth(d.year, d.month)
  }

  /** Lexicographic order of (year, month, day). */
  predicate Before(a: Date, b: Date) {
    a.year < b.year
    || (a.year == b.year && (a.month < b.month || (a.month == b.month && a.day < b.day)))
  }

  predicate NotAfter(a: Date, b: Date) {
    a == b || Before(a, b)
  }

  /** `pd.Timestamp.min` is 1677-09-21 00:12:43.145224193, so the first
      midnight inside the range is 1677-09-22; `pd.Timestamp.max` is
      2262-04-11 23:47:16.854775807, so 2262-04-11 is the last one. */
  const FirstTimestampDay := Date(1677, 9, 22)
  const LastTimestampDay := Date(2262, 4, 11)

  predicate InTimestampRange(d: Date) {
    NotAfter(FirstTimestampDay, d) && NotAfter(d, LastTimestampDay)
  }

  /** `pd.to_datetime` on text of the shape "<digits>-<2 digits>-<2 digits>":
      a day that exists and lies in the Timestamp range; text of any other
      shape does not parse. */
  function ToDatetime(s: string): Result<Date, DateError>
  {
    ScanYear(s, 0, 0)
  }

  /** Reads the year digits from position `i` on; `year` is the value of the
      digits read so far. */
  function ScanYear(s: string, i: nat, year: nat): Result<Date, DateError>
    requires i <= |s|
    decreases |s| - i
  {
    if i < |s| && IsDigit(s[i]) then ScanYear(s, i + 1, year * 10 + DigitValue(s[i]))
    else if i == 0 || |s| != i + 6 || s[i] != '-' || s[i + 3] != '-'
            || !IsDigit(s[i + 1]) || !IsDigit(s[i + 2]) || !IsDigit(s[i + 4]) || !IsDigit(s[i + 5])
    then Failure(Unparsable(s))
    else
      var month := 10 * DigitValue(s[i + 1]) + DigitValue(s[i + 2]);
      var day := 10 * DigitValue(s[i + 4]) + DigitValue(s[i + 5]);
      CheckDate(Date(year, month, day), s)
  }

  /** A parsed (year, month, day) must name an existing day inside the
      Timestamp range. */
  function CheckDate(d: Date, s: string): (r: Result<Date, DateError>)
    ensures r.Success? <==> IsCalendarDay(d) && InTimestampRange(d)
    ensures r.Success? ==> r.value == d
  {
    if !IsCalendarDay(d) then Failure(Unparsable(s))
    else if !InTimestampRange(d) then Failure(OutOfBounds(s))
    else Success(d)
  }

  /** Scanning over a run of digits accumulates their value. */
  lemma {:induction false} ScanYearDigits(s: string, i: nat, n: nat)
    requires i <= n <= |s|
    requires AllDigits(s[..n])
    requires n < |s| ==> !IsDigit(s[n])
    ensures ScanYear(s, i, DigitsValue(s[..i])) == ScanYear(s, n, DigitsValue(s[..n]))
    decreases n - i
  {
    assert forall k :: 0 <= k < i ==> s[..n][k] == s[..i][k];
    if i < n {
      assert s[..i + 1][..i] == s[..i];
      assert IsDigit(s[..n][i]);
      ScanYearDigits(s, i + 1, n);
    }
  }

  /** Text of the shape "<one or more digits>-<2 digits>-<2 digits>". */
  predicate IsDateText(s: string) {
    && |s| >= 7
    && (forall k :: 0 <= k < |s| - 6 ==> IsDigit(s[k]))
    && s[|s| - 6] == '-' && s[|s| - 3] == '-'
    && IsDigit(s[|s| - 5]) && IsDigit(s[|s| - 4]) && IsDigit(s[|s| - 2]) && IsDigit(s[|s| - 1])
  }

  /** The (year, month, day) such text spells, field by field. */
  function TextDate(s: string): Date
    requires IsDateText(s)
  {
    Date(DigitsValue(s[..|s| - 6]),
         10 * DigitValue(s[|s| - 5]) + DigitValue(s[|s| - 4]),
         10 * DigitValue(s[|s| - 2]) + DigitValue(s[|s| - 1]))
  }

  /** The run of digits that starts at position `i` ends at `n`. */
  lemma {:induction false} DigitRun(s: string, i: nat) returns (n: nat)
    requires i <= |s|
    ensures i <= n <= |s|
    ensures forall k :: i <= k < n ==> IsDigit(s[k])
    ensures n < |s| ==> !IsDigit(s[n])
    decreases |s| - i
  {
    if i < |s| && IsDigit(s[i]) {
      n := DigitRun(s, i + 1);
    } else {
      n := i;
    }
  }

  /** `pd.to_datetime` on one cell: text "<digits>-<2 digits>-<2 digits>"
      naming an existing day inside the Timestamp range gives that day; a
      real day outside the range raises OutOfBoundsDatetime; anything else
      does not parse. */
  lemma ToDatetimeSpec(s: string)
    ensures ToDatetime(s).Success? <==>
      IsDateText(s) && IsCalendarDay(TextDate(s)) && InTimestampRange(TextDate(s))
    ensures ToDatetime(s).Success? ==> ToDatetime(s).value == TextDate(s)
    ensures ToDatetime(s).Failure? ==>
      ToDatetime(s).error == if IsDateText(s) && IsCalendarDay(TextDate(s)) then OutOfBounds(s) else Unparsable(s)
  {
    var n := DigitRun(s, 0);
    assert s[..0] == [];
    assert AllDigits(s[..n]);
    ScanYearDigits(s, 0, n);
    assert IsDateText(s) ==> n == |s| - 6;
    assert IsDateText(s) ==> s[..n] == s[..|s| - 6];
  }

  // ----- months -----

  /** Months counted from year 0: consecutive months have consecutive indices. */
  function MonthIndex(year: int, month: int): int {
    year * 12 + (month - 1)
  }

  /** The first day of the month with index `i`. */
  function MonthStart(i: int): (d: Date)
    ensures 1 <= d.month <= 12 && d.day == 1
    ensures MonthIndex(d.year, d.month) == i
  {
    Date(i / 12, i % 12 + 1, 1)
  }

  const MonthNames: seq<string> := ["January", "February", "March", "April", "May", "June",
    "July", "August", "September", "October", "November", "December"]

  /** `strftime("%B")` in the C / English locale. */
  function MonthName(m: int): string
    requires 1 <= m <= 12
  {
    MonthNames[m - 1]
  }

  /** `strftime("%b")`: the first three letters of the month's name. */
  function MonthAbbr(m: int): (r: string)
    requires 1 <= m <= 12
    ensures |r| == 3 && r == MonthName(m)[..3]
  {
    MonthNames[m - 1][..3]
  }
}
