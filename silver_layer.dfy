/** The silver layer: each bronze table is copied, `year` and `month` are cast
    to integers, `date` becomes the first day of (year, month), and
    `department` and `category` are stripped and title-cased. Expenses and
    budgets receive exactly the same treatment. */
module SilverLayer {
  import opened Wrappers
  import opened PyStr
  import opened Calendar
  import opened BronzeLayer

  datatype SilverExpense = SilverExpense(
    projectCode: string, year: int, month: int, date: Date,
    department: string, category: string, currency: string, amountLocal: real)

  datatype SilverBudget = SilverBudget(
    projectCode: string, year: int, month: int, date: Date,
    department: string, category: string, budgetEur: real)

  /** Why the silver run aborts. */
  datatype SilverError = NotAnInteger(cell: RawValue) | BadDate(reason: DateError)

  // ----- per-value operations -----

  /** Truncation toward zero, as a float-to-integer cast does. */
  function TruncateTowardZero(x: real): (i: int)
    ensures x >= 0.0 ==> i as real <= x < i as real + 1.0
    ensures x < 0.0 ==> i as real - 1.0 < x <= i as real
  {
    if x >= 0.0 then x.Floor else -((-x).Floor)
  }

  /** `astype(int)` on one cell: integers pass, floats are truncated toward
      zero, text goes through `int(text)`, and a missing value raises. */
  function AsInt(v: RawValue): (r: Result<int, SilverError>)
    ensures v.IntValue? ==> r == Success(v.i)
    ensures v.FloatValue? ==> r.Success? && -1.0 < v.x - r.value as real < 1.0
    ensures v.FloatValue? && v.x >= 0.0 ==> r.value as real <= v.x
    ensures v.FloatValue? && v.x < 0.0 ==> v.x <= r.value as real
    ensures v.TextValue? ==> (r.Success? <==> IsIntText(Strip(v.text)))
    ensures v.TextValue? && r.Success? ==> Some(r.value) == ParseInt(v.text)
    ensures v.NaN? ==> r.Failure?
  {
    match v
    case IntValue(i) => Success(i)
    case FloatValue(x) => Success(TruncateTowardZero(x))
    case NaN => Failure(NotAnInteger(v))
    case TextValue(t) =>
      ParseIntSpec(t);
      match ParseInt(t)
      case Some(i) => Success(i)
      case None => Failure(NotAnInteger(v))
  }

  /** The text handed to `pd.to_datetime`: `str(year) + "-" +
      str(month).zfill(2) + "-01"`. */
  function DateText(year: int, month: int): string {
    IntToStr(year) + "-" + ZFill(IntToStr(month), 2) + "-01"
  }

  function FirstOfMonth(year: int, month: int): Result<Date, SilverError> {
    match ToDatetime(DateText(year, month))
    case Success(d) => Success(d)
    case Failure(e) => Failure(BadDate(e))
  }

  /** `.str.strip().str.title()` on one cell. */
  function CleanText(s: string): string {
    Title(Strip(s))
  }

  // ----- properties of the per-value operations -----

  /** Parsing "<year digits>-<z>-01": the year is the value of the digits,
      and the month field must be two digits. */
  lemma ScanDateText(t: string, z: string)
    requires |t| >= 1 && AllDigits(t)
    ensures var s := t + "-" + z + "-01";
      ToDatetime(s) ==
        if |z| == 2 && IsDigit(z[0]) && IsDigit(z[1])
        then CheckDate(Date(DigitsValue(t), DigitsValue(z), 1), s)
        else Failure(Unparsable(s))
  {
    var s := t + "-" + z + "-01";
    var n := |t|;
    assert ToDatetime(s) == ScanYear(s, n, DigitsValue(t)) by {
      assert s[..n] == t && s[n] == '-';
      assert s[..0] == [];
      ScanYearDigits(s, 0, n);
    }
    ScanAfterYear(s, n, DigitsValue(t), z);
  }

  lemma ScanAfterYear(s: string, n: nat, year: nat, z: string)
    requires 1 <= n < |s| && s == s[..n] + "-" + z + "-01"
    ensures ScanYear(s, n, year) ==
      if |z| == 2 && IsDigit(z[0]) && IsDigit(z[1])
      then CheckDate(Date(year, DigitsValue(z), 1), s)
      else Failure(Unparsable(s))
  {
    assert s[n] == '-';
    if |z| == 2 {
      assert s[n + 1] == z[0] && s[n + 2] == z[1];
      assert s[n + 3] == '-' && s[n + 4] == '0' && s[n + 5] == '1';
      if IsDigit(z[0]) && IsDigit(z[1]) {
        var hi := z[..1];
        assert hi[..0] == [] && hi[0] == z[0];
        assert DigitsValue(hi) == DigitValue(z[0]);
        assert z[..|z| - 1] == hi;
        assert DigitsValue(z) == 10 * DigitValue(z[0]) + DigitValue(z[1]);
      }
    } else {
      assert |s| != n + 6;
    }
  }

  /** `str(month).zfill(2)` is two digits denoting the month exactly when the
      month is 0..99. */
  lemma MonthTextSpec(month: int)
    ensures var z := ZFill(IntToStr(month), 2);
      (|z| == 2 && IsDigit(z[0]) && IsDigit(z[1])) <==> 0 <= month < 100
    ensures 0 <= month < 100 ==> DigitsValue(ZFill(IntToStr(month), 2)) == month
  {
    var z := ZFill(IntToStr(month), 2);
    if month < 0 {
      NatToStrDigits(-month);
      assert z == IntToStr(month) && z[0] == '-';
    } else if month < 10 {
      NatToStrDigits(month);
      assert z == "0" + NatToStr(month);
      assert z[..1] == "0";
    } else if month < 100 {
      NatToStrDigits(month);
      assert z == NatToStr(month);
    } else {
      NatToStrDigits(month);
    }
  }

  /** The date derived from (year, month) is the first day of that month; it
      exists exactly when the month is 1..12 and that day lies inside the
      Timestamp range, and otherwise the run aborts. */
  lemma FirstOfMonthSpec(year: int, month: int)
    ensures FirstOfMonth(year, month).Success? <==>
      1 <= month <= 12 && InTimestampRange(Date(year, month, 1))
    ensures FirstOfMonth(year, month).Success? ==> FirstOfMonth(year, month).value == Date(year, month, 1)
  {
    var z := ZFill(IntToStr(month), 2);
    var s := DateText(year, month);
    if year < 0 {
      assert s[0] == '-';
    } else {
      NatToStrDigits(year);
      ScanDateText(NatToStr(year), z);
      MonthTextSpec(month);
    }
  }

  /** Cleaning a cleaned value changes nothing. */
  lemma CleanTextIdempotent(s: string)
    ensures CleanText(CleanText(s)) == CleanText(s)
  {
    var t := Strip(s);
    var a, b := StripSpec(s);
    TitleKeepsClasses(t);
    var u := Title(t);
    assert NoOuterSpace(u);
    StripNoOuterSpace(u);
    TitleIdempotent(t);
  }

  /** A cleaned value is the title-cased text between the first and the last
      non-whitespace character, and it starts and ends with no whitespace. */
  lemma CleanTextSpec(s: string) returns (a: nat, b: nat)
    ensures a <= b <= |s| && CleanText(s) == Title(s[a..b])
    ensures forall k :: 0 <= k < a ==> IsSpace(s[k])
    ensures forall k :: b <= k < |s| ==> IsSpace(s[k])
    ensures NoOuterSpace(CleanText(s))
  {
    a, b := StripSpec(s);
    TitleKeepsClasses(Strip(s));
  }

  /** " ops " is cleaned to "Ops". */
  lemma CleanTextOps()
    ensures CleanText(" ops ") == "Ops"
  {
    assert LStrip(" ops ") == "ops ";
    assert RStrip("ops ") == "ops";
    assert TitleFrom("s", true) == "s";
    assert TitleFrom("ps", true) == "ps";
    assert TitleFrom("ops", false) == "Ops";
  }

  /** "travel" is cleaned to "Travel". */
  lemma CleanTextTravel()
    ensures CleanText("travel") == "Travel"
  {
    StripNoOuterSpace("travel");
    assert TitleFrom("l", true) == "l";
    assert TitleFrom("el", true) == "el";
    assert TitleFrom("vel", true) == "vel";
    assert TitleFrom("avel", true) == "avel";
    assert TitleFrom("ravel", true) == "ravel";
    assert TitleFrom("travel", false) == "Travel";
  }

  // ----- whole columns -----

  /** `astype(int)` on a column: every cell is cast, or the first cell that
      cannot be cast aborts the run. */
  function CastColumn(cells: seq<RawValue>): (r: Result<seq<int>, SilverError>)
    ensures r.Success? <==> forall k :: 0 <= k < |cells| ==> AsInt(cells[k]).Success?
    ensures r.Success? ==>
      |r.value| == |cells| && forall k :: 0 <= k < |cells| ==> r.value[k] == AsInt(cells[k]).value
    decreases |cells|
  {
    if cells == [] then Success([])
    else
      var init :- CastColumn(cells[..|cells| - 1]);
      var last :- AsInt(cells[|cells| - 1]);
      Success(init + [last])
  }

  /** The date text column: `year.astype(str) + "-" +
      month.astype(str).str.zfill(2) + "-01"`. */
  function TextColumn(years: seq<int>, months: seq<int>): (r: seq<string>)
    requires |years| == |months|
    ensures |r| == |years|
  {
    seq(|years|, k requires 0 <= k < |years| => DateText(years[k], months[k]))
  }

  /** `pd.to_datetime` on a text column: every cell parses, or the first
      cell that does not aborts the run. */
  function ParseColumn(texts: seq<string>): (r: Result<seq<Date>, SilverError>)
    ensures r.Success? <==> forall k :: 0 <= k < |texts| ==> ToDatetime(texts[k]).Success?
    ensures r.Success? ==>
      |r.value| == |texts| && forall k :: 0 <= k < |texts| ==> r.value[k] == ToDatetime(texts[k]).value
    decreases |texts|
  {
    if texts == [] then Success([])
    else
      var init :- ParseColumn(texts[..|texts| - 1]);
      match ToDatetime(texts[|texts| - 1])
      case Failure(e) => Failure(BadDate(e))
      case Success(d) => Success(init + [d])
  }

  /** A row whose period fields cast to a real month inside the Timestamp
      range. */
  predicate ValidPeriod(year: RawValue, month: RawValue) {
    && AsInt(year).Success? && AsInt(month).Success?
    && 1 <= AsInt(month).value <= 12
    && InTimestampRange(Date(AsInt(year).value, AsInt(month).value, 1))
  }

  /** The date column parses exactly when every (year, month) is a month
      inside the Timestamp range, and then holds the first days of those
      months. */
  lemma DateColumnSpec(years: seq<int>, months: seq<int>)
    requires |years| == |months|
    ensures ParseColumn(TextColumn(years, months)).Success? <==>
      forall k :: 0 <= k < |years| ==> 1 <= months[k] <= 12 && InTimestampRange(Date(years[k], months[k], 1))
    ensures ParseColumn(TextColumn(years, months)).Success? ==>
      forall k :: 0 <= k < |years| ==> ParseColumn(TextColumn(years, months)).value[k] == Date(years[k], months[k], 1)
  {
    var texts := TextColumn(years, months);
    forall k | 0 <= k < |years|
      ensures ToDatetime(texts[k]).Success? <==> 1 <= months[k] <= 12 && InTimestampRange(Date(years[k], months[k], 1))
      ensures ToDatetime(texts[k]).Success? ==> ToDatetime(texts[k]).value == Date(years[k], months[k], 1)
    {
      FirstOfMonthSpec(years[k], months[k]);
    }
  }

  /** The three period steps on a frame's `year` and `month` cells:
      `astype(int)` on each column, then the date column. */
  function PeriodColumns(yearCells: seq<RawValue>, monthCells: seq<RawValue>)
    : Result<(seq<int>, seq<int>, seq<Date>), SilverError>
    requires |yearCells| == |monthCells|
  {
    var years :- CastColumn(yearCells);
    var months :- CastColumn(monthCells);
    var dates :- ParseColumn(TextColumn(years, months));
    Success((years, months, dates))
  }

  /** The period steps succeed exactly when every row has a valid period; then
      row k holds the cast year and month and the first day of that month. */
  lemma PeriodColumnsSpec(yearCells: seq<RawValue>, monthCells: seq<RawValue>)
    requires |yearCells| == |monthCells|
    ensures PeriodColumns(yearCells, monthCells).Success? <==>
      forall k :: 0 <= k < |yearCells| ==> ValidPeriod(yearCells[k], monthCells[k])
    ensures PeriodColumns(yearCells, monthCells).Success? ==>
      var p := PeriodColumns(yearCells, monthCells).value;
      && |p.0| == |p.1| == |p.2| == |yearCells|
      && forall k :: 0 <= k < |yearCells| ==>
           && p.0[k] == AsInt(yearCells[k]).value && p.1[k] == AsInt(monthCells[k]).value
           && p.2[k] == Date(p.0[k], p.1[k], 1)
  {
    var ys := CastColumn(yearCells);
    var ms := CastColumn(monthCells);
    if ys.Success? && ms.Success? {
      DateColumnSpec(ys.value, ms.value);
    }
  }

  /** silver_expenses: the copied frame with `year`, `month`, `date`,
      `department` and `category` overwritten, one column after the other.
      The run aborts unless every row has a valid period; then each row keeps
      its position, its period becomes integers and the first day of that
      month, its text keys are cleaned, and every other column is unchanged. */
  function CleanExpenses(rows: seq<BronzeExpense>): (r: Result<seq<SilverExpense>, SilverError>)
    ensures r.Success? <==> forall k :: 0 <= k < |rows| ==> ValidPeriod(rows[k].year, rows[k].month)
    ensures r.Success? ==> |r.value| == |rows| && forall k :: 0 <= k < |rows| ==>
      var e, s := rows[k], r.value[k];
      && s.year == AsInt(e.year).value && s.month == AsInt(e.month).value
      && s.date == Date(s.year, s.month, 1)
      && s.department == CleanText(e.department) && s.category == CleanText(e.category)
      && s.projectCode == e.projectCode && s.currency == e.currency && s.amountLocal == e.amountLocal
  {
    var yearCells := seq(|rows|, k requires 0 <= k < |rows| => rows[k].year);
    var monthCells := seq(|rows|, k requires 0 <= k < |rows| => rows[k].month);
    assert forall k :: 0 <= k < |rows| ==> yearCells[k] == rows[k].year && monthCells[k] == rows[k].month;
    PeriodColumnsSpec(yearCells, monthCells);
    var p :- PeriodColumns(yearCells, monthCells);
    var years, months, dates := p.0, p.1, p.2;
    Success(seq(|rows|, k requires 0 <= k < |rows| =>
      SilverExpense(rows[k].projectCode, years[k], months[k], dates[k],
        CleanText(rows[k].department), CleanText(rows[k].category),
        rows[k].currency, rows[k].amountLocal)))
  }

  /** silver_budgets: the same steps as for expenses, on the budget frame. */
  function CleanBudgets(rows: seq<BronzeBudget>): (r: Result<seq<SilverBudget>, SilverError>)
    ensures r.Success? <==> forall k :: 0 <= k < |rows| ==> ValidPeriod(rows[k].year, rows[k].month)
    ensures r.Success? ==> |r.value| == |rows| && forall k :: 0 <= k < |rows| ==>
      var b, s := rows[k], r.value[k];
      && s.year == AsInt(b.year).value && s.month == AsInt(b.month).value
      && s.date == Date(s.year, s.month, 1)
      && s.department == CleanText(b.department) && s.category == CleanText(b.category)
      && s.projectCode == b.projectCode && s.budgetEur == b.budgetEur
  {
    var yearCells := seq(|rows|, k requires 0 <= k < |rows| => rows[k].year);
    var monthCells := seq(|rows|, k requires 0 <= k < |rows| => rows[k].month);
    assert forall k :: 0 <= k < |rows| ==> yearCells[k] == rows[k].year && monthCells[k] == rows[k].month;
    PeriodColumnsSpec(yearCells, monthCells);
    var p :- PeriodColumns(yearCells, monthCells);
    var years, months, dates := p.0, p.1, p.2;
    Success(seq(|rows|, k requires 0 <= k < |rows| =>
      SilverBudget(rows[k].projectCode, years[k], months[k], dates[k],
        CleanText(rows[k].department), CleanText(rows[k].category), rows[k].budgetEur)))
  }

  // ----- properties of the two cleaned tables -----

  /** Expenses and budgets are cleaned alike: an expense row and a budget row
      with the same raw project code, period and text keys end up with the
      same join key (date, project_code, department, category). */
  lemma CleaningIsSymmetric(expenses: seq<BronzeExpense>, budgets: seq<BronzeBudget>, i: nat, j: nat)
    requires CleanExpenses(expenses).Success? && CleanBudgets(budgets).Success?
    requires i < |expenses| && j < |budgets|
    requires var e, b := expenses[i], budgets[j];
      && e.projectCode == b.projectCode && e.year == b.year && e.month == b.month
      && e.department == b.department && e.category == b.category
    ensures var e, b := CleanExpenses(expenses).value[i], CleanBudgets(budgets).value[j];
      && e.date == b.date && e.projectCode == b.projectCode
      && e.department == b.department && e.category == b.category
  {
  }

  /** A silver expense row as bronze would hold it: integer period cells. */
  function AsBronzeExpense(s: SilverExpense): BronzeExpense {
    BronzeExpense(s.projectCode, IntValue(s.year), IntValue(s.month),
      s.department, s.category, s.currency, s.amountLocal)
  }

  function AsBronzeBudget(s: SilverBudget): BronzeBudget {
    BronzeBudget(s.projectCode, IntValue(s.year), IntValue(s.month),
      s.department, s.category, s.budgetEur)
  }

  /** Integer period cells that name a month inside the Timestamp range are a
      valid period. */
  lemma ValidIntPeriod(year: int, month: int)
    requires 1 <= month <= 12 && InTimestampRange(Date(year, month, 1))
    ensures ValidPeriod(IntValue(year), IntValue(month))
  {
  }

  lemma SilverExpensePeriodValid(rows: seq<BronzeExpense>, k: nat)
    requires CleanExpenses(rows).Success? && k < |rows|
    ensures var s := CleanExpenses(rows).value[k]; ValidPeriod(IntValue(s.year), IntValue(s.month))
  {
    var s := CleanExpenses(rows).value[k];
    assert ValidPeriod(rows[k].year, rows[k].month);
    ValidIntPeriod(s.year, s.month);
  }

  lemma SilverBudgetPeriodValid(rows: seq<BronzeBudget>, k: nat)
    requires CleanBudgets(rows).Success? && k < |rows|
    ensures var s := CleanBudgets(rows).value[k]; ValidPeriod(IntValue(s.year), IntValue(s.month))
  {
    var s := CleanBudgets(rows).value[k];
    assert ValidPeriod(rows[k].year, rows[k].month);
    ValidIntPeriod(s.year, s.month);
  }

  /** Cleaning is idempotent: running the silver steps again on silver
      expenses changes nothing (not the period, not the date, not the text
      keys). */
  lemma CleanExpensesIdempotent(rows: seq<BronzeExpense>)
    requires CleanExpenses(rows).Success?
    ensures var out := CleanExpenses(rows).value;
      CleanExpenses(seq(|out|, k requires 0 <= k < |out| => AsBronzeExpense(out[k]))) == Success(out)
  {
    var out := CleanExpenses(rows).value;
    var again := seq(|out|, k requires 0 <= k < |out| => AsBronzeExpense(out[k]));
    assert CleanExpenses(again).Success? by {
      forall k | 0 <= k < |out| ensures ValidPeriod(again[k].year, again[k].month) {
        SilverExpensePeriodValid(rows, k);
      }
    }
    var out2 := CleanExpenses(again).value;
    forall k | 0 <= k < |out| ensures out2[k] == out[k] {
      assert again[k] == AsBronzeExpense(out[k]);
      assert out2[k].year == out[k].year && out2[k].month == out[k].month;
      CleanTextIdempotent(rows[k].department);
      CleanTextIdempotent(rows[k].category);
    }
    assert out2 == out;
  }

  /** The same idempotence for budgets. */
  lemma CleanBudgetsIdempotent(rows: seq<BronzeBudget>)
    requires CleanBudgets(rows).Success?
    ensures var out := CleanBudgets(rows).value;
      CleanBudgets(seq(|out|, k requires 0 <= k < |out| => AsBronzeBudget(out[k]))) == Success(out)
  {
    var out := CleanBudgets(rows).value;
    var again := seq(|out|, k requires 0 <= k < |out| => AsBronzeBudget(out[k]));
    assert CleanBudgets(again).Success? by {
      forall k | 0 <= k < |out| ensures ValidPeriod(again[k].year, again[k].month) {
        SilverBudgetPeriodValid(rows, k);
      }
    }
    var out2 := CleanBudgets(again).value;
    forall k | 0 <= k < |out| ensures out2[k] == out[k] {
      assert again[k] == AsBronzeBudget(out[k]);
      assert out2[k].year == out[k].year && out2[k].month == out[k].month;
      CleanTextIdempotent(rows[k].department);
      CleanTextIdempotent(rows[k].category);
    }
    assert out2 == out;
  }
}
