/** The calendar spine `dim_date` of the gold layer: one row per month start
    in a date range (`pd.date_range(start, end, freq="MS")`), labelled with
    `strftime("%b %Y")`, the year, the month number and `strftime("%B")`. */
module DimDate {
  import opened PyStr
  import opened Calendar

  datatype DateRow = DateRow(date: Date, monthId: string, year: int, month: int, monthName: string)

  const RangeStart := Date(2023, 1, 1)
  const RangeEnd := Date(2025, 12, 31)

  /** Index of the first month start on or after `start`. */
  function FirstMonthIndex(start: Date): int {
    if start.day <= 1 then MonthIndex(start.year, start.month) else MonthIndex(start.year, start.month) + 1
  }

  /** `pd.date_range(start, end, freq="MS")`: the month starts from `start`
      to `end`, both included. */
  function MonthStartRange(start: Date, end: Date): (r: seq<Date>)
    ensures forall i :: 0 <= i < |r| ==> r[i] == MonthStart(FirstMonthIndex(start) + i)
  {
    var lo := FirstMonthIndex(start);
    var hi := MonthIndex(end.year, end.month);
    var n := if lo <= hi then hi - lo + 1 else 0;
    seq(n, i requires 0 <= i < n => MonthStart(lo + i))
  }

  /** On first days of months, the calendar order is the order of month
      indices. */
  lemma MonthStartOrder(a: Date, b: Date)
    requires 1 <= a.month <= 12 && 1 <= b.month <= 12 && a.day == 1 && b.day == 1
    ensures Before(a, b) <==> MonthIndex(a.year, a.month) < MonthIndex(b.year, b.month)
    ensures a == b <==> MonthIndex(a.year, a.month) == MonthIndex(b.year, b.month)
  {
  }

  /** A first of month `d` is on or after a calendar day `start` exactly when
      its index reaches the first month start's index, and on or before a
      calendar day `end` exactly when its index does not pass `end`'s month. */
  lemma WithinBounds(start: Date, end: Date, d: Date)
    requires IsCalendarDay(start) && IsCalendarDay(end)
    requires 1 <= d.month <= 12 && d.day == 1
    ensures NotAfter(start, d) <==> FirstMonthIndex(start) <= MonthIndex(d.year, d.month)
    ensures NotAfter(d, end) <==> MonthIndex(d.year, d.month) <= MonthIndex(end.year, end.month)
  {
  }

  /** The range holds exactly the first days of months between `start` and
      `end`, each once, in increasing order. */
  lemma MonthStartRangeSpec(start: Date, end: Date)
    requires IsCalendarDay(start) && IsCalendarDay(end)
    ensures var r := MonthStartRange(start, end);
      forall d :: d in r <==> 1 <= d.month <= 12 && d.day == 1 && NotAfter(start, d) && NotAfter(d, end)
    ensures var r := MonthStartRange(start, end);
      forall i, j :: 0 <= i < j < |r| ==> Before(r[i], r[j])
    ensures var r := MonthStartRange(start, end);
      forall i :: 0 <= i < |r| - 1 ==>
        MonthIndex(r[i + 1].year, r[i + 1].month) == MonthIndex(r[i].year, r[i].month) + 1
  {
    var r := MonthStartRange(start, end);
    var lo := FirstMonthIndex(start);
    var hi := MonthIndex(end.year, end.month);
    assert |r| == if lo <= hi then hi - lo + 1 else 0;
    assert forall i :: 0 <= i < |r| ==> r[i] == MonthStart(lo + i);
    forall d ensures d in r <==> 1 <= d.month <= 12 && d.day == 1 && NotAfter(start, d) && NotAfter(d, end) {
      if 1 <= d.month <= 12 && d.day == 1 {
        WithinBounds(start, end, d);
        var k := MonthIndex(d.year, d.month);
        if lo <= k <= hi {
          MonthStartOrder(d, r[k - lo]);
          assert r[k - lo] == d;
        }
      }
      if d in r {
        var i :| 0 <= i < |r| && r[i] == d;
        WithinBounds(start, end, d);
      }
    }
    forall i, j | 0 <= i < j < |r| ensures Before(r[i], r[j]) {
      MonthStartOrder(r[i], r[j]);
    }
    forall i | 0 <= i < |r| - 1
      ensures MonthIndex(r[i + 1].year, r[i + 1].month) == MonthIndex(r[i].year, r[i].month) + 1
    {
    }
  }

  /** One row of `dim_date`. */
  function DateRowOf(d: Date): DateRow
    requires 1 <= d.month <= 12
  {
    DateRow(d, MonthAbbr(d.month) + " " + IntToStr(d.year), d.year, d.month, MonthName(d.month))
  }

  /** `dim_date`, from 2023-01-01 to 2025-12-31. */
  function DimDateTable(): seq<DateRow> {
    var ds := MonthStartRange(RangeStart, RangeEnd);
    seq(|ds|, i requires 0 <= i < |ds| => DateRowOf(ds[i]))
  }

  /** `dim_date` has 36 rows: row `i` is the first day of month `i % 12 + 1`
      of year `2023 + i / 12`; its year, month, name and "Mon YYYY" label are
      those of its date. */
  lemma DimDateSpec()
    ensures |DimDateTable()| == 36
    ensures forall i :: 0 <= i < 36 ==> DimDateTable()[i].date == Date(2023 + i / 12, i % 12 + 1, 1)
    ensures forall i :: 0 <= i < 36 ==>
      var row := DimDateTable()[i];
      && row.year == row.date.year && row.month == row.date.month
      && 1 <= row.month <= 12
      && row.monthName == MonthName(row.month)
      && row.monthId == MonthAbbr(row.month) + " " + IntToStr(row.year)
  {
    var t := DimDateTable();
    var ds := MonthStartRange(RangeStart, RangeEnd);
    assert FirstMonthIndex(RangeStart) == 24276;
    assert MonthIndex(RangeEnd.year, RangeEnd.month) == 24311;
    assert |ds| == 36;
    forall i | 0 <= i < 36 ensures t[i].date == Date(2023 + i / 12, i % 12 + 1, 1) {
      var k := 24276 + i;
      assert t[i].date == ds[i] == MonthStart(k);
      assert k == 12 * (2023 + i / 12) + i % 12;
      assert k / 12 == 2023 + i / 12;
      assert k % 12 == i % 12;
    }
  }

  /** `dim_date` starts at January 2023, ends at December 2025, and is
      strictly increasing and contiguous: each row is the month after the
      previous one. */
  lemma DimDateBounds()
    ensures DimDateTable()[0].date == Date(2023, 1, 1)
    ensures DimDateTable()[35].date == Date(2025, 12, 1)
    ensures forall i, j :: 0 <= i < j < |DimDateTable()| ==> Before(DimDateTable()[i].date, DimDateTable()[j].date)
    ensures forall i :: 0 <= i < |DimDateTable()| - 1 ==>
      var a := DimDateTable()[i].date;
      var b := DimDateTable()[i + 1].date;
      MonthIndex(b.year, b.month) == MonthIndex(a.year, a.month) + 1
  {
    DimDateSpec();
    MonthStartRangeSpec(RangeStart, RangeEnd);
  }

  lemma YearText(y: nat)
    requires 1000 <= y <= 9999
    ensures IntToStr(y) == [DigitChar(y / 1000), DigitChar(y / 100 % 10), DigitChar(y / 10 % 10), DigitChar(y % 10)]
  {
    assert NatToStr(y / 1000) == [DigitChar(y / 1000)];
    assert NatToStr(y / 100) == NatToStr(y / 1000) + [DigitChar(y / 100 % 10)];
    assert NatToStr(y / 10) == NatToStr(y / 100) + [DigitChar(y / 10 % 10)];
  }

  /** The first label is "Jan 2023" and the last is "Dec 2025". */
  lemma DimDateLabels()
    ensures DimDateTable()[0].monthId == "Jan 2023" && DimDateTable()[0].monthName == "January"
    ensures DimDateTable()[35].monthId == "Dec 2025" && DimDateTable()[35].monthName == "December"
  {
    var t := DimDateTable();
    DimDateSpec();
    assert t[0].date == Date(2023, 1, 1) && t[35].date == Date(2025, 12, 1);
    YearText(2023);
    YearText(2025);
    assert IntToStr(2023) == "2023" && IntToStr(2025) == "2025";
    assert MonthAbbr(1) == "Jan" && MonthAbbr(12) == "Dec";
  }
}
