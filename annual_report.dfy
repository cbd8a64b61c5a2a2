/** The date window and upload key of the annual report job. */
module AnnualReport {
  import opened Types
  import opened JsNumber
  import opened LexOrder
  import opened MonthlyReport

  /** From `<year>-01-01` up to `<year+1>-01-01`, half-open. */
  function AnnualWindow(year: int): (w: Window)
    ensures w.start == MonthStart(year, 1) && w.end == MonthStart(year + 1, 1)
  {
    JanuaryStart(year);
    JanuaryStart(year + 1);
    Window(FormatInt(year) + "-01-01", FormatInt(year + 1) + "-01-01")
  }

  /** `annual-reports/<year>/report.csv`. */
  function AnnualKey(year: int): string
  {
    "annual-reports/" + FormatInt(year) + "/report.csv"
  }

  /** Consecutive years abut. */
  lemma YearsTile(year: int)
    ensures AnnualWindow(year).end == AnnualWindow(year + 1).start
  {
  }

  /** The year's window runs from the start of January to the end of December. */
  lemma YearIsJanuaryToDecember(year: int)
    ensures AnnualWindow(year).start == MonthlyWindow(year, 1).start
    ensures AnnualWindow(year).end == MonthlyWindow(year, 12).end
  {
  }

  /** For a four-digit year the window is non-empty. */
  lemma AnnualStartBeforeEnd(year: int)
    requires 1000 <= year && year + 1 <= 9999
    ensures LexLt(AnnualWindow(year).start, AnnualWindow(year).end)
  {
    YearStartOrder(year, 1, 1);
  }

  /** Each month starts within the year's window... */
  lemma MonthStartInsideYear(year: int, m: int)
    requires 1 <= m <= 12
    ensures LexLe(AnnualWindow(year).start, MonthlyWindow(year, m).start)
  {
    if m > 1 {
      MonthStartOrder(year, 1, m);
      LexLtIsStrict(MonthStart(year, 1), MonthStart(year, m));
    } else {
      LexLeReflexive(MonthStart(year, 1));
    }
  }

  /** ...and ends no later than the year does. */
  lemma MonthEndInsideYear(year: int, m: int)
    requires 1 <= m <= 12 && 1000 <= year && year + 1 <= 9999
    ensures LexLe(MonthlyWindow(year, m).end, AnnualWindow(year).end)
  {
    var e := MonthStart(year + 1, 1);
    if m < 12 {
      assert MonthlyWindow(year, m).end == MonthStart(year, m + 1);
      YearStartOrder(year, m + 1, 1);
      LexLtIsStrict(MonthStart(year, m + 1), e);
    } else {
      LexLeReflexive(e);
    }
  }

  /** A date of the year lies in some month from `m` on, once it is past that month's start. */
  lemma {:induction false} SomeMonthFrom(d: Date, year: int, m: int)
    requires 1 <= m <= 12
    requires LexLe(MonthStart(year, m), d) && LexLt(d, AnnualWindow(year).end)
    ensures exists k :: m <= k <= 12 && InWindow(d, MonthlyWindow(year, k))
    decreases 12 - m
  {
    if m == 12 || LexLt(d, MonthlyWindow(year, m).end) {
      assert InWindow(d, MonthlyWindow(year, m));
    } else {
      LexLeTotal(d, MonthStart(year, m + 1));
      SomeMonthFrom(d, year, m + 1);
    }
  }

  predicate InMonth(d: Date, year: int, m: int)
  {
    1 <= m <= 12 && InWindow(d, MonthlyWindow(year, m))
  }

  /** The twelve monthly windows cover the year's window exactly: a date is in
      the year iff it is in one of its months, and then in only one. */
  lemma YearIsUnionOfMonths(d: Date, year: int)
    requires 1000 <= year && year + 1 <= 9999
    ensures InWindow(d, AnnualWindow(year)) <==> exists m :: InMonth(d, year, m)
    ensures forall a, b :: InMonth(d, year, a) && InMonth(d, year, b) ==> a == b
  {
    if InWindow(d, AnnualWindow(year)) {
      SomeMonthFrom(d, year, 1);
      var k :| 1 <= k <= 12 && InWindow(d, MonthlyWindow(year, k));
      assert InMonth(d, year, k);
    }
    forall m | InMonth(d, year, m)
      ensures InWindow(d, AnnualWindow(year))
    {
      MonthStartInsideYear(year, m);
      MonthEndInsideYear(year, m);
      LexLeTransitive(AnnualWindow(year).start, MonthlyWindow(year, m).start, d);
      LexLtLeTransitive(d, MonthlyWindow(year, m).end, AnnualWindow(year).end);
    }
    forall a, b | InMonth(d, year, a) && InMonth(d, year, b)
      ensures a == b
    {
      AtMostOneMonth(d, year, a, b);
    }
  }

  /** Distinct years are uploaded under distinct keys. */
  lemma AnnualKeyInjective(y1: int, y2: int)
    requires AnnualKey(y1) == AnnualKey(y2)
    ensures y1 == y2
  {
    var k1, k2 := AnnualKey(y1), AnnualKey(y2);
    assert |FormatInt(y1)| == |FormatInt(y2)|;
    assert k1[15..15 + |FormatInt(y1)|] == FormatInt(y1);
    assert k2[15..15 + |FormatInt(y2)|] == FormatInt(y2);
    FormatIntInjective(y1, y2);
  }
}
