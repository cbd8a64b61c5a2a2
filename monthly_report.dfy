/** The date window and upload key of the monthly report job. Dates are ISO
    `YYYY-MM-DD` text; for four-digit years their code-point order is the
    calendar order the database compares by. */
module MonthlyReport {
  import opened Types
  import opened JsNumber
  import opened LexOrder
  import opened Sorting

  /** The half-open window `[start, end)` the report's queries select by. */
  datatype Window = Window(start: Date, end: Date)

  /** `date >= start AND date < end`. */
  predicate InWindow(d: Date, w: Window)
  {
    LexLe(w.start, d) && LexLt(d, w.end)
  }

  /** `<year>-<MM>-01`. */
  function MonthStart(year: int, month: int): Date
  {
    FormatInt(year) + "-" + Pad2(month) + "-01"
  }

  /** January starts on `<year>-01-01`. */
  lemma JanuaryStart(year: int)
    ensures MonthStart(year, 1) == FormatInt(year) + "-01-01"
  {
    Pad2Digits(1);
    var y := FormatInt(year);
    assert Pad2(1) == "01";
    assert y + "-" + "01" + "-01" == y + "-01-01";
  }

  /** The window of one month: from its first day up to the first day of the
      next month, which for December is January of the next year. */
  function MonthlyWindow(year: int, month: int): (w: Window)
    ensures w.start == MonthStart(year, month)
    ensures month != 12 ==> w.end == MonthStart(year, month + 1)
    ensures month == 12 ==> w.end == MonthStart(year + 1, 1)
  {
    var startDate := FormatInt(year) + "-" + Pad2(month) + "-01";
    var endDate :=
      if month == 12 then FormatInt(year + 1) + "-01-01"
      else FormatInt(year) + "-" + Pad2(month + 1) + "-01";
    JanuaryStart(year + 1);
    Window(startDate, endDate)
  }

  /** The orders of the window, by order date. */
  function OrdersIn(orders: seq<Order>, w: Window): (r: seq<Order>)
    ensures forall o :: o in r <==> o in orders && InWindow(o.orderDate, w)
    ensures forall o :: multiset(r)[o] == if InWindow(o.orderDate, w) then multiset(orders)[o] else 0
  {
    Filter(orders, (o: Order) => InWindow(o.orderDate, w))
  }

  /** The maintenance reports of the window, by report date. */
  function ReportsIn(reports: seq<MaintenanceReport>, w: Window): (r: seq<MaintenanceReport>)
    ensures forall m :: m in r <==> m in reports && InWindow(m.reportDate, w)
    ensures forall m :: multiset(r)[m] == if InWindow(m.reportDate, w) then multiset(reports)[m] else 0
  {
    Filter(reports, (m: MaintenanceReport) => InWindow(m.reportDate, w))
  }

  /** `monthly-reports/<year>/<MM>/report.csv`. */
  function MonthlyKey(year: int, month: int): string
  {
    "monthly-reports/" + FormatInt(year) + "/" + Pad2(month) + "/report.csv"
  }

  /** What the job does with its arguments: a month outside 1..12 ends the
      process with exit code 1 before any database access; otherwise the
      report is generated for the month's window and uploaded under its key. */
  datatype Plan = Exit(code: int) | Generate(window: Window, key: string)

  function MonthlyPlan(year: int, month: int): (p: Plan)
    ensures p.Exit? <==> month < 1 || month > 12
    ensures p.Exit? ==> p.code == 1
    ensures p.Generate? ==> p.window == MonthlyWindow(year, month) && p.key == MonthlyKey(year, month)
  {
    if month < 1 || month > 12 then Exit(1)
    else Generate(MonthlyWindow(year, month), MonthlyKey(year, month))
  }

  // ---------------------------------------------------------------------
  // Order facts about the date text.

  /** A four-digit year is written with four digits. */
  lemma FourDigits(n: int)
    requires 1000 <= n <= 9999
    ensures |FormatInt(n)| == 4
  {
    assert |FormatNat(n / 1000)| == 1;
    assert |FormatNat(n / 100)| == 2;
    assert |FormatNat(n / 10)| == 3;
  }

  /** Numbers written with the same number of digits sort as text in numeric order. */
  lemma {:induction false} FormatNatOrder(a: nat, b: nat)
    requires a < b && |FormatNat(a)| == |FormatNat(b)|
    ensures LexLt(FormatNat(a), FormatNat(b))
    decreases b
  {
    if b < 10 {
      assert LexLt([DigitChar(a)], [DigitChar(b)]) by {
        assert [DigitChar(b)][0] > [DigitChar(a)][0];
      }
    } else {
      assert |FormatNat(b)| == |FormatNat(b / 10)| + 1;
      assert a >= 10;
      var ha, hb := FormatNat(a / 10), FormatNat(b / 10);
      assert FormatNat(a) == ha + [DigitChar(a % 10)];
      assert FormatNat(b) == hb + [DigitChar(b % 10)];
      if a / 10 < b / 10 {
        FormatNatOrder(a / 10, b / 10);
        LexLtEqualLength(ha, hb, [DigitChar(a % 10)], [DigitChar(b % 10)]);
      } else {
        assert ha == hb;
        LexLeCommonPrefix(ha, [DigitChar(b % 10)], [DigitChar(a % 10)]);
        assert !LexLe([DigitChar(b % 10)], [DigitChar(a % 10)]);
      }
    }
  }

  /** Two-digit month numbers sort as text in numeric order. */
  lemma Pad2Order(a: int, b: int)
    requires 0 <= a < b < 100
    ensures |Pad2(a)| == |Pad2(b)| == 2 && LexLt(Pad2(a), Pad2(b))
  {
    Pad2Digits(a);
    Pad2Digits(b);
    var qa, ra, qb, rb := a / 10, a % 10, b / 10, b % 10;
    assert a == 10 * qa + ra && b == 10 * qb + rb;
    assert qa < qb || (qa == qb && ra < rb);
    TwoCharOrder(DigitChar(qa), DigitChar(ra), DigitChar(qb), DigitChar(rb));
  }

  /** Text with a common head and tail sorts by what differs between them. */
  lemma LexLtBetween(p: string, x: string, y: string, s: string)
    requires |x| == |y| && LexLt(x, y)
    ensures LexLt(p + x + s, p + y + s)
  {
    LexLtEqualLength(x, y, s, s);
    LexLeCommonPrefix(p, y + s, x + s);
    assert p + x + s == p + (x + s);
    assert p + y + s == p + (y + s);
  }

  /** Equal texts made of the same head and tail around two parts, the
      second of the same length on both sides, have the same parts. */
  lemma SameParts(p: string, x1: string, y1: string, x2: string, y2: string, s: string)
    requires |y1| == |y2|
    requires p + x1 + "/" + y1 + s == p + x2 + "/" + y2 + s
    ensures x1 == x2 && y1 == y2
  {
    var k1, k2 := p + x1 + "/" + y1 + s, p + x2 + "/" + y2 + s;
    assert |x1| == |x2|;
    assert k1[|p|..|p| + |x1|] == x1;
    assert k2[|p|..|p| + |x2|] == x2;
    assert k1[|p| + |x1| + 1..|p| + |x1| + 1 + |y1|] == y1;
    assert k2[|p| + |x2| + 1..|p| + |x2| + 1 + |y2|] == y2;
  }

  /** Later months of the same year start later. */
  lemma MonthStartOrder(year: int, a: int, b: int)
    requires 0 <= a < b < 100
    ensures LexLt(MonthStart(year, a), MonthStart(year, b))
  {
    Pad2Order(a, b);
    LexLtBetween(FormatInt(year) + "-", Pad2(a), Pad2(b), "-01");
  }

  /** A four-digit year sorts before the next one, written with as many digits. */
  lemma NextYearOrder(year: int)
    requires 1000 <= year && year + 1 <= 9999
    ensures |FormatInt(year)| == |FormatInt(year + 1)| && LexLt(FormatInt(year), FormatInt(year + 1))
  {
    FourDigits(year);
    FourDigits(year + 1);
    FormatNatOrder(year, year + 1);
  }

  /** Later four-digit years start later, whatever the months. */
  lemma YearStartOrder(year: int, a: int, b: int)
    requires 1000 <= year && year + 1 <= 9999
    ensures LexLt(MonthStart(year, a), MonthStart(year + 1, b))
  {
    NextYearOrder(year);
    MonthStartSplit(year, a);
    MonthStartSplit(year + 1, b);
    LexLtEqualLength(FormatInt(year), FormatInt(year + 1), MonthTail(a), MonthTail(b));
  }

  /** What follows the year in a month's first day: `-MM-01`. */
  function MonthTail(month: int): string
  {
    "-" + Pad2(month) + "-01"
  }

  lemma MonthStartSplit(year: int, month: int)
    ensures MonthStart(year, month) == FormatInt(year) + MonthTail(month)
  {
  }

  // ---------------------------------------------------------------------
  // Properties of the windows.

  /** Consecutive months abut: each window ends where the next one starts,
      across the turn of the year too. */
  lemma MonthsTile(year: int, month: int)
    requires 1 <= month <= 12
    ensures month < 12 ==> MonthlyWindow(year, month).end == MonthlyWindow(year, month + 1).start
    ensures month == 12 ==> MonthlyWindow(year, 12).end == MonthlyWindow(year + 1, 1).start
  {
  }

  /** For a four-digit year every window is non-empty: its start sorts before its end. */
  lemma StartBeforeEnd(year: int, month: int)
    requires 1 <= month <= 12 && 1000 <= year && year + 1 <= 9999
    ensures LexLt(MonthlyWindow(year, month).start, MonthlyWindow(year, month).end)
  {
    if month < 12 {
      MonthStartOrder(year, month, month + 1);
    } else {
      YearStartOrder(year, 12, 1);
    }
  }

  /** A date falls in at most one month of a year: the windows do not overlap. */
  lemma {:induction false} AtMostOneMonth(d: Date, year: int, a: int, b: int)
    requires 1 <= a <= 12 && 1 <= b <= 12
    requires InWindow(d, MonthlyWindow(year, a)) && InWindow(d, MonthlyWindow(year, b))
    ensures a == b
  {
    if a < b {
      if a + 1 < b {
        MonthStartOrder(year, a + 1, b);
        LexLtIsStrict(MonthStart(year, a + 1), MonthStart(year, b));
        LexLeTransitive(MonthStart(year, a + 1), MonthStart(year, b), d);
      }
      LexLtIsStrict(d, MonthStart(year, a + 1));
      LexLeTransitive(MonthStart(year, a + 1), d, MonthStart(year, a + 1));
    } else if b < a {
      AtMostOneMonth(d, year, b, a);
    }
  }

  /** Distinct months (or years) are uploaded under distinct keys. */
  lemma MonthlyKeyInjective(y1: int, m1: int, y2: int, m2: int)
    requires 1 <= m1 <= 12 && 1 <= m2 <= 12
    requires MonthlyKey(y1, m1) == MonthlyKey(y2, m2)
    ensures y1 == y2 && m1 == m2
  {
    ParseIntPad2(m1);
    ParseIntPad2(m2);
    SameParts("monthly-reports/", FormatInt(y1), Pad2(m1), FormatInt(y2), Pad2(m2), "/report.csv");
    FormatIntInjective(y1, y2);
  }
}
