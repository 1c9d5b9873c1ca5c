/**
 The connector's calendar arithmetic, against the plain count of days: the sum of the lengths of the
 years since 1970, of the months since January, and the day of the month.
 Leap years follow Appendix C of RFC 3339.
 */
module Calendar {
  // ---------- The reference ----------

  predicate IsLeap(y: int) {
    y % 4 == 0 && (y % 100 != 0 || y % 400 == 0)
  }

  function YearLength(y: int): int {
    if IsLeap(y) then 366 else 365
  }

  function MonthLength(y: int, m: int): int
    requires 1 <= m <= 12
  {
    if m == 2 then (if IsLeap(y) then 29 else 28)
    else if m in {4, 6, 9, 11} then 30
    else 31
  }

  predicate ValidDate(y: int, m: int, d: int) {
    1 <= m <= 12 && 1 <= d <= MonthLength(y, m)
  }

  /** Days from 1 January 1970 to 1 January of year y, negative before 1970. */
  function DaysBeforeYear(y: int): int
    decreases if y < 1970 then 1970 - y else y - 1970
  {
    if y == 1970 then 0
    else if y > 1970 then DaysBeforeYear(y - 1) + YearLength(y - 1)
    else DaysBeforeYear(y + 1) - YearLength(y)
  }

  function DaysBeforeMonth(y: int, m: int): int
    requires 1 <= m <= 13
  {
    if m == 1 then 0 else DaysBeforeMonth(y, m - 1) + MonthLength(y, m - 1)
  }

  function CountDays(y: int, m: int, d: int): int
    requires ValidDate(y, m, d)
  {
    DaysBeforeYear(y) + DaysBeforeMonth(y, m) + d - 1
  }

  predicate Earlier(y: int, m: int, d: int, y': int, m': int, d': int) {
    y < y' || (y == y' && (m < m' || (m == m' && d < d')))
  }

  // ---------- The code, with Rust's division, which truncates toward zero ----------

  function TruncDiv(a: int, b: int): int
    requires b > 0
  {
    if a >= 0 then a / b else -(-a / b)
  }

  function DaysFromCivil(year: int, m: int, d: int): int {
    var y := if m <= 2 then year - 1 else year;
    var era := TruncDiv(if y >= 0 then y else y - 399, 400);
    var yoe := y - era * 400;
    var doy := TruncDiv(153 * (if m > 2 then m - 3 else m + 9) + 2, 5) + d - 1;
    var doe := yoe * 365 + TruncDiv(yoe, 4) - TruncDiv(yoe, 100) + doy;
    era * 146097 + doe - 719468
  }

  function YearOfEra(doe: int): int {
    TruncDiv(doe - TruncDiv(doe, 1460) + TruncDiv(doe, 36524) - TruncDiv(doe, 146096), 365)
  }

  function CivilFromDays(n: int): (int, int, int) {
    var days := n + 719468;
    var era := TruncDiv(if days >= 0 then days else days - 146096, 146097);
    CivilInEra(era, days - era * 146097)
  }

  /** The part of civil_from_days after the era and the day of the era are known. */
  function CivilInEra(era: int, doe: int): (int, int, int) {
    var yoe := YearOfEra(doe);
    var doy := doe - (365 * yoe + TruncDiv(yoe, 4) - TruncDiv(yoe, 100));
    var mp := TruncDiv(5 * doy + 2, 153);
    var d := doy - TruncDiv(153 * mp + 2, 5) + 1;
    var m := if mp < 10 then mp + 3 else mp - 9;
    var y := if mp < 10 then yoe + era * 400 else yoe + era * 400 + 1;
    (y, m, d)
  }

  // ---------- days_from_civil counts days ----------

  /** Years counted from March: the days before the March year y. */
  function MarchYearDays(y: int): int {
    365 * y + y / 4 - y / 100 + y / 400
  }

  /** Days from 1 March to the first of month m, in the code's linear form. */
  function MonthOffset(m: int): int {
    (153 * (if m > 2 then m - 3 else m + 9) + 2) / 5
  }

  lemma EraSplit(y: int)
    ensures var era := TruncDiv(if y >= 0 then y else y - 399, 400);
            era == y / 400 && y - era * 400 == y % 400
  {
  }

  lemma DaysFromCivilClosed(y: int, m: int, d: int)
    requires 1 <= m <= 12
    ensures DaysFromCivil(y, m, d) == MarchYearDays(if m <= 2 then y - 1 else y) + MonthOffset(m) + d - 1 - 719468
  {
    var y' := if m <= 2 then y - 1 else y;
    EraSplit(y');
    var yoe := y' % 400;
    assert y' / 4 == 100 * (y' / 400) + yoe / 4;
    assert y' / 100 == 4 * (y' / 400) + yoe / 100;
  }

  lemma MarchYearStep(y: int)
    ensures MarchYearDays(y) == MarchYearDays(y - 1) + YearLength(y)
  {
    QuotientStep(y, 4);
    QuotientStep(y, 100);
    QuotientStep(y, 400);
    Multiples(y);
  }

  lemma Multiples(y: int)
    ensures y % 100 == 0 ==> y % 4 == 0
    ensures y % 400 == 0 ==> y % 100 == 0
  {
    if y % 100 == 0 {
      assert y == 4 * (25 * (y / 100));
    }
    if y % 400 == 0 {
      assert y == 100 * (4 * (y / 400));
    }
  }

  lemma QuotientStep(y: int, k: int)
    requires k in {4, 100, 400}
    ensures y / k == (y - 1) / k + (if y % k == 0 then 1 else 0)
  {
  }

  lemma {:induction false} NewYear(y: int)
    ensures DaysBeforeYear(y) == MarchYearDays(y - 1) + 306 - 719468
    decreases if y < 1970 then 1970 - y else y - 1970
  {
    if y > 1970 {
      NewYear(y - 1);
      MarchYearStep(y - 1);
    } else if y < 1970 {
      NewYear(y + 1);
      MarchYearStep(y);
    }
  }

  lemma {:induction false} MonthStart(y: int, m: int)
    requires 1 <= m <= 12
    ensures DaysBeforeMonth(y, m) ==
            if m <= 2 then MonthOffset(m) - 306 else YearLength(y) - 365 + 59 + MonthOffset(m)
  {
    assert MonthOffset(1) == 306 && MonthOffset(2) == 337 && MonthOffset(3) == 0 && MonthOffset(4) == 31;
    assert MonthOffset(5) == 61 && MonthOffset(6) == 92 && MonthOffset(7) == 122 && MonthOffset(8) == 153;
    assert MonthOffset(9) == 184 && MonthOffset(10) == 214 && MonthOffset(11) == 245 && MonthOffset(12) == 275;
    if m > 1 {
      MonthStart(y, m - 1);
    }
  }

  /** For every valid date of every year the algorithm's number is the plain count of days since the epoch. */
  lemma CountsDays(y: int, m: int, d: int)
    requires ValidDate(y, m, d)
    ensures DaysFromCivil(y, m, d) == CountDays(y, m, d)
  {
    DaysFromCivilClosed(y, m, d);
    NewYear(y);
    MonthStart(y, m);
    MarchYearStep(y);
  }

  // ---------- Order ----------

  lemma {:induction false} YearsApart(y: int, y': int)
    requires y < y'
    ensures DaysBeforeYear(y) + YearLength(y) <= DaysBeforeYear(y')
    decreases y' - y
  {
    NewYear(y);
    NewYear(y + 1);
    MarchYearStep(y);
    if y + 1 < y' {
      YearsApart(y + 1, y');
    }
  }

  lemma {:induction false} MonthsApart(y: int, m: int, m': int)
    requires 1 <= m < m' <= 13
    ensures DaysBeforeMonth(y, m) + MonthLength(y, m) <= DaysBeforeMonth(y, m')
    decreases m' - m
  {
    if m + 1 < m' {
      MonthsApart(y, m, m' - 1);
    }
  }

  lemma YearFits(y: int, m: int, d: int)
    requires ValidDate(y, m, d)
    ensures 0 <= DaysBeforeMonth(y, m) + d - 1 < YearLength(y)
  {
    MonthStart(y, m);
  }

  /** The day number is strictly monotone in (year, month, day). */
  lemma StrictlyMonotone(y: int, m: int, d: int, y': int, m': int, d': int)
    requires ValidDate(y, m, d) && ValidDate(y', m', d')
    requires Earlier(y, m, d, y', m', d')
    ensures DaysFromCivil(y, m, d) < DaysFromCivil(y', m', d')
  {
    CountsDays(y, m, d);
    CountsDays(y', m', d');
    YearFits(y, m, d);
    YearFits(y', m', d');
    if y < y' {
      YearsApart(y, y');
    } else if m < m' {
      MonthsApart(y, m, m');
    }
  }

  // ---------- civil_from_days is the inverse ----------

  /** A day of the 400-year era as century, four-year cycle, year and day of the year. */
  lemma EraParts(doe: int) returns (c: int, q: int, r: int, doy: int)
    requires 0 <= doe <= 146096
    ensures 0 <= c <= 3 && 0 <= q <= 24 && 0 <= r <= 3 && 0 <= doy <= 365
    ensures doe == 36524 * c + 1461 * q + 365 * r + doy
    ensures doy == 365 ==> r == 3 && (q < 24 || c == 3)
  {
    c := if doe == 146096 then 3 else doe / 36524;
    var a := doe - 36524 * c;
    q := a / 1461;
    var b := a - 1461 * q;
    r := if b == 1460 then 3 else b / 365;
    doy := b - 365 * r;
  }

  lemma YearOfEraCorrect(doe: int, c: int, q: int, r: int, doy: int)
    requires 0 <= c <= 3 && 0 <= q <= 24 && 0 <= r <= 3 && 0 <= doy <= 365
    requires doe == 36524 * c + 1461 * q + 365 * r + doy
    requires doy == 365 ==> r == 3 && (q < 24 || c == 3)
    ensures YearOfEra(doe) == 100 * c + 4 * q + r
  {
    var yoe := 100 * c + 4 * q + r;
    assert doe / 146096 == if doe == 146096 then 1 else 0;
    assert doe / 36524 == if doe == 146096 then 4 else c;
    var s := doe / 1460;
    assert 365 * yoe <= doe - s + doe / 36524 - doe / 146096 < 365 * (yoe + 1);
  }

  lemma MonthOfDay(doy: int)
    requires 0 <= doy <= 365
    ensures var mp := TruncDiv(5 * doy + 2, 153);
            0 <= mp <= 11 && (153 * mp + 2) / 5 <= doy && (mp < 11 ==> doy < (153 * (mp + 1) + 2) / 5)
  {
  }

  /** The year of the era and the zero-based day of the March year that the code recovers. */
  lemma EraDay(doe: int)
    requires 0 <= doe <= 146096
    ensures var yoe := YearOfEra(doe);
            var doy := doe - (365 * yoe + yoe / 4 - yoe / 100);
            0 <= yoe <= 399 && 0 <= doy <= 365 && (doy == 365 ==> IsLeap(yoe + 1))
  {
    var c, q, r, doy := EraParts(doe);
    YearOfEraCorrect(doe, c, q, r, doy);
    var yoe := 100 * c + 4 * q + r;
    assert yoe / 100 == c;
    assert yoe / 4 == 25 * c + q;
    if doy == 365 {
      assert yoe + 1 == 4 * (25 * c + q + 1);
      if q == 24 {
        assert yoe + 1 == 400;
      } else {
        assert (yoe + 1) % 100 == 4 * (q + 1);
      }
    }
  }

  lemma Shifted4(a: int, y: int)
    ensures (4 * a + y) % 4 == y % 4
  {
  }

  lemma Shifted100(a: int, y: int)
    ensures (100 * a + y) % 100 == y % 100
  {
  }

  lemma Shifted400(a: int, y: int)
    ensures (400 * a + y) % 400 == y % 400
  {
  }

  lemma LeapByEra(era: int, y: int)
    ensures IsLeap(era * 400 + y) == IsLeap(y)
  {
    Shifted400(era, y);
    Shifted100(4 * era, y);
    Shifted4(100 * era, y);
    assert era * 400 + y == 100 * (4 * era) + y == 4 * (100 * era) + y;
  }

  lemma MarchDays(era: int, yoe: int)
    requires 0 <= yoe <= 399
    ensures MarchYearDays(yoe + era * 400) == era * 146097 + 365 * yoe + yoe / 4 - yoe / 100
  {
    var march := yoe + era * 400;
    assert march / 400 == era;
    assert march / 100 == 4 * era + yoe / 100;
    assert march / 4 == 100 * era + yoe / 4;
  }

  /** The month and day the code reads off a zero-based day of the March year. */
  lemma MarchDate(doy: int) returns (m: int, d: int)
    requires 0 <= doy <= 365
    ensures var mp := TruncDiv(5 * doy + 2, 153);
            m == (if mp < 10 then mp + 3 else mp - 9) && d == doy - TruncDiv(153 * mp + 2, 5) + 1
            && (mp < 10 <==> m > 2)
    ensures 1 <= m <= 12 && d == doy - MonthOffset(m) + 1 && MonthOffset(m) <= doy
    ensures m != 2 ==> doy < MonthOffset(if m == 12 then 1 else m + 1)
  {
    MonthOfDay(doy);
    var mp := TruncDiv(5 * doy + 2, 153);
    m := if mp < 10 then mp + 3 else mp - 9;
    d := doy - MonthOffset(m) + 1;
  }

  lemma EraOfDays(n: int)
    ensures CivilFromDays(n) == CivilInEra((n + 719468) / 146097, (n + 719468) % 146097)
  {
    var days := n + 719468;
    assert TruncDiv(if days >= 0 then days else days - 146096, 146097) == days / 146097;
  }

  lemma MarchDayNumber(era: int, yoe: int, doy: int, m: int, d: int)
    requires 0 <= yoe <= 399 && 0 <= doy <= 365 && (doy == 365 ==> IsLeap(yoe + 1))
    requires 1 <= m <= 12 && d == doy - MonthOffset(m) + 1 && MonthOffset(m) <= doy
    requires m != 2 ==> doy < MonthOffset(if m == 12 then 1 else m + 1)
    ensures var y := if m > 2 then yoe + era * 400 else yoe + era * 400 + 1;
            ValidDate(y, m, d)
            && DaysFromCivil(y, m, d) == era * 146097 + 365 * yoe + yoe / 4 - yoe / 100 + doy - 719468
  {
    var y := if m > 2 then yoe + era * 400 else yoe + era * 400 + 1;
    LeapByEra(era, yoe + 1);
    assert era * 400 + (yoe + 1) == yoe + era * 400 + 1;
    DayFits(y, m, doy);
    DaysFromCivilClosed(y, m, d);
    MarchDays(era, yoe);
  }

  lemma DateInEra(era: int, doe: int, m: int, d: int)
    requires var doy := doe - (365 * YearOfEra(doe) + YearOfEra(doe) / 4 - YearOfEra(doe) / 100);
             var mp := TruncDiv(5 * doy + 2, 153);
             m == (if mp < 10 then mp + 3 else mp - 9) && d == doy - TruncDiv(153 * mp + 2, 5) + 1
             && (mp < 10 <==> m > 2)
    requires YearOfEra(doe) >= 0
    ensures CivilInEra(era, doe)
         == (if m > 2 then YearOfEra(doe) + era * 400 else YearOfEra(doe) + era * 400 + 1, m, d)
  {
    hide YearOfEra;
  }

  /** civil_from_days always gives a valid date, and days_from_civil takes it back. */
  lemma CivilThenDays(n: int)
    ensures var (y, m, d) := CivilFromDays(n);
            ValidDate(y, m, d) && DaysFromCivil(y, m, d) == n
  {
    hide DaysFromCivil, CivilFromDays, CivilInEra, YearOfEra;
    var era := (n + 719468) / 146097;
    var doe := (n + 719468) % 146097;
    EraDay(doe);
    var yoe := YearOfEra(doe);
    var doy := doe - (365 * yoe + yoe / 4 - yoe / 100);
    var m, d := MarchDate(doy);
    EraOfDays(n);
    DateInEra(era, doe, m, d);
    MarchDayNumber(era, yoe, doy, m, d);
  }

  lemma DayFits(y: int, m: int, doy: int)
    requires 1 <= m <= 12 && MonthOffset(m) <= doy <= 365
    requires m != 2 ==> doy < MonthOffset(if m == 12 then 1 else m + 1)
    requires m == 2 && doy == 365 ==> IsLeap(y)
    ensures ValidDate(y, m, doy - MonthOffset(m) + 1)
  {
  }

  /** On valid dates civil_from_days undoes days_from_civil. */
  lemma DaysThenCivil(y: int, m: int, d: int)
    requires ValidDate(y, m, d)
    ensures CivilFromDays(DaysFromCivil(y, m, d)) == (y, m, d)
  {
    var n := DaysFromCivil(y, m, d);
    CivilThenDays(n);
    var (y', m', d') := CivilFromDays(n);
    if Earlier(y, m, d, y', m', d') {
      StrictlyMonotone(y, m, d, y', m', d');
    } else if Earlier(y', m', d', y, m, d) {
      StrictlyMonotone(y', m', d', y, m, d);
    }
  }
}
