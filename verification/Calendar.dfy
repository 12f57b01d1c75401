/** Day numbers and civil dates, for log timestamps. */
module Calendar {

  // ------------------------------------------------- the calendar, by its rules

  datatype Date = Date(year: int, month: int, day: int)

  predicate IsLeap(year: int) {
    year % 4 == 0 && (year % 100 != 0 || year % 400 == 0)
  }

  function DaysInMonth(year: int, month: int): int {
    if month == 2 then (if IsLeap(year) then 29 else 28)
    else if month == 4 || month == 6 || month == 9 || month == 11 then 30
    else 31
  }

  predicate Valid(date: Date) {
    1 <= date.month <= 12 && 1 <= date.day <= DaysInMonth(date.year, date.month)
  }

  function NextDate(date: Date): Date {
    if date.day < DaysInMonth(date.year, date.month) then date.(day := date.day + 1)
    else if date.month < 12 then Date(date.year, date.month + 1, 1)
    else Date(date.year + 1, 1, 1)
  }

  /** Leap years before `year`, counted from year 1 on (negative before that). */
  function LeapsBefore(year: int): int {
    (year - 1) / 4 - (year - 1) / 100 + (year - 1) / 400
  }

  lemma LeapsBeforeCounts(year: int)
    ensures LeapsBefore(year + 1) == LeapsBefore(year) + if IsLeap(year) then 1 else 0
  {
    NextQuotient(year - 1, 4);
    NextQuotient(year - 1, 100);
    NextQuotient(year - 1, 400);
    LeapByCenturies(year);
  }

  /** Every fourth year, without every hundredth, but with every four-hundredth. */
  lemma LeapByCenturies(year: int)
    ensures (if IsLeap(year) then 1 else 0)
            == (if year % 4 == 0 then 1 else 0) - (if year % 100 == 0 then 1 else 0) + (if year % 400 == 0 then 1 else 0)
  {
    FactorDivides(year, 4, 100);
    FactorDivides(year, 100, 400);
  }

  lemma FactorDivides(n: int, k: int, multiple: int)
    requires (k == 4 && multiple == 100) || (k == 100 && multiple == 400)
    ensures n % multiple == 0 ==> n % k == 0
  {
    if n % multiple == 0 {
      var q := n / multiple;
      if k == 4 {
        assert n == 4 * (25 * q);
      } else {
        assert n == 100 * (4 * q);
      }
    }
  }

  lemma NextQuotient(n: int, k: int)
    requires k == 4 || k == 100 || k == 400
    ensures (n + 1) / k == n / k + if (n + 1) % k == 0 then 1 else 0
  {}

  function DaysBeforeMonth(year: int, month: int): int
    requires 1 <= month <= 13
    decreases month
  {
    if month == 1 then 0 else DaysBeforeMonth(year, month - 1) + DaysInMonth(year, month - 1)
  }

  /** Days from 1970-01-01 to a date: whole years, leap days, whole months, days. */
  function DayNumber(date: Date): int
    requires 1 <= date.month <= 12
  {
    365 * (date.year - 1970) + LeapsBefore(date.year) - LeapsBefore(1970)
    + DaysBeforeMonth(date.year, date.month) + date.day - 1
  }

  lemma MonthTable(year: int)
    ensures var l := if IsLeap(year) then 1 else 0;
            && DaysBeforeMonth(year, 1) == 0 && DaysBeforeMonth(year, 2) == 31
            && DaysBeforeMonth(year, 3) == 59 + l && DaysBeforeMonth(year, 4) == 90 + l
            && DaysBeforeMonth(year, 5) == 120 + l && DaysBeforeMonth(year, 6) == 151 + l
            && DaysBeforeMonth(year, 7) == 181 + l && DaysBeforeMonth(year, 8) == 212 + l
            && DaysBeforeMonth(year, 9) == 243 + l && DaysBeforeMonth(year, 10) == 273 + l
            && DaysBeforeMonth(year, 11) == 304 + l && DaysBeforeMonth(year, 12) == 334 + l
            && DaysBeforeMonth(year, 13) == 365 + l
  {
    hide IsLeap;
    assert DaysBeforeMonth(year, 3) == DaysBeforeMonth(year, 2) + DaysInMonth(year, 2);
    assert DaysBeforeMonth(year, 5) == DaysBeforeMonth(year, 4) + DaysInMonth(year, 4);
    assert DaysBeforeMonth(year, 7) == DaysBeforeMonth(year, 6) + DaysInMonth(year, 6);
    assert DaysBeforeMonth(year, 9) == DaysBeforeMonth(year, 8) + DaysInMonth(year, 8);
    assert DaysBeforeMonth(year, 11) == DaysBeforeMonth(year, 10) + DaysInMonth(year, 10);
    assert DaysBeforeMonth(year, 13) == DaysBeforeMonth(year, 12) + DaysInMonth(year, 12);
  }

  /** The next date is the next day. */
  lemma NextDateIsNextDay(date: Date)
    requires Valid(date)
    ensures Valid(NextDate(date)) && DayNumber(NextDate(date)) == DayNumber(date) + 1
  {
    hide IsLeap, LeapsBefore, DaysBeforeMonth;
    if date.day == DaysInMonth(date.year, date.month) {
      MonthTable(date.year);
      MonthTable(date.year + 1);
      LeapsBeforeCounts(date.year);
      MonthStep(date.year, date.month);
    }
  }

  lemma MonthStep(year: int, month: int)
    requires 1 <= month <= 12
    ensures DaysBeforeMonth(year, month + 1) == DaysBeforeMonth(year, month) + DaysInMonth(year, month)
  {}

  // ---------------------------------------------------- the program's arithmetic

  /** Integer division as the source language does it: towards zero. */
  function Quotient(a: int, b: int): int
    requires b > 0
  {
    if a >= 0 then a / b else -((-a) / b)
  }

  /** From day numbers to dates, in eras of 400 years that begin in March. */
  function CivilFromDays(days: int): Date {
    var z := days + 719468;
    var era := Quotient(if z >= 0 then z else z - 146096, 146097);
    FromEra(era, z - era * 146097)
  }

  function FromEra(era: int, doe: int): Date {
    var yoe := Quotient(doe - Quotient(doe, 1460) + Quotient(doe, 36524) - Quotient(doe, 146096), 365);
    var doy := doe - (365 * yoe + Quotient(yoe, 4) - Quotient(yoe, 100));
    var mp := Quotient(5 * doy + 2, 153);
    var d := doy - Quotient(153 * mp + 2, 5) + 1;
    var m := if mp < 10 then mp + 3 else mp - 9;
    Date(yoe + era * 400 + if m <= 2 then 1 else 0, m, d)
  }

  // ------------------------------------------------------------ years of an era

  /** A day of an era, taken apart: centuries, four-year cycles, years, and the day of the March year. */
  predicate Parts(doe: int, c: int, q: int, y: int, d: int) {
    && 0 <= c <= 3 && 0 <= q <= 24 && 0 <= y <= 3 && 0 <= d <= 365
    && doe == 36524 * c + 1461 * q + 365 * y + d
    && (d == 365 ==> y == 3 && (q < 24 || c == 3))
  }

  lemma PartsExist(doe: int) returns (c: int, q: int, y: int, d: int)
    requires 0 <= doe <= 146096
    ensures Parts(doe, c, q, y, d)
  {
    c := if doe == 146096 then 3 else doe / 36524;
    var r := doe - 36524 * c;
    q := r / 1461;
    var s := r - 1461 * q;
    y := if s == 1460 then 3 else s / 365;
    d := s - 365 * y;
  }

  lemma FourYears(doe: int, c: int, q: int, y: int, d: int)
    requires Parts(doe, c, q, y, d)
    ensures doe / 1460 == 25 * c + q + (24 * c + q + 365 * y + d) / 1460
  {
    assert doe == 1460 * (25 * c + q) + (24 * c + q + 365 * y + d);
  }

  lemma Centuries(doe: int, c: int, q: int, y: int, d: int)
    requires Parts(doe, c, q, y, d)
    ensures doe / 36524 - doe / 146096 == c
  {}

  /** The year of the era and the day of its March year come out as the parts say. */
  lemma YearOfEra(doe: int, c: int, q: int, y: int, d: int)
    requires Parts(doe, c, q, y, d)
    ensures var yoe := (doe - doe / 1460 + doe / 36524 - doe / 146096) / 365;
            yoe == 100 * c + 4 * q + y && yoe / 4 == 25 * c + q && yoe / 100 == c
            && doe - (365 * yoe + yoe / 4 - yoe / 100) == d
  {
    FourYears(doe, c, q, y, d);
    Centuries(doe, c, q, y, d);
    var n := doe - doe / 1460 + doe / 36524 - doe / 146096;
    var t := (24 * c + q + 365 * y + d) / 1460;
    assert 0 <= d - t <= 364;
    assert n == 365 * (100 * c + 4 * q + y) + (d - t);
  }

  // ------------------------------------------------------- months of a March year

  /** Days before the month that is `mp` months after March. */
  function BeforeMonth(mp: int): int {
    (153 * mp + 2) / 5
  }

  lemma MonthOfYear(doy: int)
    requires 0 <= doy <= 365
    ensures var mp := (5 * doy + 2) / 153;
            && 0 <= mp <= 11 && BeforeMonth(mp) <= doy && (mp < 11 ==> doy < BeforeMonth(mp + 1))
  {}

  lemma MarchTable()
    ensures BeforeMonth(0) == 0 && BeforeMonth(1) == 31 && BeforeMonth(2) == 61 && BeforeMonth(3) == 92
    ensures BeforeMonth(4) == 122 && BeforeMonth(5) == 153 && BeforeMonth(6) == 184 && BeforeMonth(7) == 214
    ensures BeforeMonth(8) == 245 && BeforeMonth(9) == 275 && BeforeMonth(10) == 306 && BeforeMonth(11) == 337
  {}

  /** The date `doy` days into the year that begins in March of `year`. */
  function MarchDate(year: int, doy: int): Date {
    var mp := (5 * doy + 2) / 153;
    var m := if mp < 10 then mp + 3 else mp - 9;
    Date(if m <= 2 then year + 1 else year, m, doy - BeforeMonth(mp) + 1)
  }

  lemma MarchDateIsRight(year: int, doy: int)
    requires 0 <= doy <= 365 && (doy == 365 ==> IsLeap(year + 1))
    ensures Valid(MarchDate(year, doy))
    ensures DayNumber(MarchDate(year, doy)) == DayNumber(Date(year, 3, 1)) + doy
  {
    hide IsLeap, LeapsBefore, DaysBeforeMonth, BeforeMonth;
    MonthOfYear(doy);
    MarchTable();
    MonthTable(year);
    MonthTable(year + 1);
    LeapsBeforeCounts(year);
    var mp := (5 * doy + 2) / 153;
    assert mp == 0 || mp == 1 || mp == 2 || mp == 3 || mp == 4 || mp == 5
           || mp == 6 || mp == 7 || mp == 8 || mp == 9 || mp == 10 || mp == 11;
  }

  /** Where a March year begins. */
  lemma MarchStart(era: int, c: int, q: int, y: int)
    requires 0 <= c <= 3 && 0 <= q <= 24 && 0 <= y <= 3
    ensures var year := 400 * era + 100 * c + 4 * q + y;
            DayNumber(Date(year, 3, 1)) == 146097 * era + 36524 * c + 1461 * q + 365 * y - 719468
  {
    hide IsLeap, LeapsBefore, DaysBeforeMonth;
    var year := 400 * era + 100 * c + 4 * q + y;
    MonthTable(year);
    LeapsBeforeCounts(year);
    LeapsAt(era, c, q, y);
    LeapsAt(4, 3, 17, 1);
    assert LeapsBefore(1970) == 477;
  }

  lemma LeapsAt(era: int, c: int, q: int, y: int)
    requires 0 <= c <= 3 && 0 <= q <= 24 && 0 <= y <= 3
    ensures LeapsBefore(400 * era + 100 * c + 4 * q + y + 1) == 97 * era + 24 * c + q
  {
    var year := 400 * era + 100 * c + 4 * q + y;
    assert year / 4 == 100 * era + 25 * c + q;
    assert year / 100 == 4 * era + c;
    assert year / 400 == era;
  }

  lemma LeapAtEnd(era: int, c: int, q: int)
    requires 0 <= c <= 3 && 0 <= q <= 24 && (q < 24 || c == 3)
    ensures IsLeap(400 * era + 100 * c + 4 * q + 4)
  {
    Remainders(100 * era + 25 * c + q + 1, 4 * era + c, 4 * q + 4);
    if q == 24 {
      Remainders(100 * (era + 1), 4 * (era + 1), 0);
      assert (400 * (era + 1)) % 400 == 0;
    }
  }

  lemma Remainders(fours: int, hundreds: int, rest: int)
    ensures (4 * fours) % 4 == 0
    ensures 0 <= rest < 100 ==> (100 * hundreds + rest) % 100 == rest
  {}

  /** Truncation with the adjusted numerator is division rounding down, for days before the era too. */
  lemma EraRoundsDown(z: int)
    ensures var era := Quotient(if z >= 0 then z else z - 146096, 146097);
            era == z / 146097 && 0 <= z - era * 146097 <= 146096
  {
    if z < 0 {
      var n := 146096 - z;
      assert n / 146097 == -(z / 146097) by {
        var k := z / 146097;
        assert z == 146097 * k + z % 146097;
        assert n == 146097 * (-k) + (146096 - z % 146097);
      }
    }
  }

  // -------------------------------------------------------------------- theorems

  /** Every day number gives a valid date, and it is that date's day number. */
  lemma CivilIsRight(days: int)
    ensures Valid(CivilFromDays(days)) && DayNumber(CivilFromDays(days)) == days
  {
    hide Quotient, FromEra, DayNumber, Valid;
    var z := days + 719468;
    EraRoundsDown(z);
    var era := Quotient(if z >= 0 then z else z - 146096, 146097);
    EraIsRight(era, z - era * 146097);
  }

  lemma EraIsRight(era: int, doe: int)
    requires 0 <= doe <= 146096
    ensures Valid(FromEra(era, doe)) && DayNumber(FromEra(era, doe)) == 146097 * era + doe - 719468
  {
    hide FromEra, IsLeap, DayNumber, Valid, MarchDate;
    hide Parts;
    var c, q, y, d := PartsExist(doe);
    FromEraIsMarchDate(era, doe, c, q, y, d);
    PartsAreRight(era, doe, c, q, y, d);
  }

  lemma PartsAreRight(era: int, doe: int, c: int, q: int, y: int, d: int)
    requires Parts(doe, c, q, y, d)
    ensures var date := MarchDate(400 * era + 100 * c + 4 * q + y, d);
            Valid(date) && DayNumber(date) == 146097 * era + doe - 719468
  {
    hide IsLeap, DayNumber, Valid, MarchDate;
    if d == 365 {
      LeapAtEnd(era, c, q);
    }
    MarchDateIsRight(400 * era + 100 * c + 4 * q + y, d);
    MarchStart(era, c, q, y);
  }

  lemma FromEraIsMarchDate(era: int, doe: int, c: int, q: int, y: int, d: int)
    requires Parts(doe, c, q, y, d) && 0 <= doe
    ensures FromEra(era, doe) == MarchDate(400 * era + 100 * c + 4 * q + y, d)
  {
    hide Quotient;
    YearOfEra(doe, c, q, y, d);
    EachQuotient(doe, d);
    MonthOfYear(d);
    var mp := (5 * d + 2) / 153;
    NatQuotient(153 * mp + 2, 5);
    var n := doe - doe / 1460 + doe / 36524 - doe / 146096;
    NatQuotient(n, 365);
    NatQuotient(n / 365, 4);
    NatQuotient(n / 365, 100);
  }

  lemma NatQuotient(a: int, b: int)
    requires b > 0 && a >= 0
    ensures Quotient(a, b) == a / b
  {}

  lemma EachQuotient(doe: int, doy: int)
    requires doe >= 0 && doy >= 0
    ensures Quotient(doe, 1460) == doe / 1460 && Quotient(doe, 36524) == doe / 36524
    ensures Quotient(doe, 146096) == doe / 146096 && Quotient(5 * doy + 2, 153) == (5 * doy + 2) / 153
    ensures doe - doe / 1460 + doe / 36524 - doe / 146096 >= 0
  {}

  predicate Earlier(a: Date, b: Date) {
    a.year < b.year || (a.year == b.year && (a.month < b.month || (a.month == b.month && a.day < b.day)))
  }

  /** Day numbers keep the order of dates. */
  lemma DayNumberMonotone(a: Date, b: Date)
    requires Valid(a) && Valid(b) && Earlier(a, b)
    ensures DayNumber(a) < DayNumber(b)
  {
    hide IsLeap, LeapsBefore, DaysBeforeMonth;
    MonthTable(a.year);
    MonthTable(b.year);
    if a.year < b.year {
      YearsApart(a.year, b.year);
    }
  }

  lemma {:induction false} YearsApart(a: int, b: int)
    requires a < b
    ensures 365 * b + LeapsBefore(b) >= 365 * a + LeapsBefore(a) + 365 + if IsLeap(a) then 1 else 0
    decreases b - a
  {
    hide IsLeap, LeapsBefore;
    if a + 1 == b {
      LeapsBeforeCounts(a);
    } else {
      YearsApart(a, b - 1);
      LeapsBeforeCounts(b - 1);
    }
  }

  /** Dates and day numbers correspond one to one: a valid date comes back from its day number. */
  lemma CivilInverts(date: Date)
    requires Valid(date)
    ensures CivilFromDays(DayNumber(date)) == date
  {
    hide DayNumber, DaysInMonth, CivilFromDays;
    var back := CivilFromDays(DayNumber(date));
    CivilIsRight(DayNumber(date));
    if Earlier(date, back) {
      DayNumberMonotone(date, back);
    } else if Earlier(back, date) {
      DayNumberMonotone(back, date);
    }
  }

  /** Consecutive days are consecutive dates, before and after the epoch alike. */
  lemma CivilAdvances(days: int)
    ensures CivilFromDays(days + 1) == NextDate(CivilFromDays(days))
  {
    hide DayNumber, CivilFromDays;
    CivilIsRight(days);
    NextDateIsNextDay(CivilFromDays(days));
    CivilInverts(NextDate(CivilFromDays(days)));
  }

  lemma Epoch()
    ensures CivilFromDays(0) == Date(1970, 1, 1)
  {}

  // ------------------------------------------------------------------ timestamps

  datatype Moment = Moment(date: Date, hour: int, minute: int, second: int, milli: int)

  function MomentOf(ms: nat): Moment {
    var secs := ms / 1000;
    var sod := secs % 86400;
    Moment(CivilFromDays(secs / 86400), sod / 3600, (sod / 60) % 60, sod % 60, ms % 1000)
  }

  /** A timestamp names its millisecond exactly, with every part in range. */
  lemma MomentIsExact(ms: nat)
    ensures var m := MomentOf(ms);
            && Valid(m.date) && 0 <= m.hour < 24 && 0 <= m.minute < 60 && 0 <= m.second < 60 && 0 <= m.milli < 1000
            && ms == 1000 * (86400 * DayNumber(m.date) + 3600 * m.hour + 60 * m.minute + m.second) + m.milli
  {
    hide DayNumber, CivilFromDays, DaysInMonth;
    var secs := ms / 1000;
    CivilIsRight(secs / 86400);
    ClockParts(secs % 86400);
  }

  lemma ClockParts(sod: nat)
    requires sod < 86400
    ensures sod == 3600 * (sod / 3600) + 60 * ((sod / 60) % 60) + sod % 60 && sod / 3600 < 24
  {
    assert sod / 3600 == (sod / 60) / 60;
  }
}
