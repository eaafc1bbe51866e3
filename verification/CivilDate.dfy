/** Civil dates as day numbers from 1 January 1970, in the proleptic Gregorian calendar (sections
    2.3.5.2 and 2.3.5.8 of the WHATWG HTML standard), and ISO weeks. */
module CivilDate {

  /** Division and remainder as C has them: truncating toward zero. */
  function Quot(a: int, b: int): int
    requires b > 0
  {
    if a >= 0 then a / b else -((-a) / b)
  }

  function Rem(a: int, b: int): int
    requires b > 0
  {
    a - b * Quot(a, b)
  }

  function FloorMod(a: int, b: int): int
    requires b > 0
  {
    var r := Rem(a, b);
    if r != 0 && r < 0 then r + b else r
  }

  datatype Date = Date(y: int, m: int, d: int)

  function DaysFromCivil(y: int, m: int, d: int): int
    requires 1 <= m <= 12
  {
    var yy := if m <= 2 then y - 1 else y;
    var era := Quot(if yy >= 0 then yy else yy - 399, 400);
    var yoe := yy - era * 400;
    var doy := (153 * (m + (if m > 2 then -3 else 9)) + 2) / 5 + d - 1;
    var doe := yoe * 365 + yoe / 4 - yoe / 100 + doy;
    era * 146097 + doe - 719468
  }

  function CivilFromDays(days: int): Date
  {
    var z := days + 719468;
    var era := Quot(if z >= 0 then z else z - 146096, 146097);
    CivilInEra(era, z - era * 146097)
  }

  /** The date of a day of an era. */
  function CivilInEra(era: int, doe: int): Date
  {
    var yoe := (doe - doe / 1460 + doe / 36524 - doe / 146096) / 365;
    var doy := doe - (365 * yoe + yoe / 4 - yoe / 100);
    var mp := (5 * doy + 2) / 153;
    var d := doy - (153 * mp + 2) / 5 + 1;
    var m := if mp < 10 then mp + 3 else mp - 9;
    Date(yoe + era * 400 + (if m <= 2 then 1 else 0), m, d)
  }

  predicate Leap(y: int)
  {
    y % 4 == 0 && (y % 100 != 0 || y % 400 == 0)
  }

  function DaysInMonth(y: int, m: int): int
  {
    if m < 1 || m > 12 then 0
    else if m == 2 then
      if Rem(y, 4) == 0 && (Rem(y, 100) != 0 || Rem(y, 400) == 0) then 29 else 28
    else [31, 28, 31, 30, 31, 30, 31, 31, 30, 31, 30, 31][m - 1]
  }

  predicate Valid(t: Date)
  {
    1 <= t.m <= 12 && 1 <= t.d <= DaysInMonth(t.y, t.m)
  }

  function Days(t: Date): int
    requires 1 <= t.m <= 12
  {
    DaysFromCivil(t.y, t.m, t.d)
  }

  lemma Truncation(a: int)
    ensures (Rem(a, 4) == 0 <==> a % 4 == 0) && (Rem(a, 100) == 0 <==> a % 100 == 0) &&
        (Rem(a, 400) == 0 <==> a % 400 == 0)
    ensures FloorMod(a, 7) == a % 7
  {
    Truncation4(a);
    Truncation100(a);
    Truncation400(a);
    Truncation7(a);
  }

  lemma Truncation4(a: int)
    ensures Rem(a, 4) == 0 <==> a % 4 == 0
  {
  }

  lemma Truncation100(a: int)
    ensures Rem(a, 100) == 0 <==> a % 100 == 0
  {
  }

  lemma Truncation400(a: int)
    ensures Rem(a, 400) == 0 <==> a % 400 == 0
  {
  }

  lemma Truncation7(a: int)
    ensures FloorMod(a, 7) == a % 7
  {
  }

  lemma Eras(yy: int, z: int)
    ensures Quot(if yy >= 0 then yy else yy - 399, 400) == yy / 400
    ensures Quot(if z >= 0 then z else z - 146096, 146097) == z / 146097
  {
  }

  // ---- the calendar, seen from March ----

  /** A year from March, as its place in an era of 400 years. */
  ghost predicate YearOfEra(yoe: int, c: int, q: int, r: int)
  {
    0 <= c < 4 && 0 <= q < 25 && 0 <= r < 4 && yoe == 100 * c + 4 * q + r
  }

  ghost function YearStart(yoe: int): int
  {
    yoe * 365 + yoe / 4 - yoe / 100
  }

  /** The length of the year that starts in March of the given year of the era. */
  ghost function YearLength(yoe: int): int
  {
    if Leap(yoe + 1) then 366 else 365
  }

  lemma YearStartAt(yoe: int, c: int, q: int, r: int)
    requires YearOfEra(yoe, c, q, r)
    ensures YearStart(yoe) == 36524 * c + 1461 * q + 365 * r
    ensures YearLength(yoe) == if r == 3 && (q < 24 || c == 3) then 366 else 365
  {
    assert yoe / 4 == 25 * c + q && yoe / 100 == c;
    LeapAfter(yoe, c, q, r);
  }

  lemma LeapAfter(yoe: int, c: int, q: int, r: int)
    requires YearOfEra(yoe, c, q, r)
    ensures Leap(yoe + 1) <==> r == 3 && (q < 24 || c == 3)
  {
    var h := 4 * q + r + 1;
    Remainder4(yoe + 1, if r < 3 then 25 * c + q else 25 * c + q + 1, if r < 3 then r + 1 else 0);
    Remainder100(yoe + 1, if h < 100 then c else c + 1, if h < 100 then h else 0);
    LastOfEra(yoe);
  }

  lemma LastOfEra(yoe: int)
    requires 0 <= yoe < 400
    ensures (yoe + 1) % 400 == 0 <==> yoe == 399
  {
  }

  lemma SplitYear(yoe: int) returns (c: int, q: int, r: int)
    requires 0 <= yoe < 400
    ensures YearOfEra(yoe, c, q, r)
  {
    c, q, r := yoe / 100, yoe % 100 / 4, yoe % 4;
  }

  lemma Div1460(k: int, x: int)
    requires 0 <= x < 2920
    ensures (1460 * k + x) / 1460 == k + if x >= 1460 then 1 else 0
  {
  }

  lemma Div36524(c: int, x: int)
    requires 0 <= x < 73048
    ensures (36524 * c + x) / 36524 == c + if x >= 36524 then 1 else 0
  {
  }

  lemma Div365(k: int, x: int)
    requires 0 <= x < 365
    ensures (365 * k + x) / 365 == k
  {
  }

  /** The year of the era, recovered from a day of the era. */
  lemma YearFromDay(yoe: int, doy: int)
    requires 0 <= yoe < 400 && 0 <= doy < YearLength(yoe)
    ensures var doe := YearStart(yoe) + doy;
            0 <= doe < 146097 && (doe - doe / 1460 + doe / 36524 - doe / 146096) / 365 == yoe
  {
    var c, q, r := SplitYear(yoe);
    YearStartAt(yoe, c, q, r);
    var doe := YearStart(yoe) + doy;
    var x := 24 * c + q + 365 * r + doy;
    Div1460(25 * c + q, x);
    Div36524(c, 1461 * q + 365 * r + doy);
    var late := if x >= 1460 then 1 else 0;
    var last := if 1461 * q + 365 * r + doy >= 36524 then 1 else 0;
    assert last == doe / 146096;
    Div365(yoe, doy - late);
  }

  /** Every day of an era is a day of one of its years. */
  lemma SplitDay(doe: int) returns (yoe: int, doy: int)
    requires 0 <= doe < 146097
    ensures 0 <= yoe < 400 && 0 <= doy < YearLength(yoe) && doe == YearStart(yoe) + doy
  {
    var c := if doe == 146096 then 3 else doe / 36524;
    var e := doe - 36524 * c;
    var q := if e / 1461 > 24 then 24 else e / 1461;
    var f := e - 1461 * q;
    var r := if f / 365 > 3 then 3 else f / 365;
    yoe, doy := 100 * c + 4 * q + r, f - 365 * r;
    YearStartAt(yoe, c, q, r);
  }

  // ---- months from March ----

  ghost function MonthStart(mp: int): int
  {
    (153 * mp + 2) / 5
  }

  /** The length of month number `mp` from March, in the year of the era. */
  ghost function MonthLength(yoe: int, mp: int): int
    requires 0 <= mp < 12
  {
    if mp == 11 then YearLength(yoe) - MonthStart(11) else MonthStart(mp + 1) - MonthStart(mp)
  }

  lemma MonthFromDay(yoe: int, mp: int, d: int)
    requires 0 <= mp < 12 && 1 <= d <= MonthLength(yoe, mp)
    ensures 0 <= MonthStart(mp) + d - 1 < YearLength(yoe)
    ensures (5 * (MonthStart(mp) + d - 1) + 2) / 153 == mp
  {
  }

  lemma SplitMonth(yoe: int, doy: int)
    requires 0 <= doy < YearLength(yoe)
    ensures var mp := (5 * doy + 2) / 153;
            0 <= mp < 12 && 1 <= doy - MonthStart(mp) + 1 <= MonthLength(yoe, mp)
  {
  }

  /** The calendar month behind a month from March, and its length. */
  lemma MonthLengths(y: int, mp: int)
    requires 0 <= mp < 12
    ensures var m := if mp < 10 then mp + 3 else mp - 9;
            DaysInMonth(if m <= 2 then y + 1 else y, m) == MonthLength(y % 400, mp)
  {
    FebruaryLength(y + 1);
    LeapPeriod(y / 400, y % 400);
    assert y == 400 * (y / 400) + y % 400;
    MonthStarts();
  }

  lemma LeapPeriod(era: int, yoe: int)
    requires 0 <= yoe < 400
    ensures Leap(400 * era + yoe + 1) <==> Leap(yoe + 1)
  {
    Period4(era, yoe + 1);
    Period100(era, yoe + 1);
    Period400(era, yoe + 1);
  }

  lemma Period4(era: int, y: int)
    ensures (400 * era + y) % 4 == y % 4
  {
    Remainder4(400 * era + y, 100 * era + y / 4, y % 4);
  }

  lemma Remainder4(a: int, q: int, r: int)
    requires a == 4 * q + r && 0 <= r < 4
    ensures a % 4 == r
  {
  }

  lemma Remainder100(a: int, q: int, r: int)
    requires a == 100 * q + r && 0 <= r < 100
    ensures a % 100 == r
  {
  }

  lemma Period100(era: int, y: int)
    ensures (400 * era + y) % 100 == y % 100
  {
    Remainder100(400 * era + y, 4 * era + y / 100, y % 100);
  }

  lemma Period400(era: int, y: int)
    ensures (400 * era + y) % 400 == y % 400
  {
  }

  lemma FebruaryLength(y: int)
    ensures DaysInMonth(y, 2) == if Leap(y) then 29 else 28
  {
    Truncation(y);
  }

  lemma MonthStarts()
    ensures MonthStart(0) == 0 && MonthStart(1) == 31 && MonthStart(2) == 61 && MonthStart(3) == 92
    ensures MonthStart(4) == 122 && MonthStart(5) == 153 && MonthStart(6) == 184 && MonthStart(7) == 214
    ensures MonthStart(8) == 245 && MonthStart(9) == 275 && MonthStart(10) == 306 && MonthStart(11) == 337
  {
  }

  // ---- the two conversions undo each other ----

  /** A date taken apart: era, year of the era, month from March. */
  lemma Apart(t: Date) returns (era: int, yoe: int, mp: int)
    requires 1 <= t.m <= 12
    ensures 0 <= yoe < 400 && 0 <= mp < 12 && t.m == (if mp < 10 then mp + 3 else mp - 9)
    ensures 400 * era + yoe == (if t.m <= 2 then t.y - 1 else t.y)
    ensures Days(t) == era * 146097 + YearStart(yoe) + MonthStart(mp) + t.d - 1 - 719468
    ensures DaysInMonth(t.y, t.m) == MonthLength(yoe, mp)
  {
    var yy := if t.m <= 2 then t.y - 1 else t.y;
    era, yoe, mp := yy / 400, yy % 400, if t.m > 2 then t.m - 3 else t.m + 9;
    Eras(yy, 0);
    MonthLengths(yy, mp);
  }

  lemma CivilOf(n: int, era: int, yoe: int, doy: int)
    requires 0 <= yoe < 400 && 0 <= doy < YearLength(yoe)
    requires n == era * 146097 + YearStart(yoe) + doy - 719468
    ensures var mp := (5 * doy + 2) / 153;
            var m := if mp < 10 then mp + 3 else mp - 9;
            CivilFromDays(n) == Date(400 * era + yoe + (if m <= 2 then 1 else 0), m, doy - MonthStart(mp) + 1)
  {
    var doe := YearStart(yoe) + doy;
    YearFromDay(yoe, doy);
    InEra(n, era, doe);
    InEraDate(era, doe, yoe, doy);
  }

  lemma InEraDate(era: int, doe: int, yoe: int, doy: int)
    requires doe == YearStart(yoe) + doy
    requires (doe - doe / 1460 + doe / 36524 - doe / 146096) / 365 == yoe
    ensures var mp := (5 * doy + 2) / 153;
            var m := if mp < 10 then mp + 3 else mp - 9;
            CivilInEra(era, doe) == Date(400 * era + yoe + (if m <= 2 then 1 else 0), m, doy - MonthStart(mp) + 1)
  {
    assert doe - (365 * yoe + yoe / 4 - yoe / 100) == doy;
  }

  lemma InEra(n: int, era: int, doe: int)
    requires 0 <= doe < 146097 && n == era * 146097 + doe - 719468
    ensures CivilFromDays(n) == CivilInEra(era, doe)
  {
    Eras(0, n + 719468);
    EraOf(era, doe);
  }

  lemma EraOf(era: int, doe: int)
    requires 0 <= doe < 146097
    ensures (era * 146097 + doe) / 146097 == era
  {
  }

  lemma CivilAt(t: Date, n: int, era: int, yoe: int, mp: int)
    requires 0 <= yoe < 400 && 0 <= mp < 12 && 1 <= t.d <= MonthLength(yoe, mp)
    requires t.m == (if mp < 10 then mp + 3 else mp - 9) && 400 * era + yoe == (if t.m <= 2 then t.y - 1 else t.y)
    requires n == era * 146097 + YearStart(yoe) + MonthStart(mp) + t.d - 1 - 719468
    ensures CivilFromDays(n) == t
  {
    MonthFromDay(yoe, mp, t.d);
    CivilOf(n, era, yoe, MonthStart(mp) + t.d - 1);
  }

  /** From a date to its day number and back. */
  lemma CivilOfDays(t: Date)
    requires Valid(t)
    ensures CivilFromDays(Days(t)) == t
  {
    var era, yoe, mp := Apart(t);
    CivilAt(t, Days(t), era, yoe, mp);
  }

  lemma SplitDate(n: int) returns (era: int, yoe: int, doy: int)
    ensures 0 <= yoe < 400 && 0 <= doy < YearLength(yoe)
    ensures n == era * 146097 + YearStart(yoe) + doy - 719468
  {
    var z := n + 719468;
    era := z / 146097;
    yoe, doy := SplitDay(z % 146097);
  }

  /** Putting a date together again. */
  lemma DaysAt(t: Date, era: int, yoe: int, mp: int)
    requires 0 <= yoe < 400 && 0 <= mp < 12 && 1 <= t.d <= MonthLength(yoe, mp)
    requires t.m == (if mp < 10 then mp + 3 else mp - 9) && 400 * era + yoe == (if t.m <= 2 then t.y - 1 else t.y)
    ensures Valid(t) && Days(t) == era * 146097 + YearStart(yoe) + MonthStart(mp) + t.d - 1 - 719468
  {
    var era', yoe', mp' := Apart(t);
    EraOfYear(era, yoe);
    EraOfYear(era', yoe');
  }

  /** From a day number to its date and back; the date is always a valid one. */
  lemma DaysOfCivil(n: int)
    ensures Valid(CivilFromDays(n)) && Days(CivilFromDays(n)) == n
  {
    var era, yoe, doy := SplitDate(n);
    var t := DateAt(era, yoe, doy);
    CivilOf(n, era, yoe, doy);
  }

  lemma DateAt(era: int, yoe: int, doy: int) returns (t: Date)
    requires 0 <= yoe < 400 && 0 <= doy < YearLength(yoe)
    ensures var mp := (5 * doy + 2) / 153;
            var m := if mp < 10 then mp + 3 else mp - 9;
            t == Date(400 * era + yoe + (if m <= 2 then 1 else 0), m, doy - MonthStart(mp) + 1)
    ensures Valid(t) && Days(t) == era * 146097 + YearStart(yoe) + doy - 719468
  {
    var mp := (5 * doy + 2) / 153;
    var m := if mp < 10 then mp + 3 else mp - 9;
    t := Date(400 * era + yoe + (if m <= 2 then 1 else 0), m, doy - MonthStart(mp) + 1);
    SplitMonth(yoe, doy);
    DaysAt(t, era, yoe, mp);
  }

  lemma EraOfYear(era: int, yoe: int)
    requires 0 <= yoe < 400
    ensures (400 * era + yoe) / 400 == era && (400 * era + yoe) % 400 == yoe
  {
  }

  // ---- calendar order ----

  /** The day after, by the calendar. */
  function Next(t: Date): Date
  {
    if t.d < DaysInMonth(t.y, t.m) then Date(t.y, t.m, t.d + 1)
    else if t.m < 12 then Date(t.y, t.m + 1, 1)
    else Date(t.y + 1, 1, 1)
  }

  ghost predicate Before(s: Date, t: Date)
  {
    s.y < t.y || (s.y == t.y && (s.m < t.m || (s.m == t.m && s.d < t.d)))
  }

  lemma NextMonth(y: int, m: int)
    requires 1 <= m < 12
    ensures DaysFromCivil(y, m + 1, 1) == DaysFromCivil(y, m, 1) + DaysInMonth(y, m)
  {
    var era, yoe, mp := Apart(Date(y, m, 1));
    var era', yoe', mp' := Apart(Date(y, m + 1, 1));
    EraOfYear(era, yoe);
    EraOfYear(era', yoe');
    MonthStarts();
    if m == 2 {
      NextYearOfEra(era, yoe);
      MonthIsLast(yoe);
    } else {
      assert mp' == mp + 1 && era' == era && yoe' == yoe;
    }
  }

  lemma MonthIsLast(yoe: int)
    ensures MonthStart(11) + MonthLength(yoe, 11) == YearLength(yoe) && MonthStart(0) == 0
  {
  }

  /** One year on from March: the next year of the era, or the first of the next era. */
  lemma NextYearOfEra(era: int, yoe: int)
    requires 0 <= yoe < 400
    ensures var era', yoe' := (400 * era + yoe + 1) / 400, (400 * era + yoe + 1) % 400;
            era' * 146097 + YearStart(yoe') == era * 146097 + YearStart(yoe) + YearLength(yoe)
  {
    YearStartStep(yoe);
    if yoe == 399 {
      EraOfYear(era + 1, 0);
    } else {
      EraOfYear(era, yoe + 1);
    }
  }

  lemma YearStartStep(yoe: int)
    requires 0 <= yoe < 400
    ensures YearStart(yoe) + YearLength(yoe) == if yoe == 399 then 146097 else YearStart(yoe + 1)
  {
    var c, q, r := SplitYear(yoe);
    YearStartAt(yoe, c, q, r);
    if r < 3 {
      YearStartAt(yoe + 1, c, q, r + 1);
    } else if q < 24 {
      YearStartAt(yoe + 1, c, q + 1, 0);
    } else if c < 3 {
      YearStartAt(yoe + 1, c + 1, 0, 0);
    }
  }

  lemma NewYear(y: int)
    ensures DaysFromCivil(y + 1, 1, 1) == DaysFromCivil(y, 12, 1) + 31
  {
    var era, yoe, mp := Apart(Date(y, 12, 1));
    var era', yoe', mp' := Apart(Date(y + 1, 1, 1));
    EraOfYear(era, yoe);
    EraOfYear(era', yoe');
    MonthStarts();
  }

  /** Day numbers are consecutive in calendar order. */
  lemma NextDay(t: Date)
    requires Valid(t)
    ensures Valid(Next(t)) && Days(Next(t)) == Days(t) + 1
  {
    FirstOfMonth(t.y, t.m, t.d);
    if t.d < DaysInMonth(t.y, t.m) {
      FirstOfMonth(t.y, t.m, t.d + 1);
    } else if t.m < 12 {
      MonthNonempty(t.y, t.m + 1);
      NextMonth(t.y, t.m);
    } else {
      NewYear(t.y);
    }
  }

  lemma FirstOfMonth(y: int, m: int, d: int)
    requires 1 <= m <= 12
    ensures Days(Date(y, m, d)) == DaysFromCivil(y, m, 1) + d - 1
  {
  }

  lemma MonthNonempty(y: int, m: int)
    requires 1 <= m <= 12
    ensures DaysInMonth(y, m) >= 28
  {
  }

  lemma Epoch()
    ensures Days(Date(1970, 1, 1)) == 0
  {
  }

  lemma {:induction false} MonthsGrow(y: int, m: int, k: int)
    requires 1 <= m <= k <= 12
    ensures DaysFromCivil(y, k, 1) >= DaysFromCivil(y, m, 1) &&
        (m < k ==> DaysFromCivil(y, k, 1) >= DaysFromCivil(y, m, 1) + DaysInMonth(y, m))
    decreases k - m
  {
    if m < k {
      MonthsGrow(y, m + 1, k);
      NextMonth(y, m);
    }
  }

  lemma {:induction false} YearsGrow(y: int, k: int)
    requires y < k
    ensures DaysFromCivil(k, 1, 1) >= DaysFromCivil(y, 12, 1) + 31
    decreases k - y
  {
    if y + 1 < k {
      YearsGrow(y + 1, k);
      MonthsGrow(y + 1, 1, 12);
    }
    NewYear(y);
  }

  /** Day numbers are strictly increasing in calendar order. */
  lemma DaysIncrease(s: Date, t: Date)
    requires Valid(s) && Valid(t) && Before(s, t)
    ensures Days(s) < Days(t)
  {
    FirstOfMonth(s.y, s.m, s.d);
    FirstOfMonth(t.y, t.m, t.d);
    if s.y < t.y {
      YearsGrow(s.y, t.y);
      MonthsGrow(t.y, 1, t.m);
      MonthsGrow(s.y, s.m, 12);
    } else if s.m < t.m {
      MonthsGrow(s.y, s.m, t.m);
    }
  }
}
