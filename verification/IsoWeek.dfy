/** ISO weeks: numbered from the Monday of the week with 4 January. */
module IsoWeek {
  import opened CivilDate

  function WeeksInYear(y: int): int
  {
    if YearShift(y) == 4 || YearShift(y - 1) == 3 then 53 else 52
  }

  function YearShift(y: int): int
  {
    Rem(y + Quot(y, 4) - Quot(y, 100) + Quot(y, 400), 7)
  }

  function Week1Monday(y: int): int
  {
    var jan4 := DaysFromCivil(y, 1, 4);
    jan4 - FloorMod(jan4 + 3, 7)
  }

  predicate IsMonday(n: int)
  {
    (n + 3) % 7 == 0
  }

  /** Days before year `n + 1`, up to whole weeks and a constant: what leap days add. */
  ghost function Shift(n: int): int
  {
    n + n / 4 - n / 100 + n / 400
  }

  lemma NewYearsDay(y: int)
    ensures DaysFromCivil(y, 1, 1) == 364 * (y - 1) + Shift(y - 1) - 719162
  {
    var era, yoe, mp := Apart(Date(y, 1, 1));
    MonthStarts();
    ShiftInEra(era, yoe);
  }

  lemma ShiftInEra(era: int, yoe: int)
    requires 0 <= yoe < 400
    ensures 364 * (400 * era + yoe) + Shift(400 * era + yoe) == era * 146097 + YearStart(yoe)
  {
    Over4(era, yoe);
    Over100(era, yoe);
    EraOfYear(era, yoe);
  }

  lemma Over4(era: int, yoe: int)
    ensures (400 * era + yoe) / 4 == 100 * era + yoe / 4
  {
  }

  lemma Over100(era: int, yoe: int)
    ensures (400 * era + yoe) / 100 == 4 * era + yoe / 100
  {
  }

  lemma Step4(y: int)
    ensures y / 4 - (y - 1) / 4 == if y % 4 == 0 then 1 else 0
  {
  }

  lemma Step100(y: int)
    ensures y / 100 - (y - 1) / 100 == if y % 100 == 0 then 1 else 0
  {
  }

  lemma Step400(y: int)
    ensures y / 400 - (y - 1) / 400 == if y % 400 == 0 then 1 else 0
    ensures y % 400 == 0 ==> y % 100 == 0
    ensures y % 100 == 0 ==> y % 4 == 0
  {
  }

  lemma ShiftStep(y: int)
    ensures Shift(y) == Shift(y - 1) + if Leap(y) then 2 else 1
  {
    Step4(y);
    Step100(y);
    Step400(y);
  }

  lemma WeeksByShift(y: int, a: int, b: int)
    requires y >= 1 && a == Shift(y - 1) && b == Shift(y)
    ensures WeeksInYear(y) == if b % 7 == 4 || a % 7 == 3 then 53 else 52
  {
    RemByShift(y, b);
    RemByShift(y - 1, a);
  }

  lemma RemByShift(n: int, a: int)
    requires n >= 0 && a == Shift(n)
    ensures YearShift(n) == a % 7
  {
    ShiftPositive(n);
    RemPositive(a);
  }

  lemma ShiftPositive(n: int)
    requires n >= 0
    ensures n + Quot(n, 4) - Quot(n, 100) + Quot(n, 400) == Shift(n) >= 0
  {
  }

  lemma RemPositive(a: int)
    requires a >= 0
    ensures Rem(a, 7) == a % 7
  {
  }

  lemma Week1ByShift(y: int, a: int)
    requires a == Shift(y - 1)
    ensures Week1Monday(y) == 364 * (y - 1) - 719159 + a - (a + 3) % 7
  {
    NewYearsDay(y);
    FirstOfMonth(y, 1, 4);
    var n := DaysFromCivil(y, 1, 4);
    assert n + 3 == 7 * (52 * (y - 1) - 102737) + a + 3;
    Truncation(n + 3);
    WholeWeeks(52 * (y - 1) - 102737, a + 3);
  }

  lemma WholeWeeks(k: int, r: int)
    ensures (7 * k + r) % 7 == r % 7
  {
  }

  /** From one year's first Monday to the next is exactly the number of weeks in the year. */
  lemma WeeksFillYear(y: int)
    requires y >= 1
    ensures Week1Monday(y + 1) - Week1Monday(y) == 7 * WeeksInYear(y)
  {
    var a := Shift(y - 1);
    var b := Shift(y);
    ShiftStep(y);
    FromWeek1(y, a, b);
  }

  lemma FromWeek1(y: int, a: int, b: int)
    requires y >= 1 && a == Shift(y - 1) && b == Shift(y) && (b == a + 1 || b == a + 2)
    ensures Week1Monday(y + 1) - Week1Monday(y) == 7 * WeeksInYear(y)
  {
    var monday, next := Week1Monday(y), Week1Monday(y + 1);
    Week1ByShift(y, a);
    Week1ByShift(y + 1, b);
    SevenCases(a, b, monday, next, 364 * (y - 1) - 719159);
    WeeksByShift(y, a, b);
  }

  lemma SevenCases(a: int, b: int, monday: int, next: int, base: int)
    requires b == a + 1 || b == a + 2
    requires monday == base + a - (a + 3) % 7 && next == base + 364 + b - (b + 3) % 7
    ensures next - monday == 7 * if b % 7 == 4 || a % 7 == 3 then 53 else 52
  {
  }

  lemma Week1IsMonday(y: int)
    ensures IsMonday(Week1Monday(y))
  {
    Truncation(DaysFromCivil(y, 1, 4) + 3);
    BackToMonday(DaysFromCivil(y, 1, 4));
  }

  lemma BackToMonday(n: int)
    ensures IsMonday(n - (n + 3) % 7)
  {
  }

  /** The Monday of week `w` of year `y`. */
  function MondayOf(y: int, w: int): int
  {
    Week1Monday(y) + 7 * (w - 1)
  }

  ghost predicate IsWeek(y: int, w: int)
  {
    y >= 1 && 1 <= w <= WeeksInYear(y)
  }

  lemma {:induction false} YearsOfWeeks(y: int, k: int)
    requires 1 <= y < k
    ensures Week1Monday(k) >= Week1Monday(y) + 7 * WeeksInYear(y)
    decreases k - y
  {
    WeeksFillYear(y);
    if y + 1 < k {
      YearsOfWeeks(y + 1, k);
    }
  }

  /** Later weeks have later Mondays. */
  lemma WeeksIncrease(y: int, w: int, y': int, w': int)
    requires IsWeek(y, w) && IsWeek(y', w') && (y < y' || (y == y' && w < w'))
    ensures MondayOf(y, w) < MondayOf(y', w')
  {
    if y < y' {
      YearsOfWeeks(y, y');
    }
  }

  lemma {:induction false} FindWeekFrom(n: int, y: int) returns (k: int, w: int)
    requires y >= 1 && IsMonday(n) && Week1Monday(y) <= n
    ensures IsWeek(k, w) && MondayOf(k, w) == n
    decreases n - Week1Monday(y)
  {
    WeeksFillYear(y);
    Week1IsMonday(y);
    if n < Week1Monday(y + 1) {
      k, w := y, (n - Week1Monday(y)) / 7 + 1;
      WeekNumber(n, Week1Monday(y), WeeksInYear(y));
    } else {
      k, w := FindWeekFrom(n, y + 1);
    }
  }

  lemma WeekNumber(n: int, monday: int, weeks: int)
    requires IsMonday(n) && IsMonday(monday) && monday <= n < monday + 7 * weeks
    ensures var w := (n - monday) / 7 + 1; 1 <= w <= weeks && monday + 7 * (w - 1) == n
  {
  }

  /** Every Monday from week 1 of year 1 on is the Monday of exactly one week. */
  lemma EveryMondayOnce(n: int) returns (y: int, w: int)
    requires IsMonday(n) && Week1Monday(1) <= n
    ensures IsWeek(y, w) && MondayOf(y, w) == n
    ensures forall y', w' :: IsWeek(y', w') && MondayOf(y', w') == n ==> y' == y && w' == w
  {
    y, w := FindWeekFrom(n, 1);
    forall y', w' | IsWeek(y', w') && MondayOf(y', w') == n
      ensures y' == y && w' == w
    {
      if y' < y || (y' == y && w' < w) {
        WeeksIncrease(y', w', y, w);
      } else if y < y' || w < w' {
        WeeksIncrease(y, w, y', w');
      }
    }
  }
}
