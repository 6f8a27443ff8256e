// The proleptic Gregorian day numbering behind `new Date(y, m, d)`, `getDay()`
// and the local calendar fields that src/lib/analytics/calendar.ts reads.
module CivilCalendar {

  type Day = int

  predicate IsLeapYear(y: int)
  {
    (y % 4 == 0 && y % 100 != 0) || y % 400 == 0
  }

  function DaysInMonth(y: int, m: int): (n: int)
    requires 0 <= m <= 11
    ensures 28 <= n <= 31
  {
    if m == 1 then (if IsLeapYear(y) then 29 else 28)
    else if m == 3 || m == 5 || m == 8 || m == 10 then 30
    else 31
  }

  /** The position of month `m` of year `y` in the sequence of all months. */
  function MonthIndex(y: int, m: int): int
  {
    12 * y + m
  }

  /** The month before month `m` of year `y`, as a year and a month. */
  function PrevMonth(y: int, m: int): (r: (int, int))
    requires 0 <= m <= 11
    ensures 0 <= r.1 <= 11 && MonthIndex(r.0, r.1) == MonthIndex(y, m) - 1
  {
    if m == 0 then (y - 1, 11) else (y, m - 1)
  }

  /** The first day of month `m` of year `y`: each month starts where the
      one before it ends. */
  function MonthStart(y: int, m: int): Day
    requires 0 <= m <= 11
    decreases if MonthIndex(y, m) >= MonthIndex(1970, 0) then MonthIndex(y, m) - MonthIndex(1970, 0)
              else MonthIndex(1970, 0) - MonthIndex(y, m)
  {
    if y == 1970 && m == 0 then 0
    else if MonthIndex(y, m) > MonthIndex(1970, 0) then
      (if m == 0 then MonthStart(y - 1, 11) + DaysInMonth(y - 1, 11)
       else MonthStart(y, m - 1) + DaysInMonth(y, m - 1))
    else
      (if m == 11 then MonthStart(y + 1, 0) - DaysInMonth(y, 11)
       else MonthStart(y, m + 1) - DaysInMonth(y, m))
  }

  lemma MonthStartStep(y: int, m: int)
    requires 0 <= m <= 11
    ensures m < 11 ==> MonthStart(y, m + 1) == MonthStart(y, m) + DaysInMonth(y, m)
    ensures m == 11 ==> MonthStart(y + 1, 0) == MonthStart(y, m) + DaysInMonth(y, m)
  {
  }

  lemma {:induction false} MonthStartIncreases(y1: int, m1: int, y2: int, m2: int)
    requires 0 <= m1 <= 11 && 0 <= m2 <= 11
    requires MonthIndex(y1, m1) <= MonthIndex(y2, m2)
    ensures MonthStart(y1, m1) <= MonthStart(y2, m2)
    decreases MonthIndex(y2, m2) - MonthIndex(y1, m1)
  {
    if MonthIndex(y1, m1) < MonthIndex(y2, m2) {
      var p := PrevMonth(y2, m2);
      MonthStartIncreases(y1, m1, p.0, p.1);
      MonthStartStep(p.0, p.1);
      assert MonthStart(y2, m2) == MonthStart(p.0, p.1) + DaysInMonth(p.0, p.1);
    }
  }

  datatype Civil = Civil(year: int, month: int, date: int)

  predicate ValidCivil(c: Civil)
  {
    0 <= c.month <= 11 && 1 <= c.date <= DaysInMonth(c.year, c.month)
  }

  function DayOf(c: Civil): Day
    requires 0 <= c.month <= 11
  {
    MonthStart(c.year, c.month) + c.date - 1
  }

  function NextDay(c: Civil): (r: Civil)
    requires ValidCivil(c)
    ensures ValidCivil(r) && DayOf(r) == DayOf(c) + 1
  {
    MonthStartStep(c.year, c.month);
    if c.date < DaysInMonth(c.year, c.month) then Civil(c.year, c.month, c.date + 1)
    else if c.month < 11 then Civil(c.year, c.month + 1, 1)
    else Civil(c.year + 1, 0, 1)
  }

  function PrevDay(c: Civil): (r: Civil)
    requires ValidCivil(c)
    ensures ValidCivil(r) && DayOf(r) == DayOf(c) - 1
  {
    if c.date > 1 then Civil(c.year, c.month, c.date - 1)
    else if c.month > 0 then
      var m := c.month - 1;
      MonthStartStep(c.year, m);
      Civil(c.year, m, DaysInMonth(c.year, m))
    else
      MonthStartStep(c.year - 1, 11);
      Civil(c.year - 1, 11, DaysInMonth(c.year - 1, 11))
  }

  /** The civil fields `k` days after (before, for a negative `k`) the day
      with fields `c`, counting one day at a time. */
  function CivilAfter(c: Civil, k: int): (r: Civil)
    requires ValidCivil(c)
    ensures ValidCivil(r) && DayOf(r) == DayOf(c) + k
    decreases if k >= 0 then k else -k
  {
    if k == 0 then c
    else if k > 0 then CivilAfter(NextDay(c), k - 1)
    else CivilAfter(PrevDay(c), k + 1)
  }

  /** 1970-01-01. */
  const Epoch := Civil(1970, 0, 1)

  /** The civil fields of day `n`. */
  function CivilOf(n: Day): (c: Civil)
    ensures ValidCivil(c) && DayOf(c) == n
  {
    CivilAfter(Epoch, n)
  }

  lemma DayOfInjective(a: Civil, b: Civil)
    requires ValidCivil(a) && ValidCivil(b) && DayOf(a) == DayOf(b)
    ensures a == b
  {
    if MonthIndex(a.year, a.month) < MonthIndex(b.year, b.month) {
      FollowingMonthLater(a, b);
    } else if MonthIndex(b.year, b.month) < MonthIndex(a.year, a.month) {
      FollowingMonthLater(b, a);
    }
  }

  lemma FollowingMonthLater(a: Civil, b: Civil)
    requires ValidCivil(a) && ValidCivil(b)
    requires MonthIndex(a.year, a.month) < MonthIndex(b.year, b.month)
    ensures DayOf(a) < DayOf(b)
  {
    MonthStartStep(a.year, a.month);
    if a.month < 11 {
      MonthStartIncreases(a.year, a.month + 1, b.year, b.month);
    } else {
      MonthStartIncreases(a.year + 1, 0, b.year, b.month);
    }
  }

  lemma CivilOfDayOf(c: Civil)
    requires ValidCivil(c)
    ensures CivilOf(DayOf(c)) == c
  {
    DayOfInjective(CivilOf(DayOf(c)), c);
  }

  lemma SameMonthIff(n: Day, y: int, m: int)
    requires 0 <= m <= 11
    ensures CivilOf(n).year == y && CivilOf(n).month == m <==>
      MonthStart(y, m) <= n < MonthStart(y, m) + DaysInMonth(y, m)
  {
    if MonthStart(y, m) <= n < MonthStart(y, m) + DaysInMonth(y, m) {
      CivilOfDayOf(Civil(y, m, n - MonthStart(y, m) + 1));
    }
  }

  function Weekday(n: Day): (w: int)
    ensures 0 <= w <= 6
  {
    (n + 4) % 7
  }

  function ConstructorYear(y: int): int
  {
    if 0 <= y <= 99 then 1900 + y else y
  }

  /** Day `d` of month `m` of year `y`, where a month outside 0..11 is
      carried into the neighbouring years. */
  function DayInMonth(y: int, m: int, d: int): Day
    decreases if m < 0 then 12 - m else m
  {
    if 0 <= m <= 11 then MonthStart(y, m) + d - 1
    else if m > 11 then DayInMonth(y + 1, m - 12, d)
    else DayInMonth(y - 1, m + 12, d)
  }

  function MakeDate(y: int, m: int, d: int): Day
  {
    DayInMonth(ConstructorYear(y), m, d)
  }

  function SetDate(n: Day, d: int): Day
  {
    MonthStart(CivilOf(n).year, CivilOf(n).month) + d - 1
  }

  lemma SetDateMoves(n: Day, d: int)
    ensures SetDate(n, d) == n + d - CivilOf(n).date
  {
  }

  lemma MakeDateOfFields(n: Day)
    requires !(0 <= CivilOf(n).year <= 99)
    ensures MakeDate(CivilOf(n).year, CivilOf(n).month, CivilOf(n).date) == n
  {
    var c := CivilOf(n);
    MakeDateInMonth(c.year, c.month, c.date);
  }

  /** `new Date(y, m, d)` for a month in range. */
  lemma MakeDateInMonth(y: int, m: int, d: int)
    requires 0 <= m <= 11
    ensures MakeDate(y, m, d) == MonthStart(ConstructorYear(y), m) + d - 1
  {
  }

  /** `new Date(y, m + 1, d)` for a month in range: the next month, in the
      next year after December. */
  lemma MakeDateNextMonth(y: int, m: int, d: int)
    requires 0 <= m <= 11
    ensures m < 11 ==> MakeDate(y, m + 1, d) == MonthStart(ConstructorYear(y), m + 1) + d - 1
    ensures m == 11 ==> MakeDate(y, m + 1, d) == MonthStart(ConstructorYear(y) + 1, 0) + d - 1
  {
    if m == 11 {
      assert DayInMonth(ConstructorYear(y), 12, d) == DayInMonth(ConstructorYear(y) + 1, 0, d);
    }
  }

  lemma MakeDateFirst(y: int, m: int)
    requires 0 <= m <= 11
    ensures CivilOf(MakeDate(y, m, 1)) == Civil(ConstructorYear(y), m, 1)
    ensures !(0 <= CivilOf(MakeDate(y, m, 1)).year <= 99)
  {
    MakeDateInMonth(y, m, 1);
    CivilOfDayOf(Civil(ConstructorYear(y), m, 1));
  }

  lemma MakeDateLast(y: int, m: int)
    requires 0 <= m <= 11
    ensures CivilOf(MakeDate(y, m + 1, 0)) == Civil(ConstructorYear(y), m, DaysInMonth(ConstructorYear(y), m))
    ensures MakeDate(y, m + 1, 0) == MakeDate(y, m, 1) + DaysInMonth(ConstructorYear(y), m) - 1
  {
    var cy := ConstructorYear(y);
    MakeDateInMonth(y, m, 1);
    MakeDateNextMonth(y, m, 0);
    MonthStartStep(cy, m);
    CivilOfDayOf(Civil(cy, m, DaysInMonth(cy, m)));
  }
}
