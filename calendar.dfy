// The month calendar of the dashboard (src/lib/analytics/calendar.ts): a
// grid of whole weeks, Monday to Sunday, covering one month, each day
// holding the trades whose reference time falls on it and their totals,
// each week the totals of its days; and the reading of a `YYYY-MM` month
// parameter. Days are local calendar days; the local day an instant falls
// on depends on the time zone and is a parameter.
module Calendar {
  import opened JsText
  import opened JsPlatform
  import opened CivilCalendar

  datatype CalendarTrade = CalendarTrade(
    id: Option<string>,
    symbol: Option<string>,
    side: Option<string>,
    profitLoss: real,
    openedAt: Instant,
    closedAt: Option<Instant>)

  datatype CalendarDay = CalendarDay(
    date: Day,
    labelText: string,
    netPnl: real,
    tradeCount: nat,
    winRate: real,
    isCurrentMonth: bool,
    winningTrades: nat,
    trades: seq<CalendarTrade>)

  datatype WeekSummary = WeekSummary(netPnl: real, tradeCount: nat, winRate: real)

  datatype CalendarWeek = CalendarWeek(days: seq<CalendarDay>, summary: WeekSummary)

  /** The local day of `closedAt ?? openedAt`. */
  function TradeDay(t: CalendarTrade, localDay: Instant -> Day): Day
  {
    localDay(t.closedAt.GetOr(t.openedAt))
  }

  // ---------------------------------------------------------------------
  // Weeks and months.

  /** `(getDay() + 6) % 7`: days since the last Monday. */
  function MondayOffset(n: Day): (k: int)
    ensures 0 <= k <= 6
  {
    (Weekday(n) + 6) % 7
  }

  /** The local midnight of a date: `new Date(y, m, d)` of its own fields. */
  function Midnight(n: Day): Day
  {
    MakeDate(CivilOf(n).year, CivilOf(n).month, CivilOf(n).date)
  }

  /** `startOfWeek`: the midnight moved back, by `setDate`, to Monday. */
  function StartOfWeek(n: Day): Day
  {
    var midnight := Midnight(n);
    SetDate(midnight, CivilOf(midnight).date - MondayOffset(midnight))
  }

  /** `endOfWeek`: a copy of the week's start moved on six days. */
  function EndOfWeek(n: Day): Day
  {
    var start := StartOfWeek(n);
    SetDate(start, CivilOf(start).date + 6)
  }

  function StartOfMonth(month: Day): Day
  {
    MakeDate(CivilOf(month).year, CivilOf(month).month, 1)
  }

  function EndOfMonth(month: Day): Day
  {
    MakeDate(CivilOf(month).year, CivilOf(month).month + 1, 0)
  }

  lemma MondayIsOffsetBack(m: Day)
    ensures Weekday(m - MondayOffset(m)) == 1
  {
    var q := (m + 4) / 7;
    var w := (m + 4) % 7;
    assert m + 4 == 7 * q + w;
    if w >= 1 {
      assert m - MondayOffset(m) + 4 == 7 * q + 1;
    } else {
      assert m - MondayOffset(m) + 4 == 7 * (q - 1) + 1;
    }
  }

  lemma SixDaysAfterMonday(s: Day)
    requires Weekday(s) == 1
    ensures Weekday(s + 6) == 0
  {
    var q := (s + 4) / 7;
    assert s + 4 == 7 * q + 1;
    assert s + 6 + 4 == 7 * (q + 1);
  }

  lemma SameWeekdayApart(a: Day, b: Day)
    requires Weekday(a) == Weekday(b)
    ensures (b - a) % 7 == 0
  {
    var qa, qb := (a + 4) / 7, (b + 4) / 7;
    assert b - a == 7 * (qb - qa);
  }

  lemma StartOfWeekMoves(n: Day)
    ensures StartOfWeek(n) == Midnight(n) - MondayOffset(Midnight(n))
  {
    var midnight := Midnight(n);
    SetDateMoves(midnight, CivilOf(midnight).date - MondayOffset(midnight));
  }

  lemma EndOfWeekMoves(n: Day)
    ensures EndOfWeek(n) == StartOfWeek(n) + 6
  {
    var start := StartOfWeek(n);
    SetDateMoves(start, CivilOf(start).date + 6);
  }

  /** The week of a date starts on the Monday on or before its midnight
      and ends six days later, on a Sunday; for a date whose year is not
      one of 0..99 the midnight is the date itself. */
  lemma WeekFacts(n: Day)
    ensures var midnight := Midnight(n);
      StartOfWeek(n) == midnight - MondayOffset(midnight) &&
      Weekday(StartOfWeek(n)) == 1 &&
      midnight - 6 <= StartOfWeek(n) <= midnight &&
      EndOfWeek(n) == StartOfWeek(n) + 6 && Weekday(EndOfWeek(n)) == 0
    ensures !(0 <= CivilOf(n).year <= 99) ==> Midnight(n) == n && StartOfWeek(n) <= n <= EndOfWeek(n)
  {
    StartOfWeekMoves(n);
    EndOfWeekMoves(n);
    MondayIsOffsetBack(Midnight(n));
    SixDaysAfterMonday(StartOfWeek(n));
    if !(0 <= CivilOf(n).year <= 99) {
      MakeDateOfFields(n);
    }
  }

  lemma StartOfMonthFacts(month: Day)
    ensures var y, m := ConstructorYear(CivilOf(month).year), CivilOf(month).month;
      CivilOf(StartOfMonth(month)) == Civil(y, m, 1) && StartOfMonth(month) == MonthStart(y, m)
  {
    var c := CivilOf(month);
    MakeDateFirst(c.year, c.month);
  }

  lemma EndOfMonthFacts(month: Day)
    ensures var y, m := ConstructorYear(CivilOf(month).year), CivilOf(month).month;
      CivilOf(EndOfMonth(month)) == Civil(y, m, DaysInMonth(y, m)) &&
      EndOfMonth(month) == StartOfMonth(month) + DaysInMonth(y, m) - 1
  {
    var c := CivilOf(month);
    MakeDateLast(c.year, c.month);
  }

  /** The month of a date runs from its first to its last day, both in
      the year `new Date` makes of the date's year. */
  lemma MonthFacts(month: Day)
    ensures var y, m := ConstructorYear(CivilOf(month).year), CivilOf(month).month;
      CivilOf(StartOfMonth(month)) == Civil(y, m, 1) &&
      CivilOf(EndOfMonth(month)) == Civil(y, m, DaysInMonth(y, m)) &&
      StartOfMonth(month) == MonthStart(y, m) &&
      EndOfMonth(month) == StartOfMonth(month) + DaysInMonth(y, m) - 1
  {
    StartOfMonthFacts(month);
    EndOfMonthFacts(month);
  }

  /** The first and last days of the grid of a month. */
  function GridStart(month: Day): Day
  {
    StartOfWeek(StartOfMonth(month))
  }

  function GridEnd(month: Day): Day
  {
    EndOfWeek(EndOfMonth(month))
  }

  /** For a date whose year is not one of 0..99 the week runs from the
      Monday on or before it to the Sunday after that Monday. */
  lemma WeekOfDay(n: Day)
    requires !(0 <= CivilOf(n).year <= 99)
    ensures StartOfWeek(n) == n - MondayOffset(n) && EndOfWeek(n) == n - MondayOffset(n) + 6
  {
    WeekFacts(n);
  }

  /** The arithmetic of the grid: from the Monday on or before `ms` to the
      Sunday on or after `me`. */
  lemma WholeWeeks(ms: Day, me: Day, first: Day, last: Day)
    requires ms <= me
    requires first == ms - MondayOffset(ms) && last == me - MondayOffset(me) + 6
    ensures Weekday(first) == 1 && Weekday(last) == 0 &&
      first <= ms < first + 7 && last - 7 < me <= last &&
      first <= last && (last - first + 1) % 7 == 0
  {
    var monday := me - MondayOffset(me);
    MondayIsOffsetBack(ms);
    MondayIsOffsetBack(me);
    SixDaysAfterMonday(monday);
    SameWeekdayApart(first, monday);
  }

  lemma GridStartMoves(month: Day)
    ensures GridStart(month) == StartOfMonth(month) - MondayOffset(StartOfMonth(month))
  {
    var ms := StartOfMonth(month);
    StartOfMonthFacts(month);
    WeekOfDay(ms);
  }

  lemma GridEndMoves(month: Day)
    ensures GridEnd(month) == EndOfMonth(month) - MondayOffset(EndOfMonth(month)) + 6
    ensures StartOfMonth(month) <= EndOfMonth(month)
  {
    var me := EndOfMonth(month);
    EndOfMonthFacts(month);
    WeekOfDay(me);
  }

  /** The grid starts on the Monday on or before the month's first day and
      ends on the Sunday on or after its last day, so it is whole weeks,
      fewer than seven days away from the month on either side. */
  lemma GridBounds(month: Day)
    ensures var ms, me := StartOfMonth(month), EndOfMonth(month);
      var first, last := GridStart(month), GridEnd(month);
      Weekday(first) == 1 && Weekday(last) == 0 &&
      first <= ms < first + 7 && last - 7 < me <= last &&
      first <= last && (last - first + 1) % 7 == 0
  {
    GridStartMoves(month);
    GridEndMoves(month);
    WholeWeeks(StartOfMonth(month), EndOfMonth(month), GridStart(month), GridEnd(month));
  }

  // ---------------------------------------------------------------------
  // Days.

  /** The trades on day `d`, in input order. */
  function TradesOn(trades: seq<CalendarTrade>, d: Day, localDay: Instant -> Day): seq<CalendarTrade>
  {
    if |trades| == 0 then []
    else
      var last := trades[|trades| - 1];
      TradesOn(trades[..|trades| - 1], d, localDay) + (if TradeDay(last, localDay) == d then [last] else [])
  }

  /** The trades on the `n` days from `lo`, in input order. */
  function TradesIn(trades: seq<CalendarTrade>, lo: Day, n: nat, localDay: Instant -> Day): seq<CalendarTrade>
  {
    if |trades| == 0 then []
    else
      var last := trades[|trades| - 1];
      TradesIn(trades[..|trades| - 1], lo, n, localDay) +
        (if lo <= TradeDay(last, localDay) < lo + n then [last] else [])
  }

  /** `reduce((sum, trade) => sum + trade.profitLoss, 0)` */
  function PnlSum(trades: seq<CalendarTrade>): real
  {
    if |trades| == 0 then 0.0 else PnlSum(trades[..|trades| - 1]) + trades[|trades| - 1].profitLoss
  }

  /** `filter((trade) => trade.profitLoss > 0).length` */
  function WinCount(trades: seq<CalendarTrade>): (n: nat)
    ensures n <= |trades|
  {
    if |trades| == 0 then 0
    else WinCount(trades[..|trades| - 1]) + (if trades[|trades| - 1].profitLoss > 0.0 then 1 else 0)
  }

  /** `count ? (wins / count) * 100 : 0` */
  function WinRate(wins: nat, count: nat): real
  {
    if count == 0 then 0.0 else (wins as real / count as real) * 100.0
  }

  /** The entry of day `d` holding `dayTrades`, for the month starting on
      `monthStart`. */
  function DayEntry(d: Day, dayTrades: seq<CalendarTrade>, monthStart: Day): CalendarDay
  {
    CalendarDay(d, NatToString(CivilOf(d).date), PnlSum(dayTrades), |dayTrades|,
                WinRate(WinCount(dayTrades), |dayTrades|),
                CivilOf(d).year == CivilOf(monthStart).year && CivilOf(d).month == CivilOf(monthStart).month,
                WinCount(dayTrades), dayTrades)
  }

  /** The entries of `count` consecutive days from `first`. */
  function DaysFrom(trades: seq<CalendarTrade>, first: Day, count: nat, monthStart: Day,
                    localDay: Instant -> Day): seq<CalendarDay>
  {
    seq(count, k requires 0 <= k < count => DayEntry(first + k, TradesOn(trades, first + k, localDay), monthStart))
  }

  /** The number of days from the grid's first day to its last. */
  function GridLength(month: Day): nat
  {
    if GridStart(month) <= GridEnd(month) then GridEnd(month) - GridStart(month) + 1 else 0
  }

  /** The day entries of the grid of `month`. */
  function GridDays(trades: seq<CalendarTrade>, month: Day, localDay: Instant -> Day): seq<CalendarDay>
  {
    DaysFrom(trades, GridStart(month), GridLength(month), StartOfMonth(month), localDay)
  }

  /** A trade is on day `d` exactly when its reference time falls on `d`. */
  lemma {:induction false} TradesOnMembers(trades: seq<CalendarTrade>, d: Day, localDay: Instant -> Day)
    ensures forall t :: t in TradesOn(trades, d, localDay) <==> t in trades && TradeDay(t, localDay) == d
  {
    if |trades| > 0 {
      TradesOnMembers(trades[..|trades| - 1], d, localDay);
      assert trades == trades[..|trades| - 1] + [trades[|trades| - 1]];
    }
  }

  lemma {:induction false} PnlSumAppend(a: seq<CalendarTrade>, b: seq<CalendarTrade>)
    ensures PnlSum(a + b) == PnlSum(a) + PnlSum(b)
    decreases |b|
  {
    if |b| > 0 {
      var init := b[..|b| - 1];
      PnlSumAppend(a, init);
      assert (a + b)[..|a + b| - 1] == a + init;
    } else {
      assert a + b == a;
    }
  }

  lemma {:induction false} WinCountAppend(a: seq<CalendarTrade>, b: seq<CalendarTrade>)
    ensures WinCount(a + b) == WinCount(a) + WinCount(b)
    decreases |b|
  {
    if |b| > 0 {
      var init := b[..|b| - 1];
      WinCountAppend(a, init);
      assert (a + b)[..|a + b| - 1] == a + init;
    } else {
      assert a + b == a;
    }
  }

  /** Widening a range of days by its next day adds that day's trades:
      the count, the sum and the wins grow by theirs. */
  lemma {:induction false} TradesInGrowsCount(trades: seq<CalendarTrade>, lo: Day, n: nat, localDay: Instant -> Day)
    requires n > 0
    ensures |TradesIn(trades, lo, n, localDay)| == |TradesIn(trades, lo, n - 1, localDay)| + |TradesOn(trades, lo + n - 1, localDay)|
  {
    if |trades| > 0 {
      TradesInGrowsCount(trades[..|trades| - 1], lo, n, localDay);
    }
  }

  lemma {:induction false} TradesInGrowsNet(trades: seq<CalendarTrade>, lo: Day, n: nat, localDay: Instant -> Day)
    requires n > 0
    ensures PnlSum(TradesIn(trades, lo, n, localDay)) ==
      PnlSum(TradesIn(trades, lo, n - 1, localDay)) + PnlSum(TradesOn(trades, lo + n - 1, localDay))
  {
    if |trades| > 0 {
      var init, last := trades[..|trades| - 1], trades[|trades| - 1];
      TradesInGrowsNet(init, lo, n, localDay);
      PnlSumAppend(TradesIn(init, lo, n, localDay), if lo <= TradeDay(last, localDay) < lo + n then [last] else []);
      PnlSumAppend(TradesIn(init, lo, n - 1, localDay), if lo <= TradeDay(last, localDay) < lo + (n - 1) then [last] else []);
      PnlSumAppend(TradesOn(init, lo + n - 1, localDay), if TradeDay(last, localDay) == lo + n - 1 then [last] else []);
    }
  }

  lemma {:induction false} TradesInGrowsWins(trades: seq<CalendarTrade>, lo: Day, n: nat, localDay: Instant -> Day)
    requires n > 0
    ensures WinCount(TradesIn(trades, lo, n, localDay)) ==
      WinCount(TradesIn(trades, lo, n - 1, localDay)) + WinCount(TradesOn(trades, lo + n - 1, localDay))
  {
    if |trades| > 0 {
      var init, last := trades[..|trades| - 1], trades[|trades| - 1];
      TradesInGrowsWins(init, lo, n, localDay);
      WinCountAppend(TradesIn(init, lo, n, localDay), if lo <= TradeDay(last, localDay) < lo + n then [last] else []);
      WinCountAppend(TradesIn(init, lo, n - 1, localDay), if lo <= TradeDay(last, localDay) < lo + (n - 1) then [last] else []);
      WinCountAppend(TradesOn(init, lo + n - 1, localDay), if TradeDay(last, localDay) == lo + n - 1 then [last] else []);
    }
  }

  lemma {:induction false} TradesInEmpty(trades: seq<CalendarTrade>, lo: Day, localDay: Instant -> Day)
    ensures TradesIn(trades, lo, 0, localDay) == []
  {
    if |trades| > 0 {
      TradesInEmpty(trades[..|trades| - 1], lo, localDay);
    }
  }

  // ---------------------------------------------------------------------
  // Weeks.

  /** The sums of the days' `netPnl`, `tradeCount` and `winningTrades`. */
  function DaysNet(days: seq<CalendarDay>): real
  {
    if |days| == 0 then 0.0 else DaysNet(days[..|days| - 1]) + days[|days| - 1].netPnl
  }

  function DaysCount(days: seq<CalendarDay>): nat
  {
    if |days| == 0 then 0 else DaysCount(days[..|days| - 1]) + days[|days| - 1].tradeCount
  }

  function DaysWins(days: seq<CalendarDay>): nat
  {
    if |days| == 0 then 0 else DaysWins(days[..|days| - 1]) + days[|days| - 1].winningTrades
  }

  /** The week made of `days`, with its summary. */
  function WeekOf(days: seq<CalendarDay>): CalendarWeek
  {
    CalendarWeek(days, WeekSummary(DaysNet(days), DaysCount(days), WinRate(DaysWins(days), DaysCount(days))))
  }

  function Min(a: int, b: int): int { if a <= b then a else b }

  /** The weeks of `dayEntries.slice(i, i + 7)` for `i` from `from` in
      steps of seven. */
  function Weeks(days: seq<CalendarDay>, from: nat): seq<CalendarWeek>
    decreases |days| - from
  {
    if from >= |days| then []
    else [WeekOf(days[from..Min(from + 7, |days|)])] + Weeks(days, from + 7)
  }

  /** `buildMonthCalendar(trades, month)`. */
  function MonthCalendar(trades: seq<CalendarTrade>, month: Day, localDay: Instant -> Day): seq<CalendarWeek>
  {
    Weeks(GridDays(trades, month, localDay), 0)
  }

  // ---------------------------------------------------------------------
  // What the calendar holds.

  /** A trade lies in a range of days exactly when its reference time
      falls on one of them. */
  lemma {:induction false} TradesInMembers(trades: seq<CalendarTrade>, lo: Day, n: nat, localDay: Instant -> Day)
    ensures forall t :: t in TradesIn(trades, lo, n, localDay) <==> t in trades && lo <= TradeDay(t, localDay) < lo + n
  {
    if |trades| > 0 {
      TradesInMembers(trades[..|trades| - 1], lo, n, localDay);
      assert trades == trades[..|trades| - 1] + [trades[|trades| - 1]];
    }
  }

  /** The days of a range are those of the range one day shorter and
      then the entry of its last day. */
  lemma DaysFromLast(trades: seq<CalendarTrade>, lo: Day, n: nat, hi: Day, monthStart: Day,
                     localDay: Instant -> Day, days: seq<CalendarDay>, prev: seq<CalendarDay>)
    requires n > 0 && hi == lo + n - 1
    requires days == DaysFrom(trades, lo, n, monthStart, localDay) && prev == DaysFrom(trades, lo, n - 1, monthStart, localDay)
    ensures days == prev + [DayEntry(hi, TradesOn(trades, hi, localDay), monthStart)]
  {
    assert days[..n - 1] == prev;
  }

  lemma DaysSnocCount(prev: seq<CalendarDay>, e: CalendarDay)
    ensures DaysCount(prev + [e]) == DaysCount(prev) + e.tradeCount
  {
    assert (prev + [e])[..|prev|] == prev;
  }

  lemma {:induction false} DaysFromCount(trades: seq<CalendarTrade>, lo: Day, n: nat, monthStart: Day,
                                          localDay: Instant -> Day)
    ensures DaysCount(DaysFrom(trades, lo, n, monthStart, localDay)) == |TradesIn(trades, lo, n, localDay)|
    decreases n
  {
    if n == 0 {
      TradesInEmpty(trades, lo, localDay);
    } else {
      var hi := lo + n - 1;
      DaysFromCount(trades, lo, n - 1, monthStart, localDay);
      var days, prev := DaysFrom(trades, lo, n, monthStart, localDay), DaysFrom(trades, lo, n - 1, monthStart, localDay);
      DaysFromLast(trades, lo, n, hi, monthStart, localDay, days, prev);
      TradesInGrowsCount(trades, lo, n, localDay);
      DaysSnocCount(prev, DayEntry(hi, TradesOn(trades, hi, localDay), monthStart));
    }
  }

  lemma DaysSnocNet(prev: seq<CalendarDay>, e: CalendarDay)
    ensures DaysNet(prev + [e]) == DaysNet(prev) + e.netPnl
  {
    assert (prev + [e])[..|prev|] == prev;
  }

  lemma {:induction false} DaysFromNet(trades: seq<CalendarTrade>, lo: Day, n: nat, monthStart: Day,
                                          localDay: Instant -> Day)
    ensures DaysNet(DaysFrom(trades, lo, n, monthStart, localDay)) == PnlSum(TradesIn(trades, lo, n, localDay))
    decreases n
  {
    if n == 0 {
      TradesInEmpty(trades, lo, localDay);
    } else {
      var hi := lo + n - 1;
      DaysFromNet(trades, lo, n - 1, monthStart, localDay);
      var days, prev := DaysFrom(trades, lo, n, monthStart, localDay), DaysFrom(trades, lo, n - 1, monthStart, localDay);
      DaysFromLast(trades, lo, n, hi, monthStart, localDay, days, prev);
      TradesInGrowsNet(trades, lo, n, localDay);
      DaysSnocNet(prev, DayEntry(hi, TradesOn(trades, hi, localDay), monthStart));
    }
  }

  lemma DaysSnocWins(prev: seq<CalendarDay>, e: CalendarDay)
    ensures DaysWins(prev + [e]) == DaysWins(prev) + e.winningTrades
  {
    assert (prev + [e])[..|prev|] == prev;
  }

  lemma {:induction false} DaysFromWins(trades: seq<CalendarTrade>, lo: Day, n: nat, monthStart: Day,
                                          localDay: Instant -> Day)
    ensures DaysWins(DaysFrom(trades, lo, n, monthStart, localDay)) == WinCount(TradesIn(trades, lo, n, localDay))
    decreases n
  {
    if n == 0 {
      TradesInEmpty(trades, lo, localDay);
    } else {
      var hi := lo + n - 1;
      DaysFromWins(trades, lo, n - 1, monthStart, localDay);
      var days, prev := DaysFrom(trades, lo, n, monthStart, localDay), DaysFrom(trades, lo, n - 1, monthStart, localDay);
      DaysFromLast(trades, lo, n, hi, monthStart, localDay, days, prev);
      TradesInGrowsWins(trades, lo, n, localDay);
      DaysSnocWins(prev, DayEntry(hi, TradesOn(trades, hi, localDay), monthStart));
    }
  }

  /** The totals of consecutive days are those of the trades in their
      range. */
  lemma DaysFromTotals(trades: seq<CalendarTrade>, lo: Day, n: nat, monthStart: Day, localDay: Instant -> Day)
    ensures var days, inRange := DaysFrom(trades, lo, n, monthStart, localDay), TradesIn(trades, lo, n, localDay);
      DaysCount(days) == |inRange| && DaysNet(days) == PnlSum(inRange) && DaysWins(days) == WinCount(inRange)
  {
    DaysFromCount(trades, lo, n, monthStart, localDay);
    DaysFromNet(trades, lo, n, monthStart, localDay);
    DaysFromWins(trades, lo, n, monthStart, localDay);
  }

  /** Cutting whole weeks of days into sevens gives one week per seven
      days. */
  lemma {:induction false} WeeksLength(days: seq<CalendarDay>, from: nat)
    requires from <= |days| && (|days| - from) % 7 == 0
    ensures |Weeks(days, from)| == (|days| - from) / 7
    decreases |days| - from
  {
    if from < |days| {
      WeeksLength(days, from + 7);
    }
  }

  /** Week `w` of the cut is the `w`-th run of seven days. */
  lemma {:induction false} WeeksChunkAt(days: seq<CalendarDay>, from: nat, w: nat)
    requires from + 7 * w + 7 <= |days|
    ensures w < |Weeks(days, from)| && Weeks(days, from)[w] == WeekOf(days[from + 7 * w..from + 7 * w + 7])
    decreases w
  {
    assert Min(from + 7, |days|) == from + 7;
    if w > 0 {
      WeeksChunkAt(days, from + 7, w - 1);
      assert from + 7 + 7 * (w - 1) == from + 7 * w;
    }
  }

  lemma WeeksChunks(days: seq<CalendarDay>, from: nat)
    requires from <= |days| && (|days| - from) % 7 == 0
    ensures |Weeks(days, from)| == (|days| - from) / 7
    ensures forall w :: 0 <= w < (|days| - from) / 7 ==>
      Weeks(days, from)[w] == WeekOf(days[from + 7 * w..from + 7 * w + 7])
  {
    WeeksLength(days, from);
    forall w | 0 <= w < (|days| - from) / 7
      ensures Weeks(days, from)[w] == WeekOf(days[from + 7 * w..from + 7 * w + 7])
    {
      WeeksChunkAt(days, from, w);
    }
  }

  /** The first day of week `w` of a grid starting on `first`. */
  function WeekFrom(first: Day, w: int): Day
  {
    first + 7 * w
  }

  /** The weeks of `len` consecutive days from `first`, `len` a multiple
      of seven: week `w` is the seven days from `WeekFrom(first, w)`. */
  lemma WeeksOfDays(trades: seq<CalendarTrade>, first: Day, len: nat, monthStart: Day, localDay: Instant -> Day)
    requires len % 7 == 0
    ensures var weeks := Weeks(DaysFrom(trades, first, len, monthStart, localDay), 0);
      7 * |weeks| == len &&
      forall w :: 0 <= w < |weeks| ==> weeks[w] == WeekOf(DaysFrom(trades, WeekFrom(first, w), 7, monthStart, localDay))
  {
    var days := DaysFrom(trades, first, len, monthStart, localDay);
    WeeksChunks(days, 0);
    forall w | 0 <= w < len / 7
      ensures days[7 * w..7 * w + 7] == DaysFrom(trades, WeekFrom(first, w), 7, monthStart, localDay)
    {
    }
  }

  /** A grid of a whole number of weeks, 28 to 42 days long. */
  lemma GridWeeks(ms: Day, me: Day, first: Day, last: Day, len: int)
    requires 27 <= me - ms <= 30
    requires first <= ms < first + 7 && last - 7 < me <= last && (last - first + 1) % 7 == 0
    requires len == last - first + 1
    ensures len % 7 == 0 && 28 <= len <= 42
  {
  }

  /** The grid of a month is four to six weeks long. */
  lemma GridLengthBounds(month: Day)
    ensures GridLength(month) % 7 == 0 && 28 <= GridLength(month) <= 42
  {
    GridBounds(month);
    EndOfMonthFacts(month);
    GridWeeks(StartOfMonth(month), EndOfMonth(month), GridStart(month), GridEnd(month), GridLength(month));
  }

  /** The first day of week `w` of the grid of `month`. */
  function WeekStart(month: Day, w: int): Day
  {
    WeekFrom(GridStart(month), w)
  }

  lemma MonthWeeksAt(trades: seq<CalendarTrade>, localDay: Instant -> Day, weeks: seq<CalendarWeek>,
                     first: Day, len: nat, monthStart: Day)
    requires weeks == Weeks(DaysFrom(trades, first, len, monthStart, localDay), 0)
    requires len % 7 == 0 && 28 <= len <= 42
    ensures 4 <= |weeks| <= 6 && 7 * |weeks| == len
    ensures forall w :: 0 <= w < |weeks| ==>
      weeks[w] == WeekOf(DaysFrom(trades, WeekFrom(first, w), 7, monthStart, localDay))
  {
    WeeksOfDays(trades, first, len, monthStart, localDay);
  }

  /** The calendar of a month is four to six weeks, week `w` being the
      seven days from `WeekStart(month, w)`. */
  lemma MonthWeeks(trades: seq<CalendarTrade>, month: Day, localDay: Instant -> Day)
    ensures var weeks := MonthCalendar(trades, month, localDay);
      4 <= |weeks| <= 6 && 7 * |weeks| == GridLength(month)
    ensures var weeks := MonthCalendar(trades, month, localDay);
      forall w :: 0 <= w < |weeks| ==>
        weeks[w] == WeekOf(DaysFrom(trades, WeekStart(month, w), 7, StartOfMonth(month), localDay))
  {
    GridLengthBounds(month);
    MonthWeeksAt(trades, localDay, MonthCalendar(trades, month, localDay),
                 GridStart(month), GridLength(month), StartOfMonth(month));
  }

  /** A day is in the month starting on `ms` exactly when it lies between
      that day and the month's last day. */
  lemma InMonthIff(d: Day, ms: Day, y: int, m: int)
    requires 0 <= m <= 11 && ms == MonthStart(y, m) && CivilOf(ms) == Civil(y, m, 1)
    ensures CivilOf(d).year == CivilOf(ms).year && CivilOf(d).month == CivilOf(ms).month <==>
      ms <= d <= ms + DaysInMonth(y, m) - 1
  {
    SameMonthIff(d, y, m);
  }

  /** Day `j` of a week of a grid starting on a Monday falls on weekday
      `j + 1` (0 being Sunday). */
  lemma WeekdayInWeek(first: Day, w: int, lo: Day, j: int)
    requires Weekday(first) == 1 && lo == WeekFrom(first, w) && 0 <= j < 7
    ensures Weekday(lo + j) == (j + 1) % 7
  {
    var q := (first + 4) / 7;
    assert first + 4 == 7 * q + 1;
    assert lo + j + 4 == 7 * (q + w) + (j + 1);
  }

  lemma DayCellEntry(trades: seq<CalendarTrade>, localDay: Instant -> Day, week: CalendarWeek, lo: Day, j: nat, ms: Day)
    requires j < 7 && week == WeekOf(DaysFrom(trades, lo, 7, ms, localDay))
    ensures |week.days| == 7 && week.days[j] == DayEntry(lo + j, TradesOn(trades, lo + j, localDay), ms)
  {
  }

  /** The entry of day `j` of a week of a grid starting on a Monday. */
  lemma DayEntryInGrid(trades: seq<CalendarTrade>, localDay: Instant -> Day, first: Day, w: nat, lo: Day, j: nat,
                       ms: Day, me: Day, y: int, m: int)
    requires 0 <= m <= 11 && ms == MonthStart(y, m) && CivilOf(ms) == Civil(y, m, 1)
    requires me == ms + DaysInMonth(y, m) - 1
    requires Weekday(first) == 1 && lo == WeekFrom(first, w) && j < 7
    ensures var day := DayEntry(lo + j, TradesOn(trades, lo + j, localDay), ms);
      day.date == lo + j && Weekday(day.date) == (j + 1) % 7 &&
      day.trades == TradesOn(trades, day.date, localDay) &&
      (forall t :: t in day.trades <==> t in trades && TradeDay(t, localDay) == day.date) &&
      day.tradeCount == |day.trades| && day.netPnl == PnlSum(day.trades) &&
      day.winningTrades == WinCount(day.trades) && day.winRate == WinRate(day.winningTrades, day.tradeCount) &&
      day.labelText == NatToString(CivilOf(day.date).date) &&
      (day.isCurrentMonth <==> ms <= day.date <= me)
  {
    TradesOnMembers(trades, lo + j, localDay);
    InMonthIff(lo + j, ms, y, m);
    WeekdayInWeek(first, w, lo, j);
  }

  lemma DayCellAt(trades: seq<CalendarTrade>, localDay: Instant -> Day, week: CalendarWeek, first: Day, w: nat,
                  lo: Day, j: nat, ms: Day, me: Day, y: int, m: int)
    requires 0 <= m <= 11 && ms == MonthStart(y, m) && CivilOf(ms) == Civil(y, m, 1)
    requires me == ms + DaysInMonth(y, m) - 1
    requires Weekday(first) == 1 && lo == WeekFrom(first, w) && j < 7
    requires week == WeekOf(DaysFrom(trades, lo, 7, ms, localDay))
    ensures |week.days| == 7 &&
      var day := week.days[j];
      day.date == lo + j && Weekday(day.date) == (j + 1) % 7 &&
      day.trades == TradesOn(trades, day.date, localDay) &&
      (forall t :: t in day.trades <==> t in trades && TradeDay(t, localDay) == day.date) &&
      day.tradeCount == |day.trades| && day.netPnl == PnlSum(day.trades) &&
      day.winningTrades == WinCount(day.trades) && day.winRate == WinRate(day.winningTrades, day.tradeCount) &&
      day.labelText == NatToString(CivilOf(day.date).date) &&
      (day.isCurrentMonth <==> ms <= day.date <= me)
  {
    DayCellEntry(trades, localDay, week, lo, j, ms);
    DayEntryInGrid(trades, localDay, first, w, lo, j, ms, me, y, m);
  }

  /** Day `j` of week `w` is the day `WeekStart(month, w) + j`, a Monday
      for `j == 0` and a Sunday for `j == 6`; it holds exactly the trades
      whose reference time falls on it, their totals, the day of month as
      its label, and is flagged as in the month exactly when it lies
      between the month's first and last days. */
  lemma MonthDays(trades: seq<CalendarTrade>, month: Day, localDay: Instant -> Day, w: nat, j: nat)
    requires w < |MonthCalendar(trades, month, localDay)| && j < 7
    ensures |MonthCalendar(trades, month, localDay)[w].days| == 7 &&
      var day := MonthCalendar(trades, month, localDay)[w].days[j];
      day.date == WeekStart(month, w) + j && Weekday(day.date) == (j + 1) % 7 &&
      day.trades == TradesOn(trades, day.date, localDay) &&
      (forall t :: t in day.trades <==> t in trades && TradeDay(t, localDay) == day.date) &&
      day.tradeCount == |day.trades| && day.netPnl == PnlSum(day.trades) &&
      day.winningTrades == WinCount(day.trades) && day.winRate == WinRate(day.winningTrades, day.tradeCount) &&
      day.labelText == NatToString(CivilOf(day.date).date) &&
      (day.isCurrentMonth <==> StartOfMonth(month) <= day.date <= EndOfMonth(month))
  {
    MonthWeeks(trades, month, localDay);
    GridBounds(month);
    MonthFacts(month);
    var c := CivilOf(month);
    DayCellAt(trades, localDay, MonthCalendar(trades, month, localDay)[w], GridStart(month), w, WeekStart(month, w), j,
              StartOfMonth(month), EndOfMonth(month), ConstructorYear(c.year), c.month);
  }

  /** The week and the day of the week holding day `d` in the grid of
      `month`. */
  function CellWeek(month: Day, d: Day): int
  {
    (d - GridStart(month)) / 7
  }

  function CellDay(month: Day, d: Day): int
  {
    (d - GridStart(month)) % 7
  }

  lemma CellOfDay(month: Day, first: Day, last: Day, d: Day, weeks: nat)
    requires first == GridStart(month) && first <= d <= last && 7 * weeks == last - first + 1
    ensures 0 <= CellWeek(month, d) < weeks && 0 <= CellDay(month, d) < 7
    ensures WeekStart(month, CellWeek(month, d)) + CellDay(month, d) == d
  {
  }

  /** Every day of the month is in the grid, flagged as in the month. */
  lemma MonthCovered(trades: seq<CalendarTrade>, month: Day, localDay: Instant -> Day, d: Day)
    requires StartOfMonth(month) <= d <= EndOfMonth(month)
    ensures var weeks, w, j := MonthCalendar(trades, month, localDay), CellWeek(month, d), CellDay(month, d);
      0 <= w < |weeks| && 0 <= j < |weeks[w].days| && weeks[w].days[j].date == d && weeks[w].days[j].isCurrentMonth
  {
    GridBounds(month);
    MonthWeeks(trades, month, localDay);
    CellOfDay(month, GridStart(month), GridEnd(month), d, |MonthCalendar(trades, month, localDay)|);
    MonthDays(trades, month, localDay, CellWeek(month, d), CellDay(month, d));
  }

  /** The summary the trades of the seven days from `lo` give: their
      profit, their number and their win rate. */
  function WeekTotals(trades: seq<CalendarTrade>, lo: Day, localDay: Instant -> Day): WeekSummary
  {
    var inWeek := TradesIn(trades, lo, 7, localDay);
    WeekSummary(PnlSum(inWeek), |inWeek|, WinRate(WinCount(inWeek), |inWeek|))
  }

  lemma WeekTotalsAt(trades: seq<CalendarTrade>, localDay: Instant -> Day, week: CalendarWeek, lo: Day, monthStart: Day)
    requires week == WeekOf(DaysFrom(trades, lo, 7, monthStart, localDay))
    ensures week.summary == WeekTotals(trades, lo, localDay)
  {
    DaysFromTotals(trades, lo, 7, monthStart, localDay);
  }

  /** The summary of week `w` counts exactly the trades whose reference
      time falls in its seven days: their number, the sum of their profit
      and their win rate. */
  lemma MonthWeekTotals(trades: seq<CalendarTrade>, month: Day, localDay: Instant -> Day, w: nat)
    requires w < |MonthCalendar(trades, month, localDay)|
    ensures MonthCalendar(trades, month, localDay)[w].summary == WeekTotals(trades, WeekStart(month, w), localDay)
  {
    MonthWeeks(trades, month, localDay);
    WeekTotalsAt(trades, localDay, MonthCalendar(trades, month, localDay)[w], WeekStart(month, w), StartOfMonth(month));
  }

  // ---------------------------------------------------------------------
  // The builder.

  /** The `reduce` that files each trade under its day. */
  method BucketByDay(trades: seq<CalendarTrade>, localDay: Instant -> Day)
    returns (byDay: map<Day, seq<CalendarTrade>>)
    ensures forall d :: d in byDay <==> |TradesOn(trades, d, localDay)| > 0
    ensures forall d :: d in byDay ==> byDay[d] == TradesOn(trades, d, localDay)
  {
    byDay := map[];
    for i := 0 to |trades|
      invariant forall d :: d in byDay <==> |TradesOn(trades[..i], d, localDay)| > 0
      invariant forall d :: d in byDay ==> byDay[d] == TradesOn(trades[..i], d, localDay)
    {
      assert trades[..i + 1][..i] == trades[..i];
      var key := TradeDay(trades[i], localDay);
      if key !in byDay {
        byDay := byDay[key := []];
      }
      byDay := byDay[key := byDay[key] + [trades[i]]];
    }
    assert trades[..|trades|] == trades;
  }

  /** The grid is the days from its first to its last day. */
  lemma GridDaysFrom(trades: seq<CalendarTrade>, month: Day, localDay: Instant -> Day,
                     monthStart: Day, calendarStart: Day, calendarEnd: Day)
    requires monthStart == StartOfMonth(month)
    requires calendarStart == StartOfWeek(monthStart) && calendarEnd == EndOfWeek(EndOfMonth(month))
    ensures calendarStart <= calendarEnd
    ensures MonthCalendar(trades, month, localDay) ==
      Weeks(DaysFrom(trades, calendarStart, calendarEnd - calendarStart + 1, monthStart, localDay), 0)
  {
    GridBounds(month);
  }

  /** The first loop: one entry per day from `calendarStart` to
      `calendarEnd`, holding the trades filed under that day. */
  method DayEntries(trades: seq<CalendarTrade>, tradesByDay: map<Day, seq<CalendarTrade>>,
                    calendarStart: Day, calendarEnd: Day, monthStart: Day, localDay: Instant -> Day)
    returns (dayEntries: seq<CalendarDay>)
    requires calendarStart <= calendarEnd
    requires forall d :: d in tradesByDay <==> |TradesOn(trades, d, localDay)| > 0
    requires forall d :: d in tradesByDay ==> tradesByDay[d] == TradesOn(trades, d, localDay)
    ensures dayEntries == DaysFrom(trades, calendarStart, calendarEnd - calendarStart + 1, monthStart, localDay)
  {
    dayEntries := [];
    var current := calendarStart;
    while current <= calendarEnd
      invariant calendarStart <= current <= calendarEnd + 1
      invariant dayEntries == DaysFrom(trades, calendarStart, current - calendarStart, monthStart, localDay)
      decreases calendarEnd - current
    {
      var dayTrades := if current in tradesByDay then tradesByDay[current] else [];
      dayEntries := dayEntries + [DayEntry(current, dayTrades, monthStart)];
      current := current + 1;
    }
  }

  /** The second loop: the entries cut into weeks of seven. */
  method GroupWeeks(dayEntries: seq<CalendarDay>) returns (weeks: seq<CalendarWeek>)
    ensures weeks == Weeks(dayEntries, 0)
  {
    weeks := [];
    var i := 0;
    while i < |dayEntries|
      invariant weeks + Weeks(dayEntries, i) == Weeks(dayEntries, 0)
      decreases |dayEntries| - i
    {
      var days := dayEntries[i..Min(i + 7, |dayEntries|)];
      weeks := weeks + [WeekOf(days)];
      i := i + 7;
    }
  }

  method BuildMonthCalendar(trades: seq<CalendarTrade>, month: Day, localDay: Instant -> Day)
    returns (weeks: seq<CalendarWeek>)
    ensures weeks == MonthCalendar(trades, month, localDay)
  {
    var monthStart := StartOfMonth(month);
    var monthEnd := EndOfMonth(month);
    var calendarStart := StartOfWeek(monthStart);
    var calendarEnd := EndOfWeek(monthEnd);
    GridDaysFrom(trades, month, localDay, monthStart, calendarStart, calendarEnd);
    var tradesByDay := BucketByDay(trades, localDay);
    var dayEntries := DayEntries(trades, tradesByDay, calendarStart, calendarEnd, monthStart, localDay);
    weeks := GroupWeeks(dayEntries);
  }

  // ---------------------------------------------------------------------
  // The month parameter.

  /** `/^(-?\d{4})-(\d{2})$/`: an optional minus sign, four digits, a
      dash and two digits, nothing else. */
  predicate MonthPattern(t: string)
  {
    (|t| == 7 || (|t| == 8 && t[0] == '-')) &&
    var k := |t| - 7;
    AllDigits(t[k..k + 4]) && t[k + 4] == '-' && AllDigits(t[k + 5..])
  }

  /** The year group read by `parseInt(match[1], 10)`. */
  function PatternYear(t: string): int
    requires MonthPattern(t)
  {
    var k := |t| - 7;
    var digits := DigitsValue(t[k..k + 4]);
    if k == 1 then -(digits as int) else digits
  }

  /** The month group read by `parseInt(match[2], 10)`, minus one. */
  function PatternMonthIndex(t: string): int
    requires MonthPattern(t)
  {
    DigitsValue(t[|t| - 2..]) - 1
  }

  /** The year and month index `parseMonthParam` reads: `None` for a
      missing or empty value, for a trimmed value not of the form `YYYY-MM`
      or `-YYYY-MM`, and for a month outside 01..12. */
  function ParseMonthFields(value: Option<string>): (r: Option<(int, int)>)
    ensures r.Some? ==>
      value.Some? && MonthPattern(Trim(value.value)) &&
      r.value == (PatternYear(Trim(value.value)), PatternMonthIndex(Trim(value.value))) && 0 <= r.value.1 <= 11
  {
    if value.None? || value.value == "" then None
    else
      var t := Trim(value.value);
      if !MonthPattern(t) then None
      else
        var monthIndex := PatternMonthIndex(t);
        if monthIndex < 0 || monthIndex > 11 then None
        else Some((PatternYear(t), monthIndex))
  }

  /** `parseMonthParam(value)`: `new Date(year, monthIndex, 1)` for the
      fields read. */
  function ParseMonthParam(value: Option<string>): (r: Option<Day>)
    ensures r.Some? <==> ParseMonthFields(value).Some?
  {
    var f := ParseMonthFields(value);
    if f.None? then None else Some(MakeDate(f.value.0, f.value.1, 1))
  }

  /** A parsed month is the first day of the month it names, the year
      read through the two-digit year rule of `new Date`. */
  lemma ParsedMonthIsFirstDay(value: Option<string>)
    requires ParseMonthFields(value).Some?
    ensures var f := ParseMonthFields(value).value;
      CivilOf(ParseMonthParam(value).value) == Civil(ConstructorYear(f.0), f.1, 1)
  {
    var f := ParseMonthFields(value).value;
    MakeDateFirst(f.0, f.1);
  }

  /** White space around the value changes nothing. */
  lemma ParseMonthParamIgnoresSpace(s: string)
    ensures ParseMonthFields(Some(Trim(s))) == ParseMonthFields(Some(s))
  {
    TrimIdempotent(s);
    if Trim(s) == "" {
      assert !MonthPattern(Trim(s));
    }
  }

  /** `n` written with exactly `width` digits, zeros in front. */
  function PadDigits(n: nat, width: nat): (r: string)
    ensures |r| == width && AllDigits(r)
  {
    if width == 0 then [] else PadDigits(n / 10, width - 1) + [DigitChar(n % 10)]
  }

  function Pow10(k: nat): nat
  {
    if k == 0 then 1 else 10 * Pow10(k - 1)
  }

  /** Reading back a padded number gives the number when it fits. */
  lemma {:induction false} PadDigitsValue(n: nat, width: nat)
    requires n < Pow10(width)
    ensures DigitsValue(PadDigits(n, width)) == n
  {
    if width > 0 {
      var s := PadDigits(n, width);
      assert s[..|s| - 1] == PadDigits(n / 10, width - 1);
      PadDigitsValue(n / 10, width - 1);
    }
  }

  /** A month written as `YYYY-MM`, with a minus sign for a negative year. */
  function FormatMonth(year: int, monthIndex: int): string
    requires -10000 < year < 10000 && 0 <= monthIndex <= 11
  {
    (if year < 0 then "-" else "") + PadDigits(if year < 0 then -year else year, 4) + "-" + PadDigits(monthIndex + 1, 2)
  }

  /** The text of a sign, four digits, a dash and two digits. */
  lemma MonthText(sign: string, y: string, m: string)
    requires (sign == "" || sign == "-") && |y| == 4 && |m| == 2 && AllDigits(y) && AllDigits(m)
    ensures var t, k := sign + y + "-" + m, |sign|;
      IsTrimmed(t) && MonthPattern(t) && |t| - 7 == k && t[k..k + 4] == y && t[k + 5..] == m
  {
    var t, k := sign + y + "-" + m, |sign|;
    assert t[k..k + 4] == y;
    assert t[k + 5..] == m;
  }

  lemma PatternFields(t: string, k: int, y: string, m: string, a: nat, monthIndex: int)
    requires MonthPattern(t) && |t| - 7 == k && t[k..k + 4] == y && t[k + 5..] == m
    requires AllDigits(y) && AllDigits(m) && DigitsValue(y) == a && DigitsValue(m) == monthIndex + 1
    ensures PatternYear(t) == (if k == 1 then -(a as int) else a) && PatternMonthIndex(t) == monthIndex
  {
  }

  lemma Pow10Small()
    ensures Pow10(2) == 100 && Pow10(4) == 10000
  {
    assert Pow10(1) == 10;
    assert Pow10(3) == 1000;
  }

  lemma FormatMonthFields(year: int, monthIndex: int)
    requires -10000 < year < 10000 && 0 <= monthIndex <= 11
    ensures var t := FormatMonth(year, monthIndex);
      IsTrimmed(t) && MonthPattern(t) && PatternYear(t) == year && PatternMonthIndex(t) == monthIndex
  {
    var a := if year < 0 then -year else year;
    var sign := if year < 0 then "-" else "";
    var y, m := PadDigits(a, 4), PadDigits(monthIndex + 1, 2);
    Pow10Small();
    PadDigitsValue(a, 4);
    PadDigitsValue(monthIndex + 1, 2);
    MonthText(sign, y, m);
    PatternFields(sign + y + "-" + m, |sign|, y, m, a, monthIndex);
  }

  lemma ParseFieldsAt(t: string, year: int, monthIndex: int)
    requires IsTrimmed(t) && MonthPattern(t) && PatternYear(t) == year && PatternMonthIndex(t) == monthIndex
    requires 0 <= monthIndex <= 11
    ensures ParseMonthFields(Some(t)) == Some((year, monthIndex))
  {
    TrimOfTrimmed(t);
  }

  /** Reading back a written month gives its year and month, whatever the
      year of at most four digits. */
  lemma ParseFormatMonthFields(year: int, monthIndex: int)
    requires -10000 < year < 10000 && 0 <= monthIndex <= 11
    ensures ParseMonthFields(Some(FormatMonth(year, monthIndex))) == Some((year, monthIndex))
  {
    FormatMonthFields(year, monthIndex);
    ParseFieldsAt(FormatMonth(year, monthIndex), year, monthIndex);
  }

  /** Reading back a written month gives the first day of that month,
      for every year of four digits except 0 to 99. */
  lemma ParseFormatMonth(year: int, monthIndex: int)
    requires -10000 < year < 10000 && 0 <= monthIndex <= 11
    requires !(0 <= year <= 99)
    ensures ParseMonthParam(Some(FormatMonth(year, monthIndex))) == Some(MonthStart(year, monthIndex))
  {
    ParseFormatMonthFields(year, monthIndex);
    MakeDateInMonth(year, monthIndex, 1);
  }

  /** A month lies wholly before the same month of any later year. */
  lemma EarlierYearEarlierStart(y1: int, y2: int, m: int)
    requires y1 < y2 && 0 <= m <= 11
    ensures MonthStart(y1, m) < MonthStart(y2, m)
  {
    MonthStartStep(y1, m);
    if m < 11 {
      MonthStartIncreases(y1, m + 1, y2, m);
    } else {
      MonthStartIncreases(y1 + 1, 0, y2, m);
    }
  }

  /** A year from 0 to 99 is read as its year plus 1900: `0050-03` names
      March 1950, not March of the year 50. */
  lemma TwoDigitYearShifted(year: int, monthIndex: int)
    requires 0 <= year <= 99 && 0 <= monthIndex <= 11
    ensures ParseMonthParam(Some(FormatMonth(year, monthIndex))) == Some(MonthStart(1900 + year, monthIndex))
    ensures ParseMonthParam(Some(FormatMonth(year, monthIndex))) != Some(MonthStart(year, monthIndex))
  {
    ParseFormatMonthFields(year, monthIndex);
    MakeDateInMonth(year, monthIndex, 1);
    EarlierYearEarlierStart(year, 1900 + year, monthIndex);
  }

  /** The month parameter read with the year taken as written, as
      `setFullYear` would set it. */
  function ParseMonthParamFullYear(value: Option<string>): (r: Option<Day>)
    ensures r.Some? <==> ParseMonthFields(value).Some?
  {
    var f := ParseMonthFields(value);
    if f.None? then None else Some(MonthStart(f.value.0, f.value.1))
  }

  /** With the year taken as written, every parsed month is the first day
      of exactly the month it names, and every written month reads back. */
  lemma FullYearFirstDay(value: Option<string>)
    requires ParseMonthFields(value).Some?
    ensures var f := ParseMonthFields(value).value;
      CivilOf(ParseMonthParamFullYear(value).value) == Civil(f.0, f.1, 1)
  {
    var f := ParseMonthFields(value).value;
    CivilOfDayOf(Civil(f.0, f.1, 1));
  }

  lemma ParseFormatMonthFullYear(year: int, monthIndex: int)
    requires -10000 < year < 10000 && 0 <= monthIndex <= 11
    ensures ParseMonthParamFullYear(Some(FormatMonth(year, monthIndex))) == Some(MonthStart(year, monthIndex))
  {
    ParseFormatMonthFields(year, monthIndex);
  }
}
