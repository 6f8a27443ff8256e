// The performance summary of a set of closed trades
// (src/lib/analytics/metrics.ts): counts, sums, profit factor, extremes,
// the average R multiple and the largest peak-to-trough fall of the equity
// curve, for all trades and for those of the last 30 days. Amounts are
// reals; the clock is a parameter.
module Metrics {
  import opened JsPlatform

  /** The fields of a stored trade the summary reads. */
  datatype NumericTrade = NumericTrade(
    profitLoss: real,
    openedAt: Instant,
    closedAt: Option<Instant>,
    rMultiple: Option<real>)

  datatype TradeMetrics = TradeMetrics(
    tradeCount: nat,
    netPnl: real,
    winRate: real,
    profitFactor: Option<real>,
    averageRMultiple: Option<real>,
    averageTrade: Option<real>,
    largestWin: Option<real>,
    largestLoss: Option<real>,
    maxDrawdown: real,
    winningTrades: nat,
    losingTrades: nat)

  datatype OverviewMetrics = OverviewMetrics(all: TradeMetrics, last30: TradeMetrics)

  /** The summary of no trades. */
  const EmptyMetrics := TradeMetrics(0, 0.0, 0.0, None, None, None, None, None, 0.0, 0, 0)

  /** `closedAt ?? openedAt`: when a trade counts in time. */
  function ReferenceTime(t: NumericTrade): Instant
  {
    t.closedAt.GetOr(t.openedAt)
  }

  function Pnls(trades: seq<NumericTrade>): (ps: seq<real>)
    ensures |ps| == |trades| && forall i :: 0 <= i < |trades| ==> ps[i] == trades[i].profitLoss
  {
    seq(|trades|, i requires 0 <= i < |trades| => trades[i].profitLoss)
  }

  /** `reduce((acc, value) => acc + value, 0)`, folding from the left. */
  function Sum(xs: seq<real>): real
  {
    if |xs| == 0 then 0.0 else Sum(xs[..|xs| - 1]) + xs[|xs| - 1]
  }

  /** The values above zero, in order. */
  function Gains(xs: seq<real>): (r: seq<real>)
    ensures |r| <= |xs|
    ensures forall x :: x in r <==> x in xs && x > 0.0
  {
    if |xs| == 0 then []
    else
      var init := Gains(xs[..|xs| - 1]);
      assert xs == xs[..|xs| - 1] + [xs[|xs| - 1]];
      if xs[|xs| - 1] > 0.0 then init + [xs[|xs| - 1]] else init
  }

  /** The values below zero, in order. */
  function Losses(xs: seq<real>): (r: seq<real>)
    ensures |r| <= |xs|
    ensures forall x :: x in r <==> x in xs && x < 0.0
  {
    if |xs| == 0 then []
    else
      var init := Losses(xs[..|xs| - 1]);
      assert xs == xs[..|xs| - 1] + [xs[|xs| - 1]];
      if xs[|xs| - 1] < 0.0 then init + [xs[|xs| - 1]] else init
  }

  /** `Math.max(...xs)` of a non-empty list. */
  function Largest(xs: seq<real>): (m: real)
    requires |xs| > 0
    ensures m in xs && forall i :: 0 <= i < |xs| ==> xs[i] <= m
  {
    if |xs| == 1 then xs[0]
    else
      var init := Largest(xs[..|xs| - 1]);
      assert init in xs;
      if xs[|xs| - 1] > init then xs[|xs| - 1] else init
  }

  /** `Math.min(...xs)` of a non-empty list. */
  function Smallest(xs: seq<real>): (m: real)
    requires |xs| > 0
    ensures m in xs && forall i :: 0 <= i < |xs| ==> m <= xs[i]
  {
    if |xs| == 1 then xs[0]
    else
      var init := Smallest(xs[..|xs| - 1]);
      assert init in xs;
      if xs[|xs| - 1] < init then xs[|xs| - 1] else init
  }

  /** The R multiples that are present, in order. */
  function RValues(trades: seq<NumericTrade>): (r: seq<real>)
    ensures |r| <= |trades|
    ensures forall x :: x in r <==> exists t :: t in trades && t.rMultiple == Some(x)
  {
    if |trades| == 0 then []
    else
      var last := trades[|trades| - 1];
      var init := RValues(trades[..|trades| - 1]);
      assert trades == trades[..|trades| - 1] + [last];
      if last.rMultiple.Some? then init + [last.rMultiple.value] else init
  }

  /** The gains of a concatenation are the gains of each part, in order; with
      `GainsSingle` and `Gains([]) == []` this fixes every gain, its
      multiplicity and its position, so `|Gains(xs)|` counts the positive values. */
  lemma {:induction false} GainsAppend(a: seq<real>, b: seq<real>)
    ensures Gains(a + b) == Gains(a) + Gains(b)
    decreases |b|
  {
    if |b| == 0 {
      assert a + b == a;
    } else {
      var front := b[..|b| - 1];
      assert (a + b)[..|a + b| - 1] == a + front;
      assert (a + b)[|a + b| - 1] == b[|b| - 1];
      GainsAppend(a, front);
    }
  }

  /** A single value is a gain exactly when it is above zero. */
  lemma GainsSingle(x: real)
    ensures Gains([x]) == if x > 0.0 then [x] else []
  {
    assert [x][..0] == [];
  }

  /** The losses of a concatenation are the losses of each part, in order; with
      `LossesSingle` this fixes `|Losses(xs)|` as the count of negative values. */
  lemma {:induction false} LossesAppend(a: seq<real>, b: seq<real>)
    ensures Losses(a + b) == Losses(a) + Losses(b)
    decreases |b|
  {
    if |b| == 0 {
      assert a + b == a;
    } else {
      var front := b[..|b| - 1];
      assert (a + b)[..|a + b| - 1] == a + front;
      assert (a + b)[|a + b| - 1] == b[|b| - 1];
      LossesAppend(a, front);
    }
  }

  /** A single value is a loss exactly when it is below zero. */
  lemma LossesSingle(x: real)
    ensures Losses([x]) == if x < 0.0 then [x] else []
  {
    assert [x][..0] == [];
  }

  /** The R multiples of a concatenation are those of each part, in order; with
      `RValuesSingle` this fixes `|RValues(trades)|` as the count of trades
      with an R multiple. */
  lemma {:induction false} RValuesAppend(a: seq<NumericTrade>, b: seq<NumericTrade>)
    ensures RValues(a + b) == RValues(a) + RValues(b)
    decreases |b|
  {
    if |b| == 0 {
      assert a + b == a;
    } else {
      var front := b[..|b| - 1];
      assert (a + b)[..|a + b| - 1] == a + front;
      assert (a + b)[|a + b| - 1] == b[|b| - 1];
      RValuesAppend(a, front);
    }
  }

  /** A single trade contributes its R multiple exactly when it has one. */
  lemma RValuesSingle(x: NumericTrade)
    ensures RValues([x]) == if x.rMultiple.Some? then [x.rMultiple.value] else []
  {
    assert [x][..0] == [];
  }

  function Abs(x: real): real { if x < 0.0 then -x else x }

  // ---------------------------------------------------------------------
  // Chronological order: the comparator sort by `closedAt ?? openedAt`.
  // `Array.prototype.sort` is stable, so trades with the same reference
  // time keep their input order; an insertion sort that places each trade
  // after every trade not later than it has exactly that outcome.

  predicate Chronological(s: seq<NumericTrade>)
  {
    forall i, j :: 0 <= i < j < |s| ==> ReferenceTime(s[i]) <= ReferenceTime(s[j])
  }

  function InsertByTime(s: seq<NumericTrade>, t: NumericTrade): seq<NumericTrade>
  {
    if |s| == 0 || ReferenceTime(s[|s| - 1]) <= ReferenceTime(t) then s + [t]
    else InsertByTime(s[..|s| - 1], t) + [s[|s| - 1]]
  }

  function SortByTime(trades: seq<NumericTrade>): seq<NumericTrade>
  {
    if |trades| == 0 then []
    else InsertByTime(SortByTime(trades[..|trades| - 1]), trades[|trades| - 1])
  }

  /** The trades with reference time `k`, in order. */
  function AtTime(s: seq<NumericTrade>, k: Instant): seq<NumericTrade>
  {
    if |s| == 0 then []
    else AtTime(s[..|s| - 1], k) + (if ReferenceTime(s[|s| - 1]) == k then [s[|s| - 1]] else [])
  }

  lemma AtTimeAppend(s: seq<NumericTrade>, t: NumericTrade, k: Instant)
    ensures AtTime(s + [t], k) == AtTime(s, k) + (if ReferenceTime(t) == k then [t] else [])
  {
    assert (s + [t])[..|s|] == s;
  }

  lemma {:induction false} InsertPermutes(s: seq<NumericTrade>, t: NumericTrade)
    ensures multiset(InsertByTime(s, t)) == multiset(s) + multiset{t}
  {
    if !(|s| == 0 || ReferenceTime(s[|s| - 1]) <= ReferenceTime(t)) {
      var init, last := s[..|s| - 1], s[|s| - 1];
      assert s == init + [last];
      InsertPermutes(init, t);
    }
  }

  lemma {:induction false} InsertKeepsOrder(s: seq<NumericTrade>, t: NumericTrade)
    requires Chronological(s)
    ensures Chronological(InsertByTime(s, t))
  {
    if !(|s| == 0 || ReferenceTime(s[|s| - 1]) <= ReferenceTime(t)) {
      var init, last := s[..|s| - 1], s[|s| - 1];
      assert s == init + [last];
      InsertKeepsOrder(init, t);
      InsertPermutes(init, t);
      var r := InsertByTime(init, t);
      forall i | 0 <= i < |r| ensures ReferenceTime(r[i]) <= ReferenceTime(last) {
        assert r[i] in multiset(r);
        if r[i] != t {
          assert r[i] in multiset(init);
          var j :| 0 <= j < |init| && init[j] == r[i];
          assert s[j] == r[i];
        }
      }
    }
  }

  lemma {:induction false} InsertKeepsTies(s: seq<NumericTrade>, t: NumericTrade, k: Instant)
    requires Chronological(s)
    ensures AtTime(InsertByTime(s, t), k) == AtTime(s, k) + (if ReferenceTime(t) == k then [t] else [])
  {
    if |s| == 0 || ReferenceTime(s[|s| - 1]) <= ReferenceTime(t) {
      AtTimeAppend(s, t, k);
    } else {
      var init, last := s[..|s| - 1], s[|s| - 1];
      assert s == init + [last];
      InsertKeepsTies(init, t, k);
      AtTimeAppend(InsertByTime(init, t), last, k);
      AtTimeAppend(init, last, k);
    }
  }

  /** The chronological order is sorted, a permutation of the input, and
      stable: the trades of each reference time keep their input order. */
  lemma {:induction false} SortByTimeFacts(trades: seq<NumericTrade>)
    ensures Chronological(SortByTime(trades))
    ensures multiset(SortByTime(trades)) == multiset(trades)
    ensures forall k :: AtTime(SortByTime(trades), k) == AtTime(trades, k)
  {
    if |trades| > 0 {
      var init, last := trades[..|trades| - 1], trades[|trades| - 1];
      assert trades == init + [last];
      SortByTimeFacts(init);
      InsertKeepsOrder(SortByTime(init), last);
      InsertPermutes(SortByTime(init), last);
      forall k { InsertKeepsTies(SortByTime(init), last, k); }
    }
  }

  // ---------------------------------------------------------------------
  // Drawdown. The loop keeps the running equity, its highest value so far
  // (starting at 0) and the largest gap between the two; `Peak` and
  // `Drawdown` are those values after a list of results, and the lemmas
  // below tie `Drawdown` to the largest fall between two points of the
  // equity curve.

  function Max(a: real, b: real): real { if a >= b then a else b }

  function Peak(xs: seq<real>): real
  {
    if |xs| == 0 then 0.0 else Max(Peak(xs[..|xs| - 1]), Sum(xs))
  }

  function Drawdown(xs: seq<real>): real
  {
    if |xs| == 0 then 0.0 else Max(Drawdown(xs[..|xs| - 1]), Peak(xs) - Sum(xs))
  }

  /** The equity after the first `i` results. */
  function EquityAt(xs: seq<real>, i: nat): real
    requires i <= |xs|
  {
    Sum(xs[..i])
  }

  lemma {:induction false} PeakIsHighestEquity(xs: seq<real>)
    ensures forall i :: 0 <= i <= |xs| ==> EquityAt(xs, i) <= Peak(xs)
    ensures exists i :: 0 <= i <= |xs| && EquityAt(xs, i) == Peak(xs)
  {
    if |xs| == 0 {
      assert EquityAt(xs, 0) == 0.0;
    } else {
      var init := xs[..|xs| - 1];
      PeakIsHighestEquity(init);
      assert xs[..|xs|] == xs;
      forall i | 0 <= i <= |init| ensures EquityAt(xs, i) == EquityAt(init, i) {
        assert xs[..i] == init[..i];
      }
      if Sum(xs) <= Peak(init) {
        var i :| 0 <= i <= |init| && EquityAt(init, i) == Peak(init);
        assert EquityAt(xs, i) == Peak(xs);
      } else {
        assert EquityAt(xs, |xs|) == Peak(xs);
      }
    }
  }

  /** `Drawdown` is the largest fall of the equity curve from an earlier
      (or the same) point to a later one, the curve starting at 0: no fall
      exceeds it and one reaches it. */
  lemma {:induction false} DrawdownIsLargestFall(xs: seq<real>)
    ensures forall i, j :: 0 <= i <= j <= |xs| ==> EquityAt(xs, i) - EquityAt(xs, j) <= Drawdown(xs)
    ensures exists i, j :: 0 <= i <= j <= |xs| && EquityAt(xs, i) - EquityAt(xs, j) == Drawdown(xs)
  {
    if |xs| == 0 {
      assert EquityAt(xs, 0) - EquityAt(xs, 0) == 0.0;
    } else {
      var init := xs[..|xs| - 1];
      DrawdownIsLargestFall(init);
      PeakIsHighestEquity(xs);
      assert xs[..|xs|] == xs;
      forall i | 0 <= i <= |init| ensures EquityAt(xs, i) == EquityAt(init, i) {
        assert xs[..i] == init[..i];
      }
      if Peak(xs) - Sum(xs) <= Drawdown(init) {
        var i, j :| 0 <= i <= j <= |init| && EquityAt(init, i) - EquityAt(init, j) == Drawdown(init);
        assert EquityAt(xs, i) - EquityAt(xs, j) == Drawdown(xs);
      } else {
        var i :| 0 <= i <= |xs| && EquityAt(xs, i) == Peak(xs);
        assert EquityAt(xs, i) - EquityAt(xs, |xs|) == Drawdown(xs);
      }
    }
  }

  /** The drawdown is never negative, and is 0 when no result is a loss. */
  lemma DrawdownBounds(xs: seq<real>)
    ensures Drawdown(xs) >= 0.0
    ensures (forall x :: x in xs ==> x >= 0.0) ==> Drawdown(xs) == 0.0
  {
    DrawdownIsLargestFall(xs);
    assert EquityAt(xs, 0) - EquityAt(xs, 0) == 0.0;
    if forall x :: x in xs ==> x >= 0.0 {
      forall i, j | 0 <= i <= j <= |xs| ensures EquityAt(xs, i) <= EquityAt(xs, j) {
        EquityGrows(xs, i, j);
      }
    }
  }

  lemma {:induction false} EquityGrows(xs: seq<real>, i: nat, j: nat)
    requires i <= j <= |xs|
    requires forall x :: x in xs ==> x >= 0.0
    ensures EquityAt(xs, i) <= EquityAt(xs, j)
    decreases j
  {
    if i < j {
      EquityGrows(xs, i, j - 1);
      assert xs[..j][..j - 1] == xs[..j - 1];
      assert xs[j - 1] in xs;
    }
  }

  /** The drawdown loop over the results in chronological order. */
  method MaxDrawdown(pnls: seq<real>) returns (maxDrawdown: real)
    ensures maxDrawdown == Drawdown(pnls)
  {
    var runningEquity, peakEquity := 0.0, 0.0;
    maxDrawdown := 0.0;
    var i := 0;
    while i < |pnls|
      invariant 0 <= i <= |pnls|
      invariant runningEquity == Sum(pnls[..i])
      invariant peakEquity == Peak(pnls[..i])
      invariant maxDrawdown == Drawdown(pnls[..i])
    {
      assert pnls[..i + 1][..i] == pnls[..i];
      runningEquity := runningEquity + pnls[i];
      if runningEquity > peakEquity {
        peakEquity := runningEquity;
      }
      var drawdown := peakEquity - runningEquity;
      if drawdown > maxDrawdown {
        maxDrawdown := drawdown;
      }
      i := i + 1;
    }
    assert pnls[..i] == pnls;
  }

  // ---------------------------------------------------------------------
  // The summary.

  /** `toMetrics`. */
  function MetricsOf(trades: seq<NumericTrade>): TradeMetrics
  {
    if |trades| == 0 then EmptyMetrics
    else
      var pnls := Pnls(trades);
      var n := |trades| as real;
      var netPnl := Sum(pnls);
      var wins := |Gains(pnls)|;
      var losses := |Losses(pnls)|;
      var grossProfit := Sum(Gains(pnls));
      var grossLoss := Sum(Losses(pnls));
      var rs := RValues(trades);
      TradeMetrics(
        |trades|,
        netPnl,
        (wins as real / n) * 100.0,
        if grossLoss != 0.0 then Some(grossProfit / Abs(grossLoss)) else None,
        if |rs| > 0 then Some(Sum(rs) / |rs| as real) else None,
        Some(netPnl / n),
        Some(Largest(pnls)),
        Some(Smallest(pnls)),
        Drawdown(Pnls(SortByTime(trades))),
        wins,
        losses)
  }

  method ToMetrics(trades: seq<NumericTrade>) returns (m: TradeMetrics)
    ensures m == MetricsOf(trades)
  {
    if |trades| == 0 {
      return EmptyMetrics;
    }
    var pnls := Pnls(trades);
    var n := |trades| as real;
    var netPnl := Sum(pnls);
    var wins := |Gains(pnls)|;
    var losses := |Losses(pnls)|;
    var grossProfit := Sum(Gains(pnls));
    var grossLoss := Sum(Losses(pnls));
    var profitFactor := if grossLoss != 0.0 then Some(grossProfit / Abs(grossLoss)) else None;
    var rs := RValues(trades);
    var averageRMultiple := if |rs| > 0 then Some(Sum(rs) / |rs| as real) else None;
    var sortedTrades := SortByTime(trades);
    var maxDrawdown := MaxDrawdown(Pnls(sortedTrades));
    m := TradeMetrics(|trades|, netPnl, (wins as real / n) * 100.0, profitFactor, averageRMultiple,
                      Some(netPnl / n), Some(Largest(pnls)), Some(Smallest(pnls)), maxDrawdown, wins, losses);
  }

  lemma {:induction false} SumSplits(xs: seq<real>)
    ensures Sum(xs) == Sum(Gains(xs)) + Sum(Losses(xs))
    ensures Sum(Gains(xs)) >= 0.0 && Sum(Losses(xs)) <= 0.0
    ensures Sum(Losses(xs)) == 0.0 <==> |Losses(xs)| == 0
  {
    if |xs| > 0 {
      var init := xs[..|xs| - 1];
      SumSplits(init);
      var g, l := Gains(init), Losses(init);
      assert (g + [xs[|xs| - 1]])[..|g|] == g;
      assert (l + [xs[|xs| - 1]])[..|l|] == l;
    }
  }

  lemma {:induction false} CountsSplit(xs: seq<real>)
    ensures |Gains(xs)| + |Losses(xs)| <= |xs|
  {
    if |xs| > 0 {
      CountsSplit(xs[..|xs| - 1]);
    }
  }

  lemma Percentage(a: nat, n: nat)
    requires a <= n && n > 0
    ensures 0.0 <= (a as real / n as real) * 100.0 <= 100.0
  {
    assert a as real / n as real <= 1.0;
  }

  lemma QuotientNonNegative(a: real, b: real)
    requires a >= 0.0 && b > 0.0
    ensures a / b >= 0.0
  {
  }

  /** No trades give the empty summary; otherwise the counts are those of
      the input: every trade counted, wins the results above zero, losses
      those below, so wins and losses together never exceed the count, and
      the win rate is the percentage of wins. */
  lemma MetricsCounts(trades: seq<NumericTrade>)
    ensures |trades| == 0 ==> MetricsOf(trades) == EmptyMetrics
    ensures var m := MetricsOf(trades);
      m.tradeCount == |trades| &&
      m.winningTrades == |Gains(Pnls(trades))| && m.losingTrades == |Losses(Pnls(trades))| &&
      m.winningTrades + m.losingTrades <= m.tradeCount &&
      0.0 <= m.winRate <= 100.0 &&
      (|trades| > 0 ==> m.winRate == (m.winningTrades as real / m.tradeCount as real) * 100.0)
  {
    CountsSplit(Pnls(trades));
    if |trades| > 0 {
      Percentage(|Gains(Pnls(trades))|, |trades|);
    }
  }

  /** The net result is the sum of the results, gross profit plus gross
      loss, and the average trade is that sum over the count. */
  lemma MetricsSums(trades: seq<NumericTrade>)
    requires |trades| > 0
    ensures var m := MetricsOf(trades);
      var pnls := Pnls(trades);
      m.netPnl == Sum(pnls) == Sum(Gains(pnls)) + Sum(Losses(pnls)) &&
      m.averageTrade == Some(m.netPnl / |trades| as real)
  {
    SumSplits(Pnls(trades));
  }

  /** The profit factor is absent exactly when there is no losing trade;
      otherwise it is gross profit over the size of gross loss, and never
      negative. */
  lemma ProfitFactorFacts(trades: seq<NumericTrade>)
    ensures var m := MetricsOf(trades);
      (m.profitFactor.None? <==> m.losingTrades == 0) &&
      (m.profitFactor.Some? ==>
        m.profitFactor.value == Sum(Gains(Pnls(trades))) / -Sum(Losses(Pnls(trades))) &&
        m.profitFactor.value >= 0.0)
  {
    SumSplits(Pnls(trades));
    if |trades| > 0 && Sum(Losses(Pnls(trades))) != 0.0 {
      QuotientNonNegative(Sum(Gains(Pnls(trades))), -Sum(Losses(Pnls(trades))));
    }
  }

  /** The largest win and largest loss are results of the input, every
      result lies between them, and so the loss is never above the win. */
  lemma ExtremesFacts(trades: seq<NumericTrade>)
    requires |trades| > 0
    ensures var m := MetricsOf(trades);
      m.largestWin.Some? && m.largestLoss.Some? &&
      m.largestWin.value in Pnls(trades) && m.largestLoss.value in Pnls(trades) &&
      (forall t :: t in trades ==> m.largestLoss.value <= t.profitLoss <= m.largestWin.value) &&
      m.largestLoss.value <= m.largestWin.value
  {
    var pnls := Pnls(trades);
    forall t | t in trades ensures t.profitLoss in pnls {
      var i :| 0 <= i < |trades| && trades[i] == t;
      assert pnls[i] == t.profitLoss;
    }
    assert pnls[0] in pnls;
  }

  /** The average R multiple averages the R multiples that are present and
      is absent when none is. */
  lemma AverageRFacts(trades: seq<NumericTrade>)
    requires |trades| > 0
    ensures var m := MetricsOf(trades);
      (m.averageRMultiple.None? <==> forall t :: t in trades ==> t.rMultiple.None?) &&
      (m.averageRMultiple.Some? ==> m.averageRMultiple.value == Sum(RValues(trades)) / |RValues(trades)| as real)
  {
    if !forall t :: t in trades ==> t.rMultiple.None? {
      var t :| t in trades && t.rMultiple.Some?;
      assert t.rMultiple.value in RValues(trades);
    }
  }

  /** The drawdown is the largest fall of the equity curve built from the
      results in chronological order, never negative, and 0 when no trade
      lost. */
  lemma DrawdownFacts(trades: seq<NumericTrade>)
    requires |trades| > 0
    ensures var m := MetricsOf(trades);
      var curve := Pnls(SortByTime(trades));
      Chronological(SortByTime(trades)) && multiset(SortByTime(trades)) == multiset(trades) &&
      (forall i, j :: 0 <= i <= j <= |curve| ==> EquityAt(curve, i) - EquityAt(curve, j) <= m.maxDrawdown) &&
      (exists i, j :: 0 <= i <= j <= |curve| && EquityAt(curve, i) - EquityAt(curve, j) == m.maxDrawdown) &&
      m.maxDrawdown >= 0.0 &&
      ((forall t :: t in trades ==> t.profitLoss >= 0.0) ==> m.maxDrawdown == 0.0)
  {
    var sorted := SortByTime(trades);
    var curve := Pnls(sorted);
    SortByTimeFacts(trades);
    DrawdownIsLargestFall(curve);
    if forall t :: t in trades ==> t.profitLoss >= 0.0 {
      forall x | x in curve ensures x >= 0.0 {
        var i :| 0 <= i < |curve| && curve[i] == x;
        assert sorted[i] in multiset(trades);
      }
    }
    DrawdownBounds(curve);
  }

  // ---------------------------------------------------------------------
  // The overview.

  /** The trades whose reference time is not before `threshold`. */
  function Since(trades: seq<NumericTrade>, threshold: Instant): (r: seq<NumericTrade>)
    ensures forall t :: t in r <==> t in trades && ReferenceTime(t) >= threshold
    ensures |r| <= |trades|
  {
    if |trades| == 0 then []
    else
      var last := trades[|trades| - 1];
      assert trades == trades[..|trades| - 1] + [last];
      Since(trades[..|trades| - 1], threshold) + (if ReferenceTime(last) >= threshold then [last] else [])
  }

  /** `filter` keeps order and multiplicity: filtering a concatenation
      filters each part, so a trade occurring twice is kept twice and the
      kept trades stay in the order of the list. */
  lemma {:induction false} SinceConcat(a: seq<NumericTrade>, b: seq<NumericTrade>, threshold: Instant)
    ensures Since(a + b, threshold) == Since(a, threshold) + Since(b, threshold)
    decreases |b|
  {
    if |b| == 0 {
      assert a + b == a;
    } else {
      var last := b[|b| - 1];
      var front := b[..|b| - 1];
      assert (a + b)[..|a + b| - 1] == a + front;
      assert (a + b)[|a + b| - 1] == last;
      SinceConcat(a, front, threshold);
    }
  }

  /** A single trade is kept exactly when its reference time is not before
      the threshold. */
  lemma SinceSingle(t: NumericTrade, threshold: Instant)
    ensures Since([t], threshold) == if ReferenceTime(t) >= threshold then [t] else []
  {
    assert [t][..0] == [];
  }

  /** `calculateOverviewMetrics` at the instant `now`. */
  function OverviewOf(trades: seq<NumericTrade>, eng: Engine, now: Instant): OverviewMetrics
  {
    if |trades| == 0 then OverviewMetrics(EmptyMetrics, EmptyMetrics)
    else OverviewMetrics(MetricsOf(trades), MetricsOf(Since(trades, eng.subDays(now, 30))))
  }

  method CalculateOverviewMetrics(trades: seq<NumericTrade>, eng: Engine, now: Instant)
    returns (overview: OverviewMetrics)
    ensures overview == OverviewOf(trades, eng, now)
  {
    if |trades| == 0 {
      return OverviewMetrics(EmptyMetrics, EmptyMetrics);
    }
    var threshold := eng.subDays(now, 30);
    var all := ToMetrics(trades);
    var last30 := ToMetrics(Since(trades, threshold));
    overview := OverviewMetrics(all, last30);
  }

  /** The overview summarises all trades, and separately exactly the trades
      whose `closedAt ?? openedAt` is not before 30 days ago, which are never
      more than all of them. */
  lemma OverviewFacts(trades: seq<NumericTrade>, eng: Engine, now: Instant)
    ensures var o := OverviewOf(trades, eng, now);
      var recent := Since(trades, eng.subDays(now, 30));
      o.all == MetricsOf(trades) && o.last30 == MetricsOf(recent) &&
      (forall t :: t in recent <==> t in trades && ReferenceTime(t) >= eng.subDays(now, 30)) &&
      o.last30.tradeCount <= o.all.tradeCount
  {
    var recent := Since(trades, eng.subDays(now, 30));
    MetricsCounts(trades);
    MetricsCounts(recent);
  }
}
