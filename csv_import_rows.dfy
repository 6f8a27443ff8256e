// How the row pass of `parseTradeCsv` splits the rows of a file: each row is
// either pushed as a trade, or skipped as incomplete, or skipped as a repeat
// of an earlier row's deduplication key; rows without an opening time get a
// warning. Every fact is stated for the first `i` rows of a fixed file.
module CsvImportRows {
  import opened JsText
  import opened JsPlatform
  import opened CsvHeaders
  import opened CsvCoerce
  import opened CsvImport

  /** Row `i` (0-based) has a non-empty symbol and a side. */
  predicate RowComplete(rows: seq<Row>, i: int, cfg: Config)
    requires 0 <= i < |rows|
  {
    Complete(Populate(rows[i], cfg))
  }

  /** The deduplication key of a complete row. */
  function RowKey(rows: seq<Row>, i: int, cfg: Config): string
    requires 0 <= i < |rows| && RowComplete(rows, i, cfg)
  {
    var w := Populate(rows[i], cfg);
    DedupeKey(w, OpenTime(w, cfg), cfg.eng)
  }

  /** Some complete row before row `i` has the key `k`. */
  predicate KeyBefore(rows: seq<Row>, i: int, cfg: Config, k: string)
    requires 0 <= i <= |rows|
  {
    exists h :: 0 <= h < i && RowComplete(rows, h, cfg) && RowKey(rows, h, cfg) == k
  }

  /** Row `i` is kept: it is complete and no earlier complete row has its key. */
  predicate Kept(rows: seq<Row>, i: int, cfg: Config)
    requires 0 <= i < |rows|
  {
    RowComplete(rows, i, cfg) && !KeyBefore(rows, i, cfg, RowKey(rows, i, cfg))
  }
  /** What row `i` (0-based) adds to the trades: its trade when it is kept. */
  function KeptHere(rows: seq<Row>, i: nat, cfg: Config): seq<NormalizedTrade>
    requires i < |rows|
  {
    if Kept(rows, i, cfg) then [MakeTrade(Populate(rows[i], cfg), rows[i], cfg)] else []
  }

  /** The trades of the kept rows among the first `i`, in row order. */
  function KeptTrades(rows: seq<Row>, i: nat, cfg: Config): seq<NormalizedTrade>
    requires i <= |rows|
  {
    if i == 0 then [] else KeptTrades(rows, i - 1, cfg) + KeptHere(rows, i - 1, cfg)
  }

  /** What row `i` (0-based) adds to the warnings: one, numbered `i + 1`,
      when it is complete and its opening time is unresolved. */
  function WarnedHere(rows: seq<Row>, i: nat, cfg: Config): seq<Warning>
    requires i < |rows|
  {
    if RowComplete(rows, i, cfg) && OpenTime(Populate(rows[i], cfg), cfg).None? then [OpenTimeUnresolved(i + 1)] else []
  }

  /** The warnings for the complete rows among the first `i` whose opening
      time is unresolved, in row order. */
  function Warned(rows: seq<Row>, i: nat, cfg: Config): seq<Warning>
    requires i <= |rows|
  {
    if i == 0 then [] else Warned(rows, i - 1, cfg) + WarnedHere(rows, i - 1, cfg)
  }

  /** What row `i` (0-based) adds to the skips, given the keys pushed so
      far: a missing-field skip, a duplicate skip, or nothing. */
  function SkipHere(rows: seq<Row>, i: nat, cfg: Config, keys: seq<string>): seq<Skip>
    requires i < |rows|
  {
    if !RowComplete(rows, i, cfg) then [Skip(i + 1, MissingFields)]
    else if RowKey(rows, i, cfg) in keys then [Skip(i + 1, DuplicateInFile)]
    else []
  }

  /** The accumulators after `i` rows account for each row once: as a
      trade or as a skip, the skips numbered in increasing row order, one
      key per trade. */
  predicate Accounted(p: Progress, i: nat)
  {
    |p.trades| + |p.skipped| == i && |p.trades| == |p.keys| &&
    (forall a :: 0 <= a < |p.skipped| ==> 1 <= p.skipped[a].row <= i) &&
    (forall a, b :: 0 <= a < b < |p.skipped| ==> p.skipped[a].row < p.skipped[b].row)
  }

  /** `keys` holds exactly the keys of the complete rows among the first `i`. */
  ghost predicate KeysListed(rows: seq<Row>, i: nat, cfg: Config, keys: seq<string>)
    requires i <= |rows|
  {
    forall k {:trigger KeyBefore(rows, i, cfg, k)} :: k in keys <==> KeyBefore(rows, i, cfg, k)
  }

  /** Each trade sits beside its key, and a trade with a non-empty external
      ID has that ID as its key. */
  predicate TradeKeysAligned(p: Progress)
  {
    |p.trades| == |p.keys| &&
    forall t :: 0 <= t < |p.trades| && Truthy(p.trades[t].externalId) ==> p.keys[t] == p.trades[t].externalId.value
  }

  /** Among rows 1 to `i`, `skipped` holds a missing-field skip for row
      `m` exactly when row `m` lacks a non-empty symbol or a side. */
  predicate MissingSkipsExact(rows: seq<Row>, i: nat, cfg: Config, skipped: seq<Skip>)
    requires i <= |rows|
  {
    forall m :: 1 <= m <= i ==> (Skip(m, MissingFields) in skipped <==> !RowComplete(rows, m - 1, cfg))
  }

  /** Among rows 1 to `i`, `skipped` holds a duplicate skip for row `m`
      exactly when row `m` is complete and an earlier complete row has its
      deduplication key. */
  ghost predicate DuplicateSkipsExact(rows: seq<Row>, i: nat, cfg: Config, skipped: seq<Skip>)
    requires i <= |rows|
  {
    forall m :: 1 <= m <= i ==>
      (Skip(m, DuplicateInFile) in skipped <==> RowComplete(rows, m - 1, cfg) && KeyBefore(rows, m - 1, cfg, RowKey(rows, m - 1, cfg)))
  }

  // One iteration of the row pass, for the row numbered `n`, field by field.

  lemma FoldNextTrades(rows: seq<Row>, n: nat, cfg: Config)
    requires 0 < n <= |rows|
    ensures var p, q := Fold(rows, n - 1, cfg), Fold(rows, n, cfg);
      q.trades ==
        if RowComplete(rows, n - 1, cfg) && RowKey(rows, n - 1, cfg) !in p.keys
        then p.trades + [MakeTrade(Populate(rows[n - 1], cfg), rows[n - 1], cfg)]
        else p.trades
  {
  }

  lemma FoldNextKeys(rows: seq<Row>, n: nat, cfg: Config)
    requires 0 < n <= |rows|
    ensures var p, q := Fold(rows, n - 1, cfg), Fold(rows, n, cfg);
      q.keys ==
        if RowComplete(rows, n - 1, cfg) && RowKey(rows, n - 1, cfg) !in p.keys then p.keys + [RowKey(rows, n - 1, cfg)]
        else p.keys
  {
  }

  lemma FoldNextSkipped(rows: seq<Row>, n: nat, cfg: Config)
    requires 0 < n <= |rows|
    ensures var p, q := Fold(rows, n - 1, cfg), Fold(rows, n, cfg);
      q.skipped == p.skipped + SkipHere(rows, n - 1, cfg, p.keys)
  {
  }

  lemma FoldNextWarnings(rows: seq<Row>, n: nat, cfg: Config)
    requires 0 < n <= |rows|
    ensures Fold(rows, n, cfg).warnings == Fold(rows, n - 1, cfg).warnings + WarnedHere(rows, n - 1, cfg)
  {
  }

  /** A trade with a non-empty external ID is deduplicated by that ID. */
  lemma KeyOfExternalId(rows: seq<Row>, i: nat, cfg: Config)
    requires i < |rows| && RowComplete(rows, i, cfg)
    ensures var t := MakeTrade(Populate(rows[i], cfg), rows[i], cfg);
      Truthy(t.externalId) ==> RowKey(rows, i, cfg) == t.externalId.value
  {
  }

  // From one row to the next, over any accumulators `p` (before row `n`)
  // and `q` (after it).

  lemma AccountedNext(rows: seq<Row>, n: nat, cfg: Config, p: Progress, q: Progress)
    requires 0 < n <= |rows| && Accounted(p, n - 1)
    requires q.trades ==
      if RowComplete(rows, n - 1, cfg) && RowKey(rows, n - 1, cfg) !in p.keys
      then p.trades + [MakeTrade(Populate(rows[n - 1], cfg), rows[n - 1], cfg)]
      else p.trades
    requires q.keys ==
      if RowComplete(rows, n - 1, cfg) && RowKey(rows, n - 1, cfg) !in p.keys then p.keys + [RowKey(rows, n - 1, cfg)]
      else p.keys
    requires q.skipped == p.skipped + SkipHere(rows, n - 1, cfg, p.keys)
    ensures Accounted(q, n)
  {
  }

  lemma KeysNext(rows: seq<Row>, n: nat, cfg: Config, keys: seq<string>, keys': seq<string>)
    requires 0 < n <= |rows| && KeysListed(rows, n - 1, cfg, keys)
    requires keys' ==
      if RowComplete(rows, n - 1, cfg) && RowKey(rows, n - 1, cfg) !in keys then keys + [RowKey(rows, n - 1, cfg)]
      else keys
    ensures KeysListed(rows, n, cfg, keys')
  {
    forall k
      ensures k in keys' <==> KeyBefore(rows, n, cfg, k)
    {
      if KeyBefore(rows, n, cfg, k) && !(RowComplete(rows, n - 1, cfg) && RowKey(rows, n - 1, cfg) == k) {
        var h :| 0 <= h < n && RowComplete(rows, h, cfg) && RowKey(rows, h, cfg) == k;
        assert KeyBefore(rows, n - 1, cfg, k);
      }
      if RowComplete(rows, n - 1, cfg) && RowKey(rows, n - 1, cfg) == k {
        assert KeyBefore(rows, n, cfg, k);
      }
      if KeyBefore(rows, n - 1, cfg, k) {
        var h :| 0 <= h < n - 1 && RowComplete(rows, h, cfg) && RowKey(rows, h, cfg) == k;
        assert KeyBefore(rows, n, cfg, k);
      }
    }
  }

  lemma KeysDistinctNext(rows: seq<Row>, n: nat, cfg: Config, keys: seq<string>, keys': seq<string>)
    requires 0 < n <= |rows| && NoRepeats(keys)
    requires keys' ==
      if RowComplete(rows, n - 1, cfg) && RowKey(rows, n - 1, cfg) !in keys then keys + [RowKey(rows, n - 1, cfg)]
      else keys
    ensures NoRepeats(keys')
  {
  }

  lemma TradesNext(rows: seq<Row>, n: nat, cfg: Config, keys: seq<string>,
                   trades: seq<NormalizedTrade>, trades': seq<NormalizedTrade>)
    requires 0 < n <= |rows| && KeysListed(rows, n - 1, cfg, keys)
    requires trades' ==
      if RowComplete(rows, n - 1, cfg) && RowKey(rows, n - 1, cfg) !in keys
      then trades + [MakeTrade(Populate(rows[n - 1], cfg), rows[n - 1], cfg)]
      else trades
    ensures trades' == trades + KeptHere(rows, n - 1, cfg)
  {
    if RowComplete(rows, n - 1, cfg) {
      assert RowKey(rows, n - 1, cfg) in keys <==> KeyBefore(rows, n - 1, cfg, RowKey(rows, n - 1, cfg));
    }
  }

  lemma TradeKeysNext(rows: seq<Row>, n: nat, cfg: Config, p: Progress, q: Progress)
    requires 0 < n <= |rows| && TradeKeysAligned(p)
    requires q.trades ==
      if RowComplete(rows, n - 1, cfg) && RowKey(rows, n - 1, cfg) !in p.keys
      then p.trades + [MakeTrade(Populate(rows[n - 1], cfg), rows[n - 1], cfg)]
      else p.trades
    requires q.keys ==
      if RowComplete(rows, n - 1, cfg) && RowKey(rows, n - 1, cfg) !in p.keys then p.keys + [RowKey(rows, n - 1, cfg)]
      else p.keys
    ensures TradeKeysAligned(q)
  {
    if RowComplete(rows, n - 1, cfg) {
      KeyOfExternalId(rows, n - 1, cfg);
    }
  }

  /** Appending at most one skip for row `n` to skips of earlier rows. */
  lemma SkipsExtended(before: seq<Skip>, extra: seq<Skip>, n: nat)
    requires forall a :: 0 <= a < |before| ==> before[a].row < n
    requires |extra| <= 1 && forall a :: 0 <= a < |extra| ==> extra[a].row == n
    ensures forall m: nat, reason :: m < n ==> (Skip(m, reason) in before + extra <==> Skip(m, reason) in before)
    ensures forall reason :: Skip(n, reason) in before + extra <==> extra == [Skip(n, reason)]
  {
    forall reason | Skip(n, reason) in before + extra
      ensures extra == [Skip(n, reason)]
    {
      var a :| 0 <= a < |before + extra| && (before + extra)[a] == Skip(n, reason);
    }
  }

  lemma MissingNext(rows: seq<Row>, n: nat, cfg: Config, p: Progress, after: seq<Skip>)
    requires 0 < n <= |rows| && after == p.skipped + SkipHere(rows, n - 1, cfg, p.keys)
    requires Accounted(p, n - 1)
    requires MissingSkipsExact(rows, n - 1, cfg, p.skipped)
    ensures MissingSkipsExact(rows, n, cfg, after)
  {
    SkipsExtended(p.skipped, SkipHere(rows, n - 1, cfg, p.keys), n);
  }

  lemma DuplicateNext(rows: seq<Row>, n: nat, cfg: Config, p: Progress, after: seq<Skip>)
    requires 0 < n <= |rows| && after == p.skipped + SkipHere(rows, n - 1, cfg, p.keys)
    requires Accounted(p, n - 1) && KeysListed(rows, n - 1, cfg, p.keys)
    requires DuplicateSkipsExact(rows, n - 1, cfg, p.skipped)
    ensures DuplicateSkipsExact(rows, n, cfg, after)
  {
    SkipsExtended(p.skipped, SkipHere(rows, n - 1, cfg, p.keys), n);
    if RowComplete(rows, n - 1, cfg) {
      assert RowKey(rows, n - 1, cfg) in p.keys <==> KeyBefore(rows, n - 1, cfg, RowKey(rows, n - 1, cfg));
    }
  }

  // The row pass over the first `i` rows.

  /** Every row is accounted for once: as a trade or as a skip, the skips
      numbered in increasing row order, one key per trade. */
  lemma {:induction false} FoldAccounts(rows: seq<Row>, i: nat, cfg: Config)
    requires i <= |rows|
    ensures Accounted(Fold(rows, i, cfg), i)
  {
    if i > 0 {
      FoldAccounts(rows, i - 1, cfg);
      FoldStepAccounted(rows, i, cfg);
    }
  }

  lemma FoldStepAccounted(rows: seq<Row>, i: nat, cfg: Config)
    requires 0 < i <= |rows| && Accounted(Fold(rows, i - 1, cfg), i - 1)
    ensures Accounted(Fold(rows, i, cfg), i)
  {
    FoldNextTrades(rows, i, cfg);
    FoldNextKeys(rows, i, cfg);
    FoldNextSkipped(rows, i, cfg);
    AccountedNext(rows, i, cfg, Fold(rows, i - 1, cfg), Fold(rows, i, cfg));
  }

  /** The keys of the pushed trades are exactly the keys of the complete
      rows so far. */
  lemma {:induction false} FoldKeys(rows: seq<Row>, i: nat, cfg: Config)
    requires i <= |rows|
    ensures KeysListed(rows, i, cfg, Fold(rows, i, cfg).keys)
  {
    if i > 0 {
      FoldKeys(rows, i - 1, cfg);
      FoldNextKeys(rows, i, cfg);
      KeysNext(rows, i, cfg, Fold(rows, i - 1, cfg).keys, Fold(rows, i, cfg).keys);
    }
  }

  /** The keys of the pushed trades are each listed once. */
  lemma {:induction false} FoldKeysDistinct(rows: seq<Row>, i: nat, cfg: Config)
    requires i <= |rows|
    ensures NoRepeats(Fold(rows, i, cfg).keys)
  {
    if i > 0 {
      FoldKeysDistinct(rows, i - 1, cfg);
      FoldNextKeys(rows, i, cfg);
      KeysDistinctNext(rows, i, cfg, Fold(rows, i - 1, cfg).keys, Fold(rows, i, cfg).keys);
    }
  }

  /** The trades pushed are those of the kept rows, in row order: the first
      complete row of each deduplication key. */
  lemma {:induction false} FoldTrades(rows: seq<Row>, i: nat, cfg: Config)
    requires i <= |rows|
    ensures Fold(rows, i, cfg).trades == KeptTrades(rows, i, cfg)
  {
    if i > 0 {
      FoldTrades(rows, i - 1, cfg);
      FoldKeys(rows, i - 1, cfg);
      FoldNextTrades(rows, i, cfg);
      TradesNext(rows, i, cfg, Fold(rows, i - 1, cfg).keys, Fold(rows, i - 1, cfg).trades, Fold(rows, i, cfg).trades);
    }
  }

  /** Each pushed trade sits beside its key, and a trade with a non-empty
      external ID has that ID as its key. */
  lemma {:induction false} FoldTradeKeys(rows: seq<Row>, i: nat, cfg: Config)
    requires i <= |rows|
    ensures TradeKeysAligned(Fold(rows, i, cfg))
  {
    if i > 0 {
      FoldTradeKeys(rows, i - 1, cfg);
      FoldNextTrades(rows, i, cfg);
      FoldNextKeys(rows, i, cfg);
      TradeKeysNext(rows, i, cfg, Fold(rows, i - 1, cfg), Fold(rows, i, cfg));
    }
  }
  /** A row is skipped as incomplete exactly when it lacks a non-empty
      symbol or a side. */
  lemma {:induction false} FoldMissingSkips(rows: seq<Row>, i: nat, cfg: Config)
    requires i <= |rows|
    ensures MissingSkipsExact(rows, i, cfg, Fold(rows, i, cfg).skipped)
  {
    if i > 0 {
      FoldMissingSkips(rows, i - 1, cfg);
      FoldAccounts(rows, i - 1, cfg);
      FoldNextSkipped(rows, i, cfg);
      MissingNext(rows, i, cfg, Fold(rows, i - 1, cfg), Fold(rows, i, cfg).skipped);
    }
  }

  /** A row is skipped as a duplicate exactly when it is complete and an
      earlier complete row has its deduplication key. */
  lemma {:induction false} FoldDuplicateSkips(rows: seq<Row>, i: nat, cfg: Config)
    requires i <= |rows|
    ensures DuplicateSkipsExact(rows, i, cfg, Fold(rows, i, cfg).skipped)
  {
    if i > 0 {
      FoldDuplicateSkips(rows, i - 1, cfg);
      FoldAccounts(rows, i - 1, cfg);
      FoldKeys(rows, i - 1, cfg);
      FoldNextSkipped(rows, i, cfg);
      DuplicateNext(rows, i, cfg, Fold(rows, i - 1, cfg), Fold(rows, i, cfg).skipped);
    }
  }

  /** A warning is given for each complete row whose opening time is
      unresolved, in row order, whether or not the row is then kept. */
  lemma {:induction false} FoldWarnings(rows: seq<Row>, i: nat, cfg: Config)
    requires i <= |rows|
    ensures Fold(rows, i, cfg).warnings == Warned(rows, i, cfg)
  {
    if i > 0 {
      FoldWarnings(rows, i - 1, cfg);
      FoldNextWarnings(rows, i, cfg);
    }
  }

  /** No two trades of one file share a non-empty external ID. */
  lemma ExternalIdsDistinct(rows: seq<Row>, cfg: Config)
    ensures var trades := Fold(rows, |rows|, cfg).trades;
      forall a, b :: 0 <= a < b < |trades| && Truthy(trades[a].externalId) ==>
        trades[a].externalId != trades[b].externalId
  {
    FoldTradeKeys(rows, |rows|, cfg);
    FoldKeysDistinct(rows, |rows|, cfg);
  }

  /** What `parseTradeCsv` returns, row by row: the kept rows' trades (cut
      to the preview limit), one skip per other row with its reason, and a
      warning per complete row with no opening time. */
  lemma ParseResultRows(rows: seq<Row>, sep: DecimalSeparator, previewLimit: Option<int>, eng: Engine, now: Instant)
    ensures var r := ParseResult(rows, sep, previewLimit, eng, now);
      var cfg := RowPassConfig(r.headerMapping, sep, eng, now);
      r.trades == Limit(KeptTrades(rows, |rows|, cfg), previewLimit) &&
      r.warnings == Warned(rows, |rows|, cfg) &&
      |KeptTrades(rows, |rows|, cfg)| + |r.skipped| == |rows| &&
      (forall n :: 1 <= n <= |rows| ==>
        (Skip(n, MissingFields) in r.skipped <==> !RowComplete(rows, n - 1, cfg))) &&
      (forall n :: 1 <= n <= |rows| ==>
        (Skip(n, DuplicateInFile) in r.skipped <==>
          RowComplete(rows, n - 1, cfg) && KeyBefore(rows, n - 1, cfg, RowKey(rows, n - 1, cfg))))
  {
    var cfg := RowPassConfig(HeaderMapping(AllHeaders(rows), MapHeader), sep, eng, now);
    FoldTrades(rows, |rows|, cfg);
    FoldWarnings(rows, |rows|, cfg);
    FoldAccounts(rows, |rows|, cfg);
    FoldMissingSkips(rows, |rows|, cfg);
    FoldDuplicateSkips(rows, |rows|, cfg);
  }
}
