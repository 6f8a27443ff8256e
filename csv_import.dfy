// `parseTradeCsv` (src/lib/imports/csv.ts): a first pass maps every header of
// every row to a canonical field; a second pass turns each row into a
// normalised trade, a skip with a reason, and possibly a warning, dropping rows
// that repeat an earlier row's deduplication key. The CSV text itself is
// already split into records: a row is `Object.entries` of one record.
module CsvImport {
  import opened JsText
  import opened JsPlatform
  import opened CsvHeaders
  import opened CsvCoerce

  /** One CSV record as header/cell pairs, in column order. */
  type Row = seq<(string, string)>

  datatype NormalizedTrade = NormalizedTrade(
    symbol: string,
    side: TradeSide,
    quantity: Option<real>,
    entryPrice: Option<real>,
    exitPrice: Option<real>,
    stopLoss: Option<real>,
    takeProfit: Option<real>,
    fees: Option<real>,
    profitLoss: Option<real>,
    openedAt: Instant,
    closedAt: Option<Instant>,
    notes: Option<string>,
    strategyTag: Option<string>,
    externalId: Option<string>,
    raw: Row)

  /** Why a row is skipped; `ReasonText` gives the text the result carries. */
  datatype SkipReason = MissingFields | DuplicateInFile

  /** An entry of `skipped`: the 1-based row number and the reason. */
  datatype Skip = Skip(row: nat, reason: SkipReason)

  /** A warning of the row pass; `WarningText` gives its text. */
  datatype Warning = OpenTimeUnresolved(row: nat)

  datatype CsvResult = CsvResult(
    trades: seq<NormalizedTrade>,
    skipped: seq<Skip>,
    headerMapping: map<string, Option<NormalizedKey>>,
    unknownHeaders: seq<string>,
    warnings: seq<Warning>)

  function ReasonText(reason: SkipReason): string
  {
    match reason
    case MissingFields => "Missing required symbol or side field."
    case DuplicateInFile => "Duplicate trade detected for this file."
  }

  function WarningText(warning: Warning): string
  {
    "Row " + NatToString(warning.row) + ": Unable to determine entry/open time. Trade imported without openedAt."
  }

  predicate IsNumberKey(k: NormalizedKey)
  {
    k.Quantity? || k.EntryPrice? || k.ExitPrice? || k.StopLoss? || k.TakeProfit? || k.Fees? || k.ProfitLoss?
  }

  predicate IsDateKey(k: NormalizedKey)
  {
    k.OpenedAt? || k.ClosedAt?
  }

  predicate IsTextKey(k: NormalizedKey)
  {
    !k.Symbol? && !k.Side? && !IsNumberKey(k) && !IsDateKey(k)
  }

  /** The partial record `working` a row is gathered into: each field is
      present or absent. */
  datatype Working = Working(
    symbol: Option<string>,
    side: Option<TradeSide>,
    numbers: map<NormalizedKey, real>,
    dates: map<NormalizedKey, Instant>,
    texts: map<NormalizedKey, string>)

  const NoFields := Working(None, None, map[], map[], map[])

  /** What the row pass reads besides the rows: the mapping of the first
      pass, the cell readers of the `switch`, the engine and the clock. */
  datatype Config = Config(
    mapping: map<string, Option<NormalizedKey>>,
    readNumber: string -> Option<real>,
    readDate: string -> Option<Instant>,
    readSide: string -> Option<TradeSide>,
    eng: Engine,
    now: Instant)

  /** The row pass of `parseTradeCsv`: numbers through `toNumber` with the
      chosen separator, dates through `toDate`, sides through `toSide`. */
  function RowPassConfig(mapping: map<string, Option<NormalizedKey>>, sep: DecimalSeparator,
                         eng: Engine, now: Instant): Config
  {
    Config(mapping, v => ToNumber(v, sep), v => ToDate(v, eng), ToSide, eng, now)
  }

  /** `headerMapping[header]` as the row pass reads it. */
  function Target(cfg: Config, header: string): Option<NormalizedKey>
  {
    if header in cfg.mapping then cfg.mapping[header] else None
  }

  /** One arm of the `switch (target)`: the symbol is overwritten with the
      trimmed cell, every other field is set only while still absent
      (`??=`), and a number or date that does not parse leaves it absent. */
  function Assign(w: Working, target: NormalizedKey, value: string, cfg: Config): Working
  {
    if target.Symbol? then w.(symbol := Some(Trim(value)))
    else if target.Side? then w.(side := Coalesce(w.side, cfg.readSide(value)))
    else if IsNumberKey(target) then
      if target in w.numbers then w
      else match cfg.readNumber(value)
        case Some(x) => w.(numbers := w.numbers[target := x])
        case None => w
    else if IsDateKey(target) then
      if target in w.dates then w
      else match cfg.readDate(value)
        case Some(t) => w.(dates := w.dates[target := t])
        case None => w
    else
      if target in w.texts then w else w.(texts := w.texts[target := value])
  }

  /** The entry loop over one row, for the entries seen so far. */
  function Populate(row: Row, cfg: Config): Working
  {
    if row == [] then NoFields
    else
      var w := Populate(row[..|row| - 1], cfg);
      var (header, value) := row[|row| - 1];
      match Target(cfg, header)
      case None => w
      case Some(target) => Assign(w, target, value, cfg)
  }

  function NumberOf(w: Working, k: NormalizedKey): Option<real>
  {
    if k in w.numbers then Some(w.numbers[k]) else None
  }

  function DateOf(w: Working, k: NormalizedKey): Option<Instant>
  {
    if k in w.dates then Some(w.dates[k]) else None
  }

  function TextOf(w: Working, k: NormalizedKey): Option<string>
  {
    if k in w.texts then Some(w.texts[k]) else None
  }

  /** A row is kept only with a non-empty symbol and a side. */
  predicate Complete(w: Working)
  {
    Truthy(w.symbol) && w.side.Some?
  }

  function OpenTime(w: Working, cfg: Config): Option<Instant>
  {
    CombineDateParts(DateOf(w, OpenedAt), TextOf(w, OpenedAtDate), TextOf(w, OpenedAtTime), cfg.eng)
  }

  function CloseTime(w: Working, cfg: Config): Option<Instant>
  {
    CombineDateParts(DateOf(w, ClosedAt), TextOf(w, ClosedAtDate), TextOf(w, ClosedAtTime), cfg.eng)
  }

  function SideName(side: TradeSide): string
  {
    match side
    case Long => "LONG"
    case Short => "SHORT"
  }

  /** An optional number as `join` renders it: absent is the empty text. */
  function NumberText(x: Option<real>, eng: Engine): string
  {
    match x
    case Some(v) => eng.numberText(v)
    case None => ""
  }

  /** `dedupeKey`: a non-empty external ID, else symbol, side, opening
      instant (empty when unresolved), entry price and quantity joined with
      `|`. */
  function DedupeKey(w: Working, openTime: Option<Instant>, eng: Engine): string
    requires Complete(w)
  {
    var externalId := TextOf(w, ExternalId);
    if Truthy(externalId) then externalId.value
    else
      var iso := match openTime case Some(t) => eng.isoString(t) case None => "";
      Join([w.symbol.value, SideName(w.side.value), iso,
            NumberText(NumberOf(w, EntryPrice), eng), NumberText(NumberOf(w, Quantity), eng)], "|")
  }

  /** The trade pushed for a kept row; an unresolved opening time becomes
      the current instant. */
  function MakeTrade(w: Working, row: Row, cfg: Config): NormalizedTrade
    requires Complete(w)
  {
    NormalizedTrade(
      w.symbol.value, w.side.value,
      NumberOf(w, Quantity), NumberOf(w, EntryPrice), NumberOf(w, ExitPrice),
      NumberOf(w, StopLoss), NumberOf(w, TakeProfit), NumberOf(w, Fees), NumberOf(w, ProfitLoss),
      OpenTime(w, cfg).GetOr(cfg.now), CloseTime(w, cfg),
      TextOf(w, Notes), TextOf(w, StrategyTag), TextOf(w, ExternalId),
      row)
  }

  /** The accumulators of the row pass; `keys` lists the deduplication key of
      each pushed trade (the source keeps them as the set `seenTrades`). */
  datatype Progress = Progress(trades: seq<NormalizedTrade>, skipped: seq<Skip>,
                               warnings: seq<Warning>, keys: seq<string>)

  /** One iteration of the row pass, for the row numbered `n`. */
  function Step(p: Progress, row: Row, n: nat, cfg: Config): Progress
  {
    var w := Populate(row, cfg);
    if !Complete(w) then p.(skipped := p.skipped + [Skip(n, MissingFields)])
    else
      var openTime := OpenTime(w, cfg);
      var warnings := if openTime.None? then p.warnings + [OpenTimeUnresolved(n)] else p.warnings;
      var key := DedupeKey(w, openTime, cfg.eng);
      if key in p.keys then p.(skipped := p.skipped + [Skip(n, DuplicateInFile)], warnings := warnings)
      else p.(trades := p.trades + [MakeTrade(w, row, cfg)], warnings := warnings, keys := p.keys + [key])
  }

  /** The row pass over the first `i` rows, the row at index `k` being
      numbered `k + 1`. */
  function Fold(rows: seq<Row>, i: nat, cfg: Config): Progress
    requires i <= |rows|
  {
    if i == 0 then Progress([], [], [], [])
    else Step(Fold(rows, i - 1, cfg), rows[i - 1], i, cfg)
  }

  /** The headers of a row (`Object.keys(row)`). */
  function Headers(row: Row): seq<string>
  {
    seq(|row|, i requires 0 <= i < |row| => row[i].0)
  }

  lemma HeadersAppend(row: Row, j: nat)
    requires j < |row|
    ensures Headers(row[..j + 1]) == Headers(row[..j]) + [row[j].0]
  {
    assert row[..j + 1][..j] == row[..j];
  }

  /** The headers of all rows, in the order the first pass meets them. */
  function AllHeaders(rows: seq<Row>): seq<string>
  {
    if rows == [] then [] else AllHeaders(rows[..|rows| - 1]) + Headers(rows[|rows| - 1])
  }

  lemma AllHeadersAppend(rows: seq<Row>, i: nat)
    requires i < |rows|
    ensures AllHeaders(rows[..i + 1]) == AllHeaders(rows[..i]) + Headers(rows[i])
  {
    assert rows[..i + 1][..i] == rows[..i];
  }

  /** `normalizedTrades.slice(0, previewLimit)` when a limit is given. */
  function Limit<T>(s: seq<T>, previewLimit: Option<int>): (r: seq<T>)
    ensures previewLimit.None? ==> r == s
    ensures previewLimit.Some? && previewLimit.value >= 0 ==>
      |r| == (if previewLimit.value < |s| then previewLimit.value else |s|)
    ensures previewLimit.Some? && previewLimit.value < 0 ==>
      |r| == (if |s| + previewLimit.value < 0 then 0 else |s| + previewLimit.value)
    ensures r == s[..|r|]
  {
    match previewLimit
    case None => s
    case Some(n) =>
      var end := if n >= 0 then (if n < |s| then n else |s|)
                 else (if |s| + n < 0 then 0 else |s| + n);
      s[..end]
  }

  /** What `parseTradeCsv` returns for the records `rows`. */
  function ParseResult(rows: seq<Row>, sep: DecimalSeparator, previewLimit: Option<int>,
                       eng: Engine, now: Instant): CsvResult
  {
    var headers := AllHeaders(rows);
    var mapping := HeaderMapping(headers, MapHeader);
    var p := Fold(rows, |rows|, RowPassConfig(mapping, sep, eng, now));
    CsvResult(Limit(p.trades, previewLimit), p.skipped, mapping,
              UnknownHeaders(headers, MapHeader), p.warnings)
  }

  lemma AppendAssociates<T>(a: seq<T>, b: seq<T>, c: seq<T>)
    ensures (a + b) + c == a + (b + c)
  {
  }

  lemma UpdateWithSameValue<K, V>(m: map<K, V>, k: K, v: V)
    requires k in m && m[k] == v
    ensures m[k := v] == m
  {
  }

  /** The first pass: every header of every row is mapped once, and the
      headers mapped to null are collected, in the order first met. */
  method MapHeaders(rows: seq<Row>) returns (mapping: map<string, Option<NormalizedKey>>, unknown: seq<string>)
    ensures mapping == HeaderMapping(AllHeaders(rows), MapHeader)
    ensures unknown == UnknownHeaders(AllHeaders(rows), MapHeader)
  {
    mapping := map[];
    unknown := [];
    var i := 0;
    while i < |rows|
      invariant 0 <= i <= |rows|
      invariant mapping == HeaderMapping(AllHeaders(rows[..i]), MapHeader)
      invariant unknown == UnknownHeaders(AllHeaders(rows[..i]), MapHeader)
    {
      mapping, unknown := MapRowHeaders(rows[i], mapping, unknown, AllHeaders(rows[..i]));
      AllHeadersAppend(rows, i);
      i := i + 1;
    }
    assert rows[..i] == rows;
  }

  /** The first pass over the headers of one row. */
  method MapRowHeaders(row: Row, mapping0: map<string, Option<NormalizedKey>>, unknown0: seq<string>,
                       ghost met: seq<string>)
    returns (mapping: map<string, Option<NormalizedKey>>, unknown: seq<string>)
    requires mapping0 == HeaderMapping(met, MapHeader)
    requires unknown0 == UnknownHeaders(met, MapHeader)
    ensures mapping == HeaderMapping(met + Headers(row), MapHeader)
    ensures unknown == UnknownHeaders(met + Headers(row), MapHeader)
  {
    mapping, unknown := mapping0, unknown0;
    ghost var seen := met;
    var j := 0;
    assert Headers(row[..0]) == [];
    assert met + [] == met;
    while j < |row|
      invariant 0 <= j <= |row|
      invariant seen == met + Headers(row[..j])
      invariant mapping == HeaderMapping(seen, MapHeader)
      invariant unknown == UnknownHeaders(seen, MapHeader)
    {
      var header := row[j].0;
      if header !in mapping || mapping[header].None? {
        mapping := mapping[header := MapHeader(header)];
      } else {
        HeaderMappingMapsEachHeader(seen, MapHeader);
        UpdateWithSameValue(mapping, header, MapHeader(header));
      }
      if mapping[header].None? && header !in unknown {
        unknown := unknown + [header];
      }
      HeaderMappingAppend(seen, header, MapHeader);
      HeadersAppend(row, j);
      AppendAssociates(met, Headers(row[..j]), [header]);
      assert seen + [header] == met + Headers(row[..j + 1]);
      seen := seen + [header];
      j := j + 1;
    }
    assert row[..j] == row;
  }

  /** The entry loop of the row pass: the `working` record of one row. */
  method GatherRow(row: Row, cfg: Config) returns (w: Working)
    ensures w == Populate(row, cfg)
  {
    w := NoFields;
    var j := 0;
    while j < |row|
      invariant 0 <= j <= |row|
      invariant w == Populate(row[..j], cfg)
    {
      var (header, value) := row[j];
      var target := if header in cfg.mapping then cfg.mapping[header] else None;
      if target.Some? {
        w := Assign(w, target.value, value, cfg);
      }
      assert row[..j + 1][..j] == row[..j];
      j := j + 1;
    }
    assert row[..j] == row;
  }

  /** One iteration of the row loop, for the row numbered `n`: `seen` is the
      set of dedupe keys of the trades kept so far. */
  method ProcessRow(row: Row, n: nat, cfg: Config, trades0: seq<NormalizedTrade>, skipped0: seq<Skip>,
                    warnings0: seq<Warning>, seen0: set<string>, ghost keys0: seq<string>)
    returns (trades: seq<NormalizedTrade>, skipped: seq<Skip>, warnings: seq<Warning>,
             seen: set<string>, ghost keys: seq<string>)
    requires forall k :: k in seen0 <==> k in keys0
    ensures Progress(trades, skipped, warnings, keys) ==
      Step(Progress(trades0, skipped0, warnings0, keys0), row, n, cfg)
    ensures forall k :: k in seen <==> k in keys
  {
    trades, skipped, warnings, seen, keys := trades0, skipped0, warnings0, seen0, keys0;
    var w := GatherRow(row, cfg);
    var openedAt := OpenTime(w, cfg);
    if !Complete(w) {
      skipped := skipped + [Skip(n, MissingFields)];
    } else {
      if openedAt.None? {
        warnings := warnings + [OpenTimeUnresolved(n)];
      }
      var key := DedupeKey(w, openedAt, cfg.eng);
      if key in seen {
        skipped := skipped + [Skip(n, DuplicateInFile)];
      } else {
        seen := seen + {key};
        keys := keys + [key];
        trades := trades + [MakeTrade(w, row, cfg)];
      }
    }
  }

  /** `parseTradeCsv(csvInput, { decimalSeparator, previewLimit })` on the
      records of `csvInput`; `now` is the instant `new Date()` gives. */
  method ParseTradeCsv(rows: seq<Row>, sep: DecimalSeparator, previewLimit: Option<int>,
                       eng: Engine, now: Instant) returns (result: CsvResult)
    ensures result == ParseResult(rows, sep, previewLimit, eng, now)
  {
    var mapping, unknown := MapHeaders(rows);
    var cfg := RowPassConfig(mapping, sep, eng, now);
    var trades: seq<NormalizedTrade> := [];
    var skipped: seq<Skip> := [];
    var warnings: seq<Warning> := [];
    var seen: set<string> := {};
    ghost var keys: seq<string> := [];
    var i := 0;
    while i < |rows|
      invariant 0 <= i <= |rows|
      invariant Progress(trades, skipped, warnings, keys) == Fold(rows, i, cfg)
      invariant forall k :: k in seen <==> k in keys
    {
      trades, skipped, warnings, seen, keys := ProcessRow(rows[i], i + 1, cfg, trades, skipped, warnings, seen, keys);
      i := i + 1;
    }
    result := CsvResult(Limit(trades, previewLimit), skipped, mapping, unknown, warnings);
  }
}
