# Trade import, analytics and route gate of a trading journal, in Dafny

This project models the core of a trading-journal web application and proves
properties of the model. The core has four parts:

- **CSV import parser.** `parseTradeCsv` (`src/lib/imports/csv.ts`) works in two passes.
  - The first pass maps every CSV header to a canonical trade field through a normalised alias table.
  - The second pass turns each row into one of three things: a normalised trade, a skipped row with its reason, or a trade with a warning.
  - The parser coerces numbers (currency signs, thousands and decimal separators), trade sides and dates.
  - It builds an opening time from separate date and time columns.
  - It drops a row whose deduplication key repeats an earlier row's key.
  - It can cut the result to a preview limit.
- **Import preview and import commit.**
  - The preview route (`app/api/imports/preview/route.ts`) parses a file. It flags each trade whose fingerprint is already stored for the account.
  - The commit route (`app/api/imports/process/route.ts`) validates a batch of at most 1000 trades and rejects an unreadable opening time.
  - The commit then derives the fingerprints already stored, splits the batch into new trades and duplicates, and appends the new trades to the store.
- **Analytics.**
  - `calculateOverviewMetrics` (`src/lib/analytics/metrics.ts`) summarises trades in two groups: all trades, and the trades of the last 30 days. The summary gives counts, net result, win rate, profit factor, averages, extremes and the largest drawdown of the equity curve.
  - `buildMonthCalendar` (`src/lib/analytics/calendar.ts`) lays a month out as whole weeks from Monday to Sunday, with per-day and per-week totals.
  - `parseMonthParam` reads a `YYYY-MM` query value.
- **Route gate.** `middleware.ts` lets public paths through. Otherwise:
  - a request without a signed-in user is sent to the login page;
  - a signed-in user who is not an administrator is sent from `/admin` to the dashboard.

## How the platform is modelled

Some behaviour is defined by the JavaScript engine or a library:

- `new Date(text)`;
- date-fns `parse` and `subDays`;
- `toISOString`;
- how a number or a `Prisma.Decimal` is rendered as text.

The model takes these as an `Engine` value of total functions (`JsPlatform.Engine`), so every property holds whatever they do. The clock (`new Date()`) is an `Instant` parameter `now`.

Other choices:

- Numbers are `real`.
- `Number.parseFloat` is a decimal-prefix parser (`JsNumber.ParseFloat`).
- `toLowerCase` is modelled on ASCII letters.
- A calendar day is a day number counted from 1970-01-01, with proleptic Gregorian fields (`CivilCalendar`).
- `new Date(y, m, d)` is modelled with its carrying of day and month, and with its rule that years 0 to 99 mean 1900 to 1999 (`CivilCalendar.MakeDate`).
- The local day of an instant is a parameter `localDay`.

The database is modelled as a `TradeStore` class whose `rows` field `createMany` appends to. The two routes read that store.

The model follows the code in two places:

- A row with no readable opening time is not skipped. It gets a warning and is imported with `now` as its opening time, as `csv.ts:359-363` and `csv.ts:390` do.
- There are no separate day, month or year columns. The alias table at `csv.ts:6-103` has none.

Files and modules:

- `jsplatform.dfy` (`JsPlatform`), `jstext.dfy` (`JsText`), `jsnumber.dfy` (`JsNumber`): engine services, `trim`/`toLowerCase`/`replace`, and `parseFloat`.
- `csv_headers.dfy` (`CsvHeaders`), `csv_coerce.dfy` (`CsvCoerce`): header aliases and normalisation; number, side and date coercion.
- `csv_import.dfy` (`CsvImport`), `csv_import_rows.dfy` (`CsvImportRows`), `csv_import_facts.dfy` (`CsvImportFacts`): `parseTradeCsv` and its proofs.
- `fingerprints.dfy` (`Fingerprints`): fingerprints shared by both routes, and the trade store.
- `import_commit.dfy` (`ImportCommit`), `import_preview.dfy` (`ImportPreview`): the two routes.
- `metrics.dfy` (`Metrics`), `civil_calendar.dfy` (`CivilCalendar`), `calendar.dfy` (`Calendar`): the analytics.
- `middleware.dfy` (`RouteGate`): the route gate.

## Model

| member | source | states |
|---|---|---|
| JsPlatform.Coalesce | src/lib/imports/csv.ts:285 | `a ?? b`: the first value when it is present, the second otherwise |
| JsText.ToLower | src/lib/imports/csv.ts:178 | same length as the input; each character is lowered alone, and the result has no ASCII upper-case letter |
| JsText.TrimStart | src/lib/imports/csv.ts:178 | the result is a suffix of the input, does not start with white space, and only white space was removed |
| JsText.TrimEnd | src/lib/imports/csv.ts:178 | the result is a prefix of the input, does not end with white space, and only white space was removed |
| JsText.TrimmedResult | src/lib/imports/csv.ts:183 | `trim` gives a trimmed text no longer than its input |
| JsText.TrimIdempotent | src/lib/imports/csv.ts:206 | trimming twice is trimming once |
| JsText.TrimEmptyIffAllSpace | src/lib/imports/csv.ts:206-207 | `trim` empties a text exactly when the text is all white space |
| JsText.RemoveSpaces | src/lib/imports/csv.ts:184 | `replace(/\s/g, "")` leaves no white space and never lengthens the text |
| JsText.RemoveSpacesOfFree | src/lib/imports/csv.ts:184 | text without white space is left unchanged; with `RemoveSpacesAppend` this characterises the deletion |
| JsText.RemoveSpacesAppend | src/lib/imports/csv.ts:184 | deleting white space distributes over concatenation |
| JsText.RemoveSpacesAbsorbsTrim | src/lib/imports/csv.ts:183-184 | trimming before deleting all white space changes nothing |
| JsText.NatToString | src/lib/imports/csv.ts:361 | a row number renders as a non-empty run of decimal digits |
| JsText.NatToStringRoundTrip | src/lib/imports/csv.ts:361 | reading the rendering of a row number back gives the number |
| JsNumber.RunEndDigits | src/lib/imports/csv.ts:188 | `parseFloat` reads digits up to the end of the run: every character of the run is a digit and the one after it is not |
| JsNumber.RunEndOfDigits | src/lib/imports/csv.ts:188 | a run of digits that nothing continues ends exactly where the digits stop |
| JsNumber.ParseFloatOfNat | src/lib/imports/csv.ts:188 | `parseFloat` of the decimal text of a whole number gives that number |
| JsNumber.ParseFloatIgnoresTail | src/lib/imports/csv.ts:188 | `parseFloat` stops at the first character that cannot continue a number |
| JsNumber.ParseFloatNegative | src/lib/imports/csv.ts:188 | a leading minus sign negates the value, and absent stays absent |
| JsNumber.ParseFloat | src/lib/imports/csv.ts:188 | defines `Number.parseFloat` followed by the `Number.isFinite` test; its properties are stated by the `ParseFloat…`, `ScanDecimal` and `LiteralValueFraction` lemmas |
| JsNumber.ParseFloatUnsigned | src/lib/imports/csv.ts:188 | text that starts with neither white space nor a sign reads as its unsigned literal |
| JsNumber.ParseFloatMinus | src/lib/imports/csv.ts:188 | text that starts with `-` reads as the negated literal after the sign |
| JsNumber.ScaledNegative | src/lib/imports/csv.ts:188 | scaling a digit value down by `n` places divides it by `10^n` |
| JsNumber.LiteralValueFraction | src/lib/imports/csv.ts:188 | a literal without exponent is worth its whole part plus its fraction digits over ten to their count |
| JsNumber.ScanDecimal | src/lib/imports/csv.ts:188 | `a.b` followed by text that cannot continue a number scans as whole part `a`, fraction `b` over `|b|` digits, no exponent |
| JsNumber.ParseFloatOfScan | src/lib/imports/csv.ts:188 | unsigned text reads as the value of the literal it scans as |
| JsNumber.ParseFloatDecimal | src/lib/imports/csv.ts:188 | `parseFloat` of `a.b` followed by text that cannot continue a number is the literal with whole part `a` and fraction `b`; with `LiteralValueFraction` that is `a + b / 10^|b|` |
| CsvHeaders.SeparatorsToSpaces | src/lib/imports/csv.ts:178 | `replace(/[_-]/g, " ")`: same length; each underscore or dash becomes a space and every other character is kept |
| CsvHeaders.CollapseSpaces | src/lib/imports/csv.ts:178 | `replace(/\s+/g, " ")`: no two white-space characters in a row, every space is a plain space, empty exactly when the input is, keeps whether the text starts with white space, and adds no character that is not white space |
| CsvHeaders.NormalizeHeaderShape | src/lib/imports/csv.ts:177-178 | every normalised header is trimmed, single-spaced, lower-case and free of `_` and `-` |
| CsvHeaders.NormalizeHeader | src/lib/imports/csv.ts:177-178 | defines `normalizeHeader`; its properties are stated by `NormalizeHeaderShape`, `NormalizeHeaderFixedPoint` and `NormalizeHeaderIdempotent` |
| CsvHeaders.NormalizeHeaderFixedPoint | src/lib/imports/csv.ts:177-178 | a header already in normal form is left unchanged |
| CsvHeaders.NormalizeHeaderIdempotent | src/lib/imports/csv.ts:177-178 | normalising twice is normalising once |
| CsvHeaders.CollapseSpacesFixed | src/lib/imports/csv.ts:178 | a single-spaced text is left unchanged by collapsing white space |
| CsvHeaders.CollapseKeepsText | src/lib/imports/csv.ts:178 | collapsing white space keeps every other character, in order and with its multiplicity: deleting white space before or after collapsing gives the same text |
| CsvHeaders.CollapseRunBetween | src/lib/imports/csv.ts:178 | a run of white space after a word without white space, and before text that does not start with white space, becomes exactly one plain space (`Entry  Price` gives `Entry Price`) |
| CsvHeaders.MapHeaderOfNormalized | src/lib/imports/csv.ts:258-260 | a header and its normalised text map to the same field |
| CsvHeaders.DigitHeaderIsUnknown | src/lib/imports/csv.ts:258-264 | a header of digits only, such as an integer-like key, maps to no field and so is always an unknown header |
| CsvHeaders.EveryKeyHasAnAlias | src/lib/imports/csv.ts:6-103 | every canonical field is the target of some alias in the table |
| CsvHeaders.TradeFieldsHaveAliases | src/lib/imports/csv.ts:7-45 | the symbol, side, quantity, entry, exit and stop-loss fields each have an alias |
| CsvHeaders.OutcomeAndOpenFieldsHaveAliases | src/lib/imports/csv.ts:47-76 | the take-profit, fees, profit/loss and opening-time fields each have an alias |
| CsvHeaders.CloseAndTextFieldsHaveAliases | src/lib/imports/csv.ts:78-102 | the closing-time, notes, strategy and external-ID fields each have an alias |
| CsvHeaders.HeaderMappingMapsEachHeader | src/lib/imports/csv.ts:256-261 | the header mapping has exactly the headers met, each mapped by its own text |
| CsvHeaders.UnknownHeadersAreTheUnmapped | src/lib/imports/csv.ts:262-264 | the unknown headers are exactly the headers met that map to no field, each listed once |
| CsvHeaders.HeaderMappingAppend | src/lib/imports/csv.ts:257-265 | one more header updates the mapping at that header and adds it to the unknown list only when it is unmapped and new |
| CsvHeaders.MappingOrderIndependent | src/lib/imports/csv.ts:256-266 | the mapping depends only on which headers occur, not on their order or repetition |
| CsvCoerce.RemoveCurrency | src/lib/imports/csv.ts:185 | no currency sign is left, and every character left comes from the input |
| CsvCoerce.RemoveChar | src/lib/imports/csv.ts:186 | the character is removed everywhere, and every character left comes from the input |
| CsvCoerce.ReplaceChar | src/lib/imports/csv.ts:187 | same length; every occurrence of the character is replaced and nothing else changes |
| CsvCoerce.RemoveCurrencyAppend | src/lib/imports/csv.ts:185 | deleting currency signs distributes over concatenation |
| CsvCoerce.RemoveCurrencyOfFree | src/lib/imports/csv.ts:185 | text without a currency sign is left unchanged |
| CsvCoerce.RemoveCharAppend | src/lib/imports/csv.ts:186 | deleting a character distributes over concatenation |
| CsvCoerce.RemoveCharOfFree | src/lib/imports/csv.ts:186 | text without the character is left unchanged |
| CsvCoerce.RemoveCharDropsSeparator | src/lib/imports/csv.ts:186 | the separator being deleted disappears from between the parts, and a part free of it is kept whole |
| CsvCoerce.RemoveCharKeepsSeparator | src/lib/imports/csv.ts:186 | any other separator stays between the parts |
| CsvCoerce.ReplaceCharSame | src/lib/imports/csv.ts:187 | replacing `.` by `.` (the dot convention) changes nothing |
| CsvCoerce.ReplaceCommaBetween | src/lib/imports/csv.ts:187 | the comma between two runs of digits becomes a point and nothing else changes |
| CsvCoerce.GroupedIsBare | src/lib/imports/csv.ts:183-185 | a grouped number of digits, one point and one comma has nothing to trim and no white space or currency sign to delete |
| CsvCoerce.PointRemoved | src/lib/imports/csv.ts:186 | deleting `.` from `a.b,c` gives `ab,c` |
| CsvCoerce.CommaRemoved | src/lib/imports/csv.ts:186 | deleting `,` from `a.b,c` gives `a.bc` |
| CsvCoerce.CleanGroupedComma | src/lib/imports/csv.ts:182-187 | under the comma convention `a.b,c` cleans to `ab.c` |
| CsvCoerce.CleanGroupedDot | src/lib/imports/csv.ts:182-187 | under the dot convention `a.b,c` cleans to `a.bc` |
| CsvCoerce.ToNumberGroupedExample | src/lib/imports/csv.ts:180-190 | `1.234,56` reads as 1234.56 under the comma convention and as 1.23456 under the dot convention |
| CsvCoerce.CleanNumberShape | src/lib/imports/csv.ts:182-187 | the cleaned text has no white space, no currency sign and no comma, for either separator |
| CsvCoerce.ToNumber | src/lib/imports/csv.ts:180-190 | defines `toNumber`; its properties are stated by `CleanNumberShape`, `CommaIsSwappedDot`, `ToNumberOfNat`, `CleanGroupedComma`, `CleanGroupedDot` and `ToNumberGroupedExample` |
| CsvCoerce.CommaIsSwappedDot | src/lib/imports/csv.ts:186-187 | cleaning with a comma separator is cleaning with a dot separator after exchanging `.` and `,` |
| CsvCoerce.SwapSeparators | src/lib/imports/csv.ts:186-187 | same length, and every character has `.` and `,` exchanged |
| CsvCoerce.SwapCommutesWithTrim | src/lib/imports/csv.ts:183 | exchanging the separators commutes with `trim` |
| CsvCoerce.SwapCommutesWithCleaning | src/lib/imports/csv.ts:184-185 | exchanging the separators commutes with deleting white space and currency signs |
| CsvCoerce.ToNumberOfNat | src/lib/imports/csv.ts:180-190 | the decimal text of a whole number reads as that number with either separator |
| CsvCoerce.DigitsAreKept | src/lib/imports/csv.ts:182-187 | cleaning leaves a run of digits unchanged, with either separator |
| CsvCoerce.SideLongIff | src/lib/imports/csv.ts:192-202 | a side text reads as LONG exactly when it is `bought` or `call`, or it is not `sold` or `put` and contains `long`, or it contains `buy` and not `short` |
| CsvCoerce.SideNoneIff | src/lib/imports/csv.ts:192-202 | a side text has no side exactly when it is none of the exact words and contains none of `long`, `short`, `buy`, `sell` |
| CsvCoerce.ToSideNormalizes | src/lib/imports/csv.ts:193-194 | surrounding white space and letter case do not change the side |
| CsvCoerce.ToSide | src/lib/imports/csv.ts:192-202 | defines `toSide`; its properties are stated by `SideLongIff`, `SideNoneIff` and `ToSideNormalizes` |
| CsvCoerce.ToLowerIdempotent | src/lib/imports/csv.ts:194 | lowering twice is lowering once |
| CsvCoerce.FirstFormatIsFirst | src/lib/imports/csv.ts:214-219 | the format loop fails exactly when every format fails, and otherwise returns the instant of the first format that parses |
| CsvCoerce.ToDateOfTrim | src/lib/imports/csv.ts:204-207 | only the trimmed text matters, and blank text has no date |
| CsvCoerce.ToDateFallsBack | src/lib/imports/csv.ts:209-221 | when `new Date` fails, the date is the first of `DATE_FORMAT_GUESSES` that parses, and absent exactly when none does |
| CsvCoerce.ToDate | src/lib/imports/csv.ts:204-222 | defines `toDate`; its properties are stated by `ToDateOfTrim`, `ToDateFallsBack` and `FirstFormatIsFirst` |
| CsvCoerce.CombineReadsDateThenTime | src/lib/imports/csv.ts:230-233 | without an explicit date but with a date or time part, the time is read from the date part, a space and the time part |
| CsvCoerce.CombinePrefersExplicit | src/lib/imports/csv.ts:229 | an explicit date wins over the parts |
| CsvCoerce.CombineDateParts | src/lib/imports/csv.ts:224-234 | defines `combineDateParts`; its properties are stated by `CombinePrefersExplicit` and `CombineReadsDateThenTime` |
| CsvImport.Limit | src/lib/imports/csv.ts:399-401 | `slice(0, previewLimit)`: a prefix of the trades; all of them without a limit, at most the limit for a non-negative one, all but the last `-limit` for a negative one |
| CsvImport.MapHeaders | src/lib/imports/csv.ts:256-266 | the header pass gives the mapping and unknown list of all headers of all rows |
| CsvImport.MapRowHeaders | src/lib/imports/csv.ts:257-265 | the header loop of one row extends the mapping and unknown list by that row's headers |
| CsvImport.GatherRow | src/lib/imports/csv.ts:269-338 | the cell loop of one row builds the row's working record |
| CsvImport.ProcessRow | src/lib/imports/csv.ts:340-396 | one row adds what one step of the row pass adds: a trade, a skip, a warning, a deduplication key; the key set stays the set of keys listed |
| CsvImport.ParseTradeCsv | src/lib/imports/csv.ts:236-410 | the method returns the parse result the row-pass specification defines |
| CsvImport.ParseResult | src/lib/imports/csv.ts:236-410 | defines the result of `parseTradeCsv`; `ParseTradeCsv` is proved to compute it and `CsvImportRows.ParseResultRows` states its properties |
| CsvImportRows.ParseResultRows | src/lib/imports/csv.ts:268-409 | trades are the kept rows' trades cut to the limit; warnings are those of complete rows without an opening time; every row is either kept or skipped once; a row is skipped as missing fields exactly when it lacks a symbol or side, and as a duplicate exactly when it is complete and its key was seen earlier |
| CsvImportRows.ExternalIdsDistinct | src/lib/imports/csv.ts:365-378 | no two trades of one file share a non-empty external ID |
| CsvImportRows.KeyOfExternalId | src/lib/imports/csv.ts:366-367 | a row with a non-empty external ID is deduplicated by that ID alone |
| CsvImportRows.FoldAccounts | src/lib/imports/csv.ts:268-397 | after `i` rows, each row is counted once among kept trades and skips, and every skip names one of those rows |
| CsvImportRows.FoldKeysDistinct | src/lib/imports/csv.ts:370-378 | the deduplication keys recorded are all different |
| CsvImportRows.FoldKeys | src/lib/imports/csv.ts:370-378 | the keys recorded are exactly the keys of the complete rows seen so far |
| CsvImportRows.FoldTrades | src/lib/imports/csv.ts:378-396 | the trades pushed are, in order, those of the rows whose key was new |
| CsvImportRows.FoldTradeKeys | src/lib/imports/csv.ts:365-396 | the trades pushed and the keys recorded line up one to one |
| CsvImportRows.FoldMissingSkips | src/lib/imports/csv.ts:351-357 | a row is skipped for a missing symbol or side exactly when it lacks one |
| CsvImportRows.FoldDuplicateSkips | src/lib/imports/csv.ts:370-376 | a row is skipped as a duplicate exactly when it is complete and an earlier kept row has its key |
| CsvImportRows.FoldWarnings | src/lib/imports/csv.ts:359-363 | the warnings are those of complete rows without an opening time, in row order |
| CsvImportFacts.SymbolIsLastCell | src/lib/imports/csv.ts:281-283 | the symbol is absent exactly when no cell feeds it, and is otherwise the trimmed value of the last symbol cell |
| CsvImportFacts.NumberPresent | src/lib/imports/csv.ts:287-307 | a number field is present exactly when one of its cells reads as a number |
| CsvImportFacts.NumberIsFirstReadable | src/lib/imports/csv.ts:287-307 | a number field takes the value of the first of its cells that reads as a number (`??=`) |
| CsvImportFacts.DatePresent | src/lib/imports/csv.ts:308-319 | a date field is present exactly when one of its cells reads as a date |
| CsvImportFacts.DateIsFirstReadable | src/lib/imports/csv.ts:308-319 | a date field takes the date of the first of its cells that reads as one |
| CsvImportFacts.TextIsFirstCell | src/lib/imports/csv.ts:311-334 | a text field is present exactly when a cell feeds it, and holds the first such cell's raw value |
| CsvImportFacts.SideIsFirstReadable | src/lib/imports/csv.ts:284-286 | the side is present exactly when some side cell names one, and is read from the first such cell |
| Fingerprints.StoredFingerprintsIff | app/api/imports/process/route.ts:100-154 | a key is known exactly when a stored trade of the account carries it: as a non-empty external ID asked for in the batch, or from the opening-time lookup by its external ID or composite key |
| Fingerprints.Fingerprint | app/api/imports/process/route.ts:35-50 | defines `buildFingerprint`; its properties are stated by `ImportCommit.RulesAgreeOffEmptyId`, `ImportCommit.CompositeNotEmpty` and `ImportCommit.EmptyIdsCollapse` |
| Fingerprints.StoredFingerprints | app/api/imports/process/route.ts:100-154 | defines the stored-fingerprint set; `DeriveStoredFingerprints` is proved to compute it and `StoredFingerprintsIff` and `StoredFingerprintsGrow` state its properties |
| Fingerprints.StoredFingerprintsGrow | app/api/imports/process/route.ts:114-154 | more stored trades never make a key unknown |
| Fingerprints.ExternalIdsMembers | app/api/imports/process/route.ts:100-102 | the IDs asked for are exactly the non-empty external IDs of the batch |
| Fingerprints.ByExternalIdMembers | app/api/imports/process/route.ts:104-112 | the external-ID lookup returns exactly the account's stored trades whose ID is asked for |
| Fingerprints.ByOpenTimeMembers | app/api/imports/process/route.ts:125-140 | the opening-time lookup returns exactly the account's stored trades opened at one of the given instants |
| Fingerprints.ExternalKeysMembers | app/api/imports/process/route.ts:116-120 | the keys taken from the ID lookup are exactly the non-empty IDs found |
| Fingerprints.StoredKeysMembers | app/api/imports/process/route.ts:142-153 | the keys taken from the time lookup are exactly the stored keys of the trades found |
| Fingerprints.TradeStore.constructor | app/api/imports/process/route.ts:194-196 | a store holds the rows it is given |
| Fingerprints.TradeStore.CreateMany | app/api/imports/process/route.ts:194-196 | `createMany` appends the rows in order and changes nothing else |
| Fingerprints.DeriveStoredFingerprints | app/api/imports/process/route.ts:100-154 | the lookups and loops build exactly the set of stored fingerprints |
| ImportCommit.RulesAgreeOffEmptyId | app/api/imports/process/route.ts:35-50 | the fingerprint as written and the truthiness-based one differ only for an empty external ID |
| ImportCommit.NormalizeIff | app/api/imports/process/route.ts:83-98 | normalising fails exactly when some opening time is an Invalid Date; otherwise each candidate keeps its trade and carries its opening instant |
| ImportCommit.Probes | app/api/imports/process/route.ts:100-154 | one lookup probe per candidate, in order |
| ImportCommit.InsertRow | app/api/imports/process/route.ts:172-191 | the row written carries the account, opening time, external ID, quantity and entry price of the trade, and source CSV by default |
| ImportCommit.InsertRows | app/api/imports/process/route.ts:172-191 | one row per kept candidate, in order |
| ImportCommit.Partition | app/api/imports/process/route.ts:156-192 | the partition loop writes the rows of the kept candidates and lists the rest as duplicates |
| ImportCommit.ProcessImport | app/api/imports/process/route.ts:52-203 | the route answers as the commit specification says and appends exactly its new rows to the store |
| ImportCommit.CommitOf | app/api/imports/process/route.ts:52-203 | defines the commit route's answer and rows; `ProcessImport` is proved to compute it and `CommitCounts`, `CommitWritesNewTrades` and `CommitOfValid` state its properties |
| ImportCommit.PartitionCounts | app/api/imports/process/route.ts:159-192 | each candidate is either inserted or a duplicate, never both |
| ImportCommit.KeptAreFresh | app/api/imports/process/route.ts:160-170 | each kept candidate's key was neither stored nor used earlier in the batch |
| ImportCommit.KeptKeysAreNew | app/api/imports/process/route.ts:160-170 | no kept candidate has a stored key, and no two kept candidates share a key |
| ImportCommit.KeysCovered | app/api/imports/process/route.ts:160-170 | every key of the batch is stored or carried by a kept candidate |
| ImportCommit.NothingKeptWhenAllKnown | app/api/imports/process/route.ts:162-168 | with every key stored, nothing is kept |
| ImportCommit.CommitCounts | app/api/imports/process/route.ts:27-30 | 422 exactly outside 1 to 1000 trades; 400 exactly for a valid size with an Invalid Date; otherwise inserted plus skipped is the batch size and duplicates are the skipped |
| ImportCommit.CommitWritesNewTrades | app/api/imports/process/route.ts:159-196 | a valid batch writes exactly the rows of its kept candidates, none of them with a stored key |
| ImportCommit.InsertedIsKnown | app/api/imports/process/route.ts:142-153 | a written trade's key is known to a later lookup for the same batch |
| ImportCommit.CommitOfValid | app/api/imports/process/route.ts:159-202 | a valid batch answers with inserted, skipped and duplicate counts equal to the kept count, the rest, and the rest |
| ImportCommit.ResubmitWith | app/api/imports/process/route.ts:114-192 | resubmitting a batch after its rows are stored keeps nothing, for either fingerprint rule, when no external ID is empty under the rule as written |
| ImportCommit.NewKeyIsWritten | app/api/imports/process/route.ts:160-191 | a key of the batch that was not stored is carried by a written row |
| ImportCommit.CommitNothingKept | app/api/imports/process/route.ts:198-202 | a valid batch that keeps nothing reports every trade as skipped and duplicate |
| ImportCommit.CommitWritesKept | app/api/imports/process/route.ts:194-196 | a valid batch writes the rows of the candidates it keeps |
| ImportCommit.ResubmitInsertsNothing | app/api/imports/process/route.ts:114-202 | committing the same batch again inserts nothing when no external ID is empty |
| ImportCommit.CompositeNotEmpty | app/api/imports/process/route.ts:44-50 | a composite key is never the empty text |
| ImportCommit.SingleCommit | app/api/imports/process/route.ts:159-202 | a one-trade batch with a new key inserts that trade alone |
| ImportCommit.EmptyIdUnknownAfterInsert | app/api/imports/process/route.ts:143-151 | a stored trade with an empty external ID is never found under the key `""` |
| ImportCommit.EmptyIdCommittedTwice | app/api/imports/process/route.ts:142-153 | as written, a trade with an empty external ID is reported as inserted again when its batch is resubmitted |
| ImportCommit.EmptyIdsCollapse | app/api/imports/process/route.ts:159-170 | as written, two different trades with empty external IDs in one batch share the key `""`, and the second is dropped |
| ImportCommit.IntendedResubmitInsertsNothing | app/api/imports/process/route.ts:114-192 | with truthiness-based fingerprints, resubmitting keeps nothing, empty IDs included |
| ImportCommit.IntendedKeepsEmptyIdTrades | app/api/imports/process/route.ts:35-50 | with truthiness-based fingerprints, two different trades with empty IDs are both kept |
| ImportPreview.TradeProbes | app/api/imports/preview/route.ts:55-116 | one lookup probe per parsed trade, in order |
| ImportPreview.PreviewImport | app/api/imports/preview/route.ts:16-130 | the route answers as the preview specification says and changes no stored trade |
| ImportPreview.PreviewOf | app/api/imports/preview/route.ts:16-130 | defines the preview route's answer; `PreviewImport` is proved to compute it and `PreviewAnnotates` and `PreviewLimitBounds` state its properties |
| ImportPreview.PreviewAnnotates | app/api/imports/preview/route.ts:47-129 | a valid request returns each parsed trade once and in order, flagged exactly when its fingerprint is stored, with the parser's skips, mapping, unknown headers and warnings |
| ImportPreview.PreviewLimitBounds | app/api/imports/preview/route.ts:8-31 | 422 exactly for an empty text or a limit outside 1 to 500; a limit bounds the number of trades returned |
| ImportPreview.FlagsFollowFingerprints | app/api/imports/preview/route.ts:118-121 | two trades with the same fingerprint get the same flag |
| ImportPreview.NothingFlaggedWithoutStoredTrades | app/api/imports/preview/route.ts:59-121 | an account with no stored trades has nothing flagged |
| Metrics.Pnls | src/lib/analytics/metrics.ts:48 | one result per trade, in order |
| Metrics.Gains | src/lib/analytics/metrics.ts:50 | the winning results: exactly the input values above zero |
| Metrics.GainsAppend | src/lib/analytics/metrics.ts:50 | the gains of `a + b` are the gains of `a` followed by those of `b`; with `GainsSingle` this fixes the gains in order and multiplicity, so `winningTrades` counts the positive results |
| Metrics.GainsSingle | src/lib/analytics/metrics.ts:50 | one value is kept exactly when it is above zero |
| Metrics.Losses | src/lib/analytics/metrics.ts:51 | the losing results: exactly the input values below zero |
| Metrics.LossesAppend | src/lib/analytics/metrics.ts:51 | the losses of `a + b` are the losses of `a` followed by those of `b`; with `LossesSingle` this fixes `losingTrades` as the count of negative results |
| Metrics.LossesSingle | src/lib/analytics/metrics.ts:51 | one value is kept exactly when it is below zero |
| Metrics.Largest | src/lib/analytics/metrics.ts:59 | `Math.max`: a member of the list no smaller than any member |
| Metrics.Smallest | src/lib/analytics/metrics.ts:60 | `Math.min`: a member of the list no larger than any member |
| Metrics.RValues | src/lib/analytics/metrics.ts:62-64 | the present R multiples: exactly the values some trade carries |
| Metrics.RValuesAppend | src/lib/analytics/metrics.ts:62-64 | the R multiples of `a + b` are those of `a` followed by those of `b`; with `RValuesSingle` this fixes the list averaged by `averageRMultiple` and its length |
| Metrics.RValuesSingle | src/lib/analytics/metrics.ts:62-64 | one trade contributes its R multiple exactly when it has one |
| Metrics.SortByTimeFacts | src/lib/analytics/metrics.ts:70-74 | the sort is by reference time, is a permutation, and keeps trades with equal times in input order (stable) |
| Metrics.SortByTime | src/lib/analytics/metrics.ts:70-74 | defines the sort by reference time; `SortByTimeFacts` states that it is sorted, a permutation and stable |
| Metrics.PeakIsHighestEquity | src/lib/analytics/metrics.ts:76-84 | the peak is the highest point of the equity curve, starting from 0 |
| Metrics.DrawdownIsLargestFall | src/lib/analytics/metrics.ts:76-89 | the drawdown is the largest fall of the equity curve from an earlier point to a later one |
| Metrics.DrawdownBounds | src/lib/analytics/metrics.ts:76-89 | the drawdown is never negative, and is 0 when no result is a loss |
| Metrics.MaxDrawdown | src/lib/analytics/metrics.ts:76-89 | the equity loop computes the largest drawdown |
| Metrics.ToMetrics | src/lib/analytics/metrics.ts:43-104 | the method builds the summary the specification function defines |
| Metrics.MetricsOf | src/lib/analytics/metrics.ts:43-104 | defines the summary `toMetrics` builds; `ToMetrics` is proved to compute it and `MetricsCounts`, `MetricsSums`, `SumSplits`, `ProfitFactorFacts`, `ExtremesFacts`, `AverageRFacts` and `DrawdownFacts` state its properties |
| Metrics.SumSplits | src/lib/analytics/metrics.ts:49-55 | the net result is gross profit plus gross loss; gross profit is not negative, gross loss not positive, and gross loss is 0 exactly when there is no losing trade |
| Metrics.MetricsCounts | src/lib/analytics/metrics.ts:29-52 | no trades give the empty summary; the trade, win and loss counts are those of the input, and the win rate is the percentage of wins, between 0 and 100 |
| Metrics.MetricsSums | src/lib/analytics/metrics.ts:49-58 | the net result is the sum of results and the average trade is it divided by the count |
| Metrics.ProfitFactorFacts | src/lib/analytics/metrics.ts:54-56 | the profit factor is absent exactly when there is no losing trade, and is otherwise gross profit over gross loss, not negative |
| Metrics.ExtremesFacts | src/lib/analytics/metrics.ts:59-60 | the largest win and loss are results of the input that bound every result |
| Metrics.AverageRFacts | src/lib/analytics/metrics.ts:62-68 | the average R multiple is absent exactly when no trade has one, and is otherwise the mean of those present |
| Metrics.DrawdownFacts | src/lib/analytics/metrics.ts:70-89 | the summary's drawdown is the largest fall of the equity curve of the trades in time order |
| Metrics.Since | src/lib/analytics/metrics.ts:115-118 | exactly the trades whose reference time is not before the threshold, no more of them than the input |
| Metrics.SinceConcat | src/lib/analytics/metrics.ts:115-118 | `filter` of a concatenation is the concatenation of the filtered parts, so order and multiplicity are kept |
| Metrics.SinceSingle | src/lib/analytics/metrics.ts:115-118 | one trade is kept exactly when its reference time is not before the threshold |
| Metrics.CalculateOverviewMetrics | src/lib/analytics/metrics.ts:106-124 | the method returns the overview the specification function defines |
| Metrics.OverviewFacts | src/lib/analytics/metrics.ts:106-124 | the overview summarises all trades, and separately exactly the trades of the 30 days before `now` |
| Metrics.OverviewOf | src/lib/analytics/metrics.ts:106-124 | defines `calculateOverviewMetrics`; `CalculateOverviewMetrics` is proved to compute it and `OverviewFacts` states its properties |
| CivilCalendar.DaysInMonth | src/lib/analytics/calendar.ts:42 | a month has 28 to 31 days |
| CivilCalendar.CivilOf | src/lib/analytics/calendar.ts:40-57 | the calendar fields of a day are valid and name that day |
| CivilCalendar.CivilOfDayOf | src/lib/analytics/calendar.ts:40-57 | fields to day and back give the same fields |
| CivilCalendar.SameMonthIff | src/lib/analytics/calendar.ts:95-97 | a day is in a month exactly when it lies between the month's first and last day |
| CivilCalendar.Weekday | src/lib/analytics/calendar.ts:46 | `getDay()` is 0 to 6 |
| CivilCalendar.MakeDateInMonth | src/lib/analytics/calendar.ts:40 | `new Date(y, m, d)` is day `d - 1` after the first of the month |
| CivilCalendar.MakeDateFirst | src/lib/analytics/calendar.ts:40 | `new Date(y, m, 1)` is the first of that month |
| CivilCalendar.MakeDateLast | src/lib/analytics/calendar.ts:42 | `new Date(y, m + 1, 0)` is the last day of month `m` |
| CivilCalendar.MakeDateOfFields | src/lib/analytics/calendar.ts:45 | rebuilding a day from its own fields gives the day, for years outside 0 to 99 |
| Calendar.MondayOffset | src/lib/analytics/calendar.ts:46-47 | `(getDay() + 6) % 7` is 0 to 6 |
| Calendar.MondayIsOffsetBack | src/lib/analytics/calendar.ts:44-50 | stepping back by the offset lands on a Monday |
| Calendar.WeekFacts | src/lib/analytics/calendar.ts:44-57 | the week starts on a Monday at most six days before the day and ends six days later on a Sunday; outside years 0 to 99 the day lies inside its week |
| Calendar.StartOfWeek | src/lib/analytics/calendar.ts:44-50 | defines `startOfWeek`; its properties are stated by `MondayIsOffsetBack` and `WeekFacts` |
| Calendar.StartOfMonth | src/lib/analytics/calendar.ts:40 | defines `startOfMonth`; its properties are stated by `MonthFacts` |
| Calendar.MonthFacts | src/lib/analytics/calendar.ts:40-42 | the month runs from its first day to its last, `DaysInMonth` days |
| Calendar.GridBounds | src/lib/analytics/calendar.ts:60-63 | the grid starts on a Monday within a week before the first of the month, ends on a Sunday within a week after its last day, and is whole weeks |
| Calendar.GridLengthBounds | src/lib/analytics/calendar.ts:60-63 | the grid of a month is four to six weeks long |
| Calendar.TradesOnMembers | src/lib/analytics/calendar.ts:65-82 | a trade is listed on a day exactly when its reference time falls on that day |
| Calendar.WinCount | src/lib/analytics/calendar.ts:85 | no more winning trades than trades |
| Calendar.DaysFromTotals | src/lib/analytics/calendar.ts:74-102 | the day entries together count, sum and win-count exactly the trades of their days |
| Calendar.WeeksChunks | src/lib/analytics/calendar.ts:106-107 | the entries are cut into consecutive runs of seven days |
| Calendar.MonthWeeks | src/lib/analytics/calendar.ts:59-124 | a month has four to six weeks, each the seven days from its Monday |
| Calendar.MonthDays | src/lib/analytics/calendar.ts:74-101 | each grid cell is the right date and weekday, lists exactly the trades of that day, and is flagged in the month exactly when its date is |
| Calendar.MonthCovered | src/lib/analytics/calendar.ts:59-124 | every day of the month has a cell, flagged as in the month |
| Calendar.MonthWeekTotals | src/lib/analytics/calendar.ts:106-121 | each week's summary totals exactly the trades of its seven days |
| Calendar.BucketByDay | src/lib/analytics/calendar.ts:65-72 | the bucket map holds exactly the days with trades, each with that day's trades in input order |
| Calendar.DayEntries | src/lib/analytics/calendar.ts:74-102 | the day loop builds one entry per day of the grid |
| Calendar.GroupWeeks | src/lib/analytics/calendar.ts:104-123 | the week loop cuts the entries into weeks of seven |
| Calendar.BuildMonthCalendar | src/lib/analytics/calendar.ts:59-124 | the method returns the calendar the specification function defines |
| Calendar.MonthCalendar | src/lib/analytics/calendar.ts:59-124 | defines `buildMonthCalendar`; `BuildMonthCalendar` is proved to compute it and `MonthWeeks`, `MonthDays`, `MonthCovered` and `MonthWeekTotals` state its properties |
| Calendar.GridDaysFrom | src/lib/analytics/calendar.ts:60-63 | the grid is the days from its first day to its last |
| Calendar.ParseMonthFields | src/lib/analytics/calendar.ts:126-139 | a result means the trimmed text matches the pattern, gives that year and month, and the month index is 0 to 11 |
| Calendar.ParseMonthParam | src/lib/analytics/calendar.ts:126-141 | a date comes back exactly when the fields parse |
| Calendar.ParsedMonthIsFirstDay | src/lib/analytics/calendar.ts:140 | the date is the first of the month, with the constructor's year rule |
| Calendar.ParseMonthParamIgnoresSpace | src/lib/analytics/calendar.ts:128 | white space around the value changes nothing |
| Calendar.ParseFormatMonthFields | src/lib/analytics/calendar.ts:128-139 | the fields of a formatted `YYYY-MM` text read back as that year and month |
| Calendar.ParseFormatMonth | src/lib/analytics/calendar.ts:126-141 | outside years 0 to 99, a formatted month reads back as the first of that month |
| Calendar.TwoDigitYearShifted | src/lib/analytics/calendar.ts:140 | as written, years 0 to 99 read back as the first of the month 1900 years later |
| Calendar.ParseMonthParamFullYear | src/lib/analytics/calendar.ts:126-141 | the corrected reading gives a date exactly when the fields parse |
| Calendar.FullYearFirstDay | src/lib/analytics/calendar.ts:140 | the corrected reading gives the first of the month of the year as written |
| Calendar.ParseFormatMonthFullYear | src/lib/analytics/calendar.ts:126-141 | with the corrected reading, every formatted month, years 0 to 99 included, reads back as its first day |
| RouteGate.DecideCases | middleware.ts:13-40 | redirect to login exactly for a non-public path without a user, with the path as callback; to the dashboard exactly for a non-public `/admin` path and a role, `USER` when missing, that is neither admin role; pass otherwise |
| RouteGate.Decide | middleware.ts:13-40 | defines the middleware's decision; `DecideCases` states it case by case |
| RouteGate.Middleware | middleware.ts:5-51 | defines the middleware with its matcher; `MiddlewareAlwaysPasses` and `DashboardOpenAsWritten` state what it does as written |
| RouteGate.EveryPathPublic | middleware.ts:5-17 | as written, every path starting with `/` is public |
| RouteGate.MiddlewareAlwaysPasses | middleware.ts:5-40 | as written, every request passes |
| RouteGate.DashboardOpenAsWritten | middleware.ts:5-51 | as written, `/dashboard` without a user passes, while the corrected gate sends it to login |
| RouteGate.MatchedNotPublic | middleware.ts:5-51 | with `/` matched exactly, no page the matcher selects is public |
| RouteGate.IntendedRequiresSignIn | middleware.ts:23-51 | with `/` matched exactly, every selected page without a user is sent to login with its path |
| RouteGate.IntendedAdminOnly | middleware.ts:32-39 | with `/` matched exactly, an `/admin` page passes exactly for a signed-in ADMIN or SUPER_ADMIN |

## Left out

- The CSV text itself is not parsed. The model starts from records already split into header/cell pairs. The `delimiter` option and the csv-parse library are not part of this model.
- Engine-defined behaviour is a parameter: `new Date(text)`, date-fns `parse`, `subDays`, `toISOString`, and the rendering of numbers and `Prisma.Decimal` values. Properties hold for every choice of these functions.
- `new Date()` (the clock) is a parameter `now`. The local time zone is a parameter `localDay` that maps an instant to its local day.
- `NaN`, `Infinity` and floating-point rounding are not modelled; numbers are exact reals. `Number.isFinite` after `parseFloat` is modelled as "some decimal prefix was read".
- `toLowerCase` lowers ASCII letters only.
- Skip reasons and warnings are held as constructors. `CsvImport.ReasonText` and `CsvImport.WarningText` give the texts the source emits.
- The `raw` field and `meta` column are carried as data; no property is stated about them.
- Authentication (401), the account-ownership check (404) and zod's `cuid` and per-field validation are not modelled. A request is taken as authenticated and as naming an account of the user.
- `createMany` with `skipDuplicates` is modelled as an append. The database's unique key lives in the schema, which is not part of this model. Whenever that key covers rows the fingerprint does not, `skipDuplicates` may drop rows the model appends. Two trades with an empty external ID are one such case. The answer's `inserted` count is `toInsert.length` either way, in the source as in the model.
- ProcessImport: a kept trade whose closing time reads as an Invalid Date is written with that date (`ImportCommit.CommitOf` and the commit lemmas do the same). In the source, `createMany` would reject such a row, and the route would fail with status 500 and write nothing. Only the opening time is checked before writing (route.ts:89-98).
- CommitOf: the same gap as ProcessImport. A kept trade whose closing time reads as an Invalid Date is written with that date, where the source's `createMany` would fail with status 500 and write nothing.
- MapRowHeaders: a header named after an `Object.prototype` member (`constructor`, `toString`, `valueOf`, `hasOwnProperty`, `__proto__` and the like) is not modelled as the source treats it. Such a header finds an inherited, truthy value in `headerMapping`, so it is never assigned and never listed as unknown. The same holds for a header whose normalised text is such a name (`Constructor`): `HEADER_ALIAS_MAP` yields the inherited value, which is not null, and the row pass finds no case for it. The model maps every such header to no field and lists it as unknown.
- MapRowHeaders: `Object.keys` and `Object.entries` list integer-like keys first, in numeric order, and then the other keys in column order. The model takes every row in column order. By `CsvHeaders.DigitHeaderIsUnknown`, an integer-like header maps to no field, so the row pass reads the same cells in the same relative order. Only the order of the unknown-header list can differ.
- MapHeaders: has the two differences of `MapRowHeaders` above, prototype-named headers and the position of integer-like headers.
- HeaderMappingMapsEachHeader: holds for headers that are not `Object.prototype` member names, neither as written nor once normalised. For those, the source's mapping holds an inherited value instead.
- UnknownHeadersAreTheUnmapped: the source leaves prototype-named headers out of the unknown list, which the model does not. The source also lists integer-like headers before the others.
- Concurrency between requests is not modelled.
- `Calendar.BuildMonthCalendar` steps through local days. It does not step through 24-hour intervals of milliseconds (`DAY_MS`), so daylight-saving shifts are not modelled.
- `winRateLabel` of a calendar day (`toFixed(0)` followed by `%`) is not modelled, because it renders a floating-point number. The day's `winRate` and `label` and the week's `winRate` are modelled (`Calendar.CalendarDay`, `Calendar.WeekSummary`).
- `toDayKey` is not modelled as text; a day is keyed by its day number, which identifies the same day.
- The matcher's path syntax (`:path*`) is modelled as "the base or a path below it". The redirect URL's origin is not modelled.

## Findings

| source | as written | input that shows it | evidently intended | confidence | as-written member | corrected member |
|---|---|---|---|---|---|---|
| app/api/imports/process/route.ts:43 | `buildFingerprint` uses `??`, so an empty external ID is the key `""`. The stored-key derivation at line 143 treats `""` as falsy and uses the composite key instead. | A batch of two different trades whose external ID cells are empty: the second is dropped as a duplicate. The same one-trade batch committed twice is inserted twice. | Treat an empty external ID as absent in both places, as the CSV parser does at csv.ts:366 | not executed | ImportCommit.EmptyIdsCollapse, ImportCommit.EmptyIdCommittedTwice | ImportCommit.IntendedKeepsEmptyIdTrades, ImportCommit.IntendedResubmitInsertsNothing |
| middleware.ts:6 | `/` is in `PUBLIC_PATHS` and the test is `startsWith`, so every path is public | A request for `/dashboard` with no signed-in user passes the middleware. The pages re-check: app/(dashboard)/layout.tsx:11-15 redirects a signed-out user to `/login`, and app/(dashboard)/admin/page.tsx:13-16 redirects a non-admin to `/dashboard`. So pages are not open; the gate does nothing, and the `callbackUrl` the middleware would add is lost | Match `/` exactly, so that the matched pages need a signed-in user and `/admin` needs an admin role | not executed | RouteGate.MiddlewareAlwaysPasses, RouteGate.DashboardOpenAsWritten | RouteGate.IntendedRequiresSignIn, RouteGate.IntendedAdminOnly |
| src/lib/analytics/calendar.ts:140 | `new Date(year, monthIndex, 1)` maps years 0 to 99 to 1900 to 1999 | The value `0024-03` gives 1 March 1924 | The first of the month of the year as written (`setFullYear`) | not executed | Calendar.TwoDigitYearShifted | Calendar.ParseMonthParamFullYear, Calendar.FullYearFirstDay, Calendar.ParseFormatMonthFullYear |
