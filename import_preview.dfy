// The preview route (app/api/imports/preview/route.ts): the CSV is parsed
// with the requested options, the fingerprints already known for the account
// are derived from the stored trades, and each parsed trade is returned with
// a flag saying whether its fingerprint is known. Nothing is written.
module ImportPreview {
  import opened JsText
  import opened JsPlatform
  import opened CsvHeaders
  import opened CsvCoerce
  import opened CsvImport
  import opened Fingerprints

  /** The request body: the CSV text, the records `csv-parse` reads from it,
      and the options. */
  datatype PreviewRequest = PreviewRequest(
    csv: string,
    rows: seq<Row>,
    decimalSeparator: Option<DecimalSeparator>,
    previewLimit: Option<int>,
    accountId: string)

  datatype AnnotatedTrade = AnnotatedTrade(trade: NormalizedTrade, alreadyExists: bool)

  datatype PreviewResponse =
    | PreviewRejected(status: nat, error: string)
    | Preview(data: seq<AnnotatedTrade>, skipped: seq<Skip>, headerMapping: map<string, Option<NormalizedKey>>,
              unknownHeaders: seq<string>, warnings: seq<Warning>)

  const MaxPreview := 500

  /** The schema: a non-empty CSV text and, when given, a limit in 1..500. */
  predicate ValidRequest(req: PreviewRequest)
  {
    req.csv != "" && (req.previewLimit.Some? ==> 1 <= req.previewLimit.value <= MaxPreview)
  }

  function TradeProbe(t: NormalizedTrade): Probe
  {
    Probe(t.symbol, t.side, t.openedAt, t.entryPrice, t.quantity, t.externalId)
  }

  function TradeProbes(trades: seq<NormalizedTrade>): (ps: seq<Probe>)
    ensures |ps| == |trades| && forall i :: 0 <= i < |trades| ==> ps[i] == TradeProbe(trades[i])
  {
    seq(|trades|, i requires 0 <= i < |trades| => TradeProbe(trades[i]))
  }

  /** The final `trades.map`: each trade with its flag. */
  function Annotate(trades: seq<NormalizedTrade>, known: set<string>, eng: Engine): seq<AnnotatedTrade>
  {
    seq(|trades|, i requires 0 <= i < |trades| =>
      AnnotatedTrade(trades[i], Fingerprint(TradeProbe(trades[i]), eng) in known))
  }

  /** What the route answers, for the stored trades `rows`; `now` is the
      instant the parser's `new Date()` gives. */
  function PreviewOf(rows: seq<StoredTrade>, req: PreviewRequest, eng: Engine, now: Instant): PreviewResponse
  {
    if !ValidRequest(req) then PreviewRejected(422, "Invalid payload")
    else
      var result := ParseResult(req.rows, req.decimalSeparator.GetOr(Dot), req.previewLimit, eng, now);
      var known := StoredFingerprints(rows, req.accountId, TradeProbes(result.trades), eng);
      Preview(Annotate(result.trades, known, eng), result.skipped, result.headerMapping,
              result.unknownHeaders, result.warnings)
  }

  /** `POST` after authentication and the account check. It reads the store
      and changes nothing. */
  method PreviewImport(store: TradeStore, req: PreviewRequest, eng: Engine, now: Instant)
    returns (response: PreviewResponse)
    ensures response == PreviewOf(store.rows, req, eng, now)
  {
    if !ValidRequest(req) {
      return PreviewRejected(422, "Invalid payload");
    }
    var result := ParseTradeCsv(req.rows, req.decimalSeparator.GetOr(Dot), req.previewLimit, eng, now);
    var known := DeriveStoredFingerprints(store, req.accountId, TradeProbes(result.trades), eng);
    response := Preview(Annotate(result.trades, known, eng), result.skipped, result.headerMapping,
                        result.unknownHeaders, result.warnings);
  }

  /** The stored trades of `account` know `k` when one of them carries it as
      its external id and some probe of the batch has that truthy id, or when
      its composite key is `k` and some probe without a truthy id was opened
      at the same instant (the two `findMany` lookups of the route). */
  predicate KnownFor(rows: seq<StoredTrade>, account: string, probes: seq<Probe>, eng: Engine, k: string)
  {
    exists s :: s in rows && s.accountId == account &&
      ((Truthy(s.externalId) && s.externalId.value == k &&
        (exists p :: p in probes && Truthy(p.externalId) && p.externalId.value == s.externalId.value)) ||
       (StoredKey(s, eng) == k &&
        (exists p :: p in probes && !Truthy(p.externalId) && p.openedAt == s.openedAt)))
  }

  /** The data lists the parsed trades in order, unchanged, each flagged
      exactly when the stored trades of the account know its fingerprint;
      the rest of the parse result passes through. */
  lemma PreviewAnnotates(rows: seq<StoredTrade>, req: PreviewRequest, eng: Engine, now: Instant)
    requires ValidRequest(req)
    ensures var result := ParseResult(req.rows, req.decimalSeparator.GetOr(Dot), req.previewLimit, eng, now);
      var r := PreviewOf(rows, req, eng, now);
      r.Preview? && |r.data| == |result.trades| &&
      (forall i :: 0 <= i < |r.data| ==>
        (r.data[i].trade == result.trades[i] &&
         (r.data[i].alreadyExists <==> KnownFor(rows, req.accountId, TradeProbes(result.trades), eng,
                                                Fingerprint(TradeProbe(result.trades[i]), eng))))) &&
      r.skipped == result.skipped && r.headerMapping == result.headerMapping &&
      r.unknownHeaders == result.unknownHeaders && r.warnings == result.warnings
  {
    var result := ParseResult(req.rows, req.decimalSeparator.GetOr(Dot), req.previewLimit, eng, now);
    forall i | 0 <= i < |result.trades| {
      StoredFingerprintsIff(rows, req.accountId, TradeProbes(result.trades), eng,
                            Fingerprint(TradeProbe(result.trades[i]), eng));
    }
  }

  /** A request is refused with 422 exactly when the CSV text is empty or
      the preview limit lies outside 1..500; otherwise at most `previewLimit`
      trades are returned. */
  lemma PreviewLimitBounds(rows: seq<StoredTrade>, req: PreviewRequest, eng: Engine, now: Instant)
    ensures PreviewOf(rows, req, eng, now).PreviewRejected? <==>
      req.csv == "" || (req.previewLimit.Some? && !(1 <= req.previewLimit.value <= MaxPreview))
    ensures PreviewOf(rows, req, eng, now).Preview? && req.previewLimit.Some? ==>
      |PreviewOf(rows, req, eng, now).data| <= req.previewLimit.value
  {
  }

  /** The flag depends on the fingerprint alone: trades of one preview with
      the same fingerprint get the same flag, so a repeat within the file
      is not flagged unless the stored trades know it. */
  lemma FlagsFollowFingerprints(trades: seq<NormalizedTrade>, known: set<string>, eng: Engine, i: nat, j: nat)
    requires i < |trades| && j < |trades|
    requires Fingerprint(TradeProbe(trades[i]), eng) == Fingerprint(TradeProbe(trades[j]), eng)
    ensures Annotate(trades, known, eng)[i].alreadyExists == Annotate(trades, known, eng)[j].alreadyExists
  {
  }

  /** A stored-fingerprint set without any of the trades' fingerprints
      flags none of them. */
  lemma AnnotateUnknown(trades: seq<NormalizedTrade>, known: set<string>, eng: Engine)
    requires forall i :: 0 <= i < |trades| ==> Fingerprint(TradeProbe(trades[i]), eng) !in known
    ensures forall a :: a in Annotate(trades, known, eng) ==> !a.alreadyExists
  {
  }

  /** The stored trades of an account without rows know no fingerprint. */
  lemma NothingStoredForAccount(rows: seq<StoredTrade>, account: string, probes: seq<Probe>, eng: Engine)
    requires forall s :: s in rows ==> s.accountId != account
    ensures StoredFingerprints(rows, account, probes, eng) == {}
  {
    forall k | k in StoredFingerprints(rows, account, probes, eng)
      ensures false
    {
      StoredFingerprintsIff(rows, account, probes, eng, k);
    }
  }

  /** An account with no stored trades has nothing flagged. */
  lemma NothingFlaggedWithoutStoredTrades(rows: seq<StoredTrade>, req: PreviewRequest, eng: Engine, now: Instant)
    requires ValidRequest(req)
    requires forall s :: s in rows ==> s.accountId != req.accountId
    ensures forall a :: a in PreviewOf(rows, req, eng, now).data ==> !a.alreadyExists
  {
    var result := ParseResult(req.rows, req.decimalSeparator.GetOr(Dot), req.previewLimit, eng, now);
    var probes := TradeProbes(result.trades);
    NothingStoredForAccount(rows, req.accountId, probes, eng);
    AnnotateUnknown(result.trades, {}, eng);
    assert PreviewOf(rows, req, eng, now).data == Annotate(result.trades, {}, eng);
  }
}
