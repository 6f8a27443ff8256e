// The commit route (app/api/imports/process/route.ts): a batch of trades is
// validated, each trade gets a fingerprint, the fingerprints already known
// for the account are derived from the stored trades, and the batch is split
// into trades to insert (the first of each fingerprint not yet known) and
// duplicates; the counts are reported.
module ImportCommit {
  import opened JsText
  import opened JsPlatform
  import opened CsvCoerce
  import opened CsvImport
  import opened Fingerprints

  /** A trade of the request body, as the schema admits it; `null` and a
      missing field are both None. */
  datatype RequestTrade = RequestTrade(
    symbol: string,
    side: TradeSide,
    quantity: Option<real>,
    entryPrice: Option<real>,
    exitPrice: Option<real>,
    stopLoss: Option<real>,
    takeProfit: Option<real>,
    fees: Option<real>,
    profitLoss: Option<real>,
    openedAt: string,
    closedAt: Option<string>,
    notes: Option<string>,
    strategyTag: Option<string>,
    externalId: Option<string>,
    source: Option<Source>,
    raw: Option<Row>)

  /** A request trade with its dates read (`normalizedTrades`), once every
      opening date is known to be valid. */
  datatype Candidate = Candidate(trade: RequestTrade, openedAt: Instant, closedAt: Option<JsDate>)

  datatype Duplicate = Duplicate(fingerprint: string, reason: string)

  datatype CommitResponse =
    | Rejected(status: nat, error: string)
    | Committed(inserted: nat, skipped: int, duplicates: nat)

  /** The response and the rows written to the store. */
  datatype CommitOutcome = CommitOutcome(response: CommitResponse, written: seq<StoredTrade>)

  const MaxBatch := 1000
  const InvalidPayload := "Invalid payload"
  const InvalidOpenedAt := "Invalid openedAt date provided."
  const AlreadyExists := "Trade already exists for this account."

  /** How a candidate's fingerprint is formed: as the route writes it, with
      `??` on the external ID, or with the truthiness test the stored side
      uses (see the findings in the README). */
  datatype FingerprintRule = AsWritten | Intended

  function ProbeOf(c: Candidate): Probe
  {
    Probe(c.trade.symbol, c.trade.side, c.openedAt, c.trade.entryPrice, c.trade.quantity, c.trade.externalId)
  }

  /** The fingerprint the evident intent calls for: an empty external ID is
      treated as absent, as it is for stored trades. */
  function IntendedFingerprint(p: Probe, eng: Engine): string
  {
    if Truthy(p.externalId) then p.externalId.value
    else Composite(p.symbol, p.side, p.openedAt, NumberText(p.entryPrice, eng), NumberText(p.quantity, eng), eng)
  }

  function KeyOf(c: Candidate, rule: FingerprintRule, eng: Engine): string
  {
    match rule
    case AsWritten => Fingerprint(ProbeOf(c), eng)
    case Intended => IntendedFingerprint(ProbeOf(c), eng)
  }

  /** The two rules differ only on an empty external ID. */
  lemma RulesAgreeOffEmptyId(c: Candidate, eng: Engine)
    requires c.trade.externalId != Some("")
    ensures KeyOf(c, AsWritten, eng) == KeyOf(c, Intended, eng)
  {
  }

  /** The `trades.map` that reads the dates and the `find` for an invalid
      opening date: None when some opening date is invalid. */
  function Normalize(trades: seq<RequestTrade>, eng: Engine): Option<seq<Candidate>>
  {
    if trades == [] then Some([])
    else
      var t := trades[|trades| - 1];
      match Normalize(trades[..|trades| - 1], eng)
      case None => None
      case Some(cs) =>
        match eng.newDate(t.openedAt)
        case InvalidDate => None
        case ValidDate(openTime) =>
          var closed := if Truthy(t.closedAt) then Some(eng.newDate(t.closedAt.value)) else None;
          Some(cs + [Candidate(t, openTime, closed)])
  }

  /** The batch is rejected exactly when some opening date is invalid, and
      otherwise each candidate carries its request trade and its date. */
  lemma {:induction false} NormalizeIff(trades: seq<RequestTrade>, eng: Engine)
    ensures Normalize(trades, eng).None? <==> exists i :: 0 <= i < |trades| && eng.newDate(trades[i].openedAt).InvalidDate?
    ensures Normalize(trades, eng).Some? ==>
      var cs := Normalize(trades, eng).value;
      |cs| == |trades| &&
      forall i :: 0 <= i < |trades| ==> cs[i].trade == trades[i] && eng.newDate(trades[i].openedAt) == ValidDate(cs[i].openedAt)
  {
    if trades != [] {
      var n := |trades| - 1;
      NormalizeIff(trades[..n], eng);
      assert forall i :: 0 <= i < n ==> trades[..n][i] == trades[i];
    }
  }

  function Probes(cands: seq<Candidate>): (ps: seq<Probe>)
    ensures |ps| == |cands| && forall i :: 0 <= i < |cands| ==> ps[i] == ProbeOf(cands[i])
  {
    seq(|cands|, i requires 0 <= i < |cands| => ProbeOf(cands[i]))
  }

  /** The row `toInsert` receives for a candidate: absent numbers stay
      null, the source defaults to CSV. */
  function InsertRow(c: Candidate, account: string, user: string): (r: StoredTrade)
    ensures r.accountId == account && r.openedAt == c.openedAt && r.externalId == c.trade.externalId
    ensures r.source == c.trade.source.GetOr(Csv) && r.quantity == c.trade.quantity && r.entryPrice == c.trade.entryPrice
  {
    var t := c.trade;
    StoredTrade(account, user, t.symbol, t.side, t.quantity, t.entryPrice, t.exitPrice, t.stopLoss,
                t.takeProfit, t.fees, t.profitLoss, c.openedAt, c.closedAt, t.source.GetOr(Csv),
                t.strategyTag, t.notes, t.externalId, t.raw)
  }

  // ----- the partition -----

  /** Candidate `i` is inserted: its fingerprint is neither known nor the
      fingerprint of an earlier candidate of the batch. */
  predicate Fresh(cands: seq<Candidate>, i: int, known: set<string>, rule: FingerprintRule, eng: Engine)
    requires 0 <= i < |cands|
  {
    KeyOf(cands[i], rule, eng) !in known &&
    forall h :: 0 <= h < i ==> KeyOf(cands[h], rule, eng) != KeyOf(cands[i], rule, eng)
  }

  /** The fresh candidates among the first `n`, in batch order. */
  function Kept(cands: seq<Candidate>, n: nat, known: set<string>, rule: FingerprintRule, eng: Engine): seq<Candidate>
    requires n <= |cands|
  {
    if n == 0 then []
    else Kept(cands, n - 1, known, rule, eng) + (if Fresh(cands, n - 1, known, rule, eng) then [cands[n - 1]] else [])
  }

  /** The duplicates among the first `n`, in batch order. */
  function Duplicates(cands: seq<Candidate>, n: nat, known: set<string>, rule: FingerprintRule, eng: Engine): seq<Duplicate>
    requires n <= |cands|
  {
    if n == 0 then []
    else
      var here := if Fresh(cands, n - 1, known, rule, eng) then [] else [Duplicate(KeyOf(cands[n - 1], rule, eng), AlreadyExists)];
      Duplicates(cands, n - 1, known, rule, eng) + here
  }

  function InsertRows(kept: seq<Candidate>, account: string, user: string): (rows: seq<StoredTrade>)
    ensures |rows| == |kept| && forall a :: 0 <= a < |kept| ==> rows[a] == InsertRow(kept[a], account, user)
  {
    seq(|kept|, a requires 0 <= a < |kept| => InsertRow(kept[a], account, user))
  }

  /** The keys of the first `n` candidates. */
  function KeysBefore(cands: seq<Candidate>, n: nat, rule: FingerprintRule, eng: Engine): set<string>
    requires n <= |cands|
  {
    set h | 0 <= h < n :: KeyOf(cands[h], rule, eng)
  }

  lemma KeysBeforeNext(cands: seq<Candidate>, i: nat, rule: FingerprintRule, eng: Engine)
    requires i < |cands|
    ensures KeysBefore(cands, i + 1, rule, eng) == KeysBefore(cands, i, rule, eng) + {KeyOf(cands[i], rule, eng)}
  {
  }

  /** Candidate `i` is fresh exactly when its key is neither known nor the
      key of an earlier candidate. */
  lemma FreshIffUnseen(cands: seq<Candidate>, i: nat, known: set<string>, rule: FingerprintRule, eng: Engine)
    requires i < |cands|
    ensures Fresh(cands, i, known, rule, eng) <==> KeyOf(cands[i], rule, eng) !in known + KeysBefore(cands, i, rule, eng)
  {
    if KeyOf(cands[i], rule, eng) in KeysBefore(cands, i, rule, eng) {
      var h :| 0 <= h < i && KeyOf(cands[h], rule, eng) == KeyOf(cands[i], rule, eng);
    }
  }

  lemma InsertRowsAppend(kept: seq<Candidate>, c: Candidate, account: string, user: string)
    ensures InsertRows(kept + [c], account, user) == InsertRows(kept, account, user) + [InsertRow(c, account, user)]
  {
  }

  /** The partition `for` loop, with the fingerprint set it grows. */
  method Partition(cands: seq<Candidate>, known: set<string>, account: string, user: string, eng: Engine)
    returns (toInsert: seq<StoredTrade>, duplicates: seq<Duplicate>)
    ensures toInsert == InsertRows(Kept(cands, |cands|, known, AsWritten, eng), account, user)
    ensures duplicates == Duplicates(cands, |cands|, known, AsWritten, eng)
  {
    var fingerprints := known;
    toInsert, duplicates := [], [];
    var i := 0;
    while i < |cands|
      invariant 0 <= i <= |cands|
      invariant fingerprints == known + KeysBefore(cands, i, AsWritten, eng)
      invariant toInsert == InsertRows(Kept(cands, i, known, AsWritten, eng), account, user)
      invariant duplicates == Duplicates(cands, i, known, AsWritten, eng)
    {
      var key := Fingerprint(ProbeOf(cands[i]), eng);
      assert key == KeyOf(cands[i], AsWritten, eng);
      FreshIffUnseen(cands, i, known, AsWritten, eng);
      KeysBeforeNext(cands, i, AsWritten, eng);
      if key in fingerprints {
        duplicates := duplicates + [Duplicate(key, AlreadyExists)];
      } else {
        fingerprints := fingerprints + {key};
        InsertRowsAppend(Kept(cands, i, known, AsWritten, eng), cands[i], account, user);
        toInsert := toInsert + [InsertRow(cands[i], account, user)];
      }
      i := i + 1;
    }
  }

  /** What the route answers and writes for a batch against the stored
      trades `rows`. */
  function CommitOf(rows: seq<StoredTrade>, account: string, user: string, trades: seq<RequestTrade>,
                    eng: Engine): CommitOutcome
  {
    if !(1 <= |trades| <= MaxBatch) then CommitOutcome(Rejected(422, InvalidPayload), [])
    else match Normalize(trades, eng)
      case None => CommitOutcome(Rejected(400, InvalidOpenedAt), [])
      case Some(cands) =>
        var known := StoredFingerprints(rows, account, Probes(cands), eng);
        var kept := Kept(cands, |cands|, known, AsWritten, eng);
        var dups := Duplicates(cands, |cands|, known, AsWritten, eng);
        CommitOutcome(Committed(|kept|, |cands| - |kept|, |dups|), InsertRows(kept, account, user))
  }

  /** `POST` after authentication and the account check: validate, derive
      the known fingerprints, partition, write. */
  method ProcessImport(store: TradeStore, account: string, user: string, trades: seq<RequestTrade>, eng: Engine)
    returns (response: CommitResponse)
    modifies store
    ensures response == CommitOf(old(store.rows), account, user, trades, eng).response
    ensures store.rows == old(store.rows) + CommitOf(old(store.rows), account, user, trades, eng).written
  {
    if !(1 <= |trades| <= MaxBatch) {
      return Rejected(422, InvalidPayload);
    }
    var normalized := Normalize(trades, eng);
    if normalized.None? {
      return Rejected(400, InvalidOpenedAt);
    }
    var cands := normalized.value;
    var known := DeriveStoredFingerprints(store, account, Probes(cands), eng);
    var toInsert, duplicates := Partition(cands, known, account, user, eng);
    if |toInsert| > 0 {
      store.CreateMany(toInsert);
    }
    response := Committed(|toInsert|, |cands| - |toInsert|, |duplicates|);
  }

  // ----- properties of the partition -----

  /** Each candidate lands in exactly one of the two lists. */
  lemma {:induction false} PartitionCounts(cands: seq<Candidate>, n: nat, known: set<string>, rule: FingerprintRule,
                                           eng: Engine)
    requires n <= |cands|
    ensures |Kept(cands, n, known, rule, eng)| + |Duplicates(cands, n, known, rule, eng)| == n
  {
    if n > 0 {
      PartitionCounts(cands, n - 1, known, rule, eng);
    }
  }

  /** `c` is a fresh candidate among the first `n`. */
  predicate FreshAmong(cands: seq<Candidate>, n: nat, known: set<string>, rule: FingerprintRule, eng: Engine,
                       c: Candidate)
    requires n <= |cands|
  {
    exists i :: 0 <= i < n && c == cands[i] && Fresh(cands, i, known, rule, eng)
  }

  /** Each kept candidate is a fresh one among the first `n`. */
  lemma {:induction false} KeptAreFresh(cands: seq<Candidate>, n: nat, known: set<string>, rule: FingerprintRule,
                                        eng: Engine)
    requires n <= |cands|
    ensures forall c :: c in Kept(cands, n, known, rule, eng) ==> FreshAmong(cands, n, known, rule, eng, c)
  {
    if n > 0 {
      KeptAreFresh(cands, n - 1, known, rule, eng);
      forall c | c in Kept(cands, n, known, rule, eng)
        ensures FreshAmong(cands, n, known, rule, eng, c)
      {
        if c in Kept(cands, n - 1, known, rule, eng) {
          assert FreshAmong(cands, n - 1, known, rule, eng, c);
          var i :| 0 <= i < n - 1 && c == cands[i] && Fresh(cands, i, known, rule, eng);
        } else {
          assert c == cands[n - 1];
        }
      }
    }
  }

  /** No two inserted trades share a fingerprint, and none has a known one. */
  lemma {:induction false} KeptKeysAreNew(cands: seq<Candidate>, n: nat, known: set<string>, rule: FingerprintRule,
                                          eng: Engine)
    requires n <= |cands|
    ensures forall a :: 0 <= a < |Kept(cands, n, known, rule, eng)| ==>
      KeyOf(Kept(cands, n, known, rule, eng)[a], rule, eng) !in known
    ensures forall a, b :: 0 <= a < b < |Kept(cands, n, known, rule, eng)| ==>
      KeyOf(Kept(cands, n, known, rule, eng)[a], rule, eng) != KeyOf(Kept(cands, n, known, rule, eng)[b], rule, eng)
  {
    if n > 0 {
      KeptKeysAreNew(cands, n - 1, known, rule, eng);
      KeptAreFresh(cands, n - 1, known, rule, eng);
      var prev := Kept(cands, n - 1, known, rule, eng);
      var kept := Kept(cands, n, known, rule, eng);
      assert forall a :: 0 <= a < |prev| ==> kept[a] == prev[a];
      if Fresh(cands, n - 1, known, rule, eng) {
        assert kept[|prev|] == cands[n - 1];
        forall a | 0 <= a < |prev|
          ensures KeyOf(prev[a], rule, eng) != KeyOf(cands[n - 1], rule, eng)
        {
          assert prev[a] in prev && FreshAmong(cands, n - 1, known, rule, eng, prev[a]);
          var i :| 0 <= i < n - 1 && prev[a] == cands[i] && Fresh(cands, i, known, rule, eng);
        }
      }
    }
  }

  /** The fingerprints of a list of candidates. */
  function KeySet(cs: seq<Candidate>, rule: FingerprintRule, eng: Engine): set<string>
  {
    set c | c in cs :: KeyOf(c, rule, eng)
  }

  /** Every fingerprint of the batch is known or carried by a kept trade. */
  lemma {:induction false} KeysCovered(cands: seq<Candidate>, n: nat, known: set<string>, rule: FingerprintRule,
                                       eng: Engine)
    requires n <= |cands|
    ensures forall i :: 0 <= i < n ==>
      KeyOf(cands[i], rule, eng) in known + KeySet(Kept(cands, n, known, rule, eng), rule, eng)
  {
    if n > 0 {
      KeysCovered(cands, n - 1, known, rule, eng);
      var prev := Kept(cands, n - 1, known, rule, eng);
      var kept := Kept(cands, n, known, rule, eng);
      assert KeySet(prev, rule, eng) <= KeySet(kept, rule, eng);
      if Fresh(cands, n - 1, known, rule, eng) {
        assert cands[n - 1] in kept;
      } else if KeyOf(cands[n - 1], rule, eng) !in known {
        var h :| 0 <= h < n - 1 && KeyOf(cands[h], rule, eng) == KeyOf(cands[n - 1], rule, eng);
      }
    }
  }

  /** With every fingerprint known, nothing is kept. */
  lemma {:induction false} NothingKeptWhenAllKnown(cands: seq<Candidate>, n: nat, known: set<string>,
                                                   rule: FingerprintRule, eng: Engine)
    requires n <= |cands|
    requires forall i :: 0 <= i < n ==> KeyOf(cands[i], rule, eng) in known
    ensures Kept(cands, n, known, rule, eng) == []
  {
    if n > 0 {
      NothingKeptWhenAllKnown(cands, n - 1, known, rule, eng);
    }
  }

  // ----- properties of the route -----

  /** A batch outside 1..1000 trades is refused with 422, one with an
      invalid opening date with 400, and neither writes anything; otherwise
      every trade is counted once, as inserted or as a duplicate. */
  lemma CommitCounts(rows: seq<StoredTrade>, account: string, user: string, trades: seq<RequestTrade>, eng: Engine)
    ensures var o := CommitOf(rows, account, user, trades, eng);
      (o.response == Rejected(422, InvalidPayload) <==> !(1 <= |trades| <= MaxBatch)) &&
      (o.response == Rejected(400, InvalidOpenedAt) <==>
        1 <= |trades| <= MaxBatch && exists i :: 0 <= i < |trades| && eng.newDate(trades[i].openedAt).InvalidDate?) &&
      (o.response.Rejected? ==> o.written == []) &&
      (o.response.Committed? ==>
        o.response.inserted == |o.written| &&
        o.response.inserted + o.response.duplicates == |trades| &&
        o.response.skipped == o.response.duplicates)
  {
    NormalizeIff(trades, eng);
    var o := CommitOf(rows, account, user, trades, eng);
    if 1 <= |trades| <= MaxBatch && Normalize(trades, eng).Some? {
      var cands := Normalize(trades, eng).value;
      PartitionCounts(cands, |cands|, StoredFingerprints(rows, account, Probes(cands), eng), AsWritten, eng);
    }
  }

  /** The rows written: distinct fingerprints, none already known, in batch
      order, each the insert row of a candidate. */
  lemma CommitWritesNewTrades(rows: seq<StoredTrade>, account: string, user: string, trades: seq<RequestTrade>,
                              eng: Engine)
    requires 1 <= |trades| <= MaxBatch && Normalize(trades, eng).Some?
    ensures var cands := Normalize(trades, eng).value;
      var known := StoredFingerprints(rows, account, Probes(cands), eng);
      var kept := Kept(cands, |cands|, known, AsWritten, eng);
      CommitOf(rows, account, user, trades, eng).written == InsertRows(kept, account, user) &&
      (forall a :: 0 <= a < |kept| ==> Fingerprint(ProbeOf(kept[a]), eng) !in known) &&
      (forall a, b :: 0 <= a < b < |kept| ==> Fingerprint(ProbeOf(kept[a]), eng) != Fingerprint(ProbeOf(kept[b]), eng))
  {
    var cands := Normalize(trades, eng).value;
    KeptKeysAreNew(cands, |cands|, StoredFingerprints(rows, account, Probes(cands), eng), AsWritten, eng);
  }

  /** The rendered numbers of the composite key agree with the stored ones. */
  predicate RendersAlike(cands: seq<Candidate>, eng: Engine)
  {
    forall i :: 0 <= i < |cands| ==>
      (cands[i].trade.entryPrice.Some? ==>
        eng.decimalText(cands[i].trade.entryPrice.value) == eng.numberText(cands[i].trade.entryPrice.value)) &&
      (cands[i].trade.quantity.Some? ==>
        eng.decimalText(cands[i].trade.quantity.value) == eng.numberText(cands[i].trade.quantity.value))
  }

  /** An inserted candidate is found again by the lookups, under its own
      fingerprint, once its row is stored. */
  lemma InsertedIsKnown(rows: seq<StoredTrade>, account: string, user: string, cands: seq<Candidate>, i: nat,
                        rule: FingerprintRule, eng: Engine)
    requires i < |cands| && RendersAlike(cands, eng)
    requires rule == AsWritten ==> cands[i].trade.externalId != Some("")
    requires InsertRow(cands[i], account, user) in rows
    ensures KeyOf(cands[i], rule, eng) in StoredFingerprints(rows, account, Probes(cands), eng)
  {
    var c := cands[i];
    var r := InsertRow(c, account, user);
    var probes := Probes(cands);
    var k := KeyOf(c, rule, eng);
    assert probes[i] == ProbeOf(c);
    if Truthy(c.trade.externalId) {
      assert StoredKey(r, eng) == k;
      assert Truthy(r.externalId) && r.externalId.value == k;
    } else {
      assert StoredKey(r, eng) == k;
    }
    StoredFingerprintsIff(rows, account, probes, eng, k);
  }

  /** A valid batch is committed by partitioning its candidates against
      the fingerprints derived from the stored trades. */
  lemma CommitOfValid(rows: seq<StoredTrade>, account: string, user: string, trades: seq<RequestTrade>,
                      eng: Engine, cands: seq<Candidate>)
    requires 1 <= |trades| <= MaxBatch && Normalize(trades, eng) == Some(cands)
    ensures var known := StoredFingerprints(rows, account, Probes(cands), eng);
      var kept := Kept(cands, |cands|, known, AsWritten, eng);
      CommitOf(rows, account, user, trades, eng) ==
        CommitOutcome(Committed(|kept|, |cands| - |kept|, |Duplicates(cands, |cands|, known, AsWritten, eng)|),
                      InsertRows(kept, account, user))
  {
  }

  /** Committing a batch again after it was committed inserts nothing, when
      its numbers render as the stored decimals do and (as written) no
      trade has an empty external ID. */
  lemma ResubmitWith(rows: seq<StoredTrade>, account: string, user: string, cands: seq<Candidate>,
                     rule: FingerprintRule, eng: Engine)
    requires RendersAlike(cands, eng)
    requires rule == AsWritten ==> forall i :: 0 <= i < |cands| ==> cands[i].trade.externalId != Some("")
    ensures var known := StoredFingerprints(rows, account, Probes(cands), eng);
      var after := rows + InsertRows(Kept(cands, |cands|, known, rule, eng), account, user);
      Kept(cands, |cands|, StoredFingerprints(after, account, Probes(cands), eng), rule, eng) == []
  {
    var known := StoredFingerprints(rows, account, Probes(cands), eng);
    var written := InsertRows(Kept(cands, |cands|, known, rule, eng), account, user);
    var after := rows + written;
    var known2 := StoredFingerprints(after, account, Probes(cands), eng);
    StoredFingerprintsGrow(rows, written, account, Probes(cands), eng);
    forall i | 0 <= i < |cands|
      ensures KeyOf(cands[i], rule, eng) in known2
    {
      if KeyOf(cands[i], rule, eng) !in known {
        NewKeyIsWritten(cands, known, rule, eng, account, user, i);
        var j :| 0 <= j < |cands| && KeyOf(cands[j], rule, eng) == KeyOf(cands[i], rule, eng)
                 && InsertRow(cands[j], account, user) in written;
        InsertedIsKnown(after, account, user, cands, j, rule, eng);
      }
    }
    NothingKeptWhenAllKnown(cands, |cands|, known2, rule, eng);
  }

  /** A key of the batch that is not known is carried by a written row. */
  lemma NewKeyIsWritten(cands: seq<Candidate>, known: set<string>, rule: FingerprintRule, eng: Engine,
                        account: string, user: string, i: int)
    requires 0 <= i < |cands| && KeyOf(cands[i], rule, eng) !in known
    ensures exists j :: (0 <= j < |cands| && KeyOf(cands[j], rule, eng) == KeyOf(cands[i], rule, eng) &&
      InsertRow(cands[j], account, user) in InsertRows(Kept(cands, |cands|, known, rule, eng), account, user))
  {
    var kept := Kept(cands, |cands|, known, rule, eng);
    KeysCovered(cands, |cands|, known, rule, eng);
    KeptAreFresh(cands, |cands|, known, rule, eng);
    var c :| c in kept && KeyOf(c, rule, eng) == KeyOf(cands[i], rule, eng);
    assert FreshAmong(cands, |cands|, known, rule, eng, c);
    var j :| 0 <= j < |cands| && c == cands[j] && Fresh(cands, j, known, rule, eng);
    var a :| 0 <= a < |kept| && kept[a] == c;
    assert InsertRows(kept, account, user)[a] == InsertRow(cands[j], account, user);
  }

  /** A valid batch of which nothing is kept is reported as all duplicates. */
  lemma CommitNothingKept(rows: seq<StoredTrade>, account: string, user: string, trades: seq<RequestTrade>,
                          eng: Engine, cands: seq<Candidate>)
    requires 1 <= |trades| <= MaxBatch && Normalize(trades, eng) == Some(cands)
    requires Kept(cands, |cands|, StoredFingerprints(rows, account, Probes(cands), eng), AsWritten, eng) == []
    ensures CommitOf(rows, account, user, trades, eng).response == Committed(0, |cands|, |cands|)
  {
    CommitOfValid(rows, account, user, trades, eng, cands);
    PartitionCounts(cands, |cands|, StoredFingerprints(rows, account, Probes(cands), eng), AsWritten, eng);
  }

  /** A valid batch writes the rows of the candidates it keeps. */
  lemma CommitWritesKept(rows: seq<StoredTrade>, account: string, user: string, trades: seq<RequestTrade>,
                         eng: Engine, cands: seq<Candidate>)
    requires 1 <= |trades| <= MaxBatch && Normalize(trades, eng) == Some(cands)
    ensures CommitOf(rows, account, user, trades, eng).written ==
      InsertRows(Kept(cands, |cands|, StoredFingerprints(rows, account, Probes(cands), eng), AsWritten, eng), account, user)
  {
    CommitOfValid(rows, account, user, trades, eng, cands);
  }

  /** Resubmitting a committed batch reports no insertion and every trade
      as a duplicate. */
  lemma ResubmitInsertsNothing(rows: seq<StoredTrade>, account: string, user: string, trades: seq<RequestTrade>,
                               eng: Engine, cands: seq<Candidate>)
    requires 1 <= |trades| <= MaxBatch && Normalize(trades, eng) == Some(cands)
    requires forall i :: 0 <= i < |trades| ==> trades[i].externalId != Some("")
    requires RendersAlike(cands, eng)
    ensures var after := rows + CommitOf(rows, account, user, trades, eng).written;
      CommitOf(after, account, user, trades, eng).response == Committed(0, |trades|, |trades|)
  {
    NormalizeIff(trades, eng);
    assert forall i :: 0 <= i < |cands| ==> cands[i].trade.externalId != Some("");
    CommitWritesKept(rows, account, user, trades, eng, cands);
    ResubmitWith(rows, account, user, cands, AsWritten, eng);
    CommitNothingKept(rows + CommitOf(rows, account, user, trades, eng).written, account, user, trades, eng, cands);
  }

  // ----- an empty external ID -----

  /** A composite key is never empty: it holds at least the separators. */
  lemma CompositeNotEmpty(symbol: string, side: TradeSide, openedAt: Instant, entry: string, quantity: string,
                          eng: Engine)
    ensures Composite(symbol, side, openedAt, entry, quantity, eng) != ""
  {
    var parts := [symbol, SideName(side), eng.isoString(openedAt), entry, quantity];
    assert Join(parts, "|") == parts[0] + "|" + Join(parts[1..], "|");
  }

  /** A lone candidate whose key is not known is kept, and is no duplicate. */
  lemma SingleKept(c: Candidate, known: set<string>, eng: Engine)
    requires KeyOf(c, AsWritten, eng) !in known
    ensures Kept([c], 1, known, AsWritten, eng) == [c] && Duplicates([c], 1, known, AsWritten, eng) == []
  {
    assert Fresh([c], 0, known, AsWritten, eng);
  }

  /** A one-trade batch whose key is not known is committed by inserting
      the trade's row. */
  lemma SingleCommit(rows: seq<StoredTrade>, account: string, user: string, t: RequestTrade, eng: Engine, c: Candidate)
    requires Normalize([t], eng) == Some([c])
    requires KeyOf(c, AsWritten, eng) !in StoredFingerprints(rows, account, Probes([c]), eng)
    ensures CommitOf(rows, account, user, [t], eng) == CommitOutcome(Committed(1, 0, 0), [InsertRow(c, account, user)])
  {
    CommitOfValid(rows, account, user, [t], eng, [c]);
    SingleKept(c, StoredFingerprints(rows, account, Probes([c]), eng), eng);
    assert InsertRows([c], account, user) == [InsertRow(c, account, user)];
  }

  /** No key is known from an empty store. */
  lemma NothingKnownWhenEmpty(account: string, probes: seq<Probe>, eng: Engine, k: string)
    ensures k !in StoredFingerprints([], account, probes, eng)
  {
    StoredFingerprintsIff([], account, probes, eng, k);
  }

  /** The row stored for a trade without a non-empty external ID is known
      by its composite key, which is never the empty text. */
  lemma EmptyIdUnknownAfterInsert(account: string, user: string, c: Candidate, eng: Engine)
    requires c.trade.externalId == Some("")
    ensures "" !in StoredFingerprints([InsertRow(c, account, user)], account, Probes([c]), eng)
  {
    var r := InsertRow(c, account, user);
    StoredFingerprintsIff([r], account, Probes([c]), eng, "");
    CompositeNotEmpty(r.symbol, r.side, r.openedAt, DecimalText(r.entryPrice, eng), DecimalText(r.quantity, eng), eng);
  }

  /** As written, a trade whose external ID is the empty text is inserted
      again on every commit: its fingerprint is the empty text, while the
      stored trade is known by its composite key. */
  lemma EmptyIdCommittedTwice(account: string, user: string, t: RequestTrade, eng: Engine)
    requires t.externalId == Some("") && eng.newDate(t.openedAt).ValidDate?
    ensures var first := CommitOf([], account, user, [t], eng);
      first.response == Committed(1, 0, 0) &&
      CommitOf(first.written, account, user, [t], eng).response == Committed(1, 0, 0)
  {
    NormalizeIff([t], eng);
    var cands := Normalize([t], eng).value;
    var c := cands[0];
    assert cands == [c];
    assert KeyOf(c, AsWritten, eng) == "";
    NothingKnownWhenEmpty(account, Probes([c]), eng, "");
    SingleCommit([], account, user, t, eng, c);
    EmptyIdUnknownAfterInsert(account, user, c, eng);
    SingleCommit([InsertRow(c, account, user)], account, user, t, eng, c);
  }

  /** As written, two trades of one batch whose external IDs are both the
      empty text share the fingerprint "", so the second is dropped as a
      duplicate whatever its other fields. */
  lemma EmptyIdsCollapse(account: string, user: string, t1: RequestTrade, t2: RequestTrade, eng: Engine)
    requires t1.externalId == Some("") && t2.externalId == Some("")
    requires eng.newDate(t1.openedAt).ValidDate? && eng.newDate(t2.openedAt).ValidDate?
    ensures CommitOf([], account, user, [t1, t2], eng).response == Committed(1, 1, 1)
  {
    NormalizeIff([t1, t2], eng);
    var cands := Normalize([t1, t2], eng).value;
    assert Probes(cands) == [ProbeOf(cands[0]), ProbeOf(cands[1])];
    assert ExternalIds(Probes(cands)) == [] by {
      var ps := Probes(cands);
      assert ps[..1] == [ProbeOf(cands[0])] && ps[..1][..0] == [];
      assert ExternalIds(ps[..1]) == [];
    }
    assert AnyWithoutExternal(Probes(cands)) by {
      assert ProbeOf(cands[0]) in Probes(cands);
    }
    var known := StoredFingerprints([], account, Probes(cands), eng);
    assert known == {};
    CommitOfValid([], account, user, [t1, t2], eng, cands);
    assert Fresh(cands, 0, known, AsWritten, eng);
    assert !Fresh(cands, 1, known, AsWritten, eng);
    assert Kept(cands, 1, known, AsWritten, eng) == [cands[0]];
    assert Kept(cands, 2, known, AsWritten, eng) == [cands[0]];
    assert Duplicates(cands, 1, known, AsWritten, eng) == [];
    assert |Duplicates(cands, 2, known, AsWritten, eng)| == 1;
  }

  /** With the intended fingerprint, resubmitting a committed batch inserts
      nothing, empty external IDs included. */
  lemma IntendedResubmitInsertsNothing(rows: seq<StoredTrade>, account: string, user: string,
                                       cands: seq<Candidate>, eng: Engine)
    requires RendersAlike(cands, eng)
    ensures var known := StoredFingerprints(rows, account, Probes(cands), eng);
      var after := rows + InsertRows(Kept(cands, |cands|, known, Intended, eng), account, user);
      Kept(cands, |cands|, StoredFingerprints(after, account, Probes(cands), eng), Intended, eng) == []
  {
    ResubmitWith(rows, account, user, cands, Intended, eng);
  }

  /** With the intended fingerprint, two trades with empty external IDs and
      different symbols are both kept. */
  lemma IntendedKeepsEmptyIdTrades(c1: Candidate, c2: Candidate, eng: Engine)
    requires c1.trade.externalId == Some("") && c2.trade.externalId == Some("")
    requires c1.trade.symbol == "A" && c2.trade.symbol == "B"
    ensures Kept([c1, c2], 2, {}, Intended, eng) == [c1, c2]
  {
    var cands := [c1, c2];
    var p1, p2 := ProbeOf(c1), ProbeOf(c2);
    var parts1 := [p1.symbol, SideName(p1.side), eng.isoString(p1.openedAt), NumberText(p1.entryPrice, eng), NumberText(p1.quantity, eng)];
    var parts2 := [p2.symbol, SideName(p2.side), eng.isoString(p2.openedAt), NumberText(p2.entryPrice, eng), NumberText(p2.quantity, eng)];
    assert Join(parts1, "|") == parts1[0] + "|" + Join(parts1[1..], "|");
    assert Join(parts2, "|") == parts2[0] + "|" + Join(parts2[1..], "|");
    assert KeyOf(c1, Intended, eng)[0] == 'A';
    assert KeyOf(c2, Intended, eng)[0] == 'B';
    assert Fresh(cands, 0, {}, Intended, eng);
    assert Fresh(cands, 1, {}, Intended, eng);
    assert Kept(cands, 1, {}, Intended, eng) == [c1];
  }
}
