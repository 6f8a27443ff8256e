// The trade fingerprint shared by the import preview and the import commit
// (app/api/imports/preview/route.ts, app/api/imports/process/route.ts): the
// fingerprint of an incoming trade, the key a stored trade is known by, and
// the set of keys derived from the stored trades of an account by two
// lookups. The two routes spell these out separately with the same text; the
// model defines them once.
module Fingerprints {
  import opened JsText
  import opened JsPlatform
  import opened CsvCoerce
  import opened CsvImport

  datatype Source = Csv | Api | Manual

  /** A stored trade: the columns the routes write and read. */
  datatype StoredTrade = StoredTrade(
    accountId: string,
    userId: string,
    symbol: string,
    side: TradeSide,
    quantity: Option<real>,
    entryPrice: Option<real>,
    exitPrice: Option<real>,
    stopLoss: Option<real>,
    takeProfit: Option<real>,
    fees: Option<real>,
    profitLoss: Option<real>,
    openedAt: Instant,
    closedAt: Option<JsDate>,
    source: Source,
    strategyTag: Option<string>,
    notes: Option<string>,
    externalId: Option<string>,
    meta: Option<Row>)

  /** The fields of an incoming trade that its fingerprint reads. */
  datatype Probe = Probe(
    symbol: string,
    side: TradeSide,
    openedAt: Instant,
    entryPrice: Option<real>,
    quantity: Option<real>,
    externalId: Option<string>)

  /** Symbol, side, ISO opening instant and two rendered numbers joined with `|`. */
  function Composite(symbol: string, side: TradeSide, openedAt: Instant, entry: string, quantity: string,
                     eng: Engine): string
  {
    Join([symbol, SideName(side), eng.isoString(openedAt), entry, quantity], "|")
  }

  /** A stored `Prisma.Decimal` as `?.toString() ?? ""` renders it. */
  function DecimalText(x: Option<real>, eng: Engine): string
  {
    match x
    case Some(v) => eng.decimalText(v)
    case None => ""
  }

  /** `buildFingerprint` / `fingerprint`: the external ID whenever it is
      present (`??`, so an empty ID counts), else the composite key. */
  function Fingerprint(p: Probe, eng: Engine): string
  {
    if p.externalId.Some? then p.externalId.value
    else Composite(p.symbol, p.side, p.openedAt, NumberText(p.entryPrice, eng), NumberText(p.quantity, eng), eng)
  }

  /** The key a stored trade contributes: its external ID when non-empty,
      else the composite key with the stored decimals rendered. */
  function StoredKey(s: StoredTrade, eng: Engine): string
  {
    if Truthy(s.externalId) then s.externalId.value
    else Composite(s.symbol, s.side, s.openedAt, DecimalText(s.entryPrice, eng), DecimalText(s.quantity, eng), eng)
  }

  /** The non-empty external IDs of the incoming trades, in order. */
  function ExternalIds(probes: seq<Probe>): seq<string>
  {
    if probes == [] then []
    else
      var last := probes[|probes| - 1];
      ExternalIds(probes[..|probes| - 1]) + (if Truthy(last.externalId) then [last.externalId.value] else [])
  }

  /** The opening instants of the incoming trades without a non-empty
      external ID. */
  function OpenTimes(probes: seq<Probe>): set<Instant>
  {
    set p | p in probes && !Truthy(p.externalId) :: p.openedAt
  }

  /** Some incoming trade lacks a non-empty external ID. */
  predicate AnyWithoutExternal(probes: seq<Probe>)
  {
    exists p :: p in probes && !Truthy(p.externalId)
  }

  /** `findMany` by account and external ID among `ids`. */
  function ByExternalId(rows: seq<StoredTrade>, account: string, ids: seq<string>): seq<StoredTrade>
  {
    if rows == [] then []
    else
      var r := rows[|rows| - 1];
      ByExternalId(rows[..|rows| - 1], account, ids) +
        (if r.accountId == account && r.externalId.Some? && r.externalId.value in ids then [r] else [])
  }

  /** `findMany` by account and opening instant among `times`. */
  function ByOpenTime(rows: seq<StoredTrade>, account: string, times: set<Instant>): seq<StoredTrade>
  {
    if rows == [] then []
    else
      var r := rows[|rows| - 1];
      ByOpenTime(rows[..|rows| - 1], account, times) +
        (if r.accountId == account && r.openedAt in times then [r] else [])
  }

  /** The first `forEach`: each non-empty external ID found. */
  function ExternalKeys(found: seq<StoredTrade>): set<string>
  {
    if found == [] then {}
    else
      var r := found[|found| - 1];
      ExternalKeys(found[..|found| - 1]) + (if Truthy(r.externalId) then {r.externalId.value} else {})
  }

  /** The second `forEach`: the key of each trade found. */
  function StoredKeys(found: seq<StoredTrade>, eng: Engine): set<string>
  {
    if found == [] then {}
    else StoredKeys(found[..|found| - 1], eng) + {StoredKey(found[|found| - 1], eng)}
  }

  /** The lookups each route makes, for the incoming trades `probes`. */
  function ExternalLookup(rows: seq<StoredTrade>, account: string, probes: seq<Probe>): seq<StoredTrade>
  {
    var ids := ExternalIds(probes);
    if |ids| > 0 then ByExternalId(rows, account, ids) else []
  }

  function OpenTimeLookup(rows: seq<StoredTrade>, account: string, probes: seq<Probe>): seq<StoredTrade>
  {
    if AnyWithoutExternal(probes) then ByOpenTime(rows, account, OpenTimes(probes)) else []
  }

  /** The set of fingerprints known before any incoming trade is looked at. */
  function StoredFingerprints(rows: seq<StoredTrade>, account: string, probes: seq<Probe>, eng: Engine): set<string>
  {
    ExternalKeys(ExternalLookup(rows, account, probes)) + StoredKeys(OpenTimeLookup(rows, account, probes), eng)
  }

  // ----- membership -----

  lemma {:induction false} ExternalIdsMembers(probes: seq<Probe>)
    ensures forall id :: id in ExternalIds(probes) <==>
      exists p :: p in probes && Truthy(p.externalId) && p.externalId.value == id
  {
    if probes != [] {
      ExternalIdsMembers(probes[..|probes| - 1]);
      assert probes == probes[..|probes| - 1] + [probes[|probes| - 1]];
    }
  }

  lemma {:induction false} ByExternalIdMembers(rows: seq<StoredTrade>, account: string, ids: seq<string>)
    ensures forall r :: r in ByExternalId(rows, account, ids) <==>
      r in rows && r.accountId == account && r.externalId.Some? && r.externalId.value in ids
  {
    if rows != [] {
      ByExternalIdMembers(rows[..|rows| - 1], account, ids);
      assert rows == rows[..|rows| - 1] + [rows[|rows| - 1]];
    }
  }

  lemma {:induction false} ByOpenTimeMembers(rows: seq<StoredTrade>, account: string, times: set<Instant>)
    ensures forall r :: r in ByOpenTime(rows, account, times) <==> r in rows && r.accountId == account && r.openedAt in times
  {
    if rows != [] {
      ByOpenTimeMembers(rows[..|rows| - 1], account, times);
      assert rows == rows[..|rows| - 1] + [rows[|rows| - 1]];
    }
  }

  lemma {:induction false} ExternalKeysMembers(found: seq<StoredTrade>)
    ensures forall k :: k in ExternalKeys(found) <==> exists r :: r in found && Truthy(r.externalId) && r.externalId.value == k
  {
    if found != [] {
      ExternalKeysMembers(found[..|found| - 1]);
      assert found == found[..|found| - 1] + [found[|found| - 1]];
    }
  }

  lemma {:induction false} StoredKeysMembers(found: seq<StoredTrade>, eng: Engine)
    ensures forall k :: k in StoredKeys(found, eng) <==> exists r :: r in found && StoredKey(r, eng) == k
  {
    if found != [] {
      StoredKeysMembers(found[..|found| - 1], eng);
      assert found == found[..|found| - 1] + [found[|found| - 1]];
    }
  }

  /** A key is known exactly when a stored trade of the account has it as
      its non-empty external ID, named by an incoming trade, or has it as
      its key while opened at the instant of an incoming trade without one. */
  lemma StoredFingerprintsIff(rows: seq<StoredTrade>, account: string, probes: seq<Probe>, eng: Engine, k: string)
    ensures k in StoredFingerprints(rows, account, probes, eng) <==>
      exists r :: r in rows && r.accountId == account &&
        ((Truthy(r.externalId) && r.externalId.value == k &&
          exists p :: p in probes && Truthy(p.externalId) && p.externalId.value == k) ||
         (StoredKey(r, eng) == k && exists p :: p in probes && !Truthy(p.externalId) && p.openedAt == r.openedAt))
  {
    var ids := ExternalIds(probes);
    ExternalIdsMembers(probes);
    ByExternalIdMembers(rows, account, ids);
    ByOpenTimeMembers(rows, account, OpenTimes(probes));
    ExternalKeysMembers(ExternalLookup(rows, account, probes));
    StoredKeysMembers(OpenTimeLookup(rows, account, probes), eng);
    if k in StoredFingerprints(rows, account, probes, eng) {
      if k in ExternalKeys(ExternalLookup(rows, account, probes)) {
        var r :| r in ExternalLookup(rows, account, probes) && Truthy(r.externalId) && r.externalId.value == k;
        assert k in ids;
      } else {
        var r :| r in OpenTimeLookup(rows, account, probes) && StoredKey(r, eng) == k;
        assert r.openedAt in OpenTimes(probes);
      }
    }
    if exists r :: r in rows && r.accountId == account &&
        ((Truthy(r.externalId) && r.externalId.value == k &&
          exists p :: p in probes && Truthy(p.externalId) && p.externalId.value == k) ||
         (StoredKey(r, eng) == k && exists p :: p in probes && !Truthy(p.externalId) && p.openedAt == r.openedAt))
    {
      var r :| r in rows && r.accountId == account &&
        ((Truthy(r.externalId) && r.externalId.value == k &&
          exists p :: p in probes && Truthy(p.externalId) && p.externalId.value == k) ||
         (StoredKey(r, eng) == k && exists p :: p in probes && !Truthy(p.externalId) && p.openedAt == r.openedAt));
      if Truthy(r.externalId) && r.externalId.value == k &&
          exists p :: p in probes && Truthy(p.externalId) && p.externalId.value == k {
        assert k in ids;
        assert r in ExternalLookup(rows, account, probes);
      } else {
        var p :| p in probes && !Truthy(p.externalId) && p.openedAt == r.openedAt;
        assert r.openedAt in OpenTimes(probes);
        assert r in OpenTimeLookup(rows, account, probes);
      }
    }
  }

  /** More stored trades never make a key unknown. */
  lemma StoredFingerprintsGrow(rows: seq<StoredTrade>, more: seq<StoredTrade>, account: string, probes: seq<Probe>,
                               eng: Engine)
    ensures StoredFingerprints(rows, account, probes, eng) <= StoredFingerprints(rows + more, account, probes, eng)
  {
    forall k | k in StoredFingerprints(rows, account, probes, eng)
      ensures k in StoredFingerprints(rows + more, account, probes, eng)
    {
      StoredFingerprintsIff(rows, account, probes, eng, k);
      StoredFingerprintsIff(rows + more, account, probes, eng, k);
    }
  }

  // ----- the imperative derivation -----

  /** The trades of the database, as far as the routes see them. */
  class TradeStore {
    var rows: seq<StoredTrade>

    constructor(initial: seq<StoredTrade>)
      ensures rows == initial
    {
      rows := initial;
    }

    /** `createMany({ data })`: the rows are appended in order. */
    method CreateMany(data: seq<StoredTrade>)
      modifies this
      ensures rows == old(rows) + data
    {
      rows := rows + data;
    }
  }

  /** The two lookups and the two `forEach` loops that fill the fingerprint
      set of a route. */
  method DeriveStoredFingerprints(store: TradeStore, account: string, probes: seq<Probe>, eng: Engine)
    returns (fingerprints: set<string>)
    ensures fingerprints == StoredFingerprints(store.rows, account, probes, eng)
  {
    var byId := ExternalLookup(store.rows, account, probes);
    fingerprints := {};
    var j := 0;
    while j < |byId|
      invariant 0 <= j <= |byId|
      invariant fingerprints == ExternalKeys(byId[..j])
    {
      if Truthy(byId[j].externalId) {
        fingerprints := fingerprints + {byId[j].externalId.value};
      }
      assert byId[..j + 1][..j] == byId[..j];
      j := j + 1;
    }
    assert byId[..j] == byId;
    var known := fingerprints;
    if AnyWithoutExternal(probes) {
      var byTime := ByOpenTime(store.rows, account, OpenTimes(probes));
      j := 0;
      while j < |byTime|
        invariant 0 <= j <= |byTime|
        invariant fingerprints == known + StoredKeys(byTime[..j], eng)
      {
        fingerprints := fingerprints + {StoredKey(byTime[j], eng)};
        assert byTime[..j + 1][..j] == byTime[..j];
        j := j + 1;
      }
      assert byTime[..j] == byTime;
    }
  }
}
