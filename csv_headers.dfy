// Header resolution of the CSV importer (src/lib/imports/csv.ts): a header
// is normalised (`normalizeHeader`) and looked up in the static alias table
// (`HEADER_ALIAS_MAP`); the mapping of a whole file is fixed per distinct
// header string.
module CsvHeaders {
  import opened JsText
  import opened JsPlatform

  /** The closed set of canonical fields (`NormalizedKey`). There are no
      day/month/year split fields. */
  datatype NormalizedKey =
    | Symbol | Side | Quantity | EntryPrice | ExitPrice | StopLoss | TakeProfit
    | Fees | ProfitLoss | OpenedAt | OpenedAtTime | OpenedAtDate | ClosedAt
    | ClosedAtTime | ClosedAtDate | Notes | StrategyTag | ExternalId

  /** `HEADER_ALIAS_MAP[text] ?? null`: the static alias table from
      normalised header text to canonical field, in the order of the
      source's object literal (its keys are distinct). */
  function Alias(text: string): Option<NormalizedKey>
  {
    match text
    case "symbol" => Some(Symbol)
    case "ticker" => Some(Symbol)
    case "instrument" => Some(Symbol)
    case "market" => Some(Symbol)
    case "asset" => Some(Symbol)
    case "pair" => Some(Symbol)
    case "product" => Some(Symbol)
    case "side" => Some(Side)
    case "direction" => Some(Side)
    case "type" => Some(Side)
    case "order side" => Some(Side)
    case "buy/sell" => Some(Side)
    case "position" => Some(Side)
    case "qty" => Some(Quantity)
    case "quantity" => Some(Quantity)
    case "amount" => Some(Quantity)
    case "size" => Some(Quantity)
    case "volume" => Some(Quantity)
    case "contracts" => Some(Quantity)
    case "lots" => Some(Quantity)
    case "entry price" => Some(EntryPrice)
    case "entry" => Some(EntryPrice)
    case "price" => Some(EntryPrice)
    case "open price" => Some(EntryPrice)
    case "avg entry price" => Some(EntryPrice)
    case "average entry price" => Some(EntryPrice)
    case "exit price" => Some(ExitPrice)
    case "close price" => Some(ExitPrice)
    case "avg exit price" => Some(ExitPrice)
    case "average exit price" => Some(ExitPrice)
    case "closing price" => Some(ExitPrice)
    case "stop loss" => Some(StopLoss)
    case "stop" => Some(StopLoss)
    case "stop price" => Some(StopLoss)
    case "take profit" => Some(TakeProfit)
    case "target" => Some(TakeProfit)
    case "target price" => Some(TakeProfit)
    case "fee" => Some(Fees)
    case "fees" => Some(Fees)
    case "commission" => Some(Fees)
    case "commissions" => Some(Fees)
    case "cost" => Some(Fees)
    case "transaction cost" => Some(Fees)
    case "pnl" => Some(ProfitLoss)
    case "p/l" => Some(ProfitLoss)
    case "profit" => Some(ProfitLoss)
    case "loss" => Some(ProfitLoss)
    case "profit/loss" => Some(ProfitLoss)
    case "pl" => Some(ProfitLoss)
    case "net profit" => Some(ProfitLoss)
    case "gross profit" => Some(ProfitLoss)
    case "realized pnl" => Some(ProfitLoss)
    case "entry time" => Some(OpenedAtTime)
    case "open time" => Some(OpenedAtTime)
    case "open datetime" => Some(OpenedAt)
    case "execution time" => Some(OpenedAt)
    case "date" => Some(OpenedAtDate)
    case "trade date" => Some(OpenedAtDate)
    case "entry date" => Some(OpenedAtDate)
    case "open date" => Some(OpenedAtDate)
    case "entry timestamp" => Some(OpenedAt)
    case "exit time" => Some(ClosedAtTime)
    case "close time" => Some(ClosedAtTime)
    case "close datetime" => Some(ClosedAt)
    case "exit datetime" => Some(ClosedAt)
    case "exit date" => Some(ClosedAtDate)
    case "close date" => Some(ClosedAtDate)
    case "close timestamp" => Some(ClosedAt)
    case "comment" => Some(Notes)
    case "note" => Some(Notes)
    case "notes" => Some(Notes)
    case "memo" => Some(Notes)
    case "remark" => Some(Notes)
    case "tag" => Some(StrategyTag)
    case "tags" => Some(StrategyTag)
    case "strategy" => Some(StrategyTag)
    case "setup" => Some(StrategyTag)
    case "id" => Some(ExternalId)
    case "trade id" => Some(ExternalId)
    case "ticket" => Some(ExternalId)
    case "order" => Some(ExternalId)
    case "order id" => Some(ExternalId)
    case "position id" => Some(ExternalId)
    case _ => None
  }

  /** `replace(/[_-]/g, " ")` */
  function SeparatorsToSpaces(s: string): (r: string)
    ensures |r| == |s|
    ensures forall i :: 0 <= i < |s| ==> r[i] == (if s[i] == '_' || s[i] == '-' then ' ' else s[i])
  {
    if s == [] then [] else [if s[0] == '_' || s[0] == '-' then ' ' else s[0]] + SeparatorsToSpaces(s[1..])
  }

  /** No white-space character but the plain space, and no two white-space
      characters in a row. */
  ghost predicate SingleSpaced(s: string)
  {
    (forall i :: 0 <= i < |s| && IsSpace(s[i]) ==> s[i] == ' ')
    && (forall i :: 0 <= i < |s| - 1 ==> !(IsSpace(s[i]) && IsSpace(s[i + 1])))
  }

  /** `replace(/\s+/g, " ")`: every maximal run of white space becomes one space. */
  function CollapseSpaces(s: string): (r: string)
    ensures SingleSpaced(r)
    ensures r == [] <==> s == []
    ensures r != [] ==> (IsSpace(r[0]) <==> IsSpace(s[0]))
    ensures forall i :: 0 <= i < |r| && !IsSpace(r[i]) ==> r[i] in s
    decreases |s|
  {
    if s == [] then []
    else if IsSpace(s[0]) then
      var rest := TrimStart(s);
      var tail := CollapseSpaces(rest);
      SingleSpacedCons(' ', tail);
      [' '] + tail
    else
      var tail := CollapseSpaces(s[1..]);
      SingleSpacedCons(s[0], tail);
      [s[0]] + tail
  }

  lemma SingleSpacedCons(c: char, t: string)
    requires SingleSpaced(t)
    requires IsSpace(c) ==> c == ' ' && (t == [] || !IsSpace(t[0]))
    ensures SingleSpaced([c] + t)
  {
    var r := [c] + t;
    forall i | 1 <= i < |r|
      ensures r[i] == t[i - 1]
    {
    }
  }

  /** Collapsing keeps the text: the characters other than white space
      stay, in order and with their multiplicity. */
  lemma {:induction false} CollapseKeepsText(s: string)
    ensures RemoveSpaces(CollapseSpaces(s)) == RemoveSpaces(s)
    decreases |s|
  {
    if s != [] {
      if IsSpace(s[0]) {
        CollapseKeepsText(TrimStart(s));
        RemoveSpacesAbsorbsTrimStart(s);
        assert CollapseSpaces(s) == [' '] + CollapseSpaces(TrimStart(s));
      } else {
        CollapseKeepsText(s[1..]);
        assert CollapseSpaces(s) == [s[0]] + CollapseSpaces(s[1..]);
      }
    }
  }

  /** Leading white space before text that starts with none is dropped
      entirely. */
  lemma {:induction false} TrimStartOfRun(w: string, y: string)
    requires forall i :: 0 <= i < |w| ==> IsSpace(w[i])
    requires y == [] || !IsSpace(y[0])
    ensures TrimStart(w + y) == y
    decreases |w|
  {
    if w == [] {
      assert w + y == y;
    } else {
      assert (w + y)[0] == w[0];
      assert (w + y)[1..] == w[1..] + y;
      TrimStartOfRun(w[1..], y);
    }
  }

  /** A run of white space after a word without white space becomes exactly
      one plain space (`"Entry  Price"` collapses to `"Entry Price"`). */
  lemma {:induction false} CollapseRunBetween(x: string, w: string, y: string)
    requires forall i :: 0 <= i < |x| ==> !IsSpace(x[i])
    requires w != [] && forall i :: 0 <= i < |w| ==> IsSpace(w[i])
    requires y == [] || !IsSpace(y[0])
    ensures CollapseSpaces(x + w + y) == x + [' '] + CollapseSpaces(y)
    decreases |x|
  {
    if x == [] {
      ConcatParts(x, w, y);
      CollapseRunFirst(w, y);
    } else {
      CollapseRunBetween(x[1..], w, y);
      ConcatParts(x, w, y);
      CollapseRunStep(x, x + w + y, x[1..] + w + y, [' '], CollapseSpaces(y));
    }
  }

  lemma CollapseRunStep(x: string, s: string, t: string, a: string, b: string)
    requires x != [] && !IsSpace(x[0]) && s != [] && s[0] == x[0] && s[1..] == t
    requires CollapseSpaces(t) == x[1..] + a + b
    ensures CollapseSpaces(s) == x + a + b
  {
    CollapseWordStep(s, x[0], x[1..] + a + b);
    ConsRest(x, a, b);
  }

  lemma ConcatParts(x: string, w: string, y: string)
    ensures x == [] ==> x + w + y == w + y
    ensures x != [] ==> (x + w + y)[0] == x[0] && (x + w + y)[1..] == x[1..] + w + y
  {
  }

  lemma ConsRest(x: string, a: string, b: string)
    requires x != []
    ensures [x[0]] + (x[1..] + a + b) == x + a + b
  {
    assert x == [x[0]] + x[1..];
  }

  lemma CollapseRunFirst(w: string, y: string)
    requires w != [] && forall i :: 0 <= i < |w| ==> IsSpace(w[i])
    requires y == [] || !IsSpace(y[0])
    ensures CollapseSpaces(w + y) == [' '] + CollapseSpaces(y)
  {
    assert (w + y)[0] == w[0];
    TrimStartOfRun(w, y);
  }

  lemma CollapseWordStep(s: string, c: char, rest: string)
    requires s != [] && s[0] == c && !IsSpace(c) && CollapseSpaces(s[1..]) == rest
    ensures CollapseSpaces(s) == [c] + rest
  {
  }

  /** `normalizeHeader`. */
  function NormalizeHeader(header: string): string
  {
    ToLower(Trim(CollapseSpaces(SeparatorsToSpaces(header))))
  }

  /** The shape of a normalised header: no `_` or `-`, no upper case, no
      leading, trailing or repeated white space. */
  ghost predicate IsNormalizedHeader(s: string)
  {
    (forall i :: 0 <= i < |s| ==> s[i] != '_' && s[i] != '-' && !IsAsciiUpper(s[i]))
    && IsTrimmed(s) && SingleSpaced(s)
  }

  lemma SingleSpacedSlice(s: string, a: nat, b: nat)
    requires SingleSpaced(s) && a <= b <= |s|
    ensures SingleSpaced(s[a..b])
  {
    var t := s[a..b];
    forall i | 0 <= i < |t| - 1
      ensures !(IsSpace(t[i]) && IsSpace(t[i + 1]))
    {
      assert t[i] == s[a + i] && t[i + 1] == s[a + i + 1];
    }
  }

  ghost predicate NoSeparators(s: string)
  {
    forall i :: 0 <= i < |s| ==> s[i] != '_' && s[i] != '-'
  }

  lemma CollapseKeepsNoSeparators(s: string)
    requires NoSeparators(s)
    ensures NoSeparators(CollapseSpaces(s))
  {
    var r := CollapseSpaces(s);
    forall i | 0 <= i < |r|
      ensures r[i] != '_' && r[i] != '-'
    {
      if !IsSpace(r[i]) {
        assert r[i] in s;
      }
    }
  }

  lemma NoSeparatorsSlice(s: string, a: nat, b: nat)
    requires NoSeparators(s) && a <= b <= |s|
    ensures NoSeparators(s[a..b])
  {
    var t := s[a..b];
    forall i | 0 <= i < |t|
      ensures t[i] != '_' && t[i] != '-'
    {
      assert t[i] == s[a + i];
    }
  }

  lemma TrimKeepsShape(b: string)
    requires SingleSpaced(b) && NoSeparators(b)
    ensures SingleSpaced(Trim(b)) && NoSeparators(Trim(b)) && IsTrimmed(Trim(b))
  {
    var t := TrimStart(b);
    var c := TrimEnd(t);
    assert t == b[|b| - |t|..|b|];
    assert c == t[0..|c|];
    SingleSpacedSlice(b, |b| - |t|, |b|);
    NoSeparatorsSlice(b, |b| - |t|, |b|);
    SingleSpacedSlice(t, 0, |c|);
    NoSeparatorsSlice(t, 0, |c|);
    TrimmedResult(b);
  }

  lemma ToLowerKeepsShape(c: string)
    requires SingleSpaced(c) && NoSeparators(c) && IsTrimmed(c)
    ensures IsNormalizedHeader(ToLower(c))
  {
  }

  /** Whatever the input, `normalizeHeader` yields a normalised header. */
  lemma NormalizeHeaderShape(header: string)
    ensures IsNormalizedHeader(NormalizeHeader(header))
  {
    var a := SeparatorsToSpaces(header);
    CollapseKeepsNoSeparators(a);
    TrimKeepsShape(CollapseSpaces(a));
    ToLowerKeepsShape(Trim(CollapseSpaces(a)));
  }

  lemma SeparatorsToSpacesFixed(s: string)
    requires forall i :: 0 <= i < |s| ==> s[i] != '_' && s[i] != '-'
    ensures SeparatorsToSpaces(s) == s
  {
  }

  /** In a single-spaced text a leading space stands alone. */
  lemma TrimStartOfSingleSpaced(s: string)
    requires SingleSpaced(s) && s != [] && IsSpace(s[0])
    ensures TrimStart(s) == s[1..]
  {
    if |s| > 1 {
      assert !IsSpace(s[1]);
      assert TrimStart(s[1..]) == s[1..];
    }
  }

  /** One step of collapsing a text whose tail is already collapsed. */
  lemma CollapseSpacesStep(s: string, t: string)
    requires s != [] && t == s[1..] && CollapseSpaces(t) == t
    requires IsSpace(s[0]) ==> s[0] == ' ' && TrimStart(s) == t
    ensures CollapseSpaces(s) == s
  {
    if IsSpace(s[0]) {
      assert CollapseSpaces(s) == [' '] + CollapseSpaces(TrimStart(s));
    } else {
      assert CollapseSpaces(s) == [s[0]] + CollapseSpaces(s[1..]);
    }
    assert s == [s[0]] + t;
  }

  lemma {:induction false} CollapseSpacesFixed(s: string)
    requires SingleSpaced(s)
    ensures CollapseSpaces(s) == s
    decreases |s|
  {
    if s != [] {
      SingleSpacedSlice(s, 1, |s|);
      CollapseSpacesFixed(s[1..]);
      if IsSpace(s[0]) {
        TrimStartOfSingleSpaced(s);
      }
      CollapseSpacesStep(s, s[1..]);
    }
  }

  lemma ToLowerFixed(s: string)
    requires forall i :: 0 <= i < |s| ==> !IsAsciiUpper(s[i])
    ensures ToLower(s) == s
  {
  }

  /** A normalised header is left unchanged by `normalizeHeader`. */
  lemma {:induction false} NormalizeHeaderFixedPoint(s: string)
    requires IsNormalizedHeader(s)
    ensures NormalizeHeader(s) == s
  {
    SeparatorsToSpacesFixed(s);
    CollapseSpacesFixed(s);
    TrimOfTrimmed(s);
    ToLowerFixed(s);
  }

  /** Normalising twice is normalising once. */
  lemma NormalizeHeaderIdempotent(header: string)
    ensures NormalizeHeader(NormalizeHeader(header)) == NormalizeHeader(header)
  {
    NormalizeHeaderShape(header);
    NormalizeHeaderFixedPoint(NormalizeHeader(header));
  }

  /** `HEADER_ALIAS_MAP[normalizeHeader(header)] ?? null`. */
  function MapHeader(header: string): Option<NormalizedKey>
  {
    Alias(NormalizeHeader(header))
  }

  /** A header and its normalised text are mapped alike. */
  lemma MapHeaderOfNormalized(header: string)
    ensures MapHeader(NormalizeHeader(header)) == MapHeader(header)
  {
    NormalizeHeaderIdempotent(header);
  }

  lemma DigitsAreNormalized(header: string)
    requires AllDigits(header)
    ensures IsNormalizedHeader(header)
  {
    assert forall i :: 0 <= i < |header| ==> !IsSpace(header[i]) && !IsAsciiUpper(header[i]);
  }

  /** Every alias starts with a letter. */
  lemma NoDigitAlias(text: string)
    requires AllDigits(text)
    ensures Alias(text) == None
  {
    assert text == [] || IsDigit(text[0]);
  }

  /** A header made of digits only (such as the integer-like keys that
      `Object.keys` lists first) maps to no field. */
  lemma DigitHeaderIsUnknown(header: string)
    requires AllDigits(header)
    ensures MapHeader(header) == None
  {
    DigitsAreNormalized(header);
    NormalizeHeaderFixedPoint(header);
    NoDigitAlias(header);
  }

  lemma TradeFieldsHaveAliases(key: NormalizedKey)
    requires key.Symbol? || key.Side? || key.Quantity? || key.EntryPrice? || key.ExitPrice? || key.StopLoss?
    ensures exists text :: Alias(text) == Some(key)
  {
    match key
    case Symbol => assert Alias("symbol") == Some(key);
    case Side => assert Alias("side") == Some(key);
    case Quantity => assert Alias("qty") == Some(key);
    case EntryPrice => assert Alias("entry price") == Some(key);
    case ExitPrice => assert Alias("exit price") == Some(key);
    case StopLoss => assert Alias("stop loss") == Some(key);
  }

  lemma OutcomeAndOpenFieldsHaveAliases(key: NormalizedKey)
    requires key.TakeProfit? || key.Fees? || key.ProfitLoss? || key.OpenedAt? || key.OpenedAtTime? || key.OpenedAtDate?
    ensures exists text :: Alias(text) == Some(key)
  {
    match key
    case TakeProfit => assert Alias("take profit") == Some(key);
    case Fees => assert Alias("fee") == Some(key);
    case ProfitLoss => assert Alias("pnl") == Some(key);
    case OpenedAt => assert Alias("open datetime") == Some(key);
    case OpenedAtTime => assert Alias("entry time") == Some(key);
    case OpenedAtDate => assert Alias("date") == Some(key);
  }

  lemma CloseAndTextFieldsHaveAliases(key: NormalizedKey)
    requires key.ClosedAt? || key.ClosedAtTime? || key.ClosedAtDate? || key.Notes? || key.StrategyTag? || key.ExternalId?
    ensures exists text :: Alias(text) == Some(key)
  {
    match key
    case ClosedAt => assert Alias("close datetime") == Some(key);
    case ClosedAtTime => assert Alias("exit time") == Some(key);
    case ClosedAtDate => assert Alias("exit date") == Some(key);
    case Notes => assert Alias("notes") == Some(key);
    case StrategyTag => assert Alias("tag") == Some(key);
    case ExternalId => assert Alias("id") == Some(key);
  }

  /** Every canonical field is the target of some alias. */
  lemma EveryKeyHasAnAlias(key: NormalizedKey)
    ensures exists text :: Alias(text) == Some(key)
  {
    if key.Symbol? || key.Side? || key.Quantity? || key.EntryPrice? || key.ExitPrice? || key.StopLoss? {
      TradeFieldsHaveAliases(key);
    } else if key.TakeProfit? || key.Fees? || key.ProfitLoss? || key.OpenedAt? || key.OpenedAtTime? || key.OpenedAtDate? {
      OutcomeAndOpenFieldsHaveAliases(key);
    } else {
      CloseAndTextFieldsHaveAliases(key);
    }
  }

  /** The file-wide `headerMapping` built by the first pass of
      `parseTradeCsv` over the headers of all rows in encounter order, for a
      header classifier (`MapHeader` in the importer): each distinct header
      is mapped once, by its text alone. */
  function HeaderMapping(headers: seq<string>, classify: string -> Option<NormalizedKey>): map<string, Option<NormalizedKey>>
  {
    if headers == [] then map[]
    else
      var h := headers[|headers| - 1];
      HeaderMapping(headers[..|headers| - 1], classify)[h := classify(h)]
  }

  /** `unknownHeaders`: the headers classified as null, each once, in the
      order in which they were first met. */
  function UnknownHeaders(headers: seq<string>, classify: string -> Option<NormalizedKey>): seq<string>
  {
    if headers == [] then []
    else
      var h := headers[|headers| - 1];
      var u0 := UnknownHeaders(headers[..|headers| - 1], classify);
      if classify(h).None? && h !in u0 then u0 + [h] else u0
  }

  /** Every header met is mapped, by its own text, and nothing else is. */
  lemma {:induction false} HeaderMappingMapsEachHeader(headers: seq<string>, classify: string -> Option<NormalizedKey>)
    ensures forall h :: h in HeaderMapping(headers, classify) <==> h in headers
    ensures forall h :: h in HeaderMapping(headers, classify) ==> HeaderMapping(headers, classify)[h] == classify(h)
  {
    if headers != [] {
      var prefix := headers[..|headers| - 1];
      HeaderMappingMapsEachHeader(prefix, classify);
      assert headers == prefix + [headers[|headers| - 1]];
    }
  }

  ghost predicate NoRepeats<T>(s: seq<T>)
  {
    forall i, j :: 0 <= i < j < |s| ==> s[i] != s[j]
  }

  /** The unknown headers are exactly the headers met that map to null,
      each listed once. */
  lemma {:induction false} UnknownHeadersAreTheUnmapped(headers: seq<string>, classify: string -> Option<NormalizedKey>)
    ensures forall h :: h in UnknownHeaders(headers, classify) <==> h in headers && classify(h).None?
    ensures NoRepeats(UnknownHeaders(headers, classify))
  {
    if headers != [] {
      var prefix := headers[..|headers| - 1];
      UnknownHeadersAreTheUnmapped(prefix, classify);
      var h := headers[|headers| - 1];
      assert headers == prefix + [h];
      var u0 := UnknownHeaders(prefix, classify);
      var u := UnknownHeaders(headers, classify);
      if classify(h).None? && h !in u0 {
        assert u == u0 + [h];
        forall i, j | 0 <= i < j < |u|
          ensures u[i] != u[j]
        {
          if j == |u0| {
            assert u[i] == u0[i];
            assert u[j] == h;
          } else {
            assert u[i] == u0[i] && u[j] == u0[j];
          }
        }
      } else {
        assert u == u0;
      }
    }
  }

  lemma HeaderMappingAppend(headers: seq<string>, h: string, classify: string -> Option<NormalizedKey>)
    ensures HeaderMapping(headers + [h], classify) == HeaderMapping(headers, classify)[h := classify(h)]
    ensures UnknownHeaders(headers + [h], classify) ==
      var u := UnknownHeaders(headers, classify);
      if classify(h).None? && h !in u then u + [h] else u
  {
    assert (headers + [h])[..|headers|] == headers;
  }

  /** The mapping depends on which headers occur, not on their order or
      repetition: shuffling the rows leaves it unchanged. */
  lemma MappingOrderIndependent(h1: seq<string>, h2: seq<string>)
    requires forall h :: h in h1 <==> h in h2
    ensures HeaderMapping(h1, MapHeader) == HeaderMapping(h2, MapHeader)
  {
    HeaderMappingMapsEachHeader(h1, MapHeader);
    HeaderMappingMapsEachHeader(h2, MapHeader);
  }
}
