// What `parseTradeCsv` guarantees, stated over the row-pass specification of
// module CsvImport: how the cells of a row fill the trade fields, and how the
// rows of a file split into trades, skips and warnings.
module CsvImportFacts {
  import opened JsText
  import opened JsPlatform
  import opened CsvHeaders
  import opened CsvCoerce
  import opened CsvImport

  /** Entry `j` of the row is a cell for field `k`. */
  predicate Feeds(row: Row, cfg: Config, j: int, k: NormalizedKey)
    requires 0 <= j < |row|
  {
    Target(cfg, row[j].0) == Some(k)
  }

  // ----- how one row fills the working record -----

  lemma AssignSymbol(w: Working, target: NormalizedKey, value: string, cfg: Config)
    ensures Assign(w, target, value, cfg).symbol == if target == Symbol then Some(Trim(value)) else w.symbol
  {
  }

  lemma SymbolStep(row: Row, cfg: Config)
    requires row != []
    ensures Populate(row, cfg).symbol ==
      if Feeds(row, cfg, |row| - 1, Symbol) then Some(Trim(row[|row| - 1].1))
      else Populate(row[..|row| - 1], cfg).symbol
  {
    var n := |row| - 1;
    match Target(cfg, row[n].0)
    case None =>
    case Some(target) => AssignSymbol(Populate(row[..n], cfg), target, row[n].1, cfg);
  }

  /** Entry `j` is the last cell for the symbol. */
  predicate LastSymbolAt(row: Row, cfg: Config, j: int)
  {
    0 <= j < |row| && Feeds(row, cfg, j, Symbol) &&
    forall i :: j < i < |row| ==> !Feeds(row, cfg, i, Symbol)
  }

  /** The symbol is the trimmed text of the last symbol cell, and absent
      when the row has none (later cells overwrite earlier ones). */
  lemma {:induction false} SymbolIsLastCell(row: Row, cfg: Config)
    ensures Populate(row, cfg).symbol.None? <==> forall j :: 0 <= j < |row| ==> !Feeds(row, cfg, j, Symbol)
    ensures forall j :: LastSymbolAt(row, cfg, j) ==> Populate(row, cfg).symbol == Some(Trim(row[j].1))
  {
    if row != [] {
      var n := |row| - 1;
      var prefix := row[..n];
      SymbolIsLastCell(prefix, cfg);
      SymbolStep(row, cfg);
      assert forall j :: 0 <= j < n ==> prefix[j] == row[j];
      assert forall j :: 0 <= j < n ==> Feeds(prefix, cfg, j, Symbol) == Feeds(row, cfg, j, Symbol);
      if !Feeds(row, cfg, n, Symbol) {
        forall j | LastSymbolAt(row, cfg, j)
          ensures Populate(row, cfg).symbol == Some(Trim(row[j].1))
        {
          assert LastSymbolAt(prefix, cfg, j);
        }
      } else {
        forall j | LastSymbolAt(row, cfg, j)
          ensures Populate(row, cfg).symbol == Some(Trim(row[j].1))
        {
          assert j == n;
        }
      }
    }
  }

  lemma AssignNumber(w: Working, target: NormalizedKey, value: string, cfg: Config, k: NormalizedKey)
    requires IsNumberKey(k)
    ensures var r := Assign(w, target, value, cfg);
      if k in w.numbers then k in r.numbers && r.numbers[k] == w.numbers[k]
      else if target == k && cfg.readNumber(value).Some? then
        k in r.numbers && r.numbers[k] == cfg.readNumber(value).value
      else k !in r.numbers
  {
  }

  lemma NumberStep(row: Row, cfg: Config, k: NormalizedKey)
    requires row != [] && IsNumberKey(k)
    ensures var w, n := Populate(row[..|row| - 1], cfg), |row| - 1;
      if k in w.numbers then k in Populate(row, cfg).numbers && Populate(row, cfg).numbers[k] == w.numbers[k]
      else if Feeds(row, cfg, n, k) && cfg.readNumber(row[n].1).Some? then
        k in Populate(row, cfg).numbers && Populate(row, cfg).numbers[k] == cfg.readNumber(row[n].1).value
      else k !in Populate(row, cfg).numbers
  {
    var n := |row| - 1;
    var w := Populate(row[..n], cfg);
    match Target(cfg, row[n].0)
    case None =>
    case Some(target) => AssignNumber(w, target, row[n].1, cfg, k);
  }

  /** Entry `j` is the first cell for number field `k` that reads as a
      number. */
  predicate FirstNumberAt(row: Row, cfg: Config, k: NormalizedKey, j: int)
  {
    0 <= j < |row| && Feeds(row, cfg, j, k) && cfg.readNumber(row[j].1).Some? &&
    forall i :: 0 <= i < j ==> !(Feeds(row, cfg, i, k) && cfg.readNumber(row[i].1).Some?)
  }

  /** Number field `k` is present exactly when one of its cells reads as a number. */
  lemma {:induction false} NumberPresent(row: Row, cfg: Config, k: NormalizedKey)
    requires IsNumberKey(k)
    ensures k in Populate(row, cfg).numbers <==>
      exists j :: 0 <= j < |row| && Feeds(row, cfg, j, k) && cfg.readNumber(row[j].1).Some?
  {
    if row != [] {
      var n := |row| - 1;
      var prefix := row[..n];
      NumberPresent(prefix, cfg, k);
      NumberStep(row, cfg, k);
      assert forall j :: 0 <= j < n ==> prefix[j] == row[j];
      assert forall j :: 0 <= j < n ==> Feeds(prefix, cfg, j, k) == Feeds(row, cfg, j, k);
    }
  }

  /** A number field takes the first of its cells that reads as a number
      (`??=` keeps the first defined value), and is absent when none does. */
  lemma {:induction false} NumberIsFirstReadable(row: Row, cfg: Config, k: NormalizedKey)
    requires IsNumberKey(k)
    ensures k in Populate(row, cfg).numbers <==>
      exists j :: 0 <= j < |row| && Feeds(row, cfg, j, k) && cfg.readNumber(row[j].1).Some?
    ensures forall j :: FirstNumberAt(row, cfg, k, j) ==>
      Populate(row, cfg).numbers[k] == cfg.readNumber(row[j].1).value
  {
    NumberPresent(row, cfg, k);
    if row != [] {
      var n := |row| - 1;
      var prefix := row[..n];
      NumberIsFirstReadable(prefix, cfg, k);
      NumberStep(row, cfg, k);
      assert forall j :: 0 <= j < n ==> prefix[j] == row[j];
      assert forall j :: 0 <= j < n ==> Feeds(prefix, cfg, j, k) == Feeds(row, cfg, j, k);
      forall j | FirstNumberAt(row, cfg, k, j)
        ensures Populate(row, cfg).numbers[k] == cfg.readNumber(row[j].1).value
      {
        if j < n {
          assert FirstNumberAt(prefix, cfg, k, j);
        } else {
          assert k !in Populate(prefix, cfg).numbers;
        }
      }
    }
  }

  lemma AssignDate(w: Working, target: NormalizedKey, value: string, cfg: Config, k: NormalizedKey)
    requires IsDateKey(k)
    ensures var r := Assign(w, target, value, cfg);
      if k in w.dates then k in r.dates && r.dates[k] == w.dates[k]
      else if target == k && cfg.readDate(value).Some? then
        k in r.dates && r.dates[k] == cfg.readDate(value).value
      else k !in r.dates
  {
  }

  lemma DateStep(row: Row, cfg: Config, k: NormalizedKey)
    requires row != [] && IsDateKey(k)
    ensures var w, n := Populate(row[..|row| - 1], cfg), |row| - 1;
      if k in w.dates then k in Populate(row, cfg).dates && Populate(row, cfg).dates[k] == w.dates[k]
      else if Feeds(row, cfg, n, k) && cfg.readDate(row[n].1).Some? then
        k in Populate(row, cfg).dates && Populate(row, cfg).dates[k] == cfg.readDate(row[n].1).value
      else k !in Populate(row, cfg).dates
  {
    var n := |row| - 1;
    var w := Populate(row[..n], cfg);
    match Target(cfg, row[n].0)
    case None =>
    case Some(target) => AssignDate(w, target, row[n].1, cfg, k);
  }

  /** Entry `j` is the first cell for date field `k` that reads as a date. */
  predicate FirstDateAt(row: Row, cfg: Config, k: NormalizedKey, j: int)
  {
    0 <= j < |row| && Feeds(row, cfg, j, k) && cfg.readDate(row[j].1).Some? &&
    forall i :: 0 <= i < j ==> !(Feeds(row, cfg, i, k) && cfg.readDate(row[i].1).Some?)
  }

  /** Date field `k` is present exactly when one of its cells reads as a date. */
  lemma {:induction false} DatePresent(row: Row, cfg: Config, k: NormalizedKey)
    requires IsDateKey(k)
    ensures k in Populate(row, cfg).dates <==>
      exists j :: 0 <= j < |row| && Feeds(row, cfg, j, k) && cfg.readDate(row[j].1).Some?
  {
    if row != [] {
      var n := |row| - 1;
      var prefix := row[..n];
      DatePresent(prefix, cfg, k);
      DateStep(row, cfg, k);
      assert forall j :: 0 <= j < n ==> prefix[j] == row[j];
      assert forall j :: 0 <= j < n ==> Feeds(prefix, cfg, j, k) == Feeds(row, cfg, j, k);
    }
  }

  /** A date field takes the first of its cells that reads as a date, and is
      absent when none does. */
  lemma {:induction false} DateIsFirstReadable(row: Row, cfg: Config, k: NormalizedKey)
    requires IsDateKey(k)
    ensures k in Populate(row, cfg).dates <==>
      exists j :: 0 <= j < |row| && Feeds(row, cfg, j, k) && cfg.readDate(row[j].1).Some?
    ensures forall j :: FirstDateAt(row, cfg, k, j) ==>
      Populate(row, cfg).dates[k] == cfg.readDate(row[j].1).value
  {
    DatePresent(row, cfg, k);
    if row != [] {
      var n := |row| - 1;
      var prefix := row[..n];
      DateIsFirstReadable(prefix, cfg, k);
      DateStep(row, cfg, k);
      assert forall j :: 0 <= j < n ==> prefix[j] == row[j];
      assert forall j :: 0 <= j < n ==> Feeds(prefix, cfg, j, k) == Feeds(row, cfg, j, k);
      forall j | FirstDateAt(row, cfg, k, j)
        ensures Populate(row, cfg).dates[k] == cfg.readDate(row[j].1).value
      {
        if j < n {
          assert FirstDateAt(prefix, cfg, k, j);
        } else {
          assert k !in Populate(prefix, cfg).dates;
        }
      }
    }
  }

  lemma AssignText(w: Working, target: NormalizedKey, value: string, cfg: Config, k: NormalizedKey)
    requires IsTextKey(k)
    ensures var r := Assign(w, target, value, cfg);
      if k in w.texts then k in r.texts && r.texts[k] == w.texts[k]
      else if target == k then k in r.texts && r.texts[k] == value
      else k !in r.texts
  {
  }

  lemma TextStep(row: Row, cfg: Config, k: NormalizedKey)
    requires row != [] && IsTextKey(k)
    ensures var w, n := Populate(row[..|row| - 1], cfg), |row| - 1;
      if k in w.texts then k in Populate(row, cfg).texts && Populate(row, cfg).texts[k] == w.texts[k]
      else if Feeds(row, cfg, n, k) then
        k in Populate(row, cfg).texts && Populate(row, cfg).texts[k] == row[n].1
      else k !in Populate(row, cfg).texts
  {
    var n := |row| - 1;
    var w := Populate(row[..n], cfg);
    match Target(cfg, row[n].0)
    case None =>
    case Some(target) => AssignText(w, target, row[n].1, cfg, k);
  }

  /** Entry `j` is the first cell for text field `k`. */
  predicate FirstCellAt(row: Row, cfg: Config, k: NormalizedKey, j: int)
  {
    0 <= j < |row| && Feeds(row, cfg, j, k) && forall i :: 0 <= i < j ==> !Feeds(row, cfg, i, k)
  }

  /** A text field (notes, tag, external ID, date and time parts) takes its
      first cell as it stands, even an empty one. */
  lemma {:induction false} TextIsFirstCell(row: Row, cfg: Config, k: NormalizedKey)
    requires IsTextKey(k)
    ensures k in Populate(row, cfg).texts <==> exists j :: 0 <= j < |row| && Feeds(row, cfg, j, k)
    ensures forall j :: FirstCellAt(row, cfg, k, j) ==> Populate(row, cfg).texts[k] == row[j].1
  {
    if row != [] {
      var n := |row| - 1;
      var prefix := row[..n];
      TextIsFirstCell(prefix, cfg, k);
      TextStep(row, cfg, k);
      assert forall j :: 0 <= j < n ==> prefix[j] == row[j];
      assert forall j :: 0 <= j < n ==> Feeds(prefix, cfg, j, k) == Feeds(row, cfg, j, k);
      forall j | FirstCellAt(row, cfg, k, j)
        ensures Populate(row, cfg).texts[k] == row[j].1
      {
        if j < n {
          assert FirstCellAt(prefix, cfg, k, j);
        } else {
          assert k !in Populate(prefix, cfg).texts;
        }
      }
    }
  }

  lemma AssignSide(w: Working, target: NormalizedKey, value: string, cfg: Config)
    ensures Assign(w, target, value, cfg).side ==
      if w.side.Some? || !target.Side? then w.side else cfg.readSide(value)
  {
  }

  lemma SideStep(row: Row, cfg: Config)
    requires row != []
    ensures var w, n := Populate(row[..|row| - 1], cfg), |row| - 1;
      Populate(row, cfg).side ==
        if w.side.Some? || !Feeds(row, cfg, n, Side) then w.side else cfg.readSide(row[n].1)
  {
    var n := |row| - 1;
    var w := Populate(row[..n], cfg);
    match Target(cfg, row[n].0)
    case None =>
    case Some(target) => AssignSide(w, target, row[n].1, cfg);
  }

  /** Entry `j` is the first side cell that reads as a side. */
  predicate FirstSideAt(row: Row, cfg: Config, j: int)
  {
    0 <= j < |row| && Feeds(row, cfg, j, Side) && cfg.readSide(row[j].1).Some? &&
    forall i :: 0 <= i < j ==> !(Feeds(row, cfg, i, Side) && cfg.readSide(row[i].1).Some?)
  }

  /** The side is read from the first side cell that names one. */
  lemma {:induction false} SideIsFirstReadable(row: Row, cfg: Config)
    ensures Populate(row, cfg).side.Some? <==>
      exists j :: 0 <= j < |row| && Feeds(row, cfg, j, Side) && cfg.readSide(row[j].1).Some?
    ensures forall j :: FirstSideAt(row, cfg, j) ==> Populate(row, cfg).side == cfg.readSide(row[j].1)
  {
    if row != [] {
      var n := |row| - 1;
      var prefix := row[..n];
      SideIsFirstReadable(prefix, cfg);
      SideStep(row, cfg);
      assert forall j :: 0 <= j < n ==> prefix[j] == row[j];
      assert forall j :: 0 <= j < n ==> Feeds(prefix, cfg, j, Side) == Feeds(row, cfg, j, Side);
      forall j | FirstSideAt(row, cfg, j)
        ensures Populate(row, cfg).side == cfg.readSide(row[j].1)
      {
        if j < n {
          assert FirstSideAt(prefix, cfg, j);
        }
      }
    }
  }
}
