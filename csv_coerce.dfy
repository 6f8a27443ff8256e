// Cell coercions of the CSV importer (src/lib/imports/csv.ts): numbers with a
// chosen decimal separator, trade sides from free text, and dates, either
// from one cell or from a date cell and a time cell.
module CsvCoerce {
  import opened JsText
  import opened JsPlatform
  import opened JsNumber

  datatype DecimalSeparator = Dot | Comma

  datatype TradeSide = Long | Short

  predicate IsCurrency(c: char)
  {
    c == '$' || c == '£' || c == '€' || c == '¥'
  }

  /** `s.replace(/[$£€¥]/g, "")` */
  function RemoveCurrency(s: string): (r: string)
    ensures forall i :: 0 <= i < |r| ==> !IsCurrency(r[i])
    ensures forall i :: 0 <= i < |r| ==> r[i] in s
  {
    if s == [] then []
    else if IsCurrency(s[0]) then RemoveCurrency(s[1..])
    else [s[0]] + RemoveCurrency(s[1..])
  }

  /** `s.replace(/<c>/g, "")` for one character. */
  function RemoveChar(s: string, c: char): (r: string)
    ensures forall i :: 0 <= i < |r| ==> r[i] != c
    ensures forall i :: 0 <= i < |r| ==> r[i] in s
  {
    if s == [] then []
    else if s[0] == c then RemoveChar(s[1..], c)
    else [s[0]] + RemoveChar(s[1..], c)
  }

  /** Removing currency signs from a concatenation removes them from each part. */
  lemma {:induction false} RemoveCurrencyAppend(a: string, b: string)
    ensures RemoveCurrency(a + b) == RemoveCurrency(a) + RemoveCurrency(b)
  {
    if a != [] {
      assert (a + b)[0] == a[0];
      assert (a + b)[1..] == a[1..] + b;
      RemoveCurrencyAppend(a[1..], b);
      if !(IsCurrency(a[0])) {
        AppendAssociative([a[0]], RemoveCurrency(a[1..]), RemoveCurrency(b));
      }
    } else {
      assert a + b == b;
    }
  }

  /** Text without a currency sign is left as it is. */
  lemma {:induction false} RemoveCurrencyOfFree(s: string)
    requires forall i :: 0 <= i < |s| ==> !IsCurrency(s[i])
    ensures RemoveCurrency(s) == s
  {
    if s != [] {
      RemoveCurrencyOfFree(s[1..]);
      assert s == [s[0]] + s[1..];
    }
  }

  /** Removing a character from a concatenation removes it from each part. */
  lemma {:induction false} RemoveCharAppend(a: string, b: string, c: char)
    ensures RemoveChar(a + b, c) == RemoveChar(a, c) + RemoveChar(b, c)
  {
    if a != [] {
      assert (a + b)[0] == a[0];
      assert (a + b)[1..] == a[1..] + b;
      RemoveCharAppend(a[1..], b, c);
      if !(a[0] == c) {
        AppendAssociative([a[0]], RemoveChar(a[1..], c), RemoveChar(b, c));
      }
    } else {
      assert a + b == b;
    }
  }

  /** Text without the character is left as it is. */
  lemma {:induction false} RemoveCharOfFree(s: string, c: char)
    requires forall i :: 0 <= i < |s| ==> s[i] != c
    ensures RemoveChar(s, c) == s
  {
    if s != [] {
      RemoveCharOfFree(s[1..], c);
      assert s == [s[0]] + s[1..];
    }
  }

  /** `s.replace(/<c>/g, d)` for one character. */
  function ReplaceChar(s: string, c: char, d: char): (r: string)
    ensures |r| == |s|
    ensures forall i :: 0 <= i < |r| ==> r[i] == if s[i] == c then d else s[i]
  {
    if s == [] then [] else [if s[0] == c then d else s[0]] + ReplaceChar(s[1..], c, d)
  }

  /** The text `toNumber` hands to `parseFloat`: trimmed, white space and
      currency signs removed, the grouping separator removed and the decimal
      separator turned into `.`. */
  function CleanNumber(v: string, sep: DecimalSeparator): string
  {
    var bare := RemoveCurrency(RemoveSpaces(Trim(v)));
    match sep
    case Comma => ReplaceChar(RemoveChar(bare, '.'), ',', '.')
    case Dot => ReplaceChar(RemoveChar(bare, ','), '.', '.')
  }

  /** `toNumber(value, decimalSeparator)`: None for an empty cell and for
      text that does not read as a finite number. */
  function ToNumber(v: string, sep: DecimalSeparator): Option<real>
  {
    if v == "" then None else ParseFloat(CleanNumber(v, sep))
  }

  /** The cleaned text has no white space, no currency sign and no comma,
      whichever separator is chosen. */
  lemma CleanNumberShape(v: string, sep: DecimalSeparator)
    ensures forall i :: 0 <= i < |CleanNumber(v, sep)| ==>
      var c := CleanNumber(v, sep)[i]; !IsSpace(c) && !IsCurrency(c) && c != ','
  {
    var a := RemoveSpaces(Trim(v));
    var bare := RemoveCurrency(a);
    assert forall i :: 0 <= i < |bare| ==> !IsSpace(bare[i]) by {
      forall i | 0 <= i < |bare|
        ensures !IsSpace(bare[i])
      {
        assert bare[i] in a;
      }
    }
    var g := RemoveChar(bare, if sep == Comma then '.' else ',');
    forall i | 0 <= i < |g|
      ensures !IsSpace(g[i]) && !IsCurrency(g[i])
    {
      assert g[i] in bare;
    }
  }

  /** `1.234,56` under the comma convention is `1,234.56` under the dot one:
      the two settings differ only in which character plays which role. */
  lemma CommaIsSwappedDot(v: string)
    ensures CleanNumber(v, Comma) == CleanNumber(SwapSeparators(v), Dot)
  {
    SwapCommutesWithTrim(v);
    SwapCommutesWithCleaning(Trim(v));
    SwapThenDot(RemoveCurrency(RemoveSpaces(Trim(v))));
  }

  /** Exchanges `.` and `,`. */
  function SwapSeparators(s: string): (r: string)
    ensures |r| == |s|
    ensures forall i :: 0 <= i < |r| ==> r[i] == SwapChar(s[i])
  {
    if s == [] then [] else [SwapChar(s[0])] + SwapSeparators(s[1..])
  }

  function SwapChar(c: char): (d: char)
    ensures IsSpace(d) <==> IsSpace(c)
    ensures IsCurrency(d) <==> IsCurrency(c)
  {
    if c == '.' then ',' else if c == ',' then '.' else c
  }

  lemma SwapCommutesWithTrim(v: string)
    ensures Trim(SwapSeparators(v)) == SwapSeparators(Trim(v))
  {
    var w := SwapSeparators(v);
    SwapCommutesWithTrimStart(v);
    SwapCommutesWithTrimEnd(TrimStart(v));
  }

  lemma {:induction false} SwapCommutesWithTrimStart(v: string)
    ensures TrimStart(SwapSeparators(v)) == SwapSeparators(TrimStart(v))
  {
    if v != [] {
      var w := SwapSeparators(v);
      assert w[1..] == SwapSeparators(v[1..]);
      if IsSpace(v[0]) {
        assert IsSpace(w[0]);
        SwapCommutesWithTrimStart(v[1..]);
        assert TrimStart(w) == TrimStart(w[1..]);
      } else {
        assert !IsSpace(w[0]);
      }
    }
  }

  lemma {:induction false} SwapCommutesWithTrimEnd(v: string)
    ensures TrimEnd(SwapSeparators(v)) == SwapSeparators(TrimEnd(v))
  {
    if v != [] {
      var n := |v| - 1;
      var w := SwapSeparators(v);
      SwapPrefix(v, n);
      if IsSpace(v[n]) {
        SwapCommutesWithTrimEnd(v[..n]);
        TrimEndDropsSpace(w);
      }
    }
  }

  lemma SwapPrefix(v: string, n: nat)
    requires n <= |v|
    ensures SwapSeparators(v)[..n] == SwapSeparators(v[..n])
  {
  }

  lemma TrimEndDropsSpace(s: string)
    requires s != [] && IsSpace(s[|s| - 1])
    ensures TrimEnd(s) == TrimEnd(s[..|s| - 1])
  {
  }

  lemma {:induction false} SwapCommutesWithCleaning(v: string)
    ensures RemoveCurrency(RemoveSpaces(SwapSeparators(v)))
         == SwapSeparators(RemoveCurrency(RemoveSpaces(v)))
  {
    if v != [] {
      assert SwapSeparators(v)[1..] == SwapSeparators(v[1..]);
      SwapCommutesWithCleaning(v[1..]);
    }
  }

  lemma {:induction false} SwapThenDot(b: string)
    ensures ReplaceChar(RemoveChar(b, '.'), ',', '.')
         == ReplaceChar(RemoveChar(SwapSeparators(b), ','), '.', '.')
  {
    if b != [] {
      assert SwapSeparators(b)[1..] == SwapSeparators(b[1..]);
      SwapThenDot(b[1..]);
    }
  }

  /** A whole number written with digits only is read as itself under
      either separator. */
  lemma ToNumberOfNat(n: nat, sep: DecimalSeparator)
    ensures ToNumber(NatToString(n), sep) == Some(n as real)
  {
    var d := NatToString(n);
    DigitsAreKept(d, sep);
    ParseFloatOfNat(n);
  }

  /** Replacing a character by itself changes nothing. */
  lemma ReplaceCharSame(s: string, c: char)
    ensures ReplaceChar(s, c, c) == s
  {
  }

  /** The one comma between two runs of digits becomes a point. */
  lemma ReplaceCommaBetween(x: string, y: string)
    requires AllDigits(x) && AllDigits(y)
    ensures ReplaceChar(x + "," + y, ',', '.') == x + "." + y
  {
    var r := ReplaceChar(x + "," + y, ',', '.');
    forall i | 0 <= i < |r|
      ensures r[i] == (x + "." + y)[i]
    {
      if i < |x| {
        assert (x + "," + y)[i] == x[i];
      } else if i > |x| {
        assert (x + "," + y)[i] == y[i - |x| - 1];
      }
    }
  }

  /** Text made of digits and the two separators only. */
  predicate NumberChars(s: string)
  {
    forall i :: 0 <= i < |s| ==> IsDigit(s[i]) || s[i] == '.' || s[i] == ','
  }

  lemma NumberCharsAppend(x: string, y: string)
    requires NumberChars(x) && NumberChars(y)
    ensures NumberChars(x + y)
  {
    assert forall i :: 0 <= i < |x + y| ==> (x + y)[i] == if i < |x| then x[i] else y[i - |x|];
  }

  lemma NumberCharsAreBare(s: string)
    requires NumberChars(s)
    ensures forall i :: 0 <= i < |s| ==> !IsSpace(s[i])
    ensures forall i :: 0 <= i < |s| ==> !IsCurrency(s[i])
  {
  }

  /** A grouped number `a.b,c` (digits around a point and a comma) has
      nothing to trim and no white space or currency sign to remove. */
  lemma GroupedIsBare(a: string, b: string, c: string, v: string)
    requires AllDigits(a) && AllDigits(b) && AllDigits(c) && a != [] && c != []
    requires v == a + "." + b + "," + c
    ensures RemoveCurrency(RemoveSpaces(Trim(v))) == v
  {
    NumberCharsAppend(a, ".");
    NumberCharsAppend(a + ".", b);
    NumberCharsAppend(a + "." + b, ",");
    NumberCharsAppend(a + "." + b + ",", c);
    assert v[0] == a[0] && v[|v| - 1] == c[|c| - 1];
    NumberCharsAreBare(v);
    TrimOfTrimmed(v);
    RemoveSpacesOfFree(v);
    RemoveCurrencyOfFree(v);
  }

  /** Removing `c` from `x`, the one-character separator `c` and a tail
      without `c` drops the separator. */
  lemma RemoveCharDropsSeparator(x: string, d: string, y: string, c: char)
    requires d == [c]
    requires forall i :: 0 <= i < |y| ==> y[i] != c
    ensures RemoveChar(x + d + y, c) == RemoveChar(x, c) + y
  {
    RemoveCharAppend(x + d, y, c);
    RemoveCharAppend(x, d, c);
    RemoveCharOfFree(y, c);
    assert RemoveChar(d, c) == [];
    assert RemoveChar(x, c) + [] == RemoveChar(x, c);
  }

  /** Removing `c` from `x`, another one-character separator `d` and a
      tail without `c` keeps the separator. */
  lemma RemoveCharKeepsSeparator(x: string, d: string, y: string, c: char)
    requires |d| == 1 && d[0] != c
    requires forall i :: 0 <= i < |y| ==> y[i] != c
    ensures RemoveChar(x + d + y, c) == RemoveChar(x, c) + d + y
  {
    RemoveCharAppend(x + d, y, c);
    RemoveCharAppend(x, d, c);
    RemoveCharOfFree(y, c);
    assert RemoveChar(d, c) == d;
  }

  lemma AppendAssociative(x: string, y: string, z: string)
    ensures x + y + z == x + (y + z)
  {
  }

  /** Dropping the point of `a.b,c`. */
  lemma PointRemoved(a: string, b: string, c: string)
    requires AllDigits(a) && AllDigits(b) && AllDigits(c)
    ensures RemoveChar(a + "." + b + "," + c, '.') == a + b + "," + c
  {
    RemoveCharKeepsSeparator(a + "." + b, ",", c, '.');
    RemoveCharDropsSeparator(a, ".", b, '.');
    RemoveCharOfFree(a, '.');
  }

  /** Dropping the comma of `a.b,c`. */
  lemma CommaRemoved(a: string, b: string, c: string)
    requires AllDigits(a) && AllDigits(b) && AllDigits(c)
    ensures RemoveChar(a + "." + b + "," + c, ',') == a + "." + (b + c)
  {
    RemoveCharDropsSeparator(a + "." + b, ",", c, ',');
    RemoveCharKeepsSeparator(a, ".", b, ',');
    RemoveCharOfFree(a, ',');
    AppendAssociative(a + ".", b, c);
  }

  /** Two runs of digits make one. */
  lemma AllDigitsAppend(x: string, y: string)
    requires AllDigits(x) && AllDigits(y)
    ensures AllDigits(x + y)
  {
    assert forall i :: 0 <= i < |x + y| ==> (x + y)[i] == if i < |x| then x[i] else y[i - |x|];
  }

  /** A number grouped as `a.b,c` cleans to `ab.c` under the comma
      convention: the point groups digits and the comma is the decimal
      separator. */
  lemma CleanGroupedComma(a: string, b: string, c: string)
    requires AllDigits(a) && AllDigits(b) && AllDigits(c) && a != [] && c != []
    ensures CleanNumber(a + "." + b + "," + c, Comma) == (a + b) + "." + c
  {
    GroupedIsBare(a, b, c, a + "." + b + "," + c);
    PointRemoved(a, b, c);
    AllDigitsAppend(a, b);
    ReplaceCommaBetween(a + b, c);
  }

  /** A number grouped as `a.b,c` cleans to `a.bc` under the dot
      convention: the comma groups digits and is dropped. */
  lemma CleanGroupedDot(a: string, b: string, c: string)
    requires AllDigits(a) && AllDigits(b) && AllDigits(c) && a != [] && c != []
    ensures CleanNumber(a + "." + b + "," + c, Dot) == a + "." + (b + c)
  {
    GroupedIsBare(a, b, c, a + "." + b + "," + c);
    CommaRemoved(a, b, c);
    ReplaceCharSame(a + "." + (b + c), '.');
  }

  lemma GroupedText()
    ensures "1" + "." + "234" + "," + "56" == "1.234,56"
  {
  }

  lemma CommaCleanedText()
    ensures ("1" + "234") + "." + "56" == "1234.56"
    ensures "1234" + "." + "56" + "" == "1234.56"
  {
  }

  lemma DotCleanedText()
    ensures "1" + "." + ("234" + "56") == "1.23456"
    ensures "1" + "." + "23456" + "" == "1.23456"
  {
  }

  /** `1.234,56` cleans to `1234.56` under the comma convention. */
  lemma GroupedExampleCleansComma()
    ensures CleanNumber("1.234,56", Comma) == "1234.56"
  {
    CleanGroupedComma("1", "234", "56");
    GroupedText();
    CommaCleanedText();
  }

  /** `1.234,56` cleans to `1.23456` under the dot convention. */
  lemma GroupedExampleCleansDot()
    ensures CleanNumber("1.234,56", Dot) == "1.23456"
  {
    CleanGroupedDot("1", "234", "56");
    GroupedText();
    DotCleanedText();
  }

  /** `1234.56` reads as the literal with whole part 1234 and fraction 56
      over two digits. */
  lemma DecimalExampleCommaReads()
    ensures ParseFloat("1234.56") == Some(LiteralValue(Literal(DigitsValue("1234"), DigitsValue("56"), |"56"|, 0)))
  {
    ParseFloatDecimal("1234", "56", "");
    CommaCleanedText();
  }

  /** That literal is 1234 + 56/100. */
  lemma DecimalExampleCommaValue()
    ensures Some(LiteralValue(Literal(DigitsValue("1234"), DigitsValue("56"), |"56"|, 0))) == Some(1234.56)
  {
    assert NatToString(1234) == "1234" && NatToString(56) == "56";
    NatToStringRoundTrip(1234);
    NatToStringRoundTrip(56);
    LiteralValueFraction(1234, 56, 2);
  }

  /** `1.23456` reads as the literal with whole part 1 and fraction 23456
      over five digits. */
  lemma DecimalExampleDotReads()
    ensures ParseFloat("1.23456") == Some(LiteralValue(Literal(DigitsValue("1"), DigitsValue("23456"), |"23456"|, 0)))
  {
    ParseFloatDecimal("1", "23456", "");
    DotCleanedText();
  }

  /** That literal is 1 + 23456/100000. */
  lemma DecimalExampleDotValue()
    ensures Some(LiteralValue(Literal(DigitsValue("1"), DigitsValue("23456"), |"23456"|, 0))) == Some(1.23456)
  {
    assert NatToString(1) == "1" && NatToString(23456) == "23456";
    NatToStringRoundTrip(1);
    NatToStringRoundTrip(23456);
    LiteralValueFraction(1, 23456, 5);
  }

  /** `1.234,56` reads as 1234.56 under the comma convention, where the
      point groups thousands and is dropped, and as 1.23456 under the dot
      convention, where the comma is the one dropped. */
  lemma ToNumberGroupedExample()
    ensures ToNumber("1.234,56", Comma) == Some(1234.56)
    ensures ToNumber("1.234,56", Dot) == Some(1.23456)
  {
    GroupedExampleCleansComma();
    GroupedExampleCleansDot();
    DecimalExampleCommaReads();
    DecimalExampleCommaValue();
    DecimalExampleDotReads();
    DecimalExampleDotValue();
  }

  lemma DigitsAreKept(d: string, sep: DecimalSeparator)
    requires forall i :: 0 <= i < |d| ==> IsDigit(d[i])
    ensures CleanNumber(d, sep) == d
  {
    assert Trim(d) == d by {
      if d != [] {
        assert !IsSpace(d[0]) && !IsSpace(d[|d| - 1]);
      }
    }
    DigitsKeptByFilters(d);
  }

  lemma DigitsKeptByFilters(d: string)
    requires forall i :: 0 <= i < |d| ==> IsDigit(d[i])
    ensures RemoveCurrency(RemoveSpaces(d)) == d
    ensures ReplaceChar(RemoveChar(d, '.'), ',', '.') == d
    ensures ReplaceChar(RemoveChar(d, ','), '.', '.') == d
  {
    RemoveSpacesOfFree(d);
    RemoveCurrencyOfFree(d);
    RemoveCharOfFree(d, '.');
    RemoveCharOfFree(d, ',');
  }

  /** The words `toSide` accepts as they stand. */
  const LongWords: seq<string> := ["buy", "long", "bought", "call"]
  const ShortWords: seq<string> := ["sell", "short", "sold", "put"]

  /** `toSide(value)`: exact words first, then the substrings `long`,
      `short`, `buy`, `sell`, in that order, of the trimmed lower-cased cell. */
  function ToSide(v: string): Option<TradeSide>
  {
    if v == "" then None else SideOf(ToLower(Trim(v)))
  }

  function SideOf(raw: string): Option<TradeSide>
  {
    if raw in LongWords then Some(Long)
    else if raw in ShortWords then Some(Short)
    else if Contains(raw, "long") then Some(Long)
    else if Contains(raw, "short") then Some(Short)
    else if Contains(raw, "buy") then Some(Long)
    else if Contains(raw, "sell") then Some(Short)
    else None
  }

  lemma ContainsItself(s: string)
    ensures Contains(s, s)
  {
    assert OccursAt(s, s, 0);
  }

  lemma Mismatch(s: string, sub: string, i: nat, k: nat)
    requires k < |sub| && (i + |sub| <= |s| ==> s[i + k] != sub[k])
    ensures !OccursAt(s, sub, i)
  {
    if i + |sub| <= |s| {
      assert s[i..i + |sub|][k] == s[i + k];
    }
  }

  /** The exact-word lists matter only for `bought`, `call`, `sold` and
      `put`: a normalised cell is read as LONG exactly when it is one of the
      first two, or, not being one of the last two, mentions `long`, or
      mentions `buy` but not `short`. */
  lemma SideLongIff(raw: string)
    ensures SideOf(raw) == Some(Long) <==>
      raw == "bought" || raw == "call" ||
      (raw != "sold" && raw != "put" &&
        (Contains(raw, "long") || (!Contains(raw, "short") && Contains(raw, "buy"))))
  {
    if raw == "buy" {
      ContainsItself(raw);
      assert !Contains(raw, "short");
    } else if raw == "long" {
      ContainsItself(raw);
    } else if raw == "sell" {
      Mismatch(raw, "long", 0, 0);
      Mismatch(raw, "buy", 0, 0);
      Mismatch(raw, "buy", 1, 0);
    } else if raw == "short" {
      ContainsItself(raw);
      Mismatch(raw, "long", 0, 0);
      Mismatch(raw, "long", 1, 0);
    }
  }

  /** A normalised cell is left without a side exactly when it mentions
      none of `long`, `short`, `buy`, `sell` and is none of `bought`,
      `call`, `sold`, `put`. */
  lemma SideNoneIff(raw: string)
    ensures SideOf(raw) == None <==>
      raw != "bought" && raw != "call" && raw != "sold" && raw != "put" &&
      !Contains(raw, "long") && !Contains(raw, "short") &&
      !Contains(raw, "buy") && !Contains(raw, "sell")
  {
    if raw in LongWords || raw in ShortWords {
      if raw == "buy" || raw == "long" || raw == "sell" || raw == "short" {
        ContainsItself(raw);
      }
    }
  }

  /** Surrounding white space and letter case do not change the side. */
  lemma ToSideNormalizes(v: string)
    requires Trim(v) != ""
    ensures ToSide(ToLower(Trim(v))) == ToSide(v)
  {
    var t := Trim(v);
    TrimmedResult(v);
    LowerKeepsTrimmed(t);
    TrimOfTrimmed(ToLower(t));
    ToLowerIdempotent(t);
    assert v != "";
  }

  lemma LowerKeepsTrimmed(t: string)
    requires IsTrimmed(t)
    ensures IsTrimmed(ToLower(t))
  {
  }

  lemma ToLowerIdempotent(s: string)
    ensures ToLower(ToLower(s)) == ToLower(s)
  {
  }

  /** The date-fns formats tried, in order, when `new Date(text)` fails
      (`DATE_FORMAT_GUESSES`). */
  const DateFormats: seq<string> := [
    "yyyy-MM-dd HH:mm:ss",
    "yyyy-MM-dd HH:mm",
    "yyyy-MM-dd'T'HH:mm:ssXXX",
    "yyyy-MM-dd",
    "MM/dd/yyyy HH:mm:ss",
    "MM/dd/yyyy HH:mm",
    "MM/dd/yyyy",
    "dd/MM/yyyy HH:mm:ss",
    "dd/MM/yyyy HH:mm",
    "dd/MM/yyyy",
    "dd.MM.yyyy HH:mm:ss",
    "dd.MM.yyyy HH:mm",
    "dd.MM.yyyy",
    "yyyy/MM/dd HH:mm:ss",
    "yyyy/MM/dd HH:mm",
    "yyyy/MM/dd"
  ]

  /** Format `i` is the first under which `text` parses, to `t`. */
  predicate FirstValidAt(text: string, formats: seq<string>, eng: Engine, i: nat, t: Instant)
    requires i < |formats|
  {
    eng.parseWithFormat(text, formats[i]) == ValidDate(t) &&
    forall j :: 0 <= j < i ==> eng.parseWithFormat(text, formats[j]).InvalidDate?
  }

  /** The instant of the first format under which the text parses. */
  function FirstFormat(text: string, formats: seq<string>, eng: Engine): Option<Instant>
  {
    if formats == [] then None
    else
      match eng.parseWithFormat(text, formats[0])
      case ValidDate(t) => Some(t)
      case InvalidDate => FirstFormat(text, formats[1..], eng)
  }

  /** The formats are tried in order and the first that succeeds decides;
      there is no result only when none succeeds. */
  lemma {:induction false} FirstFormatIsFirst(text: string, formats: seq<string>, eng: Engine)
    ensures FirstFormat(text, formats, eng).None? <==>
      forall i :: 0 <= i < |formats| ==> eng.parseWithFormat(text, formats[i]).InvalidDate?
    ensures FirstFormat(text, formats, eng).Some? ==>
      exists i :: 0 <= i < |formats| && FirstValidAt(text, formats, eng, i, FirstFormat(text, formats, eng).value)
  {
    if formats != [] {
      match eng.parseWithFormat(text, formats[0])
      case ValidDate(t) =>
        assert FirstValidAt(text, formats, eng, 0, t);
      case InvalidDate =>
        FirstFormatIsFirst(text, formats[1..], eng);
        assert forall i :: 1 <= i < |formats| ==> formats[i] == formats[1..][i - 1];
        var r := FirstFormat(text, formats, eng);
        if r.Some? {
          var i :| 0 <= i < |formats| - 1 && FirstValidAt(text, formats[1..], eng, i, r.value);
          assert FirstValidAt(text, formats, eng, i + 1, r.value);
        }
    }
  }

  /** `toDate(value)`: the trimmed text through `new Date`, else through the
      format list; None for a blank cell. */
  function ToDate(v: string, eng: Engine): Option<Instant>
  {
    if v == "" then None
    else
      var trimmed := Trim(v);
      if trimmed == "" then None
      else
        match eng.newDate(trimmed)
        case ValidDate(t) => Some(t)
        case InvalidDate => FirstFormat(trimmed, DateFormats, eng)
  }

  /** Only the trimmed text matters, and blank text has no date. */
  lemma ToDateOfTrim(v: string, eng: Engine)
    ensures ToDate(Trim(v), eng) == ToDate(v, eng)
    ensures Trim(v) == "" ==> ToDate(v, eng).None?
  {
    TrimIdempotent(v);
  }

  /** When `new Date` cannot read the text, the first listed format that
      reads it decides, and there is no date only when no format reads it. */
  lemma ToDateFallsBack(v: string, eng: Engine)
    requires Trim(v) != "" && eng.newDate(Trim(v)).InvalidDate?
    ensures ToDate(v, eng).None? <==>
      forall i :: 0 <= i < |DateFormats| ==> eng.parseWithFormat(Trim(v), DateFormats[i]).InvalidDate?
    ensures ToDate(v, eng).Some? ==>
      exists i :: 0 <= i < |DateFormats| && FirstValidAt(Trim(v), DateFormats, eng, i, ToDate(v, eng).value)
  {
    FirstFormatIsFirst(Trim(v), DateFormats, eng);
  }

  /** `combineDateParts(explicit, datePart, timePart)`. */
  function CombineDateParts(explicit: Option<Instant>, datePart: Option<string>,
                            timePart: Option<string>, eng: Engine): Option<Instant>
  {
    if explicit.Some? then explicit
    else if !Truthy(datePart) && !Truthy(timePart) then None
    else
      var combined := Trim(Join([datePart.GetOr(""), timePart.GetOr("")], " "));
      ToDate(if combined != "" then combined
             else if Truthy(datePart) then datePart.value
             else timePart.value, eng)
  }

  /** Without an explicit date, the parts are read as the one text
      `<date> <time>`; the fallbacks to a single part only ever see blank
      text. */
  lemma CombineReadsDateThenTime(datePart: Option<string>, timePart: Option<string>, eng: Engine)
    requires Truthy(datePart) || Truthy(timePart)
    ensures CombineDateParts(None, datePart, timePart, eng)
         == ToDate(datePart.GetOr("") + " " + timePart.GetOr(""), eng)
  {
    var d := datePart.GetOr("");
    var t := timePart.GetOr("");
    var x := d + " " + t;
    assert Join([d, t], " ") == x;
    ToDateOfTrim(x, eng);
    if Trim(x) == "" {
      TrimEmptyIffAllSpace(x);
      assert forall i :: 0 <= i < |d| ==> d[i] == x[i];
      assert forall i :: 0 <= i < |t| ==> t[i] == x[|d| + 1 + i];
      TrimEmptyIffAllSpace(d);
      TrimEmptyIffAllSpace(t);
    }
  }

  /** An explicit date wins over the parts. */
  lemma CombinePrefersExplicit(explicit: Instant, datePart: Option<string>, timePart: Option<string>, eng: Engine)
    ensures CombineDateParts(Some(explicit), datePart, timePart, eng) == Some(explicit)
  {
  }
}
