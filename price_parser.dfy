/**
 `parseBRLString`: reads a Brazilian-formatted price ("R$ 4.200,00") as a number. The text is
 cleaned in three passes (keep digits, ',', '.', '-'; delete every '.'; turn the first ','
 into '.') and then handed to JavaScript's `Number`. `Number` is modelled exactly for the
 strings the cleaning can produce; its result is an exact real, and a string `Number` would
 read as NaN is `None`.
 */
module PriceParser {
  import opened JsRuntime

  predicate IsDigit(c: char) {
    '0' <= c <= '9'
  }

  /** The characters `[\d,.-]` that survive the first pass. */
  predicate IsPriceChar(c: char) {
    IsDigit(c) || c == ',' || c == '.' || c == '-'
  }

  predicate AllDigits(s: string) {
    forall i :: 0 <= i < |s| ==> IsDigit(s[i])
  }

  predicate NoPriceChars(s: string) {
    forall i :: 0 <= i < |s| ==> !IsPriceChar(s[i])
  }

  /** Index of the first `c` in `s`, or `|s|` when there is none. */
  function FirstIndex(s: string, c: char): (k: nat)
    ensures k <= |s|
    ensures k < |s| ==> s[k] == c
    ensures forall i :: 0 <= i < k ==> s[i] != c
  {
    if s == [] then 0 else if s[0] == c then 0 else 1 + FirstIndex(s[1..], c)
  }

  /** `.replace(/[^\d,.-]/g, '')` */
  function KeepPriceChars(s: string): (r: string)
    ensures forall i :: 0 <= i < |r| ==> IsPriceChar(r[i])
    ensures |r| <= |s|
  {
    if s == [] then ""
    else (if IsPriceChar(s[0]) then [s[0]] else "") + KeepPriceChars(s[1..])
  }

  /** `.replace(/\./g, '')` */
  function RemoveDots(s: string): (r: string)
    ensures '.' !in r
    ensures |r| <= |s|
    ensures forall c :: c in r ==> c in s
  {
    if s == [] then ""
    else (if s[0] == '.' then "" else [s[0]]) + RemoveDots(s[1..])
  }

  /** `.replace(',', '.')`: a string pattern replaces only its first occurrence. */
  function ReplaceFirstComma(s: string): (r: string)
    ensures |r| == |s|
    ensures forall i :: 0 <= i < |s| ==> r[i] == (if i == FirstIndex(s, ',') then '.' else s[i])
  {
    if s == [] then ""
    else if s[0] == ',' then "." + s[1..]
    else [s[0]] + ReplaceFirstComma(s[1..])
  }

  /** The string `parseBRLString` hands to `Number`: price characters only, no longer than the
      text, and at most one '.' (where the first ',' was). */
  function Cleaned(text: string): (r: string)
    ensures forall i :: 0 <= i < |r| ==> IsPriceChar(r[i])
    ensures |r| <= |text|
    ensures forall i, j :: 0 <= i < j < |r| ==> !(r[i] == '.' && r[j] == '.')
  {
    var kept := KeepPriceChars(text);
    var undotted := RemoveDots(kept);
    assert forall i :: 0 <= i < |undotted| ==> undotted[i] in kept && undotted[i] != '.';
    ReplaceFirstComma(undotted)
  }

  /** Number of occurrences of `c` in `s`. */
  function Count(s: string, c: char): nat {
    if s == [] then 0 else (if s[0] == c then 1 else 0) + Count(s[1..], c)
  }

  function DigitsValue(s: string): nat
    requires AllDigits(s)
  {
    if s == [] then 0 else 10 * DigitsValue(s[..|s| - 1]) + (s[|s| - 1] as int - '0' as int)
  }

  function Pow10(n: nat): (p: nat)
    ensures p > 0
  {
    if n == 0 then 1 else 10 * Pow10(n - 1)
  }

  /** The value of `ip` '.' `fp`, with `ip` the integer digits and `fp` the fraction digits. */
  function DecimalValue(ip: string, fp: string): real
    requires AllDigits(ip) && AllDigits(fp)
  {
    DigitsValue(ip) as real + DigitsValue(fp) as real / Pow10(|fp|) as real
  }

  /** ECMAScript's StrUnsignedDecimalLiteral without exponent: digits, at most one '.', and at
      least one digit. */
  function UnsignedDecimal(s: string): (r: Option<real>)
    ensures r.Some? ==> s != "" && forall i :: 0 <= i < |s| ==> IsDigit(s[i]) || s[i] == '.'
    ensures r.Some? ==> r.value >= 0.0
  {
    var k := FirstIndex(s, '.');
    var ip := s[..k];
    var fp := if k < |s| then s[k + 1..] else "";
    assert forall i :: 0 <= i < k ==> ip[i] == s[i];
    assert forall i :: k < i < |s| ==> fp[i - k - 1] == s[i];
    if AllDigits(ip) && AllDigits(fp) && (ip != "" || fp != "") then Some(DecimalValue(ip, fp))
    else None
  }

  /** `Number(s)` for a string over digits, ',', '.' and '-': the empty string is 0, a leading
      '-' negates, anything else that is not a decimal literal is NaN (`None`). */
  function NumberOf(s: string): (r: Option<real>)
    ensures s == "" ==> r == Some(0.0)
    ensures r.Some? ==> forall i :: 0 <= i < |s| ==> IsDigit(s[i]) || s[i] == '.' || (i == 0 && s[i] == '-')
    ensures r.Some? && r.value < 0.0 ==> s[0] == '-'
  {
    if s == "" then Some(0.0)
    else if s[0] == '-' then
      assert forall i :: 1 <= i < |s| ==> s[i] == s[1..][i - 1];
      match UnsignedDecimal(s[1..])
      case Some(v) => Some(-v)
      case None => None
    else UnsignedDecimal(s)
  }

  /** The text `parseBRLString(str = '')` works on. */
  function ArgText(str: TextValue): string {
    if str.Undefined? then "" else ToJsString(str)
  }

  /** `parseBRLString(str = '')`: an undefined argument takes the default '', anything else
      goes through `String(str)`. `None` is the function's `null`. */
  function ParseBRLString(str: TextValue): (r: Option<real>)
    ensures str.Undefined? || str == Null ==> r == Some(0.0)
    ensures r.Some? ==> Count(ArgText(str), ',') <= 1
  {
    var text := ArgText(str);
    assert NoPriceChars("null");
    KeepNothing("null");
    if Count(text, ',') >= 2 then
      KeepCount(text, ',');
      RemoveDotsCount(KeepPriceChars(text), ',');
      CommaSurvives(RemoveDots(KeepPriceChars(text)));
      NumberOf(Cleaned(text))
    else NumberOf(Cleaned(text))
  }

  // ---------------------------------------------------------------------------
  // The cleaning passes, one fact each.

  lemma {:induction false} KeepAppend(a: string, b: string)
    ensures KeepPriceChars(a + b) == KeepPriceChars(a) + KeepPriceChars(b)
  {
    if a == [] {
      assert a + b == b;
    } else {
      assert (a + b)[0] == a[0] && (a + b)[1..] == a[1..] + b;
      KeepAppend(a[1..], b);
    }
  }

  lemma {:induction false} KeepPriceOnly(s: string)
    requires forall i :: 0 <= i < |s| ==> IsPriceChar(s[i])
    ensures KeepPriceChars(s) == s
  {
    if s != [] {
      KeepPriceOnly(s[1..]);
    }
  }

  lemma {:induction false} KeepNothing(s: string)
    requires NoPriceChars(s)
    ensures KeepPriceChars(s) == ""
  {
    if s != [] {
      KeepNothing(s[1..]);
    }
  }

  lemma {:induction false} RemoveDotsAppend(a: string, b: string)
    ensures RemoveDots(a + b) == RemoveDots(a) + RemoveDots(b)
  {
    if a == [] {
      assert a + b == b;
    } else {
      assert (a + b)[0] == a[0] && (a + b)[1..] == a[1..] + b;
      RemoveDotsAppend(a[1..], b);
    }
  }

  lemma {:induction false} RemoveDotsNoDots(s: string)
    requires '.' !in s
    ensures RemoveDots(s) == s
  {
    if s != [] {
      RemoveDotsNoDots(s[1..]);
    }
  }

  /** Deleting the dots first changes nothing: the first pass keeps exactly the same other
      characters, and the second pass deletes the dots anyway. */
  lemma {:induction false} KeepRemoveDotsCommute(s: string)
    ensures RemoveDots(KeepPriceChars(RemoveDots(s))) == RemoveDots(KeepPriceChars(s))
  {
    if s != [] {
      KeepRemoveDotsCommute(s[1..]);
      var t := RemoveDots(s[1..]);
      if s[0] == '.' {
        assert RemoveDots(s) == t;
        assert KeepPriceChars(s) == "." + KeepPriceChars(s[1..]);
        RemoveDotsAppend(".", KeepPriceChars(s[1..]));
      } else {
        assert RemoveDots(s) == [s[0]] + t;
        assert ([s[0]] + t)[0] == s[0] && ([s[0]] + t)[1..] == t;
        var k := if IsPriceChar(s[0]) then [s[0]] else "";
        assert KeepPriceChars([s[0]] + t) == k + KeepPriceChars(t);
        assert KeepPriceChars(s) == k + KeepPriceChars(s[1..]);
        RemoveDotsAppend(k, KeepPriceChars(t));
        RemoveDotsAppend(k, KeepPriceChars(s[1..]));
      }
    }
  }

  lemma {:induction false} ReplaceFirstCommaAt(d: string, rest: string)
    requires ',' !in d
    ensures ReplaceFirstComma(d + "," + rest) == d + "." + rest
  {
    if d == [] {
      assert d + "," + rest == "," + rest;
      assert ("," + rest)[1..] == rest;
    } else {
      assert (d + "," + rest)[0] == d[0];
      assert (d + "," + rest)[1..] == d[1..] + "," + rest;
      ReplaceFirstCommaAt(d[1..], rest);
    }
  }

  lemma {:induction false} FirstIndexAt(d: string, c: char, rest: string)
    requires c !in d
    ensures FirstIndex(d + [c] + rest, c) == |d|
  {
    if d != [] {
      assert (d + [c] + rest)[1..] == d[1..] + [c] + rest;
      FirstIndexAt(d[1..], c, rest);
    }
  }

  lemma {:induction false} FirstIndexAbsent(s: string, c: char)
    requires c !in s
    ensures FirstIndex(s, c) == |s|
  {
    if s != [] {
      FirstIndexAbsent(s[1..], c);
    }
  }

  lemma {:induction false} UnsignedDecimalOf(ip: string, fp: string)
    requires AllDigits(ip) && AllDigits(fp) && ip != ""
    ensures UnsignedDecimal(ip + "." + fp) == Some(DecimalValue(ip, fp))
  {
    var s := ip + "." + fp;
    assert '.' !in ip;
    FirstIndexAt(ip, '.', fp);
    assert s[..|ip|] == ip && s[|ip| + 1..] == fp;
  }

  lemma {:induction false} UnsignedDecimalOfDigits(d: string)
    requires AllDigits(d) && d != ""
    ensures UnsignedDecimal(d) == Some(DigitsValue(d) as real)
  {
    assert '.' !in d;
    FirstIndexAbsent(d, '.');
    assert d[..|d|] == d;
    assert DigitsValue("") == 0 && Pow10(0) == 1;
    assert DecimalValue(d, "") == DigitsValue(d) as real;
  }

  /** A character that is neither a digit nor '.' makes an unsigned literal NaN. */
  lemma {:induction false} UnsignedDecimalRejects(s: string, i: nat)
    requires i < |s| && !IsDigit(s[i]) && s[i] != '.'
    ensures UnsignedDecimal(s) == None
  {
    var k := FirstIndex(s, '.');
    if i < k {
      assert s[..k][i] == s[i];
    } else {
      assert i > k && s[k + 1..][i - k - 1] == s[i];
    }
  }

  /** `Number` rejects any string that still holds a ',' or holds a '-' after its first
      character. */
  lemma {:induction false} NumberOfRejects(s: string, i: nat)
    requires i < |s| && (s[i] == ',' || (s[i] == '-' && i > 0))
    ensures NumberOf(s) == None
  {
    if s[0] == '-' {
      assert s[1..][i - 1] == s[i];
      UnsignedDecimalRejects(s[1..], i - 1);
    } else {
      UnsignedDecimalRejects(s, i);
    }
  }

  // ---------------------------------------------------------------------------
  // What parseBRLString promises.

  /** The price formats the service emits: any non-price text around integer digits, a ','
      and cent digits reads as the exact decimal value. */
  lemma {:induction false} ParsesAmount(before: string, units: string, cents: string, after: string)
    requires NoPriceChars(before) && NoPriceChars(after)
    requires AllDigits(units) && units != "" && AllDigits(cents)
    ensures ParseBRLString(Str(before + units + "," + cents + after)) == Some(DecimalValue(units, cents))
  {
    var core := units + "," + cents;
    var text := before + units + "," + cents + after;
    assert text == before + core + after;
    AmountChars(units, cents);
    KeepAround(before, core, after);
    RemoveDotsNoDots(core);
    ReplaceFirstCommaAt(units, cents);
    assert Cleaned(text) == units + "." + cents;
    assert IsDigit(units[0]);
    assert (units + "." + cents)[0] == units[0];
    UnsignedDecimalOf(units, cents);
  }

  lemma {:induction false} AmountChars(units: string, cents: string)
    requires AllDigits(units) && AllDigits(cents)
    ensures forall i :: 0 <= i < |units + "," + cents| ==> IsPriceChar((units + "," + cents)[i])
    ensures '.' !in units + "," + cents && ',' !in units
  {
    var core := units + "," + cents;
    forall i | 0 <= i < |core|
      ensures IsPriceChar(core[i]) && core[i] != '.'
    {
      if i < |units| {
        assert core[i] == units[i];
      } else if i > |units| {
        assert core[i] == cents[i - |units| - 1];
      }
    }
  }

  /** The first pass keeps exactly the price characters between two stretches of text
      that hold none. */
  lemma {:induction false} KeepAround(before: string, core: string, after: string)
    requires NoPriceChars(before) && NoPriceChars(after)
    requires forall i :: 0 <= i < |core| ==> IsPriceChar(core[i])
    ensures KeepPriceChars(before + core + after) == core
  {
    KeepAppend(before + core, after);
    KeepAppend(before, core);
    KeepNothing(before);
    KeepNothing(after);
    KeepPriceOnly(core);
  }

  /** The same without a decimal part. */
  lemma {:induction false} ParsesWholeAmount(before: string, units: string, after: string)
    requires NoPriceChars(before) && NoPriceChars(after)
    requires AllDigits(units) && units != ""
    ensures ParseBRLString(Str(before + units + after)) == Some(DigitsValue(units) as real)
  {
    DigitChars(units);
    KeepAround(before, units, after);
    RemoveDotsNoDots(units);
    ReplaceNoComma(units);
    assert Cleaned(before + units + after) == units;
    assert IsDigit(units[0]);
    UnsignedDecimalOfDigits(units);
  }

  lemma {:induction false} DigitChars(d: string)
    requires AllDigits(d)
    ensures forall i :: 0 <= i < |d| ==> IsPriceChar(d[i])
    ensures '.' !in d && ',' !in d
  {
  }

  /** Thousands separators are ignored wherever they stand: deleting every '.' of the text
      beforehand gives the same result. */
  lemma {:induction false} DotsIgnored(text: string)
    ensures ParseBRLString(Str(text)) == ParseBRLString(Str(RemoveDots(text)))
  {
    KeepRemoveDotsCommute(text);
  }

  /** Text with no digit, ',' or '-' (an empty string, a missing field, `null`, a label such
      as "Consulte") reads as 0, because `Number('')` is 0. */
  lemma {:induction false} NoDigitsReadsAsZero(text: string)
    requires forall i :: 0 <= i < |text| ==> !IsDigit(text[i]) && text[i] != ',' && text[i] != '-'
    ensures ParseBRLString(Str(text)) == Some(0.0)
  {
    OnlyDotsKept(text);
  }

  lemma {:induction false} OnlyDotsKept(text: string)
    requires forall i :: 0 <= i < |text| ==> !IsDigit(text[i]) && text[i] != ',' && text[i] != '-'
    ensures RemoveDots(KeepPriceChars(text)) == ""
  {
    if text != [] {
      OnlyDotsKept(text[1..]);
      var k := if IsPriceChar(text[0]) then [text[0]] else "";
      assert KeepPriceChars(text) == k + KeepPriceChars(text[1..]);
      RemoveDotsAppend(k, KeepPriceChars(text[1..]));
    }
  }

  lemma {:induction false} MissingPriceReadsAsZero()
    ensures ParseBRLString(Undefined) == Some(0.0)
    ensures ParseBRLString(Null) == Some(0.0)
  {
    assert NoPriceChars("null");
    KeepNothing("null");
  }

  lemma {:induction false} KeepCount(s: string, c: char)
    requires IsPriceChar(c)
    ensures Count(KeepPriceChars(s), c) == Count(s, c)
  {
    if s != [] {
      KeepCount(s[1..], c);
      var k := if IsPriceChar(s[0]) then [s[0]] else "";
      CountAppend(k, KeepPriceChars(s[1..]), c);
    }
  }

  lemma {:induction false} RemoveDotsCount(s: string, c: char)
    requires c != '.'
    ensures Count(RemoveDots(s), c) == Count(s, c)
  {
    if s != [] {
      RemoveDotsCount(s[1..], c);
      var k := if s[0] == '.' then "" else [s[0]];
      CountAppend(k, RemoveDots(s[1..]), c);
    }
  }

  lemma {:induction false} CountAppend(a: string, b: string, c: char)
    ensures Count(a + b, c) == Count(a, c) + Count(b, c)
  {
    if a == [] {
      assert a + b == b;
    } else {
      assert (a + b)[0] == a[0] && (a + b)[1..] == a[1..] + b;
      CountAppend(a[1..], b, c);
    }
  }

  /** Replacing the first ',' leaves one ',' fewer, and a string with a ',' left has it at
      some index. */
  lemma {:induction false} CommaSurvives(s: string)
    requires Count(s, ',') >= 2
    ensures exists j :: 0 <= j < |ReplaceFirstComma(s)| && ReplaceFirstComma(s)[j] == ','
  {
    if s[0] == ',' {
      CountFound(s[1..]);
      var j :| 0 <= j < |s[1..]| && s[1..][j] == ',';
      assert ReplaceFirstComma(s)[j + 1] == ',';
    } else {
      CommaSurvives(s[1..]);
      var j :| 0 <= j < |ReplaceFirstComma(s[1..])| && ReplaceFirstComma(s[1..])[j] == ',';
      assert ReplaceFirstComma(s)[j + 1] == ',';
    }
  }

  lemma {:induction false} CountFound(s: string)
    requires Count(s, ',') >= 1
    ensures exists j :: 0 <= j < |s| && s[j] == ','
  {
    if s[0] != ',' {
      CountFound(s[1..]);
      var j :| 0 <= j < |s[1..]| && s[1..][j] == ',';
      assert s[j + 1] == ',';
    }
  }

  /** A second ',' survives the cleaning and makes the text unreadable. */
  lemma {:induction false} TwoCommasRejected(text: string)
    requires Count(text, ',') >= 2
    ensures ParseBRLString(Str(text)) == None
  {
    KeepCount(text, ',');
    RemoveDotsCount(KeepPriceChars(text), ',');
    CommaSurvives(RemoveDots(KeepPriceChars(text)));
    var j :| 0 <= j < |Cleaned(text)| && Cleaned(text)[j] == ',';
    NumberOfRejects(Cleaned(text), j);
  }

  /** The cleaning keeps a '-' wherever it stands; one that is not in front makes the text
      unreadable (so a range "10 - 20" is dropped). */
  lemma {:induction false} MisplacedMinusRejected(text: string, i: nat)
    requires i < |Cleaned(text)| && i > 0 && Cleaned(text)[i] == '-'
    ensures ParseBRLString(Str(text)) == None
  {
    NumberOfRejects(Cleaned(text), i);
  }

  /** A leading minus is kept, so negative prices are read. */
  lemma {:induction false} ParsesNegative(units: string)
    requires AllDigits(units) && units != ""
    ensures ParseBRLString(Str("-" + units)) == Some(-(DigitsValue(units) as real))
  {
    var s := "-" + units;
    SignedChars(units);
    CleanedUnchanged(s);
    NumberOfNegated(s, units);
  }

  /** A negative amount with cents, inside any text without price characters, reads as the
      negated amount: "R$ -12,50" reads as -12.5. */
  lemma {:induction false} ParsesNegativeAmount(before: string, units: string, cents: string, after: string)
    requires NoPriceChars(before) && NoPriceChars(after)
    requires AllDigits(units) && units != "" && AllDigits(cents)
    ensures ParseBRLString(Str(before + "-" + units + "," + cents + after)) == Some(-DecimalValue(units, cents))
  {
    CleanedNegative(before, units, cents, after);
    NumberOfNegativeDecimal(units, cents);
  }

  lemma {:induction false} CleanedNegative(before: string, units: string, cents: string, after: string)
    requires NoPriceChars(before) && NoPriceChars(after)
    requires AllDigits(units) && AllDigits(cents)
    ensures Cleaned(before + "-" + units + "," + cents + after) == "-" + units + "." + cents
  {
    var signed := "-" + units;
    var core := signed + "," + cents;
    assert before + "-" + units + "," + cents + after == before + core + after;
    SignedAmountChars(units, cents);
    KeepAround(before, core, after);
    RemoveDotsNoDots(core);
    ReplaceFirstCommaAt(signed, cents);
  }

  lemma {:induction false} NumberOfNegativeDecimal(units: string, cents: string)
    requires AllDigits(units) && units != "" && AllDigits(cents)
    ensures NumberOf("-" + units + "." + cents) == Some(-DecimalValue(units, cents))
  {
    var c := "-" + units + "." + cents;
    assert c[0] == '-' && c[1..] == units + "." + cents;
    UnsignedDecimalOf(units, cents);
  }

  lemma {:induction false} SignedAmountChars(units: string, cents: string)
    requires AllDigits(units) && AllDigits(cents)
    ensures forall i :: 0 <= i < |"-" + units + "," + cents| ==> IsPriceChar(("-" + units + "," + cents)[i])
    ensures '.' !in "-" + units + "," + cents && ',' !in "-" + units
  {
    var core := "-" + units + "," + cents;
    forall i | 0 <= i < |core|
      ensures IsPriceChar(core[i]) && core[i] != '.' && (i <= |units| ==> core[i] != ',')
    {
      if 0 < i <= |units| {
        assert core[i] == units[i - 1];
      } else if i > |units| + 1 {
        assert core[i] == cents[i - |units| - 2];
      }
    }
  }

  /** A string of digits and '-' is its own cleaned form. */
  lemma {:induction false} CleanedUnchanged(s: string)
    requires forall i :: 0 <= i < |s| ==> IsPriceChar(s[i])
    requires '.' !in s && ',' !in s
    ensures Cleaned(s) == s
  {
    KeepPriceOnly(s);
    RemoveDotsNoDots(s);
    ReplaceNoComma(s);
  }

  lemma {:induction false} NumberOfNegated(s: string, units: string)
    requires s == "-" + units && AllDigits(units) && units != ""
    ensures NumberOf(s) == Some(-(DigitsValue(units) as real))
  {
    assert s[0] == '-' && s[1..] == units;
    UnsignedDecimalOfDigits(units);
  }

  lemma {:induction false} ReplaceNoComma(s: string)
    requires ',' !in s
    ensures ReplaceFirstComma(s) == s
  {
    if s != [] {
      ReplaceNoComma(s[1..]);
    }
  }

  lemma {:induction false} SignedChars(units: string)
    requires AllDigits(units)
    ensures forall i :: 0 <= i < |"-" + units| ==> IsPriceChar(("-" + units)[i])
    ensures '.' !in "-" + units && ',' !in "-" + units
  {
    var s := "-" + units;
    forall i | 0 <= i < |s|
      ensures IsPriceChar(s[i]) && s[i] != '.' && s[i] != ','
    {
      if i > 0 {
        assert s[i] == units[i - 1];
      }
    }
  }

  /** The example of the comment in the source: "R$ 183,38 agora" is 183.38. */
  lemma {:induction false} ParsesSourceExample(text: string)
    requires text == "R$ 183,38 agora"
    ensures ParseBRLString(Str(text)) == Some(183.38)
  {
    var before, units, cents, after := "R$ ", "183", "38", " agora";
    SourceExampleParts(text, before, units, cents, after);
    ParsesAmount(before, units, cents, after);
    SourceExampleValue(units, cents);
  }

  lemma {:induction false} SourceExampleParts(text: string, before: string, units: string, cents: string, after: string)
    requires text == "R$ 183,38 agora"
    requires before == "R$ " && units == "183" && cents == "38" && after == " agora"
    ensures text == before + units + "," + cents + after
    ensures NoPriceChars(before) && NoPriceChars(after) && AllDigits(units) && AllDigits(cents)
  {
  }

  lemma {:induction false} SourceExampleValue(units: string, cents: string)
    requires units == "183" && cents == "38"
    ensures AllDigits(units) && AllDigits(cents) && DecimalValue(units, cents) == 183.38
  {
    assert "1"[..0] == "" && DigitsValue("1") == 1;
    assert "18"[..1] == "1" && DigitsValue("18") == 18;
    assert "183"[..2] == "18" && DigitsValue("183") == 183;
    assert "3"[..0] == "" && DigitsValue("3") == 3;
    assert "38"[..1] == "3" && DigitsValue("38") == 38;
    assert Pow10(2) == 100;
  }

  /** "R$ 4.200,00" is 4200: the '.' groups thousands and the ',' starts the cents. */
  lemma {:induction false} ParsesThousandsExample(text: string)
    requires text == "R$ 4.200,00"
    ensures ParseBRLString(Str(text)) == Some(4200.0)
  {
    var head, tail := "R$ 4", "200,00";
    var before, units, cents := "R$ ", "4200", "00";
    ThousandsExampleParts(text, head, tail, before, units, cents);
    ParsesGroupedAmount(text, head, tail, before, units, cents, "");
    ThousandsValue(units, cents);
  }

  lemma {:induction false} ThousandsValue(units: string, cents: string)
    requires units == "4200" && cents == "00"
    ensures DecimalValue(units, cents) == 4200.0
  {
    ThousandsDigits(units, cents);
  }

  /** A text with one thousands '.' reads as the amount written without it. */
  lemma {:induction false} ParsesGroupedAmount(text: string, head: string, tail: string,
                                               before: string, units: string, cents: string, after: string)
    requires text == head + "." + tail && '.' !in head && '.' !in tail
    requires head + tail == before + units + "," + cents + after
    requires NoPriceChars(before) && NoPriceChars(after) && AllDigits(units) && units != "" && AllDigits(cents)
    ensures ParseBRLString(Str(text)) == Some(DecimalValue(units, cents))
  {
    RemoveOneDot(head, tail);
    DotsIgnored(text);
    ParsesAmount(before, units, cents, after);
  }

  lemma {:induction false} ThousandsExampleParts(text: string, head: string, tail: string, before: string, units: string, cents: string)
    requires text == "R$ 4.200,00" && head == "R$ 4" && tail == "200,00"
    requires before == "R$ " && units == "4200" && cents == "00"
    ensures text == head + "." + tail && '.' !in head && '.' !in tail
    ensures head + tail == before + units + "," + cents + ""
    ensures NoPriceChars(before) && NoPriceChars("") && AllDigits(units) && AllDigits(cents)
  {
    assert head + tail == "R$ 4200,00";
    assert before + units + "," + cents + "" == "R$ 4200,00";
  }

  lemma {:induction false} RemoveOneDot(head: string, tail: string)
    requires '.' !in head && '.' !in tail
    ensures RemoveDots(head + "." + tail) == head + tail
  {
    RemoveDotsAppend(head + ".", tail);
    RemoveDotsAppend(head, ".");
    assert "."[1..] == [];
    assert RemoveDots(".") == "";
    RemoveDotsNoDots(head);
    RemoveDotsNoDots(tail);
    assert RemoveDots(head + ".") == head;
  }

  lemma {:induction false} ThousandsDigits(units: string, cents: string)
    requires units == "4200" && cents == "00"
    ensures DigitsValue(units) == 4200 && DigitsValue(cents) == 0
  {
    assert "4"[..0] == "" && DigitsValue("4") == 4;
    assert "42"[..1] == "4" && DigitsValue("42") == 42;
    assert "420"[..2] == "42" && DigitsValue("420") == 420;
    assert units[..3] == "420";
    assert "0"[..0] == "" && DigitsValue("0") == 0;
    assert cents[..1] == "0";
  }
}
