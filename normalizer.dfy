/**
 * The numeric normaliser shared by both ingestion scripts: cell values as pandas
 * holds them, the numeric text `pd.to_numeric` and `float` accept, and the column
 * clean-up that strips `,` (and `%` in percentage columns) before coercing.
 */
module Normalizer {
  import opened Wrappers
  import opened Text

  /** A table cell: text, a number, or a missing value (NaN / None). */
  datatype Value = Str(s: string) | Num(x: real) | Null

  function Pow10(n: nat): (p: nat)
    ensures p >= 1
  {
    if n == 0 then 1 else 10 * Pow10(n - 1)
  }

  /** Digits with at most one `.` and at least one digit: what remains is all digits once one `.` is removed. */
  predicate IsDecimal(s: string) {
    AllDigits(ReplaceFirst(s, '.'))
  }

  /** A whole part plus a fraction given as an integer over a power of ten. */
  function Scaled(whole: nat, fraction: nat, places: nat): real {
    whole as real + fraction as real / Pow10(places) as real
  }

  /** Text with two dots is not decimal text. */
  lemma TwoDotsNotDecimal(s: string, i: nat, j: nat)
    requires i < j < |s| && s[i] == '.' && s[j] == '.'
    ensures !IsDecimal(s)
  {
    ReplaceFirstSecond(s, '.', i, j);
    var r := ReplaceFirst(s, '.');
    var k :| 0 <= k < |r| && r[k] == '.';
    assert !IsDigit(r[k]);
  }

  /** The value of decimal text such as `1234.50`, `.5` or `7.`. */
  function DecimalValue(s: string): real {
    var i := IndexOf(s, '.');
    if i == |s| then DigitsValue(s) as real
    else Scaled(DigitsValue(s[..i]), DigitsValue(s[i + 1..]), |s| - i - 1)
  }

  /** Decimal text consists of digits and `.` only. */
  lemma DecimalChars(s: string)
    ensures IsDecimal(s) ==> |s| > 0 && forall i :: 0 <= i < |s| ==> IsDigit(s[i]) || s[i] == '.'
  {
    if !IsDecimal(s) {
      return;
    }
    forall i | 0 <= i < |s|
      ensures IsDigit(s[i]) || s[i] == '.'
    {
      if s[i] != '.' {
        ReplaceFirstKeeps(s, '.', s[i]);
        var r := ReplaceFirst(s, '.');
        var k :| 0 <= k < |r| && r[k] == s[i];
      }
    }
  }

  /**
   * Numeric text as `pd.to_numeric` reads it: an optional sign and decimal text.
   * Anything else is `None`, which the callers turn into a null cell.
   */
  function ParseNumber(s: string): (r: Option<real>)
    ensures r.Some? ==>
      forall i :: 0 <= i < |s| ==> IsDigit(s[i]) || s[i] == '.' || (i == 0 && (s[i] == '-' || s[i] == '+'))
    ensures r.Some? <==> IsDecimal(s) || (|s| > 0 && (s[0] == '-' || s[0] == '+') && IsDecimal(s[1..]))
    ensures IsDecimal(s) ==> r == Some(DecimalValue(s))
    ensures |s| > 0 && s[0] == '-' && IsDecimal(s[1..]) ==> r == Some(-DecimalValue(s[1..]))
    ensures |s| > 0 && s[0] == '+' && IsDecimal(s[1..]) ==> r == Some(DecimalValue(s[1..]))
  {
    DecimalChars(s);
    if |s| > 0 && (s[0] == '-' || s[0] == '+') then
      if IsDecimal(s[1..]) then
        DecimalChars(s[1..]);
        assert forall i :: 1 <= i < |s| ==> s[i] == s[1..][i - 1];
        Some(if s[0] == '-' then -DecimalValue(s[1..]) else DecimalValue(s[1..]))
      else None
    else if IsDecimal(s) then
      DecimalChars(s);
      Some(DecimalValue(s))
    else None
  }

  /** The digits of any natural number parse back to that number. */
  lemma DigitsParse(n: nat)
    ensures IsDecimal(Digits(n)) && DecimalValue(Digits(n)) == n as real
    ensures ParseNumber(Digits(n)) == Some(n as real)
  {
    var d := Digits(n);
    assert '.' !in d by {
      assert forall k :: 0 <= k < |d| ==> d[k] != '.';
    }
    assert IndexOf(d, '.') == |d|;
    DigitsRoundTrip(n);
    assert !IsDigit('-') && !IsDigit('+');
  }

  /** The first `.` of digits, a dot and more text is the one after the digits. */
  lemma {:induction false} DotAfterDigits(a: string, rest: string)
    requires DigitsOnly(a)
    ensures IndexOf(a + "." + rest, '.') == |a|
  {
    var s := a + "." + rest;
    if a != [] {
      assert s[0] == a[0] && s[1..] == a[1..] + "." + rest;
      DotAfterDigits(a[1..], rest);
    }
  }

  /**
   * Digits, a dot and digits (either side may be empty, not both) parse to the
   * whole part plus the fraction part scaled by the number of fraction digits:
   * `1234.50` is 1234 + 50/100, `.5` is 5/10 and `7.` is 7.
   */
  lemma FractionParse(a: string, b: string)
    requires DigitsOnly(a) && DigitsOnly(b) && |a| + |b| > 0
    ensures ParseNumber(a + "." + b) == Some(Scaled(DigitsValue(a), DigitsValue(b), |b|))
  {
    FractionDecimal(a, b);
  }

  /** Digits, a dot and digits are decimal text, with the value of the whole part plus the scaled fraction. */
  lemma FractionDecimal(a: string, b: string)
    requires DigitsOnly(a) && DigitsOnly(b) && |a| + |b| > 0
    ensures IsDecimal(a + "." + b)
    ensures DecimalValue(a + "." + b) == Scaled(DigitsValue(a), DigitsValue(b), |b|)
  {
    var s := a + "." + b;
    DotAfterDigits(a, b);
    ReplaceFirstRemovesFirst(s, '.');
    assert s[..|a|] == a && s[|a| + 1..] == b;
    assert ReplaceFirst(s, '.') == a + b;
    assert AllDigits(a + b) by {
      forall i | 0 <= i < |a + b|
        ensures IsDigit((a + b)[i])
      {
        if i >= |a| {
          assert (a + b)[i] == b[i - |a|];
        }
      }
    }
  }

  /** A leading `-` negates what the unsigned text parses to, and a leading `+` leaves it unchanged. */
  lemma SignedParse(s: string)
    requires ParseNumber(s).Some? && (|s| == 0 || (s[0] != '-' && s[0] != '+'))
    ensures ParseNumber("-" + s) == Some(-ParseNumber(s).value)
    ensures ParseNumber("+" + s) == ParseNumber(s)
  {
  }

  /** Only one sign is accepted: signed text with another sign in front of it is not a number. */
  lemma SecondSignRejected(sign: char, s: string)
    requires sign == '-' || sign == '+'
    requires |s| > 0 && (s[0] == '-' || s[0] == '+')
    ensures ParseNumber([sign] + s) == None
  {
  }

  /** `pd.to_numeric(v, errors='coerce')`: numbers stay, text is parsed or becomes null. */
  function ToNumeric(v: Value): (r: Value)
    ensures !r.Str?
    ensures v.Str? ==> (r.Null? <==> ParseNumber(v.s).None?)
    ensures v.Str? && r.Num? ==> ParseNumber(v.s) == Some(r.x)
    ensures v.Num? ==> r == v
    ensures v.Null? ==> r == Null
  {
    match v
    case Num(_) => v
    case Null => Null
    case Str(s) => if ParseNumber(s).Some? then Num(ParseNumber(s).value) else Null
  }

  /** The text clean-up of one column: drop every `,`, and every `%` in a percentage column. */
  function Strip(s: string, percentColumn: bool): (r: string)
    ensures ',' !in r
    ensures percentColumn ==> '%' !in r
  {
    var noCommas := RemoveAll(s, ',');
    if percentColumn then
      var r := RemoveAll(noCommas, '%');
      assert forall x :: x in r ==> x in noCommas;
      r
    else noCommas
  }

  /**
   * One numeric cell of a column to clean: `astype(str)`, the replacements, then
   * `pd.to_numeric(errors='coerce')`. Unparsable text becomes null; nothing raises.
   * A number goes through its own text form unchanged; a missing value stays missing.
   */
  function Normalize(v: Value, percentColumn: bool): (r: Value)
    ensures !r.Str?
    ensures v.Str? ==> (r.Null? <==> ParseNumber(Strip(v.s, percentColumn)).None?)
    ensures v.Str? && r.Num? ==> ParseNumber(Strip(v.s, percentColumn)) == Some(r.x)
    ensures v.Num? ==> r == v
    ensures v.Null? ==> r == Null
  {
    match v
    case Str(s) => ToNumeric(Str(Strip(s, percentColumn)))
    case _ => v
  }

  /** Cleaning text that is already clean changes nothing (the text is re-stripped to itself). */
  lemma StripIdempotent(s: string, percentColumn: bool)
    ensures Strip(Strip(s, percentColumn), percentColumn) == Strip(s, percentColumn)
    ensures Normalize(Str(Strip(s, percentColumn)), percentColumn) == Normalize(Str(s), percentColumn)
  {
    var t := Strip(s, percentColumn);
    RemoveAllAbsent(t, ',');
    if percentColumn {
      RemoveAllAbsent(t, '%');
    }
  }

  /** A thousands separator anywhere in the text does not change the cleaned value. */
  lemma CommaIgnored(a: string, b: string, percentColumn: bool)
    ensures Normalize(Str(a + "," + b), percentColumn) == Normalize(Str(a + b), percentColumn)
  {
    RemoveAllConcat(a + ",", b, ',');
    RemoveAllConcat(a, ",", ',');
    RemoveAllConcat(a, b, ',');
    assert RemoveAll(",", ',') == [];
    assert RemoveAll(a + ",", ',') == RemoveAll(a, ',');
  }

  /** A `%` is dropped in a percentage column. */
  lemma PercentStripped(a: string, b: string)
    ensures Normalize(Str(a + "%" + b), true) == Normalize(Str(a + b), true)
  {
    assert Strip(a + "%" + b, true) == Strip(a + b, true) by {
      RemoveAllAround(a, '%', b, ',');
      var ca, cb := RemoveAll(a, ','), RemoveAll(b, ',');
      assert RemoveAll(a + "%" + b, ',') == ca + "%" + cb;
      RemoveAllConcat(a, b, ',');
      RemoveAllAround(ca, '%', cb, '%');
      RemoveAllConcat(ca, cb, '%');
    }
  }

  /** Outside a percentage column a `%` is not stripped, so the cell becomes null. */
  lemma PercentElsewhereIsNull(a: string, b: string)
    ensures Normalize(Str(a + "%" + b), false) == Null
  {
    RemoveAllAround(a, '%', b, ',');
    var t := RemoveAll(a + "%" + b, ',');
    var ca := RemoveAll(a, ',');
    assert t[|ca|] == '%';
    assert !IsDigit('%');
  }

  /** Comma-grouped whole numbers, as the holdings files print them, clean to their value. */
  lemma GroupedNumberCleans(n: nat, percentColumn: bool)
    ensures Normalize(Str(Grouped(Digits(n))), percentColumn) == Num(n as real)
  {
    var d := Digits(n);
    assert ',' !in d && '%' !in d by {
      assert !IsDigit(',') && !IsDigit('%');
    }
    UngroupRoundTrip(d);
    if percentColumn {
      RemoveAllAbsent(d, '%');
    }
    DigitsParse(n);
  }

  /** A comma-grouped whole part with decimals, such as `1,234.50`, cleans to its value (1234 + 50/100). */
  lemma GroupedDecimalCleans(n: nat, fraction: string, percentColumn: bool)
    requires DigitsOnly(fraction)
    ensures Normalize(Str(Grouped(Digits(n)) + "." + fraction), percentColumn) ==
      Num(Scaled(n, DigitsValue(fraction), |fraction|))
  {
    GroupedDecimalStrips(Digits(n), fraction, percentColumn);
    DigitsRoundTrip(n);
    FractionParse(Digits(n), fraction);
  }

  /** Stripping comma-grouped digits followed by a dot and digits leaves the plain digits, dot and digits. */
  lemma GroupedDecimalStrips(d: string, fraction: string, percentColumn: bool)
    requires AllDigits(d) && DigitsOnly(fraction)
    ensures Strip(Grouped(d) + "." + fraction, percentColumn) == d + "." + fraction
  {
    var tail := "." + fraction;
    assert ',' !in d && '%' !in d by {
      assert !IsDigit(',') && !IsDigit('%');
    }
    assert ',' !in tail && '%' !in tail by {
      assert forall k :: 0 <= k < |tail| ==> tail[k] == '.' || IsDigit(tail[k]);
    }
    UngroupRoundTrip(d);
    RemoveAllConcat(Grouped(d), tail, ',');
    RemoveAllAbsent(tail, ',');
    assert Grouped(d) + "." + fraction == Grouped(d) + tail;
    assert d + "." + fraction == d + tail;
    if percentColumn {
      RemoveAllConcat(d, tail, '%');
      RemoveAllAbsent(d, '%');
      RemoveAllAbsent(tail, '%');
    }
  }
}
