/**
 * The human-readable size shown beside each file (`formatFileSize`). The
 * model states the exact meaning of the floating-point computation: the unit
 * is the largest power of 1024 not above the byte count, the value is the
 * byte count divided by that power and rounded half up to hundredths, and
 * the value is written in the shortest decimal form, without trailing zeros.
 */
module Sizes {
  import opened Wrappers
  import opened Strings

  /** The base of the units. */
  const K: nat := 1024

  /** The unit table; it has no entry beyond terabytes. */
  const Units: seq<string> := ["Bytes", "KB", "MB", "GB", "TB"]

  datatype SizeError = UnitOutOfRange(index: nat)

  /** What a size text denotes: the value in hundredths and the index of its unit. */
  datatype Reading = Reading(hundredths: nat, unit: nat)

  function Pow(b: nat, e: nat): nat
  {
    if e == 0 then 1 else b * Pow(b, e - 1)
  }

  lemma {:induction false} PowPositive(e: nat)
    ensures Pow(K, e) >= 1
  {
    if e > 0 { PowPositive(e - 1); }
  }

  lemma {:induction false} PowMonotone(a: nat, b: nat)
    requires a <= b
    ensures Pow(K, a) <= Pow(K, b)
  {
    if a < b {
      PowMonotone(a, b - 1);
      PowPositive(b - 1);
    }
  }

  /** The unit index: the exponent `i` with `1024^i <= bytes < 1024^(i+1)`. */
  function UnitIndex(bytes: nat): (i: nat)
    requires bytes >= 1
    ensures Pow(K, i) <= bytes < Pow(K, i + 1)
    decreases bytes
  {
    if bytes < K then 0 else 1 + UnitIndex(bytes / K)
  }

  /** Only one exponent brackets the byte count, so `UnitIndex` is the largest `i` with `1024^i <= bytes`. */
  lemma UnitIndexUnique(bytes: nat, j: nat)
    requires Pow(K, j) <= bytes < Pow(K, j + 1)
    ensures j == UnitIndex(bytes)
  {
    var i := UnitIndex(bytes);
    if j < i {
      PowMonotone(j + 1, i);
    } else if i < j {
      PowMonotone(i + 1, j);
    }
  }

  /** Below 1024^5 the unit index names an entry of the table. */
  lemma UnitIndexInTable(bytes: nat)
    requires 1 <= bytes
    ensures UnitIndex(bytes) < |Units| <==> bytes < Pow(K, |Units|)
  {
    var i := UnitIndex(bytes);
    if i < |Units| {
      PowMonotone(i + 1, |Units|);
    } else {
      PowMonotone(|Units|, i);
    }
  }

  /** `bytes / d` rounded half up to hundredths: the `h` with `h - 1/2 <= 100 * bytes / d < h + 1/2`. */
  function RoundToHundredths(bytes: nat, d: nat): (h: nat)
    requires d >= 1
    ensures 2 * h * d <= 200 * bytes + d < 2 * (h + 1) * d
  {
    var n, m := 200 * bytes + d, 2 * d;
    assert n == (n / m) * m + n % m;
    n / m
  }

  /** The fractional part of a value in hundredths, without trailing zeros. */
  function FractionText(f: nat): (s: string)
    requires f < 100
  {
    if f == 0 then ""
    else if f % 10 == 0 then "." + [DigitChar(f / 10)]
    else "." + [DigitChar(f / 10), DigitChar(f % 10)]
  }

  /** How JavaScript prints the number `h / 100`: the integer part, then only the decimals that are needed. */
  function DecimalText(h: nat): (t: string)
    ensures |t| >= 1 && IsDigit(t[0])
    ensures t[0] == '0' <==> h < 100
  {
    NatToString(h / 100) + FractionText(h % 100)
  }

  /** The intended meaning of the size text of `bytes`. */
  function SizeMeaning(bytes: nat): Reading
  {
    if bytes == 0 then Reading(0, 0)
    else
      var i := UnitIndex(bytes);
      Reading(RoundToHundredths(bytes, Pow(K, i)), i)
  }

  /**
   * `formatFileSize`: "0 Bytes" for zero, otherwise value and unit separated
   * by a space. A byte count that needs a unit beyond the table is an error.
   */
  function FormatFileSize(bytes: nat): (r: Result<string, SizeError>)
    ensures bytes == 0 ==> r == Ok("0 Bytes")
    ensures r.Err? <==> bytes >= Pow(K, |Units|)
  {
    PowPositive(|Units|);
    if bytes == 0 then Ok("0 Bytes")
    else
      var i := UnitIndex(bytes);
      UnitIndexInTable(bytes);
      if i >= |Units| then Err(UnitOutOfRange(i))
      else Ok(DecimalText(RoundToHundredths(bytes, Pow(K, i))) + " " + Units[i])
  }

  /** Reads a decimal text back into hundredths: digits, then optionally a point and one or two digits. */
  function ParseDecimal(t: string): Option<nat>
  {
    match IndexOf(t, '.')
    case None =>
      if |t| > 0 && AllDigits(t) then Some(100 * ParseNat(t)) else None
    case Some(p) =>
      var whole := t[..p];
      if |whole| > 0 && AllDigits(whole) then
        match FractionDigitsValue(t[p + 1..])
        case None => None
        case Some(f) => Some(100 * ParseNat(whole) + f)
      else None
  }

  /** The hundredths denoted by the one or two digits after a decimal point. */
  function FractionDigitsValue(frac: string): Option<nat>
  {
    if 1 <= |frac| <= 2 && AllDigits(frac) then
      Some(if |frac| == 1 then 10 * ParseNat(frac) else ParseNat(frac))
    else None
  }

  /** Reads a size text back into its value and unit index. */
  function ParseSizeText(s: string): Option<Reading>
  {
    match IndexOf(s, ' ')
    case None => None
    case Some(p) =>
      match ParseDecimal(s[..p])
      case None => None
      case Some(h) =>
        match IndexOf(Units, s[p + 1..])
        case None => None
        case Some(u) => Some(Reading(h, u))
  }

  lemma FractionTextShape(f: nat)
    requires f < 100
    ensures f == 0 <==> FractionText(f) == ""
    ensures f != 0 ==> |FractionText(f)| >= 2 && FractionText(f)[0] == '.'
    ensures f != 0 ==> FractionDigitsValue(FractionText(f)[1..]) == Some(f)
    ensures f != 0 ==> FractionText(f)[|FractionText(f)| - 1] != '0'
  {
    if f != 0 {
      var s := FractionText(f);
      if f % 10 == 0 {
        assert s[1..] == [DigitChar(f / 10)];
        ParseNatOne(DigitChar(f / 10));
      } else {
        assert s[1..] == [DigitChar(f / 10), DigitChar(f % 10)];
        ParseNatTwo(DigitChar(f / 10), DigitChar(f % 10));
      }
    }
  }

  /** The decimal text reads back as the value it was printed from. */
  lemma DecimalTextRoundTrip(h: nat)
    ensures ParseDecimal(DecimalText(h)) == Some(h)
  {
    var whole, frac := NatToString(h / 100), FractionText(h % 100);
    var t := whole + frac;
    assert t == DecimalText(h);
    ParseNatToString(h / 100);
    FractionTextShape(h % 100);
    DigitsLack(whole, '.');
    if h % 100 == 0 {
      assert t == whole;
    } else {
      var digits := frac[1..];
      assert t == whole + ['.'] + digits by { assert frac == ['.'] + digits; }
      IndexOfAfter(whole, '.', digits);
      assert t[..|whole|] == whole;
      assert t[|whole| + 1..] == digits;
    }
  }

  /** The printed value has no superfluous zeros: no leading zero before a non-zero whole part, no trailing zero after the point. */
  lemma DecimalTextCanonical(h: nat)
    ensures DecimalText(h)[0] == '0' ==> h < 100
    ensures '.' in DecimalText(h) ==> DecimalText(h)[|DecimalText(h)| - 1] != '0'
  {
    var whole := NatToString(h / 100);
    FractionTextShape(h % 100);
    assert DecimalText(h)[0] == whole[0];
    if h % 100 == 0 {
      assert DecimalText(h) == whole;
      assert '.' !in whole by {
        forall k | 0 <= k < |whole| ensures whole[k] != '.' { assert IsDigit(whole[k]); }
      }
    }
  }

  /** Parsing the formatted size gives back its intended meaning. */
  lemma FormatFileSizeRoundTrip(bytes: nat)
    requires FormatFileSize(bytes).Ok?
    ensures ParseSizeText(FormatFileSize(bytes).value) == Some(SizeMeaning(bytes))
  {
    if bytes == 0 {
      assert ParseDecimal("0") == Some(0) by {
        assert IndexOf("0", '.') == None;
        assert "0"[..0] == [];
      }
      DigitsLack("0", ' ');
      ParseSizeTextOf("0", 0, 0);
      assert "0" + " " + Units[0] == "0 Bytes";
    } else {
      var i := UnitIndex(bytes);
      var h := RoundToHundredths(bytes, Pow(K, i));
      DecimalTextRoundTrip(h);
      DecimalTextLacksSpace(h);
      ParseSizeTextOf(DecimalText(h), h, i);
    }
  }

  /** A number text without spaces, a space and a unit name read back as that number and unit. */
  lemma ParseSizeTextOf(t: string, h: nat, i: nat)
    requires ' ' !in t && ParseDecimal(t) == Some(h) && i < |Units|
    ensures ParseSizeText(t + " " + Units[i]) == Some(Reading(h, i))
  {
    var s := t + " " + Units[i];
    assert s == t + [' '] + Units[i];
    IndexOfAfter(t, ' ', Units[i]);
    assert s[..|t|] == t && s[|t| + 1..] == Units[i];
    UnitNamesDistinct(i);
    IndexOfAfter(Units[..i], Units[i], Units[i + 1..]);
    assert Units[..i] + [Units[i]] + Units[i + 1..] == Units;
  }

  lemma DecimalTextLacksSpace(h: nat)
    ensures ' ' !in DecimalText(h)
  {
    var whole, frac := NatToString(h / 100), FractionText(h % 100);
    var t := DecimalText(h);
    FractionTextShape(h % 100);
    forall k | 0 <= k < |t| ensures t[k] != ' ' {
      if k < |whole| {
        assert t[k] == whole[k] && IsDigit(whole[k]);
      } else if k > |whole| {
        assert t[k] == frac[1..][k - |whole| - 1];
      }
    }
  }

  lemma UnitNamesDistinct(i: nat)
    requires i < |Units|
    ensures Units[i] !in Units[..i]
  {
  }

  /** Before rounding the value lies in [1, 1024); after rounding it lies in [1, 1024]. */
  lemma ScaledValueRange(bytes: nat)
    requires bytes >= 1
    ensures Pow(K, UnitIndex(bytes)) <= bytes < K * Pow(K, UnitIndex(bytes))
    ensures 100 <= SizeMeaning(bytes).hundredths <= 100 * K
  {
    var i := UnitIndex(bytes);
    var d := Pow(K, i);
    var h := RoundToHundredths(bytes, d);
    PowPositive(i);
    assert 2 * h * d <= 200 * bytes + d < 2 * (h + 1) * d;
    assert 200 * d <= 200 * bytes;
    assert 200 * bytes < 200 * K * d;
    HundredthsBounds(bytes, d, h);
  }

  lemma HundredthsBounds(bytes: nat, d: nat, h: nat)
    requires d >= 1 && d <= bytes < K * d
    requires 2 * h * d <= 200 * bytes + d < 2 * (h + 1) * d
    ensures 100 <= h <= 100 * K
  {
    assert 201 * d < (2 * (h + 1)) * d;
    MulCancel(201, 2 * (h + 1), d);
    assert (2 * h) * d < (200 * K + 1) * d;
    MulCancel(2 * h, 200 * K + 1, d);
  }

  lemma MulCancel(a: nat, b: nat, d: nat)
    requires d >= 1 && a * d < b * d
    ensures a < b
  {
  }
}
