/** Exact decimal numbers with a printer and a parser that invert each other
    on canonical values. */
module Decimals {
  import opened Text

  /** (-1)^neg * mag / 10^scale. */
  datatype Decimal = Decimal(neg: bool, mag: nat, scale: nat)

  /** No trailing zero after the point, and one zero only. */
  predicate Canonical(d: Decimal) {
    && (d.scale > 0 ==> d.mag % 10 != 0)
    && (d.mag == 0 ==> !d.neg)
  }

  type Num = d: Decimal | Canonical(d) witness Decimal(false, 0, 0)

  function Normalize(neg: bool, mag: nat, scale: nat): (d: Num)
    decreases scale
  {
    if mag == 0 then Decimal(false, 0, 0)
    else if scale > 0 && mag % 10 == 0 then Normalize(neg, mag / 10, scale - 1)
    else Decimal(neg, mag, scale)
  }

  function Pow10(n: nat): (p: nat)
    ensures p > 0
  {
    if n == 0 then 1 else 10 * Pow10(n - 1)
  }

  lemma PowStep(n: nat)
    ensures Pow10(n) == if n == 0 then 1 else 10 * Pow10(n - 1)
  {
  }

  /** The canonical number has the value and the sign asked for. */
  lemma {:induction false} NormalizeKeepsValue(neg: bool, mag: nat, scale: nat)
    ensures var d := Normalize(neg, mag, scale);
      && d.scale <= scale && d.mag * Pow10(scale - d.scale) == mag
      && (d.neg <==> neg && mag > 0)
    decreases scale
  {
    var d := Normalize(neg, mag, scale);
    if mag > 0 && scale > 0 && mag % 10 == 0 {
      NormalizeKeepsValue(neg, mag / 10, scale - 1);
      TenTimes(d.mag, Pow10(scale - 1 - d.scale));
    }
  }

  lemma TenTimes(x: nat, p: nat)
    ensures x * (10 * p) == 10 * (x * p)
  {
  }

  // ---- digits ----

  predicate IsDigit(c: char) {
    '0' <= c <= '9'
  }

  predicate AllDigits(s: string) {
    forall i :: 0 <= i < |s| ==> IsDigit(s[i])
  }

  function DigitChar(n: nat): (c: char)
    requires n < 10
    ensures IsDigit(c) && DigitValue(c) == n
  {
    ('0' as int + n) as char
  }

  function DigitValue(c: char): nat
    requires IsDigit(c)
  {
    c as int - '0' as int
  }

  /** At least `width` digits, padded with zeros in front. */
  function Digits(n: nat, width: nat): (s: string)
    ensures AllDigits(s) && |s| >= width && (s == "" <==> n == 0 && width == 0)
    ensures |s| > width ==> s[0] != '0'
    decreases n, width
  {
    if n == 0 && width == 0 then ""
    else Digits(n / 10, if width == 0 then 0 else width - 1) + [DigitChar(n % 10)]
  }

  function Value(s: string): nat
    requires AllDigits(s)
  {
    if s == "" then 0 else 10 * Value(s[..|s| - 1]) + DigitValue(s[|s| - 1])
  }

  lemma {:induction false} ValueOfDigits(n: nat, width: nat)
    ensures Value(Digits(n, width)) == n
    decreases n, width
  {
    if !(n == 0 && width == 0) {
      var less := if width == 0 then 0 else width - 1;
      ValueOfDigits(n / 10, less);
      var s := Digits(n, width);
      assert s[..|s| - 1] == Digits(n / 10, less);
    }
  }

  // ---- print and parse ----

  function WholePart(d: Num): (s: string)
    ensures AllDigits(s) && s != ""
  {
    var digits := Digits(d.mag, d.scale + 1);
    digits[..|digits| - d.scale]
  }

  function FractionPart(d: Num): (s: string)
    ensures AllDigits(s) && s != ""
  {
    var digits := Digits(d.mag, d.scale + 1);
    if d.scale == 0 then "0" else digits[|digits| - d.scale..]
  }

  /** Always with a point and at least one digit on either side. */
  function Print(d: Num): (s: string)
    ensures s != "" && forall i :: 0 <= i < |s| ==> IsDigit(s[i]) || s[i] == '.' || s[i] == '-'
    ensures IsDigit(s[|s| - 1])
  {
    (if d.neg then "-" else "") + WholePart(d) + "." + FractionPart(d)
  }

  function PointAt(s: string): (r: Option<nat>)
    ensures r.Some? ==> r.value < |s| && s[r.value] == '.' && forall i :: 0 <= i < r.value ==> s[i] != '.'
    ensures r.None? ==> forall i :: 0 <= i < |s| ==> s[i] != '.'
  {
    if s == "" then None
    else if s[0] == '.' then Some(0)
    else
      var rest := PointAt(s[1..]);
      if rest.None? then None else Some(rest.value + 1)
  }

  function ParseUnsigned(neg: bool, body: string): Option<Num> {
    var point := PointAt(body);
    var whole := if point.Some? then body[..point.value] else body;
    var part := if point.Some? then body[point.value + 1..] else "";
    if whole + part == "" || !AllDigits(whole) || !AllDigits(part) then None
    else Some(Normalize(neg, Value(whole + part), |part|))
  }

  /** Digits with an optional sign and an optional point; `None` where the
      conversion raises. */
  function Parse(s: string): Option<Num> {
    if s != "" && (s[0] == '-' || s[0] == '+') then ParseUnsigned(s[0] == '-', s[1..])
    else ParseUnsigned(false, s)
  }

  lemma ParseUnsignedOf(neg: bool, whole: string, part: string)
    requires AllDigits(whole) && AllDigits(part) && |whole| + |part| > 0
    ensures ParseUnsigned(neg, whole + "." + part) == Some(Normalize(neg, Value(whole + part), |part|))
  {
    hide Value, Normalize;
    var s := whole + "." + part;
    var point := PointAt(s);
    assert s[|whole|] == '.';
    assert forall i :: 0 <= i < |whole| ==> s[i] == whole[i];
    assert point == Some(|whole|);
    assert s[..|whole|] == whole && s[|whole| + 1..] == part;
  }

  /** Only decimal digits. */
  ghost predicate Digital(s: string) {
    forall i :: 0 <= i < |s| ==> s[i] in "0123456789"
  }

  lemma DigitalIs(s: string)
    ensures Digital(s) <==> AllDigits(s)
  {
    forall i | 0 <= i < |s|
      ensures s[i] in "0123456789" <==> IsDigit(s[i])
    {
      DigitIs(s[i]);
    }
  }

  lemma DigitIs(c: char)
    ensures c in "0123456789" <==> IsDigit(c)
  {
    if IsDigit(c) { assert "0123456789"[c as int - '0' as int] == c; }
  }

  /** The value of digits, the first of which weighs most. */
  lemma ValueLaw(s: string, c: char)
    requires Digital(s) && c in "0123456789"
    ensures AllDigits(s + [c]) && Value("") == 0
    ensures Value(s + [c]) == 10 * Value(s) + c as int - '0' as int
  {
    DigitIs(c);
    DigitalIs(s);
    assert (s + [c])[..|s|] == s;
  }

  /** The value of the digits on both sides of the point. */
  lemma PartsValue(d: Num)
    ensures Value(WholePart(d) + FractionPart(d)) == if d.scale == 0 then 10 * d.mag else d.mag
    ensures |FractionPart(d)| == if d.scale == 0 then 1 else d.scale
  {
    var digits := Digits(d.mag, d.scale + 1);
    ValueOfDigits(d.mag, d.scale + 1);
    if d.scale == 0 {
      assert digits[..|digits|] == digits;
      DigitalIs(digits);
      ValueLaw(digits, '0');
    } else {
      assert digits[..|digits| - d.scale] + digits[|digits| - d.scale..] == digits;
    }
  }

  lemma ParseSigned(neg: bool, body: string)
    requires body != "" && IsDigit(body[0])
    ensures Parse((if neg then "-" else "") + body) == ParseUnsigned(neg, body)
  {
    hide ParseUnsigned;
    if neg {
      assert ("-" + body)[1..] == body;
    } else {
      assert "" + body == body;
    }
  }

  /** Printing a number and parsing the text gives the number back. */
  lemma ParsePrint(d: Num)
    ensures Parse(Print(d)) == Some(d)
  {
    hide WholePart, FractionPart, Value, Normalize, ParseUnsigned, Parse, Canonical;
    var whole, part := WholePart(d), FractionPart(d);
    PartsValue(d);
    NormalizePrinted(d);
    ParseUnsignedOf(d.neg, whole, part);
    ParseSigned(d.neg, whole + "." + part);
    var sign := if d.neg then "-" else "";
    assert sign + whole + "." + part == sign + (whole + "." + part);
  }

  lemma NormalizePrinted(d: Num)
    ensures Normalize(d.neg, if d.scale == 0 then 10 * d.mag else d.mag, if d.scale == 0 then 1 else d.scale) == d
  {
    if d.scale == 0 && d.mag > 0 {
      assert 10 * d.mag % 10 == 0 && 10 * d.mag / 10 == d.mag;
    }
  }

  // ---- the texts themselves ----

  /** A numeral: a sign or none, digits, and a point anywhere among them or
      not at all. */
  ghost predicate Numeral(s: string, sign: string, whole: string, part: string) {
    && (sign == "" || sign == "+" || sign == "-") && Digital(whole) && Digital(part) && |whole| + |part| > 0
    && (s == sign + whole + "." + part || (s == sign + whole && part == ""))
  }

  /** d is these digits with the point that many places from the end. */
  ghost predicate Worth(d: Num, minus: bool, digits: string, places: nat) {
    && AllDigits(digits) && d.scale <= places
    && d.mag * Pow10(places - d.scale) == Value(digits)
    && (d.neg <==> minus && Value(digits) > 0)
  }

  lemma NumeralParses(s: string, sign: string, whole: string, part: string)
    requires Numeral(s, sign, whole, part)
    ensures Parse(s).Some? && Worth(Parse(s).value, sign == "-", whole + part, |part|)
  {
    hide Value, Normalize, Parse, ParseUnsigned, Digital, IsDigit;
    DigitalIs(whole);
    DigitalIs(part);
    var body := if s == sign + whole + "." + part then whole + "." + part else whole;
    assert s == sign + body by { assert sign + whole + "." + part == sign + (whole + "." + part); }
    NoSign(whole, part, body);
    SignOf(sign, body);
    BodyParses(sign == "-", whole, part, body);
    NormalizeKeepsValue(sign == "-", Value(whole + part), |part|);
  }

  lemma NoSign(whole: string, part: string, body: string)
    requires AllDigits(whole) && |whole| + |part| > 0
    requires body == whole + "." + part || (body == whole && part == "")
    ensures body != "" && body[0] != '+' && body[0] != '-'
  {
    assert whole == "" || (body[0] == whole[0] && IsDigit(whole[0]));
  }

  lemma SignOf(sign: string, body: string)
    requires (sign == "" || sign == "+" || sign == "-") && body != "" && body[0] != '+' && body[0] != '-'
    ensures Parse(sign + body) == ParseUnsigned(sign == "-", body)
  {
    hide ParseUnsigned;
    if sign == "" { assert sign + body == body; } else { assert (sign + body)[1..] == body; }
  }

  lemma BodyParses(neg: bool, whole: string, part: string, body: string)
    requires AllDigits(whole) && AllDigits(part) && |whole| + |part| > 0
    requires body == whole + "." + part || (body == whole && part == "")
    ensures ParseUnsigned(neg, body) == Some(Normalize(neg, Value(whole + part), |part|))
  {
    hide Value, Normalize, ParseUnsigned, PointAt;
    if body == whole + "." + part {
      ParseUnsignedOf(neg, whole, part);
    } else {
      ParseWhole(neg, whole);
      assert whole + part == body;
    }
  }

  lemma ParseWhole(neg: bool, whole: string)
    requires AllDigits(whole) && whole != ""
    ensures ParseUnsigned(neg, whole) == Some(Normalize(neg, Value(whole), 0))
  {
    hide Value, Normalize, PointAt;
    assert PointAt(whole).None?;
    assert whole + "" == whole;
  }

  lemma SplitSign(s: string) returns (sign: string, body: string)
    ensures (sign == "" || sign == "+" || sign == "-") && s == sign + body
    ensures Parse(s) == ParseUnsigned(sign == "-", body)
  {
    hide ParseUnsigned;
    sign := if s == "" then "" else if s[0] == '-' then "-" else if s[0] == '+' then "+" else "";
    body := s[|sign|..];
    assert sign == "" ==> s == body;
  }

  lemma SplitPoint(neg: bool, body: string) returns (whole: string, part: string)
    ensures ParseUnsigned(neg, body).Some? ==>
      && Digital(whole) && Digital(part) && |whole| + |part| > 0
      && (body == whole + "." + part || (body == whole && part == ""))
  {
    hide Value, Normalize, PointAt, IsDigit;
    var point := PointAt(body);
    whole := if point.Some? then body[..point.value] else body;
    part := if point.Some? then body[point.value + 1..] else "";
    DigitalIs(whole);
    DigitalIs(part);
    assert point.Some? ==> body == whole + "." + part;
  }

  /** A text is a number exactly when it is a numeral, and then the number the
      numeral is worth. */
  lemma ParseLaw(s: string) returns (sign: string, whole: string, part: string)
    ensures Parse(s).Some? <==> exists x, y, z :: Numeral(s, x, y, z)
    ensures Parse(s).Some? ==> Numeral(s, sign, whole, part)
    ensures Parse(s).Some? ==> Worth(Parse(s).value, sign == "-", whole + part, |part|)
  {
    hide Parse, ParseUnsigned, Worth, Value;
    var body: string;
    sign, body := SplitSign(s);
    whole, part := SplitPoint(sign == "-", body);
    if Parse(s).Some? {
      assert body == whole + "." + part ==> s == sign + whole + "." + part;
      NumeralParses(s, sign, whole, part);
    }
    if x, y, z :| Numeral(s, x, y, z) { NumeralParses(s, x, y, z); }
  }

  /** The printed text: a minus sign for a negative number, the digits before
      the point without needless zeros, and all places, at least one. */
  lemma PrintLaw(d: Num) returns (whole: string, part: string)
    ensures Print(d) == (if d.neg then "-" else "") + whole + "." + part
    ensures Digital(whole) && Digital(part) && |part| == if d.scale == 0 then 1 else d.scale
    ensures whole != "" && (|whole| > 1 ==> whole[0] != '0')
    ensures AllDigits(whole + part) && Value(whole + part) == if d.scale == 0 then 10 * d.mag else d.mag
  {
    whole, part := WholePart(d), FractionPart(d);
    DigitalIs(whole);
    DigitalIs(part);
    PartsValue(d);
  }
}
