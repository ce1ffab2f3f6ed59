/**
 The number syntax behind the validators `isInt` and `isFloat` that the
 request checks use, and the number a numeric text denotes once the document
 layer casts it. Request fields reach the validators as text (a JSON number
 arrives as its decimal rendering).

 `isInt` (leading zeroes allowed) accepts `[-+]?[0-9]+` and compares the
 value with `min`. `isFloat` accepts `[-+]?[0-9]*(\.[0-9]*)?([eE][-+]?[0-9]+)?`
 and compares `parseFloat` of the text with `min`; a text whose mantissa has
 no digit (`""`, `"."`, `"-"`, `"e5"`) reads as NaN and fails every comparison.
 */
module Numerals {
  import opened Results
  import Text

  predicate AllDigits(s: string)
  {
    forall i :: 0 <= i < |s| ==> Text.IsDigit(s[i])
  }

  function DigitValue(c: char): (d: nat)
    requires Text.IsDigit(c)
    ensures d < 10
  {
    (c as int - '0' as int) as nat
  }

  function DigitChar(d: nat): (c: char)
    requires d < 10
    ensures Text.IsDigit(c) && DigitValue(c) == d
  {
    ('0' as int + d) as char
  }

  /** The value of a run of decimal digits, most significant first. */
  function DigitsValue(s: string): nat
    requires AllDigits(s)
  {
    if |s| == 0 then 0 else 10 * DigitsValue(s[..|s| - 1]) + DigitValue(s[|s| - 1])
  }

  /** The shortest decimal rendering of `n`. */
  function NatText(n: nat): (s: string)
    ensures |s| > 0 && AllDigits(s)
  {
    if n < 10 then [DigitChar(n)] else NatText(n / 10) + [DigitChar(n % 10)]
  }

  /** Reading a rendered number gives the number back. */
  lemma {:induction false} NatTextRoundTrip(n: nat)
    ensures DigitsValue(NatText(n)) == n
  {
    if n >= 10 {
      var s := NatText(n);
      assert s[..|s| - 1] == NatText(n / 10);
      NatTextRoundTrip(n / 10);
    }
  }

  /** A run of digits reads as zero exactly when every digit is `0`. */
  lemma {:induction false} DigitsValueZero(s: string)
    requires AllDigits(s)
    ensures DigitsValue(s) == 0 <==> forall i :: 0 <= i < |s| ==> s[i] == '0'
  {
    if |s| > 0 {
      var init := s[..|s| - 1];
      DigitsValueZero(init);
      assert forall i :: 0 <= i < |init| ==> init[i] == s[i];
    }
  }

  predicate IsSign(c: char)
  {
    c == '+' || c == '-'
  }

  /** The text `isInt` accepts: an optional sign and at least one digit. */
  predicate IsIntText(s: string)
  {
    if |s| > 0 && IsSign(s[0]) then |s| > 1 && AllDigits(s[1..]) else |s| > 0 && AllDigits(s)
  }

  function IntValue(s: string): int
    requires IsIntText(s)
  {
    if IsSign(s[0]) then (if s[0] == '-' then -(DigitsValue(s[1..]) as int) else DigitsValue(s[1..]))
    else DigitsValue(s)
  }

  /** `isInt({ min: m })`. */
  predicate IsIntAtLeast(s: string, m: int)
  {
    IsIntText(s) && IntValue(s) >= m
  }

  /** Every non-negative integer, written plainly, passes `isInt({ min: m })` when it reaches `m`. */
  lemma IntTextAccepted(n: nat, m: int)
    requires n >= m
    ensures IsIntAtLeast(NatText(n), m)
  {
    NatTextRoundTrip(n);
  }

  /** The optional exponent `[eE][-+]?[0-9]+`. */
  datatype Exponent = Exponent(marker: char, sign: string, digits: string)

  /** A text split along the `isFloat` grammar. */
  datatype FloatParts = FloatParts(sign: string, whole: string, point: bool, fraction: string, exponent: Option<Exponent>)

  /** An optional sign: nothing, `+` or `-`. */
  predicate SignText(t: string)
  {
    |t| == 0 || (|t| == 1 && IsSign(t[0]))
  }

  /** Whether an optional sign is the minus sign. */
  predicate Negative(sign: string)
  {
    |sign| > 0 && sign[0] == '-'
  }

  /** An exponent, when there is one, has its marker, an optional sign and at least one digit. */
  predicate ExponentShape(e: Option<Exponent>)
  {
    e.Some? ==>
      && (e.value.marker == 'e' || e.value.marker == 'E')
      && SignText(e.value.sign)
      && |e.value.digits| > 0 && AllDigits(e.value.digits)
  }

  /** The pieces a split is made of, each of the shape the grammar allows. */
  predicate WellFormed(p: FloatParts)
  {
    && SignText(p.sign)
    && AllDigits(p.whole) && AllDigits(p.fraction)
    && (!p.point ==> p.fraction == "")
    && ExponentShape(p.exponent)
  }

  function RenderExponent(e: Option<Exponent>): string
  {
    match e
    case None => ""
    case Some(x) => [x.marker] + x.sign + x.digits
  }

  /** The text a split stands for. */
  function Render(p: FloatParts): string
  {
    p.sign + p.whole + (if p.point then "." + p.fraction else "") + RenderExponent(p.exponent)
  }

  /** How many digits open `s`. */
  function DigitRun(s: string): (k: nat)
    ensures k <= |s|
    ensures forall i :: 0 <= i < k ==> Text.IsDigit(s[i])
    ensures k < |s| ==> !Text.IsDigit(s[k])
  {
    if |s| == 0 || !Text.IsDigit(s[0]) then 0 else 1 + DigitRun(s[1..])
  }

  /** The leading run of digits of `s`, and what follows it. */
  function TakeDigits(s: string): (r: (string, string))
    ensures r.0 + r.1 == s
    ensures AllDigits(r.0)
    ensures |r.1| == 0 || !Text.IsDigit(r.1[0])
  {
    var k := DigitRun(s);
    assert s[..k] + s[k..] == s;
    (s[..k], s[k..])
  }

  /** The digit run in front of something that does not start with a digit is exactly that run. */
  lemma {:induction false} DigitRunOf(d: string, rest: string)
    requires AllDigits(d)
    requires |rest| == 0 || !Text.IsDigit(rest[0])
    ensures DigitRun(d + rest) == |d|
  {
    if |d| > 0 {
      assert (d + rest)[0] == d[0];
      assert (d + rest)[1..] == d[1..] + rest;
      DigitRunOf(d[1..], rest);
    } else {
      assert d + rest == rest;
    }
  }

  /** Taking the digits in front of something that does not start with a digit cuts exactly there. */
  lemma TakeDigitsOf(d: string, rest: string)
    requires AllDigits(d)
    requires |rest| == 0 || !Text.IsDigit(rest[0])
    ensures TakeDigits(d + rest) == (d, rest)
  {
    DigitRunOf(d, rest);
    assert (d + rest)[..|d|] == d && (d + rest)[|d|..] == rest;
  }

  /** Reads `s` as a whole exponent, or as no exponent when `s` is empty. */
  function SplitExponent(s: string): (r: Option<Option<Exponent>>)
    ensures r.Some? ==> ExponentShape(r.value)
  {
    if |s| == 0 then Some(None)
    else if s[0] != 'e' && s[0] != 'E' then None
    else
      var sign := if |s| > 1 && IsSign(s[1]) then s[1..2] else "";
      var digits := TakeDigits(s[1 + |sign|..]);
      if |digits.0| == 0 || |digits.1| > 0 then None
      else Some(Some(Exponent(s[0], sign, digits.0)))
  }

  /** Reads the fraction after the whole part: `.` and digits, or nothing; the rest is left over. */
  function SplitPoint(s: string): (r: (bool, string, string))
    ensures (if r.0 then "." + r.1 else "") + r.2 == s
    ensures AllDigits(r.1) && (!r.0 ==> r.1 == "")
  {
    if |s| > 0 && s[0] == '.' then
      var f := TakeDigits(s[1..]);
      assert s == "." + s[1..];
      (true, f.0, f.1)
    else (false, "", s)
  }

  /** Splits `s` along the `isFloat` grammar, or `None` when `s` is not of that shape. */
  function SplitFloat(s: string): (r: Option<FloatParts>)
    ensures r.Some? ==> WellFormed(r.value)
    ensures r.Some? ==> Render(r.value) == s
  {
    var sign := if |s| > 0 && IsSign(s[0]) then s[..1] else "";
    var whole := TakeDigits(s[|sign|..]);
    var fraction := SplitPoint(whole.1);
    match SplitExponent(fraction.2)
    case None => None
    case Some(e) =>
      SplitExponentRenders(fraction.2);
      assert sign + s[|sign|..] == s;
      Reassemble(sign, whole.0, if fraction.0 then "." + fraction.1 else "", fraction.2, whole.1, s);
      Some(FloatParts(sign, whole.0, fraction.0, fraction.1, e))
  }

  lemma SplitExponentRenders(s: string)
    requires SplitExponent(s).Some?
    ensures RenderExponent(SplitExponent(s).value) == s
  {
    if |s| > 0 {
      var sign := if |s| > 1 && IsSign(s[1]) then s[1..2] else "";
      var digits := TakeDigits(s[1 + |sign|..]);
      assert s == [s[0]] + sign + s[1 + |sign|..];
    }
  }

  /** Four pieces cut off one after another put back together give the text they were cut from. */
  lemma Reassemble(a: string, b: string, c: string, d: string, cd: string, s: string)
    requires c + d == cd && a + (b + cd) == s
    ensures a + b + c + d == s
  {
    calc {
      a + b + c + d;
      { Associate(a + b, c, d); }
      (a + b) + cd;
      { Associate(a, b, cd); }
      s;
    }
  }

  lemma ExponentSplits(e: Option<Exponent>)
    requires ExponentShape(e)
    ensures SplitExponent(RenderExponent(e)) == Some(e)
  {
    if e.Some? {
      ExponentTextSplits(e.value.marker, e.value.sign, e.value.digits);
    }
  }

  /** An exponent written out as marker, optional sign and digits is read back as those three pieces. */
  lemma ExponentTextSplits(marker: char, sign: string, digits: string)
    requires marker == 'e' || marker == 'E'
    requires SignText(sign)
    requires |digits| > 0 && AllDigits(digits)
    ensures SplitExponent([marker] + sign + digits) == Some(Some(Exponent(marker, sign, digits)))
  {
    var s := [marker] + sign + digits;
    assert s[0] == marker;
    if |sign| == 1 {
      assert s[1..2] == sign;
    } else {
      assert s[1] == digits[0];
      assert !IsSign(digits[0]);
    }
    assert s[1 + |sign|..] == digits;
    TakeDigitsOf(digits, "");
    assert digits + "" == digits;
  }

  lemma Associate(a: string, b: string, c: string)
    ensures a + b + c == a + (b + c)
  {
  }

  /** Every well-formed split is read back exactly: the grammar has one reading per text. */
  lemma RenderSplits(p: FloatParts)
    requires WellFormed(p)
    ensures SplitFloat(Render(p)) == Some(p)
  {
    var tail := RenderExponent(p.exponent);
    var point := if p.point then "." + p.fraction else "";
    var afterWhole := point + tail;
    var body := p.whole + afterWhole;
    var s := Render(p);
    calc {
      s;
      p.sign + p.whole + point + tail;
      { Associate(p.sign + p.whole, point, tail); }
      (p.sign + p.whole) + afterWhole;
      { Associate(p.sign, p.whole, afterWhole); }
      p.sign + body;
    }
    ExponentSplits(p.exponent);
    assert |tail| == 0 || (!Text.IsDigit(tail[0]) && tail[0] != '.');
    PointSplits(p.point, p.fraction, tail);
    assert |afterWhole| == 0 || !Text.IsDigit(afterWhole[0]);
    TakeDigitsOf(p.whole, afterWhole);
    assert |body| > 0 ==> !IsSign(body[0]);
    var sign := if |s| > 0 && IsSign(s[0]) then s[..1] else "";
    assert sign == p.sign && s[|sign|..] == body;
  }

  lemma PointSplits(point: bool, fraction: string, tail: string)
    requires AllDigits(fraction) && (!point ==> fraction == "")
    requires |tail| == 0 || (!Text.IsDigit(tail[0]) && tail[0] != '.')
    ensures SplitPoint((if point then "." + fraction else "") + tail) == (point, fraction, tail)
  {
    if point {
      var t := "." + fraction + tail;
      assert t[1..] == fraction + tail;
      TakeDigitsOf(fraction, tail);
    } else {
      assert "" + tail == tail;
    }
  }

  /** The mantissa digits, whole part then fraction. */
  function Mantissa(p: FloatParts): string
  {
    p.whole + p.fraction
  }

  /** `parseFloat` reads a number, not NaN: the mantissa has a digit. */
  predicate HasNumber(p: FloatParts)
  {
    |Mantissa(p)| > 0
  }

  /** The value is below zero: a minus sign in front of a mantissa that is not all zeroes. */
  predicate BelowZero(p: FloatParts)
  {
    Negative(p.sign) && exists i :: 0 <= i < |Mantissa(p)| && Mantissa(p)[i] != '0'
  }

  /** `isFloat({ min: 0 })`: of the grammar's shape, a number, and not below zero (`-0` passes). */
  predicate IsFloatAtLeastZero(s: string)
  {
    SplitFloat(s).Some? && HasNumber(SplitFloat(s).value) && !BelowZero(SplitFloat(s).value)
  }

  function Pow10(n: nat): (r: nat)
    ensures r > 0
  {
    if n == 0 then 1 else 10 * Pow10(n - 1)
  }

  function ExponentValue(e: Option<Exponent>): int
    requires e.Some? ==> AllDigits(e.value.digits)
  {
    match e
    case None => 0
    case Some(x) => if Negative(x.sign) then -(DigitsValue(x.digits) as int) else DigitsValue(x.digits)
  }

  /** The size of the number a split denotes: the mantissa as an integer, scaled by ten to the exponent less the fraction's length. */
  function Magnitude(p: FloatParts): (r: real)
    requires WellFormed(p)
    ensures r >= 0.0
    ensures DigitsValue(Mantissa(p)) == 0 ==> r == 0.0
  {
    var m := DigitsValue(Mantissa(p));
    var scale := ExponentValue(p.exponent) - |p.fraction|;
    if scale >= 0 then
      var n: nat := m * Pow10(scale);
      assert m == 0 ==> n == 0;
      n as real
    else
      Scaled(m, Pow10(-scale))
  }

  /** `m` divided by a positive `q`. */
  function Scaled(m: nat, q: nat): (r: real)
    requires q > 0
    ensures r >= 0.0
    ensures m == 0 ==> r == 0.0
  {
    m as real / q as real
  }

  /** The number a split denotes, exactly. */
  function PartsValue(p: FloatParts): real
    requires WellFormed(p)
  {
    if Negative(p.sign) then -Magnitude(p) else Magnitude(p)
  }

  /** The number a numeric text is cast to; 0 when the text does not have the grammar's shape. */
  function FloatValue(s: string): real
  {
    if SplitFloat(s).Some? then PartsValue(SplitFloat(s).value) else 0.0
  }

  /** What `isFloat({ min: 0 })` accepts is cast to a number that is at least zero. */
  lemma AcceptedFloatNotNegative(s: string)
    requires IsFloatAtLeastZero(s)
    ensures FloatValue(s) >= 0.0
  {
    var p := SplitFloat(s).value;
    if Negative(p.sign) {
      DigitsValueZero(Mantissa(p));
    }
  }

  /** Every integer text is also a float text of the same value, with no fraction and no exponent. */
  lemma IntTextIsFloatText(s: string)
    requires IsIntText(s)
    ensures SplitFloat(s).Some?
    ensures FloatValue(s) == IntValue(s) as real
  {
    var sign := if IsSign(s[0]) then s[..1] else "";
    var digits := s[|sign|..];
    TakeDigitsOf(digits, "");
    assert digits + "" == digits;
    var p := SplitFloat(s).value;
    assert p.whole == digits && p.fraction == "" && p.exponent == None;
    assert Mantissa(p) == digits;
  }
}
