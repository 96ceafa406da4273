/**
 The two C library conversions the tokenizer applies to a word that starts with a digit
 (libs/core/src/tone/core/tokenize.cpp, `fetch_word`): `strtol(word, &end, 0)` and
 `strtod(word, &end)`. Each is modelled by how many characters of the word it accepts
 and the value of that prefix, in the "C" locale. Values are exact: `strtol`'s result
 is clamped to `LONG_MAX` as the library does; `strtod`'s is the exact real the
 digits denote, with no rounding to `double`.

 Words reaching these conversions start with a digit and hold only letters, digits,
 `_` and `.`, so the leading white space and sign `strtol` and `strtod` also accept
 never occur; the functions require a digit-leading word.
 */
module Numbers {

  /** `LONG_MAX` of a 64-bit `long`. */
  const LONG_MAX: nat := 0x7FFF_FFFF_FFFF_FFFF

  predicate IsDecDigit(c: char) {
    '0' <= c <= '9'
  }

  predicate IsOctDigit(c: char) {
    '0' <= c <= '7'
  }

  predicate IsHexDigit(c: char) {
    IsDecDigit(c) || 'a' <= c <= 'f' || 'A' <= c <= 'F'
  }

  /** A digit of the given base (8, 10 or 16). */
  predicate IsDigitIn(c: char, base: nat) {
    if base == 8 then IsOctDigit(c) else if base == 10 then IsDecDigit(c) else IsHexDigit(c)
  }

  /** All characters of w are digits of the base. */
  predicate AllDigits(w: string, base: nat) {
    forall i :: 0 <= i < |w| ==> IsDigitIn(w[i], base)
  }

  function DigitValue(c: char): (d: nat)
    requires IsHexDigit(c)
    ensures d < 16
    ensures IsDecDigit(c) ==> d < 10
    ensures IsOctDigit(c) ==> d < 8
  {
    if IsDecDigit(c) then (c - '0') as nat
    else if 'a' <= c <= 'f' then (c - 'a') as nat + 10
    else (c - 'A') as nat + 10
  }

  /** The value of a digit string in the base, most significant digit first. */
  function Value(w: string, base: nat): nat
    requires base == 8 || base == 10 || base == 16
    requires AllDigits(w, base)
  {
    if w == [] then 0 else Value(w[..|w| - 1], base) * base + DigitValue(w[|w| - 1])
  }

  /** How many digits of the base w starts with. */
  function Run(w: string, base: nat): (n: nat)
    ensures n <= |w|
    ensures AllDigits(w[..n], base)
    ensures n < |w| ==> !IsDigitIn(w[n], base)
  {
    if w == [] || !IsDigitIn(w[0], base) then 0
    else
      var n := Run(w[1..], base);
      assert w[..1 + n] == [w[0]] + w[1..][..n];
      1 + n
  }

  /** What a conversion accepted: how many characters, and the value they denote. */
  datatype Parse<T> = Parse(length: nat, value: T)

  /** `strtol` stores `LONG_MAX` on overflow. */
  function Clamp(v: nat): (r: nat)
    ensures r <= LONG_MAX
    ensures v <= LONG_MAX ==> r == v
    ensures v > LONG_MAX ==> r == LONG_MAX
  {
    if v > LONG_MAX then LONG_MAX else v
  }

  /** `0x` or `0X` at the start of w. */
  predicate HexPrefix(w: string) {
    |w| >= 2 && w[0] == '0' && (w[1] == 'x' || w[1] == 'X')
  }

  /**
   `strtol(w, &end, 0)`: hexadecimal after `0x` followed by a hex digit, octal after a
   leading `0` (a lone `0x` is read as the octal `0`), decimal otherwise.
   */
  function Strtol(w: string): (r: Parse<nat>)
    requires |w| > 0 && IsDecDigit(w[0])
    ensures 1 <= r.length <= |w|
    ensures r.value <= LONG_MAX
  {
    if HexPrefix(w) && |w| >= 3 && IsHexDigit(w[2]) then
      var n := Run(w[2..], 16);
      Parse(2 + n, Clamp(Value(w[2..][..n], 16)))
    else if w[0] == '0' then
      var n := Run(w, 8);
      Parse(n, Clamp(Value(w[..n], 8)))
    else
      var n := Run(w, 10);
      Parse(n, Clamp(Value(w[..n], 10)))
  }

  // ---------------------------------------------------------------------------------------
  // strtod
  // ---------------------------------------------------------------------------------------

  /** b to the power e, for a positive base and an integer exponent. */
  function Power(b: real, e: int): (r: real)
    requires b > 0.0
    ensures r > 0.0
    decreases if e < 0 then -e else e
  {
    if e == 0 then 1.0
    else if e > 0 then b * Power(b, e - 1)
    else Power(b, e + 1) / b
  }

  /** v times b to the power e: the value a mantissa and an exponent denote. */
  function Scale(v: nat, b: real, e: int): (r: real)
    requires b > 0.0
    ensures r >= 0.0
  {
    v as real * Power(b, e)
  }

  /**
   The digits of a mantissa in the base: an integer part, then optionally a point and a
   fraction part. Returns the characters accepted, the digits without the point, and the
   number of fraction digits.
   */
  function Mantissa(w: string, base: nat): (r: (nat, string, nat))
    ensures r.0 <= |w| && r.2 <= |r.1| <= r.0
    ensures AllDigits(r.1, base)
  {
    var ip := Run(w, base);
    if ip < |w| && w[ip] == '.' then
      var fp := Run(w[ip + 1..], base);
      (ip + 1 + fp, w[..ip] + w[ip + 1..][..fp], fp)
    else
      (ip, w[..ip], 0)
  }

  /**
   An exponent: the marker (`e` for decimal, `p` for hexadecimal, either case), an
   optional sign and at least one decimal digit. Returns the characters accepted (0 when
   there is no complete exponent) and the exponent's value.
   */
  function Exponent(w: string, lower: char, upper: char): (r: (nat, int))
    ensures r.0 <= |w|
    ensures r.0 == 0 ==> r.1 == 0
  {
    if |w| == 0 || (w[0] != lower && w[0] != upper) then (0, 0)
    else
      var signed := |w| > 1 && (w[1] == '+' || w[1] == '-');
      var start := if signed then 2 else 1;
      var n := Run(w[start..], 10);
      if n == 0 then (0, 0)
      else
        var v: int := Value(w[start..][..n], 10);
        (start + n, if signed && w[1] == '-' then -v else v)
  }

  /**
   `strtod(w, &end)`: a hexadecimal floating constant after `0x` when at least one hex
   digit follows (otherwise only the `0` is read), else a decimal floating constant.
   */
  function Strtod(w: string): (r: Parse<real>)
    requires |w| > 0 && IsDecDigit(w[0])
    ensures 1 <= r.length <= |w|
    ensures r.value >= 0.0
  {
    if HexPrefix(w) then HexFloat(w) else DecimalFloat(w)
  }

  /** The hexadecimal form of `strtod`, after `0x`: the exponent is binary. */
  function HexFloat(w: string): (r: Parse<real>)
    requires HexPrefix(w)
    ensures 1 <= r.length <= |w|
    ensures r.value >= 0.0
  {
    var m := Mantissa(w[2..], 16);
    if |m.1| == 0 then Parse(1, 0.0)
    else
      var x := Exponent(w[2 + m.0..], 'p', 'P');
      Parse(2 + m.0 + x.0, Scale(Value(m.1, 16), 2.0, x.1 - 4 * m.2))
  }

  /** The decimal form of `strtod`: the exponent is decimal. */
  function DecimalFloat(w: string): (r: Parse<real>)
    requires |w| > 0 && IsDecDigit(w[0])
    ensures 1 <= r.length <= |w|
    ensures r.value >= 0.0
  {
    var m := Mantissa(w, 10);
    MantissaStartsWithDigit(w);
    var x := Exponent(w[m.0..], 'e', 'E');
    Parse(m.0 + x.0, Scale(Value(m.1, 10), 10.0, x.1 - m.2))
  }

  /** A word starting with a digit has a mantissa of at least one character. */
  lemma MantissaStartsWithDigit(w: string)
    requires |w| > 0 && IsDecDigit(w[0])
    ensures Mantissa(w, 10).0 >= 1
  {
    assert Run(w, 10) >= 1 by {
      assert w != [] && IsDigitIn(w[0], 10);
    }
  }

  // ---------------------------------------------------------------------------------------
  // Properties
  // ---------------------------------------------------------------------------------------

  /** The decimal text of n, with no leading zero. */
  function DecimalText(n: nat): (r: string)
    ensures |r| > 0 && AllDigits(r, 10)
    ensures n > 0 ==> r[0] != '0'
    ensures n < 10 <==> |r| == 1
  {
    var d := ['0' + (n % 10) as char];
    if n < 10 then d
    else
      var p := DecimalText(n / 10);
      p + d
  }

  /** Reading the decimal text of n back gives n. */
  lemma {:induction false} DecimalValue(n: nat)
    ensures Value(DecimalText(n), 10) == n
  {
    var t := DecimalText(n);
    if n >= 10 {
      DecimalValue(n / 10);
      assert t[..|t| - 1] == DecimalText(n / 10);
    }
  }

  /** A run over a string made of digits only takes all of it. */
  lemma {:induction false} RunAll(w: string, base: nat)
    requires AllDigits(w, base)
    ensures Run(w, base) == |w|
  {
    if w != [] {
      RunAll(w[1..], base);
    }
  }

  /**
   `strtol` reads the decimal text of any n up to `LONG_MAX` completely and gives n
   back; 0 is read as an octal constant.
   */
  lemma StrtolDecimalRoundTrip(n: nat)
    requires n <= LONG_MAX
    ensures Strtol(DecimalText(n)) == Parse(|DecimalText(n)|, n)
  {
    var t := DecimalText(n);
    DecimalValue(n);
    assert !HexPrefix(t) by {
      if |t| >= 2 {
        assert IsDecDigit(t[1]);
      }
    }
    if n == 0 {
      assert t == "0";
      assert Run(t, 8) == 1;
      assert t[..1] == t;
      assert t[..0] == [];
      assert Value(t, 8) == 0;
    } else {
      RunAll(t, 10);
      assert t[..|t|] == t;
    }
  }

  /** A complete integer constant in the sense of `strtol` with base 0. */
  predicate IsIntegerText(w: string) {
    |w| > 0 && IsDecDigit(w[0]) &&
    (if HexPrefix(w) then |w| >= 3 && AllDigits(w[2..], 16)
     else if w[0] == '0' then AllDigits(w, 8)
     else AllDigits(w, 10))
  }

  /** `strtol` consumes a digit-leading word entirely exactly when it is an integer constant. */
  lemma StrtolFull(w: string)
    requires |w| > 0 && IsDecDigit(w[0])
    ensures Strtol(w).length == |w| <==> IsIntegerText(w)
  {
    if HexPrefix(w) && |w| >= 3 && IsHexDigit(w[2]) {
      var n := Run(w[2..], 16);
      if AllDigits(w[2..], 16) {
        RunAll(w[2..], 16);
      }
      if n == |w[2..]| {
        assert w[2..][..n] == w[2..];
      }
    } else if HexPrefix(w) {
      assert !IsOctDigit(w[1]);
      assert Run(w, 8) == 1;
    } else if w[0] == '0' {
      if AllDigits(w, 8) {
        RunAll(w, 8);
      }
      if Run(w, 8) == |w| {
        assert w[..|w|] == w;
      }
    } else {
      if AllDigits(w, 10) {
        RunAll(w, 10);
      }
      if Run(w, 10) == |w| {
        assert w[..|w|] == w;
      }
    }
  }

  /** The mantissa of a word `a.b` of decimal digits is all of it. */
  lemma MantissaOfPoint(a: string, b: string)
    requires |a| > 0 && AllDigits(a, 10) && AllDigits(b, 10)
    ensures Mantissa(a + "." + b, 10) == (|a| + 1 + |b|, a + b, |b|)
  {
    var w := a + "." + b;
    assert w[..|a|] == a;
    assert w[|a|] == '.';
    RunPrefix(w, |a|, 10);
    assert w[|a| + 1..] == b;
    RunAll(b, 10);
    assert b[..|b|] == b;
  }

  /**
   `strtod` reads a word `a.b` of decimal digits completely, with the value of the digits
   of a and b shifted right by the length of b.
   */
  lemma StrtodDecimalPoint(a: string, b: string)
    requires |a| > 0 && AllDigits(a, 10) && AllDigits(b, 10)
    ensures Strtod(a + "." + b) == Parse(|a| + 1 + |b|, Scale(Value(a + b, 10), 10.0, -(|b| as int)))
  {
    var w := a + "." + b;
    assert w[0] == a[0];
    assert !HexPrefix(w) by {
      if |a| >= 2 {
        assert w[1] == a[1];
      } else {
        assert w[1] == '.';
      }
    }
    MantissaOfPoint(a, b);
    WholeMantissa(w, a + b, |b|);
  }

  /** When the mantissa is the whole word, `strtod` reads the whole word without exponent. */
  lemma WholeMantissa(w: string, digits: string, f: nat)
    requires |w| > 0 && IsDecDigit(w[0]) && !HexPrefix(w)
    requires Mantissa(w, 10) == (|w|, digits, f)
    ensures AllDigits(digits, 10)
    ensures Strtod(w) == Parse(|w|, Scale(Value(digits, 10), 10.0, -(f as int)))
  {
    assert w[|w|..] == [];
    assert Exponent(w[|w|..], 'e', 'E') == (0, 0);
  }

  /** A run that meets a non-digit after k digits has length k. */
  lemma {:induction false} RunPrefix(w: string, k: nat, base: nat)
    requires k <= |w| && AllDigits(w[..k], base)
    requires k < |w| ==> !IsDigitIn(w[k], base)
    ensures Run(w, base) == k
  {
    if k > 0 {
      assert w[1..][..k - 1] == w[..k][1..];
      RunPrefix(w[1..], k - 1, base);
    }
  }
}
