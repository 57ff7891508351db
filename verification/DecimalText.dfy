/** Decimal numerals. */
module DecimalText {

  predicate IsDigit(c: char) {
    '0' <= c <= '9'
  }

  predicate AllDigits(s: string) {
    forall c :: c in s ==> IsDigit(c)
  }

  function DigitChar(d: nat): (c: char)
    requires d < 10
    ensures IsDigit(c)
  {
    '0' + d as char
  }

  function Decimal(n: nat): (s: string)
    ensures s != "" && AllDigits(s)
  {
    if n < 10 then [DigitChar(n)] else Decimal(n / 10) + [DigitChar(n % 10)]
  }

  function Numeral(n: int): string {
    if n < 0 then "-" + Decimal(-n) else Decimal(n)
  }

  // int(s) for a string of digits.
  function ParseDecimal(s: string): nat
    requires AllDigits(s)
  {
    if s == "" then 0 else
    assert IsDigit(s[|s| - 1]);
    10 * ParseDecimal(s[..|s| - 1]) + (s[|s| - 1] as int - '0' as int)
  }

  lemma {:induction false} ParseDecimalOf(n: nat)
    ensures ParseDecimal(Decimal(n)) == n
    decreases n
  {
    var s := Decimal(n);
    if n < 10 {
      assert s[..0] == "";
    } else {
      ParseDecimalOf(n / 10);
      assert s[..|s| - 1] == Decimal(n / 10);
    }
  }

  // Digits with no superfluous zero in front.
  predicate Plain(s: string) {
    s != "" && AllDigits(s) && (|s| > 1 ==> s[0] != '0')
  }

  lemma {:induction false} PlainIsPositive(s: string)
    requires Plain(s) && (|s| > 1 || s[0] != '0')
    ensures ParseDecimal(s) > 0
    decreases |s|
  {
    assert s[0] in s && s[|s| - 1] in s;
    if |s| == 1 {
      assert s[..0] == "";
    } else {
      assert s[..|s| - 1][0] == s[0];
      PlainIsPositive(s[..|s| - 1]);
    }
  }

  lemma {:induction false} DecimalIsPlain(n: nat)
    ensures Plain(Decimal(n)) && (Decimal(n)[0] == '0' <==> n == 0)
    decreases n
  {
    if n >= 10 { DecimalIsPlain(n / 10); }
  }

  /** A numeral is the only plain text of digits with its value. */
  lemma {:induction false} DecimalIff(n: nat, s: string)
    ensures s == Decimal(n) <==> Plain(s) && ParseDecimal(s) == n
    decreases |s|
  {
    DecimalIsPlain(n);
    ParseDecimalOf(n);
    if Plain(s) && ParseDecimal(s) == n {
      var m := |s| - 1;
      assert s[m] in s && IsDigit(s[m]) && s == s[..m] + [s[m]];
      var d := s[m] as int - '0' as int;
      assert DigitChar(d) == s[m];
      if m == 0 {
        assert s[..0] == "";
      } else {
        assert s[..m][0] == s[0];
        if m > 1 || s[0] != '0' { PlainIsPositive(s[..m]); }
        DecimalIff(n / 10, s[..m]);
      }
    }
  }

  lemma NumeralInjective(m: int, n: int)
    requires Numeral(m) == Numeral(n)
    ensures m == n
  {
    NumeralSign(m);
    NumeralSign(n);
    if m < 0 {
      assert Numeral(m)[1..] == Decimal(-m) && Numeral(n)[1..] == Decimal(-n);
      ParseDecimalOf(-m);
      ParseDecimalOf(-n);
    } else {
      ParseDecimalOf(m);
      ParseDecimalOf(n);
    }
  }

  lemma NumeralSign(n: int)
    ensures Numeral(n) != "" && (Numeral(n)[0] == '-' <==> n < 0)
    ensures ',' !in Numeral(n)
  {
    var digits := Decimal(if n < 0 then -n else n);
    assert digits[0] in digits;
  }

  // ----- thousands separators -----

  function Pad3(n: nat): string
    requires n < 1000
  {
    [DigitChar(n / 100), DigitChar(n / 10 % 10), DigitChar(n % 10)]
  }

  // format(n, ',')
  function Thousands(n: nat): string {
    if n < 1000 then Decimal(n) else Thousands(n / 1000) + "," + Pad3(n % 1000)
  }

  function Grouped(n: int): string {
    if n < 0 then "-" + Thousands(-n) else Thousands(n)
  }

  /** Counted from the right, every fourth character and no other is a comma, and none comes first. */
  lemma {:induction false} CommaPlaces(n: nat, k: nat)
    requires k < |Thousands(n)|
    ensures Thousands(n)[|Thousands(n)| - 1 - k] == ',' <==> k % 4 == 3
    ensures Thousands(n)[0] != ','
    decreases n
  {
    var s := Thousands(n);
    if n < 1000 {
      SmallDecimal(n);
      assert s[|s| - 1 - k] in s && s[0] in s;
    } else {
      var high := Thousands(n / 1000);
      CommaPlaces(n / 1000, if k >= 4 then k - 4 else 0);
      if k >= 4 {
        assert s[|s| - 1 - k] == high[|high| - 1 - (k - 4)];
      } else {
        assert |s| == |high| + 4 && s[|high|] == ',';
        PadDigits(n % 1000);
        if k < 3 { assert s[|s| - 1 - k] == Pad3(n % 1000)[2 - k]; }
      }
    }
  }

  lemma SmallDecimal(n: nat)
    requires n < 1000
    ensures |Decimal(n)| <= 3 && ',' !in Decimal(n)
  {
    assert n / 10 / 10 < 10;
    if n >= 10 {
      DecimalByTens(n);
      if n / 10 >= 10 { DecimalByTens(n / 10); }
    }
  }

  lemma PadDigits(n: nat)
    requires n < 1000
    ensures forall i :: 0 <= i < 3 ==> Pad3(n)[i] != ','
  {
  }

  lemma DecimalByThousands(n: nat)
    requires n >= 1000
    ensures Decimal(n) == Decimal(n / 1000) + Pad3(n % 1000)
  {
    ThreeDigits(n);
    DecimalByTens(n);
    DecimalByTens(n / 10);
    DecimalByTens(n / 10 / 10);
  }

  lemma DecimalByTens(n: nat)
    requires n >= 10
    ensures Decimal(n) == Decimal(n / 10) + [DigitChar(n % 10)]
  {
  }

  lemma ThreeDigits(n: nat)
    ensures n / 10 / 10 / 10 == n / 1000
    ensures n % 1000 / 100 == n / 10 / 10 % 10 && n % 1000 / 10 % 10 == n / 10 % 10 && n % 1000 % 10 == n % 10
  {
  }

  // The digits at the front of a text, as a greedy \d+ takes them.
  function LeadingDigits(s: string): (d: string)
    ensures AllDigits(d)
  {
    if s == "" || !IsDigit(s[0]) then "" else [s[0]] + LeadingDigits(s[1..])
  }

  lemma {:induction false} LeadingDigitsOf(digits: string, rest: string)
    requires AllDigits(digits) && (rest == "" || !IsDigit(rest[0]))
    ensures LeadingDigits(digits + rest) == digits
    decreases digits
  {
    if digits == "" {
      assert digits + rest == rest;
    } else {
      assert digits[0] in digits;
      assert (digits + rest)[1..] == digits[1..] + rest;
      LeadingDigitsOf(digits[1..], rest);
    }
  }
}
