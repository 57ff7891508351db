/** How felts are printed as "0x" identifiers and read back. */
module FeltText {

  import opened Options
  import opened Field

  const HEX_DIGITS: string := "0123456789abcdef"

  type Octet = b: int | 0 <= b < 256

  // Big-endian bytes without leading zeros; zero is one zero byte.
  function BytesBe(n: nat): (b: seq<Octet>)
    ensures |b| > 0
  {
    if n < 256 then [n] else BytesBe(n / 256) + [n % 256]
  }

  function HexByte(b: Octet): string {
    [HEX_DIGITS[b / 16], HEX_DIGITS[b % 16]]
  }

  function HexEncode(bytes: seq<Octet>): string {
    if bytes == [] then "" else
    HexEncode(bytes[..|bytes| - 1]) + HexByte(bytes[|bytes| - 1])
  }

  /** The identifier of a felt. */
  function Identifier(v: Felt): string {
    "0x" + HexEncode(BytesBe(v))
  }

  function HexValue(c: char): Option<nat> {
    if '0' <= c <= '9' then Some(c as int - '0' as int)
    else if 'a' <= c <= 'f' then Some(c as int - 'a' as int + 10)
    else if 'A' <= c <= 'F' then Some(c as int - 'A' as int + 10)
    else None
  }

  function HexNumber(s: string): Option<nat> {
    if s == "" then Some(0) else
    match (HexNumber(s[..|s| - 1]), HexValue(s[|s| - 1]))
    case (Some(high), Some(d)) => Some(16 * high + d)
    case _ => None
  }

  /** A felt read from hexadecimal digits: no digits or a stray character is an error. */
  function ParseFelt(s: string): Option<Felt> {
    if s == "" then None
    else match HexNumber(s)
      case None => None
      case Some(n) => Some(Reduce(n))
  }

  /** The sixteen digits in both cases, and no other character. */
  lemma HexValueIff(c: char, d: nat)
    ensures HexValue(c) == Some(d) <==> d < 16 && (c == "0123456789abcdef"[d] || c == "0123456789ABCDEF"[d])
  {
  }

  lemma HexDigitValue(d: nat)
    requires d < 16
    ensures HexValue(HEX_DIGITS[d]) == Some(d)
  {
  }

  lemma HexNumberByte(s: string, n: nat, b: Octet)
    requires HexNumber(s) == Some(n)
    ensures HexNumber(s + HexByte(b)) == Some(256 * n + b)
  {
    var hi, lo := HEX_DIGITS[b / 16], HEX_DIGITS[b % 16];
    HexDigitValue(b / 16);
    HexDigitValue(b % 16);
    assert (s + [hi])[..|s|] == s;
    assert s + HexByte(b) == s + [hi] + [lo];
    assert (s + HexByte(b))[..|s| + 1] == s + [hi];
  }

  lemma {:induction false} HexNumberOfBytes(n: nat)
    ensures HexNumber(HexEncode(BytesBe(n))) == Some(n)
    decreases n
  {
    var bytes := BytesBe(n);
    if n < 256 {
      assert bytes[..0] == [];
      assert HexEncode(bytes) == "" + HexByte(n);
      HexNumberByte("", 0, n);
    } else {
      var high := BytesBe(n / 256);
      HexNumberOfBytes(n / 256);
      assert bytes == high + [n % 256] && bytes[..|bytes| - 1] == high;
      assert HexEncode(bytes) == HexEncode(high) + HexByte(n % 256);
      HexNumberByte(HexEncode(high), n / 256, n % 256);
    }
  }

  /** Reading an identifier past its "0x" gives the felt back. */
  lemma ParseIdentifier(v: Felt)
    ensures |Identifier(v)| > 2 && Identifier(v)[..2] == "0x"
    ensures ParseFelt(Identifier(v)[2..]) == Some(v)
  {
    HexNumberOfBytes(v);
    var digits := HexEncode(BytesBe(v));
    assert Identifier(v)[2..] == digits;
    assert |digits| > 0;
    ReduceSmall(v);
  }

  lemma SameResidue(x: int, y: int)
    ensures Reduce(x) == Reduce(y) <==> (x - y) % P == 0
  {
    var q, q', r, r' := x / P, y / P, x % P, y % P;
    if r == r' {
      QuotientUnique(x - y, q - q', 0);
    } else if (x - y) % P == 0 {
      QuotientUnique(x, q' + (x - y) / P, r');
    }
  }

  /** Two numbers in hexadecimal are read as the same felt exactly when they differ by a multiple of P. */
  lemma SameFeltIff(s: string, t: string)
    requires s != "" && t != "" && HexNumber(s).Some? && HexNumber(t).Some?
    ensures ParseFelt(s) == ParseFelt(t) <==> (HexNumber(s).value - HexNumber(t).value) % P == 0
  {
    SameResidue(HexNumber(s).value, HexNumber(t).value);
  }

  // ----- the identifier as a normal form -----

  predicate LowerHex(c: char) {
    '0' <= c <= '9' || 'a' <= c <= 'f'
  }

  // Pairs of lower-case digits, as few as possible.
  predicate ShortestBytes(s: string) {
    && |s| >= 2 && |s| % 2 == 0 && (forall c :: c in s ==> LowerHex(c))
    && (|s| > 2 ==> s[..2] != "00")
  }

  lemma OneDigit(c: char)
    ensures HexNumber([c]) == HexValue(c)
  {
    assert [c][..0] == "" && HexNumber("") == Some(0);
  }

  lemma OneMore(s: string, c: char)
    ensures HexNumber(s + [c]) ==
      if HexNumber(s).Some? && HexValue(c).Some? then Some(16 * HexNumber(s).value + HexValue(c).value) else None
  {
    assert (s + [c])[..|s|] == s;
  }

  lemma HexByteIff(s: string, b: Octet)
    requires |s| == 2 && LowerHex(s[0]) && LowerHex(s[1])
    ensures HexNumber(s) == Some(b) <==> s == HexByte(b)
  {
    PairValue(s);
    LowerDigit(s[0]);
    LowerDigit(s[1]);
    HexDigitValue(b / 16);
    HexDigitValue(b % 16);
    var high, low := HexValue(s[0]).value, HexValue(s[1]).value;
    if 16 * high + low == b {
      assert b / 16 == high && b % 16 == low;
    }
  }

  lemma LowerDigit(c: char)
    requires LowerHex(c)
    ensures HexValue(c).Some? && HexValue(c).value < 16 && HEX_DIGITS[HexValue(c).value] == c
  {
    var d := HexValue(c).value;
    HexValueIff(c, d);
  }

  lemma PairValue(s: string)
    requires |s| == 2
    ensures HexNumber(s) ==
      if HexValue(s[0]).Some? && HexValue(s[1]).Some? then Some(16 * HexValue(s[0]).value + HexValue(s[1]).value)
      else None
  {
    OneDigit(s[0]);
    OneMore([s[0]], s[1]);
    assert s == [s[0]] + [s[1]];
  }

  // The value of all but the last pair, and of the last pair.
  lemma LastPair(s: string, n: nat)
    requires |s| > 2 && HexNumber(s) == Some(n)
    ensures
      var head, pair := s[..|s| - 2], s[|s| - 2..];
      && HexNumber(head).Some? && HexNumber(pair).Some?
      && n == 256 * HexNumber(head).value + HexNumber(pair).value && HexNumber(pair).value < 256
  {
    var head, pair := s[..|s| - 2], s[|s| - 2..];
    OneMore(head, pair[0]);
    OneMore(head + [pair[0]], pair[1]);
    assert s == head + [pair[0]] + [pair[1]];
    PairValue(pair);
  }

  lemma {:induction false} ShortestIsPositive(s: string, n: nat)
    requires ShortestBytes(s) && HexNumber(s) == Some(n) && (|s| > 2 || s != "00")
    ensures n > 0
    decreases |s|
  {
    if |s| == 2 {
      assert s[0] in s && s[1] in s;
      HexByteIff(s, 0);
      assert HexByte(0) == "00";
    } else {
      LastPair(s, n);
      assert s[..|s| - 2][..2] == s[..2];
      ShortestIsPositive(s[..|s| - 2], HexNumber(s[..|s| - 2]).value);
    }
  }

  lemma {:induction false} EncodedIsShortest(n: nat)
    ensures ShortestBytes(HexEncode(BytesBe(n))) && (HexEncode(BytesBe(n)) == "00" <==> n == 0)
    decreases n
  {
    var s := HexEncode(BytesBe(n));
    if n < 256 {
      assert BytesBe(n)[..0] == [];
      assert s == "" + HexByte(n) == HexByte(n);
      HexDigitsLower(n);
    } else {
      var high := HexEncode(BytesBe(n / 256));
      EncodedIsShortest(n / 256);
      assert BytesBe(n)[..|BytesBe(n)| - 1] == BytesBe(n / 256);
      assert s == high + HexByte(n % 256);
      HexDigitsLower(n % 256);
      assert s[..2] == high[..2];
      if |high| == 2 { assert high[..2] == high; }
    }
  }

  lemma HexDigitsLower(b: Octet)
    ensures LowerHex(HexByte(b)[0]) && LowerHex(HexByte(b)[1])
    ensures HexByte(b) == "00" <==> b == 0
  {
    HexDigitValue(b / 16);
    HexDigitValue(b % 16);
  }

  /** The digits of an identifier are the only shortest lower-case pairs with its value. */
  lemma {:induction false} EncodedIff(n: nat, s: string)
    ensures s == HexEncode(BytesBe(n)) <==> ShortestBytes(s) && HexNumber(s) == Some(n)
    decreases |s|
  {
    EncodedIsShortest(n);
    HexNumberOfBytes(n);
    if ShortestBytes(s) && HexNumber(s) == Some(n) { ShortestIsEncoded(n, s); }
  }

  lemma {:induction false} ShortestIsEncoded(n: nat, s: string)
    requires ShortestBytes(s) && HexNumber(s) == Some(n)
    ensures s == HexEncode(BytesBe(n))
    decreases |s|
  {
    if |s| == 2 {
      ShortValue(s, n);
      OnePair(s, n);
    } else {
      var m := |s| - 2;
      var head, pair := s[..m], s[m..];
      LastPair(s, n);
      var high, low := HexNumber(head).value, HexNumber(pair).value;
      ShortestHead(s);
      ShortestIsPositive(head, high);
      ShortestIsEncoded(high, head);
      PairIsByte(s, low);
      EncodeNext(high, low);
      assert s == head + pair;
    }
  }

  lemma OnePair(s: string, b: Octet)
    requires ShortestBytes(s) && |s| == 2 && HexNumber(s) == Some(b)
    ensures s == HexEncode(BytesBe(b))
  {
    assert s[0] in s && s[1] in s;
    HexByteIff(s, b);
    assert BytesBe(b)[..0] == [] && HexEncode(BytesBe(b)) == "" + HexByte(b);
  }

  lemma PairIsByte(s: string, b: Octet)
    requires ShortestBytes(s) && HexNumber(s[|s| - 2..]) == Some(b)
    ensures s[|s| - 2..] == HexByte(b)
  {
    var pair := s[|s| - 2..];
    assert pair[0] == s[|s| - 2] && pair[1] == s[|s| - 1];
    assert s[|s| - 2] in s && s[|s| - 1] in s;
    HexByteIff(pair, b);
  }

  lemma EncodeNext(high: nat, low: Octet)
    requires high > 0
    ensures HexEncode(BytesBe(256 * high + low)) == HexEncode(BytesBe(high)) + HexByte(low)
  {
    var n := 256 * high + low;
    assert n / 256 == high && n % 256 == low;
    assert BytesBe(n)[..|BytesBe(n)| - 1] == BytesBe(high);
  }

  lemma ShortestHead(s: string)
    requires ShortestBytes(s) && |s| > 2
    ensures ShortestBytes(s[..|s| - 2]) && s[..|s| - 2] != "00"
  {
    var head := s[..|s| - 2];
    assert head[..2] == s[..2];
    if |head| == 2 { assert head[..2] == head; }
  }

  lemma ShortValue(s: string, n: nat)
    requires |s| == 2 && HexNumber(s) == Some(n)
    ensures n < 256
  {
    PairValue(s);
  }

  /** An identifier is "0x" and the shortest lower-case pairs of digits with the felt's value, and no other
      text is. */
  lemma IdentifierIff(v: Felt, s: string)
    ensures s == Identifier(v) <==>
      |s| > 2 && s[..2] == "0x" && ShortestBytes(s[2..]) && HexNumber(s[2..]) == Some(v)
  {
    var digits := HexEncode(BytesBe(v));
    EncodedIff(v, digits);
    assert Identifier(v)[2..] == digits && Identifier(v)[..2] == "0x";
    if |s| > 2 && s[..2] == "0x" {
      EncodedIff(v, s[2..]);
      assert s == s[..2] + s[2..];
    }
  }

  /** Different felts have different identifiers. */
  lemma IdentifierInjective(u: Felt, v: Felt)
    requires Identifier(u) == Identifier(v)
    ensures u == v
  {
    ParseIdentifier(u);
    ParseIdentifier(v);
  }
}
